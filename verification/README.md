# Makisu, modelled and proved

Makisu builds container images without a Docker daemon. This project models the
parts of it whose correctness no finite set of examples settles, and proves what
they promise. `dafny verify dfyconfig.toml` checks all of it.

The six parts, and what is proved of each:

* **Layer diffing** (`Paths`, `PathStrings`, `PathWalks`, `TarHeaders`, `Layers`, `ScanTheory`,
  `MemTree`, `Ancestors`, `MemFiles`, `LayerSteps`, `SortedPaths`, `DiskScan`,
  `TarReplay`, `CompareTrees`, `Removal`). The merged view of all layers is a mutable
  graph of nodes; a scan of the disk changes it in place while it writes a layer. The
  scan leaves exactly the disk's paths with similar headers, and its layer, replayed
  in the order it is written on another copy of the old tree, never fails and
  gives the same tree; so does reading it back from its tar, the way cached layers
  are applied. A call that still holds a replaced node is covered: what
  it may rely on is stated by `MemFiles.Mirrors`. Ancestors are added by following
  symlinks up to 1024 times, which is proved to be symlink resolution.
* **Layers of copies** (`CopyLayers`, `CopyLaw`, `CopyAncestors`, `CopyPlans`,
  `CopiedTrees`, `CopiedContents`, `CopyFiles`, `CopyExamples`). COPY and ADD build their layer from the
  sources without a scan. That layer is not always a correct diff. The exact condition,
  for any tree and any links: after every entry the layer replays to the tree in
  memory if and only if every entry fits where it is put. A file must not go over
  something below which the layer holds an entry, and a directory must not go over a
  file, or a whiteout, that in this layer replaced a directory with something left in
  it. Two runs that fail are given: a file over a directory copied before, and two
  files through one symlink. One directory copied to a place free of links always
  fits, and leaves the old tree with the source laid over it: every file at its place
  with the owner of the operation and all else from the source.
* **Cached builds** (`BuildSpec`, `BuildStage`, `CachedBuild`, `CacheProof`,
  `CacheTheorem`, `CacheExact`, `BuildMeaning`, `LookTrees`, `CopyLooks`, `TreeWorld`,
  `CacheEntries`, `CacheManager`, `CacheLag`). A stage built from
  a cache filled by earlier builds, complete or interrupted, ends with the same
  layers, file systems and image config as an uncached build, or fails with the
  same error. The uncached build itself is what the Dockerfile means: the layers of
  the image rebuild the file system that its steps give when they are carried out in
  turn. That holds of cached builds unless a step runs again by mistake. The exact condition:
  an annotated step stored as the empty marker stands before a step that changes
  files and was not looked up, and a pulled layer stands after both. `latestFetched`
  stops at the empty marker, so the step between is executed although the later
  layer already holds its effect. `CacheExact` shows that the condition cannot be
  weakened and gives a five-step Dockerfile that meets it. `TreeWorld` joins this to
  the layers above: those of scans, and those of copies wherever every entry fits,
  meet the diff law the theorem rests on. The
  cache manager pushes in the background, and the store ends with the latest push
  of an ID exactly when nothing older is still under way.
* **File map and file store** (`Queues`, `FileMapProtocol`, `FileMapSafety`,
  `FileMapEnds`, `FileMapCalls`, `LruFileMap`, `StorePlaces`, `FileStore`,
  `StoreRuns`). With any number
  of goroutines interleaved at every lock operation a callback always runs on the entry
  its name leads to. While a call is unfinished some call can step, and once no new
  calls come a run is bounded and can go on until every call has ended. A call left
  alone changes the map as one operation. Used by one
  goroutine the map forgets the name used longest ago. Every operation of the file
  store is specified for any store, loaded or not; a store opened over the files of an
  earlier run, evictions included, agrees with the disk after every further run. One
  not opened can come to hold a file twice, under an exact condition. Whatever is
  created, moved, evicted and read, a file holds what it was last created with.
* **Image pull and chunked push** (`PullProtocol`, `PullEnds`, `ChunkUpload`). A manifest is
  saved exactly when everything was pulled, and every pull ends. That needs a worker:
  a `concurrency` of zero is replaced by three (lib/registry/config.go:66-67), so
  only a negative one gives a pool without workers, which saves the manifest with
  nothing pulled. The chunk loop
  computes the new end from the old start, so every second request is empty; it
  sends each byte exactly once all the same.
* **Dockerfile machines** (`Characters`, `ReplaceVars`, `Templates`, `NestedNames`,
  `Quoting`, `QuotedSpans`, `SplitArgs`, `SplitWords`, `ShellTokens`, `KeyVals`,
  `PairWords`). Variable replacement with its explicit stack computes
  the recursive meaning of a template, to any nesting; where it does not replace
  what stands inside a name, the exact condition is given. Splitting and pairs are
  computed, for every input, as they are read off word by word; quoting round-trips,
  with the exact condition for argument lists and for dictionaries.

How to read it. A class with methods stands where the program changes state; each
method is proved against a function of the old state, and the theorems are about
those functions. A protocol is a state with a step function; its theorems hold of
every run. A path is a sequence of component names below the root, and `PathStrings`
proves that this is what the string operations compute.

What the model takes as given:

* The disk is a map from paths to the headers made for them. Headers keep the
  fields the comparison reads; `mode` is what `FileInfo().Mode()` returns and times
  are nanoseconds. The clock is read once per call.
* Layers and digests are values: two layers with the same digest are the same.
* In the cached-build theorem a step, a scan and a copy do to a file system what a
  `World` says, and `Lawful` is the diff law: a layer turns the state it was made
  from into the one it was made for. RUN may fail; copies do not.
* A cache entry belongs to one node of one stage, so different step chains have
  different cache IDs. In the program the ID of ADD and COPY leaves out the commit
  annotation (lib/builder/step/add_copy_step.go:104-123), so two Dockerfiles that
  differ in that annotation only share IDs.
* `GetName()` of a file entry is the name it is stored under. File names are
  single path components. File operations that need the disk succeed, except
  where an error is modelled.
* Registries keep the layers they were given.

Where code and comments disagree the model follows the code: the comment at
lib/storage/base/file_map.go:48-50 says only reads and writes update the recency,
but peeks and deletes move the entry to the front as well.

## Model

| member | source | states |
|---|---|---|
| TarHeaders.SimilarIsAnEquivalence | lib/tario/compare.go:24-120 | similarity of headers is reflexive on supported types, symmetric even where it reports an error, transitive on named headers, and never equates two of directory, symlink, hard link and regular file |
| TarHeaders.IgnoringTime | lib/tario/compare.go:24-120 | with times ignored the answer is the one for headers of one and the same time |
| LookTrees.SimilarButForTime | lib/tario/compare.go:24-120 | with times ignored, headers are similar exactly when they look the same at one and the same time |
| PathStrings.IsDescendantOfAny | lib/pathutils/path.go:24-36 | true exactly when one of the paths is a component-wise ancestor of the given one or the path itself |
| PathStrings.DescendantIsWithin | lib/pathutils/path.go:26-34 | the string test with trailing slashes is the component-wise ancestor relation, for arbitrary unclean strings |
| PathStrings.RenderRoundTrip | lib/pathutils/path.go:41-61 | splitting the string of a path gives its components back, and the string is its own absolute form |
| PathStrings.AbsPathIsRendered | lib/pathutils/path.go:41-43 | the absolute form of any string is the string of a proper path, and taking it twice changes nothing |
| PathWalks.AbsPathIsWalk | lib/pathutils/path.go:41-43 | the absolute form of any string is where its components lead from the root, `.` staying and `..` going up |
| PathWalks.LinkTargetWalks | lib/snapshot/mem_fs.go:535-544 | a link target of any kind, joined with the remaining components, leads where the link as written and then those components lead; it is clean |
| PathStrings.AbsoluteLinkTarget | lib/snapshot/mem_fs.go:535-544 | joining an absolute clean link target with the components that remain puts the target's components in front of them |
| Paths.AncestorsSortFirst | lib/snapshot/mem_layer.go:232-244 | in byte order every directory comes before what it contains |
| Layers.PutKeepsShape | lib/snapshot/mem_layer.go:55-124 | an entry that can be applied keeps the view a tree in which only directories have children |
| Layers.WholeReplayIsOverlay | lib/snapshot/mem_layer.go:232-244 | replaying a well-formed layer in any order that puts ancestors first never fails and gives the same overlay |
| MemTree.MemFS.Descend | lib/snapshot/mem_layer.go:60-68 | walking the components from the root reaches exactly the node of the path, or fails exactly when it is missing |
| MemTree.MemFS.UpdateContent | lib/snapshot/mem_layer.go:55-80 | on the node graph a content entry is the path-map update: a directory changes its own path only, another file also removes what was below it, an error changes nothing, and the result is a tree again although children are shared with the replaced node |
| MemTree.MemFS.UpdateWhiteout | lib/snapshot/mem_layer.go:105-124 | a whiteout removes the path with everything below it and nothing else; an error changes nothing |
| MemTree.AttachKeepsGraph | lib/snapshot/mem_layer.go:55-80 | hanging a new node that takes over the children of the old one leaves every path with one node and every node with one path |
| MemFiles.MemLayer.AddHeader | lib/snapshot/mem_layer.go:197-213 | a header named as a whiteout is recorded as a whiteout of the name without the prefix, any other as content at its path |
| MemFiles.MemLayer.AddWhiteout | lib/snapshot/mem_layer.go:217-228 | a whiteout is recorded at the deleted path, and refused for a name that looks like a whiteout |
| MemFiles.Update | lib/snapshot/mem_layer.go:55-124 | either kind of entry changes the node graph as it changes the view, and touches the children of one node only |
| MemFiles.AddChildAgain | lib/snapshot/mem_fs.go:525-534 | re-adding an existing directory through a parent that may have been replaced leaves the tree as it was and records the directory in the layer |
| MemFiles.AddAncestors | lib/snapshot/mem_fs.go:509-569 | the loop over nodes, stale ones included, computes the specification on views, and leaves nodes off the way alone |
| Ancestors.AddAncestorsIsResolution | lib/snapshot/mem_fs.go:509-569 | for absolute clean links the result is the reference symlink resolution: fewer than 1024 hops over a first symlink lead to it and no symlink is left on its way; the call fails exactly when 1024 hops can be made, and only so; otherwise all required prefixes are directories of the tree and in the layer, only they are created, as directories of the given owner and time with the mode of the last directory that was there, and no header changes |
| Ancestors.ResolveFollowsLinks | lib/snapshot/mem_fs.go:524-548 | the reference resolution ends where hopping over first symlinks ends, and fails exactly when the hops go on |
| Ancestors.AddAncestorsResolves | lib/snapshot/mem_fs.go:509-544 | at every recursion depth the answer, errors included, is the resolution with the hops that are left |
| Ancestors.AddMissingCreates | lib/snapshot/mem_fs.go:551-566 | the missing rest of a path is created as directories and nothing else changes |
| MemFiles.IsUpdated | lib/snapshot/mem_fs.go:487-503 | a header counts as updated when its path is new or the node there is not similar, and the node is handed back as it was before |
| MemFiles.MaybeAddToLayer | lib/snapshot/mem_fs.go:440-483 | the file is added with its ancestors if it changed, then exactly the children of the node held from before that are no longer on disk are whited out, in whatever order they come up |
| LayerSteps.VisitStep | lib/snapshot/mem_fs.go:440-483 | visiting one path takes the partly scanned tree and layer to the ones with that path scanned, whatever the order of whiteouts |
| LayerSteps.VisitNeverFails | lib/snapshot/mem_fs.go:440-483 | on a scannable tree and disk a visit reports no error |
| Ancestors.BareWhiteoutErasesItsHolder | lib/snapshot/mem_layer.go:105-212 | a file named exactly `.wh.` erases the directory that holds it and all below it, and nothing else |
| LayerSteps.WhiteoutsAreRefused | lib/snapshot/mem_layer.go:217-229 | erasing paths of which one already is a whiteout fails, so a scan never whites out a whiteout |
| LayerSteps.ClimbExisting | lib/snapshot/mem_fs.go:524-534 | ancestors that exist as directories are added to the layer and the tree is left alone |
| LayerSteps.WhiteOutAllChildren | lib/snapshot/mem_fs.go:462-479 | whiting out distinct children erases exactly their subtrees and records exactly their whiteouts |
| SortedPaths.SortPaths | lib/snapshot/mem_layer.go:233-237 | the keys come out sorted and each exactly once |
| SortedPaths.SortedIsAncestorsFirst | lib/snapshot/mem_layer.go:233-237 | sorted keys put every directory before what it contains |
| DiskScan.Walk | lib/snapshot/mem_fs.go:315-349 | walking a subtree scans exactly the paths in it |
| DiskScan.CreateLayerByScan | lib/snapshot/mem_fs.go:315-349 | the scan never fails, the tree becomes the merged view of the disk and the layer the scan layer |
| DiskScan.ApplyLayer | lib/snapshot/mem_layer.go:232-244 | applying a layer in its written order is its replay, and gives the overlay for every well-formed layer |
| DiskScan.ScanThenApply | lib/snapshot/mem_fs.go:315-503 | the scan of one tree and its layer applied to another copy of the old tree end in the same tree, with the disk's paths and similar headers |
| CopyLayers.CopiesAreEntries | lib/snapshot/mem_fs.go:353-421 | what copies leave in the tree and in the layer is what their entries leave, ancestors and files in the order they are added |
| CopyLaw.EntriesAreExact | lib/snapshot/mem_layer.go:197-244 | for any entries, whiteouts included, on any tree: the layer replays to the tree in memory before and after each of them if and only if every entry fits where it is put |
| CopyLaw.CopyLayerLaw | lib/snapshot/mem_fs.go:276-421 | the same for any copy operations, through links or not; and if every entry fits the finished layer turns the old tree into the new one |
| CopyLaw.MisfitBreaks | lib/snapshot/mem_layer.go:55-80 | an entry that does not fit leaves a layer whose replay is not the tree in memory |
| CopyAncestors.AncestorsFit | lib/snapshot/mem_fs.go:509-569 | where only directories have children and the layer has no whiteouts, the ancestors added for a path always fit, missing, existing or reached by links |
| CopiedTrees.PlanIsLaid | lib/snapshot/mem_fs.go:386-420 | files that come once each and after their directories fit, cannot fail, and end up laid over the tree |
| CopiedTrees.DirectoryIsLaid | lib/snapshot/mem_fs.go:353-421 | copying a directory to a place free of links, into which a layer without whiteouts has put nothing yet, cannot fail; its layer is a correct diff and the tree is the old one with the destination made and the source laid over it |
| CopiedContents.DirectoryIsCopied | lib/snapshot/mem_fs.go:353-421 | after a directory is copied, each of its files stands at its place below the destination with the owner of the operation and everything else from the source, unless a similar one was there; nothing else is new, and nothing is gone but what was below a place a file has taken |
| CopiedContents.FileIsCopied | lib/snapshot/mem_fs.go:356-420 | a single file stands at the destination, or in it under its own name if it is written as a directory, with the owner of the operation; besides it only missing directories on the way are new |
| CopiedContents.CopiedFilesAre | lib/snapshot/mem_fs.go:379-420 | several sources bring exactly the files each of them brings, those of an earlier source first |
| CopyFiles.CopyToLayer | lib/snapshot/mem_fs.go:353-421 | the loops over sources and walks compute the specification on the node graph, and the first error stops them |
| CopyFiles.CreateLayerByCopies | lib/snapshot/mem_fs.go:276-289 | all operations write into one layer, in order |
| CopyFiles.CopyThenApply | lib/snapshot/mem_fs.go:276-289 | if every entry fits, the copies on one tree and their layer applied to another copy of the old tree end in the same tree |
| CopyExamples.ExampleOverCopied | lib/snapshot/mem_fs.go:386-420 | a directory copied to d and then a file copied over a directory of it: the layer still holds what the tree has lost |
| CopyExamples.ExampleThroughLink | lib/snapshot/mem_fs.go:524-544 | two files copied through one symlink: the link is put again and the first file is lost from the tree, not from the layer |
| TarReplay.EntryApplies | lib/snapshot/mem_fs.go:440-460 | an entry that was written and read back does to the tree what the entry itself does, although similar files are passed over |
| TarReplay.UpdateFromTar | lib/snapshot/mem_fs.go:165-253 | headers are added as they are read and hard links afterwards, each path once in any order; the result is that of adding them one by one, and the first error stops it |
| TarReplay.ReadingIsReplaying | lib/snapshot/mem_fs.go:165-253 | for a layer that can be read back, reading its tar and replaying its entries give the same tree and neither fails |
| TarReplay.ScanLayerIsReadable | lib/snapshot/mem_fs.go:440-503 | every layer of a scan can be read back: what it repeats are directories on the way to a change |
| TarReplay.ScanThenUpdate | lib/builder/build_node.go:133-148 | the layer of a scan, written and read back on another copy of the old tree as a cached layer is, leaves the same tree and no header is refused |
| ScanTheory.ScanDiffIsCorrect | lib/snapshot/mem_fs.go:315-503 | the scan layer replayed on the old tree never fails and gives exactly the disk's paths with similar headers, the root header aside |
| ScanTheory.ScanLayerIsExact | lib/snapshot/mem_fs.go:440-503 | the keys of the layer are the new or changed paths, the topmost removed paths whose parent is still a directory, and their non-root ancestors; whiteouts are exactly the removed ones |
| ScanTheory.SecondScanIsEmpty | lib/snapshot/mem_fs.go:440-503 | what a scan leaves can be scanned again, and then gives an empty layer and the same tree |
| CompareTrees.Report.CompareNode | lib/snapshot/mem_fs.go:753-781 | the four maps gain exactly what is wanted at and below the path, each with the node of its own tree |
| CompareTrees.Compare | lib/snapshot/mem_fs.go:721-781 | the maps hold exactly the common paths with dissimilar headers and the topmost one-sided paths, and are all empty exactly when the trees agree |
| CompareTrees.NothingReportedMeansEqual | lib/snapshot/mem_fs.go:753-781 | nothing is wanted in any map exactly when both trees have the same paths with similar headers |
| CompareTrees.SwapSwapsReports | lib/snapshot/mem_fs.go:753-781 | swapping the trees swaps the reports |
| CompareTrees.OnlyBelowReported | lib/snapshot/mem_fs.go:775-779 | every one-sided path lies at or below a reported one |
| Removal.DiskTree.RemovePathRecursive | lib/snapshot/utils.go:80-118 | a path of the subtree survives exactly when it is skipped, under a skipped path or an ancestor of one; the answer is true exactly when nothing in the subtree is skipped |
| Removal.DiskTree.RemoveAllChildren | lib/snapshot/utils.go:122-134 | strictly below the root the same, and everything else stays |
| Removal.KeptInChild | lib/snapshot/utils.go:105-112 | what survives below a child depends on what is skipped below that child only |
| BuildStage.Stage.PullCacheLayers | lib/builder/build_stage.go:299-313 | nodes that can be cached are asked for in order until one is missing; exactly those found with a layer hold it |
| BuildStage.Stage.LatestFetched | lib/builder/build_stage.go:315-332 | the loop computes the latest fetched node of the digests as they are now |
| BuildStage.Stage.CommitLayer | lib/builder/step/common.go:67-111 | a pending scan wins over pending copies, the result is one layer or none, and nothing is pending afterwards |
| BuildStage.Stage.DoCommit | lib/builder/build_node.go:102-119 | the node's digests are replaced, and one entry is pushed unless there are several layers |
| BuildStage.Stage.BuildNode | lib/builder/build_node.go:62-100 | cached layers are applied before the step is skipped, replaced or executed, and the config always moves on |
| BuildStage.Stage.Build | lib/builder/build_stage.go:171-212 | the loop that asks latestFetched again before every node builds what the specification says, fails with its error, and the diff IDs it collects are those of the nodes at the end, in manifest order |
| BuildMeaning.ImageRebuildsTree | lib/builder/step/from_step.go:120-133 | with any cache, sound or not, the layers of the nodes applied one after the other to the starting tree give the merged view the build ends with |
| BuildMeaning.UncachedMeans | lib/builder/build_node.go:60-98 | an uncached build fails exactly when a command does; otherwise its context stands for the file system that the steps mean when they are carried out in turn, and its config is theirs |
| BuildMeaning.BuildEndsClean | lib/builder/build_stage.go:171-212 | a build whose last step commits leaves nothing pending, its merged view is what the Dockerfile means, and so is the disk if it may be modified; otherwise the disk is untouched |
| BuildMeaning.EveryImageIsItsDockerfile | lib/builder/build_stage.go:171-212 | after any history of builds the layers of the image rebuild the file system the Dockerfile means, with its config, unless a step runs again by mistake |
| BuildMeaning.PushesWhatItHolds | lib/builder/build_node.go:151-162 | exactly the nodes that commit are pushed: with their layer if they hold one, as the empty marker if none, and not at all if they hold several |
| BuildMeaning.PullAndBuild | lib/builder/build_stage.go:171-212 | the same on the stage itself: its diff IDs rebuild its merged view |
| CachedBuild.LatestIs | lib/builder/build_stage.go:315-332 | the latest fetched node is the last annotated one before the first annotated node without layers |
| CachedBuild.SkippedIsCovered | lib/builder/build_stage.go:181 | a step is skipped exactly when a later annotated node holds layers and no annotated node up to it lacks them |
| CacheProof.StepLayer | lib/builder/build_node.go:72-88 | applying a pulled layer in place of the step keeps the cached build in step with the uncached one |
| CacheTheorem.SkipsWhatMatters | lib/builder/build_stage.go:181 | a step that changes files, was not looked up and has a pulled layer ahead is skipped, if no empty marker was pulled before it |
| CacheTheorem.PendingIsCovered | lib/builder/step/common.go:67-111 | what a step leaves pending is in the layer of the next annotated step, which was pulled |
| CacheTheorem.CachedBuildIsUncached | lib/builder/build_stage.go:171-212 | with a sound cache and no step running again by mistake the cached build fails as the uncached one does or ends with the same layers, memory, disk and config |
| CacheTheorem.PushesStaySound | lib/builder/build_node.go:151-162 | what a cached build pushes, whole or cut short at any node, keeps the cache sound |
| CacheTheorem.EveryBuildIsUncached | lib/builder/build_stage.go:171-212 | after any history of builds, each pulling from part of what was pushed before and stopping anywhere, the next build means the same as the uncached one |
| CacheTheorem.ForceCommitIsSafe | lib/builder/build_stage.go:304-311 | where every step commits no step runs again by mistake |
| CacheExact.CachedBuildIsUncachedExactly | lib/builder/build_stage.go:315-332 | in a world that counts changes the cached build agrees with the uncached one if and only if no step runs again by mistake |
| CacheExact.ExampleRunsAgain | lib/builder/build_stage.go:315-332 | FROM, RUN and ENV with commits, RUN, RUN with a commit: with a sound cache the second RUN runs again and the build ends elsewhere |
| LookTrees.ScanLayerTurns | lib/snapshot/mem_fs.go:315-503 | on trees of what the comparison sees, the layer of a scan turns the old tree into exactly the new one |
| CopyLooks.OperationSame | lib/snapshot/mem_fs.go:353-421 | a copy does the same, errors included, to trees that look the same to the header comparison |
| TreeWorld.Copies.CopyLayerTurns | lib/snapshot/mem_fs.go:276-421 | on trees of looks the layer the copies build turns the old tree into the one they leave, one copy after the other |
| TreeWorld.DirectoryHasCopyLayer | lib/snapshot/mem_fs.go:353-421 | a directory copied to a place free of links always has such a layer |
| TreeWorld.TreesAreLawful | lib/builder/step/common.go:67-111 | a build whose layers are those of scans, and those of copies wherever every entry fits, meets the diff law, whatever its commands do |
| TreeWorld.EveryTreeBuildIsUncached | lib/builder/build_stage.go:171-212 | so every build after any history means the same as the uncached one, with the layers of scans and copies in place of assumed ones |
| FileMapSafety.CallbacksAreSafe | lib/storage/base/file_map.go:210-374 | in every interleaving the name of a running callback leads to its entry, and two callbacks of one name run together only if both read |
| FileMapSafety.IndexIsConsistent | lib/storage/base/file_map.go:94-160 | the map and the queue always hold the same entries, each once and under its own name |
| FileMapSafety.ExclusiveOrShared | lib/storage/base/file_map.go:210-374 | two validated calls on one name both read |
| FileMapSafety.NoDeadlock | lib/storage/base/file_map.go:162-196 | whenever a call is unfinished some call can take a step |
| FileMapEnds.RunsAreBounded | lib/storage/base/file_map.go:162-374 | without new calls a run from any reachable state is no longer than what its calls have left to do |
| FileMapEnds.EveryCallEnds | lib/storage/base/file_map.go:162-374 | however far such a run has come, it can go on until every call has ended |
| FileMapEnds.StuckMeansDone | lib/storage/base/file_map.go:162-374 | a run without new calls that cannot go on has ended every call |
| FileMapCalls.PresentCall | lib/storage/base/file_map.go:271-374 | a load or a delete of a known name that is left alone calls back on its entry, then the entry is at the front and the others keep their order, or the name is gone when it is a delete that was agreed to |
| FileMapCalls.AbsentCall | lib/storage/base/file_map.go:271-374 | of an unknown name it changes nothing |
| FileMapCalls.StoreNew | lib/storage/base/file_map.go:162-262 | a TryStore of a new name calls back on its entry, which is kept in front exactly when the callback agrees; above the capacity the name at the back goes |
| FileMapCalls.StoreKnown | lib/storage/base/file_map.go:162-262 | a TryStore of a known name keeps the old entry and moves it to the front; above the capacity the name at the back goes |
| FileMapCalls.ReadersShare | lib/storage/base/file_map.go:297-345 | a read gets to its callback however many others are reading the same name |
| FileMapCalls.EndedIsQuiet | lib/storage/base/file_map.go:162-374 | when every call has ended all locks are free, so the laws of single calls hold again |
| LruFileMap.LruFileMap.Get | lib/storage/base/file_map.go:94-100 | a name that is found becomes the latest used; nothing else changes |
| LruFileMap.LruFileMap.RemoveOldestIfNeeded | lib/storage/base/file_map.go:162-196 | only when there are more names than the capacity, exactly the name used longest ago is forgotten |
| LruFileMap.LruFileMap.TryStore | lib/storage/base/file_map.go:210-262 | a new name is stored exactly when its callback succeeds, the capacity holds on return, and exactly the name used longest ago, never the one just stored, is forgotten if there are too many, and a known name counts as used |
| LruFileMap.LruFileMap.Load | lib/storage/base/file_map.go:271-345 | reads, writes and peeks return the entry of the name and make it the latest used |
| LruFileMap.LruFileMap.Delete | lib/storage/base/file_map.go:349-374 | the name is removed exactly when the callback agrees |
| FileStore.Store.EvictIfNeeded | lib/storage/base/file_map.go:162-196 | the name used longest ago loses its place and its file, exactly when there are too many |
| FileStore.Store.Reload | lib/storage/base/file_op.go:104-136 | a name not in memory is found exactly when it is on disk in an acceptable state, and then one other name is pushed out exactly when there are too many |
| FileStore.Store.PlaceFile | lib/storage/base/file_entry.go:189-283 | a file is created or moved in exactly when the target is free and the source is there |
| FileStore.Store.CreateFile | lib/storage/base/file_op.go:194-247 | for any store: a name found in memory or in an acceptable directory is refused with the right error, any other gets its file with the contents of its source or as many zeros as asked, and every other file that is left keeps its own; and no name comes to be in two directories unless the file was hidden in a directory that is not acceptable |
| FileStore.Store.MoveFile | lib/storage/base/file_op.go:266-297 | for any store: the file is reloaded if need be, the checks are made in their order, then the target directory holds the contents the file was found with and the old place is empty; every other file that is left keeps its contents |
| FileStore.Store.DeleteFile | lib/storage/base/file_op.go:310-319 | for any store: the file is reloaded if need be, then the name and its file go, and every other file that is left keeps its contents |
| FileStore.Store.ReadFile | lib/storage/base/file_op.go:342-350 | for any store: the contents of a file found in memory or in an acceptable directory, or the right error; no contents change |
| StorePlaces.CreateKeeps | lib/storage/base/file_op.go:194-247 | creating keeps every name in one directory if and only if the file is found in memory or an acceptable directory, or cannot be placed, or is nowhere on disk |
| StorePlaces.MoveKeeps | lib/storage/base/file_op.go:266-297 | moving keeps memory and disk in agreement, evictions included |
| StorePlaces.DeleteKeeps | lib/storage/base/file_op.go:310-319 | deleting keeps memory and disk in agreement, evictions included |
| StorePlaces.AgreementIsExact | lib/storage/base/file_entry.go:34-38 | being backed, in one directory at most and fully loaded is the same as: in memory with a state exactly when on disk in its directory |
| StoreRuns.OpenStore | lib/storage/layer_tar_store.go:45-84 | whatever the cache directory holds, within the capacity or not, the opened store has every file left on disk in memory |
| StoreRuns.Run | lib/storage/base/file_op.go:104-319 | after any run of commands a name is in memory with a state exactly when its file is in that directory, the capacity holds, and each file holds what its name was last created with, wherever it has been moved |
| StoreRuns.RunAndRead | lib/storage/base/file_op.go:342-350 | a file read after a run has the contents it was last created with, or had at the start |
| StoreRuns.OpenAndRun | lib/storage/layer_tar_store.go:45-137 | the same for a store opened over the files of an earlier run |
| StoreRuns.CreateHidden | lib/storage/base/file_op.go:194-247 | why a store must be opened first: a call that creates a file hidden in another directory succeeds and leaves the name in two |
| PullProtocol.SavedMeansPulled | lib/registry/client.go:121-155 | with at least one worker a finished pull has saved the manifest exactly when every task succeeded |
| PullProtocol.SavedImageIsComplete | lib/registry/client.go:121-155 | if the manifest was saved, each layer and the config has a task that was pulled |
| PullProtocol.NoTaskRunsTwice | lib/concurrency/worker_pool.go:44-101 | no task is taken twice or both taken and dropped, and a dropped task comes with a recorded error |
| PullProtocol.NeverStuck | lib/concurrency/worker_pool.go:44-101 | a pull that has not ended can take a step |
| PullProtocol.RunsAreBounded | lib/concurrency/worker_pool.go:44-101 | every run is finite, with a bound known at its start |
| PullProtocol.NoWorkersSavesNothing | lib/concurrency/worker_pool.go:44-71 | in every run without workers nothing is started, pulled or reported, and if the manifest is saved every task was dropped |
| PullProtocol.SavingIsSafeExactly | lib/registry/client.go:121-155 | a saved manifest means that everything was pulled, in every run, if and only if there is a worker or nothing to pull |
| PullProtocol.PullTasks | lib/registry/client.go:123-146 | the tasks are every distinct layer once, then the config |
| PullEnds.ErrorsStopThePool | lib/registry/client.go:121-155 | in every run a recorded error has stopped the pool, or a worker is about to |
| PullEnds.FailsFast | lib/concurrency/worker_pool.go:44-101 | a stopped pool can end as failed from wherever it is, without starting any task that is left |
| CacheEntries.EntryRoundTrip | lib/cache/cache_manager.go:239-252 | an entry is read back as the pair it was made from exactly when both digests are sha256 digests and the first has no comma; it is never the empty marker |
| CacheManager.StoredLayersAreInRegistry | lib/cache/cache_manager.go:185-222 | in every interleaving a non-empty entry of this manager in the key-value store has its layer in the registry |
| CacheManager.PullsLatestPush | lib/cache/cache_manager.go:116-182 | a pull answers with the latest push of its ID whenever the layer is on disk or can be had from the registry |
| CacheManager.PullsWhatIsStored | lib/cache/cache_manager.go:116-182 | without a push of its own a manager answers with the pair the key-value store holds if the layer is on disk or delivered, with nothing for the empty marker, and that it is not there when the store has no entry or one that cannot be read |
| CacheManager.OthersPullIt | lib/cache/cache_manager.go:116-222 | what one manager has stored, and nobody has replaced, another one over the same stores pulls, and it never pulls anything else |
| CacheManager.PulledIsLocal | lib/cache/cache_manager.go:151-166 | a layer that was pulled is on disk from then on |
| CacheManager.StoresChangeBy | lib/cache/cache_manager.go:185-222 | the shared stores change only by uploads and puts that succeed and by other hosts; a push that fails ends with its error recorded and both stores as they were |
| CacheManager.WaitMeansStored | lib/cache/cache_manager.go:225-237 | once the background is idle without errors everything pushed is stored and its layers are in the registry |
| CacheLag.EndsUpToDateExactly | lib/cache/cache_manager.go:185-222 | from any reachable state: every way the background can finish leaves the key-value store with the latest push of an ID if and only if all that is under way for the ID is as new as that push and, if nothing is, the store holds it already |
| CacheLag.OneAtATimeIsUpToDate | lib/cache/cache_manager.go:185-222 | if an ID is pushed only while none of its jobs is outstanding, and no other host writes it, an idle manager without errors has the latest push in the store |
| CacheLag.StoreCanLag | lib/cache/cache_manager.go:201-219 | from any reachable state with two jobs of one ID that carry different entries, the store can end with the older one |
| ReplaceVars.ReplaceVariables | lib/parser/dockerfile/replace_variables.go:24-36 | the driver loop over the mutable machine computes its run |
| ReplaceVars.Replacer.NextRune | lib/parser/dockerfile/replace_variables.go:97-332 | in every phase the in-place change of the machine is its transition |
| Templates.MachineIsMeaning | lib/parser/dockerfile/replace_variables.go:65-332 | on every written template the machine gives its recursive meaning, errors included |
| NestedNames.SimpleInNameIsExact | lib/parser/dockerfile/replace_variables.go:161-226 | inside a name a variable without braces is read as if it had been replaced by its value if and only if it is the last thing in an outermost name |
| NestedNames.SimpleInName | lib/parser/dockerfile/replace_variables.go:161-226 | what happens otherwise: the character behind it is lost, a brace closes nothing, a colon is an error |
| NestedNames.DefaultInNameIsExact | lib/parser/dockerfile/replace_variables.go:306-335 | a name with a default is read as its value if and only if it stands in no other name; otherwise the value goes in front of the names around it |
| NestedNames.LeftBehindGoesOn | lib/parser/dockerfile/replace_variables.go:65-90 | a name left behind by such a default goes on with the next name in braces |
| NestedNames.EndsEarly | lib/parser/dockerfile/replace_variables.go:114-337 | input that ends inside braces is an error, a dollar at the end is itself, a backslash at the end is lost |
| Templates.RunsName | lib/parser/dockerfile/replace_variables.go:260-290 | names nested to any depth are evaluated inside out, whatever is in progress outside |
| Templates.VarEnds | lib/parser/dockerfile/replace_variables.go:161-182 | the character that ends a simple variable is read as if the variable had been replaced before it |
| Templates.ValuesAreNotRescanned | lib/parser/dockerfile/replace_variables.go:65-90 | wherever a variable stands in a template, its value is copied as it is, whatever variables the value mentions |
| Templates.UnknownNamesStay | lib/parser/dockerfile/replace_variables.go:245-254 | for any dictionary in which neither a written name nor any name written inside it is a key, the machine gives the name back exactly as written |
| SplitArgs.SplitArgs | lib/parser/dockerfile/split_args.go:25-37 | the driver loop over the mutable machine computes its run, in shell mode too |
| SplitWords.SplitIsWords | lib/parser/dockerfile/split_args.go:25-204 | for every input, in a shell and outside, errors included, the machine gives the words as they are read off the input one by one |
| ShellTokens.SplitReadsTokens | lib/parser/dockerfile/split_args.go:61-204 | bare words, quoted words and shell operators written with spaces between them are read back, but for an operator at the end, which is lost |
| SplitArgs.SplitUndoesPrint | lib/parser/dockerfile/split_args.go:61-171 | printed in quotes, arguments are split back if and only if in each of them every quote, and the end, comes after an even number of backslashes |
| SplitArgs.ReadsWrong | lib/parser/dockerfile/split_args.go:125-144 | an argument that breaks the rule is read as something else or not at all, whatever follows |
| KeyVals.ParseKeyVals | lib/parser/dockerfile/parse_key_values.go:31-43 | the driver loop over the mutable machine computes its run |
| PairWords.ParseIsPairs | lib/parser/dockerfile/parse_key_values.go:31-218 | for every input, errors included, the machine gives the dictionary of the pairs as they are read off the input one by one, the later of two with one key |
| PairWords.PlainPairsAreRead | lib/parser/dockerfile/parse_key_values.go:77-175 | pairs with plain values, written without quotes, are read back |
| KeyVals.ParseUndoesPrint | lib/parser/dockerfile/parse_key_values.go:77-218 | a dictionary printed in any order is read back if and only if its keys are valid and in each value every quote, and the end, comes after an even number of backslashes |
| KeyVals.ParsedIsPrintable | lib/parser/dockerfile/parse_key_values.go:77-218 | whatever the input, the keys that come out are valid and the values have even runs |
| KeyVals.OddRunIsLost | lib/parser/dockerfile/parse_key_values.go:179-202 | a pair whose value ends in an odd number of backslashes, its quotes coming after even ones, ends in the error of a missing quote |
| Quoting.ReadsNext | lib/parser/dockerfile/parse_key_values.go:179-196 | as long as quotes come after even runs the text read is the text written |
| ChunkUpload.PushLayerContent | lib/registry/client.go:520-546 | the loop ends, its ranges follow one another from the first byte with neither gap nor overlap, what is read for them is the layer, and a failed request stops it |
| ChunkUpload.CoversEachOnce | lib/registry/client.go:536-544 | such ranges send each byte exactly once and no other |
| ChunkUpload.RoundsAlternate | lib/registry/client.go:543 | every second range is empty and the others are the chunks in order |
| ChunkUpload.EndsExactly | lib/registry/client.go:536-544 | the loop ends if and only if the chunk size is at least one or there is nothing to send |

## Left out

- TreeWorld.TreesAreLawful: where a copy fails, leaves no tree or has an entry that does not fit, its layer need not be a correct diff, and a scan stands in its place.
- TreeWorld.EveryTreeBuildIsUncached: as for TreesAreLawful; the root's own header is fixed.
- CopyLaw.CopyLayerLaw: a copied file named exactly ".wh.", which becomes a whiteout of the directory that holds it, is not among its entries.
- CopyFiles.CopyToLayer: sources come with their links followed and their headers read; errors of reading them are not modelled.
- CacheTheorem.EveryBuildIsUncached: covers builds of one stage with the same options; sharing of entries between Dockerfiles rests on distinct cache IDs.
- Ancestors.AddAncestorsIsResolution: relative link targets and regular files in the middle of a path are in the specification the method is proved against, not in the theorem.
- DiskScan.CreateLayerByScan: the root's own header is a directory in the tree and on disk.
- TarReplay.UpdateFromTar: without untarring, skip rules and the reset of modification times.
- LruFileMap.LruFileMap.TryStore: the callback is its result, and last access times are counted in uses, not in clock time with its resolution.
- FileStore.Store.CreateFile: last access metadata and other metadata files are not modelled.
- StoreRuns.Run: starts from a store whose files are all in memory, as StoreRuns.OpenStore leaves it.
- FileMapSafety.NoDeadlock: callbacks end and do not call the map again.
- Templates.MachineIsMeaning: defaults inside names and variables without braces inside names are not part of a template but have the exact conditions of NestedNames; bytes above 127 are not modelled.
- CompareTrees.Report.CompareNode: trees are values here, as the comparison changes neither of them.
- PullProtocol.SavedMeansPulled: Push runs the same protocol and has no theorem of its own.
- A Go map that is ranged over while its entries are replaced is modelled as a snapshot of its keys taken in any order.
- Blacklists, mount points and special files appear as one skip predicate in the removal, not in the scan.
- Tar and gzip streams, untarring to the real disk, ownership, permissions and modification times on disk.
- Copying files on the disk, cross-stage copies and checkpoints.
- Creating the working directory before a step runs (lib/builder/step/base_step.go:66-91).
- HTTP, credentials, retries and backoff; a push that succeeds on a retry still reports its earlier errors.
- A capacity bound under concurrent stores: two goroutines can pick the same victim.
- The computation of cache IDs and digests, the command line, logging and the Docker client.
