# A verified model of the hard parts of go-git

go-git is an implementation of Git in Go. This project models the parts of it
where a mistake is hard to see, and proves what they promise. The model follows
the code branch by branch; a loop stays a loop, an object whose fields change
stays a class, and every such method is proved against a specification whose
own properties are proved beside it.

`dafny verify dfyconfig.toml` checks everything.

## What is modelled

**Which objects a push or fetch sends** (`RevList`, `CommitOrder`,
`ObjectModel`, `Reachability`). A repository takes part in a history, the graph
`g`, of which its store holds a part; some ids may be stored but unreadable. Ids
are opaque, times are integers. `RevList.Query` names the question: `Wanted` is
what the wants reach, `Owned` what the haves reach, both cut at the shallow
commits. `RevList.Objects` sends everything wanted that is not owned, whatever
the commit dates, although it stops early, skips edge trees, tolerates missing
parents on the owned side and marks unreadable owned subtrees as it can. When
every owned commit and tag can be read (`CommitsHeld`) and every commit is
younger than its parents (`MonotoneClocks`), the commits sent are exactly the
wanted ones that are not owned. With such dates alone, no commit is sent that
the objects held here show to be owned (`KnownOwned`). It succeeds whenever all
that is wanted can be read and nothing owned is unreadable (`AllHeld`); what is
owned may be absent. It succeeds even if no more is here than what has to be
read on the way to commits the receiver owns (`Sendable`). The one assumption
about the graph that is always made is that a tree entry that is not a directory
or a submodule names a blob.

**History iterators and merge bases** (`CommitIterators`, `HistoryIterators`,
`MergeBase`). Reachability is judged by what the store can read. Every iterator
is a class; each returns exactly the commits on paths that avoid the ignored
ones, once each. `Independents` is exact for any commit dates, and so is
`MergeBase` unless its search was cut short by an unreadable parent; the parent
links are taken to be acyclic.

**Commits and tags as text** (`Text`, `Identity`, `CommitCodec`,
`CommitScanner`, `CommitRoundTrip`, `SignatureStripper`, `TagCodec`,
`TagScanner`, `TagRoundTrip`, `WrittenObjects`, `Payload`). The decoders are
modelled twice: as a state machine on the remaining text, and as the scanner
object with its one line of push-back, each of whose methods takes exactly one
step of that machine. The printers write piece by piece. `Normal` and
`NormalTag` say what a printed object is read back as, and the round-trip lemmas
say when that is the object itself. `WrittenObjects` holds a commit and tags
word for word, since a round trip cannot see a word that is written and read in
the same wrong way. Text is a sequence of characters; object ids are byte
sequences.

**Renames** (`FileBlocks`, `LineEndings`, `SimilarityTable`, `SimilarityScore`,
`NameSimilarity`, `RenameMatching`, `RenameDetection`). A file is its text and
whether it is binary. The open-addressing table is a class over an array and
refines a map from keys to counts; the merge of two sorted tables, the name
score, the greedy matching and the detector are built on top. `ExactRight` and
`ContentRight` say which renames are right, and they are all found. Two changes
with the same fields count as two when they occur twice.

**Blame** (`BlameHistory`, `BlameLines`, `BlameState`, `BlameSteps`,
`BlameRounds`, `Blame`, `BlameTwins`). The diff is any function that returns a
valid edit script. A history gives the parents of every commit and the lines of
the blamed path in the commits that have it; no commit is its own ancestor.
Queue items are positions in a list, so that two items can share a child as they
do through pointers. The heap is a list from which the newest item is taken.
`BlameRounds` says exactly what one round does to the list, and `FirstOrigin`
where a line comes from if always the first parent that has it is followed.

**Shared descriptors** (`SharedFile`, `PackHandle`). Each section under a mutex
is one atomic step of a state machine, and a run is any sequence of steps. Timer
callbacks that `Stop` failed to cancel stay in the state. Opening a file and
building an index may fail, which is a parameter of the step. `PackHandle` gives
every goroutine a program point, so that its steps interleave between locking,
checking, building, closing and unlocking.

**Prune and repack** (`RefStorage`, `ObjectWalker`, `Maintenance`). The walk
over all references, pruning of loose objects and repacking, with encoding,
deleting, reading and the caller's handler allowed to fail at any point;
`Faults` says which of them do. What can stop the walk is said by `IsPassable`:
an unreadable object, a missing one outside a partial clone, or a blob that is
looked at.

**Trees** (`Paths`, `TreeLookup`, `TreeBuilder`). Lookup in one tree is compared
with a plain scan for the first entry of a name, and lookup along a path with
one that reads every tree anew. The builder turns a flat index into sorted trees
in an object store; the hash is any function that gives different trees
different ids, and the rules for names are a parameter.

**Fetching references** (`RefSpec`, `FetchRefs`, `FastForward`). Ref specs are
strings, and every operation on them cuts them as the code does. On top of them
stand a forced, pruning fetch and the question whether an update is a fast
forward.

**The object and buffer caches** (`LruCache`). Both have the same structure, a
map and a list in order of use; the model keeps the list as a sequence.

## What was found

Each of these has a concrete input, next to the exact condition under which the
property holds; for blame the condition is sufficient.

* A merge base can be lost, because an error while walking the older side is
  ignored (`MergeBase.MissingParentHidesMergeBase`). The answer is right exactly
  if a breadth-first walk from the older side visits all best common ancestors
  before it meets an unreadable parent (`MergeBase.MergeBase`).
* A line is not always blamed on the first parent that has it, which the
  documentation of blame promises. A parent's answer is lost when the commit
  that holds it is stepped over for a parent that has its very file
  (`BlameTwins.LaterParentIsBlamed`). The promise is kept in every history in
  which no commit has two parents with its very file (`TwinFree`,
  `Blame.Blame`).
* A zone offset of less than an hour west, but not less than a minute, is read
  back with the wrong sign (`Identity.HalfAnHourWestComesBackEast`); an offset
  survives exactly if it is in whole minutes and not in that range
  (`Identity.OffsetSurvivesIff`).
* The message of a tag can be taken for its signature (`TagRoundTrip.ArmorLine`,
  and in general `TagRoundTrip.MessageTakenForSignature`). With an empty
  signature the tag comes back exactly if no line of the message begins a
  signature. Otherwise the message must be empty or end in a newline, and the
  signature must be a single block that begins at its first line; what the lines
  of the message look like does not matter then (`TagCodec.SplitsRightIff`,
  `TagRoundTrip.TagRoundTripIff`).
* A block with key 0 can be missed when two files are compared, as it sorts
  among the empty slots (`SimilarityScore.KeyZeroIsMissed`). The comparison is
  exact if and only if one file lacks key 0 or both tables have equally many
  empty slots (`SimilarityScore.CommonIsExactIff`).
* An added file is lost when several deleted files have its content and the best
  name has another mode, or no name is similar
  (`RenameDetection.ModeChangeIsDropped`, `RenameDetection.AllConservedIff`).
* A symbolic link in a tree stops the walk that prune and repack rest on
  (`Maintenance.SymlinkStopsTheWalk`). `Maintenance.WalkAllRefs` succeeds
  exactly if no reference leads through too many links and nothing on the way
  stops it. That leaves open only blobs which reached trees list both as a plain
  file and otherwise: there the order of the visits decides.
* A directory is not found in a sorted tree when a file stands before it whose
  name is the same with a slash (`TreeLookup.SlashedNameHidesDirectory`,
  `TreeLookup.SearchIsExactIff`).
* A path with an empty part can be found through the cache although it names
  nothing (`TreeLookup.EmptyPartSeesTheCache`, `TreeLookup.NoCacheShowsIff`).
* A file that comes after an entry below it in the index is left out of the tree
  without an error (`TreeBuilder.LoseFile`, `TreeBuilder.KeptIff`).
* The kind of line end matters after all when a newline begins a buffer of 4096
  bytes (`LineEndings.LongLineDiffers`, `LineEndings.LineEndsDoNotMatterIff`).
* An added file that is too large to index makes the detection of renames fail,
  while a deleted one is skipped (`RenameDetection.LargeAdditionFails`,
  `RenameDetection.BuildSimilarityMatrix`).
* A name comes back through the reversed ref spec exactly if the spec is forced
  or its destination does not begin with "+", which would be taken for the force
  marker (`RefSpec.ComesBackIff`, `RefSpec.PlusIsTakenForForce`).

## Model

| member | source | states |
|---|---|---|
| RevList.Objects | plumbing/revlist/revlist.go:22-45 | whatever the dates: everything wanted is sent or owned, nothing is sent twice, nothing unwanted is sent, and the trees sent never name one id both as a directory and as a file. If commits are younger than their parents no commit is sent that the objects here show to be owned, whatever is missing, and if every commit and tag the receiver owns can be read the commits sent are exactly the wanted ones not owned. It succeeds if all that is wanted can be read and nothing owned is unreadable, though it may be absent; more generally if all that has to be read up to the commits behind the boundary can be read, and then, with such dates, no tree of an owned parent is sent. No tree of an owned tip is sent if it can be read |
| RevList.HeldIsSendable | plumbing/revlist/object_walk.go:119-138 | if all that is wanted can be read and nothing owned is unreadable then all that has to be read can be; what is owned may be absent |
| RevList.OwnedIsKnown | plumbing/revlist/object_walk.go:207-223 | if every owned commit and tag can be read, every owned commit is owned as far as the objects here show |
| RevList.ExactIfHeld | plumbing/revlist/revlist.go:22-45 | in that case a complete result without commits known to be owned holds exactly the wanted commits that are not owned |
| RevList.SentTypesAgree | plumbing/revlist/object_walk.go:491-505 | the trees sent never name one id both as a directory and as a file |
| RevList.PropagateTo | plumbing/revlist/object_walk.go:313-332 | handing paint to one parent keeps the walk's invariant: paint is true, every painted commit is queued, settled or known missing; only new paint re-enqueues |
| RevList.Propagate | plumbing/revlist/object_walk.go:313-332 | afterwards the commit is settled: all its parents include its paint or are missing |
| RevList.AllStale | plumbing/revlist/object_walk.go:337-344 | true exactly when every queued commit is painted from both sides |
| RevList.PaintStep | plumbing/revlist/object_walk.go:207-223 | one round keeps the invariant and either shortens the queue or gives a stored commit new paint, which bounds the number of rounds |
| RevList.SeedPaint | plumbing/revlist/object_walk.go:190-205 | all seeds of one side are queued and painted, and no paint is lost |
| RevList.PaintWalk | plumbing/revlist/object_walk.go:190-230 | the walk ends with nothing but stale commits queued, and every seed painted |
| RevList.DropOwned | plumbing/revlist/object_walk.go:251-253 | keeps exactly the recorded commits that were not painted from the owned side later on |
| RevList.MissingBehindOwned | plumbing/revlist/object_walk.go:238-243 | succeeds if and only if every missing parent was reached from a commit painted from the owned side |
| RevList.MissingIsBehindOwned | plumbing/revlist/object_walk.go:232-243 | a missing parent whose child is not painted from the owned side is one that had to be read: if all that has to be read can be, there is none |
| RevList.NeedIsHandedOn | plumbing/revlist/object_walk.go:313-332 | handing paint on, a commit painted by the wants alone is one that has to be read |
| RevList.NewIsNeeded | plumbing/revlist/object_walk.go:251-253 | so every new commit is one that has to be read and not one behind the boundary |
| RevList.PaintedIsOwnedOrNew | plumbing/revlist/object_walk.go:207-243 | stopping early is safe: a painted commit is owned or among the new ones |
| RevList.NewCommitPaintsParents | plumbing/revlist/object_walk.go:313-332 | the history of a new commit is painted as far as it is not cut |
| RevList.NewCommitIsNotOwned | plumbing/revlist/object_walk.go:225-229 | if parents are strictly older, no new commit is one that the objects here show to be owned, in spite of the early stop |
| RevList.NoOwnedCommits | plumbing/revlist/object_walk.go:180-183 | if seeding queued no owned commit, no commit that can be read is owned as far as the objects here show, so the fast path is right |
| RevList.FollowedIsComplete | plumbing/revlist/revlist.go:22-45 | a result whose links all lead to sent or owned objects leaves out nothing the receiver needs |
| RevList.NewHistoryIsComplete | plumbing/revlist/object_walk.go:251-273 | sending the new commits with their trees is complete |
| RevList.EdgesAreSpared | plumbing/revlist/object_walk.go:278-295 | a tree of an owned parent of a new commit is not sent unless a want names it |
| RevList.SeenTreeIsWithinSeen | plumbing/revlist/object_walk.go:462-486 | the tree of a commit, if it can be read throughout, is marked down to its last blob once it is marked at all |
| RevList.FindNewCommits | plumbing/revlist/object_walk.go:190-253 | painting, the check of missing parents and dropping together yield a closed new history, each of whose commits has to be read; with monotone clocks none of them is known to be owned; it succeeds if all that has to be read can be |
| RevList.ObjectWalk.SeedHaves | plumbing/revlist/object_walk.go:123-168 | tags are followed to their targets, owned commits queued, other owned objects marked, and the readable trees of owned tips are marked throughout; it succeeds if all that has to be read can be, and what is absent is passed over |
| RevList.ObjectWalk.SeedHave | plumbing/revlist/object_walk.go:127-166 | one owned id: one that is not stored is passed over and changes nothing, any that can be read succeeds; an id that is already marked adds nothing, which bounds the loop |
| RevList.ObjectWalk.SeedWants | plumbing/revlist/object_walk.go:69-116 | wanted commits are queued, every other wanted object is sent outright, and sent tags have been followed; it succeeds if all that has to be read can be |
| RevList.ObjectWalk.SeedWant | plumbing/revlist/object_walk.go:73-114 | one wanted id ends up queued or seen |
| RevList.ObjectWalk.Walk | plumbing/revlist/object_walk.go:179-273 | complete for any dates; with monotone clocks sends no commit known to be owned and, if all that has to be read can be, no tree of an owned parent; then it succeeds |
| RevList.ObjectWalk.WalkPainted | plumbing/revlist/object_walk.go:190-273 | the same on the painted path |
| RevList.ObjectWalk.WalkUnpainted | plumbing/revlist/object_walk.go:180-183 | the same on the fast path |
| RevList.ObjectWalk.WalkFull | plumbing/revlist/object_walk.go:349-378 | the whole wanted history is sent: every parent of a sent commit that is not cut has been sent or was seen; it succeeds if all that has to be read can be |
| RevList.ObjectWalk.WalkFullStep | plumbing/revlist/object_walk.go:350-375 | one round keeps that invariant and terminates by the stored ids not yet queued |
| RevList.ObjectWalk.EnqueueParents | plumbing/revlist/object_walk.go:360-375 | all parents of a sent commit are queued or were queued before; that cannot fail if all that has to be read can be |
| RevList.ObjectWalk.CollectCommit | plumbing/revlist/object_walk.go:382-398 | a commit is sent with its whole tree; what is newly sent apart from it are trees and blobs; it succeeds for a commit that has to be read, though parts of its tree may be absent if a tree of the receiver names them |
| RevList.ObjectWalk.CollectAllTreeObjects | plumbing/revlist/object_walk.go:416-453 | on success the tree and everything below it is seen, what was added lies below the tree, and no id is added twice; it succeeds if everything below it that was not seen before can be read |
| RevList.ObjectWalk.MarkTreeSeen | plumbing/revlist/object_walk.go:462-486 | marks only owned trees and blobs, always ends, and never fails on what it cannot read |
| RevList.ObjectWalk.MarkEdgeTreeSeen | plumbing/revlist/object_walk.go:278-295 | the tree of an owned commit that can be read is seen, and an absent commit is passed over |
| RevList.ObjectWalk.MarkEdges | plumbing/revlist/object_walk.go:254-266 | the trees of all owned parents of new commits are seen |
| RevList.ObjectWalk.CollectNew | plumbing/revlist/object_walk.go:267-271 | every new commit is sent and no other one |
| CommitOrder.InsertSorted | plumbing/revlist/object_walk.go:402-409 | the queue stays ordered newest first and gains exactly the commit |
| CommitIterators.FilterCommitIter.Next | plumbing/object/commit_walker_bfs_filtered.go:66-88 | for any two filters: returns a valid commit not visited before; visits no other valid one; goes beyond exactly the visited commits the limit rejects; what it has visited and will visit is, in order, what the breadth-first walk with this limit visits; at the end every parent of those has been visited |
| CommitIterators.FilterCommitIter.Visit | plumbing/object/commit_walker_bfs_filtered.go:75-82 | one commit is visited and, unless it is a limit, its parents are queued, or one of them cannot be read |
| CommitIterators.VisitsAlike | plumbing/object/commit_walker_bfs_filtered.go:66-88 | limits that agree on the stored commits lead to the same visits |
| CommitIterators.FilterCommitIter.PopNewFromQueue | plumbing/object/commit_walker_bfs_filtered.go:135-154 | takes the first queued commit not visited yet, or the walk is exhausted |
| CommitIterators.FilterCommitIter.AddToQueue | plumbing/object/commit_walker_bfs_filtered.go:158-176 | queues all parents not visited yet, in order, or fails because one of them cannot be read |
| HistoryIterators.BfsCommitIterator.Next | plumbing/object/commit_walker_bfs.go:53-77 | returns a commit not returned before; at the end exactly the commits on paths avoiding the ignored ones have been returned; fails only if one of those has an unreadable parent |
| HistoryIterators.PreorderIterator.Next | plumbing/object/commit_walker.go:67-103 | the same, with parents loaded one at a time |
| HistoryIterators.FilteredParents | plumbing/object/commit_walker.go:105-116 | the parents that have not been seen |
| HistoryIterators.PostorderIterator.Next | plumbing/object/commit_walker.go:146-166 | the same |
| HistoryIterators.CTimeIterator.Next | plumbing/object/commit_walker_ctime.go:52-80 | the same; and if no parent is newer than its child, commits come in order of their dates |
| HistoryIterators.CTimeIterator.PopNewest | plumbing/object/commit_walker_ctime.go:52-60 | some commit that none on the heap is newer than; nothing rests on which of them |
| HistoryIterators.WorklistStep | plumbing/object/commit_walker_bfs.go:53-77 | returning a waiting commit and putting its unseen parents in its place keeps the returned set below the history and the frontier complete, in whatever order |
| HistoryIterators.WorklistDone | plumbing/object/commit_walker_bfs.go:53-77 | with nothing waiting the returned set is the history, both ways |
| HistoryIterators.OrderKept | plumbing/object/commit_walker_ctime.go:52-80 | date order survives pushing the parents |
| HistoryIterators.IsAncestor | plumbing/object/merge_base.go:47-60 | decides reachability; an error means an unreadable parent |
| MergeBase.SortByCommitDateDesc | plumbing/object/merge_base.go:147-155 | the same commits, newest first |
| MergeBase.IndexOf | plumbing/object/merge_base.go:158-166 | a position with that id, or there is none |
| MergeBase.Remove | plumbing/object/merge_base.go:169-182 | the list in order without that id |
| MergeBase.RemoveDuplicated | plumbing/object/merge_base.go:185-200 | every id once, order and set of ids kept |
| MergeBase.WalkFrom | plumbing/object/merge_base.go:106-126 | walking from one candidate strikes exactly the candidates visited, and covers its whole history or leaves a single candidate |
| MergeBase.Strike | plumbing/object/merge_base.go:107-116 | an ancestor met on the way is dropped from the candidates exactly if it is one of the others |
| MergeBase.WalkCovers | plumbing/object/merge_base.go:95-126 | limiting the walk at commits seen before loses nothing: every ancestor is visited or lies behind something seen |
| MergeBase.WalkIsIndependent | plumbing/object/merge_base.go:106-126 | no other candidate lies behind a walked one |
| MergeBase.SearchEnds | plumbing/object/merge_base.go:89-137 | pairwise independent candidates that cover the input are its maximal elements |
| MergeBase.Independents | plumbing/object/merge_base.go:89-137 | exactly the commits no other given commit reaches, each once, newest first; an error means an unreadable history |
| MergeBase.AncestorsIndex | plumbing/object/merge_base.go:65-85 | all ancestors of the starting commit, or the excluded one is among them |
| MergeBase.FindInIndex | plumbing/object/merge_base.go:33-39 | the commits found are exactly those of the index that the breadth-first walk from the older side visits before it ends; it ends early exactly if a commit that only the older side reaches has an unreadable parent (`IsCut`); otherwise they lead to every common ancestor |
| MergeBase.VisitsAreLoaded | plumbing/object/merge_base.go:33-39 | everything the walk visits is reached through parents that can be read |
| MergeBase.MergeBase | plumbing/object/merge_base.go:18-42 | for any dates: the result is exactly the maximal ones, each once, of the common ancestors that the breadth-first walk back from the older commit visits (`FoundFrom`); they are the best common ancestors if and only if the walk visits all of those, and always when it is not cut short; whatever is found is reached through parents that can be read; an error is reported only for the newer side |
| MergeBase.ExactIffFound | plumbing/object/merge_base.go:33-41 | the maximal elements of a set of common ancestors are the best common ancestors if and only if the set holds all of those |
| MergeBase.NothingMissing | plumbing/object/merge_base.go:33-41 | a search that reaches behind every common ancestor has found every best one |
| MergeBase.BestAbove | plumbing/object/merge_base.go:18-42 | every common ancestor lies behind a best one, as parent links have no cycles |
| MergeBase.CutIsUnreadable | plumbing/object/merge_base.go:38-41 | a search can be cut only if the history of the older side cannot all be read |
| MergeBase.MissingParentHidesMergeBase | plumbing/object/merge_base.go:33-41 | three commits with a best common ancestor for which the answer is the empty list, because one parent on the older side is missing and the search is cut |
| Identity.ZoneRoundTrip | plumbing/object/object.go:124-160 | a printed zone of less than 100 hours is five characters and reads back as the offset rounded to minutes, with the sign of the hours |
| Identity.OffsetSurvivesIff | plumbing/object/object.go:141-149 | the offset read back is the offset itself exactly when it is whole minutes and not less than an hour west |
| Identity.HalfAnHourWestComesBackEast | plumbing/object/object.go:141-149 | the offset -1800 is printed and read back as +1800 |
| Identity.WhenRoundTrip | plumbing/object/object.go:124-160 | a time that fits comes back with its offset normalised; times before 1970 come back as 1970 |
| Identity.SignatureRoundTrip | plumbing/object/object.go:91-120 | a printed name, address and time are read back as their normal form, whatever was there before |
| Text.JoinUndoesSplit | plumbing/object/commit.go:85-100 | splitting a text at newlines and joining it again gives the text |
| CommitCodec.Encode | plumbing/object/commit.go:353-436 | writing piece by piece gives the specified text, with or without signatures |
| CommitCodec.WriteExtras | plumbing/object/commit.go:390-397 | the extra headers that are not standard ones, in order |
| CommitCodec.WriteSignature | plumbing/object/commit.go:399-428 | one signature header with its continuation lines |
| CommitCodec.StepAdvances | plumbing/object/commit_scanner.go:51-69 | every state uses up text or hands a line on to a later state, so decoding ends |
| CommitScanner.Scanner.ReadLine | plumbing/object/commit_scanner.go:51-62 | returns the next line of what remains, a pushed-back one first |
| CommitScanner.Scanner.PushBack | plumbing/object/commit_scanner.go:66-69 | what remains is again what it was before the line was read |
| CommitScanner.Scanner.ScanTree | plumbing/object/commit_scanner.go:74-97 | takes exactly one step of the decoding machine |
| CommitScanner.Scanner.ScanParents | plumbing/object/commit_scanner.go:104-130 | the same; a line of another kind is pushed back |
| CommitScanner.Scanner.ScanAuthor | plumbing/object/commit_scanner.go:136-159 | the same |
| CommitScanner.Scanner.ScanCommitter | plumbing/object/commit_scanner.go:164-187 | the same |
| CommitScanner.Scanner.ScanHeaders | plumbing/object/commit_scanner.go:193-242 | the same, for encoding, both signatures and unknown headers |
| CommitScanner.Scanner.TakeHeader | plumbing/object/commit_scanner.go:204-242 | one header line changes the commit as the machine says, and names the state that reads its continuation |
| CommitScanner.Scanner.ScanPgpCont | plumbing/object/commit_scanner.go:252-276 | the same, for a continued signature |
| CommitScanner.Scanner.ScanPgp256Cont | plumbing/object/commit_scanner.go:256-276 | the same, for the other signature |
| CommitScanner.Scanner.ScanExtraCont | plumbing/object/commit_scanner.go:281-299 | the same, for a continued extra header |
| CommitScanner.Scanner.FinishExtra | plumbing/object/commit_scanner.go:301-305 | the finished header is put on the list without trailing newlines |
| CommitScanner.Scanner.ReadRest | plumbing/object/commit_scanner.go:308-321 | the lines read to the end are, put together, everything that remained |
| CommitScanner.Scanner.ScanMessage | plumbing/object/commit_scanner.go:308-321 | takes all that is left as the message |
| CommitScanner.Decode | plumbing/object/commit.go:249-279 | the scanner computes what the machine does, for every text, malformed ones included |
| CommitRoundTrip.DecodeEncode | plumbing/object/commit_scanner.go:74-321 | decoding the text of any printable commit, with any message, multi-line extra headers and both signatures, gives its normal form |
| CommitRoundTrip.RoundTripIff | plumbing/object/commit.go:353-436 | a printable commit comes back unchanged exactly when it is in normal form |
| CommitRoundTrip.RunExtras | plumbing/object/commit_scanner.go:233-305 | printed extra headers are read back in order, values and all |
| CommitRoundTrip.RunBody | plumbing/object/commit_scanner.go:193-321 | everything after the committer line is read back |
| WrittenObjects.CommitIsWritten | plumbing/object/commit.go:353-436 | a commit with parents, an extra header and both signatures word for word, without an encoding line for UTF-8 and with one for ISO-8859-1 |
| WrittenObjects.CommitIsRead | plumbing/object/commit.go:240-279 | and those texts are read back as those commits |
| SignatureStripper.StripHeaderSignatures | plumbing/object/signature.go:183-219 | the loop with its two flags computes the stripped text |
| SignatureStripper.LineVerdict | plumbing/object/signature.go:188-206 | whether one line is kept, and the two flags after it |
| SignatureStripper.StripIsIdempotent | plumbing/object/signature.go:183-219 | for any text, stripping twice is stripping once |
| SignatureStripper.BodyIsKept | plumbing/object/signature.go:183-219 | nothing after the first blank line is touched |
| SignatureStripper.KeepExtras | plumbing/object/signature.go:183-219 | extra headers survive, also when their continuation lines look like signature headers |
| SignatureStripper.StripEncoding | plumbing/object/signature.go:183-219 | stripping the full encoding of any printable commit gives, character for character, the encoding written without signatures |
| SignatureStripper.StrippedCommit | plumbing/object/commit.go:303-308 | what is left after stripping decodes to the same commit without signatures |
| TagCodec.Encode | plumbing/object/tag.go:186-253 | writing piece by piece gives the specified text |
| TagCodec.LastSignatureIs | plumbing/object/signature.go:89-106 | the position found begins a line that looks like a signature, and no later line does |
| TagCodec.ParseSignedBytes | plumbing/object/signature.go:89-106 | the loop over lines finds that position, or -1 |
| TagCodec.SplitsRightIff | plumbing/object/tag.go:97-131 | the last signature block of message plus signature begins where the signature begins, or is missing if that is empty, exactly when the two are `Separable` |
| TagCodec.StepAdvances | plumbing/object/tag_scanner.go:47-61 | tag decoding ends |
| TagScanner.Scanner.ReadLine | plumbing/object/tag_scanner.go:47-54 | returns the next line of what remains |
| TagScanner.Scanner.PushBack | plumbing/object/tag_scanner.go:58-61 | what remains is again what it was |
| TagScanner.Scanner.ScanObject | plumbing/object/tag_scanner.go:66-89 | takes exactly one step of the tag decoding machine |
| TagScanner.Scanner.ScanType | plumbing/object/tag_scanner.go:93-116 | the same |
| TagScanner.Scanner.ScanName | plumbing/object/tag_scanner.go:120-139 | the same |
| TagScanner.Scanner.ScanTagger | plumbing/object/tag_scanner.go:143-166 | the same |
| TagScanner.Scanner.ScanHeaders | plumbing/object/tag_scanner.go:171-201 | the same |
| TagScanner.Scanner.ScanPgp256Cont | plumbing/object/tag_scanner.go:209-225 | the same |
| TagScanner.Scanner.ReadRest | plumbing/object/tag_scanner.go:230-243 | the lines read to the end are, put together, everything that remained |
| TagScanner.Scanner.ScanMessage | plumbing/object/tag_scanner.go:230-243 | the same |
| TagScanner.Decode | plumbing/object/tag.go:97-131 | the scanner and the final cut compute what the machine does, for every text |
| TagRoundTrip.DecodeEncodeTag | plumbing/object/tag_scanner.go:66-243 | decoding the text of any printable tag gives its normal form |
| TagRoundTrip.TagRoundTripIff | plumbing/object/tag.go:186-253 | a printable tag comes back unchanged exactly when tagger and header signature are in normal form and message and signature are `Separable` |
| TagRoundTrip.MessageTakenForSignature | plumbing/object/tag.go:97-131 | any printable unsigned tag whose message is one line that looks like a signature comes back with no message and with that line as its signature |
| TagRoundTrip.ArmorLine | plumbing/object/signature.go:19-34 | for each of the four lines that begin a signature: the unsigned tag v1 with that line as its message comes back without message and with that signature |
| TagRoundTrip.CertificateLine | plumbing/object/signature.go:19-34 | a line that begins a certificate is none of them, and that tag comes back as it was |
| WrittenObjects.TagIsWritten | plumbing/object/tag.go:186-253 | a tag with a signature of each kind, word for word |
| WrittenObjects.TagIsRead | plumbing/object/tag.go:97-131 | and that text is read back as that tag |
| TagRoundTrip.StripTagSignatures | plumbing/object/signature.go:150-178 | the trailing signature goes first, then the header ones |
| TagRoundTrip.StripTagEncoding | plumbing/object/signature.go:150-178 | stripping the full encoding gives the encoding without signatures of the tag as it is read back |
| TagRoundTrip.StripTagIff | plumbing/object/signature.go:150-178 | it gives the encoding of the tag itself exactly when message and signature can be told apart |
| Payload.MatchesSource | plumbing/object/commit.go:319-335 | true exactly when the source decodes to a commit that agrees in the id and in every signed field |
| Payload.EncodeWithoutSignature | plumbing/object/commit.go:303-308 | the source bytes without signatures while they still say what the commit says, otherwise a new printing |
| Payload.PayloadIsWhatWasSigned | plumbing/object/commit.go:319-335 | for a commit as it was read, the payload is the text that was signed |
| Payload.ChangedCommitIsPrinted | plumbing/object/commit.go:303-335 | a commit that was changed, or whose id was, is printed anew, with or without source bytes |
| Payload.EncodeTagWithoutSignature | plumbing/object/tag.go:156-184 | the same for a tag |
| Payload.TagPayloadIsWhatWasSigned | plumbing/object/tag.go:156-184 | the payload of a tag as read is what was signed exactly when message and signature can be told apart |
| SimilarityTable.NewKeyCountPair | plumbing/object/rename.go:739-745 | a count that fits in 32 bits packs so that key and count can be read back; any other is refused |
| SimilarityTable.SlotIsInRange | plumbing/object/rename.go:755-760 | the high bits of a key are a slot of the table |
| SimilarityTable.GrowthLeavesRoom | plumbing/object/rename.go:762-764 | a table that is due to grow still has an empty slot, and the doubled one is not due |
| SimilarityTable.SnugIsUnique | plumbing/object/rename.go:762-794 | the number of keys alone decides the size of the table |
| SimilarityTable.FullCircle | plumbing/object/rename.go:704-733 | if every slot looked at is taken the table is full, so probing ends |
| SimilarityTable.ProbeProvesAbsence | plumbing/object/rename.go:704-733 | an empty slot met before the key proves the key is not in the table |
| SimilarityTable.InsertKeepsTable | plumbing/object/rename.go:708-722 | filling the slot probing ends at keeps every entry findable and keys unique |
| SimilarityTable.SimilarityIndex.Probe | plumbing/object/rename.go:704-733 | ends at the slot of the key, or at an empty slot of a table without the key |
| SimilarityTable.SimilarityIndex.Add | plumbing/object/rename.go:700-735 | refines adding to a map from scrambled key to total count; occupied count and sum stay exact; fails exactly when a count does not fit or the largest table is full |
| SimilarityTable.SimilarityIndex.Grow | plumbing/object/rename.go:766-794 | doubles the table, keeps all contents, and fails exactly at 30 bits |
| SimilarityTable.SimilarityIndex.Rehash | plumbing/object/rename.go:776-791 | every old entry is in the new table once |
| SimilarityTable.SimilarityIndex.Place | plumbing/object/rename.go:779-790 | probing for the next old entry ends at an empty slot of the new table |
| SimilarityTable.RehashedHolds | plumbing/object/rename.go:766-794 | rehashing changes places, not contents |
| FileBlocks.TakeBlock | plumbing/object/rename.go:585-617 | the inner loop takes one line or block, without the carriage return of a line end |
| LineEndings.BlocksCountAll | plumbing/object/rename.go:576-628 | every byte that is not skipped is counted in exactly one block |
| LineEndings.LineEndsDoNotMatterIff | plumbing/object/rename.go:604-607 | a text has the same blocks with either kind of line end if and only if no newline begins a buffer of 4096 bytes |
| LineEndings.LongLineDiffers | plumbing/object/rename.go:604-607 | a line of 4095 characters does not |
| SimilarityTable.RefusedIff | plumbing/object/rename.go:700-735 | a block is refused exactly if it makes the counts too large |
| SimilarityTable.TooLargeLater | plumbing/object/rename.go:700-735 | what is too large stays so with more blocks |
| SimilarityTable.HashContent | plumbing/object/rename.go:576-628 | reads the file block by block; it fails exactly if some count does not fit or there are more keys than the largest table takes (`TooLarge`), and otherwise the table holds the total length of every key, and `hashed` is the sum |
| SimilarityScore.Common | plumbing/object/rename.go:649-698 | the merge over two sorted tables computes the specified sum and stays in bounds |
| SimilarityScore.CommonIsSharedIff | plumbing/object/rename.go:649-698 | it is the sum over all keys of the smaller count exactly when one file lacks key 0 or both have equally many empty slots; otherwise it is less |
| SimilarityScore.MergeIsSymmetric | plumbing/object/rename.go:649-698 | it does not depend on which file is the source |
| SimilarityScore.MergeAtMostTotal | plumbing/object/rename.go:649-698 | it is at most either total, and a file shares all of itself |
| SimilarityScore.SortedHasEntries | plumbing/object/rename.go:541-550 | sorting keeps the entries and their keys unique |
| SimilarityScore.FileSimilarityIndex | plumbing/object/rename.go:541-550 | the sorted index counts exactly the blocks of the file; there is one exactly if these are not too large |
| SimilarityScore.BitsAreSnug | plumbing/object/rename.go:762-794 | the size of a table as a function of the number of its keys |
| SimilarityScore.MergeIsFound | plumbing/object/rename.go:649-698 | the merge depends on the blocks of the two files alone: it is what they share, without key 0 if their tables differ in empty slots |
| SimilarityScore.CommonIsExactIff | plumbing/object/rename.go:649-698 | the same condition, said of the blocks of two files and the sizes of their tables |
| SimilarityScore.KeyZeroIsMissed | plumbing/object/rename.go:649-698 | the files "3EJayZe" and the same with a line "x" share 8 bytes; their tables have 255 and 254 empty slots, and `common` is 0 |
| SimilarityScore.SameTallyShareAll | plumbing/object/rename.go:649-698 | files with the same counts share everything, empty slots or not |
| SimilarityScore.ScoreIsSound | plumbing/object/rename.go:640-647 | the score is symmetric, at most the maximum, and the maximum for files with the same counts |
| SimilarityScore.Score | plumbing/object/rename.go:640-647 | the code computes the score that the blocks of the two files have |
| NameSimilarity.NameSimilarityScore | plumbing/object/rename.go:287-333 | the loops from both ends compute the score from common prefix and suffix of directories and suffix of file names |
| NameSimilarity.ScoreDirs | plumbing/object/rename.go:287-333 | the loops over the directory part |
| NameSimilarity.NameScoreBounds | plumbing/object/rename.go:287-333 | the score is symmetric, a percentage, and 100 for equal paths alone |
| NameSimilarity.ScoresOfNames | plumbing/object/rename.go:287-333 | bar.c and baz.c in one directory score 70, Foo.java in src/utils and in tests/utils scores 64 |
| RenameMatching.SortMatrix | plumbing/object/rename.go:371-383 | the same pairs, none before one that is less |
| RenameMatching.GreedyPrefersHigherScores | plumbing/object/rename.go:226-240 | a pair not claimed lost to a claimed one that has a file in common and no lower score |
| RenameMatching.Claim | plumbing/object/rename.go:226-246 | the greedy pass uses each deletion and insertion at most once, keeps all others, and leaves a deletion and an insertion over only if the matrix has no pair for them |
| RenameMatching.LeftIsUncovered | plumbing/object/rename.go:162-194 | two files are both left over only if the matrix has no pair for them |
| RenameMatching.CoveredIsBeaten | plumbing/object/rename.go:226-240 | every pair of the matrix is claimed, or a claimed pair has one of its files and no lower score |
| RenameDetection.GroupChangesByHash | plumbing/object/rename.go:362-369 | every group holds exactly the changes with its hash, in order |
| RenameDetection.BestNameMatch | plumbing/object/rename.go:270-285 | the first of the most similar names, or none if nothing is similar |
| RenameDetection.MatchUnique | plumbing/object/rename.go:84-113 | one insertion against the deletions of its hash: renamed, kept or lost, and lost exactly when there are several deletions and the best one does not fit |
| RenameDetection.RenameDetector.MatchUniques | plumbing/object/rename.go:84-113 | over all hashes with one insertion, changes are renamed once, kept or dropped as stated, and the renames of every such hash are the right ones (`GroupRight`) |
| RenameDetection.RenameDetector.MatchSeverals | plumbing/object/rename.go:115-205 | over all hashes with several insertions nothing more is dropped, and the renames of every such hash are the right ones |
| RenameDetection.MatchOneDeletion | plumbing/object/rename.go:117-134 | several insertions against one deletion: nothing is lost, and a rename happens exactly when the best name has the same mode |
| RenameDetection.NameMatrix | plumbing/object/rename.go:136-160 | scored pairs row by row: all of them without an effective limit, and otherwise exactly as many as the limit says |
| RenameDetection.MatchByName | plumbing/object/rename.go:131-194 | several against several: nothing is lost and something is renamed; without an effective limit one side is used up, and every pair is claimed or loses a file to a pair with names no less alike |
| RenameDetection.UniqueIsRight | plumbing/object/rename.go:84-113 | what is done with one insertion is right: with one deletion a rename exactly if the modes agree, with several the one to the most alike name exactly if its mode agrees |
| RenameDetection.SeveralAreRight | plumbing/object/rename.go:115-205 | what is done with several insertions is right: against one deletion the most alike name is renamed exactly if its mode agrees, against several the most alike pairs are |
| RenameDetection.RenameDetector.Classify | plumbing/object/rename.go:34-48 | every change goes to the list of its kind, in order; a change that does nothing is an error |
| RenameDetection.RenameDetector.DetectExactRenames | plumbing/object/rename.go:69-205 | insertions and deletions are renamed at most once, kept, or dropped by the stated condition; a rename joins equal hashes; and for every hash the renames are the right ones (`ExactRight`), so none is missed |
| RenameDetection.Compare | plumbing/object/rename.go:396-490 | a cell is scored exactly for two regular files of similar size that can be indexed and whose score reaches the limit; it fails exactly if a file cannot be read or the second is too large; a source that is too large is given up |
| RenameDetection.SimilarSize | plumbing/object/rename.go:452-460 | sizes are similar if and only if the smaller one is at least as many percent of the larger as the score asks for |
| RenameDetection.BuildRow | plumbing/object/rename.go:404-490 | one deletion against all insertions; fails exactly if a comparison fails before the source is given up |
| RenameDetection.BuildSimilarityMatrix | plumbing/object/rename.go:396-505 | the sorted matrix has the right score of every candidate pair and nothing else; there is none exactly if some row fails |
| RenameDetection.NewlinesAreLargeIff | plumbing/object/rename.go:739-745 | a file of empty lines is too large exactly from 4 294 967 296 of them on |
| RenameDetection.LargeAdditionFails | plumbing/object/rename.go:466-486 | such a file makes the comparison fail if it was added; if it was deleted it is given up |
| RenameDetection.ClaimedAreBest | plumbing/object/rename.go:226-246 | claiming greedily from the matrix of all candidates, no deletion and insertion that match are both left over, and a pair that matches is claimed or loses a file to a pair that scores no less |
| RenameDetection.RenameDetector.DetectContentRenames | plumbing/object/rename.go:211-247 | conserves all changes; unless there are too many files, no deletion and insertion that match are both left over, every rename is a match, and a match is claimed or loses a file to a rename that scores no less (`ContentRight`). It fails exactly if there are not too many files and some row fails, and then nothing has changed |
| RenameDetection.RenameDetector.Detect | plumbing/object/rename.go:249-268 | the result holds exactly what is left, what was modified and the renames; exact and content renames are the right ones, or no content rename is made if only exact ones are asked for; there is a result if only exact renames are asked for or no comparison of a deleted with an added file fails |
| RenameDetection.DetectRenames | plumbing/object/rename.go:20-51 | over all changes: the result accounts for each of them, except for exactly the insertions the condition names, and the renames in it are the right ones: exact ones by hash, mode and name, then content ones by score, with no match left over. There is no result if a change does nothing, and there is one if none does and only exact renames are asked for or no comparison can fail |
| RenameDetection.AllConservedIff | plumbing/object/rename.go:96-109 | nothing is lost if and only if no insertion has several deletions of its hash of which the most similar one is missing or has another mode |
| RenameDetection.ModeChangeIsDropped | plumbing/object/rename.go:96-109 | three changes for which the condition holds, so that one is lost |
| BlameHistory.MatchedIsCopy | blame.go:299-337 | an edit script matches a line of the target only with an equal line of the source |
| BlameHistory.MatchedIsMonotone | blame.go:299-337 | matching keeps the order of lines, on which merging and passing on rest |
| BlameHistory.TraceKeepsText | blame.go:32-118 | following copies from parent to parent leads to an ancestor with the same line |
| BlameHistory.BlameIsRight | blame.go:32-118 | a commit a line is attributed to is an ancestor that introduces a line with exactly that text |
| BlameHistory.FirstIsLowest | blame.go:43-44 | the origin of a line is its origin in the first parent, by the order of the parents, that has it |
| BlameHistory.FirstThroughTwin | blame.go:262-272 | an only parent with the very same file has the same origins, so the commit can be left out |
| BlameHistory.ChangesAreTwinFree | blame.go:182-204 | a history in which every commit changes the file is one in which none has two parents with its very file |
| Blame.Blame | blame.go:32-118 | every line gets a commit that copies lead to and that introduces it; if no commit has two parents with its very file, it is the one that following always the first parent with the line leads to; every answer is that of a run of rounds (`BlameRounds.IsRun`); it fails only if the file or a parent is missing; none of the invalid states is reached, and it ends |
| Blame.BlameFindsOrigins | blame.go:32-118 | so every attributed commit is an ancestor whose version of the file contains that exact line |
| BlameTwins.LaterParentIsBlamed | blame.go:43-44 | five commits in which a line is not blamed on the first parent that has it: a merge of three parents with its very file, the third a parent of the second, is stepped over although the first has answered |
| BlameTwins.EveryRunSkipsThree | blame.go:182-204 | in that history every run of rounds ends with that answer |
| Blame.LineToCommit | blame.go:106-109 | the answers of the blamed commit, line by line |
| Blame.Blamer.Newest | blame.go:496-528 | the item taken is not older than any other |
| Blame.Blamer.PopGroup | blame.go:84-96 | takes all items of the newest commit and leaves none of that commit behind; no item is lost or made up |
| Blame.Blamer.AddBlames | blame.go:175-363 | one round, exactly: the items become one, which takes a short cut, asks all parents or answers (`Combined`, `Handled`). It keeps the work list sound: counters equal outstanding links and every unanswered line is introduced here or still owed, under the number of the parent that has it; the work left shrinks; it fails if and only if a parent is missing |
| Blame.Blamer.CheckAllSame | blame.go:182-192 | whether all items are identical to one child, and exactly their lowest number |
| Blame.Blamer.JoinIdentical | blame.go:193-204 | all but one of the links to the child are dropped, its counter is set right, the one left has the lowest number and climbs as far as children only pass answers on; this happens only if some commit has two parents with its very file |
| Blame.Blamer.SkipChildren | blame.go:198-203 | children that only pass answers on are stepped over, exactly as far as they go on, without losing anything owed |
| Blame.Blamer.MergeItems | blame.go:207-244 | one item asks for exactly the lines of all and owes what all owed, link by link |
| Blame.Blamer.Combine | blame.go:176-244 | whatever the case, one item is left that owes exactly what the items owed |
| Blame.Blamer.ParentsContainingPath | blame.go:536-567 | the parents that have the path, in order, or an error if and only if one is missing |
| Blame.Blamer.PushParent | blame.go:255-354 | asks a parent for exactly the lines it has, under the number of its place among the parents that have the file, and counts it exactly if it was queued |
| Blame.Blamer.Bypass | blame.go:262-272 | a parent takes the place of a commit that only passes answers on, under that commit's number |
| Blame.Blamer.AskParents | blame.go:246-362 | every parent has been asked under its own number, and every line is owed or introduced here; if none was asked the item answers |
| Blame.Blamer.FinishNeeds | blame.go:365-404 | what is still unanswered is rightly attributed to this commit, every link is paid, and nothing else changes |
| Blame.Blamer.ApplyNeeds | blame.go:406-446 | paying one link answers every line it covers; a child whose counter drops to zero is finished, and no other |
| BlameSteps.OwersAreTwins | blame.go:182-204 | two identical items of one commit with one child show that some commit has two parents with its very file |
| BlameSteps.FirstIsAnswered | blame.go:406-436 | an answer that came through the lowest-numbered parent with the line names its first origin |
| BlameLines.GetFromParent | blame.go:300-337 | the run through the hunks collects exactly the requested lines that the parent has, with their places there |
| BlameLines.ScanHunk | blame.go:305-336 | one hunk moves both line numbers on and collects the requested lines in it |
| BlameLines.RequestsMatch | blame.go:300-337 | each is a requested line at its matched place, in order |
| BlameLines.RequestsMissNone | blame.go:300-337 | no matched line is left out |
| BlameLines.PassToIdentical | blame.go:407-417 | every line takes over the answer if it has none or from a later parent |
| BlameLines.PassToAsking | blame.go:418-436 | the same for just the lines that were asked for |
| BlameLines.AnswerRest | blame.go:366-372 | lines without an answer get this commit |
| BlameLines.CopyAnswers | blame.go:382-396 | answers of the merged lines go to each list that was merged, without running past the end |
| BlameLines.MergeNeeds | blame.go:215-240 | the lines of both lists, in order and once each |
| BlameState.Take | blame.go:90-96 | taking an item off the queue keeps the balance of links |
| BlameState.Leave | blame.go:365-404 | an item nobody owes anything can leave |
| BlameState.Pay | blame.go:437-443 | paying one link keeps every counter equal to the links outstanding |
| BlameState.Push | blame.go:274-283 | queueing a parent adds one link and one to the counter |
| BlameState.Replace | blame.go:264-271 | a link may change hands if it covers the same lines |
| BlameState.DropDouble | blame.go:194-195 | one of two identical links is dropped together with one of the counter |
| BlameState.StepOver | blame.go:199-203 | a child with a single link leaves when somebody else takes it over |
| BlameState.Queue | blame.go:264-271 | a new item can take over links that are already counted |
| BlameState.SomethingIsQueued | blame.go:87-89 | as long as anything waits the queue is not empty, so the error for an empty queue is unreachable |
| BlameState.IdenticalShapes | blame.go:410-412 | two identical links to a child ask for the same lines, so the error for different ones is unreachable |
| SharedFile.StepKeepsInvariant | internal/sharedfile/sharedfile.go:88-288 | every event in every state keeps the invariant |
| SharedFile.RunKeepsInvariant | internal/sharedfile/sharedfile.go:88-288 | it holds after any sequence of acquires, releases, closes and timers, however stale |
| SharedFile.EveryDescriptorIsClosedOnce | internal/sharedfile/sharedfile.go:88-288 | opens minus closes is one exactly while a descriptor is held; descriptors are closed once each, in the order they were opened |
| SharedFile.OnlyCloseClosesUnderUsers | internal/sharedfile/sharedfile.go:210-237 | if a descriptor is closed while there are users, Close did it |
| SharedFile.DescriptorIsPinned | internal/sharedfile/sharedfile.go:88-175 | while users remain and nobody calls Close, the descriptor stays the same and open |
| SharedFile.CloseIsFinal | internal/sharedfile/sharedfile.go:210-237 | after Close nothing is open and nothing is opened again |
| SharedFile.ActingCallbackFoundNothingChanged | internal/sharedfile/sharedfile.go:164-174 | a callback acts only if nothing happened since the Release that scheduled it |
| SharedFile.IdleFileWillBeClosed | internal/sharedfile/sharedfile.go:132-175 | an idle open file that is not pooled always has a timer whose callback will close it |
| SharedFile.RefsCountUsers | internal/sharedfile/sharedfile.go:88-175 | the counter is the number of successful acquires not yet released |
| SharedFile.WhoCloses | internal/sharedfile/sharedfile.go:88-288 | in every state an open descriptor is given up if and only if Close is called, ReleaseNow finds no users, the last user leaves after a ReleaseNow, or a callback of the newest timer finds no users; and then it is closed |
| SharedFile.ReleaseNowClosesIdleFile | internal/sharedfile/sharedfile.go:259-288 | after any run without Close that leaves no users, ReleaseNow leaves nothing open and has closed the descriptor that was held, pooled or not |
| SharedFile.ReleaseNowClosesBehindLastUser | internal/sharedfile/sharedfile.go:132-158 | after any run, if ReleaseNow finds users, the first Release that leaves none closes their descriptor at once, whatever happens in between |
| SharedFile.PooledFileStaysOpen | internal/sharedfile/sharedfile.go:132-162 | a pooled file that nobody asked back stays open over any run, also without users |
| SharedFile.SharedFile.Acquire | internal/sharedfile/sharedfile.go:88-123 | takes the step, and hands out a descriptor exactly if not closed and one is open or can be opened |
| SharedFile.SharedFile.Release | internal/sharedfile/sharedfile.go:132-175 | takes the step |
| SharedFile.SharedFile.GraceExpired | internal/sharedfile/sharedfile.go:164-174 | takes the step of the callback |
| SharedFile.SharedFile.Close | internal/sharedfile/sharedfile.go:210-237 | takes the step |
| SharedFile.SharedFile.ReleaseNow | internal/sharedfile/sharedfile.go:259-288 | takes the step; what that closes is the matter of `WhoCloses` and the lemmas below it |
| PackHandle.LocksStayRight | internal/packhandle/packhandle.go:195-196 | each lock is held by the one goroutine that stands between locking and unlocking |
| PackHandle.CloseStaysRight | internal/packhandle/packhandle.go:162-185 | exactly one goroutine ever closes, and the flags show how far it has come |
| PackHandle.IndexStaysRight | internal/packhandle/index.go:14-39 | at most one index is ever built; it is cached until closing takes it away, and none is built after that |
| PackHandle.IndexIsBuilt | internal/packhandle/index.go:14-39 | while nobody closes the pack, a call of Index whose build succeeds leaves an index built, however the others interleave |
| PackHandle.MetaIsRead | internal/packhandle/packhandle.go:191-220 | the same of Meta |
| PackHandle.CursorIsOpened | internal/packhandle/cursor_reader.go:37-43 | a cursor is opened if and only if the pack is open or can be opened, on the descriptor that is held |
| PackHandle.IdlePackIsReleased | internal/packhandle/packhandle.go:240-256 | without cursors and calls in flight, closing idle descriptors or an eviction leaves the pack closed |
| PackHandle.RefsStayRight | internal/packhandle/cursor_reader.go:37-43 | references to the pack are the open cursors and the goroutines about to release |
| PackHandle.RunKeepsInvariant | internal/packhandle/packhandle.go:112-256 | all of this holds over every interleaving of calls, timers and evictions |
| PackHandle.CloseClosesEveryIndexOnce | internal/packhandle/packhandle.go:166-185 | when Close has returned, every index ever built has been closed exactly once and the pack is closed |
| PackHandle.NothingAfterReturn | internal/packhandle/packhandle.go:166-220 | from then on nothing is built, closed or opened, whoever is still under way |
| PackHandle.ReferencesAreExact | internal/packhandle/cursor_reader.go:99-105 | in every run the reference count equals the open cursors plus the calls in flight, and open cursors share the descriptor that is held |
| PackHandle.NotBlockedMoves | internal/packhandle/packhandle.go:166-256 | a goroutine that waits for no lock and no closer moves on |
| PackHandle.SomeoneMoves | internal/packhandle/packhandle.go:166-256 | there is no deadlock: while anyone is inside a call, someone can move |
| RefStorage.ResolvesToHash | plumbing/storer/reference.go:218-245 | following a reference ends at one that holds the hash found, or fails |
| RefStorage.ResolveIff | plumbing/storer/reference.go:218-245 | for all references: a hash is found if and only if links within the limit lead to a reference that holds it, nothing is found if and only if they lead to a missing name, and it fails if and only if they go on for too long |
| ObjectWalker.WalkFollowsLinks | object_walker.go:131-212 | the walk follows every link there is |
| ObjectWalker.WalkReaches | object_walker.go:131-212 | whatever links reach, the walk reaches |
| ObjectWalker.Walker.WalkObjectTree | object_walker.go:131-212 | on success everything below the object is seen and nothing else is added; in a partial clone exactly what is missing is recorded, and plain files are read or recorded; it succeeds if nothing on the way stops it |
| ObjectWalker.Walker.WalkBelow | object_walker.go:149-211 | all links of an object, by its kind, including a tag's target and a commit's parents unless it is shallow |
| ObjectWalker.Walker.WalkParents | object_walker.go:159-168 | all the parents given are seen |
| ObjectWalker.Walker.WalkEntries | object_walker.go:171-204 | all entries of a tree are seen; plain files are added without a look at them |
| Maintenance.NamedIff | object_walker.go:97-113 | the same of a reference that the walk meets, whose target is resolved |
| Maintenance.WalkAllRefs | object_walker.go:90-117 | on success exactly what the references reach, through symbolic links within the limit, has been seen. It succeeds if no reference leads too far (`AllResolve`) and nothing reached stops the walk (`IsClear`); it fails if something that is looked at and is no plain file elsewhere stops it; so if nothing that stops it is listed both ways, it succeeds if and only if no reference leads too far and nothing stops it |
| Maintenance.GotThrough | object_walker.go:131-212 | a walk that has seen all that is reached has met nothing that stops it, except as a plain file |
| Maintenance.PassedIsClear | object_walker.go:131-212 | if nothing that stops the walk is listed both ways, that means nothing stops it |
| Maintenance.SymlinkStopsTheWalk | object_walker.go:199-210 | one reference to a tree with one symbolic link, whose blob is present: the walk fails |
| Maintenance.PlainFilesPass | object_walker.go:171-188 | a symbolic HEAD, a branch and a tree of a regular and an executable file: the walk succeeds, whether the blobs are present or not |
| Maintenance.Repository.Prune | prune.go:42-75 | never offers an object that a reference reaches; on success offers exactly the loose ones that are not reached and old enough; it succeeds if the walk can and the handler accepts all of those, and if nothing that stops the walk is listed both ways then only so |
| Maintenance.Repository.CreateNewObjectPack | repository.go:2179-2234 | the pack holds exactly what is reached and present; loose objects go only once it is published; no reachable object is lost however it ends; it succeeds if the walk can, all that is reached can be read or is missing in a partial clone, and the pack can be opened, written and closed and the loose objects deleted (`Packable`), and if nothing that stops the walk is listed both ways then only so |
| Maintenance.Repository.RepackObjects | repository.go:2088-2119 | no reachable object is lost however it ends; on success the new pack and the packs too new to delete are left, and no reached object is loose; it succeeds if a pack can be made and the old packs can be deleted (`Replaceable`), and if nothing that stops the walk is listed both ways then only so |
| Maintenance.KeptByPack | repository.go:2212-2231 | while the new pack is there, dropping loose objects and old packs loses nothing reachable |
| Maintenance.ReachableIsKept | repository.go:2088-2119 | every object that was present and reachable is present and unchanged |
| Paths.JoinUndoesSplit | worktree_commit.go:334-342 | joining the parts of a path gives the path |
| Paths.SplitUndoesJoin | worktree_commit.go:334-342 | splitting a joined path gives its parts, if these hold no slash |
| TreeLookup.FlagSorted | plumbing/object/tree.go:344-353 | comparing neighbours flags a tree sorted exactly if its sort names are in order throughout |
| TreeLookup.DirectoryBehindDot | plumbing/object/tree.go:375-381 | the directory a sorts as a/, behind the file a.b and before the file a0 |
| TreeLookup.SearchEntryIndex | plumbing/object/tree.go:250-254 | bisection finds the first entry whose sort name is not before the string |
| TreeLookup.SearchEntry | plumbing/object/tree.go:238-248 | the search for a file and then for a directory of that name |
| TreeLookup.ScanEntry | plumbing/object/tree.go:216-236 | the scan that gives up at an entry that sorts past the name |
| TreeLookup.LookupEntry | plumbing/object/tree.go:216-236 | the searches for a tree flagged sorted, the scan for any other |
| TreeLookup.ScanIsExactIff | plumbing/object/tree.go:216-236 | on any entries, sorted or not, the scan finds the first entry of the name if and only if no earlier entry sorts past it |
| TreeLookup.SearchIsExactIff | plumbing/object/tree.go:238-254 | on sorted entries the two searches find the first entry of the name if and only if it is not a directory behind a file called the same with a slash |
| TreeLookup.SlashedNameHidesDirectory | plumbing/object/tree.go:238-254 | the file "x/" and the directory "x" are sorted, and the directory is not found |
| TreeLookup.LookupsAgree | plumbing/object/tree.go:216-254 | on sorted entries with slash-free names both ways find the first entry of the name, or that there is none |
| TreeLookup.OpenDir | plumbing/object/tree.go:199-214 | opens the subtree that a lookup leads to, with its sortedness found anew |
| TreeLookup.CacheIsInvisibleIff | plumbing/object/tree.go:159-197 | for one right cache: the cached answer is the fresh one if and only if the longest cached prefix has no empty part or the rest of the path leads nowhere from there |
| TreeLookup.NoCacheShowsIff | plumbing/object/tree.go:171-183 | the answer is the same for every right cache if and only if no beginning of the path has an empty part, leads to a tree once empty parts are left out, and goes on from that tree with the rest of the path |
| TreeLookup.CacheIsInvisible | plumbing/object/tree.go:159-197 | on paths without empty parts the answer is the fresh one whatever is cached |
| TreeLookup.EmptyPartSeesTheCache | plumbing/object/tree.go:171-183 | a store, a right cache and the path a//c, which is found through the cache only |
| TreeLookup.Tree.FindEntry | plumbing/object/tree.go:159-197 | every call keeps the cache right; the answer is the one defined by the cache, and on paths without empty parts the one of a fresh lookup |
| TreeLookup.Tree.Follow | plumbing/object/tree.go:185-196 | opening one subtree after another arrives where the parts lead |
| TreeLookup.Tree.Descend | plumbing/object/tree.go:186-193 | the subtree opened is cached under the path that leads to it |
| TreeBuilder.Builder.CommitIndexEntry | worktree_commit.go:325-345 | after each index entry the trees hold exactly the entries kept so far and the directories above them |
| TreeBuilder.Builder.MakeDir | worktree_commit.go:347-367 | a directory gets a tree and an entry in its parent unless it is there |
| TreeBuilder.Builder.PlaceFile | worktree_commit.go:347-367 | the file gets its entry unless a directory has its path |
| TreeBuilder.SortEntries | worktree_commit.go:371-382 | the same entries in the order of their sort names |
| TreeBuilder.Validate | plumbing/object/tree.go:494-562 | accepts exactly sorted entries with distinct, plain, accepted names and no zero id |
| TreeBuilder.Builder.CopyTreeToStorage | worktree_commit.go:381-409 | stores a tree with all files below its path exactly if every tree there is valid; the store only grows |
| TreeBuilder.Builder.CopySubtrees | worktree_commit.go:383-398 | the same for all subtrees, whose ids are filled in |
| TreeBuilder.Builder.BuildTree | worktree_commit.go:311-323 | succeeds exactly if no kept path is held twice and all names are accepted; the root then stores exactly the kept entries |
| TreeBuilder.BuildableIsValid | worktree_commit.go:311-409 | that condition on the index is what the encoder demands of all trees |
| TreeBuilder.KeptIff | worktree_commit.go:325-356 | an entry gets into a tree if and only if its id is not zero and no earlier entry that has an id lies below its path |
| TreeBuilder.FileBehindDirectoryIsLost | worktree_commit.go:347-350 | a file after an entry below it is left out, and no error tells |
| TreeBuilder.LoseFile | worktree_commit.go:311-350 | the index a/b, a: the root is built, has the file a/b and no file a |
| TreeBuilder.FileBeforeDirectoryIsRefused | worktree_commit.go:347-367 | in the other order the tree is refused |
| TreeBuilder.FlatteningGivesIndex | worktree_commit.go:311-409 | without conflicts the leaves of the stored root are exactly the entries of the index that have an id |
| TreeBuilder.TreeIsUnique | worktree_commit.go:381-409 | two proper stored trees with the same leaves have the same id |
| TreeBuilder.AnyOrderGivesTheSameRoot | worktree_commit.go:311-409 | every reordering of an index without conflicts gives the same root |
| TreeBuilder.LeafIsFound | plumbing/object/tree.go:159-197 | looking a path up in a built tree finds its leaf |
| RefSpec.ValidIff | config/refspec.go:34-52 | a spec is valid exactly if it is printed from a source and a destination with one wildcard each or none, and no other colon |
| RefSpec.PartsOf | config/refspec.go:55-96 | every operation yields the parts a valid spec was printed from |
| RefSpec.ComesBackIff | config/refspec.go:119-150 | for a valid spec and any name it matches: the reversed spec matches the destination and maps it back if and only if the spec is forced or its destination does not begin with "+" |
| RefSpec.PlusIsTakenForForce | config/refspec.go:140-150 | the valid spec a:+b matches a, which does not come back through the reversed spec |
| RefSpec.ReverseTwice | config/refspec.go:140-150 | under that condition reversing twice changes nothing |
| RefSpec.MatchedIsImage | config/refspec.go:119-150 | and what the reversed spec matches is the destination of the name it maps to |
| FetchRefs.CalculateRefs | remote.go:1215-1276 | the matching remote references with the hashes they resolve to, or an error exactly if one does not resolve |
| FetchRefs.Remote.PruneRemotes | remote.go:827-846 | removes exactly the local references that map back to nothing |
| FetchRefs.Remote.CheckAndUpdate | repository.go:1404-1423 | sets the reference, or leaves everything alone if it changed meanwhile |
| FetchRefs.Remote.UpdateLocalReferences | remote.go:1435-1505 | on success one reference after the other has been set; it succeeds if none of those to be set is symbolic |
| FetchRefs.FetchIsExact | remote.go:827-846 | for a spec that maps into refs/, a fetch leaves exactly the images of the matching remote references, and all others alone |
| FetchRefs.UpdatedIs | remote.go:1446-1503 | where something lands there is the hash of something that lands there, and nothing else has changed |
| FetchRefs.PruneAndUpdate | remote.go:590-604 | pruning and updating together give that state |
| FetchRefs.ShortIsBranch | remote.go:1456-1471 | with a destination that is not a full name, matching references become branches and no full name is pruned |
| FetchRefs.Remote.Fetch | remote.go:461-620 | for any valid wildcard spec, forced, pruning, without tags: where a matching remote reference goes there is the hash of one that goes there, everything else is as before or was pruned because it maps back to nothing. So if the spec maps into refs/, the local references it can produce are exactly the images of the matching remote ones, with their hashes; with a short destination they become branches and nothing under refs/ is pruned. If a remote reference does not resolve nothing changes; it succeeds if all do and no reference to be set is symbolic |
| FastForward.ParentsToIgnore | remote.go:1373-1386 | the parents of the shallow commits that are stored; an error exactly if one of those cannot be read |
| FastForward.IsFastForward | remote.go:1360-1413 | yes if the stored history of the new commit holds the old one or a shallow commit, no if it holds neither; an error only if something cannot be read |
| FastForward.NoShallows | remote.go:1360-1413 | without shallow commits that decides reachability |
| LruCache.Cache.Put | plumbing/cache/object_lru.go:35-76 | stores the value as the newest and keeps the longest list of most recent entries that fits; a new value too large for the cache is ignored |
| LruCache.Cache.MoveToFront | plumbing/cache/object_lru.go:47-61 | list, map and size agree again |
| LruCache.Cache.EvictLast | plumbing/cache/object_lru.go:62-75 | drops the entry not used for longest; the list is never empty there |
| LruCache.Cache.Get | plumbing/cache/object_lru.go:80-91 | the value under the key, which becomes the newest, or none |
| LruCache.Cache.Clear | plumbing/cache/object_lru.go:94-101 | nothing is left |
| LruCache.RunAgrees | plumbing/cache/buffer_lru.go:39-99 | after any calls every entry is what an unbounded map holds under its key, keys are distinct, and the sizes stay within the bound |

## Left out

* The negotiation loops of fetch and push, and everything else about transport and packet lines.
* `NewCommitAllIter`, which does not visit every commit, and the first-parent iterator.
* Hash functions, zlib, and the making and checking of PGP signatures: ids are opaque and a signature is text.
* The byte format of tree objects (`Tree.Decode`, `Tree.Encode`, modes in octal): a stored tree is its list of entries, and one with an empty name cannot be read.
* The path rules of `pathutil`: which paths and names are allowed is a parameter.
* `path.Join` on parts that are empty, "." or "..".
* The `entries` map of `buildTreeHelper`, which is created and read but never filled.
* The path caches of subtrees: only the tree that `FindEntry` is called on has one, as in the code paths modelled.
* The external diff and the heap libraries: any valid edit script, and some item that none is newer than. The methods that take it fix an order among equals, but nothing is proved from it.
* The descriptor pool's `Touch` and `Forget`: a pool may call `ReleaseNow` at any moment.
* The author and text columns of the result of blame.
* Progress reports, cancellation and tracing.
* Integer widths, apart from the counts and the table sizes that the similarity index checks itself; the generation counter of a shared file does not wrap around.
* Errors when the list of shallow commits is read.
* `Read`, `Seek` and the offset of a cursor, and the cached size of a pack: a cursor is a descriptor and a reference.
* The lengths of grace periods and of file times: a timer may fire at any moment after it was set.
* The list elements of the caches, which the map shares with the list: the model finds an entry in the list by its key.
* Deciding whether a file is binary, and files whose size is not the one their object states.
* The final sort of `DetectRenames` by path, which changes only the order.
- Blame.Blamer.AddBlames: does not follow renames, because items are grouped by commit alone, which is right only for one path.
- Blame.Blamer.ParentsContainingPath: takes a parent without the path for one without the file, for the same reason.
- Blame.Blame: says which of several origins is named only for histories in which no commit has two parents with its very file, because in others it depends on which items still wait when another one climbs past them, and so on all dates and merges below; `BlameTwins.LaterParentIsBlamed` is a history in which it is not the first.
- FileBlocks.TakeBlock: does not cut the hash to 64 bits, because only its last 32 bits are used.
- FetchRefs.Remote.Fetch: covers one wildcard spec, forced, with pruning and without tags, because exact ids, names without a wildcard, unforced updates and names that cannot be stored take other branches.
- FetchRefs.Remote.PruneRemotes: does not cover a storage that fails to remove a reference, because nothing is claimed of a failed fetch.
- TreeBuilder.Builder.BuildTree: covers indexes with normal paths whose entries are no directories, because a path such as "a//b" gets a directory where its file should be, and an entry that claims to be a directory is dereferenced as a tree that does not exist.
- FetchRefs.Remote.CheckAndUpdate: follows the memory storage, because the file storage compares while it holds a lock that is not modelled.
- FastForward.IsFastForward: does not say which error is reported first, because callers treat all errors alike.
- Maintenance.WalkAllRefs: does not decide graphs in which a blob that stops the walk is listed both as a plain file and otherwise, because the outcome depends on the order in which references are visited, which Go leaves open for maps.
