# Verified model of lazy's stateful cores

lazy runs coding agents on tasks, in containers, and keeps their conversations.
This project models the parts of it whose correctness depends on whole runs,
whole graphs or whole streams, and proves what those parts are for.

| modules | what they model |
|---|---|
| `Lineage`, `Segments`, `Stitching`, `StitchTheorems` | grouping conversation segments into Builders with a union-find |
| `BuilderListing`, `BuilderTranscript` | statistics, transcripts and lookup over that grouping |
| `TaskTree`, `DepthPrune` | three walks over the parent links of tasks |
| `BinaryIdentity`, `BinaryInstall`, `BinarySafety`, `BinaryPointer`, `BinaryOperations` | installing, adopting, repointing and collecting the agent binary |
| `CodexStream`, `PiStream`, `AgentUsage` | agent output and the excerpt retained of it |
| `HubDiff`, `FirstParentLog` | which paths of a hub are its own |
| `SessionDiscovery` | the newest session file, behind a cache of verdicts |
| `McpClient` | the JSON-RPC client of the pi bridge |
| `WatchTurns`, `CommitTrailer`, `RateLimit` | smaller stateful pieces |
| `Prelude`, `Text` | shared types, and strings as the runtime treats them |

Objects whose methods update fields are classes, and loops are loops. Each such
method is tied to a specification function of its inputs or of what it has
observed, and the laws are lemmas about that function; one of them says, by positions
and fields, what the function computes (`Prelude.Picks`: the elements at some positions,
in order). The install directory and the bridge client are transition systems besides: their laws hold of every run.

`dafny verify dfyconfig.toml` checks everything.

## What the code does not keep

Some promises do not hold of the code as it is. For each there is a lemma that
says when they do.

- An excerpt of Codex output parses like the whole output exactly when no failure
  is to be reported and the excerpt has every message, the session and the usage
  that the whole output has, or neither has anything to report
  (`CodexStream.ExcerptParsesTheSameIff`, for every stream with a completion). A
  retained pi result line does exactly when the output ends with a session id and
  its last summary reports, under that id, what the retained line does
  (`PiStream.ResultLineAgreesIff`).
- A one-shot whose head could not be read is taken for a session by later lookups
  too, except exactly when the head was partial and the file changed since
  (`SessionDiscovery.FailedReadRetriedIff`, `SessionDiscovery.FailedReadSticks`).
- A turn is shown exactly when it lands above every turn seen before, so one
  written under a sequence reserved earlier can be lost for good
  (`WatchTurns.ShownIff`, `WatchTurns.ReservedTurnLost`, `WatchTurns.NothingLostIff`).
- Signing a blank commit message twice signs it twice (`CommitTrailer.FixpointIff`).
- A running container keeps its file exactly as long as every step is timely:
  a collection starts only if it spares the files mounted by then, a container on
  a file every collection under way spares, and a temp file is not renamed over a
  mounted file while a collection finds it old enough. Dropping any one of the
  three loses a file in some run (`BinarySafety.StepSafeIff`). Nothing in the
  program enforces it between a collection's `stat` and its `rm`
  (`BinarySafety.LostFromStart`).
- A call that installed nothing can move a pointer that resolves, if another
  process makes it resolve between the call's decision and its move. If others are
  locked out there it does exactly when `lazy-agent-current` is itself a regular
  file (`BinaryPointer.FoundInstallLeavesPointer`, `BinaryPointer.HealedGapMoves`,
  `BinaryPointer.UnresolvedIffQuiet`).
- A line `null` from the MCP server throws in the handler and leaves the rest of the
  text unhandled. Which lines are handled depends on the text alone, over all runs
  that receive it, exactly when no such line comes before another line
  (`McpClient.HandledByTextIff`, `McpClient.CutsIrrelevantIff`).
- A second of the rate limiter admits the smaller of its requests and `perSecond`
  exactly unless it has more requests than that and they are interrupted by a
  request of another second, as when the clock steps back
  (`RateLimit.SecondAdmitsIff`, `RateLimit.ClockBackAdmitsMore`).
- A task that is on a parent cycle, or below one, appears neither in a depth-cut
  list nor in its hidden counts (`DepthPrune.NothingLostIffAcyclic`).
- The third accept subject (src/task-diff-base.ts:472-474) is never added: what is
  displayed is the code or the short id (`HubDiff.AcceptSubjectNeedles`).

## Model

| member | source | states |
|---|---|---|
| Lineage.LineageCollector.Observe | src/builder/identity.ts:55-78 | the five fields stay the first uuid, the last 32, the set of uuids, and the distinct references and forks of all records observed |
| Lineage.LineageCollector.Finish | src/builder/identity.ts:80-87 | the lineage of the records observed: references to a record of the segment itself, even a later one, are dropped, and so is the segment's own id |
| Lineage.LineageFromMessages | src/builder/identity.ts:98-112 | no evidence at all if one id is not uuid-shaped; otherwise that of the messages read as records |
| Stitching.DisjointSets.Find | src/builder/identity.ts:155-160 | terminates on the parent forest and returns the class representative; compressing the path changes no class |
| Stitching.DisjointSets.Union | src/builder/identity.ts:161-165 | exactly the two classes become one, and the parent map stays acyclic |
| Stitching.LinkAnchors | src/builder/identity.ts:169-177 | every segment is in the class of the owner of each of its anchors, and a class holds only connected segments |
| Stitching.LinkReferences | src/builder/identity.ts:178-188 | every segment is in the class of each anchor owner it refers to and each session it was forked from; no class is split |
| Stitching.RootsExact | src/builder/identity.ts:169-188 | when all evidence is reflected in the roots, having the same root is being joined by a chain of links |
| Stitching.Classify | src/builder/identity.ts:153-188 | after both linking passes, having the same root is being connected |
| Stitching.HeadStartsGroup | src/builder/identity.ts:189-196 | in start order a segment opens a group exactly when it is the least of its component |
| Stitching.Group | src/builder/identity.ts:189-196 | there is one group per component, in order of the components' least members, each listing its members in start order |
| Stitching.Assemble | src/builder/identity.ts:197-211 | one Builder per group, named by its first member, ending at its latest end |
| Stitching.StitchBuilders | src/builder/identity.ts:151-214 | the result is a function of the set of segments alone: one Builder per connected component, newest first |
| StitchTheorems.SameBuilderIffConnected | src/builder/identity.ts:151-214 | two segments share a Builder exactly when a chain of pairwise links joins them |
| StitchTheorems.OneBuilderEach | src/builder/identity.ts:189-213 | every segment is in exactly one Builder |
| StitchTheorems.BuilderNamedByFirst | src/builder/identity.ts:197-212 | a Builder's id, title and start are those of its least segment, and its segments are listed in start order |
| StitchTheorems.FirstLeads | src/builder/identity.ts:141-148 | a Builder has the id, title and start of the one segment of its component that starts first; of those that start together the one that ends first; of those that also end together the one with the least id |
| StitchTheorems.SegmentsLead | src/builder/identity.ts:141-148 | any two segments a Builder lists stand in that order |
| StitchTheorems.BuilderEndsLast | src/builder/identity.ts:199-204 | a Builder's end is the greatest of its segments' ends, a segment without one ending at its start, and is missing only if none has either |
| StitchTheorems.LatestEndIsMax | src/builder/identity.ts:199-204 | the end is missing only if every member lacks one, and is otherwise the greatest of them |
| StitchTheorems.StitchedListed | src/builder/identity.ts:212-213 | one Builder per component head, listed newest first with ties in start order |
| StitchTheorems.OrderIndependent | src/builder/identity.ts:151-214 | any permutation of the segments gives the same Builders in the same order |
| StitchTheorems.GrowthNeverSplits | src/builder/identity.ts:123-139 | segments that share a Builder still do after any segments are added |
| StitchTheorems.GrowthKeepsId | src/builder/identity.ts:123-139 | when the added segments sort last, a Builder takes the id of the earliest old Builder it absorbs, and its own if it absorbs no other |
| StitchTheorems.IdKeptIff | src/builder/identity.ts:123-139 | for any growth the id is kept exactly when nothing joined sorts before the old head |
| StitchTheorems.CapturedAnchors | src/builder/identity.ts:55-87 | the uuids others can link to are those of the first record with a uuid and of the last 32 |
| StitchTheorems.CapturedReferences | src/builder/identity.ts:66-87 | a reference counts exactly when no record of the segment, before or after it, has that uuid |
| StitchTheorems.LinkedAsRecorded | src/builder/identity.ts:48-112 | two captured segments are linked exactly when their raw records share an anchor, point out to one, or fork |
| StitchTheorems.NoLineageStandsAlone | src/builder/identity.ts:98-106 | a segment with ids of another shape joins only what names it as its fork origin |
| StitchTheorems.StoredReferences | src/builder/identity.ts:98-112 | of stored messages the lineage points out to exactly the parents that are none of the messages, and names no fork |
| BuilderListing.StatsConserved | src/builder/identity-view.ts:49-88 | statistics summed over all Builders are those summed over all segments |
| BuilderListing.SummaryAt | src/builder/identity-view.ts:49-88 | a listing keeps the Builders' fields and order, each with the statistics of its segments |
| BuilderListing.TotalAdds | src/builder/identity-view.ts:49-88 | statistics over more segments add up, each count to its own |
| BuilderListing.StitchedIds | src/builder/identity-view.ts:49-88 | the Builders' segment lists hold the segment ids and nothing else |
| BuilderListing.FindsOwnBuilder | src/builder/identity-view.ts:95-102 | a segment id finds the one Builder that holds the segment |
| BuilderTranscript.FoundIff | src/builder/identity-view.ts:95-102 | a name finds the first Builder with that id; failing that, the first with that segment; failing that, the only one with a segment that begins so |
| BuilderTranscript.JoinBuilderTranscript | src/builder/identity-transcript.ts:27-76 | nothing if no segment is stored, a lone segment with the Builder's id as it is, otherwise the deduplicated concatenation in Builder order with usage and import time folded over it |
| BuilderTranscript.OrderedSegmentsAre | src/builder/identity-transcript.ts:27-40 | what is joined are the Builder's segments that are stored, in its order, each as stored last |
| BuilderTranscript.FirstOccurrencesPicked | src/builder/identity-transcript.ts:40-52 | kept are, in order, the messages without a uuid and the first with each uuid |
| BuilderTranscript.GatheredAppend | src/builder/identity-transcript.ts:40-60 | messages and subagents of more segments follow, usage adds up count by count, the later import time stays |
| BuilderTranscript.JoinedTranscript | src/builder/identity-transcript.ts:40-52 | the transcript has exactly the uuids of the stored segments, each once |
| BuilderTranscript.UnnamedKept | src/builder/identity-transcript.ts:45-49 | messages without a uuid are all kept, in order |
| BuilderTranscript.CopiedHistoryOnce | src/builder/identity-transcript.ts:40-52 | a segment that copies earlier messages and goes on adds only what goes on |
| BuilderTranscript.FindAgreesWithResolve | src/builder/identity-transcript.ts:112-130 | both use the one lookup and so name the same Builder; they differ only in how a name without a unique answer is reported |
| BuilderTranscript.AmbiguousIff | src/builder/identity-transcript.ts:119-126 | a name is ambiguous exactly when it is no id and begins a segment id in two Builders |
| TaskTree.CollectSubtreeIds | src/task-target.ts:116-138 | the worklist ends, cycles included, with the root and everything below it |
| TaskTree.SubtreeClosed | src/task-target.ts:116-138 | a subtree holds the children of its members |
| TaskTree.SubtreeLeast | src/task-target.ts:116-138 | no smaller set holds the root and is closed under children |
| TaskTree.IndexChildren | src/task-target.ts:117-125 | the index lists the children of every id, in input order |
| TaskTree.ChildrenPicked | src/task-target.ts:117-125 | the children listed are the tasks with that task as their target, in input order |
| TaskTree.CreditAncestors | src/task-target.ts:163-173 | the walk up credits each proper ancestor exactly once, on a cycle too |
| TaskTree.DescendantCounts | src/task-target.ts:154-175 | the ancestor walk counts what the worklist collects: subtree size less one, for every task |
| DepthPrune.CountDescendants | src/task-target.ts:232-241 | what is counted is what is newly seen, and the children of everything newly seen are seen |
| DepthPrune.CountIsBelow | src/task-target.ts:232-251 | a count started at a task is the number of tasks below it |
| DepthPrune.IndexLevels | src/task-target.ts:213-226 | the index covers parents inside the set, and the roots are the tasks without one |
| DepthPrune.PruneTasksToDepth | src/task-target.ts:208-263 | keeps exactly the tasks at most `levels` links of the display roots down, at their places in the input order, counts the descendants of each boundary task, and kept plus hidden is the number of tasks whose chain ends at a display root |
| DepthPrune.SameLevelDisjoint | src/task-target.ts:243-256 | subtrees of tasks of one level do not meet, so nothing is hidden twice |
| DepthPrune.KeptPlusElided | src/task-target.ts:208-263 | tasks kept and tasks below the boundary together are those with a display root |
| DepthPrune.HiddenIsDescendantCount | src/task-target.ts:154-175 | a hidden entry equals the descendant count in the full parent graph |
| DepthPrune.NothingLostIffAcyclic | src/task-target.ts:178-207 | kept and hidden are all tasks exactly when no parent cycle runs inside the set |
| BinaryIdentity.VerifyFile | src/agent/binary-identity.ts:88-136 | absent and special files are refused; otherwise the verdict of a search over what the reads reached |
| BinaryIdentity.VerdictIff | src/agent/binary-identity.ts:64-86 | byte by byte, when bytes are accepted and when they are refused for each reason: fewer than 1024, a Mach-O header, no ELF header, or no text `lazy-agent ok` |
| BinaryIdentity.ReachedIs | src/agent/binary-identity.ts:118-131 | reads that all return something get as far as they offer, a chunk at most each, or to the end |
| BinaryIdentity.ReachedStops | src/agent/binary-identity.ts:118-131 | a read that returns nothing ends the search |
| BinaryIdentity.Scan | src/agent/binary-identity.ts:112-131 | chunks with a carried overlap find the sentinel exactly when it occurs in what was read |
| BinaryIdentity.CarryFindsMatch | src/agent/binary-identity.ts:124-128 | with no match so far, a match in the whole is a match in the carried bytes and the new chunk |
| BinaryIdentity.ScanAgreesIff | src/agent/binary-identity.ts:64-136 | the chunked and the in-memory verdict agree exactly unless reading stopped before the sentinel of an acceptable file |
| BinaryIdentity.EnoughReadsCover | src/agent/binary-identity.ts:118-131 | any short reads that return something cover the file |
| BinarySafety.StepKeepsInv | src/agent/binary-install.ts:154-308 | each timely file-system step of any process, and each collection from any list of mounted files that covers those not kept or young, keeps what every other process and container relies on |
| BinarySafety.StepWritesNothing | src/agent/binary-install.ts:202-243 | no step rewrites the legacy file or an install that verifies |
| BinarySafety.MountedFilesNeverChange | src/agent/binary-install.ts:154-308 | in every timely interleaving a running container finds the bytes it was launched with at the path it mounts, and the legacy file is never written |
| BinarySafety.StepSafeIff | src/agent/binary-install.ts:437-461 | in every state of the protocol, a step is timely exactly when no timely continuation changes a mounted file |
| BinarySafety.UnsparedIsLost | src/agent/binary-install.ts:453-459 | a mounted file that a collection does not spare is lost in some continuation, whether the collection has chosen no file, that file or another |
| BinarySafety.UnsparedLaunchIsLost | src/agent/binary-install.ts:437-461 | after a launch on a file some collection does not spare, a continuation loses it |
| BinarySafety.LostFromStart | src/agent/binary-install.ts:453-459 | from a start without containers, a launch between the look at an old install and its removal loses the file |
| BinarySafety.StaleRenameIsLost | src/agent/binary-install.ts:226-243 | after the rename, over a mounted file, of a temp file that some collection finds old enough, a continuation loses the file |
| BinaryOperations.AgentBinDir.InstallVersioned | src/agent/binary-install.ts:202-217 | an install that verifies is left as it is; anything else is replaced, and nothing besides changes |
| BinaryOperations.AgentBinDir.AdoptVersioned | src/agent/binary-install.ts:226-247 | the temp file is gone either way, and the install is the one found or the one moved |
| BinaryOperations.AgentBinDir.AtomicInstall | src/agent/binary-install.ts:154-183 | the destination holds the bytes, no temp file is left, and no other name changes |
| BinaryOperations.AgentBinDir.UpdatePointer | src/agent/binary-install.ts:271-308 | moves the pointer when forced, missing or dangling, and changes no other name |
| BinaryOperations.AgentBinDir.AdoptLegacy | src/agent/binary-install.ts:363-388 | adopts only a verified legacy file, which stays as it was |
| BinaryOperations.AgentBinDir.Prune | src/agent/binary-install.ts:437-461 | every regular install and legacy file still there is kept, mounted or younger than the grace, and everything removed was none of these; nothing goes when mounts are unknown |
| BinaryOperations.StaleIffCollectable | src/agent/binary-install.ts:449-459 | what the operation removes is what a collection of the transition system may choose |
| BinaryOperations.AgentBinDir.InstallAndPoint | src/agent/binary-install.ts:271-308 | a call that installed nothing leaves a pointer that resolves exactly if it is a link; after every other call the pointer resolves to the bytes; after every call it is a link to a regular file |
| BinaryPointer.FoundInstallLeavesPointer | src/agent/binary-install.ts:279-289 | among other processes, at the move of a call that installed nothing the pointer resolves exactly if it is itself a regular file, if nobody moves the pointer or finishes an install between its decision and its move |
| BinaryPointer.UnresolvedIffQuiet | src/agent/binary-install.ts:279-289 | over any run a pointer that does not resolve stays so exactly while no step links it to an install or fills in its target |
| BinaryPointer.HealedGapMoves | src/agent/binary-install.ts:279-289 | after any such step of another process, the move takes away a pointer that resolves |
| BinaryPointer.PointerRace | src/agent/binary-install.ts:279-289 | two calls that both find the pointer missing, dangling or a regular file end with the one that installed nothing moving a pointer that resolves |
| BinaryOperations.InstallAlone | src/agent/binary-install.ts:154-217 | run alone, the steps of the transition system do what the operation does |
| BinaryOperations.AdoptAlone | src/agent/binary-install.ts:226-247 | run alone, the steps of adopting a compiled file do what the operation does |
| BinaryOperations.AdoptLegacyAlone | src/agent/binary-install.ts:363-388 | run alone, the steps of adopting the legacy file do what the operation does |
| BinaryOperations.UpdatePointerAlone | src/agent/binary-install.ts:271-308 | run alone, deciding and moving do what the operation does |
| BinaryOperations.PruneAlone | src/agent/binary-install.ts:453-459 | run alone, a collection can remove any of the files that the operation removes, and leaves the rest |
| CodexStream.MapUsage | src/agent/codex.ts:139-156 | present exactly when all counts are valid; input plus cache reads is the reported input when cached is at most that |
| CodexStream.ParseResponse | src/agent/codex.ts:409-471 | one scan gives the last session, all messages, the last usage and the last failure |
| CodexStream.FailedIff | src/agent/codex.ts:438-451 | the outcome is a failure exactly when the last failed turn says something, or has no message, and then says that |
| CodexStream.OkIff | src/agent/codex.ts:409-471 | it is an answer exactly when no failure is reported and there is a completion, a text and a nonempty last session id |
| CodexStream.OkSays | src/agent/codex.ts:409-471 | the answer joins all texts in order, with the last session id and the usage of the last completion that has one |
| CodexStream.CodexActivityStream.ParseLine | src/agent/codex.ts:186-257 | a completion emits the last thread line, all messages so far and itself |
| CodexStream.ExcerptIs | src/agent/codex.ts:186-257 | an excerpt is the last thread line before the completion, every message line before it in order, and the completion |
| CodexStream.WatchTurn | src/agent/codex.ts:186-257 | what is retained over a stream is the excerpt of its last completion |
| CodexStream.ExcerptParsesTheSameIff | src/agent/codex.ts:174-185 | over every stream with a completion, the retained excerpt parses like the full output exactly when no failure is to be reported and nothing the answer needs is outside the excerpt, or both have nothing to report |
| CodexStream.OneTurnParsesTheSameIff | src/agent/codex.ts:174-185 | over a turn that completes once, has at most one thread and does not fail, exactly when no message and no thread id follow the completion, or there is nothing to report |
| PiStream.SummarizeAssistantMessages | src/agent/pi.ts:200-247 | the text, model and stop of the last assistant message; a usage exactly when every assistant message has a valid one, and then the sum |
| PiStream.SummarySays | src/agent/pi.ts:200-247 | a summary has the stop, the error, the trimmed model and the joined texts of the last assistant message, and a usage exactly if every assistant message has a countable one |
| PiStream.SumAppend | src/agent/pi.ts:200-247 | usage over more messages adds up, each count to its own |
| PiStream.ParseResponse | src/agent/pi.ts:539-576 | the first result line decides; otherwise the last session and the last summary do |
| PiStream.FirstLineReports | src/agent/pi.ts:539-576 | the first result line decides: an error, then the lack of text, then the response |
| PiStream.LastSummaryReports | src/agent/pi.ts:539-576 | without one the last session id and the last summary decide in the same way, and output is missing exactly if either lacks |
| PiStream.PiActivityStream.ParseLine | src/agent/pi.ts:325-397 | a result line is emitted exactly when a session is known and the event carries a summary |
| PiStream.EmittedIff | src/agent/pi.ts:325-397 | a line is emitted exactly for a summary while a nonempty session id is known, and carries both |
| PiStream.WatchTurn | src/agent/pi.ts:325-397 | what is retained over a stream is the last result line emitted |
| PiStream.ResultLineParsesTheSame | src/agent/pi.ts:249-278 | while session headers come first, parsing the retained line gives the response or error of the full output, and a line is retained exactly when there is something to report |
| PiStream.ResultLineAgreesIff | src/agent/pi.ts:298-315 | for every stream that emits a line, split at the one emitted last, they agree exactly when the output ends with a session id and its last summary, with that id, reports the same error, the lack of any text, or the same response |
| HubDiff.ExcludeAcceptedChildShas | src/task-diff-base.ts:446-466 | the tags of tagged children, in the walk or not, and every commit whose subject names an untagged one |
| HubDiff.AcceptSubjectNeedles | src/task-diff-base.ts:468-476 | one subject, or two exactly when the child has a code; never a third |
| HubDiff.ClaimsIff | src/task-diff-base.ts:446-476 | a child claims the commit its accept tag names; without a tag, each whose subject says the accept of the first eight characters of its id or of its code |
| HubDiff.AttributeChild | src/task-diff-base.ts:336-352 | the distinct paths of the commits the child claims, and whether there is one |
| HubDiff.DirectPaths | src/task-diff-base.ts:305-318 | the distinct paths of the commits left, in walk order, then the uncommitted ones |
| HubDiff.ResolveTaskDirectDiff | src/task-diff-base.ts:295-325 | unrestricted without accepted children; otherwise the paths of the commits no child claims, then the uncommitted ones, with every child's attribution |
| HubDiff.ExcludedIffClaimed | src/task-diff-base.ts:336-352 | a walked commit is excluded exactly when some attribution claims it |
| HubDiff.AttributedIff | src/task-diff-base.ts:336-352 | a path is attributed exactly when a claimed commit touched it |
| HubDiff.DirectIff | src/task-diff-base.ts:305-318 | a path is direct exactly when it is uncommitted or a commit no child claims touched it |
| HubDiff.DirectInOrder | src/task-diff-base.ts:305-318 | direct paths stand in the order in which the unclaimed commits, and then the worktree, first name them |
| HubDiff.AttributedInOrder | src/task-diff-base.ts:336-352 | attributed paths stand in the order in which the claimed commits first name them |
| HubDiff.NoPathLost | src/task-diff-base.ts:327-335 | direct and attributed paths cover every path of every walked commit |
| HubDiff.UnattributedHidesNothing | src/task-diff-base.ts:327-335 | a child with no attribution leaves the direct paths as they would be without it |
| FirstParentLog.ParseFirstParentLog | src/task-diff-base.ts:416-435 | one pass over the lines: headers open commits, other lines add paths to the open one |
| FirstParentLog.ParseOfLog | src/task-diff-base.ts:384-435 | reading a printed log gives every commit back in order, trimmed and without blank paths |
| FirstParentLog.ParseInvertsLog | src/task-diff-base.ts:384-435 | for unpadded SHAs and paths, reading inverts printing |
| SessionDiscovery.MarkedGrows | src/import/machine-oneshot.ts:78-91 | appending never removes a marker from a file's head |
| SessionDiscovery.MarkedIff | src/import/machine-oneshot.ts:67-91 | a file is marked exactly by either form of the marker within its first 4096 characters |
| SessionDiscovery.HeadFinal | src/import/machine-oneshot.ts:67-78 | once the head is complete, appending changes no verdict |
| SessionDiscovery.ValidVerdictAgrees | src/agent/session-discovery.ts:62-73 | a verdict still valid for the size seen lies between the marking at that size and the marking now |
| SessionDiscovery.ReadsAgainIff | src/agent/session-discovery.ts:62-83 | a cached verdict is read again exactly if the file is smaller than the one-shot was, or has changed since a partial head showed no marker |
| SessionDiscovery.FailedReadRetriedIff | src/agent/session-discovery.ts:62-83 | a lookup that can read recognises a one-shot marked by the size seen exactly when its cached verdict does not come from a failed read, or the head was partial then and the file has changed |
| SessionDiscovery.FailedReadSticks | src/agent/session-discovery.ts:62-83 | one failed read of a complete head is believed over any growth |
| SessionDiscovery.OneshotVerdicts.IsOneshotSession | src/agent/session-discovery.ts:75-83 | true only for a one-shot; false only for what was none at its stat, or by a verdict from a read that failed, in this call or when it was cached; such a cached verdict is corrected exactly when the head was partial and the file changed, if no read fails; the cache is the source's, with at most 1000 verdicts |
| SessionDiscovery.FindLatestSessionFile | src/agent/session-discovery.ts:110-157 | none only if every candidate is a one-shot; otherwise a candidate that was none at its stat, up to verdicts from failed reads, with only one-shots newer than it or as new and listed before it |
| SessionDiscovery.CollectCandidates | src/agent/session-discovery.ts:126-143 | every candidate is what a stat during the search said of a listed, recent session file; a listed file that was there and recent from the start is left out only if an access to it failed meanwhile |
| SessionDiscovery.ListingTells | src/agent/session-discovery.ts:126-143 | a candidate is of a listed `.jsonl` file, its session named by the rest of the name, and not older than asked for |
| SessionDiscovery.ListingHas | src/agent/session-discovery.ts:126-143 | every listed `.jsonl` file there and not too old from the start is a candidate unless an access to it failed |
| SessionDiscovery.SortNewestStable | src/agent/session-discovery.ts:145-148 | candidates are visited newest first, and in the order of the listing where they are as new |
| SessionDiscovery.ReplaysWholeLines | src/agent/session-discovery.ts:299-311 | a replay is the last lines of the file, whole, and at most 256 KiB |
| SessionDiscovery.ReplaySkipsNoLine | src/agent/session-discovery.ts:299-311 | no line that starts in the window is skipped |
| McpClient.Bridge.OnData | src/agent/pi-turn-config.ts:479-495 | handles the lines a chunk completes, in order, up to one that throws, and keeps the rest |
| McpClient.OneLineSettles | src/agent/pi-turn-config.ts:479-495 | a line that is a reply to a pending request takes it off the table and the timers and settles it once, with the result or the error's message; any other line settles nothing |
| McpClient.ReplySettles | src/agent/pi-turn-config.ts:479-495 | in any state, after a chunk, the first reply in it to a pending request has settled it with what it says, unless a line before throws |
| McpClient.HandledUpTo | src/agent/pi-turn-config.ts:479-495 | handled of a chunk are its lines up to the first that throws, or all |
| McpClient.Bridge.Send | src/agent/pi-turn-config.ts:498-511 | a fresh id is pending with its timer armed |
| McpClient.Bridge.OnTimeout | src/agent/pi-turn-config.ts:501-504 | the request leaves the table and is settled as timed out |
| McpClient.TimeoutSettles | src/agent/pi-turn-config.ts:501-504 | a timer takes just its own request off, and settles it as timed out |
| McpClient.Bridge.OnExit | src/agent/pi-turn-config.ts:474-478 | every pending request is settled, in order, and every timer cleared |
| McpClient.StepKeepsInv | src/agent/pi-turn-config.ts:465-511 | every event keeps each issued id exactly once pending or settled, timers armed for the pending ones, and the text received split into lines handled and buffer |
| McpClient.SettledAtMostOnce | src/agent/pi-turn-config.ts:465-511 | in no run is a request settled twice |
| McpClient.WaitingXorSettled | src/agent/pi-turn-config.ts:465-511 | in every run a request sent is either pending or settled |
| McpClient.ExitSettlesAll | src/agent/pi-turn-config.ts:474-478 | after the server exits every request sent is settled |
| McpClient.ExitSettlesEach | src/agent/pi-turn-config.ts:474-478 | an exit settles the pending requests in the order they were sent, each with the exit's code |
| McpClient.RepliesAnswer | src/agent/pi-turn-config.ts:486-493 | a request settled by a line was settled by a received reply with its own id and outcome |
| McpClient.CutsIrrelevantIff | src/agent/pi-turn-config.ts:479-495 | every way of cutting a text in two does what the whole text does, exactly when no line of it throws before another |
| McpClient.ChunkingIrrelevant | src/agent/pi-turn-config.ts:479-495 | chunks that follow one another leave the client in the state their concatenation does, if the buffer holds no whole line and no line throws before another |
| McpClient.HandlesAllReceived | src/agent/pi-turn-config.ts:465-511 | in every run, with requests, timeouts and exits between the chunks, the lines handled are all that the text received has ended and the buffer is the rest, if no line throws before another |
| McpClient.HandledByTextIff | src/agent/pi-turn-config.ts:465-511 | all runs that receive the same text handle the same lines exactly when none of its lines throws before another |
| WatchTurns.WatchTurnTracker.Refresh | src/agent/watch-turns.ts:28-47 | shown turns stay in sequence order without repeats; every turn stored before the refresh is shown, was before the recent five at first, or came late, while turns land between the reads |
| WatchTurns.RecentIs | src/agent/watch-turns.ts:34-37 | the recent turns are the last five |
| WatchTurns.FirstLinesAre | src/agent/watch-turns.ts:34-37 | a first look prints the header, the recent turns, and the notice exactly if there is none |
| WatchTurns.InOrderNeverLate | src/agent/watch-turns.ts:39-42 | at a look, turns that land in sequence order are never late |
| WatchTurns.InOrderAllShown | src/agent/watch-turns.ts:28-47 | over a whole run of looks, if turns are only appended and numbered from one, each that the first look did not see is shown |
| WatchTurns.NothingLostIff | src/agent/watch-turns.ts:34-44 | over every run no turn after the first look is lost exactly when every turn lands above everything seen |
| WatchTurns.LateIff | src/agent/watch-turns.ts:39-45 | a turn is lost exactly when it lands below one already seen |
| WatchTurns.ShownIff | src/agent/watch-turns.ts:34-44 | over every run a turn is shown exactly when the first look showed it or it landed above everything seen |
| WatchTurns.ReservedTurnLost | src/storage/file-storage.ts:2708-2726 | a turn filled in below one already seen is shown at no later look |
| CommitTrailer.FixpointIff | src/constants.ts:22-33 | signing twice is signing once exactly when signing is off or the message is not blank |
| CommitTrailer.SignsFinalBlock | src/constants.ts:22-33 | the final paragraph of a signed message is all trailer lines, with lazy's own among them |
| CommitTrailer.KeepsFinalBlock | src/constants.ts:16-33 | trailers that ended the message stay first in the final block, followed by lazy's own if it was not there, and no other paragraph changes; any other last paragraph stays a paragraph |
| CommitTrailer.LeftAlone | src/constants.ts:22-33 | a message is left alone when signing is off, and but for trailing white space when it is signed |
| CommitTrailer.TrailerLineOf | src/constants.ts:14 | a trailer line is a key of letters, digits and hyphens, a colon, a space and a value on the same line |
| CommitTrailer.ParagraphsSplit | src/constants.ts:26-27 | a paragraph goes up to the first blank stretch between two newlines, taken as long as it is |
| CommitTrailer.ExtendsMessage | src/constants.ts:24-32 | the right-trimmed message is a prefix of the result |
| CommitTrailer.ParagraphsAppend | src/constants.ts:26-27 | appending to text that ends visibly changes no earlier paragraph break |
| RateLimit.RateLimiter.Allow | playground/src/rate-limit.ts:11-19 | admits a request exactly while its second, if not interrupted, has had at most `perSecond` requests, this one included |
| RateLimit.SecondAdmitsIff | playground/src/rate-limit.ts:4-20 | for every clock, a second admits exactly the smaller of its requests and `perSecond` unless it is interrupted and has more than `perSecond` requests |
| RateLimit.SecondAdmits | playground/src/rate-limit.ts:4-20 | it does for every clock that does not step back |
| RateLimit.AnySecondAdmits | playground/src/rate-limit.ts:4-20 | any 1000 ms admit at most twice `perSecond` |
| RateLimit.TwiceIsReached | playground/src/rate-limit.ts:4-20 | that bound is reached for every `perSecond` |
| RateLimit.ClockBackAdmitsMore | playground/src/rate-limit.ts:11-19 | every interrupted second with more than `perSecond` requests admits more than `perSecond` |
| RateLimit.ReopenedSecond | playground/src/rate-limit.ts:11-19 | with one request a second, requests at 0, 1000 and 0 ms let second 0 admit two |

## Left out

- Git, containers, process start, network and real file handles: their results are parameters, events or a map of files.
- JSON parsing: lines are parsed events. In `McpClient` it is a function parameter.
- UTF-8: text arrives as characters, so a character cut in two by a chunk is not modelled.
- `localeCompare`: any rank on strings that tells the session ids apart. Session ids are distinct and not empty, as file names are.
- SHA-256: a content id stands for the bytes it was computed from.
- Failures of system calls in the install code, which throw and are reported; a crash between any two steps is modelled, and leaves its temp file.
- BinarySafety.MountedFilesNeverChange: of timely runs; that every step has to be timely is what `BinarySafety.StepSafeIff` shows. How the list of mounted files is obtained is not modelled: any list may be used.
- BinaryOperations.AgentBinDir.InstallAndPoint: one process, run from start to end; what happens between its steps is stated about the transition system.
- A regular file at `lazy-agent-current` resolves to itself; a container started on that path is not modelled, only on an install.
- BinaryIdentity.VerifyFile: the size is taken once and the file does not change during the scan, and the first read returns the four header bytes.
- SessionDiscovery.FindLatestSessionFile: files only appear and grow; a path reused by another file is not modelled. The listing is taken at once, and an access fails or not by its time and path. That a verdict from a failed read is used only while it is still valid is stated of each lookup, not again of the search.
- WatchTurns.WatchTurnTracker.Refresh: one session per task, and a turn line is the turn it shows, without its wording.
- McpClient.Bridge.OnData: a handler that throws is left, and the client goes on with the next chunk; what the host does with the exception is not modelled.
- McpClient.Bridge.Send: the text written to the server is not modelled.
- HubDiff.ResolveTaskDirectDiff: the walk, the tags and the uncommitted paths are given; the pathspec built from the plan is not modelled.
- BuilderTranscript.JoinBuilderTranscript: `conversationForReading` is the identity, and the fields copied from the newest segment are one field.
- Run badges, `continuationFor` and `continuedAs`: picking the first match of a sorted list.
- The constructors and projections of task targets, and `src/task-state-machine.ts`: tables that are read off row by row.
- Failure classification, credentials, model precedence, prompts, CLI, HTML, storage backends, doctor checks, packaging: decision lists and presentation.
- `findLatestPiSessionFile` and `watchEntryBelongsToTurn`: the same scan without a cache, and one comparison.
- Wording of errors, log lines and labels: only which outcome occurs.
