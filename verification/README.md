# Verified models of the resource adapter and the command line

A Dafny 4.11 project that models the state-changing cores of the repository and proves what their code
and comments promise. `dafny verify dfyconfig.toml` checks all of it.

## What is modelled

**The resource adapter** (`packages/resource-adapter/linux`). One supervisor keeps published files with
revisions; each operation works on a private overlay of the files it pinned and captures the revisions it
relied on.

- `Tree.dfy`, `StoreModel.dfy`, `Paths.dfy`: paths as lists of names, rows, staged overlays, captured
  revisions, leases and receipts, and the store's calls (`store.py`). `Paths` ties the source's text
  operations on paths to the lists.
- `Publication.dfy`, `Runs.dfy`, `Drafts.dfy`: optimistic publication. A running operation may publish while
  what it captured is still current. The hard part is that this alone keeps the published files a tree,
  although the operation's own view is laid over an older base; the proofs cover every step and every run.
- `Connection.dfy`, `Filesystem.dfy`, `Moves.dfy`, `FileBytes.dfy`: the mounted file system of one pinned
  operation as a class over a connection with commit and rollback. `rename` walks a list that grows under
  it, moves a whole subtree row by row and re-keys the open handles.
- `FileRemoval.dfy`, `RemovalService.dfy`, `RemovalRuns.dfy`, `RemovalProgress.dfy`, `RemovalAdmission.dfy`,
  `RemovalInput.dfy`: the fenced removal protocol: its messages as functions on the tables, the imperative code
  proved equal to them, when each message goes through and what each refusal says, and safety over every
  interleaving with native operations and restarts.
- `Git.dfy`: the check a Git publication passes, over refs and trees as maps.

**The command line** (`packages/cli/src`).

- `EditDistance.dfy`, `Suggest.dfy`: the three-row distance, the recurrence, edit scripts, nearest command.
- `Wrap.dfy`: greedy word wrap.
- `Connect.dfy`: `connect apply` and `connect rotate` as one step machine that may stop after any statement.
- `Naming.dfy`, `SchemaText.dfy`, `PrintedText.dfy`, `Reflection.dfy`, `FieldKinds.dfy`, `PrismaBlocks.dfy`,
  `PrismaRoundTrip.dfy`, `PrismaHeaders.dfy`: schema import and printing, with a reader that takes the printed source back.
- `Config.dfy`, `ConfigReads.dfy`: the two credential files and their migration. `Telemetry.dfy`: the bounded
  event queue. `WhiteSpace.dfy`: what a regular expression takes for white space.

Calls whose outcome the code does not decide are parameters: clocks, digests, random ids, the network's
answers, FUSE's caller and claim rules (the function `access`), and the order a directory listing comes in.

## What the proofs found

- `create` opens the file it has just staged inside its own `with` block, and `open` commits on that same
  connection. A `create` refused with ESTALE can therefore leave an empty file staged. It does so exactly when
  the published revision of the path or of its parent has moved past the operation's snapshot
  (`FilesystemModel.CreateStrandsExactlyWhenBehind`; `FilesystemModel.CreateCanStrand` is an instance).
- What an operation sees is a tree as long as it is pinned or current; one that is neither can see a file in a
  directory a peer has deleted (`Runs.RunKeepsTrees`, `Runs.StaleViewNeedNotBeATree`). Such an operation never
  publishes.
- A repeated prepare, commit or abort returns the recorded receipt only while no other id holds the
  fence (`RemovalRuns.RepeatReturnsReceipt`); otherwise it is told the adapter is busy
  (`RemovalRuns.RepeatCanBeRefused`).
- An `apply` stopped because the database does not stream yet, or because a readiness check failed, advises
  running `connect apply` again; the roles it created make that run a refusal, and only `rotate` goes on
  (`Connect.AdvisedRerunIsRefused`). A comment beside that stop says a re-run rotates the passwords; the code
  does not.
- Two columns of a table, one the other's camel-case spelling such as `user_id` and `userId`, get one field
  key, so the printed object literal repeats it (`Naming.WhenKeysCollide`, `Naming.CollisionExists`).
- A Prisma block that never closes loses its text's last character, unless it is empty
  (`PrismaBlocks.WhenABodyIsWhole`, `PrismaRoundTrip.UnclosedLosesItsLast`; `PrismaRoundTrip.UnclosedExample` is
  an instance).
- Folding a legacy key pair into an active profile that holds only a management credential drops that
  credential (`Config.WhatAFoldDrops`, `Config.FoldCanDrop`).
- Text that ends in white space leaves a blank on the last wrapped line exactly when it has room for one
  (`Wrap.PaddedText`).

## Model

| member | source | states |
|---|---|---|
| Paths.PathNameIsValidPath | packages/resource-adapter/linux/store.py:28-33 | the texts `path_name` accepts are exactly those of the model's valid paths |
| Paths.StartsWithIsBelow | packages/resource-adapter/linux/filesystem.py:177 | the text prefix test asks whether one path lies below another |
| Paths.RekeyAsText | packages/resource-adapter/linux/filesystem.py:190 | cutting and gluing text puts the rest of a path under the new name |
| Paths.DirnameIsParent | packages/resource-adapter/linux/store.py:295 | the text `dirname` is the parent in the tree |
| Tree.AncestorIsDirectory | packages/resource-adapter/linux/store.py:294-297 | in a tree every proper prefix of a present path is a directory |
| Tree.OverlayMovesToLaterBase | packages/resource-adapter/linux/store.py:279-290 | an overlay that is a tree over the base it captured is a tree over every later base on which its captured revisions are current |
| Publication.PublishedIsOverlay | packages/resource-adapter/linux/store.py:388-395 | writing only the net changes leaves exactly the overlay published |
| Publication.CurrentOverlayOnLiveBase | packages/resource-adapter/linux/store.py:279-290 | a current operation's overlay, laid over the base it pinned, is a covered tree over the live base |
| Publication.PublishedIsTree | packages/resource-adapter/linux/store.py:364-405 | an overlay that is a tree over the live base publishes a tree |
| Publication.PublicationEvolves | packages/resource-adapter/linux/store.py:392-398 | a publication lowers no revision, and a path whose revision stays keeps its row and, if a directory, its members |
| Publication.RevisionsCountChanges | packages/resource-adapter/linux/store.py:388-398 | a changed entry counts once and a directory whose members come, go or change kind once more; what is written inside its files does not count for it |
| Publication.OthersSurvivePublication | packages/resource-adapter/linux/store.py:364-405 | after a publication every other operation that is pinned, or still current then, sees a covered tree |
| Publication.PublishKeepsInv | packages/resource-adapter/linux/store.py:364-405 | publishing keeps the invariant of the whole store |
| Publication.NextKeepsInv | packages/resource-adapter/linux/store.py:244-405 | every step, admission, pin, private call, close, publication, lease change or restart, keeps the invariant |
| Runs.FreshIsInv | packages/resource-adapter/linux/store.py:95-99 | a new store meets the invariant |
| Runs.RunKeepsTrees | packages/resource-adapter/linux/store.py:244-405 | in every state of every run the published files are a tree, and so is what a running operation sees as long as it is pinned or current |
| Runs.StaleViewNeedNotBeATree | packages/resource-adapter/linux/store.py:152-158 | the condition is needed: an unpinned operation can see a file in a directory a peer deleted |
| Runs.RunEvolves | packages/resource-adapter/linux/store.py:364-405 | over any run the published base only moves on |
| Runs.StaleNeverPublishes | packages/resource-adapter/linux/store.py:279-290 | an operation whose evidence went stale never publishes, however the run goes on |
| Runs.ClosedStaysClosed | packages/resource-adapter/linux/store.py:309-341 | a closed operation keeps its status and receipt for good |
| Runs.EndIsAttested | packages/resource-adapter/linux/store.py:309-341 | the step that ends an operation gives the receipt: its status, the removal it answers for, and exactly the captured paths at the captured revisions; a publication names exactly the paths it changed, each observed below its new revision; a close or a restart moves no file |
| Runs.ReceiptAttestsWhatWasCaptured | packages/resource-adapter/linux/store.py:309-341 | over any run, whatever a running operation captured is in the receipt it ends with, at that very revision, and the receipt on record is the one its ending gave |
| Runs.AfterARestart | packages/resource-adapter/linux/store.py:91-94 | a restart ends every running operation and pin and leaves no lease active; files and fence stand |
| Runs.PublicationIsThePrivateView | packages/resource-adapter/linux/store.py:364-405 | a publication makes the operation's own view public wherever it looked or wrote, over rows nobody changed since, and leaves unstaged paths alone |
| Runs.FirstPublisherWins | packages/resource-adapter/linux/store.py:286-289 | a publication that changes a path another operation looked at or staged leaves that operation stale |
| Runs.WhoStaysCurrent | packages/resource-adapter/linux/store.py:279-290 | a publication leaves another current operation current exactly when no entry it looked at, and no membership of a directory it looked at, has changed |
| Runs.Isolation | packages/resource-adapter/linux/store.py:149-158 | no step of anyone else changes what a pinned operation sees, and a private call changes no published row and no other view |
| Drafts.StageKeepsDraft | packages/resource-adapter/linux/store.py:292-307 | staging captures the path and, when its kind changes, its parent, at the revisions the operation sees; the captures still cover the overlay, and no other operation's rows move |
| Drafts.StageKeepsSound | packages/resource-adapter/linux/store.py:292-307 | a row that is not refused, deleting nothing with children, leaves the private view a tree that differs at that path alone |
| FilesystemModel.Filesystem.Mkdir | packages/resource-adapter/linux/filesystem.py:220-226 | succeeds exactly when admitted, free, validly named and under a directory; then only that path changes; a refusal changes nothing and says why |
| FilesystemModel.Filesystem.Unlink | packages/resource-adapter/linux/filesystem.py:203-218 | succeeds exactly for an admitted file; then exactly that path is gone |
| FilesystemModel.Filesystem.Rmdir | packages/resource-adapter/linux/filesystem.py:247-259 | succeeds exactly for an admitted empty directory; then exactly that path is gone |
| FilesystemModel.Filesystem.Chmod | packages/resource-adapter/linux/filesystem.py:240-245 | changes the mode bits of one entry and nothing else |
| FilesystemModel.Filesystem.Write | packages/resource-adapter/linux/filesystem.py:139-154 | a write or append through a handle leaves exactly the written bytes in that file, refused past 16 MiB or at a negative offset |
| FilesystemModel.Filesystem.Truncate | packages/resource-adapter/linux/filesystem.py:156-165 | leaves exactly the cut or zero-padded bytes |
| FilesystemModel.Filesystem.Read | packages/resource-adapter/linux/filesystem.py:128-137 | returns the bytes of the handle's entry at the offset, as many as asked or as are left; captures the path; changes no view |
| FilesystemModel.Filesystem.Release | packages/resource-adapter/linux/filesystem.py:276-280 | forgets the handle and nothing else |
| FilesystemModel.Filesystem.OpenExisting | packages/resource-adapter/linux/filesystem.py:106-117 | allocates the next, never used handle number, truncating on request |
| FilesystemModel.Filesystem.Open | packages/resource-adapter/linux/filesystem.py:94-104 | captures the path and opens exactly what the flags and the view allow |
| FilesystemModel.Filesystem.Create | packages/resource-adapter/linux/filesystem.py:119-126 | stages an empty file and opens it; states exactly when it succeeds and when a refusal strands the file |
| FilesystemModel.Filesystem.ListChildren | packages/resource-adapter/linux/store.py:177-190 | the list holds each child in the private view once and nothing else |
| FilesystemModel.Filesystem.WalkSubtree | packages/resource-adapter/linux/filesystem.py:187-193 | the growing worklist ends, and holds the old path and each of its descendants exactly once |
| FilesystemModel.Filesystem.Rename | packages/resource-adapter/linux/filesystem.py:167-201 | success moves exactly the subtree, re-keys exactly the open handles, was let in for both names, every moved path and every new name, and saw everything it moves, but for the last path it came to, as it is published; a refusal rolls back tree and handles; where no claim is missing and no peer has moved one of those paths, the code's own order of questions decides success and the error |
| FilesystemModel.WhatRenameFinds | packages/resource-adapter/linux/filesystem.py:172-186 | what each error says is so, and a rename goes ahead exactly for an entry that is there, to another valid name outside itself, under a directory, over nothing but an entry of its own sort with nothing in it |
| FilesystemModel.RenameKeepsOpenFiles | packages/resource-adapter/linux/filesystem.py:199-201 | after a rename every open file but the replaced target reads the same entry through its handle |
| FilesystemModel.CreateStrandsExactlyWhenBehind | packages/resource-adapter/linux/filesystem.py:119-126 | a refused create leaves an empty file staged exactly when the published revision of path or parent moved past the snapshot |
| FilesystemModel.CreateCanStrand | packages/resource-adapter/linux/filesystem.py:94-126 | a store within the invariant where creating a file is refused and leaves it staged |
| Moves.WalkIsComplete | packages/resource-adapter/linux/filesystem.py:187-193 | a worklist walked to its end holds exactly the subtree |
| Moves.Disjoint | packages/resource-adapter/linux/filesystem.py:177-193 | source and destination paths of a permitted rename are disjoint |
| Moves.MovedIsTree | packages/resource-adapter/linux/filesystem.py:167-201 | the moved view is a tree: the old subtree under its new name, nothing under the old, all else as it was |
| Moves.AllMoved | packages/resource-adapter/linux/filesystem.py:195-198 | when every path of the list has moved the view is the moved view |
| Moves.RenameBack | packages/resource-adapter/linux/filesystem.py:167-201 | renaming a subtree to a free name and back restores the view |
| FileBytes.WrittenAt | packages/resource-adapter/linux/filesystem.py:139-154 | length becomes the larger of old length and end of write, gaps read as zero, other bytes stand |
| FileBytes.EditsRefineSimpleFile | packages/resource-adapter/linux/filesystem.py:139-165 | any sequence of writes, appends and truncations refines the simple file of a length and bytes, within the limit |
| FileBytes.SliceAt | packages/resource-adapter/linux/filesystem.py:137 | a read gives the bytes at the offset, as many as asked or as are left |
| FileBytes.ReadBack | packages/resource-adapter/linux/filesystem.py:128-154 | reading back the written range gives the data |
| RemovalInput.CheckedEntries | packages/resource-adapter/linux/file_removal.py:38-47 | the loop computes the canonical entries or refuses |
| RemovalInput.WhenEntriesAreAccepted | packages/resource-adapter/linux/file_removal.py:38-46 | accepted exactly when there are 1 to 128 entries, each properly stated, no two for one file |
| RemovalInput.UnitsAreUtf16 | packages/resource-adapter/linux/file_removal.py:47 | one unit for a character of the basic plane, a surrogate pair above it |
| RemovalInput.BytesCompareAsUnits | packages/resource-adapter/linux/file_removal.py:47 | big-endian bytes compare as the units do |
| RemovalInput.BeforeIsLexicographic | packages/resource-adapter/linux/file_removal.py:47 | the first difference decides, and a beginning comes before the whole |
| RemovalInput.KeyIsInjective | packages/resource-adapter/linux/file_removal.py:47 | the UTF-16 sort key tells distinct paths apart |
| RemovalInput.OneSortedList | packages/resource-adapter/linux/file_removal.py:47 | the entries of a set have one sorted order |
| RemovalInput.CanonicalIsChecked | packages/resource-adapter/linux/file_removal.py:38-47 | what comes out is 1 to 128 distinct acceptable entries in key order, and the same that went in |
| RemovalInput.PermutedEntriesAgree | packages/resource-adapter/linux/file_removal.py:38-53 | permuting a request's entries gives the same canonical entries |
| RemovalService.Execute | packages/resource-adapter/linux/file_removal.py:56-126 | the phases, loops and rollbacks compute exactly the protocol function, reply and tables |
| RemovalService.PrepareCall | packages/resource-adapter/linux/file_removal.py:113-118 | prepare's branch of it |
| RemovalService.CommitCall | packages/resource-adapter/linux/file_removal.py:119-126 | commit's branch of it |
| RemovalService.AbortCall | packages/resource-adapter/linux/file_removal.py:79-84 | abort's branch of it |
| RemovalAdmission.WhenPrepared | packages/resource-adapter/linux/file_removal.py:74-118 | admitted exactly when timely, new, unfenced and alone, with nothing staged, one fresh grant for each entry, and every file published as its entry says |
| RemovalAdmission.WhenCommitted | packages/resource-adapter/linux/file_removal.py:67-126 | the commit of a running removal applies exactly when it comes from its caller, in time, over captures still current, and meets the same checks again |
| RemovalAdmission.MatchesIsDescribed | packages/resource-adapter/linux/file_removal.py:105-112 | the entry check: directories above it, and a file of that revision, mode, size and digest |
| RemovalAdmission.InstallsExactlyFresh | packages/resource-adapter/linux/store.py:219-236 | grants for distinct resources install exactly when each is fresh by itself; each becomes its resource's lease, and no other lease moves |
| RemovalAdmission.GrantsAreLeased | packages/resource-adapter/linux/file_removal.py:101-103 | what an admitted prepare and an applied commit leave of the leases |
| RemovalAdmission.RefusalIsSo | packages/resource-adapter/linux/file_removal.py:66-126 | a refused message changes nothing, and the reason it is given is so |
| RemovalAdmission.OthersAreTurnedAway | packages/resource-adapter/linux/file_removal.py:67-69 | another caller, or another request under the id, is refused as a conflict, and nobody else is |
| RemovalAdmission.AbortSettles | packages/resource-adapter/linux/file_removal.py:79-84 | an abort under no other fence answers with the outcome on record, or records a rejection that names no file |
| RemovalAdmission.WhenReleased | packages/resource-adapter/linux/file_removal.py:75-78 | answered exactly for a settled id under no other fence; it lifts its own fence and does nothing else |
| RemovalAdmission.InspectReports | packages/resource-adapter/linux/file_removal.py:71-73 | an inspection reports status, receipt and fence and changes nothing |
| RemovalRuns.ExecKeepsInv | packages/resource-adapter/linux/file_removal.py:56-126 | every message keeps the store's invariant, a running removal fenced and the fenced id on record |
| RemovalRuns.RepeatReturnsReceipt | packages/resource-adapter/linux/file_removal.py:74-85 | a later prepare, commit or abort returns the recorded receipt and changes nothing exactly while no other id holds the fence |
| RemovalRuns.RepeatCanBeRefused | packages/resource-adapter/linux/file_removal.py:74 | from a new store, abort and release one id and abort another: a repeat of the first abort is refused |
| RemovalRuns.FenceHoldsOthersOff | packages/resource-adapter/linux/file_removal.py:74 | while an id holds the fence no other id's message changes anything |
| RemovalRuns.AbortOvertakes | packages/resource-adapter/linux/file_removal.py:79-85 | an abort that overtakes its prepare makes that prepare admit nothing |
| RemovalRuns.AbortThenReleaseClears | packages/resource-adapter/linux/file_removal.py:75-84 | abort then release clears the fence from any state where no other id holds it |
| RemovalRuns.CommitRemovesExactly | packages/resource-adapter/linux/file_removal.py:104-126 | a committed removal removed exactly the named files, each as its entry describes it |
| RemovalRuns.OnlyCommitMovesFiles | packages/resource-adapter/linux/file_removal.py:66-126 | no other message moves a published file |
| RemovalRuns.ExecKeepsExclusive | packages/resource-adapter/linux/file_removal.py:94-95 | while a removal runs nothing else does |
| RemovalRuns.FreshMayStart | packages/resource-adapter/linux/store.py:95-99 | a new store may start a history |
| RemovalRuns.HistoryKeepsInv | packages/resource-adapter/linux/file_removal.py:66-126 | both hold in every state of every history of messages, native steps and restarts |
| RemovalRuns.OutcomeIsFinal | packages/resource-adapter/linux/file_removal.py:66-126 | over every history a recorded status and receipt never change |
| RemovalRuns.PreparedFilesStand | packages/resource-adapter/linux/file_removal.py:113-126 | while a removal is prepared only its own commit can move a published file |
| RemovalProgress.InstalledHold | packages/resource-adapter/linux/store.py:219-232 | installing grants for distinct resources leaves every one of them held |
| RemovalProgress.PreparedIsCurrent | packages/resource-adapter/linux/file_removal.py:113-118 | an admitted prepare sets the fence and captures exactly the entries at their published revisions |
| RemovalProgress.CurrentCommitPublishes | packages/resource-adapter/linux/file_removal.py:119-126 | only its deadline, grants or entries can stop the commit of a running removal whose captures are current |
| Git.ValidatePublication | packages/resource-adapter/linux/git.py:72-119 | accepts exactly what the rules accept and returns exactly the differing refs and HEAD |
| Git.WhenAccepted | packages/resource-adapter/linux/git.py:72-119 | accepted exactly when the publisher holds every ref that moves under its own claim, branches end in commits without submodules, and nobody else holds HEAD or a path that differs |
| Git.WhenGitIsTouched | packages/resource-adapter/linux/git.py:73-75 | any staged path inside `.git` brings the check on, and only that does |
| Git.CheckRefs | packages/resource-adapter/linux/git.py:88-105 | each changed ref is authorised for the publisher and its differing paths are gathered |
| Git.CheckFree | packages/resource-adapter/linux/git.py:114-118 | every affected path is free or leased to the publisher under its own claim |
| Git.UpdatesPatchToCandidate | packages/resource-adapter/linux/git.py:82-85 | patching the previous refs and HEAD with the updates gives the candidate |
| Git.LeasedFileStays | packages/resource-adapter/linux/git.py:114-118 | one accepted publication leaves a peer's leased path alone in every ref and in HEAD |
| Git.LeasedFileKeepsItsBlob | packages/resource-adapter/linux/git.py:72-119 | over any accepted publications of others a leased path keeps its blob |
| EditDistance.FillRow | packages/cli/src/commands.ts:424-438 | one turn fills row i of the table from rows i-1 and i-2 |
| EditDistance.Distance | packages/cli/src/commands.ts:414-442 | the three rotating rows compute the recurrence's last cell |
| EditDistance.ScriptReaches | packages/cli/src/commands.ts:414-442 | a script of keeps, substitutions, insertions, deletions and swaps of that cost exists |
| EditDistance.NoScriptIsCheaper | packages/cli/src/commands.ts:414-442 | no script costs less |
| EditDistance.DistanceIsMinimum | packages/cli/src/commands.ts:414-442 | the distance is the least cost over all scripts |
| EditDistance.DistanceProperties | packages/cli/src/commands.ts:414-442 | it is symmetric, zero exactly for equal words, and between the length difference and the longer length |
| Suggest.SuggestCommand | packages/cli/src/commands.ts:451-463 | a redirect answers for its key, else a nearest candidate within two, else nothing, exactly when none is that near |
| Suggest.NearestIsUnique | packages/cli/src/commands.ts:455-461 | at most one candidate is the earliest nearest |
| Suggest.ExactIsNearest | packages/cli/src/commands.ts:455-461 | a word that is a candidate is its own nearest |
| Suggest.OneTypoIsNear | packages/cli/src/commands.ts:451-463 | one dropped, added or changed letter or one swap is within one |
| Wrap.WrapToWidth | packages/cli/src/connectPlan.ts:34-47 | the loop computes the greedy lines |
| Wrap.WrapParagraph | packages/cli/src/renderError.ts:74-88 | the same lines, indented, for the clamped measure |
| Wrap.GreedyIsOptimal | packages/cli/src/connectPlan.ts:34-47 | the words in order, every line fitting or one word, and no such grouping has fewer lines |
| Wrap.WordsSpellTheText | packages/cli/src/connectPlan.ts:37 | the words, with the runs of white space between them, spell the text, and hold no white space themselves |
| Wrap.ParagraphFits | packages/cli/src/renderError.ts:74-88 | every greedy line stands behind the indent and leaves the last column free, unless it is one word |
| Wrap.MeasureFits | packages/cli/src/renderError.ts:75 | the measure is between 32 and 76 and otherwise leaves just the last column free |
| Wrap.TrimmedWords | packages/cli/src/connectPlan.ts:37 | text without outer white space splits into non-empty words |
| Wrap.PaddedText | packages/cli/src/connectPlan.ts:37-45 | trimmed text followed by white space wraps like the text, with a blank on its last line exactly when that has room for one |
| Wrap.IndentedText | packages/cli/src/connectPlan.ts:37-45 | white space in front changes no line |
| Connect.Plant.ExecutePlan | packages/cli/src/connectApply.ts:145-176 | wherever it stops, each role is untouched or has this run's password, an existing one only under rotate; at the end both roles are done |
| Connect.Plant.ExecuteStep | packages/cli/src/connectApply.ts:151-174 | a write-ahead-log step goes on past every failure that does not end the process; a role step recovers from one wanted plaintext password by its retry; any other step finishes exactly when each statement succeeds; roles move only as the plan may |
| Connect.ApplyPlanIsPlan | packages/transaction/src/server/postgresSetup/plan.ts:93-300 | every role statement of the plan carries this run's password and mode, both roles are ensured, keys are distinct |
| Connect.Plant.Register | packages/cli/src/connectApply.ts:797-934 | from the plan's end to the exit code; registers only passwords both roles have |
| Connect.Plant.RunConnect | packages/cli/src/connectApply.ts:192-934 | each end with its exit code and notice, exactly when a run is refused, declined or has nothing to do, and that it then changes nothing; what any run can have done; success means the registration matches; a rotate that moved a password and did not register says so |
| Connect.WhenARunProceeds | packages/cli/src/connectApply.ts:192-646 | for every state and environment: when a run goes past its checks, when it has nothing to do, when it is declined; it is refused otherwise |
| Connect.WhenEachGoesOn | packages/cli/src/connectPreflight.ts:192-227 | rotate goes on exactly where there is anything to re-key, apply exactly where there is nothing |
| Connect.NoRefusalLoop | packages/cli/src/connectApply.ts:584-646 | from every state one verb goes on, and its failure-free run ends with the registration equal to both passwords |
| Connect.AdvisedRerunIsRefused | packages/cli/src/connectApply.ts:797-808 | after an apply that created the roles without registering, apply is refused and rotate goes on |
| Connect.AppliesKeepCredentials | packages/cli/src/connectPreflight.ts:27-49 | no number of applies, cut anywhere, breaks a working credential pair or a matching plane |
| Connect.AppliesNeverRepair | packages/cli/src/connectApply.ts:584-646 | a broken registration is untouched by any number of applies |
| Connect.RotateStaysOpen | packages/cli/src/connectPreflight.ts:156-227 | once rotate is let through it is let through after any runs |
| Connect.RegistrationComesFromARun | packages/cli/src/connectApply.ts:892-908 | a registration on record is the first one or the passwords one run put on both roles |
| Naming.FieldNameInvertsOnLower | packages/cli/src/schemaSource.ts:94-97 | the chosen field derives its column back exactly when the column has no upper-case letter |
| Naming.WordsGetCamelCase | packages/cli/src/schemaSource.ts:94-97 | a column of lower-case words gets the camel-case field, which derives it back |
| Naming.WhatDoesNotInvertIsKept | packages/cli/src/schemaSource.ts:94-97 | a column with an upper-case letter or an underscore before a digit keeps its own name |
| Naming.WhenKeysCollide | packages/cli/src/schemaSource.ts:94-97 | two columns share a key exactly when one is the other's camel-case spelling |
| Naming.CollisionExists | packages/cli/src/schemaSource.ts:94-97 | `a_b` and `aB` collide |
| SchemaText.QuotedReadsBack | packages/cli/src/schemaIr.ts:84-86 | unquoting gives the string and stops at its end exactly for strings without a line break |
| SchemaText.KeyReadsBack | packages/cli/src/schemaIr.ts:75-82 | a printed key reads back |
| SchemaText.FieldReadsBack | packages/cli/src/schemaIr.ts:90-122 | a printed field reads back to its kind, members, optionality and effective column |
| SchemaText.SchemaReadsBack | packages/cli/src/schemaIr.ts:132-162 | a printed schema reads back to every model, field and relation in order |
| SchemaText.EmitSchemaSource | packages/cli/src/schemaIr.ts:132-162 | the pushing loops print exactly those lines |
| PrintedText.WhenAKeyIsBare | packages/cli/src/schemaIr.ts:75-82 | a key is printed bare exactly when it is an identifier |
| PrintedText.WhenAColumnIsStated | packages/cli/src/schemaIr.ts:113-122 | a column is stated exactly when the engine would derive another |
| PrintedText.KindsArePrinted | packages/cli/src/schemaIr.ts:90-122 | a field prints as its kind's builder, an enum without members as a string, then its column, then `.optional()` |
| PrintedText.NotesAreShown | packages/cli/src/schemaIr.ts:147-150 | a field's line ends with its note, where it has one |
| PrintedText.WhenRelationIsImported | packages/cli/src/schemaIr.ts:132-141 | `relation` is imported exactly when some model has one |
| Reflection.AdoptReflection | packages/cli/src/schemaSource.ts:106-143 | the loops compute the adopted models and the skips |
| Reflection.EachTableOnce | packages/cli/src/schemaSource.ts:106-143 | every table is adopted or skipped exactly once, in order, with the right reason |
| Reflection.FieldsDeclareColumns | packages/cli/src/schemaSource.ts:115-129 | every column but the engine's own is declared, in order, for that column |
| Reflection.GroupRows | packages/cli/src/pull.ts:101-106 | the map holds each table's rows in order |
| Reflection.EachRowOnce | packages/cli/src/pull.ts:101-106 | every row lands in its own table's group, at its place, and in no other |
| Reflection.LowerColumnRows | packages/cli/src/pull.ts:100-127 | the import adopts or skips each table with rows, listed once |
| Reflection.EveryRowIsImported | packages/cli/src/pull.ts:100-127 | every row's table is exactly one entry, adopted or skipped, and in an adopted one every row but the engine's own columns is the field at its own place, for its own column |
| Reflection.EveryFieldIsARow | packages/cli/src/pull.ts:100-127 | every field of an adopted model is a row of its table, and every skip names a table with rows |
| Reflection.ImportReadsBack | packages/cli/src/pull.ts:100-127 | what an import prints reads back as what it adopted |
| Reflection.KeysAreDistinct | packages/cli/src/schemaSource.ts:94-97 | a table's keys are distinct exactly when no column stands beside its camel-case spelling |
| Reflection.LoweredReadsBack | packages/cli/src/prismaPull.ts:200-248 | a lowered Prisma field, printed and read back, is an enum exactly when its enum has members and it is no list, with those members, and stands for its column |
| FieldKinds.TextTypes | packages/cli/src/pull.ts:79-81 | these types, in any case, are text |
| FieldKinds.NumberTypes | packages/cli/src/pull.ts:82-84 | these are numbers |
| FieldKinds.BooleanType | packages/cli/src/pull.ts:85 | this is a boolean |
| FieldKinds.DateTypes | packages/cli/src/pull.ts:86 | dates and whatever begins with `time` are dates |
| FieldKinds.JsonTypes | packages/cli/src/pull.ts:87 | these are JSON |
| FieldKinds.OtherTypes | packages/cli/src/pull.ts:88-89 | any other type is an array stored as JSON, or text flagged for review |
| FieldKinds.WhatARowDeclares | packages/cli/src/pull.ts:114-122 | a row declares its own column, optional exactly when nullable, of its type's kind |
| FieldKinds.OwnColumns | packages/cli/src/schemaSource.ts:38-52 | an imported column is the engine's own exactly when called `id`, `organization_id` or `organizationId` |
| FieldKinds.WhichTablesAreAdopted | packages/cli/src/schemaSource.ts:106-143 | an import adopts exactly the tables with an `id` and a tenancy column, and says which of them a skipped one lacks |
| FieldKinds.WhenATableIsAdopted | packages/cli/src/schemaSource.ts:115-140 | the same for any reflection, and which of its columns are declared |
| FieldKinds.WhatAPrismaTypeBecomes | packages/cli/src/prismaPull.ts:32-42 | a scalar's kind, JSON for a list and for what is unknown, with a note on whatever is not carried over exactly |
| PrismaBlocks.StripComments | packages/cli/src/prismaPull.ts:53-71 | the two loops keep each line up to its first comment |
| PrismaBlocks.StripsAtTheFirstComment | packages/cli/src/prismaPull.ts:57-67 | a line is cut exactly at the first two slashes outside a string |
| PrismaBlocks.StripIsIdempotent | packages/cli/src/prismaPull.ts:53-71 | stripping keeps the line count, and twice is once |
| PrismaBlocks.ParseBlocks | packages/cli/src/prismaPull.ts:74-97 | the loops compute the blocks of the stripped text |
| PrismaBlocks.ParsedBlocksAreInPlace | packages/cli/src/prismaPull.ts:79-95 | spans are ordered, disjoint and advancing, each block is the text at its span, and no header starts outside them |
| PrismaHeaders.WhenAHeaderIsFound | packages/cli/src/prismaPull.ts:77 | a text begins a block exactly when it begins with a keyword, white space, a word, perhaps white space, and a brace |
| PrismaHeaders.WrittenIsFound | packages/cli/src/prismaPull.ts:77-92 | such a header is read as its keyword's kind and its name, with its brace where it stands |
| PrismaBlocks.ClosedBody | packages/cli/src/prismaPull.ts:81-87 | a closed body is brace-balanced and followed by its brace |
| PrismaBlocks.ClosesWhenBalanced | packages/cli/src/prismaPull.ts:81-86 | a block closes exactly when some closing brace balances it |
| PrismaBlocks.WhenABodyIsWhole | packages/cli/src/prismaPull.ts:87 | a body is what stands inside its block exactly when the block closes or nothing follows its brace; otherwise the last character is missing |
| PrismaRoundTrip.UnclosedLosesItsLast | packages/cli/src/prismaPull.ts:74-97 | a lone block that nothing closes parses to its text without the last character |
| PrismaRoundTrip.UnclosedExample | packages/cli/src/prismaPull.ts:74-97 | `model A {x` parses to an empty body |
| PrismaRoundTrip.ParseUndoesPrint | packages/cli/src/prismaPull.ts:74-97 | blocks with word names and balanced, comment-free bodies print and parse back to the same list |
| Config.Store.ReadConfig | packages/cli/src/config.ts:203-239 | reads all layouts, writes only when it may migrate and there is something to |
| Config.Store.WriteConfig | packages/cli/src/config.ts:242-267 | both files afterwards |
| Config.Store.SetKey | packages/cli/src/config.ts:274-279 | both files afterwards |
| Config.Store.SetProfileKeys | packages/cli/src/config.ts:286-301 | both files afterwards |
| Config.Store.SetMode | packages/cli/src/config.ts:304-308 | both files afterwards |
| Config.Store.SetActiveProject | packages/cli/src/config.ts:325-330 | both files afterwards |
| Config.Store.ResolveKey | packages/cli/src/config.ts:613-641 | the search loop finds the first live key of the policy's profiles |
| Config.ReadAfterWrite | packages/cli/src/config.ts:203-267 | read after write gives the config minus credential-less profiles, and nothing to migrate |
| Config.MigrationIsIdempotent | packages/cli/src/config.ts:232-238 | a second read agrees and writes nothing |
| Config.MigrationKeepsResolution | packages/cli/src/config.ts:613-641 | every key resolves alike before and after migration |
| Config.WhatAFoldDrops | packages/cli/src/config.ts:221-222 | a management credential is dropped exactly when a legacy pair is folded over a profile holding only it |
| Config.FoldCanDrop | packages/cli/src/config.ts:221-222 | an instance |
| Config.SetKeyResolves | packages/cli/src/config.ts:274-279 | a key set for a mode is what data lookups find, and no other slot changes |
| Config.DataUsesTheActiveProfile | packages/cli/src/config.ts:628-640 | data lookups use only the explicit key or the active profile's |
| Config.OrgReadFindsAnyKey | packages/cli/src/config.ts:629-640 | an organisation read finds a key exactly when some profile has a live one |
| ConfigReads.WhatIsRead | packages/cli/src/config.ts:203-239 | every slot of every profile as stored, the settings file's first, except that an active profile without a data key takes the top-level keys of older layouts, each in its own mode |
| ConfigReads.WhenAnythingIsRead | packages/cli/src/config.ts:203-229 | nothing is read exactly when neither file gives a mode or a credential; which mode and project are read otherwise |
| ConfigReads.WhenAReadMigrates | packages/cli/src/config.ts:231-238 | what is rewritten, when, and that no key is left at the top level of the settings file |
| ConfigReads.SecretsStandApart | packages/cli/src/config.ts:242-267 | the settings file holds no key, the secrets file only the profiles with a credential |
| ConfigReads.ProfileKeysReadBack | packages/cli/src/config.ts:286-301 | mode, project and the profile's keys read back, every other profile stands |
| ConfigReads.SettingsReadBack | packages/cli/src/config.ts:304-330 | a mode or a project set is read back and nothing else changes |
| ConfigReads.ResolvedIsStored | packages/cli/src/config.ts:613-641 | a key that resolves is the explicit one or a stored, unexpired one of the asked mode, of the active profile unless any will do |
| ConfigReads.OrgReadPrefers | packages/cli/src/config.ts:627-640 | an organisation read prefers the active profile, then the default one |
| Telemetry.Client.QueueEvent | packages/cli/src/telemetry.ts:124-152 | the file afterwards |
| Telemetry.Client.SetTelemetryEnabled | packages/cli/src/telemetry.ts:66-76 | the file afterwards |
| Telemetry.Client.ResetTelemetry | packages/cli/src/telemetry.ts:78-80 | the file afterwards |
| Telemetry.Client.FlushProductAnalytics | packages/cli/src/telemetry.ts:111-158 | at most one flush is in flight, of the first twenty |
| Telemetry.Client.FinishFlush | packages/cli/src/telemetry.ts:181-197 | only a settled answer rewrites the queue, without the batch |
| Telemetry.StepKeepsValid | packages/cli/src/telemetry.ts:111-197 | at most fifty events, in enqueue order, none while disabled, through every step |
| Telemetry.WhatLeaves | packages/cli/src/telemetry.ts:66-197 | an event leaves only by a settled batch, overflow, disable or reset, and only the new one enters |
| Telemetry.FinishTakesItsBatch | packages/cli/src/telemetry.ts:190-197 | a settled flush takes exactly its batch members still queued |
| Telemetry.WhenAnEventIsQueued | packages/cli/src/telemetry.ts:124-152 | queued, last, exactly when nothing blocks it, collection is enabled and the file can be written; the installation keeps its id |
| Telemetry.WhenAFlushStarts | packages/cli/src/telemetry.ts:111-158 | starts exactly when none is in flight, nothing blocks it, collection is enabled and something is queued under an id; takes the oldest, up to twenty |
| Telemetry.WhatAnAnswerDoes | packages/cli/src/telemetry.ts:183-197 | transient failures keep the batch queued, success or any other refusal takes it out |
| Telemetry.WhatAChoiceDoes | packages/cli/src/telemetry.ts:66-80 | enabling and disabling do just that, a disable empties the queue, a reset starts afresh |
| Telemetry.TheLastChoiceHolds | packages/cli/src/telemetry.ts:66-158 | over every run a choice holds until the next: while disabled nothing is queued or sent, while enabled every unblocked event is queued |
| Telemetry.IdentityStays | packages/cli/src/telemetry.ts:124-152 | over every run an installation keeps its id until a reset |
| Telemetry.NothingCollectedBeforeIsSent | packages/cli/src/telemetry.ts:66-76 | over every run nothing collected before a disable is in a batch that starts after it |
| Telemetry.SettledIsNotSentAgain | packages/cli/src/telemetry.ts:186-197 | over every run an event of a settled batch is in no later batch |

## Left out

- Drafts.StageKeepsDraft: modification times, and the sandbox masks and profiles `finish` clears, are not kept.
- Runs.Isolation: snapshots are part of the modelled tables, so a rollback would restore a dropped pin; in the source they are connections beside the database.
- FilesystemModel.Filesystem.Open: the caller's uid and the claim rules of `mutation` are the parameter `access`; the capture those rules sometimes make is modelled.
- FilesystemModel.Filesystem.ListChildren: children come in any order and without the directory cache; the source sorts them.
- FilesystemModel.Filesystem.Unlink: the kernel's placeholders for unlinked open files (`released_paths`) are not modelled.
- RemovalService.Execute: shape checks of the message, its serialisation and its SHA-256 digests are outside; a request is its checked entries, and a digest a parameter.
- RemovalAdmission.WhenCommitted: one call reads one clock, in one unit; the source reads it at each check, in milliseconds for the deadline and in seconds for the grants, and `late` stands for its last reading.
- RemovalProgress.InstalledHold: a lease has one expiry, not also a monotonic deadline.
- Runs.ClosedStaysClosed: `finish` does not look at the status; every caller reaches it with a running id, and the steps take that as their guard.
- Publication.NextKeepsInv: which claims a native publication needs is not modelled; steps allow every publication of a current operation, so the safety results hold for those the claims let through.
- RemovalInput.PermutedEntriesAgree: the rest of the request is carried along unchanged and not modelled.
- Git.ValidatePublication: running git, `fsck`, object types and submodule checks are one parameter; HEAD is not a ref's name; a tree is a map from path to blob, and the difference of two trees the paths where the maps differ.
- Git.LeasedFileKeepsItsBlob: assumes the next publication starts from the refs and trees the last one accepted.
- EditDistance.Distance: lower-casing is left to the caller, and a character is one code unit.
- Connect.Plant.RunConnect: host and pooler detection, table selection, ownership remedies and the readiness lists are environment answers; a snapshot request is not a state.
- SchemaText.EmitSchemaSource: models come in the order the locale-aware sort gives; lines are not joined.
- Reflection.LowerColumnRows: the locale-aware order of the tables is a parameter.
- Reflection.LoweredReadsBack: type names that JavaScript objects inherit are taken as unknown types; the regular expressions that split a field line are outside; relations too.
- Config.Store.ReadConfig: names that JavaScript objects inherit, JSON text, file permissions and two processes racing are outside; a file is its parsed fields.
- Telemetry.Client.QueueEvent: event schemas and environment switches are outside; ids are numbered in issue order, for random ids that never repeat.
- The pipeline of `packages/humans`, `packages/transaction` and `packages/ablo` beyond the setup plan is not modelled.
- `getattr`, `readdir`, `chown`, `readlink`, the shared read-only mount, evidence signatures and the event log are not modelled.
- `identity.py`, `commands.py`, `branchDev.ts`, `connectOwnership.ts`, `doctor.ts`, `drizzlePull.ts` and `localConnectorLease.ts` are left out: they would only add easy members, or rest on code that is not here.
