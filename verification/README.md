# dibs: a verified model

dibs mounts a thin file system over a project directory and keeps concurrent sessions from
overwriting each other. Every read leaves a *receipt* (the digest of what the session saw), every
write open claims the file for one handle, and a write open is turned away when the file has
another owner or no longer carries the digest of the session's receipt.

This project models that protocol in Dafny and proves what it guarantees over whole runs, with any
number of sessions, handles and paths. Run `dafny verify dfyconfig.toml` to check it.

## How the model is laid out

| file | what it holds |
|---|---|
| `Types.dfy` | shared vocabulary |
| `BackingStore.dfy` | the backing directory: name → file → bytes, so a descriptor survives rename and unlink |
| `HandleTables.dfy`, `CasTables.dfy`, `InodeTables.dfy` | the three tables, as classes whose methods update maps in place, each tied to a function on values |
| `Protocol.dfy` | each handler as one atomic step on (CAS table, handle table, store); `History` is a run of such steps |
| `DibsFs.dfy` | the handlers as they run, statement by statement, each proved to perform its step |
| `Effects.dfy` | what every step does to everything observable, one observable at a time: reply, names, bytes, handles, entries |
| `Ownership.dfy`, `Gates.dfy` | who owns a path, for how long, and what each handler checks |
| `Receipts.dfy` | what sessions and handles saw as a function of the run; admission, retries, a session's own bursts |
| `Updates.dfy`, `Race.dfy` | no lost update; one winner per version |
| `Refinement.dfy` | a simpler machine that keeps a map from path to owner instead of the entry table, and the proof that callers cannot tell the two apart |
| `Sweeps.dfy` | eviction, atomic and in two phases |
| `Lookups.dfy` | the inode table against the backing store over runs of handlers and lookups |
| `Digests.dfy`, `Directory.dfy`, `Background.dfy` | hashing, directory paging, the two background loops |
| `Scenario.dfy` | the two-agent example of the project's own README, and where its promise stops, as runs of the model |

Inputs that the outside world decides are arguments: the caller's session id, whether a system call
succeeds (`os`), how many bytes `pwrite` stored (`n`), and the clock (`now`). The digest is any
function on contents; theorems that need it to tell contents apart ask so only for the contents the
file has, and sessions and handles saw of it, along the run (`Separates(h.digest, Versions(h, p))`), and
`FileDigestSeparates` reduces that to the two hash functions. An `External` step stands for edits that bypass the mount.

## What the code does and does not promise

The model follows the code. Where its documentation says more, the exact condition is proved:

- A rejected open leaves the file alone exactly when it did not ask to truncate a non-empty file
  (`RefusedOpenBytes`): `open(2)` runs before the check. README.md:151 says a failed write was not
  applied; `SecondWriterIsRejected` is a run where the winner's version is lost that way.
- Ownership does not stop other handles on the same path from writing (`WriteGate`,
  `OwnedPathIsOpenToEveryHandle`, and `OwnerIsNotAlone` as a run from a mount); it stops other
  *claims*. "No lost update" therefore asks, from any moment at which the file is at rest, that a
  handle writes only when it owns the file or nobody does, that an open truncates only when nobody
  owns the file and a write-only opener is not out of date, that resizes come through a handle on the
  file, and that the owner is not closed with edits it has not committed (`Gentle`, `Disciplined`).
  Claims by open, write or resize, through opened, created or flushed handles, are all covered.
- `create` and truncation without a handle are not checked (`CreateGate`, `SetSizeGate`); a
  read-write open compares a digest with itself (`ReadWriteOpenGate`).
- Renaming an owned file, and truncating through a dead or foreign handle, are the two calls that
  leave ownership with no live handle of that path (`OwnersWfStep`).
- Renaming a file nobody writes onto one that is being written drops the writer's ownership exactly
  when the source has an entry in the table (`SlimStep`).
- An evicted receipt turns a stale write into a blind one, exactly when the refusal rested on a
  receipt older than the cutoff (`SweepLoosens`).
- The removal phase of a sweep takes a path away from its owner exactly when the path was collected
  and somebody acquired it since and has not given it up (`TwoPhaseLosesExactly`); from then on any
  handle's acquire is decided by receipts alone (`AcquireBetweenPhasesIsLost`).
- Truncating an unowned file through a handle id that was not handed out yet gives the file to the
  handle yet to be opened, which is then admitted unchecked (`TruncatingThroughUnissuedHandle`). The
  theorems on admission and retries carry this case in their exact conditions (`GivenAway`), and in
  runs whose truncations use handed-out ids it never arises (`OwnerIsOld`).
- A session that empties a file without writing conflicts with itself (`EmptyingLocksOneselfOut`).
- An inode number leads to its own file until a rename replaces a name callers know, or an open
  recreates the missing file of a known path; those calls are told exactly (`TrackStep`,
  `ReplacedInodeMisleads`).

## Model

The results come first. The rows marked *link* at the end are not results of their own: they tie the
handlers and table methods, as they run, to the functions on values that the results speak about, or
spell out what one step does.

| member | source | states |
|---|---|---|
| `Updates.NoLostUpdate` | src/fs/mod.rs:311-715 | in every interleaving of claims, edits, reads and closes on a path, from any moment it is at rest, every commit ends a burst: the burst was claimed at the version the previous commit left, that version is what its handle, or else its session, last saw (if either saw the file at all), nobody else owned the file or committed in between, and what it commits is that version with exactly its own writes and resizes laid over it |
| `Updates.CommitsReplay` | src/fs/mod.rs:311-715 | over the whole run the committed version is the content at rest with the committed bursts' edits laid over it in commit order |
| `Updates.EveryEditLands` | src/fs/mod.rs:311-715 | no edit is lost, repeated or reordered: the edits let through are the committed ones in commit order followed by the owner's pending ones, and the file is the content at rest with all of them laid over it |
| `Updates.ContentIsCommittedPlusPending` | src/fs/mod.rs:311-715 | at every moment of such a run the file is its last committed version with the owner's edits since its claim laid over it |
| `Race.OneWinner` | src/state/hash_table.rs:92-138 | when all sessions and handles that saw the file saw c0 and none looks again, and the file at rest never shows c0 again after a change, no two sessions ever both commit a change |
| `Race.LosersAreRejected` | src/fs/mod.rs:487-516 | once a change is committed every other session's write-only open of the file, truncating or not, is rejected exactly when it has a receipt or somebody is writing |
| `Refinement.RefinesBareOwners` | src/state/hash_table.rs:60-253 | over every run without such a rename the file system is, at every moment, in the state of the machine with a bare owner map, answers as it does, and counts as being written exactly the paths that machine has owners for |
| `Refinement.SlimStep` | src/state/hash_table.rs:60-253 | from every state each call gets the same answer from the entry table as from the machine with a bare owner map, and leaves both in the same state exactly when it is not a rename that happens, of an unowned source with an entry, onto an owned destination |
| `Refinement.AlikeStep` | src/state/hash_table.rs:60-253 | two tables with the same owners and receipts answer every call alike and stay alike, except exactly when an unowned source with an entry in only one of them is renamed onto an owned destination |
| `Receipts.ReceiptsAreHistory` | src/state/hash_table.rs:48-200 | in every reachable state each receipt is the digest and time of the session's latest sight of the file, carried along renames, dropped by unlink and sweeps |
| `Receipts.HandleSightsAreHistory` | src/fs/handles.rs:12-24 | in every reachable state the digest kept in a handle is that of what the handle last saw: at its open or create, or at its last written flush |
| `Receipts.AdmittedIffCurrent` | src/state/hash_table.rs:109-138 | in every run a write-only open is admitted exactly when nobody owns the file and the session never saw it or last saw its present digest, or when the path was given away to the handle this open gets |
| `Sweeps.TwoPhaseIsAtomic` | src/state/hash_table.rs:236-252 | collecting, any run of events that use no collected entry and no receipt older than the cutoff, then removing ends where an atomic sweep before them leads, with the same replies |
| `Sweeps.TwoPhaseLosesExactly` | src/state/hash_table.rs:236-252 | whatever runs between collecting and removing, the removal changes who owns a path exactly when the path was collected and an event in between acquired it and nothing ended that burst since |
| `Ownership.OwnersWfStep` | src/state/hash_table.rs:77-189 | a step keeps "every owner is a live handle opened on that path" exactly when it is not the rename of an owned source nor a truncation through a dead or foreign handle |
| `Ownership.OwnersWfAlways` | src/fs/mod.rs:495-503 | so it holds in every reachable state of runs without those calls |
| `Ownership.ExclusiveBurst` | src/state/hash_table.rs:92-152 | from acquire to such an event, in every run from every state, the owner stays and every other handle's acquire is refused naming it |
| `Ownership.BurstStep` | src/fs/mod.rs:685-706 | from any state, ownership survives a step exactly when it is not the owner's written flush, its release, an unlink, or a rename that moves the path away or puts another owner or none in its place |
| `Ownership.ReleasedForGood` | src/fs/mod.rs:702-715 | a released handle is never live again and never owns a path again |
| `Ownership.WritersBounded` | src/state/hash_table.rs:208-216 | active writers never exceed open handles, and no handle owns two paths |
| `Ownership.IdleAdmits` | src/state/hash_table.rs:77-152 | with no handle open nothing is owned, and a write-only open is admitted exactly when the receipt is absent or current |
| `Receipts.RetryKeepsFailing` | src/state/hash_table.rs:120-131 | after a stale rejection every later write-only open is rejected, exactly unless the path was given away to it, until the session is shown the file anew, its receipt is evicted, the file is unlinked or renamed, or its digest is back |
| `Receipts.OwnBurstNoConflict` | src/fs/mod.rs:673-687 | after its written flush a session's next write-only open is admitted exactly when nobody owns the file and the digest is the one it flushed, or when the path was given away to it |
| `Receipts.OwnHandleNoConflict` | src/fs/mod.rs:617-687 | a further write through the flushed handle, with nobody owning the file, is refused exactly when the content's digest is no longer the flushed one, a missing file counting as the empty digest |
| `Receipts.MissingFileRefuses` | src/fs/mod.rs:617-637 | a write through a handle whose path names no file any more, with nobody owning the path, is refused exactly when the handle or its session has seen the file |
| `Receipts.RemovalGuard` | src/fs/mod.rs:996-1111 | unlink is rejected exactly when the session is out of date on the file, rename exactly when it is on the source or the existing destination |
| `Receipts.OthersDoNotTouchReceipts` | src/state/hash_table.rs:155-163 | another session's open, create, write, flush, release or truncate leaves a receipt alone |
| `Receipts.TruncatingThroughUnissuedHandle` | src/fs/mod.rs:333-345 | truncating an unowned file through the next handle id gives the file away: any session's next write-only open of it is admitted whatever it last saw |
| `Receipts.OwnerIsOld` | src/fs/handles.rs:44-57 | in runs whose truncations use handed-out handle ids every owner has been handed out, so no path is given away |
| `Updates.BurstBuildsOnSeen` | src/fs/mod.rs:311-715 | the same of a given burst, from its claim to its commit |
| `Updates.ClaimFindsCommitted` | src/state/hash_table.rs:92-140 | a claim, by an open, a write or a resize, finds the file at its last committed version, and that is what the claiming handle counts on if it has seen the file |
| `Updates.Kept` | src/fs/mod.rs:614-687 | throughout, the path names the same file, its owner is a live handle on it, and every handle with unflushed writes on it is the owner |
| `Updates.OnlyTheOwnerEdits` | src/fs/mod.rs:617-646 | under the discipline the file changes only by an edit of the handle that owns it then, and nobody else owned it before |
| `Updates.HolderKeeps` | src/fs/mod.rs:685-706 | an owner stays the owner until its written flush or its release |
| `Updates.HeldMeans` | src/fs/mod.rs:673-687 | while a handle holds the path nothing is committed, and what is pending is what that handle did since its claim |
| `Updates.OwnerClaimed` | src/state/hash_table.rs:92-140 | every owner claimed the path when nobody owned it and has held it ever since |
| `Updates.ClaimIsCurrent` | src/state/hash_table.rs:109-138 | at a claim the digest the handle keeps, or without one the receipt if there is one, is that of the content |
| `Updates.CreatedIsAtRest` | src/fs/mod.rs:918-942 | a file created through the mount is at rest from the moment it exists, so the update theorems cover it |
| `Updates.FreeToWriteIsAdmitted` | src/state/hash_table.rs:92-140 | a write open that finds the path unowned and, if write-only, its session not out of date is admitted |
| `Effects.ReplyStep` | src/fs/mod.rs:311-1137 | the answer of every call in every state, in plain terms: what is compared with what (a missing file compares as the empty digest), in which order, and how many bytes a short write reports |
| `Effects.BytesStep` | src/fs/mod.rs:311-1137 | the bytes of every file, named or not, after every step: the one written or resized becomes what the call says, byte by byte (the first n of a short write, a hole of zeros), a truncating open empties, a new file is empty, every other file is untouched |
| `Effects.NamesStep` | src/fs/mod.rs:464-1137 | the file every name leads to after every step |
| `Effects.RenameMovesBytes` | src/fs/mod.rs:1115-1137 | after a rename the new name has the old one's bytes, the old name has none, and every other name keeps its own |
| `Effects.UnlinkKeepsBytes` | src/fs/mod.rs:1014-1029 | an unlink takes away one name's bytes; every other name and every open descriptor, also of the removed file, keeps its own |
| `Effects.HandlesStep` | src/fs/handles.rs:44-69 | every handle in full after every step: path, file, kept digest, mode, session and written mark, and the next id |
| `Effects.EntryStep` | src/state/hash_table.rs:60-253 | every entry, owner and access time, after every step |
| `Race.ChangeIsWinners` | src/fs/mod.rs:673-687 | every committed change is by the session of the first committed change |
| `Race.ClaimIsWinners` | src/state/hash_table.rs:109-138 | once a change is committed, only its author's handles ever claim the file again, by open, write or resize |
| `Sweeps.FinishCommutes` | src/state/hash_table.rs:246-252 | the removal phase commutes, state and reply, with every event that uses no collected entry and no receipt older than the cutoff |
| `Sweeps.TwoPhaseDropsNoOwner` | src/state/hash_table.rs:236-252 | so ownership of a path survives the removal when no event in between uses its entry |
| `Sweeps.AcquireBetweenPhasesIsLost` | src/state/hash_table.rs:236-249 | for such a path every other handle is refused naming the owner before the removal, and after it is admitted exactly when its digest or receipt is current, whoever asks |
| `Sweeps.SweepKeeps` | src/state/hash_table.rs:234-253 | a sweep keeps precisely the owned or recent entries and the recent receipts, unchanged, and never changes an owner |
| `Sweeps.SweepTwice` | src/state/hash_table.rs:234-253 | two sweeps equal one at the later cutoff |
| `Sweeps.SweepLoosens` | src/state/hash_table.rs:77-253 | what was admitted before a sweep is admitted after it, owners still refuse, and a stale refusal turns into admission exactly when it rested on a receipt older than the cutoff |
| `Sweeps.RecentUseSurvives` | src/state/hash_table.rs:136-140 | an entry acquired or created at a time outlives every sweep up to that time, even once released |
| `Gates.OwnedPathIsOpenToEveryHandle` | src/fs/mod.rs:614-646 | while one handle owns a path, any other handle's write on it goes through unchecked and its bytes land |
| `Scenario.OwnerIsNotAlone` | src/fs/mod.rs:614-646 | a mounted run that reaches it: one session creates a file, another claims it, and the first one's write lands unchecked in what the second goes on to commit |
| `Gates.RefusedOpenBytes` | src/fs/mod.rs:464-503 | a refused open changes no byte exactly when it did not truncate a non-empty file |
| `Gates.ReadWriteOpenGate` | src/fs/mod.rs:490-513 | a read-write open is refused by another owner only, and records the pre-open content as seen |
| `Protocol.TablesOkAlways` | src/fs/handles.rs:44-69 | in every reachable state ids are below the counter, and names and descriptors have files |
| `Protocol.NoHardLinksAlways` | src/fs/mod.rs:1202-1212 | over a backing directory without hard links no run gives a file a second name |
| `CasTables.RenameCount` | src/state/hash_table.rs:190-199 | a rename loses exactly as many receipts as sessions held for both names |
| `CasTables.MovedReceipt` | src/state/hash_table.rs:186-200 | where every receipt is after a rename |
| `CasTables.RenameToSelf` | src/state/hash_table.rs:186-200 | renaming a path to itself changes nothing |
| `InodeTables.PathsAgreeAlways` | src/fs/inodes.rs:30-71 | in every run the inode of a mapped path maps back to it, so no two paths share an inode |
| `InodeTables.BijectiveStep` | src/fs/inodes.rs:66-71 | the two maps stay inverses under every operation except exactly a rename of a mapped path over another mapped path |
| `InodeTables.BijectiveAlways` | src/fs/inodes.rs:30-71 | and throughout every run without such a rename |
| `InodeTables.InsertExact` | src/fs/inodes.rs:30-43 | in any table an insert registers the pair, forgets the path the inode led to and the inode the path led to, and leaves every other lookup alone |
| `InodeTables.RemoveExact` | src/fs/inodes.rs:53-57 | every lookup after a removal by inode |
| `InodeTables.RemovePathExact` | src/fs/inodes.rs:59-63 | every lookup after a removal by path |
| `InodeTables.MoveExact` | src/fs/inodes.rs:66-71 | every lookup after a rename |
| `Lookups.TrackStep` | src/fs/mod.rs:918-1137 | the inode table stays a bijection in which every inode reaches its own file exactly when the call is not a rename onto a mapped name or an open recreating a mapped path's missing file under another number |
| `Lookups.TrackAlways` | src/fs/mod.rs:199-1137 | and throughout every run of handlers and lookups without such a call |
| `Lookups.ReplacedInodeMisleads` | src/fs/mod.rs:1120-1137 | after a rename over a file callers know, that file's inode leads to the file that replaced it |
| `Lookups.CreatedIsFound` | src/fs/mod.rs:928-936 | a created file's inode number leads to its path and its path to the number |
| `Lookups.UnlinkedIsForgotten` | src/fs/mod.rs:1024-1029 | an unlinked path is forgotten with its inode, and from a bijective table no inode leads to it |
| `Lookups.RenamedIsFollowed` | src/fs/mod.rs:1132-1137 | a renamed file's inode leads to the new path and the new path to it |
| `Lookups.OthersLeaveInodes` | src/fs/mod.rs:311-1137 | no other handler, and no refused one, changes the inode table |
| `Lookups.RegisteredIsFound` | src/fs/mod.rs:95-106 | a lookup registers the file under its own number, both ways |
| `Lookups.MountIsOnTrack` | src/fs/mod.rs:182-193 | a mount starts on track |
| `Directory.PagingComplete` | src/fs/mod.rs:830-875 | following the last cookie yields the whole list in order, each entry once, exactly when each call's buffer has room for the entry its cookie points at; otherwise it yields a prefix |
| `Directory.ListingStays` | src/fs/mod.rs:808-868 | each call lists anew and registers the children in between, and with the same children every call works on the same list, unless a child has the inode the directory or its parent is reached by |
| `Directory.ListedChildLeadsBack` | src/fs/mod.rs:833-867 | once a registered directory has been listed, `..` in each of its children leads back to it, unless a child's inode led to the directory |
| `Directory.ListedAreRegistered` | src/fs/mod.rs:860-867 | after a listing the path of every shown child leads to its inode and back, in a table where no other inode leads to that path |
| `Directory.StaleInodeHidesChild` | src/fs/inodes.rs:30-43 | otherwise a later child that carries such an inode makes the table forget the earlier child's path |
| `Directory.ShownExactly` | src/fs/mod.rs:850-868 | the listing shows every readable child but the conflict store, and no other |
| `Directory.ShownConcat` | src/fs/mod.rs:846-868 | children are shown in order, each as often as it is there: lists of children are shown one after the other |
| `Directory.ShownOne` | src/fs/mod.rs:846-868 | a single child is shown by inode, kind and name, unless unreadable or the conflict store |
| `Directory.ListingStarts` | src/fs/mod.rs:829-847 | `.` carries the directory's inode, `..` the parent's (the root's at the top or when it is unknown), `.dibs` follows in the root alone, then the children |
| `Directory.FitsExactly` | src/fs/mod.rs:870-875 | a page is as much as fits: its entries' sizes stay within the buffer, and one more entry would not |
| `Directory.ParentOfJoin` | src/fs/mod.rs:836-861 | the parent of a child's path is the directory's |
| `Digests.HashFile` | src/fs/cas.rs:12-23 | however reads are split the result is the digest of the whole content, and only a missing file or a failed read gives none |
| `Digests.HashSha256` | src/fs/cas.rs:25-36 | with any hasher whose updates add up, however reads are split, the finalized state is the hash of the whole content |
| `Digests.HashXxh3` | src/fs/cas.rs:38-50 | the chunked loop collects exactly the content |
| `Digests.FileDigestSeparates` | src/fs/cas.rs:12-50 | no collision within each size class gives no collision across both |
| `Digests.DigestLength` | src/fs/cas.rs:12-50 | 32 bytes up to 10485760 bytes of content, 16 above it, never empty |
| `Digests.BigEndianRoundTrip` | src/fs/cas.rs:48-49 | the 128-bit result is recovered from its bytes |
| `Digests.HexRoundTrip` | src/fs/cas.rs:53-55 | reading the hex form back gives the digest |
| `Digests.HexDigitsOf` | src/fs/cas.rs:53-55 | each byte prints as two lower-case hexadecimal digits, the high one first |
| `Digests.HexInjective` | src/fs/cas.rs:53-55 | different digests print differently |
| `Background.EvictionThread` | src/state/eviction.rs:21-37 | over every sequence of readings of a flag that stays up once raised, the nested loops do precisely what the schedule says, act by act |
| `Background.ScheduleMeans` | src/state/eviction.rs:21-37 | the schedule makes one sweep per 62 readings that find the flag down, each sweep after sixty one-second sleeps since the last, each sleep and sweep directly after a reading that found the flag down, and stops only at a reading that found it up |
| `Background.ScriptMeans` | src/state/eviction.rs:21-37 | the schedule after any number of readings: sweeps done, sleeps since the last one, and both rules kept |
| `Background.AtMostOneMore` | src/state/eviction.rs:26-35 | once the flag is up, wherever that falls, at most one more sleep or sweep happens |
| `Background.WaitForShutdown` | src/main.rs:75-159 | ends at the first poll that is a second signal (forced) or finds the session finished or a probe succeeding (external), with no poll before it doing so; a probe is made at the first signal and at every fifth timeout after it, and they are counted; forced only after a busy first probe |
| `Scenario.SecondWriterIsRejected` | README.md:15-22 | of two agents that read a file the first to write wins and the second's open is rejected; the winner's version stands unless the rejected open truncated |
| `Scenario.TwoAgentsAreDisciplined` | README.md:15-22 | the non-truncating run meets the hypotheses of the update theorems |
| `Scenario.EmptyingLocksOneselfOut` | src/fs/mod.rs:673-687 | a session that empties a file it is current on and writes nothing has its next open rejected, exactly when the digest changed |
| `Ownership.OwnerStep` | src/state/hash_table.rs:77-200 | *link:* who owns each path after every step |
| `Ownership.HandleStep` | src/fs/handles.rs:44-69 | *link:* handles leave by release only, arrive under a fresh id only, and keep path, file, mode and session |
| `Receipts.ReceiptStep` | src/fs/mod.rs:478-513 | *link:* what every step does to each receipt |
| `Receipts.AdmissionOfOpen` | src/state/hash_table.rs:92-140 | *link:* the reply of every write-only open of an existing file, with ownership refusal before staleness |
| `Gates.WriteGate` | src/fs/mod.rs:617-637 | *link:* a write is refused exactly when nobody owns the path and the handle's digest, or else the receipt, differs from the content's, or from the empty digest when the file is missing |
| `Gates.CreateGate` | src/fs/mod.rs:918-942 | *link:* create goes through whoever owns the path, takes no ownership, and empties an existing file, under all its names, only when asked to truncate |
| `Gates.SetSizeGate` | src/fs/mod.rs:333-358 | *link:* truncation is refused exactly when through a handle and another owns the path, or nobody does and the live handle's comparison fails; without a handle it always applies, byte by byte |
| `BackingStore.PatchReadsBack` | src/fs/mod.rs:644-646 | *link:* a stored write reads back byte by byte, the rest is untouched, a hole is zero |
| `Filesystem.DibsFs.ResolvePath` | src/fs/mod.rs:83-92 | *link:* the name itself under the root or an unknown parent, the parent's path, a slash and the name otherwise |
| `Filesystem.DibsFs.ResolvedIsChild` | src/fs/mod.rs:83-92 | *link:* the resolved path is a child, by that name, of the directory the parent's inode leads to |
| `Filesystem.SyntheticInodes` | src/fs/inodes.rs:5-12 | *link:* the reserved inode numbers, as numbers |
| `Filesystem.DibsFs.constructor` | src/fs/mod.rs:55-193 | *link:* a mount starts with empty CAS and handle tables and the root inode |
| `Filesystem.DibsFs.Open` | src/fs/mod.rs:429-521 | *link:* performs the open step on the inode's path, a virtual open for the two `.dibs` files, EACCES or ENOENT otherwise |
| `Filesystem.DibsFs.Create` | src/fs/mod.rs:891-945 | *link:* performs the create step on the protocol state and on the inode table |
| `Filesystem.DibsFs.Write` | src/fs/mod.rs:584-653 | *link:* performs the write step |
| `Filesystem.DibsFs.Flush` | src/fs/mod.rs:655-690 | *link:* performs the flush step |
| `Filesystem.DibsFs.Release` | src/fs/mod.rs:692-715 | *link:* performs the release step |
| `Filesystem.DibsFs.Unlink` | src/fs/mod.rs:985-1029 | *link:* performs the unlink step on the protocol state and on the inode table |
| `Filesystem.DibsFs.Rename` | src/fs/mod.rs:1059-1137 | *link:* performs the rename step on the protocol state and on the inode table |
| `Filesystem.DibsFs.SetSize` | src/fs/mod.rs:311-358 | *link:* performs the truncation step |
| `Filesystem.DibsFs.EvictOlderThan` | src/state/eviction.rs:36 | *link:* performs the sweep step |
| `CasTables.CasTable.RecordReader` | src/state/hash_table.rs:48-56 | *link:* files the receipt and nothing else |
| `CasTables.CasTable.EnsureEntry` | src/state/hash_table.rs:60-69 | *link:* adds an ownerless entry when there is none |
| `CasTables.CasTable.CheckAndAcquireWrite` | src/state/hash_table.rs:77-141 | *link:* the verdict of the check, and the table after it |
| `CasTables.CasTable.ReleaseWrite` | src/state/hash_table.rs:144-152 | *link:* clears the owner when it is this handle |
| `CasTables.CasTable.ReaderHash` | src/state/hash_table.rs:166-170 | *link:* the digest of the receipt, if there is one |
| `CasTables.CasTable.HasActiveWriter` | src/state/hash_table.rs:173-177 | *link:* true exactly for owned paths |
| `CasTables.CasTable.Remove` | src/state/hash_table.rs:180-183 | *link:* drops the entry and every session's receipt of the path |
| `CasTables.CasTable.Rename` | src/state/hash_table.rs:186-200 | *link:* the loop over collected receipts moves them all |
| `CasTables.CasTable.ActiveWriters` | src/state/hash_table.rs:208-216 | *link:* counts the owned paths |
| `CasTables.CasTable.EvictOlderThan` | src/state/hash_table.rs:234-253 | *link:* the collect-and-remove loops perform a sweep |
| `HandleTables.HandleTable.Alloc` | src/fs/handles.rs:44-57 | *link:* hands out the counter's value, advances it and files an unwritten handle |
| `HandleTables.HandleTable.Remove` | src/fs/handles.rs:67-69 | *link:* returns and drops the handle |
| `HandleTables.HandleTable.Count` | src/fs/handles.rs:72-74 | *link:* the number of live handles |
| `HandleTables.HandleTable.MarkWritten` | src/fs/mod.rs:639-642 | *link:* sets the written mark of a live handle |
| `HandleTables.HandleTable.MarkFlushed` | src/fs/mod.rs:679-682 | *link:* records the flushed digest and clears the written mark |
| `InodeTables.InodeTable.Insert` | src/fs/inodes.rs:30-43 | *link:* the table after an insert |
| `InodeTables.InodeTable.RemoveByIno` | src/fs/inodes.rs:53-57 | *link:* the table after a removal by inode |
| `InodeTables.InodeTable.RemoveByPath` | src/fs/inodes.rs:59-63 | *link:* the table after a removal by path |
| `InodeTables.InodeTable.Rename` | src/fs/inodes.rs:66-71 | *link:* the table after a rename |
| `Directory.ListEntries` | src/fs/mod.rs:808-868 | *link:* builds the listing with the parent's inode looked up by path, registers every listed child's inode, and gives no listing for an unknown inode or an unreadable directory |
| `Directory.ReadDir` | src/fs/mod.rs:870-875 | *link:* one reply is the entries from the offset on, in order, each with the cookie of the next; they fit the buffer, and the next one would not |

## Left out

- System calls, errno mapping and `stat` conversion (src/fs/passthrough.rs): only their effect on the store, with success as an input.
- SHA-256 and XXH3 themselves: functions with fixed output sizes, the former with an incremental form that obeys the usual law; sessions, session ids and PIDs are inputs.
- Interleaving inside a handler: handlers are atomic steps; only the eviction sweep is split in two phases. DashMap and Mutex internals are not modelled.
- Files that exist but cannot be hashed: hashing succeeds exactly on existing files; a file vanishing or changing size during one hash is not modelled.
- A failing `fstat` after a successful open in `create`, and `O_EXCL`: not modelled.
- Width of counters: handle ids, inode numbers and poll ticks are unbounded; the wrap at 2^64 or 2^32 is not modelled.
- Clock arithmetic: a sweep's age that overflows the duration type (then taken as zero) is not modelled.
- Hard links already in the backing directory are modelled, but the update theorems ask that the path at rest is its file's only name.
- Reuse of inode numbers by the backing file system, and directories as files of the store: every new file has a fresh number, and an inode whose path names no file is left unconstrained in `Lookups`.
- Directory renames, which leave child paths behind in the tables: only file renames.
- `lookup`, `getattr`, `read`, `opendir`, mkdir, rmdir, symlink, statfs, access and the other branches of `setattr`: they pass through to the backing directory and neither consult nor change owners or receipts.
- The virtual `.dibs` contents, conflict-file saving, logging, command line, mounting and signal-pipe setup.
- Background.WaitForShutdown: poll errors count as timeouts, as in the code; the messages it prints are not modelled.
