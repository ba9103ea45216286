# Relay agent: a verified model

The relay agent runs on a server, holds one outbound WebSocket connection to a
control plane and executes its requests. This project models, in Dafny, the parts
of it whose correctness rests on more than one function: state handed to a client
and taken back, replacements that must be undone, counters that several tasks
update, text printed here and read back there. `dafny verify dfyconfig.toml` checks
everything.

## What is modelled

**Paginated directory listing** (`Paths`, `DirWalk`, `DirTree`, `ListCursor`,
`ListDir`, `ListRuns`). `list_dir` walks a tree depth first; its whole state is a
stack of frames that goes to the client as a cursor and comes back with nothing kept.
The file system is an adversary: a function from a moment and a path to what opening
and listing that path shows, so the tree may change between any two reads. A walk is
described by the positions its frames stand at: what is still ahead of it, what it
has met and what it owes (`DirWalk.Segment`). Segments join, whatever happened in
between, which is why pages resume soundly. `DirTree` gives the plain recursive
listing the walk must agree with when the tree does not change. Page limits are
parameters of at least 1; the depth limit is the constant 128.

**Descriptors** (`Descriptors`). The walk down a path opens each directory relative
to its parent's descriptor without following links, while anyone may change the
tree; any open, mkdir, read or close may fail. What others make of a name is an
adversary's choice at every moment; where they leave it alone, a directory the process
made is there.

**File transfer** (`Transfer`). Chunked writes and chunked reads of one file.

**The shared Postgres** (`Docker`, `PostgresProtocol`, `PostgresCommands`). The Docker
daemon is a map from identities to containers with unique names. Every call may fail
before or after taking effect, except that `rename` is all or nothing; `run` may leave
a container behind. `PostgresProtocol` is the automaton of daemon calls and any
number of threads interleaving at them under the mutation lock, with containers
stopping or vanishing on their own. `PostgresCommands` is the code itself, run
moment by moment: for each moment an oracle says how a call made then goes and which
containers would answer `pg_isready`, and a clock gives the time. It records the calls
it makes, and each method is proved to walk the automaton, so what holds of every
interleaving holds of it. `halfDone` says a failed call other than `run` took effect, `undoFailed`
that a call made to undo a failure failed.

**Command line and WAL detector** (`Text`, `Shell`, `PgCommand`). The printed command
is read back by a lexer for sections 2.2.1 to 2.2.3 and 2.3 of the POSIX.1-2017 Shell
Command Language, and by the substring test for `archive_mode=on`. The lexer gives up
(`None`) on text a shell would expand or skip, so a successful reading also says that
nothing is expanded.

**Gateway session** (`ByteStrings`, `Session`, `TunnelInbound`, `TunnelOutbound`,
`PtyStream`, `Requests`). `Session` is the bookkeeping of claims, queues and byte
counts as a class. The others are state machines, one action for each stretch between
awaits (or for each thread operation), and their results hold after every sequence of
actions.

**Tenant databases** (`TenantNames`, `TenantState`, `TenantDb`). A tenant's Postgres is
created, replaced with its predecessor set aside, put back, removed, against the same
daemon, now with volumes and networks. The code takes no lock, so calls are
sequential.

Findings the proofs turned up, each stated by a member below:

- `_relative_parts` parses its own results to themselves exactly when the configured
  root and the real root are the same or neither contains the other
  (`Paths.ReparsesExactlyWhenCompatible`).
- An empty `path` makes a page path that starts with `/` and misses every directory
  below a data root other than `/` (`Paths.EmptyRawReopensOnlyAtTop`); every other
  spelling of a directory reopens correctly (`Paths.PagePathParts`).
- If closing a directory just left reports an error, the handler closes the same
  descriptor again and loses the one just opened; otherwise descriptors balance on
  every path (`Descriptors.FsCommands.OpenDir`, `Descriptors.LosesDescriptor`).
- The substring test for archiving errs only when the image tag or an extra argument
  holds the setting itself; no quoting, spacing or fixed text forges or hides it
  (`PgCommand.ArchivingExactly`). It does not see an extra argument that turns archiving
  off again (`PgCommand.DetectorMissesOverride`).
- A `close` that makes room on a full PTY queue drops an item whose bytes stay counted
  until the stream is released (`PtyStream.EvictedStaysCounted`,
  `PtyStream.EvictionHappens`).
- A predecessor left set aside keeps its tenant from being removed: `remove` looks only
  for the container under its own name, and the volumes are still mounted
  (`TenantState.LeftoverBlocksRemoval`, `TenantDb.TenantDbCommands.Remove`).
- The slug pattern's `$` also admits one final newline
  (`TenantNames.NewlineGetsThrough`).

## Model

| member | source | states |
|---|---|---|
| Text.LessExactly | agent/commands/fs.py:282-286 | names are ordered by the first character in which they differ, a prefix first |
| Text.ContainsAcross | agent/commands/postgres.py:298-300 | a substring without some character never straddles that character: it occurs in a joined text exactly when it occurs in one of the parts |
| Text.SplitAppend | agent/commands/fs.py:31-65 | splitting joined text at the separator gives the parts of both, which is what component-wise path reasoning rests on |
| Paths.CollapseAppend | agent/commands/fs.py:40-42 | normalising a path can be done in two halves, `..` of the second climbing out of what the first reached |
| Paths.CollapseRules | agent/commands/fs.py:40-42 | what normalising means, rule by rule: empty names and `.` say nothing, a name followed by `..` neither, `..` leaves the directory reached, and stays at the top |
| Paths.UpUndoesName | agent/commands/fs.py:31-65 | anywhere in a text, a name followed by `..`, a `.` or a doubled slash changes nothing of the answer |
| Paths.LeavingIsRefused | agent/commands/fs.py:54-57 | names followed by more `..` than there are of them leave the data root and are refused, relative or absolute; by fewer, they name what is left |
| Paths.InsideExactly | agent/commands/fs.py:43-65 | a text is answered with some components exactly when it normalises to them behind the real root or the configured one |
| Paths.PartsAreComponents | agent/commands/fs.py:58-65 | no result ever has an empty, `.` or `..` component or one with a slash, so the code's last check never fires |
| Paths.SpellingsAgree | agent/commands/fs.py:31-65 | components written out as a relative path, or as an absolute one under the configured or the real root, all parse to themselves |
| Paths.RelativeMeansBelowRoot | agent/commands/fs.py:40-42 | any relative text, with `..`, `.` and doubled slashes as they come, parses like the absolute text it makes behind the data root |
| Paths.ReparsesExactlyWhenCompatible | agent/commands/fs.py:43-57 | every result parses to itself if and only if the two roots coincide or neither contains the other |
| Paths.NotReparsed | agent/commands/fs.py:43-57 | for any two nested roots, a path exists whose parse parses to something else |
| Paths.PagePathParts | agent/commands/fs.py:267-275 | reopening a frame's directory reaches the components of the listed path followed by the frame's own, for every non-empty spelling of the path |
| Paths.EmptyRawReopensOnlyAtTop | agent/commands/fs.py:267-275 | an empty `path` lists the data root, but the page path of what lies below reaches it if and only if the data root is `/` |
| DirWalk.Join | agent/commands/fs.py:266-330 | two stretches of a walk, however the tree changed in between, make one: nothing lost, nothing twice, order kept |
| DirWalk.StepEntry | agent/commands/fs.py:287-308 | passing the least name after the frame's position owes nothing it skipped, and pushing a directory's frame leaves all below it ahead |
| DirWalk.StepPop | agent/commands/fs.py:274-278 | dropping a frame whose directory does not open or lists nothing more loses no entry that stays |
| DirWalk.StepAbsent | agent/commands/fs.py:256-261 | an absent directory may be answered with an empty listing: nothing that stays is owed |
| DirWalk.CompleteWalk | agent/commands/fs.py:236-339 | over an arbitrarily changing tree a complete walk meets entries in strictly increasing component-wise order and every entry that stays exactly once |
| DirTree.ListingHolds | agent/commands/fs.py:236-247 | the reference listing holds exactly the entries that paths reach in the tree, with their kinds |
| DirTree.ListingIncreasing | agent/commands/fs.py:282-286 | the reference listing is name-sorted and depth first: strictly increasing in component-wise order |
| DirTree.CompleteWalkOfTree | agent/commands/fs.py:236-339 | over an unchanging tree a complete walk meets exactly the reference listing, re-reading after descents included |
| DirTree.SeenAtMostAll | agent/commands/fs.py:263-330 | no stretch of a walk meets more entries than the tree has, though directories are read again after each descent |
| DirTree.CompleteWalkIsShallow | agent/commands/fs.py:301-306 | a complete walk is possible only over a tree no directory of which is nested 128 deep |
| ListCursor.EncodeDenotes | agent/commands/fs.py:330 | the cursor handed out denotes exactly the stack it was made from |
| ListCursor.DenotesOne | agent/commands/fs.py:352-380 | a cursor denotes at most one stack |
| ListCursor.OneIsNumeric | agent/commands/fs.py:343 | a version passes exactly if Python takes it for the number 1 |
| ListCursor.AllowedIsAccepted | agent/commands/fs.py:353-379 | the frame-by-frame tests pass exactly for a chain: root frame empty, each path spelling the names its ancestors stand at |
| ListCursor.ValidateCursor | agent/commands/fs.py:341-380 | arbitrary JSON is accepted if and only if it denotes an acceptable stack of depth 1 to 128, and then decodes to that very stack |
| ListCursor.AdvanceAccepted | agent/commands/fs.py:288 | moving the top frame to a name from a listing keeps a stack acceptable |
| ListCursor.PushAccepted | agent/commands/fs.py:301-308 | pushing a frame for the directory just met keeps it acceptable |
| ListCursor.PopAccepted | agent/commands/fs.py:277-278 | dropping the top frame keeps it acceptable or empties it |
| ListDir.SortedAfterCorrect | agent/commands/fs.py:282-286 | the names still to visit are exactly those past the frame's position, sorted |
| ListDir.FsCommands.ReadFrame | agent/commands/fs.py:282-328 | one directory read is a segment of the walk that respects both limits and leaves an acceptable stack; unless cut it goes into the first directory past its frame, and out if there is none |
| ListDir.FsCommands.Walk | agent/commands/fs.py:263-330 | one page is a segment of the walk within both limits, stopping early only at a limit; it opens exactly the directories a depth-first walk comes to, one after the other, leaving what is gone or cannot be opened, and fails at a link exactly when one of them is reached by a link |
| ListDir.FsCommands.ListDir | agent/commands/fs.py:248-339 | a cursor is refused exactly when it denotes no acceptable stack, a path exactly when it is outside the root; an absent directory is an empty page, one that cannot be opened is that error if and only if it is, and so is a link; a page is a segment from its start with exactly its regular files, over directories none of which was a link; a cursor comes out exactly with something on the stack and is itself acceptable; each error has its cause |
| ListRuns.PagesJoin | agent/commands/fs.py:236-247 | pages resuming one another make one walk, whatever the tree did between them |
| ListRuns.AnyListing | agent/commands/fs.py:266-330 | over any changing tree, following cursors to null returns paths strictly increasing, and a regular file that stays in place exactly once |
| ListRuns.NoFailure | agent/commands/fs.py:266-330 | no page over an unchanging tree nested at most 127 deep fails |
| ListRuns.EncodedStart | agent/commands/fs.py:330-380 | a listing started from a cursor handed out starts at the identical stack |
| ListRuns.PageMoved | agent/commands/fs.py:315-320 | a page that hands out a cursor has passed at least one entry |
| ListRuns.UncutPageIsWhole | agent/commands/fs.py:330-339 | a successful listing without pagination returns the whole recursive list |
| ListRuns.FollowCursors | tests/test_hardening.py:294-302 | the client's loop ends within N + 1 pages over a tree of N entries and gets exactly the recursive sorted list of regular files, for all limits |
| ListRuns.FollowWhileChanging | tests/test_hardening.py:294-302 | the client's loop over a tree that changes as it likes: on reaching a null cursor it has strictly increasing paths and every regular file that stayed exactly once; short of one it stops only for a page that failed, with its cause, or after the number of pages it was given |
| Descriptors.OneFurther | agent/commands/fs.py:97-101 | a directory found and opened below the one reached extends the proof that no link was followed |
| Descriptors.FsCommands.Down | agent/commands/fs.py:83-101 | one step down leaves exactly one descriptor of the walk, or none on failure, or, exactly when the close fails, one lost and one closed twice |
| Descriptors.FsCommands.Walk | agent/commands/fs.py:71-110 | the walk the three callers share: descriptors balance, or one is lost and another closed twice exactly when a directory on the way opens and the close of the one left fails; arriving means every name was a real directory when opened and everything missing was made if asked for |
| Descriptors.FsCommands.OpenDir | agent/commands/fs.py:92-110 | descriptors balance unless, by what the system answers from the call's start, a directory on the way opens and the close of the one left fails, and exactly then not; the one returned was reached through real directories only; any other failure is a fault or a name that was no directory |
| Descriptors.FsCommands.ParentFd | agent/commands/fs.py:71-90 | the same for the parent of the last name, with directories made on the way or not, exactly the missing ones being made; refused at the root before anything is opened |
| Descriptors.FsCommands.Mkdir | agent/commands/fs.py:153-177 | the same exact condition; success means every name was found or made and then opened as a real directory; it stops only at a fault or a name that is no directory once made; with everything made it fails exactly if the last close does |
| Descriptors.FsCommands.ReadBytes | agent/commands/fs.py:402-411 | file and parent are both closed whichever call raises, with the same exact exception on the way to the parent; with the parent reached it succeeds exactly if the name is there and no link and every call on it, to the last close, works |
| Descriptors.MakingStopsOnlyForOthers | agent/commands/fs.py:160-172 | a walk that makes what is missing stops only at a fault or at a name others had a hand in |
| Descriptors.LosesDescriptor | agent/commands/fs.py:97-107 | opening one directory with one failing close is enough to leave a descriptor open that nobody holds and to close another twice |
| Transfer.File.ReadBytes | agent/commands/fs.py:382-413 | the bytes from the offset, clamped at 0; at most the length asked for, 4 MiB by default, 8 MiB at most; `eof` exactly at the end |
| Transfer.UploadWritesAll | agent/commands/fs.py:128-144 | whatever was there before, a chunked upload leaves the chunks put together |
| Transfer.DownloadReadsAll | agent/commands/fs.py:382-413 | reads each starting where the last ended give a prefix of the file, all of it exactly at `eof`, in at most one read more than it has bytes |
| Transfer.RoundTrip | agent/commands/fs.py:128-151 | what goes up in chunks comes back whole, however it is cut in either direction |
| Shell.LexQuote | agent/commands/postgres.py:75 | a quoted string, anywhere in a word, contributes exactly itself to it |
| Shell.ContainsQuote | agent/commands/postgres.py:75 | quoting neither hides nor forges an occurrence of a pattern without quotes |
| PgCommand.CommandLineReadsBack | agent/commands/postgres.py:69-76 | for any argument strings the printed line reads back as `postgres` and, for each, `-c` and the argument unchanged |
| PgCommand.InstallScriptReadsBack | agent/commands/postgres.py:79-135 | the whole script reads back as its own words, the image tag kept inside three package names, followed by the command's words |
| PgCommand.TagIsLast | agent/commands/postgres.py:125 | the tag is what follows the last colon of the image, or all of it |
| PgCommand.SettingsOverride | agent/commands/postgres.py:498-513 | of all settings, those in the extra arguments are in force, then those for archiving, then the baseline's |
| PgCommand.BaselineApplies | agent/commands/postgres.py:498-513 | unless the extra arguments say otherwise the libraries are preloaded, and archiving is on exactly when asked for |
| PgCommand.DetectorMissesOverride | agent/commands/postgres.py:230-232 | the detector answers yes for every container built with archiving, in force if and only if no extra argument sets it to something else |
| PgCommand.ArchivingExactly | agent/commands/postgres.py:230-232 | the detector on a printed command is true exactly if the container was built with WAL archiving, or the tag or an extra argument holds the setting |
| Docker.CallsKeepNamesUnique | agent/commands/postgres.py:366-412 | no daemon call, failing or not, gives two containers one name |
| PostgresProtocol.StepKeepsSafe | agent/commands/postgres.py:324-412 | every call of a mutation, failing before or after its effect, keeps every running container on the data directory under its own name, and what the next call relies on |
| PostgresProtocol.OutsideKeepsSafe | agent/commands/postgres.py:324-412 | containers stopping or disappearing on their own break neither |
| PostgresProtocol.NextKeepsInvariant | agent/commands/postgres.py:144-150 | so does any step of any thread, the lock keeping all but its holder out |
| PostgresProtocol.NeverTwoServers | agent/commands/postgres.py:144-150 | in every state of every interleaving at most one thread is mutating and at most one container runs on the data directory, the one named `berth_postgres` |
| PostgresProtocol.HalfRenameIsUnsafe | agent/commands/postgres.py:371-377 | the assumption on `rename` is needed: reported as failed although applied, it would let the restart run the old server under its rollback name |
| PostgresCommands.CourseKeepsSafe | agent/commands/postgres.py:324-412 | a course through the automaton from a safe daemon ends in one |
| PostgresCommands.PostgresCommands.WaitReady | agent/commands/postgres.py:425-443 | readiness is only reported after this container, existing and running, was asked during the call and answered; without it every poll, one a second, brought a no until time was up, or a call of the last one failed |
| PostgresCommands.PostgresCommands.WaitReadyBefore | agent/commands/postgres.py:414-423 | the same, with the answer in by the deadline; else no time was left, no poll brought one, or it came too late |
| PostgresCommands.PostgresCommands.StartReplacement | agent/commands/postgres.py:378-395 | the replacement is only committed to after it answered with more than 65 s left, while nothing else changed |
| PostgresCommands.PostgresCommands.GetExisting | agent/commands/postgres.py:445-449 | a lookup that works finds the container exactly when its name is taken; one that fails finds none |
| PostgresCommands.PostgresCommands.RecreateWithRollback | agent/commands/postgres.py:352-412 | if it returns, the replacement answered with more than 65 s left while the old container stood by under its rollback name, and only then did that go, unless its removal failed; if it raises, each error has its cause in a failed call or the clock, and with no call having half worked and the rollback's own calls working, as with none failing, the daemon is exactly as before |
| PostgresCommands.PostgresCommands.RollBack | agent/commands/postgres.py:396-404 | with the rollback's calls working, which with none failing they do, whatever `run` left is gone and the old container has its name back, running exactly if it ran |
| PostgresCommands.PostgresCommands.PutBack | agent/commands/postgres.py:401-404 | renaming and restarting what was set aside gives back the daemon before |
| PostgresCommands.PostgresCommands.CreateWithDeadline | agent/commands/postgres.py:324-350 | success adds exactly the container asked for, which answered by the deadline; one that did not is removed again, its removal working; raising before that is exactly for the deadline or a `run` that failed, and leaves at most what `run` left |
| PostgresCommands.PostgresCommands.EnablePitr | agent/commands/postgres.py:196-258 | with the lock taken nothing changes; an archiving container found and read is exactly what is answered `already_enabled`; success means archiving is on, by a container that answered in time, with margin and the old one standing by if it replaced one; every error has its cause in a failed call or the clock, in the order the code meets them; with working rollback, as with no call failing, an error leaves the daemon as it was |
| PostgresCommands.PostgresCommands.Retune | agent/commands/postgres.py:260-322 | success brought up a container that answered in time, in the same sense; every error has its cause in a failed call or the clock; archiving stays on through it, whether it succeeds or rolls back with working calls, and after success is on exactly if it was or the new arguments ask for it |
| PostgresCommands.PostgresCommands.Bootstrap | agent/commands/postgres.py:144-194 | `already_running` is answered exactly when the container is found, read and runs, and changes nothing; success otherwise started exactly the stopped container or added exactly the one asked for; each error has its cause, and with every call working there is none; failure did no more than that; archiving stays as it was |
| PostgresCommands.ArchivingStaysOn | agent/commands/postgres.py:196-322 | over any run of calls, once `enable_pitr` has succeeded archiving is on after every later call and `enable_pitr` again changes nothing |
| PostgresCommands.BootKeepsArchiving | agent/commands/postgres.py:144-194 | no bootstrap, failing or not, turns archiving off |
| PostgresCommands.ReplacedEffect | agent/commands/postgres.py:230-232 | after a replacement the detector answers for the new container, wherever the old one ended up |
| PostgresCommands.WantedArchives | agent/commands/postgres.py:498-509 | a container built with archiving is always recognised |
| Session.AdmitExactly | agent/gateway.py:270-302 | a frame is refused exactly when it is data that would break a ceiling, dropped exactly when it would not and the queue is full, taken otherwise |
| Session.SumUpdate | agent/gateway.py:281-300 | one count changed changes the sum by the difference |
| Session.Session.ClaimStream | agent/gateway.py:517-531 | refused exactly for an empty id, an id in use or a 65th stream, and then changes nothing; otherwise the id is counted from 0 |
| Session.Session.ReleaseStream | agent/gateway.py:534-543 | the owner's release takes its count off the total; another's leaves the claim and the counts, though it clears flags |
| Session.Session.StreamCtrl | agent/gateway.py:270-302 | a frame is queued exactly when its stream is open, its bytes break neither ceiling and the queue has room, and counted exactly then; data beyond a ceiling, and nothing else, marks the stream, queues a close if there is room and counts nothing; all totals stay within their ceilings and equal the sum |
| Session.Session.DrainStreamBytes | agent/gateway.py:305-309 | what is taken off a stream is taken off the total, which is never clamped |
| TunnelInbound.ExactAndInOrder | agent/gateway.py:270-309 | in every interleaving the count is the data queued plus the item being written, and the target was handed a prefix of the bytes received; after a refusal the accepted items are those before it, then a close |
| TunnelInbound.ClosedForGood | agent/gateway.py:937-954 | once a frame is refused for size nothing more is ever accepted and the close stands behind all accepted data |
| TunnelInbound.ClosedForSize | agent/gateway.py:279-297 | a tunnel is closed for size exactly when some data frame on the open stream, on top of what was counted when it came, would have broken a ceiling |
| TunnelInbound.AllFit | agent/gateway.py:279-302 | a run whose counts never would break a ceiling accepts every frame received |
| TunnelInbound.FinishedFor | agent/gateway.py:937-957 | the consumer ends exactly for a close, a failed write or drain, or the other direction ending |
| TunnelInbound.CanFinish | agent/gateway.py:937-954 | from every reachable state with the consumer alive the target can still be handed everything accepted, or everything before a close |
| TunnelOutbound.NothingLostInOrder | agent/gateway.py:909-935 | bytes sent plus the one chunk held, of at most 65536 bytes, are what the target produced, at every step |
| TunnelOutbound.PauseHolds | agent/gateway.py:909-935 | after a processed pause at most one more chunk is given to `ws.send` before the next resume, and only one already woken |
| TunnelOutbound.LatchedSendHappens | agent/gateway.py:909-948 | that one send can happen: a resume and a pause back to back |
| TunnelOutbound.MessagesInOrder | agent/gateway.py:863-982 | the gateway hears one error, or an ok, then data, then at most one `stream_closed` |
| TunnelOutbound.OpeningAnswered | agent/gateway.py:885-904 | a failed connect is answered with an error, one that works with an ok, and only then is anything relayed |
| TunnelOutbound.RelayEndsFor | agent/gateway.py:909-969 | the relay ends exactly when the target has nothing more, a send fails or the other direction is over, not after a chunk sent |
| TunnelOutbound.HeldIsSent | agent/gateway.py:909-935 | while the stream is not paused, in every reachable state, a chunk held is sent within two steps of the reader, and one that holds none is reading again |
| TunnelOutbound.CloseIsTold | agent/gateway.py:958-982 | once the relay is over, the teardown says so last, if its send goes through |
| PtyStream.WorkerTakesInOrder | agent/gateway.py:546-614 | in every interleaving the items the worker takes are an in-order subsequence of the frames accepted |
| PtyStream.CountedIsHeld | agent/gateway.py:604-639 | the count is what both queues, the bridge and the worker hold, plus what is drained but not yet reported, plus what a close evicted |
| PtyStream.EvictedStaysCounted | agent/gateway.py:552-561 | a close that makes room takes bytes out of what is held and leaves them in the count |
| PtyStream.EvictionHappens | agent/gateway.py:552-561 | it does happen: a close behind 256 queued frames leaves a byte counted that no worker drains |
| PtyStream.CloseIsQueued | agent/gateway.py:546-562 | once the bridge is over, a close is queued last or was the last thing taken |
| PtyStream.CloseTakesThreeSteps | agent/gateway.py:546-562 | an offered close is settled within three steps of the bridge, whatever the worker does between them |
| PtyStream.CancelOffersClose | agent/gateway.py:604-614 | a cancelled bridge offers a close at once |
| PtyStream.FrameTaken | agent/gateway.py:270-302 | a frame for an open PTY stream is queued exactly when its bytes fit and the control queue has room |
| PtyStream.OfferedIsPut | agent/gateway.py:546-562 | in every reachable state an item offered while the thread queue has room goes on it, whatever it is; without room a close makes some, and anything else is dropped and taken off the count |
| PtyStream.WorkerDoneExactly | agent/commands/container.py:400-425 | the worker ends for a close and for data it cannot write, and reports data, and nothing else, as drained |
| PtyStream.NothingLost | agent/gateway.py:546-614 | as long as the thread queue is never found full, the items taken, queued, offered and waiting are exactly the frames accepted, in order |
| PtyStream.CanDrain | agent/gateway.py:594-639 | from every reachable state everything can be worked off, after which nothing stays counted but what a close evicted |
| PtyStream.EvictInOrder | agent/gateway.py:556-558 | making room for a close takes out the oldest item only and keeps the order of the rest |
| Session.Session.TakeSlot | agent/gateway.py:457-476 | a command gets no slot exactly when 32 are taken; a submission that raises leaves the count as it was |
| Requests.PendingIsHolding | agent/gateway.py:457-487 | in every interleaving `pending_commands` is the number of submitted commands whose completion callback has not run, and at most 32 |
| Requests.PendingDrains | agent/gateway.py:481-487 | it is 0 exactly when every such callback has run |
| Requests.OnlyTheCallbackFrees | agent/gateway.py:481-487 | no reply, timeout, failed send or cancelled task frees a slot, and the clamp at 0 never acts |
| Requests.BusyWhenFull | agent/gateway.py:457-469 | a command is turned away exactly while 32 earlier ones hold their slots |
| Requests.AnsweredOnce | agent/gateway.py:985-1043 | each request gets at most one delivered response of any kind, a `stream_closed` only after that stream's ok, and a result only for a command that returned |
| Requests.ReceiptExactly | agent/gateway.py:373-500 | what each kind of request is answered at once, and that a command gets a slot exactly when one is free and the pool takes it |
| Requests.EndedIsReported | agent/gateway.py:985-1043 | a command that ended while awaited is reported as it ended: its result if it returned, the timeout or error it raised |
| Requests.TimeoutIsReported | agent/gateway.py:1009-1023 | a command that takes too long is reported as timed out, whatever becomes of it |
| Requests.StreamIsAnswered | agent/gateway.py:863-982 | a stream that opens is told so and its end is told too, its own or its task's cancelling; one that does not gets an error |
| Requests.SendsExactly | agent/gateway.py:1000-1043 | a send that raises delivers nothing and is the last, save that a result lost is followed by one attempt at an error |
| Requests.AnswersAreEarned | agent/gateway.py:985-1043 | in every interleaving a command is answered with a result only if it returned, with an error only if it raised or its result could not be sent, with a timeout only for one of these or for taking too long |
| TenantNames.SlugGrows | agent/commands/tenantdb.py:30 | plain slugs are a letter or digit followed by up to 62 letters, digits and hyphens |
| TenantNames.NamesApart | agent/commands/tenantdb.py:57-64 | names of different slugs never coincide, those of containers set aside included, and one tenant's names are distinct |
| TenantNames.ContainerIsNotAside | agent/commands/tenantdb.py:30 | a database's own name is never one that marks a container as set aside |
| TenantNames.NewlineGetsThrough | agent/commands/tenantdb.py:30 | a plain slug with a newline behind it is let through as another slug |
| TenantNames.OtherTenantUntouched | agent/commands/tenantdb.py:57-64 | a call that keeps to its own names leaves every other tenant's containers, volumes and network as they were |
| TenantState.AcceptableBounds | agent/commands/tenantdb.py:90-104 | each bound on the parameters by itself: 4 GiB, 1 to 1000 processes, a `postgres` command, a `postgres:` image |
| TenantState.WantedServes | agent/commands/tenantdb.py:179-197 | the container asked for runs the given command on the tenant's own data and scratch volumes, with the WAL volume exactly on request |
| TenantState.PutBackUndoes | agent/commands/tenantdb.py:159-165 | whatever a failing replacement left, putting back gives the daemon from before the set-aside with the container running |
| TenantState.FailureKeepsDatabase | agent/commands/tenantdb.py:104-141 | a replacement that fails past the set-aside, with no call of the put-back failing, leaves the tenant's container running under its name; in any case it is still there, unless its replacement took over |
| TenantState.LeftoverBlocksRemoval | agent/commands/tenantdb.py:249-272 | with a predecessor set aside that mounts its volumes the tenant cannot be removed |
| TenantState.RunIsolated | agent/commands/tenantdb.py:57-64 | over any run of calls, however they fail, a tenant no call names has all it had |
| TenantState.RunKeepsAsideStopped | agent/commands/tenantdb.py:144-166 | over any run of calls no container set aside is ever running |
| TenantDb.TenantDbCommands.SetAside | agent/commands/tenantdb.py:144-157 | success leaves exactly the container found, stopped under its old name; each failure says how far it came and which call failed |
| TenantDb.TenantDbCommands.PutBack | agent/commands/tenantdb.py:159-166 | it goes through exactly when each of its calls works, and then the container runs under its name and nothing else is there; in any case it still exists |
| TenantDb.TenantDbCommands.CreateOrGet | agent/commands/tenantdb.py:168-203 | the existing container untouched, or one new container that runs the command given and mounts the tenant's data and scratch volumes, and the WAL volume exactly on request, all of them there |
| TenantDb.TenantDbCommands.WaitReady | agent/commands/tenantdb.py:206-219 | success means this container was asked during the call, within 90 s of its start, and answered; without it every poll, one a second, brought a no for 90 s, or the last one failed |
| TenantDb.TenantDbCommands.BringUp | agent/commands/tenantdb.py:120-137 | success means exactly the tenant's container was started or created, and it answered since; failure has its cause in the last call or in 90 s of polls without an answer, and leaves at most that container half done |
| TenantDb.TenantDbCommands.Replace | agent/commands/tenantdb.py:114-142 | the previous container is still there when the replacement answers and goes only after the calls that follow work; past the set-aside every failure with a working put-back restores it; a failed clean-up is a failed removal behind an answered replacement; nothing is touched exactly when a pull is wanted and fails |
| TenantDb.TenantDbCommands.Ensure | agent/commands/tenantdb.py:78-142 | rejected parameters change nothing; a wanted pull that fails is the exact condition of one error and changes no container; a container created, by a `recreate` too, runs the command given on the tenant's data volume, which is never removed, and has answered since; past the set-aside a failure puts the previous one back unless a call of the put-back fails; every failure has its cause; no volume is ever removed and no other tenant touched |
| TenantDb.TenantDbCommands.Start | agent/commands/tenantdb.py:240-247 | success means exactly the tenant's container was started and that it answered during the call; each failure has its cause |
| TenantDb.TenantDbCommands.Stop | agent/commands/tenantdb.py:233-238 | success means nothing runs under the tenant's name, and only that container was stopped; it fails exactly for a slug not allowed, a failed lookup, or a failed stop of the container found |
| TenantDb.TenantDbCommands.Remove | agent/commands/tenantdb.py:249-272 | success removes exactly container, network and volumes, data and WAL kept on request; with every call of its own working it succeeds if and only if nothing else mounts those volumes |
| TenantDb.TenantDbCommands.Perform | agent/commands/tenantdb.py:78-272 | every call, however it ends, keeps names unique, containers set aside stopped and other tenants untouched |

## Left out

- ListDir.FsCommands.ListDir: the empty `path` is excluded, for which the page path of a frame becomes absolute (agent/commands/fs.py:269-273); what that does is stated apart.
- Roots spelled with two leading slashes; names with NUL or undecodable bytes.
- `os.listdir` itself raising after the directory opened; it ends the listing with that error.
- A client that hands back a cursor for another `path`: each cursor is taken to belong to the path it comes with.
- Descriptors that `write_text` and `write_bytes` pass to `os.fdopen`, and the directory `list_dir` reads, which is closed in a `finally` around straight-line code.
- Descriptors.FsCommands.OpenDir: another thread reusing a descriptor number between the two closes is not modelled; the second close just finds nothing.
- TenantDb.TenantDbCommands.Ensure: a container's network attachment, labels, capabilities and limits are not part of the container; images are only available or not.
- TenantDb.TenantDbCommands.SetAside: a rename that fails after the stop leaves the database stopped under its own name, as in the code; no member says it is put back.
- TenantDb.TenantDbCommands.Remove: which containers are disconnected from the tenant's network is not modelled, nor the directory removed at the end.
- PostgresCommands.PostgresCommands.RecreateWithRollback: a call that failed although it took effect, other than `run`, is excluded by `halfDone` from the promise of an unchanged daemon; safety holds without that.
- Container statuses other than running and stopped, and Docker's restart policy: a crashed container that Docker restarts while set aside is not covered. A stopped one is not restarted by `unless-stopped`.
- PtyStream.CountedIsHeld: the count is followed until the handler releases the stream; bytes evicted by a close stay counted until then.
- Requests.AnsweredOnce: a send that raises is taken to have delivered nothing; one that is cancelled may have delivered.
- Claims the code does not keep: that a PTY `close` frame always gets into a full control queue, that `truncated` means something is left, that a release by another than the owner changes nothing, that PTY `stream_data` never precedes the ack.
- The order of PTY output, the reader threads, the host shell worker and its partial writes; session teardown beyond cancelling a handler.
- Shell expansions and comments: the lexer answers `None` for text that has them. An IO number is read as a word, and a here-document's operator and body as ordinary tokens.
- WebSocket, TLS, reconnecting, JSON and base64, logging, metrics, redaction, method routing; `instance.py`, `image.py`, `system.py`, `config.py`; `dump`, `restore`, `export` and `cleanup` of tenant databases.
