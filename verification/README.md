# A verified model of the workbench's stateful cores

This project models, in Dafny, the parts of a Go and React desktop workbench that keep real
state: the terminal byte pipeline, the cluster watch session and its panel, the rules that bind a
folder to a cluster, blame entries that follow a buffer through edits, the readers of git's
porcelain formats, line-ending conversion, the file trees, and the editor tabs. `dafny verify
dfyconfig.toml` checks all of it.

## How it is laid out

| area | modules | what they are |
|---|---|---|
| Terminal stream | `StreamProtocol`, `StreamSafety`, `StreamEnd`, `StreamConn` | the drop-oldest queue of one connection. Every select, channel operation and atomic operation of the producer and the write pump is one action; a list of actions is an interleaving. `StreamSafety` proves what every interleaving keeps, `StreamEnd` how a pump ends; `StreamConn` is the object whose methods take those same steps |
| PTY session | `Ring`, `PtySession` | the circular scrollback on an array, and attach, broadcast, detach and finish on objects with bounded queues |
| Terminal tab | `TerminalSession` | the client's tab as a class; the browser is the caller and each event it delivers is a method |
| Cluster watch | `WatchPlan`, `WatchSession`, `WatchVerdicts`, `WatchRun`, `WatchPhase`, `WatchLaws`, `WatchProgress` | rows and their owning groups; the pumps that keep rows current, and what a row then says; the run loop, its plans, tokens and backoff, again as interleavings; what the phase says and when it is true; what each step is for, and that no interleaving wedges the loop |
| Health panel | `HealthPipeline`, `HealthProgress`, `HealthHook` | from a changed row to what the panel shows, through three coalescing stages; that it settles, and on what |
| Folder bindings | `Paths`, `PathLaws`, `Binding`, `ScopeRegistry`, `BindingLaws` | path cleaning and what it comes to, `Resolve` against the rule it implements, the registry's updates, and what they do elsewhere |
| Blame in the editor | `TextLines`, `BlameMarks`, `BlameTracking`, `BlameEdits`, `BlameUndo`, `BlameNames` | lines and single replacements; anchors, drawing and moving; runs of installs and edits; which entries an edit keeps, which anchors an undo brings back, and which names |
| git readers | `GitStatus`, `BlameParser`, `BlameFormat` | the two parsers, and the formats they read |
| Line endings | `LineEndings` | classification and both conversions |
| File trees | `TreePaths`, `Outline`, `TreeBadges`, `ChangedTree`, `FileTree`, `FileHistory` | paths, the walk both trees share, badges, the changed-only tree, the lazy tree and what any run of it leaves |
| Editor tabs | `EditorTabs`, `EditorFile`, `EditorDisk`, `EditorStrip` | one tab's transitions in every order, what it knows of its file, the same beside a file that others write, and the strip they happen in |
| Vocabulary | `Sequences`, `Strings` | sequences, splitting, cutting, trimming, decimal numbers |

Code that updates objects in place is a class whose methods are proved against functions on values
or against ghost state; code made of expressions is functions. Concurrency is a state machine
whose invariants are proved over every list of actions.

## What is assumed of the outside

- A Go channel is a sequence with a capacity and a closed flag; sending to or closing a closed
  one is a precondition violation, never a modelled outcome.
- A browser socket becomes open and runs its `onopen` handler in one step.
- The cluster is an arbitrary list of objects and an arbitrary stream of events per group; what
  kstatus makes of an object is a parameter. Event frames of the health pipeline are delivered.
- CodeMirror maps a position through one replaced range with forward association, giving none
  strictly inside a deletion. Characters stand for both bytes and UTF-16 units.
- A backend lists a directory's entries with names that are not empty, hold no separator, and are
  distinct; git reports no empty path.
- A stored project file is a value that a save replaces whole.

## Where the code does less than its comments say

- `internal/stream/conn.go:26`: the next frame written is not always preceded by the marker for
  everything lost before it, because evicting and counting (lines 74 and 75) are separate steps.
  `StreamSafety.FrameAheadOfItsReport` is an interleaving in which it is not;
  `StreamSafety.LossReportedAhead` says exactly when it is, and that one frame at most is missing.
- `internal/kubewatch/health.go:30`: "watching" is said at `internal/kubewatch/session.go:179`
  before any list has run, in every cycle (`WatchPhase.WatchingStartsUnlisted`, with an instance in
  `WatchPhase.WatchingBeforeListing`). `WatchPhase.WatchingExactlyWhenFollowing` says what it does mean.
- `internal/project/binding.go:186`: cleaning a path twice can change it again. It does so exactly
  when the first pass leaves a space at an end (`Paths.CleanScopeSettles`, and
  `Paths.CleanScopeSettlesBySegments` for what that means of the path as written), and then a stored
  override acts on another folder than the one it names (`BindingLaws.EdgeSpaceMovesTheOverride`).
- `frontend/src/lib/blameMarks.ts:222-227`: undoing an edit does not always bring a name back.
  `BlameUndo.UndoneTypingLosesAName` is an edit that does not. `BlameNames.UndoKeepsNames` says
  exactly which edits bring every name back, `BlameNames.UndoneNames` whom each line names after any
  of them; `BlameUndo.UndoRestores` says exactly when every anchor is back, which is more.
- `frontend/src/lib/blameMarks.ts:260`: where two anchors meet, identical lines cannot be told
  apart and the first one wins. `BlameEdits.DeletedTwinTakesTheName` is a deletion after which the
  surviving line is named as the deleted one was; `BlameEdits.LineAtTheEndKeepsEntry` and
  `BlameEdits.LineAtTheStartKeepsEntry` say exactly when the line next to an edit keeps its entry.
- `internal/project/binding.go:107`: a path that climbs out of the repository does not always get the
  defaults: a list edited by hand can hold a scope for it, or for the root
  (`BindingLaws.ScopeAboveDecides`; `BindingLaws.OutsideGetsDefaults` says exactly when).
- `frontend/src/lib/editorTabs.ts:388`: a disk that goes back to the baseline leaves an earlier
  conflict standing (`EditorTabs.StaleConflictExactlyOnRevert`; `EditorTabs.RevertLeavesTheConflict`
  is such a run).
- `frontend/src/lib/useEditorTabs.ts:279-295`: a clean tab need not show the disk. A re-read that
  returns after a save it was begun before undoes the save in the buffer
  (`EditorDisk.LateReadUndoesTheSave`), and a write by another during a save goes unnoticed
  (`EditorDisk.WriteDuringSaveIsMissed`). `EditorDisk.SettledTabShowsTheDisk` says exactly when it
  goes on showing the disk until the file is next written.

## Model

| member | source | states |
|---|---|---|
| `StreamSafety.InvAlways` | internal/stream/conn.go:65-150 | the joint invariant of producer, queue, counter and pump holds after every interleaving of the three selects of `send` with the receives, swaps and writes of `writePump` |
| `StreamSafety.BytesConserved` | internal/stream/conn.go:65-150 | in every interleaving, bytes sent equal bytes written, queued, in the pump's and the producer's hands, on the counter and reported by markers: nothing vanishes, nothing is counted twice |
| `StreamSafety.QueueIsSuffix` | internal/stream/conn.go:65-84 | the queue is always the contiguous run of sent frames that ends at the newest one queued; the second push always finds room, so the newest frame is never the one lost; nothing is pushed to a closed queue |
| `StreamSafety.WrittenInOrder` | internal/stream/conn.go:95-132 | frames reach the socket in send order, unaltered, each at most once |
| `StreamSafety.LossReportedAhead` | internal/stream/conn.go:26-29 | when a frame is written, every byte lost ahead of it has been reported, except at most the one evicted frame the producer held uncounted when the counter was taken; all of it has been reported exactly when there was no such frame or it was empty (the comment claims it always is) |
| `StreamSafety.MissedIsTheProducers` | internal/stream/conn.go:73-77 | there is such a frame exactly when the counter is taken between an earlier frame's eviction and its count |
| `StreamSafety.FrameAheadOfItsReport` | internal/stream/conn.go:73-77 | such an interleaving: a queue of two, the oldest frame evicted and not yet counted, the next one written with nothing reported ahead of it |
| `StreamSafety.NormalClosure` | internal/stream/terminal.go:59-87 | a connection that ends in a normal closure wrote the exit frame last, right before the closure, with markers ahead of it that add up to exactly the bytes lost |
| `StreamSafety.NoTrailingMarker` | internal/stream/conn.go:114-126 | with one producer the trailing marker of `drain` is never needed: nothing is left unreported once the queue is empty |
| `StreamEnd.StopsWithClosure` | internal/stream/conn.go:93-126 | in every interleaving a pump that has stopped wrote a normal closure last, unless a write failed or the connection was closed under it |
| `StreamEnd.DrainsToClosure` | internal/stream/conn.go:86-126 | wherever a run has come to once the queue is finished, the pump, if its writes succeed, writes out what it holds and all that is queued, in order, and closes normally, in a bounded number of operations |
| `StreamEnd.StoppedForGood` | internal/stream/conn.go:95-109 | a stopped pump writes nothing more, whatever else goes on |
| `StreamEnd.SendGoesThrough` | internal/stream/conn.go:65-83 | undisturbed, a send puts its frame newest in the queue: behind all that is there when there is room, and otherwise in place of the oldest, whose bytes are counted |
| `StreamEnd.DrainReportsFirst` | internal/stream/conn.go:117-126 | a loss still uncounted for when the queue has run dry is reported ahead of the closure |
| `StreamConn.Conn.Send` | internal/stream/conn.go:65-84 | whatever the pump does between its operations, the frame sent is the newest in the queue when `send` returns |
| `StreamConn.Conn.TryPush` | internal/stream/conn.go:67-71 | the first select pushes exactly when there is room and otherwise goes on to evict |
| `StreamConn.Conn.EvictOldest` | internal/stream/conn.go:73-77 | the second select takes the oldest frame off and counts it as two separate steps |
| `StreamConn.Conn.PushAgain` | internal/stream/conn.go:79-83 | the third select always pushes; the branch that counts the frame itself is dead |
| `StreamConn.Conn.Finish` | internal/stream/conn.go:89-91 | closes the queue and loses nothing that is in it |
| `StreamConn.Conn.Move` | internal/stream/conn.go:95-150 | each atomic operation of `writePump` moves the fields as the protocol says, and each of the methods it dispatches to says what it puts on the socket, what it leaves in the queue and the counter, and where the pump goes next |
| `StreamConn.Conn.TakeCounter` | internal/stream/conn.go:129-140 | the counter is taken and cleared in one step, ahead of the frame in hand |
| `StreamConn.Conn.WriteResync` | internal/stream/conn.go:139-150 | a marker carries exactly what was taken off the counter, and a failed write ends the pump |
| `StreamConn.Conn.Close` | internal/stream/conn.go:154-159 | closing from any goroutine leaves queue and counter alone |
| `StreamConn.MessagesAreTheWire` | internal/stream/conn.go:114-150 | the peer receives exactly what was written, one message a write |
| `Ring.WriteReads` | internal/pty/ring.go:27-49 | after the two copies of a write, reading on from the oldest survivor gives the newest bytes in order |
| `Ring.Buffer.Write` | internal/pty/ring.go:27-49 | after any sequence of writes of any sizes the ring holds the last min(capacity, total) bytes of their concatenation, with start and size in range |
| `Ring.Buffer.Snapshot` | internal/pty/ring.go:52-58 | the snapshot is those bytes, oldest first, in storage of its own |
| `PtySession.ReaderSeesOneStretch` | internal/pty/session.go:132-215 | for every list of writes, attaches, detaches, receives and an end, and every reader in it: its replay is the newest of the output at its attach as far as the scrollback holds it; the replay followed by every chunk offered is one stretch of the output, up to now while it is open and to the end if it was told of one; what it received and what is queued are the accepted chunks, all of the offered ones when the queue never filled; and it is told how the session ended, once, exactly when it ended without the reader detaching first |
| `PtySession.OfferedInPlace` | internal/pty/session.go:143-150 | offering the next chunk extends what an open reader has seen by exactly that chunk, delivered or dropped, and leaves a closed one alone |
| `PtySession.TakenInPlace` | internal/pty/session.go:171-196 | a reader taking a chunk or the status keeps everything promised about it |
| `PtySession.NothingRefused` | internal/pty/session.go:143-150 | a queue that never filled accepted every chunk |
| `PtySession.OfferDelivers` | internal/pty/session.go:143-150 | a chunk offered to an open reader is queued when fewer than 64 are, and otherwise dropped for it; a closed one is offered none |
| `PtySession.ReceivesOldestFirst` | internal/pty/session.go:171-196 | a receive takes the oldest chunk, or the status, off that reader's queue and touches no other reader |
| `PtySession.AttachJoins` | internal/pty/session.go:171-196 | attaching adds one reader with the last 256 KiB to replay, closed and told how it ended exactly when the session has |
| `PtySession.EndsOnce` | internal/pty/session.go:155-166 | a session ends once, with all that was written by then |
| `PtySession.Session.Broadcast` | internal/pty/session.go:132-150 | records the chunk and offers it to exactly the attached readers, none of them closed; the object goes on being the session its events make |
| `PtySession.Session.Finish` | internal/pty/session.go:155-166 | gives every attached reader the status, for which there is always room, closes it, once, and empties the list |
| `PtySession.Session.Attach` | internal/pty/session.go:171-196 | a reader attached to a live session starts at the last 256 KiB of the output and misses nothing after; one attached to an ended session gets the same replay and the status |
| `PtySession.Session.Detach` | internal/pty/session.go:202-215 | closes the reader unless `finish` or an earlier detach did, and touches no other |
| `PtySession.Session.Deliver` | internal/pty/session.go:171-196 | a closed queue still drains what it holds |
| `TerminalSession.Session.Send` | frontend/src/lib/terminalSession.ts:295-302 | data sent followed by the pending queue is everything typed, in order |
| `TerminalSession.Session.FlushPending` | frontend/src/lib/terminalSession.ts:229-238 | as a socket opens, exactly the size, everything queued, in order, and a requested close last go out on it |
| `TerminalSession.ClosesWhenOwed` | frontend/src/lib/terminalSession.ts:229-238 | a socket that opens is told to close exactly when a close is owed |
| `TerminalSession.Session.Started` | frontend/src/lib/terminalSession.ts:102-135 | a tab disposed before the backend answered attaches only to have the session closed |
| `TerminalSession.Session.StartFailed` | frontend/src/lib/terminalSession.ts:102-135 | a failed start is reported unless the tab is gone |
| `TerminalSession.Session.RequestClose` | frontend/src/lib/terminalSession.ts:152-155 | the close goes out at once on an open socket, and otherwise is owed |
| `TerminalSession.Session.DeliverPendingClose` | frontend/src/lib/terminalSession.ts:180-193 | arms a socket that is still opening to send the close and nothing else |
| `TerminalSession.Session.Dispose` | frontend/src/lib/terminalSession.ts:161-172 | drops the socket, except one still opening on which a close is owed: that one stays up to send it |
| `TerminalSession.Session.SocketOpens` | frontend/src/lib/terminalSession.ts:152-238 | what goes out as a socket opens: on a tab's own, the size, everything typed while it came up, in order, and a requested close last; on one kept up only for the close, the close alone |
| `TerminalSession.Session.SocketDraws` | frontend/src/lib/terminalSession.ts:240-249 | output is drawn in order and the first of it types the autorun line |
| `TerminalSession.Session.TypeAutorun` | frontend/src/lib/terminalSession.ts:285-293 | the autorun line is typed at most once |
| `TerminalSession.Session.Resync` | frontend/src/lib/terminalSession.ts:274-283 | a resync clears the screen and attaches a new socket without losing or repeating input |
| `TerminalSession.Session.SocketControls` | frontend/src/lib/terminalSession.ts:251-271 | an exit frame is reported and ends the session, so no later loss is reported as a failure; a resync attaches again; anything else changes nothing |
| `TerminalSession.Session.SocketLost` | frontend/src/lib/terminalSession.ts:320-329 | a lost connection is reported as a failure only while the session has neither ended nor been disposed |
| `TerminalSession.Session.Report` | frontend/src/lib/terminalSession.ts:331-335 | nothing is reported after dispose |
| `WatchRun.MarksBelong` | internal/kubewatch/session.go:208-233 | every health written into a row comes from a pump of the cycle that seeded those rows, and hits the row of an object of that name that resolves to the pump's group; no pump outlives its `follow` |
| `WatchRun.PumpsNeverBlock` | internal/kubewatch/session.go:208-220 | a pump on its way out always finds room in the result channel |
| `WatchRun.NoReplanLost` | internal/kubewatch/session.go:81-86 | a session at rest with no edit owed and no token waiting has read the latest checkout, follows exactly what it declares, and shows its rows |
| `WatchProgress.AlwaysCanSettle` | internal/kubewatch/session.go:112-259 | wherever a run has come to, unless it was cancelled, it can come to rest with nobody editing and nothing more failing, following exactly what is declared or waiting with nothing declared: no interleaving wedges the loop |
| `WatchLaws.WakesOnceAnEdit` | internal/kubewatch/session.go:81-86 | in every run the loop is woken at most once for each edit, the token that waits and the edits still to be passed on included |
| `WatchLaws.ParkedShowsNothing` | internal/kubewatch/session.go:161-197 | in every run a parked session shows no rows and one that connects has something declared |
| `WatchLaws.MarksLand` | internal/kubewatch/session.go:304-317 | whenever a pump past its list marks a row of its group that row is there, of an object of that name, and the mark is made |
| `WatchLaws.PumpsWait` | internal/kubewatch/pump.go:23-51 | a pump that was refused waits out the session, and one with no answer yet waits for it |
| `WatchLaws.RebuildsExactlyWhenChanged` | internal/kubewatch/session.go:208-259 | a loop woken while it follows leaves its connections alone exactly when the checkout can be read and declares what it planned for, and otherwise leaves to rebuild |
| `WatchLaws.FirstResultEndsTheCycle` | internal/kubewatch/session.go:208-236 | the first pump to give up ends the cycle for all of them |
| `WatchLaws.EndsOnlyWhenCancelled` | internal/kubewatch/session.go:112-132 | in every run the loop ends only when the session was cancelled, and then for good |
| `WatchLaws.CancelIsHeard` | internal/kubewatch/session.go:112-259 | once cancelled the loop starts no other cycle: whatever it waits for next ends it, or has it leave |
| `WatchPhase.PhaseFollowsTheLoop` | internal/kubewatch/session.go:112-205 | in every run the phase is settled by where the loop stands, and between two cycles by how the last one ended: a failure has been said, a clean rebuild leaves what was said before it |
| `WatchPhase.IdleExactlyWhenParked` | internal/kubewatch/health.go:21-24 | idle is said exactly while nothing is declared to watch, and after being woken until the next thing is said |
| `WatchPhase.WatchingExactlyWhenFollowing` | internal/kubewatch/session.go:144-205 | watching is said exactly from the seeding of a plan to the end of its last pump, with that plan's rows on display, and after a plan was superseded until the next thing is said, with no pump left |
| `WatchPhase.WatchingStartsUnlisted` | internal/kubewatch/health.go:30-31 | every cycle says watching with no list made, so it means that every group has listed only once they have, or if there is no group |
| `WatchPhase.UnlistedRowsAreSeeded` | internal/kubewatch/pump.go:23-51 | until a group has listed, its rows are as the plan seeded them |
| `WatchPhase.WatchingBeforeListing` | internal/kubewatch/session.go:144-205 | such a run: one object and a first connection, watching is said, and its one group has not listed |
| `WatchRun.BackoffFollowsSchedule` | internal/kubewatch/session.go:134-142 | doubling and capping is the closed form min(15, 2^(n-1)) of the number of consecutive failures |
| `WatchRun.BackoffIsCapped` | internal/kubewatch/session.go:112-142 | after any run the delay is that of the cycles failed since the last clean rebuild, at most 15 s |
| `WatchRun.InvAlways` | internal/kubewatch/session.go:112-259 | edits, tokens, plans, pumps, rows and results stay in step in every interleaving of the run loop, its pumps and the editors |
| `WatchPlan.MakePlan` | internal/kubewatch/plan.go:49-93 | one row an object, in order; under each group and name exactly the rows that resolve to it |
| `WatchPlan.RowsOfGroup` | internal/kubewatch/plan.go:49-93 | every row a group holds under a name is of an object of that name which resolves to the group |
| `WatchPlan.RowsHaveOneOwner` | internal/kubewatch/plan.go:49-93 | an object of a kind not served has an Unknown row and no owner; any other is not found yet, lives in no namespace, its own or the binding's, and sits in exactly one place of exactly one group, under its own name and that namespace |
| `WatchPlan.IndicesInRange` | internal/kubewatch/plan.go:49-93 | every index a group holds is one of the plan's rows |
| `WatchSession.Session.Mark` | internal/kubewatch/session.go:304-317 | only a row that reads differently is announced; an index out of range changes nothing |
| `WatchSession.Session.Seed` | internal/kubewatch/session.go:288-294 | nothing carries over from the rows before |
| `WatchSession.Session.SetPhase` | internal/kubewatch/session.go:262-272 | only a change of phase or reason is announced |
| `WatchSession.Session.Record` | internal/kubewatch/pump.go:203-220 | every row of the named object is marked, and an object nobody declared marks none |
| `WatchSession.Session.ApplyList` | internal/kubewatch/pump.go:168-184 | after the list each row of the group has its object's verdict, or NotFound if the list did not return it |
| `WatchSession.Session.Consume` | internal/kubewatch/pump.go:139-149 | after an event each row shows its object's latest state, and the resume point is the last version any event carried |
| `WatchSession.Session.FollowFrom` | internal/kubewatch/pump.go:101-130 | events are consumed in order until the first error event; the rows follow all of them |
| `WatchSession.Session.ParkGroup` | internal/kubewatch/pump.go:82-91 | a group that may not be read says so on every row and touches no other |
| `WatchSession.Session.Pump` | internal/kubewatch/pump.go:23-51 | after the initial list and any events of any number of watches, each row of the group is the verdict on its object's latest state; every watch is asked for from where the one before it stopped |
| `WatchVerdicts.RowByLastEvent` | internal/kubewatch/pump.go:151-220 | what that verdict is, from the list and the events alone: the last event about the object decides, not found with no message if it was deleted, the verdict on the state it carries otherwise; with no event about it, the last listed item of its name, and not found without one |
| `WatchVerdicts.ResumesAtTheLast` | internal/kubewatch/pump.go:139-149 | a watch resumes at the version of the last event that carried one, and without any where it was |
| `WatchSession.PlanFits` | internal/kubewatch/plan.go:49-93 | the groups of one plan fit its rows and share none |
| `WatchSession.OthersUndisturbed` | internal/kubewatch/session.go:208-220 | what one group's pump does leaves every other group's rows right |
| `WatchSession.NarrowingLosesNothing` | internal/kubewatch/plan.go:173-183 | asking the server for one name only gives the same rows as the unnarrowed list and watch |
| `HealthPipeline.InvAlways` | internal/kubewatch/session.go:319-344 | the flags of the read loop, the answers and the wakeups under way stay in step in every interleaving of sessions, announcers, events and panel |
| `HealthPipeline.NeverAnotherTargetsHealth` | frontend/src/lib/useHealth.ts:133-139 | in every state the panel shows nothing or health read for the current selection |
| `HealthPipeline.SettlesCurrent` | frontend/src/lib/useHealth.ts:111-131 | once nothing is under way the panel shows the session as it is, or says the last call failed: no wakeup is lost through the three coalescing stages |
| `HealthPipeline.ErrorIsTheLastCalls` | frontend/src/lib/useHealth.ts:175-203 | the panel reports an error exactly when the last answer for the current selection was a failure |
| `HealthPipeline.EventsStartReads` | frontend/src/lib/useHealth.ts:144-162 | every event that concerns the panel is followed by a call begun after it |
| `HealthPipeline.StaleReadsAgain` | frontend/src/lib/useHealth.ts:119-127 | a queued read is made, for whatever is selected by then |
| `HealthProgress.AlwaysCanSettle` | frontend/src/lib/useHealth.ts:111-131 | wherever a run has come to, it can settle in a bounded number of steps with nothing changing any more, and then shows the selection as it is, or that the last call failed |
| `HealthProgress.AnnouncesOnceAChange` | internal/kubewatch/session.go:319-344 | in every run a session has announced each change at most once |
| `HealthProgress.EventsOfOtherCheckoutsPass` | frontend/src/lib/useHealth.ts:144-162 | the panel reads on an event exactly when something is selected and the event is of the checkout of the selection |
| `HealthProgress.SelectionIsShown` | frontend/src/lib/useHealth.ts:133-205 | selecting asks, and an answer for what is still selected is what is shown |
| `HealthProgress.LateAnswerIsDropped` | frontend/src/lib/useHealth.ts:175-203 | an answer for what is no longer selected changes nothing shown, and the read queued behind it is made for what is |
| `HealthProgress.RefreshAsks` | frontend/src/lib/useHealth.ts:111-131 | a refresh asks at once, or behind the read in flight, and asks nothing when nothing is selected |
| `HealthHook.Hook.Read` | frontend/src/lib/useHealth.ts:111-131 | one read in flight and at most one behind it |
| `HealthHook.Hook.Select` | frontend/src/lib/useHealth.ts:133-139 | a new selection shows nothing until it has been read |
| `HealthHook.Hook.Resume` | frontend/src/lib/useHealth.ts:175-203 | an answer for an older selection is dropped, and a queued read follows |
| `HealthHook.Hook.OnEvent` | frontend/src/lib/useHealth.ts:144-162 | an event reads exactly when it names the panel's checkout |
| `HealthHook.Hook.Render` | frontend/src/lib/useHealth.ts:84-164 | the hook, driven by its methods in any order, renders nothing or the selection's own health, and once nothing is under way the session as it is unless the last call failed |
| `Paths.CoversIsSegmentPrefix` | internal/project/binding.go:174-179 | string `covers` is the prefix order on whole segments, for all strings |
| `Paths.CoveringScopesFormAChain` | internal/project/binding.go:98-104 | scopes covering one path form a chain in which length is depth |
| `Paths.CleanScopeIsKept` | internal/project/binding.go:186-196 | a clean path is its reduced segments joined: none empty or `.`, `..` only in front |
| `Paths.CleanScopeShrinks` | internal/project/binding.go:186-196 | cleaning never lengthens a path |
| `Paths.CleanScopeSettles` | internal/project/binding.go:186-196 | cleaning twice is cleaning once exactly when the first pass leaves no space at either end |
| `Paths.CleanScopeSettlesBySegments` | internal/project/binding.go:186-196 | which is exactly when, of the segments that survive cleaning, the first begins and the last ends without a space |
| `Paths.BareSegmentsSettle` | internal/project/binding.go:186-196 | so a path none of whose segments begins or ends with a space cleans once and for all |
| `Paths.EscapesWhenDotDotFirst` | internal/project/binding.go:246-249 | a relative path escapes exactly when its reduced form starts with `..` |
| `PathLaws.EscapesWhenItClimbs` | internal/project/binding.go:246-249 | which is exactly when, followed segment by segment, it has somewhere climbed more often than it came down |
| `PathLaws.UpCancelsName` | internal/project/binding.go:186-196 | a named segment and the `..` behind it say nothing, whatever stands around them |
| `PathLaws.UpCancelsFirstName` | internal/project/binding.go:186-196 | nor at the beginning of a path, if what follows is neither rooted nor begins with a space |
| `PathLaws.UpCancelsLastName` | internal/project/binding.go:186-196 | nor at its end, if what is ahead does not end in a space |
| `PathLaws.DotSaysNothing` | internal/project/binding.go:186-196 | nor do `.` and an empty segment |
| `PathLaws.NothingAboveRoot` | internal/project/binding.go:186-196 | nor does `..` at the root |
| `PathLaws.BackslashIsSlash` | internal/project/binding.go:186-196 | a backslash separates as a slash does |
| `PathLaws.SpaceSaysNothing` | internal/project/binding.go:186-196 | space around a path says nothing |
| `Binding.SortIsStable` | internal/project/binding.go:135-137 | of the matches of one length, the stable sort leaves the last one last |
| `Binding.LastIsLongest` | internal/project/binding.go:135-155 | in a list sorted by length the last setter is the longest |
| `Binding.LongestIsDeepest` | internal/project/binding.go:98-104 | going up by length is going up the path segment by segment |
| `Binding.Resolve` | internal/project/binding.go:119-158 | the filter, stable sort and fold equal the rule: walk up the path and take each field from the deepest scope that sets it, the last one of duplicates, and the default otherwise |
| `ScopeRegistry.WrittenSettles` | internal/project/binding.go:207-217 | trimming before cleaning changes nothing |
| `ScopeRegistry.ValidateScopes` | internal/project/binding.go:207-242 | the normalized list comes back exactly when no path leaves the repository or names its root and no two clean alike |
| `ScopeRegistry.OrderDoesNotMatter` | internal/project/binding.go:106-118 | for lists without duplicates the answer does not depend on scope order |
| `ScopeRegistry.BoundIs` | internal/project/binding.go:266-280 | binding leaves the other overrides untouched and puts the new one, normalized, behind them, unless it names no context and no namespace and does not protect |
| `ScopeRegistry.StoresOnTheFirst` | internal/project/binding.go:301-328 | without a project of the name, or with a list that is not valid, nothing changes; otherwise the first project of that name gets the new binding and no other changes |
| `ScopeRegistry.Registry.RewriteScopes` | internal/project/binding.go:301-328 | nothing is stored unless the whole new list is valid, and only the first project of that name changes |
| `ScopeRegistry.Registry.BindScope` | internal/project/binding.go:266-280 | replaces the folder's override, or removes it when the new one overrides nothing |
| `ScopeRegistry.Registry.UnbindScope` | internal/project/binding.go:286-297 | removes the folder's override and is no error when there is none |
| `BindingLaws.ValidationSettles` | internal/project/binding.go:200-242 | a validated list reads back as written exactly when no path begins or ends with a space |
| `BindingLaws.EdgeSpaceMovesTheOverride` | internal/project/binding.go:186-196 | such a space: `./ a` is stored as ` a` and read back as `a` |
| `BindingLaws.BindReachesOnlyBelow` | internal/project/binding.go:266-280 | on a validated list, binding changes `Resolve` nowhere but at and under the folder (and the path its stored form reads back as) |
| `BindingLaws.BindTakesEffect` | internal/project/binding.go:266-280 | at the folder the override decides what it sets and is the rule that is named |
| `BindingLaws.UnbindForgetsBind` | internal/project/binding.go:286-297 | unbinding after binding equals unbinding alone, exactly when the path keeps no space at an end |
| `BindingLaws.UnbindUndoesBind` | internal/project/binding.go:286-297 | binding a folder that had no override and unbinding it restores the whole project |
| `BindingLaws.BindStaysSettled` | internal/project/binding.go:301-328 | the stored list keeps its paths distinct and reads back as written, exactly when the new path keeps no space at an end |
| `BindingLaws.DefaultsExactly` | internal/project/binding.go:106-158 | any path under any list of scopes resolves to the project's defaults exactly when no scope below the root covers it and those written for the root add nothing |
| `BindingLaws.OutsideGetsDefaults` | internal/project/binding.go:106-118 | a path that climbs out of the repository does so under any list, hand-edited ones too, exactly when no scope that climbs out is a beginning of it and those written for the root add nothing |
| `BindingLaws.ScopeAboveDecides` | internal/project/binding.go:106-118 | such a list: a scope written `..` decides for the path `..` |
| `BindingLaws.ValidatedOutsideGetsDefaults` | internal/project/binding.go:106-110 | under a validated list it always does |
| `BindingLaws.ProtectionFlowsDown` | internal/project/binding.go:144-155 | everything under a protected path is protected |
| `BindingLaws.AddingNeverUnprotects` | internal/project/binding.go:144-155 | no scope added anywhere in the list clears a protection |
| `BindingLaws.BindNeverUnprotects` | internal/project/binding.go:266-280 | BindScope takes protection away only by replacing the folder's own protected override |
| `TextLines.LineBefore` | frontend/src/lib/blameMarks.ts:228-242 | a line that ends before a replacement, or where it begins, starts where it did; it ends and reads as it did unless it ended exactly there and no line ends there any more |
| `TextLines.LineBehind` | frontend/src/lib/blameMarks.ts:228-242 | a line that starts behind a replacement, or exactly where it ends, moves with it and reads as it did; it is still a line of its own unless it started exactly there and no line starts there any more |
| `BlameMarks.DrawMarks` | frontend/src/lib/blameMarks.ts:190-209 | an entry on every line but the terminator, in order, and a band on exactly the lines whose entry names nobody |
| `BlameMarks.TerminatorIsAtTheEnd` | frontend/src/lib/blameMarks.ts:288-290 | the line skipped is the one that starts where the document ends |
| `BlameMarks.MovedNamesFirstMatch` | frontend/src/lib/blameMarks.ts:228-262 | after an edit a line names whoever the first anchor that lands on it and describes it names |
| `BlameTracking.MarksFor` | frontend/src/lib/blameMarks.ts:157-178 | a blame is anchored on the lines it has a commit for, as far as both blame and document reach |
| `BlameTracking.MovedAnchors` | frontend/src/lib/blameMarks.ts:228-242 | every anchor is mapped, snapped to its line's start, and kept by text where two meet |
| `BlameTracking.Update` | frontend/src/lib/blameMarks.ts:130-147 | an install replaces the marks, an edit moves them, and anything else leaves them |
| `BlameTracking.MarksFollow` | frontend/src/lib/blameMarks.ts:130-147 | after any run from no marks at all, the marks are what the run's anchors draw on its document |
| `BlameTracking.Follow` | frontend/src/lib/blameMarks.ts:130-147 | feeding the field any transactions one by one yields those marks |
| `BlameTracking.OneEntryALine` | frontend/src/lib/blameMarks.ts:190-209 | after any run each line but the terminator has exactly one entry while a blame is installed, and none otherwise, and a band exactly when its entry names nobody |
| `BlameTracking.NamedLineReadsAsMeasured` | frontend/src/lib/blameMarks.ts:271-277 | after any run a line that names a commit reads exactly as a line of the installed blame for which its table points at that commit |
| `BlameTracking.FreshInstallNamesEveryLine` | frontend/src/lib/blame.ts:40-49 | right after an install, in any run, the column names for each line the commit the blame's table points at for it, if that is one git has, and nobody otherwise |
| `BlameEdits.EditKeepsOtherLines` | frontend/src/lib/blameMarks.ts:228-242 | after any run an edit leaves the entry of every line wholly before or behind it unchanged, up to the shift |
| `BlameEdits.LineAtTheEndKeepsEntry` | frontend/src/lib/blameMarks.ts:244-262 | so does the line that starts where the replaced range ends, if it is still a line, exactly unless whole lines were deleted, the first was anchored to this line's text, and that anchor names somebody else |
| `BlameEdits.LineAtTheStartKeepsEntry` | frontend/src/lib/blameMarks.ts:244-262 | and the line that ends where the replaced range begins, if it still ends there, exactly unless whole lines were deleted behind it, it named nobody, and the line the deletion ends at was anchored to its text |
| `BlameEdits.DeletedTwinTakesTheName` | frontend/src/lib/blameMarks.ts:244-262 | such a deletion: of two lines that read alike, the survivor is named as the deleted one was |
| `BlameUndo.UndoRestores` | frontend/src/lib/blameMarks.ts:222-227 | after any run, making any edit and taking it back restores the state whole, every anchor in its place, exactly when every anchored line is safe from it: a condition on where the edit's ends and its text stand to the line's start |
| `BlameUndo.TypingRestores` | frontend/src/lib/blameMarks.ts:222-227 | for text typed and taken away that is: exactly unless it breaks an anchored line, named or not, at its very start without ending in a line break |
| `BlameUndo.UndoneTypingLosesAName` | frontend/src/lib/blameMarks.ts:222-227 | such an edit: `b`, a break and `c` typed ahead of a named line and taken away leave it naming nobody |
| `BlameNames.UndoneNames` | frontend/src/lib/blameMarks.ts:222-262 | after any run, for any edit made and undone and any line: whom the line then names |
| `BlameNames.UndoKeepsEntry` | frontend/src/lib/blameMarks.ts:222-262 | and so exactly when the column says of it what it said before |
| `BlameNames.UndoKeepsNames` | frontend/src/lib/blameMarks.ts:222-227 | undoing any edit brings every name back exactly when: within a line, it does not break one that names somebody at its very start by text that does not end in a break; across lines, no line inside names anybody, and where the first and last meet or stop being lines of their own, the anchor that is kept names what they named |
| `BlameNames.TypingKeepsNames` | frontend/src/lib/blameMarks.ts:222-227 | typing text and taking it away keeps every name exactly unless the line that starts there names somebody and the text breaks it without ending in a break |
| `BlameNames.AnchorLostWithoutAName` | frontend/src/lib/blameMarks.ts:222-227 | an anchor can be lost to an undone edit and no name with it |
| `GitStatus.TakeNext` | internal/git/status.go:134-140 | takes the record behind the cursor, or nothing at the end |
| `GitStatus.EntryOf` | internal/git/status.go:106-119 | only a rename takes a second record |
| `GitStatus.Parse` | internal/git/status.go:83-101 | the loop with its cursor is the fold over the records |
| `GitStatus.CountsComeBack` | internal/git/status.go:252-273 | ahead and behind counts read back as printed |
| `GitStatus.ReadsRecord` | internal/git/status.go:143-245 | every well-formed record is read as what it says, with everything behind it untouched |
| `GitStatus.ParseUndoesPrint` | internal/git/status.go:83-140 | reading printed records gives what they say whatever the paths hold; a rename's source is never read as a record; an unknown record costs nothing but itself |
| `GitStatus.StatusRoundTrip` | internal/git/status.go:83-273 | printing a status in porcelain v2 and parsing it is the identity |
| `BlameParser.Parser.OpenEntry` | internal/git/blame.go:213-230 | a group header opens an entry and registers a commit the first time its SHA appears |
| `BlameParser.Parser.ReadHeader` | internal/git/blame.go:233-254 | an extended header describes the open entry's commit and nothing else |
| `BlameParser.Parser.CloseEntry` | internal/git/blame.go:262-279 | a content line places the attribution at its own number, padding what was skipped, unless the number is beyond the output |
| `BlameParser.Parser.ReadLine` | internal/git/blame.go:200-209 | content closes, a line outside an entry opens, anything else describes |
| `BlameParser.Parse` | internal/git/blame.go:162-180 | the parser object over the split output computes the fold |
| `BlameParser.CommitsAreFirstSeen` | internal/git/blame.go:213-230 | commits are in the order the output first names them |
| `BlameParser.ContentPlaces` | internal/git/blame.go:162-279 | a content line attributes exactly its own line to the entry's commit, whatever is skipped before it is unattributed, and nothing else moves |
| `BlameParser.AnyOutputIsSafe` | internal/git/blame.go:162-279 | for any output at all: no more lines than the output has, every entry unattributed or a valid index, commits distinct and in first-appearance order |
| `BlameParser.UncommittedIsAllZeros` | internal/git/blame.go:213-230 | for any output at all a commit is uncommitted exactly when its SHA is all zeros |
| `BlameFormat.DetailsDescribe` | internal/git/blame.go:233-254 | a commit's author, time and summary, printed with any other headers before, between and behind them, describe exactly that commit |
| `BlameFormat.GitNoiseIsGood` | internal/git/blame.go:233-254 | the headers git prints in those places (address and zone of the author, the committer, the file's name) are such others |
| `BlameFormat.ReadsEntry` | internal/git/blame.go:200-279 | one printed entry, of a commit named for the first time or of one seen before with headers repeated for it, takes the parser from n lines to n + 1 |
| `BlameFormat.BlameRoundTrip` | internal/git/blame.go:162-279 | printing a blame in porcelain format, whatever other headers stand among those read, and parsing it is the identity |
| `LineEndings.UniformOrMixed` | internal/watch/content.go:269-281 | the three counts agree exactly when every CR is followed by LF and every LF preceded by CR |
| `LineEndings.SaveUndoesLoad` | internal/watch/content.go:156-176 | a file that is not mixed, loaded and saved unchanged, gives back the very same bytes |
| `LineEndings.LoadUndoesSave` | internal/watch/content.go:156-176 | CR-free text saved as CRLF reads back as the same text, with the flag set exactly when it has a line break |
| `LineEndings.LoadedTextIsPlain` | internal/watch/content.go:287-295 | whatever the file held, the editor is shown line feeds alone |
| `LineEndings.ShownLineForLine` | internal/watch/content.go:269-295 | and the file's own text, line for line: each ending of whichever kind has become one line feed and nothing else has changed; it is read-only exactly when its endings differ |
| `TreePaths.InsideByParent` | frontend/src/lib/tree.ts:103-106 | what is inside a directory is what its parent is at or inside |
| `TreeBadges.MarkAncestors` | frontend/src/lib/gitStatus.ts:117-129 | every directory above the path is marked, escalating to a conflict and never back |
| `TreeBadges.BadgesFor` | frontend/src/lib/gitStatus.ts:79-96 | a directory is in conflict exactly when some conflicted path or rename source lies under it, and contains changes exactly when only unconflicted ones do |
| `TreeBadges.BadgeIsTheLastRecords` | frontend/src/lib/gitStatus.ts:79-113 | a path is badged by the last record of it, a whole directory's record being spelled with a slash behind, and `TreeBadges.UnreportedHasNoBadge` none otherwise |
| `TreeBadges.BadgeIsGitsLetter` | frontend/src/lib/gitStatus.ts:57-62 | the badge is the letter git printed for the working tree, or for the index when the working tree is unchanged; a conflict has its own |
| `TreeBadges.RollUpIsWhatLiesBelow` | frontend/src/lib/gitStatus.ts:79-129 | on the paths as reported: a directory is in conflict exactly when a conflicted record lies below it or moved from below it, and bare exactly when none does |
| `TreeBadges.RollUpIgnoresOrder` | frontend/src/lib/gitStatus.ts:79-96 | whatever the record order |
| `Outline.WalkRows` | frontend/src/lib/tree.ts:526-538 | the recursive walk ends, by a measure on what is listed below each directory |
| `Outline.RowsAreWhatIsShown` | frontend/src/lib/tree.ts:526-538 | the rows are an outline (each subtree contiguous, directories first) of exactly what is reachable through open directories, each path once |
| `Outline.WalkIsDeep` | frontend/src/lib/gitStatus.ts:260-269 | a row's depth is the number of separators in its path |
| `Outline.SiblingsAsListed` | frontend/src/lib/tree.ts:526-538 | the rows of each directory's entries are exactly its listing, in the order it lists them, once it is the root or shown and open, and none otherwise |
| `ChangedTree.PlaceAncestors` | frontend/src/lib/gitStatus.ts:233-257 | all directories above a path are filed, each under its parent, once |
| `ChangedTree.FileAll` | frontend/src/lib/gitStatus.ts:214-231 | what is filed is exactly the reported paths and their ancestors, ancestors as directories |
| `ChangedTree.InOrderSorts` | frontend/src/lib/gitStatus.ts:274-283 | siblings are rearranged, none lost: directories first, then by name, letter case aside |
| `ChangedTree.ChangedRows` | frontend/src/lib/gitStatus.ts:214-283 | the rows are exactly the reported paths and all their ancestors, each once, in depth-first outline order, with depth equal to the number of separators, and among one directory's entries the directories first and then by name |
| `FileTree.InvAlways` | frontend/src/lib/tree.ts:326-342 | in every run each listing holds its own directory's entries, each name once |
| `FileTree.AncestryOf` | frontend/src/lib/tree.ts:129-137 | the loop builds the chain of prefixes, empty segments dropped |
| `FileTree.ChainSteps` | frontend/src/lib/tree.ts:129-137 | each step of the chain lies directly in the one before |
| `FileTree.VisibleRows` | frontend/src/lib/tree.ts:526-538 | the visible rows are exactly what is listed, not filtered out and reachable through expanded directories, as deep as they are long, each directory's entries in the order it was listed |
| `FileTree.OpenDirs` | frontend/src/lib/tree.ts:550-558 | the root and exactly the expanded directories that have a row, each once |
| `FileTree.RevealShowsTarget` | frontend/src/lib/tree.ts:457-471 | after `reveal` the target is on screen, hidden or not, whenever every directory on its chain lists the next step |
| `FileTree.LocateShowsTarget` | frontend/src/lib/tree.ts:486-496 | so is a located file |
| `FileTree.RevealedRowOnScreen` | frontend/src/lib/tree.ts:457-538 | after any run of the tree a revealed, loaded path has exactly one row |
| `FileTree.LocatedRowOnScreen` | frontend/src/lib/tree.ts:486-538 | and so has a located one |
| `FileHistory.ChildrenAreTheLastListing` | frontend/src/lib/tree.ts:326-342 | after any run a directory holds the entries it was last listed with, each path its own name below it: a reload and a failure keep them |
| `FileHistory.StatusIsTheLastFetch` | frontend/src/lib/tree.ts:326-342 | and is loading, loaded or in error as its last fetch says |
| `FileHistory.ExpandedByTheLastWord` | frontend/src/lib/tree.ts:411-496 | a directory is expanded exactly when it is the root or was expanded, revealed, located into or restored, and not collapsed, or restored without, since |
| `FileHistory.AncestryIsAbove` | frontend/src/lib/tree.ts:129-137 | the chain of a path is exactly the path and the directories it lies in |
| `FileHistory.SelectedIsTheLastChoice` | frontend/src/lib/tree.ts:411-500 | what is selected is what was last selected, revealed, located or restored |
| `FileHistory.HiddenFollowsToggles` | frontend/src/lib/tree.ts:457-509 | since the last reveal, locate or restore the hidden filter is moved by its own toggle alone; `FileHistory.ChangedFollowsToggles` says it of the other, and `FileHistory.SweepSetsFilters` what those three set |
| `EditorTabs.TabIsHonest` | frontend/src/lib/editorTabs.ts:76-415 | in every run the baseline is a text read from or written to disk, a save in flight never coexists with a conflict, and an unresolved conflict differs from the baseline |
| `EditorTabs.DirtyBufferChangesOnlyByChoice` | frontend/src/lib/editorTabs.ts:284-415 | a dirty buffer changes by an edit or by taking the disk's text, and by nothing else |
| `EditorTabs.TypedTextSurvives` | frontend/src/lib/editorTabs.ts:284-415 | what the user typed last is in the buffer for as long as the tab is dirty |
| `EditorTabs.LastEditIsInTheBuffer` | frontend/src/lib/editorTabs.ts:284-415 | told from the run alone: from an edit on, for as long as the tab is dirty and the user has not typed again or taken the disk, the buffer is the text of that edit |
| `EditorTabs.SaveInFlight` | frontend/src/lib/useEditorTabs.ts:204-226 | while a save is in flight only typing moves the buffer, and the text being written is the one it began with |
| `EditorTabs.KeystrokesDuringSaveStayDirty` | frontend/src/lib/editorTabs.ts:316-326 | after a save the tab is dirty exactly when something else was typed meanwhile, and that text is still there |
| `EditorTabs.FailedSaveCostsNothing` | frontend/src/lib/editorTabs.ts:328-332 | a failed save leaves buffer and baseline as they would be without it |
| `EditorTabs.StaleConflictExactlyOnRevert` | frontend/src/lib/editorTabs.ts:381-392 | a re-read leaves a conflict other than the text just read exactly when the disk went back to the baseline under an unresolved one |
| `EditorTabs.RevertLeavesTheConflict` | frontend/src/lib/editorTabs.ts:381-392 | such a run: edited, changed by another, changed back, and the conflict still stands and blocks saving |
| `EditorDisk.CleanTabShows` | frontend/src/lib/useEditorTabs.ts:204-295 | with saves and re-reads in flight in any order beside other writers, a clean tab shows a text the file has held |
| `EditorDisk.SettledTabShowsTheDisk` | frontend/src/lib/useEditorTabs.ts:204-295 | from any state of any run, a clean tab goes on showing the disk for as long as nobody writes the file, exactly when the baseline, what every re-read in flight has sampled, what a save in flight has written and an unresolved conflict are all the text on disk |
| `EditorDisk.FreshReadShowsTheDisk` | frontend/src/lib/useEditorTabs.ts:279-295 | a re-read begun after the last write brings a clean, idle tab up to the disk |
| `EditorDisk.LateReadUndoesTheSave` | frontend/src/lib/useEditorTabs.ts:279-295 | a re-read begun before a save and returning after it puts the old text back into the clean buffer |
| `EditorDisk.WriteDuringSaveIsMissed` | frontend/src/lib/useEditorTabs.ts:204-226 | a write by another that lands while a save is in flight, and is re-read before it returns, is not noticed |
| `EditorTabs.KeepMineIsRemembered` | frontend/src/lib/editorTabs.ts:394-407 | keeping one's own text needs a save to take effect, and the same disk text raises nothing again |
| `EditorFile.FlagsAreTheFiles` | frontend/src/lib/editorTabs.ts:284-297 | in every run a ready tab may be edited, and is described, as the last read it took over says, and is saved with the line endings of the last it took anything from |
| `EditorFile.ReadsDoOneOfThree` | frontend/src/lib/editorTabs.ts:284-392 | a read that returns is taken over whole by an opening or clean tab, raises a conflict on one that differs from the disk as it was known, or changes nothing |
| `EditorFile.StatusIsTheOpenings` | frontend/src/lib/editorTabs.ts:284-305 | in every run a tab is loading until its opening read returns, and then ready or in error as that read was, for good |
| `EditorFile.SaveBeginsExactlyWhen` | frontend/src/lib/editorTabs.ts:76-95 | a save begins exactly on a ready, editable tab that differs from the disk, with no save in flight and no conflict, and writes the buffer |
| `EditorFile.ErrorIsTheLastTold` | frontend/src/lib/editorTabs.ts:299-345 | in every run an error is shown exactly from the failure of a read or a save to the next thing that goes well |
| `EditorStrip.Strip.Open` | frontend/src/lib/useEditorTabs.ts:131-147 | a file that has a tab is focused; any other gets a tab under a key never used before |
| `EditorStrip.Strip.Step` | frontend/src/lib/useEditorTabs.ts:204-295 | a step finds its tab by key and leaves the others as they were |
| `EditorStrip.Strip.Close` | frontend/src/lib/useEditorTabs.ts:232-246 | closing removes exactly that tab |
| `EditorStrip.LateResultsAreDropped` | frontend/src/lib/useEditorTabs.ts:113-129 | a call that returns after its tab was closed changes nothing, whatever was opened since |

## Left out

- StreamConn.Conn.Send: the drop counter is an unbounded number here; the 64-bit width of the original, which a connection would need exabytes to reach, is not modelled.
- PtySession.Session.Broadcast: chunks dropped because a consumer's own queue is full carry no loss report in the original, so no loss accounting spans both queues; channels are value fields of their consumer rather than shared objects.
- TerminalSession.Session.SocketOpens: each method says what it puts on its socket; the record of everything sent on any of them is kept beside, and no invariant rebuilds it from them. Encoding of frames as JSON and UTF-8, xterm's parsing and the ResizeObserver are not modelled; sizes are whatever the terminal reports.
- WatchPlan.MakePlan: groups come back as a map; the order in which `sorted` lists them, which only fixes the order of connections, is not modelled.
- WatchSession.Session.Pump: cancelling the context part-way through a watch, the pause before re-opening a watch that delivered nothing, and the wording of errors are not modelled; a watch is the events it delivered.
- WatchRun.BackoffIsCapped: delays are whole seconds and time does not pass; a wait may end at any moment.
- WatchRun.MarksBelong: a pump may mark any row of its group at any time after its list returned; which verdict it writes there is `WatchSession.Session.Pump`'s subject. The reason shown beside the phase, and the notices beside the rows, are not modelled.
- HealthPipeline.SettlesCurrent: overflow of the event queue is not modelled, nor is publishing latency.
- Binding.Resolve: path lengths are counted in characters where the original counts UTF-8 bytes; on prefixes of one path the two orders agree.
- ScopeRegistry.Registry.RewriteScopes: reading and writing the projects file, and their errors, are not modelled.
- BlameTracking.Update: a transaction holds at most one replacement, and one outside the document is ignored.
- GitStatus.Parse: running git and its unavailable states are not modelled.
- BlameParser.Parse: path validation and running git are not modelled; counts and times are 64-bit as on the original's platforms.
- LineEndings.SaveUndoesLoad: the size limits, the binary sniff, permissions and the atomic rename around a save are not modelled.
- ChangedTree.ChangedRows: lower-casing of names is a parameter, and a reported path is required to be neither empty nor absolute, since the walk would not end on one that is just a slash.
- FileTree.VisibleRows: icons, manifest heads, keyboard navigation and which open directories a change on disk touches are not modelled.
- EditorStrip.Strip.Open: restoring a saved strip reads files before it adds their tabs, so a file opened meanwhile can get a second tab; that path, tab selection, modes and the blame toggle are not modelled.
- Subprocesses, HTTP and WebSocket upgrades, tokens, bindings to the desktop shell, React rendering, CSS and themes: plumbing and presentation, with no state of their own that these properties need.
- Registry reordering, unique names, session normalisation, snapshot diffing and pane clamping: they would only add easy members.
