# Verification of the FPLinux runtime models

A Dafny 4.11 project that models the parts of the FPLinux user runtime that keep state apart from
drawing, and proves what they promise. `dafny verify dfyconfig.toml` checks it.

- **Lists.** `VirtualWindow`, `VirtualWindowLaws`, `PooledScreen`: the pool of at most sixteen slots
  that stands in for a list of any length, and that it refines the whole list. `VirtualList` and
  `ListView` are the window and its client in place. `IndexRules`, `ItemCommands`, `RowTracking` and
  `FormTracking`: focus, marks and item commands against rows with an identity.
- **Audio.** `AudioProtocol`: client, service and the queues between them as interleaved steps.
  `AudioRing`: the shared ring and the sleep hand-off. `AudioClient` and `AudioStream` are the
  client's code, tied to these steps.
- **Screens.** `WaitMachine`, `WaitLaws`: the screen stack and the wait machine with callbacks that
  call back. `NavigationLaws`: what a navigation does. `WaitCourse`: how an uncovered wait goes on.
  `Screens` is the code in place.
- **Input.** `InputTrace`, `InputDevices`, `InputSession`: device slots and the events they give.
  `InputFrames`: what is read of a frame against what is reported. `KeyLines`, `LineReader`,
  `KeyboardRuns`, `KeyboardForwarder`: the remote keyboard's batching and resynchronisation.
- **Preferences.** `Utf8`, `PrefsText`: the file's text. `PrefsPaths`, `Preferences`: publication and
  the synchronization of directories.
- **Images.** `AreaWeights`, `AreaScale`: the area filter and the fitted size.
- **Text input.** `Multitap`, `TextInput`, `Keypad`: composition, deadlines, gestures, the picker.
  `KeypadLaws`: what the gestures type and switch.
- **Display.** `PageFlip`, `GpuOutput`: page flips. `FrameDamage`, `UiFrame`: staged frames.
  `StatusScale`, `SoftkeyLayout`: the status bar's scale and the soft-key bar.
- **Shared.** `Arithmetic`, `Words`, `Basics`.

What a step meets in its environment (answers, failures, times, what another program does) is a
parameter, a script of such answers, or an arbitrary choice; a theorem about runs holds for all of
them. Pure functions say what an operation does; a class has the fields of the source's structure, and
each of its methods is proved to do what the function says. Ghost fields hold history: what was sent,
accepted, shown or made durable. `size_t` has 32 bits as on the target, so "no index" is 2^32 - 1;
counters and ticks of 32 bits wrap where the source lets them.

## Where the code does not do what it is taken to promise

- With more than sixteen slots wanted, rows in the view stay empty (`PooledScreen.CoverageIsExact`).
- A CLOSE that fails to send leaves its stream open (`AudioProtocol.FailedCloseOrphansTheStream`), and
  nothing else does (`AudioProtocol.OpenStreamIsOrphanedExactly`, `AudioProtocol.LostIsWhatFailed`).
- A multi-tap hold whose first emission is blocked loses a character (`Multitap.RetriedHold`).
- A directory that another program removes above the first one made, and that is made again before a
  synchronization succeeds, is not synchronized (`PrefsPaths.RemadeAncestorIsMissed`).
- `fplinux_status_scale` does not return for the scale 2^32 - 1 and an incomplete count
  (`StatusScale.SearchEndsUnlessTheScaleIsLargest`).
- include/fplinux/fplinux-drm-session.h:95-98 says that a completion error terminates presentation.
  lib/fplinux/fplinux-drm-session.c:752-780 does not remember one of a direct presentation
  (`PageFlip.DirectPresentationIsKnown`).
- include/fplinux/fplinux-audio-protocol.h:174-177 says that the next write to a sleeping ring sends a
  KICK; lib/fplinux/fplinux-audio-client.c:412-426 leaves it out when one stands for the same `read`.
  `AudioRing.KickIsLeftOutExactly` is the rule, `AudioRing.LeftOutKickIsMissed` a run that suffers from it.

## Model

| member | source | states |
|---|---|---|
| PooledScreen.PoolRefinesTheList | lib/fplinux/fplinux-ui-screen-model.c:165-327 | after every run of init, focus moves, scrolls, inserts, deletes, invalidations and resizes in which only the listed slots are filled, the bound rows are exactly first .. first+slots-1, row r in slot r % slots, and each shows the current data of its row at row * pitch |
| PooledScreen.RunKeepsInSync | lib/fplinux/fplinux-ui-screen-model.c:240-327 | every reachable screen is in sync with the full list |
| PooledScreen.StepKeepsInSync | lib/fplinux/fplinux-ui-screen-model.c:216-238 | filling exactly the listed slots is enough after any one operation |
| PooledScreen.UnlistedSlotIsUnchanged | lib/fplinux/fplinux-ui-screen-model.c:216-238 | a slot that is not listed shows a row whose data, number and place did not change |
| PooledScreen.CoverageIsExact | lib/fplinux/fplinux-ui-screen-model.c:200-214 | every row in the view is pooled in every run if and only if at most sixteen slots are wanted |
| PooledScreen.BigViewOutgrowsThePool | lib/fplinux/fplinux-ui-screen-model.c:200-214 | a concrete run in which a row in the view is not pooled because more than sixteen slots are wanted |
| PooledScreen.FocusIsVisibleExactlyWhenItFits | lib/fplinux/fplinux-ui-screen-model.c:154-180 | in every run the focused row is wholly in the view if and only if a row is no taller than the view |
| VirtualWindowLaws.ShowFocusShowsTheFocus | lib/fplinux/fplinux-ui-screen-model.c:154-180 | the offset stays in 0 .. max(0, count * pitch - view) with the focused row wholly visible, or at an end of the view when it does not fit |
| VirtualWindowLaws.ShowFocusIsTheLeastScroll | lib/fplinux/fplinux-ui-screen-model.c:165-180 | no other offset that shows the focus is nearer to the clamped target |
| VirtualWindowLaws.FocusKeepsItsPlace | lib/fplinux/fplinux-ui-screen-model.c:182-198 | when rows come or go the focused row keeps its place in the view wherever that is possible |
| VirtualWindowLaws.PoolHoldsConsecutiveRows | lib/fplinux/fplinux-ui-screen-model.c:216-238 | each pooled row is bound to the slot of its remainder and to no other |
| VirtualWindowLaws.BoundRowsArePooled | lib/fplinux/fplinux-ui-screen-model.c:216-238 | a slot is bound to a pooled row of its own remainder or to nothing |
| VirtualWindowLaws.SmallPoolCovers | lib/fplinux/fplinux-ui-screen-model.c:200-214 | with at most sixteen slots wanted, or at most sixteen rows, every row in view is pooled |
| VirtualWindowLaws.OneRowStepRebindsAtMostOneSlot | lib/fplinux/fplinux-ui-screen-model.c:255-263 | moving the focus by one row lists at most one slot |
| VirtualWindow.RebindList | lib/fplinux/fplinux-ui-screen-model.c:216-238 | the list holds exactly the slots whose row or data changed, in ascending order |
| VirtualList.VirtualList.ShowFocus | lib/fplinux/fplinux-ui-screen-model.c:165-180 | in place: clamps, then scrolls the least that shows the focus |
| VirtualList.VirtualList.KeepFocus | lib/fplinux/fplinux-ui-screen-model.c:190-198 | in place: restores the focus' place in the view |
| VirtualList.VirtualList.Bind | lib/fplinux/fplinux-ui-screen-model.c:216-238 | in place: the pool's size, first row, bindings, and exactly the slots to fill |
| VirtualList.VirtualList.SetFocus | lib/fplinux/fplinux-ui-screen-model.c:255-263 | in place: the new window and the slots to fill, the invariant kept |
| VirtualList.VirtualList.SetTop | lib/fplinux/fplinux-ui-screen-model.c:265-274 | in place: the new window and the slots to fill, the invariant kept |
| VirtualList.VirtualList.RowsInserted | lib/fplinux/fplinux-ui-screen-model.c:276-290 | in place: the new window and the slots to fill, the invariant kept |
| VirtualList.VirtualList.RowsDeleted | lib/fplinux/fplinux-ui-screen-model.c:292-306 | in place: the new window and the slots to fill, the invariant kept |
| VirtualList.VirtualList.Invalidate | lib/fplinux/fplinux-ui-screen-model.c:308-312 | in place: the new window and the slots to fill, the invariant kept |
| VirtualList.VirtualList.Resize | lib/fplinux/fplinux-ui-screen-model.c:314-327 | in place: the new window and the slots to fill, the invariant kept |
| VirtualList.VirtualList.constructor | lib/fplinux/fplinux-ui-screen-model.c:240-253 | a new window and the slots to fill, the invariant established |
| ListView.ListView.BindSlot | lib/fplinux/fplinux-ui-listview.c:1315-1353 | fills one slot with the data of its bound row and puts it at row * height |
| ListView.ListView.SizePool | lib/fplinux/fplinux-ui-listview.c:1355-1369 | makes the slots the pool needs |
| ListView.ListView.FillSlots | lib/fplinux/fplinux-ui-listview.c:1375-1395 | fills exactly the listed slots and leaves the others |
| ListView.ListView.ApplyWindow | lib/fplinux/fplinux-ui-listview.c:1397-1427 | after any window change every slot shows its row; a change of the row height fits the window again |
| ListView.ListView.BindSlots | lib/fplinux/fplinux-ui-listview.c:1375-1395 | the same for the slots of one list, without a new pool |
| ListView.ListView.FitWindow | lib/fplinux/fplinux-ui-listview.c:1397-1427 | fits the window to the row height and the view |
| ListView.ListView.Activate | lib/fplinux/fplinux-ui-listview.c:1429-1443 | an opened list shows its rows |
| ListView.ListView.SetFirstVisible | lib/fplinux/fplinux-ui-listview.c:1137-1163 | the offset is the one nearest to the row's place that shows the focus; every slot still shows its row |
| ListView.ListView.Select | lib/fplinux/fplinux-ui-listview.c:1173-1187 | moves the focus; every slot still shows its row |
| ListView.ListView.RowsInserted | lib/fplinux/fplinux-ui-listview.c:1530-1541 | rows inserted before the list is told: every slot shows its row and the focus keeps naming its row; nothing for an index past the end |
| ListView.ListView.RowsDeleted | lib/fplinux/fplinux-ui-listview.c:1543-1554 | rows deleted, at most those there are: every slot shows its row and the focus follows the rule for deleted rows; nothing past the end |
| ListView.ListView.Invalidate | lib/fplinux/fplinux-ui-listview.c:1517-1528 | changed rows are shown anew |
| ListView.ListView.SizeChanged | lib/fplinux/fplinux-ui-listview.c:1464-1477 | another view height: every slot shows its row |
| ListView.UnlistedSlotsStillShow | lib/fplinux/fplinux-ui-listview.c:1371-1427 | the slots that a window operation does not list still show their rows' data |
| ListView.ResizeListsMovedSlots | lib/fplinux/fplinux-ui-listview.c:1397-1427 | a new row height lists every slot that must move |
| IndexRules.InsertedNamesTheSameRow | lib/fplinux/fplinux-ui-screen-model.c:82-85 | the index rule for inserted rows keeps naming the same row, and an index past the end stays past it |
| IndexRules.DeletedNamesTheSameRow | lib/fplinux/fplinux-ui-screen-model.c:87-92 | the index rule for deleted rows names the same row, or none exactly when it is deleted |
| IndexRules.FocusDeletedFollowsTheRow | lib/fplinux/fplinux-ui-screen-model.c:94-109 | the focus names its row, or the row that took its place, or the new last row |
| IndexRules.DeletingWhatWasInsertedIsTheIdentity | lib/fplinux/fplinux-ui-screen-model.c:82-92 | inserting and deleting at the same place restores rows and index |
| IndexRules.MovedNamesTheSameRow | lib/fplinux/fplinux-ui-screen.c:4665-4675 | moved_index is the permutation that moving the row performs, and moving it back undoes it |
| ItemCommands.InsertedCommandsKeepTheirRows | lib/fplinux/fplinux-ui-screen.c:1015-1023 | after an insertion every item command names the row it named |
| ItemCommands.DeletedCommandsKeepTheirRows | lib/fplinux/fplinux-ui-screen.c:1025-1038 | after a deletion the commands of the deleted rows are gone and all others name their rows, in order |
| ItemCommands.MovedCommandsKeepTheirRows | lib/fplinux/fplinux-ui-screen.c:4677-4708 | after a move every item command names the item it named |
| ItemCommands.InsertThenDeleteRestoresCommands | lib/fplinux/fplinux-ui-screen.c:1015-1038 | insertion and deletion at the same place restore the commands |
| ItemCommands.CommandTable.Find | lib/fplinux/fplinux-ui-screen.c:901-926 | the place of a row's command |
| ItemCommands.CommandTable.Add | lib/fplinux/fplinux-ui-screen.c:901-926 | replaces the row's command of this id, or adds one behind the others |
| ItemCommands.CommandTable.RowsInserted | lib/fplinux/fplinux-ui-screen.c:1015-1023 | in place: the indices of an insertion |
| ItemCommands.CommandTable.RowsDeleted | lib/fplinux/fplinux-ui-screen.c:1025-1038 | in place: drops and renumbers in one pass |
| ItemCommands.CommandTable.RowMoved | lib/fplinux/fplinux-ui-screen.c:4701-4703 | in place: the indices of a move |
| RowTracking.RunKeepsWellFormed | lib/fplinux/fplinux-ui-listview.c:925-1101 | over any sequence of inserts, deletes, marks, selections and commands an exclusive list has exactly one mark, and focus, marks and commands name rows that exist |
| RowTracking.RunKeepsNaming | lib/fplinux/fplinux-ui-listview.c:953-1014 | over any sequence that spares a row, its focus and mark stay with it until a selection or a marking, and its commands are exactly those it had and was given |
| RowTracking.StepKeepsWellFormed | lib/fplinux/fplinux-ui-listview.c:925-1101 | each operation keeps the one mark, and focus, marks and commands on rows that exist |
| RowTracking.StepKeepsNaming | lib/fplinux/fplinux-ui-listview.c:953-1014 | a row that stays keeps its focus, mark and commands through every insert and delete |
| RowTracking.InsertThenDeleteIsTheIdentity | lib/fplinux/fplinux-ui-listview.c:953-1014 | deleting a row right after inserting it restores rows, focus, marks and commands |
| RowTracking.InsertionKeepsWellFormed | lib/fplinux/fplinux-ui-listview.c:953-977 | an insertion keeps the one mark |
| RowTracking.DeletionKeepsWellFormed | lib/fplinux/fplinux-ui-listview.c:979-1014 | a deletion moves the mark of an exclusive list to the new focus |
| RowTracking.RemovalByIndexIsByRow | lib/fplinux/fplinux-ui-listview.c:979-1014 | the index arithmetic on selection and radio mark does what the row-wise definition says |
| RowTracking.StoredList.SetMarked | lib/fplinux/fplinux-ui-listview.c:1069-1101 | marks by the list's kind |
| RowTracking.StoredList.SelectRow | lib/fplinux/fplinux-ui-listview.c:1173-1187 | the focus on the row; nothing for an index past the end |
| RowTracking.StoredList.AddCommand | lib/fplinux/fplinux-ui-screen.c:901-926 | the row has the command, once; false past the end |
| RowTracking.StoredList.Append | lib/fplinux/fplinux-ui-listview.c:925-951 | the first row gets focus and, in an exclusive list, the mark |
| RowTracking.StoredList.Insert | lib/fplinux/fplinux-ui-screen.c:3330-3345 | rows, focus, mark and commands after an insertion; false past the end |
| RowTracking.StoredList.RemoveRow | lib/fplinux/fplinux-ui-listview.c:979-1014 | the list view's part of a deletion |
| RowTracking.StoredList.Remove | lib/fplinux/fplinux-ui-screen.c:3347-3357 | rows, focus, mark and commands after a deletion; false past the end |
| FormTracking.Form.FocusNext | lib/fplinux/fplinux-ui-screen-model.c:111-122 | the next focusable item, cyclically, or none exactly when there is none |
| FormTracking.Form.PassFocus | lib/fplinux/fplinux-ui-screen.c:4633-4645 | the focus goes to the next focusable item |
| FormTracking.Form.Move | lib/fplinux/fplinux-ui-screen.c:4677-4708 | the items permuted, focus and commands still naming their items |
| FormTracking.Form.Delete | lib/fplinux/fplinux-ui-screen.c:4710-4738 | the item and its commands gone, focus on the same item or passed on |
| AudioProtocol.RunKeepsInv | lib/fplinux/fplinux-audio-client.c:219-324 | every interleaving of client, service, queues, timeouts and reconnects keeps the protocol invariant |
| AudioProtocol.StepKeepsInv | lib/fplinux/fplinux-audio-client.c:169-324 | each step keeps it |
| AudioProtocol.AcceptedAnswersAnswerTheirOpen | lib/fplinux/fplinux-audio-client.c:264-324 | in every run an accepted answer belongs to the OPEN of the call that accepts it |
| AudioProtocol.LateCountsAbandonedOpens | lib/fplinux/fplinux-audio-client.c:219-324 | `late` is always the number of abandoned unanswered OPENs of the live connection |
| AudioProtocol.OpenStreamsAreAccountedFor | include/fplinux/fplinux-audio-protocol.h:98-131 | a stream open at the service is held by the client, in an undelivered OPENED, in a CLOSE in flight, or one whose CLOSE failed, and in one place only |
| AudioProtocol.OpenStreamIsOrphanedExactly | lib/fplinux/fplinux-audio-client.c:48-54 | in every run a stream open at the service is held by the client, or in an OPENED or a CLOSE under way, if and only if no CLOSE of it failed to be sent on this connection |
| AudioProtocol.LostIsWhatFailed | lib/fplinux/fplinux-audio-client.c:48-54 | the streams left behind are exactly those whose CLOSE a step of the run could not send, with no end of the connection since |
| AudioProtocol.ClosedStreamsAreClosed | lib/fplinux/fplinux-audio-client.c:450-464 | in particular, when every CLOSE is sent, every stream open at the service is answered for |
| AudioProtocol.NothingIsLost | lib/fplinux/fplinux-audio-client.c:48-54 | only a CLOSE that fails to send loses a stream |
| AudioProtocol.FailedCloseOrphansTheStream | lib/fplinux/fplinux-audio-client.c:48-54 | a concrete run in which a failed CLOSE leaves a stream open that nobody holds |
| AudioClient.AudioClient.HangUp | lib/fplinux/fplinux-audio-client.c:56-65 | all streams end with the connection |
| AudioClient.AudioClient.Receive | lib/fplinux/fplinux-audio-client.c:98-167 | one answer or a fault |
| AudioClient.AudioClient.RequestStream | lib/fplinux/fplinux-audio-client.c:219-324 | returns exactly the stream that the script of answers grants; retry exactly when a present connection could not send the OPEN |
| AudioClient.AudioClient.AwaitAnswer | lib/fplinux/fplinux-audio-client.c:264-318 | the stream and the connection that the fate of its OPEN leaves: its own answer, the deadline or a fault |
| AudioClient.AudioClient.GiveUp | lib/fplinux/fplinux-audio-client.c:305-309 | a timeout counts the OPEN as late |
| AudioClient.AudioClient.TakeAnswer | lib/fplinux/fplinux-audio-client.c:274-304 | a late answer is dropped; otherwise the stream is returned exactly when it was opened, is mapped and not 0 |
| AudioClient.AudioClient.TakeLate | lib/fplinux/fplinux-audio-client.c:274-278 | a late answer is dropped and its stream closed |
| AudioClient.AudioClient.TakeStream | lib/fplinux/fplinux-audio-client.c:279-291 | the own answer's stream is held |
| AudioClient.AudioClient.TakeUseless | lib/fplinux/fplinux-audio-client.c:279-304 | an answer that cannot be used is closed |
| AudioClient.AudioClient.OpenStream | lib/fplinux/fplinux-audio-client.c:343-371 | a live stream in a free slot if and only if a slot is free and one of the two requests is granted; nothing is accepted otherwise |
| AudioClient.AudioClient.CloseStream | lib/fplinux/fplinux-audio-client.c:450-464 | the stream leaves its slot and its CLOSE is queued |
| AudioClient.AudioClient.Dispatch | lib/fplinux/fplinux-audio-client.c:471-494 | all answers read and dropped with the streams untouched, or, exactly for a hang-up or a failed read, every live stream over |
| AudioRing.ServiceReadsWhatWasAccepted | lib/fplinux/fplinux-audio-client.c:373-428 | in every interleaving the service reads a prefix of the accepted frames in order, at most `capacity` are outstanding and none unread is overwritten, across the wrap of the counters |
| AudioRing.KickIsLeftOutExactly | lib/fplinux/fplinux-audio-client.c:412-426 | in every interleaving a finished write that saw the service sleep leaves its KICK out if and only if an earlier write sent one with the same loaded `read`, and every write between them saw the service sleep and sent none |
| AudioRing.LeftOutKickIsMissed | lib/fplinux/fplinux-audio-client.c:412-426 | a concrete run in which the service, woken by that KICK, sleeps again without reading and then stays asleep over a write that sends none |
| AudioRing.SleepingServiceWasKicked | lib/fplinux/fplinux-audio-client.c:394-426 | a service asleep over frames of a finished write: that write saw it sleep, and tried to KICK unless an earlier KICK stood for it by that rule |
| AudioRing.StandingKickStands | lib/fplinux/fplinux-audio-client.c:412-426 | the two fields `kicked` and `kick_read` are the last KICK sent since a write that saw the service awake |
| AudioRing.BeginLeavesRoom | lib/fplinux/fplinux-audio-client.c:394-400 | the room computed from an old `read` is never too much, and a short write fills the ring |
| AudioRing.RunKeepsInv | include/fplinux/fplinux-audio-protocol.h:155-187 | every step of client and service keeps the ring invariant |
| AudioStream.ClientWriteInOne | lib/fplinux/fplinux-audio-client.c:373-428 | a whole write is the sequence of ring steps that the interleavings are made of |
| AudioStream.CopyAllPours | lib/fplinux/fplinux-audio-client.c:401-408 | copying frame by frame and in two parts give the same ring |
| AudioStream.AudioStream.Write | lib/fplinux/fplinux-audio-client.c:373-428 | the frames accepted, the ring after them, and the KICK decision |
| AudioStream.AudioStream.Publish | lib/fplinux/fplinux-audio-client.c:409-426 | stores the counter and sends or suppresses the KICK |
| AudioStream.AudioStream.CopyIn | lib/fplinux/fplinux-audio-client.c:401-408 | both parts of the copy |
| AudioStream.AudioStream.Queued | lib/fplinux/fplinux-audio-client.c:430-448 | frames written and not yet heard; none when `heard` is ahead |
| AudioStream.RingCapacity | include/fplinux/fplinux-audio-protocol.h:234-242 | the least power of two of at least a quarter of the rate |
| Words.MaskIsRemainder | include/fplinux/fplinux-audio-protocol.h:155-158 | masking with capacity - 1 is the remainder |
| Words.WordKeepsRemainder | include/fplinux/fplinux-audio-protocol.h:155-158 | a frame's index survives the wrap of its counter at 2^32 |
| WaitLaws.RunKeepsInv | lib/fplinux/fplinux-ui-screen.c:2547-2745 | every run of wait begin and end, navigation, timers, keys and callbacks that call back keeps the stack and wait invariant |
| WaitLaws.DoneRunsOnceOnTheOrigin | include/fplinux/fplinux-ui-screen.h:652-662 | `done` runs at most once per wait, with the origin on top and no runtime choice open |
| WaitLaws.CancelRunsOnceBeforeTheEnd | lib/fplinux/fplinux-ui-screen.c:2641-2652 | `cancel` runs at most once and never after the wait's end |
| WaitLaws.AlertsNeverFlash | lib/fplinux/fplinux-ui-screen.c:2600-2630 | a shown alert that finishing removes was up at least 500 ms, and none is shown before 500 ms |
| WaitLaws.NoWaitIsForgotten | lib/fplinux/fplinux-ui-screen.c:2632-2639 | between callbacks a wait without a timer is shown and not ending, or covered by another screen |
| WaitLaws.ShownAlertLiesOnItsOrigin | lib/fplinux/fplinux-ui-screen.c:2566-2579 | a shown wait alert lies directly on its origin |
| WaitLaws.ElapsedIsNotMore | lib/fplinux/fplinux-ui-screen.c:2600-2630 | what the wrapping tick says has elapsed is never more than what has |
| WaitLaws.StepKeepsInv | lib/fplinux/fplinux-ui-screen.c:2271-2745 | each step keeps the invariant |
| WaitLaws.FinishKeepsCore | lib/fplinux/fplinux-ui-screen.c:2581-2598 | finishing removes the alert and leaves the origin on top |
| WaitLaws.ShowAlertKeepsCore | lib/fplinux/fplinux-ui-screen.c:2566-2579 | showing the alert keeps stack and history |
| Screens.Screens.WaitOnTop | lib/fplinux/fplinux-ui-screen.c:2557-2564 | no screen of the application is above |
| Screens.Screens.WaitStackChanged | lib/fplinux/fplinux-ui-screen.c:2632-2639 | a waiting step runs once nothing is above |
| Screens.Screens.DropWait | lib/fplinux/fplinux-ui-screen.c:2654-2663 | the wait goes with its origin or alert |
| Screens.Screens.DeleteScreen | lib/fplinux/fplinux-ui-screen.c:2271-2294 | the screen goes, and a wait over it |
| Screens.Screens.ShowWaitAlert | lib/fplinux/fplinux-ui-screen.c:2566-2579 | the alert on top, its time noted |
| Screens.Screens.TakeOffAlert | lib/fplinux/fplinux-ui-screen.c:2581-2590 | the alert off the stack and deleted |
| Screens.Screens.FinishWait | lib/fplinux/fplinux-ui-screen.c:2581-2598 | the wait over; whether `done` runs |
| Screens.Screens.StepWait | lib/fplinux/fplinux-ui-screen.c:2600-2630 | the timer's whole step: the alert never before its delay, `done` never before its time |
| Screens.Screens.Cancel | lib/fplinux/fplinux-ui-screen.c:2641-2652 | `cancel` once |
| Screens.Screens.End | lib/fplinux/fplinux-ui-screen.c:2724-2745 | ending with the timer due at once and no cancel any more; nothing otherwise |
| Screens.Screens.Begin | lib/fplinux/fplinux-ui-screen.c:2665-2722 | a new wait over the current screen, its alert due after the delay; nothing without a screen or during another wait |
| Screens.Screens.PopScreensTo | lib/fplinux/fplinux-ui-screen.c:2482-2507 | all screens above the target go |
| Screens.Screens.ReplaceTop | lib/fplinux/fplinux-ui-screen.c:2441-2460 | the top replaced |
| Screens.Screens.ChangeScreens | lib/fplinux/fplinux-ui-screen.c:2411-2507 | what each navigation does to the stack, to the screens and to a wait, stated without its body |
| Screens.Screens.FinishNavigation | lib/fplinux/fplinux-ui-screen.c:2362-2368 | the change, then the wait's check |
| Screens.Screens.DismissAlert | lib/fplinux/fplinux-ui-screen.c:1659-1695 | the alert off before its listener runs |
| Screens.Screens.ForgetAlert | lib/fplinux/fplinux-ui-screen.c:1682-1688 | the alert deleted unless it was pushed again |
| KeyLines.PressesComeUnderFinalModifiers | common/host/fplinux-usb-keyboard.c:591-629 | in a resynchronisation every press of an ordinary key is sent when the receiver's modifiers are the final ones |
| KeyLines.ResyncedKeys | common/host/fplinux-usb-keyboard.c:591-629 | the four phases take any key state to the snapshot |
| KeyLines.ReleasedKeys | common/host/fplinux-usb-keyboard.c:631-662 | the two release phases leave no key down |
| KeyLines.PhaseReplays | common/host/fplinux-usb-keyboard.c:567-589 | one phase changes exactly the keys of its class and direction |
| KeyLines.TextIsShort | common/host/fplinux-usb-keyboard.c:516-522 | a formatted line fits the line buffer |
| KeyboardForwarder.KeyboardForwarder.Flush | common/host/fplinux-usb-keyboard.c:524-540 | what was buffered is sent, `pressed` becomes `pending` |
| KeyboardForwarder.KeyboardForwarder.QueueEvent | common/host/fplinux-usb-keyboard.c:542-565 | the line is buffered or the buffer flushed first; `pending` is the replay of all lines |
| KeyboardForwarder.KeyboardForwarder.Append | common/host/fplinux-usb-keyboard.c:560-561 | the line's bytes behind those in the buffer |
| KeyboardForwarder.KeyboardForwarder.Buffer | common/host/fplinux-usb-keyboard.c:560-564 | the line and its effect on `pending` |
| KeyboardForwarder.KeyboardForwarder.QueueStateChanges | common/host/fplinux-usb-keyboard.c:567-589 | one phase's lines, in code order |
| KeyboardForwarder.KeyboardForwarder.Resync | common/host/fplinux-usb-keyboard.c:591-629 | the receiver equals the snapshot |
| KeyboardForwarder.KeyboardForwarder.QueueDifference | common/host/fplinux-usb-keyboard.c:601-625 | the lines of the four phases |
| KeyboardForwarder.KeyboardForwarder.Release | common/host/fplinux-usb-keyboard.c:631-662 | the releases of the keys held and a report, or nothing; no key left down |
| KeyboardForwarder.KeyboardForwarder.Take | common/host/fplinux-usb-keyboard.c:753-797 | one event: exactly what is sent and buffered for it, in and outside a loss |
| KeyboardForwarder.KeyboardForwarder.Forward | common/host/fplinux-usb-keyboard.c:664-813 | unless a send fails: what was sent is exactly what the inputs up to the first that ends the loop say, and then the release; true exactly when there is a first snapshot and no input ends the loop |
| InputTrace.LifeOfItsEvents | include/fplinux/fplinux-input-session.h:37-45 | the state of an id depends on its own events only |
| InputTrace.LivesAreInOrder | include/fplinux/fplinux-input-session.h:37-45 | the events of an id begin with ADDED and nowhere else, and nothing follows REMOVED |
| InputTrace.PressesAndReleasesAlternate | include/fplinux/fplinux-input-session.h:37-45 | neighbouring key events of one code of a device turn the key opposite ways |
| InputTrace.PrefixIsWellFormed | include/fplinux/fplinux-input-session.h:37-45 | every prefix of a well-formed trace is well formed |
| InputSession.ResyncedDeviceIsReportedAsItIs | lib/fplinux/fplinux-input-session.c:459-545 | from any state of an open device: events are lost, the synchronisation hands out its differences and ends, and reporting until nothing is left has reported exactly the keys the device holds; what is read then stays in step |
| InputDevices.AllReportsReachTheDevice | lib/fplinux/fplinux-input-session.c:302-386 | reporting ends, each report is a legal event, and what was reported is what the device holds |
| InputSession.EventKeepsTracked | lib/fplinux/fplinux-input-session.c:302-386 | the trace stays well formed with every event of a slot |
| InputSession.AddKeepsTracked | lib/fplinux/fplinux-input-session.c:139-195 | a device in a free slot gets an id no event had |
| InputDevices.WheelTravelIsKept | lib/fplinux/fplinux-input-session.c:388-411 | with C's truncating division no wheel travel is lost: reported steps and remainder make up what was read |
| InputDevices.ReadKeyKeepsOk | lib/fplinux/fplinux-input-session.c:438-457 | a queued key leaves the pending keys leading to the device's state |
| InputDevices.DrainFrame | lib/fplinux/fplinux-input-session.c:338-347 | the keys of a report, in order |
| InputDevices.Scan | lib/fplinux/fplinux-input-session.c:348-366 | after a synchronisation, the codes that differ |
| InputDevices.NextOf | lib/fplinux/fplinux-input-session.c:302-386 | the slot's next event |
| InputDevices.TakeDown | lib/fplinux/fplinux-input-session.c:319-337 | removal: releases of all pressed keys, then REMOVED |
| InputSession.InputSession.DrainSlot | lib/fplinux/fplinux-input-session.c:302-386 | the slot's next event extends the trace |
| InputSession.InputSession.NextPending | lib/fplinux/fplinux-input-session.c:302-386 | the first slot with something to report, and with a single one exactly its next report; none leaves every slot quiet |
| InputSession.InputSession.RemoveDevice | lib/fplinux/fplinux-input-session.c:127-137 | the slot is to be taken down |
| InputSession.InputSession.AddDevice | lib/fplinux/fplinux-input-session.c:139-195 | a free slot, a new id |
| InputSession.InputSession.Suspend | lib/fplinux/fplinux-input-session.c:625-635 | every device is to be taken down |
| InputSession.InputSession.Resume | lib/fplinux/fplinux-input-session.c:637-662 | what a scan finds is taken in with new ids; when the scan fails everything is closed again |
| InputSession.InputSession.ReadDevice | lib/fplinux/fplinux-input-session.c:459-545 | a frame of any reads up to its report: all of it is gathered, and its first event returned |
| InputSession.InputSession.TakeKey | lib/fplinux/fplinux-input-session.c:495-516 | outside a synchronisation the queue grows by exactly a press or release, and in one only libevdev's state follows it |
| InputSession.InputSession.LoseKeys | lib/fplinux/fplinux-input-session.c:459-545 | a synchronisation begins |
| InputSession.InputSession.NextEvent | lib/fplinux/fplinux-input-session.c:575-618 | what is pending comes first, then the first event of the frame that is read; the trace stays well formed |
| InputSession.InputSession.FinishReport | lib/fplinux/fplinux-input-session.c:388-411 | a report is complete |
| PrefsText.LoadingInvertsSaving | lib/fplinux/fplinux-ui-prefs.c:180-220 | loading what was saved gives the same keys and values in the same order, for every set of distinct valid keys and NUL-free UTF-8 values |
| PrefsText.UnescapingInvertsEscaping | lib/fplinux/fplinux-ui-prefs.c:366-378 | unescaping undoes escaping |
| PrefsText.EscapedIsOneLine | lib/fplinux/fplinux-ui-prefs.c:366-378 | a written value has no line break, no NUL and at most twice its length |
| PrefsText.WrittenLineIsRead | lib/fplinux/fplinux-ui-prefs.c:162-178 | no written line is rejected: it is read as its key and value |
| PrefsText.LoadedIsValid | lib/fplinux/fplinux-ui-prefs.c:180-220 | whatever a file holds, what is loaded has distinct valid keys and valid values |
| PrefsText.ParsedIsValid | lib/fplinux/fplinux-ui-prefs.c:162-178 | an accepted line has a valid key and a NUL-free UTF-8 value |
| PrefsText.IndexOf | lib/fplinux/fplinux-ui-prefs.c:165-172 | the first occurrence of a byte |
| Preferences.UnescapeInPlace | lib/fplinux/fplinux-ui-prefs.c:129-154 | in place: the unescaped bytes and a NUL, or failure for an unknown or unfinished escape |
| Preferences.SetReadsBack | lib/fplinux/fplinux-ui-prefs.c:87-127 | a set value is read back and every other key keeps its value |
| Preferences.RemoveForgetsOneKey | lib/fplinux/fplinux-ui-prefs.c:343-364 | a removed key has no value and every other key keeps its own |
| Preferences.Preferences.constructor | lib/fplinux/fplinux-ui-prefs.c:222-269 | what the file holds, nothing to save |
| Preferences.Preferences.ReadLines | lib/fplinux/fplinux-ui-prefs.c:180-210 | line by line, the last one with or without a line feed |
| Preferences.Preferences.Store | lib/fplinux/fplinux-ui-prefs.c:87-127 | in place or appended; changed exactly when something changed |
| Preferences.Preferences.Get | lib/fplinux/fplinux-ui-prefs.c:283-292 | the value or the fallback |
| Preferences.Preferences.Set | lib/fplinux/fplinux-ui-prefs.c:313-332 | false exactly for an invalid key or value, then nothing changes |
| Preferences.Preferences.Remove | lib/fplinux/fplinux-ui-prefs.c:343-364 | closes the gap; a missing key succeeds |
| Preferences.Preferences.WriteItem | lib/fplinux/fplinux-ui-prefs.c:383-386 | one written line |
| Preferences.Preferences.WriteItems | lib/fplinux/fplinux-ui-prefs.c:380-389 | the whole text |
| Preferences.Preferences.PrepareCut | lib/fplinux/fplinux-ui-prefs.c:431-456 | one missing directory; the first one made sets the stop |
| Preferences.Preferences.PrepareDirectory | lib/fplinux/fplinux-ui-prefs.c:421-479 | missing directories made from the top down, remembered whatever fails |
| Preferences.Preferences.SyncPublication | lib/fplinux/fplinux-ui-prefs.c:480-502 | ends, and synchronizes the directory and its ancestors up to the stop |
| Preferences.Preferences.Publish | lib/fplinux/fplinux-ui-prefs.c:527-567 | a new file in place, or the old one untouched |
| Preferences.Preferences.Synchronize | lib/fplinux/fplinux-ui-prefs.c:568-572 | the rename is durable; no directory made is left exactly when all were covered |
| Preferences.Preferences.Save | lib/fplinux/fplinux-ui-prefs.c:517-577 | durable if and only if no call into the file system fails and the name fits; then the file in place loads to what is in memory and its rename is durable |
| PrefsPaths.ParentIsShorter | lib/fplinux/fplinux-ui-prefs.c:409-419 | a parent is shorter unless it is the root or the current directory |
| PrefsPaths.CutIsOnChain | lib/fplinux/fplinux-ui-prefs.c:431-446 | the stop always lies on the chain of parents that the synchronization walks, which is why it ends |
| PrefsPaths.SyncLeavesWhatIsAboveTheStop | lib/fplinux/fplinux-ui-prefs.c:480-502 | a complete synchronization leaves exactly the directories whose parent is above the stop; none if and only if all were covered |
| PrefsPaths.FirstMadeDecides | lib/fplinux/fplinux-ui-prefs.c:443-447 | one preparation keeps everything covered if and only if the first directory it makes is not above an earlier stop |
| PrefsPaths.RemadeAncestorIsMissed | lib/fplinux/fplinux-ui-prefs.c:443-447 | a concrete case in which a directory made again above the stop is not synchronized |
| Utf8.DecodingInvertsEncoding | lib/fplinux/fplinux-text-input.c:400-429 | every scalar is decoded from its encoding, in its own number of bytes |
| Utf8.EncodingInvertsDecoding | lib/fplinux/fplinux-utf8.c:7-44 | every accepted sequence is the encoding of the scalar it is decoded to, so none is overlong |
| Utf8.EncodedIsValid | lib/fplinux/fplinux-utf8.c:7-44 | an encoded scalar before valid text is valid text |
| AreaScale.WeightsMakeUpTheArea | lib/fplinux/fplinux-ui-screen.c:2966-3042 | for every scaled pixel the weights sum to source_width * source_height |
| AreaWeights.SkippedBefore | lib/fplinux/fplinux-ui-screen.c:2994-3008 | a skipped source pixel before the first visited one has no overlap |
| AreaWeights.SkippedAfter | lib/fplinux/fplinux-ui-screen.c:2994-3008 | nor has one at which the visit stops, or a later one |
| AreaWeights.VisitedOverlaps | lib/fplinux/fplinux-ui-screen.c:2994-3008 | every visited source pixel has some |
| AreaWeights.WeightsSum | lib/fplinux/fplinux-ui-screen.c:2942-2950 | one side's weights sum to the source side |
| AreaWeights.SpreadSums | lib/fplinux/fplinux-ui-screen.c:2942-2950 | one source pixel's weights over all scaled pixels sum to the scaled side |
| AreaWeights.ScaledIsConserved | lib/fplinux/fplinux-ui-screen.c:2942-2950 | scaling one side conserves its sum |
| AreaScale.ScalingConservesTheTotal | lib/fplinux/fplinux-ui-screen.c:2966-3042 | over the whole result each channel's sums are the source's, times width and height |
| AreaScale.AlphaIsAMean | lib/fplinux/fplinux-ui-screen.c:3029-3038 | a scaled pixel's alpha lies between the covered alphas |
| AreaScale.ColourIsAMean | lib/fplinux/fplinux-ui-screen.c:3029-3038 | its colour lies between the colours of the covered pixels that are not transparent |
| AreaScale.TransparentAddsNoColour | lib/fplinux/fplinux-ui-screen.c:2961-2965 | neither a transparent pixel's colour nor an uncovered pixel changes the result |
| AreaScale.ConstantStaysConstant | lib/fplinux/fplinux-ui-screen.c:2966-3042 | an image of one visible colour keeps it |
| AreaScale.SumsAreBounded | lib/fplinux/fplinux-ui-screen.c:2952-2959 | every average is a channel value |
| AreaScale.SumsFit | lib/fplinux/fplinux-ui-screen.c:2952-2959 | for the largest image every sum is below 2^53 |
| AreaScale.SumPixel | lib/fplinux/fplinux-ui-screen.c:2986-3028 | the visited pixels' sums are the sums over the whole image |
| AreaScale.AddRow | lib/fplinux/fplinux-ui-screen.c:3004-3027 | one visited source row |
| AreaScale.PixelAt | lib/fplinux/fplinux-ui-screen.c:3029-3038 | the averages of one scaled pixel, for images and masks |
| AreaScale.Scale | lib/fplinux/fplinux-ui-screen.c:2966-3042 | the whole result, or nothing for an empty image or size |
| AreaScale.ProportionalIsNearest | lib/fplinux/fplinux-ui-screen.c:2910-2919 | within half a pixel of the exact proportion, unless raised to 1 |
| AreaScale.FitIsWithinTheBox | lib/fplinux/fplinux-ui-screen.c:2921-2940 | the fitted size lies in the box, is never larger than the image, and takes one side of the box when it differs |
| Multitap.StepsKeepValid | lib/fplinux/fplinux-multitap.c:172-279 | a pending index always names a character of its key |
| Multitap.PressesCycle | lib/fplinux/fplinux-multitap.c:212-242 | the n-th further press shows the n-th further character around the cycle |
| Multitap.HoldReplacesThePress | include/fplinux/fplinux-multitap.h:99-103 | a hold of a press that stepped the cycle gives the character shown before that press, then the digit |
| Multitap.HoldGivesTheDigit | include/fplinux/fplinux-multitap.h:99-103 | a hold of a first press gives the digit |
| Multitap.RetriedHold | lib/fplinux/fplinux-multitap.c:244-279 | retried until not blocked, such a hold gives both characters if and only if its first emission is not blocked; otherwise the first one is lost |
| Multitap.OnlyCharactersAreSent | lib/fplinux/fplinux-multitap.c:172-279 | the end marker 0 is never handed out |
| Multitap.Composer.EmitPending | lib/fplinux/fplinux-multitap.c:172-194 | hands the candidate out; only a block keeps it |
| Multitap.Composer.PressKey | lib/fplinux/fplinux-multitap.c:212-242 | steps, commits or begins |
| Multitap.Composer.HoldKey | lib/fplinux/fplinux-multitap.c:244-279 | finds the digit, steps back and emits |
| Multitap.Composer.SetLanguage | lib/fplinux/fplinux-multitap.c:151-157 | cancels |
| TextInput.TickBeforeTheDeadline | lib/fplinux/fplinux-text-input.c:264-317 | a tick before the reported deadline calls nothing and changes nothing |
| TextInput.TickSettlesWhatIsDue | lib/fplinux/fplinux-text-input.c:264-317 | a tick that is not blocked leaves nothing due, and one at the deadline makes a call or lets a key go |
| TextInput.GestureSurvivesBlocking | include/fplinux/fplinux-text-input.h:43-46 | a gesture is decided once: after a block the retry acts as the same hold or tap, whenever it comes |
| TextInput.StepKeepsOk | lib/fplinux/fplinux-text-input.c:96-376 | every operation keeps a pending index naming a character, and language and picker in range |
| TextInput.RunKeepsOk | lib/fplinux/fplinux-text-input.c:96-376 | so does every run |
| TextInput.DeadlineIsDue | lib/fplinux/fplinux-text-input.c:299-317 | the deadline is reached exactly when a part is due |
| TextInput.Deadline | lib/fplinux/fplinux-text-input.c:299-317 | no deadline exactly when nothing is held, pending or clearing |
| TextInput.PickerMovesAreInverse | lib/fplinux/fplinux-text-input.c:348-376 | vertical moves wrap in their column, and opposite moves undo each other, right and down going forward |
| Keypad.Keypad.CommitPending | lib/fplinux/fplinux-text-input.c:77-87 | only a block keeps the held digit |
| Keypad.Keypad.ControlAction | lib/fplinux/fplinux-text-input.c:96-128 | the action of # or *, kept for a retry when blocked |
| Keypad.Keypad.Compose | lib/fplinux/fplinux-text-input.c:130-145 | the press with its saturated interval |
| Keypad.Keypad.PressKey | lib/fplinux/fplinux-text-input.c:161-193 | controls, digits, numeric mode |
| Keypad.Keypad.HoldDigit | lib/fplinux/fplinux-text-input.c:195-209 | the digit's hold |
| Keypad.Keypad.Release | lib/fplinux/fplinux-text-input.c:211-233 | the gesture decided and acted on |
| Keypad.Keypad.ClearPress | lib/fplinux/fplinux-text-input.c:235-249 | the first erasure and the first repeat |
| Keypad.Keypad.Tick | lib/fplinux/fplinux-text-input.c:264-297 | everything due, in order |
| Keypad.Keypad.OpenPicker | lib/fplinux/fplinux-text-input.c:319-332 | the picker opens after the commit |
| Keypad.Keypad.CancelHeld | lib/fplinux/fplinux-text-input.c:256-262 | holds stop, composition stays |
| Keypad.Keypad.ResetMode | lib/fplinux/fplinux-text-input.c:48-57 | the first language and case |
| Keypad.Keypad.MovePicker | lib/fplinux/fplinux-text-input.c:348-376 | the loop finds the last cell of the column |
| PageFlip.EveryRunIsSafe | lib/fplinux/fplinux-gpu-output.c:598-755 | in every run of render, CPU access, present, terminal switches and failures no page is written that is shown or that a flip may still show |
| PageFlip.NoWriteAfterAnError | include/fplinux/fplinux-drm-session.h:95-99 | after a completion error no run begins another write |
| PageFlip.NoWriteAfterAFailure | lib/fplinux/fplinux-gpu-output.c:140-160 | the output's error is final, and what is shown does not change any more through it |
| PageFlip.WritesGoToTheHiddenPage | lib/fplinux/fplinux-gpu-output.c:624-637 | a write begins on the other page, with nothing queued |
| PageFlip.PagesAlternate | lib/fplinux/fplinux-gpu-output.c:598-755 | a completed frame is the one shown, and the next goes to the other page |
| PageFlip.StepKeepsInv | lib/fplinux/fplinux-drm-session.c:683-780 | each step keeps the invariant |
| PageFlip.DirectPresentationIsKnown | lib/fplinux/fplinux-drm-session.c:752-780 | a direct presentation leaves it known what is shown if and only if it succeeds, is refused, or is of the shown page |
| PageFlip.FailedDirectPresentationExposes | lib/fplinux/fplinux-drm-session.c:752-780 | a concrete failed direct presentation after which the page taken for hidden may be shown |
| GpuOutput.DrmSession.WaitPresent | lib/fplinux/fplinux-drm-session.c:683-710 | the queued flip completed, or the error kept |
| GpuOutput.DrmSession.SubmitPresent | lib/fplinux/fplinux-drm-session.c:612-681 | a commit may show its page |
| GpuOutput.DrmSession.QueuePresent | lib/fplinux/fplinux-drm-session.c:712-750 | one flip pending |
| GpuOutput.DrmSession.PresentNow | lib/fplinux/fplinux-drm-session.c:752-780 | the page shown on success |
| GpuOutput.DrmSession.Release | lib/fplinux/fplinux-drm-session.c:534-544 | inactive once the flip is finished |
| GpuOutput.DrmSession.Acquire | lib/fplinux/fplinux-drm-session.c:545-559 | the shown page again |
| GpuOutput.GpuOutput.Render | lib/fplinux/fplinux-gpu-output.c:598-679 | drawn into the other page, not exposed, ready on success; no write after an error |
| GpuOutput.GpuOutput.BeginCpu | lib/fplinux/fplinux-gpu-output.c:692-716 | the page lent, not exposed |
| GpuOutput.GpuOutput.EndCpu | lib/fplinux/fplinux-gpu-output.c:718-735 | the page back |
| GpuOutput.GpuOutput.Present | lib/fplinux/fplinux-gpu-output.c:737-755 | the rendered page queued, another than the shown one |
| FrameDamage.PresentationPublishes | lib/fplinux/fplinux-ui-frame.c:173-285 | in every run a presentation publishes everything drawn that some damage call named; the published frame equals the drawn one if and only if every difference lies in the damaged rectangle |
| FrameDamage.PublishedChangesRarely | lib/fplinux/fplinux-ui-frame.c:173-285 | published pixels change only in a presentation or a resize |
| FrameDamage.ResizePublishesNothing | lib/fplinux/fplinux-ui-frame.c:185-208 | after another size nothing of the old frame stays published |
| FrameDamage.ClippingKeepsPixels | lib/fplinux/fplinux-ui-frame.c:223-235 | clipping loses no pixel of the frame |
| FrameDamage.JoinedIsLeast | lib/fplinux/fplinux-ui-frame.c:241-248 | the damage is the smallest rectangle around all damaged areas |
| FrameDamage.StepKeepsInv | lib/fplinux/fplinux-ui-frame.c:173-285 | each step keeps the invariant |
| UiFrame.UiFrame.TakeDamage | lib/fplinux/fplinux-ui-frame.c:216-250 | clipped and joined |
| UiFrame.UiFrame.Present | lib/fplinux/fplinux-ui-frame.c:252-285 | exactly the damaged rectangle copied and redrawn where the canvas lies |
| UiFrame.UiFrame.CopyArea | lib/fplinux/fplinux-ui-frame.c:265-276 | row by row, nothing outside the rectangle |
| UiFrame.UiFrame.Resize | lib/fplinux/fplinux-ui-frame.c:173-214 | new or cleared buffers; unchanged on failure |
| UiFrame.UiFrame.Rebuffer | lib/fplinux/fplinux-ui-frame.c:184-204 | larger buffers are new, others cleared |
| StatusScale.Scale | lib/fplinux/fplinux-status-screen.c:257-278 | exactly min(scale, floor(completed * scale / total)), by binary search |
| StatusScale.SearchEndsUnlessTheScaleIsLargest | lib/fplinux/fplinux-status-screen.c:266-276 | each step narrows the range if and only if it is not 0 .. 2^32 - 1, where the 32-bit sum wraps and the search never ends |
| StatusScale.ThresholdIsExact | lib/fplinux/fplinux-status-screen.c:268-270 | a count reaches the threshold computed in parts exactly when it fills that many pixels |
| StatusScale.IntermediatesFit | lib/fplinux/fplinux-status-screen.c:268-270 | no intermediate value leaves 64 bits |
| SoftkeyLayout.Share | lib/fplinux/fplinux-ui-softkey-layout.c:19-38 | no legend gets more than it needs, together they get all they need or all there is, and a cut one is at most a pixel behind any other |
| SoftkeyLayout.Layout | lib/fplinux/fplinux-ui-softkey-layout.c:6-56 | the boxes lie inside the margins with gaps between them, the middle one centred unless a neighbour is in the way |
| SoftkeyLayout.BoxesAreApart | lib/fplinux/fplinux-ui-softkey-layout.c:39-55 | the same for any fair sharing |
| VirtualWindowLaws.SetTopMeans | lib/fplinux/fplinux-ui-screen-model.c:265-274 | after a scroll to a row no offset that shows the focus wholly is nearer to the place of row min(row, count - 1), and it is that row's place when that shows the focus |
| VirtualWindowLaws.SetFocusMeans | lib/fplinux/fplinux-ui-screen-model.c:255-263 | after a focus move no offset that shows the new focus is nearer to the old one |
| VirtualWindowLaws.InsertionMeans | lib/fplinux/fplinux-ui-screen-model.c:276-290 | after an insertion the focus names its row, at its place in the view wherever the content reaches so far |
| VirtualWindowLaws.DeletionMeans | lib/fplinux/fplinux-ui-screen-model.c:292-306 | after a deletion the focus is its row or the one that took its place, at the same place in the view wherever the content reaches so far |
| VirtualWindowLaws.ResizeMeans | lib/fplinux/fplinux-ui-screen-model.c:314-327 | after a resize the focus stays, at its place in the view wherever the content reaches so far |
| VirtualWindowLaws.NearestIsUnique | lib/fplinux/fplinux-ui-screen-model.c:165-180 | at most one offset is nearest, so the laws above fix the result |
| RowTracking.MarkMeans | lib/fplinux/fplinux-ui-listview.c:1069-1101 | a marking changes one row: on is marked and off unmarked in a check list, on takes the mark alone in an exclusive one, everything else stays |
| RowTracking.MarkingBack | lib/fplinux/fplinux-ui-listview.c:1069-1101 | the opposite marking, or marking the row that had the exclusive mark, restores the list |
| RowTracking.SelectMeans | lib/fplinux/fplinux-ui-listview.c:1173-1187 | the selected row has the focus, everything else stays |
| RowTracking.CommandMeans | lib/fplinux/fplinux-ui-screen.c:901-926 | a command is on its row once and behind the earlier ones, everything else stays |
| RowTracking.DeletionMeans | lib/fplinux/fplinux-ui-listview.c:979-1014 | with a row go its mark and commands only; its focus goes to the next row or else the previous one, and an exclusive mark with it |
| AudioClient.AudioClient.AwaitRound | lib/fplinux/fplinux-audio-client.c:264-318 | one receive: the wait goes on, or ends with the stream of the answer to this very OPEN when it is mapped and not 0, and with none otherwise |
| AudioClient.AudioClient.RequestTwice | lib/fplinux/fplinux-audio-client.c:355-366 | asks again, on a new connection, exactly when the OPEN could not be sent on a present one; the second script then decides |
| AudioClient.AudioClient.OpenIn | lib/fplinux/fplinux-audio-client.c:343-371 | with a free slot: a stream in it exactly when one is obtained |
| AudioClient.AudioClient.TakeAll | lib/fplinux/fplinux-audio-client.c:471-489 | every answer read and dropped, or the connection given up |
| AudioClient.OlderAnswerIsLate | lib/fplinux/fplinux-audio-client.c:274-278 | counting tells the answer to this OPEN: its tag is the one waited for if and only if no late answer is expected |
| AudioClient.AcceptedOpenIsGranted | lib/fplinux/fplinux-audio-client.c:219-324 | a new connection whose HELLO and OPEN the service accepts at once gives the service's next stream |
| NavigationLaws.NavigationMeans | lib/fplinux/fplinux-ui-screen.c:2411-2507 | for any navigation from a reachable state: push puts the screen above the old stack; pop leaves all but the top and deletes it; replace deletes the top and puts the screen in its place; pop_to leaves the prefix that ends with the target and deletes exactly what was above; a choice covers and changes no screen; a wait goes exactly with its origin or alert, and takes its alert along; otherwise nothing changes |
| NavigationLaws.WaitingNavigationMeans | lib/fplinux/fplinux-ui-screen.c:2334-2368 | the same for a navigation that went on after the callback of the choice it closed |
| NavigationLaws.PopUndoesPush | lib/fplinux/fplinux-ui-screen.c:2411-2480 | pop right after push restores the stack, with the pushed screen deleted |
| WaitCourse.QuickWorkShowsNothing | lib/fplinux/fplinux-ui-screen.c:2665-2745 | from the idle event loop: work that ends shows no alert as long as the timer has not shown it, and the first step after the end finishes the wait: stack and screens as before, `done` on the origin |
| WaitCourse.SlowWorkShowsTheAlert | lib/fplinux/fplinux-ui-screen.c:2600-2630 | work that outlasts the delay by any time: the alert is up, and once the work ends it goes at once or when it has been shown for half a second by the tick word, and the wait is over: stack and screens as before, `done` on the origin |
| WaitCourse.EndedWaitGoesOn | lib/fplinux/fplinux-ui-screen.c:2581-2630 | a due step of an ended uncovered wait: over, or the timer at the rest of the alert's time |
| WaitCourse.WorkingWaitGoesOn | lib/fplinux/fplinux-ui-screen.c:2600-2630 | a due step of an uncovered wait whose work goes on: the alert on top, or the timer at the rest of the delay |
| KeyboardRuns.ReceiverFollowsTheKeyboard | common/host/fplinux-usb-keyboard.c:707-798 | outside a loss the receiver's keys, with the lines in the buffer, are the keyboard's: the last snapshot changed by every event since; after every report handled the buffer is empty |
| KeyboardRuns.EveryLineIsForwarded | common/host/fplinux-usb-keyboard.c:781-792 | without a loss the lines are the first resynchronisation and its report, then each report and each key event that is no repeat, once and in order |
| KeyboardRuns.LossIsMadeGood | common/host/fplinux-usb-keyboard.c:759-780 | what was in the buffer at SYN_DROPPED and what comes before the next report is not sent; that report sends the difference of what the receiver holds to the snapshot |
| KeyboardRuns.BufferHoldsTheUnreported | common/host/fplinux-usb-keyboard.c:542-565 | what a loss drops is the end of the lines since the last synchronisation event, all of them when their text fits the buffer |
| KeyboardForwarder.KeyboardForwarder.Follow | common/host/fplinux-usb-keyboard.c:707-798 | the loop handles exactly the inputs up to the first that ends it, and has sent and buffered what they say |
| KeyboardForwarder.KeyboardForwarder.Begin | common/host/fplinux-usb-keyboard.c:686-702 | the reset before any line, then the first resynchronisation; nothing more without a snapshot |
| KeyboardForwarder.KeyboardForwarder.Send | common/host/fplinux-usb-keyboard.c:785-792 | a line queued, and with a synchronisation event the buffer sent |
| LineReader.LinesAreRead | common/host/fplinux-usb-keyboard.c:516-522 | a reader of the format gives back exactly the lines that a text was written from |
| InputFrames.GatheringLosesNothing | lib/fplinux/fplinux-input-session.c:508-543 | outside a synchronisation every press and release of a frame is queued in order, libevdev's state follows them, and each axis of a pointer adds up; other events change nothing |
| InputFrames.ReadFrameIsReported | lib/fplinux/fplinux-input-session.c:302-386 | of a frame exactly the presses and releases that change a reported key are reported, in order and behind those still unread, then motion and wheel; the first is what reading the report returns, and the keys reported at the end are the old ones changed by each in turn |
| InputFrames.ReadTravelIsReported | lib/fplinux/fplinux-input-session.c:388-411 | a pointer's frame: motion is reported with the sums of its axes exactly when one is not 0, and clicks and remainder make up the wheel's travel |
| InputFrames.LastEventDecides | lib/fplinux/fplinux-input-session.c:413-436 | the last press or release of a reportable code decides whether it is reported as pressed |
| InputFrames.FrameIsReported | lib/fplinux/fplinux-input-session.c:302-386 | reporting a ready frame until nothing is left, key by key and then the pointer |
| InputSession.InputSession.ReadOne | lib/fplinux/fplinux-input-session.c:459-545 | what one read of the device leaves and returns |
| InputSession.InputSession.Move | lib/fplinux/fplinux-input-session.c:525-543 | a pointer's travel, axis by axis |
| InputSession.InputSession.ReportFrame | lib/fplinux/fplinux-input-session.c:517-524 | the report makes the frame ready and returns its first event |
| InputSession.InputSession.EndReading | lib/fplinux/fplinux-input-session.c:471-482 | nothing more to read ends a synchronisation, whose first difference is returned, or the reading |
| KeypadLaws.HashMeans | lib/fplinux/fplinux-text-input.c:96-128 | pressed and released, # sends what is composed and then, before half a second, ends the numbers or else goes to the next case, and after it switches the numbers |
| KeypadLaws.HashTapsCycle | lib/fplinux/fplinux-text-input.c:96-128 | any number of taps of # goes as many places around the cases, with or without sentences |
| KeypadLaws.StarMeans | lib/fplinux/fplinux-text-input.c:96-128 | pressed and released, * sends what is composed and then opens the symbols, or after half a second goes to the next language around their end |
| KeypadLaws.NumericDigitMeans | lib/fplinux/fplinux-text-input.c:161-193 | among numbers a digit sends what is composed and itself |
| KeypadLaws.DigitTapMeans | lib/fplinux/fplinux-text-input.c:130-233 | among letters a tapped digit composes its next character around its key in time, and otherwise its first once what was composed is sent |
| KeypadLaws.DigitHoldMeans | lib/fplinux/fplinux-text-input.c:195-233 | a held digit sends what was composed before it, and itself |
| KeypadLaws.LeftAloneIsSent | lib/fplinux/fplinux-text-input.c:264-297 | a composed character left alone for a second is sent |
| KeypadLaws.ClearRepeats | lib/fplinux/fplinux-text-input.c:235-297 | a held clear key erases at once, after half a second, and then every tenth of a second |
| PageFlip.CpuAccessComesBack | lib/fplinux/fplinux-gpu-output.c:660-755 | a rendered page is lent to the CPU, comes back and is queued, the page not changed by it |
| PageFlip.StepFailsExactly | lib/fplinux/fplinux-gpu-output.c:598-755 | the output fails if and only if it is used out of turn or one of its calls reports an error |
| PageFlip.SwitchShowsTheSamePage | lib/fplinux/fplinux-drm-session.c:534-559 | a terminal switch away and back shows the same page and only that |

## Left out

- Lists: LVGL objects, styles, drawing, marquee and callbacks; the depth counter of a row provider that calls back; keys consumed by a list.
- Lists: a row count whose content height leaves 32 bits; the coverage theorem assumes nineteen rows fit.
- Menus, dialogs, the date editor, line and settle scrolling, and the assignment of command keys: they would add simpler members.
- Waits: the application pushing the wait's own alert, which include/fplinux/fplinux-ui-screen.h:647-650 forbids; an alert destroyed by its own listener.
- Audio: HELLO and malformed packets beyond "a fault ends the connection"; KICK packets in the protocol machine; samples within a frame; the service beyond the steps that the protocol header states.
- AudioClient.AudioClient.Receive: a malformed packet, extra descriptors and a closed socket are one fault, because the client ends the connection for each of them alike.
- InputSession.InputSession.AddDevice: opening, classifying and grabbing a device are one answer, because a failure of any of them leaves the slot free alike.
- Input: memory that runs out while a key is queued; epoll, udev, grabbing and libevdev beyond the events they give; keys held when a device is opened, which the code does not report; the floating-point pointer motion, which is integer here.
- Keyboard: USB enumeration and transfer time-outs beyond success or failure; the receiver, of which only a reader of the line format is modelled; a signal, which ends the loop like the end of the inputs.
- Preferences: allocation failure, errno, permissions and ownership checks beyond failure; integers as values; other programs writing the file itself.
- Images: PNG decoding, strides and the byte order of pixels. `average` divides in floating point in the source; here it rounds exactly, and `AreaScale.SumsFit` bounds both operands below 2^53 as its comment requires.
- Text input: UTF-8 of key maps (they are sequences of characters), upper case, a missing callback, the selection of a symbol; milliseconds are unbounded.
- Display: GL and EGL state, buffer export, the guardian process, the active handler's own calls, closing; frames in direct mode, which have no second buffer.
- StatusScale.Scale: requires a scale below 2^32 - 1 for an incomplete count, because the search does not end otherwise.
- Status screen: text layout, kerning and glyphs.
