# MeshChat server: a verified model

This project models the store-backed state machines of the MeshChat chat server and proves
properties of all their runs. A database table is a map or a sequence, a row lock makes a transaction
one atomic step, and a service call is cut into several steps wherever the code reads outside the
lock, so that other callers may come in between. A transaction may always abort.

Each transaction appears twice: as a method of a class that changes the tables in place, branch by
branch like the code (`ChannelLog.ChannelStore`, `DirectPaging.DirectStore`,
`GroupMessages.MessageStore`, `GroupStore.GroupTables`, `SlowMode.CooldownStore`, `Hub.Hub`,
`Consumer.App`), and as a function from state to state. The method's contract ties it to the
function, states over the tables which columns it writes and exactly when it succeeds, and the
properties of runs are proved about the function.

| File | What it is about |
|---|---|
| `Common.dfy`, `Text.dfy`, `Pages.dfy` | int64 durations; trimming; the paged queries as selections by an ordering column |
| `ChannelLog.dfy`, `ChannelRuns.dfy`, `ChannelContents.dfy`, `ChannelDeletes.dfy` | the public channel: head row, message table and change log under one row lock |
| `ChannelFeed.dfy`, `ChannelHistory.dfy` | the sync feed with its sentinel row, and the message pages, read while the owner writes |
| `DirectMessages.dfy`, `DirectRelay.dfy`, `DirectPaging.dfy` | direct messages: get-or-create, idempotent send, acknowledgement, paging both ways |
| `Hub.dfy`, `Consumer.dfy`, `Pipeline.dfy`, `Delivery.dfy` | the websocket hub, the consumer loop, and what reaches whose queue |
| `Permissions.dfy`, `GroupMembers.dfy`, `BatchInvite.dfy`, `GroupStore.dfy`, `GroupRuns.dfy`, `GroupHistory.dfy` | group membership, ownership, moderation and settings |
| `GroupMessages.dfy`, `MessageHistory.dfy`, `MessageRights.dfy`, `TtlPaging.dfy`, `SlowMode.dfy` | group messages: references, edit history, deletion and who may do it, expiry, slow mode |

`dafny verify dfyconfig.toml` checks all of it.

## Where the atomic steps are

- Every channel, direct-message and group-message transaction locks a row first and is one step. The
  channel owner check reads a column no transaction writes and belongs to the step. The unlocked read
  in front of a channel delete, the reads before and after a direct-message transaction, the checks
  before a group message is inserted, and the two reads of a feed page are steps of their own.
- Join, Leave, Invite and both transfers check the group unlocked and again under its lock; any step
  may come in between. `UpdateGroup` reads and later writes the settings columns, `UpdateMessagePolicy` checks
  and later writes under the lock; each is two steps.
- SetGroupAdmin, MuteMember, BanMember and UpdateMemberPermissions read without a lock and write the
  whole member row (`internal/repo/group_repo.go:210-222`). Each is one step here; nothing is claimed
  for their interleavings.
- A broadcast takes the room's members first and sends afterwards. It is atomic with respect to
  Unregister, which would close a queue under it. In `Pipeline` commits may come between any two of
  its sends.
- A client is registered once, unregistered once, and subscribed only in between
  (`internal/transport/ws/handler.go:109-124`); these are the preconditions of the hub's methods.

## What turned out not to hold as such

- A channel message that is deleted by two racing requests gets two delete changes, because the
  transaction does not look at the tombstone again (`ChannelRuns.RacingDeletesAreBothLogged`). In all
  runs there is one delete change for each delete transaction (`ChannelDeletes.DeletesAreCounted`),
  and a delete change is the only one exactly when the row was not yet deleted at its commit
  (`ChannelDeletes.OnlyDeleteIffNotYetDeleted`).
- A message's TTL limits its age, at all instants, exactly when it is at most 9223372036 seconds; beyond
  that the product with `time.Second` wraps (`TtlPaging.VisibilityIsAge`). For messages up to a given age
  a longer TTL does exactly when it wraps to before them all (`TtlPaging.VisibilityIsAgeUpTo`).
- Slow mode keeps accepted sends a whole cooldown apart exactly when the cooldown is within the same
  bound and the key's remaining time is reported exactly (`SlowMode.CooldownIsKept`). A report rounded to
  whole seconds costs less than half a second, and no smaller loss can be promised
  (`SlowMode.CooldownIsKeptUpToRounding`).
- A walk through group messages returns every visible message exactly if no page of expired messages hides
  an older visible one (`TtlPaging.WalkIsCompleteIff`). Two overlapping sends are enough for a message to
  be hidden (`TtlPaging.OverlappingSendsHideAMessage`), because a send reads its clock before it takes the
  group's lock. Serial sends with a clock that does not go back hide none
  (`TtlPaging.SerialSendsWalkIsComplete`).
- `docs/API.md:1060` promises the messages with a greater seq for `after_seq`. Without `before_seq` the page
  is the one promised exactly if `after_seq` is positive or the whole conversation fits in one page
  (`DirectPaging.AfterAloneIsHonouredIff`, and `DirectPaging.AfterIsHonouredIff` with `before_seq`): 0 stands
  for no cursor. Two messages and a limit of one show it (`DirectPaging.ZeroAfterMissesAMessage`). A walk from
  0, with other callers between its pages, starts at the first message exactly if the first page that finds
  any messages finds them all (`DirectPaging.WalkFromZeroIsCompleteIff`).
- A closed group does not stay closed: a settings save that was read before the group was dissolved, and asks
  for no change of status, reopens it (`GroupHistory.LateSaveReopens`). A closed group stays closed exactly if
  no copy with another status is written to it (`GroupHistory.StaysClosedIff`). Such a late save is also the
  only thing that lowers the settings version (`GroupHistory.VersionFallsIff`).

## Model

| member | source | states |
|---|---|---|
| ChannelLog.ChannelStore.constructor | internal/service/public_channel_service.go:289-306 | A new channel has no messages and no changes, counters 0, profile version 1 and a clamped retention |
| ChannelLog.ChannelStore.CreateChannel | internal/service/public_channel_service.go:270-327 | A channel is created exactly if its trimmed name is not blank; name and bio are stored trimmed, and the owner is subscribed with nothing unread and everything seen |
| ChannelLog.ChannelStore.UpdateProfile | internal/service/public_channel_service.go:343-367 | New profile as given, retention clamped if asked for, both counters up by one, one profile change appended; it succeeds exactly if the next seq is free, and on any error nothing is changed |
| ChannelLog.ChannelStore.CreateMessage | internal/service/public_channel_service.go:410-438 | Next message id, next seq, version 1, the given type and content and the head's peer as author; message row and change row inserted together or not at all |
| ChannelLog.ChannelStore.UpdateMessage | internal/repo/public_channel_repo.go:190-226 | An edit leaves exactly the given type and content in the row, one version up and under the next seq, with creation as it was, and every other row unchanged; a tombstone likewise leaves nothing; unknown row and edit of a deleted row are the only errors of their kind, and they change nothing |
| ChannelLog.ChannelStore.DeleteMessage | internal/service/public_channel_service.go:509-572 | Undisturbed, exactly the owner may delete; a deleted row is answered as it is and nothing is written; any other one becomes a tombstone |
| ChannelLog.ProfileTxWrites | internal/service/public_channel_service.go:343-367 | A profile transaction succeeds exactly if the next seq is free, and writes the columns asked for and one change |
| ChannelLog.CreateTxWrites | internal/service/public_channel_service.go:410-438 | A creation succeeds exactly if next seq and next id are free, and stores the given type and content |
| ChannelLog.UpdateTxWrites | internal/service/public_channel_service.go:467-492 | Errors and columns of an edit and of a tombstone, row by row |
| ChannelContents.RunHoldsLastWrite | internal/service/public_channel_service.go:467-492 | In every run each row holds the type and content of its last accepted edit, or of its creation, or of a tombstone |
| ChannelContents.StepProfile | internal/service/public_channel_service.go:343-367 | The profile changes only by the owner's update, to what it asks for |
| ChannelContents.OthersDoNothing | internal/service/public_channel_service.go:509-515 | Whatever anybody but the owner asks for has no effect at all |
| ChannelContents.PendingDeleteWasChecked | internal/service/public_channel_service.go:509-529 | A delete transaction is pending only for a row that the owner found present and not deleted |
| ChannelContents.UndisturbedDelete | internal/service/public_channel_service.go:509-572 | A check and its transaction with nothing in between do what DeleteMessage does |
| ChannelRuns.NextSeqIsFree | internal/repo/public_channel_repo.go:153-188 | No stored row uses the next seq or message id, so the unique indexes never make a transaction fail |
| ChannelRuns.UpdateAppends | internal/service/public_channel_service.go:467-492 | An update fails exactly for a missing row or an edit of a deleted one; otherwise it appends one change and keeps creation time and creator |
| ChannelRuns.RunKeepsGood | internal/repo/public_channel_repo.go:57-78 | In any interleaving the invariant is kept, the log only grows, what it holds is never rewritten, rows only get newer |
| ChannelRuns.TablesAreFoldOfLog | internal/service/public_channel_service.go:410-438 | In every reachable state change seqs are 1..LastSeq, ids 1..LastMessageID, replaying the log gives head and message table, each row repeats its last change, its version counts its changes, and LastSeq is the sum of the versions plus ProfileVersion - 1 |
| ChannelRuns.MessageSeqsDistinct | internal/service/public_channel_service.go:467-492 | No two message rows share a seq |
| ChannelRuns.TombstoneIsPermanent | internal/service/public_channel_service.go:514-557 | Once deleted, a message stays deleted with type `deleted` and empty content in every run, and all its later changes say so |
| ChannelRuns.SerialDeleteIsLast | internal/service/public_channel_service.go:514-557 | With serial requests a deleted message has exactly one delete change, its last; any other message has none |
| ChannelRuns.RacingDeletesAreBothLogged | internal/service/public_channel_service.go:514-557 | Two deletes that both pass the unlocked read add two delete changes |
| ChannelDeletes.DeletesAreCounted | internal/service/public_channel_service.go:530-557 | In every run: as many delete changes as delete transactions, and deleted exactly if there was one |
| ChannelDeletes.OnlyDeleteIffNotYetDeleted | internal/service/public_channel_service.go:530-557 | A delete transaction's change is the message's only one exactly if the row is not yet deleted when it commits |
| Pages.AscendingIsTheNextPage | internal/repo/public_channel_repo.go:249-260 | For any table: each row of a page is the next one past the row before it, and a short page means none is left |
| Pages.AscendingIsSlice | internal/repo/dm_repo.go:140-150 | On a gap-free table the ascending page is a slice of the ordered rows |
| Pages.DescendingIsSlice | internal/repo/dm_repo.go:120-137 | Likewise for the descending page once reversed, with or without a bound |
| ChannelFeed.ListChannelChanges | internal/service/public_channel_service.go:633-684 | The truncating loop computes the page its specification gives, sentinel row included |
| ChannelFeed.PageIsExact | internal/service/public_channel_service.go:633-684 | A page is exactly the next min(limit, remaining) changes of the snapshot its rows came from; `has_more` iff that snapshot has more; the cursor is the last seq returned |
| ChannelFeed.LastPageReachesReportedHead | internal/service/public_channel_service.go:633-684 | A page without more leaves the cursor at or past the last seq it reports, although the head was read before the rows and others committed in between |
| ChannelFeed.FollowMissesNothing | internal/repo/public_channel_repo.go:249-260 | With writers before and inside every page, following `next_after_seq` yields each change after the cursor once, in order |
| ChannelFeed.FollowEndsCaughtUp | internal/service/public_channel_service.go:633-684 | A reader whose last page has no more is at the end of the log as it was read |
| ChannelFeed.FollowerMirrorsTables | internal/service/public_channel_service.go:633-684 | Such a reader, replaying from nothing, holds the versions, seqs, tombstones and counters of the tables |
| ChannelFeed.DrainIsRestOfLog | internal/service/public_channel_service.go:633-684 | Without writers the walk terminates with exactly the rest of the log |
| ChannelHistory.ListChannelMessages | internal/service/public_channel_service.go:610-631 | On any table: stored rows with the greatest ids below the bound, strictly descending, at most the limit; an id below the bound is left out only if the page is full of greater ones |
| ChannelHistory.PageGoesDown | internal/repo/public_channel_repo.go:236-247 | A page holds the next ids downwards without a gap, with their rows as they are now |
| ChannelHistory.WalkReturnsEveryMessage | internal/service/public_channel_service.go:610-631 | With writers between the pages, the walk returns each message there was at its first page once, in order, all of them once it ends |
| DirectMessages.CreateKeepsValid | internal/repo/dm_repo.go:93-117 | The send transaction keeps unique keys, gap-free and duplicate-free seqs and sender/recipient as the two participants; no index guards the seqs |
| DirectMessages.AckKeepsValid | internal/repo/dm_repo.go:162-194 | Acknowledging keeps all of that |
| DirectMessages.TransactionsExtend | internal/repo/dm_repo.go:162-194 | No transaction loses or rewrites a row; the first acknowledgement is final |
| DirectPaging.DirectStore.FindByClientMsgId | internal/repo/dm_repo.go:81-90 | Finds a row with the key exactly if there is one |
| DirectPaging.DirectStore.GetOrCreateConversation | internal/repo/dm_repo.go:51-78 | Undisturbed: answers the conversation of exactly these two users, in either argument order, new and empty if there was none, and even after an unseen commit; it fails exactly if there is none and the insert cannot be made, and then changes nothing |
| DirectPaging.DirectStore.CreateMessage | internal/repo/dm_repo.go:93-117 | One new row under the next seq with the given users, key and payload, pending and not acknowledged, and the conversation's counter and time; exact errors; a failing transaction consumes no seq |
| DirectPaging.DirectStore.AckMessage | internal/repo/dm_repo.go:162-194 | Exactly the recipient acknowledges; the row is acknowledged afterwards, since now or since the first time, and nothing else changes |
| DirectPaging.DirectStore.SendMessage | internal/service/dm_service.go:201-261 | Undisturbed: with a new key, success stores exactly one row with the payload and key given, from the user to the other user of the conversation, under the next seq, and the counter; with a known key it answers that row and writes nothing; the exact condition of success, for every outcome of the transaction; the tables stay valid |
| DirectPaging.SerialSendWrites | internal/service/dm_service.go:201-261 | The same of the specification, with its exact errors |
| DirectPaging.SerialSendKeepsValid | internal/service/dm_service.go:201-261 | A send keeps unique keys, gap-free seqs and participants |
| DirectPaging.SerialOpenWrites | internal/repo/dm_repo.go:51-78 | Opening answers the conversation of exactly these two users, and the exact condition of failure |
| DirectPaging.SerialSendIsRun | internal/service/dm_service.go:201-261 | For every payload and outcome the undisturbed send is the run of that one call among the overlapping ones: same tables, same answer |
| DirectPaging.SerialOpenIsRun | internal/repo/dm_repo.go:51-78 | Likewise for opening a conversation |
| DirectMessages.InsertTxWrites | internal/repo/dm_repo.go:51-78 | An insert succeeds exactly if neither the id nor a conversation of the two users exists |
| DirectMessages.CreateTxWrites | internal/repo/dm_repo.go:93-117 | Columns and exact errors of the send transaction |
| DirectMessages.AckTxWrites | internal/repo/dm_repo.go:162-194 | Columns and exact errors of an acknowledgement |
| DirectPaging.SerialSendTwice | internal/service/dm_service.go:223-246 | Sending the same key again answers with the same row and writes nothing, whatever the payload |
| DirectRelay.RunKeepsGood | internal/service/dm_service.go:223-246 | Any number of overlapping calls, aborts and unseen commits keep the tables valid and only extend them |
| DirectRelay.SendIsIdempotent | internal/service/dm_service.go:223-246 | All calls that succeed for one (conversation, sender, client_msg_id) answer with the same row, the only one with that key |
| DirectRelay.LoserFindsWinner | internal/service/dm_service.go:236-246 | A call whose insert failed against an existing row finds that row, whatever happens before its next read |
| DirectRelay.RowIsFinal | internal/repo/dm_repo.go:162-194 | A row keeps seq, users, key and payload in every run, and its first acknowledgement |
| DirectRelay.SeqsHaveNoGap | internal/repo/dm_repo.go:93-117 | Each conversation's seqs are exactly 1..LastMessageSeq, one row each |
| DirectRelay.OpenIsUnique | internal/repo/dm_repo.go:51-78 | All calls that open a conversation of two users, in either order, get the same one, with low < high |
| DirectRelay.MessagesAreBetweenParticipants | internal/service/dm_service.go:229-239 | Every message is between the two distinct users of its conversation |
| DirectPaging.ReverseInPlace | internal/repo/dm_repo.go:133-135 | The two-index loop leaves the array reversed |
| DirectPaging.DirectStore.ListMessagesBefore | internal/repo/dm_repo.go:120-137 | The newest rows before the bound, oldest first |
| DirectPaging.DirectStore.ListMessages | internal/service/dm_service.go:153-179 | Unknown conversations and strangers are turned away; a positive after_seq pages forwards, otherwise backwards |
| DirectPaging.AfterIsSlice | internal/repo/dm_repo.go:140-150 | The forward page is exactly the next messages after the cursor |
| DirectPaging.BeforeIsSlice | internal/repo/dm_repo.go:120-137 | The backward page is exactly the last messages before the bound, 0 being no bound |
| DirectPaging.ZeroAfterIsNewestPage | internal/service/dm_service.go:161-166 | after_seq 0 gives the newest page |
| DirectPaging.AfterIsHonouredIff | internal/service/dm_service.go:161-166 | The page is the next rows with a greater seq exactly if after_seq is positive or the backward page taken for 0 is the first one |
| DirectPaging.AfterAloneIsHonouredIff | internal/service/dm_service.go:161-166 | Without before_seq, exactly if after_seq is positive or the conversation fits in one page |
| DirectPaging.ZeroAfterMissesFirst | internal/service/dm_service.go:161-166 | Otherwise the page for 0 lacks the first message |
| DirectPaging.ZeroAfterMissesAMessage | internal/service/dm_service.go:153-179 | A reachable conversation of two messages in which that happens |
| DirectPaging.WalkFromZeroIsCompleteIff | internal/repo/dm_repo.go:140-150 | With other callers between the pages, a forward walk from 0 collects every message from the first on exactly if the first page that finds any finds them all |
| DirectRelay.SendRunStores | internal/service/dm_service.go:201-261 | A send nothing comes between, with a new key, stores its row under the next seq |
| DirectPaging.PageBefore | internal/repo/dm_repo.go:120-137 | A backward page is empty only at the start; its cursor is at least 1, never the sentinel 0 |
| DirectPaging.WalkBackIsComplete | internal/repo/dm_repo.go:120-137 | The backward walk joins up to exactly the messages 1..Last, in order |
| DirectPaging.WalkBackMissesNothing | internal/repo/dm_repo.go:120-137 | With other callers between the pages it returns the messages there were before its bound at the first page, once, in order, all of them once it ends |
| DirectPaging.PageAfter | internal/repo/dm_repo.go:140-150 | A forward page continues the timeline where the cursor stood, and a short one reaches its end |
| DirectPaging.WalkForwardMissesNothing | internal/repo/dm_repo.go:140-150 | From after_seq >= 1, with other callers between the pages, the forward walk collects exactly the later messages in order |
| DirectPaging.WalkForwardEndsCaughtUp | internal/repo/dm_repo.go:140-150 | If its last page is short it has collected every later message, the newest included |
| Hub.Client.Push | internal/transport/ws/hub.go:143-147 | Appends when there is room; otherwise the queue stays as it is and the client is disconnected |
| Hub.Hub.Register | internal/transport/ws/hub.go:46-59 | The client is added in no room; the two-way index stays in agreement |
| Hub.Hub.Unregister | internal/transport/ws/hub.go:61-76 | The client is in no room and in no room's set afterwards, other members stay, no empty set is left, although the loop deletes from the map it ranges over |
| Hub.Hub.Subscribe | internal/transport/ws/hub.go:78-89 | Exactly the named rooms are added, on both sides of the index |
| Hub.Hub.Unsubscribe | internal/transport/ws/hub.go:91-98 | Exactly the named rooms are removed, on both sides |
| Hub.Hub.RemoveFromRoom | internal/transport/ws/hub.go:231-239 | The client leaves one room, and a set that becomes empty is dropped |
| Hub.Hub.Broadcast | internal/transport/ws/hub.go:202-229 | In any order of the members the cached loop does to each of them what rendering for it alone would do, touches nobody else, keeps queues within capacity, and renders successfully at most once per user |
| Consumer.App.HandleEvent | internal/app/app.go:193-243 | For each of the eleven event types by name: whoever listens to the group, conversation or channel room of the event's own id gets exactly what rendering gives them, all others keep queue and flag; a blank conversation or channel id, or any other type, changes nobody |
| Consumer.IsForExactly | internal/app/app.go:193-243 | A client is meant by an event exactly if it listens to the room its type and id name, and there is at most one such room |
| Consumer.App.Consume | internal/events/redis_bus.go:41-67 | Handling events one by one leaves each client with what a fold over the events for that client alone gives |
| Consumer.QueueTakesWhatFits | internal/transport/ws/hub.go:202-229 | Over a list of events a queue takes, in order, the payloads that fit, and the client is disconnected exactly if there were more |
| Pipeline.ApplyGrows | internal/service/public_channel_service.go:754-794 | Every commit of any store leaves each stored row in place and not older |
| Pipeline.RunKeepsGood | internal/app/app.go:193-243 | The flow invariant holds in every run of commits, bus deliveries in any order, losses, renders and sends |
| Pipeline.DeliveredIsNotOlderThanItsCommit | internal/app/app.go:193-243 | What a client is sent for an event is at least as new as the commit that published it |
| Pipeline.DeliveriesNeverGoBack | internal/events/redis_bus.go:41-67 | Successive entries for one row in one client's queue follow that row's history |
| Pipeline.ColumnsNeverGoBack | internal/service/message_service.go:252-278 | In particular channel Version and Seq, profile version, group EditCount, deletion and acknowledgement never go back, and equal versions show equal rows or profiles |
| Pipeline.DirectMessagesStayPrivate | internal/service/dm_service.go:305-357 | A direct message only reaches its sender and its recipient |
| Pipeline.ParticipantIsSenderOrRecipient | internal/service/dm_service.go:309-312 | A user may view a direct message exactly if it is its sender or its recipient |
| Delivery.NobodyIsPassedOver | internal/transport/ws/hub.go:202-229 | With anything in between, a member stays in a broadcast until it is sent a row not older than the commit, once, or its queue was full, or it was turned down, which for a permitted viewer only the renderer's other checks do |
| Delivery.BroadcastReachesExactlyTheDue | internal/transport/ws/hub.go:202-229 | With nothing in between, in any order of the members, exactly those who may view the event, are shown it and have room get one entry, the row as it is; all other queues stay as they are |
| Permissions.EffectiveExactly | internal/model/enums.go:103-132 | Except for the owner, a permission is effective exactly if role or allowance gives it and no denied bit is among it |
| Permissions.HoldsExactly | internal/model/enums.go:103-132 | For every role: the owner holds everything, an admin bits 9 to 16 and the defaults, a member the defaults, a restricted member nothing of its own; then what is allowed and not denied |
| Permissions.AdminBase | internal/model/enums.go:103-125 | An admin's own permissions are exactly bits 9 to 16 |
| Permissions.AboveExactly | internal/service/group_service.go:984-991 | The rank comparison: the owner is above everybody else, an admin above members and restricted ones, a member above these |
| Text.TrimCutsSpace | internal/service/group_service.go:409-424 | Trimming cuts off white space at both ends and nothing else |
| GroupMembers.ActiveMemberExactly | internal/service/group_service.go:915-941 | Who passes the membership check, with the exact errors |
| GroupMembers.ManageableExactly | internal/service/group_service.go:968-993 | Managing is allowed exactly to an active member of an active group who holds the permission and whose role is above the target's; exact errors |
| GroupStore.GroupTables.constructor | internal/repo/group_repo.go:28-39 | A new group is active, with default policy, settings version 1 and its owner as the only member |
| GroupStore.GroupTables.Join | internal/service/group_service.go:140-197 | Joining succeeds exactly in an active, open group for whoever is not banned; an active row stays as it was, any other one becomes role member, active since now, no mute, no overrides; nobody else is touched |
| GroupStore.GroupTables.Leave | internal/service/group_service.go:438-468 | Exactly an active member other than the owner leaves, keeping role and overrides, with the mute lifted; exact errors |
| GroupStore.GroupTables.Transfer | internal/service/group_service.go:551-600 | Likewise for both transfers, with their exact condition: the active target becomes owner, the old owner admin, no other role changes, even if they are the same row |
| GroupStore.GroupTables.Invite | internal/service/group_service.go:267-350 | On any error users and members are as before; it succeeds exactly for a permitted inviter and peers none of whom is the inviter or banned, and then every row of both tables is as promised |
| GroupStore.GroupTables.Dissolve | internal/service/admin_service.go:196-241 | The group is closed afterwards; a closed one is left untouched; otherwise only status and settings version change |
| GroupMembers.DissolvingTwiceIsOnce | internal/service/group_service.go:484-533 | Dissolving twice is dissolving once, and counts as at most one change of settings |
| GroupStore.GroupTables.UpdateMessagePolicy | internal/service/group_service.go:673-719 | Undisturbed: exactly an active member with the permission sets three non-negative values; nothing else but the settings version changes |
| GroupStore.GroupTables.EditCopy | internal/service/admin_service.go:152-183 | What UpdateGroup makes of the row it read: blank title and empty input leave their columns as they are, about and avatar are replaced by the trimmed input, owner, policy and default permissions stay, settings version is one more |
| GroupStore.GroupTables.UpdateGroup | internal/service/group_service.go:630-671 | Undisturbed, exactly an active member of an active group with the permission edits the settings |
| GroupStore.GroupTables.Save | internal/repo/group_repo.go:85-102 | The later write replaces every settings column, message policy included, whatever happened since the read, and never the owner |
| GroupStore.GroupTables.RequireManageableTarget | internal/service/group_service.go:968-993 | Who may manage whom, exactly, and the errors in their order |
| GroupStore.GroupTables.BanMember | internal/service/group_service.go:843-864 | Succeeds exactly for an active member who holds the permission and is above the target; the target is banned and unmuted, keeps the rest of its row, and no other row changes |
| GroupStore.GroupTables.MuteMember | internal/service/group_service.go:817-841 | Likewise; the target is muted until now plus the duration, or unmuted if that is not positive |
| GroupStore.GroupTables.UpdateMemberPermissions | internal/service/group_service.go:743-765 | Likewise; only the two overrides of the target change |
| GroupStore.GroupTables.SetGroupAdmin | internal/service/group_service.go:767-815 | Exactly an active member other than the owner can be appointed or dismissed, by whoever may; only its role changes, to admin, or from admin to member |
| GroupRuns.RunKeepsGood | internal/service/group_service.go:551-600 | Every interleaving keeps one active owner, the usual roles and statuses, and rows only for known users |
| GroupRuns.AlwaysOneOwner | internal/service/admin_service.go:337-382 | From a new group on, exactly one member has role owner, it is OwnerUserID and active; the others are admins or members; statuses are active, left or banned |
| GroupRuns.OwnerChangesByTransfer | internal/service/group_service.go:551-600 | The owner changes only by a transfer's commit, to its active target, and the old owner becomes an admin |
| GroupRuns.TransferToTheOwnerChangesNothing | internal/service/admin_service.go:337-382 | An admin transfer whose target became owner meanwhile writes one row twice and changes nothing but the settings version |
| GroupRuns.BanIsTerminal | internal/service/group_service.go:843-851 | In every run a banned member stays banned, and no member row is lost |
| GroupRuns.ReturnsOnlyAsCleanMember | internal/service/group_service.go:152-177 | Who is inactive and later active was let in by a join or an invitation in between, with role member, active since that commit, no mute and no overrides |
| GroupRuns.ManagedFromAbove | internal/service/group_service.go:968-993 | Who passes the target check is another active member of the active group, holds the permission, is not denied it, and has a role above the target's |
| GroupRuns.UndisturbedCalls | internal/service/group_service.go:125-197 | Check and transaction of a join or leave with nothing in between do what the transaction does |
| GroupRuns.UndisturbedInvite | internal/service/group_service.go:228-371 | Likewise for an invitation |
| GroupRuns.UndisturbedSettings | internal/service/group_service.go:673-719 | Likewise for a settings save and a message policy |
| GroupRuns.UndisturbedTransfer | internal/service/group_service.go:535-600 | Undisturbed, a transfer takes place exactly if the owner names another active member of an active group |
| GroupRuns.UndisturbedAdminTransfer | internal/service/admin_service.go:313-382 | From the admin console, exactly if another active member of an active group is named |
| GroupHistory.RestrictedOnlyFromAbove | internal/service/group_service.go:743-864 | In any reachable state a step bans somebody only from above in that sense, changes a mute only so or when the member leaves or is let in again, and overrides only so or when let in again |
| GroupHistory.BannedFromAbove | internal/service/group_service.go:843-864 | Over runs: whoever has become banned was banned at some step by somebody who then stood above |
| GroupHistory.AdminByAppointment | internal/service/group_service.go:954-966 | Over runs: whoever has become an admin was appointed at some step by the owner or a server administrator, or was the owner and handed over |
| GroupHistory.StaysClosedIff | internal/service/admin_service.go:152-241 | A closed group stays closed through a run exactly if no settings copy with another status is written to it |
| GroupHistory.ActiveOnlyBySave | internal/service/admin_service.go:152-194 | A group that is not active becomes active only by the write of a copy whose status is active |
| GroupHistory.VersionFallsIff | internal/repo/group_repo.go:85-102 | The settings version goes down exactly when a copy with a lower one is written |
| GroupHistory.LateSaveReopens | internal/service/group_service.go:630-671 | A save read before the group was dissolved makes it active again |
| BatchInvite.UniqueNonBlankStrings | internal/service/group_service.go:409-424 | The loop over the seen map equals its specification |
| BatchInvite.UniqueIsFirstOccurrences | internal/service/group_service.go:409-424 | The list has each non-blank value once, in the order of first occurrence |
| BatchInvite.PeersAreTrimmed | internal/service/group_service.go:373-407 | Trimming such a peer again, as the user lookup does, changes nothing |
| BatchInvite.InviteAllDone | internal/service/group_service.go:283-350 | The batch fails exactly if some peer is the inviter or banned; else all peers are active, in order, active ones keep their row, others are plain members since now, nobody else is touched |
| BatchInvite.InviteIsAllOrNothing | internal/service/group_service.go:228-371 | The same from the request as it comes: it succeeds exactly if moreover the group is active and the inviter is a server administrator or an active owner or admin; the ids returned are distinct |
| BatchInvite.MayInviteExactly | internal/service/group_service.go:244-262 | Who may invite, with the exact errors |
| GroupMessages.MessageStore.IncrementLastSeq | internal/repo/group_repo.go:224-241 | Bumps the counter of the locked group and returns it |
| GroupMessages.MessageStore.Send | internal/service/message_service.go:142-152 | The draft's row under the next seq, with counter, time and index, written together or not at all; exact errors |
| GroupMessages.MessageStore.Edit | internal/service/message_service.go:176-229 | Succeeds exactly for an active member's edit of its own undeleted message, and stores the payload asked for, one edit more, who and when, and a history row with the payload replaced; or nothing |
| GroupMessages.MessageStore.Delete | internal/service/message_service.go:552-618 | An undeleted message becomes deleted exactly by its sender within the window read with the group, or by an active member who holds the permission and whose role is above the sender's; only its status changes, to time, actor and reason; a second deletion changes nothing |
| GroupMessages.SendTxWrites | internal/service/message_service.go:142-152 | Columns and exact errors of the send transaction |
| GroupMessages.EditTxWrites | internal/service/message_service.go:176-229 | Columns and exact condition of an edit |
| GroupMessages.DeleteTxWrites | internal/service/message_service.go:552-618 | Columns and exact condition of a deletion |
| GroupMessages.CheckDraftExactly | internal/service/message_service.go:337-374 | A draft is acceptable exactly if what it replies to or forwards is allowed, in its group or the sender's, visible and not deleted, and it does not do both |
| MessageRights.DeletedOnlyByRight | internal/service/message_service.go:552-618 | Over runs: whatever has become deleted was deleted at some step by its sender within the window or from above, and the row says by whom, when and how |
| MessageRights.WrittenOnlyBySender | internal/service/message_service.go:176-229 | Over runs: a payload that has changed is the one its sender, an active member, asked for in some edit |
| MessageRights.UndisturbedSend | internal/service/message_service.go:97-152 | An acceptable draft sent at once is stored as it is, under the next seq |
| MessageRights.ForwardShownIff | internal/service/message_service.go:515-550 | A forwarded source is shown exactly to the admin view, or to a member of its group while it is visible and not deleted |
| MessageHistory.RunKeepsGood | internal/service/message_service.go:97-174 | Any interleaving of checks, sends, edits and deletions keeps indexes, references and histories |
| MessageHistory.ReferencesAreWellFounded | internal/service/message_service.go:337-374 | A reply names a message of its group with a smaller seq, a forward one inserted earlier, and no message does both |
| MessageHistory.ForwardRoot | internal/service/message_service.go:515-550 | Following forwards ends at a stored message that is not one, so there is no cycle |
| MessageHistory.ForwardIsNeverMissing | internal/service/message_service.go:515-522 | The `missing` branch is unreachable for stored messages |
| MessageHistory.HistoryLeadsFromSent | internal/service/message_service.go:183-229 | Edit rows lead without a gap from the payload as sent to the one stored, EditCount of them, the sender being the last editor if there are any; everything else of the row is as sent |
| MessageHistory.DeletionIsFinal | internal/service/message_service.go:560-618 | Time, actor and reason of the first deletion stay, and no edit follows it |
| TtlPaging.VisibilityIsAge | internal/service/helpers.go:32-37 | Visibility means an age of at most the TTL for all instants exactly if the TTL is at most 9223372036 seconds |
| TtlPaging.VisibilityIsAgeUpTo | internal/service/helpers.go:32-37 | For messages up to a given age it does so exactly if that holds or the wrapped TTL reaches back beyond that age |
| TtlPaging.ListMessages | internal/service/message_service.go:39-67 | The backward loop returns the page oldest first without the expired messages |
| TtlPaging.PageShowsTheYoung | internal/service/message_service.go:39-67 | For a TTL within that bound, of the rows before the bound that fit the page exactly those are shown that are at most the TTL old |
| TtlPaging.WalkIsCompleteIff | internal/repo/message_repo.go:78-92 | The walk to an empty page returns each visible message before the bound once, in order, exactly if each run of page-size many expired messages has only expired ones before it |
| TtlPaging.WalkIsComplete | internal/repo/message_repo.go:78-92 | That is so if expired messages are a prefix, although filtering follows the limit |
| TtlPaging.SerialSendsWalkIsComplete | internal/service/message_service.go:39-67 | Serial sends with a clock that does not go back make them a prefix, in every run |
| TtlPaging.ExpiredPageStopsWalk | internal/service/message_service.go:39-67 | A newest page that is expired as a whole ends the walk with nothing, which is the right answer exactly if no message of the group is visible |
| TtlPaging.OverlappingSendsHideAMessage | internal/service/message_service.go:141-152 | A reachable state, after two overlapping sends, in which a visible message is never returned |
| SlowMode.CooldownStore.HandleSend | internal/service/message_service.go:323-335 | A request is accepted exactly if it is valid and not limited by a live key; the key then lives for a cooldown, unless the sender may bypass it, and no other key changes |
| SlowMode.HandleExactly | internal/service/message_service.go:323-335 | The same of the specification: only a positive cooldown limits, and neither the owner nor whoever holds the bypass |
| SlowMode.ExemptAreNeverTurnedAway | internal/service/message_service.go:323-327 | Over runs: without a cooldown, and for the owner and whoever may bypass it, every valid request is accepted |
| SlowMode.AcceptedAfterExpiry | internal/service/message_service.go:154-156 | Until the key expires, up to the rounding of the report, nothing is accepted, and accepted sends are that far apart |
| SlowMode.CooldownIsKept | internal/service/message_service.go:323-335 | Accepted sends are a cooldown apart, for all runs of one-at-a-time requests, exactly if the cooldown is at most 9223372036 seconds and the report is exact |
| SlowMode.CooldownIsKeptUpToRounding | internal/service/message_service.go:323-335 | With a rounded report the distance kept is the cooldown less the slack of the rounding, and no greater one; in whole seconds that slack is under half a second |
| SlowMode.RateIsBounded | internal/service/message_service.go:116-118 | A window of length W holds at most floor(W/gap) + 1 accepted sends, gap being that distance |
| SlowMode.RateIsBoundedExactly | internal/service/message_service.go:116-118 | With an exact report, at most floor(W/cooldown) + 1 |

## Left out

- Counters: LastSeq, LastMessageID, Version, the group and conversation seqs are unbounded integers; 63-bit overflow is not modelled. EditCount is bounded by its signed 32-bit column.
- Time: instants are integers in nanoseconds; the rounding of timestamps by the database and of expiry times by the cooldown store is not modelled.
- Interleavings of whole-row writes of group members: SetGroupAdmin, MuteMember, BanMember and UpdateMemberPermissions are one step each, so a lost update between two of them does not occur here.
- Sending on a closed queue: a broadcast and Unregister do not overlap.
- Draining: the goroutine that writes queued messages to the socket is not modelled; in `Consumer` queues only fill, in `Pipeline` whether a queue is full is left open.
- Hub.Hub.Subscribe: one table of rooms whose keys carry the kind stands for the three tables of the hub; the three sets of methods are one.
- Pipeline.RunKeepsGood: group and channel access checks of the renderers are an arbitrary verdict per client; only the participant check of direct messages is modelled. Group settings and member events are left out: member rows have no version, and a late settings save may lower the version of the group row.
- Consumer.App.HandleEvent: the direct-message and channel services are present; a rendered view is a value given for event and user, its JSON is not modelled.
- Redis channel names and the decoding of envelopes: the bus is a multiset of envelopes, each enqueued after its commit, delivered in any order or lost.
- GroupStore.GroupTables.Invite: generated usernames do not clash, so the second attempt of `ensurePeerUserTx` does not occur.
- Message payloads, channel contents and profiles: opaque values that passed validation or did not; CID checks, JSON and trimming of texts are not modelled.
- MessageHistory.RunKeepsGood: what a call has read of group and membership is an input of its step, any state whatever; a sender's mute and permissions are inputs of the check. They do not bear on references and histories.
- GroupStore.GroupTables.UpdateGroup: the check of the avatar's CID is not part of it. In `GroupRuns` a settings save needs no permission, as from the admin console.
- UUIDs: drawn arbitrarily. A conversation id or direct-message id that is in use is reported as a duplicate key. So is a group message id, although its index covers the group as well (`internal/db/migrations/migrate.go:223`): the same id in two groups is not modelled.
- ChannelLog.ChannelStore.DeleteMessage: its contract is for a call nothing interleaves with; racing deletes are in `ChannelRuns` and `ChannelDeletes`.
- DirectPaging.DirectStore.SendMessage: its contract is for a call nothing interleaves with; overlapping calls are in `DirectRelay`.
- Friend mailbox, user profiles, file registration, later changes of channel subscriptions, login, admin console pages, configuration, HTTP and migrations: plumbing, or single steps with easy properties.
