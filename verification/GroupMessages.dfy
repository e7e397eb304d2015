/**
 The group message tables and the transactions that write them: sending under
 the group row's lock, editing and deleting under the message row's lock.
 */
module GroupMessages {
  import opened Common
  import opened Permissions
  import GroupMembers

  type GroupId = nat
  type MessageId = nat

  datatype Reason = SelfRetracted | AdminRemoved

  datatype Status = Normal | Deleted(at: Nanos, actor: UserId, reason: Reason)

  /** rowId is the table's serial primary key. */
  datatype Message = Message(
    rowId: nat,
    group: GroupId,
    sender: UserId,
    seqNo: nat,
    contentType: string,
    payload: string,
    replyTo: Option<MessageId>,
    forwardFrom: Option<MessageId>,
    status: Status,
    editCount: nat,
    lastEditedAt: Option<Nanos>,
    lastEditedBy: Option<UserId>,
    createdAt: Nanos)

  datatype EditRow = EditRow(group: GroupId, message: MessageId, editor: UserId, oldPayload: string, newPayload: string)

  /** index is this group's part of the unique index (group_id, seq) of the message table. */
  datatype Group = Group(
    lastSeq: nat,
    lastMessageAt: int,
    ttlSeconds: int,
    retractSeconds: int,
    index: map<int, MessageId>)

  datatype Store = Store(
    groups: map<GroupId, Group>,
    messages: map<MessageId, Message>,
    edits: seq<EditRow>,
    nextRow: nat)

  datatype MessageError =
    | GroupNotFound | MessageNotFound | Forbidden | MessageIsDeleted | InvalidPayload | RetractWindowExpired
    | InvalidReference | ReferenceNotVisible | DuplicateKey | OutOfRange | SenderNotFound
    | NotAllowed(why: GroupMembers.GroupError)

  const MAX_INT32 := 0x7FFF_FFFF
  const TWO_TO_THE_32 := 0x1_0000_0000

  // ------------------------------------------------------------- visibility

  /** isVisibleByTTL; the product with time.Second is an int64 and may wrap. */
  predicate IsVisibleByTtl(ttlSeconds: int, createdAt: Nanos, now: Nanos) {
    ttlSeconds <= 0 || createdAt >= now + WrapInt64(-ttlSeconds * SECOND)
  }

  // ---------------------------------------------------------------- sending

  datatype Draft = Draft(
    sender: UserId,
    group: GroupId,
    contentType: string,
    payload: string,
    replyTo: Option<MessageId>,
    forwardFrom: Option<MessageId>)

  /** validateReferences; inSourceGroup says whether the sender is an active member of the source's group. */
  function ValidateReferences(s: Store, d: Draft, perms: Bits, inSourceGroup: bool, now: Nanos)
    : Result<(), MessageError>
  {
    var reply := if d.replyTo.None? then Ok(()) else ValidateReply(s, d.group, d.replyTo.value, perms, now);
    if reply.Err? then reply
    else if d.forwardFrom.None? then Ok(())
    else ValidateForward(s, d.forwardFrom.value, perms, inSourceGroup, now)
  }

  function ValidateReply(s: Store, group: GroupId, target: MessageId, perms: Bits, now: Nanos)
    : Result<(), MessageError>
  {
    if !HasPermission(perms, PERM_REPLY) then Err(Forbidden)
    else if group !in s.groups || target !in s.messages || s.messages[target].group != group
    then Err(InvalidReference)
    else if s.messages[target].status.Deleted?
            || !IsVisibleByTtl(s.groups[group].ttlSeconds, s.messages[target].createdAt, now)
    then Err(ReferenceNotVisible)
    else Ok(())
  }

  function ValidateForward(s: Store, source: MessageId, perms: Bits, inSourceGroup: bool, now: Nanos)
    : Result<(), MessageError>
  {
    if !HasPermission(perms, PERM_FORWARD) then Err(Forbidden)
    else if source !in s.messages || s.messages[source].group !in s.groups then Err(InvalidReference)
    else if s.messages[source].status.Deleted?
            || !IsVisibleByTtl(s.groups[s.messages[source].group].ttlSeconds, s.messages[source].createdAt, now)
            || !inSourceGroup
    then Err(ReferenceNotVisible)
    else Ok(())
  }

  /** The unlocked part of SendMessage that looks at the message table. */
  function CheckDraft(s: Store, d: Draft, perms: Bits, inSourceGroup: bool, now: Nanos): Result<(), MessageError> {
    if d.group !in s.groups then Err(GroupNotFound)
    else if d.replyTo.Some? && d.forwardFrom.Some? then Err(InvalidReference)
    else ValidateReferences(s, d, perms, inSourceGroup, now)
  }

  /** IncrementLastSeq and the insert, in one transaction. */
  function SendTx(s: Store, d: Draft, id: MessageId, now: Nanos): Result<Store, MessageError> {
    if d.group !in s.groups then Err(GroupNotFound) else
      var g := s.groups[d.group];
      var n := g.lastSeq + 1;
      if id in s.messages || n in g.index then Err(DuplicateKey) else
        var m := Message(s.nextRow, d.group, d.sender, n, d.contentType, d.payload, d.replyTo, d.forwardFrom,
                         Normal, 0, None, None, now);
        Ok(Store(s.groups[d.group := g.(lastSeq := n, lastMessageAt := now / SECOND, index := g.index[n := id])],
                 s.messages[id := m], s.edits, s.nextRow + 1))
  }

  // -------------------------------------------------------- editing, deleting

  /** requireActiveMembership as the service calls it before it locks the message row. */
  function CheckMember(s: Store, group: GroupId, seen: GroupMembers.State, user: UserId)
    : Result<GroupMembers.Membership, MessageError>
  {
    if group !in s.groups then Err(GroupNotFound) else
      match GroupMembers.ActiveMember(seen, user)
      case Ok(m) => Ok(m)
      case Err(e) => Err(NotAllowed(e))
  }

  /** seen is the membership as read beforehand; payload is None when it does not fit the message's content type. */
  function EditTx(s: Store, user: UserId, group: GroupId, id: MessageId, payload: Option<string>,
                  seen: GroupMembers.State, now: Nanos): Result<Store, MessageError>
  {
    var _ :- CheckMember(s, group, seen, user);
    if id !in s.messages || s.messages[id].group != group then Err(MessageNotFound)
    else if s.messages[id].sender != user then Err(Forbidden)
    else if s.messages[id].status.Deleted? then Err(MessageIsDeleted)
    else if payload.None? then Err(InvalidPayload)
    else
      var m := s.messages[id];
      var count := (m.editCount + 1) % TWO_TO_THE_32;
      // the column edit_count is a signed 32-bit integer
      if count > MAX_INT32 then Err(OutOfRange) else
        Ok(s.(messages := s.messages[id := m.(payload := payload.value, editCount := count,
                                              lastEditedAt := Some(now), lastEditedBy := Some(user))],
              edits := s.edits + [EditRow(group, id, user, m.payload, payload.value)]))
  }

  /**
   How a message is deleted: retracted by its sender within the window read with
   the group, or removed from above, which looks up the sender's membership anew.
   */
  datatype Deleter =
    | Retract(seen: GroupMembers.State, retractSeconds: int)
    | Remove(seen: GroupMembers.State, current: GroupMembers.State)

  function DeleteTx(s: Store, user: UserId, group: GroupId, id: MessageId, how: Deleter, now: Nanos)
    : Result<Store, MessageError>
  {
    var operator :- CheckMember(s, group, how.seen, user);
    if id !in s.messages || s.messages[id].group != group then Err(MessageNotFound)
    else if s.messages[id].status.Deleted? then Ok(s)
    else
      var m := s.messages[id];
      var reason :- MayDelete(m, user, operator, how, now);
      Ok(s.(messages := s.messages[id := m.(status := Deleted(now, user, reason))]))
  }

  function MayDelete(m: Message, user: UserId, operator: GroupMembers.Membership, how: Deleter, now: Nanos)
    : Result<Reason, MessageError>
  {
    match how
    case Retract(_, retractSeconds) =>
      if m.sender != user then Err(Forbidden)
      else if retractSeconds > 0 && m.createdAt < now + WrapInt64(-retractSeconds * SECOND)
      then Err(RetractWindowExpired)
      else Ok(SelfRetracted)
    case Remove(seen, current) =>
      if !HasPermission(GroupMembers.PermissionsOf(seen, operator), PERM_DELETE_MESSAGES) then Err(Forbidden)
      else if m.sender !in current.members then Err(SenderNotFound)
      else if current.members[m.sender].role == Owner || !Outranks(operator.role, current.members[m.sender].role)
      then Err(Forbidden)
      else Ok(AdminRemoved)
  }

  // ------------------------------------------- what is asked and written, by column

  /** The caller is an active member of an active group that there is. */
  predicate Admitted(s: Store, group: GroupId, seen: GroupMembers.State, user: UserId) {
    group in s.groups && GroupMembers.IsActive(seen, user) && seen.group.status == "active"
  }

  predicate InGroup(s: Store, id: MessageId, group: GroupId) {
    id in s.messages && s.messages[id].group == group
  }

  /** Its sender, within the window. */
  predicate MayRetract(m: Message, user: UserId, retractSeconds: int, now: Nanos) {
    && m.sender == user
    && (retractSeconds <= 0 || m.createdAt >= now + WrapInt64(-retractSeconds * 1_000_000_000))
  }

  /** An active member who may delete messages and is above what the sender is now. */
  predicate MayRemove(m: Message, user: UserId, seen: GroupMembers.State, current: GroupMembers.State) {
    && GroupMembers.Acts(seen, user, 0x200)
    && m.sender in current.members && IsAbove(seen.members[user].role, current.members[m.sender].role)
  }

  predicate DeletesByRight(m: Message, user: UserId, how: Deleter, now: Nanos) {
    match how
    case Retract(_, retractSeconds) => MayRetract(m, user, retractSeconds, now)
    case Remove(seen, current) => MayRemove(m, user, seen, current)
  }

  function ReasonOf(how: Deleter): Reason {
    if how.Retract? then SelfRetracted else AdminRemoved
  }

  /** The draft's row under the next seq of its group, and the group's counter, time and index. */
  ghost predicate Inserted(s: Store, s': Store, d: Draft, id: MessageId, now: Nanos) {
    && d.group in s.groups && d.group in s'.groups && id !in s.messages && id in s'.messages
    && s'.groups == s.groups[d.group := s'.groups[d.group]]
    && s'.messages == s.messages[id := s'.messages[id]]
    && s'.edits == s.edits && s'.nextRow == s.nextRow + 1
    && var g, g', m := s.groups[d.group], s'.groups[d.group], s'.messages[id];
      && g'.lastSeq == g.lastSeq + 1 && g'.lastMessageAt == now / 1_000_000_000
      && g'.ttlSeconds == g.ttlSeconds && g'.retractSeconds == g.retractSeconds
      && g'.index == g.index[g.lastSeq + 1 := id]
      && m.rowId == s.nextRow && m.group == d.group && m.sender == d.sender && m.seqNo == g.lastSeq + 1
      && m.contentType == d.contentType && m.payload == d.payload
      && m.replyTo == d.replyTo && m.forwardFrom == d.forwardFrom && m.createdAt == now
      && m.status == Normal && m.editCount == 0 && m.lastEditedAt == None && m.lastEditedBy == None
  }

  /** The payload asked for, one edit more, and a row that records the payload it replaced. */
  ghost predicate EditMade(s: Store, s': Store, user: UserId, group: GroupId, id: MessageId, payload: string,
                           now: Nanos)
  {
    && InGroup(s, id, group) && id in s'.messages
    && s' == s.(messages := s.messages[id := s'.messages[id]], edits := s'.edits)
    && s'.edits == s.edits + [EditRow(group, id, user, s.messages[id].payload, payload)]
    && var m, m' := s.messages[id], s'.messages[id];
      && m' == m.(payload := payload, editCount := m'.editCount, lastEditedAt := Some(now), lastEditedBy := Some(user))
      && (m.editCount < 0x7FFF_FFFF ==> m'.editCount == m.editCount + 1)
  }

  lemma CheckMemberExactly(s: Store, group: GroupId, seen: GroupMembers.State, user: UserId)
    ensures var r := CheckMember(s, group, seen, user);
      && (r.Ok? <==> Admitted(s, group, seen, user))
      && (r.Ok? ==> r.value == seen.members[user])
      && (r == Err(GroupNotFound) <==> group !in s.groups)
      && (r.Err? ==> r.error == GroupNotFound || r.error.NotAllowed?)
  {
    GroupMembers.ActiveMemberExactly(seen, user);
  }

  lemma SendTxWrites(s: Store, d: Draft, id: MessageId, now: Nanos)
    ensures var tx := SendTx(s, d, id, now);
      && (tx == Err(GroupNotFound) <==> d.group !in s.groups)
      && (tx == Err(DuplicateKey) <==>
          d.group in s.groups && (id in s.messages || s.groups[d.group].lastSeq + 1 in s.groups[d.group].index))
      && (tx.Err? ==> tx.error == GroupNotFound || tx.error == DuplicateKey)
      && (tx.Ok? ==> Inserted(s, tx.value, d, id, now))
  {
  }

  /** Only its sender edits a message; the last condition fails at the largest count the column holds. */
  predicate Editable(s: Store, user: UserId, group: GroupId, id: MessageId, payload: Option<string>,
                     seen: GroupMembers.State)
  {
    && Admitted(s, group, seen, user) && InGroup(s, id, group)
    && s.messages[id].sender == user && !s.messages[id].status.Deleted? && payload.Some?
    && (s.messages[id].editCount + 1) % 0x1_0000_0000 < 0x8000_0000
  }

  lemma EditTxWrites(s: Store, user: UserId, group: GroupId, id: MessageId, payload: Option<string>,
                     seen: GroupMembers.State, now: Nanos)
    ensures var tx := EditTx(s, user, group, id, payload, seen, now);
      && (tx.Ok? <==> Editable(s, user, group, id, payload, seen))
      && (tx.Ok? ==> EditMade(s, tx.value, user, group, id, payload.value, now))
      && (tx == Err(MessageNotFound) <==> Admitted(s, group, seen, user) && !InGroup(s, id, group))
      && (tx == Err(Forbidden) <==>
          Admitted(s, group, seen, user) && InGroup(s, id, group) && s.messages[id].sender != user)
  {
    CheckMemberExactly(s, group, seen, user);
  }

  lemma MayDeleteExactly(m: Message, user: UserId, operator: GroupMembers.Membership, how: Deleter, now: Nanos)
    requires GroupMembers.ActiveMember(how.seen, user) == Ok(operator)
    ensures var r := MayDelete(m, user, operator, how, now);
      && (r.Ok? <==> DeletesByRight(m, user, how, now))
      && (r.Ok? ==> r.value == ReasonOf(how))
  {
    GroupMembers.ActsExactly(how.seen, user, PERM_DELETE_MESSAGES);
    if how.Remove? && m.sender in how.current.members {
      AboveExactly(operator.role, how.current.members[m.sender].role);
    }
  }

  lemma DeleteTxWrites(s: Store, user: UserId, group: GroupId, id: MessageId, how: Deleter, now: Nanos)
    ensures var tx := DeleteTx(s, user, group, id, how, now);
      && (tx.Ok? <==>
          && Admitted(s, group, how.seen, user) && InGroup(s, id, group)
          && (s.messages[id].status.Deleted? || DeletesByRight(s.messages[id], user, how, now)))
      && (tx.Ok? ==> tx.value == if s.messages[id].status.Deleted? then s else
          s.(messages := s.messages[id := s.messages[id].(status := Deleted(now, user, ReasonOf(how)))]))
      && (tx == Err(MessageNotFound) <==> Admitted(s, group, how.seen, user) && !InGroup(s, id, group))
  {
    CheckMemberExactly(s, group, how.seen, user);
    if Admitted(s, group, how.seen, user) && InGroup(s, id, group) {
      MayDeleteExactly(s.messages[id], user, how.seen.members[user], how, now);
    }
  }

  /** What a reply may point to: a message of the same group that is shown and not deleted. */
  predicate ReplyShown(s: Store, group: GroupId, target: MessageId, perms: Bits, now: Nanos) {
    && HasPermission(perms, 0x20) && group in s.groups && InGroup(s, target, group)
    && s.messages[target].status == Normal
    && IsVisibleByTtl(s.groups[group].ttlSeconds, s.messages[target].createdAt, now)
  }

  /** What may be forwarded: a message shown in its own group, to whose members the sender belongs. */
  predicate ForwardShown(s: Store, source: MessageId, perms: Bits, inSourceGroup: bool, now: Nanos) {
    && HasPermission(perms, 0x40) && source in s.messages && s.messages[source].group in s.groups && inSourceGroup
    && s.messages[source].status == Normal
    && IsVisibleByTtl(s.groups[s.messages[source].group].ttlSeconds, s.messages[source].createdAt, now)
  }

  lemma CheckDraftExactly(s: Store, d: Draft, perms: Bits, inSourceGroup: bool, now: Nanos)
    ensures CheckDraft(s, d, perms, inSourceGroup, now).Ok? <==>
      && d.group in s.groups && !(d.replyTo.Some? && d.forwardFrom.Some?)
      && (d.replyTo.Some? ==> ReplyShown(s, d.group, d.replyTo.value, perms, now))
      && (d.forwardFrom.Some? ==> ForwardShown(s, d.forwardFrom.value, perms, inSourceGroup, now))
  {
  }

  // ------------------------------------------------------------------ store

  class MessageStore {
    var groups: map<GroupId, Group>
    var messages: map<MessageId, Message>
    var edits: seq<EditRow>
    var nextRow: nat

    ghost function State(): Store
      reads this
    {
      Store(groups, messages, edits, nextRow)
    }

    constructor ()
      ensures State() == Store(map[], map[], [], 1)
    {
      groups, messages, edits, nextRow := map[], map[], [], 1;
    }

    /** IncrementLastSeq: bumps the locked group row and returns the seq it now carries. */
    method IncrementLastSeq(group: GroupId, at: Nanos) returns (r: Result<nat, MessageError>)
      modifies this`groups
      ensures group !in old(groups) ==> r == Err(GroupNotFound) && groups == old(groups)
      ensures group in old(groups) ==>
        var g := old(groups)[group];
        r == Ok(g.lastSeq + 1) &&
        groups == old(groups)[group := g.(lastSeq := g.lastSeq + 1, lastMessageAt := at / SECOND)]
    {
      if group !in groups {
        return Err(GroupNotFound);
      }
      var locked := groups[group];
      locked := locked.(lastSeq := locked.lastSeq + 1);
      locked := locked.(lastMessageAt := at / SECOND);
      groups := groups[group := locked];
      r := Ok(locked.lastSeq);
    }

    method Send(d: Draft, id: MessageId, now: Nanos) returns (r: Result<Message, MessageError>)
      modifies this
      ensures match SendTx(old(State()), d, id, now)
        case Ok(s) => State() == s && r == Ok(s.messages[id])
        case Err(e) => State() == old(State()) && r == Err(e)
      ensures r.Ok? ==> Inserted(old(State()), State(), d, id, now) && r.value == messages[id]
      ensures r == Err(GroupNotFound) <==> d.group !in old(groups)
      ensures r.Ok? <==>
        && d.group in old(groups) && id !in old(messages)
        && old(groups)[d.group].lastSeq + 1 !in old(groups)[d.group].index
    {
      SendTxWrites(State(), d, id, now);
      var rollback := groups;
      var n := IncrementLastSeq(d.group, now);
      if n.Err? {
        return Err(n.error);
      }
      var g := groups[d.group];
      if id in messages || n.value in g.index {
        groups := rollback;
        return Err(DuplicateKey);
      }
      var m := Message(nextRow, d.group, d.sender, n.value, d.contentType, d.payload, d.replyTo, d.forwardFrom,
                       Normal, 0, None, None, now);
      nextRow := nextRow + 1;
      messages := messages[id := m];
      groups := groups[d.group := g.(index := g.index[n.value := id])];
      r := Ok(m);
    }

    method Edit(user: UserId, group: GroupId, id: MessageId, payload: Option<string>, seen: GroupMembers.State,
                now: Nanos)
      returns (r: Result<Message, MessageError>)
      modifies this
      ensures match EditTx(old(State()), user, group, id, payload, seen, now)
        case Ok(s) => State() == s && r == Ok(s.messages[id])
        case Err(e) => State() == old(State()) && r == Err(e)
      ensures r.Ok? <==> old(Editable(State(), user, group, id, payload, seen))
      ensures r.Ok? ==>
        EditMade(old(State()), State(), user, group, id, payload.value, now) && r.value == messages[id]
      ensures r.Err? ==> State() == old(State())
    {
      EditTxWrites(State(), user, group, id, payload, seen, now);
      var checked := CheckMember(Store(groups, messages, edits, nextRow), group, seen, user);
      if checked.Err? {
        return Err(checked.error);
      }
      if id !in messages {
        return Err(MessageNotFound);
      }
      var m := messages[id];
      if m.group != group {
        return Err(MessageNotFound);
      }
      if m.sender != user {
        return Err(Forbidden);
      }
      if m.status.Deleted? {
        return Err(MessageIsDeleted);
      }
      if payload.None? {
        return Err(InvalidPayload);
      }
      var rollback := edits;
      edits := edits + [EditRow(group, id, user, m.payload, payload.value)];
      m := m.(payload := payload.value);
      m := m.(editCount := (m.editCount + 1) % TWO_TO_THE_32);
      m := m.(lastEditedAt := Some(now));
      m := m.(lastEditedBy := Some(user));
      if m.editCount > MAX_INT32 {
        edits := rollback;
        return Err(OutOfRange);
      }
      messages := messages[id := m];
      r := Ok(m);
    }

    method Delete(user: UserId, group: GroupId, id: MessageId, how: Deleter, now: Nanos)
      returns (r: Result<Message, MessageError>)
      modifies this
      ensures match DeleteTx(old(State()), user, group, id, how, now)
        case Ok(s) => State() == s && r == Ok(s.messages[id])
        case Err(e) => State() == old(State()) && r == Err(e)
      ensures r.Ok? <==>
        && old(Admitted(State(), group, how.seen, user) && InGroup(State(), id, group))
        && (old(messages)[id].status.Deleted? || DeletesByRight(old(messages)[id], user, how, now))
      ensures r.Ok? && old(messages)[id].status.Deleted? ==> r.value == old(messages)[id]
      ensures r.Ok? && !old(messages)[id].status.Deleted? ==>
        r.value == old(messages)[id].(status := Deleted(now, user, if how.Retract? then SelfRetracted
                                                                   else AdminRemoved))
      ensures State() == if r.Ok? then old(State()).(messages := old(messages)[id := r.value]) else old(State())
    {
      DeleteTxWrites(State(), user, group, id, how, now);
      var operator := CheckMember(Store(groups, messages, edits, nextRow), group, how.seen, user);
      if operator.Err? {
        return Err(operator.error);
      }
      if id !in messages || messages[id].group != group {
        return Err(MessageNotFound);
      }
      var m := messages[id];
      if m.status.Deleted? {
        return Ok(m);
      }
      var reason := MayDelete(m, user, operator.value, how, now);
      if reason.Err? {
        return Err(reason.error);
      }
      m := m.(status := Deleted(now, user, reason.value));
      messages := messages[id := m];
      r := Ok(m);
    }
  }
}
