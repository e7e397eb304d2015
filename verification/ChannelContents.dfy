/** What the rows of a channel hold after a run: what was last written to them, and by whom. */
module ChannelContents {
  import opened Common
  import opened ChannelLog
  import opened ChannelRuns

  datatype Wrote = Wrote(messageType: string, content: Content, isDeleted: bool)

  function Holds(c: Channel, id: int): Option<Wrote> {
    if id in c.messages
    then Some(Wrote(c.messages[id].messageType, c.messages[id].content, c.messages[id].isDeleted))
    else None
  }

  /** What an action leaves in a row that held cur: a creation and an edit what they were given, a deletion nothing. */
  function NextWrite(cur: Option<Wrote>, s: System, a: Action, id: int): Option<Wrote> {
    match a
    case Create(user, messageType, content, _) =>
      if user == s.channel.head.ownerUserId && id == s.channel.head.lastMessageId + 1
      then Some(Wrote(messageType, content, false)) else cur
    case Edit(user, i, messageType, content, _) =>
      if user == s.channel.head.ownerUserId && i == id && cur.Some? && !cur.value.isDeleted
      then Some(Wrote(messageType, content, false)) else cur
    case DeleteCommit(call, _) =>
      if call in s.deleting && s.deleting[call] == id then Some(Wrote("deleted", Content("", []), true)) else cur
    case _ => cur
  }

  function LastWrite(cur: Option<Wrote>, s: System, actions: seq<Action>, id: int): Option<Wrote>
    decreases |actions|
  {
    if actions == [] then cur
    else LastWrite(NextWrite(cur, s, actions[0], id), Step(s, actions[0]), actions[1..], id)
  }

  lemma CreateHolds(c: Channel, messageType: string, content: Content, now: int, id: int)
    requires Consistent(c)
    ensures Holds(CommittedOr(c, CreateMessageTx(c, messageType, content, now)), id) ==
      if id == c.head.lastMessageId + 1 then Some(Wrote(messageType, content, false)) else Holds(c, id)
  {
    NextSeqIsFree(c);
    CreateTxWrites(c, messageType, content, now);
  }

  lemma UpdateHolds(c: Channel, i: int, mutation: Mutation, now: int, id: int)
    requires Consistent(c)
    ensures Holds(CommittedOr(c, UpdateMessageTx(c, i, mutation, now)), id) ==
      if i != id || id !in c.messages then Holds(c, id) else
      match mutation
      case Edit(messageType, content) =>
        if c.messages[id].isDeleted then Holds(c, id) else Some(Wrote(messageType, content, false))
      case Tombstone => Some(Wrote("deleted", Content("", []), true))
  {
    NextSeqIsFree(c);
    UpdateTxWrites(c, i, mutation, now);
  }

  lemma StepHolds(s: System, a: Action, id: int)
    requires Consistent(s.channel) && DeletingKnown(s.channel, s.deleting)
    ensures Holds(Step(s, a).channel, id) == NextWrite(Holds(s.channel, id), s, a, id)
  {
    if a.Create? {
      CreateHolds(s.channel, a.messageType, a.content, a.now, id);
    } else if a.Edit? || a.DeleteCommit? {
      StepIsUpdate(s, a);
      var u := UpdateOf(s, a);
      if u.Some? { UpdateHolds(s.channel, u.value.id, u.value.mutation, u.value.now, id); }
    }
  }

  /**
   In every run each row holds what it was last given: the type and content of its
   last accepted edit, or of its creation, or of a tombstone once it is deleted.
   */
  lemma {:induction false} RunHoldsLastWrite(s: System, actions: seq<Action>, id: int)
    requires Good(s)
    ensures Holds(Run(s, actions).channel, id) == LastWrite(Holds(s.channel, id), s, actions, id)
    decreases |actions|
  {
    if actions != [] {
      StepHolds(s, actions[0], id);
      StepKeepsGood(s, actions[0]);
      RunHoldsLastWrite(Step(s, actions[0]), actions[1..], id);
    }
  }

  /** The profile after an action: what the owner asked for, or as it was. */
  lemma StepProfile(s: System, a: Action)
    requires Consistent(s.channel)
    ensures var h, h' := s.channel.head, Step(s, a).channel.head;
      if a.UpdateProfile? && a.user == h.ownerUserId
      then && h'.name == a.profile.name && h'.bio == a.profile.bio && h'.avatar == a.profile.avatar
           && RetentionFrom(h.retentionMinutes, a.profile.retentionMinutes, h'.retentionMinutes)
           && h'.profileVersion == h.profileVersion + 1
      else KeepsProfile(h, h')
  {
    NextSeqIsFree(s.channel);
    if a.UpdateProfile? {
      ProfileTxWrites(s.channel, a.profile, a.now);
    } else if a.Create? {
      CreateTxWrites(s.channel, a.messageType, a.content, a.now);
    } else if a.Edit? || a.DeleteCommit? {
      StepIsUpdate(s, a);
      var u := UpdateOf(s, a);
      if u.Some? { UpdateTxWrites(s.channel, u.value.id, u.value.mutation, u.value.now); }
    }
  }

  // -------------------------------------------------------------- who may write

  /** The user an action is made by; a delete transaction belongs to the call that was checked before. */
  function ActorOf(a: Action): Option<UserId> {
    match a
    case UpdateProfile(user, _, _) => Some(user)
    case Create(user, _, _, _) => Some(user)
    case Edit(user, _, _, _, _) => Some(user)
    case DeleteCheck(_, user, _) => Some(user)
    case _ => None
  }

  /** Actions of anybody but the owner have no effect at all, not even a pending delete. */
  lemma OthersDoNothing(s: System, a: Action)
    requires ActorOf(a).Some? && ActorOf(a).value != s.channel.head.ownerUserId
    ensures Step(s, a) == s
  {
  }

  /** A delete call is pending only once the owner has checked it, for a row that was there and not deleted. */
  lemma PendingDeleteWasChecked(s: System, a: Action, call: CallId)
    requires call !in s.deleting && call in Step(s, a).deleting
    ensures a.DeleteCheck? && a.call == call && a.user == s.channel.head.ownerUserId
    ensures Step(s, a).deleting[call] == a.id && a.id in s.channel.messages && !s.channel.messages[a.id].isDeleted
  {
  }

  /** A call that nothing comes between does what DeleteMessage does. */
  lemma UndisturbedDelete(c: Channel, call: CallId, user: UserId, id: int, now: int)
    ensures Step(Step(System(c, map[]), DeleteCheck(call, user, id)), DeleteCommit(call, now)) ==
            System(CommittedOr(c, SerialDelete(c, user, id, now)), map[])
  {
    var s1 := Step(System(c, map[]), DeleteCheck(call, user, id));
    if s1.deleting != map[] {
      assert s1.deleting == map[call := id] && s1.deleting - {call} == map[];
    }
  }
}
