/**
 How many delete changes a message gets when requests race. The transaction of
 a delete does not look at the tombstone again, so the answer is: one for each
 delete transaction that runs, whether or not it is the first.
 */
module ChannelDeletes {
  import opened Common
  import opened ChannelLog
  import opened ChannelRuns

  /** The action is the transaction of a delete of this message. */
  predicate CommitsDelete(s: System, a: Action, id: int) {
    a.DeleteCommit? && a.call in s.deleting && s.deleting[a.call] == id
  }

  function DeleteCommits(s: System, actions: seq<Action>, id: int): nat
    decreases |actions|
  {
    if actions == [] then 0 else
      (if CommitsDelete(s, actions[0], id) then 1 else 0) + DeleteCommits(Step(s, actions[0]), actions[1..], id)
  }

  /** A message is deleted exactly when the log has a delete change of it. */
  ghost predicate DeletesLogged(c: Channel)
    requires Indexed(c)
  {
    forall id :: CountDeletes(Log(c), id) >= 1 <==> id in c.messages && c.messages[id].isDeleted
  }

  lemma AppendCounts(c: Channel, c': Channel, change: Change)
    requires Indexed(c) && Appends(c, c', change)
    ensures Indexed(c')
    ensures forall id ::
      CountDeletes(Log(c'), id) == CountDeletes(Log(c), id) + (if IsFor(change, id) && change.isDeleted then 1 else 0)
  {
    AppendGrowsLog(c, c', change);
    forall id
      ensures CountDeletes(Log(c'), id) ==
              CountDeletes(Log(c), id) + (if IsFor(change, id) && change.isDeleted then 1 else 0)
    {
      CountDeletesAppend(Log(c), change, id);
    }
  }

  /** What one committed transaction does to the count; deleted is the message it deletes, if it does. */
  ghost predicate Counts(c: Channel, c': Channel, deleted: Option<int>) {
    && Indexed(c) && Indexed(c')
    && (forall id :: CountDeletes(Log(c'), id) == CountDeletes(Log(c), id) + if deleted == Some(id) then 1 else 0)
    && (DeletesLogged(c) ==> DeletesLogged(c'))
  }

  lemma AppendIsCounted(c: Channel, c': Channel, change: Change)
    requires Indexed(c) && Appends(c, c', change)
    requires change.MessageChange? && !change.isDeleted && change.messageId in c.messages ==>
      !c.messages[change.messageId].isDeleted
    ensures Counts(c, c', if change.MessageChange? && change.isDeleted then Some(change.messageId) else None)
  {
    AppendCounts(c, c', change);
  }

  lemma UpdateCounts(c: Channel, id: int, mutation: Mutation, now: int)
    requires Consistent(c)
    ensures Counts(c, CommittedOr(c, UpdateMessageTx(c, id, mutation, now)),
                   if mutation.Tombstone? && id in c.messages then Some(id) else None)
  {
    UpdateAppends(c, id, mutation, now);
    var tx := UpdateMessageTx(c, id, mutation, now);
    if tx.Ok? { AppendIsCounted(c, tx.value.0, ChangeOf(tx.value.1)); }
  }

  lemma CreateCounts(c: Channel, messageType: string, content: Content, now: int)
    requires Consistent(c)
    ensures Counts(c, CommittedOr(c, CreateMessageTx(c, messageType, content, now)), None)
  {
    CreateAppends(c, messageType, content, now);
    var tx := CreateMessageTx(c, messageType, content, now);
    AppendIsCounted(c, tx.value.0, ChangeOf(tx.value.1));
  }

  lemma ProfileCounts(c: Channel, profile: Profile, now: int)
    requires Consistent(c)
    ensures var tx := UpdateProfileTx(c, profile, now); tx.Ok? && Counts(c, tx.value, None)
  {
    UpdateProfileAppends(c, profile, now);
    AppendIsCounted(c, UpdateProfileTx(c, profile, now).value,
                    ProfileChange(c.head.lastSeq + 1, c.head.profileVersion + 1, now));
  }

  function DeletedBy(s: System, a: Action): Option<int> {
    if a.DeleteCommit? && a.call in s.deleting then Some(s.deleting[a.call]) else None
  }

  lemma RewriteCounts(s: System, a: Action)
    requires Consistent(s.channel) && DeletingKnown(s.channel, s.deleting) && (a.Edit? || a.DeleteCommit?)
    ensures Counts(s.channel, Step(s, a).channel, DeletedBy(s, a))
  {
    if a.Edit? {
      UpdateCounts(s.channel, a.id, Mutation.Edit(a.messageType, a.content), a.now);
    } else if a.call in s.deleting {
      UpdateCounts(s.channel, s.deleting[a.call], Tombstone, a.now);
    }
  }

  lemma InsertCounts(s: System, a: Action)
    requires Consistent(s.channel) && (a.UpdateProfile? || a.Create?)
    ensures Counts(s.channel, Step(s, a).channel, None)
  {
    if a.UpdateProfile? {
      ProfileCounts(s.channel, a.profile, a.now);
    } else {
      CreateCounts(s.channel, a.messageType, a.content, a.now);
    }
  }

  lemma StepCounts(s: System, a: Action)
    requires Consistent(s.channel) && DeletingKnown(s.channel, s.deleting)
    ensures Counts(s.channel, Step(s, a).channel, DeletedBy(s, a))
  {
    if a.UpdateProfile? || a.Create? {
      InsertCounts(s, a);
    } else if a.Edit? || a.DeleteCommit? {
      RewriteCounts(s, a);
    }
  }

  lemma {:induction false} RunCounts(s: System, actions: seq<Action>, id: int)
    requires Good(s) && DeletesLogged(s.channel)
    ensures var end := Run(s, actions).channel;
      && Good(Run(s, actions)) && DeletesLogged(end)
      && CountDeletes(Log(end), id) == CountDeletes(Log(s.channel), id) + DeleteCommits(s, actions, id)
    decreases |actions|
  {
    if actions != [] {
      StepKeepsGood(s, actions[0]);
      StepCounts(s, actions[0]);
      RunCounts(Step(s, actions[0]), actions[1..], id);
    }
  }

  /**
   In every run from a new channel the log holds one delete change of a message
   for each delete transaction, and the message is deleted exactly if there is
   one; so it has exactly one when no second transaction ran.
   */
  lemma DeletesAreCounted(c: Channel, actions: seq<Action>, id: int)
    requires Fresh(c)
    ensures var end := Run(System(c, map[]), actions).channel;
      && Indexed(end)
      && CountDeletes(Log(end), id) == DeleteCommits(System(c, map[]), actions, id)
      && (id in end.messages && end.messages[id].isDeleted <==> DeleteCommits(System(c, map[]), actions, id) >= 1)
  {
    FreshIsConsistent(c);
    assert Log(c) == [];
    RunCounts(System(c, map[]), actions, id);
  }

  /**
   The one delete change is the message's only one exactly if the row is not yet
   deleted when the transaction reaches it, which the transaction could check.
   */
  lemma OnlyDeleteIffNotYetDeleted(c: Channel, actions: seq<Action>, call: CallId, now: int)
    requires Fresh(c) && call in Run(System(c, map[]), actions).deleting
    ensures var s := Run(System(c, map[]), actions);
      var id, end := s.deleting[call], Step(s, DeleteCommit(call, now)).channel;
      && Indexed(end) && id in s.channel.messages
      && (CountDeletes(Log(end), id) == 1 <==> !s.channel.messages[id].isDeleted)
  {
    FreshIsConsistent(c);
    assert Log(c) == [];
    var s := Run(System(c, map[]), actions);
    RunCounts(System(c, map[]), actions, s.deleting[call]);
    StepCounts(s, DeleteCommit(call, now));
  }
}
