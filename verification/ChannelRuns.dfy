/**
 Runs of one channel: any number of callers, each request cut at the points
 where the service reads outside the row lock. The message table and the head
 are shown to be the fold of the change log in every reachable state.
 */
module ChannelRuns {
  import opened Common
  import opened ChannelLog
  import opened Pages

  // ------------------------------------------------------------------ runs

  type CallId = nat

  /**
   A step of some caller. The owner check reads a column no transaction writes,
   so it is part of the step. Deleting is two steps: the unlocked read of the
   row, and the transaction of a call that read it as not deleted. A transaction
   the database aborts is a step without effect.
   */
  datatype Action =
    | UpdateProfile(user: UserId, profile: Profile, now: int)
    | Create(user: UserId, messageType: string, content: Content, now: int)
    | Edit(user: UserId, id: int, messageType: string, content: Content, now: int)
    | DeleteCheck(call: CallId, user: UserId, id: int)
    | DeleteCommit(call: CallId, now: int)
    | Abort

  datatype System = System(channel: Channel, deleting: map<CallId, int>)

  function CommittedOr(c: Channel, tx: Result<(Channel, Message), ChannelError>): Channel {
    if tx.Ok? then tx.value.0 else c
  }

  function Step(s: System, a: Action): System {
    var c := s.channel;
    match a
    case UpdateProfile(user, profile, now) =>
      if user != c.head.ownerUserId then s else
      var tx := UpdateProfileTx(c, profile, now);
      s.(channel := if tx.Ok? then tx.value else c)
    case Create(user, messageType, content, now) =>
      if user != c.head.ownerUserId then s else
      s.(channel := CommittedOr(c, CreateMessageTx(c, messageType, content, now)))
    case Edit(user, id, messageType, content, now) =>
      if user != c.head.ownerUserId then s else
      s.(channel := CommittedOr(c, UpdateMessageTx(c, id, Mutation.Edit(messageType, content), now)))
    case DeleteCheck(call, user, id) =>
      if user != c.head.ownerUserId || id !in c.messages || c.messages[id].isDeleted then s else
      s.(deleting := s.deleting[call := id])
    case DeleteCommit(call, now) =>
      if call !in s.deleting then s else
      System(CommittedOr(c, UpdateMessageTx(c, s.deleting[call], Tombstone, now)), s.deleting - {call})
    case Abort => s
  }

  function Run(s: System, actions: seq<Action>): System
    decreases |actions|
  {
    if actions == [] then s else Run(Step(s, actions[0]), actions[1..])
  }

  /** A channel that CreateChannel has just inserted. */
  ghost predicate Fresh(c: Channel) {
    c.messages == map[] && c.changes == map[] &&
    c.head.lastMessageId == 0 && c.head.lastSeq == 0 && c.head.profileVersion == 1
  }

  // ------------------------------------------------- the log and its mirror

  /** What a reader of the change feed can know: no more than the changes say. */
  datatype MirrorRow = MirrorRow(version: int, seqNo: int, isDeleted: bool)
  datatype Mirror = Mirror(lastSeq: int, lastMessageId: int, profileVersion: int, rows: map<int, MirrorRow>)

  const EMPTY_MIRROR := Mirror(0, 0, 1, map[])

  function Apply(m: Mirror, change: Change): Mirror {
    match change
    case ProfileChange(seqNo, profileVersion, _) => m.(lastSeq := seqNo, profileVersion := profileVersion)
    case MessageChange(seqNo, id, version, isDeleted, _) =>
      m.(lastSeq := seqNo, lastMessageId := Max(m.lastMessageId, id),
         rows := m.rows[id := MirrorRow(version, seqNo, isDeleted)])
  }

  function Replay(log: seq<Change>): Mirror {
    if log == [] then EMPTY_MIRROR else Apply(Replay(log[..|log| - 1]), log[|log| - 1])
  }

  /** The columns of the stored rows that the feed carries. */
  function Project(c: Channel): Mirror {
    Mirror(c.head.lastSeq, c.head.lastMessageId, c.head.profileVersion,
           map id | id in c.messages ::
             MirrorRow(c.messages[id].version, c.messages[id].seqNo, c.messages[id].isDeleted))
  }

  predicate IsFor(change: Change, id: int) {
    change.MessageChange? && change.messageId == id
  }

  function CountFor(log: seq<Change>, id: int): nat {
    if log == [] then 0 else
      CountFor(log[..|log| - 1], id) + if IsFor(log[|log| - 1], id) then 1 else 0
  }

  function CountProfile(log: seq<Change>): nat {
    if log == [] then 0 else
      CountProfile(log[..|log| - 1]) + if log[|log| - 1].ProfileChange? then 1 else 0
  }

  /** The versions of messages 1..n added up. */
  function VersionSum(messages: map<int, Message>, n: nat): int
    requires forall id | 1 <= id <= n :: id in messages
  {
    if n == 0 then 0 else VersionSum(messages, n - 1) + messages[n].version
  }

  // ------------------------------------------------------------- invariant

  ghost predicate Indexed(c: Channel) {
    && Dense(c.changes.Keys, c.head.lastSeq)
    && Dense(c.messages.Keys, c.head.lastMessageId)
    && (forall k | k in c.changes :: c.changes[k].seqNo == k)
    && (forall id | id in c.messages :: c.messages[id].messageId == id)
  }

  /** The change rows in seq order. */
  ghost function Log(c: Channel): (log: seq<Change>)
    requires Indexed(c)
    ensures |log| == c.head.lastSeq
  {
    seq(c.head.lastSeq, i requires 0 <= i < c.head.lastSeq => c.changes[i + 1])
  }

  /** A message row repeats its own last change. */
  ghost predicate RepeatsLastChange(c: Channel, id: int)
    requires id in c.messages
  {
    var m := c.messages[id];
    && m.seqNo in c.changes
    && c.changes[m.seqNo] == ChangeOf(m)
    && forall k | k in c.changes && m.seqNo < k :: !IsFor(c.changes[k], id)
  }

  ghost predicate Consistent(c: Channel) {
    && Indexed(c)
    && (forall id | id in c.messages :: RepeatsLastChange(c, id))
    && (forall k | k in c.changes && c.changes[k].MessageChange? :: c.changes[k].messageId in c.messages)
    && Replay(Log(c)) == Project(c)
    && (forall id | id in c.messages :: c.messages[id].version == CountFor(Log(c), id) >= 1)
    && c.head.profileVersion == 1 + CountProfile(Log(c))
    && c.head.lastSeq == VersionSum(c.messages, c.head.lastMessageId) + c.head.profileVersion - 1
  }

  lemma FreshIsConsistent(c: Channel)
    requires Fresh(c)
    ensures Consistent(c)
  {
    assert Log(c) == [];
    assert Project(c).rows == map[];
  }

  // ------------------------------------------------------------ one commit

  /** The columns that a profile version stands for. */
  predicate SameProfile(h: Head, h': Head) {
    h'.name == h.name && h'.bio == h.bio && h'.avatar == h.avatar && h'.retentionMinutes == h.retentionMinutes
  }

  /** c' is c with one more change row and, for a message change, that message row written. */
  ghost predicate Appends(c: Channel, c': Channel, change: Change) {
    && change.seqNo == c.head.lastSeq + 1 == c'.head.lastSeq
    && c'.changes == c.changes[change.seqNo := change]
    && c'.head.ownerUserId == c.head.ownerUserId
    && match change
       case ProfileChange(_, profileVersion, _) =>
         && profileVersion == c.head.profileVersion + 1 == c'.head.profileVersion
         && c'.messages == c.messages && c'.head.lastMessageId == c.head.lastMessageId
       case MessageChange(_, id, version, isDeleted, _) =>
         && c'.head.profileVersion == c.head.profileVersion && SameProfile(c.head, c'.head)
         && id in c'.messages && c'.messages == c.messages[id := c'.messages[id]]
         && c'.messages[id].messageId == id
         && change == ChangeOf(c'.messages[id])
         && if id in c.messages
            then c'.head.lastMessageId == c.head.lastMessageId && version == c.messages[id].version + 1
            else c'.head.lastMessageId == c.head.lastMessageId + 1 == id && version == 1
  }

  lemma AppendGrowsLog(c: Channel, c': Channel, change: Change)
    requires Indexed(c) && Appends(c, c', change)
    ensures Indexed(c') && Log(c') == Log(c) + [change]
  {
    assert forall k :: k in c'.changes <==> k in c.changes || k == change.seqNo;
    assert forall id :: id in c'.messages <==> id in c.messages || IsFor(change, id);
  }

  lemma ReplayAppend(log: seq<Change>, change: Change)
    ensures Replay(log + [change]) == Apply(Replay(log), change)
    ensures forall id :: CountFor(log + [change], id) == CountFor(log, id) + if IsFor(change, id) then 1 else 0
    ensures CountProfile(log + [change]) == CountProfile(log) + if change.ProfileChange? then 1 else 0
  {
    assert (log + [change])[..|log|] == log;
  }

  lemma {:induction false} VersionSumBump(ms: map<int, Message>, ms': map<int, Message>, n: nat, id: int)
    requires forall i | 1 <= i <= n :: i in ms && i in ms'
    requires forall i | 1 <= i <= n && i != id :: ms'[i].version == ms[i].version
    requires 1 <= id <= n ==> ms'[id].version == ms[id].version + 1
    ensures VersionSum(ms', n) == VersionSum(ms, n) + if 1 <= id <= n then 1 else 0
  {
    if n > 0 {
      VersionSumBump(ms, ms', n - 1, id);
    }
  }

  lemma AppendKeepsRows(c: Channel, c': Channel, change: Change)
    requires Consistent(c) && Appends(c, c', change)
    ensures Indexed(c')
    ensures forall id | id in c'.messages :: RepeatsLastChange(c', id)
    ensures forall k | k in c'.changes && c'.changes[k].MessageChange? :: c'.changes[k].messageId in c'.messages
  {
    AppendGrowsLog(c, c', change);
    forall id | id in c'.messages ensures RepeatsLastChange(c', id) {
      if !IsFor(change, id) {
        assert RepeatsLastChange(c, id);
      }
    }
  }

  lemma AppendKeepsReplay(c: Channel, c': Channel, change: Change)
    requires Indexed(c) && Appends(c, c', change)
    requires Replay(Log(c)) == Project(c)
    ensures Indexed(c') && Replay(Log(c')) == Project(c')
  {
    AppendGrowsLog(c, c', change);
    ReplayAppend(Log(c), change);
    assert Apply(Project(c), change).rows == Project(c').rows;
  }

  lemma AppendKeepsCounts(c: Channel, c': Channel, change: Change)
    requires Indexed(c) && Appends(c, c', change)
    requires forall k | k in c.changes && c.changes[k].MessageChange? :: c.changes[k].messageId in c.messages
    requires forall id | id in c.messages :: c.messages[id].version == CountFor(Log(c), id) >= 1
    requires c.head.profileVersion == 1 + CountProfile(Log(c))
    ensures Indexed(c')
    ensures forall id | id in c'.messages :: c'.messages[id].version == CountFor(Log(c'), id) >= 1
    ensures c'.head.profileVersion == 1 + CountProfile(Log(c'))
  {
    AppendGrowsLog(c, c', change);
    ReplayAppend(Log(c), change);
    if change.MessageChange? && change.messageId !in c.messages {
      NoChangeForUnknown(c, change.messageId, Log(c));
    }
  }

  lemma AppendKeepsSum(c: Channel, c': Channel, change: Change)
    requires Indexed(c) && Appends(c, c', change)
    requires c.head.lastSeq == VersionSum(c.messages, c.head.lastMessageId) + c.head.profileVersion - 1
    ensures Indexed(c')
    ensures c'.head.lastSeq == VersionSum(c'.messages, c'.head.lastMessageId) + c'.head.profileVersion - 1
  {
    AppendGrowsLog(c, c', change);
    var id := if change.MessageChange? then change.messageId else 0;
    VersionSumBump(c.messages, c'.messages, c.head.lastMessageId, id);
  }

  lemma {:induction false} NoChangeForUnknown(c: Channel, id: int, log: seq<Change>)
    requires Indexed(c) && id !in c.messages
    requires forall k | k in c.changes && c.changes[k].MessageChange? :: c.changes[k].messageId in c.messages
    requires log <= Log(c)
    ensures CountFor(log, id) == 0
  {
    if log != [] {
      NoChangeForUnknown(c, id, log[..|log| - 1]);
      assert log[|log| - 1] == Log(c)[|log| - 1] == c.changes[|log|];
    }
  }

  lemma AppendKeepsConsistent(c: Channel, c': Channel, change: Change)
    requires Consistent(c) && Appends(c, c', change)
    ensures Consistent(c')
  {
    AppendKeepsRows(c, c', change);
    AppendKeepsReplay(c, c', change);
    AppendKeepsCounts(c, c', change);
    AppendKeepsSum(c, c', change);
  }

  // ----------------------------------------- what each transaction appends

  /** No row has the next seq yet, so the unique indexes are never violated. */
  lemma NextSeqIsFree(c: Channel)
    requires Consistent(c)
    ensures c.head.lastSeq + 1 !in c.changes && c.head.lastMessageId + 1 !in c.messages
    ensures forall id | id in c.messages :: c.messages[id].seqNo != c.head.lastSeq + 1
  {
    forall id | id in c.messages ensures c.messages[id].seqNo != c.head.lastSeq + 1 {
      assert RepeatsLastChange(c, id);
    }
  }

  lemma UpdateProfileAppends(c: Channel, p: Profile, now: int)
    requires Consistent(c)
    ensures var tx := UpdateProfileTx(c, p, now);
      tx.Ok? && Appends(c, tx.value, ProfileChange(c.head.lastSeq + 1, c.head.profileVersion + 1, now))
  {
    NextSeqIsFree(c);
  }

  lemma CreateAppends(c: Channel, messageType: string, content: Content, now: int)
    requires Consistent(c)
    ensures var tx := CreateMessageTx(c, messageType, content, now);
      && tx.Ok?
      && Appends(c, tx.value.0, ChangeOf(tx.value.1))
      && tx.value.1.messageId !in c.messages
      && tx.value.0.messages == c.messages[tx.value.1.messageId := tx.value.1]
      && !tx.value.1.isDeleted
  {
    NextSeqIsFree(c);
  }

  /** The transaction fails exactly when the row is missing or an edit finds it deleted. */
  lemma UpdateAppends(c: Channel, id: int, mutation: Mutation, now: int)
    requires Consistent(c)
    ensures var tx := UpdateMessageTx(c, id, mutation, now);
      && (tx.Ok? <==> id in c.messages && (mutation.Edit? ==> !c.messages[id].isDeleted))
      && (tx.Ok? ==>
          && Appends(c, tx.value.0, ChangeOf(tx.value.1))
          && tx.value.1.messageId == id
          && tx.value.0.messages == c.messages[id := tx.value.1]
          && tx.value.1.createdAt == c.messages[id].createdAt
          && tx.value.1.creatorPeerId == c.messages[id].creatorPeerId
          && tx.value.1.isDeleted == (mutation.Tombstone? || c.messages[id].isDeleted))
  {
    NextSeqIsFree(c);
  }

  // --------------------------------------------------------- any transition

  /**
   What one channel state may become: the log only grows, nothing that was
   written to it changes, rows only move to newer versions, and a tombstone
   stays a tombstone whose later changes are all tombstones.
   */
  ghost predicate Extends(c: Channel, c': Channel) {
    && Indexed(c) && Indexed(c')
    && Log(c) <= Log(c')
    && c.head.profileVersion <= c'.head.profileVersion
    && (c.head.profileVersion == c'.head.profileVersion ==> SameProfile(c.head, c'.head))
    && c.head.ownerUserId == c'.head.ownerUserId
    && (forall id | id in c.messages :: id in c'.messages && RowExtends(c.messages[id], c'.messages[id]))
    && (forall id, k | id in c.messages && c.messages[id].isDeleted && k in c'.changes && c.head.lastSeq < k ::
          IsFor(c'.changes[k], id) ==> c'.changes[k].isDeleted)
  }

  ghost predicate RowExtends(m: Message, m': Message) {
    && m.version <= m'.version && m.seqNo <= m'.seqNo
    && (m.version == m'.version ==> m == m')
    && m'.createdAt == m.createdAt && m'.creatorPeerId == m.creatorPeerId
    && (m.isDeleted ==> m'.isDeleted)
    && (m.isDeleted && m.messageType == TYPE_DELETED && m.content == EMPTY_CONTENT ==>
          m'.messageType == TYPE_DELETED && m'.content == EMPTY_CONTENT)
  }

  lemma LogUnchanged(c: Channel, c': Channel, k: int)
    requires Indexed(c) && Indexed(c') && Log(c) <= Log(c')
    requires k in c.changes
    ensures k in c'.changes && c'.changes[k] == c.changes[k]
  {
    assert c'.changes[k] == Log(c')[k - 1] == Log(c)[k - 1];
  }

  lemma ExtendsTransitive(a: Channel, b: Channel, c: Channel)
    requires Extends(a, b) && Extends(b, c)
    ensures Extends(a, c)
  {
    forall id, k | id in a.messages && a.messages[id].isDeleted && k in c.changes && a.head.lastSeq < k
      ensures IsFor(c.changes[k], id) ==> c.changes[k].isDeleted
    {
      if k <= b.head.lastSeq { LogUnchanged(b, c, k); }
    }
  }

  /** Every deleted row has type `deleted` and empty content. */
  ghost predicate TombstonesBlank(c: Channel) {
    forall id | id in c.messages && c.messages[id].isDeleted ::
      c.messages[id].messageType == TYPE_DELETED && c.messages[id].content == EMPTY_CONTENT
  }

  ghost predicate Good(s: System) {
    && Consistent(s.channel)
    && TombstonesBlank(s.channel)
    && DeletingKnown(s.channel, s.deleting)
  }

  lemma AppendKeepsDeleted(c: Channel, c': Channel, change: Change, id: int, k: int)
    requires Indexed(c) && Appends(c, c', change)
    requires id in c.messages && c.messages[id].isDeleted && k in c'.changes && c.head.lastSeq < k
    requires change.MessageChange? && change.messageId in c.messages ==>
      RowExtends(c.messages[change.messageId], c'.messages[change.messageId])
    ensures IsFor(c'.changes[k], id) ==> c'.changes[k].isDeleted
  {
    assert k == change.seqNo;
  }

  lemma AppendExtends(c: Channel, c': Channel, change: Change)
    requires Indexed(c) && Appends(c, c', change)
    requires change.MessageChange? && change.messageId in c.messages ==>
      RowExtends(c.messages[change.messageId], c'.messages[change.messageId])
    ensures Extends(c, c')
  {
    AppendGrowsLog(c, c', change);
    forall id, k | id in c.messages && c.messages[id].isDeleted && k in c'.changes && c.head.lastSeq < k
      ensures IsFor(c'.changes[k], id) ==> c'.changes[k].isDeleted
    {
      AppendKeepsDeleted(c, c', change, id, k);
    }
  }

  lemma UpdateProfileExtends(c: Channel, profile: Profile, now: int)
    requires Consistent(c) && TombstonesBlank(c)
    ensures var tx := UpdateProfileTx(c, profile, now);
      tx.Ok? && Consistent(tx.value) && TombstonesBlank(tx.value) && Extends(c, tx.value)
  {
    UpdateProfileAppends(c, profile, now);
    var tx := UpdateProfileTx(c, profile, now);
    var change := ProfileChange(c.head.lastSeq + 1, c.head.profileVersion + 1, now);
    AppendExtends(c, tx.value, change);
    AppendKeepsConsistent(c, tx.value, change);
  }

  lemma CreateExtends(c: Channel, messageType: string, content: Content, now: int)
    requires Consistent(c) && TombstonesBlank(c)
    ensures var c' := CommittedOr(c, CreateMessageTx(c, messageType, content, now));
      Consistent(c') && TombstonesBlank(c') && Extends(c, c')
  {
    CreateAppends(c, messageType, content, now);
    var tx := CreateMessageTx(c, messageType, content, now);
    AppendExtends(c, tx.value.0, ChangeOf(tx.value.1));
    AppendKeepsConsistent(c, tx.value.0, ChangeOf(tx.value.1));
  }

  lemma UpdateRow(c: Channel, id: int, mutation: Mutation, now: int)
    requires Indexed(c) && TombstonesBlank(c) && UpdateMessageTx(c, id, mutation, now).Ok?
    requires forall k | k in c.messages :: c.messages[k].seqNo <= c.head.lastSeq
    ensures var (c', m) := UpdateMessageTx(c, id, mutation, now).value;
      && id in c.messages && c'.messages == c.messages[id := m] && RowExtends(c.messages[id], m)
      && TombstonesBlank(c')
  {
  }

  lemma SeqsBounded(c: Channel)
    requires Indexed(c) && forall id | id in c.messages :: RepeatsLastChange(c, id)
    ensures forall id | id in c.messages :: c.messages[id].seqNo <= c.head.lastSeq
  {
    forall id | id in c.messages ensures c.messages[id].seqNo <= c.head.lastSeq {
      assert RepeatsLastChange(c, id);
    }
  }

  lemma UpdateExtends(c: Channel, id: int, mutation: Mutation, now: int)
    requires Consistent(c) && TombstonesBlank(c)
    ensures var c' := CommittedOr(c, UpdateMessageTx(c, id, mutation, now));
      Consistent(c') && TombstonesBlank(c') && Extends(c, c')
  {
    UpdateAppends(c, id, mutation, now);
    var tx := UpdateMessageTx(c, id, mutation, now);
    if tx.Ok? {
      SeqsBounded(c);
      UpdateRow(c, id, mutation, now);
      AppendExtends(c, tx.value.0, ChangeOf(tx.value.1));
      AppendKeepsConsistent(c, tx.value.0, ChangeOf(tx.value.1));
    } else {
      ExtendsReflexive(c);
    }
  }

  lemma ExtendsReflexive(c: Channel)
    requires Indexed(c)
    ensures Extends(c, c)
  {
  }

  lemma StepExtends(s: System, a: Action)
    requires Consistent(s.channel) && TombstonesBlank(s.channel)
    ensures var c' := Step(s, a).channel;
      Consistent(c') && TombstonesBlank(c') && Extends(s.channel, c')
  {
    if a.UpdateProfile? || a.Create? {
      InsertExtends(s, a);
    } else if a.Edit? || a.DeleteCommit? {
      RewriteExtends(s, a);
    } else {
      ExtendsReflexive(s.channel);
    }
  }

  lemma InsertExtends(s: System, a: Action)
    requires Consistent(s.channel) && TombstonesBlank(s.channel) && (a.UpdateProfile? || a.Create?)
    ensures var c' := Step(s, a).channel;
      Consistent(c') && TombstonesBlank(c') && Extends(s.channel, c')
  {
    ExtendsReflexive(s.channel);
    if a.UpdateProfile? {
      UpdateProfileExtends(s.channel, a.profile, a.now);
    } else {
      CreateExtends(s.channel, a.messageType, a.content, a.now);
    }
  }

  /** The update an edit or a delete transaction amounts to, if it gets as far as the row. */
  datatype Update = Update(id: int, mutation: Mutation, now: int)

  function UpdateOf(s: System, a: Action): Option<Update>
    requires a.Edit? || a.DeleteCommit?
  {
    if a.Edit? then
      if a.user != s.channel.head.ownerUserId then None
      else Some(Update(a.id, Mutation.Edit(a.messageType, a.content), a.now))
    else if a.call !in s.deleting then None
    else Some(Update(s.deleting[a.call], Tombstone, a.now))
  }

  lemma StepIsUpdate(s: System, a: Action)
    requires a.Edit? || a.DeleteCommit?
    ensures var u := UpdateOf(s, a);
      Step(s, a).channel == if u.None? then s.channel else
        CommittedOr(s.channel, UpdateMessageTx(s.channel, u.value.id, u.value.mutation, u.value.now))
  {
  }

  lemma RewriteExtends(s: System, a: Action)
    requires Consistent(s.channel) && TombstonesBlank(s.channel) && (a.Edit? || a.DeleteCommit?)
    ensures var c' := Step(s, a).channel;
      Consistent(c') && TombstonesBlank(c') && Extends(s.channel, c')
  {
    StepIsUpdate(s, a);
    var u := UpdateOf(s, a);
    if u.None? {
      ExtendsReflexive(s.channel);
    } else {
      UpdateExtends(s.channel, u.value.id, u.value.mutation, u.value.now);
    }
  }

  /** A call may only be about to delete a message that exists. */
  ghost predicate DeletingKnown(c: Channel, deleting: map<CallId, int>) {
    forall call | call in deleting :: deleting[call] in c.messages
  }

  lemma StepDeleting(s: System, a: Action)
    requires DeletingKnown(s.channel, s.deleting)
    ensures DeletingKnown(s.channel, Step(s, a).deleting)
  {
  }

  lemma StepKeepsGood(s: System, a: Action)
    requires Good(s)
    ensures Good(Step(s, a)) && Extends(s.channel, Step(s, a).channel)
  {
    StepDeleting(s, a);
    StepExtends(s, a);
    KnownStaysKnown(s.channel, Step(s, a).channel, Step(s, a).deleting);
  }

  lemma KnownStaysKnown(c: Channel, c': Channel, deleting: map<CallId, int>)
    requires DeletingKnown(c, deleting) && Extends(c, c')
    ensures DeletingKnown(c', deleting)
  {
    forall call | call in deleting ensures deleting[call] in c'.messages {
      var id := deleting[call];
      assert id in c.messages;
    }
  }

  // ---------------------------------------------------------- main results

  /** Every run keeps the invariant, and its last state extends its first. */
  lemma {:induction false} RunKeepsGood(s: System, actions: seq<Action>)
    requires Good(s)
    ensures Good(Run(s, actions)) && Extends(s.channel, Run(s, actions).channel)
    decreases |actions|
  {
    if actions != [] {
      StepKeepsGood(s, actions[0]);
      RunKeepsGood(Step(s, actions[0]), actions[1..]);
      ExtendsTransitive(s.channel, Step(s, actions[0]).channel, Run(s, actions).channel);
    }
  }

  /** From a new channel on, the tables are the fold of the change log. */
  lemma TablesAreFoldOfLog(c: Channel, actions: seq<Action>)
    requires Fresh(c)
    ensures Consistent(Run(System(c, map[]), actions).channel)
  {
    FreshIsConsistent(c);
    RunKeepsGood(System(c, map[]), actions);
  }

  /** No two message rows of a reachable state share a seq. */
  lemma MessageSeqsDistinct(c: Channel, i: int, j: int)
    requires Consistent(c)
    requires i in c.messages && j in c.messages && i != j
    ensures c.messages[i].seqNo != c.messages[j].seqNo
  {
    assert RepeatsLastChange(c, i) && RepeatsLastChange(c, j);
  }

  /**
   A deleted message stays deleted, blank, and all its later changes say so,
   whatever the other callers do, even with deletes that passed their check
   before the first one committed.
   */
  lemma TombstoneIsPermanent(s: System, actions: seq<Action>, id: int)
    requires Good(s) && id in s.channel.messages && s.channel.messages[id].isDeleted
    ensures var c' := Run(s, actions).channel;
      && id in c'.messages
      && c'.messages[id].isDeleted
      && c'.messages[id].messageType == TYPE_DELETED
      && c'.messages[id].content == EMPTY_CONTENT
      && forall k | k in c'.changes && s.channel.messages[id].seqNo <= k ::
           IsFor(c'.changes[k], id) ==> c'.changes[k].isDeleted
  {
    RunKeepsGood(s, actions);
    TombstoneKept(s.channel, Run(s, actions).channel, id);
  }

  lemma TombstoneKept(c: Channel, c': Channel, id: int)
    requires Extends(c, c') && TombstonesBlank(c)
    requires id in c.messages && c.messages[id].isDeleted && RepeatsLastChange(c, id)
    ensures id in c'.messages && c'.messages[id].isDeleted
    ensures c'.messages[id].messageType == TYPE_DELETED && c'.messages[id].content == EMPTY_CONTENT
    ensures forall k | k in c'.changes && c.messages[id].seqNo <= k ::
      IsFor(c'.changes[k], id) ==> c'.changes[k].isDeleted
  {
    assert RowExtends(c.messages[id], c'.messages[id]);
    forall k | k in c'.changes && c.messages[id].seqNo <= k && IsFor(c'.changes[k], id)
      ensures c'.changes[k].isDeleted
    {
      if k <= c.head.lastSeq { LogUnchanged(c, c', k); }
    }
  }

  // -------------------------------------------------------- serial requests

  function CountDeletes(log: seq<Change>, id: int): nat {
    if log == [] then 0 else
      CountDeletes(log[..|log| - 1], id) +
      if IsFor(log[|log| - 1], id) && log[|log| - 1].isDeleted then 1 else 0
  }

  /** A request whose unlocked read and transaction nothing separates. */
  datatype Request =
    | ProfileRequest(user: UserId, profile: Profile, now: int)
    | CreateRequest(user: UserId, messageType: string, content: Content, now: int)
    | EditRequest(user: UserId, id: int, messageType: string, content: Content, now: int)
    | DeleteRequest(user: UserId, id: int, now: int)

  function Serve(c: Channel, r: Request): Channel {
    match r
    case ProfileRequest(user, profile, now) => Step(System(c, map[]), UpdateProfile(user, profile, now)).channel
    case CreateRequest(user, messageType, content, now) =>
      Step(System(c, map[]), Create(user, messageType, content, now)).channel
    case EditRequest(user, id, messageType, content, now) =>
      Step(System(c, map[]), Action.Edit(user, id, messageType, content, now)).channel
    case DeleteRequest(user, id, now) => CommittedOr(c, SerialDelete(c, user, id, now))
  }

  function ServeAll(c: Channel, requests: seq<Request>): Channel
    decreases |requests|
  {
    if requests == [] then c else ServeAll(Serve(c, requests[0]), requests[1..])
  }

  ghost predicate DeletedOnce(c: Channel) {
    && Consistent(c) && TombstonesBlank(c)
    && forall id :: CountDeletes(Log(c), id) == if id in c.messages && c.messages[id].isDeleted then 1 else 0
  }

  lemma CountDeletesAppend(log: seq<Change>, change: Change, id: int)
    ensures CountDeletes(log + [change], id) ==
            CountDeletes(log, id) + if IsFor(change, id) && change.isDeleted then 1 else 0
  {
    assert (log + [change])[..|log|] == log;
  }

  lemma AppendKeepsDeletedOnce(c: Channel, c': Channel, change: Change)
    requires DeletedOnce(c) && Appends(c, c', change) && TombstonesBlank(c')
    requires change.MessageChange? && change.messageId in c.messages ==> !c.messages[change.messageId].isDeleted
    ensures DeletedOnce(c')
  {
    AppendKeepsConsistent(c, c', change);
    AppendGrowsLog(c, c', change);
    forall id
      ensures CountDeletes(Log(c'), id) == if id in c'.messages && c'.messages[id].isDeleted then 1 else 0
    {
      CountDeletesAppend(Log(c), change, id);
    }
  }

  lemma UpdateKeepsDeletedOnce(c: Channel, id: int, mutation: Mutation, now: int)
    requires DeletedOnce(c) && id in c.messages && !c.messages[id].isDeleted
    ensures DeletedOnce(CommittedOr(c, UpdateMessageTx(c, id, mutation, now)))
  {
    UpdateAppends(c, id, mutation, now);
    UpdateExtends(c, id, mutation, now);
    var tx := UpdateMessageTx(c, id, mutation, now);
    AppendKeepsDeletedOnce(c, tx.value.0, ChangeOf(tx.value.1));
  }

  lemma ProfileKeepsDeletedOnce(c: Channel, profile: Profile, now: int)
    requires DeletedOnce(c)
    ensures var tx := UpdateProfileTx(c, profile, now); tx.Ok? && DeletedOnce(tx.value)
  {
    UpdateProfileAppends(c, profile, now);
    AppendKeepsDeletedOnce(c, UpdateProfileTx(c, profile, now).value,
                           ProfileChange(c.head.lastSeq + 1, c.head.profileVersion + 1, now));
  }

  lemma CreateKeepsDeletedOnce(c: Channel, messageType: string, content: Content, now: int)
    requires DeletedOnce(c)
    ensures DeletedOnce(CommittedOr(c, CreateMessageTx(c, messageType, content, now)))
  {
    CreateAppends(c, messageType, content, now);
    var tx := CreateMessageTx(c, messageType, content, now);
    AppendKeepsDeletedOnce(c, tx.value.0, ChangeOf(tx.value.1));
  }

  /** What a served update is: nothing, or a transaction on a row that is not deleted. */
  lemma ServedUpdate(c: Channel, r: Request)
    requires r.EditRequest? || r.DeleteRequest?
    ensures var mutation := if r.EditRequest? then Mutation.Edit(r.messageType, r.content) else Tombstone;
      || Serve(c, r) == c
      || (r.id in c.messages && !c.messages[r.id].isDeleted
          && Serve(c, r) == CommittedOr(c, UpdateMessageTx(c, r.id, mutation, r.now)))
  {
  }

  lemma ServedInsert(c: Channel, r: Request)
    requires r.ProfileRequest? || r.CreateRequest?
    ensures r.ProfileRequest? ==>
      Serve(c, r) == c || Serve(c, r) == if UpdateProfileTx(c, r.profile, r.now).Ok?
                                         then UpdateProfileTx(c, r.profile, r.now).value else c
    ensures r.CreateRequest? ==>
      Serve(c, r) == c || Serve(c, r) == CommittedOr(c, CreateMessageTx(c, r.messageType, r.content, r.now))
  {
  }

  lemma ServeKeepsDeletedOnce(c: Channel, r: Request)
    requires DeletedOnce(c)
    ensures DeletedOnce(Serve(c, r))
  {
    if r.EditRequest? || r.DeleteRequest? {
      ServedUpdate(c, r);
      if Serve(c, r) != c {
        UpdateKeepsDeletedOnce(c, r.id, if r.EditRequest? then Mutation.Edit(r.messageType, r.content) else Tombstone,
                               r.now);
      }
    } else {
      ServedInsert(c, r);
      if r.ProfileRequest? {
        ProfileKeepsDeletedOnce(c, r.profile, r.now);
      } else {
        CreateKeepsDeletedOnce(c, r.messageType, r.content, r.now);
      }
    }
  }

  lemma {:induction false} ServeAllKeepsDeletedOnce(c: Channel, requests: seq<Request>)
    requires DeletedOnce(c)
    ensures DeletedOnce(ServeAll(c, requests))
    decreases |requests|
  {
    if requests != [] {
      ServeKeepsDeletedOnce(c, requests[0]);
      ServeAllKeepsDeletedOnce(Serve(c, requests[0]), requests[1..]);
    }
  }

  /** With serial requests a deleted message has exactly one delete change, and it is its last change. */
  lemma SerialDeleteIsLast(c: Channel, requests: seq<Request>, id: int)
    requires Fresh(c)
    ensures var c' := ServeAll(c, requests);
      && Consistent(c')
      && (id in c'.messages && c'.messages[id].isDeleted ==>
          && CountDeletes(Log(c'), id) == 1
          && RepeatsLastChange(c', id)
          && c'.changes[c'.messages[id].seqNo].isDeleted)
      && (!(id in c'.messages && c'.messages[id].isDeleted) ==> CountDeletes(Log(c'), id) == 0)
  {
    FreshIsConsistent(c);
    assert Log(c) == [];
    ServeAllKeepsDeletedOnce(c, requests);
  }

  lemma DeleteIsLogged(c: Channel, id: int, now: int)
    requires Consistent(c) && id in c.messages
    ensures var tx := UpdateMessageTx(c, id, Tombstone, now);
      tx.Ok? && Indexed(tx.value.0) && CountDeletes(Log(tx.value.0), id) == CountDeletes(Log(c), id) + 1
  {
    UpdateAppends(c, id, Tombstone, now);
    var tx := UpdateMessageTx(c, id, Tombstone, now);
    AppendGrowsLog(c, tx.value.0, ChangeOf(tx.value.1));
    CountDeletesAppend(Log(c), ChangeOf(tx.value.1), id);
  }

  lemma DeleteCommitStep(s: System, call: CallId, now: int)
    requires call in s.deleting && UpdateMessageTx(s.channel, s.deleting[call], Tombstone, now).Ok?
    ensures Step(s, DeleteCommit(call, now)) ==
      System(UpdateMessageTx(s.channel, s.deleting[call], Tombstone, now).value.0, s.deleting - {call})
  {
  }

  lemma DeleteCommitIsLogged(s: System, call: CallId, now: int)
    requires Consistent(s.channel) && call in s.deleting && s.deleting[call] in s.channel.messages
    ensures var s' := Step(s, DeleteCommit(call, now));
      && s'.deleting == s.deleting - {call}
      && Indexed(s'.channel)
      && CountDeletes(Log(s'.channel), s.deleting[call]) == CountDeletes(Log(s.channel), s.deleting[call]) + 1
  {
    DeleteIsLogged(s.channel, s.deleting[call], now);
    DeleteCommitStep(s, call, now);
  }

  /** Two calls of the owner check a message before either commits its deletion. */
  function Race(owner: UserId, id: int, a: CallId, b: CallId, now: int): seq<Action> {
    [DeleteCheck(a, owner, id), DeleteCheck(b, owner, id), DeleteCommit(a, now), DeleteCommit(b, now)]
  }

  /**
   Without serial requests the count exceeds one: two deletes that both pass the
   unlocked read both commit, because the transaction does not look again.
   */
  lemma RacingDeletesAreBothLogged(s: System, id: int, a: CallId, b: CallId, now: int)
    requires Good(s) && a != b
    requires id in s.channel.messages && !s.channel.messages[id].isDeleted
    ensures var end := Run(s, Race(s.channel.head.ownerUserId, id, a, b, now)).channel;
      Consistent(end) && CountDeletes(Log(end), id) == CountDeletes(Log(s.channel), id) + 2
  {
    RaceRuns(s, id, a, b, now);
    BothCommitsAreLogged(System(s.channel, s.deleting[a := id][b := id]), a, b, now);
  }

  lemma RaceRuns(s: System, id: int, a: CallId, b: CallId, now: int)
    requires id in s.channel.messages && !s.channel.messages[id].isDeleted
    ensures var s2 := System(s.channel, s.deleting[a := id][b := id]);
      Run(s, Race(s.channel.head.ownerUserId, id, a, b, now)) ==
      Step(Step(s2, DeleteCommit(a, now)), DeleteCommit(b, now))
  {
    var owner := s.channel.head.ownerUserId;
    var checks, commits := [DeleteCheck(a, owner, id), DeleteCheck(b, owner, id)],
      [DeleteCommit(a, now), DeleteCommit(b, now)];
    ChecksPass(s, id, a, b);
    RunAppend(s, checks, commits);
    RunTwo(System(s.channel, s.deleting[a := id][b := id]), commits[0], commits[1]);
    assert checks + commits == [checks[0], checks[1], commits[0], commits[1]];
  }

  lemma ChecksPass(s: System, id: int, a: CallId, b: CallId)
    requires id in s.channel.messages && !s.channel.messages[id].isDeleted
    ensures var owner := s.channel.head.ownerUserId;
      Run(s, [DeleteCheck(a, owner, id), DeleteCheck(b, owner, id)]) ==
      System(s.channel, s.deleting[a := id][b := id])
  {
    var owner := s.channel.head.ownerUserId;
    RunTwo(s, DeleteCheck(a, owner, id), DeleteCheck(b, owner, id));
  }

  lemma BothCommitsAreLogged(s: System, a: CallId, b: CallId, now: int)
    requires Consistent(s.channel) && TombstonesBlank(s.channel) && a != b
    requires a in s.deleting && b in s.deleting && s.deleting[a] == s.deleting[b]
    requires s.deleting[a] in s.channel.messages
    ensures var end := Step(Step(s, DeleteCommit(a, now)), DeleteCommit(b, now)).channel;
      var id := s.deleting[a];
      Consistent(end) && CountDeletes(Log(end), id) == CountDeletes(Log(s.channel), id) + 2
  {
    DeleteCommitIsLogged(s, a, now);
    StepExtends(s, DeleteCommit(a, now));
    DeleteCommitIsLogged(Step(s, DeleteCommit(a, now)), b, now);
    StepExtends(Step(s, DeleteCommit(a, now)), DeleteCommit(b, now));
  }

  lemma RunTwo(s: System, a: Action, b: Action)
    ensures Run(s, [a, b]) == Step(Step(s, a), b)
  {
    assert Run(Step(s, a), [b]) == Run(Step(Step(s, a), b), []);
  }

  lemma {:induction false} RunAppend(s: System, first: seq<Action>, rest: seq<Action>)
    ensures Run(s, first + rest) == Run(Run(s, first), rest)
    decreases |first|
  {
    if first == [] {
      assert first + rest == rest;
    } else {
      assert (first + rest)[1..] == first[1..] + rest;
      RunAppend(Step(s, first[0]), first[1..], rest);
    }
  }
}
