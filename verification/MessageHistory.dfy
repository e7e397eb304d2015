/**
 Runs of the group message tables with any number of callers: references,
 edit history and deletion.
 */
module MessageHistory {
  import opened Common
  import opened Permissions
  import opened GroupMessages
  import GroupMembers
  import opened Pages

  type CallId = nat

  /**
   A step of some caller. Sending is two steps: the unlocked checks, and the
   transaction of a draft that passed them. Editing and deleting re-read the
   row under its lock, so they are one step each.
   */
  datatype Event =
    | OpenGroup(group: GroupId)
    | SetPolicy(group: GroupId, ttlSeconds: int, retractSeconds: int)
    | Check(call: CallId, draft: Draft, perms: Bits, inSourceGroup: bool, now: Nanos)
    | Send(call: CallId, id: MessageId, now: Nanos)
    | Edit(user: UserId, group: GroupId, id: MessageId, payload: Option<string>, seen: GroupMembers.State, now: Nanos)
    | Delete(user: UserId, group: GroupId, id: MessageId, how: Deleter, now: Nanos)
    | Abort

  datatype System = System(store: Store, drafts: map<CallId, Draft>)

  const EMPTY := System(Store(map[], map[], [], 1), map[])

  function StoreOr(s: Store, tx: Result<Store, MessageError>): Store {
    if tx.Ok? then tx.value else s
  }

  function Step(s: System, e: Event): System {
    var st := s.store;
    match e
    case OpenGroup(group) =>
      if group in st.groups then s else
      s.(store := st.(groups := st.groups[group := Group(0, 0, 0, 300, map[])]))
    case SetPolicy(group, ttl, retract) =>
      if group !in st.groups || ttl < 0 || retract < 0 then s else
      s.(store := st.(groups := st.groups[group := st.groups[group].(ttlSeconds := ttl, retractSeconds := retract)]))
    case Check(call, draft, perms, inSourceGroup, now) =>
      if CheckDraft(st, draft, perms, inSourceGroup, now).Err? then s else
      s.(drafts := s.drafts[call := draft])
    case Send(call, id, now) =>
      if call !in s.drafts then s else
      System(StoreOr(st, SendTx(st, s.drafts[call], id, now)), s.drafts - {call})
    case Edit(user, group, id, payload, seen, now) =>
      s.(store := StoreOr(st, EditTx(st, user, group, id, payload, seen, now)))
    case Delete(user, group, id, how, now) => s.(store := StoreOr(st, DeleteTx(st, user, group, id, how, now)))
    case Abort => s
  }

  function Run(s: System, events: seq<Event>): System
    decreases |events|
  {
    if events == [] then s else Run(Step(s, events[0]), events[1..])
  }

  // -------------------------------------------------------------- invariant

  /** The seqs of a group are exactly 1..lastSeq and its index leads to the rows that carry them. */
  ghost predicate GroupIndexed(s: Store, group: GroupId)
    requires group in s.groups
  {
    var g := s.groups[group];
    && Dense(g.index.Keys, g.lastSeq)
    && forall n | n in g.index ::
         g.index[n] in s.messages && s.messages[g.index[n]].group == group && s.messages[g.index[n]].seqNo == n
  }

  ghost predicate RowIndexed(s: Store, id: MessageId)
    requires id in s.messages
  {
    var m := s.messages[id];
    && m.rowId < s.nextRow
    && m.group in s.groups
    && m.seqNo in s.groups[m.group].index
    && s.groups[m.group].index[m.seqNo] == id
  }

  ghost predicate Indexed(s: Store) {
    && (forall group | group in s.groups :: GroupIndexed(s, group))
    && (forall id | id in s.messages :: RowIndexed(s, id))
  }

  /** What a draft refers to has been stored. */
  ghost predicate TargetsKnown(s: Store, d: Draft) {
    && (d.replyTo.Some? ==> d.replyTo.value in s.messages && s.messages[d.replyTo.value].group == d.group)
    && (d.forwardFrom.Some? ==> d.forwardFrom.value in s.messages)
    && !(d.replyTo.Some? && d.forwardFrom.Some?)
  }

  /** A reply points back within its group, a forward to a row inserted before, and no message does both. */
  ghost predicate RefsOk(s: Store, m: Message) {
    && (m.replyTo.Some? ==>
          && m.replyTo.value in s.messages
          && s.messages[m.replyTo.value].group == m.group
          && s.messages[m.replyTo.value].seqNo < m.seqNo)
    && (m.forwardFrom.Some? ==>
          m.forwardFrom.value in s.messages && s.messages[m.forwardFrom.value].rowId < m.rowId)
    && !(m.replyTo.Some? && m.forwardFrom.Some?)
  }

  /** The edit rows of one message, oldest first. */
  function EditsOf(edits: seq<EditRow>, id: MessageId): seq<EditRow> {
    if edits == [] then [] else
      EditsOf(edits[..|edits| - 1], id) + if edits[|edits| - 1].message == id then [edits[|edits| - 1]] else []
  }

  /** Each row starts from the payload the one before it left, and the last one left the stored payload. */
  ghost predicate IsChain(rows: seq<EditRow>, payload: string) {
    && (forall i | 0 <= i < |rows| - 1 :: rows[i].newPayload == rows[i + 1].oldPayload)
    && (rows != [] ==> rows[|rows| - 1].newPayload == payload)
  }

  ghost predicate HistoryOk(s: Store, id: MessageId)
    requires id in s.messages
  {
    var rows, m := EditsOf(s.edits, id), s.messages[id];
    && IsChain(rows, m.payload)
    && m.editCount == |rows| <= MAX_INT32
    && m.lastEditedBy == (if rows == [] then None else Some(m.sender))
    && forall i | 0 <= i < |rows| :: rows[i].editor == m.sender && rows[i].group == m.group
  }

  ghost predicate EditsKnown(s: Store) {
    forall i | 0 <= i < |s.edits| :: s.edits[i].message in s.messages
  }

  ghost predicate Valid(s: Store) {
    && Indexed(s)
    && (forall id | id in s.messages :: RefsOk(s, s.messages[id]))
    && (forall id | id in s.messages :: HistoryOk(s, id))
    && EditsKnown(s)
  }

  ghost predicate Good(s: System) {
    Valid(s.store) && forall call | call in s.drafts :: TargetsKnown(s.store, s.drafts[call])
  }

  /** The payload a message was sent with, as its history tells it. */
  function Original(s: Store, id: MessageId): string
    requires id in s.messages
  {
    var rows := EditsOf(s.edits, id);
    if rows == [] then s.messages[id].payload else rows[0].oldPayload
  }

  // --------------------------------------------------------------- evolution

  ghost predicate RowExtends(m: Message, m': Message) {
    && m' == m.(payload := m'.payload, status := m'.status, editCount := m'.editCount, lastEditedAt := m'.lastEditedAt,
               lastEditedBy := m'.lastEditedBy)
    && m.editCount <= m'.editCount
    && (m.status.Deleted? ==> m' == m)
  }

  /** No edit row is added for a message that was deleted. */
  ghost predicate EditsExtend(s: Store, s': Store) {
    && s.edits <= s'.edits
    && forall i | |s.edits| <= i < |s'.edits| ::
         s'.edits[i].message in s.messages ==> !s.messages[s'.edits[i].message].status.Deleted?
  }

  ghost predicate Extends(s: Store, s': Store) {
    && (forall id | id in s.messages ::
          && id in s'.messages
          && RowExtends(s.messages[id], s'.messages[id])
          && Original(s', id) == Original(s, id))
    && EditsExtend(s, s')
    && s.nextRow <= s'.nextRow
  }

  lemma ExtendsReflexive(s: Store)
    ensures Extends(s, s)
  {
  }

  lemma ExtendsTransitive(a: Store, b: Store, c: Store)
    requires Extends(a, b) && Extends(b, c)
    ensures Extends(a, c)
  {
    forall i | |a.edits| <= i < |c.edits| && c.edits[i].message in a.messages
      ensures !a.messages[c.edits[i].message].status.Deleted?
    {
      if i < |b.edits| {
        assert c.edits[i] == b.edits[i];
      } else {
        var id := c.edits[i].message;
        assert RowExtends(a.messages[id], b.messages[id]);
      }
    }
  }

  // ------------------------------------------------------------ one insert

  /** s' is s with the draft's row inserted under the next seq of its group. */
  lemma SendKeepsIndexed(s: Store, d: Draft, id: MessageId, now: Nanos)
    requires Indexed(s)
    ensures var tx := SendTx(s, d, id, now); tx.Ok? ==> Indexed(tx.value)
  {
    var tx := SendTx(s, d, id, now);
    if tx.Ok? {
      var s' := tx.value;
      forall group | group in s'.groups ensures GroupIndexed(s', group) {
        assert GroupIndexed(s, group);
      }
      forall k | k in s'.messages ensures RowIndexed(s', k) {
        if k != id { assert RowIndexed(s, k); }
      }
    }
  }

  lemma SendKeepsRefs(s: Store, d: Draft, id: MessageId, now: Nanos)
    requires Indexed(s) && TargetsKnown(s, d)
    requires forall k | k in s.messages :: RefsOk(s, s.messages[k])
    ensures var tx := SendTx(s, d, id, now);
      tx.Ok? ==> forall k | k in tx.value.messages :: RefsOk(tx.value, tx.value.messages[k])
  {
    var tx := SendTx(s, d, id, now);
    if tx.Ok? {
      var s' := tx.value;
      forall k | k in s'.messages ensures RefsOk(s', s'.messages[k]) {
        if k != id {
          assert RefsOk(s, s.messages[k]);
        } else {
          if d.replyTo.Some? { assert RowIndexed(s, d.replyTo.value) && GroupIndexed(s, d.group); }
          if d.forwardFrom.Some? { assert RowIndexed(s, d.forwardFrom.value); }
        }
      }
    }
  }

  lemma {:induction false} NoEditsOfUnknown(edits: seq<EditRow>, id: MessageId)
    requires forall i | 0 <= i < |edits| :: edits[i].message != id
    ensures EditsOf(edits, id) == []
  {
    if edits != [] {
      NoEditsOfUnknown(edits[..|edits| - 1], id);
    }
  }

  lemma SendKeepsHistory(s: Store, d: Draft, id: MessageId, now: Nanos)
    requires EditsKnown(s) && forall k | k in s.messages :: HistoryOk(s, k)
    ensures var tx := SendTx(s, d, id, now);
      tx.Ok? ==> EditsKnown(tx.value) && forall k | k in tx.value.messages :: HistoryOk(tx.value, k)
  {
    var tx := SendTx(s, d, id, now);
    if tx.Ok? {
      NoEditsOfUnknown(s.edits, id);
      forall k | k in tx.value.messages ensures HistoryOk(tx.value, k) {
        if k != id { assert HistoryOk(s, k); }
      }
    }
  }

  lemma SendExtends(s: Store, d: Draft, id: MessageId, now: Nanos)
    requires EditsKnown(s)
    ensures var tx := SendTx(s, d, id, now);
      tx.Ok? ==> Original(tx.value, id) == d.payload && Extends(s, tx.value)
  {
    var tx := SendTx(s, d, id, now);
    if tx.Ok? {
      NoEditsOfUnknown(s.edits, id);
    }
  }

  lemma SendKeepsValid(s: Store, d: Draft, id: MessageId, now: Nanos)
    requires Valid(s) && TargetsKnown(s, d)
    ensures var s' := StoreOr(s, SendTx(s, d, id, now)); Valid(s') && Extends(s, s')
  {
    ExtendsReflexive(s);
    SendKeepsIndexed(s, d, id, now);
    SendKeepsRefs(s, d, id, now);
    SendKeepsHistory(s, d, id, now);
    SendExtends(s, d, id, now);
  }

  // ------------------------------------------------------- rewriting a row

  /** s' is s with one row rewritten in the columns an edit or a deletion may touch. */
  ghost predicate Rewrites(s: Store, s': Store, id: MessageId) {
    && id in s.messages && id in s'.messages
    && s' == s.(messages := s.messages[id := s'.messages[id]], edits := s'.edits)
    && RowExtends(s.messages[id], s'.messages[id])
  }

  lemma RewriteKeepsRows(s: Store, s': Store, id: MessageId)
    requires Indexed(s) && Rewrites(s, s', id)
    requires forall k | k in s.messages :: RefsOk(s, s.messages[k])
    ensures Indexed(s') && forall k | k in s'.messages :: RefsOk(s', s'.messages[k])
  {
    forall group | group in s'.groups ensures GroupIndexed(s', group) {
      assert GroupIndexed(s, group);
    }
    forall k | k in s'.messages ensures RowIndexed(s', k) && RefsOk(s', s'.messages[k]) {
      assert RowIndexed(s, k) && RefsOk(s, s.messages[k]);
    }
  }

  lemma EditsOfAppend(edits: seq<EditRow>, row: EditRow, id: MessageId)
    ensures EditsOf(edits + [row], id) == EditsOf(edits, id) + if row.message == id then [row] else []
  {
    assert (edits + [row])[..|edits|] == edits;
  }

  /** One more edit row, from the payload that was stored to the one that is. */
  lemma AppendKeepsHistory(s: Store, s': Store, id: MessageId, row: EditRow, k: MessageId)
    requires id in s.messages && k in s.messages && HistoryOk(s, k)
    requires id in s'.messages && s'.messages == s.messages[id := s'.messages[id]] && s'.edits == s.edits + [row]
    requires row.message == id && row.oldPayload == s.messages[id].payload
    requires row.editor == s.messages[id].sender && row.group == s.messages[id].group
    requires var m := s.messages[id]; var m' := s'.messages[id];
      m'.payload == row.newPayload && m'.editCount == m.editCount + 1 <= MAX_INT32
      && m'.lastEditedBy == Some(m.sender) && m'.sender == m.sender && m'.group == m.group
    ensures k in s'.messages && HistoryOk(s', k) && Original(s', k) == Original(s, k)
  {
    EditsOfAppend(s.edits, row, k);
  }

  lemma EditKeepsHistory(s: Store, user: UserId, group: GroupId, id: MessageId, payload: Option<string>,
                         seen: GroupMembers.State, now: Nanos)
    requires EditsKnown(s) && forall k | k in s.messages :: HistoryOk(s, k)
    ensures var tx := EditTx(s, user, group, id, payload, seen, now);
      tx.Ok? ==>
      && Rewrites(s, tx.value, id)
      && EditsKnown(tx.value) && EditsExtend(s, tx.value)
      && (forall k | k in tx.value.messages :: HistoryOk(tx.value, k))
      && (forall k | k in s.messages :: Original(tx.value, k) == Original(s, k))
  {
    var tx := EditTx(s, user, group, id, payload, seen, now);
    if tx.Ok? {
      var row := EditRow(group, id, user, s.messages[id].payload, payload.value);
      assert HistoryOk(s, id);
      forall k | k in s.messages ensures HistoryOk(tx.value, k) && Original(tx.value, k) == Original(s, k) {
        AppendKeepsHistory(s, tx.value, id, row, k);
      }
    }
  }

  lemma RewriteKeepsValid(s: Store, s': Store, id: MessageId)
    requires Indexed(s) && forall k | k in s.messages :: RefsOk(s, s.messages[k])
    requires Rewrites(s, s', id) && EditsExtend(s, s') && EditsKnown(s')
    requires forall k | k in s.messages :: HistoryOk(s', k) && Original(s', k) == Original(s, k)
    ensures Valid(s') && Extends(s, s')
  {
    RewriteKeepsRows(s, s', id);
  }

  lemma EditKeepsValid(s: Store, user: UserId, group: GroupId, id: MessageId, payload: Option<string>,
                       seen: GroupMembers.State, now: Nanos)
    requires Valid(s)
    ensures var s' := StoreOr(s, EditTx(s, user, group, id, payload, seen, now)); Valid(s') && Extends(s, s')
  {
    ExtendsReflexive(s);
    EditKeepsHistory(s, user, group, id, payload, seen, now);
    var tx := EditTx(s, user, group, id, payload, seen, now);
    if tx.Ok? { RewriteKeepsValid(s, tx.value, id); }
  }

  lemma DeleteRewrites(s: Store, user: UserId, group: GroupId, id: MessageId, how: Deleter, now: Nanos)
    ensures var s' := StoreOr(s, DeleteTx(s, user, group, id, how, now));
      s' != s ==>
      && Rewrites(s, s', id) && s'.edits == s.edits
      && s'.messages[id] == s.messages[id].(status := s'.messages[id].status)
  {
  }

  lemma StatusKeepsHistory(s: Store, s': Store, id: MessageId, k: MessageId)
    requires k in s.messages && HistoryOk(s, k)
    requires id in s.messages && id in s'.messages && s'.edits == s.edits
    requires s'.messages == s.messages[id := s.messages[id].(status := s'.messages[id].status)]
    ensures k in s'.messages && HistoryOk(s', k) && Original(s', k) == Original(s, k)
  {
  }

  lemma DeleteKeepsValid(s: Store, user: UserId, group: GroupId, id: MessageId, how: Deleter, now: Nanos)
    requires Valid(s)
    ensures var s' := StoreOr(s, DeleteTx(s, user, group, id, how, now)); Valid(s') && Extends(s, s')
  {
    ExtendsReflexive(s);
    DeleteRewrites(s, user, group, id, how, now);
    var s' := StoreOr(s, DeleteTx(s, user, group, id, how, now));
    if s' != s {
      forall k | k in s.messages ensures HistoryOk(s', k) && Original(s', k) == Original(s, k) {
        StatusKeepsHistory(s, s', id, k);
      }
      RewriteKeepsValid(s, s', id);
    }
  }

  lemma GroupStepKeepsValid(s: Store, group: GroupId, g: Group)
    requires Valid(s)
    requires if group in s.groups
      then g == s.groups[group].(ttlSeconds := g.ttlSeconds, retractSeconds := g.retractSeconds)
      else g.lastSeq == 0 && g.index == map[]
    ensures var s' := s.(groups := s.groups[group := g]); Valid(s') && Extends(s, s')
  {
    var s' := s.(groups := s.groups[group := g]);
    forall h | h in s'.groups ensures GroupIndexed(s', h) {
      if h in s.groups { assert GroupIndexed(s, h); }
    }
    forall k | k in s'.messages ensures RowIndexed(s', k) && RefsOk(s', s'.messages[k]) && HistoryOk(s', k) {
      assert RowIndexed(s, k) && RefsOk(s, s.messages[k]) && HistoryOk(s, k);
    }
    assert Extends(s, s') by { ExtendsReflexive(s); }
  }

  // ------------------------------------------------------------------- runs

  lemma CheckedTargetsKnown(s: Store, d: Draft, perms: Bits, inSourceGroup: bool, now: Nanos)
    requires CheckDraft(s, d, perms, inSourceGroup, now).Ok?
    ensures TargetsKnown(s, d)
  {
  }

  lemma TargetsStayKnown(s: Store, s': Store, d: Draft)
    requires TargetsKnown(s, d) && Extends(s, s')
    ensures TargetsKnown(s', d)
  {
    if d.replyTo.Some? { assert RowExtends(s.messages[d.replyTo.value], s'.messages[d.replyTo.value]); }
  }

  lemma PolicyStepKeepsStore(s: System, e: Event)
    requires Valid(s.store) && (e.OpenGroup? || e.SetPolicy?)
    ensures Valid(Step(s, e).store) && Extends(s.store, Step(s, e).store)
  {
    ExtendsReflexive(s.store);
    var groups := s.store.groups;
    if e.OpenGroup? && e.group !in groups {
      GroupStepKeepsValid(s.store, e.group, Group(0, 0, 0, 300, map[]));
    } else if e.SetPolicy? && e.group in groups {
      GroupStepKeepsValid(s.store, e.group,
                          groups[e.group].(ttlSeconds := e.ttlSeconds, retractSeconds := e.retractSeconds));
    }
  }

  lemma RewriteStepKeepsStore(s: System, e: Event)
    requires Valid(s.store) && (e.Edit? || e.Delete?)
    ensures Valid(Step(s, e).store) && Extends(s.store, Step(s, e).store)
  {
    if e.Edit? {
      EditKeepsValid(s.store, e.user, e.group, e.id, e.payload, e.seen, e.now);
    } else {
      DeleteKeepsValid(s.store, e.user, e.group, e.id, e.how, e.now);
    }
  }

  lemma SendStepKeepsStore(s: System, e: Event)
    requires Good(s) && e.Send?
    ensures Valid(Step(s, e).store) && Extends(s.store, Step(s, e).store)
  {
    ExtendsReflexive(s.store);
    if e.call in s.drafts { SendKeepsValid(s.store, s.drafts[e.call], e.id, e.now); }
  }

  lemma StepKeepsStore(s: System, e: Event)
    requires Good(s)
    ensures Valid(Step(s, e).store) && Extends(s.store, Step(s, e).store)
  {
    if e.Check? || e.Abort? {
      ExtendsReflexive(s.store);
    } else if e.Send? {
      SendStepKeepsStore(s, e);
    } else if e.Edit? || e.Delete? {
      RewriteStepKeepsStore(s, e);
    } else {
      PolicyStepKeepsStore(s, e);
    }
  }

  lemma StepKeepsGood(s: System, e: Event)
    requires Good(s)
    ensures Good(Step(s, e)) && Extends(s.store, Step(s, e).store)
  {
    StepKeepsStore(s, e);
    var s' := Step(s, e);
    forall call | call in s'.drafts ensures TargetsKnown(s'.store, s'.drafts[call]) {
      if e.Check? && e.call == call && s'.drafts[call] == e.draft && s' != s {
        CheckedTargetsKnown(s.store, e.draft, e.perms, e.inSourceGroup, e.now);
      }
      TargetsStayKnown(s.store, s'.store, s'.drafts[call]);
    }
  }

  lemma {:induction false} RunKeepsGood(s: System, events: seq<Event>)
    requires Good(s)
    ensures Good(Run(s, events)) && Extends(s.store, Run(s, events).store)
    decreases |events|
  {
    ExtendsReflexive(s.store);
    if events != [] {
      StepKeepsGood(s, events[0]);
      RunKeepsGood(Step(s, events[0]), events[1..]);
      ExtendsTransitive(s.store, Step(s, events[0]).store, Run(s, events).store);
    }
  }

  ghost predicate Reachable(s: System) {
    exists events :: s == Run(EMPTY, events)
  }

  lemma ReachableIsGood(s: System)
    requires Reachable(s)
    ensures Good(s)
  {
    var events :| s == Run(EMPTY, events);
    assert Good(EMPTY);
    RunKeepsGood(EMPTY, events);
  }

  // ------------------------------------------------------------- references

  datatype Forward = Missing | Unavailable | DeletedOrExpired | Shown(source: MessageId)

  /** resolveForwardReference for a viewer who is or is not in the source's group, or for the admin view. */
  function ResolveForward(s: Store, source: MessageId, inSourceGroup: bool, adminView: bool, now: Nanos): Forward {
    if source !in s.messages || s.messages[source].group !in s.groups then Missing
    else if !adminView && !inSourceGroup then Unavailable
    else if !adminView && (s.messages[source].status.Deleted? ||
              !IsVisibleByTtl(s.groups[s.messages[source].group].ttlSeconds, s.messages[source].createdAt, now))
    then DeletedOrExpired
    else Shown(source)
  }

  lemma ReferencesAreWellFounded(s: System, id: MessageId)
    requires Reachable(s) && id in s.store.messages
    ensures RefsOk(s.store, s.store.messages[id])
  {
    ReachableIsGood(s);
  }

  /** The message at the start of a chain of forwards; that this ends is what rules out cycles. */
  ghost function ForwardRoot(s: Store, id: MessageId): (root: MessageId)
    requires id in s.messages && forall k | k in s.messages :: RefsOk(s, s.messages[k])
    ensures root in s.messages && s.messages[root].forwardFrom.None? && s.messages[root].rowId <= s.messages[id].rowId
    decreases s.messages[id].rowId
  {
    assert RefsOk(s, s.messages[id]);
    if s.messages[id].forwardFrom.None? then id else ForwardRoot(s, s.messages[id].forwardFrom.value)
  }

  lemma ForwardIsNeverMissing(s: System, id: MessageId, inSourceGroup: bool, adminView: bool, now: Nanos)
    requires Reachable(s) && id in s.store.messages && s.store.messages[id].forwardFrom.Some?
    ensures ResolveForward(s.store, s.store.messages[id].forwardFrom.value, inSourceGroup, adminView, now) != Missing
  {
    ReachableIsGood(s);
    assert RefsOk(s.store, s.store.messages[id]);
    assert RowIndexed(s.store, s.store.messages[id].forwardFrom.value);
  }

  // ------------------------------------------------------ history, deletion

  /**
   From the commit that stored a draft on, whatever follows: the edit rows lead
   without a gap from the payload as sent to the payload as stored, as many as
   EditCount says, and everything else of the row is as it was sent.
   */
  lemma HistoryLeadsFromSent(s: System, call: CallId, id: MessageId, now: Nanos, events: seq<Event>)
    requires Good(s) && call in s.drafts && SendTx(s.store, s.drafts[call], id, now).Ok?
    ensures var d, end := s.drafts[call], Run(Step(s, Send(call, id, now)), events).store;
      id in end.messages &&
      var m, rows := end.messages[id], EditsOf(end.edits, id);
      && IsChain(rows, m.payload)
      && (if rows == [] then m.payload else rows[0].oldPayload) == d.payload
      && m.editCount == |rows| && m.lastEditedBy == (if rows == [] then None else Some(d.sender))
      && m.sender == d.sender && m.group == d.group && m.contentType == d.contentType
      && m.replyTo == d.replyTo && m.forwardFrom == d.forwardFrom && m.createdAt == now
      && m.seqNo == s.store.groups[d.group].lastSeq + 1
  {
    var s1 := Step(s, Send(call, id, now));
    StepKeepsGood(s, Send(call, id, now));
    SentIsOriginal(s, call, id, now);
    RunKeepsGood(s1, events);
    RowSurvives(s1.store, Run(s1, events).store, id);
  }

  lemma SentIsOriginal(s: System, call: CallId, id: MessageId, now: Nanos)
    requires EditsKnown(s.store) && call in s.drafts && SendTx(s.store, s.drafts[call], id, now).Ok?
    ensures var s1, d := Step(s, Send(call, id, now)), s.drafts[call];
      && id in s1.store.messages
      && Original(s1.store, id) == d.payload
      && s1.store.messages[id] ==
         Message(s.store.nextRow, d.group, d.sender, s.store.groups[d.group].lastSeq + 1, d.contentType, d.payload,
                 d.replyTo, d.forwardFrom, Normal, 0, None, None, now)
  {
    SendExtends(s.store, s.drafts[call], id, now);
  }

  lemma RowSurvives(s: Store, s': Store, id: MessageId)
    requires Valid(s') && Extends(s, s') && id in s.messages
    ensures id in s'.messages && RowExtends(s.messages[id], s'.messages[id])
    ensures HistoryOk(s', id) && Original(s', id) == Original(s, id)
  {
  }

  /** The first deletion is final: time, actor and reason stay, and no edit follows it. */
  lemma DeletionIsFinal(s: System, events: seq<Event>, id: MessageId)
    requires Good(s) && id in s.store.messages && s.store.messages[id].status.Deleted?
    ensures var end := Run(s, events).store;
      && id in end.messages
      && end.messages[id] == s.store.messages[id]
      && EditsOf(end.edits, id) == EditsOf(s.store.edits, id)
  {
    RunKeepsGood(s, events);
    var end := Run(s, events).store;
    assert RowExtends(s.store.messages[id], end.messages[id]);
    EditsOfGrown(s.store.edits, end.edits, id);
  }

  lemma {:induction false} EditsOfGrown(edits: seq<EditRow>, edits': seq<EditRow>, id: MessageId)
    requires edits <= edits'
    requires forall i | |edits| <= i < |edits'| :: edits'[i].message != id
    ensures EditsOf(edits', id) == EditsOf(edits, id)
    decreases |edits'|
  {
    if |edits| < |edits'| {
      EditsOfGrown(edits, edits'[..|edits'| - 1], id);
    } else {
      assert edits == edits';
    }
  }
}
