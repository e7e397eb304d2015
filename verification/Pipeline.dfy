/**
 From a committed row to a client's queue: the stores, the event bus, the one
 consumer that re-reads the row for every event, and the queues of the
 connected clients. Commits may come between any two steps of a broadcast, and
 the bus may hand over its events in any order or lose them.
 */
module Pipeline {
  import opened Common
  import ChannelLog
  import ChannelRuns
  import DirectMessages
  import DirectRelay
  import GroupMessages
  import MessageHistory

  // ------------------------------------------------------------- the stores

  type ChannelId = nat

  /** What an event names: the profile of a channel, or a message. */
  datatype Key =
    | ProfileKey(channel: ChannelId)
    | ChannelKey(channel: ChannelId, id: int)
    | GroupKey(group: GroupMessages.MessageId)
    | DirectKey(direct: DirectMessages.MessageId)

  /** A row as a view of it is taken. */
  datatype Row =
    | ProfileRow(head: ChannelLog.Head)
    | ChannelRow(post: ChannelLog.Message)
    | GroupRow(message: GroupMessages.Message)
    | DirectRow(letter: DirectMessages.Message)

  datatype World = World(
    channels: map<ChannelId, ChannelRuns.System>,
    groups: MessageHistory.System,
    direct: DirectRelay.System)

  datatype Change =
    | OpensChannel(channel: ChannelId, owner: UserId, ownerPeerId: string, name: string, now: int)
    | InChannel(channel: ChannelId, action: ChannelRuns.Action)
    | InGroups(groupEvent: MessageHistory.Event)
    | InDirect(directEvent: DirectRelay.Event)

  function Find(w: World, key: Key): Option<Row> {
    match key
    case ProfileKey(c) => if c in w.channels then Some(ProfileRow(w.channels[c].channel.head)) else None
    case ChannelKey(c, id) =>
      if c in w.channels && id in w.channels[c].channel.messages
      then Some(ChannelRow(w.channels[c].channel.messages[id])) else None
    case GroupKey(id) => if id in w.groups.store.messages then Some(GroupRow(w.groups.store.messages[id])) else None
    case DirectKey(id) => if id in w.direct.db.messages then Some(DirectRow(w.direct.db.messages[id])) else None
  }

  /** The renderer's own check that a stored conversation is the viewer's. */
  predicate MayView(w: World, key: Key, user: UserId) {
    key.DirectKey? ==>
      && key.direct in w.direct.db.messages
      && w.direct.db.messages[key.direct].conversation in w.direct.db.conversations
      && DirectMessages.IsParticipant(w.direct.db.conversations[w.direct.db.messages[key.direct].conversation], user)
  }

  ghost function Apply(w: World, change: Change): World {
    match change
    case OpensChannel(c, owner, ownerPeerId, name, now) =>
      if c in w.channels then w else
      var created := ChannelLog.NewChannel(owner, ownerPeerId, name, "", "", 0, now);
      w.(channels := w.channels[c := ChannelRuns.System(created, map[])])
    case InChannel(c, action) =>
      if c !in w.channels then w else w.(channels := w.channels[c := ChannelRuns.Step(w.channels[c], action)])
    case InGroups(e) => w.(groups := MessageHistory.Step(w.groups, e))
    case InDirect(e) => w.(direct := DirectRelay.Step(w.direct, e))
  }

  /**
   The later row is the same row at the same or a later time: versions, seqs
   and edit counts do not go down, a version names one content, and deleted and
   acknowledged rows stay as they are.
   */
  ghost predicate NotOlder(row: Row, later: Row) {
    match row
    case ProfileRow(h) =>
      && later.ProfileRow?
      && h.profileVersion <= later.head.profileVersion && h.lastSeq <= later.head.lastSeq
      && (h.profileVersion == later.head.profileVersion ==> ChannelRuns.SameProfile(h, later.head))
    case ChannelRow(m) => later.ChannelRow? && ChannelRuns.RowExtends(m, later.post)
    case GroupRow(m) => later.GroupRow? && MessageHistory.RowExtends(m, later.message)
    case DirectRow(m) => later.DirectRow? && DirectMessages.RowExtends(m, later.letter)
  }

  lemma NotOlderTransitive(a: Row, b: Row, c: Row)
    requires NotOlder(a, b) && NotOlder(b, c)
    ensures NotOlder(a, c)
  {
  }

  lemma NotOlderReflexive(a: Row)
    ensures NotOlder(a, a)
  {
  }

  /** Every stored row is still there, and not older; conversations keep their users. */
  ghost predicate Grows(w: World, w': World) {
    && (forall key | Find(w, key).Some? :: Find(w', key).Some? && NotOlder(Find(w, key).value, Find(w', key).value))
    && (forall key, user | Find(w, key).Some? && MayView(w, key, user) :: MayView(w', key, user))
  }

  ghost predicate HeadNotOlder(c: ChannelLog.Channel, c': ChannelLog.Channel) {
    && c.head.profileVersion <= c'.head.profileVersion && c.head.lastSeq <= c'.head.lastSeq
    && (c.head.profileVersion == c'.head.profileVersion ==> ChannelRuns.SameProfile(c.head, c'.head))
  }

  ghost predicate PostsNotOlder(ms: map<int, ChannelLog.Message>, ms': map<int, ChannelLog.Message>) {
    forall id | id in ms :: id in ms' && ChannelRuns.RowExtends(ms[id], ms'[id])
  }

  ghost predicate GroupRowsNotOlder(s: GroupMessages.Store, s': GroupMessages.Store) {
    forall id | id in s.messages :: id in s'.messages && MessageHistory.RowExtends(s.messages[id], s'.messages[id])
  }

  ghost predicate DirectRowsNotOlder(db: DirectMessages.Db, db': DirectMessages.Db) {
    && DirectMessages.ConversationsExtend(db, db')
    && forall id | id in db.messages ::
         id in db'.messages && DirectMessages.RowExtends(db.messages[id], db'.messages[id])
  }

  lemma ChannelRowsGrow(c: ChannelLog.Channel, c': ChannelLog.Channel)
    requires ChannelRuns.Extends(c, c')
    ensures HeadNotOlder(c, c') && PostsNotOlder(c.messages, c'.messages)
  {
    assert |ChannelRuns.Log(c)| <= |ChannelRuns.Log(c')|;
  }

  lemma SameGrows(w: World, w': World, key: Key)
    requires Find(w', key) == Find(w, key) && Find(w, key).Some?
    ensures NotOlder(Find(w, key).value, Find(w', key).value)
  {
    NotOlderReflexive(Find(w, key).value);
  }

  lemma ChannelGrows(w: World, c: ChannelId, s': ChannelRuns.System)
    requires c in w.channels ==>
      && HeadNotOlder(w.channels[c].channel, s'.channel)
      && PostsNotOlder(w.channels[c].channel.messages, s'.channel.messages)
    ensures Grows(w, w.(channels := w.channels[c := s']))
  {
    var w' := w.(channels := w.channels[c := s']);
    forall key | Find(w, key).Some?
      ensures Find(w', key).Some? && NotOlder(Find(w, key).value, Find(w', key).value)
    {
      if Find(w', key) == Find(w, key) { SameGrows(w, w', key); }
    }
  }

  lemma GroupsGrow(w: World, s': MessageHistory.System)
    requires GroupRowsNotOlder(w.groups.store, s'.store)
    ensures Grows(w, w.(groups := s'))
  {
    var w' := w.(groups := s');
    forall key | Find(w, key).Some?
      ensures Find(w', key).Some? && NotOlder(Find(w, key).value, Find(w', key).value)
    {
      if Find(w', key) == Find(w, key) { SameGrows(w, w', key); }
    }
  }

  lemma DirectGrows(w: World, s': DirectRelay.System)
    requires DirectRowsNotOlder(w.direct.db, s'.db)
    ensures Grows(w, w.(direct := s'))
  {
    var w' := w.(direct := s');
    forall key | Find(w, key).Some?
      ensures Find(w', key).Some? && NotOlder(Find(w, key).value, Find(w', key).value)
    {
      if Find(w', key) == Find(w, key) { SameGrows(w, w', key); }
    }
  }

  lemma NothingGrows(w: World)
    ensures Grows(w, w)
  {
    forall key | Find(w, key).Some? ensures NotOlder(Find(w, key).value, Find(w, key).value) {
      SameGrows(w, w, key);
    }
  }

  lemma ChannelStepGrows(s: ChannelRuns.System, action: ChannelRuns.Action)
    requires ChannelRuns.Good(s)
    ensures var s' := ChannelRuns.Step(s, action);
      && ChannelRuns.Good(s')
      && HeadNotOlder(s.channel, s'.channel)
      && PostsNotOlder(s.channel.messages, s'.channel.messages)
  {
    ChannelRuns.StepKeepsGood(s, action);
    ChannelRowsGrow(s.channel, ChannelRuns.Step(s, action).channel);
  }

  lemma GroupStepGrows(s: MessageHistory.System, e: MessageHistory.Event)
    requires MessageHistory.Good(s)
    ensures MessageHistory.Good(MessageHistory.Step(s, e))
    ensures GroupRowsNotOlder(s.store, MessageHistory.Step(s, e).store)
  {
    MessageHistory.StepKeepsGood(s, e);
  }

  lemma DirectStepGrows(s: DirectRelay.System, e: DirectRelay.Event)
    requires DirectRelay.Good(s)
    ensures DirectRelay.Good(DirectRelay.Step(s, e)) && DirectRowsNotOlder(s.db, DirectRelay.Step(s, e).db)
  {
    DirectRelay.StepKeepsGood(s, e);
  }

  lemma NewChannelIsGood(c: ChannelLog.Channel)
    requires ChannelRuns.Fresh(c)
    ensures ChannelRuns.Good(ChannelRuns.System(c, map[]))
  {
    ChannelRuns.FreshIsConsistent(c);
  }

  ghost predicate ChannelsGood(channels: map<ChannelId, ChannelRuns.System>) {
    forall c | c in channels :: ChannelRuns.Good(channels[c])
  }

  ghost predicate StoresGood(w: World) {
    ChannelsGood(w.channels) && MessageHistory.Good(w.groups) && DirectRelay.Good(w.direct)
  }

  lemma OpenGrows(w: World, change: Change)
    requires ChannelsGood(w.channels) && change.OpensChannel?
    ensures var w' := Apply(w, change);
      w'.groups == w.groups && w'.direct == w.direct && ChannelsGood(w'.channels) && Grows(w, w')
  {
    NothingGrows(w);
    if change.channel !in w.channels {
      var c := ChannelLog.NewChannel(change.owner, change.ownerPeerId, change.name, "", "", 0, change.now);
      NewChannelIsGood(c);
      ChannelGrows(w, change.channel, ChannelRuns.System(c, map[]));
    }
  }

  lemma InChannelGrows(w: World, change: Change)
    requires ChannelsGood(w.channels) && change.InChannel?
    ensures var w' := Apply(w, change);
      w'.groups == w.groups && w'.direct == w.direct && ChannelsGood(w'.channels) && Grows(w, w')
  {
    NothingGrows(w);
    if change.channel in w.channels {
      var s := w.channels[change.channel];
      ChannelStepGrows(s, change.action);
      ChannelGrows(w, change.channel, ChannelRuns.Step(s, change.action));
    }
  }

  lemma ApplyGrows(w: World, change: Change)
    requires StoresGood(w)
    ensures StoresGood(Apply(w, change)) && Grows(w, Apply(w, change))
  {
    match change
    case InGroups(e) =>
      GroupStepGrows(w.groups, e);
      GroupsGrow(w, MessageHistory.Step(w.groups, e));
    case InDirect(e) =>
      DirectStepGrows(w.direct, e);
      DirectGrows(w, DirectRelay.Step(w.direct, e));
    case OpensChannel(_, _, _, _, _) => OpenGrows(w, change);
    case InChannel(_, _) => InChannelGrows(w, change);
  }

  // ------------------------------------------------------------ the pipeline

  datatype Client = Client(id: nat, user: UserId)

  /** An event on the bus. Only the key travels; stamp is the row its commit left behind. */
  datatype Envelope = Envelope(key: Key, stamp: Row)

  /** Something put into a client's queue: the event it is for and the row it shows. */
  datatype Entry = Entry(envelope: Envelope, row: Row)

  /** The broadcast in progress: the members still to be served and the views rendered so far, by user. */
  datatype Broadcast = Broadcast(envelope: Envelope, waiting: set<Client>, cache: map<UserId, Row>)

  /** queues holds everything each client's queue ever took. */
  datatype System = System(
    world: World,
    bus: multiset<Envelope>,
    handling: Option<Broadcast>,
    queues: map<Client, seq<Entry>>)

  /**
   Commits publishes the event of the key given, whatever it is: what is proved
   does not depend on its being the row just written. members is the room as
   the broadcast finds it; shown is the verdict of the renderer's other checks.
   */
  datatype Event =
    | Commits(change: Change, key: Key)
    | Loses(envelope: Envelope)
    | Takes(envelope: Envelope, members: set<Client>)
    | Renders(client: Client, shown: bool)
    | Sends(client: Client, full: bool)
    | Finishes

  function QueueOf(s: System, c: Client): seq<Entry> {
    if c in s.queues then s.queues[c] else []
  }

  ghost function Step(s: System, e: Event): System {
    match e
    case Commits(change, key) =>
      var w := Apply(s.world, change);
      s.(world := w, bus := if Find(w, key).Some? then s.bus + multiset{Envelope(key, Find(w, key).value)} else s.bus)
    case Loses(envelope) => s.(bus := s.bus - multiset{envelope})
    case Takes(envelope, members) =>
      if s.handling.Some? || envelope !in s.bus then s else
      s.(bus := s.bus - multiset{envelope}, handling := Some(Broadcast(envelope, members, map[])))
    case Renders(client, shown) =>
      if s.handling.None? || client !in s.handling.value.waiting || client.user in s.handling.value.cache then s else
      s.(handling := Some(Rendered(s.world, s.handling.value, client, shown)))
    case Sends(client, full) =>
      if s.handling.None? || client !in s.handling.value.waiting || client.user !in s.handling.value.cache then s else
      var b := s.handling.value;
      s.(handling := Some(b.(waiting := b.waiting - {client})),
         queues := if full then s.queues
                   else s.queues[client := QueueOf(s, client) + [Entry(b.envelope, b.cache[client.user])]])
    case Finishes =>
      if s.handling.None? || s.handling.value.waiting != {} then s else s.(handling := None)
  }

  function Rendered(w: World, b: Broadcast, client: Client, shown: bool): Broadcast {
    var found := Find(w, b.envelope.key);
    if shown && found.Some? && MayView(w, b.envelope.key, client.user)
    then b.(cache := b.cache[client.user := found.value])
    else b.(waiting := b.waiting - {client})
  }

  ghost function Run(s: System, events: seq<Event>): System
    decreases |events|
  {
    if events == [] then s else Run(Step(s, events[0]), events[1..])
  }

  const START := System(World(map[], MessageHistory.EMPTY, DirectRelay.IDLE), multiset{}, None, map[])

  // -------------------------------------------------------------- invariant

  /** A row taken of the key at some time is still stored, and was not newer than it is now. */
  ghost predicate IsPast(w: World, key: Key, row: Row) {
    Find(w, key).Some? && NotOlder(row, Find(w, key).value)
  }

  ghost predicate EntryOk(w: World, user: UserId, e: Entry) {
    && IsPast(w, e.envelope.key, e.row)
    && NotOlder(e.envelope.stamp, e.row)
    && MayView(w, e.envelope.key, user)
  }

  ghost predicate QueueOk(w: World, user: UserId, queue: seq<Entry>) {
    forall i | 0 <= i < |queue| :: EntryOk(w, user, queue[i])
  }

  /** Entries for one row come in the order of the row's own history. */
  ghost predicate Ordered(queue: seq<Entry>) {
    forall i, j | 0 <= i < j < |queue| && queue[i].envelope.key == queue[j].envelope.key ::
      NotOlder(queue[i].row, queue[j].row)
  }

  ghost predicate CacheOk(w: World, b: Broadcast) {
    && IsPast(w, b.envelope.key, b.envelope.stamp)
    && forall u | u in b.cache ::
         && IsPast(w, b.envelope.key, b.cache[u])
         && NotOlder(b.envelope.stamp, b.cache[u])
         && MayView(w, b.envelope.key, u)
  }

  /** Nothing in the queue shows the key newer than row does. */
  ghost predicate AllBefore(queue: seq<Entry>, key: Key, row: Row) {
    forall i | 0 <= i < |queue| && queue[i].envelope.key == key :: NotOlder(queue[i].row, row)
  }

  /** A member still waiting has seen nothing newer than what has been rendered meanwhile. */
  ghost predicate WaitingBehind(s: System, b: Broadcast) {
    forall c, u | c in b.waiting && u in b.cache :: AllBefore(QueueOf(s, c), b.envelope.key, b.cache[u])
  }

  ghost predicate QueuesOk(w: World, queues: map<Client, seq<Entry>>) {
    forall c | c in queues :: QueueOk(w, c.user, queues[c]) && Ordered(queues[c])
  }

  ghost predicate BusOk(w: World, bus: multiset<Envelope>) {
    forall e | e in bus :: IsPast(w, e.key, e.stamp)
  }

  ghost predicate FlowOk(s: System) {
    && BusOk(s.world, s.bus)
    && QueuesOk(s.world, s.queues)
    && (s.handling.Some? ==> CacheOk(s.world, s.handling.value) && WaitingBehind(s, s.handling.value))
  }

  ghost predicate Good(s: System) {
    StoresGood(s.world) && FlowOk(s)
  }

  lemma PastStaysPast(w: World, w': World, key: Key, row: Row)
    requires IsPast(w, key, row) && Grows(w, w')
    ensures IsPast(w', key, row)
  {
    NotOlderTransitive(row, Find(w, key).value, Find(w', key).value);
  }

  lemma EntryStaysOk(w: World, w': World, user: UserId, e: Entry)
    requires EntryOk(w, user, e) && Grows(w, w')
    ensures EntryOk(w', user, e)
  {
    PastStaysPast(w, w', e.envelope.key, e.row);
  }

  lemma QueuesStayOk(w: World, w': World, queues: map<Client, seq<Entry>>)
    requires QueuesOk(w, queues) && Grows(w, w')
    ensures QueuesOk(w', queues)
  {
    forall c, i | c in queues && 0 <= i < |queues[c]| ensures EntryOk(w', c.user, queues[c][i]) {
      assert QueueOk(w, c.user, queues[c]);
      EntryStaysOk(w, w', c.user, queues[c][i]);
    }
  }

  lemma CacheStaysOk(w: World, w': World, b: Broadcast)
    requires CacheOk(w, b) && Grows(w, w')
    ensures CacheOk(w', b)
  {
    PastStaysPast(w, w', b.envelope.key, b.envelope.stamp);
    forall u | u in b.cache ensures IsPast(w', b.envelope.key, b.cache[u]) {
      PastStaysPast(w, w', b.envelope.key, b.cache[u]);
    }
  }

  lemma BusStaysOk(w: World, w': World, bus: multiset<Envelope>)
    requires BusOk(w, bus) && Grows(w, w')
    ensures BusOk(w', bus)
  {
    forall e | e in bus ensures IsPast(w', e.key, e.stamp) {
      PastStaysPast(w, w', e.key, e.stamp);
    }
  }

  /** A growing world disturbs nothing of the flow. */
  lemma GrowthKeepsFlow(s: System, w': World)
    requires FlowOk(s) && Grows(s.world, w')
    ensures FlowOk(s.(world := w'))
  {
    QueuesStayOk(s.world, w', s.queues);
    BusStaysOk(s.world, w', s.bus);
    if s.handling.Some? {
      CacheStaysOk(s.world, w', s.handling.value);
      SameQueuesWait(s, s.(world := w'), s.handling.value);
    }
  }

  lemma SameQueuesWait(s: System, s': System, b: Broadcast)
    requires WaitingBehind(s, b) && s'.queues == s.queues
    ensures WaitingBehind(s', b)
  {
    assert forall c :: QueueOf(s', c) == QueueOf(s, c);
  }

  lemma PublishKeepsFlow(s: System, key: Key)
    requires FlowOk(s) && Find(s.world, key).Some?
    ensures FlowOk(s.(bus := s.bus + multiset{Envelope(key, Find(s.world, key).value)}))
  {
    NotOlderReflexive(Find(s.world, key).value);
    if s.handling.Some? {
      SameQueuesWait(s, s.(bus := s.bus + multiset{Envelope(key, Find(s.world, key).value)}), s.handling.value);
    }
  }

  lemma CommitKeepsFlow(s: System, change: Change, key: Key)
    requires FlowOk(s) && Grows(s.world, Apply(s.world, change))
    ensures FlowOk(Step(s, Commits(change, key)))
  {
    var s1 := s.(world := Apply(s.world, change));
    GrowthKeepsFlow(s, s1.world);
    if Find(s1.world, key).Some? { PublishKeepsFlow(s1, key); }
  }

  /** What is rendered now is not older than anything any queue has. */
  lemma NowIsAfterAll(w: World, user: UserId, queue: seq<Entry>, key: Key)
    requires QueueOk(w, user, queue) && Find(w, key).Some?
    ensures AllBefore(queue, key, Find(w, key).value)
  {
    forall i | 0 <= i < |queue| && queue[i].envelope.key == key ensures NotOlder(queue[i].row, Find(w, key).value) {
      assert EntryOk(w, user, queue[i]);
    }
  }

  lemma RenderKeepsFlow(s: System, client: Client, shown: bool)
    requires FlowOk(s)
    ensures FlowOk(Step(s, Renders(client, shown)))
  {
    var s' := Step(s, Renders(client, shown));
    if s' != s {
      var b, b' := s.handling.value, s'.handling.value;
      var now := Find(s.world, b.envelope.key).value;
      NotOlderReflexive(now);
      forall c, u | c in b'.waiting && u in b'.cache
        ensures AllBefore(QueueOf(s', c), b.envelope.key, b'.cache[u])
      {
        if u in b.cache {
          assert AllBefore(QueueOf(s, c), b.envelope.key, b.cache[u]);
        } else {
          NowIsAfterAll(s.world, c.user, QueueOf(s, c), b.envelope.key);
        }
      }
    }
  }

  lemma AppendKeepsQueue(w: World, user: UserId, queue: seq<Entry>, e: Entry)
    requires QueueOk(w, user, queue) && Ordered(queue)
    requires EntryOk(w, user, e) && AllBefore(queue, e.envelope.key, e.row)
    ensures QueueOk(w, user, queue + [e]) && Ordered(queue + [e])
  {
  }

  lemma SendKeepsFlow(s: System, client: Client, full: bool)
    requires FlowOk(s)
    ensures FlowOk(Step(s, Sends(client, full)))
  {
    var s' := Step(s, Sends(client, full));
    if s' != s {
      var b, b' := s.handling.value, s'.handling.value;
      assert AllBefore(QueueOf(s, client), b.envelope.key, b.cache[client.user]);
      AppendKeepsQueue(s.world, client.user, QueueOf(s, client), Entry(b.envelope, b.cache[client.user]));
      forall c, u | c in b'.waiting && u in b'.cache
        ensures AllBefore(QueueOf(s', c), b.envelope.key, b'.cache[u])
      {
        assert QueueOf(s', c) == QueueOf(s, c);
        assert AllBefore(QueueOf(s, c), b.envelope.key, b.cache[u]);
      }
    }
  }

  lemma BusStepKeepsFlow(s: System, e: Event)
    requires FlowOk(s) && (e.Loses? || e.Takes? || e.Finishes?)
    ensures FlowOk(Step(s, e))
  {
    var s' := Step(s, e);
    if s.handling.Some? && s'.handling.Some? {
      SameQueuesWait(s, s', s.handling.value);
    }
  }

  lemma StepKeepsFlow(s: System, e: Event)
    requires FlowOk(s) && (e.Commits? ==> Grows(s.world, Apply(s.world, e.change)))
    ensures FlowOk(Step(s, e))
  {
    match e
    case Commits(change, key) => CommitKeepsFlow(s, change, key);
    case Renders(client, shown) => RenderKeepsFlow(s, client, shown);
    case Sends(client, full) => SendKeepsFlow(s, client, full);
    case _ => BusStepKeepsFlow(s, e);
  }

  lemma StepKeepsGood(s: System, e: Event)
    requires Good(s)
    ensures Good(Step(s, e))
  {
    if e.Commits? { ApplyGrows(s.world, e.change); }
    StepKeepsFlow(s, e);
  }

  lemma {:induction false} RunKeepsGood(s: System, events: seq<Event>)
    requires Good(s)
    ensures Good(Run(s, events))
    decreases |events|
  {
    if events != [] {
      StepKeepsGood(s, events[0]);
      RunKeepsGood(Step(s, events[0]), events[1..]);
    }
  }

  // ----------------------------------------------------------- main results

  ghost predicate Reachable(s: System) {
    exists events :: s == Run(START, events)
  }

  lemma StartIsGood()
    ensures Good(START)
  {
    DirectRelay.IdleIsGood();
    assert MessageHistory.Good(MessageHistory.EMPTY);
  }

  lemma ReachableIsGood(s: System)
    requires Reachable(s)
    ensures Good(s)
  {
    var events :| s == Run(START, events);
    StartIsGood();
    RunKeepsGood(START, events);
  }

  /**
   Whatever the order of the events and the commits in between, what a client
   is sent for an event is at least as new as the commit that published it.
   */
  lemma DeliveredIsNotOlderThanItsCommit(s: System, c: Client, i: nat)
    requires Reachable(s) && c in s.queues && i < |s.queues[c]|
    ensures NotOlder(s.queues[c][i].envelope.stamp, s.queues[c][i].row)
  {
    ReachableIsGood(s);
    assert EntryOk(s.world, c.user, s.queues[c][i]);
  }

  /** What a client is sent for one row never goes back. */
  lemma DeliveriesNeverGoBack(s: System, c: Client, i: nat, j: nat)
    requires Reachable(s) && c in s.queues && i < j < |s.queues[c]|
    requires s.queues[c][i].envelope.key == s.queues[c][j].envelope.key
    ensures NotOlder(s.queues[c][i].row, s.queues[c][j].row)
  {
    ReachableIsGood(s);
    assert Ordered(s.queues[c]);
  }

  /** Read for the columns a reader compares: versions, seqs, edit counts, deleted and acknowledged. */
  lemma ColumnsNeverGoBack(s: System, c: Client, i: nat, j: nat)
    requires Reachable(s) && c in s.queues && i < j < |s.queues[c]|
    requires s.queues[c][i].envelope.key == s.queues[c][j].envelope.key
    ensures match (s.queues[c][i].row, s.queues[c][j].row)
      case (ProfileRow(a), ProfileRow(b)) =>
        a.profileVersion <= b.profileVersion && a.lastSeq <= b.lastSeq
        && (a.profileVersion == b.profileVersion ==> ChannelRuns.SameProfile(a, b))
      case (ChannelRow(a), ChannelRow(b)) =>
        (a.version == b.version ==> a == b) && a.version <= b.version && a.seqNo <= b.seqNo
        && (a.isDeleted ==> b.isDeleted)
      case (GroupRow(a), GroupRow(b)) => a.editCount <= b.editCount && (a.status.Deleted? ==> b == a)
      case (DirectRow(a), DirectRow(b)) => a.seqNo == b.seqNo && (a.status.Acked? && a.ackedAt.Some? ==> b == a)
      case (_, _) => false
  {
    DeliveriesNeverGoBack(s, c, i, j);
  }

  lemma ParticipantIsSenderOrRecipient(w: World, id: DirectMessages.MessageId, user: UserId)
    requires DirectMessages.MessagesOk(w.direct.db) && id in w.direct.db.messages
    ensures MayView(w, DirectKey(id), user) <==>
            user in {w.direct.db.messages[id].sender, w.direct.db.messages[id].recipient}
  {
  }

  lemma DirectStoreOk(s: System)
    requires Reachable(s)
    ensures FlowOk(s) && DirectMessages.MessagesOk(s.world.direct.db)
  {
    ReachableIsGood(s);
  }

  /** A direct message only ever reaches its sender and its recipient. */
  lemma DirectMessagesStayPrivate(s: System, c: Client, i: nat)
    requires Reachable(s) && c in s.queues && i < |s.queues[c]| && s.queues[c][i].row.DirectRow?
    ensures c.user in {s.queues[c][i].row.letter.sender, s.queues[c][i].row.letter.recipient}
  {
    DirectStoreOk(s);
    var e := s.queues[c][i];
    assert EntryOk(s.world, c.user, e);
    ParticipantIsSenderOrRecipient(s.world, e.envelope.key.direct, c.user);
  }
}
