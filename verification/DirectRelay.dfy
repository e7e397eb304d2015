/**
 Concurrent callers of the direct-message service. A call is cut at every point
 where the service goes to the database, so calls may overlap in any order; a
 transaction may abort, and may also commit without its caller learning of it.
 */
module DirectRelay {
  import opened Common
  import opened DirectMessages

  datatype Call =
    | OpenStart(user: UserId, peer: UserId)
    | OpenMissed(user: UserId, peer: UserId)
    | OpenFailed(user: UserId, peer: UserId)
    | Opened(user: UserId, peer: UserId, conversation: ConversationId)
    | SendStart(user: UserId, conversation: ConversationId, input: SendInput)
    | SendChecked(user: UserId, conversation: ConversationId, clientMsgId: string, payload: string, recipient: UserId)
    | SendMissed(user: UserId, conversation: ConversationId, clientMsgId: string, payload: string, recipient: UserId)
    | SendFailed(user: UserId, conversation: ConversationId, clientMsgId: string, payload: string, recipient: UserId)
    | Sent(user: UserId, conversation: ConversationId, clientMsgId: string, id: MessageId)
    | Rejected(error: DirectError)

  /** What the surroundings decide in one step: the UUID drawn, the clock, the database. */
  datatype Env = Env(uuid: nat, now: int, fate: Fate)

  /** The next database access of a call, with everything up to the one after it. */
  ghost function Advance(db: Db, call: Call, env: Env): (Db, Call) {
    match call
    case OpenStart(user, peer) =>
      if user == peer then (db, Rejected(SelfConversation)) else
      var (low, high) := UserPair(user, peer);
      var found := FindPair(db, low, high);
      (db, if found.Some? then Opened(user, peer, found.value) else OpenMissed(user, peer))
    case OpenMissed(user, peer) =>
      var (low, high) := UserPair(user, peer);
      var tx := InsertConversationTx(db, env.uuid, low, high, env.now);
      if tx.Err? || env.fate == Abort then (db, OpenFailed(user, peer))
      else (tx.value, if env.fate == Commit then Opened(user, peer, env.uuid) else OpenFailed(user, peer))
    case OpenFailed(user, peer) =>
      var (low, high) := UserPair(user, peer);
      var found := FindPair(db, low, high);
      (db, if found.Some? then Opened(user, peer, found.value) else Rejected(DatabaseError))
    case SendStart(user, conversation, input) =>
      (db, if conversation !in db.conversations then Rejected(ConversationNotFound)
           else if !IsParticipant(db.conversations[conversation], user) then Rejected(NotParticipant)
           else if input.clientMsgId == "" || input.contentType != "text" || input.payload.None?
           then Rejected(InvalidPayload)
           else SendChecked(user, conversation, input.clientMsgId, input.payload.value,
                            OtherUser(db.conversations[conversation], user)))
    case SendChecked(user, conversation, clientMsgId, payload, recipient) =>
      var found := FindKey(db, conversation, user, clientMsgId);
      (db, if found.Some? then Sent(user, conversation, clientMsgId, found.value)
           else SendMissed(user, conversation, clientMsgId, payload, recipient))
    case SendMissed(user, conversation, clientMsgId, payload, recipient) =>
      var tx := CreateMessageTx(db, conversation, env.uuid, user, recipient, clientMsgId, payload, env.now);
      if tx.Err? || env.fate == Abort then (db, SendFailed(user, conversation, clientMsgId, payload, recipient))
      else (tx.value, if env.fate == Commit then Sent(user, conversation, clientMsgId, env.uuid)
                      else SendFailed(user, conversation, clientMsgId, payload, recipient))
    case SendFailed(user, conversation, clientMsgId, payload, recipient) =>
      var found := FindKey(db, conversation, user, clientMsgId);
      (db, if found.Some? then Sent(user, conversation, clientMsgId, found.value) else Rejected(DatabaseError))
    case Opened(_, _, _) => (db, call)
    case Sent(_, _, _, _) => (db, call)
    case Rejected(_) => (db, call)
  }

  type CallId = nat

  datatype System = System(db: Db, calls: map<CallId, Call>)

  datatype Event =
    | OpenArrives(call: CallId, user: UserId, peer: UserId)
    | SendArrives(call: CallId, user: UserId, conversation: ConversationId, input: SendInput)
    | Goes(call: CallId, env: Env)
    | Acks(user: UserId, id: MessageId, now: int)

  ghost function Step(s: System, e: Event): System {
    match e
    case OpenArrives(call, user, peer) =>
      if call in s.calls then s else s.(calls := s.calls[call := OpenStart(user, peer)])
    case SendArrives(call, user, conversation, input) =>
      if call in s.calls then s else s.(calls := s.calls[call := SendStart(user, conversation, input)])
    case Goes(call, env) =>
      if call !in s.calls then s else
      var (db, next) := Advance(s.db, s.calls[call], env);
      System(db, s.calls[call := next])
    case Acks(user, id, now) =>
      var tx := AckMessageTx(s.db, id, user, now);
      if tx.Ok? then s.(db := tx.value) else s
  }

  ghost function Run(s: System, events: seq<Event>): System
    decreases |events|
  {
    if events == [] then s else Run(Step(s, events[0]), events[1..])
  }

  const IDLE := System(EMPTY_DB, map[])

  // -------------------------------------------------------------- invariant

  /** What a call in progress may rely on. */
  ghost predicate CallOk(db: Db, call: Call) {
    match call
    case OpenStart(_, _) => true
    case OpenMissed(user, peer) => user != peer
    case OpenFailed(user, peer) => user != peer
    case Opened(user, peer, conversation) =>
      && conversation in db.conversations
      && AreParticipants(db.conversations[conversation], user, peer)
    case SendStart(_, _, _) => true
    case SendChecked(user, conversation, clientMsgId, payload, recipient) => Sendable(db, user, conversation, recipient)
    case SendMissed(user, conversation, clientMsgId, payload, recipient) => Sendable(db, user, conversation, recipient)
    case SendFailed(user, conversation, clientMsgId, payload, recipient) => Sendable(db, user, conversation, recipient)
    case Sent(user, conversation, clientMsgId, id) =>
      id in db.messages && HasKey(db.messages[id], conversation, user, clientMsgId)
    case Rejected(_) => true
  }

  ghost predicate Sendable(db: Db, user: UserId, conversation: ConversationId, recipient: UserId) {
    && conversation in db.conversations
    && AreParticipants(db.conversations[conversation], user, recipient)
    && user != recipient
  }

  ghost predicate Good(s: System) {
    Valid(s.db) && forall call | call in s.calls :: CallOk(s.db, s.calls[call])
  }

  lemma CallStaysOk(db: Db, db': Db, call: Call)
    requires CallOk(db, call) && Extends(db, db')
    ensures CallOk(db', call)
  {
    if call.Sent? {
      assert RowExtends(db.messages[call.id], db'.messages[call.id]);
    }
  }

  lemma ExtendsReflexive(db: Db)
    ensures Extends(db, db)
  {
  }

  lemma AdvanceKeepsDb(db: Db, call: Call, env: Env)
    requires Valid(db) && CallOk(db, call)
    ensures var (db', next) := Advance(db, call, env); Valid(db') && Extends(db, db')
  {
    ExtendsReflexive(db);
    match call
    case OpenMissed(user, peer) =>
      var (low, high) := UserPair(user, peer);
      InsertConversationKeepsValid(db, env.uuid, low, high, env.now);
      TransactionsExtend(db, env.uuid, 0, low, high, "", "", env.now);
    case SendMissed(user, conversation, clientMsgId, payload, recipient) =>
      CreateKeepsValid(db, conversation, env.uuid, user, recipient, clientMsgId, payload, env.now);
      TransactionsExtend(db, conversation, env.uuid, user, recipient, clientMsgId, payload, env.now);
    case _ =>
  }

  lemma AdvanceKeepsCall(db: Db, call: Call, env: Env)
    requires ConversationsOk(db) && CallOk(db, call)
    ensures var (db', next) := Advance(db, call, env); CallOk(db', next)
  {
  }

  lemma StepKeepsGood(s: System, e: Event)
    requires Good(s)
    ensures Good(Step(s, e)) && Extends(s.db, Step(s, e).db)
  {
    ExtendsReflexive(s.db);
    var s' := Step(s, e);
    match e {
      case Goes(call, env) =>
        if call in s.calls {
          AdvanceKeepsDb(s.db, s.calls[call], env);
          AdvanceKeepsCall(s.db, s.calls[call], env);
        }
      case Acks(user, id, now) =>
        AckKeepsValid(s.db, id, user, now);
        TransactionsExtend(s.db, 0, id, user, 0, "", "", now);
      case _ =>
    }
    forall call | call in s'.calls ensures CallOk(s'.db, s'.calls[call]) {
      if call in s.calls && s'.calls[call] == s.calls[call] {
        CallStaysOk(s.db, s'.db, s.calls[call]);
      }
    }
  }

  /** Every run keeps the invariant, and the tables only ever extend. */
  lemma {:induction false} RunKeepsGood(s: System, events: seq<Event>)
    requires Good(s)
    ensures Good(Run(s, events)) && Extends(s.db, Run(s, events).db)
    decreases |events|
  {
    ExtendsReflexive(s.db);
    if events != [] {
      StepKeepsGood(s, events[0]);
      RunKeepsGood(Step(s, events[0]), events[1..]);
      ExtendsTransitive(s.db, Step(s, events[0]).db, Run(s, events).db);
    }
  }

  // ----------------------------------------------------------- main results

  ghost predicate Reachable(s: System) {
    exists events :: s == Run(IDLE, events)
  }

  lemma ReachableIsGood(s: System)
    requires Reachable(s)
    ensures Good(s)
  {
    var events :| s == Run(IDLE, events);
    IdleIsGood();
    RunKeepsGood(IDLE, events);
  }

  lemma IdleIsGood()
    ensures Good(IDLE)
  {
    assert SeqsExact(EMPTY_DB);
  }

  /** Two calls that are sends of the same idempotency key and both answered success. */
  predicate SentSameKey(a: Call, b: Call) {
    && a.Sent? && b.Sent?
    && a.conversation == b.conversation && a.user == b.user && a.clientMsgId == b.clientMsgId
  }

  /**
   However the calls overlap and whichever transactions abort, all calls that
   answer success for one (conversation, sender, client_msg_id) answer with the
   same row, and no other row has that key.
   */
  lemma SendIsIdempotent(s: System, a: CallId, b: CallId)
    requires Reachable(s)
    requires a in s.calls && b in s.calls && SentSameKey(s.calls[a], s.calls[b])
    ensures s.calls[a].id == s.calls[b].id && s.calls[a].id in s.db.messages
    ensures forall k | k in s.db.messages ::
      HasKey(s.db.messages[k], s.calls[a].conversation, s.calls[a].user, s.calls[a].clientMsgId)
      <==> k == s.calls[a].id
  {
    ReachableIsGood(s);
    assert CallOk(s.db, s.calls[a]) && CallOk(s.db, s.calls[b]);
  }

  /** A row keeps its seq, users, key and payload for good, and its first acknowledgement. */
  lemma RowIsFinal(s: System, events: seq<Event>, id: MessageId)
    requires Reachable(s) && id in s.db.messages
    ensures id in Run(s, events).db.messages
    ensures RowExtends(s.db.messages[id], Run(s, events).db.messages[id])
  {
    ReachableIsGood(s);
    RunKeepsGood(s, events);
    RowSurvives(s.db, Run(s, events).db, id);
  }

  lemma RowSurvives(db: Db, db': Db, id: MessageId)
    requires Extends(db, db') && id in db.messages
    ensures id in db'.messages && RowExtends(db.messages[id], db'.messages[id])
  {
  }

  /** Every conversation's seqs are 1..LastMessageSeq, so failed transactions consumed none. */
  lemma SeqsHaveNoGap(s: System, conversation: ConversationId)
    requires Reachable(s) && conversation in s.db.conversations
    ensures forall n :: 1 <= n <= s.db.conversations[conversation].lastSeq <==> Filled(s.db, conversation, n)
    ensures forall n, i, j :: At(s.db, conversation, n, i) && At(s.db, conversation, n, j) ==> i == j
  {
    ReachableIsGood(s);
  }

  /**
   A call whose insert lost to a row with the same key is not turned away: its
   next read finds that row, whatever happens before it.
   */
  lemma LoserFindsWinner(s: System, events: seq<Event>, loser: CallId, winner: MessageId, env: Env)
    requires Reachable(s) && loser in s.calls && s.calls[loser].SendFailed?
    requires winner in s.db.messages
    requires HasKey(s.db.messages[winner], s.calls[loser].conversation, s.calls[loser].user,
                    s.calls[loser].clientMsgId)
    ensures var (_, next) := Advance(Run(s, events).db, s.calls[loser], env); next.Sent? && next.id == winner
  {
    ReachableIsGood(s);
    RunKeepsGood(s, events);
    RowSurvives(s.db, Run(s, events).db, winner);
  }

  /** All calls that opened a conversation of two users, in either order, opened the same one. */
  lemma OpenIsUnique(s: System, a: CallId, b: CallId)
    requires Reachable(s)
    requires a in s.calls && b in s.calls && s.calls[a].Opened? && s.calls[b].Opened?
    requires UserPair(s.calls[a].user, s.calls[a].peer) == UserPair(s.calls[b].user, s.calls[b].peer)
    ensures s.calls[a].conversation == s.calls[b].conversation
    ensures s.calls[a].conversation in s.db.conversations
    ensures var c := s.db.conversations[s.calls[a].conversation];
      c.low < c.high && {c.low, c.high} == {s.calls[a].user, s.calls[a].peer}
  {
    ReachableIsGood(s);
    assert CallOk(s.db, s.calls[a]) && CallOk(s.db, s.calls[b]);
  }

  /** Every stored message is between the two distinct users of its conversation. */
  lemma MessagesAreBetweenParticipants(s: System, id: MessageId)
    requires Reachable(s) && id in s.db.messages
    ensures s.db.messages[id].conversation in s.db.conversations
    ensures var m, c := s.db.messages[id], s.db.conversations[s.db.messages[id].conversation];
      {m.sender, m.recipient} == {c.low, c.high} && m.sender != m.recipient
  {
    ReachableIsGood(s);
  }

  // --------------------------------------------------- calls nothing disturbs

  lemma RunCons(s: System, e: Event, rest: seq<Event>)
    ensures Run(s, [e] + rest) == Run(Step(s, e), rest)
  {
    assert ([e] + rest)[1..] == rest;
  }

  lemma RunThree(s: System, a: Event, b: Event, c: Event)
    ensures Run(s, [a, b, c]) == Step(Step(Step(s, a), b), c)
  {
    RunCons(s, a, [b, c]);
    RunCons(Step(s, a), b, [c]);
    RunCons(Step(Step(s, a), b), c, []);
    assert [a] + [b, c] == [a, b, c] && [b] + [c] == [b, c] && [c] + [] == [c];
  }

  lemma RunFour(s: System, a: Event, b: Event, c: Event, d: Event)
    ensures Run(s, [a, b, c, d]) == Step(Step(Step(Step(s, a), b), c), d)
  {
    RunCons(s, a, [b, c, d]);
    RunThree(Step(s, a), b, c, d);
    assert [a] + [b, c, d] == [a, b, c, d];
  }

  lemma {:induction false} RunAppend(s: System, first: seq<Event>, rest: seq<Event>)
    ensures Run(s, first + rest) == Run(Run(s, first), rest)
    decreases |first|
  {
    if first == [] {
      assert first + rest == rest;
    } else {
      assert (first + rest)[1..] == first[1..] + rest;
      RunAppend(Step(s, first[0]), first[1..], rest);
    }
  }

  lemma ReachableOn(s: System, events: seq<Event>)
    requires Reachable(s)
    ensures Reachable(Run(s, events))
  {
    var before :| s == Run(IDLE, before);
    RunAppend(IDLE, before, events);
    assert Run(s, events) == Run(IDLE, before + events);
  }

  const OPEN_ONE: seq<Event> := [
    OpenArrives(0, 1, 2), Goes(0, Env(0, 0, Commit)), Goes(0, Env(7, 0, Commit))]

  lemma OpenOneRuns()
    ensures Reachable(Run(IDLE, OPEN_ONE))
    ensures Run(IDLE, OPEN_ONE) == System(Db(map[7 := Conversation(1, 2, 0, 0)], map[]), map[0 := Opened(1, 2, 7)])
  {
    RunThree(IDLE, OPEN_ONE[0], OPEN_ONE[1], OPEN_ONE[2]);
    assert OPEN_ONE == [OPEN_ONE[0], OPEN_ONE[1], OPEN_ONE[2]];
  }

  function SendRun(call: CallId, user: UserId, conversation: ConversationId, key: string, id: MessageId): seq<Event> {
    var go := Goes(call, Env(id, 0, Commit));
    [SendArrives(call, user, conversation, SendInput(key, "text", Some("hello"))), go, go, go]
  }

  /** A send that nothing comes between, with a new key and a new id, stores its row. */
  lemma SendRunStores(s: System, call: CallId, user: UserId, conversation: ConversationId, key: string, id: MessageId)
    requires call !in s.calls && conversation in s.db.conversations
    requires IsParticipant(s.db.conversations[conversation], user) && key != "" && id !in s.db.messages
    requires forall k | k in s.db.messages :: !HasKey(s.db.messages[k], conversation, user, key)
    ensures var end, c := Run(s, SendRun(call, user, conversation, key, id)), s.db.conversations[conversation];
      && end.db.conversations == s.db.conversations[conversation := c.(lastSeq := c.lastSeq + 1, lastMessageAt := 0)]
      && end.db.messages == s.db.messages[id := Message(conversation, user, OtherUser(c, user), key, "hello",
                                                        c.lastSeq + 1, PendingAck, None, 0)]
      && end.calls.Keys == s.calls.Keys + {call}
  {
    var e := SendRun(call, user, conversation, key, id);
    RunFour(s, e[0], e[1], e[2], e[3]);
    assert e == [e[0], e[1], e[2], e[3]];
    var s1 := Step(s, e[0]);
    assert s1.calls[call] == SendStart(user, conversation, SendInput(key, "text", Some("hello")));
    var recipient := OtherUser(s.db.conversations[conversation], user);
    var s2 := Step(s1, e[1]);
    assert s2.db == s.db && s2.calls[call] == SendChecked(user, conversation, key, "hello", recipient);
    var s3 := Step(s2, e[2]);
    assert s3.db == s.db && s3.calls[call] == SendMissed(user, conversation, key, "hello", recipient);
  }
}
