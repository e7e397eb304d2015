/** The store of direct messages as its methods run, and the paging of one conversation. */
module DirectPaging {
  import opened Common
  import opened DirectMessages
  import opened DirectRelay
  import opened Pages

  // --------------------------------------------------------------- queries

  /** The seq column of one conversation. */
  function Seqs(db: Db, conversation: ConversationId): set<int> {
    set id | id in db.messages && db.messages[id].conversation == conversation :: db.messages[id].seqNo as int
  }

  /** The rows of one conversation by seq. */
  function BySeq(db: Db, conversation: ConversationId): (rows: map<int, MessageId>)
    requires SeqsExact(db)
    ensures rows.Keys == Seqs(db, conversation)
    ensures forall n | n in rows :: At(db, conversation, n, rows[n])
  {
    map n | n in Seqs(db, conversation) :: var id :| id in db.messages.Keys && At(db, conversation, n, id); id
  }

  function MessagesAfter(db: Db, conversation: ConversationId, after: nat, limit: int): seq<MessageId>
    requires SeqsExact(db)
  {
    var rows := BySeq(db, conversation);
    RowsAt(rows, Ascending(rows.Keys, after, MessagePageSize(limit)))
  }

  /** before == 0 stands for no bound. */
  function NewestFirst(db: Db, conversation: ConversationId, before: nat, limit: int): seq<MessageId>
    requires SeqsExact(db)
  {
    var rows := BySeq(db, conversation);
    RowsAt(rows, Descending(rows.Keys, if before > 0 then Some(before) else None, MessagePageSize(limit)))
  }

  /** after == 0 stands for absent, and then before is used. */
  function MessagePage(db: Db, conversation: ConversationId, before: nat, after: nat, limit: int): seq<MessageId>
    requires SeqsExact(db)
  {
    if after > 0 then MessagesAfter(db, conversation, after, limit)
    else Reversed(NewestFirst(db, conversation, before, limit))
  }

  method ReverseInPlace<T>(rows: array<T>)
    modifies rows
    ensures rows[..] == Reversed(old(rows[..]))
  {
    var n := rows.Length;
    var i, j := 0, n - 1;
    while i < j
      invariant 0 <= i <= n && j == n - 1 - i && i <= j + 1
      invariant forall k | 0 <= k < i :: rows[k] == old(rows[n - 1 - k]) && rows[n - 1 - k] == old(rows[k])
      invariant forall k | i <= k <= j :: rows[k] == old(rows[k])
    {
      rows[i], rows[j] := rows[j], rows[i];
      i, j := i + 1, j - 1;
    }
  }

  // ----------------------------------------------------------------- store

  /** GetOrCreateConversation when no other call runs meanwhile. */
  ghost function SerialOpen(db: Db, a: UserId, b: UserId, uuid: ConversationId, now: int, fate: Fate)
    : (Db, Result<ConversationId, DirectError>)
  {
    var (low, high) := UserPair(a, b);
    var found := FindPair(db, low, high);
    if found.Some? then (db, Ok(found.value)) else
      var tx := InsertConversationTx(db, uuid, low, high, now);
      if tx.Ok? && fate != Abort then (tx.value, Ok(uuid)) else (db, Err(DatabaseError))
  }

  /** SendMessage when no other call runs meanwhile: even an unseen commit is answered with its row. */
  ghost function SerialSend(db: Db, user: UserId, conversation: ConversationId, input: SendInput,
                            uuid: MessageId, now: int, fate: Fate): (Db, Result<MessageId, DirectError>)
  {
    if conversation !in db.conversations then (db, Err(ConversationNotFound))
    else if !IsParticipant(db.conversations[conversation], user) then (db, Err(NotParticipant))
    else if input.clientMsgId == "" || input.contentType != "text" || input.payload.None?
    then (db, Err(InvalidPayload))
    else
      var found := FindKey(db, conversation, user, input.clientMsgId);
      if found.Some? then (db, Ok(found.value)) else
        var tx := CreateMessageTx(db, conversation, uuid, user, OtherUser(db.conversations[conversation], user),
                                  input.clientMsgId, input.payload.value, now);
        if tx.Ok? && fate != Abort then (tx.value, Ok(uuid)) else (db, Err(DatabaseError))
  }

  /** Sending again is answered with the same row and writes nothing, whatever the payload is now. */
  lemma SerialSendTwice(db: Db, user: UserId, conversation: ConversationId, input: SendInput, uuid: MessageId,
                        now: int, fate: Fate, again: SendInput, uuid2: MessageId, now2: int, fate2: Fate)
    requires KeysUnique(db)
    requires again.clientMsgId == input.clientMsgId && again.contentType == "text" && again.payload.Some?
    ensures var (db1, r1) := SerialSend(db, user, conversation, input, uuid, now, fate);
      r1.Ok? ==> SerialSend(db1, user, conversation, again, uuid2, now2, fate2) == (db1, r1)
  {
    var (db1, r1) := SerialSend(db, user, conversation, input, uuid, now, fate);
    if r1.Ok? {
      assert r1.value in db1.messages && HasKey(db1.messages[r1.value], conversation, user, input.clientMsgId);
      CreateKeepsKeys(db, conversation, uuid, user, OtherUser(db.conversations[conversation], user),
                      input.clientMsgId, input.payload.value, now);
    }
  }

  /** What the service accepts of a send before it touches the rows. */
  predicate Acceptable(db: Db, user: UserId, conversation: ConversationId, input: SendInput) {
    && conversation in db.conversations
    && (user == db.conversations[conversation].low || user == db.conversations[conversation].high)
    && input.clientMsgId != "" && input.contentType == "text" && input.payload.Some?
  }

  /** The rows hold what was sent: as one new row, or since an earlier send of the key. */
  ghost predicate SendAnswered(db: Db, db': Db, user: UserId, conversation: ConversationId, input: SendInput,
                               uuid: MessageId, now: int, id: MessageId)
    requires input.payload.Some?
  {
    if KeyTaken(db, conversation, user, input.clientMsgId)
    then db' == db && IsKeyRow(db, id, conversation, user, input.clientMsgId)
    else id == uuid && MessageSent(db, db', id, user, conversation, input.clientMsgId, input.payload.value, now)
  }

  /** The exact condition of success, the exact errors, and what is written. */
  lemma SerialSendWrites(db: Db, user: UserId, conversation: ConversationId, input: SendInput, uuid: MessageId,
                         now: int, fate: Fate)
    ensures var (db', r) := SerialSend(db, user, conversation, input, uuid, now, fate);
      && (r.Ok? <==>
          && Acceptable(db, user, conversation, input)
          && (KeyTaken(db, conversation, user, input.clientMsgId) || (fate != Abort && uuid !in db.messages)))
      && (r.Err? ==> db' == db)
      && (r.Ok? ==> SendAnswered(db, db', user, conversation, input, uuid, now, r.value))
      && (r == Err(ConversationNotFound) <==> conversation !in db.conversations)
      && (r == Err(NotParticipant) <==>
          && conversation in db.conversations
          && user !in {db.conversations[conversation].low, db.conversations[conversation].high})
  {
    if Acceptable(db, user, conversation, input) {
      KeyRows(db, conversation, user, input.clientMsgId);
      CreateTxWrites(db, conversation, uuid, user, OtherUser(db.conversations[conversation], user),
                     input.clientMsgId, input.payload.value, now);
    }
  }

  lemma SerialSendKeepsValid(db: Db, user: UserId, conversation: ConversationId, input: SendInput, uuid: MessageId,
                             now: int, fate: Fate)
    requires Valid(db)
    ensures Valid(SerialSend(db, user, conversation, input, uuid, now, fate).0)
  {
    if Acceptable(db, user, conversation, input) {
      CreateKeepsValid(db, conversation, uuid, user, OtherUser(db.conversations[conversation], user),
                       input.clientMsgId, input.payload.value, now);
    }
  }

  lemma SerialOpenWrites(db: Db, a: UserId, b: UserId, uuid: ConversationId, now: int, fate: Fate)
    requires ConversationsOk(db)
    ensures var (db', r) := SerialOpen(db, a, b, uuid, now, fate);
      && (r.Ok? <==> HasConversation(db, a, b) || (fate != Abort && uuid !in db.conversations))
      && (r.Err? ==> r == Err(DatabaseError) && db' == db)
      && (r.Ok? ==> r.value in db'.conversations && Joins(db'.conversations[r.value], a, b))
      && (r.Ok? ==> if HasConversation(db, a, b) then db' == db
                    else r.value == uuid && ConversationStored(db, db', uuid, a, b, now))
  {
    var (low, high) := UserPair(a, b);
    InsertTxWrites(db, uuid, a, b, now);
    assert forall c | c in db.conversations ::
      IsPair(db.conversations[c], low, high) <==> Joins(db.conversations[c], a, b);
  }

  // ------------------------- a call that nothing comes between, in the relay

  predicate Answers(call: Call, r: Result<MessageId, DirectError>) {
    match r
    case Ok(id) => (call.Sent? && call.id == id) || (call.Opened? && call.conversation == id)
    case Err(e) => call == Rejected(e)
  }

  /** The store's SendMessage is the relay's send with no other event between its accesses. */
  lemma SerialSendIsRun(s: System, call: CallId, user: UserId, conversation: ConversationId, input: SendInput,
                        env: Env)
    requires KeysUnique(s.db) && call !in s.calls
    ensures var go := Goes(call, env);
      var end := Run(s, [SendArrives(call, user, conversation, input), go, go, go, go]);
      var (db, r) := SerialSend(s.db, user, conversation, input, env.uuid, env.now, env.fate);
      end.db == db && call in end.calls && Answers(end.calls[call], r)
  {
    var go, arrives := Goes(call, env), SendArrives(call, user, conversation, input);
    RunCons(s, arrives, [go, go, go, go]);
    assert [arrives] + [go, go, go, go] == [arrives, go, go, go, go];
    var s1 := Step(s, arrives);
    RunFour(s1, go, go, go, go);
    assert s1.calls[call] == SendStart(user, conversation, input);
    SendAccesses(s.db, user, conversation, input, env);
  }

  /** The four database accesses of one send. */
  lemma SendAccesses(db: Db, user: UserId, conversation: ConversationId, input: SendInput, env: Env)
    requires KeysUnique(db)
    ensures var (db1, c1) := Advance(db, SendStart(user, conversation, input), env);
      var (db2, c2) := Advance(db1, c1, env);
      var (db3, c3) := Advance(db2, c2, env);
      var (db4, c4) := Advance(db3, c3, env);
      var (db', r) := SerialSend(db, user, conversation, input, env.uuid, env.now, env.fate);
      db4 == db' && Answers(c4, r)
  {
    var (db', r) := SerialSend(db, user, conversation, input, env.uuid, env.now, env.fate);
    if r.Ok? {
      assert r.value in db'.messages && HasKey(db'.messages[r.value], conversation, user, input.clientMsgId);
      CreateKeepsKeys(db, conversation, env.uuid, user, OtherUser(db.conversations[conversation], user),
                      input.clientMsgId, input.payload.value, env.now);
    }
  }

  /** The store's GetOrCreateConversation is the relay's open with no other event between its accesses. */
  lemma SerialOpenIsRun(s: System, call: CallId, user: UserId, peer: UserId, env: Env)
    requires Valid(s.db) && call !in s.calls && user != peer
    ensures var go := Goes(call, env);
      var end := Run(s, [OpenArrives(call, user, peer), go, go, go]);
      var (db, r) := SerialOpen(s.db, user, peer, env.uuid, env.now, env.fate);
      end.db == db && call in end.calls && Answers(end.calls[call], r)
  {
    var go, arrives := Goes(call, env), OpenArrives(call, user, peer);
    RunFour(s, arrives, go, go, go);
    assert Step(s, arrives).calls[call] == OpenStart(user, peer);
    OpenAccesses(s.db, user, peer, env);
  }

  lemma OpenAccesses(db: Db, user: UserId, peer: UserId, env: Env)
    requires Valid(db) && user != peer
    ensures var (db1, c1) := Advance(db, OpenStart(user, peer), env);
      var (db2, c2) := Advance(db1, c1, env);
      var (db3, c3) := Advance(db2, c2, env);
      var (db', r) := SerialOpen(db, user, peer, env.uuid, env.now, env.fate);
      db3 == db' && Answers(c3, r)
  {
    var (low, high) := UserPair(user, peer);
    InsertConversationKeepsValid(db, env.uuid, low, high, env.now);
    var (db', r) := SerialOpen(db, user, peer, env.uuid, env.now, env.fate);
    if r.Ok? {
      assert r.value in db'.conversations && IsPair(db'.conversations[r.value], low, high);
      assert FindPair(db', low, high) == Some(r.value);
    }
  }

  class DirectStore {
    var conversations: map<ConversationId, Conversation>
    var messages: map<MessageId, Message>

    ghost function State(): Db
      reads this
    {
      Db(conversations, messages)
    }

    constructor ()
      ensures State() == EMPTY_DB
    {
      conversations, messages := map[], map[];
    }

    method FindByClientMsgId(conversation: ConversationId, sender: UserId, clientMsgId: string)
      returns (r: Option<MessageId>)
      ensures r.Some? ==> r.value in messages && HasKey(messages[r.value], conversation, sender, clientMsgId)
      ensures r.None? ==> forall id | id in messages :: !HasKey(messages[id], conversation, sender, clientMsgId)
    {
      if id :| id in messages && HasKey(messages[id], conversation, sender, clientMsgId) {
        r := Some(id);
      } else {
        r := None;
      }
    }

    method GetOrCreateConversation(a: UserId, b: UserId, uuid: ConversationId, now: int, fate: Fate)
      returns (r: Result<ConversationId, DirectError>)
      requires ConversationsOk(State())
      modifies this
      ensures (State(), r) == SerialOpen(old(State()), a, b, uuid, now, fate)
      ensures r.Ok? <==> old(HasConversation(State(), a, b)) || (fate != Abort && uuid !in old(conversations))
      ensures r.Ok? ==> r.value in conversations && Joins(conversations[r.value], a, b)
      ensures old(HasConversation(State(), a, b)) || r.Err? ==> State() == old(State())
      ensures !old(HasConversation(State(), a, b)) && r.Ok? ==>
        r.value == uuid && ConversationStored(old(State()), State(), uuid, a, b, now)
    {
      SerialOpenWrites(State(), a, b, uuid, now, fate);
      var (low, high) := UserPair(a, b);
      if c :| c in conversations && IsPair(conversations[c], low, high) {
        return Ok(c);
      }
      if uuid !in conversations && fate != Abort {
        conversations := conversations[uuid := Conversation(low, high, 0, now)];
        assert IsPair(conversations[uuid], low, high);
        if fate == Commit {
          return Ok(uuid);
        }
      }
      if c :| c in conversations && IsPair(conversations[c], low, high) {
        return Ok(c);
      }
      r := Err(DatabaseError);
    }

    method CreateMessage(conversation: ConversationId, id: MessageId, sender: UserId, recipient: UserId,
                         clientMsgId: string, payload: string, now: int) returns (r: Result<(), DirectError>)
      modifies this
      ensures match CreateMessageTx(old(State()), conversation, id, sender, recipient, clientMsgId, payload, now)
        case Ok(db) => State() == db && r == Ok(())
        case Err(e) => State() == old(State()) && r == Err(e)
      ensures r.Ok? ==>
        && MessageStored(old(State()), State(), id, conversation, clientMsgId, payload, now)
        && messages[id].sender == sender && messages[id].recipient == recipient
      ensures r == Err(ConversationNotFound) <==> conversation !in old(conversations)
      ensures r == Err(DuplicateKey) <==>
        && conversation in old(conversations)
        && (id in old(messages) || old(KeyTaken(State(), conversation, sender, clientMsgId)))
    {
      KeyRows(State(), conversation, sender, clientMsgId);
      if conversation !in conversations {
        return Err(ConversationNotFound);
      }
      var locked := conversations[conversation];
      var nextSeq := locked.lastSeq + 1;
      if id in messages || exists k | k in messages :: HasKey(messages[k], conversation, sender, clientMsgId) {
        return Err(DuplicateKey);
      }
      messages := messages[id := Message(conversation, sender, recipient, clientMsgId, payload, nextSeq,
                                         PendingAck, None, now)];
      locked := locked.(lastSeq := nextSeq, lastMessageAt := now);
      conversations := conversations[conversation := locked];
      r := Ok(());
    }

    method AckMessage(id: MessageId, user: UserId, now: int) returns (r: Result<Message, DirectError>)
      modifies this
      ensures match AckMessageTx(old(State()), id, user, now)
        case Ok(db) => State() == db && r == Ok(db.messages[id])
        case Err(e) => State() == old(State()) && r == Err(e)
      ensures r.Ok? ==> MessageAcked(old(State()), State(), id, user, now) && r.value == messages[id]
      ensures r == Err(MessageNotFound) <==> id !in old(messages)
      ensures r == Err(NotRecipient) <==> id in old(messages) && user != old(messages[id].recipient)
      ensures r.Err? ==> State() == old(State())
    {
      if id !in messages {
        return Err(MessageNotFound);
      }
      var m := messages[id];
      if m.recipient != user {
        return Err(NotRecipient);
      }
      if m.status == Acked && m.ackedAt.Some? {
        return Ok(m);
      }
      m := m.(status := Acked, ackedAt := Some(now));
      messages := messages[id := m];
      r := Ok(m);
    }

    method SendMessage(user: UserId, conversation: ConversationId, input: SendInput, uuid: MessageId, now: int,
                       fate: Fate) returns (r: Result<MessageId, DirectError>)
      requires KeysUnique(State())
      modifies this
      ensures (State(), r) == SerialSend(old(State()), user, conversation, input, uuid, now, fate)
      ensures r.Ok? <==>
        && old(Acceptable(State(), user, conversation, input))
        && (old(KeyTaken(State(), conversation, user, input.clientMsgId))
            || (fate != Abort && uuid !in old(messages)))
      ensures r.Ok? ==> SendAnswered(old(State()), State(), user, conversation, input, uuid, now, r.value)
      ensures r.Err? ==> State() == old(State())
      ensures old(Valid(State())) ==> Valid(State())
    {
      SerialSendWrites(State(), user, conversation, input, uuid, now, fate);
      if Valid(State()) {
        SerialSendKeepsValid(State(), user, conversation, input, uuid, now, fate);
      }
      if conversation !in conversations {
        return Err(ConversationNotFound);
      }
      if !IsParticipant(conversations[conversation], user) {
        return Err(NotParticipant);
      }
      if input.clientMsgId == "" || input.contentType != "text" || input.payload.None? {
        return Err(InvalidPayload);
      }
      var existing := FindByClientMsgId(conversation, user, input.clientMsgId);
      if existing.Some? {
        return Ok(existing.value);
      }
      var recipient := OtherUser(conversations[conversation], user);
      CreateKeepsKeys(State(), conversation, uuid, user, recipient, input.clientMsgId, input.payload.value, now);
      var created := Err(DatabaseError);
      if fate != Abort {
        created := CreateMessage(conversation, uuid, user, recipient, input.clientMsgId, input.payload.value, now);
        assert created.Ok? ==> HasKey(messages[uuid], conversation, user, input.clientMsgId);
      }
      if created.Err? || fate == CommitUnseen {
        existing := FindByClientMsgId(conversation, user, input.clientMsgId);
        if existing.Some? {
          return Ok(existing.value);
        }
        return Err(DatabaseError);
      }
      r := Ok(uuid);
    }

    method ListMessagesBefore(conversation: ConversationId, before: nat, limit: int) returns (rows: array<MessageId>)
      requires SeqsExact(State())
      ensures fresh(rows) && rows[..] == Reversed(NewestFirst(State(), conversation, before, limit))
    {
      var page := NewestFirst(Db(conversations, messages), conversation, before, limit);
      rows := new MessageId[|page|](i requires 0 <= i < |page| => page[i]);
      assert rows[..] == page;
      ReverseInPlace(rows);
    }

    method ListMessages(user: UserId, conversation: ConversationId, before: nat, after: nat, limit: int)
      returns (r: Result<seq<MessageId>, DirectError>)
      requires SeqsExact(State())
      ensures r ==
        if conversation !in conversations then Err(ConversationNotFound)
        else if !IsParticipant(conversations[conversation], user) then Err(NotParticipant)
        else Ok(MessagePage(State(), conversation, before, after, limit))
    {
      if conversation !in conversations {
        return Err(ConversationNotFound);
      }
      if !IsParticipant(conversations[conversation], user) {
        return Err(NotParticipant);
      }
      if after > 0 {
        r := Ok(MessagesAfter(Db(conversations, messages), conversation, after, limit));
      } else {
        var rows := ListMessagesBefore(conversation, before, limit);
        r := Ok(rows[..]);
      }
    }
  }

  // -------------------------------------------------------------- timelines

  lemma SeqsDense(db: Db, conversation: ConversationId)
    requires Valid(db) && conversation in db.conversations
    ensures Dense(BySeq(db, conversation).Keys, db.conversations[conversation].lastSeq)
  {
    forall n | 1 <= n <= db.conversations[conversation].lastSeq ensures n in Seqs(db, conversation) {
      assert Filled(db, conversation, n);
    }
  }

  /** The rows of one conversation in seq order. */
  ghost function Timeline(db: Db, conversation: ConversationId): (ids: seq<MessageId>)
    requires Valid(db) && conversation in db.conversations
    ensures |ids| == db.conversations[conversation].lastSeq
    ensures forall i | 0 <= i < |ids| :: At(db, conversation, i + 1, ids[i])
  {
    SeqsDense(db, conversation);
    InOrder(BySeq(db, conversation), db.conversations[conversation].lastSeq)
  }

  lemma AfterIsSlice(db: Db, conversation: ConversationId, after: nat, limit: int)
    requires Valid(db) && conversation in db.conversations
    ensures var t := Timeline(db, conversation);
      MessagesAfter(db, conversation, after, limit) ==
      t[Min(after, |t|)..Min(after + MessagePageSize(limit), |t|)]
  {
    SeqsDense(db, conversation);
    AscendingIsSlice(BySeq(db, conversation), db.conversations[conversation].lastSeq, after, MessagePageSize(limit));
  }

  lemma BeforeIsSlice(db: Db, conversation: ConversationId, before: nat, limit: int)
    requires Valid(db) && conversation in db.conversations
    ensures var t := Timeline(db, conversation);
      Reversed(NewestFirst(db, conversation, before, limit)) ==
      t[Max(TopBefore(|t|, before) - MessagePageSize(limit), 0)..TopBefore(|t|, before)]
  {
    SeqsDense(db, conversation);
    DescendingIsSlice(BySeq(db, conversation), db.conversations[conversation].lastSeq,
                      if before > 0 then Some(before) else None, MessagePageSize(limit));
  }

  /** after_seq == 0 is not a position before the first message: it asks for the newest page. */
  lemma ZeroAfterIsNewestPage(db: Db, conversation: ConversationId, limit: int)
    requires Valid(db) && conversation in db.conversations
    ensures var t := Timeline(db, conversation);
      MessagePage(db, conversation, 0, 0, limit) == t[Max(|t| - MessagePageSize(limit), 0)..]
  {
    BeforeIsSlice(db, conversation, 0, limit);
  }

  ghost predicate NoIdTwice(ids: seq<MessageId>) {
    forall i, j | 0 <= i < j < |ids| :: ids[i] != ids[j]
  }

  lemma TimelineHasNoIdTwice(db: Db, conversation: ConversationId)
    requires Valid(db) && conversation in db.conversations
    ensures NoIdTwice(Timeline(db, conversation))
  {
    var t := Timeline(db, conversation);
    forall i, j | 0 <= i < j < |t| ensures t[i] != t[j] {
      assert At(db, conversation, i + 1, t[i]) && At(db, conversation, j + 1, t[j]);
    }
  }

  /** The page the interface promises for after_seq: the next rows with a greater seq. */
  ghost function PromisedAfter(db: Db, conversation: ConversationId, after: nat, limit: int): seq<MessageId>
    requires Valid(db) && conversation in db.conversations
  {
    var t := Timeline(db, conversation);
    t[Min(after, |t|)..Min(after + MessagePageSize(limit), |t|)]
  }

  lemma BackwardIsFirstPageIff(db: Db, conversation: ConversationId, before: nat, limit: int)
    requires Valid(db) && conversation in db.conversations
    ensures var last := db.conversations[conversation].lastSeq;
      MessagePage(db, conversation, before, 0, limit) == PromisedAfter(db, conversation, 0, limit)
      <==> TopBefore(last, before) == Min(MessagePageSize(limit), last)
  {
    BeforeIsSlice(db, conversation, before, limit);
    var t, n := Timeline(db, conversation), MessagePageSize(limit);
    var top := TopBefore(|t|, before);
    TimelineHasNoIdTwice(db, conversation);
    if top > n {
      assert t[top - n..top][0] == t[top - n] && t[..n][0] == t[0];
    }
  }

  /**
   The page answers after_seq as promised exactly if after_seq is positive, or if
   the backward page taken for 0 happens to be the first one.
   */
  lemma AfterIsHonouredIff(db: Db, conversation: ConversationId, before: nat, after: nat, limit: int)
    requires Valid(db) && conversation in db.conversations
    ensures var last := db.conversations[conversation].lastSeq;
      MessagePage(db, conversation, before, after, limit) == PromisedAfter(db, conversation, after, limit)
      <==> after >= 1 || TopBefore(last, before) == Min(MessagePageSize(limit), last)
  {
    if after >= 1 {
      AfterIsSlice(db, conversation, after, limit);
    } else {
      BackwardIsFirstPageIff(db, conversation, before, limit);
    }
  }

  /** Without before_seq: exactly if after_seq is positive or the whole conversation fits in one page. */
  lemma AfterAloneIsHonouredIff(db: Db, conversation: ConversationId, after: nat, limit: int)
    requires Valid(db) && conversation in db.conversations
    ensures MessagePage(db, conversation, 0, after, limit) == PromisedAfter(db, conversation, after, limit)
      <==> after >= 1 || db.conversations[conversation].lastSeq <= MessagePageSize(limit)
  {
    AfterIsHonouredIff(db, conversation, 0, after, limit);
  }

  /** Where it is not: the page for 0 lacks the first message, which every later page leaves behind. */
  lemma ZeroAfterMissesFirst(db: Db, conversation: ConversationId, limit: int)
    requires Valid(db) && conversation in db.conversations
    requires db.conversations[conversation].lastSeq > MessagePageSize(limit)
    ensures var page, first := MessagePage(db, conversation, 0, 0, limit), Timeline(db, conversation)[0];
      && first !in page
      && page != PromisedAfter(db, conversation, 0, limit)
  {
    AfterAloneIsHonouredIff(db, conversation, 0, limit);
    ZeroAfterIsNewestPage(db, conversation, limit);
    TimelineHasNoIdTwice(db, conversation);
    var t, page := Timeline(db, conversation), MessagePage(db, conversation, 0, 0, limit);
    forall i | 0 <= i < |page| ensures page[i] != t[0] {
      assert page[i] == t[|t| - MessagePageSize(limit) + i];
    }
  }

  /** Two messages and a limit of one are enough. */
  lemma ZeroAfterMissesAMessage()
    ensures var s := Run(Run(Run(IDLE, OPEN_ONE), SendRun(1, 1, 7, "a", 10)), SendRun(2, 2, 7, "b", 11));
      && Reachable(s) && Valid(s.db)
      && 10 in s.db.messages && s.db.messages[10].conversation == 7 && s.db.messages[10].seqNo == 1
      && 10 !in MessagePage(s.db, 7, 0, 0, 1)
      && 10 in PromisedAfter(s.db, 7, 0, 1)
  {
    OpenOneRuns();
    var s1 := Run(IDLE, OPEN_ONE);
    SendRunStores(s1, 1, 1, 7, "a", 10);
    ReachableOn(s1, SendRun(1, 1, 7, "a", 10));
    var s2 := Run(s1, SendRun(1, 1, 7, "a", 10));
    SendRunStores(s2, 2, 2, 7, "b", 11);
    ReachableOn(s2, SendRun(2, 2, 7, "b", 11));
    var s := Run(s2, SendRun(2, 2, 7, "b", 11));
    ReachableIsGood(s);
    FirstIsMissed(s.db, 7, 10);
  }

  lemma FirstIsMissed(db: Db, conversation: ConversationId, first: MessageId)
    requires Valid(db) && conversation in db.conversations && db.conversations[conversation].lastSeq > 1
    requires At(db, conversation, 1, first)
    ensures first !in MessagePage(db, conversation, 0, 0, 1) && first in PromisedAfter(db, conversation, 0, 1)
  {
    ZeroAfterMissesFirst(db, conversation, 1);
    assert At(db, conversation, 1, Timeline(db, conversation)[0]);
    assert PromisedAfter(db, conversation, 0, 1)[0] == first;
  }

  // ------------------------------------------------------------------ walks

  /** The seq of the first row of a page, which a client sends back as before_seq. */
  lemma PageBefore(db: Db, conversation: ConversationId, before: nat, limit: int)
    requires Valid(db) && conversation in db.conversations
    ensures var page, t := MessagePage(db, conversation, before, 0, limit), Timeline(db, conversation);
      var top := TopBefore(|t|, before);
      && (page == [] <==> top == 0)
      && (page != [] ==>
          && page[0] in db.messages
          && var cursor := db.messages[page[0]].seqNo;
             1 <= cursor <= top && page == t[cursor - 1..top])
  {
    BeforeIsSlice(db, conversation, before, limit);
    var t := Timeline(db, conversation);
    var page := MessagePage(db, conversation, before, 0, limit);
    if page != [] {
      assert At(db, conversation, Max(TopBefore(|t|, before) - MessagePageSize(limit), 0) + 1, page[0]);
    }
  }

  /** Pages from the newest one backwards, until one is empty; each cursor is the lowest seq returned. */
  ghost function WalkBack(db: Db, conversation: ConversationId, before: nat, limit: int): seq<MessageId>
    requires Valid(db) && conversation in db.conversations
    decreases TopBefore(db.conversations[conversation].lastSeq, before)
  {
    PageBefore(db, conversation, before, limit);
    var page := MessagePage(db, conversation, before, 0, limit);
    if page == [] then [] else
      WalkBack(db, conversation, db.messages[page[0]].seqNo, limit) + page
  }

  lemma {:induction false} WalkBackIsComplete(db: Db, conversation: ConversationId, before: nat, limit: int)
    requires Valid(db) && conversation in db.conversations
    ensures var t := Timeline(db, conversation);
      WalkBack(db, conversation, before, limit) == t[..TopBefore(|t|, before)]
    decreases TopBefore(db.conversations[conversation].lastSeq, before)
  {
    PageBefore(db, conversation, before, limit);
    var page := MessagePage(db, conversation, before, 0, limit);
    if page != [] {
      var cursor := db.messages[page[0]].seqNo;
      WalkBackIsComplete(db, conversation, cursor, limit);
      JoinSlices(Timeline(db, conversation), 0, cursor - 1, TopBefore(|Timeline(db, conversation)|, before));
    }
  }

  /** What other callers do before each page of a forward walk. */
  datatype Visit = Visit(before: seq<Event>, limit: int)

  datatype Trail = Trail(ids: seq<MessageId>, cursor: nat, end: System)

  /** The cursor a client takes from a page: the seq of its last row. */
  function CursorAfter(db: Db, page: seq<MessageId>, after: nat): nat {
    if page != [] && page[|page| - 1] in db.messages then db.messages[page[|page| - 1]].seqNo else after
  }

  lemma SliceCursor(db: Db, conversation: ConversationId, after: nat, top: nat)
    requires Valid(db) && conversation in db.conversations && after <= top <= db.conversations[conversation].lastSeq
    ensures CursorAfter(db, Timeline(db, conversation)[after..top], after) == top
  {
    if after < top {
      assert At(db, conversation, top, Timeline(db, conversation)[top - 1]);
    }
  }

  lemma PageAfter(db: Db, conversation: ConversationId, after: nat, limit: int)
    requires Valid(db) && conversation in db.conversations && after >= 1
    ensures var page, t := MessagePage(db, conversation, 0, after, limit), Timeline(db, conversation);
      var cursor := CursorAfter(db, page, after);
      && Continues(t, after, page, cursor)
      && cursor >= after
      && (|page| < MessagePageSize(limit) ==> cursor >= |t|)
  {
    AfterIsSlice(db, conversation, after, limit);
    var t, page := Timeline(db, conversation), MessagePage(db, conversation, 0, after, limit);
    var top := Min(after + MessagePageSize(limit), |t|);
    SliceContinues(t, after, top, page);
    if after <= |t| { SliceCursor(db, conversation, after, top); }
  }

  /** The query needs the seqs to be exact at every page, which every run provides. */
  ghost predicate SeqsExactAlong(s: System, visits: seq<Visit>)
    decreases |visits|
  {
    visits == [] ||
    (SeqsExact(Run(s, visits[0].before).db) && SeqsExactAlong(Run(s, visits[0].before), visits[1..]))
  }

  ghost function WalkForward(s: System, conversation: ConversationId, after: nat, visits: seq<Visit>): Trail
    requires SeqsExactAlong(s, visits)
    decreases |visits|
  {
    if visits == [] then Trail([], after, s) else
      var now := Run(s, visits[0].before);
      var page := MessagePage(now.db, conversation, 0, after, visits[0].limit);
      var rest := WalkForward(now, conversation, CursorAfter(now.db, page, after), visits[1..]);
      Trail(page + rest.ids, rest.cursor, rest.end)
  }

  lemma TimelineGrows(db: Db, db': Db, conversation: ConversationId)
    requires Valid(db) && Valid(db') && Extends(db, db') && conversation in db.conversations
    ensures conversation in db'.conversations && Timeline(db, conversation) <= Timeline(db', conversation)
  {
    var t, t' := Timeline(db, conversation), Timeline(db', conversation);
    forall i | 0 <= i < |t| ensures t[i] == t'[i] {
      RowSurvives(db, db', t[i]);
      assert At(db', conversation, i + 1, t[i]);
    }
  }

  /** From after >= 1 on, the pages joined together are exactly the later messages in order. */
  lemma {:induction false} WalkForwardMissesNothing(s: System, conversation: ConversationId, after: nat,
                                                    visits: seq<Visit>)
    requires Good(s) && conversation in s.db.conversations && after >= 1
    ensures SeqsExactAlong(s, visits)
    ensures var w := WalkForward(s, conversation, after, visits);
      && Good(w.end) && Extends(s.db, w.end.db) && conversation in w.end.db.conversations
      && Continues(Timeline(w.end.db, conversation), after, w.ids, w.cursor)
    decreases |visits|
  {
    if visits == [] {
      DirectRelay.ExtendsReflexive(s.db);
    } else {
      RunKeepsGood(s, visits[0].before);
      var now := Run(s, visits[0].before);
      PageAfter(now.db, conversation, after, visits[0].limit);
      var page := MessagePage(now.db, conversation, 0, after, visits[0].limit);
      var next := CursorAfter(now.db, page, after);
      WalkForwardMissesNothing(now, conversation, next, visits[1..]);
      var rest := WalkForward(now, conversation, next, visits[1..]);
      ExtendsTransitive(s.db, now.db, rest.end.db);
      TimelineGrows(now.db, rest.end.db, conversation);
      JoinPages(Timeline(now.db, conversation), Timeline(rest.end.db, conversation), after, page, next,
                rest.ids, rest.cursor);
    }
  }

  // ------------------------------------------- the end of a forward walk

  /** The last page of the walk holds fewer rows than it asked for. */
  ghost predicate EndsShort(s: System, conversation: ConversationId, after: nat, visits: seq<Visit>)
    requires SeqsExactAlong(s, visits)
    decreases |visits|
  {
    visits != [] &&
    var now := Run(s, visits[0].before);
    var page := MessagePage(now.db, conversation, 0, after, visits[0].limit);
    if |visits| == 1 then |page| < MessagePageSize(visits[0].limit)
    else EndsShort(now, conversation, CursorAfter(now.db, page, after), visits[1..])
  }

  lemma {:induction false} ShortWalkCatchesUp(s: System, conversation: ConversationId, after: nat, visits: seq<Visit>)
    requires Good(s) && conversation in s.db.conversations && after >= 1 && SeqsExactAlong(s, visits)
    requires EndsShort(s, conversation, after, visits)
    ensures var w := WalkForward(s, conversation, after, visits);
      && conversation in w.end.db.conversations
      && w.cursor >= w.end.db.conversations[conversation].lastSeq
    decreases |visits|
  {
    RunKeepsGood(s, visits[0].before);
    var now := Run(s, visits[0].before);
    PageAfter(now.db, conversation, after, visits[0].limit);
    var next := CursorAfter(now.db, MessagePage(now.db, conversation, 0, after, visits[0].limit), after);
    if |visits| == 1 {
      assert WalkForward(now, conversation, next, visits[1..]) == Trail([], next, now);
    } else {
      ShortWalkCatchesUp(now, conversation, next, visits[1..]);
    }
  }

  lemma CaughtUp<T>(rows: seq<T>, after: nat, items: seq<T>, cursor: int)
    requires Continues(rows, after, items, cursor) && cursor >= |rows|
    ensures items == rows[Min(after, |rows|)..]
  {
  }

  /** A forward walk whose last page is short has collected every message after its start, the newest included. */
  lemma WalkForwardEndsCaughtUp(s: System, conversation: ConversationId, after: nat, visits: seq<Visit>)
    requires Good(s) && conversation in s.db.conversations && after >= 1
    ensures SeqsExactAlong(s, visits)
    ensures EndsShort(s, conversation, after, visits) ==>
      var w := WalkForward(s, conversation, after, visits);
      && Valid(w.end.db) && conversation in w.end.db.conversations
      && var t := Timeline(w.end.db, conversation); w.ids == t[Min(after, |t|)..]
  {
    WalkForwardMissesNothing(s, conversation, after, visits);
    if EndsShort(s, conversation, after, visits) {
      ShortWalkCatchesUp(s, conversation, after, visits);
      var w := WalkForward(s, conversation, after, visits);
      CaughtUp(Timeline(w.end.db, conversation), after, w.ids, w.cursor);
    }
  }

  // -------------------------------------------------- a forward walk from 0

  /** The first page of the walk that is not empty is read from a conversation that fits in it. */
  ghost predicate FirstPageFits(s: System, conversation: ConversationId, visits: seq<Visit>)
    decreases |visits|
  {
    visits == [] ||
    var now := Run(s, visits[0].before);
    conversation in now.db.conversations &&
    if now.db.conversations[conversation].lastSeq == 0 then FirstPageFits(now, conversation, visits[1..])
    else now.db.conversations[conversation].lastSeq <= MessagePageSize(visits[0].limit)
  }

  /** A page asked for after 0 is the newest one, and it leaves the cursor at the last row there is. */
  lemma PageFromZero(db: Db, conversation: ConversationId, limit: int)
    requires Valid(db) && conversation in db.conversations
    ensures var page, t := MessagePage(db, conversation, 0, 0, limit), Timeline(db, conversation);
      page == t[Max(|t| - MessagePageSize(limit), 0)..] && CursorAfter(db, page, 0) == |t|
  {
    ZeroAfterIsNewestPage(db, conversation, limit);
    var t := Timeline(db, conversation);
    if t != [] { assert At(db, conversation, |t|, t[|t| - 1]); }
  }

  lemma StartsOrMisses(rows: seq<MessageId>, rows': seq<MessageId>, page: seq<MessageId>, rest: seq<MessageId>,
                       k: nat, cursor: int)
    requires rows <= rows' && k < |rows| && page == rows[k..] && Continues(rows', |rows|, rest, cursor)
    requires NoIdTwice(rows)
    ensures Continues(rows', 0, page + rest, cursor) <==> k == 0
  {
    if k == 0 {
      JoinPages(rows, rows', 0, page, |rows|, rest, cursor);
    } else {
      assert (page + rest)[0] == rows[k] && rows'[0] == rows[0];
    }
  }

  /** The pages after one that has reached the end of the conversation as it is now. */
  lemma WalkFromEnd(s: System, conversation: ConversationId, visits: seq<Visit>)
    requires Good(s) && conversation in s.db.conversations && s.db.conversations[conversation].lastSeq > 0
    ensures SeqsExactAlong(s, visits)
    ensures var last := s.db.conversations[conversation].lastSeq;
      var rest := WalkForward(s, conversation, last, visits);
      && Valid(rest.end.db) && conversation in rest.end.db.conversations
      && Timeline(s.db, conversation) <= Timeline(rest.end.db, conversation)
      && Continues(Timeline(rest.end.db, conversation), last, rest.ids, rest.cursor)
  {
    var last := s.db.conversations[conversation].lastSeq;
    WalkForwardMissesNothing(s, conversation, last, visits);
    TimelineGrows(s.db, WalkForward(s, conversation, last, visits).end.db, conversation);
  }

  /** The walk from 0 when its first page finds messages. */
  lemma FirstPageDecides(db: Db, conversation: ConversationId, limit: int, later: seq<MessageId>,
                         rest: seq<MessageId>, cursor: int)
    requires Valid(db) && conversation in db.conversations && db.conversations[conversation].lastSeq > 0
    requires Timeline(db, conversation) <= later
    requires Continues(later, db.conversations[conversation].lastSeq, rest, cursor)
    ensures Continues(later, 0, MessagePage(db, conversation, 0, 0, limit) + rest, cursor)
      <==> db.conversations[conversation].lastSeq <= MessagePageSize(limit)
  {
    PageFromZero(db, conversation, limit);
    TimelineHasNoIdTwice(db, conversation);
    StartsOrMisses(Timeline(db, conversation), later, MessagePage(db, conversation, 0, 0, limit), rest,
                   Max(db.conversations[conversation].lastSeq - MessagePageSize(limit), 0), cursor);
  }

  /**
   A forward walk from 0, with other callers between its pages, collects every
   message from the first one on exactly if the first page that finds any
   messages finds all there are.
   */
  lemma {:induction false} WalkFromZeroIsCompleteIff(s: System, conversation: ConversationId, visits: seq<Visit>)
    requires Good(s) && conversation in s.db.conversations
    ensures SeqsExactAlong(s, visits)
    ensures var w := WalkForward(s, conversation, 0, visits);
      && Valid(w.end.db) && conversation in w.end.db.conversations
      && (Continues(Timeline(w.end.db, conversation), 0, w.ids, w.cursor)
          <==> FirstPageFits(s, conversation, visits))
    decreases |visits|
  {
    if visits != [] {
      GrownConversation(s, conversation, visits[0].before);
      var now := Run(s, visits[0].before);
      PageFromZero(now.db, conversation, visits[0].limit);
      if now.db.conversations[conversation].lastSeq == 0 {
        WalkFromZeroIsCompleteIff(now, conversation, visits[1..]);
      } else {
        WalkFromEnd(now, conversation, visits[1..]);
        var rest := WalkForward(now, conversation, now.db.conversations[conversation].lastSeq, visits[1..]);
        FirstPageDecides(now.db, conversation, visits[0].limit, Timeline(rest.end.db, conversation), rest.ids,
                         rest.cursor);
      }
    }
  }

  lemma GrownConversation(s: System, conversation: ConversationId, events: seq<Event>)
    requires Good(s) && conversation in s.db.conversations
    ensures Good(Run(s, events)) && conversation in Run(s, events).db.conversations
  {
    RunKeepsGood(s, events);
  }

  // --------------------------------- a backward walk while others go on writing

  datatype BackTrail = BackTrail(ids: seq<MessageId>, ended: bool)

  /** Pages backwards until one is empty, with other callers before each of them. */
  ghost function WalkBackAlong(s: System, conversation: ConversationId, before: nat, visits: seq<Visit>): BackTrail
    requires SeqsExactAlong(s, visits)
    decreases |visits|
  {
    if visits == [] then BackTrail([], false) else
      var now := Run(s, visits[0].before);
      var page := MessagePage(now.db, conversation, before, 0, visits[0].limit);
      if page == [] || page[0] !in now.db.messages then BackTrail([], true) else
        var rest := WalkBackAlong(now, conversation, now.db.messages[page[0]].seqNo, visits[1..]);
        BackTrail(rest.ids + page, rest.ended)
  }

  /** The last rows before top, all of them once the walk has ended. */
  ghost predicate IsTail(rows: seq<MessageId>, walk: BackTrail, top: int) {
    && |walk.ids| <= top <= |rows|
    && walk.ids == rows[top - |walk.ids|..top]
    && (walk.ended ==> |walk.ids| == top)
  }

  lemma TailJoins(rows: seq<MessageId>, rows': seq<MessageId>, rest: BackTrail, page: seq<MessageId>,
                  cursor: nat, top: nat)
    requires rows <= rows' && 1 <= cursor <= top <= |rows| && page == rows[cursor - 1..top]
    requires IsTail(rows', rest, cursor - 1)
    ensures IsTail(rows, BackTrail(rest.ids + page, rest.ended), top)
  {
    var k := cursor - 1 - |rest.ids|;
    assert rows'[k..cursor - 1] == rows[k..cursor - 1];
    JoinSlices(rows, k, cursor - 1, top);
  }

  /** One page in front of the rest of the walk; later is the timeline the next page is read from. */
  lemma BackStepJoins(s: System, conversation: ConversationId, before: nat, visits: seq<Visit>, page: seq<MessageId>,
                      cursor: nat, rows: seq<MessageId>, later: seq<MessageId>, top: nat)
    requires visits != [] && SeqsExactAlong(s, visits)
    requires var db := Run(s, visits[0].before).db;
      && page == MessagePage(db, conversation, before, 0, visits[0].limit) != []
      && page[0] in db.messages && db.messages[page[0]].seqNo == cursor
    requires rows <= later && 1 <= cursor <= top <= |rows| && page == rows[cursor - 1..top]
    requires IsTail(later, WalkBackAlong(Run(s, visits[0].before), conversation, cursor, visits[1..]), cursor - 1)
    ensures IsTail(rows, WalkBackAlong(s, conversation, before, visits), top)
  {
    var rest := WalkBackAlong(Run(s, visits[0].before), conversation, cursor, visits[1..]);
    TailJoins(rows, later, rest, page, cursor, top);
  }

  /** At every page the tables are valid and the timeline has only grown. */
  ghost predicate GrowsAlong(s: System, conversation: ConversationId, visits: seq<Visit>)
    requires Valid(s.db) && conversation in s.db.conversations
    decreases |visits|
  {
    visits == [] ||
    var now := Run(s, visits[0].before);
    && Valid(now.db) && conversation in now.db.conversations
    && Timeline(s.db, conversation) <= Timeline(now.db, conversation)
    && GrowsAlong(now, conversation, visits[1..])
  }

  lemma {:induction false} RunsGrowAlong(s: System, conversation: ConversationId, visits: seq<Visit>)
    requires Good(s) && conversation in s.db.conversations
    ensures GrowsAlong(s, conversation, visits) && SeqsExactAlong(s, visits)
    decreases |visits|
  {
    if visits != [] {
      var now := Run(s, visits[0].before);
      RunKeepsGood(s, visits[0].before);
      TimelineGrows(s.db, now.db, conversation);
      RunsGrowAlong(now, conversation, visits[1..]);
    }
  }

  lemma BackPage(db: Db, conversation: ConversationId, before: nat, limit: int) returns (cursor: nat)
    requires Valid(db) && conversation in db.conversations
    ensures var page, t := MessagePage(db, conversation, before, 0, limit), Timeline(db, conversation);
      var top := TopBefore(|t|, before);
      && (page == [] ==> top == 0)
      && (page != [] ==>
          && page[0] in db.messages && db.messages[page[0]].seqNo == cursor
          && 1 <= cursor <= top && page == t[cursor - 1..top])
  {
    PageBefore(db, conversation, before, limit);
    var page := MessagePage(db, conversation, before, 0, limit);
    cursor := if page == [] then 0 else db.messages[page[0]].seqNo;
  }

  /** The rest of a walk, from a cursor on a timeline that has not shrunk. */
  lemma {:induction false} RestOfWalkBack(s: System, conversation: ConversationId, cursor: nat, visits: seq<Visit>)
    returns (later: seq<MessageId>)
    requires Valid(s.db) && conversation in s.db.conversations
    requires 1 <= cursor <= s.db.conversations[conversation].lastSeq
    requires GrowsAlong(s, conversation, visits) && SeqsExactAlong(s, visits)
    ensures Timeline(s.db, conversation) <= later
    ensures IsTail(later, WalkBackAlong(s, conversation, cursor, visits), cursor - 1)
    decreases |visits|, 1
  {
    if visits == [] {
      later := Timeline(s.db, conversation);
    } else {
      later := Timeline(Run(s, visits[0].before).db, conversation);
      WalkBackGrowing(s, conversation, cursor, visits);
    }
  }

  lemma {:induction false} WalkBackGrowing(s: System, conversation: ConversationId, before: nat, visits: seq<Visit>)
    requires Valid(s.db) && conversation in s.db.conversations && visits != []
    requires GrowsAlong(s, conversation, visits) && SeqsExactAlong(s, visits)
    ensures var t := Timeline(Run(s, visits[0].before).db, conversation);
      IsTail(t, WalkBackAlong(s, conversation, before, visits), TopBefore(|t|, before))
    decreases |visits|, 0
  {
    var now := Run(s, visits[0].before);
    var cursor := BackPage(now.db, conversation, before, visits[0].limit);
    var page, t := MessagePage(now.db, conversation, before, 0, visits[0].limit), Timeline(now.db, conversation);
    if page != [] {
      var later := RestOfWalkBack(now, conversation, cursor, visits[1..]);
      BackStepJoins(s, conversation, before, visits, page, cursor, t, later, TopBefore(|t|, before));
    }
  }

  /**
   Whatever other callers do between the pages, the backward walk returns the
   messages there were before its bound at the first page, once and in order,
   and all of them once it ends.
   */
  lemma WalkBackMissesNothing(s: System, conversation: ConversationId, before: nat, visits: seq<Visit>)
    requires Good(s) && conversation in s.db.conversations && visits != []
    ensures SeqsExactAlong(s, visits)
    ensures var now := Run(s, visits[0].before);
      && Valid(now.db) && conversation in now.db.conversations
      && var t := Timeline(now.db, conversation);
         IsTail(t, WalkBackAlong(s, conversation, before, visits), TopBefore(|t|, before))
  {
    RunsGrowAlong(s, conversation, visits);
    WalkBackGrowing(s, conversation, before, visits);
  }
}
