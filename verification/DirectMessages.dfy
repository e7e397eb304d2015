/**
 The two tables behind direct messages and the transactions that write them.
 Rows are keyed by their UUID; the other unique indexes are checked on insert.
 */
module DirectMessages {
  import opened Common

  type ConversationId = nat
  type MessageId = nat

  datatype Conversation = Conversation(low: UserId, high: UserId, lastSeq: nat, lastMessageAt: int)

  datatype Status = PendingAck | Acked

  datatype Message = Message(
    conversation: ConversationId,
    sender: UserId,
    recipient: UserId,
    clientMsgId: string,
    payload: string,
    seqNo: nat,
    status: Status,
    ackedAt: Option<int>,
    createdAt: int)

  datatype Db = Db(conversations: map<ConversationId, Conversation>, messages: map<MessageId, Message>)

  datatype DirectError =
    | ConversationNotFound | NotParticipant | InvalidPayload | SelfConversation
    | MessageNotFound | NotRecipient | DuplicateKey | DatabaseError

  /** What becomes of a transaction that violates nothing; CommitUnseen commits but is reported as failed. */
  datatype Fate = Commit | Abort | CommitUnseen

  /** payload is None when it is not an object with a non-blank text. */
  datatype SendInput = SendInput(clientMsgId: string, contentType: string, payload: Option<string>)

  function UserPair(low: UserId, high: UserId): (UserId, UserId) {
    if low > high then (high, low) else (low, high)
  }

  predicate IsParticipant(c: Conversation, user: UserId) {
    c.low == user || c.high == user
  }

  function OtherUser(c: Conversation, self: UserId): UserId {
    if c.low == self then c.high else c.low
  }

  // --------------------------------------------------------- unique indexes

  predicate IsPair(c: Conversation, low: UserId, high: UserId) {
    c.low == low && c.high == high
  }

  /** The row has the idempotency key (conversation, sender, client_msg_id). */
  predicate HasKey(m: Message, conversation: ConversationId, sender: UserId, clientMsgId: string) {
    m.conversation == conversation && m.sender == sender && m.clientMsgId == clientMsgId
  }

  ghost function FindPair(db: Db, low: UserId, high: UserId): (r: Option<ConversationId>)
    ensures r.Some? ==> r.value in db.conversations && IsPair(db.conversations[r.value], low, high)
    ensures r.None? ==> forall c | c in db.conversations :: !IsPair(db.conversations[c], low, high)
  {
    if c :| c in db.conversations && IsPair(db.conversations[c], low, high) then Some(c) else None
  }

  ghost function FindKey(db: Db, conversation: ConversationId, sender: UserId, clientMsgId: string)
    : (r: Option<MessageId>)
    ensures r.Some? ==> r.value in db.messages && HasKey(db.messages[r.value], conversation, sender, clientMsgId)
    ensures r.None? ==> forall id | id in db.messages :: !HasKey(db.messages[id], conversation, sender, clientMsgId)
  {
    if id :| id in db.messages && HasKey(db.messages[id], conversation, sender, clientMsgId) then Some(id) else None
  }

  // ----------------------------------------------------------- transactions

  function InsertConversationTx(db: Db, id: ConversationId, low: UserId, high: UserId, now: int)
    : Result<Db, DirectError>
  {
    if id in db.conversations || exists c | c in db.conversations :: IsPair(db.conversations[c], low, high)
    then Err(DuplicateKey)
    else Ok(db.(conversations := db.conversations[id := Conversation(low, high, 0, now)]))
  }

  function CreateMessageTx(db: Db, conversation: ConversationId, id: MessageId, sender: UserId, recipient: UserId,
                           clientMsgId: string, payload: string, now: int): Result<Db, DirectError>
  {
    if conversation !in db.conversations then Err(ConversationNotFound) else
      var locked := db.conversations[conversation];
      var m := Message(conversation, sender, recipient, clientMsgId, payload, locked.lastSeq + 1,
                       PendingAck, None, now);
      if id in db.messages || exists k | k in db.messages :: HasKey(db.messages[k], conversation, sender, clientMsgId)
      then Err(DuplicateKey)
      else Ok(Db(db.conversations[conversation := locked.(lastSeq := m.seqNo, lastMessageAt := now)],
                 db.messages[id := m]))
  }

  function AckMessageTx(db: Db, id: MessageId, user: UserId, now: int): Result<Db, DirectError> {
    if id !in db.messages then Err(MessageNotFound)
    else if db.messages[id].recipient != user then Err(NotRecipient)
    else if db.messages[id].status == Acked && db.messages[id].ackedAt.Some? then Ok(db)
    else Ok(db.(messages := db.messages[id := db.messages[id].(status := Acked, ackedAt := Some(now))]))
  }

  // ------------------------------------------- what a commit writes, by column

  /** The conversation is the one of these two users. */
  predicate Joins(c: Conversation, a: UserId, b: UserId) {
    (c.low == a && c.high == b) || (c.low == b && c.high == a)
  }

  ghost predicate HasConversation(db: Db, a: UserId, b: UserId) {
    exists c | c in db.conversations :: Joins(db.conversations[c], a, b)
  }

  ghost predicate KeyTaken(db: Db, conversation: ConversationId, sender: UserId, clientMsgId: string) {
    exists id :: IsKeyRow(db, id, conversation, sender, clientMsgId)
  }

  /** The row is one this sender put into this conversation under this key. */
  ghost predicate IsKeyRow(db: Db, id: MessageId, conversation: ConversationId, sender: UserId, clientMsgId: string) {
    && id in db.messages
    && var m := db.messages[id];
      m.conversation == conversation && m.sender == sender && m.clientMsgId == clientMsgId
  }

  /** A new conversation of the two users, the smaller id first, without messages. */
  ghost predicate ConversationStored(db: Db, db': Db, id: ConversationId, a: UserId, b: UserId, now: int) {
    && id !in db.conversations && id in db'.conversations
    && db'.conversations == db.conversations[id := db'.conversations[id]] && db'.messages == db.messages
    && var c := db'.conversations[id];
      Joins(c, a, b) && c.low <= c.high && c.lastSeq == 0 && c.lastMessageAt == now
  }

  /** One new row under the next seq, which the conversation then carries with the time. */
  ghost predicate MessageStored(db: Db, db': Db, id: MessageId, conversation: ConversationId, clientMsgId: string,
                                payload: string, now: int)
  {
    && conversation in db.conversations && conversation in db'.conversations
    && id !in db.messages && id in db'.messages
    && db'.messages == db.messages[id := db'.messages[id]]
    && db'.conversations == db.conversations[conversation := db'.conversations[conversation]]
    && var c, c', m := db.conversations[conversation], db'.conversations[conversation], db'.messages[id];
      && c'.low == c.low && c'.high == c.high && c'.lastSeq == c.lastSeq + 1 && c'.lastMessageAt == now
      && m.conversation == conversation && m.seqNo == c.lastSeq + 1
      && m.clientMsgId == clientMsgId && m.payload == payload
      && m.status == PendingAck && m.ackedAt == None && m.createdAt == now
  }

  /** The new row goes from user to the other user of the conversation. */
  ghost predicate MessageSent(db: Db, db': Db, id: MessageId, user: UserId, conversation: ConversationId,
                              clientMsgId: string, payload: string, now: int)
  {
    && MessageStored(db, db', id, conversation, clientMsgId, payload, now)
    && db'.messages[id].sender == user
    && Joins(db.conversations[conversation], user, db'.messages[id].recipient)
  }

  /** The row is acknowledged, by its recipient only; an earlier acknowledgement stands. */
  ghost predicate MessageAcked(db: Db, db': Db, id: MessageId, user: UserId, now: int) {
    && id in db.messages && id in db'.messages && user == db.messages[id].recipient
    && db'.conversations == db.conversations && db'.messages == db.messages[id := db'.messages[id]]
    && var m, m' := db.messages[id], db'.messages[id];
      && m' == m.(status := m'.status, ackedAt := m'.ackedAt)
      && m'.status == Acked
      && m'.ackedAt == (if m.status == Acked && m.ackedAt.Some? then m.ackedAt else Some(now))
  }

  lemma InsertTxWrites(db: Db, id: ConversationId, a: UserId, b: UserId, now: int)
    requires ConversationsOk(db)
    ensures var (low, high) := UserPair(a, b);
      var tx := InsertConversationTx(db, id, low, high, now);
      && (tx.Ok? <==> id !in db.conversations && !HasConversation(db, a, b))
      && (tx.Ok? ==> ConversationStored(db, tx.value, id, a, b, now))
      && (tx.Err? ==> tx == Err(DuplicateKey))
  {
    var (low, high) := UserPair(a, b);
    assert forall c | c in db.conversations ::
      IsPair(db.conversations[c], low, high) <==> Joins(db.conversations[c], a, b);
  }

  lemma CreateTxWrites(db: Db, conversation: ConversationId, id: MessageId, sender: UserId, recipient: UserId,
                       clientMsgId: string, payload: string, now: int)
    ensures var tx := CreateMessageTx(db, conversation, id, sender, recipient, clientMsgId, payload, now);
      && (tx == Err(ConversationNotFound) <==> conversation !in db.conversations)
      && (tx == Err(DuplicateKey) <==>
          && conversation in db.conversations
          && (id in db.messages || KeyTaken(db, conversation, sender, clientMsgId)))
      && (tx.Err? ==> tx.error == ConversationNotFound || tx.error == DuplicateKey)
      && (tx.Ok? ==>
          && MessageStored(db, tx.value, id, conversation, clientMsgId, payload, now)
          && tx.value.messages[id].sender == sender && tx.value.messages[id].recipient == recipient)
  {
    KeyRows(db, conversation, sender, clientMsgId);
  }

  lemma KeyRows(db: Db, conversation: ConversationId, sender: UserId, clientMsgId: string)
    ensures KeyTaken(db, conversation, sender, clientMsgId) <==>
      exists id | id in db.messages :: HasKey(db.messages[id], conversation, sender, clientMsgId)
  {
    assert forall id | id in db.messages ::
      HasKey(db.messages[id], conversation, sender, clientMsgId)
      <==> IsKeyRow(db, id, conversation, sender, clientMsgId);
  }

  lemma AckTxWrites(db: Db, id: MessageId, user: UserId, now: int)
    ensures var tx := AckMessageTx(db, id, user, now);
      && (tx == Err(MessageNotFound) <==> id !in db.messages)
      && (tx == Err(NotRecipient) <==> id in db.messages && user != db.messages[id].recipient)
      && (tx.Err? ==> tx.error == MessageNotFound || tx.error == NotRecipient)
      && (tx.Ok? ==> MessageAcked(db, tx.value, id, user, now))
  {
  }

  // -------------------------------------------------------------- invariant

  ghost predicate ConversationsOk(db: Db) {
    && (forall c | c in db.conversations :: db.conversations[c].low < db.conversations[c].high)
    && (forall c, d | c in db.conversations && d in db.conversations && c != d ::
          !IsPair(db.conversations[d], db.conversations[c].low, db.conversations[c].high))
  }

  /** Sender and recipient are the two users of the conversation. */
  predicate AreParticipants(c: Conversation, sender: UserId, recipient: UserId) {
    UserPair(sender, recipient) == (c.low, c.high)
  }

  ghost predicate MessagesOk(db: Db) {
    forall id | id in db.messages ::
      var m := db.messages[id];
      && m.conversation in db.conversations
      && AreParticipants(db.conversations[m.conversation], m.sender, m.recipient)
      && m.sender != m.recipient
      && 1 <= m.seqNo <= db.conversations[m.conversation].lastSeq
      && (m.status == Acked <==> m.ackedAt.Some?)
  }

  ghost predicate KeysUnique(db: Db) {
    forall i, j | i in db.messages && j in db.messages && i != j ::
      !HasKey(db.messages[j], db.messages[i].conversation, db.messages[i].sender, db.messages[i].clientMsgId)
  }

  predicate At(db: Db, conversation: ConversationId, n: int, id: MessageId) {
    id in db.messages && db.messages[id].conversation == conversation && db.messages[id].seqNo == n
  }

  ghost predicate Filled(db: Db, conversation: ConversationId, n: int) {
    exists id :: At(db, conversation, n, id)
  }

  /** No unique index guards seq; that it has no duplicate and no gap has to be shown. */
  ghost predicate SeqsExact(db: Db) {
    && (forall c, n, i, j | At(db, c, n, i) && At(db, c, n, j) :: i == j)
    && (forall c, n | c in db.conversations && 1 <= n <= db.conversations[c].lastSeq :: Filled(db, c, n))
  }

  ghost predicate Valid(db: Db) {
    ConversationsOk(db) && MessagesOk(db) && KeysUnique(db) && SeqsExact(db)
  }

  const EMPTY_DB := Db(map[], map[])

  lemma InsertConversationKeepsValid(db: Db, id: ConversationId, low: UserId, high: UserId, now: int)
    requires Valid(db) && low < high
    ensures var tx := InsertConversationTx(db, id, low, high, now); tx.Ok? ==> Valid(tx.value)
  {
    var tx := InsertConversationTx(db, id, low, high, now);
    if tx.Ok? {
      forall c, n | c in tx.value.conversations && 1 <= n <= tx.value.conversations[c].lastSeq
        ensures Filled(tx.value, c, n)
      {
        assert Filled(db, c, n);
        var k :| At(db, c, n, k);
        assert At(tx.value, c, n, k);
      }
      forall c, n, i, j | At(tx.value, c, n, i) && At(tx.value, c, n, j) ensures i == j {
        assert At(db, c, n, i) && At(db, c, n, j);
      }
    }
  }

  lemma CreateKeepsRows(db: Db, conversation: ConversationId, id: MessageId, sender: UserId, recipient: UserId,
                        clientMsgId: string, payload: string, now: int)
    requires ConversationsOk(db) && MessagesOk(db)
    requires conversation in db.conversations && sender != recipient
    requires AreParticipants(db.conversations[conversation], sender, recipient)
    ensures var tx := CreateMessageTx(db, conversation, id, sender, recipient, clientMsgId, payload, now);
      tx.Ok? ==> ConversationsOk(tx.value) && MessagesOk(tx.value)
  {
  }

  lemma CreateKeepsKeys(db: Db, conversation: ConversationId, id: MessageId, sender: UserId, recipient: UserId,
                        clientMsgId: string, payload: string, now: int)
    requires KeysUnique(db)
    ensures var tx := CreateMessageTx(db, conversation, id, sender, recipient, clientMsgId, payload, now);
      tx.Ok? ==> KeysUnique(tx.value)
  {
  }

  lemma CreateKeepsSeqs(db: Db, conversation: ConversationId, id: MessageId, sender: UserId, recipient: UserId,
                        clientMsgId: string, payload: string, now: int)
    requires MessagesOk(db) && SeqsExact(db)
    ensures var tx := CreateMessageTx(db, conversation, id, sender, recipient, clientMsgId, payload, now);
      tx.Ok? ==> SeqsExact(tx.value)
  {
    var tx := CreateMessageTx(db, conversation, id, sender, recipient, clientMsgId, payload, now);
    if tx.Ok? {
      var db', last := tx.value, db.conversations[conversation].lastSeq;
      assert At(db', conversation, last + 1, id);
      forall c, n, i | At(db', c, n, i)
        ensures if i == id then c == conversation && n == last + 1
                else At(db, c, n, i) && (c == conversation ==> n <= last)
      {
      }
      forall c, n | c in db'.conversations && 1 <= n <= db'.conversations[c].lastSeq
        ensures Filled(db', c, n)
      {
        if !(c == conversation && n == last + 1) {
          assert Filled(db, c, n);
          var k :| At(db, c, n, k);
          assert At(db', c, n, k);
        }
      }
    }
  }

  lemma CreateKeepsValid(db: Db, conversation: ConversationId, id: MessageId, sender: UserId, recipient: UserId,
                         clientMsgId: string, payload: string, now: int)
    requires Valid(db) && conversation in db.conversations && sender != recipient
    requires AreParticipants(db.conversations[conversation], sender, recipient)
    ensures var tx := CreateMessageTx(db, conversation, id, sender, recipient, clientMsgId, payload, now);
      tx.Ok? ==> Valid(tx.value)
  {
    CreateKeepsRows(db, conversation, id, sender, recipient, clientMsgId, payload, now);
    CreateKeepsKeys(db, conversation, id, sender, recipient, clientMsgId, payload, now);
    CreateKeepsSeqs(db, conversation, id, sender, recipient, clientMsgId, payload, now);
  }

  lemma AckKeepsValid(db: Db, id: MessageId, user: UserId, now: int)
    requires Valid(db)
    ensures var tx := AckMessageTx(db, id, user, now); tx.Ok? ==> Valid(tx.value)
  {
    var tx := AckMessageTx(db, id, user, now);
    if tx.Ok? {
      assert forall c, n, i :: At(tx.value, c, n, i) <==> At(db, c, n, i);
      forall c, n | c in tx.value.conversations && 1 <= n <= tx.value.conversations[c].lastSeq
        ensures Filled(tx.value, c, n)
      {
        assert Filled(db, c, n);
        var k :| At(db, c, n, k);
        assert At(tx.value, c, n, k);
      }
    }
  }

  // --------------------------------------------------------------- evolution

  /**
   What the tables may become: conversations keep their users, rows are never
   lost or rewritten, the first acknowledgement is final, and new rows of a
   conversation come after all its old ones.
   */
  ghost predicate Extends(db: Db, db': Db) {
    && ConversationsExtend(db, db')
    && (forall id | id in db.messages :: id in db'.messages && RowExtends(db.messages[id], db'.messages[id]))
    && (forall id | id in db'.messages && id !in db.messages :: IsNewer(db, db'.messages[id]))
  }

  ghost predicate ConversationsExtend(db: Db, db': Db) {
    forall c | c in db.conversations ::
      && c in db'.conversations
      && db'.conversations[c].low == db.conversations[c].low
      && db'.conversations[c].high == db.conversations[c].high
      && db.conversations[c].lastSeq <= db'.conversations[c].lastSeq
  }

  ghost predicate RowExtends(m: Message, m': Message) {
    && m' == m.(status := m'.status, ackedAt := m'.ackedAt)
    && (m.status == Acked && m.ackedAt.Some? ==> m' == m)
  }

  predicate IsNewer(db: Db, m: Message) {
    m.conversation in db.conversations ==> db.conversations[m.conversation].lastSeq < m.seqNo
  }

  lemma ExtendsTransitive(a: Db, b: Db, c: Db)
    requires Extends(a, b) && Extends(b, c)
    ensures Extends(a, c)
  {
    forall id | id in a.messages ensures id in c.messages && RowExtends(a.messages[id], c.messages[id]) {
      assert RowExtends(a.messages[id], b.messages[id]) && RowExtends(b.messages[id], c.messages[id]);
    }
    forall id | id in c.messages && id !in a.messages ensures IsNewer(a, c.messages[id]) {
      if id in b.messages {
        assert IsNewer(a, b.messages[id]) && RowExtends(b.messages[id], c.messages[id]);
      } else {
        assert IsNewer(b, c.messages[id]);
      }
    }
  }

  /** The transactions only extend the tables. */
  lemma TransactionsExtend(db: Db, conversation: ConversationId, id: MessageId, a: UserId, b: UserId,
                           clientMsgId: string, payload: string, now: int)
    ensures var tx := InsertConversationTx(db, conversation, a, b, now); tx.Ok? ==> Extends(db, tx.value)
    ensures var tx := CreateMessageTx(db, conversation, id, a, b, clientMsgId, payload, now);
      tx.Ok? ==> Extends(db, tx.value)
    ensures var tx := AckMessageTx(db, id, a, now); tx.Ok? ==> Extends(db, tx.value)
  {
  }
}
