/**
 One public channel as it is stored: the head row, the message table and the
 append-only change table, with the transactions that write them. Every
 transaction takes the head row's lock first, so each is one atomic step.
 */
module ChannelLog {
  import opened Common
  import opened Text

  datatype Content = Content(text: string, files: seq<string>)

  const EMPTY_CONTENT := Content("", [])
  const TYPE_DELETED := "deleted"
  const MAX_RETENTION := 60 * 24 * 365

  datatype Head = Head(
    ownerUserId: UserId,
    ownerPeerId: string,
    ownerVersion: int,
    name: string,
    bio: string,
    avatar: string,
    retentionMinutes: int,
    profileVersion: int,
    lastMessageId: int,
    lastSeq: int,
    updatedAt: int,
    headUpdatedAt: int)

  datatype Message = Message(
    messageId: int,
    version: int,
    seqNo: int,
    ownerVersion: int,
    creatorPeerId: string,
    authorPeerId: string,
    createdAt: int,
    updatedAt: int,
    isDeleted: bool,
    messageType: string,
    content: Content)

  /** A row of the change table; the constructor is the change_type column. */
  datatype Change =
    | ProfileChange(seqNo: int, profileVersion: int, createdAt: int)
    | MessageChange(seqNo: int, messageId: int, version: int, isDeleted: bool, createdAt: int)

  /** messages is keyed by message_id and changes by seq, the unique index of each. */
  datatype Channel = Channel(head: Head, messages: map<int, Message>, changes: map<int, Change>)

  datatype ChannelError = Forbidden | MessageNotFound | MessageDeleted | InvalidPayload | DuplicateKey

  datatype Profile = Profile(name: string, bio: string, avatar: string, retentionMinutes: Option<int>)

  /** What UpdateMessage's callback does to the locked row. */
  datatype Mutation = Edit(messageType: string, content: Content) | Tombstone

  // ---------------------------------------------------------------- tables

  function InsertMessage(messages: map<int, Message>, m: Message): Result<map<int, Message>, ChannelError> {
    if m.messageId in messages || exists id | id in messages :: messages[id].seqNo == m.seqNo
    then Err(DuplicateKey)
    else Ok(messages[m.messageId := m])
  }

  function SaveMessage(messages: map<int, Message>, m: Message): Result<map<int, Message>, ChannelError> {
    if exists id | id in messages :: id != m.messageId && messages[id].seqNo == m.seqNo
    then Err(DuplicateKey)
    else Ok(messages[m.messageId := m])
  }

  function InsertChange(changes: map<int, Change>, change: Change): Result<map<int, Change>, ChannelError> {
    if change.seqNo in changes then Err(DuplicateKey) else Ok(changes[change.seqNo := change])
  }

  // ---------------------------------------------------------- transactions

  function NewChannel(owner: UserId, ownerPeerId: string, name: string, bio: string, avatar: string,
                      retentionMinutes: int, now: int): Channel
  {
    Channel(Head(owner, ownerPeerId, 1, name, bio, avatar, NormalizeRetention(retentionMinutes), 1, 0, 0, now, now),
            map[], map[])
  }

  function NormalizeRetention(minutes: int): (r: int)
    ensures 0 <= r <= MAX_RETENTION
    ensures 0 <= minutes <= MAX_RETENTION ==> r == minutes
  {
    if minutes < 0 then 0 else if minutes > MAX_RETENTION then MAX_RETENTION else minutes
  }

  function NextHead(head: Head, now: int): Head {
    head.(lastSeq := head.lastSeq + 1, updatedAt := now, headUpdatedAt := now)
  }

  function UpdateProfileTx(c: Channel, p: Profile, now: int): Result<Channel, ChannelError> {
    var retention :=
      if p.retentionMinutes.Some? then NormalizeRetention(p.retentionMinutes.value) else c.head.retentionMinutes;
    if p.retentionMinutes.Some? && !(0 <= retention <= MAX_RETENTION) then Err(InvalidPayload) else
      var head := NextHead(c.head, now).(name := p.name, bio := p.bio, avatar := p.avatar,
                                         retentionMinutes := retention, profileVersion := c.head.profileVersion + 1);
      var changes :- InsertChange(c.changes, ProfileChange(head.lastSeq, head.profileVersion, now));
      Ok(Channel(head, c.messages, changes))
  }

  function CreateMessageTx(c: Channel, messageType: string, content: Content, now: int)
    : Result<(Channel, Message), ChannelError>
  {
    var head := NextHead(c.head, now).(lastMessageId := c.head.lastMessageId + 1);
    var m := Message(head.lastMessageId, 1, head.lastSeq, head.ownerVersion, head.ownerPeerId, head.ownerPeerId,
                     now, now, false, messageType, content);
    var messages :- InsertMessage(c.messages, m);
    var changes :- InsertChange(c.changes, ChangeOf(m));
    Ok((Channel(head, messages, changes), m))
  }

  /** The change row that records a message row as it has just been written. */
  function ChangeOf(m: Message): Change {
    MessageChange(m.seqNo, m.messageId, m.version, m.isDeleted, m.updatedAt)
  }

  function Mutated(m: Message, head: Head, mutation: Mutation, now: int): Message {
    var touched := m.(version := m.version + 1, seqNo := head.lastSeq, ownerVersion := head.ownerVersion,
                      authorPeerId := head.ownerPeerId, updatedAt := now);
    match mutation
    case Edit(messageType, content) => touched.(messageType := messageType, content := content)
    case Tombstone => touched.(isDeleted := true, messageType := TYPE_DELETED, content := EMPTY_CONTENT)
  }

  /** Only the edit callback looks at the tombstone flag of the locked row. */
  function UpdateMessageTx(c: Channel, id: int, mutation: Mutation, now: int)
    : Result<(Channel, Message), ChannelError>
  {
    if id !in c.messages then Err(MessageNotFound)
    else if mutation.Edit? && c.messages[id].isDeleted then Err(MessageDeleted)
    else
      var head := NextHead(c.head, now);
      var m := Mutated(c.messages[id], head, mutation, now);
      var messages :- SaveMessage(c.messages, m);
      var changes :- InsertChange(c.changes, ChangeOf(m));
      Ok((Channel(head, messages, changes), m))
  }

  /** DeleteMessage when nothing else runs between its unlocked read and its transaction. */
  function SerialDelete(c: Channel, user: UserId, id: int, now: int): Result<(Channel, Message), ChannelError> {
    if c.head.ownerUserId != user then Err(Forbidden)
    else if id !in c.messages then Err(MessageNotFound)
    else if c.messages[id].isDeleted then Ok((c, c.messages[id]))
    else UpdateMessageTx(c, id, Tombstone, now)
  }

  // ------------------------------------------- what a commit writes, by column

  /** Retention as asked for, up to the nearest bound; without a request as it was. */
  ghost predicate RetentionFrom(before: int, asked: Option<int>, after: int) {
    match asked
    case None => after == before
    case Some(minutes) =>
      if minutes < 0 then after == 0 else if minutes > 525_600 then after == 525_600 else after == minutes
  }

  /** One change row under the next seq, which the head then carries with the time. */
  ghost predicate Logs(c: Channel, c': Channel, change: Change, now: int) {
    && c.head.lastSeq + 1 !in c.changes
    && c'.changes == c.changes[c.head.lastSeq + 1 := change]
    && change.seqNo == c.head.lastSeq + 1 && change.createdAt == now
    && c'.head.lastSeq == c.head.lastSeq + 1 && c'.head.updatedAt == now && c'.head.headUpdatedAt == now
    && c'.head.ownerUserId == c.head.ownerUserId && c'.head.ownerPeerId == c.head.ownerPeerId
    && c'.head.ownerVersion == c.head.ownerVersion
  }

  ghost predicate KeepsProfile(h: Head, h': Head) {
    && h'.name == h.name && h'.bio == h.bio && h'.avatar == h.avatar
    && h'.retentionMinutes == h.retentionMinutes && h'.profileVersion == h.profileVersion
  }

  ghost predicate ProfileWritten(c: Channel, c': Channel, p: Profile, now: int) {
    && Logs(c, c', ProfileChange(c.head.lastSeq + 1, c.head.profileVersion + 1, now), now)
    && c'.messages == c.messages && c'.head.lastMessageId == c.head.lastMessageId
    && c'.head.name == p.name && c'.head.bio == p.bio && c'.head.avatar == p.avatar
    && RetentionFrom(c.head.retentionMinutes, p.retentionMinutes, c'.head.retentionMinutes)
    && c'.head.profileVersion == c.head.profileVersion + 1
  }

  ghost predicate MessageWritten(c: Channel, c': Channel, m: Message, now: int) {
    && c'.messages == c.messages[m.messageId := m]
    && Logs(c, c', MessageChange(c.head.lastSeq + 1, m.messageId, m.version, m.isDeleted, now), now)
    && KeepsProfile(c.head, c'.head)
    && m.seqNo == c.head.lastSeq + 1 && m.ownerVersion == c.head.ownerVersion
    && m.authorPeerId == c.head.ownerPeerId && m.updatedAt == now
  }

  ghost predicate MessageCreated(c: Channel, c': Channel, m: Message, messageType: string, content: Content, now: int) {
    && MessageWritten(c, c', m, now)
    && m.messageId == c.head.lastMessageId + 1 == c'.head.lastMessageId && m.messageId !in c.messages
    && m.version == 1 && m.creatorPeerId == c.head.ownerPeerId && m.createdAt == now
    && !m.isDeleted && m.messageType == messageType && m.content == content
  }

  /** A stored row written anew: one version up, its identity and creation as before. */
  ghost predicate MessageRewritten(c: Channel, c': Channel, m: Message, id: int, now: int) {
    && id in c.messages && MessageWritten(c, c', m, now)
    && c'.head.lastMessageId == c.head.lastMessageId
    && m.messageId == c.messages[id].messageId && m.version == c.messages[id].version + 1
    && m.creatorPeerId == c.messages[id].creatorPeerId && m.createdAt == c.messages[id].createdAt
  }

  ghost predicate MessageEdited(c: Channel, c': Channel, m: Message, id: int, messageType: string, content: Content,
                                now: int)
  {
    && MessageRewritten(c, c', m, id, now) && !c.messages[id].isDeleted
    && !m.isDeleted && m.messageType == messageType && m.content == content
  }

  ghost predicate Tombstoned(c: Channel, c': Channel, m: Message, id: int, now: int) {
    && MessageRewritten(c, c', m, id, now)
    && m.isDeleted && m.messageType == "deleted" && m.content == Content("", [])
  }

  /** No stored row is in the way of the next seq. */
  ghost predicate SeqFree(c: Channel) {
    && c.head.lastSeq + 1 !in c.changes
    && forall id | id in c.messages :: c.messages[id].seqNo != c.head.lastSeq + 1
  }

  lemma ProfileTxWrites(c: Channel, p: Profile, now: int)
    ensures var tx := UpdateProfileTx(c, p, now);
      && (tx.Ok? <==> c.head.lastSeq + 1 !in c.changes)
      && (tx.Ok? ==> ProfileWritten(c, tx.value, p, now))
  {
  }

  lemma CreateTxWrites(c: Channel, messageType: string, content: Content, now: int)
    ensures var tx := CreateMessageTx(c, messageType, content, now);
      && (tx.Ok? <==> SeqFree(c) && c.head.lastMessageId + 1 !in c.messages)
      && (tx.Ok? ==> MessageCreated(c, tx.value.0, tx.value.1, messageType, content, now))
  {
  }

  /** Another row may not have the next seq; the row itself is rewritten. */
  lemma UpdateTxWrites(c: Channel, id: int, mutation: Mutation, now: int)
    ensures var tx := UpdateMessageTx(c, id, mutation, now);
      && (id !in c.messages ==> tx == Err(MessageNotFound))
      && (id in c.messages && mutation.Edit? && c.messages[id].isDeleted ==> tx == Err(MessageDeleted))
      && (id in c.messages && !(mutation.Edit? && c.messages[id].isDeleted) && SeqFree(c) ==> tx.Ok?)
      && (tx.Ok? ==> match mutation
            case Edit(messageType, content) =>
              MessageEdited(c, tx.value.0, tx.value.1, id, messageType, content, now)
            case Tombstone => Tombstoned(c, tx.value.0, tx.value.1, id, now))
  {
  }

  /** The owner's subscription, inserted with the channel. */
  datatype Subscription = Subscription(
    userId: UserId,
    lastSeenSeq: int,
    lastSyncedSeq: int,
    latestLoadedMessageId: int,
    oldestLoadedMessageId: int,
    unreadCount: int,
    subscribed: bool,
    updatedAt: int)

  // ----------------------------------------------------------------- store

  /** A transaction either leaves its new state and answer, or rolls back and reports the error. */
  ghost predicate Outcome<A>(before: Channel, after: Channel, tx: Result<(Channel, A), ChannelError>,
                             r: Result<A, ChannelError>)
  {
    match tx
    case Ok((c, a)) => after == c && r == Ok(a)
    case Err(e) => after == before && r == Err(e)
  }

  class ChannelStore {
    var head: Head
    var messages: map<int, Message>
    var changes: map<int, Change>

    ghost function State(): Channel
      reads this
    {
      Channel(head, messages, changes)
    }

    constructor (owner: UserId, ownerPeerId: string, name: string, bio: string, avatar: string,
                 retentionMinutes: int, now: int)
      ensures State() == NewChannel(owner, ownerPeerId, name, bio, avatar, retentionMinutes, now)
      ensures messages == map[] && changes == map[]
      ensures head.ownerUserId == owner && head.ownerPeerId == ownerPeerId && head.ownerVersion == 1
      ensures head.name == name && head.bio == bio && head.avatar == avatar
      ensures RetentionFrom(0, Some(retentionMinutes), head.retentionMinutes)
      ensures head.profileVersion == 1 && head.lastMessageId == head.lastSeq == 0
      ensures head.updatedAt == head.headUpdatedAt == now
    {
      head := Head(owner, ownerPeerId, 1, name, bio, avatar, NormalizeRetention(retentionMinutes), 1, 0, 0, now, now);
      messages, changes := map[], map[];
    }

    /** CreateChannel: a blank name is turned away, name and bio are trimmed, and the owner is subscribed. */
    static method CreateChannel(owner: UserId, ownerPeerId: string, name: string, bio: string, avatar: string,
                                retentionMinutes: int, now: int)
      returns (r: Result<(ChannelStore, Subscription), ChannelError>)
      ensures r.Ok? <==> Trim(name) != ""
      ensures r.Err? ==> r.error == InvalidPayload
      ensures r.Ok? ==>
        && fresh(r.value.0)
        && r.value.0.State() == NewChannel(owner, ownerPeerId, Trim(name), Trim(bio), avatar, retentionMinutes, now)
        && r.value.1.userId == owner && r.value.1.subscribed && r.value.1.unreadCount == 0
        && r.value.1.lastSeenSeq == r.value.1.lastSyncedSeq == r.value.0.State().head.lastSeq
        && r.value.1.latestLoadedMessageId == r.value.1.oldestLoadedMessageId == r.value.0.State().head.lastMessageId
        && r.value.1.updatedAt == now
    {
      if Trim(name) == "" {
        return Err(InvalidPayload);
      }
      var channel := new ChannelStore(owner, ownerPeerId, Trim(name), Trim(bio), avatar, retentionMinutes, now);
      r := Ok((channel, Subscription(owner, 0, 0, 0, 0, 0, true, now)));
    }

    method UpdateProfile(p: Profile, now: int) returns (r: Result<(), ChannelError>)
      modifies this
      ensures match UpdateProfileTx(old(State()), p, now)
        case Ok(c) => State() == c && r == Ok(())
        case Err(e) => State() == old(State()) && r == Err(e)
      ensures r.Ok? ==> ProfileWritten(old(State()), State(), p, now)
      ensures r.Ok? <==> old(head.lastSeq) + 1 !in old(changes)
    {
      var locked := head;
      var retention := locked.retentionMinutes;
      if p.retentionMinutes.Some? {
        retention := NormalizeRetention(p.retentionMinutes.value);
        if retention < 0 || retention > MAX_RETENTION {
          return Err(InvalidPayload);
        }
      }
      locked := locked.(name := p.name, bio := p.bio, avatar := p.avatar, retentionMinutes := retention);
      locked := locked.(profileVersion := locked.profileVersion + 1);
      locked := locked.(lastSeq := locked.lastSeq + 1);
      locked := locked.(updatedAt := now, headUpdatedAt := now);
      var rollback := head;
      head := locked;
      var inserted := InsertChange(changes, ProfileChange(locked.lastSeq, locked.profileVersion, now));
      if inserted.Err? {
        head := rollback;
        return Err(inserted.error);
      }
      changes := inserted.value;
      r := Ok(());
    }

    method CreateMessage(messageType: string, content: Content, now: int) returns (r: Result<Message, ChannelError>)
      modifies this
      ensures Outcome(old(State()), State(), CreateMessageTx(old(State()), messageType, content, now), r)
      ensures r.Ok? ==> MessageCreated(old(State()), State(), r.value, messageType, content, now)
      ensures r.Ok? <==> old(SeqFree(State())) && old(head.lastMessageId) + 1 !in old(messages)
    {
      var locked := head;
      locked := locked.(lastMessageId := locked.lastMessageId + 1);
      locked := locked.(lastSeq := locked.lastSeq + 1);
      locked := locked.(updatedAt := now, headUpdatedAt := now);
      var m := Message(locked.lastMessageId, 1, locked.lastSeq, locked.ownerVersion, locked.ownerPeerId,
                       locked.ownerPeerId, now, now, false, messageType, content);
      var rollback := messages;
      var created := InsertMessage(messages, m);
      if created.Err? {
        return Err(created.error);
      }
      messages := created.value;
      var inserted := InsertChange(changes, MessageChange(m.seqNo, m.messageId, m.version, m.isDeleted, now));
      if inserted.Err? {
        messages := rollback;
        return Err(inserted.error);
      }
      changes := inserted.value;
      head := locked;
      r := Ok(m);
    }

    method UpdateMessage(id: int, mutation: Mutation, now: int) returns (r: Result<Message, ChannelError>)
      modifies this
      ensures Outcome(old(State()), State(), UpdateMessageTx(old(State()), id, mutation, now), r)
      ensures r.Err? ==> State() == old(State())
      ensures r.Ok? && mutation.Edit? ==>
        MessageEdited(old(State()), State(), r.value, id, mutation.messageType, mutation.content, now)
      ensures r.Ok? && mutation.Tombstone? ==> Tombstoned(old(State()), State(), r.value, id, now)
      ensures r == Err(MessageNotFound) <==> id !in old(messages)
      ensures r == Err(MessageDeleted) <==> id in old(messages) && mutation.Edit? && old(messages[id].isDeleted)
    {
      UpdateTxWrites(State(), id, mutation, now);
      var locked := head;
      if id !in messages {
        return Err(MessageNotFound);
      }
      var m := messages[id];
      match mutation {
        case Edit(messageType, content) =>
          if m.isDeleted {
            return Err(MessageDeleted);
          }
          m := m.(messageType := messageType, content := content);
        case Tombstone =>
          m := m.(isDeleted := true, messageType := TYPE_DELETED, content := EMPTY_CONTENT);
      }
      m := m.(version := m.version + 1);
      locked := locked.(lastSeq := locked.lastSeq + 1, updatedAt := now, headUpdatedAt := now);
      m := m.(seqNo := locked.lastSeq, ownerVersion := locked.ownerVersion, authorPeerId := locked.ownerPeerId,
              updatedAt := now);
      var rollback := messages;
      var saved := SaveMessage(messages, m);
      if saved.Err? {
        return Err(saved.error);
      }
      messages := saved.value;
      var inserted := InsertChange(changes, MessageChange(m.seqNo, m.messageId, m.version, m.isDeleted, now));
      if inserted.Err? {
        messages := rollback;
        return Err(inserted.error);
      }
      changes := inserted.value;
      head := locked;
      r := Ok(m);
    }

    method DeleteMessage(user: UserId, id: int, now: int) returns (r: Result<Message, ChannelError>)
      modifies this
      ensures Outcome(old(State()), State(), SerialDelete(old(State()), user, id, now), r)
      ensures r.Err? ==> State() == old(State())
      ensures r == Err(Forbidden) <==> user != old(head.ownerUserId)
      ensures r == Err(MessageNotFound) <==> user == old(head.ownerUserId) && id !in old(messages)
      ensures r.Ok? ==>
        && user == old(head.ownerUserId) && id in old(messages)
        && if old(messages[id].isDeleted) then State() == old(State()) && r.value == old(messages[id])
           else Tombstoned(old(State()), State(), r.value, id, now)
    {
      if head.ownerUserId != user {
        return Err(Forbidden);
      }
      if id !in messages {
        return Err(MessageNotFound);
      }
      if messages[id].isDeleted {
        return Ok(messages[id]);
      }
      r := UpdateMessage(id, Tombstone, now);
    }
  }
}
