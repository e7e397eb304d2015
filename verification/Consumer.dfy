/** The consumer loop: events one after another, each broadcast to the room it is for. */
module Consumer {
  import opened Common
  import opened Hub

  /** The fields of an envelope that decide where it goes; an absent id is blank. */
  datatype Event = Event(eventType: string, groupId: string, conversationId: string, channelId: string)

  const GROUP_EVENTS: set<string> := {
    "group.message.created", "group.message.edited", "group.message.deleted",
    "group.settings.updated", "group.member.updated"}
  const DIRECT_EVENTS: set<string> := {"dm.message.created", "dm.message.acked"}
  const CHANNEL_EVENTS: set<string> := {
    "publicchannel.profile.updated", "publicchannel.message.created",
    "publicchannel.message.updated", "publicchannel.message.deleted"}

  /** The room whose members an event is for. */
  function RoomOf(e: Event): Option<Room> {
    if e.eventType in GROUP_EVENTS then Some(Room(GroupRoom, e.groupId))
    else if e.eventType in DIRECT_EVENTS && e.conversationId != "" then Some(Room(DirectRoom, e.conversationId))
    else if e.eventType in CHANNEL_EVENTS && e.channelId != "" then Some(Room(ChannelRoom, e.channelId))
    else None
  }

  /** What each event shows to each user. */
  type View = Event -> Renderer

  // ------------------------------------------- what one client is to receive

  /** A client's queue and whether it has been disconnected. */
  datatype Mailbox = Mailbox(send: seq<string>, disconnected: bool)

  function MailboxOf(c: Client): Mailbox
    reads c
  {
    Mailbox(c.send, c.disconnected)
  }

  predicate IsFor(e: Event, rooms: set<Room>) {
    RoomOf(e).Some? && RoomOf(e).value in rooms
  }

  /** One event and one client: nothing to do with the other clients or with a cache. */
  function Deliver(m: Mailbox, capacity: nat, user: UserId, rooms: set<Room>, e: Event, view: View): Mailbox {
    if !IsFor(e, rooms) || !Renders(view(e), user) then m
    else if |m.send| < capacity then m.(send := m.send + [view(e)(user).value])
    else m.(disconnected := true)
  }

  function DeliverAll(m: Mailbox, capacity: nat, user: UserId, rooms: set<Room>, events: seq<Event>, view: View)
    : Mailbox
  {
    if events == [] then m else
      Deliver(DeliverAll(m, capacity, user, rooms, events[..|events| - 1], view), capacity, user, rooms,
              events[|events| - 1], view)
  }

  /** The payloads for one client, in the order of the events. */
  function Payloads(user: UserId, rooms: set<Room>, events: seq<Event>, view: View): seq<string> {
    if events == [] then [] else
      var last := events[|events| - 1];
      Payloads(user, rooms, events[..|events| - 1], view) +
      if IsFor(last, rooms) && Renders(view(last), user) then [view(last)(user).value] else []
  }

  /**
   The queue takes the payloads in order until it is full, and the client is
   disconnected exactly when there were more than fitted.
   */
  lemma {:induction false} QueueTakesWhatFits(m: Mailbox, capacity: nat, user: UserId, rooms: set<Room>,
                                              events: seq<Event>, view: View)
    requires |m.send| <= capacity
    ensures var m', payloads := DeliverAll(m, capacity, user, rooms, events, view), Payloads(user, rooms, events, view);
      var n := Min(|payloads|, capacity - |m.send|);
      && m'.send == m.send + payloads[..n]
      && (m'.disconnected <==> m.disconnected || n < |payloads|)
  {
    if events != [] {
      QueueTakesWhatFits(m, capacity, user, rooms, events[..|events| - 1], view);
    }
  }

  /** The event is for this room, type by type; a blank conversation or channel has no room. */
  predicate Addresses(e: Event, room: Room) {
    match room.kind
    case GroupRoom =>
      && room.id == e.groupId
      && e.eventType in ["group.message.created", "group.message.edited", "group.message.deleted",
                         "group.settings.updated", "group.member.updated"]
    case DirectRoom =>
      && room.id == e.conversationId != ""
      && e.eventType in ["dm.message.created", "dm.message.acked"]
    case ChannelRoom =>
      && room.id == e.channelId != ""
      && e.eventType in ["publicchannel.profile.updated", "publicchannel.message.created",
                         "publicchannel.message.updated", "publicchannel.message.deleted"]
  }

  /** An event is for at most one room, and for a client exactly if it listens to that one. */
  lemma IsForExactly(e: Event, rooms: set<Room>)
    ensures IsFor(e, rooms) <==> exists room :: room in rooms && Addresses(e, room)
    ensures forall r, q :: Addresses(e, r) && Addresses(e, q) ==> r == q
  {
    DifferentSources(e.eventType);
    if IsFor(e, rooms) { assert Addresses(e, RoomOf(e).value); }
    assert forall room :: Addresses(e, room) ==> RoomOf(e) == Some(room);
  }

  /** The three families of event types have no type in common. */
  lemma DifferentSources(eventType: string)
    ensures eventType in GROUP_EVENTS ==> eventType[0] == 'g'
    ensures eventType in DIRECT_EVENTS ==> eventType[0] == 'd'
    ensures eventType in CHANNEL_EVENTS ==> eventType[0] == 'p'
  {
  }

  /** Everybody listening to the room gets what rendering gives them, and nobody else anything. */
  twostate predicate OnlyRoomGets(clients: set<Client>, room: Room, render: Renderer)
    reads clients
  {
    forall c | c in clients ::
      if room in c.rooms then DeliveredTo(c, render)
      else c.send == old(c.send) && c.disconnected == old(c.disconnected)
  }

  twostate predicate NobodyGets(clients: set<Client>)
    reads clients
  {
    forall c | c in clients :: c.send == old(c.send) && c.disconnected == old(c.disconnected)
  }

  // ---------------------------------------------------------------- handling

  class App {
    const hub: Hub

    constructor (hub: Hub)
      ensures this.hub == hub
    {
      this.hub := hub;
    }

    method HandleEvent(e: Event, view: View)
      requires hub.Valid()
      modifies hub.clients`send, hub.clients`disconnected
      ensures hub.Valid()
      ensures forall c | c in hub.clients ::
        MailboxOf(c) == Deliver(old(MailboxOf(c)), c.capacity, c.userId, c.rooms, e, view)
      ensures
        if e.eventType in ["group.message.created", "group.message.edited", "group.message.deleted",
                           "group.settings.updated", "group.member.updated"]
        then OnlyRoomGets(hub.clients, Room(GroupRoom, e.groupId), view(e))
        else if e.eventType in ["dm.message.created", "dm.message.acked"] && e.conversationId != ""
        then OnlyRoomGets(hub.clients, Room(DirectRoom, e.conversationId), view(e))
        else if e.eventType in ["publicchannel.profile.updated", "publicchannel.message.created",
                                "publicchannel.message.updated", "publicchannel.message.deleted"]
                && e.channelId != ""
        then OnlyRoomGets(hub.clients, Room(ChannelRoom, e.channelId), view(e))
        else NobodyGets(hub.clients)
    {
      var room := RoomOf(e);
      if room.None? {
        return;
      }
      assert forall c | c in hub.clients :: hub.Agrees(c);
      var _ := hub.Broadcast(room.value, view(e));
    }

    /** Consume: the handler runs once per event, to its end, before the next event is taken. */
    method Consume(events: seq<Event>, view: View)
      requires hub.Valid()
      modifies hub.clients`send, hub.clients`disconnected
      ensures hub.Valid()
      ensures forall c | c in hub.clients ::
        MailboxOf(c) == DeliverAll(old(MailboxOf(c)), c.capacity, c.userId, c.rooms, events, view)
    {
      for i := 0 to |events|
        invariant hub.Valid()
        invariant forall c | c in hub.clients ::
          MailboxOf(c) == DeliverAll(old(MailboxOf(c)), c.capacity, c.userId, c.rooms, events[..i], view)
      {
        HandleEvent(events[i], view);
        assert events[..i + 1][..i] == events[..i];
      }
      assert events[..|events|] == events;
    }
  }
}
