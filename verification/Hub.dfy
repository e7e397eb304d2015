/**
 The websocket hub: which clients listen to which rooms, kept from both sides,
 and the broadcast that renders once per user into bounded queues. The three
 room tables of the hub, and the three room sets of a client, are one table and
 one set whose keys carry the kind of room.
 */
module Hub {
  import opened Common

  datatype Kind = GroupRoom | DirectRoom | ChannelRoom
  datatype Room = Room(kind: Kind, id: string)

  function RoomsOf(kind: Kind, ids: seq<string>): (s: set<Room>)
    ensures forall r :: r in s <==> r.kind == kind && r.id in ids
  {
    set id | id in ids :: Room(kind, id)
  }

  lemma NextRoom(kind: Kind, ids: seq<string>, i: nat)
    requires i < |ids|
    ensures RoomsOf(kind, ids[..i + 1]) == RoomsOf(kind, ids[..i]) + {Room(kind, ids[i])}
  {
    assert ids[..i + 1] == ids[..i] + [ids[i]];
  }

  /** What a viewer is sent, or the renderer's error. */
  type Renderer = UserId -> Result<string, ()>

  predicate Renders(render: Renderer, user: UserId) {
    render(user).Ok? && render(user).value != ""
  }

  /** A user occurs more than once among the calls only if rendering fails for it. */
  ghost predicate RendersOnce(render: Renderer, calls: seq<UserId>) {
    forall i, j | 0 <= i < j < |calls| && calls[i] == calls[j] :: !Renders(render, calls[i])
  }

  lemma OneMoreCall(render: Renderer, calls: seq<UserId>, user: UserId)
    requires RendersOnce(render, calls) && (user in calls ==> !Renders(render, user))
    ensures RendersOnce(render, calls + [user])
  {
  }

  class Client {
    const userId: UserId
    const capacity: nat
    var send: seq<string>
    var sendClosed: bool
    var disconnected: bool
    var rooms: set<Room>

    constructor (userId: UserId, capacity: nat)
      ensures this.userId == userId && this.capacity == capacity
      ensures send == [] && !sendClosed && !disconnected && rooms == {}
    {
      this.userId, this.capacity := userId, capacity;
      send, sendClosed, disconnected, rooms := [], false, false, {};
    }

    /** Sends without waiting; a client whose buffer is full is disconnected instead. */
    method Push(payload: string)
      modifies this`send, this`disconnected
      ensures if old(|send|) < capacity
        then send == old(send) + [payload] && disconnected == old(disconnected)
        else send == old(send) && disconnected
    {
      if |send| < capacity {
        send := send + [payload];
      } else {
        disconnected := true;
      }
    }

    /** The buffered channel still takes messages and holds no more than it can. */
    predicate Open()
      reads this
    {
      !sendClosed && |send| <= capacity
    }
  }

  class Hub {
    var clients: set<Client>
    var rooms: map<Room, set<Client>>

    function Members(room: Room): set<Client>
      reads this
    {
      if room in rooms then rooms[room] else {}
    }

    /** The two sides of the index agree about a client. */
    ghost predicate Agrees(c: Client)
      reads this, c
    {
      forall room :: room in c.rooms <==> c in Members(room)
    }

    ghost predicate Valid()
      reads this, clients
    {
      && (forall room | room in rooms :: rooms[room] != {} && rooms[room] <= clients)
      && (forall c | c in clients :: Agrees(c) && c.Open())
    }

    constructor ()
      ensures Valid() && clients == {} && rooms == map[]
    {
      clients, rooms := {}, map[];
    }

    method Register(c: Client)
      requires Valid() && c !in clients && c.rooms == {} && c.Open()
      modifies this`clients
      ensures Valid() && clients == old(clients) + {c}
    {
      clients := clients + {c};
      assert forall room :: c !in Members(room);
    }

    /** Only the rooms of one client have changed, and for it the two sides still agree. */
    twostate lemma StillValid(c: Client)
      requires old(Valid()) && old(c in clients) && clients <= old(clients)
      requires clients == old(clients) || (clients == old(clients) - {c} && forall room :: c !in Members(room))
      requires forall d | d in clients && d != c :: unchanged(d)
      requires c in clients ==> c.Open()
      requires forall room | room in rooms :: rooms[room] != {}
      requires forall room :: Members(room) - {c} == old(Members(room)) - {c}
      requires c in clients ==> Agrees(c)
      ensures Valid()
    {
      forall room | room in rooms ensures rooms[room] <= clients {
        assert rooms[room] == Members(room);
        assert Members(room) - {c} == old(Members(room)) - {c};
        assert old(Members(room)) <= old(clients);
        forall x | x in Members(room) ensures x in clients {
          if x != c { assert x in old(Members(room)) - {c}; }
        }
      }
      forall d | d in clients ensures Agrees(d) && d.Open() {
        if d != c {
          assert old(Agrees(d) && d.Open());
          forall room ensures room in d.rooms <==> d in Members(room) {
            assert d in Members(room) - {c} <==> d in old(Members(room)) - {c};
          }
        }
      }
    }

    /** Leaves the client in no room, although it removes rooms from the set it walks through. */
    method Unregister(c: Client)
      requires Valid() && c in clients
      modifies this, c
      ensures Valid() && clients == old(clients) - {c}
      ensures c.rooms == {} && c.sendClosed && c.send == old(c.send)
      ensures forall room :: Members(room) == old(Members(room)) - {c}
    {
      clients := clients - {c};
      var pending := c.rooms;
      while pending != {}
        invariant pending == c.rooms <= old(c.rooms)
        invariant clients == old(clients) - {c} && c.send == old(c.send) && !c.sendClosed
        invariant forall room | room in rooms :: rooms[room] != {}
        invariant forall room ::
          Members(room) == old(Members(room)) - (if room in old(c.rooms) && room !in pending then {c} else {})
        decreases pending
      {
        var room :| room in pending;
        pending := pending - {room};
        RemoveFromRoom(c, room);
      }
      c.sendClosed := true;
      StillValid(c);
    }

    method Subscribe(c: Client, kind: Kind, ids: seq<string>)
      requires Valid() && c in clients
      modifies this`rooms, c`rooms
      ensures Valid()
      ensures c.rooms == old(c.rooms) + RoomsOf(kind, ids)
      ensures forall room :: Members(room) == old(Members(room)) + (if room in RoomsOf(kind, ids) then {c} else {})
    {
      for i := 0 to |ids|
        invariant c.rooms == old(c.rooms) + RoomsOf(kind, ids[..i])
        invariant forall room | room in rooms :: rooms[room] != {}
        invariant forall room ::
          Members(room) == old(Members(room)) + (if room in RoomsOf(kind, ids[..i]) then {c} else {})
      {
        AddToRoom(c, Room(kind, ids[i]));
        NextRoom(kind, ids, i);
      }
      assert ids[..|ids|] == ids;
      StillValid(c);
    }

    method Unsubscribe(c: Client, kind: Kind, ids: seq<string>)
      requires Valid() && c in clients
      modifies this`rooms, c`rooms
      ensures Valid()
      ensures c.rooms == old(c.rooms) - RoomsOf(kind, ids)
      ensures forall room :: Members(room) == old(Members(room)) - (if room in RoomsOf(kind, ids) then {c} else {})
    {
      for i := 0 to |ids|
        invariant c.rooms == old(c.rooms) - RoomsOf(kind, ids[..i])
        invariant forall room | room in rooms :: rooms[room] != {}
        invariant forall room ::
          Members(room) == old(Members(room)) - (if room in RoomsOf(kind, ids[..i]) then {c} else {})
      {
        RemoveFromRoom(c, Room(kind, ids[i]));
        NextRoom(kind, ids, i);
      }
      assert ids[..|ids|] == ids;
      StillValid(c);
    }

    method AddToRoom(c: Client, room: Room)
      requires forall r | r in rooms :: rooms[r] != {}
      modifies this`rooms, c`rooms
      ensures c.rooms == old(c.rooms) + {room}
      ensures forall r | r in rooms :: rooms[r] != {}
      ensures forall r :: Members(r) == old(Members(r)) + (if r == room then {c} else {})
    {
      if room !in rooms {
        rooms := rooms[room := {}];
      }
      rooms := rooms[room := rooms[room] + {c}];
      c.rooms := c.rooms + {room};
    }

    /** unsubscribeLocked: takes the client out of the room and drops the room once it is empty. */
    method RemoveFromRoom(c: Client, room: Room)
      requires forall r | r in rooms :: rooms[r] != {}
      modifies this`rooms, c`rooms
      ensures c.rooms == old(c.rooms) - {room}
      ensures forall r | r in rooms :: rooms[r] != {}
      ensures forall r :: Members(r) == old(Members(r)) - (if r == room then {c} else {})
    {
      c.rooms := c.rooms - {room};
      if room in rooms {
        var members := rooms[room] - {c};
        rooms := if members == {} then rooms - {room} else rooms[room := members];
      }
    }

    /**
     Renders at most once per user for which it succeeds and sends to every
     member, in whatever order the members come; calls lists the renderer's calls.
     */
    method Broadcast(room: Room, render: Renderer) returns (calls: seq<UserId>)
      requires Valid()
      modifies Members(room)`send, Members(room)`disconnected
      ensures Valid()
      ensures forall c | c in Members(room) :: DeliveredTo(c, render)
      ensures RendersOnce(render, calls)
      ensures forall c | c in Members(room) :: c.userId in calls
    {
      var waiting := Members(room);
      var cache: map<UserId, string> := map[];
      calls := [];
      while waiting != {}
        invariant waiting <= Members(room)
        invariant forall c | c in waiting :: c.send == old(c.send) && c.disconnected == old(c.disconnected)
        invariant forall c | c in Members(room) - waiting :: DeliveredTo(c, render) && c.userId in calls
        invariant forall c | c in clients :: c.Open()
        invariant forall u | u in cache :: render(u) == Ok(cache[u]) && cache[u] != "" && u in calls
        invariant forall u | u in calls && Renders(render, u) :: u in cache
        invariant RendersOnce(render, calls)
        decreases waiting
      {
        var c :| c in waiting;
        waiting := waiting - {c};
        var payload := "";
        if c.userId in cache {
          payload := cache[c.userId];
        } else {
          OneMoreCall(render, calls, c.userId);
          calls := calls + [c.userId];
          var rendered := render(c.userId);
          if rendered.Err? || rendered.value == "" {
            continue;
          }
          payload := rendered.value;
          cache := cache[c.userId := payload];
        }
        c.Push(payload);
      }
    }
  }

  /** The uncached broadcast to one member: render, then append, or mark closed when full. */
  twostate predicate DeliveredTo(c: Client, render: Renderer)
    reads c
  {
    if !Renders(render, c.userId) then c.send == old(c.send) && c.disconnected == old(c.disconnected)
    else if old(|c.send|) < c.capacity
    then c.send == old(c.send) + [render(c.userId).value] && c.disconnected == old(c.disconnected)
    else c.send == old(c.send) && c.disconnected
  }
}
