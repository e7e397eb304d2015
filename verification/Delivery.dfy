/**
 Who is sent an event: nobody a broadcast finds in the room is passed over, and
 a broadcast that nothing comes between gives every member exactly what is due.
 */
module Delivery {
  import opened Common
  import opened Pipeline

  /** The broadcast of the envelope still has to serve the client. */
  predicate IsWaiting(s: System, envelope: Envelope, c: Client) {
    s.handling.Some? && s.handling.value.envelope == envelope && c in s.handling.value.waiting
  }

  /** The step ends the client's wait in one of the three ways there are. */
  ghost predicate Serves(s: System, e: Event, envelope: Envelope, c: Client) {
    match e
    case Sends(client, full) =>
      && client == c
      && if full then QueueOf(Step(s, e), c) == QueueOf(s, c)
         else exists row :: Adds(s, Step(s, e), c, Entry(envelope, row)) && NotOlder(envelope.stamp, row)
    case Renders(client, shown) => client == c && !(shown && MayView(s.world, envelope.key, c.user))
    case _ => false
  }

  ghost predicate Adds(s: System, s': System, c: Client, entry: Entry) {
    QueueOf(s', c) == QueueOf(s, c) + [entry]
  }

  lemma StepServes(s: System, e: Event, envelope: Envelope, c: Client)
    requires IsWaiting(s, envelope, c) && CacheOk(s.world, s.handling.value)
    ensures if IsWaiting(Step(s, e), envelope, c) then QueueOf(Step(s, e), c) == QueueOf(s, c)
            else Serves(s, e, envelope, c)
  {
    var b := s.handling.value;
    assert Find(s.world, envelope.key).Some?;
    if e.Sends? && e.client == c && c.user in b.cache && !e.full {
      assert NotOlder(envelope.stamp, b.cache[c.user]);
      assert Adds(s, Step(s, e), c, Entry(envelope, b.cache[c.user]));
    }
  }

  lemma StepKeepsViewers(s: System, e: Event, key: Key, user: UserId)
    requires e.Commits? ==> Grows(s.world, Apply(s.world, e.change))
    requires Find(s.world, key).Some? && MayView(s.world, key, user)
    ensures MayView(Step(s, e).world, key, user)
  {
  }

  /** The k-th step of the run serves the client, whose queue has not changed before. */
  ghost predicate ServedAt(s: System, events: seq<Event>, envelope: Envelope, c: Client, k: nat)
    requires k < |events|
  {
    var before := Run(s, events[..k]);
    && IsWaiting(before, envelope, c) && QueueOf(before, c) == QueueOf(s, c)
    && Serves(before, events[k], envelope, c)
    && (MayView(s.world, envelope.key, c.user) && events[k].Renders? ==> !events[k].shown)
  }

  lemma ServedLater(s: System, events: seq<Event>, envelope: Envelope, c: Client, k: nat)
    requires k + 1 < |events|
    requires QueueOf(Step(s, events[0]), c) == QueueOf(s, c)
    requires MayView(s.world, envelope.key, c.user) ==> MayView(Step(s, events[0]).world, envelope.key, c.user)
    requires ServedAt(Step(s, events[0]), events[1..], envelope, c, k)
    ensures ServedAt(s, events, envelope, c, k + 1)
  {
    assert events[..k + 1][1..] == events[1..][..k];
  }

  lemma WaitingKeepsViewer(s: System, e: Event, envelope: Envelope, c: Client)
    requires Good(s)
    ensures IsWaiting(s, envelope, c) && MayView(s.world, envelope.key, c.user) ==>
            MayView(Step(s, e).world, envelope.key, c.user)
  {
    if IsWaiting(s, envelope, c) && MayView(s.world, envelope.key, c.user) {
      assert CacheOk(s.world, s.handling.value);
      if e.Commits? { ApplyGrows(s.world, e.change); }
      StepKeepsViewers(s, e, envelope.key, c.user);
    }
  }

  /**
   However the steps interleave, a member of the room stays in a broadcast until
   it is served: it is sent a row not older than the commit, once, or its queue
   was full, or rendering for it was turned down; and for a viewer who may see
   the event only the renderer's other checks do that.
   */
  lemma {:induction false} NobodyIsPassedOver(s: System, events: seq<Event>, envelope: Envelope, c: Client)
    returns (k: nat)
    requires Good(s)
    ensures IsWaiting(s, envelope, c) && !IsWaiting(Run(s, events), envelope, c) ==>
            k < |events| && ServedAt(s, events, envelope, c, k)
    decreases |events|
  {
    k := 0;
    if IsWaiting(s, envelope, c) && !IsWaiting(Run(s, events), envelope, c) {
      var s1 := Step(s, events[0]);
      StepServes(s, events[0], envelope, c);
      if IsWaiting(s1, envelope, c) {
        StepKeepsGood(s, events[0]);
        var j := NobodyIsPassedOver(s1, events[1..], envelope, c);
        WaitingKeepsViewer(s, events[0], envelope, c);
        ServedLater(s, events, envelope, c, j);
        k := j + 1;
      } else {
        assert Run(s, events[..0]) == s;
      }
    }
  }

  // ------------------------------------- a broadcast that nothing comes between

  /** Renders for every member in turn, turning down those not shown, and sends to it; some queues are full. */
  function ServeAll(order: seq<Client>, shown: set<UserId>, full: set<Client>): seq<Event> {
    if order == [] then [] else
      [Renders(order[0], order[0].user in shown), Sends(order[0], order[0] in full)]
      + ServeAll(order[1..], shown, full)
  }

  /** The member is sent the event: it may view it, it is shown to it, and there is room. */
  predicate IsDue(w: World, envelope: Envelope, shown: set<UserId>, full: set<Client>, c: Client) {
    MayView(w, envelope.key, c.user) && c.user in shown && c !in full
  }

  ghost predicate GivesDue(s: System, s': System, envelope: Envelope, members: set<Client>, shown: set<UserId>,
                           full: set<Client>)
    requires Find(s.world, envelope.key).Some?
  {
    forall c :: QueueOf(s', c) == QueueOf(s, c) +
      if c in members && IsDue(s.world, envelope, shown, full, c)
      then [Entry(envelope, Find(s.world, envelope.key).value)] else []
  }

  /** All views rendered so far are of the row as it is, for users who may have one. */
  ghost predicate CacheIsCurrent(s: System, b: Broadcast, shown: set<UserId>) {
    && Find(s.world, b.envelope.key).Some?
    && forall u | u in b.cache ::
         && b.cache[u] == Find(s.world, b.envelope.key).value
         && u in shown && MayView(s.world, b.envelope.key, u)
  }

  ghost predicate Serving(s: System, envelope: Envelope, waiting: set<Client>, shown: set<UserId>) {
    && s.handling.Some? && s.handling.value.envelope == envelope && s.handling.value.waiting == waiting
    && CacheIsCurrent(s, s.handling.value, shown)
  }

  /** Rendering for a member leaves it waiting with a view to send, or ends its wait. */
  lemma RenderOne(s: System, envelope: Envelope, waiting: set<Client>, shown: set<UserId>, c: Client)
    requires Serving(s, envelope, waiting, shown) && c in waiting
    ensures var s', seen := Step(s, Renders(c, c.user in shown)),
                            c.user in shown && MayView(s.world, envelope.key, c.user);
      && Serving(s', envelope, if seen then waiting else waiting - {c}, shown)
      && (seen ==> c.user in s'.handling.value.cache)
      && s'.world == s.world && s'.bus == s.bus && s'.queues == s.queues
  {
  }

  lemma SendOne(s: System, envelope: Envelope, waiting: set<Client>, shown: set<UserId>, full: bool, c: Client)
    requires Serving(s, envelope, waiting, shown) && (c in waiting ==> c.user in s.handling.value.cache)
    ensures var s' := Step(s, Sends(c, full));
      && Serving(s', envelope, waiting - {c}, shown) && s'.world == s.world && s'.bus == s.bus
      && QueueOf(s', c) == QueueOf(s, c) +
           (if c in waiting && !full then [Entry(envelope, Find(s.world, envelope.key).value)] else [])
      && forall d | d != c :: QueueOf(s', d) == QueueOf(s, d)
  {
  }

  lemma ServeOne(s: System, envelope: Envelope, waiting: set<Client>, shown: set<UserId>, full: set<Client>, c: Client)
    requires Serving(s, envelope, waiting, shown) && c in waiting
    ensures var s' := Step(Step(s, Renders(c, c.user in shown)), Sends(c, c in full));
      && Serving(s', envelope, waiting - {c}, shown) && s'.world == s.world && s'.bus == s.bus
      && GivesDue(s, s', envelope, {c}, shown, full)
  {
    var seen := c.user in shown && MayView(s.world, envelope.key, c.user);
    var s1, w1 := Step(s, Renders(c, c.user in shown)), if seen then waiting else waiting - {c};
    RenderOne(s, envelope, waiting, shown, c);
    SendOne(s1, envelope, w1, shown, c in full, c);
    assert w1 - {c} == waiting - {c};
    assert forall d :: QueueOf(s1, d) == QueueOf(s, d);
  }

  lemma RunTwo(s: System, a: Event, b: Event, rest: seq<Event>)
    ensures Run(s, [a, b] + rest) == Run(Step(Step(s, a), b), rest)
  {
    assert ([a, b] + rest)[1..] == [b] + rest && ([b] + rest)[1..] == rest;
  }

  ghost predicate Lists(order: seq<Client>, members: set<Client>) {
    && (forall c :: c in members <==> c in order)
    && forall i, j | 0 <= i < j < |order| :: order[i] != order[j]
  }

  lemma RestLists(order: seq<Client>, members: set<Client>)
    requires Lists(order, members) && order != []
    ensures Lists(order[1..], members - {order[0]}) && order[0] in members
  {
  }

  lemma {:induction false} ServesAll(s: System, envelope: Envelope, members: set<Client>, order: seq<Client>,
                                     shown: set<UserId>, full: set<Client>)
    requires Serving(s, envelope, members, shown) && Lists(order, members)
    ensures var s' := Run(s, ServeAll(order, shown, full));
      && Serving(s', envelope, {}, shown) && s'.world == s.world && s'.bus == s.bus
      && GivesDue(s, s', envelope, members, shown, full)
    decreases |order|
  {
    if order == [] {
      assert members == {};
    } else {
      var c := order[0];
      RestLists(order, members);
      RunTwo(s, Renders(c, c.user in shown), Sends(c, c in full), ServeAll(order[1..], shown, full));
      ServeOne(s, envelope, members, shown, full, c);
      var s1 := Step(Step(s, Renders(c, c.user in shown)), Sends(c, c in full));
      ServesAll(s1, envelope, members - {c}, order[1..], shown, full);
    }
  }

  lemma RunAround(s: System, first: Event, mid: seq<Event>, last: Event)
    ensures Run(s, [first] + mid + [last]) == Step(Run(Step(s, first), mid), last)
  {
    assert ([first] + mid + [last])[1..] == mid + [last];
    RunThenOne(Step(s, first), mid, last);
  }

  lemma {:induction false} RunThenOne(s: System, mid: seq<Event>, last: Event)
    ensures Run(s, mid + [last]) == Step(Run(s, mid), last)
    decreases |mid|
  {
    if mid == [] {
      assert mid + [last] == [last] && [last][1..] == [];
    } else {
      assert (mid + [last])[1..] == mid[1..] + [last];
      RunThenOne(Step(s, mid[0]), mid[1..], last);
    }
  }

  lemma BroadcastStarts(s: System, envelope: Envelope, members: set<Client>, shown: set<UserId>)
    requires BusOk(s.world, s.bus) && s.handling.None? && envelope in s.bus
    ensures Find(s.world, envelope.key).Some?
    ensures var s1 := Step(s, Takes(envelope, members));
      && Serving(s1, envelope, members, shown)
      && s1.world == s.world && s1.queues == s.queues && s1.bus == s.bus - multiset{envelope}
  {
    assert IsPast(s.world, envelope.key, envelope.stamp);
  }

  lemma BroadcastEnds(s: System, s1: System, s2: System, envelope: Envelope, members: set<Client>,
                      shown: set<UserId>, full: set<Client>)
    requires Serving(s2, envelope, {}, shown) && Find(s.world, envelope.key).Some?
    requires s1.world == s.world && s1.queues == s.queues && GivesDue(s1, s2, envelope, members, shown, full)
    ensures var s' := Step(s2, Finishes);
      && s'.handling.None? && s'.world == s2.world && s'.bus == s2.bus
      && GivesDue(s, s', envelope, members, shown, full)
  {
    assert forall c :: QueueOf(s, c) == QueueOf(s1, c);
    assert forall c :: QueueOf(Step(s2, Finishes), c) == QueueOf(s2, c);
  }

  /**
   A broadcast with nothing in between, in whatever order the members come:
   exactly the members who may view the event, are shown it and have room get
   one entry, with the row as it is now, and all other queues stay as they are.
   */
  lemma BroadcastReachesExactlyTheDue(s: System, envelope: Envelope, members: set<Client>, order: seq<Client>,
                                      shown: set<UserId>, full: set<Client>)
    requires BusOk(s.world, s.bus) && s.handling.None? && envelope in s.bus && Lists(order, members)
    ensures Find(s.world, envelope.key).Some?
    ensures var s' := Run(s, [Takes(envelope, members)] + ServeAll(order, shown, full) + [Finishes]);
      && s'.handling.None? && s'.world == s.world && s'.bus == s.bus - multiset{envelope}
      && GivesDue(s, s', envelope, members, shown, full)
  {
    RunAround(s, Takes(envelope, members), ServeAll(order, shown, full), Finishes);
    BroadcastStarts(s, envelope, members, shown);
    var s1 := Step(s, Takes(envelope, members));
    ServesAll(s1, envelope, members, order, shown, full);
    var s2 := Run(s1, ServeAll(order, shown, full));
    BroadcastEnds(s, s1, s2, envelope, members, shown, full);
  }
}
