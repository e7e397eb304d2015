/** Reading a channel's messages backwards, page by page, while its owner goes on writing. */
module ChannelHistory {
  import opened Common
  import opened ChannelLog
  import opened ChannelRuns
  import opened Pages

  function EffectiveLimit(limit: int): (n: nat)
    ensures n == (if 1 <= limit <= 200 then limit else 20)
    ensures 1 <= n <= 200
  {
    if limit <= 0 || limit > 200 then 20 else limit
  }

  /** The bound of the query; 0 or less is none. */
  function Bound(before: int): Option<int> {
    if before > 0 then Some(before) else None
  }

  /** The query, newest first. */
  function MessagesBefore(messages: map<int, Message>, before: int, limit: int): seq<Message> {
    RowsAt(messages, Descending(messages.Keys, Bound(before), EffectiveLimit(limit)))
  }

  function IdsOf(page: seq<Message>): (ids: seq<int>)
    ensures |ids| == |page| && forall i | 0 <= i < |page| :: ids[i] == page[i].messageId
  {
    seq(|page|, i requires 0 <= i < |page| => page[i].messageId)
  }

  lemma IdsOfRows(messages: map<int, Message>, page: seq<int>)
    requires forall id | id in messages :: messages[id].messageId == id
    requires forall i | 0 <= i < |page| :: page[i] in messages
    ensures IdsOf(RowsAt(messages, page)) == page
  {
    var rows := RowsAt(messages, page);
    forall i | 0 <= i < |page| ensures IdsOf(rows)[i] == page[i] {
      assert rows[i] == messages[page[i]];
    }
  }

  /**
   On any message table: the stored rows with the greatest ids below the bound,
   by descending id, as many as the limit allows and fewer only if no more exist.
   */
  method ListChannelMessages(messages: map<int, Message>, before: int, limit: int) returns (views: seq<Message>)
    requires forall id | id in messages :: messages[id].messageId == id
    ensures IsPageBelow(messages.Keys, Bound(before), EffectiveLimit(limit), IdsOf(views))
    ensures forall m | m in views :: m.messageId in messages && messages[m.messageId] == m
    ensures views == MessagesBefore(messages, before, limit)
  {
    var n := limit;
    if n <= 0 || n > 200 {
      n := 20;
    }
    var rows := MessagesBefore(messages, before, n);
    views := [];
    for i := 0 to |rows|
      invariant views == rows[..i]
    {
      views := views + [rows[i]];
    }
    assert rows[..|rows|] == rows;
    DescendingIsThePageBelow(messages.Keys, Bound(before), n);
    IdsOfRows(messages, Descending(messages.Keys, Bound(before), n));
  }

  /** A page holds the next ids downwards without a gap, each with its row as it now is. */
  lemma PageGoesDown(c: Channel, before: int, limit: int)
    requires Indexed(c)
    ensures var page, top := MessagesBefore(c.messages, before, limit), TopBefore(c.head.lastMessageId, before);
      && |page| == Min(EffectiveLimit(limit), top)
      && forall i | 0 <= i < |page| :: top - i in c.messages && page[i] == c.messages[top - i]
  {
    DescendingDense(c.messages.Keys, c.head.lastMessageId, Bound(before), EffectiveLimit(limit));
  }

  /** What the owner does before each page of a walk. */
  datatype Visit = Visit(before: seq<Action>, limit: int)

  datatype Trail = Trail(ids: seq<int>, ended: bool)

  /** Pages down from the bound, each from the last id of the one before, until one is empty. */
  function Walk(s: System, before: int, visits: seq<Visit>): Trail
    decreases |visits|
  {
    if visits == [] then Trail([], false) else
      var now := Run(s, visits[0].before);
      var page := MessagesBefore(now.channel.messages, before, visits[0].limit);
      if page == [] then Trail([], true) else
        var rest := Walk(now, page[|page| - 1].messageId, visits[1..]);
        Trail(IdsOf(page) + rest.ids, rest.ended)
  }

  /** The ids top, top - 1, ... down to at least 1. */
  ghost predicate CountsDown(ids: seq<int>, top: int) {
    |ids| <= top && forall i | 0 <= i < |ids| :: ids[i] == top - i
  }

  /** The walk has counted down from top, to 1 once it has ended. */
  ghost predicate Descends(t: Trail, top: int) {
    CountsDown(t.ids, top) && (t.ended ==> |t.ids| == top)
  }

  lemma PageJoins(page: seq<int>, rest: Trail, top: int)
    requires CountsDown(page, top)
    requires Descends(rest, top - |page|)
    ensures Descends(Trail(page + rest.ids, rest.ended), top)
  {
  }

  /** The page, its ids and the cursor a client takes from it. */
  lemma PageFacts(c: Channel, before: int, limit: int)
    requires Indexed(c)
    ensures var page, top := MessagesBefore(c.messages, before, limit), TopBefore(c.head.lastMessageId, before);
      && (page == [] <==> top == 0)
      && CountsDown(IdsOf(page), top)
      && (page != [] ==>
          && page[|page| - 1].messageId == top - |page| + 1
          && 1 <= top - |page| + 1 <= c.head.lastMessageId)
  {
    PageGoesDown(c, before, limit);
  }

  /** Ids that exist go on existing, so the last id does not go down. */
  lemma LastIdGrows(c: Channel, c': Channel)
    requires Extends(c, c')
    ensures c.head.lastMessageId <= c'.head.lastMessageId
  {
    if c.head.lastMessageId > 0 {
      assert c.head.lastMessageId in c.messages;
    }
  }

  lemma RunIsIndexed(s: System, actions: seq<Action>)
    requires Good(s)
    ensures Indexed(Run(s, actions).channel)
    ensures s.channel.head.lastMessageId <= Run(s, actions).channel.head.lastMessageId
  {
    RunKeepsGood(s, actions);
    LastIdGrows(s.channel, Run(s, actions).channel);
  }

  /** At every page the ids are 1..last, and last has not gone down since the page before. */
  ghost predicate IndexedAlong(s: System, visits: seq<Visit>)
    decreases |visits|
  {
    visits == [] ||
    var now := Run(s, visits[0].before);
    && Indexed(now.channel)
    && s.channel.head.lastMessageId <= now.channel.head.lastMessageId
    && IndexedAlong(now, visits[1..])
  }

  lemma {:induction false} RunsAreIndexed(s: System, visits: seq<Visit>)
    requires Good(s)
    ensures IndexedAlong(s, visits)
    decreases |visits|
  {
    if visits != [] {
      RunIsIndexed(s, visits[0].before);
      RunKeepsGood(s, visits[0].before);
      RunsAreIndexed(Run(s, visits[0].before), visits[1..]);
    }
  }

  lemma WalkContinues(s: System, before: int, visits: seq<Visit>, rows: seq<Message>, top: int)
    requires visits != [] && rows != []
    requires rows == MessagesBefore(Run(s, visits[0].before).channel.messages, before, visits[0].limit)
    requires CountsDown(IdsOf(rows), top)
    requires Descends(Walk(Run(s, visits[0].before), rows[|rows| - 1].messageId, visits[1..]), top - |rows|)
    ensures Descends(Walk(s, before, visits), top)
  {
    PageJoins(IdsOf(rows), Walk(Run(s, visits[0].before), rows[|rows| - 1].messageId, visits[1..]), top);
  }

  lemma FirstPage(c: Channel, before: int, limit: int) returns (cursor: int)
    requires Indexed(c)
    ensures var page, top := MessagesBefore(c.messages, before, limit), TopBefore(c.head.lastMessageId, before);
      && (page == [] ==> top == 0)
      && (page != [] ==>
          && page[|page| - 1].messageId == cursor == top - |page| + 1
          && 1 <= cursor <= c.head.lastMessageId
          && CountsDown(IdsOf(page), top))
  {
    PageFacts(c, before, limit);
    cursor := TopBefore(c.head.lastMessageId, before) - |MessagesBefore(c.messages, before, limit)| + 1;
  }

  /** The rest of a walk, from a cursor among ids that have not become fewer. */
  lemma {:induction false} RestOfWalk(s: System, cursor: int, visits: seq<Visit>)
    requires IndexedAlong(s, visits) && 1 <= cursor <= s.channel.head.lastMessageId
    ensures Descends(Walk(s, cursor, visits), cursor - 1)
    decreases |visits|, 1
  {
    if visits != [] { IndexedWalk(s, cursor, visits); }
  }

  lemma {:induction false} IndexedWalk(s: System, before: int, visits: seq<Visit>)
    requires visits != [] && IndexedAlong(s, visits)
    ensures Descends(Walk(s, before, visits),
                     TopBefore(Run(s, visits[0].before).channel.head.lastMessageId, before))
    decreases |visits|, 0
  {
    var now := Run(s, visits[0].before);
    var cursor := FirstPage(now.channel, before, visits[0].limit);
    var page := MessagesBefore(now.channel.messages, before, visits[0].limit);
    if page != [] {
      RestOfWalk(now, cursor, visits[1..]);
      WalkContinues(s, before, visits, page, TopBefore(now.channel.head.lastMessageId, before));
    }
  }

  /**
   Whatever the owner creates, edits or deletes between the pages, the walk
   returns every message there was when its first page was read, once, in order.
   */
  lemma WalkReturnsEveryMessage(s: System, before: int, visits: seq<Visit>)
    requires Good(s) && visits != []
    ensures Descends(Walk(s, before, visits),
                     TopBefore(Run(s, visits[0].before).channel.head.lastMessageId, before))
  {
    RunsAreIndexed(s, visits);
    IndexedWalk(s, before, visits);
  }
}
