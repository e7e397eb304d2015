/**
 The change feed: a reader pages through the change table by seq while writers
 keep committing, between its pages and between the two reads of one page.
 */
module ChannelFeed {
  import opened Common
  import opened ChannelLog
  import opened ChannelRuns
  import opened Pages

  datatype Page = Page(items: seq<Change>, hasMore: bool, nextAfter: int, currentLastSeq: int)

  function EffectiveLimit(limit: int): (n: nat)
    ensures n == (if 1 <= limit <= 200 then limit else 100)
    ensures 1 <= n <= 200
  {
    if limit <= 0 || limit > 200 then 100 else limit
  }

  /** The repository query: one row more than the page holds, as a sentinel. */
  function ChangesAfter(changes: map<int, Change>, after: int, limit: int): seq<Change> {
    RowsAt(changes, Ascending(changes.Keys, after, EffectiveLimit(limit) + 1))
  }

  /** The answer built from a last_seq read earlier and the rows read later. */
  function PageOf(lastSeqRead: int, rows: seq<Change>, after: int, limit: int): Page {
    var n := EffectiveLimit(limit);
    var items := rows[..Min(n, |rows|)];
    Page(items, |rows| > n, if items == [] then after else items[|items| - 1].seqNo, lastSeqRead)
  }

  function FeedPage(headRead: Channel, rowsRead: Channel, after: int, limit: int): Page {
    PageOf(headRead.head.lastSeq, ChangesAfter(rowsRead.changes, after, limit), after, limit)
  }

  /** ListChannelChanges from its second read on. */
  method ListChannelChanges(lastSeqRead: int, changes: map<int, Change>, after: int, limit: int)
    returns (page: Page)
    ensures page == PageOf(lastSeqRead, ChangesAfter(changes, after, limit), after, limit)
  {
    var n := limit;
    if n <= 0 || n > 200 {
      n := 100;
    }
    var rows := ChangesAfter(changes, after, n);
    var items, hasMore, nextAfter := [], false, after;
    for i := 0 to |rows|
      invariant items == rows[..i]
    {
      items := items + [rows[i]];
    }
    assert items == rows;
    if |items| > n {
      hasMore := true;
      items := items[..n];
    }
    if |items| != 0 {
      nextAfter := items[|items| - 1].seqNo;
    }
    page := Page(items, hasMore, nextAfter, lastSeqRead);
  }

  lemma ChangesAfterIsSlice(c: Channel, after: int, limit: int)
    requires Indexed(c)
    ensures var from, last := Max(after, 0), c.head.lastSeq;
      ChangesAfter(c.changes, after, limit) == Log(c)[Min(from, last)..Min(from + EffectiveLimit(limit) + 1, last)]
  {
    AscendingIsSlice(c.changes, c.head.lastSeq, after, EffectiveLimit(limit) + 1);
    assert Log(c) == InOrder(c.changes, c.head.lastSeq);
  }

  /** The page built from rows that are a slice of the log, one longer than the page if there are more. */
  lemma PageOfSlice(log: seq<Change>, lastSeqRead: int, rows: seq<Change>, after: int, limit: int)
    requires var from := Min(Max(after, 0), |log|);
      |rows| == Min(EffectiveLimit(limit) + 1, |log| - from) && rows == log[from..from + |rows|]
    ensures var page, from := PageOf(lastSeqRead, rows, after, limit), Min(Max(after, 0), |log|);
      && |page.items| == Min(EffectiveLimit(limit), |log| - from)
      && page.items == log[from..from + |page.items|]
      && (page.hasMore <==> EffectiveLimit(limit) < |log| - from)
  {
    var from, k := Min(Max(after, 0), |log|), Min(EffectiveLimit(limit), |rows|);
    PrefixOfSlice(log, from, |rows|, k);
  }

  lemma PrefixOfSlice<T>(items: seq<T>, from: nat, n: nat, k: nat)
    requires k <= n && from + n <= |items|
    ensures items[from..from + n][..k] == items[from..from + k]
  {
  }

  /**
   One page of a table whose log is complete: exactly the next changes of the
   snapshot the rows were read from, with hasMore iff that snapshot has more.
   */
  lemma PageIsExact(headRead: Channel, rowsRead: Channel, after: int, limit: int)
    requires Indexed(rowsRead)
    ensures var page := FeedPage(headRead, rowsRead, after, limit);
      var from, n, last := Max(after, 0), EffectiveLimit(limit), rowsRead.head.lastSeq;
      && page.items == Log(rowsRead)[Min(from, last)..Min(from + n, last)]
      && (page.hasMore <==> from + n < last)
      && page.nextAfter == (if from < last then Min(from + n, last) else after)
      && page.currentLastSeq == headRead.head.lastSeq
  {
    var rows := ChangesAfter(rowsRead.changes, after, limit);
    ChangesAfterIsSlice(rowsRead, after, limit);
    PageOfSlice(Log(rowsRead), headRead.head.lastSeq, rows, after, limit);
    NextAfterIsLast(rowsRead, headRead.head.lastSeq, rows, after, limit);
  }

  /** The cursor of such a page is the seq of its last change, which is its place in the log. */
  lemma NextAfterIsLast(c: Channel, lastSeqRead: int, rows: seq<Change>, after: int, limit: int)
    requires Indexed(c)
    requires var log := Log(c);
      var from := Min(Max(after, 0), |log|);
      |rows| == Min(EffectiveLimit(limit) + 1, |log| - from) && rows == log[from..from + |rows|]
    ensures PageOf(lastSeqRead, rows, after, limit).nextAfter ==
      if Max(after, 0) < c.head.lastSeq then Min(Max(after, 0) + EffectiveLimit(limit), c.head.lastSeq) else after
  {
    var from, k := Min(Max(after, 0), c.head.lastSeq), Min(EffectiveLimit(limit), |rows|);
    if k > 0 {
      assert rows[..k][k - 1] == rows[k - 1] == Log(c)[from + k - 1] == c.changes[from + k];
    }
  }

  /**
   A page that reports no more leaves the cursor at or past the last_seq it
   reports, although that number was read before the rows.
   */
  lemma LastPageReachesReportedHead(s: System, between: seq<Action>, after: int, limit: int)
    requires Good(s) && after >= 0
    ensures var page := FeedPage(s.channel, Run(s, between).channel, after, limit);
      !page.hasMore ==> page.nextAfter >= page.currentLastSeq
  {
    RunKeepsGood(s, between);
    PageIsExact(s.channel, Run(s, between).channel, after, limit);
  }

  // ----------------------------------------------------- following the feed

  /** What the writers do before a page's head read and between its two reads. */
  datatype Visit = Visit(before: seq<Action>, between: seq<Action>, limit: int)

  datatype Trail = Trail(items: seq<Change>, cursor: int, hasMore: bool, end: System)

  /** A reader that asks for one page per visit, each from the cursor of the one before. */
  function Follow(s: System, after: int, visits: seq<Visit>): Trail
    decreases |visits|
  {
    if visits == [] then Trail([], after, true, s) else
      var atHead := Run(s, visits[0].before);
      var atRows := Run(atHead, visits[0].between);
      var page := FeedPage(atHead.channel, atRows.channel, after, visits[0].limit);
      var rest := Follow(atRows, page.nextAfter, visits[1..]);
      Trail(page.items + rest.items, rest.cursor, if |visits| == 1 then page.hasMore else rest.hasMore, rest.end)
  }

  lemma VisitExtends(s: System, v: Visit)
    requires Good(s)
    ensures var atHead := Run(s, v.before);
      var atRows := Run(atHead, v.between);
      Good(atHead) && Good(atRows) && Extends(s.channel, atRows.channel)
  {
    RunKeepsGood(s, v.before);
    RunKeepsGood(Run(s, v.before), v.between);
    ExtendsTransitive(s.channel, Run(s, v.before).channel, Run(Run(s, v.before), v.between).channel);
  }

  lemma PageContinues(headRead: Channel, rowsRead: Channel, after: int, limit: int)
    requires Indexed(rowsRead)
    ensures var page := FeedPage(headRead, rowsRead, after, limit);
      Continues(Log(rowsRead), after, page.items, page.nextAfter)
  {
    PageIsExact(headRead, rowsRead, after, limit);
  }

  /**
   Whatever the writers commit meanwhile, the pages joined together are the
   changes after+1, after+2, ... of the final log, each once and in order.
   */
  lemma {:induction false} FollowMissesNothing(s: System, after: int, visits: seq<Visit>)
    requires Good(s)
    ensures var t := Follow(s, after, visits);
      && Good(t.end)
      && Extends(s.channel, t.end.channel)
      && Continues(Log(t.end.channel), after, t.items, t.cursor)
    decreases |visits|
  {
    if visits == [] {
      ExtendsReflexive(s.channel);
    } else {
      VisitExtends(s, visits[0]);
      var atHead := Run(s, visits[0].before);
      var atRows := Run(atHead, visits[0].between);
      var page := FeedPage(atHead.channel, atRows.channel, after, visits[0].limit);
      PageContinues(atHead.channel, atRows.channel, after, visits[0].limit);
      FollowMissesNothing(atRows, page.nextAfter, visits[1..]);
      var rest := Follow(atRows, page.nextAfter, visits[1..]);
      ExtendsTransitive(s.channel, atRows.channel, rest.end.channel);
      JoinPages(Log(atRows.channel), Log(rest.end.channel), after, page.items, page.nextAfter,
                rest.items, rest.cursor);
    }
  }

  lemma {:induction false} FollowEndsCaughtUp(s: System, after: int, visits: seq<Visit>)
    requires Good(s) && visits != [] && after >= 0
    ensures var t := Follow(s, after, visits); !t.hasMore ==> t.cursor >= t.end.channel.head.lastSeq
    decreases |visits|
  {
    var atHead := Run(s, visits[0].before);
    var atRows := Run(atHead, visits[0].between);
    VisitExtends(s, visits[0]);
    PageIsExact(atHead.channel, atRows.channel, after, visits[0].limit);
    var page := FeedPage(atHead.channel, atRows.channel, after, visits[0].limit);
    if |visits| > 1 {
      FollowEndsCaughtUp(atRows, page.nextAfter, visits[1..]);
    } else {
      assert Follow(atRows, page.nextAfter, visits[1..]) == Trail([], page.nextAfter, true, atRows);
    }
  }

  /**
   A reader that starts from nothing, replays what it is sent and stops at a
   page without more holds the versions, seqs and tombstones of the tables.
   */
  lemma FollowerMirrorsTables(c: Channel, visits: seq<Visit>)
    requires Fresh(c) && visits != []
    requires !Follow(System(c, map[]), 0, visits).hasMore
    ensures var t := Follow(System(c, map[]), 0, visits);
      Replay(t.items) == Project(t.end.channel)
  {
    FreshIsConsistent(c);
    var s := System(c, map[]);
    FollowMissesNothing(s, 0, visits);
    FollowEndsCaughtUp(s, 0, visits);
    var t := Follow(s, 0, visits);
    var log := Log(t.end.channel);
    assert |t.items| >= |log|;
    assert t.items == log;
  }

  /** With no writers the walk ends, and it ends with the rest of the log. */
  function Drain(c: Channel, after: int, limit: int): seq<Change>
    requires Indexed(c)
    decreases Max(c.head.lastSeq - Max(after, 0), 0)
  {
    PageIsExact(c, c, after, limit);
    var page := FeedPage(c, c, after, limit);
    if page.hasMore then page.items + Drain(c, page.nextAfter, limit) else page.items
  }

  lemma JoinRest(log: seq<Change>, from: nat, next: nat, items: seq<Change>, rest: seq<Change>)
    requires from <= next <= |log| && items == log[from..next] && rest == log[next..]
    ensures items + rest == log[from..]
  {
    JoinSlices(log, from, next, |log|);
    assert log[next..|log|] == log[next..] && log[from..|log|] == log[from..];
  }

  lemma RestIsSuffix(log: seq<Change>, from: nat, items: seq<Change>)
    requires from <= |log| && items == log[from..|log|]
    ensures items == log[from..]
  {
  }

  lemma {:induction false} DrainIsRestOfLog(c: Channel, after: int, limit: int)
    requires Indexed(c)
    ensures Drain(c, after, limit) == Log(c)[Min(Max(after, 0), c.head.lastSeq)..]
    decreases Max(c.head.lastSeq - Max(after, 0), 0)
  {
    PageIsExact(c, c, after, limit);
    var page := FeedPage(c, c, after, limit);
    if page.hasMore {
      DrainIsRestOfLog(c, page.nextAfter, limit);
      JoinRest(Log(c), Max(after, 0), page.nextAfter, page.items, Drain(c, page.nextAfter, limit));
    } else {
      RestIsSuffix(Log(c), Min(Max(after, 0), c.head.lastSeq), page.items);
    }
  }
}
