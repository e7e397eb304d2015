/**
 Listing a group's messages: pages by seq from which expired messages are left
 out afterwards, so a page may be shorter than its limit, or empty, before the
 first message of the group is reached.
 */
module TtlPaging {
  import opened Common
  import opened Permissions
  import opened GroupMessages
  import opened MessageHistory
  import opened Pages

  // ------------------------------------------------------------- visibility

  /** What the TTL setting means: at most ttlSeconds old. */
  predicate IsYoung(ttlSeconds: int, createdAt: Nanos, now: Nanos) {
    ttlSeconds <= 0 || now - createdAt <= ttlSeconds * SECOND
  }

  /**
   The code computes that, for all instants, exactly when the TTL in
   nanoseconds fits an int64; a longer TTL wraps and expires other messages.
   */
  lemma VisibilityIsAge(ttlSeconds: int)
    ensures (forall createdAt, now :: IsVisibleByTtl(ttlSeconds, createdAt, now) == IsYoung(ttlSeconds, createdAt, now))
            <==> ttlSeconds <= MAX_SECONDS
  {
    if ttlSeconds > MAX_SECONDS {
      var wrapped := WrapInt64(-ttlSeconds * SECOND);
      assert wrapped > -ttlSeconds * SECOND;
      assert !IsVisibleByTtl(ttlSeconds, -ttlSeconds * SECOND, 0) && IsYoung(ttlSeconds, -ttlSeconds * SECOND, 0);
    }
  }

  /**
   For messages no older than oldest, a TTL beyond that bound may still do: it
   wraps to an instant before all of them, or it expires some that it should not.
   */
  lemma VisibilityIsAgeUpTo(ttlSeconds: int, oldest: int)
    requires oldest >= 0
    ensures (forall createdAt, now | 0 <= now - createdAt <= oldest ::
               IsVisibleByTtl(ttlSeconds, createdAt, now) == IsYoung(ttlSeconds, createdAt, now))
            <==> ttlSeconds <= MAX_SECONDS || WrapInt64(-ttlSeconds * SECOND) <= -oldest
  {
    var cut := WrapInt64(-ttlSeconds * SECOND);
    if ttlSeconds > MAX_SECONDS && cut > -oldest {
      var age := Max(1 - cut, 0);
      assert 0 <= age <= oldest && age > -cut && age <= ttlSeconds * SECOND;
      assert !IsVisibleByTtl(ttlSeconds, -age, 0) && IsYoung(ttlSeconds, -age, 0);
    }
  }

  // ------------------------------------------------------------------- page

  /** The query's rows, newest first; before == 0 stands for no bound. */
  function NewestFirst(g: Group, before: nat, limit: int): seq<MessageId> {
    RowsAt(g.index, Descending(g.index.Keys, if before > 0 then Some(before) else None, MessagePageSize(limit)))
  }

  predicate Visible(s: Store, group: GroupId, id: MessageId, now: Nanos) {
    group in s.groups && id in s.messages && IsVisibleByTtl(s.groups[group].ttlSeconds, s.messages[id].createdAt, now)
  }

  function VisibleOnly(s: Store, group: GroupId, ids: seq<MessageId>, now: Nanos): (r: seq<MessageId>)
    ensures forall id | id in r :: id in ids && Visible(s, group, id, now)
  {
    if ids == [] then [] else
      (if Visible(s, group, ids[0], now) then [ids[0]] else []) + VisibleOnly(s, group, ids[1..], now)
  }

  lemma {:induction false} VisibleOnlyAppend(s: Store, group: GroupId, a: seq<MessageId>, b: seq<MessageId>, now: Nanos)
    ensures VisibleOnly(s, group, a + b, now) == VisibleOnly(s, group, a, now) + VisibleOnly(s, group, b, now)
  {
    if a == [] {
      assert a + b == b;
    } else {
      assert (a + b)[1..] == a[1..] + b;
      VisibleOnlyAppend(s, group, a[1..], b, now);
    }
  }

  function PageOf(s: Store, group: GroupId, before: nat, limit: int, now: Nanos): seq<MessageId>
    requires group in s.groups
  {
    VisibleOnly(s, group, Reversed(NewestFirst(s.groups[group], before, limit)), now)
  }

  /** ListMessages once membership is settled: walks the rows from the back and skips expired ones. */
  method ListMessages(s: Store, group: GroupId, before: nat, limit: int, now: Nanos) returns (views: seq<MessageId>)
    requires group in s.groups
    ensures views == PageOf(s, group, before, limit, now)
  {
    var items := NewestFirst(s.groups[group], before, limit);
    views := [];
    var i := |items|;
    while i > 0
      invariant 0 <= i <= |items|
      invariant views == VisibleOnly(s, group, Reversed(items[i..]), now)
    {
      i := i - 1;
      ReversedFrom(items, i);
      VisibleOnlyAppend(s, group, Reversed(items[i + 1..]), [items[i]], now);
      if !Visible(s, group, items[i], now) {
        continue;
      }
      views := views + [items[i]];
    }
    assert items[0..] == items;
  }

  lemma {:induction false} VisibleOnlyHas(s: Store, group: GroupId, ids: seq<MessageId>, now: Nanos, id: MessageId)
    ensures id in VisibleOnly(s, group, ids, now) <==> id in ids && Visible(s, group, id, now)
  {
    if ids != [] { VisibleOnlyHas(s, group, ids[1..], now, id); }
  }

  /** Of the rows before the bound that fit the page, those are shown that are as young as the setting asks. */
  lemma PageShowsTheYoung(s: Store, group: GroupId, before: nat, limit: int, now: Nanos, id: MessageId)
    requires Indexed(s) && group in s.groups && s.groups[group].ttlSeconds <= MAX_SECONDS
    ensures var t, top := Timeline(s, group), TopBefore(s.groups[group].lastSeq, before);
      id in PageOf(s, group, before, limit, now) <==>
        && id in t[Max(top - MessagePageSize(limit), 0)..top]
        && (s.groups[group].ttlSeconds <= 0
            || now - s.messages[id].createdAt <= s.groups[group].ttlSeconds * 1_000_000_000)
  {
    var t, top := Timeline(s, group), TopBefore(s.groups[group].lastSeq, before);
    var lo := Max(top - MessagePageSize(limit), 0);
    PageIsSlice(s, group, before, limit, now, lo, top);
    VisibleOnlyHas(s, group, t[lo..top], now, id);
    VisibilityIsAge(s.groups[group].ttlSeconds);
  }

  // ----------------------------------------------------------------- clocks

  /** The rows of one group in seq order. */
  ghost function Timeline(s: Store, group: GroupId): (ids: seq<MessageId>)
    requires Indexed(s) && group in s.groups
    ensures |ids| == s.groups[group].lastSeq
    ensures forall i | 0 <= i < |ids| ::
      ids[i] in s.messages && s.messages[ids[i]].group == group && s.messages[ids[i]].seqNo == i + 1
  {
    assert GroupIndexed(s, group);
    InOrder(s.groups[group].index, s.groups[group].lastSeq)
  }

  lemma TimelineHasAll(s: Store, group: GroupId, id: MessageId)
    requires Indexed(s) && group in s.groups && id in s.messages && s.messages[id].group == group
    ensures 1 <= s.messages[id].seqNo <= |Timeline(s, group)| && Timeline(s, group)[s.messages[id].seqNo - 1] == id
  {
    assert RowIndexed(s, id) && GroupIndexed(s, group);
    assert RowIndexed(s, Timeline(s, group)[s.messages[id].seqNo - 1]);
  }

  /** Later seqs of a group do not have earlier creation times. */
  ghost predicate ClockOrdered(s: Store, group: GroupId) {
    forall i, j | i in s.messages && j in s.messages
        && s.messages[i].group == group && s.messages[j].group == group
        && s.messages[i].seqNo < s.messages[j].seqNo ::
      s.messages[i].createdAt <= s.messages[j].createdAt
  }

  /** No message of the group is from after the instant. */
  ghost predicate NotAfter(s: Store, group: GroupId, at: Nanos) {
    forall id | id in s.messages && s.messages[id].group == group :: s.messages[id].createdAt <= at
  }

  /** Sends to a group that do not overlap and read a clock that does not go back. */
  ghost predicate SerialSends(s: System, events: seq<Event>, group: GroupId)
    decreases |events|
  {
    events != [] ==>
      && (events[0].Send? && events[0].call in s.drafts && s.drafts[events[0].call].group == group ==>
            NotAfter(s.store, group, events[0].now))
      && SerialSends(Step(s, events[0]), events[1..], group)
  }

  lemma SendKeepsClockOrdered(s: Store, d: Draft, id: MessageId, now: Nanos, group: GroupId)
    requires Indexed(s) && ClockOrdered(s, group)
    requires d.group == group ==> NotAfter(s, group, now)
    ensures ClockOrdered(StoreOr(s, SendTx(s, d, id, now)), group)
  {
    var s' := StoreOr(s, SendTx(s, d, id, now));
    forall i, j | i in s'.messages && j in s'.messages
        && s'.messages[i].group == group && s'.messages[j].group == group
        && s'.messages[i].seqNo < s'.messages[j].seqNo
      ensures s'.messages[i].createdAt <= s'.messages[j].createdAt
    {
      if i in s.messages { assert RowIndexed(s, i); }
      if j in s.messages { assert RowIndexed(s, j); }
      if d.group == group { assert group in s.groups ==> GroupIndexed(s, group); }
    }
  }

  /** Only a send gives a row its group, seq and creation time. */
  lemma OtherStepsKeepTimes(s: System, e: Event, id: MessageId)
    requires !e.Send? && id in Step(s, e).store.messages
    ensures id in s.store.messages
    ensures var m, m' := s.store.messages[id], Step(s, e).store.messages[id];
      m'.group == m.group && m'.seqNo == m.seqNo && m'.createdAt == m.createdAt
  {
  }

  lemma StepKeepsClockOrdered(s: System, e: Event, group: GroupId)
    requires Indexed(s.store) && ClockOrdered(s.store, group)
    requires e.Send? && e.call in s.drafts && s.drafts[e.call].group == group ==> NotAfter(s.store, group, e.now)
    ensures ClockOrdered(Step(s, e).store, group)
  {
    if e.Send? {
      if e.call in s.drafts { SendKeepsClockOrdered(s.store, s.drafts[e.call], e.id, e.now, group); }
    } else {
      var s' := Step(s, e).store;
      forall id | id in s'.messages
        ensures id in s.store.messages && s'.messages[id].group == s.store.messages[id].group
        ensures s'.messages[id].seqNo == s.store.messages[id].seqNo
        ensures s'.messages[id].createdAt == s.store.messages[id].createdAt
      {
        OtherStepsKeepTimes(s, e, id);
      }
    }
  }

  lemma {:induction false} SerialSendsKeepClockOrdered(s: System, events: seq<Event>, group: GroupId)
    requires Good(s) && ClockOrdered(s.store, group) && SerialSends(s, events, group)
    ensures Good(Run(s, events)) && ClockOrdered(Run(s, events).store, group)
    decreases |events|
  {
    if events != [] {
      StepKeepsGood(s, events[0]);
      StepKeepsClockOrdered(s, events[0], group);
      SerialSendsKeepClockOrdered(Step(s, events[0]), events[1..], group);
    }
  }

  // -------------------------------------------------------- visible rows

  ghost predicate ExpiredIn(s: Store, group: GroupId, ids: seq<MessageId>, lo: nat, hi: nat, now: Nanos)
    requires hi <= |ids|
  {
    forall i | lo <= i < hi :: !Visible(s, group, ids[i], now)
  }

  /** Filtering one more row in front. */
  lemma VisibleStep(s: Store, group: GroupId, ids: seq<MessageId>, lo: nat, hi: nat, now: Nanos)
    requires lo < hi <= |ids|
    ensures VisibleOnly(s, group, ids[lo..hi], now) ==
      (if Visible(s, group, ids[lo], now) then [ids[lo]] else []) + VisibleOnly(s, group, ids[lo + 1..hi], now)
  {
    assert ids[lo..hi][1..] == ids[lo + 1..hi];
  }

  lemma VisibleSplit(s: Store, group: GroupId, ids: seq<MessageId>, mid: nat, hi: nat, now: Nanos)
    requires mid <= hi <= |ids|
    ensures VisibleOnly(s, group, ids[..hi], now) ==
            VisibleOnly(s, group, ids[..mid], now) + VisibleOnly(s, group, ids[mid..hi], now)
  {
    assert ids[..hi] == ids[..mid] + ids[mid..hi];
    VisibleOnlyAppend(s, group, ids[..mid], ids[mid..hi], now);
  }

  lemma {:induction false} NoneVisibleIffExpired(s: Store, group: GroupId, ids: seq<MessageId>, lo: nat, hi: nat,
                                                 now: Nanos)
    requires lo <= hi <= |ids|
    ensures VisibleOnly(s, group, ids[lo..hi], now) == [] <==> ExpiredIn(s, group, ids, lo, hi, now)
    decreases hi - lo
  {
    if lo < hi {
      VisibleStep(s, group, ids, lo, hi, now);
      NoneVisibleIffExpired(s, group, ids, lo + 1, hi, now);
    }
  }

  lemma {:induction false} FirstVisible(s: Store, group: GroupId, ids: seq<MessageId>, lo: nat, hi: nat, now: Nanos)
    returns (f: nat)
    requires lo <= hi <= |ids| && !ExpiredIn(s, group, ids, lo, hi, now)
    ensures lo <= f < hi && Visible(s, group, ids[f], now) && ExpiredIn(s, group, ids, lo, f, now)
    decreases hi - lo
  {
    if Visible(s, group, ids[lo], now) {
      f := lo;
    } else {
      f := FirstVisible(s, group, ids, lo + 1, hi, now);
    }
  }

  lemma {:induction false} SkipExpired(s: Store, group: GroupId, ids: seq<MessageId>, lo: nat, f: nat, hi: nat,
                                       now: Nanos)
    requires lo <= f <= hi <= |ids| && ExpiredIn(s, group, ids, lo, f, now)
    ensures VisibleOnly(s, group, ids[lo..hi], now) == VisibleOnly(s, group, ids[f..hi], now)
    decreases f - lo
  {
    if lo < f {
      VisibleStep(s, group, ids, lo, hi, now);
      SkipExpired(s, group, ids, lo + 1, f, hi, now);
    }
  }

  /** What filtering a window keeps starts with its first visible row, if it has one. */
  lemma FilteredWindow(s: Store, group: GroupId, ids: seq<MessageId>, lo: nat, hi: nat, now: Nanos) returns (f: nat)
    requires lo <= hi <= |ids|
    ensures var kept := VisibleOnly(s, group, ids[lo..hi], now);
      if ExpiredIn(s, group, ids, lo, hi, now) then kept == []
      else
        && lo <= f < hi && Visible(s, group, ids[f], now)
        && kept == VisibleOnly(s, group, ids[f..hi], now) && kept != [] && kept[0] == ids[f]
  {
    NoneVisibleIffExpired(s, group, ids, lo, hi, now);
    f := 0;
    if !ExpiredIn(s, group, ids, lo, hi, now) {
      f := FirstVisible(s, group, ids, lo, hi, now);
      SkipExpired(s, group, ids, lo, f, hi, now);
      VisibleStep(s, group, ids, f, hi, now);
    }
  }

  // ------------------------------------------------------------------- walk

  /** The rows a page is filtered from: the last ones before the bound. */
  ghost predicate IsWindow(s: Store, group: GroupId, before: nat, limit: int, lo: nat, top: nat)
    requires group in s.groups
  {
    top == TopBefore(s.groups[group].lastSeq, before) && lo == Max(top - MessagePageSize(limit), 0)
  }

  lemma RowsAreSlice(s: Store, group: GroupId, before: nat, limit: int, lo: nat, top: nat)
    requires Indexed(s) && group in s.groups && IsWindow(s, group, before, limit, lo, top)
    ensures Reversed(NewestFirst(s.groups[group], before, limit)) == Timeline(s, group)[lo..top]
  {
    assert GroupIndexed(s, group);
    DescendingIsSlice(s.groups[group].index, s.groups[group].lastSeq, if before > 0 then Some(before) else None,
                      MessagePageSize(limit));
  }

  lemma PageIsSlice(s: Store, group: GroupId, before: nat, limit: int, now: Nanos, lo: nat, top: nat)
    requires Indexed(s) && group in s.groups && IsWindow(s, group, before, limit, lo, top)
    ensures PageOf(s, group, before, limit, now) == VisibleOnly(s, group, Timeline(s, group)[lo..top], now)
  {
    RowsAreSlice(s, group, before, limit, lo, top);
  }

  /** The page before the bound: empty if its window has expired, else from the first visible row on. */
  lemma PageOfWindow(s: Store, group: GroupId, before: nat, limit: int, now: Nanos, lo: nat, top: nat)
    returns (f: nat)
    requires Indexed(s) && group in s.groups && IsWindow(s, group, before, limit, lo, top)
    ensures var t, page := Timeline(s, group), PageOf(s, group, before, limit, now);
      if ExpiredIn(s, group, t, lo, top, now) then page == []
      else
        && lo <= f < top && Visible(s, group, t[f], now)
        && page == VisibleOnly(s, group, t[f..top], now) && page != [] && page[0] == t[f]
  {
    PageIsSlice(s, group, before, limit, now, lo, top);
    f := FilteredWindow(s, group, Timeline(s, group), lo, top, now);
  }

  /** The seq of the first message of a page, which a client sends back as before_seq, lies before the bound. */
  lemma CursorMovesBack(s: Store, group: GroupId, before: nat, limit: int, now: Nanos)
    requires Indexed(s) && group in s.groups
    ensures var page := PageOf(s, group, before, limit, now);
      page != [] ==>
      page[0] in s.messages && 1 <= s.messages[page[0]].seqNo <= TopBefore(s.groups[group].lastSeq, before)
  {
    var top := TopBefore(s.groups[group].lastSeq, before);
    var _ := PageOfWindow(s, group, before, limit, now, Max(top - MessagePageSize(limit), 0), top);
  }

  /** Pages from the bound backwards, at one instant, until one comes back empty. */
  ghost function Walk(s: Store, group: GroupId, before: nat, limit: int, now: Nanos): seq<MessageId>
    requires Indexed(s) && group in s.groups
    decreases TopBefore(s.groups[group].lastSeq, before)
  {
    CursorMovesBack(s, group, before, limit, now);
    var page := PageOf(s, group, before, limit, now);
    if page == [] then [] else Walk(s, group, s.messages[page[0]].seqNo, limit, now) + page
  }

  lemma WalkUnfolds(s: Store, group: GroupId, before: nat, limit: int, now: Nanos, page: seq<MessageId>)
    requires Indexed(s) && group in s.groups && page == PageOf(s, group, before, limit, now)
    ensures page == [] ==> Walk(s, group, before, limit, now) == []
    ensures page != [] ==>
      && page[0] in s.messages
      && Walk(s, group, before, limit, now) == Walk(s, group, s.messages[page[0]].seqNo, limit, now) + page
  {
    CursorMovesBack(s, group, before, limit, now);
  }

  /** A step of the walk, by where the first visible row of its window stands. */
  lemma WalkStep(s: Store, group: GroupId, before: nat, limit: int, now: Nanos, lo: nat, top: nat) returns (f: nat)
    requires Indexed(s) && group in s.groups && IsWindow(s, group, before, limit, lo, top)
    ensures var t := Timeline(s, group);
      if ExpiredIn(s, group, t, lo, top, now) then Walk(s, group, before, limit, now) == []
      else
        && lo <= f < top && Visible(s, group, t[f], now)
        && Walk(s, group, before, limit, now) ==
           Walk(s, group, f + 1, limit, now) + VisibleOnly(s, group, t[f..top], now)
  {
    f := PageOfWindow(s, group, before, limit, now, lo, top);
    WalkUnfolds(s, group, before, limit, now, PageOf(s, group, before, limit, now));
  }

  /** A page of n expired rows that ends at k has only expired rows before it. */
  ghost predicate HidesNothing(s: Store, group: GroupId, ids: seq<MessageId>, k: nat, n: nat, now: Nanos)
    requires n <= k <= |ids|
  {
    ExpiredIn(s, group, ids, k - n, k, now) ==> ExpiredIn(s, group, ids, 0, k, now)
  }

  /**
   No page of n rows below top is expired as a whole while an older message is
   visible: each run of n expired rows has only expired rows before it.
   */
  ghost predicate NoPageHides(s: Store, group: GroupId, ids: seq<MessageId>, top: nat, n: nat, now: Nanos)
    requires top <= |ids|
  {
    forall k | n <= k <= top :: HidesNothing(s, group, ids, k, n, now)
  }

  /** A window that contains a visible row hides nothing, so only the rows before that one matter. */
  lemma NoPageHidesBelow(s: Store, group: GroupId, ids: seq<MessageId>, f: nat, top: nat, n: nat, now: Nanos)
    requires f < top <= |ids| && top - n <= f && Visible(s, group, ids[f], now)
    ensures NoPageHides(s, group, ids, top, n, now) <==> NoPageHides(s, group, ids, f, n, now)
  {
    forall k | f < k <= top && n <= k ensures HidesNothing(s, group, ids, k, n, now) {
      assert k - n <= f < k;
    }
  }

  /** The window at the top is expired: the walk's empty answer is complete exactly if it hides nothing. */
  lemma EmptyPageIsComplete(s: Store, group: GroupId, ids: seq<MessageId>, top: nat, n: nat, now: Nanos)
    requires top <= |ids| && ExpiredIn(s, group, ids, Max(top - n, 0), top, now)
    ensures VisibleOnly(s, group, ids[..top], now) == [] <==> NoPageHides(s, group, ids, top, n, now)
  {
    NoneVisibleIffExpired(s, group, ids, 0, top, now);
    assert ids[0..top] == ids[..top];
    if NoPageHides(s, group, ids, top, n, now) && n <= top {
      assert HidesNothing(s, group, ids, top, n, now);
    }
  }

  lemma SameTail(a: seq<MessageId>, b: seq<MessageId>, c: seq<MessageId>)
    ensures a + c == b + c <==> a == b
  {
    if a + c == b + c {
      assert |a| == |b|;
      assert a == (a + c)[..|a|] && b == (b + c)[..|b|];
    }
  }

  /**
   The walk returns every visible message before the bound, once and in order,
   exactly if no page of expired messages hides an older visible one.
   */
  lemma {:induction false} WalkIsCompleteIff(s: Store, group: GroupId, before: nat, limit: int, now: Nanos)
    requires Indexed(s) && group in s.groups
    ensures var t := Timeline(s, group);
      var top := TopBefore(|t|, before);
      Walk(s, group, before, limit, now) == VisibleOnly(s, group, t[..top], now)
      <==> NoPageHides(s, group, t, top, MessagePageSize(limit), now)
    decreases TopBefore(s.groups[group].lastSeq, before)
  {
    var t, n := Timeline(s, group), MessagePageSize(limit);
    var top := TopBefore(|t|, before);
    var f := WalkStep(s, group, before, limit, now, Max(top - n, 0), top);
    if ExpiredIn(s, group, t, Max(top - n, 0), top, now) {
      EmptyPageIsComplete(s, group, t, top, n, now);
    } else {
      WalkIsCompleteIff(s, group, f + 1, limit, now);
      NoPageHidesBelow(s, group, t, f, top, n, now);
      VisibleSplit(s, group, t, f, top, now);
      SameTail(Walk(s, group, f + 1, limit, now), VisibleOnly(s, group, t[..f], now),
               VisibleOnly(s, group, t[f..top], now));
    }
  }

  // ----------------------------------------------- when the walk is complete

  /** Expired messages come before all visible ones. */
  ghost predicate ExpiredArePrefix(s: Store, group: GroupId, ids: seq<MessageId>, now: Nanos) {
    forall i, j | 0 <= i < j < |ids| && Visible(s, group, ids[i], now) :: Visible(s, group, ids[j], now)
  }

  lemma ClockOrderMakesPrefix(s: Store, group: GroupId, now: Nanos)
    requires Indexed(s) && group in s.groups && ClockOrdered(s, group)
    ensures ExpiredArePrefix(s, group, Timeline(s, group), now)
  {
  }

  lemma PrefixHidesNothing(s: Store, group: GroupId, ids: seq<MessageId>, top: nat, n: nat, now: Nanos)
    requires ExpiredArePrefix(s, group, ids, now) && n > 0 && top <= |ids|
    ensures NoPageHides(s, group, ids, top, n, now)
  {
    forall k | n <= k <= top ensures HidesNothing(s, group, ids, k, n, now) {
      if ExpiredIn(s, group, ids, k - n, k, now) { assert !Visible(s, group, ids[k - 1], now); }
    }
  }

  /** When expired messages come first, the walk returns every visible message before the bound, once and in order. */
  lemma WalkIsComplete(s: Store, group: GroupId, before: nat, limit: int, now: Nanos)
    requires Indexed(s) && group in s.groups && ExpiredArePrefix(s, group, Timeline(s, group), now)
    ensures var t := Timeline(s, group);
      Walk(s, group, before, limit, now) == VisibleOnly(s, group, t[..TopBefore(|t|, before)], now)
  {
    var t := Timeline(s, group);
    WalkIsCompleteIff(s, group, before, limit, now);
    PrefixHidesNothing(s, group, t, TopBefore(|t|, before), MessagePageSize(limit), now);
  }

  /** Serial sends with a clock that does not go back: the walk from the newest page misses no visible message. */
  lemma SerialSendsWalkIsComplete(events: seq<Event>, group: GroupId, limit: int, now: Nanos)
    requires SerialSends(EMPTY, events, group) && group in Run(EMPTY, events).store.groups
    ensures var s := Run(EMPTY, events).store;
      && Indexed(s)
      && Walk(s, group, 0, limit, now) == VisibleOnly(s, group, Timeline(s, group), now)
  {
    assert Good(EMPTY);
    SerialSendsKeepClockOrdered(EMPTY, events, group);
    var s := Run(EMPTY, events).store;
    ClockOrderMakesPrefix(s, group, now);
    WalkIsComplete(s, group, 0, limit, now);
    assert Timeline(s, group)[..|Timeline(s, group)|] == Timeline(s, group);
  }

  // ----------------------------------------------------- when it is not

  /**
   A newest page that is expired as a whole ends the walk at once, and that is
   the right answer exactly if no message of the group is visible.
   */
  lemma ExpiredPageStopsWalk(s: Store, group: GroupId, limit: int, now: Nanos)
    requires Indexed(s) && group in s.groups
    requires var t := Timeline(s, group);
      ExpiredIn(s, group, t, Max(|t| - MessagePageSize(limit), 0), |t|, now)
    ensures Walk(s, group, 0, limit, now) == []
    ensures VisibleOnly(s, group, Timeline(s, group), now) == [] <==>
            forall id | id in s.messages && s.messages[id].group == group :: !Visible(s, group, id, now)
  {
    var t := Timeline(s, group);
    var _ := WalkStep(s, group, 0, limit, now, Max(|t| - MessagePageSize(limit), 0), |t|);
    NoneVisibleIffExpired(s, group, t, 0, |t|, now);
    assert t[0..|t|] == t;
    forall id | id in s.messages && s.messages[id].group == group ensures id in t {
      TimelineHasAll(s, group, id);
    }
  }

  /**
   Two overlapping sends to group 0 with a TTL of one second. The send that
   commits first, as message 10, read its clock a second after the other one.
   */
  const OVERLAPPING_SENDS: seq<Event> := [
    OpenGroup(0), SetPolicy(0, 1, 300),
    Check(0, Draft(1, 0, "text", "hello", None, None), PERM_SEND_TEXT, false, 0),
    Check(1, Draft(2, 0, "text", "hello", None, None), PERM_SEND_TEXT, false, 0),
    Send(0, 10, SECOND), Send(1, 11, 0)]

  lemma RunTwo(s: System, events: seq<Event>)
    requires |events| >= 2
    ensures Run(s, events) == Run(Step(Step(s, events[0]), events[1]), events[2..])
  {
    assert events[1..][1..] == events[2..];
  }

  const FIRST: Message := Message(1, 0, 1, 1, "text", "hello", None, None, Normal, 0, None, None, SECOND)
  const SECOND_SENT: Message := Message(2, 0, 2, 2, "text", "hello", None, None, Normal, 0, None, None, 0)

  lemma OverlappingSendsStore()
    ensures Run(EMPTY, OVERLAPPING_SENDS).store ==
      Store(map[0 := Group(2, 0, 1, 300, map[1 := 10, 2 := 11])], map[10 := FIRST, 11 := SECOND_SENT], [], 3)
  {
    var e := OVERLAPPING_SENDS;
    RunTwo(EMPTY, e);
    var s2 := Step(Step(EMPTY, e[0]), e[1]);
    RunTwo(s2, e[2..]);
    var s4 := Step(Step(s2, e[2]), e[3]);
    assert e[2..][2..] == e[4..];
    RunTwo(s4, e[4..]);
    assert e[4..][2..] == [];
  }

  lemma NewestExpiredEndsWalk(s: Store, group: GroupId, newest: MessageId, now: Nanos)
    requires Indexed(s) && group in s.groups && newest in s.messages && s.messages[newest].group == group
    requires s.messages[newest].seqNo == s.groups[group].lastSeq && !Visible(s, group, newest, now)
    ensures Walk(s, group, 0, 1, now) == []
  {
    TimelineHasAll(s, group, newest);
    ExpiredPageStopsWalk(s, group, 1, now);
  }

  lemma OverlappingSendsIndexed()
    ensures Indexed(Run(EMPTY, OVERLAPPING_SENDS).store)
  {
    assert Good(EMPTY);
    RunKeepsGood(EMPTY, OVERLAPPING_SENDS);
  }

  /**
   So such a state is reachable: message 10 is visible when message 11, stored
   after it with an earlier time, has expired, and a walk by pages of one does not return it.
   */
  lemma OverlappingSendsHideAMessage()
    ensures var s, now := Run(EMPTY, OVERLAPPING_SENDS).store, SECOND + 1;
      && Indexed(s) && 0 in s.groups && 10 in s.messages
      && Visible(s, 0, 10, now)
      && Walk(s, 0, 0, 1, now) == []
  {
    OverlappingSendsIndexed();
    OverlappingSendsStore();
    NewestExpiredEndsWalk(Run(EMPTY, OVERLAPPING_SENDS).store, 0, 11, SECOND + 1);
  }
}
