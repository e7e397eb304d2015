/**
 The page queries of the repositories: rows of one channel, conversation or
 group selected by an ordering column, one side bounded, ordered and cut off by
 LIMIT. Only the ordering column matters, so a table is given by the set of its
 keys and a page is the sequence of keys of the rows returned.
 */
module Pages {
  import opened Common

  function Least(s: set<int>): (m: int)
    requires s != {}
    ensures m in s && forall k | k in s :: m <= k
  {
    LeastExists(s);
    var m :| m in s && forall k | k in s :: m <= k;
    m
  }

  lemma {:induction false} LeastExists(s: set<int>)
    requires s != {}
    ensures exists m :: m in s && forall k | k in s :: m <= k
  {
    var x := SomeElement(s);
    if s == {x} {
      assert forall k | k in s :: x <= k;
    } else {
      assert forall k | k in s :: k == x || k in s - {x};
      LeastExists(s - {x});
      var m :| m in s - {x} && forall k | k in s - {x} :: m <= k;
      var least := if x < m then x else m;
      assert least in s && forall k | k in s :: least <= k;
    }
  }

  function Greatest(s: set<int>): (m: int)
    requires s != {}
    ensures m in s && forall k | k in s :: k <= m
  {
    GreatestExists(s);
    var m :| m in s && forall k | k in s :: k <= m;
    m
  }

  lemma {:induction false} GreatestExists(s: set<int>)
    requires s != {}
    ensures exists m :: m in s && forall k | k in s :: k <= m
  {
    var x := SomeElement(s);
    if s == {x} {
      assert forall k | k in s :: k <= x;
    } else {
      assert forall k | k in s :: k == x || k in s - {x};
      GreatestExists(s - {x});
      var m :| m in s - {x} && forall k | k in s - {x} :: k <= m;
      var greatest := if x > m then x else m;
      assert greatest in s && forall k | k in s :: k <= greatest;
    }
  }

  /** WHERE key > after ORDER BY key ASC LIMIT n */
  function Ascending(keys: set<int>, after: int, n: nat): (page: seq<int>)
    ensures |page| <= n && forall i | 0 <= i < |page| :: page[i] in keys
    decreases n
  {
    var rest := set k | k in keys && k > after;
    if n == 0 || rest == {} then [] else
      var k := Least(rest);
      [k] + Ascending(keys, k, n - 1)
  }

  /** The optional bound `key < before` of a descending query. */
  predicate IsBelow(k: int, before: Option<int>) {
    before.Some? ==> k < before.value
  }

  /** [WHERE key < before] ORDER BY key DESC LIMIT n */
  function Descending(keys: set<int>, before: Option<int>, n: nat): (page: seq<int>)
    ensures |page| <= n && forall i | 0 <= i < |page| :: page[i] in keys
    decreases n
  {
    var rest := set k | k in keys && IsBelow(k, before);
    if n == 0 || rest == {} then [] else
      var k := Greatest(rest);
      [k] + Descending(keys, Some(k), n - 1)
  }

  /** The rows that a page of keys selects. */
  function RowsAt<T>(table: map<int, T>, page: seq<int>): (rows: seq<T>)
    requires forall i | 0 <= i < |page| :: page[i] in table
    ensures |rows| == |page| && forall i | 0 <= i < |page| :: rows[i] == table[page[i]]
  {
    seq(|page|, i requires 0 <= i < |page| => table[page[i]])
  }

  /** The key a page has reached after its first i rows. */
  function Reached(page: seq<int>, after: int, i: nat): int
    requires i <= |page|
  {
    if i == 0 then after else page[i - 1]
  }

  /**
   What the ascending query means, for any table: each row is the first one past
   the row before it, and the page is short only when no row is left.
   */
  ghost predicate IsNextPage(keys: set<int>, after: int, n: nat, page: seq<int>) {
    && |page| <= n
    && (forall i {:trigger Reached(page, after, i)} | 0 <= i < |page| ::
          page[i] in keys && Reached(page, after, i) < page[i])
    && (forall i, k {:trigger Reached(page, after, i), k in keys} | 0 <= i < |page| && k in keys ::
          k <= Reached(page, after, i) || page[i] <= k)
    && (|page| < n ==> forall k | k in keys :: k <= Reached(page, after, |page|))
  }

  lemma PrependFirst(keys: set<int>, after: int, n: nat, first: int, tail: seq<int>)
    requires n > 0 && first in keys && first > after
    requires forall k | k in keys && k > after :: first <= k
    requires IsNextPage(keys, first, n - 1, tail)
    ensures IsNextPage(keys, after, n, [first] + tail)
  {
    var page := [first] + tail;
    forall i | 0 <= i < |page|
      ensures page[i] in keys && Reached(page, after, i) < page[i]
      ensures forall k | k in keys :: k <= Reached(page, after, i) || page[i] <= k
    {
      if i > 0 {
        assert page[i] == tail[i - 1] && Reached(page, after, i) == Reached(tail, first, i - 1);
      }
    }
    assert Reached(page, after, |page|) == Reached(tail, first, |tail|);
  }

  lemma {:induction false} AscendingIsTheNextPage(keys: set<int>, after: int, n: nat)
    ensures IsNextPage(keys, after, n, Ascending(keys, after, n))
    decreases n
  {
    var rest := set k | k in keys && k > after;
    assert forall k | k in keys && k > after :: k in rest;
    if n > 0 && rest != {} {
      var first := Least(rest);
      AscendingIsTheNextPage(keys, first, n - 1);
      PrependFirst(keys, after, n, first, Ascending(keys, first, n - 1));
    }
  }

  /**
   At most n keys below the bound, strictly descending; a key below the bound is
   left out only if n greater ones are there.
   */
  ghost predicate IsPageBelow(keys: set<int>, before: Option<int>, n: nat, page: seq<int>) {
    && |page| <= n
    && (forall k | k in page :: k in keys && IsBelow(k, before))
    && (forall i, j | 0 <= i < j < |page| :: page[i] > page[j])
    && (forall k | k in keys && IsBelow(k, before) && k !in page :: |page| == n && forall p | p in page :: k < p)
  }

  lemma PrependGreatest(keys: set<int>, before: Option<int>, n: nat, first: int, tail: seq<int>)
    requires n > 0 && first in keys && IsBelow(first, before)
    requires forall k | k in keys && IsBelow(k, before) :: k <= first
    requires IsPageBelow(keys, Some(first), n - 1, tail)
    ensures IsPageBelow(keys, before, n, [first] + tail)
  {
    var page := [first] + tail;
    forall i, j | 0 <= i < j < |page| ensures page[i] > page[j] {
      assert page[j] == tail[j - 1] && tail[j - 1] in tail;
    }
    forall k | k in keys && IsBelow(k, before) && k !in page ensures |page| == n && forall p | p in page :: k < p {
      assert page[0] == first;
      assert k !in tail && IsBelow(k, Some(first));
    }
  }

  lemma {:induction false} DescendingIsThePageBelow(keys: set<int>, before: Option<int>, n: nat)
    ensures IsPageBelow(keys, before, n, Descending(keys, before, n))
    decreases n
  {
    var rest := set k | k in keys && IsBelow(k, before);
    assert forall k | k in keys && IsBelow(k, before) :: k in rest;
    if n > 0 && rest != {} {
      var first := Greatest(rest);
      DescendingIsThePageBelow(keys, Some(first), n - 1);
      PrependGreatest(keys, before, n, first, Descending(keys, Some(first), n - 1));
    }
  }

  /** The keys are exactly 1..last. */
  ghost predicate Dense(keys: set<int>, last: int) {
    0 <= last && forall k :: k in keys <==> 1 <= k <= last
  }

  lemma {:induction false} AscendingDense(keys: set<int>, last: int, after: int, n: nat)
    requires Dense(keys, last)
    ensures Ascending(keys, after, n) == Range(Max(after, 0) + 1, Min(Max(after, 0) + n, last) + 1)
    decreases n
  {
    var rest := set k | k in keys && k > after;
    var next := Max(after, 0) + 1;
    if n > 0 && next <= last {
      assert next in rest;
      assert Least(rest) == next;
      AscendingDense(keys, last, next, n - 1);
    } else if n > 0 {
      assert rest == {};
    }
  }

  /** The first key a descending query may return on the table 1..last. */
  function Top(last: int, before: Option<int>): int {
    if before.Some? && before.value <= last then before.value - 1 else last
  }

  /** The descending page on 1..last, newest first. */
  lemma {:induction false} DescendingDense(keys: set<int>, last: int, before: Option<int>, n: nat)
    requires Dense(keys, last)
    ensures var top := Max(Top(last, before), 0);
      var page := Descending(keys, before, n);
      |page| == Min(n, top) && forall i | 0 <= i < |page| :: page[i] == top - i
    decreases n
  {
    var rest := set k | k in keys && IsBelow(k, before);
    var top := Top(last, before);
    if n > 0 && top >= 1 {
      assert top in rest;
      assert Greatest(rest) == top;
      DescendingDense(keys, last, Some(top), n - 1);
    } else if n > 0 {
      assert rest == {};
    }
  }

  /** The page size of the direct and group message lists. */
  function MessagePageSize(limit: int): (n: nat)
    ensures n == (if 1 <= limit <= 100 then limit else 50)
    ensures 1 <= n <= 100
  {
    if limit <= 0 || limit > 100 then 50 else limit
  }

  /** How many of the rows 1..last lie before the bound; 0 or less is no bound. */
  function TopBefore(last: int, before: int): (top: int)
    ensures last >= 0 ==> 0 <= top <= last
  {
    if 0 < before <= last then before - 1 else last
  }

  // ------------------------------------------------ pages of dense tables

  function Reversed<T>(s: seq<T>): (r: seq<T>)
    ensures |r| == |s| && forall i | 0 <= i < |s| :: r[i] == s[|s| - 1 - i]
  {
    seq(|s|, i requires 0 <= i < |s| => s[|s| - 1 - i])
  }

  lemma ReversedFrom<T>(s: seq<T>, i: nat)
    requires i < |s|
    ensures Reversed(s[i..]) == Reversed(s[i + 1..]) + [s[i]]
  {
  }

  /** The rows of a table keyed 1..last, in order. */
  ghost function InOrder<T>(table: map<int, T>, last: nat): (rows: seq<T>)
    requires Dense(table.Keys, last)
    ensures |rows| == last && forall i | 0 <= i < last :: rows[i] == table[i + 1]
  {
    seq(last, i requires 0 <= i < last => table[i + 1])
  }

  lemma AscendingIsSlice<T>(table: map<int, T>, last: nat, after: int, n: nat)
    requires Dense(table.Keys, last)
    ensures RowsAt(table, Ascending(table.Keys, after, n)) ==
            InOrder(table, last)[Min(Max(after, 0), last)..Min(Max(after, 0) + n, last)]
  {
    AscendingDense(table.Keys, last, after, n);
  }

  lemma DescendingIsSlice<T>(table: map<int, T>, last: nat, before: Option<int>, n: nat)
    requires Dense(table.Keys, last)
    ensures var top := Max(Top(last, before), 0);
      Reversed(RowsAt(table, Descending(table.Keys, before, n))) == InOrder(table, last)[Max(top - n, 0)..top]
  {
    DescendingDense(table.Keys, last, before, n);
  }

  // ------------------------------------------------------- joining pages

  /** items are the rows after+1, after+2, ... of an ordered table and cursor is the last of them. */
  ghost predicate Continues<T>(rows: seq<T>, after: int, items: seq<T>, cursor: int) {
    var from := Max(after, 0);
    && (items != [] ==> from + |items| <= |rows| && items == rows[from..from + |items|])
    && cursor == (if items == [] then after else from + |items|)
  }

  lemma SliceContinues<T>(rows: seq<T>, after: nat, top: nat, items: seq<T>)
    requires Min(after, |rows|) <= top <= |rows| && items == rows[Min(after, |rows|)..top]
    ensures Continues(rows, after, items, if items == [] then after else top)
  {
  }

  lemma JoinPages<T>(rows: seq<T>, rows': seq<T>, after: int, page: seq<T>, next: int, rest: seq<T>, cursor: int)
    requires rows <= rows'
    requires Continues(rows, after, page, next) && Continues(rows', next, rest, cursor)
    ensures Continues(rows', after, page + rest, cursor)
  {
    if page == [] {
      assert page + rest == rest;
    }
  }

  lemma JoinSlices<T>(s: seq<T>, a: nat, b: nat, c: nat)
    requires a <= b <= c <= |s|
    ensures s[a..b] + s[b..c] == s[a..c]
    ensures a == 0 ==> s[..b] + s[b..c] == s[..c]
  {
  }
}
