/** Trimming, as strings.TrimSpace does it. */
module Text {

  /** The characters that count as white space. */
  predicate IsSpace(c: char) {
    c in {'\t', '\n', '\U{0B}', '\U{0C}', '\r', ' ', '\U{85}', '\U{A0}', '\U{1680}', '\U{2028}', '\U{2029}',
          '\U{202F}', '\U{205F}', '\U{3000}'} || '\U{2000}' <= c <= '\U{200A}'
  }

  function Trim(s: string): (r: string)
    ensures r != "" ==> !IsSpace(r[0]) && !IsSpace(r[|r| - 1])
    decreases |s|
  {
    if s == "" then s
    else if IsSpace(s[0]) then Trim(s[1..])
    else if IsSpace(s[|s| - 1]) then Trim(s[..|s| - 1])
    else s
  }

  lemma TrimTwice(s: string)
    ensures Trim(Trim(s)) == Trim(s)
  {
  }

  ghost predicate AllSpace(s: string) {
    forall c | c in s :: IsSpace(c)
  }

  ghost predicate IsCore(s: string, i: nat, j: nat) {
    i <= j <= |s| && Trim(s) == s[i..j] && AllSpace(s[..i]) && AllSpace(s[j..])
  }

  lemma SliceOfRest(s: string, a: nat, b: nat)
    requires s != "" && a <= b < |s|
    ensures s[1..][a..b] == s[a + 1..b + 1]
  {
    forall k | 0 <= k < b - a ensures s[1..][a..b][k] == s[a + 1..b + 1][k] {
      assert s[1..][a + k] == s[a + k + 1];
    }
  }

  lemma CutFirst(s: string, a: nat, b: nat)
    requires s != "" && IsSpace(s[0]) && IsCore(s[1..], a, b)
    ensures IsCore(s, a + 1, b + 1)
  {
    assert s[..a + 1] == [s[0]] + s[1..][..a];
    assert s[b + 1..] == s[1..][b..];
    SliceOfRest(s, a, b);
  }

  lemma CutLast(s: string, a: nat, b: nat)
    requires s != "" && !IsSpace(s[0]) && IsSpace(s[|s| - 1]) && IsCore(s[..|s| - 1], a, b)
    ensures IsCore(s, a, b)
  {
    var front := s[..|s| - 1];
    assert s[..a] == front[..a] && s[b..] == front[b..] + [s[|s| - 1]] && s[a..b] == front[a..b];
  }

  /** Trimming cuts off white space at both ends and nothing else. */
  lemma {:induction false} TrimCutsSpace(s: string) returns (i: nat, j: nat)
    ensures IsCore(s, i, j)
    decreases |s|
  {
    if s == "" {
      i, j := 0, 0;
    } else if IsSpace(s[0]) {
      var a, b := TrimCutsSpace(s[1..]);
      CutFirst(s, a, b);
      i, j := a + 1, b + 1;
    } else if IsSpace(s[|s| - 1]) {
      i, j := TrimCutsSpace(s[..|s| - 1]);
      CutLast(s, i, j);
    } else {
      i, j := 0, |s|;
      assert s[0..|s|] == s;
    }
  }
}
