/**
 Slow mode: a key per group and user that lives for the cooldown after an
 accepted send and turns further sends away while it lives.
 */
module SlowMode {
  import opened Common
  import opened Permissions

  /** A key of the store: set to expire, set without expiry, or not there. */
  datatype Entry = Absent | Persistent | ExpiresAt(at: Nanos)

  /**
   The remaining time the store reports, rounded to the nearest whole number of
   units and negative when there is none to report. The source's store counts in
   seconds; a unit of one nanosecond makes the report exact.
   */
  function TimeToLive(e: Entry, now: Nanos, unit: nat): int
    requires unit > 0
  {
    match e
    case Absent => -2
    case Persistent => -1
    case ExpiresAt(at) => if at > now then (at - now + unit / 2) / unit else -2
  }

  /** The most time that can remain when the report says zero. */
  function Slack(unit: nat): nat
    requires unit > 0
  {
    unit - unit / 2 - 1
  }

  lemma ReportedZero(remaining: nat, unit: nat)
    requires unit > 0
    ensures (remaining + unit / 2) / unit <= 0 <==> remaining <= Slack(unit)
  {
    var x := remaining + unit / 2;
    if x < unit {
      assert x / unit == 0;
    } else {
      assert x / unit >= 1 by {
        assert x == (x / unit) * unit + x % unit;
      }
    }
  }

  /** Setting a key: only a positive duration makes it expire. */
  function SetFor(duration: Nanos, now: Nanos): Entry {
    if duration > 0 then ExpiresAt(now + duration) else Persistent
  }

  datatype Sender = Sender(role: Role, perms: Bits)

  predicate Bypasses(s: Sender) {
    HasPermission(s.perms, PERM_BYPASS_SLOWMODE)
  }

  /** A handled send: when the key was read, when the message was stored, when the key was written. */
  datatype Request = Request(checkedAt: Nanos, storedAt: Nanos, setAt: Nanos, otherwiseValid: bool)

  predicate IsOrdered(r: Request) {
    r.checkedAt <= r.storedAt <= r.setAt
  }

  predicate TurnedAway(e: Entry, cooldown: int, sender: Sender, r: Request, unit: nat)
    requires unit > 0
  {
    cooldown > 0 && sender.role != Owner && !Bypasses(sender) && TimeToLive(e, r.checkedAt, unit) > 0
  }

  /** The key after one request, and whether the request was accepted. */
  function Handle(e: Entry, cooldown: int, sender: Sender, r: Request, unit: nat): (Entry, bool)
    requires unit > 0
  {
    if TurnedAway(e, cooldown, sender, r, unit) || !r.otherwiseValid then (e, false)
    else if cooldown > 0 && !Bypasses(sender) then (SetFor(DurationOfSeconds(cooldown), r.setAt), true)
    else (e, true)
  }

  /** A positive cooldown, and nothing that exempts the sender from it. */
  predicate IsLimited(cooldown: int, sender: Sender) {
    cooldown > 0 && sender.role != Owner && !HasPermission(sender.perms, 0x800)
  }

  /** The key has more time left than a report of zero allows. */
  predicate Blocks(e: Entry, at: Nanos, unit: nat)
    requires unit > 0
  {
    e.ExpiresAt? && e.at > at + Slack(unit)
  }

  /** A request is turned away by nothing but a live key, and then only if it is limited. */
  lemma HandleExactly(e: Entry, cooldown: int, sender: Sender, r: Request, unit: nat)
    requires unit > 0
    ensures var (e', ok) := Handle(e, cooldown, sender, r, unit);
      && (ok <==> r.otherwiseValid && !(IsLimited(cooldown, sender) && Blocks(e, r.checkedAt, unit)))
      && (!ok || cooldown <= 0 || HasPermission(sender.perms, 0x800) ==> e' == e)
      && (ok && 0 < cooldown <= MAX_SECONDS && !HasPermission(sender.perms, 0x800) ==>
            e' == ExpiresAt(r.setAt + cooldown * 1_000_000_000))
  {
    if e.ExpiresAt? && e.at > r.checkedAt { ReportedZero(e.at - r.checkedAt, unit); }
  }

  /** When the accepted ones of a run of requests were stored. */
  function Accepted(e: Entry, cooldown: int, sender: Sender, rs: seq<Request>, unit: nat): seq<Nanos>
    requires unit > 0
    decreases |rs|
  {
    if rs == [] then [] else
      var (e', ok) := Handle(e, cooldown, sender, rs[0], unit);
      (if ok then [rs[0].storedAt] else []) + Accepted(e', cooldown, sender, rs[1..], unit)
  }

  function StoredAt(rs: seq<Request>): seq<Nanos>
    decreases |rs|
  {
    if rs == [] then [] else (if rs[0].otherwiseValid then [rs[0].storedAt] else []) + StoredAt(rs[1..])
  }

  /** Without a cooldown, and for the owner and whoever may bypass it, every valid request of a run is accepted. */
  lemma {:induction false} ExemptAreNeverTurnedAway(e: Entry, cooldown: int, sender: Sender, rs: seq<Request>,
                                                    unit: nat)
    requires unit > 0
    requires cooldown <= 0 || sender.role == Owner || HasPermission(sender.perms, 0x800)
    ensures Accepted(e, cooldown, sender, rs, unit) == StoredAt(rs)
    decreases |rs|
  {
    if rs != [] {
      var (e', ok) := Handle(e, cooldown, sender, rs[0], unit);
      HandleExactly(e, cooldown, sender, rs[0], unit);
      ExemptAreNeverTurnedAway(e', cooldown, sender, rs[1..], unit);
    }
  }

  class CooldownStore {
    const unit: nat
    var entries: map<(nat, UserId), Entry>

    function At(group: nat, user: UserId): Entry
      reads this
    {
      if (group, user) in entries then entries[(group, user)] else Absent
    }

    constructor (unit: nat)
      ensures entries == map[] && this.unit == unit
    {
      this.unit := unit;
      entries := map[];
    }

    /** The slow-mode part of one SendMessage call. */
    method HandleSend(group: nat, user: UserId, cooldown: int, sender: Sender, r: Request) returns (accepted: bool)
      requires unit > 0
      modifies this
      ensures (At(group, user), accepted) == Handle(old(At(group, user)), cooldown, sender, r, unit)
      ensures forall g: nat, u: nat | (g, u) != (group, user) :: At(g, u) == old(At(g, u))
      ensures accepted <==>
        r.otherwiseValid && !(IsLimited(cooldown, sender) && Blocks(old(At(group, user)), r.checkedAt, unit))
      ensures !accepted || cooldown <= 0 || HasPermission(sender.perms, 0x800) ==>
        At(group, user) == old(At(group, user))
      ensures accepted && 0 < cooldown <= MAX_SECONDS && !HasPermission(sender.perms, 0x800) ==>
        At(group, user) == ExpiresAt(r.setAt + cooldown * 1_000_000_000)
    {
      HandleExactly(At(group, user), cooldown, sender, r, unit);
      if !(cooldown <= 0 || sender.role == Owner || Bypasses(sender)) {
        var ttl := TimeToLive(At(group, user), r.checkedAt, unit);
        if ttl > 0 {
          return false;
        }
      }
      if !r.otherwiseValid {
        return false;
      }
      if cooldown > 0 && !Bypasses(sender) {
        entries := entries[(group, user) := SetFor(DurationOfSeconds(cooldown), r.setAt)];
      }
      accepted := true;
    }
  }

  // ---------------------------------------------------------------- spacing

  /** Requests of one user to one group that are handled one after the other. */
  ghost predicate OneAtATime(rs: seq<Request>) {
    && (forall i | 0 <= i < |rs| :: IsOrdered(rs[i]))
    && (forall i, j | 0 <= i < j < |rs| :: rs[i].setAt <= rs[j].checkedAt)
  }

  ghost predicate Spaced(times: seq<Nanos>, gap: int) {
    forall i, j | 0 <= i < j < |times| :: times[j] - times[i] >= gap
  }

  predicate Limited(cooldown: int, sender: Sender) {
    cooldown > 0 && sender.role != Owner && !Bypasses(sender)
  }

  /** A limited request accepted by a live key comes no earlier than rounding allows. */
  lemma AcceptedNearExpiry(e: Entry, cooldown: int, sender: Sender, r: Request, unit: nat)
    requires unit > 0 && Limited(cooldown, sender) && IsOrdered(r) && e.ExpiresAt?
    requires Handle(e, cooldown, sender, r, unit).1
    ensures r.storedAt >= e.at - Slack(unit)
  {
    if e.at > r.checkedAt { ReportedZero(e.at - r.checkedAt, unit); }
  }

  /** Until the key has expired, up to the rounding of the report, nothing is accepted. */
  lemma {:induction false} AcceptedAfterExpiry(e: Entry, cooldown: int, sender: Sender, rs: seq<Request>, unit: nat)
    requires unit > 0 && Limited(cooldown, sender) && OneAtATime(rs) && DurationOfSeconds(cooldown) > 0
    ensures var times := Accepted(e, cooldown, sender, rs, unit);
      && (forall i | 0 <= i < |times| :: e.ExpiresAt? ==> times[i] >= e.at - Slack(unit))
      && (forall i | 0 <= i < |times| :: rs != [] && times[i] >= rs[0].checkedAt)
      && Spaced(times, DurationOfSeconds(cooldown) - Slack(unit))
    decreases |rs|
  {
    if rs != [] {
      var (e', ok) := Handle(e, cooldown, sender, rs[0], unit);
      AcceptedAfterExpiry(e', cooldown, sender, rs[1..], unit);
      if ok && e.ExpiresAt? { AcceptedNearExpiry(e, cooldown, sender, rs[0], unit); }
      var rest := Accepted(e', cooldown, sender, rs[1..], unit);
      forall i | 0 <= i < |rest| ensures rest[i] >= rs[0].setAt {
        assert rs[1..] != [] && rs[1..][0] == rs[1];
      }
    }
  }

  /** All accepted sends of every run of one-at-a-time requests are gap apart. */
  ghost predicate Keeps(cooldown: int, sender: Sender, unit: nat, gap: int)
    requires unit > 0
  {
    forall rs | OneAtATime(rs) :: Spaced(Accepted(Absent, cooldown, sender, rs, unit), gap)
  }

  lemma KeepsAllButSlack(cooldown: int, sender: Sender, unit: nat)
    requires Limited(cooldown, sender) && cooldown <= MAX_SECONDS && unit > 0
    ensures Keeps(cooldown, sender, unit, cooldown * SECOND - Slack(unit))
  {
    forall rs | OneAtATime(rs)
      ensures Spaced(Accepted(Absent, cooldown, sender, rs, unit), cooldown * SECOND - Slack(unit))
    {
      AcceptedAfterExpiry(Absent, cooldown, sender, rs, unit);
    }
  }

  /** Two sends, the second one as soon as the key's report allows it. */
  lemma TwoAccepted(cooldown: int, sender: Sender, unit: nat, later: nat)
    requires Limited(cooldown, sender) && unit > 0
    requires later >= DurationOfSeconds(cooldown) - Slack(unit)
    ensures var rs := [Request(0, 0, 0, true), Request(later, later, later, true)];
      OneAtATime(rs) && Accepted(Absent, cooldown, sender, rs, unit) == [0, later]
  {
    var d := DurationOfSeconds(cooldown);
    var first, second := Request(0, 0, 0, true), Request(later, later, later, true);
    var rs := [first, second];
    var e := SetFor(d, 0);
    assert Handle(Absent, cooldown, sender, first, unit) == (e, true);
    if d > later { ReportedZero(d - later, unit); }
    assert Handle(e, cooldown, sender, second, unit).1;
    assert rs[1..] == [second] && [second][1..] == [];
    assert Accepted(e, cooldown, sender, [second], unit) == [later];
    assert Accepted(Absent, cooldown, sender, rs, unit) == [0] + Accepted(e, cooldown, sender, rs[1..], unit);
  }

  lemma TwoAreTooClose(cooldown: int, sender: Sender, unit: nat, later: nat, gap: int)
    requires Limited(cooldown, sender) && unit > 0
    requires DurationOfSeconds(cooldown) - Slack(unit) <= later < gap
    ensures !Keeps(cooldown, sender, unit, gap)
  {
    TwoAccepted(cooldown, sender, unit, later);
    var rs := [Request(0, 0, 0, true), Request(later, later, later, true)];
    var times := Accepted(Absent, cooldown, sender, rs, unit);
    assert times[1] - times[0] < gap;
    assert !Spaced(times, gap);
  }

  /** A cooldown whose nanoseconds do not fit an int64 wraps to a much shorter one. */
  lemma WrappedCooldownIsShort(cooldown: int)
    requires cooldown > MAX_SECONDS
    ensures DurationOfSeconds(cooldown) < cooldown * SECOND - SECOND
  {
  }

  /**
   The spacing that slow mode promises holds for every run of requests exactly
   when the cooldown in nanoseconds fits an int64 and the report is exact.
   */
  lemma CooldownIsKept(cooldown: int, sender: Sender, unit: nat)
    requires Limited(cooldown, sender) && 0 < unit <= SECOND
    ensures Keeps(cooldown, sender, unit, cooldown * SECOND) <==> cooldown <= MAX_SECONDS && Slack(unit) == 0
  {
    var d := DurationOfSeconds(cooldown);
    if cooldown > MAX_SECONDS {
      WrappedCooldownIsShort(cooldown);
      TwoAreTooClose(cooldown, sender, unit, Max(d, 0), cooldown * SECOND);
    } else if Slack(unit) > 0 {
      TwoAreTooClose(cooldown, sender, unit, d - Slack(unit), cooldown * SECOND);
    } else {
      KeepsAllButSlack(cooldown, sender, unit);
    }
  }

  /** What is lost to a rounded report is its slack and no more, so a report in seconds costs under half a second. */
  lemma CooldownIsKeptUpToRounding(cooldown: int, sender: Sender, unit: nat, gap: int)
    requires Limited(cooldown, sender) && cooldown <= MAX_SECONDS && 0 < unit <= SECOND
    ensures Keeps(cooldown, sender, unit, gap) <==> gap <= cooldown * SECOND - Slack(unit)
    ensures Slack(SECOND) < SECOND / 2
  {
    if gap <= cooldown * SECOND - Slack(unit) {
      KeepsAllButSlack(cooldown, sender, unit);
      KeepsLess(cooldown, sender, unit, cooldown * SECOND - Slack(unit), gap);
    } else {
      TwoAreTooClose(cooldown, sender, unit, cooldown * SECOND - Slack(unit), gap);
    }
  }

  lemma KeepsLess(cooldown: int, sender: Sender, unit: nat, gap: int, less: int)
    requires unit > 0 && Keeps(cooldown, sender, unit, gap) && less <= gap
    ensures Keeps(cooldown, sender, unit, less)
  {
    forall rs | OneAtATime(rs) ensures Spaced(Accepted(Absent, cooldown, sender, rs, unit), less) {
      assert Spaced(Accepted(Absent, cooldown, sender, rs, unit), gap);
    }
  }

  // ------------------------------------------------------------------- rate

  function Within(times: seq<Nanos>, from: Nanos, to: Nanos): seq<Nanos> {
    if times == [] then [] else
      (if from <= times[0] <= to then [times[0]] else []) + Within(times[1..], from, to)
  }

  ghost predicate Inside(times: seq<Nanos>, from: Nanos, to: Nanos) {
    forall x | x in times :: from <= x <= to
  }

  lemma {:induction false} WithinIsInside(times: seq<Nanos>, from: Nanos, to: Nanos)
    ensures Inside(Within(times, from, to), from, to)
    ensures forall x | x in Within(times, from, to) :: x in times
  {
    if times != [] { WithinIsInside(times[1..], from, to); }
  }

  lemma SpacedTail(times: seq<Nanos>, gap: int)
    requires Spaced(times, gap) && times != []
    ensures Spaced(times[1..], gap)
    ensures forall x | x in times[1..] :: x - times[0] >= gap
  {
  }

  lemma SpacedCons(first: Nanos, rest: seq<Nanos>, gap: int)
    requires Spaced(rest, gap) && forall x | x in rest :: x - first >= gap
    ensures Spaced([first] + rest, gap)
  {
    var all := [first] + rest;
    forall i, j | 0 <= i < j < |all| ensures all[j] - all[i] >= gap {
      assert all[j] == rest[j - 1] && rest[j - 1] in rest;
    }
  }

  lemma {:induction false} WithinIsSpaced(times: seq<Nanos>, from: Nanos, to: Nanos, gap: int)
    requires Spaced(times, gap)
    ensures Spaced(Within(times, from, to), gap)
  {
    if times != [] {
      SpacedTail(times, gap);
      WithinIsSpaced(times[1..], from, to, gap);
      WithinIsInside(times[1..], from, to);
      SpacedCons(times[0], Within(times[1..], from, to), gap);
    }
  }

  lemma {:induction false} SpacedSpan(times: seq<Nanos>, gap: int)
    requires Spaced(times, gap) && times != []
    ensures (|times| - 1) * gap <= times[|times| - 1] - times[0]
  {
    var n := |times|;
    if n > 1 {
      SpacedSpan(times[..n - 1], gap);
      assert (n - 1) * gap == (n - 2) * gap + gap;
    }
  }

  lemma ProductGrows(a: nat, b: nat, gap: int)
    requires a <= b && gap > 0
    ensures a * gap <= b * gap
  {
  }

  lemma QuotientBounds(k: nat, gap: int, width: nat)
    requires gap > 0 && k * gap <= width
    ensures k <= width / gap
  {
    var q, r := width / gap, width % gap;
    assert width == q * gap + r && r < gap;
    assert (q + 1) * gap == q * gap + gap;
    if q + 1 <= k {
      ProductGrows(q + 1, k, gap);
    }
  }

  lemma SpacedCount(times: seq<Nanos>, gap: int, from: Nanos, width: nat)
    requires Spaced(times, gap) && gap > 0 && Inside(times, from, from + width)
    ensures |times| <= width / gap + 1
  {
    if times != [] {
      assert times[0] in times && times[|times| - 1] in times;
      SpacedSpan(times, gap);
      QuotientBounds(|times| - 1, gap, width);
    } else {
      QuotientBounds(0, gap, width);
    }
  }

  lemma SpacedInWindow(times: seq<Nanos>, gap: int, from: Nanos, width: nat)
    requires Spaced(times, gap) && gap > 0
    ensures |Within(times, from, from + width)| <= width / gap + 1
  {
    WithinIsSpaced(times, from, from + width, gap);
    WithinIsInside(times, from, from + width);
    SpacedCount(Within(times, from, from + width), gap, from, width);
  }

  /** A window of length width holds at most width / gap + 1 accepted sends, gap being the cooldown up to rounding. */
  lemma RateIsBounded(cooldown: int, sender: Sender, rs: seq<Request>, from: Nanos, width: nat, unit: nat)
    requires Limited(cooldown, sender) && cooldown <= MAX_SECONDS && OneAtATime(rs) && 0 < unit <= SECOND
    ensures var gap := cooldown * SECOND - Slack(unit);
      gap > 0 && |Within(Accepted(Absent, cooldown, sender, rs, unit), from, from + width)| <= width / gap + 1
  {
    KeepsAllButSlack(cooldown, sender, unit);
    SpacedInWindow(Accepted(Absent, cooldown, sender, rs, unit), cooldown * SECOND - Slack(unit), from, width);
  }

  /** With an exact report, the bound of the cooldown itself. */
  lemma RateIsBoundedExactly(cooldown: int, sender: Sender, rs: seq<Request>, from: Nanos, width: nat)
    requires Limited(cooldown, sender) && cooldown <= MAX_SECONDS && OneAtATime(rs)
    ensures |Within(Accepted(Absent, cooldown, sender, rs, 1), from, from + width)| <= width / (cooldown * SECOND) + 1
  {
    RateIsBounded(cooldown, sender, rs, from, width, 1);
  }
}
