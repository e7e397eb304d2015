/** Inviting a list of peers in one transaction. */
module BatchInvite {
  import opened Common
  import opened Permissions
  import opened GroupMembers
  import opened Text

  // ------------------------------------------------------------ peer id lists

  function Trimmed(values: seq<string>): (r: seq<string>)
    ensures |r| == |values| && forall i | 0 <= i < |values| :: r[i] == Trim(values[i])
  {
    seq(|values|, i requires 0 <= i < |values| => Trim(values[i]))
  }

  /** The values other than blank, each at its first occurrence. */
  function Unique<T(==)>(values: seq<T>, blank: T): seq<T> {
    if values == [] then [] else
      var before, v := Unique(values[..|values| - 1], blank), values[|values| - 1];
      if v == blank || v in before then before else before + [v]
  }

  method UniqueNonBlankStrings(values: seq<string>) returns (result: seq<string>)
    ensures result == Unique(Trimmed(values), "")
  {
    var seen: set<string> := {};
    result := [];
    ghost var trimmed := Trimmed(values);
    for i := 0 to |values|
      invariant result == Unique(trimmed[..i], "")
      invariant forall v :: v in seen <==> v in result
    {
      assert trimmed[..i + 1][..i] == trimmed[..i];
      var value := Trim(values[i]);
      if value == "" {
        continue;
      }
      if value in seen {
        continue;
      }
      seen := seen + {value};
      result := result + [value];
    }
    assert trimmed[..|values|] == trimmed;
  }

  ghost predicate Distinct<T>(s: seq<T>) {
    forall i, j | 0 <= i < j < |s| :: s[i] != s[j]
  }

  /** Where a value first occurs; the length when it does not. */
  function FirstIndex<T(==)>(values: seq<T>, v: T): (k: nat)
    ensures k <= |values| && forall i | 0 <= i < k :: values[i] != v
    ensures k < |values| ==> values[k] == v
  {
    if values == [] then 0 else
      var n := |values| - 1;
      var k := FirstIndex(values[..n], v);
      if k < n then k else if values[n] == v then n else n + 1
  }

  /** r lists the values other than blank once each, by where they first occur. */
  ghost predicate IsFirstOccurrences<T(!new)>(values: seq<T>, blank: T, r: seq<T>) {
    && (forall v :: v in r <==> v != blank && v in values)
    && (forall i, j | 0 <= i < j < |r| :: FirstIndex(values, r[i]) < FirstIndex(values, r[j]))
  }

  lemma FirstIndexAppend<T>(values: seq<T>, value: T, v: T)
    ensures FirstIndex(values + [value], v) ==
      if v in values then FirstIndex(values, v) else if value == v then |values| else |values| + 1
  {
    assert (values + [value])[..|values|] == values;
  }

  lemma NextOccurrence<T(!new)>(values: seq<T>, value: T, blank: T, r: seq<T>)
    requires IsFirstOccurrences(values, blank, r)
    ensures IsFirstOccurrences(values + [value], blank, if value == blank || value in r then r else r + [value])
  {
    var all := values + [value];
    var r' := if value == blank || value in r then r else r + [value];
    forall i, j | 0 <= i < j < |r'| ensures FirstIndex(all, r'[i]) < FirstIndex(all, r'[j]) {
      FirstIndexAppend(values, value, r'[i]);
      FirstIndexAppend(values, value, r'[j]);
      assert r'[i] == r[i] && r[i] in r;
      if j < |r| { assert r[j] in r; }
    }
  }

  lemma UniqueAppend<T(!new)>(front: seq<T>, last: T, blank: T)
    requires IsFirstOccurrences(front, blank, Unique(front, blank))
    ensures IsFirstOccurrences(front + [last], blank, Unique(front + [last], blank))
  {
    NextOccurrence(front, last, blank, Unique(front, blank));
    assert (front + [last])[..|front|] == front;
  }

  lemma {:induction false} UniqueIsFirstOccurrences<T(!new)>(values: seq<T>, blank: T)
    ensures IsFirstOccurrences(values, blank, Unique(values, blank))
  {
    if values != [] {
      var front, last := values[..|values| - 1], values[|values| - 1];
      assert values == front + [last];
      UniqueIsFirstOccurrences(front, blank);
      UniqueAppend(front, last, blank);
    }
  }

  // ---------------------------------------------------------------- user table

  /** Users by peer id; next is the serial primary key. */
  datatype Users = Users(byPeer: map<string, UserId>, next: UserId)

  ghost predicate UsersOk(u: Users) {
    && (forall p | p in u.byPeer :: u.byPeer[p] < u.next)
    && (forall p, q | p in u.byPeer && q in u.byPeer && u.byPeer[p] == u.byPeer[q] :: p == q)
  }

  function EnsurePeerUser(u: Users, peer: string): (Users, UserId) {
    if peer in u.byPeer then (u, u.byPeer[peer])
    else (Users(u.byPeer[peer := u.next], u.next + 1), u.next)
  }

  // ------------------------------------------------------------------- invites

  datatype Invited = Invited(state: State, users: Users, ids: seq<UserId>)

  /** One turn of the loop over the peers. */
  function InviteOne(b: Invited, inviter: UserId, peer: string, now: Nanos): Result<Invited, GroupError> {
    var (users, target) := EnsurePeerUser(b.users, peer);
    var members := b.state.members;
    if target == inviter then Err(SelfInvite)
    else if target in members && members[target].status == Banned then Err(MemberBanned)
    else
      var members' := if target in members && members[target].status == Active then members
                      else members[target := CleanMember(now)];
      Ok(Invited(b.state.(members := members'), users, b.ids + [target]))
  }

  function InviteAll(b: Invited, inviter: UserId, peers: seq<string>, now: Nanos): Result<Invited, GroupError> {
    if peers == [] then Ok(b) else
      var before :- InviteAll(b, inviter, peers[..|peers| - 1], now);
      InviteOne(before, inviter, peers[|peers| - 1], now)
  }

  /** The inviter's standing, checked before and again under the group lock. */
  function MayInvite(s: State, inviter: UserId, isServerAdmin: bool): Result<(), GroupError> {
    if s.group.status != STATUS_ACTIVE then Err(GroupClosed)
    else if isServerAdmin then Ok(())
    else if inviter !in s.members then Err(NotMember)
    else if s.members[inviter].status != Active then Err(MemberInactive)
    else if s.members[inviter].role != Owner && s.members[inviter].role != Admin then Err(Forbidden)
    else Ok(())
  }

  /** A server administrator, or an active owner or admin of the group; and the group is active. */
  predicate IsInviter(s: State, user: UserId, isServerAdmin: bool) {
    && s.group.status == "active"
    && (isServerAdmin || (IsActive(s, user) && (s.members[user].role == Owner || s.members[user].role == Admin)))
  }

  lemma MayInviteExactly(s: State, inviter: UserId, isServerAdmin: bool)
    ensures var r := MayInvite(s, inviter, isServerAdmin);
      && (r.Ok? <==> IsInviter(s, inviter, isServerAdmin))
      && (r == Err(GroupClosed) <==> s.group.status != "active")
      && (r == Err(NotMember) <==> s.group.status == "active" && !isServerAdmin && inviter !in s.members)
      && (r == Err(MemberInactive) <==>
          s.group.status == "active" && !isServerAdmin && inviter in s.members && !IsActive(s, inviter))
  {
  }

  function InviteTx(s: State, users: Users, inviter: UserId, isServerAdmin: bool, peers: seq<string>, now: Nanos)
    : Result<Invited, GroupError>
  {
    var _ :- MayInvite(s, inviter, isServerAdmin);
    InviteAll(Invited(s, users, []), inviter, peers, now)
  }

  /** A peer that makes the whole batch fail. */
  predicate Blocks(s: State, users: Users, inviter: UserId, peer: string) {
    peer in users.byPeer &&
    (users.byPeer[peer] == inviter ||
     (users.byPeer[peer] in s.members && s.members[users.byPeer[peer]].status == Banned))
  }

  /** u' is u with the missing ones of the peers added under new ids. */
  ghost predicate UsersDone(u: Users, u': Users, peers: seq<string>) {
    && UsersOk(u')
    && u.next <= u'.next
    && (forall p :: p in u'.byPeer <==> p in u.byPeer || p in peers)
    && (forall p | p in u'.byPeer :: if p in u.byPeer then u'.byPeer[p] == u.byPeer[p] else u'.byPeer[p] >= u.next)
  }

  /** s' is s with the listed users active, and nothing else about s changed. */
  ghost predicate MembersDone(s: State, s': State, ids: seq<UserId>, now: Nanos) {
    && s'.group == s.group
    && (forall u :: u in s'.members <==> u in s.members || u in ids)
    && (forall u | u in s'.members ::
          if u in s.members && (u !in ids || s.members[u].status == Active) then s'.members[u] == s.members[u]
          else JustJoined(s'.members[u], now))
  }

  /** What a batch has done to the tables after the given peers. */
  ghost predicate BatchDone(s: State, users: Users, b: Invited, peers: seq<string>, now: Nanos) {
    && UsersDone(users, b.users, peers)
    && MembersDone(s, b.state, b.ids, now)
    && |b.ids| == |peers|
    && forall i | 0 <= i < |peers| :: peers[i] in b.users.byPeer && b.ids[i] == b.users.byPeer[peers[i]]
  }

  /** Rows exist only for users that exist. */
  ghost predicate MembersKnown(s: State, users: Users) {
    forall u | u in s.members :: u < users.next
  }

  lemma EnsureKeepsUsers(users: Users, u: Users, peers: seq<string>, peer: string)
    requires UsersOk(users) && UsersDone(users, u, peers)
    ensures var (u', target) := EnsurePeerUser(u, peer);
      && UsersDone(users, u', peers + [peer])
      && peer in u'.byPeer && u'.byPeer[peer] == target
      && forall p | p in u.byPeer :: u'.byPeer[p] == u.byPeer[p]
  {
  }

  lemma TargetIsNew(users: Users, u: Users, ids: seq<UserId>, peers: seq<string>, peer: string)
    requires UsersOk(u) && |ids| == |peers| && peer !in peers
    requires forall i | 0 <= i < |peers| :: peers[i] in u.byPeer && ids[i] == u.byPeer[peers[i]]
    ensures EnsurePeerUser(u, peer).1 !in ids
  {
    forall i | 0 <= i < |ids| ensures ids[i] != EnsurePeerUser(u, peer).1 {
      assert peers[i] in peers;
    }
  }

  lemma InviteOneDone(s: State, users: Users, inviter: UserId, b: Invited, peers: seq<string>, peer: string, now: Nanos)
    requires UsersOk(users) && MembersKnown(s, users) && inviter < users.next
    requires BatchDone(s, users, b, peers, now) && peer !in peers
    ensures var r := InviteOne(b, inviter, peer, now);
      && (r.Err? <==> Blocks(s, users, inviter, peer))
      && (r.Ok? ==> BatchDone(s, users, r.value, peers + [peer], now))
  {
    EnsureKeepsUsers(users, b.users, peers, peer);
    TargetIsNew(users, b.users, b.ids, peers, peer);
    var (users', target) := EnsurePeerUser(b.users, peer);
    assert target in b.state.members <==> target in s.members;
    var r := InviteOne(b, inviter, peer, now);
    if r.Ok? {
      assert MembersDone(s, r.value.state, b.ids + [target], now);
    }
  }

  ghost predicate AnyBlocks(s: State, users: Users, inviter: UserId, peers: seq<string>) {
    exists i :: 0 <= i < |peers| && Blocks(s, users, inviter, peers[i])
  }

  lemma AnyBlocksLast(s: State, users: Users, inviter: UserId, front: seq<string>, last: string)
    ensures AnyBlocks(s, users, inviter, front + [last]) <==>
            AnyBlocks(s, users, inviter, front) || Blocks(s, users, inviter, last)
  {
    var peers := front + [last];
    if AnyBlocks(s, users, inviter, front) {
      var i :| 0 <= i < |front| && Blocks(s, users, inviter, front[i]);
      assert peers[i] == front[i];
    }
    assert peers[|front|] == last;
  }

  lemma InviteAllLast(b: Invited, inviter: UserId, front: seq<string>, last: string, now: Nanos)
    ensures var before := InviteAll(b, inviter, front, now);
      InviteAll(b, inviter, front + [last], now) ==
      if before.Err? then before else InviteOne(before.value, inviter, last, now)
  {
    assert (front + [last])[..|front|] == front;
  }

  /**
   All or nothing: the batch fails exactly when some peer is the inviter or is
   banned, and otherwise every peer is an active member, in the order given.
   */
  lemma {:induction false} InviteAllDone(s: State, users: Users, inviter: UserId, peers: seq<string>, now: Nanos)
    requires UsersOk(users) && MembersKnown(s, users) && inviter < users.next && Distinct(peers)
    ensures var r := InviteAll(Invited(s, users, []), inviter, peers, now);
      && (r.Err? <==> AnyBlocks(s, users, inviter, peers))
      && (r.Ok? ==> BatchDone(s, users, r.value, peers, now))
  {
    if peers != [] {
      var front, last := peers[..|peers| - 1], peers[|peers| - 1];
      InviteAllDone(s, users, inviter, front, now);
      assert peers == front + [last];
      AnyBlocksLast(s, users, inviter, front, last);
      InviteAllLast(Invited(s, users, []), inviter, front, last, now);
      var before := InviteAll(Invited(s, users, []), inviter, front, now);
      if before.Ok? { InviteOneDone(s, users, inviter, before.value, front, last, now); }
    }
  }

  lemma InvitedIdsDistinct(s: State, users: Users, b: Invited, peers: seq<string>, now: Nanos)
    requires BatchDone(s, users, b, peers, now) && Distinct(peers)
    ensures Distinct(b.ids)
  {
  }

  /** Trimming such a list's values again changes nothing, so the user lookup sees them as they are. */
  lemma PeersAreTrimmed(values: seq<string>, peer: string)
    requires peer in Unique(Trimmed(values), "")
    ensures peer != "" && Trim(peer) == peer
  {
    UniqueIsFirstOccurrences(Trimmed(values), "");
    var i :| 0 <= i < |Trimmed(values)| && Trimmed(values)[i] == peer;
    TrimTwice(values[i]);
  }

  /**
   The batch as requested: it succeeds exactly when the inviter may invite and
   no peer blocks it, and then BatchDone says what every row of both tables is.
   */
  lemma InviteIsAllOrNothing(s: State, users: Users, inviter: UserId, isServerAdmin: bool, values: seq<string>,
                             now: Nanos)
    requires UsersOk(users) && MembersKnown(s, users) && inviter < users.next
    ensures var peers := Unique(Trimmed(values), "");
      var r := InviteTx(s, users, inviter, isServerAdmin, peers, now);
      && (r.Ok? <==> IsInviter(s, inviter, isServerAdmin) && !AnyBlocks(s, users, inviter, peers))
      && (r.Ok? ==> BatchDone(s, users, r.value, peers, now) && Distinct(r.value.ids))
  {
    var peers := Unique(Trimmed(values), "");
    UniqueIsFirstOccurrences(Trimmed(values), "");
    InviteAllDone(s, users, inviter, peers, now);
    var r := InviteTx(s, users, inviter, isServerAdmin, peers, now);
    if r.Ok? { InvitedIdsDistinct(s, users, r.value, peers, now); }
  }
}
