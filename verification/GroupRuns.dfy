/**
 Runs of one group. Join, Leave, Invite and both transfers check the group
 before they lock it, so any other step may come between the check and the
 transaction; so may it between UpdateGroup's read and its write, and between
 UpdateMessagePolicy's checks and its transaction.
 */
module GroupRuns {
  import opened Common
  import opened Permissions
  import opened GroupMembers
  import opened BatchInvite

  type CallId = nat

  /** A call whose unlocked check has passed. Saving holds the settings columns UpdateGroup is about to write. */
  datatype Call =
    | Joining(user: UserId)
    | Leaving(user: UserId)
    | Inviting(inviter: UserId, isServerAdmin: bool, peers: seq<string>)
    | Transferring(user: UserId, target: UserId)
    | Assigning(target: UserId)
    | Saving(settings: Group)
    | Regulating(operator: UserId, policy: Policy)

  datatype System = System(state: State, users: Users, calls: map<CallId, Call>)

  datatype Event =
    | LogsIn(peer: string)
    | Joins(call: CallId, user: UserId)
    | Leaves(call: CallId, user: UserId)
    | Invites(call: CallId, inviter: UserId, isServerAdmin: bool, values: seq<string>)
    | Transfers(call: CallId, user: UserId, target: UserId)
    | AdminTransfers(call: CallId, target: UserId)
    | Updates(call: CallId, input: GroupInput)
    | Regulates(call: CallId, operator: UserId, policy: Policy)
    | Commits(call: CallId, now: Nanos)
    | Aborts(call: CallId)
    | Bans(operator: UserId, target: UserId)
    | Mutes(operator: UserId, target: UserId, seconds: int, now: Nanos)
    | SetsPermissions(operator: UserId, target: UserId, allow: Bits, deny: Bits)
    | SetsAdmin(operator: UserId, isServerAdmin: bool, target: UserId, isAdmin: bool)
    | Dissolves

  /** The unlocked checks, made on the state as it is when the call comes in. */
  predicate Passes(s: State, users: Users, call: Call) {
    match call
    case Joining(user) => user < users.next && s.group.status == STATUS_ACTIVE && s.group.joinMode == JOIN_OPEN
    case Leaving(user) => IsActive(s, user) && s.group.owner != user && s.members[user].role != Owner
    case Inviting(inviter, isServerAdmin, peers) =>
      inviter < users.next && peers != [] && MayInvite(s, inviter, isServerAdmin).Ok?
    case Transferring(user, target) =>
      && IsActive(s, user) && s.group.status == STATUS_ACTIVE
      && s.members[user].role == Owner && s.group.owner == user
      && target != 0 && target != user
    case Assigning(target) => s.group.status == STATUS_ACTIVE && target != 0 && target != s.group.owner
    case Saving(settings) => true
    case Regulating(operator, policy) => CheckPolicy(s, operator, policy).Ok?
  }

  function Arrive(s: System, id: CallId, call: Call): System {
    if id !in s.calls && Passes(s.state, s.users, call) then s.(calls := s.calls[id := call]) else s
  }

  /** The tables after a transaction; a failing one rolls back. */
  function Transact(s: State, users: Users, call: Call, now: Nanos): (State, Users) {
    match call
    case Joining(user) => (StateOr(s, JoinTx(s, user, now)), users)
    case Leaving(user) => (StateOr(s, LeaveTx(s, user)), users)
    case Inviting(inviter, isServerAdmin, peers) =>
      var tx := InviteTx(s, users, inviter, isServerAdmin, peers, now);
      if tx.Ok? then (tx.value.state, tx.value.users) else (s, users)
    case Transferring(user, target) => (StateOr(s, TransferTx(s, user, target)), users)
    case Assigning(target) => (StateOr(s, AdminTransferTx(s, target)), users)
    case Saving(settings) => (SaveSettings(s, settings), users)
    case Regulating(_, policy) => (PolicyTx(s, policy), users)
  }

  function StateOr(s: State, tx: Result<State, GroupError>): State {
    if tx.Ok? then tx.value else s
  }

  function Step(s: System, e: Event): System {
    var st := s.state;
    match e
    case LogsIn(peer) => s.(users := EnsurePeerUser(s.users, peer).0)
    case Joins(call, user) => Arrive(s, call, Joining(user))
    case Leaves(call, user) => Arrive(s, call, Leaving(user))
    case Invites(call, inviter, isServerAdmin, values) =>
      Arrive(s, call, Inviting(inviter, isServerAdmin, Unique(Trimmed(values), "")))
    case Transfers(call, user, target) => Arrive(s, call, Transferring(user, target))
    case AdminTransfers(call, target) => Arrive(s, call, Assigning(target))
    case Updates(call, input) => Arrive(s, call, Saving(Edited(st.group, input)))
    case Regulates(call, operator, policy) => Arrive(s, call, Regulating(operator, policy))
    case Commits(call, now) =>
      if call !in s.calls then s else
      var (st', users') := Transact(st, s.users, s.calls[call], now);
      System(st', users', s.calls - {call})
    case Aborts(call) => s.(calls := s.calls - {call})
    case Bans(operator, target) => s.(state := StateOr(st, Ban(st, operator, target)))
    case Mutes(operator, target, seconds, now) => s.(state := StateOr(st, Mute(st, operator, target, seconds, now)))
    case SetsPermissions(operator, target, allow, deny) =>
      s.(state := StateOr(st, SetPermissions(st, operator, target, allow, deny)))
    case SetsAdmin(operator, isServerAdmin, target, isAdmin) =>
      s.(state := StateOr(st, SetAdmin(st, isServerAdmin || operator == st.group.owner, target, isAdmin)))
    case Dissolves => s.(state := DissolveTx(st))
  }

  function Run(s: System, events: seq<Event>): System
    decreases |events|
  {
    if events == [] then s else Run(Step(s, events[0]), events[1..])
  }

  // -------------------------------------------------------------- invariant

  ghost predicate CallOk(call: Call, users: Users) {
    match call
    case Joining(user) => user < users.next
    case Inviting(inviter, _, peers) => inviter < users.next && Distinct(peers)
    case _ => true
  }

  ghost predicate CallsOk(calls: map<CallId, Call>, users: Users) {
    forall id | id in calls :: CallOk(calls[id], users)
  }

  ghost predicate Good(s: System) {
    && OneOwner(s.state) && UsualRows(s.state)
    && UsersOk(s.users) && MembersKnown(s.state, s.users)
    && CallsOk(s.calls, s.users)
  }

  /** What every step keeps of one row of a group: a ban for good, and who becomes active only as a clean member. */
  ghost predicate RowKept(s: State, s': State, user: UserId) {
    && (user in s.members ==> user in s'.members)
    && (user in s.members && s.members[user].status == Banned ==> s'.members[user].status == Banned)
  }

  ghost predicate RowsKept(s: State, s': State) {
    forall user :: RowKept(s, s', user)
  }

  /** Nobody becomes active but as a clean member. */
  ghost predicate OnlyCleanlyActivated(s: State, s': State, now: Nanos) {
    forall user | !IsActive(s, user) && IsActive(s', user) :: JustJoined(s'.members[user], now)
  }

  ghost predicate NobodyActivated(s: State, s': State) {
    forall user | IsActive(s', user) :: IsActive(s, user)
  }

  // ------------------------------------------------------------- one commit

  lemma JoinKeeps(s: State, user: UserId, now: Nanos)
    requires OneOwner(s) && UsualRows(s)
    ensures var s' := StateOr(s, JoinTx(s, user, now)); OneOwner(s') && UsualRows(s') && RowsKept(s, s')
  {
  }

  lemma HandOverKeepsOwner(s: State, target: UserId)
    requires OneOwner(s)
    ensures OneOwner(StateOr(s, HandOver(s, target)))
  {
  }

  lemma HandOverKeeps(s: State, target: UserId)
    requires OneOwner(s) && UsualRows(s)
    ensures var s' := StateOr(s, HandOver(s, target)); OneOwner(s') && UsualRows(s') && RowsKept(s, s')
  {
    HandOverKeepsOwner(s, target);
    HandOverKeepsRows(s, target);
  }

  lemma HandOverKeepsRows(s: State, target: UserId)
    requires UsualRows(s)
    ensures var s' := StateOr(s, HandOver(s, target)); UsualRows(s') && RowsKept(s, s')
  {
  }

  /** s' is s with the row of somebody who is not the owner rewritten, and perhaps other settings. */
  ghost predicate Rewrites(s: State, s': State, target: UserId) {
    && target in s.members && target in s'.members
    && s'.group.owner == s.group.owner
    && s'.members == s.members[target := s'.members[target]]
    && s.members[target].role != Owner && s'.members[target].role !in {Owner, Restricted}
    && s'.members[target].status != Kicked
    && (s.members[target].status == Banned ==> s'.members[target].status == Banned)
    && (s'.members[target].status == Active ==> s.members[target].status == Active)
  }

  lemma RewriteKeeps(s: State, s': State, target: UserId)
    requires OneOwner(s) && UsualRows(s) && Rewrites(s, s', target)
    ensures OneOwner(s') && UsualRows(s') && RowsKept(s, s') && NobodyActivated(s, s')
  {
  }

  lemma MemberStepKeeps(s: State, call: Call, users: Users, now: Nanos)
    requires OneOwner(s) && UsualRows(s) && !call.Inviting?
    ensures var s' := Transact(s, users, call, now).0;
      OneOwner(s') && UsualRows(s') && RowsKept(s, s')
  {
    match call
    case Joining(user) => JoinKeeps(s, user, now);
    case Leaving(user) =>
      if LeaveTx(s, user).Ok? { RewriteKeeps(s, LeaveTx(s, user).value, user); }
    case Transferring(user, target) => HandOverKeeps(s, target);
    case Assigning(target) => HandOverKeeps(s, target);
    case Saving(_) =>
    case Regulating(_, _) =>
  }

  lemma MemberStepActivates(s: State, call: Call, users: Users, now: Nanos)
    requires !call.Inviting?
    ensures var s' := Transact(s, users, call, now).0;
      && (call.Joining? ==> OnlyCleanlyActivated(s, s', now))
      && (!call.Joining? ==> NobodyActivated(s, s'))
  {
  }

  lemma MemberStepKnown(s: State, call: Call, users: Users, now: Nanos)
    requires MembersKnown(s, users) && CallOk(call, users) && !call.Inviting?
    ensures Transact(s, users, call, now).1 == users
    ensures MembersKnown(Transact(s, users, call, now).0, users)
  {
  }

  /** A batch whose peers are all done has done nothing to the owner or to anybody banned. */
  lemma InvitedKeeps(s: State, users: Users, b: Invited, peers: seq<string>, now: Nanos)
    requires OneOwner(s) && UsualRows(s) && BatchDone(s, users, b, peers, now)
    requires forall u | u in b.ids && u in s.members :: s.members[u].status != Banned
    ensures OneOwner(b.state) && UsualRows(b.state) && RowsKept(s, b.state)
    ensures OnlyCleanlyActivated(s, b.state, now)
  {
    assert b.state.members[s.group.owner] == s.members[s.group.owner];
  }

  lemma InvitedNotBanned(s: State, users: Users, inviter: UserId, b: Invited, peers: seq<string>, now: Nanos)
    requires MembersKnown(s, users) && BatchDone(s, users, b, peers, now)
    requires forall i | 0 <= i < |peers| :: !Blocks(s, users, inviter, peers[i])
    ensures forall u | u in b.ids && u in s.members :: s.members[u].status != Banned
  {
    forall u | u in b.ids && u in s.members ensures s.members[u].status != Banned {
      var i :| 0 <= i < |b.ids| && b.ids[i] == u;
      assert !Blocks(s, users, inviter, peers[i]);
      assert b.users.byPeer[peers[i]] == u;
    }
  }

  lemma InvitedKnown(s: State, users: Users, b: Invited, peers: seq<string>, now: Nanos)
    requires MembersKnown(s, users) && BatchDone(s, users, b, peers, now)
    ensures MembersKnown(b.state, b.users)
  {
    forall u | u in b.state.members ensures u < b.users.next {
      if u !in s.members {
        var i :| 0 <= i < |b.ids| && b.ids[i] == u;
        assert b.users.byPeer[peers[i]] == u;
      }
    }
  }

  /** What a step keeps, and how it lets members become active. */
  ghost predicate KeepsAll(s: State, users: Users, s': State, users': Users) {
    && OneOwner(s') && UsualRows(s') && RowsKept(s, s')
    && UsersOk(users') && MembersKnown(s', users') && users.next <= users'.next
  }

  lemma InviteKeeps(s: State, users: Users, call: Call, now: Nanos)
    requires OneOwner(s) && UsualRows(s) && UsersOk(users) && MembersKnown(s, users)
    requires CallOk(call, users) && call.Inviting?
    ensures var (s', users') := Transact(s, users, call, now);
      KeepsAll(s, users, s', users') && OnlyCleanlyActivated(s, s', now)
  {
    var peers := call.peers;
    InviteAllDone(s, users, call.inviter, peers, now);
    var tx := InviteTx(s, users, call.inviter, call.isServerAdmin, peers, now);
    if tx.Ok? {
      InvitedNotBanned(s, users, call.inviter, tx.value, peers, now);
      InvitedKeeps(s, users, tx.value, peers, now);
      InvitedKnown(s, users, tx.value, peers, now);
    }
  }

  lemma TransactKeeps(s: State, users: Users, call: Call, now: Nanos)
    requires OneOwner(s) && UsualRows(s) && UsersOk(users) && MembersKnown(s, users) && CallOk(call, users)
    ensures var (s', users') := Transact(s, users, call, now);
      && KeepsAll(s, users, s', users')
      && (call.Joining? || call.Inviting? ==> OnlyCleanlyActivated(s, s', now))
      && (!call.Joining? && !call.Inviting? ==> NobodyActivated(s, s'))
  {
    if call.Inviting? {
      InviteKeeps(s, users, call, now);
    } else {
      MemberStepKeeps(s, call, users, now);
      MemberStepActivates(s, call, users, now);
      MemberStepKnown(s, call, users, now);
    }
  }

  // --------------------------------------------------- steps made in one go

  predicate IsDirect(e: Event) {
    e.Bans? || e.Mutes? || e.SetsPermissions? || e.SetsAdmin? || e.Dissolves?
  }

  lemma ManagingRewrites(s: State, operator: UserId, target: UserId)
    requires UsualRows(s)
    ensures forall s' | Ban(s, operator, target) == Ok(s') :: Rewrites(s, s', target)
    ensures forall s', seconds, now | Mute(s, operator, target, seconds, now) == Ok(s') :: Rewrites(s, s', target)
    ensures forall s', allow, deny | SetPermissions(s, operator, target, allow, deny) == Ok(s') ::
      Rewrites(s, s', target)
  {
  }

  lemma SetAdminRewrites(s: State, mayAssign: bool, target: UserId, isAdmin: bool)
    requires UsualRows(s)
    ensures var tx := SetAdmin(s, mayAssign, target, isAdmin); tx.Ok? ==> Rewrites(s, tx.value, target)
  {
  }

  lemma DirectStepRewrites(s: System, e: Event)
    requires UsualRows(s.state) && IsDirect(e)
    ensures var s' := Step(s, e);
      && s'.users == s.users && s'.calls == s.calls
      && if !e.Dissolves? && s'.state != s.state then Rewrites(s.state, s'.state, e.target)
         else s'.state.members == s.state.members && s'.state.group.owner == s.state.group.owner
  {
    if e.SetsAdmin? {
      SetAdminRewrites(s.state, e.isServerAdmin || e.operator == s.state.group.owner, e.target, e.isAdmin);
    } else if !e.Dissolves? {
      ManagingRewrites(s.state, e.operator, e.target);
    }
  }

  lemma DirectStepKeeps(s: System, e: Event)
    requires OneOwner(s.state) && UsualRows(s.state) && MembersKnown(s.state, s.users) && IsDirect(e)
    ensures var s' := Step(s, e);
      && s'.users == s.users && s'.calls == s.calls
      && OneOwner(s'.state) && UsualRows(s'.state) && RowsKept(s.state, s'.state)
      && MembersKnown(s'.state, s.users)
      && NobodyActivated(s.state, s'.state)
  {
    DirectStepRewrites(s, e);
    if !e.Dissolves? && Step(s, e).state != s.state {
      RewriteKeeps(s.state, Step(s, e).state, e.target);
    }
  }

  lemma LogInKeepsUsers(users: Users, peer: string)
    requires UsersOk(users)
    ensures UsersOk(EnsurePeerUser(users, peer).0) && users.next <= EnsurePeerUser(users, peer).0.next
  {
  }

  lemma ArriveKeeps(s: System, e: Event)
    requires CallsOk(s.calls, s.users) && !e.Commits? && !e.LogsIn? && !IsDirect(e)
    ensures var s' := Step(s, e);
      s'.state == s.state && s'.users == s.users && CallsOk(s'.calls, s'.users)
  {
    if e.Invites? {
      UniqueIsDistinct(Trimmed(e.values), "");
    }
  }

  lemma UniqueIsDistinct(values: seq<string>, blank: string)
    ensures Distinct(Unique(values, blank))
  {
    UniqueIsFirstOccurrences(values, blank);
  }

  /** Only the commit of a join or of an invitation lets anybody become active. */
  predicate Admits(s: System, e: Event) {
    e.Commits? && e.call in s.calls && (s.calls[e.call].Joining? || s.calls[e.call].Inviting?)
  }

  lemma StepKeepsGood(s: System, e: Event)
    requires Good(s)
    ensures var s' := Step(s, e);
      && Good(s') && RowsKept(s.state, s'.state)
      && (Admits(s, e) ==> OnlyCleanlyActivated(s.state, s'.state, e.now))
      && (!Admits(s, e) ==> NobodyActivated(s.state, s'.state))
  {
    if IsDirect(e) {
      DirectStepKeeps(s, e);
    } else if e.Commits? {
      if e.call in s.calls { TransactKeeps(s.state, s.users, s.calls[e.call], e.now); }
    } else if e.LogsIn? {
      LogInKeepsUsers(s.users, e.peer);
    } else {
      ArriveKeeps(s, e);
    }
  }

  // ----------------------------------------------------------- main results

  lemma {:induction false} RunKeepsGood(s: System, events: seq<Event>)
    requires Good(s)
    ensures Good(Run(s, events))
    decreases |events|
  {
    if events != [] {
      StepKeepsGood(s, events[0]);
      RunKeepsGood(Step(s, events[0]), events[1..]);
    }
  }

  /**
   From CreateWithOwner on, whatever calls overlap: one member has role owner,
   it is the group's owner and active, and only the roles and statuses this
   code writes occur.
   */
  lemma AlwaysOneOwner(owner: UserId, details: Details, joinMode: string, permissions: Bits, users: Users,
                       now: Nanos, events: seq<Event>)
    requires UsersOk(users) && owner < users.next
    ensures var end := Run(System(NewGroup(owner, details, joinMode, permissions, now), users, map[]), events).state;
      && OneOwner(end)
      && (forall u | u in end.members && u != end.group.owner :: end.members[u].role in {Admin, Member})
      && (forall u | u in end.members :: end.members[u].status in {Active, Left, Banned})
  {
    var start := System(NewGroup(owner, details, joinMode, permissions, now), users, map[]);
    assert Good(start);
    RunKeepsGood(start, events);
  }

  /** A banned member stays banned, and no row is ever lost. */
  lemma {:induction false} BanIsTerminal(s: System, events: seq<Event>, user: UserId)
    requires Good(s) && user in s.state.members
    ensures var end := Run(s, events).state;
      user in end.members && (s.state.members[user].status == Banned ==> end.members[user].status == Banned)
    decreases |events|
  {
    if events != [] {
      StepKeepsGood(s, events[0]);
      assert RowKept(s.state, Step(s, events[0]).state, user);
      BanIsTerminal(Step(s, events[0]), events[1..], user);
    }
  }

  /** The k-th step of a run makes the user active, as a member with nothing carried over. */
  ghost predicate ActivatedAt(s: System, events: seq<Event>, user: UserId, k: nat)
    requires k < |events|
  {
    var before := Run(s, events[..k]);
    && Admits(before, events[k])
    && !IsActive(before.state, user)
    && IsActive(Step(before, events[k]).state, user)
    && JustJoined(Step(before, events[k]).state.members[user], events[k].now)
  }

  lemma ActivatedLater(s: System, events: seq<Event>, user: UserId, k: nat)
    requires k + 1 < |events| && ActivatedAt(Step(s, events[0]), events[1..], user, k)
    ensures ActivatedAt(s, events, user, k + 1)
  {
    assert events[..k + 1][1..] == events[1..][..k];
  }

  /**
   Who is not active now, having left or never been in, and is active later,
   was let in by a join or an invitation in between, and that gave a row with
   role member, no overrides and no mute, whatever happened before.
   */
  lemma {:induction false} ReturnsOnlyAsCleanMember(s: System, events: seq<Event>, user: UserId) returns (k: nat)
    requires Good(s) && !IsActive(s.state, user) && IsActive(Run(s, events).state, user)
    ensures k < |events| && ActivatedAt(s, events, user, k)
    decreases |events|
  {
    var s1 := Step(s, events[0]);
    StepKeepsGood(s, events[0]);
    if IsActive(s1.state, user) {
      k := 0;
      assert Run(s, events[..0]) == s;
    } else {
      var j := ReturnsOnlyAsCleanMember(s1, events[1..], user);
      ActivatedLater(s, events, user, j);
      k := j + 1;
    }
  }

  // --------------------------------------------------- calls nothing disturbs

  /** The call comes in and commits at once. */
  function InOneGo(s: System, e: Event, call: CallId, now: Nanos): System {
    Step(Step(s, e), Commits(call, now))
  }

  /** A call with nothing between its check and its transaction does what the transaction does. */
  lemma UndisturbedCalls(s: System, call: CallId, user: UserId, now: Nanos)
    requires OneOwner(s.state) && call !in s.calls
    ensures user < s.users.next ==>
      InOneGo(s, Joins(call, user), call, now).state == StateOr(s.state, JoinTx(s.state, user, now))
    ensures InOneGo(s, Leaves(call, user), call, now).state == StateOr(s.state, LeaveTx(s.state, user))
  {
  }

  lemma UndisturbedSettings(s: System, call: CallId, operator: UserId, input: GroupInput, policy: Policy, now: Nanos)
    requires call !in s.calls
    ensures InOneGo(s, Updates(call, input), call, now).state == SaveSettings(s.state, Edited(s.state.group, input))
    ensures InOneGo(s, Regulates(call, operator, policy), call, now).state ==
      if CheckPolicy(s.state, operator, policy).Ok? then PolicyTx(s.state, policy) else s.state
  {
  }

  lemma UndisturbedInvite(s: System, call: CallId, inviter: UserId, isServerAdmin: bool, values: seq<string>,
                          now: Nanos)
    requires call !in s.calls && inviter < s.users.next && Unique(Trimmed(values), "") != []
    ensures var s' := InOneGo(s, Invites(call, inviter, isServerAdmin, values), call, now);
      var tx := InviteTx(s.state, s.users, inviter, isServerAdmin, Unique(Trimmed(values), ""), now);
      (s'.state, s'.users) == if tx.Ok? then (tx.value.state, tx.value.users) else (s.state, s.users)
  {
    MayInviteExactly(s.state, inviter, isServerAdmin);
  }

  /** The group is the target's, whose row says so, and the former owner is an admin. */
  predicate HandedOver(s: State, s': State, target: UserId) {
    && s.group.owner in s.members && target in s.members
    && s'.group == s.group.(owner := target, settingsVersion := s.group.settingsVersion + 1)
    && s'.members == s.members[s.group.owner := s.members[s.group.owner].(role := Admin)]
                              [target := s.members[target].(role := Owner)]
  }

  /** An active group can be handed to its active members. */
  predicate CanTake(s: State, target: UserId) {
    target != 0 && IsActive(s, target) && s.group.status == "active" && target != s.group.owner
  }

  /** A transfer takes place exactly when the owner names another active member of an active group. */
  lemma UndisturbedTransfer(s: System, call: CallId, user: UserId, target: UserId, now: Nanos)
    requires OneOwner(s.state) && call !in s.calls
    ensures var s' := InOneGo(s, Transfers(call, user, target), call, now).state;
      if user == s.state.group.owner && CanTake(s.state, target) then HandedOver(s.state, s', target)
      else s' == s.state
  {
  }

  /** From the admin console nobody has to be the owner. */
  lemma UndisturbedAdminTransfer(s: System, call: CallId, target: UserId, now: Nanos)
    requires OneOwner(s.state) && call !in s.calls
    ensures var s' := InOneGo(s, AdminTransfers(call, target), call, now).state;
      if CanTake(s.state, target) then HandedOver(s.state, s', target) else s' == s.state
  {
  }

  /** The owner that a transaction of this call may put in place of the current one. */
  function Successor(s: State, call: Call): UserId {
    match call
    case Transferring(user, target) => if user == s.group.owner then target else s.group.owner
    case Assigning(target) => target
    case _ => s.group.owner
  }

  /** The owner changes only by the commit of a transfer, to its active target, and the old owner becomes an admin. */
  lemma OwnerChangesByTransfer(s: System, e: Event)
    requires Good(s) && Step(s, e).state.group.owner != s.state.group.owner
    ensures e.Commits? && e.call in s.calls && Step(s, e).state.group.owner == Successor(s.state, s.calls[e.call])
    ensures IsActive(s.state, Step(s, e).state.group.owner)
    ensures s.state.group.owner in Step(s, e).state.members
    ensures Step(s, e).state.members[s.state.group.owner] == s.state.members[s.state.group.owner].(role := Admin)
  {
    if IsDirect(e) {
      DirectStepRewrites(s, e);
    }
    if e.Commits? && e.call in s.calls && s.calls[e.call].Inviting? {
      var call := s.calls[e.call];
      InviteAllDone(s.state, s.users, call.inviter, call.peers, e.now);
    }
  }

  /**
   An admin transfer whose target became owner since it was checked writes the
   same row as admin and then as owner: nothing but the settings version changes.
   */
  lemma TransferToTheOwnerChangesNothing(s: State)
    requires OneOwner(s)
    ensures AdminTransferTx(s, s.group.owner) ==
            Ok(s.(group := s.group.(settingsVersion := s.group.settingsVersion + 1)))
  {
    var o := s.group.owner;
    assert SetRole(SetRole(s.members, o, Admin), o, Owner) == s.members;
  }

  /** Another active member, with the permission and of a role above the target's. */
  predicate StandsAbove(s: State, operator: UserId, target: UserId, perm: Bits) {
    operator != target && MayManage(s, operator, target, perm)
  }

  /** A member who is banned, muted or given overrides is outranked by whoever did it, who holds the permission. */
  lemma ManagedFromAbove(s: State, operator: UserId, target: UserId, perm: Bits)
    requires ManageableTarget(s, operator, target, perm).Ok?
    ensures StandsAbove(s, operator, target, perm)
    ensures s.members[operator].role == Owner || perm & s.members[operator].deny == 0
  {
    var op := s.members[operator];
    AboveExactly(op.role, s.members[target].role);
    if op.role != Owner {
      OtherHolds(op.role, s.group.defaultPermissions, op.allow, op.deny, perm);
    }
  }
}
