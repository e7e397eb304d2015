/** What a run of one group does to a member's restrictions and to the group's settings, and by whose step. */
module GroupHistory {
  import opened Common
  import opened Permissions
  import opened GroupMembers
  import opened BatchInvite
  import opened GroupRuns

  // --------------------------------------------------------------- moderation

  /** The step lets somebody in who was not active. */
  predicate Readmits(s: System, e: Event, user: UserId) {
    Admits(s, e) && !IsActive(s.state, user) && IsActive(Step(s, e).state, user)
  }

  predicate CommitsLeave(s: System, e: Event, user: UserId) {
    e.Commits? && e.call in s.calls && s.calls[e.call] == Leaving(user)
  }

  predicate BansFromAbove(s: System, e: Event, user: UserId) {
    e.Bans? && e.target == user && StandsAbove(s.state, e.operator, user, PERM_BAN_MEMBERS)
  }

  predicate MutesFromAbove(s: System, e: Event, user: UserId) {
    e.Mutes? && e.target == user && StandsAbove(s.state, e.operator, user, PERM_MUTE_MEMBERS)
  }

  predicate OverridesFromAbove(s: System, e: Event, user: UserId) {
    e.SetsPermissions? && e.target == user && StandsAbove(s.state, e.operator, user, PERM_SET_MEMBER_PERMISSIONS)
  }

  /** Bans, mutes and overrides of the two rows. */
  predicate SameRestrictions(m: Membership, m': Membership) {
    (m'.status == Banned <==> m.status == Banned) && m'.mutedUntil == m.mutedUntil
    && m'.allow == m.allow && m'.deny == m.deny
  }

  /** Whatever the step has done to the row's restrictions, it has done from above. */
  ghost predicate IsFromAbove(s: System, e: Event, user: UserId)
    requires user in s.state.members
  {
    var s' := Step(s, e).state;
    && user in s'.members
    && var m, m' := s.state.members[user], s'.members[user];
       && (m'.status != m.status ==> m'.status == Banned && BansFromAbove(s, e, user))
       && (m'.mutedUntil != m.mutedUntil ==> MutesFromAbove(s, e, user) || BansFromAbove(s, e, user))
       && ((m'.allow, m'.deny) != (m.allow, m.deny) ==> OverridesFromAbove(s, e, user))
  }

  lemma BanIsFromAbove(s: System, e: Event, user: UserId)
    requires user in s.state.members && e.Bans?
    ensures IsFromAbove(s, e, user)
  {
    if Ban(s.state, e.operator, e.target).Ok? {
      ManagedFromAbove(s.state, e.operator, e.target, PERM_BAN_MEMBERS);
    }
  }

  lemma MuteIsFromAbove(s: System, e: Event, user: UserId)
    requires user in s.state.members && e.Mutes?
    ensures IsFromAbove(s, e, user)
  {
    if Mute(s.state, e.operator, e.target, e.seconds, e.now).Ok? {
      ManagedFromAbove(s.state, e.operator, e.target, PERM_MUTE_MEMBERS);
    }
  }

  lemma OverrideIsFromAbove(s: System, e: Event, user: UserId)
    requires user in s.state.members && e.SetsPermissions?
    ensures IsFromAbove(s, e, user)
  {
    if SetPermissions(s.state, e.operator, e.target, e.allow, e.deny).Ok? {
      ManagedFromAbove(s.state, e.operator, e.target, PERM_SET_MEMBER_PERMISSIONS);
    }
  }

  lemma RoleStepRestrictsNobody(s: System, e: Event, user: UserId)
    requires user in s.state.members && (e.SetsAdmin? || e.Dissolves?)
    ensures IsFromAbove(s, e, user)
  {
  }

  lemma DirectStepIsFromAbove(s: System, e: Event, user: UserId)
    requires user in s.state.members && IsDirect(e)
    ensures IsFromAbove(s, e, user)
  {
    if e.Bans? {
      BanIsFromAbove(s, e, user);
    } else if e.Mutes? {
      MuteIsFromAbove(s, e, user);
    } else if e.SetsPermissions? {
      OverrideIsFromAbove(s, e, user);
    } else {
      RoleStepRestrictsNobody(s, e, user);
    }
  }

  /** A transaction changes the restrictions of somebody it lets in, or lifts the mute of somebody who leaves. */
  lemma TransactKeepsRestrictions(s: State, users: Users, call: Call, now: Nanos, user: UserId)
    requires user in s.members && !call.Inviting?
    ensures var s' := Transact(s, users, call, now).0;
      && user in s'.members
      && (SameRestrictions(s.members[user], s'.members[user])
          || (call.Joining? && !IsActive(s, user) && IsActive(s', user) && s.members[user].status != Banned)
          || (call == Leaving(user)
              && SameRestrictions(s.members[user].(mutedUntil := None), s'.members[user])))
  {
  }

  lemma InviteKeepsRestrictions(s: State, users: Users, call: Call, now: Nanos, user: UserId)
    requires OneOwner(s) && UsualRows(s) && UsersOk(users) && MembersKnown(s, users)
    requires CallOk(call, users) && call.Inviting? && user in s.members
    ensures var s' := Transact(s, users, call, now).0;
      && user in s'.members
      && (s'.members[user] == s.members[user]
          || (!IsActive(s, user) && IsActive(s', user) && s.members[user].status != Banned))
  {
    InviteAllDone(s, users, call.inviter, call.peers, now);
    InviteKeeps(s, users, call, now);
    assert RowKept(s, Transact(s, users, call, now).0, user);
    var tx := InviteTx(s, users, call.inviter, call.isServerAdmin, call.peers, now);
    if tx.Ok? { InvitedRow(s, tx.value.state, tx.value.ids, now, user); }
  }

  lemma InvitedRow(s: State, s': State, ids: seq<UserId>, now: Nanos, user: UserId)
    requires MembersDone(s, s', ids, now) && user in s.members
    ensures user in s'.members
    ensures s'.members[user] == s.members[user] || (!IsActive(s, user) && JustJoined(s'.members[user], now))
  {
  }

  lemma OtherStepsKeepRows(s: System, e: Event)
    requires !IsDirect(e) && !(e.Commits? && e.call in s.calls)
    ensures Step(s, e).state == s.state
  {
  }

  lemma CommitIsFromAbove(s: System, e: Event, user: UserId)
    requires Good(s) && user in s.state.members && e.Commits? && e.call in s.calls
    ensures user in Step(s, e).state.members
    ensures var m, m' := s.state.members[user], Step(s, e).state.members[user];
      SameRestrictions(m, m') || (Readmits(s, e, user) && m.status != Banned && m'.status == Active)
      || (CommitsLeave(s, e, user) && SameRestrictions(m.(mutedUntil := None), m'))
  {
    var call := s.calls[e.call];
    if call.Inviting? {
      assert CallOk(call, s.users);
      InviteKeepsRestrictions(s.state, s.users, call, e.now, user);
    } else {
      TransactKeepsRestrictions(s.state, s.users, call, e.now, user);
    }
  }

  /**
   In any reachable state, a step bans a member only from above; it changes a
   mute only from above, or when the member leaves or is let in again; and it
   changes overrides only from above or when the member is let in again.
   */
  lemma RestrictedOnlyFromAbove(s: System, e: Event, user: UserId)
    requires Good(s) && user in s.state.members
    ensures user in Step(s, e).state.members
    ensures var m, m' := s.state.members[user], Step(s, e).state.members[user];
      && (m.status != Banned && m'.status == Banned ==> BansFromAbove(s, e, user))
      && (m'.mutedUntil != m.mutedUntil ==>
            MutesFromAbove(s, e, user) || BansFromAbove(s, e, user) || CommitsLeave(s, e, user) || Readmits(s, e, user))
      && ((m'.allow, m'.deny) != (m.allow, m.deny) ==> OverridesFromAbove(s, e, user) || Readmits(s, e, user))
  {
    if IsDirect(e) {
      DirectStepIsFromAbove(s, e, user);
    } else if e.Commits? && e.call in s.calls {
      CommitIsFromAbove(s, e, user);
    } else {
      OtherStepsKeepRows(s, e);
    }
  }

  lemma PrefixShift(s: System, events: seq<Event>, k: nat)
    requires k < |events| - 1
    ensures Run(Step(s, events[0]), events[1..][..k]) == Run(s, events[..k + 1])
  {
    assert events[..k + 1][1..] == events[1..][..k];
  }

  /** Whoever has become banned in a run was banned at some step of it by somebody who then stood above. */
  lemma {:induction false} BannedFromAbove(s: System, events: seq<Event>, user: UserId) returns (k: nat)
    requires Good(s) && user in s.state.members && s.state.members[user].status != Banned
    requires user in Run(s, events).state.members && Run(s, events).state.members[user].status == Banned
    ensures k < |events| && BansFromAbove(Run(s, events[..k]), events[k], user)
    decreases |events|
  {
    var s1 := Step(s, events[0]);
    StepKeepsGood(s, events[0]);
    RestrictedOnlyFromAbove(s, events[0], user);
    if s1.state.members[user].status == Banned {
      k := 0;
      assert Run(s, events[..0]) == s;
    } else {
      var j := BannedFromAbove(s1, events[1..], user);
      PrefixShift(s, events, j);
      k := j + 1;
    }
  }

  // ----------------------------------------------------------------- admins

  predicate IsAdmin(s: System, user: UserId) {
    user in s.state.members && s.state.members[user].role == Admin
  }

  predicate HandsOver(s: System, e: Event) {
    e.Commits? && e.call in s.calls && (s.calls[e.call].Transferring? || s.calls[e.call].Assigning?)
  }

  /** A server administrator or the owner appoints the user, or the user hands over the group. */
  predicate Appoints(s: System, e: Event, user: UserId) {
    || (e.SetsAdmin? && e.isAdmin && e.target == user && (e.isServerAdmin || e.operator == s.state.group.owner))
    || (HandsOver(s, e) && user == s.state.group.owner)
  }

  lemma TransactAppoints(s: State, users: Users, call: Call, now: Nanos, user: UserId)
    requires !call.Inviting? && !(user in s.members && s.members[user].role == Admin)
    ensures var s' := Transact(s, users, call, now).0;
      user in s'.members && s'.members[user].role == Admin ==>
      (call.Transferring? || call.Assigning?) && user == s.group.owner
  {
  }

  lemma InviteAppointsNobody(s: State, users: Users, call: Call, now: Nanos, user: UserId)
    requires UsersOk(users) && MembersKnown(s, users) && CallOk(call, users) && call.Inviting?
    requires !(user in s.members && s.members[user].role == Admin)
    ensures var s' := Transact(s, users, call, now).0; !(user in s'.members && s'.members[user].role == Admin)
  {
    InviteAllDone(s, users, call.inviter, call.peers, now);
  }

  lemma DirectStepAppoints(s: System, e: Event, user: UserId)
    requires IsDirect(e) && !IsAdmin(s, user) && IsAdmin(Step(s, e), user)
    ensures Appoints(s, e, user)
  {
  }

  lemma StepAppoints(s: System, e: Event, user: UserId)
    requires Good(s) && !IsAdmin(s, user) && IsAdmin(Step(s, e), user)
    ensures Appoints(s, e, user)
  {
    if IsDirect(e) {
      DirectStepAppoints(s, e, user);
    } else if e.Commits? && e.call in s.calls {
      var call := s.calls[e.call];
      if call.Inviting? {
        InviteAppointsNobody(s.state, s.users, call, e.now, user);
      } else {
        TransactAppoints(s.state, s.users, call, e.now, user);
      }
    } else {
      OtherStepsKeepRows(s, e);
    }
  }

  /** Whoever has become an admin in a run was appointed at some step of it, or was the owner and handed over. */
  lemma {:induction false} AdminByAppointment(s: System, events: seq<Event>, user: UserId) returns (k: nat)
    requires Good(s) && !IsAdmin(s, user) && IsAdmin(Run(s, events), user)
    ensures k < |events| && Appoints(Run(s, events[..k]), events[k], user)
    decreases |events|
  {
    var s1 := Step(s, events[0]);
    StepKeepsGood(s, events[0]);
    if IsAdmin(s1, user) {
      StepAppoints(s, events[0], user);
      k := 0;
      assert Run(s, events[..0]) == s;
    } else {
      var j := AdminByAppointment(s1, events[1..], user);
      PrefixShift(s, events, j);
      k := j + 1;
    }
  }

  // ------------------------------------------------------------ group settings

  predicate Saves(s: System, e: Event) {
    e.Commits? && e.call in s.calls && s.calls[e.call].Saving?
  }

  /** The write of a copy whose status is another one than closed. */
  predicate Reopens(s: System, e: Event) {
    Saves(s, e) && s.calls[e.call].settings.status != STATUS_CLOSED
  }

  lemma {:induction false} InviteAllKeepsGroup(b: Invited, inviter: UserId, peers: seq<string>, now: Nanos)
    ensures var r := InviteAll(b, inviter, peers, now); r.Ok? ==> r.value.state.group == b.state.group
  {
    if peers != [] { InviteAllKeepsGroup(b, inviter, peers[..|peers| - 1], now); }
  }

  /** What each step makes of status and settings version. */
  lemma StepSettings(s: System, e: Event)
    ensures var g, g' := s.state.group, Step(s, e).state.group;
      if Saves(s, e) then g' == s.calls[e.call].settings.(owner := g.owner)
      else
        && (g'.status == g.status || (e.Dissolves? && g'.status == STATUS_CLOSED))
        && g'.settingsVersion >= g.settingsVersion
  {
    if e.Commits? && e.call in s.calls && s.calls[e.call].Inviting? {
      var call := s.calls[e.call];
      InviteAllKeepsGroup(Invited(s.state, s.users, []), call.inviter, call.peers, e.now);
    }
  }

  predicate ClosedThroughout(s: System, events: seq<Event>)
    decreases |events|
  {
    s.state.group.status == STATUS_CLOSED && (events == [] || ClosedThroughout(Step(s, events[0]), events[1..]))
  }

  predicate NeverReopens(s: System, events: seq<Event>)
    decreases |events|
  {
    events == [] || (!Reopens(s, events[0]) && NeverReopens(Step(s, events[0]), events[1..]))
  }

  /** A closed group stays closed through a run exactly if no copy with another status is written to it. */
  lemma {:induction false} StaysClosedIff(s: System, events: seq<Event>)
    requires s.state.group.status == STATUS_CLOSED
    ensures ClosedThroughout(s, events) <==> NeverReopens(s, events)
    decreases |events|
  {
    if events != [] {
      StepSettings(s, events[0]);
      if !Reopens(s, events[0]) { StaysClosedIff(Step(s, events[0]), events[1..]); }
    }
  }

  /** A group that is not active is active again only by the write of a copy that says so. */
  lemma {:induction false} ActiveOnlyBySave(s: System, events: seq<Event>) returns (k: nat)
    requires s.state.group.status != STATUS_ACTIVE && Run(s, events).state.group.status == STATUS_ACTIVE
    ensures k < |events|
    ensures var before := Run(s, events[..k]);
      Saves(before, events[k]) && before.calls[events[k].call].settings.status == STATUS_ACTIVE
    decreases |events|
  {
    var s1 := Step(s, events[0]);
    StepSettings(s, events[0]);
    if s1.state.group.status == STATUS_ACTIVE {
      k := 0;
      assert Run(s, events[..0]) == s;
    } else {
      var j := ActiveOnlyBySave(s1, events[1..]);
      PrefixShift(s, events, j);
      k := j + 1;
    }
  }

  /** The settings version goes down exactly when a copy is written that was read too long ago. */
  lemma VersionFallsIff(s: System, e: Event)
    ensures Step(s, e).state.group.settingsVersion < s.state.group.settingsVersion <==>
      Saves(s, e) && s.calls[e.call].settings.settingsVersion < s.state.group.settingsVersion
  {
    StepSettings(s, e);
  }

  const NO_CHANGE := GroupInput(Details("", "", "", ""), "", "")

  function LateSave(call: CallId, now: Nanos): seq<Event> {
    [Updates(call, NO_CHANGE), Dissolves, Commits(call, now)]
  }

  /** A save that was read before the group was dissolved reopens it, though it asks for no change of status. */
  lemma LateSaveReopens(s: System, call: CallId, now: Nanos)
    requires call !in s.calls && s.state.group.status == STATUS_ACTIVE
    ensures Run(s, LateSave(call, now)[..2]).state.group.status == STATUS_CLOSED
    ensures Run(s, LateSave(call, now)).state.group.status == STATUS_ACTIVE
  {
    var e := LateSave(call, now);
    var s1 := Step(s, e[0]);
    var s2 := Step(s1, e[1]);
    assert e[1..] == [e[1], e[2]] && e[1..][1..] == [e[2]] && [e[2]][1..] == [];
    assert e[..2][1..] == [e[1]] && [e[1]][1..] == [];
    assert Run(s, e[..2]) == Run(s1, [e[1]]) == Run(s2, []) == s2;
    assert Run(s, e) == Run(s1, e[1..]) == Run(s2, [e[2]]) == Run(Step(s2, e[2]), []);
  }
}
