/** The group, member and user tables as the service's transactions change them in place. */
module GroupStore {
  import opened Common
  import opened Permissions
  import opened GroupMembers
  import opened BatchInvite
  import opened Text

  class GroupTables {
    var group: Group
    var members: map<UserId, Membership>
    var users: Users

    ghost function Current(): State
      reads this
    {
      State(group, members)
    }

    predicate IsActive(user: UserId)
      reads this
    {
      user in members && members[user].status == Active
    }

    /** At most this user's row was inserted or changed. */
    twostate predicate OnlyRow(user: UserId)
      reads this
    {
      user in members && members == old(members)[user := members[user]]
    }

    /** CreateWithOwner: the group row and the owner's member row in one transaction. */
    constructor (owner: UserId, details: Details, joinMode: string, defaultPermissions: Bits, users: Users, now: Nanos)
      ensures Current() == NewGroup(owner, details, joinMode, defaultPermissions, now)
      ensures this.users == users
      ensures group.owner == owner && group.details == details && group.policy == Policy(0, 300, 0)
      ensures group.status == "active" && group.joinMode == joinMode && group.defaultPermissions == defaultPermissions
      ensures group.settingsVersion == 1
      ensures members.Keys == {owner}
      ensures members[owner].role == Owner && JustJoined(members[owner].(role := Member), now)
    {
      group := Group(owner, details, DEFAULT_POLICY, STATUS_ACTIVE, joinMode, defaultPermissions, 1);
      members := map[owner := Membership(Owner, Active, None, 0, 0, now)];
      this.users := users;
    }

    method Join(user: UserId, now: Nanos) returns (r: Result<(), GroupError>)
      modifies this`members
      ensures match JoinTx(old(Current()), user, now)
        case Ok(s) => Current() == s && r == Ok(())
        case Err(e) => Current() == old(Current()) && r == Err(e)
      ensures r.Ok? ==>
        && OnlyRow(user)
        && if old(IsActive(user)) then members[user] == old(members[user]) else JustJoined(members[user], now)
      ensures r.Ok? <==>
        && group.status == "active" && group.joinMode == "open"
        && !(user in old(members) && old(members[user]).status == Banned)
      ensures r == Err(GroupClosed) <==> group.status != "active"
      ensures r == Err(JoinNotAllowed) <==> group.status == "active" && group.joinMode != "open"
    {
      if group.status != STATUS_ACTIVE {
        return Err(GroupClosed);
      }
      if group.joinMode != JOIN_OPEN {
        return Err(JoinNotAllowed);
      }
      if user in members {
        var existing := members[user];
        if existing.status == Banned {
          return Err(MemberBanned);
        }
        if existing.status == Active {
          return Ok(());
        }
        existing := existing.(role := Member);
        existing := existing.(status := Active);
        existing := existing.(joinedAt := now);
        existing := existing.(mutedUntil := None);
        existing := existing.(allow := 0, deny := 0);
        members := members[user := existing];
        return Ok(());
      }
      members := members[user := Membership(Member, Active, None, 0, 0, now)];
      r := Ok(());
    }

    method Leave(user: UserId) returns (r: Result<(), GroupError>)
      modifies this`members
      ensures match LeaveTx(old(Current()), user)
        case Ok(s) => Current() == s && r == Ok(())
        case Err(e) => Current() == old(Current()) && r == Err(e)
      ensures r.Ok? ==>
        && old(IsActive(user))
        && user != group.owner
        && OnlyRow(user)
        && members[user] == old(members[user]).(status := Left, mutedUntil := None)
      ensures r.Ok? <==> old(IsActive(user)) && group.owner != user && old(members)[user].role != Owner
      ensures r == Err(NotMember) <==> user !in old(members)
      ensures r == Err(MemberInactive) <==> user in old(members) && !old(IsActive(user))
    {
      if user !in members {
        return Err(NotMember);
      }
      var m := members[user];
      if m.status != Active {
        return Err(MemberInactive);
      }
      if group.owner == user || m.role == Owner {
        return Err(Forbidden);
      }
      m := m.(status := Left);
      m := m.(mutedUntil := None);
      members := members[user := m];
      r := Ok(());
    }

    /** The transaction of TransferOwnership; the admin console's differs in not naming the old owner. */
    method Transfer(user: Option<UserId>, target: UserId) returns (r: Result<(), GroupError>)
      modifies this`group, this`members
      ensures match (if user.Some? then TransferTx(old(Current()), user.value, target)
                     else AdminTransferTx(old(Current()), target))
        case Ok(s) => Current() == s && r == Ok(())
        case Err(e) => Current() == old(Current()) && r == Err(e)
      ensures r.Ok? ==>
        && old(IsActive(target)) && group.owner == target
        && members.Keys == old(members.Keys)
        && (forall u | u in members ::
              members[u] == old(members[u]).(role := if u == target then Owner
                                                     else if u == old(group.owner) then Admin
                                                     else old(members[u]).role))
        && group == old(group).(owner := target, settingsVersion := old(group.settingsVersion) + 1)
      ensures r.Ok? <==>
        && (user.Some? ==> user.value == old(group.owner))
        && old(group.owner) in old(members) && old(IsActive(target))
      ensures r == Err(OwnerChanged) <==> user.Some? && user.value != old(group.owner)
    {
      var locked := group;
      if user.Some? && locked.owner != user.value {
        return Err(OwnerChanged);
      }
      if locked.owner !in members || target !in members {
        return Err(MemberNotFound);
      }
      if members[target].status != Active {
        return Err(MemberInactive);
      }
      members := members[locked.owner := members[locked.owner].(role := Admin)];
      members := members[target := members[target].(role := Owner)];
      locked := locked.(owner := target);
      locked := locked.(settingsVersion := locked.settingsVersion + 1);
      group := locked;
      r := Ok(());
    }

    method Dissolve()
      modifies this`group
      ensures Current() == DissolveTx(old(Current()))
      ensures group.status == STATUS_CLOSED
      ensures group == if old(group.status) == STATUS_CLOSED then old(group)
                       else old(group).(status := STATUS_CLOSED, settingsVersion := old(group.settingsVersion) + 1)
    {
      var locked := group;
      if locked.status == STATUS_CLOSED {
        return;
      }
      locked := locked.(status := STATUS_CLOSED);
      locked := locked.(settingsVersion := locked.settingsVersion + 1);
      group := locked;
    }

    static method EditDetails(current: Details, input: Details) returns (d: Details)
      ensures d == EditedDetails(current, input)
      ensures d.title == if Trim(input.title) == "" then current.title else Trim(input.title)
      ensures d.about == Trim(input.about) && d.avatar == Trim(input.avatar)
      ensures d.memberListVisibility ==
        if input.memberListVisibility == "" then current.memberListVisibility else input.memberListVisibility
    {
      d := current;
      if Trim(input.title) != "" {
        d := d.(title := Trim(input.title));
      }
      d := d.(about := Trim(input.about));
      d := d.(avatar := Trim(input.avatar));
      if input.memberListVisibility != "" {
        d := d.(memberListVisibility := input.memberListVisibility);
      }
    }

    /** The unlocked half of UpdateGroup: reads the group and edits the copy. */
    method EditCopy(input: GroupInput) returns (g: Group)
      ensures g == Edited(group, input)
      ensures g.owner == group.owner && g.settingsVersion == group.settingsVersion + 1
      ensures g.policy == group.policy && g.defaultPermissions == group.defaultPermissions
      ensures g.joinMode == if input.joinMode == "" then group.joinMode else input.joinMode
      ensures g.status == if input.status == "" then group.status else input.status
      ensures g.details.title ==
        if Trim(input.details.title) == "" then group.details.title else Trim(input.details.title)
      ensures g.details.about == Trim(input.details.about) && g.details.avatar == Trim(input.details.avatar)
    {
      g := group;
      var details := EditDetails(g.details, input.details);
      g := g.(details := details);
      if input.joinMode != "" {
        g := g.(joinMode := input.joinMode);
      }
      if input.status != "" {
        g := g.(status := input.status);
      }
      g := g.(settingsVersion := g.settingsVersion + 1);
    }

    /** The write of the copy, at whatever time: it replaces the settings and never the owner. */
    method Save(copy: Group)
      modifies this`group
      ensures Current() == SaveSettings(old(Current()), copy)
      ensures group.owner == old(group.owner) && group == copy.(owner := group.owner)
    {
      group := group.(details := copy.details, policy := copy.policy);
      group := group.(joinMode := copy.joinMode, defaultPermissions := copy.defaultPermissions);
      group := group.(settingsVersion := copy.settingsVersion, status := copy.status);
    }

    /** UpdateGroup by a member, when nothing comes between its read and its write. */
    method UpdateGroup(operator: UserId, input: GroupInput) returns (r: Result<(), GroupError>)
      modifies this`group
      ensures r.Ok? <==> old(Acts(Current(), operator, 0x2000))
      ensures group == if r.Ok? then Edited(old(group), input) else old(group)
    {
      ActsExactly(Current(), operator, PERM_EDIT_GROUP_INFO);
      var m :- ActiveMember(State(group, members), operator);
      if !HasPermission(PermissionsOf(State(group, members), m), PERM_EDIT_GROUP_INFO) {
        return Err(Forbidden);
      }
      var copy := EditCopy(input);
      Save(copy);
      r := Ok(());
    }

    /** UpdateMessagePolicy when nothing comes between its checks and its transaction. */
    method UpdateMessagePolicy(operator: UserId, policy: Policy) returns (r: Result<(), GroupError>)
      modifies this`group
      ensures match CheckPolicy(old(Current()), operator, policy)
        case Ok(_) => Current() == PolicyTx(old(Current()), policy) && r == Ok(())
        case Err(e) => Current() == old(Current()) && r == Err(e)
      ensures r.Ok? ==>
        && old(IsActive(operator)) && group.policy == policy
        && policy.ttlSeconds >= 0 && policy.retractSeconds >= 0 && policy.cooldownSeconds >= 0
        && group == old(group).(policy := policy, settingsVersion := old(group.settingsVersion) + 1)
      ensures r.Ok? <==>
        && old(Acts(Current(), operator, 0x1000))
        && policy.ttlSeconds >= 0 && policy.retractSeconds >= 0 && policy.cooldownSeconds >= 0
      ensures r == Err(InvalidPolicy) <==> r.Err? && old(Acts(Current(), operator, 0x1000))
    {
      ActsExactly(Current(), operator, PERM_MANAGE_MESSAGE_POLICY);
      var m :- ActiveMember(State(group, members), operator);
      if !HasPermission(PermissionsOf(State(group, members), m), PERM_MANAGE_MESSAGE_POLICY) {
        return Err(Forbidden);
      }
      if policy.ttlSeconds < 0 || policy.retractSeconds < 0 || policy.cooldownSeconds < 0 {
        return Err(InvalidPolicy);
      }
      var locked := group;
      locked := locked.(policy := policy);
      locked := locked.(settingsVersion := locked.settingsVersion + 1);
      group := locked;
      r := Ok(());
    }

    method BanMember(operator: UserId, target: UserId) returns (r: Result<(), GroupError>)
      modifies this`members
      ensures match Ban(old(Current()), operator, target)
        case Ok(s) => Current() == s && r == Ok(())
        case Err(e) => Current() == old(Current()) && r == Err(e)
      ensures r.Ok? ==>
        && OnlyRow(target)
        && members[target] == old(members[target]).(status := Banned, mutedUntil := None)
      ensures r.Ok? <==> old(MayManage(Current(), operator, target, 0x8000))
    {
      var m :- RequireManageableTarget(operator, target, PERM_BAN_MEMBERS);
      m := m.(status := Banned);
      m := m.(mutedUntil := None);
      members := members[target := m];
      r := Ok(());
    }

    method MuteMember(operator: UserId, target: UserId, seconds: int, now: Nanos) returns (r: Result<(), GroupError>)
      modifies this`members
      ensures match Mute(old(Current()), operator, target, seconds, now)
        case Ok(s) => Current() == s && r == Ok(())
        case Err(e) => Current() == old(Current()) && r == Err(e)
      ensures r.Ok? ==>
        && OnlyRow(target)
        && members[target] == old(members[target]).(mutedUntil := members[target].mutedUntil)
      ensures r.Ok? && 0 < seconds <= MAX_SECONDS ==> members[target].mutedUntil == Some(now + seconds * SECOND)
      ensures r.Ok? && seconds <= 0 ==> members[target].mutedUntil == None
      ensures r.Ok? <==> old(MayManage(Current(), operator, target, 0x4000))
    {
      var m :- RequireManageableTarget(operator, target, PERM_MUTE_MEMBERS);
      var until := None;
      if seconds > 0 {
        until := Some(now + DurationOfSeconds(seconds));
      }
      m := m.(mutedUntil := until);
      members := members[target := m];
      r := Ok(());
    }

    method UpdateMemberPermissions(operator: UserId, target: UserId, allow: Bits, deny: Bits)
      returns (r: Result<(), GroupError>)
      modifies this`members
      ensures match SetPermissions(old(Current()), operator, target, allow, deny)
        case Ok(s) => Current() == s && r == Ok(())
        case Err(e) => Current() == old(Current()) && r == Err(e)
      ensures r.Ok? ==>
        && OnlyRow(target)
        && members[target] == old(members[target]).(allow := allow, deny := deny)
      ensures r.Ok? <==> old(MayManage(Current(), operator, target, 0x1_0000))
    {
      var m :- RequireManageableTarget(operator, target, PERM_SET_MEMBER_PERMISSIONS);
      m := m.(allow := allow);
      m := m.(deny := deny);
      members := members[target := m];
      r := Ok(());
    }

    method RequireManageableTarget(operator: UserId, target: UserId, perm: Bits)
      returns (r: Result<Membership, GroupError>)
      ensures r == ManageableTarget(Current(), operator, target, perm)
      ensures IsPermission(perm) ==> (r.Ok? <==> MayManage(Current(), operator, target, perm))
      ensures r.Ok? ==> target in members && r.value == members[target]
      ensures r == Err(NotMember) <==> operator !in members
      ensures r == Err(MemberInactive) <==> operator in members && !IsActive(operator)
      ensures r == Err(GroupClosed) <==> IsActive(operator) && group.status != "active"
      ensures IsPermission(perm) ==>
        (r == Err(MemberNotFound) <==> Acts(Current(), operator, perm) && target !in members)
    {
      if IsPermission(perm) { ManageableExactly(State(group, members), operator, target, perm); }
      if operator !in members {
        return Err(NotMember);
      }
      var op := members[operator];
      if op.status != Active {
        return Err(MemberInactive);
      }
      if group.status != STATUS_ACTIVE {
        return Err(GroupClosed);
      }
      var perms := EffectivePermissions(op.role, group.defaultPermissions, op.allow, op.deny);
      if !HasPermission(perms, perm) {
        return Err(Forbidden);
      }
      if target !in members {
        return Err(MemberNotFound);
      }
      var m := members[target];
      if m.role == Owner {
        return Err(Forbidden);
      }
      if RoleRank(op.role) <= RoleRank(m.role) && op.role != Owner {
        return Err(Forbidden);
      }
      r := Ok(m);
    }

    method SetGroupAdmin(mayAssign: bool, target: UserId, isAdmin: bool) returns (r: Result<(), GroupError>)
      modifies this`members
      ensures match SetAdmin(old(Current()), mayAssign, target, isAdmin)
        case Ok(s) => Current() == s && r == Ok(())
        case Err(e) => Current() == old(Current()) && r == Err(e)
      ensures r.Ok? ==>
        && mayAssign
        && old(IsActive(target))
        && OnlyRow(target)
        && members[target] == old(members[target]).(role := members[target].role)
        && members[target].role == (if isAdmin then Admin
                                    else if old(members[target]).role == Admin then Member
                                    else old(members[target]).role)
      ensures r.Ok? <==>
        group.status == "active" && mayAssign && old(IsActive(target)) && old(members)[target].role != Owner
      ensures r == Err(GroupClosed) <==> group.status != "active"
      ensures r == Err(MemberNotFound) <==> group.status == "active" && mayAssign && target !in old(members)
    {
      if group.status != STATUS_ACTIVE {
        return Err(GroupClosed);
      }
      if !mayAssign {
        return Err(Forbidden);
      }
      if target !in members {
        return Err(MemberNotFound);
      }
      var m := members[target];
      if m.role == Owner {
        return Err(Forbidden);
      }
      if m.status != Active {
        return Err(MemberInactive);
      }
      if isAdmin {
        m := m.(role := Admin);
      } else if m.role == Admin {
        m := m.(role := Member);
      }
      members := members[target := m];
      r := Ok(());
    }

    /** InviteMembersByPeerIDs: on any error both tables are as before. */
    method Invite(inviter: UserId, isServerAdmin: bool, values: seq<string>, now: Nanos)
      returns (r: Result<seq<UserId>, GroupError>)
      modifies this`members, this`users
      ensures var peers := Unique(Trimmed(values), "");
        if peers == [] then r == Err(InvalidUser) && Current() == old(Current()) && users == old(users) else
        match InviteTx(old(Current()), old(users), inviter, isServerAdmin, peers, now)
        case Ok(b) => Current() == b.state && users == b.users && r == Ok(b.ids)
        case Err(e) => Current() == old(Current()) && users == old(users) && r == Err(e)
      ensures old(UsersOk(users) && MembersKnown(Current(), users)) && inviter < old(users.next) ==>
        var peers := Unique(Trimmed(values), "");
        && (r.Ok? <==>
            && peers != [] && old(IsInviter(Current(), inviter, isServerAdmin))
            && !old(AnyBlocks(Current(), users, inviter, peers)))
        && (r.Ok? ==> BatchDone(old(Current()), old(users), Invited(Current(), users, r.value), peers, now))
    {
      if UsersOk(users) && MembersKnown(Current(), users) && inviter < users.next {
        InviteIsAllOrNothing(Current(), users, inviter, isServerAdmin, values, now);
      }
      var peers := UniqueNonBlankStrings(values);
      if |peers| == 0 {
        return Err(InvalidUser);
      }
      var may := MayInvite(State(group, members), inviter, isServerAdmin);
      if may.Err? {
        return Err(may.error);
      }
      var savedMembers, savedUsers := members, users;
      ghost var start := Invited(Current(), users, []);
      var ids := [];
      for i := 0 to |peers|
        invariant group == old(group)
        invariant InviteAll(start, inviter, peers[..i], now) == Ok(Invited(Current(), users, ids))
      {
        InviteAllNext(start, inviter, peers, i, now);
        var (users', target) := EnsurePeerUser(users, peers[i]);
        users := users';
        if target == inviter {
          InviteAllFails(start, inviter, peers, i + 1, now);
          members, users := savedMembers, savedUsers;
          return Err(SelfInvite);
        }
        if target in members {
          if members[target].status == Banned {
            InviteAllFails(start, inviter, peers, i + 1, now);
            members, users := savedMembers, savedUsers;
            return Err(MemberBanned);
          }
          if members[target].status != Active {
            members := members[target := CleanMember(now)];
          }
        } else {
          members := members[target := CleanMember(now)];
        }
        ids := ids + [target];
      }
      assert peers[..|peers|] == peers;
      r := Ok(ids);
    }
  }

  lemma InviteAllNext(b: Invited, inviter: UserId, peers: seq<string>, n: nat, now: Nanos)
    requires n < |peers| && InviteAll(b, inviter, peers[..n], now).Ok?
    ensures InviteAll(b, inviter, peers[..n + 1], now) ==
            InviteOne(InviteAll(b, inviter, peers[..n], now).value, inviter, peers[n], now)
  {
    assert peers[..n + 1][..n] == peers[..n];
  }

  /** Once a prefix of the peers fails, the whole batch fails with the same error. */
  lemma {:induction false} InviteAllFails(b: Invited, inviter: UserId, peers: seq<string>, n: nat, now: Nanos)
    requires n <= |peers| && InviteAll(b, inviter, peers[..n], now).Err?
    ensures InviteAll(b, inviter, peers, now) == Err(InviteAll(b, inviter, peers[..n], now).error)
    decreases |peers|
  {
    if n == |peers| {
      assert peers[..n] == peers;
    } else {
      var front := peers[..|peers| - 1];
      assert front[..n] == peers[..n];
      InviteAllFails(b, inviter, front, n, now);
    }
  }
}
