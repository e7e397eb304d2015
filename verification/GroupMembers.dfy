/**
 One group as it is stored, its members, and the transactions that change who
 belongs to it with which role.
 */
module GroupMembers {
  import opened Common
  import opened Permissions
  import opened Text

  datatype MemberStatus = Active | Left | Kicked | Banned

  datatype Membership = Membership(
    role: Role,
    status: MemberStatus,
    mutedUntil: Option<Nanos>,
    allow: Bits,
    deny: Bits,
    joinedAt: Nanos)

  const STATUS_ACTIVE := "active"
  const STATUS_CLOSED := "closed"
  const JOIN_OPEN := "open"

  /** The columns that only describe the group. */
  datatype Details = Details(title: string, about: string, avatar: string, memberListVisibility: string)

  datatype Policy = Policy(ttlSeconds: int, retractSeconds: int, cooldownSeconds: int)

  const DEFAULT_POLICY := Policy(0, 300, 0)

  datatype Group = Group(
    owner: UserId,
    details: Details,
    policy: Policy,
    status: string,
    joinMode: string,
    defaultPermissions: Bits,
    settingsVersion: nat)

  datatype State = State(group: Group, members: map<UserId, Membership>)

  datatype GroupError =
    | GroupClosed | JoinNotAllowed | MemberBanned | NotMember | MemberInactive | Forbidden
    | OwnerChanged | MemberNotFound | InvalidUser | SelfInvite | InvalidPolicy

  /** A plain member since now, with no mute and no overrides. */
  predicate JustJoined(m: Membership, now: Nanos) {
    && m.role == Member && m.status == Active && m.joinedAt == now
    && m.mutedUntil == None && m.allow == 0 && m.deny == 0
  }

  /** What joining or being invited makes of a row, whatever it held before. */
  function CleanMember(now: Nanos): (m: Membership)
    ensures JustJoined(m, now)
  {
    Membership(Member, Active, None, 0, 0, now)
  }

  function NewGroup(owner: UserId, details: Details, joinMode: string, defaultPermissions: Bits, now: Nanos): State {
    State(Group(owner, details, DEFAULT_POLICY, STATUS_ACTIVE, joinMode, defaultPermissions, 1),
          map[owner := Membership(Owner, Active, None, 0, 0, now)])
  }

  // ------------------------------------------- transactions under the group lock

  function JoinTx(s: State, user: UserId, now: Nanos): Result<State, GroupError> {
    if s.group.status != STATUS_ACTIVE then Err(GroupClosed)
    else if s.group.joinMode != JOIN_OPEN then Err(JoinNotAllowed)
    else if user in s.members && s.members[user].status == Banned then Err(MemberBanned)
    else if user in s.members && s.members[user].status == Active then Ok(s)
    else Ok(s.(members := s.members[user := CleanMember(now)]))
  }

  function LeaveTx(s: State, user: UserId): Result<State, GroupError> {
    if user !in s.members then Err(NotMember)
    else if s.members[user].status != Active then Err(MemberInactive)
    else if s.group.owner == user || s.members[user].role == Owner then Err(Forbidden)
    else Ok(s.(members := s.members[user := s.members[user].(status := Left, mutedUntil := None)]))
  }

  function SetRole(members: map<UserId, Membership>, user: UserId, role: Role): map<UserId, Membership> {
    if user in members then members[user := members[user].(role := role)] else members
  }

  /** The owner's row is written before the target's; they may be the same row. */
  function HandOver(s: State, target: UserId): Result<State, GroupError> {
    if s.group.owner !in s.members || target !in s.members then Err(MemberNotFound)
    else if s.members[target].status != Active then Err(MemberInactive)
    else
      Ok(State(s.group.(owner := target, settingsVersion := s.group.settingsVersion + 1),
               SetRole(SetRole(s.members, s.group.owner, Admin), target, Owner)))
  }

  function TransferTx(s: State, user: UserId, target: UserId): Result<State, GroupError> {
    if s.group.owner != user then Err(OwnerChanged) else HandOver(s, target)
  }

  function AdminTransferTx(s: State, target: UserId): Result<State, GroupError> {
    HandOver(s, target)
  }

  function DissolveTx(s: State): State {
    if s.group.status == STATUS_CLOSED then s
    else s.(group := s.group.(status := STATUS_CLOSED, settingsVersion := s.group.settingsVersion + 1))
  }

  // --------------------------------------------------- unlocked, one step each

  /** requireActiveMembership: a member who is active, in a group that is. */
  function ActiveMember(s: State, user: UserId): Result<Membership, GroupError> {
    if user !in s.members then Err(NotMember)
    else if s.members[user].status != Active then Err(MemberInactive)
    else if s.group.status != STATUS_ACTIVE then Err(GroupClosed)
    else Ok(s.members[user])
  }

  function PermissionsOf(s: State, m: Membership): Bits {
    EffectivePermissions(m.role, s.group.defaultPermissions, m.allow, m.deny)
  }

  /** requireManageableTarget: the operator's own standing, then the target's. */
  function ManageableTarget(s: State, operator: UserId, target: UserId, perm: Bits): Result<Membership, GroupError> {
    var op :- ActiveMember(s, operator);
    if !HasPermission(PermissionsOf(s, op), perm) then Err(Forbidden)
    else if target !in s.members then Err(MemberNotFound)
    else if s.members[target].role == Owner then Err(Forbidden)
    else if !Outranks(op.role, s.members[target].role) then Err(Forbidden)
    else Ok(s.members[target])
  }

  function Ban(s: State, operator: UserId, target: UserId): Result<State, GroupError> {
    var m :- ManageableTarget(s, operator, target, PERM_BAN_MEMBERS);
    Ok(s.(members := s.members[target := m.(status := Banned, mutedUntil := None)]))
  }

  function Mute(s: State, operator: UserId, target: UserId, seconds: int, now: Nanos): Result<State, GroupError> {
    var m :- ManageableTarget(s, operator, target, PERM_MUTE_MEMBERS);
    var until := if seconds > 0 then Some(now + DurationOfSeconds(seconds)) else None;
    Ok(s.(members := s.members[target := m.(mutedUntil := until)]))
  }

  function SetPermissions(s: State, operator: UserId, target: UserId, allow: Bits, deny: Bits)
    : Result<State, GroupError>
  {
    var m :- ManageableTarget(s, operator, target, PERM_SET_MEMBER_PERMISSIONS);
    Ok(s.(members := s.members[target := m.(allow := allow, deny := deny)]))
  }

  /** SetGroupAdmin by the owner, by a server administrator, or from the admin console. */
  function SetAdmin(s: State, mayAssign: bool, target: UserId, isAdmin: bool): Result<State, GroupError> {
    if s.group.status != STATUS_ACTIVE then Err(GroupClosed)
    else if !mayAssign then Err(Forbidden)
    else if target !in s.members then Err(MemberNotFound)
    else if s.members[target].role == Owner then Err(Forbidden)
    else if s.members[target].status != Active then Err(MemberInactive)
    else
      var m := s.members[target];
      var role := if isAdmin then Admin else if m.role == Admin then Member else m.role;
      Ok(s.(members := s.members[target := m.(role := role)]))
  }

  datatype GroupInput = GroupInput(details: Details, joinMode: string, status: string)

  /** A blank title and an empty visibility leave their columns as they are; about and avatar are always replaced. */
  function EditedDetails(d: Details, input: Details): Details {
    Details(if Trim(input.title) != "" then Trim(input.title) else d.title,
            Trim(input.about), Trim(input.avatar),
            if input.memberListVisibility != "" then input.memberListVisibility else d.memberListVisibility)
  }

  function Edited(g: Group, input: GroupInput): Group {
    g.(details := EditedDetails(g.details, input.details),
       joinMode := if input.joinMode != "" then input.joinMode else g.joinMode,
       status := if input.status != "" then input.status else g.status,
       settingsVersion := g.settingsVersion + 1)
  }

  /** The write of UpdateGroup: every settings column, but not the owner's. */
  function SaveSettings(s: State, settings: Group): State {
    s.(group := settings.(owner := s.group.owner))
  }

  /** The unlocked checks of UpdateMessagePolicy. */
  function CheckPolicy(s: State, operator: UserId, policy: Policy): Result<(), GroupError> {
    var m :- ActiveMember(s, operator);
    if !HasPermission(PermissionsOf(s, m), PERM_MANAGE_MESSAGE_POLICY) then Err(Forbidden)
    else if policy.ttlSeconds < 0 || policy.retractSeconds < 0 || policy.cooldownSeconds < 0 then Err(InvalidPolicy)
    else Ok(())
  }

  /** Its transaction writes the three columns into the locked row, whatever has become of the group. */
  function PolicyTx(s: State, policy: Policy): State {
    s.(group := s.group.(policy := policy, settingsVersion := s.group.settingsVersion + 1))
  }

  lemma DissolvingTwiceIsOnce(s: State)
    ensures DissolveTx(s).group.status == STATUS_CLOSED && DissolveTx(DissolveTx(s)) == DissolveTx(s)
    ensures DissolveTx(s) == s.(group := s.group.(status := STATUS_CLOSED,
                                                  settingsVersion := DissolveTx(s).group.settingsVersion))
    ensures s.group.settingsVersion <= DissolveTx(s).group.settingsVersion <= s.group.settingsVersion + 1
  {
  }

  // ------------------------------------------------------ standing, written out

  predicate IsActive(s: State, user: UserId) {
    user in s.members && s.members[user].status == Active
  }

  /** An active member of an active group who holds the permission. */
  predicate Acts(s: State, user: UserId, perm: Bits) {
    && IsActive(s, user) && s.group.status == "active"
    && var m := s.members[user]; Holds(m.role, s.group.defaultPermissions, m.allow, m.deny, perm)
  }

  /** The operator acts on somebody whose role is below its own. */
  predicate MayManage(s: State, operator: UserId, target: UserId, perm: Bits) {
    && Acts(s, operator, perm)
    && target in s.members && IsAbove(s.members[operator].role, s.members[target].role)
  }

  lemma ActiveMemberExactly(s: State, user: UserId)
    ensures var r := ActiveMember(s, user);
      && (r.Ok? <==> IsActive(s, user) && s.group.status == "active")
      && (r.Ok? ==> r.value == s.members[user])
      && (r == Err(NotMember) <==> user !in s.members)
      && (r == Err(MemberInactive) <==> user in s.members && !IsActive(s, user))
      && (r.Err? ==> r.error == NotMember || r.error == MemberInactive || r.error == GroupClosed)
  {
  }

  lemma ActsExactly(s: State, user: UserId, perm: Bits)
    requires IsPermission(perm)
    ensures Acts(s, user, perm) <==>
      var r := ActiveMember(s, user); r.Ok? && HasPermission(PermissionsOf(s, r.value), perm)
  {
    if user in s.members {
      var m := s.members[user];
      HoldsExactly(m.role, s.group.defaultPermissions, m.allow, m.deny, perm);
    }
  }

  /** Managing succeeds exactly from above; without a member to manage, whoever acts is told so. */
  lemma ManageableExactly(s: State, operator: UserId, target: UserId, perm: Bits)
    requires IsPermission(perm)
    ensures var r := ManageableTarget(s, operator, target, perm);
      && (r.Ok? <==> MayManage(s, operator, target, perm))
      && (r.Ok? ==> r.value == s.members[target])
      && (r == Err(NotMember) <==> operator !in s.members)
      && (r == Err(MemberInactive) <==> operator in s.members && !IsActive(s, operator))
      && (r == Err(GroupClosed) <==> IsActive(s, operator) && s.group.status != "active")
      && (r == Err(MemberNotFound) <==> Acts(s, operator, perm) && target !in s.members)
  {
    ActsExactly(s, operator, perm);
    if operator in s.members && target in s.members {
      AboveExactly(s.members[operator].role, s.members[target].role);
    }
  }

  // -------------------------------------------------------------- invariants

  /** One member has role owner, it is the group's owner, and it is active. */
  ghost predicate OneOwner(s: State) {
    && s.group.owner in s.members
    && s.members[s.group.owner].role == Owner
    && s.members[s.group.owner].status == Active
    && forall u | u in s.members && s.members[u].role == Owner :: u == s.group.owner
  }

  /** The other roles and statuses the columns could hold are never written. */
  ghost predicate UsualRows(s: State) {
    forall u | u in s.members :: s.members[u].role != Restricted && s.members[u].status != Kicked
  }
}
