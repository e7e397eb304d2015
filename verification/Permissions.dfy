/** Roles and permission bits of group members. */
module Permissions {

  datatype Role = Owner | Admin | Member | Restricted

  type Bits = bv64

  const PERM_SEND_TEXT: Bits := 0x1
  const PERM_REPLY: Bits := 0x20
  const PERM_FORWARD: Bits := 0x40
  const PERM_DELETE_MESSAGES: Bits := 0x200
  const PERM_VIEW_MEMBERS: Bits := 0x400
  const PERM_BYPASS_SLOWMODE: Bits := 0x800
  const PERM_MANAGE_MESSAGE_POLICY: Bits := 0x1000
  const PERM_EDIT_GROUP_INFO: Bits := 0x2000
  const PERM_MUTE_MEMBERS: Bits := 0x4000
  const PERM_BAN_MEMBERS: Bits := 0x8000
  const PERM_SET_MEMBER_PERMISSIONS: Bits := 0x10000

  const ALL_PERMISSIONS: Bits := 0x7FFF_FFFF_FFFF_FFFF

  function RoleRank(role: Role): nat {
    match role
    case Owner => 4
    case Admin => 3
    case Member => 2
    case Restricted => 1
  }

  function BasePermissions(role: Role, groupDefault: Bits): Bits {
    match role
    case Owner => ALL_PERMISSIONS
    case Admin =>
      groupDefault | PERM_DELETE_MESSAGES | PERM_VIEW_MEMBERS | PERM_BYPASS_SLOWMODE | PERM_MANAGE_MESSAGE_POLICY
      | PERM_EDIT_GROUP_INFO | PERM_MUTE_MEMBERS | PERM_BAN_MEMBERS | PERM_SET_MEMBER_PERMISSIONS
    case Member => groupDefault
    case Restricted => 0
  }

  function EffectivePermissions(role: Role, groupDefault: Bits, allow: Bits, deny: Bits): Bits {
    if role == Owner then ALL_PERMISSIONS
    else (BasePermissions(role, groupDefault) | allow) & !deny
  }

  predicate HasPermission(perms: Bits, perm: Bits) {
    perms & perm == perm
  }

  /** Who may manage or moderate whom, once the permission bit is there. */
  predicate Outranks(operator: Role, target: Role) {
    !(RoleRank(operator) <= RoleRank(target) && operator != Owner)
  }

  lemma MaskedBits(x: Bits, deny: Bits, perm: Bits)
    ensures ((x & !deny) & perm) & deny == 0
  {
  }

  lemma MaskedPart(x: Bits, deny: Bits, perm: Bits)
    requires (x & !deny) & perm == perm
    ensures x & perm == perm
  {
  }

  lemma UnmaskedBits(x: Bits, deny: Bits, perm: Bits)
    requires x & perm == perm && perm & deny == 0
    ensures (x & !deny) & perm == perm
  {
  }

  lemma MaskExactly(x: Bits, deny: Bits, perm: Bits)
    ensures HasPermission(x & !deny, perm) <==> perm & deny == 0 && HasPermission(x, perm)
  {
    if HasPermission(x & !deny, perm) {
      MaskedBits(x, deny, perm);
      MaskedPart(x, deny, perm);
    } else if HasPermission(x, perm) && perm & deny == 0 {
      UnmaskedBits(x, deny, perm);
    }
  }

  /** Whoever is not the owner has exactly the permissions that are given by role or allowance and not denied. */
  lemma EffectiveExactly(role: Role, groupDefault: Bits, allow: Bits, deny: Bits, perm: Bits)
    requires role != Owner
    ensures HasPermission(EffectivePermissions(role, groupDefault, allow, deny), perm) <==>
            perm & deny == 0 && HasPermission(BasePermissions(role, groupDefault) | allow, perm)
  {
    MaskExactly(BasePermissions(role, groupDefault) | allow, deny, perm);
  }

  lemma OrChain(x: Bits)
    ensures x | 0x200 | 0x400 | 0x800 | 0x1000 | 0x2000 | 0x4000 | 0x8000 | 0x10000 == x | 0x1FE00
  {
  }

  /**
   An admin has the group's defaults and bits 9 to 16: deleting, viewing members,
   bypassing slow mode, policy, group info, muting, banning and overrides.
   */
  lemma AdminBase(groupDefault: Bits)
    ensures BasePermissions(Admin, groupDefault) == groupDefault | 0x1FE00
  {
    OrChain(groupDefault);
  }

  /** Bits given by role or allowance; an admin's own are bits 9 to 16. */
  function GivenBits(role: Role, groupDefault: Bits, allow: Bits): Bits {
    match role
    case Owner => 0x7FFF_FFFF_FFFF_FFFF
    case Admin => groupDefault | 0x1FE00 | allow
    case Member => groupDefault | allow
    case Restricted => allow
  }

  /** Who holds a permission: the owner any, and others those that are given and not denied. */
  predicate Holds(role: Role, groupDefault: Bits, allow: Bits, deny: Bits, perm: Bits) {
    role == Owner || (perm & deny == 0 && HasPermission(GivenBits(role, groupDefault, allow), perm))
  }

  /** Any of the bits that permissions use. */
  predicate IsPermission(perm: Bits) {
    perm & 0x8000_0000_0000_0000 == 0
  }

  lemma FullMask(perm: Bits)
    requires perm & 0x8000_0000_0000_0000 == 0
    ensures 0x7FFF_FFFF_FFFF_FFFF & perm == perm
  {
  }

  lemma OrNothing(allow: Bits)
    ensures 0 | allow == allow
  {
  }

  lemma OwnerHolds(groupDefault: Bits, allow: Bits, deny: Bits, perm: Bits)
    requires IsPermission(perm)
    ensures HasPermission(EffectivePermissions(Owner, groupDefault, allow, deny), perm)
  {
    FullMask(perm);
    assert EffectivePermissions(Owner, groupDefault, allow, deny) == 0x7FFF_FFFF_FFFF_FFFF;
  }

  lemma GivenIsBase(role: Role, groupDefault: Bits, allow: Bits)
    requires role != Owner
    ensures BasePermissions(role, groupDefault) | allow == GivenBits(role, groupDefault, allow)
  {
    match role
    case Admin => AdminBase(groupDefault);
    case Member =>
    case Restricted => OrNothing(allow);
  }

  lemma OtherHolds(role: Role, groupDefault: Bits, allow: Bits, deny: Bits, perm: Bits)
    requires role != Owner
    ensures HasPermission(EffectivePermissions(role, groupDefault, allow, deny), perm) <==>
            Holds(role, groupDefault, allow, deny, perm)
  {
    EffectiveExactly(role, groupDefault, allow, deny, perm);
    GivenIsBase(role, groupDefault, allow);
  }

  /** The mask expression, for every role. */
  lemma HoldsExactly(role: Role, groupDefault: Bits, allow: Bits, deny: Bits, perm: Bits)
    requires role == Owner ==> IsPermission(perm)
    ensures HasPermission(EffectivePermissions(role, groupDefault, allow, deny), perm) <==>
            Holds(role, groupDefault, allow, deny, perm)
  {
    if role == Owner {
      OwnerHolds(groupDefault, allow, deny, perm);
    } else {
      OtherHolds(role, groupDefault, allow, deny, perm);
    }
  }

  /** The owner is above everybody else, an admin above members and restricted ones, a member above these. */
  predicate IsAbove(operator: Role, target: Role) {
    match operator
    case Owner => target != Owner
    case Admin => target == Member || target == Restricted
    case Member => target == Restricted
    case Restricted => false
  }

  lemma AboveExactly(operator: Role, target: Role)
    ensures IsAbove(operator, target) <==> target != Owner && Outranks(operator, target)
  {
  }
}
