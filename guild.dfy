/**
 * The Discord side of the synchroniser: each guild member's role ids, the tier
 * those roles stand for, and change_role (remove the old tier role, add the new one).
 */
module Guild {
  import opened Wrappers
  import opened Tiers

  /** Guild members by Discord id, each with their role ids in order. */
  type Members = map<int, seq<int>>

  /** `[REV_ROLES[role.id] for role in member.roles if role.id in ROLES.values()]`. */
  function TierRoles(roles: seq<int>): (ts: seq<Tier>)
    ensures |ts| <= |roles|
  {
    if roles == [] then []
    else
      var rest := TierRoles(roles[1..]);
      match TierOfRole(roles[0])
      case Some(t) => [t] + rest
      case None => rest
  }

  /** The member's current tier: the first of their roles that is a tier role. */
  function CurrentTier(roles: seq<int>): Option<Tier> {
    var ts := TierRoles(roles);
    if ts == [] then None else Some(ts[0])
  }

  /** A member holds at most one tier role, as the synchroniser assumes. */
  predicate SingleTier(roles: seq<int>) {
    |TierRoles(roles)| <= 1
  }

  /** `member.remove_roles(role)`: the member no longer has the role. */
  function RemoveRole(roles: seq<int>, id: int): (r: seq<int>)
    ensures forall x :: x in r <==> x in roles && x != id
  {
    if roles == [] then []
    else if roles[0] == id then RemoveRole(roles[1..], id)
    else [roles[0]] + RemoveRole(roles[1..], id)
  }

  /** `member.add_roles(role)`: the role is added unless the member already has it. */
  function AddRole(roles: seq<int>, id: int): (r: seq<int>)
    ensures forall x :: x in r <==> x in roles || x == id
  {
    if id in roles then roles else roles + [id]
  }

  /** change_role: remove the current tier role when there is one, then add the new role. */
  function ChangeRole(roles: seq<int>, newRole: int, currentRole: Option<int>): seq<int> {
    var kept := if currentRole.Some? then RemoveRole(roles, currentRole.value) else roles;
    AddRole(kept, newRole)
  }

  /** The tier roles of a list are those of its role ids that are tier role ids. */
  lemma {:induction false} TierRolesMembers(roles: seq<int>)
    ensures forall t :: t in TierRoles(roles) <==> RoleId(t) in roles
  {
    if roles != [] {
      TierRolesMembers(roles[1..]);
      forall t ensures t in TierRoles(roles) <==> RoleId(t) in roles {
        RevRolesInvertsRoles(t, roles[0]);
        if TierOfRole(roles[0]).Some? && TierOfRole(roles[0]).value != t {
          RolesInjective(t, TierOfRole(roles[0]).value);
        }
      }
    }
  }

  /** Tier roles after appending one more role id. */
  lemma {:induction false} TierRolesAppend(roles: seq<int>, id: int)
    ensures TierRoles(roles + [id]) ==
      TierRoles(roles) + (if TierOfRole(id).Some? then [TierOfRole(id).value] else [])
  {
    if roles != [] {
      assert (roles + [id])[0] == roles[0] && (roles + [id])[1..] == roles[1..] + [id];
      TierRolesAppend(roles[1..], id);
    } else {
      assert [id][1..] == [];
    }
  }

  /** A role list without any tier role id has no tier roles. */
  lemma {:induction false} NoTierIdsNoTierRoles(roles: seq<int>)
    requires forall t :: RoleId(t) !in roles
    ensures TierRoles(roles) == []
  {
    if roles != [] {
      assert forall t :: RoleId(t) != roles[0];
      NoTierIdsNoTierRoles(roles[1..]);
    }
  }

  /** Without the role of its only tier, a member with a single tier role has none left. */
  lemma {:induction false} RemoveOnlyTier(roles: seq<int>)
    requires SingleTier(roles)
    ensures CurrentTier(roles).Some? ==> TierRoles(RemoveRole(roles, RoleId(CurrentTier(roles).value))) == []
    ensures CurrentTier(roles).None? ==> TierRoles(roles) == []
  {
    var ts := TierRoles(roles);
    if ts != [] {
      var t := ts[0];
      var r := RemoveRole(roles, RoleId(t));
      TierRolesMembers(roles);
      assert ts == [t];
      forall u ensures RoleId(u) !in r {
        if u != t {
          assert u !in ts;
        }
      }
      NoTierIdsNoTierRoles(r);
    }
  }

  /**
   * change_role on a member with at most one tier role, swapping out that role,
   * leaves the new tier as the member's only tier role.
   */
  lemma ChangeRoleSetsTier(roles: seq<int>, to: Tier)
    requires SingleTier(roles)
    ensures var r := ChangeRole(roles, RoleId(to), if CurrentTier(roles).Some? then Some(RoleId(CurrentTier(roles).value)) else None);
      TierRoles(r) == [to] && CurrentTier(r) == Some(to) && SingleTier(r)
  {
    RemoveOnlyTier(roles);
    var current := if CurrentTier(roles).Some? then Some(RoleId(CurrentTier(roles).value)) else None;
    var kept := if current.Some? then RemoveRole(roles, current.value) else roles;
    assert TierRoles(kept) == [];
    TierRolesMembers(kept);
    assert RoleId(to) !in kept;
    TierRolesAppend(kept, RoleId(to));
    RevRolesInvertsRoles(to, RoleId(to));
    assert ChangeRole(roles, RoleId(to), current) == kept + [RoleId(to)];
  }
}
