/** Accounts: the super-role test on roles, the user's role <-> groups
    synchronisation done by three Django signal handlers, and invites.

    A user record has two views of its primary role: the `role_id` attribute
    of the Python instance in memory and the `role` column stored in the
    database. They differ after `_sync_groups_to_role` writes the column with
    a queryset update, which neither touches the instance nor fires signals.
    The groups relation is stored only. The three handlers are methods of
    `User`; the Django operations that fire them (`save`, `groups.add`,
    `groups.remove`, `groups.clear`, `groups.set`) are methods that call them
    in the order Django dispatches the signals. */
module Accounts {
  import opened Base

  // ------------------------------------------------------------------
  //  Role.is_super_role
  // ------------------------------------------------------------------

  /** A Role is an auth Group seen under another name: a key and a name. */
  datatype Role = Role(id: GroupId, name: string)

  /** `str.lower` on one character, for the ASCII letters. */
  function LowerChar(c: char): char {
    if 'A' <= c <= 'Z' then (c as int + 32) as char else c
  }

  function UpperChar(c: char): char {
    if 'a' <= c <= 'z' then (c as int - 32) as char else c
  }

  /** `str.lower` on a name, character by character. */
  function Lower(s: string): (r: string)
    ensures |r| == |s|
    ensures forall i :: 0 <= i < |s| ==> r[i] == LowerChar(s[i])
  {
    if s == [] then [] else [LowerChar(s[0])] + Lower(s[1..])
  }

  const SuperRoleName: string := "super_admin"

  /** `role.name.lower() in {"super_admin"}`. */
  predicate IsSuperRole(role: Role) {
    Lower(role.name) == SuperRoleName
  }

  /** The super role is recognised whatever the letter case of its name, and
      no other name is: the test compares the name letter by letter with
      "super_admin", ignoring case. */
  lemma SuperRoleIgnoresCase(role: Role)
    ensures IsSuperRole(role) <==>
            |role.name| == |SuperRoleName| &&
            forall i :: 0 <= i < |role.name| ==>
              role.name[i] == SuperRoleName[i] || role.name[i] == UpperChar(SuperRoleName[i])
  {
    var n := role.name;
    if |n| == |SuperRoleName| &&
       forall i :: 0 <= i < |n| ==> n[i] == SuperRoleName[i] || n[i] == UpperChar(SuperRoleName[i])
    {
      forall i | 0 <= i < |n| ensures Lower(n)[i] == SuperRoleName[i] {
        assert SuperRoleName[i] != '_' ==> 'a' <= SuperRoleName[i] <= 'z';
      }
    }
    if IsSuperRole(role) {
      forall i | 0 <= i < |n|
        ensures n[i] == SuperRoleName[i] || n[i] == UpperChar(SuperRoleName[i])
      {
        assert LowerChar(n[i]) == SuperRoleName[i];
      }
    }
  }

  // ------------------------------------------------------------------
  //  The role <-> groups synchronisation
  // ------------------------------------------------------------------

  /** The `m2m_changed` actions Django sends for the groups relation. */
  datatype M2MAction = PreAdd | PostAdd | PreRemove | PostRemove | PreClear | PostClear

  /** The actions `_sync_groups_to_role` reacts to; it returns at once on the others. */
  predicate Handled(action: M2MAction) {
    action == PostAdd || action == PostRemove || action == PostClear
  }

  /** `m` is the lowest key of `gs`. */
  predicate IsLowest(m: GroupId, gs: set<GroupId>) {
    m in gs && forall g | g in gs :: m <= g
  }

  /** `groups.order_by("pk").first()`: the group with the lowest key, or None. */
  function LowestGroup(gs: set<GroupId>): (lowest: Option<GroupId>)
    ensures lowest == None <==> gs == {}
    ensures lowest.Some? ==> IsLowest(lowest.value, gs)
  {
    if gs == {} then None
    else
      HasLowest(gs);
      var m :| IsLowest(m, gs);
      Some(m)
  }

  /** Every non-empty set of group keys has a lowest key. */
  lemma {:induction false} HasLowest(gs: set<GroupId>)
    requires gs != {}
    ensures exists m :: IsLowest(m, gs)
  {
    var x :| x in gs;
    var rest := gs - {x};
    if rest == {} {
      forall g | g in gs ensures x <= g {
        assert g !in rest;
      }
      assert IsLowest(x, gs);
    } else {
      HasLowest(rest);
      var m :| IsLowest(m, rest);
      var low := if x < m then x else m;
      forall g | g in gs ensures low <= g {
        if g != x {
          assert g in rest;
        }
      }
      assert IsLowest(low, gs);
    }
  }

  /** Lines 104-105 of the handler: the stored role after a handled signal
      whose candidate is `candidate`. The column is written only when the
      candidate differs from the in-memory role. */
  function Promote(stored: Option<GroupId>, inMemory: Option<GroupId>, candidate: Option<GroupId>): Option<GroupId> {
    if inMemory != candidate then candidate else stored
  }

  /** The groups `_sync_role_to_groups` installs for a cached role key:
      `[rid] if rid else []`, so key 0 (false in Python) installs none. */
  function RoleGroups(rid: GroupId): set<GroupId> {
    if rid != 0 then {rid} else {}
  }

  class User {
    /** `instance.role_id`, the role held by the Python instance in memory. */
    var roleId: Option<GroupId>
    /** `instance._desired_role_id`: None while the attribute is absent. */
    var desiredRoleId: Option<Option<GroupId>>
    /** The stored `role` column. */
    var storedRole: Option<GroupId>
    /** The stored groups relation. */
    var groups: set<GroupId>

    /** A user as loaded from the database. */
    constructor Load(role: Option<GroupId>, gs: set<GroupId>)
      ensures roleId == role && storedRole == role && groups == gs && desiredRoleId == None
    {
      roleId, storedRole, groups, desiredRoleId := role, role, gs, None;
    }

    /** `user.role = role` (or `user.role_id = ...`), before any save. */
    method AssignRole(role: Option<GroupId>)
      modifies this`roleId
      ensures roleId == role
    {
      roleId := role;
    }

    /** `_remember_desired_role`, the pre_save handler: caches the in-memory role. */
    method RememberDesiredRole()
      modifies this`desiredRoleId
      ensures desiredRoleId == Some(roleId)
    {
      desiredRoleId := Some(roleId);
    }

    /** `_sync_groups_to_role`, the m2m_changed handler. It reads the groups
        and the in-memory role, may write the stored role column, and
        touches nothing else: it never changes the groups, never calls save,
        so it never sets off the save-side handlers. `newRoleId` is the
        candidate it computes. */
    method SyncGroupsToRole(action: M2MAction, pkSet: Option<set<GroupId>>)
      returns (ghost newRoleId: Option<GroupId>)
      modifies this`storedRole
      ensures !Handled(action) ==> storedRole == old(storedRole)
      ensures Handled(action) && pkSet.Some? && pkSet.value != {} ==>
                newRoleId.Some? && newRoleId.value in pkSet.value
      ensures Handled(action) && (pkSet == None || pkSet == Some({})) ==>
                newRoleId == LowestGroup(groups)
      ensures Handled(action) ==> storedRole == Promote(old(storedRole), roleId, newRoleId)
    {
      newRoleId := None;
      if !Handled(action) {
        return;
      }
      var candidate: Option<GroupId>;
      if pkSet.Some? && pkSet.value != {} {
        // next(iter(pk_set)): some element, in an order Python does not promise
        var g :| g in pkSet.value;
        candidate := Some(g);
      } else {
        candidate := LowestGroup(groups);
      }
      if roleId != candidate {
        storedRole := candidate;
      }
      newRoleId := candidate;
    }

    /** `user.groups.add(*objs)`: Django sends pre_add and post_add with
        `pk_set` set to the keys not yet in the relation, even when that set
        is empty, and sends nothing when no object is given. */
    method Add(objs: set<GroupId>) returns (ghost newRoleId: Option<GroupId>)
      modifies this`groups, this`storedRole
      ensures groups == old(groups) + objs
      ensures objs == {} ==> storedRole == old(storedRole)
      ensures objs != {} && !(objs <= old(groups)) ==>
                newRoleId.Some? && newRoleId.value in objs - old(groups)
      ensures objs != {} && objs <= old(groups) ==> newRoleId == LowestGroup(old(groups))
      ensures objs != {} ==> storedRole == Promote(old(storedRole), roleId, newRoleId)
    {
      newRoleId := None;
      if objs == {} {
        return;
      }
      var missing := objs - groups;
      ghost var ignored := SyncGroupsToRole(PreAdd, Some(missing));
      groups := groups + missing;
      newRoleId := SyncGroupsToRole(PostAdd, Some(missing));
    }

    /** `user.groups.remove(*objs)`: pre_remove and post_remove carry the
        requested keys, whether or not the relation held them. */
    method Remove(objs: set<GroupId>) returns (ghost newRoleId: Option<GroupId>)
      modifies this`groups, this`storedRole
      ensures groups == old(groups) - objs
      ensures objs == {} ==> storedRole == old(storedRole)
      ensures objs != {} ==> newRoleId.Some? && newRoleId.value in objs
      ensures objs != {} ==> storedRole == Promote(old(storedRole), roleId, newRoleId)
    {
      newRoleId := None;
      if objs == {} {
        return;
      }
      ghost var ignored := SyncGroupsToRole(PreRemove, Some(objs));
      groups := groups - objs;
      newRoleId := SyncGroupsToRole(PostRemove, Some(objs));
    }

    /** `user.groups.clear()`: pre_clear and post_clear with no `pk_set`. The
        stored role becomes null, unless the in-memory role is already null,
        in which case the column is left as it was. */
    method Clear()
      modifies this`groups, this`storedRole
      ensures groups == {}
      ensures storedRole == if roleId == None then old(storedRole) else None
    {
      ghost var ignored := SyncGroupsToRole(PreClear, None);
      groups := {};
      ignored := SyncGroupsToRole(PostClear, None);
    }

    /** `user.groups.set(target)`: `remove` of the keys to drop, then `add`
        of the keys to gain, each firing the handler once when not empty.
        `removedPick` and `addedPick` are the candidates of the two signals. */
    method SetGroups(target: set<GroupId>)
      returns (ghost removedPick: Option<GroupId>, ghost addedPick: Option<GroupId>)
      modifies this`groups, this`storedRole
      ensures groups == target
      ensures removedPick.Some? <==> old(groups) - target != {}
      ensures removedPick.Some? ==> removedPick.value in old(groups) - target
      ensures addedPick.Some? <==> target - old(groups) != {}
      ensures addedPick.Some? ==> addedPick.value in target - old(groups)
      ensures var afterRemove := if removedPick.Some? then Promote(old(storedRole), roleId, removedPick)
                                 else old(storedRole);
              storedRole == if addedPick.Some? then Promote(afterRemove, roleId, addedPick) else afterRemove
    {
      var dropped := groups - target;
      var gained := target - groups;
      removedPick, addedPick := None, None;
      if dropped != {} {
        removedPick := Remove(dropped);
      }
      if gained != {} {
        addedPick := Add(gained);
      }
      assert groups == old(groups) - dropped + gained;
    }

    /** `_sync_role_to_groups`, the post_save handler. It consumes the cached
        role: with none cached (or None cached) it does nothing; otherwise it
        replaces the groups and deletes the cache. */
    method SyncRoleToGroups()
      returns (ghost removedPick: Option<GroupId>, ghost addedPick: Option<GroupId>)
      modifies this`groups, this`storedRole, this`desiredRoleId
      ensures old(desiredRoleId) == None || old(desiredRoleId) == Some(None) ==>
                groups == old(groups) && storedRole == old(storedRole) &&
                desiredRoleId == old(desiredRoleId)
      ensures old(desiredRoleId).Some? && old(desiredRoleId).value.Some? ==>
                var target := RoleGroups(old(desiredRoleId).value.value);
                && groups == target
                && desiredRoleId == None
                && (removedPick.Some? <==> old(groups) - target != {})
                && (removedPick.Some? ==> removedPick.value in old(groups) - target)
                && (addedPick.Some? <==> target - old(groups) != {})
                && (addedPick.Some? ==> addedPick.value in target - old(groups))
                && var afterRemove := if removedPick.Some? then Promote(old(storedRole), roleId, removedPick)
                                      else old(storedRole);
                   storedRole == if addedPick.Some? then Promote(afterRemove, roleId, addedPick) else afterRemove
    {
      removedPick, addedPick := None, None;
      var rid := if desiredRoleId.Some? then desiredRoleId.value else None;
      if rid == None {
        return;
      }
      removedPick, addedPick := SetGroups(RoleGroups(rid.value));
      desiredRoleId := None;
    }

    /** `user.save()`: the pre_save handler, the row write (which stores the
        in-memory role), then the post_save handler.

        With a role R the groups become exactly {R} (none for key 0). The
        stored role ends as R only when the user held no group besides R;
        otherwise it ends as one of the groups just removed, because the
        post_remove signal promotes a removed key and the later post_add of
        R writes nothing (R is already the in-memory role). With no role the
        groups are left alone. */
    method Save()
      modifies this`groups, this`storedRole, this`desiredRoleId
      ensures roleId == None ==>
                groups == old(groups) && storedRole == None && desiredRoleId == Some(None)
      ensures roleId.Some? ==> groups == RoleGroups(roleId.value) && desiredRoleId == None
      ensures roleId.Some? && old(groups) - RoleGroups(roleId.value) == {} ==> storedRole == roleId
      ensures roleId.Some? && old(groups) - RoleGroups(roleId.value) != {} ==>
                storedRole.Some? && storedRole.value in old(groups) - RoleGroups(roleId.value)
    {
      RememberDesiredRole();
      storedRole := roleId;
      ghost var removedPick, addedPick := SyncRoleToGroups();
    }
  }

  /** A user holding groups {1, 2} and role 1 is saved: the groups become {1}
      while the stored role becomes 2, a group the user no longer holds. The
      property "the stored role is null or one of the groups" does not
      survive a save. */
  method SaveLeavesRoleOutsideGroups() returns (u: User)
    ensures u.roleId == Some(1) && u.groups == {1}
    ensures u.storedRole == Some(2) && 2 !in u.groups
  {
    u := new User.Load(Some(1), {1, 2});
    assert {1, 2} - RoleGroups(1) == {2};
    u.Save();
  }

  /** A user without a role who is added to group 7 gets 7 as stored role. A
      later clear leaves the groups empty but the stored role at 7, because
      the in-memory role is still null and equals the clear's candidate. */
  method ClearAfterAddKeepsStoredRole() returns (u: User)
    ensures u.roleId == None && u.groups == {}
    ensures u.storedRole == Some(7)
  {
    u := new User.Load(None, {});
    ghost var added := u.Add({7});
    assert u.storedRole == Some(7);
    u.Clear();
  }

  /** Saving twice with role 3 leaves the groups at {3} and the stored role at
      3; a post_save without a preceding pre_save then changes nothing. */
  method SaveTwiceThenStrayPostSave(gs: set<GroupId>) returns (u: User)
    ensures u.groups == {3} && u.storedRole == Some(3) && u.desiredRoleId == None
  {
    u := new User.Load(None, gs);
    u.AssignRole(Some(3));
    u.Save();
    u.Save();
    assert u.storedRole == Some(3);
    ghost var removedPick, addedPick := u.SyncRoleToGroups();
  }

  // ------------------------------------------------------------------
  //  Invite
  // ------------------------------------------------------------------

  class Invite {
    var isActive: bool
    /** `expires_at`, as a point on the same integer clock as `now`. */
    var expiresAt: int

    constructor (expiresAt: int)
      ensures isActive && this.expiresAt == expiresAt
    {
      isActive, this.expiresAt := true, expiresAt;
    }

    /** `is_valid()`, with `timezone.now()` passed in as `now`. */
    predicate IsValid(now: int)
      reads this
    {
      isActive && expiresAt > now
    }

    /** `deactivate()`: clears `is_active` (and stores that one field). */
    method Deactivate()
      modifies this`isActive
      ensures !isActive && expiresAt == old(expiresAt)
      ensures forall now :: !IsValid(now)
    {
      isActive := false;
    }
  }

  /** An invite is valid exactly while it is active and has not expired;
      once expired at some time it stays invalid at every later time. */
  lemma InviteValidity(inv: Invite, now: int, later: int)
    requires now <= later
    ensures inv.IsValid(now) <==> inv.isActive && now < inv.expiresAt
    ensures !inv.IsValid(now) ==> !inv.IsValid(later)
  {
  }
}
