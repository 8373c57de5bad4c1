/** Creating and bringing up to date the AKO role
    (`syncAkoUserRole` in controllers/akodeploymentconfig/user/user_controller.go). */
module RoleSync {
  import opened Semver
  import opened RoleTable

  class Role {
    var privileges: seq<Permission>

    constructor (p: seq<Permission>)
      ensures privileges == p
    {
      privileges := p;
    }
  }

  /** The desired permissions and the versions from which some of them are deprecated. */
  datatype Tables = Tables(desired: map<Resource, Access>, deprecated: map<Resource, Version>)

  const TABLES := Tables(PERMISSION_MAP, DEPRECATED)

  predicate Deprecated(t: Tables, r: Resource, v: Version) {
    r in t.deprecated && Compare(v, t.deprecated[r]) >= 0
  }

  function Resources(ps: seq<Permission>): set<Resource> {
    set p | p in ps :: p.resource
  }

  function Retyped(p: Permission, t: Tables): Permission {
    if p.resource in t.desired then p.(access := t.desired[p.resource]) else p
  }

  /** `now` is what syncing `was` at version `v` may leave: the old entries in place, only
      managed ones retyped, followed by the missing managed entries that are not deprecated,
      each once, in any order. */
  ghost predicate Synced(was: seq<Permission>, now: seq<Permission>, t: Tables, v: Version) {
    && |was| <= |now|
    && (forall i :: 0 <= i < |was| ==> now[i] == Retyped(was[i], t))
    && (forall i :: |was| <= i < |now| ==>
          && now[i].resource in t.desired && now[i].access == t.desired[now[i].resource]
          && now[i].resource !in Resources(was) && !Deprecated(t, now[i].resource, v))
    && (forall i, j :: |was| <= i < j < |now| ==> now[i].resource != now[j].resource)
    && (forall r :: r in t.desired && !Deprecated(t, r, v) ==> r in Resources(now))
  }

  /** The second loop visits the map in an arbitrary order. */
  method SyncAkoUserRole(role: Role, t: Tables, v: Version) returns (updated: bool)
    modifies role
    ensures Synced(old(role.privileges), role.privileges, t, v)
    ensures updated <==> role.privileges != old(role.privileges)
  {
    ghost var was := role.privileges;
    var n := |role.privileges|;
    var existing: set<Resource> := {};
    updated := false;
    for i := 0 to n
      invariant |role.privileges| == n
      invariant forall j :: 0 <= j < i ==> role.privileges[j] == Retyped(was[j], t)
      invariant forall j :: i <= j < n ==> role.privileges[j] == was[j]
      invariant existing == set p | p in was[..i] && p.resource in t.desired :: p.resource
      invariant updated <==> role.privileges != was
    {
      assert was[..i + 1] == was[..i] + [was[i]];
      var p := role.privileges[i];
      if p.resource !in t.desired {
        continue;
      }
      existing := existing + {p.resource};
      if p.access != t.desired[p.resource] {
        role.privileges := role.privileges[i := p.(access := t.desired[p.resource])];
        updated := true;
        assert role.privileges[i] != was[i];
      }
    }
    assert was[..n] == was;
    assert existing == Resources(was) * t.desired.Keys;
    var added := AddMissing(role, existing, t, v);
    updated := updated || added;
    assert Synced(was, role.privileges, t, v) by {
      forall r | r in t.desired && !Deprecated(t, r, v) ensures r in Resources(role.privileges) {
        if r in existing {
          var i :| 0 <= i < n && was[i].resource == r;
          assert role.privileges[i].resource == r;
          assert role.privileges[i] in role.privileges;
        }
      }
    }
  }

  /** Appends the managed resources not in `existing`, leaving out deprecated ones. */
  method AddMissing(role: Role, existing: set<Resource>, t: Tables, v: Version) returns (added: bool)
    modifies role
    ensures var n := |old(role.privileges)|;
            && n <= |role.privileges| && role.privileges[..n] == old(role.privileges)
            && (added <==> n < |role.privileges|)
            && (forall i :: n <= i < |role.privileges| ==>
                  && role.privileges[i].resource in t.desired.Keys - existing
                  && role.privileges[i].access == t.desired[role.privileges[i].resource]
                  && !Deprecated(t, role.privileges[i].resource, v))
            && (forall i, j :: n <= i < j < |role.privileges| ==>
                  role.privileges[i].resource != role.privileges[j].resource)
            && (forall r :: r in t.desired && r !in existing && !Deprecated(t, r, v) ==> r in Resources(role.privileges))
  {
    ghost var start := role.privileges;
    ghost var n := |start|;
    var left := t.desired.Keys;
    added := false;
    while left != {}
      invariant left <= t.desired.Keys
      invariant n <= |role.privileges| && role.privileges[..n] == start
      invariant added <==> n < |role.privileges|
      invariant forall i :: n <= i < |role.privileges| ==>
        && role.privileges[i].resource in t.desired.Keys - existing - left
        && role.privileges[i].access == t.desired[role.privileges[i].resource]
        && !Deprecated(t, role.privileges[i].resource, v)
      invariant forall i, j :: n <= i < j < |role.privileges| ==>
        role.privileges[i].resource != role.privileges[j].resource
      invariant forall r :: r in t.desired && r !in existing && r !in left && !Deprecated(t, r, v) ==>
        r in Resources(role.privileges)
      decreases left
    {
      var r :| r in left;
      left := left - {r};
      ghost var before := role.privileges;
      if r !in existing {
        if r in t.deprecated && Compare(v, t.deprecated[r]) >= 0 {
          continue;
        }
        role.privileges := role.privileges + [Permission(r, t.desired[r])];
        added := true;
        assert Permission(r, t.desired[r]) in role.privileges;
        assert Resources(before) <= Resources(role.privileges);
      }
    }
  }

  // ---------------------------------------------------------------- what sync achieves

  /** The role is as desired: managed entries have their type, none that is required is
      missing. */
  ghost predicate Desired(ps: seq<Permission>, t: Tables, v: Version) {
    && (forall p <- ps :: p.resource in t.desired ==> p.access == t.desired[p.resource])
    && (forall r :: r in t.desired && !Deprecated(t, r, v) ==> r in Resources(ps))
  }

  /** Sync reaches the desired role and keeps every unmanaged entry where it was. */
  lemma SyncReachesDesired(was: seq<Permission>, now: seq<Permission>, t: Tables, v: Version)
    requires Synced(was, now, t, v)
    ensures Desired(now, t, v)
    ensures forall i :: 0 <= i < |was| ==> now[i].resource == was[i].resource
    ensures forall i :: 0 <= i < |was| && was[i].resource !in t.desired ==> now[i] == was[i]
    ensures Resources(was) <= Resources(now)
  {
    forall p | p in now && p.resource in t.desired ensures p.access == t.desired[p.resource] {
      var i :| 0 <= i < |now| && now[i] == p;
    }
    forall r | r in Resources(was) ensures r in Resources(now) {
      var i :| 0 <= i < |was| && was[i].resource == r;
      assert now[i] in now;
    }
  }

  lemma MissingImpliesUndesired(was: seq<Permission>, now: seq<Permission>, t: Tables, v: Version)
    requires Synced(was, now, t, v) && |was| < |now|
    ensures !Desired(was, t, v)
  {
    assert now[|was|].resource !in Resources(was);
  }

  /** The roles sync leaves alone are exactly the desired ones. */
  lemma FixedPointIffDesired(was: seq<Permission>, now: seq<Permission>, t: Tables, v: Version)
    requires Synced(was, now, t, v)
    ensures now == was <==> Desired(was, t, v)
  {
    if now == was {
      SyncReachesDesired(was, now, t, v);
    }
    if Desired(was, t, v) {
      forall i | 0 <= i < |was| ensures now[i] == was[i] {
        assert was[i] in was;
      }
      if |was| < |now| {
        MissingImpliesUndesired(was, now, t, v);
      }
    }
  }

  /** A second sync changes nothing, whatever the iteration orders. */
  lemma SyncIsIdempotent(was: seq<Permission>, once: seq<Permission>, twice: seq<Permission>, t: Tables, v: Version)
    requires Synced(was, once, t, v) && Synced(once, twice, t, v)
    ensures twice == once
  {
    SyncReachesDesired(was, once, t, v);
    FixedPointIffDesired(once, twice, t, v);
  }

  // ---------------------------------------------------------------- creation

  /** The permissions that are not deprecated at `v`, in order. */
  function Filtered(ps: seq<Permission>, t: Tables, v: Version): (r: seq<Permission>)
    ensures forall p :: p in r <==> p in ps && !Deprecated(t, p.resource, v)
    ensures |r| <= |ps|
  {
    if ps == [] then []
    else
      var init, p := ps[..|ps| - 1], ps[|ps| - 1];
      assert ps == init + [p];
      if Deprecated(t, p.resource, v) then Filtered(init, t, v) else Filtered(init, t, v) + [p]
  }

  method FilterByVersion(ps: seq<Permission>, t: Tables, v: Version) returns (filtered: seq<Permission>)
    ensures filtered == Filtered(ps, t, v)
  {
    filtered := [];
    for i := 0 to |ps|
      invariant filtered == Filtered(ps[..i], t, v)
    {
      assert ps[..i + 1][..i] == ps[..i];
      var p := ps[i];
      if p.resource in t.deprecated && Compare(v, t.deprecated[p.resource]) >= 0 {
        continue;
      }
      filtered := filtered + [p];
    }
    assert ps[..|ps|] == ps;
  }

  /** What is deprecated stays deprecated in later versions. */
  lemma DeprecationIsMonotone(t: Tables, r: Resource, v: Version, later: Version)
    requires Deprecated(t, r, v) && Compare(v, later) <= 0
    ensures Deprecated(t, r, later)
  {
    var d := t.deprecated[r];
    PrecedenceIsTotalOrder(v, d, d);
    PrecedenceIsTotalOrder(d, v, later);
    PrecedenceIsTotalOrder(later, d, d);
  }

  lemma FilteredIsDesired(list: seq<Permission>, t: Tables, v: Version, later: Version)
    requires SamePairs(list, t.desired) && Compare(v, later) <= 0
    ensures Desired(Filtered(list, t, v), t, later)
  {
    var ps := Filtered(list, t, v);
    forall r | r in t.desired && !Deprecated(t, r, later) ensures r in Resources(ps) {
      assert !Deprecated(t, r, v) by {
        if Deprecated(t, r, v) {
          DeprecationIsMonotone(t, r, v, later);
        }
      }
      assert Permission(r, t.desired[r]) in ps;
    }
  }

  lemma FilteredIsFixedPoint(list: seq<Permission>, t: Tables, v: Version, later: Version, now: seq<Permission>)
    requires SamePairs(list, t.desired) && Compare(v, later) <= 0
    requires Synced(Filtered(list, t, v), now, t, later)
    ensures now == Filtered(list, t, v)
  {
    FilteredIsDesired(list, t, v, later);
    FixedPointIffDesired(Filtered(list, t, v), now, t, later);
  }

  /** A role created at version `v` is left alone by a sync at `v` and at every later version. */
  lemma CreatedRoleIsFixedPoint(list: seq<Permission>, t: Tables, v: Version, later: Version, now: seq<Permission>)
    requires list == PERMISSION_LIST && t == TABLES && Compare(v, later) <= 0
    requires Synced(Filtered(list, t, v), now, t, later)
    ensures now == Filtered(list, t, v)
  {
    TablesAgree();
    FilteredIsFixedPoint(list, t, v, later, now);
  }

  // ---------------------------------------------------------------- the real tables

  /** Filtering goes entry by entry, so it keeps the order. */
  lemma {:induction false} FilteredAppend(a: seq<Permission>, b: seq<Permission>, t: Tables, v: Version)
    ensures Filtered(a + b, t, v) == Filtered(a, t, v) + Filtered(b, t, v)
    ensures |a| == 1 ==> Filtered(a, t, v) == if Deprecated(t, a[0].resource, v) then [] else a
    decreases |b|
  {
    if |a| == 1 {
      assert a[..0] == [] && a == [a[0]];
    }
    if b == [] {
      assert a + b == a;
    } else {
      var init, p := b[..|b| - 1], b[|b| - 1];
      FilteredAppend(a, init, t, v);
      assert (a + b)[..|a + b| - 1] == a + init && (a + b)[|a + b| - 1] == p;
    }
  }

  /** Of the real tables only PINGACCESSAGENT is ever deprecated, from 30.2.1 on. */
  lemma DeprecatedMeans(r: Resource, v: Version)
    ensures Deprecated(TABLES, r, v) <==> r == PINGACCESSAGENT && (v == Release(30, 2, 1) || Higher(v, Release(30, 2, 1)))
  {
    PrecedenceMeaning(v, Release(30, 2, 1));
  }

  /** A new role holds PINGACCESSAGENT exactly at the versions below 30.2.1, and every other
      permission of the list at every version. */
  lemma CreatedRoleHolds(list: seq<Permission>, v: Version, p: Permission)
    requires list == PERMISSION_LIST && p in list
    ensures p in Filtered(list, TABLES, v) <==> (p.resource == PINGACCESSAGENT ==> Higher(Release(30, 2, 1), v))
  {
    DeprecatedMeans(p.resource, v);
    PrecedenceMeaning(v, Release(30, 2, 1));
  }

  /** Bringing a role up to date adds PINGACCESSAGENT exactly at the versions below 30.2.1. */
  lemma SyncAddsPingAccessAgent(was: seq<Permission>, now: seq<Permission>, v: Version)
    requires Synced(was, now, TABLES, v) && PINGACCESSAGENT !in Resources(was)
    ensures PINGACCESSAGENT in Resources(now) <==> Higher(Release(30, 2, 1), v)
  {
    DeprecatedMeans(PINGACCESSAGENT, v);
    PrecedenceMeaning(v, Release(30, 2, 1));
    MapKeys(PINGACCESSAGENT);
    if PINGACCESSAGENT in Resources(now) {
      var i :| 0 <= i < |now| && now[i].resource == PINGACCESSAGENT;
      assert i < |was| ==> was[i] in was;
    }
  }
}
