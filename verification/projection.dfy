/**
 * The current rights setup as the engine reads it from the instance: relation lists and
 * user links are stripped, system permissions and permissions of unknown policies are
 * dropped, and access rows that only tie a local user to a policy are left out.
 *
 * The filter hooks run between the steps are taken as the identity.
 */
module Projection {
  import opened Js
  import opened Seqs
  import opened Records

  /** The relation lists dropped from every policy. */
  const PolicyRelationKeys: set<string> := {"roles", "permissions", "users"}

  /** The relation lists dropped from every role. */
  const RoleRelationKeys: set<string> := {"policies", "users", "children"}

  function ProjectPolicy(p: Record): Record {
    Omit(p, PolicyRelationKeys)
  }

  function ProjectRole(r: Record): Record {
    Omit(r, RoleRelationKeys)
  }

  /** A permission is kept when a kept policy has its `policy` id and it is not a system permission. */
  predicate KeepsPermission(policies: seq<Record>, perm: Record) {
    HasId(policies, Field(perm, "policy")) && !Truthy(Field(perm, "system"))
  }

  /** An access row that ties a local user to a policy without a role. */
  predicate IsPolicyUserRelation(a: Record) {
    Truthy(Field(a, "user")) && Truthy(Field(a, "policy")) && !Truthy(Field(a, "role"))
  }

  predicate KeepsAccess(a: Record) {
    !IsPolicyUserRelation(a)
  }

  /** `{ ...a, user: null }`. */
  function DetachUser(a: Record): Record {
    a["user" := Null]
  }

  function ProjectPolicies(policies: seq<Record>): (r: seq<Record>)
    ensures |r| == |policies|
    ensures forall i :: 0 <= i < |r| ==> r[i].Keys == policies[i].Keys - PolicyRelationKeys
    ensures forall i, k :: 0 <= i < |r| && k in r[i] ==> r[i][k] == policies[i][k]
  {
    Map(policies, ProjectPolicy)
  }

  function ProjectRoles(roles: seq<Record>): (r: seq<Record>)
    ensures |r| == |roles|
    ensures forall i :: 0 <= i < |r| ==> r[i].Keys == roles[i].Keys - RoleRelationKeys
    ensures forall i, k :: 0 <= i < |r| && k in r[i] ==> r[i][k] == roles[i][k]
  {
    Map(roles, ProjectRole)
  }

  function PermissionFilter(policies: seq<Record>): Record -> bool {
    (perm: Record) => KeepsPermission(policies, perm)
  }

  /** The permissions whose policy is among `policies` and that are not system permissions. */
  function ProjectPermissions(policies: seq<Record>, permissions: seq<Record>): (r: seq<Record>)
    ensures forall x :: x in r <==>
                          (x in permissions && !Truthy(Field(x, "system")) && HasId(policies, Field(x, "policy")))
    ensures IsSubseq(r, permissions)
  {
    Filter(permissions, PermissionFilter(policies))
  }

  /** The access rows that are not policy-user links, each with its user cleared. */
  function ProjectAccess(access: seq<Record>): (r: seq<Record>)
    ensures |r| <= |access|
    ensures forall a :: a in r ==> Field(a, "user") == Null
    ensures forall a :: a in r <==> exists b :: b in access && !IsPolicyUserRelation(b) && a == DetachUser(b)
    ensures IsSubseq(r, Map(access, DetachUser))
  {
    var kept := Filter(access, KeepsAccess);
    var r := Map(kept, DetachUser);
    MapKeepsSubseq(kept, access, DetachUser);
    assert forall a :: a in r ==> exists b :: b in access && !IsPolicyUserRelation(b) && a == DetachUser(b) by {
      forall a | a in r ensures exists b :: b in access && !IsPolicyUserRelation(b) && a == DetachUser(b) {
        var i :| 0 <= i < |r| && r[i] == a;
        assert kept[i] in kept;
      }
    }
    assert forall b :: b in access && !IsPolicyUserRelation(b) ==> DetachUser(b) in r by {
      forall b | b in access && !IsPolicyUserRelation(b) ensures DetachUser(b) in r {
        assert b in kept;
        var i :| 0 <= i < |kept| && kept[i] == b;
        assert r[i] == DetachUser(b);
      }
    }
    r
  }

  /** The projection of the stored rights the engine works with. */
  function Project(stored: Rights): (r: Rights)
    ensures |r.policies| == |stored.policies| && |r.roles| == |stored.roles|
    ensures Ids(r.policies) == Ids(stored.policies) && Ids(r.roles) == Ids(stored.roles)
    ensures forall x :: x in r.permissions <==>
                          (x in stored.permissions && !Truthy(Field(x, "system"))
                           && HasId(stored.policies, Field(x, "policy")))
    ensures forall i :: 0 <= i < |r.policies| ==> r.policies[i] == Omit(stored.policies[i], PolicyRelationKeys)
    ensures forall i :: 0 <= i < |r.roles| ==> r.roles[i] == Omit(stored.roles[i], RoleRelationKeys)
    ensures forall a :: a in r.access ==> Field(a, "user") == Null
    ensures forall a :: a in r.access <==> exists b :: b in stored.access && !IsPolicyUserRelation(b) && a == DetachUser(b)
    ensures IsSubseq(r.access, Map(stored.access, DetachUser))
  {
    var policies := ProjectPolicies(stored.policies);
    var roles := ProjectRoles(stored.roles);
    OmitKeepsIds(stored.policies, policies, PolicyRelationKeys);
    OmitKeepsIds(stored.roles, roles, RoleRelationKeys);
    SameIdsSameLookups(policies, stored.policies);
    Rights(policies, roles, ProjectPermissions(policies, stored.permissions), ProjectAccess(stored.access))
  }

  /** Dropping keys other than `id` from every record keeps the list of ids. */
  lemma OmitKeepsIds(rs: seq<Record>, os: seq<Record>, keys: set<string>)
    requires "id" !in keys && |os| == |rs|
    requires forall i :: 0 <= i < |os| ==> os[i] == Omit(rs[i], keys)
    ensures Ids(os) == Ids(rs)
  {
    forall i | 0 <= i < |rs| ensures Ids(os)[i] == Ids(rs)[i] {
      assert "id" in os[i] <==> "id" in rs[i];
    }
  }

  /** Lists with the same ids answer every id lookup alike. */
  lemma SameIdsSameLookups(a: seq<Record>, b: seq<Record>)
    requires Ids(a) == Ids(b)
    ensures forall v :: HasId(a, v) <==> HasId(b, v)
  {
    forall v | HasId(a, v) ensures HasId(b, v) {
      var i :| 0 <= i < |a| && Id(a[i]) == v;
      assert Ids(a)[i] == v;
    }
    forall v | HasId(b, v) ensures HasId(a, v) {
      var i :| 0 <= i < |b| && Id(b[i]) == v;
      assert Ids(b)[i] == v;
    }
  }

  /** Projecting projected policies again changes nothing. */
  lemma ProjectPoliciesIdempotent(policies: seq<Record>)
    ensures ProjectPolicies(ProjectPolicies(policies)) == ProjectPolicies(policies)
  {
    var once := ProjectPolicies(policies);
    forall i | 0 <= i < |once| ensures ProjectPolicy(once[i]) == once[i] {
      OmitAbsent(once[i], PolicyRelationKeys);
    }
  }

  /** Projecting projected roles again changes nothing. */
  lemma ProjectRolesIdempotent(roles: seq<Record>)
    ensures ProjectRoles(ProjectRoles(roles)) == ProjectRoles(roles)
  {
    var once := ProjectRoles(roles);
    forall i | 0 <= i < |once| ensures ProjectRole(once[i]) == once[i] {
      OmitAbsent(once[i], RoleRelationKeys);
    }
  }

  /** The projected access rows pass the access filter again unchanged. */
  lemma ProjectAccessIdempotent(access: seq<Record>)
    ensures ProjectAccess(ProjectAccess(access)) == ProjectAccess(access)
  {
    var once := ProjectAccess(access);
    FilterAll(once, KeepsAccess);
    forall i | 0 <= i < |once| ensures DetachUser(once[i]) == once[i] {
      assert once[i] in once;
    }
  }

  /** Projecting an already projected setup changes nothing. */
  lemma ProjectIdempotent(stored: Rights)
    ensures Project(Project(stored)) == Project(stored)
  {
    var once := Project(stored);
    var twice := Project(once);
    ProjectPoliciesIdempotent(stored.policies);
    ProjectRolesIdempotent(stored.roles);
    FilterAll(once.permissions, PermissionFilter(once.policies));
    ProjectAccessIdempotent(stored.access);
  }
}
