/**
 * The helpers of the earlier rights engine: its default predicates, which know only the
 * platform metadata, its user-relation cleaning, and its projection of the current setup.
 */
module LegacyRights {
  import opened Js
  import opened Seqs
  import opened Records
  import opened Defaults
  import Projection

  /** The earlier admin-policy test: only the `$t:admin_description` marker is accepted. */
  predicate LegacyIsDefaultAdminPolicy(p: Record) {
    Field(p, "description") == AdminDescription && Truthy(Field(p, "admin_access"))
  }

  predicate LegacyIsDefaultPublicPolicy(p: Record) {
    Field(p, "description") == PublicDescription && !Truthy(Field(p, "admin_access"))
  }

  predicate LegacyIsDefaultAdminRole(r: Record) {
    Field(r, "description") == AdminDescription && Field(r, "name") == AdminRoleName
  }

  /**
   * Every policy the earlier admin test accepts, the current one accepts too, and the
   * converse fails for a policy described by `$t:admin_policy_description`.
   */
  lemma LegacyAdminPolicyIsNarrower(p: Record)
    ensures LegacyIsDefaultAdminPolicy(p) ==> IsDefaultAdminPolicy(p)
    ensures var q := map["description" := Str("$t:admin_policy_description"), "admin_access" := Bool(true)];
            IsDefaultAdminPolicy(q) && !LegacyIsDefaultAdminPolicy(q)
  {
  }

  /**
   * The earlier public-policy and admin-role tests agree with the current ones on records
   * that do not carry a placeholder id.
   */
  lemma LegacyAgreesWithoutPlaceholders(r: Record)
    requires !IsEntityPlaceholder(Field(r, "id"))
    ensures LegacyIsDefaultPublicPolicy(r) <==> IsDefaultPublicPolicy(r)
    ensures LegacyIsDefaultAdminRole(r) <==> IsDefaultAdminRole(r)
    ensures LegacyIsDefaultAdminPolicy(r) ==> IsDefaultAdminPolicy(r)
  {
  }

  const UsersKey := "users"
  const UserKey := "user"

  /** One element of `cleanUserRelations`: no `users` list, and a set `user` becomes `null`. */
  function CleanUser(o: Record): (c: Record)
    ensures UsersKey !in c
    ensures Truthy(Field(o, UserKey)) ==> Field(c, UserKey) == Null
    ensures !Truthy(Field(o, UserKey)) ==> Field(c, UserKey) == Field(o, UserKey)
    ensures c.Keys == o.Keys - {UsersKey}
    ensures forall k :: k in c && k != UserKey ==> c[k] == o[k]
  {
    var cleaned := Omit(o, {UsersKey});
    if Truthy(Field(o, UserKey)) then cleaned[UserKey := Null] else cleaned
  }

  /** `cleanUserRelations(arr)`. */
  function CleanUserRelations(arr: seq<Record>): (r: seq<Record>)
    ensures |r| == |arr|
    ensures forall i :: 0 <= i < |r| ==> UsersKey !in r[i] && !Truthy(Field(r[i], UserKey))
    ensures forall i :: 0 <= i < |r| ==> r[i].Keys == arr[i].Keys - {UsersKey}
    ensures forall i, k :: 0 <= i < |r| && k in r[i] && k != UserKey ==> r[i][k] == arr[i][k]
    ensures forall i :: 0 <= i < |r| ==> CleanedFrom(r[i], arr[i], {})
  {
    Map(arr, CleanUser)
  }

  /** Cleaning a cleaned record changes nothing. */
  lemma CleanUserIdempotent(o: Record)
    ensures CleanUser(CleanUser(o)) == CleanUser(o)
  {
    var c := CleanUser(o);
    assert CleanUser(c).Keys == c.Keys;
  }

  /**
   * `x` is `o` without `users` and the `dropped` keys, with a truthy `user` set to `null`,
   * and otherwise unchanged.
   */
  ghost predicate CleanedFrom(x: Record, o: Record, dropped: set<string>) {
    && x.Keys == o.Keys - ({UsersKey} + dropped)
    && (forall k :: k in x && k != UserKey ==> x[k] == o[k])
    && Field(x, UserKey) == if Truthy(Field(o, UserKey)) then Null else Field(o, UserKey)
  }

  /** The earlier projection of the current setup. */
  function LegacyProject(stored: Rights): (r: Rights)
    ensures |r.policies| == |stored.policies| && |r.roles| == |stored.roles| && |r.access| == |stored.access|
    ensures forall i :: 0 <= i < |r.policies| ==> CleanedFrom(r.policies[i], stored.policies[i], {"roles", "permissions"})
    ensures forall i :: 0 <= i < |r.roles| ==> CleanedFrom(r.roles[i], stored.roles[i], {"policies"})
    ensures forall i :: 0 <= i < |r.access| ==> CleanedFrom(r.access[i], stored.access[i], {})
    ensures forall x :: x in r.permissions <==> x in stored.permissions && !Truthy(Field(x, "system"))
    ensures IsSubseq(r.permissions, stored.permissions)
    ensures Ids(r.policies) == Ids(stored.policies) && Ids(r.roles) == Ids(stored.roles)
    ensures Ids(r.access) == Ids(stored.access)
  {
    var policies := Map(CleanUserRelations(stored.policies), (p: Record) => Omit(p, {"roles", "permissions"}));
    var roles := Map(CleanUserRelations(stored.roles), (r: Record) => Omit(r, {"policies"}));
    var access := CleanUserRelations(stored.access);
    assert Ids(policies) == Ids(stored.policies) by {
      forall i | 0 <= i < |policies| ensures Ids(policies)[i] == Ids(stored.policies)[i] {
        assert "id" in policies[i] <==> "id" in stored.policies[i];
      }
    }
    assert Ids(roles) == Ids(stored.roles) by {
      forall i | 0 <= i < |roles| ensures Ids(roles)[i] == Ids(stored.roles)[i] {
        assert "id" in roles[i] <==> "id" in stored.roles[i];
      }
    }
    assert Ids(access) == Ids(stored.access) by {
      forall i | 0 <= i < |access| ensures Ids(access)[i] == Ids(stored.access)[i] {
        assert "id" in access[i] <==> "id" in stored.access[i];
      }
    }
    Rights(policies, roles, Filter(stored.permissions, (perm: Record) => !Truthy(Field(perm, "system"))), access)
  }

  /**
   * The current projection keeps a subset of the permissions the earlier one kept: it
   * additionally drops those whose policy is not among the policies.
   */
  lemma CurrentProjectionNarrowsPermissions(stored: Rights)
    ensures forall x :: x in Projection.Project(stored).permissions ==> x in LegacyProject(stored).permissions
    ensures forall x :: x in LegacyProject(stored).permissions && HasId(stored.policies, Field(x, "policy"))
                        ==> x in Projection.Project(stored).permissions
  {
  }
}
