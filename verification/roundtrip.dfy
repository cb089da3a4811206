/**
 * Pull followed by push on the same instance: the exported file, rewritten back against
 * the instance it came from, plans no create, no update and no delete.
 */
module RoundTrip {
  import opened Wrappers
  import opened Js
  import opened Seqs
  import opened Records
  import opened Defaults
  import opened Partition
  import opened Export
  import opened Import
  import Push
  import Projection

  /** The placeholders no reference of the instance uses. */
  predicate NotPolicyPlaceholder(v: Value) {
    v != AdminPolicyPlaceholder && v != PublicPolicyPlaceholder
  }

  /** Unique defined ids throughout, and no policy or role id spelled like a placeholder. */
  ghost predicate PlainIds(c: Rights) {
    && UniqueIds(c.policies) && UniqueIds(c.roles) && UniqueIds(c.permissions) && UniqueIds(c.access)
    && DefinedIds(c.policies) && DefinedIds(c.roles) && DefinedIds(c.access)
    && (forall i :: 0 <= i < |c.policies| ==> !IsEntityPlaceholder(Id(c.policies[i])))
    && (forall i :: 0 <= i < |c.roles| ==> !IsEntityPlaceholder(Id(c.roles[i])))
  }

  /** Exactly the three defaults, recognised by their metadata, at indexes `ap`, `pp` and `ar`. */
  ghost predicate DefaultsAt(c: Rights, ap: nat, pp: nat, ar: nat) {
    && ap < |c.policies| && pp < |c.policies| && ar < |c.roles|
    && IsDefaultAdminPolicy(c.policies[ap]) && AtMostOne(c.policies, IsDefaultAdminPolicy)
    && IsDefaultPublicPolicy(c.policies[pp]) && AtMostOne(c.policies, IsDefaultPublicPolicy)
    && IsDefaultAdminRole(c.roles[ar]) && AtMostOne(c.roles, IsDefaultAdminRole)
  }

  /** No record carries an `_originalId`. */
  ghost predicate NoOriginalIds(c: Rights) {
    && (forall i :: 0 <= i < |c.policies| ==> OriginalIdKey !in c.policies[i])
    && (forall i :: 0 <= i < |c.roles| ==> OriginalIdKey !in c.roles[i])
    && (forall i :: 0 <= i < |c.permissions| ==> OriginalIdKey !in c.permissions[i])
    && (forall i :: 0 <= i < |c.access| ==> OriginalIdKey !in c.access[i])
  }

  /** Every reference is set and none is spelled like a placeholder. */
  ghost predicate PlainReferences(c: Rights) {
    && (forall i :: 0 <= i < |c.permissions| ==>
          Field(c.permissions[i], "policy") != Undefined && NotPolicyPlaceholder(Field(c.permissions[i], "policy")))
    && (forall i :: 0 <= i < |c.access| ==>
          && Field(c.access[i], "policy") != Undefined && NotPolicyPlaceholder(Field(c.access[i], "policy"))
          && Field(c.access[i], "role") != Undefined && Field(c.access[i], "role") != AdminRolePlaceholder)
  }

  /**
   * The admin policy is linked only to the admin role and the public policy only to no
   * role. The export as written needs this to round-trip; the corrected export does not.
   */
  ghost predicate DefaultPoliciesLinkedPlainly(c: Rights, ap: nat, pp: nat, ar: nat)
    requires ap < |c.policies| && pp < |c.policies| && ar < |c.roles|
  {
    && (forall i :: 0 <= i < |c.access| && Field(c.access[i], "policy") == Id(c.policies[ap]) ==>
          Field(c.access[i], "role") == Id(c.roles[ar]))
    && (forall i :: 0 <= i < |c.access| && Field(c.access[i], "policy") == Id(c.policies[pp]) ==>
          Field(c.access[i], "role") == Null)
  }

  /** A current setup in the shape the platform keeps it: among others, no two access rows share a link. */
  ghost predicate Canonical(c: Rights, ap: nat, pp: nat, ar: nat) {
    && DefaultsAt(c, ap, pp, ar) && PlainIds(c) && NoOriginalIds(c) && PlainReferences(c)
    && DistinctLinks(c.access)
  }

  /** What the round trip assumes of the setup: its shape, and plain default links unless the export is corrected. */
  ghost predicate RoundTrips(c: Rights, ap: nat, pp: nat, ar: nat, corrected: bool) {
    Canonical(c, ap, pp, ar) && (!corrected ==> DefaultPoliciesLinkedPlainly(c, ap, pp, ar))
  }

  /** A minimal setup in that shape: the three defaults, one permission and the two default links. */
  const ExampleAdmin: Record := map["id" := Str("a"), "description" := AdminDescription, "admin_access" := Bool(true)]
  const ExamplePublic: Record := map["id" := Str("p"), "description" := PublicDescription, "admin_access" := Bool(false)]
  const ExampleRole: Record := map["id" := Str("r"), "description" := AdminDescription, "name" := AdminRoleName]
  const ExamplePermission: Record := map["id" := Num(1), "policy" := Str("p")]
  const ExampleAdminLink: Record := map["id" := Num(1), "role" := Str("r"), "policy" := Str("a"), "user" := Null]
  const ExamplePublicLink: Record := map["id" := Num(2), "role" := Null, "policy" := Str("p"), "user" := Null]
  const Example: Rights :=
    Rights([ExampleAdmin, ExamplePublic], [ExampleRole], [ExamplePermission], [ExampleAdminLink, ExamplePublicLink])

  /** The shape is not empty: the minimal setup has it. */
  lemma CanonicalExample()
    ensures Canonical(Example, 0, 1, 0) && DefaultPoliciesLinkedPlainly(Example, 0, 1, 0)
  {
    ExampleDefaults();
    ExampleIds();
    ExampleReferences();
    ExampleLinks();
  }

  /**
   * The minimal setup, as the instance stores it, reads back as itself, so it meets the
   * round trip's assumption for either export.
   */
  lemma ProjectedExampleRoundTrips(corrected: bool)
    ensures RoundTrips(Projection.Project(Example), 0, 1, 0, corrected)
  {
    ExampleIsProjected();
    CanonicalExample();
  }

  /** The minimal setup has no relation list, no system permission and no user link to strip. */
  lemma ExampleIsProjected()
    ensures Projection.Project(Example) == Example
  {
    ExamplePoliciesProjected();
    ExampleRolesProjected();
    ExamplePermissionsProjected();
    ExampleAccessProjected();
  }

  lemma ExamplePoliciesProjected()
    ensures Projection.ProjectPolicies(Example.policies) == Example.policies
  {
    OmitAbsent(ExampleAdmin, Projection.PolicyRelationKeys);
    OmitAbsent(ExamplePublic, Projection.PolicyRelationKeys);
    var r := Projection.ProjectPolicies(Example.policies);
    assert r[0] == ExampleAdmin && r[1] == ExamplePublic;
  }

  lemma ExampleRolesProjected()
    ensures Projection.ProjectRoles(Example.roles) == Example.roles
  {
    OmitAbsent(ExampleRole, Projection.RoleRelationKeys);
    var r := Projection.ProjectRoles(Example.roles);
    assert r[0] == ExampleRole;
  }

  lemma ExamplePermissionsProjected()
    ensures Projection.ProjectPermissions(Example.policies, Example.permissions) == Example.permissions
  {
    ExampleDefaultIds();
    assert Projection.KeepsPermission(Example.policies, ExamplePermission);
    FilterAll(Example.permissions, Projection.PermissionFilter(Example.policies));
  }

  lemma ExampleAccessProjected()
    ensures Projection.ProjectAccess(Example.access) == Example.access
  {
    assert Projection.KeepsAccess(ExampleAdminLink) && Projection.KeepsAccess(ExamplePublicLink);
    FilterAll(Example.access, Projection.KeepsAccess);
    var r := Projection.ProjectAccess(Example.access);
    assert Projection.DetachUser(ExampleAdminLink) == ExampleAdminLink;
    assert Projection.DetachUser(ExamplePublicLink) == ExamplePublicLink;
    assert r[0] == ExampleAdminLink && r[1] == ExamplePublicLink;
  }

  lemma ExampleReferences()
    ensures NoOriginalIds(Example) && PlainReferences(Example)
  {
    assert Field(ExamplePermission, "policy") == Str("p");
    assert Field(ExampleAdminLink, "policy") == Str("a") && Field(ExampleAdminLink, "role") == Str("r");
    assert Field(ExamplePublicLink, "policy") == Str("p") && Field(ExamplePublicLink, "role") == Null;
  }

  lemma ExampleDefaults()
    ensures DefaultsAt(Example, 0, 1, 0)
  {
    assert Field(ExampleAdmin, "id") == Str("a") && Field(ExamplePublic, "id") == Str("p");
    assert Field(ExampleAdmin, "admin_access") == Bool(true) && Field(ExamplePublic, "admin_access") == Bool(false);
    assert !IsDefaultAdminPolicy(ExamplePublic) && !IsDefaultPublicPolicy(ExampleAdmin);
    assert Example.policies == [ExampleAdmin, ExamplePublic] && Example.roles == [ExampleRole];
  }

  lemma ExampleIds()
    ensures PlainIds(Example)
  {
    assert Id(ExampleAdmin) == Str("a") && Id(ExamplePublic) == Str("p");
    assert Id(ExampleAdminLink) == Num(1) && Id(ExamplePublicLink) == Num(2);
  }

  lemma ExampleLinks()
    ensures DistinctLinks(Example.access) && DefaultPoliciesLinkedPlainly(Example, 0, 1, 0)
  {
    ExampleLinksDistinct();
    ExampleLinksPlain();
  }

  lemma ExampleLinksDistinct()
    ensures DistinctLinks(Example.access)
  {
    ExampleLinkFields();
    assert |Example.access| == 2;
    assert !SameLink(Example.access[0], Example.access[1]) && !SameLink(Example.access[1], Example.access[0]);
  }

  lemma ExampleLinksPlain()
    ensures DefaultPoliciesLinkedPlainly(Example, 0, 1, 0)
  {
    ExampleLinkFields();
    ExampleDefaultIds();
    assert |Example.access| == 2;
  }

  lemma ExampleDefaultIds()
    ensures Id(Example.policies[0]) == Str("a") && Id(Example.policies[1]) == Str("p") && Id(Example.roles[0]) == Str("r")
  {
    assert Example.policies == [ExampleAdmin, ExamplePublic] && Example.roles == [ExampleRole];
  }

  lemma ExampleLinkFields()
    ensures Field(Example.access[0], "role") == Str("r") && Field(Example.access[0], "policy") == Str("a")
    ensures Field(Example.access[1], "role") == Null && Field(Example.access[1], "policy") == Str("p")
  {
    assert Example.access == [ExampleAdminLink, ExamplePublicLink];
  }

  /**
   * Carrying a value through moves that each map their source by `f`, to a value `f`
   * keeps, yields `f` of it.
   */
  lemma {:induction false} ChaseRestores(moves: seq<Move>, f: Value -> Value, v: Value)
    requires Restores(moves, f)
    requires f(v) == v || exists i :: 0 <= i < |moves| && moves[i].from == v
    ensures Chase(moves, v) == f(v)
    decreases |moves|
  {
    if moves != [] {
      var w := Step(moves[0], v);
      assert f(w) == f(v);
      assert Restores(moves[1..], f) by {
        forall i | 0 <= i < |moves| - 1 ensures moves[1..][i] == moves[i + 1] {}
      }
      if f(w) != w {
        var i :| 0 <= i < |moves| && moves[i].from == v;
        assert i != 0 && moves[1..][i - 1].from == w;
      }
      ChaseRestores(moves[1..], f, w);
    }
  }

  /** How the import sends policy references back: each placeholder to the current default's id. */
  function RestorePolicy(adminId: Value, publicId: Value): Value -> Value {
    (v: Value) => if v == AdminPolicyPlaceholder then adminId else if v == PublicPolicyPlaceholder then publicId else v
  }

  function RestoreRole(adminId: Value): Value -> Value {
    (v: Value) => if v == AdminRolePlaceholder then adminId else v
  }

  /** Records that agree outside `keys` and on each of `keys`, all of them set, are equal. */
  lemma AgreeOutside(a: Record, b: Record, keys: set<string>)
    requires Omit(a, keys) == Omit(b, keys)
    requires forall k :: k in keys ==> Field(a, k) == Field(b, k) && Field(a, k) != Undefined
    ensures a == b
  {
    assert a.Keys == b.Keys by {
      forall k ensures k in a <==> k in b {
        if k !in keys {
          assert k in a <==> k in Omit(a, keys);
          assert k in b <==> k in Omit(b, keys);
        }
      }
    }
    forall k | k in a ensures a[k] == b[k] {
      if k !in keys {
        assert Omit(a, keys)[k] == a[k];
      }
    }
  }

  /** Agreement outside a set of keys is agreement outside any larger set. */
  lemma OmitWider(a: Record, b: Record, small: set<string>, big: set<string>)
    requires small <= big && Omit(a, small) == Omit(b, small)
    ensures Omit(a, big) == Omit(b, big)
  {
    assert Omit(a, big) == Omit(a, small) - big;
    assert Omit(b, big) == Omit(b, small) - big;
  }

  /** A property outside the omitted keys is read the same from records equal outside them. */
  lemma FieldOutside(a: Record, b: Record, keys: set<string>, f: string)
    requires Omit(a, keys) == Omit(b, keys) && f !in keys
    ensures Field(a, f) == Field(b, f)
  {
    assert f in a <==> f in Omit(a, keys);
    assert f in b <==> f in Omit(b, keys);
    if f in a {
      assert Omit(a, keys)[f] == a[f];
    }
  }

  /**
   * The file the export writes: as written, or corrected to rewrite the permissions'
   * policy references too and to give only the two default links a relation placeholder.
   * The two differ only in the permissions and the access ids.
   */
  function Exported(c: Rights, corrected: bool): (e: Rights)
    ensures e.policies == RewriteDefaultsAsWritten(c).policies && e.roles == RewriteDefaultsAsWritten(c).roles
    ensures |e.access| == |c.access|
    ensures forall k :: 0 <= k < |c.access| ==>
              e.access[k] == if corrected then ExportAccess(c.access[k], FindOriginals(c))
                             else ExportAccessAsWritten(c.access[k], FindOriginals(c))
    ensures |e.permissions| == |c.permissions|
    ensures forall k :: 0 <= k < |c.permissions| ==>
              e.permissions[k] == if corrected then ExportPermission(c.permissions[k], FindOriginals(c)) else c.permissions[k]
  {
    if corrected then RewriteDefaults(c) else RewriteDefaultsAsWritten(c)
  }

  /** The export remembers the ids of the three defaults. */
  lemma OriginalsOf(c: Rights, ap: nat, pp: nat, ar: nat)
    requires Canonical(c, ap, pp, ar)
    ensures FindOriginals(c) == Originals(Id(c.policies[ap]), Id(c.policies[pp]), Id(c.roles[ar]))
  {
    DefaultPoliciesExclusive(c.policies[pp]);
    assert IsExportedPublicPolicy(c.policies[pp]);
  }

  /** `find` returns the one record that satisfies `p`. */
  lemma FoundTheOnlyOne(rs: seq<Record>, p: Record -> bool, k: nat)
    requires k < |rs| && p(rs[k]) && AtMostOne(rs, p)
    ensures FindFirst(rs, p) == Some(rs[k])
  {
    FindFirstUnique(rs, p, k);
  }

  /** The import finds the same three defaults. */
  lemma DefaultsOf(c: Rights, ap: nat, pp: nat, ar: nat)
    requires DefaultsAt(c, ap, pp, ar)
    ensures FindDefaults(c) == CurrentDefaults(Some(c.policies[ap]), Some(c.policies[pp]), Some(c.roles[ar]))
  {
    FoundTheOnlyOne(c.policies, IsDefaultAdminPolicy, ap);
    FoundTheOnlyOne(c.policies, IsDefaultPublicPolicy, pp);
    FoundTheOnlyOne(c.roles, IsDefaultAdminRole, ar);
  }

  /** A record readdressed back to its own id, after only its id changed, is itself plus perhaps `_originalId`. */
  lemma ReaddressBack(p: Record, e: Record, newId: Value)
    requires Id(p) != Undefined && OriginalIdKey !in p
    requires Omit(e, {"id"}) == Omit(p, {"id"}) && newId == Id(p)
    ensures Omit(Readdress(e, newId), {OriginalIdKey}) == p
  {
    var n := Readdress(e, newId);
    OmitWider(e, p, {"id"}, {"id", OriginalIdKey});
    OmitAbsent(p, {OriginalIdKey});
    assert Omit(Omit(n, {OriginalIdKey}), {"id"}) == Omit(n, {"id", OriginalIdKey});
    assert Omit(p, {"id", OriginalIdKey}) == Omit(p, {"id"});
    AgreeOutside(Omit(n, {OriginalIdKey}), p, {"id"});
  }

  /**
   * The import sends each exported policy back to the id it had: the move it makes maps
   * its source by `RestorePolicy`, and the readdressed policy is the current one.
   */
  lemma PolicyMoveBack(c: Rights, ap: nat, pp: nat, ar: nat, i: nat)
    requires Canonical(c, ap, pp, ar) && i < |c.policies|
    ensures var e := RewriteDefaultsAsWritten(c).policies[i];
            var d := FindDefaults(c);
            && PolicyTarget(e, d).Ok?
            && NewPolicyId(e, d) == Id(c.policies[i])
            && NewPolicyId(e, d) == RestorePolicy(Id(c.policies[ap]), Id(c.policies[pp]))(Id(e))
            && Omit(Readdress(e, NewPolicyId(e, d)), {OriginalIdKey}) == c.policies[i]
  {
    var p := c.policies[i];
    var e := RewriteDefaultsAsWritten(c).policies[i];
    DefaultsOf(c, ap, pp, ar);
    DefaultPoliciesExclusive(p);
    ReaddressBack(p, e, Id(p));
  }

  /** The same for roles. */
  lemma RoleMoveBack(c: Rights, ap: nat, pp: nat, ar: nat, i: nat)
    requires Canonical(c, ap, pp, ar) && i < |c.roles|
    ensures var e := RewriteDefaultsAsWritten(c).roles[i];
            var d := FindDefaults(c);
            && RoleTarget(e, d).Ok?
            && NewRoleId(e, d) == Id(c.roles[i])
            && NewRoleId(e, d) == RestoreRole(Id(c.roles[ar]))(Id(e))
            && Omit(Readdress(e, NewRoleId(e, d)), {OriginalIdKey}) == c.roles[i]
  {
    var r := c.roles[i];
    var e := RewriteDefaultsAsWritten(c).roles[i];
    DefaultsOf(c, ap, pp, ar);
    ReaddressBack(r, e, Id(r));
  }

  /** Every move maps its source by `f`, to a value `f` keeps. */
  predicate Restores(moves: seq<Move>, f: Value -> Value) {
    forall i :: 0 <= i < |moves| ==> moves[i].to == f(moves[i].from) && f(moves[i].to) == moves[i].to
  }

  /** The moves of the policy pass over the own export restore the default policies' ids. */
  lemma PolicyMovesRestore(c: Rights, ap: nat, pp: nat, ar: nat, corrected: bool)
    requires Canonical(c, ap, pp, ar)
    ensures var e := Exported(c, corrected);
            var moves := PolicyMoves(e.policies, FindDefaults(c));
            && Restores(moves, RestorePolicy(Id(c.policies[ap]), Id(c.policies[pp])))
            && moves[ap].from == AdminPolicyPlaceholder && moves[pp].from == PublicPolicyPlaceholder
            && RemapPolicies(e.policies, e.permissions, e.access, FindDefaults(c)).Ok?
  {
    var e := Exported(c, corrected);
    var d := FindDefaults(c);
    var f := RestorePolicy(Id(c.policies[ap]), Id(c.policies[pp]));
    var moves := PolicyMoves(e.policies, d);
    forall i | 0 <= i < |e.policies|
      ensures PolicyTarget(e.policies[i], d).Ok? && moves[i].to == f(moves[i].from) && f(moves[i].to) == moves[i].to
    {
      PolicyMoveBack(c, ap, pp, ar, i);
    }
    assert moves[ap].from == AdminPolicyPlaceholder by {
      assert IsDefaultAdminPolicy(c.policies[ap]);
    }
    assert moves[pp].from == PublicPolicyPlaceholder by {
      DefaultPoliciesExclusive(c.policies[pp]);
    }
  }

  /**
   * The policy pass over the own export gives back the current policies (each perhaps with
   * an `_originalId`) and the current permissions, and every access row names its original
   * policy again.
   */
  lemma PolicyPassBack(c: Rights, ap: nat, pp: nat, ar: nat, corrected: bool)
    requires Canonical(c, ap, pp, ar)
    ensures var e := Exported(c, corrected);
            var r := RemapPolicies(e.policies, e.permissions, e.access, FindDefaults(c));
            && r.Ok?
            && |r.value.policies| == |c.policies|
            && (forall i :: 0 <= i < |c.policies| ==> Omit(r.value.policies[i], {OriginalIdKey}) == c.policies[i])
            && r.value.permissions == c.permissions
            && |r.value.access| == |c.access|
            && (forall k :: 0 <= k < |c.access| ==> Field(r.value.access[k], "policy") == Field(c.access[k], "policy"))
            && (forall k :: 0 <= k < |c.access| ==> Omit(r.value.access[k], {"policy"}) == Omit(e.access[k], {"policy"}))
  {
    var e := Exported(c, corrected);
    var d := FindDefaults(c);
    var f := RestorePolicy(Id(c.policies[ap]), Id(c.policies[pp]));
    PolicyMovesRestore(c, ap, pp, ar, corrected);
    var r := RemapPolicies(e.policies, e.permissions, e.access, d).value;
    var moves := PolicyMoves(e.policies, d);
    PolicyPassKeepsPermissions(c, ap, pp, ar, corrected, r.permissions, moves, f);
    PolicyPassRestoresAccess(c, ap, pp, ar, corrected, r.access, moves, f);
    assert e.policies == RewriteDefaultsAsWritten(c).policies;
    PoliciesComeBack(c, ap, pp, ar, r.policies);
  }

  /** The readdressed exported policies are the current ones, up to `_originalId`. */
  lemma PoliciesComeBack(c: Rights, ap: nat, pp: nat, ar: nat, ps: seq<Record>)
    requires Canonical(c, ap, pp, ar)
    requires |ps| == |c.policies|
    requires forall i :: 0 <= i < |ps| ==>
               ps[i] == Readdress(RewriteDefaultsAsWritten(c).policies[i],
                                  NewPolicyId(RewriteDefaultsAsWritten(c).policies[i], FindDefaults(c)))
    ensures forall i :: 0 <= i < |ps| ==> Omit(ps[i], {OriginalIdKey}) == c.policies[i]
  {
    forall i | 0 <= i < |ps| ensures Omit(ps[i], {OriginalIdKey}) == c.policies[i] {
      PolicyMoveBack(c, ap, pp, ar, i);
    }
  }

  lemma PolicyPassKeepsPermissions(c: Rights, ap: nat, pp: nat, ar: nat, corrected: bool, out: seq<Record>,
                                   moves: seq<Move>, f: Value -> Value)
    requires Canonical(c, ap, pp, ar)
    requires f == RestorePolicy(Id(c.policies[ap]), Id(c.policies[pp])) && Restores(moves, f)
    requires ap < |moves| && pp < |moves|
    requires moves[ap].from == AdminPolicyPlaceholder && moves[pp].from == PublicPolicyPlaceholder
    requires ChasedFrom(out, Exported(c, corrected).permissions, "policy", moves)
    ensures out == c.permissions
  {
    var e := Exported(c, corrected);
    forall k | 0 <= k < |c.permissions| ensures out[k] == c.permissions[k] {
      var w := Field(e.permissions[k], "policy");
      PermissionBack(c, ap, pp, ar, corrected, k);
      if w == AdminPolicyPlaceholder {
        assert w == moves[ap].from;
      } else if w == PublicPolicyPlaceholder {
        assert w == moves[pp].from;
      }
      ChaseRestores(moves, f, w);
      RecordBack(out[k], e.permissions[k], c.permissions[k], "policy");
    }
  }

  /** A record rewritten only in `field`, to the original's value there, is the original. */
  lemma RecordBack(out: Record, e: Record, orig: Record, field: string)
    requires Omit(out, {field}) == Omit(e, {field}) && Omit(e, {field}) == Omit(orig, {field})
    requires Field(out, field) == Field(orig, field) != Undefined
    ensures out == orig
  {
    AgreeOutside(out, orig, {field});
  }

  /**
   * An exported permission differs from the current one at most in its policy reference,
   * which `RestorePolicy` sends back.
   */
  lemma PermissionBack(c: Rights, ap: nat, pp: nat, ar: nat, corrected: bool, k: nat)
    requires Canonical(c, ap, pp, ar) && k < |c.permissions|
    ensures var e := Exported(c, corrected).permissions[k];
            var w := Field(e, "policy");
            var f := RestorePolicy(Id(c.policies[ap]), Id(c.policies[pp]));
            && f(w) == Field(c.permissions[k], "policy")
            && (f(w) == w || w == AdminPolicyPlaceholder || w == PublicPolicyPlaceholder)
            && Omit(e, {"policy"}) == Omit(c.permissions[k], {"policy"})
  {
    OriginalsOf(c, ap, pp, ar);
    assert Id(c.policies[ap]) != Id(c.policies[pp]) by {
      DefaultPoliciesExclusive(c.policies[pp]);
    }
    assert NotPolicyPlaceholder(Field(c.permissions[k], "policy"));
  }

  lemma PolicyPassRestoresAccess(c: Rights, ap: nat, pp: nat, ar: nat, corrected: bool, out: seq<Record>,
                                 moves: seq<Move>, f: Value -> Value)
    requires Canonical(c, ap, pp, ar)
    requires f == RestorePolicy(Id(c.policies[ap]), Id(c.policies[pp])) && Restores(moves, f)
    requires ap < |moves| && pp < |moves|
    requires moves[ap].from == AdminPolicyPlaceholder && moves[pp].from == PublicPolicyPlaceholder
    requires ChasedFrom(out, Exported(c, corrected).access, "policy", moves)
    ensures forall k :: 0 <= k < |c.access| ==> Field(out[k], "policy") == Field(c.access[k], "policy")
  {
    var e := Exported(c, corrected);
    var xa, xp := Id(c.policies[ap]), Id(c.policies[pp]);
    OriginalsOf(c, ap, pp, ar);
    assert xa != xp by {
      DefaultPoliciesExclusive(c.policies[pp]);
    }
    forall k | 0 <= k < |c.access| ensures Field(out[k], "policy") == Field(c.access[k], "policy") {
      var v := Field(c.access[k], "policy");
      var w := Field(e.access[k], "policy");
      assert NotPolicyPlaceholder(v);
      if v == xa {
        assert w == moves[ap].from;
      } else if v == xp {
        assert w == moves[pp].from;
      } else {
        assert w == v;
      }
      ChaseRestores(moves, f, w);
    }
  }

  /** The moves of the role pass over the own export restore the admin role's id. */
  lemma RoleMovesRestore(c: Rights, ap: nat, pp: nat, ar: nat, access: seq<Record>)
    requires Canonical(c, ap, pp, ar)
    ensures var moves := RoleMoves(RewriteDefaultsAsWritten(c).roles, FindDefaults(c));
            && Restores(moves, RestoreRole(Id(c.roles[ar])))
            && moves[ar].from == AdminRolePlaceholder
            && RemapRoles(RewriteDefaultsAsWritten(c).roles, access, FindDefaults(c)).Ok?
  {
    var e := RewriteDefaultsAsWritten(c);
    var d := FindDefaults(c);
    var f := RestoreRole(Id(c.roles[ar]));
    var moves := RoleMoves(e.roles, d);
    forall i | 0 <= i < |e.roles|
      ensures RoleTarget(e.roles[i], d).Ok? && moves[i].to == f(moves[i].from) && f(moves[i].to) == moves[i].to
    {
      RoleMoveBack(c, ap, pp, ar, i);
    }
  }

  /**
   * The role pass, after the policy pass, gives back the current roles (each perhaps with an
   * `_originalId`), and every access row names its original role again.
   */
  lemma RolePassBack(c: Rights, ap: nat, pp: nat, ar: nat, corrected: bool, access: seq<Record>)
    requires Canonical(c, ap, pp, ar)
    requires |access| == |c.access|
    requires forall k :: 0 <= k < |c.access| ==>
               Field(access[k], "role") == Field(Exported(c, corrected).access[k], "role")
    ensures var r := RemapRoles(RewriteDefaultsAsWritten(c).roles, access, FindDefaults(c));
            && r.Ok?
            && |r.value.roles| == |c.roles|
            && (forall i :: 0 <= i < |c.roles| ==> Omit(r.value.roles[i], {OriginalIdKey}) == c.roles[i])
            && |r.value.access| == |c.access|
            && (forall k :: 0 <= k < |c.access| ==> Field(r.value.access[k], "role") == Field(c.access[k], "role"))
            && (forall k :: 0 <= k < |c.access| ==> Omit(r.value.access[k], {"role"}) == Omit(access[k], {"role"}))
  {
    var e := RewriteDefaultsAsWritten(c);
    var d := FindDefaults(c);
    var f := RestoreRole(Id(c.roles[ar]));
    RoleMovesRestore(c, ap, pp, ar, access);
    var r := RemapRoles(e.roles, access, d).value;
    var moves := RoleMoves(e.roles, d);
    RolePassRestoresAccess(c, ap, pp, ar, corrected, access, r.access, moves, f);
    forall i | 0 <= i < |c.roles| ensures Omit(r.roles[i], {OriginalIdKey}) == c.roles[i] {
      RoleMoveBack(c, ap, pp, ar, i);
    }
  }

  lemma RolePassRestoresAccess(c: Rights, ap: nat, pp: nat, ar: nat, corrected: bool, access: seq<Record>,
                               out: seq<Record>, moves: seq<Move>, f: Value -> Value)
    requires Canonical(c, ap, pp, ar)
    requires f == RestoreRole(Id(c.roles[ar])) && Restores(moves, f)
    requires ar < |moves| && moves[ar].from == AdminRolePlaceholder
    requires |access| == |c.access|
    requires forall k :: 0 <= k < |c.access| ==>
               Field(access[k], "role") == Field(Exported(c, corrected).access[k], "role")
    requires ChasedFrom(out, access, "role", moves)
    ensures forall k :: 0 <= k < |c.access| ==> Field(out[k], "role") == Field(c.access[k], "role")
  {
    forall k | 0 <= k < |c.access| ensures Field(out[k], "role") == Field(c.access[k], "role") {
      var w := Field(access[k], "role");
      RoleRefBack(c, ap, pp, ar, corrected, k);
      if w == AdminRolePlaceholder {
        assert w == moves[ar].from;
      }
      ChaseRestores(moves, f, w);
    }
  }

  /** An exported access row's role reference is sent back to the original by `RestoreRole`. */
  lemma RoleRefBack(c: Rights, ap: nat, pp: nat, ar: nat, corrected: bool, k: nat)
    requires Canonical(c, ap, pp, ar) && k < |c.access|
    ensures var w := Field(Exported(c, corrected).access[k], "role");
            && RestoreRole(Id(c.roles[ar]))(w) == Field(c.access[k], "role")
            && (w == AdminRolePlaceholder || RestoreRole(Id(c.roles[ar]))(w) == w)
  {
    OriginalsOf(c, ap, pp, ar);
    assert Field(c.access[k], "role") != AdminRolePlaceholder;
  }

  /** The keys the export and the two passes may change on an access row. */
  const LinkKeys: set<string> := {"id", "role", "policy"}

  /**
   * An access row after both passes: it names the original role and policy, carries the
   * exported id, and agrees with the original everywhere else.
   */
  lemma RowAfterPasses(c: Rights, corrected: bool, k: nat, x1: Record, x: Record)
    requires k < |c.access|
    requires var e := Exported(c, corrected).access[k];
             Omit(x1, {"policy"}) == Omit(e, {"policy"}) && Field(x1, "policy") == Field(c.access[k], "policy")
    requires Omit(x, {"role"}) == Omit(x1, {"role"}) && Field(x, "role") == Field(c.access[k], "role")
    ensures Field(x, "policy") == Field(c.access[k], "policy")
    ensures Id(x) == Id(Exported(c, corrected).access[k])
    ensures Omit(x, LinkKeys) == Omit(c.access[k], LinkKeys)
  {
    var e := Exported(c, corrected).access[k];
    FieldOutside(x, x1, {"role"}, "policy");
    FieldOutside(x, x1, {"role"}, "id");
    FieldOutside(x1, e, {"policy"}, "id");
    OmitWider(x, x1, {"role"}, LinkKeys);
    OmitWider(x1, e, {"policy"}, LinkKeys);
  }

  /** A readdressed record read outside `_originalId` is the record it came back to. */
  lemma StrippedFields(rs: seq<Record>, orig: seq<Record>)
    requires |rs| == |orig| && forall i :: 0 <= i < |rs| ==> Omit(rs[i], {OriginalIdKey}) == orig[i]
    requires UniqueIds(orig)
    ensures UniqueIds(rs)
    ensures forall i, f :: 0 <= i < |rs| && f != OriginalIdKey ==> Field(rs[i], f) == Field(orig[i], f)
  {
    forall i, f | 0 <= i < |rs| && f != OriginalIdKey ensures Field(rs[i], f) == Field(orig[i], f) {
      OmitAbsent(Omit(rs[i], {OriginalIdKey}), {OriginalIdKey});
      FieldOutside(rs[i], orig[i], {OriginalIdKey}, f);
    }
    assert forall i :: 0 <= i < |rs| ==> Id(rs[i]) == Id(orig[i]);
  }

  /** The policies and roles after both passes: the current ones, each perhaps with an `_originalId`. */
  ghost predicate CameBack(rs: seq<Record>, orig: seq<Record>) {
    |rs| == |orig| && forall i :: 0 <= i < |rs| ==> Omit(rs[i], {OriginalIdKey}) == orig[i]
  }

  /**
   * An access row naming the admin policy or the public policy is recognised as a default
   * link against the file policies and roles after both passes.
   */
  lemma DefaultLinkRecognised(c: Rights, ap: nat, pp: nat, ar: nat, x: Record, roles: seq<Record>,
                              policies: seq<Record>)
    requires Canonical(c, ap, pp, ar)
    requires CameBack(policies, c.policies) && CameBack(roles, c.roles)
    requires || (Field(x, "policy") == Id(c.policies[ap]) && Field(x, "role") == Id(c.roles[ar]))
             || (Field(x, "policy") == Id(c.policies[pp]) && Field(x, "role") == Null)
    ensures LinksDefault(x, roles, policies)
  {
    StrippedFields(roles, c.roles);
    StrippedFields(policies, c.policies);
    if Field(x, "policy") == Id(c.policies[ap]) && Field(x, "role") == Id(c.roles[ar]) {
      assert Id(roles[ar]) == Id(c.roles[ar]) && Id(policies[ap]) == Id(c.policies[ap]);
      assert Field(roles[ar], "description") == Field(c.roles[ar], "description");
      assert Field(roles[ar], "name") == Field(c.roles[ar], "name");
      assert Field(policies[ap], "description") == Field(c.policies[ap], "description");
      assert Field(policies[ap], "admin_access") == Field(c.policies[ap], "admin_access");
      AdminLinkRecognised(x, roles, policies, ar, ap);
    } else {
      assert Id(policies[pp]) == Id(c.policies[pp]);
      assert Field(policies[pp], "description") == Field(c.policies[pp], "description");
      assert Field(policies[pp], "admin_access") == Field(c.policies[pp], "admin_access");
      PublicLinkRecognised(x, roles, policies, pp);
    }
  }

  /** A row linking the admin role to the admin policy, both found by id, is a default link. */
  lemma AdminLinkRecognised(x: Record, roles: seq<Record>, policies: seq<Record>, ar: nat, ap: nat)
    requires UniqueIds(roles) && UniqueIds(policies) && ar < |roles| && ap < |policies|
    requires IsDefaultAdminRole(roles[ar]) && IsDefaultAdminPolicy(policies[ap])
    requires Field(x, "role") == Id(roles[ar]) && Field(x, "policy") == Id(policies[ap])
    ensures LinksDefault(x, roles, policies)
  {
    FirstWithIdUnique(roles, ar);
    FirstWithIdUnique(policies, ap);
  }

  /** A row linking no role to the public policy, found by id, is a default link. */
  lemma PublicLinkRecognised(x: Record, roles: seq<Record>, policies: seq<Record>, pp: nat)
    requires UniqueIds(policies) && pp < |policies|
    requires IsDefaultPublicPolicy(policies[pp])
    requires Field(x, "role") == Null && Field(x, "policy") == Id(policies[pp])
    ensures LinksDefault(x, roles, policies)
  {
    FirstWithIdUnique(policies, pp);
  }

  /** No other current access row has the same link, so the first match is the row itself. */
  lemma FirstMatchIsSelf(c: Rights, ap: nat, pp: nat, ar: nat, k: nat, x: Record)
    requires Canonical(c, ap, pp, ar) && k < |c.access|
    requires Field(x, "policy") == Field(c.access[k], "policy") && Field(x, "role") == Field(c.access[k], "role")
    ensures FindFirst(c.access, LinkMatcher(x)) == Some(c.access[k])
  {
    var m := FindFirst(c.access, LinkMatcher(x));
    assert LinkMatcher(x)(c.access[k]);
    var j :| 0 <= j < |c.access| && c.access[j] == m.value && LinkMatcher(x)(c.access[j]);
    assert SameLink(c.access[k], c.access[j]);
  }

  /** Id adoption gives an access row, after both passes, back its current id. */
  lemma AdoptedId(c: Rights, ap: nat, pp: nat, ar: nat, corrected: bool, k: nat, x: Record, roles: seq<Record>,
                  policies: seq<Record>)
    requires RoundTrips(c, ap, pp, ar, corrected) && k < |c.access|
    requires CameBack(policies, c.policies) && CameBack(roles, c.roles)
    requires Field(x, "policy") == Field(c.access[k], "policy") && Field(x, "role") == Field(c.access[k], "role")
    requires Id(x) == Id(Exported(c, corrected).access[k])
    ensures Id(AdoptAccessId(x, roles, policies, c.access)) == Id(c.access[k])
  {
    FirstMatchIsSelf(c, ap, pp, ar, k, x);
    ExportedIdChangesOnlyOnDefaultLinks(c, ap, pp, ar, corrected, k);
    if Id(x) != Id(c.access[k]) {
      DefaultLinkRecognised(c, ap, pp, ar, x, roles, policies);
    }
  }

  /**
   * The export gives an access row another id only when it links the admin role to the
   * admin policy or no role to the public policy: by construction when corrected, and by
   * the plain default links as written.
   */
  lemma ExportedIdChangesOnlyOnDefaultLinks(c: Rights, ap: nat, pp: nat, ar: nat, corrected: bool, k: nat)
    requires RoundTrips(c, ap, pp, ar, corrected) && k < |c.access|
    ensures var a := c.access[k];
            Id(Exported(c, corrected).access[k]) != Id(a) ==>
              || (Field(a, "policy") == Id(c.policies[ap]) && Field(a, "role") == Id(c.roles[ar]))
              || (Field(a, "policy") == Id(c.policies[pp]) && Field(a, "role") == Null)
  {
    OriginalsOf(c, ap, pp, ar);
  }

  /**
   * An access row that agrees with `a` outside the link keys and on role and policy is `a`
   * once it is given `a`'s id and nothing else changes.
   */
  lemma AdoptedRowIsCurrent(a: Record, x: Record, r: Record)
    requires Field(a, "id") != Undefined && Field(a, "role") != Undefined && Field(a, "policy") != Undefined
    requires Field(x, "policy") == Field(a, "policy") && Field(x, "role") == Field(a, "role")
    requires Omit(x, LinkKeys) == Omit(a, LinkKeys)
    requires Omit(r, {"id"}) == Omit(x, {"id"}) && Id(r) == Id(a)
    ensures r == a
  {
    FieldOutside(r, x, {"id"}, "role");
    FieldOutside(r, x, {"id"}, "policy");
    OmitWider(r, x, {"id"}, LinkKeys);
    AgreeOutside(r, a, LinkKeys);
  }

  /**
   * The import rewrite of the own export gives back the current setup: the current
   * policies and roles, each perhaps with an `_originalId`, and exactly the current
   * permissions and access rows.
   */
  lemma RewriteOfOwnExport(c: Rights, ap: nat, pp: nat, ar: nat, corrected: bool)
    requires RoundTrips(c, ap, pp, ar, corrected)
    ensures var r := RewriteFile(Exported(c, corrected), c);
            && r.Ok?
            && CameBack(r.value.policies, c.policies) && CameBack(r.value.roles, c.roles)
            && r.value.permissions == c.permissions && r.value.access == c.access
  {
    var e := Exported(c, corrected);
    var d := FindDefaults(c);
    PolicyPassBack(c, ap, pp, ar, corrected);
    var pol := RemapPolicies(e.policies, e.permissions, e.access, d).value;
    RoleOutsidePolicy(pol.access, e.access);
    RolePassBack(c, ap, pp, ar, corrected, pol.access);
    var rol := RemapRoles(e.roles, pol.access, d).value;
    AccessComesBack(c, ap, pp, ar, corrected, pol.access, rol.access, rol.roles, pol.policies);
    assert RewriteFile(e, c)
        == Ok(Rights(pol.policies, rol.roles, pol.permissions, AdoptAccessIds(rol.access, rol.roles, pol.policies, c.access)));
  }

  /** Id adoption after both passes gives back exactly the current access rows. */
  lemma AccessComesBack(c: Rights, ap: nat, pp: nat, ar: nat, corrected: bool, access1: seq<Record>,
                        access2: seq<Record>, roles: seq<Record>, policies: seq<Record>)
    requires RoundTrips(c, ap, pp, ar, corrected)
    requires CameBack(policies, c.policies) && CameBack(roles, c.roles)
    requires |access1| == |c.access| && |access2| == |c.access|
    requires forall k :: 0 <= k < |c.access| ==>
               && Omit(access1[k], {"policy"}) == Omit(Exported(c, corrected).access[k], {"policy"})
               && Field(access1[k], "policy") == Field(c.access[k], "policy")
    requires forall k :: 0 <= k < |c.access| ==>
               Omit(access2[k], {"role"}) == Omit(access1[k], {"role"}) && Field(access2[k], "role") == Field(c.access[k], "role")
    ensures AdoptAccessIds(access2, roles, policies, c.access) == c.access
  {
    var adopted := AdoptAccessIds(access2, roles, policies, c.access);
    forall k | 0 <= k < |c.access| ensures adopted[k] == c.access[k] {
      RowAfterPasses(c, corrected, k, access1[k], access2[k]);
      AdoptedId(c, ap, pp, ar, corrected, k, access2[k], roles, policies);
      AdoptedRowIsCurrent(c.access[k], access2[k], adopted[k]);
    }
  }

  /** Nothing of the current list is deleted when the file keeps every id, in place. */
  lemma NothingToDelete(current: seq<Record>, file: seq<Record>)
    requires |file| == |current| && forall i :: 0 <= i < |file| ==> Id(file[i]) == Id(current[i])
    ensures ToDelete(current, file) == []
  {
    var ids := ToDelete(current, file);
    forall v | HasId(current, v) ensures HasId(file, v) {
      var i :| 0 <= i < |current| && Id(current[i]) == v;
      assert Id(file[i]) == v;
    }
    NoMembersMeansEmpty(ids);
  }

  /** One kind of the current setup planned against a file that gives it back. */
  lemma KindPlanEmpty(file: seq<Record>, current: seq<Record>)
    requires UniqueIds(current) && forall i :: 0 <= i < |current| ==> OriginalIdKey !in current[i]
    requires CameBack(file, current)
    ensures Push.PlanKind(file, current) == NoChange
  {
    StrippedFields(file, current);
    PartitionOfSameRecords(file, current, current);
    NothingToDelete(current, file);
  }

  /** The plan of one kind when nothing changes. */
  const NoChange: Push.KindPlan := Push.KindPlan(Buckets([], []), [])

  /** The plan of pushing the own export: nothing to create, update or delete, of any kind. */
  lemma PlanOfOwnExportIsEmpty(c: Rights, ap: nat, pp: nat, ar: nat, corrected: bool)
    requires RoundTrips(c, ap, pp, ar, corrected)
    ensures var r := RewriteFile(Exported(c, corrected), c);
            r.Ok? && Push.PlanAll(r.value, c) == Push.Plan(NoChange, NoChange, NoChange, NoChange)
  {
    RewriteOfOwnExport(c, ap, pp, ar, corrected);
    var f := RewriteFile(Exported(c, corrected), c).value;
    KindPlanEmpty(f.policies, c.policies);
    KindPlanEmpty(f.roles, c.roles);
    OmitAllAbsent(c.permissions);
    OmitAllAbsent(c.access);
    KindPlanEmpty(f.permissions, c.permissions);
    KindPlanEmpty(f.access, c.access);
  }

  /** Records without `_originalId` come back as themselves. */
  lemma OmitAllAbsent(rs: seq<Record>)
    requires forall i :: 0 <= i < |rs| ==> OriginalIdKey !in rs[i]
    ensures CameBack(rs, rs)
  {
    forall i | 0 <= i < |rs| ensures Omit(rs[i], {OriginalIdKey}) == rs[i] {
      OmitAbsent(rs[i], {OriginalIdKey});
    }
  }

  /** Rows equal outside `policy` name the same role. */
  lemma RoleOutsidePolicy(xs: seq<Record>, ys: seq<Record>)
    requires |xs| == |ys| && forall k :: 0 <= k < |xs| ==> Omit(xs[k], {"policy"}) == Omit(ys[k], {"policy"})
    ensures forall k :: 0 <= k < |xs| ==> Field(xs[k], "role") == Field(ys[k], "role")
  {
    forall k | 0 <= k < |xs| ensures Field(xs[k], "role") == Field(ys[k], "role") {
      FieldOutside(xs[k], ys[k], {"policy"}, "role");
    }
  }

  /** The summary of one kind when nothing changes. */
  const Unchanged: Push.EntitySummary := Push.EntitySummary([], [], [])

  /** The writes a real push issues when nothing changes: four empty creates, no update, four empty deletes. */
  const EmptyWriteLog: seq<Push.Write> :=
    [Push.CreateMany(Roles, []), Push.CreateMany(Policies, []), Push.CreateMany(Permissions, []),
     Push.CreateMany(Access, []),
     Push.DeleteMany(Roles, []), Push.DeleteMany(Policies, []), Push.DeleteMany(Permissions, []),
     Push.DeleteMany(Access, [])]

  /**
   * Pull then push on the same instance: pushing the file the export wrote from the stored
   * setup back into that setup reports nothing created, updated or deleted, and a real run
   * issues only empty batch writes.
   */
  lemma PushOfOwnExportChangesNothing(stored: Rights, ap: nat, pp: nat, ar: nat, corrected: bool, dryRun: bool)
    requires RoundTrips(Projection.Project(stored), ap, pp, ar, corrected)
    ensures var r := Push.PushRights(true, Exported(Projection.Project(stored), corrected), stored, dryRun);
            && r.Ok?
            && r.value.summary == Push.Summary(Unchanged, Unchanged, Push.IdSummary([], [], []), Unchanged)
            && r.value.writes == if dryRun then [] else EmptyWriteLog
  {
    var c := Projection.Project(stored);
    var file := Exported(c, corrected);
    PlanOfOwnExportIsEmpty(c, ap, pp, ar, corrected);
    PushOfEmptyPlan(file, stored, dryRun);
    EmptyPlanReportsNothing(dryRun);
  }

  /** A file that rewrites to an empty plan is pushed as the empty plan. */
  lemma PushOfEmptyPlan(file: Rights, stored: Rights, dryRun: bool)
    requires var r := RewriteFile(file, Projection.Project(stored));
             r.Ok? && Push.PlanAll(r.value, Projection.Project(stored)) == Push.Plan(NoChange, NoChange, NoChange, NoChange)
    ensures Push.PushRights(true, file, stored, dryRun)
            == Ok(Push.Finish(Push.Plan(NoChange, NoChange, NoChange, NoChange), dryRun))
  {
  }

  /** The empty plan is summarised as empty and logged as empty batches. */
  lemma EmptyPlanReportsNothing(dryRun: bool)
    ensures var r := Push.Finish(Push.Plan(NoChange, NoChange, NoChange, NoChange), dryRun);
            && r.summary == Push.Summary(Unchanged, Unchanged, Push.IdSummary([], [], []), Unchanged)
            && r.writes == if dryRun then [] else EmptyWriteLog
  {
    var plan := Push.Plan(NoChange, NoChange, NoChange, NoChange);
    assert Push.Summarise(plan) == Push.Summary(Unchanged, Unchanged, Push.IdSummary([], [], []), Unchanged);
    assert Push.WriteLog(plan) == EmptyWriteLog;
  }
}
