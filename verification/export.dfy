/**
 * The export side: before the current setup is written to the sync file, the generated
 * ids of the default admin policy, public policy and admin role are replaced by fixed
 * placeholders, so that the file does not change between instances.
 */
module Export {
  import opened Js
  import opened Seqs
  import opened Records
  import opened Defaults

  /**
   * The real ids the export remembers while it rewrites: for each default, the id of the
   * last record classified as that default, or `Undefined` when there is none.
   */
  datatype Originals = Originals(adminPolicy: Value, publicPolicy: Value, adminRole: Value)

  /** The id of the last record satisfying `p`, or `Undefined` (the last assignment in a `map` wins). */
  function LastId(rs: seq<Record>, p: Record -> bool): (v: Value)
    ensures (forall i :: 0 <= i < |rs| ==> !p(rs[i])) ==> v == Undefined
    ensures (exists i :: 0 <= i < |rs| && p(rs[i])) ==>
              exists i :: 0 <= i < |rs| && p(rs[i]) && v == Id(rs[i])
                          && forall j :: i < j < |rs| ==> !p(rs[j])
    decreases |rs|
  {
    if rs == [] then Undefined
    else if p(rs[|rs| - 1]) then Id(rs[|rs| - 1])
    else
      var v := LastId(rs[..|rs| - 1], p);
      LastIdSkipsLast(rs, p, v);
      v
  }

  /** A last record that fails `p` does not change the answer for the records before it. */
  lemma LastIdSkipsLast(rs: seq<Record>, p: Record -> bool, v: Value)
    requires rs != [] && !p(rs[|rs| - 1])
    requires var init := rs[..|rs| - 1];
             && ((forall i :: 0 <= i < |init| ==> !p(init[i])) ==> v == Undefined)
             && ((exists i :: 0 <= i < |init| && p(init[i])) ==>
                   exists i :: 0 <= i < |init| && p(init[i]) && v == Id(init[i])
                               && forall j :: i < j < |init| ==> !p(init[j]))
    ensures (forall i :: 0 <= i < |rs| ==> !p(rs[i])) ==> v == Undefined
    ensures (exists i :: 0 <= i < |rs| && p(rs[i])) ==>
              exists i :: 0 <= i < |rs| && p(rs[i]) && v == Id(rs[i])
                          && forall j :: i < j < |rs| ==> !p(rs[j])
  {
    var init := rs[..|rs| - 1];
    assert forall i :: 0 <= i < |init| ==> init[i] == rs[i];
    if exists i :: 0 <= i < |rs| && p(rs[i]) {
      var i :| 0 <= i < |rs| && p(rs[i]);
      assert i < |init| && p(init[i]);
      var k :| 0 <= k < |init| && p(init[k]) && v == Id(init[k])
               && forall j :: k < j < |init| ==> !p(init[j]);
      assert rs[k] == init[k];
    }
  }

  /** The export classifies a policy as public only when it is not the admin policy (checked first). */
  predicate IsExportedPublicPolicy(p: Record) {
    !IsDefaultAdminPolicy(p) && IsDefaultPublicPolicy(p)
  }

  function FindOriginals(d: Rights): Originals {
    Originals(
      LastId(d.policies, IsDefaultAdminPolicy),
      LastId(d.policies, IsExportedPublicPolicy),
      LastId(d.roles, IsDefaultAdminRole))
  }

  /**
   * One exported policy: only the id may change, and the exported record is classified as
   * the same default as the original, with the admin test taking precedence.
   */
  function ExportPolicy(p: Record): (e: Record)
    ensures Omit(e, {"id"}) == Omit(p, {"id"})
    ensures Id(e) == if IsDefaultAdminPolicy(p) then AdminPolicyPlaceholder
                     else if IsDefaultPublicPolicy(p) then PublicPolicyPlaceholder
                     else Id(p)
    ensures IsDefaultAdminPolicy(e) <==> IsDefaultAdminPolicy(p)
    ensures !IsEntityPlaceholder(Id(p)) ==> (IsDefaultPublicPolicy(e) <==> IsExportedPublicPolicy(p))
  {
    if IsDefaultAdminPolicy(p) then p["id" := AdminPolicyPlaceholder]
    else if IsDefaultPublicPolicy(p) then
      HeuristicsExclusive(p);
      p["id" := PublicPolicyPlaceholder]
    else p
  }

  /** One exported role: only the id may change, and admin-role classification is kept. */
  function ExportRole(r: Record): (e: Record)
    ensures Omit(e, {"id"}) == Omit(r, {"id"})
    ensures Id(e) == if IsDefaultAdminRole(r) then AdminRolePlaceholder else Id(r)
    ensures IsDefaultAdminRole(e) <==> IsDefaultAdminRole(r)
  {
    if IsDefaultAdminRole(r) then r["id" := AdminRolePlaceholder] else r
  }

  /** Where a reference to policy `v` points after the export. */
  function PolicyRefAfterExport(v: Value, o: Originals): Value {
    if v == o.adminPolicy then AdminPolicyPlaceholder
    else if v == o.publicPolicy then PublicPolicyPlaceholder
    else v
  }

  /** Where a reference to role `v` points after the export. */
  function RoleRefAfterExport(v: Value, o: Originals): Value {
    if v == o.adminRole then AdminRolePlaceholder else v
  }

  /**
   * One exported access row as written: its role and policy references follow the defaults
   * to their placeholders, every row of a default policy takes that relation's placeholder
   * id whatever role it names, and nothing else changes.
   */
  function ExportAccessAsWritten(a: Record, o: Originals): (e: Record)
    ensures Field(e, "role") == RoleRefAfterExport(Field(a, "role"), o)
    ensures Field(e, "policy") == PolicyRefAfterExport(Field(a, "policy"), o)
    ensures Id(e) == if Field(a, "policy") == o.adminPolicy then AdminRelationPlaceholder
                     else if Field(a, "policy") == o.publicPolicy then PublicRelationPlaceholder
                     else Id(a)
    ensures Omit(e, {"id", "role", "policy"}) == Omit(a, {"id", "role", "policy"})
  {
    var withRole := if Field(a, "role") == o.adminRole then a["role" := AdminRolePlaceholder] else a;
    if Field(a, "policy") == o.adminPolicy then
      withRole["policy" := AdminPolicyPlaceholder]["id" := AdminRelationPlaceholder]
    else if Field(a, "policy") == o.publicPolicy then
      withRole["policy" := PublicPolicyPlaceholder]["id" := PublicRelationPlaceholder]
    else withRole
  }

  function AccessExporterAsWritten(o: Originals): Record -> Record {
    (a: Record) => ExportAccessAsWritten(a, o)
  }

  /** The admin role linked to the admin policy, as the export remembers them. */
  predicate IsAdminLink(a: Record, o: Originals) {
    Field(a, "role") == o.adminRole && Field(a, "policy") == o.adminPolicy
  }

  /** No role linked to the public policy. */
  predicate IsPublicLink(a: Record, o: Originals) {
    Field(a, "role") == Null && Field(a, "policy") == o.publicPolicy
  }

  /**
   * One exported access row, corrected: the references move as written, but only the two
   * links the import re-adopts, admin role to admin policy and no role to public policy,
   * take a relation placeholder id; every other row keeps its own.
   */
  function ExportAccess(a: Record, o: Originals): (e: Record)
    ensures Field(e, "role") == RoleRefAfterExport(Field(a, "role"), o)
    ensures Field(e, "policy") == PolicyRefAfterExport(Field(a, "policy"), o)
    ensures Id(e) == if IsAdminLink(a, o) then AdminRelationPlaceholder
                     else if IsPublicLink(a, o) then PublicRelationPlaceholder
                     else Id(a)
    ensures Omit(e, {"id", "role", "policy"}) == Omit(a, {"id", "role", "policy"})
  {
    var withRole := if Field(a, "role") == o.adminRole then a["role" := AdminRolePlaceholder] else a;
    var moved :=
      if Field(a, "policy") == o.adminPolicy then withRole["policy" := AdminPolicyPlaceholder]
      else if Field(a, "policy") == o.publicPolicy then withRole["policy" := PublicPolicyPlaceholder]
      else withRole;
    if IsAdminLink(a, o) then moved["id" := AdminRelationPlaceholder]
    else if IsPublicLink(a, o) then moved["id" := PublicRelationPlaceholder]
    else moved
  }

  function AccessExporter(o: Originals): Record -> Record {
    (a: Record) => ExportAccess(a, o)
  }

  /**
   * `rewriteDefaultsToPlaceholderIds` as written: policies, roles and access rows are
   * rewritten, the permissions are passed through untouched.
   */
  function RewriteDefaultsAsWritten(d: Rights): (e: Rights)
    ensures |e.policies| == |d.policies| && |e.roles| == |d.roles| && |e.access| == |d.access|
    ensures forall i :: 0 <= i < |e.policies| ==> e.policies[i] == ExportPolicy(d.policies[i])
    ensures forall i :: 0 <= i < |e.roles| ==> e.roles[i] == ExportRole(d.roles[i])
    ensures forall i :: 0 <= i < |e.access| ==> e.access[i] == ExportAccessAsWritten(d.access[i], FindOriginals(d))
    ensures e.permissions == d.permissions
  {
    var o := FindOriginals(d);
    Rights(Map(d.policies, ExportPolicy), Map(d.roles, ExportRole), d.permissions, Map(d.access, AccessExporterAsWritten(o)))
  }

  /** A permission's policy reference, rewritten like an access row's. */
  function ExportPermission(perm: Record, o: Originals): (e: Record)
    ensures Field(e, "policy") == PolicyRefAfterExport(Field(perm, "policy"), o)
    ensures Omit(e, {"policy"}) == Omit(perm, {"policy"})
  {
    if Field(perm, "policy") == o.adminPolicy then perm["policy" := AdminPolicyPlaceholder]
    else if Field(perm, "policy") == o.publicPolicy then perm["policy" := PublicPolicyPlaceholder]
    else perm
  }

  function PermissionExporter(o: Originals): Record -> Record {
    (perm: Record) => ExportPermission(perm, o)
  }

  /**
   * The corrected export: the permissions' policy references are rewritten as well, and
   * only the two default links take a relation placeholder id.
   */
  function RewriteDefaults(d: Rights): (e: Rights)
    ensures e.policies == RewriteDefaultsAsWritten(d).policies
    ensures e.roles == RewriteDefaultsAsWritten(d).roles
    ensures |e.access| == |d.access|
    ensures forall i :: 0 <= i < |e.access| ==> e.access[i] == ExportAccess(d.access[i], FindOriginals(d))
    ensures |e.permissions| == |d.permissions|
    ensures forall i :: 0 <= i < |e.permissions| ==> e.permissions[i] == ExportPermission(d.permissions[i], FindOriginals(d))
  {
    var o := FindOriginals(d);
    var w := RewriteDefaultsAsWritten(d);
    Rights(w.policies, w.roles, Map(d.permissions, PermissionExporter(o)), Map(d.access, AccessExporter(o)))
  }

  /** At most one record of `rs` satisfies `p`. */
  predicate AtMostOne(rs: seq<Record>, p: Record -> bool) {
    forall i, j :: 0 <= i < |rs| && 0 <= j < |rs| && p(rs[i]) && p(rs[j]) ==> i == j
  }

  /** Every record has a defined id. */
  predicate DefinedIds(rs: seq<Record>) {
    forall i :: 0 <= i < |rs| ==> Id(rs[i]) != Undefined
  }

  /** The shape of a setup whose defaults the export can tell apart. */
  predicate DistinctDefaults(d: Rights) {
    && UniqueIds(d.policies) && DefinedIds(d.policies)
    && UniqueIds(d.roles) && DefinedIds(d.roles)
    && AtMostOne(d.policies, IsDefaultAdminPolicy)
    && AtMostOne(d.policies, IsExportedPublicPolicy)
    && AtMostOne(d.roles, IsDefaultAdminRole)
  }

  /** Every permission names a policy of the setup. */
  predicate PermissionRefsResolve(d: Rights) {
    forall i :: 0 <= i < |d.permissions| ==> HasId(d.policies, Field(d.permissions[i], "policy"))
  }

  /** Every access row names a policy of the setup, and a role of it or none. */
  predicate AccessRefsResolve(d: Rights) {
    forall i :: 0 <= i < |d.access| ==>
      && HasId(d.policies, Field(d.access[i], "policy"))
      && (Field(d.access[i], "role") == Null || HasId(d.roles, Field(d.access[i], "role")))
  }

  /**
   * With distinct defaults, a reference to a policy of the setup, moved as the export moves
   * references, lands on the exported version of that policy.
   */
  lemma PolicyRefLands(d: Rights, k: nat)
    requires DistinctDefaults(d) && k < |d.policies|
    ensures var o := FindOriginals(d);
            Id(ExportPolicy(d.policies[k])) == PolicyRefAfterExport(Id(d.policies[k]), o)
  {
    var p := d.policies[k];
    var o := FindOriginals(d);
    if IsDefaultAdminPolicy(p) {
      assert o.adminPolicy == Id(p);
    } else {
      assert o.adminPolicy != Id(p);
      if IsExportedPublicPolicy(p) {
        assert o.publicPolicy == Id(p);
      } else {
        assert o.publicPolicy != Id(p);
      }
    }
  }

  /** With distinct defaults, a reference to a role of the setup lands on that role's exported version. */
  lemma RoleRefLands(d: Rights, k: nat)
    requires DistinctDefaults(d) && k < |d.roles|
    ensures Id(ExportRole(d.roles[k])) == RoleRefAfterExport(Id(d.roles[k]), FindOriginals(d))
  {
    var o := FindOriginals(d);
    if IsDefaultAdminRole(d.roles[k]) {
      assert o.adminRole == Id(d.roles[k]);
    } else {
      assert o.adminRole != Id(d.roles[k]);
    }
  }

  /** The written export keeps every access row pointing at an exported policy and role. */
  lemma ExportKeepsAccessRefs(d: Rights)
    requires DistinctDefaults(d) && AccessRefsResolve(d)
    requires forall i :: 0 <= i < |d.roles| ==> Id(d.roles[i]) != Null
    ensures AccessRefsResolve(RewriteDefaultsAsWritten(d))
  {
    var e := RewriteDefaultsAsWritten(d);
    var o := FindOriginals(d);
    assert o.adminRole != Null;
    forall i | 0 <= i < |e.access|
      ensures HasId(e.policies, Field(e.access[i], "policy"))
      ensures Field(e.access[i], "role") == Null || HasId(e.roles, Field(e.access[i], "role"))
    {
      var a := d.access[i];
      var q :| 0 <= q < |d.policies| && Id(d.policies[q]) == Field(a, "policy");
      PolicyRefLands(d, q);
      assert Id(e.policies[q]) == Field(e.access[i], "policy");
      if Field(a, "role") != Null {
        var r :| 0 <= r < |d.roles| && Id(d.roles[r]) == Field(a, "role");
        RoleRefLands(d, r);
        assert Id(e.roles[r]) == Field(e.access[i], "role");
      }
    }
  }

  /**
   * The corrected export keeps every permission pointing at an exported policy, so the
   * file is closed under its own references.
   */
  lemma RewriteDefaultsKeepsPermissionRefs(d: Rights)
    requires DistinctDefaults(d) && PermissionRefsResolve(d)
    ensures PermissionRefsResolve(RewriteDefaults(d))
  {
    var e := RewriteDefaults(d);
    forall i | 0 <= i < |e.permissions| ensures HasId(e.policies, Field(e.permissions[i], "policy")) {
      var q :| 0 <= q < |d.policies| && Id(d.policies[q]) == Field(d.permissions[i], "policy");
      PolicyRefLands(d, q);
      assert Id(e.policies[q]) == Field(e.permissions[i], "policy");
    }
  }

  /** No access id is spelled like a relation placeholder. */
  predicate NoRelationPlaceholderIds(rs: seq<Record>) {
    forall i :: 0 <= i < |rs| ==> Id(rs[i]) != AdminRelationPlaceholder && Id(rs[i]) != PublicRelationPlaceholder
  }

  /**
   * The corrected export keeps access ids unique: only one row can be the admin link and
   * only one the public link, and every other row keeps its own id.
   */
  lemma RewriteDefaultsKeepsAccessIdsUnique(d: Rights)
    requires UniqueIds(d.access) && DistinctLinks(d.access) && NoRelationPlaceholderIds(d.access)
    ensures UniqueIds(RewriteDefaults(d).access)
  {
    var e := RewriteDefaults(d).access;
    var o := FindOriginals(d);
    forall i, j | 0 <= i < |e| && 0 <= j < |e| && i != j ensures Id(e[i]) != Id(e[j]) {
      ExportedIdsDiffer(d.access[i], d.access[j], o);
    }
  }

  /** Two rows with different ids and different links keep different ids through the corrected export. */
  lemma ExportedIdsDiffer(a: Record, b: Record, o: Originals)
    requires Id(a) != Id(b) && !SameLink(a, b)
    requires Id(a) != AdminRelationPlaceholder && Id(a) != PublicRelationPlaceholder
    requires Id(b) != AdminRelationPlaceholder && Id(b) != PublicRelationPlaceholder
    ensures Id(ExportAccess(a, o)) != Id(ExportAccess(b, o))
  {
  }

  /** A setup with the admin policy linked to the admin role and to a second role `e`. */
  const AdminPolicyA: Record := map["id" := Str("a"), "description" := AdminDescription, "admin_access" := Bool(true)]
  const AdminRoleR: Record := map["id" := Str("r"), "description" := AdminDescription, "name" := AdminRoleName]
  const EditorRoleE: Record := map["id" := Str("e"), "name" := Str("Editor")]
  const AdminLinkR: Record := map["id" := Num(1), "role" := Str("r"), "policy" := Str("a")]
  const AdminLinkE: Record := map["id" := Num(2), "role" := Str("e"), "policy" := Str("a")]
  const TwoAdminLinks := Rights([AdminPolicyA], [AdminRoleR, EditorRoleE], [], [AdminLinkR, AdminLinkE])

  /** The records of that setup, read by index. */
  lemma TwoAdminLinksRecords()
    ensures var d := TwoAdminLinks;
            && |d.policies| == 1 && |d.roles| == 2 && |d.access| == 2
            && d.policies[0] == AdminPolicyA && d.roles[0] == AdminRoleR && d.roles[1] == EditorRoleE
            && d.access[0] == AdminLinkR && d.access[1] == AdminLinkE
  {
  }

  /** How the defaults tests classify its policy and roles. */
  lemma TwoAdminLinksClassified()
    ensures IsDefaultAdminPolicy(AdminPolicyA) && !IsExportedPublicPolicy(AdminPolicyA)
    ensures IsDefaultAdminRole(AdminRoleR) && !IsDefaultAdminRole(EditorRoleE)
    ensures Id(AdminPolicyA) == Str("a") && Id(AdminRoleR) == Str("r") && Id(EditorRoleE) == Str("e")
  {
    assert Field(AdminPolicyA, "description") == AdminDescription && Field(AdminPolicyA, "admin_access") == Bool(true);
    assert Field(AdminRoleR, "description") == AdminDescription && Field(AdminRoleR, "name") == AdminRoleName;
    assert Field(EditorRoleE, "description") == Undefined;
  }

  /** The ids and links of its access rows. */
  lemma TwoAdminLinksRows()
    ensures Id(AdminLinkR) == Num(1) && Id(AdminLinkE) == Num(2)
    ensures Field(AdminLinkR, "role") == Str("r") && Field(AdminLinkE, "role") == Str("e")
    ensures Field(AdminLinkR, "policy") == Str("a") && Field(AdminLinkE, "policy") == Str("a")
  {
  }

  /** The last of two records is found when only the first satisfies the test. */
  lemma LastIdOfPair(x: Record, y: Record, p: Record -> bool)
    requires p(x) && !p(y)
    ensures LastId([x, y], p) == Id(x)
  {
    assert [x, y][..1] == [x];
  }

  lemma TwoAdminLinksOriginals()
    ensures FindOriginals(TwoAdminLinks) == Originals(Str("a"), Undefined, Str("r"))
  {
    TwoAdminLinksRecords();
    TwoAdminLinksClassified();
    assert LastId([AdminPolicyA], IsDefaultAdminPolicy) == Str("a");
    assert LastId([AdminPolicyA], IsExportedPublicPolicy) == Undefined;
    LastIdOfPair(AdminRoleR, EditorRoleE, IsDefaultAdminRole);
  }

  lemma TwoAdminLinksIsWellFormed()
    ensures DistinctDefaults(TwoAdminLinks) && AccessRefsResolve(TwoAdminLinks)
    ensures UniqueIds(TwoAdminLinks.access) && DistinctLinks(TwoAdminLinks.access)
    ensures NoRelationPlaceholderIds(TwoAdminLinks.access)
  {
    TwoAdminLinksDefaults();
    TwoAdminLinksAccess();
  }

  lemma TwoAdminLinksDefaults()
    ensures DistinctDefaults(TwoAdminLinks)
  {
    TwoAdminLinksRecords();
    TwoAdminLinksClassified();
  }

  lemma TwoAdminLinksAccess()
    ensures AccessRefsResolve(TwoAdminLinks)
    ensures UniqueIds(TwoAdminLinks.access) && DistinctLinks(TwoAdminLinks.access)
    ensures NoRelationPlaceholderIds(TwoAdminLinks.access)
  {
    var d := TwoAdminLinks;
    TwoAdminLinksRecords();
    TwoAdminLinksClassified();
    TwoAdminLinksRows();
    assert HasId(d.policies, Str("a")) && HasId(d.roles, Str("r")) && HasId(d.roles, Str("e"));
  }

  /**
   * As written, the export gives both rows of the admin policy the id
   * `_default-admin-relation`, although the setup's ids and links are distinct; the
   * corrected export keeps the ids apart.
   */
  lemma ExportAsWrittenDuplicatesRelationId()
    ensures DistinctDefaults(TwoAdminLinks) && AccessRefsResolve(TwoAdminLinks)
    ensures UniqueIds(TwoAdminLinks.access) && DistinctLinks(TwoAdminLinks.access)
    ensures var e := RewriteDefaultsAsWritten(TwoAdminLinks).access;
            Id(e[0]) == AdminRelationPlaceholder && Id(e[1]) == AdminRelationPlaceholder
    ensures !UniqueIds(RewriteDefaultsAsWritten(TwoAdminLinks).access)
    ensures UniqueIds(RewriteDefaults(TwoAdminLinks).access)
  {
    TwoAdminLinksIsWellFormed();
    TwoAdminLinksOriginals();
    TwoAdminLinksRecords();
    TwoAdminLinksRows();
    RewriteDefaultsKeepsAccessIdsUnique(TwoAdminLinks);
  }

  /** A setup holding only the public policy `p1` and one permission of it. */
  const PublicOnly := Rights(
    [map["id" := Str("p1"), "description" := PublicDescription, "admin_access" := Bool(false)]],
    [], [map["id" := Num(1), "policy" := Str("p1")]], [])

  lemma PublicOnlyIsWellFormed()
    ensures DistinctDefaults(PublicOnly) && PermissionRefsResolve(PublicOnly)
  {
    var d := PublicOnly;
    assert IsExportedPublicPolicy(d.policies[0]) && !IsDefaultAdminPolicy(d.policies[0]);
    assert Id(d.policies[0]) == Field(d.permissions[0], "policy");
  }

  /** The as-written export of that setup moves the policy to its placeholder but not the permission. */
  lemma PublicOnlyExportAsWritten()
    ensures !PermissionRefsResolve(RewriteDefaultsAsWritten(PublicOnly))
  {
    var e := RewriteDefaultsAsWritten(PublicOnly);
    assert Id(e.policies[0]) == PublicPolicyPlaceholder != Str("p1");
    assert |e.policies| == 1 && !HasId(e.policies, Str("p1"));
    assert Field(e.permissions[0], "policy") == Str("p1");
  }

  /**
   * As written, the export leaves a permission of the public policy pointing at the
   * policy's real id, which the exported file no longer contains; the corrected export
   * does not.
   */
  lemma ExportAsWrittenDanglesPermission()
    ensures DistinctDefaults(PublicOnly) && PermissionRefsResolve(PublicOnly)
    ensures !PermissionRefsResolve(RewriteDefaultsAsWritten(PublicOnly))
    ensures PermissionRefsResolve(RewriteDefaults(PublicOnly))
  {
    PublicOnlyIsWellFormed();
    PublicOnlyExportAsWritten();
    RewriteDefaultsKeepsPermissionRefs(PublicOnly);
  }
}
