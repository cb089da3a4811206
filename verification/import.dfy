/**
 * The import side: the file's default policies and role are given the current instance's
 * ids, every permission and access reference follows them, and the access rows of the
 * default links take over the ids of the existing rows.
 */
module Import {
  import opened Wrappers
  import opened Js
  import opened Seqs
  import opened Records
  import opened Defaults
  import opened Partition

  datatype DefaultKind = AdminPolicy | PublicPolicy | AdminRole

  /** Why a push stops before writing anything. */
  datatype PushError =
    | RightsDisabled
      /** A file record is a default the current instance does not have (`.id` of `undefined`). */
    | MissingDefault(kind: DefaultKind)

  /** The current instance's defaults, each the first current record that matches (`.find`). */
  datatype CurrentDefaults = CurrentDefaults(
    adminPolicy: Option<Record>,
    publicPolicy: Option<Record>,
    adminRole: Option<Record>)

  function FindDefaults(current: Rights): (d: CurrentDefaults)
    ensures d.adminPolicy.None? <==> forall i :: 0 <= i < |current.policies| ==> !IsDefaultAdminPolicy(current.policies[i])
    ensures d.publicPolicy.None? <==> forall i :: 0 <= i < |current.policies| ==> !IsDefaultPublicPolicy(current.policies[i])
    ensures d.adminRole.None? <==> forall i :: 0 <= i < |current.roles| ==> !IsDefaultAdminRole(current.roles[i])
    ensures d.adminPolicy.Some? ==> IsFirst(current.policies, IsDefaultAdminPolicy, d.adminPolicy.value)
    ensures d.publicPolicy.Some? ==> IsFirst(current.policies, IsDefaultPublicPolicy, d.publicPolicy.value)
    ensures d.adminRole.Some? ==> IsFirst(current.roles, IsDefaultAdminRole, d.adminRole.value)
  {
    CurrentDefaults(
      FindFirst(current.policies, IsDefaultAdminPolicy),
      FindFirst(current.policies, IsDefaultPublicPolicy),
      FindFirst(current.roles, IsDefaultAdminRole))
  }

  /**
   * The id a file policy is given: the current admin policy's when it is the admin policy,
   * overridden by the current public policy's when it is (also) the public policy, its own
   * otherwise. The admin test runs first, so its missing default is reported first.
   */
  function PolicyTarget(p: Record, d: CurrentDefaults): (r: Result<Value, PushError>)
    ensures r.Ok? <==> (IsDefaultAdminPolicy(p) ==> d.adminPolicy.Some?)
                       && (IsDefaultPublicPolicy(p) ==> d.publicPolicy.Some?)
    ensures r.Err? && IsDefaultAdminPolicy(p) && d.adminPolicy.None? ==> r.error == MissingDefault(AdminPolicy)
    ensures r.Err? && !(IsDefaultAdminPolicy(p) && d.adminPolicy.None?) ==> r.error == MissingDefault(PublicPolicy)
    ensures r.Ok? && IsDefaultPublicPolicy(p) ==> r.value == Id(d.publicPolicy.value)
    ensures r.Ok? && IsDefaultAdminPolicy(p) && !IsDefaultPublicPolicy(p) ==> r.value == Id(d.adminPolicy.value)
    ensures r.Ok? && !IsDefaultAdminPolicy(p) && !IsDefaultPublicPolicy(p) ==> r.value == Id(p)
  {
    var afterAdmin :-
      if !IsDefaultAdminPolicy(p) then Ok(Id(p))
      else if d.adminPolicy.None? then Err(MissingDefault(AdminPolicy))
      else Ok(Id(d.adminPolicy.value));
    if !IsDefaultPublicPolicy(p) then Ok(afterAdmin)
    else if d.publicPolicy.None? then Err(MissingDefault(PublicPolicy))
    else Ok(Id(d.publicPolicy.value))
  }

  /** The id a file role is given; there is no default public role. */
  function RoleTarget(r: Record, d: CurrentDefaults): (t: Result<Value, PushError>)
    ensures t.Ok? <==> (IsDefaultAdminRole(r) ==> d.adminRole.Some?)
    ensures t.Err? ==> t.error == MissingDefault(AdminRole)
    ensures t.Ok? ==> t.value == if IsDefaultAdminRole(r) then Id(d.adminRole.value) else Id(r)
  {
    if !IsDefaultAdminRole(r) then Ok(Id(r))
    else if d.adminRole.None? then Err(MissingDefault(AdminRole))
    else Ok(Id(d.adminRole.value))
  }

  /** The new id of a file policy, its own where it cannot be resolved. */
  function NewPolicyId(p: Record, d: CurrentDefaults): Value {
    match PolicyTarget(p, d)
    case Ok(v) => v
    case Err(_) => Id(p)
  }

  function NewRoleId(r: Record, d: CurrentDefaults): Value {
    match RoleTarget(r, d)
    case Ok(v) => v
    case Err(_) => Id(r)
  }

  /**
   * `{ ...r, id: newId }`, with `_originalId` recording the old id exactly when the id
   * changed. Nothing else changes.
   */
  function Readdress(r: Record, newId: Value): (n: Record)
    ensures Id(n) == newId
    ensures newId != Id(r) ==> Field(n, OriginalIdKey) == Id(r)
    ensures newId == Id(r) ==> Field(n, OriginalIdKey) == Field(r, OriginalIdKey)
    ensures Omit(n, {"id", OriginalIdKey}) == Omit(r, {"id", OriginalIdKey})
  {
    var moved := r["id" := newId];
    if newId != Id(r) then moved[OriginalIdKey := Id(r)] else moved
  }

  /** One reference move: values equal to `from` become `to`. */
  datatype Move = Move(from: Value, to: Value)

  function Step(m: Move, v: Value): Value {
    if v == m.from then m.to else v
  }

  /** A value carried through the moves one after the other, as the sequential rewrite does. */
  function Chase(moves: seq<Move>, v: Value): Value
    decreases |moves|
  {
    if moves == [] then v else Chase(moves[1..], Step(moves[0], v))
  }

  /** The two-pass reading: the target of the first move whose source is `v`, or `v`. */
  function Lookup(moves: seq<Move>, v: Value): Value
    decreases |moves|
  {
    if moves == [] then v
    else if v == moves[0].from then moves[0].to
    else Lookup(moves[1..], v)
  }

  /** `rs.map((a) => a[field] === m.from ? { ...a, [field]: m.to } : a)`. */
  function Retarget(rs: seq<Record>, field: string, m: Move): (out: seq<Record>)
    ensures |out| == |rs|
    ensures forall k :: 0 <= k < |rs| ==> Field(out[k], field) == Step(m, Field(rs[k], field))
    ensures forall k :: 0 <= k < |rs| ==> Omit(out[k], {field}) == Omit(rs[k], {field})
  {
    Map(rs, (a: Record) => if Field(a, field) == m.from then a[field := m.to] else a)
  }

  function PolicyMove(p: Record, d: CurrentDefaults): Move {
    Move(Id(p), NewPolicyId(p, d))
  }

  function RoleMove(r: Record, d: CurrentDefaults): Move {
    Move(Id(r), NewRoleId(r, d))
  }

  /** The moves the policy pass makes, one per file policy. */
  function PolicyMoves(ps: seq<Record>, d: CurrentDefaults): (ms: seq<Move>)
    ensures |ms| == |ps| && forall i :: 0 <= i < |ps| ==> ms[i] == PolicyMove(ps[i], d)
  {
    Map(ps, (p: Record) => PolicyMove(p, d))
  }

  function RoleMoves(rs: seq<Record>, d: CurrentDefaults): (ms: seq<Move>)
    ensures |ms| == |rs| && forall i :: 0 <= i < |rs| ==> ms[i] == RoleMove(rs[i], d)
  {
    Map(rs, (r: Record) => RoleMove(r, d))
  }

  /** `rs` rewritten so that `field` of every record is chased through `moves`; nothing else differs. */
  predicate ChasedFrom(out: seq<Record>, rs: seq<Record>, field: string, moves: seq<Move>) {
    && |out| == |rs|
    && (forall k :: 0 <= k < |rs| ==> Field(out[k], field) == Chase(moves, Field(rs[k], field)))
    && (forall k :: 0 <= k < |rs| ==> Omit(out[k], {field}) == Omit(rs[k], {field}))
  }

  /** Retargeting by one move, then chasing the rest, is chasing all of them. */
  lemma ChasedFromStep(out: seq<Record>, rs: seq<Record>, field: string, m: Move, moves: seq<Move>)
    requires ChasedFrom(out, Retarget(rs, field, m), field, moves)
    ensures ChasedFrom(out, rs, field, [m] + moves)
  {
    var mid := Retarget(rs, field, m);
    assert ([m] + moves)[0] == m && ([m] + moves)[1..] == moves;
    forall k | 0 <= k < |rs| ensures Omit(out[k], {field}) == Omit(rs[k], {field}) {
      assert Omit(out[k], {field}) == Omit(mid[k], {field});
    }
  }

  lemma ChasedFromNone(rs: seq<Record>, field: string)
    ensures ChasedFrom(rs, rs, field, [])
  {
  }

  /** What the policy pass produces: the readdressed policies and the rewritten references. */
  datatype PolicyPass = PolicyPass(policies: seq<Record>, permissions: seq<Record>, access: seq<Record>)

  /** What the role pass produces. */
  datatype RolePass = RolePass(roles: seq<Record>, access: seq<Record>)

  /**
   * The policy pass as written: a left fold over the file policies that, for each policy in
   * turn, rewrites the access rows' and the permissions' references from its old id to its
   * new id, and readdresses the policy. It stops at the first policy whose default is missing.
   */
  function RemapPolicies(ps: seq<Record>, perms: seq<Record>, access: seq<Record>, d: CurrentDefaults)
    : (r: Result<PolicyPass, PushError>)
    ensures r.Ok? <==> forall i :: 0 <= i < |ps| ==> PolicyTarget(ps[i], d).Ok?
    ensures r.Err? ==> exists i :: 0 <= i < |ps| && PolicyTarget(ps[i], d).Err?
                                   && r.error == PolicyTarget(ps[i], d).error
                                   && forall j :: 0 <= j < i ==> PolicyTarget(ps[j], d).Ok?
    ensures r.Ok? ==> |r.value.policies| == |ps|
                      && forall i :: 0 <= i < |ps| ==> r.value.policies[i] == Readdress(ps[i], NewPolicyId(ps[i], d))
    ensures r.Ok? ==> ChasedFrom(r.value.permissions, perms, "policy", PolicyMoves(ps, d))
    ensures r.Ok? ==> ChasedFrom(r.value.access, access, "policy", PolicyMoves(ps, d))
    decreases |ps|
  {
    if ps == [] then
      ChasedFromNone(perms, "policy");
      ChasedFromNone(access, "policy");
      Ok(PolicyPass([], perms, access))
    else
      var p := ps[0];
      match PolicyTarget(p, d)
      case Err(e) => Err(e)
      case Ok(target) =>
        var m := Move(Id(p), target);
        var access' := Retarget(access, "policy", m);
        var perms' := Retarget(perms, "policy", m);
        match RemapPolicies(ps[1..], perms', access', d)
        case Err(e) =>
          PolicyErrorShift(ps, d, e);
          Err(e)
        case Ok(rest) =>
          PolicyTargetsShift(ps, d);
          PolicyPassStep(ps, perms, access, d, target, rest);
          Ok(PolicyPass([Readdress(p, target)] + rest.policies, rest.permissions, rest.access))
  }

  /** One step of the policy pass: the head's move in front of the tail's pass. */
  lemma PolicyPassStep(ps: seq<Record>, perms: seq<Record>, access: seq<Record>, d: CurrentDefaults,
                       target: Value, rest: PolicyPass)
    requires ps != [] && PolicyTarget(ps[0], d) == Ok(target)
    requires |rest.policies| == |ps| - 1
    requires forall i :: 0 <= i < |rest.policies| ==>
               rest.policies[i] == Readdress(ps[1..][i], NewPolicyId(ps[1..][i], d))
    requires ChasedFrom(rest.permissions, Retarget(perms, "policy", Move(Id(ps[0]), target)),
                        "policy", PolicyMoves(ps[1..], d))
    requires ChasedFrom(rest.access, Retarget(access, "policy", Move(Id(ps[0]), target)),
                        "policy", PolicyMoves(ps[1..], d))
    ensures var policies := [Readdress(ps[0], target)] + rest.policies;
            && |policies| == |ps|
            && (forall i :: 0 <= i < |ps| ==> policies[i] == Readdress(ps[i], NewPolicyId(ps[i], d)))
            && ChasedFrom(rest.permissions, perms, "policy", PolicyMoves(ps, d))
            && ChasedFrom(rest.access, access, "policy", PolicyMoves(ps, d))
  {
    var m := Move(Id(ps[0]), target);
    PolicyListCons(ps, d, target, rest.policies);
    PolicyMovesCons(ps, d, target);
    ChasedFromStep(rest.permissions, perms, "policy", m, PolicyMoves(ps[1..], d));
    ChasedFromStep(rest.access, access, "policy", m, PolicyMoves(ps[1..], d));
  }

  lemma PolicyMovesCons(ps: seq<Record>, d: CurrentDefaults, target: Value)
    requires ps != [] && PolicyTarget(ps[0], d) == Ok(target)
    ensures PolicyMoves(ps, d) == [Move(Id(ps[0]), target)] + PolicyMoves(ps[1..], d)
  {
    assert forall i :: 1 <= i < |ps| ==> ps[i] == ps[1..][i - 1];
  }

  /** The first failing policy of the tail is the first failing policy of the whole list. */
  lemma PolicyErrorShift(ps: seq<Record>, d: CurrentDefaults, e: PushError)
    requires ps != [] && PolicyTarget(ps[0], d).Ok?
    requires exists i :: 0 <= i < |ps| - 1 && PolicyTarget(ps[1..][i], d).Err? && e == PolicyTarget(ps[1..][i], d).error
                         && forall j :: 0 <= j < i ==> PolicyTarget(ps[1..][j], d).Ok?
    ensures exists i :: 0 <= i < |ps| && PolicyTarget(ps[i], d).Err? && e == PolicyTarget(ps[i], d).error
                        && forall j :: 0 <= j < i ==> PolicyTarget(ps[j], d).Ok?
  {
    var i :| 0 <= i < |ps| - 1 && PolicyTarget(ps[1..][i], d).Err? && e == PolicyTarget(ps[1..][i], d).error
             && forall j :: 0 <= j < i ==> PolicyTarget(ps[1..][j], d).Ok?;
    assert ps[i + 1] == ps[1..][i];
    forall j | 0 <= j < i + 1 ensures PolicyTarget(ps[j], d).Ok? {
      if j > 0 { assert ps[j] == ps[1..][j - 1]; }
    }
  }

  /** Every policy resolves exactly when the head and every policy of the tail do. */
  lemma PolicyTargetsShift(ps: seq<Record>, d: CurrentDefaults)
    requires ps != []
    ensures (forall i :: 0 <= i < |ps| ==> PolicyTarget(ps[i], d).Ok?)
            <==> PolicyTarget(ps[0], d).Ok? && forall i :: 0 <= i < |ps| - 1 ==> PolicyTarget(ps[1..][i], d).Ok?
  {
    assert forall i :: 1 <= i < |ps| ==> ps[i] == ps[1..][i - 1];
  }

  /** The readdressed head in front of the readdressed tail is the readdressed list. */
  lemma PolicyListCons(ps: seq<Record>, d: CurrentDefaults, target: Value, rest: seq<Record>)
    requires ps != [] && PolicyTarget(ps[0], d) == Ok(target)
    requires |rest| == |ps| - 1
    requires forall i :: 0 <= i < |rest| ==> rest[i] == Readdress(ps[1..][i], NewPolicyId(ps[1..][i], d))
    ensures forall i :: 0 <= i < |ps| ==> ([Readdress(ps[0], target)] + rest)[i] == Readdress(ps[i], NewPolicyId(ps[i], d))
  {
    var all := [Readdress(ps[0], target)] + rest;
    forall i | 0 <= i < |ps| ensures all[i] == Readdress(ps[i], NewPolicyId(ps[i], d)) {
      if i == 0 {
        assert NewPolicyId(ps[0], d) == target;
      } else {
        var x := ps[1..][i - 1];
        assert ps[i] == x && all[i] == rest[i - 1];
      }
    }
  }

  /** The role pass as written: the same fold over the file roles, rewriting access rows' `role`. */
  function RemapRoles(rs: seq<Record>, access: seq<Record>, d: CurrentDefaults): (r: Result<RolePass, PushError>)
    ensures r.Ok? <==> forall i :: 0 <= i < |rs| ==> RoleTarget(rs[i], d).Ok?
    ensures r.Err? ==> r.error == MissingDefault(AdminRole)
    ensures r.Ok? ==> |r.value.roles| == |rs|
                      && forall i :: 0 <= i < |rs| ==> r.value.roles[i] == Readdress(rs[i], NewRoleId(rs[i], d))
    ensures r.Ok? ==> ChasedFrom(r.value.access, access, "role", RoleMoves(rs, d))
    decreases |rs|
  {
    if rs == [] then
      ChasedFromNone(access, "role");
      Ok(RolePass([], access))
    else
      var role := rs[0];
      var target :- RoleTarget(role, d);
      var m := Move(Id(role), target);
      var access' := Retarget(access, "role", m);
      var rest :- RemapRoles(rs[1..], access', d);
      RolePassStep(rs, access, d, target, rest);
      Ok(RolePass([Readdress(role, target)] + rest.roles, rest.access))
  }

  /** One step of the role pass: the head's move in front of the tail's pass. */
  lemma RolePassStep(rs: seq<Record>, access: seq<Record>, d: CurrentDefaults, target: Value, rest: RolePass)
    requires rs != [] && RoleTarget(rs[0], d) == Ok(target)
    requires |rest.roles| == |rs| - 1
    requires forall i :: 0 <= i < |rest.roles| ==> rest.roles[i] == Readdress(rs[1..][i], NewRoleId(rs[1..][i], d))
    requires ChasedFrom(rest.access, Retarget(access, "role", Move(Id(rs[0]), target)), "role", RoleMoves(rs[1..], d))
    requires forall i :: 0 <= i < |rs| - 1 ==> RoleTarget(rs[1..][i], d).Ok?
    ensures forall i :: 0 <= i < |rs| ==> RoleTarget(rs[i], d).Ok?
    ensures var roles := [Readdress(rs[0], target)] + rest.roles;
            && |roles| == |rs|
            && (forall i :: 0 <= i < |rs| ==> roles[i] == Readdress(rs[i], NewRoleId(rs[i], d)))
            && ChasedFrom(rest.access, access, "role", RoleMoves(rs, d))
  {
    var m := Move(Id(rs[0]), target);
    RoleListCons(rs, d, target, rest.roles);
    RoleMovesCons(rs, d, target);
    ChasedFromStep(rest.access, access, "role", m, RoleMoves(rs[1..], d));
  }

  lemma RoleMovesCons(rs: seq<Record>, d: CurrentDefaults, target: Value)
    requires rs != [] && RoleTarget(rs[0], d) == Ok(target)
    ensures RoleMoves(rs, d) == [Move(Id(rs[0]), target)] + RoleMoves(rs[1..], d)
  {
    assert forall i :: 1 <= i < |rs| ==> rs[i] == rs[1..][i - 1];
  }

  /** The readdressed head role in front of the readdressed tail, all of whose roles resolve. */
  lemma RoleListCons(rs: seq<Record>, d: CurrentDefaults, target: Value, rest: seq<Record>)
    requires rs != [] && RoleTarget(rs[0], d) == Ok(target)
    requires |rest| == |rs| - 1
    requires forall i :: 0 <= i < |rest| ==> rest[i] == Readdress(rs[1..][i], NewRoleId(rs[1..][i], d))
    requires forall i :: 0 <= i < |rs| - 1 ==> RoleTarget(rs[1..][i], d).Ok?
    ensures forall i :: 0 <= i < |rs| ==> RoleTarget(rs[i], d).Ok?
    ensures forall i :: 0 <= i < |rs| ==> ([Readdress(rs[0], target)] + rest)[i] == Readdress(rs[i], NewRoleId(rs[i], d))
  {
    var all := [Readdress(rs[0], target)] + rest;
    forall i | 0 <= i < |rs|
      ensures RoleTarget(rs[i], d).Ok?
      ensures all[i] == Readdress(rs[i], NewRoleId(rs[i], d))
    {
      if i == 0 {
        assert NewRoleId(rs[0], d) == target;
      } else {
        var x := rs[1..][i - 1];
        assert rs[i] == x && all[i] == rest[i - 1];
      }
    }
  }

  /**
   * The moves cannot capture each other: their sources are distinct, and no target is the
   * source of a later move.
   */
  predicate NoCapture(moves: seq<Move>) {
    forall i, j :: 0 <= i < j < |moves| ==> moves[j].from != moves[i].from && moves[j].from != moves[i].to
  }

  /** A value that is no move's source passes through unchanged. */
  lemma {:induction false} ChaseUnmoved(moves: seq<Move>, v: Value)
    requires forall i :: 0 <= i < |moves| ==> moves[i].from != v
    ensures Chase(moves, v) == v
    decreases |moves|
  {
    if moves != [] {
      ChaseUnmoved(moves[1..], v);
    }
  }

  /** Without capture, the sequential rewrite equals the two-pass "build the table, then apply it". */
  lemma {:induction false} ChaseIsLookup(moves: seq<Move>, v: Value)
    requires NoCapture(moves)
    ensures Chase(moves, v) == Lookup(moves, v)
    decreases |moves|
  {
    if moves != [] {
      if v == moves[0].from {
        ChaseUnmoved(moves[1..], moves[0].to);
      } else {
        ChaseIsLookup(moves[1..], v);
      }
    }
  }

  /** With distinct sources, the table sends the source of move `i` to its target. */
  lemma {:induction false} LookupHits(moves: seq<Move>, i: nat)
    requires i < |moves| && forall j :: 0 <= j < i ==> moves[j].from != moves[i].from
    ensures Lookup(moves, moves[i].from) == moves[i].to
    decreases i
  {
    if i > 0 {
      LookupHits(moves[1..], i - 1);
    }
  }

  lemma {:induction false} LookupMisses(moves: seq<Move>, v: Value)
    requires forall j :: 0 <= j < |moves| ==> moves[j].from != v
    ensures Lookup(moves, v) == v
    decreases |moves|
  {
    if moves != [] {
      LookupMisses(moves[1..], v);
    }
  }

  /**
   * Without capture, the policy pass rewrites exactly the references to file policies: a
   * permission or access row naming file policy `i` ends up naming its new id, and one
   * naming no file policy keeps its reference.
   */
  lemma PolicyPassRewritesReferences(ps: seq<Record>, perms: seq<Record>, access: seq<Record>,
                                     d: CurrentDefaults, i: nat)
    requires RemapPolicies(ps, perms, access, d).Ok? && NoCapture(PolicyMoves(ps, d)) && i < |ps|
    ensures var out := RemapPolicies(ps, perms, access, d).value;
            && (forall k :: 0 <= k < |perms| && Field(perms[k], "policy") == Id(ps[i]) ==>
                  Field(out.permissions[k], "policy") == NewPolicyId(ps[i], d))
            && (forall k :: 0 <= k < |access| && Field(access[k], "policy") == Id(ps[i]) ==>
                  Field(out.access[k], "policy") == NewPolicyId(ps[i], d))
  {
    var moves := PolicyMoves(ps, d);
    ChaseIsLookup(moves, Id(ps[i]));
    LookupHits(moves, i);
  }

  /** References to no file policy are left alone by the policy pass: such rows come out unchanged. */
  lemma {:induction false} PolicyPassKeepsOtherReferences(ps: seq<Record>, perms: seq<Record>, access: seq<Record>,
                                                         d: CurrentDefaults, v: Value)
    requires RemapPolicies(ps, perms, access, d).Ok?
    requires forall i :: 0 <= i < |ps| ==> Id(ps[i]) != v
    ensures var out := RemapPolicies(ps, perms, access, d).value;
            && (forall k :: 0 <= k < |perms| && Field(perms[k], "policy") == v ==> out.permissions[k] == perms[k])
            && (forall k :: 0 <= k < |access| && Field(access[k], "policy") == v ==> out.access[k] == access[k])
    decreases |ps|
  {
    if ps != [] {
      var m := Move(Id(ps[0]), PolicyTarget(ps[0], d).value);
      var perms', access' := Retarget(perms, "policy", m), Retarget(access, "policy", m);
      var out := RemapPolicies(ps, perms, access, d).value;
      var rest := RemapPolicies(ps[1..], perms', access', d).value;
      assert out.permissions == rest.permissions && out.access == rest.access;
      PolicyPassKeepsOtherReferences(ps[1..], perms', access', d, v);
      forall k | 0 <= k < |perms| && Field(perms[k], "policy") == v ensures perms'[k] == perms[k] {}
      forall k | 0 <= k < |access| && Field(access[k], "policy") == v ensures access'[k] == access[k] {}
    }
  }

  /**
   * The chase invariant behind referential integrity: a reference that names the source
   * of some move ends up naming the target of some move, whatever the order of the moves.
   */
  lemma {:induction false} ChaseLands(moves: seq<Move>, v: Value)
    requires exists i :: 0 <= i < |moves| && moves[i].from == v
    ensures exists i :: 0 <= i < |moves| && moves[i].to == Chase(moves, v)
    decreases |moves|
  {
    var rest := moves[1..];
    var w := Step(moves[0], v);
    if exists i :: 0 <= i < |rest| && rest[i].from == w {
      ChaseLands(rest, w);
      var i :| 0 <= i < |rest| && rest[i].to == Chase(rest, w);
      assert moves[i + 1].to == Chase(moves, v);
    } else {
      ChaseUnmoved(rest, w);
      assert moves[0].to == Chase(moves, v);
    }
  }

  /**
   * Referential integrity of the policy pass: when every permission and access row names a
   * file policy, every one names a readdressed policy afterwards.
   */
  lemma PolicyPassKeepsReferences(ps: seq<Record>, perms: seq<Record>, access: seq<Record>, d: CurrentDefaults)
    requires RemapPolicies(ps, perms, access, d).Ok?
    requires forall k :: 0 <= k < |perms| ==> HasId(ps, Field(perms[k], "policy"))
    requires forall k :: 0 <= k < |access| ==> HasId(ps, Field(access[k], "policy"))
    ensures var out := RemapPolicies(ps, perms, access, d).value;
            && (forall k :: 0 <= k < |out.permissions| ==> HasId(out.policies, Field(out.permissions[k], "policy")))
            && (forall k :: 0 <= k < |out.access| ==> HasId(out.policies, Field(out.access[k], "policy")))
  {
    var out := RemapPolicies(ps, perms, access, d).value;
    var moves := PolicyMoves(ps, d);
    forall v | HasId(ps, v) ensures HasId(out.policies, Chase(moves, v)) {
      var i :| 0 <= i < |ps| && Id(ps[i]) == v;
      assert moves[i].from == v;
      ChaseLands(moves, v);
      var j :| 0 <= j < |moves| && moves[j].to == Chase(moves, v);
      assert Id(out.policies[j]) == Chase(moves, v);
    }
  }

  /** The access row links the file's default admin role to its admin policy, or no role to its public policy. */
  predicate LinksDefault(a: Record, roles: seq<Record>, policies: seq<Record>) {
    var referencedRole := FirstWithId(roles, Field(a, "role")).GetOr(map[]);
    var referencedPolicy := FirstWithId(policies, Field(a, "policy")).GetOr(map[]);
    || (IsDefaultAdminRole(referencedRole) && IsDefaultAdminPolicy(referencedPolicy))
    || (Field(a, "role") == Null && IsDefaultPublicPolicy(referencedPolicy))
  }

  function LinkMatcher(a: Record): Record -> bool {
    (c: Record) => SameLink(a, c)
  }

  /**
   * One access row after id adoption: a row of a default link takes the id of the first
   * current row with the same role and policy. Only the id can change; in particular no
   * `_originalId` is added.
   */
  function AdoptAccessId(a: Record, roles: seq<Record>, policies: seq<Record>, currentAccess: seq<Record>)
    : (r: Record)
    ensures Omit(r, {"id"}) == Omit(a, {"id"})
    ensures LinksDefault(a, roles, policies) && FindFirst(currentAccess, LinkMatcher(a)).Some? ==>
              Id(r) == Id(FindFirst(currentAccess, LinkMatcher(a)).value)
    ensures !LinksDefault(a, roles, policies) || (forall c :: c in currentAccess ==> !SameLink(a, c)) ==> r == a
    ensures Id(r) != Id(a) ==> exists c :: c in currentAccess && SameLink(a, c) && Id(r) == Id(c)
  {
    var matching := FindFirst(currentAccess, LinkMatcher(a));
    if LinksDefault(a, roles, policies) && matching.Some? then a["id" := Id(matching.value)] else a
  }

  function AccessAdopter(roles: seq<Record>, policies: seq<Record>, currentAccess: seq<Record>): Record -> Record {
    (a: Record) => AdoptAccessId(a, roles, policies, currentAccess)
  }

  function AdoptAccessIds(access: seq<Record>, roles: seq<Record>, policies: seq<Record>, currentAccess: seq<Record>)
    : (r: seq<Record>)
    ensures |r| == |access|
    ensures forall k :: 0 <= k < |access| ==> r[k] == AdoptAccessId(access[k], roles, policies, currentAccess)
  {
    Map(access, AccessAdopter(roles, policies, currentAccess))
  }

  /** The file after the import rewrite, ready to be partitioned against the current setup. */
  function RewriteFile(file: Rights, current: Rights): (r: Result<Rights, PushError>)
    ensures r.Ok? <==> (forall i :: 0 <= i < |file.policies| ==> PolicyTarget(file.policies[i], FindDefaults(current)).Ok?)
                       && (forall i :: 0 <= i < |file.roles| ==> RoleTarget(file.roles[i], FindDefaults(current)).Ok?)
    ensures r.Ok? ==> |r.value.policies| == |file.policies| && |r.value.roles| == |file.roles|
                      && |r.value.permissions| == |file.permissions| && |r.value.access| == |file.access|
    ensures r.Err? ==> r.error.MissingDefault?
  {
    var d := FindDefaults(current);
    var pol :- RemapPolicies(file.policies, file.permissions, file.access, d);
    var rol :- RemapRoles(file.roles, pol.access, d);
    Ok(Rights(pol.policies, rol.roles, pol.permissions,
              AdoptAccessIds(rol.access, rol.roles, pol.policies, current.access)))
  }
}
