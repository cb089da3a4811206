/**
 * `pushRights` without its service calls: the file is rewritten against the current
 * setup, each entity kind is split into creates, updates and deletes, the writes are
 * recorded in a log instead of being sent, and the summary of the changes is returned.
 */
module Push {
  import opened Wrappers
  import opened Js
  import opened Seqs
  import opened Records
  import opened Partition
  import opened Import
  import Projection

  /** What one entity kind needs: the create and update buckets and the ids to delete. */
  datatype KindPlan = KindPlan(buckets: Buckets, deleted: seq<Value>)

  function PlanKind(file: seq<Record>, current: seq<Record>): (k: KindPlan)
    ensures k.buckets == PartitionCreateUpdate(file, current)
    ensures forall v :: v in k.deleted ==> HasId(current, v) && !HasId(file, v)
    ensures forall i :: 0 <= i < |current| && !HasId(file, Id(current[i])) ==> Id(current[i]) in k.deleted
    ensures Disjoint(k)
  {
    MirrorDisjoint(file, current);
    KindPlan(PartitionCreateUpdate(file, current), ToDelete(current, file))
  }

  datatype Plan = Plan(roles: KindPlan, policies: KindPlan, permissions: KindPlan, access: KindPlan)

  function PlanAll(file: Rights, current: Rights): Plan {
    Plan(PlanKind(file.roles, current.roles), PlanKind(file.policies, current.policies),
         PlanKind(file.permissions, current.permissions), PlanKind(file.access, current.access))
  }

  /** The summary of one kind: short records of what is created and updated, and the deleted ids. */
  datatype EntitySummary = EntitySummary(created: seq<Record>, updated: seq<Record>, deleted: seq<Value>)

  /** Permissions are summarised by id only. */
  datatype IdSummary = IdSummary(created: seq<Value>, updated: seq<Value>, deleted: seq<Value>)

  datatype Summary = Summary(roles: EntitySummary, policies: EntitySummary, permissions: IdSummary,
                             access: EntitySummary)

  /** The properties kept of a created or updated role or policy. */
  const NamedKeys: set<string> := {"id", "name", OriginalIdKey}

  /** The properties kept of a created or updated access row. */
  const AccessKeys: set<string> := {"id", OriginalIdKey}

  function Shorten(keys: set<string>): Record -> Record {
    (r: Record) => Pick(r, keys)
  }

  function SummariseKind(k: KindPlan, keys: set<string>): (s: EntitySummary)
    ensures |s.created| == |k.buckets.toCreate| && |s.updated| == |k.buckets.toUpdate|
    ensures forall i :: 0 <= i < |s.created| ==>
              s.created[i].Keys == k.buckets.toCreate[i].Keys * keys && Id(s.created[i]) == Id(k.buckets.toCreate[i])
    ensures forall i, f :: 0 <= i < |s.created| && f in s.created[i] ==> s.created[i][f] == k.buckets.toCreate[i][f]
    ensures forall i :: 0 <= i < |s.updated| ==>
              s.updated[i].Keys == k.buckets.toUpdate[i].Keys * keys && Id(s.updated[i]) == Id(k.buckets.toUpdate[i])
    ensures forall i, f :: 0 <= i < |s.updated| && f in s.updated[i] ==> s.updated[i][f] == k.buckets.toUpdate[i][f]
    ensures s.deleted == k.deleted
    requires "id" in keys
  {
    EntitySummary(Map(k.buckets.toCreate, Shorten(keys)), Map(k.buckets.toUpdate, Shorten(keys)), k.deleted)
  }

  function Summarise(plan: Plan): (s: Summary)
    ensures s.roles.deleted == plan.roles.deleted && s.policies.deleted == plan.policies.deleted
    ensures s.permissions.deleted == plan.permissions.deleted && s.access.deleted == plan.access.deleted
    ensures |s.permissions.created| == |plan.permissions.buckets.toCreate|
            && forall i :: 0 <= i < |s.permissions.created| ==> s.permissions.created[i] == Id(plan.permissions.buckets.toCreate[i])
    ensures |s.permissions.updated| == |plan.permissions.buckets.toUpdate|
            && forall i :: 0 <= i < |s.permissions.updated| ==> s.permissions.updated[i] == Id(plan.permissions.buckets.toUpdate[i])
  {
    Summary(
      SummariseKind(plan.roles, NamedKeys),
      SummariseKind(plan.policies, NamedKeys),
      IdSummary(Ids(plan.permissions.buckets.toCreate), Ids(plan.permissions.buckets.toUpdate),
                plan.permissions.deleted),
      SummariseKind(plan.access, AccessKeys))
  }

  /** One write the push would send to the instance. */
  datatype Write =
    | CreateMany(kind: Kind, records: seq<Record>)
    | UpdateOne(kind: Kind, id: Value, record: Record)
    | DeleteMany(kind: Kind, ids: seq<Value>)

  function UpdateOf(kind: Kind): Record -> Write {
    (r: Record) => UpdateOne(kind, Id(r), r)
  }

  function Updates(kind: Kind, rs: seq<Record>): (ws: seq<Write>)
    ensures |ws| == |rs|
    ensures forall i :: 0 <= i < |rs| ==> ws[i] == UpdateOne(kind, Id(rs[i]), rs[i])
  {
    Map(rs, UpdateOf(kind))
  }

  /**
   * The writes in the order they are issued: the four creates (access rows without their
   * user), the updates of each kind, the four deletes.
   */
  function WriteLog(plan: Plan): seq<Write> {
    [CreateMany(Roles, plan.roles.buckets.toCreate),
     CreateMany(Policies, plan.policies.buckets.toCreate),
     CreateMany(Permissions, plan.permissions.buckets.toCreate),
     CreateMany(Access, Map(plan.access.buckets.toCreate, Projection.DetachUser))]
    + Updates(Roles, plan.roles.buckets.toUpdate)
    + Updates(Policies, plan.policies.buckets.toUpdate)
    + Updates(Permissions, plan.permissions.buckets.toUpdate)
    + Updates(Access, plan.access.buckets.toUpdate)
    + [DeleteMany(Roles, plan.roles.deleted),
       DeleteMany(Policies, plan.policies.deleted),
       DeleteMany(Permissions, plan.permissions.deleted),
       DeleteMany(Access, plan.access.deleted)]
  }

  /** `recs` are the rows of `rs`, in order, each with its `user` set to `null` and nothing else changed. */
  ghost predicate DetachedCopies(recs: seq<Record>, rs: seq<Record>) {
    && |recs| == |rs|
    && forall i :: 0 <= i < |rs| ==> Field(recs[i], "user") == Null && Omit(recs[i], {"user"}) == Omit(rs[i], {"user"})
  }

  /** `ws` updates the records of `rs` of `kind`, one write each, in order, each by its own id. */
  ghost predicate UpdatesEach(ws: seq<Write>, kind: Kind, rs: seq<Record>) {
    |ws| == |rs| && forall i :: 0 <= i < |rs| ==> ws[i] == UpdateOne(kind, Id(rs[i]), rs[i])
  }

  /**
   * A real run's log carries out `plan`: first the creates of roles, policies, permissions and
   * access rows (the access rows without their user), then the updates of each kind in the
   * same order, then the deletes in the same order.
   */
  ghost predicate LogFollowsPlan(writes: seq<Write>, plan: Plan) {
    var n1 := 4 + |plan.roles.buckets.toUpdate|;
    var n2 := n1 + |plan.policies.buckets.toUpdate|;
    var n3 := n2 + |plan.permissions.buckets.toUpdate|;
    var n4 := n3 + |plan.access.buckets.toUpdate|;
    && |writes| == n4 + 4
    && writes[0] == CreateMany(Roles, plan.roles.buckets.toCreate)
    && writes[1] == CreateMany(Policies, plan.policies.buckets.toCreate)
    && writes[2] == CreateMany(Permissions, plan.permissions.buckets.toCreate)
    && writes[3].CreateMany? && writes[3].kind == Access
    && DetachedCopies(writes[3].records, plan.access.buckets.toCreate)
    && UpdatesEach(writes[4..n1], Roles, plan.roles.buckets.toUpdate)
    && UpdatesEach(writes[n1..n2], Policies, plan.policies.buckets.toUpdate)
    && UpdatesEach(writes[n2..n3], Permissions, plan.permissions.buckets.toUpdate)
    && UpdatesEach(writes[n3..n4], Access, plan.access.buckets.toUpdate)
    && writes[n4] == DeleteMany(Roles, plan.roles.deleted)
    && writes[n4 + 1] == DeleteMany(Policies, plan.policies.deleted)
    && writes[n4 + 2] == DeleteMany(Permissions, plan.permissions.deleted)
    && writes[n4 + 3] == DeleteMany(Access, plan.access.deleted)
  }

  /** The log of a plan carries it out. */
  lemma WriteLogFollowsPlan(plan: Plan)
    ensures LogFollowsPlan(WriteLog(plan), plan)
  {
    var created := Map(plan.access.buckets.toCreate, Projection.DetachUser);
    DetachUserCopies(plan.access.buckets.toCreate, created);
    LogSegments([CreateMany(Roles, plan.roles.buckets.toCreate),
                 CreateMany(Policies, plan.policies.buckets.toCreate),
                 CreateMany(Permissions, plan.permissions.buckets.toCreate),
                 CreateMany(Access, created)],
                Updates(Roles, plan.roles.buckets.toUpdate),
                Updates(Policies, plan.policies.buckets.toUpdate),
                Updates(Permissions, plan.permissions.buckets.toUpdate),
                Updates(Access, plan.access.buckets.toUpdate),
                [DeleteMany(Roles, plan.roles.deleted),
                 DeleteMany(Policies, plan.policies.deleted),
                 DeleteMany(Permissions, plan.permissions.deleted),
                 DeleteMany(Access, plan.access.deleted)]);
  }

  /** Setting `user` to `null` on each row gives detached copies. */
  lemma DetachUserCopies(rs: seq<Record>, created: seq<Record>)
    requires created == Map(rs, Projection.DetachUser)
    ensures DetachedCopies(created, rs)
  {
    forall i | 0 <= i < |rs|
      ensures Field(created[i], "user") == Null && Omit(created[i], {"user"}) == Omit(rs[i], {"user"})
    {
      assert Omit(created[i], {"user"}) == Omit(rs[i], {"user"});
    }
  }

  /** The parts of a log of four creates, four runs of updates and four deletes. */
  lemma LogSegments(c: seq<Write>, u1: seq<Write>, u2: seq<Write>, u3: seq<Write>, u4: seq<Write>, d: seq<Write>)
    requires |c| == 4 && |d| == 4
    ensures var w := c + u1 + u2 + u3 + u4 + d;
            var n1 := 4 + |u1|;
            var n2 := n1 + |u2|;
            var n3 := n2 + |u3|;
            var n4 := n3 + |u4|;
            && |w| == n4 + 4
            && w[..4] == c && w[4..n1] == u1 && w[n1..n2] == u2 && w[n2..n3] == u3 && w[n3..n4] == u4
            && w[n4..] == d
  {
  }

  datatype PushResult = PushResult(summary: Summary, writes: seq<Write>)

  /** The summary of a plan, with the log of writes unless it is a dry run. */
  function Finish(plan: Plan, dryRun: bool): (r: PushResult)
    ensures r.summary == Summarise(plan)
    ensures dryRun ==> r.writes == []
    ensures !dryRun ==> LogFollowsPlan(r.writes, plan)
  {
    WriteLogFollowsPlan(plan);
    PushResult(Summarise(plan), if dryRun then [] else WriteLog(plan))
  }

  /** All file policies and roles can be given ids on the current instance. */
  predicate Resolvable(file: Rights, current: Rights) {
    && (forall i :: 0 <= i < |file.policies| ==> PolicyTarget(file.policies[i], FindDefaults(current)).Ok?)
    && (forall i :: 0 <= i < |file.roles| ==> RoleTarget(file.roles[i], FindDefaults(current)).Ok?)
  }

  /**
   * `pushRights(..., dryRun)` over the file's rights and the stored rights of the instance.
   * `includeRights` is the `AUTOSYNC_INCLUDE_RIGHTS` setting.
   */
  function PushRights(includeRights: bool, file: Rights, stored: Rights, dryRun: bool)
    : (r: Result<PushResult, PushError>)
    ensures r == Err(RightsDisabled) <==> !includeRights
    ensures includeRights ==> (r.Ok? <==> Resolvable(file, Projection.Project(stored)))
    ensures r.Ok? && dryRun ==> r.value.writes == []
    ensures r.Ok? ==> && RewriteFile(file, Projection.Project(stored)).Ok?
                      && var plan := PlanAll(RewriteFile(file, Projection.Project(stored)).value, Projection.Project(stored));
                      && r.value.summary == Summarise(plan)
                      && (!dryRun ==> LogFollowsPlan(r.value.writes, plan))
  {
    if !includeRights then Err(RightsDisabled) else PushOnto(file, Projection.Project(stored), dryRun)
  }

  /** The push once rights are enabled, onto the projected current rights. */
  function PushOnto(file: Rights, current: Rights, dryRun: bool): (r: Result<PushResult, PushError>)
    ensures r.Ok? <==> Resolvable(file, current)
    ensures r.Err? ==> r.error.MissingDefault?
    ensures r.Ok? && dryRun ==> r.value.writes == []
    ensures r.Ok? ==> && RewriteFile(file, current).Ok?
                      && var plan := PlanAll(RewriteFile(file, current).value, current);
                      && r.value.summary == Summarise(plan)
                      && (!dryRun ==> LogFollowsPlan(r.value.writes, plan))
  {
    var rewritten :- RewriteFile(file, current);
    Ok(Finish(PlanAll(rewritten, current), dryRun))
  }

  /** A dry run reports exactly what a real run reports, and issues no write. */
  lemma DryRunReportsTheSame(includeRights: bool, file: Rights, stored: Rights)
    ensures PushRights(includeRights, file, stored, true).Ok? <==> PushRights(includeRights, file, stored, false).Ok?
    ensures PushRights(includeRights, file, stored, true).Ok? ==>
              && PushRights(includeRights, file, stored, true).value.summary
                 == PushRights(includeRights, file, stored, false).value.summary
              && PushRights(includeRights, file, stored, true).value.writes == []
  {
  }

  /** A kind plan where nothing scheduled for deletion is also created or updated. */
  predicate Disjoint(k: KindPlan) {
    forall x :: x in k.buckets.toCreate + k.buckets.toUpdate ==> Id(x) !in k.deleted
  }

  /** The summary of disjoint plans reports no id both as deleted and as created or updated. */
  predicate SummaryDisjoint(s: Summary) {
    && (forall x :: x in s.roles.created + s.roles.updated ==> Id(x) !in s.roles.deleted)
    && (forall x :: x in s.policies.created + s.policies.updated ==> Id(x) !in s.policies.deleted)
    && (forall v :: v in s.permissions.created + s.permissions.updated ==> v !in s.permissions.deleted)
    && (forall x :: x in s.access.created + s.access.updated ==> Id(x) !in s.access.deleted)
  }

  /**
   * Mirror semantics in the summary: no deleted id is also reported as created or updated,
   * for any kind.
   */
  lemma SummaryIsDisjoint(includeRights: bool, file: Rights, stored: Rights, dryRun: bool)
    requires PushRights(includeRights, file, stored, dryRun).Ok?
    ensures SummaryDisjoint(PushRights(includeRights, file, stored, dryRun).value.summary)
  {
    var current := Projection.Project(stored);
    var rewritten := RewriteFile(file, current).value;
    PlanSummaryDisjoint(PlanAll(rewritten, current));
  }

  lemma PlanSummaryDisjoint(plan: Plan)
    requires Disjoint(plan.roles) && Disjoint(plan.policies) && Disjoint(plan.permissions) && Disjoint(plan.access)
    ensures SummaryDisjoint(Summarise(plan))
  {
    KindDisjoint(plan.roles, NamedKeys);
    KindDisjoint(plan.policies, NamedKeys);
    KindDisjoint(plan.access, AccessKeys);
    var s := Summarise(plan);
    var b := plan.permissions.buckets;
    forall v | v in s.permissions.created + s.permissions.updated ensures v !in s.permissions.deleted {
      if v in s.permissions.created {
        var i :| 0 <= i < |b.toCreate| && Ids(b.toCreate)[i] == v;
        assert b.toCreate[i] in b.toCreate + b.toUpdate;
      } else {
        var i :| 0 <= i < |b.toUpdate| && Ids(b.toUpdate)[i] == v;
        assert b.toUpdate[i] in b.toCreate + b.toUpdate;
      }
    }
  }

  lemma KindDisjoint(k: KindPlan, keys: set<string>)
    requires "id" in keys
    requires Disjoint(k)
    ensures var s := SummariseKind(k, keys);
            forall x :: x in s.created + s.updated ==> Id(x) !in s.deleted
  {
    var s := SummariseKind(k, keys);
    forall x | x in s.created + s.updated ensures Id(x) !in s.deleted {
      if x in s.created {
        var i :| 0 <= i < |s.created| && s.created[i] == x;
        assert k.buckets.toCreate[i] in k.buckets.toCreate + k.buckets.toUpdate;
      } else {
        var i :| 0 <= i < |s.updated| && s.updated[i] == x;
        assert k.buckets.toUpdate[i] in k.buckets.toCreate + k.buckets.toUpdate;
      }
    }
  }
}
