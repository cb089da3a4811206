/**
 * The four access-control collections and the id lookups over them.
 *
 * Every lookup compares with the strict equality of the engine (`x.id === y`), so a
 * record without an `id` key has the id `Undefined`.
 */
module Records {
  import opened Wrappers
  import opened Js
  import opened Seqs

  /** One rights data set: the sync file's JSON document, or the current instance's state. */
  datatype Rights = Rights(
    policies: seq<Record>,
    roles: seq<Record>,
    permissions: seq<Record>,
    access: seq<Record>)

  /** The four entity collections, in the order the engine writes them. */
  datatype Kind = Roles | Policies | Permissions | Access

  function Id(r: Record): Value {
    Field(r, "id")
  }

  /** Some record of `rs` has id `id` (`!!rs.find((x) => x.id === id)`). */
  predicate HasId(rs: seq<Record>, id: Value) {
    exists i :: 0 <= i < |rs| && Id(rs[i]) == id
  }

  /** The test `(x) => x.id === id`. */
  function IdIs(id: Value): Record -> bool {
    (x: Record) => Id(x) == id
  }

  /** `rs.find((x) => x.id === id)`. */
  function FirstWithId(rs: seq<Record>, id: Value): (r: Option<Record>)
    ensures r.None? <==> !HasId(rs, id)
    ensures r.Some? ==> r.value in rs && Id(r.value) == id
    ensures r.Some? ==> exists i :: 0 <= i < |rs| && rs[i] == r.value
                                    && forall j :: 0 <= j < i ==> Id(rs[j]) != id
  {
    FindFirst(rs, IdIs(id))
  }

  /** Two access rows with the same role and the same policy. */
  predicate SameLink(a: Record, c: Record) {
    Field(c, "role") == Field(a, "role") && Field(c, "policy") == Field(a, "policy")
  }

  /** No two access rows of `rs` link the same role to the same policy. */
  predicate DistinctLinks(rs: seq<Record>) {
    forall i, j :: 0 <= i < |rs| && 0 <= j < |rs| && i != j ==> !SameLink(rs[i], rs[j])
  }

  /** No two records of `rs` share an id. */
  predicate UniqueIds(rs: seq<Record>) {
    forall i, j :: 0 <= i < |rs| && 0 <= j < |rs| && i != j ==> Id(rs[i]) != Id(rs[j])
  }

  /** With unique ids, the record found for `rs[k]`'s id is `rs[k]` itself. */
  lemma FirstWithIdUnique(rs: seq<Record>, k: nat)
    requires UniqueIds(rs) && k < |rs|
    ensures FirstWithId(rs, Id(rs[k])) == Some(rs[k])
  {
    var r := FirstWithId(rs, Id(rs[k]));
    var i :| 0 <= i < |rs| && rs[i] == r.value && forall j :: 0 <= j < i ==> Id(rs[j]) != Id(rs[k]);
    assert i == k;
  }

  /** The ids of `rs`, in order. */
  function Ids(rs: seq<Record>): (ids: seq<Value>)
    ensures |ids| == |rs|
    ensures forall i :: 0 <= i < |rs| ==> ids[i] == Id(rs[i])
  {
    seq(|rs|, i requires 0 <= i < |rs| => Id(rs[i]))
  }
}
