/**
 * Classification of the file's records against the current records of one entity kind:
 * what to create, what to update, and what to delete.
 */
module Partition {
  import opened Wrappers
  import opened Js
  import opened Seqs
  import opened Records

  /** The two write buckets, named instead of positional. */
  datatype Buckets = Buckets(toCreate: seq<Record>, toUpdate: seq<Record>)

  /** The side-channel key the import adds for reporting; never compared, never meant to persist. */
  const OriginalIdKey := "_originalId"

  /** `obj` has an id that the current records have. */
  function InCurrent(current: seq<Record>): Record -> bool {
    (obj: Record) => HasId(current, Id(obj))
  }

  function NotInCurrent(current: seq<Record>): Record -> bool {
    (obj: Record) => !HasId(current, Id(obj))
  }

  /** An update candidate differs from the current record with its id, once `_originalId` is ignored. */
  predicate Differs(obj: Record, current: seq<Record>)
    requires HasId(current, Id(obj))
  {
    Omit(obj, {OriginalIdKey}) != FirstWithId(current, Id(obj)).value
  }

  /** The filter that keeps only update candidates that would change something. */
  function NeedsUpdate(current: seq<Record>): Record -> bool {
    (obj: Record) => HasId(current, Id(obj)) && Differs(obj, current)
  }

  /** `lodash.partition(file, pred)`: `[pass, fail]`, each in file order. */
  function SplitByPresence(file: seq<Record>, current: seq<Record>): (seq<Record>, seq<Record>) {
    (Filter(file, InCurrent(current)), Filter(file, NotInCurrent(current)))
  }

  /** `partitionCreateUpdate(fromFiles, fromCurrent)`. */
  function PartitionCreateUpdate(file: seq<Record>, current: seq<Record>): (b: Buckets)
    ensures forall x :: x in b.toCreate <==> x in file && !HasId(current, Id(x))
    ensures forall x :: x in b.toUpdate <==> x in file && HasId(current, Id(x)) && Differs(x, current)
    ensures IsSubseq(b.toCreate, file) && IsSubseq(b.toUpdate, file)
  {
    var (candidates, toCreate) := SplitByPresence(file, current);
    var toUpdate := Filter(candidates, NeedsUpdate(current));
    SubseqTrans(toUpdate, candidates, file);
    Buckets(toCreate, toUpdate)
  }

  lemma {:induction false} SubseqTrans<T>(a: seq<T>, b: seq<T>, c: seq<T>)
    requires IsSubseq(a, b) && IsSubseq(b, c)
    ensures IsSubseq(a, c)
    decreases |c|
  {
    if a == [] {
    } else if c == [] {
    } else if b != [] && a[0] == b[0] && IsSubseq(a[1..], b[1..]) {
      if b[0] == c[0] && IsSubseq(b[1..], c[1..]) {
        SubseqTrans(a[1..], b[1..], c[1..]);
      } else {
        SubseqTrans(a, b, c[1..]);
      }
    } else {
      assert b != [] && IsSubseq(a, b[1..]);
      if b[0] == c[0] && IsSubseq(b[1..], c[1..]) {
        SubseqTrans(a, b[1..], c[1..]);
      } else {
        SubseqTrans(a, b, c[1..]);
      }
    }
  }

  /**
   * Before the no-op filter, every file record lands in exactly one bucket: the update
   * candidates when its id is current, the creates otherwise.
   */
  lemma {:induction false} SplitIsExhaustive(file: seq<Record>, current: seq<Record>)
    ensures var (upd, cre) := SplitByPresence(file, current);
            |upd| + |cre| == |file| && multiset(upd) + multiset(cre) == multiset(file)
  {
    if file != [] {
      SplitIsExhaustive(file[1..], current);
      assert file == [file[0]] + file[1..];
    }
  }

  /**
   * A list with unique ids and no `_originalId` partitioned against itself yields nothing
   * to create and nothing to update: applying the same data twice is a no-op.
   */
  lemma {:induction false} PartitionAgainstItself(rs: seq<Record>)
    requires UniqueIds(rs)
    requires forall i :: 0 <= i < |rs| ==> OriginalIdKey !in rs[i]
    ensures PartitionCreateUpdate(rs, rs) == Buckets([], [])
  {
    PartitionOfSameRecords(rs, rs, rs);
  }

  /**
   * More generally: when the file holds the current records, each perhaps with an added
   * `_originalId`, both buckets are empty.
   */
  lemma {:induction false} PartitionOfSameRecords(file: seq<Record>, stripped: seq<Record>, current: seq<Record>)
    requires UniqueIds(current)
    requires |file| == |stripped| && (forall i :: 0 <= i < |stripped| ==> stripped[i] in current)
    requires forall i :: 0 <= i < |file| ==> Omit(file[i], {OriginalIdKey}) == stripped[i]
    requires forall i :: 0 <= i < |stripped| ==> OriginalIdKey !in stripped[i]
    requires forall i :: 0 <= i < |file| ==> Id(file[i]) == Id(stripped[i])
    ensures PartitionCreateUpdate(file, current) == Buckets([], [])
  {
    var b := PartitionCreateUpdate(file, current);
    forall x | x in file
      ensures HasId(current, Id(x)) && !Differs(x, current)
    {
      var i :| 0 <= i < |file| && file[i] == x;
      var k :| 0 <= k < |current| && current[k] == stripped[i];
      FirstWithIdUnique(current, k);
    }
    assert forall x :: x !in b.toCreate && x !in b.toUpdate;
  }

  /** The ids, in current order, of the current records no file record carries. */
  function ToDelete(current: seq<Record>, file: seq<Record>): (ids: seq<Value>)
    ensures |ids| <= |current|
    ensures forall v :: v in ids ==> HasId(current, v) && !HasId(file, v)
    ensures forall i :: 0 <= i < |current| && !HasId(file, Id(current[i])) ==> Id(current[i]) in ids
    ensures IsSubseq(ids, Ids(current))
  {
    if current == [] then []
    else
      var rest := ToDelete(current[1..], file);
      assert Ids(current) == [Id(current[0])] + Ids(current[1..]);
      assert forall v :: HasId(current[1..], v) ==> HasId(current, v) by {
        forall v | HasId(current[1..], v) ensures HasId(current, v) {
          var i :| 0 <= i < |current[1..]| && Id(current[1..][i]) == v;
          assert Id(current[i + 1]) == v;
        }
      }
      assert forall i :: 1 <= i < |current| ==> current[i] == current[1..][i - 1];
      if HasId(file, Id(current[0])) then rest else [Id(current[0])] + rest
  }

  /**
   * Mirror semantics: no id scheduled for deletion is also created or updated, and every
   * file record whose id is absent from current is created.
   */
  lemma MirrorDisjoint(file: seq<Record>, current: seq<Record>)
    ensures var b := PartitionCreateUpdate(file, current);
            var del := ToDelete(current, file);
            (forall x :: x in b.toCreate ==> Id(x) !in del)
            && (forall x :: x in b.toUpdate ==> Id(x) !in del)
            && (forall x :: x in b.toCreate ==> x !in b.toUpdate)
  {
    var b := PartitionCreateUpdate(file, current);
    forall x | x in b.toCreate + b.toUpdate
      ensures HasId(file, Id(x))
    {
      var i :| 0 <= i < |file| && file[i] == x;
    }
  }
}
