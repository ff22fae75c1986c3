// VM ids for the bootstrap sequence: the smallest ids from 100 up that no guest uses.

module VmIds {
  import opened Options
  import opened Sorting

  /** The ids the guests carry; a guest without an id contributes None. */
  function Used(vms: seq<Option<int>>, containers: seq<Option<int>>): (used: set<Option<int>>)
    ensures forall u :: u in used <==> u in vms || u in containers
  {
    (set v | v in vms) + (set c | c in containers)
  }

  predicate Free(used: set<Option<int>>, n: int) {
    n >= 100 && Some(n) !in used
  }

  /** The used ids from 100 to n - 1. */
  ghost function UsedBelow(used: set<Option<int>>, n: int): set<Option<int>> {
    set u | u in used && u.Some? && 100 <= u.value < n
  }

  lemma UsedGrows(used: set<Option<int>>, n: int)
    requires n >= 100
    ensures UsedBelow(used, n + 1) == if Some(n) in used then UsedBelow(used, n) + {Some(n)} else UsedBelow(used, n)
    ensures |UsedBelow(used, n + 1)| == |UsedBelow(used, n)| + if Some(n) in used then 1 else 0
  {
    assert Some(n) !in UsedBelow(used, n);
  }

  method NextAvailable(vms: seq<Option<int>>, containers: seq<Option<int>>) returns (candidate: int)
    ensures candidate >= 100 && Some(candidate) !in vms && Some(candidate) !in containers
    ensures forall n :: n >= 100 && Some(n) !in vms && Some(n) !in containers ==> candidate <= n
    ensures candidate <= 100 + |Used(vms, containers)|
  {
    var used := Used(vms, containers);
    candidate := 100;
    assert UsedBelow(used, 100) == {};
    while Some(candidate) in used
      invariant candidate >= 100 && forall n :: 100 <= n < candidate ==> Some(n) in used
      invariant candidate - 100 == |UsedBelow(used, candidate)|
      decreases 100 + |used| - candidate
    {
      UsedGrows(used, candidate);
      SubsetCount(UsedBelow(used, candidate + 1), used);
      candidate := candidate + 1;
    }
    SubsetCount(UsedBelow(used, candidate), used);
  }

  ghost predicate Increasing(ids: seq<int>) {
    forall i, j :: 0 <= i < j < |ids| ==> ids[i] < ids[j]
  }

  /** The smallest free ids, in increasing order: nothing free is missing before the last of them. */
  ghost predicate AreSmallestFree(used: set<Option<int>>, ids: seq<int>) {
    && Increasing(ids)
    && (forall id :: id in ids ==> Free(used, id))
    && (forall n :: Free(used, n) && n !in ids ==> forall id :: id in ids ==> id < n)
  }

  lemma AppendId(ids: seq<int>, n: int)
    requires Increasing(ids) && forall id :: id in ids ==> id < n
    ensures Increasing(ids + [n]) && forall id :: id in ids + [n] <==> id in ids || id == n
  {
    var more := ids + [n];
    assert more[|ids|] == n && forall i :: 0 <= i < |ids| ==> more[i] == ids[i] && ids[i] in ids;
  }

  method VmIdSequence(vms: seq<Option<int>>, containers: seq<Option<int>>, count: int) returns (ids: seq<int>)
    ensures |ids| == if count > 0 then count else 0
    ensures AreSmallestFree(Used(vms, containers), ids)
    ensures forall id :: id in ids ==> id >= 100 && Some(id) !in vms && Some(id) !in containers
    ensures forall id :: id in ids ==> id <= 99 + |Used(vms, containers)| + count
  {
    var used := Used(vms, containers);
    ids := [];
    var candidate := 100;
    assert UsedBelow(used, 100) == {};
    while |ids| < count
      invariant |ids| <= if count > 0 then count else 0
      invariant Increasing(ids) && forall id :: id in ids ==> Free(used, id) && id < candidate
      invariant forall n :: Free(used, n) && n < candidate ==> n in ids
      invariant candidate - 100 == |ids| + |UsedBelow(used, candidate)|
      decreases 100 + |used| + count - candidate
    {
      UsedGrows(used, candidate);
      SubsetCount(UsedBelow(used, candidate + 1), used);
      if Some(candidate) !in used {
        AppendId(ids, candidate);
        ids := ids + [candidate];
      }
      candidate := candidate + 1;
    }
    SubsetCount(UsedBelow(used, candidate), used);
  }

  lemma {:induction false} SmallestFreeStart(used: set<Option<int>>, a: seq<int>, b: seq<int>, i: nat)
    requires AreSmallestFree(used, a) && AreSmallestFree(used, b) && i < |a| && i < |b|
    ensures a[i] == b[i]
  {
    forall j | 0 <= j < i ensures a[j] == b[j] { SmallestFreeStart(used, a, b, j); }
    NotSmaller(used, a, b, i);
    NotSmaller(used, b, a, i);
  }

  lemma NotSmaller(used: set<Option<int>>, a: seq<int>, b: seq<int>, i: nat)
    requires AreSmallestFree(used, a) && AreSmallestFree(used, b) && i < |a| && i < |b|
    requires forall j :: 0 <= j < i ==> a[j] == b[j]
    ensures a[i] >= b[i]
  {
    assert a[i] in a && b[i] in b;
    if a[i] in b {
      var k :| 0 <= k < |b| && b[k] == a[i];
      assert k >= i by { assert forall j :: 0 <= j < i ==> b[j] == a[j] < a[i]; }
    }
  }

  /** There is only one such list of each length, and its shorter versions are its prefixes. */
  lemma SmallestFreeUnique(used: set<Option<int>>, a: seq<int>, b: seq<int>)
    requires AreSmallestFree(used, a) && AreSmallestFree(used, b) && |a| <= |b|
    ensures a <= b
  {
    forall i | 0 <= i < |a| ensures a[i] == b[i] { SmallestFreeStart(used, a, b, i); }
  }

  /** The sequence starts with the next available id. */
  lemma StartsWithNext(used: set<Option<int>>, ids: seq<int>, next: int)
    requires AreSmallestFree(used, ids) && ids != []
    requires Free(used, next) && forall n :: Free(used, n) ==> next <= n
    ensures ids[0] == next
  {
    assert AreSmallestFree(used, [next]);
    SmallestFreeUnique(used, [next], ids);
  }
}
