// What a restore schedule is, and what follows from being one, independently of how it is computed.
// Edges point from the dependent to what it depends on, and parallel edges are kept.

module Schedules {
  import opened Sorting

  datatype EdgeKind = DependsOn | StorageEdge | NetworkEdge | ServiceEdge
  datatype Edge = Edge(src: string, dst: string, kind: EdgeKind)

  ghost predicate HasEdge(es: seq<Edge>, a: string, b: string) {
    exists e :: e in es && e.src == a && e.dst == b
  }

  ghost predicate Closed(ids: seq<string>, es: seq<Edge>) {
    forall e :: e in es ==> e.src in ids && e.dst in ids
  }

  ghost predicate DependsOnOneOf(es: seq<Edge>, n: string, s: seq<string>) {
    exists m :: m in s && HasEdge(es, n, m)
  }

  ghost predicate Step(es: seq<Edge>, p: seq<string>, i: nat)
    requires i + 1 < |p|
  {
    HasEdge(es, p[i], p[i + 1])
  }

  /** A dependency path, listed from the dependent down. */
  ghost predicate IsPath(es: seq<Edge>, p: seq<string>) {
    p != [] && forall i {:trigger Step(es, p, i)} :: 0 <= i < |p| - 1 ==> Step(es, p, i)
  }

  ghost predicate PathFromTo(es: seq<Edge>, p: seq<string>, a: string, b: string) {
    IsPath(es, p) && p[0] == a && p[|p| - 1] == b
  }

  ghost predicate Reaches(es: seq<Edge>, a: string, b: string) {
    exists p :: PathFromTo(es, p, a, b)
  }

  ghost predicate OnCycle(es: seq<Edge>, c: string) {
    exists p :: PathFromTo(es, p, c, c) && |p| >= 2
  }

  ghost predicate ReachesCycle(es: seq<Edge>, n: string) {
    exists c :: Reaches(es, n, c) && OnCycle(es, c)
  }

  /** The ids outside `placed`, in list order. */
  function Outside(ids: seq<string>, placed: set<string>): (r: seq<string>)
    ensures forall n :: n in r <==> n in ids && n !in placed
  {
    if ids == [] then []
    else (if ids[0] in placed then [] else [ids[0]]) + Outside(ids[1..], placed)
  }

  function Placed(waves: seq<seq<string>>): (s: set<string>) {
    set k, n | 0 <= k < |waves| && n in waves[k] :: n
  }

  ghost predicate WavesDisjoint(waves: seq<seq<string>>) {
    forall j, k, n :: 0 <= j < k < |waves| && n in waves[j] ==> n !in waves[k]
  }

  ghost predicate InEarlierWave(waves: seq<seq<string>>, k: nat, n: string)
    requires k <= |waves|
  {
    exists j :: 0 <= j < k && n in waves[j]
  }

  /** Every edge out of a wave ends in a strictly earlier wave. */
  ghost predicate DependenciesEarlier(es: seq<Edge>, waves: seq<seq<string>>) {
    forall k, e {:trigger InEarlierWave(waves, k, e.dst), e in es} ::
      0 <= k < |waves| && e in es && e.src in waves[k] ==> InEarlierWave(waves, k, e.dst)
  }

  /** Every member of a later wave has a dependency in the wave right before. */
  ghost predicate Tight(es: seq<Edge>, waves: seq<seq<string>>) {
    forall k, n {:trigger DependsOnOneOf(es, n, waves[k - 1])} ::
      1 <= k < |waves| && n in waves[k] ==> DependsOnOneOf(es, n, waves[k - 1])
  }

  /** Every member still waits for another member. */
  ghost predicate Stuck(es: seq<Edge>, rest: seq<string>) {
    forall n {:trigger DependsOnOneOf(es, n, rest)} :: n in rest ==> DependsOnOneOf(es, n, rest)
  }

  /** `waves` are the normal waves and `rest` the nodes of the warning wave. */
  ghost predicate IsSchedule(ids: seq<string>, es: seq<Edge>, waves: seq<seq<string>>, rest: seq<string>) {
    && (forall k :: 0 <= k < |waves| ==> waves[k] != [] && Distinct(waves[k]))
    && WavesDisjoint(waves)
    && (forall n :: n in Placed(waves) ==> n in ids)
    && rest == Outside(ids, Placed(waves))
    && DependenciesEarlier(es, waves)
    && Tight(es, waves)
    && Stuck(es, rest)
  }

  // ---- waves are longest-path layers ----

  lemma PathPart(es: seq<Edge>, p: seq<string>, i: nat, j: nat)
    requires IsPath(es, p) && i <= j < |p|
    ensures PathFromTo(es, p[i..j + 1], p[i], p[j])
  {
    var q := p[i..j + 1];
    forall l | 0 <= l < |q| - 1 ensures Step(es, q, l) { assert Step(es, p, i + l); }
  }

  lemma PathCons(es: seq<Edge>, n: string, q: seq<string>)
    requires IsPath(es, q) && HasEdge(es, n, q[0])
    ensures IsPath(es, [n] + q)
  {
    var p := [n] + q;
    forall l | 0 <= l < |p| - 1 ensures Step(es, p, l) { if l > 0 { assert Step(es, q, l - 1); } }
  }

  lemma {:induction false} PathShorterThanWave(ids: seq<string>, es: seq<Edge>, waves: seq<seq<string>>, rest: seq<string>,
                                               k: nat, p: seq<string>)
    requires IsSchedule(ids, es, waves, rest) && k < |waves|
    requires IsPath(es, p) && p[0] in waves[k]
    ensures |p| <= k + 1
    ensures forall i :: 1 <= i < |p| ==> InEarlierWave(waves, k, p[i])
    decreases |p|
  {
    if |p| > 1 {
      assert Step(es, p, 0);
      var e :| e in es && e.src == p[0] && e.dst == p[1];
      assert InEarlierWave(waves, k, e.dst);
      var j :| 0 <= j < k && p[1] in waves[j];
      var q := p[1..];
      PathPart(es, p, 1, |p| - 1);
      assert p[1..|p|] == q;
      PathShorterThanWave(ids, es, waves, rest, j, q);
      forall i | 1 <= i < |p| ensures InEarlierWave(waves, k, p[i]) {
        if i > 1 { assert InEarlierWave(waves, j, q[i - 1]); }
      }
    }
  }

  lemma {:induction false} PathOfWaveLength(es: seq<Edge>, waves: seq<seq<string>>, k: nat, n: string)
    returns (p: seq<string>)
    requires Tight(es, waves) && k < |waves| && n in waves[k]
    ensures IsPath(es, p) && p[0] == n && |p| == k + 1
  {
    if k == 0 {
      p := [n];
    } else {
      assert DependsOnOneOf(es, n, waves[k - 1]);
      var m :| m in waves[k - 1] && HasEdge(es, n, m);
      var q := PathOfWaveLength(es, waves, k - 1, m);
      p := [n] + q;
      PathCons(es, n, q);
    }
  }

  /** A node's wave number is one more than the number of edges on its longest dependency path. */
  lemma WaveIsLongestPath(ids: seq<string>, es: seq<Edge>, waves: seq<seq<string>>, rest: seq<string>, k: nat, n: string)
    requires IsSchedule(ids, es, waves, rest) && k < |waves| && n in waves[k]
    ensures exists p :: IsPath(es, p) && p[0] == n && |p| == k + 1
    ensures forall p :: IsPath(es, p) && p[0] == n ==> |p| <= k + 1
  {
    var p := PathOfWaveLength(es, waves, k, n);
    forall q | IsPath(es, q) && q[0] == n ensures |q| <= k + 1 {
      PathShorterThanWave(ids, es, waves, rest, k, q);
    }
  }

  /** No ordering that respects the edges can put a node into an earlier wave. */
  lemma {:induction false} NoEarlierWave(es: seq<Edge>, waves: seq<seq<string>>, level: string -> int, k: nat, n: string)
    requires Tight(es, waves) && k < |waves| && n in waves[k]
    requires forall e :: e in es ==> level(e.dst) < level(e.src)
    requires forall m :: level(m) >= 0
    ensures level(n) >= k
  {
    if k > 0 {
      assert DependsOnOneOf(es, n, waves[k - 1]);
      var m :| m in waves[k - 1] && HasEdge(es, n, m);
      NoEarlierWave(es, waves, level, k - 1, m);
    }
  }

  /** Nodes of one wave can be restored in parallel: no dependency path joins two of them. */
  lemma NoPathInsideWave(ids: seq<string>, es: seq<Edge>, waves: seq<seq<string>>, rest: seq<string>,
                         k: nat, a: string, b: string)
    requires IsSchedule(ids, es, waves, rest) && k < |waves| && a in waves[k] && b in waves[k]
    ensures Reaches(es, a, b) <==> a == b
  {
    if a == b {
      assert PathFromTo(es, [a], a, b);
    } else if Reaches(es, a, b) {
      var p :| PathFromTo(es, p, a, b);
      PathShorterThanWave(ids, es, waves, rest, k, p);
    }
  }

  // ---- the warning wave is exactly what reaches a cycle ----

  lemma {:induction false} Pigeonhole(p: seq<string>, s: set<string>) returns (i: nat, j: nat)
    requires (forall x :: x in p ==> x in s) && |p| > |s|
    ensures i < j < |p| && p[i] == p[j]
  {
    if x :| x in p[1..] && x == p[0] {
      j :| 1 <= j < |p| && p[j] == x;
      i := 0;
    } else {
      forall x | x in p[1..] ensures x in s - {p[0]} { assert x in p; }
      assert p[0] in s;
      i, j := Pigeonhole(p[1..], s - {p[0]});
      i, j := i + 1, j + 1;
    }
  }

  lemma {:induction false} WalkInside(es: seq<Edge>, rest: seq<string>, n: string, len: nat) returns (p: seq<string>)
    requires n in rest && Stuck(es, rest)
    ensures IsPath(es, p) && p[0] == n && |p| == len + 1 && forall x :: x in p ==> x in rest
    decreases len
  {
    if len == 0 {
      p := [n];
    } else {
      assert DependsOnOneOf(es, n, rest);
      var m :| m in rest && HasEdge(es, n, m);
      var q := WalkInside(es, rest, m, len - 1);
      p := [n] + q;
      PathCons(es, n, q);
    }
  }

  lemma RestReachesCycle(es: seq<Edge>, rest: seq<string>, n: string)
    requires n in rest && Stuck(es, rest)
    ensures ReachesCycle(es, n)
  {
    var s := Members(rest);
    var p := WalkInside(es, rest, n, |s|);
    var i, j := Pigeonhole(p, s);
    PathPart(es, p, 0, i);
    PathPart(es, p, i, j);
    assert PathFromTo(es, p[i..j + 1], p[i], p[i]) && |p[i..j + 1]| >= 2;
    assert Reaches(es, n, p[i]) && OnCycle(es, p[i]);
  }

  lemma PlacedReachesNoCycle(ids: seq<string>, es: seq<Edge>, waves: seq<seq<string>>, rest: seq<string>, n: string)
    requires IsSchedule(ids, es, waves, rest) && n in Placed(waves)
    ensures !ReachesCycle(es, n)
  {
    if ReachesCycle(es, n) {
      var c :| Reaches(es, n, c) && OnCycle(es, c);
      var p :| PathFromTo(es, p, n, c);
      var k :| 0 <= k < |waves| && n in waves[k];
      PathShorterThanWave(ids, es, waves, rest, k, p);
      var l: nat :| l < |waves| && c in waves[l];
      var q :| PathFromTo(es, q, c, c) && |q| >= 2;
      PathShorterThanWave(ids, es, waves, rest, l, q);
    }
  }

  /** The warning wave holds exactly the nodes that can reach a dependency cycle. */
  lemma WarningWaveIsCycleReachers(ids: seq<string>, es: seq<Edge>, waves: seq<seq<string>>, rest: seq<string>, n: string)
    requires IsSchedule(ids, es, waves, rest) && n in ids
    ensures n in rest <==> ReachesCycle(es, n)
  {
    if n in rest {
      RestReachesCycle(es, rest, n);
    } else {
      PlacedReachesNoCycle(ids, es, waves, rest, n);
    }
  }

  /** There is a warning wave iff the graph has a cycle. */
  lemma WarningWaveIffCycle(ids: seq<string>, es: seq<Edge>, waves: seq<seq<string>>, rest: seq<string>)
    requires IsSchedule(ids, es, waves, rest) && Closed(ids, es)
    ensures rest != [] <==> exists c :: OnCycle(es, c)
  {
    if rest != [] {
      RestReachesCycle(es, rest, rest[0]);
    }
    forall c | OnCycle(es, c) ensures rest != [] {
      var p :| PathFromTo(es, p, c, c) && |p| >= 2;
      assert Step(es, p, 0);
      assert c in ids;
      assert PathFromTo(es, [c], c, c);
      assert Reaches(es, c, c);
      WarningWaveIsCycleReachers(ids, es, waves, rest, c);
    }
  }

  /** The schedule is unique up to the order inside a wave. */
  lemma ScheduleUnique(ids: seq<string>, es: seq<Edge>, w1: seq<seq<string>>, r1: seq<string>,
                       w2: seq<seq<string>>, r2: seq<string>, k: nat, n: string)
    requires IsSchedule(ids, es, w1, r1) && IsSchedule(ids, es, w2, r2)
    requires k < |w1| && n in w1[k]
    ensures k < |w2| && n in w2[k]
  {
    assert n in Placed(w1);
    PlacedReachesNoCycle(ids, es, w1, r1, n);
    WarningWaveIsCycleReachers(ids, es, w2, r2, n);
    var l: nat :| l < |w2| && n in w2[l];
    var p := PathOfWaveLength(es, w1, k, n);
    PathShorterThanWave(ids, es, w2, r2, l, p);
    var q := PathOfWaveLength(es, w2, l, n);
    PathShorterThanWave(ids, es, w1, r1, k, q);
  }
}
