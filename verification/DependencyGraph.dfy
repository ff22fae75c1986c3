// The dependency graph of a manifest and its restore waves.

module DependencyGraphs {
  import opened Options
  import opened Sorting
  import opened Schedules
  import opened Kahn

  datatype NodeKind = Host | Storage | Network | Vm | Container | Service | Repository
  datatype Node = Node(id: string, kind: NodeKind)

  /** `estimatedMinutes` is absent on the warning wave only. */
  datatype RestoreWave = RestoreWave(wave: nat, componentIds: seq<string>, warning: bool, estimatedMinutes: Option<nat>)

  function TypeOrder(kind: NodeKind): nat {
    match kind
    case Host => 0
    case Storage => 1
    case Network => 2
    case Vm => 3
    case Container => 3
    case Service => 4
    case Repository => 5
  }

  function Minutes(kind: NodeKind): nat {
    match kind
    case Host => 90
    case Storage => 15
    case Network => 5
    case Vm => 20
    case Container => 10
    case Service => 5
    case Repository => 10
  }

  function Ids(nodes: seq<Node>): (r: seq<string>)
    ensures |r| == |nodes|
    ensures forall i :: 0 <= i < |r| ==> r[i] == nodes[i].id
  {
    seq(|nodes|, i requires 0 <= i < |nodes| => nodes[i].id)
  }

  function KindMap(nodes: seq<Node>): (m: map<string, NodeKind>)
    ensures forall id :: id in m <==> id in Ids(nodes)
    ensures Distinct(Ids(nodes)) ==> forall n :: n in nodes ==> m[n.id] == n.kind
  {
    if nodes == [] then map[]
    else
      var n := nodes[|nodes| - 1];
      var init := nodes[..|nodes| - 1];
      assert nodes == init + [n];
      assert Ids(nodes) == Ids(init) + [n.id];
      KindMap(init)[n.id := n.kind]
  }

  function Rank(kinds: map<string, NodeKind>, id: string): nat {
    if id in kinds then TypeOrder(kinds[id]) else 9
  }

  /** Host first, then storage, network and guests; ties by id. */
  predicate WaveOrder(kinds: map<string, NodeKind>, a: string, b: string) {
    Rank(kinds, a) < Rank(kinds, b) || (Rank(kinds, a) == Rank(kinds, b) && StrLe(a, b))
  }

  lemma WaveOrderIsOrder(kinds: map<string, NodeKind>)
    ensures TotalPreorder((a, b) => WaveOrder(kinds, a, b))
  {
    var le := (a, b) => WaveOrder(kinds, a, b);
    forall a, b ensures le(a, b) || le(b, a) { StrLeTotal(a, b); }
    forall a, b, c | le(a, b) && le(b, c) ensures le(a, c) {
      if StrLe(a, b) && StrLe(b, c) { StrLeTransitive(a, b, c); }
    }
  }

  ghost predicate InWaveOrder(kinds: map<string, NodeKind>, wave: seq<string>) {
    forall i, j {:trigger WaveOrder(kinds, wave[i], wave[j])} ::
      0 <= i < j < |wave| ==> WaveOrder(kinds, wave[i], wave[j])
  }

  function SortWave(kinds: map<string, NodeKind>, wave: seq<string>): (r: seq<string>)
    ensures InWaveOrder(kinds, r)
    ensures multiset(r) == multiset(wave)
  {
    WaveOrderIsOrder(kinds);
    Sort(wave, (a, b) => WaveOrder(kinds, a, b))
  }

  function TotalMinutes(kinds: map<string, NodeKind>, wave: seq<string>): nat {
    if wave == [] then 0
    else (if wave[0] in kinds then Minutes(kinds[wave[0]]) else 0) + TotalMinutes(kinds, wave[1..])
  }

  /** Host, then storage, then network, then guests of both kinds, then services, then repositories. */
  predicate NotAfter(a: NodeKind, b: NodeKind) {
    match b
    case Host => a == Host
    case Storage => a == Host || a == Storage
    case Network => a == Host || a == Storage || a == Network
    case Vm => a != Service && a != Repository
    case Container => a != Service && a != Repository
    case Service => a != Repository
    case Repository => true
  }

  /** Within a wave, components stand in the order of their types, and by id among those of one rank. */
  lemma WaveOrderIs(kinds: map<string, NodeKind>, a: string, b: string)
    requires a in kinds && b in kinds
    ensures WaveOrder(kinds, a, b)
      <==> (NotAfter(kinds[a], kinds[b]) && (NotAfter(kinds[b], kinds[a]) ==> StrLe(a, b)))
  {
  }

  function CountOf(kinds: map<string, NodeKind>, wave: seq<string>, kind: NodeKind): nat {
    if wave == [] then 0 else (if wave[0] in kinds && kinds[wave[0]] == kind then 1 else 0) + CountOf(kinds, wave[1..], kind)
  }

  /** The estimate of a wave: so many minutes for each component of a type. */
  lemma {:induction false} MinutesAre(kinds: map<string, NodeKind>, wave: seq<string>)
    ensures TotalMinutes(kinds, wave)
      == 90 * CountOf(kinds, wave, Host) + 15 * CountOf(kinds, wave, Storage) + 5 * CountOf(kinds, wave, Network)
         + 20 * CountOf(kinds, wave, Vm) + 10 * CountOf(kinds, wave, Container) + 5 * CountOf(kinds, wave, Service)
         + 10 * CountOf(kinds, wave, Repository)
  {
    if wave != [] { MinutesAre(kinds, wave[1..]); }
  }

  function Normal(waves: seq<RestoreWave>): seq<seq<string>> {
    if waves == [] then []
    else Normal(waves[..|waves| - 1]) + (if waves[|waves| - 1].warning then [] else [waves[|waves| - 1].componentIds])
  }

  function Warned(waves: seq<RestoreWave>): seq<string> {
    if waves != [] && waves[|waves| - 1].warning then waves[|waves| - 1].componentIds else []
  }

  ghost predicate Presented(kinds: map<string, NodeKind>, waves: seq<RestoreWave>, k: nat)
    requires k < |waves|
  {
    var w := waves[k];
    && w.wave == k + 1 && w.componentIds != []
    && (w.warning ==> k == |waves| - 1 && w.estimatedMinutes == None)
    && (!w.warning ==> InWaveOrder(kinds, w.componentIds) && w.estimatedMinutes == Some(TotalMinutes(kinds, w.componentIds)))
  }

  /** Numbering, in-wave order, estimates, and a non-empty warning wave only at the very end. */
  ghost predicate WellPresented(kinds: map<string, NodeKind>, waves: seq<RestoreWave>) {
    forall k {:trigger Presented(kinds, waves, k)} :: 0 <= k < |waves| ==> Presented(kinds, waves, k)
  }

  ghost predicate NoneWarned(waves: seq<RestoreWave>) {
    forall w :: w in waves ==> !w.warning
  }

  lemma OutsideDistinct(ids: seq<string>, placed: set<string>)
    requires Distinct(ids)
    ensures Distinct(Outside(ids, placed))
  {
    if ids != [] {
      OutsideDistinct(ids[1..], placed);
    }
  }

  lemma PermutationKeeps(a: seq<string>, b: seq<string>)
    requires multiset(a) == multiset(b) && Distinct(a)
    ensures Distinct(b) && |a| == |b| && forall x :: x in a <==> x in b
  {
    assert |multiset(a)| == |a| && |multiset(b)| == |b|;
    forall x ensures x in a <==> x in b { assert x in a <==> x in multiset(a); assert x in b <==> x in multiset(b); }
    forall x ensures multiset(a)[x] <= 1 { AtMostOnce(a, x); }
    forall i, j | 0 <= i < j < |b| ensures b[i] != b[j] {
      if b[i] == b[j] { TwiceMeansTwo(b, i, j); }
    }
  }

  lemma TwiceMeansTwo(b: seq<string>, i: nat, j: nat)
    requires i < j < |b| && b[i] == b[j]
    ensures multiset(b)[b[i]] >= 2
  {
    assert b == b[..j] + b[j..];
    assert b[i] == b[..j][i] && b[i] == b[j..][0];
    assert b[i] in multiset(b[..j]) && b[i] in multiset(b[j..]);
  }

  lemma AtMostOnce(a: seq<string>, x: string)
    requires Distinct(a)
    ensures multiset(a)[x] <= 1
  {
    if a != [] {
      AtMostOnce(a[1..], x);
      assert a == [a[0]] + a[1..];
    }
  }

  lemma PlacedClosed(es: seq<Edge>, waves: seq<seq<string>>)
    requires DependenciesEarlier(es, waves)
    ensures forall e :: e in es && e.src in Placed(waves) ==> e.dst in Placed(waves)
  {
    forall e | e in es && e.src in Placed(waves) ensures e.dst in Placed(waves) {
      var k :| 0 <= k < |waves| && e.src in waves[k];
      assert InEarlierWave(waves, k, e.dst);
    }
  }

  lemma SubsetOfSameSize(a: set<string>, b: set<string>)
    requires a <= b && |a| >= |b|
    ensures a == b
  {
    assert b == a + (b - a) && |b| == |a| + |b - a|;
  }

  lemma FitsIn(ids: seq<string>, placed: set<string>)
    requires Distinct(ids) && forall x :: x in placed ==> x in ids
    ensures |placed| <= |ids|
  {
    DistinctCount(ids);
    var all := Members(ids);
    assert all == placed + (all - placed) && |all| == |placed| + |all - placed|;
  }

  /** The in-degree table while `placed` is placed: the unmet edges of every node. */
  ghost function Degrees(ids: seq<string>, es: seq<Edge>, placed: set<string>): map<string, nat> {
    map id | id in ids :: Unmet(es, id, placed)
  }

  ghost predicate NewlyReady(inDegree: map<string, nat>, full: set<string>, ready: seq<string>) {
    && Distinct(ready)
    && forall id :: id in ready <==> id in inDegree && id !in full && inDegree[id] == 0
  }

  /** `dependents.get(id, [])` */
  function Waiting(dependents: map<string, seq<string>>, id: string): seq<string> {
    if id in dependents then dependents[id] else []
  }

  ghost predicate Lists(dependents: map<string, seq<string>>, es: seq<Edge>) {
    forall id {:trigger Waiting(dependents, id)} :: Waiting(dependents, id) == Dependents(es, id)
  }

  lemma OneMoreEdge(ids: seq<string>, es: seq<Edge>, edge: Edge, dependents: map<string, seq<string>>)
    requires edge.src in ids && Lists(dependents, es)
    ensures Degrees(ids, es + [edge], {}) == Degrees(ids, es, {})[edge.src := Degrees(ids, es, {})[edge.src] + 1]
    ensures Lists(dependents[edge.dst := Waiting(dependents, edge.dst) + [edge.src]], es + [edge])
  {
    assert (es + [edge])[..|es|] == es;
    var more := dependents[edge.dst := Waiting(dependents, edge.dst) + [edge.src]];
    forall id ensures Waiting(more, id) == Dependents(es + [edge], id) {
      assert Waiting(dependents, id) == Dependents(es, id);
    }
  }

  lemma ReleaseStep(ids: seq<string>, es: seq<Edge>, placed: set<string>, wave: seq<string>, done: set<string>, nid: string)
    requires Closed(ids, es) && IsFrontier(ids, es, placed, wave) && nid in wave && nid !in done
    requires forall e :: e in es && e.src in placed ==> e.dst in placed
    ensures forall id :: id in ids ==>
      Degrees(ids, es, done)[id] == Degrees(ids, es, done + {nid})[id] + multiset(Dependents(es, nid))[id]
    ensures forall x :: x in Dependents(es, nid) ==> x in ids && x !in placed + Members(wave)
  {
    forall id | id in ids
      ensures Degrees(ids, es, done)[id] == Degrees(ids, es, done + {nid})[id] + multiset(Dependents(es, nid))[id]
    {
      PlacingSettles(es, id, done, nid);
    }
    forall x | x in Dependents(es, nid) ensures x in ids && x !in placed + Members(wave) {
      DependentsAreSources(es, nid, x);
      NothingUnmet(es, x, placed);
    }
  }

  ghost predicate InProgress(ids: seq<string>, es: seq<Edge>, waves: seq<seq<string>>, ready: seq<string>,
                             inDegree: map<string, nat>, processed: nat) {
    && Prefix(ids, es, waves) && IsFrontier(ids, es, Placed(waves), ready) && JustFreed(es, waves, ready)
    && inDegree == Degrees(ids, es, Placed(waves))
    && |Placed(waves)| == processed <= |ids|
  }

  lemma WavePlaced(ids: seq<string>, es: seq<Edge>, waves: seq<seq<string>>, ready: seq<string>, wave: seq<string>,
                   inDegree: map<string, nat>, processed: nat, next: seq<string>)
    requires Distinct(ids) && InProgress(ids, es, waves, ready, inDegree, processed)
    requires multiset(wave) == multiset(ready) && wave != []
    requires IsFrontier(ids, es, Placed(waves) + Members(wave), next)
    ensures InProgress(ids, es, waves + [wave], next, Degrees(ids, es, Placed(waves) + Members(wave)), processed + |wave|)
  {
    PermutationKeeps(ready, wave);
    assert JustFreed(es, waves, wave) by {
      if waves != [] {
        forall n | n in wave ensures DependsOnOneOf(es, n, waves[|waves| - 1]) {
          assert n in ready && DependsOnOneOf(es, n, waves[|waves| - 1]);
        }
      }
    }
    PrefixGrows(ids, es, waves, wave);
    PlacedAppend(waves, wave);
    DistinctCount(wave);
    FitsIn(ids, Placed(waves + [wave]));
    FreedByWave(ids, es, waves, wave, next);
  }

  lemma ReleaseStart(ids: seq<string>, es: seq<Edge>, placed: set<string>, wave: seq<string>)
    requires IsFrontier(ids, es, placed, wave)
    ensures NewlyReady(Degrees(ids, es, placed), placed + Members(wave), [])
  {
    var d := Degrees(ids, es, placed);
    forall id ensures id in [] <==> id in d && id !in placed + Members(wave) && d[id] == 0 {
      assert id !in [];
    }
  }

  lemma ReleaseEnd(ids: seq<string>, es: seq<Edge>, full: set<string>, ready: seq<string>)
    requires NewlyReady(Degrees(ids, es, full), full, ready)
    ensures IsFrontier(ids, es, full, ready)
  {
  }

  lemma FirstFrontier(ids: seq<string>, es: seq<Edge>, inDegree: map<string, nat>, waiting: set<string>)
    requires Distinct(ids) && inDegree == Degrees(ids, es, {})
    requires forall id :: id in ids ==> (id in waiting <==> inDegree[id] != 0)
    ensures InProgress(ids, es, [], Outside(ids, waiting), inDegree, 0)
  {
    OutsideDistinct(ids, waiting);
    assert Placed([]) == {};
  }

  /** Once nothing is ready, an in-degree of zero marks exactly the placed nodes, and the count tells completeness. */
  lemma SettledArePlaced(ids: seq<string>, es: seq<Edge>, waves: seq<seq<string>>, inDegree: map<string, nat>,
                         processed: nat, settled: set<string>)
    requires Distinct(ids) && Closed(ids, es) && InProgress(ids, es, waves, [], inDegree, processed)
    requires forall id :: id in settled <==> id in ids && inDegree[id] == 0
    ensures processed < |ids| <==> Outside(ids, settled) != []
    ensures IsSchedule(ids, es, waves, Outside(ids, settled))
  {
    var placed := Placed(waves);
    PrefixCompletes(ids, es, waves);
    PlacedClosed(es, waves);
    forall id | id in ids ensures inDegree[id] == 0 <==> id in placed {
      assert id !in [];
      NothingUnmet(es, id, placed);
    }
    assert settled == placed;
    CountTellsCompleteness(ids, placed);
  }

  lemma CountTellsCompleteness(ids: seq<string>, placed: set<string>)
    requires Distinct(ids) && forall n :: n in placed ==> n in ids
    ensures |placed| < |ids| <==> Outside(ids, placed) != []
  {
    var all := Members(ids);
    DistinctCount(ids);
    FitsIn(ids, placed);
    if |placed| == |ids| {
      SubsetOfSameSize(placed, all);
      if Outside(ids, placed) != [] { assert Outside(ids, placed)[0] in Outside(ids, placed); }
    }
    if Outside(ids, placed) == [] {
      forall id | id in ids ensures id in placed { assert id !in []; }
      assert placed == all;
    }
  }

  /** Appends the next wave. */
  function NextWave(kinds: map<string, NodeKind>, waves: seq<RestoreWave>, wave: RestoreWave): (r: seq<RestoreWave>)
    requires WellPresented(kinds, waves) && NoneWarned(waves)
    requires Presented(kinds, waves + [wave], |waves|)
    ensures r == waves + [wave]
    ensures WellPresented(kinds, r)
    ensures Normal(r) == Normal(waves) + (if wave.warning then [] else [wave.componentIds])
    ensures Warned(r) == if wave.warning then wave.componentIds else []
    ensures wave.warning || NoneWarned(r)
  {
    var r := waves + [wave];
    assert r[..|waves|] == waves;
    assert forall k {:trigger Presented(kinds, r, k)} :: 0 <= k < |waves| ==> Presented(kinds, r, k) by {
      forall k | 0 <= k < |waves| ensures Presented(kinds, r, k) { assert Presented(kinds, waves, k); }
    }
    r
  }

  class DependencyGraph {
    var nodes: seq<Node>
    var edges: seq<Edge>
    var restoreWaves: seq<RestoreWave>

    ghost predicate Valid()
      reads this
    {
      Distinct(Ids(nodes)) && Closed(Ids(nodes), edges)
    }

    constructor ()
      ensures nodes == [] && edges == [] && restoreWaves == []
    {
      nodes, edges, restoreWaves := [], [], [];
    }

    /** in-degree of every node, and for every prerequisite the nodes that wait for it */
    method CountPrerequisites() returns (inDegree: map<string, nat>, dependents: map<string, seq<string>>)
      requires Valid()
      ensures inDegree == Degrees(Ids(nodes), edges, {})
      ensures Lists(dependents, edges)
    {
      inDegree := map id | id in Ids(nodes) :: 0;
      dependents := map[];
      for i := 0 to |edges|
        invariant inDegree == Degrees(Ids(nodes), edges[..i], {})
        invariant Lists(dependents, edges[..i])
      {
        var edge := edges[i];
        assert edges[..i + 1] == edges[..i] + [edge] && edge in edges;
        OneMoreEdge(Ids(nodes), edges[..i], edge, dependents);
        inDegree := inDegree[edge.src := inDegree[edge.src] + 1];
        dependents := dependents[edge.dst := Waiting(dependents, edge.dst) + [edge.src]];
      }
      assert edges[..|edges|] == edges;
    }

    method TopologicalWaves() returns (waves: seq<RestoreWave>)
      requires Valid()
      ensures IsSchedule(Ids(nodes), edges, Normal(waves), Warned(waves))
      ensures WellPresented(KindMap(nodes), waves)
    {
      var ids, kinds := Ids(nodes), KindMap(nodes);
      var inDegree, dependents := CountPrerequisites();
      var waiting := set id | id in ids && inDegree[id] != 0;
      var ready := Outside(ids, waiting);
      FirstFrontier(ids, edges, inDegree, waiting);
      waves := [];
      var waveNum, processed := 1, 0;
      while ready != []
        invariant InProgress(ids, edges, Normal(waves), ready, inDegree, processed)
        invariant waveNum == |waves| + 1 && WellPresented(kinds, waves)
        invariant NoneWarned(waves)
        decreases |ids| - processed
      {
        var waveNodes := SortWave(kinds, ready);
        inDegree, ready := Release(waveNodes, inDegree, dependents, Normal(waves), ready, processed);
        waves := NextWave(kinds, waves, RestoreWave(waveNum, waveNodes, false, Some(TotalMinutes(kinds, waveNodes))));
        waveNum := waveNum + 1;
        processed := processed + |waveNodes|;
      }
      waves := FlagCycle(waves, waveNum, inDegree, processed);
    }

    /** Cycle detection: whatever still has prerequisites goes into one last warning wave. */
    method FlagCycle(normal: seq<RestoreWave>, waveNum: nat, inDegree: map<string, nat>, processed: nat)
      returns (waves: seq<RestoreWave>)
      requires Valid() && InProgress(Ids(nodes), edges, Normal(normal), [], inDegree, processed)
      requires waveNum == |normal| + 1 && WellPresented(KindMap(nodes), normal)
      requires NoneWarned(normal)
      ensures IsSchedule(Ids(nodes), edges, Normal(waves), Warned(waves))
      ensures WellPresented(KindMap(nodes), waves)
    {
      waves := normal;
      var ids := Ids(nodes);
      var settled := set id | id in ids && inDegree[id] == 0;
      var remaining := Outside(ids, settled);
      assert Warned(normal) == [];
      SettledArePlaced(ids, edges, Normal(normal), inDegree, processed, settled);
      if processed < |ids| {
        waves := NextWave(KindMap(nodes), waves, RestoreWave(waveNum, remaining, true, None));
      }
      assert Normal(waves) == Normal(normal) && Warned(waves) == remaining;
    }

    /** Takes the dependents of a placed wave one step further; the ones left without prerequisites become ready. */
    method Release(wave: seq<string>, inDegree0: map<string, nat>, dependents: map<string, seq<string>>,
                   ghost waves: seq<seq<string>>, ghost ready0: seq<string>, ghost processed: nat)
      returns (inDegree: map<string, nat>, ready: seq<string>)
      requires Valid() && InProgress(Ids(nodes), edges, waves, ready0, inDegree0, processed)
      requires multiset(wave) == multiset(ready0) && wave != []
      requires Lists(dependents, edges)
      ensures InProgress(Ids(nodes), edges, waves + [wave], ready, inDegree, processed + |wave|)
    {
      PermutationKeeps(ready0, wave);
      PlacedClosed(edges, waves);
      inDegree, ready := ReleaseAll(wave, inDegree0, dependents, Placed(waves));
      WavePlaced(Ids(nodes), edges, waves, ready0, wave, inDegree0, processed, ready);
    }

    method ReleaseAll(wave: seq<string>, inDegree0: map<string, nat>, dependents: map<string, seq<string>>,
                      ghost placed: set<string>)
      returns (inDegree: map<string, nat>, ready: seq<string>)
      requires Valid() && inDegree0 == Degrees(Ids(nodes), edges, placed)
      requires Lists(dependents, edges)
      requires forall e :: e in edges && e.src in placed ==> e.dst in placed
      requires IsFrontier(Ids(nodes), edges, placed, wave)
      ensures inDegree == Degrees(Ids(nodes), edges, placed + Members(wave))
      ensures IsFrontier(Ids(nodes), edges, placed + Members(wave), ready)
    {
      inDegree, ready := inDegree0, [];
      ghost var ids, es := Ids(nodes), edges;
      ghost var done, full := placed, placed + Members(wave);
      ReleaseStart(ids, es, placed, wave);
      for i := 0 to |wave|
        invariant done == placed + Members(wave[..i])
        invariant inDegree == Degrees(ids, es, done)
        invariant NewlyReady(inDegree, full, ready)
      {
        var nid := wave[i];
        inDegree, ready := ReleaseOne(nid, inDegree, dependents, ready, placed, wave, done);
        assert Members(wave[..i + 1]) == Members(wave[..i]) + {nid};
        done := done + {nid};
      }
      assert wave[..|wave|] == wave;
      ReleaseEnd(ids, es, full, ready);
    }

    method ReleaseOne(nid: string, inDegree0: map<string, nat>, dependents: map<string, seq<string>>, ready0: seq<string>,
                      ghost placed: set<string>, ghost wave: seq<string>, ghost done: set<string>)
      returns (inDegree: map<string, nat>, ready: seq<string>)
      requires Valid() && Lists(dependents, edges) && IsFrontier(Ids(nodes), edges, placed, wave)
      requires forall e :: e in edges && e.src in placed ==> e.dst in placed
      requires nid in wave && nid !in done
      requires inDegree0 == Degrees(Ids(nodes), edges, done) && NewlyReady(inDegree0, placed + Members(wave), ready0)
      ensures inDegree == Degrees(Ids(nodes), edges, done + {nid}) && NewlyReady(inDegree, placed + Members(wave), ready)
    {
      ReleaseStep(Ids(nodes), edges, placed, wave, done, nid);
      inDegree, ready := Decrement(Waiting(dependents, nid), inDegree0, ready0,
                                   Degrees(Ids(nodes), edges, done + {nid}), placed + Members(wave));
    }
  }

  lemma FirstLeaves(s: seq<string>, j: nat)
    requires j < |s|
    ensures multiset(s[j..]) == multiset{s[j]} + multiset(s[j + 1..])
  {
    assert s[j..] == [s[j]] + s[j + 1..];
  }

  /** One decrement per waiting edge; a node whose count drops to zero becomes ready. */
  method Decrement(waiting: seq<string>, inDegree0: map<string, nat>, ready0: seq<string>,
                   ghost goal: map<string, nat>, ghost full: set<string>)
    returns (inDegree: map<string, nat>, ready: seq<string>)
    requires inDegree0.Keys == goal.Keys && NewlyReady(inDegree0, full, ready0)
    requires forall id :: id in goal ==> inDegree0[id] == goal[id] + multiset(waiting)[id]
    requires forall x :: x in waiting ==> x in goal && x !in full
    ensures inDegree == goal && NewlyReady(inDegree, full, ready)
  {
    inDegree, ready := inDegree0, ready0;
    for j := 0 to |waiting|
      invariant inDegree.Keys == goal.Keys && NewlyReady(inDegree, full, ready)
      invariant forall id :: id in goal ==> inDegree[id] == goal[id] + multiset(waiting[j..])[id]
    {
      var dep := waiting[j];
      FirstLeaves(waiting, j);
      inDegree := inDegree[dep := inDegree[dep] - 1];
      if inDegree[dep] == 0 {
        ready := ready + [dep];
      }
    }
  }
}
