// What every graph built from a manifest looks like, and what that means for its restore waves.

module GraphLayers {
  import opened Options
  import opened Sorting
  import opened Schedules
  import opened Kahn
  import opened DependencyGraphs
  import opened ManifestGraphs

  predicate MayDependOn(a: NodeKind, b: NodeKind) {
    match a
    case Storage => b == Host
    case Network => b == Host
    case Container => b == Host || b == Storage
    case Vm => b == Host || b == Storage || b == Network || b == Vm
    case _ => false
  }

  ghost predicate EdgeJoins(nodes: seq<Node>, e: Edge) {
    exists a, b :: Node(e.src, a) in nodes && Node(e.dst, b) in nodes && MayDependOn(a, b)
  }

  /** One host, everything else directly on it, edges only downwards in kind except between VMs, no self-edge. */
  ghost predicate Layered(host: string, nodes: seq<Node>, es: seq<Edge>) {
    && Node(host, Host) in nodes
    && (forall n :: n in nodes && n.kind == Host ==> n.id == host)
    && (forall n :: n in nodes && n.id != host ==> HasEdge(es, n.id, host))
    && (forall e :: e in es ==> e.src != e.dst && EdgeJoins(nodes, e))
  }

  // ---- the kind of a node can be read off its id ----

  function KindOfId(id: string): NodeKind {
    if id == "" then Service
    else match id[0]
      case 'h' => Host
      case 'z' => Storage
      case 's' => Storage
      case 'n' => Network
      case 'v' => Vm
      case 'c' => Container
      case _ => Service
  }

  lemma {:induction false} NodesOfFacts(ids: seq<string>, kind: NodeKind)
    ensures forall n :: n in NodesOf(ids, kind) <==> n.id in ids && n.kind == kind
  {
    if ids != [] {
      var init := ids[..|ids| - 1];
      NodesOfFacts(init, kind);
      assert ids == init + [ids[|ids| - 1]];
    }
  }

  lemma {:induction false} StoreIdsFacts(pools: seq<Pool>, stores: seq<string>)
    ensures forall id :: id in StoreIds(pools, stores) ==> KindOfId(id) == Storage
    ensures forall s :: s in stores ==> StorageFor(pools, s) in StoreIds(pools, stores) || StorageFor(pools, s) in PoolIds(pools)
  {
    if stores != [] {
      var init, last := stores[..|stores| - 1], stores[|stores| - 1];
      StoreIdsFacts(pools, init);
      assert stores == init + [last];
      assert StoreId(last)[0] == 's';
      if StorageFor(pools, last) != StoreId(last) {
        var name := if HasPool(pools, last) then last else last[6..];
        assert StorageFor(pools, last) == PoolId(name) && HasPool(pools, name);
        var p :| p in pools && p.name == name;
        var i :| 0 <= i < |pools| && pools[i] == p;
        assert PoolIds(pools)[i] == PoolId(name);
      }
    }
  }

  lemma RequestedCases(m: Manifest, n: Node)
    requires n in RequestedNodes(m)
    ensures n == Node(HostId(m), Host)
      || (n.kind == Storage && (n.id in PoolIds(m.pools) || n.id in StoreIds(m.pools, m.stores)))
      || (n.kind == Network && n.id in BridgeIds(m.bridges))
      || (n.kind == Vm && n.id in GuestIds(m.vms))
      || (n.kind == Container && n.id in CtIds(m.containers))
  {
    NodesOfFacts(PoolIds(m.pools), Storage);
    NodesOfFacts(StoreIds(m.pools, m.stores), Storage);
    NodesOfFacts(BridgeIds(m.bridges), Network);
    NodesOfFacts(GuestIds(m.vms), Vm);
    NodesOfFacts(CtIds(m.containers), Container);
  }

  lemma RequestedKind(m: Manifest, n: Node)
    requires n in RequestedNodes(m)
    ensures n.kind == KindOfId(n.id)
    ensures n.kind == Host ==> n.id == HostId(m)
  {
    RequestedCases(m, n);
    StoreIdsFacts(m.pools, m.stores);
    if n.kind == Storage && n.id in PoolIds(m.pools) { assert n.id[0] == 'z'; }
    else if n.kind == Network { assert n.id[0] == 'n'; }
    else if n.kind == Vm { assert n.id[0] == 'v'; }
    else if n.kind == Container { assert n.id[0] == 'c'; }
  }

  lemma RequestedKinds(m: Manifest)
    ensures forall n :: n in RequestedNodes(m) ==> n.kind == KindOfId(n.id)
    ensures forall n :: n in RequestedNodes(m) && n.kind == Host ==> n.id == HostId(m)
  {
    forall n | n in RequestedNodes(m) ensures n.kind == KindOfId(n.id) && (n.kind == Host ==> n.id == HostId(m)) {
      RequestedKind(m, n);
    }
  }

  ghost predicate Requested(m: Manifest, id: string, kind: NodeKind) {
    Node(id, kind) in RequestedNodes(m)
  }

  lemma RequestedGroups(m: Manifest)
    ensures Requested(m, HostId(m), Host)
    ensures forall id :: id in PoolIds(m.pools) ==> Requested(m, id, Storage)
    ensures forall id :: id in StoreIds(m.pools, m.stores) ==> Requested(m, id, Storage)
    ensures forall id :: id in BridgeIds(m.bridges) ==> Requested(m, id, Network)
    ensures forall id :: id in GuestIds(m.vms) ==> Requested(m, id, Vm)
    ensures forall id :: id in CtIds(m.containers) ==> Requested(m, id, Container)
    ensures PrimaryStorage(m).Some? ==> Requested(m, PrimaryStorage(m).value, Storage)
    ensures PrimaryBridge(m).Some? ==> Requested(m, PrimaryBridge(m).value, Network)
  {
    NodesOfFacts(PoolIds(m.pools), Storage);
    NodesOfFacts(StoreIds(m.pools, m.stores), Storage);
    NodesOfFacts(BridgeIds(m.bridges), Network);
    NodesOfFacts(GuestIds(m.vms), Vm);
    NodesOfFacts(CtIds(m.containers), Container);
    StoreIdsFacts(m.pools, m.stores);
    var pool := PrimaryPool(m.pools);
    if pool.Some? { assert PoolIds(m.pools)[pool.value] == PrimaryStorage(m).value; }
    else if m.stores != [] { assert m.stores[0] in m.stores; }
    if m.bridges != [] { assert BridgeIds(m.bridges)[0] == PrimaryBridge(m).value; }
  }

  // ---- edge requests, group by group ----

  ghost predicate Joins(m: Manifest, e: Edge) {
    e.src != e.dst && exists a, b :: Requested(m, e.src, a) && Requested(m, e.dst, b) && MayDependOn(a, b)
  }

  lemma JoinsBy(m: Manifest, e: Edge, a: NodeKind, b: NodeKind)
    requires Requested(m, e.src, a) && Requested(m, e.dst, b) && MayDependOn(a, b) && (a == b ==> e.src != e.dst)
    ensures Joins(m, e)
  {
    RequestedKinds(m);
    assert KindOfId(e.src) == Node(e.src, a).kind && KindOfId(e.dst) == Node(e.dst, b).kind;
  }

  lemma {:induction false} ToHostJoins(m: Manifest, ids: seq<string>, kind: NodeKind, e: Edge)
    requires forall id :: id in ids ==> Requested(m, id, kind)
    requires MayDependOn(kind, Host) && e in ToHost(ids, HostId(m))
    ensures Joins(m, e)
  {
    var last := ids[|ids| - 1];
    if e == Edge(last, HostId(m), DependsOn) {
      RequestedGroups(m);
      assert last in ids;
      JoinsBy(m, e, kind, Host);
    } else {
      forall id | id in ids[..|ids| - 1] ensures id in ids {}
      ToHostJoins(m, ids[..|ids| - 1], kind, e);
    }
  }

  lemma {:induction false} GuestEdgesJoin(m: Manifest, ids: seq<string>, kind: NodeKind, storage: Option<string>, bridge: Option<string>, e: Edge)
    requires forall id :: id in ids ==> Requested(m, id, kind)
    requires kind == Vm || (kind == Container && bridge.None?)
    requires storage.Some? ==> Requested(m, storage.value, Storage)
    requires bridge.Some? ==> Requested(m, bridge.value, Network)
    requires e in GuestEdges(ids, HostId(m), storage, bridge)
    ensures Joins(m, e)
  {
    var init, last := ids[..|ids| - 1], ids[|ids| - 1];
    if e in GuestRequest(last, HostId(m), storage, bridge) {
      RequestedGroups(m);
      assert last in ids;
      JoinsBy(m, e, kind, if e.kind == DependsOn then Host else if e.kind == StorageEdge then Storage else Network);
    } else {
      forall id | id in init ensures id in ids {}
      GuestEdgesJoin(m, init, kind, storage, bridge, e);
    }
  }

  /** Both ends are distinct VM nodes. */
  ghost predicate JoinsVms(ids: seq<string>, e: Edge) {
    e.src != e.dst && e.src in ids && e.dst in ids && "vm:" <= e.src && "vm:" <= e.dst
  }

  lemma {:induction false} ProviderEdgesJoin(ids: seq<string>, providers: map<string, string>, consumer: string,
                                             services: seq<string>, kind: EdgeKind, e: Edge)
    requires consumer in ids && "vm:" <= consumer && e in ProviderEdges(ids, providers, consumer, services, kind)
    ensures JoinsVms(ids, e)
  {
    if e !in Maybe(consumer, Provider(ids, providers, consumer, services[|services| - 1]), kind) {
      ProviderEdgesJoin(ids, providers, consumer, services[..|services| - 1], kind, e);
    }
  }

  lemma {:induction false} ContractEdgesJoin(ids: seq<string>, providers: map<string, string>, contracts: seq<Contract>, e: Edge)
    requires e in ContractEdges(ids, providers, contracts)
    ensures JoinsVms(ids, e)
  {
    var c := contracts[|contracts| - 1];
    if e in ContractRequest(ids, providers, c) {
      var consumer := "vm:" + c.vm;
      if e in ProviderEdges(ids, providers, consumer, c.requires_, ServiceEdge) {
        ProviderEdgesJoin(ids, providers, consumer, c.requires_, ServiceEdge, e);
      } else {
        ProviderEdgesJoin(ids, providers, consumer, c.startupAfter, DependsOn, e);
      }
    } else {
      ContractEdgesJoin(ids, providers, contracts[..|contracts| - 1], e);
    }
  }

  lemma {:induction false} FindVmFacts(vmIds: seq<string>, fragment: string)
    ensures FindVm(vmIds, fragment).Some? ==> FindVm(vmIds, fragment).value in vmIds
  {
    if vmIds != [] { FindVmFacts(vmIds[1..], fragment); }
  }

  lemma {:induction false} AllToJoins(vmIds: seq<string>, provider: string, e: Edge)
    requires e in AllTo(vmIds, provider)
    ensures e.src in vmIds && e.dst == provider && e.src != provider
  {
    if e.src != vmIds[|vmIds| - 1] || e !in AllTo(vmIds, provider)[|AllTo(vmIds[..|vmIds| - 1], provider)|..] {
      AllToJoins(vmIds[..|vmIds| - 1], provider, e);
    }
  }

  lemma {:induction false} HeuristicEdgesJoin(vmIds: seq<string>, patterns: seq<Pattern>, e: Edge)
    requires e in HeuristicEdges(vmIds, patterns)
    ensures e.src in vmIds && e.dst in vmIds && e.src != e.dst
  {
    var p := patterns[|patterns| - 1];
    if e in PatternEdges(vmIds, p) {
      FindVmFacts(vmIds, p.provider);
      if p.consumer.Some? { FindVmFacts(vmIds, p.consumer.value); }
      else { AllToJoins(vmIds, FindVm(vmIds, p.provider).value, e); }
    } else {
      HeuristicEdgesJoin(vmIds, patterns[..|patterns| - 1], e);
    }
  }

  lemma {:induction false} VmIdsFacts(nodes: seq<Node>, id: string)
    ensures id in VmIds(nodes) <==> Node(id, Vm) in nodes
  {
    if nodes != [] {
      VmIdsFacts(nodes[..|nodes| - 1], id);
      assert nodes == nodes[..|nodes| - 1] + [nodes[|nodes| - 1]];
    }
  }

  lemma VmIdsAreVms(m: Manifest, id: string)
    requires id in Ids(FirstById(RequestedNodes(m))) && "vm:" <= id
    ensures Requested(m, id, Vm)
  {
    var nodes := FirstById(RequestedNodes(m));
    FirstByIdFacts(RequestedNodes(m));
    RequestedKinds(m);
    var i :| 0 <= i < |nodes| && nodes[i].id == id;
    assert id[0] == 'v' && nodes[i] in RequestedNodes(m);
    assert nodes[i] == Node(id, Vm);
  }

  lemma ServiceEdgesJoin(m: Manifest, e: Edge)
    requires e in ServiceEdges(m, FirstById(RequestedNodes(m)))
    ensures Joins(m, e)
  {
    var nodes := FirstById(RequestedNodes(m));
    if m.contracts != [] {
      ContractEdgesJoin(Ids(nodes), ServiceToVm(m.contracts), m.contracts, e);
      VmIdsAreVms(m, e.src);
      VmIdsAreVms(m, e.dst);
    } else {
      HeuristicEdgesJoin(VmIds(nodes), PATTERNS, e);
      VmIdsFacts(nodes, e.src);
      VmIdsFacts(nodes, e.dst);
      FirstByIdFacts(RequestedNodes(m));
    }
    JoinsBy(m, e, Vm, Vm);
  }

  lemma RequestedEdgesJoin(m: Manifest, e: Edge)
    requires e in RequestedEdges(m)
    ensures Joins(m, e)
  {
    RequestedGroups(m);
    if e in ToHost(PoolIds(m.pools), HostId(m)) { ToHostJoins(m, PoolIds(m.pools), Storage, e); }
    else if e in ToHost(StoreIds(m.pools, m.stores), HostId(m)) { ToHostJoins(m, StoreIds(m.pools, m.stores), Storage, e); }
    else if e in FallbackEdges(m) { JoinsBy(m, e, Storage, Host); }
    else if e in ToHost(BridgeIds(m.bridges), HostId(m)) { ToHostJoins(m, BridgeIds(m.bridges), Network, e); }
    else if e in GuestEdges(GuestIds(m.vms), HostId(m), PrimaryStorage(m), PrimaryBridge(m)) {
      GuestEdgesJoin(m, GuestIds(m.vms), Vm, PrimaryStorage(m), PrimaryBridge(m), e);
    } else if e in GuestEdges(CtIds(m.containers), HostId(m), PrimaryStorage(m), None) {
      GuestEdgesJoin(m, CtIds(m.containers), Container, PrimaryStorage(m), None, e);
    } else { ServiceEdgesJoin(m, e); }
  }

  // ---- every node but the host sits on the host ----

  lemma {:induction false} ToHostCovers(ids: seq<string>, host: string, id: string)
    requires id in ids
    ensures Edge(id, host, DependsOn) in ToHost(ids, host)
  {
    if id != ids[|ids| - 1] { ToHostCovers(ids[..|ids| - 1], host, id); }
  }

  lemma {:induction false} GuestsCover(ids: seq<string>, host: string, storage: Option<string>, bridge: Option<string>, id: string)
    requires id in ids
    ensures Edge(id, host, DependsOn) in GuestEdges(ids, host, storage, bridge)
  {
    if id != ids[|ids| - 1] { GuestsCover(ids[..|ids| - 1], host, storage, bridge, id); }
    else { assert Edge(id, host, DependsOn) in GuestRequest(id, host, storage, bridge); }
  }

  lemma EveryNodeOnHost(m: Manifest, n: Node)
    requires n in RequestedNodes(m) && n.id != HostId(m)
    ensures Edge(n.id, HostId(m), DependsOn) in RequestedEdges(m)
  {
    NodesOfFacts(PoolIds(m.pools), Storage);
    NodesOfFacts(StoreIds(m.pools, m.stores), Storage);
    NodesOfFacts(BridgeIds(m.bridges), Network);
    NodesOfFacts(GuestIds(m.vms), Vm);
    NodesOfFacts(CtIds(m.containers), Container);
    if n.id in PoolIds(m.pools) { ToHostCovers(PoolIds(m.pools), HostId(m), n.id); }
    else if n.id in StoreIds(m.pools, m.stores) { ToHostCovers(StoreIds(m.pools, m.stores), HostId(m), n.id); }
    else if n.id in BridgeIds(m.bridges) { ToHostCovers(BridgeIds(m.bridges), HostId(m), n.id); }
    else if n.id in GuestIds(m.vms) { GuestsCover(GuestIds(m.vms), HostId(m), PrimaryStorage(m), PrimaryBridge(m), n.id); }
    else { GuestsCover(CtIds(m.containers), HostId(m), PrimaryStorage(m), None, n.id); }
  }

  lemma {:induction false} FirstKept(requested: seq<Node>, n: Node)
    requires n in requested && forall a, b :: a in requested && b in requested && a.id == b.id ==> a == b
    ensures n in FirstById(requested)
  {
    var init, last := requested[..|requested| - 1], requested[|requested| - 1];
    assert requested == init + [last];
    if n in init {
      FirstKept(init, n);
    } else {
      FirstByIdFacts(init);
      forall k | k in init ensures k.id != n.id { assert k in requested; }
      assert last.id !in Ids(init);
    }
  }

  /** Every graph built from a manifest has distinct nodes, closed endpoints, no self-edge, no duplicate edge,
      and the layers above. */
  lemma BuiltGraphsAreLayered(m: Manifest)
    ensures var nodes, es := FirstById(RequestedNodes(m)), FirstOfEach(RequestedEdges(m));
      Distinct(Ids(nodes)) && Distinct(es) && Closed(Ids(nodes), es) && Layered(HostId(m), nodes, es)
  {
    var nodes, es := FirstById(RequestedNodes(m)), FirstOfEach(RequestedEdges(m));
    FirstByIdFacts(RequestedNodes(m));
    FirstOfEachFacts(RequestedEdges(m));
    RequestedKinds(m);
    RequestedGroups(m);
    forall id, k | Requested(m, id, k) ensures Node(id, k) in nodes { FirstKept(RequestedNodes(m), Node(id, k)); }
    forall n | n in nodes && n.id != HostId(m) ensures HasEdge(es, n.id, HostId(m)) {
      EveryNodeOnHost(m, n);
      assert Edge(n.id, HostId(m), DependsOn) in es;
    }
    forall e | e in es ensures e.src != e.dst && EdgeJoins(nodes, e) && e.src in Ids(nodes) && e.dst in Ids(nodes) {
      RequestedEdgesJoin(m, e);
      var a, b :| Requested(m, e.src, a) && Requested(m, e.dst, b) && MayDependOn(a, b);
      assert Node(e.src, a) in nodes && Node(e.dst, b) in nodes;
      NodeIdListed(nodes, Node(e.src, a));
      NodeIdListed(nodes, Node(e.dst, b));
    }
  }

  lemma NodeIdListed(nodes: seq<Node>, n: Node)
    requires n in nodes
    ensures n.id in Ids(nodes)
  {
    var i :| 0 <= i < |nodes| && nodes[i] == n;
    assert Ids(nodes)[i] == n.id;
  }

  // ---- the restore waves of a built graph ----

  /** The host is alone in wave 1, storage and network fill wave 2, containers are placed by wave 3, and only VMs
      can end up in the warning wave. */
  lemma LayeredWaves(host: string, nodes: seq<Node>, es: seq<Edge>, waves: seq<seq<string>>, rest: seq<string>)
    requires Distinct(Ids(nodes)) && Layered(host, nodes, es) && IsSchedule(Ids(nodes), es, waves, rest)
    ensures waves != [] && waves[0] == [host]
    ensures forall n :: n in nodes && (n.kind == Storage || n.kind == Network) ==> 1 < |waves| && n.id in waves[1]
    ensures forall n :: n in nodes && n.kind == Container ==>
      (1 < |waves| && n.id in waves[1]) || (2 < |waves| && n.id in waves[2])
    ensures forall n :: n in nodes && n.id in rest ==> n.kind == Vm
    ensures forall n :: n in nodes ==> n.kind == Host || n.kind == Storage || n.kind == Network || n.kind == Container || n.kind == Vm
  {
    HostAlone(host, nodes, es, waves, rest);
    forall n | n in nodes ensures n.kind == Host || MayDependOn(n.kind, Host) {
      if n.kind != Host { KindOfDependent(host, nodes, es, n); }
    }
    forall n | n in nodes && (n.kind == Storage || n.kind == Network) ensures 1 < |waves| && n.id in waves[1] {
      var k := WaveAfterHostOnly(host, nodes, es, waves, rest, n);
    }
    forall n | n in nodes && n.kind == Container
      ensures (1 < |waves| && n.id in waves[1]) || (2 < |waves| && n.id in waves[2])
    {
      ContainerWave(host, nodes, es, waves, rest, n);
    }
    forall n | n in nodes && n.kind != Vm ensures n.id !in rest {
      if n.kind == Storage || n.kind == Network { var k := WaveAfterHostOnly(host, nodes, es, waves, rest, n); assert n.id in Placed(waves); }
      else if n.kind == Container { ContainerWave(host, nodes, es, waves, rest, n); assert n.id in Placed(waves); }
      else { assert host in waves[0]; assert n.id in Placed(waves); }
    }
  }

  lemma SameNode(nodes: seq<Node>, a: Node, b: Node)
    requires Distinct(Ids(nodes)) && a in nodes && b in nodes && a.id == b.id
    ensures a == b
  {
    var i :| 0 <= i < |nodes| && nodes[i] == a;
    var j :| 0 <= j < |nodes| && nodes[j] == b;
    assert Ids(nodes)[i] == Ids(nodes)[j];
  }

  lemma KindOfDependent(host: string, nodes: seq<Node>, es: seq<Edge>, n: Node)
    requires Distinct(Ids(nodes)) && Layered(host, nodes, es) && n in nodes && n.kind != Host
    ensures MayDependOn(n.kind, Host)
  {
    if n.id == host { SameNode(nodes, n, Node(host, Host)); }
    assert HasEdge(es, n.id, host);
    var e :| e in es && e.src == n.id && e.dst == host;
    assert EdgeJoins(nodes, e);
    var a, b :| Node(e.src, a) in nodes && Node(e.dst, b) in nodes && MayDependOn(a, b);
    SameNode(nodes, n, Node(e.src, a));
    SameNode(nodes, Node(host, Host), Node(e.dst, b));
  }

  /** An edge out of `n` ends in a node of a kind `n` may depend on. */
  lemma DependencyKind(host: string, nodes: seq<Node>, es: seq<Edge>, n: Node, to: string) returns (d: Node)
    requires Distinct(Ids(nodes)) && Layered(host, nodes, es) && n in nodes && HasEdge(es, n.id, to)
    ensures d in nodes && d.id == to && MayDependOn(n.kind, d.kind)
  {
    var e :| e in es && e.src == n.id && e.dst == to;
    assert EdgeJoins(nodes, e);
    var a, b :| Node(e.src, a) in nodes && Node(e.dst, b) in nodes && MayDependOn(a, b);
    SameNode(nodes, n, Node(e.src, a));
    d := Node(e.dst, b);
  }

  /** A node is either placed in a wave right after one of its dependencies, or waits in the rest for one of them. */
  lemma WhereItIs(ids: seq<string>, es: seq<Edge>, waves: seq<seq<string>>, rest: seq<string>, n: string)
    returns (k: nat, placed: bool, d: string)
    requires IsSchedule(ids, es, waves, rest) && n in ids
    ensures placed ==> k < |waves| && n in waves[k] && (k > 0 ==> d in waves[k - 1] && HasEdge(es, n, d))
    ensures !placed ==> d in rest && HasEdge(es, n, d)
  {
    d := "";
    if n in rest {
      assert DependsOnOneOf(es, n, rest);
      d :| d in rest && HasEdge(es, n, d);
      k, placed := 0, false;
    } else {
      k :| 0 <= k < |waves| && n in waves[k];
      placed := true;
      if k > 0 {
        assert DependsOnOneOf(es, n, waves[k - 1]);
        d :| d in waves[k - 1] && HasEdge(es, n, d);
      }
    }
  }

  lemma HostAlone(host: string, nodes: seq<Node>, es: seq<Edge>, waves: seq<seq<string>>, rest: seq<string>)
    requires Distinct(Ids(nodes)) && Layered(host, nodes, es) && IsSchedule(Ids(nodes), es, waves, rest)
    ensures waves != [] && waves[0] == [host]
  {
    NodeIdListed(nodes, Node(host, Host));
    var k, placed, d := WhereItIs(Ids(nodes), es, waves, rest, host);
    if !placed || k > 0 {
      var below := DependencyKind(host, nodes, es, Node(host, Host), d);
    }
    var w := waves[0];
    forall id | id in w ensures id == host { FirstWaveIsHost(host, nodes, es, waves, rest, id); }
    assert w[0] in w && Members(w) == {host};
    DistinctCount(w);
  }

  lemma NothingEarlier(waves: seq<seq<string>>, n: string)
    ensures !InEarlierWave(waves, 0, n)
  {
  }

  lemma FirstWaveIsHost(host: string, nodes: seq<Node>, es: seq<Edge>, waves: seq<seq<string>>, rest: seq<string>, id: string)
    requires Layered(host, nodes, es) && IsSchedule(Ids(nodes), es, waves, rest) && waves != [] && id in waves[0]
    ensures id == host
  {
    if id != host {
      assert id in Placed(waves);
      var i :| 0 <= i < |nodes| && Ids(nodes)[i] == id;
      assert nodes[i] in nodes && HasEdge(es, id, host);
      var e :| e in es && e.src == id && e.dst == host;
      NothingEarlier(waves, e.dst);
    }
  }

  lemma WaveAfterHostOnly(host: string, nodes: seq<Node>, es: seq<Edge>, waves: seq<seq<string>>, rest: seq<string>, n: Node)
    returns (k: nat)
    requires Distinct(Ids(nodes)) && Layered(host, nodes, es) && IsSchedule(Ids(nodes), es, waves, rest)
    requires waves != [] && waves[0] == [host]
    requires n in nodes && (n.kind == Storage || n.kind == Network)
    ensures k == 1 < |waves| && n.id in waves[1]
  {
    NodeIdListed(nodes, n);
    var placed, d;
    k, placed, d := WhereItIs(Ids(nodes), es, waves, rest, n.id);
    if placed && k == 0 {
      SameNode(nodes, n, Node(host, Host));
    } else {
      var below := DependencyKind(host, nodes, es, n, d);
      assert d == host && host in waves[0] && host in Placed(waves);
    }
  }

  lemma ContainerWave(host: string, nodes: seq<Node>, es: seq<Edge>, waves: seq<seq<string>>, rest: seq<string>, n: Node)
    requires Distinct(Ids(nodes)) && Layered(host, nodes, es) && IsSchedule(Ids(nodes), es, waves, rest)
    requires waves != [] && waves[0] == [host]
    requires n in nodes && n.kind == Container
    ensures (1 < |waves| && n.id in waves[1]) || (2 < |waves| && n.id in waves[2])
  {
    NodeIdListed(nodes, n);
    var k, placed, d := WhereItIs(Ids(nodes), es, waves, rest, n.id);
    if placed && k == 0 {
      SameNode(nodes, n, Node(host, Host));
    } else {
      var below := DependencyKind(host, nodes, es, n, d);
      if below.kind == Storage {
        var j := WaveAfterHostOnly(host, nodes, es, waves, rest, below);
        assert d in waves[1] && d in Placed(waves);
      } else {
        assert d == host && host in waves[0] && host in Placed(waves);
      }
    }
  }

  method WithWaves(nodes: seq<Node>, edges: seq<Edge>) returns (g: DependencyGraph)
    requires Distinct(Ids(nodes)) && Closed(Ids(nodes), edges)
    ensures fresh(g) && g.nodes == nodes && g.edges == edges && g.Valid()
    ensures IsSchedule(Ids(nodes), edges, Normal(g.restoreWaves), Warned(g.restoreWaves))
    ensures WellPresented(KindMap(nodes), g.restoreWaves)
  {
    g := new DependencyGraph();
    g.nodes, g.edges := nodes, edges;
    var waves := g.TopologicalWaves();
    g.restoreWaves := waves;
  }
}
