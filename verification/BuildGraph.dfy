// Building the dependency graph of a manifest. The requests made to add_node and add_edge are
// given by functions of the manifest; the graph keeps the first request for each id and each edge.

module ManifestGraphs {
  import opened Options
  import opened Sorting
  import opened Schedules
  import opened Kahn
  import opened DependencyGraphs
  import opened Text

  datatype Pool = Pool(name: string, freeGb: Option<real>)

  /** `id` is the vmid or ctid. */
  datatype Guest = Guest(id: int, name: Option<string>)

  /** Absent and empty `service` and `vm` fields are the same to the code: both are "". */
  datatype Contract = Contract(service: string, vm: string, requires_: seq<string>, startupAfter: seq<string>)

  datatype Manifest = Manifest(hostname: Option<string>, pools: seq<Pool>, stores: seq<string>, bridges: seq<string>,
                               vms: seq<Guest>, containers: seq<Guest>, contracts: seq<Contract>)

  // ---- node requests ----

  function HostId(m: Manifest): string { "host:" + (if m.hostname.Some? then m.hostname.value else "pve-host") }

  function PoolId(name: string): string { "zfs:" + name }

  function StoreId(name: string): string { "storage:" + name }

  function BridgeId(name: string): string { "net:" + name }

  function VmName(g: Guest): string { if g.name.Some? then g.name.value else "vm-" + DecimalInt(g.id) }

  function VmId(g: Guest): string { "vm:" + VmName(g) }

  function CtId(g: Guest): string { "ct:" + (if g.name.Some? then g.name.value else "ct-" + DecimalInt(g.id)) }

  predicate HasPool(pools: seq<Pool>, name: string) {
    exists p :: p in pools && p.name == name
  }

  /** The storage node a PVE store stands for: its own pool, the pool behind "local-<pool>", or a node of its own. */
  function StorageFor(pools: seq<Pool>, store: string): string {
    if HasPool(pools, store) then PoolId(store)
    else if "local-" <= store && HasPool(pools, store[6..]) then PoolId(store[6..])
    else StoreId(store)
  }

  function PoolIds(pools: seq<Pool>): seq<string> {
    seq(|pools|, i requires 0 <= i < |pools| => PoolId(pools[i].name))
  }

  /** The stores no pool accounts for. */
  function StoreIds(pools: seq<Pool>, stores: seq<string>): seq<string> {
    if stores == [] then []
    else
      var store := stores[|stores| - 1];
      StoreIds(pools, stores[..|stores| - 1]) + (if StorageFor(pools, store) == StoreId(store) then [StoreId(store)] else [])
  }

  function BridgeIds(bridges: seq<string>): seq<string> {
    seq(|bridges|, i requires 0 <= i < |bridges| => BridgeId(bridges[i]))
  }

  function GuestIds(vms: seq<Guest>): seq<string> {
    seq(|vms|, i requires 0 <= i < |vms| => VmId(vms[i]))
  }

  function CtIds(cts: seq<Guest>): seq<string> {
    seq(|cts|, i requires 0 <= i < |cts| => CtId(cts[i]))
  }

  function NodesOf(ids: seq<string>, kind: NodeKind): seq<Node> {
    if ids == [] then [] else NodesOf(ids[..|ids| - 1], kind) + [Node(ids[|ids| - 1], kind)]
  }

  function RequestedNodes(m: Manifest): seq<Node> {
    [Node(HostId(m), Host)] + NodesOf(PoolIds(m.pools), Storage) + NodesOf(StoreIds(m.pools, m.stores), Storage)
    + NodesOf(BridgeIds(m.bridges), Network) + NodesOf(GuestIds(m.vms), Vm) + NodesOf(CtIds(m.containers), Container)
  }

  function FirstById(requested: seq<Node>): seq<Node> {
    if requested == [] then []
    else
      var r := FirstById(requested[..|requested| - 1]);
      var n := requested[|requested| - 1];
      if n.id in Ids(r) then r else r + [n]
  }

  function FirstOfEach(requested: seq<Edge>): seq<Edge> {
    if requested == [] then []
    else
      var r := FirstOfEach(requested[..|requested| - 1]);
      var e := requested[|requested| - 1];
      if e in r then r else r + [e]
  }

  lemma {:induction false} FirstByIdFacts(requested: seq<Node>)
    ensures Distinct(Ids(FirstById(requested)))
    ensures forall n :: n in FirstById(requested) ==> n in requested
    ensures forall id :: id in Ids(FirstById(requested)) <==> id in Ids(requested)
  {
    if requested != [] {
      var init, n := requested[..|requested| - 1], requested[|requested| - 1];
      FirstByIdFacts(init);
      assert requested == init + [n] && Ids(requested) == Ids(init) + [n.id];
      assert Ids(FirstById(init) + [n]) == Ids(FirstById(init)) + [n.id];
    }
  }

  lemma {:induction false} FirstOfEachFacts(requested: seq<Edge>)
    ensures Distinct(FirstOfEach(requested))
    ensures forall e :: e in FirstOfEach(requested) <==> e in requested
  {
    if requested != [] {
      var init, e := requested[..|requested| - 1], requested[|requested| - 1];
      FirstOfEachFacts(init);
      assert requested == init + [e];
    }
  }

  // ---- edge requests ----

  /** free_gb, with absent and zero alike */
  function Free(p: Pool): real { if p.freeGb.Some? then p.freeGb.value else 0.0 }

  function FreeOf(pools: seq<Pool>, i: Option<nat>): real
    requires i.Some? ==> i.value < |pools|
  {
    if i.Some? then Free(pools[i.value]) else -1.0
  }

  /** The running maximum of the placement loop: an index, or None while nothing beat -1. */
  function PrimaryPool(pools: seq<Pool>): (r: Option<nat>)
    ensures r.Some? ==> r.value < |pools|
  {
    if pools == [] then None
    else
      var last := |pools| - 1;
      var best := PrimaryPool(pools[..last]);
      if Free(pools[last]) > FreeOf(pools[..last], best) then Some(last) else best
  }

  /** VMs go to the first pool among those with the most free space, unless no pool has more than -1. */
  lemma {:induction false} PrimaryPoolIsLargest(pools: seq<Pool>)
    ensures PrimaryPool(pools).None? <==> forall p :: p in pools ==> Free(p) <= -1.0
    ensures PrimaryPool(pools).Some? ==>
      var i := PrimaryPool(pools).value;
      (forall j :: 0 <= j < |pools| ==> Free(pools[j]) <= Free(pools[i])) && (forall j :: 0 <= j < i ==> Free(pools[j]) < Free(pools[i]))
  {
    if pools != [] {
      var init := pools[..|pools| - 1];
      PrimaryPoolIsLargest(init);
      assert pools == init + [pools[|pools| - 1]];
      assert pools[|pools| - 1] in pools && forall p :: p in init ==> p in pools;
      assert forall j :: 0 <= j < |init| ==> pools[j] == init[j] && pools[j] in pools;
    }
  }

  function PrimaryStorage(m: Manifest): Option<string> {
    var pool := PrimaryPool(m.pools);
    if pool.Some? then Some(PoolId(m.pools[pool.value].name))
    else if m.stores != [] then Some(StorageFor(m.pools, m.stores[0]))
    else None
  }

  function ToHost(ids: seq<string>, host: string): seq<Edge> {
    if ids == [] then [] else ToHost(ids[..|ids| - 1], host) + [Edge(ids[|ids| - 1], host, DependsOn)]
  }

  function Maybe(src: string, dst: Option<string>, kind: EdgeKind): seq<Edge> {
    if dst.Some? then [Edge(src, dst.value, kind)] else []
  }

  function GuestRequest(id: string, host: string, storage: Option<string>, bridge: Option<string>): seq<Edge> {
    [Edge(id, host, DependsOn)] + Maybe(id, storage, StorageEdge) + Maybe(id, bridge, NetworkEdge)
  }

  function GuestEdges(ids: seq<string>, host: string, storage: Option<string>, bridge: Option<string>): seq<Edge> {
    if ids == [] then []
    else GuestEdges(ids[..|ids| - 1], host, storage, bridge) + GuestRequest(ids[|ids| - 1], host, storage, bridge)
  }

  function PrimaryBridge(m: Manifest): Option<string> {
    if m.bridges == [] then None else Some(BridgeId(m.bridges[0]))
  }

  /** The contract that comes last decides which VM runs a service. */
  function ServiceToVm(contracts: seq<Contract>): map<string, string> {
    if contracts == [] then map[]
    else
      var c := contracts[|contracts| - 1];
      var earlier := ServiceToVm(contracts[..|contracts| - 1]);
      if c.service != "" && c.vm != "" then earlier[c.service := c.vm] else earlier
  }

  /** The VM that provides a service, unless it is unknown, not in the graph, or the consumer itself. */
  function Provider(ids: seq<string>, providers: map<string, string>, consumer: string, service: string): Option<string> {
    if service !in providers then None
    else if "vm:" + providers[service] !in ids || consumer == "vm:" + providers[service] then None
    else Some("vm:" + providers[service])
  }

  function ProviderEdges(ids: seq<string>, providers: map<string, string>, consumer: string, services: seq<string>,
                         kind: EdgeKind): seq<Edge> {
    if services == [] then []
    else
      ProviderEdges(ids, providers, consumer, services[..|services| - 1], kind)
      + Maybe(consumer, Provider(ids, providers, consumer, services[|services| - 1]), kind)
  }

  function ContractRequest(ids: seq<string>, providers: map<string, string>, c: Contract): seq<Edge> {
    if c.vm == "" || "vm:" + c.vm !in ids then []
    else ProviderEdges(ids, providers, "vm:" + c.vm, c.requires_, ServiceEdge)
         + ProviderEdges(ids, providers, "vm:" + c.vm, c.startupAfter, DependsOn)
  }

  function ContractEdges(ids: seq<string>, providers: map<string, string>, contracts: seq<Contract>): seq<Edge> {
    if contracts == [] then []
    else
      ContractEdges(ids, providers, contracts[..|contracts| - 1])
      + ContractRequest(ids, providers, contracts[|contracts| - 1])
  }

  datatype Pattern = Pattern(provider: string, consumer: Option<string>)

  const PATTERNS: seq<Pattern> := [
    Pattern("forgejo", Some("assessment")), Pattern("forgejo", Some("inventory")),
    Pattern("forgejo", Some("ansible")), Pattern("forgejo", Some("tofu")),
    Pattern("inventory", Some("assessment")),
    Pattern("dns", None), Pattern("nfs", None), Pattern("postgres", None), Pattern("database", None), Pattern("db", None)]

  /** The first VM node whose name contains the fragment; `vmIds` are "vm:" ids. */
  function FindVm(vmIds: seq<string>, fragment: string): Option<string> {
    if vmIds == [] then None
    else if "vm:" <= vmIds[0] && Contains(Lower(vmIds[0][3..]), Lower(fragment)) then Some(vmIds[0])
    else FindVm(vmIds[1..], fragment)
  }

  function AllTo(vmIds: seq<string>, provider: string): seq<Edge> {
    if vmIds == [] then []
    else
      var id := vmIds[|vmIds| - 1];
      AllTo(vmIds[..|vmIds| - 1], provider) + (if id == provider then [] else [Edge(id, provider, NetworkEdge)])
  }

  function PatternEdges(vmIds: seq<string>, p: Pattern): seq<Edge> {
    var provider := FindVm(vmIds, p.provider);
    if provider.None? then []
    else if p.consumer.None? then AllTo(vmIds, provider.value)
    else
      var consumer := FindVm(vmIds, p.consumer.value);
      if consumer.Some? && consumer != provider then [Edge(consumer.value, provider.value, NetworkEdge)] else []
  }

  function HeuristicEdges(vmIds: seq<string>, patterns: seq<Pattern>): seq<Edge> {
    if patterns == [] then []
    else HeuristicEdges(vmIds, patterns[..|patterns| - 1]) + PatternEdges(vmIds, patterns[|patterns| - 1])
  }

  function VmIds(nodes: seq<Node>): seq<string> {
    if nodes == [] then []
    else VmIds(nodes[..|nodes| - 1]) + (if nodes[|nodes| - 1].kind == Vm then [nodes[|nodes| - 1].id] else [])
  }

  function ServiceEdges(m: Manifest, nodes: seq<Node>): seq<Edge> {
    if m.contracts != [] then ContractEdges(Ids(nodes), ServiceToVm(m.contracts), m.contracts)
    else HeuristicEdges(VmIds(nodes), PATTERNS)
  }

  /** The first store is linked to the host once more when it stands in for a missing pool. */
  function FallbackEdges(m: Manifest): seq<Edge> {
    if PrimaryPool(m.pools).None? && m.stores != [] then [Edge(StorageFor(m.pools, m.stores[0]), HostId(m), DependsOn)] else []
  }

  function PlacementEdges(m: Manifest): seq<Edge> {
    ToHost(PoolIds(m.pools), HostId(m)) + ToHost(StoreIds(m.pools, m.stores), HostId(m)) + FallbackEdges(m)
    + ToHost(BridgeIds(m.bridges), HostId(m))
    + GuestEdges(GuestIds(m.vms), HostId(m), PrimaryStorage(m), PrimaryBridge(m))
    + GuestEdges(CtIds(m.containers), HostId(m), PrimaryStorage(m), None)
  }

  function RequestedEdges(m: Manifest): seq<Edge> {
    PlacementEdges(m) + ServiceEdges(m, FirstById(RequestedNodes(m)))
  }

  ghost predicate Unfold(u: bool) { true }

  lemma FirstByIdGrows(requested: seq<Node>, n: Node)
    ensures FirstById(requested + [n]) ==
      if n.id in Ids(FirstById(requested)) then FirstById(requested) else FirstById(requested) + [n]
    ensures Members(Ids(FirstById(requested + [n]))) == Members(Ids(FirstById(requested))) + {n.id}
  {
    assert (requested + [n])[..|requested|] == requested;
    assert Ids(FirstById(requested) + [n]) == Ids(FirstById(requested)) + [n.id];
  }

  /** A graph under construction together with the two sets that add_node and add_edge consult. */
  class GraphBuilder {
    var nodes: seq<Node>
    var edges: seq<Edge>
    var addedNodeIds: set<string>
    var addedEdgeKeys: set<Edge>
    ghost var nodeRequests: seq<Node>
    ghost var edgeRequests: seq<Edge>

    ghost predicate KeepsFirsts()
      reads this
    {
      && nodes == FirstById(nodeRequests) && addedNodeIds == Members(Ids(nodes))
      && edges == FirstOfEach(edgeRequests) && addedEdgeKeys == Members(edges)
    }

    /** KeepsFirsts behind a trigger of its own, so that callers only unfold it where they mention Unfold. */
    ghost predicate Valid()
      reads this
    {
      forall u {:trigger Unfold(u)} :: Unfold(u) ==> KeepsFirsts()
    }

    constructor ()
      ensures Valid() && nodeRequests == [] && edgeRequests == []
    {
      nodes, edges, addedNodeIds, addedEdgeKeys := [], [], {}, {};
      nodeRequests, edgeRequests := [], [];
      new;
      assert Ids([]) == [];
      assert KeepsFirsts();
    }

    method AddNode(n: Node)
      requires Valid()
      modifies this
      ensures Valid() && nodeRequests == old(nodeRequests) + [n] && edgeRequests == old(edgeRequests)
    {
      assert Unfold(true);
      FirstByIdGrows(nodeRequests, n);
      if n.id !in addedNodeIds {
        nodes := nodes + [n];
        addedNodeIds := addedNodeIds + {n.id};
      }
      nodeRequests := nodeRequests + [n];
      assert KeepsFirsts();
    }

    method AddEdge(e: Edge)
      requires Valid()
      modifies this
      ensures Valid() && nodeRequests == old(nodeRequests) && edgeRequests == old(edgeRequests) + [e]
    {
      assert Unfold(true);
      assert (edgeRequests + [e])[..|edgeRequests|] == edgeRequests;
      if e !in addedEdgeKeys {
        edges := edges + [e];
        addedEdgeKeys := addedEdgeKeys + {e};
      }
      edgeRequests := edgeRequests + [e];
      assert KeepsFirsts();
    }

    /** Storage and network nodes: each depends on the host. */
    method AddInfrastructure(ids: seq<string>, kind: NodeKind, host: string)
      requires Valid()
      modifies this
      ensures Valid() && nodeRequests == old(nodeRequests) + NodesOf(ids, kind)
      ensures edgeRequests == old(edgeRequests) + ToHost(ids, host)
    {
      for i := 0 to |ids|
        invariant Valid() && nodeRequests == old(nodeRequests) + NodesOf(ids[..i], kind)
        invariant edgeRequests == old(edgeRequests) + ToHost(ids[..i], host)
      {
        assert ids[..i + 1][..i] == ids[..i];
        AddNode(Node(ids[i], kind));
        AddEdge(Edge(ids[i], host, DependsOn));
      }
      assert ids[..|ids|] == ids;
    }

    method AddStores(pools: seq<Pool>, stores: seq<string>, host: string)
      requires Valid()
      modifies this
      ensures Valid() && nodeRequests == old(nodeRequests) + NodesOf(StoreIds(pools, stores), Storage)
      ensures edgeRequests == old(edgeRequests) + ToHost(StoreIds(pools, stores), host)
    {
      var unmapped: seq<string> := [];
      for i := 0 to |stores|
        invariant Valid() && nodeRequests == old(nodeRequests) + NodesOf(unmapped, Storage)
        invariant edgeRequests == old(edgeRequests) + ToHost(unmapped, host)
        invariant unmapped == StoreIds(pools, stores[..i])
      {
        assert stores[..i + 1][..i] == stores[..i];
        var mapped := MatchPool(pools, stores[i]);
        if !mapped {
          var id := StoreId(stores[i]);
          assert (unmapped + [id])[..|unmapped|] == unmapped;
          AddNode(Node(id, Storage));
          AddEdge(Edge(id, host, DependsOn));
          unmapped := unmapped + [id];
        }
      }
      assert stores[..|stores|] == stores;
    }

    method AddGuest(id: string, kind: NodeKind, host: string, storage: Option<string>, bridge: Option<string>)
      requires Valid()
      modifies this
      ensures Valid() && nodeRequests == old(nodeRequests) + [Node(id, kind)]
      ensures edgeRequests == old(edgeRequests) + GuestRequest(id, host, storage, bridge)
    {
      AddNode(Node(id, kind));
      AddEdge(Edge(id, host, DependsOn));
      if storage.Some? { AddEdge(Edge(id, storage.value, StorageEdge)); }
      if bridge.Some? { AddEdge(Edge(id, bridge.value, NetworkEdge)); }
    }

    method AddGuests(ids: seq<string>, kind: NodeKind, host: string, storage: Option<string>, bridge: Option<string>)
      requires Valid()
      modifies this
      ensures Valid() && nodeRequests == old(nodeRequests) + NodesOf(ids, kind)
      ensures edgeRequests == old(edgeRequests) + GuestEdges(ids, host, storage, bridge)
    {
      for i := 0 to |ids|
        invariant Valid() && nodeRequests == old(nodeRequests) + NodesOf(ids[..i], kind)
        invariant edgeRequests == old(edgeRequests) + GuestEdges(ids[..i], host, storage, bridge)
      {
        assert ids[..i + 1][..i] == ids[..i];
        AppendAssoc(old(edgeRequests), GuestEdges(ids[..i], host, storage, bridge), GuestRequest(ids[i], host, storage, bridge));
        AddGuest(ids[i], kind, host, storage, bridge);
      }
      assert ids[..|ids|] == ids;
    }

    /** One consumer and one list of provider services of _add_service_edges_from_contracts. */
    method AddProviderEdges(ids: seq<string>, providers: map<string, string>, consumer: string, services: seq<string>, kind: EdgeKind)
      requires Valid()
      modifies this
      ensures Valid() && nodeRequests == old(nodeRequests)
      ensures edgeRequests == old(edgeRequests) + ProviderEdges(ids, providers, consumer, services, kind)
    {
      for i := 0 to |services|
        invariant Valid() && nodeRequests == old(nodeRequests)
        invariant edgeRequests == old(edgeRequests) + ProviderEdges(ids, providers, consumer, services[..i], kind)
      {
        assert services[..i + 1][..i] == services[..i];
        var provider := Provider(ids, providers, consumer, services[i]);
        if provider.Some? { AddEdge(Edge(consumer, provider.value, kind)); }
      }
      assert services[..|services|] == services;
    }

    method AddContract(ids: seq<string>, providers: map<string, string>, c: Contract)
      requires Valid()
      modifies this
      ensures Valid() && nodeRequests == old(nodeRequests)
      ensures edgeRequests == old(edgeRequests) + ContractRequest(ids, providers, c)
    {
      var consumer := "vm:" + c.vm;
      if c.vm == "" || consumer !in ids { return; }
      AppendAssoc(edgeRequests, ProviderEdges(ids, providers, consumer, c.requires_, ServiceEdge),
                  ProviderEdges(ids, providers, consumer, c.startupAfter, DependsOn));
      AddProviderEdges(ids, providers, consumer, c.requires_, ServiceEdge);
      AddProviderEdges(ids, providers, consumer, c.startupAfter, DependsOn);
    }

    method AddContractEdges(contracts: seq<Contract>)
      requires Valid()
      modifies this
      ensures Valid() && nodeRequests == old(nodeRequests)
      ensures edgeRequests == old(edgeRequests) + ContractEdges(Ids(old(nodes)), ServiceToVm(contracts), contracts)
    {
      var ids, providers := Ids(nodes), ServiceToVm(contracts);
      for i := 0 to |contracts|
        invariant Valid() && nodeRequests == old(nodeRequests)
        invariant edgeRequests == old(edgeRequests) + ContractEdges(ids, providers, contracts[..i])
      {
        assert contracts[..i + 1][..i] == contracts[..i];
        AppendAssoc(old(edgeRequests), ContractEdges(ids, providers, contracts[..i]), ContractRequest(ids, providers, contracts[i]));
        AddContract(ids, providers, contracts[i]);
      }
      assert contracts[..|contracts|] == contracts;
    }

    method AddAllTo(vmIds: seq<string>, provider: string)
      requires Valid()
      modifies this
      ensures Valid() && nodeRequests == old(nodeRequests)
      ensures edgeRequests == old(edgeRequests) + AllTo(vmIds, provider)
    {
      for i := 0 to |vmIds|
        invariant Valid() && nodeRequests == old(nodeRequests)
        invariant edgeRequests == old(edgeRequests) + AllTo(vmIds[..i], provider)
      {
        assert vmIds[..i + 1][..i] == vmIds[..i];
        if vmIds[i] != provider { AddEdge(Edge(vmIds[i], provider, NetworkEdge)); }
      }
      assert vmIds[..|vmIds|] == vmIds;
    }

    method AddPattern(vmIds: seq<string>, p: Pattern)
      requires Valid()
      modifies this
      ensures Valid() && nodeRequests == old(nodeRequests)
      ensures edgeRequests == old(edgeRequests) + PatternEdges(vmIds, p)
    {
      var provider := FindVm(vmIds, p.provider);
      if provider.None? { return; }
      if p.consumer.None? {
        AddAllTo(vmIds, provider.value);
      } else {
        var consumer := FindVm(vmIds, p.consumer.value);
        if consumer.Some? && consumer != provider { AddEdge(Edge(consumer.value, provider.value, NetworkEdge)); }
      }
    }

    method AddHeuristics(patterns: seq<Pattern>)
      requires Valid()
      modifies this
      ensures Valid() && nodeRequests == old(nodeRequests)
      ensures edgeRequests == old(edgeRequests) + HeuristicEdges(VmIds(old(nodes)), patterns)
    {
      var vmIds := VmIds(nodes);
      for i := 0 to |patterns|
        invariant Valid() && nodeRequests == old(nodeRequests)
        invariant edgeRequests == old(edgeRequests) + HeuristicEdges(vmIds, patterns[..i])
      {
        assert patterns[..i + 1][..i] == patterns[..i];
        AppendAssoc(old(edgeRequests), HeuristicEdges(vmIds, patterns[..i]), PatternEdges(vmIds, patterns[i]));
        AddPattern(vmIds, patterns[i]);
      }
      assert patterns[..|patterns|] == patterns;
    }

    /** Nodes of every kind with their placement edges. */
    method AddComponents(m: Manifest)
      requires Valid() && nodeRequests == [] && edgeRequests == []
      modifies this
      ensures Valid() && nodeRequests == RequestedNodes(m) && edgeRequests == PlacementEdges(m)
    {
      var host := HostId(m);
      AddNode(Node(host, Host));
      assert nodeRequests == [Node(host, Host)];
      AddInfrastructure(PoolIds(m.pools), Storage, host);
      assert edgeRequests == ToHost(PoolIds(m.pools), host);
      AddStores(m.pools, m.stores, host);
      var pool := ChoosePool(m.pools);
      var storage := if pool.Some? then Some(PoolId(m.pools[pool.value].name)) else None;
      if storage.None? && m.stores != [] {
        storage := Some(StorageFor(m.pools, m.stores[0]));
        AddEdge(Edge(storage.value, host, DependsOn));
      }
      assert storage == PrimaryStorage(m);
      assert edgeRequests == ToHost(PoolIds(m.pools), host) + ToHost(StoreIds(m.pools, m.stores), host) + FallbackEdges(m);
      AddInfrastructure(BridgeIds(m.bridges), Network, host);
      AddGuests(GuestIds(m.vms), Vm, host, storage, PrimaryBridge(m));
      AddGuests(CtIds(m.containers), Container, host, storage, None);
    }

    method AddServiceEdges(m: Manifest)
      requires Valid() && nodeRequests == RequestedNodes(m) && edgeRequests == PlacementEdges(m)
      modifies this
      ensures nodes == FirstById(RequestedNodes(m)) && edges == FirstOfEach(RequestedEdges(m))
    {
      assert Unfold(true);
      if m.contracts != [] { AddContractEdges(m.contracts); } else { AddHeuristics(PATTERNS); }
    }
  }

  /** Does some pool account for this PVE store? */
  method MatchPool(pools: seq<Pool>, store: string) returns (mapped: bool)
    ensures mapped <==> StorageFor(pools, store) != StoreId(store)
  {
    mapped := false;
    for i := 0 to |pools|
      invariant mapped <==> exists j :: 0 <= j < i && (pools[j].name == store || "local-" + pools[j].name == store)
    {
      if store == pools[i].name || store == "local-" + pools[i].name { mapped := true; }
    }
    assert "local-" <= store ==> store == "local-" + store[6..];
    assert StoreId(store)[0] == 's';
  }

  /** The placement loop over the pools. */
  method ChoosePool(pools: seq<Pool>) returns (best: Option<nat>)
    ensures best == PrimaryPool(pools)
  {
    best := None;
    var bestFree := -1.0;
    for i := 0 to |pools|
      invariant best == PrimaryPool(pools[..i]) && bestFree == FreeOf(pools[..i], best)
    {
      assert pools[..i + 1][..i] == pools[..i];
      if Free(pools[i]) > bestFree { bestFree, best := Free(pools[i]), Some(i); }
    }
    assert pools[..|pools|] == pools;
  }
}
