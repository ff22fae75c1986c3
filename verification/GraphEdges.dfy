// Which edges build_graph makes, said of the manifest and without the order of the additions
// (doc-gen/dependencies.py:124-394).
module GraphEdges {
  import opened Options
  import opened Sorting
  import opened Text
  import opened Schedules
  import opened Kahn
  import opened DependencyGraphs
  import opened ManifestGraphs
  import opened GraphLayers
  import opened GraphNodes

  // ----- Service contracts -----

  /** The last contract that names both the service and a VM puts the service on that VM. */
  ghost predicate RunsOn(contracts: seq<Contract>, service: string, vm: string) {
    exists i :: 0 <= i < |contracts| && DecidesAt(contracts, i, service) && contracts[i].vm == vm
  }

  ghost predicate DecidesAt(contracts: seq<Contract>, i: nat, service: string)
    requires i < |contracts|
  {
    Names(contracts[i], service) && forall j :: i < j < |contracts| ==> !Names(contracts[j], service)
  }

  predicate Names(c: Contract, service: string) {
    c.service == service && service != "" && c.vm != ""
  }

  lemma {:induction false} LastContractDecides(contracts: seq<Contract>, service: string, vm: string)
    ensures service in ServiceToVm(contracts) && ServiceToVm(contracts)[service] == vm <==> RunsOn(contracts, service, vm)
  {
    if contracts != [] {
      var last := |contracts| - 1;
      var init := contracts[..last];
      LastContractDecides(init, service, vm);
      if Names(contracts[last], service) {
        assert DecidesAt(contracts, last, service);
      } else {
        forall i | 0 <= i < last ensures DecidesAt(contracts, i, service) <==> DecidesAt(init, i, service) {
          assert forall j :: i < j < last ==> init[j] == contracts[j];
        }
        assert RunsOn(contracts, service, vm) <==> RunsOn(init, service, vm) by {
          if RunsOn(contracts, service, vm) {
            var i :| 0 <= i < |contracts| && DecidesAt(contracts, i, service) && contracts[i].vm == vm;
            assert i < last && DecidesAt(init, i, service);
          }
          if RunsOn(init, service, vm) {
            var i :| 0 <= i < |init| && DecidesAt(init, i, service) && init[i].vm == vm;
            assert DecidesAt(contracts, i, service) && contracts[i].vm == vm;
          }
        }
      }
    }
  }

  /** The consumer's edge to the VM that runs one of the named services. */
  ghost predicate Links(ids: seq<string>, providers: map<string, string>, consumer: string, service: string, dst: string) {
    service in providers && dst == "vm:" + providers[service] && dst in ids && dst != consumer
  }

  lemma {:induction false} ProviderEdgesAre(ids: seq<string>, providers: map<string, string>, consumer: string,
                                            services: seq<string>, kind: EdgeKind, e: Edge)
    ensures e in ProviderEdges(ids, providers, consumer, services, kind)
      <==> e.src == consumer && e.kind == kind && exists s :: s in services && Links(ids, providers, consumer, s, e.dst)
  {
    if services != [] {
      var init, s := services[..|services| - 1], services[|services| - 1];
      ProviderEdgesAre(ids, providers, consumer, init, kind, e);
      assert services == init + [s];
      assert e in Maybe(consumer, Provider(ids, providers, consumer, s), kind)
        <==> e.src == consumer && e.kind == kind && Links(ids, providers, consumer, s, e.dst);
      assert forall x :: x in services <==> x in init || x == s;
    }
  }

  /** Contract c asks for edge e. */
  ghost predicate Declares(ids: seq<string>, providers: map<string, string>, c: Contract, e: Edge) {
    && c.vm != "" && e.src == "vm:" + c.vm && e.src in ids
    && ((e.kind == ServiceEdge && exists s :: s in c.requires_ && Links(ids, providers, e.src, s, e.dst))
        || (e.kind == DependsOn && exists s :: s in c.startupAfter && Links(ids, providers, e.src, s, e.dst)))
  }

  lemma ContractRequestIs(ids: seq<string>, providers: map<string, string>, c: Contract, e: Edge)
    ensures e in ContractRequest(ids, providers, c) <==> Declares(ids, providers, c, e)
  {
    ProviderEdgesAre(ids, providers, "vm:" + c.vm, c.requires_, ServiceEdge, e);
    ProviderEdgesAre(ids, providers, "vm:" + c.vm, c.startupAfter, DependsOn, e);
  }

  /** Consumer to provider, SERVICE for a required interface and DEPENDS_ON for a startup order; nothing else. */
  lemma {:induction false} ContractEdgesAre(ids: seq<string>, providers: map<string, string>, contracts: seq<Contract>, e: Edge)
    ensures e in ContractEdges(ids, providers, contracts) <==> exists c :: c in contracts && Declares(ids, providers, c, e)
  {
    if contracts != [] {
      var init, c := contracts[..|contracts| - 1], contracts[|contracts| - 1];
      ContractEdgesAre(ids, providers, init, e);
      ContractRequestIs(ids, providers, c, e);
      assert contracts == init + [c];
      if x :| x in init && Declares(ids, providers, x, e) { assert x in contracts; }
      if x :| x in contracts && Declares(ids, providers, x, e) { assert x in init || x == c; }
    }
  }

  // ----- Name patterns -----

  predicate NameHas(id: string, fragment: string) {
    "vm:" <= id && Contains(Lower(id[3..]), Lower(fragment))
  }

  /** The first VM node whose name holds the fragment. */
  ghost predicate IsFirstVm(vmIds: seq<string>, fragment: string, id: string) {
    exists i :: 0 <= i < |vmIds| && vmIds[i] == id && FirstAt(vmIds, fragment, i)
  }

  ghost predicate FirstAt(vmIds: seq<string>, fragment: string, i: nat)
    requires i < |vmIds|
  {
    NameHas(vmIds[i], fragment) && forall j :: 0 <= j < i ==> !NameHas(vmIds[j], fragment)
  }

  lemma {:induction false} FindVmIsFirst(vmIds: seq<string>, fragment: string, id: string)
    ensures FindVm(vmIds, fragment) == Some(id) <==> IsFirstVm(vmIds, fragment, id)
  {
    if vmIds != [] {
      var rest := vmIds[1..];
      FindVmIsFirst(rest, fragment, id);
      if NameHas(vmIds[0], fragment) {
        assert FirstAt(vmIds, fragment, 0);
      } else {
        if IsFirstVm(vmIds, fragment, id) {
          var i :| 0 <= i < |vmIds| && vmIds[i] == id && FirstAt(vmIds, fragment, i);
          assert i > 0 && rest[i - 1] == id;
          assert FirstAt(rest, fragment, i - 1) by {
            forall j | 0 <= j < i - 1 ensures !NameHas(rest[j], fragment) { assert rest[j] == vmIds[j + 1]; }
          }
        }
        if IsFirstVm(rest, fragment, id) {
          var i :| 0 <= i < |rest| && rest[i] == id && FirstAt(rest, fragment, i);
          assert vmIds[i + 1] == id;
          assert FirstAt(vmIds, fragment, i + 1) by {
            forall j | 0 <= j < i + 1 ensures !NameHas(vmIds[j], fragment) {
              if j > 0 { assert vmIds[j] == rest[j - 1]; }
            }
          }
        }
      }
    }
  }

  lemma {:induction false} AllToAre(vmIds: seq<string>, provider: string, e: Edge)
    ensures e in AllTo(vmIds, provider) <==> e.src in vmIds && e.src != provider && e.dst == provider && e.kind == NetworkEdge
  {
    if vmIds != [] {
      var init, id := vmIds[..|vmIds| - 1], vmIds[|vmIds| - 1];
      AllToAre(init, provider, e);
      assert vmIds == init + [id];
    }
  }

  /** Pattern p infers edge e: from the consumer, or from every VM, to the provider. */
  ghost predicate Infers(vmIds: seq<string>, p: Pattern, e: Edge) {
    && e.kind == NetworkEdge && e.src != e.dst && IsFirstVm(vmIds, p.provider, e.dst)
    && match p.consumer
       case None => e.src in vmIds
       case Some(fragment) => IsFirstVm(vmIds, fragment, e.src)
  }

  lemma PatternEdgesAre(vmIds: seq<string>, p: Pattern, e: Edge)
    ensures e in PatternEdges(vmIds, p) <==> Infers(vmIds, p, e)
  {
    FindVmIsFirst(vmIds, p.provider, e.dst);
    match p.consumer
    case None => AllToAre(vmIds, e.dst, e);
      if FindVm(vmIds, p.provider).Some? { AllToAre(vmIds, FindVm(vmIds, p.provider).value, e); }
    case Some(fragment) => FindVmIsFirst(vmIds, fragment, e.src);
  }

  lemma {:induction false} HeuristicEdgesAre(vmIds: seq<string>, patterns: seq<Pattern>, e: Edge)
    ensures e in HeuristicEdges(vmIds, patterns) <==> exists p :: p in patterns && Infers(vmIds, p, e)
  {
    if patterns != [] {
      var init, p := patterns[..|patterns| - 1], patterns[|patterns| - 1];
      HeuristicEdgesAre(vmIds, init, e);
      PatternEdgesAre(vmIds, p, e);
      assert patterns == init + [p];
      assert forall x :: x in patterns <==> x in init || x == p;
    }
  }

  // ----- Placement -----

  lemma {:induction false} ToHostAre(ids: seq<string>, host: string, e: Edge)
    ensures e in ToHost(ids, host) <==> e.src in ids && e.dst == host && e.kind == DependsOn
  {
    if ids != [] {
      var init, id := ids[..|ids| - 1], ids[|ids| - 1];
      ToHostAre(init, host, e);
      assert ids == init + [id];
    }
  }

  /** A guest's edge to the host, to the chosen storage or to the chosen bridge. */
  ghost predicate Places(host: string, storage: Option<string>, bridge: Option<string>, e: Edge) {
    || (e.dst == host && e.kind == DependsOn)
    || (storage == Some(e.dst) && e.kind == StorageEdge)
    || (bridge == Some(e.dst) && e.kind == NetworkEdge)
  }

  lemma {:induction false} GuestEdgesAre(ids: seq<string>, host: string, storage: Option<string>, bridge: Option<string>, e: Edge)
    ensures e in GuestEdges(ids, host, storage, bridge) <==> e.src in ids && Places(host, storage, bridge, e)
  {
    if ids != [] {
      var init, id := ids[..|ids| - 1], ids[|ids| - 1];
      GuestEdgesAre(init, host, storage, bridge, e);
      assert ids == init + [id];
      assert e in GuestRequest(id, host, storage, bridge) <==> e.src == id && Places(host, storage, bridge, e);
    }
  }

  // ----- The edges of a manifest, said of its own fields -----

  /** The pool with the most free space, the first of several; an unknown amount counts as none. */
  ghost predicate IsLargest(pools: seq<Pool>, name: string) {
    exists i :: 0 <= i < |pools| && pools[i].name == name && LargestAt(pools, i)
  }

  predicate LargestAt(pools: seq<Pool>, i: nat)
    requires i < |pools|
  {
    && FreeIs(pools[i]) > -1.0
    && (forall j :: 0 <= j < |pools| ==> FreeIs(pools[j]) <= FreeIs(pools[i]))
    && (forall j :: 0 <= j < i ==> FreeIs(pools[j]) < FreeIs(pools[i]))
  }

  function FreeIs(p: Pool): real {
    match p.freeGb
    case None => 0.0
    case Some(gb) => gb
  }

  /** Guests are placed on the largest pool, or on the first store if no pool has more than -1 free. */
  ghost predicate IsPrimaryStorage(m: Manifest, id: string) {
    if exists p :: p in m.pools && FreeIs(p) > -1.0 then "zfs:" <= id && IsLargest(m.pools, id[4..])
    else m.stores != [] && StandsFor(m.pools, m.stores[0], id)
  }

  lemma PrimaryStorageIs(m: Manifest, id: string)
    ensures PrimaryStorage(m) == Some(id) <==> IsPrimaryStorage(m, id)
  {
    PrimaryPoolIsLargest(m.pools);
    assert forall p :: p in m.pools ==> FreeIs(p) == Free(p);
    assert forall i :: 0 <= i < |m.pools| ==> FreeIs(m.pools[i]) == Free(m.pools[i]) && m.pools[i] in m.pools;
    var pool := PrimaryPool(m.pools);
    if pool.Some? {
      var i := pool.value;
      assert LargestAt(m.pools, i);
      assert PoolId(m.pools[i].name)[4..] == m.pools[i].name;
      if "zfs:" <= id {
        assert id == "zfs:" + id[4..];
        if j :| 0 <= j < |m.pools| && m.pools[j].name == id[4..] && LargestAt(m.pools, j) { assert i == j; }
      }
    } else if m.stores != [] {
      StorageForIs(m.pools, m.stores[0], id);
    }
  }

  /** Every component but the host depends on the host. */
  ghost predicate OnHost(m: Manifest, e: Edge) {
    && e.kind == DependsOn && IsHost(m, e.dst)
    && (IsPool(m, e.src) || IsStore(m, e.src) || IsBridge(m, e.src) || IsVm(m, e.src) || IsContainer(m, e.src))
  }

  /** Every guest depends on the primary storage. */
  ghost predicate OnStorage(m: Manifest, e: Edge) {
    e.kind == StorageEdge && (IsVm(m, e.src) || IsContainer(m, e.src)) && IsPrimaryStorage(m, e.dst)
  }

  /** Every VM, but no container, depends on the first bridge. */
  ghost predicate OnBridge(m: Manifest, e: Edge) {
    e.kind == NetworkEdge && IsVm(m, e.src) && m.bridges != [] && e.dst == "net:" + m.bridges[0]
  }

  lemma FallbackIsThere(m: Manifest, e: Edge)
    requires e in FallbackEdges(m)
    ensures OnHost(m, e)
  {
    StoreIdsFacts(m.pools, m.stores);
    assert m.stores[0] in m.stores;
    HostIs(m, e.dst);
    PoolIdsAre(m, e.src);
    StoreIdsAre(m.pools, m.stores, e.src);
  }

  lemma HostIs(m: Manifest, id: string)
    ensures id == HostId(m) <==> IsHost(m, id)
  {
    assert "host:" + "pve-host" == "host:pve-host";
  }

  lemma PlacementEdgesAre(m: Manifest, e: Edge)
    ensures e in PlacementEdges(m) <==> OnHost(m, e) || OnStorage(m, e) || OnBridge(m, e)
  {
    HostIs(m, e.dst);
    PoolIdsAre(m, e.src);
    StoreIdsAre(m.pools, m.stores, e.src);
    BridgeIdsAre(m, e.src);
    GuestIdsAre(m, e.src);
    CtIdsAre(m, e.src);
    PrimaryStorageIs(m, e.dst);
    ToHostAre(PoolIds(m.pools), HostId(m), e);
    ToHostAre(StoreIds(m.pools, m.stores), HostId(m), e);
    ToHostAre(BridgeIds(m.bridges), HostId(m), e);
    GuestEdgesAre(GuestIds(m.vms), HostId(m), PrimaryStorage(m), PrimaryBridge(m), e);
    GuestEdgesAre(CtIds(m.containers), HostId(m), PrimaryStorage(m), None, e);
    if e in FallbackEdges(m) { FallbackIsThere(m, e); }
  }

  /** The VM `vm` runs the service, and `to` is its node, another one than `from`. */
  ghost predicate Serves(m: Manifest, service: string, vm: string, from: string, to: string) {
    RunsOn(m.contracts, service, vm) && to == "vm:" + vm && IsVm(m, to) && to != from
  }

  /** Contract c asks for e: a SERVICE edge for an interface it requires, a DEPENDS_ON edge for a service it starts after. */
  ghost predicate Contracted(m: Manifest, c: Contract, e: Edge) {
    && c.vm != "" && e.src == "vm:" + c.vm && IsVm(m, e.src)
    && ((e.kind == ServiceEdge && exists s, vm :: s in c.requires_ && Serves(m, s, vm, e.src, e.dst))
        || (e.kind == DependsOn && exists s, vm :: s in c.startupAfter && Serves(m, s, vm, e.src, e.dst)))
  }

  lemma LinksIs(m: Manifest, consumer: string, s: string, dst: string)
    ensures Links(Ids(FirstById(RequestedNodes(m))), ServiceToVm(m.contracts), consumer, s, dst)
      <==> exists vm :: Serves(m, s, vm, consumer, dst)
  {
    var ids, providers := Ids(FirstById(RequestedNodes(m))), ServiceToVm(m.contracts);
    if Links(ids, providers, consumer, s, dst) {
      LastContractDecides(m.contracts, s, providers[s]);
      VmIdsInGraph(m, dst);
      assert Serves(m, s, providers[s], consumer, dst);
    }
    if vm :| Serves(m, s, vm, consumer, dst) {
      LastContractDecides(m.contracts, s, vm);
      VmIdsInGraph(m, dst);
    }
  }

  lemma DeclaresIs(m: Manifest, c: Contract, e: Edge)
    ensures Declares(Ids(FirstById(RequestedNodes(m))), ServiceToVm(m.contracts), c, e) <==> Contracted(m, c, e)
  {
    forall s ensures Links(Ids(FirstById(RequestedNodes(m))), ServiceToVm(m.contracts), e.src, s, e.dst)
      <==> exists vm :: Serves(m, s, vm, e.src, e.dst)
    { LinksIs(m, e.src, s, e.dst); }
    if e.src == "vm:" + c.vm { VmIdsInGraph(m, e.src); }
  }

  // ----- Name patterns over the VMs of the manifest -----

  lemma {:induction false} FindVmAppend(a: seq<string>, b: seq<string>, fragment: string)
    ensures FindVm(a + b, fragment) == if FindVm(a, fragment).Some? then FindVm(a, fragment) else FindVm(b, fragment)
    ensures FindVm(a, fragment).None? ==> forall id :: id in a ==> !NameHas(id, fragment)
  {
    if a == [] {
      assert a + b == b;
    } else {
      assert (a + b)[1..] == a[1..] + b;
      FindVmAppend(a[1..], b, fragment);
    }
  }

  lemma {:induction false} VmIdsAppend(a: seq<Node>, b: seq<Node>)
    ensures VmIds(a + b) == VmIds(a) + VmIds(b)
  {
    if b == [] {
      assert a + b == a;
    } else {
      assert (a + b)[..|a + b| - 1] == a + b[..|b| - 1];
      VmIdsAppend(a, b[..|b| - 1]);
    }
  }

  lemma {:induction false} VmIdsOfKind(ids: seq<string>, kind: NodeKind)
    ensures VmIds(NodesOf(ids, kind)) == if kind == Vm then ids else []
  {
    if ids != [] {
      VmIdsOfKind(ids[..|ids| - 1], kind);
      assert NodesOf(ids, kind)[..|NodesOf(ids, kind)| - 1] == NodesOf(ids[..|ids| - 1], kind);
      assert ids == ids[..|ids| - 1] + [ids[|ids| - 1]];
    }
  }

  lemma VmIdsBetween(a: seq<Node>, b: seq<Node>, c: seq<Node>)
    requires VmIds(a) == [] && VmIds(c) == []
    ensures VmIds(a + b + c) == VmIds(b)
  {
    VmIdsAppend(a, b);
    VmIdsAppend(a + b, c);
  }

  lemma NoVmIds(a: seq<Node>, b: seq<Node>)
    requires VmIds(a) == [] && VmIds(b) == []
    ensures VmIds(a + b) == []
  {
    VmIdsAppend(a, b);
  }

  lemma NoVmBefore(m: Manifest)
    ensures VmIds([Node(HostId(m), Host)] + NodesOf(PoolIds(m.pools), Storage) + NodesOf(StoreIds(m.pools, m.stores), Storage)
                  + NodesOf(BridgeIds(m.bridges), Network)) == []
  {
    var host, pools, stores := [Node(HostId(m), Host)], NodesOf(PoolIds(m.pools), Storage), NodesOf(StoreIds(m.pools, m.stores), Storage);
    VmIdsOfKind(PoolIds(m.pools), Storage);
    VmIdsOfKind(StoreIds(m.pools, m.stores), Storage);
    VmIdsOfKind(BridgeIds(m.bridges), Network);
    assert VmIds(host) == [];
    NoVmIds(host, pools);
    NoVmIds(host + pools, stores);
    NoVmIds(host + pools + stores, NodesOf(BridgeIds(m.bridges), Network));
  }

  lemma RequestedVmIds(m: Manifest)
    ensures VmIds(RequestedNodes(m)) == GuestIds(m.vms)
  {
    NoVmBefore(m);
    VmIdsOfKind(GuestIds(m.vms), Vm);
    VmIdsOfKind(CtIds(m.containers), Container);
    VmIdsBetween([Node(HostId(m), Host)] + NodesOf(PoolIds(m.pools), Storage) + NodesOf(StoreIds(m.pools, m.stores), Storage)
                 + NodesOf(BridgeIds(m.bridges), Network), NodesOf(GuestIds(m.vms), Vm), NodesOf(CtIds(m.containers), Container));
  }

  /** Dropping later requests for an id changes no lookup. */
  lemma {:induction false} FindVmOfFirsts(requested: seq<Node>, fragment: string)
    requires forall n :: n in requested ==> n.kind == KindOfId(n.id)
    ensures FindVm(VmIds(FirstById(requested)), fragment) == FindVm(VmIds(requested), fragment)
  {
    if requested != [] {
      var init, n := requested[..|requested| - 1], requested[|requested| - 1];
      assert requested == init + [n];
      FindVmOfFirsts(init, fragment);
      FindVmOfNext(FirstById(init), init, n, fragment);
      if n.id in Ids(FirstById(init)) && n.kind == Vm { KnownVm(init, n); }
    }
  }

  lemma KnownVm(init: seq<Node>, n: Node)
    requires forall a :: a in init ==> a.kind == KindOfId(a.id)
    requires n.kind == Vm == KindOfId(n.id) && n.id in Ids(FirstById(init))
    ensures n.id in VmIds(FirstById(init))
  {
    FirstByIdFacts(init);
    VmIdsFacts(FirstById(init), n.id);
    var i :| 0 <= i < |FirstById(init)| && FirstById(init)[i].id == n.id;
    assert FirstById(init)[i] in init;
  }

  lemma FindVmOfNext(firsts: seq<Node>, requested: seq<Node>, n: Node, fragment: string)
    requires FindVm(VmIds(firsts), fragment) == FindVm(VmIds(requested), fragment)
    ensures FindVm(VmIds(firsts + [n]), fragment) == FindVm(VmIds(requested + [n]), fragment)
    ensures n.kind != Vm || n.id in VmIds(firsts) ==> FindVm(VmIds(firsts), fragment) == FindVm(VmIds(requested + [n]), fragment)
  {
    VmIdsAppend(firsts, [n]);
    VmIdsAppend(requested, [n]);
    var last := VmIds([n]);
    assert last == if n.kind == Vm then [n.id] else [];
    FindVmAppend(VmIds(firsts), last, fragment);
    FindVmAppend(VmIds(requested), last, fragment);
  }

  /** The first VM of the manifest whose name contains the fragment, letter case aside. */
  ghost predicate IsFirstNamed(m: Manifest, fragment: string, id: string) {
    "vm:" <= id && exists i :: 0 <= i < |m.vms| && Called(m.vms[i], "vm-", id[3..]) && FirstNamedAt(m.vms, fragment, i)
  }

  ghost predicate FirstNamedAt(vms: seq<Guest>, fragment: string, i: nat)
    requires i < |vms|
  {
    NameContains(vms[i], fragment) && forall j :: 0 <= j < i ==> !NameContains(vms[j], fragment)
  }

  ghost predicate NameContains(g: Guest, fragment: string) {
    exists name :: Called(g, "vm-", name) && Contains(Lower(name), Lower(fragment))
  }

  lemma NameContainsIs(g: Guest, fragment: string)
    ensures NameContains(g, fragment) <==> NameHas(VmId(g), fragment)
  {
    VmIdIs(g, VmId(g));
    assert VmId(g)[3..] == VmName(g);
    forall name | Called(g, "vm-", name) ensures name == VmName(g) {}
  }

  lemma FirstNamedIs(m: Manifest, fragment: string, id: string)
    ensures IsFirstVm(GuestIds(m.vms), fragment, id) <==> IsFirstNamed(m, fragment, id)
  {
    var ids := GuestIds(m.vms);
    forall i | 0 <= i < |m.vms| ensures NameContains(m.vms[i], fragment) <==> NameHas(ids[i], fragment) {
      NameContainsIs(m.vms[i], fragment);
    }
    forall i | 0 <= i < |m.vms| ensures ids[i] == id <==> "vm:" <= id && Called(m.vms[i], "vm-", id[3..]) {
      VmIdIs(m.vms[i], id);
    }
    forall i | 0 <= i < |m.vms| ensures FirstAt(ids, fragment, i) <==> FirstNamedAt(m.vms, fragment, i) {}
  }

  lemma LookupIs(m: Manifest, fragment: string, id: string)
    ensures IsFirstVm(VmIds(FirstById(RequestedNodes(m))), fragment, id) <==> IsFirstNamed(m, fragment, id)
  {
    RequestedKinds(m);
    RequestedVmIds(m);
    FindVmOfFirsts(RequestedNodes(m), fragment);
    FindVmIsFirst(VmIds(FirstById(RequestedNodes(m))), fragment, id);
    FindVmIsFirst(GuestIds(m.vms), fragment, id);
    FirstNamedIs(m, fragment, id);
  }

  /** The pairs of name fragments that make one VM depend on another. */
  predicate Talks(consumer: string, provider: string) {
    || (provider == "forgejo" && consumer in {"assessment", "inventory", "ansible", "tofu"})
    || (provider == "inventory" && consumer == "assessment")
  }

  /** The name fragments that make every other VM depend on a VM. */
  predicate ServesAll(provider: string) {
    provider in {"dns", "nfs", "postgres", "database", "db"}
  }

  ghost predicate NamedAlike(m: Manifest, e: Edge) {
    && e.kind == NetworkEdge && e.src != e.dst
    && ((exists c, p :: Talks(c, p) && IsFirstNamed(m, c, e.src) && IsFirstNamed(m, p, e.dst))
        || (IsVm(m, e.src) && exists p :: ServesAll(p) && IsFirstNamed(m, p, e.dst)))
  }

  lemma PatternsAre(p: Pattern)
    ensures p in PATTERNS <==> match p.consumer case Some(c) => Talks(c, p.provider) case None => ServesAll(p.provider)
  {
    assert p == Pattern(p.provider, p.consumer);
    if p.consumer.Some? { assert p.consumer == Some(p.consumer.value); }
  }

  lemma VmNodesAre(m: Manifest, id: string)
    ensures id in VmIds(FirstById(RequestedNodes(m))) <==> IsVm(m, id)
  {
    VmIdsFacts(FirstById(RequestedNodes(m)), id);
    NodesAre(m, id, Vm);
  }

  lemma InfersIs(m: Manifest, p: Pattern, e: Edge)
    requires p in PATTERNS
    ensures Infers(VmIds(FirstById(RequestedNodes(m))), p, e)
      <==> (e.kind == NetworkEdge && e.src != e.dst && IsFirstNamed(m, p.provider, e.dst)
            && match p.consumer case Some(c) => IsFirstNamed(m, c, e.src) case None => IsVm(m, e.src))
  {
    LookupIs(m, p.provider, e.dst);
    if p.consumer.Some? { LookupIs(m, p.consumer.value, e.src); } else { VmNodesAre(m, e.src); }
  }

  lemma PatternInfers(m: Manifest, p: Pattern, e: Edge)
    requires p in PATTERNS && Infers(VmIds(FirstById(RequestedNodes(m))), p, e)
    ensures NamedAlike(m, e)
  {
    PatternsAre(p);
    InfersIs(m, p, e);
  }

  lemma NamesInfer(m: Manifest, e: Edge) returns (p: Pattern)
    requires NamedAlike(m, e)
    ensures p in PATTERNS && Infers(VmIds(FirstById(RequestedNodes(m))), p, e)
  {
    if c, provider :| Talks(c, provider) && IsFirstNamed(m, c, e.src) && IsFirstNamed(m, provider, e.dst) {
      p := Pattern(provider, Some(c));
    } else {
      var provider :| ServesAll(provider) && IsFirstNamed(m, provider, e.dst);
      p := Pattern(provider, None);
    }
    PatternsAre(p);
    InfersIs(m, p, e);
  }

  lemma NamedAlikeIs(m: Manifest, e: Edge)
    ensures NamedAlike(m, e) <==> exists p :: p in PATTERNS && Infers(VmIds(FirstById(RequestedNodes(m))), p, e)
  {
    if p :| p in PATTERNS && Infers(VmIds(FirstById(RequestedNodes(m))), p, e) { PatternInfers(m, p, e); }
    if NamedAlike(m, e) { var p := NamesInfer(m, e); }
  }

  /** A dependency of the manifest. Declared contracts take the place of the name patterns as soon as there is one. */
  ghost predicate IsDependency(m: Manifest, e: Edge) {
    || OnHost(m, e) || OnStorage(m, e) || OnBridge(m, e)
    || if m.contracts != [] then exists c :: c in m.contracts && Contracted(m, c, e) else NamedAlike(m, e)
  }

  lemma BuiltEdgesAre(m: Manifest, e: Edge)
    ensures e in FirstOfEach(RequestedEdges(m)) <==> IsDependency(m, e)
  {
    var nodes := FirstById(RequestedNodes(m));
    FirstOfEachFacts(RequestedEdges(m));
    PlacementEdgesAre(m, e);
    if m.contracts != [] {
      ContractEdgesAre(Ids(nodes), ServiceToVm(m.contracts), m.contracts, e);
      forall c | c in m.contracts
        ensures Declares(Ids(nodes), ServiceToVm(m.contracts), c, e) <==> Contracted(m, c, e)
      { DeclaresIs(m, c, e); }
    } else {
      HeuristicEdgesAre(VmIds(nodes), PATTERNS, e);
      NamedAlikeIs(m, e);
    }
  }

  /** A required interface of another VM's service gives the edge between the two VMs' own nodes. */
  lemma RequiredInterface(m: Manifest, c: Contract, p: Contract)
    requires c in m.contracts && c.vm != "" && c.vm != p.vm && p.service in c.requires_
    requires RunsOn(m.contracts, p.service, p.vm)
    requires IsVm(m, "vm:" + c.vm) && IsVm(m, "vm:" + p.vm)
    ensures Edge("vm:" + c.vm, "vm:" + p.vm, ServiceEdge) in FirstOfEach(RequestedEdges(m))
  {
    var e := Edge("vm:" + c.vm, "vm:" + p.vm, ServiceEdge);
    assert e.src[3..] == c.vm && e.dst[3..] == p.vm;
    assert Serves(m, p.service, p.vm, e.src, e.dst);
    assert Contracted(m, c, e);
    BuiltEdgesAre(m, e);
  }

  /** build_graph */
  method BuildGraph(m: Manifest) returns (g: DependencyGraph)
    ensures fresh(g) && g.Valid()
    ensures forall id, kind :: Node(id, kind) in g.nodes <==> IsComponent(m, id, kind)
    ensures forall e :: e in g.edges <==> IsDependency(m, e)
    ensures Distinct(g.edges) && exists host :: IsHost(m, host) && Layered(host, g.nodes, g.edges)
    ensures IsSchedule(Ids(g.nodes), g.edges, Normal(g.restoreWaves), Warned(g.restoreWaves))
    ensures WellPresented(KindMap(g.nodes), g.restoreWaves)
  {
    var b := new GraphBuilder();
    b.AddComponents(m);
    b.AddServiceEdges(m);
    BuiltGraphsAreLayered(m);
    HostIs(m, HostId(m));
    forall id, kind ensures Node(id, kind) in b.nodes <==> IsComponent(m, id, kind) { NodesAre(m, id, kind); }
    forall e ensures e in b.edges <==> IsDependency(m, e) { BuiltEdgesAre(m, e); }
    g := WithWaves(b.nodes, b.edges);
  }
}
