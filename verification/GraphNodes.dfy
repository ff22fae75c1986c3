// Which nodes build_graph makes, said of the manifest's own fields (doc-gen/dependencies.py:106-265).

module GraphNodes {
  import opened Options
  import opened Sorting
  import opened Text
  import opened Schedules
  import opened DependencyGraphs
  import opened ManifestGraphs
  import opened GraphLayers

  /** A guest goes by its own name, or by the prefix and its number if it has none. */
  predicate Called(g: Guest, prefix: string, name: string) {
    if g.name.Some? then name == g.name.value else name == prefix + DecimalInt(g.id)
  }

  ghost predicate IsHost(m: Manifest, id: string) {
    if m.hostname.Some? then id == "host:" + m.hostname.value else id == "host:pve-host"
  }

  ghost predicate IsPool(m: Manifest, id: string) {
    exists p :: p in m.pools && id == "zfs:" + p.name
  }

  /** A pool carries the store's name, or its name after "local-". */
  ghost predicate Backs(p: Pool, store: string) {
    store == p.name || store == "local-" + p.name
  }

  ghost predicate IsStore(m: Manifest, id: string) {
    exists s :: s in m.stores && id == "storage:" + s && forall p :: p in m.pools ==> !Backs(p, s)
  }

  ghost predicate IsBridge(m: Manifest, id: string) {
    exists b :: b in m.bridges && id == "net:" + b
  }

  ghost predicate IsVm(m: Manifest, id: string) {
    "vm:" <= id && exists g :: g in m.vms && Called(g, "vm-", id[3..])
  }

  ghost predicate IsContainer(m: Manifest, id: string) {
    "ct:" <= id && exists g :: g in m.containers && Called(g, "ct-", id[3..])
  }

  ghost predicate IsComponent(m: Manifest, id: string, kind: NodeKind) {
    match kind
    case Host => IsHost(m, id)
    case Storage => IsPool(m, id) || IsStore(m, id)
    case Network => IsBridge(m, id)
    case Vm => IsVm(m, id)
    case Container => IsContainer(m, id)
    case _ => false
  }

  lemma PoolIdsAre(m: Manifest, id: string)
    ensures id in PoolIds(m.pools) <==> IsPool(m, id)
  {
    if id in PoolIds(m.pools) {
      var i :| 0 <= i < |m.pools| && PoolIds(m.pools)[i] == id;
      assert m.pools[i] in m.pools;
    }
    if p :| p in m.pools && id == "zfs:" + p.name {
      var i :| 0 <= i < |m.pools| && m.pools[i] == p;
      assert PoolIds(m.pools)[i] == id;
    }
  }

  lemma BridgeIdsAre(m: Manifest, id: string)
    ensures id in BridgeIds(m.bridges) <==> IsBridge(m, id)
  {
    if id in BridgeIds(m.bridges) {
      var i :| 0 <= i < |m.bridges| && BridgeIds(m.bridges)[i] == id;
      assert m.bridges[i] in m.bridges;
    }
    if b :| b in m.bridges && id == "net:" + b {
      var i :| 0 <= i < |m.bridges| && m.bridges[i] == b;
      assert BridgeIds(m.bridges)[i] == id;
    }
  }

  lemma VmIdIs(g: Guest, id: string)
    ensures id == VmId(g) <==> "vm:" <= id && Called(g, "vm-", id[3..])
  {
    assert VmId(g)[3..] == VmName(g);
    if "vm:" <= id { assert id == "vm:" + id[3..]; }
  }

  lemma CtIdIs(g: Guest, id: string)
    ensures id == CtId(g) <==> "ct:" <= id && Called(g, "ct-", id[3..])
  {
    assert CtId(g)[3..] == if g.name.Some? then g.name.value else "ct-" + DecimalInt(g.id);
    if "ct:" <= id { assert id == "ct:" + id[3..]; }
  }

  lemma GuestIdsAre(m: Manifest, id: string)
    ensures id in GuestIds(m.vms) <==> IsVm(m, id)
  {
    if id in GuestIds(m.vms) {
      var i :| 0 <= i < |m.vms| && GuestIds(m.vms)[i] == id;
      VmIdIs(m.vms[i], id);
      assert m.vms[i] in m.vms;
    }
    if IsVm(m, id) {
      var g :| g in m.vms && Called(g, "vm-", id[3..]);
      VmIdIs(g, id);
      var i :| 0 <= i < |m.vms| && m.vms[i] == g;
      assert GuestIds(m.vms)[i] == id;
    }
  }

  lemma CtIdsAre(m: Manifest, id: string)
    ensures id in CtIds(m.containers) <==> IsContainer(m, id)
  {
    if id in CtIds(m.containers) {
      var i :| 0 <= i < |m.containers| && CtIds(m.containers)[i] == id;
      CtIdIs(m.containers[i], id);
      assert m.containers[i] in m.containers;
    }
    if IsContainer(m, id) {
      var g :| g in m.containers && Called(g, "ct-", id[3..]);
      CtIdIs(g, id);
      var i :| 0 <= i < |m.containers| && m.containers[i] == g;
      assert CtIds(m.containers)[i] == id;
    }
  }

  /** The node that stands for a store: its pool's, the pool's behind "local-", or one of its own. */
  ghost predicate StandsFor(pools: seq<Pool>, store: string, id: string) {
    || (id == "zfs:" + store && exists p :: p in pools && p.name == store)
    || (exists p :: p in pools && store == "local-" + p.name && id == "zfs:" + p.name && forall q :: q in pools ==> q.name != store)
    || (id == "storage:" + store && forall p :: p in pools ==> !Backs(p, store))
  }

  lemma StorageForIs(pools: seq<Pool>, store: string, id: string)
    ensures id == StorageFor(pools, store) <==> StandsFor(pools, store, id)
  {
    if "local-" <= store { assert store == "local-" + store[6..]; }
    forall p | p in pools && store == "local-" + p.name ensures store[6..] == p.name {}
  }

  lemma OwnNode(pools: seq<Pool>, store: string)
    ensures StorageFor(pools, store) == StoreId(store) <==> forall p :: p in pools ==> !Backs(p, store)
  {
    StorageForIs(pools, store, StorageFor(pools, store));
    assert StoreId(store)[0] == 's';
  }

  lemma {:induction false} StoreIdsAre(pools: seq<Pool>, stores: seq<string>, id: string)
    ensures id in StoreIds(pools, stores)
      <==> exists s :: s in stores && id == "storage:" + s && forall p :: p in pools ==> !Backs(p, s)
  {
    if stores != [] {
      var init, s := stores[..|stores| - 1], stores[|stores| - 1];
      StoreIdsAre(pools, init, id);
      OwnNode(pools, s);
      assert stores == init + [s];
      assert forall x :: x in stores <==> x in init || x == s;
    }
  }

  /** The built graph has exactly these nodes. */
  lemma NodesAre(m: Manifest, id: string, kind: NodeKind)
    ensures Node(id, kind) in FirstById(RequestedNodes(m)) <==> IsComponent(m, id, kind)
  {
    RequestedGroups(m);
    RequestedKinds(m);
    FirstByIdFacts(RequestedNodes(m));
    if Node(id, kind) in RequestedNodes(m) {
      RequestedCases(m, Node(id, kind));
      FirstKept(RequestedNodes(m), Node(id, kind));
    }
    assert HostId(m) == id <==> IsHost(m, id) by { assert "host:" + "pve-host" == "host:pve-host"; }
    PoolIdsAre(m, id);
    StoreIdsAre(m.pools, m.stores, id);
    BridgeIdsAre(m, id);
    GuestIdsAre(m, id);
    CtIdsAre(m, id);
    if IsComponent(m, id, kind) { assert Requested(m, id, kind); }
  }

  /** An id that begins with "vm:" is in the graph if and only if it is a VM's. */
  lemma VmIdsInGraph(m: Manifest, id: string)
    requires "vm:" <= id
    ensures id in Ids(FirstById(RequestedNodes(m))) <==> IsVm(m, id)
  {
    if id in Ids(FirstById(RequestedNodes(m))) {
      VmIdsAreVms(m, id);
      FirstByIdFacts(RequestedNodes(m));
      RequestedKinds(m);
      FirstKept(RequestedNodes(m), Node(id, Vm));
    }
    NodesAre(m, id, Vm);
    if IsVm(m, id) { NodeIdListed(FirstById(RequestedNodes(m)), Node(id, Vm)); }
  }
}
