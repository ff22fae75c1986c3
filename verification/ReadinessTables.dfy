// The tables of the readiness report, said of the nodes and gaps that go into them (doc-gen/readiness.py:2103-2194).

module ReadinessTables {
  import opened Options
  import opened Readiness
  import opened Scores
  import opened Sorting

  /** The last node of an id decides its entry: its own gaps, their worst severity, and nothing that blocks it yet. */
  lemma {:induction false} EntryOfLast(nodes: seq<NodeFacts>, hasInventory: bool, i: nat)
    requires i < |nodes| && forall j :: i < j < |nodes| ==> nodes[j].id != nodes[i].id
    ensures var t, n := Initial(nodes, hasInventory), nodes[i];
      && n.id in t && t[n.id].blockedBy == None
      && t[n.id].gaps == ComponentGaps(n.nodeType, hasInventory, n.job, n.offsite, true)
      && t[n.id].score == GapJoin(ComponentGaps(n.nodeType, hasInventory, n.job, n.offsite, true))
  {
    if i < |nodes| - 1 { EntryOfLast(nodes[..|nodes| - 1], hasInventory, i); }
  }

  /** Every node's id is listed, and nothing else. */
  lemma {:induction false} OrderIds(nodes: seq<NodeFacts>, id: string)
    ensures id in Order(nodes) <==> exists i :: 0 <= i < |nodes| && nodes[i].id == id
  {
    if nodes != [] {
      var last := |nodes| - 1;
      OrderIds(nodes[..last], id);
      if i :| 0 <= i < last && nodes[..last][i].id == id { assert nodes[i].id == id; }
      if i :| 0 <= i < |nodes| && nodes[i].id == id { assert i == last || nodes[..last][i].id == id; }
    }
  }

  /** Some node has the id `a`, and no node up to it has the id `b`. */
  ghost predicate SeenBefore(nodes: seq<NodeFacts>, a: string, b: string) {
    exists p :: 0 <= p < |nodes| && nodes[p].id == a && UnseenUpTo(nodes, b, p)
  }

  ghost predicate UnseenUpTo(nodes: seq<NodeFacts>, id: string, p: nat)
    requires p < |nodes|
  {
    forall q :: 0 <= q <= p ==> nodes[q].id != id
  }

  /** Ids are listed in the order of their first nodes. */
  lemma {:induction false} OrderIsByFirst(nodes: seq<NodeFacts>, i: nat, j: nat)
    requires i < j < |Order(nodes)|
    ensures SeenBefore(nodes, Order(nodes)[i], Order(nodes)[j])
  {
    var last := |nodes| - 1;
    var init := nodes[..last];
    var a, b := Order(nodes)[i], Order(nodes)[j];
    if j < |Order(init)| {
      OrderIsByFirst(init, i, j);
      var p :| 0 <= p < |init| && init[p].id == a && UnseenUpTo(init, b, p);
      assert nodes[p].id == a && UnseenUpTo(nodes, b, p) by { assert forall q :: 0 <= q <= p ==> nodes[q] == init[q]; }
    } else {
      assert b == nodes[last].id && b !in Order(init) && a in Order(init);
      OrderIds(init, a);
      OrderIds(init, b);
      var p :| 0 <= p < |init| && init[p].id == a;
      assert nodes[p].id == a && UnseenUpTo(nodes, b, p) by { assert forall q :: 0 <= q <= p ==> nodes[q] == init[q]; }
    }
  }

  /** The overall score is no better than any component's or any gap of the registry, and is GREEN or one of these. */
  lemma OverallIs(t: Table, order: seq<string>, registry: seq<Gap>)
    requires forall id :: id in order ==> id in t
    ensures var s := Overall(t, order, registry);
      && (forall id :: id in order ==> Rank(t[id].score) <= Rank(s))
      && (forall g :: g in registry ==> Rank(g.severity) <= Rank(s))
      && (s == Green || (exists id :: id in order && t[id].score == s) || exists g :: g in registry && g.severity == s)
  {
    var scores := FinalScores(t, order) + Severities(registry);
    var s := Overall(t, order, registry);
    JoinIsLeastUpper(scores);
    forall id | id in order ensures Rank(t[id].score) <= Rank(s) {
      var i :| 0 <= i < |order| && order[i] == id;
      assert scores[i] == t[id].score;
    }
    forall g | g in registry ensures Rank(g.severity) <= Rank(s) {
      var i :| 0 <= i < |registry| && registry[i] == g;
      assert scores[|order| + i] == g.severity;
    }
    if s != Green {
      var k :| 0 <= k < |scores| && scores[k] == s;
      if k < |order| { assert order[k] in order; } else { assert registry[k - |order|] in registry; }
    }
  }

  /** All gaps are the gaps of the listed components. */
  lemma {:induction false} AllGapsAre(t: Table, order: seq<string>, g: Gap)
    requires forall id :: id in order ==> id in t
    ensures g in AllGaps(t, order) <==> exists id :: id in order && g in t[id].gaps
  {
    if order != [] {
      var init, last := order[..|order| - 1], order[|order| - 1];
      AllGapsAre(t, init, g);
      assert order == init + [last];
      if id :| id in order && g in t[id].gaps { assert id in init || id == last; }
      if id :| id in init && g in t[id].gaps { assert id in order; }
    }
  }
}
