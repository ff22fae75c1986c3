// The importer's loop: headings are attached to the innermost open node on a stack.

module NotesParser {
  import opened NotesMd
  import opened Outlines
  import opened Sorting
  import opened Text

  class NoteNode {
    var title: string
    var body: string
    var ch: seq<NoteNode>

    constructor (title: string)
      ensures this.title == title && body == "" && ch == []
    {
      this.title, body, ch := title, "", [];
    }
  }

  datatype Open = Open(node: NoteNode, depth: nat)

  /** The objects hanging under `ns` are exactly the tree `ts`. */
  ghost predicate Represents(ns: seq<NoteNode>, ts: seq<Note>, all: set<NoteNode>)
    reads all
    decreases ts
  {
    && |ns| == |ts|
    && forall i :: 0 <= i < |ns| ==>
         && ns[i] in all && ns[i].title == ts[i].title && ns[i].body == ts[i].body
         && Represents(ns[i].ch, ts[i].ch, all)
  }

  // ---- the shape of a run of sections, by position ----

  /** The first position from `p` that is not deeper than `depth`, or `hi`. */
  ghost function RunEnd(secs: seq<Section>, depth: nat, p: nat, hi: nat): (r: nat)
    requires p <= hi <= |secs|
    ensures p <= r <= hi && (forall q :: p <= q < r ==> secs[q].depth > depth)
    ensures r < hi ==> secs[r].depth <= depth
    decreases hi - p
  {
    if p == hi || secs[p].depth <= depth then p else RunEnd(secs, depth, p + 1, hi)
  }

  ghost function End(secs: seq<Section>, k: nat, hi: nat): (r: nat)
    requires k < hi <= |secs|
    ensures k < r <= hi && (forall q :: k < q < r ==> secs[q].depth > secs[k].depth)
    ensures r < hi ==> secs[r].depth <= secs[k].depth
  {
    RunEnd(secs, secs[k].depth, k + 1, hi)
  }

  /** The positions in lo..hi that no earlier position in lo..hi owns. */
  ghost function Roots(secs: seq<Section>, lo: nat, hi: nat): (r: seq<nat>)
    requires lo <= hi <= |secs|
    ensures forall k :: k in r ==> lo <= k < hi
    decreases hi - lo
  {
    if lo == hi then [] else [lo] + Roots(secs, End(secs, lo, hi), hi)
  }

  ghost function ForestIn(secs: seq<Section>, lo: nat, hi: nat): seq<Note>
    requires lo <= hi <= |secs|
    decreases hi - lo
  {
    if lo == hi then []
    else
      var m := End(secs, lo, hi);
      [Note(secs[lo].title, secs[lo].body, ForestIn(secs, lo + 1, m))] + ForestIn(secs, m, hi)
  }

  lemma {:induction false} RunEndIsLength(secs: seq<Section>, depth: nat, p: nat, hi: nat)
    requires p <= hi <= |secs|
    ensures RunEnd(secs, depth, p, hi) == p + RunLength(secs[p..hi], depth)
    decreases hi - p
  {
    if p < hi && secs[p].depth > depth {
      RunEndIsLength(secs, depth, p + 1, hi);
      assert secs[p..hi][1..] == secs[p + 1..hi];
    }
  }

  lemma ForestOfSlice(secs: seq<Section>, lo: nat, m: nat, hi: nat)
    requires lo < m <= hi <= |secs| && m == lo + 1 + RunLength(secs[lo + 1..hi], secs[lo].depth)
    ensures Forest(secs[lo..hi]) == [Note(secs[lo].title, secs[lo].body, Forest(secs[lo + 1..m]))] + Forest(secs[m..hi])
  {
    SliceSplits(secs, lo, m, hi);
    ForestCons(secs[lo], secs[lo + 1..m], secs[m..hi]);
  }

  lemma SliceSplits<T>(s: seq<T>, lo: nat, m: nat, hi: nat)
    requires lo < m <= hi <= |s|
    ensures s[lo..hi] == [s[lo]] + (s[lo + 1..m] + s[m..hi]) && s[lo + 1..hi] == s[lo + 1..m] + s[m..hi]
    ensures |s[lo + 1..m]| == m - lo - 1
  {
  }

  lemma {:induction false} ForestInIsForest(secs: seq<Section>, lo: nat, hi: nat)
    requires lo <= hi <= |secs|
    ensures ForestIn(secs, lo, hi) == Forest(secs[lo..hi])
    decreases hi - lo
  {
    if lo < hi {
      var m := End(secs, lo, hi);
      RunEndIsLength(secs, secs[lo].depth, lo + 1, hi);
      ForestOfSlice(secs, lo, m, hi);
      ForestInIsForest(secs, lo + 1, m);
      ForestInIsForest(secs, m, hi);
    }
  }

  /** Whether position k still owns what comes at `n`, were it deeper. */
  ghost predicate IsOpen(secs: seq<Section>, k: nat, n: nat)
    requires n <= |secs|
  {
    k < n && End(secs, k, n) == n
  }

  lemma {:induction false} RunEndGrows(secs: seq<Section>, depth: nat, p: nat, n: nat)
    requires p <= n < |secs|
    ensures RunEnd(secs, depth, p, n + 1)
         == if RunEnd(secs, depth, p, n) == n && secs[n].depth > depth then n + 1 else RunEnd(secs, depth, p, n)
    decreases n - p
  {
    if p < n && secs[p].depth > depth { RunEndGrows(secs, depth, p + 1, n); }
  }

  /** An open position in lo..n that owns position n. */
  ghost predicate HasOwner(secs: seq<Section>, lo: nat, n: nat)
    requires n < |secs|
  {
    exists k :: lo <= k < n && IsOpen(secs, k, n) && secs[k].depth < secs[n].depth
  }

  ghost function Extended(ks: seq<nat>, grows: bool, n: nat): seq<nat> {
    if grows then ks + [n] else ks
  }

  ghost predicate LastIs(open: seq<nat>, k: nat) {
    open != [] && k == open[|open| - 1]
  }

  lemma EndGrows(secs: seq<Section>, k: nat, n: nat)
    requires k < n < |secs|
    ensures End(secs, k, n + 1) == if End(secs, k, n) == n && secs[n].depth > secs[k].depth then n + 1 else End(secs, k, n)
  {
    RunEndGrows(secs, secs[k].depth, k + 1, n);
  }

  lemma RootsOfOpen(secs: seq<Section>, lo: nat, n: nat)
    requires lo < n < |secs| && End(secs, lo, n) == n
    ensures Roots(secs, lo, n) == [lo]
    ensures Roots(secs, lo, n + 1) == if secs[n].depth > secs[lo].depth then [lo] else [lo] + [n]
  {
    EndGrows(secs, lo, n);
    assert Roots(secs, n, n) == [] && Roots(secs, n + 1, n + 1) == [];
    assert Roots(secs, n, n + 1) == [n];
  }

  /** Position n is a root of lo..n+1 unless something in lo..n owns it. */
  lemma {:induction false} RootsGrow(secs: seq<Section>, lo: nat, n: nat)
    requires lo <= n < |secs|
    ensures Roots(secs, lo, n + 1) == Extended(Roots(secs, lo, n), !HasOwner(secs, lo, n), n)
    decreases n - lo
  {
    if lo < n {
      OwnersFrom(secs, lo, n);
      var m := End(secs, lo, n);
      if m < n {
        RootsGrow(secs, m, n);
        EndGrows(secs, lo, n);
        AppendAssoc([lo], Roots(secs, m, n), [n]);
      } else {
        RootsOfOpen(secs, lo, n);
      }
    }
  }

  /** What owns position n is `lo` itself or stands after the run of `lo`. */
  lemma OwnersFrom(secs: seq<Section>, lo: nat, n: nat)
    requires lo < n < |secs|
    ensures End(secs, lo, n) < n ==> (HasOwner(secs, lo, n) <==> HasOwner(secs, End(secs, lo, n), n))
    ensures End(secs, lo, n) == n ==> (HasOwner(secs, lo, n) <==> secs[lo].depth < secs[n].depth)
  {
    var m := End(secs, lo, n);
    forall k | lo <= k < m < n ensures !IsOpen(secs, k, n) {
      assert secs[m].depth <= secs[lo].depth;
    }
    if m == n && secs[lo].depth < secs[n].depth { assert IsOpen(secs, lo, n); }
  }

  // ---- the stack of open positions ----

  ghost predicate Increasing(ks: seq<nat>) {
    forall i, j :: 0 <= i < j < |ks| ==> ks[i] < ks[j]
  }

  // Predicates that are only unfolded where these are mentioned.
  ghost predicate ShowOpen(u: bool) { true }

  ghost predicate ShowShape(u: bool) { true }

  ghost predicate OpenPositions(secs: seq<Section>, n: nat, open: seq<nat>)
    requires n <= |secs|
  {
    forall u {:trigger ShowOpen(u)} :: ShowOpen(u) ==>
      Increasing(open) && forall k: nat :: k in open <==> IsOpen(secs, k, n)
  }

  /** The open positions that would own a section of this depth. */
  ghost predicate Owners(secs: seq<Section>, n: nat, depth: nat, open: seq<nat>)
    requires n <= |secs|
  {
    forall u {:trigger ShowOpen(u)} :: ShowOpen(u) ==>
      Increasing(open) && forall k: nat :: k in open <==> IsOpen(secs, k, n) && secs[k].depth < depth
  }

  lemma PoppedAreOwners(secs: seq<Section>, n: nat, depth: nat, open: seq<nat>, m: nat)
    requires n <= |secs| && OpenPositions(secs, n, open) && m <= |open|
    requires forall i :: m <= i < |open| ==> open[i] < n && secs[open[i]].depth >= depth
    requires m > 0 ==> open[m - 1] < n && secs[open[m - 1]].depth < depth
    ensures Owners(secs, n, depth, open[..m])
  {
    assert ShowOpen(true);
    forall i | 0 <= i < m ensures IsOpen(secs, open[i], n) && secs[open[i]].depth < depth {
      assert open[i] in open && open[m - 1] in open;
      assert IsOpen(secs, open[i], n);
    }
  }

  lemma PushedIsOpen(secs: seq<Section>, n: nat, open: seq<nat>)
    requires n < |secs| && Owners(secs, n, secs[n].depth, open)
    ensures OpenPositions(secs, n + 1, open + [n])
  {
    assert ShowOpen(true);
    forall k: nat ensures k in open + [n] <==> IsOpen(secs, k, n + 1) {
      if k < n { EndGrows(secs, k, n); }
    }
    forall i | 0 <= i < |open| ensures open[i] < n {
      assert open[i] in open;
      assert IsOpen(secs, open[i], n);
    }
  }

  lemma OwnerAbove(secs: seq<Section>, n: nat, open: seq<nat>, lo: nat)
    requires n < |secs| && Owners(secs, n, secs[n].depth, open)
    ensures HasOwner(secs, lo, n) <==> open != [] && open[|open| - 1] >= lo
  {
    assert ShowOpen(true);
    if HasOwner(secs, lo, n) {
      var k: nat :| lo <= k < n && IsOpen(secs, k, n) && secs[k].depth < secs[n].depth;
      assert k in open;
      var j :| 0 <= j < |open| && open[j] == k;
      assert j == |open| - 1 || open[j] < open[|open| - 1];
    }
    if open != [] && open[|open| - 1] >= lo {
      assert open[|open| - 1] in open;
      assert IsOpen(secs, open[|open| - 1], n);
    }
  }

  /** The children of position k among the first n. */
  ghost function KidsAt(secs: seq<Section>, k: nat, n: nat): seq<nat>
    requires k < n <= |secs|
  {
    Roots(secs, k + 1, End(secs, k, n))
  }

  /** Only the innermost owner gets position n as a child. */
  lemma ChildrenGrow(secs: seq<Section>, n: nat, open: seq<nat>, k: nat)
    requires k < n < |secs| && Owners(secs, n, secs[n].depth, open)
    ensures KidsAt(secs, k, n + 1) == Extended(KidsAt(secs, k, n), LastIs(open, k), n)
  {
    LastOwns(secs, n, open, k);
    if IsOpen(secs, k, n) && secs[n].depth > secs[k].depth {
      OwnerAbove(secs, n, open, k + 1);
      ReachingGrows(secs, k, n);
    } else {
      EndGrows(secs, k, n);
    }
  }

  /** A position that reaches n takes what stands there in, as a child unless something below owns it. */
  lemma ReachingGrows(secs: seq<Section>, k: nat, n: nat)
    requires k < n < |secs| && IsOpen(secs, k, n) && secs[n].depth > secs[k].depth
    ensures KidsAt(secs, k, n + 1) == Extended(KidsAt(secs, k, n), !HasOwner(secs, k + 1, n), n)
  {
    EndGrows(secs, k, n);
    RootsGrow(secs, k + 1, n);
  }

  lemma LastOwns(secs: seq<Section>, n: nat, open: seq<nat>, k: nat)
    requires k < n < |secs| && Owners(secs, n, secs[n].depth, open)
    ensures LastIs(open, k) ==> IsOpen(secs, k, n) && secs[n].depth > secs[k].depth
    ensures IsOpen(secs, k, n) && secs[n].depth > secs[k].depth ==> open != [] && open[|open| - 1] >= k
  {
    assert ShowOpen(true);
    if LastIs(open, k) { assert open[|open| - 1] in open; }
    if IsOpen(secs, k, n) && secs[n].depth > secs[k].depth {
      assert k in open;
      var j :| 0 <= j < |open| && open[j] == k;
      assert j == |open| - 1 || open[j] < open[|open| - 1];
    }
  }

  lemma TopGrows(secs: seq<Section>, n: nat, open: seq<nat>)
    requires n < |secs| && Owners(secs, n, secs[n].depth, open)
    ensures Roots(secs, 0, n + 1) == Extended(Roots(secs, 0, n), open == [], n)
  {
    OwnerAbove(secs, n, open, 0);
    RootsGrow(secs, 0, n);
  }

  // ---- the objects ----

  ghost predicate AreAt(ns: seq<NoteNode>, nodes: seq<NoteNode>, ks: seq<nat>) {
    |ns| == |ks| && forall i :: 0 <= i < |ks| ==> ks[i] < |nodes| && ns[i] == nodes[ks[i]]
  }

  lemma AreAtGrows(ns: seq<NoteNode>, nodes: seq<NoteNode>, ks: seq<nat>, node: NoteNode)
    requires AreAt(ns, nodes, ks)
    ensures AreAt(ns, nodes + [node], ks) && AreAt(ns + [node], nodes + [node], ks + [|nodes|])
  {
  }

  ghost predicate KidsRight(secs: seq<Section>, kids: seq<seq<nat>>, k: nat)
    requires k < |kids| <= |secs|
  {
    kids[k] == KidsAt(secs, k, |kids|)
  }

  /** `kids` and `tops` list the children and the roots among the first |kids| positions. */
  ghost predicate Shape(secs: seq<Section>, kids: seq<seq<nat>>, tops: seq<nat>, open: seq<nat>) {
    && |kids| <= |secs| && OpenPositions(secs, |kids|, open)
    && forall u {:trigger ShowShape(u)} :: ShowShape(u) ==>
         && tops == Roots(secs, 0, |kids|)
         && forall k: nat {:trigger KidsRight(secs, kids, k)} :: k < |kids| ==> KidsRight(secs, kids, k)
  }

  ghost predicate Grown(kids: seq<seq<nat>>, open: seq<nat>, more: seq<seq<nat>>) {
    && |more| == |kids| + 1 && more[|kids|] == []
    && forall k :: 0 <= k < |kids| ==> more[k] == Extended(kids[k], LastIs(open, k), |kids|)
  }

  ghost function MoreKids(kids: seq<seq<nat>>, open: seq<nat>): (more: seq<seq<nat>>)
    ensures Grown(kids, open, more)
  {
    seq(|kids|, k requires 0 <= k < |kids| => Extended(kids[k], LastIs(open, k), |kids|)) + [[]]
  }

  lemma ShapeGrows(secs: seq<Section>, kids: seq<seq<nat>>, tops: seq<nat>, all: seq<nat>, open: seq<nat>, more: seq<seq<nat>>)
    requires Shape(secs, kids, tops, all) && |kids| < |secs| && Owners(secs, |kids|, secs[|kids|].depth, open)
    requires Grown(kids, open, more)
    ensures Shape(secs, more, Extended(tops, open == [], |kids|), open + [|kids|])
  {
    var n := |kids|;
    assert ShowShape(true);
    forall k: nat | k < n + 1 ensures KidsRight(secs, more, k) {
      assert k < n ==> KidsRight(secs, kids, k);
      KidGrows(secs, kids, open, more, k);
    }
    TopGrows(secs, n, open);
    PushedIsOpen(secs, n, open);
  }

  lemma KidGrows(secs: seq<Section>, kids: seq<seq<nat>>, open: seq<nat>, more: seq<seq<nat>>, k: nat)
    requires |kids| < |secs| && Owners(secs, |kids|, secs[|kids|].depth, open)
    requires Grown(kids, open, more) && k < |more| && (k < |kids| ==> KidsRight(secs, kids, k))
    ensures KidsRight(secs, more, k)
  {
    if k < |kids| {
      ChildrenGrow(secs, |kids|, open, k);
    } else {
      NoKidsYet(secs, k);
    }
  }

  lemma NoKidsYet(secs: seq<Section>, n: nat)
    requires n < |secs|
    ensures KidsAt(secs, n, n + 1) == []
  {
  }

  ghost function BodyAt(lines: seq<string>, start: nat): seq<string>
    requires start <= |lines|
  {
    lines[start..][..BodyLength(lines[start..])]
  }

  lemma NextSection(lines: seq<string>, i: nat, secs: seq<Section>, n: nat)
    requires i < |lines| && n <= |secs| && Scan(lines[i..]) == secs[n..]
    ensures !IsHeading(lines[i]) ==> Scan(lines[i + 1..]) == secs[n..]
    ensures IsHeading(lines[i]) ==>
      && n < |secs| && secs[n] == Section(Hashes(lines[i]), Trim(HeadingText(lines[i])), BodyOf(BodyAt(lines, i + 1)))
      && Scan(lines[i + 1 + BodyLength(lines[i + 1..])..]) == secs[n + 1..]
  {
    var rest := lines[i..];
    assert rest[0] == lines[i] && rest[1..] == lines[i + 1..];
    if IsHeading(lines[i]) {
      var m := BodyLength(lines[i + 1..]);
      assert lines[i + 1..][m..] == lines[i + 1 + m..];
      assert secs[n..] != [];
      assert secs[n..][0] == secs[n] && secs[n..][1..] == secs[n + 1..];
    }
  }

  class SectionParser {
    var result: seq<NoteNode>
    var stack: seq<Open>
    ghost const plan: seq<Section>
    ghost var nodes: seq<NoteNode>
    ghost var kids: seq<seq<nat>>
    ghost var tops: seq<nat>
    ghost var open: seq<nat>

    constructor (ghost plan: seq<Section>)
      ensures Valid() && nodes == [] && this.plan == plan
    {
      result, stack := [], [];
      this.plan, nodes, kids, tops, open := plan, [], [], [], [];
    }

    ghost predicate StackValid()
      reads this
    {
      && |nodes| <= |plan| && |stack| == |open|
      && forall i :: 0 <= i < |open| ==> open[i] < |nodes| && stack[i] == Open(nodes[open[i]], plan[open[i]].depth)
    }

    /** The objects hang together as the positions do. */
    ghost predicate Linked()
      reads this, nodes`ch
    {
      && Distinct(nodes) && |kids| == |nodes|
      && (forall k :: 0 <= k < |nodes| ==> AreAt(nodes[k].ch, nodes, kids[k]))
      && AreAt(result, nodes, tops)
    }

    ghost predicate FilledTo(n: nat)
      reads this, nodes`title, nodes`body
    {
      n <= |nodes| && n <= |plan| && forall k :: 0 <= k < n ==> nodes[k].title == plan[k].title && nodes[k].body == plan[k].body
    }

    /** The nodes built so far, one a section, hang together as the sections say. */
    ghost predicate Valid()
      reads this, nodes
    {
      StackValid() && Shape(plan, kids, tops, open) && Linked() && FilledTo(|nodes|)
    }

    method PopDeeper(depth: nat)
      requires StackValid() && OpenPositions(plan, |nodes|, open)
      modifies this`stack, this`open
      ensures StackValid() && Owners(plan, |nodes|, depth, open)
    {
      ghost var all := open;
      while stack != [] && stack[|stack| - 1].depth >= depth
        invariant StackValid() && |stack| <= |all| && open == all[..|stack|]
        invariant forall i :: |stack| <= i < |all| ==> all[i] < |nodes| && plan[all[i]].depth >= depth
      {
        stack, open := stack[..|stack| - 1], open[..|open| - 1];
      }
      PoppedAreOwners(plan, |nodes|, depth, all, |stack|);
    }

    /** Puts a new node under the innermost open one, or among the roots. */
    method Hang(node: NoteNode)
      requires StackValid() && Linked() && node !in nodes && node.ch == []
      modifies this`result, this`nodes, this`kids, this`tops, Members(nodes)`ch
      ensures Linked() && nodes == old(nodes) + [node]
      ensures Grown(old(kids), open, kids) && tops == Extended(old(tops), open == [], |old(kids)|)
    {
      if stack == [] { HangOnTop(node); } else { HangUnder(node); }
    }

    method HangOnTop(node: NoteNode)
      requires stack == [] && StackValid() && Linked() && node !in nodes && node.ch == []
      modifies this`result, this`nodes, this`kids, this`tops
      ensures Linked() && nodes == old(nodes) + [node]
      ensures Grown(old(kids), open, kids) && tops == old(tops) + [|old(kids)|]
    {
      AreAtGrows(result, nodes, tops, node);
      forall k | 0 <= k < |nodes| ensures AreAt(nodes[k].ch, nodes + [node], kids[k]) {
        AreAtGrows(nodes[k].ch, nodes, kids[k], node);
      }
      tops, result := tops + [|nodes|], result + [node];
      kids, nodes := MoreKids(kids, open), nodes + [node];
    }

    method HangUnder(node: NoteNode)
      requires stack != [] && StackValid() && Linked() && node !in nodes && node.ch == []
      modifies this`nodes, this`kids, Members(nodes)`ch
      ensures Linked() && nodes == old(nodes) + [node]
      ensures Grown(old(kids), open, kids)
    {
      var parent := stack[|stack| - 1].node;
      AreAtGrows(result, nodes, tops, node);
      forall k | 0 <= k < |nodes|
        ensures AreAt(nodes[k].ch, nodes + [node], kids[k]) && AreAt(nodes[k].ch + [node], nodes + [node], kids[k] + [|nodes|])
        ensures nodes[k] == parent <==> k == open[|open| - 1]
      {
        AreAtGrows(nodes[k].ch, nodes, kids[k], node);
      }
      parent.ch := parent.ch + [node];
      kids, nodes := MoreKids(kids, open), nodes + [node];
    }

    method Attach(node: NoteNode, depth: nat)
      requires StackValid() && Shape(plan, kids, tops, open) && Linked() && node !in nodes && node.ch == []
      requires |nodes| < |plan| && plan[|nodes|].depth == depth
      modifies this`result, this`stack, this`nodes, this`kids, this`tops, this`open, Members(nodes)`ch
      ensures StackValid() && Shape(plan, kids, tops, open) && Linked() && nodes == old(nodes) + [node]
    {
      ghost var before, all, n := kids, open, |nodes|;
      PopDeeper(depth);
      Hang(node);
      ShapeGrows(plan, before, old(tops), all, open, kids);
      stack, open := stack + [Open(node, depth)], open + [n];
    }

    method AddNode(depth: nat, title: string) returns (node: NoteNode)
      requires Valid() && |nodes| < |plan| && plan[|nodes|].depth == depth
      modifies this, Members(nodes)
      ensures StackValid() && Shape(plan, kids, tops, open) && Linked()
      ensures FilledTo(|old(nodes)|) && nodes == old(nodes) + [node] && fresh(node) && node.title == title
    {
      node := new NoteNode(title);
      Attach(node, depth);
    }

    /** One heading with its body, which starts at `start`; returns where the body ends. */
    method AddSection(depth: nat, title: string, lines: seq<string>, start: nat) returns (next: nat)
      requires Valid() && start <= |lines| && |nodes| < |plan|
      requires plan[|nodes|] == Section(depth, title, BodyOf(BodyAt(lines, start)))
      modifies this, Members(nodes)
      ensures Valid() && next == start + BodyLength(lines[start..])
      ensures |nodes| == |old(nodes)| + 1 && fresh(Members(nodes) - Members(old(nodes)))
    {
      var node := AddNode(depth, title);
      var body;
      next, body := TakeBody(lines, start);
      node.body := body;
    }

    /** One round of the loop over the lines. */
    method Step(lines: seq<string>, i: nat) returns (next: nat)
      requires Valid() && i < |lines| && Scan(lines[i..]) == plan[|nodes|..]
      modifies this, Members(nodes)
      ensures Valid() && i < next <= |lines| && Scan(lines[next..]) == plan[|nodes|..]
      ensures fresh(Members(nodes) - Members(old(nodes)))
    {
      if IsHeading(lines[i]) {
        next := StepHeading(lines, i);
      } else {
        NextSection(lines, i, plan, |nodes|);
        next := i + 1;
      }
    }

    method StepHeading(lines: seq<string>, i: nat) returns (next: nat)
      requires Valid() && i < |lines| && Scan(lines[i..]) == plan[|nodes|..] && IsHeading(lines[i])
      modifies this, Members(nodes)
      ensures Valid() && i < next <= |lines| && Scan(lines[next..]) == plan[|nodes|..]
      ensures fresh(Members(nodes) - Members(old(nodes)))
    {
      NextSection(lines, i, plan, |nodes|);
      next := AddSection(Hashes(lines[i]), Trim(HeadingText(lines[i])), lines, i + 1);
    }
  }

  /** Collects the lines up to the next mark and strips blank ones at both ends. */
  method TakeBody(lines: seq<string>, start: nat) returns (next: nat, body: string)
    requires start <= |lines|
    ensures next == start + BodyLength(lines[start..]) && body == BodyOf(BodyAt(lines, start))
  {
    next := start;
    var bodyLines: seq<string> := [];
    while next < |lines| && !IsMark(lines[next])
      invariant start <= next <= |lines| && bodyLines == lines[start..next]
      invariant next + BodyLength(lines[next..]) == start + BodyLength(lines[start..])
    {
      assert lines[next..][1..] == lines[next + 1..];
      bodyLines := bodyLines + [lines[next]];
      next := next + 1;
    }
    while bodyLines != [] && Blank(bodyLines[0])
      invariant StripStart(bodyLines) == StripStart(lines[start..next])
    {
      bodyLines := bodyLines[1..];
    }
    while bodyLines != [] && Blank(bodyLines[|bodyLines| - 1])
      invariant StripEnd(bodyLines) == StripEnd(StripStart(lines[start..next]))
    {
      bodyLines := bodyLines[..|bodyLines| - 1];
    }
    body := Join('\n', bodyLines);
    assert lines[start..next] == BodyAt(lines, start);
  }

  // ---- what was built ----

  ghost predicate ClosedRange(secs: seq<Section>, lo: nat, hi: nat)
    requires lo <= hi <= |secs|
  {
    hi == |secs| || forall q :: lo <= q < hi ==> secs[hi].depth <= secs[q].depth
  }

  lemma {:induction false} EndInRange(secs: seq<Section>, lo: nat, hi: nat)
    requires lo < hi <= |secs| && ClosedRange(secs, lo, hi)
    ensures End(secs, lo, |secs|) == End(secs, lo, hi)
  {
    var m := End(secs, lo, hi);
    if m < |secs| { assert secs[m].depth <= secs[lo].depth; }
  }

  lemma RepresentsCons(n: NoteNode, ns: seq<NoteNode>, t: Note, ts: seq<Note>, all: set<NoteNode>)
    requires n in all && n.title == t.title && n.body == t.body && Represents(n.ch, t.ch, all) && Represents(ns, ts, all)
    ensures Represents([n] + ns, [t] + ts, all)
  {
  }

  ghost predicate NodeRight(nodes: seq<NoteNode>, secs: seq<Section>, k: nat)
    requires k < |nodes| == |secs|
    reads nodes
  {
    && nodes[k].title == secs[k].title && nodes[k].body == secs[k].body
    && AreAt(nodes[k].ch, nodes, KidsAt(secs, k, |secs|))
  }

  ghost predicate AllRight(nodes: seq<NoteNode>, secs: seq<Section>)
    reads nodes
  {
    |nodes| == |secs| && forall k: nat {:trigger NodeRight(nodes, secs, k)} :: k < |nodes| ==> NodeRight(nodes, secs, k)
  }

  lemma FinishedIsRight(p: SectionParser)
    requires p.Valid() && |p.nodes| == |p.plan|
    ensures AllRight(p.nodes, p.plan)
  {
    assert ShowShape(true);
    forall k: nat | k < |p.nodes| ensures NodeRight(p.nodes, p.plan, k) {
      assert KidsRight(p.plan, p.kids, k);
    }
  }

  lemma {:induction false} RangeRepresents(nodes: seq<NoteNode>, secs: seq<Section>, lo: nat, hi: nat, ns: seq<NoteNode>)
    requires AllRight(nodes, secs) && lo <= hi <= |secs| && ClosedRange(secs, lo, hi)
    requires AreAt(ns, nodes, Roots(secs, lo, hi))
    ensures Represents(ns, ForestIn(secs, lo, hi), Members(nodes))
    decreases hi - lo
  {
    if lo < hi {
      var m, n := End(secs, lo, hi), nodes[lo];
      EndInRange(secs, lo, hi);
      assert NodeRight(nodes, secs, lo);
      AreAtCons(ns, nodes, lo, Roots(secs, m, hi));
      RangeRepresents(nodes, secs, lo + 1, m, n.ch);
      RangeRepresents(nodes, secs, m, hi, ns[1..]);
      RepresentsCons(n, ns[1..], Note(n.title, n.body, ForestIn(secs, lo + 1, m)), ForestIn(secs, m, hi), Members(nodes));
    }
  }

  lemma AreAtCons(ns: seq<NoteNode>, nodes: seq<NoteNode>, k: nat, ks: seq<nat>)
    requires k < |nodes| && AreAt(ns, nodes, [k] + ks)
    ensures ns == [nodes[k]] + ns[1..] && AreAt(ns[1..], nodes, ks) && nodes[k] in Members(nodes)
  {
    assert forall i :: 0 <= i < |ks| ==> ([k] + ks)[i + 1] == ks[i];
  }

  lemma ParserRepresents(p: SectionParser)
    requires p.Valid() && |p.nodes| == |p.plan|
    ensures Represents(p.result, Forest(p.plan), Members(p.nodes))
  {
    assert ShowShape(true);
    FinishedIsRight(p);
    RangeRepresents(p.nodes, p.plan, 0, |p.plan|, p.result);
    ForestInIsForest(p.plan, 0, |p.plan|);
    assert p.plan[0..|p.plan|] == p.plan;
  }

  method ReadLines(lines: seq<string>) returns (parser: SectionParser)
    ensures fresh(parser) && fresh(Members(parser.nodes))
    ensures parser.Valid() && parser.plan == Scan(lines) && |parser.nodes| == |parser.plan|
  {
    parser := new SectionParser(Scan(lines));
    var i := 0;
    assert lines[0..] == lines;
    while i < |lines|
      invariant i <= |lines| && parser.Valid() && parser.plan == Scan(lines)
      invariant fresh(parser) && fresh(Members(parser.nodes))
      invariant Scan(lines[i..]) == parser.plan[|parser.nodes|..]
    {
      i := parser.Step(lines, i);
    }
    assert parser.plan[|parser.nodes|..] == [];
  }

  /** Builds exactly the forest of the text's sections, out of new objects. */
  method ParseMdSections(text: string) returns (result: seq<NoteNode>, ghost all: set<NoteNode>)
    ensures fresh(all) && Represents(result, Parsed(text), all)
  {
    var parser := ReadLines(Split('\n', text));
    result, all := parser.result, Members(parser.nodes);
    ParserRepresents(parser);
  }
}
