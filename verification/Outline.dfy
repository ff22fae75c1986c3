// Trees of notes and the flat lists of depth-marked sections that Markdown can hold.

module Outlines {
  import opened Sorting
  import opened Text

  datatype Note = Note(title: string, body: string, ch: seq<Note>)

  datatype Section = Section(depth: nat, title: string, body: string)

  /** Markdown has six heading depths. */
  function HeadingDepth(depth: nat): nat {
    if depth + 1 < 6 then depth + 1 else 6
  }

  function ShownTitle(title: string): string {
    if title == "" then "Untitled" else title
  }

  /** The tree in preorder, children one deeper than their parent. */
  function Sections(nodes: seq<Note>, depth: nat): seq<Section> {
    if nodes == [] then []
    else
      [Section(HeadingDepth(depth), ShownTitle(nodes[0].title), Trim(nodes[0].body))]
      + Sections(nodes[0].ch, depth + 1) + Sections(nodes[1..], depth)
  }

  /** How many leading sections are deeper than `depth`. */
  function RunLength(secs: seq<Section>, depth: nat): (n: nat)
    ensures n <= |secs| && forall i :: 0 <= i < n ==> secs[i].depth > depth
    ensures n < |secs| ==> secs[n].depth <= depth
  {
    if secs == [] || secs[0].depth <= depth then 0 else 1 + RunLength(secs[1..], depth)
  }

  /** The tree a list of sections stands for: a section owns the deeper sections that follow it. */
  function Forest(secs: seq<Section>): (r: seq<Note>)
    decreases |secs|
  {
    if secs == [] then []
    else
      var n := RunLength(secs[1..], secs[0].depth);
      [Note(secs[0].title, secs[0].body, Forest(secs[1..][..n]))] + Forest(secs[1..][n..])
  }

  function Height(nodes: seq<Note>): nat {
    if nodes == [] then 0
    else
      var first, others := 1 + Height(nodes[0].ch), Height(nodes[1..]);
      if first >= others then first else others
  }

  /** Titles and bodies that are printed as they are. */
  ghost predicate Tidy(nodes: seq<Note>) {
    forall n :: n in nodes ==> n.title != "" && Trimmed(n.body) && Tidy(n.ch)
  }

  ghost predicate TidySections(secs: seq<Section>) {
    forall s :: s in secs ==> s.title != "" && Trimmed(s.body)
  }

  lemma {:induction false} RunOfAppend(run: seq<Section>, rest: seq<Section>, depth: nat)
    requires forall i :: 0 <= i < |run| ==> run[i].depth > depth
    requires rest != [] ==> rest[0].depth <= depth
    ensures RunLength(run + rest, depth) == |run|
  {
    if run == [] {
      assert run + rest == rest;
    } else {
      RunOfAppend(run[1..], rest, depth);
      assert (run + rest)[1..] == run[1..] + rest;
    }
  }

  lemma ForestCons(first: Section, run: seq<Section>, rest: seq<Section>)
    requires RunLength(run + rest, first.depth) == |run|
    ensures Forest([first] + (run + rest)) == [Note(first.title, first.body, Forest(run))] + Forest(rest)
  {
    var tail := run + rest;
    assert ([first] + tail)[1..] == tail;
    assert tail[..|run|] == run && tail[|run|..] == rest;
  }

  lemma ForestStep(first: Section, run: seq<Section>, rest: seq<Section>)
    requires forall i :: 0 <= i < |run| ==> run[i].depth > first.depth
    requires rest != [] ==> rest[0].depth <= first.depth
    ensures Forest([first] + run + rest) == [Note(first.title, first.body, Forest(run))] + Forest(rest)
  {
    RunOfAppend(run, rest, first.depth);
    ForestCons(first, run, rest);
    AppendAssoc([first], run, rest);
  }

  /** Depths start right below `depth` and never grow by more than one. */
  ghost predicate Gapless(secs: seq<Section>, depth: nat) {
    && (forall i :: 0 <= i < |secs| ==> HeadingDepth(depth) <= secs[i].depth <= 6)
    && (secs != [] ==> secs[0].depth == HeadingDepth(depth))
    && (forall i :: 0 < i < |secs| ==> secs[i].depth <= secs[i - 1].depth + 1)
  }

  lemma GaplessConcat(first: Section, run: seq<Section>, rest: seq<Section>, depth: nat)
    requires first.depth == HeadingDepth(depth) && Gapless(run, depth + 1) && Gapless(rest, depth)
    ensures Gapless([first] + run + rest, depth)
  {
    var secs := [first] + run + rest;
    forall i | 0 <= i < |secs|
      ensures HeadingDepth(depth) <= secs[i].depth <= 6 && (i > 0 ==> secs[i].depth <= secs[i - 1].depth + 1)
    {
      if 1 <= i <= |run| { assert secs[i] == run[i - 1]; }
      if i > |run| { assert secs[i] == rest[i - 1 - |run|]; }
    }
  }

  /** Flattening any tree leaves no gaps. */
  lemma {:induction false} SectionsGapless(nodes: seq<Note>, depth: nat)
    ensures Gapless(Sections(nodes, depth), depth)
  {
    if nodes != [] {
      var run, rest := Sections(nodes[0].ch, depth + 1), Sections(nodes[1..], depth);
      SectionsGapless(nodes[0].ch, depth + 1);
      SectionsGapless(nodes[1..], depth);
      GaplessConcat(Section(HeadingDepth(depth), ShownTitle(nodes[0].title), Trim(nodes[0].body)), run, rest, depth);
    }
  }

  /** A tree that fits into the six depths comes back. */
  lemma {:induction false} ForestOfSections(nodes: seq<Note>, depth: nat)
    requires Tidy(nodes) && depth + Height(nodes) <= 6
    ensures Forest(Sections(nodes, depth)) == nodes
  {
    if nodes != [] {
      var first := Section(HeadingDepth(depth), nodes[0].title, nodes[0].body);
      var run, rest := Sections(nodes[0].ch, depth + 1), Sections(nodes[1..], depth);
      assert nodes[0] in nodes;
      ForestOfSections(nodes[0].ch, depth + 1);
      ForestOfSections(nodes[1..], depth);
      SectionsDeeper(nodes[0].ch, depth + 1);
      SectionsGapless(nodes[1..], depth);
      ForestStep(first, run, rest);
      assert nodes == [nodes[0]] + nodes[1..];
    }
  }

  lemma SectionsDeeper(nodes: seq<Note>, depth: nat)
    requires depth + Height(nodes) <= 6
    ensures forall i :: 0 <= i < |Sections(nodes, depth)| ==> Sections(nodes, depth)[i].depth > depth
  {
    SectionsGapless(nodes, depth);
  }

  lemma {:induction false} ForestHeight(secs: seq<Section>, depth: nat)
    requires depth <= 6 && forall i :: 0 <= i < |secs| ==> depth < secs[i].depth <= 6
    ensures depth + Height(Forest(secs)) <= 6
    decreases |secs|
  {
    if secs != [] {
      var n := RunLength(secs[1..], secs[0].depth);
      ForestHeight(secs[1..][..n], secs[0].depth);
      ForestHeight(secs[1..][n..], depth);
    }
  }

  /** A tree survives being flattened under depth 2 exactly when it has at most four levels. */
  lemma FourLevelsSurvive(nodes: seq<Note>)
    requires Tidy(nodes)
    ensures Forest(Sections(nodes, 2)) == nodes <==> Height(nodes) <= 4
  {
    SectionsGapless(nodes, 2);
    ForestHeight(Sections(nodes, 2), 2);
    if Height(nodes) <= 4 { ForestOfSections(nodes, 2); }
  }

  lemma {:induction false} SectionsOfForest(secs: seq<Section>, depth: nat)
    requires TidySections(secs) && Gapless(secs, depth)
    ensures Sections(Forest(secs), depth) == secs
    decreases |secs|
  {
    if secs != [] {
      var tail := secs[1..];
      var n := RunLength(tail, secs[0].depth);
      var run, rest := tail[..n], tail[n..];
      assert secs == [secs[0]] + run + rest;
      SplitGapless(secs, depth, n);
      SectionsOfForest(run, depth + 1);
      SectionsOfForest(rest, depth);
      var f := Forest(secs);
      assert f[0].ch == Forest(run) && f[1..] == Forest(rest);
    }
  }

  lemma SplitGapless(secs: seq<Section>, depth: nat, n: nat)
    requires Gapless(secs, depth) && secs != [] && n == RunLength(secs[1..], secs[0].depth)
    ensures Gapless(secs[1..][..n], depth + 1) && Gapless(secs[1..][n..], depth)
  {
    assert forall i :: 0 <= i < |secs| - 1 ==> secs[1..][i] == secs[i + 1];
  }

  /** Rebuilding and flattening is the identity exactly on the gapless lists. */
  lemma GaplessIffStable(secs: seq<Section>, depth: nat)
    requires TidySections(secs)
    ensures Sections(Forest(secs), depth) == secs <==> Gapless(secs, depth)
  {
    if Gapless(secs, depth) { SectionsOfForest(secs, depth); }
    SectionsGapless(Forest(secs), depth);
  }
}
