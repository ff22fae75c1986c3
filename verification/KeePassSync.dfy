// The one-way sync: the operations it performs, what they leave at every path, and its methods.

module KeePassSync {
  import opened EntryLists
  import opened EntrySync
  import opened GroupTrees
  import opened Options
  import opened Sorting
  import opened Text

  // ---- the operations of a run ----

  datatype Op = Copy(path: seq<string>, src: Entry) | Prune(path: seq<string>, titles: set<string>)

  function Copies(srcs: seq<Entry>, path: seq<string>): seq<Op> {
    if srcs == [] then [] else Copies(srcs[..|srcs| - 1], path) + [Copy(path, srcs[|srcs| - 1])]
  }

  function Own(src: Group, path: seq<string>, deleteOrphans: bool): seq<Op> {
    Copies(src.entries, path) + if deleteOrphans then [Prune(path, Among(TitleList(src.entries)))] else []
  }

  /** Everything a recursive sync of `src` onto `path` does, in order. */
  function Plan(src: Group, path: seq<string>, deleteOrphans: bool): seq<Op> {
    Own(src, path, deleteOrphans) + PlanAll(src.subgroups, path, deleteOrphans)
  }

  function PlanAll(subs: seq<Group>, path: seq<string>, deleteOrphans: bool): seq<Op> {
    if subs == [] then []
    else PlanAll(subs[..|subs| - 1], path, deleteOrphans) + Plan(subs[|subs| - 1], path + [subs[|subs| - 1].name], deleteOrphans)
  }

  /** A dry run creates the groups in memory all the same. */
  function Apply(g: Group, op: Op, dry: bool): Group {
    match op
    case Copy(path, src) =>
      var h := Ensure(g, path);
      if dry then h else SetEntries(h, path, Put(EntriesAt(h, path), src))
    case Prune(path, titles) =>
      if Find(g, path).Some? && !dry then SetEntries(g, path, Keep(EntriesAt(g, path), titles)) else g
  }

  function Run(g: Group, ops: seq<Op>, dry: bool): Group {
    if ops == [] then g else Apply(Run(g, ops[..|ops| - 1], dry), ops[|ops| - 1], dry)
  }

  lemma RunLast(g: Group, ops: seq<Op>, op: Op, dry: bool)
    ensures Run(g, ops + [op], dry) == Apply(Run(g, ops, dry), op, dry)
  {
    assert (ops + [op])[..|ops|] == ops;
  }

  /** A fold over a concatenation runs one part after the other. */
  lemma {:induction false} FoldAppend<S(!new), T(!new)>(run: (S, seq<T>) -> S, apply: (S, T) -> S, g: S, a: seq<T>, b: seq<T>)
    requires forall h :: run(h, []) == h
    requires forall h, xs, x :: run(h, xs + [x]) == apply(run(h, xs), x)
    ensures run(g, a + b) == run(run(g, a), b)
  {
    if b == [] {
      assert a + b == a;
      assert run(run(g, a), []) == run(g, a);
    } else {
      var init, last := b[..|b| - 1], b[|b| - 1];
      FoldAppend(run, apply, g, a, init);
      assert a + b == (a + init) + [last] && b == init + [last];
      assert run(g, (a + init) + [last]) == apply(run(g, a + init), last);
      assert run(run(g, a), init + [last]) == apply(run(run(g, a), init), last);
    }
  }

  lemma RunAppend(g: Group, a: seq<Op>, b: seq<Op>, dry: bool)
    ensures Run(g, a + b, dry) == Run(Run(g, a, dry), b, dry)
  {
    forall h, ops, op ensures Run(h, ops + [op], dry) == Apply(Run(h, ops, dry), op, dry) { RunLast(h, ops, op, dry); }
    FoldAppend((h, ops) => Run(h, ops, dry), (h, op) => Apply(h, op, dry), g, a, b);
  }

  // ---- what a run does at one path ----

  function At(ops: seq<Op>, q: seq<string>): seq<Op> {
    if ops == [] then []
    else At(ops[..|ops| - 1], q) + if ops[|ops| - 1].path == q then [ops[|ops| - 1]] else []
  }

  function ApplyHere(es: seq<Entry>, op: Op): seq<Entry> {
    match op
    case Copy(_, src) => Put(es, src)
    case Prune(_, titles) => Keep(es, titles)
  }

  function RunHere(es: seq<Entry>, ops: seq<Op>): seq<Entry> {
    if ops == [] then es else ApplyHere(RunHere(es, ops[..|ops| - 1]), ops[|ops| - 1])
  }

  lemma ApplyAtPath(g: Group, op: Op, dry: bool, q: seq<string>)
    ensures EntriesAt(Apply(g, op, dry), q) == if op.path == q && !dry then ApplyHere(EntriesAt(g, q), op) else EntriesAt(g, q)
    ensures Find(Apply(g, op, dry), q).Some? <==> Find(g, q).Some? || (op.Copy? && q <= op.path)
  {
    match op
    case Copy(path, src) =>
      FindAfterEnsure(g, path, path);
      FindAfterEnsure(g, path, q);
      FindAfterSet(Ensure(g, path), path, Put(EntriesAt(g, path), src), q);
    case Prune(path, titles) =>
      if Find(g, path).Some? { FindAfterSet(g, path, Keep(EntriesAt(g, path), titles), q); }
  }

  /** A dry run moves no entry; a real one does at each path what the operations for it do. */
  lemma {:induction false} RunAtPath(g: Group, ops: seq<Op>, dry: bool, q: seq<string>)
    ensures EntriesAt(Run(g, ops, dry), q) == if dry then EntriesAt(g, q) else RunHere(EntriesAt(g, q), At(ops, q))
  {
    if ops != [] {
      var init, op := ops[..|ops| - 1], ops[|ops| - 1];
      RunAtPath(g, init, dry, q);
      ApplyAtPath(Run(g, init, dry), op, dry, q);
      if op.path == q {
        assert At(ops, q)[..|At(init, q)|] == At(init, q);
      } else {
        assert At(ops, q) == At(init, q);
      }
    }
  }

  lemma {:induction false} AtAppend(a: seq<Op>, b: seq<Op>, q: seq<string>)
    ensures At(a + b, q) == At(a, q) + At(b, q)
  {
    if b == [] {
      assert a + b == a;
    } else {
      var init, op := b[..|b| - 1], b[|b| - 1];
      AtAppend(a, init, q);
      assert (a + b)[..|a + b| - 1] == a + init && (a + b)[|a + b| - 1] == op;
      AppendAssoc(At(a, q), At(init, q), if op.path == q then [op] else []);
    }
  }

  lemma {:induction false} RunHereAppend(es: seq<Entry>, a: seq<Op>, b: seq<Op>)
    ensures RunHere(es, a + b) == RunHere(RunHere(es, a), b)
  {
    if b == [] {
      assert a + b == a;
    } else {
      RunHereAppend(es, a, b[..|b| - 1]);
      assert (a + b)[..|a + b| - 1] == a + b[..|b| - 1];
    }
  }

  lemma {:induction false} CopyGroupsAppend(es: seq<Entry>, a: seq<seq<Entry>>, b: seq<seq<Entry>>, del: bool)
    ensures CopyGroups(es, a + b, del) == CopyGroups(CopyGroups(es, a, del), b, del)
  {
    if b == [] {
      assert a + b == a;
    } else {
      CopyGroupsAppend(es, a, b[..|b| - 1], del);
      assert (a + b)[..|a + b| - 1] == a + b[..|b| - 1];
    }
  }

  // ---- the master groups that land on one path ----

  function GroupsAt(src: Group, path: seq<string>, q: seq<string>): seq<seq<Entry>> {
    (if path == q then [src.entries] else []) + GroupsAtAll(src.subgroups, path, q)
  }

  function GroupsAtAll(subs: seq<Group>, path: seq<string>, q: seq<string>): seq<seq<Entry>> {
    if subs == [] then []
    else GroupsAtAll(subs[..|subs| - 1], path, q) + GroupsAt(subs[|subs| - 1], path + [subs[|subs| - 1].name], q)
  }

  lemma {:induction false} CopiesHere(es: seq<Entry>, srcs: seq<Entry>, path: seq<string>)
    ensures At(Copies(srcs, path), path) == Copies(srcs, path) && RunHere(es, Copies(srcs, path)) == PutAll(es, srcs)
  {
    if srcs != [] {
      CopiesHere(es, srcs[..|srcs| - 1], path);
      assert Copies(srcs, path)[..|Copies(srcs, path)| - 1] == Copies(srcs[..|srcs| - 1], path);
    }
  }

  lemma {:induction false} CopiesElsewhere(srcs: seq<Entry>, path: seq<string>, q: seq<string>)
    requires path != q
    ensures At(Copies(srcs, path), q) == []
  {
    if srcs != [] {
      CopiesElsewhere(srcs[..|srcs| - 1], path, q);
      assert Copies(srcs, path)[..|Copies(srcs, path)| - 1] == Copies(srcs[..|srcs| - 1], path);
    }
  }

  lemma OwnHere(es: seq<Entry>, src: Group, path: seq<string>, del: bool, q: seq<string>)
    ensures RunHere(es, At(Own(src, path, del), q)) == if path == q then CopyGroup(es, src.entries, del) else es
  {
    var prune := Prune(path, Among(TitleList(src.entries)));
    var tail := if del then [prune] else [];
    AtAppend(Copies(src.entries, path), tail, q);
    assert At([], q) == [];
    assert del ==> tail[..0] == [] && At(tail, q) == if path == q then [prune] else [];
    if path == q {
      CopiesHere(es, src.entries, path);
      RunHereAppend(es, Copies(src.entries, path), tail);
    } else {
      CopiesElsewhere(src.entries, path, q);
    }
  }

  lemma {:induction false} PlanHere(es: seq<Entry>, src: Group, path: seq<string>, del: bool, q: seq<string>)
    ensures RunHere(es, At(Plan(src, path, del), q)) == CopyGroups(es, GroupsAt(src, path, q), del)
    decreases src
  {
    var own, below := Own(src, path, del), PlanAll(src.subgroups, path, del);
    var first := if path == q then [src.entries] else [];
    AtAppend(own, below, q);
    RunHereAppend(es, At(own, q), At(below, q));
    OwnHere(es, src, path, del, q);
    PlanAllHere(RunHere(es, At(own, q)), src.subgroups, path, del, q);
    CopyGroupsAppend(es, first, GroupsAtAll(src.subgroups, path, q), del);
    assert [src.entries][..0] == [];
    assert CopyGroups(es, first, del) == RunHere(es, At(own, q));
  }

  lemma {:induction false} PlanAllHere(es: seq<Entry>, subs: seq<Group>, path: seq<string>, del: bool, q: seq<string>)
    ensures RunHere(es, At(PlanAll(subs, path, del), q)) == CopyGroups(es, GroupsAtAll(subs, path, q), del)
    decreases subs
  {
    if subs != [] {
      var init, last := subs[..|subs| - 1], subs[|subs| - 1];
      var before, below := PlanAll(init, path, del), Plan(last, path + [last.name], del);
      AtAppend(before, below, q);
      RunHereAppend(es, At(before, q), At(below, q));
      PlanAllHere(es, init, path, del, q);
      PlanHere(RunHere(es, At(before, q)), last, path + [last.name], del, q);
      CopyGroupsAppend(es, GroupsAtAll(init, path, q), GroupsAt(last, path + [last.name], q), del);
    }
  }

  /** After a run the entries at every path are those of the master groups with that path, copied in order. */
  lemma SyncResult(child: Group, src: Group, path: seq<string>, del: bool, q: seq<string>)
    ensures EntriesAt(Run(child, Plan(src, path, del), false), q) == CopyGroups(EntriesAt(child, q), GroupsAt(src, path, q), del)
  {
    RunAtPath(child, Plan(src, path, del), false, q);
    PlanHere(EntriesAt(child, q), src, path, del, q);
  }

  // ---- groups that a run creates or leaves ----

  lemma {:induction false} RunFinds(g: Group, ops: seq<Op>, dry: bool, q: seq<string>)
    ensures Find(Run(g, ops, dry), q).Some?
       <==> Find(g, q).Some? || exists i :: 0 <= i < |ops| && ops[i].Copy? && q <= ops[i].path
  {
    if ops != [] {
      var init, op := ops[..|ops| - 1], ops[|ops| - 1];
      RunFinds(g, init, dry, q);
      ApplyAtPath(Run(g, init, dry), op, dry, q);
      assert forall i :: 0 <= i < |init| ==> ops[i] == init[i];
    }
  }

  /** Groups that no name path reaches keep everything, reachable ones everything but their entries. */
  lemma {:induction false} RunExtends(g: Group, ops: seq<Op>, dry: bool)
    ensures Extends(g, Run(g, ops, dry))
  {
    if ops == [] {
      ExtendsReflexive(g);
    } else {
      var h, op := Run(g, ops[..|ops| - 1], dry), ops[|ops| - 1];
      RunExtends(g, ops[..|ops| - 1], dry);
      ApplyExtends(h, op, dry);
      ExtendsTransitive(g, h, Apply(h, op, dry));
    }
  }

  lemma ApplyExtends(g: Group, op: Op, dry: bool)
    ensures Extends(g, Apply(g, op, dry))
  {
    ExtendsReflexive(g);
    match op
    case Copy(path, src) =>
      var h := Ensure(g, path);
      var es := Put(EntriesAt(h, path), src);
      EnsureExtends(g, path);
      SetIsAlike(h, path, es);
      AlikeExtends(h, SetEntries(h, path, es));
      ExtendsTransitive(g, h, SetEntries(h, path, es));
    case Prune(path, titles) =>
      var es := Keep(EntriesAt(g, path), titles);
      SetIsAlike(g, path, es);
      AlikeExtends(g, SetEntries(g, path, es));
  }

  lemma {:induction false} RunIsAlike(g: Group, ops: seq<Op>)
    requires forall i :: 0 <= i < |ops| && ops[i].Copy? ==> Find(g, ops[i].path).Some?
    ensures Alike(g, Run(g, ops, false))
  {
    if ops == [] {
      AlikeReflexive(g);
    } else {
      var init, op := ops[..|ops| - 1], ops[|ops| - 1];
      var h := Run(g, init, false);
      assert forall i :: 0 <= i < |init| ==> init[i] == ops[i];
      RunIsAlike(g, init);
      RunFinds(g, init, false, op.path);
      EnsureExtends(h, op.path);
      AlikeReflexive(h);
      SetIsAlike(h, op.path, if op.Copy? then Put(EntriesAt(h, op.path), op.src) else Keep(EntriesAt(h, op.path), op.titles));
      AlikeTransitive(g, h, Apply(h, op, false));
    }
  }

  /** A second run over the same master changes nothing at all. */
  lemma SyncTwice(child: Group, src: Group, path: seq<string>, del: bool)
    ensures var once := Run(child, Plan(src, path, del), false); Run(once, Plan(src, path, del), false) == once
  {
    var plan := Plan(src, path, del);
    var once := Run(child, plan, false);
    var twice := Run(once, plan, false);
    forall i | 0 <= i < |plan| && plan[i].Copy? ensures Find(once, plan[i].path).Some? {
      RunFinds(child, plan, false, plan[i].path);
    }
    RunIsAlike(once, plan);
    forall q ensures EntriesAt(once, q) == EntriesAt(twice, q) {
      SyncResult(child, src, path, del, q);
      SyncResult(once, src, path, del, q);
      SecondRun(EntriesAt(child, q), GroupsAt(src, path, q), del);
    }
    AlikeEqual(once, twice);
  }

  // ---- masters without two subgroups of one name ----

  ghost predicate DistinctNames(g: Group) {
    && (forall i, j :: 0 <= i < j < |g.subgroups| ==> g.subgroups[i].name != g.subgroups[j].name)
    && (forall i :: 0 <= i < |g.subgroups| ==> DistinctNames(g.subgroups[i]))
  }

  lemma {:induction false} NoGroupsOutside(src: Group, path: seq<string>, q: seq<string>)
    requires !(path <= q)
    ensures GroupsAt(src, path, q) == []
    decreases src
  {
    NoGroupsOutsideAll(src.subgroups, path, q);
  }

  lemma {:induction false} NoGroupsOutsideAll(subs: seq<Group>, path: seq<string>, q: seq<string>)
    requires !(path <= q)
    ensures GroupsAtAll(subs, path, q) == []
    decreases subs
  {
    if subs != [] {
      var last := subs[|subs| - 1];
      NoGroupsOutsideAll(subs[..|subs| - 1], path, q);
      assert path + [last.name] <= q ==> path <= q;
      NoGroupsOutside(last, path + [last.name], q);
    }
  }

  /** Each path under the root of the sync gets exactly the master group with that name path, if there is one. */
  lemma {:induction false} OneGroupEach(src: Group, path: seq<string>, r: seq<string>)
    requires DistinctNames(src)
    ensures GroupsAt(src, path, path + r) == if Find(src, r).Some? then [Find(src, r).value.entries] else []
    decreases src, 0
  {
    if r == [] {
      assert path + r == path;
      NoneBelow(src.subgroups, path);
    } else {
      OneGroupAmong(src.subgroups, path, r);
    }
  }

  lemma {:induction false} NoneBelow(subs: seq<Group>, path: seq<string>)
    ensures GroupsAtAll(subs, path, path) == []
  {
    if subs != [] {
      NoneBelow(subs[..|subs| - 1], path);
      NoGroupsOutside(subs[|subs| - 1], path + [subs[|subs| - 1].name], path);
    }
  }

  /** The entries of the group that path r leads to, if any. */
  ghost function GroupBelow(subs: seq<Group>, r: seq<string>): seq<seq<Entry>>
    requires r != []
  {
    var i := IndexOfName(subs, r[0]);
    if i < |subs| && Find(subs[i], r[1..]).Some? then [Find(subs[i], r[1..]).value.entries] else []
  }

  ghost function EntriesBelow(g: Group, r: seq<string>): seq<seq<Entry>>
    requires r != []
  {
    if g.name == r[0] && Find(g, r[1..]).Some? then [Find(g, r[1..]).value.entries] else []
  }

  lemma GroupBelowLast(init: seq<Group>, last: Group, r: seq<string>)
    requires r != [] && forall i :: 0 <= i < |init| ==> init[i].name != last.name
    ensures GroupBelow(init + [last], r) == GroupBelow(init, r) + EntriesBelow(last, r)
  {
    IndexAfterAppend(init, last, r[0]);
  }

  lemma {:induction false} OneGroupAmong(subs: seq<Group>, path: seq<string>, r: seq<string>)
    requires r != [] && forall i, j :: 0 <= i < j < |subs| ==> subs[i].name != subs[j].name
    requires forall i :: 0 <= i < |subs| ==> DistinctNames(subs[i])
    ensures GroupsAtAll(subs, path, path + r) == GroupBelow(subs, r)
    decreases subs
  {
    if subs != [] {
      var init, last := subs[..|subs| - 1], subs[|subs| - 1];
      OneGroupAmong(init, path, r);
      OneGroupLast(last, path, r);
      GroupBelowLast(init, last, r);
      assert subs == init + [last];
    }
  }

  lemma {:induction false} OneGroupLast(last: Group, path: seq<string>, r: seq<string>)
    requires r != [] && DistinctNames(last)
    ensures GroupsAt(last, path + [last.name], path + r) == EntriesBelow(last, r)
    decreases last, 1
  {
    if last.name == r[0] {
      assert path + r == path + [last.name] + r[1..];
      OneGroupEach(last, path + [last.name], r[1..]);
    } else {
      assert (path + r)[|path|] == r[0] && (path + [last.name])[|path|] == last.name;
      NoGroupsOutside(last, path + [last.name], path + r);
    }
  }

  /** The master entries that decide a path: all of them, or those of the last group if each group prunes. */
  function Deciding(groups: seq<seq<Entry>>, del: bool): seq<Entry> {
    if del && groups != [] then groups[|groups| - 1] else Concat(groups)
  }

  /** Every title among the deciding entries ends up with the fields of the last of them that carries it. */
  lemma SyncedFields(child: Group, src: Group, path: seq<string>, del: bool, q: seq<string>, t: string)
    requires t in TitleList(Deciding(GroupsAt(src, path, q), del))
    ensures var es := EntriesAt(Run(child, Plan(src, path, del), false), q);
      Has(es, t) && LoginAt(es, t) == Filled(LastWith(Deciding(GroupsAt(src, path, q), del), t).login)
  {
    var groups, es := GroupsAt(src, path, q), EntriesAt(child, q);
    SyncResult(child, src, path, del, q);
    if del {
      CopiedFields(CopyGroups(es, groups[..|groups| - 1], del), groups[|groups| - 1], del, t);
    } else {
      GroupsAsOne(es, groups);
      LastIsCopied(es, Concat(groups), t);
    }
  }

  /** With delete_orphans the titles at a mirrored path are exactly those of the last master group there. */
  lemma SyncedTitles(child: Group, src: Group, path: seq<string>, q: seq<string>)
    requires GroupsAt(src, path, q) != []
    ensures Titles(EntriesAt(Run(child, Plan(src, path, true), false), q)) == Among(TitleList(Deciding(GroupsAt(src, path, q), true)))
  {
    var groups, es := GroupsAt(src, path, q), EntriesAt(child, q);
    SyncResult(child, src, path, true, q);
    PrunedTitles(CopyGroups(es, groups[..|groups| - 1], true), groups[|groups| - 1]);
  }

  /** With distinct sibling names that is the one master group with the same name path. */
  lemma MirroredGroup(child: Group, src: Group, path: seq<string>, del: bool, r: seq<string>, t: string)
    requires DistinctNames(src) && Find(src, r).Some?
    ensures var srcs, es := Find(src, r).value.entries, EntriesAt(Run(child, Plan(src, path, del), false), path + r);
      && (t in TitleList(srcs) ==> Has(es, t) && LoginAt(es, t) == Filled(LastWith(srcs, t).login))
      && (del ==> Titles(es) == Among(TitleList(srcs)))
  {
    var srcs := Find(src, r).value.entries;
    OneGroupEach(src, path, r);
    OneOnly(srcs);
    if t in TitleList(srcs) { SyncedFields(child, src, path, del, path + r, t); }
    if del { SyncedTitles(child, src, path, path + r); }
  }

  lemma OneOnly(srcs: seq<Entry>)
    ensures Deciding([srcs], true) == srcs && Deciding([srcs], false) == srcs
  {
    assert [srcs][..0] == [];
    assert Concat([srcs]) == [] + srcs;
  }

  /** Without it, no entry leaves or moves, and only first matches of master titles get a new login. */
  lemma SyncedOthers(child: Group, src: Group, path: seq<string>, q: seq<string>, i: nat)
    requires i < |EntriesAt(child, q)|
    ensures var before, after := EntriesAt(child, q), EntriesAt(Run(child, Plan(src, path, false), false), q);
      && i < |after|
      && after[i] == if before[i].title.Some? && before[i].title.value in TitleList(Concat(GroupsAt(src, path, q))) && IsFirst(before, i)
                     then before[i].(login := Filled(LastWith(Concat(GroupsAt(src, path, q)), before[i].title.value).login))
                     else before[i]
  {
    SyncResult(child, src, path, false, q);
    GroupsAsOne(EntriesAt(child, q), GroupsAt(src, path, q));
    PutAllIs(EntriesAt(child, q), Concat(GroupsAt(src, path, q)), i);
  }

  /** Groups outside the synced path keep their entries. */
  lemma SyncedElsewhere(child: Group, src: Group, path: seq<string>, del: bool, q: seq<string>)
    requires !(path <= q)
    ensures EntriesAt(Run(child, Plan(src, path, del), false), q) == EntriesAt(child, q)
  {
    SyncResult(child, src, path, del, q);
    NoGroupsOutside(src, path, q);
  }

  // ---- counting ----

  datatype Counts = Counts(added: nat, updated: nat, deleted: nat)

  function Plus(a: Counts, b: Counts): (c: Counts)
    ensures b == Counts(0, 0, 0) ==> c == a
  {
    Counts(a.added + b.added, a.updated + b.updated, a.deleted + b.deleted)
  }

  /** What the statistics record; orphans are counted in a dry run too. */
  function Recorded(g: Group, op: Op, dry: bool): Counts {
    match op
    case Copy(path, src) =>
      if dry then Counts(0, 0, 0) else if Has(EntriesAt(g, path), Title(src)) then Counts(0, 1, 0) else Counts(1, 0, 0)
    case Prune(path, titles) => Counts(0, 0, |Drop(EntriesAt(g, path), titles)|)
  }

  function Tally(g: Group, ops: seq<Op>, dry: bool): Counts {
    if ops == [] then Counts(0, 0, 0)
    else Plus(Tally(g, ops[..|ops| - 1], dry), Recorded(Run(g, ops[..|ops| - 1], dry), ops[|ops| - 1], dry))
  }

  /** The entries that pruning deletes. */
  function Drop(es: seq<Entry>, titles: set<string>): seq<Entry> {
    if es == [] then []
    else Drop(es[..|es| - 1], titles) + if Title(es[|es| - 1]) in titles then [] else [es[|es| - 1]]
  }

  lemma {:induction false} KeptAndDropped(es: seq<Entry>, titles: set<string>)
    ensures |Keep(es, titles)| + |Drop(es, titles)| == |es|
  {
    if es != [] { KeptAndDropped(es[..|es| - 1], titles); }
  }

  lemma CountAfterApply(g: Group, op: Op)
    ensures Count(Apply(g, op, false)) + Recorded(g, op, false).deleted == Count(g) + Recorded(g, op, false).added
  {
    match op
    case Copy(path, src) =>
      FindAfterEnsure(g, path, path);
      CountAfterEnsure(g, path);
      CountAfterSet(Ensure(g, path), path, Put(EntriesAt(g, path), src));
    case Prune(path, titles) =>
      KeptAndDropped(EntriesAt(g, path), titles);
      if Find(g, path).Some? { CountAfterSet(g, path, Keep(EntriesAt(g, path), titles)); }
  }

  /** Entries after = entries before + added - deleted. */
  lemma {:induction false} Conservation(g: Group, ops: seq<Op>)
    ensures Count(Run(g, ops, false)) == Count(g) + Tally(g, ops, false).added - Tally(g, ops, false).deleted
  {
    if ops != [] {
      Conservation(g, ops[..|ops| - 1]);
      CountAfterApply(Run(g, ops[..|ops| - 1], false), ops[|ops| - 1]);
    }
  }

  lemma TallyLast(g: Group, ops: seq<Op>, op: Op, dry: bool)
    ensures Tally(g, ops + [op], dry) == Plus(Tally(g, ops, dry), Recorded(Run(g, ops, dry), op, dry))
  {
    assert (ops + [op])[..|ops|] == ops;
  }

  /** Any tally that grows operation by operation splits where a run splits. */
  lemma {:induction false} TallySplits(tally: (Group, seq<Op>) -> Counts, run: (Group, seq<Op>) -> Group,
                                       recorded: (Group, Op) -> Counts, g: Group, a: seq<Op>, b: seq<Op>)
    requires forall h :: tally(h, []) == Counts(0, 0, 0)
    requires forall h, ops, op :: tally(h, ops + [op]) == Plus(tally(h, ops), recorded(run(h, ops), op))
    requires forall h, x, y :: run(h, x + y) == run(run(h, x), y)
    ensures tally(g, a + b) == Plus(tally(g, a), tally(run(g, a), b))
  {
    if b == [] {
      assert a + b == a;
      assert tally(run(g, a), []) == Counts(0, 0, 0);
    } else {
      var init, last := b[..|b| - 1], b[|b| - 1];
      TallySplits(tally, run, recorded, g, a, init);
      assert a + b == (a + init) + [last] && b == init + [last];
      assert tally(g, (a + init) + [last]) == Plus(tally(g, a + init), recorded(run(g, a + init), last));
      assert tally(run(g, a), init + [last]) == Plus(tally(run(g, a), init), recorded(run(run(g, a), init), last));
      assert run(g, a + init) == run(run(g, a), init);
    }
  }

  lemma TallyAppend(g: Group, a: seq<Op>, b: seq<Op>, dry: bool)
    ensures Tally(g, a + b, dry) == Plus(Tally(g, a, dry), Tally(Run(g, a, dry), b, dry))
  {
    forall h, ops, op ensures Tally(h, ops + [op], dry) == Plus(Tally(h, ops, dry), Recorded(Run(h, ops, dry), op, dry)) {
      TallyLast(h, ops, op, dry);
    }
    forall h, x, y ensures Run(h, x + y, dry) == Run(Run(h, x, dry), y, dry) { RunAppend(h, x, y, dry); }
    TallySplits((h, ops) => Tally(h, ops, dry), (h, ops) => Run(h, ops, dry), (h, op) => Recorded(h, op, dry), g, a, b);
  }

  // ---- the sync object ----

  lemma UpdateTwice(gs: seq<Group>, i: nat, a: Group, b: Group)
    requires i < |gs|
    ensures gs[i := a][i := b] == gs[i := b]
  {
  }

  lemma UpdateLast(gs: seq<Group>, a: Group, b: Group)
    ensures (gs + [a])[|gs| := b] == gs + [b]
  {
  }

  lemma AddUnderExisting(g: Group, path: seq<string>, name: string, i: nat)
    requires path != [] && i == IndexOfName(g.subgroups, path[0]) && i < |g.subgroups|
    ensures AddGroup(Ensure(g, path), path, name)
         == g.(subgroups := g.subgroups[i := AddGroup(Ensure(g.subgroups[i], path[1..]), path[1..], name)])
  {
    var sub := Ensure(g.subgroups[i], path[1..]);
    KeepsName(g.subgroups[i], path[1..], []);
    IndexAfterUpdate(g.subgroups, i, sub, path[0]);
    UpdateTwice(g.subgroups, i, sub, AddGroup(sub, path[1..], name));
  }

  lemma AddUnderMade(g: Group, path: seq<string>, name: string, made: Group)
    requires path != [] && IndexOfName(g.subgroups, path[0]) == |g.subgroups| && made == Group(path[0], [], [])
    ensures AddGroup(Ensure(g, path), path, name)
         == g.(subgroups := g.subgroups + [AddGroup(Ensure(made, path[1..]), path[1..], name)])
  {
    var sub := Ensure(made, path[1..]);
    KeepsName(made, path[1..], []);
    IndexAfterAppend(g.subgroups, sub, path[0]);
    UpdateLast(g.subgroups, sub, AddGroup(sub, path[1..], name));
  }

  /** Ensuring a path is ensuring its front and then adding the last group if it is missing. */
  lemma {:induction false} EnsureStep(g: Group, path: seq<string>, name: string)
    ensures Ensure(g, path + [name])
         == if Find(g, path + [name]).Some? then Ensure(g, path) else AddGroup(Ensure(g, path), path, name)
    decreases |path|
  {
    var whole := path + [name];
    if path == [] {
      assert whole[1..] == [];
      EnsureExtends(g, whole);
    } else {
      assert whole[0] == path[0] && whole[1..] == path[1..] + [name];
      var i := IndexOfName(g.subgroups, path[0]);
      if i < |g.subgroups| {
        EnsureStep(g.subgroups[i], path[1..], name);
        AddUnderExisting(g, path, name, i);
      } else {
        var made := Group(path[0], [], []);
        EnsureStep(made, path[1..], name);
        AddUnderMade(g, path, name, made);
        NothingInFresh(made, path[1..] + [name]);
      }
    }
  }

  ghost predicate ShowDid(u: bool) { true }

  /** From tree g0 and counts c0 the operations led to g1 and c1; unfolded only where ShowDid is mentioned. */
  ghost predicate Did(g0: Group, c0: Counts, g1: Group, c1: Counts, ops: seq<Op>, dry: bool) {
    forall u {:trigger ShowDid(u)} :: ShowDid(u) ==> g1 == Run(g0, ops, dry) && c1 == Plus(c0, Tally(g0, ops, dry))
  }

  lemma DidNone(g: Group, c: Counts, dry: bool)
    ensures Did(g, c, g, c, [], dry)
  {
  }

  lemma DidThen(g0: Group, c0: Counts, a: seq<Op>, g1: Group, c1: Counts, b: seq<Op>, g2: Group, c2: Counts, dry: bool)
    requires Did(g0, c0, g1, c1, a, dry) && Did(g1, c1, g2, c2, b, dry)
    ensures Did(g0, c0, g2, c2, a + b, dry)
  {
    assert ShowDid(true);
    RunAppend(g0, a, b, dry);
    TallyAppend(g0, a, b, dry);
  }

  lemma DidOne(g: Group, c: Counts, op: Op, dry: bool)
    ensures Did(g, c, Apply(g, op, dry), Plus(c, Recorded(g, op, dry)), [op], dry)
  {
    assert [op][..0] == [];
    assert Run(g, [], dry) == g && Tally(g, [], dry) == Counts(0, 0, 0);
  }

  lemma NextEntry(es: seq<Entry>, i: nat, titles: set<string>)
    requires i < |es|
    ensures es[i..] == [es[i]] + es[i + 1..]
    ensures Keep(es[..i + 1], titles) == Keep(es[..i], titles) + if Title(es[i]) in titles then [es[i]] else []
    ensures Drop(es[..i + 1], titles) == Drop(es[..i], titles) + if Title(es[i]) in titles then [] else [es[i]]
  {
    assert es[..i + 1][..i] == es[..i];
  }

  class Stats {
    var added: nat
    var updated: nat
    var deleted: nat

    constructor ()
      ensures Counted() == Counts(0, 0, 0)
    {
      added, updated, deleted := 0, 0, 0;
    }

    function Counted(): Counts
      reads this
    {
      Counts(added, updated, deleted)
    }

    method NoteDeleted()
      modifies this
      ensures Counted() == Plus(old(Counted()), Counts(0, 0, 1))
    {
      deleted := deleted + 1;
    }

    method Note(action: Action)
      modifies this
      ensures Counted() == Plus(old(Counted()), CountsOf(action))
    {
      match action {
        case Added => added := added + 1;
        case Updated => updated := updated + 1;
        case DryRun =>
      }
    }
  }

  datatype Action = Added | Updated | DryRun

  function CountsOf(action: Action): Counts {
    match action
    case Added => Counts(1, 0, 0)
    case Updated => Counts(0, 1, 0)
    case DryRun => Counts(0, 0, 0)
  }

  method FirstNamed(gs: seq<Group>, name: string) returns (i: nat)
    ensures i == IndexOfName(gs, name)
  {
    i := 0;
    while i < |gs| && gs[i].name != name
      invariant i <= |gs| && forall j :: 0 <= j < i ==> gs[j].name != name
    {
      i := i + 1;
    }
    IndexIs(gs, name, i);
  }

  method FindEntryInGroup(es: seq<Entry>, title: string) returns (i: nat)
    ensures i == Position(es, title)
  {
    i := 0;
    while i < |es| && es[i].title != Some(title)
      invariant i <= |es| && forall j :: 0 <= j < i ==> es[j].title != Some(title)
    {
      i := i + 1;
    }
    PositionIs(es, title, i);
  }

  /** An open database: the tree in memory and the one on disk. */
  class KeePass {
    var root: Group
    var saved: Group

    constructor (onDisk: Group)
      ensures root == onDisk && saved == onDisk
    {
      root, saved := onDisk, onDisk;
    }

    method FindGroupByPath(parts: seq<string>) returns (r: Option<Group>)
      ensures r == Find(root, parts)
    {
      var current := root;
      assert parts[0..] == parts;
      for i := 0 to |parts|
        invariant Find(current, parts[i..]) == Find(root, parts)
      {
        var k := FirstNamed(current.subgroups, parts[i]);
        assert parts[i..][0] == parts[i] && parts[i..][1..] == parts[i + 1..];
        if k == |current.subgroups| { return None; }
        current := current.subgroups[k];
      }
      r := Some(current);
    }

    method EnsureGroupPath(parts: seq<string>)
      modifies this`root
      ensures root == Ensure(old(root), parts)
    {
      for i := 0 to |parts|
        invariant root == Ensure(old(root), parts[..i])
      {
        assert parts[..i + 1] == parts[..i] + [parts[i]];
        EnsureStep(old(root), parts[..i], parts[i]);
        FindAfterEnsure(old(root), parts[..i], parts[..i + 1]);
        var found := FindGroupByPath(parts[..i + 1]);
        if found.None? { root := AddGroup(root, parts[..i], parts[i]); }
      }
      assert parts[..|parts|] == parts;
    }

    method CopyEntry(src: Entry, parts: seq<string>, dryRun: bool) returns (action: Action)
      modifies this`root
      ensures root == Apply(old(root), Copy(parts, src), dryRun)
      ensures CountsOf(action) == Recorded(old(root), Copy(parts, src), dryRun)
    {
      EnsureGroupPath(parts);
      FindAfterEnsure(old(root), parts, parts);
      var group := FindGroupByPath(parts);
      var es := group.value.entries;
      var existing := FindEntryInGroup(es, Title(src));
      if dryRun {
        action := DryRun;
      } else if existing == |es| {
        root := SetEntries(root, parts, es + [Entry(Some(Title(src)), Filled(src.login), "")]);
        action := Added;
      } else {
        root := SetEntries(root, parts, es[existing := es[existing].(login := Filled(src.login))]);
        action := Updated;
      }
    }

    /** Deletes the entries of a group that the master group does not have, one by one. */
    method DeleteOrphans(parts: seq<string>, titles: set<string>, dryRun: bool, stats: Stats)
      modifies this`root, stats
      ensures root == Apply(old(root), Prune(parts, titles), dryRun)
      ensures stats.Counted() == Plus(old(stats.Counted()), Recorded(old(root), Prune(parts, titles), dryRun))
    {
      var group := FindGroupByPath(parts);
      if group.None? { return; }
      ghost var put := (x: seq<Entry>) => SetEntries(old(root), parts, x);
      SetSame(root, parts);
      forall x, y ensures SetEntries(put(x), parts, y) == put(y) { SetTwice(old(root), parts, x, y); }
      DropEach(parts, group.value.entries, titles, dryRun, stats, put);
    }

    /** The loop over a copy of the entries; `put` is the tree with other entries in the group. */
    method DropEach(parts: seq<string>, es: seq<Entry>, titles: set<string>, dryRun: bool, stats: Stats,
                    ghost put: seq<Entry> -> Group)
      requires root == put(es) && forall x, y :: SetEntries(put(x), parts, y) == put(y)
      modifies this`root, stats
      ensures root == if dryRun then old(root) else put(Keep(es, titles))
      ensures stats.Counted() == Plus(old(stats.Counted()), Counts(0, 0, |Drop(es, titles)|))
    {
      var kept := [];
      assert kept + es[0..] == es;
      for i := 0 to |es|
        invariant kept == Keep(es[..i], titles)
        invariant root == if dryRun then old(root) else put(kept + es[i..])
        invariant stats.Counted() == Plus(old(stats.Counted()), Counts(0, 0, |Drop(es[..i], titles)|))
      {
        NextEntry(es, i, titles);
        if Title(es[i]) !in titles {
          if !dryRun { root := SetEntries(root, parts, kept + es[i + 1..]); }
          stats.NoteDeleted();
        } else {
          AppendAssoc(kept, [es[i]], es[i + 1..]);
          kept := kept + [es[i]];
        }
      }
      assert es[..|es|] == es && kept + es[|es|..] == kept;
    }

    method CopyCounted(src: Entry, parts: seq<string>, dryRun: bool, stats: Stats)
      modifies this`root, stats
      ensures Did(old(root), old(stats.Counted()), root, stats.Counted(), [Copy(parts, src)], dryRun)
    {
      DidOne(root, stats.Counted(), Copy(parts, src), dryRun);
      var action := CopyEntry(src, parts, dryRun);
      stats.Note(action);
    }

    method CopyEntries(srcs: seq<Entry>, parts: seq<string>, dryRun: bool, stats: Stats)
      modifies this`root, stats
      ensures Did(old(root), old(stats.Counted()), root, stats.Counted(), Copies(srcs, parts), dryRun)
    {
      DidNone(root, stats.Counted(), dryRun);
      for i := 0 to |srcs|
        invariant Did(old(root), old(stats.Counted()), root, stats.Counted(), Copies(srcs[..i], parts), dryRun)
      {
        ghost var g, c := root, stats.Counted();
        CopyCounted(srcs[i], parts, dryRun, stats);
        assert srcs[..i + 1][..i] == srcs[..i];
        DidThen(old(root), old(stats.Counted()), Copies(srcs[..i], parts), g, c, [Copy(parts, srcs[i])],
                root, stats.Counted(), dryRun);
      }
      assert srcs[..|srcs|] == srcs;
    }

    method SyncOwn(src: Group, parts: seq<string>, dryRun: bool, stats: Stats, deleteOrphans: bool)
      modifies this`root, stats
      ensures Did(old(root), old(stats.Counted()), root, stats.Counted(), Own(src, parts, deleteOrphans), dryRun)
    {
      CopyEntries(src.entries, parts, dryRun, stats);
      ghost var copies, g, c := Copies(src.entries, parts), root, stats.Counted();
      if deleteOrphans {
        var titles := Among(TitleList(src.entries));
        DeleteOrphans(parts, titles, dryRun, stats);
        DidOne(g, c, Prune(parts, titles), dryRun);
        DidThen(old(root), old(stats.Counted()), copies, g, c, [Prune(parts, titles)], root, stats.Counted(), dryRun);
      } else {
        assert copies + [] == copies;
      }
    }

    method SyncSubgroups(subs: seq<Group>, parts: seq<string>, dryRun: bool, stats: Stats, deleteOrphans: bool)
      modifies this`root, stats
      ensures Did(old(root), old(stats.Counted()), root, stats.Counted(), PlanAll(subs, parts, deleteOrphans), dryRun)
      decreases subs, 0
    {
      DidNone(root, stats.Counted(), dryRun);
      for i := 0 to |subs|
        invariant Did(old(root), old(stats.Counted()), root, stats.Counted(), PlanAll(subs[..i], parts, deleteOrphans), dryRun)
      {
        ghost var g, c := root, stats.Counted();
        SyncGroupRecursive(subs[i], parts + [subs[i].name], dryRun, stats, deleteOrphans);
        assert subs[..i + 1][..i] == subs[..i];
        DidThen(old(root), old(stats.Counted()), PlanAll(subs[..i], parts, deleteOrphans), g, c,
                Plan(subs[i], parts + [subs[i].name], deleteOrphans), root, stats.Counted(), dryRun);
      }
      assert subs[..|subs|] == subs;
    }

    method SyncGroupRecursive(src: Group, parts: seq<string>, dryRun: bool, stats: Stats, deleteOrphans: bool)
      modifies this`root, stats
      ensures Did(old(root), old(stats.Counted()), root, stats.Counted(), Plan(src, parts, deleteOrphans), dryRun)
      decreases src, 1
    {
      SyncOwn(src, parts, dryRun, stats, deleteOrphans);
      ghost var g, c := root, stats.Counted();
      SyncSubgroups(src.subgroups, parts, dryRun, stats, deleteOrphans);
      DidThen(old(root), old(stats.Counted()), Own(src, parts, deleteOrphans), g, c,
              PlanAll(src.subgroups, parts, deleteOrphans), root, stats.Counted(), dryRun);
    }

    method Save()
      modifies this`saved
      ensures saved == root
    {
      saved := root;
    }
  }

  /** The non-empty parts of a slash-separated path. */
  function Parts(path: string): seq<string> {
    NonEmpty(Split('/', path))
  }

  function NonEmpty(parts: seq<string>): seq<string> {
    if parts == [] then [] else (if parts[0] == "" then [] else [parts[0]]) + NonEmpty(parts[1..])
  }

  /** Syncs a master group into the child: 1 for an empty or unknown path, otherwise 0. */
  method SyncGroup(master: KeePass, child: KeePass, path: string, dryRun: bool, deleteOrphans: bool)
    returns (code: int, counts: Counts)
    requires master != child
    modifies child
    ensures master.root == old(master.root)
    ensures var parts, src := Parts(path), Find(master.root, Parts(path));
      if parts == [] || src.None? then code == 1 && child.root == old(child.root) && child.saved == old(child.saved)
      else
        var plan := Plan(src.value, parts, deleteOrphans);
        && code == 0 && counts == Tally(old(child.root), plan, dryRun)
        && child.root == Run(old(child.root), plan, dryRun)
        && child.saved == if dryRun then old(child.saved) else child.root
  {
    counts := Counts(0, 0, 0);
    var parts := Parts(path);
    if parts == [] { return 1, counts; }
    var src := master.FindGroupByPath(parts);
    if src.None? { return 1, counts; }
    var stats := new Stats();
    child.SyncGroupRecursive(src.value, parts, dryRun, stats, deleteOrphans);
    assert ShowDid(true);
    if !dryRun { child.Save(); }
    code, counts := 0, stats.Counted();
  }

  lemma {:induction false} SetSame(g: Group, path: seq<string>)
    requires Find(g, path).Some?
    ensures SetEntries(g, path, EntriesAt(g, path)) == g
    decreases |path|
  {
    if path != [] { SetSame(g.subgroups[IndexOfName(g.subgroups, path[0])], path[1..]); }
  }

  lemma {:induction false} SetTwice(g: Group, path: seq<string>, a: seq<Entry>, b: seq<Entry>)
    ensures SetEntries(SetEntries(g, path, a), path, b) == SetEntries(g, path, b)
    decreases |path|
  {
    if path != [] {
      var i := IndexOfName(g.subgroups, path[0]);
      if i < |g.subgroups| {
        SetTwice(g.subgroups[i], path[1..], a, b);
        KeepsName(g.subgroups[i], path[1..], a);
        IndexAfterUpdate(g.subgroups, i, SetEntries(g.subgroups[i], path[1..], a), path[0]);
        UpdateTwice(g.subgroups, i, SetEntries(g.subgroups[i], path[1..], a), SetEntries(g.subgroups[i], path[1..], b));
      }
    }
  }
}
