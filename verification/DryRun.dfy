// What a dry run of the sync reports: deletions that never happen.

module DryRuns {
  import opened EntryLists
  import opened EntrySync
  import opened GroupTrees
  import opened KeePassSync
  import opened Options
  import opened Sorting

  /** A dry run changes no entry and reports no addition. */
  lemma {:induction false} DryRunKeeps(g: Group, ops: seq<Op>)
    ensures forall q :: EntriesAt(Run(g, ops, true), q) == EntriesAt(g, q)
    ensures Count(Run(g, ops, true)) == Count(g) && Tally(g, ops, true).added == 0
  {
    forall q ensures EntriesAt(Run(g, ops, true), q) == EntriesAt(g, q) { RunAtPath(g, ops, true, q); }
    if ops != [] {
      var init, op := ops[..|ops| - 1], ops[|ops| - 1];
      DryRunKeeps(g, init);
      if op.Copy? { CountAfterEnsure(Run(g, init, true), op.path); }
    }
  }

  /** Every entry has one of the titles. */
  ghost predicate NoOrphans(es: seq<Entry>, titles: set<string>) {
    forall e :: e in es ==> Title(e) in titles
  }

  lemma {:induction false} NothingDropped(es: seq<Entry>, titles: set<string>)
    ensures |Drop(es, titles)| == 0 <==> NoOrphans(es, titles)
  {
    if es != [] {
      NothingDropped(es[..|es| - 1], titles);
      assert es == es[..|es| - 1] + [es[|es| - 1]];
    }
  }

  /** Each pruning finds only master titles in the child as it is. */
  ghost predicate FindsNoOrphans(g: Group, ops: seq<Op>) {
    forall op :: op in ops && op.Prune? ==> NoOrphans(EntriesAt(g, op.path), op.titles)
  }

  /** A dry run reports no deletion exactly if no pruning has anything to delete in the child as it is. */
  lemma {:induction false} DryRunDeletions(g: Group, ops: seq<Op>)
    ensures Tally(g, ops, true).deleted == 0 <==> FindsNoOrphans(g, ops)
  {
    if ops != [] {
      var init, op := ops[..|ops| - 1], ops[|ops| - 1];
      assert ops == init + [op];
      DryRunDeletions(g, init);
      if op.Prune? {
        DryRunKeeps(g, init);
        NothingDropped(EntriesAt(g, op.path), op.titles);
      }
      assert FindsNoOrphans(g, ops)
        <==> FindsNoOrphans(g, init) && (op.Prune? ==> NoOrphans(EntriesAt(g, op.path), op.titles));
    }
  }

  // ---- which prunings a sync performs ----

  ghost predicate PrunesFor(groups: seq<seq<Entry>>, op: Op) {
    op.Prune? && exists srcs :: srcs in groups && op.titles == Among(TitleList(srcs))
  }

  lemma {:induction false} CopiesOnly(srcs: seq<Entry>, path: seq<string>, op: Op)
    requires op in Copies(srcs, path)
    ensures op.Copy?
  {
    if op in Copies(srcs[..|srcs| - 1], path) { CopiesOnly(srcs[..|srcs| - 1], path, op); }
  }

  lemma PrunesAppend(a: seq<seq<Entry>>, b: seq<seq<Entry>>, op: Op)
    ensures PrunesFor(a + b, op) <==> PrunesFor(a, op) || PrunesFor(b, op)
  {
  }

  lemma OwnPrunes(src: Group, path: seq<string>, op: Op)
    requires op.Prune?
    ensures op in Own(src, path, true) <==> path == op.path && PrunesFor([src.entries], op)
  {
    if op in Copies(src.entries, path) { CopiesOnly(src.entries, path, op); }
    assert src.entries in [src.entries];
  }

  /** The prunings of a plan are those of the master groups that land on their paths. */
  lemma {:induction false} PlanPrunes(src: Group, path: seq<string>, op: Op)
    requires op.Prune?
    ensures op in Plan(src, path, true) <==> PrunesFor(GroupsAt(src, path, op.path), op)
    decreases src
  {
    OwnPrunes(src, path, op);
    PlanAllPrunes(src.subgroups, path, op);
    PrunesAppend(if path == op.path then [src.entries] else [], GroupsAtAll(src.subgroups, path, op.path), op);
  }

  lemma {:induction false} PlanAllPrunes(subs: seq<Group>, path: seq<string>, op: Op)
    requires op.Prune?
    ensures op in PlanAll(subs, path, true) <==> PrunesFor(GroupsAtAll(subs, path, op.path), op)
    decreases subs
  {
    if subs != [] {
      var init, last := subs[..|subs| - 1], subs[|subs| - 1];
      PlanAllPrunes(init, path, op);
      PlanPrunes(last, path + [last.name], op);
      PrunesAppend(GroupsAtAll(init, path, op.path), GroupsAt(last, path + [last.name], op.path), op);
    }
  }

  lemma {:induction false} PlainPlanCopies(src: Group, path: seq<string>, op: Op)
    requires op in Plan(src, path, false)
    ensures op.Copy?
    decreases src
  {
    if op in Copies(src.entries, path) { CopiesOnly(src.entries, path, op); }
    else { PlainPlansCopy(src.subgroups, path, op); }
  }

  lemma {:induction false} PlainPlansCopy(subs: seq<Group>, path: seq<string>, op: Op)
    requires op in PlanAll(subs, path, false)
    ensures op.Copy?
    decreases subs
  {
    var init, last := subs[..|subs| - 1], subs[|subs| - 1];
    if op in PlanAll(init, path, false) { PlainPlansCopy(init, path, op); }
    else { PlainPlanCopies(last, path + [last.name], op); }
  }

  /** No child entry lies in a mirrored group without a master entry of its title in the group it mirrors. */
  ghost predicate ChildHasNoOrphans(child: Group, src: Group, path: seq<string>) {
    forall q, srcs :: srcs in GroupsAt(src, path, q) ==> NoOrphans(EntriesAt(child, q), Among(TitleList(srcs)))
  }

  /** The counts of a dry run add up exactly if orphans are kept anyway or the child has none. */
  lemma DryRunBalance(child: Group, src: Group, path: seq<string>, del: bool)
    ensures var plan := Plan(src, path, del);
      Count(Run(child, plan, true)) == Count(child) + Tally(child, plan, true).added - Tally(child, plan, true).deleted
      <==> !del || ChildHasNoOrphans(child, src, path)
  {
    var plan := Plan(src, path, del);
    DryRunKeeps(child, plan);
    DryRunDeletions(child, plan);
    if del {
      if FindsNoOrphans(child, plan) {
        forall q, srcs | srcs in GroupsAt(src, path, q) ensures NoOrphans(EntriesAt(child, q), Among(TitleList(srcs))) {
          PlanPrunes(src, path, Prune(q, Among(TitleList(srcs))));
        }
      }
      if ChildHasNoOrphans(child, src, path) {
        forall op | op in plan && op.Prune? ensures NoOrphans(EntriesAt(child, op.path), op.titles) { PlanPrunes(src, path, op); }
      }
    } else {
      forall op | op in plan ensures op.Copy? { PlainPlanCopies(src, path, op); }
    }
  }

  /** One orphan: the dry run reports a deletion and deletes nothing. */
  lemma DryRunMiscounts(orphan: Entry)
    ensures var child, src := Group("", [], [Group("g", [orphan], [])]), Group("g", [], []);
      var plan := Plan(src, ["g"], true);
      && Tally(child, plan, true).deleted > 0 && EntriesAt(Run(child, plan, true), ["g"]) == [orphan]
      && Count(Run(child, plan, true)) == Count(child)
  {
    var child, src := Group("", [], [Group("g", [orphan], [])]), Group("g", [], []);
    var plan := Plan(src, ["g"], true);
    assert IndexOfName(child.subgroups, "g") == 0 && ["g"][1..] == [];
    assert EntriesAt(child, ["g"]) == [orphan] && orphan in [orphan];
    assert [] in GroupsAt(src, ["g"], ["g"]) && Title(orphan) !in Among(TitleList([]));
    assert !ChildHasNoOrphans(child, src, ["g"]);
    DryRunKeeps(child, plan);
    DryRunBalance(child, src, ["g"], true);
  }
}
