// The two implementations of the diff: diff_assessments in engine/diff.py and _compute_changes in
// engine/db.py. JSON text is represented by the value it encodes.

module Changes {
  import opened Sorting
  import opened Text
  import opened JsonValues
  import opened Options
  import opened Diffs

  const DB_SKIP: set<string> := {"timestamp", "stored_at", "schema_version"}
  const DIFF_SKIP: set<string> := {"timestamp", "stored_at", "schema_version", "collector_version"}

  /** What engine/db.py records: None is SQL NULL, Some(Null) is the text `null`. */
  datatype RowChange = RowChange(path: string, oldValue: Option<Json>, newValue: Option<Json>)

  datatype Kind = Changed | Added | Removed

  /** What engine/diff.py records: an absent value is None, the same as a JSON null. */
  datatype Change = Change(path: string, oldValue: Json, newValue: Json, kind: Kind)

  function Row(path: seq<string>, c: KeyChange): RowChange {
    RowChange(Join('.', path + c.keys), c.before, c.after)
  }

  function Rows(path: seq<string>, cs: seq<KeyChange>): seq<RowChange> {
    if cs == [] then [] else [Row(path, cs[0])] + Rows(path, cs[1..])
  }

  function Record(path: seq<string>, c: KeyChange): Change {
    Change(Join('.', path + c.keys),
           if c.before.Some? then c.before.value else Null,
           if c.after.Some? then c.after.value else Null,
           if c.before.None? then Added else if c.after.None? then Removed else Changed)
  }

  function Records(path: seq<string>, cs: seq<KeyChange>): seq<Change> {
    if cs == [] then [] else [Record(path, cs[0])] + Records(path, cs[1..])
  }

  lemma {:induction false} RowsAppend(path: seq<string>, xs: seq<KeyChange>, ys: seq<KeyChange>)
    ensures Rows(path, xs + ys) == Rows(path, xs) + Rows(path, ys)
    decreases |xs|
  {
    if xs == [] { assert xs + ys == ys; }
    else {
      assert (xs + ys)[1..] == xs[1..] + ys;
      RowsAppend(path, xs[1..], ys);
      AppendAssoc([Row(path, xs[0])], Rows(path, xs[1..]), Rows(path, ys));
    }
  }

  lemma {:induction false} RecordsAppend(path: seq<string>, xs: seq<KeyChange>, ys: seq<KeyChange>)
    ensures Records(path, xs + ys) == Records(path, xs) + Records(path, ys)
    decreases |xs|
  {
    if xs == [] { assert xs + ys == ys; }
    else {
      assert (xs + ys)[1..] == xs[1..] + ys;
      RecordsAppend(path, xs[1..], ys);
      AppendAssoc([Record(path, xs[0])], Records(path, xs[1..]), Records(path, ys));
    }
  }

  lemma {:induction false} RowsUnder(path: seq<string>, k: string, cs: seq<KeyChange>)
    ensures Rows(path, Under(k, cs)) == Rows(path + [k], cs)
    ensures Records(path, Under(k, cs)) == Records(path + [k], cs)
  {
    if cs != [] {
      assert path + ([k] + cs[0].keys) == path + [k] + cs[0].keys;
      assert Under(k, cs)[1..] == Under(k, cs[1..]);
      RowsUnder(path, k, cs[1..]);
    }
  }

  lemma {:induction false} KeysDiffSnoc(a: Json, b: Json, ks: seq<string>, k: string, skip: set<string>)
    requires a.Obj? && b.Obj?
    ensures KeysDiff(a, b, ks + [k], skip) == KeysDiff(a, b, ks, skip) + KeyDiff(a, b, k, skip)
    decreases |ks|
  {
    if ks == [] {
      assert KeysDiff(a, b, [k], skip) == KeyDiff(a, b, k, skip) + KeysDiff(a, b, [], skip);
      assert [] + [k] == [k];
    } else {
      assert (ks + [k])[0] == ks[0] && (ks + [k])[1..] == ks[1..] + [k];
      KeysDiffSnoc(a, b, ks[1..], k, skip);
    }
  }

  lemma OneMoreKey(path: seq<string>, a: Json, b: Json, ks: seq<string>, i: nat, skip: set<string>)
    requires a.Obj? && b.Obj? && i < |ks|
    ensures Rows(path, KeysDiff(a, b, ks[..i + 1], skip))
         == Rows(path, KeysDiff(a, b, ks[..i], skip)) + Rows(path, KeyDiff(a, b, ks[i], skip))
    ensures Records(path, KeysDiff(a, b, ks[..i + 1], skip))
         == Records(path, KeysDiff(a, b, ks[..i], skip)) + Records(path, KeyDiff(a, b, ks[i], skip))
  {
    assert ks[..i + 1] == ks[..i] + [ks[i]];
    KeysDiffSnoc(a, b, ks[..i], ks[i], skip);
    RowsAppend(path, KeysDiff(a, b, ks[..i], skip), KeyDiff(a, b, ks[i], skip));
    RecordsAppend(path, KeysDiff(a, b, ks[..i], skip), KeyDiff(a, b, ks[i], skip));
  }

  predicate SkippedPath(path: seq<string>, skip: set<string>) {
    path != [] && path[|path| - 1] in skip
  }

  /** The list `out` that _diff_recursive appends to. */
  class RowList {
    var items: seq<RowChange>

    constructor ()
      ensures items == []
    {
      items := [];
    }

    /** _diff_recursive */
    method DiffRecursive(before: Json, after: Json, path: seq<string>, skip: set<string>)
      modifies this
      ensures items == old(items) + (if SkippedPath(path, skip) then [] else Rows(path, Diff(before, after, skip)))
      decreases before, 2
    {
      if SkippedPath(path, skip) { return; }
      if before.Obj? && after.Obj? {
        var keys := SortedKeys(before.fields.Keys + after.fields.Keys);
        DiffRecursiveKeys(before, after, keys, path, skip);
      } else if before.Arr? && after.Arr? {
        if before != after { Emit(before, after, path); }
      } else if !PyEq(before, after) {
        Emit(before, after, path);
      }
    }

    method DiffRecursiveKeys(before: Json, after: Json, keys: seq<string>, path: seq<string>, skip: set<string>)
      requires before.Obj? && after.Obj? && forall k :: k in keys ==> k in before.fields || k in after.fields
      modifies this
      ensures items == old(items) + Rows(path, KeysDiff(before, after, keys, skip))
      decreases before, 1
    {
      ghost var done := [];
      for i := 0 to |keys|
        invariant done == Rows(path, KeysDiff(before, after, keys[..i], skip))
        invariant items == old(items) + done
      {
        assert keys[i] in keys;
        DiffRecursiveKey(before, after, keys[i], path, skip);
        ghost var step := Rows(path, KeyDiff(before, after, keys[i], skip));
        OneMoreKey(path, before, after, keys, i, skip);
        AppendAssoc(old(items), done, step);
        done := done + step;
      }
      assert keys[..|keys|] == keys;
    }

    method DiffRecursiveKey(before: Json, after: Json, k: string, path: seq<string>, skip: set<string>)
      requires before.Obj? && after.Obj? && (k in before.fields || k in after.fields)
      modifies this
      ensures items == old(items) + Rows(path, KeyDiff(before, after, k, skip))
      decreases before, 0
    {
      if k in before.fields && k in after.fields {
        DiffRecursive(before.fields[k], after.fields[k], path + [k], skip);
        RowsUnder(path, k, Diff(before.fields[k], after.fields[k], skip));
      } else if k in before.fields {
        items := items + [RowChange(Join('.', path + [k]), Some(before.fields[k]), None)];
      } else {
        items := items + [RowChange(Join('.', path + [k]), None, Some(after.fields[k]))];
      }
    }

    method Emit(before: Json, after: Json, path: seq<string>)
      modifies this
      ensures items == old(items) + Rows(path, [KeyChange([], Some(before), Some(after))])
    {
      assert path + [] == path;
      items := items + [RowChange(Join('.', path), Some(before), Some(after))];
    }
  }

  /** _compute_changes */
  method ComputeChanges(before: Json, after: Json) returns (results: seq<RowChange>)
    ensures results == Rows([], Diff(before, after, DB_SKIP))
  {
    var list := new RowList();
    list.DiffRecursive(before, after, [], DB_SKIP);
    results := list.items;
  }

  /** The list `out` that _recurse appends to. */
  class ChangeList {
    var items: seq<Change>

    constructor ()
      ensures items == []
    {
      items := [];
    }

    /** _recurse */
    method Recurse(before: Json, after: Json, path: seq<string>)
      modifies this
      ensures items == old(items) + (if SkippedPath(path, DIFF_SKIP) then [] else Records(path, Diff(before, after, DIFF_SKIP)))
      decreases before, 2
    {
      if SkippedPath(path, DIFF_SKIP) { return; }
      if before.Obj? && after.Obj? {
        var keys := SortedKeys(before.fields.Keys + after.fields.Keys);
        RecurseKeys(before, after, keys, path);
      } else if before.Arr? && after.Arr? {
        if before != after { Emit(before, after, path); }
      } else if !PyEq(before, after) {
        Emit(before, after, path);
      }
    }

    method RecurseKeys(before: Json, after: Json, keys: seq<string>, path: seq<string>)
      requires before.Obj? && after.Obj? && forall k :: k in keys ==> k in before.fields || k in after.fields
      modifies this
      ensures items == old(items) + Records(path, KeysDiff(before, after, keys, DIFF_SKIP))
      decreases before, 1
    {
      ghost var done := [];
      for i := 0 to |keys|
        invariant done == Records(path, KeysDiff(before, after, keys[..i], DIFF_SKIP))
        invariant items == old(items) + done
      {
        assert keys[i] in keys;
        RecurseKey(before, after, keys[i], path);
        ghost var step := Records(path, KeyDiff(before, after, keys[i], DIFF_SKIP));
        OneMoreKey(path, before, after, keys, i, DIFF_SKIP);
        AppendAssoc(old(items), done, step);
        done := done + step;
      }
      assert keys[..|keys|] == keys;
    }

    method RecurseKey(before: Json, after: Json, k: string, path: seq<string>)
      requires before.Obj? && after.Obj? && (k in before.fields || k in after.fields)
      modifies this
      ensures items == old(items) + Records(path, KeyDiff(before, after, k, DIFF_SKIP))
      decreases before, 0
    {
      if k in before.fields && k in after.fields {
        Recurse(before.fields[k], after.fields[k], path + [k]);
        RowsUnder(path, k, Diff(before.fields[k], after.fields[k], DIFF_SKIP));
      } else if k in before.fields {
        items := items + [Change(Join('.', path + [k]), before.fields[k], Null, Removed)];
      } else {
        items := items + [Change(Join('.', path + [k]), Null, after.fields[k], Added)];
      }
    }

    method Emit(before: Json, after: Json, path: seq<string>)
      modifies this
      ensures items == old(items) + Records(path, [KeyChange([], Some(before), Some(after))])
    {
      assert path + [] == path;
      items := items + [Change(Join('.', path), before, after, Changed)];
    }
  }

  /** diff_assessments */
  method DiffAssessments(before: Json, after: Json) returns (changes: seq<Change>)
    ensures changes == Records([], Diff(before, after, DIFF_SKIP))
  {
    var list := new ChangeList();
    list.Recurse(before, after, []);
    changes := list.items;
  }

  // ---- the two implementations compared ----

  function RowOf(c: Change): RowChange {
    RowChange(c.path, if c.kind == Added then None else Some(c.oldValue), if c.kind == Removed then None else Some(c.newValue))
  }

  function RowsOf(cs: seq<Change>): seq<RowChange> {
    if cs == [] then [] else [RowOf(cs[0])] + RowsOf(cs[1..])
  }

  /** No change is without both sides. */
  ghost predicate HaveASide(cs: seq<KeyChange>) {
    forall c :: c in cs ==> c.before.Some? || c.after.Some?
  }

  lemma {:induction false} KeysDiffHaveASide(a: Json, b: Json, ks: seq<string>, skip: set<string>)
    requires a.Obj? && b.Obj?
    ensures HaveASide(KeysDiff(a, b, ks, skip))
    decreases a, 1, |ks|
  {
    if ks != [] {
      var k := ks[0];
      KeysDiffHaveASide(a, b, ks[1..], skip);
      if k in a.fields && k in b.fields && k !in skip {
        DiffHaveASide(a.fields[k], b.fields[k], skip);
        UnderMembers(k, Diff(a.fields[k], b.fields[k], skip));
      }
      assert HaveASide(KeyDiff(a, b, k, skip));
    }
  }

  lemma {:induction false} DiffHaveASide(a: Json, b: Json, skip: set<string>)
    ensures HaveASide(Diff(a, b, skip))
    decreases a, 2, 0
  {
    if a.Obj? && b.Obj? { KeysDiffHaveASide(a, b, SortedKeys(a.fields.Keys + b.fields.Keys), skip); }
  }

  lemma {:induction false} RowsOfRecords(path: seq<string>, cs: seq<KeyChange>)
    requires HaveASide(cs)
    ensures RowsOf(Records(path, cs)) == Rows(path, cs) && |Rows(path, cs)| == |cs|
  {
    if cs != [] {
      assert cs[0] in cs;
      RowsOfRecords(path, cs[1..]);
    }
  }

  /** The two implementations record the same changes exactly when no `collector_version` that both documents
      have in the same place differs. */
  lemma ImplementationsAgree(a: Json, b: Json)
    ensures Rows([], Diff(a, b, DB_SKIP)) == RowsOf(Records([], Diff(a, b, DIFF_SKIP)))
      <==> Unaffected(a, b, DB_SKIP, "collector_version")
  {
    assert DIFF_SKIP == DB_SKIP + {"collector_version"};
    DiffHaveASide(a, b, DB_SKIP);
    DiffHaveASide(a, b, DIFF_SKIP);
    RowsOfRecords([], Diff(a, b, DB_SKIP));
    RowsOfRecords([], Diff(a, b, DIFF_SKIP));
    MoreSkipped(a, b, DB_SKIP, "collector_version");
  }

  /** Two documents on which they disagree. */
  lemma CollectorVersionDisagrees()
    ensures var a, b := Obj(map["collector_version" := Int(1)]), Obj(map["collector_version" := Int(2)]);
      Rows([], Diff(a, b, DB_SKIP)) != RowsOf(Records([], Diff(a, b, DIFF_SKIP)))
  {
    var key := "collector_version";
    var a, b := Obj(map[key := Int(1)]), Obj(map[key := Int(2)]);
    VersionIsKept();
    assert key in a.fields && !EqUpTo(DB_SKIP, a.fields[key], b.fields[key]);
    ImplementationsAgree(a, b);
  }

  lemma VersionIsKept()
    ensures "collector_version" !in DB_SKIP
  {
    var key := "collector_version";
    assert key[0] == 'c' && "timestamp"[0] == 't' && "stored_at"[0] == 's' && "schema_version"[0] == 's';
  }

  ghost predicate LacksKey(a: Json, key: string) {
    a.Obj? ==> key !in a.fields && forall k :: k in a.fields ==> LacksKey(a.fields[k], key)
  }

  /** In particular they agree on documents without that key. */
  lemma {:induction false} LackingKeyIsUnaffected(a: Json, b: Json, skip: set<string>, key: string)
    requires LacksKey(a, key) || LacksKey(b, key)
    ensures Unaffected(a, b, skip, key)
  {
    if a.Obj? && b.Obj? {
      forall k | k in a.fields && k in b.fields && k !in skip && k != key
        ensures Unaffected(a.fields[k], b.fields[k], skip, key)
      {
        LackingKeyIsUnaffected(a.fields[k], b.fields[k], skip, key);
      }
    }
  }
}
