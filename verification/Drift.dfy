// Field-level drift between two manifests, and the documentation fields it makes stale.

module Drift {
  import opened DriftPaths
  import opened JsonValues
  import opened Options
  import opened Sorting
  import opened Text

  predicate IsLeaf(v: Json) {
    !v.Arr? && !v.Obj?
  }

  predicate LeafAt(doc: Json, loc: seq<Step>, v: Json) {
    IsLeaf(v) && ValueAt(doc, loc) == Some(v)
  }

  // ---- flattening ----

  ghost predicate ComesFrom(doc: Json, prefix: string, path: string, v: Json) {
    exists loc :: LeafAt(doc, loc, v) && path == PathFrom(prefix, loc)
  }

  /** Every item is a leaf under its own path, and every leaf's path is there. */
  ghost predicate IsFlat(items: map<string, Json>, doc: Json, prefix: string) {
    && (forall path :: path in items ==> ComesFrom(doc, prefix, path, items[path]))
    && (forall loc, v :: LeafAt(doc, loc, v) ==> PathFrom(prefix, loc) in items)
  }

  /** The same, for the leaves below some first steps only. */
  ghost predicate IsFlatBelow(items: map<string, Json>, doc: Json, prefix: string, steps: set<Step>) {
    && (forall path :: path in items ==> ComesFrom(doc, prefix, path, items[path]))
    && (forall loc, v :: loc != [] && loc[0] in steps && LeafAt(doc, loc, v) ==> PathFrom(prefix, loc) in items)
  }

  lemma BelowStep(doc: Json, step: Step, loc: seq<Step>)
    ensures var child := ValueAt(doc, [step]);
      ValueAt(doc, [step] + loc) == if child.Some? then ValueAt(child.value, loc) else None
  {
    assert ([step] + loc)[1..] == loc && [step][1..] == [];
  }

  lemma PathBelow(prefix: string, step: Step, loc: seq<Step>)
    ensures PathFrom(prefix, [step] + loc) == PathFrom(Extend(prefix, step), loc)
  {
    assert ([step] + loc)[1..] == loc;
  }

  /** Adding the items of one child. */
  lemma AddChild(items: map<string, Json>, doc: Json, prefix: string, steps: set<Step>, step: Step, child: Json, more: map<string, Json>)
    requires IsFlatBelow(items, doc, prefix, steps) && ValueAt(doc, [step]) == Some(child)
    requires IsFlat(more, child, Extend(prefix, step))
    ensures IsFlatBelow(items + more, doc, prefix, steps + {step})
  {
    forall path | path in more ensures ComesFrom(doc, prefix, path, more[path]) {
      var loc :| LeafAt(child, loc, more[path]) && path == PathFrom(Extend(prefix, step), loc);
      BelowStep(doc, step, loc);
      PathBelow(prefix, step, loc);
      assert LeafAt(doc, [step] + loc, more[path]);
    }
    forall loc, v | loc != [] && loc[0] == step && LeafAt(doc, loc, v) ensures PathFrom(prefix, loc) in more {
      assert loc == [step] + loc[1..];
      BelowStep(doc, step, loc[1..]);
      PathBelow(prefix, step, loc[1..]);
      assert LeafAt(child, loc[1..], v);
    }
  }

  lemma AllChildren(items: map<string, Json>, doc: Json, prefix: string, steps: set<Step>)
    requires IsFlatBelow(items, doc, prefix, steps) && !IsLeaf(doc)
    requires forall step :: ValueAt(doc, [step]).Some? ==> step in steps
    ensures IsFlat(items, doc, prefix)
  {
    forall loc, v | LeafAt(doc, loc, v) ensures PathFrom(prefix, loc) in items {
      assert loc != [];
      assert loc == [loc[0]] + loc[1..];
      BelowStep(doc, loc[0], loc[1..]);
    }
  }

  lemma OnlyStep(doc: Json, step: Step)
    ensures ValueAt(doc, [step]) == match step
      case Field(k) => if doc.Obj? && k in doc.fields then Some(doc.fields[k]) else None
      case Item(i) => if doc.Arr? && i < |doc.items| then Some(doc.items[i]) else None
  {
    assert [step][1..] == [];
  }

  method Flatten(obj: Json, prefix: string) returns (items: map<string, Json>)
    ensures IsFlat(items, obj, prefix)
    decreases obj, 1
  {
    if obj.Obj? {
      items := FlattenFields(obj, prefix);
    } else if obj.Arr? {
      items := FlattenItems(obj, prefix);
    } else {
      items := map[prefix := obj];
      FlatLeaf(obj, prefix);
    }
  }

  lemma FlatLeaf(obj: Json, prefix: string)
    requires IsLeaf(obj)
    ensures IsFlat(map[prefix := obj], obj, prefix)
  {
    assert LeafAt(obj, [], obj) && PathFrom(prefix, []) == prefix;
    assert forall loc, v :: LeafAt(obj, loc, v) ==> loc == [];
  }

  method FlattenFields(obj: Json, prefix: string) returns (items: map<string, Json>)
    requires obj.Obj?
    ensures IsFlat(items, obj, prefix)
    decreases obj, 0
  {
    items := map[];
    var todo := obj.fields.Keys;
    ghost var steps: set<Step> := {};
    while todo != {}
      invariant todo <= obj.fields.Keys
      invariant IsFlatBelow(items, obj, prefix, steps)
      invariant forall k :: k in obj.fields && k !in todo ==> Field(k) in steps
      decreases |todo|
    {
      var k :| k in todo;
      var more := Flatten(obj.fields[k], Extend(prefix, Field(k)));
      OnlyStep(obj, Field(k));
      AddChild(items, obj, prefix, steps, Field(k), obj.fields[k], more);
      items, todo, steps := items + more, todo - {k}, steps + {Field(k)};
    }
    forall step | ValueAt(obj, [step]).Some? ensures step in steps { OnlyStep(obj, step); }
    AllChildren(items, obj, prefix, steps);
  }

  method FlattenItems(obj: Json, prefix: string) returns (items: map<string, Json>)
    requires obj.Arr?
    ensures IsFlat(items, obj, prefix)
    decreases obj, 0
  {
    items := map[];
    ghost var steps: set<Step> := {};
    for i := 0 to |obj.items|
      invariant IsFlatBelow(items, obj, prefix, steps)
      invariant forall j: nat :: j < i ==> Item(j) in steps
    {
      var more := Flatten(obj.items[i], Extend(prefix, Item(i)));
      OnlyStep(obj, Item(i));
      AddChild(items, obj, prefix, steps, Item(i), obj.items[i], more);
      items, steps := items + more, steps + {Item(i)};
    }
    forall step | ValueAt(obj, [step]).Some? ensures step in steps { OnlyStep(obj, step); }
    AllChildren(items, obj, prefix, steps);
  }

  // ---- documents whose keys cannot be confused with path syntax ----

  ghost predicate CleanDoc(doc: Json) {
    && (doc.Obj? ==> forall k :: k in doc.fields ==> CleanKey(k) && CleanDoc(doc.fields[k]))
    && (doc.Arr? ==> forall i :: 0 <= i < |doc.items| ==> CleanDoc(doc.items[i]))
  }

  lemma {:induction false} CleanAddress(doc: Json, loc: seq<Step>)
    requires CleanDoc(doc) && ValueAt(doc, loc).Some?
    ensures Clean(loc)
  {
    if loc != [] {
      assert loc == [loc[0]] + loc[1..];
      BelowStep(doc, loc[0], loc[1..]);
      OnlyStep(doc, loc[0]);
      CleanAddress(ValueAt(doc, [loc[0]]).value, loc[1..]);
    }
  }

  /** In a clean document the item under a leaf's path is that leaf, and nothing else has the path. */
  lemma FlatIsLeaves(items: map<string, Json>, doc: Json, loc: seq<Step>)
    requires CleanDoc(doc) && IsFlat(items, doc, "") && Clean(loc)
    ensures PathOf(loc) in items <==> exists v :: LeafAt(doc, loc, v)
    ensures PathOf(loc) in items ==> LeafAt(doc, loc, items[PathOf(loc)])
  {
    if PathOf(loc) in items {
      var from :| LeafAt(doc, from, items[PathOf(loc)]) && PathOf(loc) == PathFrom("", from);
      CleanAddress(doc, from);
      PathInjective(from, loc);
    }
  }

  // ---- the drift record ----

  datatype Severity = Low | Medium | High

  /** A missing side is recorded as null. */
  datatype Record = Record(path: string, fromValue: Json, toValue: Json, severity: Severity)

  predicate Skipped(path: string) {
    Split('.', path)[0] in {"schema_version", "collected_at", "assessment_tier"}
  }

  function SeverityOf(path: string): Severity {
    var low := Lower(path);
    if Contains(low, "ip") || Contains(low, "hostname") || Contains(low, "address") || Contains(low, "gateway")
       || Contains(low, "nameserver") then High
    else if Contains(low, "version") || Contains(low, "release") || Contains(low, "kernel") || Contains(low, "pve_version") then Medium
    else Low
  }

  function SideOf(flat: map<string, Json>, path: string): Json {
    if path in flat then flat[path] else Null
  }

  /** A path on one side only, or with values that are not equal. */
  predicate Changed(a: map<string, Json>, b: map<string, Json>, path: string) {
    (path in a || path in b) && !(path in a && path in b && PyEq(a[path], b[path]))
  }

  predicate Drifts(a: map<string, Json>, b: map<string, Json>, path: string) {
    !Skipped(path) && Changed(a, b, path)
  }

  function RecordOf(a: map<string, Json>, b: map<string, Json>, path: string): (r: Record)
    ensures r.path == path
  {
    Record(path, SideOf(a, path), SideOf(b, path), if path in a && path in b then SeverityOf(path) else Low)
  }

  /** The records of the paths that pass the test, in order. */
  function RecordsOf(drifts: string -> bool, record: string -> Record, paths: seq<string>): seq<Record> {
    if paths == [] then []
    else
      RecordsOf(drifts, record, paths[..|paths| - 1]) + if drifts(paths[|paths| - 1]) then [record(paths[|paths| - 1])] else []
  }

  function Rank(s: Severity): nat {
    match s case Low => 1 case Medium => 2 case High => 3
  }

  ghost predicate IsWorst(s: Severity, diffs: seq<Record>) {
    && (forall d :: d in diffs ==> Rank(d.severity) <= Rank(s))
    && (s == Low || exists d :: d in diffs && d.severity == s)
  }

  /** Exactly the paths that pass, once each and in order, each with its own record. */
  ghost predicate AreRecords(diffs: seq<Record>, drifts: string -> bool, record: string -> Record) {
    && (forall i, j :: 0 <= i < j < |diffs| ==> diffs[i].path != diffs[j].path && StrLe(diffs[i].path, diffs[j].path))
    && (forall d :: d in diffs ==> drifts(d.path) && d == record(d.path))
    && (forall p :: drifts(p) ==> record(p) in diffs)
  }

  ghost predicate IsDrift(diffs: seq<Record>, a: map<string, Json>, b: map<string, Json>) {
    && (forall i, j :: 0 <= i < j < |diffs| ==> diffs[i].path != diffs[j].path && StrLe(diffs[i].path, diffs[j].path))
    && (forall d :: d in diffs ==> Drifts(a, b, d.path) && d == RecordOf(a, b, d.path))
    && (forall p {:trigger RecordOf(a, b, p)} :: Drifts(a, b, p) ==> RecordOf(a, b, p) in diffs)
  }

  lemma DriftFromRecords(diffs: seq<Record>, a: map<string, Json>, b: map<string, Json>, drifts: string -> bool, record: string -> Record)
    requires AreRecords(diffs, drifts, record)
    requires forall p :: drifts(p) == Drifts(a, b, p) && record(p) == RecordOf(a, b, p)
    ensures IsDrift(diffs, a, b)
  {
    forall p | Drifts(a, b, p) ensures RecordOf(a, b, p) in diffs { assert drifts(p); }
  }

  lemma {:induction false} RecordsOfPaths(drifts: string -> bool, record: string -> Record, paths: seq<string>)
    requires forall p :: record(p).path == p
    ensures forall d :: d in RecordsOf(drifts, record, paths) <==> d.path in paths && drifts(d.path) && d == record(d.path)
  {
    if paths != [] {
      RecordsOfPaths(drifts, record, paths[..|paths| - 1]);
      assert paths == paths[..|paths| - 1] + [paths[|paths| - 1]];
    }
  }

  ghost predicate PathsInOrder(ds: seq<Record>) {
    forall i, j :: 0 <= i < j < |ds| ==> ds[i].path != ds[j].path && StrLe(ds[i].path, ds[j].path)
  }

  lemma {:induction false} RecordsInOrder(drifts: string -> bool, record: string -> Record, paths: seq<string>)
    requires (forall p :: record(p).path == p) && Distinct(paths) && SortedBy(paths, StrLe)
    ensures PathsInOrder(RecordsOf(drifts, record, paths))
  {
    if paths != [] {
      var init, last := paths[..|paths| - 1], paths[|paths| - 1];
      RecordsInOrder(drifts, record, init);
      RecordsOfPaths(drifts, record, init);
      var before := RecordsOf(drifts, record, init);
      forall i | 0 <= i < |before| ensures before[i].path != last && StrLe(before[i].path, last) {
        assert before[i] in before;
        var k :| 0 <= k < |init| && init[k] == before[i].path;
        assert paths[k] == init[k];
      }
      assert PathsInOrder(before + [record(last)]);
    }
  }

  lemma RecordsAreRecords(drifts: string -> bool, record: string -> Record, paths: seq<string>)
    requires (forall p :: record(p).path == p) && Distinct(paths) && SortedBy(paths, StrLe)
    requires forall p :: drifts(p) ==> p in paths
    ensures AreRecords(RecordsOf(drifts, record, paths), drifts, record)
  {
    RecordsOfPaths(drifts, record, paths);
    RecordsInOrder(drifts, record, paths);
  }

  method ComputeDrift(fromManifest: Json, toManifest: Json)
    returns (diffs: seq<Record>, severity: Severity, ghost a: map<string, Json>, ghost b: map<string, Json>)
    ensures IsFlat(a, fromManifest, "") && IsFlat(b, toManifest, "")
    ensures IsDrift(diffs, a, b) && IsWorst(severity, diffs)
  {
    var fromFlat := Flatten(fromManifest, "");
    var toFlat := Flatten(toManifest, "");
    a, b := fromFlat, toFlat;
    var paths := SortedKeys(set p | p in fromFlat.Keys + toFlat.Keys && !Skipped(p));
    var drifts, record := p => Drifts(fromFlat, toFlat, p), p => RecordOf(fromFlat, toFlat, p);
    diffs := CollectRecords(drifts, record, paths);
    RecordsAreRecords(drifts, record, paths);
    DriftFromRecords(diffs, fromFlat, toFlat, drifts, record);
    severity := WorstSeverity(diffs);
  }

  method CollectRecords(drifts: string -> bool, record: string -> Record, paths: seq<string>) returns (diffs: seq<Record>)
    ensures diffs == RecordsOf(drifts, record, paths)
  {
    diffs := [];
    for i := 0 to |paths|
      invariant diffs == RecordsOf(drifts, record, paths[..i])
    {
      assert paths[..i + 1][..i] == paths[..i];
      if drifts(paths[i]) { diffs := diffs + [record(paths[i])]; }
    }
    assert paths[..|paths|] == paths;
  }

  method WorstSeverity(diffs: seq<Record>) returns (overall: Severity)
    ensures IsWorst(overall, diffs)
  {
    overall := Low;
    for i := 0 to |diffs|
      invariant IsWorst(overall, diffs[..i])
    {
      assert diffs[..i + 1] == diffs[..i] + [diffs[i]];
      if Rank(diffs[i].severity) > Rank(overall) { overall := diffs[i].severity; }
    }
    assert diffs[..|diffs|] == diffs;
  }

  // ---- records are leaves that differ ----

  ghost predicate HasLeaf(doc: Json, loc: seq<Step>) {
    exists v :: LeafAt(doc, loc, v)
  }

  /** One document has a leaf there and the other has none, or they have leaves that are not equal. */
  ghost predicate LeafDiffers(from: Json, to: Json, loc: seq<Step>) {
    && (HasLeaf(from, loc) || HasLeaf(to, loc))
    && !(exists v, w :: LeafAt(from, loc, v) && LeafAt(to, loc, w) && PyEq(v, w))
  }

  lemma ChangedIffLeafDiffers(from: Json, to: Json, a: map<string, Json>, b: map<string, Json>, loc: seq<Step>, path: string)
    requires path in a <==> HasLeaf(from, loc)
    requires path in b <==> HasLeaf(to, loc)
    requires path in a ==> LeafAt(from, loc, a[path])
    requires path in b ==> LeafAt(to, loc, b[path])
    ensures Changed(a, b, path) <==> LeafDiffers(from, to, loc)
  {
  }

  /** Clean documents: a path drifts exactly when the leaves at its address differ. */
  lemma DriftsIffLeafDiffers(from: Json, to: Json, a: map<string, Json>, b: map<string, Json>, loc: seq<Step>)
    requires CleanDoc(from) && CleanDoc(to) && IsFlat(a, from, "") && IsFlat(b, to, "") && Clean(loc)
    ensures Drifts(a, b, PathOf(loc)) <==> !Skipped(PathOf(loc)) && LeafDiffers(from, to, loc)
  {
    FlatIsLeaves(a, from, loc);
    FlatIsLeaves(b, to, loc);
    ChangedIffLeafDiffers(from, to, a, b, loc, PathOf(loc));
  }

  /** Every drifting path is the path of exactly one address. */
  lemma DriftingAddress(from: Json, to: Json, a: map<string, Json>, b: map<string, Json>, path: string) returns (loc: seq<Step>)
    requires CleanDoc(from) && CleanDoc(to) && IsFlat(a, from, "") && IsFlat(b, to, "") && Drifts(a, b, path)
    ensures Clean(loc) && path == PathOf(loc) && LeafDiffers(from, to, loc)
    ensures forall other :: Clean(other) && PathOf(other) == path ==> other == loc
  {
    if path in a {
      loc :| LeafAt(from, loc, a[path]) && path == PathFrom("", loc);
      CleanAddress(from, loc);
    } else {
      loc :| LeafAt(to, loc, b[path]) && path == PathFrom("", loc);
      CleanAddress(to, loc);
    }
    DriftsIffLeafDiffers(from, to, a, b, loc);
    forall other | Clean(other) && PathOf(other) == path ensures other == loc { PathInjective(other, loc); }
  }

  /** Nothing is recorded exactly when no leaf differs, skipped fields aside. */
  lemma NoDriftIff(from: Json, to: Json, a: map<string, Json>, b: map<string, Json>, diffs: seq<Record>)
    requires CleanDoc(from) && CleanDoc(to) && IsFlat(a, from, "") && IsFlat(b, to, "") && IsDrift(diffs, a, b)
    ensures diffs == [] <==> forall loc :: Clean(loc) && LeafDiffers(from, to, loc) ==> Skipped(PathOf(loc))
  {
    if diffs == [] {
      forall loc | Clean(loc) && LeafDiffers(from, to, loc) ensures Skipped(PathOf(loc)) {
        DriftsIffLeafDiffers(from, to, a, b, loc);
        assert !(RecordOf(a, b, PathOf(loc)) in diffs);
      }
    } else {
      assert diffs[0] in diffs;
      var loc := DriftingAddress(from, to, a, b, diffs[0].path);
    }
  }

  /** Empty containers leave no trace: these two documents differ and nothing is recorded. */
  lemma EmptyContainersAreInvisible(a: map<string, Json>, b: map<string, Json>, diffs: seq<Record>)
    requires IsFlat(a, Obj(map["k" := Obj(map[])]), "") && IsFlat(b, Obj(map[]), "") && IsDrift(diffs, a, b)
    ensures diffs == [] && !PyEq(Obj(map["k" := Obj(map[])]), Obj(map[]))
  {
    var from, to := Obj(map["k" := Obj(map[])]), Obj(map[]);
    forall loc, v ensures !LeafAt(from, loc, v) { NoLeavesBelow(loc); }
    assert a == map[] && b == map[];
    SomeMember(diffs);
    assert "k" in from.fields && "k" !in to.fields;
  }

  lemma SomeMember<T>(s: seq<T>)
    ensures s != [] ==> exists x :: x in s
  {
    if s != [] { assert s[0] in s; }
  }

  lemma NoLeavesBelow(loc: seq<Step>)
    ensures ValueAt(Obj(map["k" := Obj(map[])]), loc).Some? ==> !IsLeaf(ValueAt(Obj(map["k" := Obj(map[])]), loc).value)
  {
    if loc != [] && loc[1..] != [] {
      assert ValueAt(Obj(map[]), loc[1..]).None?;
    }
  }

  // ---- documentation fields ----

  ghost predicate IsStale(diffs: seq<Record>, mapped: string) {
    exists d :: d in diffs && Matches(d.path, mapped)
  }

  ghost function Stale(diffs: seq<Record>, fieldMap: seq<(string, string)>): seq<string> {
    if fieldMap == [] then []
    else
      Stale(diffs, fieldMap[..|fieldMap| - 1])
      + if IsStale(diffs, fieldMap[|fieldMap| - 1].0) then [fieldMap[|fieldMap| - 1].1] else []
  }

  method AnyMatches(diffs: seq<Record>, mapped: string) returns (found: bool)
    ensures found <==> IsStale(diffs, mapped)
  {
    for i := 0 to |diffs|
      invariant forall j :: 0 <= j < i ==> !Matches(diffs[j].path, mapped)
    {
      if Matches(diffs[i].path, mapped) { return true; }
    }
    found := false;
  }

  method DocFieldDrift(diffs: seq<Record>, fieldMap: seq<(string, string)>) returns (stale: seq<string>)
    ensures stale == Stale(diffs, fieldMap)
  {
    stale := [];
    for i := 0 to |fieldMap|
      invariant stale == Stale(diffs, fieldMap[..i])
    {
      assert fieldMap[..i + 1][..i] == fieldMap[..i];
      var found := AnyMatches(diffs, fieldMap[i].0);
      if found { stale := stale + [fieldMap[i].1]; }
    }
    assert fieldMap[..|fieldMap|] == fieldMap;
  }

  /** A mapped field is stale exactly when some recorded leaf lies at or below its address. */
  lemma StaleIffBelow(from: Json, to: Json, a: map<string, Json>, b: map<string, Json>, diffs: seq<Record>, mapped: seq<Step>)
    requires CleanDoc(from) && CleanDoc(to) && IsFlat(a, from, "") && IsFlat(b, to, "") && IsDrift(diffs, a, b)
    requires Clean(mapped) && mapped != []
    ensures IsStale(diffs, PathOf(mapped))
       <==> exists loc :: Clean(loc) && mapped <= loc && LeafDiffers(from, to, loc) && !Skipped(PathOf(loc))
  {
    if IsStale(diffs, PathOf(mapped)) { var loc := StaleNeedsLeaf(from, to, a, b, diffs, mapped); }
    if loc :| Clean(loc) && mapped <= loc && LeafDiffers(from, to, loc) && !Skipped(PathOf(loc)) {
      LeafMakesStale(from, to, a, b, diffs, mapped, loc);
    }
  }

  lemma StaleNeedsLeaf(from: Json, to: Json, a: map<string, Json>, b: map<string, Json>, diffs: seq<Record>, mapped: seq<Step>)
    returns (loc: seq<Step>)
    requires CleanDoc(from) && CleanDoc(to) && IsFlat(a, from, "") && IsFlat(b, to, "") && IsDrift(diffs, a, b)
    requires Clean(mapped) && mapped != [] && IsStale(diffs, PathOf(mapped))
    ensures Clean(loc) && mapped <= loc && LeafDiffers(from, to, loc) && !Skipped(PathOf(loc))
  {
    var d :| d in diffs && Matches(d.path, PathOf(mapped));
    loc := DriftingAddress(from, to, a, b, d.path);
    MatchesIffBelow(loc, mapped);
  }

  lemma LeafMakesStale(from: Json, to: Json, a: map<string, Json>, b: map<string, Json>, diffs: seq<Record>,
                       mapped: seq<Step>, loc: seq<Step>)
    requires CleanDoc(from) && CleanDoc(to) && IsFlat(a, from, "") && IsFlat(b, to, "") && IsDrift(diffs, a, b)
    requires Clean(mapped) && mapped != [] && Clean(loc) && mapped <= loc && LeafDiffers(from, to, loc) && !Skipped(PathOf(loc))
    ensures IsStale(diffs, PathOf(mapped))
  {
    DriftsIffLeafDiffers(from, to, a, b, loc);
    MatchesIffBelow(loc, mapped);
    assert RecordOf(a, b, PathOf(loc)) in diffs;
  }
}
