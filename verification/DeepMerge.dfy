// The in-place merge on mutable dictionaries that share no parts.

module DeepMerge {
  import opened JsonValues
  import opened MergeSpec

  /** A dictionary's value: a nested dictionary, or anything else by value. */
  datatype Node = Leaf(value: Json) | Dict(d: JDict)

  // Predicates that are only unfolded where these are mentioned.
  ghost predicate ShowValid(u: bool) { true }

  ghost predicate ShowPending(u: bool) { true }

  class JDict {
    var entries: map<string, Node>
    ghost var Repr: set<JDict>

    /** `{}` */
    constructor ()
      ensures Valid() && fresh(this) && Repr == {this} && Value() == Obj(map[])
    {
      entries, Repr := map[], {this};
    }

    ghost predicate Valid()
      reads this, Repr
      decreases Repr
    {
      && this in Repr
      && forall u {:trigger ShowValid(u)} :: ShowValid(u) ==>
           && (forall k :: k in entries ==> ValidPart(entries[k]))
           && (forall j, k :: j in entries && k in entries && j != k ==> Apart(entries[j], entries[k]))
    }

    ghost predicate ValidPart(n: Node)
      reads this, Repr
      requires this in Repr
      decreases Repr, 0
    {
      match n
      case Leaf(v) => !v.Obj?
      case Dict(d) => d in Repr && d in d.Repr && this !in d.Repr && d.Repr <= Repr && d.Valid()
    }

    ghost function Value(): (v: Json)
      requires Valid()
      reads this, Repr
      ensures v.Obj? && v.fields.Keys == entries.Keys
      decreases Repr
    {
      assert ShowValid(true);
      Obj(map k | k in entries :: match entries[k] case Leaf(v) => v case Dict(d) => assert ValidPart(entries[k]); d.Value())
    }
  }

  ghost predicate Apart(a: Node, b: Node)
    reads if a.Dict? then {a.d} else {}, if b.Dict? then {b.d} else {}
  {
    a.Dict? && b.Dict? ==> a.d.Repr !! b.d.Repr
  }

  ghost function Parts(n: Node): set<JDict>
    reads if n.Dict? then {n.d} else {}
  {
    if n.Dict? then n.d.Repr else {}
  }

  ghost predicate Good(n: Node)
    reads Parts(n), if n.Dict? then {n.d} else {}
  {
    if n.Dict? then n.d.Valid() else !n.value.Obj?
  }

  ghost function ValueOf(n: Node): Json
    requires Good(n)
    reads Parts(n), if n.Dict? then {n.d} else {}
  {
    if n.Dict? then n.d.Value() else n.value
  }

  lemma PartIsGood(base: JDict, k: string)
    requires base.Valid() && k in base.entries
    ensures Good(base.entries[k]) && Parts(base.entries[k]) <= base.Repr - {base}
    ensures base.Value().fields[k] == ValueOf(base.entries[k])
  {
    assert ShowValid(true);
    assert base.ValidPart(base.entries[k]);
  }

  /** Valid parts that share nothing make a valid dictionary with their values. */
  lemma Assemble(base: JDict, vals: map<string, Json>)
    requires base in base.Repr && vals.Keys == base.entries.Keys
    requires forall k :: k in base.entries ==> base.ValidPart(base.entries[k]) && ValueOf(base.entries[k]) == vals[k]
    requires forall j, k :: j in base.entries && k in base.entries && j != k ==> Apart(base.entries[j], base.entries[k])
    ensures base.Valid() && base.Value() == Obj(vals)
  {
    assert ShowValid(true);
    assert base.Value().fields == vals;
  }

  /** A node none of whose objects changed. */
  twostate lemma NodeStays(n: Node)
    requires old(Good(n)) && forall o :: o in old(Parts(n)) ==> unchanged(o)
    ensures Good(n) && Parts(n) == old(Parts(n)) && ValueOf(n) == old(ValueOf(n))
  {
    assert n.Dict? ==> old(n.d in n.d.Repr);
  }

  /** Sets one key to a node that shares nothing with the dictionary. */
  method SetKey(base: JDict, k: string, n: Node)
    requires base.Valid() && Good(n) && Parts(n) !! base.Repr
    modifies base
    ensures base.Valid() && base.Repr == old(base.Repr) + Parts(n)
    ensures base.entries == old(base.entries)[k := n]
    ensures base.Value() == Obj(old(base.Value()).fields[k := old(ValueOf(n))])
  {
    ghost var vals := base.Value().fields[k := ValueOf(n)];
    assert ShowValid(true);
    forall j | j in base.entries && j != k
      ensures Good(base.entries[j]) && Parts(base.entries[j]) <= base.Repr - {base} && ValueOf(base.entries[j]) == vals[j]
    {
      PartIsGood(base, j);
    }
    base.entries := base.entries[k := n];
    base.Repr := base.Repr + Parts(n);
    assert Good(n) && Parts(n) == old(Parts(n)) && ValueOf(n) == vals[k] by { NodeStays(n); }
    forall j | j in base.entries ensures base.ValidPart(base.entries[j]) && ValueOf(base.entries[j]) == vals[j] {
      if j != k { NodeStays(base.entries[j]); }
      PartValid(base, base.entries[j]);
    }
    Assemble(base, vals);
  }

  lemma PartValid(base: JDict, n: Node)
    requires base in base.Repr && Good(n) && Parts(n) <= base.Repr - {base}
    ensures base.ValidPart(n)
  {
  }

  /** What changes when key `k` is merged: the parts of a dictionary already there. */
  ghost function PartsAt(base: JDict, k: string): set<JDict>
    reads base, if k in base.entries && base.entries[k].Dict? then {base.entries[k].d} else {}
  {
    if k in base.entries then Parts(base.entries[k]) else {}
  }

  ghost function MergedAt(a: Json, k: string, b: Json): Json
    requires a.Obj?
  {
    Obj(a.fields[k := if k in a.fields then Merge(a.fields[k], b) else b])
  }

  /** Distinct children share no objects. */
  lemma ChildrenApart(base: JDict, j: string, k: string)
    requires base.Valid() && j in base.entries && k in base.entries && j != k
    ensures Parts(base.entries[j]) !! Parts(base.entries[k]) && (base.entries[j].Dict? ==> base.entries[j].d in Parts(base.entries[j]))
  {
    assert ShowValid(true);
    assert Apart(base.entries[j], base.entries[k]) && base.ValidPart(base.entries[j]);
  }

  /** A dictionary, the child being merged into, and two of its keys. */
  datatype Place = Place(base: JDict, k: string, i: string, j: string)

  /** After a child grew by objects new to the dictionary, every child fits into the grown dictionary and none share. */
  twostate lemma ChildrenFit(p: Place)
    requires old(p.base.Valid()) && p.k in p.base.entries && p.base.entries[p.k].Dict? && p.base.entries == old(p.base.entries)
    requires forall o :: o in old(p.base.Repr) && o !in old(p.base.entries[p.k].d.Repr) && o != p.base ==> unchanged(o)
    requires p.base.entries[p.k].d.Valid() && p.base.Repr == old(p.base.Repr) + p.base.entries[p.k].d.Repr
    requires p.base.entries[p.k].d.Repr * old(p.base.Repr) <= old(p.base.entries[p.k].d.Repr)
    requires p.i in p.base.entries && p.j in p.base.entries
    ensures p.base.ValidPart(p.base.entries[p.j])
    ensures ValueOf(p.base.entries[p.j])
         == if p.j == p.k then p.base.entries[p.k].d.Value() else old(p.base.Value()).fields[p.j]
    ensures p.i != p.j ==> Apart(p.base.entries[p.i], p.base.entries[p.j])
  {
    assert ShowValid(true);
    var entries := p.base.entries;
    assert old(p.base.ValidPart(entries[p.i]) && p.base.ValidPart(entries[p.j]) && p.base.ValidPart(entries[p.k]));
    assert p.i != p.j ==> old(Apart(entries[p.i], entries[p.j]));
    assert p.i != p.k ==> old(Apart(entries[p.i], entries[p.k]));
    assert p.j != p.k ==> old(Apart(entries[p.j], entries[p.k]));
    PartValid(p.base, entries[p.j]);
  }

  /** So the dictionary is valid again, with the child's new value. */
  twostate lemma ChildGrew(p: Place)
    requires old(p.base.Valid()) && p.k in p.base.entries && p.base.entries[p.k].Dict? && p.base.entries == old(p.base.entries)
    requires forall o :: o in old(p.base.Repr) && o !in old(p.base.entries[p.k].d.Repr) && o != p.base ==> unchanged(o)
    requires p.base.entries[p.k].d.Valid() && p.base.Repr == old(p.base.Repr) + p.base.entries[p.k].d.Repr
    requires p.base.entries[p.k].d.Repr * old(p.base.Repr) <= old(p.base.entries[p.k].d.Repr)
    ensures p.base.Valid() && p.base.Value() == Obj(old(p.base.Value()).fields[p.k := p.base.entries[p.k].d.Value()])
  {
    var base := p.base;
    var vals := old(base.Value()).fields[p.k := base.entries[p.k].d.Value()];
    forall i, j | i in base.entries && j in base.entries
      ensures base.ValidPart(base.entries[j]) && ValueOf(base.entries[j]) == vals[j]
      ensures i != j ==> Apart(base.entries[i], base.entries[j])
    {
      ChildrenFit(Place(base, p.k, i, j));
    }
    Assemble(base, vals);
  }

  method MergeChild(base: JDict, k: string, other: JDict)
    requires base.Valid() && other.Valid() && other.Repr !! base.Repr
    requires k in base.entries && base.entries[k].Dict?
    modifies base, PartsAt(base, k)
    ensures base.Valid() && base.Repr <= old(base.Repr) + other.Repr && base.entries == old(base.entries)
    ensures base.Value() == MergedAt(old(base.Value()), k, old(other.Value()))
    decreases other.Repr, 2
  {
    var child := base.entries[k].d;
    PartIsGood(base, k);
    DeepMergeInto(child, other);
    base.Repr := base.Repr + child.Repr;
    ChildGrew(Place(base, k, k, k));
  }

  method MergeKey(base: JDict, k: string, n: Node)
    requires base.Valid() && Good(n) && Parts(n) !! base.Repr
    modifies base, PartsAt(base, k)
    ensures base.Valid() && base.Repr <= old(base.Repr) + Parts(n)
    ensures base.Value() == MergedAt(old(base.Value()), k, old(ValueOf(n)))
    ensures forall j :: j in base.entries && j != k ==> j in old(base.entries) && base.entries[j] == old(base.entries[j])
    decreases Parts(n), 3
  {
    if k in base.entries && base.entries[k].Dict? && n.Dict? {
      MergeChild(base, k, n.d);
    } else {
      if k in base.entries { PartIsGood(base, k); }
      SetKey(base, k, n);
    }
  }

  ghost predicate ShowProgress(u: bool) { true }

  /** `v` is `a` with all keys of `b` merged but those still to do. */
  ghost predicate Progress(a: Json, b: Json, todo: set<string>, v: Json) {
    forall u {:trigger ShowProgress(u)} :: ShowProgress(u) ==>
      && a.Obj? && b.Obj? && v.Obj? && todo <= b.fields.Keys && v.fields.Keys == a.fields.Keys + (b.fields.Keys - todo)
      && forall k :: k in v.fields ==>
           v.fields[k] == if k in b.fields && k !in todo then (if k in a.fields then Merge(a.fields[k], b.fields[k]) else b.fields[k])
                          else a.fields[k]
  }

  lemma ProgressStarts(a: Json, b: Json)
    requires a.Obj? && b.Obj?
    ensures Progress(a, b, b.fields.Keys, a)
  {
  }

  lemma ProgressStep(a: Json, b: Json, todo: set<string>, v: Json, k: string)
    requires Progress(a, b, todo, v) && k in todo
    ensures v.Obj? && b.Obj? && k in b.fields && Progress(a, b, todo - {k}, MergedAt(v, k, b.fields[k]))
  {
    assert ShowProgress(true);
  }

  lemma ProgressEnds(a: Json, b: Json, v: Json)
    requires Progress(a, b, {}, v)
    ensures v == Merge(a, b)
  {
    assert ShowProgress(true);
    assert v.fields == Merge(a, b).fields;
  }

  /** What holds while keys are still to do: their parts are untouched on both sides. */
  ghost predicate Pending(base: JDict, override: JDict, todo: set<string>, reach: set<JDict>)
    reads base, override, base.Repr, override.Repr
  {
    && base.Valid() && override.Valid() && base in reach && reach !! override.Repr && base.Repr <= reach + override.Repr
    && forall u {:trigger ShowPending(u)} :: ShowPending(u) ==>
         && todo <= override.entries.Keys
         && (forall k :: k in todo ==> override.ValidPart(override.entries[k]) && Parts(override.entries[k]) !! base.Repr)
         && (forall k :: k in todo && k in base.entries ==> base.ValidPart(base.entries[k]) && Parts(base.entries[k]) <= reach)
  }

  lemma StartPending(base: JDict, override: JDict)
    requires base.Valid() && override.Valid() && base.Repr !! override.Repr
    ensures Pending(base, override, override.entries.Keys, base.Repr)
  {
    assert ShowValid(true);
    forall k | k in override.entries ensures Parts(override.entries[k]) <= override.Repr { PartIsGood(override, k); }
    forall k | k in base.entries ensures Parts(base.entries[k]) <= base.Repr { PartIsGood(base, k); }
  }

  lemma PendingReach(base: JDict, override: JDict, todo: set<string>, reach: set<JDict>, k: string)
    requires Pending(base, override, todo, reach) && k in todo
    ensures PartsAt(base, k) <= reach
  {
    assert ShowPending(true);
  }

  method MergeNext(base: JDict, override: JDict, k: string, ghost todo: set<string>, ghost reach: set<JDict>)
    requires Pending(base, override, todo, reach) && k in todo && k in override.entries
    modifies base, PartsAt(base, k)
    ensures Pending(base, override, todo - {k}, reach)
    ensures override.Value() == old(override.Value()) && override.entries == old(override.entries) && override.Repr == old(override.Repr)
    ensures base.Value() == MergedAt(old(base.Value()), k, old(override.Value()).fields[k])
    decreases override.Repr, 0
  {
    assert ShowPending(true);
    PartIsGood(override, k);
    forall j | j in todo && j != k ensures Parts(override.entries[j]) !! Parts(override.entries[k]) { ChildrenApart(override, j, k); }
    forall j | j in base.entries && j != k && k in base.entries ensures Parts(base.entries[j]) !! Parts(base.entries[k]) {
      ChildrenApart(base, j, k);
    }
    MergeKey(base, k, override.entries[k]);
    StillPending(base, override, todo - {k}, reach);
  }

  lemma StillPending(base: JDict, override: JDict, todo: set<string>, reach: set<JDict>)
    requires base.Valid() && override.Valid() && todo <= override.entries.Keys
    requires base in reach && reach !! override.Repr && base.Repr <= reach + override.Repr
    requires forall j :: j in todo ==> Parts(override.entries[j]) !! base.Repr
    requires forall j :: j in todo && j in base.entries ==> Parts(base.entries[j]) <= reach
    ensures Pending(base, override, todo, reach)
  {
    assert ShowValid(true);
  }

  method DeepMergeInto(base: JDict, override: JDict)
    requires base.Valid() && override.Valid() && base.Repr !! override.Repr
    modifies base.Repr
    ensures base.Valid() && base.Repr <= old(base.Repr) + override.Repr
    ensures base.Value() == Merge(old(base.Value()), old(override.Value()))
    decreases override.Repr, 1
  {
    var todo := override.entries.Keys;
    ghost var a, b, reach := base.Value(), override.Value(), base.Repr;
    StartPending(base, override);
    ProgressStarts(a, b);
    while todo != {}
      invariant Pending(base, override, todo, reach) && override.Value() == b
      invariant override.entries == old(override.entries) && override.Repr == old(override.Repr)
      invariant Progress(a, b, todo, base.Value())
      decreases |todo|
    {
      var k :| k in todo;
      ProgressStep(a, b, todo, base.Value(), k);
      PendingReach(base, override, todo, reach, k);
      MergeNext(base, override, k, todo, reach);
      todo := todo - {k};
    }
    ProgressEnds(a, b, base.Value());
  }

  // ---- the fold over the collectors' fragments ----

  /** Valid fragments with the given values that share nothing with the base or each other. */
  ghost predicate Separate(base: JDict, fragments: seq<JDict>, vals: seq<Json>)
    reads base, base.Repr, fragments, set f, o | f in fragments && o in f.Repr :: o
  {
    && base.Valid() && |vals| == |fragments|
    && forall u {:trigger ShowSeparate(u)} :: ShowSeparate(u) ==>
         && (forall i :: 0 <= i < |fragments| ==>
               fragments[i].Valid() && fragments[i].Value() == vals[i] && fragments[i].Repr !! base.Repr)
         && (forall i, j :: 0 <= i < j < |fragments| ==> fragments[i].Repr !! fragments[j].Repr)
  }

  ghost predicate ShowSeparate(u: bool) { true }

  method MergeOne(base: JDict, fragments: seq<JDict>, ghost vals: seq<Json>)
    requires fragments != [] && Separate(base, fragments, vals)
    modifies base.Repr
    ensures Separate(base, fragments[1..], vals[1..])
    ensures base.Repr <= old(base.Repr) + old(fragments[0].Repr)
    ensures base.Value() == Merge(old(base.Value()), vals[0])
    ensures forall f :: f in fragments[1..] ==> f.Repr == old(f.Repr)
  {
    assert ShowSeparate(true);
    forall i | 0 <= i < |fragments| - 1
      ensures fragments[1..][i] == fragments[i + 1] && vals[1..][i] == vals[i + 1] && fragments[0].Repr !! fragments[i + 1].Repr
    {
    }
    DeepMergeInto(base, fragments[0]);
  }

  /** The assessment ends up as the fold of the merge over the fragments' values. */
  method MergeFragments(base: JDict, fragments: seq<JDict>, ghost vals: seq<Json>)
    requires Separate(base, fragments, vals)
    modifies base.Repr, set f, o | f in fragments && o in f.Repr :: o
    ensures base.Valid() && base.Value() == MergeAll(old(base.Value()), vals)
  {
    ghost var reach := base.Repr + set f, o | f in fragments && o in f.Repr :: o;
    assert fragments[0..] == fragments && vals[0..] == vals;
    for i := 0 to |fragments|
      invariant Separate(base, fragments[i..], vals[i..]) && base.Repr <= reach
      invariant forall j :: i <= j < |fragments| ==> fragments[j].Repr <= reach
      invariant MergeAll(base.Value(), vals[i..]) == MergeAll(old(base.Value()), vals)
    {
      assert fragments[i..][1..] == fragments[i + 1..] && vals[i..][1..] == vals[i + 1..];
      assert fragments[i..][0] == fragments[i] && vals[i..][0] == vals[i];
      MergeOne(base, fragments[i..], vals[i..]);
    }
  }

  /** Dictionaries with the given values that share nothing with each other. */
  ghost predicate Detached(fragments: seq<JDict>, vals: seq<Json>)
    reads fragments, set f, o | f in fragments && o in f.Repr :: o
  {
    && |vals| == |fragments|
    && (forall i :: 0 <= i < |fragments| ==> fragments[i].Valid() && fragments[i].Value() == vals[i])
    && (forall i, j :: 0 <= i < j < |fragments| ==> fragments[i].Repr !! fragments[j].Repr)
  }

  method NewAssessment(timestamp: string, hostname: string) returns (base: JDict)
    ensures fresh(base.Repr) && base.Valid()
    ensures base.Value() == Obj(map["schema_version" := Str("1.0"), "timestamp" := Str(timestamp), "hostname" := Str(hostname)])
  {
    base := new JDict();
    SetKey(base, "schema_version", Leaf(Str("1.0")));
    SetKey(base, "timestamp", Leaf(Str(timestamp)));
    SetKey(base, "hostname", Leaf(Str(hostname)));
  }

  /** The assessment of a raw audit whose collectors gave these fragments. */
  method ParseRawAudit(timestamp: string, hostname: string, fragments: seq<JDict>, ghost vals: seq<Json>)
    returns (assessment: JDict)
    requires Detached(fragments, vals)
    modifies set f, o | f in fragments && o in f.Repr :: o
    ensures fresh(assessment) && assessment.Valid()
    ensures assessment.Value() == MergeAll(
      Obj(map["schema_version" := Str("1.0"), "timestamp" := Str(timestamp), "hostname" := Str(hostname)]), vals)
  {
    assessment := NewAssessment(timestamp, hostname);
    assert Separate(assessment, fragments, vals);
    MergeFragments(assessment, fragments, vals);
  }
}
