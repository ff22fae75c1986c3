// Merging assessment fragments, on values: the laws of `_deep_merge`.

module MergeSpec {
  import opened JsonValues
  import opened Options
  import opened Sorting

  /** Objects are merged key by key; anything else is replaced. */
  function Merge(a: Json, b: Json): Json {
    if a.Obj? && b.Obj? then
      Obj(map k | k in a.fields.Keys + b.fields.Keys ::
            if k !in b.fields then a.fields[k] else if k !in a.fields then b.fields[k] else Merge(a.fields[k], b.fields[k]))
    else b
  }

  // ---- laws ----

  lemma {:induction false} MergeIdempotent(a: Json)
    ensures Merge(a, a) == a
  {
    if a.Obj? {
      forall k | k in a.fields ensures Merge(a.fields[k], a.fields[k]) == a.fields[k] { MergeIdempotent(a.fields[k]); }
      assert Merge(a, a).fields == a.fields;
    }
  }

  /** Merging the same fragment again changes nothing. */
  lemma {:induction false} MergeAbsorbs(a: Json, b: Json)
    ensures Merge(Merge(a, b), b) == Merge(a, b)
  {
    if a.Obj? && b.Obj? {
      var m := Merge(a, b);
      forall k | k in m.fields ensures Merge(m, b).fields[k] == m.fields[k] {
        if k in b.fields {
          if k in a.fields { MergeAbsorbs(a.fields[k], b.fields[k]); } else { MergeIdempotent(b.fields[k]); }
        }
      }
      assert Merge(m, b).fields == m.fields;
    } else {
      MergeIdempotent(b);
    }
  }

  /** Only keys are followed: list items are part of their list. */
  predicate KeysOnly(loc: seq<Step>) {
    forall i :: 0 <= i < |loc| ==> loc[i].Field?
  }

  /** At every place where the override has something other than an object, the result has just that. */
  lemma {:induction false} OverrideLeaves(a: Json, b: Json, loc: seq<Step>)
    requires KeysOnly(loc) && ValueAt(b, loc).Some? && !ValueAt(b, loc).value.Obj?
    ensures ValueAt(Merge(a, b), loc) == ValueAt(b, loc)
    decreases |loc|
  {
    if loc != [] && a.Obj? && b.Obj? {
      var k := loc[0].key;
      if k in a.fields { OverrideLeaves(a.fields[k], b.fields[k], loc[1..]); }
    }
  }

  /** Places the override does not reach keep what the base had. */
  lemma {:induction false} BaseElsewhere(a: Json, b: Json, loc: seq<Step>, i: nat)
    requires a.Obj? && b.Obj? && KeysOnly(loc) && i < |loc|
    requires ValueAt(b, loc[..i]).Some? && ValueAt(b, loc[..i]).value.Obj? && ValueAt(b, loc[..i + 1]).None?
    requires ValueAt(a, loc[..i]).Some? && ValueAt(a, loc[..i]).value.Obj?
    ensures ValueAt(Merge(a, b), loc) == ValueAt(a, loc)
    decreases i
  {
    var k := loc[0].key;
    assert loc[..i + 1][0] == loc[0] && loc[..i + 1][1..] == loc[1..][..i];
    if i > 0 {
      assert loc[..i][0] == loc[0] && loc[..i][1..] == loc[1..][..i - 1];
      assert ValueAt(b, loc[..i]) == ValueAt(b.fields[k], loc[1..][..i - 1]);
      OneStepDown(b, loc, i);
      OneStepDown(a, loc, i);
      BaseElsewhere(a.fields[k], b.fields[k], loc[1..], i - 1);
    }
  }

  lemma OneStepDown(v: Json, loc: seq<Step>, i: nat)
    requires KeysOnly(loc) && 0 < i < |loc| && ValueAt(v, loc[..i]).Some? && ValueAt(v, loc[..i]).value.Obj?
    ensures v.Obj? && loc[0].key in v.fields
    ensures ValueAt(v, loc[..i]) == ValueAt(v.fields[loc[0].key], loc[1..][..i - 1])
    ensures v.fields[loc[0].key].Obj?
  {
    assert loc[..i][0] == loc[0] && loc[..i][1..] == loc[1..][..i - 1];
  }

  /** Every key of `a` is also in `c`, all the way down through the objects that both have. */
  ghost predicate Covered(a: Json, c: Json) {
    a.Obj? && c.Obj? ==> forall k :: k in a.fields ==> k in c.fields && Covered(a.fields[k], c.fields[k])
  }

  /** The covered have nothing to add. */
  lemma {:induction false} CoveredIff(a: Json, c: Json)
    ensures Merge(a, c) == c <==> Covered(a, c)
  {
    if a.Obj? && c.Obj? {
      var m := Merge(a, c);
      forall k | k in m.fields
        ensures (k in c.fields && m.fields[k] == c.fields[k])
           <==> (k in a.fields ==> k in c.fields && Covered(a.fields[k], c.fields[k]))
      {
        if k in a.fields && k in c.fields { CoveredIff(a.fields[k], c.fields[k]); }
      }
      assert m.fields.Keys == a.fields.Keys + c.fields.Keys;
      assert m.fields == c.fields <==> forall k :: k in m.fields ==> k in c.fields && m.fields[k] == c.fields[k];
    }
  }

  /** Wherever an object is replaced by something else and an object comes back, the new object has all keys of the old. */
  ghost predicate AssocOk(a: Json, b: Json, c: Json) {
    if a.Obj? && c.Obj? then
      if b.Obj? then
        forall k :: k in a.fields && k in b.fields && k in c.fields ==> AssocOk(a.fields[k], b.fields[k], c.fields[k])
      else Covered(a, c)
    else true
  }

  /** Grouping does not matter exactly in that case. */
  lemma {:induction false} MergeAssociativeIff(a: Json, b: Json, c: Json)
    ensures Merge(Merge(a, b), c) == Merge(a, Merge(b, c)) <==> AssocOk(a, b, c)
  {
    if a.Obj? && b.Obj? && c.Obj? {
      var l, r := Merge(Merge(a, b), c), Merge(a, Merge(b, c));
      assert l.fields.Keys == r.fields.Keys;
      forall k | k in l.fields
        ensures l.fields[k] == r.fields[k]
           <==> (k in a.fields && k in b.fields && k in c.fields ==> AssocOk(a.fields[k], b.fields[k], c.fields[k]))
      {
        if k in a.fields && k in b.fields && k in c.fields { MergeAssociativeIff(a.fields[k], b.fields[k], c.fields[k]); }
      }
      assert l == r <==> forall k :: k in l.fields ==> l.fields[k] == r.fields[k];
    } else if a.Obj? && c.Obj? {
      CoveredIff(a, c);
    }
  }

  /** No path is an object on one side and something else on the other. */
  ghost predicate SameShape(a: Json, b: Json) {
    a.Obj? == b.Obj? && (a.Obj? ==> forall k :: k in a.fields && k in b.fields ==> SameShape(a.fields[k], b.fields[k]))
  }

  /** Fragments without such a conflict associate. */
  lemma {:induction false} SameShapesAssociate(a: Json, b: Json, c: Json)
    requires SameShape(a, b) && SameShape(b, c)
    ensures AssocOk(a, b, c) && Merge(Merge(a, b), c) == Merge(a, Merge(b, c))
  {
    if a.Obj? && b.Obj? && c.Obj? {
      forall k | k in a.fields && k in b.fields && k in c.fields ensures AssocOk(a.fields[k], b.fields[k], c.fields[k]) {
        SameShapesAssociate(a.fields[k], b.fields[k], c.fields[k]);
      }
    }
    MergeAssociativeIff(a, b, c);
  }

  /** A base object, a fragment that replaces it, and one that brings an object back. */
  lemma MergeNotAssociative()
    ensures var a, b, c := Obj(map["x" := Int(1)]), Null, Obj(map["y" := Int(2)]);
      Merge(Merge(a, b), c) != Merge(a, Merge(b, c))
  {
    var a, c := Obj(map["x" := Int(1)]), Obj(map["y" := Int(2)]);
    assert "x" in Merge(a, c).fields && "x" !in c.fields;
  }

  /** Two fragments that agree wherever both say something. */
  ghost predicate Agree(a: Json, b: Json) {
    if a.Obj? && b.Obj? then forall k :: k in a.fields && k in b.fields ==> Agree(a.fields[k], b.fields[k])
    else a == b
  }

  lemma {:induction false} MergeCommutesIff(a: Json, b: Json)
    ensures Merge(a, b) == Merge(b, a) <==> Agree(a, b)
  {
    if a.Obj? && b.Obj? {
      var l, r := Merge(a, b), Merge(b, a);
      assert l.fields.Keys == r.fields.Keys;
      forall k | k in l.fields
        ensures l.fields[k] == r.fields[k] <==> (k in a.fields && k in b.fields ==> Agree(a.fields[k], b.fields[k]))
      {
        if k in a.fields && k in b.fields { MergeCommutesIff(a.fields[k], b.fields[k]); }
      }
      assert l == r <==> forall k :: k in l.fields ==> l.fields[k] == r.fields[k];
    }
  }

  /** Agreeing fragments may be merged into any base in either order. */
  lemma {:induction false} MergeSwaps(base: Json, a: Json, b: Json)
    requires Agree(a, b)
    ensures Merge(Merge(base, a), b) == Merge(Merge(base, b), a)
    decreases a, 1
  {
    if a.Obj? && b.Obj? {
      MergeCommutesIff(a, b);
      if base.Obj? {
        var l, r := Merge(Merge(base, a), b), Merge(Merge(base, b), a);
        forall k | k in l.fields ensures l.fields[k] == r.fields[k] { MergeSwapsAt(base, a, b, k); }
        assert l.fields == r.fields;
      }
    }
  }

  lemma {:induction false} MergeSwapsAt(base: Json, a: Json, b: Json, k: string)
    requires base.Obj? && a.Obj? && b.Obj? && Agree(a, b)
    requires k in base.fields || k in a.fields || k in b.fields
    ensures Merge(Merge(base, a), b).fields[k] == Merge(Merge(base, b), a).fields[k]
    decreases a, 0
  {
    if k in a.fields && k in b.fields {
      if k in base.fields { MergeSwaps(base.fields[k], a.fields[k], b.fields[k]); }
      else { MergeCommutesIff(a.fields[k], b.fields[k]); }
    }
  }

  // ---- the fold over all fragments ----

  function MergeAll(base: Json, fragments: seq<Json>): Json
    decreases |fragments|
  {
    if fragments == [] then base else MergeAll(Merge(base, fragments[0]), fragments[1..])
  }

  lemma {:induction false} OneMoreFragment(base: Json, fragments: seq<Json>, last: Json)
    ensures MergeAll(base, []) == base
    ensures MergeAll(base, fragments + [last]) == Merge(MergeAll(base, fragments), last)
    decreases |fragments|
  {
    if fragments == [] {
      assert fragments + [last] == [last] && [last][1..] == [];
    } else {
      assert (fragments + [last])[1..] == fragments[1..] + [last];
      OneMoreFragment(Merge(base, fragments[0]), fragments[1..], last);
    }
  }

  /** A value that the last fragment gives is in the result, whatever the others say. */
  lemma LastFragmentWins(base: Json, fragments: seq<Json>, last: Json, loc: seq<Step>)
    requires KeysOnly(loc) && ValueAt(last, loc).Some? && !ValueAt(last, loc).value.Obj?
    ensures ValueAt(MergeAll(base, fragments + [last]), loc) == ValueAt(last, loc)
  {
    OneMoreFragment(base, fragments, last);
    OverrideLeaves(MergeAll(base, fragments), last, loc);
  }

  ghost predicate AllAgree(fragments: seq<Json>) {
    forall i, j :: 0 <= i < |fragments| && 0 <= j < |fragments| ==> Agree(fragments[i], fragments[j])
  }

  /** A fragment that agrees with those before it may as well come first. */
  lemma {:induction false} MoveToFront(base: Json, fragments: seq<Json>, i: nat)
    requires AllAgree(fragments) && i < |fragments|
    ensures MergeAll(base, fragments) == MergeAll(Merge(base, fragments[i]), fragments[..i] + fragments[i + 1..])
    decreases i
  {
    var rest := fragments[..i] + fragments[i + 1..];
    if i == 0 {
      assert rest == fragments[1..];
    } else {
      var first, tail := fragments[0], fragments[1..];
      assert forall j, k :: 0 <= j < |tail| && 0 <= k < |tail| ==> Agree(tail[j], tail[k]) by {
        assert forall j :: 0 <= j < |tail| ==> tail[j] == fragments[j + 1];
      }
      MoveToFront(Merge(base, first), tail, i - 1);
      MergeSwaps(base, first, fragments[i]);
      assert rest[0] == first && rest[1..] == tail[..i - 1] + tail[i..];
    }
  }

  /** Agreeing fragments give the same assessment in every order. */
  lemma {:induction false} OrderIrrelevant(base: Json, xs: seq<Json>, ys: seq<Json>)
    requires multiset(xs) == multiset(ys) && AllAgree(xs)
    ensures MergeAll(base, xs) == MergeAll(base, ys)
    decreases |ys|
  {
    if ys == [] {
      assert |xs| == |multiset(xs)| == 0;
    } else {
      var i := SamePlace(xs, ys);
      var rest := xs[..i] + xs[i + 1..];
      MoveToFront(base, xs, i);
      WithoutOneAgree(xs, i);
      OrderIrrelevant(Merge(base, ys[0]), rest, ys[1..]);
    }
  }

  lemma WithoutOneAgree(xs: seq<Json>, i: nat)
    requires AllAgree(xs) && i < |xs|
    ensures AllAgree(xs[..i] + xs[i + 1..])
  {
    var rest := xs[..i] + xs[i + 1..];
    assert forall j :: 0 <= j < |rest| ==> rest[j] == xs[if j < i then j else j + 1];
  }
}
