// The recursive diff behind both engine/diff.py and engine/db.py: what it emits, and what its
// output is good for.

module Diffs {
  import opened Sorting
  import opened JsonValues
  import opened Options

  /** One emitted change at a location, given by the keys from the root. Absent values are None. */
  datatype KeyChange = KeyChange(keys: seq<string>, before: Option<Json>, after: Option<Json>)

  function Under(k: string, cs: seq<KeyChange>): seq<KeyChange> {
    if cs == [] then [] else [cs[0].(keys := [k] + cs[0].keys)] + Under(k, cs[1..])
  }

  /** The changes for one key of two objects; keys in `skip` are not looked into when both sides have them. */
  ghost function KeyDiff(a: Json, b: Json, k: string, skip: set<string>): seq<KeyChange>
    requires a.Obj? && b.Obj?
    decreases a, 0, 0
  {
    if k in a.fields && k in b.fields then
      if k in skip then [] else Under(k, Diff(a.fields[k], b.fields[k], skip))
    else if k in a.fields then [KeyChange([k], Some(a.fields[k]), None)]
    else if k in b.fields then [KeyChange([k], None, Some(b.fields[k]))]
    else []
  }

  ghost function KeysDiff(a: Json, b: Json, ks: seq<string>, skip: set<string>): seq<KeyChange>
    requires a.Obj? && b.Obj?
    decreases a, 1, |ks|
  {
    if ks == [] then [] else KeyDiff(a, b, ks[0], skip) + KeysDiff(a, b, ks[1..], skip)
  }

  /** Objects are compared key by key in sorted order, lists as whole values, everything else with `==`. */
  ghost function Diff(a: Json, b: Json, skip: set<string>): seq<KeyChange>
    decreases a, 2, 0
  {
    if a.Obj? && b.Obj? then KeysDiff(a, b, SortedKeys(a.fields.Keys + b.fields.Keys), skip)
    else if a.Arr? && b.Arr? then (if a == b then [] else [KeyChange([], Some(a), Some(b))])
    else if PyEq(a, b) then [] else [KeyChange([], Some(a), Some(b))]
  }

  // ---- applying changes ----

  /** Sets or removes the value at a location; a location that does not exist is left alone. */
  function ApplyAt(d: Json, keys: seq<string>, after: Option<Json>): Json
    decreases |keys|
  {
    if keys == [] then (if after.Some? then after.value else d)
    else if !d.Obj? then d
    else if |keys| == 1 then
      Obj(if after.Some? then d.fields[keys[0] := after.value] else d.fields - {keys[0]})
    else if keys[0] in d.fields then
      Obj(d.fields[keys[0] := ApplyAt(d.fields[keys[0]], keys[1..], after)])
    else d
  }

  function ApplyAll(d: Json, cs: seq<KeyChange>): Json
    decreases |cs|
  {
    if cs == [] then d else ApplyAll(ApplyAt(d, cs[0].keys, cs[0].after), cs[1..])
  }

  lemma {:induction false} ApplyAppend(d: Json, xs: seq<KeyChange>, ys: seq<KeyChange>)
    ensures ApplyAll(d, xs + ys) == ApplyAll(ApplyAll(d, xs), ys)
    decreases |xs|
  {
    if xs == [] {
      assert xs + ys == ys;
    } else {
      assert (xs + ys)[1..] == xs[1..] + ys;
      ApplyAppend(ApplyAt(d, xs[0].keys, xs[0].after), xs[1..], ys);
    }
  }

  /** No change removes the document itself. */
  ghost predicate KeepsRoot(cs: seq<KeyChange>) {
    forall c :: c in cs ==> c.keys == [] ==> c.after.Some?
  }

  lemma {:induction false} ApplyUnder(f: map<string, Json>, k: string, cs: seq<KeyChange>)
    requires k in f && KeepsRoot(cs)
    ensures ApplyAll(Obj(f), Under(k, cs)) == Obj(f[k := ApplyAll(f[k], cs)])
  {
    if cs == [] {
      assert f[k := f[k]] == f;
    } else {
      var c := cs[0];
      assert c in cs;
      var g := f[k := ApplyAt(f[k], c.keys, c.after)];
      assert ([k] + c.keys)[1..] == c.keys;
      assert ApplyAt(Obj(f), [k] + c.keys, c.after) == Obj(g);
      assert Under(k, cs)[1..] == Under(k, cs[1..]);
      ApplyUnder(g, k, cs[1..]);
      assert g[k := ApplyAll(g[k], cs[1..])] == f[k := ApplyAll(g[k], cs[1..])];
    }
  }

  lemma {:induction false} UnderMembers(k: string, cs: seq<KeyChange>)
    ensures |Under(k, cs)| == |cs|
    ensures forall i :: 0 <= i < |cs| ==> Under(k, cs)[i] == cs[i].(keys := [k] + cs[i].keys)
  {
    if cs != [] { UnderMembers(k, cs[1..]); }
  }

  lemma {:induction false} DiffKeepsRoot(a: Json, b: Json, skip: set<string>)
    ensures KeepsRoot(Diff(a, b, skip))
  {
    if a.Obj? && b.Obj? { KeysDiffKeepsRoot(a, b, SortedKeys(a.fields.Keys + b.fields.Keys), skip); }
  }

  lemma {:induction false} KeysDiffKeepsRoot(a: Json, b: Json, ks: seq<string>, skip: set<string>)
    requires a.Obj? && b.Obj?
    ensures forall c :: c in KeysDiff(a, b, ks, skip) ==> c.keys != [] && c.keys[0] in ks
  {
    if ks != [] {
      KeysDiffKeepsRoot(a, b, ks[1..], skip);
      var k := ks[0];
      if k in a.fields && k in b.fields && k !in skip { UnderMembers(k, Diff(a.fields[k], b.fields[k], skip)); }
      assert forall c :: c in KeyDiff(a, b, k, skip) ==> c.keys != [] && c.keys[0] == k;
    }
  }

  // ---- patch correctness ----

  /** Equal documents as far as the diff looks: values under skipped keys that both sides have are ignored. */
  ghost predicate EqUpTo(skip: set<string>, a: Json, b: Json) {
    if a.Obj? && b.Obj? then
      a.fields.Keys == b.fields.Keys && forall k :: k in a.fields && k !in skip ==> EqUpTo(skip, a.fields[k], b.fields[k])
    else if a.Arr? && b.Arr? then a == b
    else PyEq(a, b)
  }

  lemma {:induction false} EqUpToReflexive(skip: set<string>, a: Json)
    ensures EqUpTo(skip, a, a)
  {
    PyEqReflexive(a);
    if a.Obj? {
      forall k | k in a.fields && k !in skip ensures EqUpTo(skip, a.fields[k], a.fields[k]) { EqUpToReflexive(skip, a.fields[k]); }
    }
  }

  lemma {:induction false} EqUpToTransitive(skip: set<string>, a: Json, b: Json, c: Json)
    requires EqUpTo(skip, a, b) && EqUpTo(skip, b, c)
    ensures EqUpTo(skip, a, c)
  {
    if a.Obj? && b.Obj? && c.Obj? {
      forall k | k in a.fields && k !in skip ensures EqUpTo(skip, a.fields[k], c.fields[k]) {
        EqUpToTransitive(skip, a.fields[k], b.fields[k], c.fields[k]);
      }
    }
  }

  /** `f` agrees with `g` at key `k`, values under skipped keys aside. */
  ghost predicate AgreeAt(skip: set<string>, f: map<string, Json>, g: map<string, Json>, k: string) {
    (k in f <==> k in g) && (k in f && k !in skip ==> EqUpTo(skip, f[k], g[k]))
  }

  lemma {:induction false} KeyPatch(skip: set<string>, f: map<string, Json>, a: Json, b: Json, k: string)
    returns (f': map<string, Json>)
    requires a.Obj? && b.Obj? && AgreeAt(skip, f, a.fields, k)
    ensures ApplyAll(Obj(f), KeyDiff(a, b, k, skip)) == Obj(f')
    ensures AgreeAt(skip, f', b.fields, k)
    ensures f'.Keys - {k} == f.Keys - {k} && forall j :: j in f && j != k ==> j in f' && f'[j] == f[j]
    decreases a, 0, 0
  {
    f' := f;
    if k in a.fields && k in b.fields {
      if k !in skip {
        var cs := Diff(a.fields[k], b.fields[k], skip);
        DiffKeepsRoot(a.fields[k], b.fields[k], skip);
        ApplyUnder(f, k, cs);
        PatchRebuilds(skip, f[k], a.fields[k], b.fields[k]);
        f' := f[k := ApplyAll(f[k], cs)];
      }
    } else if k in a.fields {
      f' := f - {k};
      assert KeyDiff(a, b, k, skip)[1..] == [];
    } else if k in b.fields {
      f' := f[k := b.fields[k]];
      EqUpToReflexive(skip, b.fields[k]);
      assert KeyDiff(a, b, k, skip)[1..] == [];
    }
  }

  lemma {:induction false} KeysPatch(skip: set<string>, f: map<string, Json>, a: Json, b: Json, ks: seq<string>)
    returns (f': map<string, Json>)
    requires a.Obj? && b.Obj? && Distinct(ks)
    requires forall k :: k in ks ==> AgreeAt(skip, f, a.fields, k)
    ensures ApplyAll(Obj(f), KeysDiff(a, b, ks, skip)) == Obj(f')
    ensures forall k :: k in ks ==> AgreeAt(skip, f', b.fields, k)
    ensures forall j :: j !in ks ==> (j in f' <==> j in f) && (j in f ==> f'[j] == f[j])
    decreases a, 1, |ks|
  {
    f' := f;
    if ks != [] {
      var k := ks[0];
      var g := KeyPatch(skip, f, a, b, k);
      assert forall j :: j != k ==> (j in g <==> j in g.Keys - {k}) && (j in f <==> j in f.Keys - {k});
      assert k !in ks[1..];
      forall j | j in ks[1..] ensures AgreeAt(skip, g, a.fields, j) { assert j in ks && j != k; }
      f' := KeysPatch(skip, g, a, b, ks[1..]);
      ApplyAppend(Obj(f), KeyDiff(a, b, k, skip), KeysDiff(a, b, ks[1..], skip));
    }
  }

  lemma AgreeingMaps(skip: set<string>, f: map<string, Json>, g: map<string, Json>, ks: seq<string>)
    requires forall k :: k in ks ==> AgreeAt(skip, f, g, k)
    requires forall k :: k in f || k in g ==> k in ks
    ensures EqUpTo(skip, Obj(f), Obj(g))
  {
    assert f.Keys == g.Keys by {
      forall k ensures k in f <==> k in g { if k in ks { assert AgreeAt(skip, f, g, k); } }
    }
    forall k | k in f && k !in skip ensures EqUpTo(skip, f[k], g[k]) { assert AgreeAt(skip, f, g, k); }
  }

  /** Applying the diff of `a` to `b` to anything equal to `a` (skipped keys aside) gives `b` (skipped keys aside). */
  lemma {:induction false} PatchRebuilds(skip: set<string>, r: Json, a: Json, b: Json)
    requires EqUpTo(skip, r, a)
    ensures EqUpTo(skip, ApplyAll(r, Diff(a, b, skip)), b)
    decreases a, 2, 0
  {
    if a.Obj? && b.Obj? {
      var ks := SortedKeys(a.fields.Keys + b.fields.Keys);
      forall k | k in ks ensures AgreeAt(skip, r.fields, a.fields, k) {}
      var f' := KeysPatch(skip, r.fields, a, b, ks);
      AgreeingMaps(skip, f', b.fields, ks);
    } else if Diff(a, b, skip) == [] {
      EqUpToTransitive(skip, r, a, b);
    } else {
      EqUpToReflexive(skip, b);
      assert Diff(a, b, skip)[1..] == [];
    }
  }

  /** The diff is empty exactly when the documents are equal, skipped keys aside. */
  lemma {:induction false} NoChangeIffEqual(skip: set<string>, a: Json, b: Json)
    ensures Diff(a, b, skip) == [] <==> EqUpTo(skip, a, b)
    decreases a
  {
    if a.Obj? && b.Obj? {
      var ks := SortedKeys(a.fields.Keys + b.fields.Keys);
      forall k | k in a.fields && k in b.fields
        ensures Diff(a.fields[k], b.fields[k], skip) == [] <==> EqUpTo(skip, a.fields[k], b.fields[k])
      {
        NoChangeIffEqual(skip, a.fields[k], b.fields[k]);
      }
      forall k ensures KeyDiff(a, b, k, skip) == [] <==>
        (k in a.fields && k in b.fields && (k in skip || Diff(a.fields[k], b.fields[k], skip) == [])) || (k !in a.fields && k !in b.fields)
      {
        if k in a.fields && k in b.fields { UnderMembers(k, Diff(a.fields[k], b.fields[k], skip)); }
      }
      EmptyIffAllEmpty(a, b, ks, skip);
      forall k ensures k in ks <==> k in a.fields || k in b.fields {}
    }
  }

  lemma {:induction false} EmptyIffAllEmpty(a: Json, b: Json, ks: seq<string>, skip: set<string>)
    requires a.Obj? && b.Obj?
    ensures KeysDiff(a, b, ks, skip) == [] <==> forall k :: k in ks ==> KeyDiff(a, b, k, skip) == []
  {
    if ks != [] {
      EmptyIffAllEmpty(a, b, ks[1..], skip);
      assert ks[0] in ks && forall k :: k in ks[1..] ==> k in ks;
      assert forall k :: k in ks ==> k == ks[0] || k in ks[1..];
    }
  }

  // ---- emitted locations never overlap ----

  ghost predicate Overlap(p: seq<string>, q: seq<string>) {
    p <= q || q <= p
  }

  ghost predicate NoOverlaps(cs: seq<KeyChange>) {
    forall i, j :: 0 <= i < j < |cs| ==> !Overlap(cs[i].keys, cs[j].keys)
  }

  lemma {:induction false} KeysDiffNoOverlaps(a: Json, b: Json, ks: seq<string>, skip: set<string>)
    requires a.Obj? && b.Obj? && Distinct(ks)
    ensures NoOverlaps(KeysDiff(a, b, ks, skip))
    decreases a, 1, |ks|
  {
    if ks != [] {
      var k := ks[0];
      var xs, ys := KeyDiff(a, b, k, skip), KeysDiff(a, b, ks[1..], skip);
      KeysDiffNoOverlaps(a, b, ks[1..], skip);
      KeysDiffKeepsRoot(a, b, ks[1..], skip);
      KeysDiffKeepsRoot(a, b, [k], skip);
      assert KeysDiff(a, b, [k], skip) == xs + KeysDiff(a, b, [], skip) == xs;
      if k in a.fields && k in b.fields && k !in skip {
        DiffNoOverlaps(a.fields[k], b.fields[k], skip);
        UnderNoOverlaps(k, Diff(a.fields[k], b.fields[k], skip));
      }
      forall i, j | 0 <= i < |xs| && 0 <= j < |ys| ensures !Overlap(xs[i].keys, ys[j].keys) {
        assert xs[i] in xs && ys[j] in ys && xs[i].keys[0] == k && ys[j].keys[0] in ks[1..];
      }
      assert NoOverlaps(xs);
    }
  }

  lemma UnderNoOverlaps(k: string, cs: seq<KeyChange>)
    requires NoOverlaps(cs)
    ensures NoOverlaps(Under(k, cs))
  {
    var us := Under(k, cs);
    UnderMembers(k, cs);
    forall i, j | 0 <= i < j < |us| ensures !Overlap(us[i].keys, us[j].keys) {
      assert us[i].keys[1..] == cs[i].keys && us[j].keys[1..] == cs[j].keys;
    }
  }

  /** No emitted location is a prefix of another one. */
  lemma {:induction false} DiffNoOverlaps(a: Json, b: Json, skip: set<string>)
    ensures NoOverlaps(Diff(a, b, skip))
    decreases a, 2, 0
  {
    if a.Obj? && b.Obj? { KeysDiffNoOverlaps(a, b, SortedKeys(a.fields.Keys + b.fields.Keys), skip); }
  }

  // ---- the order of application does not matter ----

  lemma {:induction false} ApplyCommutes(d: Json, p: seq<string>, x: Option<Json>, q: seq<string>, y: Option<Json>)
    requires !Overlap(p, q)
    ensures ApplyAt(ApplyAt(d, p, x), q, y) == ApplyAt(ApplyAt(d, q, y), p, x)
    decreases |p|
  {
    if d.Obj? && p[0] == q[0] && |p| > 1 && |q| > 1 {
      assert !Overlap(p[1..], q[1..]) by {
        assert p == [p[0]] + p[1..] && q == [q[0]] + q[1..];
      }
      if p[0] in d.fields {
        var f, k, sub := d.fields, p[0], d.fields[p[0]];
        ApplyCommutes(sub, p[1..], x, q[1..], y);
        assert f[k := ApplyAt(sub, p[1..], x)][k := ApplyAt(ApplyAt(sub, p[1..], x), q[1..], y)]
            == f[k := ApplyAt(sub, q[1..], y)][k := ApplyAt(ApplyAt(sub, q[1..], y), p[1..], x)];
      }
    } else if d.Obj? {
      ShortPathsOverlap(p, q);
      ApplyElsewhere(d, p, x, q, y);
    }
  }

  lemma ShortPathsOverlap(p: seq<string>, q: seq<string>)
    requires p != [] && q != []
    ensures Overlap(p, q) || p[0] != q[0] || (|p| > 1 && |q| > 1)
  {
  }

  lemma ApplyElsewhere(d: Json, p: seq<string>, x: Option<Json>, q: seq<string>, y: Option<Json>)
    requires d.Obj? && p != [] && q != [] && p[0] != q[0]
    ensures ApplyAt(ApplyAt(d, p, x), q, y) == ApplyAt(ApplyAt(d, q, y), p, x)
  {
    var dp, dq := ApplyAt(d, p, x), ApplyAt(d, q, y);
    assert q[0] in dp.fields <==> q[0] in d.fields;
    assert p[0] in dq.fields <==> p[0] in d.fields;
    assert q[0] in d.fields ==> dp.fields[q[0]] == d.fields[q[0]];
    assert p[0] in d.fields ==> dq.fields[p[0]] == d.fields[p[0]];
    assert ApplyAt(dp, q, y).fields == ApplyAt(dq, p, x).fields;
  }

  lemma {:induction false} ApplyToFront(d: Json, cs: seq<KeyChange>, i: nat)
    requires i < |cs| && NoOverlaps(cs)
    ensures ApplyAll(d, cs) == ApplyAll(d, [cs[i]] + cs[..i] + cs[i + 1..])
    decreases i
  {
    var front := [cs[i]] + cs[..i] + cs[i + 1..];
    if i == 0 {
      assert front == cs;
    } else {
      var a, c := cs[0], cs[i];
      ApplyToFront(ApplyAt(d, a.keys, a.after), cs[1..], i - 1);
      assert cs[1..][..i - 1] == cs[1..i] && cs[1..][i..] == cs[i + 1..];
      ApplyCommutes(d, a.keys, a.after, c.keys, c.after);
      assert front[1..] == [a] + (cs[1..i] + cs[i + 1..]);
      assert ([c] + cs[1..i] + cs[i + 1..])[1..] == cs[1..i] + cs[i + 1..];
    }
  }

  lemma DropKeepsNoOverlaps(cs: seq<KeyChange>, i: nat)
    requires i < |cs| && NoOverlaps(cs)
    ensures NoOverlaps(cs[..i] + cs[i + 1..])
  {
    var rest := cs[..i] + cs[i + 1..];
    forall j, k | 0 <= j < k < |rest| ensures !Overlap(rest[j].keys, rest[k].keys) {
      assert rest[j] == cs[if j < i then j else j + 1] && rest[k] == cs[if k < i then k else k + 1];
    }
  }

  /** Changes at non-overlapping locations give the same document in every order. */
  lemma {:induction false} ApplyAnyOrder(d: Json, xs: seq<KeyChange>, ys: seq<KeyChange>)
    requires NoOverlaps(xs) && multiset(xs) == multiset(ys)
    ensures ApplyAll(d, xs) == ApplyAll(d, ys)
    decreases |ys|
  {
    if ys == [] {
      assert |xs| == |multiset(xs)| == 0;
    } else {
      var i := SamePlace(xs, ys);
      var rest := xs[..i] + xs[i + 1..];
      ApplyToFront(d, xs, i);
      DropKeepsNoOverlaps(xs, i);
      assert [xs[i]] + xs[..i] + xs[i + 1..] == [ys[0]] + rest;
      assert ([ys[0]] + rest)[1..] == rest;
      ApplyAnyOrder(ApplyAt(d, ys[0].keys, ys[0].after), rest, ys[1..]);
    }
  }

  // ---- the diff in the other direction ----

  function Swapped(cs: seq<KeyChange>): seq<KeyChange> {
    if cs == [] then [] else [KeyChange(cs[0].keys, cs[0].after, cs[0].before)] + Swapped(cs[1..])
  }

  lemma {:induction false} SwappedAppend(xs: seq<KeyChange>, ys: seq<KeyChange>)
    ensures Swapped(xs + ys) == Swapped(xs) + Swapped(ys)
    decreases |xs|
  {
    if xs == [] { assert xs + ys == ys; }
    else { assert (xs + ys)[1..] == xs[1..] + ys; SwappedAppend(xs[1..], ys); }
  }

  lemma {:induction false} SwappedUnder(k: string, cs: seq<KeyChange>)
    ensures Swapped(Under(k, cs)) == Under(k, Swapped(cs))
  {
    if cs != [] { SwappedUnder(k, cs[1..]); assert Under(k, cs)[1..] == Under(k, cs[1..]); }
  }

  lemma {:induction false} KeysDiffSwaps(a: Json, b: Json, ks: seq<string>, skip: set<string>)
    requires a.Obj? && b.Obj?
    ensures KeysDiff(b, a, ks, skip) == Swapped(KeysDiff(a, b, ks, skip))
    decreases a, 1, |ks|
  {
    if ks != [] {
      var k := ks[0];
      KeysDiffSwaps(a, b, ks[1..], skip);
      SwappedAppend(KeyDiff(a, b, k, skip), KeysDiff(a, b, ks[1..], skip));
      if k in a.fields && k in b.fields && k !in skip {
        DiffSwaps(a.fields[k], b.fields[k], skip);
        SwappedUnder(k, Diff(a.fields[k], b.fields[k], skip));
      }
    }
  }

  /** Diffing the other way round gives the same list with the two sides exchanged. */
  lemma {:induction false} DiffSwaps(a: Json, b: Json, skip: set<string>)
    ensures Diff(b, a, skip) == Swapped(Diff(a, b, skip))
    decreases a, 2, 0
  {
    if a.Obj? && b.Obj? {
      assert a.fields.Keys + b.fields.Keys == b.fields.Keys + a.fields.Keys;
      KeysDiffSwaps(a, b, SortedKeys(a.fields.Keys + b.fields.Keys), skip);
    } else {
      PyEqSymmetric(a, b);
    }
  }

  // ---- two skip sets ----

  /** Skipping `key` as well hides nothing: wherever both sides have it in the same place, its values are equal. */
  ghost predicate Unaffected(a: Json, b: Json, skip: set<string>, key: string) {
    a.Obj? && b.Obj? ==>
      forall k :: k in a.fields && k in b.fields && k !in skip ==>
        if k == key then EqUpTo(skip, a.fields[k], b.fields[k]) else Unaffected(a.fields[k], b.fields[k], skip, key)
  }

  lemma {:induction false} MoreSkippedKeys(a: Json, b: Json, ks: seq<string>, skip: set<string>, key: string)
    requires a.Obj? && b.Obj?
    ensures |KeysDiff(a, b, ks, skip + {key})| <= |KeysDiff(a, b, ks, skip)|
    ensures (forall k :: k in ks && k in a.fields && k in b.fields && k !in skip ==>
        if k == key then EqUpTo(skip, a.fields[k], b.fields[k]) else Unaffected(a.fields[k], b.fields[k], skip, key))
      <==> KeysDiff(a, b, ks, skip + {key}) == KeysDiff(a, b, ks, skip)
    ensures KeysDiff(a, b, ks, skip + {key}) != KeysDiff(a, b, ks, skip)
      ==> |KeysDiff(a, b, ks, skip + {key})| < |KeysDiff(a, b, ks, skip)|
    decreases a, 1, |ks|
  {
    if ks != [] {
      var k := ks[0];
      MoreSkippedKeys(a, b, ks[1..], skip, key);
      assert forall j :: j in ks <==> j == k || j in ks[1..];
      MoreSkippedKey(a, b, k, skip, key);
      var x, y := KeyDiff(a, b, k, skip + {key}), KeyDiff(a, b, k, skip);
      var xs, ys := KeysDiff(a, b, ks[1..], skip + {key}), KeysDiff(a, b, ks[1..], skip);
      if x + xs == y + ys { assert |x| == |y| && |xs| == |ys|; }
    }
  }

  lemma {:induction false} MoreSkippedKey(a: Json, b: Json, k: string, skip: set<string>, key: string)
    requires a.Obj? && b.Obj?
    ensures |KeyDiff(a, b, k, skip + {key})| <= |KeyDiff(a, b, k, skip)|
    ensures (k in a.fields && k in b.fields && k !in skip ==>
        if k == key then EqUpTo(skip, a.fields[k], b.fields[k]) else Unaffected(a.fields[k], b.fields[k], skip, key))
      <==> KeyDiff(a, b, k, skip + {key}) == KeyDiff(a, b, k, skip)
    ensures KeyDiff(a, b, k, skip + {key}) != KeyDiff(a, b, k, skip)
      ==> |KeyDiff(a, b, k, skip + {key})| < |KeyDiff(a, b, k, skip)|
    decreases a, 0, 0
  {
    if k in a.fields && k in b.fields && k !in skip {
      var d0, d1 := Diff(a.fields[k], b.fields[k], skip), Diff(a.fields[k], b.fields[k], skip + {key});
      UnderMembers(k, d0);
      if k == key {
        NoChangeIffEqual(skip, a.fields[k], b.fields[k]);
      } else {
        MoreSkipped(a.fields[k], b.fields[k], skip, key);
        UnderMembers(k, d1);
        if Under(k, d0) == Under(k, d1) { assert d0 == d1; }
      }
    }
  }

  /** Skipping one more key gives the same diff exactly when the documents are unaffected by it; otherwise it
      gives strictly fewer changes. */
  lemma {:induction false} MoreSkipped(a: Json, b: Json, skip: set<string>, key: string)
    ensures Unaffected(a, b, skip, key) <==> Diff(a, b, skip + {key}) == Diff(a, b, skip)
    ensures Diff(a, b, skip + {key}) != Diff(a, b, skip) ==> |Diff(a, b, skip + {key})| < |Diff(a, b, skip)|
    decreases a, 2, 0
  {
    if a.Obj? && b.Obj? {
      var ks := SortedKeys(a.fields.Keys + b.fields.Keys);
      MoreSkippedKeys(a, b, ks, skip, key);
      assert forall k :: k in a.fields ==> k in ks;
    }
  }
}
