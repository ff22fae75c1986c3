// Replaying recorded change rows: when the dotted paths lead back to where the changes were made.

module Replays {
  import opened Sorting
  import opened Text
  import opened JsonValues
  import opened Options
  import opened Diffs
  import opened Changes
  import opened DiffMembers

  function Replay(d: Json, rows: seq<RowChange>): Json
    decreases |rows|
  {
    if rows == [] then d else Replay(ApplyAt(d, Split('.', rows[0].path), rows[0].newValue), rows[1..])
  }

  // ---- differences at dot-free locations ----

  /** Wherever the documents differ, the keys that lead there hold no dot. */
  ghost predicate DotFreeChanges(skip: set<string>, a: Json, b: Json)
    decreases a, 1
  {
    a.Obj? && b.Obj? ==> forall k :: k in a.fields || k in b.fields ==> DotFreeChangesAt(skip, a, b, k)
  }

  ghost predicate DotFreeChangesAt(skip: set<string>, a: Json, b: Json, k: string)
    requires a.Obj? && b.Obj? && (k in a.fields || k in b.fields)
    decreases a, 0
  {
    if k in a.fields && k in b.fields then
      || k in skip
      || EqUpTo(skip, a.fields[k], b.fields[k])
      || ('.' !in k && DotFreeChanges(skip, a.fields[k], b.fields[k]))
    else '.' !in k
  }

  /** Object keys contain no dot. */
  ghost predicate DotFree(a: Json) {
    a.Obj? ==> forall k :: k in a.fields ==> '.' !in k && DotFree(a.fields[k])
  }

  /** Documents without dotted keys differ at dot-free locations only. */
  lemma {:induction false} DotFreeDocuments(skip: set<string>, a: Json, b: Json)
    requires DotFree(a) && DotFree(b)
    ensures DotFreeChanges(skip, a, b)
  {
    if a.Obj? && b.Obj? {
      forall k | k in a.fields || k in b.fields ensures DotFreeChangesAt(skip, a, b, k) {
        if k in a.fields && k in b.fields { DotFreeDocuments(skip, a.fields[k], b.fields[k]); }
      }
    }
  }

  ghost predicate DotFreePaths(cs: seq<KeyChange>) {
    forall c, k :: c in cs && k in c.keys ==> '.' !in k
  }

  lemma DotFreeUnder(k: string, cs: seq<KeyChange>)
    ensures DotFreePaths(Under(k, cs)) <==> cs == [] || ('.' !in k && DotFreePaths(cs))
  {
    UnderMembers(k, cs);
    if cs != [] && DotFreePaths(Under(k, cs)) {
      assert Under(k, cs)[0] in Under(k, cs) && k in Under(k, cs)[0].keys;
      forall c, j | c in cs && j in c.keys ensures '.' !in j {
        var i :| 0 <= i < |cs| && cs[i] == c;
        assert Under(k, cs)[i] in Under(k, cs) && j in Under(k, cs)[i].keys;
      }
    }
  }

  lemma DotFreeAppend(xs: seq<KeyChange>, ys: seq<KeyChange>)
    ensures DotFreePaths(xs + ys) <==> DotFreePaths(xs) && DotFreePaths(ys)
  {
    assert forall c :: c in xs + ys <==> c in xs || c in ys;
  }

  lemma {:induction false} KeyDotFreeIff(a: Json, b: Json, k: string, skip: set<string>)
    requires a.Obj? && b.Obj? && (k in a.fields || k in b.fields)
    ensures DotFreePaths(KeyDiff(a, b, k, skip)) <==> DotFreeChangesAt(skip, a, b, k)
    decreases a, 0, 0
  {
    if k in a.fields && k in b.fields {
      if k !in skip {
        DiffDotFreeIff(a.fields[k], b.fields[k], skip);
        NoChangeIffEqual(skip, a.fields[k], b.fields[k]);
        DotFreeUnder(k, Diff(a.fields[k], b.fields[k], skip));
      }
    } else {
      var c := KeyDiff(a, b, k, skip)[0];
      assert KeyDiff(a, b, k, skip) == [c] && c.keys == [k] && c in [c] && k in c.keys;
    }
  }

  lemma {:induction false} KeysDotFreeIff(a: Json, b: Json, ks: seq<string>, skip: set<string>)
    requires a.Obj? && b.Obj? && forall k :: k in ks ==> k in a.fields || k in b.fields
    ensures DotFreePaths(KeysDiff(a, b, ks, skip)) <==> forall k :: k in ks ==> DotFreeChangesAt(skip, a, b, k)
    decreases a, 1, |ks|
  {
    if ks != [] {
      KeyDotFreeIff(a, b, ks[0], skip);
      KeysDotFreeIff(a, b, ks[1..], skip);
      DotFreeAppend(KeyDiff(a, b, ks[0], skip), KeysDiff(a, b, ks[1..], skip));
      assert forall k :: k in ks <==> k == ks[0] || k in ks[1..];
    }
  }

  /** Every emitted location is dot-free exactly if the documents differ at dot-free locations only. */
  lemma {:induction false} DiffDotFreeIff(a: Json, b: Json, skip: set<string>)
    ensures DotFreePaths(Diff(a, b, skip)) <==> DotFreeChanges(skip, a, b)
    decreases a, 2, 0
  {
    if a.Obj? && b.Obj? { KeysDotFreeIff(a, b, SortedKeys(a.fields.Keys + b.fields.Keys), skip); }
  }

  // ---- dot-free changes are replayed ----

  lemma {:induction false} ReplayIsApply(d: Json, cs: seq<KeyChange>)
    requires DotFreePaths(cs) && forall c :: c in cs ==> c.keys != []
    ensures Replay(d, Rows([], cs)) == ApplyAll(d, cs)
    decreases |cs|
  {
    if cs != [] {
      var c := cs[0];
      assert c in cs && [] + c.keys == c.keys;
      SplitJoin('.', c.keys);
      assert Rows([], cs)[1..] == Rows([], cs[1..]);
      ReplayIsApply(ApplyAt(d, c.keys, c.after), cs[1..]);
    }
  }

  lemma RowsReplay(r: Json, a: Json, b: Json)
    requires a.Obj? && b.Obj? && DotFreeChanges(DB_SKIP, a, b)
    ensures Replay(r, Rows([], Diff(a, b, DB_SKIP))) == ApplyAll(r, Diff(a, b, DB_SKIP))
  {
    DiffDotFreeIff(a, b, DB_SKIP);
    KeysDiffKeepsRoot(a, b, SortedKeys(a.fields.Keys + b.fields.Keys), DB_SKIP);
    ReplayIsApply(r, Diff(a, b, DB_SKIP));
  }

  /** Replaying the rows recorded between two documents, over anything equal to the first, rebuilds the second. */
  lemma RowsRebuild(r: Json, a: Json, b: Json)
    requires a.Obj? && b.Obj? && DotFreeChanges(DB_SKIP, a, b) && EqUpTo(DB_SKIP, r, a)
    ensures EqUpTo(DB_SKIP, Replay(r, Rows([], Diff(a, b, DB_SKIP))), b)
  {
    RowsReplay(r, a, b);
    PatchRebuilds(DB_SKIP, r, a, b);
  }

  // ---- dotted changes are not ----

  lemma {:induction false} ApplyLeaves(d: Json, q: seq<string>, x: Option<Json>, p: seq<string>)
    requires !Overlap(q, p)
    ensures At(ApplyAt(d, q, x), p) == At(d, p)
    decreases |p|
  {
    ShortPathsOverlap(p, q);
    if d.Obj? && q[0] == p[0] && q[0] in d.fields {
      assert q == [q[0]] + q[1..] && p == [p[0]] + p[1..];
      ApplyLeaves(d.fields[q[0]], q[1..], x, p[1..]);
    }
  }

  ghost predicate Misses(rows: seq<RowChange>, p: seq<string>) {
    forall row :: row in rows ==> !Overlap(Split('.', row.path), p)
  }

  lemma {:induction false} ReplayLeaves(d: Json, rows: seq<RowChange>, p: seq<string>)
    requires Misses(rows, p)
    ensures At(Replay(d, rows), p) == At(d, p)
    decreases |rows|
  {
    if rows != [] {
      assert rows[0] in rows;
      ApplyLeaves(d, Split('.', rows[0].path), rows[0].newValue, p);
      ReplayLeaves(ApplyAt(d, Split('.', rows[0].path), rows[0].newValue), rows[1..], p);
    }
  }

  /** The index of the first dotted key. */
  function FirstDotted(keys: seq<string>): (i: nat)
    ensures i <= |keys| && (i < |keys| ==> '.' in keys[i]) && forall k :: k in keys[..i] ==> '.' !in k
  {
    if keys == [] || '.' in keys[0] then 0
    else
      var i := 1 + FirstDotted(keys[1..]);
      assert keys[..i] == [keys[0]] + keys[1..][..i - 1];
      i
  }

  ghost predicate IsDotted(c: KeyChange) {
    FirstDotted(c.keys) < |c.keys|
  }

  /** A recorded path splits into the keys before the first dotted one and at least two more parts. */
  lemma {:induction false} SplitOfDotted(keys: seq<string>, i: nat)
    requires i < |keys| && '.' in keys[i] && forall j :: 0 <= j < i ==> '.' !in keys[j]
    ensures var parts := Split('.', Join('.', keys)); |parts| >= i + 2 && parts[..i] == keys[..i]
    decreases i
  {
    if i == 0 {
      SplitAtDot(Join('.', keys));
    } else {
      var rest := keys[1..];
      SplitOfDotted(rest, i - 1);
      assert Join('.', keys) == keys[0] + ['.'] + Join('.', rest);
      SplitHead(keys[0], Join('.', rest));
      OneMoreInFront(keys[0], rest, Split('.', Join('.', rest)), i - 1);
      assert keys == [keys[0]] + rest;
    }
  }

  lemma SplitHead(key: string, rest: string)
    requires '.' !in key
    ensures Split('.', key + ['.'] + rest) == [key] + Split('.', rest)
  {
    var text := key + ['.'] + rest;
    IndexOfAppend(key, '.', rest);
    assert text[..|key|] == key && text[|key| + 1..] == rest;
  }

  lemma OneMoreInFront(key: string, keys: seq<string>, parts: seq<string>, i: nat)
    requires i <= |keys| && i <= |parts| && parts[..i] == keys[..i]
    ensures ([key] + parts)[..i + 1] == ([key] + keys)[..i + 1]
  {
    assert ([key] + parts)[..i + 1] == [key] + parts[..i] && ([key] + keys)[..i + 1] == [key] + keys[..i];
  }

  lemma SplitAtDot(text: string)
    requires '.' in text
    ensures |Split('.', text)| >= 2
  {
    var i := IndexOf(text, '.');
    JoinSplit('.', text[i + 1..]);
  }

  /** Among changes some of which are dotted, one whose first dotted key comes earliest. */
  lemma {:induction false} EarliestDotted(cs: seq<KeyChange>) returns (c: KeyChange)
    requires exists e :: e in cs && IsDotted(e)
    ensures c in cs && IsDotted(c) && forall e :: e in cs && IsDotted(e) ==> FirstDotted(c.keys) <= FirstDotted(e.keys)
  {
    var init, last := cs[..|cs| - 1], cs[|cs| - 1];
    assert cs == init + [last];
    if exists e :: e in init && IsDotted(e) {
      c := EarliestDotted(init);
      if IsDotted(last) && FirstDotted(last.keys) < FirstDotted(c.keys) { c := last; }
    } else {
      c := last;
    }
  }

  /** The location of a change up to and including its first dotted key. */
  function DottedPrefix(c: KeyChange): seq<string>
    requires IsDotted(c)
  {
    c.keys[..FirstDotted(c.keys) + 1]
  }

  lemma DottedIsNoPart(p: seq<string>, path: seq<string>, i: nat)
    requires i < |p| && '.' in p[i] && forall k :: k in path ==> '.' !in k
    ensures !(p <= path)
  {
    if i < |path| { assert path[i] in path; }
  }

  lemma NoPrefixOfPart(q: seq<string>, keys: seq<string>, n: nat)
    requires n <= |keys| && !(q <= keys)
    ensures !(q <= keys[..n])
  {
    if |q| <= n { assert keys[..n][..|q|] == keys[..|q|]; }
  }

  /** No recorded path reaches what lies at the earliest dotted key. */
  lemma PathMisses(cs: seq<KeyChange>, c: KeyChange, e: KeyChange)
    requires NoOverlaps(cs) && c in cs && e in cs && IsDotted(c)
    requires IsDotted(e) ==> FirstDotted(c.keys) <= FirstDotted(e.keys)
    requires e.keys != []
    ensures !Overlap(Split('.', Join('.', e.keys)), DottedPrefix(c))
  {
    JoinSplit('.', Join('.', e.keys));
    DottedIsNoPart(DottedPrefix(c), Split('.', Join('.', e.keys)), FirstDotted(c.keys));
    if IsDotted(e) {
      assert forall j :: 0 <= j < FirstDotted(e.keys) ==> e.keys[..FirstDotted(e.keys)][j] == e.keys[j];
      SplitOfDotted(e.keys, FirstDotted(e.keys));
    } else {
      UndottedSplit(e);
      DistinctChangesApart(cs, c, e);
      NoPrefixOfPart(e.keys, c.keys, FirstDotted(c.keys) + 1);
    }
  }

  lemma UndottedSplit(e: KeyChange)
    requires !IsDotted(e) && e.keys != []
    ensures Split('.', Join('.', e.keys)) == e.keys
  {
    assert e.keys[..|e.keys|] == e.keys;
    SplitJoin('.', e.keys);
  }

  lemma DistinctChangesApart(cs: seq<KeyChange>, c: KeyChange, e: KeyChange)
    requires NoOverlaps(cs) && c in cs && e in cs && c != e
    ensures !Overlap(c.keys, e.keys)
  {
    var i, j :| 0 <= i < |cs| && 0 <= j < |cs| && cs[i] == c && cs[j] == e;
  }

  // ---- a change marks a difference everywhere above it ----

  ghost predicate Agree(skip: set<string>, x: Option<Json>, y: Option<Json>) {
    (x.Some? <==> y.Some?) && (x.Some? ==> EqUpTo(skip, x.value, y.value))
  }

  lemma {:induction false} AgreeBelow(skip: set<string>, a: Json, b: Json, p: seq<string>)
    requires EqUpTo(skip, a, b) && forall k :: k in p ==> k !in skip
    ensures Agree(skip, At(a, p), At(b, p))
    decreases |p|
  {
    if p != [] {
      assert p[0] in p;
      if a.Obj? && b.Obj? && p[0] in a.fields { AgreeBelow(skip, a.fields[p[0]], b.fields[p[0]], p[1..]); }
    }
  }

  /** The change comes from the part of the diff that belongs to its first key. */
  lemma {:induction false} ChangeOfKey(a: Json, b: Json, ks: seq<string>, skip: set<string>, c: KeyChange)
    requires a.Obj? && b.Obj? && c in KeysDiff(a, b, ks, skip)
    ensures c.keys != [] && c in KeyDiff(a, b, c.keys[0], skip)
  {
    var k := ks[0];
    if c in KeyDiff(a, b, k, skip) {
      KeysDiffKeepsRoot(a, b, [k], skip);
      assert KeysDiff(a, b, [k], skip) == KeyDiff(a, b, k, skip) + KeysDiff(a, b, [], skip) == KeyDiff(a, b, k, skip);
    } else {
      ChangeOfKey(a, b, ks[1..], skip, c);
    }
  }

  lemma {:induction false} ChangeDiffers(a: Json, b: Json, skip: set<string>, c: KeyChange, n: nat)
    requires c in Diff(a, b, skip) && n <= |c.keys|
    ensures !Agree(skip, At(a, c.keys[..n]), At(b, c.keys[..n]))
    decreases n
  {
    if n == 0 {
      NoChangeIffEqual(skip, a, b);
      assert c.keys[..n] == [];
    } else {
      var k := FirstKey(a, b, skip, c);
      if k in a.fields && k in b.fields {
        var below := ChangeBelow(k, Diff(a.fields[k], b.fields[k], skip), c);
        ChangeDiffers(a.fields[k], b.fields[k], skip, below, n - 1);
      }
      DifferStep(skip, a, b, c.keys, n);
    }
  }

  lemma DifferStep(skip: set<string>, a: Json, b: Json, keys: seq<string>, n: nat)
    requires a.Obj? && b.Obj? && 0 < n <= |keys|
    requires var k, rest := keys[0], keys[1..][..n - 1];
      if k in a.fields && k in b.fields then !Agree(skip, At(a.fields[k], rest), At(b.fields[k], rest))
      else |keys| == 1 && (k in a.fields || k in b.fields)
    ensures !Agree(skip, At(a, keys[..n]), At(b, keys[..n]))
  {
    AtStep(a, keys, n);
    AtStep(b, keys, n);
    if |keys| == 1 { assert keys[1..][..n - 1] == []; }
  }

  lemma AtStep(d: Json, keys: seq<string>, n: nat)
    requires d.Obj? && 0 < n <= |keys|
    ensures At(d, keys[..n]) == if keys[0] in d.fields then At(d.fields[keys[0]], keys[1..][..n - 1]) else None
  {
    assert keys[..n][0] == keys[0] && keys[..n][1..] == keys[1..][..n - 1];
  }

  /** The key under which a change with a location lies: absent on one side, or not skipped. */
  lemma FirstKey(a: Json, b: Json, skip: set<string>, c: KeyChange) returns (k: string)
    requires c in Diff(a, b, skip) && c.keys != []
    ensures a.Obj? && b.Obj? && k == c.keys[0] && (k in a.fields || k in b.fields)
    ensures k in a.fields && k in b.fields ==> k !in skip && c in Under(k, Diff(a.fields[k], b.fields[k], skip))
    ensures !(k in a.fields && k in b.fields) ==> c.keys == [k]
  {
    k := c.keys[0];
    if a.Obj? && b.Obj? { ChangeOfKey(a, b, SortedKeys(a.fields.Keys + b.fields.Keys), skip, c); }
  }

  /** Only the last key of a change can be a skipped one. */
  lemma {:induction false} ChangeUnskipped(a: Json, b: Json, skip: set<string>, c: KeyChange, i: nat)
    requires c in Diff(a, b, skip) && i < |c.keys| - 1
    ensures c.keys[i] !in skip
    decreases i
  {
    var k := FirstKey(a, b, skip, c);
    var below := ChangeBelow(k, Diff(a.fields[k], b.fields[k], skip), c);
    if i > 0 { ChangeUnskipped(a.fields[k], b.fields[k], skip, below, i - 1); }
  }

  lemma ChangeBelow(k: string, cs: seq<KeyChange>, c: KeyChange) returns (below: KeyChange)
    requires c in Under(k, cs)
    ensures below in cs && c.keys == [k] + below.keys && c.keys[1..] == below.keys
  {
    UnderMembers(k, cs);
    var j :| 0 <= j < |cs| && Under(k, cs)[j] == c;
    below := cs[j];
  }

  /** The documents differ at the location of the change and above it, where no key is skipped. */
  ghost predicate Marks(skip: set<string>, a: Json, b: Json, c: KeyChange) {
    && c.keys != []
    && (forall n {:trigger c.keys[..n]} :: 0 <= n <= |c.keys| ==> !Agree(skip, At(a, c.keys[..n]), At(b, c.keys[..n])))
    && (forall i :: 0 <= i < |c.keys| - 1 ==> c.keys[i] !in skip)
  }

  ghost predicate AllMark(skip: set<string>, a: Json, b: Json, cs: seq<KeyChange>) {
    forall c :: c in cs ==> Marks(skip, a, b, c)
  }

  lemma DiffMarks(a: Json, b: Json, skip: set<string>)
    requires a.Obj? && b.Obj?
    ensures AllMark(skip, a, b, Diff(a, b, skip))
  {
    KeysDiffKeepsRoot(a, b, SortedKeys(a.fields.Keys + b.fields.Keys), skip);
    forall c | c in Diff(a, b, skip) ensures Marks(skip, a, b, c) {
      forall n | 0 <= n <= |c.keys| ensures !Agree(skip, At(a, c.keys[..n]), At(b, c.keys[..n])) { ChangeDiffers(a, b, skip, c, n); }
      forall i | 0 <= i < |c.keys| - 1 ensures c.keys[i] !in skip { ChangeUnskipped(a, b, skip, c, i); }
    }
  }

  /** With a dotted location among them, the rows leave one of the differences in place. */
  lemma DottedRowsMiss(a: Json, b: Json, cs: seq<KeyChange>)
    requires NoOverlaps(cs) && !DotFreePaths(cs) && AllMark(DB_SKIP, a, b, cs)
    ensures !EqUpTo(DB_SKIP, Replay(a, Rows([], cs)), b)
  {
    var c := SomeEarliest(cs);
    assert Marks(DB_SKIP, a, b, c);
    RowsMiss(cs, c, cs);
    ReplayLeaves(a, Rows([], cs), DottedPrefix(c));
    PrefixUnskipped(a, b, c);
    StillDiffers(a, b, Replay(a, Rows([], cs)), DottedPrefix(c));
  }

  /** One dotted difference, and the replay misses the newer document. */
  lemma DottedChangeIsLost(a: Json, b: Json)
    requires a.Obj? && b.Obj? && !DotFreeChanges(DB_SKIP, a, b)
    ensures !EqUpTo(DB_SKIP, Replay(a, Rows([], Diff(a, b, DB_SKIP))), b)
  {
    DiffDotFreeIff(a, b, DB_SKIP);
    DiffNoOverlaps(a, b, DB_SKIP);
    DiffMarks(a, b, DB_SKIP);
    DottedRowsMiss(a, b, Diff(a, b, DB_SKIP));
  }

  lemma SomeEarliest(cs: seq<KeyChange>) returns (c: KeyChange)
    requires !DotFreePaths(cs)
    ensures c in cs && IsDotted(c) && forall e :: e in cs && IsDotted(e) ==> FirstDotted(c.keys) <= FirstDotted(e.keys)
  {
    var d, key :| d in cs && key in d.keys && '.' in key;
    assert IsDotted(d) by { assert d.keys[..|d.keys|] == d.keys; }
    c := EarliestDotted(cs);
  }

  lemma PrefixUnskipped(a: Json, b: Json, c: KeyChange)
    requires Marks(DB_SKIP, a, b, c) && IsDotted(c)
    ensures forall k :: k in DottedPrefix(c) ==> k !in DB_SKIP
  {
    DottedIsKept(c.keys[FirstDotted(c.keys)]);
    KeysOfPart(c.keys, FirstDotted(c.keys) + 1);
  }

  lemma DottedIsKept(key: string)
    requires '.' in key
    ensures key !in DB_SKIP
  {
    assert '.' !in "timestamp" && '.' !in "stored_at" && '.' !in "schema_version";
  }

  lemma KeysOfPart(keys: seq<string>, n: nat)
    requires n <= |keys| && forall i :: 0 <= i < n ==> keys[i] !in DB_SKIP
    ensures forall k :: k in keys[..n] ==> k !in DB_SKIP
  {
  }

  lemma StillDiffers(a: Json, b: Json, r: Json, p: seq<string>)
    requires At(r, p) == At(a, p) && !Agree(DB_SKIP, At(a, p), At(b, p)) && forall k :: k in p ==> k !in DB_SKIP
    ensures !EqUpTo(DB_SKIP, r, b)
  {
    if EqUpTo(DB_SKIP, r, b) { AgreeBelow(DB_SKIP, r, b, p); }
  }

  lemma {:induction false} RowsMiss(cs: seq<KeyChange>, c: KeyChange, some: seq<KeyChange>)
    requires NoOverlaps(cs) && c in cs && IsDotted(c) && forall e :: e in cs ==> e.keys != []
    requires forall e :: e in cs && IsDotted(e) ==> FirstDotted(c.keys) <= FirstDotted(e.keys)
    requires forall e :: e in some ==> e in cs
    ensures Misses(Rows([], some), DottedPrefix(c))
  {
    if some != [] {
      assert some[0] in some && [] + some[0].keys == some[0].keys;
      PathMisses(cs, c, some[0]);
      RowsMiss(cs, c, some[1..]);
    }
  }

  /** The recorded rows rebuild the newer document exactly if no location at which the two differ has a dotted key. */
  lemma RowsRebuildIff(a: Json, b: Json)
    requires a.Obj? && b.Obj?
    ensures EqUpTo(DB_SKIP, Replay(a, Rows([], Diff(a, b, DB_SKIP))), b) <==> DotFreeChanges(DB_SKIP, a, b)
  {
    if DotFreeChanges(DB_SKIP, a, b) {
      EqUpToReflexive(DB_SKIP, a);
      RowsRebuild(a, a, b);
    } else {
      DottedChangeIsLost(a, b);
    }
  }

  /** A key such as "a.b" whose value changes is one such location. */
  lemma DottedKeyIsNotReplayed(a: string, b: string)
    requires a + "." + b !in DB_SKIP
    ensures var k := a + "." + b;
      var before, after := Obj(map[k := Int(1)]), Obj(map[k := Int(2)]);
      !EqUpTo(DB_SKIP, Replay(before, Rows([], Diff(before, after, DB_SKIP))), after)
  {
    var k := a + "." + b;
    var before, after := Obj(map[k := Int(1)]), Obj(map[k := Int(2)]);
    assert k[|a|] == '.' && k in before.fields;
    assert !EqUpTo(DB_SKIP, before.fields[k], after.fields[k]);
    assert !DotFreeChangesAt(DB_SKIP, before, after, k);
    RowsRebuildIff(before, after);
  }
}
