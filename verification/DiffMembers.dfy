// Which changes the recursive diff reports, said of the two documents alone (engine/diff.py:74-113,
// engine/db.py:359-388).

module DiffMembers {
  import opened Sorting
  import opened Text
  import opened JsonValues
  import opened Options
  import opened Diffs
  import opened Changes

  /** The value at a location of object keys. */
  function At(d: Json, keys: seq<string>): Option<Json>
    decreases |keys|
  {
    if keys == [] then Some(d)
    else if d.Obj? && keys[0] in d.fields then At(d.fields[keys[0]], keys[1..])
    else None
  }

  predicate IsObject(x: Option<Json>) {
    x.Some? && x.value.Obj?
  }

  /** Both documents have objects all the way down to the location, and no key on the way is skipped; a skipped
      last key is looked at only where one side lacks it. */
  ghost predicate Compared(a: Json, b: Json, skip: set<string>, keys: seq<string>) {
    && (forall i :: 0 <= i < |keys| ==> IsObject(At(a, keys[..i])) && IsObject(At(b, keys[..i])))
    && (forall i :: 0 <= i < |keys| && keys[i] in skip ==> i == |keys| - 1 && (At(a, keys).None? || At(b, keys).None?))
  }

  /** A value on one side only, or two values that are not both objects and not equal. */
  predicate Unlike(x: Option<Json>, y: Option<Json>) {
    if x.None? || y.None? then x != y
    else if x.value.Obj? && y.value.Obj? then false
    else if x.value.Arr? && y.value.Arr? then x != y
    else !PyEq(x.value, y.value)
  }

  lemma CompareRoot(a: Json, b: Json, skip: set<string>)
    ensures Compared(a, b, skip, [])
  {
  }

  lemma AtHead(d: Json, keys: seq<string>, i: nat)
    requires d.Obj? && 0 < i <= |keys| && keys[0] in d.fields
    ensures At(d, keys[..i]) == At(d.fields[keys[0]], keys[1..][..i - 1])
  {
    assert keys[..i][0] == keys[0] && keys[..i][1..] == keys[1..][..i - 1];
  }

  /** Below a key that both objects have and that is not skipped. */
  lemma CompareBelow(a: Json, b: Json, skip: set<string>, keys: seq<string>)
    requires keys != [] && a.Obj? && b.Obj? && keys[0] in a.fields && keys[0] in b.fields && keys[0] !in skip
    ensures Compared(a, b, skip, keys) <==> Compared(a.fields[keys[0]], b.fields[keys[0]], skip, keys[1..])
  {
    var x, y, rest := a.fields[keys[0]], b.fields[keys[0]], keys[1..];
    assert keys[..|keys|] == keys;
    AtHead(a, keys, |keys|);
    AtHead(b, keys, |keys|);
    assert rest[..|keys| - 1] == rest;
    forall i | 0 <= i < |rest| ensures At(a, keys[..i + 1]) == At(x, rest[..i]) && At(b, keys[..i + 1]) == At(y, rest[..i]) {
      AtHead(a, keys, i + 1);
      AtHead(b, keys, i + 1);
    }
    if Compared(a, b, skip, keys) {
      forall i | 0 <= i < |rest| ensures IsObject(At(x, rest[..i])) && IsObject(At(y, rest[..i])) {
        assert IsObject(At(a, keys[..i + 1])) && IsObject(At(b, keys[..i + 1]));
      }
      forall i | 0 <= i < |rest| && rest[i] in skip ensures i == |rest| - 1 && (At(x, rest).None? || At(y, rest).None?) {
        assert keys[i + 1] == rest[i];
      }
    }
    if Compared(x, y, skip, rest) {
      forall i | 0 <= i < |keys| ensures IsObject(At(a, keys[..i])) && IsObject(At(b, keys[..i])) {
        if i > 0 { assert IsObject(At(x, rest[..i - 1])) && IsObject(At(y, rest[..i - 1])); }
      }
      forall i | 0 <= i < |keys| && keys[i] in skip ensures i == |keys| - 1 && (At(a, keys).None? || At(b, keys).None?) {
        assert rest[i - 1] == keys[i];
      }
    }
  }

  /** At a key that only one side has. */
  lemma CompareAt(a: Json, b: Json, skip: set<string>, k: string)
    requires a.Obj? && b.Obj? && (k !in a.fields || k !in b.fields)
    ensures Compared(a, b, skip, [k])
  {
    assert [k][..0] == [];
  }

  ghost predicate IsChange(a: Json, b: Json, skip: set<string>, c: KeyChange) {
    Compared(a, b, skip, c.keys) && Unlike(At(a, c.keys), At(b, c.keys)) && c.before == At(a, c.keys) && c.after == At(b, c.keys)
  }

  lemma {:induction false} InUnder(k: string, cs: seq<KeyChange>, c: KeyChange)
    ensures c in Under(k, cs) <==> c.keys != [] && c.keys[0] == k && c.(keys := c.keys[1..]) in cs
  {
    if cs != [] {
      InUnder(k, cs[1..], c);
      var first := cs[0].(keys := [k] + cs[0].keys);
      assert ([k] + cs[0].keys)[1..] == cs[0].keys;
      if c.keys != [] { assert c.keys == [c.keys[0]] + c.keys[1..]; }
      assert c == first <==> c.keys != [] && c.keys[0] == k && c.(keys := c.keys[1..]) == cs[0];
    }
  }

  lemma {:induction false} InKeysDiff(a: Json, b: Json, ks: seq<string>, skip: set<string>, c: KeyChange)
    requires a.Obj? && b.Obj?
    ensures c in KeysDiff(a, b, ks, skip) <==> exists k :: k in ks && c in KeyDiff(a, b, k, skip)
    decreases |ks|
  {
    if ks != [] {
      InKeysDiff(a, b, ks[1..], skip, c);
      if k :| k in ks[1..] && c in KeyDiff(a, b, k, skip) { assert k in ks; }
      if k :| k in ks && c in KeyDiff(a, b, k, skip) { assert k == ks[0] || k in ks[1..]; }
    }
  }

  /** A change of one key is a change whose location starts with that key. */
  lemma {:induction false} KeyDiffIs(a: Json, b: Json, k: string, skip: set<string>, c: KeyChange)
    requires a.Obj? && b.Obj? && (k in a.fields || k in b.fields)
    ensures c in KeyDiff(a, b, k, skip) <==> c.keys != [] && c.keys[0] == k && IsChange(a, b, skip, c)
    decreases a, 0
  {
    if k in a.fields && k in b.fields {
      if k in skip {
        if c.keys != [] && c.keys[0] == k { SkippedIsNoChange(a, b, skip, c); }
      } else {
        var below := c.(keys := if c.keys == [] then [] else c.keys[1..]);
        InUnder(k, Diff(a.fields[k], b.fields[k], skip), c);
        DiffIs(a.fields[k], b.fields[k], skip, below);
        if c.keys != [] && c.keys[0] == k { CompareBelow(a, b, skip, c.keys); }
      }
    } else {
      OneSidedIs(a, b, skip, k, c);
    }
  }

  lemma SkippedIsNoChange(a: Json, b: Json, skip: set<string>, c: KeyChange)
    requires a.Obj? && b.Obj? && c.keys != [] && c.keys[0] in a.fields && c.keys[0] in b.fields && c.keys[0] in skip
    ensures !IsChange(a, b, skip, c)
  {
    if |c.keys| == 1 { assert c.keys[1..] == [] && At(a, c.keys).Some? && At(b, c.keys).Some?; }
    assert Compared(a, b, skip, c.keys) ==> |c.keys| == 1;
  }

  lemma OneSidedIsShort(a: Json, b: Json, skip: set<string>, keys: seq<string>)
    requires a.Obj? && b.Obj? && |keys| > 1 && (keys[0] !in a.fields || keys[0] !in b.fields)
    ensures !Compared(a, b, skip, keys)
  {
    var first := keys[..1];
    assert first == [keys[0]];
    assert !IsObject(At(a, first)) || !IsObject(At(b, first));
  }

  lemma AtOne(d: Json, k: string)
    requires d.Obj?
    ensures At(d, [k]) == if k in d.fields then Some(d.fields[k]) else None
  {
    assert [k][1..] == [];
  }

  /** A key that only one side has is one change, with the value it has there. */
  lemma OneSidedIs(a: Json, b: Json, skip: set<string>, k: string, c: KeyChange)
    requires a.Obj? && b.Obj? && (k in a.fields) != (k in b.fields)
    ensures c.keys != [] && c.keys[0] == k && IsChange(a, b, skip, c)
      <==> c == KeyChange([k], if k in a.fields then Some(a.fields[k]) else None, if k in b.fields then Some(b.fields[k]) else None)
  {
    CompareAt(a, b, skip, k);
    AtOne(a, k);
    AtOne(b, k);
    if |c.keys| > 1 && c.keys[0] == k { OneSidedIsShort(a, b, skip, c.keys); }
    if |c.keys| == 1 && c.keys[0] == k { assert c.keys == [k]; }
  }

  /** The diff reports exactly these changes, each with the two values found at its location. */
  lemma {:induction false} DiffIs(a: Json, b: Json, skip: set<string>, c: KeyChange)
    ensures c in Diff(a, b, skip) <==> IsChange(a, b, skip, c)
    decreases a, 1
  {
    if a.Obj? && b.Obj? {
      var ks := SortedKeys(a.fields.Keys + b.fields.Keys);
      InKeysDiff(a, b, ks, skip, c);
      forall k | k in ks ensures c in KeyDiff(a, b, k, skip) <==> c.keys != [] && c.keys[0] == k && IsChange(a, b, skip, c) {
        KeyDiffIs(a, b, k, skip, c);
      }
      if c.keys != [] && IsChange(a, b, skip, c) { assert c.keys[0] in ks; }
    } else {
      CompareRoot(a, b, skip);
      if c.keys != [] { assert c.keys[..0] == []; }
    }
  }

  // ----- What the two implementations record -----

  lemma {:induction false} InRows(cs: seq<KeyChange>, r: RowChange)
    ensures r in Rows([], cs) <==> exists c :: c in cs && r == RowChange(Join('.', c.keys), c.before, c.after)
  {
    if cs != [] {
      InRows(cs[1..], r);
      assert [] + cs[0].keys == cs[0].keys;
      if c :| c in cs[1..] && r == RowChange(Join('.', c.keys), c.before, c.after) { assert c in cs; }
      if c :| c in cs && r == RowChange(Join('.', c.keys), c.before, c.after) { assert c == cs[0] || c in cs[1..]; }
    }
  }

  /** The change record for a location, with null for a side that is missing. */
  predicate Describes(c: KeyChange, x: Change) {
    && x.path == Join('.', c.keys)
    && x.oldValue == (if c.before.Some? then c.before.value else Null)
    && x.newValue == (if c.after.Some? then c.after.value else Null)
    && (c.before.None? ==> x.kind == Added)
    && (c.before.Some? && c.after.None? ==> x.kind == Removed)
    && (c.before.Some? && c.after.Some? ==> x.kind == Changed)
  }

  lemma RecordIs(c: KeyChange, x: Change)
    ensures x == Record([], c) <==> Describes(c, x)
  {
    assert [] + c.keys == c.keys;
    assert x == Change(x.path, x.oldValue, x.newValue, x.kind);
  }

  lemma {:induction false} InRecords(cs: seq<KeyChange>, x: Change)
    ensures x in Records([], cs) <==> exists c :: c in cs && Describes(c, x)
  {
    if cs != [] {
      InRecords(cs[1..], x);
      RecordIs(cs[0], x);
      if c :| c in cs[1..] && Describes(c, x) { assert c in cs; }
      if c :| c in cs && Describes(c, x) { assert c == cs[0] || c in cs[1..]; }
    }
  }

  ghost predicate IsRow(a: Json, b: Json, skip: set<string>, keys: seq<string>, r: RowChange) {
    Compared(a, b, skip, keys) && Unlike(At(a, keys), At(b, keys)) && r == RowChange(Join('.', keys), At(a, keys), At(b, keys))
  }

  /** engine/db.py logs one row for each of these locations: its keys joined by dots, and the two values there. */
  lemma RowsAre(a: Json, b: Json, r: RowChange)
    ensures r in Rows([], Diff(a, b, DB_SKIP)) <==> exists keys :: IsRow(a, b, {"timestamp", "stored_at", "schema_version"}, keys, r)
  {
    var skip := {"timestamp", "stored_at", "schema_version"};
    assert DB_SKIP == skip;
    if r in Rows([], Diff(a, b, skip)) { var keys := RowKeys(a, b, skip, r); }
    if keys :| IsRow(a, b, skip, keys, r) { RowAt(a, b, skip, keys, r); }
  }

  lemma RowKeys(a: Json, b: Json, skip: set<string>, r: RowChange) returns (keys: seq<string>)
    requires r in Rows([], Diff(a, b, skip))
    ensures IsRow(a, b, skip, keys, r)
  {
    InRows(Diff(a, b, skip), r);
    var c :| c in Diff(a, b, skip) && r == RowChange(Join('.', c.keys), c.before, c.after);
    DiffIs(a, b, skip, c);
    keys := c.keys;
  }

  lemma RowAt(a: Json, b: Json, skip: set<string>, keys: seq<string>, r: RowChange)
    requires IsRow(a, b, skip, keys, r)
    ensures r in Rows([], Diff(a, b, skip))
  {
    var c := KeyChange(keys, At(a, keys), At(b, keys));
    DiffIs(a, b, skip, c);
    InRows(Diff(a, b, skip), r);
  }

  ghost predicate IsRecord(a: Json, b: Json, skip: set<string>, keys: seq<string>, x: Change) {
    Compared(a, b, skip, keys) && Unlike(At(a, keys), At(b, keys)) && Describes(KeyChange(keys, At(a, keys), At(b, keys)), x)
  }

  /** engine/diff.py skips one key more. */
  lemma RecordsAre(a: Json, b: Json, x: Change)
    ensures x in Records([], Diff(a, b, DIFF_SKIP))
      <==> exists keys :: IsRecord(a, b, {"timestamp", "stored_at", "schema_version", "collector_version"}, keys, x)
  {
    var skip := {"timestamp", "stored_at", "schema_version", "collector_version"};
    assert DIFF_SKIP == skip;
    if x in Records([], Diff(a, b, skip)) { var keys := RecordKeys(a, b, skip, x); }
    if keys :| IsRecord(a, b, skip, keys, x) { RecordAt(a, b, skip, keys, x); }
  }

  lemma RecordKeys(a: Json, b: Json, skip: set<string>, x: Change) returns (keys: seq<string>)
    requires x in Records([], Diff(a, b, skip))
    ensures IsRecord(a, b, skip, keys, x)
  {
    InRecords(Diff(a, b, skip), x);
    var c :| c in Diff(a, b, skip) && Describes(c, x);
    DiffIs(a, b, skip, c);
    keys := c.keys;
    assert c == KeyChange(keys, At(a, keys), At(b, keys));
  }

  lemma RecordAt(a: Json, b: Json, skip: set<string>, keys: seq<string>, x: Change)
    requires IsRecord(a, b, skip, keys, x)
    ensures x in Records([], Diff(a, b, skip))
  {
    var c := KeyChange(keys, At(a, keys), At(b, keys));
    DiffIs(a, b, skip, c);
    InRecords(Diff(a, b, skip), x);
  }
}
