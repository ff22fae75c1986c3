// What a drift record says, in terms of the two documents (doc-gen/drift.py:13-127).

module DriftRecords {
  import opened Drift
  import opened DriftPaths
  import opened JsonValues
  import opened Options
  import opened Text

  // ----- Paths -----

  lemma {:induction false} OneStepFurther(prefix: string, loc: seq<Step>, step: Step)
    ensures PathFrom(prefix, loc + [step]) == Extend(PathFrom(prefix, loc), step)
    decreases |loc|
  {
    if loc == [] {
      assert loc + [step] == [step] && [step][1..] == [];
    } else {
      assert (loc + [step])[0] == loc[0] && (loc + [step])[1..] == loc[1..] + [step];
      OneStepFurther(Extend(prefix, loc[0]), loc[1..], step);
    }
  }

  /** A path grows by a dot and a key, the first key without the dot, or by an index in brackets. */
  lemma PathGrows(loc: seq<Step>, step: Step)
    requires Clean(loc)
    ensures PathOf([]) == ""
    ensures PathOf(loc + [step]) == match step
      case Field(k) => if loc == [] then k else PathOf(loc) + "." + k
      case Item(i) => PathOf(loc) + "[" + Decimal(i) + "]"
  {
    OneStepFurther("", loc, step);
    if loc != [] { RootIsWritten(loc); }
  }

  // ----- Skipped paths -----

  lemma {:induction false} FirstPart(text: string, sep: char)
    ensures Split(sep, text)[0] == text[..IndexOf(text, sep)]
  {
    var i := IndexOf(text, sep);
    if i == |text| { assert text[..i] == text; }
  }

  lemma UpToDot(k: string, rest: string)
    requires '.' !in k
    ensures rest == "" || rest[0] == '.' ==> Split('.', k + rest)[0] == k
    ensures rest != "" && rest[0] == '[' ==> '[' in Split('.', k + rest)[0]
  {
    var text := k + rest;
    var i := IndexOf(text, '.');
    FirstPart(text, '.');
    assert i >= |k| by {
      assert forall j :: 0 <= j < |k| ==> text[j] == k[j] && k[j] in k;
    }
    if rest == "" {
      assert text == k;
    } else if rest[0] == '.' {
      IndexOfAppend(k, '.', rest[1..]);
      assert text == k + ['.'] + rest[1..];
    } else if rest[0] == '[' {
      assert text[|k|] == '[' && i > |k|;
      assert text[..i][|k|] == '[';
    }
  }

  lemma KeyThenRest(loc: seq<Step>)
    requires Clean(loc) && loc != [] && loc[0].Field?
    ensures PathOf(loc) == loc[0].key + Written(Token, loc[1..]) && '.' !in loc[0].key
  {
    assert CleanStep(loc[0]);
    PathIsWritten(loc[0].key, loc[1..]);
  }

  lemma FirstPartOfPath(loc: seq<Step>)
    requires Clean(loc) && loc != [] && loc[0].Field?
    ensures |loc| == 1 || loc[1].Field? ==> Split('.', PathOf(loc))[0] == loc[0].key
    ensures |loc| > 1 && loc[1].Item? ==> '[' in Split('.', PathOf(loc))[0]
  {
    KeyThenRest(loc);
    if |loc| > 1 { FirstIsToken(loc[1..]); }
    UpToDot(loc[0].key, Written(Token, loc[1..]));
  }

  lemma NoBracketInNames(s: string)
    ensures s in {"schema_version", "collected_at", "assessment_tier"} ==> '[' !in s
  {
  }

  lemma BracketFirst(path: string)
    requires path != "" && path[0] == '['
    ensures !Skipped(path)
  {
    FirstPart(path, '.');
    var i := IndexOf(path, '.');
    assert path[..i][0] == '[';
    NoBracketInNames(path[..i]);
  }

  lemma SkippedByName(path: string)
    ensures Skipped(path) <==> Split('.', path)[0] in {"schema_version", "collected_at", "assessment_tier"}
  {
  }

  /** What lies under one of three top-level keys is skipped, unless the key holds a list. */
  lemma SkippedIs(loc: seq<Step>)
    requires Clean(loc)
    ensures Skipped(PathOf(loc))
      <==> (&& loc != [] && loc[0].Field? && loc[0].key in {"schema_version", "collected_at", "assessment_tier"}
            && (|loc| == 1 || loc[1].Field?))
  {
    SkippedByName(PathOf(loc));
    if loc == [] {
      FirstPart("", '.');
    } else if loc[0].Field? {
      FirstPartOfPath(loc);
      NoBracketInNames(Split('.', PathOf(loc))[0]);
    } else {
      RootIsWritten(loc);
      BracketFirst(PathOf(loc));
    }
  }

  // ----- Records -----

  predicate Mentions(path: string, fragments: set<string>) {
    exists f :: f in fragments && Contains(Lower(path), f)
  }

  /** The two sides, with null for a missing one. HIGH and MEDIUM go by what the path mentions, in any letter case, and
      only where both sides have a value. */
  lemma RecordIs(a: map<string, Json>, b: map<string, Json>, path: string)
    ensures var r := RecordOf(a, b, path);
      && r.path == path
      && r.fromValue == (if path in a then a[path] else Null) && r.toValue == (if path in b then b[path] else Null)
      && (r.severity == High <==>
            path in a && path in b && Mentions(path, {"ip", "hostname", "address", "gateway", "nameserver"}))
      && (r.severity == Medium <==>
            path in a && path in b && !Mentions(path, {"ip", "hostname", "address", "gateway", "nameserver"})
            && Mentions(path, {"version", "release", "kernel", "pve_version"}))
  {
    SeverityIs(path);
  }

  lemma SeverityIs(path: string)
    ensures SeverityOf(path) == High <==> Mentions(path, {"ip", "hostname", "address", "gateway", "nameserver"})
    ensures SeverityOf(path) == Medium
      <==> (!Mentions(path, {"ip", "hostname", "address", "gateway", "nameserver"})
            && Mentions(path, {"version", "release", "kernel", "pve_version"}))
  {
    HighIs(path);
    MediumIs(path);
  }

  lemma HighIs(path: string)
    ensures Mentions(path, {"ip", "hostname", "address", "gateway", "nameserver"})
      <==> (Contains(Lower(path), "ip") || Contains(Lower(path), "hostname") || Contains(Lower(path), "address")
            || Contains(Lower(path), "gateway") || Contains(Lower(path), "nameserver"))
  {
    var fragments := {"ip", "hostname", "address", "gateway", "nameserver"};
    assert "ip" in fragments && "hostname" in fragments && "address" in fragments && "gateway" in fragments && "nameserver" in fragments;
  }

  lemma MediumIs(path: string)
    ensures Mentions(path, {"version", "release", "kernel", "pve_version"})
      <==> (Contains(Lower(path), "version") || Contains(Lower(path), "release") || Contains(Lower(path), "kernel")
            || Contains(Lower(path), "pve_version"))
  {
    var fragments := {"version", "release", "kernel", "pve_version"};
    assert "version" in fragments && "release" in fragments && "kernel" in fragments && "pve_version" in fragments;
  }

  /** In clean documents the record of a path holds the two leaves at its address. */
  lemma RecordOfLeaves(from: Json, to: Json, a: map<string, Json>, b: map<string, Json>, loc: seq<Step>)
    requires CleanDoc(from) && CleanDoc(to) && IsFlat(a, from, "") && IsFlat(b, to, "") && Clean(loc)
    ensures var r := RecordOf(a, b, PathOf(loc));
      && (if HasLeaf(from, loc) then LeafAt(from, loc, r.fromValue) else r.fromValue == Null)
      && (if HasLeaf(to, loc) then LeafAt(to, loc, r.toValue) else r.toValue == Null)
  {
    FlatIsLeaves(a, from, loc);
    FlatIsLeaves(b, to, loc);
    RecordIs(a, b, PathOf(loc));
  }

  /** The overall severity: HIGH if some record is, else MEDIUM if some record is, else LOW. */
  lemma WorstIs(s: Severity, diffs: seq<Record>)
    requires IsWorst(s, diffs)
    ensures s == High <==> exists d :: d in diffs && d.severity == High
    ensures s == Medium <==> (exists d :: d in diffs && d.severity == Medium) && forall d :: d in diffs ==> d.severity != High
  {
  }
}
