// Every failed check is reported: the error list is exactly the list of what fails.

module ErrorLists {
  import opened ErrorPaths
  import opened JsonValues
  import opened Options
  import opened SchemaChecks
  import opened SchemaSpec
  import opened Text

  lemma {:induction false} EachMissingIsIn(fields: map<string, Json>, required: seq<string>, path: string, n: nat, i: nat)
    requires i < n <= |required| && required[i] !in fields
    ensures Error(path + "." + required[i], Missing) in MissingUpTo(fields, required, path, n)
  {
    if i < n - 1 { EachMissingIsIn(fields, required, path, n - 1, i); }
  }

  /** What checking this value alone finds is in its own list. */
  lemma OwnFailureIsIn(defs: map<string, Schema>, rank: string -> nat, v: Json, s: Schema, path: string, e: Error)
    requires Ranked(defs, rank) && s.oneOf.AnyShape? && Fails(defs, rank, v, s, e, path)
    requires e.kind == NotInEnum || e.kind == Missing
    ensures e in OwnErrors(v, s, path)
  {
    if e.kind == Missing {
      var required := s.required.value;
      var k :| k in required && k !in v.fields && e.path == path + "." + k;
      var i :| 0 <= i < |required| && required[i] == k;
      EachMissingIsIn(v.fields, required, path, |required|, i);
    }
  }

  lemma ThenKeeps(a: Outcome, b: Outcome)
    requires Then(a, b).Errors?
    ensures a.Errors? && b.Errors? && Then(a, b).errors == a.errors + b.errors
  {
  }

  /** The four parts of a plain check, when none of them raises. */
  lemma PartsOfCheck(defs: map<string, Schema>, rank: string -> nat, v: Json, s: Schema, path: string) returns (fields: Outcome, items: Outcome)
    requires Ranked(defs, rank) && s.ref.None? && s.oneOf.AnyShape? && TypeOk(v, s)
    requires Check(defs, rank, v, s, path).Errors?
    ensures fields == if s.properties.Properties? && v.Obj? then CheckFields(defs, rank, v, s, path, |s.properties.fields|) else Errors([])
    ensures items == if s.items.Some? && v.Arr? then CheckItems(defs, rank, v, s, path, |v.items|) else Errors([])
    ensures fields.Errors? && items.Errors?
    ensures Check(defs, rank, v, s, path).errors
         == OwnErrors(v, s, path) + fields.errors + items.errors + If(!FormatOk(v, s), path, BadFormat)
  {
    fields := if s.properties.Properties? && v.Obj? then CheckFields(defs, rank, v, s, path, |s.properties.fields|) else Errors([]);
    items := if s.items.Some? && v.Arr? then CheckItems(defs, rank, v, s, path, |v.items|) else Errors([]);
    var own, format := Errors(OwnErrors(v, s, path)), Errors(If(!FormatOk(v, s), path, BadFormat));
    ThenKeeps(Then(Then(own, fields), items), format);
    ThenKeeps(Then(own, fields), items);
    ThenKeeps(own, fields);
  }

  lemma {:induction false} FieldIsChecked(defs: map<string, Schema>, rank: string -> nat, v: Json, s: Schema, path: string, n: nat, i: nat)
    requires Ranked(defs, rank) && s.ref.None? && s.oneOf.AnyShape?
    requires v.Obj? && s.properties.Properties? && i < n <= |s.properties.fields| && s.properties.fields[i].key in v.fields
    requires CheckFields(defs, rank, v, s, path, n).Errors?
    ensures var p := s.properties.fields[i];
      var o := Check(defs, rank, v.fields[p.key], p.schema, path + "." + p.key);
      o.Errors? && forall e :: e in o.errors ==> e in CheckFields(defs, rank, v, s, path, n).errors
    decreases n
  {
    if i < n - 1 { FieldIsChecked(defs, rank, v, s, path, n - 1, i); }
  }

  lemma {:induction false} ItemIsChecked(defs: map<string, Schema>, rank: string -> nat, v: Json, s: Schema, path: string, n: nat, i: nat)
    requires Ranked(defs, rank) && s.ref.None? && s.oneOf.AnyShape?
    requires v.Arr? && s.items.Some? && i < n <= |v.items|
    requires CheckItems(defs, rank, v, s, path, n).Errors?
    ensures var o := Check(defs, rank, v.items[i], s.items.value, path + "[" + Decimal(i) + "]");
      o.Errors? && forall e :: e in o.errors ==> e in CheckItems(defs, rank, v, s, path, n).errors
    decreases n
  {
    var last := ItemsStep(defs, rank, v, s, path, n);
    ThenKeeps(CheckItems(defs, rank, v, s, path, n - 1), last);
    if i < n - 1 { ItemIsChecked(defs, rank, v, s, path, n - 1, i); }
  }

  /** A failure at the value itself. */
  lemma FailureHere(defs: map<string, Schema>, rank: string -> nat, v: Json, s: Schema, path: string, e: Error)
    requires Ranked(defs, rank) && Check(defs, rank, v, s, path).Errors? && Fails(defs, rank, v, s, e, path)
    ensures e in Check(defs, rank, v, s, path).errors
  {
    if s.oneOf.OneOf? {
      CheckDecides(defs, rank, v, s, path);
      OneErrorFrom(defs, rank, v, s, path, 0);
      assert e == Error(path, NoAlternative);
    } else if !TypeOk(v, s) {
      assert e == Error(path, WrongType);
    } else {
      var fields, items := PartsOfCheck(defs, rank, v, s, path);
      if e.kind == BadFormat { assert e == Error(path, BadFormat); }
      else { OwnFailureIsIn(defs, rank, v, s, path, e); }
    }
  }

  /** The schema a first step leads to, and the check of the value there. */
  lemma StepDown(defs: map<string, Schema>, rank: string -> nat, v: Json, s: Schema, path: string, loc: seq<Step>, t: Schema)
    returns (child: Json, below: Schema)
    requires Ranked(defs, rank) && s.ref.None? && loc != [] && AppliedAt(defs, rank, v, s, loc, t)
    requires Check(defs, rank, v, s, path).Errors?
    ensures ValueAt(v, [loc[0]]) == Some(child) && child < v
    ensures AppliedAt(defs, rank, child, below, loc[1..], t)
    ensures var o := Check(defs, rank, child, below, path + Render([loc[0]]));
      o.Errors? && forall e :: e in o.errors ==> e in Check(defs, rank, v, s, path).errors
  {
    var fields, items := PartsOfCheck(defs, rank, v, s, path);
    OneStep(v, loc[0], path);
    match loc[0] {
      case Field(k) =>
        var i :| 0 <= i < |s.properties.fields| && s.properties.fields[i].key == k
          && AppliedAt(defs, rank, v.fields[k], s.properties.fields[i].schema, loc[1..], t);
        child, below := v.fields[k], s.properties.fields[i].schema;
        FieldIsChecked(defs, rank, v, s, path, |s.properties.fields|, i);
      case Item(i) =>
        child, below := v.items[i], s.items.value;
        ItemIsChecked(defs, rank, v, s, path, |v.items|, i);
    }
  }

  /** Whatever fails at an existing location is reported. */
  lemma {:induction false} FailureIsReported(defs: map<string, Schema>, rank: string -> nat, v: Json, s: Schema, path: string, e: Error,
                                             loc: seq<Step>, t: Schema)
    requires Ranked(defs, rank) && Check(defs, rank, v, s, path).Errors? && IsAbout(defs, rank, v, s, path, e, loc, t)
    ensures e in Check(defs, rank, v, s, path).errors
    decreases v, Bound(defs, rank, s), s
  {
    if s.ref.Some? {
      FailureIsReported(defs, rank, v, defs[Key(s.ref.value)], path, e, loc, t);
    } else if loc == [] {
      assert path + Render(loc) == path;
      FailureHere(defs, rank, v, s, path, e);
    } else {
      var child, below := StepDown(defs, rank, v, s, path, loc, t);
      AboutBelow(v, loc[0], child, loc[1..]);
      assert [loc[0]] + loc[1..] == loc;
      assert path + Render([loc[0]]) + Render(loc[1..]) == path + Render(loc);
      FailureIsReported(defs, rank, child, below, path + Render([loc[0]]), e, loc[1..], t);
    }
  }

  /** The errors are exactly the failures: every reported error is true, and every failed check is reported. */
  lemma ErrorsAreExact(defs: map<string, Schema>, rank: string -> nat, v: Json, s: Schema, path: string)
    requires Ranked(defs, rank)
    ensures var o := Check(defs, rank, v, s, path);
      o.Errors? ==> forall e :: e in o.errors <==> IsReal(defs, rank, v, s, path, e)
  {
    ErrorsAreReal(defs, rank, v, s, path);
    var o := Check(defs, rank, v, s, path);
    if o.Errors? {
      forall e | IsReal(defs, rank, v, s, path, e) ensures e in o.errors {
        var loc, t :| IsAbout(defs, rank, v, s, path, e, loc, t);
        FailureIsReported(defs, rank, v, s, path, e, loc, t);
      }
    }
  }

  // ----- Why a run is broken off -----

  ghost predicate BlamesBadRef(defs: map<string, Schema>, o: Outcome) {
    o.Raised? ==> !Resolves(defs, o.ref)
  }

  /** The reference a broken-off run names is dangling or external. */
  lemma {:induction false} RaisedIsUnresolved(defs: map<string, Schema>, rank: string -> nat, v: Json, s: Schema, path: string)
    requires Ranked(defs, rank)
    ensures BlamesBadRef(defs, Check(defs, rank, v, s, path))
    decreases v, Bound(defs, rank, s), s
  {
    if s.ref.Some? {
      if Resolves(defs, s.ref.value) { RaisedIsUnresolved(defs, rank, v, defs[Key(s.ref.value)], path); }
    } else if s.oneOf.OneOf? {
      AlternativesBlame(defs, rank, v, s, path, 0);
    } else if TypeOk(v, s) {
      if s.properties.Properties? && v.Obj? { FieldsBlame(defs, rank, v, s, path, |s.properties.fields|); }
      if s.items.Some? && v.Arr? { ItemsBlame(defs, rank, v, s, path, |v.items|); }
    }
  }

  lemma {:induction false} AlternativesBlame(defs: map<string, Schema>, rank: string -> nat, v: Json, s: Schema, path: string, i: nat)
    requires Ranked(defs, rank) && s.ref.None? && s.oneOf.OneOf? && i <= |s.oneOf.subs|
    ensures BlamesBadRef(defs, CheckFrom(defs, rank, v, s, path, i))
    decreases v, Bound(defs, rank, s), s, |s.oneOf.subs| - i
  {
    if i < |s.oneOf.subs| {
      RaisedIsUnresolved(defs, rank, v, s.oneOf.subs[i], path);
      AlternativesBlame(defs, rank, v, s, path, i + 1);
    }
  }

  lemma {:induction false} FieldsBlame(defs: map<string, Schema>, rank: string -> nat, v: Json, s: Schema, path: string, n: nat)
    requires Ranked(defs, rank) && s.ref.None? && s.oneOf.AnyShape?
    requires v.Obj? && s.properties.Properties? && n <= |s.properties.fields|
    ensures BlamesBadRef(defs, CheckFields(defs, rank, v, s, path, n))
    decreases v, Bound(defs, rank, s), s, n
  {
    if n > 0 {
      var p := s.properties.fields[n - 1];
      FieldsBlame(defs, rank, v, s, path, n - 1);
      if p.key in v.fields { RaisedIsUnresolved(defs, rank, v.fields[p.key], p.schema, path + "." + p.key); }
    }
  }

  lemma {:induction false} ItemsBlame(defs: map<string, Schema>, rank: string -> nat, v: Json, s: Schema, path: string, n: nat)
    requires Ranked(defs, rank) && s.ref.None? && s.oneOf.AnyShape?
    requires v.Arr? && s.items.Some? && n <= |v.items|
    ensures BlamesBadRef(defs, CheckItems(defs, rank, v, s, path, n))
    decreases v, Bound(defs, rank, s), s, n
  {
    if n > 0 {
      ItemsBlame(defs, rank, v, s, path, n - 1);
      RaisedIsUnresolved(defs, rank, v.items[n - 1], s.items.value, path + "[" + Decimal(n - 1) + "]");
      var last := ItemsStep(defs, rank, v, s, path, n);
    }
  }
}
