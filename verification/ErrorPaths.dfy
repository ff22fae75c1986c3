// What a reported error says: where it is, and which schema fails there.

module ErrorPaths {
  import opened JsonValues
  import opened Options
  import opened SchemaChecks
  import opened SchemaSpec
  import opened Text

  function Render(loc: seq<Step>): string {
    if loc == [] then ""
    else (if loc[0].Field? then "." + loc[0].key else "[" + Decimal(loc[0].index) + "]") + Render(loc[1..])
  }

  /** Checking `v` against `s` applies schema `t` to the value at `loc`: alternatives of a oneOf are not looked into, and
      nothing is looked into below a value of the wrong type. */
  ghost predicate AppliedAt(defs: map<string, Schema>, rank: string -> nat, v: Json, s: Schema, loc: seq<Step>, t: Schema)
    requires Ranked(defs, rank)
    decreases v, Bound(defs, rank, s), s
  {
    if s.ref.Some? then Resolves(defs, s.ref.value) && AppliedAt(defs, rank, v, defs[Key(s.ref.value)], loc, t)
    else if loc == [] then s == t
    else if s.oneOf.OneOf? || !TypeOk(v, s) then false
    else match loc[0]
      case Field(k) =>
        && v.Obj? && k in v.fields && s.properties.Properties?
        && exists i :: 0 <= i < |s.properties.fields| && s.properties.fields[i].key == k
             && AppliedAt(defs, rank, v.fields[k], s.properties.fields[i].schema, loc[1..], t)
      case Item(i) =>
        v.Arr? && i < |v.items| && s.items.Some? && AppliedAt(defs, rank, v.items[i], s.items.value, loc[1..], t)
  }

  /** The error tells the truth about a value under schema `t`, reported at path `here`. */
  ghost predicate Fails(defs: map<string, Schema>, rank: string -> nat, v: Json, t: Schema, e: Error, here: string)
    requires Ranked(defs, rank)
  {
    && t.ref.None?
    && match e.kind
       case NoAlternative => e.path == here && t.oneOf.OneOf? && !Conforms(defs, rank, v, t)
       case WrongType => e.path == here && t.oneOf.AnyShape? && !TypeOk(v, t)
       case NotInEnum => e.path == here && t.oneOf.AnyShape? && TypeOk(v, t) && !EnumOk(v, t)
       case BadFormat => e.path == here && t.oneOf.AnyShape? && TypeOk(v, t) && !FormatOk(v, t)
       case Missing =>
         && t.oneOf.AnyShape? && TypeOk(v, t) && v.Obj? && t.required.Some?
         && exists k :: k in t.required.value && k !in v.fields && e.path == here + "." + k
  }

  /** The error is about the value at `loc`, which fails the schema `t` that is applied there. */
  ghost predicate IsAbout(defs: map<string, Schema>, rank: string -> nat, v: Json, s: Schema, path: string, e: Error,
                          loc: seq<Step>, t: Schema)
    requires Ranked(defs, rank)
  {
    && ValueAt(v, loc).Some? && AppliedAt(defs, rank, v, s, loc, t)
    && Fails(defs, rank, ValueAt(v, loc).value, t, e, path + Render(loc))
  }

  ghost predicate IsReal(defs: map<string, Schema>, rank: string -> nat, v: Json, s: Schema, path: string, e: Error)
    requires Ranked(defs, rank)
  {
    exists loc, t :: IsAbout(defs, rank, v, s, path, e, loc, t)
  }

  ghost predicate AllReal(defs: map<string, Schema>, rank: string -> nat, o: Outcome, v: Json, s: Schema, path: string)
    requires Ranked(defs, rank)
  {
    o.Errors? ==> forall e :: e in o.errors ==> IsReal(defs, rank, v, s, path, e)
  }

  // ---- an error at the value itself ----

  lemma RealHere(defs: map<string, Schema>, rank: string -> nat, v: Json, s: Schema, path: string, e: Error)
    requires Ranked(defs, rank) && s.ref.None? && Fails(defs, rank, v, s, e, path)
    ensures IsReal(defs, rank, v, s, path, e)
  {
    assert path + Render([]) == path;
    assert IsAbout(defs, rank, v, s, path, e, [], s);
  }

  lemma {:induction false} MissingIsRequired(v: Json, required: seq<string>, path: string, n: nat, e: Error)
    requires v.Obj? && n <= |required| && e in MissingUpTo(v.fields, required, path, n)
    ensures e.kind == Missing && exists k :: k in required && k !in v.fields && e.path == path + "." + k
  {
    if e in MissingUpTo(v.fields, required, path, n - 1) { MissingIsRequired(v, required, path, n - 1, e); }
    else { assert required[n - 1] in required; }
  }

  lemma OwnErrorsAreReal(defs: map<string, Schema>, rank: string -> nat, v: Json, s: Schema, path: string, e: Error)
    requires Ranked(defs, rank) && s.ref.None? && s.oneOf.AnyShape? && TypeOk(v, s) && e in OwnErrors(v, s, path)
    ensures IsReal(defs, rank, v, s, path, e)
  {
    if e !in If(!EnumOk(v, s), path, NotInEnum) {
      MissingIsRequired(v, s.required.value, path, |s.required.value|, e);
    }
    RealHere(defs, rank, v, s, path, e);
  }

  // ---- an error below ----

  /** Schema `s` passes the value one step down on to schema `t`. */
  ghost predicate PassesOn(s: Schema, step: Step, t: Schema) {
    && s.ref.None? && s.oneOf.AnyShape?
    && match step
       case Field(k) => s.properties.Properties? && exists i :: 0 <= i < |s.properties.fields| && s.properties.fields[i] == Property(k, t)
       case Item(_) => s.items == Some(t)
  }

  lemma AboutBelow(v: Json, step: Step, child: Json, loc: seq<Step>)
    requires ValueAt(v, [step]) == Some(child)
    ensures ValueAt(v, [step] + loc) == ValueAt(child, loc)
    ensures Render([step] + loc) == Render([step]) + Render(loc)
  {
    assert ([step] + loc)[1..] == loc && [step][1..] == [];
  }

  lemma AppliedBelow(defs: map<string, Schema>, rank: string -> nat, v: Json, s: Schema, step: Step, child: Json, below: Schema,
                     loc: seq<Step>, t: Schema)
    requires Ranked(defs, rank) && ValueAt(v, [step]) == Some(child) && TypeOk(v, s) && PassesOn(s, step, below)
    requires AppliedAt(defs, rank, child, below, loc, t)
    ensures AppliedAt(defs, rank, v, s, [step] + loc, t)
  {
    assert ([step] + loc)[1..] == loc && [step][1..] == [];
  }

  lemma RealBelow(defs: map<string, Schema>, rank: string -> nat, v: Json, s: Schema, step: Step, child: Json, below: Schema,
                  path: string, e: Error)
    requires Ranked(defs, rank) && ValueAt(v, [step]) == Some(child) && TypeOk(v, s) && PassesOn(s, step, below)
    requires IsReal(defs, rank, child, below, path + Render([step]), e)
    ensures IsReal(defs, rank, v, s, path, e)
  {
    var loc, t :| IsAbout(defs, rank, child, below, path + Render([step]), e, loc, t);
    AboutBelow(v, step, child, loc);
    AppliedBelow(defs, rank, v, s, step, child, below, loc, t);
    assert path + Render([step]) + Render(loc) == path + Render([step] + loc);
    assert IsAbout(defs, rank, v, s, path, e, [step] + loc, t);
  }

  lemma RealFromChild(defs: map<string, Schema>, rank: string -> nat, v: Json, s: Schema, step: Step, child: Json, below: Schema,
                      path: string, o: Outcome)
    requires Ranked(defs, rank) && ValueAt(v, [step]) == Some(child) && TypeOk(v, s) && PassesOn(s, step, below)
    requires AllReal(defs, rank, o, child, below, path + Render([step]))
    ensures AllReal(defs, rank, o, v, s, path)
  {
    if o.Errors? {
      forall e | e in o.errors ensures IsReal(defs, rank, v, s, path, e) { RealBelow(defs, rank, v, s, step, child, below, path, e); }
    }
  }

  lemma OneStep(v: Json, step: Step, path: string)
    ensures step.Field? ==> path + Render([step]) == path + "." + step.key
    ensures step.Item? ==> path + Render([step]) == path + "[" + Decimal(step.index) + "]"
    ensures step.Field? && v.Obj? && step.key in v.fields ==> ValueAt(v, [step]) == Some(v.fields[step.key])
    ensures step.Item? && v.Arr? && step.index < |v.items| ==> ValueAt(v, [step]) == Some(v.items[step.index])
  {
    assert [step][1..] == [];
  }

  lemma RealThroughRef(defs: map<string, Schema>, rank: string -> nat, v: Json, s: Schema, path: string, o: Outcome)
    requires Ranked(defs, rank) && s.ref.Some? && Resolves(defs, s.ref.value)
    requires AllReal(defs, rank, o, v, defs[Key(s.ref.value)], path)
    ensures AllReal(defs, rank, o, v, s, path)
  {
    var r := defs[Key(s.ref.value)];
    if o.Errors? {
      forall e | e in o.errors ensures IsReal(defs, rank, v, s, path, e) {
        assert IsReal(defs, rank, v, r, path, e);
        var loc, t :| IsAbout(defs, rank, v, r, path, e, loc, t);
        assert IsAbout(defs, rank, v, s, path, e, loc, t);
      }
    }
  }

  // ---- all errors ----

  lemma ThenReal(defs: map<string, Schema>, rank: string -> nat, a: Outcome, b: Outcome, v: Json, s: Schema, path: string)
    requires Ranked(defs, rank) && AllReal(defs, rank, a, v, s, path) && AllReal(defs, rank, b, v, s, path)
    ensures AllReal(defs, rank, Then(a, b), v, s, path)
  {
  }

  /** Every reported error names a location of the instance and a schema applied there that the value fails in that very
      way; a missing key is one that this schema requires. */
  lemma {:induction false} ErrorsAreReal(defs: map<string, Schema>, rank: string -> nat, v: Json, s: Schema, path: string)
    requires Ranked(defs, rank)
    ensures AllReal(defs, rank, Check(defs, rank, v, s, path), v, s, path)
    decreases v, Bound(defs, rank, s), s
  {
    if s.ref.Some? {
      if Resolves(defs, s.ref.value) {
        ErrorsAreReal(defs, rank, v, defs[Key(s.ref.value)], path);
        RealThroughRef(defs, rank, v, s, path, Check(defs, rank, v, s, path));
      }
    } else if s.oneOf.OneOf? {
      AlternativesReal(defs, rank, v, s, path);
    } else if !TypeOk(v, s) {
      RealHere(defs, rank, v, s, path, Error(path, WrongType));
    } else {
      var fields := if s.properties.Properties? && v.Obj? then CheckFields(defs, rank, v, s, path, |s.properties.fields|)
                    else Errors([]);
      var items := if s.items.Some? && v.Arr? then CheckItems(defs, rank, v, s, path, |v.items|) else Errors([]);
      if s.properties.Properties? && v.Obj? { FieldsReal(defs, rank, v, s, path, |s.properties.fields|); }
      if s.items.Some? && v.Arr? { ItemsReal(defs, rank, v, s, path, |v.items|); }
      PlainReal(defs, rank, v, s, path, fields, items);
    }
  }

  lemma PlainReal(defs: map<string, Schema>, rank: string -> nat, v: Json, s: Schema, path: string, fields: Outcome, items: Outcome)
    requires Ranked(defs, rank) && s.ref.None? && s.oneOf.AnyShape? && TypeOk(v, s)
    requires AllReal(defs, rank, fields, v, s, path) && AllReal(defs, rank, items, v, s, path)
    ensures AllReal(defs, rank, Then(Then(Then(Errors(OwnErrors(v, s, path)), fields), items),
                                     Errors(If(!FormatOk(v, s), path, BadFormat))), v, s, path)
  {
    var own, format := Errors(OwnErrors(v, s, path)), Errors(If(!FormatOk(v, s), path, BadFormat));
    forall e | e in own.errors ensures IsReal(defs, rank, v, s, path, e) { OwnErrorsAreReal(defs, rank, v, s, path, e); }
    if !FormatOk(v, s) { RealHere(defs, rank, v, s, path, Error(path, BadFormat)); }
    ThenReal(defs, rank, own, fields, v, s, path);
    ThenReal(defs, rank, Then(own, fields), items, v, s, path);
    ThenReal(defs, rank, Then(Then(own, fields), items), format, v, s, path);
  }

  /** The alternatives report nothing, or just that none fits. */
  lemma {:induction false} OneErrorFrom(defs: map<string, Schema>, rank: string -> nat, v: Json, s: Schema, path: string, i: nat)
    requires Ranked(defs, rank) && s.ref.None? && s.oneOf.OneOf? && i <= |s.oneOf.subs|
    ensures var o := CheckFrom(defs, rank, v, s, path, i);
      o.Errors? ==> o.errors == [] || o.errors == [Error(path, NoAlternative)]
    decreases |s.oneOf.subs| - i
  {
    if i < |s.oneOf.subs| { OneErrorFrom(defs, rank, v, s, path, i + 1); }
  }

  lemma AlternativesReal(defs: map<string, Schema>, rank: string -> nat, v: Json, s: Schema, path: string)
    requires Ranked(defs, rank) && s.ref.None? && s.oneOf.OneOf?
    ensures AllReal(defs, rank, CheckFrom(defs, rank, v, s, path, 0), v, s, path)
  {
    OneErrorFrom(defs, rank, v, s, path, 0);
    CheckDecides(defs, rank, v, s, path);
    var o := CheckFrom(defs, rank, v, s, path, 0);
    if o.Errors? && o.errors != [] { RealHere(defs, rank, v, s, path, Error(path, NoAlternative)); }
  }

  lemma {:induction false} FieldsReal(defs: map<string, Schema>, rank: string -> nat, v: Json, s: Schema, path: string, n: nat)
    requires Ranked(defs, rank) && s.ref.None? && s.oneOf.AnyShape? && TypeOk(v, s)
    requires v.Obj? && s.properties.Properties? && n <= |s.properties.fields|
    ensures AllReal(defs, rank, CheckFields(defs, rank, v, s, path, n), v, s, path)
    decreases v, Bound(defs, rank, s), s, n
  {
    if n > 0 {
      var p := s.properties.fields[n - 1];
      FieldsReal(defs, rank, v, s, path, n - 1);
      if p.key in v.fields {
        ErrorsAreReal(defs, rank, v.fields[p.key], p.schema, path + "." + p.key);
        OneStep(v, Field(p.key), path);
        assert PassesOn(s, Field(p.key), p.schema);
        RealFromChild(defs, rank, v, s, Field(p.key), v.fields[p.key], p.schema, path,
                      Check(defs, rank, v.fields[p.key], p.schema, path + "." + p.key));
      }
    }
  }

  lemma {:induction false} ItemsReal(defs: map<string, Schema>, rank: string -> nat, v: Json, s: Schema, path: string, n: nat)
    requires Ranked(defs, rank) && s.ref.None? && s.oneOf.AnyShape? && TypeOk(v, s)
    requires v.Arr? && s.items.Some? && n <= |v.items|
    ensures AllReal(defs, rank, CheckItems(defs, rank, v, s, path, n), v, s, path)
    decreases v, Bound(defs, rank, s), s, n
  {
    if n > 0 {
      var there := path + "[" + Decimal(n - 1) + "]";
      ItemsReal(defs, rank, v, s, path, n - 1);
      ErrorsAreReal(defs, rank, v.items[n - 1], s.items.value, there);
      OneStep(v, Item(n - 1), path);
      RealFromChild(defs, rank, v, s, Item(n - 1), v.items[n - 1], s.items.value, path,
                    Check(defs, rank, v.items[n - 1], s.items.value, there));
    }
  }
}
