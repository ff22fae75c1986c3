// What the recursive schema check reports, and that it reports nothing exactly on conforming values.

module SchemaChecks {
  import opened JsonValues
  import opened Options
  import opened SchemaSpec
  import opened Text

  // ---- the outcome of a check ----

  /** An exception ends the run; otherwise the error lists follow each other. */
  function Then(a: Outcome, b: Outcome): Outcome {
    if a.Raised? then a else if b.Raised? then b else Errors(a.errors + b.errors)
  }

  function If(bad: bool, path: string, kind: Kind): seq<Error> {
    if bad then [Error(path, kind)] else []
  }

  function MissingUpTo(fields: map<string, Json>, required: seq<string>, path: string, n: nat): seq<Error>
    requires n <= |required|
  {
    if n == 0 then []
    else MissingUpTo(fields, required, path, n - 1) + If(required[n - 1] !in fields, path + "." + required[n - 1], Missing)
  }

  /** The checks that look at this value alone. */
  function OwnErrors(v: Json, s: Schema, path: string): seq<Error> {
    If(!EnumOk(v, s), path, NotInEnum)
    + if s.required.Some? && v.Obj? then MissingUpTo(v.fields, s.required.value, path, |s.required.value|) else []
  }

  ghost function Check(defs: map<string, Schema>, rank: string -> nat, v: Json, s: Schema, path: string): Outcome
    requires Ranked(defs, rank)
    decreases v, Bound(defs, rank, s), s
  {
    if s.ref.Some? then
      if Resolves(defs, s.ref.value) then Check(defs, rank, v, defs[Key(s.ref.value)], path) else Raised(s.ref.value)
    else if s.oneOf.OneOf? then CheckFrom(defs, rank, v, s, path, 0)
    else if !TypeOk(v, s) then Errors([Error(path, WrongType)])
    else
      Then(Then(Then(Errors(OwnErrors(v, s, path)),
                     if s.properties.Properties? && v.Obj? then CheckFields(defs, rank, v, s, path, |s.properties.fields|)
                     else Errors([])),
                if s.items.Some? && v.Arr? then CheckItems(defs, rank, v, s, path, |v.items|) else Errors([])),
           Errors(If(!FormatOk(v, s), path, BadFormat)))
  }

  /** The alternatives from number i on. */
  ghost function CheckFrom(defs: map<string, Schema>, rank: string -> nat, v: Json, s: Schema, path: string, i: nat): Outcome
    requires Ranked(defs, rank) && s.ref.None? && s.oneOf.OneOf? && i <= |s.oneOf.subs|
    decreases v, Bound(defs, rank, s), s, |s.oneOf.subs| - i
  {
    if i == |s.oneOf.subs| then Errors([Error(path, NoAlternative)])
    else
      var o := Check(defs, rank, v, s.oneOf.subs[i], path);
      if o.Raised? || o.errors == [] then o else CheckFrom(defs, rank, v, s, path, i + 1)
  }

  ghost function CheckFields(defs: map<string, Schema>, rank: string -> nat, v: Json, s: Schema, path: string, n: nat): Outcome
    requires Ranked(defs, rank) && s.ref.None? && s.oneOf.AnyShape?
    requires v.Obj? && s.properties.Properties? && n <= |s.properties.fields|
    decreases v, Bound(defs, rank, s), s, n
  {
    if n == 0 then Errors([])
    else
      var p := s.properties.fields[n - 1];
      Then(CheckFields(defs, rank, v, s, path, n - 1),
           if p.key in v.fields then Check(defs, rank, v.fields[p.key], p.schema, path + "." + p.key) else Errors([]))
  }

  ghost function CheckItems(defs: map<string, Schema>, rank: string -> nat, v: Json, s: Schema, path: string, n: nat): Outcome
    requires Ranked(defs, rank) && s.ref.None? && s.oneOf.AnyShape?
    requires v.Arr? && s.items.Some? && n <= |v.items|
    decreases v, Bound(defs, rank, s), s, n
  {
    if n == 0 then Errors([])
    else
      Then(CheckItems(defs, rank, v, s, path, n - 1),
           Check(defs, rank, v.items[n - 1], s.items.value, path + "[" + Decimal(n - 1) + "]"))
  }

  // ---- no errors exactly on conforming values ----

  lemma {:induction false} NothingMissing(fields: map<string, Json>, required: seq<string>, path: string, n: nat)
    requires n <= |required|
    ensures MissingUpTo(fields, required, path, n) == [] <==> forall i :: 0 <= i < n ==> required[i] in fields
  {
    if n > 0 { NothingMissing(fields, required, path, n - 1); }
  }

  lemma {:induction false} CheckDecides(defs: map<string, Schema>, rank: string -> nat, v: Json, s: Schema, path: string)
    requires Ranked(defs, rank)
    ensures var o := Check(defs, rank, v, s, path); o.Errors? ==> (o.errors == [] <==> Conforms(defs, rank, v, s))
    decreases v, Bound(defs, rank, s), s
  {
    if s.ref.Some? {
      if Resolves(defs, s.ref.value) { CheckDecides(defs, rank, v, defs[Key(s.ref.value)], path); }
    } else if s.oneOf.OneOf? {
      AlternativesDecide(defs, rank, v, s, path, 0);
    } else if TypeOk(v, s) {
      if s.required.Some? && v.Obj? { NothingMissing(v.fields, s.required.value, path, |s.required.value|); }
      if s.properties.Properties? && v.Obj? { FieldsDecide(defs, rank, v, s, path, |s.properties.fields|); }
      if s.items.Some? && v.Arr? { ItemsDecide(defs, rank, v, s, path, |v.items|); }
    }
  }

  lemma {:induction false} AlternativesDecide(defs: map<string, Schema>, rank: string -> nat, v: Json, s: Schema, path: string, i: nat)
    requires Ranked(defs, rank) && s.ref.None? && s.oneOf.OneOf? && i <= |s.oneOf.subs|
    ensures var o := CheckFrom(defs, rank, v, s, path, i);
      o.Errors? ==> (o.errors == [] <==> exists j :: i <= j < |s.oneOf.subs| && Conforms(defs, rank, v, s.oneOf.subs[j]))
    decreases v, Bound(defs, rank, s), s, |s.oneOf.subs| - i
  {
    if i < |s.oneOf.subs| {
      CheckDecides(defs, rank, v, s.oneOf.subs[i], path);
      AlternativesDecide(defs, rank, v, s, path, i + 1);
    }
  }

  lemma {:induction false} FieldsDecide(defs: map<string, Schema>, rank: string -> nat, v: Json, s: Schema, path: string, n: nat)
    requires Ranked(defs, rank) && s.ref.None? && s.oneOf.AnyShape?
    requires v.Obj? && s.properties.Properties? && n <= |s.properties.fields|
    ensures var o := CheckFields(defs, rank, v, s, path, n);
      o.Errors? ==> (o.errors == [] <==> forall i :: 0 <= i < n && s.properties.fields[i].key in v.fields ==>
        Conforms(defs, rank, v.fields[s.properties.fields[i].key], s.properties.fields[i].schema))
    decreases v, Bound(defs, rank, s), s, n
  {
    if n > 0 {
      var p := s.properties.fields[n - 1];
      FieldsDecide(defs, rank, v, s, path, n - 1);
      if p.key in v.fields { CheckDecides(defs, rank, v.fields[p.key], p.schema, path + "." + p.key); }
    }
  }

  ghost predicate ItemsConform(defs: map<string, Schema>, rank: string -> nat, v: Json, s: Schema, n: nat)
    requires Ranked(defs, rank) && v.Arr? && s.items.Some? && n <= |v.items|
  {
    forall i :: 0 <= i < n ==> Conforms(defs, rank, v.items[i], s.items.value)
  }

  lemma OneMoreConforms(defs: map<string, Schema>, rank: string -> nat, v: Json, s: Schema, n: nat)
    requires Ranked(defs, rank) && v.Arr? && s.items.Some? && 0 < n <= |v.items|
    ensures ItemsConform(defs, rank, v, s, n)
       <==> ItemsConform(defs, rank, v, s, n - 1) && Conforms(defs, rank, v.items[n - 1], s.items.value)
  {
  }

  lemma ThenEmpty(a: Outcome, b: Outcome)
    ensures Then(a, b).Errors? <==> a.Errors? && b.Errors?
    ensures Then(a, b).Errors? ==> (Then(a, b).errors == [] <==> a.errors == [] && b.errors == [])
  {
  }

  lemma ItemsStep(defs: map<string, Schema>, rank: string -> nat, v: Json, s: Schema, path: string, n: nat) returns (last: Outcome)
    requires Ranked(defs, rank) && s.ref.None? && s.oneOf.AnyShape? && v.Arr? && s.items.Some? && 0 < n <= |v.items|
    ensures last == Check(defs, rank, v.items[n - 1], s.items.value, path + "[" + Decimal(n - 1) + "]")
    ensures CheckItems(defs, rank, v, s, path, n) == Then(CheckItems(defs, rank, v, s, path, n - 1), last)
  {
    last := Check(defs, rank, v.items[n - 1], s.items.value, path + "[" + Decimal(n - 1) + "]");
  }

  lemma {:induction false} ItemsDecide(defs: map<string, Schema>, rank: string -> nat, v: Json, s: Schema, path: string, n: nat)
    requires Ranked(defs, rank) && s.ref.None? && s.oneOf.AnyShape?
    requires v.Arr? && s.items.Some? && n <= |v.items|
    ensures var o := CheckItems(defs, rank, v, s, path, n);
      o.Errors? ==> (o.errors == [] <==> ItemsConform(defs, rank, v, s, n))
    decreases v, Bound(defs, rank, s), s, n
  {
    if n > 0 {
      var there := path + "[" + Decimal(n - 1) + "]";
      ItemsDecide(defs, rank, v, s, path, n - 1);
      CheckDecides(defs, rank, v.items[n - 1], s.items.value, there);
      var last := ItemsStep(defs, rank, v, s, path, n);
      ThenEmpty(CheckItems(defs, rank, v, s, path, n - 1), last);
      OneMoreConforms(defs, rank, v, s, n);
    }
  }

  // ---- when a reference cannot stop the run ----

  ghost predicate AllResolve(defs: map<string, Schema>, s: Schema)
    decreases s
  {
    && (s.ref.Some? ==> Resolves(defs, s.ref.value))
    && (s.oneOf.OneOf? ==> forall i :: 0 <= i < |s.oneOf.subs| ==> AllResolve(defs, s.oneOf.subs[i]))
    && (s.properties.Properties? ==>
          forall i :: 0 <= i < |s.properties.fields| ==> AllResolve(defs, s.properties.fields[i].schema))
    && (s.items.Some? ==> AllResolve(defs, s.items.value))
  }

  /** No reference anywhere is dangling or external. */
  ghost predicate NoBadRefs(defs: map<string, Schema>, s: Schema) {
    AllResolve(defs, s) && forall k :: k in defs ==> AllResolve(defs, defs[k])
  }

  lemma {:induction false} CheckReturns(defs: map<string, Schema>, rank: string -> nat, v: Json, s: Schema, path: string)
    requires Ranked(defs, rank) && NoBadRefs(defs, s)
    ensures Check(defs, rank, v, s, path).Errors?
    decreases v, Bound(defs, rank, s), s
  {
    if s.ref.Some? {
      CheckReturns(defs, rank, v, defs[Key(s.ref.value)], path);
    } else if s.oneOf.OneOf? {
      AlternativesReturn(defs, rank, v, s, path, 0);
    } else if TypeOk(v, s) {
      if s.properties.Properties? && v.Obj? { FieldsReturn(defs, rank, v, s, path, |s.properties.fields|); }
      if s.items.Some? && v.Arr? { ItemsReturn(defs, rank, v, s, path, |v.items|); }
    }
  }

  lemma {:induction false} AlternativesReturn(defs: map<string, Schema>, rank: string -> nat, v: Json, s: Schema, path: string, i: nat)
    requires Ranked(defs, rank) && NoBadRefs(defs, s) && s.ref.None? && s.oneOf.OneOf? && i <= |s.oneOf.subs|
    ensures CheckFrom(defs, rank, v, s, path, i).Errors?
    decreases v, Bound(defs, rank, s), s, |s.oneOf.subs| - i
  {
    if i < |s.oneOf.subs| {
      CheckReturns(defs, rank, v, s.oneOf.subs[i], path);
      AlternativesReturn(defs, rank, v, s, path, i + 1);
    }
  }

  lemma {:induction false} FieldsReturn(defs: map<string, Schema>, rank: string -> nat, v: Json, s: Schema, path: string, n: nat)
    requires Ranked(defs, rank) && NoBadRefs(defs, s) && s.ref.None? && s.oneOf.AnyShape?
    requires v.Obj? && s.properties.Properties? && n <= |s.properties.fields|
    ensures CheckFields(defs, rank, v, s, path, n).Errors?
    decreases v, Bound(defs, rank, s), s, n
  {
    if n > 0 {
      var p := s.properties.fields[n - 1];
      FieldsReturn(defs, rank, v, s, path, n - 1);
      if p.key in v.fields { CheckReturns(defs, rank, v.fields[p.key], p.schema, path + "." + p.key); }
    }
  }

  lemma {:induction false} ItemsReturn(defs: map<string, Schema>, rank: string -> nat, v: Json, s: Schema, path: string, n: nat)
    requires Ranked(defs, rank) && NoBadRefs(defs, s) && s.ref.None? && s.oneOf.AnyShape?
    requires v.Arr? && s.items.Some? && n <= |v.items|
    ensures CheckItems(defs, rank, v, s, path, n).Errors?
    decreases v, Bound(defs, rank, s), s, n
  {
    if n > 0 {
      ItemsReturn(defs, rank, v, s, path, n - 1);
      CheckReturns(defs, rank, v.items[n - 1], s.items.value, path + "[" + Decimal(n - 1) + "]");
    }
  }

  /** With resolvable, acyclic references a value passes exactly when it conforms. */
  lemma PassesIffConforms(defs: map<string, Schema>, rank: string -> nat, v: Json, s: Schema)
    requires Ranked(defs, rank) && NoBadRefs(defs, s)
    ensures var o := Check(defs, rank, v, s, "$"); o.Errors? && (o.errors == [] <==> Conforms(defs, rank, v, s))
  {
    CheckReturns(defs, rank, v, s, "$");
    CheckDecides(defs, rank, v, s, "$");
  }
}
