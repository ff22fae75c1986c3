// The validator object: the recursive check with its reference cache.

module Validators {
  import opened ErrorLists
  import opened ErrorPaths
  import opened JsonValues
  import opened Options
  import opened SchemaChecks
  import opened SchemaSpec
  import opened Text

  class SchemaValidator {
    const definitions: map<string, Schema>
    const rootSchema: Schema
    var refCache: map<string, Schema>

    constructor (definitions: map<string, Schema>, rootSchema: Schema)
      ensures Valid() && this.definitions == definitions && this.rootSchema == rootSchema
    {
      this.definitions, this.rootSchema, refCache := definitions, rootSchema, map[];
    }

    /** What the cache holds is what looking the reference up would give. */
    ghost predicate Valid()
      reads this
    {
      forall ref :: ref in refCache ==> Resolves(definitions, ref) && refCache[ref] == definitions[Key(ref)]
    }

    method ResolveRef(ref: string) returns (r: Option<Schema>)
      requires Valid()
      modifies this`refCache
      ensures Valid() && r == if Resolves(definitions, ref) then Some(definitions[Key(ref)]) else None
    {
      if ref in refCache { return Some(refCache[ref]); }
      if !IsLocal(ref) { return None; }
      var key := Key(ref);
      if key !in definitions { return None; }
      refCache := refCache[ref := definitions[key]];
      r := Some(definitions[key]);
    }

    method ValidateNode(v: Json, s: Schema, path: string, ghost rank: string -> nat) returns (o: Outcome)
      requires Valid() && Ranked(definitions, rank)
      modifies this`refCache
      ensures Valid() && o == Check(definitions, rank, v, s, path)
      decreases v, Bound(definitions, rank, s), s
    {
      if s.ref.Some? {
        var resolved := ResolveRef(s.ref.value);
        if resolved.None? { return Raised(s.ref.value); }
        o := ValidateNode(v, resolved.value, path, rank);
        return;
      }
      if s.oneOf.OneOf? {
        o := ValidateAlternatives(v, s, path, rank);
        return;
      }
      if !TypeOk(v, s) { return Errors([Error(path, WrongType)]); }
      o := ValidatePlain(v, s, path, rank);
    }

    method ValidatePlain(v: Json, s: Schema, path: string, ghost rank: string -> nat) returns (o: Outcome)
      requires Valid() && Ranked(definitions, rank) && s.ref.None? && s.oneOf.AnyShape? && TypeOk(v, s)
      modifies this`refCache
      ensures Valid() && o == Check(definitions, rank, v, s, path)
      decreases v, Bound(definitions, rank, s), s, 1
    {
      var errors := ValidateOwn(v, s, path);
      var fields, items := Errors([]), Errors([]);
      if s.properties.Properties? && v.Obj? {
        fields := ValidateFields(v, s, path, rank);
        if fields.Raised? { return fields; }
      }
      if s.items.Some? && v.Arr? {
        items := ValidateItems(v, s, path, rank);
        if items.Raised? { return items; }
      }
      o := Errors(errors + fields.errors + items.errors + If(!FormatOk(v, s), path, BadFormat));
    }

    method ValidateOwn(v: Json, s: Schema, path: string) returns (errors: seq<Error>)
      ensures errors == OwnErrors(v, s, path)
    {
      errors := If(!EnumOk(v, s), path, NotInEnum);
      if s.required.Some? && v.Obj? {
        ghost var first := errors;
        for i := 0 to |s.required.value|
          invariant errors == first + MissingUpTo(v.fields, s.required.value, path, i)
        {
          errors := errors + If(s.required.value[i] !in v.fields, path + "." + s.required.value[i], Missing);
        }
      }
    }

    method ValidateAlternatives(v: Json, s: Schema, path: string, ghost rank: string -> nat) returns (o: Outcome)
      requires Valid() && Ranked(definitions, rank) && s.ref.None? && s.oneOf.OneOf?
      modifies this`refCache
      ensures Valid() && o == CheckFrom(definitions, rank, v, s, path, 0)
      decreases v, Bound(definitions, rank, s), s, 0
    {
      for i := 0 to |s.oneOf.subs|
        invariant Valid()
        invariant CheckFrom(definitions, rank, v, s, path, i) == CheckFrom(definitions, rank, v, s, path, 0)
      {
        o := ValidateNode(v, s.oneOf.subs[i], path, rank);
        if o.Raised? || o.errors == [] { return; }
      }
      o := Errors([Error(path, NoAlternative)]);
    }

    method ValidateFields(v: Json, s: Schema, path: string, ghost rank: string -> nat) returns (o: Outcome)
      requires Valid() && Ranked(definitions, rank) && s.ref.None? && s.oneOf.AnyShape? && v.Obj? && s.properties.Properties?
      modifies this`refCache
      ensures Valid() && o == CheckFields(definitions, rank, v, s, path, |s.properties.fields|)
      decreases v, Bound(definitions, rank, s), s, 0
    {
      var errors: seq<Error> := [];
      for i := 0 to |s.properties.fields|
        invariant Valid() && CheckFields(definitions, rank, v, s, path, i) == Errors(errors)
      {
        var p := s.properties.fields[i];
        if p.key in v.fields {
          o := ValidateNode(v.fields[p.key], p.schema, path + "." + p.key, rank);
          if o.Raised? {
            FieldsStayRaised(definitions, rank, v, s, path, i + 1, |s.properties.fields|);
            return;
          }
          errors := errors + o.errors;
        }
      }
      o := Errors(errors);
    }

    method ValidateItems(v: Json, s: Schema, path: string, ghost rank: string -> nat) returns (o: Outcome)
      requires Valid() && Ranked(definitions, rank) && s.ref.None? && s.oneOf.AnyShape? && v.Arr? && s.items.Some?
      modifies this`refCache
      ensures Valid() && o == CheckItems(definitions, rank, v, s, path, |v.items|)
      decreases v, Bound(definitions, rank, s), s, 0
    {
      var errors: seq<Error> := [];
      for i := 0 to |v.items|
        invariant Valid() && CheckItems(definitions, rank, v, s, path, i) == Errors(errors)
      {
        o := ValidateNode(v.items[i], s.items.value, path + "[" + Decimal(i) + "]", rank);
        if o.Raised? {
          ItemsStayRaised(definitions, rank, v, s, path, i + 1, |v.items|);
          return;
        }
        errors := errors + o.errors;
      }
      o := Errors(errors);
    }

    /** Whatever was cached before, the outcome is that of the root schema. */
    method Validate(v: Json) returns (o: Outcome)
      requires Valid() && Acyclic(definitions)
      modifies this`refCache
      ensures Valid() && Ranked(definitions, Count(definitions))
      ensures o == Check(definitions, Count(definitions), v, rootSchema, "$")
      ensures o.Errors? ==> forall e :: e in o.errors <==> IsReal(definitions, Count(definitions), v, rootSchema, "$", e)
      ensures o.Raised? ==> !Resolves(definitions, o.ref)
      ensures NoBadRefs(definitions, rootSchema) ==>
        o.Errors? && (o.errors == [] <==> Conforms(definitions, Count(definitions), v, rootSchema))
    {
      CountRanks(definitions);
      o := ValidateNode(v, rootSchema, "$", Count(definitions));
      ErrorsAreExact(definitions, Count(definitions), v, rootSchema, "$");
      RaisedIsUnresolved(definitions, Count(definitions), v, rootSchema, "$");
      if NoBadRefs(definitions, rootSchema) { PassesIffConforms(definitions, Count(definitions), v, rootSchema); }
    }
  }

  lemma {:induction false} FieldsStayRaised(defs: map<string, Schema>, rank: string -> nat, v: Json, s: Schema, path: string, i: nat, n: nat)
    requires Ranked(defs, rank) && s.ref.None? && s.oneOf.AnyShape?
    requires v.Obj? && s.properties.Properties? && i <= n <= |s.properties.fields| && CheckFields(defs, rank, v, s, path, i).Raised?
    ensures CheckFields(defs, rank, v, s, path, n) == CheckFields(defs, rank, v, s, path, i)
  {
    if i < n { FieldsStayRaised(defs, rank, v, s, path, i, n - 1); }
  }

  lemma {:induction false} ItemsStayRaised(defs: map<string, Schema>, rank: string -> nat, v: Json, s: Schema, path: string, i: nat, n: nat)
    requires Ranked(defs, rank) && s.ref.None? && s.oneOf.AnyShape?
    requires v.Arr? && s.items.Some? && i <= n <= |v.items| && CheckItems(defs, rank, v, s, path, i).Raised?
    ensures CheckItems(defs, rank, v, s, path, n) == CheckItems(defs, rank, v, s, path, i)
  {
    if i < n { ItemsStayRaised(defs, rank, v, s, path, i, n - 1); }
  }
}
