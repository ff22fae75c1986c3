// `oneOf` as JSON Schema means it, exactly one alternative, next to the code, which stops at the first.

module StrictOneOf {
  import opened JsonValues
  import opened Options
  import opened SchemaChecks
  import opened SchemaSpec

  ghost predicate ExactlyOne(verdicts: seq<bool>) {
    && (exists i :: 0 <= i < |verdicts| && verdicts[i])
    && (forall i, j :: 0 <= i < j < |verdicts| ==> !(verdicts[i] && verdicts[j]))
  }

  /** Conformance with exactly one conforming alternative in every oneOf. */
  ghost predicate Strict(defs: map<string, Schema>, rank: string -> nat, v: Json, s: Schema)
    requires Ranked(defs, rank)
    decreases v, Bound(defs, rank, s), s
  {
    if s.ref.Some? then
      Resolves(defs, s.ref.value) && Strict(defs, rank, v, defs[Key(s.ref.value)])
    else if s.oneOf.OneOf? then
      ExactlyOne(seq(|s.oneOf.subs|, i requires 0 <= i < |s.oneOf.subs| => Strict(defs, rank, v, s.oneOf.subs[i])))
    else
      && TypeOk(v, s) && EnumOk(v, s) && FormatOk(v, s)
      && (s.required.Some? && v.Obj? ==> forall k :: k in s.required.value ==> k in v.fields)
      && (s.properties.Properties? && v.Obj? ==>
            forall i :: 0 <= i < |s.properties.fields| && s.properties.fields[i].key in v.fields ==>
              Strict(defs, rank, v.fields[s.properties.fields[i].key], s.properties.fields[i].schema))
      && (s.items.Some? && v.Arr? ==>
            forall i :: 0 <= i < |v.items| ==> Strict(defs, rank, v.items[i], s.items.value))
  }

  /** The strict reading accepts less. */
  lemma {:induction false} StrictConforms(defs: map<string, Schema>, rank: string -> nat, v: Json, s: Schema)
    requires Ranked(defs, rank)
    ensures Strict(defs, rank, v, s) ==> Conforms(defs, rank, v, s)
    decreases v, Bound(defs, rank, s), s
  {
    if s.ref.Some? {
      if Resolves(defs, s.ref.value) { StrictConforms(defs, rank, v, defs[Key(s.ref.value)]); }
    } else if s.oneOf.OneOf? {
      forall i | 0 <= i < |s.oneOf.subs|
        ensures Strict(defs, rank, v, s.oneOf.subs[i]) ==> Conforms(defs, rank, v, s.oneOf.subs[i])
      {
        StrictConforms(defs, rank, v, s.oneOf.subs[i]);
      }
    } else {
      if s.properties.Properties? && v.Obj? {
        forall i | 0 <= i < |s.properties.fields| && s.properties.fields[i].key in v.fields
          ensures Strict(defs, rank, v.fields[s.properties.fields[i].key], s.properties.fields[i].schema)
              ==> Conforms(defs, rank, v.fields[s.properties.fields[i].key], s.properties.fields[i].schema)
        {
          StrictConforms(defs, rank, v.fields[s.properties.fields[i].key], s.properties.fields[i].schema);
        }
      }
      if s.items.Some? && v.Arr? {
        forall i | 0 <= i < |v.items|
          ensures Strict(defs, rank, v.items[i], s.items.value) ==> Conforms(defs, rank, v.items[i], s.items.value)
        {
          StrictConforms(defs, rank, v.items[i], s.items.value);
        }
      }
    }
  }

  /** Two different alternatives accept the value. */
  ghost predicate MatchesTwice(defs: map<string, Schema>, rank: string -> nat, v: Json, s: Schema)
    requires Ranked(defs, rank) && s.oneOf.OneOf?
  {
    exists i, j :: 0 <= i < j < |s.oneOf.subs| && Conforms(defs, rank, v, s.oneOf.subs[i]) && Conforms(defs, rank, v, s.oneOf.subs[j])
  }

  /** No value that is compared with a oneOf matches it twice. */
  ghost predicate NoDoubleMatch(defs: map<string, Schema>, rank: string -> nat, v: Json, s: Schema)
    requires Ranked(defs, rank)
    decreases v, Bound(defs, rank, s), s
  {
    if s.ref.Some? then
      Resolves(defs, s.ref.value) ==> NoDoubleMatch(defs, rank, v, defs[Key(s.ref.value)])
    else if s.oneOf.OneOf? then
      && !MatchesTwice(defs, rank, v, s)
      && forall i :: 0 <= i < |s.oneOf.subs| ==> NoDoubleMatch(defs, rank, v, s.oneOf.subs[i])
    else
      && (s.properties.Properties? && v.Obj? ==>
            forall i :: 0 <= i < |s.properties.fields| && s.properties.fields[i].key in v.fields ==>
              NoDoubleMatch(defs, rank, v.fields[s.properties.fields[i].key], s.properties.fields[i].schema))
      && (s.items.Some? && v.Arr? ==>
            forall i :: 0 <= i < |v.items| ==> NoDoubleMatch(defs, rank, v.items[i], s.items.value))
  }

  /** Without a double match the two readings agree, through the whole schema. */
  lemma {:induction false} ReadingsAgree(defs: map<string, Schema>, rank: string -> nat, v: Json, s: Schema)
    requires Ranked(defs, rank) && NoDoubleMatch(defs, rank, v, s)
    ensures Conforms(defs, rank, v, s) <==> Strict(defs, rank, v, s)
    decreases v, Bound(defs, rank, s), s
  {
    if s.ref.Some? {
      if Resolves(defs, s.ref.value) { ReadingsAgree(defs, rank, v, defs[Key(s.ref.value)]); }
    } else if s.oneOf.OneOf? {
      AlternativesAgree(defs, rank, v, s);
    } else {
      if s.properties.Properties? && v.Obj? {
        forall i | 0 <= i < |s.properties.fields| && s.properties.fields[i].key in v.fields
          ensures Conforms(defs, rank, v.fields[s.properties.fields[i].key], s.properties.fields[i].schema)
             <==> Strict(defs, rank, v.fields[s.properties.fields[i].key], s.properties.fields[i].schema)
        {
          ReadingsAgree(defs, rank, v.fields[s.properties.fields[i].key], s.properties.fields[i].schema);
        }
      }
      if s.items.Some? && v.Arr? {
        forall i | 0 <= i < |v.items|
          ensures Conforms(defs, rank, v.items[i], s.items.value) <==> Strict(defs, rank, v.items[i], s.items.value)
        {
          ReadingsAgree(defs, rank, v.items[i], s.items.value);
        }
      }
    }
  }

  /** Which alternatives conform. */
  ghost function Verdicts(defs: map<string, Schema>, rank: string -> nat, v: Json, s: Schema): seq<bool>
    requires Ranked(defs, rank) && s.ref.None? && s.oneOf.OneOf?
  {
    seq(|s.oneOf.subs|, i requires 0 <= i < |s.oneOf.subs| => Conforms(defs, rank, v, s.oneOf.subs[i]))
  }

  lemma MatchesOnce(defs: map<string, Schema>, rank: string -> nat, v: Json, s: Schema)
    requires Ranked(defs, rank) && s.ref.None? && s.oneOf.OneOf?
    ensures Conforms(defs, rank, v, s) && !MatchesTwice(defs, rank, v, s) <==> ExactlyOne(Verdicts(defs, rank, v, s))
  {
    var bs := Verdicts(defs, rank, v, s);
    assert forall i :: 0 <= i < |s.oneOf.subs| ==> bs[i] == Conforms(defs, rank, v, s.oneOf.subs[i]);
  }

  lemma {:induction false} AlternativesAgree(defs: map<string, Schema>, rank: string -> nat, v: Json, s: Schema)
    requires Ranked(defs, rank) && s.ref.None? && s.oneOf.OneOf?
    requires forall i :: 0 <= i < |s.oneOf.subs| ==> NoDoubleMatch(defs, rank, v, s.oneOf.subs[i])
    ensures Strict(defs, rank, v, s) <==> Conforms(defs, rank, v, s) && !MatchesTwice(defs, rank, v, s)
    decreases v, Bound(defs, rank, s), s, 0
  {
    var strict := seq(|s.oneOf.subs|, i requires 0 <= i < |s.oneOf.subs| => Strict(defs, rank, v, s.oneOf.subs[i]));
    forall i | 0 <= i < |s.oneOf.subs| ensures strict[i] == Verdicts(defs, rank, v, s)[i] {
      ReadingsAgree(defs, rank, v, s.oneOf.subs[i]);
    }
    assert strict == Verdicts(defs, rank, v, s);
    MatchesOnce(defs, rank, v, s);
  }

  /** A oneOf whose alternatives have no double match inside: the code accepts what the strict reading rejects
      exactly if two of the alternatives accept. */
  lemma OneOfAcceptsSeveral(defs: map<string, Schema>, rank: string -> nat, v: Json, s: Schema)
    requires Ranked(defs, rank) && NoBadRefs(defs, s) && s.ref.None? && s.oneOf.OneOf?
    requires forall i :: 0 <= i < |s.oneOf.subs| ==> NoDoubleMatch(defs, rank, v, s.oneOf.subs[i])
    ensures Check(defs, rank, v, s, "$") == Errors([]) && !Strict(defs, rank, v, s) <==> MatchesTwice(defs, rank, v, s)
  {
    AlternativesAgree(defs, rank, v, s);
    PassesIffConforms(defs, rank, v, s);
  }

  /** Whole schemas: without a double match, a value passes exactly if it conforms strictly. */
  lemma PassesIffStrict(defs: map<string, Schema>, rank: string -> nat, v: Json, s: Schema)
    requires Ranked(defs, rank) && NoBadRefs(defs, s) && NoDoubleMatch(defs, rank, v, s)
    ensures Check(defs, rank, v, s, "$") == Errors([]) <==> Strict(defs, rank, v, s)
  {
    PassesIffConforms(defs, rank, v, s);
    ReadingsAgree(defs, rank, v, s);
  }

  // ---- the exact difference ----

  /** Some oneOf on the way has not exactly one alternative that conforms without being ambiguous in turn. */
  ghost predicate Ambiguous(defs: map<string, Schema>, rank: string -> nat, v: Json, s: Schema)
    requires Ranked(defs, rank)
    decreases v, Bound(defs, rank, s), s
  {
    if s.ref.Some? then
      Resolves(defs, s.ref.value) && Ambiguous(defs, rank, v, defs[Key(s.ref.value)])
    else if s.oneOf.OneOf? then
      !ExactlyOne(seq(|s.oneOf.subs|, i requires 0 <= i < |s.oneOf.subs| =>
        Conforms(defs, rank, v, s.oneOf.subs[i]) && !Ambiguous(defs, rank, v, s.oneOf.subs[i])))
    else
      || (s.properties.Properties? && v.Obj? &&
            exists i :: 0 <= i < |s.properties.fields| && s.properties.fields[i].key in v.fields
              && Ambiguous(defs, rank, v.fields[s.properties.fields[i].key], s.properties.fields[i].schema))
      || (s.items.Some? && v.Arr? &&
            exists i :: 0 <= i < |v.items| && Ambiguous(defs, rank, v.items[i], s.items.value))
  }

  /** For every value and schema: the strict reading rejects, of what the code accepts, exactly the ambiguous. */
  lemma {:induction false} StrictIff(defs: map<string, Schema>, rank: string -> nat, v: Json, s: Schema)
    requires Ranked(defs, rank)
    ensures Strict(defs, rank, v, s) <==> Conforms(defs, rank, v, s) && !Ambiguous(defs, rank, v, s)
    decreases v, Bound(defs, rank, s), s
  {
    if s.ref.Some? {
      if Resolves(defs, s.ref.value) { StrictIff(defs, rank, v, defs[Key(s.ref.value)]); }
    } else if s.oneOf.OneOf? {
      ClearAlternatives(defs, rank, v, s);
      StrictConforms(defs, rank, v, s);
    } else {
      if s.properties.Properties? && v.Obj? {
        forall i | 0 <= i < |s.properties.fields| && s.properties.fields[i].key in v.fields
          ensures var w, t := v.fields[s.properties.fields[i].key], s.properties.fields[i].schema;
            Strict(defs, rank, w, t) <==> Conforms(defs, rank, w, t) && !Ambiguous(defs, rank, w, t)
        {
          StrictIff(defs, rank, v.fields[s.properties.fields[i].key], s.properties.fields[i].schema);
        }
      }
      if s.items.Some? && v.Arr? {
        forall i | 0 <= i < |v.items|
          ensures Strict(defs, rank, v.items[i], s.items.value)
             <==> Conforms(defs, rank, v.items[i], s.items.value) && !Ambiguous(defs, rank, v.items[i], s.items.value)
        {
          StrictIff(defs, rank, v.items[i], s.items.value);
        }
      }
    }
  }

  lemma {:induction false} ClearAlternatives(defs: map<string, Schema>, rank: string -> nat, v: Json, s: Schema)
    requires Ranked(defs, rank) && s.ref.None? && s.oneOf.OneOf?
    ensures Strict(defs, rank, v, s) <==> !Ambiguous(defs, rank, v, s)
    decreases v, Bound(defs, rank, s), s, 0
  {
    var strict := seq(|s.oneOf.subs|, i requires 0 <= i < |s.oneOf.subs| => Strict(defs, rank, v, s.oneOf.subs[i]));
    var clear := seq(|s.oneOf.subs|, i requires 0 <= i < |s.oneOf.subs| =>
      Conforms(defs, rank, v, s.oneOf.subs[i]) && !Ambiguous(defs, rank, v, s.oneOf.subs[i]));
    forall i | 0 <= i < |s.oneOf.subs| ensures strict[i] == clear[i] { StrictIff(defs, rank, v, s.oneOf.subs[i]); }
    assert strict == clear;
  }

  const ANYTHING := Schema(None, AnyShape, None, None, None, AnyFields, None, None)

  /** An integer is a number, too: a oneOf of both passes although it is not strictly met. */
  lemma IntegerMatchesTwice(defs: map<string, Schema>, rank: string -> nat, n: int)
    requires Ranked(defs, rank) && NoBadRefs(defs, ANYTHING)
    ensures
      var either := ANYTHING.(oneOf := OneOf([ANYTHING.(types := Some(["number"])), ANYTHING.(types := Some(["integer"]))]));
      Check(defs, rank, Int(n), either, "$") == Errors([]) && !Strict(defs, rank, Int(n), either)
  {
    var number, integer := ANYTHING.(types := Some(["number"])), ANYTHING.(types := Some(["integer"]));
    var either := ANYTHING.(oneOf := OneOf([number, integer]));
    assert HasType(Int(n), number.types.value[0]) && HasType(Int(n), integer.types.value[0]);
    assert TypeOk(Int(n), number) && TypeOk(Int(n), integer);
    assert Conforms(defs, rank, Int(n), either.oneOf.subs[0]) && Conforms(defs, rank, Int(n), either.oneOf.subs[1]);
    OneOfAcceptsSeveral(defs, rank, Int(n), either);
  }
}
