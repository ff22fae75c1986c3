// What the schema subset means: references, conformance, and the errors a check reports.

module SchemaSpec {
  import opened JsonValues
  import opened Options
  import opened Sorting
  import opened Text

  datatype Schema = Schema(
    ref: Option<string>,
    oneOf: Alternatives,
    types: Option<seq<string>>,
    enum: Option<seq<Json>>,
    required: Option<seq<string>>,
    properties: Properties,
    items: Option<Schema>,
    format: Option<string>)

  datatype Alternatives = AnyShape | OneOf(subs: seq<Schema>)

  datatype Properties = AnyFields | Properties(fields: seq<Property>)

  datatype Property = Property(key: string, schema: Schema)

  datatype Kind = WrongType | NoAlternative | NotInEnum | Missing | BadFormat

  datatype Error = Error(path: string, kind: Kind)

  /** A ValidationError raised out of the whole call, or the list it returns. */
  datatype Outcome = Raised(ref: string) | Errors(errors: seq<Error>)

  // ---- references ----

  const LOCAL := "#/definitions/"
  const SEPARATOR := "/definitions/"

  predicate IsLocal(ref: string) {
    LOCAL <= ref
  }

  /** `ref.split("/definitions/")[1]`: a second separator cuts the name off. */
  function Key(ref: string): string
    requires IsLocal(ref)
  {
    Before(ref[|LOCAL|..], SEPARATOR)
  }

  predicate Resolves(defs: map<string, Schema>, ref: string) {
    IsLocal(ref) && Key(ref) in defs
  }

  // ---- same-instance steps ----

  /** One above the rank of every definition that checking `s` can reach without descending into the instance. */
  ghost function Bound(defs: map<string, Schema>, rank: string -> nat, s: Schema): nat
    decreases s
  {
    if s.ref.Some? then (if Resolves(defs, s.ref.value) then 1 + rank(Key(s.ref.value)) else 0)
    else if s.oneOf.OneOf? then MaxBound(defs, rank, s, |s.oneOf.subs|)
    else 0
  }

  ghost function MaxBound(defs: map<string, Schema>, rank: string -> nat, s: Schema, n: nat): (m: nat)
    requires s.oneOf.OneOf? && n <= |s.oneOf.subs|
    ensures forall i :: 0 <= i < n ==> Bound(defs, rank, s.oneOf.subs[i]) <= m
    decreases s, n
  {
    if n == 0 then 0
    else
      var last, others := Bound(defs, rank, s.oneOf.subs[n - 1]), MaxBound(defs, rank, s, n - 1);
      if last >= others then last else others
  }

  /** Following `$ref` and `oneOf` alone goes down in rank. */
  ghost predicate Ranked(defs: map<string, Schema>, rank: string -> nat) {
    forall k :: k in defs ==> Bound(defs, rank, defs[k]) <= rank(k)
  }

  /** `s` sends the same instance on to definition `k`. */
  ghost predicate SendsTo(defs: map<string, Schema>, s: Schema, k: string)
    decreases s
  {
    if s.ref.Some? then Resolves(defs, s.ref.value) && k == Key(s.ref.value)
    else s.oneOf.OneOf? && exists i :: 0 <= i < |s.oneOf.subs| && SendsTo(defs, s.oneOf.subs[i], k)
  }

  lemma {:induction false} SentIsInBound(defs: map<string, Schema>, rank: string -> nat, s: Schema, k: string)
    requires SendsTo(defs, s, k)
    ensures k in defs && rank(k) < Bound(defs, rank, s)
    decreases s
  {
    if s.ref.None? {
      var i :| 0 <= i < |s.oneOf.subs| && SendsTo(defs, s.oneOf.subs[i], k);
      SentIsInBound(defs, rank, s.oneOf.subs[i], k);
    }
  }

  lemma {:induction false} BoundIsLeast(defs: map<string, Schema>, rank: string -> nat, s: Schema, m: nat)
    requires forall k :: SendsTo(defs, s, k) ==> rank(k) < m
    ensures Bound(defs, rank, s) <= m
    decreases s
  {
    if s.ref.Some? {
      assert Resolves(defs, s.ref.value) ==> SendsTo(defs, s, Key(s.ref.value));
    } else if s.oneOf.OneOf? {
      forall i | 0 <= i < |s.oneOf.subs| ensures Bound(defs, rank, s.oneOf.subs[i]) <= m {
        BoundIsLeast(defs, rank, s.oneOf.subs[i], m);
      }
      MaxBoundIsLeast(defs, rank, s, |s.oneOf.subs|, m);
    }
  }

  lemma {:induction false} MaxBoundIsLeast(defs: map<string, Schema>, rank: string -> nat, s: Schema, n: nat, m: nat)
    requires s.oneOf.OneOf? && n <= |s.oneOf.subs|
    requires forall i :: 0 <= i < n ==> Bound(defs, rank, s.oneOf.subs[i]) <= m
    ensures MaxBound(defs, rank, s, n) <= m
  {
    if n > 0 { MaxBoundIsLeast(defs, rank, s, n - 1, m); }
  }

  ghost predicate Hop(defs: map<string, Schema>, p: seq<string>, i: nat)
    requires 0 < i < |p|
  {
    p[i - 1] in defs && SendsTo(defs, defs[p[i - 1]], p[i])
  }

  /** A chain of definitions each of which sends the instance on to the next. */
  ghost predicate IsChain(defs: map<string, Schema>, p: seq<string>) {
    |p| >= 2 && forall i :: 0 < i < |p| ==> Hop(defs, p, i)
  }

  ghost predicate Leads(defs: map<string, Schema>, a: string, b: string) {
    exists p :: IsChain(defs, p) && p[0] == a && p[|p| - 1] == b
  }

  ghost predicate Acyclic(defs: map<string, Schema>) {
    forall k :: k in defs ==> !Leads(defs, k, k)
  }

  ghost function Led(defs: map<string, Schema>, a: string): set<string> {
    set b | b in defs && Leads(defs, a, b)
  }

  lemma LeadsOn(defs: map<string, Schema>, a: string, b: string, c: string)
    requires a in defs && SendsTo(defs, defs[a], b) && Leads(defs, b, c)
    ensures Leads(defs, a, c)
  {
    var p :| IsChain(defs, p) && p[0] == b && p[|p| - 1] == c;
    var q := [a] + p;
    forall i | 0 < i < |q| ensures Hop(defs, q, i) {
      if i > 1 { assert Hop(defs, p, i - 1); }
    }
    assert IsChain(defs, q);
  }

  lemma {:induction false} ChainGoesDown(defs: map<string, Schema>, rank: string -> nat, p: seq<string>)
    requires Ranked(defs, rank) && IsChain(defs, p)
    ensures rank(p[|p| - 1]) < rank(p[0])
  {
    var last := |p| - 1;
    assert Hop(defs, p, last);
    SentIsInBound(defs, rank, defs[p[last - 1]], p[last]);
    if |p| > 2 {
      forall i | 0 < i < last ensures Hop(defs, p[..last], i) { assert Hop(defs, p, i); }
      ChainGoesDown(defs, rank, p[..last]);
    }
  }

  /** How many definitions each definition leads to. */
  ghost function Count(defs: map<string, Schema>): string -> nat {
    (k: string) => |Led(defs, k)|
  }

  /** Counting ranks an acyclic set of definitions. */
  lemma CountRanks(defs: map<string, Schema>)
    requires Acyclic(defs)
    ensures Ranked(defs, Count(defs))
  {
    var rank := Count(defs);
    forall a | a in defs ensures Bound(defs, rank, defs[a]) <= rank(a) {
      forall b | SendsTo(defs, defs[a], b) ensures rank(b) < rank(a) {
        SentIsInBound(defs, rank, defs[a], b);
        assert Hop(defs, [a, b], 1);
        assert IsChain(defs, [a, b]);
        assert b in Led(defs, a) && b !in Led(defs, b);
        forall c | c in Led(defs, b) ensures c in Led(defs, a) { LeadsOn(defs, a, b, c); }
        assert Led(defs, b) <= Led(defs, a) - {b};
        Smaller(Led(defs, b), Led(defs, a), b);
      }
      BoundIsLeast(defs, rank, defs[a], rank(a));
    }
  }

  lemma Smaller<T>(a: set<T>, b: set<T>, x: T)
    requires a <= b - {x} && x in b
    ensures |a| < |b|
  {
    SubsetCount(a, b - {x});
  }

  /** A termination measure exists exactly when no definition sends an instance back to itself. */
  lemma RankedIffAcyclic(defs: map<string, Schema>)
    ensures (exists rank: string -> nat :: Ranked(defs, rank)) <==> Acyclic(defs)
  {
    if Acyclic(defs) { CountRanks(defs); }
    if rank: string -> nat :| Ranked(defs, rank) {
      forall k | k in defs ensures !Leads(defs, k, k) {
        if Leads(defs, k, k) {
          var p :| IsChain(defs, p) && p[0] == k && p[|p| - 1] == k;
          ChainGoesDown(defs, rank, p);
          assert false;
        }
      }
    }
  }

  // ---- the leaf checks ----

  predicate HasType(v: Json, name: string) {
    match name
    case "string" => v.Str?
    case "integer" => v.Int?
    case "number" => v.Int? || v.Float?
    case "boolean" => v.Bool?
    case "array" => v.Arr?
    case "object" => v.Obj?
    case "null" => v.Null?
    case _ => true
  }

  predicate TypeOk(v: Json, s: Schema) {
    s.types.Some? ==> exists i :: 0 <= i < |s.types.value| && HasType(v, s.types.value[i])
  }

  predicate EnumOk(v: Json, s: Schema) {
    s.enum.Some? ==> exists i :: 0 <= i < |s.enum.value| && PyEq(v, s.enum.value[i])
  }

  predicate DigitsAt(s: string, i: nat, n: nat) {
    i + n <= |s| && forall j :: i <= j < i + n ==> IsDigit(s[j])
  }

  /** `^\d{4}-\d{2}-\d{2}T\d{2}:\d{2}:\d{2}` */
  predicate IsDateTime(s: string) {
    && |s| >= 19 && DigitsAt(s, 0, 4) && s[4] == '-' && DigitsAt(s, 5, 2) && s[7] == '-' && DigitsAt(s, 8, 2)
    && s[10] == 'T' && DigitsAt(s, 11, 2) && s[13] == ':' && DigitsAt(s, 14, 2) && s[16] == ':' && DigitsAt(s, 17, 2)
  }

  predicate FormatOk(v: Json, s: Schema) {
    s.format == Some("date-time") && v.Str? ==> IsDateTime(v.s)
  }

  /** Which type names a value has; a name that is none of the seven is had by every value. */
  lemma TypesOf(v: Json, name: string)
    ensures name !in {"string", "integer", "number", "boolean", "array", "object", "null"} ==> HasType(v, name)
    ensures name in {"string", "integer", "number", "boolean", "array", "object", "null"} ==>
      (HasType(v, name) <==>
        name in match v
          case Null => {"null"}
          case Bool(_) => {"boolean"}
          case Int(_) => {"integer", "number"}
          case Float(_) => {"number"}
          case Str(_) => {"string"}
          case Arr(_) => {"array"}
          case Obj(_) => {"object"})
  {
  }

  predicate Digits(s: string, n: nat) {
    |s| == n && forall i :: 0 <= i < n ==> '0' <= s[i] <= '9'
  }

  /** A date and a time of day, each part with its number of digits; anything may follow. */
  lemma DateTimesAre(s: string)
    ensures IsDateTime(s) <==> exists y, mo, d, h, mi, sec, rest ::
      IsTimestamp(s, y, mo, d, h, mi, sec, rest)
  {
    if IsDateTime(s) {
      assert IsTimestamp(s, s[..4], s[5..7], s[8..10], s[11..13], s[14..16], s[17..19], s[19..]);
    }
    if y, mo, d, h, mi, sec, rest :| IsTimestamp(s, y, mo, d, h, mi, sec, rest) {
      assert s[..4] == y && s[5..7] == mo && s[8..10] == d && s[11..13] == h && s[14..16] == mi && s[17..19] == sec;
      assert forall j :: 0 <= j < 4 ==> s[j] == y[j];
      PartAt(s, 5, mo);
      PartAt(s, 8, d);
      PartAt(s, 11, h);
      PartAt(s, 14, mi);
      PartAt(s, 17, sec);
    }
  }

  lemma PartAt(s: string, i: nat, part: string)
    requires i + 2 <= |s| && s[i..i + 2] == part && Digits(part, 2)
    ensures DigitsAt(s, i, 2)
  {
    assert s[i] == part[0] && s[i + 1] == part[1];
  }

  predicate IsTimestamp(s: string, y: string, mo: string, d: string, h: string, mi: string, sec: string, rest: string) {
    && Digits(y, 4) && Digits(mo, 2) && Digits(d, 2) && Digits(h, 2) && Digits(mi, 2) && Digits(sec, 2)
    && s == y + "-" + mo + "-" + d + "T" + h + ":" + mi + ":" + sec + rest
  }

  /** A local reference names the definition after its prefix. */
  lemma RefsAre(name: string)
    requires !Contains(name, "/definitions/")
    ensures IsLocal("#/definitions/" + name) && Key("#/definitions/" + name) == name
  {
    assert ("#/definitions/" + name)[14..] == name;
    BeforeNothing(name, "/definitions/");
  }

  lemma {:induction false} BeforeNothing(s: string, sub: string)
    requires !Contains(s, sub)
    ensures Before(s, sub) == s
  {
    if s != "" { BeforeNothing(s[1..], sub); }
  }

  // ---- conformance ----

  ghost predicate Conforms(defs: map<string, Schema>, rank: string -> nat, v: Json, s: Schema)
    requires Ranked(defs, rank)
    decreases v, Bound(defs, rank, s), s
  {
    if s.ref.Some? then
      Resolves(defs, s.ref.value) && Conforms(defs, rank, v, defs[Key(s.ref.value)])
    else if s.oneOf.OneOf? then
      exists i :: 0 <= i < |s.oneOf.subs| && Conforms(defs, rank, v, s.oneOf.subs[i])
    else
      && TypeOk(v, s) && EnumOk(v, s) && FormatOk(v, s)
      && (s.required.Some? && v.Obj? ==> forall k :: k in s.required.value ==> k in v.fields)
      && (s.properties.Properties? && v.Obj? ==>
            forall i :: 0 <= i < |s.properties.fields| && s.properties.fields[i].key in v.fields ==>
              Conforms(defs, rank, v.fields[s.properties.fields[i].key], s.properties.fields[i].schema))
      && (s.items.Some? && v.Arr? ==>
            forall i :: 0 <= i < |v.items| ==> Conforms(defs, rank, v.items[i], s.items.value))
  }
}
