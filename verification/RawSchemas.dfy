/**
 Raw JSON kept beside parsed schemas, and where references sit in it (restscope/openapi_parser/document_builder.py).
 */
module RawSchemas {
  import opened Wrappers

  datatype Raw = RNull | RBool(b: bool) | RText(text: string) | RNumber(zero: bool, digits: string)
    | RList(items: seq<Raw>) | RDict(entries: map<string, Raw>)

  // ---------------------------------------------------------------- keywords

  const SINGLE_KEYS := {"additionalItems", "contains", "contentSchema", "else", "if", "propertyNames", "then",
                        "unevaluatedItems", "unevaluatedProperties"}
  const ARRAY_KEYS := {"allOf", "anyOf", "oneOf", "prefixItems"}
  const MAP_KEYS := {"$defs", "definitions", "dependentSchemas", "patternProperties", "properties"}
  const MODELED_KEYS := {
    "type", "format", "title", "description", "properties", "required", "items", "enum", "const", "default", "nullable",
    "readOnly", "writeOnly", "deprecated", "minimum", "maximum", "exclusiveMinimum", "exclusiveMaximum", "minLength",
    "maxLength", "pattern", "minItems", "maxItems", "uniqueItems", "minProperties", "maxProperties", "allOf", "anyOf",
    "oneOf", "not", "additionalProperties", "example", "examples", "discriminator", "xml", "externalDocs"}
  /** Keywords rewritten from the older dialect. */
  const DIALECT_KEYS := {"type", "format", "nullable", "minimum", "maximum", "exclusiveMinimum", "exclusiveMaximum"}

  /** How the builder treats the value of a keyword. */
  datatype Treatment = OneSchema | SchemaList | SchemaMap | Copied

  function TreatmentOf(key: string, value: Raw): Treatment {
    if key in SINGLE_KEYS then OneSchema
    else if key in ARRAY_KEYS then (if value.RList? then SchemaList else Copied)
    else if key in MAP_KEYS then (if value.RDict? then SchemaMap else Copied)
    else if key == "items" then (if value.RList? then SchemaList else OneSchema)
    else if key == "dependencies" && value.RDict? then SchemaMap
    else Copied
  }

  /** Keywords whose value is a schema, and which the builder copies all the same. */
  predicate IsForgotten(key: string) {
    key == "not" || key == "additionalProperties"
  }

  /** Keys of a raw schema that its parsed form already carries. */
  predicate IsModeled(key: string) {
    key in MODELED_KEYS || key == "$ref" || key == "__bool_schema__"
  }

  function TopRef(entries: map<string, Raw>): Raw {
    if "$ref" in entries then entries["$ref"] else RNull
  }

  function Truthy(r: Raw): bool {
    match r
    case RNull => false
    case RBool(b) => b
    case RText(text) => text != ""
    case RNumber(zero, _) => !zero
    case RList(items) => items != []
    case RDict(entries) => entries != map[]
  }

  /** What the host language takes for false. */
  lemma {:induction false} FalseValues(r: Raw)
    ensures !Truthy(r) <==> r in {RNull, RBool(false), RText(""), RList([]), RDict(map[])} || (r.RNumber? && r.zero)
  {
  }

  lemma {:induction false} KeywordFacts(key: string, value: Raw)
    ensures IsForgotten(key) <==> key in {"not", "additionalProperties"}
    ensures key in {"$ref", "__bool_schema__"} ==> IsModeled(key)
    ensures IsForgotten(key) ==> TreatmentOf(key, value) == Copied && IsModeled(key)
    ensures key in DIALECT_KEYS ==> TreatmentOf(key, value) == Copied && !IsForgotten(key)
    ensures TreatmentOf(key, value) == SchemaList ==> value.RList?
    ensures TreatmentOf(key, value) == SchemaMap ==> value.RDict?
  {
  }

  // ---------------------------------------------------------------- OpenAPI 3.0 keywords

  type Entries = map<string, Raw>

  function WithNull(m: Entries): Entries {
    if "type" !in m then m
    else match m["type"]
      case RText(text) => m["type" := RList([RText(text), RText("null")])]
      case RList(items) => if RText("null") in items then m else m["type" := RList(items + [RText("null")])]
      case _ => m
  }

  function Exclusive(m: Entries, exclusive: string, bound: string): Entries {
    if exclusive !in m then m
    else if m[exclusive] == RBool(true) && bound in m then m[exclusive := m[bound]] - {bound}
    else if m[exclusive] == RBool(false) then m - {exclusive}
    else m
  }

  function FileType(m: Entries): Entries {
    if "type" in m && m["type"] == RText("file") then
      var typed := m["type" := RText("string")];
      if "format" in typed then typed else typed["format" := RText("binary")]
    else m
  }

  function Nullable(m: Entries): Entries {
    if "nullable" !in m then m
    else if Truthy(m["nullable"]) then WithNull(m - {"nullable"})
    else m - {"nullable"}
  }

  function Dialect(m: Entries): Entries {
    Exclusive(Exclusive(Nullable(FileType(m)), "exclusiveMinimum", "minimum"), "exclusiveMaximum", "maximum")
  }

  /** What becomes of the older keywords of a schema. */
  function Modern(entries: Entries): Entries {
    Dialect(map k | k in entries && k in DIALECT_KEYS :: entries[k])
  }

  lemma {:induction false} ModernKeys(entries: Entries)
    ensures Modern(entries).Keys <= DIALECT_KEYS
  {
    var m: Entries := map k | k in entries && k in DIALECT_KEYS :: entries[k];
    var nulled := Nullable(FileType(m));
    assert nulled.Keys <= DIALECT_KEYS;
    ExclusiveKeys(nulled, "exclusiveMinimum", "minimum");
    ExclusiveKeys(Exclusive(nulled, "exclusiveMinimum", "minimum"), "exclusiveMaximum", "maximum");
  }

  lemma {:induction false} ExclusiveKeys(m: Entries, exclusive: string, bound: string)
    ensures Exclusive(m, exclusive, bound).Keys <= m.Keys
  {
  }

  /** Nothing is left of what only the older dialect says, and a schema without it stays as it was. */
  lemma {:induction false} DialectIsModern(m: Entries)
    ensures var r := Dialect(m);
            && "nullable" !in r && !("type" in r && r["type"] == RText("file"))
            && !("exclusiveMinimum" in r && r["exclusiveMinimum"] == RBool(true) && "minimum" in r)
            && !("exclusiveMaximum" in r && r["exclusiveMaximum"] == RBool(true) && "maximum" in r)
    ensures (&& "nullable" !in m && !("type" in m && m["type"] == RText("file"))
             && !("exclusiveMinimum" in m && m["exclusiveMinimum"].RBool?)
             && !("exclusiveMaximum" in m && m["exclusiveMaximum"].RBool?)) ==> Dialect(m) == m
  {
    hide Exclusive;
    var nulled := Nullable(FileType(m));
    assert "nullable" !in nulled && !("type" in nulled && nulled["type"] == RText("file"));
    var low := Exclusive(nulled, "exclusiveMinimum", "minimum");
    ExclusiveIs(nulled, "exclusiveMinimum", "minimum");
    ExclusiveIs(low, "exclusiveMaximum", "maximum");
  }

  // What the keywords say of a value, in the older dialect and in the newer one.

  /** The kinds a type keyword names, or None when it restricts nothing that can be read. */
  ghost function Kinds(m: Entries): Option<set<Raw>> {
    if "type" !in m then None
    else match m["type"]
      case RText(_) => Some({m["type"]})
      case RList(items) => Some(set x | x in items)
      case _ => None
  }

  /** In the older dialect a file is a text, and a nullable schema allows null besides. */
  ghost function OlderKinds(m: Entries): Option<set<Raw>> {
    var named := if "type" in m && m["type"] == RText("file") then Some({RText("string")}) else Kinds(m);
    var nullable := "nullable" in m && m["nullable"] !in {RNull, RBool(false), RText(""), RList([]), RDict(map[])}
                    && !(m["nullable"].RNumber? && m["nullable"].zero);
    if named.Some? && nullable then Some(named.value + {RText("null")}) else named
  }

  ghost function OlderFormat(m: Entries): Option<Raw> {
    if "format" in m then Some(m["format"])
    else if "type" in m && m["type"] == RText("file") then Some(RText("binary")) else None
  }

  datatype Limit = Limit(bound: Raw, strict: bool)

  /** The limits two keywords set; a Boolean sets none. */
  ghost function Limits(m: Entries, exclusive: string, bound: string): set<Limit> {
    (if bound in m && !m[bound].RBool? then {Limit(m[bound], false)} else {})
    + (if exclusive in m && !m[exclusive].RBool? then {Limit(m[exclusive], true)} else {})
  }

  /** In the older dialect a flag makes the plain limit strict. */
  ghost function OlderLimits(m: Entries, exclusive: string, bound: string): set<Limit> {
    if exclusive in m && m[exclusive] == RBool(true) && bound in m
    then (if m[bound].RBool? then {} else {Limit(m[bound], true)})
    else Limits(m, exclusive, bound)
  }

  lemma {:induction false} NullableKinds(m: Entries)
    ensures Kinds(Nullable(FileType(m))) == OlderKinds(m)
    ensures forall k | k != "type" && k != "format" && k != "nullable" ::
              (k in Nullable(FileType(m)) <==> k in m) && (k in m ==> Nullable(FileType(m))[k] == m[k])
    ensures var r := Nullable(FileType(m)); (if "format" in r then Some(r["format"]) else None) == OlderFormat(m)
  {
    hide Truthy;
    var typed := FileType(m);
    if "nullable" in m {
      FalseValues(m["nullable"]);
      assert typed["nullable"] == m["nullable"];
      NullAdded(typed - {"nullable"});
      assert Kinds(typed - {"nullable"}) == Kinds(typed);
    }
  }

  lemma {:induction false} NullAdded(m: Entries)
    ensures Kinds(WithNull(m)) == if Kinds(m).Some? then Some(Kinds(m).value + {RText("null")}) else None
    ensures forall k | k != "type" :: (k in WithNull(m) <==> k in m) && (k in m ==> WithNull(m)[k] == m[k])
  {
    if "type" in m {
      match m["type"]
      case RText(text) =>
        var both := [RText(text), RText("null")];
        assert forall x :: x in both <==> x == RText(text) || x == RText("null");
        assert (set x | x in both) == {RText(text)} + {RText("null")};
        assert WithNull(m)["type"] == RList(both);
      case RList(items) =>
        var more := if RText("null") in items then items else items + [RText("null")];
        assert forall x :: x in more <==> x in items || x == RText("null");
        assert (set x | x in more) == (set x | x in items) + {RText("null")};
        assert WithNull(m)["type"] == RList(more);
      case _ =>
    }
  }

  lemma {:induction false} ExclusiveLimits(m: Entries, exclusive: string, bound: string)
    requires exclusive != bound
    ensures Limits(Exclusive(m, exclusive, bound), exclusive, bound) == OlderLimits(m, exclusive, bound)
  {
  }

  lemma {:induction false} SameLimits(m: Entries, r: Entries, exclusive: string, bound: string)
    requires forall k | k == exclusive || k == bound :: (k in r <==> k in m) && (k in m ==> r[k] == m[k])
    ensures Limits(r, exclusive, bound) == Limits(m, exclusive, bound)
    ensures OlderLimits(r, exclusive, bound) == OlderLimits(m, exclusive, bound)
  {
  }

  /**
   Rewriting keeps what a schema says: the kinds, the format and the limits it had in the older dialect are those it
   has in the newer one.
   */
  lemma {:induction false} DialectKeepsMeaning(m: Entries)
    ensures var r := Dialect(m);
            && Kinds(r) == OlderKinds(m)
            && (if "format" in r then Some(r["format"]) else None) == OlderFormat(m)
            && Limits(r, "exclusiveMinimum", "minimum") == OlderLimits(m, "exclusiveMinimum", "minimum")
            && Limits(r, "exclusiveMaximum", "maximum") == OlderLimits(m, "exclusiveMaximum", "maximum")
  {
    hide Exclusive, Limits, OlderLimits, OlderKinds, OlderFormat, Nullable, FileType, Kinds;
    var nulled := Nullable(FileType(m));
    var low := Exclusive(nulled, "exclusiveMinimum", "minimum");
    NullableKinds(m);
    ExclusiveIs(nulled, "exclusiveMinimum", "minimum");
    ExclusiveIs(low, "exclusiveMaximum", "maximum");
    ExclusiveLimits(nulled, "exclusiveMinimum", "minimum");
    ExclusiveLimits(low, "exclusiveMaximum", "maximum");
    SameLimits(m, nulled, "exclusiveMinimum", "minimum");
    SameLimits(low, Dialect(m), "exclusiveMinimum", "minimum");
    SameLimits(nulled, low, "exclusiveMaximum", "maximum");
    SameLimits(m, nulled, "exclusiveMaximum", "maximum");
    SameKinds(nulled, Dialect(m));
  }

  lemma {:induction false} SameKinds(m: Entries, r: Entries)
    requires "type" in r <==> "type" in m
    requires "type" in m ==> r["type"] == m["type"]
    ensures Kinds(r) == Kinds(m)
  {
  }

  lemma {:induction false} ExclusiveIs(m: Entries, exclusive: string, bound: string)
    requires exclusive != bound
    ensures var r := Exclusive(m, exclusive, bound);
            && !(exclusive in r && r[exclusive] == RBool(true) && bound in r)
            && (forall k | k != exclusive && k != bound :: (k in r <==> k in m) && (k in m ==> r[k] == m[k]))
            && (!(exclusive in m && m[exclusive].RBool?) ==> r == m)
  {
  }

  // ---------------------------------------------------------------- references in schema positions

  /** The schema `value` refers to r, at whatever depth. */
  ghost predicate RefersTo(value: Raw, r: string)
    decreases value, 0
  {
    value.RDict? && (TopRef(value.entries) == RText(r)
                     || exists k | k in value.entries :: k != "$ref" && KeywordRefersTo(k, value.entries[k], r))
  }

  ghost predicate KeywordRefersTo(key: string, value: Raw, r: string)
    decreases value, 1
  {
    if IsForgotten(key) then RefersTo(value, r)
    else match TreatmentOf(key, value)
      case OneSchema => RefersTo(value, r)
      case SchemaList => value.RList? && exists i | 0 <= i < |value.items| :: RefersTo(value.items[i], r)
      case SchemaMap => value.RDict? && exists n | n in value.entries :: RefersTo(value.entries[n], r)
      case Copied => false
  }

  /** Rebuilding the schema `value` resolves this value of a `$ref`, which need not be text. */
  ghost predicate Follows(value: Raw, ref: Raw)
    decreases value, 0
  {
    value.RDict? && ((ref != RNull && TopRef(value.entries) == ref)
                     || exists k | k in value.entries :: k != "$ref" && KeywordFollows(k, value.entries[k], ref))
  }

  ghost predicate KeywordFollows(key: string, value: Raw, ref: Raw)
    decreases value, 1
  {
    match TreatmentOf(key, value)
    case OneSchema => Follows(value, ref)
    case SchemaList => value.RList? && exists i | 0 <= i < |value.items| :: Follows(value.items[i], ref)
    case SchemaMap => value.RDict? && exists n | n in value.entries :: Follows(value.entries[n], ref)
    case Copied => false
  }

  /** The schema `value` carries the reference r under a forgotten keyword of a part that is rebuilt. */
  ghost predicate Hides(value: Raw, r: string)
    decreases value, 0
  {
    value.RDict? && exists k | k in value.entries :: k != "$ref" && KeywordHides(k, value.entries[k], r)
  }

  ghost predicate KeywordHides(key: string, value: Raw, r: string)
    decreases value, 1
  {
    if IsForgotten(key) then RefersTo(value, r)
    else match TreatmentOf(key, value)
      case OneSchema => Hides(value, r)
      case SchemaList => value.RList? && exists i | 0 <= i < |value.items| :: Hides(value.items[i], r)
      case SchemaMap => value.RDict? && exists n | n in value.entries :: Hides(value.entries[n], r)
      case Copied => false
  }

  /** Every reference of a schema is rebuilt or hidden. */
  lemma {:induction false} FollowedOrHidden(value: Raw, r: string)
    requires RefersTo(value, r)
    ensures Follows(value, RText(r)) || Hides(value, r)
    decreases value, 0
  {
    if TopRef(value.entries) != RText(r) {
      var k :| k in value.entries && k != "$ref" && KeywordRefersTo(k, value.entries[k], r);
      KeywordFollowedOrHidden(k, value.entries[k], r);
    }
  }

  lemma {:induction false} KeywordFollowedOrHidden(key: string, value: Raw, r: string)
    requires KeywordRefersTo(key, value, r)
    ensures KeywordFollows(key, value, RText(r)) || KeywordHides(key, value, r)
    decreases value, 1
  {
    hide SINGLE_KEYS, ARRAY_KEYS, MAP_KEYS;
    if !IsForgotten(key) {
      match TreatmentOf(key, value)
      case OneSchema => FollowedOrHidden(value, r);
      case SchemaList =>
        var i :| 0 <= i < |value.items| && RefersTo(value.items[i], r);
        FollowedOrHidden(value.items[i], r);
      case SchemaMap =>
        var n :| n in value.entries && RefersTo(value.entries[n], r);
        FollowedOrHidden(value.entries[n], r);
      case Copied =>
    }
  }

  // ---------------------------------------------------------------- the raw part of a parsed schema

  /** References rebuilt or hidden by the raw keywords that are carried over, outside a given set of keys. */
  ghost predicate NodeFollows(raw: map<string, Raw>, shadow: set<string>, ref: Raw) {
    exists k | k in raw :: !IsModeled(k) && k !in shadow && KeywordFollows(k, raw[k], ref)
  }

  ghost predicate NodeHides(raw: map<string, Raw>, shadow: set<string>, r: string) {
    exists k | k in raw :: !IsModeled(k) && k !in shadow && KeywordHides(k, raw[k], r)
  }

  function OwnKeys(raw: map<string, Raw>): set<string> {
    set k | k in raw && !IsModeled(k)
  }
}
