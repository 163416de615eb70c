/**
 scripts/generate-api-contracts.ts: from an OpenAPI schema to the text of a TypeScript type.

 A schema is the record of its keywords.  It accepts a value when every keyword does; the printer
 looks at one keyword only, the first in its own order.
 */
module ContractTypes {
  import opened Wrappers
  import opened TypeText

  datatype TypeName = TArray | TBoolean | TInteger | TNull | TNumber | TObject | TString | TUint8Array | TVoid

  datatype Types = Untyped | One(t: TypeName) | Many(ts: seq<TypeName>)

  datatype Additional = Unsaid | Allowed(allowed: bool) | Shaped(shape: Schema)

  datatype Property = Property(name: string, schema: Schema)

  datatype Members = NoMembers | Members(list: seq<Schema>)

  datatype Properties = NoProperties | Properties(list: seq<Property>)

  /** `component` is the name behind a $ref; `hasDefault` says that a default is given. */
  datatype Schema = Schema(
    component: Option<string>,
    constant: Option<Json>,
    options: Option<seq<Json>>,
    hasDefault: bool,
    anyOf: Members,
    oneOf: Members,
    allOf: Members,
    types: Types,
    format: Option<string>,
    items: Option<Schema>,
    properties: Properties,
    required: seq<string>,
    additional: Additional,
    nullable: bool)

  /**
   The components that a $ref can name: the exported name of each, the values its schema accepts, and
   the values of its exported type.
   */
  datatype World = World(names: map<string, string>, accepted: (string, Json) -> bool, types: (string, Json) -> bool)

  /** Every component's own printed type is sound. */
  ghost predicate Agrees(w: World) {
    forall c, v :: c in w.names && w.accepted(c, v) ==> w.types(w.names[c], v)
  }

  // ---- the values that a schema accepts ----

  predicate HasType(t: TypeName, v: Json) {
    match t
    case TArray => v.JArr?
    case TBoolean => v.JBool?
    case TInteger => v.JNum? && v.n.Floor as real == v.n
    case TNull => v.JNull?
    case TNumber => v.JNum?
    case TObject => v.JObj?
    case TString => v.JStr?
    case TUint8Array => false
    case TVoid => false
  }

  ghost predicate Accepts(w: World, s: Schema, v: Json)
    decreases s, 2
  {
    (s.nullable && v.JNull?) || AcceptsBase(w, s, v)
  }

  ghost predicate AcceptsBase(w: World, s: Schema, v: Json)
    decreases s, 1
  {
    if s.component.Some? then w.accepted(s.component.value, v)
    else
      && (s.constant.Some? ==> v == s.constant.value)
      && (s.options.Some? ==> v in s.options.value)
      && (s.anyOf.Members? ==> exists i | 0 <= i < |s.anyOf.list| :: Accepts(w, s.anyOf.list[i], v))
      && (s.oneOf.Members? ==>
            exists i | 0 <= i < |s.oneOf.list| ::
              && Accepts(w, s.oneOf.list[i], v)
              && forall j | 0 <= j < |s.oneOf.list| && j != i :: !Accepts(w, s.oneOf.list[j], v))
      && (s.allOf.Members? ==> forall i | 0 <= i < |s.allOf.list| :: Accepts(w, s.allOf.list[i], v))
      && (match s.types
          case Untyped => true
          case One(t) => HasType(t, v)
          case Many(ts) => exists i | 0 <= i < |ts| :: HasType(ts[i], v))
      && AcceptsParts(w, s, v)
  }

  /** The keywords about the items of an array and the fields of an object. */
  ghost predicate AcceptsParts(w: World, s: Schema, v: Json)
    decreases s, 0
  {
    && (v.JArr? && s.items.Some? ==> forall i | 0 <= i < |v.items| :: Accepts(w, s.items.value, v.items[i]))
    && (v.JObj? ==>
          && (forall n | n in s.required :: n in v.fields)
          && (s.properties.Properties? ==>
                forall i | 0 <= i < |s.properties.list| :: var p := s.properties.list[i];
                  p.name in v.fields ==> Accepts(w, p.schema, v.fields[p.name]))
          && (s.additional.Shaped? ==>
                forall k | k in v.fields && !Declared(s, k) :: Accepts(w, s.additional.shape, v.fields[k]))
          && (s.additional == Allowed(false) ==> forall k | k in v.fields :: Declared(s, k)))
  }

  predicate Declared(s: Schema, name: string) {
    s.properties.Properties? && exists p | p in s.properties.list :: p.name == name
  }

  // ---- the printer ----

  predicate HasLineBreak(s: string) {
    '\n' in s || '\r' in s
  }

  /** Quoted strings have no escape for a line break. */
  function Literal(value: Json): Token {
    match value
    case JStr(s) => if HasLineBreak(s) then Torn(Lit(value)) else Lit(value)
    case JNum(_) => Lit(value)
    case JBool(_) => Lit(value)
    case JNull => Word(Null)
    case _ => Word(Unknown)
  }

  function Literals(values: seq<Json>): seq<Text> {
    seq(|values|, i requires 0 <= i < |values| => [Literal(values[i])])
  }

  function Join(sep: Token, parts: seq<Text>): Text {
    if parts == [] then []
    else if |parts| == 1 then parts[0]
    else Join(sep, parts[..|parts| - 1]) + [sep] + parts[|parts| - 1]
  }

  /** The parts other than `never`, each once, in order of first appearance. */
  function Distinct(parts: seq<Text>): seq<Text> {
    if parts == [] then [] else
      var before := Distinct(parts[..|parts| - 1]);
      var last := parts[|parts| - 1];
      if last == [Word(Never)] || last in before then before else before + [last]
  }

  function UniqueUnion(parts: seq<Text>): Text {
    if Distinct(parts) == [] then [Word(Unknown)] else Join(Bar, Distinct(parts))
  }

  /** The characters of a quoted token: a string literal or a property's name. */
  function Chars(t: Token): string {
    match t
    case Lit(value) => if value.JStr? then value.s else ""
    case Prop(name, _) => name
    case Torn(inner) => Chars(inner)
    case _ => ""
  }

  predicate Includes(s: string, part: string) {
    |s| >= |part| && (s[..|part|] == part || Includes(s[1..], part))
  }

  predicate BarInside(t: Token) {
    Includes(Chars(t), " | ")
  }

  /** `text.includes(' | ')`, quoted text included: both kinds of bar have a space on either side. */
  predicate HasBar(ts: Text) {
    exists t | t in ts :: IsBar(t) || BarInside(t)
  }

  /** `text.includes(' & ')`. */
  predicate HasAmp(ts: Text) {
    exists t | t in ts :: t == Amp || Includes(Chars(t), " & ")
  }

  /** `s.split(' | ')`. */
  function Split(s: string): (parts: seq<string>)
    ensures parts != []
  {
    if s == "" then [""]
    else if |s| >= 3 && s[..3] == " | " then [""] + Split(s[3..])
    else var parts := Split(s[1..]); [[s[0]] + parts[0]] + parts[1..]
  }

  /** A part of the quoted text is exactly "null"; the first and the last part have a quote. */
  predicate NullInside(t: Token) {
    var parts := Split(Chars(t));
    exists i | 0 < i < |parts| - 1 :: parts[i] == "null"
  }

  /** Splitting the text at " | ", at any depth, leaves a part that is exactly "null". */
  predicate NullPartAt(ts: Text, i: nat) {
    && i < |ts| && ts[i] == Word(Null)
    && (i == 0 || IsBar(ts[i - 1]))
    && (i + 1 == |ts| || ts[i + 1] == Bar)
  }

  predicate HasNullPart(ts: Text) {
    exists i: nat | i < |ts| :: NullPartAt(ts, i) || NullInside(ts[i])
  }

  function BrokenToken(t: Token): Token {
    if t == Bar then BreakBar else if BarInside(t) then Torn(t) else t
  }

  /** `split(' | ').join('\n  | ')`, which tears quoted text as well. */
  function Broken(ts: Text): (r: Text)
    ensures |r| == |ts| && forall i :: 0 <= i < |r| ==> r[i] == BrokenToken(ts[i])
  {
    seq(|ts|, i requires 0 <= i < |ts| => BrokenToken(ts[i]))
  }

  function OrNull(nullable: bool, base: Text): Text {
    if !nullable || HasNullPart(base) then base else base + [Bar, Word(Null)]
  }

  predicate Breaks(item: Text) {
    item != [] && item[0] != BraceOpen && HasBar(item)
  }

  function ArrayText(item: Text): Text {
    if Breaks(item) then [ArrayOpen, BreakBar] + Broken(item) + [Close]
    else if HasBar(item) || HasAmp(item) then [ArrayOpen] + item + [Close]
    else item + [Brackets]
  }

  const NUMERIC_FORMATS := {"integer", "number", "float", "double"}

  /** A schema that says nothing but a default. */
  predicate DefaultOnly(s: Schema) {
    && s.hasDefault && s.types.Untyped? && s.component.None? && s.anyOf.NoMembers? && s.oneOf.NoMembers?
    && s.allOf.NoMembers? && s.properties.NoProperties? && s.items.None? && s.options.None? && s.constant.None?
  }

  function SchemaToType(w: World, s: Schema): Text
    decreases s, 4
  {
    OrNull(s.nullable, BaseSchemaToType(w, s))
  }

  function BaseSchemaToType(w: World, s: Schema): Text
    decreases s, 3
  {
    if s.component.Some? then
      [if s.component.value in w.names then Name(w.names[s.component.value]) else Word(Unknown)]
    else if s.constant.Some? then [Literal(s.constant.value)]
    else if s.options.Some? then UniqueUnion(Literals(s.options.value))
    else if DefaultOnly(s) then [Word(Never)]
    else if s.anyOf.Members? then UniqueUnion(TypesOf(w, s.anyOf.list))
    else if s.oneOf.Members? then UniqueUnion(TypesOf(w, s.oneOf.list))
    else if s.allOf.Members? then Join(Amp, TypesOf(w, s.allOf.list))
    else match s.types
      case Many(ts) => UniqueUnion(TypesOfEach(w, s, ts))
      case One(t) => TypedText(w, s, Some(t))
      case Untyped => TypedText(w, s, None)
  }

  function TypesOf(w: World, schemas: seq<Schema>): (r: seq<Text>)
    ensures |r| == |schemas| && forall i :: 0 <= i < |r| ==> r[i] == SchemaToType(w, schemas[i])
    decreases schemas, 5
  {
    if schemas == [] then [] else
      var n := |schemas| - 1;
      TypesOf(w, schemas[..n]) + [SchemaToType(w, schemas[n])]
  }

  /** One branch for each name of a type list, with every other keyword kept, `nullable` included. */
  function TypesOfEach(w: World, s: Schema, ts: seq<TypeName>): (r: seq<Text>)
    ensures |r| == |ts| && forall i :: 0 <= i < |r| ==> r[i] == OrNull(s.nullable, TypedText(w, s, Some(ts[i])))
    decreases s, 2, |ts|
  {
    if ts == [] then [] else
      var n := |ts| - 1;
      TypesOfEach(w, s, ts[..n]) + [OrNull(s.nullable, TypedText(w, s, Some(ts[n])))]
  }

  /** The tail of baseSchemaToType, once no combining keyword is left. */
  function TypedText(w: World, s: Schema, t: Option<TypeName>): Text
    decreases s, 1
  {
    if t == Some(TNull) then [Word(Null)]
    else if t == Some(TString) && s.format.Some? && s.format.value in NUMERIC_FORMATS then [Word(Number)]
    else if s.format == Some("binary") || t == Some(TUint8Array) then [Name("Uint8Array")]
    else if t == Some(TVoid) then [Name("void")]
    else if t == Some(TString) then [Word(String)]
    else if t == Some(TInteger) || t == Some(TNumber) then [Word(Number)]
    else if t == Some(TBoolean) then [Word(Boolean)]
    else if t == Some(TArray) then ArrayText(ItemText(w, s))
    else if t == Some(TObject) || s.properties.Properties? then
      if s.properties.NoProperties? || s.properties.list == [] then [RecordOpen] + EntryText(w, s) + [Close]
      else
        [BraceOpen] + FieldLines(w, s.properties.list, s.required) + [BraceClose]
    else [Word(Unknown)]
  }

  /** The type of an array's items. */
  function ItemText(w: World, s: Schema): Text
    decreases s, 0
  {
    if s.items.Some? then SchemaToType(w, s.items.value) else [Word(Unknown)]
  }

  /** The type of a record's entries. */
  function EntryText(w: World, s: Schema): Text
    decreases s, 0
  {
    if s.additional.Shaped? then SchemaToType(w, s.additional.shape) else [Word(Unknown)]
  }

  /** The lines between the braces of an object type. */
  function FieldLines(w: World, props: seq<Property>, required: seq<string>): Text
    decreases props, 5
  {
    if props == [] then [] else
      [Prop(props[0].name, props[0].name !in required)] + SchemaToType(w, props[0].schema) + [Semi]
      + FieldLines(w, props[1..], required)
  }

  /** objectType, which builds the lines of an object type one property at a time. */
  method ObjectType(w: World, s: Schema) returns (text: Text)
    requires s.format != Some("binary")
    ensures text == TypedText(w, s, Some(TObject))
  {
    if s.properties.NoProperties? || s.properties.list == [] {
      if s.additional.Shaped? {
        return [RecordOpen] + SchemaToType(w, s.additional.shape) + [Close];
      }
      return [RecordOpen, Word(Unknown), Close];
    }
    var props := s.properties.list;
    var lines: Text := [];
    for i := 0 to |props|
      invariant FieldLines(w, props, s.required) == lines + FieldLines(w, props[i..], s.required)
    {
      var optional := props[i].name !in s.required;
      var line := [Prop(props[i].name, optional)] + SchemaToType(w, props[i].schema) + [Semi];
      lines := lines + line;
    }
    assert props[|props|..] == [];
    text := [BraceOpen] + lines + [BraceClose];
  }
}
