/**
 The printed type holds no more than it should: what a reader of the schema expects of the type, without
 looking at any text, is exactly what the printed type holds.

 TypeScript has no integers, no closed objects and no "exactly one of", so the expected values are those of
 a number, of an open object and of any one; where a schema asks for none of these, they are the accepted
 values.
 */
module ContractExact {
  import opened Wrappers
  import opened TypeText
  import opened ContractTypes
  import opened ContractSoundness
  import opened ContractTheorem

  // ---- the values expected of the type ----

  ghost predicate Meant(w: World, s: Schema, v: Json)
    decreases s, 2
  {
    (s.nullable && v.JNull?) || MeantBase(w, s, v)
  }

  /** Arrays and objects have no literal types. */
  predicate LiteralMeans(c: Json, v: Json) {
    c.JArr? || c.JObj? || v == c
  }

  /** The first keyword of the printer's order decides alone. */
  ghost predicate MeantBase(w: World, s: Schema, v: Json)
    decreases s, 1
  {
    if s.component.Some? then s.component.value in w.names ==> w.types(w.names[s.component.value], v)
    else if s.constant.Some? then LiteralMeans(s.constant.value, v)
    else if s.options.Some? then s.options.value == [] || exists o | o in s.options.value :: LiteralMeans(o, v)
    else if DefaultOnly(s) then false
    else if s.anyOf.Members? then
      s.anyOf.list == [] || exists i | 0 <= i < |s.anyOf.list| :: Meant(w, s.anyOf.list[i], v)
    else if s.oneOf.Members? then
      s.oneOf.list == [] || exists i | 0 <= i < |s.oneOf.list| :: Meant(w, s.oneOf.list[i], v)
    else if s.allOf.Members? then forall i | 0 <= i < |s.allOf.list| :: Meant(w, s.allOf.list[i], v)
    else match s.types
      case Many(ts) => ts == [] || exists i | 0 <= i < |ts| :: (s.nullable && v.JNull?) || MeantAs(w, s, ts[i], v)
      case One(t) => MeantAs(w, s, t, v)
      case Untyped => true
  }

  ghost predicate MeantAs(w: World, s: Schema, t: TypeName, v: Json)
    decreases s, 0
  {
    match t
    case TNull => v.JNull?
    case TString => v.JStr?
    case TInteger => v.JNum?
    case TNumber => v.JNum?
    case TBoolean => v.JBool?
    case TUint8Array => w.types("Uint8Array", v)
    case TVoid => w.types(if s.format == Some("binary") then "Uint8Array" else "void", v)
    case TArray =>
      v.JArr? && (s.items.Some? ==> forall i | 0 <= i < |v.items| :: Meant(w, s.items.value, v.items[i]))
    case TObject =>
      v.JObj? &&
      if s.properties.NoProperties? || s.properties.list == [] then
        s.additional.Shaped? ==> forall k | k in v.fields :: Meant(w, s.additional.shape, v.fields[k])
      else
        forall i | 0 <= i < |s.properties.list| ::
          var p := s.properties.list[i];
          if p.name in v.fields then Meant(w, p.schema, v.fields[p.name]) else p.name !in s.required
  }

  /**
   Where the text is exact: the members of an allOf are no unions, because `&` is printed without
   parentheses, and no member of an anyOf or oneOf is printed `never`.
   */
  predicate Tight(w: World, s: Schema)
    decreases s, 1
  {
    if s.component.Some? || s.constant.Some? || s.options.Some? then true
    else if s.anyOf.Members? then forall m | m in s.anyOf.list :: Tight(w, m) && SchemaToType(w, m) != [Word(Never)]
    else if s.oneOf.Members? then forall m | m in s.oneOf.list :: Tight(w, m) && SchemaToType(w, m) != [Word(Never)]
    else if s.allOf.Members? then forall m | m in s.allOf.list :: Tight(w, m) && OneMember(SchemaToType(w, m))
    else match s.types
      case Many(ts) => forall t | t in ts :: TightAs(w, s, t)
      case One(t) => TightAs(w, s, t)
      case Untyped => true
  }

  predicate TightAs(w: World, s: Schema, t: TypeName)
    decreases s, 0
  {
    match t
    case TArray => s.items.Some? ==> Tight(w, s.items.value)
    case TObject =>
      && (s.properties.Properties? ==> forall p | p in s.properties.list :: Tight(w, p.schema))
      && (s.additional.Shaped? ==> Tight(w, s.additional.shape))
    case _ => true
  }

  predicate OneMember(text: Text) {
    ReadType(Lex(text)).Some? && |ReadType(Lex(text)).value.members| == 1
  }

  // ---- unions and intersections ----

  lemma {:induction false} JoinBarsHolds(w: World, parts: seq<Text>, v: Json)
    requires parts != [] && forall p | p in parts :: WellFormed(p)
    ensures WellFormed(Join(Bar, parts))
    ensures Denotes(w.types, Join(Bar, parts), v) <==> exists p :: p in parts && Denotes(w.types, p, v)
    decreases |parts|
  {
    if |parts| == 1 {
      assert parts == [parts[0]];
    } else {
      var n := |parts| - 1;
      assert parts == parts[..n] + [parts[n]];
      JoinBarsHolds(w, parts[..n], v);
      TwoTexts(w, Join(Bar, parts[..n]), parts[n]);
    }
  }

  lemma {:induction false} UniqueUnionHolds(w: World, parts: seq<Text>, v: Json)
    requires parts != [] && forall p | p in parts :: WellFormed(p) && p != [Word(Never)]
    ensures Denotes(w.types, UniqueUnion(parts), v) <==> exists p :: p in parts && Denotes(w.types, p, v)
  {
    DistinctKeeps(parts);
    assert parts[0] in parts && parts[0] in Distinct(parts);
    JoinBarsHolds(w, Distinct(parts), v);
  }

  lemma {:induction false} TwoSingles(w: World, a: Text, b: Text, v: Json)
    requires WellFormed(a) && WellFormed(b) && OneMember(a) && OneMember(b)
    ensures WellFormed(a + [Amp] + b) && OneMember(a + [Amp] + b)
    ensures Denotes(w.types, a + [Amp] + b, v) <==> Denotes(w.types, a, v) && Denotes(w.types, b, v)
  {
    var x, y := ReadType(Lex(a)).value.members[0], ReadType(Lex(b)).value.members[0];
    assert Lex(a + [Amp] + b) == Lex(a) + [Amp] + Lex(b);
    IntersectionIsType(w.types, Lex(a), Lex(b));
    ReadSpliced(Lex(a), Lex(b));
    SplicedSingle(x, y, []);
    assert ReadType(Lex(a)).value == Union([x]) && ReadType(Lex(b)).value == Union([y]);
    UnionOfOne(w.types, x, v);
    UnionOfOne(w.types, y, v);
    UnionOfOne(w.types, All(x.parts + y.parts), v);
    PartsTogether(w.types, x, y, v);
  }

  lemma {:induction false} UnionOfOne(types: (string, Json) -> bool, x: Intersection, v: Json)
    ensures InType(types, Union([x]), v) <==> InAll(types, x, v)
  {
    if InAll(types, x, v) {
      assert InAll(types, Union([x]).members[0], v);
    }
  }

  lemma {:induction false} PartsTogether(types: (string, Json) -> bool, x: Intersection, y: Intersection, v: Json)
    ensures InAll(types, All(x.parts + y.parts), v) <==> InAll(types, x, v) && InAll(types, y, v)
  {
    var both := x.parts + y.parts;
    if InAll(types, All(both), v) {
      forall i | 0 <= i < |x.parts| ensures InAtom(types, x.parts[i], v) {
        assert both[i] == x.parts[i];
      }
      forall i | 0 <= i < |y.parts| ensures InAtom(types, y.parts[i], v) {
        assert both[|x.parts| + i] == y.parts[i];
      }
    }
  }

  lemma {:induction false} JoinAmpsHolds(w: World, parts: seq<Text>, v: Json)
    requires parts != [] && forall p | p in parts :: WellFormed(p) && OneMember(p)
    ensures WellFormed(Join(Amp, parts)) && OneMember(Join(Amp, parts))
    ensures Denotes(w.types, Join(Amp, parts), v) <==> forall p | p in parts :: Denotes(w.types, p, v)
    decreases |parts|
  {
    if |parts| == 1 {
      assert parts == [parts[0]];
    } else {
      var n := |parts| - 1;
      assert parts == parts[..n] + [parts[n]];
      JoinAmpsHolds(w, parts[..n], v);
      TwoSingles(w, Join(Amp, parts[..n]), parts[n], v);
    }
  }

  // ---- one token, arrays, records, objects ----

  lemma {:induction false} WordHolds(w: World, k: Keyword, v: Json)
    ensures Denotes(w.types, [Word(k)], v) <==> InWord(k, v)
  {
    WordReads(k);
    AtomHoldsOnly(w.types, [Word(k)], WordType(k), v);
  }

  lemma {:induction false} NameHolds(w: World, name: string, v: Json)
    ensures Denotes(w.types, [Name(name)], v) <==> w.types(name, v)
  {
    assert Lex([Name(name)]) == [Name(name)];
    ReadToken(Name(name));
    AtomHoldsOnly(w.types, [Name(name)], NamedType(name), v);
  }

  lemma {:induction false} LiteralHolds(w: World, c: Json, v: Json)
    requires OneLine(c)
    ensures WellFormed([Literal(c)]) && [Literal(c)] != [Word(Never)]
    ensures Denotes(w.types, [Literal(c)], v) <==> LiteralMeans(c, v)
  {
    LiteralSound(w, c);
    match Literal(c)
    case Lit(_) =>
      assert Lex([Lit(c)]) == [Lit(c)];
      ReadToken(Lit(c));
      AtomHoldsOnly(w.types, [Lit(c)], LitType(c), v);
    case Word(k) => WordHolds(w, k, v);
  }

  lemma {:induction false} ArrayHolds(w: World, item: Text, v: Json)
    requires WellFormed(item) && !Tears(item)
    ensures Denotes(w.types, ArrayText(item), v) <==>
            v.JArr? && forall i | 0 <= i < |v.items| :: Denotes(w.types, item, v.items[i])
  {
    ArrayTextReads(item);
    AtomHoldsOnly(w.types, ArrayText(item), ArrayType(ReadType(Lex(item)).value), v);
  }

  lemma {:induction false} RecordHolds(w: World, entry: Text, v: Json)
    requires WellFormed(entry)
    ensures Denotes(w.types, [RecordOpen] + entry + [Close], v) <==>
            v.JObj? && forall k | k in v.fields :: Denotes(w.types, entry, v.fields[k])
  {
    assert Lex([RecordOpen] + entry + [Close]) == [RecordOpen] + Lex(entry) + [Close];
    ReadRecordOf(Lex(entry));
    AtomHoldsOnly(w.types, [RecordOpen] + entry + [Close], RecordType(ReadType(Lex(entry)).value), v);
  }

  /** Each line of an object type is read as the field of its property. */
  ghost predicate FieldsAre(w: World, props: seq<Property>, required: seq<string>, fields: seq<Field>) {
    |fields| == |props| && forall i | 0 <= i < |props| :: FieldIs(w, props[i], required, fields[i])
  }

  ghost predicate FieldIs(w: World, p: Property, required: seq<string>, f: Field) {
    && f.name == p.name && f.optional == (p.name !in required)
    && ReadType(Lex(SchemaToType(w, p.schema))) == Some(f.t)
  }

  lemma {:induction false} LinesAreFields(w: World, props: seq<Property>, required: seq<string>)
    requires forall p | p in props :: Sound(w, p.schema)
    ensures var body := Lex(FieldLines(w, props, required));
            Balanced(body) && ReadFields(body).Some? && FieldsAre(w, props, required, ReadFields(body).value)
    decreases |props|
  {
    if props == [] {
      assert Lex(FieldLines(w, props, required)) == [];
    } else {
      var p, rest := props[0], props[1..];
      LinesAreFields(w, rest, required);
      var text, more := SchemaToType(w, p.schema), FieldLines(w, rest, required);
      var optional := p.name !in required;
      assert p in props && Sound(w, p.schema);
      FieldLinesCut(w, props, required, p.name, optional, text, more);
      ReadFieldsCons(p.name, optional, Lex(text), Lex(more));
      OneMoreIs(w, props, required, Field(p.name, optional, ReadType(Lex(text)).value), ReadFields(Lex(more)).value);
    }
  }

  lemma {:induction false} OneMoreIs(
      w: World, props: seq<Property>, required: seq<string>, f: Field, fields: seq<Field>)
    requires props != [] && FieldIs(w, props[0], required, f) && FieldsAre(w, props[1..], required, fields)
    ensures FieldsAre(w, props, required, [f] + fields)
  {
    forall i | 0 <= i < |props| ensures FieldIs(w, props[i], required, ([f] + fields)[i]) {
      assert i > 0 ==> props[1..][i - 1] == props[i];
    }
  }

  ghost predicate Fits(w: World, p: Property, required: seq<string>, fields: map<string, Json>) {
    if p.name in fields then Denotes(w.types, SchemaToType(w, p.schema), fields[p.name]) else p.name !in required
  }

  ghost predicate AllFit(w: World, props: seq<Property>, required: seq<string>, v: Json) {
    v.JObj? && forall i | 0 <= i < |props| :: Fits(w, props[i], required, v.fields)
  }

  lemma {:induction false} ObjectHolds(w: World, props: seq<Property>, required: seq<string>, v: Json)
    requires forall p | p in props :: Sound(w, p.schema)
    ensures Denotes(w.types, [BraceOpen] + FieldLines(w, props, required) + [BraceClose], v) <==>
            AllFit(w, props, required, v)
  {
    LinesAreFields(w, props, required);
    ObjectTextHolds(w, FieldLines(w, props, required), v);
    FieldsHold(w, props, required, ReadFields(Lex(FieldLines(w, props, required))).value, v);
  }

  lemma {:induction false} ObjectTextHolds(w: World, body: Text, v: Json)
    requires Balanced(Lex(body)) && ReadFields(Lex(body)).Some?
    ensures Denotes(w.types, [BraceOpen] + body + [BraceClose], v) <==>
            InAtom(w.types, ObjectType(ReadFields(Lex(body)).value), v)
  {
    assert Lex([BraceOpen] + body + [BraceClose]) == [BraceOpen] + Lex(body) + [BraceClose];
    ReadObject(Lex(body));
    AtomHoldsOnly(w.types, [BraceOpen] + body + [BraceClose], ObjectType(ReadFields(Lex(body)).value), v);
  }

  lemma {:induction false} FieldsHold(
      w: World, props: seq<Property>, required: seq<string>, fields: seq<Field>, v: Json)
    requires FieldsAre(w, props, required, fields)
    ensures InAtom(w.types, ObjectType(fields), v) <==> AllFit(w, props, required, v)
  {
    forall i | 0 <= i < |props| && v.JObj?
      ensures (if fields[i].name in v.fields then InType(w.types, fields[i].t, v.fields[fields[i].name])
               else fields[i].optional) <==>
              Fits(w, props[i], required, v.fields)
    {
      assert FieldIs(w, props[i], required, fields[i]);
    }
  }

  // ---- the theorem ----

  /** A covered schema's type holds exactly the values expected of it, at any depth. */
  lemma {:induction false} TypeIsExact(w: World, s: Schema, v: Json)
    requires Agrees(w) && Covered(w, s) && Tight(w, s)
    ensures Denotes(w.types, SchemaToType(w, s), v) <==> Meant(w, s, v)
    decreases s, 6
  {
    var base := BaseSchemaToType(w, s);
    BaseSound(w, s);
    BaseIsExact(w, s, v);
    NullAdds(w, s.nullable, base, v);
  }

  lemma {:induction false} NullAdds(w: World, nullable: bool, base: Text, v: Json)
    requires WellFormed(base) && (nullable && HasNullPart(base) ==> NullAtTop(base))
    ensures Denotes(w.types, OrNull(nullable, base), v) <==> Denotes(w.types, base, v) || (nullable && v.JNull?)
  {
    if nullable {
      if HasNullPart(base) {
        NullAtTopHoldsNull(w.types, base);
      } else {
        WordReads(Null);
        WordHolds(w, Null, v);
        assert base + [Bar, Word(Null)] == base + [Bar] + [Word(Null)];
        TwoTexts(w, base, [Word(Null)]);
      }
    }
  }

  /** None of the keywords that come before the combining ones. */
  predicate Combined(s: Schema) {
    s.component.None? && s.constant.None? && s.options.None?
  }

  lemma {:induction false} BaseIsExact(w: World, s: Schema, v: Json)
    requires Agrees(w) && CoveredBase(w, s) && Tight(w, s)
    ensures Denotes(w.types, BaseSchemaToType(w, s), v) <==> MeantBase(w, s, v)
    decreases s, 5
  {
    if !Combined(s) {
      LeafIsExact(w, s, v);
    } else if s.anyOf.Members? {
      AnyOfIsExact(w, s, v);
    } else if s.oneOf.Members? {
      OneOfIsExact(w, s, v);
    } else if s.allOf.Members? {
      AllOfIsExact(w, s, v);
    } else {
      PlainlyIsExact(w, s, v);
    }
  }

  lemma {:induction false} AnyOfIsExact(w: World, s: Schema, v: Json)
    requires Agrees(w) && CoveredBase(w, s) && Tight(w, s) && Combined(s) && s.anyOf.Members?
    ensures Denotes(w.types, BaseSchemaToType(w, s), v) <==> MeantBase(w, s, v)
    decreases s, 4, 1
  {
    assert !DefaultOnly(s);
    AnyIsExact(w, s, s.anyOf.list, v);
  }

  lemma {:induction false} OneOfIsExact(w: World, s: Schema, v: Json)
    requires Agrees(w) && CoveredBase(w, s) && Tight(w, s) && Combined(s) && s.anyOf.NoMembers? && s.oneOf.Members?
    ensures Denotes(w.types, BaseSchemaToType(w, s), v) <==> MeantBase(w, s, v)
    decreases s, 4, 1
  {
    assert !DefaultOnly(s);
    AnyIsExact(w, s, s.oneOf.list, v);
  }

  lemma {:induction false} AllOfIsExact(w: World, s: Schema, v: Json)
    requires Agrees(w) && CoveredBase(w, s) && Tight(w, s) && Combined(s)
    requires s.anyOf.NoMembers? && s.oneOf.NoMembers? && s.allOf.Members?
    ensures Denotes(w.types, BaseSchemaToType(w, s), v) <==> MeantBase(w, s, v)
    decreases s, 4, 1
  {
    assert !DefaultOnly(s);
    EveryIsExact(w, s, s.allOf.list, v);
  }

  lemma {:induction false} LeafIsExact(w: World, s: Schema, v: Json)
    requires CoveredBase(w, s) && (s.component.Some? || s.constant.Some? || s.options.Some?)
    ensures Denotes(w.types, BaseSchemaToType(w, s), v) <==> MeantBase(w, s, v)
  {
    if s.component.Some? {
      if s.component.value in w.names {
        NameHolds(w, w.names[s.component.value], v);
      } else {
        WordHolds(w, Unknown, v);
      }
    } else if s.constant.Some? {
      LiteralHolds(w, s.constant.value, v);
    } else {
      EnumIsExact(w, s.options.value, v);
    }
  }

  lemma {:induction false} PlainlyIsExact(w: World, s: Schema, v: Json)
    requires Agrees(w) && CoveredBase(w, s) && Tight(w, s) && Plainly(s)
    ensures Denotes(w.types, BaseSchemaToType(w, s), v) <==> MeantBase(w, s, v)
    decreases s, 4, 0
  {
    assert !DefaultOnly(s);
    match s.types
    case Many(ts) => ListIsExact(w, s, ts, v);
    case One(t) => NamedIsExact(w, s, t, v);
    case Untyped =>
      assert TypedText(w, s, None) == [Word(Unknown)];
      WordHolds(w, Unknown, v);
  }

  lemma {:induction false} EnumIsExact(w: World, options: seq<Json>, v: Json)
    requires forall o | o in options :: OneLine(o)
    ensures Denotes(w.types, UniqueUnion(Literals(options)), v) <==>
            options == [] || exists o | o in options :: LiteralMeans(o, v)
  {
    var parts := Literals(options);
    if options == [] {
      WordHolds(w, Unknown, v);
    } else {
      forall p | p in parts ensures WellFormed(p) && p != [Word(Never)] {
        var i :| 0 <= i < |parts| && parts[i] == p;
        LiteralHolds(w, options[i], v);
      }
      UniqueUnionHolds(w, parts, v);
      forall i | 0 <= i < |options| ensures Denotes(w.types, parts[i], v) <==> LiteralMeans(options[i], v) {
        LiteralHolds(w, options[i], v);
      }
      SomePart(w, parts, v);
    }
  }

  /** A part holds the value, by its position. */
  lemma {:induction false} SomePart(w: World, parts: seq<Text>, v: Json)
    ensures (exists p :: p in parts && Denotes(w.types, p, v)) <==>
            exists i :: 0 <= i < |parts| && Denotes(w.types, parts[i], v)
  {
    if p :| p in parts && Denotes(w.types, p, v) {
      var i :| 0 <= i < |parts| && parts[i] == p;
    }
  }

  lemma {:induction false} AllExact(w: World, s: Schema, schemas: seq<Schema>, v: Json)
    requires Agrees(w) && forall m | m in schemas :: m < s && Covered(w, m) && Tight(w, m)
    ensures forall m | m in schemas :: Sound(w, m)
    ensures forall m | m in schemas :: Denotes(w.types, SchemaToType(w, m), v) <==> Meant(w, m, v)
    decreases s, 3
  {
    forall m | m in schemas
      ensures Sound(w, m) && (Denotes(w.types, SchemaToType(w, m), v) <==> Meant(w, m, v))
    {
      CoveredIsSound(w, m);
      TypeIsExact(w, m, v);
    }
  }

  lemma {:induction false} AnyIsExact(w: World, s: Schema, schemas: seq<Schema>, v: Json)
    requires Agrees(w) && forall m | m in schemas :: m < s && Covered(w, m) && Tight(w, m)
    requires forall m | m in schemas :: SchemaToType(w, m) != [Word(Never)]
    ensures Denotes(w.types, UniqueUnion(TypesOf(w, schemas)), v) <==>
            schemas == [] || exists i | 0 <= i < |schemas| :: Meant(w, schemas[i], v)
    decreases s, 4, 0
  {
    if schemas == [] {
      WordHolds(w, Unknown, v);
    } else {
      AllExact(w, s, schemas, v);
      PartsHold(w, schemas, v);
      assert forall i | 0 <= i < |schemas| :: schemas[i] in schemas;
    }
  }

  lemma {:induction false} PartsHold(w: World, schemas: seq<Schema>, v: Json)
    requires schemas != [] && forall m | m in schemas :: Sound(w, m) && SchemaToType(w, m) != [Word(Never)]
    ensures Denotes(w.types, UniqueUnion(TypesOf(w, schemas)), v) <==>
            exists i | 0 <= i < |schemas| :: Denotes(w.types, SchemaToType(w, schemas[i]), v)
  {
    var parts := TypesOf(w, schemas);
    PartsWellFormed(w, schemas);
    forall p | p in parts ensures p != [Word(Never)] {
      var i :| 0 <= i < |parts| && parts[i] == p;
      assert schemas[i] in schemas;
    }
    UniqueUnionHolds(w, parts, v);
    SomePart(w, parts, v);
  }

  lemma {:induction false} EveryIsExact(w: World, s: Schema, schemas: seq<Schema>, v: Json)
    requires Agrees(w) && schemas != [] && forall m | m in schemas :: m < s && Covered(w, m) && Tight(w, m)
    requires forall m | m in schemas :: OneMember(SchemaToType(w, m))
    ensures Denotes(w.types, Join(Amp, TypesOf(w, schemas)), v) <==>
            forall i | 0 <= i < |schemas| :: Meant(w, schemas[i], v)
    decreases s, 4, 0
  {
    var parts := TypesOf(w, schemas);
    AllExact(w, s, schemas, v);
    PartsWellFormed(w, schemas);
    forall p | p in parts ensures OneMember(p) {
      var i :| 0 <= i < |parts| && parts[i] == p;
      assert schemas[i] in schemas;
    }
    JoinAmpsHolds(w, parts, v);
    EveryPart(w, parts, v);
  }

  lemma {:induction false} EveryPart(w: World, parts: seq<Text>, v: Json)
    ensures (forall p | p in parts :: Denotes(w.types, p, v)) <==>
            forall i | 0 <= i < |parts| :: Denotes(w.types, parts[i], v)
  {
    if forall i | 0 <= i < |parts| :: Denotes(w.types, parts[i], v) {
      forall p | p in parts ensures Denotes(w.types, p, v) {
        var i :| 0 <= i < |parts| && parts[i] == p;
      }
    }
  }

  lemma {:induction false} ListIsExact(w: World, s: Schema, ts: seq<TypeName>, v: Json)
    requires Agrees(w) && CoveredBase(w, s) && Tight(w, s) && Plainly(s) && s.types == Many(ts)
    ensures Denotes(w.types, UniqueUnion(TypesOfEach(w, s, ts)), v) <==>
            ts == [] || exists i | 0 <= i < |ts| :: (s.nullable && v.JNull?) || MeantAs(w, s, ts[i], v)
    decreases s, 3
  {
    var parts := TypesOfEach(w, s, ts);
    if ts == [] {
      WordHolds(w, Unknown, v);
    } else {
      forall i | 0 <= i < |ts|
        ensures WellFormed(parts[i]) && parts[i] != [Word(Never)]
        ensures Denotes(w.types, parts[i], v) <==> (s.nullable && v.JNull?) || MeantAs(w, s, ts[i], v)
      {
        assert ts[i] in ts;
        BranchIsExact(w, s, ts[i], v);
      }
      forall p | p in parts ensures WellFormed(p) && p != [Word(Never)] {
        var i :| 0 <= i < |parts| && parts[i] == p;
      }
      UniqueUnionHolds(w, parts, v);
      SomePart(w, parts, v);
    }
  }

  lemma {:induction false} BranchIsExact(w: World, s: Schema, t: TypeName, v: Json)
    requires Agrees(w) && CoveredAs(w, s, Some(t)) && TightAs(w, s, t) && Plainly(s)
    requires s.nullable && HasNullPart(TypedText(w, s, Some(t))) ==> NullAtTop(TypedText(w, s, Some(t)))
    ensures var part := OrNull(s.nullable, TypedText(w, s, Some(t)));
            && WellFormed(part) && part != [Word(Never)]
            && (Denotes(w.types, part, v) <==> (s.nullable && v.JNull?) || MeantAs(w, s, t, v))
    decreases s, 2
  {
    var base := TypedText(w, s, Some(t));
    TypedSound(w, s, Some(t));
    NamedIsExact(w, s, t, v);
    NullAdds(w, s.nullable, base, v);
    OrNullSound(w, s.nullable, base, iset{});
    NotNever(w, s, t);
  }

  lemma {:induction false} NotNever(w: World, s: Schema, t: TypeName)
    ensures OrNull(s.nullable, TypedText(w, s, Some(t))) != [Word(Never)]
  {
    var base := TypedText(w, s, Some(t));
    if t == TArray && s.format != Some("binary") {
      ArrayTyped(w, s);
      var text := ArrayText(ItemText(w, s));
      assert text[|text| - 1] == Close || text[|text| - 1] == Brackets;
    } else if t == TObject && s.format != Some("binary") {
      assert base[|base| - 1] == Close || base[|base| - 1] == BraceClose;
    }
    assert base != [Word(Never)];
  }

  lemma {:induction false} NamedIsExact(w: World, s: Schema, t: TypeName, v: Json)
    requires Agrees(w) && CoveredAs(w, s, Some(t)) && TightAs(w, s, t) && Plainly(s)
    ensures Denotes(w.types, TypedText(w, s, Some(t)), v) <==> MeantAs(w, s, t, v)
    decreases s, 1
  {
    match t
    case TNull => WordHolds(w, Null, v);
    case TUint8Array => NameHolds(w, "Uint8Array", v);
    case TVoid => NameHolds(w, if s.format == Some("binary") then "Uint8Array" else "void", v);
    case TString => WordHolds(w, String, v);
    case TInteger => WordHolds(w, Number, v);
    case TNumber => WordHolds(w, Number, v);
    case TBoolean => WordHolds(w, Boolean, v);
    case TArray => ArrayIsExact(w, s, v);
    case TObject => ObjectIsExact(w, s, v);
  }

  lemma {:induction false} ArrayIsExact(w: World, s: Schema, v: Json)
    requires Agrees(w) && CoveredAs(w, s, Some(TArray)) && TightAs(w, s, TArray) && Plainly(s)
    ensures Denotes(w.types, TypedText(w, s, Some(TArray)), v) <==> MeantAs(w, s, TArray, v)
    decreases s, 0
  {
    ArrayTyped(w, s);
    if s.items.Some? {
      CoveredIsSound(w, s.items.value);
      ArrayHolds(w, SchemaToType(w, s.items.value), v);
      if v.JArr? {
        forall i | 0 <= i < |v.items|
          ensures Denotes(w.types, SchemaToType(w, s.items.value), v.items[i]) <==> Meant(w, s.items.value, v.items[i])
        {
          TypeIsExact(w, s.items.value, v.items[i]);
        }
      }
    } else {
      WordReads(Unknown);
      WordHasNoBar(Unknown);
      ArrayHolds(w, [Word(Unknown)], v);
      if v.JArr? {
        forall i | 0 <= i < |v.items| ensures Denotes(w.types, [Word(Unknown)], v.items[i]) {
          WordHolds(w, Unknown, v.items[i]);
        }
      }
    }
  }

  lemma {:induction false} ObjectIsExact(w: World, s: Schema, v: Json)
    requires Agrees(w) && CoveredAs(w, s, Some(TObject)) && TightAs(w, s, TObject) && Plainly(s)
    ensures Denotes(w.types, TypedText(w, s, Some(TObject)), v) <==> MeantAs(w, s, TObject, v)
    decreases s, 0, 1
  {
    if s.properties.NoProperties? || s.properties.list == [] {
      RecordIsExact(w, s, v);
    } else {
      PropertiesAreExact(w, s, v);
      ObjectTyped(w, s);
      ObjectMeant(w, s, v);
    }
  }

  lemma {:induction false} PropertiesAreExact(w: World, s: Schema, v: Json)
    requires Agrees(w) && CoveredAs(w, s, Some(TObject)) && TightAs(w, s, TObject) && s.properties.Properties?
    ensures var props := s.properties.list;
            Denotes(w.types, [BraceOpen] + FieldLines(w, props, s.required) + [BraceClose], v) <==>
            v.JObj? && forall i | 0 <= i < |props| :: MeantField(w, props[i], s.required, v.fields)
    decreases s, 0, 0
  {
    var props := s.properties.list;
    forall p | p in props ensures Sound(w, p.schema) {
      CoveredIsSound(w, p.schema);
    }
    ObjectHolds(w, props, s.required, v);
    forall i | 0 <= i < |props| && v.JObj?
      ensures Fits(w, props[i], s.required, v.fields) <==> MeantField(w, props[i], s.required, v.fields)
    {
      assert props[i] in props;
      if props[i].name in v.fields {
        TypeIsExact(w, props[i].schema, v.fields[props[i].name]);
      }
    }
    AllMeant(w, props, s.required, v);
  }

  lemma {:induction false} ObjectTyped(w: World, s: Schema)
    requires s.format != Some("binary") && s.properties.Properties? && s.properties.list != []
    ensures TypedText(w, s, Some(TObject)) ==
            [BraceOpen] + FieldLines(w, s.properties.list, s.required) + [BraceClose]
  {
  }

  ghost predicate MeantField(w: World, p: Property, required: seq<string>, fields: map<string, Json>) {
    if p.name in fields then Meant(w, p.schema, fields[p.name]) else p.name !in required
  }

  lemma {:induction false} ObjectMeant(w: World, s: Schema, v: Json)
    requires s.properties.Properties? && s.properties.list != []
    ensures MeantAs(w, s, TObject, v) <==>
            v.JObj? && forall i | 0 <= i < |s.properties.list| ::
              MeantField(w, s.properties.list[i], s.required, v.fields)
  {
  }

  lemma {:induction false} AllMeant(w: World, props: seq<Property>, required: seq<string>, v: Json)
    requires forall i | 0 <= i < |props| && v.JObj? ::
               Fits(w, props[i], required, v.fields) <==> MeantField(w, props[i], required, v.fields)
    ensures AllFit(w, props, required, v) <==>
            v.JObj? && forall i | 0 <= i < |props| :: MeantField(w, props[i], required, v.fields)
  {
  }

  lemma {:induction false} RecordIsExact(w: World, s: Schema, v: Json)
    requires Agrees(w) && CoveredAs(w, s, Some(TObject)) && TightAs(w, s, TObject) && Plainly(s)
    requires s.properties.NoProperties? || s.properties.list == []
    ensures Denotes(w.types, TypedText(w, s, Some(TObject)), v) <==> MeantAs(w, s, TObject, v)
    decreases s, 0, 0
  {
    RecordTyped(w, s);
    if s.additional.Shaped? {
      CoveredIsSound(w, s.additional.shape);
      RecordHolds(w, SchemaToType(w, s.additional.shape), v);
      if v.JObj? {
        forall k | k in v.fields
          ensures Denotes(w.types, SchemaToType(w, s.additional.shape), v.fields[k]) <==>
                  Meant(w, s.additional.shape, v.fields[k])
        {
          TypeIsExact(w, s.additional.shape, v.fields[k]);
        }
      }
    } else {
      WordReads(Unknown);
      RecordHolds(w, [Word(Unknown)], v);
      if v.JObj? {
        forall k | k in v.fields ensures Denotes(w.types, [Word(Unknown)], v.fields[k]) {
          WordHolds(w, Unknown, v.fields[k]);
        }
      }
    }
  }

  // ---- where it is exactly what the schema accepts ----

  /** The exported types hold just what the components accept. */
  ghost predicate Mirrors(w: World) {
    forall c, v :: c in w.names ==> (w.accepted(c, v) <==> w.types(w.names[c], v))
  }

  predicate NothingElse(s: Schema) {
    && s.oneOf.NoMembers? && s.types == Untyped && s.items.None? && s.properties.NoProperties? && s.required == []
    && s.additional in {Unsaid, Allowed(true)}
  }

  /**
   One keyword at a time, and none that TypeScript cannot say: no integers, no formats, no closed objects,
   no "exactly one of", no requirement without a property.
   */
  predicate Expressible(w: World, s: Schema)
    decreases s, 1
  {
    && s.format.None?
    && if s.component.Some? then s.component.value in w.names
       else if s.constant.Some? then
         && !s.constant.value.JArr? && !s.constant.value.JObj?
         && s.options.None? && s.anyOf.NoMembers? && s.allOf.NoMembers? && NothingElse(s)
       else if s.options.Some? then
         && s.options.value != [] && (forall o | o in s.options.value :: !o.JArr? && !o.JObj?)
         && s.anyOf.NoMembers? && s.allOf.NoMembers? && NothingElse(s)
       else if s.anyOf.Members? then
         && s.anyOf.list != [] && (forall m | m in s.anyOf.list :: Expressible(w, m))
         && s.allOf.NoMembers? && NothingElse(s)
       else if s.allOf.Members? then (forall m | m in s.allOf.list :: Expressible(w, m)) && NothingElse(s)
       else
         && s.oneOf.NoMembers?
         && match s.types
            case Many(ts) => ts != [] && forall t | t in ts :: ExpressibleAs(w, s, t)
            case One(t) => ExpressibleAs(w, s, t)
            case Untyped => !s.hasDefault && NothingElse(s)
  }

  predicate ExpressibleAs(w: World, s: Schema, t: TypeName)
    decreases s, 0
  {
    match t
    case TNull => true
    case TString => true
    case TNumber => true
    case TBoolean => true
    case TArray => s.items.Some? ==> Expressible(w, s.items.value)
    case TObject =>
      if s.properties.NoProperties? || s.properties.list == [] then
        && s.required == [] && s.additional != Allowed(false)
        && (s.additional.Shaped? ==> Expressible(w, s.additional.shape))
      else
        && (forall p | p in s.properties.list :: Expressible(w, p.schema))
        && (forall n | n in s.required :: exists i :: 0 <= i < |s.properties.list| && s.properties.list[i].name == n)
        && s.additional in {Unsaid, Allowed(true)}
    case _ => false
  }

  lemma {:induction false} MeantIsAccepted(w: World, s: Schema, v: Json)
    requires Mirrors(w) && Expressible(w, s)
    ensures Meant(w, s, v) <==> Accepts(w, s, v)
    decreases s, 3
  {
    if s.component.Some? || s.constant.Some? || s.options.Some? {
      LeafIsAccepted(w, s, v);
    } else if s.anyOf.Members? {
      MembersAreAccepted(w, s, s.anyOf.list, v);
      AnyOfIsAccepted(w, s, v);
    } else if s.allOf.Members? {
      MembersAreAccepted(w, s, s.allOf.list, v);
      AllOfIsAccepted(w, s, v);
    } else {
      TypesAreAccepted(w, s, v);
    }
  }

  lemma {:induction false} AnyOfIsAccepted(w: World, s: Schema, v: Json)
    requires Combined(s) && s.anyOf.Members? && s.anyOf.list != [] && s.allOf.NoMembers? && NothingElse(s)
    requires forall i :: 0 <= i < |s.anyOf.list| ==> (Meant(w, s.anyOf.list[i], v) <==> Accepts(w, s.anyOf.list[i], v))
    ensures MeantBase(w, s, v) <==> AcceptsBase(w, s, v)
  {
    assert !DefaultOnly(s);
    var list := s.anyOf.list;
    if MeantBase(w, s, v) {
      var i :| 0 <= i < |list| && Meant(w, list[i], v);
      assert Accepts(w, list[i], v);
    }
    if AcceptsBase(w, s, v) {
      var i :| 0 <= i < |list| && Accepts(w, list[i], v);
      assert Meant(w, list[i], v);
    }
  }

  lemma {:induction false} AllOfIsAccepted(w: World, s: Schema, v: Json)
    requires Combined(s) && s.anyOf.NoMembers? && s.allOf.Members? && NothingElse(s)
    requires forall i :: 0 <= i < |s.allOf.list| ==> (Meant(w, s.allOf.list[i], v) <==> Accepts(w, s.allOf.list[i], v))
    ensures MeantBase(w, s, v) <==> AcceptsBase(w, s, v)
  {
    assert !DefaultOnly(s);
  }

  lemma {:induction false} LeafIsAccepted(w: World, s: Schema, v: Json)
    requires Mirrors(w) && Expressible(w, s) && (s.component.Some? || s.constant.Some? || s.options.Some?)
    ensures MeantBase(w, s, v) <==> AcceptsBase(w, s, v)
  {
    if s.component.Some? {
      assert w.accepted(s.component.value, v) <==> w.types(w.names[s.component.value], v);
    }
  }

  lemma {:induction false} MembersAreAccepted(w: World, s: Schema, schemas: seq<Schema>, v: Json)
    requires Mirrors(w) && forall m | m in schemas :: m < s && Expressible(w, m)
    ensures forall i :: 0 <= i < |schemas| ==> (Meant(w, schemas[i], v) <==> Accepts(w, schemas[i], v))
    decreases s, 2
  {
    forall i | 0 <= i < |schemas| ensures Meant(w, schemas[i], v) <==> Accepts(w, schemas[i], v) {
      assert schemas[i] in schemas;
      MeantIsAccepted(w, schemas[i], v);
    }
  }

  lemma {:induction false} TypesAreAccepted(w: World, s: Schema, v: Json)
    requires Mirrors(w) && Expressible(w, s) && Plainly(s)
    ensures Meant(w, s, v) <==> Accepts(w, s, v)
    decreases s, 2
  {
    match s.types
    case Many(ts) =>
      forall i | 0 <= i < |ts| ensures MeantAs(w, s, ts[i], v) <==> HasType(ts[i], v) && AcceptsParts(w, s, v) {
        assert ts[i] in ts;
        TypeIsAccepted(w, s, ts[i], v);
      }
      ListIsAccepted(w, s, ts, v);
    case One(t) => TypeIsAccepted(w, s, t, v);
    case Untyped =>
      assert AcceptsBase(w, s, v);
  }

  lemma {:induction false} ListIsAccepted(w: World, s: Schema, ts: seq<TypeName>, v: Json)
    requires Plainly(s) && s.types == Many(ts) && ts != []
    requires forall i | 0 <= i < |ts| :: MeantAs(w, s, ts[i], v) <==> HasType(ts[i], v) && AcceptsParts(w, s, v)
    ensures Meant(w, s, v) <==> Accepts(w, s, v)
  {
    if AcceptsBase(w, s, v) {
      var i :| 0 <= i < |ts| && HasType(ts[i], v);
      assert MeantAs(w, s, ts[i], v);
    }
    if MeantBase(w, s, v) && !(s.nullable && v.JNull?) {
      var i :| 0 <= i < |ts| && MeantAs(w, s, ts[i], v);
      assert HasType(ts[i], v);
    }
  }

  lemma {:induction false} TypeIsAccepted(w: World, s: Schema, t: TypeName, v: Json)
    requires Mirrors(w) && ExpressibleAs(w, s, t)
    ensures MeantAs(w, s, t, v) <==> HasType(t, v) && AcceptsParts(w, s, v)
    decreases s, 1
  {
    if t == TArray && v.JArr? && s.items.Some? {
      forall i | 0 <= i < |v.items|
        ensures Meant(w, s.items.value, v.items[i]) <==> Accepts(w, s.items.value, v.items[i])
      {
        MeantIsAccepted(w, s.items.value, v.items[i]);
      }
    } else if t == TObject && v.JObj? {
      ObjectIsAccepted(w, s, v);
    }
  }

  lemma {:induction false} ObjectIsAccepted(w: World, s: Schema, v: Json)
    requires Mirrors(w) && ExpressibleAs(w, s, TObject) && v.JObj?
    ensures MeantAs(w, s, TObject, v) <==> AcceptsParts(w, s, v)
    decreases s, 0
  {
    if s.properties.NoProperties? || s.properties.list == [] {
      if s.additional.Shaped? {
        forall k | k in v.fields
          ensures Meant(w, s.additional.shape, v.fields[k]) <==> Accepts(w, s.additional.shape, v.fields[k])
        {
          MeantIsAccepted(w, s.additional.shape, v.fields[k]);
        }
      }
    } else {
      var props := s.properties.list;
      forall i | 0 <= i < |props| && props[i].name in v.fields
        ensures Meant(w, props[i].schema, v.fields[props[i].name]) <==>
                Accepts(w, props[i].schema, v.fields[props[i].name])
      {
        assert props[i] in props;
        MeantIsAccepted(w, props[i].schema, v.fields[props[i].name]);
      }
      if MeantAs(w, s, TObject, v) {
        forall n | n in s.required ensures n in v.fields {
          var i :| 0 <= i < |props| && props[i].name == n;
        }
      }
    }
  }

  /**
   References, constants, enumerations, unions, intersections, arrays, records and objects of plain
   scalars, nullable or not and nested at will: the printed type holds exactly what the schema accepts.
   */
  lemma {:induction false} TypeHoldsWhatIsAccepted(w: World, s: Schema, v: Json)
    requires Mirrors(w) && Covered(w, s) && Tight(w, s) && Expressible(w, s)
    ensures Denotes(w.types, SchemaToType(w, s), v) <==> Accepts(w, s, v)
  {
    TypeIsExact(w, s, v);
    MeantIsAccepted(w, s, v);
  }

  /** Integers, and strings with one of four formats, are printed as numbers. */
  predicate IsNumeric(s: Schema, t: TypeName) {
    t == TInteger || t == TNumber ||
    (t == TString && s.format in {Some("integer"), Some("number"), Some("float"), Some("double")})
  }

  /** A plain scalar is printed as its own type, but for the strings with a numeric format. */
  lemma {:induction false} ScalarsAreExact(w: World, s: Schema, t: TypeName, v: Json)
    requires Agrees(w) && Plainly(s) && s.types == One(t) && s.format != Some("binary")
    requires t in {TNull, TString, TBoolean, TNumber, TInteger}
    ensures Denotes(w.types, SchemaToType(w, s), v) <==>
            (s.nullable && v.JNull?) || HasType(if IsNumeric(s, t) then TNumber else t, v)
  {
    var k := ScalarText(w, s, t);
    WordHolds(w, k, v);
    WordReads(k);
    WordNull(k);
    NullAdds(w, s.nullable, [Word(k)], v);
  }

  lemma {:induction false} ScalarText(w: World, s: Schema, t: TypeName) returns (k: Keyword)
    requires Plainly(s) && s.types == One(t) && s.format != Some("binary")
    requires t in {TNull, TString, TBoolean, TNumber, TInteger}
    ensures BaseSchemaToType(w, s) == [Word(k)]
    ensures forall v :: InWord(k, v) <==> HasType(if IsNumeric(s, t) then TNumber else t, v)
  {
    k := if IsNumeric(s, t) then Number else if t == TNull then Null else if t == TString then String else Boolean;
    assert !DefaultOnly(s);
    assert TypedText(w, s, Some(t)) == [Word(k)];
  }

  lemma {:induction false} WordNull(k: Keyword)
    ensures HasNullPart([Word(k)]) ==> NullAtTop([Word(k)])
  {
    var text := [Word(k)];
    assert Chars(Word(k)) == "" && !NullInside(Word(k));
    if HasNullPart(text) {
      assert NullPartAt(text, 0) && Depth(Lex(text)[..0]) == 0;
    }
  }
}
