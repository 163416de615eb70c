/**
 Which schemas are printed soundly.

 `Covered` is a condition on the schema and on the texts that the printer tests; every covered schema
 is sound, at any depth.  Of what `Covered` shuts out, the lemmas after the theorem say what the printed
 type leaves out: always for defaults, numeric strings, an empty allOf and untyped properties, and
 exactly when for null, line breaks in quoted text, arrays and binary strings.
 */
module ContractTheorem {
  import opened Wrappers
  import opened TypeText
  import opened ContractTypes
  import opened ContractSoundness

  // ---- the covered schemas ----

  predicate Covered(w: World, s: Schema)
    decreases s, 4
  {
    && CoveredBase(w, s)
    && (s.nullable && HasNullPart(BaseSchemaToType(w, s)) ==> NullAtTop(BaseSchemaToType(w, s)))
  }

  predicate CoveredBase(w: World, s: Schema)
    decreases s, 3
  {
    if s.component.Some? then true
    else if s.constant.Some? then OneLine(s.constant.value)
    else if s.options.Some? then forall v | v in s.options.value :: OneLine(v)
    else if DefaultOnly(s) then false
    else if s.anyOf.Members? then forall m | m in s.anyOf.list :: Covered(w, m)
    else if s.oneOf.Members? then forall m | m in s.oneOf.list :: Covered(w, m)
    else if s.allOf.Members? then s.allOf.list != [] && forall m | m in s.allOf.list :: Covered(w, m)
    else match s.types
      case Many(ts) =>
        forall t | t in ts ::
          && CoveredAs(w, s, Some(t))
          && (s.nullable && HasNullPart(TypedText(w, s, Some(t))) ==> NullAtTop(TypedText(w, s, Some(t))))
      case One(t) => CoveredAs(w, s, Some(t))
      case Untyped => CoveredAs(w, s, None)
  }

  predicate CoveredAs(w: World, s: Schema, t: Option<TypeName>)
    decreases s, 2
  {
    && (t == Some(TString) && s.format.Some? ==> s.format.value !in NUMERIC_FORMATS)
    && (s.format == Some("binary") ==> t in {Some(TNull), Some(TUint8Array), Some(TVoid)})
    && (t == None ==> s.properties.NoProperties?)
    && (t == Some(TArray) && s.items.Some? ==>
          Covered(w, s.items.value) && !Tears(SchemaToType(w, s.items.value)))
    && (t == Some(TObject) ==>
          && (s.properties.Properties? ==> forall p | p in s.properties.list :: Covered(w, p.schema))
          && (s.additional.Shaped? ==> Covered(w, s.additional.shape)))
  }

  // ---- the theorem ----

  /** Every value that a covered schema accepts belongs to the type that its text is read as. */
  lemma {:induction false} CoveredIsSound(w: World, s: Schema)
    requires Agrees(w) && Covered(w, s)
    ensures Sound(w, s)
    decreases s, 4
  {
    BaseSound(w, s);
    OrNullSound(w, s.nullable, BaseSchemaToType(w, s), iset v | AcceptsBase(w, s, v));
  }

  lemma {:induction false} BaseSound(w: World, s: Schema)
    requires Agrees(w) && CoveredBase(w, s)
    ensures SoundFor(w, BaseSchemaToType(w, s), iset v | AcceptsBase(w, s, v))
    decreases s, 3
  {
    var values := iset v | AcceptsBase(w, s, v);
    if s.component.Some? {
      if s.component.value in w.names {
        NameSound(w, w.names[s.component.value], values);
      } else {
        WordSound(w, Unknown, values);
      }
    } else if s.constant.Some? {
      LiteralSound(w, s.constant.value);
    } else if s.options.Some? {
      LiteralsSound(w, s.options.value, values);
    } else if s.anyOf.Members? {
      AllSound(w, s, s.anyOf.list);
      AnyMember(w, s.anyOf.list, values);
    } else if s.oneOf.Members? {
      AllSound(w, s, s.oneOf.list);
      AnyMember(w, s.oneOf.list, values);
    } else if s.allOf.Members? {
      AllSound(w, s, s.allOf.list);
      EveryMember(w, s.allOf.list, values);
    } else {
      match s.types
      case Many(ts) => ListSound(w, s, ts);
      case One(t) => TypedSound(w, s, Some(t));
      case Untyped => TypedSound(w, s, None);
    }
  }

  lemma {:induction false} AllSound(w: World, s: Schema, schemas: seq<Schema>)
    requires Agrees(w) && forall m | m in schemas :: m < s && Covered(w, m)
    ensures forall m | m in schemas :: Sound(w, m)
    decreases s, 1
  {
    forall m | m in schemas ensures Sound(w, m) {
      CoveredIsSound(w, m);
    }
  }

  lemma {:induction false} AnyMember(w: World, schemas: seq<Schema>, values: iset<Json>)
    requires forall m | m in schemas :: Sound(w, m)
    requires forall v | v in values :: exists i | 0 <= i < |schemas| :: Accepts(w, schemas[i], v)
    ensures SoundFor(w, UniqueUnion(TypesOf(w, schemas)), values)
  {
    var parts := TypesOf(w, schemas);
    PartsWellFormed(w, schemas);
    forall v | v in values ensures exists p :: p in parts && Denotes(w.types, p, v) {
      var i :| 0 <= i < |schemas| && Accepts(w, schemas[i], v);
      assert Sound(w, schemas[i]);
      assert parts[i] in parts && Denotes(w.types, parts[i], v);
    }
    UniqueUnionSound(w, parts, values);
  }

  lemma {:induction false} PartsWellFormed(w: World, schemas: seq<Schema>)
    requires forall m | m in schemas :: Sound(w, m)
    ensures forall p | p in TypesOf(w, schemas) :: WellFormed(p)
  {
    var parts := TypesOf(w, schemas);
    forall p | p in parts ensures WellFormed(p) {
      var i :| 0 <= i < |parts| && parts[i] == p;
      assert Sound(w, schemas[i]);
    }
  }

  lemma {:induction false} EveryMember(w: World, schemas: seq<Schema>, values: iset<Json>)
    requires schemas != [] && forall m | m in schemas :: Sound(w, m)
    requires forall v | v in values :: forall i | 0 <= i < |schemas| :: Accepts(w, schemas[i], v)
    ensures SoundFor(w, Join(Amp, TypesOf(w, schemas)), values)
  {
    var parts := TypesOf(w, schemas);
    PartsWellFormed(w, schemas);
    JoinAmps(w, parts);
    forall v | v in values ensures Denotes(w.types, Join(Amp, parts), v) {
      forall p | p in parts ensures Denotes(w.types, p, v) {
        var i :| 0 <= i < |parts| && parts[i] == p;
        assert Accepts(w, schemas[i], v) && Sound(w, schemas[i]);
      }
    }
  }

  /** A list of type names: one branch for each, with null added to each branch. */
  lemma {:induction false} ListSound(w: World, s: Schema, ts: seq<TypeName>)
    requires Agrees(w) && CoveredBase(w, s) && s.types == Many(ts)
    requires s.component.None? && s.constant.None? && s.options.None?
    requires s.anyOf.NoMembers? && s.oneOf.NoMembers? && s.allOf.NoMembers?
    ensures SoundFor(w, UniqueUnion(TypesOfEach(w, s, ts)), iset v | AcceptsBase(w, s, v))
    decreases s, 2
  {
    var parts := TypesOfEach(w, s, ts);
    var values := iset v | AcceptsBase(w, s, v);
    forall i | 0 <= i < |ts|
      ensures SoundFor(w, parts[i], iset v | AcceptsBase(w, s, v) && HasType(ts[i], v))
    {
      assert ts[i] in ts;
      TypedSound(w, s, Some(ts[i]));
      OrNullSound(w, s.nullable, TypedText(w, s, Some(ts[i])), iset v | AcceptsBase(w, s, v) && HasType(ts[i], v));
    }
    forall p | p in parts ensures WellFormed(p) {
      var i :| 0 <= i < |parts| && parts[i] == p;
    }
    forall v | v in values ensures exists p :: p in parts && Denotes(w.types, p, v) {
      var i :| 0 <= i < |ts| && HasType(ts[i], v);
      assert parts[i] in parts && Denotes(w.types, parts[i], v);
    }
    UniqueUnionSound(w, parts, values);
  }

  /** One branch: the values that the keywords accept and that have the branch's type. */
  lemma {:induction false} TypedSound(w: World, s: Schema, t: Option<TypeName>)
    requires Agrees(w) && CoveredAs(w, s, t) && s.component.None?
    ensures SoundFor(w, TypedText(w, s, t), iset v | AcceptsBase(w, s, v) && (t.Some? ==> HasType(t.value, v)))
    decreases s, 1
  {
    var values := iset v | AcceptsBase(w, s, v) && (t.Some? ==> HasType(t.value, v));
    match t
    case None => WordSound(w, Unknown, values);
    case Some(name) =>
      match name
      case TNull => WordSound(w, Null, values);
      case TUint8Array => NameSound(w, "Uint8Array", values);
      case TVoid => NameSound(w, if s.format == Some("binary") then "Uint8Array" else "void", values);
      case TString => WordSound(w, String, values);
      case TInteger => WordSound(w, Number, values);
      case TNumber => WordSound(w, Number, values);
      case TBoolean => WordSound(w, Boolean, values);
      case TArray => ArrayCase(w, s, values);
      case TObject => ObjectCase(w, s, values);
  }

  lemma {:induction false} ArrayTyped(w: World, s: Schema)
    requires s.format != Some("binary")
    ensures TypedText(w, s, Some(TArray)) == ArrayText(ItemText(w, s))
  {
  }

  lemma {:induction false} ArrayCase(w: World, s: Schema, values: iset<Json>)
    requires Agrees(w) && CoveredAs(w, s, Some(TArray)) && s.component.None?
    requires forall v | v in values :: AcceptsBase(w, s, v) && v.JArr?
    ensures SoundFor(w, TypedText(w, s, Some(TArray)), values)
    decreases s, 0
  {
    ArrayTyped(w, s);
    if s.items.Some? {
      CoveredIsSound(w, s.items.value);
      ItemsSound(w, s, values);
    } else {
      AnyItems(w, values);
    }
  }

  lemma {:induction false} WordHasNoBar(k: Keyword)
    ensures !HasBar([Word(k)])
  {
    assert !BarInside(Word(k));
  }

  lemma {:induction false} AnyItems(w: World, values: iset<Json>)
    requires forall v | v in values :: v.JArr?
    ensures SoundFor(w, ArrayText([Word(Unknown)]), values)
  {
    var anything := iset v | InWord(Unknown, v);
    WordSound(w, Unknown, anything);
    WordHasNoBar(Unknown);
    ArrayTextSound(w, [Word(Unknown)], anything);
  }

  lemma {:induction false} ItemsSound(w: World, s: Schema, values: iset<Json>)
    requires s.component.None? && s.items.Some? && Sound(w, s.items.value) && !Tears(SchemaToType(w, s.items.value))
    requires forall v | v in values :: AcceptsBase(w, s, v) && v.JArr?
    ensures SoundFor(w, ArrayText(SchemaToType(w, s.items.value)), values)
  {
    var items := iset v | Accepts(w, s.items.value, v);
    ArrayTextSound(w, SchemaToType(w, s.items.value), items);
    forall v | v in values ensures v in ArraysOf(items) {
      assert AcceptsParts(w, s, v);
    }
  }

  lemma {:induction false} ObjectCase(w: World, s: Schema, values: iset<Json>)
    requires Agrees(w) && CoveredAs(w, s, Some(TObject)) && s.component.None?
    requires forall v | v in values :: AcceptsBase(w, s, v) && v.JObj?
    ensures SoundFor(w, TypedText(w, s, Some(TObject)), values)
    decreases s, 0
  {
    if s.properties.NoProperties? || s.properties.list == [] {
      RecordCase(w, s, values);
    } else {
      forall p | p in s.properties.list ensures Sound(w, p.schema) {
        CoveredIsSound(w, p.schema);
      }
      forall v | v in values ensures FitsFields(w, s.properties.list, s.required, v) {
        assert AcceptsParts(w, s, v);
      }
      ObjectSound(w, s.properties.list, s.required, values);
    }
  }

  lemma {:induction false} RecordTyped(w: World, s: Schema)
    requires s.format != Some("binary") && (s.properties.NoProperties? || s.properties.list == [])
    ensures TypedText(w, s, Some(TObject)) == [RecordOpen] + EntryText(w, s) + [Close]
  {
  }

  lemma {:induction false} RecordCase(w: World, s: Schema, values: iset<Json>)
    requires Agrees(w) && CoveredAs(w, s, Some(TObject)) && s.component.None?
    requires s.properties.NoProperties? || s.properties.list == []
    requires forall v | v in values :: AcceptsBase(w, s, v) && v.JObj?
    ensures SoundFor(w, TypedText(w, s, Some(TObject)), values)
    decreases s, 0, 0
  {
    RecordTyped(w, s);
    if s.additional.Shaped? {
      CoveredIsSound(w, s.additional.shape);
      EntriesSound(w, s, values);
    } else {
      var anything := iset v | InWord(Unknown, v);
      WordSound(w, Unknown, anything);
      RecordSound(w, [Word(Unknown)], anything);
    }
  }

  lemma {:induction false} EntriesSound(w: World, s: Schema, values: iset<Json>)
    requires s.component.None? && s.additional.Shaped? && Sound(w, s.additional.shape)
    requires s.properties.NoProperties? || s.properties.list == []
    requires forall v | v in values :: AcceptsBase(w, s, v) && v.JObj?
    ensures SoundFor(w, [RecordOpen] + SchemaToType(w, s.additional.shape) + [Close], values)
  {
    var shaped := iset v | Accepts(w, s.additional.shape, v);
    RecordSound(w, SchemaToType(w, s.additional.shape), shaped);
    forall v | v in values ensures v in RecordsOf(shaped) {
      assert AcceptsBase(w, s, v);
    }
  }

  // ---- what the printer gets wrong ----

  /** No combining keyword: the text is that of the type alone. */
  predicate Plainly(s: Schema) {
    && s.component.None? && s.constant.None? && s.options.None?
    && s.anyOf.NoMembers? && s.oneOf.NoMembers? && s.allOf.NoMembers?
  }

  /** A well-formed text that is read as one atom. */
  predicate ReadsAs(text: Text, a: Atom) {
    WellFormed(text) && ReadType(Lex(text)) == Some(Single(a))
  }

  lemma {:induction false} WordReads(k: Keyword)
    ensures ReadsAs([Word(k)], WordType(k))
  {
    assert Lex([Word(k)]) == [Word(k)];
    ReadToken(Word(k));
  }

  lemma {:induction false} AtomHoldsOnly(types: (string, Json) -> bool, text: Text, a: Atom, v: Json)
    requires ReadsAs(text, a)
    ensures Denotes(types, text, v) <==> InAtom(types, a, v)
  {
    if InAtom(types, a, v) {
      SingleHolds(types, a, v);
    } else if Denotes(types, text, v) {
      SingleOnlyHolds(types, a, v);
    }
  }

  /** What adding null to a one-atom text adds. */
  lemma {:induction false} OrNullHolds(w: World, nullable: bool, base: Text, a: Atom, v: Json)
    requires ReadsAs(base, a)
    ensures Denotes(w.types, OrNull(nullable, base), v) <==>
            InAtom(w.types, a, v) || (nullable && !HasNullPart(base) && v.JNull?)
  {
    AtomHoldsOnly(w.types, base, a, v);
    if nullable && !HasNullPart(base) {
      var nul := [Word(Null)];
      WordReads(Null);
      assert base + [Bar, Word(Null)] == base + [Bar] + nul;
      TwoTexts(w, base, nul);
      AtomHoldsOnly(w.types, nul, WordType(Null), v);
    }
  }

  lemma {:induction false} RefutedBy(w: World, s: Schema, v: Json)
    requires Accepts(w, s, v) && !Denotes(w.types, SchemaToType(w, s), v)
    ensures !Sound(w, s)
  {
    assert v in iset u | Accepts(w, s, u);
  }

  /** A schema that says nothing but a default accepts everything and is printed `never`. */
  lemma {:induction false} DefaultOnlyIsUnsound(w: World, s: Schema)
    requires DefaultOnly(s)
    ensures !Sound(w, s)
  {
    WordReads(Never);
    OrNullHolds(w, s.nullable, [Word(Never)], WordType(Never), JBool(true));
    RefutedBy(w, s, JBool(true));
  }

  /** A string with a numeric format accepts strings and is printed `number`. */
  lemma {:induction false} NumericStringIsUnsound(w: World, s: Schema)
    requires Plainly(s) && s.types == One(TString) && s.format.Some? && s.format.value in NUMERIC_FORMATS
    ensures !Sound(w, s)
  {
    WordReads(Number);
    assert BaseSchemaToType(w, s) == [Word(Number)];
    OrNullHolds(w, s.nullable, [Word(Number)], WordType(Number), JStr("x"));
    RefutedBy(w, s, JStr("x"));
  }

  /** An empty allOf is printed as no text at all. */
  lemma {:induction false} EmptyAllOfIsUnsound(w: World, s: Schema)
    requires s.component.None? && s.constant.None? && s.options.None? && s.anyOf.NoMembers? && s.oneOf.NoMembers?
    requires s.allOf == Members([])
    ensures !Sound(w, s)
  {
    var text := SchemaToType(w, s);
    assert TypesOf(w, []) == [];
    assert BaseSchemaToType(w, s) == [] && !HasNullPart([]);
    assert text == [] || text == [Bar, Word(Null)];
    NothingBeforeABar(Lex(text));
  }

  lemma {:induction false} ObjectReads(w: World, s: Schema) returns (fields: seq<Field>)
    requires Agrees(w) && CoveredAs(w, s, Some(TObject)) && s.properties.Properties? && s.properties.list != []
    ensures ReadsAs(TypedText(w, s, Some(TObject)), ObjectType(fields))
  {
    var props := s.properties.list;
    forall p | p in props ensures Sound(w, p.schema) {
      CoveredIsSound(w, p.schema);
    }
    fields := BracesRead(w, props, s.required);
  }

  lemma {:induction false} BracesRead(w: World, props: seq<Property>, required: seq<string>)
    returns (fields: seq<Field>)
    requires forall p | p in props :: Sound(w, p.schema)
    ensures ReadsAs([BraceOpen] + FieldLines(w, props, required) + [BraceClose], ObjectType(fields))
  {
    var body := FieldLines(w, props, required);
    FieldLinesRead(w, props, required);
    assert Lex([BraceOpen] + body + [BraceClose]) == [BraceOpen] + Lex(body) + [BraceClose];
    ReadObject(Lex(body));
    fields := ReadFields(Lex(body)).value;
  }

  lemma {:induction false} UntypedText(w: World, s: Schema)
    requires Plainly(s) && s.types == Untyped && s.format != Some("binary")
    requires s.properties.Properties? && s.properties.list != []
    ensures BaseSchemaToType(w, s) == TypedText(w, s, Some(TObject))
  {
    assert !DefaultOnly(s);
  }

  lemma {:induction false} UntypedAcceptsTrue(w: World, s: Schema)
    requires Plainly(s) && s.types == Untyped
    ensures Accepts(w, s, JBool(true))
  {
  }

  /** Properties without `type: object` accept every value that is not an object; the text is an object type. */
  lemma {:induction false} UntypedPropertiesAreUnsound(w: World, s: Schema)
    requires Agrees(w) && Plainly(s) && s.types == Untyped && s.format != Some("binary")
    requires s.properties.Properties? && s.properties.list != [] && CoveredAs(w, s, Some(TObject))
    ensures !Sound(w, s)
  {
    var fields := ObjectReads(w, s);
    var base := TypedText(w, s, Some(TObject));
    UntypedText(w, s);
    UntypedAcceptsTrue(w, s);
    OrNullHolds(w, s.nullable, base, ObjectType(fields), JBool(true));
    RefutedBy(w, s, JBool(true));
  }

  // ---- exactly when null is lost ----

  /** Sound, but for the null of a nullable schema. */
  ghost predicate BaseIsSound(w: World, s: Schema) {
    && WellFormed(BaseSchemaToType(w, s))
    && forall v | AcceptsBase(w, s, v) :: Denotes(w.types, BaseSchemaToType(w, s), v)
  }

  /**
   A nullable schema with a sound base text is sound, if and only if the text test finds no null in that
   text, or the type it is read as holds null already.
   */
  lemma {:induction false} NullableIsSoundIff(w: World, s: Schema)
    requires s.nullable && BaseIsSound(w, s)
    ensures Sound(w, s) <==> !HasNullPart(BaseSchemaToType(w, s)) || Denotes(w.types, BaseSchemaToType(w, s), JNull)
  {
    var base := BaseSchemaToType(w, s);
    if !HasNullPart(base) {
      OrNullSound(w, true, base, iset v | AcceptsBase(w, s, v));
    } else if !Denotes(w.types, base, JNull) {
      RefutedBy(w, s, JNull);
    }
  }

  lemma {:induction false} ArrayReads(w: World, s: Schema) returns (a: Atom)
    requires Agrees(w) && CoveredAs(w, s, Some(TArray))
    ensures ReadsAs(TypedText(w, s, Some(TArray)), a) && a.ArrayType?
  {
    var item := ItemText(w, s);
    ArrayTyped(w, s);
    if s.items.Some? {
      CoveredIsSound(w, s.items.value);
    } else {
      WordReads(Unknown);
      WordHasNoBar(Unknown);
    }
    ArrayTextReads(item);
    a := ArrayType(ReadType(Lex(item)).value);
  }

  lemma {:induction false} RecordReads(w: World, s: Schema) returns (a: Atom)
    requires Agrees(w) && CoveredAs(w, s, Some(TObject)) && (s.properties.NoProperties? || s.properties.list == [])
    ensures ReadsAs(TypedText(w, s, Some(TObject)), a) && a.RecordType?
  {
    var entry := EntryText(w, s);
    RecordTyped(w, s);
    if s.additional.Shaped? {
      CoveredIsSound(w, s.additional.shape);
    } else {
      WordReads(Unknown);
    }
    assert Lex([RecordOpen] + entry + [Close]) == [RecordOpen] + Lex(entry) + [Close];
    ReadRecordOf(Lex(entry));
    a := RecordType(ReadType(Lex(entry)).value);
  }

  lemma {:induction false} ContainerReads(w: World, s: Schema, t: TypeName) returns (a: Atom)
    requires Agrees(w) && CoveredAs(w, s, Some(t)) && t in {TArray, TObject}
    ensures ReadsAs(TypedText(w, s, Some(t)), a) && (a.ArrayType? || a.RecordType? || a.ObjectType?)
  {
    if t == TArray {
      a := ArrayReads(w, s);
    } else if s.properties.NoProperties? || s.properties.list == [] {
      a := RecordReads(w, s);
    } else {
      var fields := ObjectReads(w, s);
      a := ObjectType(fields);
    }
  }

  /**
   A nullable array, record or object type never holds null itself, so it is sound exactly when the text
   test finds no null inside it; when it finds one, null is accepted but not printed.
   */
  lemma {:induction false} NullableContainerIsSoundIff(w: World, s: Schema, t: TypeName)
    requires Agrees(w) && Plainly(s) && s.types == One(t) && t in {TArray, TObject} && s.nullable
    requires CoveredAs(w, s, Some(t))
    ensures Sound(w, s) <==> !HasNullPart(BaseSchemaToType(w, s))
  {
    var a := ContainerReads(w, s, t);
    AtomHoldsOnly(w.types, BaseSchemaToType(w, s), a, JNull);
    BaseSound(w, s);
    NullableIsSoundIff(w, s);
  }

  /** A nullable string constant loses its null exactly when its own characters have a part `null` between bars. */
  lemma {:induction false} NullableStringIsSoundIff(w: World, s: Schema, text: string)
    requires s.component.None? && s.constant == Some(JStr(text)) && !HasLineBreak(text) && s.nullable
    ensures Sound(w, s) <==> !NullInside(Lit(JStr(text)))
  {
    var lit := Lit(JStr(text));
    assert Lex([lit]) == [lit];
    ReadToken(lit);
    AtomHoldsOnly(w.types, [lit], LitType(JStr(text)), JNull);
    LiteralSound(w, JStr(text));
    NullableIsSoundIff(w, s);
    assert NullInside(lit) ==> NullInside([lit][0]);
  }

  lemma {:induction false} SplitAtBar(a: string, b: string)
    requires ' ' !in a
    ensures Split(a + " | " + b) == [a] + Split(b)
    decreases |a|
  {
    var s := a + " | " + b;
    if a == "" {
      assert s[..3] == " | " && s[3..] == b;
    } else {
      assert s[0] == a[0] && s[..3] != " | " by {
        assert s[..3][0] == a[0];
      }
      assert s[1..] == a[1..] + " | " + b;
      SplitAtBar(a[1..], b);
      assert [s[0]] + a[1..] == a;
    }
  }

  lemma {:induction false} SplitWord(a: string)
    requires ' ' !in a
    ensures Split(a) == [a]
    decreases |a|
  {
    if a != "" {
      assert |a| >= 3 ==> a[..3][0] != ' ';
      SplitWord(a[1..]);
      assert [a[0]] + a[1..] == a;
    }
  }

  /** A constant such as 'x | null | y', made nullable, loses its null. */
  lemma {:induction false} BarredStringLosesNull(w: World, s: Schema, a: string, b: string)
    requires ' ' !in a && ' ' !in b && !HasLineBreak(a + " | " + ("null" + " | " + b))
    requires s.component.None? && s.constant == Some(JStr(a + " | " + ("null" + " | " + b))) && s.nullable
    ensures !Sound(w, s)
  {
    var text := a + " | " + ("null" + " | " + b);
    SplitAtBar(a, "null" + " | " + b);
    SplitAtBar("null", b);
    SplitWord(b);
    assert Split(text) == [a, "null", b];
    assert Split(text)[1] == "null";
    NullableStringIsSoundIff(w, s, text);
  }

  // ---- exactly when quoted text, arrays and binary strings are sound ----

  /** A text with a torn string is no type at all. */
  lemma {:induction false} TornIsUnsound(text: Text, t: Token)
    requires Torn(t) in text
    ensures !WellFormed(text)
  {
    var i :| 0 <= i < |text| && text[i] == Torn(t);
    assert Lex(text)[i] in Lex(text) && !Intact(Lex(text));
    if WellFormed(text) {
      TypeIsIntact(Lex(text));
    }
  }

  lemma {:induction false} JoinHolds(sep: Token, parts: seq<Text>, p: Text, t: Token)
    requires p in parts && t in p
    ensures t in Join(sep, parts)
    decreases |parts|
  {
    if |parts| > 1 {
      var n := |parts| - 1;
      if p != parts[n] {
        JoinHolds(sep, parts[..n], p, t);
      }
    }
  }

  /** Constants are sound exactly when they have no line break in them. */
  lemma {:induction false} ConstantIsSoundIff(w: World, s: Schema)
    requires s.component.None? && s.constant.Some? && !s.nullable
    ensures Sound(w, s) <==> OneLine(s.constant.value)
  {
    var c := s.constant.value;
    assert SchemaToType(w, s) == [Literal(c)];
    if OneLine(c) {
      LiteralSound(w, c);
      assert forall v | Accepts(w, s, v) :: v in iset{c};
    } else {
      assert Torn(Lit(c)) in [Literal(c)];
      TornIsUnsound(SchemaToType(w, s), Lit(c));
    }
  }

  /** So are enumerations. */
  lemma {:induction false} EnumIsSoundIff(w: World, s: Schema)
    requires s.component.None? && s.constant.None? && s.options.Some? && !s.nullable
    ensures Sound(w, s) <==> forall v | v in s.options.value :: OneLine(v)
  {
    var options := s.options.value;
    var text := UniqueUnion(Literals(options));
    assert SchemaToType(w, s) == text;
    if forall v | v in options :: OneLine(v) {
      assert forall v | Accepts(w, s, v) :: v in options;
      LiteralsSound(w, options, iset v | Accepts(w, s, v));
    } else {
      var v :| v in options && !OneLine(v);
      var i :| 0 <= i < |options| && options[i] == v;
      var parts := Literals(options);
      var torn := [Torn(Lit(v))];
      assert parts[i] == torn && torn in parts && Torn(Lit(v)) in torn;
      DistinctKeeps(parts);
      JoinHolds(Bar, Distinct(parts), torn, Torn(Lit(v)));
      TornIsUnsound(text, Lit(v));
    }
  }

  /** An array of a sound item type is sound, but for null, exactly when no line break tears a string of the item. */
  lemma {:induction false} ArrayIsSoundIff(w: World, s: Schema)
    requires Plainly(s) && s.types == One(TArray) && s.format != Some("binary")
    requires s.items.Some? && Sound(w, s.items.value)
    ensures BaseIsSound(w, s) <==> !Tears(SchemaToType(w, s.items.value))
  {
    var item := SchemaToType(w, s.items.value);
    ArrayTyped(w, s);
    assert BaseSchemaToType(w, s) == ArrayText(item);
    if Tears(item) {
      TornArray(item);
    } else {
      var values := iset v | AcceptsBase(w, s, v);
      ItemsSound(w, s, values);
      assert forall v | AcceptsBase(w, s, v) :: v in values;
    }
  }

  lemma {:induction false} BrokenIsTorn(item: Text, i: nat)
    requires Breaks(item) && i < |item| && BarInside(item[i])
    ensures Torn(item[i]) in ArrayText(item)
  {
    var text := [ArrayOpen, BreakBar] + Broken(item) + [Close];
    assert BrokenToken(item[i]) == Torn(item[i]);
    assert text[i + 2] == Broken(item)[i];
  }

  lemma {:induction false} TornArray(item: Text)
    requires Tears(item)
    ensures !WellFormed(ArrayText(item))
  {
    var t :| t in item && BarInside(t);
    var i :| 0 <= i < |item| && item[i] == t;
    BrokenIsTorn(item, i);
    TornIsUnsound(ArrayText(item), t);
  }

  /** A Uint8Array is not a JSON value. */
  ghost predicate NoJsonInBytes(w: World) {
    forall v :: !w.types("Uint8Array", v)
  }

  /** A binary schema is printed `Uint8Array`: it is sound, but for null, exactly when it accepts nothing. */
  lemma {:induction false} BinaryIsSoundIff(w: World, s: Schema)
    requires NoJsonInBytes(w)
    requires Plainly(s) && !DefaultOnly(s) && s.format == Some("binary") && !s.types.Many? && s.types != One(TNull)
    ensures BaseIsSound(w, s) <==> forall v :: !AcceptsBase(w, s, v)
  {
    BinaryHoldsItsName(w, s);
  }

  /** A binary string schema with nothing else to say accepts every string. */
  lemma {:induction false} BinaryStringIsUnsound(w: World, s: Schema)
    requires NoJsonInBytes(w) && Plainly(s) && s.types == One(TString) && s.format == Some("binary")
    ensures !Sound(w, s)
  {
    var name := Name("Uint8Array");
    BytesRead();
    assert BaseSchemaToType(w, s) == [name];
    OrNullHolds(w, s.nullable, [name], NamedType("Uint8Array"), JStr(""));
    RefutedBy(w, s, JStr(""));
  }

  lemma {:induction false} BytesRead()
    ensures ReadsAs([Name("Uint8Array")], NamedType("Uint8Array"))
  {
    var name := Name("Uint8Array");
    assert Lex([name]) == [name];
    ReadToken(name);
  }

  lemma {:induction false} BinaryHoldsItsName(w: World, s: Schema)
    requires Plainly(s) && !DefaultOnly(s) && s.format == Some("binary") && !s.types.Many? && s.types != One(TNull)
    ensures BaseIsSound(w, s) <==> forall v | AcceptsBase(w, s, v) :: w.types("Uint8Array", v)
  {
    var name := Name("Uint8Array");
    assert BaseSchemaToType(w, s) == [name];
    BytesRead();
    forall v ensures Denotes(w.types, [name], v) <==> w.types("Uint8Array", v) {
      AtomHoldsOnly(w.types, [name], NamedType("Uint8Array"), v);
    }
  }

  // ---- a nullable object that loses its null ----

  function Bare(types: Types): Schema {
    Schema(None, None, None, false, NoMembers, NoMembers, NoMembers, types, None, None, NoProperties, [], Unsaid, false)
  }

  function Inner(): Schema {
    Bare(Untyped).(options := Some([JStr("x"), JNull, JStr("y")]))
  }

  /** `{ a?: 'x' | null | 'y'; }`, meant to be nullable. */
  function LosesNull(): Schema {
    Bare(One(TObject)).(properties := Properties([Property("a", Inner())]), nullable := true)
  }

  /** No part is `never`, and none repeats an earlier one. */
  predicate AllDifferent(parts: seq<Text>) {
    parts == [] ||
    var n := |parts| - 1;
    AllDifferent(parts[..n]) && parts[n] != [Word(Never)] && parts[n] !in parts[..n]
  }

  lemma {:induction false} DistinctKeepsAll(parts: seq<Text>)
    requires AllDifferent(parts)
    ensures Distinct(parts) == parts
    decreases |parts|
  {
    if parts != [] {
      var n := |parts| - 1;
      DistinctKeepsAll(parts[..n]);
      assert parts == parts[..n] + [parts[n]];
    }
  }

  lemma {:induction false} JoinThree(sep: Token, a: Text, b: Text, c: Text)
    ensures Join(sep, [a, b, c]) == a + [sep] + b + [sep] + c
  {
    var three, two := [a, b, c], [a, b];
    assert three[..2] == two && two[..1] == [a];
    assert Join(sep, two) == a + [sep] + b;
  }

  lemma {:induction false} InnerText(w: World)
    ensures SchemaToType(w, Inner()) == [Lit(JStr("x")), Bar, Word(Null), Bar, Lit(JStr("y"))]
    ensures Covered(w, Inner())
  {
    var x, y := Lit(JStr("x")), Lit(JStr("y"));
    var parts := Literals(Inner().options.value);
    assert !HasLineBreak("x") && !HasLineBreak("y");
    assert parts == [[x], [Word(Null)], [y]];
    assert x != y by {
      assert "x"[0] != "y"[0];
    }
    var one, two := [[x]], [[x], [Word(Null)]];
    assert parts[..2] == two && two[..1] == one && one[..0] == [];
    assert AllDifferent(one) && AllDifferent(two);
    ThreeParts([x], [Word(Null)], [y]);
  }

  lemma {:induction false} ThreeParts(a: Text, b: Text, c: Text)
    requires AllDifferent([a, b, c])
    ensures UniqueUnion([a, b, c]) == a + [Bar] + b + [Bar] + c
  {
    DistinctKeepsAll([a, b, c]);
    JoinThree(Bar, a, b, c);
  }

  /** A null strictly inside the text of a property is found in the text of the object. */
  lemma {:induction false} NullInsideAProperty(w: World, s: Schema, p: Property, text: Text, i: nat)
    requires Plainly(s) && s.types == One(TObject) && s.properties == Properties([p]) && s.format == None
    requires text == SchemaToType(w, p.schema) && 0 < i < |text| - 1 && NullPartAt(text, i)
    ensures HasNullPart(BaseSchemaToType(w, s))
  {
    assert [p][1..] == [];
    var head := [Prop(p.name, p.name !in s.required)];
    assert FieldLines(w, [p], s.required) == head + text + [Semi] + [];
    var base := [BraceOpen] + (head + text + [Semi] + []) + [BraceClose];
    assert BaseSchemaToType(w, s) == base;
    assert base[i + 1] == text[i - 1] && base[i + 2] == text[i] && base[i + 3] == text[i + 1];
    assert NullPartAt(base, i + 2);
  }

  lemma {:induction false} NestedNullIsLost(w: World)
    requires Agrees(w)
    ensures !Sound(w, LosesNull())
  {
    var s := LosesNull();
    InnerText(w);
    NullInsideAProperty(w, s, s.properties.list[0], SchemaToType(w, Inner()), 2);
    NullableContainerIsSoundIff(w, s, TObject);
  }
}
