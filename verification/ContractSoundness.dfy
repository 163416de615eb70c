/**
 The printed type of a schema holds every value that the schema accepts.

 The statement covers every schema whose text the printer's own text tests read correctly; `Covered`
 says which those are, and ContractTheorem what is lost in the others.
 */
module ContractSoundness {
  import opened Wrappers
  import opened TypeText
  import opened ContractTypes

  /** The text is a type, and it holds all of the values. */
  ghost predicate SoundFor(w: World, text: Text, values: iset<Json>) {
    WellFormed(text) && forall v | v in values :: Denotes(w.types, text, v)
  }

  ghost predicate Sound(w: World, s: Schema) {
    SoundFor(w, SchemaToType(w, s), iset v | Accepts(w, s, v))
  }

  // ---- unions ----

  lemma {:induction false} TwoTexts(w: World, a: Text, b: Text)
    requires WellFormed(a) && WellFormed(b)
    ensures WellFormed(a + [Bar] + b)
    ensures forall v :: Denotes(w.types, a + [Bar] + b, v) <==> Denotes(w.types, a, v) || Denotes(w.types, b, v)
  {
    assert Lex(a + [Bar] + b) == Lex(a) + [Bar] + Lex(b);
    UnionIsType(w.types, Lex(a), Lex(b));
  }

  lemma {:induction false} JoinBars(w: World, parts: seq<Text>)
    requires parts != [] && forall p | p in parts :: WellFormed(p)
    ensures WellFormed(Join(Bar, parts))
    ensures forall p, v | p in parts && Denotes(w.types, p, v) :: Denotes(w.types, Join(Bar, parts), v)
    decreases |parts|
  {
    if |parts| > 1 {
      var n := |parts| - 1;
      assert parts[n] in parts;
      JoinBars(w, parts[..n]);
      OneMoreBar(w, parts, Join(Bar, parts[..n]), parts[n]);
    }
  }

  lemma {:induction false} OneMoreBar(w: World, parts: seq<Text>, joined: Text, last: Text)
    requires WellFormed(joined) && WellFormed(last) && |parts| > 1 && last == parts[|parts| - 1]
    requires forall p, v | p in parts[..|parts| - 1] && Denotes(w.types, p, v) :: Denotes(w.types, joined, v)
    ensures WellFormed(joined + [Bar] + last)
    ensures forall p, v | p in parts && Denotes(w.types, p, v) :: Denotes(w.types, joined + [Bar] + last, v)
  {
    TwoTexts(w, joined, last);
    forall p, v | p in parts && Denotes(w.types, p, v) ensures Denotes(w.types, joined + [Bar] + last, v) {
      assert p in parts[..|parts| - 1] || p == last;
    }
  }

  lemma {:induction false} DistinctKeeps(parts: seq<Text>)
    ensures forall p | p in Distinct(parts) :: p in parts
    ensures forall p | p in parts && p != [Word(Never)] :: p in Distinct(parts)
    decreases |parts|
  {
    if parts != [] {
      DistinctKeeps(parts[..|parts| - 1]);
    }
  }

  lemma {:induction false} NeverHoldsNothing(types: (string, Json) -> bool, v: Json)
    ensures !Denotes(types, [Word(Never)], v)
  {
    assert Lex([Word(Never)]) == [Word(Never)];
    ReadToken(Word(Never));
    if InType(types, Single(WordType(Never)), v) {
      SingleOnlyHolds(types, WordType(Never), v);
    }
  }

  lemma {:induction false} UniqueUnionSound(w: World, parts: seq<Text>, values: iset<Json>)
    requires forall p | p in parts :: WellFormed(p)
    requires forall v | v in values :: exists p :: p in parts && Denotes(w.types, p, v)
    ensures SoundFor(w, UniqueUnion(parts), values)
  {
    DistinctKeeps(parts);
    if Distinct(parts) == [] {
      WordSound(w, Unknown, values);
    } else {
      JoinBars(w, Distinct(parts));
    }
    forall v | v in values ensures Denotes(w.types, UniqueUnion(parts), v) {
      var p :| p in parts && Denotes(w.types, p, v);
      NeverHoldsNothing(w.types, v);
    }
  }

  lemma {:induction false} WordSound(w: World, k: Keyword, values: iset<Json>)
    requires forall v | v in values :: InWord(k, v)
    ensures SoundFor(w, [Word(k)], values)
  {
    assert Lex([Word(k)]) == [Word(k)];
    ReadToken(Word(k));
    forall v | v in values ensures Denotes(w.types, [Word(k)], v) {
      SingleHolds(w.types, WordType(k), v);
    }
  }

  lemma {:induction false} NameSound(w: World, name: string, values: iset<Json>)
    requires forall v | v in values :: w.types(name, v)
    ensures SoundFor(w, [Name(name)], values)
  {
    assert Lex([Name(name)]) == [Name(name)];
    ReadToken(Name(name));
    forall v | v in values ensures Denotes(w.types, [Name(name)], v) {
      SingleHolds(w.types, NamedType(name), v);
    }
  }

  predicate OneLine(v: Json) {
    v.JStr? ==> !HasLineBreak(v.s)
  }

  lemma {:induction false} LiteralSound(w: World, value: Json)
    requires OneLine(value)
    ensures SoundFor(w, [Literal(value)], iset{value})
  {
    match Literal(value)
    case Lit(_) =>
      assert Lex([Lit(value)]) == [Lit(value)];
      ReadToken(Lit(value));
      SingleHolds(w.types, LitType(value), value);
    case Word(k) => WordSound(w, k, iset{value});
  }

  lemma {:induction false} LiteralsSound(w: World, options: seq<Json>, values: iset<Json>)
    requires forall v | v in values :: v in options
    requires forall v | v in options :: OneLine(v)
    ensures SoundFor(w, UniqueUnion(Literals(options)), values)
  {
    var parts := Literals(options);
    forall p | p in parts ensures WellFormed(p) {
      var i :| 0 <= i < |parts| && parts[i] == p;
      LiteralSound(w, options[i]);
    }
    forall v | v in values ensures exists p :: p in parts && Denotes(w.types, p, v) {
      var i :| 0 <= i < |options| && options[i] == v;
      LiteralSound(w, v);
      assert parts[i] in parts;
    }
    UniqueUnionSound(w, parts, values);
  }

  // ---- intersections ----

  lemma {:induction false} JoinAmps(w: World, parts: seq<Text>)
    requires parts != [] && forall p | p in parts :: WellFormed(p)
    ensures WellFormed(Join(Amp, parts))
    ensures forall v | (forall p | p in parts :: Denotes(w.types, p, v)) :: Denotes(w.types, Join(Amp, parts), v)
    decreases |parts|
  {
    if |parts| > 1 {
      var n := |parts| - 1;
      var before, last := parts[..n], parts[n];
      JoinAmps(w, before);
      assert last in parts;
      var joined := Join(Amp, before);
      assert Lex(joined + [Amp] + last) == Lex(joined) + [Amp] + Lex(last);
      IntersectionIsType(w.types, Lex(joined), Lex(last));
      forall v | forall p | p in parts :: Denotes(w.types, p, v) ensures Denotes(w.types, Join(Amp, parts), v) {
        assert forall p | p in before :: p in parts && Denotes(w.types, p, v);
        assert Denotes(w.types, joined, v) && Denotes(w.types, last, v);
      }
    }
  }

  // ---- null ----

  /** The null that the text test finds is a member of the union itself, not of one nested in it. */
  predicate NullAtTop(ts: Text) {
    exists i: nat | i < |ts| :: NullPartAt(ts, i) && Depth(Lex(ts)[..i]) == 0
  }

  lemma {:induction false} ScanStops(ts: Text, sep: Token, d: int, j: nat)
    requires j < |ts| && ts[j] == sep && d + Depth(ts[..j]) == 0
    ensures Scan(ts, sep, d) <= j
    decreases j
  {
    if j > 0 {
      assert ts[..j] == [ts[0]] + ts[1..][..j - 1];
      assert ts[..j][1..] == ts[1..][..j - 1];
      ScanStops(ts[1..], sep, d + Delta(ts[0]), j - 1);
    }
  }

  lemma {:induction false} BarBefore(ts: Text, i: nat)
    requires 0 < i < |ts| && ts[i - 1] == Bar && Depth(ts[..i]) == 0
    ensures Scan(ts, Bar, 0) <= i - 1
  {
    assert ts[..i] == ts[..i - 1] + [Bar];
    DepthAppend(ts[..i - 1], [Bar]);
    assert [Bar][1..] == [];
    ScanStops(ts, Bar, 0, i - 1);
  }

  lemma {:induction false} DepthAfterCut(ts: Text, n: nat, i: nat)
    requires n < i < |ts| && ts[n] == Bar && Depth(ts[..n]) == 0 && Depth(ts[..i]) == 0
    ensures Depth(ts[n + 1..][..i - n - 1]) == 0
  {
    var rest := ts[n + 1..][..i - n - 1];
    assert ts[..i] == ts[..n] + ([Bar] + rest);
    DepthAppend(ts[..n], [Bar] + rest);
    assert ([Bar] + rest)[1..] == rest;
  }

  lemma {:induction false} SameNeighbours(ts: Text, n: nat, i: nat)
    requires n < i < |ts|
    ensures var rest, k := ts[n + 1..], i - n - 1;
            && rest[k] == ts[i] && (k > 0 ==> rest[k - 1] == ts[i - 1])
            && |rest| - k == |ts| - i && (k + 1 < |rest| ==> rest[k + 1] == ts[i + 1])
  {
  }

  /** A member that is exactly `null`, between bars at depth zero, puts null in the type. */
  lemma {:induction false} MemberNull(types: (string, Json) -> bool, ts: Text, i: nat)
    requires i < |ts| && ts[i] == Word(Null) && Depth(ts[..i]) == 0 && Depth(ts) == 0 && ReadType(ts).Some?
    requires (i == 0 || ts[i - 1] == Bar) && (i + 1 == |ts| || ts[i + 1] == Bar)
    ensures InType(types, ReadType(ts).value, JNull)
    decreases |ts|
  {
    if i > 0 {
      var n := CutBefore(ts, i);
      var rest := ts[n + 1..];
      DepthAfterCut(ts, n, i);
      SameNeighbours(ts, n, i);
      MemberNull(types, rest, i - n - 1);
      LaterMember(types, ReadIntersection(ts[..n]).value, ReadType(rest).value, JNull);
    } else {
      FirstIsNull(types, ts);
    }
  }

  /** The first bar at depth zero, when there is one right before `i`. */
  lemma {:induction false} CutBefore(ts: Text, i: nat) returns (n: nat)
    requires 0 < i < |ts| && ts[i - 1] == Bar && Depth(ts[..i]) == 0 && Depth(ts) == 0 && ReadType(ts).Some?
    ensures n < i && ts[n] == Bar && Depth(ts[..n]) == 0 && Depth(ts[n + 1..]) == 0
    ensures ReadIntersection(ts[..n]).Some? && ReadType(ts[n + 1..]).Some?
    ensures ReadType(ts).value == Union([ReadIntersection(ts[..n]).value] + ReadType(ts[n + 1..]).value.members)
  {
    n := Scan(ts, Bar, 0);
    BarBefore(ts, i);
    CutAtSeparator(ts, Bar);
    ScanFinds(ts, Bar, 0);
    ReadTypeCut(ts, ts[..n], ts[n + 1..]);
  }

  /** The text is `null`, or starts with `null |`. */
  lemma {:induction false} FirstIsNull(types: (string, Json) -> bool, ts: Text)
    requires ts != [] && ts[0] == Word(Null) && (|ts| == 1 || ts[1] == Bar) && ReadType(ts).Some?
    ensures InType(types, ReadType(ts).value, JNull)
  {
    var nul := [Word(Null)];
    ReadToken(Word(Null));
    SingleHolds(types, WordType(Null), JNull);
    if |ts| == 1 {
      assert ts == nul;
    } else {
      assert ts[..1] == nul && nul[1..] == [];
      ScanStops(ts, Bar, 0, 1);
      assert Scan(ts, Bar, 0) == 1;
      ReadTypeCut(ts, nul, ts[2..]);
      FirstMember(types, ReadType(nul).value, ReadType(ts[2..]).value, JNull);
    }
  }

  lemma {:induction false} LaterMember(types: (string, Json) -> bool, x: Intersection, u: Type, v: Json)
    requires InType(types, u, v)
    ensures InType(types, Union([x] + u.members), v)
  {
    var i :| 0 <= i < |u.members| && InAll(types, u.members[i], v);
    assert ([x] + u.members)[i + 1] == u.members[i];
  }

  lemma {:induction false} FirstMember(types: (string, Json) -> bool, t: Type, u: Type, v: Json)
    requires |t.members| == 1 && InType(types, t, v)
    ensures InType(types, Union([t.members[0]] + u.members), v)
  {
    assert InAll(types, ([t.members[0]] + u.members)[0], v);
  }

  lemma {:induction false} NullAtTopHoldsNull(types: (string, Json) -> bool, ts: Text)
    requires WellFormed(ts) && NullAtTop(ts)
    ensures Denotes(types, ts, JNull)
  {
    var i: nat :| i < |ts| && NullPartAt(ts, i) && Depth(Lex(ts)[..i]) == 0;
    MemberNull(types, Lex(ts), i);
  }

  /** Adding null when the text test finds none. */
  lemma {:induction false} OrNullSound(w: World, nullable: bool, base: Text, values: iset<Json>)
    requires SoundFor(w, base, values)
    requires nullable && HasNullPart(base) ==> NullAtTop(base)
    ensures SoundFor(w, OrNull(nullable, base), if nullable then values + iset{JNull} else values)
  {
    if nullable {
      if HasNullPart(base) {
        NullAtTopHoldsNull(w.types, base);
      } else {
        WordSound(w, Null, iset{JNull});
        assert base + [Bar, Word(Null)] == base + [Bar] + [Word(Null)];
        TwoTexts(w, base, [Word(Null)]);
      }
    }
  }

  // ---- arrays, records, objects ----

  lemma {:induction false} NothingToFind(ts: Text, sep: Token, d: int)
    requires sep !in ts
    ensures Scan(ts, sep, d) == |ts|
    decreases |ts|
  {
    if ts != [] {
      NothingToFind(ts[1..], sep, d + Delta(ts[0]));
    }
  }

  ghost function ArraysOf(values: iset<Json>): iset<Json> {
    iset v: Json | v.JArr? && forall i | 0 <= i < |v.items| :: v.items[i] in values
  }

  /** The line breaks of the array text fall into a quoted string. */
  predicate Tears(item: Text) {
    Breaks(item) && exists t | t in item :: BarInside(t)
  }

  predicate ReadsAsArrayOf(text: Text, item: Text)
    requires WellFormed(item)
  {
    WellFormed(text) && ReadType(Lex(text)) == Some(Single(ArrayType(ReadType(Lex(item)).value)))
  }

  lemma {:induction false} LexBroken(item: Text)
    requires forall t | t in item :: !BarInside(t)
    ensures Lex(Broken(item)) == Lex(item)
  {
    forall i | 0 <= i < |item| ensures Lex(Broken(item))[i] == Lex(item)[i] {
      assert item[i] in item;
    }
  }

  lemma {:induction false} BrokenReads(item: Text)
    requires WellFormed(item) && forall t | t in item :: !BarInside(t)
    ensures ReadsAsArrayOf([ArrayOpen, BreakBar] + Broken(item) + [Close], item)
  {
    LexBroken(item);
    LexFramed(Broken(item));
    ReadBrokenArrayOf(Lex(item));
  }

  lemma {:induction false} LexFramed(body: Text)
    ensures Lex([ArrayOpen, BreakBar] + body + [Close]) == [ArrayOpen] + ([Bar] + Lex(body)) + [Close]
  {
  }

  lemma {:induction false} BracketsRead(item: Text)
    requires WellFormed(item) && !HasBar(item) && !HasAmp(item)
    ensures ReadsAsArrayOf(item + [Brackets], item)
  {
    assert Lex(item + [Brackets]) == Lex(item) + [Brackets];
    forall t | t in Lex(item) ensures t != Bar && t != Amp {
      var i :| 0 <= i < |item| && Lex(item)[i] == t;
      assert item[i] in item;
    }
    NothingToFind(Lex(item), Bar, 0);
    NothingToFind(Lex(item), Amp, 0);
    ReadBrackets(Lex(item));
  }

  /** Whichever of its three shapes the printer chooses, the array text is the array of the item text. */
  lemma {:induction false} ArrayTextReads(item: Text)
    requires WellFormed(item) && !Tears(item)
    ensures WellFormed(ArrayText(item))
    ensures ReadType(Lex(ArrayText(item))) == Some(Single(ArrayType(ReadType(Lex(item)).value)))
  {
    if Breaks(item) {
      BrokenReads(item);
    } else if HasBar(item) || HasAmp(item) {
      assert Lex([ArrayOpen] + item + [Close]) == [ArrayOpen] + Lex(item) + [Close];
      ReadArrayOf(Lex(item));
    } else {
      BracketsRead(item);
    }
  }

  lemma {:induction false} ArrayTextSound(w: World, item: Text, values: iset<Json>)
    requires SoundFor(w, item, values) && !Tears(item)
    ensures SoundFor(w, ArrayText(item), ArraysOf(values))
  {
    ArrayTextReads(item);
    var t := ReadType(Lex(item)).value;
    forall v | v in ArraysOf(values) ensures Denotes(w.types, ArrayText(item), v) {
      SingleHolds(w.types, ArrayType(t), v);
    }
  }

  ghost function RecordsOf(values: iset<Json>): iset<Json> {
    iset v: Json | v.JObj? && forall k | k in v.fields :: v.fields[k] in values
  }

  lemma {:induction false} RecordSound(w: World, entry: Text, values: iset<Json>)
    requires SoundFor(w, entry, values)
    ensures SoundFor(w, [RecordOpen] + entry + [Close], RecordsOf(values))
  {
    assert Lex([RecordOpen] + entry + [Close]) == [RecordOpen] + Lex(entry) + [Close];
    ReadRecordOf(Lex(entry));
    var t := ReadType(Lex(entry)).value;
    forall v | v in RecordsOf(values) ensures Denotes(w.types, [RecordOpen] + entry + [Close], v) {
      SingleHolds(w.types, RecordType(t), v);
    }
  }

  /** The value satisfies every listed property, and has every required one. */
  ghost predicate FitsFields(w: World, props: seq<Property>, required: seq<string>, v: Json) {
    && v.JObj?
    && (forall n | n in required :: n in v.fields)
    && (forall i | 0 <= i < |props| ::
          props[i].name in v.fields ==> Accepts(w, props[i].schema, v.fields[props[i].name]))
  }

  ghost predicate InFields(types: (string, Json) -> bool, fields: seq<Field>, v: Json) {
    InAtom(types, ObjectType(fields), v)
  }

  lemma {:induction false} FitsRest(w: World, props: seq<Property>, required: seq<string>, v: Json)
    requires props != [] && FitsFields(w, props, required, v)
    ensures FitsFields(w, props[1..], required, v)
    ensures props[0].name in v.fields ==> Accepts(w, props[0].schema, v.fields[props[0].name])
  {
    assert forall i | 0 <= i < |props[1..]| :: props[1..][i] == props[i + 1];
  }

  lemma {:induction false} FieldLinesCut(
      w: World, props: seq<Property>, required: seq<string>, name: string, optional: bool, text: Text, more: Text)
    requires props != [] && name == props[0].name && optional == (name !in required)
    requires text == SchemaToType(w, props[0].schema) && more == FieldLines(w, props[1..], required)
    ensures Lex(FieldLines(w, props, required)) == [Prop(name, optional)] + Lex(text) + [Semi] + Lex(more)
  {
    var head := [Prop(name, optional)];
    LexAppend(head, text);
    LexAppend(head + text, [Semi]);
    LexAppend(head + text + [Semi], more);
  }

  /** The lines of an object type read as fields that hold every value with fitting properties. */
  ghost predicate FieldsFit(w: World, body: Text, props: seq<Property>, required: seq<string>) {
    && Balanced(body) && ReadFields(body).Some?
    && forall v | FitsFields(w, props, required, v) :: InFields(w.types, ReadFields(body).value, v)
  }

  lemma {:induction false} FieldLinesRead(w: World, props: seq<Property>, required: seq<string>)
    requires forall p | p in props :: Sound(w, p.schema)
    ensures FieldsFit(w, Lex(FieldLines(w, props, required)), props, required)
    decreases |props|
  {
    if props != [] {
      var p, rest := props[0], props[1..];
      FieldLinesRead(w, rest, required);
      var text, more := SchemaToType(w, p.schema), FieldLines(w, rest, required);
      assert p in props;
      var optional := p.name !in required;
      FieldLinesCut(w, props, required, p.name, optional, text, more);
      OneMoreField(w, p, optional, Lex(text), Lex(more), props, required);
    } else {
      assert Lex(FieldLines(w, props, required)) == [];
    }
  }

  lemma {:induction false} OneMoreField(w: World, p: Property, optional: bool, text: Text, more: Text,
                     props: seq<Property>, required: seq<string>)
    requires optional == (p.name !in required)
    requires props != [] && p == props[0] && Sound(w, p.schema) && text == Lex(SchemaToType(w, p.schema))
    requires FieldsFit(w, more, props[1..], required)
    ensures FieldsFit(w, [Prop(p.name, optional)] + text + [Semi] + more, props, required)
  {
    ReadFieldsCons(p.name, optional, text, more);
    var field := Field(p.name, optional, ReadType(text).value);
    var fields := ReadFields(more).value;
    forall v | FitsFields(w, props, required, v) ensures InFields(w.types, [field] + fields, v) {
      FitsRest(w, props, required, v);
      assert p.name in v.fields ==> Denotes(w.types, SchemaToType(w, p.schema), v.fields[p.name]);
    }
  }

  lemma {:induction false} ObjectSound(w: World, props: seq<Property>, required: seq<string>, values: iset<Json>)
    requires forall p | p in props :: Sound(w, p.schema)
    requires forall v | v in values :: FitsFields(w, props, required, v)
    ensures SoundFor(w, [BraceOpen] + FieldLines(w, props, required) + [BraceClose], values)
  {
    var body := FieldLines(w, props, required);
    FieldLinesRead(w, props, required);
    assert Lex([BraceOpen] + body + [BraceClose]) == [BraceOpen] + Lex(body) + [BraceClose];
    ReadObject(Lex(body));
    var fields := ReadFields(Lex(body)).value;
    forall v | v in values ensures Denotes(w.types, [BraceOpen] + body + [BraceClose], v) {
      assert InFields(w.types, fields, v);
      SingleHolds(w.types, ObjectType(fields), v);
    }
  }
}
