/**
 The TypeScript types that the contract generator prints, as text and as sets of JSON values.

 A text is the sequence of tokens it is made of.  Spaces are not kept, with one exception: the
 generator tests its own output for " | ", so a bar inside a line and a bar at the start of a line
 are different tokens.  A reader of the text sees one kind of bar (`Lex`).
 */
module TypeText {
  import opened Wrappers

  datatype Json =
    | JNull
    | JBool(b: bool)
    | JNum(n: real)
    | JStr(s: string)
    | JArr(items: seq<Json>)
    | JObj(fields: map<string, Json>)

  datatype Keyword = Unknown | Never | Null | String | Number | Boolean

  datatype Token =
    | Bar
    | BreakBar
    | Amp
    | Word(k: Keyword)
    | Lit(value: Json)
    | Name(name: string)
    | ArrayOpen
    | RecordOpen
    | Close
    | Brackets
    | BraceOpen
    | BraceClose
    | Prop(prop: string, optional: bool)
    | Semi
    | Torn(inner: Token)

  type Text = seq<Token>

  predicate Intact(ts: Text) {
    forall t | t in ts :: !t.Torn?
  }

  predicate IsBar(t: Token) {
    t == Bar || t == BreakBar
  }

  /** What a reader sees: line breaks do not matter. */
  function Lex(ts: Text): (r: Text)
    ensures |r| == |ts|
    ensures forall i :: 0 <= i < |r| ==> r[i] == if ts[i] == BreakBar then Bar else ts[i]
  {
    seq(|ts|, i requires 0 <= i < |ts| => if ts[i] == BreakBar then Bar else ts[i])
  }

  lemma {:induction false} LexAppend(a: Text, b: Text)
    ensures Lex(a + b) == Lex(a) + Lex(b)
  {
  }

  // ---- nesting ----

  function Delta(t: Token): int {
    match t
    case ArrayOpen => 1
    case RecordOpen => 1
    case BraceOpen => 1
    case Close => -1
    case BraceClose => -1
    case _ => 0
  }

  function Depth(ts: Text): int {
    if ts == [] then 0 else Delta(ts[0]) + Depth(ts[1..])
  }

  /** Starting at depth `d`, the text never falls below depth zero. */
  predicate StaysIn(ts: Text, d: int) {
    d >= 0 && (ts == [] || StaysIn(ts[1..], d + Delta(ts[0])))
  }

  predicate Balanced(ts: Text) {
    StaysIn(ts, 0) && Depth(ts) == 0
  }

  /** The position of the first `sep` at depth zero when the text starts at depth `d`, or the end. */
  function Scan(ts: Text, sep: Token, d: int): (n: nat)
    ensures n <= |ts|
  {
    if ts == [] then 0
    else if d == 0 && ts[0] == sep then 0
    else 1 + Scan(ts[1..], sep, d + Delta(ts[0]))
  }

  lemma {:induction false} DepthAppend(a: Text, b: Text)
    ensures Depth(a + b) == Depth(a) + Depth(b)
  {
    if a == [] {
      assert a + b == b;
    } else {
      assert (a + b)[1..] == a[1..] + b;
      DepthAppend(a[1..], b);
    }
  }

  lemma {:induction false} StaysInAppend(a: Text, b: Text, d: int)
    requires StaysIn(a, d) && StaysIn(b, d + Depth(a))
    ensures StaysIn(a + b, d)
    decreases |a|
  {
    if a == [] {
      assert a + b == b;
    } else {
      assert (a + b)[1..] == a[1..] + b;
      StaysInAppend(a[1..], b, d + Delta(a[0]));
    }
  }

  lemma {:induction false} StaysInDeeper(a: Text, d: int, e: nat)
    requires StaysIn(a, d)
    ensures StaysIn(a, d + e)
    decreases |a|
  {
    if a != [] {
      StaysInDeeper(a[1..], d + Delta(a[0]), e);
    }
  }

  lemma {:induction false} BalancedAppend(a: Text, b: Text)
    requires Balanced(a) && Balanced(b)
    ensures Balanced(a + b)
  {
    DepthAppend(a, b);
    StaysInAppend(a, b, 0);
  }

  lemma {:induction false} BalancedWrap(open: Token, a: Text, close: Token)
    requires Balanced(a) && Delta(open) == 1 && Delta(close) == -1
    ensures Balanced([open] + a + [close])
  {
    StaysInDeeper(a, 0, 1);
    assert [close][1..] == [] && [open][1..] == [];
    StaysInAppend(a, [close], 1);
    DepthAppend(a, [close]);
    var tail := a + [close];
    assert [open] + a + [close] == [open] + tail;
    assert ([open] + tail)[1..] == tail;
  }

  /** Scanning past a text that holds no separator at depth zero. */
  lemma {:induction false} ScanPast(a: Text, b: Text, sep: Token, d: int, e: int)
    requires Scan(a, sep, d) == |a| && e == d + Depth(a)
    ensures Scan(a + b, sep, d) == |a| + Scan(b, sep, e)
    decreases |a|
  {
    if a == [] {
      assert a + b == b;
    } else {
      var rest := a[1..];
      assert (a + b)[0] == a[0] && (a + b)[1..] == rest + b;
      ScanPast(rest, b, sep, d + Delta(a[0]), e);
    }
  }

  lemma {:induction false} ScanWithin(a: Text, b: Text, sep: Token, d: int)
    requires Scan(a, sep, d) < |a|
    ensures Scan(a + b, sep, d) == Scan(a, sep, d)
    decreases |a|
  {
    var ab := a + b;
    assert ab[0] == a[0] && ab[1..] == a[1..] + b;
    if !(d == 0 && a[0] == sep) {
      ScanWithin(a[1..], b, sep, d + Delta(a[0]));
    }
  }

  /** Inside an open bracket nothing is at depth zero. */
  lemma {:induction false} ScanDeep(a: Text, sep: Token, d: int)
    requires StaysIn(a, d - 1)
    ensures Scan(a, sep, d) == |a|
    decreases |a|
  {
    if a != [] {
      ScanDeep(a[1..], sep, d + Delta(a[0]));
    }
  }

  lemma {:induction false} ScanFinds(a: Text, sep: Token, d: int)
    requires Scan(a, sep, d) < |a|
    ensures a[Scan(a, sep, d)] == sep
    decreases |a|
  {
    if !(d == 0 && a[0] == sep) {
      ScanFinds(a[1..], sep, d + Delta(a[0]));
    }
  }

  lemma {:induction false} ScanCons(t: Token, ts: Text, sep: Token, d: int)
    requires d != 0 || t != sep
    ensures Scan([t] + ts, sep, d) == 1 + Scan(ts, sep, d + Delta(t))
  {
    assert ([t] + ts)[1..] == ts;
  }

  /** A bracketed text holds no separator at depth zero, unless it is the bracket itself. */
  lemma {:induction false} ScanWrap(open: Token, a: Text, close: Token, sep: Token)
    requires Balanced(a) && Delta(open) == 1 && Delta(close) == -1 && Delta(sep) == 0
    ensures Scan([open] + a + [close], sep, 0) == |a| + 2
  {
    ScanDeep(a, sep, 1);
    ScanPast(a, [close], sep, 1, 1);
    assert [close] == [close] + [];
    ScanCons(close, [], sep, 1);
    ScanCons(open, a + [close], sep, 0);
    assert [open] + a + [close] == [open] + (a + [close]);
  }

  // ---- reading a text: `|` binds loosest, then `&`, then `[]` ----

  datatype Type = Union(members: seq<Intersection>)
  datatype Intersection = All(parts: seq<Atom>)
  datatype Atom =
    | WordType(k: Keyword)
    | LitType(value: Json)
    | NamedType(name: string)
    | ArrayType(item: Type)
    | RecordType(entry: Type)
    | ObjectType(fields: seq<Field>)
  datatype Field = Field(name: string, optional: bool, t: Type)

  function ReadType(ts: Text): Option<Type>
    decreases |ts|, 3
  {
    var n := Scan(ts, Bar, 0);
    if n == |ts| then
      match ReadIntersection(ts)
      case None => None
      case Some(x) => Some(Union([x]))
    else
      match ReadIntersection(ts[..n])
      case None => None
      case Some(x) =>
        match ReadType(ts[n + 1..])
        case None => None
        case Some(u) => Some(Union([x] + u.members))
  }

  function ReadIntersection(ts: Text): Option<Intersection>
    decreases |ts|, 2
  {
    var n := Scan(ts, Amp, 0);
    if n == |ts| then
      match ReadPostfix(ts)
      case None => None
      case Some(a) => Some(All([a]))
    else
      match ReadPostfix(ts[..n])
      case None => None
      case Some(a) =>
        match ReadIntersection(ts[n + 1..])
        case None => None
        case Some(x) => Some(All([a] + x.parts))
  }

  function ReadPostfix(ts: Text): Option<Atom>
    decreases |ts|, 1
  {
    if ts != [] && ts[|ts| - 1] == Brackets then
      match ReadPostfix(ts[..|ts| - 1])
      case None => None
      case Some(a) => Some(ArrayType(Union([All([a])])))
    else
      ReadAtom(ts)
  }

  function ReadAtom(ts: Text): Option<Atom>
    decreases |ts|, 0
  {
    if |ts| == 1 then
      match ts[0]
      case Word(k) => Some(WordType(k))
      case Lit(value) => Some(LitType(value))
      case Name(name) => Some(NamedType(name))
      case _ => None
    else if |ts| >= 2 then
      var inner := ts[1..|ts| - 1];
      if ts[0] == ArrayOpen && ts[|ts| - 1] == Close then
        // a type argument may start with a bar
        match ReadType(if inner != [] && inner[0] == Bar then inner[1..] else inner)
        case None => None
        case Some(t) => Some(ArrayType(t))
      else if ts[0] == RecordOpen && ts[|ts| - 1] == Close then
        match ReadType(inner)
        case None => None
        case Some(t) => Some(RecordType(t))
      else if ts[0] == BraceOpen && ts[|ts| - 1] == BraceClose then
        match ReadFields(inner)
        case None => None
        case Some(fields) => Some(ObjectType(fields))
      else None
    else None
  }

  function ReadFields(ts: Text): Option<seq<Field>>
    decreases |ts|, 0
  {
    if ts == [] then Some([])
    else
      var n := Scan(ts, Semi, 0);
      if ts[0].Prop? && n < |ts| then
        match ReadType(ts[1..n])
        case None => None
        case Some(t) =>
          match ReadFields(ts[n + 1..])
          case None => None
          case Some(rest) => Some([Field(ts[0].prop, ts[0].optional, t)] + rest)
      else None
  }

  /** A string that a line break has torn apart is no token of a type. */
  lemma {:induction false} TypeIsIntact(ts: Text)
    requires ReadType(ts).Some?
    ensures Intact(ts)
    decreases |ts|, 3
  {
    var n := Scan(ts, Bar, 0);
    if n == |ts| {
      IntersectionIsIntact(ts);
    } else {
      ScanFinds(ts, Bar, 0);
      IntersectionIsIntact(ts[..n]);
      TypeIsIntact(ts[n + 1..]);
      assert ts == ts[..n] + [Bar] + ts[n + 1..];
    }
  }

  lemma {:induction false} IntersectionIsIntact(ts: Text)
    requires ReadIntersection(ts).Some?
    ensures Intact(ts)
    decreases |ts|, 2
  {
    var n := Scan(ts, Amp, 0);
    if n == |ts| {
      PostfixIsIntact(ts);
    } else {
      ScanFinds(ts, Amp, 0);
      PostfixIsIntact(ts[..n]);
      IntersectionIsIntact(ts[n + 1..]);
      assert ts == ts[..n] + [Amp] + ts[n + 1..];
    }
  }

  lemma {:induction false} PostfixIsIntact(ts: Text)
    requires ReadPostfix(ts).Some?
    ensures Intact(ts)
    decreases |ts|, 1
  {
    if ts != [] && ts[|ts| - 1] == Brackets {
      PostfixIsIntact(ts[..|ts| - 1]);
      assert ts == ts[..|ts| - 1] + [Brackets];
    } else {
      AtomIsIntact(ts);
    }
  }

  lemma {:induction false} AtomIsIntact(ts: Text)
    requires ReadAtom(ts).Some?
    ensures Intact(ts)
    decreases |ts|, 0
  {
    if |ts| >= 2 {
      var inner := ts[1..|ts| - 1];
      assert ts == [ts[0]] + inner + [ts[|ts| - 1]];
      if ts[0] == BraceOpen {
        FieldsAreIntact(inner);
      } else if ts[0] == ArrayOpen && inner != [] && inner[0] == Bar {
        TypeIsIntact(inner[1..]);
        assert inner == [Bar] + inner[1..];
      } else {
        TypeIsIntact(inner);
      }
    }
  }

  lemma {:induction false} FieldsAreIntact(ts: Text)
    requires ReadFields(ts).Some?
    ensures Intact(ts)
    decreases |ts|, 0
  {
    if ts != [] {
      var n := Scan(ts, Semi, 0);
      ScanFinds(ts, Semi, 0);
      TypeIsIntact(ts[1..n]);
      FieldsAreIntact(ts[n + 1..]);
      assert ts == [ts[0]] + ts[1..n] + [Semi] + ts[n + 1..];
    }
  }

  // ---- the values of a type ----

  /** `types` gives the values of a named type. */
  ghost predicate InType(types: (string, Json) -> bool, t: Type, v: Json) {
    exists i :: 0 <= i < |t.members| && InAll(types, t.members[i], v)
  }

  ghost predicate InAll(types: (string, Json) -> bool, x: Intersection, v: Json) {
    forall i :: 0 <= i < |x.parts| ==> InAtom(types, x.parts[i], v)
  }

  ghost predicate InAtom(types: (string, Json) -> bool, a: Atom, v: Json) {
    match a
    case WordType(k) => InWord(k, v)
    case LitType(value) => v == value
    case NamedType(name) => types(name, v)
    case ArrayType(item) => v.JArr? && forall i :: 0 <= i < |v.items| ==> InType(types, item, v.items[i])
    case RecordType(entry) => v.JObj? && forall k | k in v.fields :: InType(types, entry, v.fields[k])
    case ObjectType(fields) =>
      v.JObj? && forall i :: 0 <= i < |fields| ==>
        if fields[i].name in v.fields then InType(types, fields[i].t, v.fields[fields[i].name])
        else fields[i].optional
  }

  predicate InWord(k: Keyword, v: Json) {
    match k
    case Unknown => true
    case Never => false
    case Null => v.JNull?
    case String => v.JStr?
    case Number => v.JNum?
    case Boolean => v.JBool?
  }

  /** A lexed text that reads as a type, brackets and all. */
  predicate IsType(ts: Text) {
    Balanced(ts) && Scan(ts, Semi, 0) == |ts| && ReadType(ts).Some?
  }

  predicate WellFormed(ts: Text) {
    IsType(Lex(ts))
  }

  /** The value belongs to the type that the text is read as. */
  ghost predicate Denotes(types: (string, Json) -> bool, ts: Text, v: Json) {
    ReadType(Lex(ts)).Some? && InType(types, ReadType(Lex(ts)).value, v)
  }

  // ---- reading the texts that the generator puts together ----

  lemma {:induction false} FoundAtDepthZero(a: Text, sep: Token, d: int)
    requires Scan(a, sep, d) < |a|
    ensures d + Depth(a[..Scan(a, sep, d)]) == 0
    decreases |a|
  {
    if !(d == 0 && a[0] == sep) {
      var n := Scan(a[1..], sep, d + Delta(a[0]));
      FoundAtDepthZero(a[1..], sep, d + Delta(a[0]));
      assert a[..n + 1] == [a[0]] + a[1..][..n];
    }
  }

  /** Cutting a text of depth zero at a separator leaves two texts of depth zero. */
  lemma {:induction false} CutAtSeparator(a: Text, sep: Token)
    requires Depth(a) == 0 && Delta(sep) == 0 && Scan(a, sep, 0) < |a|
    ensures var n := Scan(a, sep, 0);
            Depth(a[..n]) == 0 && Depth(a[n + 1..]) == 0 && a == a[..n] + [sep] + a[n + 1..]
  {
    var n := Scan(a, sep, 0);
    ScanFinds(a, sep, 0);
    FoundAtDepthZero(a, sep, 0);
    DepthAppend(a[..n], [sep] + a[n + 1..]);
    assert a == a[..n] + ([sep] + a[n + 1..]);
    assert ([sep] + a[n + 1..])[1..] == a[n + 1..];
  }

  lemma {:induction false} ScanJoin(a: Text, sep: Token, b: Text)
    requires Depth(a) == 0 && Scan(a, sep, 0) == |a|
    ensures Scan(a + [sep] + b, sep, 0) == |a|
  {
    ScanPast(a, [sep] + b, sep, 0, 0);
    assert a + [sep] + b == a + ([sep] + b);
  }

  function OneMember(x: Option<Intersection>): Option<Type> {
    if x.Some? then Some(Union([x.value])) else None
  }

  function MoreMembers(x: Option<Intersection>, u: Option<Type>): Option<Type> {
    if x.Some? && u.Some? then Some(Union([x.value] + u.value.members)) else None
  }

  function MoreParts(a: Option<Atom>, x: Option<Intersection>): Option<Intersection> {
    if a.Some? && x.Some? then Some(All([a.value] + x.value.parts)) else None
  }

  lemma {:induction false} ReadTypeWhole(ts: Text)
    requires Scan(ts, Bar, 0) == |ts|
    ensures ReadType(ts) == OneMember(ReadIntersection(ts))
  {
  }

  lemma {:induction false} ReadTypeCut(ts: Text, a: Text, b: Text)
    requires |a| < |ts| && ts[..|a|] == a && ts[|a| + 1..] == b && Scan(ts, Bar, 0) == |a|
    ensures ReadType(ts) == MoreMembers(ReadIntersection(a), ReadType(b))
  {
  }

  lemma {:induction false} ReadIntersectionCut(ts: Text, a: Text, b: Text)
    requires |a| < |ts| && ts[..|a|] == a && ts[|a| + 1..] == b && Scan(ts, Amp, 0) == |a|
    ensures ReadIntersection(ts) == MoreParts(ReadPostfix(a), ReadIntersection(b))
  {
  }

  /** `a | b` reads as the members of a, then those of b. */
  lemma {:induction false} ReadUnion(a: Text, b: Text)
    requires Depth(a) == 0 && ReadType(a).Some? && ReadType(b).Some?
    ensures ReadType(a + [Bar] + b) == Some(Union(ReadType(a).value.members + ReadType(b).value.members))
    decreases |a|
  {
    if Scan(a, Bar, 0) == |a| {
      ScanJoin(a, Bar, b);
      ReadTypeCut(a + [Bar] + b, a, b);
      ReadTypeWhole(a);
    } else {
      CutAtSeparator(a, Bar);
      var n := Scan(a, Bar, 0);
      var x, y := a[..n], a[n + 1..];
      ReadTypeCut(a, x, y);
      ReadUnion(y, b);
      ScanWithin(a, [Bar] + b, Bar, 0);
      CutJoined(a, x, y, Bar, b);
      ReadTypeCut(a + [Bar] + b, x, y + [Bar] + b);
      AppendUnder(ReadIntersection(x).value, ReadType(y).value.members, ReadType(b).value.members);
    }
  }

  lemma {:induction false} CutJoined(a: Text, x: Text, y: Text, sep: Token, b: Text)
    requires a == x + [sep] + y
    ensures a + [sep] + b == a + ([sep] + b)
    ensures a + [sep] + b == x + [sep] + (y + [sep] + b)
  {
  }

  lemma {:induction false} AppendUnder<T>(x: T, u: seq<T>, w: seq<T>)
    ensures [x] + (u + w) == ([x] + u) + w
  {
  }

  lemma {:induction false} ReadAmp(a: Text, b: Text)
    requires Depth(a) == 0 && ReadIntersection(a).Some? && ReadIntersection(b).Some?
    ensures ReadIntersection(a + [Amp] + b) ==
            Some(All(ReadIntersection(a).value.parts + ReadIntersection(b).value.parts))
    decreases |a|
  {
    if Scan(a, Amp, 0) == |a| {
      ScanJoin(a, Amp, b);
      ReadIntersectionCut(a + [Amp] + b, a, b);
    } else {
      CutAtSeparator(a, Amp);
      var n := Scan(a, Amp, 0);
      var x, y := a[..n], a[n + 1..];
      ReadIntersectionCut(a, x, y);
      ReadAmp(y, b);
      ScanWithin(a, [Amp] + b, Amp, 0);
      CutJoined(a, x, y, Amp, b);
      ReadIntersectionCut(a + [Amp] + b, x, y + [Amp] + b);
      AppendUnder(ReadPostfix(x).value, ReadIntersection(y).value.parts, ReadIntersection(b).value.parts);
    }
  }

  /**
   What `a & b` is read as when no parentheses are printed: only the last member of a and the first
   member of b are intersected.
   */
  function Spliced(a: Type, b: Type): Type
    requires a.members != [] && b.members != []
  {
    var last := |a.members| - 1;
    Union(a.members[..last] + [All(a.members[last].parts + b.members[0].parts)] + b.members[1..])
  }

  lemma {:induction false} TypesHaveMembers(ts: Text)
    requires ReadType(ts).Some?
    ensures ReadType(ts).value.members != []
  {
    var n := Scan(ts, Bar, 0);
    if n == |ts| {
      ReadTypeWhole(ts);
    } else {
      ScanFinds(ts, Bar, 0);
      assert ts == ts[..n] + [Bar] + ts[n + 1..];
      ReadTypeCut(ts, ts[..n], ts[n + 1..]);
    }
  }

  lemma {:induction false} ReadSpliced(a: Text, b: Text)
    requires Depth(a) == 0 && Depth(b) == 0 && ReadType(a).Some? && ReadType(b).Some?
    ensures ReadType(a).value.members != [] && ReadType(b).value.members != []
    ensures ReadType(a + [Amp] + b) == Some(Spliced(ReadType(a).value, ReadType(b).value))
    decreases |a|
  {
    TypesHaveMembers(a);
    TypesHaveMembers(b);
    var n := Scan(a, Bar, 0);
    if n < |a| {
      CutAtSeparator(a, Bar);
      var x, y := a[..n], a[n + 1..];
      ScanWithin(a, [Amp] + b, Bar, 0);
      assert a + [Amp] + b == a + ([Amp] + b) == x + [Bar] + (y + [Amp] + b);
      ReadTypeCut(a + [Amp] + b, x, y + [Amp] + b);
      ReadTypeCut(a, x, y);
      ReadSpliced(y, b);
      SplicedUnder(ReadIntersection(x).value, ReadType(y).value, ReadType(b).value);
    } else {
      ReadSplicedLast(a, b);
    }
  }

  lemma {:induction false} SplicedUnder(x: Intersection, u: Type, w: Type)
    requires u.members != [] && w.members != []
    ensures Spliced(Union([x] + u.members), w) == Union([x] + Spliced(u, w).members)
  {
    var last := |u.members| - 1;
    assert ([x] + u.members)[..last + 1] == [x] + u.members[..last];
  }

  /** The first bar of `a & b`, when a holds none, is the first bar of b. */
  lemma {:induction false} ScanSpliced(a: Text, b: Text)
    requires Depth(a) == 0 && Scan(a, Bar, 0) == |a|
    ensures Scan(a + [Amp] + b, Bar, 0) == |a| + 1 + Scan(b, Bar, 0)
  {
    ScanPast(a, [Amp] + b, Bar, 0, 0);
    ScanCons(Amp, b, Bar, 0);
    assert a + [Amp] + b == a + ([Amp] + b);
  }

  lemma {:induction false} SplicedSingle(x: Intersection, y: Intersection, rest: seq<Intersection>)
    ensures Spliced(Union([x]), Union([y] + rest)) == Union([All(x.parts + y.parts)] + rest)
    ensures Spliced(Union([x]), Union([y])) == Union([All(x.parts + y.parts)])
  {
    assert ([y] + rest)[1..] == rest && [x][..0] == [];
  }

  /** The case of a single member on the left. */
  lemma {:induction false} ReadSplicedLast(a: Text, b: Text)
    requires Depth(a) == 0 && Depth(b) == 0 && ReadType(a).Some? && ReadType(b).Some?
    requires Scan(a, Bar, 0) == |a| && ReadType(a).value.members != [] && ReadType(b).value.members != []
    ensures ReadType(a + [Amp] + b) == Some(Spliced(ReadType(a).value, ReadType(b).value))
  {
    ScanSpliced(a, b);
    ReadTypeWhole(a);
    if Scan(b, Bar, 0) == |b| {
      ReadTypeWhole(b);
      ReadTypeWhole(a + [Amp] + b);
      ReadAmp(a, b);
      SplicedSingle(ReadIntersection(a).value, ReadIntersection(b).value, []);
    } else {
      CutAtSeparator(b, Bar);
      ReadSplicedFirst(a, b, b[..Scan(b, Bar, 0)], b[Scan(b, Bar, 0) + 1..]);
    }
  }

  lemma {:induction false} JoinedCut(a: Text, x: Text, y: Text)
    ensures a + [Amp] + (x + [Bar] + y) == (a + [Amp] + x) + [Bar] + y
  {
  }

  lemma {:induction false} ReadSplicedFirst(a: Text, b: Text, x: Text, y: Text)
    requires Depth(a) == 0 && ReadType(a) == OneMember(ReadIntersection(a)) && ReadType(a).Some?
    requires b == x + [Bar] + y && Scan(b, Bar, 0) == |x| && ReadType(b).Some?
    requires Scan(a + [Amp] + b, Bar, 0) == |a| + 1 + |x|
    requires ReadType(a).value.members != [] && ReadType(b).value.members != []
    ensures ReadType(a + [Amp] + b) == Some(Spliced(ReadType(a).value, ReadType(b).value))
  {
    ReadTypeCut(b, x, y);
    JoinedCut(a, x, y);
    ReadSplicedCut(a + [Amp] + b, a + [Amp] + x, a, x, y);
    SplicedSingle(ReadIntersection(a).value, ReadIntersection(x).value, ReadType(y).value.members);
  }

  lemma {:induction false} ReadSplicedCut(ts: Text, ax: Text, a: Text, x: Text, y: Text)
    requires ts == ax + [Bar] + y && ax == a + [Amp] + x && Scan(ts, Bar, 0) == |ax|
    requires Depth(a) == 0 && ReadIntersection(a).Some? && ReadIntersection(x).Some? && ReadType(y).Some?
    ensures ReadType(ts) ==
            Some(Union([All(ReadIntersection(a).value.parts + ReadIntersection(x).value.parts)]
                       + ReadType(y).value.members))
  {
    ReadAmp(a, x);
    ReadTypeCut(ts, ax, y);
  }

  /** A value in both types is in the type that `a & b` is read as: nothing is lost by the missing parentheses. */
  lemma {:induction false} SplicedKeepsBoth(types: (string, Json) -> bool, a: Type, b: Type, v: Json)
    requires a.members != [] && b.members != [] && InType(types, a, v) && InType(types, b, v)
    ensures InType(types, Spliced(a, b), v)
  {
    var last := |a.members| - 1;
    var i :| 0 <= i < |a.members| && InAll(types, a.members[i], v);
    var j :| 0 <= j < |b.members| && InAll(types, b.members[j], v);
    var s := Spliced(a, b);
    if i < last {
      assert s.members[i] == a.members[i];
    } else if j > 0 {
      assert s.members[last + j] == b.members[j];
    } else {
      var joined := All(a.members[last].parts + b.members[0].parts);
      assert s.members[last] == joined;
      forall n | 0 <= n < |joined.parts| ensures InAtom(types, joined.parts[n], v) {
        if n < |a.members[last].parts| {
          assert joined.parts[n] == a.members[last].parts[n];
        } else {
          assert joined.parts[n] == b.members[0].parts[n - |a.members[last].parts|];
        }
      }
      assert InAll(types, s.members[last], v);
    }
  }

  // ---- bracketed texts ----

  function Single(a: Atom): Type {
    Union([All([a])])
  }

  /** A text without separators at depth zero is read as one atom. */
  lemma {:induction false} ReadOneAtom(ts: Text)
    requires Scan(ts, Bar, 0) == |ts| && Scan(ts, Amp, 0) == |ts|
    ensures ReadType(ts) == if ReadPostfix(ts).Some? then Some(Single(ReadPostfix(ts).value)) else None
  {
    ReadTypeWhole(ts);
  }

  lemma {:induction false} ReadToken(t: Token)
    requires t.Word? || t.Lit? || t.Name?
    ensures IsType([t])
    ensures ReadType([t]) == Some(Single(match t
                                         case Word(k) => WordType(k)
                                         case Lit(value) => LitType(value)
                                         case _ => NamedType(t.name)))
  {
    assert [t][1..] == [];
    ReadOneAtom([t]);
    assert ReadPostfix([t]) == ReadAtom([t]);
  }

  /** Opening and closing a bracket around a type: nothing inside separates anything outside. */
  lemma {:induction false} Wrapped(open: Token, a: Text, close: Token)
    requires Balanced(a) && Delta(open) == 1 && Delta(close) == -1
    ensures var ts := [open] + a + [close];
            && Balanced(ts) && Scan(ts, Semi, 0) == |ts|
            && ts[0] == open && ts[|ts| - 1] == close && ts[1..|ts| - 1] == a
            && ReadType(ts) == if ReadAtom(ts).Some? then Some(Single(ReadAtom(ts).value)) else None
  {
    var ts := [open] + a + [close];
    BalancedWrap(open, a, close);
    ScanWrap(open, a, close, Semi);
    ScanWrap(open, a, close, Bar);
    ScanWrap(open, a, close, Amp);
    ReadOneAtom(ts);
    assert ReadPostfix(ts) == ReadAtom(ts);
  }

  lemma {:induction false} NothingBeforeABar(ts: Text)
    requires ts == [] || ts[0] == Bar
    ensures ReadType(ts).None?
  {
    assert ReadPostfix([]) == ReadAtom([]) == None;
    assert ReadIntersection([]) == None;
    if ts == [] {
      assert ReadType(ts) == OneMember(ReadIntersection(ts));
    } else {
      assert Scan(ts, Bar, 0) == 0 && ts[..0] == [];
    }
  }

  lemma {:induction false} TypesDoNotStartWithABar(ts: Text)
    requires ReadType(ts).Some?
    ensures ts != [] && ts[0] != Bar
  {
    if ts == [] || ts[0] == Bar {
      NothingBeforeABar(ts);
    }
  }

  lemma {:induction false} ReadArrayOf(a: Text)
    requires IsType(a)
    ensures var ts := [ArrayOpen] + a + [Close];
            IsType(ts) && ReadType(ts) == Some(Single(ArrayType(ReadType(a).value)))
  {
    TypesDoNotStartWithABar(a);
    Wrapped(ArrayOpen, a, Close);
  }

  /** `Array<` with every member on a line of its own. */
  lemma {:induction false} ReadBrokenArrayOf(a: Text)
    requires IsType(a)
    ensures var ts := [ArrayOpen] + ([Bar] + a) + [Close];
            IsType(ts) && ReadType(ts) == Some(Single(ArrayType(ReadType(a).value)))
  {
    assert ([Bar] + a)[1..] == a;
    assert Balanced([Bar] + a);
    Wrapped(ArrayOpen, [Bar] + a, Close);
  }

  lemma {:induction false} ReadRecordOf(a: Text)
    requires IsType(a)
    ensures var ts := [RecordOpen] + a + [Close];
            IsType(ts) && ReadType(ts) == Some(Single(RecordType(ReadType(a).value)))
  {
    TypesDoNotStartWithABar(a);
    Wrapped(RecordOpen, a, Close);
  }

  /** `T[]`, for a text that is one atom. */
  lemma {:induction false} ReadBrackets(a: Text)
    requires IsType(a) && Scan(a, Bar, 0) == |a| && Scan(a, Amp, 0) == |a|
    ensures IsType(a + [Brackets]) && ReadType(a + [Brackets]) == Some(Single(ArrayType(ReadType(a).value)))
  {
    var ts := a + [Brackets];
    ReadOneAtom(a);
    assert [Brackets] == [Brackets] + [];
    ScanCons(Brackets, [], Bar, 0);
    ScanCons(Brackets, [], Amp, 0);
    ScanCons(Brackets, [], Semi, 0);
    ScanPast(a, [Brackets], Bar, 0, 0);
    ScanPast(a, [Brackets], Amp, 0, 0);
    ScanPast(a, [Brackets], Semi, 0, 0);
    assert [Brackets][1..] == [];
    assert Balanced([Brackets]);
    BalancedAppend(a, [Brackets]);
    ReadOneAtom(ts);
    assert ts[..|ts| - 1] == a;
  }

  /** One more property in front of the others. */
  lemma {:induction false} ReadFieldsCons(name: string, optional: bool, a: Text, rest: Text)
    requires IsType(a) && ReadFields(rest).Some? && Balanced(rest)
    ensures var ts := [Prop(name, optional)] + a + [Semi] + rest;
            && Balanced(ts)
            && ReadFields(ts) == Some([Field(name, optional, ReadType(a).value)] + ReadFields(rest).value)
  {
    var head := [Prop(name, optional)] + a;
    var ts := head + [Semi] + rest;
    assert [Prop(name, optional)][1..] == [] && [Semi][1..] == [];
    BalancedAppend([Prop(name, optional)], a);
    BalancedAppend(head, [Semi]);
    BalancedAppend(head + [Semi], rest);
    ScanCons(Prop(name, optional), a, Semi, 0);
    ScanJoin(head, Semi, rest);
    ReadFieldsCut(ts, Prop(name, optional), a, rest);
  }

  function MoreFields(p: Token, t: Option<Type>, rest: Option<seq<Field>>): Option<seq<Field>>
    requires p.Prop?
  {
    if t.Some? && rest.Some? then Some([Field(p.prop, p.optional, t.value)] + rest.value) else None
  }

  lemma {:induction false} ReadFieldsCut(ts: Text, p: Token, a: Text, rest: Text)
    requires p.Prop? && |a| + 1 < |ts| && ts[0] == p && ts[1..|a| + 1] == a && ts[|a| + 2..] == rest
    requires Scan(ts, Semi, 0) == 1 + |a|
    ensures ReadFields(ts) == MoreFields(p, ReadType(a), ReadFields(rest))
  {
  }

  lemma {:induction false} ReadObject(body: Text)
    requires ReadFields(body).Some? && Balanced(body)
    ensures var ts := [BraceOpen] + body + [BraceClose];
            IsType(ts) && ReadType(ts) == Some(Single(ObjectType(ReadFields(body).value)))
  {
    Wrapped(BraceOpen, body, BraceClose);
  }

  // ---- unions and intersections as sets of values ----

  lemma {:induction false} SingleHolds(types: (string, Json) -> bool, a: Atom, v: Json)
    requires InAtom(types, a, v)
    ensures InType(types, Single(a), v)
  {
    assert InAll(types, Single(a).members[0], v);
  }

  lemma {:induction false} SingleOnlyHolds(types: (string, Json) -> bool, a: Atom, v: Json)
    requires InType(types, Single(a), v)
    ensures InAtom(types, a, v)
  {
    var i :| 0 <= i < |Single(a).members| && InAll(types, Single(a).members[i], v);
    assert InAtom(types, Single(a).members[i].parts[0], v);
  }

  /** `a | b` is a type, and its values are those of a and those of b. */
  lemma {:induction false} UnionIsType(types: (string, Json) -> bool, a: Text, b: Text)
    requires IsType(a) && IsType(b)
    ensures var ts := a + [Bar] + b;
            && IsType(ts)
            && (forall v :: InType(types, ReadType(ts).value, v) <==>
                  InType(types, ReadType(a).value, v) || InType(types, ReadType(b).value, v))
  {
    var ts := a + [Bar] + b;
    Separated(a, Bar, b);
    ReadUnion(a, b);
    var x, y := ReadType(a).value.members, ReadType(b).value.members;
    forall v
      ensures InType(types, Union(x + y), v) <==> InType(types, Union(x), v) || InType(types, Union(y), v)
    {
      if InType(types, Union(x), v) {
        var i :| 0 <= i < |x| && InAll(types, x[i], v);
        assert InAll(types, (x + y)[i], v);
      } else if InType(types, Union(y), v) {
        var i :| 0 <= i < |y| && InAll(types, y[i], v);
        assert InAll(types, (x + y)[|x| + i], v);
      }
    }
  }

  lemma {:induction false} Separated(a: Text, sep: Token, b: Text)
    requires Balanced(a) && Balanced(b) && Delta(sep) == 0 && sep != Semi
    requires Scan(a, Semi, 0) == |a| && Scan(b, Semi, 0) == |b|
    ensures var ts := a + [sep] + b; Balanced(ts) && Scan(ts, Semi, 0) == |ts|
  {
    assert [sep][1..] == [];
    BalancedAppend(a, [sep]);
    BalancedAppend(a + [sep], b);
    ScanCons(sep, b, Semi, 0);
    ScanPast(a, [sep] + b, Semi, 0, 0);
    assert a + [sep] + b == a + ([sep] + b);
  }

  /** `a & b`, printed without parentheses, is a type that holds every value in both. */
  lemma {:induction false} IntersectionIsType(types: (string, Json) -> bool, a: Text, b: Text)
    requires IsType(a) && IsType(b)
    ensures var ts := a + [Amp] + b;
            && IsType(ts)
            && (forall v :: InType(types, ReadType(a).value, v) && InType(types, ReadType(b).value, v) ==>
                  InType(types, ReadType(ts).value, v))
  {
    Separated(a, Amp, b);
    ReadSpliced(a, b);
    forall v | InType(types, ReadType(a).value, v) && InType(types, ReadType(b).value, v)
      ensures InType(types, ReadType(a + [Amp] + b).value, v)
    {
      SplicedKeepsBoth(types, ReadType(a).value, ReadType(b).value, v);
    }
  }
}
