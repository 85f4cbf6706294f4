/**
 * Canonical JSON: `canonicalJson` and `canonicalizeIdempotencyInput`, which are the same function.
 * Text is a sequence of UTF-16 code units, as in JavaScript; string syntax is that of section 7 of
 * RFC 8259. The result is exact: equal texts if and only if equal values.
 */
module CanonicalJson {
  type Unit = u: int | 0 <= u < 0x1_0000
  type Text = seq<Unit>

  /** JavaScript prints finite numbers injectively; a number is represented by that text. */
  type NumberText = t: Text | t != [] && forall i :: 0 <= i < |t| ==> IsNumberUnit(t[i]) witness [0x30]

  predicate IsNumberUnit(u: Unit) {
    0x30 <= u <= 0x39 || u == 0x2B || u == 0x2D || u == 0x2E || u == 0x65
  }

  /** Values as the program holds them: members in insertion order, and two things JSON cannot say. */
  datatype Json =
    | Null
    | Undefined
    | NotFinite
    | Bool(value: bool)
    | Number(digits: NumberText)
    | String(text: Text)
    | Array(items: Items)
    | Object(members: Members)

  datatype Items = NoItems | Item(head: Json, tail: Items)

  datatype Members = NoMembers | Member(key: Text, value: Json, rest: Members)

  /** JSON values as such: an object is a finite map, so member order is not part of it. */
  datatype Value =
    | NullValue
    | BoolValue(value: bool)
    | NumberValue(digits: NumberText)
    | StringValue(text: Text)
    | ArrayValue(elements: seq<Value>)
    | ObjectValue(fields: map<Text, Value>)

  function Meaning(v: Json): Value {
    match v
    case Null => NullValue
    case Undefined => NullValue
    case NotFinite => NullValue
    case Bool(b) => BoolValue(b)
    case Number(digits) => NumberValue(digits)
    case String(text) => StringValue(text)
    case Array(items) => ArrayValue(ItemMeanings(items))
    case Object(members) => ObjectValue(MemberMeanings(members))
  }

  function ItemMeanings(items: Items): seq<Value> {
    match items
    case NoItems => []
    case Item(head, tail) => [Meaning(head)] + ItemMeanings(tail)
  }

  function MemberMeanings(members: Members): map<Text, Value> {
    match members
    case NoMembers => map[]
    case Member(key, value, rest) => MemberMeanings(rest)[key := Meaning(value)]
  }

  function Keys(members: Members): set<Text> {
    match members
    case NoMembers => {}
    case Member(key, _, rest) => {key} + Keys(rest)
  }

  /** Every object names each key once, at every depth; JavaScript objects always do. */
  predicate UniqueKeys(v: Json) {
    match v
    case Array(items) => UniqueKeysInItems(items)
    case Object(members) => UniqueKeysInMembers(members)
    case _ => true
  }

  predicate UniqueKeysInItems(items: Items) {
    items.Item? ==> UniqueKeys(items.head) && UniqueKeysInItems(items.tail)
  }

  predicate UniqueKeysInMembers(members: Members) {
    members.Member? ==>
      UniqueKeys(members.value) && members.key !in Keys(members.rest) && UniqueKeysInMembers(members.rest)
  }

  // ---------------------------------------------------------------------------------------------
  // Printing
  // ---------------------------------------------------------------------------------------------

  const QUOTE: Unit := 0x22
  const COMMA: Unit := 0x2C
  const COLON: Unit := 0x3A
  const OPEN_BRACKET: Unit := 0x5B
  const BACKSLASH: Unit := 0x5C
  const CLOSE_BRACKET: Unit := 0x5D
  const OPEN_BRACE: Unit := 0x7B
  const CLOSE_BRACE: Unit := 0x7D

  function HexDigit(d: int): Unit
    requires 0 <= d < 16
  {
    if d < 10 then 0x30 + d else 0x61 + d - 10
  }

  predicate IsHighSurrogate(u: Unit) { 0xD800 <= u <= 0xDBFF }

  predicate IsLowSurrogate(u: Unit) { 0xDC00 <= u <= 0xDFFF }

  /** How one unit that is not half of a surrogate pair is written inside a string. */
  function EscapeUnit(u: Unit): Text {
    if u == 0x22 then [BACKSLASH, 0x22]
    else if u == 0x5C then [BACKSLASH, 0x5C]
    else if u == 0x08 then [BACKSLASH, 0x62]
    else if u == 0x0C then [BACKSLASH, 0x66]
    else if u == 0x0A then [BACKSLASH, 0x6E]
    else if u == 0x0D then [BACKSLASH, 0x72]
    else if u == 0x09 then [BACKSLASH, 0x74]
    else if u < 0x20 || IsHighSurrogate(u) || IsLowSurrogate(u) then
      [BACKSLASH, 0x75, HexDigit(u / 0x1000), HexDigit(u / 0x100 % 16), HexDigit(u / 16 % 16), HexDigit(u % 16)]
    else [u]
  }

  predicate StartsWithPair(s: Text) {
    |s| >= 2 && IsHighSurrogate(s[0]) && IsLowSurrogate(s[1])
  }

  function Escape(s: Text): Text {
    if s == [] then []
    else if StartsWithPair(s) then [s[0], s[1]] + Escape(s[2..])
    else EscapeUnit(s[0]) + Escape(s[1..])
  }

  function Quoted(s: Text): Text {
    [QUOTE] + Escape(s) + [QUOTE]
  }

  /** JavaScript's default order on strings: by code unit, a prefix first. */
  predicate Less(a: Text, b: Text) {
    b != [] && (a == [] || a[0] < b[0] || (a[0] == b[0] && Less(a[1..], b[1..])))
  }

  function Size(v: Json): nat {
    match v
    case Array(items) => 1 + SizeOfItems(items)
    case Object(members) => 1 + SizeOfMembers(members)
    case _ => 1
  }

  function SizeOfItems(items: Items): nat {
    match items
    case NoItems => 0
    case Item(head, tail) => 1 + Size(head) + SizeOfItems(tail)
  }

  function SizeOfMembers(members: Members): nat {
    match members
    case NoMembers => 0
    case Member(_, value, rest) => 1 + Size(value) + SizeOfMembers(rest)
  }

  function Insert(key: Text, value: Json, sorted: Members): (r: Members)
    ensures SizeOfMembers(r) == 1 + Size(value) + SizeOfMembers(sorted)
    ensures Keys(r) == {key} + Keys(sorted)
  {
    if sorted.NoMembers? || Less(key, sorted.key) then Member(key, value, sorted)
    else Member(sorted.key, sorted.value, Insert(key, value, sorted.rest))
  }

  function Sort(members: Members): (r: Members)
    ensures SizeOfMembers(r) == SizeOfMembers(members)
    ensures Keys(r) == Keys(members)
  {
    match members
    case NoMembers => NoMembers
    case Member(key, value, rest) => Insert(key, value, Sort(rest))
  }

  function Join(parts: seq<Text>): Text {
    if parts == [] then []
    else if |parts| == 1 then parts[0]
    else parts[0] + [COMMA] + Join(parts[1..])
  }

  function Canonical(v: Json): Text
    decreases Size(v), 0
  {
    match v
    case Null => [0x6E, 0x75, 0x6C, 0x6C]
    case Undefined => [0x6E, 0x75, 0x6C, 0x6C]
    case NotFinite => [0x6E, 0x75, 0x6C, 0x6C]
    case Bool(b) => if b then [0x74, 0x72, 0x75, 0x65] else [0x66, 0x61, 0x6C, 0x73, 0x65]
    case Number(digits) => digits
    case String(text) => Quoted(text)
    case Array(items) => [OPEN_BRACKET] + Join(CanonicalItems(items)) + [CLOSE_BRACKET]
    case Object(members) => [OPEN_BRACE] + Join(CanonicalMembers(Sort(members))) + [CLOSE_BRACE]
  }

  function CanonicalItems(items: Items): seq<Text>
    decreases SizeOfItems(items), 1
  {
    match items
    case NoItems => []
    case Item(head, tail) => [Canonical(head)] + CanonicalItems(tail)
  }

  function CanonicalMembers(members: Members): seq<Text>
    decreases SizeOfMembers(members), 1
  {
    match members
    case NoMembers => []
    case Member(key, value, rest) => [Quoted(key) + [COLON] + Canonical(value)] + CanonicalMembers(rest)
  }

  // ---------------------------------------------------------------------------------------------
  // Unique readability: what follows a value cannot be mistaken for part of it
  // ---------------------------------------------------------------------------------------------

  /** What may follow a value inside a text. */
  predicate Follows(r: Text) {
    r == [] || r[0] == COMMA || r[0] == CLOSE_BRACKET || r[0] == CLOSE_BRACE
  }

  lemma Cut(a: Text, b: Text, r: Text, q: Text)
    requires a + r == b + q && |a| == |b|
    ensures a == b && r == q
  {
    assert (a + r)[..|a|] == a && (b + q)[..|b|] == b;
    assert (a + r)[|a|..] == r && (b + q)[|b|..] == q;
  }

  lemma Regroup(a: Text, b: Text, c: Text, r: Text)
    ensures (a + b) + c + r == a + (b + c + r)
  {
  }

  lemma HexDigitsSpellUnit(u: Unit)
    ensures u == (((u / 0x1000) * 16 + u / 0x100 % 16) * 16 + u / 16 % 16) * 16 + u % 16
  {
    assert u / 16 / 16 == u / 0x100 && u / 0x100 / 16 == u / 0x1000;
  }

  predicate WrittenInHex(u: Unit) {
    |EscapeUnit(u)| == 6
  }

  lemma HexDigitsDiffer(a: int, b: int)
    requires 0 <= a < 16 && 0 <= b < 16 && HexDigit(a) == HexDigit(b)
    ensures a == b
  {
  }

  lemma HexEscape(u: Unit)
    requires WrittenInHex(u)
    ensures EscapeUnit(u)[2] == HexDigit(u / 0x1000) && EscapeUnit(u)[3] == HexDigit(u / 0x100 % 16)
    ensures EscapeUnit(u)[4] == HexDigit(u / 16 % 16) && EscapeUnit(u)[5] == HexDigit(u % 16)
  {
  }

  lemma HexEscapesDiffer(u: Unit, w: Unit)
    requires WrittenInHex(u) && WrittenInHex(w) && EscapeUnit(u) == EscapeUnit(w)
    ensures u == w
  {
    hide EscapeUnit, HexDigit;
    HexEscape(u);
    HexEscape(w);
    HexDigitsDiffer(u / 0x1000, w / 0x1000);
    HexDigitsDiffer(u / 0x100 % 16, w / 0x100 % 16);
    HexDigitsDiffer(u / 16 % 16, w / 16 % 16);
    HexDigitsDiffer(u % 16, w % 16);
    HexDigitsSpellUnit(u);
    HexDigitsSpellUnit(w);
  }

  lemma ShortEscapesDiffer(u: Unit, w: Unit)
    requires !WrittenInHex(u) && !WrittenInHex(w) && EscapeUnit(u) == EscapeUnit(w)
    ensures u == w
  {
    var a, b := EscapeUnit(u), EscapeUnit(w);
    assert a[0] == b[0] && (|a| == 2 ==> a[1] == b[1]);
  }

  lemma EscapeLength(u: Unit)
    ensures var a := EscapeUnit(u);
      && (|a| == 1 || |a| == 2 || |a| == 6)
      && (|a| == 1 <==> a[0] != BACKSLASH)
      && (|a| == 6 ==> a[1] == 0x75)
      && (|a| == 2 ==> a[1] != 0x75)
  {
  }

  lemma SameLength(u: Unit, w: Unit, r: Text, q: Text)
    requires EscapeUnit(u) + r == EscapeUnit(w) + q
    ensures |EscapeUnit(u)| == |EscapeUnit(w)|
  {
    EscapeLength(u);
    EscapeLength(w);
    hide EscapeUnit;
    var a, b := EscapeUnit(u), EscapeUnit(w);
    assert (a + r)[0] == a[0] && (b + q)[0] == b[0];
    if a[0] == BACKSLASH {
      assert (a + r)[1] == a[1] && (b + q)[1] == b[1];
    }
  }

  lemma EscapedUnitsAreDistinct(u: Unit, w: Unit, r: Text, q: Text)
    requires EscapeUnit(u) + r == EscapeUnit(w) + q
    ensures u == w && r == q
  {
    hide EscapeUnit;
    SameLength(u, w, r, q);
    Cut(EscapeUnit(u), EscapeUnit(w), r, q);
    if WrittenInHex(u) {
      HexEscapesDiffer(u, w);
    } else {
      ShortEscapesDiffer(u, w);
    }
  }

  /** The first unit of an escaped string is never the closing quote, and shows a surrogate pair. */
  lemma EscapeHead(s: Text)
    requires s != []
    ensures Escape(s) != [] && Escape(s)[0] != QUOTE
    ensures StartsWithPair(s) <==> IsHighSurrogate(Escape(s)[0])
    ensures StartsWithPair(s) ==> Escape(s) == s[..2] + Escape(s[2..])
    ensures !StartsWithPair(s) ==> Escape(s) == EscapeUnit(s[0]) + Escape(s[1..])
  {
  }

  /** The rest of a quoted string and what follows it. */
  function Closed(s: Text, r: Text): Text {
    Escape(s) + [QUOTE] + r
  }

  /** A string read back one step: its first token, then the rest. */
  lemma ClosedStep(s: Text, r: Text)
    requires s != []
    ensures Closed(s, r) != [] && Closed(s, r)[0] != QUOTE
    ensures IsHighSurrogate(Closed(s, r)[0]) <==> StartsWithPair(s)
    ensures StartsWithPair(s) ==> Closed(s, r) == s[..2] + Closed(s[2..], r)
    ensures !StartsWithPair(s) ==> Closed(s, r) == EscapeUnit(s[0]) + Closed(s[1..], r)
  {
    EscapeHead(s);
    hide Escape, EscapeUnit;
    assert Closed(s, r)[0] == Escape(s)[0];
    if StartsWithPair(s) {
      Regroup(s[..2], Escape(s[2..]), [QUOTE], r);
    } else {
      Regroup(EscapeUnit(s[0]), Escape(s[1..]), [QUOTE], r);
    }
  }

  lemma PairReadsBack(s: Text, t: Text, r: Text, q: Text)
    requires Closed(s, r) == Closed(t, q) && StartsWithPair(s) && t != []
    ensures |t| >= 2 && s[..2] == t[..2] && Closed(s[2..], r) == Closed(t[2..], q)
  {
    hide Closed;
    ClosedStep(s, r);
    ClosedStep(t, q);
    Cut(s[..2], t[..2], Closed(s[2..], r), Closed(t[2..], q));
  }

  lemma UnitReadsBack(s: Text, t: Text, r: Text, q: Text)
    requires Closed(s, r) == Closed(t, q) && s != [] && t != [] && !StartsWithPair(s)
    ensures s[0] == t[0] && Closed(s[1..], r) == Closed(t[1..], q)
  {
    hide Closed;
    ClosedStep(s, r);
    ClosedStep(t, q);
    EscapedUnitsAreDistinct(s[0], t[0], Closed(s[1..], r), Closed(t[1..], q));
  }

  lemma ClosedHead(s: Text, r: Text)
    ensures (s == [] <==> Closed(s, r)[0] == QUOTE) && (s == [] ==> Closed(s, r)[1..] == r)
  {
    if s != [] {
      ClosedStep(s, r);
    }
  }

  lemma {:induction false} EscapesReadBack(s: Text, t: Text, r: Text, q: Text)
    requires Closed(s, r) == Closed(t, q)
    ensures s == t && r == q
    decreases |s|
  {
    ClosedHead(s, r);
    ClosedHead(t, q);
    if s == [] {
    } else if StartsWithPair(s) {
      PairReadsBack(s, t, r, q);
      EscapesReadBack(s[2..], t[2..], r, q);
      assert s == s[..2] + s[2..] && t == t[..2] + t[2..];
    } else {
      UnitReadsBack(s, t, r, q);
      EscapesReadBack(s[1..], t[1..], r, q);
      assert s == [s[0]] + s[1..] && t == [t[0]] + t[1..];
    }
  }

  lemma QuotedReadsBack(s: Text, t: Text, r: Text, q: Text)
    requires Quoted(s) + r == Quoted(t) + q
    ensures s == t && r == q
  {
    assert (Quoted(s) + r)[1..] == Closed(s, r);
    assert (Quoted(t) + q)[1..] == Closed(t, q);
    EscapesReadBack(s, t, r, q);
  }

  lemma NumberEndsBefore(a: NumberText, b: NumberText, r: Text, q: Text)
    requires a + r == b + q && Follows(r)
    ensures |a| >= |b|
  {
    var text := a + r;
    assert forall i :: 0 <= i < |b| ==> text[i] == b[i];
    assert |a| < |text| ==> text[|a|] == r[0];
  }

  lemma NumbersReadBack(a: NumberText, b: NumberText, r: Text, q: Text)
    requires a + r == b + q && Follows(r) && Follows(q)
    ensures a == b && r == q
  {
    NumberEndsBefore(a, b, r, q);
    NumberEndsBefore(b, a, q, r);
    Cut(a, b, r, q);
  }

  /** The first unit tells which kind of value is being read. */
  function Kind(v: Json): nat {
    match v
    case Null => 0
    case Undefined => 0
    case NotFinite => 0
    case Bool(b) => if b then 1 else 2
    case Number(_) => 3
    case String(_) => 4
    case Array(_) => 5
    case Object(_) => 6
  }

  function KindOfUnit(u: Unit): nat {
    if u == 0x6E then 0
    else if u == 0x74 then 1
    else if u == 0x66 then 2
    else if IsNumberUnit(u) then 3
    else if u == QUOTE then 4
    else if u == OPEN_BRACKET then 5
    else if u == OPEN_BRACE then 6
    else 7
  }

  lemma FirstUnitTellsKind(v: Json)
    ensures Canonical(v) != [] && KindOfUnit(Canonical(v)[0]) == Kind(v)
  {
  }

  /** `Join(parts) + [close] + r` cut after its first part. */
  function AfterFirst(parts: seq<Text>, close: Unit, r: Text): Text
    requires parts != []
  {
    if |parts| == 1 then [close] + r else [COMMA] + Join(parts[1..]) + [close] + r
  }

  lemma SplitFirst(parts: seq<Text>, close: Unit, r: Text)
    requires parts != []
    ensures Join(parts) + [close] + r == parts[0] + AfterFirst(parts, close, r)
  {
  }

  lemma Unwrap(open: Unit, body: Text, close: Unit, r: Text)
    ensures ([open] + body + [close] + r)[1..] == body + [close] + r
  {
  }

  /** Same kind, same text, same continuation: same value. */
  lemma {:induction false} ValuesReadBack(v: Json, w: Json, r: Text, q: Text)
    requires UniqueKeys(v) && UniqueKeys(w)
    requires Canonical(v) + r == Canonical(w) + q && Follows(r) && Follows(q)
    ensures Meaning(v) == Meaning(w) && r == q
    decreases Size(v), 0
  {
    FirstUnitTellsKind(v);
    FirstUnitTellsKind(w);
    assert (Canonical(v) + r)[0] == Canonical(v)[0] && (Canonical(w) + q)[0] == Canonical(w)[0];
    assert Kind(v) == Kind(w);
    match v
    case Number(digits) => NumbersReadBack(digits, w.digits, r, q);
    case String(text) => QuotedReadsBack(text, w.text, r, q);
    case Array(items) =>
      Unwrap(OPEN_BRACKET, Join(CanonicalItems(items)), CLOSE_BRACKET, r);
      Unwrap(OPEN_BRACKET, Join(CanonicalItems(w.items)), CLOSE_BRACKET, q);
      ItemsReadBack(items, w.items, r, q);
    case Object(members) =>
      ObjectsReadBack(members, w.members, r, q);
    case _ =>
      Cut(Canonical(v), Canonical(w), r, q);
  }

  lemma {:induction false} ObjectsReadBack(a: Members, b: Members, r: Text, q: Text)
    requires UniqueKeysInMembers(a) && UniqueKeysInMembers(b)
    requires [OPEN_BRACE] + Join(CanonicalMembers(Sort(a))) + [CLOSE_BRACE] + r
             == [OPEN_BRACE] + Join(CanonicalMembers(Sort(b))) + [CLOSE_BRACE] + q
    ensures MemberMeanings(a) == MemberMeanings(b) && r == q
    decreases SizeOfMembers(a), 2
  {
    Unwrap(OPEN_BRACE, Join(CanonicalMembers(Sort(a))), CLOSE_BRACE, r);
    Unwrap(OPEN_BRACE, Join(CanonicalMembers(Sort(b))), CLOSE_BRACE, q);
    SortKeepsMeaning(a);
    SortKeepsMeaning(b);
    MembersReadBack(Sort(a), Sort(b), r, q);
  }

  /** Once the first parts agree, so do the rests, and the lists end together. */
  lemma RestFollows(first: seq<Text>, second: seq<Text>, close: Unit, r: Text, q: Text)
    requires first != [] && second != [] && close != COMMA
    requires AfterFirst(first, close, r) == AfterFirst(second, close, q)
    ensures |first| == 1 <==> |second| == 1
    ensures |first| == 1 ==> r == q
    ensures |first| > 1 ==> Join(first[1..]) + [close] + r == Join(second[1..]) + [close] + q
  {
    hide Join;
    var s, t := AfterFirst(first, close, r), AfterFirst(second, close, q);
    assert s[0] == t[0];
    if |first| == 1 {
      assert s[1..] == r && t[1..] == q;
    } else {
      assert s[1..] == Join(first[1..]) + [close] + r && t[1..] == Join(second[1..]) + [close] + q;
    }
  }

  lemma FirstItem(a: Items, r: Text)
    requires a.Item?
    ensures Join(CanonicalItems(a)) + [CLOSE_BRACKET] + r
            == Canonical(a.head) + AfterFirst(CanonicalItems(a), CLOSE_BRACKET, r)
    ensures (Join(CanonicalItems(a)) + [CLOSE_BRACKET] + r)[0] != CLOSE_BRACKET
  {
    SplitFirst(CanonicalItems(a), CLOSE_BRACKET, r);
    FirstUnitTellsKind(a.head);
    assert (Canonical(a.head) + AfterFirst(CanonicalItems(a), CLOSE_BRACKET, r))[0] == Canonical(a.head)[0];
  }

  lemma {:induction false} ItemsReadBack(a: Items, b: Items, r: Text, q: Text)
    requires UniqueKeysInItems(a) && UniqueKeysInItems(b)
    requires Join(CanonicalItems(a)) + [CLOSE_BRACKET] + r == Join(CanonicalItems(b)) + [CLOSE_BRACKET] + q
    ensures ItemMeanings(a) == ItemMeanings(b) && r == q
    decreases SizeOfItems(a), 1
  {
    var left, right := Join(CanonicalItems(a)) + [CLOSE_BRACKET] + r, Join(CanonicalItems(b)) + [CLOSE_BRACKET] + q;
    if a.Item? {
      FirstItem(a, r);
    }
    if b.Item? {
      FirstItem(b, q);
    }
    if a.NoItems? && b.NoItems? {
      assert left[1..] == r && right[1..] == q;
    } else if a.NoItems? || b.NoItems? {
      assert false;
    } else {
      var first, second := CanonicalItems(a), CanonicalItems(b);
      hide Join, Canonical;
      ValuesReadBack(a.head, b.head, AfterFirst(first, CLOSE_BRACKET, r), AfterFirst(second, CLOSE_BRACKET, q));
      RestFollows(first, second, CLOSE_BRACKET, r, q);
      assert first[1..] == CanonicalItems(a.tail) && second[1..] == CanonicalItems(b.tail);
      if a.tail.Item? {
        ItemsReadBack(a.tail, b.tail, r, q);
      }
    }
  }

  lemma {:induction false} MembersReadBack(a: Members, b: Members, r: Text, q: Text)
    requires UniqueKeysInMembers(a) && UniqueKeysInMembers(b)
    requires Join(CanonicalMembers(a)) + [CLOSE_BRACE] + r == Join(CanonicalMembers(b)) + [CLOSE_BRACE] + q
    ensures MemberMeanings(a) == MemberMeanings(b) && r == q
    decreases SizeOfMembers(a), 1
  {
    var left, right := Join(CanonicalMembers(a)) + [CLOSE_BRACE] + r, Join(CanonicalMembers(b)) + [CLOSE_BRACE] + q;
    if a.Member? {
      FirstMember(a, r);
      assert left[0] == QUOTE;
    }
    if b.Member? {
      FirstMember(b, q);
      assert right[0] == QUOTE;
    }
    if a.NoMembers? && b.NoMembers? {
      assert left[1..] == r && right[1..] == q;
    } else if a.NoMembers? || b.NoMembers? {
      assert false;
    } else {
      var s, t := AfterFirst(CanonicalMembers(a), CLOSE_BRACE, r), AfterFirst(CanonicalMembers(b), CLOSE_BRACE, q);
      OneMemberReadsBack(a, b, s, t);
      RestFollows(CanonicalMembers(a), CanonicalMembers(b), CLOSE_BRACE, r, q);
      assert CanonicalMembers(a)[1..] == CanonicalMembers(a.rest) && CanonicalMembers(b)[1..] == CanonicalMembers(b.rest);
      if a.rest.Member? {
        MembersReadBack(a.rest, b.rest, r, q);
      }
    }
  }

  lemma FirstMember(a: Members, r: Text)
    requires a.Member?
    ensures Join(CanonicalMembers(a)) + [CLOSE_BRACE] + r
            == Quoted(a.key) + ([COLON] + Canonical(a.value) + AfterFirst(CanonicalMembers(a), CLOSE_BRACE, r))
  {
    SplitFirst(CanonicalMembers(a), CLOSE_BRACE, r);
  }

  lemma {:induction false} OneMemberReadsBack(a: Members, b: Members, s: Text, t: Text)
    requires a.Member? && b.Member? && UniqueKeysInMembers(a) && UniqueKeysInMembers(b) && Follows(s) && Follows(t)
    requires Quoted(a.key) + ([COLON] + Canonical(a.value) + s) == Quoted(b.key) + ([COLON] + Canonical(b.value) + t)
    ensures a.key == b.key && Meaning(a.value) == Meaning(b.value) && s == t
    decreases SizeOfMembers(a), 0
  {
    QuotedReadsBack(a.key, b.key, [COLON] + Canonical(a.value) + s, [COLON] + Canonical(b.value) + t);
    assert ([COLON] + Canonical(a.value) + s)[1..] == Canonical(a.value) + s;
    assert ([COLON] + Canonical(b.value) + t)[1..] == Canonical(b.value) + t;
    ValuesReadBack(a.value, b.value, s, t);
  }

  // ---------------------------------------------------------------------------------------------
  // Sorting
  // ---------------------------------------------------------------------------------------------

  lemma {:induction false} LessIsTransitive(a: Text, b: Text, c: Text)
    requires Less(a, b) && Less(b, c)
    ensures Less(a, c)
    decreases |a|
  {
    if a != [] && a[0] == b[0] && b[0] == c[0] {
      LessIsTransitive(a[1..], b[1..], c[1..]);
    }
  }

  lemma {:induction false} LessIsTotal(a: Text, b: Text)
    ensures Less(a, b) || a == b || Less(b, a)
    ensures !(Less(a, b) && Less(b, a)) && !Less(a, a)
    decreases |a|
  {
    if a != [] && b != [] && a[0] == b[0] {
      LessIsTotal(a[1..], b[1..]);
      assert a == [a[0]] + a[1..] && b == [b[0]] + b[1..];
    }
    if a != [] {
      LessIsTotal(a[1..], a[1..]);
    }
  }

  /** Keys strictly ascending. */
  predicate Ascending(members: Members) {
    members.Member? ==> Ascending(members.rest) && forall k :: k in Keys(members.rest) ==> Less(members.key, k)
  }

  lemma InsertFirst(key: Text, value: Json, sorted: Members)
    requires key !in Keys(sorted) && UniqueKeys(value) && UniqueKeysInMembers(sorted) && Ascending(sorted)
    requires sorted.Member? ==> Less(key, sorted.key)
    ensures UniqueKeysInMembers(Member(key, value, sorted)) && Ascending(Member(key, value, sorted))
  {
    forall k | k in Keys(sorted)
      ensures Less(key, k)
    {
      if k != sorted.key {
        LessIsTransitive(key, sorted.key, k);
      }
    }
  }

  lemma {:induction false} InsertMeaning(key: Text, value: Json, sorted: Members)
    requires key !in Keys(sorted)
    ensures MemberMeanings(Insert(key, value, sorted)) == MemberMeanings(sorted)[key := Meaning(value)]
  {
    if sorted.Member? && !Less(key, sorted.key) {
      InsertMeaning(key, value, sorted.rest);
      assert key != sorted.key;
    }
  }

  lemma {:induction false} InsertKeeps(key: Text, value: Json, sorted: Members)
    requires key !in Keys(sorted) && UniqueKeys(value) && UniqueKeysInMembers(sorted) && Ascending(sorted)
    ensures UniqueKeysInMembers(Insert(key, value, sorted)) && Ascending(Insert(key, value, sorted))
  {
    if sorted.NoMembers? || Less(key, sorted.key) {
      InsertFirst(key, value, sorted);
    } else {
      LessIsTotal(key, sorted.key);
      InsertKeeps(key, value, sorted.rest);
    }
  }

  lemma {:induction false} SortKeepsMeaning(members: Members)
    requires UniqueKeysInMembers(members)
    ensures UniqueKeysInMembers(Sort(members)) && Ascending(Sort(members))
    ensures MemberMeanings(Sort(members)) == MemberMeanings(members)
  {
    if members.Member? {
      SortKeepsMeaning(members.rest);
      InsertKeeps(members.key, members.value, Sort(members.rest));
      InsertMeaning(members.key, members.value, Sort(members.rest));
    }
  }

  lemma {:induction false} MeaningKeys(members: Members)
    ensures MemberMeanings(members).Keys == Keys(members)
  {
    if members.Member? {
      MeaningKeys(members.rest);
    }
  }

  // ---------------------------------------------------------------------------------------------
  // Equal values print equally
  // ---------------------------------------------------------------------------------------------

  lemma {:induction false} EqualValuesPrintEqually(v: Json, w: Json)
    requires UniqueKeys(v) && UniqueKeys(w) && Meaning(v) == Meaning(w)
    ensures Canonical(v) == Canonical(w)
    decreases Size(v), 0
  {
    match v
    case Array(items) => EqualItemsPrintEqually(items, w.items);
    case Object(members) =>
      SortKeepsMeaning(members);
      SortKeepsMeaning(w.members);
      EqualMembersPrintEqually(Sort(members), Sort(w.members));
    case _ =>
  }

  lemma {:induction false} EqualItemsPrintEqually(a: Items, b: Items)
    requires UniqueKeysInItems(a) && UniqueKeysInItems(b) && ItemMeanings(a) == ItemMeanings(b)
    ensures CanonicalItems(a) == CanonicalItems(b)
    decreases SizeOfItems(a), 1
  {
    if a.Item? && b.Item? {
      assert ItemMeanings(a)[0] == Meaning(a.head) && ItemMeanings(b)[0] == Meaning(b.head);
      assert ItemMeanings(a)[1..] == ItemMeanings(a.tail) && ItemMeanings(b)[1..] == ItemMeanings(b.tail);
      EqualValuesPrintEqually(a.head, b.head);
      EqualItemsPrintEqually(a.tail, b.tail);
    }
  }

  lemma {:induction false} EqualMembersPrintEqually(a: Members, b: Members)
    requires UniqueKeysInMembers(a) && UniqueKeysInMembers(b) && Ascending(a) && Ascending(b)
    requires MemberMeanings(a) == MemberMeanings(b)
    ensures CanonicalMembers(a) == CanonicalMembers(b)
    decreases SizeOfMembers(a), 1
  {
    MeaningKeys(a);
    MeaningKeys(b);
    if a.Member? && b.Member? {
      LessIsTotal(a.key, b.key);
      assert a.key in Keys(b) && b.key in Keys(a);
      assert a.key == b.key;
      assert MemberMeanings(a)[a.key] == Meaning(a.value) && MemberMeanings(b)[a.key] == Meaning(b.value);
      MeaningKeys(a.rest);
      MeaningKeys(b.rest);
      assert MemberMeanings(a.rest) == MemberMeanings(a) - {a.key};
      assert MemberMeanings(b.rest) == MemberMeanings(b) - {a.key};
      EqualValuesPrintEqually(a.value, b.value);
      EqualMembersPrintEqually(a.rest, b.rest);
    } else if a.Member? || b.Member? {
      assert false;
    }
  }

  /**
   * Canonical text is exact: two values print to the same text if and only if they are the same JSON
   * value, where member order does not count and undefined or non-finite values count as null.
   */
  lemma CanonicalIsExact(v: Json, w: Json)
    requires UniqueKeys(v) && UniqueKeys(w)
    ensures Canonical(v) == Canonical(w) <==> Meaning(v) == Meaning(w)
  {
    if Canonical(v) == Canonical(w) {
      assert Canonical(v) + [] == Canonical(w) + [];
      ValuesReadBack(v, w, [], []);
    }
    if Meaning(v) == Meaning(w) {
      EqualValuesPrintEqually(v, w);
    }
  }
}
