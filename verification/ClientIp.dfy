/**
 * Client addresses: the IPv4 and IPv6 parsers, and the rate-limit key. What the parser accepts is
 * compared with the text forms of section 2.2 of RFC 4291, and the key with address blocks.
 */
module ClientIp {
  import opened Wrappers
  import opened Texts

  type Byte = b: nat | b < 0x100

  // ---------------------------------------------------------------------------------------------
  // IPv4
  // ---------------------------------------------------------------------------------------------

  /** A decimal octet as `isIPv4` accepts it: no leading zero, at most 255. */
  predicate IsOctet(t: string) {
    1 <= |t| <= 3 && AllDigits(t, 10) && (t[0] == '0' ==> |t| == 1) && Read(t, 10) < 0x100
  }

  predicate AllOctets(parts: seq<string>) {
    forall p :: p in parts ==> IsOctet(p)
  }

  function OctetValue(t: string): Byte
    requires IsOctet(t)
  {
    Read(t, 10)
  }

  function Octets(parts: seq<string>): (bytes: seq<Byte>)
    requires AllOctets(parts)
    ensures |bytes| == |parts|
  {
    if parts == [] then [] else [OctetValue(parts[0])] + Octets(parts[1..])
  }

  function ParseIpv4(t: string): (r: Option<seq<Byte>>)
    ensures r.Some? ==> |r.value| == 4
  {
    var parts := Split(t, '.');
    if |parts| == 4 && AllOctets(parts) then Some(Octets(parts)) else None
  }

  function Printed(bytes: seq<Byte>): (parts: seq<string>)
    ensures |parts| == |bytes|
  {
    if bytes == [] then [] else [Print(bytes[0], 10)] + Printed(bytes[1..])
  }

  function Quad(bytes: seq<Byte>): string {
    Join(Printed(bytes), '.')
  }

  // ---------------------------------------------------------------------------------------------
  // IPv6, as the program parses it
  // ---------------------------------------------------------------------------------------------

  predicate IsHextet(t: string) {
    1 <= |t| <= 4 && AllDigits(t, 16)
  }

  predicate AllHextets(groups: seq<string>) {
    forall g :: g in groups ==> IsHextet(g)
  }

  function HextetValue(t: string): nat
    requires IsHextet(t)
  {
    Read(t, 16)
  }

  /** The text before the zone index, if there is one. */
  function Zoneless(s: string): string {
    if s == "" || s[0] == '%' then "" else [s[0]] + Zoneless(s[1..])
  }

  /** Everything up to and including the last colon. */
  function Head(s: string): string {
    if s == "" then "" else if s[|s| - 1] == ':' then s else Head(s[..|s| - 1])
  }

  /** Everything after the last colon. */
  function Tail(s: string): string {
    if s == "" || s[|s| - 1] == ':' then "" else Tail(s[..|s| - 1]) + [s[|s| - 1]]
  }

  /** `split('::')`: pairs of colons are taken from left to right and do not overlap. */
  function Halves(s: string): (halves: seq<string>)
    ensures halves != []
  {
    if |s| < 2 then [s]
    else if s[0] == ':' && s[1] == ':' then [""] + Halves(s[2..])
    else Prepend(s[0], Halves(s[1..]))
  }

  function Groups(half: string): seq<string> {
    if half == "" then [] else Split(half, ':')
  }

  function Zeros(n: nat): seq<string> {
    seq(n, _ => "0")
  }

  /** The eight groups of a text without zone or dotted quad, if its colons make eight. */
  function EightGroups(value: string): Option<seq<string>> {
    var halves := Halves(value);
    if |halves| == 1 then
      if |Split(value, ':')| == 8 then Some(Split(value, ':')) else None
    else if |halves| == 2 then
      var left, right := Groups(halves[0]), Groups(halves[1]);
      if |left| + |right| > 7 then None else Some(left + Zeros(8 - |left| - |right|) + right)
    else None
  }

  function High(word: nat): Byte { word / 0x100 % 0x100 }

  function Low(word: nat): Byte { word % 0x100 }

  function WordBytes(groups: seq<string>): (bytes: seq<Byte>)
    requires AllHextets(groups)
    ensures |bytes| == 2 * |groups|
  {
    if groups == [] then []
    else [High(HextetValue(groups[0])), Low(HextetValue(groups[0]))] + WordBytes(groups[1..])
  }

  function Word(high: nat, low: nat): nat { high * 0x100 + low }

  /** A dotted quad as the two hextets that replace it. */
  function QuadHextets(bytes: seq<Byte>): seq<string>
    requires |bytes| == 4
  {
    [Print(Word(bytes[0], bytes[1]), 16), Print(Word(bytes[2], bytes[3]), 16)]
  }

  /** The text with a trailing dotted quad rewritten; `None` when the tail has a dot but is no quad. */
  function Rewritten(value: string): Option<string> {
    if '.' in Tail(value) then
      match ParseIpv4(Tail(value))
      case None => None
      case Some(quad) => Some(Head(value) + Join(QuadHextets(quad), ':'))
    else Some(value)
  }

  function ParseGroups(value: string): Option<seq<Byte>> {
    match EightGroups(value)
    case None => None
    case Some(groups) => if AllHextets(groups) then Some(WordBytes(groups)) else None
  }

  function ParseIpv6(input: string): Option<seq<Byte>> {
    match Rewritten(Zoneless(input))
    case None => None
    case Some(value) => ParseGroups(value)
  }

  // ---------------------------------------------------------------------------------------------
  // The text forms of section 2.2 of RFC 4291
  // ---------------------------------------------------------------------------------------------

  /**
   * Hextets, written out in full (`right` is absent) or with one run of zeros elided between `left`
   * and `right`; the last 32 bits may be a dotted quad.
   */
  datatype Form = Form(left: seq<string>, right: Option<seq<string>>, quad: Option<seq<Byte>>)

  function QuadGroups(f: Form): nat {
    if f.quad.Some? then 2 else 0
  }

  predicate Legal(f: Form) {
    && AllHextets(f.left)
    && (f.quad.Some? ==> |f.quad.value| == 4)
    && match f.right
       case None => |f.left| + QuadGroups(f) == 8
       case Some(right) => AllHextets(right) && |f.left| + |right| + QuadGroups(f) <= 7
  }

  function LastGroup(f: Form): seq<string> {
    if f.quad.Some? then [Quad(f.quad.value)] else []
  }

  function TextOf(f: Form): string {
    match f.right
    case None => Join(f.left + LastGroup(f), ':')
    case Some(right) => Join(f.left, ':') + "::" + Join(right + LastGroup(f), ':')
  }

  function Nulls(n: nat): seq<Byte> {
    seq(n, _ => 0)
  }

  /** The sixteen bytes a form denotes. */
  function BytesOf(f: Form): seq<Byte>
    requires Legal(f)
  {
    var zeros := if f.right.Some? then 8 - |f.left| - |f.right.value| - QuadGroups(f) else 0;
    WordBytes(f.left) + Nulls(2 * zeros)
    + (if f.right.Some? then WordBytes(f.right.value) else [])
    + (if f.quad.Some? then f.quad.value else [])
  }

  ghost predicate Denotes(text: string, bytes: seq<Byte>) {
    exists f :: Legal(f) && TextOf(f) == text && BytesOf(f) == bytes
  }

  // ---------------------------------------------------------------------------------------------
  // Dotted quads are exact
  // ---------------------------------------------------------------------------------------------

  lemma {:induction false} PrintLeads(n: nat, base: nat)
    requires IsBase(base)
    ensures Print(n, base)[0] == '0' <==> n == 0
    decreases n
  {
    Divided(n, base);
    if n >= base {
      PrintLeads(n / base, base);
      assert Print(n, base)[0] == Print(n / base, base)[0];
    }
  }

  lemma {:induction false} ReadIsPositive(t: string)
    requires t != "" && AllDigits(t, 10) && t[0] != '0'
    ensures Read(t, 10) > 0
    decreases |t|
  {
    var h := t[..|t| - 1];
    if h != "" {
      assert h[0] == t[0];
      ReadIsPositive(h);
    }
  }

  /** Decimal text without leading zeros is what its value prints as. */
  lemma {:induction false} PrintOfRead(t: string)
    requires t != "" && AllDigits(t, 10) && (t[0] == '0' ==> |t| == 1)
    ensures Print(Read(t, 10), 10) == t
    decreases |t|
  {
    var h, d := t[..|t| - 1], t[|t| - 1];
    assert d in t;
    var v := DigitValue(d);
    assert Digit(v) == d;
    if h == "" {
      ReadOfNothing(10);
      assert Read(t, 10) == v;
      assert t == [d];
    } else {
      assert h[0] == t[0];
      ReadIsPositive(h);
      PrintOfRead(h);
      var n := Read(h, 10) * 10 + v;
      assert Read(t, 10) == n && n / 10 == Read(h, 10) && n % 10 == v;
      assert t == h + [d];
    }
  }

  lemma ByteIsOctet(b: Byte)
    ensures IsOctet(Print(b, 10)) && OctetValue(Print(b, 10)) == b
  {
    ReadOfPrint(b, 10);
    assert Power(10, 3) == 1000 by { assert Power(10, 0) == 1 && Power(10, 1) == 10 && Power(10, 2) == 100; }
    PrintLength(b, 10, 3, 1000);
    PrintLeads(b, 10);
  }

  /** No digit is one of the punctuation marks addresses use. */
  predicate IsMark(c: char) { c == '.' || c == ':' || c == '%' || c == '/' }

  lemma DigitsAreNoMarks(t: string, base: nat, mark: char)
    requires AllDigits(t, base) && IsMark(mark)
    ensures mark !in t
  {
  }

  lemma {:induction false} PrintedAreOctets(bytes: seq<Byte>)
    ensures AllOctets(Printed(bytes)) && Octets(Printed(bytes)) == bytes
  {
    if bytes != [] {
      ByteIsOctet(bytes[0]);
      PrintedAreOctets(bytes[1..]);
    }
  }

  lemma {:induction false} OctetsArePrinted(parts: seq<string>)
    requires AllOctets(parts)
    ensures Printed(Octets(parts)) == parts
  {
    if parts != [] {
      assert parts[0] in parts && IsOctet(parts[0]);
      PrintOfRead(parts[0]);
      OctetsArePrinted(parts[1..]);
    }
  }

  lemma OctetsAreFree(parts: seq<string>, mark: char)
    requires AllOctets(parts) && IsMark(mark)
    ensures Free(parts, mark)
  {
    forall p | p in parts
      ensures mark !in p
    {
      DigitsAreNoMarks(p, 10, mark);
    }
  }

  /** The quad parser accepts exactly the canonical text of each four bytes. */
  lemma Ipv4IsExact(t: string, bytes: seq<Byte>)
    requires |bytes| == 4
    ensures ParseIpv4(t) == Some(bytes) <==> t == Quad(bytes)
  {
    if t == Quad(bytes) {
      PrintedAreOctets(bytes);
      OctetsAreFree(Printed(bytes), '.');
      SplitOfJoin(Printed(bytes), '.');
    }
    if ParseIpv4(t) == Some(bytes) {
      JoinOfSplit(t, '.');
      OctetsArePrinted(Split(t, '.'));
    }
  }

  // ---------------------------------------------------------------------------------------------
  // Colons
  // ---------------------------------------------------------------------------------------------

  predicate NoDouble(s: string) {
    forall i :: 0 <= i < |s| - 1 ==> !(s[i] == ':' && s[i + 1] == ':')
  }

  predicate Seam(x: string) {
    x == "" || x[|x| - 1] == ':'
  }

  lemma {:induction false} HalvesOfOne(s: string)
    requires NoDouble(s)
    ensures Halves(s) == [s]
  {
    if |s| >= 2 {
      assert !(s[0] == ':' && s[1] == ':');
      assert NoDouble(s[1..]) by {
        forall i | 0 <= i < |s[1..]| - 1
          ensures !(s[1..][i] == ':' && s[1..][i + 1] == ':')
        {
          assert s[1..][i] == s[i + 1] && s[1..][i + 1] == s[i + 2];
        }
      }
      HalvesOfOne(s[1..]);
      assert [s[0]] + s[1..] == s;
    }
  }

  /** A text without a double colon, then more: the halves of the rest come after it. */
  lemma {:induction false} HalvesOfTwo(a: string, b: string)
    requires NoDouble(a) && (a == "" || a[|a| - 1] != ':')
    ensures Halves(a + "::" + b) == [a] + Halves(b)
  {
    var s := a + "::" + b;
    if a == "" {
      assert s[2..] == b;
    } else {
      assert s[1..] == a[1..] + "::" + b;
      assert NoDouble(a[1..]) by {
        forall i | 0 <= i < |a[1..]| - 1
          ensures !(a[1..][i] == ':' && a[1..][i + 1] == ':')
        {
          assert a[1..][i] == a[i + 1] && a[1..][i + 1] == a[i + 2];
        }
      }
      HalvesOfTwo(a[1..], b);
      assert !(s[0] == ':' && s[1] == ':') by {
        if |a| > 1 {
          assert s[0] == a[0] && s[1] == a[1];
        }
      }
      assert [s[0]] + a[1..] == a;
    }
  }

  function JoinHalves(halves: seq<string>): string
    requires halves != []
  {
    if |halves| == 1 then halves[0] else halves[0] + "::" + JoinHalves(halves[1..])
  }

  lemma {:induction false} HalvesJoin(s: string)
    ensures JoinHalves(Halves(s)) == s
    decreases |s|
  {
    if |s| >= 2 {
      var halves := Halves(s);
      if s[0] == ':' && s[1] == ':' {
        HalvesJoin(s[2..]);
        assert halves[1..] == Halves(s[2..]);
        assert s == "::" + s[2..];
        assert "" + "::" + s[2..] == "::" + s[2..];
      } else {
        var rest := Halves(s[1..]);
        HalvesJoin(s[1..]);
        assert s == [s[0]] + s[1..];
        if |rest| > 1 {
          assert halves[1..] == rest[1..];
          assert ([s[0]] + rest[0]) + "::" + JoinHalves(rest[1..]) == [s[0]] + (rest[0] + "::" + JoinHalves(rest[1..]));
        }
      }
    }
  }

  /** Text that does not start with a colon only extends the last half. */
  lemma {:induction false} HalvesConcat(x: string, g: string)
    requires g != "" && g[0] != ':' && NoDouble(g)
    ensures Halves(x + g) == Glue(Halves(x), [g])
    decreases |x|
  {
    var s := x + g;
    if x == "" {
      assert s == g;
      HalvesOfOne(g);
      GlueUnit([g]);
    } else if |x| == 1 {
      assert s[1..] == g && s[1] == g[0];
      HalvesOfOne(g);
      assert x == [x[0]];
    } else if x[0] == ':' && x[1] == ':' {
      assert s[2..] == x[2..] + g;
      HalvesConcat(x[2..], g);
      GluePrepends(' ', Halves(x[2..]), [g]);
    } else {
      assert s[1..] == x[1..] + g && s[0] == x[0] && s[1] == x[1];
      HalvesConcat(x[1..], g);
      GluePrepends(x[0], Halves(x[1..]), [g]);
    }
  }

  lemma HextetsAreFree(groups: seq<string>, mark: char)
    requires AllHextets(groups) && IsMark(mark)
    ensures Free(groups, mark)
  {
    forall g | g in groups
      ensures mark !in g
    {
      DigitsAreNoMarks(g, 16, mark);
    }
  }

  /** Non-empty groups without colons, joined: single colons only, none at either end. */
  lemma {:induction false} JoinedGroups(groups: seq<string>)
    requires groups != [] && Free(groups, ':') && forall g :: g in groups ==> g != ""
    ensures var s := Join(groups, ':'); s != "" && s[0] != ':' && s[|s| - 1] != ':' && NoDouble(s)
  {
    var s := Join(groups, ':');
    assert groups[0] in groups;
    if |groups| > 1 {
      var rest := Join(groups[1..], ':');
      assert forall g :: g in groups[1..] ==> g in groups;
      JoinedGroups(groups[1..]);
      assert s == groups[0] + [':'] + rest;
      var n := |groups[0]|;
      assert s[|s| - 1] == rest[|rest| - 1];
      forall i | 0 <= i < |s| - 1
        ensures !(s[i] == ':' && s[i + 1] == ':')
      {
        if i < n {
          assert s[i] == groups[0][i];
        } else if i == n {
          assert s[i + 1] == rest[0];
        } else {
          assert s[i] == rest[i - n - 1] && s[i + 1] == rest[i - n];
        }
      }
    } else {
      assert forall i :: 0 <= i < |s| ==> s[i] in groups[0];
    }
  }

  lemma {:induction false} SeamSplits(x: string)
    requires Seam(x)
    ensures Split(x, ':')[|Split(x, ':')| - 1] == ""
  {
    if x != "" {
      if |x| == 1 {
        assert Split(x[1..], ':') == [""];
      } else {
        assert Seam(x[1..]);
        SeamSplits(x[1..]);
        if x[0] != ':' {
          if |Split(x[1..], ':')| == 1 {
            JoinOfSplit(x[1..], ':');
          }
        }
      }
    }
  }

  /** After a colon, groups follow groups. */
  lemma SeamGroups(x: string, parts: seq<string>)
    requires Seam(x) && parts != [] && Free(parts, ':')
    ensures Split(x + Join(parts, ':'), ':') == Split(x, ':')[..|Split(x, ':')| - 1] + parts
  {
    SplitConcat(x, Join(parts, ':'), ':');
    SplitOfJoin(parts, ':');
    SeamSplits(x);
    hide Split, Join;
    GlueAtSeam(Split(x, ':'), parts);
  }

  lemma GlueAtSeam(a: seq<string>, parts: seq<string>)
    requires a != [] && parts != [] && a[|a| - 1] == ""
    ensures Glue(a, parts) == a[..|a| - 1] + parts
  {
    assert "" + parts[0] == parts[0];
  }

  /** ... and the text they came from can be put together again. */
  lemma SeamText(x: string, parts: seq<string>)
    requires Seam(x) && parts != [] && Free(parts, ':')
    ensures Join(Split(x, ':')[..|Split(x, ':')| - 1] + parts, ':') == x + Join(parts, ':')
  {
    SeamGroups(x, parts);
    JoinOfSplit(x + Join(parts, ':'), ':');
  }

  // ---------------------------------------------------------------------------------------------
  // Head, tail and zone
  // ---------------------------------------------------------------------------------------------

  lemma {:induction false} HeadAndTail(s: string)
    ensures Head(s) + Tail(s) == s && Seam(Head(s)) && ':' !in Tail(s)
  {
    if s != "" && s[|s| - 1] != ':' {
      HeadAndTail(s[..|s| - 1]);
      assert s == s[..|s| - 1] + [s[|s| - 1]];
    }
  }

  lemma {:induction false} TailIsExact(x: string, t: string)
    requires Seam(x) && ':' !in t
    ensures Head(x + t) == x && Tail(x + t) == t
    decreases |t|
  {
    var s := x + t;
    if t == "" {
      assert s == x;
    } else {
      assert s[|s| - 1] == t[|t| - 1] && s[..|s| - 1] == x + t[..|t| - 1];
      TailIsExact(x, t[..|t| - 1]);
      assert t == t[..|t| - 1] + [t[|t| - 1]];
    }
  }

  lemma {:induction false} ZoneIsDropped(t: string, zone: string)
    requires '%' !in t
    ensures Zoneless(t) == t && Zoneless(t + "%" + zone) == t
  {
    var s := t + "%" + zone;
    if t != "" {
      assert s[1..] == t[1..] + "%" + zone;
      ZoneIsDropped(t[1..], zone);
      assert t == [t[0]] + t[1..];
    }
  }

  // ---------------------------------------------------------------------------------------------
  // Every legal form is parsed, to the bytes it denotes
  // ---------------------------------------------------------------------------------------------

  lemma ZeroHextet()
    ensures IsHextet("0") && HextetValue("0") == 0
  {
    assert "0"[..0] == "";
  }

  lemma {:induction false} ZeroBytes(n: nat)
    ensures AllHextets(Zeros(n)) && WordBytes(Zeros(n)) == Nulls(2 * n)
  {
    ZeroHextet();
    if n > 0 {
      ZeroBytes(n - 1);
      assert Zeros(n)[1..] == Zeros(n - 1);
      assert [0, 0] + Nulls(2 * (n - 1)) == Nulls(2 * n);
    }
  }

  lemma {:induction false} BytesConcat(a: seq<string>, b: seq<string>)
    requires AllHextets(a) && AllHextets(b)
    ensures AllHextets(a + b) && WordBytes(a + b) == WordBytes(a) + WordBytes(b)
  {
    if a == [] {
      assert a + b == b;
    } else {
      assert (a + b)[1..] == a[1..] + b;
      BytesConcat(a[1..], b);
    }
  }

  lemma HextetsJoin(groups: seq<string>)
    requires AllHextets(groups)
    ensures Groups(Join(groups, ':')) == groups
    ensures groups != [] ==> Split(Join(groups, ':'), ':') == groups
    ensures var s := Join(groups, ':'); NoDouble(s) && (s == "" || (s[0] != ':' && s[|s| - 1] != ':'))
  {
    if groups != [] {
      HextetsAreFree(groups, ':');
      assert forall g :: g in groups ==> IsHextet(g);
      JoinedGroups(groups);
      SplitOfJoin(groups, ':');
    }
  }

  lemma FullFormParses(f: Form)
    requires Legal(f) && f.quad.None? && f.right.None?
    ensures ParseGroups(TextOf(f)) == Some(BytesOf(f))
  {
    HextetsJoin(f.left);
    assert f.left + [] == f.left;
    HalvesOfOne(TextOf(f));
    assert WordBytes(f.left) + Nulls(0) + [] + [] == WordBytes(f.left);
  }

  lemma ElidedHalves(left: seq<string>, right: seq<string>)
    requires AllHextets(left) && AllHextets(right)
    ensures Halves(Join(left, ':') + "::" + Join(right, ':')) == [Join(left, ':'), Join(right, ':')]
  {
    HextetsJoin(left);
    HextetsJoin(right);
    hide Halves, Join;
    HalvesOfTwo(Join(left, ':'), Join(right, ':'));
    HalvesOfOne(Join(right, ':'));
  }

  lemma GroupsOfTwoHalves(value: string, before: string, behind: string)
    requires Halves(value) == [before, behind] && |Groups(before)| + |Groups(behind)| <= 7
    ensures EightGroups(value)
            == Some(Groups(before) + Zeros(8 - |Groups(before)| - |Groups(behind)|) + Groups(behind))
  {
    hide Halves, Groups, Zeros;
  }

  lemma ElidedGroups(left: seq<string>, right: seq<string>)
    requires AllHextets(left) && AllHextets(right) && |left| + |right| <= 7
    ensures EightGroups(Join(left, ':') + "::" + Join(right, ':')) == Some(left + Zeros(8 - |left| - |right|) + right)
  {
    hide *;
    HextetsJoin(left);
    HextetsJoin(right);
    ElidedHalves(left, right);
    GroupsOfTwoHalves(Join(left, ':') + "::" + Join(right, ':'), Join(left, ':'), Join(right, ':'));
  }

  lemma ElidedFormParses(f: Form)
    requires Legal(f) && f.quad.None? && f.right.Some?
    ensures ParseGroups(TextOf(f)) == Some(BytesOf(f))
  {
    var left, right := f.left, f.right.value;
    var n := 8 - |left| - |right|;
    assert right + LastGroup(f) == right;
    assert TextOf(f) == Join(left, ':') + "::" + Join(right, ':');
    assert f == Form(left, Some(right), None);
    ElidedGroups(left, right);
    ZeroBytes(n);
    BytesConcat(left, Zeros(n));
    BytesConcat(left + Zeros(n), right);
    hide EightGroups, TextOf, WordBytes, BytesOf, Legal;
    ElidedBytes(left, right, n);
  }

  lemma WordIsHextet(high: Byte, low: Byte)
    ensures var t := Print(Word(high, low), 16);
      IsHextet(t) && High(HextetValue(t)) == high && Low(HextetValue(t)) == low
  {
    var w := Word(high, low);
    ReadOfPrint(w, 16);
    assert Power(16, 4) == 0x10000 by { assert Power(16, 1) == 16 && Power(16, 2) == 256 && Power(16, 3) == 4096; }
    PrintLength(w, 16, 4, 0x10000);
    hide Print, Read, AllDigits;
    assert w / 0x100 == high && w % 0x100 == low;
  }

  lemma QuadIsTwoHextets(quad: seq<Byte>)
    requires |quad| == 4
    ensures AllHextets(QuadHextets(quad)) && WordBytes(QuadHextets(quad)) == quad
  {
    WordIsHextet(quad[0], quad[1]);
    WordIsHextet(quad[2], quad[3]);
    var g := QuadHextets(quad);
    assert g[1..] == [g[1]] && g[1..][1..] == [];
    assert WordBytes(g[1..]) == [High(HextetValue(g[1])), Low(HextetValue(g[1]))] + WordBytes([]);
  }

  /** The same address with its quad spelled as hextets. */
  function Unquad(f: Form): Form
    requires Legal(f) && f.quad.Some?
  {
    var g := QuadHextets(f.quad.value);
    match f.right
    case None => Form(f.left + g, None, None)
    case Some(right) => Form(f.left, Some(right + g), None)
  }

  lemma UnquadKeepsBytes(f: Form)
    requires Legal(f) && f.quad.Some?
    ensures Legal(Unquad(f)) && BytesOf(Unquad(f)) == BytesOf(f)
  {
    var quad := f.quad.value;
    QuadIsTwoHextets(quad);
    match f.right
    case None =>
      BytesConcat(f.left, QuadHextets(quad));
    case Some(right) =>
      BytesConcat(right, QuadHextets(quad));
  }

  /** What stands before the quad. */
  function Before(f: Form): string {
    match f.right
    case None => if f.left == [] then "" else Join(f.left, ':') + ":"
    case Some(right) => Join(f.left, ':') + "::" + (if right == [] then "" else Join(right, ':') + ":")
  }

  lemma {:induction false} JoinConcat(a: seq<string>, b: seq<string>)
    requires a != [] && b != []
    ensures Join(a + b, ':') == Join(a, ':') + ":" + Join(b, ':')
  {
    if |a| == 1 {
      assert (a + b)[1..] == b;
    } else {
      assert (a + b)[1..] == a[1..] + b;
      JoinConcat(a[1..], b);
      assert a[0] + ":" + (Join(a[1..], ':') + ":" + Join(b, ':')) == (a[0] + ":" + Join(a[1..], ':')) + ":" + Join(b, ':');
    }
  }

  lemma TextAroundQuad(f: Form, last: seq<string>)
    requires last != []
    ensures match f.right
      case None => Join(f.left + last, ':') == Before(f) + Join(last, ':')
      case Some(right) => Join(f.left, ':') + "::" + Join(right + last, ':') == Before(f) + Join(last, ':')
    ensures Seam(Before(f))
  {
    match f.right
    case None =>
      if f.left == [] {
        assert f.left + last == last;
      } else {
        JoinConcat(f.left, last);
      }
    case Some(right) =>
      if right == [] {
        assert right + last == last;
      } else {
        JoinConcat(right, last);
      }
  }

  lemma QuadReadsBack(quad: seq<Byte>)
    requires |quad| == 4
    ensures ':' !in Quad(quad) && '.' in Quad(quad) && ParseIpv4(Quad(quad)) == Some(quad)
  {
    Ipv4IsExact(Quad(quad), quad);
    PrintedAreOctets(quad);
    var parts := Printed(quad);
    OctetsAreFree(parts, ':');
    assert Join(parts, '.') == parts[0] + ['.'] + Join(parts[1..], '.');
    NoColonInJoin(parts);
  }

  lemma {:induction false} NoColonInJoin(parts: seq<string>)
    requires Free(parts, ':')
    ensures ':' !in Join(parts, '.')
  {
    if |parts| > 1 {
      NoColonInJoin(parts[1..]);
      assert Join(parts, '.') == parts[0] + ['.'] + Join(parts[1..], '.');
    }
  }

  lemma LegalTextParses(f: Form)
    requires Legal(f)
    ensures ParseIpv6(TextOf(f)) == Some(BytesOf(f)) && '%' !in TextOf(f)
  {
    NoZoneInText(f);
    ZoneIsDropped(TextOf(f), "");
    if f.quad.None? {
      NoDotInText(f);
      HeadAndTail(TextOf(f));
      assert '.' !in Tail(TextOf(f)) by {
        forall c | c in Tail(TextOf(f))
          ensures c in Head(TextOf(f)) + Tail(TextOf(f))
        {
        }
      }
      if f.right.None? {
        FullFormParses(f);
      } else {
        ElidedFormParses(f);
      }
    } else {
      QuadFormParses(f);
    }
  }

  lemma QuadFormParses(f: Form)
    requires Legal(f) && f.quad.Some?
    ensures Rewritten(TextOf(f)) == Some(TextOf(Unquad(f)))
    ensures ParseGroups(TextOf(Unquad(f))) == Some(BytesOf(f))
  {
    var quad := f.quad.value;
    QuadReadsBack(quad);
    TextAroundQuad(f, LastGroup(f));
    assert Join(LastGroup(f), ':') == Quad(quad);
    assert TextOf(f) == Before(f) + Quad(quad);
    TailIsExact(Before(f), Quad(quad));
    var g := Unquad(f);
    TextAroundQuad(f, QuadHextets(quad));
    UnquadKeepsBytes(f);
    assert g.left + LastGroup(g) == g.left;
    assert g.right.Some? ==> g.right.value + LastGroup(g) == g.right.value;
    if f.right.None? {
      FullFormParses(g);
    } else {
      ElidedFormParses(g);
    }
  }

  lemma {:induction false} JoinHasNoMark(groups: seq<string>, mark: char)
    requires Free(groups, mark) && mark != ':'
    ensures mark !in Join(groups, ':')
  {
    if |groups| > 1 {
      JoinHasNoMark(groups[1..], mark);
      assert Join(groups, ':') == groups[0] + [':'] + Join(groups[1..], ':');
    }
  }

  lemma NoDotInText(f: Form)
    requires Legal(f) && f.quad.None?
    ensures '.' !in TextOf(f)
  {
    HextetsAreFree(f.left, '.');
    JoinHasNoMark(f.left + LastGroup(f), '.');
    JoinHasNoMark(f.left, '.');
    if f.right.Some? {
      HextetsAreFree(f.right.value, '.');
      JoinHasNoMark(f.right.value + LastGroup(f), '.');
    }
  }

  lemma NoZoneInText(f: Form)
    requires Legal(f)
    ensures '%' !in TextOf(f)
  {
    HextetsAreFree(f.left, '%');
    LastGroupHasNoZone(f);
    JoinHasNoMark(f.left + LastGroup(f), '%');
    JoinHasNoMark(f.left, '%');
    if f.right.Some? {
      HextetsAreFree(f.right.value, '%');
      JoinHasNoMark(f.right.value + LastGroup(f), '%');
    }
  }

  lemma LastGroupHasNoZone(f: Form)
    requires Legal(f)
    ensures Free(LastGroup(f), '%')
  {
    if f.quad.Some? {
      PrintedAreOctets(f.quad.value);
      OctetsAreFree(Printed(f.quad.value), '%');
      QuadHasNoZone(Printed(f.quad.value));
    }
  }

  lemma {:induction false} QuadHasNoZone(parts: seq<string>)
    requires Free(parts, '%')
    ensures '%' !in Join(parts, '.')
  {
    if |parts| > 1 {
      QuadHasNoZone(parts[1..]);
      assert Join(parts, '.') == parts[0] + ['.'] + Join(parts[1..], '.');
    }
  }

  // ---------------------------------------------------------------------------------------------
  // Nothing else is parsed
  // ---------------------------------------------------------------------------------------------

  /** The form the parser read, when the text ends in these groups after a colon or at the start. */
  lemma ParsedForm(x: string, ending: seq<string>, bytes: seq<Byte>) returns (f: Form)
    requires Seam(x) && ending != [] && AllHextets(ending)
    requires ParseGroups(x + Join(ending, ':')) == Some(bytes)
    ensures AllHextets(f.left) && f.quad.None? && (f.right.Some? ==> AllHextets(f.right.value))
    ensures var all := match f.right case None => Form(f.left + ending, None, None) case Some(right) => Form(f.left, Some(right + ending), None);
      Legal(all) && BytesOf(all) == bytes
    ensures f.right.None? ==> forall last :: last != [] && Free(last, ':') ==> Join(f.left + last, ':') == x + Join(last, ':')
    ensures f.right.Some? ==> forall last :: last != [] && Free(last, ':') ==>
              Join(f.left, ':') + "::" + Join(f.right.value + last, ':') == x + Join(last, ':')
  {
    var value := x + Join(ending, ':');
    HextetsAreFree(ending, ':');
    HextetsJoin(ending);
    HalvesConcat(x, Join(ending, ':'));
    HalvesJoin(x);
    var halves := Halves(x);
    if |halves| == 1 {
      SeamGroups(x, ending);
      var left := Split(x, ':')[..|Split(x, ':')| - 1];
      f := Form(left, None, None);
      PartsAreHextets(left, ending);
      assert BytesOf(Form(left + ending, None, None)) == WordBytes(left + ending);
      forall last | last != [] && Free(last, ':')
        ensures Join(f.left + last, ':') == x + Join(last, ':')
      {
        SeamText(x, last);
      }
    } else {
      assert |halves| == 2;
      f := ParsedElided(x, halves[0], halves[1], ending, bytes);
    }
  }

  lemma PartsAreHextets(a: seq<string>, b: seq<string>)
    requires AllHextets(a + b)
    ensures AllHextets(a) && AllHextets(b)
  {
    assert forall g :: g in a ==> g in a + b;
    assert forall g :: g in b ==> g in a + b;
  }

  lemma ElidedBytes(left: seq<string>, right: seq<string>, n: nat)
    requires AllHextets(left + Zeros(n) + right) && |left| + n + |right| == 8 && n >= 1
    ensures AllHextets(left) && AllHextets(right) && Legal(Form(left, Some(right), None))
    ensures BytesOf(Form(left, Some(right), None)) == WordBytes(left + Zeros(n) + right)
  {
    PartsAreHextets(left + Zeros(n), right);
    PartsAreHextets(left, Zeros(n));
    ZeroBytes(n);
    BytesConcat(left, Zeros(n));
    BytesConcat(left + Zeros(n), right);
    hide WordBytes;
    assert BytesOf(Form(left, Some(right), None)) == WordBytes(left) + Nulls(2 * n) + WordBytes(right) + [];
  }

  lemma ParsedElided(x: string, before: string, behind: string, ending: seq<string>, bytes: seq<Byte>) returns (f: Form)
    requires x == before + "::" + behind && Seam(behind) && ending != [] && AllHextets(ending) && Free(ending, ':')
    requires Join(ending, ':') != ""
    requires Halves(x + Join(ending, ':')) == [before, behind + Join(ending, ':')]
    requires ParseGroups(x + Join(ending, ':')) == Some(bytes)
    ensures AllHextets(f.left) && f.quad.None? && f.right.Some? && AllHextets(f.right.value)
    ensures Legal(Form(f.left, Some(f.right.value + ending), None))
    ensures BytesOf(Form(f.left, Some(f.right.value + ending), None)) == bytes
    ensures forall last :: last != [] && Free(last, ':') ==>
              Join(f.left, ':') + "::" + Join(f.right.value + last, ':') == x + Join(last, ':')
  {
    var left, right := Groups(before), Split(behind, ':')[..|Split(behind, ':')| - 1];
    SeamGroups(behind, ending);
    assert Groups(behind + Join(ending, ':')) == right + ending;
    JoinOfSplit(before, ':');
    assert Join(left, ':') == before;
    f := Form(left, Some(right), None);
    var n := 8 - |left| - |right + ending|;
    assert EightGroups(x + Join(ending, ':')) == Some(left + Zeros(n) + (right + ending));
    hide EightGroups, Halves, Split, Groups, WordBytes, BytesOf, Legal;
    ElidedBytes(left, right + ending, n);
    PartsAreHextets(right, ending);
    forall last | last != [] && Free(last, ':')
      ensures Join(f.left, ':') + "::" + Join(f.right.value + last, ':') == x + Join(last, ':')
    {
      SeamText(behind, last);
      assert before + "::" + (behind + Join(last, ':')) == x + Join(last, ':');
    }
  }

  lemma PlainForm(value: string, bytes: seq<Byte>) returns (f: Form)
    requires ParseGroups(value) == Some(bytes)
    ensures Legal(f) && TextOf(f) == value && BytesOf(f) == bytes
  {
    HalvesJoin(value);
    var halves := Halves(value);
    if |halves| == 1 {
      JoinOfSplit(value, ':');
      var left := Split(value, ':');
      f := Form(left, None, None);
      assert left + LastGroup(f) == left;
      assert BytesOf(f) == WordBytes(left) + Nulls(0) + [] + [];
      assert BytesOf(f) == WordBytes(left);
    } else {
      assert |halves| == 2;
      assert value == halves[0] + "::" + halves[1] by {
        assert halves[1..] == [halves[1]];
      }
      var left, right := Groups(halves[0]), Groups(halves[1]);
      JoinOfSplit(halves[0], ':');
      JoinOfSplit(halves[1], ':');
      f := Form(left, Some(right), None);
      assert right + LastGroup(f) == right;
      assert TextOf(f) == value;
      hide Halves, Split, Groups;
      ElidedBytes(left, right, 8 - |left| - |right|);
    }
  }

  lemma QuadForm(value: string, bytes: seq<Byte>) returns (f: Form)
    requires '.' in Tail(value) && ParseIpv4(Tail(value)).Some?
    requires ParseGroups(Head(value) + Join(QuadHextets(ParseIpv4(Tail(value)).value), ':')) == Some(bytes)
    ensures Legal(f) && TextOf(f) == value && BytesOf(f) == bytes
  {
    var quad := ParseIpv4(Tail(value)).value;
    HeadAndTail(value);
    Ipv4IsExact(Tail(value), quad);
    QuadIsTwoHextets(quad);
    var g := ParsedForm(Head(value), QuadHextets(quad), bytes);
    f := g.(quad := Some(quad));
    UnquadKeepsBytes(f);
    QuadReadsBack(quad);
    assert Free([Quad(quad)], ':') && Join([Quad(quad)], ':') == Quad(quad);
  }

  /**
   * The parser accepts exactly the legal text forms (with any zone index), and reads from each the
   * sixteen bytes it denotes: full, elided anywhere by one group or more, with or without a quad.
   */
  lemma Ipv6IsExact(input: string, bytes: seq<Byte>)
    ensures ParseIpv6(input) == Some(bytes) <==> Denotes(Zoneless(input), bytes)
  {
    var value := Zoneless(input);
    if ParseIpv6(input) == Some(bytes) {
      if '.' in Tail(value) {
        var f := QuadForm(value, bytes);
      } else {
        var f := PlainForm(value, bytes);
      }
    }
    if Denotes(value, bytes) {
      var f :| Legal(f) && TextOf(f) == value && BytesOf(f) == bytes;
      LegalTextParses(f);
      ZoneIsDropped(value, "");
    }
  }

  lemma DenotedBytesAreSixteen(f: Form)
    requires Legal(f)
    ensures |BytesOf(f)| == 16
  {
  }

  lemma ParsedIpv6IsSixteenBytes(input: string)
    ensures ParseIpv6(input).Some? ==> |ParseIpv6(input).value| == 16
  {
    if ParseIpv6(input).Some? {
      Ipv6IsExact(input, ParseIpv6(input).value);
      var f :| Legal(f) && TextOf(f) == Zoneless(input) && BytesOf(f) == ParseIpv6(input).value;
      DenotedBytesAreSixteen(f);
    }
  }

  // ---------------------------------------------------------------------------------------------
  // Client addresses and their rate-limit keys
  // ---------------------------------------------------------------------------------------------

  datatype ParsedIp = ParsedIp(family: nat, bytes: seq<Byte>)

  /** One bracket at each end is dropped after trimming. */
  function Unbracketed(t: string): string {
    var s := if t != "" && t[0] == '[' then t[1..] else t;
    if s != "" && s[|s| - 1] == ']' then s[..|s| - 1] else s
  }

  predicate IsIpv4Mapped(bytes: seq<Byte>) {
    |bytes| == 16 && (forall i :: 0 <= i < 10 ==> bytes[i] == 0) && bytes[10] == 0xFF && bytes[11] == 0xFF
  }

  /** `isIPv6` of the platform, on a text without a zone: the forms of section 2.2 of RFC 4291. */
  ghost predicate IsIpv6(t: string) {
    exists f :: Legal(f) && TextOf(f) == t
  }

  /** The platform's check and the program's own parser accept the same texts. */
  lemma PlatformAgrees(t: string)
    ensures IsIpv6(Zoneless(t)) <==> ParseIpv6(t).Some?
  {
    if ParseIpv6(t).Some? {
      Ipv6IsExact(t, ParseIpv6(t).value);
    }
    if f :| Legal(f) && TextOf(f) == Zoneless(t) {
      Ipv6IsExact(t, BytesOf(f));
    }
  }

  function Unwrap(bytes: seq<Byte>): ParsedIp {
    if IsIpv4Mapped(bytes) then ParsedIp(4, bytes[12..]) else ParsedIp(6, bytes)
  }

  ghost function ParseClientIp(value: Option<string>): Option<ParsedIp> {
    if value.None? then None else ParseTrimmed(Unbracketed(Trim(value.value)))
  }

  ghost function ParseTrimmed(t: string): Option<ParsedIp> {
    if t == "" then None
    else if ParseIpv4(t).Some? then Some(ParsedIp(4, ParseIpv4(t).value))
    else if !IsIpv6(Zoneless(t)) then None
    else match ParseIpv6(t)
      case None => None
      case Some(bytes) => Some(Unwrap(bytes))
  }

  /** Four bytes of family 4, or sixteen of family 6 that are not a mapped IPv4 address. */
  predicate ValidIp(ip: ParsedIp) {
    (ip.family == 4 && |ip.bytes| == 4) || (ip.family == 6 && |ip.bytes| == 16 && !IsIpv4Mapped(ip.bytes))
  }

  ghost predicate DenotesUnwrapped(text: string, ip: ParsedIp) {
    exists bytes :: Denotes(text, bytes) && ip == Unwrap(bytes)
  }

  lemma EmptyIsNoAddress()
    ensures ParseIpv6("").None?
  {
    assert EightGroups("").None?;
  }

  /** What is left of the parser when the text is no quad. */
  lemma SixthFamilyIsExact(t: string, ip: ParsedIp)
    requires ParseIpv4(t).None?
    ensures ParseTrimmed(t) == Some(ip) <==> DenotesUnwrapped(Zoneless(t), ip)
    ensures ParseTrimmed(t) == Some(ip) ==> ValidIp(ip)
  {
    PlatformAgrees(t);
    ParsedIpv6IsSixteenBytes(t);
    EmptyIsNoAddress();
    hide ParseIpv4, ParseIpv6, Denotes, Zoneless, IsIpv6, IsIpv4Mapped;
    if ParseIpv6(t).Some? {
      Ipv6IsExact(t, ParseIpv6(t).value);
    }
    forall bytes | Denotes(Zoneless(t), bytes)
      ensures ParseIpv6(t) == Some(bytes)
    {
      Ipv6IsExact(t, bytes);
    }
  }

  /** A client address is the text of a quad, or a legal IPv6 text whose mapped form counts as IPv4. */
  lemma ClientIpIsExact(value: string, ip: ParsedIp)
    ensures ParseClientIp(Some(value)) == Some(ip) <==>
      var t := Unbracketed(Trim(value));
      (ip.family == 4 && |ip.bytes| == 4 && t == Quad(ip.bytes)) || DenotesUnwrapped(Zoneless(t), ip)
    ensures ParseClientIp(Some(value)) == Some(ip) ==> ValidIp(ip)
  {
    var t := Unbracketed(Trim(value));
    hide Trim, Unbracketed, Quad, Zoneless, Denotes;
    if ParseIpv4(t).Some? {
      var quad := ParseIpv4(t).value;
      Ipv4IsExact(t, quad);
      QuadIsNoIpv6(quad);
      assert Quad(quad) == t && t != "" by { QuadReadsBack(quad); }
      if |ip.bytes| == 4 {
        Ipv4IsExact(t, ip.bytes);
      }
    } else {
      if |ip.bytes| == 4 {
        Ipv4IsExact(t, ip.bytes);
      }
      SixthFamilyIsExact(t, ip);
    }
  }

  lemma QuadIsNoIpv6(quad: seq<Byte>)
    requires |quad| == 4
    ensures forall bytes :: !Denotes(Zoneless(Quad(quad)), bytes)
  {
    QuadReadsBack(quad);
    PrintedAreOctets(quad);
    OctetsAreFree(Printed(quad), '%');
    QuadHasNoZone(Printed(quad));
    ZoneIsDropped(Quad(quad), "");
    forall f | Legal(f)
      ensures TextOf(f) != Quad(quad)
    {
      LegalHasColon(f);
    }
  }

  lemma LegalHasColon(f: Form)
    requires Legal(f)
    ensures ':' in TextOf(f)
  {
    if f.right.None? {
      var groups := f.left + LastGroup(f);
      assert Join(groups, ':') == groups[0] + [':'] + Join(groups[1..], ':');
      assert Join(groups, ':')[|groups[0]|] == ':';
    } else {
      assert TextOf(f)[|Join(f.left, ':')|] == ':';
    }
  }
}
