/** The string operations address parsing uses: split, join, trim, and numbers as digits. */
module Texts {
  import opened Wrappers

  // ---------------------------------------------------------------------------------------------
  // split and join on one character
  // ---------------------------------------------------------------------------------------------

  /** A character put in front of the first part. */
  function Prepend(c: char, parts: seq<string>): seq<string>
    requires parts != []
  {
    [[c] + parts[0]] + parts[1..]
  }

  function Split(s: string, sep: char): (parts: seq<string>)
    ensures parts != []
  {
    if s == "" then [""]
    else if s[0] == sep then [""] + Split(s[1..], sep)
    else Prepend(s[0], Split(s[1..], sep))
  }

  function Join(parts: seq<string>, sep: char): string {
    if parts == [] then "" else if |parts| == 1 then parts[0] else parts[0] + [sep] + Join(parts[1..], sep)
  }

  predicate Free(parts: seq<string>, sep: char) {
    forall p :: p in parts ==> sep !in p
  }

  lemma {:induction false} SplitNothing(s: string, sep: char)
    requires sep !in s
    ensures Split(s, sep) == [s]
  {
    if s != "" {
      SplitNothing(s[1..], sep);
      assert [s[0]] + s[1..] == s;
    }
  }

  /** Two lists of parts put together where one text ends and the next begins. */
  function Glue(a: seq<string>, b: seq<string>): seq<string>
    requires a != [] && b != []
  {
    a[..|a| - 1] + [a[|a| - 1] + b[0]] + b[1..]
  }

  lemma GluePrepends(c: char, a: seq<string>, b: seq<string>)
    requires a != [] && b != []
    ensures Prepend(c, Glue(a, b)) == Glue(Prepend(c, a), b)
    ensures [""] + Glue(a, b) == Glue([""] + a, b)
  {
    var whole := [""] + a;
    assert whole[..|whole| - 1] == [""] + a[..|a| - 1];
    if |a| == 1 {
      assert [c] + (a[0] + b[0]) == ([c] + a[0]) + b[0];
    } else {
      assert Prepend(c, a)[..|a| - 1] == Prepend(c, a[..|a| - 1]);
      assert Glue(a, b)[1..] == a[1..|a| - 1] + [a[|a| - 1] + b[0]] + b[1..];
    }
  }

  lemma GlueUnit(b: seq<string>)
    requires b != []
    ensures Glue([""], b) == b
  {
    assert "" + b[0] == b[0];
  }

  /** Splitting a concatenation glues the two parts at the seam. */
  lemma {:induction false} SplitConcat(x: string, y: string, sep: char)
    ensures Split(x + y, sep) == Glue(Split(x, sep), Split(y, sep))
  {
    if x == "" {
      assert x + y == y;
      GlueUnit(Split(y, sep));
    } else {
      SplitConcat(x[1..], y, sep);
      assert (x + y)[1..] == x[1..] + y && (x + y)[0] == x[0];
      GluePrepends(x[0], Split(x[1..], sep), Split(y, sep));
      hide Glue, Prepend;
    }
  }

  lemma SplitFirst(a: string, s: string, sep: char)
    requires sep !in a
    ensures Split(a + [sep] + s, sep) == [a] + Split(s, sep)
  {
    assert a + [sep] + s == a + ([sep] + s);
    SplitNothing(a, sep);
    SplitConcat(a, [sep] + s, sep);
    assert ([sep] + s)[1..] == s;
    assert Glue([a], [""] + Split(s, sep)) == [a] + Split(s, sep) by {
      assert a + "" == a;
    }
  }

  lemma {:induction false} SplitOfJoin(parts: seq<string>, sep: char)
    requires parts != [] && Free(parts, sep)
    ensures Split(Join(parts, sep), sep) == parts
  {
    if |parts| == 1 {
      SplitNothing(parts[0], sep);
    } else {
      SplitFirst(parts[0], Join(parts[1..], sep), sep);
      SplitOfJoin(parts[1..], sep);
    }
  }

  lemma {:induction false} JoinOfSplit(s: string, sep: char)
    ensures Join(Split(s, sep), sep) == s && Free(Split(s, sep), sep)
  {
    if s != "" {
      JoinOfSplit(s[1..], sep);
      var rest, parts := Split(s[1..], sep), Split(s, sep);
      if s[0] == sep {
        assert parts[1..] == rest;
      } else if |rest| > 1 {
        assert parts[1..] == rest[1..];
        assert Join(parts, sep) == [s[0]] + (rest[0] + [sep] + Join(rest[1..], sep));
      }
      assert s == [s[0]] + s[1..];
    }
  }

  /** Joined texts are equal only for equal parts. */
  lemma JoinIsExact(a: seq<string>, b: seq<string>, sep: char)
    requires a != [] && b != [] && Free(a, sep) && Free(b, sep) && Join(a, sep) == Join(b, sep)
    ensures a == b
  {
    SplitOfJoin(a, sep);
    SplitOfJoin(b, sep);
  }

  // ---------------------------------------------------------------------------------------------
  // trim
  // ---------------------------------------------------------------------------------------------

  /** The characters `trim` removes: white space and line terminators. */
  predicate IsSpace(c: char) {
    c in {' ', '\t', '\n', '\r', '\U{000B}', '\U{000C}', '\U{00A0}', '\U{1680}', '\U{2028}', '\U{2029}', '\U{202F}',
          '\U{205F}', '\U{3000}', '\U{FEFF}'}
    || '\U{2000}' <= c <= '\U{200A}'
  }

  function TrimStart(s: string): string {
    if s != "" && IsSpace(s[0]) then TrimStart(s[1..]) else s
  }

  function TrimEnd(s: string): string {
    if s != "" && IsSpace(s[|s| - 1]) then TrimEnd(s[..|s| - 1]) else s
  }

  function Trim(s: string): string {
    TrimEnd(TrimStart(s))
  }

  // ---------------------------------------------------------------------------------------------
  // Numbers as digits
  // ---------------------------------------------------------------------------------------------

  function Digit(d: nat): char
    requires d < 16
  {
    if d < 10 then '0' + d as char else 'a' + (d - 10) as char
  }

  predicate IsDigit(c: char) { '0' <= c <= '9' }

  /** Both cases are read, only the lower one is printed. */
  predicate IsHexDigit(c: char) {
    IsDigit(c) || 'a' <= c <= 'f' || 'A' <= c <= 'F'
  }

  function DigitValue(c: char): (d: nat)
    requires IsHexDigit(c)
    ensures d < 16 && (IsDigit(c) ==> d < 10)
  {
    if IsDigit(c) then (c - '0') as nat else if 'a' <= c then (c - 'a') as nat + 10 else (c - 'A') as nat + 10
  }

  predicate IsBase(base: nat) {
    base == 10 || base == 16
  }

  /** `n.toString(base)` for base 10 and 16. */
  function Print(n: nat, base: nat): (t: string)
    requires IsBase(base)
    ensures t != ""
    decreases n
  {
    if n < base then [Digit(n)] else Print(n / base, base) + [Digit(n % base)]
  }

  predicate AllDigits(t: string, base: nat) {
    forall c :: c in t ==> IsHexDigit(c) && DigitValue(c) < base
  }

  function Read(t: string, base: nat): nat
    requires AllDigits(t, base)
  {
    if t == "" then 0 else Read(t[..|t| - 1], base) * base + DigitValue(t[|t| - 1])
  }

  lemma DigitsRoundTrip(d: nat)
    requires d < 16
    ensures IsHexDigit(Digit(d)) && DigitValue(Digit(d)) == d
    ensures d < 10 ==> IsDigit(Digit(d))
  {
  }

  lemma ReadOfAppend(h: string, d: char, base: nat)
    requires AllDigits(h, base) && IsHexDigit(d) && DigitValue(d) < base
    ensures AllDigits(h + [d], base) && Read(h + [d], base) == Read(h, base) * base + DigitValue(d)
  {
    var t := h + [d];
    assert t[..|t| - 1] == h && t[|t| - 1] == d;
    forall c | c in t
      ensures IsHexDigit(c) && DigitValue(c) < base
    {
      assert c in h || c == d;
    }
  }

  lemma Divided(n: nat, base: nat)
    requires IsBase(base)
    ensures n / base * base + n % base == n && n % base < base && (n > 0 ==> n / base < n)
  {
  }

  lemma PrintStep(n: nat, base: nat, q: nat, r: nat)
    requires IsBase(base) && q == n / base && r == n % base && r < base
    ensures Print(n, base) == if n < base then [Digit(n)] else Print(q, base) + [Digit(r)]
  {
  }

  lemma {:induction false} ReadOfPrint(n: nat, base: nat)
    requires IsBase(base)
    ensures AllDigits(Print(n, base), base) && Read(Print(n, base), base) == n
    decreases n
  {
    var q, r := n / base, n % base;
    Divided(n, base);
    PrintStep(n, base, q, r);
    DigitsRoundTrip(r);
    hide Digit, DigitValue, Read, Print, AllDigits;
    if n < base {
      DigitsRoundTrip(n);
      ReadOfNothing(base);
      ReadOfAppend("", Digit(n), base);
      assert "" + [Digit(n)] == [Digit(n)];
    } else {
      ReadOfPrint(q, base);
      ReadOfAppend(Print(q, base), Digit(r), base);
    }
  }

  lemma ReadOfNothing(base: nat)
    ensures AllDigits("", base) && Read("", base) == 0
  {
  }

  lemma {:induction false} PrintLength(n: nat, base: nat, k: nat, bound: nat)
    requires IsBase(base) && k >= 1 && n < bound && bound == Power(base, k)
    ensures 1 <= |Print(n, base)| <= k
    decreases k
  {
    if n >= base {
      assert k > 1;
      assert n / base < Power(base, k - 1) by {
        DivideBelow(n, base, Power(base, k - 1));
      }
      PrintLength(n / base, base, k - 1, Power(base, k - 1));
    }
  }

  function Power(base: nat, k: nat): nat {
    if k == 0 then 1 else base * Power(base, k - 1)
  }

  lemma MultiplyKeepsOrder(base: nat, p: nat, q: nat)
    requires p <= q
    ensures base * p <= base * q
  {
  }

  lemma DivideBelow(n: nat, base: nat, p: nat)
    requires IsBase(base) && n < base * p
    ensures n / base < p
  {
    Divided(n, base);
    if n / base >= p {
      MultiplyKeepsOrder(base, p, n / base);
    }
  }
}
