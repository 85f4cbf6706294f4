/**
 * Network blocks and trusted proxies: `parseCidr`, `withinPrefix`, `matchesAnyCidr` and
 * `trustedClientAddress`.
 */
module Cidr {
  import opened Wrappers
  import opened Texts
  import opened ClientIp
  import opened ClientIpKeys

  // ---------------------------------------------------------------------------------------------
  // Powers of two and bits
  // ---------------------------------------------------------------------------------------------

  function Pow2(n: nat): (p: nat)
    ensures p > 0
  {
    if n == 0 then 1 else 2 * Pow2(n - 1)
  }

  lemma {:induction false} Pow2Adds(a: nat, b: nat)
    ensures Pow2(a + b) == Pow2(a) * Pow2(b)
  {
    if a > 0 {
      Pow2Adds(a - 1, b);
      assert Pow2(a + b) == 2 * Pow2(a - 1 + b);
    }
  }

  /** Bitwise `&`. */
  function BitAnd(a: nat, b: nat): nat {
    if a == 0 || b == 0 then 0 else a % 2 * (b % 2) + 2 * BitAnd(a / 2, b / 2)
  }

  lemma AndStep(x: nat, p: nat)
    requires p > 0
    ensures BitAnd(x, 2 * p - 1) == x % 2 + 2 * BitAnd(x / 2, p - 1)
  {
    assert (2 * p - 1) / 2 == p - 1 && (2 * p - 1) % 2 == 1;
  }

  lemma {:induction false} AndWithOnes(x: nat, m: nat)
    requires x < Pow2(m)
    ensures BitAnd(x, Pow2(m) - 1) == x
  {
    if m > 0 {
      var p := Pow2(m - 1);
      assert Pow2(m) == 2 * p;
      AndWithOnes(x / 2, m - 1);
      hide Pow2, BitAnd;
      AndStep(x, p);
    } else {
      assert Pow2(0) == 1;
    }
  }

  lemma DivideTwice(x: nat, a: nat, b: nat)
    requires a > 0 && b > 0
    ensures x / (a * b) == x / a / b
  {
    var q, r := x / a, x % a;
    var s, t := q / b, q % b;
    assert x == a * (b * s + t) + r;
    assert x == (a * b) * s + (a * t + r) by {
      assert a * (b * s + t) == (a * b) * s + a * t by { Distribute(a, b, s, t); }
    }
    assert a * t + r < a * b by {
      assert a * t <= a * (b - 1) by { MultiplyKeepsOrder(a, t, b - 1); }
      assert a * (b - 1) == a * b - a by { Distribute(a, 1, b, -1); }
    }
    QuotientIsUnique(x, a * b, s, a * t + r);
  }

  lemma Distribute(a: int, b: int, s: int, t: int)
    ensures a * (b * s + t) == (a * b) * s + a * t
  {
  }

  lemma NextMultiple(d: nat, p: nat, q: nat)
    requires p < q
    ensures d * p + d <= d * q
  {
    MultiplyKeepsOrder(d, p + 1, q);
  }

  lemma QuotientIsUnique(x: nat, d: nat, q: nat, r: nat)
    requires d > 0 && x == d * q + r && r < d
    ensures x / d == q
  {
    var p, s := x / d, x % d;
    assert x == d * p + s;
    if p < q {
      NextMultiple(d, p, q);
    } else if q < p {
      NextMultiple(d, q, p);
    }
  }

  function Times(a: nat, b: nat): nat { a * b }

  function Quotient(n: nat, d: nat): nat
    requires d > 0
  {
    n / d
  }

  lemma AndOfDoubled(x: nat, half: nat)
    ensures BitAnd(x, 2 * half) == 2 * BitAnd(x / 2, half)
  {
  }

  lemma Doubled(a: nat, b: nat)
    ensures Times(a, 2 * b) == 2 * Times(a, b)
  {
  }

  lemma Halved(x: nat, p: nat)
    requires p > 0
    ensures Quotient(x, 2 * p) == Quotient(x / 2, p)
  {
    DivideTwice(x, 2, p);
  }

  /** A mask of `m` ones above `k` zeros keeps the high bits and clears the low ones. */
  lemma {:induction false} MaskKeepsHighBits(x: nat, m: nat, k: nat)
    requires x < Pow2(m + k)
    ensures BitAnd(x, Times(Pow2(m) - 1, Pow2(k))) == Times(Quotient(x, Pow2(k)), Pow2(k))
    decreases k
  {
    if k == 0 {
      AndWithOnes(x, m);
    } else {
      var ones, p := Pow2(m) - 1, Pow2(k - 1);
      assert Pow2(k) == 2 * p && Pow2(m + k) == 2 * Pow2(m + (k - 1));
      hide Pow2, BitAnd, Times, Quotient;
      MaskKeepsHighBits(x / 2, m, k - 1);
      Doubled(ones, p);
      AndOfDoubled(x, Times(ones, p));
      Halved(x, p);
      Doubled(Quotient(x / 2, p), p);
    }
  }

  /** `(0xff << k) & 0xff`. */
  function Mask(k: nat): nat {
    BitAnd(0xFF * Pow2(k), 0xFF)
  }

  lemma SmallPowers()
    ensures Pow2(1) == 2 && Pow2(2) == 4 && Pow2(3) == 8 && Pow2(4) == 16 && Pow2(5) == 32 && Pow2(6) == 64 && Pow2(7) == 128
    ensures Pow2(8) == 256
  {
    assert Pow2(1) == 2 && Pow2(2) == 4 && Pow2(3) == 8 && Pow2(4) == 16;
    assert Pow2(5) == 32 && Pow2(6) == 64;
  }

  lemma LowBitsStep(x: nat, p: nat)
    requires p > 0 && BitAnd(x / 2, p - 1) == Remainder(x / 2, p)
    ensures BitAnd(x, 2 * p - 1) == Remainder(x, 2 * p)
  {
    hide BitAnd, Remainder;
    AndStep(x, p);
    Remainders(x, p);
  }

  lemma NoBits(x: nat)
    ensures BitAnd(x, 0) == Remainder(x, 1)
  {
  }

  lemma {:induction false} LowBits(x: nat, m: nat)
    ensures BitAnd(x, Pow2(m) - 1) == Remainder(x, Pow2(m))
  {
    hide BitAnd, Remainder;
    if m > 0 {
      LowBits(x / 2, m - 1);
      LowBitsStep(x, Pow2(m - 1));
    } else {
      NoBits(x);
    }
  }

  function Remainder(n: nat, d: nat): nat
    requires d > 0
  {
    n % d
  }

  lemma Remainders(x: nat, p: nat)
    requires p > 0
    ensures Remainder(x, 2 * p) == x % 2 + 2 * Remainder(x / 2, p)
  {
    var h := x / 2;
    var q, r := h / p, h % p;
    assert h == p * q + r;
    assert x == (2 * p) * q + (2 * r + x % 2) by { Distribute(2, p, q, r); }
    QuotientIsUnique(x, 2 * p, q, 2 * r + x % 2);
  }

  /** The powers of two inside a byte. */
  predicate ByteStep(k: nat, p: nat, q: nat) {
    (k == 1 && p == 2 && q == 128) || (k == 2 && p == 4 && q == 64) || (k == 3 && p == 8 && q == 32)
    || (k == 4 && p == 16 && q == 16) || (k == 5 && p == 32 && q == 8) || (k == 6 && p == 64 && q == 4)
    || (k == 7 && p == 128 && q == 2)
  }

  lemma ByteSteps(k: nat)
    requires 1 <= k <= 7
    ensures ByteStep(k, Pow2(k), Pow2(8 - k))
  {
    SmallPowers();
    hide Pow2;
  }

  lemma MaskArithmetic(k: nat, p: nat, q: nat)
    requires ByteStep(k, p, q)
    ensures 0xFF * p % 0x100 == Times(q - 1, p)
  {
  }

  lemma MaskIsHighOnes(k: nat)
    requires 1 <= k <= 7
    ensures Mask(k) == Times(Pow2(8 - k) - 1, Pow2(k))
  {
    SmallPowers();
    LowBits(0xFF * Pow2(k), 8);
    ByteSteps(k);
    hide Pow2, BitAnd, ByteStep, Times;
    MaskArithmetic(k, Pow2(k), Pow2(8 - k));
  }

  /** Comparing two masked bytes compares their high bits. */
  lemma MaskedBytesAgree(a: Byte, b: Byte, k: nat)
    requires 1 <= k <= 7
    ensures BitAnd(a, Mask(k)) == BitAnd(b, Mask(k)) <==> a / Pow2(k) == b / Pow2(k)
  {
    SmallPowers();
    hide Pow2, Mask, BitAnd;
    MaskIsHighOnes(k);
    assert 8 - k + k == 8;
    MaskKeepsHighBits(a, 8 - k, k);
    MaskKeepsHighBits(b, 8 - k, k);
    hide Times;
    MultipleIsExact(Quotient(a, Pow2(k)), Quotient(b, Pow2(k)), Pow2(k));
  }

  lemma MultipleIsExact(p: nat, q: nat, d: nat)
    requires d > 0
    ensures Times(p, d) == Times(q, d) <==> p == q
  {
  }

  // ---------------------------------------------------------------------------------------------
  // Prefixes are quotients
  // ---------------------------------------------------------------------------------------------

  /** The bytes as one number, most significant first. */
  function Number(bytes: seq<Byte>): nat {
    if bytes == [] then 0 else bytes[0] * Pow2(8 * (|bytes| - 1)) + Number(bytes[1..])
  }

  /** The number without its `8 * |bytes| - prefix` host bits. */
  function Network(bytes: seq<Byte>, prefix: nat): nat
    requires prefix <= 8 * |bytes|
  {
    Quotient(Number(bytes), Pow2(8 * |bytes| - prefix))
  }

  lemma {:induction false} NumberIsBounded(bytes: seq<Byte>)
    ensures Number(bytes) < Pow2(8 * |bytes|)
  {
    if bytes != [] {
      NumberIsBounded(bytes[1..]);
      var m := Pow2(8 * (|bytes| - 1));
      SmallPowers();
      Pow2Adds(8, 8 * (|bytes| - 1));
      MultiplyKeepsOrder(m, bytes[0], 255);
    }
  }

  lemma DividePlus(q: nat, d: nat, r: nat)
    requires d > 0
    ensures (q * d + r) / d == q + r / d
  {
    var s, t := r / d, r % d;
    assert q * d + r == d * (q + s) + t;
    QuotientIsUnique(q * d + r, d, q + s, t);
  }

  lemma DivideBelowProduct(n: nat, p: nat, d: nat)
    requires d > 0 && n < p * d
    ensures n / d < p
  {
    if n / d >= p {
      MultiplyKeepsOrder(d, p, n / d);
    }
  }

  /** Eight prefix bits are the first byte. */
  lemma NetworkOfFirstByte(bytes: seq<Byte>, prefix: nat)
    requires 8 <= prefix <= 8 * |bytes|
    ensures Network(bytes, prefix) == bytes[0] * Pow2(prefix - 8) + Network(bytes[1..], prefix - 8)
    ensures Network(bytes[1..], prefix - 8) < Pow2(prefix - 8)
  {
    var d := Pow2(8 * |bytes| - prefix);
    var p := Pow2(prefix - 8);
    Pow2Adds(prefix - 8, 8 * |bytes| - prefix);
    assert prefix - 8 + (8 * |bytes| - prefix) == 8 * (|bytes| - 1);
    var n := Number(bytes[1..]);
    NumberIsBounded(bytes[1..]);
    assert bytes[0] * (p * d) == bytes[0] * p * d by { Distribute(bytes[0], p, d, 0); }
    DividePlus(bytes[0] * p, d, n);
    DivideBelowProduct(n, p, d);
  }

  /** Fewer than eight bits are the high bits of the first byte. */
  lemma NetworkOfHighBits(bytes: seq<Byte>, prefix: nat)
    requires prefix < 8 && bytes != []
    ensures Network(bytes, prefix) == bytes[0] / Pow2(8 - prefix)
  {
    var m := Pow2(8 * (|bytes| - 1));
    Pow2Adds(8 * (|bytes| - 1), 8 - prefix);
    assert 8 * (|bytes| - 1) + (8 - prefix) == 8 * |bytes| - prefix;
    NumberIsBounded(bytes[1..]);
    DivideTwice(Number(bytes), m, Pow2(8 - prefix));
    QuotientIsUnique(Number(bytes), m, bytes[0], Number(bytes[1..]));
  }

  lemma PairsAreExact(a: nat, b: nat, c: nat, d: nat, p: nat)
    requires b < p && d < p && a * p + b == c * p + d
    ensures a == c && b == d
  {
    QuotientIsUnique(a * p + b, p, a, b);
    QuotientIsUnique(c * p + d, p, c, d);
  }

  lemma NetworksSplit(a: seq<Byte>, b: seq<Byte>, prefix: nat)
    requires |a| == |b| && 8 <= prefix <= 8 * |a|
    ensures Network(a, prefix) == Network(b, prefix) <==>
              a[0] == b[0] && Network(a[1..], prefix - 8) == Network(b[1..], prefix - 8)
  {
    NetworkOfFirstByte(a, prefix);
    NetworkOfFirstByte(b, prefix);
    hide Network, Pow2;
    if Network(a, prefix) == Network(b, prefix) {
      PairsAreExact(a[0], Network(a[1..], prefix - 8), b[0], Network(b[1..], prefix - 8), Pow2(prefix - 8));
    }
  }

  /** Whole equal bytes can be skipped; the first unequal one decides. */
  lemma {:induction false} SkipWholeBytes(a: seq<Byte>, b: seq<Byte>, prefix: nat, k: nat)
    requires |a| == |b| && 8 * k <= prefix <= 8 * |a| && a[..k] == b[..k]
    ensures Network(a, prefix) == Network(b, prefix) <==> Network(a[k..], prefix - 8 * k) == Network(b[k..], prefix - 8 * k)
    decreases k
  {
    if k == 0 {
      assert a[0..] == a && b[0..] == b;
    } else {
      NetworksSplit(a, b, prefix);
      assert a[0] == a[..k][0] && b[0] == b[..k][0];
      assert a[1..][..k - 1] == a[..k][1..] && b[1..][..k - 1] == b[..k][1..];
      hide Network;
      SkipWholeBytes(a[1..], b[1..], prefix - 8, k - 1);
      assert a[1..][k - 1..] == a[k..] && b[1..][k - 1..] == b[k..];
      assert prefix - 8 - 8 * (k - 1) == prefix - 8 * k;
    }
  }

  lemma EmptyPrefix(bytes: seq<Byte>)
    ensures Network(bytes, 0) == 0
  {
    NumberIsBounded(bytes);
    hide Number, Pow2, Quotient;
    SmallQuotient(Number(bytes), Pow2(8 * |bytes|));
  }

  lemma SmallQuotient(n: nat, d: nat)
    requires n < d
    ensures Quotient(n, d) == 0
  {
  }

  /** Same network: equal after dividing by two to the number of host bits. */
  predicate SameNetwork(candidate: seq<Byte>, network: seq<Byte>, prefix: nat)
    requires |candidate| == |network| && prefix <= 8 * |network|
  {
    Network(candidate, prefix) == Network(network, prefix)
  }

  /** `withinPrefix`: whole bytes, then one masked byte. */
  method WithinPrefix(candidate: seq<Byte>, network: seq<Byte>, prefix: nat) returns (within: bool)
    requires |candidate| == |network| && prefix <= 8 * |network|
    ensures within == SameNetwork(candidate, network, prefix)
  {
    var wholeBytes := prefix / 8;
    for index := 0 to wholeBytes
      invariant candidate[..index] == network[..index]
    {
      if candidate[index] != network[index] {
        SkipWholeBytes(candidate, network, prefix, index);
        NetworksSplit(candidate[index..], network[index..], prefix - 8 * index);
        return false;
      }
    }
    SkipWholeBytes(candidate, network, prefix, wholeBytes);
    var remainingBits := prefix % 8;
    if remainingBits == 0 {
      EmptyPrefix(candidate[wholeBytes..]);
      EmptyPrefix(network[wholeBytes..]);
      return true;
    }
    var mask := Mask(8 - remainingBits);
    MaskedBytesAgree(candidate[wholeBytes], network[wholeBytes], 8 - remainingBits);
    NetworkOfHighBits(candidate[wholeBytes..], remainingBits);
    NetworkOfHighBits(network[wholeBytes..], remainingBits);
    return BitAnd(candidate[wholeBytes], mask) == BitAnd(network[wholeBytes], mask);
  }

  // ---------------------------------------------------------------------------------------------
  // Configured networks
  // ---------------------------------------------------------------------------------------------

  datatype ParsedCidr = ParsedCidr(ip: ParsedIp, prefix: nat)

  predicate ValidCidr(c: ParsedCidr) {
    ValidIp(c.ip) && c.prefix <= 8 * |c.ip.bytes|
  }

  /** One to three decimal digits; a leading zero is allowed here. */
  predicate IsPrefixText(t: string) {
    1 <= |t| <= 3 && AllDigits(t, 10)
  }

  ghost function ParseCidr(input: string): Option<ParsedCidr> {
    var parts := Split(Trim(input), '/');
    if |parts| > 2 || parts[0] == "" then None
    else match ParseClientIp(Some(parts[0]))
      case None => None
      case Some(ip) =>
        var maxPrefix := 8 * |ip.bytes|;
        if |parts| == 1 then Some(ParsedCidr(ip, maxPrefix))
        else if !IsPrefixText(parts[1]) then None
        else if Read(parts[1], 10) > maxPrefix then None
        else Some(ParsedCidr(ip, Read(parts[1], 10)))
  }

  /** An address, alone or followed by a slash and a prefix that fits its family. */
  ghost predicate SpellsBlock(t: string, address: string, c: ParsedCidr) {
    && '/' !in address && address != "" && ParseClientIp(Some(address)) == Some(c.ip)
    && ((t == address && c.prefix == 8 * |c.ip.bytes|)
        || exists digits :: WithPrefix(t, address, digits, c))
  }

  predicate WithPrefix(t: string, address: string, digits: string, c: ParsedCidr) {
    IsPrefixText(digits) && t == address + "/" + digits && Read(digits, 10) == c.prefix <= 8 * |c.ip.bytes|
  }

  lemma BlockIsSpelled(input: string, c: ParsedCidr)
    requires ParseCidr(input) == Some(c)
    ensures SpellsBlock(Trim(input), Split(Trim(input), '/')[0], c) && ValidCidr(c)
  {
    var t := Trim(input);
    var parts := Split(t, '/');
    JoinOfSplit(t, '/');
    hide ParseClientIp, Trim, Split;
    ParsesToValidIp(Some(parts[0]));
    if |parts| == 2 {
      assert parts[1..] == [parts[1]];
      assert WithPrefix(t, parts[0], parts[1], c);
    } else {
      assert |parts| == 1;
    }
  }

  lemma SpelledBlockParses(input: string, address: string, c: ParsedCidr)
    requires SpellsBlock(Trim(input), address, c)
    ensures ParseCidr(input) == Some(c)
  {
    var t := Trim(input);
    hide ParseClientIp, Trim, Split;
    if t == address && c.prefix == 8 * |c.ip.bytes| {
      SplitNothing(address, '/');
    } else {
      var digits :| WithPrefix(t, address, digits, c);
      DigitsAreNoMarks(digits, 10, '/');
      SplitNothing(digits, '/');
      SplitFirst(address, digits, '/');
      assert address + "/" + digits == address + ['/'] + digits;
    }
  }

  /** Blocks are parsed exactly, and a parsed prefix always fits its address. */
  lemma CidrIsExact(input: string, c: ParsedCidr)
    ensures ParseCidr(input) == Some(c) <==> exists address :: SpellsBlock(Trim(input), address, c)
    ensures ParseCidr(input) == Some(c) ==> ValidCidr(c)
  {
    if ParseCidr(input) == Some(c) {
      BlockIsSpelled(input, c);
    }
    if address :| SpellsBlock(Trim(input), address, c) {
      SpelledBlockParses(input, address, c);
    }
  }

  /** A mapped IPv6 network counts as IPv4, so its prefix is one of 32 bits, not of 128. */
  lemma MappedBlockNeedsIpv4Prefix(address: string, digits: string, ip: ParsedIp)
    requires '/' !in address && address != "" && ParseClientIp(Some(address)) == Some(ip) && ip.family == 4
    requires IsPrefixText(digits) && Trim(address + "/" + digits) == address + "/" + digits
    ensures ParseCidr(address + "/" + digits).Some? <==> Read(digits, 10) <= 32
  {
    hide ParseClientIp, Trim, Split;
    ParsesToValidIp(Some(address));
    DigitsAreNoMarks(digits, 10, '/');
    SplitNothing(digits, '/');
    SplitFirst(address, digits, '/');
    assert address + "/" + digits == address + ['/'] + digits;
  }

  predicate ValidNetworks(networks: seq<ParsedCidr>) {
    forall i :: 0 <= i < |networks| ==> ValidCidr(networks[i])
  }

  predicate Inside(ip: ParsedIp, network: ParsedCidr)
    requires ValidIp(ip) && ValidCidr(network)
  {
    network.ip.family == ip.family && SameNetwork(ip.bytes, network.ip.bytes, network.prefix)
  }

  /** `matchesAnyCidr`. */
  ghost predicate MatchesAnyCidr(value: Option<string>, networks: seq<ParsedCidr>)
    requires ValidNetworks(networks)
  {
    ParsesToValidIp(value);
    match ParseClientIp(value)
    case None => false
    case Some(ip) => exists i :: 0 <= i < |networks| && Inside(ip, networks[i])
  }

  // ---------------------------------------------------------------------------------------------
  // Trusted proxies
  // ---------------------------------------------------------------------------------------------

  /** The header: absent, one value, or several values to be joined. */
  datatype Header = Absent | One(value: string) | Many(values: seq<string>)

  datatype Proxies = Proxies(trustedHops: int, trustedCidrs: seq<ParsedCidr>)

  predicate ValidProxies(p: Proxies) {
    ValidNetworks(p.trustedCidrs)
  }

  function Raw(header: Header): string {
    match header
    case Absent => ""
    case One(value) => value
    case Many(values) => Join(values, ',')
  }

  /** Trimmed entries, empty ones dropped, nearest first. */
  function Entries(parts: seq<string>): seq<string> {
    if parts == [] then []
    else Entries(parts[1..]) + if Trim(parts[0]) == "" then [] else [Trim(parts[0])]
  }

  function Forwarded(header: Header): seq<string> {
    if Raw(header) == "" then [] else Entries(Split(Raw(header), ','))
  }

  ghost predicate WellFormed(addresses: seq<string>) {
    forall a :: a in addresses ==> ParseClientIp(Some(a)).Some?
  }

  /** The loop of `trustedClientAddress`: walk outwards while the address reached is trusted. */
  ghost function Walk(address: string, farther: seq<string>, networks: seq<ParsedCidr>): string
    requires ValidNetworks(networks)
    decreases |farther|
  {
    if farther == [] || !MatchesAnyCidr(Some(address), networks) then address
    else Walk(farther[0], farther[1..], networks)
  }

  ghost function TrustedClientAddress(remoteAddress: Option<string>, header: Header, proxies: Proxies): Option<string>
    requires ValidProxies(proxies)
  {
    if remoteAddress.None? then None
    else
      var remote := Trim(remoteAddress.value);
      if remote == "" || ParseClientIp(Some(remote)).None? then None
      else
        var forwarded := Forwarded(header);
        if !WellFormed(forwarded) then Some(remote)
        else if proxies.trustedHops > 0 then
          var chain := [remote] + forwarded;
          Some(chain[if proxies.trustedHops < |chain| - 1 then proxies.trustedHops else |chain| - 1])
        else if proxies.trustedCidrs == [] then Some(remote)
        else Some(Walk(remote, forwarded, proxies.trustedCidrs))
  }

  /** The resolved address is `chain[k]`: everything nearer is trusted, and it is untrusted or the last. */
  ghost predicate FirstUntrusted(chain: seq<string>, k: nat, networks: seq<ParsedCidr>)
    requires k < |chain| && ValidNetworks(networks)
  {
    && (forall i :: 0 <= i < k ==> MatchesAnyCidr(Some(chain[i]), networks))
    && (k == |chain| - 1 || !MatchesAnyCidr(Some(chain[k]), networks))
  }

  ghost predicate ResolvesAt(chain: seq<string>, k: nat, networks: seq<ParsedCidr>, address: string)
    requires ValidNetworks(networks)
  {
    k < |chain| && FirstUntrusted(chain, k, networks) && address == chain[k]
  }

  lemma {:induction false} WalkFindsFirstUntrusted(address: string, farther: seq<string>, networks: seq<ParsedCidr>) returns (k: nat)
    requires ValidNetworks(networks)
    ensures ResolvesAt([address] + farther, k, networks, Walk(address, farther, networks))
    decreases |farther|
  {
    hide MatchesAnyCidr, ValidNetworks;
    var chain := [address] + farther;
    if farther == [] || !MatchesAnyCidr(Some(address), networks) {
      k := 0;
    } else {
      var l := WalkFindsFirstUntrusted(farther[0], farther[1..], networks);
      assert [farther[0]] + farther[1..] == farther;
      k := l + 1;
      forall i | 0 <= i < k
        ensures MatchesAnyCidr(Some(chain[i]), networks)
      {
        assert i > 0 ==> chain[i] == farther[i - 1];
      }
      assert chain[k] == farther[l];
    }
  }

  /** There is only one such place. */
  lemma FirstUntrustedIsUnique(chain: seq<string>, k: nat, l: nat, networks: seq<ParsedCidr>)
    requires k < |chain| && l < |chain| && ValidNetworks(networks)
    requires FirstUntrusted(chain, k, networks) && FirstUntrusted(chain, l, networks)
    ensures k == l
  {
    hide MatchesAnyCidr;
  }

  /** In CIDR mode, with well-formed entries: the first untrusted address from the right, or the leftmost. */
  lemma CidrModeResolves(remote: string, header: Header, proxies: Proxies, k: nat)
    requires ValidProxies(proxies) && proxies.trustedHops <= 0 && proxies.trustedCidrs != []
    requires Trim(remote) != "" && ParseClientIp(Some(Trim(remote))).Some? && WellFormed(Forwarded(header))
    requires var chain := [Trim(remote)] + Forwarded(header);
      k < |chain| && FirstUntrusted(chain, k, proxies.trustedCidrs)
    ensures TrustedClientAddress(Some(remote), header, proxies) == Some(([Trim(remote)] + Forwarded(header))[k])
  {
    var chain := [Trim(remote)] + Forwarded(header);
    hide MatchesAnyCidr, Forwarded, Trim, ValidNetworks, ParseClientIp;
    var l := WalkFindsFirstUntrusted(Trim(remote), Forwarded(header), proxies.trustedCidrs);
    FirstUntrustedIsUnique(chain, k, l, proxies.trustedCidrs);
  }

  lemma {:induction false} EntriesConcat(a: seq<string>, b: seq<string>)
    ensures Entries(a + b) == Entries(b) + Entries(a)
  {
    if a == [] {
      assert a + b == b;
    } else {
      assert (a + b)[1..] == a[1..] + b;
      EntriesConcat(a[1..], b);
    }
  }

  /** A header after a client put text in front of what the proxies will add. */
  function PutInFront(junk: string, header: Header): Header {
    match header
    case Absent => One(junk)
    case One(value) => One(junk + "," + value)
    case Many(values) => Many([junk] + values)
  }

  lemma {:induction false} NothingForwarded()
    ensures Entries(Split("", ',')) == []
  {
    assert [""][1..] == [];
  }

  lemma EntriesOfFront(junk: string, rest: string)
    ensures Entries(Split(junk + "," + rest, ',')) == Entries(Split(rest, ',')) + Entries(Split(junk, ','))
  {
    var parts, others := Split(junk, ','), Split(rest, ',');
    assert junk + "," + rest == junk + ("," + rest);
    assert ("," + rest)[1..] == rest;
    assert Split("," + rest, ',') == [""] + others;
    hide Split, Entries;
    SplitConcat(junk, "," + rest, ',');
    GlueEmpty(parts, others);
    EntriesConcat(parts, others);
  }

  /** What a client puts in front of any header ends up behind everything the proxies added. */
  lemma FrontGoesLast(junk: string, header: Header)
    ensures Forwarded(PutInFront(junk, header)) == Forwarded(header) + Entries(Split(junk, ','))
  {
    NothingForwarded();
    hide Split, Entries;
    match header
    case Absent =>
    case One(value) =>
      EntriesOfFront(junk, value);
    case Many(values) =>
      if values == [] {
        assert [junk] + values == [junk];
      } else {
        assert ([junk] + values)[1..] == values;
        assert Raw(PutInFront(junk, header)) == junk + "," + Raw(header);
        EntriesOfFront(junk, Raw(header));
      }
  }

  lemma GlueEmpty(a: seq<string>, b: seq<string>)
    requires a != []
    ensures Glue(a, [""] + b) == a + b
  {
    assert a[|a| - 1] + "" == a[|a| - 1];
    assert a == a[..|a| - 1] + [a[|a| - 1]];
    assert ([""] + b)[1..] == b;
  }

  /** How far out the walk gets: the first untrusted place, or the last. */
  ghost function FirstIndex(chain: seq<string>, networks: seq<ParsedCidr>): (k: nat)
    requires chain != [] && ValidNetworks(networks)
    ensures k < |chain|
  {
    if |chain| == 1 || !MatchesAnyCidr(Some(chain[0]), networks) then 0 else 1 + FirstIndex(chain[1..], networks)
  }

  /** The place in the chain that is resolved: so many hops, or as far as trust goes. */
  ghost function StopsAt(chain: seq<string>, proxies: Proxies): (k: nat)
    requires chain != [] && ValidProxies(proxies)
    ensures k < |chain|
  {
    if proxies.trustedHops > 0 then (if proxies.trustedHops < |chain| - 1 then proxies.trustedHops else |chain| - 1)
    else if proxies.trustedCidrs == [] then 0
    else FirstIndex(chain, proxies.trustedCidrs)
  }

  lemma {:induction false} WalkStops(chain: seq<string>, networks: seq<ParsedCidr>)
    requires chain != [] && ValidNetworks(networks)
    ensures Walk(chain[0], chain[1..], networks) == chain[FirstIndex(chain, networks)]
    decreases |chain|
  {
    hide MatchesAnyCidr, ValidNetworks;
    if |chain| > 1 {
      WalkStops(chain[1..], networks);
    }
  }

  ghost predicate Resolvable(remoteAddress: Option<string>) {
    remoteAddress.Some? && Trim(remoteAddress.value) != "" && ParseClientIp(Some(Trim(remoteAddress.value))).Some?
  }

  /** The socket's address, then what was forwarded, nearest first. */
  function Chain(remoteAddress: Option<string>, forwarded: seq<string>): (chain: seq<string>)
    requires remoteAddress.Some?
    ensures chain != []
  {
    [Trim(remoteAddress.value)] + forwarded
  }

  lemma ResolvesToChain(remoteAddress: Option<string>, header: Header, proxies: Proxies)
    requires ValidProxies(proxies) && Resolvable(remoteAddress) && WellFormed(Forwarded(header))
    ensures var chain := Chain(remoteAddress, Forwarded(header));
      TrustedClientAddress(remoteAddress, header, proxies) == Some(chain[StopsAt(chain, proxies)])
  {
    hide MatchesAnyCidr, ParseClientIp, Trim, Forwarded, ValidNetworks, Walk, FirstIndex;
    var chain := Chain(remoteAddress, Forwarded(header));
    assert chain[1..] == Forwarded(header);
    if proxies.trustedHops <= 0 && proxies.trustedCidrs != [] {
      WalkStops(chain, proxies.trustedCidrs);
    }
  }

  /** A longer chain is walked as far as the shorter one was, or farther if nothing there stopped the walk. */
  lemma {:induction false} LongerWalk(chain: seq<string>, far: seq<string>, networks: seq<ParsedCidr>)
    requires chain != [] && ValidNetworks(networks)
    ensures FirstIndex(chain, networks) == Min(FirstIndex(chain + far, networks), |chain| - 1)
    decreases |chain|
  {
    hide MatchesAnyCidr, ValidNetworks;
    if |chain| > 1 {
      assert (chain + far)[1..] == chain[1..] + far;
      LongerWalk(chain[1..], far, networks);
    }
  }

  lemma LongerChain(chain: seq<string>, far: seq<string>, proxies: Proxies)
    requires chain != [] && ValidProxies(proxies)
    ensures StopsAt(chain, proxies) == Min(StopsAt(chain + far, proxies), |chain| - 1)
  {
    if proxies.trustedHops <= 0 && proxies.trustedCidrs != [] {
      LongerWalk(chain, far, proxies.trustedCidrs);
    }
  }

  /** The same answer with the text in front as without it. */
  ghost predicate Unmoved(remoteAddress: Option<string>, junk: string, header: Header, proxies: Proxies)
    requires ValidProxies(proxies)
  {
    TrustedClientAddress(remoteAddress, PutInFront(junk, header), proxies) == TrustedClientAddress(remoteAddress, header, proxies)
  }

  /** Nothing is resolved at all, or a forwarded entry is malformed anyway: the header has no say. */
  ghost predicate HeaderIgnored(remoteAddress: Option<string>, header: Header) {
    !Resolvable(remoteAddress) || !WellFormed(Forwarded(header))
  }

  lemma IgnoredHeaderStaysIgnored(remoteAddress: Option<string>, junk: string, header: Header, proxies: Proxies)
    requires ValidProxies(proxies) && HeaderIgnored(remoteAddress, header)
    ensures Unmoved(remoteAddress, junk, header, proxies)
  {
    FrontGoesLast(junk, header);
    hide MatchesAnyCidr, ParseClientIp, Trim, Forwarded, ValidNetworks, Walk, Entries, Split, PutInFront;
    if Resolvable(remoteAddress) {
      var a :| a in Forwarded(header) && ParseClientIp(Some(a)).None?;
      assert a in Forwarded(PutInFront(junk, header));
    }
  }

  /**
   * What text put in front of any header does, for every text. If all of it is well-formed, the answer
   * stays exactly when the place the extended chain resolves to lies before it, or holds the same text
   * as the last place before it. If any of it is malformed, the answer stays exactly when it was the
   * socket's address already.
   */
  lemma InventedEntriesMatterExactly(remoteAddress: Option<string>, junk: string, header: Header, proxies: Proxies)
    requires ValidProxies(proxies)
    ensures Unmoved(remoteAddress, junk, header, proxies) <==>
      || HeaderIgnored(remoteAddress, header)
      || var near := Chain(remoteAddress, Forwarded(header)); var far := Entries(Split(junk, ','));
         if WellFormed(far) then
           var k := StopsAt(near + far, proxies);
           k < |near| || (near + far)[k] == near[|near| - 1]
         else
           near[StopsAt(near, proxies)] == near[0]
  {
    if HeaderIgnored(remoteAddress, header) {
      IgnoredHeaderStaysIgnored(remoteAddress, junk, header, proxies);
    } else {
      assert remoteAddress.Some?;
      hide HeaderIgnored, Unmoved, WellFormed, Entries, Split, Forwarded, StopsAt, ValidNetworks;
      if WellFormed(Entries(Split(junk, ','))) {
        WellFormedFrontMatters(remoteAddress, junk, header, proxies);
      } else {
        MalformedFrontMatters(remoteAddress, junk, header, proxies);
      }
    }
  }

  lemma WellFormedFrontMatters(remoteAddress: Option<string>, junk: string, header: Header, proxies: Proxies)
    requires ValidProxies(proxies) && !HeaderIgnored(remoteAddress, header) && WellFormed(Entries(Split(junk, ',')))
    ensures var near := Chain(remoteAddress, Forwarded(header)); var far := Entries(Split(junk, ','));
      var k := StopsAt(near + far, proxies);
      Unmoved(remoteAddress, junk, header, proxies) <==> k < |near| || (near + far)[k] == near[|near| - 1]
  {
    FrontGoesLast(junk, header);
    hide MatchesAnyCidr, ParseClientIp, Forwarded, ValidNetworks, Walk, Entries, Split, PutInFront, StopsAt, TrustedClientAddress, Trim;
    ResolvesToChain(remoteAddress, header, proxies);
    var near, far := Chain(remoteAddress, Forwarded(header)), Entries(Split(junk, ','));
    assert WellFormed(Forwarded(header) + far);
    ResolvesToChain(remoteAddress, PutInFront(junk, header), proxies);
    assert Chain(remoteAddress, Forwarded(header) + far) == near + far;
    LongerChain(near, far, proxies);
  }

  lemma MalformedFrontMatters(remoteAddress: Option<string>, junk: string, header: Header, proxies: Proxies)
    requires ValidProxies(proxies) && !HeaderIgnored(remoteAddress, header) && !WellFormed(Entries(Split(junk, ',')))
    ensures var near := Chain(remoteAddress, Forwarded(header));
      Unmoved(remoteAddress, junk, header, proxies) <==> near[StopsAt(near, proxies)] == near[0]
  {
    FrontGoesLast(junk, header);
    hide MatchesAnyCidr, ParseClientIp, Forwarded, ValidNetworks, Walk, Entries, Split, PutInFront, StopsAt, TrustedClientAddress, Trim;
    ResolvesToChain(remoteAddress, header, proxies);
    var far := Entries(Split(junk, ','));
    var a :| a in far && ParseClientIp(Some(a)).None?;
    assert a in Forwarded(PutInFront(junk, header));
    MalformedEntryFallsBack(remoteAddress.value, PutInFront(junk, header), proxies);
  }

  /** The chain settles the answer by itself: the hops end inside it, or it has an untrusted address. */
  ghost predicate Settles(chain: seq<string>, proxies: Proxies)
    requires chain != [] && ValidProxies(proxies)
  {
    if proxies.trustedHops > 0 then proxies.trustedHops < |chain|
    else proxies.trustedCidrs == [] || exists i :: 0 <= i < |chain| && !MatchesAnyCidr(Some(chain[i]), proxies.trustedCidrs)
  }

  lemma {:induction false} WalkSettles(chain: seq<string>, far: seq<string>, networks: seq<ParsedCidr>)
    requires chain != [] && ValidNetworks(networks)
    ensures (exists i :: 0 <= i < |chain| && !MatchesAnyCidr(Some(chain[i]), networks)) ==>
              FirstIndex(chain + far, networks) < |chain|
    ensures !(exists i :: 0 <= i < |chain| && !MatchesAnyCidr(Some(chain[i]), networks)) && |far| == 1 ==>
              FirstIndex(chain + far, networks) == |chain|
    decreases |chain|
  {
    hide MatchesAnyCidr, ValidNetworks;
    var longer := chain + far;
    if |chain| == 1 {
      if |far| == 1 {
        assert longer[1..] == far;
      }
    } else {
      assert longer[1..] == chain[1..] + far;
      assert longer[0] == chain[0];
      assert forall i :: 0 <= i < |chain| - 1 ==> chain[1..][i] == chain[i + 1];
      WalkSettles(chain[1..], far, networks);
      if MatchesAnyCidr(Some(chain[0]), networks) {
        if i :| 0 <= i < |chain| && !MatchesAnyCidr(Some(chain[i]), networks) {
          assert chain[1..][i - 1] == chain[i];
        }
      }
    }
  }

  lemma SettledChain(chain: seq<string>, far: seq<string>, proxies: Proxies)
    requires chain != [] && ValidProxies(proxies)
    ensures Settles(chain, proxies) ==> StopsAt(chain + far, proxies) < |chain|
    ensures !Settles(chain, proxies) && |far| == 1 ==> StopsAt(chain + far, proxies) == |chain|
  {
    hide MatchesAnyCidr, FirstIndex, ValidNetworks;
    if proxies.trustedHops <= 0 && proxies.trustedCidrs != [] {
      WalkSettles(chain, far, proxies.trustedCidrs);
    }
  }

  /** Two addresses a client may write, and something that is none. */
  const ONES := "1.1.1.1"
  const TWOS := "2.2.2.2"
  const NONSENSE := "x"

  lemma QuadText(digit: char)
    requires digit == '1' || digit == '2'
    ensures var t := [digit, '.', digit, '.', digit, '.', digit]; ParseIpv4(t).Some? && ',' !in t
  {
    var parts := [[digit], [digit], [digit], [digit]];
    var t := [digit, '.', digit, '.', digit, '.', digit];
    assert parts[1..][1..][1..] == [[digit]] && parts[1..][1..] == [[digit], [digit]] && parts[1..] == [[digit], [digit], [digit]];
    assert Join([[digit], [digit]], '.') == [digit, '.', digit];
    assert Join(parts[1..], '.') == [digit, '.', digit, '.', digit];
    assert Join(parts, '.') == t;
    SplitOfJoin(parts, '.');
    assert [digit][..0] == "";
    assert IsOctet([digit]);
  }

  lemma OneEntry(t: string)
    requires t != "" && ',' !in t && !IsSpace(t[0]) && !IsSpace(t[|t| - 1])
    ensures Trim(t) == t && Entries(Split(t, ',')) == [t]
  {
    SplitNothing(t, ',');
    assert [t][1..] == [];
    hide Split;
  }

  lemma BareQuadParses(t: string)
    requires t != "" && Trim(t) == t && Unbracketed(t) == t && ParseIpv4(t).Some?
    ensures WellFormed([t])
  {
    hide Trim, Unbracketed, ParseIpv4, ParseIpv6, IsIpv6, Zoneless;
    assert ParseClientIp(Some(t)).Some?;
  }

  lemma AddressEntry(t: string)
    requires t == ONES || t == TWOS
    ensures Entries(Split(t, ',')) == [t] && WellFormed([t])
  {
    hide ParseIpv4, Trim, Entries, Split, WellFormed;
    QuadText('1');
    QuadText('2');
    assert ONES == ['1', '.', '1', '.', '1', '.', '1'] && TWOS == ['2', '.', '2', '.', '2', '.', '2'];
    OneEntry(t);
    BareQuadParses(t);
  }

  lemma NonsenseEntry()
    ensures Entries(Split(NONSENSE, ',')) == [NONSENSE] && !WellFormed([NONSENSE])
  {
    var t := NONSENSE;
    OneEntry(t);
    SplitNothing(t, '.');
    SplitNothing(t, ':');
    assert Tail(t) == Tail("") + "x" by {
      assert t[..0] == "";
    }
    assert Zoneless(t) == ['x'] + Zoneless("") by {
      assert t[1..] == "";
    }
    assert Zoneless(t) == t && Tail(t) == t;
    assert ParseIpv6(t).None?;
    PlatformAgrees(t);
    hide IsIpv6, ParseIpv6, Trim;
    assert Unbracketed(t) == t;
    assert ParseClientIp(Some(t)).None?;
    assert t in [NONSENSE];
  }

  /** No well-formed text in front moves the answer if and only if the chain settles it by itself. */
  lemma WellFormedEntriesNeverMatterExactly(remoteAddress: Option<string>, header: Header, proxies: Proxies)
    requires ValidProxies(proxies) && !HeaderIgnored(remoteAddress, header)
    ensures (forall junk :: WellFormed(Entries(Split(junk, ','))) ==> Unmoved(remoteAddress, junk, header, proxies)) <==>
      Settles(Chain(remoteAddress, Forwarded(header)), proxies)
  {
    var near := Chain(remoteAddress, Forwarded(header));
    hide Settles, Unmoved, WellFormed, Entries, Split, Forwarded, StopsAt, HeaderIgnored, ValidNetworks;
    if Settles(near, proxies) {
      forall junk | WellFormed(Entries(Split(junk, ',')))
        ensures Unmoved(remoteAddress, junk, header, proxies)
      {
        SettledChain(near, Entries(Split(junk, ',')), proxies);
        InventedEntriesMatterExactly(remoteAddress, junk, header, proxies);
      }
    } else {
      var junk := if near[|near| - 1] == ONES then TWOS else ONES;
      assert ONES[0] != TWOS[0];
      AddressEntry(junk);
      SettledChain(near, [junk], proxies);
      InventedEntriesMatterExactly(remoteAddress, junk, header, proxies);
      assert (near + [junk])[|near|] == junk;
    }
  }

  /** No text in front whatever moves it if and only if, besides, the answer is the socket's address. */
  lemma InventedEntriesNeverMatterExactly(remoteAddress: Option<string>, header: Header, proxies: Proxies)
    requires ValidProxies(proxies) && !HeaderIgnored(remoteAddress, header)
    ensures (forall junk :: Unmoved(remoteAddress, junk, header, proxies)) <==>
      var near := Chain(remoteAddress, Forwarded(header));
      Settles(near, proxies) && near[StopsAt(near, proxies)] == near[0]
  {
    var near := Chain(remoteAddress, Forwarded(header));
    hide Settles, Unmoved, WellFormed, Entries, Split, Forwarded, StopsAt, HeaderIgnored, ValidNetworks;
    WellFormedEntriesNeverMatterExactly(remoteAddress, header, proxies);
    if Settles(near, proxies) && near[StopsAt(near, proxies)] == near[0] {
      forall junk
        ensures Unmoved(remoteAddress, junk, header, proxies)
      {
        if !WellFormed(Entries(Split(junk, ','))) {
          InventedEntriesMatterExactly(remoteAddress, junk, header, proxies);
        }
      }
    } else {
      NonsenseEntry();
      InventedEntriesMatterExactly(remoteAddress, NONSENSE, header, proxies);
    }
  }

  /** One malformed entry anywhere, even one the client invented, falls back to the socket's address. */
  lemma MalformedEntryFallsBack(remote: string, header: Header, proxies: Proxies)
    requires ValidProxies(proxies) && Trim(remote) != "" && ParseClientIp(Some(Trim(remote))).Some?
    requires !WellFormed(Forwarded(header))
    ensures TrustedClientAddress(Some(remote), header, proxies) == Some(Trim(remote))
  {
  }

  lemma OneMoreNetwork(value: Option<string>, networks: seq<ParsedCidr>, ip: ParsedIp, i: nat)
    requires ValidNetworks(networks) && ParseClientIp(value) == Some(ip) && ValidIp(ip)
    requires i < |networks| && Inside(ip, networks[i])
    ensures MatchesAnyCidr(value, networks)
  {
  }

  /** `matchesAnyCidr`: networks of the same family are tried until one contains the address. */
  method MatchAny(value: Option<string>, networks: seq<ParsedCidr>) returns (matched: bool)
    requires ValidNetworks(networks)
    ensures matched == MatchesAnyCidr(value, networks)
  {
    hide ParseClientIp, SameNetwork;
    var parsed := ParseAddress(value);
    ParsesToValidIp(value);
    if parsed.None? {
      return false;
    }
    for i := 0 to |networks|
      invariant forall n :: 0 <= n < i ==> !Inside(parsed.value, networks[n])
    {
      if networks[i].ip.family == parsed.value.family {
        var within := WithinPrefix(parsed.value.bytes, networks[i].ip.bytes, networks[i].prefix);
        if within {
          OneMoreNetwork(value, networks, parsed.value, i);
          return true;
        }
      }
    }
    return false;
  }

  method WalkOutwards(remote: string, forwarded: seq<string>, networks: seq<ParsedCidr>) returns (address: string)
    requires ValidNetworks(networks)
    ensures address == Walk(remote, forwarded, networks)
  {
    hide MatchesAnyCidr, ValidNetworks;
    address := remote;
    var i := 0;
    while i < |forwarded|
      invariant i <= |forwarded|
      invariant Walk(address, forwarded[i..], networks) == Walk(remote, forwarded, networks)
    {
      var trusted := MatchAny(Some(address), networks);
      if !trusted {
        break;
      }
      assert forwarded[i..][0] == forwarded[i] && forwarded[i..][1..] == forwarded[i + 1..];
      address := forwarded[i];
      i := i + 1;
    }
  }

  /** `trustedClientAddress`. */
  method ResolveClientAddress(remoteAddress: Option<string>, header: Header, proxies: Proxies) returns (r: Option<string>)
    requires ValidProxies(proxies)
    ensures r == TrustedClientAddress(remoteAddress, header, proxies)
  {
    hide MatchesAnyCidr, ParseClientIp, Trim, Forwarded, ValidNetworks, Walk;
    if remoteAddress.None? {
      return None;
    }
    var remote := Trim(remoteAddress.value);
    var parsed := ParseAddress(Some(remote));
    if remote == "" || parsed.None? {
      return None;
    }
    var forwarded := Forwarded(header);
    for i := 0 to |forwarded|
      invariant forall n :: 0 <= n < i ==> ParseClientIp(Some(forwarded[n])).Some?
    {
      var entry := ParseAddress(Some(forwarded[i]));
      if entry.None? {
        assert forwarded[i] in forwarded;
        return Some(remote);
      }
    }
    if proxies.trustedHops > 0 {
      var chain := [remote] + forwarded;
      return Some(chain[if proxies.trustedHops < |chain| - 1 then proxies.trustedHops else |chain| - 1]);
    }
    if |proxies.trustedCidrs| == 0 {
      return Some(remote);
    }
    var address := WalkOutwards(remote, forwarded, proxies.trustedCidrs);
    return Some(address);
  }
}
