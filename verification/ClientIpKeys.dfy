/** Rate-limit keys of client addresses, and the loops of the address parser. */
module ClientIpKeys {
  import opened Wrappers
  import opened Texts
  import opened ClientIp

  const UNRESOLVED_CLIENT_IP := "ip:unresolved"
  const IPV6_BUCKET_BITS := 64

  function HextetTexts(bytes: seq<Byte>): (parts: seq<string>)
    requires |bytes| % 2 == 0
    ensures |parts| == |bytes| / 2
  {
    if bytes == [] then [] else [Print(Word(bytes[0], bytes[1]), 16)] + HextetTexts(bytes[2..])
  }

  /** `clientIpKey`. */
  function KeyOf(ip: Option<ParsedIp>): string
    requires ip.Some? ==> ValidIp(ip.value)
  {
    match ip
    case None => UNRESOLVED_CLIENT_IP
    case Some(parsed) =>
      if parsed.family == 4 then "ip4:" + Quad(parsed.bytes)
      else "ip6:" + Join(HextetTexts(parsed.bytes[..IPV6_BUCKET_BITS / 8]), ':')
  }

  ghost function ClientIpKey(value: Option<string>): string {
    ParsesToValidIp(value);
    KeyOf(ParseClientIp(value))
  }

  lemma ParsesToValidIp(value: Option<string>)
    ensures ParseClientIp(value).Some? ==> ValidIp(ParseClientIp(value).value)
  {
    if ParseClientIp(value).Some? {
      ClientIpIsExact(value.value, ParseClientIp(value).value);
    }
  }

  /** The addresses one bucket stands for: one IPv4 address, one IPv6 /64, or all unresolved ones. */
  predicate SameBucket(a: Option<ParsedIp>, b: Option<ParsedIp>)
    requires (a.Some? ==> ValidIp(a.value)) && (b.Some? ==> ValidIp(b.value))
  {
    (a.None? && b.None?)
    || (a.Some? && b.Some? && a.value.family == b.value.family
        && if a.value.family == 4 then a.value.bytes == b.value.bytes else a.value.bytes[..8] == b.value.bytes[..8])
  }

  lemma {:induction false} HextetTextsAreExact(a: seq<Byte>, b: seq<Byte>)
    requires |a| == |b| && |a| % 2 == 0 && HextetTexts(a) == HextetTexts(b)
    ensures a == b
  {
    if a != [] {
      assert HextetTexts(a)[0] == HextetTexts(b)[0] && HextetTexts(a)[1..] == HextetTexts(b)[1..];
      WordIsHextet(a[0], a[1]);
      WordIsHextet(b[0], b[1]);
      HextetTextsAreExact(a[2..], b[2..]);
      assert a == [a[0], a[1]] + a[2..] && b == [b[0], b[1]] + b[2..];
    }
  }

  lemma {:induction false} HextetTextsAreHextets(bytes: seq<Byte>)
    requires |bytes| % 2 == 0
    ensures AllHextets(HextetTexts(bytes))
  {
    if bytes != [] {
      WordIsHextet(bytes[0], bytes[1]);
      HextetTextsAreHextets(bytes[2..]);
    }
  }

  lemma SameQuads(a: seq<Byte>, b: seq<Byte>)
    requires |a| == 4 && |b| == 4 && Quad(a) == Quad(b)
    ensures a == b
  {
    Ipv4IsExact(Quad(a), a);
    Ipv4IsExact(Quad(a), b);
  }

  lemma SameHextets(a: seq<Byte>, b: seq<Byte>)
    requires |a| == 8 && |b| == 8 && Join(HextetTexts(a), ':') == Join(HextetTexts(b), ':')
    ensures a == b
  {
    HextetTextsAreHextets(a);
    HextetTextsAreHextets(b);
    HextetsAreFree(HextetTexts(a), ':');
    HextetsAreFree(HextetTexts(b), ':');
    JoinIsExact(HextetTexts(a), HextetTexts(b), ':');
    HextetTextsAreExact(a, b);
  }

  lemma KeysAgree(a: Option<ParsedIp>, b: Option<ParsedIp>)
    requires (a.Some? ==> ValidIp(a.value)) && (b.Some? ==> ValidIp(b.value))
    ensures KeyOf(a) == KeyOf(b) <==> SameBucket(a, b)
  {
    var s, t := KeyOf(a), KeyOf(b);
    if a.Some? && b.Some? && a.value.family == b.value.family {
      assert s[4..] == t[4..] || s != t;
      if s == t && a.value.family == 4 {
        assert s[4..] == Quad(a.value.bytes) && t[4..] == Quad(b.value.bytes);
        SameQuads(a.value.bytes, b.value.bytes);
      } else if s == t {
        var x, y := a.value.bytes[..8], b.value.bytes[..8];
        assert s[4..] == Join(HextetTexts(x), ':') && t[4..] == Join(HextetTexts(y), ':');
        SameHextets(x, y);
      }
    } else if a.Some? || b.Some? {
      assert s[2] != t[2];
    }
  }

  /** Two inputs share a rate-limit key exactly when they name the same bucket. */
  lemma ClientIpKeysAgree(a: Option<string>, b: Option<string>)
    ensures (ParseClientIp(a).Some? ==> ValidIp(ParseClientIp(a).value))
      && (ParseClientIp(b).Some? ==> ValidIp(ParseClientIp(b).value))
    ensures ClientIpKey(a) == ClientIpKey(b) <==> SameBucket(ParseClientIp(a), ParseClientIp(b))
  {
    ParsesToValidIp(a);
    ParsesToValidIp(b);
    KeysAgree(ParseClientIp(a), ParseClientIp(b));
  }

  /** A spelling of the form, with or without a zone. */
  function Spelled(f: Form, zone: Option<string>): string {
    if zone.Some? then TextOf(f) + "%" + zone.value else TextOf(f)
  }

  lemma SpelledZoneless(f: Form, zone: Option<string>)
    requires Legal(f)
    ensures Zoneless(Spelled(f, zone)) == TextOf(f)
  {
    NoZoneInText(f);
    hide TextOf, Zoneless;
    ZoneIsDropped(TextOf(f), if zone.Some? then zone.value else "");
  }

  /** The same address in any legal spelling, zone or not, gets the same key; so does IPv4 when mapped. */
  lemma SpellingDoesNotMatter(f: Form, zone: Option<string>, value: string)
    requires Legal(f) && Unbracketed(Trim(value)) == Spelled(f, zone)
    ensures ParseClientIp(Some(value)) == Some(Unwrap(BytesOf(f)))
  {
    hide ParseClientIp, Trim, Unbracketed, TextOf, BytesOf, Legal, Unwrap, Spelled;
    SpelledZoneless(f, zone);
    assert Denotes(Zoneless(Spelled(f, zone)), BytesOf(f));
    ClientIpIsExact(value, Unwrap(BytesOf(f)));
  }

  // ---------------------------------------------------------------------------------------------
  // The loops
  // ---------------------------------------------------------------------------------------------

  lemma OneMoreGroup(groups: seq<string>, i: nat)
    requires i < |groups| && AllHextets(groups[..i]) && IsHextet(groups[i])
    ensures AllHextets(groups[..i + 1])
    ensures WordBytes(groups[..i + 1])
            == WordBytes(groups[..i]) + [High(HextetValue(groups[i])), Low(HextetValue(groups[i]))]
  {
    assert groups[..i + 1] == groups[..i] + [groups[i]];
    BytesConcat(groups[..i], [groups[i]]);
  }

  /** The loop of `parseIpv6Bytes`: groups become bytes one at a time, up to the first bad one. */
  method BytesOfGroups(groups: seq<string>) returns (r: Option<seq<Byte>>)
    ensures r == if AllHextets(groups) then Some(WordBytes(groups)) else None
  {
    var bytes: seq<Byte> := [];
    for i := 0 to |groups|
      invariant AllHextets(groups[..i]) && bytes == WordBytes(groups[..i])
    {
      if !IsHextet(groups[i]) {
        assert groups[i] in groups;
        return None;
      }
      OneMoreGroup(groups, i);
      var word := HextetValue(groups[i]);
      bytes := bytes + [High(word), Low(word)];
    }
    assert groups[..|groups|] == groups;
    return Some(bytes);
  }

  method ParseIpv6Bytes(input: string) returns (r: Option<seq<Byte>>)
    ensures r == ParseIpv6(input)
  {
    var rewritten := Rewritten(Zoneless(input));
    if rewritten.None? {
      return None;
    }
    var groups := EightGroups(rewritten.value);
    if groups.None? {
      return None;
    }
    r := BytesOfGroups(groups.value);
  }

  /** `isIpv4Mapped`. */
  method CheckIpv4Mapped(bytes: seq<Byte>) returns (mapped: bool)
    requires |bytes| == 16
    ensures mapped == IsIpv4Mapped(bytes)
  {
    for index := 0 to 10
      invariant forall i :: 0 <= i < index ==> bytes[i] == 0
    {
      if bytes[index] != 0 {
        return false;
      }
    }
    return bytes[10] == 0xFF && bytes[11] == 0xFF;
  }

  lemma {:induction false} HextetTextsSnoc(bytes: seq<Byte>, high: Byte, low: Byte)
    requires |bytes| % 2 == 0
    ensures HextetTexts(bytes + [high, low]) == HextetTexts(bytes) + [Print(Word(high, low), 16)]
  {
    if bytes == [] {
      assert ([high, low])[2..] == [];
      assert [] + [high, low] == [high, low];
    } else {
      assert (bytes + [high, low])[2..] == bytes[2..] + [high, low];
      HextetTextsSnoc(bytes[2..], high, low);
    }
  }

  /** `hextets`: `count` bytes, two at a time. */
  method Hextets(bytes: seq<Byte>, count: nat) returns (text: string)
    requires count <= |bytes| && count % 2 == 0
    ensures text == Join(HextetTexts(bytes[..count]), ':')
  {
    var groups: seq<string> := [];
    var index := 0;
    while index < count
      invariant index <= count && index % 2 == 0
      invariant groups == HextetTexts(bytes[..index])
    {
      HextetTextsSnoc(bytes[..index], bytes[index], bytes[index + 1]);
      assert bytes[..index] + [bytes[index], bytes[index + 1]] == bytes[..index + 2];
      groups := groups + [Print(Word(bytes[index], bytes[index + 1]), 16)];
      index := index + 2;
    }
    return Join(groups, ':');
  }

  /** `parseClientIp`; the platform's check is answered as `PlatformAgrees` says it may be. */
  method ParseAddress(value: Option<string>) returns (r: Option<ParsedIp>)
    ensures r == ParseClientIp(value)
  {
    hide Trim, Unbracketed, ParseIpv4, ParseIpv6, Zoneless, IsIpv6, IsIpv4Mapped;
    if value.None? {
      return None;
    }
    var trimmed := Unbracketed(Trim(value.value));
    if trimmed == "" {
      return None;
    }
    var ipv4 := ParseIpv4(trimmed);
    if ipv4.Some? {
      return Some(ParsedIp(4, ipv4.value));
    }
    PlatformAgrees(trimmed);
    var ipv6 := ParseIpv6Bytes(trimmed);
    if ipv6.None? {
      return None;
    }
    ParsedIpv6IsSixteenBytes(trimmed);
    var mapped := CheckIpv4Mapped(ipv6.value);
    return Some(if mapped then ParsedIp(4, ipv6.value[12..]) else ParsedIp(6, ipv6.value));
  }

  /** `clientIpKey`. */
  method ComputeKey(value: Option<string>) returns (key: string)
    ensures key == ClientIpKey(value)
  {
    hide ParseClientIp, Quad, Join, HextetTexts, IsIpv4Mapped;
    var parsed := ParseAddress(value);
    ParsesToValidIp(value);
    if parsed.None? {
      return UNRESOLVED_CLIENT_IP;
    }
    if parsed.value.family == 4 {
      return "ip4:" + Quad(parsed.value.bytes);
    }
    var groups := Hextets(parsed.value.bytes, IPV6_BUCKET_BITS / 8);
    return "ip6:" + groups;
  }
}
