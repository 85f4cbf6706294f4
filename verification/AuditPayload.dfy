/**
 * What an audit signature covers: the payload of `signAuditEvent`, versioned, and `verifyAuditEvent`.
 * The keyed hash is symbolic: equal tags mean equal keys and equal payload texts.
 */
module AuditPayload {
  import opened Wrappers
  import opened CanonicalJson

  /** Instants are represented by their ISO text, which determines them. */
  datatype AuditRecord = AuditRecord(
    id: Text,
    organizationId: Option<Text>,
    actorUserId: Option<Text>,
    action: Text,
    entityType: Text,
    entityId: Option<Text>,
    requestId: Option<Text>,
    ipHash: Option<Text>,
    userAgent: Option<Text>,
    metadata: Json,
    createdAt: Text,
    updatedAt: Option<Text>,
    deletedAt: Option<Text>,
    integrityVersion: Option<nat>)

  predicate IsAscii(s: string) {
    forall i :: 0 <= i < |s| ==> s[i] < '\U{0080}'
  }

  function Ascii(s: string): (t: Text)
    requires IsAscii(s)
    ensures |t| == |s| && forall i :: 0 <= i < |s| ==> t[i] == s[i] as int
  {
    seq(|s|, i requires 0 <= i < |s| => var u: Unit := s[i] as int; u)
  }

  /** The decimal text of a version number. */
  function Decimal(n: nat): (t: NumberText)
  {
    if n < 10 then [0x30 + n] else Decimal(n / 10) + [0x30 + n % 10]
  }

  function VersionOf(r: AuditRecord): nat {
    if r.integrityVersion.Some? then r.integrityVersion.value else 1
  }

  function OrNull(t: Option<Text>): Json {
    if t.Some? then String(t.value) else Null
  }

  const NAMES: seq<string> := [
    "version", "id", "actorUserId", "action", "entityType", "entityId", "requestId", "ipHash",
    "userAgent", "metadata", "createdAt", "updatedAt", "deletedAt", "organizationId"]

  function UpdatedAt(r: AuditRecord): Text {
    if r.updatedAt.Some? then r.updatedAt.value else r.createdAt
  }

  /** The value under the k-th of `NAMES`. */
  function SignedValue(r: AuditRecord, k: nat): Json {
    match k
    case 0 => Number(Decimal(VersionOf(r)))
    case 1 => String(r.id)
    case 2 => OrNull(r.actorUserId)
    case 3 => String(r.action)
    case 4 => String(r.entityType)
    case 5 => OrNull(r.entityId)
    case 6 => OrNull(r.requestId)
    case 7 => OrNull(r.ipHash)
    case 8 => OrNull(r.userAgent)
    case 9 => if r.metadata.Undefined? then Null else r.metadata
    case 10 => String(r.createdAt)
    case 11 => String(UpdatedAt(r))
    case 12 => OrNull(r.deletedAt)
    case _ => OrNull(r.organizationId)
  }

  /** The last name, tenant attribution, is signed from version 2 on. */
  function SignedValues(r: AuditRecord): (values: seq<Json>)
  {
    seq(if VersionOf(r) >= 2 then |NAMES| else |NAMES| - 1, k requires 0 <= k => SignedValue(r, k))
  }

  lemma NamesAreAscii()
    ensures forall k :: 0 <= k < |NAMES| ==> IsAscii(NAMES[k])
  {
  }

  /** Length and first two letters tell the names apart. */
  function Signature(name: string): nat {
    if |name| < 2 then 0 else |name| * 1000000 + (name[0] as nat) * 1000 + name[1] as nat
  }

  lemma NamesAreDistinct()
    ensures forall i, j :: 0 <= i < j < |NAMES| ==> NAMES[i] != NAMES[j]
  {
    var sigs := [7118101, 2105100, 11097099, 6097099, 10101110, 8101110, 9114101, 6105112, 9117115, 8109101, 9099114,
                 9117112, 9100101, 14111114];
    assert forall i :: 0 <= i < |NAMES| ==> Signature(NAMES[i]) == sigs[i];
    hide Signature;
    assert forall i, j :: 0 <= i < j < |sigs| ==> sigs[i] != sigs[j];
  }

  /** The object literal with these names and values, in order. */
  function Fields(names: seq<string>, values: seq<Json>): Members
    requires |values| <= |names| && forall k :: 0 <= k < |names| ==> IsAscii(names[k])
  {
    if values == [] then NoMembers else Member(Ascii(names[0]), values[0], Fields(names[1..], values[1..]))
  }

  function PayloadObject(r: AuditRecord): Json {
    NamesAreAscii();
    Object(Fields(NAMES, SignedValues(r)))
  }

  /** The text under the signature. */
  function Payload(r: AuditRecord): Text {
    Canonical(PayloadObject(r))
  }

  lemma {:induction false} FieldKeys(names: seq<string>, values: seq<Json>, key: Text)
    requires |values| <= |names| && forall k :: 0 <= k < |names| ==> IsAscii(names[k])
    ensures key in Keys(Fields(names, values)) <==> exists k :: 0 <= k < |values| && key == Ascii(names[k])
    decreases |values|
  {
    if values != [] {
      var more, rest := names[1..], values[1..];
      FieldKeys(more, rest, key);
      if k :| 0 <= k < |rest| && key == Ascii(more[k]) {
        assert names[k + 1] == more[k];
      }
      if k :| 0 <= k < |values| && key == Ascii(names[k]) && k > 0 {
        assert names[k] == more[k - 1];
      }
    }
  }

  lemma AsciiIsExact(a: string, b: string)
    requires IsAscii(a) && IsAscii(b) && Ascii(a) == Ascii(b)
    ensures a == b
  {
    forall i | 0 <= i < |a|
      ensures a[i] == b[i]
    {
      assert Ascii(a)[i] == Ascii(b)[i];
    }
  }

  ghost predicate DistinctNames(names: seq<string>) {
    && (forall k :: 0 <= k < |names| ==> IsAscii(names[k]))
    && (forall i, j :: 0 <= i < j < |names| ==> names[i] != names[j])
  }

  lemma FirstNameIsNew(names: seq<string>, values: seq<Json>)
    requires DistinctNames(names) && 0 < |values| <= |names|
    ensures DistinctNames(names[1..]) && Ascii(names[0]) !in Keys(Fields(names[1..], values[1..]))
  {
    FieldKeys(names[1..], values[1..], Ascii(names[0]));
    if k :| 0 <= k < |values| - 1 && Ascii(names[0]) == Ascii(names[1..][k]) {
      AsciiIsExact(names[0], names[k + 1]);
    }
  }

  lemma {:induction false} FieldsHaveUniqueKeys(names: seq<string>, values: seq<Json>)
    requires DistinctNames(names) && |values| <= |names| && forall v :: v in values ==> UniqueKeys(v)
    ensures UniqueKeysInMembers(Fields(names, values))
    decreases |values|
  {
    if values != [] {
      FirstNameIsNew(names, values);
      FieldsHaveUniqueKeys(names[1..], values[1..]);
    }
  }

  lemma UpdatesAgree(key: Text, m: map<Text, Value>, n: map<Text, Value>, x: Value, y: Value)
    requires key !in m && key !in n
    ensures m[key := x] == n[key := y] <==> m == n && x == y
  {
    assert m == m[key := x] - {key} && n == n[key := y] - {key};
    if m[key := x] == n[key := y] {
      assert m[key := x][key] == x && n[key := y][key] == y;
    }
  }

  predicate SameMeanings(a: seq<Json>, b: seq<Json>) {
    |a| == |b| && forall k :: 0 <= k < |a| ==> Meaning(a[k]) == Meaning(b[k])
  }

  lemma SameMeaningsStep(a: seq<Json>, b: seq<Json>)
    requires a != [] && b != []
    ensures SameMeanings(a, b) <==> Meaning(a[0]) == Meaning(b[0]) && SameMeanings(a[1..], b[1..])
  {
    assert a == [a[0]] + a[1..] && b == [b[0]] + b[1..];
  }

  /** Two objects with the same names mean the same exactly when their values do, one by one. */
  lemma {:induction false} FieldsAgree(names: seq<string>, a: seq<Json>, b: seq<Json>)
    requires DistinctNames(names) && |a| == |b| <= |names|
    ensures MemberMeanings(Fields(names, a)) == MemberMeanings(Fields(names, b)) <==> SameMeanings(a, b)
    decreases |a|
  {
    if a != [] {
      FirstNameIsNew(names, a);
      FirstNameIsNew(names, b);
      var restA, restB := Fields(names[1..], a[1..]), Fields(names[1..], b[1..]);
      MeaningKeys(restA);
      MeaningKeys(restB);
      FieldsAgree(names[1..], a[1..], b[1..]);
      SameMeaningsStep(a, b);
      UpdatesAgree(Ascii(names[0]), MemberMeanings(restA), MemberMeanings(restB), Meaning(a[0]), Meaning(b[0]));
    }
  }

  lemma {:induction false} DecimalIsExact(a: nat, b: nat)
    requires Decimal(a) == Decimal(b)
    ensures a == b
  {
    var x, y := Decimal(a), Decimal(b);
    assert x[|x| - 1] == 0x30 + a % 10 && y[|y| - 1] == 0x30 + b % 10;
    DecimalLength(a);
    DecimalLength(b);
    if a >= 10 && b >= 10 {
      assert x[..|x| - 1] == Decimal(a / 10) && y[..|y| - 1] == Decimal(b / 10);
      DecimalIsExact(a / 10, b / 10);
    }
  }

  lemma DecimalLength(a: nat)
    ensures |Decimal(a)| == 1 <==> a < 10
  {
  }

  /** The version is part of the text: it is the same text only for the same version. */
  lemma VersionIsSigned(a: AuditRecord, b: AuditRecord)
    requires UniqueKeys(a.metadata) && UniqueKeys(b.metadata) && Payload(a) == Payload(b)
    ensures VersionOf(a) == VersionOf(b)
  {
    PayloadIsWellFormed(a);
    PayloadIsWellFormed(b);
    CanonicalIsExact(PayloadObject(a), PayloadObject(b));
    VersionMeaning(a);
    VersionMeaning(b);
    DecimalIsExact(VersionOf(a), VersionOf(b));
  }

  lemma VersionMeaning(r: AuditRecord)
    ensures Meaning(PayloadObject(r)).ObjectValue?
    ensures var key := (NamesAreAscii(); Ascii("version"));
      key in Meaning(PayloadObject(r)).fields
      && Meaning(PayloadObject(r)).fields[key] == NumberValue(Decimal(VersionOf(r)))
  {
    NamesAreAscii();
    var fields := Fields(NAMES, SignedValues(r));
    assert fields.Member? && fields.key == Ascii("version") && fields.value == Number(Decimal(VersionOf(r)));
    hide Fields, SignedValues, Ascii, Decimal;
    assert MemberMeanings(fields)[fields.key] == Meaning(fields.value);
  }

  lemma PayloadIsWellFormed(r: AuditRecord)
    requires UniqueKeys(r.metadata)
    ensures DistinctNames(NAMES) && UniqueKeys(PayloadObject(r))
  {
    NamesAreAscii();
    NamesAreDistinct();
    FieldsHaveUniqueKeys(NAMES, SignedValues(r));
  }

  /** The field the k-th value comes from. */
  predicate FieldAgrees(a: AuditRecord, b: AuditRecord, k: nat) {
    match k
    case 0 => VersionOf(a) == VersionOf(b)
    case 1 => a.id == b.id
    case 2 => a.actorUserId == b.actorUserId
    case 3 => a.action == b.action
    case 4 => a.entityType == b.entityType
    case 5 => a.entityId == b.entityId
    case 6 => a.requestId == b.requestId
    case 7 => a.ipHash == b.ipHash
    case 8 => a.userAgent == b.userAgent
    case 9 => Meaning(a.metadata) == Meaning(b.metadata)
    case 10 => a.createdAt == b.createdAt
    case 11 => UpdatedAt(a) == UpdatedAt(b)
    case 12 => a.deletedAt == b.deletedAt
    case _ => a.organizationId == b.organizationId
  }

  /** What a signature vouches for: every field with its default, metadata as a JSON value, and the
      tenant from version 2 on. */
  predicate SameSignedContent(a: AuditRecord, b: AuditRecord) {
    && VersionOf(a) == VersionOf(b)
    && (VersionOf(a) >= 2 ==> a.organizationId == b.organizationId)
    && a.id == b.id && a.actorUserId == b.actorUserId && a.action == b.action
    && a.entityType == b.entityType && a.entityId == b.entityId && a.requestId == b.requestId
    && a.ipHash == b.ipHash && a.userAgent == b.userAgent
    && Meaning(a.metadata) == Meaning(b.metadata)
    && a.createdAt == b.createdAt && UpdatedAt(a) == UpdatedAt(b) && a.deletedAt == b.deletedAt
  }

  lemma OrNullIsExact(a: Option<Text>, b: Option<Text>)
    ensures Meaning(OrNull(a)) == Meaning(OrNull(b)) <==> a == b
  {
  }

  lemma ValueAgrees(a: AuditRecord, b: AuditRecord, k: nat)
    requires VersionOf(a) == VersionOf(b)
    ensures Meaning(SignedValue(a, k)) == Meaning(SignedValue(b, k)) <==> FieldAgrees(a, b, k)
  {
    match k
    case 2 => OrNullIsExact(a.actorUserId, b.actorUserId);
    case 5 => OrNullIsExact(a.entityId, b.entityId);
    case 6 => OrNullIsExact(a.requestId, b.requestId);
    case 7 => OrNullIsExact(a.ipHash, b.ipHash);
    case 8 => OrNullIsExact(a.userAgent, b.userAgent);
    case 12 => OrNullIsExact(a.deletedAt, b.deletedAt);
    case 0 =>
    case 1 =>
    case 3 =>
    case 4 =>
    case 9 =>
    case 10 =>
    case 11 =>
    case _ => OrNullIsExact(a.organizationId, b.organizationId);
  }

  lemma FieldsMakeContent(a: AuditRecord, b: AuditRecord, n: nat)
    requires VersionOf(a) == VersionOf(b) && n == if VersionOf(a) >= 2 then 14 else 13
    ensures SameSignedContent(a, b) <==> forall k :: 0 <= k < n ==> FieldAgrees(a, b, k)
  {
    hide Meaning, UpdatedAt;
    if forall k :: 0 <= k < n ==> FieldAgrees(a, b, k) {
      assert FieldAgrees(a, b, 1) && FieldAgrees(a, b, 2) && FieldAgrees(a, b, 3) && FieldAgrees(a, b, 4);
      assert FieldAgrees(a, b, 5) && FieldAgrees(a, b, 6) && FieldAgrees(a, b, 7) && FieldAgrees(a, b, 8);
      assert FieldAgrees(a, b, 9) && FieldAgrees(a, b, 10) && FieldAgrees(a, b, 11) && FieldAgrees(a, b, 12);
      assert n == 14 ==> FieldAgrees(a, b, 13);
    }
  }

  lemma SignedValuesAgree(a: AuditRecord, b: AuditRecord)
    requires VersionOf(a) == VersionOf(b)
    ensures SameSignedContent(a, b) <==> SameMeanings(SignedValues(a), SignedValues(b))
  {
    var x, y := SignedValues(a), SignedValues(b);
    FieldsMakeContent(a, b, |x|);
    hide Meaning, FieldAgrees, SignedValue, SameSignedContent;
    forall k | 0 <= k < |x|
      ensures Meaning(x[k]) == Meaning(y[k]) <==> FieldAgrees(a, b, k)
    {
      ValueAgrees(a, b, k);
    }
  }

  /** Two records are signed alike exactly when all signed content agrees; versions never mix. */
  lemma PayloadIsExact(a: AuditRecord, b: AuditRecord)
    requires UniqueKeys(a.metadata) && UniqueKeys(b.metadata)
    ensures Payload(a) == Payload(b) <==> SameSignedContent(a, b)
  {
    if VersionOf(a) != VersionOf(b) {
      if Payload(a) == Payload(b) {
        VersionIsSigned(a, b);
      }
    } else {
      PayloadIsWellFormed(a);
      PayloadIsWellFormed(b);
      CanonicalIsExact(PayloadObject(a), PayloadObject(b));
      FieldsAgree(NAMES, SignedValues(a), SignedValues(b));
      SignedValuesAgree(a, b);
    }
  }

  // ---------------------------------------------------------------------------------------------
  // Signing and verifying
  // ---------------------------------------------------------------------------------------------

  datatype Tag = Tag(secret: Text, payload: Text)

  /** The configured audit key, or the cookie key when that is empty. */
  function SigningKey(secret: Text, cookieSecret: Text): Text {
    if secret != [] then secret else cookieSecret
  }

  function Sign(r: AuditRecord, secret: Text, cookieSecret: Text): Tag {
    Tag(SigningKey(secret, cookieSecret), Payload(r))
  }

  predicate Verify(r: AuditRecord, integrityHash: Option<Tag>, secret: Text, cookieSecret: Text) {
    var key := SigningKey(secret, cookieSecret);
    integrityHash.Some? && key != [] && Sign(r, key, cookieSecret) == integrityHash.value
  }

  /** A row signed as `a` verifies as `b` exactly when nothing the signature covers was changed. */
  lemma TamperingIsDetected(a: AuditRecord, b: AuditRecord, secret: Text, cookieSecret: Text)
    requires UniqueKeys(a.metadata) && UniqueKeys(b.metadata)
    ensures Verify(b, Some(Sign(a, secret, cookieSecret)), secret, cookieSecret) <==>
      SigningKey(secret, cookieSecret) != [] && SameSignedContent(a, b)
  {
    PayloadIsExact(a, b);
  }

  /** Moving a row to another tenant breaks its signature from version 2 on, and only from then on. */
  lemma ReattributionIsDetected(r: AuditRecord, org: Option<Text>, secret: Text, cookieSecret: Text)
    requires UniqueKeys(r.metadata) && org != r.organizationId && SigningKey(secret, cookieSecret) != []
    ensures Verify(r.(organizationId := org), Some(Sign(r, secret, cookieSecret)), secret, cookieSecret) <==>
      VersionOf(r) < 2
  {
    TamperingIsDetected(r, r.(organizationId := org), secret, cookieSecret);
  }

  /** Raising the version of a signed row, to have its tenant believed, breaks the signature. */
  lemma VersionUpgradeIsDetected(r: AuditRecord, version: nat, secret: Text, cookieSecret: Text)
    requires UniqueKeys(r.metadata) && version != VersionOf(r)
    ensures !Verify(r.(integrityVersion := Some(version)), Some(Sign(r, secret, cookieSecret)), secret, cookieSecret)
  {
    TamperingIsDetected(r, r.(integrityVersion := Some(version)), secret, cookieSecret);
  }
}
