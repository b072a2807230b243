/** The DER reader that cuts the subject public key out of a certificate (rust/crates/hns-dane/src/lib.rs). */
module Der {
  import opened Prelude

  const USIZE_MAX: nat := 0xffff_ffff_ffff_ffff
  const USIZE_OCTETS: nat := 8
  const TAG_SEQUENCE: byte := 0x30
  const TAG_EXPLICIT_VERSION: byte := 0xa0

  datatype DerError = MalformedCertificate | MissingSubjectPublicKeyInfo

  datatype Element = Element(tag: byte, start: nat, valueStart: nat, end: nat)

  datatype Cursored<T> = Cursored(value: T, cursor: nat)

  // ---------------------------------------------------------------- what the readers compute

  function ReadLength(data: seq<byte>, cursor: nat, limit: nat): (r: Result<Cursored<nat>, DerError>)
    requires limit <= |data|
    ensures r.Ok? ==> cursor < r.value.cursor && r.value.value <= USIZE_MAX
  {
    if cursor >= |data| then Err(MalformedCertificate)
    else
      var first := data[cursor] as nat;
      if first < 0x80 then Ok(Cursored(first, cursor + 1))
      else
        var octets := first - 0x80;
        if octets == 0 || octets > USIZE_OCTETS || cursor + 1 + octets > limit || data[cursor + 1] == 0 then
          Err(MalformedCertificate)
        else
          var length := BigEndian(data[cursor + 1..cursor + 1 + octets]);
          OctetsFit(data[cursor + 1..cursor + 1 + octets]);
          if length < 128 then Err(MalformedCertificate) else Ok(Cursored(length, cursor + 1 + octets))
  }

  function ReadElement(data: seq<byte>, cursor: nat, limit: nat): (r: Result<Element, DerError>)
    requires limit <= |data|
    ensures r.Ok? ==> cursor == r.value.start < r.value.valueStart <= r.value.end <= limit
  {
    if cursor + 2 > limit then Err(MalformedCertificate)
    else
      var length :- ReadLength(data, cursor + 1, limit);
      var end := length.cursor + length.value;
      if end > USIZE_MAX || end > limit then Err(MalformedCertificate)
      else Ok(Element(data[cursor], cursor, length.cursor, end))
  }

  /** The cursor after `count` elements. */
  function Skip(data: seq<byte>, cursor: nat, limit: nat, count: nat): (r: Result<nat, DerError>)
    requires limit <= |data|
    ensures r.Ok? ==> cursor <= r.value && (cursor <= limit ==> r.value <= limit)
    decreases count
  {
    if count == 0 then Ok(cursor)
    else
      var element :- ReadElement(data, cursor, limit);
      Skip(data, element.end, limit, count - 1)
  }

  function PeekTag(data: seq<byte>, cursor: nat, limit: nat): Result<Option<byte>, DerError>
    requires limit <= |data|
  {
    if cursor == limit then Ok(None)
    else if cursor < limit then Ok(Some(data[cursor]))
    else Err(MalformedCertificate)
  }

  /** Where the fields start: after the version element, if the first tag says there is one. */
  function FieldsStart(cert: seq<byte>, start: nat, end: nat): Result<nat, DerError>
    requires start <= end <= |cert|
  {
    var tag :- PeekTag(cert, start, end);
    Skip(cert, start, end, if tag == Some(TAG_EXPLICIT_VERSION) then 1 else 0)
  }

  /** The key element of a TBSCertificate whose content is [start, end): optional version, five fields, key. */
  function KeyWithin(cert: seq<byte>, start: nat, end: nat): Result<seq<byte>, DerError>
    requires start <= end <= |cert|
  {
    var fields :- FieldsStart(cert, start, end);
    var cursor :- Skip(cert, fields, end, 5);
    if cursor >= end then Err(MissingSubjectPublicKeyInfo)
    else
      var spki :- ReadElement(cert, cursor, end);
      if spki.tag != TAG_SEQUENCE then Err(MissingSubjectPublicKeyInfo)
      else Ok(cert[spki.start..spki.end])
  }

  function ExtractSpki(cert: seq<byte>): Result<seq<byte>, DerError> {
    var certificate :- ReadElement(cert, 0, |cert|);
    if certificate.tag != TAG_SEQUENCE || certificate.end != |cert| then Err(MalformedCertificate)
    else
      var tbs :- ReadElement(cert, certificate.valueStart, |cert|);
      if tbs.tag != TAG_SEQUENCE || tbs.end > certificate.end then Err(MalformedCertificate)
      else KeyWithin(cert, tbs.valueStart, tbs.end)
  }

  // ---------------------------------------------------------------- the readers

  lemma OctetsFit(s: seq<byte>)
    requires |s| <= USIZE_OCTETS
    ensures BigEndian(s) <= USIZE_MAX
  {
    BigEndianBound(s);
    Pow256Monotone(|s|, USIZE_OCTETS);
    EightOctets();
  }

  lemma EightOctets()
    ensures Pow256(USIZE_OCTETS) == USIZE_MAX + 1
  {
    assert Pow256(4) == 0x1_0000_0000;
    Pow256Add(4, 4);
  }

  method ReadDerLength(data: seq<byte>, cursor: nat, limit: nat) returns (r: Result<Cursored<nat>, DerError>)
    requires limit <= |data|
    ensures r == ReadLength(data, cursor, limit)
  {
    if cursor >= |data| {
      return Err(MalformedCertificate);
    }
    var first := data[cursor] as nat;
    var position := cursor + 1;
    if first < 0x80 {
      return Ok(Cursored(first, position));
    }
    var octets := first - 0x80;
    if octets == 0 || octets > USIZE_OCTETS {
      return Err(MalformedCertificate);
    }
    if position + octets > limit {
      return Err(MalformedCertificate);
    }
    if data[position] == 0 {
      return Err(MalformedCertificate);
    }
    var length: nat := 0;
    for i := 0 to octets
      invariant position == cursor + 1 + i
      invariant length == BigEndian(data[cursor + 1..position])
    {
      var grown := data[cursor + 1..position + 1];
      assert grown[..i] == data[cursor + 1..position];
      OctetsFit(grown);
      if length * 256 + data[position] as nat > USIZE_MAX {
        return Err(MalformedCertificate);
      }
      length := length * 256 + data[position] as nat;
      position := position + 1;
    }
    if length < 128 {
      return Err(MalformedCertificate);
    }
    return Ok(Cursored(length, position));
  }

  method ReadDerElement(data: seq<byte>, cursor: nat, limit: nat) returns (r: Result<Element, DerError>)
    requires limit <= |data|
    ensures r == ReadElement(data, cursor, limit)
  {
    if cursor + 2 > limit {
      return Err(MalformedCertificate);
    }
    var length :- ReadDerLength(data, cursor + 1, limit);
    var end := length.cursor + length.value;
    if end > USIZE_MAX || end > limit {
      return Err(MalformedCertificate);
    }
    return Ok(Element(data[cursor], cursor, length.cursor, end));
  }

  method ExtractSpkiDer(cert: seq<byte>) returns (r: Result<seq<byte>, DerError>)
    ensures r == ExtractSpki(cert)
  {
    hide ReadElement, ReadLength;
    var certificate :- ReadDerElement(cert, 0, |cert|);
    if certificate.tag != TAG_SEQUENCE || certificate.end != |cert| {
      return Err(MalformedCertificate);
    }
    var tbs :- ReadDerElement(cert, certificate.valueStart, |cert|);
    if tbs.tag != TAG_SEQUENCE || tbs.end > certificate.end {
      return Err(MalformedCertificate);
    }
    var cursor: nat := tbs.valueStart;
    var tag :- PeekTag(cert, cursor, tbs.end);
    if tag == Some(TAG_EXPLICIT_VERSION) {
      var version :- ReadDerElement(cert, cursor, tbs.end);
      cursor := version.end;
    }
    assert Skip(cert, cursor, tbs.end, 0) == Ok(cursor);
    ghost var fields := cursor;
    assert FieldsStart(cert, tbs.valueStart, tbs.end) == Ok(fields);
    for i := 0 to 5
      invariant cursor <= tbs.end
      invariant Skip(cert, fields, tbs.end, 5) == Skip(cert, cursor, tbs.end, 5 - i)
    {
      var field :- ReadDerElement(cert, cursor, tbs.end);
      cursor := field.end;
    }
    if cursor >= tbs.end {
      return Err(MissingSubjectPublicKeyInfo);
    }
    var spki :- ReadDerElement(cert, cursor, tbs.end);
    if spki.tag != TAG_SEQUENCE {
      return Err(MissingSubjectPublicKeyInfo);
    }
    return Ok(cert[spki.start..spki.end]);
  }

  // ---------------------------------------------------------------- section 10.1 of X.690: one encoding per length

  /** The number of octets of a number without leading zeros. */
  function Octets(n: nat): nat {
    if n == 0 then 0 else 1 + Octets(n / 256)
  }

  lemma {:induction false} OctetsAtMost(n: nat, k: nat)
    requires n < Pow256(k)
    ensures Octets(n) <= k
    decreases k
  {
    if k > 0 {
      OctetsAtMost(n / 256, k - 1);
    }
  }

  lemma {:induction false} OctetsHold(n: nat)
    ensures n < Pow256(Octets(n))
  {
    if n > 0 {
      OctetsHold(n / 256);
    }
  }

  lemma WordOctets(n: nat)
    requires n <= USIZE_MAX
    ensures Octets(n) <= USIZE_OCTETS
  {
    EightOctets();
    OctetsAtMost(n, USIZE_OCTETS);
  }

  /** The distinguished encoding of a length. */
  function EncodeLength(n: nat): (r: seq<byte>)
    requires n <= USIZE_MAX
    ensures r != []
  {
    WordOctets(n);
    if n < 0x80 then [n] else [0x80 + Octets(n)] + ToBigEndian(n, Octets(n))
  }

  lemma {:induction false} OctetsOfBytes(s: seq<byte>)
    requires s != [] && s[0] != 0
    ensures Octets(BigEndian(s)) == |s|
  {
    var front := s[..|s| - 1];
    assert BigEndian(s) / 256 == BigEndian(front);
    if front != [] {
      OctetsOfBytes(front);
    }
  }

  lemma {:induction false} NoLeadingZero(n: nat)
    requires n > 0
    ensures ToBigEndian(n, Octets(n))[0] != 0
  {
    if n >= 256 {
      NoLeadingZero(n / 256);
    }
  }

  /** The reader accepts the distinguished encoding of every length, wherever it stands. */
  lemma LengthRoundTrip(data: seq<byte>, cursor: nat, limit: nat, n: nat)
    requires n <= USIZE_MAX && At(data, cursor, EncodeLength(n)) && cursor + |EncodeLength(n)| <= limit <= |data|
    ensures ReadLength(data, cursor, limit) == Ok(Cursored(n, cursor + |EncodeLength(n)|))
  {
    WordOctets(n);
    assert data[cursor] == EncodeLength(n)[0];
    if n >= 0x80 {
      var k := Octets(n);
      var digits := ToBigEndian(n, k);
      assert EncodeLength(n)[1..] == digits;
      assert data[cursor + 1..cursor + 1 + k] == data[cursor..cursor + 1 + k][1..] == digits;
      OctetsHold(n);
      ToBigEndianValue(n, k);
      NoLeadingZero(n);
      assert data[cursor + 1] == digits[0];
    }
  }

  /** And it accepts nothing else: whatever it reads is the distinguished encoding of its result. */
  lemma LengthIsCanonical(data: seq<byte>, cursor: nat, limit: nat)
    requires limit <= |data| && ReadLength(data, cursor, limit).Ok?
    ensures var r := ReadLength(data, cursor, limit).value;
      r.value <= USIZE_MAX && r.cursor == cursor + |EncodeLength(r.value)| && At(data, cursor, EncodeLength(r.value))
  {
    var r := ReadLength(data, cursor, limit).value;
    if data[cursor] >= 0x80 {
      var k: nat := data[cursor] as nat - 0x80;
      var digits := data[cursor + 1..cursor + 1 + k];
      OctetsOfBytes(digits);
      BigEndianInverse(digits);
      assert data[cursor..cursor + 1 + k] == [data[cursor]] + digits;
    }
  }

  // ---------------------------------------------------------------- elements and certificates

  type Content = s: seq<byte> | |s| <= USIZE_MAX

  datatype Field = Field(tag: byte, value: Content)

  function Encode(f: Field): seq<byte> {
    [f.tag] + EncodeLength(|f.value|) + f.value
  }

  function Joined(fields: seq<Field>): seq<byte> {
    if fields == [] then [] else Encode(fields[0]) + Joined(fields[1..])
  }

  /** An encoded element is read back, wherever it stands within the limit. */
  lemma ElementRoundTrip(data: seq<byte>, cursor: nat, limit: nat, f: Field)
    requires At(data, cursor, Encode(f)) && cursor + |Encode(f)| <= limit <= |data| <= USIZE_MAX
    ensures ReadElement(data, cursor, limit)
      == Ok(Element(f.tag, cursor, cursor + |Encode(f)| - |f.value|, cursor + |Encode(f)|))
  {
    ElementLayout(data, cursor, f);
    var n := |f.value|;
    var k := |EncodeLength(n)|;
    hide *;
    LengthRoundTrip(data, cursor + 1, limit, n);
    ElementAfterLength(data, cursor, limit, n, cursor + 1 + k);
  }

  lemma ElementAfterLength(data: seq<byte>, cursor: nat, limit: nat, n: nat, start: nat)
    requires cursor + 2 <= limit <= |data| <= USIZE_MAX && start + n <= limit
    requires ReadLength(data, cursor + 1, limit) == Ok(Cursored(n, start))
    ensures ReadElement(data, cursor, limit) == Ok(Element(data[cursor], cursor, start, start + n))
  {
    hide ReadLength;
  }

  lemma ElementLayout(data: seq<byte>, cursor: nat, f: Field)
    requires At(data, cursor, Encode(f))
    ensures data[cursor] == f.tag && At(data, cursor + 1, EncodeLength(|f.value|))
    ensures |Encode(f)| == 1 + |EncodeLength(|f.value|)| + |f.value|
    ensures At(data, cursor + |Encode(f)| - |f.value|, f.value)
  {
    hide EncodeLength;
    var length := EncodeLength(|f.value|);
    AtConcat(data, cursor, [f.tag] + length, f.value);
    AtConcat(data, cursor, [f.tag], length);
    assert data[cursor] == data[cursor..cursor + 1][0];
  }

  /** Every element that is read is the encoding of its own tag and content. */
  lemma ElementIsEncoded(data: seq<byte>, cursor: nat, limit: nat) returns (f: Field)
    requires limit <= |data| && ReadElement(data, cursor, limit).Ok?
    ensures var e := ReadElement(data, cursor, limit).value;
      && f.tag == e.tag == data[cursor] && f.value == data[e.valueStart..e.end]
      && At(data, cursor, Encode(f)) && cursor + |Encode(f)| == e.end && e.valueStart == e.end - |f.value|
  {
    var e := ReadElement(data, cursor, limit).value;
    LengthIsCanonical(data, cursor + 1, limit);
    f := Field(e.tag, data[e.valueStart..e.end]);
    hide EncodeLength, ReadLength;
    var length := EncodeLength(|f.value|);
    assert At(data, cursor, [f.tag]);
    AtConcat(data, cursor, [f.tag], length);
    AtConcat(data, cursor, [f.tag] + length, f.value);
  }

  lemma {:induction false} SkipOver(data: seq<byte>, cursor: nat, limit: nat, fields: seq<Field>)
    requires At(data, cursor, Joined(fields)) && cursor + |Joined(fields)| <= limit <= |data| <= USIZE_MAX
    ensures Skip(data, cursor, limit, |fields|) == Ok(cursor + |Joined(fields)|)
    decreases |fields|
  {
    hide Encode, ReadElement;
    if fields != [] {
      AtConcat(data, cursor, Encode(fields[0]), Joined(fields[1..]));
      ElementRoundTrip(data, cursor, limit, fields[0]);
      SkipOver(data, cursor + |Encode(fields[0])|, limit, fields[1..]);
    }
  }

  lemma {:induction false} SkippedFields(data: seq<byte>, cursor: nat, limit: nat, count: nat) returns (fields: seq<Field>)
    requires limit <= |data| && Skip(data, cursor, limit, count).Ok? && cursor <= |data|
    ensures |fields| == count && At(data, cursor, Joined(fields))
    ensures Skip(data, cursor, limit, count).value == cursor + |Joined(fields)|
    ensures count > 0 ==> fields[0].tag == data[cursor]
    decreases count
  {
    hide Encode, ReadElement;
    if count == 0 {
      fields := [];
    } else {
      var first := ElementIsEncoded(data, cursor, limit);
      var rest := SkippedFields(data, cursor + |Encode(first)|, limit, count - 1);
      fields := [first] + rest;
      assert fields[1..] == rest;
      AtConcat(data, cursor, Encode(first), Joined(rest));
    }
  }

  /** What a certificate is assembled from; `extra` and `trailer` stand for all that follows the key and the TBSCertificate. */
  datatype Certificate = Certificate(
    version: Option<Content>, fields: seq<Field>, key: Content, extra: seq<byte>, trailer: seq<byte>)

  function VersionBytes(version: Option<Content>): seq<byte> {
    if version.Some? then Encode(Field(0xa0, version.value)) else []
  }

  function Key(c: Certificate): seq<byte> {
    Encode(Field(0x30, c.key))
  }

  function TbsContent(c: Certificate): seq<byte> {
    VersionBytes(c.version) + (Joined(c.fields) + (Key(c) + c.extra))
  }

  function Body(c: Certificate): seq<byte>
    requires |TbsContent(c)| <= USIZE_MAX
  {
    Encode(Field(0x30, TbsContent(c))) + c.trailer
  }

  /** Five fields before the key; without a version the first of them does not look like one. */
  predicate Standard(c: Certificate) {
    && |c.fields| == 5 && (c.version.None? ==> c.fields[0].tag != 0xa0)
    && |TbsContent(c)| <= USIZE_MAX && |Body(c)| <= USIZE_MAX
  }

  function Assemble(c: Certificate): seq<byte>
    requires Standard(c)
  {
    Encode(Field(0x30, Body(c)))
  }

  lemma VersionIsSkipped(cert: seq<byte>, start: nat, end: nat, version: Option<Content>)
    requires start < end <= |cert| <= USIZE_MAX && At(cert, start, VersionBytes(version)) && start + |VersionBytes(version)| <= end
    requires version.None? ==> cert[start] != TAG_EXPLICIT_VERSION
    ensures FieldsStart(cert, start, end) == Ok(start + |VersionBytes(version)|)
  {
    hide Encode, ReadElement;
    assert Skip(cert, start, end, 0) == Ok(start);
    if version.Some? {
      var field := Field(TAG_EXPLICIT_VERSION, version.value);
      ElementLayout(cert, start, field);
      assert Joined([field]) == Encode(field) + [] == Encode(field);
      SkipOver(cert, start, end, [field]);
    }
  }

  lemma SkippedVersion(cert: seq<byte>, start: nat, end: nat) returns (version: Option<Content>)
    requires start <= end <= |cert| && FieldsStart(cert, start, end).Ok?
    ensures At(cert, start, VersionBytes(version)) && FieldsStart(cert, start, end).value == start + |VersionBytes(version)|
    ensures version.None? && start < end ==> cert[start] != TAG_EXPLICIT_VERSION
  {
    hide Encode, ReadElement;
    if start < end && cert[start] == TAG_EXPLICIT_VERSION {
      var fields := SkippedFields(cert, start, end, 1);
      assert fields == [fields[0]] && Joined(fields) == Encode(fields[0]) + [] == Encode(fields[0]);
      version := Some(fields[0].value);
    } else {
      version := None;
    }
  }

  /** Version, fields and key stand one after the other within [start, end). */
  ghost predicate LaidOut(cert: seq<byte>, start: nat, end: nat, version: Option<Content>, fields: seq<Field>, key: Field) {
    var fieldsStart := start + |VersionBytes(version)|;
    var cursor := fieldsStart + |Joined(fields)|;
    && At(cert, start, VersionBytes(version)) && At(cert, fieldsStart, Joined(fields)) && At(cert, cursor, Encode(key))
    && cursor + |Encode(key)| <= end <= |cert|
  }

  lemma ContentLayout(cert: seq<byte>, start: nat, end: nat, c: Certificate)
    requires At(cert, start, TbsContent(c)) && end == start + |TbsContent(c)|
    ensures LaidOut(cert, start, end, c.version, c.fields, Field(TAG_SEQUENCE, c.key))
  {
    hide Encode, Joined, VersionBytes;
    var fields := start + |VersionBytes(c.version)|;
    AtConcat(cert, start, VersionBytes(c.version), Joined(c.fields) + (Key(c) + c.extra));
    AtConcat(cert, fields, Joined(c.fields), Key(c) + c.extra);
    AtConcat(cert, fields + |Joined(c.fields)|, Key(c), c.extra);
  }

  lemma KeyIsFound(cert: seq<byte>, start: nat, end: nat, c: Certificate)
    requires Standard(c) && At(cert, start, TbsContent(c)) && |cert| <= USIZE_MAX && end == start + |TbsContent(c)|
    ensures KeyWithin(cert, start, end) == Ok(Key(c))
  {
    ContentLayout(cert, start, end, c);
    FirstTag(cert, start, c);
    hide At, TbsContent, Encode, Joined, VersionBytes, KeyWithin, Body, LaidOut;
    var cursor, after := LaidOutIsFound(cert, start, end, c.version, c.fields, Field(TAG_SEQUENCE, c.key));
  }

  lemma LaidOutIsFound(cert: seq<byte>, start: nat, end: nat, version: Option<Content>, fields: seq<Field>, key: Field)
    returns (cursor: nat, after: nat)
    requires LaidOut(cert, start, end, version, fields, key) && |cert| <= USIZE_MAX && |fields| == 5 && key.tag == TAG_SEQUENCE
    requires version.None? ==> cert[start] != TAG_EXPLICIT_VERSION
    ensures cursor <= after <= |cert| && cert[cursor..after] == Encode(key)
    ensures KeyWithin(cert, start, end) == Ok(cert[cursor..after])
  {
    var fieldsStart;
    fieldsStart, cursor, after := Positions(cert, start, end, version, fields, key);
    hide *;
    FieldsAreSkipped(cert, start, end, fieldsStart, cursor, version, fields);
    KeyIsRead(cert, start, end, cursor, after, key);
  }

  lemma Positions(cert: seq<byte>, start: nat, end: nat, version: Option<Content>, fields: seq<Field>, key: Field)
    returns (fieldsStart: nat, cursor: nat, after: nat)
    requires LaidOut(cert, start, end, version, fields, key)
    ensures start <= fieldsStart <= cursor < after <= end <= |cert| && cert[cursor..after] == Encode(key)
    ensures At(cert, start, VersionBytes(version)) && fieldsStart == start + |VersionBytes(version)|
    ensures At(cert, fieldsStart, Joined(fields)) && cursor == fieldsStart + |Joined(fields)|
    ensures At(cert, cursor, Encode(key)) && after == cursor + |Encode(key)|
  {
    NotEmpty(key);
    hide Encode, Joined, VersionBytes;
    fieldsStart := start + |VersionBytes(version)|;
    cursor := fieldsStart + |Joined(fields)|;
    after := cursor + |Encode(key)|;
  }

  lemma KeyIsRead(cert: seq<byte>, start: nat, end: nat, cursor: nat, after: nat, key: Field)
    requires start <= cursor < after <= end <= |cert| <= USIZE_MAX && key.tag == TAG_SEQUENCE
    requires FieldsStart(cert, start, end).Ok? && Skip(cert, FieldsStart(cert, start, end).value, end, 5) == Ok(cursor)
    requires At(cert, cursor, Encode(key)) && after == cursor + |Encode(key)|
    ensures KeyWithin(cert, start, end) == Ok(cert[cursor..after])
  {
    hide FieldsStart, Skip, ReadElement, Encode, At;
    ElementRoundTrip(cert, cursor, end, key);
  }

  lemma FieldsAreSkipped(cert: seq<byte>, start: nat, end: nat, fieldsStart: nat, cursor: nat,
                         version: Option<Content>, fields: seq<Field>)
    requires start < end <= |cert| <= USIZE_MAX && (version.None? ==> cert[start] != TAG_EXPLICIT_VERSION) && cursor <= end
    requires At(cert, start, VersionBytes(version)) && fieldsStart == start + |VersionBytes(version)|
    requires At(cert, fieldsStart, Joined(fields)) && cursor == fieldsStart + |Joined(fields)|
    ensures FieldsStart(cert, start, end) == Ok(fieldsStart) && Skip(cert, fieldsStart, end, |fields|) == Ok(cursor)
  {
    hide *;
    VersionIsSkipped(cert, start, end, version);
    SkipOver(cert, fieldsStart, end, fields);
  }

  lemma FirstTag(cert: seq<byte>, start: nat, c: Certificate)
    requires Standard(c) && At(cert, start, TbsContent(c))
    ensures start < |cert| && (c.version.None? ==> cert[start] != TAG_EXPLICIT_VERSION)
  {
    hide Encode, Body;
    NotEmpty(Field(TAG_SEQUENCE, c.key));
    if c.version.None? {
      var first := c.fields[0];
      assert TbsContent(c) == Encode(first) + (Joined(c.fields[1..]) + (Key(c) + c.extra));
      AtConcat(cert, start, Encode(first), Joined(c.fields[1..]) + (Key(c) + c.extra));
      ElementLayout(cert, start, first);
      NotEmpty(first);
    }
  }

  lemma NotEmpty(f: Field)
    ensures |Encode(f)| >= 2
  {
  }

  lemma KeyIsEmbedded(cert: seq<byte>, start: nat, end: nat, trailer: seq<byte>) returns (c: Certificate)
    requires start <= end <= |cert| <= USIZE_MAX && KeyWithin(cert, start, end).Ok?
    ensures |c.fields| == 5 && (c.version.None? ==> c.fields[0].tag != TAG_EXPLICIT_VERSION) && c.trailer == trailer
    ensures TbsContent(c) == cert[start..end] && Key(c) == KeyWithin(cert, start, end).value
  {
    hide Encode, ReadElement, Skip, FieldsStart, Joined, VersionBytes;
    var version := SkippedVersion(cert, start, end);
    var first := start + |VersionBytes(version)|;
    var fields := SkippedFields(cert, first, end, 5);
    var cursor := first + |Joined(fields)|;
    var key := ElementIsEncoded(cert, cursor, end);
    var after := cursor + |Encode(key)|;
    c := Certificate(version, fields, key.value, cert[after..end], trailer);
    if version.None? {
      NoVersion(cert, start, version);
    }
    assert key == Field(TAG_SEQUENCE, c.key);
    Pieces(cert, start, first, cursor, after, end);
  }

  lemma Pieces(s: seq<byte>, a: nat, b: nat, c: nat, d: nat, e: nat)
    requires a <= b <= c <= d <= e <= |s|
    ensures s[a..e] == s[a..b] + (s[b..c] + (s[c..d] + s[d..e]))
  {
  }

  lemma NoVersion(cert: seq<byte>, start: nat, version: Option<Content>)
    requires version.None?
    ensures VersionBytes(version) == []
  {
  }

  /**
   * The key that is returned is exactly the element embedded after the five fields, for every
   * certificate of that shape, and for a byte string of any other shape nothing is returned.
   */
  lemma ExtractsTheEmbeddedKey(cert: seq<byte>, spki: seq<byte>)
    requires |cert| <= USIZE_MAX
    ensures ExtractSpki(cert) == Ok(spki) <==> exists c :: Standard(c) && Assemble(c) == cert && Key(c) == spki
  {
    forall c | Standard(c) && Assemble(c) == cert
      ensures ExtractSpki(cert) == Ok(Key(c))
    {
      AssembledIsRead(cert, c);
    }
    if ExtractSpki(cert) == Ok(spki) {
      var c := ReadIsAssembled(cert);
    }
  }

  lemma AssembledIsRead(cert: seq<byte>, c: Certificate)
    requires Standard(c) && Assemble(c) == cert && |cert| <= USIZE_MAX
    ensures ExtractSpki(cert) == Ok(Key(c))
  {
    hide Encode, ReadElement, KeyWithin, TbsContent;
    var outer, tbs := Field(TAG_SEQUENCE, Body(c)), Field(TAG_SEQUENCE, TbsContent(c));
    AtWhole(cert);
    ElementRoundTrip(cert, 0, |cert|, outer);
    ElementLayout(cert, 0, outer);
    var start := |cert| - |Body(c)|;
    AtConcat(cert, start, Encode(tbs), c.trailer);
    ElementRoundTrip(cert, start, |cert|, tbs);
    ElementLayout(cert, start, tbs);
    var end := start + |Encode(tbs)|;
    KeyIsFound(cert, end - |tbs.value|, end, c);
  }

  lemma ReadIsAssembled(cert: seq<byte>) returns (c: Certificate)
    requires ExtractSpki(cert).Ok? && |cert| <= USIZE_MAX
    ensures Standard(c) && Assemble(c) == cert && Key(c) == ExtractSpki(cert).value
  {
    hide Encode, ReadElement, KeyWithin, TbsContent;
    var outer := ElementIsEncoded(cert, 0, |cert|);
    var start := |cert| - |outer.value|;
    var tbs := ElementIsEncoded(cert, start, |cert|);
    var end := start + |Encode(tbs)|;
    c := KeyIsEmbedded(cert, end - |tbs.value|, end, cert[end..]);
    assert tbs == Field(TAG_SEQUENCE, TbsContent(c));
    assert outer.value == cert[start..] == cert[start..end] + cert[end..];
    assert outer == Field(TAG_SEQUENCE, Body(c));
    assert cert == cert[0..|cert|];
  }
}
