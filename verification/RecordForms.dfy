/**
 * What stands in resource records (rust/crates/hns-core/src/dns.rs and hns-dnssec/src/lib.rs): the fields
 * of a record, its RDATA with the compressed names spelled out, and the canonical RDATA, each said
 * over the octets.
 */
module RecordForms {
  import opened Prelude
  import opened WireName
  import opened WireMessage
  import opened Rdata
  import opened NameGrammar
  import opened SignedLayout

  // ---------------------------------------------------------------- records in a message

  lemma ParseNameFinds(message: seq<byte>, at: nat)
    requires ParseName(message, at).Ok?
    ensures var p := ParseName(message, at).value; Reads(message, at, p.name, p.end) && Encodable(p.name)
  {
    var p := ParseName(message, at).value;
    ParseNameIff(message, at, p.name, p.end);
    ParseNameIsSound(message, at);
    hide ParseName, Reads;
  }

  lemma ReadIsParsed(message: seq<byte>, at: nat, name: DnsName, end: nat)
    requires Reads(message, at, name, end)
    ensures ParseName(message, at) == Ok(Parsed(name, end)) && Encodable(name) && at < end <= |message|
  {
    ParseNameIff(message, at, name, end);
    ParseNameIsSound(message, at);
    hide ParseName, Reads;
  }

  /**
   * The RDATA between two positions, without pointers: a CNAME is one name and nothing else; behind
   * the first 18 octets of an RRSIG a pointer is replaced by the name it leads to; any other RDATA is
   * taken as it stands.
   */
  ghost predicate Unpacked(message: seq<byte>, start: nat, end: nat, rtype: RecordType, rdata: seq<byte>) {
    && start <= end <= |message|
    && if rtype == Cname then exists n: DnsName :: Reads(message, start, n, end) && Encodable(n) && rdata == Wire(n)
       else if rtype == Rrsig && end - start > 18 && message[start + 18] >= 0xc0 then
         exists n: DnsName, e: nat :: Reads(message, start + 18, n, e) && Encodable(n) && e <= end
           && rdata == message[start..start + 18] + Wire(n) + message[e..end]
       else rdata == message[start..end]
  }

  lemma UnpackedIff(message: seq<byte>, start: nat, end: nat, rtype: RecordType, rdata: seq<byte>)
    requires start <= end <= |message|
    ensures NormalizeRdata(message, start, end, rtype) == Ok(rdata) <==> Unpacked(message, start, end, rtype, rdata)
  {
    hide ParseName, Reads, Wire;
    if rtype == Cname {
      NameIff(message, start);
    } else if rtype == Rrsig && end - start > 18 && message[start + 18] >= 0xc0 {
      NameIff(message, start + 18);
    }
  }

  lemma NameIff(message: seq<byte>, at: nat)
    ensures forall n, e :: Reads(message, at, n, e) <==> ParseName(message, at) == Ok(Parsed(n, e))
    ensures ParseName(message, at).Ok? ==> Encodable(ParseName(message, at).value.name)
  {
    forall n, e
      ensures Reads(message, at, n, e) <==> ParseName(message, at) == Ok(Parsed(n, e))
    {
      ParseNameIff(message, at, n, e);
    }
    if ParseName(message, at).Ok? {
      ParseNameIsSound(message, at);
    }
    hide ParseName, Reads;
  }

  /** From `at`: two octets of type, two of class, four of TTL and two of length, and then so much RDATA. */
  ghost predicate FieldsRead(message: seq<byte>, at: nat, r: ResourceRecord, next: nat) {
    && at + 10 <= |message| && next == at + 10 + BigEndian(message[at + 8..at + 10]) <= |message|
    && r.rtype.Code() == BigEndian(message[at..at + 2]) && r.rtype == RecordType.FromCode(r.rtype.Code())
    && r.class_ == BigEndian(message[at + 2..at + 4])
    && r.ttl == BigEndian(message[at + 4..at + 8])
    && Unpacked(message, at + 10, next, r.rtype, r.rdata)
  }

  /** A record is read exactly where a name stands and its fields and its RDATA behind it. */
  lemma RecordIff(message: seq<byte>, offset: nat, r: ResourceRecord, next: nat)
    ensures ParseRecord(message, offset) == Ok(Item(r, next))
      <==> exists at :: Reads(message, offset, r.name, at) && FieldsRead(message, at, r, next)
  {
    NameIff(message, offset);
    if ParseName(message, offset).Ok? {
      FieldsIff(message, offset, ParseName(message, offset).value.end, r, next);
    }
    hide ParseName, Reads, FieldsRead;
    if ParseRecord(message, offset) == Ok(Item(r, next)) {
      var at := ParseName(message, offset).value.end;
      assert Reads(message, offset, r.name, at) && FieldsRead(message, at, r, next);
    }
  }

  lemma FieldsIff(message: seq<byte>, offset: nat, at: nat, r: ResourceRecord, next: nat)
    requires ParseName(message, offset).Ok? && ParseName(message, offset).value.end == at
    ensures ParseRecord(message, offset) == Ok(Item(r, next))
      <==> r.name == ParseName(message, offset).value.name && FieldsRead(message, at, r, next)
  {
    hide ParseName, NormalizeRdata, Unpacked, BigEndian, RecordType.Code, RecordType.FromCode;
    if at + 10 <= |message| {
      var code, length := ReadU16(message, at), ReadU16(message, at + 8);
      CodeIff(code, r.rtype);
      if at + 10 + length <= |message| {
        UnpackedIff(message, at + 10, at + 10 + length, RecordType.FromCode(code), r.rdata);
      }
    }
  }

  lemma CodeIff(code: u16, rtype: RecordType)
    ensures rtype == RecordType.FromCode(code) <==> rtype.Code() == code && rtype == RecordType.FromCode(rtype.Code())
  {
    FromCodeIsStable(code);
  }

  /** A question is a name, two octets of type and two of class. */
  ghost predicate QuestionReads(message: seq<byte>, offset: nat, q: Question, next: nat) {
    exists at :: Reads(message, offset, q.name, at) && TypeAndClass(message, at, q, next)
  }

  ghost predicate TypeAndClass(message: seq<byte>, at: nat, q: Question, next: nat) {
    && next == at + 4 <= |message|
    && q.rtype.Code() == BigEndian(message[at..at + 2]) && q.rtype == RecordType.FromCode(q.rtype.Code())
    && q.class_ == BigEndian(message[at + 2..at + 4])
  }

  lemma QuestionIff(message: seq<byte>, offset: nat, q: Question, next: nat)
    ensures ParseQuestion(message, offset) == Ok(Item(q, next)) <==> QuestionReads(message, offset, q, next)
  {
    NameIff(message, offset);
    hide ParseName, Reads, BigEndian, RecordType.Code, RecordType.FromCode;
    if ParseName(message, offset).Ok? {
      var p := ParseName(message, offset).value;
      if p.end + 4 <= |message| {
        CodeIff(ReadU16(message, p.end), q.rtype);
      }
      assert Reads(message, offset, p.name, p.end);
    }
  }

  ghost predicate RecordReads(message: seq<byte>, offset: nat, r: ResourceRecord, next: nat) {
    exists at :: Reads(message, offset, r.name, at) && FieldsRead(message, at, r, next)
  }

  /** Records one behind the other. */
  ghost predicate RecordsRead(message: seq<byte>, offset: nat, rs: seq<ResourceRecord>, next: nat)
    decreases |rs|, 1
  {
    if rs == [] then next == offset else exists mid :: LastRecordAt(message, offset, rs, mid, next)
  }

  ghost predicate LastRecordAt(message: seq<byte>, offset: nat, rs: seq<ResourceRecord>, mid: nat, next: nat)
    requires rs != []
    decreases |rs|, 0
  {
    RecordsRead(message, offset, rs[..|rs| - 1], mid) && RecordReads(message, mid, rs[|rs| - 1], next)
  }

  ghost predicate QuestionsRead(message: seq<byte>, offset: nat, qs: seq<Question>, next: nat)
    decreases |qs|, 1
  {
    if qs == [] then next == offset else exists mid :: LastQuestionAt(message, offset, qs, mid, next)
  }

  ghost predicate LastQuestionAt(message: seq<byte>, offset: nat, qs: seq<Question>, mid: nat, next: nat)
    requires qs != []
    decreases |qs|, 0
  {
    QuestionsRead(message, offset, qs[..|qs| - 1], mid) && QuestionReads(message, mid, qs[|qs| - 1], next)
  }

  lemma {:induction false} RecordsIff(message: seq<byte>, offset: nat, rs: seq<ResourceRecord>, next: nat)
    ensures ParseRecords(message, offset, |rs|) == Ok(Item(rs, next)) <==> RecordsRead(message, offset, rs, next)
    decreases |rs|
  {
    hide ParseRecord, Reads, FieldsRead, RecordReads;
    if rs != [] {
      var front, last := rs[..|rs| - 1], rs[|rs| - 1];
      forall mid
        ensures ParseRecords(message, offset, |front|) == Ok(Item(front, mid)) <==> RecordsRead(message, offset, front, mid)
        ensures ParseRecord(message, mid) == Ok(Item(last, next)) <==> RecordReads(message, mid, last, next)
      {
        RecordsIff(message, offset, front, mid);
        RecordIff(message, mid, last, next);
        RecordReadsIs(message, mid, last, next);
      }
      LastOf(rs);
      if ParseRecords(message, offset, |rs|) == Ok(Item(rs, next)) {
        var before := ParseRecords(message, offset, |front|).value;
        ItemsSplit(before.value, ParseRecord(message, before.next).value.value, rs);
        assert LastRecordAt(message, offset, rs, before.next, next);
      }
    }
  }

  lemma RecordReadsIs(message: seq<byte>, offset: nat, r: ResourceRecord, next: nat)
    ensures RecordReads(message, offset, r, next)
      <==> exists at :: Reads(message, offset, r.name, at) && FieldsRead(message, at, r, next)
  {
  }

  lemma LastOf<T>(s: seq<T>)
    requires s != []
    ensures s == s[..|s| - 1] + [s[|s| - 1]]
  {
  }

  lemma ItemsSplit<T>(front: seq<T>, x: T, s: seq<T>)
    requires front + [x] == s
    ensures front == s[..|s| - 1] && x == s[|s| - 1]
  {
  }

  lemma {:induction false} QuestionsIff(message: seq<byte>, offset: nat, qs: seq<Question>, next: nat)
    ensures ParseQuestions(message, offset, |qs|) == Ok(Item(qs, next)) <==> QuestionsRead(message, offset, qs, next)
    decreases |qs|
  {
    hide ParseQuestion, QuestionReads;
    if qs != [] {
      var front, last := qs[..|qs| - 1], qs[|qs| - 1];
      forall mid
        ensures ParseQuestions(message, offset, |front|) == Ok(Item(front, mid)) <==> QuestionsRead(message, offset, front, mid)
        ensures ParseQuestion(message, mid) == Ok(Item(last, next)) <==> QuestionReads(message, mid, last, next)
      {
        QuestionsIff(message, offset, front, mid);
        QuestionIff(message, mid, last, next);
      }
      LastOf(qs);
      if ParseQuestions(message, offset, |qs|) == Ok(Item(qs, next)) {
        var before := ParseQuestions(message, offset, |front|).value;
        ItemsSplit(before.value, ParseQuestion(message, before.next).value.value, qs);
        assert LastQuestionAt(message, offset, qs, before.next, next);
      }
    }
  }

  lemma {:induction false} ParsedCount(message: seq<byte>, offset: nat, count: nat)
    ensures ParseRecords(message, offset, count).Ok? ==> |ParseRecords(message, offset, count).value.value| == count
    ensures ParseQuestions(message, offset, count).Ok? ==> |ParseQuestions(message, offset, count).value.value| == count
  {
    hide ParseRecord, ParseQuestion;
    if count > 0 {
      ParsedCount(message, offset, count - 1);
    }
  }

  /** The header says how many of each section there are, at most 16 questions and 2048 records. */
  ghost predicate HeaderReads(message: seq<byte>, m: Message) {
    && |message| >= 12
    && m.header.id == BigEndian(message[0..2]) && m.header.flags == BigEndian(message[2..4])
    && m.header.questionCount == BigEndian(message[4..6]) == |m.questions| <= 16
    && m.header.answerCount == BigEndian(message[6..8]) == |m.answers|
    && m.header.authorityCount == BigEndian(message[8..10]) == |m.authorities|
    && m.header.additionalCount == BigEndian(message[10..12]) == |m.additionals|
    && |m.answers| + |m.authorities| + |m.additionals| <= 2048
  }

  /** The sections stand behind the header in their order, and nothing behind them. */
  ghost predicate SectionsRead(message: seq<byte>, m: Message, a: nat, b: nat, c: nat) {
    && QuestionsRead(message, 12, m.questions, a) && RecordsRead(message, a, m.answers, b)
    && RecordsRead(message, b, m.authorities, c) && RecordsRead(message, c, m.additionals, |message|)
  }

  /** A message is read exactly if its header and its sections are those that stand there. */
  lemma MessageIff(message: seq<byte>, m: Message)
    ensures ParseMessage(message) == Ok(m) <==> HeaderReads(message, m) && exists a, b, c :: SectionsRead(message, m, a, b, c)
  {
    if HeaderReads(message, m) && exists a, b, c :: SectionsRead(message, m, a, b, c) {
      var a, b, c :| SectionsRead(message, m, a, b, c);
      SectionsAreParsed(message, m, a, b, c);
      HeaderIsParsed(message, m);
      hide ParseQuestions, ParseRecords, HeaderReads, SectionsRead, ParseHeader;
    }
    if ParseMessage(message) == Ok(m) {
      MessageFinds(message, m);
    }
  }

  lemma HeaderIsParsed(message: seq<byte>, m: Message)
    requires HeaderReads(message, m)
    ensures |message| >= 12 && ParseHeader(message) == m.header
    ensures m.header.questionCount == |m.questions| <= MAX_QUESTIONS && m.header.answerCount == |m.answers|
    ensures m.header.authorityCount == |m.authorities| && m.header.additionalCount == |m.additionals|
    ensures m.header.answerCount + m.header.authorityCount + m.header.additionalCount <= MAX_RECORDS
  {
    hide BigEndian;
  }

  lemma SectionsAreParsed(message: seq<byte>, m: Message, a: nat, b: nat, c: nat)
    requires SectionsRead(message, m, a, b, c)
    ensures ParseQuestions(message, 12, |m.questions|) == Ok(Item(m.questions, a))
    ensures ParseRecords(message, a, |m.answers|) == Ok(Item(m.answers, b))
    ensures ParseRecords(message, b, |m.authorities|) == Ok(Item(m.authorities, c))
    ensures ParseRecords(message, c, |m.additionals|) == Ok(Item(m.additionals, |message|))
  {
    QuestionsIff(message, 12, m.questions, a);
    RecordsIff(message, a, m.answers, b);
    RecordsIff(message, b, m.authorities, c);
    RecordsIff(message, c, m.additionals, |message|);
    hide QuestionsRead, RecordsRead, ParseQuestions, ParseRecords;
  }

  lemma MessageFinds(message: seq<byte>, m: Message)
    requires ParseMessage(message) == Ok(m)
    ensures HeaderReads(message, m) && exists a, b, c :: SectionsRead(message, m, a, b, c)
  {
    hide ParseQuestions, ParseRecords, BigEndian, QuestionsRead, RecordsRead;
    var h := ParseHeader(message);
    var a := ParseQuestions(message, 12, h.questionCount).value.next;
    var b := ParseRecords(message, a, h.answerCount).value.next;
    var c := ParseRecords(message, b, h.authorityCount).value.next;
    ParsedCount(message, 12, h.questionCount);
    ParsedCount(message, a, h.answerCount);
    ParsedCount(message, b, h.authorityCount);
    ParsedCount(message, c, h.additionalCount);
    QuestionsIff(message, 12, m.questions, a);
    RecordsIff(message, a, m.answers, b);
    RecordsIff(message, b, m.authorities, c);
    RecordsIff(message, c, m.additionals, |message|);
    assert SectionsRead(message, m, a, b, c);
  }

  // ---------------------------------------------------------------- messages as they are written

  /** A record that encodes is written as its uncompressed name and the fields behind it. */
  lemma RecordLayout(r: ResourceRecord)
    requires EncodeRecord(r).Ok?
    ensures var out := EncodeRecord(r).value;
      Encodable(r.name) && RecordStands(out, 0, |out|, Wire(r.name), r.rtype.Code(), r.class_, r.ttl, r.rdata)
  {
    var out := EncodeRecord(r).value;
    AtWhole(out);
    hide Wire, RecordType.Code, U16Bytes, U32Bytes, RecordStands, BigEndian;
    FieldsStand(out, 0, Wire(r.name), r.rtype.Code(), r.class_, r.ttl, r.rdata);
    RecordLength(r);
  }

  lemma RecordLength(r: ResourceRecord)
    requires EncodeRecord(r).Ok?
    ensures |EncodeRecord(r).value| == |Wire(r.name)| + 10 + |r.rdata|
  {
    hide Wire, RecordType.Code;
  }

  lemma SixFields(
    s: seq<byte>, a: seq<byte>, b: seq<byte>, c: seq<byte>, d: seq<byte>, e: seq<byte>, f: seq<byte>, rest: seq<byte>)
    requires |a| == |b| == |c| == |d| == |e| == |f| == 2 && s == (a + (b + (c + (d + (e + f))))) + rest
    ensures At(s, 0, a) && At(s, 2, b) && At(s, 4, c) && At(s, 6, d) && At(s, 8, e) && At(s, 10, f)
  {
    hide At;
    AtWhole(s);
    AtConcat(s, 0, a + (b + (c + (d + (e + f)))), rest);
    AtConcat(s, 0, a, b + (c + (d + (e + f))));
    AtConcat(s, 2, b, c + (d + (e + f)));
    AtConcat(s, 4, c, d + (e + f));
    AtConcat(s, 6, d, e + f);
    AtConcat(s, 8, e, f);
  }

  /** The twelve octets of the header: identifier, flags, and how many of each section follow. */
  lemma HeaderLayout(m: Message, maxLength: nat)
    requires EncodeMessage(m, maxLength).Ok?
    ensures var out := EncodeMessage(m, maxLength).value;
      && 12 <= |out| <= maxLength
      && BigEndian(out[0..2]) == m.header.id && BigEndian(out[2..4]) == m.header.flags
      && BigEndian(out[4..6]) == |m.questions| && BigEndian(out[6..8]) == |m.answers|
      && BigEndian(out[8..10]) == |m.authorities| && BigEndian(out[10..12]) == |m.additionals|
    ensures |m.questions| <= 16 && |m.answers| + |m.authorities| + |m.additionals| <= 2048
  {
    var out := EncodeMessage(m, maxLength).value;
    var qd: u16, an: u16, ns: u16, ar: u16 := |m.questions|, |m.answers|, |m.authorities|, |m.additionals|;
    hide U16Bytes, EncodeRecords, EncodeQuestions, BigEndian, At;
    SixFields(out, U16Bytes(m.header.id), U16Bytes(m.header.flags), U16Bytes(qd), U16Bytes(an), U16Bytes(ns), U16Bytes(ar), out[12..]);
    NumberStands(out, 0, m.header.id);
    NumberStands(out, 2, m.header.flags);
    NumberStands(out, 4, qd);
    NumberStands(out, 6, an);
    NumberStands(out, 8, ns);
    NumberStands(out, 10, ar);
  }

  // ---------------------------------------------------------------- RDATA of the DNSSEC records

  /** Type covered, algorithm, labels, original TTL, expiration, inception, key tag and signer; then the signature. */
  lemma RrsigIff(rdata: seq<byte>, s: RrsigRecord)
    ensures ParseRrsig(rdata) == Ok(s) <==> (
      && |rdata| >= 19
      && s.typeCovered.Code() == BigEndian(rdata[0..2]) && s.typeCovered == RecordType.FromCode(s.typeCovered.Code())
      && s.algorithm == rdata[2] && s.labels == rdata[3]
      && s.originalTtl == BigEndian(rdata[4..8]) && s.expiration == BigEndian(rdata[8..12])
      && s.inception == BigEndian(rdata[12..16]) && s.keyTag == BigEndian(rdata[16..18])
      && exists end: nat :: SignerReads(rdata, s, end))
  {
    NameIff(rdata, 18);
    if |rdata| >= 2 {
      CodeIff(ReadU16(rdata, 0), s.typeCovered);
    }
    hide ParseName, Reads, BigEndian, Wire, RecordType.FromCode, RecordType.Code;
    if ParseRrsig(rdata) == Ok(s) {
      assert SignerReads(rdata, s, ParseName(rdata, 18).value.end);
    }
    if |rdata| >= 19 && exists end: nat :: SignerReads(rdata, s, end) {
      var end: nat :| SignerReads(rdata, s, end);
      assert ParseName(rdata, 18) == Ok(Parsed(s.signerName, end));
    }
  }

  /** The signer stands behind the first 18 octets; what is signed is up to its end, uncompressed. */
  ghost predicate SignerReads(rdata: seq<byte>, s: RrsigRecord, end: nat)
    requires |rdata| >= 18
  {
    && Reads(rdata, 18, s.signerName, end) && end < |rdata| && s.signature == rdata[end..]
    && Encodable(s.signerName) && s.signedRdata == rdata[..18] + Wire(s.signerName)
  }

  /** Flags, the protocol 3, the algorithm and the key. */
  lemma DnskeyReads(flags: u16, protocol: byte, algorithm: byte, key: seq<byte>)
    ensures var rdata := U16Bytes(flags) + [protocol, algorithm] + key;
      ParseDnskey(rdata) == if protocol == 3 then Ok(DnskeyRecord(flags, algorithm, key, rdata)) else Err(InvalidDnskey)
  {
    var rdata := U16Bytes(flags) + [protocol, algorithm] + key;
    hide U16Bytes;
    assert rdata[0..2] == U16Bytes(flags) && rdata[4..] == key;
    ReadU16Inverts(rdata, 0, flags);
    hide ReadU16;
  }

  /** Algorithm, flags, iterations, salt and next hash behind their lengths, and the bitmap. */
  lemma Nsec3Reads(algorithm: byte, flags: byte, iterations: u16, salt: seq<byte>, hash: seq<byte>, maps: seq<byte>)
    requires |salt| < 0x100 && |hash| < 0x100
    ensures var rdata := [algorithm, flags] + (U16Bytes(iterations) + ([|salt|] + (salt + ([|hash|] + (hash + maps)))));
      ParseNsec3(rdata)
        == if hash != [] && ValidBitmaps(maps, None) then Ok(Nsec3Record(algorithm, flags, iterations, salt, hash, maps))
           else Err(InvalidNsec3)
  {
    var size: byte, width: byte := |salt|, |hash|;
    var rdata := [algorithm, flags] + (U16Bytes(iterations) + ([size] + (salt + ([width] + (hash + maps)))));
    hide U16Bytes, ValidBitmaps, ParseNsec3;
    Nsec3Slices(rdata, algorithm, flags, U16Bytes(iterations), salt, hash, maps);
    ReadU16Inverts(rdata, 2, iterations);
    hide ReadU16;
    Nsec3ReadsAt(rdata, algorithm, flags, iterations, salt, hash, maps);
  }

  lemma Nsec3ReadsAt(
    rdata: seq<byte>, algorithm: byte, flags: byte, iterations: u16, salt: seq<byte>, hash: seq<byte>, maps: seq<byte>)
    requires var i, k := 5 + |salt|, 6 + |salt| + |hash|;
      && |rdata| == k + |maps| && rdata[0] == algorithm && rdata[1] == flags && ReadU16(rdata, 2) == iterations
      && rdata[4] == |salt| && rdata[5..i] == salt && rdata[i] == |hash| && rdata[i + 1..k] == hash && rdata[k..] == maps
    ensures ParseNsec3(rdata)
      == if hash != [] && ValidBitmaps(maps, None) then Ok(Nsec3Record(algorithm, flags, iterations, salt, hash, maps))
         else Err(InvalidNsec3)
  {
    hide ValidBitmaps, ReadU16;
  }

  lemma Nsec3Slices(
    rdata: seq<byte>, algorithm: byte, flags: byte, iterations: seq<byte>, salt: seq<byte>, hash: seq<byte>, maps: seq<byte>)
    requires |salt| < 0x100 && |hash| < 0x100 && |iterations| == 2
    requires rdata == [algorithm, flags] + (iterations + ([|salt|] + (salt + ([|hash|] + (hash + maps)))))
    ensures var i, k := 5 + |salt|, 6 + |salt| + |hash|;
      && |rdata| == k + |maps| && rdata[0] == algorithm && rdata[1] == flags && rdata[2..4] == iterations
      && rdata[4] == |salt| && rdata[5..i] == salt && rdata[i] == |hash| && rdata[i + 1..k] == hash && rdata[k..] == maps
  {
    var size: byte, width: byte := |salt|, |hash|;
    var i := 5 + |salt|;
    var tail := [width] + (hash + maps);
    assert rdata == ([algorithm, flags] + iterations + [size] + salt) + tail;
    assert rdata[i..] == tail && tail[0] == width && tail[1..][..|hash|] == hash && tail[1..][|hash|..] == maps;
    assert rdata[i + 1..] == tail[1..];
  }

  // ---------------------------------------------------------------- canonical RDATA

  /** Which types have names in their RDATA, and what becomes of them: uncompressed and in lower case. */
  ghost predicate Canonical(rtype: RecordType, rdata: seq<byte>, out: seq<byte>) {
    match rtype
    case A | Aaaa | Ds | Dnskey | Tlsa | Txt | Unknown(_) => out == rdata
    case Nsec3 => out == rdata && ParseNsec3(rdata).Ok?
    case Rrsig => false
    case Ns | Cname => exists n: DnsName :: Reads(rdata, 0, n, |rdata|) && Encodable(n) && out == Wire(n)
    case Srv =>
      |rdata| >= 6 && exists n: DnsName :: Reads(rdata, 6, n, |rdata|) && Encodable(n) && out == rdata[..6] + Wire(n)
    case Soa =>
      exists n: DnsName, m: DnsName, e: nat, f: nat ::
        Reads(rdata, 0, n, e) && Reads(rdata, e, m, f) && f + 20 == |rdata|
        && Encodable(n) && Encodable(m) && out == Wire(n) + (Wire(m) + rdata[f..])
    case Nsec =>
      exists n: DnsName, e: nat ::
        Reads(rdata, 0, n, e) && Encodable(n) && e < |rdata| && ValidBitmaps(rdata[e..], None) && out == Wire(n) + rdata[e..]
    case Svcb | Https =>
      exists n: DnsName, e: nat ::
        Uncompressed(rdata, 2, n, e) && Encodable(n) && 2 <= e <= |rdata|
        && ParseParams(rdata[e..], None).Ok? && out == rdata[..2] + (Wire(n) + rdata[e..])
  }

  /** A name without pointers. */
  ghost predicate Uncompressed(message: seq<byte>, at: nat, name: DnsName, end: nat) {
    Stands(message, at, name, end, 0) && Fits(name)
  }

  lemma {:induction false} UncompressedReads(message: seq<byte>, at: nat, labels: DnsName, rest: DnsName, end: nat)
    requires Stands(message, at, rest, end, 0) && LabelsSize(labels + rest) <= MAX_NAME_LEN + 1
    ensures WalkUncompressed(message, at, labels) == Ok(Parsed(labels + rest, end)) && at < end <= |message|
    decreases |rest|
  {
    hide LabelsSize, IsValidLabel, Lower, Folds;
    if message[at] == 0 {
      assert labels + [] == labels;
    } else {
      FoldsIff(message[at + 1..at + 1 + |rest[0]|], rest[0]);
      LabelIsKept(labels, rest);
      UncompressedReads(message, at + 1 + |rest[0]|, labels + [rest[0]], rest[1..], end);
    }
  }

  lemma {:induction false} UncompressedFinds(message: seq<byte>, at: nat, labels: DnsName) returns (rest: DnsName, end: nat)
    requires WalkUncompressed(message, at, labels).Ok?
    ensures Stands(message, at, rest, end, 0) && WalkUncompressed(message, at, labels) == Ok(Parsed(labels + rest, end))
    ensures LabelsSize(labels + rest) <= MAX_NAME_LEN + 1
    decreases |message| - at
  {
    hide LabelsSize, IsValidLabel, Lower, Folds;
    if message[at] == 0 {
      rest, end := [], at + 1;
      assert labels + rest == labels;
    } else {
      var stop := at + 1 + message[at];
      var kept := Lower(message[at + 1..stop]);
      FoldsIff(message[at + 1..stop], kept);
      rest, end := UncompressedFinds(message, stop, labels + [kept]);
      assert labels + ([kept] + rest) == labels + [kept] + rest && ([kept] + rest)[1..] == rest;
      rest := [kept] + rest;
    }
  }

  /** The parser without pointers accepts exactly such names. */
  lemma UncompressedIff(message: seq<byte>, at: nat, name: DnsName, end: nat)
    ensures WalkUncompressed(message, at, []) == Ok(Parsed(name, end)) <==> Uncompressed(message, at, name, end)
  {
    hide Stands, WalkUncompressed, LabelsSize;
    assert [] + name == name;
    if Uncompressed(message, at, name, end) {
      UncompressedReads(message, at, [], name, end);
    }
    if WalkUncompressed(message, at, []).Ok? {
      var rest, e := UncompressedFinds(message, at, []);
      assert [] + rest == rest;
    }
  }

  lemma SoaIff(rdata: seq<byte>, out: seq<byte>)
    ensures CanonicalSoa(rdata) == Ok(out) <==> Canonical(Soa, rdata, out)
  {
    NameIff(rdata, 0);
    if ParseName(rdata, 0).Ok? {
      NameIff(rdata, ParseName(rdata, 0).value.end);
    }
    hide ParseName, Reads, Wire;
    if CanonicalSoa(rdata) == Ok(out) {
      var n, e := ParseName(rdata, 0).value.name, ParseName(rdata, 0).value.end;
      var m, f := ParseName(rdata, e).value.name, ParseName(rdata, e).value.end;
      assert Reads(rdata, 0, n, e) && Reads(rdata, e, m, f);
    }
  }

  lemma NsecIff(rdata: seq<byte>, out: seq<byte>)
    ensures CanonicalNsec(rdata) == Ok(out) <==> Canonical(Nsec, rdata, out)
  {
    NameIff(rdata, 0);
    hide ParseName, Reads, Wire, ValidBitmaps;
  }

  lemma SvcbIff(rdata: seq<byte>, out: seq<byte>)
    ensures CanonicalSvcb(rdata) == Ok(out) <==> Canonical(Svcb, rdata, out)
  {
    forall n, e
      ensures WalkUncompressed(rdata, 2, []) == Ok(Parsed(n, e)) <==> Uncompressed(rdata, 2, n, e)
    {
      UncompressedIff(rdata, 2, n, e);
    }
    if WalkUncompressed(rdata, 2, []).Ok? {
      var target := WalkUncompressed(rdata, 2, []).value;
      WalkUncompressedIsSound(rdata, 2, []);
      WellFormedIsEncodable(target.name);
      U16Inverts(rdata, 0);
      if ParseParams(rdata[target.end..], None).Ok? {
        EncodeParamsInverts(rdata[target.end..], None);
      }
    }
    hide WalkUncompressed, Uncompressed, Wire, U16Bytes, ReadU16, ParseParams, EncodeParams, WellFormed, Encodable;
  }

  /** Canonical RDATA, type by type. */
  lemma CanonicalIff(rtype: RecordType, rdata: seq<byte>, out: seq<byte>)
    ensures CanonicalRdata(rtype, rdata) == Ok(out) <==> Canonical(rtype, rdata, out)
  {
    NameIff(rdata, 0);
    NameIff(rdata, 6);
    SoaIff(rdata, out);
    NsecIff(rdata, out);
    SvcbIff(rdata, out);
    hide ParseName, Reads, Wire, CanonicalSoa, CanonicalNsec, CanonicalSvcb, Uncompressed, ValidBitmaps, ParseParams, ParseNsec3;
  }
}
