/**
 * Resource records and whole messages (rust/crates/hns-core/src/dns.rs): parsing with RDATA
 * normalisation, encoding, and the normal form that parsing reaches.
 */
module WireMessage {
  import opened Prelude
  import opened WireName

  const MAX_QUESTIONS: nat := 16
  const MAX_RECORDS: nat := 2048

  datatype RecordType =
    | A | Ns | Cname | Soa | Txt | Aaaa | Srv | Ds | Rrsig | Nsec | Dnskey | Nsec3 | Tlsa | Svcb | Https
    | Unknown(code: u16)
  {
    function Code(): u16 {
      match this
      case A => 1
      case Ns => 2
      case Cname => 5
      case Soa => 6
      case Txt => 16
      case Aaaa => 28
      case Srv => 33
      case Ds => 43
      case Rrsig => 46
      case Nsec => 47
      case Dnskey => 48
      case Nsec3 => 50
      case Tlsa => 52
      case Svcb => 64
      case Https => 65
      case Unknown(code) => code
    }

    static function FromCode(code: u16): RecordType {
      match code
      case 1 => A
      case 2 => Ns
      case 5 => Cname
      case 6 => Soa
      case 16 => Txt
      case 28 => Aaaa
      case 33 => Srv
      case 43 => Ds
      case 46 => Rrsig
      case 47 => Nsec
      case 48 => Dnskey
      case 50 => Nsec3
      case 52 => Tlsa
      case 64 => Svcb
      case 65 => Https
      case _ => Unknown(code)
    }
  }

  datatype Question = Question(name: DnsName, rtype: RecordType, class_: u16)

  datatype ResourceRecord = ResourceRecord(name: DnsName, rtype: RecordType, class_: u16, ttl: u32, rdata: seq<byte>)

  datatype Header = Header(
    id: u16, flags: u16, questionCount: u16, answerCount: u16, authorityCount: u16, additionalCount: u16)

  datatype Message = Message(
    header: Header, questions: seq<Question>,
    answers: seq<ResourceRecord>, authorities: seq<ResourceRecord>, additionals: seq<ResourceRecord>)

  /** A parsed item and the offset just past it. */
  datatype Item<+T> = Item(value: T, next: nat)

  // ---------------------------------------------------------------- numbers

  function U16Bytes(v: u16): (r: seq<byte>)
    ensures |r| == 2
  {
    ToBigEndian(v, 2)
  }

  function U32Bytes(v: u32): (r: seq<byte>)
    ensures |r| == 4
  {
    ToBigEndian(v, 4)
  }

  function ReadU16(message: seq<byte>, i: nat): u16
    requires i + 2 <= |message|
  {
    BigEndianBound(message[i..i + 2]);
    assert Pow256(2) == 0x1_0000;
    BigEndian(message[i..i + 2])
  }

  function ReadU32(message: seq<byte>, i: nat): u32
    requires i + 4 <= |message|
  {
    BigEndianBound(message[i..i + 4]);
    assert Pow256(4) == 0x1_0000_0000;
    BigEndian(message[i..i + 4])
  }

  lemma ReadU16Inverts(message: seq<byte>, i: nat, v: u16)
    requires At(message, i, U16Bytes(v))
    ensures ReadU16(message, i) == v
  {
    assert Pow256(2) == 0x1_0000;
    ToBigEndianValue(v, 2);
  }

  lemma ReadU32Inverts(message: seq<byte>, i: nat, v: u32)
    requires At(message, i, U32Bytes(v))
    ensures ReadU32(message, i) == v
  {
    assert Pow256(4) == 0x1_0000_0000;
    ToBigEndianValue(v, 4);
  }

  // ---------------------------------------------------------------- RDATA normalisation

  /** The name at `start` must fill the RDATA exactly. */
  function NormalizeExactName(message: seq<byte>, start: nat, end: nat): Result<seq<byte>, ParseError> {
    var p :- ParseName(message, start);
    if p.end > end then Err(UnexpectedEof)
    else if p.end != end then Err(TrailingBytes)
    else EncodeName(p.name)
  }

  /** A name after a fixed prefix, followed by anything. */
  function NormalizePrefixedName(message: seq<byte>, start: nat, end: nat, prefix: nat): Result<seq<byte>, ParseError>
    requires start <= end <= |message|
  {
    if start + prefix >= end then Err(UnexpectedEof)
    else
      var p :- ParseName(message, start + prefix);
      if p.end > end then Err(UnexpectedEof)
      else
        var wire :- EncodeName(p.name);
        Ok(message[start..start + prefix] + wire + message[p.end..end])
  }

  function NormalizeRdata(message: seq<byte>, start: nat, end: nat, rtype: RecordType): Result<seq<byte>, ParseError>
    requires start <= end <= |message|
  {
    if rtype == Cname then NormalizeExactName(message, start, end)
    else if rtype == Rrsig && end - start > 18 && message[start + 18] >= 0xc0 then
      NormalizePrefixedName(message, start, end, 18)
    else Ok(message[start..end])
  }

  // ---------------------------------------------------------------- parsing

  function ParseRecord(message: seq<byte>, offset: nat): Result<Item<ResourceRecord>, ParseError> {
    var p :- ParseName(message, offset);
    var at := p.end;
    if at + 10 > |message| then Err(UnexpectedEof)
    else
      var rtype := RecordType.FromCode(ReadU16(message, at));
      var start, end := at + 10, at + 10 + ReadU16(message, at + 8);
      if end > |message| then Err(UnexpectedEof)
      else
        var rdata :- NormalizeRdata(message, start, end, rtype);
        Ok(Item(ResourceRecord(p.name, rtype, ReadU16(message, at + 2), ReadU32(message, at + 4), rdata), end))
  }

  function ParseQuestion(message: seq<byte>, offset: nat): Result<Item<Question>, ParseError> {
    var p :- ParseName(message, offset);
    if p.end + 4 > |message| then Err(UnexpectedEof)
    else Ok(Item(Question(p.name, RecordType.FromCode(ReadU16(message, p.end)), ReadU16(message, p.end + 2)), p.end + 4))
  }

  function ParseRecords(message: seq<byte>, offset: nat, count: nat): Result<Item<seq<ResourceRecord>>, ParseError> {
    if count == 0 then Ok(Item([], offset))
    else
      var front :- ParseRecords(message, offset, count - 1);
      var last :- ParseRecord(message, front.next);
      Ok(Item(front.value + [last.value], last.next))
  }

  function ParseQuestions(message: seq<byte>, offset: nat, count: nat): Result<Item<seq<Question>>, ParseError> {
    if count == 0 then Ok(Item([], offset))
    else
      var front :- ParseQuestions(message, offset, count - 1);
      var last :- ParseQuestion(message, front.next);
      Ok(Item(front.value + [last.value], last.next))
  }

  function ParseHeader(message: seq<byte>): Header
    requires |message| >= 12
  {
    Header(ReadU16(message, 0), ReadU16(message, 2), ReadU16(message, 4),
           ReadU16(message, 6), ReadU16(message, 8), ReadU16(message, 10))
  }

  function ParseMessage(message: seq<byte>): Result<Message, ParseError> {
    if |message| < 12 then Err(UnexpectedEof)
    else
      var h := ParseHeader(message);
      if h.questionCount > MAX_QUESTIONS || h.answerCount + h.authorityCount + h.additionalCount > MAX_RECORDS
      then Err(LengthLimit)
      else
        var questions :- ParseQuestions(message, 12, h.questionCount);
        var answers :- ParseRecords(message, questions.next, h.answerCount);
        var authorities :- ParseRecords(message, answers.next, h.authorityCount);
        var additionals :- ParseRecords(message, authorities.next, h.additionalCount);
        if additionals.next != |message| then Err(TrailingBytes)
        else Ok(Message(h, questions.value, answers.value, authorities.value, additionals.value))
  }

  // ---------------------------------------------------------------- encoding

  function EncodeRecord(r: ResourceRecord): Result<seq<byte>, ParseError> {
    if |r.rdata| > 0xffff then Err(LengthLimit)
    else
      var name :- EncodeName(r.name);
      Ok(name + (U16Bytes(r.rtype.Code()) + (U16Bytes(r.class_) + (U32Bytes(r.ttl) + (U16Bytes(|r.rdata|) + r.rdata)))))
  }

  function EncodeQuestion(q: Question): Result<seq<byte>, ParseError> {
    var name :- EncodeName(q.name);
    Ok(name + (U16Bytes(q.rtype.Code()) + U16Bytes(q.class_)))
  }

  function EncodeRecords(rs: seq<ResourceRecord>): Result<seq<byte>, ParseError> {
    if rs == [] then Ok([])
    else
      var front :- EncodeRecords(rs[..|rs| - 1]);
      var last :- EncodeRecord(rs[|rs| - 1]);
      Ok(front + last)
  }

  function EncodeQuestions(qs: seq<Question>): Result<seq<byte>, ParseError> {
    if qs == [] then Ok([])
    else
      var front :- EncodeQuestions(qs[..|qs| - 1]);
      var last :- EncodeQuestion(qs[|qs| - 1]);
      Ok(front + last)
  }

  predicate WithinLimits(m: Message) {
    |m.questions| <= MAX_QUESTIONS && |m.answers| + |m.authorities| + |m.additionals| <= MAX_RECORDS
  }

  function EncodeHeader(m: Message): seq<byte>
    requires WithinLimits(m)
  {
    U16Bytes(m.header.id) + (U16Bytes(m.header.flags) + (U16Bytes(|m.questions|) +
      (U16Bytes(|m.answers|) + (U16Bytes(|m.authorities|) + U16Bytes(|m.additionals|)))))
  }

  function EncodeMessage(m: Message, maxLength: nat): Result<seq<byte>, ParseError> {
    if !WithinLimits(m) then Err(LengthLimit)
    else
      var questions :- EncodeQuestions(m.questions);
      var answers :- EncodeRecords(m.answers);
      var authorities :- EncodeRecords(m.authorities);
      var additionals :- EncodeRecords(m.additionals);
      var out := EncodeHeader(m) + (questions + (answers + (authorities + additionals)));
      if |out| > maxLength then Err(LengthLimit) else Ok(out)
  }

  // ---------------------------------------------------------------- what parsing yields

  /** RDATA that normalisation leaves alone wherever it stands. */
  ghost predicate NormalRdata(rtype: RecordType, rdata: seq<byte>) {
    && (rtype == Cname ==> exists n: DnsName :: WellFormed(n) && EncodeName(n) == Ok(rdata))
    && (rtype == Rrsig && |rdata| > 18 ==> rdata[18] < 0xc0)
  }

  ghost predicate NormalRecord(r: ResourceRecord) {
    WellFormed(r.name) && r.rtype == RecordType.FromCode(r.rtype.Code()) && NormalRdata(r.rtype, r.rdata)
  }

  ghost predicate NormalQuestion(q: Question) {
    WellFormed(q.name) && q.rtype == RecordType.FromCode(q.rtype.Code())
  }

  lemma FromCodeIsStable(code: u16)
    ensures RecordType.FromCode(code).Code() == code
  {
  }

  lemma WireStartsLow(n: DnsName)
    requires WellFormed(n)
    ensures EncodeName(n).Ok? && EncodeName(n).value != [] && EncodeName(n).value[0] <= MAX_LABEL_LEN
  {
    if n != [] { assert IsStoredLabel(n[0]); }
  }

  lemma NormalizeReachesNormal(message: seq<byte>, start: nat, end: nat, rtype: RecordType)
    requires start <= end <= |message| && NormalizeRdata(message, start, end, rtype).Ok?
    ensures NormalRdata(rtype, NormalizeRdata(message, start, end, rtype).value)
  {
    if rtype == Cname {
      ParseNameIsSound(message, start);
    } else if rtype == Rrsig && end - start > 18 && message[start + 18] >= 0xc0 {
      ParseNameIsSound(message, start + 18);
      WireStartsLow(ParseName(message, start + 18).value.name);
    }
  }

  lemma ParseRecordIsSound(message: seq<byte>, offset: nat)
    requires ParseRecord(message, offset).Ok?
    ensures NormalRecord(ParseRecord(message, offset).value.value)
    ensures offset < ParseRecord(message, offset).value.next <= |message|
  {
    hide NormalizeRdata, NormalRdata, ParseName, WellFormed, BigEndian;
    ParseNameIsSound(message, offset);
    var at := ParseName(message, offset).value.end;
    FromCodeIsStable(ReadU16(message, at));
    NormalizeReachesNormal(message, at + 10, at + 10 + ReadU16(message, at + 8), RecordType.FromCode(ReadU16(message, at)));
  }

  lemma {:induction false} ParseRecordsIsSound(message: seq<byte>, offset: nat, count: nat)
    requires ParseRecords(message, offset, count).Ok?
    ensures var rs := ParseRecords(message, offset, count).value.value;
      |rs| == count && forall i | 0 <= i < |rs| :: NormalRecord(rs[i])
  {
    hide ParseRecord, NormalRecord;
    if count > 0 {
      ParseRecordsIsSound(message, offset, count - 1);
      ParseRecordIsSound(message, ParseRecords(message, offset, count - 1).value.next);
    }
  }

  lemma {:induction false} ParseQuestionsIsSound(message: seq<byte>, offset: nat, count: nat)
    requires ParseQuestions(message, offset, count).Ok?
    ensures var qs := ParseQuestions(message, offset, count).value.value;
      |qs| == count && forall i | 0 <= i < |qs| :: NormalQuestion(qs[i])
  {
    hide ParseName, WellFormed, BigEndian;
    if count > 0 {
      ParseQuestionsIsSound(message, offset, count - 1);
      var at := ParseQuestions(message, offset, count - 1).value.next;
      ParseNameIsSound(message, at);
      FromCodeIsStable(ReadU16(message, ParseName(message, at).value.end));
    }
  }

  // ---------------------------------------------------------------- reading back

  lemma NormalRdataSurvives(message: seq<byte>, start: nat, rtype: RecordType, rdata: seq<byte>)
    requires NormalRdata(rtype, rdata) && At(message, start, rdata)
    ensures NormalizeRdata(message, start, start + |rdata|, rtype) == Ok(rdata)
  {
    hide WellFormed, ParseName, Wire;
    if rtype == Cname {
      var n: DnsName :| WellFormed(n) && EncodeName(n) == Ok(rdata);
      ParseInvertsEncode(message, start, n);
    } else if rtype == Rrsig && |rdata| > 18 {
      assert message[start + 18] == message[start..start + |rdata|][18];
    }
  }

  /** A normal record is read back from its encoding at any position of any message. */
  lemma RecordRoundTrip(message: seq<byte>, offset: nat, r: ResourceRecord)
    requires NormalRecord(r) && EncodeRecord(r).Ok?
    requires At(message, offset, EncodeRecord(r).value)
    ensures ParseRecord(message, offset) == Ok(Item(r, offset + |EncodeRecord(r).value|))
  {
    hide WellFormed, NormalizeRdata, NormalRdata, ParseName, At, Wire, ToBigEndian, BigEndian, RecordType.FromCode, RecordType.Code;
    var name := EncodeName(r.name).value;
    var code, class_, ttl, size := U16Bytes(r.rtype.Code()), U16Bytes(r.class_), U32Bytes(r.ttl), U16Bytes(|r.rdata|);
    var at := offset + |name|;
    AtConcat(message, offset, name, code + (class_ + (ttl + (size + r.rdata))));
    AtConcat(message, at, code, class_ + (ttl + (size + r.rdata)));
    AtConcat(message, at + 2, class_, ttl + (size + r.rdata));
    AtConcat(message, at + 4, ttl, size + r.rdata);
    AtConcat(message, at + 8, size, r.rdata);
    AtBounds(message, at + 10, r.rdata);
    ParseInvertsEncode(message, offset, r.name);
    ReadU16Inverts(message, at, r.rtype.Code());
    ReadU16Inverts(message, at + 2, r.class_);
    ReadU32Inverts(message, at + 4, r.ttl);
    ReadU16Inverts(message, at + 8, |r.rdata|);
    NormalRdataSurvives(message, at + 10, r.rtype, r.rdata);
  }

  lemma AtBounds(message: seq<byte>, i: nat, s: seq<byte>)
    requires At(message, i, s)
    ensures i + |s| <= |message|
  {
  }

  lemma QuestionRoundTrip(message: seq<byte>, offset: nat, q: Question)
    requires NormalQuestion(q) && EncodeQuestion(q).Ok?
    requires At(message, offset, EncodeQuestion(q).value)
    ensures ParseQuestion(message, offset) == Ok(Item(q, offset + |EncodeQuestion(q).value|))
  {
    hide WellFormed, ParseName, At, Wire, ToBigEndian, BigEndian, RecordType.FromCode, RecordType.Code;
    var name := EncodeName(q.name).value;
    var code, class_ := U16Bytes(q.rtype.Code()), U16Bytes(q.class_);
    var at := offset + |name|;
    AtConcat(message, offset, name, code + class_);
    AtConcat(message, at, code, class_);
    AtBounds(message, at + 2, class_);
    ParseInvertsEncode(message, offset, q.name);
    ReadU16Inverts(message, at, q.rtype.Code());
    ReadU16Inverts(message, at + 2, q.class_);
  }

  lemma {:induction false} RecordsRoundTrip(message: seq<byte>, offset: nat, rs: seq<ResourceRecord>)
    requires (forall i | 0 <= i < |rs| :: NormalRecord(rs[i])) && EncodeRecords(rs).Ok?
    requires At(message, offset, EncodeRecords(rs).value)
    ensures ParseRecords(message, offset, |rs|) == Ok(Item(rs, offset + |EncodeRecords(rs).value|))
    decreases |rs|
  {
    hide NormalRecord, EncodeRecord, ParseRecord, At;
    if rs != [] {
      var front, last := rs[..|rs| - 1], rs[|rs| - 1];
      AtConcat(message, offset, EncodeRecords(front).value, EncodeRecord(last).value);
      RecordsRoundTrip(message, offset, front);
      RecordRoundTrip(message, offset + |EncodeRecords(front).value|, last);
      assert rs == front + [last];
    }
  }

  lemma {:induction false} QuestionsRoundTrip(message: seq<byte>, offset: nat, qs: seq<Question>)
    requires (forall i | 0 <= i < |qs| :: NormalQuestion(qs[i])) && EncodeQuestions(qs).Ok?
    requires At(message, offset, EncodeQuestions(qs).value)
    ensures ParseQuestions(message, offset, |qs|) == Ok(Item(qs, offset + |EncodeQuestions(qs).value|))
    decreases |qs|
  {
    hide NormalQuestion, EncodeQuestion, ParseQuestion, At;
    if qs != [] {
      var front, last := qs[..|qs| - 1], qs[|qs| - 1];
      AtConcat(message, offset, EncodeQuestions(front).value, EncodeQuestion(last).value);
      QuestionsRoundTrip(message, offset, front);
      QuestionRoundTrip(message, offset + |EncodeQuestions(front).value|, last);
      assert qs == front + [last];
    }
  }

  // ---------------------------------------------------------------- messages

  /** A message whose parts are normal and whose counts are those of its sections. */
  ghost predicate NormalMessage(m: Message) {
    && (forall i | 0 <= i < |m.questions| :: NormalQuestion(m.questions[i]))
    && (forall i | 0 <= i < |m.answers| :: NormalRecord(m.answers[i]))
    && (forall i | 0 <= i < |m.authorities| :: NormalRecord(m.authorities[i]))
    && (forall i | 0 <= i < |m.additionals| :: NormalRecord(m.additionals[i]))
    && m.header.questionCount == |m.questions| && m.header.answerCount == |m.answers|
    && m.header.authorityCount == |m.authorities| && m.header.additionalCount == |m.additionals|
    && WithinLimits(m)
  }

  lemma ParsedIsNormal(message: seq<byte>)
    requires ParseMessage(message).Ok?
    ensures NormalMessage(ParseMessage(message).value)
  {
    hide ParseRecords, ParseQuestions, NormalRecord, NormalQuestion, BigEndian;
    var h := ParseHeader(message);
    ParseQuestionsIsSound(message, 12, h.questionCount);
    var q := ParseQuestions(message, 12, h.questionCount).value.next;
    ParseRecordsIsSound(message, q, h.answerCount);
    var a := ParseRecords(message, q, h.answerCount).value.next;
    ParseRecordsIsSound(message, a, h.authorityCount);
    var b := ParseRecords(message, a, h.authorityCount).value.next;
    ParseRecordsIsSound(message, b, h.additionalCount);
  }

  lemma HeaderRoundTrip(message: seq<byte>, m: Message)
    requires NormalMessage(m) && At(message, 0, EncodeHeader(m))
    ensures |message| >= 12 && ParseHeader(message) == m.header
  {
    hide At, BigEndian, ToBigEndian, NormalRecord, NormalQuestion;
    var id, flags, q := U16Bytes(m.header.id), U16Bytes(m.header.flags), U16Bytes(|m.questions|);
    var a, b, c := U16Bytes(|m.answers|), U16Bytes(|m.authorities|), U16Bytes(|m.additionals|);
    AtBounds(message, 0, EncodeHeader(m));
    AtConcat(message, 0, id, flags + (q + (a + (b + c))));
    AtConcat(message, 2, flags, q + (a + (b + c)));
    AtConcat(message, 4, q, a + (b + c));
    AtConcat(message, 6, a, b + c);
    AtConcat(message, 8, b, c);
    ReadU16Inverts(message, 0, m.header.id);
    ReadU16Inverts(message, 2, m.header.flags);
    ReadU16Inverts(message, 4, |m.questions|);
    ReadU16Inverts(message, 6, |m.answers|);
    ReadU16Inverts(message, 8, |m.authorities|);
    ReadU16Inverts(message, 10, |m.additionals|);
  }

  lemma NormalMessageRoundTrip(m: Message, maxLength: nat)
    requires NormalMessage(m) && EncodeMessage(m, maxLength).Ok?
    ensures ParseMessage(EncodeMessage(m, maxLength).value) == Ok(m)
  {
    hide At, ParseHeader, EncodeHeader, ParseRecords, ParseQuestions, EncodeRecords, EncodeQuestions, NormalRecord, NormalQuestion;
    var out := EncodeMessage(m, maxLength).value;
    var h, q, a := EncodeHeader(m), EncodeQuestions(m.questions).value, EncodeRecords(m.answers).value;
    var b, c := EncodeRecords(m.authorities).value, EncodeRecords(m.additionals).value;
    AtWhole(out);
    AtConcat(out, 0, h, q + (a + (b + c)));
    AtConcat(out, |h|, q, a + (b + c));
    AtConcat(out, |h| + |q|, a, b + c);
    AtConcat(out, |h| + |q| + |a|, b, c);
    HeaderRoundTrip(out, m);
    HeaderIs12(m);
    QuestionsRoundTrip(out, 12, m.questions);
    RecordsRoundTrip(out, 12 + |q|, m.answers);
    RecordsRoundTrip(out, 12 + |q| + |a|, m.authorities);
    RecordsRoundTrip(out, 12 + |q| + |a| + |b|, m.additionals);
  }

  lemma HeaderIs12(m: Message)
    requires WithinLimits(m)
    ensures |EncodeHeader(m)| == 12
  {
  }

  /**
   * Parsing reaches a normal form in one step: for every byte string that parses, if encoding the
   * result succeeds then parsing that encoding gives the same message, and encoding again gives
   * the same bytes.
   */
  lemma ParseReachesNormalForm(message: seq<byte>, maxLength: nat)
    requires ParseMessage(message).Ok?
    ensures var m := ParseMessage(message).value; var out := EncodeMessage(m, maxLength);
      out.Ok? ==> ParseMessage(out.value) == Ok(m) && EncodeMessage(ParseMessage(out.value).value, maxLength) == out
  {
    hide ParseMessage, EncodeMessage, NormalMessage;
    ParsedIsNormal(message);
    var m := ParseMessage(message).value;
    if EncodeMessage(m, maxLength).Ok? {
      NormalMessageRoundTrip(m, maxLength);
    }
  }

  // ---------------------------------------------------------------- when encoding fails

  lemma {:induction false} EncodeRecordsOutcome(rs: seq<ResourceRecord>)
    requires forall i | 0 <= i < |rs| :: NormalRecord(rs[i])
    ensures EncodeRecords(rs).Ok? <==> forall i | 0 <= i < |rs| :: |rs[i].rdata| <= 0xffff
    ensures EncodeRecords(rs).Err? ==> EncodeRecords(rs) == Err(LengthLimit)
    decreases |rs|
  {
    hide NormalRdata, Wire, ToBigEndian, WellFormed;
    if rs != [] {
      EncodeRecordsOutcome(rs[..|rs| - 1]);
      assert NormalRecord(rs[|rs| - 1]);
      WellFormedIsEncodable(rs[|rs| - 1].name);
    }
  }

  lemma {:induction false} EncodeQuestionsSucceeds(qs: seq<Question>)
    requires forall i | 0 <= i < |qs| :: NormalQuestion(qs[i])
    ensures EncodeQuestions(qs).Ok?
    decreases |qs|
  {
    hide Wire, ToBigEndian, WellFormed;
    if qs != [] {
      EncodeQuestionsSucceeds(qs[..|qs| - 1]);
      assert NormalQuestion(qs[|qs| - 1]);
      WellFormedIsEncodable(qs[|qs| - 1].name);
    }
  }

  ghost predicate RdataFits(rs: seq<ResourceRecord>) {
    forall i | 0 <= i < |rs| :: |rs[i].rdata| <= 0xffff
  }

  /** A parsed message re-encodes exactly when no expanded RDATA passes 65535 bytes and the whole fits the limit. */
  lemma ParsedEncodesUnlessTooLong(message: seq<byte>, maxLength: nat)
    requires ParseMessage(message).Ok?
    ensures var m := ParseMessage(message).value;
      && (EncodeMessage(m, maxLength).Err? ==> EncodeMessage(m, maxLength) == Err(LengthLimit))
      && (exists limit: nat :: EncodeMessage(m, limit).Ok?) ==
           (RdataFits(m.answers) && RdataFits(m.authorities) && RdataFits(m.additionals))
  {
    hide EncodeHeader, EncodeRecords, EncodeQuestions, NormalRecord, NormalQuestion, ParseMessage;
    ParsedIsNormal(message);
    var m := ParseMessage(message).value;
    EncodeQuestionsSucceeds(m.questions);
    EncodeRecordsOutcome(m.answers);
    EncodeRecordsOutcome(m.authorities);
    EncodeRecordsOutcome(m.additionals);
    if RdataFits(m.answers) && RdataFits(m.authorities) && RdataFits(m.additionals) {
      var out := EncodeHeader(m) + (EncodeQuestions(m.questions).value + (EncodeRecords(m.answers).value
        + (EncodeRecords(m.authorities).value + EncodeRecords(m.additionals).value)));
      assert EncodeMessage(m, |out|).Ok?;
    }
  }

  // ---------------------------------------------------------------- the buffer-filling forms

  method ParseRecordList(message: seq<byte>, offset: nat, count: nat)
    returns (r: Result<Item<seq<ResourceRecord>>, ParseError>)
    ensures r == ParseRecords(message, offset, count)
  {
    hide ParseRecord;
    var records: seq<ResourceRecord> := [];
    var cursor := offset;
    for i := 0 to count
      invariant ParseRecords(message, offset, i) == Ok(Item(records, cursor))
    {
      var next := ParseRecord(message, cursor);
      if next.Err? {
        ParseRecordsFailure(message, offset, i + 1, count);
        return Err(next.error);
      }
      records := records + [next.value.value];
      cursor := next.value.next;
    }
    return Ok(Item(records, cursor));
  }

  lemma {:induction false} ParseRecordsFailure(message: seq<byte>, offset: nat, count: nat, more: nat)
    requires count <= more && ParseRecords(message, offset, count).Err?
    ensures ParseRecords(message, offset, more) == Err(ParseRecords(message, offset, count).error)
    decreases more
  {
    hide ParseRecord;
    if count < more {
      ParseRecordsFailure(message, offset, count, more - 1);
    }
  }

  method ParseQuestionList(message: seq<byte>, offset: nat, count: nat)
    returns (r: Result<Item<seq<Question>>, ParseError>)
    ensures r == ParseQuestions(message, offset, count)
  {
    hide ParseQuestion;
    var questions: seq<Question> := [];
    var cursor := offset;
    for i := 0 to count
      invariant ParseQuestions(message, offset, i) == Ok(Item(questions, cursor))
    {
      var next := ParseQuestion(message, cursor);
      if next.Err? {
        ParseQuestionsFailure(message, offset, i + 1, count);
        return Err(next.error);
      }
      questions := questions + [next.value.value];
      cursor := next.value.next;
    }
    return Ok(Item(questions, cursor));
  }

  lemma {:induction false} ParseQuestionsFailure(message: seq<byte>, offset: nat, count: nat, more: nat)
    requires count <= more && ParseQuestions(message, offset, count).Err?
    ensures ParseQuestions(message, offset, more) == Err(ParseQuestions(message, offset, count).error)
    decreases more
  {
    hide ParseQuestion;
    if count < more {
      ParseQuestionsFailure(message, offset, count, more - 1);
    }
  }

  method ParseDnsMessage(message: seq<byte>) returns (r: Result<Message, ParseError>)
    ensures r == ParseMessage(message)
  {
    hide ParseRecords, ParseQuestions, BigEndian;
    if |message| < 12 {
      return Err(UnexpectedEof);
    }
    var header := ParseHeader(message);
    if header.questionCount > MAX_QUESTIONS {
      return Err(LengthLimit);
    }
    if header.answerCount + header.authorityCount + header.additionalCount > MAX_RECORDS {
      return Err(LengthLimit);
    }
    var questions := ParseQuestionList(message, 12, header.questionCount);
    if questions.Err? {
      return Err(questions.error);
    }
    var answers := ParseRecordList(message, questions.value.next, header.answerCount);
    if answers.Err? {
      return Err(answers.error);
    }
    var authorities := ParseRecordList(message, answers.value.next, header.authorityCount);
    if authorities.Err? {
      return Err(authorities.error);
    }
    var additionals := ParseRecordList(message, authorities.value.next, header.additionalCount);
    if additionals.Err? {
      return Err(additionals.error);
    }
    if additionals.value.next != |message| {
      return Err(TrailingBytes);
    }
    return Ok(Message(header, questions.value.value, answers.value.value, authorities.value.value, additionals.value.value));
  }

  /** Appends the encoded records to a buffer, stopping at the first that fails. */
  method EncodeRecordsInto(prefix: seq<byte>, rs: seq<ResourceRecord>) returns (r: Result<seq<byte>, ParseError>)
    ensures r == match EncodeRecords(rs) case Ok(bytes) => Ok(prefix + bytes) case Err(e) => Err(e)
  {
    hide EncodeRecord;
    var out := prefix;
    for i := 0 to |rs|
      invariant EncodeRecords(rs[..i]).Ok? && out == prefix + EncodeRecords(rs[..i]).value
    {
      var next := EncodeRecord(rs[i]);
      assert rs[..i + 1][..i] == rs[..i];
      if next.Err? {
        EncodeRecordsFailure(rs, i + 1);
        return Err(next.error);
      }
      out := out + next.value;
    }
    assert rs[..|rs|] == rs;
    return Ok(out);
  }

  lemma {:induction false} EncodeRecordsFailure(rs: seq<ResourceRecord>, n: nat)
    requires n <= |rs| && EncodeRecords(rs[..n]).Err?
    ensures EncodeRecords(rs) == Err(EncodeRecords(rs[..n]).error)
    decreases |rs|
  {
    hide EncodeRecord;
    if n < |rs| {
      assert rs[..|rs| - 1][..n] == rs[..n];
      EncodeRecordsFailure(rs[..|rs| - 1], n);
    } else {
      assert rs[..n] == rs;
    }
  }

  method EncodeQuestionsInto(prefix: seq<byte>, qs: seq<Question>) returns (r: Result<seq<byte>, ParseError>)
    ensures r == match EncodeQuestions(qs) case Ok(bytes) => Ok(prefix + bytes) case Err(e) => Err(e)
  {
    hide EncodeQuestion;
    var out := prefix;
    for i := 0 to |qs|
      invariant EncodeQuestions(qs[..i]).Ok? && out == prefix + EncodeQuestions(qs[..i]).value
    {
      var next := EncodeQuestion(qs[i]);
      assert qs[..i + 1][..i] == qs[..i];
      if next.Err? {
        EncodeQuestionsFailure(qs, i + 1);
        return Err(next.error);
      }
      out := out + next.value;
    }
    assert qs[..|qs|] == qs;
    return Ok(out);
  }

  lemma {:induction false} EncodeQuestionsFailure(qs: seq<Question>, n: nat)
    requires n <= |qs| && EncodeQuestions(qs[..n]).Err?
    ensures EncodeQuestions(qs) == Err(EncodeQuestions(qs[..n]).error)
    decreases |qs|
  {
    hide EncodeQuestion;
    if n < |qs| {
      assert qs[..|qs| - 1][..n] == qs[..n];
      EncodeQuestionsFailure(qs[..|qs| - 1], n);
    } else {
      assert qs[..n] == qs;
    }
  }

  method EncodeDnsMessage(m: Message, maxLength: nat) returns (r: Result<seq<byte>, ParseError>)
    ensures r == EncodeMessage(m, maxLength)
  {
    hide EncodeRecords, EncodeQuestions, EncodeHeader;
    if !WithinLimits(m) {
      return Err(LengthLimit);
    }
    var header := EncodeHeader(m);
    var questions := EncodeQuestionsInto(header, m.questions);
    if questions.Err? {
      return questions;
    }
    var answers := EncodeRecordsInto(questions.value, m.answers);
    if answers.Err? {
      return answers;
    }
    var authorities := EncodeRecordsInto(answers.value, m.authorities);
    if authorities.Err? {
      return authorities;
    }
    var additionals := EncodeRecordsInto(authorities.value, m.additionals);
    if additionals.Err? {
      return additionals;
    }
    var out := additionals.value;
    assert out == header + (EncodeQuestions(m.questions).value + (EncodeRecords(m.answers).value
      + (EncodeRecords(m.authorities).value + EncodeRecords(m.additionals).value)));
    if |out| > maxLength {
      return Err(LengthLimit);
    }
    return Ok(out);
  }
}
