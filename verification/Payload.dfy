/** The binary PTWP payload: magic, version, type, three length-prefixed strings, three little-endian words. */
module Payload {
  import opened Protocol

  /** The flat message every event is laid out as. */
  datatype Msg = Msg(kind: byte, a: Str, b: Str, c: Str, u0: u32, u1: u32, u2: u32)

  function Bytes(s: Str): seq<byte> {
    seq(|s|, i requires 0 <= i < |s| => s[i] as int)
  }

  function Text(bytes: seq<byte>): Str {
    seq(|bytes|, i requires 0 <= i < |bytes| => bytes[i] as char)
  }

  function Clamp(s: Str): Str {
    if |s| <= 255 then s else s[..255]
  }

  function StrField(s: Str): seq<byte> {
    [|Clamp(s)|] + Bytes(Clamp(s))
  }

  function Word(v: u32): seq<byte> {
    [v % 0x100, v / 0x100 % 0x100, v / 0x100 / 0x100 % 0x100, v / 0x100 / 0x100 / 0x100]
  }

  function OfWord(word: seq<byte>): u32
    requires |word| == 4
  {
    var low: int, high: int := word[0] + 0x100 * word[1] as int, word[2] + 0x100 * word[3] as int;
    low + 0x1_0000 * high
  }

  function Header(kind: byte): seq<byte> {
    ['P' as int, 'T' as int, 1, kind]
  }

  function Words(m: Msg): seq<byte> {
    Word(m.u0) + (Word(m.u1) + Word(m.u2))
  }

  function MsgBytes(m: Msg): seq<byte> {
    Header(m.kind) + (StrField(m.a) + (StrField(m.b) + (StrField(m.c) + Words(m))))
  }

  function StatusCode(status: TestStatus): u32 {
    match status
    case Passed => 0
    case Failed => 1
    case Skipped => 2
  }

  function MsgOf(e: Event): Msg {
    match e
    case SuiteStart(name) => Msg(1, name, "", "", 0, 0, 0)
    case CaseStart(suite, name) => Msg(2, suite, name, "", 0, 0, 0)
    case AssertFail(suite, name, _, line, message) => Msg(3, suite, name, message, line, 0, 0)
    case CaseEnd(suite, name, status) => Msg(4, suite, name, "", StatusCode(status), 0, 0)
    case SuiteEnd(name, passed, failed, skipped) => Msg(5, name, "", "", passed, failed, skipped)
    case Log(message) => Msg(6, message, "", "", 0, 0, 0)
    case Done(passed, failed, skipped) => Msg(7, "", "", "", passed, failed, skipped)
  }

  function EncodePayload(e: Event): seq<byte> {
    MsgBytes(MsgOf(e))
  }

  /** The host's reading of a message; the status word maps anything but 0 and 2 to a failure. */
  function EventOf(m: Msg): Event
    requires 1 <= m.kind <= 7
  {
    if m.kind == 1 then SuiteStart(m.a)
    else if m.kind == 2 then CaseStart(m.a, m.b)
    else if m.kind == 3 then AssertFail(m.a, m.b, "", m.u0, m.c)
    else if m.kind == 4 then CaseEnd(m.a, m.b, if m.u0 == 0 then Passed else if m.u0 == 2 then Skipped else Failed)
    else if m.kind == 5 then SuiteEnd(m.a, m.u0, m.u1, m.u2)
    else if m.kind == 6 then Log(m.a)
    else Done(m.u0, m.u1, m.u2)
  }

  /** A read of one field: its value and what lies behind it. */
  function ReadStr(rest: seq<byte>): Result<(Str, seq<byte>), CodecError> {
    if rest == [] then Err(Truncated)
    else if 1 + rest[0] > |rest| then Err(TruncatedStr)
    else Ok((Text(rest[1..1 + rest[0]]), rest[1 + rest[0]..]))
  }

  function ReadWord(rest: seq<byte>): Result<(u32, seq<byte>), CodecError> {
    if 4 > |rest| then Err(TruncatedU32) else Ok((OfWord(rest[..4]), rest[4..]))
  }

  function ReadStrings(rest: seq<byte>): Result<(Str, Str, Str, seq<byte>), CodecError> {
    var a := ReadStr(rest);
    if a.Err? then Err(a.error) else
    var b := ReadStr(a.value.1);
    if b.Err? then Err(b.error) else
    var c := ReadStr(b.value.1);
    if c.Err? then Err(c.error) else
    Ok((a.value.0, b.value.0, c.value.0, c.value.1))
  }

  function ReadWords(rest: seq<byte>): Result<(u32, u32, u32), CodecError> {
    var u0 := ReadWord(rest);
    if u0.Err? then Err(u0.error) else
    var u1 := ReadWord(u0.value.1);
    if u1.Err? then Err(u1.error) else
    var u2 := ReadWord(u1.value.1);
    if u2.Err? then Err(u2.error) else
    Ok((u0.value.0, u1.value.0, u2.value.0))
  }

  function ReadMsg(kind: byte, rest: seq<byte>): Result<Msg, CodecError> {
    var strings := ReadStrings(rest);
    if strings.Err? then Err(strings.error) else
    var words := ReadWords(strings.value.3);
    if words.Err? then Err(words.error) else
    Ok(Msg(kind, strings.value.0, strings.value.1, strings.value.2, words.value.0, words.value.1, words.value.2))
  }

  /** Foreign or short payloads are silently dropped; an unknown type is an error before any field is read. */
  function DecodePayload(data: seq<byte>): Result<Option<Event>, CodecError> {
    if |data| < 4 || data[..2] != ['P' as int, 'T' as int] || data[2] != 1 then Ok(None)
    else if !(1 <= data[3] <= 7) then Err(UnknownMsgType)
    else
      var m := ReadMsg(data[3], data[4..]);
      if m.Err? then Err(m.error) else Ok(Some(EventOf(m.value)))
  }

  /** What survives the wire: strings cut to 255 bytes, and no source file. */
  function Carried(e: Event): Event {
    match e
    case SuiteStart(name) => SuiteStart(Clamp(name))
    case CaseStart(suite, name) => CaseStart(Clamp(suite), Clamp(name))
    case AssertFail(suite, name, _, line, message) => AssertFail(Clamp(suite), Clamp(name), "", line, Clamp(message))
    case CaseEnd(suite, name, status) => CaseEnd(Clamp(suite), Clamp(name), status)
    case SuiteEnd(name, passed, failed, skipped) => SuiteEnd(Clamp(name), passed, failed, skipped)
    case Log(message) => Log(Clamp(message))
    case Done(_, _, _) => e
  }

  lemma TextOfBytes(s: Str)
    ensures Text(Bytes(s)) == s
  {
  }

  lemma ReadStrField(s: Str, rest: seq<byte>)
    ensures ReadStr(StrField(s) + rest) == Ok((Clamp(s), rest))
  {
    var data := StrField(s) + rest;
    assert data[1..1 + data[0]] == Bytes(Clamp(s)) && data[1 + data[0]..] == rest;
    TextOfBytes(Clamp(s));
  }

  lemma ReadStringsOf(m: Msg, rest: seq<byte>)
    ensures ReadStrings(StrField(m.a) + (StrField(m.b) + (StrField(m.c) + rest))) ==
            Ok((Clamp(m.a), Clamp(m.b), Clamp(m.c), rest))
  {
    ReadStrField(m.a, StrField(m.b) + (StrField(m.c) + rest));
    ReadStrField(m.b, StrField(m.c) + rest);
    ReadStrField(m.c, rest);
  }

  lemma ReadWordsOf(m: Msg)
    ensures ReadWords(Words(m)) == Ok((m.u0, m.u1, m.u2))
  {
  }

  function Clamped(m: Msg): Msg {
    m.(a := Clamp(m.a), b := Clamp(m.b), c := Clamp(m.c))
  }

  lemma ReadMsgOf(m: Msg)
    ensures ReadMsg(m.kind, StrField(m.a) + (StrField(m.b) + (StrField(m.c) + Words(m)))) == Ok(Clamped(m))
  {
    ReadStringsOf(m, Words(m));
    ReadWordsOf(m);
  }

  lemma HeaderSplits(kind: byte, body: seq<byte>)
    ensures var data := Header(kind) + body;
            |data| >= 4 && data[..2] == ['P' as int, 'T' as int] && data[2] == 1 && data[3] == kind && data[4..] == body
  {
  }

  /** Every laid-out message of a known type is read back, each string cut to its first 255 bytes. */
  lemma MsgRoundTrip(m: Msg)
    requires 1 <= m.kind <= 7
    ensures DecodePayload(MsgBytes(m)) == Ok(Some(EventOf(Clamped(m))))
  {
    ReadMsgOf(m);
    HeaderSplits(m.kind, StrField(m.a) + (StrField(m.b) + (StrField(m.c) + Words(m))));
  }

  lemma ReadingOfLaidOut(e: Event)
    ensures 1 <= MsgOf(e).kind <= 7 && EventOf(Clamped(MsgOf(e))) == Carried(e)
  {
  }

  /** Every event comes back from its payload, up to what the format cannot carry. */
  lemma EventRoundTrip(e: Event)
    ensures DecodePayload(EncodePayload(e)) == Ok(Some(Carried(e)))
  {
    ReadingOfLaidOut(e);
    MsgRoundTrip(MsgOf(e));
  }

  /** The kinds of the format, in its own numbers, behind its magic and version. */
  lemma KindMeaning(e: Event)
    ensures var p := EncodePayload(e);
            && |p| > 4 && p[0] == 'P' as int && p[1] == 'T' as int && p[2] == 1
            && p[3] == match e
                       case SuiteStart(_) => 1
                       case CaseStart(_, _) => 2
                       case AssertFail(_, _, _, _, _) => 3
                       case CaseEnd(_, _, _) => 4
                       case SuiteEnd(_, _, _, _) => 5
                       case Log(_) => 6
                       case Done(_, _, _) => 7
  {
  }

  /** Words are laid out least significant byte first. */
  lemma WordMeaning(v: u32)
    ensures var a: int, b: int, c: int, d: int := Word(v)[0], Word(v)[1], Word(v)[2], Word(v)[3];
            |Word(v)| == 4 && v == a + 0x100 * b + 0x1_0000 * c + 0x100_0000 * d
  {
  }

  /** Strings are laid out behind their length. */
  lemma StringMeaning(s: Str)
    requires |s| <= 255
    ensures |StrField(s)| == |s| + 1 && StrField(s)[0] == |s|
    ensures forall i :: 0 <= i < |s| ==> StrField(s)[i + 1] == s[i] as int
  {
  }

  /** The status word of a case end. */
  lemma StatusMeaning(suite: Str, name: Str, status: TestStatus)
    ensures MsgOf(CaseEnd(suite, name, status)).u0 ==
            match status
            case Passed => 0
            case Failed => 1
            case Skipped => 2
  {
  }

  predicate OurPayload(data: seq<byte>) {
    |data| >= 4 && data[0] == 'P' as int && data[1] == 'T' as int && data[2] == 1
  }

  predicate Short(m: Msg) {
    1 <= m.kind <= 7 && |m.a| <= 255 && |m.b| <= 255 && |m.c| <= 255
  }

  lemma ReadStrMeaning(rest: seq<byte>)
    requires ReadStr(rest).Ok?
    ensures var r := ReadStr(rest).value; |r.0| <= 255 && rest == StrField(r.0) + r.1
  {
    var r := ReadStr(rest).value;
    var taken := rest[1..1 + rest[0]];
    assert Bytes(r.0) == taken;
    assert rest == [rest[0]] + taken + r.1;
  }

  lemma ReadWordMeaning(rest: seq<byte>)
    requires ReadWord(rest).Ok?
    ensures var r := ReadWord(rest).value; rest == Word(r.0) + r.1
  {
    var b := rest[..4];
    WordOfBytes(b);
    assert rest == b + rest[4..];
  }

  lemma WordOfBytes(b: seq<byte>)
    requires |b| == 4
    ensures Word(OfWord(b)) == b
  {
    var low: int, high: int := b[0] + 0x100 * b[1] as int, b[2] + 0x100 * b[3] as int;
    var v := OfWord(b);
    assert v % 0x100 == b[0] && v / 0x100 == b[1] + 0x100 * high;
    assert v / 0x100 % 0x100 == b[1] && v / 0x100 / 0x100 == high;
    assert high % 0x100 == b[2] && high / 0x100 == b[3];
  }

  lemma ReadStringsMeaning(rest: seq<byte>)
    requires ReadStrings(rest).Ok?
    ensures var r := ReadStrings(rest).value;
            && |r.0| <= 255 && |r.1| <= 255 && |r.2| <= 255
            && rest == StrField(r.0) + (StrField(r.1) + (StrField(r.2) + r.3))
  {
    ReadStrMeaning(rest);
    var behind := ReadStr(rest).value.1;
    ReadStrMeaning(behind);
    ReadStrMeaning(ReadStr(behind).value.1);
  }

  lemma ReadWordsMeaning(rest: seq<byte>) returns (behind: seq<byte>)
    requires ReadWords(rest).Ok?
    ensures var w := ReadWords(rest).value; rest == Word(w.0) + (Word(w.1) + Word(w.2)) + behind
  {
    ReadWordMeaning(rest);
    var second := ReadWord(rest).value.1;
    ReadWordMeaning(second);
    var third := ReadWord(second).value.1;
    ReadWordMeaning(third);
    behind := ReadWord(third).value.1;
    var w := ReadWords(rest).value;
    Associative(Word(w.1), Word(w.2), behind);
    Associative(Word(w.0), Word(w.1) + Word(w.2), behind);
  }

  lemma ReadWordsBehind(m: Msg, behind: seq<byte>)
    ensures ReadWords(Words(m) + behind) == Ok((m.u0, m.u1, m.u2))
  {
    Associative(Word(m.u1), Word(m.u2), behind);
    Associative(Word(m.u0), Word(m.u1) + Word(m.u2), behind);
    ReadWordField(m.u0, Word(m.u1) + (Word(m.u2) + behind));
    ReadWordField(m.u1, Word(m.u2) + behind);
    ReadWordField(m.u2, behind);
  }

  lemma ReadWordField(v: u32, rest: seq<byte>)
    ensures ReadWord(Word(v) + rest) == Ok((v, rest))
  {
    assert (Word(v) + rest)[..4] == Word(v) && (Word(v) + rest)[4..] == rest;
    assert OfWord(Word(v)) == v;
  }

  lemma MsgBytesBehind(m: Msg, behind: seq<byte>)
    ensures MsgBytes(m) + behind ==
            Header(m.kind) + (StrField(m.a) + (StrField(m.b) + (StrField(m.c) + (Words(m) + behind))))
  {
    var a, b, c := StrField(m.a), StrField(m.b), StrField(m.c);
    Associative(c, Words(m), behind);
    Associative(b, c + Words(m), behind);
    Associative(a, b + (c + Words(m)), behind);
    Associative(Header(m.kind), a + (b + (c + Words(m))), behind);
  }

  /** A laid-out message is read whatever lies behind it. */
  lemma LaidOutIsRead(m: Msg, behind: seq<byte>)
    requires Short(m)
    ensures DecodePayload(MsgBytes(m) + behind) == Ok(Some(EventOf(m)))
  {
    MsgBytesBehind(m, behind);
    HeaderSplits(m.kind, StrField(m.a) + (StrField(m.b) + (StrField(m.c) + (Words(m) + behind))));
    ReadStringsOf(m, Words(m) + behind);
    ReadWordsBehind(m, behind);
  }

  lemma ReadMsgMeaning(kind: byte, rest: seq<byte>) returns (behind: seq<byte>)
    requires ReadMsg(kind, rest).Ok?
    ensures var m := ReadMsg(kind, rest).value;
            && m.kind == kind && |m.a| <= 255 && |m.b| <= 255 && |m.c| <= 255
            && Header(kind) + rest == MsgBytes(m) + behind
  {
    ReadStringsMeaning(rest);
    behind := ReadWordsMeaning(ReadStrings(rest).value.3);
    MsgBytesBehind(ReadMsg(kind, rest).value, behind);
  }

  /** A payload that gives an event is ours: the header of a known kind, and a message behind it. */
  lemma ReadIsOurs(data: seq<byte>)
    requires DecodePayload(data).Ok? && DecodePayload(data).value.Some?
    ensures |data| >= 4 && 1 <= data[3] <= 7 && data == Header(data[3]) + data[4..]
    ensures ReadMsg(data[3], data[4..]).Ok?
    ensures DecodePayload(data).value == Some(EventOf(ReadMsg(data[3], data[4..]).value))
  {
    assert data[..2] == [data[0], data[1]];
  }

  /** What is read was laid out. */
  lemma ReadWasLaidOut(data: seq<byte>) returns (m: Msg, behind: seq<byte>)
    requires DecodePayload(data).Ok? && DecodePayload(data).value.Some?
    ensures Short(m) && data == MsgBytes(m) + behind && DecodePayload(data).value == Some(EventOf(m))
  {
    ReadIsOurs(data);
    m := ReadMsg(data[3], data[4..]).value;
    behind := ReadMsgMeaning(data[3], data[4..]);
  }

  /** Arbitrary bytes: payloads of other protocols are passed over; ours are read if and only if a known message is
      laid out at their front, as that message; a kind that is not known is an error. */
  lemma DecodeMeaning(data: seq<byte>)
    ensures DecodePayload(data) == Ok(None) <==> !OurPayload(data)
    ensures forall e :: DecodePayload(data) == Ok(Some(e)) <==>
              exists m, behind :: Short(m) && data == MsgBytes(m) + behind && e == EventOf(m)
    ensures OurPayload(data) && !(1 <= data[3] <= 7) ==> DecodePayload(data) == Err(UnknownMsgType)
  {
    assert |data| >= 4 ==> data[..2] == [data[0], data[1]];
    forall e ensures DecodePayload(data) == Ok(Some(e)) <==>
                     exists m, behind :: Short(m) && data == MsgBytes(m) + behind && e == EventOf(m)
    {
      if DecodePayload(data) == Ok(Some(e)) {
        var m, behind := ReadWasLaidOut(data);
      }
      if m, behind :| Short(m) && data == MsgBytes(m) + behind && e == EventOf(m) {
        LaidOutIsRead(m, behind);
      }
    }
  }
}
