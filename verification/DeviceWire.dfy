/** The harness side of the COBS path: bounded buffers, length-prefixed puts, one frame per message. */
module DeviceWire {
  import opened Protocol
  import opened Framing
  import opened Payload
  import opened HostCodec
  import opened Cobs

  /** A C string pointer; `None` is NULL. */
  type CStr = Option<Str>

  function Chars(s: CStr): Str {
    if s.None? then "" else s.value
  }

  const PAYLOAD_MAX := 384
  const FRAME_MAX := 512

  /** The strings of a message take at most this many bytes together when nothing is dropped. */
  const TEXT_MAX := 365

  /** Appends a string field, or nothing at all when it does not fit. */
  function Put(at: seq<byte>, s: Str): seq<byte> {
    if |at| + |StrField(s)| > PAYLOAD_MAX then at else at + StrField(s)
  }

  function Fields(m: Msg): seq<byte> {
    Put(Put(Put(Header(m.kind), m.a), m.b), m.c)
  }

  /** The payload the device assembles, if the three words still fit. */
  function Assembled(m: Msg): Option<seq<byte>> {
    if |Fields(m)| + 12 > PAYLOAD_MAX then None else Some(Fields(m) + Words(m))
  }

  function Emitted(m: Msg): seq<byte> {
    if Assembled(m).None? then [] else Frame(Assembled(m).value)
  }

  predicate Fits(m: Msg) {
    |Clamp(m.a)| + |Clamp(m.b)| + |Clamp(m.c)| <= TEXT_MAX
  }

  lemma FittingMessage(m: Msg)
    requires Fits(m)
    ensures Assembled(m) == Some(MsgBytes(m))
  {
    assert Fields(m) == Header(m.kind) + StrField(m.a) + StrField(m.b) + StrField(m.c);
    Associates(Header(m.kind), StrField(m.a), StrField(m.b), StrField(m.c), Words(m));
  }

  lemma Associates(h: seq<byte>, a: seq<byte>, b: seq<byte>, c: seq<byte>, w: seq<byte>)
    ensures h + a + b + c + w == h + (a + (b + (c + w)))
  {
  }

  /** The device's payload when something was dropped: one string field or none is left behind the first. */
  lemma DroppedShape(m: Msg) returns (s: Str, kept: seq<byte>)
    requires !Fits(m) && Assembled(m).Some?
    ensures kept == [] || kept == StrField(s)
    ensures Assembled(m).value == Header(m.kind) + (StrField(m.a) + (kept + Words(m)))
  {
    var first := Header(m.kind) + StrField(m.a);
    assert Put(Header(m.kind), m.a) == first;
    var second := Put(first, m.b);
    s := if second == first then m.c else m.b;
    kept := Fields(m)[|first|..];
    assert Fields(m) == first + kept;
    Associates(Header(m.kind), StrField(m.a), kept, [], Words(m));
    assert kept + ([] + Words(m)) == kept + Words(m) && first + kept + [] == first + kept;
  }

  lemma ShortRead(a: Str, s: Str, kept: seq<byte>, words: seq<byte>)
    requires (kept == [] || kept == StrField(s)) && |words| == 12
    ensures var strings := ReadStrings(StrField(a) + (kept + words));
            strings.Err? || ReadWords(strings.value.3).Err?
  {
  }

  /** When a string was dropped the host cannot read the message at all: it never sees a wrong event. */
  lemma DroppedStringIsRejected(m: Msg)
    requires 1 <= m.kind <= 7 && !Fits(m) && Assembled(m).Some?
    ensures DecodePayload(Assembled(m).value).Err?
  {
    var s, kept := DroppedShape(m);
    ShortRead(m.a, s, kept, Words(m));
    HeaderSplits(m.kind, StrField(m.a) + (kept + Words(m)));
  }

  /** The frame is at most 387 bytes, so the 512-byte frame buffer never makes the encoder give up. */
  lemma FrameFits(m: Msg)
    ensures |Emitted(m)| <= 387 < FRAME_MAX
  {
    if Assembled(m).Some? {
      FrameRoundTrip(Assembled(m).value);
    }
  }

  /** The host reads exactly the intended event if and only if the clamped strings take at most 365 bytes;
      otherwise it sees nothing or reports an error. */
  lemma DeviceToHost(m: Msg, rest: seq<byte>)
    requires 1 <= m.kind <= 7
    ensures Fits(m) ==> StreamEvents(Emitted(m) + rest) == Prepend([EventOf(Clamped(m))], StreamEvents(rest))
    ensures !Fits(m) ==> StreamEvents(Emitted(m)) == Ok([]) || StreamEvents(Emitted(m)).Err?
    ensures StreamEvents(Emitted(m)) == Ok([EventOf(Clamped(m))]) <==> Fits(m)
  {
    if Assembled(m).Some? {
      var payload := Assembled(m).value;
      if Fits(m) {
        FittingMessage(m);
        MsgRoundTrip(m);
        OneFrame(payload, rest);
      } else {
        DroppedStringIsRejected(m);
      }
      OneFrame(payload, []);
      assert Emitted(m) + [] == Emitted(m);
      assert [EventOf(Clamped(m))] + [] == [EventOf(Clamped(m))];
    } else if Fits(m) {
      FittingMessage(m);
    }
  }

  lemma OneFrame(payload: seq<byte>, rest: seq<byte>)
    ensures var e := DecodePayload(payload);
            StreamEvents(Frame(payload) + rest) ==
            if e.Err? then Err(e.error)
            else Prepend(if e.value.None? then [] else [e.value.value], StreamEvents(rest))
  {
    FramedPayload(payload, rest);
    InterpretCons(FrameEvents, Encoded([], payload), Pieces(0, [], rest));
  }

  /** The array holds what the encoder has written, except the placeholder that is not yet patched. */
  ghost predicate Mirrors(out: array<byte>, writeIndex: nat, codeIndex: nat, e: Encoder)
    reads out
  {
    && Sound(e) && e.codeIndex == codeIndex && |e.view| == writeIndex <= out.Length
    && forall k :: 0 <= k < writeIndex && k != codeIndex ==> out[k] == e.view[k]
  }

  /** One round of the device encoder's loop; `full` when it gives up. */
  method TakeBounded(b: byte, out: array<byte>, outMax: nat, writeIndex: nat, codeIndex: nat, ghost e: Encoder)
    returns (full: bool, write: nat, codeAt: nat)
    requires writeIndex <= outMax <= out.Length && Mirrors(out, writeIndex, codeIndex, e)
    modifies out
    ensures full ==> |Take(e, b).view| >= outMax
    ensures !full ==> write <= outMax && Mirrors(out, write, codeAt, Take(e, b))
    ensures forall k :: outMax <= k < out.Length ==> out[k] == old(out[k])
  {
    full, write, codeAt := false, writeIndex, codeIndex;
    if b == 0 {
      out[codeAt] := write - codeAt;
      codeAt := write;
      write := write + 1;
      full := write >= outMax;
    } else {
      if write >= outMax {
        full := true;
        return;
      }
      out[write] := b;
      write := write + 1;
      if write - codeAt == 0xFF {
        out[codeAt] := 0xFF;
        codeAt := write;
        write := write + 1;
        full := write >= outMax;
      }
    }
  }

  /** The device encoder: the same bytes as the unbounded form, or 0 exactly when they would not fit. */
  method CobsEncodeBounded(input: array<byte>, length: nat, out: array<byte>, outMax: nat) returns (n: nat)
    requires input != out && length <= input.Length && outMax <= out.Length
    modifies out
    ensures n == 0 <==> |Frame(input[..length])| > outMax
    ensures n != 0 ==> n == |Frame(input[..length])| && out[..n] == Frame(input[..length])
    ensures forall k :: outMax <= k < out.Length ==> out[k] == old(out[k])
  {
    ghost var data := input[..length];
    ghost var e := Encoder([0], 0);
    ghost var last := TakeAll(e, data);
    EncoderBuildsFrame(data);
    if outMax < 2 {
      return 0;
    }
    var writeIndex: nat, codeIndex: nat := 1, 0;
    out[0] := 0;
    assert data[0..] == data;
    for readIndex := 0 to length
      invariant writeIndex <= outMax && Mirrors(out, writeIndex, codeIndex, e)
      invariant TakeAll(e, data[readIndex..]) == last
      invariant forall k :: outMax <= k < out.Length ==> out[k] == old(out[k])
    {
      assert input[readIndex] == data[readIndex..][0] && data[readIndex..][1..] == data[readIndex + 1..];
      var full;
      full, writeIndex, codeIndex := TakeBounded(input[readIndex], out, outMax, writeIndex, codeIndex, e);
      e := Take(e, data[readIndex]);
      if full {
        return 0;
      }
    }
    assert e == last;
    out[codeIndex] := writeIndex - codeIndex;
    if writeIndex >= outMax {
      return 0;
    }
    out[writeIndex] := 0;
    n := writeIndex + 1;
    assert out[..n] == Close(last);
  }

  /** Where the harness writes: the bytes handed to the writer callback, in order. */
  class Writer {
    var wire: seq<byte>

    constructor ()
      ensures wire == []
    {
      wire := [];
    }

    method EmitRaw(data: array<byte>, len: nat)
      requires len <= data.Length
      modifies this
      ensures wire == old(wire) + data[..len]
    {
      wire := wire + data[..len];
    }

    method EmitFrame(payload: array<byte>, len: nat)
      requires len <= payload.Length
      modifies this
      ensures wire == old(wire) + if |Frame(payload[..len])| > FRAME_MAX then [] else Frame(payload[..len])
    {
      var encoded := new byte[FRAME_MAX];
      var n := CobsEncodeBounded(payload, len, encoded, FRAME_MAX);
      if n > 0 {
        EmitRaw(encoded, n);
      }
    }

    method PutStr(buf: array<byte>, max: nat, at: nat, s: CStr) returns (next: nat)
      requires at <= max == buf.Length == PAYLOAD_MAX
      modifies buf
      ensures at <= next <= max
      ensures buf[..next] == Put(old(buf[..at]), Chars(s))
    {
      var n := |Chars(s)|;
      if n > 255 {
        n := 255;
      }
      if at + 1 + n > max {
        return at;
      }
      ghost var field := StrField(Chars(s));
      buf[at] := n;
      for k := 0 to n
        invariant forall j :: 0 <= j < at ==> buf[j] == old(buf[j])
        invariant forall j :: 0 <= j <= k ==> buf[at + j] == field[j]
      {
        buf[at + 1 + k] := Chars(s)[k] as int;
      }
      next := at + 1 + n;
      assert buf[..next] == old(buf[..at]) + field;
    }

    method PutWord(buf: array<byte>, at: nat, v: u32) returns (next: nat)
      requires at + 4 <= buf.Length
      modifies buf
      ensures next == at + 4 && buf[..next] == old(buf[..at]) + Word(v)
    {
      buf[at], buf[at + 1] := v % 0x100, v / 0x100 % 0x100;
      buf[at + 2], buf[at + 3] := v / 0x100 / 0x100 % 0x100, v / 0x100 / 0x100 / 0x100;
      next := at + 4;
    }

    method PutFields(buf: array<byte>, kind: byte, a: CStr, b: CStr, c: CStr) returns (at: nat)
      requires buf.Length == PAYLOAD_MAX
      modifies buf
      ensures at <= PAYLOAD_MAX
      ensures buf[..at] == Put(Put(Put(Header(kind), Chars(a)), Chars(b)), Chars(c))
    {
      buf[0], buf[1], buf[2], buf[3] := 'P' as int, 'T' as int, 1, kind;
      assert buf[..4] == Header(kind);
      at := PutStr(buf, PAYLOAD_MAX, 4, a);
      at := PutStr(buf, PAYLOAD_MAX, at, b);
      at := PutStr(buf, PAYLOAD_MAX, at, c);
    }

    method PutWords(buf: array<byte>, start: nat, m: Msg) returns (at: nat)
      requires start + 12 <= buf.Length
      modifies buf
      ensures at == start + 12 && buf[..at] == old(buf[..start]) + Words(m)
    {
      at := PutWord(buf, start, m.u0);
      at := PutWord(buf, at, m.u1);
      at := PutWord(buf, at, m.u2);
    }

    /** One message becomes at most one whole frame. */
    method EmitMsg(kind: byte, a: CStr, b: CStr, c: CStr, u0: u32, u1: u32, u2: u32)
      modifies this
      ensures wire == old(wire) + Emitted(Msg(kind, Chars(a), Chars(b), Chars(c), u0, u1, u2))
    {
      var m := Msg(kind, Chars(a), Chars(b), Chars(c), u0, u1, u2);
      var buf := new byte[PAYLOAD_MAX];
      var at := PutFields(buf, kind, a, b, c);
      assert buf[..at] == Fields(m);
      if at + 12 > PAYLOAD_MAX {
        return;
      }
      at := PutWords(buf, at, m);
      FrameFits(m);
      EmitFrame(buf, at);
    }
  }
}
