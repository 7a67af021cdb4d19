/** The host's incremental COBS codec. */
module HostCodec {
  import opened Protocol
  import opened Framing
  import opened Payload
  import Cobs

  /** One frame without its delimiter: nothing, one event, or an error that ends decoding. */
  function FrameEvents(frame: seq<byte>): Result<seq<Event>, CodecError> {
    if frame == [] then Ok([])
    else
      var decoded := Cobs.Decoded(frame);
      if decoded.Err? then Err(decoded.error)
      else
        var e := DecodePayload(decoded.value);
        if e.Err? then Err(e.error)
        else Ok(if e.value.None? then [] else [e.value.value])
  }

  function EncodeEvent(e: Event): seq<byte> {
    Cobs.Frame(EncodePayload(e))
  }

  /** All the events of a complete byte stream. */
  function StreamEvents(bytes: seq<byte>): Result<seq<Event>, CodecError> {
    Interpret(FrameEvents, Pieces(0, [], bytes))
  }

  class CobsCodec {
    var buf: seq<byte>

    constructor ()
      ensures buf == []
    {
      buf := [];
    }

    method Encode(e: Event) returns (bytes: seq<byte>)
      ensures bytes == EncodeEvent(e)
    {
      var payload := EncodePayload(e);
      bytes := Cobs.CobsEncode(payload);
    }

    method DecodeFrame(frame: seq<byte>) returns (r: Result<seq<Event>, CodecError>)
      ensures r == FrameEvents(frame)
    {
      if frame == [] {
        return Ok([]);
      }
      var decoded := Cobs.CobsDecode(frame);
      if decoded.Err? {
        return Err(decoded.error);
      }
      var e := DecodePayload(decoded.value);
      if e.Err? {
        return Err(e.error);
      }
      r := Ok(if e.value.None? then [] else [e.value.value]);
    }

    /** Splits off and decodes every complete frame. After an error the frames behind the bad one stay buffered. */
    method DecodeFeed(data: seq<byte>) returns (r: Result<seq<Event>, CodecError>)
      modifies this
      ensures r == Interpret(FrameEvents, Pieces(0, [], old(buf) + data))
      ensures r.Ok? ==> buf == Residue(0, [], old(buf) + data)
      ensures r.Err? ==>
                exists good, bad ::
                  && Pieces(0, [], old(buf) + data) == good + [bad] + Pieces(0, [], buf)
                  && Interpret(FrameEvents, good).Ok? && FrameEvents(bad) == Err(r.error)
      ensures Residue(0, [], buf) == Residue(0, [], old(buf) + data)
    {
      buf := buf + data;
      ghost var pieces := Pieces(0, [], buf);
      ghost var good: seq<seq<byte>> := [];
      var out: seq<Event> := [];
      while 0 in buf
        invariant pieces == good + Pieces(0, [], buf)
        invariant Residue(0, [], buf) == Residue(0, [], old(buf) + data)
        invariant Interpret(FrameEvents, good) == Ok(out)
        decreases |buf|
      {
        var pos := FirstIndex(0, buf);
        var frame := buf[..pos];
        FirstPiece(0, buf);
        buf := buf[pos + 1..];
        Associative(good, [frame], Pieces(0, [], buf));
        var events := DecodeFrame(frame);
        if events.Err? {
          InterpretStops(FrameEvents, good, frame, Pieces(0, [], buf));
          return events;
        }
        InterpretSnoc(FrameEvents, good, frame);
        good := good + [frame];
        out := out + events.value;
      }
      PiecesOfOpen(0, [], buf);
      EmptyIsNeutral(buf);
      EmptyIsNeutral(good);
      r := Ok(out);
    }
  }

  /** One well-framed payload in front of a stream contributes exactly its own reading. */
  lemma FramedPayload(payload: seq<byte>, rest: seq<byte>)
    ensures Pieces(0, [], Cobs.Frame(payload) + rest) == [Cobs.Encoded([], payload)] + Pieces(0, [], rest)
    ensures Residue(0, [], Cobs.Frame(payload) + rest) == Residue(0, [], rest)
    ensures Cobs.Encoded([], payload) != [] && Cobs.Decoded(Cobs.Encoded([], payload)) == Ok(payload)
  {
    Cobs.FrameRoundTrip(payload);
    var f := Cobs.Frame(payload);
    assert f[..|f| - 1] == Cobs.Encoded([], payload);
    PiecesOfClosed(0, Cobs.Encoded([], payload), rest);
  }

  function EncodeAll(events: seq<Event>): seq<byte> {
    if events == [] then [] else EncodeEvent(events[0]) + EncodeAll(events[1..])
  }

  function CarriedAll(events: seq<Event>): seq<Event> {
    seq(|events|, i requires 0 <= i < |events| => Carried(events[i]))
  }

  lemma FramedEvent(e: Event)
    ensures FrameEvents(Cobs.Encoded([], EncodePayload(e))) == Ok([Carried(e)])
  {
    FramedPayload(EncodePayload(e), []);
    EventRoundTrip(e);
  }

  lemma {:induction false} EncodedStream(events: seq<Event>)
    ensures StreamEvents(EncodeAll(events)) == Ok(CarriedAll(events))
    ensures Residue(0, [], EncodeAll(events)) == []
  {
    if events == [] {
      assert CarriedAll(events) == [];
    } else {
      var e, rest := events[0], EncodeAll(events[1..]);
      EncodedStream(events[1..]);
      FramedPayload(EncodePayload(e), rest);
      FramedEvent(e);
      InterpretCons(FrameEvents, Cobs.Encoded([], EncodePayload(e)), Pieces(0, [], rest));
      assert CarriedAll(events) == [Carried(e)] + CarriedAll(events[1..]);
    }
  }

  /** Any list of events, encoded and fed in any chunks, comes back in order, without error or left-over bytes. */
  lemma StreamRoundTrip(events: seq<Event>, chunks: seq<seq<byte>>)
    requires Flatten(chunks) == EncodeAll(events)
    ensures Fed(0, FrameEvents, [], chunks) == Ok(CarriedAll(events))
    ensures Delivered(0, FrameEvents, [], chunks) == CarriedAll(events)
    ensures Residue(0, [], Flatten(chunks)) == []
  {
    EncodedStream(events);
    ChunkingIsInvisible(0, FrameEvents, [], chunks);
    DeliveredIsPrefix(0, FrameEvents, [], chunks);
  }

  /** Frames that carry no data between delimiters, and payloads of other protocols, never disturb a stream. */
  lemma NoiseIsSkipped(foreign: seq<byte>, rest: seq<byte>)
    requires |foreign| < 4 || foreign[..2] != ['P' as int, 'T' as int] || foreign[2] != 1
    ensures StreamEvents([0] + rest) == StreamEvents(rest)
    ensures StreamEvents(Cobs.Frame(foreign) + rest) == StreamEvents(rest)
  {
    assert ([0] + rest)[1..] == rest;
    FramedPayload(foreign, rest);
    InterpretCons(FrameEvents, Cobs.Encoded([], foreign), Pieces(0, [], rest));
    InterpretCons(FrameEvents, [], Pieces(0, [], rest));
    PrependLaws([], [], StreamEvents(rest));
  }
}
