/** Consistent Overhead Byte Stuffing as the host implements it (basic form, 254-byte blocks). */
module Cobs {
  import opened Protocol

  /** The code bytes and data of a frame, without the delimiter: `run` is the open block's data so far. */
  function Encoded(run: seq<byte>, rest: seq<byte>): seq<byte>
    requires |run| < 254
    decreases |rest|
  {
    if rest == [] then [|run| + 1] + run
    else if rest[0] == 0 then [|run| + 1] + run + Encoded([], rest[1..])
    else if |run| == 253 then [255] + (run + [rest[0]]) + Encoded([], rest[1..])
    else Encoded(run + [rest[0]], rest[1..])
  }

  function Frame(payload: seq<byte>): seq<byte> {
    Encoded([], payload) + [0]
  }

  function Decoded(s: seq<byte>): Result<seq<byte>, CodecError>
    decreases |s|
  {
    if s == [] then Ok([])
    else if s[0] == 0 then Err(ZeroCode)
    else if s[0] > |s| then Err(Overrun)
    else Prepend(s[1..s[0]] + (if s[0] != 255 && s[0] < |s| then [0] else []), Decoded(s[s[0]..]))
  }

  /** Number of blocks closed because they reached 254 data bytes. */
  function FullBlocks(run: nat, rest: seq<byte>): nat
    requires run < 254
    decreases |rest|
  {
    if rest == [] then 0
    else if rest[0] == 0 then FullBlocks(0, rest[1..])
    else if run == 253 then 1 + FullBlocks(0, rest[1..])
    else FullBlocks(run + 1, rest[1..])
  }

  lemma {:induction false} EncodedLength(run: seq<byte>, rest: seq<byte>)
    requires |run| < 254
    ensures |Encoded(run, rest)| == |run| + |rest| + 1 + FullBlocks(|run|, rest)
    ensures 254 * FullBlocks(|run|, rest) <= |run| + |rest|
    decreases |rest|
  {
    if rest == [] {
    } else {
      if rest[0] == 0 || |run| == 253 {
        EncodedLength([], rest[1..]);
      } else {
        EncodedLength(run + [rest[0]], rest[1..]);
      }
    }
  }

  lemma {:induction false} EncodedHasNoZero(run: seq<byte>, rest: seq<byte>)
    requires |run| < 254 && 0 !in run
    ensures 0 !in Encoded(run, rest)
    decreases |rest|
  {
    if rest == [] {
    } else {
      if rest[0] == 0 || |run| == 253 {
        EncodedHasNoZero([], rest[1..]);
      } else {
        EncodedHasNoZero(run + [rest[0]], rest[1..]);
      }
    }
  }

  /** A block that ends the stream is its data. */
  lemma LastBlock(data: seq<byte>)
    requires |data| < 255
    ensures Decoded([|data| + 1] + data) == Ok(data)
  {
    var s := [|data| + 1] + data;
    var none: seq<byte> := [];
    assert s[0] == |s| && s[1..|s|] == data && s[|s|..] == none;
    EmptyIsNeutral(data);
    assert Decoded(none) == Ok(none);
  }

  /** A block in front of a stream: its data, and a zero unless the block is maximal. */
  lemma FirstBlock(data: seq<byte>, tail: seq<byte>, decoded: seq<byte>)
    requires |data| < 255 && tail != [] && Decoded(tail) == Ok(decoded)
    ensures Decoded([|data| + 1] + data + tail) == Ok(data + ((if |data| == 254 then [] else [0]) + decoded))
  {
    var s := [|data| + 1] + data + tail;
    assert s[1..s[0]] == data && s[s[0]..] == tail;
    Associative(data, if |data| == 254 then [] else [0], decoded);
  }

  lemma {:induction false} DecodedInvertsEncoded(run: seq<byte>, rest: seq<byte>)
    requires |run| < 254
    ensures Decoded(Encoded(run, rest)) == Ok(run + rest)
    decreases |rest|
  {
    if rest == [] {
      LastBlock(run);
      EmptyIsNeutral(run);
    } else {
      var b, later := rest[0], rest[1..];
      assert rest == [b] + later;
      if b == 0 || |run| == 253 {
        DecodedInvertsEncoded([], later);
        EncodedLength([], later);
        EmptyIsNeutral(later);
        FirstBlock(if b == 0 then run else run + [b], Encoded([], later), later);
      } else {
        DecodedInvertsEncoded(run + [b], later);
      }
      Associative(run, [b], later);
    }
  }

  /** A frame's only zero is its delimiter, its body decodes to the payload, and its length is exact. */
  lemma FrameRoundTrip(payload: seq<byte>)
    ensures var f := Frame(payload);
            && f[|f| - 1] == 0 && 0 !in f[..|f| - 1] && 2 <= |f|
            && Decoded(f[..|f| - 1]) == Ok(payload)
            && |f| == |payload| + 2 + FullBlocks(0, payload)
            && |f| <= |payload| + |payload| / 254 + 2
  {
    EncodedHasNoZero([], payload);
    DecodedInvertsEncoded([], payload);
    EncodedLength([], payload);
    assert Frame(payload)[..|Frame(payload)| - 1] == Encoded([], payload);
    assert [] + payload == payload;
  }

  /** Blocks that begin with their own length. */
  ghost predicate Tiling(blocks: seq<seq<byte>>) {
    forall i :: 0 <= i < |blocks| ==> blocks[i] != [] && blocks[i][0] == |blocks[i]|
  }

  /** The data of the blocks, with a zero after every block that is neither maximal nor last. */
  function BlockData(blocks: seq<seq<byte>>): seq<byte>
    requires Tiling(blocks)
  {
    if blocks == [] then []
    else blocks[0][1..] + (if |blocks[0]| != 255 && |blocks| > 1 then [0] else []) + BlockData(blocks[1..])
  }

  lemma {:induction false} TilingDecodes(blocks: seq<seq<byte>>)
    requires Tiling(blocks)
    ensures Decoded(Flatten(blocks)) == Ok(BlockData(blocks))
  {
    if blocks == [] {
    } else {
      TilingDecodes(blocks[1..]);
      var s := Flatten(blocks);
      assert s[s[0]..] == Flatten(blocks[1..]);
      assert s[1..s[0]] == blocks[0][1..];
      assert |blocks| > 1 ==> blocks[1..][0] != [];
    }
  }

  lemma {:induction false} DecodedHasTiling(s: seq<byte>) returns (blocks: seq<seq<byte>>)
    requires Decoded(s).Ok?
    ensures Tiling(blocks) && Flatten(blocks) == s
    decreases |s|
  {
    if s == [] {
      blocks := [];
    } else {
      var rest := DecodedHasTiling(s[s[0]..]);
      blocks := [s[..s[0]]] + rest;
      assert blocks[1..] == rest;
    }
  }

  /** Arbitrary bytes are accepted exactly when blocks that carry their own length tile them. */
  lemma AcceptedIffTiled(s: seq<byte>)
    ensures Decoded(s).Ok? <==> exists blocks: seq<seq<byte>> :: Tiling(blocks) && Flatten(blocks) == s
    ensures forall blocks: seq<seq<byte>> :: Tiling(blocks) && Flatten(blocks) == s ==> Decoded(s) == Ok(BlockData(blocks))
  {
    forall blocks: seq<seq<byte>> | Tiling(blocks) && Flatten(blocks) == s
      ensures Decoded(s) == Ok(BlockData(blocks))
    {
      TilingDecodes(blocks);
    }
    if Decoded(s).Ok? {
      var blocks := DecodedHasTiling(s);
    }
  }

  lemma {:induction false} DecodedIsShorter(s: seq<byte>)
    requires Decoded(s).Ok? && s != []
    ensures |Decoded(s).value| < |s|
    decreases |s|
  {
    if s[0] >= |s| {
    } else {
      DecodedIsShorter(s[s[0]..]);
    }
  }

  /** An encoder at work: the bytes written so far and where the open block's placeholder is. */
  datatype Encoder = Encoder(view: seq<byte>, codeIndex: nat)

  ghost predicate Sound(e: Encoder) {
    e.codeIndex < |e.view| <= e.codeIndex + 254
  }

  /** Patches the code of the open block and opens the next one behind it. */
  function NextBlock(e: Encoder): Encoder
    requires e.codeIndex < |e.view| <= e.codeIndex + 255
  {
    Encoder(e.view[e.codeIndex := |e.view| - e.codeIndex] + [0], |e.view|)
  }

  function Take(e: Encoder, b: byte): (next: Encoder)
    requires Sound(e)
    ensures Sound(next) && |next.view| > |e.view|
  {
    if b == 0 then NextBlock(e)
    else
      var grown := Encoder(e.view + [b], e.codeIndex);
      if |grown.view| == grown.codeIndex + 255 then NextBlock(grown) else grown
  }

  function TakeAll(e: Encoder, rest: seq<byte>): (last: Encoder)
    requires Sound(e)
    ensures Sound(last) && |last.view| >= |e.view| + |rest|
    decreases |rest|
  {
    if rest == [] then e else TakeAll(Take(e, rest[0]), rest[1..])
  }

  function Close(e: Encoder): seq<byte>
    requires Sound(e)
  {
    e.view[e.codeIndex := |e.view| - e.codeIndex] + [0]
  }

  lemma NextBlockSplits(e: Encoder)
    requires e.codeIndex < |e.view| <= e.codeIndex + 255
    ensures var next, run := NextBlock(e), e.view[e.codeIndex + 1..];
            next.view[..next.codeIndex] == e.view[..e.codeIndex] + ([|run| + 1] + run)
            && next.view[next.codeIndex + 1..] == []
  {
  }

  /** Writing byte by byte with back-patched codes yields the frame. */
  lemma {:induction false} EncoderBuilds(e: Encoder, rest: seq<byte>)
    requires Sound(e)
    ensures Close(TakeAll(e, rest)) ==
            e.view[..e.codeIndex] + Encoded(e.view[e.codeIndex + 1..], rest) + [0]
    decreases |rest|
  {
    var head, run := e.view[..e.codeIndex], e.view[e.codeIndex + 1..];
    if rest == [] {
      assert e.view[e.codeIndex := |run| + 1] == head + ([|run| + 1] + run);
    } else {
      EncoderBuilds(Take(e, rest[0]), rest[1..]);
      if rest[0] == 0 {
        NextBlockSplits(e);
        Associative(head, [|run| + 1] + run, Encoded([], rest[1..]));
      } else {
        var grown := Encoder(e.view + [rest[0]], e.codeIndex);
        assert grown.view[..e.codeIndex] == head && grown.view[e.codeIndex + 1..] == run + [rest[0]];
        if |run| == 253 {
          NextBlockSplits(grown);
          Associative(head, [255] + (run + [rest[0]]), Encoded([], rest[1..]));
        }
      }
    }
  }

  lemma EncoderBuildsFrame(data: seq<byte>)
    ensures Close(TakeAll(Encoder([0], 0), data)) == Frame(data)
  {
    EncoderBuilds(Encoder([0], 0), data);
    assert [0][1..] == [] && [0][..0] + Encoded([], data) == Encoded([], data);
  }

  /** The host encoder: one pass that leaves a placeholder and patches it when the block closes. */
  method CobsEncode(input: seq<byte>) returns (out: seq<byte>)
    ensures out == Frame(input)
  {
    out := [0];
    var codeIndex: nat := 0;
    var code := 1;
    assert input[0..] == input;
    for k := 0 to |input|
      invariant Sound(Encoder(out, codeIndex)) && code == |out| - codeIndex
      invariant TakeAll(Encoder(out, codeIndex), input[k..]) == TakeAll(Encoder([0], 0), input)
    {
      if input[k] == 0 {
        out := out[codeIndex := code];
        codeIndex := |out|;
        out := out + [0];
        code := 1;
      } else {
        out := out + [input[k]];
        code := code + 1;
        if code == 0xFF {
          out := out[codeIndex := code];
          codeIndex := |out|;
          out := out + [0];
          code := 1;
        }
      }
    }
    EncoderBuildsFrame(input);
    out := out[codeIndex := code];
    out := out + [0];
  }

  /** The host decoder: consumes one block per iteration. */
  method CobsDecode(input: seq<byte>) returns (r: Result<seq<byte>, CodecError>)
    ensures r == Decoded(input)
  {
    var out: seq<byte> := [];
    var i := 0;
    assert input[0..] == input;
    PrependLaws([], [], Decoded(input));
    while i < |input|
      invariant 0 <= i <= |input|
      invariant Decoded(input) == Prepend(out, Decoded(input[i..]))
      decreases |input| - i
    {
      ghost var here := input[i..];
      var code := input[i];
      if code == 0 {
        return Err(ZeroCode);
      }
      i := i + 1;
      var end := i + code - 1;
      if end > |input| {
        return Err(Overrun);
      }
      assert here[1..here[0]] == input[i..end];
      assert here[here[0]..] == input[end..];
      ghost var gap: seq<byte> := if code != 0xFF && end < |input| then [0] else [];
      assert Decoded(here) == Prepend(input[i..end] + gap, Decoded(input[end..]));
      PrependLaws(out, input[i..end] + gap, Decoded(input[end..]));
      ghost var extended := out + (input[i..end] + gap);
      out := out + input[i..end];
      i := end;
      if code != 0xFF && i < |input| {
        out := out + [0];
      }
      assert out == extended;
    }
    assert out + [] == out;
    r := Ok(out);
  }
}
