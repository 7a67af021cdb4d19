/** Delimited streams: cutting a byte or character buffer into complete pieces plus a residue. */
module Framing {
  import opened Protocol

  /** The pieces that a delimiter closes, when `open` has been read before `data`. */
  function Pieces<T(==)>(d: T, open: seq<T>, data: seq<T>): seq<seq<T>>
    decreases |data|
  {
    if data == [] then []
    else if data[0] == d then [open] + Pieces(d, [], data[1..])
    else Pieces(d, open + [data[0]], data[1..])
  }

  /** What follows the last delimiter. */
  function Residue<T(==)>(d: T, open: seq<T>, data: seq<T>): seq<T>
    decreases |data|
  {
    if data == [] then open
    else if data[0] == d then Residue(d, [], data[1..])
    else Residue(d, open + [data[0]], data[1..])
  }

  lemma {:induction false} PiecesAppend<T>(d: T, open: seq<T>, a: seq<T>, b: seq<T>)
    ensures Pieces(d, open, a + b) == Pieces(d, open, a) + Pieces(d, Residue(d, open, a), b)
    ensures Residue(d, open, a + b) == Residue(d, Residue(d, open, a), b)
    decreases |a|
  {
    if a == [] {
      assert a + b == b;
    } else {
      assert (a + b)[1..] == a[1..] + b;
      PiecesAppend(d, if a[0] == d then [] else open + [a[0]], a[1..], b);
    }
  }

  lemma {:induction false} PiecesOfOpen<T>(d: T, open: seq<T>, a: seq<T>)
    requires d !in a
    ensures Pieces(d, open, a) == [] && Residue(d, open, a) == open + a
    decreases |a|
  {
    if a != [] {
      PiecesOfOpen(d, open + [a[0]], a[1..]);
      assert open + [a[0]] + a[1..] == open + a;
    } else {
      assert open + a == open;
    }
  }

  /** A delimiter-free stretch and its delimiter make one piece. */
  lemma PiecesOfClosed<T>(d: T, piece: seq<T>, rest: seq<T>)
    requires d !in piece
    ensures Pieces(d, [], piece + [d] + rest) == [piece] + Pieces(d, [], rest)
    ensures Residue(d, [], piece + [d] + rest) == Residue(d, [], rest)
  {
    PiecesOfOpen(d, [], piece);
    assert [] + piece == piece && piece + [d] + rest == piece + ([d] + rest);
    PiecesAppend(d, [], piece, [d] + rest);
    assert ([d] + rest)[1..] == rest;
  }

  /** Buffering what is still open and searching the whole buffer again finds the same pieces. */
  lemma PiecesOfBuffered<T>(d: T, open: seq<T>, data: seq<T>)
    requires d !in open
    ensures Pieces(d, [], open + data) == Pieces(d, open, data)
    ensures Residue(d, [], open + data) == Residue(d, open, data)
  {
    PiecesOfOpen(d, [], open);
    assert [] + open == open;
    PiecesAppend(d, [], open, data);
  }

  lemma {:induction false} ResidueIsOpen<T>(d: T, open: seq<T>, data: seq<T>)
    requires d !in open
    ensures d !in Residue(d, open, data)
    decreases |data|
  {
    if data == [] {
    } else {
      ResidueIsOpen(d, if data[0] == d then [] else open + [data[0]], data[1..]);
    }
  }

  function FirstIndex<T(==)>(d: T, buf: seq<T>): (pos: nat)
    requires d in buf
    ensures pos < |buf| && buf[pos] == d && d !in buf[..pos]
  {
    if buf[0] == d then 0
    else
      var rest := FirstIndex(d, buf[1..]);
      assert buf[..rest + 1] == [buf[0]] + buf[1..][..rest];
      rest + 1
  }

  /** What a search for the first delimiter cuts off a buffer. */
  lemma FirstPiece<T>(d: T, buf: seq<T>)
    requires d in buf
    ensures var pos := FirstIndex(d, buf);
            && Pieces(d, [], buf) == [buf[..pos]] + Pieces(d, [], buf[pos + 1..])
            && Residue(d, [], buf) == Residue(d, [], buf[pos + 1..])
  {
    var pos := FirstIndex(d, buf);
    assert buf == buf[..pos] + [d] + buf[pos + 1..];
    PiecesOfClosed(d, buf[..pos], buf[pos + 1..]);
  }

  /** Reads the pieces in order; the first one that cannot be read decides the result. */
  function Interpret<T, V, E>(f: seq<T> -> Result<seq<V>, E>, pieces: seq<seq<T>>): Result<seq<V>, E> {
    if pieces == [] then Ok([])
    else var r := f(pieces[0]);
      if r.Err? then Err(r.error) else Prepend(r.value, Interpret(f, pieces[1..]))
  }

  lemma {:induction false} InterpretConcat<T, V, E>(f: seq<T> -> Result<seq<V>, E>, a: seq<seq<T>>, b: seq<seq<T>>)
    ensures Interpret(f, a + b) ==
            if Interpret(f, a).Err? then Interpret(f, a) else Prepend(Interpret(f, a).value, Interpret(f, b))
  {
    if a == [] {
      assert a + b == b;
      PrependLaws([], [], Interpret(f, b));
    } else {
      InterpretConcat(f, a[1..], b);
      assert (a + b)[1..] == a[1..] + b;
      var r := f(a[0]);
      if r.Ok? && Interpret(f, a[1..]).Ok? {
        PrependLaws(r.value, Interpret(f, a[1..]).value, Interpret(f, b));
      }
    }
  }

  lemma InterpretCons<T, V, E>(f: seq<T> -> Result<seq<V>, E>, x: seq<T>, b: seq<seq<T>>)
    ensures Interpret(f, [x] + b) == if f(x).Err? then Err(f(x).error) else Prepend(f(x).value, Interpret(f, b))
  {
  }

  lemma InterpretSnoc<T, V, E>(f: seq<T> -> Result<seq<V>, E>, a: seq<seq<T>>, x: seq<T>)
    requires Interpret(f, a).Ok? && f(x).Ok?
    ensures Interpret(f, a + [x]) == Ok(Interpret(f, a).value + f(x).value)
  {
    InterpretConcat(f, a, [x]);
    assert [x][1..] == [];
    assert f(x).value + [] == f(x).value;
  }

  lemma InterpretStops<T, V, E>(f: seq<T> -> Result<seq<V>, E>, a: seq<seq<T>>, x: seq<T>, b: seq<seq<T>>)
    requires Interpret(f, a).Ok? && f(x).Err?
    ensures Interpret(f, a + [x] + b) == Err(f(x).error)
  {
    InterpretConcat(f, a, [x] + b);
    assert a + [x] + b == a + ([x] + b) && ([x] + b)[0] == x;
  }

  /** When every piece yields exactly one value, they come out one for one. */
  lemma {:induction false} InterpretEach<T, V, E>(f: seq<T> -> Result<seq<V>, E>, pieces: seq<seq<T>>)
    requires forall i :: 0 <= i < |pieces| ==> f(pieces[i]).Ok? && |f(pieces[i]).value| == 1
    ensures var r := Interpret(f, pieces);
            r.Ok? && |r.value| == |pieces| && forall i :: 0 <= i < |pieces| ==> r.value[i] == f(pieces[i]).value[0]
    decreases |pieces|
  {
    if pieces == [] {
    } else {
      InterpretEach(f, pieces[1..]);
      assert pieces == [pieces[0]] + pieces[1..];
    }
  }

  /** One decoder fed chunk after chunk until it fails; `open` is what it has buffered. */
  function Fed<T(==), V, E>(d: T, f: seq<T> -> Result<seq<V>, E>, open: seq<T>, chunks: seq<seq<T>>):
    Result<seq<V>, E>
    decreases |chunks|
  {
    if chunks == [] then Ok([])
    else
      var r := Interpret(f, Pieces(d, open, chunks[0]));
      if r.Err? then r else Prepend(r.value, Fed(d, f, Residue(d, open, chunks[0]), chunks[1..]))
  }

  /** What the caller has been handed by then: nothing of the chunk that failed. */
  function Delivered<T(==), V, E>(d: T, f: seq<T> -> Result<seq<V>, E>, open: seq<T>, chunks: seq<seq<T>>): seq<V>
    decreases |chunks|
  {
    if chunks == [] then []
    else
      var r := Interpret(f, Pieces(d, open, chunks[0]));
      if r.Err? then [] else r.value + Delivered(d, f, Residue(d, open, chunks[0]), chunks[1..])
  }

  /** Where the stream is cut never changes what is decoded, nor whether and how decoding fails. */
  lemma {:induction false} ChunkingIsInvisible<T, V, E>(
    d: T, f: seq<T> -> Result<seq<V>, E>, open: seq<T>, chunks: seq<seq<T>>)
    ensures Fed(d, f, open, chunks) == Interpret(f, Pieces(d, open, Flatten(chunks)))
    decreases |chunks|
  {
    if chunks == [] {
    } else {
      var later := Flatten(chunks[1..]);
      PiecesAppend(d, open, chunks[0], later);
      ChunkingIsInvisible(d, f, Residue(d, open, chunks[0]), chunks[1..]);
      InterpretConcat(f, Pieces(d, open, chunks[0]), Pieces(d, Residue(d, open, chunks[0]), later));
    }
  }

  /** Without an error everything decoded is delivered; with one, whole pieces from before the error. */
  lemma {:induction false} DeliveredIsPrefix<T, V, E>(
    d: T, f: seq<T> -> Result<seq<V>, E>, open: seq<T>, chunks: seq<seq<T>>)
    ensures Fed(d, f, open, chunks).Ok? ==> Delivered(d, f, open, chunks) == Fed(d, f, open, chunks).value
    ensures Fed(d, f, open, chunks).Err? ==>
              exists k :: 0 <= k <= |Pieces(d, open, Flatten(chunks))|
                && Interpret(f, Pieces(d, open, Flatten(chunks))[..k]) == Ok(Delivered(d, f, open, chunks))
    decreases |chunks|
  {
    if chunks == [] {
    } else {
      var first, open', later := Pieces(d, open, chunks[0]), Residue(d, open, chunks[0]), Flatten(chunks[1..]);
      var all := Pieces(d, open, Flatten(chunks));
      PiecesAppend(d, open, chunks[0], later);
      DeliveredIsPrefix(d, f, open', chunks[1..]);
      if Interpret(f, first).Err? {
        assert all[..0] == [];
      } else if Fed(d, f, open, chunks).Err? {
        var k :| 0 <= k <= |Pieces(d, open', later)|
          && Interpret(f, Pieces(d, open', later)[..k]) == Ok(Delivered(d, f, open', chunks[1..]));
        assert all[..|first| + k] == first + Pieces(d, open', later)[..k];
        InterpretConcat(f, first, Pieces(d, open', later)[..k]);
      }
    }
  }
}
