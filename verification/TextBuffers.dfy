/** The device's text building: bounded buffers, appenders that cut, and number printing without division. */
module TextBuffers {
  import opened Protocol
  import opened DeviceWire
  import opened TextTools

  /** What an append leaves: the text so far and the new piece, cut to what fits in front of the terminator. */
  ghost predicate Appended(dst: seq<Char8>, cap: nat, at: nat, before: Str, piece: Str) {
    at < cap <= |dst| && dst[..at] == Cut(before + piece, cap - 1) && dst[at] == '\0'
  }

  /** Copies characters up to the end of the buffer, leaving room for the terminator. */
  method AppendStr(dst: array<Char8>, cap: nat, start: nat, s: CStr) returns (at: nat)
    requires start < cap <= dst.Length
    modifies dst
    ensures s.None? ==> at == start && dst[..] == old(dst[..])
    ensures s.Some? ==> Appended(dst[..], cap, at, old(dst[..start]), s.value)
    ensures at < cap
  {
    at := start;
    if s.None? {
      return;
    }
    var k := 0;
    while k < |s.value| && at + 1 < cap
      invariant 0 <= k <= |s.value| && at == start + k < cap
      invariant dst[..at] == old(dst[..start]) + s.value[..k]
    {
      dst[at] := s.value[k];
      at := at + 1;
      k := k + 1;
    }
    dst[at] := '\0';
    assert dst[..at] == old(dst[..start]) + s.value[..k];
    assert k == |s.value| ==> s.value[..k] == s.value;
  }

  /** `u >> k`: halved `k` times. */
  function Shr(u: nat, k: nat): nat
    decreases k
  {
    if k == 0 then u else Shr(u / 2, k - 1)
  }

  /** `u << k`: doubled `k` times. */
  function Shl(u: nat, k: nat): nat {
    if k == 0 then u else 2 * Shl(u, k - 1)
  }

  lemma {:induction false} ShrNext(u: nat, k: nat)
    ensures Shr(u, k + 1) == Shr(u, k) / 2
    decreases k
  {
    if k == 0 {
    } else {
      ShrNext(u / 2, k - 1);
    }
  }

  lemma {:induction false} ShrSmall(u: nat, k: nat)
    requires u < Shl(1, k)
    ensures Shr(u, k) == 0
    decreases k
  {
    if k == 0 {
    } else {
      ShrSmall(u / 2, k - 1);
    }
  }

  lemma {:induction false} ShlAdds(h: nat, k: nat)
    ensures Shl(h, k + 1) == Shl(2 * h, k) && Shl(2 * h + 1, k) == Shl(2 * h, k) + Shl(1, k)
  {
    if k == 0 {
    } else {
      ShlAdds(h, k - 1);
    }
  }

  const U64_END := 0x1_0000_0000_0000_0000

  lemma WordSize()
    ensures Shl(1, 64) == U64_END && Pow10(20) > U64_END
  {
    assert Shl(1, 8) == 0x100;
    assert Shl(1, 16) == 0x1_0000;
    assert Shl(1, 24) == 0x100_0000;
    assert Shl(1, 32) == 0x1_0000_0000;
    assert Shl(1, 40) == 0x100_0000_0000;
    assert Shl(1, 48) == 0x1_0000_0000_0000;
    assert Shl(1, 56) == 0x100_0000_0000_0000;
    assert Pow10(7) == 1_000_0000;
    assert Pow10(14) == 1_0000_0000_0000_00;
  }

  /** The shift-and-subtract loop: exact quotient and remainder by ten without a division. The quotient bit is
      set by an or, which adds it because it is still clear. */
  method U64Div10(u: nat) returns (q: nat, digit: nat)
    requires u < U64_END
    ensures q == u / 10 && digit == u % 10
  {
    q, digit := 0, 0;
    ghost var high: nat := 0;
    WordSize();
    ShrSmall(u, 64);
    ShlZero(64);
    for bit := 64 downto 0
      invariant q == Shl(high, bit)
      invariant Shr(u, bit) == 10 * high + digit && digit < 10
    {
      ShrNext(u, bit);
      ShlAdds(high, bit);
      digit := 2 * digit + Shr(u, bit) % 2;
      high := 2 * high;
      if digit >= 10 {
        digit := digit - 10;
        q := q + Shl(1, bit);
        high := high + 1;
      }
    }
  }

  lemma {:induction false} ShlZero(k: nat)
    ensures Shl(0, k) == 0
  {
    if k == 0 {
    } else {
      ShlZero(k - 1);
    }
  }

  method StoreChar(dst: array<Char8>, at: nat, c: Char8, ghost head: Str, ghost digits: Str, ghost k: nat)
    requires at < dst.Length && k < |digits| && digits[k] == c && dst[..at] == head + digits[..k]
    modifies dst
    ensures dst[..at + 1] == head + digits[..k + 1]
  {
    dst[at] := c;
    TakeOneMore(head, digits, k);
  }

  /** Copies a reversed scratch buffer out, last character first. */
  method WriteReversed(dst: array<Char8>, cap: nat, start: nat, tmp: Str) returns (at: nat)
    requires start < cap <= dst.Length
    modifies dst
    ensures Appended(dst[..], cap, at, old(dst[..start]), Reversed(tmp))
  {
    ghost var digits, head := Reversed(tmp), dst[..start];
    at := start;
    var i := |tmp|;
    assert digits[..0] == [];
    while i > 0 && at + 1 < cap
      invariant 0 <= i <= |tmp| && at == start + (|tmp| - i) < cap
      invariant dst[..at] == head + digits[..|tmp| - i]
    {
      i := i - 1;
      ReversedAt(tmp, |tmp| - i - 1);
      StoreChar(dst, at, tmp[i], head, digits, |tmp| - i - 1);
      at := at + 1;
    }
    dst[at] := '\0';
    assert dst[..at] == head + digits[..|tmp| - i];
    CutTaken(head, digits, |tmp| - i, cap - 1);
  }

  /** Taking as much as fits is cutting. */
  lemma CutTaken(head: Str, digits: Str, k: nat, max: nat)
    requires k <= |digits| && |head| + k <= max && (k < |digits| ==> |head| + k == max)
    ensures head + digits[..k] == Cut(head + digits, max)
  {
    if k == |digits| {
      assert digits[..k] == digits;
    }
  }

  /** Writes a number's digits. */
  method AppendU64(dst: array<Char8>, cap: nat, start: nat, value: nat) returns (at: nat)
    requires start < cap <= dst.Length && value < U64_END
    modifies dst
    ensures Appended(dst[..], cap, at, old(dst[..start]), Decimal(value))
  {
    var tmp := ReversedDigits(value);
    at := WriteReversed(dst, cap, start, tmp);
  }

  /** The runner's own printer: digits by division, into 24 places that always suffice. */
  method AppendLong(dst: array<Char8>, cap: nat, start: nat, v: int) returns (at: nat)
    requires start < cap <= dst.Length && -0x8000_0000_0000_0000 <= v < 0x8000_0000_0000_0000
    modifies dst
    ensures Appended(dst[..], cap, at, old(dst[..start]), Signed(v))
  {
    at := start;
    var u: int := v;
    ghost var text := old(dst[..start]);
    if v < 0 {
      if at + 1 < cap {
        dst[at] := '-';
        at := at + 1;
        dst[at] := '\0';
      }
      u := -(v + 1) + 1;
      text := text + "-";
      Associative(old(dst[..start]), "-", Decimal(u));
    }
    assert 0 <= u < U64_END && old(dst[..start]) + Signed(v) == text + Decimal(u);
    assert dst[..at] == Cut(text, cap - 1);
    CutOnce(text, Decimal(u), cap - 1);
    var tmp := DividedDigits(u);
    at := WriteReversed(dst, cap, at, tmp);
  }

  method DividedDigits(value: nat) returns (tmp: Str)
    requires value < U64_END
    ensures Reversed(tmp) == Decimal(value) && |tmp| <= 20
  {
    WordSize();
    DecimalLength(value, 20);
    tmp := [];
    var u := value;
    if u == 0 {
      tmp := tmp + ['0'];
      assert tmp == ['0'] && tmp[1..] == [];
    } else {
      while u > 0 && |tmp| < 24
        invariant 0 <= u < U64_END
        invariant Decimal(value) == Leading(u) + Reversed(tmp)
        decreases u
      {
        ReversedSnoc(tmp, Digit(u % 10));
        assert Leading(u) == Leading(u / 10) + [Digit(u % 10)];
        Associative(Leading(u / 10), [Digit(u % 10)], Reversed(tmp));
        tmp := tmp + [Digit(u % 10)];
        u := u / 10;
      }
      EmptyIsNeutral(Reversed(tmp));
    }
  }

  function Reversed(s: Str): (r: Str)
    ensures |r| == |s|
  {
    if s == [] then [] else Reversed(s[1..]) + [s[0]]
  }

  lemma {:induction false} ReversedAt(s: Str, k: nat)
    requires k < |s|
    ensures Reversed(s)[k] == s[|s| - 1 - k]
  {
    if k == |s| - 1 {
    } else {
      ReversedAt(s[1..], k);
    }
  }

  lemma {:induction false} ReversedSnoc(s: Str, c: Char8)
    ensures Reversed(s + [c]) == [c] + Reversed(s)
  {
    if s == [] {
    } else {
      ReversedSnoc(s[1..], c);
      assert (s + [c])[1..] == s[1..] + [c];
    }
  }

  /** The digits still to come: none for zero. */
  function Leading(u: nat): Str {
    if u == 0 then [] else Decimal(u)
  }

  /** The digit loop: least significant digit first, at most 20 of the 32 places used. */
  method ReversedDigits(value: nat) returns (tmp: Str)
    requires value < U64_END
    ensures Reversed(tmp) == Decimal(value) && |tmp| <= 20
  {
    WordSize();
    DecimalLength(value, 20);
    tmp := [];
    var u := value;
    if u == 0 {
      tmp := tmp + ['0'];
      assert tmp == ['0'] && tmp[1..] == [];
    } else {
      while u > 0 && |tmp| < 32
        invariant 0 <= u < U64_END
        invariant Decimal(value) == Leading(u) + Reversed(tmp)
        decreases u
      {
        var q, digit := U64Div10(u);
        ReversedSnoc(tmp, Digit(digit));
        assert Leading(u) == Leading(q) + [Digit(digit)];
        Associative(Leading(q), [Digit(digit)], Reversed(tmp));
        u := q;
        tmp := tmp + [Digit(digit)];
      }
      EmptyIsNeutral(Reversed(tmp));
    }
  }

  /** Signed printing; the magnitude is computed without overflow even for the least value. */
  method AppendI64(dst: array<Char8>, cap: nat, start: nat, v: int) returns (at: nat)
    requires start < cap <= dst.Length && -0x8000_0000_0000_0000 <= v < 0x8000_0000_0000_0000
    modifies dst
    ensures Appended(dst[..], cap, at, old(dst[..start]), Signed(v))
  {
    at := start;
    ghost var text := old(dst[..start]);
    if v < 0 {
      if at + 1 < cap {
        dst[at] := '-';
        at := at + 1;
        dst[at] := '\0';
      }
      Associative(text, "-", Decimal(-v));
      CutOnce(text + "-", Decimal(-v), cap - 1);
      assert dst[..at] == Cut(text + "-", cap - 1);
      at := AppendU64(dst, cap, at, -(v + 1) + 1);
    } else {
      at := AppendU64(dst, cap, at, v);
    }
  }

  function Clamp16(nibbles: int): nat {
    if nibbles < 1 then 1 else if nibbles > 16 then 16 else nibbles
  }

  /** `u >> 4 * i`: the number without its last `i` nibbles. */
  function ShrNibbles(u: nat, i: nat): nat
    decreases i
  {
    if i == 0 then u else ShrNibbles(u / 16, i - 1)
  }

  lemma {:induction false} HexAt(u: nat, nibbles: nat, i: nat)
    requires i < nibbles
    ensures |Hex(u, nibbles)| == nibbles
    ensures Hex(u, nibbles)[nibbles - 1 - i] == HexDigit(ShrNibbles(u, i) % 16)
    decreases nibbles
  {
    if i > 0 {
      HexAt(u / 16, nibbles - 1, i - 1);
    } else if nibbles > 1 {
      HexAt(u / 16, nibbles - 1, 0);
    }
  }

  lemma TakeOneMore(head: Str, s: Str, k: nat)
    requires k < |s|
    ensures head + s[..k + 1] == head + s[..k] + [s[k]]
  {
  }

  /** One more character, when it still fits in front of the terminator. */
  method AppendChar(dst: array<Char8>, cap: nat, start: nat, c: Char8, ghost text: Str) returns (at: nat)
    requires start < cap <= dst.Length && dst[..start] == Cut(text, cap - 1)
    modifies dst
    ensures at < cap && dst[..at] == Cut(text + [c], cap - 1)
  {
    CutSnoc(text, c, cap - 1);
    at := start;
    if at + 1 < cap {
      dst[at] := c;
      at := at + 1;
    }
  }

  /** Hexadecimal printing: one to sixteen nibbles, most significant first. */
  method AppendHex(dst: array<Char8>, cap: nat, start: nat, u: nat, nibbles: int) returns (at: nat)
    requires start < cap <= dst.Length && u < U64_END
    modifies dst
    ensures Appended(dst[..], cap, at, old(dst[..start]), "0x" + Hex(u, Clamp16(nibbles)))
  {
    ghost var head: Str := old(dst[..start]) + "0x";
    ghost var text: Str := head;
    at := AppendStr(dst, cap, start, Some("0x"));
    var n := Clamp16(nibbles);
    ghost var digits: Str := Hex(u, n);
    HexAt(u, n, 0);
    assert digits[..0] == [];
    EmptyIsNeutral(head);
    for i := n downto 0
      invariant at < cap && dst[..at] == Cut(text, cap - 1)
      invariant text == head + digits[..n - i]
    {
      HexAt(u, n, i);
      at := AppendChar(dst, cap, at, HexDigit(ShrNibbles(u, i) % 16), text);
      text := text + [digits[n - i - 1]];
      TakeOneMore(head, digits, n - i - 1);
    }
    dst[at] := '\0';
    assert digits[..n] == digits;
    Associative(old(dst[..start]), "0x", digits);
  }

  /** One call of an appender. */
  datatype Piece = Text(s: CStr) | Integer(v: int) | Natural(u: nat) | Hexadecimal(u: nat, nibbles: int)

  function PieceText(p: Piece): Str {
    match p
    case Text(s) => Chars(s)
    case Integer(v) => Signed(v)
    case Natural(u) => Decimal(u)
    case Hexadecimal(u, nibbles) => "0x" + Hex(u, Clamp16(nibbles))
  }

  /** Values of 64 bits. */
  predicate Printable(p: Piece) {
    match p
    case Text(_) => true
    case Integer(v) => -0x8000_0000_0000_0000 <= v < 0x8000_0000_0000_0000
    case Natural(u) => u < U64_END
    case Hexadecimal(u, _) => u < U64_END
  }

  function Joined(pieces: seq<Piece>): Str {
    if pieces == [] then "" else Joined(pieces[..|pieces| - 1]) + PieceText(pieces[|pieces| - 1])
  }

  method AppendPiece(dst: array<Char8>, cap: nat, start: nat, p: Piece, ghost text: Str) returns (at: nat)
    requires start < cap <= dst.Length && Printable(p) && dst[..start] == Cut(text, cap - 1)
    modifies dst
    ensures at < cap && dst[..at] == Cut(text + PieceText(p), cap - 1)
    ensures p != Text(None) ==> dst[at] == '\0'
    ensures p == Text(None) ==> at == start && dst[..] == old(dst[..])
  {
    CutOnce(text, PieceText(p), cap - 1);
    match p {
      case Text(s) =>
        EmptyIsNeutral(text);
        at := AppendStr(dst, cap, start, s);
      case Integer(v) => at := AppendI64(dst, cap, start, v);
      case Natural(u) => at := AppendU64(dst, cap, start, u);
      case Hexadecimal(u, nibbles) => at := AppendHex(dst, cap, start, u, nibbles);
    }
  }

  /** Some call writes: one with a NULL string does not even terminate the text. */
  ghost predicate Writes(pieces: seq<Piece>) {
    exists i :: 0 <= i < |pieces| && pieces[i] != Text(None)
  }

  lemma WritesNext(pieces: seq<Piece>, k: nat)
    requires k < |pieces|
    ensures Writes(pieces[..k + 1]) <==> Writes(pieces[..k]) || pieces[k] != Text(None)
  {
    var before, after := pieces[..k], pieces[..k + 1];
    assert forall i :: 0 <= i < k ==> before[i] == after[i];
    assert after[k] == pieces[k];
  }

  /** Any chain of appends from position 0: the buffer holds the whole text cut to capacity minus one, the cursor
      stays below the capacity, and the text is terminated as soon as something was appended. */
  method AppendAll(dst: array<Char8>, cap: nat, pieces: seq<Piece>) returns (at: nat)
    requires 0 < cap <= dst.Length && forall p :: p in pieces ==> Printable(p)
    modifies dst
    ensures at < cap && dst[..at] == Cut(Joined(pieces), cap - 1)
    ensures Writes(pieces) ==> dst[at] == '\0'
  {
    at := 0;
    for k := 0 to |pieces|
      invariant at < cap && dst[..at] == Cut(Joined(pieces[..k]), cap - 1)
      invariant Writes(pieces[..k]) ==> dst[at] == '\0'
    {
      assert pieces[k] in pieces;
      assert pieces[..k + 1] == pieces[..k] + [pieces[k]] && pieces[..k + 1][..k] == pieces[..k];
      ghost var before := dst[..];
      at := AppendPiece(dst, cap, at, pieces[k], Joined(pieces[..k]));
      WritesNext(pieces, k);
      assert pieces[k] == Text(None) ==> dst[at] == before[at];
    }
    assert pieces[..|pieces|] == pieces;
  }

  /** Between one and sixteen nibbles, as many as asked for when that is possible. */
  lemma NibblesMeaning(nibbles: int, u: nat)
    ensures var digits := Hex(u, Clamp16(nibbles));
            && 1 <= |digits| <= 16
            && (1 <= nibbles <= 16 ==> |digits| == nibbles)
            && (nibbles > 16 ==> |digits| == 16) && (nibbles < 1 ==> |digits| == 1)
  {
    var rest := HexMeaning(u, Clamp16(nibbles));
  }
}
