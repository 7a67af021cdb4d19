/** The text primitives both sides use: cutting, trimming, splitting and decimal numbers. */
module TextTools {
  import opened Protocol
  import opened Framing

  function Cut(s: Str, max: nat): Str {
    if |s| <= max then s else s[..max]
  }

  /** Appending to what was already cut is the same as cutting once at the end. */
  lemma CutOnce(a: Str, b: Str, max: nat)
    ensures Cut(Cut(a, max) + b, max) == Cut(a + b, max)
  {
  }

  lemma CutSnoc(s: Str, c: Char8, max: nat)
    ensures Cut(s + [c], max) == if |s| < max then Cut(s, max) + [c] else Cut(s, max)
    ensures |Cut(s, max)| == if |s| < max then |s| else max
  {
  }

  /** A text cut at the first `d`. */
  function SplitOnce(d: Char8, text: Str): Option<(Str, Str)> {
    if d !in text then None else Some((text[..FirstIndex(d, text)], text[FirstIndex(d, text) + 1..]))
  }

  /** The first cut finds `head` exactly when `head` has no delimiter of its own. */
  lemma SplitFinds(d: Char8, head: Str, tail: Str)
    ensures SplitOnce(d, head + [d] + tail).Some?
    ensures d !in head ==> SplitOnce(d, head + [d] + tail) == Some((head, tail))
    ensures d in head ==> SplitOnce(d, head + [d] + tail).value.0 != head
  {
    var s := head + [d] + tail;
    assert s[|head|] == d;
    var k := FirstIndex(d, s);
    assert forall i :: 0 <= i < |head| ==> s[i] == head[i];
    assert forall i :: 0 <= i < k ==> s[..k][i] == s[i];
    if d !in head {
      assert k == |head| && s[..k] == head && s[k + 1..] == tail;
    }
  }

  lemma SplitLeaves(d: Char8, head: Str, tail: Str)
    requires d in tail
    ensures SplitOnce(d, head + [d] + tail).Some? && d in SplitOnce(d, head + [d] + tail).value.1
  {
    var s := head + [d] + tail;
    assert s[|head|] == d;
    var j := FirstIndex(d, tail);
    assert s[|head| + 1 + j] == d;
    assert forall i :: 0 <= i < FirstIndex(d, s) ==> s[..FirstIndex(d, s)][i] == s[i];
    assert s[FirstIndex(d, s) + 1..][|head| + j - FirstIndex(d, s)] == d;
  }

  predicate IsSpace(c: Char8) {
    c == ' ' || '\t' <= c <= '\r'
  }

  function TrimStart(s: Str): Str {
    if s != [] && IsSpace(s[0]) then TrimStart(s[1..]) else s
  }

  function TrimEnd(s: Str): Str {
    if s != [] && IsSpace(s[|s| - 1]) then TrimEnd(s[..|s| - 1]) else s
  }

  /** Printable, without white space, and not empty. */
  predicate IsWord(s: Str) {
    s != [] && forall i :: 0 <= i < |s| ==> 32 < s[i] as int < 127
  }

  lemma WordConcat(a: Str, b: Str)
    requires IsWord(a) && IsWord(b)
    ensures IsWord(a + b)
  {
  }

  /** The length of the leading run of non-space characters. */
  function WordEnd(s: Str): (k: nat)
    ensures k <= |s|
  {
    if s == [] || IsSpace(s[0]) then 0 else 1 + WordEnd(s[1..])
  }

  lemma TrimStartShrinks(s: Str)
    ensures |TrimStart(s)| <= |s|
    ensures TrimStart(s) != [] ==> WordEnd(TrimStart(s)) > 0
  {
  }

  /** The maximal runs of non-space characters. */
  function Words(s: Str): seq<Str>
    decreases |s|
  {
    var t := TrimStart(s);
    TrimStartShrinks(s);
    if t == [] then [] else [t[..WordEnd(t)]] + Words(t[WordEnd(t)..])
  }

  lemma {:induction false} WordEndOf(w: Str, rest: Str)
    requires (forall i :: 0 <= i < |w| ==> !IsSpace(w[i])) && (rest == [] || IsSpace(rest[0]))
    ensures WordEnd(w + rest) == |w|
  {
    if w == [] {
      EmptyIsNeutral(rest);
    } else {
      assert (w + rest)[1..] == w[1..] + rest;
      WordEndOf(w[1..], rest);
    }
  }

  lemma WordInFront(w: Str, rest: Str)
    requires IsWord(w)
    ensures Words(w + " " + rest) == [w] + Words(rest)
    ensures Words(w) == [w]
  {
    var s := w + " " + rest;
    assert s == w + ([' '] + rest);
    WordEndOf(w, [' '] + rest);
    assert TrimStart(s) == s && s[..|w|] == w && s[|w|..] == [' '] + rest;
    assert ([' '] + rest)[1..] == rest;
    assert TrimStart([' '] + rest) == TrimStart(rest);
    EmptyIsNeutral(w);
    WordEndOf(w, []);
    assert w[..|w|] == w && w[|w|..] == [] && Words([]) == [];
  }

  function Digit(d: nat): Char8
    requires d < 10
  {
    ('0' as int + d) as char
  }

  function Decimal(n: nat): Str {
    if n < 10 then [Digit(n)] else Decimal(n / 10) + [Digit(n % 10)]
  }

  predicate AreDigits(s: Str) {
    forall i :: 0 <= i < |s| ==> '0' <= s[i] <= '9'
  }

  function Value(s: Str): nat
    requires AreDigits(s)
  {
    if s == [] then 0 else 10 * Value(s[..|s| - 1]) + (s[|s| - 1] as int - '0' as int)
  }

  /** Decimal digits parse back to the number. */
  lemma {:induction false} DecimalRoundTrip(n: nat)
    ensures Decimal(n) != [] && AreDigits(Decimal(n)) && Value(Decimal(n)) == n
    ensures IsWord(Decimal(n))
  {
    if n >= 10 {
      DecimalRoundTrip(n / 10);
      var init := Decimal(n / 10);
      assert Decimal(n)[..|init|] == init;
    } else {
      assert Decimal(n)[..0] == [];
    }
  }

  function Pow10(k: nat): nat {
    if k == 0 then 1 else 10 * Pow10(k - 1)
  }

  lemma {:induction false} DecimalLength(n: nat, k: nat)
    requires n < Pow10(k) && k > 0
    ensures |Decimal(n)| <= k
  {
    if n < 10 {
    } else {
      DecimalLength(n / 10, k - 1);
    }
  }

  /** A signed number: its sign and its magnitude. */
  function Signed(v: int): Str {
    if v < 0 then "-" + Decimal(-v) else Decimal(v)
  }

  function HexDigit(d: nat): Char8
    requires d < 16
  {
    "0123456789ABCDEF"[d]
  }

  /** The last `nibbles` hexadecimal digits of a number. */
  function Hex(u: nat, nibbles: nat): Str {
    if nibbles == 0 then [] else Hex(u / 16, nibbles - 1) + [HexDigit(u % 16)]
  }

  /** `str::parse::<u32>` with 0 for anything that does not parse: digits, maybe after a plus sign. */
  function ParseU32(s: Str): u32 {
    var digits := if s != [] && s[0] == '+' then s[1..] else s;
    if digits != [] && AreDigits(digits) && Value(digits) < 0x1_0000_0000 then Value(digits) else 0
  }

  lemma ParseDecimal(n: u32)
    ensures ParseU32(Decimal(n)) == n
  {
    DecimalRoundTrip(n);
    assert '0' <= Decimal(n)[0] <= '9';
  }

  /** What an upper-case hexadecimal digit denotes. */
  function HexValueOf(c: Char8): nat
    requires '0' <= c <= '9' || 'A' <= c <= 'F'
  {
    if c <= '9' then c as int - '0' as int else c as int - 'A' as int + 10
  }

  predicate AreHexDigits(s: Str) {
    forall i :: 0 <= i < |s| ==> '0' <= s[i] <= '9' || 'A' <= s[i] <= 'F'
  }

  function HexValue(s: Str): nat
    requires AreHexDigits(s)
  {
    if s == [] then 0 else 16 * HexValue(s[..|s| - 1]) + HexValueOf(s[|s| - 1])
  }

  function Pow16(k: nat): nat {
    if k == 0 then 1 else 16 * Pow16(k - 1)
  }

  lemma HexDigitMeaning(d: nat)
    requires d < 16
    ensures AreHexDigits([HexDigit(d)]) && HexValueOf(HexDigit(d)) == d
  {
  }

  /** The last nibbles of a number, as that many digits: the whole number when it has no more. */
  lemma {:induction false} HexMeaning(u: nat, nibbles: nat) returns (rest: nat)
    ensures |Hex(u, nibbles)| == nibbles && AreHexDigits(Hex(u, nibbles))
    ensures u == rest * Pow16(nibbles) + HexValue(Hex(u, nibbles))
    ensures HexValue(Hex(u, nibbles)) < Pow16(nibbles)
  {
    if nibbles == 0 {
      rest := u;
    } else {
      rest := HexMeaning(u / 16, nibbles - 1);
      HexDigitMeaning(u % 16);
      var head := Hex(u / 16, nibbles - 1);
      HexSnoc(head, HexDigit(u % 16));
      Scaled(u, rest, Pow16(nibbles - 1), HexValue(head));
    }
  }

  lemma HexSnoc(head: Str, digit: Char8)
    requires AreHexDigits(head) && AreHexDigits([digit])
    ensures AreHexDigits(head + [digit])
    ensures HexValue(head + [digit]) == 16 * HexValue(head) + HexValueOf([digit][0])
  {
    assert (head + [digit])[..|head|] == head;
  }

  lemma Scaled(u: nat, rest: nat, power: nat, low: nat)
    requires u / 16 == rest * power + low
    ensures u == rest * (16 * power) + (16 * low + u % 16)
  {
  }

  /** A signed number is a minus sign, when it is negative, and the digits of its magnitude. */
  lemma SignedMeaning(v: int)
    ensures v >= 0 ==> AreDigits(Signed(v)) && Value(Signed(v)) == v
    ensures v < 0 ==> Signed(v) != [] && Signed(v)[0] == '-' && AreDigits(Signed(v)[1..]) && Value(Signed(v)[1..]) == -v
  {
    if v < 0 {
      DecimalRoundTrip(-v);
      assert Signed(v)[1..] == Decimal(-v);
    } else {
      DecimalRoundTrip(v);
    }
  }

  /** Parsing accepts exactly digits, maybe behind a plus sign, whose value fits 32 bits; all else counts as zero. */
  lemma ParseMeaning(s: Str)
    ensures s != [] && AreDigits(s) && Value(s) < 0x1_0000_0000 ==> ParseU32(s) == Value(s) && ParseU32("+" + s) == Value(s)
    ensures AreDigits(s) && Value(s) >= 0x1_0000_0000 ==> ParseU32(s) == 0 && ParseU32("+" + s) == 0
    ensures !AreDigits(s) && (s[0] != '+' || !AreDigits(s[1..])) ==> ParseU32(s) == 0
    ensures s == "" || s == "+" ==> ParseU32(s) == 0
  {
    assert ("+" + s)[1..] == s;
    assert AreDigits(s) && s != [] ==> '0' <= s[0] <= '9';
  }
}
