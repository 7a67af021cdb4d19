/** PTWP: the codec-independent event model shared by the device harness and the host. */
module Protocol {

  type byte = x: int | 0 <= x < 256

  type u32 = x: int | 0 <= x < 0x1_0000_0000

  /** A character that stands for one byte. */
  type Char8 = c: char | c as int < 256

  /** C strings up to their terminator, and Rust strings where no multi-byte character occurs. */
  type Str = seq<Char8>

  datatype Option<+T> = None | Some(value: T)

  datatype Result<+T, +E> = Ok(value: T) | Err(error: E)

  datatype CodecError = ZeroCode | Overrun | UnknownMsgType | Truncated | TruncatedStr | TruncatedU32

  datatype TestStatus = Passed | Failed | Skipped

  datatype Event =
    | SuiteStart(name: Str)
    | CaseStart(suite: Str, name: Str)
    | AssertFail(suite: Str, name: Str, file: Str, line: u32, message: Str)
    | CaseEnd(suite: Str, name: Str, status: TestStatus)
    | SuiteEnd(name: Str, passed: u32, failed: u32, skipped: u32)
    | Log(message: Str)
    | Done(passed: u32, failed: u32, skipped: u32)

  /** Unsigned 32-bit truncation, as in `(uint32_t)x` and in the wrap-around of `unsigned`. */
  function Wrap32(x: int): u32 {
    x % 0x1_0000_0000
  }

  /** Concatenation of all the pieces. */
  function Flatten<T>(parts: seq<seq<T>>): seq<T> {
    if parts == [] then [] else parts[0] + Flatten(parts[1..])
  }

  /** Puts items that are already there in front of a result that may still fail. */
  function Prepend<T, E>(head: seq<T>, tail: Result<seq<T>, E>): Result<seq<T>, E> {
    if tail.Err? then tail else Ok(head + tail.value)
  }

  lemma PrependLaws<T, E>(a: seq<T>, b: seq<T>, r: Result<seq<T>, E>)
    ensures Prepend([], r) == r
    ensures Prepend(a, Prepend(b, r)) == Prepend(a + b, r)
  {
    if r.Ok? {
      assert [] + r.value == r.value;
      assert a + (b + r.value) == (a + b) + r.value;
    }
  }

  lemma Associative<T>(a: seq<T>, b: seq<T>, c: seq<T>)
    ensures a + b + c == a + (b + c)
  {
  }

  lemma EmptyIsNeutral<T>(a: seq<T>)
    ensures a + [] == a && [] + a == a
  {
  }

  lemma FiveParts<T>(s: seq<T>, a: seq<T>, b: seq<T>, c: seq<T>, d: seq<T>, e: seq<T>)
    ensures s + a + b + c + d + e == s + (a + b + c + d + e)
  {
  }

  /** Truncation keeps what fits and forgets whole multiples of 2^32. */
  lemma WrapMeaning(x: int, k: int)
    ensures 0 <= x < 0x1_0000_0000 ==> Wrap32(x) == x
    ensures Wrap32(x + k * 0x1_0000_0000) == Wrap32(x)
  {
  }
}
