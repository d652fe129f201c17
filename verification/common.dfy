/** Shared vocabulary: bytes as the parser sees them, and an optional value. */
module Common {

  /** One byte of a Go string. Characters stand for bytes so that literals stay readable. */
  type Byte = c: char | c as int < 256 witness '\0'

  /** A Go string: a sequence of bytes. */
  type Bytes = seq<Byte>

  /** The nil-or-value shape of a Go pointer result or a `(value, ok)` pair. */
  datatype Option<T> = None | Some(value: T)

  predicate IsLowerAscii(c: Byte) {
    'a' <= c <= 'z'
  }

  /** ASCII upper-casing of one byte; every other byte is left as it is. */
  function UpperByte(c: Byte): (u: Byte)
    ensures IsLowerAscii(c) ==> u as int == c as int - 32
    ensures !IsLowerAscii(c) ==> u == c
    ensures !IsLowerAscii(u)
  {
    if IsLowerAscii(c) then (c as int - 32) as char else c
  }

  /** ASCII upper-casing of a string, byte by byte. */
  function Upper(s: Bytes): (u: Bytes)
    ensures |u| == |s|
    ensures forall i :: 0 <= i < |s| ==> u[i] == UpperByte(s[i])
  {
    seq(|s|, i requires 0 <= i < |s| => UpperByte(s[i]))
  }

  /** The number of consecutive copies of `c` in `s` starting at index `i`. */
  function Run(s: Bytes, i: nat, c: Byte): (n: nat)
    ensures i + n <= |s| || (i >= |s| && n == 0)
    ensures i + n < |s| ==> s[i + n] != c
    decreases |s| - i
  {
    if i < |s| && s[i] == c then 1 + Run(s, i + 1, c) else 0
  }

  /** Every byte of the run is `c`. */
  lemma {:induction false} RunIsUniform(s: Bytes, i: nat, c: Byte)
    ensures forall k :: i <= k < i + Run(s, i, c) ==> s[k] == c
    decreases |s| - i
  {
    if i < |s| && s[i] == c {
      RunIsUniform(s, i + 1, c);
    }
  }

  /** Whether `s` holds `c` at index `i`. */
  predicate At(s: Bytes, i: int, c: Byte) {
    0 <= i < |s| && s[i] == c
  }

  function Min(a: int, b: int): int {
    if a <= b then a else b
  }

  function Max(a: int, b: int): int {
    if a >= b then a else b
  }
}
