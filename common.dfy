/*
 * Shared vocabulary of the model: an Option type for C's "NULL or a value",
 * the integer limits of the LP64 Linux ABI the simulator is built for, and
 * helpers that read a Dafny string the way C reads a NUL-terminated one.
 */
module Common {

  datatype Option<+T> = None | Some(value: T)

  // Limits of C's `int` and `long` on LP64 Linux.
  const INT_MIN: int := -0x8000_0000
  const INT_MAX: int := 0x7fff_ffff
  const LONG_MIN: int := -0x8000_0000_0000_0000
  const LONG_MAX: int := 0x7fff_ffff_ffff_ffff

  /** The value C gives `(int) v` for a `long` v under GCC: reduction modulo 2^32 into the `int` range. */
  function ToInt(v: int): (r: int)
    ensures INT_MIN <= r <= INT_MAX
    ensures INT_MIN <= v <= INT_MAX ==> r == v
    ensures (r - v) % 0x1_0000_0000 == 0
  {
    (v - INT_MIN) % 0x1_0000_0000 + INT_MIN
  }

  function Clamp(v: int, lo: int, hi: int): (r: int)
    requires lo <= hi
    ensures lo <= r <= hi
    ensures lo <= v <= hi ==> r == v
  {
    if v < lo then lo else if v > hi then hi else v
  }

  /** A C string as the program receives it: bytes, none of them the terminating NUL. */
  predicate IsCString(s: string) {
    forall i :: 0 <= i < |s| ==> 0 < s[i] as int < 256
  }

  /** `s[i]` as C reads it: past the end of the string the terminator is found. */
  function CharAt(s: string, i: nat): char {
    if i < |s| then s[i] else '\0'
  }

  /** The value of a byte read through C's `char`, which is signed on x86-64. */
  function SignedChar(c: char): (v: int)
    requires c as int < 256
    ensures -128 <= v < 128
    ensures c as int < 128 ==> v == c as int
  {
    if c as int >= 128 then c as int - 256 else c as int
  }
}
