/**
 * Machine-level vocabulary shared by the C helpers of mzncore.h:
 * bytes (`i8` is a plain, signed `char`), 32- and 64-bit integer ranges,
 * and NUL-terminated strings.
 *
 * A C string is modelled as the sequence of bytes at the pointer, followed by
 * an implicit terminator: `CharAt(s, |s|) == NUL`. A NUL may also occur
 * inside `s`; then the C string ends there, as `CStr(s)` says.
 */
module CBytes {
  import opened Wrappers

  /** One C byte; `c as int` is its unsigned value. */
  type CChar = c: char | c as int < 256 witness '\0'

  const NUL: CChar := '\0'

  const INT32_MIN: int := -0x8000_0000
  const INT32_MAX: int := 0x7FFF_FFFF
  const TWO_32: int := 0x1_0000_0000
  const TWO_64: int := 0x1_0000_0000_0000_0000

  type i32 = x: int | INT32_MIN <= x <= INT32_MAX

  /** The value a signed `char` holds for this byte. */
  function Signed(c: CChar): (v: int)
    ensures -128 <= v < 128
    ensures v >= 0 <==> c as int < 128
  {
    if c as int < 128 then c as int else c as int - 256
  }

  /** The byte with unsigned value `v`. */
  function Byte(v: int): CChar
    requires 0 <= v < 256
  {
    v as char
  }

  /** `(char)x` for an int: keep the low eight bits. */
  function Narrow(x: int): (c: CChar)
    ensures 0 <= x < 256 ==> c as int == x
  {
    Byte(x % 256)
  }

  /** Two's-complement reinterpretation of `x` in 32 bits (`(i32)`, `(u32)` casts). */
  function WrapI32(x: int): (r: i32)
    ensures (r - x) % TWO_32 == 0
    ensures INT32_MIN <= x <= INT32_MAX ==> r == x
  {
    var m := x % TWO_32;
    if m <= INT32_MAX then m else m - TWO_32
  }

  function AsU32(x: int): (r: int)
    ensures 0 <= r < TWO_32
    ensures (r - x) % TWO_32 == 0
  {
    x % TWO_32
  }

  /** Two's-complement reinterpretation of `x` in 64 bits (`i64` arithmetic that overflows). */
  function WrapI64(x: int): (r: int)
    ensures -TWO_64 / 2 <= r < TWO_64 / 2
    ensures -TWO_64 / 2 <= x < TWO_64 / 2 ==> r == x
  {
    var m := x % TWO_64;
    if m < TWO_64 / 2 then m else m - TWO_64
  }

  /** C's `/` on integers truncates toward zero. */
  function CDiv(a: int, b: int): (q: int)
    requires b > 0
  {
    if a >= 0 then a / b else -((-a) / b)
  }

  function Min(a: int, b: int): int { if a <= b then a else b }
  function Max(a: int, b: int): int { if a >= b then a else b }

  /** The byte at index `i` of a C string, reading the implicit terminator at `|s|`. */
  function CharAt(s: seq<CChar>, i: nat): CChar
    requires i <= |s|
  {
    if i < |s| then s[i] else NUL
  }

  /** Index of the first NUL at or after `i` (at most `|s|`, the implicit terminator). */
  function NulFrom(s: seq<CChar>, i: nat): (j: nat)
    requires i <= |s|
    ensures i <= j <= |s|
    ensures CharAt(s, j) == NUL
    ensures forall k :: i <= k < j ==> s[k] != NUL
    decreases |s| - i
  {
    if i == |s| || s[i] == NUL then i else NulFrom(s, i + 1)
  }

  /** The text of the C string at `s`: everything before its first NUL. */
  function CStr(s: seq<CChar>): (t: seq<CChar>)
    ensures |t| <= |s| && t == s[..|t|]
    ensures NUL !in t
    ensures CharAt(s, |t|) == NUL
  {
    s[..NulFrom(s, 0)]
  }

  /** The buffer image `buf` after storing `bytes` from index `at` on. */
  function Overwrite(buf: seq<CChar>, at: nat, bytes: seq<CChar>): (r: seq<CChar>)
    requires at + |bytes| <= |buf|
    ensures |r| == |buf| && r[..at] == buf[..at] && r[at + |bytes|..] == buf[at + |bytes|..]
    ensures r[at..at + |bytes|] == bytes
  {
    buf[..at] + bytes + buf[at + |bytes|..]
  }

  /** A buffer that holds `bytes` from `at` on and agrees with `buf` elsewhere is `Overwrite(buf, at, bytes)`. */
  lemma {:induction false} OverwriteOf(buf: seq<CChar>, at: nat, bytes: seq<CChar>, r: seq<CChar>)
    requires at + |bytes| <= |buf| == |r|
    requires forall k :: 0 <= k < |r| && !(at <= k < at + |bytes|) ==> r[k] == buf[k]
    requires forall k :: at <= k < at + |bytes| ==> r[k] == bytes[k - at]
    ensures r == Overwrite(buf, at, bytes)
  {
    var o := Overwrite(buf, at, bytes);
    forall k | 0 <= k < |r| ensures r[k] == o[k] {
      if k < at {
        assert o[k] == o[..at][k];
      } else if k < at + |bytes| {
        assert o[k] == o[at..at + |bytes|][k - at];
      } else {
        assert o[k] == o[at + |bytes|..][k - at - |bytes|];
      }
    }
  }

  /** Storing one more byte right after an overwritten run extends the run. */
  lemma {:induction false} OverwriteExtend(buf: seq<CChar>, at: nat, bytes: seq<CChar>, c: CChar)
    requires at + |bytes| < |buf|
    ensures Overwrite(buf, at, bytes)[at + |bytes| := c] == Overwrite(buf, at, bytes + [c])
  {
    var a, b := Overwrite(buf, at, bytes)[at + |bytes| := c], Overwrite(buf, at, bytes + [c]);
    forall k | 0 <= k < |a| ensures a[k] == b[k] {
      if k < at {
        assert a[k] == buf[..at][k];
      } else if k < at + |bytes| {
        assert a[k] == bytes[k - at] == b[at..at + |bytes| + 1][k - at];
      } else if k > at + |bytes| {
        assert b[k] == b[at + |bytes| + 1..][k - at - |bytes| - 1];
      }
    }
  }

  /** Reversal of a sequence. */
  function Rev<T>(s: seq<T>): (r: seq<T>)
    ensures |r| == |s|
  {
    if s == [] then [] else Rev(s[1..]) + [s[0]]
  }

  lemma {:induction false} RevAt<T>(s: seq<T>, k: nat)
    requires k < |s|
    ensures Rev(s)[k] == s[|s| - 1 - k]
  {
    if k < |s| - 1 {
      RevAt(s[1..], k);
    }
  }

  lemma {:induction false} RevSnoc<T>(s: seq<T>, x: T)
    ensures Rev(s + [x]) == [x] + Rev(s)
  {
    var r := Rev(s + [x]);
    forall k | 0 <= k < |r| ensures r[k] == ([x] + Rev(s))[k] {
      RevAt(s + [x], k);
      if k > 0 { RevAt(s, k - 1); }
    }
  }

  /** Reversing twice gives back the original sequence. */
  lemma {:induction false} RevRev<T>(s: seq<T>)
    ensures Rev(Rev(s)) == s
  {
    forall k | 0 <= k < |s| ensures Rev(Rev(s))[k] == s[k] {
      RevAt(Rev(s), k);
      RevAt(s, |s| - 1 - k);
    }
  }
}
