/**
 * Integer <-> text conversion of mzncore.h: `mzn_nlen`, `mzn_itoa`,
 * `mzn_atoi` and `mzn_xtoi`.
 */
module IntText {
  import opened Wrappers
  import opened CBytes
  import opened CharClass

  /** Size of `mzn_itoa`'s scratch buffer: enough for 32 binary digits. */
  const TOA_BUF_SIZE: nat := 32

  /** Division facts for a symbolic base, which the solver does not find on its own. */
  lemma {:induction false} DivMod(v: nat, b: nat)
    requires b >= 2
    ensures v == (v / b) * b + v % b && 0 <= v % b < b
    ensures v >= b ==> 1 <= v / b < v
    ensures v < b ==> v / b == 0 && v % b == v
  {
  }

  function Pow(b: nat, e: nat): nat
  {
    if e == 0 then 1 else b * Pow(b, e - 1)
  }

  lemma {:induction false} PowAdd(b: nat, e1: nat, e2: nat)
    ensures Pow(b, e1 + e2) == Pow(b, e1) * Pow(b, e2)
    decreases e1
  {
    if e1 > 0 {
      PowAdd(b, e1 - 1, e2);
      assert Pow(b, e1 + e2) == b * Pow(b, e1 - 1 + e2);
    }
  }

  lemma {:induction false} Pow2To32()
    ensures Pow(2, TOA_BUF_SIZE) == TWO_32
  {
    assert Pow(2, 8) == 256;
    PowAdd(2, 8, 8);
    PowAdd(2, 16, 16);
  }

  lemma {:induction false} DivBelow(v: nat, b: nat, p: nat)
    requires b >= 1 && v < b * p
    ensures v / b < p
  {
  }

  /** The character for digit value `d`: '0'..'9', then 'a'.. or 'A'.. by `lower`. */
  function DigitChar(d: nat, lower: bool): CChar
    requires d < 36
  {
    if d < 10 then Byte('0' as int + d)
    else if lower then Byte('a' as int - 10 + d)
    else Byte('A' as int - 10 + d)
  }

  /** The base-`base` numeral of `v`, most significant digit first, without leading zeros. */
  function ToDigits(v: nat, base: nat, lower: bool): (s: seq<CChar>)
    requires 2 <= base <= 36
    ensures |s| >= 1
    decreases v
  {
    if v < base then [DigitChar(v, lower)]
    else DivMod(v, base); ToDigits(v / base, base, lower) + [DigitChar(v % base, lower)]
  }

  /** Number of base-`base` digits of `v` (1 for zero). */
  function DigitCount(v: nat, base: nat): nat
    requires base >= 2
    decreases v
  {
    if v < base then 1 else DivMod(v, base); 1 + DigitCount(v / base, base)
  }

  /** The digit value of a numeral character, either case (the inverse of `DigitChar`). */
  function DigitValue(c: CChar): int
  {
    if '0' <= c <= '9' then c as int - '0' as int
    else if 'a' <= c <= 'z' then c as int - 'a' as int + 10
    else if 'A' <= c <= 'Z' then c as int - 'A' as int + 10
    else -1
  }

  /** The number a numeral denotes in base `base`, reading it most significant digit first. */
  function NumeralValue(s: seq<CChar>, base: nat): int
  {
    if s == [] then 0 else NumeralValue(s[..|s| - 1], base) * base + DigitValue(s[|s| - 1])
  }

  lemma {:induction false} ToDigitsLength(v: nat, base: nat, lower: bool)
    requires 2 <= base <= 36
    ensures |ToDigits(v, base, lower)| == DigitCount(v, base)
    decreases v
  {
    DivMod(v, base);
    if v >= base {
      ToDigitsLength(v / base, base, lower);
    }
  }

  /** A numeral has the most significant digit first: it reads back as the value it was made from. */
  lemma {:induction false} ToDigitsValue(v: nat, base: nat, lower: bool)
    requires 2 <= base <= 36
    ensures NumeralValue(ToDigits(v, base, lower), base) == v
    decreases v
  {
    var s := ToDigits(v, base, lower);
    DivMod(v, base);
    if v >= base {
      ToDigitsValue(v / base, base, lower);
      assert s[..|s| - 1] == ToDigits(v / base, base, lower);
    }
  }

  /** Every digit is '0'..'9' or a letter of the case `lower` selects. */
  lemma {:induction false} ToDigitsAlphabet(v: nat, base: nat, lower: bool)
    requires 2 <= base <= 36
    ensures forall c :: c in ToDigits(v, base, lower) ==>
      ('0' <= c <= '9') || (lower && 'a' <= c <= 'z') || (!lower && 'A' <= c <= 'Z')
    decreases v
  {
    DivMod(v, base);
    if v >= base {
      ToDigitsAlphabet(v / base, base, lower);
    }
  }

  /** A value below `base^k` has at most `k` digits. */
  lemma {:induction false} DigitCountBound(v: nat, base: nat, k: nat)
    requires base >= 2 && k >= 1 && v < Pow(base, k)
    ensures DigitCount(v, base) <= k
    decreases v
  {
    DivMod(v, base);
    if v >= base {
      assert Pow(base, k) == base * Pow(base, k - 1) && Pow(base, 0) == 1;
      DivBelow(v, base, Pow(base, k - 1));
      DigitCountBound(v / base, base, k - 1);
    }
  }

  // ------------------------------------------------------------------------
  // mzn_itoa

  /** Does `mzn_itoa` print a sign? Only for a negative number in base 10. */
  predicate SignedDecimal(num: int, base: int)
  {
    base == 10 && num < 0
  }

  /** The number whose digits `mzn_itoa` prints: |num| for a signed decimal, else the u32 bit pattern. */
  function Magnitude(num: i32, base: int): (v: nat)
    ensures v < TWO_32
  {
    if SignedDecimal(num, base) then -(num as int) else AsU32(num)
  }

  /**
   * The text `mzn_itoa` leaves before its terminator in a buffer of `size` > 0
   * bytes: "" for a base outside 2..36, otherwise the sign (never checked
   * against `size`) and the digits, most significant first, cut so that the
   * digits stop at index `size - 1`.
   */
  function ItoaText(num: i32, base: i32, lower: bool, size: nat): seq<CChar>
    requires size > 0
  {
    if base < 2 || base > 36 then []
    else
      var sign: seq<CChar> := if SignedDecimal(num, base) then ['-'] else [];
      var digits := ToDigits(Magnitude(num, base), base, lower);
      sign + digits[..Min(|digits|, Max(size - 1 - |sign|, 0))]
  }

  /** `mzn_itoa` text fits in `size - 1` bytes, except a lone sign when `size` is 1. */
  lemma {:induction false} ItoaTextLength(num: i32, base: i32, lower: bool, size: nat)
    requires size > 0
    ensures |ItoaText(num, base, lower, size)| <= size - 1
         || (size == 1 && SignedDecimal(num, base) && ItoaText(num, base, lower, size) == ['-'])
  {
  }

  /** With room for every digit, the text is the sign followed by the whole numeral. */
  lemma {:induction false} ItoaTextFull(num: i32, base: i32, lower: bool, size: nat)
    requires 2 <= base <= 36 && size > 0
    requires size - 1 >= DigitCount(Magnitude(num, base), base) + (if SignedDecimal(num, base) then 1 else 0)
    ensures ItoaText(num, base, lower, size)
         == (if SignedDecimal(num, base) then ['-'] else []) + ToDigits(Magnitude(num, base), base, lower)
  {
    ToDigitsLength(Magnitude(num, base), base, lower);
  }

  /** Zero prints as "0" in every valid base. */
  lemma {:induction false} ItoaZero(base: i32, lower: bool, size: nat)
    requires 2 <= base <= 36 && size >= 2
    ensures ItoaText(0, base, lower, size) == ['0']
  {
  }

  /** A '-' leads the text exactly for negative numbers in base 10; no other character is a '-'. */
  lemma {:induction false} ItoaSign(num: i32, base: i32, lower: bool, size: nat)
    requires 2 <= base <= 36 && size > 0
    ensures var t := ItoaText(num, base, lower, size);
      && (SignedDecimal(num, base) <==> |t| > 0 && t[0] == '-')
      && forall k :: 0 < k < |t| ==> t[k] != '-'
  {
    var digits := ToDigits(Magnitude(num, base), base, lower);
    ToDigitsAlphabet(Magnitude(num, base), base, lower);
    var t := ItoaText(num, base, lower, size);
    var s := if SignedDecimal(num, base) then 1 else 0;
    forall k | s <= k < |t| ensures t[k] != '-' {
      assert t[k] == digits[k - s];
      assert digits[k - s] in digits;
    }
  }

  /**
   * `mzn_itoa`: write the text of `num` in base `base` into `str` and return its
   * length. The digits are collected least significant first in a 32-byte
   * scratch buffer and copied back reversed. The sign goes to `str[0]` without
   * checking `size`, so with `size == 1` the terminator lands at `str[1]`.
   */
  method Itoa(num: i32, base: i32, lower: bool, str: array?<CChar>, size: nat) returns (r: int)
    requires str != null ==> size <= str.Length
    requires str != null && size == 1 && SignedDecimal(num, base) ==> str.Length >= 2
    modifies str
    ensures str == null || size == 0 ==> r == 0 && (str == null || str[..] == old(str[..]))
    ensures str != null && size > 0 ==>
      var t := ItoaText(num, base, lower, size);
      r == |t| && str[..r] == t && str[r] == NUL && str[r + 1..] == old(str[r + 1..])
  {
    if size == 0 || str == null {
      return 0;
    }
    if base < 2 || base > 36 {
      str[0] := NUL;
      return 0;
    }
    var sign := base == 10 && num < 0;
    var v: nat := if sign then -(num as int) else AsU32(num);
    var tmp, k := ReversedDigits(v, base, lower);
    var i := 0;
    if sign {
      str[0] := '-';
      i := 1;
    }
    ghost var head := str[..i];
    r := CopyReversed(str, i, tmp, k, size);
    assert str[..r] == head + Rev(tmp[..k])[..r - i];
  }

  /**
   * The copy loop of `mzn_itoa`: the digits of `tmp[..k]`, last first, from `start`
   * while fewer than `size - 1` bytes are written, then the terminator.
   */
  method CopyReversed(str: array<CChar>, start: nat, tmp: array<CChar>, k: nat, size: nat) returns (r: nat)
    requires str != tmp && k <= tmp.Length && size <= str.Length && start < str.Length
    requires start <= 1 && (start < size - 1 || start + 1 == size || start == 1)
    modifies str
    ensures r == start + Min(k, Max(size - 1 - start, 0)) && r < str.Length
    ensures str[..start] == old(str[..start])
    ensures str[start..r] == Rev(tmp[..k])[..r - start]
    ensures str[r] == NUL && str[r + 1..] == old(str[r + 1..])
  {
    r := start;
    var j := k;
    ghost var digits := Rev(tmp[..k]);
    while j > 0 && r < size - 1
      invariant 0 <= j <= k && r == start + (k - j) && r < str.Length
      invariant r <= size - 1 || r == start
      invariant str[..start] == old(str[..start]) && str[r..] == old(str[r..])
      invariant forall m :: start <= m < r ==> str[m] == digits[m - start]
    {
      RevAt(tmp[..k], k - j);
      assert digits[r - start] == tmp[j - 1];
      str[r] := tmp[j - 1];
      j := j - 1;
      r := r + 1;
    }
    str[r] := NUL;
  }

  /** The digit loop of `mzn_itoa`: least significant digit first, into a fresh 32-byte buffer. */
  method ReversedDigits(v0: nat, base: nat, lower: bool) returns (tmp: array<CChar>, k: nat)
    requires 2 <= base <= 36 && v0 < TWO_32
    ensures fresh(tmp) && tmp.Length == TOA_BUF_SIZE && k <= tmp.Length
    ensures Rev(tmp[..k]) == ToDigits(v0, base, lower)
  {
    var v: nat := v0;
    ghost var digits := ToDigits(v, base, lower);
    tmp := new CChar[TOA_BUF_SIZE];
    k := 0;
    DigitsFit(v0, base, lower);
    assert Rev(tmp[..0]) == [];
    ghost var pending := digits;
    while v != 0 || k == 0
      modifies tmp
      invariant k <= |digits| <= TOA_BUF_SIZE
      invariant digits == pending + Rev(tmp[..k])
      invariant v != 0 || k == 0 ==> pending == ToDigits(v, base, lower)
      invariant v == 0 && k > 0 ==> pending == []
      decreases v, if k == 0 then 1 else 0
    {
      DivMod(v, base);
      var c := DigitChar(v % base, lower);
      ghost var done := tmp[..k];
      PushDigit(v, base, lower, done);
      tmp[k] := c;
      assert tmp[..k + 1] == done + [c];
      pending := if v / base != 0 then ToDigits(v / base, base, lower) else [];
      v := v / base;
      k := k + 1;
    }
  }

  /** One pass of the digit loop: the lowest digit moves from the numeral onto the reversed buffer. */
  lemma {:induction false} PushDigit(v: nat, base: nat, lower: bool, done: seq<CChar>)
    requires 2 <= base <= 36
    ensures ToDigits(v, base, lower) + Rev(done)
         == (if v / base != 0 then ToDigits(v / base, base, lower) else []) + Rev(done + [DigitChar(v % base, lower)])
  {
    ToDigitsStep(v, base, lower);
    RevSnoc(done, DigitChar(v % base, lower));
  }

  /** A 32-bit value has at most 32 digits in any base from 2 up. */
  lemma {:induction false} DigitsFit(v: nat, base: nat, lower: bool)
    requires 2 <= base <= 36 && v < TWO_32
    ensures |ToDigits(v, base, lower)| <= TOA_BUF_SIZE
  {
    Pow2To32();
    PowMono(2, base, TOA_BUF_SIZE);
    DigitCountBound(v, base, TOA_BUF_SIZE);
    ToDigitsLength(v, base, lower);
  }

  lemma {:induction false} PowMono(b1: nat, b2: nat, e: nat)
    requires b1 <= b2
    ensures Pow(b1, e) <= Pow(b2, e)
  {
    if e > 0 {
      PowMono(b1, b2, e - 1);
      MulMono(b1, Pow(b1, e - 1), b2, Pow(b2, e - 1));
    }
  }

  lemma {:induction false} MulMono(a: nat, b: nat, c: nat, d: nat)
    requires a <= c && b <= d
    ensures a * b <= c * d
  {
    assert a * b <= c * b;
  }

  /** One step of the digit loop: the last digit of `v` is `v % base`, the rest is the numeral of `v / base`. */
  lemma {:induction false} ToDigitsStep(v: nat, base: nat, lower: bool)
    requires 2 <= base <= 36
    ensures v / base != 0 ==> ToDigits(v, base, lower) == ToDigits(v / base, base, lower) + [DigitChar(v % base, lower)]
    ensures v / base == 0 ==> ToDigits(v, base, lower) == [DigitChar(v % base, lower)]
  {
    DivMod(v, base);
  }

  // ------------------------------------------------------------------------
  // mzn_nlen

  /** What `mzn_nlen` returns: 0 for a base below 2, else one for a sign plus the digit count of |n|. */
  function NumLen(n: int, base: int): nat
  {
    if base < 2 then 0 else (if n < 0 then 1 else 0) + DigitCount(if n < 0 then -n else n, base)
  }

  /**
   * `mzn_nlen`. Negating INT32_MIN leaves it negative in two's complement; the
   * loop then divides toward zero, so it still counts the digits of 2^31.
   */
  method Nlen(n: i32, base: i32) returns (r: int)
    ensures r == NumLen(n, base)
  {
    if base < 2 {
      return 0;
    }
    if n == 0 {
      return 1;
    }
    var m: int := n;
    var i := 0;
    if m < 0 {
      NegateWrapped(m);
      m := WrapI32(-m);
      i := i + 1;
    }
    while m != 0
      invariant m != 0 ==> i + DigitCount(Abs(m), base) == NumLen(n, base)
      invariant m == 0 ==> i == NumLen(n, base)
      decreases Abs(m)
    {
      TruncatedStep(m, base);
      m := CDiv(m, base);
      i := i + 1;
    }
    return i;
  }

  /** Negating a negative 32-bit number with wrap-around keeps its magnitude, even for INT32_MIN. */
  lemma {:induction false} NegateWrapped(m: int)
    requires INT32_MIN <= m < 0
    ensures WrapI32(-m) != 0 && Abs(WrapI32(-m)) == -m
  {
    if m == INT32_MIN {
      assert WrapI32(-m) == INT32_MIN;
    }
  }

  /** Dividing toward zero drops one digit of the magnitude. */
  lemma {:induction false} TruncatedStep(m: int, base: nat)
    requires base >= 2 && m != 0
    ensures Abs(CDiv(m, base)) == Abs(m) / base < Abs(m)
    ensures CDiv(m, base) != 0 ==> DigitCount(Abs(m), base) == 1 + DigitCount(Abs(m) / base, base)
    ensures CDiv(m, base) == 0 ==> DigitCount(Abs(m), base) == 1
  {
    DivMod(Abs(m), base);
  }

  function Abs(x: int): nat { if x < 0 then -x else x }

  /** For every 32-bit `n`, `mzn_nlen(n, 10)` is the length `mzn_itoa` prints for `n` in base 10. */
  lemma {:induction false} NlenMatchesItoa(n: i32, lower: bool, size: nat)
    requires size >= 12
    ensures NumLen(n, 10) == |ItoaText(n, 10, lower, size)|
  {
    DecimalFits(n);
    ItoaTextFull(n, 10, lower, size);
    ToDigitsLength(Magnitude(n, 10), 10, lower);
  }

  /** |n| of a 32-bit number has at most ten decimal digits. */
  lemma {:induction false} DecimalFits(n: i32)
    ensures DigitCount(Magnitude(n, 10), 10) <= 10
  {
    assert Pow(10, 10) == 10000000000;
    DigitCountBound(Magnitude(n, 10), 10, 10);
  }

  // ------------------------------------------------------------------------
  // mzn_atoi

  /** First index at or after `i` that is not `mzn_is_whitespace` (the terminator is not). */
  function SpaceEnd(s: seq<CChar>, i: nat): (j: nat)
    requires i <= |s|
    ensures i <= j <= |s| && !IsWhitespace(CharAt(s, j))
    ensures forall k :: i <= k < j ==> IsWhitespace(s[k])
    decreases |s| - i
  {
    if IsWhitespace(CharAt(s, i)) then SpaceEnd(s, i + 1) else i
  }

  /** First index at or after `i` that is not a decimal digit. */
  function DigitEnd(s: seq<CChar>, i: nat): (j: nat)
    requires i <= |s|
    ensures i <= j <= |s| && !IsNumeric(CharAt(s, j))
    ensures forall k :: i <= k < j ==> IsNumeric(s[k])
    decreases |s| - i
  {
    if IsNumeric(CharAt(s, i)) then DigitEnd(s, i + 1) else i
  }

  /** The value of a decimal digit character. */
  function DecDigit(c: CChar): (d: nat)
    requires IsNumeric(c)
    ensures d <= 9
  {
    c as int - '0' as int
  }

  /** Decimal value of a run of digits. */
  function DecValue(ds: seq<CChar>): nat
    requires forall k :: 0 <= k < |ds| ==> IsNumeric(ds[k])
  {
    if ds == [] then 0 else DecValue(ds[..|ds| - 1]) * 10 + DecDigit(ds[|ds| - 1])
  }

  /** Extending a digit run never lowers its value. */
  lemma {:induction false} DecValuePrefix(ds: seq<CChar>, m: nat)
    requires forall k :: 0 <= k < |ds| ==> IsNumeric(ds[k])
    requires m <= |ds|
    ensures DecValue(ds[..m]) <= DecValue(ds)
    decreases |ds|
  {
    if m < |ds| {
      assert ds[..|ds| - 1][..m] == ds[..m];
      DecValuePrefix(ds[..|ds| - 1], m);
    } else {
      assert ds[..m] == ds;
    }
  }

  /**
   * What `mzn_atoi` returns for the C string `s`: skip whitespace, take one
   * optional sign, read digits up to the first non-digit, and saturate to
   * INT32_MAX / INT32_MIN when the digits exceed INT32_MAX.
   */
  function AtoiValue(s: seq<CChar>): i32
  {
    var i := SpaceEnd(s, 0);
    var neg := CharAt(s, i) == '-';
    var j := if CharAt(s, i) == '-' || CharAt(s, i) == '+' then i + 1 else i;
    var k := DigitEnd(s, j);
    var v := DecValue(s[j..k]);
    if v > INT32_MAX then (if neg then INT32_MIN else INT32_MAX)
    else if neg then -(v as int) else v
  }

  function Atoi(s: Option<seq<CChar>>): i32
  {
    if s.None? then 0 else AtoiValue(s.value)
  }

  /**
   * `mzn_atoi`. The overflow limit is computed before the sign is read, so it is
   * always INT32_MAX; a negative number reaching 2^31 saturates to INT32_MIN,
   * which is its value anyway.
   */
  method AtoiLoop(str: Option<seq<CChar>>) returns (r: i32)
    ensures r == Atoi(str)
  {
    var sign: int := 1;
    if str.None? {
      return 0;
    }
    var s := str.value;
    var p: nat := 0;
    while CharAt(s, p) != NUL && IsWhitespace(CharAt(s, p))
      invariant p <= |s| && SpaceEnd(s, p) == SpaceEnd(s, 0)
      decreases |s| - p
    {
      p := p + 1;
    }
    if CharAt(s, p) == '-' || CharAt(s, p) == '+' {
      if CharAt(s, p) == '-' {
        sign := -1;
      }
      p := p + 1;
    }
    var over, result := ReadDecimal(s, p);
    if over {
      return if sign == 1 then INT32_MAX else INT32_MIN;
    }
    return sign * result;
  }

  /**
   * The digit loop of `mzn_atoi`: it accumulates digits from `j` and stops
   * with `over` as soon as the value would pass INT32_MAX.
   */
  method ReadDecimal(s: seq<CChar>, j: nat) returns (over: bool, result: nat)
    requires j <= |s|
    ensures var v := DecValue(s[j..DigitEnd(s, j)]);
      (over <==> v > INT32_MAX) && (!over ==> result == v)
  {
    ghost var k := DigitEnd(s, j);
    var p: nat := j;
    result := 0;
    while CharAt(s, p) != NUL && IsNumeric(CharAt(s, p))
      invariant j <= p <= k && DigitEnd(s, p) == k
      invariant result == DecValue(s[j..p]) <= INT32_MAX
      decreases |s| - p
    {
      var digit := DecDigit(s[p]);
      DigitRunStep(s, j, p);
      if result > INT32_MAX / 10 || (result == INT32_MAX / 10 && digit > INT32_MAX % 10) {
        OverflowPersists(s, j, p + 1, k);
        return true, 0;
      }
      result := result * 10 + digit;
      p := p + 1;
    }
    return false, result;
  }

  /** One more digit: the value of `s[j..p + 1]` is ten times that of `s[j..p]` plus the digit. */
  lemma {:induction false} DigitRunStep(s: seq<CChar>, j: nat, p: nat)
    requires j <= p < |s| && forall k :: j <= k <= p ==> IsNumeric(s[k])
    ensures DecValue(s[j..p + 1]) == DecValue(s[j..p]) * 10 + DecDigit(s[p])
  {
    assert s[j..p + 1] == s[j..p] + [s[p]];
    DecValueSnoc(s[j..p], s[p]);
  }

  /** Once a prefix of a digit run passes INT32_MAX, the whole run does. */
  lemma {:induction false} OverflowPersists(s: seq<CChar>, j: nat, p: nat, k: nat)
    requires j <= p <= k <= |s| && forall m :: j <= m < k ==> IsNumeric(s[m])
    ensures DecValue(s[j..p]) <= DecValue(s[j..k])
  {
    DecValuePrefix(s[j..k], p - j);
    assert s[j..k][..p - j] == s[j..p];
  }

  /** Appending a digit multiplies the value by ten and adds the digit. */
  lemma {:induction false} DecValueSnoc(ds: seq<CChar>, c: CChar)
    requires forall k :: 0 <= k < |ds| ==> IsNumeric(ds[k])
    requires IsNumeric(c)
    ensures DecValue(ds + [c]) == DecValue(ds) * 10 + DecDigit(c)
  {
    assert (ds + [c])[..|ds|] == ds;
  }

  /** Decimal digits read back as the number they were written from. */
  lemma {:induction false} DecValueOfDigits(v: nat, lower: bool)
    ensures forall k :: 0 <= k < |ToDigits(v, 10, lower)| ==> IsNumeric(ToDigits(v, 10, lower)[k])
    ensures DecValue(ToDigits(v, 10, lower)) == v
    decreases v
  {
    var s := ToDigits(v, 10, lower);
    if v >= 10 {
      DecValueOfDigits(v / 10, lower);
      assert s[..|s| - 1] == ToDigits(v / 10, 10, lower);
    }
  }

  /**
   * An optional '-' followed by a non-empty run of digits reads as the signed
   * value of the run, saturated at INT32_MAX / INT32_MIN.
   */
  lemma {:induction false} ReadSignedNumeral(neg: bool, ds: seq<CChar>)
    requires |ds| >= 1 && forall k :: 0 <= k < |ds| ==> IsNumeric(ds[k])
    ensures var v := DecValue(ds);
      AtoiValue((if neg then ['-'] else []) + ds)
      == if v > INT32_MAX then (if neg then INT32_MIN else INT32_MAX) else if neg then -(v as int) else v
  {
    var t := (if neg then ['-'] else []) + ds;
    var j := if neg then 1 else 0;
    assert CharAt(t, 0) == t[0] && !IsWhitespace(t[0]);
    assert SpaceEnd(t, 0) == 0;
    DigitRunAll(t, j);
    assert t[j..|t|] == ds;
  }

  /** `mzn_atoi` reads back every 32-bit number `mzn_itoa` writes in base 10. */
  lemma {:induction false} AtoiItoaRoundTrip(n: i32, lower: bool, size: nat)
    requires size >= 12
    ensures Atoi(Some(ItoaText(n, 10, lower, size))) == n
  {
    var v := Magnitude(n, 10);
    assert v == if n < 0 then -(n as int) else n as int;
    DecimalFits(n);
    ItoaTextFull(n, 10, lower, size);
    DecValueOfDigits(v, lower);
    ReadSignedNumeral(n < 0, ToDigits(v, 10, lower));
  }

  lemma {:induction false} DigitRunAll(t: seq<CChar>, j: nat)
    requires j <= |t|
    requires forall k :: j <= k < |t| ==> IsNumeric(t[k])
    ensures DigitEnd(t, j) == |t|
  {
  }

  // ------------------------------------------------------------------------
  // mzn_xtoi

  predicate IsHexOrX(c: CChar)
  {
    IsHex(c) || c == 'x' || c == 'X'
  }

  /** First index at or after `i` that is neither a hex digit nor 'x'/'X'. */
  function HexRunEnd(s: seq<CChar>, i: nat): (j: nat)
    requires i <= |s|
    ensures i <= j <= |s| && !IsHexOrX(CharAt(s, j))
    ensures forall k :: i <= k < j ==> IsHexOrX(s[k])
    decreases |s| - i
  {
    if IsHexOrX(CharAt(s, i)) then HexRunEnd(s, i + 1) else i
  }

  /** The 64-bit accumulator of `mzn_xtoi` after a run: reset at 'x'/'X', else `r * 16 + mzn_cxtou(c)`. */
  function HexFold(run: seq<CChar>): int
  {
    if run == [] then 0
    else
      var c := run[|run| - 1];
      if c == 'x' || c == 'X' then 0 else WrapI64(HexFold(run[..|run| - 1]) * 16 + HexValue(c))
  }

  /** What `mzn_xtoi` returns: skip whitespace, fold the hex run, truncate to 32 bits. */
  function XtoiValue(s: seq<CChar>): i32
  {
    var i := SpaceEnd(s, 0);
    WrapI32(HexFold(s[i..HexRunEnd(s, i)]))
  }

  /** `mzn_xtoi` (no NULL check in the source). */
  method Xtoi(s: seq<CChar>) returns (r: i32)
    ensures r == XtoiValue(s)
  {
    var p: nat := 0;
    while IsWhitespace(CharAt(s, p))
      invariant p <= |s| && SpaceEnd(s, p) == SpaceEnd(s, 0)
      decreases |s| - p
    {
      p := p + 1;
    }
    r := ReadHex(s, p);
  }

  /** The hex loop of `mzn_xtoi`, from index `i`, with the final 32-bit truncation. */
  method ReadHex(s: seq<CChar>, i: nat) returns (r: i32)
    requires i <= |s|
    ensures r == WrapI32(HexFold(s[i..HexRunEnd(s, i)]))
  {
    var p: nat := i;
    var acc: int := 0;
    while IsHexOrX(CharAt(s, p))
      invariant i <= p <= |s| && HexRunEnd(s, p) == HexRunEnd(s, i)
      invariant acc == HexFold(s[i..p])
      decreases |s| - p
    {
      assert p < |s| && CharAt(s, p) == s[p];
      HexRunStep(s, i, p);
      if s[p] == 'x' || s[p] == 'X' {
        acc := 0;
      } else {
        acc := WrapI64(acc * 16 + HexValue(s[p]));
      }
      p := p + 1;
    }
    return WrapI32(acc);
  }

  /** One more byte of the run: `HexFold` takes one step, and the run still ends at the same place. */
  lemma {:induction false} HexRunStep(s: seq<CChar>, i: nat, p: nat)
    requires i <= p < |s| && IsHexOrX(s[p])
    ensures HexFold(s[i..p + 1])
         == if s[p] == 'x' || s[p] == 'X' then 0 else WrapI64(HexFold(s[i..p]) * 16 + HexValue(s[p]))
    ensures HexRunEnd(s, p + 1) == HexRunEnd(s, p)
  {
    assert s[i..p + 1] == s[i..p] + [s[p]];
    HexFoldSnoc(s[i..p], s[p]);
  }

  lemma {:induction false} HexFoldSnoc(run: seq<CChar>, c: CChar)
    ensures HexFold(run + [c])
         == if c == 'x' || c == 'X' then 0 else WrapI64(HexFold(run) * 16 + HexValue(c))
  {
    assert (run + [c])[..|run|] == run;
  }

  /** Everything before an 'x' or 'X' is forgotten: the accumulator restarts after it. */
  lemma {:induction false} HexFoldResetsAtX(a: seq<CChar>, x: CChar, b: seq<CChar>)
    requires x == 'x' || x == 'X'
    ensures HexFold(a + [x] + b) == HexFold(b)
    decreases |b|
  {
    if b == [] {
      assert a + [x] + b == a + [x];
    } else {
      var b' := b[..|b| - 1];
      assert (a + [x] + b)[..|a + [x] + b| - 1] == a + [x] + b';
      HexFoldResetsAtX(a, x, b');
    }
  }

  /** Upper-case hex digits fold back to the value they were written from. */
  lemma {:induction false} HexFoldOfDigits(v: nat)
    requires v < TWO_32
    ensures HexFold(ToDigits(v, 16, false)) == v
    decreases v
  {
    var s := ToDigits(v, 16, false);
    if v >= 16 {
      HexFoldOfDigits(v / 16);
      assert s[..|s| - 1] == ToDigits(v / 16, 16, false);
    }
  }

  /** `mzn_xtoi` reads back every 32-bit number upper-case `mzn_itoa` writes in base 16. */
  lemma {:induction false} XtoiItoaRoundTrip(n: i32, size: nat)
    requires size >= 9
    ensures XtoiValue(ItoaText(n, 16, false, size)) == n
  {
    var v := Magnitude(n, 16);
    assert Pow(16, 8) == TWO_32;
    DigitCountBound(v, 16, 8);
    ItoaTextFull(n, 16, false, size);
    HexFoldOfDigits(v);
    forall k | 0 <= k < |ToDigits(v, 16, false)| ensures IsHex(ToDigits(v, 16, false)[k]) {
      HexDigitsOfUpper(v, k);
    }
    ReadHexNumeral(ToDigits(v, 16, false));
    assert ItoaText(n, 16, false, size) == ToDigits(v, 16, false);
    assert HexFold(ToDigits(v, 16, false)) == v;
    WrapOfUnsigned(n);
    assert v == AsU32(n);
  }

  /** A run of hex digits is read whole: `mzn_xtoi` returns its folded value truncated to 32 bits. */
  lemma {:induction false} ReadHexNumeral(ds: seq<CChar>)
    requires |ds| >= 1 && forall k :: 0 <= k < |ds| ==> IsHex(ds[k])
    ensures XtoiValue(ds) == WrapI32(HexFold(ds))
  {
    assert CharAt(ds, 0) == ds[0] && !IsWhitespace(ds[0]);
    assert SpaceEnd(ds, 0) == 0;
    HexRunAll(ds);
    assert ds[0..|ds|] == ds;
  }

  /** Reading the unsigned 32-bit image of `n` back as signed gives `n`. */
  lemma {:induction false} WrapOfUnsigned(n: i32)
    ensures WrapI32(AsU32(n)) == n
  {
  }

  lemma {:induction false} HexDigitsOfUpper(v: nat, k: nat)
    requires k < |ToDigits(v, 16, false)|
    ensures IsHex(ToDigits(v, 16, false)[k])
    decreases v
  {
    if v >= 16 {
      var s := ToDigits(v / 16, 16, false);
      if k < |s| {
        HexDigitsOfUpper(v / 16, k);
      }
    }
  }

  lemma {:induction false} HexRunAll(t: seq<CChar>)
    requires forall k :: 0 <= k < |t| ==> IsHexOrX(t[k])
    ensures HexRunEnd(t, 0) == |t|
  {
    HexRunFrom(t, 0);
  }

  lemma {:induction false} HexRunFrom(t: seq<CChar>, i: nat)
    requires i <= |t|
    requires forall k :: 0 <= k < |t| ==> IsHexOrX(t[k])
    ensures HexRunEnd(t, i) == |t|
    decreases |t| - i
  {
    if i < |t| {
      HexRunFrom(t, i + 1);
    }
  }

  /** Lower-case `mzn_itoa` writes 255 in base 16 as "ff". */
  lemma {:induction false} ItoaLowerHex255()
    ensures ItoaText(255, 16, true, 64) == ['f', 'f']
  {
    assert ToDigits(255, 16, true) == ToDigits(15, 16, true) + ['f'];
  }

  /**
   * Lower-case hex does not read back: `mzn_cxtou('f')` is 47, so the "ff"
   * of `ItoaLowerHex255` reads as 47 * 16 + 47.
   */
  lemma {:induction false} XtoiLowercaseMisreads()
    ensures XtoiValue(['f', 'f']) == 799
  {
    var s: seq<CChar> := ['f', 'f'];
    assert HexValue('f') == 47;
    ReadHexNumeral(s);
    HexFoldSnoc([], 'f');
    HexFoldSnoc(['f'], 'f');
    assert ['f'] + ['f'] == s;
  }
}
