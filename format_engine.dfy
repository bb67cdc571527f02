/**
 * `mzn_apply_padding` and the default handlers of mzncore.h, on arrays, each
 * proved to store what `FormatSpec` says.
 */
module FormatEngine {
  import opened Wrappers
  import opened CBytes
  import opened CStrings
  import opened IntText
  import opened FormatRegistry
  import opened FormatSpec

  /** The text `mzn_apply_padding` measures with `mzn_strlen`: empty for 1024+ bytes. */
  function PaddingInput(str: seq<CChar>): seq<CChar>
  {
    CStr(str)[..CStrLen(Some(str))]
  }

  /** A NUL-free text shorter than 1024 bytes, followed by a terminator, is measured exactly. */
  lemma {:induction false} PaddingInputOf(str: seq<CChar>, t: seq<CChar>)
    requires |t| < |str| && str[..|t|] == t && str[|t|] == NUL && NUL !in t && |t| < MAX_STRING
    ensures PaddingInput(str) == t
  {
    NulIndex(str, |t|);
  }

  /** A text with no NUL and fewer than 1024 bytes is its own measured text. */
  lemma {:induction false} PaddingInputSelf(t: seq<CChar>)
    requires NUL !in t && |t| < MAX_STRING
    ensures PaddingInput(t) == t
  {
    NulIndex(t, |t|);
  }

  /** The full field: the text, then padding (left-aligned), or padding, then the text. */
  function Field(s: seq<CChar>, width: int, left: bool, zero: bool): (f: seq<CChar>)
    requires width > |s|
    ensures |f| == width
  {
    var pads := Repeat(PadChar(left, zero), width - |s|);
    if left then s + pads else pads + s
  }

  /** Store `b` at `at + |done|`, extending the run `done` already stored from `at`. */
  method Put(buf: array<CChar>, at: nat, i: nat, ghost b0: seq<CChar>, ghost done: seq<CChar>, b: CChar)
    requires i == |done| && |b0| == buf.Length && at + i < buf.Length && buf[..] == Overwrite(b0, at, done)
    modifies buf
    ensures buf[..] == Overwrite(b0, at, done + [b])
  {
    OverwriteExtend(b0, at, done, b);
    buf[at + i] := b;
  }

  /**
   * One copy loop of `mzn_apply_padding`: store `str[k]` at field position
   * `start + k` while `k < len` and the count stays below `limit`.
   */
  method CopyText(buf: array<CChar>, at: nat, ghost b0: seq<CChar>, ghost field: seq<CChar>,
                  start: nat, str: seq<CChar>, len: nat, limit: nat) returns (count: nat)
    requires |b0| == buf.Length && start <= limit && at + limit < buf.Length && len <= |str|
    requires Min(start + len, limit) <= |field|
    requires forall k :: start <= k < Min(start + len, limit) ==> field[k] == str[k - start]
    requires buf[..] == Overwrite(b0, at, field[..start])
    modifies buf
    ensures count == Min(start + len, limit) && buf[..] == Overwrite(b0, at, field[..count])
  {
    var i := 0;
    count := start;
    while i < len && count < limit
      invariant i <= len && count == start + i <= limit && buf[..] == Overwrite(b0, at, field[..count])
    {
      assert field[..count + 1] == field[..count] + [str[i]];
      Put(buf, at, count, b0, field[..count], str[i]);
      i, count := i + 1, count + 1;
    }
  }

  /** One padding loop of `mzn_apply_padding`: store `c` up to `n` times while the count stays below `limit`. */
  method Fill(buf: array<CChar>, at: nat, ghost b0: seq<CChar>, ghost field: seq<CChar>,
              start: nat, c: CChar, n: nat, limit: nat) returns (count: nat)
    requires |b0| == buf.Length && start <= limit && at + limit < buf.Length
    requires Min(start + n, limit) <= |field|
    requires forall k :: start <= k < Min(start + n, limit) ==> field[k] == c
    requires buf[..] == Overwrite(b0, at, field[..start])
    modifies buf
    ensures count == Min(start + n, limit) && buf[..] == Overwrite(b0, at, field[..count])
  {
    var j := 0;
    count := start;
    while j < n && count < limit
      invariant j <= n && count == start + j <= limit && buf[..] == Overwrite(b0, at, field[..count])
    {
      assert field[..count + 1] == field[..count] + [c];
      Put(buf, at, count, b0, field[..count], c);
      j, count := j + 1, count + 1;
    }
  }

  /** Where the text and the padding sit inside the field. */
  lemma {:induction false} FieldLayout(s: seq<CChar>, width: int, left: bool, zero: bool)
    requires width > |s|
    ensures var f, pad := Field(s, width, left, zero), width - |s|;
      (left ==> (forall k :: 0 <= k < |s| ==> f[k] == s[k]) && (forall k :: |s| <= k < width ==> f[k] == PadChar(left, zero))) &&
      (!left ==> (forall k :: 0 <= k < pad ==> f[k] == PadChar(left, zero)) && (forall k :: pad <= k < width ==> f[k] == s[k - pad]))
  {
  }

  /**
   * `mzn_apply_padding(ctx, str, buf, max)` with `buf` at `at`: store
   * `PaddedText` of the measured text, using the context's width and flags,
   * then a terminator.
   */
  method ApplyPadding(ctx: FormatContext, str: seq<CChar>, buf: array<CChar>, at: nat, max: nat) returns (count: nat)
    requires max >= 1 && at + max <= buf.Length
    modifies buf
    ensures var out := PaddedText(PaddingInput(str), ctx.width, ctx.leftAlign, ctx.zeroPad, max);
      count == |out| && buf[..] == Overwrite(old(buf[..]), at, out + [NUL])
  {
    ghost var b0 := buf[..];
    ghost var s := PaddingInput(str);
    var len := StrLen(Some(str));
    assert |s| == len && s == str[..len];
    var width := ctx.width;
    assert buf[..] == Overwrite(b0, at, s[..0]);
    if width <= len || max <= len {
      count := CopyText(buf, at, b0, s, 0, str, len, max - 1);
    } else {
      count := PadField(buf, at, b0, s, str, len, width, ctx.leftAlign, ctx.zeroPad, max - 1);
    }
    Put(buf, at, count, b0, PaddedText(s, width, ctx.leftAlign, ctx.zeroPad, max), NUL);
  }

  /** The padded case of `mzn_apply_padding`, before the terminator. */
  method PadField(buf: array<CChar>, at: nat, ghost b0: seq<CChar>, ghost s: seq<CChar>,
                  str: seq<CChar>, len: nat, width: int, left: bool, zero: bool, limit: nat) returns (count: nat)
    requires |b0| == buf.Length && at + limit < buf.Length && len <= |str| && s == str[..len]
    requires width > len && limit >= len
    requires buf[..] == Overwrite(b0, at, [])
    modifies buf
    ensures count == |PaddedText(s, width, left, zero, limit + 1)|
    ensures buf[..] == Overwrite(b0, at, PaddedText(s, width, left, zero, limit + 1))
  {
    var padLen := width - len;
    ghost var field := Field(s, width, left, zero);
    FieldLayout(s, width, left, zero);
    var padChar: CChar := if zero && !left then '0' else ' ';
    assert field[..0] == [];
    if left {
      count := TextThenPad(buf, at, b0, field, str, len, padChar, padLen, limit);
    } else {
      count := PadThenText(buf, at, b0, field, str, len, padChar, padLen, limit);
    }
  }

  /** Left-aligned: the text, then `padLen` pad bytes, while the count stays below `limit`. */
  method TextThenPad(buf: array<CChar>, at: nat, ghost b0: seq<CChar>, ghost field: seq<CChar>,
                     str: seq<CChar>, len: nat, c: CChar, padLen: nat, limit: nat) returns (count: nat)
    requires |b0| == buf.Length && at + limit < buf.Length && len <= |str| && len + padLen == |field|
    requires forall k :: 0 <= k < len ==> field[k] == str[k]
    requires forall k :: len <= k < |field| ==> field[k] == c
    requires buf[..] == Overwrite(b0, at, field[..0])
    modifies buf
    ensures count == Min(|field|, limit) && buf[..] == Overwrite(b0, at, field[..count])
  {
    count := CopyText(buf, at, b0, field, 0, str, len, limit);
    count := Fill(buf, at, b0, field, count, c, padLen, limit);
  }

  /** Right-aligned: `padLen` pad bytes, then the text, while the count stays below `limit`. */
  method PadThenText(buf: array<CChar>, at: nat, ghost b0: seq<CChar>, ghost field: seq<CChar>,
                     str: seq<CChar>, len: nat, c: CChar, padLen: nat, limit: nat) returns (count: nat)
    requires |b0| == buf.Length && at + limit < buf.Length && len <= |str| && len + padLen == |field|
    requires forall k :: 0 <= k < padLen ==> field[k] == c
    requires forall k :: padLen <= k < |field| ==> field[k] == str[k - padLen]
    requires buf[..] == Overwrite(b0, at, field[..0])
    modifies buf
    ensures count == Min(|field|, limit) && buf[..] == Overwrite(b0, at, field[..count])
  {
    count := Fill(buf, at, b0, field, 0, c, padLen, limit);
    count := CopyText(buf, at, b0, field, count, str, len, limit);
  }

  // ------------------------------------------------------------------------
  // The default handlers (`mzn_format_*`)

  /** An integer text in a 64-byte buffer is a clean C string: no NUL, fewer than 64 bytes. */
  lemma {:induction false} ItoaClean(num: i32, base: i32, lower: bool)
    requires base == 10 || base == 16
    ensures var t := ItoaText(num, base, lower, 64); NUL !in t && |t| < 64
  {
    ItoaTextLength(num, base, lower, 64);
    var digits := ToDigits(Magnitude(num, base), base, lower);
    ToDigitsAlphabet(Magnitude(num, base), base, lower);
    var t := ItoaText(num, base, lower, 64);
    var s := if SignedDecimal(num, base) then 1 else 0;
    forall k | 0 <= k < |t| ensures t[k] != NUL {
      if k >= s {
        assert t[k] == digits[k - s] && digits[k - s] in digits;
      }
    }
  }

  /**
   * `mzn_format_int`, `mzn_format_hex_lower` and `mzn_format_hex_upper`:
   * `mzn_itoa` of the next `int` into a 64-byte buffer, then padding.
   */
  method FormatNumber(ctx: FormatContext, buf: array<CChar>, at: nat, max: nat, args: seq<Arg>,
                      base: i32, lower: bool) returns (count: nat, rest: seq<Arg>)
    requires base == 10 || base == 16
    requires max >= 1 && at + max <= buf.Length
    modifies buf
    ensures var out := PaddedText(ItoaText(IntOf(args), base, lower, 64), ctx.width, ctx.leftAlign, ctx.zeroPad, max);
      count == |out| && buf[..] == Overwrite(old(buf[..]), at, out + [NUL]) && rest == Rest(args)
  {
    var tmp := new CChar[64];
    var r := Itoa(IntOf(args), base, lower, tmp, 64);
    ItoaClean(IntOf(args), base, lower);
    PaddingInputOf(tmp[..], tmp[..r]);
    count := ApplyPadding(ctx, tmp[..], buf, at, max);
    rest := Rest(args);
  }

  /**
   * `mzn_format_double`: the text `mzn_dtoa` leaves in a 128-byte buffer at
   * the context's precision, then padding.
   */
  method FormatDoubleArg(ctx: FormatContext, buf: array<CChar>, at: nat, max: nat, args: seq<Arg>)
    returns (count: nat, rest: seq<Arg>)
    requires max >= 1 && at + max <= buf.Length
    modifies buf
    ensures var out := PaddedText(DoubleText(args, ctx.precision), ctx.width, ctx.leftAlign, ctx.zeroPad, max);
      count == |out| && buf[..] == Overwrite(old(buf[..]), at, out + [NUL]) && rest == Rest(args)
  {
    var tmp := DoubleText(args, ctx.precision);
    PaddingInputSelf(tmp);
    count := ApplyPadding(ctx, tmp, buf, at, max);
    rest := Rest(args);
  }

  /**
   * `mzn_format_string`: the next `const char *`, cut to the precision when
   * the directive had a '.', copied into a 256-byte buffer, then padding.
   */
  method FormatStringArg(ctx: FormatContext, buf: array<CChar>, at: nat, max: nat, args: seq<Arg>)
    returns (count: nat, rest: seq<Arg>)
    requires max >= 1 && at + max <= buf.Length
    modifies buf
    ensures var out := PaddedText(StringText(StrOf(args), ctx.truncate, ctx.precision), ctx.width, ctx.leftAlign, ctx.zeroPad, max);
      count == |out| && buf[..] == Overwrite(old(buf[..]), at, out + [NUL]) && rest == Rest(args)
  {
    var s := StrOf(args);
    var strLen := StrLen(s);
    if ctx.truncate {
      if ctx.precision >= 0 && ctx.precision < strLen {
        strLen := ctx.precision;
      }
    }
    var tmp, i := CopyCapped(s, strLen);
    assert tmp[..i] == StringText(s, ctx.truncate, ctx.precision);
    PaddingInputOf(tmp[..], tmp[..i]);
    count := ApplyPadding(ctx, tmp[..], buf, at, max);
    rest := Rest(args);
  }

  /** The copy loop of `mzn_format_string`: at most 255 bytes of the string into a fresh 256-byte buffer, then a terminator. */
  method CopyCapped(s: Option<seq<CChar>>, strLen: nat) returns (tmp: array<CChar>, i: nat)
    requires strLen <= CStrLen(s)
    ensures fresh(tmp) && tmp.Length == 256 && i == Min(strLen, 255) && tmp[i] == NUL
    ensures s.Some? ==> tmp[..i] == CStr(s.value)[..i]
  {
    tmp := new CChar[256];
    i := 0;
    while i < strLen && i < 255
      invariant i <= strLen && i <= 255
      invariant s.Some? ==> tmp[..i] == CStr(s.value)[..i]
      invariant s.None? ==> strLen == 0
    {
      tmp[i] := s.value[i];
      i := i + 1;
    }
    tmp[i] := NUL;
  }

  /** `mzn_format_char`: the next `int`, narrowed to a byte, as a one-byte C string, then padding. */
  method FormatCharArg(ctx: FormatContext, buf: array<CChar>, at: nat, max: nat, args: seq<Arg>)
    returns (count: nat, rest: seq<Arg>)
    requires max >= 1 && at + max <= buf.Length
    modifies buf
    ensures var out := PaddedText(CharText(args), ctx.width, ctx.leftAlign, ctx.zeroPad, max);
      count == |out| && buf[..] == Overwrite(old(buf[..]), at, out + [NUL]) && rest == Rest(args)
  {
    var ch := Narrow(IntOf(args));
    var tmp := new CChar[2];
    tmp[0] := ch;
    tmp[1] := NUL;
    PaddingInputOf(tmp[..], CharText(args));
    count := ApplyPadding(ctx, tmp[..], buf, at, max);
    rest := Rest(args);
  }

  /** The call through a registered handler's function pointer. */
  method Dispatch(h: Handler, ctx: FormatContext, buf: array<CChar>, at: nat, max: nat, args: seq<Arg>)
    returns (count: nat, rest: seq<Arg>)
    requires max >= 1 && at + max <= buf.Length
    modifies buf
    ensures var out := PaddedText(HandlerText(h, ctx.precision, ctx.truncate, args), ctx.width, ctx.leftAlign, ctx.zeroPad, max);
      count == |out| && buf[..] == Overwrite(old(buf[..]), at, out + [NUL]) && rest == Rest(args)
  {
    match h
    case FormatInt => count, rest := FormatNumber(ctx, buf, at, max, args, 10, true);
    case FormatHexLower => count, rest := FormatNumber(ctx, buf, at, max, args, 16, true);
    case FormatHexUpper => count, rest := FormatNumber(ctx, buf, at, max, args, 16, false);
    case FormatDouble => count, rest := FormatDoubleArg(ctx, buf, at, max, args);
    case FormatString => count, rest := FormatStringArg(ctx, buf, at, max, args);
    case FormatChar => count, rest := FormatCharArg(ctx, buf, at, max, args);
  }
}
