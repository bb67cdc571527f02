/**
 * What the formatter of mzncore.h promises, and where it does not: proved
 * about the functions of `FormatSpec`, which the methods of `FormatEngine`
 * and `FormatDriver` are proved to implement.
 */
module FormatProps {
  import opened Wrappers
  import opened CBytes
  import opened CharClass
  import opened CStrings
  import opened IntText
  import opened FormatParser
  import opened FormatRegistry
  import opened FormatSpec
  import opened FormatEngine

  // ------------------------------------------------------------------------
  // Directive parsing

  /**
   * The flags `-` and `0` may come in any order and repeat: the flag run is
   * made of flag bytes only, and each flag is set iff it occurs in the run.
   */
  lemma {:induction false} FlagsAnyOrder(root: seq<CChar>, max: nat, i: nat)
    requires i <= max <= |root|
    ensures var f := ReadFlags(root, max, i);
      && (forall k :: i <= k < f.end ==> IsFormatFlag(root[k]))
      && (f.left <==> exists k :: i <= k < f.end && root[k] == '-')
      && (f.pad <==> exists k :: i <= k < f.end && root[k] == '0')
    decreases max - i
  {
    var c := ByteAt(root, max, i);
    if IsFormatFlag(c) {
      FlagsAnyOrder(root, max, i + 1);
      var f, g := ReadFlags(root, max, i), ReadFlags(root, max, i + 1);
      assert f.end == g.end && root[i] == c;
      if g.left {
        var k :| i + 1 <= k < g.end && root[k] == '-';
        assert i <= k < f.end && root[k] == '-';
      }
      if g.pad {
        var k :| i + 1 <= k < g.end && root[k] == '0';
        assert i <= k < f.end && root[k] == '0';
      }
    }
  }

  /**
   * A '.' sets `truncate`; a '.' followed by neither a digit nor '*' means
   * precision 0; without a '.' the precision is -1.
   */
  lemma {:induction false} PrecisionRules(root: seq<CChar>, max: nat, i: nat, args: seq<Arg>)
    requires i <= max <= |root|
    ensures var d := ParseDirective(root, max, i, args);
      var w := ReadCount(root, max, ReadFlags(root, max, i).end, args, 0);
      var dot := ByteAt(root, max, w.end) == '.';
      && (d.truncate <==> dot)
      && (!dot ==> d.precision == -1)
      && (dot && ByteAt(root, max, w.end + 1) != '*' && !IsNumeric(ByteAt(root, max, w.end + 1)) ==> d.precision == 0)
  {
  }

  /** `*` for the width takes the first argument; the specifier's own value is the next one. */
  lemma {:induction false} StarWidthTakesArgFirst(root: seq<CChar>, max: nat, i: nat, args: seq<Arg>)
    requires i <= max <= |root|
    requires var e := ReadFlags(root, max, i).end; ByteAt(root, max, e) == '*' && ByteAt(root, max, e + 1) != '.'
    ensures var d := ParseDirective(root, max, i, args);
      d.width == IntOf(args) && d.precision == -1 && d.rest == Rest(args)
  {
  }

  /** `*.*` takes the width, then the precision, from the first two arguments, in that order. */
  lemma {:induction false} StarStarTakesTwoArgs(root: seq<CChar>, max: nat, i: nat, args: seq<Arg>)
    requires i <= max <= |root|
    requires var e := ReadFlags(root, max, i).end;
      ByteAt(root, max, e) == '*' && ByteAt(root, max, e + 1) == '.' && ByteAt(root, max, e + 2) == '*'
    ensures var d := ParseDirective(root, max, i, args);
      d.width == IntOf(args) && d.precision == IntOf(Rest(args)) && d.rest == Rest(Rest(args))
  {
  }

  /** A digit run as the width is read by `mzn_atoi` and consumes no argument. */
  lemma {:induction false} DigitWidth(root: seq<CChar>, max: nat, i: nat, args: seq<Arg>)
    requires i <= max <= |root|
    requires IsNumeric(ByteAt(root, max, ReadFlags(root, max, i).end))
    ensures var e := ReadFlags(root, max, i).end;
      var d := ParseDirective(root, max, i, args);
      d.width == AtoiValue(root[e..]) && (ByteAt(root, max, DigitsEnd(root, max, e)) != '.' ==> d.rest == args)
  {
  }

  /** `h`, `l` and `ll` before the specifier are skipped: the directive is the same as without them. */
  lemma {:induction false} LengthModifiersSkipped(c: CChar, mods: seq<CChar>, args: seq<Arg>)
    requires mods == ['h'] || mods == ['l'] || mods == ['l', 'l']
    requires c != NUL && c != 'l' && c != 'h' && c != '*' && c != '.' && !IsFormatFlag(c) && !IsNumeric(c)
    ensures var d0 := ParseDirective([c], 1, 0, args);
      ParseDirective(mods + [c], |mods| + 1, 0, args) == d0.(next := d0.next + |mods|)
  {
    var root := mods + [c];
    assert root[|mods|] == c;
    if mods == ['l', 'l'] {
      assert root[0] == 'l' && root[1] == 'l';
    } else {
      assert root[0] == mods[0];
    }
  }

  /** On a hit the handler sees a width of at least 0 and a precision of 6 when none was given. */
  lemma {:induction false} HandlerSeesDefaults(w: int, p: int)
    ensures HandlerWidth(w) == Max(w, 0)
    ensures HandlerPrecision(p) == if p >= 0 then p else 6
  {
  }

  // ------------------------------------------------------------------------
  // Padding

  /** The padded text has `min(max(width, len), max - 1)` bytes. */
  lemma {:induction false} PaddedLength(s: seq<CChar>, width: int, left: bool, zero: bool, max: nat)
    requires max >= 1
    ensures |PaddedText(s, width, left, zero, max)| == Min(Max(width, |s|), max - 1)
  {
  }

  /**
   * With room for the whole field, a left-aligned field is the text, then
   * padding; a right-aligned one is padding, then the text; the pad byte is
   * '0' only for a zero-padded, right-aligned field.
   */
  lemma {:induction false} PaddedLayout(s: seq<CChar>, width: int, left: bool, zero: bool, max: nat)
    requires max >= 1 && |s| < width <= max - 1
    ensures var pads := Repeat(if zero && !left then '0' else ' ', width - |s|);
      PaddedText(s, width, left, zero, max) == if left then s + pads else pads + s
  {
    var pads := Repeat(PadChar(left, zero), width - |s|);
    assert (if left then s + pads else pads + s)[..width] == if left then s + pads else pads + s;
  }

  /** A field no wider than the text is the text alone, cut to `max - 1` bytes. */
  lemma {:induction false} NarrowFieldIsText(s: seq<CChar>, width: int, left: bool, zero: bool, max: nat)
    requires max >= 1 && width <= |s|
    ensures PaddedText(s, width, left, zero, max) == s[..Min(|s|, max - 1)]
  {
  }

  /** Zero padding goes before a '-' sign: `%05d` of -42 is "00-42". */
  lemma {:induction false} ZeroPadBeforeSign()
    ensures PaddedText(ItoaText(-42, 10, true, 64), 5, false, true, 64) == ['0', '0', '-', '4', '2']
  {
    assert ToDigits(42, 10, true) == ['4', '2'] by {
      assert ToDigits(4, 10, true) == ['4'];
      DivMod(42, 10);
    }
    assert ItoaText(-42, 10, true, 64) == ['-', '4', '2'];
    PaddedLayout(['-', '4', '2'], 5, false, true, 64);
    assert Repeat('0', 2) == ['0', '0'];
  }

  // ------------------------------------------------------------------------
  // Handlers

  /**
   * Every handler text is a clean C string of at most 255 bytes, so the
   * padding step measures it exactly.
   */
  lemma {:induction false} HandlerTextClean(h: Handler, precision: int, truncate: bool, args: seq<Arg>)
    ensures var t := HandlerText(h, precision, truncate, args); NUL !in t && |t| <= 255
  {
    match h
    case FormatInt => ItoaClean(IntOf(args), 10, true);
    case FormatHexLower => ItoaClean(IntOf(args), 16, true);
    case FormatHexUpper => ItoaClean(IntOf(args), 16, false);
    case FormatDouble =>
    case FormatString =>
    case FormatChar =>
  }

  /** `%s` of a string of 1024 or more bytes renders as nothing, since `mzn_strlen` answers 0. */
  lemma {:induction false} LongStringArgEmpty(s: seq<CChar>, truncate: bool, precision: int)
    requires |CStr(s)| >= MAX_STRING
    ensures StringText(Some(s), truncate, precision) == []
  {
  }

  /** `%.Ns` keeps the first N bytes of a shorter-than-1024 string (and never more than 255). */
  lemma {:induction false} PrecisionCutsString(s: seq<CChar>, n: nat)
    requires |CStr(s)| < MAX_STRING
    ensures StringText(Some(s), true, n) == CStr(s)[..Min(Min(n, |CStr(s)|), 255)]
  {
  }

  // ------------------------------------------------------------------------
  // The driver

  /** Storing the same bytes twice at the same place is the same as storing them once. */
  lemma {:induction false} OverwriteTwice(buf: seq<CChar>, at: nat, bytes: seq<CChar>)
    requires at + |bytes| <= |buf|
    ensures Overwrite(Overwrite(buf, at, bytes), at, bytes) == Overwrite(buf, at, bytes)
  {
  }

  /**
   * An iteration leaves the cursor where it was exactly when it sees a
   * literal byte with one byte of room left (`count == n - 1`).
   */
  lemma {:induction false} StallIff(root: seq<CChar>, max: nat, table: seq<Specifier>, n: nat, s: State)
    requires s.cur <= max <= |root| && s.count < n <= |s.buf| && ByteAt(root, max, s.cur) != NUL
    ensures Step(root, max, table, n, s).cur == s.cur <==> ByteAt(root, max, s.cur) != '%' && s.count == n - 1
  {
    if ByteAt(root, max, s.cur) != '%' {
      SpanStep(root, max, s.cur, '%');
      assert SpanEnd(root, max, s.cur + 1, '%') >= s.cur + 1;
    }
  }

  /**
   * A stalled iteration leads to a state whose iteration is the same: the
   * loop of the source runs for ever there, which `Run` reports as `Hang`.
   */
  lemma {:induction false} StalledStepRepeats(root: seq<CChar>, max: nat, table: seq<Specifier>, n: nat, s: State)
    requires s.cur <= max <= |root| && s.count < n <= |s.buf| && ByteAt(root, max, s.cur) != NUL
    requires Step(root, max, table, n, s).cur == s.cur
    ensures var t := Step(root, max, table, n, s); Step(root, max, table, n, t) == t
  {
    StallIff(root, max, table, n, s);
    OverwriteTwice(s.buf, s.count, [NUL]);
    assert root[s.cur..s.cur] == [];
  }

  /**
   * From any state with `count < n`, the driver keeps `count <= n - 1`,
   * stores a terminator at `count`, and changes nothing from index `n` on.
   */
  lemma {:induction false} RunBounds(root: seq<CChar>, max: nat, table: seq<Specifier>, n: nat, s: State)
    requires s.cur <= max <= |root| && s.count < n <= |s.buf|
    ensures var o := Run(root, max, table, n, s);
      o.count <= n - 1 && |o.buf| == |s.buf| && o.buf[o.count] == NUL && o.buf[n..] == s.buf[n..]
    decreases max - s.cur
  {
    if ByteAt(root, max, s.cur) != NUL {
      var t := Step(root, max, table, n, s);
      if t.cur == s.cur {
        StallIff(root, max, table, n, s);
        assert t.buf == Overwrite(s.buf, s.count, [NUL]);
      } else {
        RunBounds(root, max, table, n, t);
      }
    }
  }

  /**
   * `mzn_parse_format_string` with `n = min(size, max)` in an `int32`: with
   * `n <= 0` nothing is written and the count is 0; otherwise the count is at
   * most `n - 1`, `dest[count]` is a terminator, and nothing from `dest[n]` on
   * changes.
   */
  lemma {:induction false} FormatBounds(table: seq<Specifier>, buf: seq<CChar>, size: nat, max: nat, fmt: Option<seq<CChar>>, args: seq<Arg>)
    requires Min(size, max) <= |buf|
    ensures var o := Format(table, buf, size, max, fmt, args); var n := Limit(size, max);
      && |o.buf| == |buf|
      && (n <= 0 ==> o == Done(0, buf))
      && (n > 0 ==> o.count <= n - 1 && o.buf[o.count] == NUL && o.buf[n..] == buf[n..])
  {
    var n := Limit(size, max);
    LimitBelow(size, max);
    if n > 0 {
      RunBounds(Template(fmt), CStrLen(fmt), table, n, State(0, 0, buf, args));
    }
  }

  /** A limit `n` of at most INT32_MAX survives the `int32` store unchanged. */
  lemma {:induction false} SmallLimit(n: nat)
    requires n <= INT32_MAX
    ensures Limit(n, n) == n
  {
  }

  /** With a clean template shorter than 1024 bytes and `1 <= n <= INT32_MAX`, the driver runs over the whole template. */
  lemma {:induction false} FormatOfTemplate(table: seq<Specifier>, buf: seq<CChar>, n: nat, fmt: seq<CChar>, args: seq<Arg>)
    requires NUL !in fmt && |fmt| < MAX_STRING && 1 <= n <= |buf| && n <= INT32_MAX
    ensures Format(table, buf, n, n, Some(fmt), args) == Run(fmt, |fmt|, table, n, State(0, 0, buf, args))
  {
    SmallLimit(n);
    NulIndex(fmt, |fmt|);
    assert CStrLen(Some(fmt)) == |fmt|;
  }

  /** `%%` stores exactly one '%', and only while there is room for it and a terminator. */
  lemma {:induction false} PercentPercent(table: seq<Specifier>, buf: seq<CChar>, n: nat, args: seq<Arg>)
    requires 1 <= n <= |buf| && n <= INT32_MAX
    ensures Format(table, buf, n, n, Some(['%', '%']), args)
         == if n >= 2 then Done(1, buf[0 := '%'][1 := NUL]) else Done(0, buf[0 := NUL])
  {
    var root: seq<CChar> := ['%', '%'];
    FormatOfTemplate(table, buf, n, root, args);
    var s0 := State(0, 0, buf, args);
    var s1 := Step(root, 2, table, n, s0);
    assert s1 == if n >= 2 then State(2, 1, buf[0 := '%'], args) else State(2, 0, buf, args);
    assert Run(root, 2, table, n, s0) == Run(root, 2, table, n, s1);
  }

  /** A template without '%' that fits is copied verbatim and terminated. */
  lemma {:induction false} NoPercentTemplate(table: seq<Specifier>, buf: seq<CChar>, n: nat, fmt: seq<CChar>, args: seq<Arg>)
    requires NUL !in fmt && '%' !in fmt && |fmt| < MAX_STRING
    requires |fmt| < n <= |buf| && n <= INT32_MAX
    ensures Format(table, buf, n, n, Some(fmt), args) == Done(|fmt|, Overwrite(buf, 0, fmt + [NUL]))
  {
    FormatOfTemplate(table, buf, n, fmt, args);
    var s0 := State(0, 0, buf, args);
    if fmt == [] {
      assert Overwrite(buf, 0, [NUL]) == buf[0 := NUL];
    } else {
      LiteralSpan(fmt);
      var s1 := Step(fmt, |fmt|, table, n, s0);
      assert fmt[0] in fmt;
      assert s1 == State(|fmt|, |fmt|, Overwrite(buf, 0, fmt + [NUL]), args) by {
        assert fmt[0..|fmt|] == fmt;
      }
      assert Run(fmt, |fmt|, table, n, s0) == Run(fmt, |fmt|, table, n, s1);
      assert Overwrite(buf, 0, fmt + [NUL])[|fmt| := NUL] == Overwrite(buf, 0, fmt + [NUL]);
    }
  }

  /** In a template free of NUL and '%', a literal run reaches the end of the template. */
  lemma {:induction false} LiteralSpan(fmt: seq<CChar>)
    requires NUL !in fmt && '%' !in fmt
    ensures SpanEnd(fmt, |fmt|, 0, '%') == |fmt|
  {
  }

  /**
   * A template without '%' that does not fit: the first iteration copies
   * `n - 1` bytes, and the next one makes no progress, so the source never
   * returns.
   */
  lemma {:induction false} TruncatedLiteralHangs(table: seq<Specifier>, buf: seq<CChar>, n: nat, fmt: seq<CChar>, args: seq<Arg>)
    requires NUL !in fmt && '%' !in fmt && |fmt| < MAX_STRING
    requires 1 <= n <= |fmt| && n <= |buf| && n <= INT32_MAX
    ensures Format(table, buf, n, n, Some(fmt), args) == Hang(n - 1, Overwrite(buf, 0, fmt[..n - 1] + [NUL]))
  {
    FormatOfTemplate(table, buf, n, fmt, args);
    var s0 := State(0, 0, buf, args);
    var s1 := State(n - 1, n - 1, Overwrite(buf, 0, fmt[..n - 1] + [NUL]), args);
    TruncatedLiteralFirst(table, buf, n, fmt, args);
    if n > 1 {
      assert Run(fmt, |fmt|, table, n, s0) == Run(fmt, |fmt|, table, n, s1);
      TruncatedLiteralStall(table, n, fmt, s1);
    }
  }

  /** The first iteration over a literal that does not fit copies `n - 1` bytes and a terminator. */
  lemma {:induction false} TruncatedLiteralFirst(table: seq<Specifier>, buf: seq<CChar>, n: nat, fmt: seq<CChar>, args: seq<Arg>)
    requires NUL !in fmt && '%' !in fmt && |fmt| < MAX_STRING
    requires 1 <= n <= |fmt| && n <= |buf| && n <= INT32_MAX
    ensures Step(fmt, |fmt|, table, n, State(0, 0, buf, args)) == State(n - 1, n - 1, Overwrite(buf, 0, fmt[..n - 1] + [NUL]), args)
  {
    LiteralSpan(fmt);
    assert fmt[0] in fmt;
    assert fmt[0..n - 1] == fmt[..n - 1];
  }

  /** With the buffer full, the next iteration over the literal stalls and leaves everything as it was. */
  lemma {:induction false} TruncatedLiteralStall(table: seq<Specifier>, n: nat, fmt: seq<CChar>, s1: State)
    requires NUL !in fmt && '%' !in fmt && |fmt| < MAX_STRING
    requires 1 < n <= |fmt| && n <= |s1.buf| && s1.cur == n - 1 && s1.count == n - 1 && s1.buf[n - 1] == NUL
    ensures Step(fmt, |fmt|, table, n, s1) == s1
  {
    assert fmt[n - 1] in fmt;
    StallIff(fmt, |fmt|, table, n, s1);
    LiteralSpan(fmt);
    assert fmt[n - 1..n - 1] == [];
    assert Overwrite(s1.buf, n - 1, [NUL]) == s1.buf;
  }

  /**
   * A template ending in '%' runs the unmatched-specifier branch on the
   * terminator: it stores '%', NUL, NUL and counts 2, so the count exceeds the
   * length of the C string it leaves (1).
   */
  lemma {:induction false} TrailingPercentMiscounts(buf: seq<CChar>, n: nat, args: seq<Arg>)
    requires 3 <= n <= |buf| && n <= INT32_MAX
    ensures var o := Format(DefaultTable, buf, n, n, Some(['%']), args);
      o.Done? && o.count == 2 && |o.buf| == |buf| && o.buf[0] == '%' && o.buf[1] == NUL && CStr(o.buf) == ['%']
  {
    var root: seq<CChar> := ['%'];
    FormatOfTemplate(DefaultTable, buf, n, root, args);
    TrailingPercentFirst(buf, n, args);
    var s0 := State(0, 0, buf, args);
    var b1 := Overwrite(buf, 0, ['%', NUL, NUL]);
    var s1 := State(1, 2, b1, args);
    assert Run(root, 1, DefaultTable, n, s0) == Run(root, 1, DefaultTable, n, s1);
    TrailingPercentBuffer(buf, n);
  }

  /** The first iteration of `%` alone emits the unmatched-specifier bytes. */
  lemma {:induction false} TrailingPercentFirst(buf: seq<CChar>, n: nat, args: seq<Arg>)
    requires 3 <= n <= |buf| && n <= INT32_MAX
    ensures Step(['%'], 1, DefaultTable, n, State(0, 0, buf, args)) == State(1, 2, Overwrite(buf, 0, ['%', NUL, NUL]), args)
  {
    LonePercent(n, args);
  }

  /** The final terminator leaves the C string `%`. */
  lemma {:induction false} TrailingPercentBuffer(buf: seq<CChar>, n: nat)
    requires 3 <= n <= |buf|
    ensures var b := Overwrite(buf, 0, ['%', NUL, NUL])[2 := NUL];
      |b| == |buf| && b[0] == '%' && b[1] == NUL && CStr(b) == ['%']
  {
    var b1 := Overwrite(buf, 0, ['%', NUL, NUL]);
    var b := b1[2 := NUL];
    assert b1[0..3] == ['%', NUL, NUL];
    assert b[0] == '%' && b[1] == NUL;
    NulIndex(b, 1);
  }

  /** The directive after a final '%' reads the terminator as its symbol, which is not registered. */
  lemma {:induction false} LonePercent(n: nat, args: seq<Arg>)
    requires n >= 3
    ensures var d := ParseDirective(['%'], 1, 1, args);
      d.next == 1 && DirectiveOutput(DefaultTable, d, n) == Emit(2, ['%', NUL, NUL], args)
  {
    var d := ParseDirective(['%'], 1, 1, args);
    assert d == Directive(false, false, 0, -1, false, NUL, 1, args);
    assert Lookup(DefaultTable, NUL).None?;
  }

  /** A template of 1024 or more bytes reads as empty: the output is the empty string. */
  lemma {:induction false} LongTemplateEmpty(table: seq<Specifier>, buf: seq<CChar>, n: nat, fmt: seq<CChar>, args: seq<Arg>)
    requires |CStr(fmt)| >= MAX_STRING && 1 <= n <= |buf| && n <= INT32_MAX
    ensures Format(table, buf, n, n, Some(fmt), args) == Done(0, buf[0 := NUL])
  {
    SmallLimit(n);
  }
}
