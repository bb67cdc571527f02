/**
 * `mzn_parser_copy_var`, `mzn_parse_format_string` and `mzn_vsnprintf` of
 * mzncore.h on the parser and context objects, each proved to do what
 * `FormatSpec` says.
 */
module FormatDriver {
  import opened Wrappers
  import opened CBytes
  import opened CharClass
  import opened CStrings
  import opened IntText
  import opened FormatParser
  import opened FormatRegistry
  import opened FormatSpec
  import opened FormatEngine
  import opened FormatSteps

  /** The flag loop of `mzn_parser_copy_var`: consume `-` and `0` until another byte. */
  method ReadFlagsOf(p: Parser) returns (left: bool, pad: bool)
    requires p.Valid()
    modifies p
    ensures p.Valid() && Flags(left, pad, p.cur) == ReadFlags(p.root, p.max, old(p.cur))
  {
    ghost var start := p.cur;
    left, pad := false, false;
    var c := p.At();
    while c == '-' || c == '0'
      invariant p.Valid() && c == p.At()
      invariant var f := ReadFlags(p.root, p.max, p.cur);
        ReadFlags(p.root, p.max, start) == Flags(left || f.left, pad || f.pad, f.end)
      decreases p.max - p.cur
    {
      if c == '-' {
        left := true;
      } else {
        pad := true;
      }
      var skipped := p.Next();
      c := p.At();
    }
  }

  /** `while (mzn_parser_at(p) >= '0' && mzn_parser_at(p) <= '9') mzn_parser_next(p);` */
  method SkipDigits(p: Parser)
    requires p.Valid()
    modifies p
    ensures p.Valid() && p.cur == DigitsEnd(p.root, p.max, old(p.cur))
  {
    ghost var start := p.cur;
    while IsNumeric(p.At())
      invariant p.Valid() && DigitsEnd(p.root, p.max, p.cur) == DigitsEnd(p.root, p.max, start)
      decreases p.max - p.cur
    {
      var skipped := p.Next();
    }
  }

  /**
   * A width, or a precision after its '.': `*` takes the next `int`, a digit
   * makes `mzn_atoi` read the raw text from the cursor before the digits are
   * skipped, and anything else leaves `absent`.
   */
  method ReadCountOf(p: Parser, args: seq<Arg>, absent: int) returns (value: int, rest: seq<Arg>)
    requires p.Valid()
    modifies p
    ensures p.Valid() && Count(value, p.cur, rest) == ReadCount(p.root, p.max, old(p.cur), args, absent)
  {
    var c := p.At();
    value, rest := absent, args;
    if c == '*' {
      var skipped := p.Next();
      value, rest := IntOf(args), Rest(args);
    } else if '0' <= c <= '9' {
      value := AtoiLoop(Some(p.AtRaw()));
      SkipDigits(p);
    }
  }

  /** The length modifiers: skip one `h` or `l`, and a second `l` after an `l`. */
  method SkipLengthOf(p: Parser)
    requires p.Valid()
    modifies p
    ensures p.Valid() && p.cur == SkipLength(p.root, p.max, old(p.cur))
  {
    var c := p.At();
    if c == 'l' || c == 'h' {
      var skipped := p.Next();
      if c == 'l' && p.At() == 'l' {
        skipped := p.Next();
      }
    }
  }

  /** The precision: after a '.', which sets `truncate`, a count; otherwise -1. */
  method ReadPrecisionOf(ctx: FormatContext, p: Parser, args: seq<Arg>) returns (precision: int, rest: seq<Arg>)
    requires p.Valid()
    modifies p, ctx`truncate
    ensures p.Valid() && ctx.truncate == (ByteAt(p.root, p.max, old(p.cur)) == '.')
    ensures Count(precision, p.cur, rest)
         == if ctx.truncate then ReadCount(p.root, p.max, old(p.cur) + 1, args, 0) else Count(-1, old(p.cur), args)
  {
    ctx.truncate := false;
    precision, rest := -1, args;
    if p.At() == '.' {
      ctx.truncate := true;
      var skipped := p.Next();
      precision, rest := ReadCountOf(p, args, 0);
    }
  }

  /** The part of `mzn_parser_copy_var` before the dispatch: parse the directive whose `%` is consumed. */
  method ParseDirectiveOf(ctx: FormatContext, p: Parser, args: seq<Arg>) returns (d: Directive)
    requires p.Valid()
    modifies p, ctx`truncate
    ensures p.Valid() && d == ParseDirective(p.root, p.max, old(p.cur), args) && p.cur == d.next
    ensures ctx.truncate == d.truncate
  {
    ghost var start := p.cur;
    var left, pad := ReadFlagsOf(p);
    ghost var f := Flags(left, pad, p.cur);
    assert f == ReadFlags(p.root, p.max, start);
    var width, rest := ReadCountOf(p, args, 0);
    ghost var w := Count(width, p.cur, rest);
    assert w == ReadCount(p.root, p.max, f.end, args, 0);
    var precision;
    precision, rest := ReadPrecisionOf(ctx, p, rest);
    ghost var pc := Count(precision, p.cur, rest);
    assert pc == if ByteAt(p.root, p.max, w.end) == '.' then ReadCount(p.root, p.max, w.end + 1, w.rest, 0)
                 else Count(-1, w.end, w.rest);
    SkipLengthOf(p);
    ghost var m := p.cur;
    assert m == SkipLength(p.root, p.max, pc.end);
    var c := p.Next();
    ParseDirectiveParts(p.root, p.max, start, args, f, w, pc, m);
    d := Directive(left, pad, width, precision, ctx.truncate, c, p.cur, rest);
  }

  /**
   * `mzn_parser_copy_var` writing at `buf[at..]` with `size` bytes of room:
   * reset the context's directive fields, parse the directive, and either
   * hand it to the registered handler with the width, precision and flags it
   * sees, or store the unmatched '%' and symbol.
   */
  method CopyVar(ctx: FormatContext, p: Parser, buf: array<CChar>, at: nat, size: nat, args: seq<Arg>)
    returns (count: nat, rest: seq<Arg>)
    requires ctx.Valid() && p.Valid() && size >= 1 && at + size <= buf.Length
    modifies ctx`width, ctx`precision, ctx`truncate, ctx`leftAlign, ctx`zeroPad, p, buf
    ensures ctx.Valid() && p.Valid()
    ensures var d := ParseDirective(p.root, p.max, old(p.cur), args);
      var e := DirectiveOutput(ctx.Table(), d, size);
      && p.cur == d.next && count == e.count && rest == e.rest
      && buf[..] == Overwrite(old(buf[..]), at, e.bytes)
      && ctx.truncate == d.truncate
      && (Lookup(ctx.Table(), d.symbol).Some? ==>
            ctx.width == HandlerWidth(d.width) && ctx.precision == HandlerPrecision(d.precision)
            && ctx.leftAlign == d.left && ctx.zeroPad == d.pad)
      && (Lookup(ctx.Table(), d.symbol).None? ==>
            ctx.width == -1 && ctx.precision == -1 && !ctx.leftAlign && !ctx.zeroPad)
  {
    ctx.precision := -1;
    ctx.width := -1;
    ctx.leftAlign := false;
    ctx.zeroPad := false;
    var d := ParseDirectiveOf(ctx, p, args);
    count, rest := DispatchDirective(ctx, d, buf, at, size);
  }

  /** The dispatch of `mzn_parser_copy_var` for the parsed directive `d`. */
  method DispatchDirective(ctx: FormatContext, d: Directive, buf: array<CChar>, at: nat, size: nat)
    returns (count: nat, rest: seq<Arg>)
    requires ctx.Valid() && size >= 1 && at + size <= buf.Length
    requires ctx.width == -1 && ctx.precision == -1 && !ctx.leftAlign && !ctx.zeroPad && ctx.truncate == d.truncate
    modifies ctx`width, ctx`precision, ctx`leftAlign, ctx`zeroPad, buf
    ensures ctx.Valid()
    ensures var e := DirectiveOutput(ctx.Table(), d, size);
      && count == e.count && rest == e.rest && buf[..] == Overwrite(old(buf[..]), at, e.bytes)
      && (Lookup(ctx.Table(), d.symbol).Some? ==>
            ctx.width == HandlerWidth(d.width) && ctx.precision == HandlerPrecision(d.precision)
            && ctx.leftAlign == d.left && ctx.zeroPad == d.pad)
      && (Lookup(ctx.Table(), d.symbol).None? ==>
            ctx.width == -1 && ctx.precision == -1 && !ctx.leftAlign && !ctx.zeroPad)
  {
    var h := ctx.Find(d.symbol);
    if h.Some? {
      count, rest := Matched(ctx, h.value, d, buf, at, size);
    } else {
      count, rest := Unmatched(d, buf, at, size);
    }
  }

  /** A registered symbol: set the width, precision and flags the handler sees, then call it. */
  method Matched(ctx: FormatContext, h: Handler, d: Directive, buf: array<CChar>, at: nat, size: nat)
    returns (count: nat, rest: seq<Arg>)
    requires size >= 1 && at + size <= buf.Length && ctx.truncate == d.truncate
    modifies ctx`width, ctx`precision, ctx`leftAlign, ctx`zeroPad, buf
    ensures ctx.width == HandlerWidth(d.width) && ctx.precision == HandlerPrecision(d.precision)
    ensures ctx.leftAlign == d.left && ctx.zeroPad == d.pad
    ensures var out := PaddedText(HandlerText(h, HandlerPrecision(d.precision), d.truncate, d.rest),
                                  HandlerWidth(d.width), d.left, d.pad, size);
      count == |out| && rest == Rest(d.rest) && buf[..] == Overwrite(old(buf[..]), at, out + [NUL])
  {
    var width := if d.width > 0 then d.width else 0;
    var precision := if d.precision >= 0 then d.precision else 6;
    ghost var out := PaddedText(HandlerText(h, precision, d.truncate, d.rest), width, d.left, d.pad, size);
    ctx.width := width;
    ctx.precision := precision;
    ctx.leftAlign := d.left;
    ctx.zeroPad := d.pad;
    count, rest := Dispatch(h, ctx, buf, at, size, d.rest);
    assert count == |out| && buf[..] == Overwrite(old(buf[..]), at, out + [NUL]);
  }

  /** An unregistered symbol: store '%', the symbol and a terminator when `size > 2`, else nothing. */
  method Unmatched(d: Directive, buf: array<CChar>, at: nat, size: nat) returns (count: nat, rest: seq<Arg>)
    requires size >= 1 && at + size <= buf.Length
    modifies buf
    ensures count == (if size > 2 then 2 else 0) && rest == d.rest
    ensures buf[..] == Overwrite(old(buf[..]), at, if size > 2 then ['%', d.symbol, NUL] else [])
  {
    count, rest := 0, d.rest;
    if size > 2 {
      buf[at] := '%';
      buf[at + 1] := d.symbol;
      buf[at + 2] := NUL;
      count := 2;
      assert buf[..] == Overwrite(old(buf[..]), at, ['%', d.symbol, NUL]);
    } else {
      assert buf[..] == Overwrite(old(buf[..]), at, []);
    }
  }

  /**
   * One iteration of the loop in `mzn_parse_format_string`, with output limit
   * `n` and `count < n` bytes already stored in `dest`.
   */
  method DriverStep(ctx: FormatContext, ghost table: seq<Specifier>, p: Parser, dest: array<CChar>,
                    n: nat, count: nat, args: seq<Arg>) returns (count': nat, rest: seq<Arg>)
    requires ctx.Valid() && ctx.Table() == table && p.Valid() && count < n <= dest.Length && p.At() != NUL
    modifies ctx`width, ctx`precision, ctx`truncate, ctx`leftAlign, ctx`zeroPad, p, dest
    ensures ctx.Valid() && ctx.Table() == table && p.Valid()
    ensures State(p.cur, count', dest[..], rest)
         == Step(p.root, p.max, table, n, State(old(p.cur), count, old(dest[..]), args))
  {
    if p.At() == '%' {
      count', rest := PercentStep(ctx, table, p, dest, n, count, args);
    } else {
      count' := LiteralStep(table, p, dest, n, count, args);
      rest := args;
    }
  }

  /** The driver iteration on a literal byte: copy up to the next '%' within the room left. */
  method LiteralStep(ghost table: seq<Specifier>, p: Parser, dest: array<CChar>, n: nat, count: nat, ghost args: seq<Arg>)
    returns (count': nat)
    requires p.Valid() && count < n <= dest.Length && p.At() != NUL && p.At() != '%'
    modifies p, dest
    ensures p.Valid()
    ensures State(p.cur, count', dest[..], args)
         == Step(p.root, p.max, table, n, State(old(p.cur), count, old(dest[..]), args))
  {
    ghost var cur, buf := p.cur, dest[..];
    var k := p.CopyTo(dest, count, n - count, '%');
    StepLiteral(p.root, p.max, table, n, cur, count, buf, args, k);
    count' := count + k;
  }

  /** The driver iteration on '%': step past it and run the escape or the directive. */
  method PercentStep(ctx: FormatContext, ghost table: seq<Specifier>, p: Parser, dest: array<CChar>,
                     n: nat, count: nat, args: seq<Arg>) returns (count': nat, rest: seq<Arg>)
    requires ctx.Valid() && ctx.Table() == table && p.Valid() && count < n <= dest.Length && p.At() == '%'
    modifies ctx`width, ctx`precision, ctx`truncate, ctx`leftAlign, ctx`zeroPad, p, dest
    ensures ctx.Valid() && ctx.Table() == table && p.Valid()
    ensures State(p.cur, count', dest[..], rest)
         == Step(p.root, p.max, table, n, State(old(p.cur), count, old(dest[..]), args))
  {
    var skipped := p.Next();
    if p.At() == '%' {
      count' := EscapedPercent(table, p, dest, n, count, args);
      rest := args;
    } else {
      count', rest := DirectiveStep(ctx, table, p, dest, n, count, args);
    }
  }

  /** `%%`: one '%' is stored while there is room for it and a terminator. */
  method EscapedPercent(ghost table: seq<Specifier>, p: Parser, dest: array<CChar>, n: nat, count: nat, ghost args: seq<Arg>)
    returns (count': nat)
    requires p.Valid() && count < n <= dest.Length && p.cur >= 1
    requires ByteAt(p.root, p.max, p.cur - 1) == '%' && p.At() == '%'
    modifies p, dest
    ensures p.Valid()
    ensures State(p.cur, count', dest[..], args)
         == Step(p.root, p.max, table, n, State(old(p.cur) - 1, count, old(dest[..]), args))
  {
    var skipped := p.Next();
    count' := count;
    if count < n - 1 {
      dest[count] := '%';
      count' := count + 1;
    }
  }

  /** `%` followed by a directive: parse it and store what it produces. */
  method DirectiveStep(ctx: FormatContext, ghost table: seq<Specifier>, p: Parser, dest: array<CChar>,
                       n: nat, count: nat, args: seq<Arg>) returns (count': nat, rest: seq<Arg>)
    requires ctx.Valid() && ctx.Table() == table && p.Valid() && count < n <= dest.Length && p.cur >= 1
    requires ByteAt(p.root, p.max, p.cur - 1) == '%' && p.At() != '%'
    modifies ctx`width, ctx`precision, ctx`truncate, ctx`leftAlign, ctx`zeroPad, p, dest
    ensures ctx.Valid() && ctx.Table() == table && p.Valid()
    ensures State(p.cur, count', dest[..], rest)
         == Step(p.root, p.max, table, n, State(old(p.cur) - 1, count, old(dest[..]), args))
  {
    ghost var buf := dest[..];
    ghost var at := p.cur;
    ghost var d := ParseDirective(p.root, p.max, at, args);
    ghost var e := DirectiveOutput(table, d, n - count);
    StepDirective(p.root, p.max, table, n, at - 1, count, buf, args, d, e);
    ghost var next := State(d.next, count + e.count, Overwrite(buf, count, e.bytes), e.rest);
    var k;
    k, rest := CopyVar(ctx, p, dest, count, n - count, args);
    assert p.cur == d.next && k == e.count && rest == e.rest && dest[..] == Overwrite(buf, count, e.bytes);
    count' := count + k;
    assert State(p.cur, count', dest[..], rest) == next;
  }

  /**
   * `mzn_parse_format_string(ctx, dest, size, max, fmt, args)`. The source
   * loops for ever once an iteration leaves the cursor where it was (a
   * literal byte with one byte of room left); the loop here stops at that
   * iteration and reports `hung`, with the count and destination that the
   * endless loop keeps. The source's final `else if (n > 0) dest[n - 1] = '\0'`
   * is not written: `count` never reaches `n` (`Step` keeps it below).
   */
  method ParseFormatString(ctx: FormatContext, dest: array<CChar>, size: nat, max: nat,
                           fmt: Option<seq<CChar>>, args: seq<Arg>) returns (count: int, hung: bool)
    requires ctx.Valid() && Min(size, max) <= dest.Length
    modifies ctx`width, ctx`precision, ctx`truncate, ctx`leftAlign, ctx`zeroPad, dest
    ensures ctx.Valid() && ctx.Table() == old(ctx.Table())
    ensures var o := Format(old(ctx.Table()), old(dest[..]), size, max, fmt, args);
      hung == o.Hang? && count == o.count && dest[..] == o.buf
  {
    ghost var table := ctx.Table();
    ghost var root := Template(fmt);
    ghost var start := State(0, 0, dest[..], args);
    var n := Limit(size, max);
    LimitBelow(size, max);
    var len := StrLen(fmt);
    var parser := new Parser(Template(fmt), len);
    count, hung := 0, false;
    var rest := args;
    while parser.At() != NUL && count < n && !hung
      invariant parser.Valid() && parser.root == root && parser.max == len
      invariant ctx.Valid() && ctx.Table() == table
      invariant 0 <= count && (n > 0 ==> count < n) && n <= dest.Length
      invariant n <= 0 ==> count == 0 && !hung && dest[..] == start.buf
      invariant n > 0 && !hung ==>
        Run(root, len, table, n, State(parser.cur, count, dest[..], rest)) == Run(root, len, table, n, start)
      invariant hung ==> n > 0 && Run(root, len, table, n, start) == Hang(count, dest[..])
      decreases len - parser.cur, if hung then 0 else 1
    {
      var before := parser.cur;
      var next;
      next, rest := DriverStep(ctx, table, parser, dest, n, count, rest);
      count := next;
      hung := parser.cur == before;
    }
    if !hung && count < n {
      assert parser.At() == NUL;
      dest[count] := NUL;
    }
  }

  /**
   * `mzn_vsnprintf(dest, size, n, format, args)`: a context over a table of
   * ten entries holding the six default handlers, then the driver.
   */
  method VSnprintf(dest: array<CChar>, size: nat, n: nat, format: Option<seq<CChar>>, args: seq<Arg>)
    returns (count: int, hung: bool)
    requires Min(size, n) <= dest.Length
    modifies dest
    ensures var o := Format(DefaultTable, old(dest[..]), size, n, format, args);
      hung == o.Hang? && count == o.count && dest[..] == o.buf
  {
    var ctx := DefaultContext(dest, size);
    count, hung := ParseFormatString(ctx, dest, size, n, format, args);
  }

  /** The context `mzn_vsnprintf` sets up: ten entries of room, the six default handlers registered in order. */
  method DefaultContext(dest: array<CChar>, size: nat) returns (ctx: FormatContext)
    ensures fresh(ctx) && fresh(ctx.specifiers) && ctx.Valid() && ctx.Table() == DefaultTable
    ensures ctx.buffer == dest && ctx.bufferMax == size && ctx.specifierMax == 10
  {
    var specifiers := new Specifier[10];
    ctx := new FormatContext.Init(dest, size, specifiers, 10 * ENTRY_SIZE);
    RegisterIntegers(ctx);
    RegisterOthers(ctx);
  }

  /** The first three registrations of `mzn_vsnprintf`: `d`, `x`, `X`. */
  method RegisterIntegers(ctx: FormatContext)
    requires ctx.Valid() && ctx.Table() == [] && ctx.specifierMax == 10
    modifies ctx`specifierCount, ctx.specifiers
    ensures ctx.Valid() && ctx.Table() == DefaultTable[..3]
  {
    var ok := ctx.Register('d', FormatInt);
    assert ctx.Table() == DefaultTable[..1];
    ok := ctx.Register('x', FormatHexLower);
    assert ctx.Table() == DefaultTable[..2];
    ok := ctx.Register('X', FormatHexUpper);
  }

  /** The last three registrations of `mzn_vsnprintf`: `f`, `s`, `c`. */
  method RegisterOthers(ctx: FormatContext)
    requires ctx.Valid() && ctx.Table() == DefaultTable[..3] && ctx.specifierMax == 10
    modifies ctx`specifierCount, ctx.specifiers
    ensures ctx.Valid() && ctx.Table() == DefaultTable
  {
    var ok := ctx.Register('f', FormatDouble);
    assert ctx.Table() == DefaultTable[..4];
    ok := ctx.Register('s', FormatString);
    assert ctx.Table() == DefaultTable[..5];
    ok := ctx.Register('c', FormatChar);
  }
}
