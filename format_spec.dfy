/**
 * What the formatter of mzncore.h computes, as functions of the template,
 * the argument list and the destination image. `FormatEngine` implements
 * these step by step on arrays and the context object; `FormatProps` proves
 * what they promise.
 *
 * The variadic argument list is a sequence consumed from the front. A
 * directive reads an `int` from an `IntArg`, a `const char *` from a
 * `StrArg` and a `double` from a `DblArg`; a missing or mismatched argument
 * reads as 0, NULL or an empty rendering (undefined in C).
 */
module FormatSpec {
  import opened Wrappers
  import opened CBytes
  import opened CharClass
  import opened CStrings
  import opened IntText
  import opened FormatParser
  import opened FormatRegistry

  /**
   * One variadic argument. A `double` is represented by the text `mzn_dtoa`
   * writes for it at a given precision, since floating point is not modelled.
   */
  datatype Arg =
    | IntArg(i: i32)
    | StrArg(s: Option<seq<CChar>>)
    | DblArg(render: int -> seq<CChar>)

  /** `va_arg(args, int)`. */
  function IntOf(args: seq<Arg>): i32
  {
    if |args| > 0 && args[0].IntArg? then args[0].i else 0
  }

  /** `va_arg(args, const char *)`. */
  function StrOf(args: seq<Arg>): Option<seq<CChar>>
  {
    if |args| > 0 && args[0].StrArg? then args[0].s else None
  }

  /** The `mzn_dtoa` text of `va_arg(args, double)` at `precision`. */
  function DblOf(args: seq<Arg>, precision: int): seq<CChar>
  {
    if |args| > 0 && args[0].DblArg? then args[0].render(precision) else []
  }

  /** The argument list after one `va_arg`. */
  function Rest(args: seq<Arg>): seq<Arg>
  {
    if |args| > 0 then args[1..] else []
  }

  // ------------------------------------------------------------------------
  // Directive parsing (`mzn_parser_copy_var` up to the dispatch)

  /** `mzn_is_format_flag`. */
  predicate IsFormatFlag(c: CChar)
  {
    c == '-' || c == '0'
  }

  datatype Flags = Flags(left: bool, pad: bool, end: nat)

  /** The flag loop: consume `-` and `0` in any order, any number of times. */
  function ReadFlags(root: seq<CChar>, max: nat, i: nat): (f: Flags)
    requires i <= max <= |root|
    ensures i <= f.end <= max && !IsFormatFlag(ByteAt(root, max, f.end))
    decreases max - i
  {
    var c := ByteAt(root, max, i);
    if c == '-' then ReadFlags(root, max, i + 1).(left := true)
    else if c == '0' then ReadFlags(root, max, i + 1).(pad := true)
    else Flags(false, false, i)
  }

  /** Where a run of decimal digits seen through the cursor ends. */
  function DigitsEnd(root: seq<CChar>, max: nat, i: nat): (j: nat)
    requires i <= max <= |root|
    ensures i <= j <= max && !IsNumeric(ByteAt(root, max, j))
    ensures forall k :: i <= k < j ==> IsNumeric(root[k])
    decreases max - i
  {
    if IsNumeric(ByteAt(root, max, i)) then DigitsEnd(root, max, i + 1) else i
  }

  datatype Count = Count(value: int, end: nat, rest: seq<Arg>)

  /**
   * A width or a precision: `*` takes the next `int` argument; a digit makes
   * `mzn_atoi` read the raw text from the cursor, then the digits are skipped;
   * anything else leaves `absent` and consumes nothing.
   */
  function ReadCount(root: seq<CChar>, max: nat, i: nat, args: seq<Arg>, absent: int): (r: Count)
    requires i <= max <= |root|
    ensures i <= r.end <= max
  {
    var c := ByteAt(root, max, i);
    if c == '*' then Count(IntOf(args), i + 1, Rest(args))
    else if IsNumeric(c) then Count(AtoiValue(root[i..]), DigitsEnd(root, max, i), args)
    else Count(absent, i, args)
  }

  /** The length modifiers: one `h`, one `l`, or `ll`, skipped without effect. */
  function SkipLength(root: seq<CChar>, max: nat, i: nat): (j: nat)
    requires i <= max <= |root|
    ensures i <= j <= max
  {
    var c := ByteAt(root, max, i);
    if c == 'l' && ByteAt(root, max, i + 1) == 'l' then i + 2
    else if c == 'l' || c == 'h' then i + 1
    else i
  }

  /** A parsed directive: flags, width, precision, the specifier byte, and what is left to read. */
  datatype Directive = Directive(
    left: bool, pad: bool, width: int, precision: int, truncate: bool,
    symbol: CChar, next: nat, rest: seq<Arg>)

  /** Parse a directive whose `%` has been consumed; the cursor stands at `i`. */
  function ParseDirective(root: seq<CChar>, max: nat, i: nat, args: seq<Arg>): (d: Directive)
    requires i <= max <= |root|
    ensures i <= d.next <= max
  {
    var f := ReadFlags(root, max, i);
    var w := ReadCount(root, max, f.end, args, 0);
    var dot := ByteAt(root, max, w.end) == '.';
    var p := if dot then ReadCount(root, max, w.end + 1, w.rest, 0) else Count(-1, w.end, w.rest);
    var m := SkipLength(root, max, p.end);
    Directive(f.left, f.pad, w.value, p.value, dot, ByteAt(root, max, m), if m < max then m + 1 else m, p.rest)
  }

  /** The width a handler sees: the parsed width, or 0 when it is not positive. */
  function HandlerWidth(w: int): nat
  {
    if w > 0 then w else 0
  }

  /** The precision a handler sees: the parsed precision, or 6 when it is negative. */
  function HandlerPrecision(p: int): nat
  {
    if p >= 0 then p else 6
  }

  // ------------------------------------------------------------------------
  // Padding (`mzn_apply_padding`)

  /** The pad byte: '0' only for a zero-padded, right-aligned field. */
  function PadChar(left: bool, zero: bool): CChar
  {
    if zero && !left then '0' else ' '
  }

  function Repeat(c: CChar, n: nat): (r: seq<CChar>)
    ensures |r| == n && forall k :: 0 <= k < n ==> r[k] == c
  {
    if n == 0 then [] else Repeat(c, n - 1) + [c]
  }

  /**
   * The bytes `mzn_apply_padding` stores before its terminator, for a text `s`
   * of `len` bytes, in a buffer of `max` >= 1 bytes. A field no wider than the
   * text, or a buffer no longer than it, gets the text alone, cut to `max - 1`;
   * otherwise the field of `width` bytes, text and padding in the order
   * `left` chooses, is cut to `max - 1`.
   */
  function PaddedText(s: seq<CChar>, width: int, left: bool, zero: bool, max: nat): (r: seq<CChar>)
    requires max >= 1
    ensures |r| <= max - 1
  {
    if width <= |s| || max <= |s| then s[..Min(|s|, max - 1)]
    else
      var pads := Repeat(PadChar(left, zero), width - |s|);
      (if left then s + pads else pads + s)[..Min(width, max - 1)]
  }

  // ------------------------------------------------------------------------
  // Handlers (`mzn_format_*`), before padding

  /** `mzn_format_string`: the string, cut to the precision when `truncate` is set, and to 255 bytes. */
  function StringText(s: Option<seq<CChar>>, truncate: bool, precision: int): seq<CChar>
  {
    var n := CStrLen(s);
    var m := if truncate && precision >= 0 && precision < n then precision else n;
    if s.None? then [] else CStr(s.value)[..Min(m, 255)]
  }

  /**
   * `mzn_format_double`: the `mzn_dtoa` text in its 128-byte buffer. The text
   * is at most `precision + 12` bytes, so it fits for every precision up to
   * 115 and the cut to 127 bytes changes nothing. Above that the source
   * overruns the buffer, or leaves it unwritten above 129; the cut only keeps
   * the model total there and is not what the source does.
   */
  function DoubleText(args: seq<Arg>, precision: int): seq<CChar>
  {
    var t := CStr(DblOf(args, precision));
    t[..Min(|t|, 127)]
  }

  /** `mzn_format_char`: one byte, or the empty string when the argument narrows to NUL. */
  function CharText(args: seq<Arg>): seq<CChar>
  {
    var ch := Narrow(IntOf(args));
    if ch == NUL then [] else [ch]
  }

  /** The text a handler hands to the padding step; every handler consumes one argument. */
  function HandlerText(h: Handler, precision: int, truncate: bool, args: seq<Arg>): seq<CChar>
  {
    match h
    case FormatInt => ItoaText(IntOf(args), 10, true, 64)
    case FormatHexLower => ItoaText(IntOf(args), 16, true, 64)
    case FormatHexUpper => ItoaText(IntOf(args), 16, false, 64)
    case FormatDouble => DoubleText(args, precision)
    case FormatString => StringText(StrOf(args), truncate, precision)
    case FormatChar => CharText(args)
  }

  /** What one directive stores at the output position, how far it advances the count, and what arguments remain. */
  datatype Emit = Emit(count: nat, bytes: seq<CChar>, rest: seq<Arg>)

  /**
   * The dispatch of `mzn_parser_copy_var` in a buffer of `size` >= 1 bytes:
   * a registered symbol pads its handler's text; an unregistered one stores
   * '%', the symbol and a terminator and counts 2 when `size` > 2, else nothing.
   */
  function DirectiveOutput(table: seq<Specifier>, d: Directive, size: nat): (e: Emit)
    requires size >= 1
    ensures e.count < size && |e.bytes| <= size
    ensures Lookup(table, d.symbol).None? ==> e.count == (if size > 2 then 2 else 0) && e.rest == d.rest
  {
    match Lookup(table, d.symbol)
    case Some(h) =>
      var text := HandlerText(h, HandlerPrecision(d.precision), d.truncate, d.rest);
      var out := PaddedText(text, HandlerWidth(d.width), d.left, d.pad, size);
      Emit(|out|, out + [NUL], Rest(d.rest))
    case None =>
      if size > 2 then Emit(2, ['%', d.symbol, NUL], d.rest) else Emit(0, [], d.rest)
  }

  // ------------------------------------------------------------------------
  // The driver (`mzn_parse_format_string`)

  /** Cursor, output count, destination image and remaining arguments at the head of the driver loop. */
  datatype State = State(cur: nat, count: nat, buf: seq<CChar>, args: seq<Arg>)

  /** How a run of the driver loop ends: normally with its count, or stuck for ever in a state that repeats. */
  datatype Outcome = Done(count: nat, buf: seq<CChar>) | Hang(count: nat, buf: seq<CChar>)

  /** The driver iteration on a literal byte at `cur`: copy up to the next '%', within the room left. */
  function LiteralState(root: seq<CChar>, max: nat, n: nat, cur: nat, count: nat, buf: seq<CChar>, args: seq<Arg>): (t: State)
    requires cur <= max <= |root| && count < n <= |buf|
    ensures cur <= t.cur <= max && count <= t.count < n
    ensures |t.buf| == |buf| && t.buf[n..] == buf[n..]
  {
    var k := CopyCount(root, max, cur, n - count, '%');
    State(cur + k, count + k, Overwrite(buf, count, root[cur..cur + k] + [NUL]), args)
  }

  /** The driver iteration on a '%' at `cur` that starts a directive: parse it and store what it emits. */
  function DirectiveState(root: seq<CChar>, max: nat, table: seq<Specifier>, n: nat,
                          cur: nat, count: nat, buf: seq<CChar>, args: seq<Arg>): (t: State)
    requires cur < max <= |root| && count < n <= |buf|
    ensures cur < t.cur <= max && count <= t.count < n
    ensures |t.buf| == |buf| && t.buf[n..] == buf[n..]
  {
    var d := ParseDirective(root, max, cur + 1, args);
    var e := DirectiveOutput(table, d, n - count);
    State(d.next, count + e.count, Overwrite(buf, count, e.bytes), e.rest)
  }

  /**
   * One iteration of the driver loop, with `n` the output limit: `%%` stores
   * one '%' while `count < n - 1`; `%` otherwise runs a directive; any other
   * byte starts a literal run copied up to the next '%'.
   */
  function Step(root: seq<CChar>, max: nat, table: seq<Specifier>, n: nat, s: State): (t: State)
    requires s.cur <= max <= |root| && s.count < n <= |s.buf| && ByteAt(root, max, s.cur) != NUL
    ensures s.cur <= t.cur <= max && s.count <= t.count < n
    ensures |t.buf| == |s.buf| && t.buf[n..] == s.buf[n..]
  {
    if ByteAt(root, max, s.cur) == '%' then
      var i := s.cur + 1;
      if ByteAt(root, max, i) == '%' then
        if s.count < n - 1 then State(i + 1, s.count + 1, s.buf[s.count := '%'], s.args)
        else State(i + 1, s.count, s.buf, s.args)
      else DirectiveState(root, max, table, n, s.cur, s.count, s.buf, s.args)
    else LiteralState(root, max, n, s.cur, s.count, s.buf, s.args)
  }

  /**
   * The driver loop from state `s`. It ends when the cursor sees NUL, storing
   * the terminator at `count`; an iteration that does not move the cursor
   * repeats itself for ever (`StalledStepRepeats`), reported as `Hang`.
   */
  function Run(root: seq<CChar>, max: nat, table: seq<Specifier>, n: nat, s: State): Outcome
    requires s.cur <= max <= |root| && s.count < n <= |s.buf|
    decreases max - s.cur
  {
    if ByteAt(root, max, s.cur) == NUL then Done(s.count, s.buf[s.count := NUL])
    else
      var t := Step(root, max, table, n, s);
      if t.cur == s.cur then Hang(t.count, t.buf)
      else Run(root, max, table, n, t)
  }

  /** `n` of `mzn_parse_format_string`: `min(size, max)` stored in an `int32`. */
  function Limit(size: nat, max: nat): int
  {
    WrapI32(Min(size, max))
  }

  lemma {:induction false} LimitBelow(size: nat, max: nat)
    ensures Limit(size, max) <= Min(size, max)
  {
  }

  /** The template's text: NULL reads as an empty template, since `mzn_strlen(NULL)` is 0. */
  function Template(fmt: Option<seq<CChar>>): (root: seq<CChar>)
    ensures CStrLen(fmt) <= |root|
  {
    if fmt.Some? then fmt.value else []
  }

  /**
   * `mzn_parse_format_string(ctx, dest, size, max, fmt, args)` with the
   * registered `table`, on the destination image `buf`.
   */
  function Format(table: seq<Specifier>, buf: seq<CChar>, size: nat, max: nat,
                  fmt: Option<seq<CChar>>, args: seq<Arg>): Outcome
    requires Min(size, max) <= |buf|
  {
    var n := Limit(size, max);
    LimitBelow(size, max);
    if n <= 0 then Done(0, buf)
    else Run(Template(fmt), CStrLen(fmt), table, n, State(0, 0, buf, args))
  }

  /** The table `mzn_vsnprintf` registers, in order. */
  const DefaultTable: seq<Specifier> := [
    Specifier('d', FormatInt), Specifier('x', FormatHexLower), Specifier('X', FormatHexUpper),
    Specifier('f', FormatDouble), Specifier('s', FormatString), Specifier('c', FormatChar)]
}
