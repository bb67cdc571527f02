# mzncore formatter and vs_gen log aggregation, in Dafny

This project models two independent pieces of one repository and proves
properties of them.

1. **The printf-style formatter of `misc/src/mzncore.h`**, with the
   integer and string helpers under it:
   - the bounded memory fill and copy routines;
   - the C-string routines with their hard 1024-character cap;
   - the character classifiers and `mzn_cxtou`;
   - `mzn_nlen`, `mzn_itoa` (bases 2 to 36), the saturating `mzn_atoi` and
     `mzn_xtoi`;
   - the specifier registry (`mznFormatStringContext`);
   - the read-only parse cursor (`mznParser`);
   - the directive parser `mzn_parser_copy_var`;
   - the padding engine `mzn_apply_padding`;
   - the driver loop `mzn_parse_format_string`;
   - the default handlers for `d x X f s c`, and `mzn_vsnprintf` /
     `mzn_snprintf`.

2. **The log-aggregation rules of `vs_gen/vs_gen.py`**:
   - the text helpers `grammatical_join`, `apply_custom_mapping`,
     `clean_death_message`, `parse_time_range`, `is_interesting_audit_event`
     and `extract_player_name`;
   - the handful of regular expressions they use, written out as matchers;
   - the stateful `EventAggregator` (`process_event`, `_process_audit_event`,
     `aggregate_storm_times`, `get_complete_storms`);
   - `NarrativeGenerator._summarize_top` and `generate_chunk_summary`;
   - the run-level rules of `main`: only newer events are processed, the
     chunk count is carried over and clamped, and `--char-limit` truncates.

## How the C side is represented

- `CChar` is a `char` below 256: one byte of the platform's signed `char`.
  A byte from 0x80 up is negative to the classifiers.
- A C string is a `seq<CChar>`. `CharAt(s, |s|)` reads an implicit
  terminator past its end, and `CStr(s)` is the text up to the first NUL.
  A pointer that may be NULL is an `Option` or an `array?`.
- Integer widths are written out:
  - `i32` is the 32-bit signed range;
  - `WrapI32`, `AsU32` and `WrapI64` are the truncating casts;
  - `CDiv` is C's division, which truncates toward zero.
- A `va_list` becomes a sequence of tagged arguments (`Arg`), consumed from
  the front. A missing or mismatched argument reads as 0, NULL or an empty
  rendering, where C's behaviour is undefined.
- A `double` argument carries the text `mzn_dtoa` would produce for it at a
  given precision. No floating point is modelled.
- Handler function pointers become the `Handler` datatype. An entry of the
  table takes 16 bytes, as on a 64-bit target.
- The formatter is specified by functions in `FormatSpec`. The imperative
  methods in `FormatEngine` and `FormatDriver` work on arrays and on the
  context and parser objects, and each is proved to store exactly what
  those functions say. `FormatProps` proves what the functions promise, and
  where the source breaks an obvious promise.
- `mzn_parse_format_string` can loop for ever. This happens when a literal
  byte meets one byte of room: `mzn_parser_copy_to` copies nothing and the
  cursor stays put. `Run` and `ParseFormatString` stop at the first
  iteration that leaves the cursor where it was, and report the outcome as
  `Hang`, with the count and buffer the endless loop keeps. The lemmas
  `StallIff` and `StalledStepRepeats` show that this is exactly the state
  the source repeats for ever.

## How the Python side is represented

- Strings are `string`. Timestamps are integers, since only their order
  matters.
- Dictionaries whose iteration order matters, such as the custom message
  map, are sequences of pairs.
- `EventAggregator` is a class with the source's fields. `State()` gives
  them as one `Tally` value. Every method is proved against a function:
  `Step` is one `process_event`, and `ProcessAll` is a run of them.

## Model

| member | source | states |
|---|---|---|
| MemOps.MemClr | misc/src/mzncore.h:1330-1340 | succeeds iff the pointer is set; then the first `size` bytes are zero and the rest of the buffer is unchanged |
| MemOps.MemSet | misc/src/mzncore.h:1342-1352 | succeeds iff the pointer is set; then the first `size` bytes hold `v` and the rest is unchanged |
| MemOps.MemCpy | misc/src/mzncore.h:1354-1366 | succeeds iff both pointers are set and `destSize >= srcSize`; then `destSize` bytes (not `srcSize`) are copied from `src`; on failure nothing changes |
| CStrings.CStrLen | misc/src/mzncore.h:1492-1502 | the value of `mzn_strlen` is always below 1024 |
| CStrings.StrLen | misc/src/mzncore.h:1492-1502 | the counting loop returns the C string's length, or 0 for NULL or for a string of 1024 or more characters |
| CStrings.MismatchFrom | misc/src/mzncore.h:1461-1471 | the index where the comparison loop stops: the strings agree and are non-NUL before it, and at it they differ or the first one ends |
| CStrings.StrCmp | misc/src/mzncore.h:1461-1471 | the comparison loop returns the difference of the first differing bytes, read as unsigned |
| CStrings.CompareZeroIffEqual | misc/src/mzncore.h:1461-1471 | `mzn_strcmp` is 0 exactly when the two C strings are equal |
| CStrings.CompareAntisymmetric | misc/src/mzncore.h:1461-1471 | swapping the arguments negates the result |
| CStrings.CopiedText | misc/src/mzncore.h:1473-1490 | the copied text is the C string cut to `min(len, limit)` bytes, a prefix of the source, with no NUL in it |
| CStrings.CopyBounded | misc/src/mzncore.h:1476-1479 | the shared copy loop stores the copied text and a terminator, and nothing past the terminator |
| CStrings.StrCpy | misc/src/mzncore.h:1473-1480 | with a positive size and both pointers set, at most `size - 1` bytes of the source plus a terminator; otherwise nothing is written |
| CStrings.StrNCpy | misc/src/mzncore.h:1482-1490 | as `StrCpy` with the limit `min(size, max) - 1`; nothing is written when a bound is 0 or a pointer is NULL |
| CStrings.StrChr | misc/src/mzncore.h:1503-1515 | NULL gives none; a hit is the first occurrence of `(char)c`, or the terminator when `c` narrows to NUL; no hit means no occurrence among the first 1024 bytes |
| CStrings.StrRChr | misc/src/mzncore.h:1517-1529 | none for any string of 1024 or more bytes, even one with a match; otherwise the last occurrence, the terminator for NUL, or none when absent |
| CStrings.StrRev | misc/src/mzncore.h:1531-1546 | reverses the first `mzn_strlen` bytes in place, keeps everything else, and leaves the length unchanged |
| CStrings.ReverseFirst | misc/src/mzncore.h:1536-1543 | the swap loop reverses `a[..n]` and touches nothing else |
| CStrings.ReversalKeepsLength | misc/src/mzncore.h:1531-1546 | reversing the counted prefix of a terminated string keeps its `mzn_strlen` |
| CharClass.ClassifierInclusions | misc/src/mzncore.h:1548-1582 | how the classifiers nest: whitespace is extended whitespace, numeric is hex and alphanumeric, alphanumeric is readable, readable is readable-ex |
| CharClass.HighBytes | misc/src/mzncore.h:1548-1589 | with a signed `char`, every byte from 0x80 up is extended whitespace and nothing else, except readable-ex for all bytes but 0xFF; `mzn_cxtou` gives 0 |
| CharClass.HexValueOfHexDigits | misc/src/mzncore.h:1584-1589 | `mzn_cxtou` maps '0'-'9' to 0-9 and 'A'-'F' to 10-15, but 'a'-'f' to 42-47 |
| IntText.ToDigits | misc/src/mzncore.h:1719-1730 | the digit string of a number in a base is never empty |
| IntText.ToDigitsLength | misc/src/mzncore.h:1719-1730 | the numeral has `DigitCount` digits |
| IntText.ToDigitsValue | misc/src/mzncore.h:1719-1730 | reading the numeral back in its base gives the number |
| IntText.ToDigitsAlphabet | misc/src/mzncore.h:1722-1729 | the digits are '0'-'9', then letters in the case `lowercase` selects |
| IntText.DigitCountBound | misc/src/mzncore.h:1719-1730 | a number below `base^k` has at most `k` digits |
| IntText.Magnitude | misc/src/mzncore.h:1715-1717 | the printed magnitude is below 2^32: the absolute value for a signed decimal, else the unsigned 32-bit pattern |
| IntText.ItoaTextLength | misc/src/mzncore.h:1731-1735 | the text fits in `size - 1` bytes, except a lone '-' when `size` is 1 |
| IntText.ItoaTextFull | misc/src/mzncore.h:1715-1735 | with room for every digit, the text is the sign, then the whole numeral, most significant digit first |
| IntText.ItoaZero | misc/src/mzncore.h:1719 | zero prints as "0" in every valid base |
| IntText.ItoaSign | misc/src/mzncore.h:1715-1732 | a '-' leads exactly for negative numbers in base 10, and appears nowhere else |
| IntText.Itoa | misc/src/mzncore.h:1706-1736 | a zero size or NULL writes nothing and returns 0; otherwise it stores the text and a terminator and returns the length; a base outside 2..36 gives "" |
| IntText.CopyReversed | misc/src/mzncore.h:1731-1735 | the copy-back loop stores the scratch digits reversed while fewer than `size - 1` bytes are written, then the terminator |
| IntText.ReversedDigits | misc/src/mzncore.h:1718-1730 | the digit loop leaves the numeral reversed in a fresh 32-byte scratch buffer |
| IntText.DigitsFit | misc/src/mzncore.h:1707 | every 32-bit magnitude has at most 32 digits, so the scratch buffer never overflows |
| IntText.Nlen | misc/src/mzncore.h:1591-1604 | the loop returns the digit count of `n` plus one for a sign |
| IntText.NlenMatchesItoa | misc/src/mzncore.h:1591-1604 | with a buffer of 12 bytes or more, `mzn_nlen(n, 10)` is the length `mzn_itoa` returns |
| IntText.DecimalFits | misc/src/mzncore.h:1591-1604 | a 32-bit magnitude has at most 10 decimal digits |
| IntText.NegateWrapped | misc/src/mzncore.h:1591-1604 | negating a negative 32-bit value with wrap-around keeps its magnitude, INT32_MIN included |
| IntText.TruncatedStep | misc/src/mzncore.h:1597-1601 | truncating division shrinks the magnitude and removes one digit |
| IntText.SpaceEnd | misc/src/mzncore.h:1744 | where leading whitespace ends |
| IntText.DigitEnd | misc/src/mzncore.h:1751 | where the run of digits ends |
| IntText.AtoiLoop | misc/src/mzncore.h:1738-1760 | the loop returns `Atoi`: NULL gives 0; otherwise whitespace is skipped, one sign is taken, digits are read, and the value saturates at INT32_MAX / INT32_MIN |
| IntText.ReadDecimal | misc/src/mzncore.h:1751-1758 | the digit loop reports overflow exactly when the digit run exceeds INT32_MAX, and otherwise returns its value |
| IntText.ReadSignedNumeral | misc/src/mzncore.h:1738-1760 | an optional '-' and a digit run read as the signed value of the run, saturated |
| IntText.AtoiItoaRoundTrip | misc/src/mzncore.h:1706-1760 | `mzn_atoi` reads back every 32-bit number `mzn_itoa` writes in base 10 |
| IntText.DecValueOfDigits | misc/src/mzncore.h:1719-1758 | a decimal numeral is all digits and reads back as its number |
| IntText.HexRunEnd | misc/src/mzncore.h:1765 | where the run of hex digits and 'x' / 'X' ends |
| IntText.Xtoi | misc/src/mzncore.h:1762-1774 | the loop returns the hex fold of the run after leading whitespace, cast to 32 bits |
| IntText.ReadHex | misc/src/mzncore.h:1765-1773 | the accumulation loop resets at each 'x' / 'X' and otherwise multiplies by 16 and adds `mzn_cxtou` |
| IntText.HexFoldResetsAtX | misc/src/mzncore.h:1766-1767 | only the text after the last 'x' / 'X' of the run counts |
| IntText.HexFoldOfDigits | misc/src/mzncore.h:1769 | an upper-case hex numeral folds back to its value |
| IntText.XtoiItoaRoundTrip | misc/src/mzncore.h:1706-1774 | `mzn_xtoi` reads back every 32-bit number that `mzn_itoa(n, 16, 0, …)` writes, under the wrapping cast |
| IntText.ReadHexNumeral | misc/src/mzncore.h:1762-1774 | a run of hex digits reads as its fold, cast to 32 bits |
| IntText.WrapOfUnsigned | misc/src/mzncore.h:1717 | casting the unsigned pattern back to 32 bits gives the original number |
| IntText.ItoaLowerHex255 | misc/src/mzncore.h:1706-1736 | `%x`-style lower-case hex of 255 is "ff" |
| IntText.XtoiLowercaseMisreads | misc/src/mzncore.h:1762-1774 | `mzn_xtoi("ff")` is 799, not 255: lower-case digits decode to 42 and up |
| FormatRegistry.Lookup | misc/src/mzncore.h:2039-2048 | dispatch finds a handler iff some entry has the symbol |
| FormatRegistry.LookupFirst | misc/src/mzncore.h:2039-2048 | dispatch uses the first entry whose symbol matches |
| FormatRegistry.LookupAppend | misc/src/mzncore.h:2039-2048 | a later registration never overrides an earlier one; it only makes a missing symbol findable |
| FormatRegistry.FormatContext.Init | misc/src/mzncore.h:1860-1871 | every field is cleared; the table is empty with room for `specMemSize / 16` entries; the text buffer and its size are stored |
| FormatRegistry.FormatContext.Register | misc/src/mzncore.h:1873-1883 | succeeds iff `specifierCount < specifierMax`; it then appends at `specifierCount` and keeps earlier entries; otherwise nothing changes |
| FormatRegistry.FormatContext.Find | misc/src/mzncore.h:2039-2048 | the scan over the entries returns `Lookup` of the registered table |
| FormatParser.SpanEnd | misc/src/mzncore.h:1924-1929 | the copy stops at the first NUL or `sym` the cursor sees, never past `max` |
| FormatParser.CopyCount | misc/src/mzncore.h:1921-1932 | `mzn_parser_copy_to` copies at most `size - 1` bytes (none for size 0), all of them neither NUL nor `sym`, and stays below `max` |
| FormatParser.SpanIgnoresTail | misc/src/mzncore.h:1899-1909 | the cursor never looks at `root[max..]`: roots that agree below `max` give the same span |
| FormatParser.Parser.constructor | misc/src/mzncore.h:1891-1897 | the cursor starts at 0 over the given root and bound |
| FormatParser.Parser.At | misc/src/mzncore.h:1899-1903 | a byte other than NUL comes only from `root[cur]` with `cur < max`; at the bound the answer is NUL |
| FormatParser.Parser.Peek | misc/src/mzncore.h:1911-1915 | a byte other than NUL comes only from `root[cur + 1]` below the bound; NUL once `cur + 1` reaches `max` |
| FormatParser.Parser.Next | misc/src/mzncore.h:1905-1909 | returns the byte at the cursor and advances only while `cur < max` |
| FormatParser.Parser.CopyTo | misc/src/mzncore.h:1921-1932 | copies `CopyCount` bytes from the cursor, then a terminator, advancing the cursor by that count |
| FormatParser.Parser.CopyRun | misc/src/mzncore.h:1925-1929 | the copy loop writes only the copied bytes |
| FormatSpec.ReadFlags | misc/src/mzncore.h:1995-2006 | the flag loop stops at the first byte that is not `-` or `0` |
| FormatSpec.ReadCount | misc/src/mzncore.h:2007-2030 | a width or precision never moves the cursor backwards |
| FormatSpec.SkipLength | misc/src/mzncore.h:2032-2037 | the length modifiers never move the cursor backwards |
| FormatSpec.ParseDirective | misc/src/mzncore.h:1990-2038 | the directive parser ends within the template bound |
| FormatSpec.PaddedText | misc/src/mzncore.h:1938-1976 | the padded text is at most `max - 1` bytes |
| FormatSpec.DirectiveOutput | misc/src/mzncore.h:2039-2060 | a directive counts less than its room; an unregistered symbol counts 2 when `size > 2`, else 0, and consumes no argument |
| FormatSpec.Step | misc/src/mzncore.h:2073-2088 | one driver iteration never moves the cursor back, keeps `count < n`, and writes nothing from `dest[n]` on |
| FormatSpec.LiteralState | misc/src/mzncore.h:2086 | the literal branch stays within the bound and the room left |
| FormatSpec.DirectiveState | misc/src/mzncore.h:2074-2084 | the `%` branch always moves the cursor forward and stays within the room left |
| FormatSpec.LimitBelow | misc/src/mzncore.h:2070 | `n`, stored in an `int32`, is at most `min(size, max)` |
| FormatSpec.Template | misc/src/mzncore.h:2071-2072 | the cursor's bound `mzn_strlen(fmt)` lies within the template |
| FormatEngine.Field | misc/src/mzncore.h:1956-1973 | the full field has exactly `width` bytes |
| FormatEngine.FieldLayout | misc/src/mzncore.h:1956-1973 | left-aligned: text, then pad bytes; right-aligned: pad bytes, then text |
| FormatEngine.CopyText | misc/src/mzncore.h:1960-1972 | a copy loop of the padding engine stores the text while the count stays below the limit |
| FormatEngine.Fill | misc/src/mzncore.h:1963-1969 | a padding loop stores the pad byte while the count stays below the limit |
| FormatEngine.ApplyPadding | misc/src/mzncore.h:1938-1976 | stores `PaddedText` of the `mzn_strlen`-measured text with the context's width and flags, then a terminator, and returns its length |
| FormatEngine.PadField | misc/src/mzncore.h:1956-1973 | the padded case stores the field cut to `max - 1` bytes |
| FormatEngine.TextThenPad | misc/src/mzncore.h:1959-1965 | left-aligned, the text comes first, then the padding |
| FormatEngine.PadThenText | misc/src/mzncore.h:1966-1973 | right-aligned, the padding comes first, then the text |
| FormatEngine.ItoaClean | misc/src/mzncore.h:2112-2114 | integer text in a 64-byte buffer has no NUL and fewer than 64 bytes |
| FormatEngine.FormatNumber | misc/src/mzncore.h:2110-2135 | `%d`, `%x`, `%X`: the padded `mzn_itoa` text of the next `int` (base 10, or 16 in lower or upper case) |
| FormatEngine.FormatDoubleArg | misc/src/mzncore.h:2146-2153 | `%f`: the padded `mzn_dtoa` text of the next `double` at the context's precision |
| FormatEngine.FormatStringArg | misc/src/mzncore.h:2155-2173 | `%s`: the padded string, cut to the precision after a '.', and to 255 bytes |
| FormatEngine.CopyCapped | misc/src/mzncore.h:2168-2171 | at most 255 bytes of the string are copied into the 256-byte buffer, then a terminator |
| FormatEngine.FormatCharArg | misc/src/mzncore.h:2175-2183 | `%c`: the next `int` narrowed to a byte, as a one-byte C string, padded |
| FormatEngine.Dispatch | misc/src/mzncore.h:2045 | the call through the handler pointer stores the padded handler text |
| FormatDriver.ReadFlagsOf | misc/src/mzncore.h:1995-2006 | the flag loop on the parser computes `ReadFlags` |
| FormatDriver.SkipDigits | misc/src/mzncore.h:2013-2027 | the digit skip stops where the digit run ends |
| FormatDriver.ReadCountOf | misc/src/mzncore.h:2007-2015 | `*` takes the next `int`, a digit reads `mzn_atoi` of the raw text, and anything else leaves the default |
| FormatDriver.SkipLengthOf | misc/src/mzncore.h:2032-2037 | skips one `h` or `l`, and a second `l` after an `l` |
| FormatDriver.ReadPrecisionOf | misc/src/mzncore.h:2016-2031 | `truncate` is set iff a '.' is present; the precision is then read, or -1 without a '.' |
| FormatDriver.ParseDirectiveOf | misc/src/mzncore.h:1990-2038 | the parse on the objects computes `ParseDirective` and leaves the cursor after the specifier byte |
| FormatDriver.CopyVar | misc/src/mzncore.h:1978-2061 | resets the directive fields, parses the directive, and stores and counts exactly `DirectiveOutput` |
| FormatDriver.DispatchDirective | misc/src/mzncore.h:2039-2060 | the dispatch stores `DirectiveOutput` for the parsed directive |
| FormatDriver.Matched | misc/src/mzncore.h:2040-2047 | a hit gives the handler width `max(w, 0)`, precision `p` or 6, and the parsed flags, then stores its padded text |
| FormatDriver.Unmatched | misc/src/mzncore.h:2050-2056 | a miss stores '%', the symbol and a terminator and counts 2 when `size > 2`, else stores nothing |
| FormatDriver.DriverStep | misc/src/mzncore.h:2073-2088 | one loop iteration on the objects computes `Step` |
| FormatDriver.LiteralStep | misc/src/mzncore.h:2085-2087 | the literal branch computes `Step` |
| FormatDriver.PercentStep | misc/src/mzncore.h:2074-2084 | the `%` branch computes `Step` |
| FormatDriver.EscapedPercent | misc/src/mzncore.h:2076-2080 | `%%` stores one '%' only while `count < n - 1` |
| FormatDriver.DirectiveStep | misc/src/mzncore.h:2081-2084 | a directive iteration computes `Step` |
| FormatDriver.ParseFormatString | misc/src/mzncore.h:2063-2095 | the count and the destination are those of `Format`; `hung` is set exactly when the source would loop for ever |
| FormatDriver.VSnprintf | misc/src/mzncore.h:2185-2206 | `mzn_vsnprintf` / `mzn_snprintf` produce `Format` over the default table |
| FormatDriver.DefaultContext | misc/src/mzncore.h:2187-2195 | a fresh context with room for ten entries and the six default handlers registered in order |
| FormatDriver.RegisterIntegers | misc/src/mzncore.h:2190-2192 | registers `d`, `x`, `X` |
| FormatDriver.RegisterOthers | misc/src/mzncore.h:2193-2195 | registers `f`, `s`, `c` |
| FormatProps.FlagsAnyOrder | misc/src/mzncore.h:1995-2006 | `-` and `0` may come in any order and repeat; each flag is set iff it occurs in the run |
| FormatProps.PrecisionRules | misc/src/mzncore.h:2016-2031 | a '.' sets `truncate`; a bare '.' means precision 0; without a '.' the precision is -1 |
| FormatProps.StarWidthTakesArgFirst | misc/src/mzncore.h:2008-2010 | a `*` width takes the first argument, before the specifier's own |
| FormatProps.StarStarTakesTwoArgs | misc/src/mzncore.h:2008-2023 | `*.*` takes the width, then the precision, from the first two arguments |
| FormatProps.DigitWidth | misc/src/mzncore.h:2011-2014 | a digit width is read by `mzn_atoi` and consumes no argument |
| FormatProps.LengthModifiersSkipped | misc/src/mzncore.h:2032-2037 | `h`, `l` and `ll` have no effect on the directive |
| FormatProps.HandlerSeesDefaults | misc/src/mzncore.h:2041-2042 | the handler sees width `max(w, 0)` and precision 6 when none was given |
| FormatProps.PaddedLength | misc/src/mzncore.h:1938-1976 | the padded text has `min(max(width, len), max - 1)` bytes |
| FormatProps.PaddedLayout | misc/src/mzncore.h:1956-1973 | with room for the field, left alignment puts the text first and right alignment the padding; the pad byte is '0' only for zero-padded, right-aligned fields |
| FormatProps.NarrowFieldIsText | misc/src/mzncore.h:1949-1955 | a field no wider than the text is the text alone, cut to `max - 1` bytes |
| FormatProps.ZeroPadBeforeSign | misc/src/mzncore.h:1958-1972 | zero padding lands before the sign: `%05d` of -42 is "00-42" |
| FormatProps.HandlerTextClean | misc/src/mzncore.h:2110-2183 | every handler text is a NUL-free C string of at most 255 bytes, so padding measures it exactly |
| FormatProps.LongStringArgEmpty | misc/src/mzncore.h:2162 | `%s` of a string of 1024 or more bytes renders as nothing |
| FormatProps.PrecisionCutsString | misc/src/mzncore.h:2163-2170 | `%.Ns` keeps the first N bytes of a shorter string, and never more than 255 |
| FormatProps.StallIff | misc/src/mzncore.h:2073-2091 | an iteration leaves the cursor in place exactly when it meets a literal byte with `count == n - 1` |
| FormatProps.StalledStepRepeats | misc/src/mzncore.h:2086 | a stalled iteration reaches a state whose iteration is the same, so the source loops for ever |
| FormatProps.RunBounds | misc/src/mzncore.h:2073-2093 | the driver keeps `count <= n - 1`, stores a terminator at `count`, and changes nothing from index `n` on |
| FormatProps.FormatBounds | misc/src/mzncore.h:2063-2095 | with `n <= 0` nothing is written and the count is 0; otherwise `count <= n - 1`, `dest[count]` is NUL and `dest[n..]` is unchanged |
| FormatProps.SmallLimit | misc/src/mzncore.h:2070 | a limit up to INT32_MAX survives the `int32` store |
| FormatProps.FormatOfTemplate | misc/src/mzncore.h:2070-2072 | a clean template shorter than 1024 bytes is run in full |
| FormatProps.PercentPercent | misc/src/mzncore.h:2076-2080 | `%%` stores exactly one '%', and only while there is room for it and a terminator |
| FormatProps.NoPercentTemplate | misc/src/mzncore.h:2086-2090 | a template without '%' that fits is copied verbatim and terminated |
| FormatProps.LiteralSpan | misc/src/mzncore.h:1924-1929 | in a template free of NUL and '%', a literal run reaches the end |
| FormatProps.TruncatedLiteralHangs | misc/src/mzncore.h:2086 | a template without '%' that does not fit copies `n - 1` bytes and then never returns |
| FormatProps.TruncatedLiteralFirst | misc/src/mzncore.h:2086 | the first iteration over an oversized literal copies `n - 1` bytes and a terminator |
| FormatProps.TruncatedLiteralStall | misc/src/mzncore.h:2086 | with one byte of room the next iteration over the literal changes nothing |
| FormatProps.TrailingPercentMiscounts | misc/src/mzncore.h:2038-2055 | a template "%" returns 2 though the C string left is "%" of length 1 |
| FormatProps.TrailingPercentFirst | misc/src/mzncore.h:2050-2055 | a lone '%' stores '%', NUL, NUL and counts 2 |
| FormatProps.TrailingPercentBuffer | misc/src/mzncore.h:2089-2090 | after the final terminator the buffer holds the C string "%" |
| FormatProps.LonePercent | misc/src/mzncore.h:2038 | after a final '%' the directive reads the terminator as its symbol, which is not registered |
| FormatProps.LongTemplateEmpty | misc/src/mzncore.h:2071 | a template of 1024 or more bytes produces the empty string |
| FormatProps.OverwriteTwice | misc/src/mzncore.h:2089-2090 | storing the same bytes twice at one place is storing them once |
| PyText.Lower | vs_gen/vs_gen.py:236 | `lower()` keeps the length |
| PyText.LowerAppend | vs_gen/vs_gen.py:236 | `lower()` works piecewise on concatenations |
| PyText.LStrip | vs_gen/vs_gen.py:144 | `lstrip()` leaves a suffix that does not start with whitespace |
| PyText.RStrip | vs_gen/vs_gen.py:144 | `rstrip()` leaves a prefix that does not end with whitespace |
| PyText.RStripChar | vs_gen/vs_gen.py:146 | `rstrip(".")` leaves a prefix that does not end with '.' |
| PyText.LStripChar | vs_gen/vs_gen.py:208 | the left half of `strip(":")` leaves a suffix that does not start with ':' |
| PyText.WordEnd | vs_gen/vs_gen.py:205 | a token ends at the first whitespace |
| PyText.TokensClean | vs_gen/vs_gen.py:205 | every token of `split()` is non-empty and holds no whitespace |
| PyText.TokensEmptyIffBlank | vs_gen/vs_gen.py:205-207 | `split()` is empty exactly for blank text |
| PyText.ReplaceAbsent | vs_gen/vs_gen.py:128 | replacing text that does not occur changes nothing |
| PyText.ReplaceSelf | vs_gen/vs_gen.py:128 | replacing text by itself changes nothing |
| PyText.ContainsIff | vs_gen/vs_gen.py:197 | `k in s` holds exactly when `s` has `k` at some index |
| PyText.NatText | vs_gen/vs_gen.py:161 | `str(n)` is a non-empty run of digits |
| PyText.NatTextValue | vs_gen/vs_gen.py:161-162 | `int(str(n)) == n` |
| VsText.CommaJoinLayout | vs_gen/vs_gen.py:139 | `", ".join` keeps every item, first item first and last item last, with two characters per gap |
| VsText.GrammaticalJoinLayout | vs_gen/vs_gen.py:132-139 | `[]` gives ""; one item gives itself; two give "a and b"; more give ", " between leading items and ", and " before the last; the length follows |
| VsText.GrammaticalJoinThree | vs_gen/vs_gen.py:139 | three names read "a, b, and c" |
| VsText.ApplyCustomMapping | vs_gen/vs_gen.py:126-129 | the loop applies each `(key, replacement)` pair in dictionary order, as `str.replace` |
| VsText.MapAllAbsent | vs_gen/vs_gen.py:126-129 | a text in which no key occurs is unchanged |
| VsText.MapAllIdentity | vs_gen/vs_gen.py:126-129 | a mapping of every key to itself changes nothing |
| VsText.PlayerPrefixEnd | vs_gen/vs_gen.py:122-123 | a match of `^player\s+<name>[\s:,-]+` ends past "player" and inside the message |
| VsText.PlayerPrefixMatches | vs_gen/vs_gen.py:122-123 | "player", a space, the name and a run of separators match, ending where the separators end |
| VsText.PlayerPrefixDropped | vs_gen/vs_gen.py:143 | after "player <name>: " the rest of the line remains |
| VsText.DiedPrefixDropped | vs_gen/vs_gen.py:116-144 | "died" and the whitespace after it are dropped once |
| VsText.GotKilledPrefixDropped | vs_gen/vs_gen.py:116-144 | "got killed by" and the whitespace after it are dropped once |
| VsText.CleanedCauseStages | vs_gen/vs_gen.py:142-146 | the cause is the player prefix, the death prefix and a trailing '.' removed in that order, each followed by `strip()` |
| VsText.CleanDeathMessage | vs_gen/vs_gen.py:142-148 | never empty and never "died" in any case; otherwise the cleaned cause |
| VsText.CleanDeathMessageUnknown | vs_gen/vs_gen.py:148 | "unknown causes" stands in exactly for an empty cause or a bare "died" |
| VsText.CleanDeathMessageOfLine | vs_gen/vs_gen.py:142-148 | "player <name>: died <cause>." cleans to `<cause>` |
| VsText.DiedLineCause | vs_gen/vs_gen.py:144-148 | once the player prefix is gone, "died <cause>." cleans to `<cause>` |
| VsText.CleanDeathMessageBareDied | vs_gen/vs_gen.py:142-148 | "player <name> died" has an unknown cause |
| VsText.DiedCauseUnknown | vs_gen/vs_gen.py:144-148 | a message that is just "died" after the prefix has an unknown cause |
| VsText.LowerIdempotent | vs_gen/vs_gen.py:259-261 | `lower()` applied twice is `lower()` once |
| VsText.ParseTimeRange | vs_gen/vs_gen.py:159-170 | an answer comes only from trimmed, lower-cased text of digits and one unit letter; a duration it returns is below 10^9 days, the most a `timedelta` holds, and anything longer is `RangeOverflow`, the `OverflowError` |
| VsText.ParseTimeRangeRoundTrip | vs_gen/vs_gen.py:159-170 | `str(v)` and a unit letter in either case parse to `v` units when that is under 10^9 days, and overflow otherwise |
| VsText.TimeRangeDayLimit | vs_gen/vs_gen.py:168-169 | "999999999d" is a duration and "1000000000d" overflows |
| VsText.ParseTimeRangeRejects | vs_gen/vs_gen.py:160-170 | a number without a unit, or with a leading sign, is refused |
| VsText.InterestingIff | vs_gen/vs_gen.py:194-201 | a line is interesting exactly when its lower-cased text has "died", "death message" or "killed" at some index, or has both "fire" and "spread" |
| VsText.InterestingExtends | vs_gen/vs_gen.py:194-201 | more text around an interesting line keeps it interesting |
| VsText.ExtractPlayerNameIsWord | vs_gen/vs_gen.py:204-209 | no name exactly for blank text; otherwise the name is one of the line's tokens |
| VsText.ExtractPlayerNameAfterKeyword | vs_gen/vs_gen.py:208-209 | when the first token, stripped of ':' and lower-cased, is "player" or "client", the second token is the name |
| VsText.ExtractPlayerNameFirstWord | vs_gen/vs_gen.py:209 | any other first token is itself the name |
| VsText.ExtractPlayerNameLoneKeyword | vs_gen/vs_gen.py:209 | a keyword with no second token is returned as the name |
| VsPatterns.FindIgnoringCase | vs_gen/vs_gen.py:264-269 | a hit is a position where the word occurs, ignoring case |
| VsPatterns.LineEnd | vs_gen/vs_gen.py:264 | `.` matches up to the first line feed |
| VsPatterns.DeathCauseUnmarked | vs_gen/vs_gen.py:264-265 | without "death message:" the whole message is the cause text |
| VsPatterns.NameEnd | vs_gen/vs_gen.py:269 | the `[\w:.-]+` run ends at the first other character |
| VsPatterns.KillTargetIsName | vs_gen/vs_gen.py:269 | a captured enemy is a non-empty run of `[\w:.-]` characters |
| VsPatterns.KillTargetOfName | vs_gen/vs_gen.py:269 | "killed <name>" captures the name, unless it starts with "by" |
| VsPatterns.KillTargetAfterArticle | vs_gen/vs_gen.py:269 | "killed a <name>" captures the name, not the article |
| VsPatterns.KillAfterBy | vs_gen/vs_gen.py:269 | the look-ahead refuses "killed by" |
| VsPatterns.NoArticle | vs_gen/vs_gen.py:269 | an article needs whitespace after it |
| VsPatterns.QuantityOfNumber | vs_gen/vs_gen.py:278 | a number written before 'x' is found as a quantity |
| VsPatterns.QuantitiesWithoutDigits | vs_gen/vs_gen.py:278 | text without digits has no quantities |
| VsPatterns.OffthreadChunkCountOf | vs_gen/vs_gen.py:247-256 | the game's save message, in any letter case, reports its chunk count back; a count of more than 4300 digits, which `int()` refuses and the caller catches, reports nothing |
| VsPatterns.OffthreadChunkCountAt | vs_gen/vs_gen.py:119 | the match, stated by the positions where each part of the pattern ends |
| VsPatterns.OffthreadNeedsHead | vs_gen/vs_gen.py:119 | the pattern is anchored: text not starting with the head is no chunk save |
| VsAggregator.FoundMetalsMembers | vs_gen/vs_gen.py:276-280 | a metal is added iff it is configured, named in the lower-cased message, and the message carries a large quantity |
| VsAggregator.AuditUpdateWellFormed | vs_gen/vs_gen.py:258-280 | handling an audit line keeps keys lower-case and never "player", and every record non-empty, with real death causes and configured metals |
| VsAggregator.AuditUpdateAppends | vs_gen/vs_gen.py:258-280 | only the line's own player changes, by appending at most one death and one kill and adding metals; nothing is removed |
| VsAggregator.AuditUpdateSkips | vs_gen/vs_gen.py:259-261 | a line naming nobody, or the word "player", changes nothing |
| VsAggregator.StepWellFormed | vs_gen/vs_gen.py:235-256 | `process_event` keeps the player table well formed |
| VsAggregator.ProcessAllChunks | vs_gen/vs_gen.py:246-254 | the chunk fields after a run depend only on the chunk fields and what the events report |
| VsAggregator.ChunkKept | vs_gen/vs_gen.py:246-254 | with no newer report the count is kept, and the recorded time never moves backwards |
| VsAggregator.ChunkLatestWins | vs_gen/vs_gen.py:250-253 | a changed time comes from a replacing report that carries the final count, and no report is newer than the final time |
| VsAggregator.ChunkCountOfRun | vs_gen/vs_gen.py:246-256 | over a run of events, only an `Event` offthread-save line with a count `int()` accepts and strictly newer than the recorded time replaces the count, and the latest one wins |
| VsAggregator.StormNotices | vs_gen/vs_gen.py:243-244 | every collected event is a "temporal storm" notification |
| VsAggregator.StormEventsCollected | vs_gen/vs_gen.py:243-244 | storm notifications are collected in arrival order, and nothing else enters the list |
| VsAggregator.PlayersOnlyFromAudit | vs_gen/vs_gen.py:237-242 | lines other than audit lines never change the player table |
| VsAggregator.Earliest | vs_gen/vs_gen.py:282-297 | none iff no event says the phrase; otherwise the smallest timestamp of such an event |
| VsAggregator.Latest | vs_gen/vs_gen.py:282-297 | none iff no event says the phrase; otherwise the largest timestamp of such an event |
| VsAggregator.InsertByTime | vs_gen/vs_gen.py:302 | inserting into a time-sorted list keeps it sorted and adds exactly that event |
| VsAggregator.SortByTime | vs_gen/vs_gen.py:302 | `sorted(key=timestamp)` is sorted and a permutation |
| VsAggregator.SortStable | vs_gen/vs_gen.py:302 | the sort is stable: events with equal timestamps keep their order |
| VsAggregator.PairingChained | vs_gen/vs_gen.py:303-309 | over time-ordered events each pair starts no later than it ends, and ends no later than the next one starts |
| VsAggregator.CompleteStormsChained | vs_gen/vs_gen.py:299-310 | the complete storms are ordered and do not overlap |
| VsAggregator.NoImminentNoStorms | vs_gen/vs_gen.py:305-309 | without an "imminent" notice there is no complete storm |
| VsAggregator.StormClosedByWaning | vs_gen/vs_gen.py:305-309 | a pending start is closed by the first "waning" notice, and the pending start is cleared |
| VsAggregator.EventAggregator.constructor | vs_gen/vs_gen.py:220-233 | no players, no storm events, count 0 and no chunk timestamp |
| VsAggregator.EventAggregator.ProcessEvent | vs_gen/vs_gen.py:235-256 | the new state is `Step` of the old one, and the player table stays well formed |
| VsAggregator.EventAggregator.ProcessAuditEvent | vs_gen/vs_gen.py:258-280 | the new players are `AuditUpdate` of the old ones |
| VsAggregator.EventAggregator.RecordDeath | vs_gen/vs_gen.py:262-266 | a death line appends its cleaned cause to the player's details |
| VsAggregator.EventAggregator.RecordKill | vs_gen/vs_gen.py:267-272 | a kill line appends the enemy, mapped through both tables |
| VsAggregator.EventAggregator.AddLargeMetals | vs_gen/vs_gen.py:273-280 | the metal loop adds exactly `FoundMetals` |
| VsAggregator.EventAggregator.AggregateStormTimes | vs_gen/vs_gen.py:282-297 | the earliest "approaching", the earliest "imminent" and the latest "waning" timestamps; one message may count for several |
| VsAggregator.EventAggregator.GetCompleteStorms | vs_gen/vs_gen.py:299-310 | the pairing loop over the time-sorted events returns `CompleteStorms` |
| VsAggregator.AddMetalsTwice | vs_gen/vs_gen.py:278-280 | adding one more metal after a set is adding their union |
| VsMain.ProcessNewEvents | vs_gen/vs_gen.py:516-528 | exactly the events newer than the saved timestamp are processed, in order; the returned time is `max_timestamp_in_run` |
| VsMain.NewEventsMembers | vs_gen/vs_gen.py:524-525 | an event is processed iff it is newer than the saved timestamp |
| VsMain.LatestTimeBounds | vs_gen/vs_gen.py:514-527 | `max_timestamp_in_run` is at least the saved time, no event is newer, and it is the saved time or some event's time |
| VsMain.NoEventTwice | vs_gen/vs_gen.py:514-528 | saving `max_timestamp_in_run` means the next run over the same logs processes nothing again |
| VsMain.AddedChunks | vs_gen/vs_gen.py:536-539 | the added chunks are never negative, positive iff the count grew, and then the increase |
| VsMain.CarryOverChunks | vs_gen/vs_gen.py:532-539 | without a chunk time in this run the previous count is kept; the added chunks are the clamped difference |
| VsMain.RunChunkCount | vs_gen/vs_gen.py:532-539 | with no chunk report the previous count stays and nothing is added; otherwise the count is the one from the recorded event and no report is newer |
| VsMain.TruncateToLimitSpec | vs_gen/vs_gen.py:570-571 | a longer summary becomes exactly `char_limit` characters keeping its start, ending in "..." when the limit exceeds 3; otherwise it is unchanged |
| VsNarrative.Distinct | vs_gen/vs_gen.py:324 | the counter's keys are the items, each once, in first-seen order |
| VsNarrative.MostCommonRanked | vs_gen/vs_gen.py:325-326 | `most_common(n)` has at most `n` keys, all of them when `n` is large enough, no key twice, ranked by count with first-seen order on ties; every key left out ranks below every key kept |
| VsNarrative.CounterRanked | vs_gen/vs_gen.py:324-325 | all the counter's keys, ranked |
| VsNarrative.RankedNoDuplicates | vs_gen/vs_gen.py:325 | a ranked list names no key twice |
| VsNarrative.SumCountsIsLength | vs_gen/vs_gen.py:327 | `sum(counter.values())` is the number of items |
| VsNarrative.SummarizeTopSpec | vs_gen/vs_gen.py:321-327 | no items give ("", 0); otherwise the prose join of the top names and the number of items |
| VsNarrative.MostCommonFirst | vs_gen/vs_gen.py:325-326 | the name seen strictly most often leads the summary |
| VsNarrative.FormatBraceless | vs_gen/vs_gen.py:409 | text without braces passes through `format` unchanged |
| VsNarrative.FormatOneField | vs_gen/vs_gen.py:409 | `before{count}after` with no other brace reads `before`, the value, `after` |
| VsNarrative.FormatEscaped | vs_gen/vs_gen.py:409 | `format` undoes brace doubling |
| VsNarrative.ChunkSummarySpec | vs_gen/vs_gen.py:407-411 | no sentence for a count that is not positive; the default wording writes the count in decimal, and it reads back as the count |

## Left out

- The Win32 platform layer of `misc/src/mzncore.h` is left out. This covers windows, `VirtualAlloc`, performance counters, file and console writes and `mzn_sys_scan_dir`. All of these are operating-system calls.
- WASAPI audio is left out: COM objects and a callback-driven stream.
- Floating point is not modelled: `mzn_dtoa`, `mzn_ftoa`, `mzn_atof`, the sine and cosine polynomials and `round_nearest`. The `f` handler takes the `mzn_dtoa` text of its argument as given. `mzn_format_float` is never registered, so it is not modelled.
- `mzn_debug_log`, the log buffer, `mzn_write` and the console output of `mzn_printf` are output only. `mzn_printf` runs the same formatter as `VSnprintf`, over a 16-entry table and a 1024-byte buffer.
- `va_list` mechanics are replaced by a typed argument sequence. Reading a missing or mismatched argument, which is undefined in C, gives 0, NULL or an empty rendering.
- Handler function pointers are replaced by the `Handler` datatype. The vector macros and `misc/src/shit.c` hold no logic beyond arithmetic and a demo loop.
- FormatDriver.ParseFormatString: where the source loops for ever, the method returns with `hung` set and with the count and buffer the endless loop keeps.
- FormatDriver.ParseFormatString: the final `dest[n - 1] = '\0'` branch is not written, because `count` never reaches `n` (`FormatSpec.Step` proves this).
- IntText.Xtoi: the source accumulates in an `int64` that can overflow on runs of more than 16 hex digits, which is undefined in C. The model takes that overflow as two's-complement wrap-around (`WrapI64`) at each step.
- IntText.Nlen: `-n` on INT32_MIN is undefined in C. The model takes the 32-bit wrap-around, under which `mzn_nlen` still counts 11 characters.
- IntText.Itoa: the sign is written without checking `size`. With `size == 1` and a negative decimal the terminator lands at `str[1]`, so the method requires a second byte there.
- MemOps.MemCpy: the source copies `destSize` bytes from `src`. The method therefore requires `src` to have that many bytes; C would read past its end.
- FormatEngine.FormatDoubleArg: the model assumes the `mzn_dtoa` text fits its 128-byte buffer, which holds for every precision up to 115. For `%.Nf` with N of 116 or more the source overruns the buffer, and with N above 129 `mzn_dtoa` writes nothing and the buffer is read uninitialised. Neither is modelled: the model cuts the text to 127 bytes there.
- Python I/O is left out: `argparse`, `glob`, reading logs, the state file, JSON configuration loading and `logging`. `LogEvent.from_line` and `parse_timestamp` are left out too: events arrive already parsed, with integer timestamps.
- Only the few regular expressions the rules use are modelled, as hand-written matchers. `\d` and `\w` are restricted to their ASCII forms. `\s` and `split()` use Python's full Unicode whitespace set (`PyText.IsSpace`). `lower()` folds only ASCII letters. The case-insensitive (`re.I`) matchers fold only ASCII too, while Python's `re.I` also matches 'ſ' with 's' and the Kelvin sign with 'k'.
- VsText.ParseTimeRange: the answer is a number of minutes rather than a `timedelta`, and `RangeOverflow` stands for the `OverflowError` that `timedelta` raises and `main` does not catch.
- VsText.ParseTimeRange: Python 3.11 and later also refuse `int()` of more than 4300 digits with a `ValueError`; the model reads any run of digits.
- VsPatterns.QuantityOfNumber: a quantity of more than 4300 digits before 'x' makes `int(q)` raise `ValueError` in Python 3.11 and later (vs_gen.py:279). `VsPatterns.Quantities` reads it as a number. Only `VsPatterns.OffthreadChunkCount` models that refusal, because there the caller catches it.
- VsAggregator.FoundMetalsMembers: on a line with such a quantity the source raises instead of adding the metal; the model adds it when the quantity is large.
- VsAggregator.EventAggregator.ProcessEvent: on a line with such a quantity the source stops after that line's death and kill records; the model also applies the metal rule.
- VsMain.ProcessNewEvents: the error from such a quantity ends the source's reading of that log file (vs_gen.py:529-530). The model takes the events as one stream without file boundaries and processes every newer event.
- `generate_player_summary`, `generate_story`, `generate_storm_summary` and the Markdown wording of the output templates are left out. They only choose prose around the counts and times modelled here.
- VsNarrative.ChunkSummary: only the `{count}` field, `{{` and `}}` are modelled in a chunk-summary template. A conversion, a format spec or an attribute after `count` (`{count!r}`, `{count:,}`, `{count.real}`) is treated as an error, though Python accepts it. Such a template can only come from the configuration file.
- The "In the last …" range message built in `main` is left out. It repeats the `parse_time_range` match.
