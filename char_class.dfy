/**
 * The character classifiers of mzncore.h (`mzn_is_*`) and the hex-digit
 * decoder `mzn_cxtou`. Their argument is a plain `char`, which is signed on
 * the platform the library targets, so bytes 0x80..0xFF compare as negative.
 */
module CharClass {
  import opened CBytes

  /** `mzn_is_whitespace_ex`: any control byte except NUL, DEL, and (signed) every high byte. */
  predicate IsWhitespaceEx(c: CChar) {
    (c != NUL && Signed(c) <= ' ' as int) || c as int == 0x7F
  }

  /** `mzn_is_whitespace`: space, tab, newline, vertical tab, form feed, carriage return. */
  predicate IsWhitespace(c: CChar) {
    c == ' ' || c == '\t' || c == '\n' || c as int == 0x0B || c as int == 0x0C || c == '\r'
  }

  predicate IsAlpha(c: CChar) {
    ('A' <= c <= 'Z') || ('a' <= c <= 'z')
  }

  predicate IsNumeric(c: CChar) {
    '0' <= c <= '9'
  }

  predicate IsAlphanumeric(c: CChar) {
    IsAlpha(c) || IsNumeric(c)
  }

  /** `mzn_is_readable`: printable ASCII, space to tilde. */
  predicate IsReadable(c: CChar) {
    ' ' as int <= Signed(c) <= '~' as int
  }

  /** `mzn_is_readable_ex`: printable ASCII or an unsigned byte in 0x80..0xFE. */
  predicate IsReadableEx(c: CChar) {
    (' ' as int <= Signed(c) <= '~' as int) || (0x80 <= c as int <= 0xFE)
  }

  predicate IsHex(c: CChar) {
    IsNumeric(c) || ('a' <= c <= 'f') || ('A' <= c <= 'F')
  }

  /**
   * `mzn_cxtou`. A decimal digit gives its value; any other byte whose signed
   * value is at least 'A' gives `c - 'A' + 10`, so lower-case letters land in
   * that branch too ('a' gives 42). The source's third test (`chr >= 'a'`) is
   * never reached, because every such byte already passed `chr >= 'A'`.
   */
  function HexValue(c: CChar): nat {
    if IsNumeric(c) then c as int - '0' as int
    else if Signed(c) >= 'A' as int then Signed(c) - 'A' as int + 10
    else 0
  }

  /** How the classifiers nest inside each other. */
  lemma {:induction false} ClassifierInclusions(c: CChar)
    ensures IsWhitespace(c) ==> IsWhitespaceEx(c)
    ensures IsNumeric(c) ==> IsHex(c) && IsAlphanumeric(c)
    ensures IsHex(c) ==> IsAlphanumeric(c)
    ensures IsAlphanumeric(c) ==> IsReadable(c)
    ensures IsReadable(c) ==> IsReadableEx(c) && (c == ' ' || !IsWhitespace(c))
  {
  }

  /** With a signed `char`, every byte 0x80..0xFF is "extended whitespace" and nothing else. */
  lemma {:induction false} HighBytes(c: CChar)
    requires c as int >= 0x80
    ensures IsWhitespaceEx(c)
    ensures !IsWhitespace(c) && !IsAlpha(c) && !IsNumeric(c) && !IsHex(c) && !IsReadable(c)
    ensures IsReadableEx(c) <==> c as int != 0xFF
    ensures HexValue(c) == 0
  {
  }

  /** What `mzn_cxtou` gives for each kind of hex digit, lower-case letters included. */
  lemma {:induction false} HexValueOfHexDigits(c: CChar)
    requires IsHex(c)
    ensures IsNumeric(c) ==> HexValue(c) == c as int - '0' as int < 10
    ensures 'A' <= c <= 'F' ==> HexValue(c) == c as int - 'A' as int + 10 < 16
    ensures 'a' <= c <= 'f' ==> HexValue(c) == c as int - 'a' as int + 42 >= 42
  {
  }
}
