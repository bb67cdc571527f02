/**
 * The Python string operations the log summariser of vs_gen.py relies on,
 * for strings as sequences of code points: `str.isspace`, `str.lower` (on
 * ASCII letters), `strip`, `split()`, `in`, `replace`, `join`, `str(int)` and
 * `int(str)` on decimal digits.
 */
module PyText {
  /** `c.isspace()`: the characters Python treats as whitespace (also what `\s` matches). */
  predicate IsSpace(c: char)
  {
    c == ' ' || '\t' <= c <= '\r' || '\U{1c}' <= c <= '\U{1f}' || c == '\U{85}' || c == '\U{a0}'
    || c == '\U{1680}' || '\U{2000}' <= c <= '\U{200a}' || c == '\U{2028}' || c == '\U{2029}'
    || c == '\U{202f}' || c == '\U{205f}' || c == '\U{3000}'
  }

  /** One character of `str.lower()`, for ASCII letters. */
  function LowerChar(c: char): char
  {
    if 'A' <= c <= 'Z' then (c as int + 32) as char else c
  }

  /** `s.lower()`. */
  function Lower(s: string): (r: string)
    ensures |r| == |s|
  {
    if s == [] then [] else [LowerChar(s[0])] + Lower(s[1..])
  }

  /** `lower()` works character by character. */
  lemma {:induction false} LowerAt(s: string, i: nat)
    requires i < |s|
    ensures Lower(s)[i] == LowerChar(s[i])
  {
    if i > 0 {
      LowerAt(s[1..], i - 1);
    }
  }

  /** Two texts of one length whose characters agree after `lower()` give one lower case. */
  lemma {:induction false} LowerPointwise(s: string, r: string)
    requires |r| == |s| && forall i :: 0 <= i < |s| ==> r[i] == LowerChar(s[i])
    ensures Lower(s) == r
  {
    forall i | 0 <= i < |s| ensures Lower(s)[i] == r[i] {
      LowerAt(s, i);
    }
  }

  lemma {:induction false} LowerAppend(a: string, b: string)
    ensures Lower(a + b) == Lower(a) + Lower(b)
  {
    var r := Lower(a) + Lower(b);
    forall i | 0 <= i < |a + b| ensures r[i] == LowerChar((a + b)[i]) {
      if i < |a| {
        LowerAt(a, i);
      } else {
        LowerAt(b, i - |a|);
      }
    }
    LowerPointwise(a + b, r);
  }

  lemma {:induction false} LowerSlice(s: string, i: nat, j: nat)
    requires i <= j <= |s|
    ensures Lower(s)[i..j] == Lower(s[i..j])
  {
    var r := Lower(s)[i..j];
    forall k | 0 <= k < j - i ensures r[k] == LowerChar(s[i..j][k]) {
      LowerAt(s, i + k);
    }
    LowerPointwise(s[i..j], r);
  }

  predicate StartsWith(s: string, k: string)
  {
    |k| <= |s| && s[..|k|] == k
  }

  /** `k in s`: `k` occurs in `s` at some position. */
  predicate Contains(s: string, k: string)
    decreases |s|
  {
    StartsWith(s, k) || (|s| > 0 && Contains(s[1..], k))
  }

  /** An occurrence stays an occurrence when text is added after it. */
  lemma {:induction false} ContainsAppendRight(a: string, b: string, k: string)
    requires Contains(a, k)
    ensures Contains(a + b, k)
    decreases |a|
  {
    if !StartsWith(a, k) {
      ContainsAppendRight(a[1..], b, k);
      assert (a + b)[1..] == a[1..] + b;
    } else {
      assert (a + b)[..|k|] == a[..|k|];
    }
  }

  /** An occurrence stays an occurrence when text is added before it. */
  lemma {:induction false} ContainsAppendLeft(b: string, a: string, k: string)
    requires Contains(a, k)
    ensures Contains(b + a, k)
    decreases |b|
  {
    if b != [] {
      ContainsAppendLeft(b[1..], a, k);
      assert (b + a)[1..] == b[1..] + a;
    } else {
      assert b + a == a;
    }
  }

  /** `Contains` finds exactly the positions where `k` occurs. */
  lemma {:induction false} ContainsAt(s: string, k: string, i: nat)
    requires i + |k| <= |s| && s[i..i + |k|] == k
    ensures Contains(s, k)
    decreases i
  {
    if i > 0 {
      assert s[1..][i - 1..i - 1 + |k|] == k;
      ContainsAt(s[1..], k, i - 1);
    }
  }

  /** `k` occurs in `s` starting at index `i`. */
  predicate OccursAt(s: string, k: string, i: nat)
  {
    i + |k| <= |s| && s[i..i + |k|] == k
  }

  /** Every occurrence `Contains` reports is at some index. */
  lemma {:induction false} ContainsWitness(s: string, k: string) returns (i: nat)
    requires Contains(s, k)
    ensures OccursAt(s, k, i)
    decreases |s|
  {
    if StartsWith(s, k) {
      i := 0;
      assert s[0..|k|] == s[..|k|];
    } else {
      var j := ContainsWitness(s[1..], k);
      i := j + 1;
      assert s[i..i + |k|] == s[1..][j..j + |k|];
    }
  }

  /** `k` occurs somewhere in `s`: the positional reading of `k in s`. */
  ghost predicate Occurs(s: string, k: string)
  {
    exists i: nat :: OccursAt(s, k, i)
  }

  /** `k in s` holds exactly when `k` occurs at some index of `s`. */
  lemma {:induction false} ContainsIff(s: string, k: string)
    ensures Contains(s, k) <==> Occurs(s, k)
  {
    if Contains(s, k) {
      var i := ContainsWitness(s, k);
    }
    if exists i: nat :: OccursAt(s, k, i) {
      var i: nat :| OccursAt(s, k, i);
      ContainsAt(s, k, i);
    }
  }

  /** `s.lstrip()`. */
  function LStrip(s: string): (r: string)
    ensures |r| <= |s| && r == s[|s| - |r|..]
    ensures r == [] || !IsSpace(r[0])
  {
    if s != [] && IsSpace(s[0]) then LStrip(s[1..]) else s
  }

  /** `s.rstrip()`. */
  function RStrip(s: string): (r: string)
    ensures |r| <= |s| && r == s[..|r|]
    ensures r == [] || !IsSpace(r[|r| - 1])
  {
    if s != [] && IsSpace(s[|s| - 1]) then RStrip(s[..|s| - 1]) else s
  }

  /** `s.strip()`. */
  function Strip(s: string): string
  {
    RStrip(LStrip(s))
  }

  /** `s.lstrip(c)` for a single character `c`. */
  function LStripChar(s: string, c: char): (r: string)
    ensures |r| <= |s| && r == s[|s| - |r|..] && (r == [] || r[0] != c)
  {
    if s != [] && s[0] == c then LStripChar(s[1..], c) else s
  }

  /** `s.rstrip(c)` for a single character `c`. */
  function RStripChar(s: string, c: char): (r: string)
    ensures |r| <= |s| && r == s[..|r|] && (r == [] || r[|r| - 1] != c)
  {
    if s != [] && s[|s| - 1] == c then RStripChar(s[..|s| - 1], c) else s
  }

  /** `s.strip(c)` for a single character `c`. */
  function StripChar(s: string, c: char): string
  {
    RStripChar(LStripChar(s, c), c)
  }

  /** Where the run of non-whitespace characters starting at `i` ends. */
  function WordEnd(s: string, i: nat): (j: nat)
    requires i <= |s|
    ensures i <= j <= |s| && (j == |s| || IsSpace(s[j]))
    ensures forall k :: i <= k < j ==> !IsSpace(s[k])
    decreases |s| - i
  {
    if i < |s| && !IsSpace(s[i]) then WordEnd(s, i + 1) else i
  }

  /** `s.split()`: the maximal runs of non-whitespace characters, in order. */
  function Tokens(s: string): seq<string>
    decreases |s|
  {
    if s == [] then []
    else if IsSpace(s[0]) then Tokens(s[1..])
    else
      var j := WordEnd(s, 0);
      [s[..j]] + Tokens(s[j..])
  }

  /** Every token is non-empty and holds no whitespace. */
  lemma {:induction false} TokensClean(s: string)
    ensures forall t :: t in Tokens(s) ==> t != [] && forall k :: 0 <= k < |t| ==> !IsSpace(t[k])
    decreases |s|
  {
    if s != [] {
      if IsSpace(s[0]) {
        TokensClean(s[1..]);
      } else {
        TokensClean(s[WordEnd(s, 0)..]);
      }
    }
  }

  /** `s.split()` is empty exactly when `s` is blank. */
  lemma {:induction false} TokensEmptyIffBlank(s: string)
    ensures Tokens(s) == [] <==> forall k :: 0 <= k < |s| ==> IsSpace(s[k])
    decreases |s|
  {
    if s != [] {
      if IsSpace(s[0]) {
        TokensEmptyIffBlank(s[1..]);
        assert (forall k :: 0 <= k < |s| ==> IsSpace(s[k])) <==> (forall k :: 0 <= k < |s[1..]| ==> IsSpace(s[1..][k]));
      }
    }
  }

  /** `s.replace(k, r)`: every non-overlapping occurrence of `k`, left to right; an empty `k` matches between all characters. */
  function ReplaceAll(s: string, k: string, r: string): string
    decreases |s|
  {
    if k == [] then (if s == [] then r else r + [s[0]] + ReplaceAll(s[1..], k, r))
    else if |s| < |k| then s
    else if s[..|k|] == k then r + ReplaceAll(s[|k|..], k, r)
    else [s[0]] + ReplaceAll(s[1..], k, r)
  }

  /** Replacing a text that does not occur changes nothing. */
  lemma {:induction false} ReplaceAbsent(s: string, k: string, r: string)
    requires k != [] && !Contains(s, k)
    ensures ReplaceAll(s, k, r) == s
    decreases |s|
  {
    if |s| >= |k| {
      ReplaceAbsent(s[1..], k, r);
    }
  }

  /** Replacing a text by itself changes nothing. */
  lemma {:induction false} ReplaceSelf(s: string, k: string)
    ensures ReplaceAll(s, k, k) == s
    decreases |s|
  {
    if k == [] {
      if s != [] {
        ReplaceSelf(s[1..], k);
      }
    } else if |s| >= |k| {
      if s[..|k|] == k {
        ReplaceSelf(s[|k|..], k);
        assert s == s[..|k|] + s[|k|..];
      } else {
        ReplaceSelf(s[1..], k);
      }
    }
  }

  /** `sep.join(items)`. */
  function Join(sep: string, items: seq<string>): string
  {
    if items == [] then []
    else if |items| == 1 then items[0]
    else items[0] + sep + Join(sep, items[1..])
  }

  predicate IsDigit(c: char)
  {
    '0' <= c <= '9'
  }

  predicate AllDigits(s: string)
  {
    forall k :: 0 <= k < |s| ==> IsDigit(s[k])
  }

  /**
   * CPython's default `sys.int_info.default_max_str_digits`: from 3.11 on,
   * `int()` of a decimal text longer than this raises `ValueError`.
   */
  const INT_MAX_STR_DIGITS: nat := 4300

  /** `int(ds)` for a string of ASCII digits. */
  function DecimalValue(ds: string): nat
    requires AllDigits(ds)
  {
    if ds == [] then 0 else DecimalValue(ds[..|ds| - 1]) * 10 + (ds[|ds| - 1] as int - '0' as int)
  }

  /** `str(n)` for a natural number. */
  function NatText(n: nat): (s: string)
    ensures |s| >= 1 && AllDigits(s)
  {
    var d := ['0' + (n % 10) as char];
    if n < 10 then d else NatText(n / 10) + d
  }

  /** `int(str(n)) == n`. */
  lemma {:induction false} NatTextValue(n: nat)
    ensures DecimalValue(NatText(n)) == n
  {
    var s := NatText(n);
    if n >= 10 {
      NatTextValue(n / 10);
      assert s[..|s| - 1] == NatText(n / 10);
    }
  }
}
