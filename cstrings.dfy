/**
 * The C-string routines of mzncore.h. All but `mzn_strcmp` and `mzn_strcpy`
 * give up on strings of `MAX_STRING` (1024) or more characters.
 */
module CStrings {
  import opened Wrappers
  import opened CBytes

  const MAX_STRING: nat := 1024

  /** What `mzn_strlen` returns: the C string's length, or 0 for NULL or a string of 1024+ characters. */
  function CStrLen(s: Option<seq<CChar>>): (n: nat)
    ensures n < MAX_STRING
  {
    if s.None? || |CStr(s.value)| >= MAX_STRING then 0 else |CStr(s.value)|
  }

  /** `mzn_strlen`: count up to the terminator, answering 0 as soon as the count reaches 1024. */
  method StrLen(s: Option<seq<CChar>>) returns (n: nat)
    ensures n == CStrLen(s)
  {
    n := 0;
    if s.None? {
      return;
    }
    var str := s.value;
    while CharAt(str, n) != NUL
      invariant n <= |str| && n < MAX_STRING
      invariant forall k :: 0 <= k < n ==> str[k] != NUL
      decreases |str| - n
    {
      n := n + 1;
      if n >= MAX_STRING {
        assert CStr(str)[..n] == str[..n];
        return 0;
      }
    }
    assert str[..n] == CStr(str)[..n];
  }

  /** Index of the first byte at or after `i` where `a` and `b` differ or `a` ends. */
  function MismatchFrom(a: seq<CChar>, b: seq<CChar>, i: nat): (j: nat)
    requires i <= |a| && i <= |b|
    ensures i <= j <= |a| && j <= |b|
    ensures CharAt(a, j) == NUL || CharAt(a, j) != CharAt(b, j)
    ensures forall k :: i <= k < j ==> a[k] == b[k] && a[k] != NUL
    decreases |a| - i
  {
    if CharAt(a, i) == NUL || CharAt(a, i) != CharAt(b, i) then i else MismatchFrom(a, b, i + 1)
  }

  /** The value `mzn_strcmp` returns: the unsigned difference of the first differing bytes. */
  function CompareResult(a: seq<CChar>, b: seq<CChar>): int
  {
    var j := MismatchFrom(a, b, 0);
    CharAt(a, j) as int - CharAt(b, j) as int
  }

  /** `mzn_strcmp` (no NULL check and no length cap in the source). */
  method StrCmp(a: seq<CChar>, b: seq<CChar>) returns (r: int)
    ensures r == CompareResult(a, b)
  {
    var i: nat := 0;
    while true
      invariant i <= |a| && i <= |b|
      invariant MismatchFrom(a, b, i) == MismatchFrom(a, b, 0)
      decreases |a| - i
    {
      var c1, c2 := CharAt(a, i), CharAt(b, i);
      if c1 == NUL || c1 != c2 {
        return c1 as int - c2 as int;
      }
      i := i + 1;
    }
  }

  /** `mzn_strcmp` answers 0 exactly when the two C strings are equal. */
  lemma {:induction false} CompareZeroIffEqual(a: seq<CChar>, b: seq<CChar>)
    ensures CompareResult(a, b) == 0 <==> CStr(a) == CStr(b)
  {
    var j := MismatchFrom(a, b, 0);
    if CompareResult(a, b) == 0 {
      NulIndex(a, j);
      NulIndex(b, j);
    }
    if CStr(a) == CStr(b) {
      var n := |CStr(a)|;
      forall k | 0 <= k < n ensures a[k] == b[k] && a[k] != NUL {
        assert a[k] == CStr(a)[k] && b[k] == CStr(b)[k];
      }
      assert CharAt(a, n) == NUL && CharAt(b, n) == NUL;
    }
  }

  /** Swapping the arguments of `mzn_strcmp` negates the result. */
  lemma {:induction false} CompareAntisymmetric(a: seq<CChar>, b: seq<CChar>)
    ensures CompareResult(a, b) == -CompareResult(b, a)
  {
    var j, j' := MismatchFrom(a, b, 0), MismatchFrom(b, a, 0);
    assert j == j';
  }

  /** An index `j` with `CharAt(s, j) == NUL` and no NUL before it is the length of the C string. */
  lemma {:induction false} NulIndex(s: seq<CChar>, j: nat)
    requires j <= |s| && CharAt(s, j) == NUL
    requires forall k :: 0 <= k < j ==> s[k] != NUL
    ensures CStr(s) == s[..j]
  {
    NoNulPrefix(s, j);
  }

  /** A prefix free of NUL lies inside the C string. */
  lemma {:induction false} NoNulPrefix(s: seq<CChar>, m: nat)
    requires m <= |s|
    requires forall k :: 0 <= k < m ==> s[k] != NUL
    ensures m <= |CStr(s)|
  {
  }

  /** The text `mzn_strcpy`/`mzn_strncpy` write: the C string, cut to at most `limit` characters. */
  function CopiedText(src: seq<CChar>, limit: nat): (t: seq<CChar>)
    ensures |t| == Min(|CStr(src)|, limit)
    ensures t == CStr(src)[..|t|] && t == src[..|t|]
    ensures NUL !in t
  {
    CStr(src)[..Min(|CStr(src)|, limit)]
  }

  /** Copy `src` into `dest` up to `limit` characters and terminate it (the loop both copy routines share). */
  method CopyBounded(dest: array<CChar>, src: seq<CChar>, limit: nat) returns (count: nat)
    requires limit < dest.Length
    modifies dest
    ensures count == |CopiedText(src, limit)|
    ensures dest[..count] == CopiedText(src, limit) && dest[count] == NUL
    ensures dest[count + 1..] == old(dest[count + 1..])
  {
    count := 0;
    while count < limit && CharAt(src, count) != NUL
      invariant count <= limit && count <= |src|
      invariant forall k :: 0 <= k < count ==> src[k] != NUL && dest[k] == src[k]
      invariant dest[count..] == old(dest[count..])
    {
      dest[count] := src[count];
      count := count + 1;
    }
    assert count == |CopiedText(src, limit)| by {
      NoNulPrefix(src, count);
      if count < limit {
        NulIndex(src, count);
      }
    }
    dest[count] := NUL;
  }

  /**
   * `mzn_strcpy`: with a positive `size` and both pointers set, writes at most
   * `size - 1` characters of `src` and a terminator; otherwise writes nothing.
   */
  method StrCpy(dest: array?<CChar>, size: nat, src: Option<seq<CChar>>) returns (r: array?<CChar>)
    requires dest != null ==> size <= dest.Length
    modifies dest
    ensures r == dest
    ensures size != 0 && src.Some? && dest != null ==>
      var t := CopiedText(src.value, size - 1);
      dest[..|t|] == t && dest[|t|] == NUL && dest[|t| + 1..] == old(dest[|t| + 1..])
    ensures !(size != 0 && src.Some? && dest != null) ==> dest == null || dest[..] == old(dest[..])
  {
    r := dest;
    if size != 0 && src.Some? && dest != null {
      var _ := CopyBounded(dest, src.value, size - 1);
    }
  }

  /**
   * `mzn_strncpy`: as `mzn_strcpy` with the limit `min(size, max) - 1`;
   * writes nothing when either bound is 0 or a pointer is NULL.
   */
  method StrNCpy(dest: array?<CChar>, size: nat, src: Option<seq<CChar>>, max: nat) returns (r: array?<CChar>)
    requires dest != null ==> size <= dest.Length
    modifies dest
    ensures r == dest
    ensures max > 0 && size > 0 && src.Some? && dest != null ==>
      var t := CopiedText(src.value, Min(size, max) - 1);
      dest[..|t|] == t && dest[|t|] == NUL && dest[|t| + 1..] == old(dest[|t| + 1..])
    ensures !(max > 0 && size > 0 && src.Some? && dest != null) ==> dest == null || dest[..] == old(dest[..])
  {
    r := dest;
    var n := Min(size, max);
    if max > 0 && size > 0 && src.Some? && dest != null {
      var _ := CopyBounded(dest, src.value, n - 1);
    }
  }

  /**
   * `mzn_strchr`: the index of the first `(char)c` in `s`, or of the terminator
   * when looking for NUL; NULL (None) for a NULL string, for no match, and for
   * a string of 1024+ characters with no match among its first 1024.
   */
  method StrChr(s: Option<seq<CChar>>, c: i32) returns (r: Option<nat>)
    ensures s.None? ==> r.None?
    ensures s.Some? ==>
      var str, ch, n := s.value, Narrow(c), |CStr(s.value)|;
      && (r.Some? ==> r.value <= n && r.value < MAX_STRING && CharAt(str, r.value) == ch)
      && (r.Some? ==> forall k :: 0 <= k < r.value ==> str[k] != ch)
      && (r.None? ==> forall k :: 0 <= k < Min(n, MAX_STRING) ==> str[k] != ch)
      && (r.None? ==> n >= MAX_STRING || ch != NUL)
  {
    if s.None? {
      return None;
    }
    var str, ch := s.value, Narrow(c);
    var i: nat := 0;
    while CharAt(str, i) != NUL
      invariant i <= |str| && i < MAX_STRING
      invariant forall k :: 0 <= k < i ==> str[k] != NUL && str[k] != ch
      decreases |str| - i
    {
      if str[i] == ch {
        assert i <= |CStr(str)|;
        return Some(i);
      }
      if i + 1 >= MAX_STRING {
        assert str[..i + 1] == CStr(str)[..i + 1];
        return None;
      }
      i := i + 1;
    }
    NulIndex(str, i);
    if ch == NUL {
      return Some(i);
    }
    return None;
  }

  /**
   * `mzn_strrchr`: the index of the last `(char)c` in `s` (of the terminator
   * when looking for NUL); None for no match and for any string of 1024+
   * characters, even one with an earlier match.
   */
  method StrRChr(s: seq<CChar>, c: i32) returns (r: Option<nat>)
    ensures var ch, n := Narrow(c), |CStr(s)|;
      && (n >= MAX_STRING ==> r.None?)
      && (n < MAX_STRING && ch == NUL ==> r == Some(n))
      && (n < MAX_STRING && ch != NUL && r.Some? ==>
            r.value < n && s[r.value] == ch && forall k :: r.value < k < n ==> s[k] != ch)
      && (n < MAX_STRING && ch != NUL && r.None? ==> forall k :: 0 <= k < n ==> s[k] != ch)
  {
    var ch := Narrow(c);
    var last: Option<nat> := None;
    var i: nat := 0;
    while CharAt(s, i) != NUL
      invariant i <= |s| && i < MAX_STRING
      invariant forall k :: 0 <= k < i ==> s[k] != NUL
      invariant last.Some? ==> last.value < i && s[last.value] == ch && forall k :: last.value < k < i ==> s[k] != ch
      invariant last.None? ==> forall k :: 0 <= k < i ==> s[k] != ch
      decreases |s| - i
    {
      if s[i] == ch {
        last := Some(i);
      }
      if i + 1 >= MAX_STRING {
        assert s[..i + 1] == CStr(s)[..i + 1];
        return None;
      }
      i := i + 1;
    }
    NulIndex(s, i);
    if ch == NUL {
      return Some(i);
    }
    return last;
  }

  /** Whether `a` holds a terminator, so that the C string at it ends inside the array. */
  predicate Terminated(a: array<CChar>)
    reads a
  {
    exists k :: 0 <= k < a.Length && a[k] == NUL
  }

  /**
   * `mzn_strrev`: reverse the first `mzn_strlen(str)` characters in place;
   * a string of 1024+ characters (length 0 to `mzn_strlen`) is left alone.
   */
  method StrRev(str: array?<CChar>) returns (r: array?<CChar>)
    requires str != null ==> Terminated(str)
    modifies str
    ensures r == str
    ensures str != null ==>
      var n := CStrLen(Some(old(str[..])));
      str[..n] == Rev(old(str[..n])) && str[n..] == old(str[n..])
    ensures str != null ==> CStrLen(Some(str[..])) == CStrLen(Some(old(str[..])))
  {
    r := str;
    if str == null {
      return;
    }
    var n := StrLen(Some(str[..]));
    ghost var before := str[..];
    ReverseFirst(str, n);
    ReversalKeepsLength(before, str[..], n);
  }

  /** The swap loop of `mzn_strrev`: reverses `a[..n]` in place and touches nothing else. */
  method ReverseFirst(a: array<CChar>, n: nat)
    requires n <= a.Length
    modifies a
    ensures a[..n] == Rev(old(a[..n])) && a[n..] == old(a[n..])
  {
    ghost var before := a[..];
    var i: int, j: int := 0, n - 1;
    while i < j
      invariant 0 <= i && j == n - 1 - i && i <= n
      invariant forall k :: 0 <= k < i ==> a[k] == before[n - 1 - k] && a[n - 1 - k] == before[k]
      invariant forall k :: i <= k < n - i ==> a[k] == before[k]
      invariant a[n..] == before[n..]
    {
      a[i], a[j] := a[j], a[i];
      i, j := i + 1, j - 1;
    }
    forall k | 0 <= k < n ensures a[..n][k] == Rev(before[..n])[k] {
      RevAt(before[..n], k);
    }
  }

  /** Reversing the first `CStrLen` bytes of a terminated string leaves its `mzn_strlen` unchanged. */
  lemma {:induction false} ReversalKeepsLength(before: seq<CChar>, after: seq<CChar>, n: nat)
    requires n == CStrLen(Some(before)) && n <= |before| == |after|
    requires NUL in before
    requires after[..n] == Rev(before[..n]) && after[n..] == before[n..]
    ensures CStrLen(Some(after)) == n
  {
    var L := |CStr(before)|;
    forall k | 0 <= k < n ensures after[k] != NUL {
      RevAt(before[..n], k);
    }
    if L < MAX_STRING {
      assert n == L;
      assert CharAt(after, n) == NUL;
      NulIndex(after, n);
    } else {
      assert n == 0;
      assert after == before;
    }
  }
}
