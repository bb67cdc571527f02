/**
 * The regular expressions vs_gen.py applies to audit and event lines,
 * written out as the matchers they denote (leftmost match, greedy runs,
 * the backtracking that can change the outcome):
 *   `death message:\s*(.*)`                                   (ignoring case)
 *   `killed\s+(?!by)(?:a\s+|an\s+)?([\w:.-]+)`                (ignoring case)
 *   `(\d+)x`                                                  (all matches)
 *   `^offthread save of (\d+)\s+map\s+chunks done`            (ignoring case)
 */
module VsPatterns {
  import opened Wrappers
  import opened PyText
  import opened VsText

  /** `k` (in lower case) occurs at index `i` of `s`, ignoring case. */
  predicate WordAt(s: string, i: nat, k: string)
  {
    i + |k| <= |s| && Lower(s[i..i + |k|]) == k
  }

  /** A lower-case word written at `i` is found there. */
  lemma {:induction false} WordAtOf(s: string, i: nat, k: string)
    requires i + |k| <= |s| && s[i..i + |k|] == k
    requires forall j :: 0 <= j < |k| ==> !('A' <= k[j] <= 'Z')
    ensures WordAt(s, i, k)
  {
    LowerOfLower(s[i..i + |k|]);
  }

  /** The first index at or after `i` where `k` (lower case) occurs, ignoring case. */
  function FindIgnoringCase(s: string, k: string, i: nat): (r: Option<nat>)
    requires i <= |s|
    ensures r.Some? ==> i <= r.value && r.value + |k| <= |s| && Lower(s[r.value..r.value + |k|]) == k
    decreases |s| - i
  {
    if i + |k| > |s| then None
    else if Lower(s[i..i + |k|]) == k then Some(i)
    else FindIgnoringCase(s, k, i + 1)
  }

  /** Where `.` stops matching: the first line feed at or after `i`. */
  function LineEnd(s: string, i: nat): (j: nat)
    requires i <= |s|
    ensures i <= j <= |s| && (j == |s| || s[j] == '\n')
    ensures forall k :: i <= k < j ==> s[k] != '\n'
    decreases |s| - i
  {
    if i < |s| && s[i] != '\n' then LineEnd(s, i + 1) else i
  }

  const DEATH_MARKER: string := "death message:"

  /**
   * The cause text `_process_audit_event` hands to `clean_death_message`:
   * the rest of the line after "death message:" and any whitespace,
   * stripped; the whole message when the marker is absent.
   */
  function DeathCauseText(message: string): string
  {
    match FindIgnoringCase(message, DEATH_MARKER, 0)
    case None => message
    case Some(i) =>
      var a := SpaceEnd(message, i + |DEATH_MARKER|);
      Strip(message[a..LineEnd(message, a)])
  }

  /** Without the marker the whole message is the cause text. */
  lemma {:induction false} DeathCauseUnmarked(message: string)
    requires !Contains(Lower(message), DEATH_MARKER)
    ensures DeathCauseText(message) == message
  {
    if FindIgnoringCase(message, DEATH_MARKER, 0).Some? {
      var i := FindIgnoringCase(message, DEATH_MARKER, 0).value;
      LowerSlice(message, i, i + |DEATH_MARKER|);
      ContainsAt(Lower(message), DEATH_MARKER, i);
    }
  }

  /** The characters `[\w:.-]` (ASCII word characters). */
  predicate IsNameChar(c: char)
  {
    'a' <= c <= 'z' || 'A' <= c <= 'Z' || '0' <= c <= '9' || c == '_' || c == ':' || c == '.' || c == '-'
  }

  /** End of the `[\w:.-]` run starting at `i`. */
  function NameEnd(s: string, i: nat): (j: nat)
    requires i <= |s|
    ensures i <= j <= |s| && (j == |s| || !IsNameChar(s[j]))
    ensures forall k :: i <= k < j ==> IsNameChar(s[k])
    decreases |s| - i
  {
    if i < |s| && IsNameChar(s[i]) then NameEnd(s, i + 1) else i
  }

  /** `([\w:.-]+)` at `i`. */
  function NameAt(s: string, i: nat): Option<string>
    requires i <= |s|
  {
    if NameEnd(s, i) > i then Some(s[i..NameEnd(s, i)]) else None
  }

  /** `article\s+([\w:.-]+)` at `i`, the article compared ignoring case. */
  function AfterArticle(s: string, i: nat, article: string): Option<string>
    requires i <= |s|
  {
    if WordAt(s, i, article) && SpaceEnd(s, i + |article|) > i + |article|
    then NameAt(s, SpaceEnd(s, i + |article|))
    else None
  }

  /**
   * The rest of the kill pattern right after "killed" at `j`: whitespace,
   * not "by", then the name, trying "a ", then "an ", then no article.
   * Giving back whitespace never helps: the name cannot start with it.
   */
  function KillAfter(s: string, j: nat): Option<string>
    requires j <= |s|
  {
    var w := SpaceEnd(s, j);
    if w == j then None
    else if WordAt(s, w, "by") then None
    else if AfterArticle(s, w, "a").Some? then AfterArticle(s, w, "a")
    else if AfterArticle(s, w, "an").Some? then AfterArticle(s, w, "an")
    else NameAt(s, w)
  }

  /** `re.search(kill pattern)` from `i`: the first "killed" whose continuation matches. */
  function KillFrom(s: string, i: nat): Option<string>
    requires i <= |s|
    decreases |s| - i
  {
    if i + 6 > |s| then None
    else if WordAt(s, i, "killed") && KillAfter(s, i + 6).Some? then KillAfter(s, i + 6)
    else KillFrom(s, i + 1)
  }

  /** The enemy named by an audit line, if any. */
  function KillTarget(message: string): (r: Option<string>)
  {
    KillFrom(message, 0)
  }

  /** A captured name is a run of `[\w:.-]` characters. */
  lemma {:induction false} KillTargetIsName(s: string, i: nat)
    requires i <= |s|
    ensures KillFrom(s, i).Some? ==> var n := KillFrom(s, i).value;
      n != [] && forall k :: 0 <= k < |n| ==> IsNameChar(n[k])
    decreases |s| - i
  {
    if i + 6 <= |s| {
      if WordAt(s, i, "killed") && KillAfter(s, i + 6).Some? {
        KillAfterIsName(s, i + 6);
      } else {
        KillTargetIsName(s, i + 1);
      }
    }
  }

  predicate IsName(n: string)
  {
    n != [] && forall k :: 0 <= k < |n| ==> IsNameChar(n[k])
  }

  lemma {:induction false} NameAtIsName(s: string, i: nat)
    requires i <= |s| && NameAt(s, i).Some?
    ensures IsName(NameAt(s, i).value)
  {
    var n := NameAt(s, i).value;
    forall k | 0 <= k < |n| ensures IsNameChar(n[k]) {
      assert n[k] == s[i + k];
    }
  }

  lemma {:induction false} KillAfterIsName(s: string, j: nat)
    requires j <= |s| && KillAfter(s, j).Some?
    ensures IsName(KillAfter(s, j).value)
  {
    var w := SpaceEnd(s, j);
    if AfterArticle(s, w, "a").Some? {
      NameAtIsName(s, SpaceEnd(s, w + 1));
    } else if AfterArticle(s, w, "an").Some? {
      NameAtIsName(s, SpaceEnd(s, w + 2));
    } else {
      NameAtIsName(s, w);
    }
  }

  /** "killed" at 0, then one space before a character that is not whitespace. */
  lemma {:induction false} KilledAtStart(s: string)
    requires |s| >= 8 && s[..7] == "killed " && !IsSpace(s[7])
    ensures WordAt(s, 0, "killed") && SpaceEnd(s, 6) == 7
  {
    assert s[0..6] == s[..7][..6];
    WordAtOf(s, 0, "killed");
    assert s[6] == s[..7][6];
    SpaceEndIs(s, 6, 7);
  }

  /** Name characters are never whitespace. */
  lemma {:induction false} NameCharNotSpace(c: char)
    requires IsNameChar(c)
    ensures !IsSpace(c)
  {
  }

  /** The name after "killed" is captured as a whole, up to the next other character. */
  lemma {:induction false} NameAtWhole(s: string, i: nat, name: string)
    requires i + |name| <= |s| && s[i..i + |name|] == name
    requires name != [] && forall k :: 0 <= k < |name| ==> IsNameChar(name[k])
    requires i + |name| == |s| || !IsNameChar(s[i + |name|])
    ensures NameAt(s, i) == Some(name)
  {
    forall k | i <= k < i + |name| ensures IsNameChar(s[k]) {
      assert s[k] == s[i..i + |name|][k - i];
    }
    NameEndIs(s, i, i + |name|);
  }

  lemma {:induction false} NameEndIs(s: string, i: nat, j: nat)
    requires i <= j <= |s| && (j == |s| || !IsNameChar(s[j]))
    requires forall k :: i <= k < j ==> IsNameChar(s[k])
    ensures NameEnd(s, i) == j
    decreases j - i
  {
    if i < j {
      NameEndIs(s, i + 1, j);
    }
  }

  /** A name right after "killed " is the kill target (it holds no whitespace, so no article applies). */
  lemma {:induction false} KillTargetOfName(name: string)
    requires name != [] && forall k :: 0 <= k < |name| ==> IsNameChar(name[k])
    requires |name| >= 2 ==> Lower(name[..2]) != "by"
    ensures KillTarget("killed " + name) == Some(name)
  {
    var s := "killed " + name;
    assert s[..7] == "killed " && s[7..] == name;
    KillOfLaidName(s, name);
  }

  lemma {:induction false} KillOfLaidName(s: string, name: string)
    requires name != [] && forall k :: 0 <= k < |name| ==> IsNameChar(name[k])
    requires |name| >= 2 ==> Lower(name[..2]) != "by"
    requires |s| == 7 + |name| && s[..7] == "killed " && s[7..] == name
    ensures KillTarget(s) == Some(name)
  {
    assert s[7] == name[0];
    NameCharNotSpace(name[0]);
    KilledAtStart(s);
    if |name| >= 2 {
      assert s[7..9] == name[..2];
    }
    assert s[7..7 + |name|] == name;
    NameAtWhole(s, 7, name);
    NoArticle(s, 7, "a");
    NoArticle(s, 7, "an");
  }

  /** An article needs whitespace after it; inside a name there is none. */
  lemma {:induction false} NoArticle(s: string, i: nat, article: string)
    requires i <= |s| && NameEnd(s, i) == |s|
    ensures AfterArticle(s, i, article).None?
  {
    if i + |article| < |s| {
      NameCharNotSpace(s[i + |article|]);
    }
  }

  /** "killed a <name>" captures the name, not the article. */
  lemma {:induction false} KillTargetAfterArticle(name: string)
    requires name != [] && forall k :: 0 <= k < |name| ==> IsNameChar(name[k])
    ensures KillTarget("killed a " + name) == Some(name)
  {
    var s := "killed a " + name;
    assert s[..9] == "killed a " && s[9..] == name;
    KillOfLaidArticle(s, name);
  }

  lemma {:induction false} KillOfLaidArticle(s: string, name: string)
    requires name != [] && forall k :: 0 <= k < |name| ==> IsNameChar(name[k])
    requires |s| == 9 + |name| && s[..9] == "killed a " && s[9..] == name
    ensures KillTarget(s) == Some(name)
  {
    assert s[..7] == s[..9][..7] && s[7] == 'a' && s[8] == ' ';
    KilledAtStart(s);
    LowerAt(s[7..9], 0);
    assert !WordAt(s, 7, "by");
    assert s[7..8] == "a";
    WordAtOf(s, 7, "a");
    assert s[9] == name[0];
    NameCharNotSpace(name[0]);
    SpaceEndIs(s, 8, 9);
    assert s[9..9 + |name|] == name;
    NameAtWhole(s, 9, name);
  }

  /** The look-ahead refuses "killed by". */
  lemma {:induction false} KillAfterBy(s: string)
    requires |s| >= 9 && s[..9] == "killed by"
    ensures KillAfter(s, 6) == None
  {
    assert s[6] == ' ' && s[7] == 'b';
    SpaceEndIs(s, 6, 7);
    assert s[7..9] == s[..9][7..9];
    WordAtOf(s, 7, "by");
  }

  /** End of the ASCII digit run starting at `i`. */
  function DigitEnd(s: string, i: nat): (j: nat)
    requires i <= |s|
    ensures i <= j <= |s| && (j == |s| || !IsDigit(s[j]))
    ensures forall k :: i <= k < j ==> IsDigit(s[k])
    decreases |s| - i
  {
    if i < |s| && IsDigit(s[i]) then DigitEnd(s, i + 1) else i
  }

  /**
   * `RE_QUANTITY.findall(s)` as numbers: every maximal digit run directly
   * followed by `x`. A run not followed by `x` cannot match from any of its
   * positions, since each suffix is followed by the same character.
   */
  function Quantities(s: string): seq<nat>
    decreases |s|
  {
    if s == [] then []
    else if !IsDigit(s[0]) then Quantities(s[1..])
    else
      var e := DigitEnd(s, 0);
      if e < |s| && s[e] == 'x' then [DecimalValue(s[..e])] + Quantities(s[e + 1..])
      else Quantities(s[e..])
  }

  /** `quantities and max(int(q) for q in quantities) >= threshold`. */
  predicate HasLargeQuantity(s: string, threshold: int)
  {
    exists q :: q in Quantities(s) && q >= threshold
  }

  /** A number written before `x` is found as a quantity. */
  lemma {:induction false} QuantityOfNumber(n: nat, rest: string)
    ensures Quantities(NatText(n) + "x" + rest) == [n] + Quantities(rest)
  {
    var d := NatText(n);
    var s := d + "x" + rest;
    DigitEndIs(s, 0, |d|);
    assert s[..|d|] == d && s[|d|] == 'x' && s[|d| + 1..] == rest;
    NatTextValue(n);
  }

  lemma {:induction false} DigitEndIs(s: string, i: nat, j: nat)
    requires i <= j <= |s| && (j == |s| || !IsDigit(s[j]))
    requires forall k :: i <= k < j ==> IsDigit(s[k])
    ensures DigitEnd(s, i) == j
    decreases j - i
  {
    if i < j {
      DigitEndIs(s, i + 1, j);
    }
  }

  /** Text without digits has no quantities. */
  lemma {:induction false} QuantitiesWithoutDigits(s: string)
    requires forall k :: 0 <= k < |s| ==> !IsDigit(s[k])
    ensures Quantities(s) == []
    decreases |s|
  {
    if s != [] {
      QuantitiesWithoutDigits(s[1..]);
    }
  }

  const OFFTHREAD_HEAD: string := "offthread save of "
  const CHUNKS_DONE: string := "chunks done"

  /**
   * `OFFTHREAD_MAP_CHUNK_REGEX.search(text)`, anchored at the start: the head,
   * a digit run, whitespace, "map", whitespace, "chunks done" (ignoring case);
   * the answer is the number. A run longer than `INT_MAX_STR_DIGITS` makes
   * `int()` raise; the caller catches that and records nothing, as for no match.
   */
  function OffthreadChunkCount(text: string): Option<nat>
  {
    var h := |OFFTHREAD_HEAD|;
    if !WordAt(text, 0, OFFTHREAD_HEAD) then None
    else
      var d := DigitEnd(text, h);
      var w := SpaceEnd(text, d);
      if d == h || w == d || !WordAt(text, w, "map") then None
      else
        var c := SpaceEnd(text, w + 3);
        if c == w + 3 || !WordAt(text, c, CHUNKS_DONE) || d - h > INT_MAX_STR_DIGITS then None
        else Some(DecimalValue(text[h..d]))
  }

  /**
   * The save message the game writes reports its count back: the head, the
   * decimal digits of `n`, a space, "map", a space, "chunks done", then
   * anything; the words may be written in any letter case. A count of more
   * than `INT_MAX_STR_DIGITS` digits is refused.
   */
  lemma {:induction false} OffthreadChunkCountOf(s: string, n: nat)
    requires var e := |OFFTHREAD_HEAD| + |NatText(n)|;
      e + 16 <= |s| && WordAt(s, 0, OFFTHREAD_HEAD) && s[|OFFTHREAD_HEAD|..e] == NatText(n)
      && s[e] == ' ' && WordAt(s, e + 1, "map") && s[e + 4] == ' ' && WordAt(s, e + 5, CHUNKS_DONE)
    ensures OffthreadChunkCount(s) == if |NatText(n)| <= INT_MAX_STR_DIGITS then Some(n) else None
  {
    var e := |OFFTHREAD_HEAD| + |NatText(n)|;
    var digits := NatText(n);
    SaveMessageParts(s, e, digits);
    OffthreadChunkCountAt(s, e, e + 1, e + 5);
    NatTextValue(n);
    assert DecimalValue(s[|OFFTHREAD_HEAD|..e]) == n;
  }

  /** Where each part of a save message written with single spaces ends. */
  lemma {:induction false} SaveMessageParts(s: string, e: nat, digits: string)
    requires e == |OFFTHREAD_HEAD| + |digits| && AllDigits(digits)
    requires e + 16 <= |s| && s[|OFFTHREAD_HEAD|..e] == digits
    requires s[e] == ' ' && WordAt(s, e + 1, "map") && s[e + 4] == ' ' && WordAt(s, e + 5, CHUNKS_DONE)
    ensures DigitEnd(s, |OFFTHREAD_HEAD|) == e
    ensures SpaceEnd(s, e) == e + 1 && SpaceEnd(s, e + 4) == e + 5
  {
    DigitsBefore(s, |OFFTHREAD_HEAD|, e, digits);
    LowerAt(s[e + 1..e + 4], 0);
    SpaceEndIs(s, e, e + 1);
    LowerAt(s[e + 5..e + 16], 0);
    SpaceEndIs(s, e + 4, e + 5);
  }

  /** The match, stated over the positions where each part of the pattern ends. */
  lemma {:induction false} OffthreadChunkCountAt(s: string, d: nat, w: nat, c: nat)
    requires WordAt(s, 0, OFFTHREAD_HEAD) && |OFFTHREAD_HEAD| < d && DigitEnd(s, |OFFTHREAD_HEAD|) == d
    requires d < w && SpaceEnd(s, d) == w && WordAt(s, w, "map")
    requires w + 3 < c && SpaceEnd(s, w + 3) == c && WordAt(s, c, CHUNKS_DONE)
    ensures OffthreadChunkCount(s) ==
      if d - |OFFTHREAD_HEAD| <= INT_MAX_STR_DIGITS then Some(DecimalValue(s[|OFFTHREAD_HEAD|..d])) else None
  {
  }

  lemma {:induction false} DigitsBefore(s: string, h: nat, e: nat, d: string)
    requires h <= e < |s| && s[h..e] == d && AllDigits(d) && s[e] == ' '
    ensures DigitEnd(s, h) == e
  {
    forall k | h <= k < e ensures IsDigit(s[k]) {
      assert s[k] == d[k - h];
    }
    DigitEndIs(s, h, e);
  }

  /** Text that does not start with the head is not a chunk save. */
  lemma {:induction false} OffthreadNeedsHead(text: string)
    requires text != [] && LowerChar(text[0]) != 'o'
    ensures OffthreadChunkCount(text) == None
  {
    if |text| >= |OFFTHREAD_HEAD| {
      LowerAt(text[..|OFFTHREAD_HEAD|], 0);
    }
  }
}
