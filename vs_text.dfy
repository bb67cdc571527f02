/**
 * The text helpers of vs_gen.py: joining names into prose, applying the
 * replacement tables, cleaning death causes, parsing `--time-range` and
 * reading the player name and interest of an audit line. The regular
 * expressions the source uses are written out as the matchers they denote.
 */
module VsText {
  import opened Wrappers
  import opened PyText

  /** Sum of the lengths of `items`. */
  function TotalLength(items: seq<string>): nat
  {
    if items == [] then 0 else TotalLength(items[..|items| - 1]) + |items[|items| - 1]|
  }

  /** `grammatical_join`: prose list with an Oxford comma. */
  function GrammaticalJoin(items: seq<string>): string
  {
    if items == [] then ""
    else if |items| == 1 then items[0]
    else if |items| == 2 then items[0] + " and " + items[1]
    else CommaJoin(items[..|items| - 1]) + ", and " + items[|items| - 1]
  }

  /** `", ".join(items)`. */
  function CommaJoin(items: seq<string>): string
  {
    Join(", ", items)
  }

  /** `", ".join` puts every separator between two items: two characters per gap. */
  lemma {:induction false} CommaJoinLayout(items: seq<string>)
    requires items != []
    ensures |CommaJoin(items)| == TotalLength(items) + 2 * (|items| - 1)
    ensures StartsWith(CommaJoin(items), items[0])
    ensures CommaJoin(items)[|CommaJoin(items)| - |items[|items| - 1]|..] == items[|items| - 1]
    decreases |items|
  {
    if |items| > 1 {
      var rest := items[1..];
      CommaJoinLayout(rest);
      TotalLengthCons(items);
      var j := CommaJoin(items);
      assert j == items[0] + ", " + CommaJoin(rest);
      assert j[..|items[0]|] == items[0];
      assert rest[|rest| - 1] == items[|items| - 1];
    }
  }

  lemma {:induction false} TotalLengthCons(items: seq<string>)
    requires items != []
    ensures TotalLength(items) == |items[0]| + TotalLength(items[1..])
    decreases |items|
  {
    if |items| > 1 {
      TotalLengthCons(items[..|items| - 1]);
      assert items[..|items| - 1][1..] == items[1..][..|items| - 2];
    }
  }

  /**
   * The prose list keeps every item, first item first and last item last,
   * and adds " and " for two items, ", " between the leading items and
   * ", and " before the last one otherwise.
   */
  lemma GrammaticalJoinLayout(items: seq<string>)
    ensures items == [] ==> GrammaticalJoin(items) == ""
    ensures items != [] ==> StartsWith(GrammaticalJoin(items), items[0])
    ensures items != [] ==>
      var r := GrammaticalJoin(items);
      |items[|items| - 1]| <= |r| && r[|r| - |items[|items| - 1]|..] == items[|items| - 1]
    ensures |GrammaticalJoin(items)| == TotalLength(items) + (if |items| < 2 then 0 else if |items| == 2 then 5 else 2 * |items| + 2)
  {
    var n := |items|;
    var r := GrammaticalJoin(items);
    if n == 1 {
      assert items[..0] == [];
    } else if n == 2 {
      assert items[..1][..0] == [];
      assert r[..|items[0]|] == items[0];
    } else if n >= 3 {
      var init := items[..n - 1];
      CommaJoinLayout(init);
      assert init[0] == items[0];
      assert r[..|items[0]|] == CommaJoin(init)[..|items[0]|];
    }
  }

  /** Three names read "a, b, and c". */
  lemma {:induction false} GrammaticalJoinThree(a: string, b: string, c: string)
    ensures GrammaticalJoin([a, b, c]) == a + ", " + b + ", and " + c
  {
    assert [a, b, c][..2] == [a, b];
    assert [a, b][1..] == [b];
    assert Join(", ", [b]) == b;
    assert Join(", ", [a, b]) == a + ", " + Join(", ", [b]);
  }

  /** The effect of `apply_custom_mapping`: each `(key, replacement)` pair in order, as `str.replace`. */
  function MapAll(text: string, mapping: seq<(string, string)>): string
    decreases |mapping|
  {
    if mapping == [] then text else MapAll(ReplaceAll(text, mapping[0].0, mapping[0].1), mapping[1..])
  }

  /** `apply_custom_mapping`: rebind `text` to its replacement under each entry, in dictionary order. */
  method ApplyCustomMapping(text: string, mapping: seq<(string, string)>) returns (r: string)
    ensures r == MapAll(text, mapping)
  {
    r := text;
    var i := 0;
    while i < |mapping|
      invariant i <= |mapping| && MapAll(r, mapping[i..]) == MapAll(text, mapping)
    {
      r := ReplaceAll(r, mapping[i].0, mapping[i].1);
      i := i + 1;
    }
  }

  /** A text in which no (non-empty) key occurs comes through the mapping unchanged. */
  lemma {:induction false} MapAllAbsent(text: string, mapping: seq<(string, string)>)
    requires forall i :: 0 <= i < |mapping| ==> mapping[i].0 != [] && !Contains(text, mapping[i].0)
    ensures MapAll(text, mapping) == text
    decreases |mapping|
  {
    if mapping != [] {
      ReplaceAbsent(text, mapping[0].0, mapping[0].1);
      MapAllAbsent(text, mapping[1..]);
    }
  }

  /** A mapping that sends every key to itself changes nothing. */
  lemma {:induction false} MapAllIdentity(text: string, mapping: seq<(string, string)>)
    requires forall i :: 0 <= i < |mapping| ==> mapping[i].0 == mapping[i].1
    ensures MapAll(text, mapping) == text
    decreases |mapping|
  {
    if mapping != [] {
      ReplaceSelf(text, mapping[0].0);
      MapAllIdentity(text, mapping[1..]);
    }
  }

  /** The characters `[\s:,-]`. */
  predicate IsSeparator(c: char)
  {
    IsSpace(c) || c == ':' || c == ',' || c == '-'
  }

  /** End of the whitespace run starting at `i`. */
  function SpaceEnd(s: string, i: nat): (j: nat)
    requires i <= |s|
    ensures i <= j <= |s| && (j == |s| || !IsSpace(s[j]))
    ensures forall k :: i <= k < j ==> IsSpace(s[k])
    decreases |s| - i
  {
    if i < |s| && IsSpace(s[i]) then SpaceEnd(s, i + 1) else i
  }

  /** End of the `[\s:,-]` run starting at `i`. */
  function SeparatorEnd(s: string, i: nat): (j: nat)
    requires i <= |s|
    ensures i <= j <= |s| && (j == |s| || !IsSeparator(s[j]))
    ensures forall k :: i <= k < j ==> IsSeparator(s[k])
    decreases |s| - i
  {
    if i < |s| && IsSeparator(s[i]) then SeparatorEnd(s, i + 1) else i
  }

  /**
   * The end of the match of `^player\s+<player>[\s:,-]+` (ignoring case) on `m`:
   * `\s+` takes as much whitespace as it can, giving characters back one at a
   * time until the player's name and at least one separator follow.
   */
  function PlayerPrefixEnd(m: string, player: string): (e: Option<nat>)
    ensures e.Some? ==> 6 < e.value <= |m|
  {
    if |m| < 6 || Lower(m[..6]) != "player" then None
    else PlayerAfterSpaces(m, player, SpaceEnd(m, 6) - 6)
  }

  /** Try `\s+` matching exactly `k` characters, then fewer. */
  function PlayerAfterSpaces(m: string, player: string, k: nat): (e: Option<nat>)
    requires 6 + k <= |m|
    ensures e.Some? ==> 6 < e.value <= |m|
    decreases k
  {
    if k == 0 then None
    else
      var at := 6 + k;
      if at + |player| <= |m| && Lower(m[at..at + |player|]) == Lower(player)
         && SeparatorEnd(m, at + |player|) > at + |player|
      then Some(SeparatorEnd(m, at + |player|))
      else PlayerAfterSpaces(m, player, k - 1)
  }

  /** `compile_player_prefix(player).sub("", m)`: the pattern is anchored, so at most one match is removed. */
  function DropPlayerPrefix(m: string, player: string): string
  {
    match PlayerPrefixEnd(m, player)
    case Some(e) => m[e..]
    case None => m
  }

  /** `RE_DEATH_PREFIX.sub("", m)`: `^(got killed by|died)\s+`, ignoring case. */
  function DropDeathPrefix(m: string): string
  {
    if |m| >= 13 && Lower(m[..13]) == "got killed by" && SpaceEnd(m, 13) > 13 then m[SpaceEnd(m, 13)..]
    else if |m| >= 4 && Lower(m[..4]) == "died" && SpaceEnd(m, 4) > 4 then m[SpaceEnd(m, 4)..]
    else m
  }

  /** The cause text `clean_death_message` arrives at before its final test. */
  function CleanedCause(message: string, player: string, mapping: seq<(string, string)>): string
  {
    var m1 := Strip(DropPlayerPrefix(message, player));
    var m2 := Strip(DropDeathPrefix(m1));
    var m3 := Strip(RStripChar(m2, '.'));
    MapAll(m3, mapping)
  }

  const UNKNOWN_CAUSES: string := "unknown causes"

  /**
   * `clean_death_message`: never empty and never just "died" in any case;
   * otherwise the cleaned cause itself.
   */
  function CleanDeathMessage(message: string, player: string, mapping: seq<(string, string)>): (r: string)
    ensures r != [] && Lower(r) != "died"
    ensures r == UNKNOWN_CAUSES || r == CleanedCause(message, player, mapping)
  {
    var c := CleanedCause(message, player, mapping);
    if c != [] && Lower(c) != "died" then c else UNKNOWN_CAUSES
  }

  /** "unknown causes" stands in exactly for an empty cause or a bare "died". */
  lemma {:induction false} CleanDeathMessageUnknown(message: string, player: string, mapping: seq<(string, string)>)
    ensures var c := CleanedCause(message, player, mapping);
      (c == [] || Lower(c) == "died") ==> CleanDeathMessage(message, player, mapping) == UNKNOWN_CAUSES
    ensures var c := CleanedCause(message, player, mapping);
      c != [] && Lower(c) != "died" ==> CleanDeathMessage(message, player, mapping) == c
  {
  }

  /** Text without upper-case ASCII letters is its own `lower()`. */
  lemma {:induction false} LowerOfLower(s: string)
    requires forall k :: 0 <= k < |s| ==> !('A' <= s[k] <= 'Z')
    ensures Lower(s) == s
  {
    LowerPointwise(s, s);
  }

  /** `lower()` is idempotent. */
  lemma {:induction false} LowerIdempotent(s: string)
    ensures Lower(Lower(s)) == Lower(s)
  {
    forall k | 0 <= k < |s| ensures !('A' <= Lower(s)[k] <= 'Z') {
      LowerAt(s, k);
    }
    LowerOfLower(Lower(s));
  }

  /** The whitespace run starting at `i` ends at the first other character. */
  lemma {:induction false} SpaceEndIs(s: string, i: nat, j: nat)
    requires i <= j <= |s| && (j == |s| || !IsSpace(s[j]))
    requires forall k :: i <= k < j ==> IsSpace(s[k])
    ensures SpaceEnd(s, i) == j
    decreases j - i
  {
    if i < j {
      SpaceEndIs(s, i + 1, j);
    }
  }

  /** The separator run starting at `i` ends at the first other character. */
  lemma {:induction false} SeparatorEndIs(s: string, i: nat, j: nat)
    requires i <= j <= |s| && (j == |s| || !IsSeparator(s[j]))
    requires forall k :: i <= k < j ==> IsSeparator(s[k])
    ensures SeparatorEnd(s, i) == j
    decreases j - i
  {
    if i < j {
      SeparatorEndIs(s, i + 1, j);
    }
  }

  /**
   * "player", one space, the player's name and a run of separators form the
   * player prefix, which ends where the separators end.
   */
  lemma {:induction false} PlayerPrefixMatches(player: string, seps: string, rest: string)
    requires player != [] && !IsSpace(player[0])
    requires seps != [] && forall k :: 0 <= k < |seps| ==> IsSeparator(seps[k])
    requires rest == [] || !IsSeparator(rest[0])
    ensures PlayerPrefixEnd("player " + player + seps + rest, player) == Some(7 + |player| + |seps|)
  {
    var m := "player " + player + seps + rest;
    PlayerHead(m, player, seps + rest);
    SeparatorsAt(m, 7 + |player|, seps, rest);
    assert PlayerPrefixEnd(m, player) == PlayerAfterSpaces(m, player, 1);
  }

  /** The head of the player prefix: "player", one space, then the name. */
  lemma {:induction false} PlayerHead(m: string, player: string, tail: string)
    requires player != [] && !IsSpace(player[0])
    requires m == "player " + player + tail
    ensures |m| >= 7 + |player| && Lower(m[..6]) == "player" && SpaceEnd(m, 6) == 7
    ensures m[7..7 + |player|] == player
  {
    assert m[..6] == "player";
    LowerOfLower("player");
    assert m[7] == player[0];
    SpaceEndIs(m, 6, 7);
  }

  /** A run of separators laid at `at` and followed by a non-separator ends where the run ends. */
  lemma {:induction false} SeparatorsAt(m: string, at: nat, seps: string, rest: string)
    requires at <= |m| && m[at..] == seps + rest
    requires forall k :: 0 <= k < |seps| ==> IsSeparator(seps[k])
    requires rest == [] || !IsSeparator(rest[0])
    ensures SeparatorEnd(m, at) == at + |seps|
  {
    forall k | at <= k < at + |seps| ensures IsSeparator(m[k]) {
      assert m[k] == m[at..][k - at] == seps[k - at];
    }
    if rest != [] {
      assert m[at + |seps|] == m[at..][|seps|] == rest[0];
    }
    SeparatorEndIs(m, at, at + |seps|);
  }

  /** A lead word, a whitespace run and the rest: the run ends where the rest begins. */
  lemma {:induction false} SpacesAfterLead(lead: string, ws: string, rest: string)
    requires forall k :: 0 <= k < |ws| ==> IsSpace(ws[k])
    requires rest == [] || !IsSpace(rest[0])
    ensures var m := lead + ws + rest;
      SpaceEnd(m, |lead|) == |lead| + |ws| && m[..|lead|] == lead && m[|lead| + |ws|..] == rest
  {
    var m := lead + ws + rest;
    var e := |lead| + |ws|;
    forall k | |lead| <= k < e ensures IsSpace(m[k]) {
      assert m[k] == ws[k - |lead|];
    }
    if rest != [] {
      assert m[e] == rest[0];
    }
    SpaceEndIs(m, |lead|, e);
  }

  /** "died" and whitespace are dropped from the front, once. */
  lemma {:induction false} DiedPrefixDropped(ws: string, rest: string)
    requires ws != [] && forall k :: 0 <= k < |ws| ==> IsSpace(ws[k])
    requires rest == [] || !IsSpace(rest[0])
    ensures DropDeathPrefix("died" + ws + rest) == rest
  {
    var m := "died" + ws + rest;
    SpacesAfterLead("died", ws, rest);
    LowerOfLower("died");
    if |m| >= 13 {
      assert Lower(m[..13])[0] == 'd';
    }
  }

  /** "got killed by" and whitespace are dropped from the front, once. */
  lemma {:induction false} GotKilledPrefixDropped(ws: string, rest: string)
    requires ws != [] && forall k :: 0 <= k < |ws| ==> IsSpace(ws[k])
    requires rest == [] || !IsSpace(rest[0])
    ensures DropDeathPrefix("got killed by" + ws + rest) == rest
  {
    SpacesAfterLead("got killed by", ws, rest);
    LowerOfLower("got killed by");
  }

  /** Reading `clean_death_message` stage by stage. */
  lemma {:induction false} CleanedCauseStages(message: string, player: string, m1: string, m2: string, m3: string)
    requires Strip(DropPlayerPrefix(message, player)) == m1
    requires Strip(DropDeathPrefix(m1)) == m2
    requires Strip(RStripChar(m2, '.')) == m3
    ensures CleanedCause(message, player, []) == m3
  {
  }

  /** After "player <name>: " the rest of the line is what remains. */
  lemma {:induction false} PlayerPrefixDropped(player: string, seps: string, rest: string)
    requires player != [] && !IsSpace(player[0])
    requires seps != [] && forall k :: 0 <= k < |seps| ==> IsSeparator(seps[k])
    requires rest == [] || !IsSeparator(rest[0])
    ensures DropPlayerPrefix("player " + player + seps + rest, player) == rest
  {
    PlayerPrefixMatches(player, seps, rest);
    var m := "player " + player + seps + rest;
    assert m[7 + |player| + |seps|..] == rest;
  }

  /** A trimmed cause: no surrounding whitespace and no final full stop. */
  predicate TrimmedCause(cause: string)
  {
    cause != [] && !IsSpace(cause[0]) && !IsSpace(cause[|cause| - 1]) && cause[|cause| - 1] != '.'
  }

  lemma {:induction false} StripDiedLine(cause: string)
    requires TrimmedCause(cause)
    ensures Strip("died " + cause + ".") == "died " + cause + "."
  {
    var rest := "died " + cause + ".";
    assert rest[0] == 'd' && rest[|rest| - 1] == '.';
    StripTrimmed(rest);
  }

  lemma {:induction false} DeathPrefixOfDiedLine(cause: string)
    requires TrimmedCause(cause)
    ensures Strip(DropDeathPrefix("died " + cause + ".")) == cause + "."
  {
    var body := cause + ".";
    assert "died " + cause + "." == "died" + " " + body;
    DiedPrefixDropped(" ", body);
    assert body[0] == cause[0] && body[|body| - 1] == '.';
    StripTrimmed(body);
  }

  lemma {:induction false} FullStopOfCause(cause: string)
    requires TrimmedCause(cause)
    ensures Strip(RStripChar(cause + ".", '.')) == cause
  {
    var body := cause + ".";
    assert RStripChar(body, '.') == cause by {
      assert body[..|body| - 1] == cause;
    }
    StripTrimmed(cause);
  }

  /**
   * An audit cause written "player <name>: died <cause>." is cleaned down to
   * `<cause>`, provided that is a trimmed phrase other than "died".
   */
  lemma {:induction false} CleanDeathMessageOfLine(player: string, cause: string)
    requires player != [] && !IsSpace(player[0])
    requires TrimmedCause(cause) && Lower(cause) != "died"
    ensures CleanDeathMessage("player " + player + ": died " + cause + ".", player, []) == cause
  {
    var rest := "died " + cause + ".";
    var m := "player " + player + ": died " + cause + ".";
    assert m == "player " + player + ": " + rest;
    assert rest[0] == 'd';
    PlayerPrefixDropped(player, ": ", rest);
    DiedLineCause(m, player, cause);
  }

  lemma {:induction false} DiedLineCause(m: string, player: string, cause: string)
    requires TrimmedCause(cause) && Lower(cause) != "died"
    requires DropPlayerPrefix(m, player) == "died " + cause + "."
    ensures CleanDeathMessage(m, player, []) == cause
  {
    StripDiedLine(cause);
    DeathPrefixOfDiedLine(cause);
    FullStopOfCause(cause);
    CleanedCauseStages(m, player, "died " + cause + ".", cause + ".", cause);
    CleanDeathMessageUnknown(m, player, []);
  }

  lemma {:induction false} StripOfDied()
    ensures Strip("died") == "died"
  {
    StripTrimmed("died");
  }

  lemma {:induction false} DeathPrefixOfDied()
    ensures DropDeathPrefix("died") == "died"
  {
    assert SpaceEnd("died", 4) == 4;
  }

  lemma {:induction false} FullStopOfDied()
    ensures RStripChar("died", '.') == "died"
  {
  }

  /** A line that only says the player died has an unknown cause. */
  lemma {:induction false} CleanDeathMessageBareDied(player: string)
    requires player != [] && !IsSpace(player[0])
    ensures CleanDeathMessage("player " + player + " died", player, []) == UNKNOWN_CAUSES
  {
    var m := "player " + player + " died";
    assert m == "player " + player + " " + "died";
    PlayerPrefixDropped(player, " ", "died");
    DiedCauseUnknown(m, player);
  }

  lemma {:induction false} DiedCauseUnknown(m: string, player: string)
    requires DropPlayerPrefix(m, player) == "died"
    ensures CleanDeathMessage(m, player, []) == UNKNOWN_CAUSES
  {
    StripOfDied();
    DeathPrefixOfDied();
    FullStopOfDied();
    CleanedCauseStages(m, player, "died", "died", "died");
    DiedIsDied(CleanedCause(m, player, []));
    CleanDeathMessageUnknown(m, player, []);
  }

  lemma {:induction false} DiedIsDied(c: string)
    requires c == "died"
    ensures Lower(c) == "died"
  {
    LowerOfLower("died");
  }

  /** The unit letters `[mhd]`. */
  predicate IsUnit(c: char)
  {
    c == 'm' || c == 'h' || c == 'd'
  }

  /** Minutes in one unit of `--time-range`. */
  function UnitMinutes(u: char): nat
  {
    if u == 'm' then 1 else if u == 'h' then 60 else 24 * 60
  }

  /** `value` units in minutes: `timedelta(minutes=…)`, `(hours=…)` or `(days=…)`. */
  function InMinutes(value: nat, u: char): (m: nat)
    ensures m == value * UnitMinutes(u)
  {
    if u == 'm' then value else if u == 'h' then 60 * value else (24 * 60) * value
  }

  /**
   * Minutes in `timedelta.max` rounded up to whole days: a `timedelta` of
   * this many minutes or more has over 999999999 days and cannot be built.
   */
  const TIMEDELTA_LIMIT_MINUTES: nat := 24 * 60 * 1000000000

  /**
   * What `parse_time_range` gives: `None` for text it does not accept, a
   * `timedelta` (here in minutes), or the `OverflowError` that `timedelta`
   * raises for 10^9 days or more, which nothing in `main` catches.
   */
  datatype TimeRange = NoRange | Minutes(minutes: nat) | RangeOverflow

  /**
   * `parse_time_range`: the trimmed, lower-cased text must be one or more
   * digits and then exactly one of `m`, `h`, `d`; the answer is in minutes,
   * and a total beyond what a `timedelta` holds raises.
   */
  function ParseTimeRange(s: string): (r: TimeRange)
    ensures !r.NoRange? ==> var t := Lower(Strip(s));
      |t| >= 2 && AllDigits(t[..|t| - 1]) && IsUnit(t[|t| - 1])
    ensures r.Minutes? ==> r.minutes < TIMEDELTA_LIMIT_MINUTES
  {
    var t := Lower(Strip(s));
    if |t| >= 2 && AllDigits(t[..|t| - 1]) && IsUnit(t[|t| - 1]) then
      var total := InMinutes(DecimalValue(t[..|t| - 1]), t[|t| - 1]);
      if total < TIMEDELTA_LIMIT_MINUTES then Minutes(total) else RangeOverflow
    else NoRange
  }

  /** Text that neither starts nor ends with whitespace is its own `strip()`. */
  lemma {:induction false} StripTrimmed(s: string)
    requires s != [] && !IsSpace(s[0]) && !IsSpace(s[|s| - 1])
    ensures Strip(s) == s
  {
  }

  /** Digits have no lower case of their own. */
  lemma {:induction false} LowerDigits(s: string)
    requires AllDigits(s)
    ensures Lower(s) == s
  {
    LowerPointwise(s, s);
  }

  /**
   * `str(v)` followed by a unit letter parses back to `v` units, in either
   * case of the letter, unless the total reaches 10^9 days, which raises.
   */
  lemma {:induction false} ParseTimeRangeRoundTrip(v: nat, u: char)
    requires IsUnit(LowerChar(u))
    ensures var total := v * UnitMinutes(LowerChar(u));
      ParseTimeRange(NatText(v) + [u]) == if total < TIMEDELTA_LIMIT_MINUTES then Minutes(total) else RangeOverflow
  {
    var d := NatText(v);
    var s := d + [u];
    assert s[0] == d[0] && s[|s| - 1] == u;
    StripTrimmed(s);
    LowerAppend(d, [u]);
    LowerDigits(d);
    var t := Lower(s);
    assert t == d + [LowerChar(u)];
    assert t[..|t| - 1] == d;
    NatTextValue(v);
  }

  /** `timedelta(days=999999999)` is the largest range; one day more raises. */
  lemma {:induction false} TimeRangeDayLimit()
    ensures ParseTimeRange(NatText(999999999) + ['d']) == Minutes(999999999 * 24 * 60)
    ensures ParseTimeRange(NatText(1000000000) + ['d']) == RangeOverflow
  {
    ParseTimeRangeRoundTrip(999999999, 'd');
    ParseTimeRangeRoundTrip(1000000000, 'd');
  }

  /** A leading sign, or a missing unit, is refused. */
  lemma {:induction false} ParseTimeRangeRejects(v: nat)
    ensures ParseTimeRange(NatText(v)) == NoRange
    ensures ParseTimeRange(['-'] + NatText(v) + ['m']) == NoRange
  {
    MissingUnitRejected(v);
    SignRejected(v);
  }

  lemma {:induction false} MissingUnitRejected(v: nat)
    ensures ParseTimeRange(NatText(v)) == NoRange
  {
    var d := NatText(v);
    assert IsDigit(d[0]) && IsDigit(d[|d| - 1]);
    StripTrimmed(d);
    LowerDigits(d);
    var t := Lower(Strip(d));
    assert t == d;
    assert !IsUnit(t[|t| - 1]);
  }

  lemma {:induction false} SignRejected(v: nat)
    ensures ParseTimeRange(['-'] + NatText(v) + ['m']) == NoRange
  {
    var n := ['-'] + NatText(v) + ['m'];
    assert n[0] == '-' && n[|n| - 1] == 'm';
    StripTrimmed(n);
    LowerAt(n, 0);
    var t := Lower(n);
    assert t[..|t| - 1][0] == '-';
  }

  /** `is_interesting_audit_event`: a death, a kill or a spreading fire. */
  predicate IsInterestingAuditEvent(text: string)
  {
    var t := Lower(text);
    Contains(t, "died") || Contains(t, "death message") || Contains(t, "killed")
    || (Contains(t, "fire") && Contains(t, "spread"))
  }

  /**
   * A line is interesting exactly when its lower-cased text has "died",
   * "death message" or "killed" at some index, or has both "fire" and
   * "spread".
   */
  lemma {:induction false} InterestingIff(text: string)
    ensures var t := Lower(text);
      IsInterestingAuditEvent(text) <==>
        Occurs(t, "died") || Occurs(t, "death message") || Occurs(t, "killed")
        || (Occurs(t, "fire") && Occurs(t, "spread"))
  {
    var t := Lower(text);
    ContainsIff(t, "died");
    ContainsIff(t, "death message");
    ContainsIff(t, "killed");
    ContainsIff(t, "fire");
    ContainsIff(t, "spread");
  }

  /** Interest is a property of the words present: more text around it keeps a line interesting. */
  lemma {:induction false} InterestingExtends(text: string, before: string, after: string)
    requires IsInterestingAuditEvent(text)
    ensures IsInterestingAuditEvent(before + text + after)
  {
    var t := Lower(text);
    LowerAppend(before, text);
    LowerAppend(before + text, after);
    var w := Lower(before + text + after);
    assert w == Lower(before) + t + Lower(after);
    forall k | k in ["died", "death message", "killed", "fire", "spread"] && Contains(t, k)
      ensures Contains(w, k)
    {
      ContainsAppendLeft(Lower(before), t, k);
      ContainsAppendRight(Lower(before) + t, Lower(after), k);
    }
  }

  /**
   * `extract_player_name`: the first whitespace-separated token, or the second
   * when the first is "player" or "client" (ignoring case and surrounding colons).
   */
  function ExtractPlayerName(text: string): Option<string>
  {
    var tokens := Tokens(text);
    if tokens == [] then None
    else
      var first := Lower(StripChar(tokens[0], ':'));
      if (first == "player" || first == "client") && |tokens| > 1 then Some(tokens[1]) else Some(tokens[0])
  }

  /** No name exactly for blank text; otherwise a name that is one of the line's words. */
  lemma {:induction false} ExtractPlayerNameIsWord(text: string)
    ensures ExtractPlayerName(text).None? <==> forall k :: 0 <= k < |text| ==> IsSpace(text[k])
    ensures ExtractPlayerName(text).Some? ==>
      var w := ExtractPlayerName(text).value;
      w in Tokens(text) && w != [] && forall k :: 0 <= k < |w| ==> !IsSpace(w[k])
  {
    TokensEmptyIffBlank(text);
    TokensClean(text);
  }

  /** The word run starting at `i` ends at the first whitespace (or the end). */
  lemma {:induction false} WordEndIs(s: string, i: nat, j: nat)
    requires i <= j <= |s| && (j == |s| || IsSpace(s[j]))
    requires forall k :: i <= k < j ==> !IsSpace(s[k])
    ensures WordEnd(s, i) == j
    decreases j - i
  {
    if i < j {
      WordEndIs(s, i + 1, j);
    }
  }

  /** A word followed by whitespace (or nothing) is the first token. */
  lemma {:induction false} TokensWord(w: string, rest: string)
    requires w != [] && forall k :: 0 <= k < |w| ==> !IsSpace(w[k])
    requires rest == [] || IsSpace(rest[0])
    ensures Tokens(w + rest) == [w] + Tokens(rest)
  {
    var s := w + rest;
    WordEndIs(s, 0, |w|);
    assert s[..|w|] == w && s[|w|..] == rest;
  }

  /** A line starting "player" or "client" (any case, colons aside) names the word after it. */
  lemma {:induction false} ExtractPlayerNameAfterKeyword(first: string, name: string, rest: string)
    requires first != [] && forall k :: 0 <= k < |first| ==> !IsSpace(first[k])
    requires name != [] && forall k :: 0 <= k < |name| ==> !IsSpace(name[k])
    requires Lower(StripChar(first, ':')) in ["player", "client"]
    requires rest == [] || IsSpace(rest[0])
    ensures ExtractPlayerName(first + " " + name + rest) == Some(name)
  {
    var s := first + " " + name + rest;
    assert s == first + ([' '] + (name + rest));
    TokensAfterKeyword(first, name, rest);
    var tokens := Tokens(s);
    assert |tokens| > 1 && tokens[0] == first && tokens[1] == name;
  }

  lemma {:induction false} TokensAfterKeyword(first: string, name: string, rest: string)
    requires first != [] && forall k :: 0 <= k < |first| ==> !IsSpace(first[k])
    requires name != [] && forall k :: 0 <= k < |name| ==> !IsSpace(name[k])
    requires rest == [] || IsSpace(rest[0])
    ensures Tokens(first + ([' '] + (name + rest))) == [first, name] + Tokens(rest)
  {
    var tail := [' '] + (name + rest);
    assert tail[0] == ' ';
    TokensSpaceWord(name, rest);
    TokensWord(first, tail);
    assert [first] + ([name] + Tokens(rest)) == [first, name] + Tokens(rest);
  }

  /** A space, a word and whatever follows it: the word is the first token. */
  lemma {:induction false} TokensSpaceWord(name: string, rest: string)
    requires name != [] && forall k :: 0 <= k < |name| ==> !IsSpace(name[k])
    requires rest == [] || IsSpace(rest[0])
    ensures Tokens([' '] + (name + rest)) == [name] + Tokens(rest)
  {
    var tail := [' '] + (name + rest);
    TokensSpace(tail);
    assert tail[1..] == name + rest;
    TokensWord(name, rest);
  }

  lemma {:induction false} TokensSpace(s: string)
    requires s != [] && IsSpace(s[0])
    ensures Tokens(s) == Tokens(s[1..])
  {
  }

  /** Any other first word is itself the name. */
  lemma {:induction false} ExtractPlayerNameFirstWord(first: string, rest: string)
    requires first != [] && forall k :: 0 <= k < |first| ==> !IsSpace(first[k])
    requires Lower(StripChar(first, ':')) !in ["player", "client"]
    requires rest == [] || IsSpace(rest[0])
    ensures ExtractPlayerName(first + rest) == Some(first)
  {
    TokensWord(first, rest);
  }

  /** A lone "player" keyword is returned as the name. */
  lemma {:induction false} ExtractPlayerNameLoneKeyword(first: string, rest: string)
    requires first != [] && forall k :: 0 <= k < |first| ==> !IsSpace(first[k])
    requires forall k :: 0 <= k < |rest| ==> IsSpace(rest[k])
    ensures ExtractPlayerName(first + rest) == Some(first)
  {
    TokensEmptyIffBlank(rest);
    TokensWord(first, rest);
  }
}
