/**
 * The two pieces of `NarrativeGenerator` that compute rather than pick
 * wording: `_summarize_top`, which ranks names with a `Counter`, and
 * `generate_chunk_summary`, which fills the `{count}` field of its template.
 *
 * A `Counter` is a dictionary, so its keys keep first-seen order;
 * `most_common(n)` ranks them by count, highest first, and a stable sort
 * keeps first-seen order among equal counts.
 */
module VsNarrative {
  import opened Wrappers
  import opened PyText
  import opened VsText

  predicate NoDuplicates(d: seq<string>)
  {
    forall i, j :: 0 <= i < j < |d| ==> d[i] != d[j]
  }

  /** The keys of `Counter(items)`, in the order they were first seen. */
  function Distinct(items: seq<string>): (d: seq<string>)
    ensures forall x :: x in d <==> x in items
    ensures NoDuplicates(d)
  {
    if items == [] then []
    else
      var d := Distinct(items[..|items| - 1]);
      var x := items[|items| - 1];
      if x in d then d else d + [x]
  }

  /** Position of `x` in `d`, or `|d|` when it is absent. */
  function IndexOf(d: seq<string>, x: string): nat
  {
    if d == [] then 0 else if d[0] == x then 0 else 1 + IndexOf(d[1..], x)
  }

  lemma {:induction false} IndexOfAt(d: seq<string>, i: nat)
    requires NoDuplicates(d) && i < |d|
    ensures IndexOf(d, d[i]) == i
    decreases i
  {
    if i > 0 {
      assert d[1..][i - 1] == d[i];
      IndexOfAt(d[1..], i - 1);
    }
  }

  /**
   * `x` comes before `y` in `most_common`: `x` has the higher count
   * (`counts[x]` is `Counter(items)[x]`), or the same count and was seen first.
   */
  predicate Precedes(counts: multiset<string>, seen: seq<string>, x: string, y: string)
  {
    counts[x] > counts[y] || (counts[x] == counts[y] && IndexOf(seen, x) < IndexOf(seen, y))
  }

  predicate Ranked(counts: multiset<string>, seen: seq<string>, s: seq<string>)
  {
    forall i, j :: 0 <= i < j < |s| ==> Precedes(counts, seen, s[i], s[j])
  }

  /** One step of the stable sort by descending count: `x` goes after every key counted at least as often. */
  function InsertByCount(s: seq<string>, x: string, counts: multiset<string>): seq<string>
  {
    if s == [] || counts[s[|s| - 1]] >= counts[x] then s + [x]
    else InsertByCount(s[..|s| - 1], x, counts) + [s[|s| - 1]]
  }

  /** The keys `keys`, sorted by descending count and otherwise in their own order. */
  function SortByCount(keys: seq<string>, counts: multiset<string>): seq<string>
  {
    if keys == [] then []
    else InsertByCount(SortByCount(keys[..|keys| - 1], counts), keys[|keys| - 1], counts)
  }

  /** `[item for item, _ in Counter(items).most_common(n)]`; `n <= 0` gives no item. */
  function MostCommon(items: seq<string>, n: int): seq<string>
  {
    var ranked := SortByCount(Distinct(items), multiset(items));
    if n <= 0 then [] else ranked[..if n < |ranked| then n else |ranked|]
  }

  /** The sum of `counts` over `keys`. */
  function SumCounts(keys: seq<string>, counts: multiset<string>): nat
  {
    if keys == [] then 0 else SumCounts(keys[..|keys| - 1], counts) + counts[keys[|keys| - 1]]
  }

  /** `_summarize_top(items, n)`: the top names as prose and `sum(counter.values())`. */
  function SummarizeTop(items: seq<string>, n: int): (string, nat)
  {
    if items == [] then ("", 0)
    else (GrammaticalJoin(MostCommon(items, n)), SumCounts(Distinct(items), multiset(items)))
  }

  /** Inserting a key adds exactly that key. */
  lemma {:induction false} InsertByCountKeys(s: seq<string>, x: string, counts: multiset<string>)
    ensures multiset(InsertByCount(s, x, counts)) == multiset(s) + multiset{x}
    decreases |s|
  {
    if s != [] && counts[s[|s| - 1]] < counts[x] {
      InsertByCountKeys(s[..|s| - 1], x, counts);
      assert s == s[..|s| - 1] + [s[|s| - 1]];
    }
  }

  /** A key ranked below every key of a ranked list may follow it. */
  lemma {:induction false} RankedSnoc(counts: multiset<string>, seen: seq<string>, s: seq<string>, x: string)
    requires Ranked(counts, seen, s)
    requires forall i :: 0 <= i < |s| ==> Precedes(counts, seen, s[i], x)
    ensures Ranked(counts, seen, s + [x])
  {
    forall i, j | 0 <= i < j < |s| + 1
      ensures Precedes(counts, seen, (s + [x])[i], (s + [x])[j])
    {
      if j < |s| {
        assert (s + [x])[i] == s[i] && (s + [x])[j] == s[j];
      }
    }
  }

  /** Inserting a key seen after all ranked keys keeps the ranking. */
  lemma {:induction false} InsertByCountRanked(s: seq<string>, x: string, counts: multiset<string>, seen: seq<string>)
    requires Ranked(counts, seen, s)
    requires forall y :: y in s ==> IndexOf(seen, y) < IndexOf(seen, x)
    ensures Ranked(counts, seen, InsertByCount(s, x, counts))
    decreases |s|
  {
    if s == [] || counts[s[|s| - 1]] >= counts[x] {
      forall i | 0 <= i < |s|
        ensures Precedes(counts, seen, s[i], x)
      {
        assert s[i] in s;
        if i < |s| - 1 {
          assert Precedes(counts, seen, s[i], s[|s| - 1]);
        }
      }
      RankedSnoc(counts, seen, s, x);
    } else {
      var init := s[..|s| - 1];
      var last := s[|s| - 1];
      assert forall y :: y in init ==> y in s;
      InsertByCountRanked(init, x, counts, seen);
      InsertByCountKeys(init, x, counts);
      var r0 := InsertByCount(init, x, counts);
      forall i | 0 <= i < |r0|
        ensures Precedes(counts, seen, r0[i], last)
      {
        assert r0[i] in multiset(r0);
        if r0[i] != x {
          assert r0[i] in init;
          var k :| 0 <= k < |init| && init[k] == r0[i];
          assert Precedes(counts, seen, s[k], s[|s| - 1]);
        }
      }
      RankedSnoc(counts, seen, r0, last);
    }
  }

  /** Sorting the first `k` keys of `seen` ranks them and keeps each exactly once. */
  lemma {:induction false} SortByCountRanked(seen: seq<string>, k: nat, counts: multiset<string>)
    requires NoDuplicates(seen) && k <= |seen|
    ensures Ranked(counts, seen, SortByCount(seen[..k], counts))
    ensures multiset(SortByCount(seen[..k], counts)) == multiset(seen[..k])
    decreases k
  {
    if k > 0 {
      var keys := seen[..k];
      assert keys[..k - 1] == seen[..k - 1];
      SortByCountRanked(seen, k - 1, counts);
      var s := SortByCount(seen[..k - 1], counts);
      SeenEarlier(seen, k - 1, s);
      InsertByCountRanked(s, seen[k - 1], counts, seen);
      InsertByCountKeys(s, seen[k - 1], counts);
      assert keys == seen[..k - 1] + [seen[k - 1]];
    }
  }

  /** The keys among the first `k` of `seen` all come before key `k`. */
  lemma {:induction false} SeenEarlier(seen: seq<string>, k: nat, s: seq<string>)
    requires NoDuplicates(seen) && k < |seen| && multiset(s) == multiset(seen[..k])
    ensures forall y :: y in s ==> IndexOf(seen, y) < IndexOf(seen, seen[k])
  {
    IndexOfAt(seen, k);
    forall y | y in s
      ensures IndexOf(seen, y) < k
    {
      assert y in multiset(seen[..k]);
      var i :| 0 <= i < k && seen[..k][i] == y;
      IndexOfAt(seen, i);
    }
  }

  /** A ranked list names no key twice. */
  lemma {:induction false} RankedNoDuplicates(counts: multiset<string>, seen: seq<string>, s: seq<string>)
    requires Ranked(counts, seen, s)
    ensures NoDuplicates(s)
  {
    forall i, j | 0 <= i < j < |s|
      ensures s[i] != s[j]
    {
      assert Precedes(counts, seen, s[i], s[j]);
    }
  }

  /**
   * `most_common(n)`: at most `n` keys and all of them when `n` is large
   * enough, each a name from `items` and none twice, ranked by descending
   * count with first-seen order among equal counts; and every name left out
   * ranks below every name kept.
   */
  lemma {:induction false} MostCommonRanked(items: seq<string>, n: int)
    ensures var r := MostCommon(items, n);
      var seen := Distinct(items);
      |r| == (if n <= 0 then 0 else if n < |seen| then n else |seen|)
      && (forall x :: x in r ==> x in items)
      && NoDuplicates(r)
      && Ranked(multiset(items), seen, r)
      && (forall x, y :: x in items && x !in r && y in r ==> Precedes(multiset(items), seen, y, x))
  {
    var seen := Distinct(items);
    var counts := multiset(items);
    var ranked := SortByCount(seen, counts);
    CounterRanked(items);
    var r := MostCommon(items, n);
    assert r == ranked[..|r|];
    forall x | x in r
      ensures x in items
    {
      assert x in multiset(ranked);
    }
    RankedNoDuplicates(counts, seen, r);
    forall x | x in items
      ensures x in ranked
    {
      assert x in multiset(seen);
    }
    RankedPrefixLeadsRest(counts, seen, ranked, |r|);
  }

  /** Every key of a ranked list missing from one of its prefixes ranks below every key in that prefix. */
  lemma {:induction false} RankedPrefixLeadsRest(counts: multiset<string>, seen: seq<string>, ranked: seq<string>, m: nat)
    requires Ranked(counts, seen, ranked) && m <= |ranked|
    ensures forall x, y :: x in ranked && x !in ranked[..m] && y in ranked[..m] ==> Precedes(counts, seen, y, x)
  {
    forall x, y | x in ranked && x !in ranked[..m] && y in ranked[..m]
      ensures Precedes(counts, seen, y, x)
    {
      var j :| 0 <= j < |ranked| && ranked[j] == x;
      var i :| 0 <= i < m && ranked[..m][i] == y;
      assert forall k :: 0 <= k < m ==> ranked[..m][k] == ranked[k];
      assert Precedes(counts, seen, ranked[i], ranked[j]);
    }
  }

  /** All keys of the counter, ranked. */
  lemma {:induction false} CounterRanked(items: seq<string>)
    ensures var ranked := SortByCount(Distinct(items), multiset(items));
      Ranked(multiset(items), Distinct(items), ranked)
      && multiset(ranked) == multiset(Distinct(items))
      && |ranked| == |Distinct(items)|
  {
    var seen := Distinct(items);
    SortByCountRanked(seen, |seen|, multiset(items));
    assert seen[..|seen|] == seen;
    var ranked := SortByCount(seen, multiset(items));
    assert |multiset(ranked)| == |multiset(seen)|;
  }

  /** Adding up the counts of the distinct keys of a list gives its length. */
  lemma {:induction false} SumCountsIsLength(items: seq<string>)
    ensures SumCounts(Distinct(items), multiset(items)) == |items|
    decreases |items|
  {
    if items != [] {
      var init := items[..|items| - 1];
      var x := items[|items| - 1];
      assert items == init + [x];
      var d := Distinct(init);
      SumCountsIsLength(init);
      SumCountsAdd(d, multiset(init), x);
    }
  }

  /** Counting one more `x` adds one to the sum over keys that name `x` once, and `x`'s own count when it is new. */
  lemma {:induction false} SumCountsAdd(d: seq<string>, counts: multiset<string>, x: string)
    requires NoDuplicates(d)
    ensures x in d ==> SumCounts(d, counts + multiset{x}) == SumCounts(d, counts) + 1
    ensures x !in d ==> SumCounts(d + [x], counts + multiset{x}) == SumCounts(d, counts) + counts[x] + 1
    decreases |d|
  {
    var more := counts + multiset{x};
    if x !in d {
      assert (d + [x])[..|d|] == d;
      SumCountsUnchanged(d, counts, x);
    } else if d != [] {
      var init := d[..|d| - 1];
      var last := d[|d| - 1];
      if last == x {
        assert x !in init;
        SumCountsUnchanged(init, counts, x);
      } else {
        assert x in init;
        SumCountsAdd(init, counts, x);
      }
    }
  }

  lemma {:induction false} SumCountsUnchanged(d: seq<string>, counts: multiset<string>, x: string)
    requires x !in d
    ensures SumCounts(d, counts + multiset{x}) == SumCounts(d, counts)
    decreases |d|
  {
    if d != [] {
      SumCountsUnchanged(d[..|d| - 1], counts, x);
    }
  }

  /**
   * `_summarize_top`: nothing for no names; otherwise the prose join of the
   * `most_common(n)` names and the total, which is the number of names.
   */
  lemma {:induction false} SummarizeTopSpec(items: seq<string>, n: int)
    ensures items == [] ==> SummarizeTop(items, n) == ("", 0)
    ensures SummarizeTop(items, n).1 == |items|
    ensures items != [] ==> SummarizeTop(items, n).0 == GrammaticalJoin(MostCommon(items, n))
    ensures items != [] && n >= 1 ==> StartsWith(SummarizeTop(items, n).0, MostCommon(items, n)[0])
  {
    SumCountsIsLength(items);
    if items != [] && n >= 1 {
      MostCommonRanked(items, n);
      assert items[0] in Distinct(items);
      GrammaticalJoinLayout(MostCommon(items, n));
    }
  }

  /** The name seen most often leads the summary, whatever else is listed. */
  lemma {:induction false} MostCommonFirst(items: seq<string>, n: int, x: string)
    requires n >= 1 && x in items
    requires forall y :: y in items && y != x ==> multiset(items)[y] < multiset(items)[x]
    ensures MostCommon(items, n) != [] && MostCommon(items, n)[0] == x
  {
    MostCommonRanked(items, n);
    assert items[0] in Distinct(items);
    var r := MostCommon(items, n);
    assert r[0] in items;
    if x in r {
      var j :| 0 <= j < |r| && r[j] == x;
      assert j == 0 || Precedes(multiset(items), Distinct(items), r[0], r[j]);
    } else {
      assert Precedes(multiset(items), Distinct(items), r[0], x);
    }
  }

  /**
   * `template.format(count=value)` where `count` is the only field: `{{`
   * and `}}` stand for single braces and `{count}` for `value`. A field
   * naming anything else, or a stray `{` or `}`, raises, which is `None`.
   * Only the bare `{count}` field is read: a conversion, a format spec or an
   * attribute after `count` (`{count!r}`, `{count:,}`, `{count.real}`),
   * which Python accepts, also gives `None` here.
   */
  function FormatCount(template: string, value: string): Option<string>
    decreases |template|
  {
    if template == [] then Some([])
    else if |template| >= 2 && template[..2] == "{{" then
      Prepend("{", FormatCount(template[2..], value))
    else if |template| >= 2 && template[..2] == "}}" then
      Prepend("}", FormatCount(template[2..], value))
    else if |template| >= 7 && template[..7] == "{count}" then
      Prepend(value, FormatCount(template[7..], value))
    else if template[0] == '{' || template[0] == '}' then None
    else
      Prepend([template[0]], FormatCount(template[1..], value))
  }

  /** `text` ahead of a formatted rest, or the error the rest raised. */
  function Prepend(text: string, rest: Option<string>): Option<string>
  {
    if rest.Some? then Some(text + rest.value) else None
  }

  /** `generate_chunk_summary`: the template filled with the count when it is positive, else nothing. */
  function ChunkSummary(template: string, count: int): Option<string>
  {
    if count > 0 then FormatCount(template, NatText(count)) else Some("")
  }

  predicate Braceless(s: string)
  {
    forall k :: 0 <= k < |s| ==> s[k] != '{' && s[k] != '}'
  }

  /** A character that is not a brace is copied. */
  lemma {:induction false} FormatPlainHead(t: string, value: string)
    requires t != [] && t[0] != '{' && t[0] != '}'
    ensures FormatCount(t, value) == Prepend([t[0]], FormatCount(t[1..], value))
  {
    if |t| >= 2 {
      assert t[..2][0] == t[0];
    }
    if |t| >= 7 {
      assert t[..7][0] == t[0];
    }
  }

  /** A doubled brace is copied once. */
  lemma {:induction false} FormatDoubledHead(c: char, rest: string, value: string)
    requires c == '{' || c == '}'
    ensures FormatCount([c, c] + rest, value) == Prepend([c], FormatCount(rest, value))
  {
    var t := [c, c] + rest;
    assert t[..2] == [c, c] && t[2..] == rest;
  }

  /** Text without braces passes through `format` unchanged, ahead of whatever follows. */
  lemma {:induction false} FormatBraceless(plain: string, rest: string, value: string)
    requires Braceless(plain)
    ensures FormatCount(plain + rest, value) == Prepend(plain, FormatCount(rest, value))
    decreases |plain|
  {
    var f := FormatCount(rest, value);
    if plain != [] {
      var t := plain + rest;
      assert t[0] == plain[0] && t[1..] == plain[1..] + rest;
      FormatPlainHead(t, value);
      FormatBraceless(plain[1..], rest, value);
      PrependTwice([plain[0]], plain[1..], f);
      assert [plain[0]] + plain[1..] == plain;
    } else {
      assert plain + rest == rest;
      PrependNothing(f);
    }
  }

  lemma {:induction false} PrependTwice(a: string, b: string, f: Option<string>)
    ensures Prepend(a, Prepend(b, f)) == Prepend(a + b, f)
  {
    if f.Some? {
      assert a + (b + f.value) == (a + b) + f.value;
    }
  }

  lemma {:induction false} PrependNothing(f: Option<string>)
    ensures Prepend([], f) == f
  {
    if f.Some? {
      assert [] + f.value == f.value;
    }
  }

  /** A leading `{count}` becomes the value. */
  lemma {:induction false} FormatFieldHead(after: string, value: string)
    ensures FormatCount("{count}" + after, value) == Prepend(value, FormatCount(after, value))
  {
    var t := "{count}" + after;
    assert t[..2] == "{c";
    assert t[..7] == "{count}";
    assert t[7..] == after;
  }

  /** `{count}` followed by text without braces reads the value, then that text. */
  lemma {:induction false} FormatFieldThenPlain(after: string, value: string)
    requires Braceless(after)
    ensures FormatCount("{count}" + after, value) == Some(value + after)
  {
    FormatBraceless(after, [], value);
    assert after + [] == after;
    FormatFieldHead(after, value);
  }

  /** A template `before{count}after` with no other brace reads `before`, the value, `after`. */
  lemma {:induction false} FormatOneField(before: string, after: string, value: string)
    requires Braceless(before) && Braceless(after)
    ensures FormatCount(before + ("{count}" + after), value) == Some(before + (value + after))
  {
    FormatFieldThenPlain(after, value);
    FormatBraceless(before, "{count}" + after, value);
  }

  /** Text with every brace doubled, so that `format` gives it back. */
  function EscapeBraces(s: string): string
  {
    if s == [] then []
    else if s[0] == '{' then "{{" + EscapeBraces(s[1..])
    else if s[0] == '}' then "}}" + EscapeBraces(s[1..])
    else [s[0]] + EscapeBraces(s[1..])
  }

  /** `format` undoes brace doubling, whatever the value. */
  lemma {:induction false} FormatEscaped(s: string, value: string)
    ensures FormatCount(EscapeBraces(s), value) == Some(s)
    decreases |s|
  {
    if s != [] {
      var e := EscapeBraces(s);
      FormatEscaped(s[1..], value);
      if s[0] == '{' || s[0] == '}' {
        assert e == [s[0], s[0]] + EscapeBraces(s[1..]);
        FormatDoubledHead(s[0], EscapeBraces(s[1..]), value);
      } else {
        FormatPlainHead(e, value);
        assert e[1..] == EscapeBraces(s[1..]);
      }
      assert [s[0]] + s[1..] == s;
    }
  }

  /** The default `chunk_summary` wording, `**{count}** new map chunk(s) were added.`, laid out around its field. */
  const DEFAULT_CHUNK_TAIL := "** new map chunk(s) were added."
  const DEFAULT_CHUNK_SUMMARY := "**" + ("{count}" + DEFAULT_CHUNK_TAIL)

  lemma {:induction false} DefaultChunkTailBraceless()
    ensures Braceless("**") && Braceless(DEFAULT_CHUNK_TAIL)
  {
  }

  /**
   * `generate_chunk_summary`: no sentence for a count that is not positive;
   * with the default wording, a positive count is written in decimal between
   * the emphasis marks, and reading those digits back gives the count; a
   * wording without braces is used as it is.
   */
  lemma {:induction false} ChunkSummarySpec(template: string, count: int)
    ensures count <= 0 ==> ChunkSummary(template, count) == Some("")
    ensures count > 0 && template == DEFAULT_CHUNK_SUMMARY ==>
      ChunkSummary(template, count) == Some("**" + (NatText(count) + DEFAULT_CHUNK_TAIL))
      && DecimalValue(NatText(count)) == count
    ensures count > 0 && Braceless(template) ==> ChunkSummary(template, count) == Some(template)
  {
    if count > 0 {
      NatTextValue(count);
      if template == DEFAULT_CHUNK_SUMMARY {
        DefaultChunkTailBraceless();
        FormatOneField("**", DEFAULT_CHUNK_TAIL, NatText(count));
      }
      if Braceless(template) {
        FormatBraceless(template, [], NatText(count));
        assert template + [] == template;
      }
    }
  }
}
