/**
 * `mznParser` of mzncore.h: a read-only cursor over a template. It reads
 * `root[cur]` only while `cur < max` and answers NUL at and past the bound.
 */
module FormatParser {
  import opened CBytes

  /** The byte the cursor sees at index `i`. */
  function ByteAt(root: seq<CChar>, max: nat, i: nat): CChar
    requires max <= |root|
  {
    if i < max then root[i] else NUL
  }

  /** The first index at or after `i` where the cursor sees NUL or `sym`; never past `max`. */
  function SpanEnd(root: seq<CChar>, max: nat, i: nat, sym: CChar): (j: nat)
    requires i <= max <= |root|
    ensures i <= j <= max
    ensures ByteAt(root, max, j) == NUL || ByteAt(root, max, j) == sym
    ensures forall k :: i <= k < j ==> root[k] != NUL && root[k] != sym
    decreases max - i
  {
    if ByteAt(root, max, i) == NUL || ByteAt(root, max, i) == sym then i
    else SpanEnd(root, max, i + 1, sym)
  }

  /** How many bytes `mzn_parser_copy_to` copies: up to `SpanEnd`, and at most `size - 1`. */
  function CopyCount(root: seq<CChar>, max: nat, cur: nat, size: nat, sym: CChar): (n: nat)
    requires cur <= max <= |root|
    ensures cur + n <= max && (size == 0 ==> n == 0) && (size > 0 ==> n <= size - 1)
    ensures forall k :: cur <= k < cur + n ==> root[k] != NUL && root[k] != sym
  {
    Min(SpanEnd(root, max, cur, sym) - cur, Max(size - 1, 0))
  }

  /**
   * The cursor never looks at `root[max..]`: two roots that agree below `max`
   * give the same span, whatever follows.
   */
  lemma {:induction false} SpanIgnoresTail(r1: seq<CChar>, r2: seq<CChar>, max: nat, i: nat, sym: CChar)
    requires i <= max <= |r1| && max <= |r2| && r1[..max] == r2[..max]
    ensures SpanEnd(r1, max, i, sym) == SpanEnd(r2, max, i, sym)
    decreases max - i
  {
    if i < max {
      assert r1[i] == r1[..max][i] == r2[..max][i] == r2[i];
      if r1[i] != NUL && r1[i] != sym {
        SpanIgnoresTail(r1, r2, max, i + 1, sym);
      }
    }
  }

  /** A byte that is neither NUL nor `sym` belongs to the span. */
  lemma {:induction false} SpanStep(root: seq<CChar>, max: nat, i: nat, sym: CChar)
    requires i <= max <= |root|
    requires ByteAt(root, max, i) != NUL && ByteAt(root, max, i) != sym
    ensures i < max && SpanEnd(root, max, i, sym) == SpanEnd(root, max, i + 1, sym)
  {
  }

  class Parser {
    const root: seq<CChar>
    const max: nat
    var cur: nat

    ghost predicate Valid()
      reads this
    {
      max <= |root| && cur <= max
    }

    /** `mzn_parser_create`. */
    constructor (str: seq<CChar>, max: nat)
      requires max <= |str|
      ensures Valid() && root == str && this.max == max && cur == 0
    {
      root := str;
      this.max := max;
      cur := 0;
    }

    /** `mzn_parser_at`: a byte other than NUL only from below the bound, the one at the cursor. */
    function At(): (c: CChar)
      reads this
      requires Valid()
      ensures c != NUL ==> cur < max && c == root[cur]
      ensures cur == max ==> c == NUL
    {
      ByteAt(root, max, cur)
    }

    /** `mzn_parser_peek`: the byte after the current one, NUL when `cur + 1` reaches `max`. */
    function Peek(): (c: CChar)
      reads this
      requires Valid()
      ensures c != NUL ==> cur + 1 < max && c == root[cur + 1]
      ensures cur + 1 >= max ==> c == NUL
    {
      ByteAt(root, max, cur + 1)
    }

    /** `mzn_parser_at_raw`: the C string from the cursor on, read without the bound. */
    function AtRaw(): seq<CChar>
      reads this
      requires Valid()
    {
      root[cur..]
    }

    /** `mzn_parser_next`: the current byte, advancing only while `cur < max`. */
    method Next() returns (c: CChar)
      requires Valid()
      modifies this
      ensures Valid() && c == old(At())
      ensures cur == if old(cur) < max then old(cur) + 1 else old(cur)
    {
      if cur < max {
        c := root[cur];
        cur := cur + 1;
      } else {
        c := NUL;
      }
    }

    /**
     * `mzn_parser_copy_to`: copy bytes into `buf` from `at` until NUL, `sym`
     * or `size - 1` bytes, then store a terminator (also when `size` is 0).
     */
    method CopyTo(buf: array<CChar>, at: nat, size: nat, sym: CChar) returns (count: nat)
      requires Valid() && at + Max(size, 1) <= buf.Length
      modifies this, buf
      ensures Valid() && count == CopyCount(root, max, old(cur), size, sym)
      ensures cur == old(cur) + count
      ensures buf[..] == Overwrite(old(buf[..]), at, root[old(cur)..cur] + [NUL])
    {
      ghost var start, b0 := cur, buf[..];
      count := CopyRun(buf, at, size, sym);
      buf[at + count] := NUL;
      OverwriteOf(b0, at, root[start..cur] + [NUL], buf[..]);
    }

    /** The loop of `mzn_parser_copy_to`: the bytes it copies, before the terminator. */
    method CopyRun(buf: array<CChar>, at: nat, size: nat, sym: CChar) returns (count: nat)
      requires Valid() && at + Max(size, 1) <= buf.Length
      modifies this, buf
      ensures Valid() && count == CopyCount(root, max, old(cur), size, sym) && cur == old(cur) + count
      ensures forall k :: 0 <= k < buf.Length && !(at <= k < at + count) ==> buf[k] == old(buf[k])
      ensures forall k :: at <= k < at + count ==> buf[k] == root[old(cur) + (k - at)]
    {
      ghost var start, b0 := cur, buf[..];
      ghost var limit := Max(size - 1, 0);
      count := 0;
      var c := At();
      while c != NUL && c != sym && count < size - 1
        invariant cur <= max && cur == start + count && count <= limit && c == ByteAt(root, max, cur)
        invariant SpanEnd(root, max, cur, sym) == SpanEnd(root, max, start, sym)
        invariant forall k :: 0 <= k < buf.Length && !(at <= k < at + count) ==> buf[k] == b0[k]
        invariant forall k :: at <= k < at + count ==> buf[k] == root[start + (k - at)]
        decreases max - cur
      {
        SpanStep(root, max, cur, sym);
        buf[at + count] := c;
        count := count + 1;
        var skipped := Next();
        c := At();
      }
      assert count == CopyCount(root, max, start, size, sym);
    }
  }
}
