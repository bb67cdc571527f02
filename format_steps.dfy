/**
 * The two kinds of driver iteration that copy bytes, each stated for given
 * intermediate values, so that the methods of the driver can name them.
 */
module FormatSteps {
  import opened CBytes
  import opened FormatParser
  import opened FormatRegistry
  import opened FormatSpec

  /** `Step` on a literal byte that copies `k` bytes. */
  lemma {:induction false} StepLiteral(root: seq<CChar>, max: nat, table: seq<Specifier>, n: nat,
                                       cur: nat, count: nat, buf: seq<CChar>, args: seq<Arg>, k: nat)
    requires cur <= max <= |root| && count < n <= |buf|
    requires ByteAt(root, max, cur) != NUL && ByteAt(root, max, cur) != '%'
    requires k == CopyCount(root, max, cur, n - count, '%')
    ensures Step(root, max, table, n, State(cur, count, buf, args))
         == State(cur + k, count + k, Overwrite(buf, count, root[cur..cur + k] + [NUL]), args)
  {
  }

  /** `Step` on a '%' that starts the directive `d`, which emits `e`. */
  lemma {:induction false} StepDirective(root: seq<CChar>, max: nat, table: seq<Specifier>, n: nat,
                                         cur: nat, count: nat, buf: seq<CChar>, args: seq<Arg>, d: Directive, e: Emit)
    requires cur <= max <= |root| && count < n <= |buf|
    requires ByteAt(root, max, cur) == '%' && ByteAt(root, max, cur + 1) != '%'
    requires d == ParseDirective(root, max, cur + 1, args) && e == DirectiveOutput(table, d, n - count)
    ensures Step(root, max, table, n, State(cur, count, buf, args))
         == State(d.next, count + e.count, Overwrite(buf, count, e.bytes), e.rest)
  {
  }

  /** `ParseDirective` assembled from its parts: flags, width, precision and length modifiers. */
  lemma {:induction false} ParseDirectiveParts(root: seq<CChar>, max: nat, i: nat, args: seq<Arg>,
                                               f: Flags, w: Count, pc: Count, m: nat)
    requires i <= max <= |root|
    requires f == ReadFlags(root, max, i) && w == ReadCount(root, max, f.end, args, 0)
    requires pc == if ByteAt(root, max, w.end) == '.' then ReadCount(root, max, w.end + 1, w.rest, 0) else Count(-1, w.end, w.rest)
    requires m == SkipLength(root, max, pc.end)
    ensures ParseDirective(root, max, i, args)
         == Directive(f.left, f.pad, w.value, pc.value, ByteAt(root, max, w.end) == '.', ByteAt(root, max, m),
                      if m < max then m + 1 else m, pc.rest)
  {
  }
}
