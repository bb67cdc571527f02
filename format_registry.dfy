/**
 * The specifier registry of mzncore.h's formatter: `mznFormatStringContext`
 * holds a bounded, append-only table from a symbol to a handler, plus the
 * per-directive fields (`width`, `precision`, flags) that a handler reads.
 * Handler function pointers are modelled by the kind of handler they name.
 */
module FormatRegistry {
  import opened Wrappers
  import opened CBytes

  /** The default handlers `mzn_format_*`. */
  datatype Handler = FormatInt | FormatHexLower | FormatHexUpper | FormatDouble | FormatString | FormatChar

  /** One `mznFormatStringSpecifier` entry. */
  datatype Specifier = Specifier(symbol: CChar, handler: Handler)

  /** `sizeof(mznFormatStringSpecifier)`: a byte symbol padded to pointer alignment, then an 8-byte pointer. */
  const ENTRY_SIZE: nat := 16

  /** The handler of the first entry whose symbol is `c`, as the dispatch loop finds it. */
  function Lookup(table: seq<Specifier>, c: CChar): (h: Option<Handler>)
    ensures h.Some? <==> exists i :: 0 <= i < |table| && table[i].symbol == c
  {
    if table == [] then None
    else if table[0].symbol == c then Some(table[0].handler)
    else Lookup(table[1..], c)
  }

  /** Lookup answers with the entry at the first index carrying the symbol. */
  lemma {:induction false} LookupFirst(table: seq<Specifier>, c: CChar, i: nat)
    requires i < |table| && table[i].symbol == c
    requires forall j :: 0 <= j < i ==> table[j].symbol != c
    ensures Lookup(table, c) == Some(table[i].handler)
  {
    if i > 0 {
      LookupFirst(table[1..], c, i - 1);
    }
  }

  /**
   * Appending an entry never changes the answer for a symbol already in the
   * table (a later registration cannot override an earlier one); it only makes
   * its own symbol findable when it was missing.
   */
  lemma {:induction false} LookupAppend(table: seq<Specifier>, e: Specifier, c: CChar)
    ensures Lookup(table + [e], c)
         == if Lookup(table, c).Some? then Lookup(table, c)
            else if e.symbol == c then Some(e.handler) else None
  {
    if table != [] {
      assert (table + [e])[1..] == table[1..] + [e];
      LookupAppend(table[1..], e, c);
    }
  }

  class FormatContext {
    var buffer: array?<CChar>
    var bufferMax: nat
    var bufferCount: nat
    const specifiers: array<Specifier>
    var specifierCount: nat
    var specifierMax: nat
    var truncate: bool
    var leftAlign: bool
    var zeroPad: bool
    var width: int
    var precision: int

    ghost predicate Valid()
      reads this
    {
      specifierCount <= specifierMax <= specifiers.Length
    }

    /** The registered entries, in registration order. */
    function Table(): seq<Specifier>
      reads this, specifiers
      requires Valid()
    {
      specifiers[..specifierCount]
    }

    /**
     * `mzn_format_string_context_init`: clear every field, then take `specMem`
     * with room for `specMemSize / ENTRY_SIZE` entries and an empty table.
     */
    constructor Init(textMem: array?<CChar>, textMemSize: nat, specMem: array<Specifier>, specMemSize: nat)
      requires specMemSize / ENTRY_SIZE <= specMem.Length
      ensures Valid() && specifiers == specMem && specifierMax == specMemSize / ENTRY_SIZE
      ensures specifierCount == 0 && Table() == []
      ensures buffer == textMem && bufferMax == textMemSize && bufferCount == 0
      ensures !truncate && !leftAlign && !zeroPad && width == 0 && precision == 0
    {
      specifiers := specMem;
      specifierMax := specMemSize / ENTRY_SIZE;
      specifierCount := 0;
      buffer := textMem;
      bufferMax := textMemSize;
      bufferCount := 0;
      truncate, leftAlign, zeroPad := false, false, false;
      width, precision := 0, 0;
    }

    /**
     * `mzn_format_string_register_specifier`: append `(symbol, handler)` while
     * there is room; otherwise answer false and change nothing.
     */
    method Register(symbol: CChar, handler: Handler) returns (ok: bool)
      requires Valid()
      modifies this`specifierCount, specifiers
      ensures Valid() && ok == (old(specifierCount) < specifierMax)
      ensures ok ==> Table() == old(Table()) + [Specifier(symbol, handler)]
      ensures !ok ==> specifierCount == old(specifierCount) && specifiers[..] == old(specifiers[..])
      ensures specifiers[specifierCount..] == old(specifiers[..])[specifierCount..]
    {
      if specifierCount < specifierMax {
        ghost var before := specifiers[..specifierCount];
        specifiers[specifierCount] := Specifier(symbol, handler);
        assert specifiers[..specifierCount] == before;
        specifierCount := specifierCount + 1;
        assert specifiers[..specifierCount] == before + [Specifier(symbol, handler)];
        ok := true;
      } else {
        ok := false;
      }
    }

    /** The dispatch loop of `mzn_parser_copy_var`: scan the entries in order for `c`. */
    method Find(c: CChar) returns (h: Option<Handler>)
      requires Valid()
      ensures h == Lookup(Table(), c)
    {
      var i := 0;
      while i < specifierCount
        invariant i <= specifierCount
        invariant forall j :: 0 <= j < i ==> specifiers[j].symbol != c
      {
        if specifiers[i].symbol == c {
          LookupFirst(Table(), c, i);
          return Some(specifiers[i].handler);
        }
        i := i + 1;
      }
      return None;
    }
  }
}
