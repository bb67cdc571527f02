/**
 * Bounded memory fill and copy of mzncore.h: `mzn_memclr`, `mzn_memset`,
 * `mzn_memcpy`. A NULL pointer is a `null` array; each routine reports
 * whether it ran.
 */
module MemOps {
  import opened CBytes

  /** `mzn_memclr`: zero the first `size` bytes. */
  method MemClr(mem: array?<CChar>, size: nat) returns (ok: bool)
    requires mem != null ==> size <= mem.Length
    modifies mem
    ensures ok <==> mem != null
    ensures mem != null ==> forall k :: 0 <= k < size ==> mem[k] == NUL
    ensures mem != null ==> mem[size..] == old(mem[size..])
  {
    if mem == null {
      return false;
    }
    var i := 0;
    while i < size
      invariant 0 <= i <= size
      invariant forall k :: 0 <= k < i ==> mem[k] == NUL
      invariant mem[i..] == old(mem[i..])
    {
      mem[i] := NUL;
      i := i + 1;
    }
    return true;
  }

  /** `mzn_memset`: fill the first `size` bytes with `v`. */
  method MemSet(mem: array?<CChar>, v: CChar, size: nat) returns (ok: bool)
    requires mem != null ==> size <= mem.Length
    modifies mem
    ensures ok <==> mem != null
    ensures mem != null ==> forall k :: 0 <= k < size ==> mem[k] == v
    ensures mem != null ==> mem[size..] == old(mem[size..])
  {
    if mem == null {
      return false;
    }
    var i := 0;
    while i < size
      invariant 0 <= i <= size
      invariant forall k :: 0 <= k < i ==> mem[k] == v
      invariant mem[i..] == old(mem[i..])
    {
      mem[i] := v;
      i := i + 1;
    }
    return true;
  }

  /**
   * `mzn_memcpy`. It refuses when either pointer is NULL or `destSize < srcSize`;
   * otherwise it copies `destSize` bytes -- not `srcSize` -- so it reads
   * `destSize` bytes at `src`, which is why `src` must hold that many.
   */
  method MemCpy(dest: array?<CChar>, destSize: nat, src: array?<CChar>, srcSize: nat) returns (ok: bool)
    requires dest != null ==> destSize <= dest.Length
    requires dest != null && src != null && destSize >= srcSize ==> destSize <= src.Length
    modifies dest
    ensures ok <==> dest != null && src != null && destSize >= srcSize
    ensures ok ==> dest[..destSize] == old(src[..destSize]) && dest[destSize..] == old(dest[destSize..])
    ensures !ok ==> dest == null || dest[..] == old(dest[..])
  {
    if src == null || dest == null || destSize < srcSize {
      return false;
    }
    var i := 0;
    while i < destSize
      invariant 0 <= i <= destSize
      invariant forall k :: 0 <= k < i ==> dest[k] == old(src[k])
      invariant dest[i..] == old(dest[i..])
      invariant src != dest ==> src[..] == old(src[..])
    {
      dest[i] := src[i];
      i := i + 1;
    }
    assert dest[..destSize] == old(src[..destSize]);
    return true;
  }
}
