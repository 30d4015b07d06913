/** Memory services of kservice.c: moving bytes between areas that may overlap, and blocks with a
    chosen alignment on top of rt_malloc. */
module Memory {
  import opened Arithmetic

  /** rt_memmove: the destination gets what the source held before, however the two overlap. */
  method MemMove(ram: array<nat>, dest: nat, src: nat, n: nat)
    requires dest + n <= ram.Length && src + n <= ram.Length
    modifies ram
    ensures ram[dest..dest + n] == old(ram[src..src + n])
    ensures forall a :: 0 <= a < ram.Length && !(dest <= a < dest + n) ==> ram[a] == old(ram[a])
  {
    if src < dest < src + n {
      var left: nat := n;
      while left > 0
        invariant 0 <= left <= n
        invariant forall a :: dest + left <= a < dest + n ==> ram[a] == old(ram[a - dest + src])
        invariant forall a :: 0 <= a < ram.Length && !(dest + left <= a < dest + n) ==> ram[a] == old(ram[a])
      {
        left := left - 1;
        ram[dest + left] := ram[src + left];
      }
    } else {
      var done := 0;
      while done < n
        invariant done <= n
        invariant forall a :: dest <= a < dest + done ==> ram[a] == old(ram[a - dest + src])
        invariant forall a :: 0 <= a < ram.Length && !(dest <= a < dest + done) ==> ram[a] == old(ram[a])
      {
        ram[dest + done] := ram[src + done];
        done := done + 1;
      }
    }
  }

  /** sizeof(void *) */
  const WORD: nat := 4

  /** The size and the alignment rounded to whole pointers. */
  function Whole(n: nat): (r: nat)
    ensures n <= r < n + WORD && r % WORD == 0
  {
    (n + WORD - 1) / WORD * WORD
  }

  /** What rt_malloc_align asks of rt_malloc. */
  function Request(size: nat, align: nat): nat {
    Whole(size) + Whole(align)
  }

  /** The address it returns for the block at ptr.  The masks of the source are remainders, the
      alignment being a power of two. */
  function AlignPtr(ptr: nat, align: nat): nat
    requires align > 0
  {
    if ptr % align == 0 then ptr + align else (ptr + align - 1) / align * align
  }

  /** The address is aligned, there is room for the size behind it, and the pointer before it, by
      which rt_free_align finds the block again, is inside the block too. */
  lemma AlignedInside(ptr: nat, size: nat, align: nat)
    requires align > 0 && ptr % WORD == 0
    ensures var a := AlignPtr(ptr, Whole(align));
      && a % Whole(align) == 0 && a % WORD == 0
      && ptr + WORD <= a && a + size <= ptr + Request(size, align)
  {
    var w := Whole(align);
    var steps := w / WORD;
    NextMultiple(ptr, w);
    var q := ptr / w + 1;
    assert q * w == q * (steps * WORD) == (q * steps) * WORD;
    Divided(q * w, WORD, q * steps, 0);
  }

  /** It is the next multiple of the alignment above ptr. */
  lemma NextMultiple(ptr: nat, align: nat)
    requires align > 0
    ensures AlignPtr(ptr, align) == (ptr / align + 1) * align
    ensures ptr < AlignPtr(ptr, align) <= ptr + align && AlignPtr(ptr, align) % align == 0
  {
    var q := ptr / align;
    assert ptr == q * align + ptr % align;
    assert (q + 1) * align == q * align + align;
    Divided((q + 1) * align, align, q + 1, 0);
    if ptr % align != 0 {
      Divided(ptr + align - 1, align, q + 1, ptr % align - 1);
    }
  }
}
