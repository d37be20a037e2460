/**
 * The heap of src/lwip/mem.c as a list of blocks.
 *
 * A block is a header followed by data up to the next block.  The blocks tile the heap
 * from offset 0 to the end marker.  A used block remembers the size that was requested.
 * `AllocAt`, `FreeAt` and `TrimAt` are what `mem_malloc`, `mem_free` and `mem_trim` do
 * to the list; everything about runs of these calls is proved here.
 */
module HeapList {
  /**
   * The build constants: MEM_ALIGNMENT, SIZEOF_STRUCT_MEM, MIN_SIZE_ALIGNED and
   * MEM_SIZE_ALIGNED, and the number of values of `mem_size_t`.
   */
  datatype Config = Config(align: nat, hdr: nat, min: nat, end: nat, limit: nat)

  ghost predicate ValidConfig(c: Config) {
    && c.align > 0 && c.hdr > 0
    && Aligned(c, c.hdr) && Aligned(c, c.min) && Aligned(c, c.end) && Aligned(c, c.limit)
    && c.hdr + c.min <= c.end && c.end + c.align <= c.limit
  }

  predicate Aligned(c: Config, x: int)
    requires c.align > 0
  {
    x % c.align == 0
  }

  datatype Block = Free(off: nat) | Used(off: nat, req: nat)

  type Blocks = seq<Block>

  /** Where block `i` ends: the start of the next block or the end marker. */
  ghost function EndOf(c: Config, l: Blocks, i: nat): nat
    requires i < |l|
  {
    if i + 1 < |l| then l[i + 1].off else c.end
  }

  /** The `prev` link of block `i`; the first block points to itself. */
  ghost function PrevOf(l: Blocks, i: nat): nat
    requires i < |l|
  {
    if i == 0 then l[i].off else l[i - 1].off
  }

  ghost function DataSize(c: Config, l: Blocks, i: nat): int
    requires i < |l|
  {
    EndOf(c, l, i) - l[i].off - c.hdr
  }

  /** The blocks start at 0, go up, and stay below the end marker. */
  ghost predicate Ordered(c: Config, l: Blocks) {
    && |l| > 0 && l[0].off == 0
    && forall i {:trigger EndOf(c, l, i)} :: 0 <= i < |l| ==> l[i].off < EndOf(c, l, i)
  }

  ghost predicate BlockOk(c: Config, l: Blocks, i: nat)
    requires c.align > 0 && i < |l|
  {
    && Aligned(c, l[i].off)
    && c.min <= DataSize(c, l, i)
    && (l[i].Used? ==> l[i].req <= DataSize(c, l, i))
  }

  ghost predicate BothFree(l: Blocks, i: nat)
    requires i < |l|
  {
    l[i].Free? && i + 1 < |l| && l[i + 1].Free?
  }

  ghost predicate WellFormed(c: Config, l: Blocks)
    requires c.align > 0
  {
    && Ordered(c, l)
    && (forall i :: 0 <= i < |l| ==> BlockOk(c, l, i))
    && (forall i :: 0 <= i < |l| ==> !BothFree(l, i))
  }

  lemma {:induction false} Increasing(c: Config, l: Blocks, i: nat, j: nat)
    requires Ordered(c, l) && i < j < |l|
    ensures EndOf(c, l, i) <= l[j].off && l[i].off < l[j].off < c.end
    decreases j - i
  {
    if i + 1 < j {
      Increasing(c, l, i + 1, j);
      assert l[i + 1].off < EndOf(c, l, i + 1);
    }
    assert l[i].off < EndOf(c, l, i);
    BelowEnd(c, l, j);
  }

  lemma {:induction false} BelowEnd(c: Config, l: Blocks, j: nat)
    requires Ordered(c, l) && j < |l|
    ensures l[j].off < EndOf(c, l, j) <= c.end
    decreases |l| - j
  {
    assert l[j].off < EndOf(c, l, j);
    if j + 1 < |l| {
      BelowEnd(c, l, j + 1);
    }
  }

  /** All offsets differ and the later block lies beyond the earlier one. */
  lemma AllIncreasing(c: Config, l: Blocks)
    requires Ordered(c, l)
    ensures forall i, j {:trigger EndOf(c, l, i), l[j]} :: 0 <= i < j < |l| ==>
              EndOf(c, l, i) <= l[j].off && l[i].off < l[j].off
    ensures forall i {:trigger EndOf(c, l, i)} :: 0 <= i < |l| ==> l[i].off < EndOf(c, l, i) <= c.end
  {
    forall i, j | 0 <= i < j < |l| ensures EndOf(c, l, i) <= l[j].off && l[i].off < l[j].off {
      Increasing(c, l, i, j);
    }
    forall i | 0 <= i < |l| ensures l[i].off < EndOf(c, l, i) <= c.end {
      BelowEnd(c, l, i);
    }
  }

  // Inserting a block after block i and removing block i.

  ghost function Insert(l: Blocks, i: nat, b: Block): Blocks
    requires i < |l|
  {
    l[..i + 1] + [b] + l[i + 1..]
  }

  ghost function Remove(l: Blocks, i: nat): Blocks
    requires i < |l|
  {
    l[..i] + l[i + 1..]
  }

  lemma InsertAt(c: Config, l: Blocks, i: nat, b: Block, j: nat)
    requires i < |l| && j <= |l|
    ensures var l' := Insert(l, i, b);
            && |l'| == |l| + 1
            && l'[j] == (if j <= i then l[j] else if j == i + 1 then b else l[j - 1])
            && EndOf(c, l', j) == (if j < i then EndOf(c, l, j) else if j == i then b.off else EndOf(c, l, j - 1))
            && PrevOf(l', j) == (if j <= i then PrevOf(l, j) else if j == i + 1 then l[i].off
                                 else if j == i + 2 then b.off else PrevOf(l, j - 1))
  {
  }

  lemma RemoveAt(c: Config, l: Blocks, i: nat, j: nat)
    requires 0 < i < |l| && j < |l| - 1
    ensures var l' := Remove(l, i);
            && |l'| == |l| - 1
            && l'[j] == (if j < i then l[j] else l[j + 1])
            && EndOf(c, l', j) == (if j < i - 1 then EndOf(c, l, j) else EndOf(c, l, j + 1))
            && PrevOf(l', j) == (if j < i then PrevOf(l, j) else if j == i then l[i - 1].off else PrevOf(l, j + 1))
  {
  }

  lemma InsertRemove(l: Blocks, i: nat, b: Block)
    requires i < |l|
    ensures Remove(Insert(l, i, b), i + 1) == l
  {
  }

  lemma InsertOrdered(c: Config, l: Blocks, i: nat, b: Block)
    requires Ordered(c, l) && i < |l| && l[i].off < b.off < EndOf(c, l, i)
    ensures Ordered(c, Insert(l, i, b))
  {
    var l' := Insert(l, i, b);
    forall j | 0 <= j < |l'| ensures l'[j].off < EndOf(c, l', j) {
      InsertAt(c, l, i, b, j);
      assert j < |l| ==> l[j].off < EndOf(c, l, j);
      assert j > 0 ==> l[j - 1].off < EndOf(c, l, j - 1);
    }
  }

  lemma RemoveOrdered(c: Config, l: Blocks, i: nat)
    requires Ordered(c, l) && 0 < i < |l|
    ensures Ordered(c, Remove(l, i))
  {
    var l' := Remove(l, i);
    forall j | 0 <= j < |l'| ensures l'[j].off < EndOf(c, l', j) {
      RemoveAt(c, l, i, j);
      assert l[j].off < EndOf(c, l, j) && l[j + 1].off < EndOf(c, l, j + 1);
    }
  }

  // The lowest free block.

  ghost function FirstFree(l: Blocks, i: nat): (k: nat)
    requires i <= |l|
    ensures i <= k <= |l|
    ensures k < |l| ==> l[k].Free?
    ensures forall j :: i <= j < k ==> l[j].Used?
    decreases |l| - i
  {
    if i == |l| || l[i].Free? then i else FirstFree(l, i + 1)
  }

  /** `lfree`: the lowest free block, or the end marker if there is none. */
  ghost function LowestFree(c: Config, l: Blocks): nat {
    var k := FirstFree(l, 0);
    if k < |l| then l[k].off else c.end
  }

  lemma FirstFreeIs(l: Blocks, k: nat)
    requires k <= |l| && (k < |l| ==> l[k].Free?) && forall j :: 0 <= j < k ==> l[j].Used?
    ensures FirstFree(l, 0) == k
  {
  }
}
