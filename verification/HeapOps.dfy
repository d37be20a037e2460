/**
 * `mem_malloc`, `mem_free` and `mem_trim` of src/lwip/mem.c as functions on the list of
 * blocks, and what they keep: the list stays well formed, the other live allocations
 * stay as they are, and freeing a fresh allocation restores the list.
 */
module HeapOps {
  import opened HeapList

  // Sizes.

  /** `LWIP_MEM_ALIGN_SIZE` before the result is cut to `mem_size_t`. */
  function RoundUp(c: Config, size: nat): nat
    requires c.align > 0
  {
    (size + c.align - 1) / c.align * c.align
  }

  /** The size a request is expanded to; the cast to `mem_size_t` may wrap. */
  function Expanded(c: Config, size: nat): nat
    requires c.align > 0 && c.limit > 0
  {
    var s := RoundUp(c, size) % c.limit;
    if s < c.min then c.min else s
  }

  /** Whether the expanded size is rejected: too big for the heap, or wrapped. */
  predicate Rejected(c: Config, size: nat)
    requires c.align > 0 && c.limit > 0
  {
    Expanded(c, size) > c.end || Expanded(c, size) < size
  }

  lemma AlignedTimes(c: Config, k: int)
    requires c.align > 0
    ensures Aligned(c, k * c.align)
  {
    DivUnique(k * c.align, c.align, k, 0);
  }

  lemma DivUnique(a: int, m: int, q: int, r: int)
    requires m > 0 && a == q * m + r && 0 <= r < m
    ensures a % m == r && a / m == q
  {
    var q', r' := a / m, a % m;
    assert a == q' * m + r';
    var d := q - q';
    assert d * m == q * m - q' * m;
    SmallMultiple(d, m);
  }

  lemma SmallMultiple(d: int, m: int)
    requires -m < d * m < m
    ensures d == 0
  {
    if d > 0 {
      AtLeastOnce(d, m);
    } else if d < 0 {
      AtLeastOnce(-d, m);
    }
  }

  lemma {:induction false} AtLeastOnce(d: int, m: int)
    requires d >= 1 && m >= 0
    ensures d * m >= m && -d * m <= -m
    decreases d
  {
    if d > 1 {
      AtLeastOnce(d - 1, m);
      assert d * m == (d - 1) * m + m;
    }
  }

  lemma AlignedSum(c: Config, a: int, b: int)
    requires c.align > 0 && Aligned(c, a) && Aligned(c, b)
    ensures Aligned(c, a + b) && Aligned(c, a - b)
  {
    var j, k := a / c.align, b / c.align;
    assert a == j * c.align && b == k * c.align;
    assert a + b == (j + k) * c.align && a - b == (j - k) * c.align;
    AlignedTimes(c, j + k);
    AlignedTimes(c, j - k);
  }

  /** The expanded size of an accepted request is aligned, at least the minimum and at least the request. */
  lemma ExpandedOk(c: Config, size: nat)
    requires ValidConfig(c) && size < c.limit
    ensures Aligned(c, Expanded(c, size)) && c.min <= Expanded(c, size)
    ensures !Rejected(c, size) ==> size <= Expanded(c, size) <= c.end
    ensures Rejected(c, size) <==> RoundUp(c, size) > c.end
    ensures !Rejected(c, size) ==> Expanded(c, size) == if RoundUp(c, size) < c.min then c.min else RoundUp(c, size)
  {
    var up := RoundUp(c, size);
    RoundUpOk(c, size);
    if up < c.limit {
      DivUnique(up, c.limit, 0, up);
    } else {
      AlignedSum(c, up, c.limit);
      assert up - c.limit < c.align;
      DivUnique(up, c.limit, 1, up - c.limit);
      AlignedSmall(c, up - c.limit);
    }
  }

  lemma AlignedSmall(c: Config, x: nat)
    requires c.align > 0 && Aligned(c, x) && x < c.align
    ensures x == 0
  {
    DivUnique(x, c.align, 0, x);
  }

  lemma RoundUpOk(c: Config, size: nat)
    requires c.align > 0
    ensures Aligned(c, RoundUp(c, size)) && size <= RoundUp(c, size) < size + c.align
  {
    var q, r := (size + c.align - 1) / c.align, (size + c.align - 1) % c.align;
    assert size + c.align - 1 == q * c.align + r;
    AlignedTimes(c, q);
  }

  // The search.

  /** A free block with at least `size` data bytes. */
  ghost predicate Fits(c: Config, l: Blocks, i: nat, size: nat)
    requires i < |l|
  {
    l[i].Free? && size <= DataSize(c, l, i)
  }

  /** Plain first fit: the first block from `i` on that fits, or |l|. */
  ghost function FirstFit(c: Config, l: Blocks, size: nat, i: nat): (k: nat)
    requires i <= |l|
    ensures i <= k <= |l| && (k < |l| ==> Fits(c, l, k, size))
    ensures forall j :: i <= j < k ==> !Fits(c, l, j, size)
    decreases |l| - i
  {
    if i == |l| || Fits(c, l, i, size) then i else FirstFit(c, l, size, i + 1)
  }

  /** The search may start at the lowest free block. */
  lemma FirstFitFromLowest(c: Config, l: Blocks, size: nat)
    ensures FirstFit(c, l, size, 0) == FirstFit(c, l, size, FirstFree(l, 0))
  {
    FirstFitSkips(c, l, size, FirstFree(l, 0));
  }

  lemma {:induction false} FirstFitSkips(c: Config, l: Blocks, size: nat, i: nat)
    requires i <= |l| && forall j :: 0 <= j < i ==> !Fits(c, l, j, size)
    ensures FirstFit(c, l, size, 0) == FirstFit(c, l, size, i)
  {
    if i > 0 {
      FirstFitSkips(c, l, size, i - 1);
    }
  }

  /** The search may stop at the first block that starts at `end - size` or later. */
  lemma NoFitBeyond(c: Config, l: Blocks, size: nat, i: nat, j: nat)
    requires c.hdr > 0 && Ordered(c, l) && i <= j < |l| && c.end - size <= l[i].off
    ensures !Fits(c, l, j, size)
  {
    BelowEnd(c, l, j);
    if i < j {
      Increasing(c, l, i, j);
    }
  }

  // The operations.

  /** Allocates the free block `i`, split if the rest can hold a header and the minimum. */
  ghost function AllocAt(c: Config, l: Blocks, i: nat, size: nat, req: nat): Blocks
    requires i < |l|
  {
    var u := l[i := Used(l[i].off, req)];
    if size + c.hdr + c.min <= DataSize(c, l, i) then Insert(u, i, Free(l[i].off + c.hdr + size)) else u
  }

  ghost predicate FreeNext(l: Blocks, i: nat)
    requires i < |l|
  {
    i + 1 < |l| && l[i + 1].Free?
  }

  /** Combines the free block `i` with a free block after it and with one before it. */
  ghost function Plugged(l: Blocks, i: nat): Blocks
    requires i < |l|
  {
    var g := if FreeNext(l, i) then Remove(l, i + 1) else l;
    if i > 0 && l[i - 1].Free? then Remove(g, i) else g
  }

  ghost function FreeAt(l: Blocks, i: nat): Blocks
    requires i < |l|
  {
    Plugged(l[i := Free(l[i].off)], i)
  }

  /** Shrinks the data of block `i` to `size` bytes if there is anything to gain. */
  ghost function TrimAt(c: Config, l: Blocks, i: nat, size: nat, req: nat): Blocks
    requires i < |l|
  {
    var u, q := l[i := Used(l[i].off, req)], l[i].off + c.hdr + size;
    if size == DataSize(c, l, i) then u
    else if FreeNext(l, i) then u[i + 1 := Free(q)]
    else if size + c.hdr + c.min <= DataSize(c, l, i) then Insert(u, i, Free(q))
    else u
  }

  // What they keep.

  lemma UseKeeps(c: Config, l: Blocks, i: nat, req: nat)
    requires ValidConfig(c) && WellFormed(c, l) && i < |l| && req <= DataSize(c, l, i)
    ensures WellFormed(c, l[i := Used(l[i].off, req)])
  {
    var u := l[i := Used(l[i].off, req)];
    forall j | 0 <= j < |u| ensures u[j].off < EndOf(c, u, j) && BlockOk(c, u, j) && !BothFree(u, j) {
      assert EndOf(c, u, j) == EndOf(c, l, j) && BlockOk(c, l, j) && !BothFree(l, j);
    }
  }

  /** Cutting the used block `i` in two, with the second part free. */
  lemma SplitKeeps(c: Config, l: Blocks, i: nat, size: nat)
    requires ValidConfig(c) && WellFormed(c, l) && i < |l| && l[i].Used? && l[i].req <= size && !FreeNext(l, i)
    requires Aligned(c, size) && c.min <= size && size + c.hdr + c.min <= DataSize(c, l, i)
    ensures WellFormed(c, Insert(l, i, Free(l[i].off + c.hdr + size)))
  {
    var q := l[i].off + c.hdr + size;
    assert BlockOk(c, l, i);
    AlignedSum(c, l[i].off, c.hdr);
    AlignedSum(c, l[i].off + c.hdr, size);
    InsertOrdered(c, l, i, Free(q));
    var l' := Insert(l, i, Free(q));
    forall j | 0 <= j < |l'| ensures BlockOk(c, l', j) && !BothFree(l', j) {
      InsertAt(c, l, i, Free(q), j);
      if j < |l| {
        InsertAt(c, l, i, Free(q), j + 1);
        assert BlockOk(c, l, j) && !BothFree(l, j);
      }
      if j > 0 {
        assert BlockOk(c, l, j - 1) && !BothFree(l, j - 1);
      }
    }
  }

  lemma AllocKeeps(c: Config, l: Blocks, i: nat, size: nat, req: nat)
    requires ValidConfig(c) && WellFormed(c, l) && i < |l| && Fits(c, l, i, size)
    requires Aligned(c, size) && c.min <= size && req <= size
    ensures WellFormed(c, AllocAt(c, l, i, size, req))
  {
    hide Aligned;
    var u := l[i := Used(l[i].off, req)];
    UseKeeps(c, l, i, req);
    assert !BothFree(l, i) && EndOf(c, u, i) == EndOf(c, l, i);
    if size + c.hdr + c.min <= DataSize(c, l, i) {
      SplitKeeps(c, u, i, size);
    }
  }

  ghost predicate AllOk(c: Config, l: Blocks)
    requires c.align > 0
  {
    Ordered(c, l) && forall i :: 0 <= i < |l| ==> BlockOk(c, l, i)
  }

  lemma RemoveKeeps(c: Config, l: Blocks, i: nat)
    requires c.align > 0 && AllOk(c, l) && 0 < i < |l|
    ensures AllOk(c, Remove(l, i))
  {
    hide Aligned;
    RemoveOrdered(c, l, i);
    AllIncreasing(c, l);
    var l' := Remove(l, i);
    forall j | 0 <= j < |l'| ensures BlockOk(c, l', j) {
      RemoveAt(c, l, i, j);
      assert BlockOk(c, l, j) && BlockOk(c, l, j + 1);
      assert EndOf(c, l, j) <= EndOf(c, l, j + 1);
    }
  }

  lemma FreedOk(c: Config, l: Blocks, i: nat)
    requires c.align > 0 && AllOk(c, l) && i < |l|
    ensures AllOk(c, l[i := Free(l[i].off)])
  {
    hide Aligned;
    var f := l[i := Free(l[i].off)];
    forall j | 0 <= j < |f| ensures f[j].off < EndOf(c, f, j) && BlockOk(c, f, j) {
      assert EndOf(c, f, j) == EndOf(c, l, j) && BlockOk(c, l, j);
    }
  }

  lemma PluggedOk(c: Config, f: Blocks, i: nat)
    requires c.align > 0 && AllOk(c, f) && i < |f|
    ensures AllOk(c, Plugged(f, i))
  {
    hide AllOk;
    var g := if FreeNext(f, i) then Remove(f, i + 1) else f;
    if FreeNext(f, i) {
      RemoveKeeps(c, f, i + 1);
    }
    if i > 0 && f[i - 1].Free? {
      RemoveKeeps(c, g, i);
    }
  }

  lemma FreeKeeps(c: Config, l: Blocks, i: nat)
    requires ValidConfig(c) && WellFormed(c, l) && i < |l| && l[i].Used?
    ensures WellFormed(c, FreeAt(l, i))
  {
    hide Aligned, Ordered, BlockOk, Plugged, BothFree;
    FreedOk(c, l, i);
    PluggedOk(c, l[i := Free(l[i].off)], i);
    PluggedNeighbours(l, i);
  }

  /** Two free blocks in a row start at `x` or at `y` only. */
  ghost predicate PairsAt(l: Blocks, x: int, y: int) {
    forall k :: 0 <= k < |l| && BothFree(l, k) ==> k == x || k == y
  }

  lemma PluggedNeighbours(l: Blocks, i: nat)
    requires i < |l| && l[i].Used? && forall k :: 0 <= k < |l| ==> !BothFree(l, k)
    ensures PairsAt(FreeAt(l, i), -1, -1)
  {
    hide Remove;
    var f := l[i := Free(l[i].off)];
    forall k | 0 <= k < |f| && BothFree(f, k) ensures k == i - 1 || k == i {
      assert !BothFree(l, k);
    }
    var g := if FreeNext(f, i) then Remove(f, i + 1) else f;
    RemoveBefore(f, i);
    if FreeNext(f, i) {
      RemoveSecond(f, i + 1, i - 1);
    }
    assert PairsAt(g, i - 1, i - 1);
    if i > 0 && f[i - 1].Free? {
      RemoveSecond(g, i, -1);
    }
  }

  /** Removing the second block of a free pair leaves no pair in its place. */
  lemma RemoveSecond(l: Blocks, k: nat, x: int)
    requires 0 < k < |l| && l[k].Free? && x < k - 1 && PairsAt(l, x, k - 1)
    ensures |Remove(l, k)| == |l| - 1 && PairsAt(Remove(l, k), x, x)
  {
    var m := Remove(l, k);
    assert !BothFree(l, k);
    forall j | 0 <= j < |m| && BothFree(m, j) ensures j == x {
      assert BothFree(l, if j < k then j else j + 1);
    }
  }

  lemma RemoveBefore(l: Blocks, i: nat)
    requires i < |l|
    ensures i + 1 < |l| ==> |Remove(l, i + 1)| == |l| - 1 && Remove(l, i + 1)[..i + 1] == l[..i + 1]
    ensures i + 1 < |l| ==> Remove(l, i + 1)[i] == l[i] && (i > 0 ==> Remove(l, i + 1)[i - 1] == l[i - 1])
  {
  }

  lemma TrimKeeps(c: Config, l: Blocks, i: nat, size: nat, req: nat)
    requires ValidConfig(c) && WellFormed(c, l) && i < |l| && l[i].Used?
    requires Aligned(c, size) && c.min <= size <= DataSize(c, l, i) && req <= size
    ensures WellFormed(c, TrimAt(c, l, i, size, req))
  {
    hide Aligned;
    var u := l[i := Used(l[i].off, req)];
    UseKeeps(c, l, i, req);
    assert EndOf(c, u, i) == EndOf(c, l, i);
    if size < DataSize(c, l, i) {
      if FreeNext(l, i) {
        MoveKeeps(c, u, i, size);
      } else if size + c.hdr + c.min <= DataSize(c, l, i) {
        SplitKeeps(c, u, i, size);
      }
    }
  }

  /** Moving the free block after the used block `i` down. */
  lemma MoveKeeps(c: Config, l: Blocks, i: nat, size: nat)
    requires ValidConfig(c) && WellFormed(c, l) && i < |l| && l[i].Used? && l[i].req <= size && FreeNext(l, i)
    requires Aligned(c, size) && c.min <= size < DataSize(c, l, i)
    ensures WellFormed(c, l[i + 1 := Free(l[i].off + c.hdr + size)])
  {
    hide Aligned;
    var q := l[i].off + c.hdr + size;
    assert BlockOk(c, l, i) && BlockOk(c, l, i + 1);
    AlignedSum(c, l[i].off, c.hdr);
    AlignedSum(c, l[i].off + c.hdr, size);
    var l' := l[i + 1 := Free(q)];
    forall j | 0 <= j < |l'| ensures l'[j].off < EndOf(c, l', j) && BlockOk(c, l', j) && !BothFree(l', j) {
      assert l[j].off < EndOf(c, l, j) && BlockOk(c, l, j) && !BothFree(l, j);
      assert j != i ==> EndOf(c, l', j) == EndOf(c, l, j);
    }
  }

  // The live allocations.

  ghost function Live(l: Blocks): set<Block> {
    set b | b in l && b.Used?
  }

  /** An allocation adds itself and leaves the others as they are. */
  lemma AllocLive(c: Config, l: Blocks, i: nat, size: nat, req: nat)
    requires i < |l| && l[i].Free?
    ensures Live(AllocAt(c, l, i, size, req)) == Live(l) + {Used(l[i].off, req)}
  {
    var u, b := l[i := Used(l[i].off, req)], Free(l[i].off + c.hdr + size);
    Replaced(l, i, u[i]);
    Inserted(u, i, b);
  }

  lemma Replaced(l: Blocks, i: nat, b: Block)
    requires i < |l|
    ensures l[i].Free? ==> Live(l[i := b]) == Live(l) + Live([b])
    ensures Live(l) <= Live(l[i := b]) + Live([l[i]])
    ensures Live(l[i := b]) <= Live(l) + Live([b])
    ensures b.Used? ==> b in Live(l[i := b])
  {
    var l' := l[i := b];
    forall x | x in l ensures x == l[i] || x in l' {
      var j :| 0 <= j < |l| && l[j] == x;
      assert j != i ==> l'[j] == x;
    }
    forall x | x in l' ensures x == b || x in l {
      var j :| 0 <= j < |l'| && l'[j] == x;
      assert j != i ==> l[j] == x;
    }
    assert l'[i] == b;
  }

  lemma Inserted(l: Blocks, i: nat, b: Block)
    requires i < |l| && b.Free?
    ensures Live(Insert(l, i, b)) == Live(l)
  {
    var l' := Insert(l, i, b);
    assert l == l[..i + 1] + l[i + 1..];
    assert forall x :: x in l' <==> x in l[..i + 1] || x == b || x in l[i + 1..];
    assert forall x :: x in l <==> x in l[..i + 1] || x in l[i + 1..];
  }

  lemma Removed(l: Blocks, i: nat)
    requires i < |l| && l[i].Free?
    ensures Live(Remove(l, i)) == Live(l)
  {
    assert l == l[..i] + [l[i]] + l[i + 1..];
    assert forall x :: x in l <==> x in l[..i] || x == l[i] || x in l[i + 1..];
    assert forall x :: x in Remove(l, i) <==> x in l[..i] || x in l[i + 1..];
  }

  lemma OnlyThere(c: Config, l: Blocks, i: nat, b: Block)
    requires Ordered(c, l) && i < |l| && b.off == l[i].off && b != l[i]
    ensures l[i] !in l[i := b]
  {
    if l[i] in l[i := b] {
      var j :| 0 <= j < |l| && l[i := b][j] == l[i];
      assert j != i && l[j] == l[i];
      if i < j {
        Increasing(c, l, i, j);
      } else {
        Increasing(c, l, j, i);
      }
    }
  }

  /** Freeing removes exactly the freed allocation. */
  lemma FreeLive(c: Config, l: Blocks, i: nat)
    requires Ordered(c, l) && i < |l| && l[i].Used?
    ensures Live(FreeAt(l, i)) == Live(l) - {l[i]}
  {
    var f := l[i := Free(l[i].off)];
    Replaced(l, i, f[i]);
    OnlyThere(c, l, i, f[i]);
    var g := if FreeNext(f, i) then Remove(f, i + 1) else f;
    if FreeNext(f, i) {
      Removed(f, i + 1);
    }
    if i > 0 && f[i - 1].Free? {
      Removed(g, i);
    }
  }

  /** Trimming changes the requested size of the trimmed allocation only. */
  lemma TrimLive(c: Config, l: Blocks, i: nat, size: nat, req: nat)
    requires Ordered(c, l) && i < |l| && l[i].Used?
    ensures Live(TrimAt(c, l, i, size, req)) == Live(l) - {l[i]} + {Used(l[i].off, req)}
  {
    var b, q := Used(l[i].off, req), l[i].off + c.hdr + size;
    var u := l[i := b];
    Replaced(l, i, b);
    if b != l[i] {
      OnlyThere(c, l, i, b);
    }
    Inserted(u, i, Free(q));
    if FreeNext(l, i) {
      Replaced(u, i + 1, Free(q));
    }
  }

  /** An allocation wastes less than a header and the minimum: the split is taken whenever it is possible. */
  lemma AllocTight(c: Config, l: Blocks, i: nat, size: nat, req: nat)
    requires c.align > 0 && c.hdr > 0 && WellFormed(c, l) && i < |l| && Fits(c, l, i, size)
    ensures var m := AllocAt(c, l, i, size, req);
            |m| > i && size <= DataSize(c, m, i) < size + c.hdr + c.min && (|m| > |l| ==> DataSize(c, m, i) == size)
  {
    var u, b := l[i := Used(l[i].off, req)], Free(l[i].off + c.hdr + size);
    if size + c.hdr + c.min <= DataSize(c, l, i) {
      InsertAt(c, u, i, b, i);
    }
  }

  /** Trimming gives back everything that can be given back: all of it if the next block is free. */
  lemma TrimTight(c: Config, l: Blocks, i: nat, size: nat, req: nat)
    requires c.align > 0 && c.hdr > 0 && WellFormed(c, l) && i < |l| && size <= DataSize(c, l, i)
    ensures var m := TrimAt(c, l, i, size, req);
            && |m| > i && size <= DataSize(c, m, i) < size + c.hdr + c.min
            && (FreeNext(l, i) ==> DataSize(c, m, i) == size)
  {
    var u, b := l[i := Used(l[i].off, req)], Free(l[i].off + c.hdr + size);
    InsertAt(c, u, i, b, i);
  }

  /** Freeing a fresh allocation restores the list, whether or not the block was split. */
  lemma FreeUndoesAlloc(c: Config, l: Blocks, i: nat, size: nat, req: nat)
    requires c.align > 0 && WellFormed(c, l) && i < |l| && l[i].Free?
    ensures FreeAt(AllocAt(c, l, i, size, req), i) == l
  {
    hide Insert, Remove, BlockOk, Ordered;
    var u, b := l[i := Used(l[i].off, req)], Free(l[i].off + c.hdr + size);
    assert !BothFree(l, i);
    assert i > 0 ==> !BothFree(l, i - 1);
    if size + c.hdr + c.min <= DataSize(c, l, i) {
      InsertUpdate(u, i, b, Free(l[i].off));
      InsertAt(c, u, i, b, i);
      assert u[i := Free(l[i].off)] == l;
      InsertAt(c, l, i, b, i);
      InsertAt(c, l, i, b, i + 1);
      if i > 0 {
        InsertAt(c, l, i, b, i - 1);
      }
      InsertRemove(l, i, b);
    } else {
      assert u[i := Free(l[i].off)] == l;
    }
  }

  lemma InsertUpdate(l: Blocks, i: nat, b: Block, x: Block)
    requires i < |l|
    ensures |Insert(l, i, b)| == |l| + 1 && Insert(l, i, b)[i := x] == Insert(l[i := x], i, b)
  {
  }

  /** The data of a live allocation: aligned, inside its block and the heap, and big enough. */
  lemma LiveInRange(c: Config, l: Blocks, i: nat)
    requires ValidConfig(c) && WellFormed(c, l) && i < |l| && l[i].Used?
    ensures Aligned(c, l[i].off + c.hdr) && l[i].off + c.hdr + l[i].req <= EndOf(c, l, i) <= c.end
  {
    assert BlockOk(c, l, i);
    AlignedSum(c, l[i].off, c.hdr);
    BelowEnd(c, l, i);
  }

  /** Two live allocations are apart: the first ends before the header of the second. */
  lemma LiveApart(c: Config, l: Blocks, i: nat, j: nat)
    requires ValidConfig(c) && WellFormed(c, l) && i < j < |l| && l[i].Used? && l[j].Used?
    ensures l[i].off + c.hdr + l[i].req <= EndOf(c, l, i) <= l[j].off
    ensures l[j].off + c.hdr + l[j].req <= EndOf(c, l, j) <= c.end
  {
    LiveInRange(c, l, i);
    LiveInRange(c, l, j);
    Increasing(c, l, i, j);
  }

  /** A header at `p` does not overlap the data of any live allocation. */
  ghost predicate ClearOfLive(c: Config, l: Blocks, p: nat) {
    forall i {:trigger EndOf(c, l, i)} :: 0 <= i < |l| && l[i].Used? ==> p <= l[i].off || EndOf(c, l, i) <= p
  }

  /** Headers of blocks, and anything inside a free block, are clear of live data. */
  lemma ClearInBlock(c: Config, l: Blocks, k: nat, p: nat)
    requires Ordered(c, l) && k < |l| && (p == l[k].off || (l[k].Free? && l[k].off <= p < EndOf(c, l, k)))
    ensures ClearOfLive(c, l, p)
  {
    forall i | 0 <= i < |l| && l[i].Used? ensures p <= l[i].off || EndOf(c, l, i) <= p {
      if i < k {
        Increasing(c, l, i, k);
      } else if k < i {
        Increasing(c, l, k, i);
      }
    }
  }
}
