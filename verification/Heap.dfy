/**
 * The heap of src/lwip/mem.c: header fields in arrays indexed by the offset of the
 * header, updated in place, and the cached lowest free block.  Pointers are offsets
 * from the aligned start of the heap; the mutex and the statistics are left out.
 */
module HeapAllocator {
  import opened Options
  import opened HeapList
  import opened HeapLinks
  import opened HeapOps
  import opened HeapRuns

  /** Header slots that overlap live data are the same before and after. */
  ghost predicate Untouched(c: Config, l: Blocks, h: Headers, h': Headers)
    requires Sized(c, h) && Sized(c, h')
  {
    forall p :: 0 <= p <= c.end && !ClearOfLive(c, l, p) ==>
      h.next[p] == h'.next[p] && h.prev[p] == h'.prev[p] && h.used[p] == h'.used[p]
  }

  lemma MarkUntouched(c: Config, l: Blocks, h: Headers, p: nat, b: bool)
    requires Sized(c, h) && p <= c.end && ClearOfLive(c, l, p)
    ensures Untouched(c, l, h, Mark(h, p, b))
  {
    hide ClearOfLive;
  }

  lemma MarkAgain(h: Headers, p: nat)
    requires p < |h.used| && h.used[p]
    ensures Mark(h, p, true) == h
  {
  }

  lemma UntouchedSelf(c: Config, h: Headers)
    requires Sized(c, h)
    ensures forall l :: Untouched(c, l, h, h)
  {
  }

  lemma LinkInUntouched(c: Config, l: Blocks, h: Headers, p: nat, q: nat)
    requires Sized(c, h) && p <= c.end && q <= c.end && h.next[p] <= c.end
    requires ClearOfLive(c, l, p) && ClearOfLive(c, l, q) && (h.next[p] != c.end ==> ClearOfLive(c, l, h.next[p]))
    ensures Untouched(c, l, h, LinkIn(c, h, p, q))
  {
    hide ClearOfLive;
  }

  lemma LinkOutUntouched(c: Config, l: Blocks, h: Headers, p: nat)
    requires Sized(c, h) && p <= c.end && h.next[p] <= c.end && h.next[h.next[p]] <= c.end
    requires ClearOfLive(c, l, p) && (h.next[h.next[p]] != c.end ==> ClearOfLive(c, l, h.next[h.next[p]]))
    ensures Untouched(c, l, h, LinkOut(c, h, p))
  {
    hide ClearOfLive;
  }

  lemma UntouchedTwice(c: Config, l: Blocks, h: Headers, h': Headers, h'': Headers)
    requires Sized(c, h) && Sized(c, h') && Sized(c, h'') && Untouched(c, l, h, h') && Untouched(c, l, h', h'')
    ensures Untouched(c, l, h, h'')
  {
    hide ClearOfLive;
  }

  /** The headers of the block `k` and of a free block `q` split off it, in the resulting list. */
  lemma SplitClear(c: Config, l: Blocks, k: nat, q: nat)
    requires Ordered(c, l) && k < |l| && l[k].off < q < EndOf(c, l, k)
    ensures var m := Insert(l, k, Free(q));
            && ClearOfLive(c, m, l[k].off) && ClearOfLive(c, m, q)
            && (EndOf(c, l, k) != c.end ==> ClearOfLive(c, m, EndOf(c, l, k)))
  {
    var m := Insert(l, k, Free(q));
    InsertOrdered(c, l, k, Free(q));
    InsertAt(c, l, k, Free(q), k);
    InsertAt(c, l, k, Free(q), k + 1);
    ClearInBlock(c, m, k, l[k].off);
    ClearInBlock(c, m, k + 1, q);
    if k + 1 < |l| {
      InsertAt(c, l, k, Free(q), k + 2);
      ClearInBlock(c, m, k + 2, l[k + 1].off);
    }
  }

  /** Marking block `k` as `b` and then splitting off a free block at `q`. */
  lemma MarkAndSplit(c: Config, l: Blocks, h: Headers, k: nat, b: Block, q: nat)
    requires Ordered(c, l) && Linked(c, l, h) && k < |l| && b.off == l[k].off && b.off < q < EndOf(c, l, k)
    ensures var p, m := b.off, Insert(l[k := b], k, Free(q));
            && p < c.end && q < c.end && h.next[p] == EndOf(c, l, k) <= c.end
            && Linked(c, m, LinkIn(c, Mark(h, p, b.Used?), p, q))
            && Untouched(c, m, h, LinkIn(c, Mark(h, p, b.Used?), p, q))
  {
    LinkedMark(c, l, h, k, b);
    var u, h' := l[k := b], Mark(h, b.off, b.Used?);
    assert EndOf(c, u, k) == EndOf(c, l, k);
    LinkedInsert(c, u, h', k, q);
    SplitClear(c, u, k, q);
    var m := Insert(u, k, Free(q));
    MarkUntouched(c, m, h, b.off, b.Used?);
    LinkInUntouched(c, m, h', b.off, q);
    UntouchedTwice(c, m, h, h', LinkIn(c, h', b.off, q));
  }

  lemma MarkOnly(c: Config, l: Blocks, h: Headers, k: nat, b: Block)
    requires Ordered(c, l) && Linked(c, l, h) && k < |l| && b.off == l[k].off
    ensures b.off < c.end && Linked(c, l[k := b], Mark(h, b.off, b.Used?))
    ensures Untouched(c, l[k := b], h, Mark(h, b.off, b.Used?))
  {
    LinkedMark(c, l, h, k, b);
    ClearInBlock(c, l[k := b], k, b.off);
    MarkUntouched(c, l[k := b], h, b.off, b.Used?);
  }

  /** Everything that combining the free block `i` with its neighbours writes is clear of live data afterwards. */
  lemma PlugClear(c: Config, l: Blocks, i: nat)
    requires Ordered(c, l) && i < |l| && l[i].Free?
    ensures var m, n := Plugged(l, i), if FreeNext(l, i) then EndOf(c, l, i + 1) else EndOf(c, l, i);
            && ClearOfLive(c, m, l[i].off)
            && (i > 0 && l[i - 1].Free? ==> ClearOfLive(c, m, l[i - 1].off))
            && (n != c.end ==> ClearOfLive(c, m, n))
  {
    var m, before := Plugged(l, i), i > 0 && l[i - 1].Free?;
    var g := if FreeNext(l, i) then Remove(l, i + 1) else l;
    var n := if FreeNext(l, i) then EndOf(c, l, i + 1) else EndOf(c, l, i);
    if FreeNext(l, i) {
      RemoveOrdered(c, l, i + 1);
      RemoveAt(c, l, i + 1, i);
    }
    if before {
      RemoveOrdered(c, g, i);
      RemoveAt(c, g, i, i - 1);
      Increasing(c, g, i - 1, i);
    }
    BelowEnd(c, g, i);
    var f := if before then i - 1 else i;
    assert m[f].Free? && EndOf(c, m, f) == n;
    ClearInBlock(c, m, f, l[i].off);
    ClearInBlock(c, m, f, m[f].off);
    if f + 1 < |m| {
      ClearInBlock(c, m, f + 1, n);
    }
  }

  /** `mem_link_valid`: both neighbours point back. */
  predicate LinkOk(c: Config, h: Headers, p: nat)
    requires |h.next| == |h.prev| == c.end + 1 && p <= c.end
  {
    && h.next[p] <= c.end && h.prev[p] <= c.end
    && (h.prev[p] == p || h.next[h.prev[p]] == p)
    && (h.next[p] == c.end || h.prev[h.next[p]] == p)
  }

  lemma LinkOkAt(c: Config, l: Blocks, h: Headers, i: nat)
    requires Ordered(c, l) && Linked(c, l, h) && i < |l|
    ensures l[i].off < c.end && LinkOk(c, h, l[i].off)
  {
    assert LinkedAt(c, l, h, i);
    BelowEnd(c, l, i);
    if i > 0 {
      assert LinkedAt(c, l, h, i - 1);
    }
    if i + 1 < |l| {
      assert LinkedAt(c, l, h, i + 1);
    }
  }

  /** What the links say about block `k` and the one after it. */
  lemma LinkFacts(c: Config, l: Blocks, h: Headers, k: nat)
    requires c.align > 0 && WellFormed(c, l) && Linked(c, l, h) && k < |l|
    ensures Ordered(c, l) && Sized(c, h) && EndMarked(c, h) && LinkedAt(c, l, h, k)
    ensures k + 1 < |l| ==> LinkedAt(c, l, h, k + 1) && l[k + 1].off < EndOf(c, l, k + 1) <= c.end
  {
    if k + 1 < |l| {
      BelowEnd(c, l, k + 1);
    }
  }

  lemma ValidIsSane(c: Config, l: Blocks)
    requires c.align > 0
    ensures WellFormed(c, l) ==> forall i :: 0 <= i < |l| ==> Aligned(c, l[i].off) && !BothFree(l, i)
  {
    if WellFormed(c, l) {
      forall i | 0 <= i < |l| ensures Aligned(c, l[i].off) && !BothFree(l, i) {
        assert BlockOk(c, l, i);
      }
    }
  }

  /** The links of every header are aligned. */
  lemma LinksAligned(c: Config, l: Blocks, h: Headers, i: nat)
    requires ValidConfig(c) && WellFormed(c, l) && Linked(c, l, h) && i < |l|
    ensures l[i].off < c.end && Aligned(c, h.next[l[i].off]) && Aligned(c, h.prev[l[i].off])
  {
    assert LinkedAt(c, l, h, i) && BlockOk(c, l, i);
    assert i > 0 ==> BlockOk(c, l, i - 1);
    assert i + 1 < |l| ==> BlockOk(c, l, i + 1);
  }

  datatype FreeResult = Ignored | Misaligned | OutOfRange | NotUsed | NotLinked | Freed

  /** The checks of `mem_free`, in their order, on a pointer that may be NULL. */
  function CheckFree(c: Config, h: Headers, rmem: Option<int>): FreeResult
    requires c.align > 0 && |h.next| == |h.prev| == |h.used| == c.end + 1
  {
    if rmem.None? then Ignored
    else
      var p := rmem.value - c.hdr;
      if !Aligned(c, rmem.value) then Misaligned
      else if p < 0 || rmem.value + c.min > c.end then OutOfRange
      else if !h.used[p] then NotUsed
      else if !LinkOk(c, h, p) then NotLinked
      else Freed
  }

  /** A live pointer passes every check; the start of a free block is reported as not used. */
  lemma CheckFreeAt(c: Config, l: Blocks, h: Headers, i: nat)
    requires ValidConfig(c) && WellFormed(c, l) && Linked(c, l, h) && i < |l|
    ensures CheckFree(c, h, Some(l[i].off + c.hdr)) == if l[i].Used? then Freed else NotUsed
  {
    assert BlockOk(c, l, i) && LinkedAt(c, l, h, i);
    AlignedSum(c, l[i].off, c.hdr);
    BelowEnd(c, l, i);
    LinkOkAt(c, l, h, i);
  }

  lemma LiveIsFreed(c: Config, l: Blocks, h: Headers, rmem: int)
    requires ValidConfig(c) && WellFormed(c, l) && Linked(c, l, h) && IsLive(c, l, rmem)
    ensures CheckFree(c, h, Some(rmem)).Freed?
  {
    CheckFreeAt(c, l, h, Find(l, rmem - c.hdr, 0));
  }

  /** Changing the requested size of a used block, and moving the free block after it to `q`. */
  lemma Moved(c: Config, l: Blocks, h: Headers, k: nat, req: nat, q: nat)
    requires Ordered(c, l) && Linked(c, l, h) && k < |l| && l[k].Used? && FreeNext(l, k)
    requires l[k].off < q < EndOf(c, l, k)
    ensures var p, m := l[k].off, l[k := Used(l[k].off, req)][k + 1 := Free(q)];
            && p < c.end && q < c.end && h.next[p] == l[k + 1].off < c.end
            && h.next[l[k + 1].off] == EndOf(c, l, k + 1) <= c.end
            && Linked(c, m, LinkIn(c, LinkOut(c, h, p), p, q))
            && Untouched(c, m, h, LinkIn(c, LinkOut(c, h, p), p, q))
  {
    var p, b := l[k].off, Used(l[k].off, req);
    var u := l[k := b];
    LinkedMark(c, l, h, k, b);
    assert LinkedAt(c, l, h, k);
    assert Mark(h, p, true) == h;
    LinkedRemove(c, u, h, k + 1);
    var g, h' := Remove(u, k + 1), LinkOut(c, h, p);
    RemoveAt(c, u, k + 1, k);
    BelowEnd(c, u, k + 1);
    LinkedInsert(c, g, h', k, q);
    var m := u[k + 1 := Free(q)];
    assert Insert(g, k, Free(q)) == m;
    SplitClear(c, g, k, q);
    LinkOutUntouched(c, m, h, p);
    LinkInUntouched(c, m, h', p, q);
    UntouchedTwice(c, m, h, h', LinkIn(c, h', p, q));
  }

  lemma Resized(c: Config, l: Blocks, h: Headers, k: nat, req: nat)
    requires Ordered(c, l) && Linked(c, l, h) && k < |l| && l[k].Used?
    ensures Linked(c, l[k := Used(l[k].off, req)], h)
  {
    assert LinkedAt(c, l, h, k);
    LinkedMark(c, l, h, k, Used(l[k].off, req));
    assert Mark(h, l[k].off, true) == h;
  }

  /**
   * When the assertions in `mem_trim` hold: the pointer is inside the heap, the size does
   * not grow, and the call does not cut a free block off the last block of the heap.  The
   * last condition is what line 777 asserts.
   */
  ghost predicate TrimAsserts(c: Config, l: Blocks, rmem: int, size: nat)
    requires c.align > 0 && c.limit > 0 && (0 <= rmem < c.end ==> IsLive(c, l, rmem))
  {
    Rejected(c, size) ||
    (0 <= rmem < c.end &&
     var k, n := Find(l, rmem - c.hdr, 0), Expanded(c, size);
     n <= DataSize(c, l, k) && (k + 1 == |l| && n != DataSize(c, l, k) ==> DataSize(c, l, k) < n + c.hdr + c.min))
  }

  /** The assertion of line 777 can fail for a legal call: one allocation that fills a heap of 100 bytes, trimmed. */
  lemma TrimAssertCanFail()
    ensures var c := Config(4, 8, 12, 100, 0x1_0000);
            var states := [Initial(), [Used(0, 92)]];
            && ValidConfig(c) && IsRun(c, [Malloc(92)], states)
            && IsLive(c, states[1], 8) && !TrimAsserts(c, states[1], 8, 12)
  {
    var c := Config(4, 8, 12, 100, 0x1_0000);
    var l := Initial();
    assert EndOf(c, l, 0) == 100 && Fits(c, l, 0, 92);
    assert FirstFit(c, l, 92, 0) == 0;
    assert AllocAt(c, l, 0, 92, 92) == [Used(0, 92)];
    var states := [l, [Used(0, 92)]];
    assert Follows(c, states, 0, Malloc(92));
    assert Find([Used(0, 92)], 0, 0) == 0;
  }

  /** Where block `k` starts; the place after the last block is the end marker. */
  ghost function Place(c: Config, l: Blocks, k: nat): nat
    requires k <= |l|
  {
    if k < |l| then l[k].off else c.end
  }

  class Heap {
    const c: Config
    const next: array<nat>
    const prev: array<nat>
    const used: array<bool>
    var lfree: nat
    ghost var list: Blocks

    ghost function Hdrs(): Headers
      reads next, prev, used
    {
      Headers(next[..], prev[..], used[..])
    }

    ghost predicate Shape() {
      next != prev && next.Length == prev.Length == used.Length == c.end + 1
    }

    ghost predicate Valid()
      reads this, next, prev, used
    {
      && ValidConfig(c) && Shape()
      && WellFormed(c, list) && Linked(c, list, Hdrs())
      && lfree == LowestFree(c, list)
    }

    /** `mem_init` */
    constructor (c: Config)
      requires ValidConfig(c)
      ensures Valid() && this.c == c && list == Initial()
      ensures fresh(next) && fresh(prev) && fresh(used)
    {
      this.c := c;
      next := new nat[c.end + 1];
      prev := new nat[c.end + 1];
      used := new bool[c.end + 1];
      list := Initial();
      lfree := 0;
      new;
      next[0], prev[0], used[0] := c.end, 0, false;
      used[c.end], next[c.end], prev[c.end] := true, c.end, c.end;
      InitialWellFormed(c);
      assert LinkedAt(c, list, Hdrs(), 0);
    }

    /** Links a free header `q` in after `p`, as `mem_malloc` and `mem_trim` do. */
    method InsertHeader(p: nat, q: nat)
      requires Shape() && p <= c.end && q <= c.end && next[p] <= c.end && p != q
      modifies next, prev, used
      ensures Hdrs() == LinkIn(c, old(Hdrs()), p, q)
    {
      used[q] := false;
      next[q] := next[p];
      prev[q] := p;
      next[p] := q;
      if next[q] != c.end {
        prev[next[q]] := q;
      }
    }

    /** Unlinks the header after `p`, as `plug_holes` does. */
    method SkipHeader(p: nat)
      requires Shape() && p <= c.end && next[p] <= c.end && next[next[p]] <= c.end && next[p] != p
      modifies next, prev
      ensures Hdrs() == LinkOut(c, old(Hdrs()), p)
    {
      var n := next[p];
      next[p] := next[n];
      if next[n] != c.end {
        prev[next[n]] := p;
      }
    }

    /** `mem_malloc` on the free block at `ptr`: split it, or use it whole. */
    method TakeBlock(ptr: nat, size: nat, sizeIn: nat, ghost k: nat)
      requires Valid() && k < |list| && ptr == list[k].off && Fits(c, list, k, size)
      requires Aligned(c, size) && c.min <= size && sizeIn <= size
      modifies this`list, next, prev, used
      ensures list == AllocAt(c, old(list), k, size, sizeIn) && WellFormed(c, list) && Linked(c, list, Hdrs())
      ensures Untouched(c, list, old(Hdrs()), Hdrs())
    {
      hide Aligned, ClearOfLive;
      ghost var l, h, b := list, Hdrs(), Used(ptr, sizeIn);
      BelowEnd(c, l, k);
      assert LinkedAt(c, l, h, k);
      AllocKeeps(c, l, k, size, sizeIn);
      if next[ptr] - (ptr + c.hdr) >= size + c.hdr + c.min {
        var ptr2 := ptr + c.hdr + size;
        assert ptr2 != c.end;
        MarkAndSplit(c, l, h, k, b, ptr2);
        used[ptr] := true;
        assert Hdrs() == Mark(h, ptr, true);
        InsertHeader(ptr, ptr2);
      } else {
        MarkOnly(c, l, h, k, b);
        used[ptr] := true;
        assert Hdrs() == Mark(h, ptr, true);
      }
      list := AllocAt(c, l, k, size, sizeIn);
    }

    /** Takes the block and then finds the new lowest free block. */
    method Allocate(ptr: nat, size: nat, sizeIn: nat, ghost k: nat)
      requires Valid() && k < |list| && ptr == list[k].off && Fits(c, list, k, size)
      requires Aligned(c, size) && c.min <= size && sizeIn <= size
      modifies this`lfree, this`list, next, prev, used
      ensures Valid() && list == AllocAt(c, old(list), k, size, sizeIn)
      ensures Untouched(c, list, old(Hdrs()), Hdrs())
    {
      hide Aligned, ClearOfLive, Linked, BlockOk, Untouched;
      ghost var l := list;
      TakeBlock(ptr, size, sizeIn, k);
      if ptr == lfree {
        if FirstFree(l, 0) < k {
          Increasing(c, l, FirstFree(l, 0), k);
        }
        AdvanceLowest(k);
      } else {
        AllocLowest(c, l, k, size, sizeIn);
      }
    }

    /** Moves `lfree` from the block `k` that was just taken to the next free block. */
    method AdvanceLowest(ghost k: nat)
      requires ValidConfig(c) && Shape() && WellFormed(c, list) && Linked(c, list, Hdrs())
      requires k < |list| && lfree == list[k].off && forall j :: 0 <= j < k ==> list[j].Used?
      modifies this`lfree
      ensures lfree == LowestFree(c, list) <= c.end && (lfree == c.end || !used[lfree])
    {
      BelowEnd(c, list, k);
      var cur := lfree;
      ghost var j := k;
      while used[cur] && cur != c.end
        invariant k <= j <= |list| && cur == Place(c, list, j) <= c.end
        invariant forall i :: 0 <= i < j ==> list[i].Used?
        decreases |list| - j
      {
        assert LinkedAt(c, list, Hdrs(), j);
        BelowEnd(c, list, j);
        cur, j := next[cur], j + 1;
      }
      if j < |list| {
        assert LinkedAt(c, list, Hdrs(), j);
      }
      FirstFreeIs(list, j);
      lfree := cur;
    }

    /**
     * `mem_malloc`.  The search starts at the lowest free block and stops near the end of
     * the heap, and takes the block that plain first fit over all blocks takes.
     */
    method MemMalloc(sizeIn: nat) returns (r: Option<nat>)
      requires Valid() && sizeIn < c.limit
      modifies this`lfree, this`list, next, prev, used
      ensures Valid() && list == AfterMalloc(c, old(list), sizeIn)
      ensures r == MallocResult(c, old(list), sizeIn)
      ensures Untouched(c, list, old(Hdrs()), Hdrs())
      ensures r.None? ==> lfree == old(lfree) && Hdrs() == old(Hdrs())
    {
      hide Aligned, ClearOfLive, RoundUp;
      ExpandedOk(c, sizeIn);
      if sizeIn == 0 {
        return None;
      }
      var size := Expanded(c, sizeIn);
      if size > c.end || size < sizeIn {
        return None;
      }
      var ptr := lfree;
      ghost var k := FirstFree(list, 0);
      FirstFitFromLowest(c, list, size);
      while ptr < c.end - size
        invariant k <= |list| && ptr == Place(c, list, k)
        invariant FirstFit(c, list, size, 0) == FirstFit(c, list, size, k)
        decreases |list| - k
      {
        assert LinkedAt(c, list, Hdrs(), k) && BlockOk(c, list, k);
        if !used[ptr] && next[ptr] - (ptr + c.hdr) >= size {
          Fitting(c, list, k, size);
          Allocate(ptr, size, sizeIn, k);
          return Some(ptr + c.hdr);
        }
        ptr, k := next[ptr], k + 1;
      }
      NoneLeft(c, list, size, k);
      return None;
    }

    /**
     * `plug_holes` on the free block `i` that starts at `mem`.  The two updates of `lfree`
     * are never needed: the lowest free block is at or before `mem`.
     */
    method PlugHoles(mem: nat, ghost i: nat)
      requires ValidConfig(c) && Shape() && Ordered(c, list) && Linked(c, list, Hdrs())
      requires i < |list| && list[i] == Free(mem) && lfree == LowestFree(c, list)
      modifies this`lfree, this`list, next, prev
      ensures list == Plugged(old(list), i) && Linked(c, list, Hdrs()) && lfree == LowestFree(c, list)
      ensures lfree == old(lfree) && Untouched(c, list, old(Hdrs()), Hdrs())
    {
      hide ClearOfLive;
      ghost var l, h := list, Hdrs();
      BelowEnd(c, l, i);
      assert LinkedAt(c, l, h, i);
      assert mem < c.end && !used[mem] && next[mem] <= c.end;
      PluggedLowest(c, l, i);
      PlugClear(c, l, i);
      LowestBelow(c, l, i);
      PlugForward(mem, i, Plugged(l, i));
      ghost var h' := Hdrs();
      if FreeNext(l, i) {
        RemoveAt(c, l, i + 1, i);
      }
      PlugBackward(mem, i, Plugged(l, i));
      UntouchedTwice(c, list, h, h', Hdrs());
    }

    /** The first half of `plug_holes`: combine the free block `i` with the one after it. */
    method PlugForward(mem: nat, ghost i: nat, ghost m: Blocks)
      requires ValidConfig(c) && Shape() && Ordered(c, list) && Linked(c, list, Hdrs())
      requires i < |list| && list[i] == Free(mem) && lfree == LowestFree(c, list)
      requires m == Plugged(list, i) && ClearOfLive(c, m, mem)
      requires FreeNext(list, i) && EndOf(c, list, i + 1) != c.end ==> ClearOfLive(c, m, EndOf(c, list, i + 1))
      modifies this`lfree, this`list, next, prev
      ensures list == if FreeNext(old(list), i) then Remove(old(list), i + 1) else old(list)
      ensures Ordered(c, list) && Linked(c, list, Hdrs()) && lfree == old(lfree)
      ensures Untouched(c, m, old(Hdrs()), Hdrs())
    {
      hide ClearOfLive;
      ghost var l := list;
      assert LinkedAt(c, l, Hdrs(), i);
      BelowEnd(c, l, i);
      if i + 1 < |l| {
        assert LinkedAt(c, l, Hdrs(), i + 1);
      }
      var nmem := next[mem];
      if mem != nmem && !used[nmem] && nmem != c.end {
        var low: int := if lfree == nmem then mem else lfree;
        lfree := low;
        LinkedRemove(c, l, Hdrs(), i + 1);
        LinkOutUntouched(c, m, Hdrs(), mem);
        SkipHeader(mem);
        list := Remove(l, i + 1);
        LowestBelow(c, l, i);
      }
    }

    /** The second half: combine the free block `i` with the one before it. */
    method PlugBackward(mem: nat, ghost i: nat, ghost m: Blocks)
      requires ValidConfig(c) && Shape() && Ordered(c, list) && Linked(c, list, Hdrs())
      requires i < |list| && list[i] == Free(mem) && lfree <= mem && (i > 0 && list[i - 1].Free? ==> lfree < mem)
      requires m == if i > 0 && list[i - 1].Free? then Remove(list, i) else list
      requires i > 0 && list[i - 1].Free? ==> ClearOfLive(c, m, list[i - 1].off)
      requires EndOf(c, list, i) != c.end ==> ClearOfLive(c, m, EndOf(c, list, i))
      modifies this`lfree, this`list, next, prev
      ensures list == m && Linked(c, list, Hdrs()) && lfree == old(lfree)
      ensures Untouched(c, m, old(Hdrs()), Hdrs())
    {
      hide ClearOfLive;
      ghost var l := list;
      assert LinkedAt(c, l, Hdrs(), i);
      BelowEnd(c, l, i);
      if i > 0 {
        assert LinkedAt(c, l, Hdrs(), i - 1);
        Increasing(c, l, i - 1, i);
      }
      var pmem := prev[mem];
      if pmem != mem && !used[pmem] {
        var low: int := if lfree == mem then pmem else lfree;
        lfree := low;
        LinkedRemove(c, l, Hdrs(), i);
        LinkOutUntouched(c, m, Hdrs(), pmem);
        SkipHeader(pmem);
        list := Remove(l, i);
      }
    }

    /** `mem_link_valid` */
    method MemLinkValid(mem: nat) returns (ok: bool)
      requires Shape() && mem <= c.end
      ensures ok == LinkOk(c, Hdrs(), mem)
    {
      var nmem, pmem := next[mem], prev[mem];
      if nmem > c.end || pmem > c.end || (pmem != mem && next[pmem] != mem) || (nmem != c.end && prev[nmem] != mem) {
        return false;
      }
      return true;
    }

    /**
     * `mem_free` on any pointer.  The caller must not forge a header: a pointer that
     * passes the checks is live.  NULL, misaligned and outside pointers, and pointers
     * whose header reads unused or badly linked, change nothing.
     */
    method MemFree(rmem: Option<int>) returns (r: FreeResult)
      requires Valid()
      requires CheckFree(c, Hdrs(), rmem).Freed? ==> IsLive(c, list, rmem.value)
      modifies this`lfree, this`list, next, prev, used
      ensures Valid() && r == CheckFree(c, old(Hdrs()), rmem)
      ensures r.Freed? <==> rmem.Some? && IsLive(c, old(list), rmem.value)
      ensures r.Freed? ==> list == AfterFree(c, old(list), rmem.value)
      ensures !r.Freed? ==> list == old(list) && lfree == old(lfree) && Hdrs() == old(Hdrs())
      ensures r.Freed? ==> CheckFree(c, Hdrs(), rmem).NotUsed?
      ensures Untouched(c, list, old(Hdrs()), Hdrs())
    {
      hide ClearOfLive, BlockOk;
      if rmem.None? {
        return Ignored;
      }
      ghost var k := Find(list, rmem.value - c.hdr, 0);
      if k < |list| {
        CheckFreeAt(c, list, Hdrs(), k);
      }
      if rmem.value % c.align != 0 {
        return Misaligned;
      }
      var mem := rmem.value - c.hdr;
      if mem < 0 || rmem.value + c.min > c.end {
        return OutOfRange;
      }
      if !used[mem] {
        return NotUsed;
      }
      var linked := MemLinkValid(mem);
      if !linked {
        return NotLinked;
      }
      Release(mem, k);
      return Freed;
    }

    /** The end of `mem_free`: mark the block unused, lower `lfree` if needed, combine free neighbours. */
    method Release(mem: nat, ghost k: nat)
      requires Valid() && k < |list| && list[k].Used? && mem == list[k].off
      modifies this`lfree, this`list, next, prev, used
      ensures Valid() && list == FreeAt(old(list), k) && Untouched(c, list, old(Hdrs()), Hdrs())
      ensures mem <= c.end && !used[mem]
    {
      hide ClearOfLive, BlockOk, Aligned;
      ghost var l, h := list, Hdrs();
      LinkedMark(c, l, h, k, Free(mem));
      FreedLowest(c, l, k);
      FreeKeeps(c, l, k);
      used[mem] := false;
      assert Hdrs() == Mark(h, mem, false);
      ghost var h' := Hdrs();
      list := l[k := Free(mem)];
      if mem < lfree {
        lfree := mem;
      }
      PlugClear(c, list, k);
      MarkUntouched(c, FreeAt(l, k), h, mem, false);
      PlugHoles(mem, k);
      UntouchedTwice(c, list, h, h', Hdrs());
    }

    /**
     * `mem_trim` on a live allocation or on a pointer outside the heap.  `asserted` is
     * whether the assertions in the body held; the heap stays well formed either way.
     */
    method MemTrim(rmem: int, newSize: nat) returns (r: Option<int>, asserted: bool)
      requires Valid() && newSize < c.limit
      requires 0 <= rmem < c.end ==> IsLive(c, list, rmem)
      modifies this`lfree, this`list, next, prev, used
      ensures Valid()
      ensures list == if 0 <= rmem < c.end then AfterTrim(c, old(list), rmem, newSize) else old(list)
      ensures r == if Rejected(c, newSize) || (0 <= rmem < c.end && TrimRefused(c, old(list), rmem, newSize))
                   then None else Some(rmem)
      ensures asserted <==> TrimAsserts(c, old(list), rmem, newSize)
      ensures Untouched(c, list, old(Hdrs()), Hdrs())
    {
      hide Aligned, ClearOfLive, RoundUp;
      ExpandedOk(c, newSize);
      var newsize := Expanded(c, newSize);
      if newsize > c.end || newsize < newSize {
        return None, true;
      }
      if rmem < 0 || rmem >= c.end {
        return Some(rmem), false;
      }
      var ptr := rmem - c.hdr;
      ghost var k := Find(list, ptr, 0);
      assert LinkedAt(c, list, Hdrs(), k) && BlockOk(c, list, k);
      var size := next[ptr] - ptr - c.hdr;
      if newsize > size {
        return None, false;
      }
      asserted := Shrink(ptr, size, newsize, newSize, k);
      return Some(rmem), asserted;
    }

    /** The body of `mem_trim` once the size is known not to grow. */
    method Shrink(ptr: nat, size: nat, newsize: nat, newSize: nat, ghost k: nat) returns (asserted: bool)
      requires Valid() && k < |list| && list[k].Used? && ptr == list[k].off
      requires size == DataSize(c, list, k) && newSize <= newsize <= size && Aligned(c, newsize) && c.min <= newsize
      modifies this`lfree, this`list, next, prev, used
      ensures Valid() && list == TrimAt(c, old(list), k, newsize, newSize)
      ensures asserted <==> (k + 1 == |old(list)| && newsize != size ==> size < newsize + c.hdr + c.min)
      ensures Untouched(c, list, old(Hdrs()), Hdrs())
    {
      hide Aligned, ClearOfLive, BlockOk, Untouched, Insert, Linked, LowestFree, WellFormed, LinkIn, LinkOut, Mark;
      ghost var l, h := list, Hdrs();
      UntouchedSelf(c, h);
      LinkFacts(c, l, h, k);
      TrimKeeps(c, l, k, newsize, newSize);
      TrimLowest(c, l, k, newsize, newSize);
      Resized(c, l, h, k, newSize);
      BelowEnd(c, l, k);
      asserted := true;
      list := TrimAt(c, l, k, newsize, newSize);
      if newsize == size {
        return;
      }
      var mem2, ptr2 := next[ptr], ptr + c.hdr + newsize;
      if !used[mem2] {
        assert next[ptr] != c.end;
        Moved(c, l, h, k, newSize, ptr2);
        if lfree == mem2 {
          lfree := ptr2;
        }
        MoveHeader(ptr, mem2, ptr2);
        assert Linked(c, list, Hdrs()) && Untouched(c, list, h, Hdrs());
      } else if newsize + c.hdr + c.min <= size {
        asserted := next[ptr] != c.end;
        MarkAndSplit(c, l, h, k, Used(ptr, newSize), ptr2);
        MarkAgain(h, ptr);
        if ptr2 < lfree {
          lfree := ptr2;
        }
        InsertHeader(ptr, ptr2);
        assert Linked(c, list, Hdrs()) && Untouched(c, list, h, Hdrs());
      }
    }

    /** Moves the free header at `mem2`, which follows `ptr`, down to `ptr2`. */
    method MoveHeader(ptr: nat, mem2: nat, ptr2: nat)
      requires Shape() && ptr < ptr2 < mem2 < c.end && next[ptr] == mem2 && next[mem2] <= c.end
      modifies next, prev, used
      ensures Hdrs() == LinkIn(c, LinkOut(c, old(Hdrs()), ptr), ptr, ptr2)
    {
      var n := next[mem2];
      used[ptr2] := false;
      next[ptr2] := n;
      prev[ptr2] := ptr;
      next[ptr] := ptr2;
      if next[ptr2] != c.end {
        prev[next[ptr2]] := ptr2;
      }
    }

    /**
     * `mem_sanity` on any list of linked headers: its assertions hold exactly if all headers
     * are aligned and no two free blocks are adjacent, so always on a valid heap.  As
     * written, the assertions on the links align the outcome of a comparison (`equal`).
     */
    method MemSanity() returns (ok: bool)
      requires ValidConfig(c) && Shape() && Ordered(c, list) && Linked(c, list, Hdrs())
      ensures ok <==> forall i :: 0 <= i < |list| ==> Aligned(c, list[i].off) && !BothFree(list, i)
      ensures Valid() ==> ok
    {
      hide RoundUp, Aligned;
      RoundUpOk(c, 1);
      AlignedTimes(c, 0);
      assert LinkedAt(c, list, Hdrs(), 0);
      BelowEnd(c, list, 0);
      ValidIsSane(c, list);
      var equal := 1;
      ok := prev[0] == 0 && next[0] <= c.end && RoundUp(c, equal) != 0;
      var lastUsed, mem := used[0], next[0];
      ghost var k := 1;
      while 0 < mem < c.end
        invariant 1 <= k <= |list| && mem == Place(c, list, k) && lastUsed == list[k - 1].Used?
        invariant ok <==> forall i :: 0 <= i < k ==> Aligned(c, list[i].off) && (i < k - 1 ==> !BothFree(list, i))
        decreases |list| - k
      {
        assert LinkedAt(c, list, Hdrs(), k);
        BelowEnd(c, list, k);
        Increasing(c, list, k - 1, k);
        LinkOkAt(c, list, Hdrs(), k);
        assert BothFree(list, k - 1) <==> !lastUsed && !used[mem];
        var linked := MemLinkValid(mem);
        ok := ok && Aligned(c, mem) && prev[mem] <= c.end && next[mem] <= c.end && RoundUp(c, equal) != 0 &&
        (lastUsed || used[mem]) && linked;
        lastUsed := used[mem];
        mem, k := next[mem], k + 1;
      }
      if k < |list| {
        Increasing(c, list, 0, k);
      }
      ok := ok && mem == c.end && used[mem] && prev[mem] == c.end && next[mem] == c.end;
    }

    /**
     * Freeing a live pointer twice: the second call reports that the memory is not used and
     * changes nothing, also where the header was combined with the block before it.
     */
    method FreeTwice(rmem: int) returns (r1: FreeResult, r2: FreeResult)
      requires Valid() && IsLive(c, list, rmem)
      modifies this`lfree, this`list, next, prev, used
      ensures Valid() && list == AfterFree(c, old(list), rmem) && r1.Freed? && r2.NotUsed?
    {
      LiveIsFreed(c, list, Hdrs(), rmem);
      r1 := MemFree(Some(rmem));
      r2 := MemFree(Some(rmem));
    }

    /** A successful allocation that is freed at once leaves the list and `lfree` as they were. */
    method MallocThenFree(sizeIn: nat) returns (p: Option<nat>, r: FreeResult)
      requires Valid() && sizeIn < c.limit
      modifies this`lfree, this`list, next, prev, used
      ensures Valid() && list == old(list) && lfree == old(lfree)
      ensures p == MallocResult(c, old(list), sizeIn) && (p.Some? ==> r.Freed?)
    {
      hide Aligned, ClearOfLive, BlockOk, Expanded, Untouched;
      ghost var l, k := list, Picked(c, list, sizeIn);
      p := MemMalloc(sizeIn);
      if p.None? {
        return p, Ignored;
      }
      AllocatedFound(c, l, k, Expanded(c, sizeIn), sizeIn, list);
      r := MemFree(Some(p.value));
      FreeUndoesAlloc(c, l, k, Expanded(c, sizeIn), sizeIn);
    }
  }

  lemma LowestBelow(c: Config, l: Blocks, i: nat)
    requires Ordered(c, l) && i < |l| && l[i].Free?
    ensures LowestFree(c, l) <= l[i].off < EndOf(c, l, i)
    ensures i > 0 && l[i - 1].Free? ==> LowestFree(c, l) < l[i].off
  {
    var k := FirstFree(l, 0);
    BelowEnd(c, l, i);
    if k < i {
      Increasing(c, l, k, i);
    }
  }

  /** A block that fits: the source's closing assertions about the result. */
  lemma Fitting(c: Config, l: Blocks, k: nat, size: nat)
    requires ValidConfig(c) && WellFormed(c, l) && k < |l| && Fits(c, l, k, size)
    ensures l[k].off + c.hdr + size <= c.end && Aligned(c, l[k].off) && Aligned(c, l[k].off + c.hdr)
    ensures FirstFit(c, l, size, k) == k
  {
    BelowEnd(c, l, k);
    assert BlockOk(c, l, k);
    AlignedSum(c, l[k].off, c.hdr);
  }

  lemma NoneLeft(c: Config, l: Blocks, size: nat, k: nat)
    requires c.hdr > 0 && Ordered(c, l) && k <= |l| && c.end - size <= Place(c, l, k)
    ensures FirstFit(c, l, size, k) == |l|
  {
    var f := FirstFit(c, l, size, k);
    if f < |l| {
      NoFitBeyond(c, l, size, k, f);
    }
  }
}
