/**
 * Whole calls of the heap allocator of src/lwip/mem.c and runs of them.
 */
module HeapRuns {
  import opened Options
  import opened HeapList
  import opened HeapOps

  // mem_malloc

  /** The block that plain first fit over the whole list takes for a request; |l| if the request fails. */
  ghost function Picked(c: Config, l: Blocks, size: nat): (k: nat)
    requires c.align > 0 && c.limit > 0
    ensures k <= |l|
  {
    if size == 0 || Rejected(c, size) then |l| else FirstFit(c, l, Expanded(c, size), 0)
  }

  ghost function AfterMalloc(c: Config, l: Blocks, size: nat): Blocks
    requires c.align > 0 && c.limit > 0
  {
    var k := Picked(c, l, size);
    if k == |l| then l else AllocAt(c, l, k, Expanded(c, size), size)
  }

  ghost function MallocResult(c: Config, l: Blocks, size: nat): Option<nat>
    requires c.align > 0 && c.limit > 0
  {
    var k := Picked(c, l, size);
    if k == |l| then None else Some(l[k].off + c.hdr)
  }

  lemma MallocKeeps(c: Config, l: Blocks, size: nat)
    requires ValidConfig(c) && WellFormed(c, l) && size < c.limit
    ensures WellFormed(c, AfterMalloc(c, l, size))
    ensures var k := Picked(c, l, size);
            Live(AfterMalloc(c, l, size)) == if k == |l| then Live(l) else Live(l) + {Used(l[k].off, size)}
  {
    hide Aligned, Expanded;
    ExpandedOk(c, size);
    var k := Picked(c, l, size);
    if k < |l| {
      AllocKeeps(c, l, k, Expanded(c, size), size);
      AllocLive(c, l, k, Expanded(c, size), size);
    }
  }

  /**
   * When `mem_malloc` fails: for size 0, when the aligned size exceeds the heap, and
   * when no free block has enough data bytes; never otherwise.
   */
  lemma MallocFailsIff(c: Config, l: Blocks, size: nat)
    requires ValidConfig(c) && WellFormed(c, l) && size < c.limit
    ensures MallocResult(c, l, size).None? <==>
              size == 0 || RoundUp(c, size) > c.end || forall i :: 0 <= i < |l| ==> !Fits(c, l, i, Expanded(c, size))
  {
    ExpandedOk(c, size);
    if size > 0 && RoundUp(c, size) <= c.end {
      var k := FirstFit(c, l, Expanded(c, size), 0);
      assert k < |l| ==> Fits(c, l, k, Expanded(c, size));
    }
  }

  // mem_free and mem_trim

  /** The block that starts at `off`, or |l|. */
  ghost function Find(l: Blocks, off: int, i: nat): (k: nat)
    requires i <= |l|
    ensures i <= k <= |l| && (k < |l| ==> l[k].off == off)
    ensures forall j :: i <= j < k ==> l[j].off != off
    decreases |l| - i
  {
    if i == |l| || l[i].off == off then i else Find(l, off, i + 1)
  }

  /** `ptr` is the data of a live allocation. */
  ghost predicate IsLive(c: Config, l: Blocks, ptr: int) {
    var k := Find(l, ptr - c.hdr, 0);
    k < |l| && l[k].Used?
  }

  ghost function AfterFree(c: Config, l: Blocks, ptr: int): Blocks
    requires IsLive(c, l, ptr)
  {
    FreeAt(l, Find(l, ptr - c.hdr, 0))
  }

  /** Whether `mem_trim` refuses: the size is too big for the heap or for the allocation. */
  ghost predicate TrimRefused(c: Config, l: Blocks, ptr: int, size: nat)
    requires c.align > 0 && c.limit > 0 && IsLive(c, l, ptr)
  {
    Rejected(c, size) || Expanded(c, size) > DataSize(c, l, Find(l, ptr - c.hdr, 0))
  }

  ghost function AfterTrim(c: Config, l: Blocks, ptr: int, size: nat): Blocks
    requires c.align > 0 && c.limit > 0 && IsLive(c, l, ptr)
  {
    if TrimRefused(c, l, ptr, size) then l else TrimAt(c, l, Find(l, ptr - c.hdr, 0), Expanded(c, size), size)
  }

  lemma TrimCallKeeps(c: Config, l: Blocks, ptr: int, size: nat)
    requires ValidConfig(c) && WellFormed(c, l) && IsLive(c, l, ptr) && size < c.limit
    ensures WellFormed(c, AfterTrim(c, l, ptr, size))
  {
    hide Aligned, Expanded;
    ExpandedOk(c, size);
    if !TrimRefused(c, l, ptr, size) {
      TrimKeeps(c, l, Find(l, ptr - c.hdr, 0), Expanded(c, size), size);
    }
  }

  /** The block whose data starts at `ptr`. */
  ghost function BlockAt(c: Config, l: Blocks, ptr: int): (k: nat)
    requires IsLive(c, l, ptr)
    ensures k < |l| && l[k].Used? && l[k].off == ptr - c.hdr
  {
    Find(l, ptr - c.hdr, 0)
  }

  /** `mem_trim` refuses exactly if the aligned size, at least the minimum, exceeds the heap or the allocation. */
  lemma TrimRefusedIff(c: Config, l: Blocks, ptr: int, size: nat)
    requires ValidConfig(c) && WellFormed(c, l) && IsLive(c, l, ptr) && size < c.limit
    ensures TrimRefused(c, l, ptr, size) <==>
              RoundUp(c, size) > c.end || RoundUp(c, size) > DataSize(c, l, BlockAt(c, l, ptr))
  {
    hide RoundUp, Aligned;
    ExpandedOk(c, size);
    assert BlockOk(c, l, BlockAt(c, l, ptr));
  }

  /**
   * What a trim does: refused, nothing; otherwise it records the new size for the
   * allocation and leaves the others, and gives back what can be given back.
   */
  lemma TrimCall(c: Config, l: Blocks, ptr: int, size: nat)
    requires ValidConfig(c) && WellFormed(c, l) && IsLive(c, l, ptr) && size < c.limit
    ensures var k, m := BlockAt(c, l, ptr), AfterTrim(c, l, ptr, size);
            var want := if RoundUp(c, size) < c.min then c.min else RoundUp(c, size);
            if RoundUp(c, size) > c.end || RoundUp(c, size) > DataSize(c, l, k) then m == l
            else
              && Live(m) == Live(l) - {l[k]} + {Used(l[k].off, size)}
              && |m| > k && want <= DataSize(c, m, k) < want + c.hdr + c.min
              && (FreeNext(l, k) ==> DataSize(c, m, k) == want)
  {
    hide RoundUp, Aligned, TrimAt;
    ExpandedOk(c, size);
    TrimRefusedIff(c, l, ptr, size);
    if !TrimRefused(c, l, ptr, size) {
      TrimLive(c, l, BlockAt(c, l, ptr), Expanded(c, size), size);
      TrimTight(c, l, BlockAt(c, l, ptr), Expanded(c, size), size);
    }
  }

  /** The new allocation is the live block that its pointer names. */
  lemma AllocatedFound(c: Config, l: Blocks, k: nat, size: nat, req: nat, m: Blocks)
    requires k < |l| && m == AllocAt(c, l, k, size, req) && Ordered(c, m)
    ensures IsLive(c, m, l[k].off + c.hdr) && Find(m, l[k].off, 0) == k
  {
    var f := Find(m, l[k].off, 0);
    assert m[k] == Used(l[k].off, req);
    if f < k {
      Increasing(c, m, f, k);
    }
  }

  /**
   * What a successful allocation gives: a pointer to aligned data in a block that was not
   * live, that is now, and that the request fits; the other allocations stay.
   */
  lemma MallocCall(c: Config, l: Blocks, size: nat)
    requires ValidConfig(c) && WellFormed(c, l) && size < c.limit && MallocResult(c, l, size).Some?
    ensures var p, m := MallocResult(c, l, size).value, AfterMalloc(c, l, size);
            && IsLive(c, m, p) && Aligned(c, p) && !IsLive(c, l, p)
            && var k := BlockAt(c, m, p);
               m[k].req == size && size <= DataSize(c, m, k) && Live(m) == Live(l) + {m[k]}
  {
    hide Aligned, Expanded;
    var k, m := Picked(c, l, size), AfterMalloc(c, l, size);
    ExpandedOk(c, size);
    MallocKeeps(c, l, size);
    AllocatedFound(c, l, k, Expanded(c, size), size, m);
    LiveInRange(c, m, k);
    var f := Find(l, l[k].off, 0);
    if f < k {
      Increasing(c, l, f, k);
    }
  }

  /** Freeing a live pointer ends that allocation and no other. */
  lemma FreeCall(c: Config, l: Blocks, ptr: int)
    requires ValidConfig(c) && WellFormed(c, l) && IsLive(c, l, ptr)
    ensures Live(AfterFree(c, l, ptr)) == Live(l) - {l[BlockAt(c, l, ptr)]}
  {
    FreeLive(c, l, BlockAt(c, l, ptr));
  }

  // Runs.

  datatype Op = Malloc(size: nat) | Release(ptr: int) | Trim(ptr: int, size: nat)

  ghost predicate LegalOp(c: Config, l: Blocks, op: Op) {
    match op
    case Malloc(size) => size < c.limit
    case Release(ptr) => IsLive(c, l, ptr)
    case Trim(ptr, size) => IsLive(c, l, ptr) && size < c.limit
  }

  ghost function Step(c: Config, l: Blocks, op: Op): Blocks
    requires c.align > 0 && c.limit > 0 && LegalOp(c, l, op)
  {
    match op
    case Malloc(size) => AfterMalloc(c, l, size)
    case Release(ptr) => AfterFree(c, l, ptr)
    case Trim(ptr, size) => AfterTrim(c, l, ptr, size)
  }

  /** The list after `mem_init`: one free block. */
  ghost function Initial(): Blocks {
    [Free(0)]
  }

  /** `states` is what a run of legal calls goes through, from `mem_init` on. */
  ghost predicate IsRun(c: Config, ops: seq<Op>, states: seq<Blocks>)
    requires c.align > 0 && c.limit > 0
  {
    && |states| == |ops| + 1 && states[0] == Initial()
    && forall i :: 0 <= i < |ops| ==> LegalOp(c, states[i], ops[i]) && Follows(c, states, i, ops[i])
  }

  ghost predicate Follows(c: Config, states: seq<Blocks>, i: nat, op: Op)
    requires c.align > 0 && c.limit > 0 && i + 1 < |states| && LegalOp(c, states[i], op)
  {
    states[i + 1] == Step(c, states[i], op)
  }

  lemma StepKeeps(c: Config, l: Blocks, op: Op)
    requires ValidConfig(c) && WellFormed(c, l) && LegalOp(c, l, op)
    ensures WellFormed(c, Step(c, l, op))
  {
    match op
    case Malloc(size) => MallocKeeps(c, l, size);
    case Release(ptr) => FreeKeeps(c, l, Find(l, ptr - c.hdr, 0));
    case Trim(ptr, size) => TrimCallKeeps(c, l, ptr, size);
  }

  lemma InitialWellFormed(c: Config)
    requires ValidConfig(c)
    ensures WellFormed(c, Initial())
  {
    AlignedTimes(c, 0);
    var l := Initial();
    assert EndOf(c, l, 0) == c.end;
    assert BlockOk(c, l, 0) && !BothFree(l, 0);
  }

  /** Every state of every run of malloc, free and trim is well formed. */
  lemma {:induction false} EveryRunWellFormed(c: Config, ops: seq<Op>, states: seq<Blocks>, i: nat)
    requires ValidConfig(c) && IsRun(c, ops, states) && i < |states|
    ensures WellFormed(c, states[i])
    decreases i
  {
    hide WellFormed, Step, LegalOp, Aligned;
    if i == 0 {
      InitialWellFormed(c);
    } else {
      EveryRunWellFormed(c, ops, states, i - 1);
      assert LegalOp(c, states[i - 1], ops[i - 1]) && Follows(c, states, i - 1, ops[i - 1]);
      StepKeeps(c, states[i - 1], ops[i - 1]);
    }
  }

  /**
   * In every state of every run each live allocation is aligned, in range and at least as
   * big as requested, and ends before the header of every later block.
   */
  lemma EveryRunLiveApart(c: Config, ops: seq<Op>, states: seq<Blocks>, t: nat, i: nat)
    requires ValidConfig(c) && IsRun(c, ops, states) && t < |states| && i < |states[t]| && states[t][i].Used?
    ensures var l := states[t];
            && Aligned(c, l[i].off + c.hdr) && l[i].off + c.hdr + l[i].req <= c.end
            && forall j :: i < j < |l| ==> l[i].off + c.hdr + l[i].req <= l[j].off
  {
    hide Aligned, IsRun, BlockOk;
    var l := states[t];
    EveryRunWellFormed(c, ops, states, t);
    LiveInRange(c, l, i);
    forall j | i < j < |l| ensures l[i].off + c.hdr + l[i].req <= l[j].off {
      Increasing(c, l, i, j);
    }
  }

  // The lowest free block after each operation.

  lemma PluggedLowest(c: Config, l: Blocks, i: nat)
    requires i < |l| && l[i].Free?
    ensures LowestFree(c, Plugged(l, i)) == LowestFree(c, l) <= l[i].off || !Ordered(c, l)
  {
    var m, k := Plugged(l, i), FirstFree(l, 0);
    assert k <= i;
    var after := if FreeNext(l, i) then l[i + 2..] else l[i + 1..];
    assert m == (if i > 0 && l[i - 1].Free? then l[..i] else l[..i + 1]) + after;
    assert i > 0 && l[i - 1].Free? ==> k < i;
    FirstFreeIs(m, k);
    if Ordered(c, l) && k < i {
      Increasing(c, l, k, i);
    }
  }

  lemma FreedLowest(c: Config, l: Blocks, i: nat)
    requires Ordered(c, l) && i < |l| && l[i].Used?
    ensures LowestFree(c, l[i := Free(l[i].off)]) == if l[i].off < LowestFree(c, l) then l[i].off else LowestFree(c, l)
  {
    var f, k := l[i := Free(l[i].off)], FirstFree(l, 0);
    if i < k {
      FirstFreeIs(f, i);
      if k < |l| {
        Increasing(c, l, i, k);
      } else {
        BelowEnd(c, l, i);
      }
    } else {
      FirstFreeIs(f, k);
      Increasing(c, l, k, i);
    }
  }

  /** Allocating a block other than the lowest free one leaves the lowest where it is. */
  lemma AllocLowest(c: Config, l: Blocks, i: nat, size: nat, req: nat)
    requires i < |l| && FirstFree(l, 0) < i
    ensures LowestFree(c, AllocAt(c, l, i, size, req)) == LowestFree(c, l)
  {
    FirstFreeIs(AllocAt(c, l, i, size, req), FirstFree(l, 0));
  }

  lemma TrimLowest(c: Config, l: Blocks, i: nat, size: nat, req: nat)
    requires Ordered(c, l) && i < |l| && l[i].Used? && size <= DataSize(c, l, i)
    ensures var q, low := l[i].off + c.hdr + size, LowestFree(c, l);
            LowestFree(c, TrimAt(c, l, i, size, req)) ==
              if size == DataSize(c, l, i) then low
              else if FreeNext(l, i) then (if low == l[i + 1].off then q else low)
              else if size + c.hdr + c.min <= DataSize(c, l, i) && q < low then q
              else low
  {
    var m, k := TrimAt(c, l, i, size, req), FirstFree(l, 0);
    if size < DataSize(c, l, i) {
      AllIncreasing(c, l);
      assert EndOf(c, l, i) <= c.end;
      if FreeNext(l, i) {
        FirstFreeIs(m, k);
        assert k <= i + 1;
        if k < i {
          Increasing(c, l, k, i + 1);
        }
      } else if size + c.hdr + c.min <= DataSize(c, l, i) {
        InsertAt(c, l[i := Used(l[i].off, req)], i, Free(l[i].off + c.hdr + size), i + 1);
        FirstFreeIs(m, if k < i then k else i + 1);
        if k < i {
          Increasing(c, l, k, i);
        } else if k < |l| {
          Increasing(c, l, i, k);
        }
      } else {
        FirstFreeIs(m, k);
      }
    } else {
      FirstFreeIs(m, k);
    }
  }
}
