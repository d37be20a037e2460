/**
 * src/lwip/memp.c, fixed-pool build with MEMP_SANITY_CHECK: an intrusive free list
 * over the `num` elements carved from the pool, and the check that the list is not
 * circular.  Elements are numbered in the order they are carved; `num` is NULL.
 */
module MempPool {
  import opened LinkedSlots

  /** `memp_sanity`: Floyd's search on any linked structure, well formed or not. */
  method MempSanity(next: array<nat>, tab: nat) returns (ok: bool)
    requires Sound(next[..], tab)
    ensures ok <==> EndsInNull(next[..], tab)
    ensures !ok <==> RunsIntoCycle(next[..], tab)
  {
    ghost var links := next[..];
    ghost var k: nat := 0;
    ghost var stop := Meeting(links, tab);
    EndsOrCycles(links, tab);
    assert At(links, tab, 0) == tab;
    var t := tab;
    if t != next.Length {
      var h := next[t];
      assert h == At(links, tab, 1);
      while t != next.Length && h != next.Length
        invariant t == At(links, tab, k) && h == At(links, tab, 2 * k + 1)
        invariant k <= stop
        decreases stop - k
      {
        if t == h {
          assert CycleAt(links, tab, k, k + 1);
          return false;
        }
        assert At(links, tab, 2 * k + 2) == Follow(links, h);
        assert At(links, tab, 2 * k + 3) == Follow(links, Follow(links, h));
        t, h := next[t], if next[h] != next.Length then next[next[h]] else next.Length;
        k := k + 1;
      }
    }
    assert At(links, tab, k) == |links| || At(links, tab, 2 * k + 1) == |links|;
    return true;
  }

  /** The free list, first element first, and the elements handed out. */
  datatype PoolState = PoolState(free: seq<nat>, out: set<nat>)

  /** Every carved element is on the free list once or handed out, never both. */
  ghost predicate Partition(num: nat, s: PoolState) {
    && Distinct(s.free)
    && (forall i :: 0 <= i < |s.free| ==> s.free[i] < num)
    && s.out == Upto(num) - Elements(s.free)
  }

  /** The free list after carving: the last carved element is first. */
  ghost function Carved(num: nat): (free: seq<nat>)
    ensures |free| == num && forall i :: 0 <= i < num ==> free[i] == num - 1 - i
  {
    if num == 0 then [] else [num - 1] + Carved(num - 1)
  }

  ghost function InitialState(num: nat): PoolState {
    PoolState(Carved(num), {})
  }

  ghost function AfterMalloc(s: PoolState): PoolState {
    if |s.free| == 0 then s else PoolState(s.free[1..], s.out + {s.free[0]})
  }

  ghost function AfterFree(s: PoolState, e: nat): PoolState {
    PoolState([e] + s.free, s.out - {e})
  }

  lemma InitialPartition(num: nat)
    ensures Partition(num, InitialState(num))
  {
    var s := InitialState(num);
    forall x | x in Upto(num) ensures x in Elements(s.free) {
      assert s.free[num - 1 - x] == x;
    }
  }

  lemma MallocKeepsPartition(num: nat, s: PoolState)
    requires Partition(num, s)
    ensures Partition(num, AfterMalloc(s))
    ensures |s.free| > 0 ==> s.free[0] < num && s.free[0] !in s.out
  {
    if |s.free| > 0 {
      var e, rest := s.free[0], s.free[1..];
      assert e in Elements(s.free);
      assert s.free == [e] + rest;
      assert Elements(s.free) == {e} + Elements(rest);
      assert e !in rest;
    }
  }

  /** The pool is empty exactly when all elements are out, and no element is ever lost. */
  lemma NothingLost(num: nat, s: PoolState)
    requires Partition(num, s)
    ensures |s.free| == 0 <==> s.out == Upto(num)
    ensures |s.free| + |s.out| == num
  {
    DistinctSize(s.free);
    UptoSize(num);
    assert Elements(s.free) <= Upto(num);
    assert Upto(num) == Elements(s.free) + s.out;
  }

  lemma FreeKeepsPartition(num: nat, s: PoolState, e: nat)
    requires Partition(num, s) && e in s.out
    ensures Partition(num, AfterFree(s, e))
  {
    assert e !in Elements(s.free);
    assert Elements([e] + s.free) == {e} + Elements(s.free);
  }

  datatype Op = Malloc | Free(e: nat)

  /** A run is legal when it frees only what is handed out at that moment. */
  ghost predicate LegalRun(s: PoolState, ops: seq<Op>)
    decreases |ops|
  {
    |ops| > 0 ==>
      && (ops[0].Free? ==> ops[0].e in s.out)
      && LegalRun(Step(s, ops[0]), ops[1..])
  }

  ghost function Step(s: PoolState, op: Op): PoolState {
    match op
    case Malloc => AfterMalloc(s)
    case Free(e) => AfterFree(s, e)
  }

  ghost function Run(s: PoolState, ops: seq<Op>): PoolState
    decreases |ops|
  {
    if |ops| == 0 then s else Run(Step(s, ops[0]), ops[1..])
  }

  lemma {:induction false} LegalRunKeepsPartition(num: nat, s: PoolState, ops: seq<Op>)
    requires Partition(num, s) && LegalRun(s, ops)
    ensures Partition(num, Run(s, ops))
    decreases |ops|
  {
    if |ops| > 0 {
      match ops[0] {
        case Malloc => MallocKeepsPartition(num, s);
        case Free(e) => FreeKeepsPartition(num, s, e);
      }
      LegalRunKeepsPartition(num, Step(s, ops[0]), ops[1..]);
    }
  }

  /** Every legal run from a fresh pool keeps the partition. */
  lemma EveryRunKeepsPartition(num: nat, ops: seq<Op>)
    requires LegalRun(InitialState(num), ops)
    ensures Partition(num, Run(InitialState(num), ops))
  {
    InitialPartition(num);
    LegalRunKeepsPartition(num, InitialState(num), ops);
  }

  /** What follows element `i` of a list. */
  ghost function After(free: seq<nat>, i: nat, end: nat): nat
    requires i < |free|
  {
    if i + 1 < |free| then free[i + 1] else end
  }

  /** The links from `tab` spell out `free`. */
  ghost predicate Threaded(next: seq<nat>, tab: nat, free: seq<nat>) {
    && tab == (if |free| == 0 then |next| else free[0])
    && forall i :: 0 <= i < |free| ==>
         free[i] < |next| && next[free[i]] == After(free, i, |next|)
  }

  lemma {:induction false} ThreadedAt(next: seq<nat>, tab: nat, free: seq<nat>, k: nat)
    requires Threaded(next, tab, free) && k <= |free|
    ensures At(next, tab, k) == if k < |free| then free[k] else |next|
  {
    if k > 0 {
      ThreadedAt(next, tab, free, k - 1);
    }
  }

  /** The links that matter are those of the free elements. */
  lemma ThreadedSound(next: seq<nat>, tab: nat, free: seq<nat>)
    requires Threaded(next, tab, free)
    ensures Sound(next, tab) && EndsInNull(next, tab)
  {
    ThreadedAt(next, tab, free, |free|);
    forall k: nat ensures At(next, tab, k) <= |next| {
      if k <= |free| {
        ThreadedAt(next, tab, free, k);
      } else {
        NullStays(next, tab, |free|, k);
      }
    }
  }

  /** What the owner of an element writes into it does not touch the list. */
  lemma ThreadedWrite(next: seq<nat>, tab: nat, free: seq<nat>, e: nat, value: nat)
    requires Threaded(next, tab, free) && e < |next| && e !in free
    ensures Threaded(next[e := value], tab, free)
  {
  }

  lemma ThreadedPop(next: seq<nat>, tab: nat, free: seq<nat>)
    requires Threaded(next, tab, free) && |free| > 0
    ensures tab == free[0] && tab < |next| && Threaded(next, next[tab], free[1..])
  {
    var rest := free[1..];
    forall i | 0 <= i < |rest|
      ensures rest[i] < |next| && next[rest[i]] == After(rest, i, |next|)
    {
      assert rest[i] == free[i + 1];
    }
  }

  lemma ThreadedPush(next: seq<nat>, tab: nat, free: seq<nat>, e: nat)
    requires Threaded(next, tab, free) && e < |next| && e !in free
    ensures Threaded(next[e := tab], e, [e] + free)
  {
    var pushed, list := next[e := tab], [e] + free;
    forall i | 0 <= i < |list| ensures list[i] < |pushed| && pushed[list[i]] == After(list, i, |pushed|) {
      if i > 0 {
        assert list[i] == free[i - 1] && After(list, i, |pushed|) == After(free, i - 1, |next|);
      }
    }
  }

  /** Pushing an element that is on the list already closes a cycle. */
  lemma PushTwiceCycles(next: seq<nat>, tab: nat, free: seq<nat>, e: nat, p: nat)
    requires Threaded(next, tab, free) && Distinct(free) && p < |free| && e == free[p]
    ensures Sound(next[e := tab], e) && RunsIntoCycle(next[e := tab], e)
  {
    var pushed := next[e := tab];
    PushedAt(next, tab, free, p, p);
    assert CycleAt(pushed, e, 0, p + 1);
    forall k: nat ensures At(pushed, e, k) <= |pushed| {
      var j := PushedStays(next, tab, free, p, k);
    }
  }

  lemma PushedFollow(next: seq<nat>, tab: nat, free: seq<nat>, p: nat, j: nat)
    requires Threaded(next, tab, free) && Distinct(free) && j <= p < |free|
    ensures Follow(next[free[p] := tab], free[j]) == free[if j == p then 0 else j + 1]
  {
    assert j < p ==> free[j] != free[p];
    assert next[free[j]] == After(free, j, |next|);
  }

  /** From the element that was pushed twice, only the part of the list up to it is reached. */
  lemma {:induction false} PushedStays(next: seq<nat>, tab: nat, free: seq<nat>, p: nat, k: nat) returns (j: nat)
    requires Threaded(next, tab, free) && Distinct(free) && p < |free|
    ensures j <= p && At(next[free[p] := tab], free[p], k) == free[j] < |next|
  {
    hide Follow, Distinct, After;
    if k == 0 {
      j := p;
    } else {
      var i := PushedStays(next, tab, free, p, k - 1);
      PushedFollow(next, tab, free, p, i);
      j := if i == p then 0 else i + 1;
    }
  }

  lemma {:induction false} PushedAt(next: seq<nat>, tab: nat, free: seq<nat>, p: nat, k: nat)
    requires Threaded(next, tab, free) && Distinct(free) && k <= p < |free|
    ensures At(next[free[p] := tab], free[p], k + 1) == free[k]
    decreases k
  {
    var pushed := next[free[p] := tab];
    assert At(pushed, free[p], 0) == free[p];
    if k > 0 {
      PushedAt(next, tab, free, p, k - 1);
      assert free[k - 1] != free[p];
    }
  }

  class Pool {
    const num: nat
    const next: array<nat>
    var tab: nat
    ghost var state: PoolState

    ghost predicate Valid()
      reads this, next
    {
      next.Length == num && Threaded(next[..], tab, state.free) && Partition(num, state)
    }

    /** `memp_init_pool` */
    constructor (num: nat)
      ensures Valid() && fresh(next) && this.num == num && state == InitialState(num)
    {
      this.num := num;
      next := new nat[num](_ => 0);
      tab := num;
      state := InitialState(0);
      new;
      for i := 0 to num
        invariant next.Length == num && fresh(next) && Threaded(next[..], tab, state.free)
        invariant state == InitialState(i)
      {
        ghost var before := next[..];
        ThreadedPush(before, tab, state.free, i);
        next[i] := tab;
        tab := i;
        assert next[..] == before[i := next[i]];
        state := InitialState(i + 1);
      }
      InitialPartition(num);
    }

    /** `do_memp_malloc_pool`; the result is `num` for NULL. */
    method Take() returns (e: nat)
      requires Valid()
      modifies this`tab, this`state
      ensures Valid() && state == AfterMalloc(old(state))
      ensures e == if |old(state.free)| == 0 then num else old(state.free)[0]
      ensures e == num <==> old(state.out) == Upto(num)
      ensures e != num ==> e < num && e !in old(state.out) && e in state.out
    {
      MallocKeepsPartition(num, state);
      NothingLost(num, state);
      hide Partition, Upto;
      e := tab;
      if e != num {
        ThreadedPop(next[..], tab, state.free);
        tab := next[e];
        state := AfterMalloc(state);
      }
    }

    /**
     * The owner of an element writes to it: without overflow checks the link is part of
     * the user's data.
     */
    method Write(e: nat, value: nat)
      requires Valid() && e in state.out
      modifies next
      ensures Valid() && next[..] == old(next[..])[e := value]
    {
      assert e < num && e !in Elements(state.free);
      ThreadedWrite(next[..], tab, state.free, e, value);
      next[e] := value;
      assert next[..] == old(next[..])[e := value];
    }

    /**
     * `do_memp_free_pool` on any carved element.  `sane` is the outcome of the sanity
     * assertion: it holds exactly when the element was handed out, so a legal free never
     * trips it and a double free always does.
     */
    method Put(e: nat) returns (sane: bool)
      requires Valid() && e < num
      modifies this`tab, this`state, next
      ensures sane <==> e in old(state.out)
      ensures sane ==> Valid() && state == AfterFree(old(state), e)
    {
      ghost var links, list := next[..], tab;
      next[e] := tab;
      tab := e;
      assert next[..] == links[e := list];
      if e in state.out {
        FreeKeepsPartition(num, state, e);
        ThreadedPush(links, list, state.free, e);
        state := AfterFree(state, e);
        ThreadedSound(next[..], tab, state.free);
      } else {
        assert e in Elements(state.free);
        var p: nat :| p < |state.free| && state.free[p] == e;
        PushTwiceCycles(links, list, state.free, e, p);
      }
      sane := MempSanity(next, tab);
    }
  }
}
