/**
 * Singly linked structures over the slots 0..n-1, with n standing for NULL.
 * Following `next` from a place either reaches NULL or runs into a cycle, and never both.
 */
module LinkedSlots {
  ghost function Follow(next: seq<nat>, p: nat): nat {
    if p < |next| then next[p] else p
  }

  /** The place `k` links after `start`; NULL stays NULL. */
  ghost function At(next: seq<nat>, start: nat, k: nat): nat {
    if k == 0 then start else Follow(next, At(next, start, k - 1))
  }

  /** Every place that is reached from `start` is a slot or NULL; other slots may hold anything. */
  ghost predicate Sound(next: seq<nat>, start: nat) {
    forall k: nat :: At(next, start, k) <= |next|
  }

  ghost predicate EndsInNull(next: seq<nat>, start: nat) {
    exists k :: At(next, start, k) == |next|
  }

  /** After `k` links there is a slot that is met again `m` links later. */
  ghost predicate CycleAt(next: seq<nat>, start: nat, k: nat, m: nat) {
    m > 0 && At(next, start, k) != |next| && At(next, start, k + m) == At(next, start, k)
  }

  ghost predicate RunsIntoCycle(next: seq<nat>, start: nat) {
    exists k: nat, m: nat :: CycleAt(next, start, k, m)
  }

  lemma {:induction false} NullStays(next: seq<nat>, start: nat, k: nat, j: nat)
    requires At(next, start, k) == |next| && k <= j
    ensures At(next, start, j) == |next|
  {
    if k < j {
      NullStays(next, start, k, j - 1);
    }
  }

  /** Two runs that meet stay together. */
  lemma {:induction false} MeetAndStay(next: seq<nat>, start: nat, i: nat, j: nat, d: nat)
    requires At(next, start, i) == At(next, start, j)
    ensures At(next, start, i + d) == At(next, start, j + d)
  {
    if d > 0 {
      MeetAndStay(next, start, i, j, d - 1);
    }
  }

  /** From inside a cycle, whole laps lead back. */
  lemma {:induction false} Laps(next: seq<nat>, start: nat, k: nat, m: nat, j: nat, q: nat)
    requires CycleAt(next, start, k, m) && k <= j
    ensures At(next, start, j + q * m) == At(next, start, j)
    decreases q
  {
    if q > 0 {
      Laps(next, start, k, m, j, q - 1);
      MeetAndStay(next, start, k + m, k, j - k);
      MeetAndStay(next, start, j + (q - 1) * m, j, m);
      assert q * m == (q - 1) * m + m;
    }
  }

  lemma {:induction false} AtLeast(j: nat, m: nat)
    requires m > 0
    ensures j * m >= j
  {
    if j > 0 {
      AtLeast(j - 1, m);
    }
  }

  lemma {:induction false} CycleNeverEnds(next: seq<nat>, start: nat, k: nat, m: nat, j: nat)
    requires CycleAt(next, start, k, m)
    ensures At(next, start, j) != |next|
  {
    if At(next, start, j) == |next| {
      Laps(next, start, k, m, k, j);
      AtLeast(j, m);
      NullStays(next, start, j, k + j * m);
    }
  }

  // More values than places: two of them agree.

  ghost function Upto(n: nat): (s: set<nat>)
    ensures forall i: nat :: i in s <==> i < n
  {
    if n == 0 then {} else Upto(n - 1) + {n - 1}
  }

  lemma {:induction false} UptoSize(n: nat)
    ensures |Upto(n)| == n
  {
    if n > 0 {
      UptoSize(n - 1);
    }
  }

  ghost predicate Distinct(s: seq<nat>) {
    forall i, j :: 0 <= i < j < |s| ==> s[i] != s[j]
  }

  ghost function Elements(s: seq<nat>): set<nat> {
    set x | x in s
  }

  lemma {:induction false} DistinctSize(s: seq<nat>)
    requires Distinct(s)
    ensures |Elements(s)| == |s|
  {
    if |s| > 0 {
      var t := s[..|s| - 1];
      DistinctSize(t);
      assert s == t + [s[|s| - 1]];
      assert Elements(s) == Elements(t) + {s[|s| - 1]};
    }
  }

  lemma SubsetSize(a: set<nat>, b: set<nat>)
    requires a <= b
    ensures |a| <= |b|
    ensures |a| == |b| ==> a == b
  {
    assert b == a + (b - a);
  }

  lemma Pigeonhole(s: seq<nat>, n: nat)
    requires |s| > n && forall i :: 0 <= i < |s| ==> s[i] < n
    ensures !Distinct(s)
  {
    if Distinct(s) {
      DistinctSize(s);
      UptoSize(n);
      SubsetSize(Elements(s), Upto(n));
    }
  }

  /** A run that does not end visits some slot twice within its first n + 1 places. */
  lemma NoEndMeansCycle(next: seq<nat>, start: nat)
    requires Sound(next, start) && !EndsInNull(next, start)
    ensures RunsIntoCycle(next, start)
  {
    var s := seq(|next| + 1, k requires 0 <= k => At(next, start, k));
    Pigeonhole(s, |next|);
    var i, j :| 0 <= i < j < |s| && s[i] == s[j];
    assert CycleAt(next, start, i, j - i);
  }

  /** Exactly one of the two happens. */
  lemma EndsOrCycles(next: seq<nat>, start: nat)
    requires Sound(next, start)
    ensures EndsInNull(next, start) <==> !RunsIntoCycle(next, start)
  {
    if RunsIntoCycle(next, start) {
      var k: nat, m: nat :| CycleAt(next, start, k, m);
      forall j ensures At(next, start, j) != |next| {
        CycleNeverEnds(next, start, k, m, j);
      }
    } else if !EndsInNull(next, start) {
      NoEndMeansCycle(next, start);
    }
  }

  /**
   * A step at which Floyd's search stops: after `k` links the slow place meets the fast
   * one (which is `2 * k + 1` links on), or the fast one is at NULL.
   */
  lemma Meeting(next: seq<nat>, start: nat) returns (k: nat)
    requires Sound(next, start)
    ensures At(next, start, 2 * k + 1) == |next| || At(next, start, k) == At(next, start, 2 * k + 1)
  {
    if EndsInNull(next, start) {
      k :| At(next, start, k) == |next|;
      NullStays(next, start, k, 2 * k + 1);
    } else {
      NoEndMeansCycle(next, start);
      var c: nat, m: nat :| CycleAt(next, start, c, m);
      var laps := (c + 1) * m;
      AtLeast(c + 1, m);
      k := laps - 1;
      Laps(next, start, c, m, k, c + 1);
    }
  }
}
