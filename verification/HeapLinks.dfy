/**
 * The doubly linked headers of the heap and the list of blocks they spell out.
 * Each of the pointer surgeries of src/lwip/mem.c is one of three: mark a header used
 * or unused, link a new header in after another, or unlink the header after another.
 */
module HeapLinks {
  import opened HeapList

  /** The header fields, indexed by the offset of the header in the heap. */
  datatype Headers = Headers(next: seq<nat>, prev: seq<nat>, used: seq<bool>)

  ghost predicate Sized(c: Config, h: Headers) {
    |h.next| == |h.prev| == |h.used| == c.end + 1
  }

  ghost predicate LinkedAt(c: Config, l: Blocks, h: Headers, i: nat)
    requires Sized(c, h) && i < |l|
  {
    && l[i].off < c.end
    && h.next[l[i].off] == EndOf(c, l, i)
    && h.prev[l[i].off] == PrevOf(l, i)
    && h.used[l[i].off] == l[i].Used?
  }

  /** The end marker is marked used and points to itself both ways. */
  ghost predicate EndMarked(c: Config, h: Headers)
    requires Sized(c, h)
  {
    h.used[c.end] && h.next[c.end] == c.end && h.prev[c.end] == c.end
  }

  ghost predicate Linked(c: Config, l: Blocks, h: Headers) {
    && Sized(c, h) && EndMarked(c, h)
    && forall i :: 0 <= i < |l| ==> LinkedAt(c, l, h, i)
  }

  ghost function Mark(h: Headers, p: nat, used: bool): Headers
    requires p < |h.used|
  {
    h.(used := h.used[p := used])
  }

  /** Links a free header `q` in after the header `p`. */
  ghost function LinkIn(c: Config, h: Headers, p: nat, q: nat): Headers
    requires Sized(c, h) && p <= c.end && q <= c.end && h.next[p] <= c.end
  {
    var n := h.next[p];
    var prev := h.prev[q := p];
    Headers(h.next[q := n][p := q], if n != c.end then prev[n := q] else prev, h.used[q := false])
  }

  /** Unlinks the header after `p`. */
  ghost function LinkOut(c: Config, h: Headers, p: nat): Headers
    requires Sized(c, h) && p <= c.end && h.next[p] <= c.end && h.next[h.next[p]] <= c.end
  {
    var n := h.next[h.next[p]];
    h.(next := h.next[p := n], prev := if n != c.end then h.prev[n := p] else h.prev)
  }

  lemma LinkedMark(c: Config, l: Blocks, h: Headers, i: nat, b: Block)
    requires Ordered(c, l) && Linked(c, l, h) && i < |l| && b.off == l[i].off
    ensures Ordered(c, l[i := b]) && b.off < c.end && Linked(c, l[i := b], Mark(h, b.off, b.Used?))
  {
    assert LinkedAt(c, l, h, i);
    var l', h' := l[i := b], Mark(h, l[i].off, b.Used?);
    AllIncreasing(c, l);
    forall j | 0 <= j < |l'| ensures LinkedAt(c, l', h', j) && l'[j].off < EndOf(c, l', j) {
      assert LinkedAt(c, l, h, j);
      assert EndOf(c, l', j) == EndOf(c, l, j) && PrevOf(l', j) == PrevOf(l, j);
      if j != i {
        DistinctOffsets(c, l, i, j);
      }
    }
  }

  lemma DistinctOffsets(c: Config, l: Blocks, i: nat, j: nat)
    requires Ordered(c, l) && i < |l| && j < |l| && i != j
    ensures l[i].off != l[j].off
  {
    if i < j {
      Increasing(c, l, i, j);
    } else {
      Increasing(c, l, j, i);
    }
  }

  /** No block starts strictly inside another. */
  lemma NotInside(c: Config, l: Blocks, i: nat, j: nat, q: nat)
    requires Ordered(c, l) && i < |l| && j < |l| && l[i].off < q < EndOf(c, l, i)
    ensures l[j].off != q && q < c.end
  {
    BelowEnd(c, l, i);
    if i < j {
      Increasing(c, l, i, j);
    } else if j < i {
      Increasing(c, l, j, i);
    }
  }

  /** A block ends where `b` starts only if it is the block before `b`. */
  lemma EndIsNext(c: Config, l: Blocks, i: nat, j: nat)
    requires Ordered(c, l) && i < |l| && j < |l| && l[j].off == EndOf(c, l, i)
    ensures j == i + 1
  {
    if i + 1 < |l| {
      if j != i + 1 {
        DistinctOffsets(c, l, i + 1, j);
      }
    } else {
      BelowEnd(c, l, j);
    }
  }

  lemma LinkedInsert(c: Config, l: Blocks, h: Headers, i: nat, q: nat)
    requires Ordered(c, l) && Linked(c, l, h) && i < |l| && l[i].off < q < EndOf(c, l, i)
    ensures l[i].off < c.end && q < c.end && h.next[l[i].off] == EndOf(c, l, i) <= c.end
    ensures Ordered(c, Insert(l, i, Free(q))) && Linked(c, Insert(l, i, Free(q)), LinkIn(c, h, l[i].off, q))
  {
    var b := Free(q);
    BelowEnd(c, l, i);
    assert LinkedAt(c, l, h, i);
    NotInside(c, l, i, i, q);
    InsertOrdered(c, l, i, b);
    var l', h' := Insert(l, i, b), LinkIn(c, h, l[i].off, q);
    forall j | 0 <= j < |l'| ensures LinkedAt(c, l', h', j) {
      LinkedInsertAt(c, l, h, i, q, j);
    }
  }

  lemma LinkedInsertAt(c: Config, l: Blocks, h: Headers, i: nat, q: nat, j: nat)
    requires Ordered(c, l) && Linked(c, l, h) && i < |l| && l[i].off < q < EndOf(c, l, i) <= c.end
    requires j <= |l| && LinkedAt(c, l, h, i)
    ensures LinkedAt(c, Insert(l, i, Free(q)), LinkIn(c, h, l[i].off, q), j)
  {
    InsertAt(c, l, i, Free(q), j);
    if j != i + 1 {
      var k := if j <= i then j else j - 1;
      assert LinkedAt(c, l, h, k);
      NotInside(c, l, i, k, q);
      if k != i {
        DistinctOffsets(c, l, i, k);
      }
      if l[k].off == EndOf(c, l, i) {
        EndIsNext(c, l, i, k);
      }
    }
  }

  lemma LinkedRemove(c: Config, l: Blocks, h: Headers, i: nat)
    requires Ordered(c, l) && Linked(c, l, h) && 0 < i < |l|
    ensures var p := l[i - 1].off;
            && p < c.end && h.next[p] == l[i].off < c.end && h.next[l[i].off] == EndOf(c, l, i) <= c.end
            && Ordered(c, Remove(l, i)) && Linked(c, Remove(l, i), LinkOut(c, h, p))
  {
    BelowEnd(c, l, i);
    BelowEnd(c, l, i - 1);
    assert LinkedAt(c, l, h, i) && LinkedAt(c, l, h, i - 1);
    RemoveOrdered(c, l, i);
    var l', h' := Remove(l, i), LinkOut(c, h, l[i - 1].off);
    forall j | 0 <= j < |l'| ensures LinkedAt(c, l', h', j) {
      RemoveAt(c, l, i, j);
      var k := if j < i then j else j + 1;
      assert LinkedAt(c, l, h, k);
      if k != i - 1 {
        DistinctOffsets(c, l, i - 1, k);
      }
      if l[k].off == EndOf(c, l, i) {
        EndIsNext(c, l, i, k);
      }
    }
  }
}
