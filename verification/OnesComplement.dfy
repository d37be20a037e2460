/**
 * The arithmetic behind the Internet checksum (src/lwip/inet_chksum.h and
 * sections 1 and 2 of RFC 1071).
 *
 * Two naturals are `Same` when they differ by a multiple of 65535 and are zero
 * together.  A 16-bit one's complement sum is determined by its class: the class of 0
 * has the member 0 and every other class exactly one member in 1..65535.  Folding
 * keeps the class and swapping the bytes of a word multiplies it by 256.
 */
module OnesComplement {
  import opened Words

  /** `FOLD_U32T`: split a 32-bit value into two halves and add them. */
  function Fold(u: U32): U32 {
    u / 0x1_0000 + u % 0x1_0000
  }

  /** `SWAP_BYTES_IN_WORD`: swaps the low two bytes and drops all higher bits. */
  function SwapBytes(w: U32): U16 {
    w % 0x100 * 0x100 + w / 0x100 % 0x100
  }

  ghost predicate Apart(a: nat, b: nat, k: int) {
    a == b + 0xFFFF * k
  }

  ghost predicate Same(a: nat, b: nat) {
    (a == 0 <==> b == 0) && exists k :: Apart(a, b, k)
  }

  lemma Reflexive(a: nat)
    ensures Same(a, a)
  {
    assert Apart(a, a, 0);
  }

  lemma Symmetric(a: nat, b: nat)
    requires Same(a, b)
    ensures Same(b, a)
  {
    var k :| Apart(a, b, k);
    assert Apart(b, a, -k);
  }

  lemma Transitive(a: nat, b: nat, c: nat)
    requires Same(a, b) && Same(b, c)
    ensures Same(a, c)
  {
    var j :| Apart(a, b, j);
    var k :| Apart(b, c, k);
    assert Apart(a, c, j + k);
  }

  /** One summand may be replaced by another of its class. */
  lemma Replace(sum: nat, x: nat, y: nat, total: nat)
    requires Same(sum + x, total) && Same(x, y)
    ensures Same(sum + y, total)
  {
    var j :| Apart(sum + x, total, j);
    var k :| Apart(x, y, k);
    assert Apart(sum + y, total, j - k);
  }

  lemma AddTo(sum: nat, x: nat, y: nat)
    requires Same(x, y)
    ensures Same(sum + x, sum + y)
  {
    var k :| Apart(x, y, k);
    assert Apart(sum + x, sum + y, k);
  }

  lemma ScaleBoth(a: nat, b: nat)
    requires Same(a, b)
    ensures Same(0x100 * a, 0x100 * b)
  {
    var k :| Apart(a, b, k);
    assert Apart(0x100 * a, 0x100 * b, 0x100 * k);
  }

  /** Moving a number up by one 16-bit word does not change its class. */
  lemma UpOneWord(x: nat)
    ensures Same(0x1_0000 * x, x)
  {
    assert Apart(0x1_0000 * x, x, x);
  }

  /** A class has one 16-bit member. */
  lemma OneMember(v: U16, w: U16)
    requires Same(v, w)
    ensures v == w
  {
    var k :| Apart(v, w, k);
  }

  /** The 16-bit member of the class of `n`. */
  function Residue(n: nat): U16 {
    if n == 0 then 0 else 1 + (n - 1) % 0xFFFF
  }

  lemma ResidueIsSame(n: nat)
    ensures Same(Residue(n), n)
  {
    if n != 0 {
      assert Apart(Residue(n), n, -((n - 1) / 0xFFFF));
    } else {
      Reflexive(0);
    }
  }

  lemma FoldKeeps(u: U32)
    ensures Same(Fold(u), u)
    ensures u <= 0x1_FFFE ==> Fold(u) <= 0xFFFF
    ensures Fold(u) <= 0x1_FFFE
  {
    assert Apart(Fold(u), u, -(u / 0x1_0000));
  }

  /** Folding twice always yields a 16-bit word. */
  lemma FoldTwice(u: U32)
    ensures Fold(Fold(u)) <= 0xFFFF && Same(Fold(Fold(u)), u)
  {
    FoldKeeps(u);
    FoldKeeps(Fold(u));
    Transitive(Fold(Fold(u)), Fold(u), u);
  }

  /** Swapping the bytes of a word is multiplication by 256. */
  lemma SwapScales(w: U16)
    ensures Same(SwapBytes(w), 0x100 * w)
  {
    assert Apart(SwapBytes(w), 0x100 * w, -(w / 0x100));
  }

  lemma SwapTwice(w: U16)
    ensures SwapBytes(SwapBytes(w)) == w
  {
  }

  lemma HtonsIsSwap(w: U16)
    ensures Htons(w) == SwapBytes(w)
  {
  }

  /** Swapping undoes a shift by one byte. */
  lemma SwapUnshifts(w: U16, n: nat)
    requires Same(w, 0x100 * n)
    ensures Same(SwapBytes(w), n)
  {
    var r: nat := SwapBytes(w);
    SwapScales(w);
    ScaleBoth(w, 0x100 * n);
    UpOneWord(n);
    Transitive(r, 0x100 * w as nat, 0x100 * (0x100 * n));
    Transitive(r, 0x1_0000 * n, n);
  }

  /** A word and its complement add up to all ones, the non-zero member of the class of 65535. */
  lemma ComplementCancels(n: nat, w: U16, total: U16)
    requires Same(w, n) && Same(total, n + Complement16(w))
    ensures total == 0xFFFF
  {
    Symmetric(w, n);
    AddTo(Complement16(w), n, w);
    Transitive(total, n + Complement16(w), 0xFFFF);
    OneMember(total, 0xFFFF);
  }

  /** A 32-bit sum with the carry added back (`tmp = sum + x; if (tmp < sum) tmp++`). */
  lemma EndAroundKeeps(sum: U32, x: U32)
    ensures var t := Add32(sum, x);
            (t < sum ==> t + 1 < 0x1_0000_0000) && Same(if t < sum then t + 1 else t, sum + x)
  {
    var t := Add32(sum, x);
    if sum + x >= 0x1_0000_0000 {
      assert t == sum + x - 0x1_0000_0000;
      assert Apart(t + 1, sum + x, -0x1_0001);
    } else {
      Reflexive(t);
    }
  }
}
