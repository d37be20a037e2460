/**
 * src/lwip/inet_chksum.c on a little-endian host.
 *
 * Each `lwip_standard_chksum` version takes a buffer at an arbitrary address.  Word
 * loads state the alignment of the address they read as a precondition, so an
 * unaligned load would not verify.  Sums are the wrapping sums of C.
 */
module InetChksum {
  import opened Words
  import opened OnesComplement
  import opened ChecksumSpec

  /** Bytes that start at address `addr`. */
  datatype Buffer = Buffer(addr: nat, bytes: seq<Byte>)

  /** `*ps` for a `u16_t` pointer to byte `i` of the buffer. */
  function Load16(b: Buffer, i: nat): U16
    requires i + 2 <= |b.bytes| && (b.addr + i) % 2 == 0
  {
    Word(b.bytes[i], b.bytes[i + 1])
  }

  /** `*pl` for a `u32_t` pointer to byte `i` of the buffer. */
  function Load32(b: Buffer, i: nat): U32
    requires i + 4 <= |b.bytes| && (b.addr + i) % 4 == 0
  {
    Word(b.bytes[i], b.bytes[i + 1]) as int + 0x1_0000 * Word(b.bytes[i + 2], b.bytes[i + 3]) as int
  }

  lemma Even(a: nat, half: nat)
    requires a == 2 * half
    ensures a % 2 == 0
  {
  }

  lemma Quad(a: nat, quarter: nat)
    requires a == 4 * quarter
    ensures a % 4 == 0
  {
  }

  /** Half the first even address at or after `a`. */
  ghost function HalfUp(a: nat): (half: nat)
    ensures a % 2 == 0 ==> a == 2 * half
    ensures a % 2 != 0 ==> a + 1 == 2 * half
  {
    if a % 2 == 0 then a / 2 else a / 2 + 1
  }

  /** A quarter of the first quad address at or after the even address `2 * half`. */
  ghost function QuarterUp(half: nat): (quarter: nat)
    ensures 2 * half % 4 == 0 ==> 2 * half == 4 * quarter
    ensures 2 * half % 4 != 0 ==> 2 * half + 2 == 4 * quarter
  {
    if half % 2 == 0 then
      assert half == 2 * (half / 2); half / 2
    else
      assert half + 1 == 2 * (half / 2 + 1); half / 2 + 1
  }

  /** What a sum over the buffer must stand for before the final swap: an odd start shifts it by a byte. */
  ghost function Target(b: Buffer, odd: bool): nat {
    if odd then 0x100 * Number(b.bytes) else Number(b.bytes)
  }

  /** The accumulated `sum` and the bytes from `i` on together stand for `total`. */
  ghost predicate Remaining(b: Buffer, i: nat, sum: nat, total: nat)
    requires i <= |b.bytes|
  {
    Same(sum + NumberFrom(b.bytes, i), total)
  }

  lemma Start(b: Buffer)
    ensures Remaining(b, 0, 0, Number(b.bytes))
  {
    Reflexive(Number(b.bytes));
  }

  /** The first byte of an odd start goes to the high half of a word. */
  lemma StartOdd(b: Buffer)
    requires |b.bytes| > 0
    ensures Remaining(b, 1, Word(0, b.bytes[0]), 0x100 * Number(b.bytes))
  {
    var first: nat, rest := Word(0, b.bytes[0]), NumberFrom(b.bytes, 1);
    assert 0x100 * Number(b.bytes) == first + 0x1_0000 * rest;
    Reflexive(first + 0x1_0000 * rest);
    UpOneWord(rest);
    Replace(first, 0x1_0000 * rest, rest, 0x100 * Number(b.bytes));
  }

  lemma TakeWord(b: Buffer, i: nat, sum: nat, total: nat)
    requires i + 2 <= |b.bytes| && Remaining(b, i, sum, total)
    ensures Remaining(b, i + 2, sum + Word(b.bytes[i], b.bytes[i + 1]), total)
  {
    NumberOfTwo(b.bytes, i);
    Replace(sum, NumberFrom(b.bytes, i), Word(b.bytes[i], b.bytes[i + 1]) + NumberFrom(b.bytes, i + 2), total);
  }

  /** The last, odd byte stands for itself. */
  lemma TakeByte(b: Buffer, sum: nat, total: nat)
    requires |b.bytes| > 0 && Remaining(b, |b.bytes| - 1, sum, total)
    ensures Remaining(b, |b.bytes|, sum + b.bytes[|b.bytes| - 1] as nat, total)
  {
    var i := |b.bytes| - 1;
    assert NumberFrom(b.bytes, i) == b.bytes[i] as nat + 0x100 * NumberFrom(b.bytes, i + 1);
  }

  /** One 32-bit load whose carry was added back; `high` is the pending first byte. */
  lemma TakeLong(b: Buffer, i: nat, sum: nat, sum': nat, lo: nat, hi: nat, high: nat, total: nat)
    requires i + 4 <= |b.bytes| && Remaining(b, i, sum + high, total)
    requires lo == Word(b.bytes[i], b.bytes[i + 1]) && hi == Word(b.bytes[i + 2], b.bytes[i + 3])
    requires Same(sum', sum + (lo + 0x1_0000 * hi))
    ensures Remaining(b, i + 4, sum' + high, total)
  {
    TakeWord(b, i, sum + high, total);
    TakeWord(b, i + 2, sum + high + lo, total);
    var rest := high + NumberFrom(b.bytes, i + 4);
    assert sum + lo + hi + rest == sum + high + lo + hi + NumberFrom(b.bytes, i + 4);
    CarriedLong(sum, sum', lo, hi, rest, total);
  }

  lemma CarriedLong(sum: nat, sum': nat, lo: nat, hi: nat, rest: nat, total: nat)
    requires Same(sum + lo + hi + rest, total) && Same(sum', sum + (lo + 0x1_0000 * hi))
    ensures Same(sum' + rest, total)
  {
    UpOneWord(hi);
    Symmetric(0x1_0000 * hi, hi);
    Replace(sum + lo + rest, hi, 0x1_0000 * hi, total);
    Symmetric(sum', sum + (lo + 0x1_0000 * hi));
    Replace(rest, sum + (lo + 0x1_0000 * hi), sum', total);
  }

  lemma FoldRemaining(b: Buffer, i: nat, sum: U32, high: nat, total: nat)
    requires i <= |b.bytes| && Remaining(b, i, sum + high, total)
    ensures Fold(sum) <= 0x1_FFFE && Remaining(b, i, Fold(sum) + high, total)
  {
    FoldKeeps(sum);
    Symmetric(Fold(sum), sum);
    Replace(high + NumberFrom(b.bytes, i), sum, Fold(sum), total);
  }

  /** Two folds, and a swap if the start was odd, turn an exhausted accumulator into the checksum. */
  lemma Finish(b: Buffer, sum: U32, odd: bool)
    requires Remaining(b, |b.bytes|, sum, Target(b, odd))
    ensures var w := Fold(Fold(sum));
            w <= 0xFFFF && HostSum(b.bytes) == if odd then SwapBytes(w) else w
  {
    FoldTwice(sum);
    Transitive(Fold(Fold(sum)), sum, Target(b, odd));
    Unshift(b, Fold(Fold(sum)), odd);
  }

  lemma Unshift(b: Buffer, w: U16, odd: bool)
    requires Same(w, Target(b, odd))
    ensures HostSum(b.bytes) == if odd then SwapBytes(w) else w
  {
    if odd {
      SwapUnshifts(w, Number(b.bytes));
      ClassIsHostSum(b.bytes, SwapBytes(w));
    } else {
      ClassIsHostSum(b.bytes, w);
    }
  }

  /**
   * Version 1: byte pairs in network order, deferred carries, one `htons` at the end.
   * The accumulator holds 0x10000 words, so 0x20000 bytes are safe.
   */
  method StandardChksum1(b: Buffer) returns (r: U16)
    requires |b.bytes| <= 0x2_0000
    ensures r == HostSum(b.bytes)
  {
    ghost var total := 0x100 * Number(b.bytes);
    var acc: U32, i, len := 0, 0, |b.bytes|;
    Reflexive(total);
    while len > 1
      invariant 0 <= len && i + len == |b.bytes|
      invariant 2 * acc <= i * 0xFFFF
      invariant Same(acc + 0x100 * NumberFrom(b.bytes, i), total)
    {
      TakeSwapped(b.bytes, i, acc, total);
      var src: U16 := Word(b.bytes[i + 1], b.bytes[i]);
      NoWrap(acc, src);
      acc := Add32(acc, src);
      i, len := i + 2, len - 2;
    }
    if len > 0 {
      assert NumberFrom(b.bytes, i) == b.bytes[i] as nat + 0x100 * NumberFrom(b.bytes, i + 1);
      NoWrap(acc, Word(0, b.bytes[i]));
      acc := Add32(acc, Word(0, b.bytes[i]));
    }
    FinishSwapped(b.bytes, acc);
    acc := Fold(acc);
    if acc / 0x1_0000 != 0 {
      acc := Fold(acc);
    }
    r := Htons(acc);
  }

  lemma TakeSwapped(data: seq<Byte>, i: nat, acc: nat, total: nat)
    requires i + 2 <= |data| && Same(acc + 0x100 * NumberFrom(data, i), total)
    ensures Same(acc + Word(data[i + 1], data[i]) + 0x100 * NumberFrom(data, i + 2), total)
  {
    var word: nat, swapped: nat := Word(data[i], data[i + 1]), Word(data[i + 1], data[i]);
    var n, rest := NumberFrom(data, i), NumberFrom(data, i + 2);
    NumberOfTwo(data, i);
    ScaleBoth(n, word + rest);
    Replace(acc, 0x100 * n, 0x100 * (word + rest), total);
    WordSwap(data[i], data[i + 1]);
    Symmetric(swapped, 0x100 * word);
    Replace(acc + 0x100 * rest, 0x100 * word, swapped, total);
  }

  lemma FinishSwapped(data: seq<Byte>, acc: U32)
    requires Same(acc, 0x100 * Number(data))
    ensures Fold(Fold(acc)) == RfcSum(data)
    ensures Fold(acc) / 0x1_0000 == 0 ==> Fold(acc) == RfcSum(data)
    ensures Htons(RfcSum(data)) == HostSum(data)
  {
    HtonsIsSwap(RfcSum(data));
    FoldTwice(acc);
    ClassIsRfcSum(data, acc, Fold(Fold(acc)));
  }

  lemma ClassIsRfcSum(data: seq<Byte>, acc: nat, w: U16)
    requires Same(acc, 0x100 * Number(data)) && Same(w, acc)
    ensures w == RfcSum(data)
  {
    var n := 0x100 * Number(data);
    RfcSumClass(data, 0);
    Transitive(w, acc, n);
    Symmetric(RfcSum(data), n);
    Transitive(w, n, RfcSum(data));
    OneMember(w, RfcSum(data));
  }

  /** The common end of versions 2 and 3: the last byte and the end bytes. */
  method AddEnds(b: Buffer, i: nat, acc: U32, thi: Byte, odd: bool) returns (r: U16)
    requires i <= |b.bytes| <= i + 1 && acc <= 0xFFFF_0000
    requires Remaining(b, i, acc + Word(0, thi), Target(b, odd))
    ensures r == HostSum(b.bytes)
  {
    var tlo: Byte := 0;
    if i < |b.bytes| {
      TakeByte(b, acc + Word(0, thi), Target(b, odd));
      tlo := b.bytes[i];
    }
    assert acc + Word(tlo, thi) == acc + Word(0, thi) + tlo as nat;
    NoWrap(acc, Word(tlo, thi));
    r := FoldAndSwap(b, Add32(acc, Word(tlo, thi)), odd);
  }

  method FoldAndSwap(b: Buffer, total: U32, odd: bool) returns (r: U16)
    requires Remaining(b, |b.bytes|, total, Target(b, odd))
    ensures r == HostSum(b.bytes)
  {
    Finish(b, total, odd);
    var sum := Fold(total);
    sum := Fold(sum);
    if odd {
      sum := SwapBytes(sum);
    }
    r := sum;
  }

  /** Version 2, the default: aligned 16-bit loads; `t` collects the odd first and last bytes. */
  method StandardChksum2(b: Buffer) returns (r: U16)
    requires |b.bytes| <= 0x2_0000
    ensures r == HostSum(b.bytes)
  {
    var thi: Byte, sum: U32 := 0, 0;
    var i, len, odd := 0, |b.bytes|, b.addr % 2 != 0;
    ghost var total, half := Target(b, odd), HalfUp(b.addr);
    Start(b);
    if odd && len > 0 {
      StartOdd(b);
      thi := b.bytes[i];
      i, len := i + 1, len - 1;
    }
    ghost var high: nat := Word(0, thi);
    while len > 1
      invariant 0 <= len && i + len == |b.bytes|
      invariant len > 0 ==> b.addr + i == 2 * half
      invariant 2 * sum <= i * 0xFFFF
      invariant Remaining(b, i, sum + high, total)
    {
      Even(b.addr + i, half);
      TakeWord(b, i, sum + high, total);
      NoWrap(sum, Load16(b, i));
      sum := Add32(sum, Load16(b, i));
      i, len, half := i + 2, len - 2, half + 1;
    }
    r := AddEnds(b, i, sum, thi, odd);
  }

  /** `tmp = sum + x`, with the carry added back. */
  method AddCarry(sum: U32, x: U32) returns (tmp: U32)
    ensures Same(tmp, sum + x)
  {
    EndAroundKeeps(sum, x);
    tmp := Add32(sum, x);
    if tmp < sum {
      tmp := tmp + 1;
    }
  }

  /** The unrolled body of version 3: two 32-bit loads. */
  method TakeTwoLongs(b: Buffer, i: nat, sum: U32, ghost high: nat, ghost total: nat) returns (sum': U32)
    requires i + 8 <= |b.bytes| && (b.addr + i) % 4 == 0 && (b.addr + i + 4) % 4 == 0
    requires Remaining(b, i, sum + high, total)
    ensures Remaining(b, i + 8, sum' + high, total)
  {
    hide Same, NumberFrom;
    var tmp := AddCarry(sum, Load32(b, i));
    TakeLong(b, i, sum, tmp, Word(b.bytes[i], b.bytes[i + 1]), Word(b.bytes[i + 2], b.bytes[i + 3]), high, total);
    sum' := AddCarry(tmp, Load32(b, i + 4));
    TakeLong(b, i + 4, tmp, sum', Word(b.bytes[i + 4], b.bytes[i + 5]), Word(b.bytes[i + 6], b.bytes[i + 7]),
             high, total);
  }

  /** The end of version 3: add the remaining words and the last byte. */
  method TakeTail(b: Buffer, start: nat, acc: U32, thi: Byte, odd: bool, ghost startHalf: nat) returns (r: U16)
    requires start <= |b.bytes| <= start + 7 && acc <= 0x1_FFFE
    requires start < |b.bytes| ==> b.addr + start == 2 * startHalf
    requires Remaining(b, start, acc + Word(0, thi), Target(b, odd))
    ensures r == HostSum(b.bytes)
  {
    ghost var total, high: nat, half := Target(b, odd), Word(0, thi), startHalf;
    var i, len := start, |b.bytes| - start;
    var sum: U32 := acc;
    while len > 1
      invariant 0 <= len <= 7 && i + len == |b.bytes|
      invariant len > 0 ==> b.addr + i == 2 * half
      invariant sum <= 0x1_FFFE + (7 - len) * 0xFFFF
      invariant Remaining(b, i, sum + high, total)
    {
      Even(b.addr + i, half);
      TakeWord(b, i, sum + high, total);
      NoWrap(sum, Load16(b, i));
      sum := Add32(sum, Load16(b, i));
      i, len, half := i + 2, len - 2, half + 1;
    }
    r := AddEnds(b, i, sum, thi, odd);
  }

  /** Version 3: 32-bit loads with end-around carry, eight bytes at a time; no length limit. */
  method StandardChksum3(b: Buffer) returns (r: U16)
    ensures r == HostSum(b.bytes)
  {
    var thi: Byte, sum: U32 := 0, 0;
    var i, len, odd := 0, |b.bytes|, b.addr % 2 != 0;
    ghost var total, half := Target(b, odd), HalfUp(b.addr);
    Start(b);
    if odd && len > 0 {
      StartOdd(b);
      thi := b.bytes[i];
      i, len := i + 1, len - 1;
    }
    ghost var high: nat, quarter := Word(0, thi), QuarterUp(half);
    if (b.addr + i) % 4 != 0 && len > 1 {
      Even(b.addr + i, half);
      TakeWord(b, i, high, total);
      sum := Load16(b, i);
      i, len, half := i + 2, len - 2, half + 1;
    }
    while len > 7
      invariant 0 <= len && i + len == |b.bytes|
      invariant len > 1 ==> b.addr + i == 4 * quarter
      invariant len > 0 ==> b.addr + i == 2 * half
      invariant Remaining(b, i, sum + high, total)
    {
      Quad(b.addr + i, quarter);
      Quad(b.addr + i + 4, quarter + 1);
      sum := TakeTwoLongs(b, i, sum, high, total);
      i, len, half, quarter := i + 8, len - 8, half + 4, quarter + 2;
    }
    FoldRemaining(b, i, sum, high, total);
    sum := Fold(sum);
    r := TakeTail(b, i, sum, thi, odd, half);
  }
}
