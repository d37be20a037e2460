/**
 * The checksums of src/lwip/inet_chksum.c that protocols store: over one buffer, over
 * a chain of packet buffers, and over a chain with an IPv4 or IPv6 pseudo header.
 *
 * A chain is the sequence of its buffers.  A buffer that starts after an odd number of
 * bytes has its bytes in the other halves of the words; the loops account for this by
 * keeping the accumulator swapped while the number of bytes summed so far is odd.
 */
module PbufChksum {
  import opened Words
  import opened OnesComplement
  import opened ChecksumSpec
  import opened InetChksum

  /** The Internet checksum of a message, in the form that is stored in a protocol header. */
  function Checksum(data: seq<Byte>): U16 {
    Complement16(HostSum(data))
  }

  /** The lengths of buffers are 16-bit. */
  ghost predicate ValidChain(chain: seq<Buffer>) {
    forall k :: 0 <= k < |chain| ==> |chain[k].bytes| <= 0xFFFF
  }

  ghost function Flatten(chain: seq<Buffer>): seq<Byte> {
    if |chain| == 0 then [] else Flatten(chain[..|chain| - 1]) + chain[|chain| - 1].bytes
  }

  /** What `acc` stands for after the bytes `data` on top of `base`. */
  ghost predicate Summed(acc: nat, base: nat, data: seq<Byte>) {
    Same(acc, Shifted(|data|, base + Number(data)))
  }

  lemma SummedStart(acc: nat, base: nat)
    requires Same(acc, base)
    ensures Summed(acc, base, []) && Number([]) == 0
  {
  }

  /** Adding the checksum of the next buffer; the byte order flips later. */
  lemma AddBuffer(acc: nat, base: nat, data: seq<Byte>, bytes: seq<Byte>)
    requires Summed(acc, base, data)
    ensures Same(acc + HostSum(bytes), Shifted(|data|, base + Number(data + bytes)))
  {
    hide Same, NumberFrom;
    HostSumClass(bytes);
    NumberConcat(data, bytes);
    AddClass(|data|, acc, base, Number(data), Number(bytes), Number(data + bytes), HostSum(bytes));
  }

  lemma AddClass(len: nat, acc: nat, base: nat, n: nat, m: nat, both: nat, c: nat)
    requires Same(acc, Shifted(len, base + n)) && Same(c, m) && Same(both, n + Shifted(len, m))
    ensures Same(acc + c, Shifted(len, base + both))
  {
    hide Same;
    var all := base + n + Shifted(len, m);
    Symmetric(both, n + Shifted(len, m));
    AddTo(base, n + Shifted(len, m), both);
    assert Same(all, base + both);
    AddTo(acc, c, m);
    AddTo(m, acc, Shifted(len, base + n));
    Transitive(acc + c, acc + m, Shifted(len, base + n) + m);
    if len % 2 == 0 {
      Transitive(acc + c, all, base + both);
    } else {
      UpOneWord(m);
      Symmetric(0x1_0000 * m, m);
      AddTo(0x100 * (base + n), m, 0x1_0000 * m);
      Transitive(acc + c, 0x100 * (base + n) + m, 0x100 * all);
      ScaleBoth(all, base + both);
      Transitive(acc + c, 0x100 * all, 0x100 * (base + both));
    }
  }

  /** After an odd buffer the accumulator is swapped. */
  lemma SwapBuffer(acc: U16, len: nat, x: nat)
    requires Same(acc, Shifted(len, x))
    ensures Same(SwapBytes(acc), Shifted(len + 1, x))
  {
    hide Same;
    if len % 2 == 0 {
      SwapScales(acc);
      ScaleBoth(acc, x);
      Transitive(SwapBytes(acc), 0x100 * acc as nat, 0x100 * x);
    } else {
      SwapUnshifts(acc, x);
    }
  }

  lemma FoldSum(acc: U32, total: nat)
    requires acc <= 0x1_FFFE && Same(acc, total)
    ensures Fold(acc) <= 0xFFFF && Same(Fold(acc), total)
  {
    hide Same;
    FoldKeeps(acc);
    Transitive(Fold(acc), acc, total);
  }

  lemma SameParity(a: nat, b: nat, x: nat)
    ensures Shifted(a + b, x) == if b % 2 == 0 then Shifted(a, x) else Shifted(a + 1, x)
  {
  }

  /**
   * The body of the loops: add the checksum of the buffer, fold once, and swap if the
   * length of the buffer is odd.  One fold is enough because the accumulator is a
   * 16-bit word before and after.
   */
  method AddPbuf(acc0: U32, q: Buffer, ghost base: nat, ghost data: seq<Byte>) returns (acc: U32)
    requires acc0 <= 0xFFFF && |q.bytes| <= 0xFFFF && Summed(acc0, base, data)
    ensures acc <= 0xFFFF && Summed(acc, base, data + q.bytes)
  {
    hide Same, NumberFrom, Shifted, Fold, SwapBytes, RfcSumFrom;
    var c := StandardChksum2(q);
    NoWrap(acc0, c);
    acc := Add32(acc0, c);
    ghost var x := base + Number(data + q.bytes);
    AddBuffer(acc0, base, data, q.bytes);
    FoldSum(acc, Shifted(|data|, x));
    acc := Fold(acc);
    SameParity(|data|, |q.bytes|, x);
    if |q.bytes| % 2 != 0 {
      SwapBuffer(acc, |data|, x);
      acc := SwapBytes(acc);
    }
  }

  /** The final swap. */
  lemma Unswap(acc: U16, base: nat, data: seq<Byte>)
    requires Summed(acc, base, data)
    ensures Same(if |data| % 2 == 0 then acc else SwapBytes(acc), base + Number(data))
  {
    if |data| % 2 != 0 {
      SwapUnshifts(acc, base + Number(data));
    }
  }

  /** `inet_chksum` */
  method InetChksumBuffer(b: Buffer) returns (r: U16)
    requires |b.bytes| <= 0xFFFF
    ensures r == Checksum(b.bytes)
  {
    var c := StandardChksum2(b);
    r := Complement16(c);
  }

  /** `inet_chksum_pbuf` */
  method InetChksumPbuf(chain: seq<Buffer>) returns (r: U16)
    requires ValidChain(chain)
    ensures r == Checksum(Flatten(chain))
  {
    hide Same, NumberFrom, SwapBytes, RfcSumFrom;
    var acc: U32, swapped := 0, false;
    Reflexive(0);
    SummedStart(0, 0);
    for k := 0 to |chain|
      invariant acc <= 0xFFFF && Summed(acc, 0, Flatten(chain[..k]))
      invariant swapped <==> |Flatten(chain[..k])| % 2 != 0
    {
      assert chain[..k + 1][..k] == chain[..k];
      acc := AddPbuf(acc, chain[k], 0, Flatten(chain[..k]));
      if |chain[k].bytes| % 2 != 0 {
        swapped := !swapped;
      }
    }
    assert chain[..|chain|] == chain;
    Unswap(acc, 0, Flatten(chain));
    if swapped {
      acc := SwapBytes(acc);
    }
    ClassIsHostSum(Flatten(chain), acc);
    r := Complement16(acc);
  }

  /** The bytes of a 16-bit field in network order. */
  function Network16(w: U16): seq<Byte> {
    [w / 0x100, w % 0x100]
  }

  /** IPv4 addresses as the four bytes in memory order, IPv6 addresses as sixteen. */
  type Ip4 = a: seq<Byte> | |a| == 4 witness [0, 0, 0, 0]
  type Ip6 = a: seq<Byte> | |a| == 16 witness [0, 0, 0, 0, 0, 0, 0, 0, 0, 0, 0, 0, 0, 0, 0, 0]

  function Fields4(proto: Byte, protoLen: U16): (f: seq<Byte>)
    ensures |f| == 4
  {
    [0, proto] + Network16(protoLen)
  }

  function Fields6(proto: Byte, protoLen: U16): (f: seq<Byte>)
    ensures |f| == 8
  {
    [0, 0] + Network16(protoLen) + [0, 0, 0, proto]
  }

  /** The pseudo header of section 3.1 of RFC 793. */
  function PseudoHeader4(src: Ip4, dest: Ip4, proto: Byte, protoLen: U16): seq<Byte> {
    src + dest + Fields4(proto, protoLen)
  }

  /** The pseudo header of section 8.1 of RFC 8200. */
  function PseudoHeader6(src: Ip6, dest: Ip6, proto: Byte, protoLen: U16): seq<Byte> {
    src + dest + Fields6(proto, protoLen)
  }

  /** What the protocol and length fields of either pseudo header add. */
  ghost function FieldSum(proto: Byte, protoLen: U16): nat {
    Htons(proto) as nat + Htons(protoLen) as nat
  }

  /** The class of the message that a pseudo checksum covers. */
  ghost function Covered(base: nat, proto: Byte, protoLen: U16, data: seq<Byte>): nat {
    base + Number(data) + FieldSum(proto, protoLen)
  }

  /** The end of both pseudo checksums: add the protocol and length fields, fold twice, invert. */
  method AddFields(acc0: U32, proto: Byte, protoLen: U16, ghost base: nat, ghost data: seq<Byte>) returns (r: U16)
    requires acc0 <= 0xFFFF && Same(acc0, base + Number(data))
    ensures Same(Complement16(r), Covered(base, proto, protoLen, data))
  {
    hide Same, NumberFrom, Fold, Htons;
    NoWrap(acc0, Htons(proto));
    var acc: U32 := Add32(acc0, Htons(proto));
    NoWrap(acc, Htons(protoLen));
    acc := Add32(acc, Htons(protoLen));
    AddTo(FieldSum(proto, protoLen), acc0, base + Number(data));
    FoldTwice(acc);
    Transitive(Fold(Fold(acc)), acc, Covered(base, proto, protoLen, data));
    acc := Fold(acc);
    acc := Fold(acc);
    r := Complement16(acc);
  }

  /** `inet_cksum_pseudo_base` */
  method PseudoBase(chain: seq<Buffer>, proto: Byte, protoLen: U16, acc0: U32, ghost base: nat) returns (r: U16)
    requires ValidChain(chain) && acc0 <= 0xFFFF && Same(acc0, base)
    ensures Same(Complement16(r), Covered(base, proto, protoLen, Flatten(chain)))
  {
    hide Same, NumberFrom, SwapBytes, RfcSumFrom;
    var acc: U32, swapped := acc0, false;
    SummedStart(acc, base);
    for k := 0 to |chain|
      invariant acc <= 0xFFFF && Summed(acc, base, Flatten(chain[..k]))
      invariant swapped <==> |Flatten(chain[..k])| % 2 != 0
    {
      assert chain[..k + 1][..k] == chain[..k];
      acc := AddPbuf(acc, chain[k], base, Flatten(chain[..k]));
      if |chain[k].bytes| % 2 != 0 {
        swapped := !swapped;
      }
    }
    assert chain[..|chain|] == chain;
    Unswap(acc, base, Flatten(chain));
    if swapped {
      acc := SwapBytes(acc);
    }
    r := AddFields(acc, proto, protoLen, base, Flatten(chain));
  }

  /** The first `len` bytes of `data`, or all of it. */
  ghost function Prefix(data: seq<Byte>, len: nat): seq<Byte> {
    if len < |data| then data[..len] else data
  }

  /** When the assertion on the remaining length (line 419) holds for every buffer visited. */
  predicate RemainderSmall(chain: seq<Buffer>, chksumLen: U16) {
    |chain| == 0 || chksumLen < 0x7fff + |chain[0].bytes|
  }

  lemma FlattenPrefix(chain: seq<Buffer>, k: nat)
    requires k <= |chain|
    ensures Flatten(chain[..k]) <= Flatten(chain)
    decreases |chain| - k
  {
    if k == |chain| {
      assert chain[..k] == chain;
    } else {
      assert chain[..k + 1][..k] == chain[..k];
      FlattenPrefix(chain, k + 1);
    }
  }

  /** The summed form of `acc`: a pending swap undone. */
  function Settled(acc: U16, swapped: bool): U16 {
    if swapped then SwapBytes(acc) else acc
  }

  /** Whatever the length of the buffer, the pending swaps cancel. */
  lemma PartCancels(acc: U16, odd: bool, flip: bool)
    ensures Settled(if flip then SwapBytes(acc) else acc, if flip then !odd else odd) == Settled(acc, odd)
  {
    SwapTwice(acc);
  }

  lemma SettledSum(acc: U16, len: nat, x: nat)
    requires Same(acc, Shifted(len, x))
    ensures Same(Settled(acc, len % 2 != 0), x)
  {
    if len % 2 != 0 {
      SwapUnshifts(acc, x);
    }
  }

  /** The swap after a buffer: the settled sum is right at once, the accumulator itself for the whole buffer. */
  lemma PartStep(acc: U16, len: nat, add: nat, x: nat)
    requires Same(acc, Shifted(len, x))
    ensures add % 2 == 0 ==> Same(Settled(acc, len % 2 != 0), x) && Same(acc, Shifted(len + add, x))
    ensures add % 2 != 0 ==> Same(Settled(SwapBytes(acc), len % 2 == 0), x) &&
                               Same(SwapBytes(acc), Shifted(len + add, x))
  {
    hide Same;
    PartCancels(acc, len % 2 != 0, add % 2 != 0);
    SettledSum(acc, len, x);
    SameParity(len, add, x);
    SwapBuffer(acc, len, x);
  }

  /** Adding a part of a buffer and folding, before the swap. */
  method AddPart(acc0: U32, q: Buffer, chklen: nat, ghost base: nat, ghost data: seq<Byte>) returns (acc: U32)
    requires acc0 <= 0xFFFF && chklen <= |q.bytes| <= 0xFFFF && Summed(acc0, base, data)
    ensures acc <= 0xFFFF && Same(acc, Shifted(|data|, base + Number(data + q.bytes[..chklen])))
  {
    hide Same, NumberFrom, Shifted, Fold, RfcSumFrom;
    var c := StandardChksum2(Buffer(q.addr, q.bytes[..chklen]));
    NoWrap(acc0, c);
    acc := Add32(acc0, c);
    AddBuffer(acc0, base, data, q.bytes[..chklen]);
    FoldSum(acc, Shifted(|data|, base + Number(data + q.bytes[..chklen])));
    acc := Fold(acc);
  }

  /**
   * `inet_cksum_pseudo_partial_base`.  The swap is decided by the length of the whole
   * buffer also where only a part of it is summed; that is the last buffer visited, and
   * the final swap undoes it.  `asserted` is whether the assertion in the loop held.
   */
  method PseudoPartialBase(chain: seq<Buffer>, proto: Byte, protoLen: U16, chksumLen0: U16, acc0: U32, ghost base: nat)
    returns (r: U16, asserted: bool)
    requires ValidChain(chain) && acc0 <= 0xFFFF && Same(acc0, base)
    ensures Same(Complement16(r), Covered(base, proto, protoLen, Prefix(Flatten(chain), chksumLen0)))
    ensures asserted <==> chksumLen0 == 0 || RemainderSmall(chain, chksumLen0)
  {
    hide Same, NumberFrom, SwapBytes, RfcSumFrom, Fold, Shifted, Covered;
    var acc: U32, swapped, chksumLen: U16, k := acc0, false, chksumLen0, 0;
    asserted := true;
    ghost var done: seq<Byte> := [];
    SummedStart(acc, base);
    assert Settled(acc, swapped) == acc;
    while k < |chain| && chksumLen > 0
      invariant 0 <= k <= |chain| && acc <= 0xFFFF && |done| + chksumLen == chksumLen0
      invariant done <= Flatten(chain[..k])
      invariant Same(Settled(acc, swapped), base + Number(done))
      invariant chksumLen > 0 ==> done == Flatten(chain[..k]) && Summed(acc, base, done)
      invariant chksumLen > 0 ==> (swapped <==> |done| % 2 != 0)
      invariant k == 0 ==> asserted
      invariant k > 0 ==> (asserted <==> RemainderSmall(chain, chksumLen0)) && (asserted ==> chksumLen < 0x7fff)
    {
      var q := chain[k];
      var chklen := |q.bytes|;
      if chklen > chksumLen {
        chklen := chksumLen;
      }
      ghost var next := done + q.bytes[..chklen];
      ghost var x := base + Number(next);
      acc := AddPart(acc, q, chklen, base, done);
      chksumLen := chksumLen - chklen;
      asserted := asserted && chksumLen < 0x7fff;
      PartStep(acc, |done|, |q.bytes|, x);
      if |q.bytes| % 2 != 0 {
        swapped := !swapped;
        acc := SwapBytes(acc);
      }
      assert chain[..k + 1][..k] == chain[..k];
      assert chksumLen > 0 ==> q.bytes[..chklen] == q.bytes;
      done, k := next, k + 1;
    }
    FlattenPrefix(chain, k);
    assert chain[..|chain|] == chain;
    assert done == Prefix(Flatten(chain), chksumLen0);
    if swapped {
      acc := SwapBytes(acc);
    }
    r := AddFields(acc, proto, protoLen, base, done);
  }

  lemma EvenConcat(a: seq<Byte>, b: seq<Byte>)
    requires |a| % 2 == 0
    ensures Same(Number(a + b), Number(a) + Number(b))
  {
    NumberConcat(a, b);
  }

  lemma FourBytes(a: Byte, b: Byte, c: Byte, d: Byte)
    ensures Same(Number([a, b, c, d]), Word(a, b) + Word(c, d))
  {
    NumberCons(a, b, [c, d]);
    NumberCons(c, d, []);
    assert [a, b, c, d] == [a, b] + [c, d] && [c, d] == [c, d] + [];
    Replace2(Number([a, b, c, d]), Word(a, b), Number([c, d]), Word(c, d));
  }

  lemma Replace2(n: nat, head: nat, x: nat, y: nat)
    requires Same(n, head + x) && Same(x, y)
    ensures Same(n, head + y)
  {
    AddTo(head, x, y);
    Transitive(n, head + x, head + y);
  }

  lemma FieldBytes(proto: Byte, protoLen: U16)
    ensures FieldSum(proto, protoLen) == Word(0, proto) + Word(protoLen / 0x100, protoLen % 0x100)
  {
  }

  /** The header and the payload, both of even length before the payload, add up field by field. */
  lemma HeaderClass(src: seq<Byte>, dest: seq<Byte>, fields: seq<Byte>, data: seq<Byte>, f: nat, c: U16)
    requires |src| % 2 == 0 && |dest| % 2 == 0 && |fields| % 2 == 0
    requires Same(Number(fields), f)
    requires Same(Complement16(c), Number(src) + Number(dest) + Number(data) + f)
    ensures c == Checksum(src + dest + fields + data)
  {
    hide Same, NumberFrom, RfcSumFrom, SwapBytes;
    var header := src + dest + fields;
    EvenConcat(src, dest);
    EvenConcat(src + dest, fields);
    EvenConcat(header, data);
    HeaderSum(Number(src + dest), Number(header), Number(header + data),
              Number(src) + Number(dest), Number(fields), f, Number(data), Complement16(c));
    ClassIsHostSum(header + data, Complement16(c));
  }

  lemma HeaderSum(addrs: nat, header: nat, all: nat, a: nat, fields: nat, f: nat, data: nat, c: nat)
    requires Same(addrs, a) && Same(header, addrs + fields) && Same(all, header + data)
    requires Same(fields, f) && Same(c, a + data + f)
    ensures Same(c, all)
  {
    hide Same;
    Symmetric(all, header + data);
    Replace(data, header, addrs + fields, all);
    Replace(data + addrs, fields, f, all);
    Replace(data + f, addrs, a, all);
    Transitive(c, a + data + f, all);
  }

  /** The 32-bit value that the four address bytes from `i` on are loaded as. */
  function AddrWord(a: seq<Byte>, i: nat): U32
    requires i + 4 <= |a|
  {
    Word(a[i], a[i + 1]) as int + 0x1_0000 * Word(a[i + 2], a[i + 3]) as int
  }

  lemma AddrHalves(a: seq<Byte>, i: nat)
    requires i + 4 <= |a|
    ensures AddrWord(a, i) % 0x1_0000 == Word(a[i], a[i + 1])
    ensures AddrWord(a, i) / 0x1_0000 % 0x1_0000 == Word(a[i + 2], a[i + 3])
  {
  }

  lemma AddrClass(a: seq<Byte>, i: nat, lo: nat, hi: nat, sum: nat, total: nat)
    requires i + 4 <= |a| && lo == Word(a[i], a[i + 1]) && hi == Word(a[i + 2], a[i + 3])
    requires Same(sum + NumberFrom(a, i), total)
    ensures Same(sum + lo + hi + NumberFrom(a, i + 4), total)
  {
    NumberOfTwo(a, i);
    NumberOfTwo(a, i + 2);
    Replace(sum, NumberFrom(a, i), lo + NumberFrom(a, i + 2), total);
    Replace(sum + lo, NumberFrom(a, i + 2), hi + NumberFrom(a, i + 4), total);
  }

  /** Both halves of one address word. */
  method AddAddr(acc0: U32, a: seq<Byte>, i: nat, ghost rest: nat, ghost total: nat) returns (acc: U32)
    requires i + 4 <= |a| && acc0 <= 0x10_0000
    requires Same(acc0 + rest + NumberFrom(a, i), total)
    ensures acc <= acc0 + 0x1_FFFE && Same(acc + rest + NumberFrom(a, i + 4), total)
  {
    hide Same, NumberFrom;
    var addr := AddrWord(a, i);
    AddrHalves(a, i);
    acc := acc0 + addr % 0x1_0000;
    acc := acc + addr / 0x1_0000 % 0x1_0000;
    AddrClass(a, i, Word(a[i], a[i + 1]), Word(a[i + 2], a[i + 3]), acc0 + rest, total);
  }

  /** The addresses summed and folded, as `inet_chksum_pseudo` does. */
  method SumAddrs4(src: Ip4, dest: Ip4) returns (acc: U32)
    ensures acc <= 0xFFFF && Same(acc, Number(src) + Number(dest))
  {
    hide Same, Fold;
    ghost var total := Number(src) + Number(dest);
    Reflexive(total);
    acc := AddAddr(0, src, 0, NumberFrom(dest, 0), total);
    acc := AddAddr(acc, dest, 0, NumberFrom(src, 4), total);
    FoldTwice(acc);
    Transitive(Fold(Fold(acc)), acc, total);
    acc := Fold(acc);
    acc := Fold(acc);
  }

  /** The addresses summed and folded, as `ip6_chksum_pseudo` does: one word of each in turn. */
  method SumAddrs6(src: Ip6, dest: Ip6) returns (acc: U32)
    ensures acc <= 0xFFFF && Same(acc, Number(src) + Number(dest))
  {
    hide Same, Fold, NumberFrom;
    ghost var total := Number(src) + Number(dest);
    acc := 0;
    Reflexive(total);
    for part := 0 to 4
      invariant acc <= part * 0x3_FFFC
      invariant Same(acc + NumberFrom(src, 4 * part) + NumberFrom(dest, 4 * part), total)
    {
      acc := AddAddr(acc, src, 4 * part, NumberFrom(dest, 4 * part), total);
      acc := AddAddr(acc, dest, 4 * part, NumberFrom(src, 4 * part + 4), total);
    }
    NumberEnd(src, 16);
    NumberEnd(dest, 16);
    FoldTwice(acc);
    Transitive(Fold(Fold(acc)), acc, total);
    acc := Fold(acc);
    acc := Fold(acc);
  }

  lemma NumberEnd(a: seq<Byte>, n: nat)
    requires |a| == n
    ensures NumberFrom(a, n) == 0
  {
  }

  lemma Fields4Class(proto: Byte, protoLen: U16)
    ensures Same(Number(Fields4(proto, protoLen)), FieldSum(proto, protoLen))
  {
    hide Same, NumberFrom, FieldSum;
    var hi: Byte, lo: Byte := protoLen / 0x100, protoLen % 0x100;
    FieldBytes(proto, protoLen);
    FourBytes(0, proto, hi, lo);
    assert Fields4(proto, protoLen) == [0, proto, hi, lo];
  }

  lemma Fields6Class(proto: Byte, protoLen: U16)
    ensures Same(Number(Fields6(proto, protoLen)), FieldSum(proto, protoLen))
  {
    hide Same, NumberFrom, FieldSum;
    var hi: Byte, lo: Byte := protoLen / 0x100, protoLen % 0x100;
    var front, back: seq<Byte> := [0, 0, hi, lo], [0, 0, 0, proto];
    FieldBytes(proto, protoLen);
    FourBytes(0, 0, hi, lo);
    FourBytes(0, 0, 0, proto);
    EvenConcat(front, back);
    assert Fields6(proto, protoLen) == front + back;
    assert Word(0, 0) == 0;
    Replace2(Number(front + back), Number(front), Number(back), Word(0, proto));
    Replace2(Number(front + back), Word(0, proto), Number(front), Word(hi, lo));
  }

  /** `inet_chksum_pseudo` */
  method InetChksumPseudo(chain: seq<Buffer>, proto: Byte, protoLen: U16, src: Ip4, dest: Ip4) returns (r: U16)
    requires ValidChain(chain)
    ensures r == Checksum(PseudoHeader4(src, dest, proto, protoLen) + Flatten(chain))
  {
    hide Same, NumberFrom, RfcSumFrom, SwapBytes, Fields4, Fields6, FieldSum;
    var acc := SumAddrs4(src, dest);
    r := PseudoBase(chain, proto, protoLen, acc, Number(src) + Number(dest));
    Fields4Class(proto, protoLen);
    HeaderClass(src, dest, Fields4(proto, protoLen), Flatten(chain), FieldSum(proto, protoLen), r);
  }

  /** `ip6_chksum_pseudo` */
  method Ip6ChksumPseudo(chain: seq<Buffer>, proto: Byte, protoLen: U16, src: Ip6, dest: Ip6) returns (r: U16)
    requires ValidChain(chain)
    ensures r == Checksum(PseudoHeader6(src, dest, proto, protoLen) + Flatten(chain))
  {
    hide Same, NumberFrom, RfcSumFrom, SwapBytes, Fields4, Fields6, FieldSum;
    var acc := SumAddrs6(src, dest);
    r := PseudoBase(chain, proto, protoLen, acc, Number(src) + Number(dest));
    Fields6Class(proto, protoLen);
    HeaderClass(src, dest, Fields6(proto, protoLen), Flatten(chain), FieldSum(proto, protoLen), r);
  }

  /** `inet_chksum_pseudo_partial`: the checksum over the first `chksumLen` bytes of the chain. */
  method InetChksumPseudoPartial(chain: seq<Buffer>, proto: Byte, protoLen: U16, chksumLen: U16, src: Ip4, dest: Ip4)
    returns (r: U16, asserted: bool)
    requires ValidChain(chain)
    ensures r == Checksum(PseudoHeader4(src, dest, proto, protoLen) + Prefix(Flatten(chain), chksumLen))
    ensures asserted <==> chksumLen == 0 || RemainderSmall(chain, chksumLen)
  {
    hide Same, NumberFrom, RfcSumFrom, SwapBytes, Fields4, Fields6, FieldSum;
    var acc := SumAddrs4(src, dest);
    r, asserted := PseudoPartialBase(chain, proto, protoLen, chksumLen, acc, Number(src) + Number(dest));
    Fields4Class(proto, protoLen);
    HeaderClass(src, dest, Fields4(proto, protoLen), Prefix(Flatten(chain), chksumLen), FieldSum(proto, protoLen), r);
  }

  /** `ip6_chksum_pseudo_partial` */
  method Ip6ChksumPseudoPartial(chain: seq<Buffer>, proto: Byte, protoLen: U16, chksumLen: U16, src: Ip6, dest: Ip6)
    returns (r: U16, asserted: bool)
    requires ValidChain(chain)
    ensures r == Checksum(PseudoHeader6(src, dest, proto, protoLen) + Prefix(Flatten(chain), chksumLen))
    ensures asserted <==> chksumLen == 0 || RemainderSmall(chain, chksumLen)
  {
    hide Same, NumberFrom, RfcSumFrom, SwapBytes, Fields4, Fields6, FieldSum;
    var acc := SumAddrs6(src, dest);
    r, asserted := PseudoPartialBase(chain, proto, protoLen, chksumLen, acc, Number(src) + Number(dest));
    Fields6Class(proto, protoLen);
    HeaderClass(src, dest, Fields6(proto, protoLen), Prefix(Flatten(chain), chksumLen),
                FieldSum(proto, protoLen), r);
  }

  /**
   * The assertion in the loop can fail on a call that sums correctly: the first buffer is
   * empty, as when its header was stripped, and 0x7fff bytes follow in the second.
   */
  method PartialAssertCanFail(q: Buffer, proto: Byte, src: Ip4, dest: Ip4) returns (r: U16, asserted: bool)
    requires |q.bytes| == 0x7fff
    ensures r == Checksum(PseudoHeader4(src, dest, proto, 0x7fff) + q.bytes) && !asserted
  {
    var chain := [Buffer(0, []), q];
    assert Flatten(chain) == q.bytes by {
      assert chain[..1] == [Buffer(0, [])] && chain[..1][..0] == [];
      assert Flatten(chain[..1]) == [] && Flatten(chain) == Flatten(chain[..1]) + q.bytes;
    }
    r, asserted := InetChksumPseudoPartial(chain, proto, 0x7fff, 0x7fff, src, dest);
  }

  /** A message whose computed checksum is stored in its zeroed, even-offset field checks to zero. */
  lemma StoredChecksumVerifies(data: seq<Byte>, at: nat, lo: Byte, hi: Byte)
    requires at % 2 == 0 && at + 1 < |data| && data[at] == 0 && data[at + 1] == 0
    requires Word(lo, hi) == Checksum(data)
    ensures Checksum(Store(data, at, lo, hi)) == 0
  {
    hide Same, NumberFrom, RfcSumFrom, SwapBytes;
    var stored := Store(data, at, lo, hi);
    NumberStore(data, at, lo, hi);
    HostSumClass(data);
    HostSumClass(stored);
    Transitive(HostSum(stored), Number(stored), Word(lo, hi) + Number(data));
    ComplementCancels(Number(data), HostSum(data), HostSum(stored));
  }

  lemma EvenSum(a: nat, b: nat)
    requires a % 2 == 0 && b % 2 == 0
    ensures (a + b) % 2 == 0
  {
  }

  /** The same for a field of a payload behind a pseudo header, whatever buffers hold the payload. */
  lemma StoredPseudoVerifies(header: seq<Byte>, data: seq<Byte>, at: nat, lo: Byte, hi: Byte)
    requires |header| % 2 == 0 && at % 2 == 0 && at + 1 < |data| && data[at] == 0 && data[at + 1] == 0
    requires Word(lo, hi) == Checksum(header + data)
    ensures Checksum(header + Store(data, at, lo, hi)) == 0
  {
    hide Checksum;
    EvenSum(|header|, at);
    StoredChecksumVerifies(header + data, |header| + at, lo, hi);
    assert Store(header + data, |header| + at, lo, hi) == header + Store(data, at, lo, hi);
  }
}
