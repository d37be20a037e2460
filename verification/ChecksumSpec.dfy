/**
 * What the Internet checksum of a message is.
 *
 * `RfcSum` is the definition of section 1 of RFC 1071: adjacent octets are paired
 * into 16-bit integers, an odd tail is padded with zero, and the integers are added
 * with end-around carry.  lwIP returns this sum in the byte order of a little-endian
 * host, which is `HostSum`.
 *
 * `Number` reads a message as one long little-endian number.  The checksum is the
 * residue of that number modulo 65535, which is what makes odd offsets and
 * concatenation tractable.
 */
module ChecksumSpec {
  import opened Words
  import opened OnesComplement

  /** One's complement addition of two words: the carry out is added back in. */
  function OnesAdd(a: U16, b: U16): U16 {
    if a + b > 0xFFFF then a + b - 0xFFFF else a + b
  }

  /** The one's complement sum of the 16-bit integers of `data` from byte `i` on. */
  function RfcSumFrom(data: seq<Byte>, i: nat): U16
    requires i <= |data|
    decreases |data| - i
  {
    if i == |data| then 0
    else if i + 1 == |data| then Word(0, data[i])
    else OnesAdd(Word(data[i + 1], data[i]), RfcSumFrom(data, i + 2))
  }

  function RfcSum(data: seq<Byte>): U16 {
    RfcSumFrom(data, 0)
  }

  function HostSum(data: seq<Byte>): U16 {
    SwapBytes(RfcSum(data))
  }

  /** The bytes of `data` from `i` on, read as a little-endian number. */
  ghost function NumberFrom(data: seq<Byte>, i: nat): nat
    requires i <= |data|
    decreases |data| - i
  {
    if i == |data| then 0 else data[i] as nat + 0x100 * NumberFrom(data, i + 1)
  }

  ghost function Number(data: seq<Byte>): nat {
    NumberFrom(data, 0)
  }

  /** `x` shifted up by `len` bytes, in its class: two bytes make a word. */
  ghost function Shifted(len: nat, x: nat): nat {
    if len % 2 == 0 then x else 0x100 * x
  }

  lemma NumberOfTwo(data: seq<Byte>, i: nat)
    requires i + 2 <= |data|
    ensures Same(NumberFrom(data, i), Word(data[i], data[i + 1]) + NumberFrom(data, i + 2))
  {
    var word: nat, rest := Word(data[i], data[i + 1]), NumberFrom(data, i + 2);
    assert NumberFrom(data, i) == word + 0x1_0000 * rest;
    UpOneWord(rest);
    AddTo(word, 0x1_0000 * rest, rest);
  }

  lemma OnesAddKeeps(a: U16, b: U16)
    ensures Same(OnesAdd(a, b), a + b)
  {
    assert Apart(OnesAdd(a, b), a + b, if a + b > 0xFFFF then -1 else 0);
  }

  lemma WordSwap(x: Byte, y: Byte)
    ensures Same(Word(y, x), 0x100 * Word(x, y))
  {
    assert Apart(Word(y, x), 0x100 * Word(x, y), -(y as int));
  }

  lemma {:induction false} RfcSumClass(data: seq<Byte>, i: nat)
    requires i <= |data|
    ensures Same(RfcSumFrom(data, i), 0x100 * NumberFrom(data, i))
    decreases |data| - i
  {
    if i + 1 >= |data| {
      assert i + 1 == |data| ==> NumberFrom(data, i) == data[i] as nat + 0x100 * NumberFrom(data, i + 1);
      Reflexive(RfcSumFrom(data, i));
    } else {
      var word: nat, rest := Word(data[i], data[i + 1]), NumberFrom(data, i + 2);
      var swapped: U16, tail := Word(data[i + 1], data[i]), RfcSumFrom(data, i + 2);
      OnesAddKeeps(swapped, tail);
      Symmetric(OnesAdd(swapped, tail), swapped + tail);
      RfcSumClass(data, i + 2);
      WordSwap(data[i], data[i + 1]);
      Replace(swapped, tail, 0x100 * rest, OnesAdd(swapped, tail));
      Replace(0x100 * rest, swapped, 0x100 * word, OnesAdd(swapped, tail));
      NumberOfTwo(data, i);
      ScaleBoth(NumberFrom(data, i), word + rest);
      Symmetric(0x100 * (word + rest), OnesAdd(swapped, tail));
      Symmetric(0x100 * NumberFrom(data, i), 0x100 * (word + rest));
      Transitive(OnesAdd(swapped, tail), 0x100 * (word + rest), 0x100 * NumberFrom(data, i));
    }
  }

  lemma HostSumClass(data: seq<Byte>)
    ensures Same(HostSum(data), Number(data))
  {
    RfcSumClass(data, 0);
    SwapUnshifts(RfcSum(data), Number(data));
  }

  lemma ClassIsHostSum(data: seq<Byte>, r: U16)
    requires Same(r, Number(data))
    ensures r == HostSum(data)
  {
    HostSumClass(data);
    Symmetric(HostSum(data), Number(data));
    Transitive(r, Number(data), HostSum(data));
    OneMember(r, HostSum(data));
  }

  /** The checksum of a message is the residue of the message read as a little-endian number. */
  lemma HostSumIsResidue(data: seq<Byte>)
    ensures HostSum(data) == Residue(Number(data))
  {
    ResidueIsSame(Number(data));
    ClassIsHostSum(data, Residue(Number(data)));
  }

  lemma {:induction false} NumberZero(data: seq<Byte>, i: nat)
    requires i <= |data|
    ensures NumberFrom(data, i) == 0 <==> forall j :: i <= j < |data| ==> data[j] == 0
    decreases |data| - i
  {
    if i < |data| {
      NumberZero(data, i + 1);
    }
  }

  /** The sum is 0 only for the all-zero message. */
  lemma ZeroSumMeansZeroBytes(data: seq<Byte>)
    ensures HostSum(data) == 0 <==> forall i :: 0 <= i < |data| ==> data[i] == 0
  {
    HostSumClass(data);
    NumberZero(data, 0);
  }

  /** A number depends on its bytes only, not on where they are. */
  lemma {:induction false} NumberSuffix(a: seq<Byte>, i: nat, b: seq<Byte>, j: nat)
    requires i <= |a| && j <= |b| && |a| - i == |b| - j
    requires forall k :: i <= k < |a| ==> a[k] == b[k - i + j]
    ensures NumberFrom(a, i) == NumberFrom(b, j)
    decreases |a| - i
  {
    if i < |a| {
      NumberSuffix(a, i + 1, b, j + 1);
    }
  }

  lemma NumberConcat(a: seq<Byte>, b: seq<Byte>)
    ensures Same(Number(a + b), Number(a) + Shifted(|a|, Number(b)))
  {
    NumberConcatFrom(a, b, 0);
  }

  lemma {:induction false} NumberConcatFrom(a: seq<Byte>, b: seq<Byte>, i: nat)
    requires i <= |a|
    ensures Same(NumberFrom(a + b, i), NumberFrom(a, i) + Shifted(|a| - i, Number(b)))
    decreases |a| - i
  {
    var n, whole := Number(b), NumberFrom(a + b, i);
    if i == |a| {
      NumberSuffix(a + b, i, b, 0);
      Reflexive(n);
    } else {
      var first: nat, rest, inner := a[i], NumberFrom(a + b, i + 1), NumberFrom(a, i + 1);
      var shifted := Shifted(|a| - i - 1, n);
      NumberConcatFrom(a, b, i + 1);
      ScaleBoth(rest, inner + shifted);
      AddTo(first, 0x100 * rest, 0x100 * (inner + shifted));
      ShiftByte(|a| - i - 1, n);
      AddTo(NumberFrom(a, i), 0x100 * shifted, Shifted(|a| - i, n));
      Transitive(whole, NumberFrom(a, i) + 0x100 * shifted, NumberFrom(a, i) + Shifted(|a| - i, n));
    }
  }

  lemma ShiftByte(len: nat, x: nat)
    ensures Same(0x100 * Shifted(len, x), Shifted(len + 1, x))
  {
    UpOneWord(x);
    Reflexive(0x100 * x);
  }

  ghost function Store(data: seq<Byte>, at: nat, lo: Byte, hi: Byte): seq<Byte>
    requires at + 1 < |data|
  {
    data[at := lo][at + 1 := hi]
  }

  lemma NumberCons(x: Byte, y: Byte, post: seq<Byte>)
    ensures Same(Number([x, y] + post), Word(x, y) + Number(post))
  {
    NumberOfTwo([x, y] + post, 0);
    NumberSuffix([x, y] + post, 2, post, 0);
  }

  /** Storing a word over a zero word at an even offset adds the word to the class of the message. */
  lemma NumberStore(data: seq<Byte>, at: nat, lo: Byte, hi: Byte)
    requires at % 2 == 0 && at + 1 < |data| && data[at] == 0 && data[at + 1] == 0
    ensures Same(Number(Store(data, at, lo, hi)), Word(lo, hi) + Number(data))
  {
    var pre, post := data[..at], data[at + 2..];
    var old', new' := [0, 0] + post, [lo, hi] + post;
    assert data == pre + old' && Store(data, at, lo, hi) == pre + new';
    NumberConcat(pre, old');
    NumberConcat(pre, new');
    NumberCons(0, 0, post);
    NumberCons(lo, hi, post);
    AddInside(Number(pre + old'), Number(pre + new'), Number(pre), Number(old'), Number(new'), Number(post),
              Word(lo, hi));
  }

  lemma AddInside(n: nat, n': nat, p: nat, q: nat, q': nat, rest: nat, w: nat)
    requires Same(n, p + q) && Same(n', p + q') && Same(q, rest) && Same(q', w + rest)
    ensures Same(n', w + n)
  {
    Symmetric(n, p + q);
    Replace(p, q, rest, n);
    Symmetric(n', p + q');
    Replace(p, q', w + rest, n');
    Replace(w, p + rest, n, n');
    Symmetric(w + n, n');
  }
}
