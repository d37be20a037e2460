/**
 * Names in DNS messages (src/lwip/dns.c; sections 3.1 and 4.1.4 of RFC 1035): the
 * encoder of `dns_send` and the walkers `dns_compare_name` and `dns_skip_name`.
 * A packet is at most 0xFFFF bytes; 0xFFFF as an offset means failure.
 */
module DnsNames {
  import opened Words
  import opened CaseFold

  const FAILED: U16 := 0xFFFF
  const DOT: Byte := '.' as int

  type Packet = p: seq<Byte> | |p| <= 0xFFFF

  /** `pbuf_try_get_at` */
  function TryGet(p: Packet, at: nat): int {
    if at < |p| then p[at] else -1
  }

  // Skipping a name.

  /** Where a name that starts at `at` ends; a compression pointer ends it. */
  function NameEnd(p: Packet, at: nat): (end: U16)
    ensures end == FAILED || at + 2 <= end
    decreases |p| - at
  {
    if at >= |p| then FAILED
    else if p[at] >= 0xC0 then (if at + 1 == 0xFFFF then FAILED else at + 2)
    else
      var next := at + 1 + p[at];
      if next >= |p| then FAILED else if p[next] == 0 then next + 1 else NameEnd(p, next)
  }

  /** `dns_skip_name` */
  method SkipName(p: Packet, start: U16) returns (r: U16)
    ensures r == NameEnd(p, start)
    ensures r != FAILED ==> start + 2 <= r
  {
    var offset: U16 := start;
    while true
      invariant start <= offset && NameEnd(p, start) == NameEnd(p, offset)
      decreases |p| - offset
    {
      var n := TryGet(p, offset);
      offset := (offset + 1) % 0x1_0000;
      if n < 0 || offset == 0 {
        return FAILED;
      }
      if n >= 0xC0 {
        break;
      }
      if offset + n >= |p| {
        return FAILED;
      }
      offset := offset + n;
      n := TryGet(p, offset);
      if n < 0 {
        return FAILED;
      }
      if n == 0 {
        break;
      }
    }
    if offset == 0xFFFF {
      return FAILED;
    }
    return offset + 1;
  }

  // Comparing a name with a host name.

  /** The memory from the host name on; it is read through a pointer and may be read past its end. */
  type Text = nat -> Byte

  /** The label of `n` bytes at `at` agrees up to case with the text from `q` on. */
  ghost predicate LabelAgrees(text: Text, q: nat, p: Packet, at: nat, n: nat)
    requires at + n <= |p|
  {
    forall j :: at <= j < at + n ==> Lower(p[j]) == Lower(text(q + j - at))
  }

  /** Where a name that starts at `at` and agrees label by label with the text from `q` on ends. */
  ghost function MatchEnd(text: Text, q: nat, p: Packet, at: nat): U16
    decreases |p| - at
  {
    if at >= |p| || p[at] >= 0xC0 then FAILED
    else
      var n := p[at];
      var next := at + 1 + n;
      if next >= |p| || !LabelAgrees(text, q, p, at + 1, n) then FAILED
      else if p[next] == 0 then next + 1
      else MatchEnd(text, q + n + 1, p, next)
  }

  /** `dns_compare_name` */
  method CompareName(text: Text, p: Packet, start: U16) returns (r: U16)
    ensures r == MatchEnd(text, 0, p, start)
  {
    var offset: U16, q := start, 0;
    while true
      invariant start <= offset && MatchEnd(text, 0, p, start) == MatchEnd(text, q, p, offset)
      decreases |p| - offset
    {
      var n := TryGet(p, offset);
      if n < 0 || offset == 0xFFFF {
        return FAILED;
      }
      ghost var q0, at := q, offset;
      offset := offset + 1;
      if n >= 0xC0 {
        return FAILED;
      }
      ghost var len := n;
      while n > 0
        invariant 0 <= n <= len && offset == at + 1 + (len - n) <= |p| && q == q0 + (len - n)
        invariant LabelAgrees(text, q0, p, at + 1, len - n)
      {
        var c := TryGet(p, offset);
        if c < 0 {
          return FAILED;
        }
        if Lower(text(q)) != Lower(c) {
          assert p[offset] == c && q == q0 + offset - (at + 1);
          return FAILED;
        }
        if offset == 0xFFFF {
          return FAILED;
        }
        offset, q, n := offset + 1, q + 1, n - 1;
      }
      q := q + 1;
      n := TryGet(p, offset);
      if n < 0 {
        return FAILED;
      }
      assert LabelAgrees(text, q0, p, at + 1, len);
      if n == 0 {
        break;
      }
    }
    if offset == 0xFFFF {
      return FAILED;
    }
    return offset + 1;
  }

  /** Both walkers move forward: an accepted name takes at least two bytes and stays inside the packet. */
  lemma {:induction false} MatchBounds(text: Text, q: nat, p: Packet, at: nat)
    ensures MatchEnd(text, q, p, at) != FAILED ==> at + 2 <= MatchEnd(text, q, p, at) <= |p|
    decreases |p| - at
  {
    if at < |p| && p[at] < 0xC0 {
      var next := at + 1 + p[at];
      if next < |p| {
        MatchBounds(text, q + p[at] + 1, p, next);
      }
    }
  }

  /** Wherever the comparison accepts, the skipper ends at the same offset. */
  lemma {:induction false} MatchIsSkipped(text: Text, q: nat, p: Packet, at: nat)
    ensures MatchEnd(text, q, p, at) != FAILED ==> NameEnd(p, at) == MatchEnd(text, q, p, at)
    decreases |p| - at
  {
    if at < |p| && p[at] < 0xC0 {
      var next := at + 1 + p[at];
      if next < |p| && LabelAgrees(text, q, p, at + 1, p[at]) {
        MatchIsSkipped(text, q + p[at] + 1, p, next);
      }
    }
  }

  // Encoding a host name.

  /** A host name as the table holds it: at most 255 bytes, none of them zero. */
  type HostName = s: seq<Byte> | |s| <= 255 && forall i :: 0 <= i < |s| ==> s[i] != 0

  /** Where the label that contains index `i` ends: at the next dot or at the end of the name. */
  function LabelEnd(name: HostName, i: nat): (e: nat)
    requires i <= |name|
    ensures i <= e <= |name| && (e < |name| ==> name[e] == DOT)
    ensures forall j :: i <= j < e ==> name[j] != DOT
    decreases |name| - i
  {
    if i == |name| || name[i] == DOT then i else LabelEnd(name, i + 1)
  }

  /** The length of the label that starts at `i`. */
  function LabelLength(name: HostName, i: nat): Byte
    requires i <= |name|
  {
    LabelEnd(name, i) - i
  }

  /**
   * The encoded name, byte by byte: the length of the first label, then the name with
   * every dot replaced by the length of the label after it, then zero.
   */
  function EncodedByte(name: HostName, k: nat): Byte
    requires k <= |name| + 1
  {
    if k == 0 then LabelLength(name, 0)
    else if k == |name| + 1 then 0
    else if name[k - 1] == DOT then LabelLength(name, k)
    else name[k - 1]
  }

  function EncodedName(name: HostName): (e: seq<Byte>)
    ensures |e| == |name| + 2 && forall k :: 0 <= k < |e| ==> e[k] == EncodedByte(name, k)
  {
    seq(|name| + 2, k requires 0 <= k <= |name| + 1 => EncodedByte(name, k))
  }

  /** The query for the address of `name`: header, encoded name, type A, class IN. */
  function QueryMessage(name: HostName, txid: U16): seq<Byte> {
    [txid / 0x100, txid % 0x100, 1, 0, 0, 1, 0, 0, 0, 0, 0, 0] + EncodedName(name) + [0, 1, 0, 1]
  }

  /** `pbuf_take_at`: copies `n` bytes of `name` from `from` on to the buffer. */
  method TakeAt(buf: array<Byte>, name: HostName, from: nat, n: nat, at: nat)
    requires from + n <= |name| && at + n <= buf.Length
    modifies buf
    ensures forall m :: 0 <= m < buf.Length ==> buf[m] == if at <= m < at + n then name[from + m - at] else old(buf[m])
  {
    for j := 0 to n
      invariant forall m :: 0 <= m < buf.Length ==>
        buf[m] == if at <= m < at + j then name[from + m - at] else old(buf[m])
    {
      buf[at + j] := name[from + j];
    }
  }

  ghost predicate FilledTo(buf: seq<Byte>, name: HostName, header: seq<Byte>, k: nat)
    requires 12 + k <= |buf| && k <= |name| + 2
  {
    buf[..12] == header && forall m :: 12 <= m < 12 + k ==> buf[m] == EncodedByte(name, m - 12)
  }

  /** One label: its length and its bytes, written after everything before it. */
  method PutLabel(buf: array<Byte>, name: HostName, part: nat, ghost header: seq<Byte>) returns (hostname: nat)
    requires buf.Length == 12 + |name| + 2 + 4 && part <= |name| && (part > 0 ==> name[part - 1] == DOT)
    requires FilledTo(buf[..], name, header, part)
    modifies buf
    ensures hostname == LabelEnd(name, part) && FilledTo(buf[..], name, header, hostname + 1)
  {
    hostname := part;
    var n: Byte := 0;
    while hostname < |name| && name[hostname] != DOT
      invariant part <= hostname <= LabelEnd(name, part) && n == hostname - part
    {
      hostname, n := hostname + 1, n + 1;
    }
    var queryIdx := 12 + part;
    assert queryIdx + n + 1 <= 0xFFFF;
    ghost var before := buf[..];
    buf[queryIdx] := n;
    TakeAt(buf, name, part, hostname - part, queryIdx + 1);
    assert buf[..12] == before[..12];
    forall m | 12 <= m < 12 + hostname + 1 ensures buf[m] == EncodedByte(name, m - 12) {
      if m < queryIdx {
        assert buf[m] == before[m];
      }
    }
  }

  /** The terminating zero and the type and class of the question. */
  method PutTail(buf: array<Byte>, name: HostName, ghost header: seq<Byte>)
    requires buf.Length == 12 + |name| + 2 + 4 && FilledTo(buf[..], name, header, |name| + 1)
    modifies buf
    ensures buf[..] == header + EncodedName(name) + [0, 1, 0, 1]
  {
    hide LabelLength;
    ghost var before := buf[..];
    var queryIdx := 12 + |name| + 1;
    buf[queryIdx] := 0;
    queryIdx := queryIdx + 1;
    buf[queryIdx], buf[queryIdx + 1], buf[queryIdx + 2], buf[queryIdx + 3] := 0, 1, 0, 1;
    assert buf[..12] == before[..12];
    assert forall m :: 12 <= m < 12 + |name| + 1 ==> buf[m] == before[m];
    assert buf[12..12 + |name| + 2] == EncodedName(name);
    assert buf[12 + |name| + 2..] == [0, 1, 0, 1];
    assert buf[..] == buf[..12] + buf[12..12 + |name| + 2] + buf[12 + |name| + 2..];
  }

  /**
   * The part of `dns_send` that fills the query.  The buffer has the size that is
   * allocated for it; every write is inside it and the writes fill it exactly.
   */
  method FillQuery(name: HostName, txid: U16) returns (buf: array<Byte>)
    ensures fresh(buf) && buf.Length == 12 + |name| + 2 + 4
    ensures buf[..] == QueryMessage(name, txid)
  {
    hide EncodedByte, LabelLength;
    buf := new Byte[12 + |name| + 2 + 4](_ => 0);
    buf[0], buf[1], buf[2], buf[5] := txid / 0x100, txid % 0x100, 1, 1;
    ghost var header: seq<Byte> := [txid / 0x100, txid % 0x100, 1, 0, 0, 1, 0, 0, 0, 0, 0, 0];
    assert buf[..12] == header;
    var hostname := PutLabel(buf, name, 0, header);
    while hostname < |name|
      invariant hostname <= |name| && (hostname < |name| ==> name[hostname] == DOT)
      invariant FilledTo(buf[..], name, header, hostname + 1)
      decreases |name| - hostname
    {
      hostname := PutLabel(buf, name, hostname + 1, header);
    }
    PutTail(buf, name, header);
  }

  // The comparison on the resolver's own encoding.

  /** Byte `k` of a letter-case variant of the encoding of `name`: lengths and the final zero are kept. */
  ghost predicate VariantByte(name: HostName, k: nat, b: Byte)
    requires k <= |name| + 1
  {
    if k == 0 || k == |name| + 1 || name[k - 1] == DOT then b == EncodedByte(name, k)
    else Lower(b) == Lower(name[k - 1])
  }

  /** The packet holds such a variant from `start` on. */
  ghost predicate HoldsVariant(name: HostName, p: Packet, start: nat) {
    && start + |name| + 2 <= |p|
    && forall j :: start <= j < start + |name| + 2 ==> VariantByte(name, j - start, p[j])
  }

  ghost predicate Spells(text: Text, name: HostName) {
    forall i :: 0 <= i < |name| ==> text(i) == name[i]
  }

  ghost predicate LabelStart(name: HostName, i: nat) {
    i <= |name| && (i > 0 ==> name[i - 1] == DOT)
  }

  /** Every label is shorter than 192 bytes and every label but the first is non-empty. */
  ghost predicate PlainLabels(name: HostName) {
    forall i :: LabelStart(name, i) ==> LabelLength(name, i) < 0xC0 && (i > 0 ==> LabelLength(name, i) > 0)
  }

  /** The end of the first label from `i` on that is the last one or has an empty label after it. */
  function WalkEnd(name: HostName, i: nat): (e: nat)
    requires i <= |name|
    ensures LabelEnd(name, i) <= e <= |name|
    decreases |name| - i
  {
    var e := LabelEnd(name, i);
    if e == |name| || LabelLength(name, e + 1) == 0 then e else WalkEnd(name, e + 1)
  }

  /** The labels that start from `i` up to `e` are shorter than 192 bytes. */
  ghost predicate ShortLabels(name: HostName, i: nat, e: nat) {
    forall j {:trigger LabelStart(name, j)} :: i <= j <= e && LabelStart(name, j) ==> LabelLength(name, j) < 0xC0
  }

  lemma ShortStep(name: HostName, i: nat, e: nat)
    requires LabelStart(name, i) && LabelEnd(name, i) <= e <= |name|
    ensures ShortLabels(name, i, e) <==> LabelLength(name, i) < 0xC0 && ShortLabels(name, LabelEnd(name, i) + 1, e)
  {
    assert forall j :: i < j && LabelStart(name, j) ==> j > LabelEnd(name, i);
  }

  /** The walk goes on to the end of the name exactly if no label after the first is empty. */
  lemma {:induction false} WalkEndWhole(name: HostName, i: nat)
    requires LabelStart(name, i)
    ensures WalkEnd(name, i) == |name| <==>
              forall j {:trigger LabelStart(name, j)} :: i < j && LabelStart(name, j) ==> LabelLength(name, j) > 0
    decreases |name| - i
  {
    var e := LabelEnd(name, i);
    assert forall j :: i < j && LabelStart(name, j) ==> j > e;
    if e < |name| {
      assert LabelStart(name, e + 1);
      WalkEndWhole(name, e + 1);
    }
  }

  /** One label of a variant: its length, its bytes, and the byte that follows it. */
  lemma VariantLabel(text: Text, name: HostName, p: Packet, start: nat, i: nat)
    requires Spells(text, name) && HoldsVariant(name, p, start) && LabelStart(name, i)
    ensures var e := LabelEnd(name, i);
            && p[start + i] == LabelLength(name, i)
            && LabelAgrees(text, i, p, start + i + 1, e - i)
            && p[start + e + 1] == if e < |name| then LabelLength(name, e + 1) else 0
  {
    var e, at := LabelEnd(name, i), start + i;
    assert VariantByte(name, i, p[at]);
    assert VariantByte(name, e + 1, p[start + e + 1]);
    forall j | at + 1 <= j < at + 1 + (e - i) ensures Lower(p[j]) == Lower(text(i + j - (at + 1))) {
      assert VariantByte(name, j - start, p[j]);
    }
  }

  lemma {:induction false} OwnEncodingFrom(text: Text, name: HostName, p: Packet, start: nat, i: nat)
    requires Spells(text, name) && HoldsVariant(name, p, start) && start + |name| + 2 < 0xFFFF && LabelStart(name, i)
    ensures var e := WalkEnd(name, i);
            MatchEnd(text, i, p, start + i) == if ShortLabels(name, i, e) then start + e + 2 else FAILED
    decreases |name| - i
  {
    hide VariantByte, LabelAgrees, EncodedByte, Spells, ShortLabels;
    VariantLabel(text, name, p, start, i);
    var e := LabelEnd(name, i);
    ShortStep(name, i, WalkEnd(name, i));
    if e < |name| && LabelLength(name, e + 1) > 0 {
      OwnEncodingFrom(text, name, p, start, e + 1);
    } else {
      assert ShortLabels(name, e + 1, e) by {
        NoLabels(name, e);
      }
    }
  }

  lemma NoLabels(name: HostName, e: nat)
    ensures ShortLabels(name, e + 1, e)
  {
  }

  /**
   * What the comparison returns on any letter-case variant of the encoding of a name.  It
   * stops at the end of the name or before the first label after the first that is empty,
   * and accepts if the labels up to there are shorter than 192 bytes.
   */
  lemma OwnEncodingResult(text: Text, name: HostName, p: Packet, start: nat)
    requires Spells(text, name) && HoldsVariant(name, p, start) && start + |name| + 2 < 0xFFFF
    ensures var e := WalkEnd(name, 0);
            MatchEnd(text, 0, p, start) == if ShortLabels(name, 0, e) then start + e + 2 else FAILED
  {
    hide ShortLabels;
    assert LabelStart(name, 0);
    OwnEncodingFrom(text, name, p, start, 0);
  }

  /**
   * It returns the offset just past the terminating zero exactly when every label is
   * shorter than 192 bytes and every label but the first is non-empty.
   */
  lemma OwnEncodingAccepted(text: Text, name: HostName, p: Packet, start: nat)
    requires Spells(text, name) && HoldsVariant(name, p, start) && start + |name| + 2 < 0xFFFF
    ensures MatchEnd(text, 0, p, start) == start + |name| + 2 <==> PlainLabels(name)
  {
    assert LabelStart(name, 0);
    OwnEncodingResult(text, name, p, start);
    WalkEndWhole(name, 0);
  }

  /** For the name "a." it accepts one byte too early; `dns_gethostbyname` keeps "a.." as this name. */
  lemma TrailingDotStopsEarly(text: Text, p: Packet, start: nat)
    requires Spells(text, [97, DOT]) && HoldsVariant([97, DOT], p, start) && start + 4 < 0xFFFF
    ensures MatchEnd(text, 0, p, start) == start + 3
  {
    var name: HostName := [97, DOT];
    assert LabelEnd(name, 1) == 1 && LabelEnd(name, 0) == 1 && LabelEnd(name, 2) == 2;
    assert WalkEnd(name, 0) == 1;
    OwnEncodingResult(text, name, p, start);
  }

  /** Names whose labels have 1 to 63 bytes (section 2.3.4 of RFC 1035) are always accepted, by both walkers. */
  lemma ProperNamesAccepted(text: Text, name: HostName, p: Packet, start: nat)
    requires Spells(text, name) && HoldsVariant(name, p, start) && start + |name| + 2 < 0xFFFF
    requires forall i :: LabelStart(name, i) ==> 1 <= LabelLength(name, i) <= 63
    ensures MatchEnd(text, 0, p, start) == NameEnd(p, start) == start + |name| + 2
  {
    OwnEncodingAccepted(text, name, p, start);
    MatchIsSkipped(text, 0, p, start);
  }

  /** The encoding itself is a variant, wherever it stands in a packet. */
  lemma EncodingIsVariant(name: HostName, before: seq<Byte>, after: seq<Byte>)
    requires |before| + |name| + 2 + |after| <= 0xFFFF
    ensures HoldsVariant(name, before + EncodedName(name) + after, |before|)
  {
    var p: Packet := before + EncodedName(name) + after;
    forall j | |before| <= j < |before| + |name| + 2 ensures VariantByte(name, j - |before|, p[j]) {
      assert p[j] == EncodedName(name)[j - |before|];
    }
  }
}
