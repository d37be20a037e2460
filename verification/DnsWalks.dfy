/**
 * What the walkers of src/lwip/dns.c accept, said label by label (sections 3.1 and 4.1.4 of
 * RFC 1035): the names that `dns_skip_name` skips and those that `dns_compare_name` takes
 * for the host name.
 */
module DnsWalks {
  import opened CaseFold
  import opened DnsNames

  ghost function NextStart(starts: seq<nat>, j: nat): nat
    requires j + 1 < |starts|
  {
    starts[j + 1]
  }

  /** A label, not a compression pointer, starts at `at`; what follows it is at `next`, inside the packet. */
  ghost predicate LabelTo(p: Packet, at: nat, next: nat) {
    at < |p| && p[at] < 0xC0 && next == at + 1 + p[at] < |p|
  }

  /** Labels start at all of `starts`, one after the other; none but the first is empty. */
  ghost predicate Labels(p: Packet, start: nat, starts: seq<nat>) {
    && |starts| > 0 && starts[0] == start
    && forall j :: 0 <= j < |starts| - 1 ==>
         LabelTo(p, starts[j], NextStart(starts, j)) && p[NextStart(starts, j)] != 0
  }

  lemma LabelsOn(p: Packet, at: nat, next: nat, starts: seq<nat>)
    requires LabelTo(p, at, next) && p[next] != 0 && Labels(p, next, starts)
    ensures Labels(p, at, [at] + starts)
  {
    var all := [at] + starts;
    forall j | 0 <= j < |all| - 1
      ensures LabelTo(p, all[j], NextStart(all, j)) && p[NextStart(all, j)] != 0
    {
      if j > 0 {
        assert all[j] == starts[j - 1] && NextStart(all, j) == NextStart(starts, j - 1);
      }
    }
  }

  lemma LabelsRest(p: Packet, at: nat, starts: seq<nat>)
    requires Labels(p, at, starts) && |starts| > 1
    ensures LabelTo(p, at, starts[1]) && p[starts[1]] != 0 && Labels(p, starts[1], starts[1..])
  {
    assert LabelTo(p, starts[0], NextStart(starts, 0));
    var rest := starts[1..];
    forall j | 0 <= j < |rest| - 1
      ensures LabelTo(p, rest[j], NextStart(rest, j)) && p[NextStart(rest, j)] != 0
    {
      assert rest[j] == starts[j + 1] && NextStart(rest, j) == NextStart(starts, j + 1);
    }
  }

  // Skipping.

  /** The last of the starts is a pointer of two bytes, or a label with a zero after it; the name ends at `r`. */
  ghost predicate EndsAt(p: Packet, at: nat, r: nat) {
    || (at < |p| && p[at] >= 0xC0 && r == at + 2)
    || (1 <= r <= |p| && LabelTo(p, at, r - 1) && p[r - 1] == 0)
  }

  ghost predicate Skips(p: Packet, start: nat, starts: seq<nat>, r: nat) {
    Labels(p, start, starts) && EndsAt(p, starts[|starts| - 1], r)
  }

  lemma {:induction false} SkipFound(p: Packet, start: nat) returns (starts: seq<nat>)
    ensures NameEnd(p, start) != FAILED ==> Skips(p, start, starts, NameEnd(p, start))
    decreases |p| - start
  {
    starts := [start];
    if start < |p| && p[start] < 0xC0 {
      var next := start + 1 + p[start];
      if next < |p| && p[next] != 0 {
        var rest := SkipFound(p, next);
        starts := [start] + rest;
        if NameEnd(p, start) != FAILED {
          LabelsOn(p, start, next, rest);
        }
      }
    }
  }

  lemma {:induction false} FoundSkip(p: Packet, start: nat, starts: seq<nat>, r: nat)
    requires Skips(p, start, starts, r) && r < FAILED
    ensures NameEnd(p, start) == r
    decreases |starts|
  {
    if |starts| > 1 {
      LabelsRest(p, start, starts);
      var rest := starts[1..];
      assert rest[|rest| - 1] == starts[|starts| - 1];
      FoundSkip(p, starts[1], rest, r);
    }
  }

  /**
   * The skipper returns `r` exactly if the name is a row of labels ended by a zero just
   * before `r`, or by a compression pointer, to any place, just before `r`.
   */
  lemma SkipsExactly(p: Packet, start: nat, r: nat)
    requires r < FAILED
    ensures NameEnd(p, start) == r <==> exists starts :: Skips(p, start, starts, r)
  {
    hide Skips;
    if NameEnd(p, start) == r {
      var starts := SkipFound(p, start);
    }
    forall starts | Skips(p, start, starts, r) ensures NameEnd(p, start) == r {
      FoundSkip(p, start, starts, r);
    }
  }

  // Comparing.

  /** The label at `at` spells, up to case, the part of the text that is as far from its start. */
  ghost predicate Spelled(text: Text, p: Packet, start: nat, at: nat)
    requires start <= at < |p| && at + 1 + p[at] <= |p|
  {
    forall x :: at < x <= at + p[at] ==> Lower(p[x]) == Lower(text(x - start - 1))
  }

  lemma SpelledAgrees(text: Text, p: Packet, start: nat, at: nat)
    requires start <= at < |p| && at + 1 + p[at] <= |p|
    ensures Spelled(text, p, start, at) <==> LabelAgrees(text, at - start, p, at + 1, p[at])
  {
  }

  /**
   * From `at` on, in a name that starts at `start`, all labels spell the text, and the last
   * has a zero after it, just before `r`.
   */
  ghost predicate ComparesFrom(text: Text, p: Packet, start: nat, at: nat, starts: seq<nat>, r: nat) {
    && Labels(p, at, starts) && 1 <= r <= |p|
    && LabelTo(p, starts[|starts| - 1], r - 1) && p[r - 1] == 0
    && forall j :: 0 <= j < |starts| ==>
         start <= starts[j] < |p| && starts[j] + 1 + p[starts[j]] <= |p| && Spelled(text, p, start, starts[j])
  }

  lemma {:induction false} CompareFound(text: Text, p: Packet, start: nat, at: nat) returns (starts: seq<nat>)
    requires start <= at
    ensures MatchEnd(text, at - start, p, at) != FAILED ==>
              ComparesFrom(text, p, start, at, starts, MatchEnd(text, at - start, p, at))
    decreases |p| - at
  {
    hide LabelAgrees, Spelled;
    starts := [at];
    if at < |p| && p[at] < 0xC0 && at + 1 + p[at] < |p| {
      var next := at + 1 + p[at];
      SpelledAgrees(text, p, start, at);
      if p[next] != 0 {
        var rest := CompareFound(text, p, start, next);
        starts := [at] + rest;
        if MatchEnd(text, at - start, p, at) != FAILED {
          LabelsOn(p, at, next, rest);
        }
      }
    }
  }

  lemma {:induction false} FoundCompare(text: Text, p: Packet, start: nat, at: nat, starts: seq<nat>, r: nat)
    requires start <= at && ComparesFrom(text, p, start, at, starts, r) && r < FAILED
    ensures MatchEnd(text, at - start, p, at) == r
    decreases |starts|
  {
    hide LabelAgrees, Spelled;
    assert starts[0] == at;
    SpelledAgrees(text, p, start, at);
    if |starts| > 1 {
      LabelsRest(p, at, starts);
      var rest := starts[1..];
      assert rest[|rest| - 1] == starts[|starts| - 1];
      FoundCompare(text, p, start, starts[1], rest, r);
    }
  }

  /**
   * The comparison returns `r`, and not failure, exactly if the name in the packet is a row
   * of labels without pointers, each equal up to case to its part of the text, ended by a
   * zero just before `r`.
   */
  lemma ComparesExactly(text: Text, p: Packet, start: nat, r: nat)
    requires r < FAILED
    ensures MatchEnd(text, 0, p, start) == r <==> exists starts :: ComparesFrom(text, p, start, start, starts, r)
  {
    hide ComparesFrom;
    if MatchEnd(text, 0, p, start) == r {
      var starts := CompareFound(text, p, start, start);
    }
    forall starts | ComparesFrom(text, p, start, start, starts, r) ensures MatchEnd(text, 0, p, start) == r {
      FoundCompare(text, p, start, start, starts, r);
    }
  }

  // Other names.

  /** The text agrees up to case with the name from index `i` on, wherever the name has no dot. */
  ghost predicate SameLetters(text: Text, name: HostName, i: nat) {
    forall k :: i <= k < |name| && name[k] != DOT ==> Lower(text(k)) == Lower(name[k])
  }

  lemma LabelLetters(text: Text, name: HostName, p: Packet, start: nat, i: nat)
    requires HoldsVariant(name, p, start) && LabelStart(name, i)
    ensures var e := LabelEnd(name, i);
            && p[start + i] == LabelLength(name, i)
            && (LabelAgrees(text, i, p, start + i + 1, e - i) <==>
                forall k :: i <= k < e ==> Lower(text(k)) == Lower(name[k]))
            && p[start + e + 1] == if e < |name| then LabelLength(name, e + 1) else 0
  {
    hide EncodedByte, LabelEnd, LabelLength;
    var e, at := LabelEnd(name, i), start + i;
    assert VariantByte(name, i, p[at]) && VariantByte(name, e + 1, p[start + e + 1]);
    EncodedLengths(name, i);
    forall x | at + 1 <= x < at + 1 + (e - i) ensures Lower(p[x]) == Lower(name[x - start - 1]) {
      assert VariantByte(name, x - start, p[x]);
    }
    LettersShift(text, name, p, start, i, e);
  }

  lemma LettersShift(text: Text, name: HostName, p: Packet, start: nat, i: nat, e: nat)
    requires i <= e <= |name| && start + e + 1 <= |p|
    requires forall x :: start + i + 1 <= x < start + e + 1 ==> Lower(p[x]) == Lower(name[x - start - 1])
    ensures LabelAgrees(text, i, p, start + i + 1, e - i) <==>
              forall k :: i <= k < e ==> Lower(text(k)) == Lower(name[k])
  {
    if LabelAgrees(text, i, p, start + i + 1, e - i) {
      forall k | i <= k < e ensures Lower(text(k)) == Lower(name[k]) {
        var x := start + k + 1;
        assert Lower(p[x]) == Lower(text(i + x - (start + i + 1)));
      }
    }
  }

  lemma EncodedLengths(name: HostName, i: nat)
    requires LabelStart(name, i)
    ensures var e := LabelEnd(name, i);
            && EncodedByte(name, i) == LabelLength(name, i)
            && EncodedByte(name, e + 1) == if e < |name| then LabelLength(name, e + 1) else 0
  {
  }

  lemma {:induction false} PlainNameFrom(text: Text, name: HostName, p: Packet, start: nat, i: nat)
    requires HoldsVariant(name, p, start) && start + |name| + 2 < 0xFFFF && LabelStart(name, i) && PlainLabels(name)
    ensures MatchEnd(text, i, p, start + i) == if SameLetters(text, name, i) then start + |name| + 2 else FAILED
    decreases |name| - i
  {
    hide LabelAgrees, HoldsVariant, EncodedByte;
    LabelLetters(text, name, p, start, i);
    var e := LabelEnd(name, i);
    assert LabelLength(name, i) < 0xC0;
    assert forall k :: i <= k < e ==> name[k] != DOT;
    assert start + e + 1 < |p| by {
      VariantFits(name, p, start);
    }
    if e < |name| {
      assert LabelStart(name, e + 1);
      PlainNameFrom(text, name, p, start, e + 1);
      assert SameLetters(text, name, i) <==>
             (forall k :: i <= k < e ==> Lower(text(k)) == Lower(name[k])) && SameLetters(text, name, e + 1) by {
        LettersSplit(text, name, i, e);
      }
    }
  }

  lemma VariantFits(name: HostName, p: Packet, start: nat)
    requires HoldsVariant(name, p, start)
    ensures start + |name| + 2 <= |p|
  {
  }

  lemma LettersSplit(text: Text, name: HostName, i: nat, e: nat)
    requires i <= e < |name| && name[e] == DOT && forall k :: i <= k < e ==> name[k] != DOT
    ensures SameLetters(text, name, i) <==>
              (forall k :: i <= k < e ==> Lower(text(k)) == Lower(name[k])) && SameLetters(text, name, e + 1)
  {
  }

  /**
   * On the encoding of any plain name, in any letter case, the comparison with any text
   * returns its end if the text agrees with the name in all labels up to case, and fails if
   * one byte in a label differs.
   */
  lemma OtherNameRefused(text: Text, name: HostName, p: Packet, start: nat)
    requires HoldsVariant(name, p, start) && start + |name| + 2 < 0xFFFF && PlainLabels(name)
    ensures MatchEnd(text, 0, p, start) == if SameLetters(text, name, 0) then start + |name| + 2 else FAILED
  {
    assert LabelStart(name, 0);
    PlainNameFrom(text, name, p, start, 0);
  }
}
