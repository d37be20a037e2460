/**
 * Which entry a lookup of the resolver of src/lwip/dns.c takes, and when it is refused
 * although an entry is finished.  The table numbers lookups modulo 256; here they are
 * counted, and the age of an entry is the number of lookups started since it was filled.
 */
module DnsAges {
  import opened Options
  import opened CaseFold
  import opened DnsNames
  import opened DnsTable
  import opened DnsSteps
  import opened DnsInvariant
  import opened DnsRuns
  import opened DnsLocal
  import opened DnsScenarios

  // By the numbers in the table.

  /** No entry is taken exactly if none is unused and every finished one has age 0 modulo 256. */
  lemma NoneTakenIff(s: Dns)
    ensures PickEntry(s) == |s.table| <==>
              forall j :: 0 <= j < |s.table| ==>
                !s.table[j].phase.Unused? && (s.table[j].phase.Done? ==> AgeOf(s.seqno, s.table[j]) == 0)
  {
    var u := FirstUnused(s.table, 0);
    if u == |s.table| {
      var (k, age) := Oldest(s.table, s.seqno, |s.table|);
      assert IsOldest(s.table, s.seqno, |s.table|, k, age);
    }
  }

  /** If none is unused, the entry taken is the first finished one of the largest age modulo 256. */
  lemma TakenByNumber(s: Dns, k: nat)
    requires k < |s.table| && PickEntry(s) == k && !s.table[k].phase.Unused?
    ensures s.table[k].phase.Done? && AgeOf(s.seqno, s.table[k]) > 0
    ensures forall j :: 0 <= j < |s.table| && s.table[j].phase.Done? ==>
              AgeOf(s.seqno, s.table[j]) <= AgeOf(s.seqno, s.table[k])
    ensures forall j :: 0 <= j < k && s.table[j].phase.Done? ==> AgeOf(s.seqno, s.table[j]) < AgeOf(s.seqno, s.table[k])
  {
    var (i, age) := Oldest(s.table, s.seqno, |s.table|);
    assert IsOldest(s.table, s.seqno, |s.table|, i, age);
  }

  // Counting.

  /** The lookup joins one for the same name. */
  ghost predicate Joins(c: Limits, s: Dns, op: Op)
    requires Sized(c, s) && LegalOp(c, s, op) && op.Lookup?
  {
    FindDuplicate(s.table, op.host, op.len, 0) < c.entries && FreeRequest(s.requests, 0) < c.requests
  }

  /** The entry that the step fills and starts to ask, or the number of entries. */
  ghost function Fills(c: Limits, s: Dns, op: Op): (k: nat)
    requires ValidLimits(c) && Sized(c, s) && Entries(c, s) && LegalOp(c, s, op)
    ensures k <= c.entries
  {
    if !op.Lookup? || Joins(c, s, op)
       || FreeRequest(s.requests, 0) == c.requests || ChosenPort(c, s, op.socket) == c.ports
    then c.entries
    else PickEntry(s)
  }

  lemma StepFills(c: Limits, s: Dns, op: Op)
    requires ValidLimits(c) && Inv(c, s) && LegalOp(c, s, op)
    ensures Sized(c, s) && Entries(c, s) && Sized(c, Step(c, s, op))
    ensures var k, s' := Fills(c, s, op), Step(c, s, op);
            && s'.seqno == (if k < c.entries then (s.seqno + 1) % 0x100 else s.seqno)
            && forall j :: 0 <= j < c.entries && !s'.table[j].phase.Unused? ==>
                 if j == k then s'.table[j].seqno == s.seqno
                 else s'.table[j].seqno == s.table[j].seqno && !s.table[j].phase.Unused?
  {
    hide Inv, Step, SameHost, PickEntry, ChosenPort;
    InvEntries(c, s);
    StepKeeps(c, s, op);
    InvEntries(c, Step(c, s, op));
    if op.Lookup? {
      LookupFills(c, s, op);
    } else if op.SetServer? {
      ServerFills(c, s, op);
    } else {
      var i := StepActs(c, s, op);
    }
  }

  lemma ServerFills(c: Limits, s: Dns, op: Op)
    requires ValidLimits(c) && Sized(c, s) && Entries(c, s) && LegalOp(c, s, op) && op.SetServer?
    ensures Step(c, s, op) == s.(servers := Step(c, s, op).servers)
  {
  }

  lemma LookupFills(c: Limits, s: Dns, op: Op)
    requires ValidLimits(c) && Sized(c, s) && Entries(c, s) && LegalOp(c, s, op) && op.Lookup?
    ensures var k, s' := Fills(c, s, op), Step(c, s, op);
            && |s'.table| == c.entries && s'.seqno == (if k < c.entries then (s.seqno + 1) % 0x100 else s.seqno)
            && forall j :: 0 <= j < c.entries && !s'.table[j].phase.Unused? ==>
                 if j == k then s'.table[j].seqno == s.seqno
                 else s'.table[j].seqno == s.table[j].seqno && !s.table[j].phase.Unused?
  {
    hide SameHost, PickEntry, ChosenPort, CheckEntry, FindDuplicate, FreeRequest, LowerAll;
    var k, r := Fills(c, s, op), FreeRequest(s.requests, 0);
    if k < c.entries {
      StartFills(c, s, op, k, r, Kept(op.host, op.len), ChosenPort(c, s, op.socket));
    }
  }

  lemma StartFills(c: Limits, s: Dns, op: Op, k: nat, r: nat, name: HostName, port: nat)
    requires ValidLimits(c) && Sized(c, s) && op.Lookup? && k < c.entries && r < c.requests && port < c.ports
    ensures var s' := CheckEntry(c, Placed(s, k, r, name, port, op.cb, op.mdns), k, op.txid, op.memory);
            && |s'.table| == c.entries && s'.seqno == (s.seqno + 1) % 0x100 && s'.table[k].seqno == s.seqno
            && forall j :: 0 <= j < c.entries && j != k ==> s'.table[j] == s.table[j]
  {
    hide Send, LowerAll;
    var t := Started(s, k, r, name, port, op.cb, op.mdns, op.txid);
    SendActs(c, t, k, op.memory);
  }

  /** How many lookups the first `t` steps of a run start. */
  ghost function Starts(c: Limits, ops: seq<Op>, states: seq<Dns>, t: nat): nat
    requires IsRun(c, ops, states) && t <= |ops|
  {
    if t == 0 then 0
    else
      assert Follows(c, states, t - 1, ops[t - 1]);
      Starts(c, ops, states, t - 1) + if Fills(c, states[t - 1], ops[t - 1]) < c.entries then 1 else 0
  }

  /** How many lookups had been started when entry `k` was last filled. */
  ghost function FilledAt(c: Limits, ops: seq<Op>, states: seq<Dns>, k: nat, t: nat): nat
    requires IsRun(c, ops, states) && t <= |ops| && k < c.entries
  {
    if t == 0 then 0
    else
      assert Follows(c, states, t - 1, ops[t - 1]);
      if Fills(c, states[t - 1], ops[t - 1]) == k then Starts(c, ops, states, t - 1)
      else FilledAt(c, ops, states, k, t - 1)
  }

  /** How many lookups ago entry `k` was filled. */
  ghost function Age(c: Limits, ops: seq<Op>, states: seq<Dns>, k: nat, t: nat): int
    requires IsRun(c, ops, states) && t <= |ops| && k < c.entries
  {
    Starts(c, ops, states, t) - FilledAt(c, ops, states, k, t)
  }

  /** The numbers in the table are the counts modulo 256. */
  ghost predicate Numbered(c: Limits, ops: seq<Op>, states: seq<Dns>, t: nat)
    requires IsRun(c, ops, states) && t <= |ops|
  {
    && Sized(c, states[t]) && states[t].seqno == Starts(c, ops, states, t) % 0x100
    && forall k :: 0 <= k < c.entries && !states[t].table[k].phase.Unused? ==>
         && states[t].table[k].seqno == FilledAt(c, ops, states, k, t) % 0x100
         && FilledAt(c, ops, states, k, t) < Starts(c, ops, states, t)
  }

  lemma {:induction false} EveryRunNumbered(c: Limits, ops: seq<Op>, states: seq<Dns>, t: nat)
    requires ValidLimits(c) && IsRun(c, ops, states) && t <= |ops|
    ensures Numbered(c, ops, states, t)
  {
    hide Inv, Step, Fills;
    if t > 0 {
      EveryRunNumbered(c, ops, states, t - 1);
      EveryRunInv(c, ops, states, t - 1);
      assert Follows(c, states, t - 1, ops[t - 1]);
      StepFills(c, states[t - 1], ops[t - 1]);
    }
  }

  lemma AgeModulo(starts: nat, filled: nat, e: Entry)
    requires filled < starts && e.seqno == filled % 0x100
    ensures AgeOf(starts % 0x100, e) == (starts - filled) % 0x100
  {
  }

  /** In every run the age by number of an entry in use is its age modulo 256, which is at least 1. */
  lemma AgesAreCounts(c: Limits, ops: seq<Op>, states: seq<Dns>, k: nat, t: nat)
    requires ValidLimits(c) && IsRun(c, ops, states) && t <= |ops| && k < c.entries
    requires Sized(c, states[t]) && !states[t].table[k].phase.Unused?
    ensures Age(c, ops, states, k, t) >= 1
    ensures AgeOf(states[t].seqno, states[t].table[k]) == Age(c, ops, states, k, t) % 0x100
  {
    hide Follows, AgeOf;
    EveryRunNumbered(c, ops, states, t);
    AgeModulo(Starts(c, ops, states, t), FilledAt(c, ops, states, k, t), states[t].table[k]);
  }

  // By the counts.

  /** No entry is unused, and every finished one was filled a multiple of 256 lookups ago. */
  ghost predicate NothingToTake(c: Limits, ops: seq<Op>, states: seq<Dns>, t: nat)
    requires IsRun(c, ops, states) && t <= |ops| && Sized(c, states[t])
  {
    forall k :: 0 <= k < c.entries ==>
      && !states[t].table[k].phase.Unused?
      && (states[t].table[k].phase.Done? ==> Age(c, ops, states, k, t) % 0x100 == 0)
  }

  lemma NoneTakenByAge(c: Limits, ops: seq<Op>, states: seq<Dns>, t: nat)
    requires ValidLimits(c) && IsRun(c, ops, states) && t <= |ops|
    ensures Sized(c, states[t])
    ensures PickEntry(states[t]) == c.entries <==> NothingToTake(c, ops, states, t)
  {
    hide Follows, AgeOf, PickEntry, Age, Inv;
    assert |states| == |ops| + 1 by {
      RunEnds(c, ops, states);
    }
    EveryRunInv(c, ops, states, t);
    InvEntries(c, states[t]);
    NoneTakenIff(states[t]);
    forall k | 0 <= k < c.entries && !states[t].table[k].phase.Unused?
      ensures AgeOf(states[t].seqno, states[t].table[k]) == Age(c, ops, states, k, t) % 0x100
    {
      AgesAreCounts(c, ops, states, k, t);
    }
  }

  /**
   * In every run, a lookup is refused exactly if it joins no other and there is no free
   * request, no source port, or no entry to take: none is unused and every finished one
   * was filled a multiple of 256 started lookups ago.
   */
  lemma LookupRefusedIff(c: Limits, ops: seq<Op>, states: seq<Dns>, t: nat, op: Op)
    requires ValidLimits(c) && IsRun(c, ops, states) && t <= |ops| && op.Lookup?
    requires Sized(c, states[t]) && Entries(c, states[t]) && LegalOp(c, states[t], op)
    ensures var s := states[t];
            Enqueue(c, s, op.host, op.len, op.cb, op.mdns, op.socket, op.txid, op.memory).1 == OutOfMemory <==>
              && !Joins(c, s, op)
              && (|| FreeRequest(s.requests, 0) == c.requests || ChosenPort(c, s, op.socket) == c.ports
                  || NothingToTake(c, ops, states, t))
  {
    hide Follows, PickEntry, ChosenPort, CheckEntry, SameHost, NothingToTake;
    NoneTakenByAge(c, ops, states, t);
  }

  /**
   * In every run, if no entry is unused and all finished ones were filled fewer than 256
   * lookups ago, a lookup takes the finished entry that was filled first.
   */
  lemma TakesOldest(c: Limits, ops: seq<Op>, states: seq<Dns>, t: nat, i: nat)
    requires ValidLimits(c) && IsRun(c, ops, states) && t <= |ops| && Sized(c, states[t])
    requires forall k :: 0 <= k < c.entries ==> !states[t].table[k].phase.Unused?
    requires forall k :: 0 <= k < c.entries && states[t].table[k].phase.Done? ==> Age(c, ops, states, k, t) < 0x100
    requires i < c.entries && states[t].table[i].phase.Done?
    ensures var k := PickEntry(states[t]);
            && k < c.entries && states[t].table[k].phase.Done?
            && FilledAt(c, ops, states, k, t) <= FilledAt(c, ops, states, i, t)
  {
    hide Follows, AgeOf, PickEntry, FilledAt, Starts;
    var s, k := states[t], PickEntry(states[t]);
    AgesAreCounts(c, ops, states, i, t);
    NoneTakenIff(s);
    TakenByNumber(s, k);
    AgesAreCounts(c, ops, states, k, t);
  }

  // A refusal although an entry is finished.

  /** Entry 0 is finished and was filled first; the entries up to `m` ask; `seqno` is the number of the next lookup. */
  ghost predicate FirstKept(c: Limits, s: Dns, m: nat, seqno: nat) {
    Asked(c, s, 1, m, 1, None) && s.table[0].seqno == 0 && s.seqno == seqno % 0x100
  }

  /** A lookup on entry 1 that times out leaves everything but the number of the next lookup as it was. */
  lemma TimedOut(c: Limits, ops0: seq<Op>, states0: seq<Dns>, seqno: nat) returns (ops: seq<Op>, states: seq<Dns>)
    requires ValidLimits(c) && c.entries >= 2 && IsRun(c, ops0, states0) && FirstKept(c, states0[|ops0|], 1, seqno)
    ensures IsRun(c, ops, states) && FirstKept(c, states[|ops|], 1, seqno + 1)
  {
    hide Follows, Asked, Inv;
    AskedSized(c, states0[|ops0|], 1, 1, 1, None);
    ops, states := Ask(c, ops0, states0, 1, 1, 1, None);
    ops, states := TimeOut(c, ops, states);
  }

  /** The lookup on entry 1 ends: the server goes, the timer finds none, and the server is set again. */
  lemma TimeOut(c: Limits, ops0: seq<Op>, states0: seq<Dns>) returns (ops: seq<Op>, states: seq<Dns>)
    requires ValidLimits(c) && c.entries >= 2 && IsRun(c, ops0, states0) && Asked(c, states0[|ops0|], 1, 2, 1, None)
    ensures IsRun(c, ops, states) && Asked(c, states[|ops|], 1, 1, 1, None)
    ensures var s, s' := states0[|ops0|], states[|ops|];
            |s.table| == |s'.table| == c.entries && s'.seqno == s.seqno && s'.table[0] == s.table[0]
  {
    hide Follows, Step, LegalOp, Asked, Inv;
    RunEnds(c, ops0, states0);
    RoundSteps(c, states0[|ops0|]);
    ops, states := Extend(c, ops0, states0, Op.SetServer(0, ANY));
    ops, states := Extend(c, ops, states, Op.Timer(1, false));
    ops, states := Extend(c, ops, states, Op.SetServer(0, 1));
    RunEnds(c, ops, states);
  }

  lemma RoundSteps(c: Limits, s: Dns)
    requires ValidLimits(c) && c.entries >= 2 && Inv(c, s) && Asked(c, s, 1, 2, 1, None)
    ensures Sized(c, s) && Entries(c, s) && LegalOp(c, s, Op.SetServer(0, ANY))
    ensures var s1 := Step(c, s, Op.SetServer(0, ANY));
            && Sized(c, s1) && Entries(c, s1) && LegalOp(c, s1, Op.Timer(1, false))
            && var s2 := Step(c, s1, Op.Timer(1, false));
               && Sized(c, s2) && Entries(c, s2) && LegalOp(c, s2, Op.SetServer(0, 1))
               && var s3 := Step(c, s2, Op.SetServer(0, 1));
                  Asked(c, s3, 1, 1, 1, None) && s3.seqno == s.seqno && s3.table[0] == s.table[0]
  {
    hide Inv, Tick, Asked, HostOf, Finish;
    InvEntries(c, s);
    AskedParts(c, s);
    var s1 := s.(servers := s.servers[0 := ANY]);
    StepKeeps(c, s, Op.SetServer(0, ANY));
    InvEntries(c, s1);
    var t := EndByTimer(c, s1, 1);
    var s2 := Finish(c, t, 1, None, Unused);
    StepKeeps(c, s1, Op.Timer(1, false));
    assert Step(c, s1, Op.Timer(1, false)) == s2;
    InvEntries(c, s2);
    RoundEnds(c, s, t);
  }

  lemma AskedParts(c: Limits, s: Dns)
    requires c.entries >= 2 && Asked(c, s, 1, 2, 1, None)
    ensures Sized(c, s) && FirstSet(s.servers[..], 1) && Asker(s.table[1], 1)
    ensures |s.servers| > 0 ==> FirstSet(s.servers[0 := ANY], 0)
  {
    assert Occupied(s.table[1], 1, 1, 2);
    assert s.servers[..] == s.servers;
  }

  lemma RoundEnds(c: Limits, s: Dns, t: Dns)
    requires ValidLimits(c) && c.entries >= 2 && Asked(c, s, 1, 2, 1, None)
    requires EndsFrom(c, s.(servers := s.servers[0 := ANY]), t, 1)
    ensures var s2 := Finish(c, t, 1, None, Unused);
            && |s2.servers| == c.servers
            && var s3 := s2.(servers := s2.servers[0 := 1]);
               Asked(c, s3, 1, 1, 1, None) && s3.seqno == s.seqno && s3.table[0] == s.table[0]
  {
    hide HostOf, CallsFor;
    forall q | 0 <= q < c.entries ensures Occupied(s.table[q], q, 1, 2) {}
    assert forall q :: 0 <= q < c.entries && q != 1 ==> t.table[q] == s.table[q];
    assert !PortShared(c, t.table, 1);
    var s2 := Finish(c, t, 1, None, Unused);
    var s3 := s2.(servers := s2.servers[0 := 1]);
    forall q | 0 <= q < c.entries ensures Occupied(s3.table[q], q, 1, 1) {
      assert Occupied(s.table[q], q, 1, 2);
    }
    assert s2.requests == Flushed(s.requests, 1);
  }

  lemma {:induction false} Rounds(c: Limits, n: nat) returns (ops: seq<Op>, states: seq<Dns>)
    requires ValidLimits(c) && c.entries >= 2 && c.maxTtl >= 1
    ensures IsRun(c, ops, states) && FirstKept(c, states[|ops|], 1, 1 + n)
  {
    hide Follows, Asked;
    if n == 0 {
      ops, states := FinishedRun(c, 1, 1, None);
      AskedSized(c, states[|ops|], 1, 1, 1, None);
    } else {
      ops, states := Rounds(c, n - 1);
      ops, states := TimedOut(c, ops, states, n);
    }
  }

  /** The lookup joins none, a request and a port are there, an entry is finished, and yet it is refused. */
  ghost predicate RefusedThoughFinished(c: Limits, s: Dns, op: Op) {
    && ValidLimits(c) && Sized(c, s) && Entries(c, s) && LegalOp(c, s, op) && op.Lookup?
    && !Joins(c, s, op) && FreeRequest(s.requests, 0) < c.requests && ChosenPort(c, s, op.socket) < c.ports
    && (exists k :: 0 <= k < c.entries && s.table[k].phase.Done?)
    && Enqueue(c, s, op.host, op.len, op.cb, op.mdns, op.socket, op.txid, op.memory).1 == OutOfMemory
  }

  /**
   * A run in which a lookup is refused although entry 0 is finished: it was answered first,
   * then lookups timed out until, with one more for each other entry, 256 were started.
   */
  lemma RefusedAfterWrap(c: Limits) returns (ops: seq<Op>, states: seq<Dns>, op: Op)
    requires ValidLimits(c) && c.entries >= 2 && c.maxTtl >= 1
    ensures IsRun(c, ops, states) && RefusedThoughFinished(c, states[|ops|], op)
  {
    hide Follows, Asked, RefusedThoughFinished, Inv;
    ops, states := Rounds(c, 256 - c.entries);
    AskedSized(c, states[|ops|], 1, 1, 1, None);
    ops, states := Asks(c, ops, states, 1, 1, c.entries, 1, None);
    RunEnds(c, ops, states);
    op := AskFor(c.entries, None, false);
    Refuses(c, states[|ops|]);
  }

  lemma Refuses(c: Limits, s: Dns)
    requires ValidLimits(c) && Sized(c, s) && Entries(c, s) && c.entries >= 2
    requires FirstKept(c, s, c.entries, 0)
    ensures RefusedThoughFinished(c, s, AskFor(c.entries, None, false))
  {
    hide SameHost, PickEntry, ChosenPort, CheckEntry, Oldest, FreeRequest, FindDuplicate;
    NoDuplicate(c, s, 1, c.entries, 1, None);
    AskPort(c, s, true);
    assert FreeRequest(s.requests, 0) == 0 by {
      NextRequest(c, s, 1, c.entries, 1, None);
    }
    forall k | 0 <= k < c.entries ensures !s.table[k].phase.Unused? && (s.table[k].phase.Done? ==> k == 0) {
      assert Occupied(s.table[k], k, 1, c.entries);
    }
    assert s.table[0].phase.Done? by {
      assert Occupied(s.table[0], 0, 1, c.entries);
    }
    NoneTakenIff(s);
  }

  ghost predicate SomeRunRefuses(c: Limits) {
    exists ops: seq<Op>, states: seq<Dns>, t: nat, op: Op ::
      IsRun(c, ops, states) && t <= |ops| && RefusedThoughFinished(c, states[t], op)
  }

  /** Such a refusal happens in some run exactly if there are two entries and finished ones are kept at all. */
  lemma RefusalsIff(c: Limits)
    requires ValidLimits(c)
    ensures SomeRunRefuses(c) <==> c.entries >= 2 && c.maxTtl >= 1
  {
    hide Follows, RefusedThoughFinished;
    if c.entries >= 2 && c.maxTtl >= 1 {
      var ops, states, op := RefusedAfterWrap(c);
      assert RefusedThoughFinished(c, states[|ops|], op);
    } else if SomeRunRefuses(c) {
      var ops: seq<Op>, states: seq<Dns>, t: nat, op: Op :|
        IsRun(c, ops, states) && t <= |ops| && RefusedThoughFinished(c, states[t], op);
      NoRefusal(c, ops, states, t, op);
    }
  }

  lemma NoRefusal(c: Limits, ops: seq<Op>, states: seq<Dns>, t: nat, op: Op)
    requires ValidLimits(c) && IsRun(c, ops, states) && t <= |ops| && (c.entries == 1 || c.maxTtl == 0)
    ensures !RefusedThoughFinished(c, states[t], op)
  {
    hide Follows, Age, PickEntry, ChosenPort, CheckEntry, SameHost;
    var s := states[t];
    if RefusedThoughFinished(c, s, op) {
      LookupRefusedIff(c, ops, states, t, op);
      var k :| 0 <= k < c.entries && s.table[k].phase.Done?;
      assert EntryOk(c, s.table[k]);
      OneEntryAge(c, ops, states, t);
    }
  }

  /** With one entry, the lookup it was filled for is always the last one started. */
  lemma {:induction false} OneEntryAge(c: Limits, ops: seq<Op>, states: seq<Dns>, t: nat)
    requires ValidLimits(c) && IsRun(c, ops, states) && t <= |ops|
    ensures c.entries == 1 && Starts(c, ops, states, t) > 0 ==> Age(c, ops, states, 0, t) == 1
    ensures Sized(c, states[t])
    ensures c.entries == 1 && !states[t].table[0].phase.Unused? ==> Starts(c, ops, states, t) > 0
  {
    hide Step, Fills, Inv;
    EveryRunNumbered(c, ops, states, t);
    if t > 0 {
      OneEntryAge(c, ops, states, t - 1);
    }
  }
}
