/**
 * How long the resolver of src/lwip/dns.c keeps a finished entry: for exactly as many
 * checks of its timer as its TTL says, unless a lookup takes the entry before.
 */
module DnsCache {
  import opened DnsTable
  import opened DnsSteps
  import opened DnsInvariant
  import opened DnsRuns
  import opened DnsLocal
  import opened DnsAnswers
  import opened DnsTimeouts

  /** A check takes one from the TTL of a finished entry, and at the last the entry is unused. */
  lemma DoneTick(c: Limits, s: Dns, k: nat, memory: bool)
    requires ValidLimits(c) && Inv(c, s) && k < c.entries && s.table[k].phase.Done?
    ensures s.table[k].server < c.servers && s.table[k].ttl >= 1
    ensures var e, s' := s.table[k], Tick(c, s, k, 0, memory);
            && |s'.table| == c.entries
            && (if e.ttl > 1 then s'.table[k] == e.(ttl := e.ttl - 1) else s'.table[k].phase.Unused?)
  {
    hide Inv, Send, Finish;
    EntryFromInv(c, s, k);
  }

  ghost function StateAfter(states: seq<Dns>, t: nat): Dns
    requires t + 1 < |states|
  {
    states[t + 1]
  }

  /** No lookup from step `a` to step `b` takes entry `k`. */
  ghost predicate NotTaken(ops: seq<Op>, states: seq<Dns>, k: nat, a: nat, b: nat)
    requires b <= |ops| < |states|
  {
    forall t :: a <= t < b && ops[t].Lookup? ==>
      && k < |states[t].table| && k < |StateAfter(states, t).table|
      && StateAfter(states, t).table[k] == states[t].table[k]
  }

  ghost predicate KeptThroughout(states: seq<Dns>, k: nat, a: nat, b: nat)
    requires b < |states|
  {
    forall t :: a <= t <= b ==> k < |states[t].table| && states[t].table[k].phase.Done?
  }

  lemma DoneStep(c: Limits, s: Dns, op: Op, k: nat)
    requires ValidLimits(c) && Inv(c, s) && LegalOp(c, s, op) && k < c.entries && s.table[k].phase.Done?
    requires op.Lookup? ==> k < |Step(c, s, op).table| && Step(c, s, op).table[k] == s.table[k]
    ensures var e, s', checked := s.table[k], Step(c, s, op), op.Timer? && op.entry == k;
            && |s'.table| == c.entries && e.ttl >= 1
            && (if !checked then s'.table[k] == e
                else if e.ttl > 1 then s'.table[k] == e.(ttl := e.ttl - 1)
                else s'.table[k].phase.Unused?)
  {
    hide Inv, Tick, Receive, Enqueue, Judge;
    InvEntries(c, s);
    InvSized(c, s);
    EntryFromInv(c, s, k);
    StepKeeps(c, s, op);
    InvSized(c, Step(c, s, op));
    match op
    case Lookup(_, _, _, _, _, _, _) =>
    case Timer(j, memory) =>
      if j == k {
        DoneTick(c, s, k, memory);
      } else {
        var i := StepActs(c, s, op);
      }
    case Packet(p, from, tail, memory) => ReceiveActs(c, s, p, from, tail, memory);
    case SetServer(_, _) => ServerStep(c, s, op);
  }

  /** The entry is kept up to `b` exactly if it has TTL left, and then it differs only in that. */
  ghost predicate KeptWith(states: seq<Dns>, k: nat, a: nat, b: nat, left: int)
    requires a <= b < |states|
  {
    && (KeptThroughout(states, k, a, b) <==> left > 0)
    && (left > 0 ==>
        && k < |states[a].table| && k < |states[b].table| && left < 0x1_0000_0000
        && states[b].table[k] == states[a].table[k].(ttl := left))
  }

  lemma KeptStep(states: seq<Dns>, k: nat, a: nat, b: nat)
    requires a < b < |states| && k < |states[b].table|
    ensures KeptThroughout(states, k, a, b) <==> KeptThroughout(states, k, a, b - 1) && states[b].table[k].phase.Done?
  {
  }

  lemma {:induction false} KeptFor(c: Limits, ops: seq<Op>, states: seq<Dns>, k: nat, a: nat, b: nat)
    requires ValidLimits(c) && IsRun(c, ops, states) && a <= b <= |ops| && k < c.entries
    requires k < |states[a].table| && states[a].table[k].phase.Done? && NotTaken(ops, states, k, a, b)
    ensures KeptWith(states, k, a, b, states[a].table[k].ttl - Checks(ops, k, a, b))
    decreases b - a
  {
    hide Inv, Step, Follows, KeptWith;
    EveryRunInv(c, ops, states, b);
    InvSized(c, states[b]);
    if a == b {
      EntryFromInv(c, states[a], k);
      KeptStart(states, k, a);
    } else {
      KeptFor(c, ops, states, k, a, b - 1);
      EveryRunInv(c, ops, states, b - 1);
      RunFollows(c, ops, states, b - 1);
      KeptOn(c, ops, states, k, a, b, states[a].table[k].ttl - Checks(ops, k, a, b - 1));
    }
  }

  lemma KeptStart(states: seq<Dns>, k: nat, a: nat)
    requires a < |states| && k < |states[a].table| && states[a].table[k].phase.Done? && states[a].table[k].ttl >= 1
    ensures KeptWith(states, k, a, a, states[a].table[k].ttl)
  {
  }

  lemma KeptOn(c: Limits, ops: seq<Op>, states: seq<Dns>, k: nat, a: nat, b: nat, left: int)
    requires ValidLimits(c) && a < b <= |ops| < |states| && k < c.entries && k < |states[a].table|
    requires Inv(c, states[b - 1]) && Follows(c, states, b - 1, ops[b - 1]) && NotTaken(ops, states, k, a, b)
    requires |states[b].table| == c.entries && KeptWith(states, k, a, b - 1, left)
    ensures var op := ops[b - 1]; KeptWith(states, k, a, b, left - if op.Timer? && op.entry == k then 1 else 0)
  {
    hide Inv, Step, LegalOp, Entries, KeptThroughout;
    KeptStep(states, k, a, b);
    if left > 0 {
      KeptLast(states, k, a, b - 1);
      assert ops[b - 1].Lookup? ==> StateAfter(states, b - 1).table[k] == states[b - 1].table[k];
      DoneStep(c, states[b - 1], ops[b - 1], k);
    }
  }

  lemma KeptLast(states: seq<Dns>, k: nat, a: nat, b: nat)
    requires a <= b < |states| && KeptThroughout(states, k, a, b)
    ensures k < |states[b].table| && states[b].table[k].phase.Done?
  {
  }

  /**
   * In every run, a finished entry that no lookup takes is kept, with its name and address,
   * exactly while its timer was checked fewer times than its TTL says.
   */
  lemma KeptForItsTtl(c: Limits, ops: seq<Op>, states: seq<Dns>, k: nat, a: nat, b: nat)
    requires ValidLimits(c) && IsRun(c, ops, states) && a <= b <= |ops| && k < c.entries
    requires k < |states[a].table| && states[a].table[k].phase.Done? && NotTaken(ops, states, k, a, b)
    ensures KeptThroughout(states, k, a, b) <==> Checks(ops, k, a, b) < states[a].table[k].ttl
    ensures KeptThroughout(states, k, a, b) ==>
              && k < |states[b].table| && states[b].table[k].name == states[a].table[k].name
              && states[b].table[k].addr == states[a].table[k].addr
  {
    hide Follows, KeptThroughout, NotTaken;
    KeptFor(c, ops, states, k, a, b);
  }
}
