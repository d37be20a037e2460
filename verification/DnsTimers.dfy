/**
 * Calls of `dns_tmr` of src/lwip/dns.c in a run of the resolver: each checks every entry
 * once, so what is proved about checks of entries holds for the calls.
 */
module DnsTimers {
  import opened DnsTable
  import opened DnsInvariant
  import opened DnsRuns
  import opened DnsAnswers
  import opened DnsTimeouts

  ghost function OpAt(ops: seq<Op>, m: nat, t: nat): Op
    requires m + t < |ops|
  {
    ops[m + t]
  }

  /** The steps from `m` on are one call: the timers of all entries, in order. */
  ghost predicate CallAt(c: Limits, ops: seq<Op>, m: nat) {
    && m + c.entries <= |ops|
    && forall t :: 0 <= t < c.entries ==> OpAt(ops, m, t).Timer? && OpAt(ops, m, t).entry == t
  }

  // A call goes on with a run.

  ghost function TimerOps(c: Limits, memory: nat -> bool): seq<Op> {
    seq(c.entries, t requires 0 <= t => Op.Timer(t, memory(t)))
  }

  /** What a call of the timer does to the tables goes on with any run that leads to them. */
  lemma CallContinues(c: Limits, ops: seq<Op>, states: seq<Dns>, s': Dns, memory: nat -> bool, call: seq<Dns>)
    requires ValidLimits(c) && IsRun(c, ops, states) && TimerStates(c, states[|ops|], s', memory, call)
    ensures var ops', states' := ops + TimerOps(c, memory), states + call[1..];
            IsRun(c, ops', states') && states'[|ops'|] == s' && CallAt(c, ops', |ops|)
  {
    hide Step, LegalOp, Initial, Sized, Entries, ValidLimits;
    var ops', states' := ops + TimerOps(c, memory), states + call[1..];
    var n := |ops|;
    forall t | 0 <= t < |ops'| ensures Follows(c, states', t, ops'[t]) {
      if t < n {
        assert Follows(c, states, t, ops[t]);
      } else {
        assert Follows(c, call, t - n, Op.Timer(t - n, memory(t - n)));
        assert ops'[t] == Op.Timer(t - n, memory(t - n));
        assert states'[t] == call[t - n];
      }
    }
    forall t | 0 <= t < c.entries ensures OpAt(ops', n, t).Timer? && OpAt(ops', n, t).entry == t {
      assert ops'[n + t] == TimerOps(c, memory)[t];
    }
  }

  // Counting calls.

  /** `calls` are the starts of calls, one after the other, between the steps `a` and `b`. */
  ghost predicate TimerCalls(c: Limits, ops: seq<Op>, a: nat, b: nat, calls: seq<nat>)
    decreases |calls|
  {
    if |calls| == 0 then a <= b <= |ops|
    else
      var last := calls[|calls| - 1];
      && last + c.entries <= b <= |ops| && CallAt(c, ops, last)
      && TimerCalls(c, ops, a, last, calls[..|calls| - 1])
  }

  ghost predicate NoTimer(ops: seq<Op>, a: nat, b: nat)
    requires b <= |ops|
  {
    forall t :: a <= t < b ==> !ops[t].Timer?
  }

  /** No timer is checked outside the calls. */
  ghost predicate OnlyCalls(c: Limits, ops: seq<Op>, a: nat, b: nat, calls: seq<nat>)
    requires TimerCalls(c, ops, a, b, calls)
    decreases |calls|
  {
    if |calls| == 0 then NoTimer(ops, a, b)
    else
      var last := calls[|calls| - 1];
      NoTimer(ops, last + c.entries, b) && OnlyCalls(c, ops, a, last, calls[..|calls| - 1])
  }

  lemma {:induction false} ChecksSplit(ops: seq<Op>, k: nat, a: nat, m: nat, b: nat)
    requires a <= m <= b <= |ops|
    ensures Checks(ops, k, a, b) == Checks(ops, k, a, m) + Checks(ops, k, m, b)
    decreases b
  {
    if m < b {
      ChecksSplit(ops, k, a, m, b - 1);
    }
  }

  lemma {:induction false} NoChecks(ops: seq<Op>, k: nat, a: nat, b: nat)
    requires a <= b <= |ops| && NoTimer(ops, a, b)
    ensures Checks(ops, k, a, b) == 0
    decreases b
  {
    if a < b {
      NoChecks(ops, k, a, b - 1);
    }
  }

  /** A call checks each entry once. */
  lemma {:induction false} OneCheck(c: Limits, ops: seq<Op>, k: nat, m: nat, n: nat)
    requires CallAt(c, ops, m) && k < c.entries && n <= c.entries
    ensures Checks(ops, k, m, m + n) == if k < n then 1 else 0
    decreases n
  {
    if n > 0 {
      OneCheck(c, ops, k, m, n - 1);
      assert ops[m + n - 1] == OpAt(ops, m, n - 1);
    }
  }

  lemma {:induction false} CallsCheck(c: Limits, ops: seq<Op>, k: nat, a: nat, b: nat, calls: seq<nat>)
    requires TimerCalls(c, ops, a, b, calls) && k < c.entries
    ensures a <= b <= |ops| && Checks(ops, k, a, b) >= |calls|
    ensures OnlyCalls(c, ops, a, b, calls) ==> Checks(ops, k, a, b) == |calls|
    decreases |calls|
  {
    hide CallAt, Checks;
    if |calls| == 0 {
      if NoTimer(ops, a, b) {
        NoChecks(ops, k, a, b);
      }
    } else {
      var last := calls[|calls| - 1];
      CallsCheck(c, ops, k, a, last, calls[..|calls| - 1]);
      OneCheck(c, ops, k, last, c.entries);
      ChecksSplit(ops, k, a, last, b);
      ChecksSplit(ops, k, last, last + c.entries, b);
      if OnlyCalls(c, ops, a, b, calls) {
        NoChecks(ops, k, last + c.entries, b);
      }
    }
  }

  /**
   * In every run, DNS_MAX_SERVERS * (1 + R * (R - 1) / 2) calls of the timer answer all
   * lookups that were accepted before them.
   */
  lemma AnsweredByCalls(c: Limits, ops: seq<Op>, states: seq<Dns>, a: nat, b: nat, calls: seq<nat>)
    requires ValidLimits(c) && IsRun(c, ops, states) && TimerCalls(c, ops, a, b, calls)
    requires 2 * |calls| >= c.servers * (2 + c.retries * (c.retries - 1))
    ensures a <= b <= |ops| && states[a].accepted <= Fired(states[b].calls) <= states[b].accepted
  {
    hide Follows, TimerCalls, Fired;
    CallsCheck(c, ops, 0, a, b, calls);
    forall k | 0 <= k < c.entries ensures Outlasts(c, ops, a, b, k) {
      CallsCheck(c, ops, k, a, b, calls);
    }
    EveryLookupAnswered(c, ops, states, a, b);
  }

  /** An unanswered lookup asks for exactly n * (1 + R * (R - 1) / 2) calls of the timer. */
  lemma SilentForCalls(c: Limits, ops: seq<Op>, states: seq<Dns>, i: nat, a: nat, b: nat, n: nat, calls: seq<nat>)
    requires ValidLimits(c) && IsRun(c, ops, states) && Unanswered(c, ops, states, i, a, b, n)
    requires TimerCalls(c, ops, a, b, calls) && OnlyCalls(c, ops, a, b, calls)
    ensures AsksThroughout(states, i, a, b) <==> 2 * |calls| < n * (2 + c.retries * (c.retries - 1))
  {
    hide Follows, TimerCalls, OnlyCalls, AsksThroughout, SilentFor;
    CallsCheck(c, ops, i, a, b, calls);
    SilentLookup(c, ops, states, i, a, b, n);
  }
}
