/**
 * Every accepted lookup of the resolver of src/lwip/dns.c is answered: in every run,
 * whatever is enqueued and received meanwhile and however the server list changes, the
 * callbacks accepted by some step have all been called once every entry's timer has been
 * checked often enough after it.
 *
 * Between a step `a` and a later step, a pending request is young when its entry has
 * been asking for fewer ticks than it was checked since `a`.  Such a request was accepted
 * after `a`; and at the end all pending requests are young.
 */
module DnsAnswers {
  import opened CaseFold
  import opened DnsNames
  import opened DnsTable
  import opened DnsSteps
  import opened DnsInvariant
  import opened DnsRuns
  import opened DnsLocal

  /** How often the steps from `a` up to `b` check the timer of entry `k`. */
  ghost function Checks(ops: seq<Op>, k: nat, a: nat, b: nat): nat
    requires a <= b <= |ops|
  {
    if a == b then 0
    else Checks(ops, k, a, b - 1) + if ops[b - 1].Timer? && ops[b - 1].entry == k then 1 else 0
  }

  ghost function AllChecks(c: Limits, ops: seq<Op>, a: nat, b: nat): seq<nat>
    requires a <= b <= |ops|
  {
    seq(c.entries, k requires 0 <= k => Checks(ops, k, a, b))
  }

  // Young requests.

  ghost predicate IsYoung(r: Request, ages: seq<nat>, checks: seq<nat>) {
    r.found.Some? && r.entry < |ages| && r.entry < |checks| && ages[r.entry] < checks[r.entry]
  }

  ghost function YoungTicket(s: Dns, checks: seq<nat>, r: nat): multiset<Ticket>
    requires r < |s.requests|
  {
    if IsYoung(s.requests[r], s.ages, checks) then Waiting(s.requests[r], s.table) else multiset{}
  }

  /** The tickets of the young ones among the first `n` requests. */
  ghost function Young(s: Dns, checks: seq<nat>, n: nat): multiset<Ticket>
    requires n <= |s.requests|
  {
    if n == 0 then multiset{} else Young(s, checks, n - 1) + YoungTicket(s, checks, n - 1)
  }

  /** If each request contributes no more than before, except `r`, which adds at most `d`. */
  lemma {:induction false} YoungGrows(s: Dns, s': Dns, checks: seq<nat>, checks': seq<nat>, r: nat,
                                      d: multiset<Ticket>, n: nat)
    requires n <= |s.requests| == |s'.requests|
    requires forall q :: 0 <= q < n ==> YoungTicket(s', checks', q) <= if q == r then d else YoungTicket(s, checks, q)
    ensures Young(s', checks', n) <= Young(s, checks, n) + if r < n then d else multiset{}
  {
    hide YoungTicket;
    if n > 0 {
      YoungGrows(s, s', checks, checks', r, d, n - 1);
    }
  }

  /** A tick or a packet makes no request young that was not. */
  lemma ActsYoung(c: Limits, s: Dns, s': Dns, i: nat, ticks: nat, checks: seq<nat>)
    requires Sized(c, s) && ActsOn(c, s, s', i, ticks) && i < c.entries == |checks|
    requires Sized(c, s') && Pointed(c, s')
    ensures Young(s', checks[i := checks[i] + ticks], c.requests) <= Young(s, checks, c.requests)
  {
    var checks' := checks[i := checks[i] + ticks];
    forall q | 0 <= q < c.requests ensures YoungTicket(s', checks', q) <= YoungTicket(s, checks, q) {
      assert SameRequest(s.requests[q], s'.requests[q], i);
      if s'.requests[q].found.Some? {
        var k := s'.requests[q].entry;
        assert k < c.entries && s'.table[k].phase.Asking?;
        assert k != i ==> s'.table[k] == s.table[k] && s'.ages[k] == s.ages[k];
      }
    }
    YoungGrows(s, s', checks, checks', c.requests, multiset{}, c.requests);
  }

  lemma PointedFromInv(c: Limits, s: Dns)
    requires Inv(c, s)
    ensures Sized(c, s) && Pointed(c, s)
  {
  }

  /** A lookup adds to the young requests at most what it accepts. */
  lemma LookupYoung(c: Limits, s: Dns, op: Op, checks: seq<nat>) returns (d: multiset<Ticket>)
    requires ValidLimits(c) && Inv(c, s) && LegalOp(c, s, op) && op.Lookup? && |checks| == c.entries
    ensures var s' := Step(c, s, op);
            && |s'.requests| == c.requests && s'.accepted == s.accepted + d
            && Young(s', checks, c.requests) <= Young(s, checks, c.requests) + d
  {
    hide Inv, Step, LowerAll, Young, Send, Finish, QueryMessage, Started;
    InvEntries(c, s);
    PointedFromInv(c, s);
    StepKeeps(c, s, op);
    PointedFromInv(c, Step(c, s, op));
    var s', name := Step(c, s, op), Kept(op.host, op.len);
    var how := LookupComes(c, s, op);
    match how {
      case Joined(r, dup) =>
        d := Waiting(Request(op.cb, dup), s.table);
        YoungGrows(s, s', checks, checks, r, d, c.requests);
      case Full =>
        d := multiset{};
        YoungGrows(s, s', checks, checks, c.requests, d, c.requests);
      case Refused(i, r) =>
        d := multiset{};
        EntryChanges(c, s, s', i, r, d, checks);
      case Begun(i, r, port) =>
        var t := Started(s, i, r, name, port, op.cb, op.mdns, op.txid);
        d := Waiting(Request(op.cb, i), t.table);
        StartedChanges(s, i, r, name, port, op);
        EntryChanges(c, s, t, i, r, d, checks);
        SendActs(c, t, i, op.memory);
        ActsYoung(c, t, s', i, 0, checks);
        assert checks[i := checks[i] + 0] == checks;
    }
  }

  lemma StartedChanges(s: Dns, i: nat, r: nat, name: HostName, port: nat, op: Op)
    requires op.Lookup? && i < |s.table| == |s.ages| && r < |s.requests| && port < |s.ports|
    ensures var t := Started(s, i, r, name, port, op.cb, op.mdns, op.txid);
            && |t.table| == |t.ages| == |s.table| && |t.requests| == |s.requests| && |t.ports| == |s.ports|
            && t.servers == s.servers
            && t.table[i].server == 0 && t.table[i].phase.Asking? && t.requests[r] == Request(op.cb, i)
            && t.accepted == s.accepted + Waiting(Request(op.cb, i), t.table)
            && (forall k :: 0 <= k < |s.table| && k != i ==> t.table[k] == s.table[k] && t.ages[k] == s.ages[k])
            && (forall q :: 0 <= q < |s.requests| && q != r ==> t.requests[q] == s.requests[q])
  {
    hide LowerAll;
  }

  /** An entry that nothing waits for is refilled, and request `r` may wait for it. */
  lemma EntryChanges(c: Limits, s: Dns, s': Dns, i: nat, r: nat, d: multiset<Ticket>, checks: seq<nat>)
    requires Sized(c, s) && Pointed(c, s) && i < c.entries && r < c.requests && !s.table[i].phase.Asking?
    requires |s'.table| == |s'.ages| == c.entries && |s'.requests| == c.requests
    requires forall k :: 0 <= k < c.entries && k != i ==> s'.table[k] == s.table[k] && s'.ages[k] == s.ages[k]
    requires forall q :: 0 <= q < c.requests && q != r ==> s'.requests[q] == s.requests[q]
    requires Waiting(s'.requests[r], s'.table) == d
    ensures Young(s', checks, c.requests) <= Young(s, checks, c.requests) + d
  {
    hide LowerAll;
    forall q | 0 <= q < c.requests
      ensures YoungTicket(s', checks, q) <= if q == r then d else YoungTicket(s, checks, q)
    {
      if q != r && s.requests[q].found.Some? {
        var k := s.requests[q].entry;
        assert k != i && k < c.entries;
        assert s'.table[k] == s.table[k] && s'.ages[k] == s.ages[k];
      }
    }
    YoungGrows(s, s', checks, checks, r, d, c.requests);
  }

  /** Every step adds to the young requests at most what it accepts; `checks` counts the tick of the step. */
  lemma StepYoung(c: Limits, s: Dns, op: Op, checks: seq<nat>, checks': seq<nat>) returns (d: multiset<Ticket>)
    requires ValidLimits(c) && Inv(c, s) && LegalOp(c, s, op) && |checks| == c.entries
    requires checks' == if op.Timer? then checks[op.entry := checks[op.entry] + 1] else checks
    ensures var s' := Step(c, s, op);
            && |s'.requests| == c.requests && s'.accepted == s.accepted + d
            && Young(s', checks', c.requests) <= Young(s, checks, c.requests) + d
  {
    hide Inv, Step, Young;
    InvEntries(c, s);
    StepKeeps(c, s, op);
    PointedFromInv(c, Step(c, s, op));
    d := multiset{};
    if op.Lookup? {
      d := LookupYoung(c, s, op, checks);
    } else if op.SetServer? {
      ServerStep(c, s, op);
      YoungGrows(s, Step(c, s, op), checks, checks, c.requests, d, c.requests);
    } else {
      var i := StepActs(c, s, op);
      ActsYoung(c, s, Step(c, s, op), i, if op.Timer? then 1 else 0, checks);
      assert checks[i := checks[i] + 0] == checks;
    }
  }

  lemma ServerStep(c: Limits, s: Dns, op: Op)
    requires ValidLimits(c) && Sized(c, s) && Entries(c, s) && LegalOp(c, s, op) && op.SetServer?
    ensures Step(c, s, op) == s.(servers := Step(c, s, op).servers)
  {
  }

  // Runs.

  lemma ChecksStep(c: Limits, ops: seq<Op>, a: nat, t: nat)
    requires a <= t < |ops| && (ops[t].Timer? ==> ops[t].entry < c.entries)
    ensures var checks := AllChecks(c, ops, a, t);
            AllChecks(c, ops, a, t + 1) ==
              if ops[t].Timer? then checks[ops[t].entry := checks[ops[t].entry] + 1] else checks
  {
  }

  lemma {:induction false} NoneYoung(s: Dns, checks: seq<nat>, n: nat)
    requires n <= |s.requests| && forall k :: 0 <= k < |checks| ==> checks[k] == 0
    ensures Young(s, checks, n) == multiset{}
  {
    if n > 0 {
      NoneYoung(s, checks, n - 1);
    }
  }

  lemma {:induction false} AllYoung(c: Limits, s: Dns, checks: seq<nat>, n: nat)
    requires Sized(c, s) && Pointed(c, s) && |checks| == c.entries && n <= c.requests
    requires forall k :: 0 <= k < c.entries && s.table[k].phase.Asking? ==> s.ages[k] < checks[k]
    ensures Young(s, checks, n) == Pending(s.requests, s.table, n)
  {
    hide Waiting, YoungTicket;
    if n > 0 {
      AllYoung(c, s, checks, n - 1);
      PendingIsYoung(c, s, checks, n - 1);
    }
  }

  lemma PendingIsYoung(c: Limits, s: Dns, checks: seq<nat>, r: nat)
    requires Sized(c, s) && Pointed(c, s) && |checks| == c.entries && r < c.requests
    requires forall k :: 0 <= k < c.entries && s.table[k].phase.Asking? ==> s.ages[k] < checks[k]
    ensures YoungTicket(s, checks, r) == Waiting(s.requests[r], s.table)
  {
  }

  /** What is young at `t` was accepted after `a`. */
  lemma {:induction false} YoungAccepted(c: Limits, ops: seq<Op>, states: seq<Dns>, a: nat, t: nat)
    requires ValidLimits(c) && IsRun(c, ops, states) && a <= t <= |ops|
    ensures |states[t].requests| == c.requests
    ensures states[a].accepted + Young(states[t], AllChecks(c, ops, a, t), c.requests) <= states[t].accepted
    decreases t - a
  {
    hide Inv, Step, AllChecks, Young;
    EveryRunInv(c, ops, states, t);
    PointedFromInv(c, states[t]);
    if a == t {
      assert forall k :: 0 <= k < |AllChecks(c, ops, a, t)| ==> AllChecks(c, ops, a, t)[k] == 0 by {
        ZeroChecks(c, ops, a);
      }
      NoneYoung(states[t], AllChecks(c, ops, a, t), c.requests);
    } else {
      YoungAccepted(c, ops, states, a, t - 1);
      EveryRunInv(c, ops, states, t - 1);
      assert Follows(c, states, t - 1, ops[t - 1]);
      ChecksStep(c, ops, a, t - 1);
      ChecksSize(c, ops, a, t - 1);
      var d := StepYoung(c, states[t - 1], ops[t - 1], AllChecks(c, ops, a, t - 1), AllChecks(c, ops, a, t));
    }
  }

  lemma ZeroChecks(c: Limits, ops: seq<Op>, a: nat)
    requires a <= |ops|
    ensures forall k :: 0 <= k < |AllChecks(c, ops, a, a)| ==> AllChecks(c, ops, a, a)[k] == 0
  {
  }

  lemma ChecksSize(c: Limits, ops: seq<Op>, a: nat, b: nat)
    requires a <= b <= |ops|
    ensures |AllChecks(c, ops, a, b)| == c.entries
    ensures forall k :: 0 <= k < c.entries ==> AllChecks(c, ops, a, b)[k] == Checks(ops, k, a, b)
  {
  }

  /** The timer of entry `k` is checked as often as a lookup can take. */
  ghost predicate Outlasts(c: Limits, ops: seq<Op>, a: nat, b: nat, k: nat)
    requires a <= b <= |ops|
  {
    2 * Checks(ops, k, a, b) >= c.servers * (2 + c.retries * (c.retries - 1))
  }

  lemma Cancel(a: multiset<Ticket>, p: multiset<Ticket>, f: multiset<Ticket>)
    requires a + p <= f + p
    ensures a <= f
  {
    forall x ensures a[x] <= f[x] {
      assert (a + p)[x] <= (f + p)[x];
    }
  }

  /**
   * Every callback is called in time and none is called twice: if from step `a` to step
   * `b` of any run every entry's timer is checked at least
   * DNS_MAX_SERVERS * (1 + R * (R - 1) / 2) times, then all callbacks accepted up to `a`
   * have been called at `b`, each as often as it was accepted, and no call was made that
   * was not accepted.
   */
  lemma EveryLookupAnswered(c: Limits, ops: seq<Op>, states: seq<Dns>, a: nat, b: nat)
    requires ValidLimits(c) && IsRun(c, ops, states) && a <= b <= |ops|
    requires forall k :: 0 <= k < c.entries ==> Outlasts(c, ops, a, b, k)
    ensures states[a].accepted <= Fired(states[b].calls) <= states[b].accepted
  {
    hide Inv, Follows, Checks, Fired, AllChecks, Young, Pending;
    var s, checks := states[b], AllChecks(c, ops, a, b);
    EveryRunInv(c, ops, states, b);
    PointedFromInv(c, s);
    YoungAccepted(c, ops, states, a, b);
    ChecksSize(c, ops, a, b);
    forall k | 0 <= k < c.entries && s.table[k].phase.Asking? ensures s.ages[k] < checks[k] {
      assert Outlasts(c, ops, a, b, k);
      AskingWithinBound(c, s, k);
    }
    AllYoung(c, s, checks, c.requests);
    assert Conserved(s) by {
      ConservedFromInv(c, s);
    }
    Cancel(states[a].accepted, Pending(s.requests, s.table, c.requests), Fired(s.calls));
  }

  lemma ConservedFromInv(c: Limits, s: Dns)
    requires Inv(c, s)
    ensures Conserved(s)
  {
  }

  lemma {:induction false} AcceptedOnlyByLookups(c: Limits, ops: seq<Op>, states: seq<Dns>, a: nat, b: nat)
    requires ValidLimits(c) && IsRun(c, ops, states) && a <= b <= |ops|
    requires forall t :: a <= t < b ==> !ops[t].Lookup?
    ensures states[b].accepted == states[a].accepted
    decreases b - a
  {
    hide Inv, Step;
    if a < b {
      AcceptedOnlyByLookups(c, ops, states, a, b - 1);
      EveryRunInv(c, ops, states, b - 1);
      assert Follows(c, states, b - 1, ops[b - 1]);
      if ops[b - 1].SetServer? {
        ServerStep(c, states[b - 1], ops[b - 1]);
      } else {
        var i := StepActs(c, states[b - 1], ops[b - 1]);
      }
    }
  }

  /** If moreover no lookup is enqueued meanwhile, the calls made are exactly the callbacks accepted. */
  lemma QuietRunAnswered(c: Limits, ops: seq<Op>, states: seq<Dns>, a: nat, b: nat)
    requires ValidLimits(c) && IsRun(c, ops, states) && a <= b <= |ops|
    requires forall t :: a <= t < b ==> !ops[t].Lookup?
    requires forall k :: 0 <= k < c.entries ==> Outlasts(c, ops, a, b, k)
    ensures Fired(states[b].calls) == states[a].accepted
  {
    hide Inv, Follows, Fired, Outlasts;
    AcceptedOnlyByLookups(c, ops, states, a, b);
    EveryLookupAnswered(c, ops, states, a, b);
  }

  // One entry.

  ghost predicate AsksThroughout(states: seq<Dns>, k: nat, a: nat, b: nat)
    requires b < |states|
  {
    forall t :: a <= t <= b ==> k < |states[t].table| && states[t].table[k].phase.Asking?
  }

  /** While an entry goes on asking, exactly its own checks make it older. */
  lemma {:induction false} AskingAges(c: Limits, ops: seq<Op>, states: seq<Dns>, a: nat, b: nat, k: nat)
    requires ValidLimits(c) && IsRun(c, ops, states) && a <= b <= |ops| && k < c.entries
    requires AsksThroughout(states, k, a, b)
    ensures |states[a].ages| == |states[b].ages| == c.entries
    ensures states[b].ages[k] == states[a].ages[k] + Checks(ops, k, a, b)
    decreases b - a
  {
    hide Inv, Step;
    EveryRunInv(c, ops, states, a);
    InvSized(c, states[a]);
    if a < b {
      AskingAges(c, ops, states, a, b - 1, k);
      EveryRunInv(c, ops, states, b - 1);
      EveryRunInv(c, ops, states, b);
      InvSized(c, states[b - 1]);
      InvSized(c, states[b]);
      assert Follows(c, states, b - 1, ops[b - 1]);
      AskingStep(c, states[b - 1], ops[b - 1], k);
    }
  }

  lemma AskingStep(c: Limits, s: Dns, op: Op, k: nat)
    requires ValidLimits(c) && Inv(c, s) && LegalOp(c, s, op) && k < c.entries && s.table[k].phase.Asking?
    ensures var s' := Step(c, s, op);
            && Sized(c, s')
            && (s'.table[k].phase.Asking? ==> s'.ages[k] == s.ages[k] + if op.Timer? && op.entry == k then 1 else 0)
  {
    hide Inv, Step;
    InvEntries(c, s);
    StepKeeps(c, s, op);
    InvEntries(c, Step(c, s, op));
    if op.Lookup? {
      LookupSpares(c, s, op, k);
    } else if op.SetServer? {
      ServerStep(c, s, op);
    } else {
      var i := StepActs(c, s, op);
    }
  }

  /** An entry whose timer is checked often enough stops asking at some point, whatever else happens. */
  lemma EntryEnds(c: Limits, ops: seq<Op>, states: seq<Dns>, a: nat, b: nat, k: nat)
    requires ValidLimits(c) && IsRun(c, ops, states) && a <= b <= |ops| && k < c.entries && Outlasts(c, ops, a, b, k)
    ensures !AsksThroughout(states, k, a, b)
  {
    hide Inv, Follows, Checks;
    if AsksThroughout(states, k, a, b) {
      AskingAges(c, ops, states, a, b, k);
      EveryRunInv(c, ops, states, b);
      AskingWithinBound(c, states[b], k);
    }
  }
}
