/**
 * When a source port of the resolver of src/lwip/dns.c is closed while a lookup still asks
 * through it: in general, and for callers that always pass a callback.
 */
module DnsPorts {
  import opened Options
  import opened LinkedSlots
  import opened CaseFold
  import opened DnsNames
  import opened DnsTable
  import opened DnsSteps
  import opened DnsInvariant
  import opened DnsRuns
  import opened DnsLocal
  import opened DnsScenarios

  // The source ports.

  /** Entry `i` asks through a port that is closed. */
  ghost predicate AsksThroughClosed(s: Dns, i: nat) {
    i < |s.table| && s.table[i].phase.Asking? && s.table[i].port < |s.ports| && !s.ports[s.table[i].port]
  }

  /**
   * A run that closes a port that is still in use: without callbacks for all sizes with
   * fewer requests than entries, with callbacks if there are at least two requests and
   * finished entries are kept.
   */
  lemma PortClosedInUse(c: Limits, cb: Option<Callback>) returns (ops: seq<Op>, states: seq<Dns>)
    requires ValidLimits(c) && c.requests < c.entries && (cb.Some? ==> c.requests >= 2 && c.maxTtl >= 1)
    ensures IsRun(c, ops, states) && AsksThroughClosed(states[|ops|], c.requests) && Pass(ops, cb)
  {
    hide Asked, IsRun;
    var first := if cb.Some? then c.requests - 1 else 0;
    ops, states := FinishedRun(c, first, 1, cb);
    ops, states := Asks(c, ops, states, first, first, c.requests + 1, 1, cb);
    ops, states := EndsRun(c, ops, states, first, c.requests, cb);
    RunEnds(c, ops, states);
    assert Asker(states[|ops|].table[c.requests], c.requests);
  }

  ghost predicate SomeRunClosesInUse(c: Limits) {
    exists ops: seq<Op>, states: seq<Dns>, t: nat, i: nat ::
      IsRun(c, ops, states) && t < |states| && AsksThroughClosed(states[t], i)
  }

  /** A lookup keeps its port open in every run exactly when there are as many requests as entries. */
  lemma PortsSafeIffEqualTables(c: Limits)
    requires ValidLimits(c)
    ensures SomeRunClosesInUse(c) <==> c.requests < c.entries
  {
    hide IsRun, AsksThroughClosed, Inv;
    if c.requests < c.entries {
      var ops, states := PortClosedInUse(c, None);
      RunEnds(c, ops, states);
      assert |ops| < |states| && AsksThroughClosed(states[|ops|], c.requests);
    } else if SomeRunClosesInUse(c) {
      var ops: seq<Op>, states: seq<Dns>, t: nat, i: nat :|
        IsRun(c, ops, states) && t < |states| && AsksThroughClosed(states[t], i);
      EveryRunInv(c, ops, states, t);
      NeverClosed(c, states[t], i);
    }
  }

  lemma NeverClosed(c: Limits, s: Dns, i: nat)
    requires Inv(c, s) && c.requests == c.entries
    ensures !AsksThroughClosed(s, i)
  {
    if i < |s.table| && s.table[i].phase.Asking? {
      AskingPortOpen(c, s, i);
    }
  }

  // Callers that always pass a callback.

  /** Every lookup passes a callback. */
  ghost predicate WithCallbacks(ops: seq<Op>) {
    forall t :: 0 <= t < |ops| && ops[t].Lookup? ==> ops[t].cb.Some?
  }

  ghost predicate HasRequest(s: Dns, k: nat) {
    exists r :: 0 <= r < |s.requests| && WaitsFor(s.requests[r], k)
  }

  /** A request is pending for every entry that asks. */
  ghost predicate Held(s: Dns) {
    forall k :: 0 <= k < |s.table| && s.table[k].phase.Asking? ==> HasRequest(s, k)
  }

  /** Every entry that asks does so through an open port. */
  ghost predicate Open(c: Limits, s: Dns)
    requires Sized(c, s)
  {
    forall k :: 0 <= k < c.entries && s.table[k].phase.Asking? ==> s.table[k].port < c.ports && s.ports[s.table[k].port]
  }

  /** Only the first DNS_MAX_REQUESTS entries ask. */
  ghost predicate Low(c: Limits, s: Dns) {
    forall k :: 0 <= k < |s.table| && s.table[k].phase.Asking? ==> k < c.requests
  }

  /** What holds with callbacks and one request, or if finished entries are not kept. */
  ghost predicate Guarded(c: Limits, s: Dns) {
    Sized(c, s) && Held(s) && (c.requests == 1 || Low(c, s))
  }

  ghost function RequestOf(s: Dns, k: nat): (r: nat)
    requires HasRequest(s, k)
    ensures r < |s.requests| && WaitsFor(s.requests[r], k)
  {
    var r :| 0 <= r < |s.requests| && WaitsFor(s.requests[r], k);
    r
  }

  /** If another entry asks, the check for shared ports sees it. */
  lemma OthersSeen(c: Limits, s: Dns, i: nat, k: nat)
    requires ValidLimits(c) && Guarded(c, s) && i < c.entries && k < c.entries && BothAsk(s.table, i, k)
    ensures k < c.requests
  {
    if c.requests == 1 {
      SoleRequest(c, s, i);
      SoleRequest(c, s, k);
    }
  }

  /** With one request, it waits for the entry that asks. */
  lemma SoleRequest(c: Limits, s: Dns, k: nat)
    requires Guarded(c, s) && c.requests == 1 && k < c.entries && s.table[k].phase.Asking?
    ensures s.requests[0].entry == k
  {
    assert HasRequest(s, k);
    assert RequestOf(s, k) == 0;
  }

  lemma GuardedActs(c: Limits, s: Dns, s': Dns, i: nat, ticks: nat)
    requires ValidLimits(c) && Guarded(c, s) && Sized(c, s') && ActsOn(c, s, s', i, ticks)
    ensures Guarded(c, s')
  {
    forall k | 0 <= k < c.entries && s'.table[k].phase.Asking? ensures s.table[k].phase.Asking? && HasRequest(s', k) {
      assert s.table[k].phase.Asking? && HasRequest(s, k);
      var r := RequestOf(s, k);
      assert SameRequest(s.requests[r], s'.requests[r], i);
      assert WaitsFor(s'.requests[r], k);
    }
  }

  lemma OpenActs(c: Limits, s: Dns, s': Dns, i: nat, ticks: nat)
    requires ValidLimits(c) && Guarded(c, s) && Open(c, s) && Sized(c, s') && ActsOn(c, s, s', i, ticks)
    ensures Open(c, s')
  {
    forall k | 0 <= k < c.entries && s'.table[k].phase.Asking?
      ensures s'.table[k].port < c.ports && s'.ports[s'.table[k].port]
    {
      if k != i {
        assert s'.table[k] == s.table[k];
        if s.table[i].phase.Asking? {
          OthersSeen(c, s, i, k);
        }
      }
    }
  }

  /** If finished entries are not kept, a lookup takes one of the first DNS_MAX_REQUESTS entries. */
  lemma PickIsLow(c: Limits, s: Dns, r: nat)
    requires ValidLimits(c) && Guarded(c, s) && Entries(c, s) && c.maxTtl == 0 && r < c.requests
    requires s.requests[r].found.None?
    requires PickEntry(s) < c.entries
    ensures PickEntry(s) < c.requests
  {
    var i := PickEntry(s);
    if i >= c.requests {
      forall q | 0 <= q < c.requests ensures HasRequest(s, q) {
        assert EntryOk(c, s.table[q]) && EntryOk(c, s.table[i]);
        assert !s.table[q].phase.Unused? by {
          PickIsFirst(s, q);
        }
      }
      var taken := seq(c.requests, q requires 0 <= q < c.requests => RequestOf(s, q)) + [r];
      assert Distinct(taken);
      Pigeonhole(taken, c.requests);
    }
  }

  lemma PickIsFirst(s: Dns, q: nat)
    requires PickEntry(s) < |s.table| && s.table[PickEntry(s)].phase.Unused? && q < PickEntry(s)
    ensures !s.table[q].phase.Unused?
  {
  }

  lemma BegunGuarded(c: Limits, s: Dns, i: nat, r: nat, name: HostName, port: nat, op: Op)
    requires ValidLimits(c) && Guarded(c, s) && Entries(c, s) && op.Lookup? && op.cb.Some?
    requires i == PickEntry(s) < c.entries && r < c.requests && port < c.ports && s.requests[r].found.None?
    requires !s.table[i].phase.Asking? && (c.requests == 1 || c.maxTtl == 0)
    ensures var t := Started(s, i, r, name, port, op.cb, op.mdns, op.txid);
            Guarded(c, t) && (Open(c, s) ==> Open(c, t)) && t.table[i].phase.Asking? && t.table[i].server == 0
  {
    hide PickEntry;
    var t := Started(s, i, r, name, port, op.cb, op.mdns, op.txid);
    if c.requests > 1 {
      PickIsLow(c, s, r);
    }
    forall k | 0 <= k < c.entries && t.table[k].phase.Asking? ensures HasRequest(t, k) {
      if k == i {
        assert WaitsFor(t.requests[r], i);
      } else {
        assert t.table[k] == s.table[k] && HasRequest(s, k);
        assert WaitsFor(t.requests[RequestOf(s, k)], k);
      }
    }
  }

  /** A lookup that joins, or that finds no socket, leaves the entries that ask as they are. */
  lemma SameAskersGuarded(c: Limits, s: Dns, s': Dns, r: nat)
    requires ValidLimits(c) && Guarded(c, s) && Sized(c, s') && r < c.requests && s.requests[r].found.None?
    requires forall q :: 0 <= q < c.requests && q != r ==> s'.requests[q] == s.requests[q]
    requires forall k :: 0 <= k < c.entries && s'.table[k].phase.Asking? ==> s.table[k] == s'.table[k]
    requires s'.ports == s.ports
    ensures Guarded(c, s') && (Open(c, s) ==> Open(c, s'))
  {
    forall k | 0 <= k < c.entries && s'.table[k].phase.Asking? ensures HasRequest(s', k) {
      assert HasRequest(s, k);
      assert WaitsFor(s'.requests[RequestOf(s, k)], k);
    }
  }

  lemma GuardedStep(c: Limits, s: Dns, op: Op)
    requires ValidLimits(c) && Inv(c, s) && LegalOp(c, s, op) && (c.requests == 1 || c.maxTtl == 0)
    requires Guarded(c, s) && Open(c, s) && (op.Lookup? ==> op.cb.Some?)
    ensures Guarded(c, Step(c, s, op)) && Open(c, Step(c, s, op))
  {
    hide Inv, Step, Guarded, Open, Send, Started, LowerAll;
    InvEntries(c, s);
    StepKeeps(c, s, op);
    var s' := Step(c, s, op);
    InvEntries(c, s');
    match op {
      case Timer(_, _) =>
        var i := StepActs(c, s, op);
        GuardedActs(c, s, s', i, 1);
        OpenActs(c, s, s', i, 1);
      case Packet(_, _, _, _) =>
        var i := StepActs(c, s, op);
        GuardedActs(c, s, s', i, 0);
        OpenActs(c, s, s', i, 0);
      case SetServer(_, _) =>
        ServersOnly(c, s, op);
      case Lookup(host, len, cb, mdns, socket, txid, memory) =>
        var how := LookupComes(c, s, op);
        match how {
          case Full =>
          case Joined(r, dup) => SameAskersGuarded(c, s, s', r);
          case Refused(i, r) => SameAskersGuarded(c, s, s', r);
          case Begun(i, r, port) =>
            BegunGuarded(c, s, i, r, Kept(host, len), port, op);
            BegunSized(c, s, i, r, Kept(host, len), port, op);
            var t := Started(s, i, r, Kept(host, len), port, cb, mdns, txid);
            SendActs(c, t, i, memory);
            GuardedActs(c, t, s', i, 0);
            OpenActs(c, t, s', i, 0);
        }
    }
  }

  lemma BegunSized(c: Limits, s: Dns, i: nat, r: nat, name: HostName, port: nat, op: Op)
    requires Sized(c, s) && op.Lookup? && i < c.entries && r < c.requests && port < c.ports
    ensures Sized(c, Started(s, i, r, name, port, op.cb, op.mdns, op.txid))
  {
  }

  lemma ServersOnly(c: Limits, s: Dns, op: Op)
    requires ValidLimits(c) && Sized(c, s) && Entries(c, s) && LegalOp(c, s, op) && op.SetServer?
    requires Guarded(c, s) && Open(c, s)
    ensures Sized(c, Step(c, s, op)) && Guarded(c, Step(c, s, op)) && Open(c, Step(c, s, op))
  {
    var s' := Step(c, s, op);
    forall k | 0 <= k < c.entries && s'.table[k].phase.Asking? ensures HasRequest(s', k) {
      assert HasRequest(s, k);
      assert WaitsFor(s'.requests[RequestOf(s, k)], k);
    }
  }

  lemma {:induction false} EveryRunGuarded(c: Limits, ops: seq<Op>, states: seq<Dns>, t: nat)
    requires ValidLimits(c) && IsRun(c, ops, states) && t < |states| && WithCallbacks(ops)
    requires (c.requests == 1 || c.maxTtl == 0)
    ensures Guarded(c, states[t]) && Open(c, states[t])
    decreases t
  {
    hide Inv, Step, HasRequest;
    if t > 0 {
      EveryRunGuarded(c, ops, states, t - 1);
      EveryRunInv(c, ops, states, t - 1);
      assert Follows(c, states, t - 1, ops[t - 1]);
      GuardedStep(c, states[t - 1], ops[t - 1]);
    }
  }

  ghost predicate SomeCallbackRunClosesInUse(c: Limits) {
    exists ops: seq<Op>, states: seq<Dns>, t: nat, i: nat ::
      IsRun(c, ops, states) && WithCallbacks(ops) && t < |states| && AsksThroughClosed(states[t], i)
  }

  lemma OpenNotClosed(c: Limits, s: Dns, i: nat)
    requires Sized(c, s) && Open(c, s)
    ensures !AsksThroughClosed(s, i)
  {
  }

  /**
   * With callbacks only, one request is safe, since then one entry asks at a time.  A port
   * is closed in use in some run exactly if there are at least two requests but fewer than
   * entries, and finished entries are kept at all.
   */
  lemma CallbackPortsIff(c: Limits)
    requires ValidLimits(c)
    ensures SomeCallbackRunClosesInUse(c) <==> 2 <= c.requests < c.entries && c.maxTtl >= 1
  {
    hide IsRun, AsksThroughClosed, Inv, Guarded, Open;
    if 2 <= c.requests < c.entries && c.maxTtl >= 1 {
      var ops, states := PortClosedInUse(c, Some(Callback(0, 0)));
      RunEnds(c, ops, states);
      assert WithCallbacks(ops) && |ops| < |states| && AsksThroughClosed(states[|ops|], c.requests);
    } else if SomeCallbackRunClosesInUse(c) {
      var ops: seq<Op>, states: seq<Dns>, t: nat, i: nat :|
        IsRun(c, ops, states) && WithCallbacks(ops) && t < |states| && AsksThroughClosed(states[t], i);
      if c.requests == c.entries {
        EveryRunInv(c, ops, states, t);
        NeverClosed(c, states[t], i);
      } else {
        EveryRunGuarded(c, ops, states, t);
        GuardedSized(c, states[t]);
        OpenNotClosed(c, states[t], i);
      }
    }
  }

  lemma GuardedSized(c: Limits, s: Dns)
    requires Guarded(c, s)
    ensures Sized(c, s)
  {
  }
}
