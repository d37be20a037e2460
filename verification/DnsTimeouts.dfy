/**
 * How long an unanswered lookup of the resolver of src/lwip/dns.c takes, exactly: in every
 * run, 1 + R * (R - 1) / 2 of its own timer checks for each usable server, for R retries.
 */
module DnsTimeouts {
  import opened Options
  import opened DnsNames
  import opened DnsTable
  import opened DnsSteps
  import opened DnsInvariant
  import opened DnsRuns
  import opened DnsLocal
  import opened DnsAnswers
  import opened DnsScenarios

  // One entry.

  /** The servers 0 to `k - 1` are set, and the next one, if there is one, is not. */
  ghost predicate Usable(c: Limits, servers: seq<Ip>, k: nat) {
    && 1 <= k <= c.servers == |servers|
    && (forall j :: 0 <= j < k ==> servers[j] != ANY) && (k < c.servers ==> servers[k] == ANY)
  }

  /** The ticks that the `n - 1 - server` servers still to come take. */
  ghost function ToCome(c: Limits, server: nat, n: nat): int {
    (n - 1 - server) * PerServer(c)
  }

  lemma ToComeStep(c: Limits, server: nat, n: nat)
    requires server < n
    ensures ToCome(c, server, n) >= 0 && (server + 1 == n ==> ToCome(c, server, n) == 0)
    ensures ToCome(c, server, n) == ToCome(c, server + 1, n) + PerServer(c)
    ensures server + 1 < n ==> ToCome(c, server, n) >= 1
  {
    var k := n - 1 - server;
    LaterProduct(k, PerServer(c));
    if k > 0 {
      LaterProduct(k - 1, PerServer(c));
    }
  }

  /** The ticks that are left to an asking entry that is tried with `n` servers. */
  ghost function Left(c: Limits, e: Entry, n: nat): int {
    e.tmr as int + Waits(c.retries, e.retries as nat + 1) + ToCome(c, e.server, n)
  }

  lemma RetryLeft(c: Limits, e: Entry, backup: bool, n: nat)
    requires ValidLimits(c) && EntryOk(c, e) && e.phase.Asking? && e.server < n <= c.servers
    requires if e.mdns then n == 1 else backup <==> e.server + 1 < n
    ensures var next := Retry(c, e, backup);
            && Left(c, e, n) >= 1 && (next.None? <==> Left(c, e, n) == 1)
            && (next.Some? ==>
                && next.value.phase.Asking? && next.value.mdns == e.mdns && next.value.server < n
                && Left(c, next.value, n) == Left(c, e, n) - 1)
  {
    hide ToCome;
    ToComeStep(c, e.server, n);
    assert Waits(c.retries, c.retries) == 0;
    if e.tmr == 1 && e.retries + 1 < c.retries {
      assert Waits(c.retries, e.retries as nat + 1) == e.retries as nat + 1 + Waits(c.retries, e.retries as nat + 2);
    }
  }

  /** The lookup is to be tried with `n` servers: the usable ones, or for mDNS always the first only. */
  ghost predicate Tries(c: Limits, s: Dns, e: Entry, n: nat) {
    if e.mdns then n == 1 else Usable(c, s.servers, n)
  }

  ghost predicate TriedWith(c: Limits, s: Dns, i: nat, n: nat) {
    i < |s.table| && s.table[i].server < n && Tries(c, s, s.table[i], n)
  }

  lemma TickLeft(c: Limits, s: Dns, i: nat, memory: bool, n: nat)
    requires ValidLimits(c) && Inv(c, s) && i < c.entries && s.table[i].phase.Asking? && TriedWith(c, s, i, n)
    ensures s.table[i].server < c.servers
    ensures var left, s' := Left(c, s.table[i], n), Tick(c, s, i, 0, memory);
            && left >= 1 && |s'.table| == c.entries && (s'.table[i].phase.Asking? <==> left > 1)
            && (left > 1 ==> TriedWith(c, s', i, n) && Left(c, s'.table[i], n) == left - 1)
  {
    hide Inv, Left, Finish, QueryMessage;
    EntryFromInv(c, s, i);
    var e, aged := s.table[i], s.(ages := s.ages[i := s.ages[i] + 1]);
    RetryLeft(c, e, Backup(c, s.servers, e), n);
    var next := Retry(c, e, Backup(c, s.servers, e));
    if next.None? {
      FinishActs(c, aged.(table := s.table[i := e.(tmr := 0, retries := (e.retries + 1) % 0x100)]), i, None, Unused);
    }
  }

  // Silence.

  /**
   * The step does not concern entry `i`, except for its timer: no packet means anything to
   * it, and changes of servers leave the number of servers to try as it is.
   */
  ghost predicate Silent(c: Limits, s: Dns, op: Op, i: nat, n: nat)
    requires ValidLimits(c) && Sized(c, s) && Entries(c, s) && i < c.entries
  {
    match op
    case SetServer(_, _) => Tries(c, Step(c, s, op), s.table[i], n)
    case Packet(p, from, tail, _) =>
      assert EntryOk(c, s.table[i]);
      |p| >= 16 && Addressee(s, p) == i ==> Judge(s.servers, s.table[i], p, from, tail).Ignore?
    case _ => true
  }

  lemma SilentStep(c: Limits, s: Dns, op: Op, i: nat, n: nat)
    requires ValidLimits(c) && Inv(c, s) && LegalOp(c, s, op) && i < c.entries && s.table[i].phase.Asking?
    requires Silent(c, s, op, i, n) && TriedWith(c, s, i, n)
    ensures var s', left, checked := Step(c, s, op), Left(c, s.table[i], n), op.Timer? && op.entry == i;
            && left >= 1 && |s'.table| == c.entries && (s'.table[i].phase.Asking? <==> !checked || left > 1)
            && (s'.table[i].phase.Asking? ==>
                TriedWith(c, s', i, n) && Left(c, s'.table[i], n) == left - if checked then 1 else 0)
  {
    hide Inv, Left, Tick, Receive, Enqueue, Judge;
    InvSized(c, s);
    InvEntries(c, s);
    EntryFromInv(c, s, i);
    assert Left(c, s.table[i], n) >= 1 by {
      RetryLeft(c, s.table[i], s.table[i].server + 1 < n, n);
    }
    match op
    case Lookup(_, _, _, _, _, _, _) => LookupSpares(c, s, op, i);
    case Timer(j, memory) =>
      if j == i {
        TickLeft(c, s, i, memory, n);
      } else {
        var j' := StepActs(c, s, op);
      }
    case Packet(p, from, tail, memory) => ReceiveActs(c, s, p, from, tail, memory);
    case SetServer(_, _) => ServerStep(c, s, op);
  }

  /** From step `a` to step `b` nothing but its timer concerns entry `i`. */
  ghost predicate SilentFor(c: Limits, ops: seq<Op>, states: seq<Dns>, i: nat, a: nat, b: nat, n: nat)
    requires ValidLimits(c) && b <= |ops| < |states|
  {
    forall t :: a <= t < b ==>
      i < c.entries && Sized(c, states[t]) && Entries(c, states[t]) && Silent(c, states[t], ops[t], i, n)
  }

  lemma {:induction false} SilentLeft(c: Limits, ops: seq<Op>, states: seq<Dns>, i: nat, a: nat, b: nat, n: nat)
    requires ValidLimits(c) && IsRun(c, ops, states) && a <= b <= |ops| && i < c.entries
    requires |states[a].table| == c.entries && states[a].table[i].phase.Asking? && TriedWith(c, states[a], i, n)
    requires SilentFor(c, ops, states, i, a, b, n)
    ensures LeftAt(c, states, i, a, b, n, Left(c, states[a].table[i], n) - Checks(ops, i, a, b))
    decreases b - a
  {
    hide Inv, Step, Left, TriedWith, Silent, LeftAt, Follows, Entries;
    if a == b {
      EveryRunInv(c, ops, states, a);
      EntryFromInv(c, states[a], i);
      LeftPositive(c, states[a], i, n);
      LeftStarts(c, states, i, a, n);
    } else {
      SilentLeft(c, ops, states, i, a, b - 1, n);
      EveryRunInv(c, ops, states, b - 1);
      RunFollows(c, ops, states, b - 1);
      var left := Left(c, states[a].table[i], n) - Checks(ops, i, a, b - 1);
      LeftStep(c, ops, states, i, a, b, n, left);
    }
  }

  /** The entry asks up to `b` exactly if it has ticks left, and then it has `left`. */
  ghost predicate LeftAt(c: Limits, states: seq<Dns>, i: nat, a: nat, b: nat, n: nat, left: int)
    requires a <= b < |states|
  {
    && (AsksThroughout(states, i, a, b) <==> left > 0)
    && (left > 0 ==> TriedWith(c, states[b], i, n) && Left(c, states[b].table[i], n) == left)
  }

  lemma LeftStarts(c: Limits, states: seq<Dns>, i: nat, a: nat, n: nat)
    requires a < |states| && i < |states[a].table| && states[a].table[i].phase.Asking? && TriedWith(c, states[a], i, n)
    requires Left(c, states[a].table[i], n) >= 1
    ensures LeftAt(c, states, i, a, a, n, Left(c, states[a].table[i], n))
  {
    hide Left, TriedWith;
  }

  lemma RunFollows(c: Limits, ops: seq<Op>, states: seq<Dns>, t: nat)
    requires IsRun(c, ops, states) && t < |ops|
    ensures |states| == |ops| + 1 && Follows(c, states, t, ops[t])
  {
  }

  lemma LeftStep(c: Limits, ops: seq<Op>, states: seq<Dns>, i: nat, a: nat, b: nat, n: nat, left: int)
    requires ValidLimits(c) && a < b <= |ops| < |states| && i < c.entries
    requires Inv(c, states[b - 1]) && Follows(c, states, b - 1, ops[b - 1])
    requires Silent(c, states[b - 1], ops[b - 1], i, n)
    requires LeftAt(c, states, i, a, b - 1, n, left)
    ensures var op := ops[b - 1];
            LeftAt(c, states, i, a, b, n, left - if op.Timer? && op.entry == i then 1 else 0)
  {
    hide Inv, Step, Left, TriedWith, Silent, LegalOp, Entries;
    if left > 0 {
      assert i < |states[b - 1].table| && states[b - 1].table[i].phase.Asking?;
      SilentStep(c, states[b - 1], ops[b - 1], i, n);
      ThroughoutStep(states, i, a, b);
    } else {
      NotThroughoutStep(states, i, a, b);
    }
  }

  lemma LeftPositive(c: Limits, s: Dns, i: nat, n: nat)
    requires ValidLimits(c) && i < |s.table| && EntryOk(c, s.table[i]) && s.table[i].phase.Asking?
    requires TriedWith(c, s, i, n)
    ensures Left(c, s.table[i], n) >= 1
  {
    RetryLeft(c, s.table[i], s.table[i].server + 1 < n, n);
  }

  lemma ThroughoutStep(states: seq<Dns>, i: nat, a: nat, b: nat)
    requires a < b < |states| && i < |states[b].table| && AsksThroughout(states, i, a, b - 1)
    ensures AsksThroughout(states, i, a, b) <==> states[b].table[i].phase.Asking?
  {
  }

  lemma NotThroughoutStep(states: seq<Dns>, i: nat, a: nat, b: nat)
    requires a < b < |states| && !AsksThroughout(states, i, a, b - 1)
    ensures !AsksThroughout(states, i, a, b)
  {
  }

  // Lookups from their start on.

  /** The step before `a` starts a lookup on entry `i`. */
  ghost predicate StartsAt(states: seq<Dns>, i: nat, a: nat) {
    && 0 < a < |states| && i < |states[a - 1].table| && i < |states[a].table|
    && !states[a - 1].table[i].phase.Asking? && states[a].table[i].phase.Asking?
  }

  lemma StartsFresh(c: Limits, ops: seq<Op>, states: seq<Dns>, i: nat, a: nat)
    requires ValidLimits(c) && IsRun(c, ops, states) && StartsAt(states, i, a)
    ensures var e := states[a].table[i]; e.server == 0 && e.tmr == 1 && e.retries == 0
  {
    hide Inv, Step;
    EveryRunInv(c, ops, states, a - 1);
    InvSized(c, states[a - 1]);
    assert Follows(c, states, a - 1, ops[a - 1]);
    if ops[a - 1].Lookup? {
      LookupSpares(c, states[a - 1], ops[a - 1], i);
    } else if ops[a - 1].SetServer? {
      ServerStep(c, states[a - 1], ops[a - 1]);
    } else {
      var j := StepActs(c, states[a - 1], ops[a - 1]);
    }
  }

  /** A lookup starts at `a`, to be tried with `n` servers, and up to `b` nothing but its timer concerns it. */
  ghost predicate Unanswered(c: Limits, ops: seq<Op>, states: seq<Dns>, i: nat, a: nat, b: nat, n: nat)
    requires ValidLimits(c) && IsRun(c, ops, states)
  {
    && a <= b <= |ops| && i < c.entries && StartsAt(states, i, a)
    && Tries(c, states[a], states[a].table[i], n) && SilentFor(c, ops, states, i, a, b, n)
  }

  lemma UnansweredLeft(c: Limits, ops: seq<Op>, states: seq<Dns>, i: nat, a: nat, b: nat, n: nat)
    requires ValidLimits(c) && IsRun(c, ops, states) && Unanswered(c, ops, states, i, a, b, n)
    ensures 1 <= n <= c.servers && (AsksThroughout(states, i, a, b) <==> Checks(ops, i, a, b) < n * PerServer(c))
  {
    hide Inv, Step, Follows;
    EveryRunInv(c, ops, states, a);
    InvSized(c, states[a]);
    StartsFresh(c, ops, states, i, a);
    var e := states[a].table[i];
    assert Left(c, e, n) == n * PerServer(c) by {
      LaterProduct(n, PerServer(c));
    }
    SilentLeft(c, ops, states, i, a, b, n);
  }

  /**
   * In every run, an unanswered lookup with `n` usable servers, or 1 for mDNS, asks until
   * its timer has been checked exactly n * (1 + R * (R - 1) / 2) times.
   */
  lemma SilentLookup(c: Limits, ops: seq<Op>, states: seq<Dns>, i: nat, a: nat, b: nat, n: nat)
    requires ValidLimits(c) && IsRun(c, ops, states) && Unanswered(c, ops, states, i, a, b, n)
    ensures AsksThroughout(states, i, a, b) <==>
              2 * Checks(ops, i, a, b) < n * (2 + c.retries * (c.retries - 1))
  {
    hide IsRun, AsksThroughout, Unanswered, Checks;
    UnansweredLeft(c, ops, states, i, a, b, n);
    BoundClosedForm(c);
    TwiceProduct(n, PerServer(c), 2 + c.retries * (c.retries - 1));
  }

  // The documented timeout.

  lemma DocumentedProduct(n: nat, retries: nat, per: nat)
    requires n >= 1 && retries >= 1 && 2 * per == 2 + retries * (retries - 1)
    ensures n * per == retries <==> n == 1 && retries <= 2
    ensures n * per >= retries
  {
    if retries > 2 {
      Times(retries, retries - 1, 2);
    }
    if n >= 2 {
      Times(per, n, 2);
    }
  }

  lemma Times(a: nat, b: int, d: int)
    requires b >= d
    ensures a * b >= a * d
  {
    assert a * (b - d) >= 0;
  }

  /**
   * The documented timeout: an unanswered lookup ends with exactly the R-th check of its
   * timer if and only if it has one server to try and R is 1 or 2.
   */
  lemma DocumentedTimeout(c: Limits, ops: seq<Op>, states: seq<Dns>, i: nat, a: nat, b: nat, n: nat)
    requires ValidLimits(c) && IsRun(c, ops, states) && Unanswered(c, ops, states, i, a, b, n)
    requires a < b && ops[b - 1].Timer? && ops[b - 1].entry == i && Checks(ops, i, a, b) == c.retries
    ensures AsksThroughout(states, i, a, b - 1) && !AsksThroughout(states, i, a, b) <==>
              n == 1 && c.retries <= 2
  {
    hide Follows, AsksThroughout, Silent;
    UnansweredLeft(c, ops, states, i, a, b, n);
    UnansweredLeft(c, ops, states, i, a, b - 1, n);
    BoundClosedForm(c);
    DocumentedProduct(n, c.retries, PerServer(c));
  }

  /** With the default of 4 retries a lookup asks for 7 checks with each server; 4 are documented. */
  lemma DefaultTimeout(c: Limits, ops: seq<Op>, states: seq<Dns>, i: nat, a: nat, b: nat, n: nat)
    requires ValidLimits(c) && IsRun(c, ops, states) && Unanswered(c, ops, states, i, a, b, n) && c.retries == 4
    ensures AsksThroughout(states, i, a, b) <==> Checks(ops, i, a, b) < 7 * n
  {
    hide Follows, AsksThroughout, Silent;
    UnansweredLeft(c, ops, states, i, a, b, n);
    BoundClosedForm(c);
    assert PerServer(c) == 7;
  }

  // Such lookups exist.

  lemma {:induction false} TicksRun(c: Limits, n: nat, ticks: nat) returns (ops: seq<Op>, states: seq<Dns>, a: nat)
    requires ValidLimits(c) && 1 <= n <= c.servers
    ensures IsRun(c, ops, states) && a + ticks == |ops| && Unanswered(c, ops, states, 0, a, |ops|, n)
    ensures !states[a].table[0].mdns && Checks(ops, 0, a, |ops|) == ticks
    ensures forall t :: a <= t < |ops| ==> ops[t] == Op.Timer(0, false)
  {
    hide Step, Inv, Follows, SilentFor;
    if ticks == 0 {
      ops, states := FinishedRun(c, 0, n, None);
      ops, states := Ask(c, ops, states, 0, 0, n, None);
      a := |ops|;
      OnlyTicksSilent(c, ops, states, a, n);
      assert Occupied(states[a].table[0], 0, 0, 1) && Occupied(states[a - 1].table[0], 0, 0, 0);
    } else {
      var ops0, states0;
      ops0, states0, a := TicksRun(c, n, ticks - 1);
      ops, states := Extend(c, ops0, states0, Op.Timer(0, false));
      ChecksPrefix(ops0, ops, 0, a, |ops0|);
      OnlyTicksSilent(c, ops, states, a, n);
    }
  }

  lemma OnlyTicksSilent(c: Limits, ops: seq<Op>, states: seq<Dns>, a: nat, n: nat)
    requires ValidLimits(c) && IsRun(c, ops, states) && forall t :: a <= t < |ops| ==> ops[t].Timer?
    ensures SilentFor(c, ops, states, 0, a, |ops|, n)
  {
    hide Step, Inv, Follows;
    forall t | a <= t < |ops|
      ensures Sized(c, states[t]) && Entries(c, states[t]) && Silent(c, states[t], ops[t], 0, n)
    {
      EveryRunInv(c, ops, states, t);
      InvEntries(c, states[t]);
    }
  }

  lemma {:induction false} ChecksPrefix(ops0: seq<Op>, ops: seq<Op>, k: nat, a: nat, b: nat)
    requires a <= b <= |ops0| && ops0 <= ops
    ensures Checks(ops, k, a, b) == Checks(ops0, k, a, b)
    decreases b - a
  {
    if a < b {
      ChecksPrefix(ops0, ops, k, a, b - 1);
    }
  }

  /** The documented timeout holds for every unanswered lookup of every run. */
  ghost predicate DocumentedAlways(c: Limits)
    requires ValidLimits(c)
  {
    forall ops: seq<Op>, states: seq<Dns>, i: nat, a: nat, b: nat, n: nat ::
      IsRun(c, ops, states) && Unanswered(c, ops, states, i, a, b, n) ==>
        (AsksThroughout(states, i, a, b) <==> Checks(ops, i, a, b) < c.retries)
  }

  /** It does exactly when only one server can be set and there are at most two retries. */
  lemma DocumentedAlwaysIff(c: Limits)
    requires ValidLimits(c)
    ensures DocumentedAlways(c) <==> c.servers == 1 && c.retries <= 2
  {
    hide Follows, StartsAt, SilentFor, Usable, AsksThroughout, Checks;
    BoundClosedForm(c);
    if c.servers == 1 && c.retries <= 2 {
      forall ops: seq<Op>, states: seq<Dns>, i: nat, a: nat, b: nat, n: nat |
        IsRun(c, ops, states) && Unanswered(c, ops, states, i, a, b, n)
        ensures AsksThroughout(states, i, a, b) <==> Checks(ops, i, a, b) < c.retries
      {
        UnansweredLeft(c, ops, states, i, a, b, n);
      }
    } else {
      var ops, states, a := TicksRun(c, c.servers, c.retries);
      UnansweredLeft(c, ops, states, 0, a, |ops|, c.servers);
      DocumentedProduct(c.servers, c.retries, PerServer(c));
      assert AsksThroughout(states, 0, a, |ops|) && Checks(ops, 0, a, |ops|) == c.retries;
    }
  }
}
