/**
 * Runs of the resolver of src/lwip/dns.c that exist for all table sizes: lookups that are
 * answered, lookups that ask through one source port, and the end of those.
 */
module DnsScenarios {
  import opened Options
  import opened CaseFold
  import opened DnsNames
  import opened DnsTable
  import opened DnsSteps
  import opened DnsInvariant
  import opened DnsRuns
  import opened DnsLocal
  import opened DnsReplies

  // Building runs.

  /** A run goes on with any legal step. */
  lemma Extend(c: Limits, ops: seq<Op>, states: seq<Dns>, op: Op) returns (ops': seq<Op>, states': seq<Dns>)
    requires ValidLimits(c) && IsRun(c, ops, states) && LegalOp(c, states[|ops|], op)
    ensures Sized(c, states[|ops|]) && Entries(c, states[|ops|])
    ensures ops' == ops + [op] && states' == states + [Step(c, states[|ops|], op)]
    ensures IsRun(c, ops', states')
  {
    hide Step, Initial, Inv, LegalOp;
    EveryRunInv(c, ops, states, |ops|);
    InvEntries(c, states[|ops|]);
    ops', states' := ops + [op], states + [Step(c, states[|ops|], op)];
    forall t | 0 <= t < |ops'| ensures Follows(c, states', t, ops'[t]) {
      if t < |ops| {
        assert Follows(c, states, t, ops[t]);
      }
    }
  }

  /** All lookups pass the callback `cb`, or none if that is `None`. */
  ghost predicate Pass(ops: seq<Op>, cb: Option<Callback>) {
    forall t :: 0 <= t < |ops| && ops[t].Lookup? ==> ops[t].cb == cb
  }

  lemma RunEnds(c: Limits, ops: seq<Op>, states: seq<Dns>)
    requires ValidLimits(c) && IsRun(c, ops, states)
    ensures |states| == |ops| + 1 && Inv(c, states[|ops|])
    ensures Sized(c, states[|ops|]) && Entries(c, states[|ops|])
  {
    hide Inv, Follows;
    EveryRunInv(c, ops, states, |ops|);
    InvEntries(c, states[|ops|]);
  }

  // Lookups that ask through port 0.

  /** Names of two letters from 'a' to 'p', one for each entry. */
  function HostOf(q: nat): HostName
    requires q < 256
  {
    [97 + q / 16, 97 + q % 16]
  }

  lemma HostsDiffer(q: nat, m: nat)
    requires q < 256 && m < 256 && q != m
    ensures !SameHost(HostOf(m), 2, HostOf(q))
  {
    var a, b := HostOf(m), HostOf(q);
    assert Lower(a[0]) != Lower(b[0]) || Lower(a[1]) != Lower(b[1]);
  }

  /** Entry `q` asks for its name through port 0, as it was started. */
  ghost predicate Asker(e: Entry, q: nat) {
    && q < 256 && e.phase.Asking? && e.txid == q && e.server == 0 && e.tmr == 1 && e.retries == 0
    && e.port == 0 && e.name == HostOf(q) && !e.mdns
  }

  /** Only port 0 may be open. */
  ghost predicate OnlyFirst(ports: seq<bool>, open: bool) {
    forall p :: 0 <= p < |ports| ==> (ports[p] <==> p == 0 && open)
  }

  /** The first `n` servers are set. */
  ghost predicate FirstSet(servers: seq<Ip>, n: nat) {
    forall j :: 0 <= j < |servers| ==> servers[j] == if j < n then 1 else ANY
  }

  /** Without callbacks no request is pending; with callbacks one for each of the `m` entries from `first` on. */
  ghost predicate PendingFor(requests: seq<Request>, first: nat, m: nat, cb: Option<Callback>) {
    forall r :: 0 <= r < |requests| ==>
      && requests[r].found == (if r < m then cb else None)
      && (r < m && cb.Some? ==> requests[r].entry == first + r)
  }

  /**
   * The entries before `first` are finished, those from there up to `m` ask with the
   * callback `cb`, the others are unused.
   */
  ghost predicate Asked(c: Limits, s: Dns, first: nat, m: nat, n: nat, cb: Option<Callback>) {
    && Sized(c, s) && first <= m <= c.entries <= 255 && s.lastPort == 0 && OnlyFirst(s.ports, m > first)
    && FirstSet(s.servers, n) && PendingFor(s.requests, first, m - first, cb)
    && forall q :: 0 <= q < c.entries ==> Occupied(s.table[q], q, first, m)
  }

  ghost predicate Occupied(e: Entry, q: nat, first: nat, m: nat) {
    if q < first then e.phase.Done? else if q < m then Asker(e, q) else e.phase.Unused?
  }

  lemma {:induction false} ServersRun(c: Limits, n: nat, cb: Option<Callback>) returns (ops: seq<Op>, states: seq<Dns>)
    requires ValidLimits(c) && n <= c.servers
    ensures IsRun(c, ops, states) && Asked(c, states[|ops|], 0, 0, n, cb) && states[|ops|].seqno == 0
    ensures Pass(ops, cb)
  {
    hide Follows;
    if n == 0 {
      ops, states := [], [Initial(c)];
    } else {
      ops, states := ServersRun(c, n - 1, cb);
      ops, states := Extend(c, ops, states, Op.SetServer(n - 1, 1));
    }
  }

  /** The lookup that is to take entry `q`. */
  ghost function AskFor(q: nat, cb: Option<Callback>, socket: bool): Op
    requires q < 256
  {
    Op.Lookup(HostOf(q), 2, cb, false, socket, q, false)
  }

  lemma {:induction false} OnlyFirstReused(ports: seq<bool>, i: nat, n: nat)
    requires OnlyFirst(ports, true) && 1 <= i <= |ports| && n == |ports| - i + 1
    ensures ReusePort(ports, i, n) == 0
    decreases n
  {
    if i < |ports| {
      OnlyFirstReused(ports, i + 1, n - 1);
    }
  }

  lemma AskPort(c: Limits, s: Dns, open: bool)
    requires ValidLimits(c) && Sized(c, s) && s.lastPort == 0 && OnlyFirst(s.ports, open)
    ensures ChosenPort(c, s, !open) == 0
  {
    if open {
      OnlyFirstReused(s.ports, 1, c.ports);
    } else {
      assert !s.ports[0];
    }
  }

  lemma NoDuplicate(c: Limits, s: Dns, first: nat, m: nat, n: nat, cb: Option<Callback>)
    requires Asked(c, s, first, m, n, cb)
    ensures FindDuplicate(s.table, HostOf(m), 2, 0) == c.entries && (m < 256 ==> FreshId(s.table, m))
  {
    forall q | 0 <= q < c.entries && s.table[q].phase.Asking?
      ensures !Duplicates(HostOf(m), 2, s.table[q]) && s.table[q].txid != m
    {
      assert Occupied(s.table[q], q, first, m);
      HostsDiffer(q, m);
    }
  }

  lemma NextEntry(c: Limits, s: Dns, first: nat, m: nat, n: nat, cb: Option<Callback>)
    requires Asked(c, s, first, m, n, cb) && m < c.entries
    ensures PickEntry(s) == m
  {
    hide Oldest;
    forall q | 0 <= q <= m ensures s.table[q].phase.Unused? <==> q == m {
      assert Occupied(s.table[q], q, first, m);
    }
    var u := FirstUnused(s.table, 0);
    assert s.table[m].phase.Unused?;
    assert u <= m && s.table[u].phase.Unused?;
  }

  lemma NextRequest(c: Limits, s: Dns, first: nat, m: nat, n: nat, cb: Option<Callback>)
    requires ValidLimits(c) && Asked(c, s, first, m, n, cb) && (cb.Some? ==> m - first < c.requests)
    ensures FreeRequest(s.requests, 0) == if cb.Some? then m - first else 0
  {
    var r := FreeRequest(s.requests, 0);
    var k := if cb.Some? then m - first else 0;
    assert s.requests[k].found.None?;
    assert forall q :: 0 <= q < k ==> s.requests[q].found.Some?;
  }

  /** The next lookup takes the next entry and port 0; all other entries stay. */
  lemma AskStep(c: Limits, s: Dns, first: nat, m: nat, n: nat, cb: Option<Callback>)
    requires ValidLimits(c) && Sized(c, s) && Entries(c, s) && 1 <= n <= c.servers
    requires Asked(c, s, first, m, n, cb) && m < c.entries && (cb.Some? ==> m - first < c.requests)
    ensures var op := AskFor(m, cb, m == first);
            && LegalOp(c, s, op) && Asked(c, Step(c, s, op), first, m + 1, n, cb)
            && Step(c, s, op).seqno == (s.seqno + 1) % 0x100 && Step(c, s, op).table[m].seqno == s.seqno
            && forall q :: 0 <= q < c.entries && q != m ==> Step(c, s, op).table[q] == s.table[q]
  {
    hide Step, LegalOp, Occupied, HostOf, Started, Asked;
    AskIsStarted(c, s, first, m, n, cb);
    StartedAsked(c, s, first, m, n, cb);
  }

  /** The request that the next lookup takes. */
  function RequestFor(first: nat, m: nat, cb: Option<Callback>): nat
    requires first <= m
  {
    if cb.Some? then m - first else 0
  }

  lemma AskIsStarted(c: Limits, s: Dns, first: nat, m: nat, n: nat, cb: Option<Callback>)
    requires ValidLimits(c) && Sized(c, s) && Entries(c, s) && 1 <= n <= c.servers
    requires Asked(c, s, first, m, n, cb) && m < c.entries && (cb.Some? ==> m - first < c.requests)
    ensures var op := AskFor(m, cb, m == first);
            LegalOp(c, s, op) && Step(c, s, op) == Started(s, m, RequestFor(first, m, cb), HostOf(m), 0, cb, false, m)
  {
    hide SameHost, PickEntry, ChosenPort, FreeRequest, FindDuplicate, QueryMessage, Finish, Occupied;
    AskPort(c, s, m > first);
    NoDuplicate(c, s, first, m, n, cb);
    NextEntry(c, s, first, m, n, cb);
    NextRequest(c, s, first, m, n, cb);
    assert Kept(HostOf(m), 2) == HostOf(m);
    assert s.servers[0] == 1;
  }

  lemma StartedAsked(c: Limits, s: Dns, first: nat, m: nat, n: nat, cb: Option<Callback>)
    requires ValidLimits(c) && Asked(c, s, first, m, n, cb) && m < c.entries && (cb.Some? ==> m - first < c.requests)
    ensures var t := Started(s, m, RequestFor(first, m, cb), HostOf(m), 0, cb, false, m);
            && Asked(c, t, first, m + 1, n, cb)
            && t.seqno == (s.seqno + 1) % 0x100 && t.table[m].seqno == s.seqno
            && forall q :: 0 <= q < c.entries && q != m ==> t.table[q] == s.table[q]
  {
    hide Occupied, HostOf;
    var t := Started(s, m, RequestFor(first, m, cb), HostOf(m), 0, cb, false, m);
    forall q | 0 <= q < c.entries ensures Occupied(t.table[q], q, first, m + 1) {
      assert Occupied(s.table[q], q, first, m);
      OccupiedNext(s.table[q], t.table[q], q, first, m);
    }
  }

  lemma OccupiedNext(e: Entry, e': Entry, q: nat, first: nat, m: nat)
    requires first <= m && Occupied(e, q, first, m) && if q == m then Asker(e', q) else e' == e
    ensures Occupied(e', q, first, m + 1)
  {
  }

  lemma Ask(c: Limits, ops0: seq<Op>, states0: seq<Dns>, first: nat, m: nat, n: nat, cb: Option<Callback>)
    returns (ops: seq<Op>, states: seq<Dns>)
    requires ValidLimits(c) && IsRun(c, ops0, states0) && Asked(c, states0[|ops0|], first, m, n, cb)
    requires m < c.entries && 1 <= n <= c.servers && (cb.Some? ==> m - first < c.requests)
    ensures IsRun(c, ops, states) && ops0 < ops && states0 < states && |ops| == |ops0| + 1
    ensures Pass(ops0, cb) ==> Pass(ops, cb)
    ensures Asked(c, states[|ops|], first, m + 1, n, cb)
    ensures var s, s' := states0[|ops0|], states[|ops|];
            && |s.table| == c.entries && s'.seqno == (s.seqno + 1) % 0x100 && s'.table[m].seqno == s.seqno
            && forall q :: 0 <= q < c.entries && q != m ==> s'.table[q] == s.table[q]
  {
    hide Asked, Step, LegalOp, IsRun, Inv;
    RunEnds(c, ops0, states0);
    AskedSized(c, states0[|ops0|], first, m, n, cb);
    AskStep(c, states0[|ops0|], first, m, n, cb);
    ops, states := Extend(c, ops0, states0, AskFor(m, cb, m == first));
  }

  lemma AskedSized(c: Limits, s: Dns, first: nat, m: nat, n: nat, cb: Option<Callback>)
    requires Asked(c, s, first, m, n, cb)
    ensures Sized(c, s) && first <= m <= c.entries <= 255
    ensures forall q :: 0 <= q < c.entries ==> Occupied(s.table[q], q, first, m)
  {
  }

  /** Lookups for the entries from `m0` up to `m`. */
  lemma {:induction false} Asks(c: Limits, ops0: seq<Op>, states0: seq<Dns>, first: nat, m0: nat, m: nat, n: nat,
                                cb: Option<Callback>)
    returns (ops: seq<Op>, states: seq<Dns>)
    requires ValidLimits(c) && IsRun(c, ops0, states0) && Asked(c, states0[|ops0|], first, m0, n, cb)
    requires m0 <= m <= c.entries && 1 <= n <= c.servers && (cb.Some? ==> m - first <= c.requests)
    ensures IsRun(c, ops, states) && Asked(c, states[|ops|], first, m, n, cb) && (Pass(ops0, cb) ==> Pass(ops, cb))
    ensures var s, s' := states0[|ops0|], states[|ops|];
            && |s.table| == c.entries && s'.seqno == (s.seqno + (m - m0)) % 0x100
            && forall q :: 0 <= q < m0 ==> s'.table[q] == s.table[q]
    decreases m - m0
  {
    hide Asked, IsRun;
    RunEnds(c, ops0, states0);
    if m == m0 {
      ops, states := ops0, states0;
    } else {
      ops, states := Asks(c, ops0, states0, first, m0, m - 1, n, cb);
      ops, states := Ask(c, ops, states, first, m - 1, n, cb);
    }
  }

  // Lookups that are answered.

  lemma HostIsPlain(q: nat)
    requires q < 256
    ensures PlainLabels(HostOf(q))
  {
    var name := HostOf(q);
    forall i | LabelStart(name, i) ensures LabelLength(name, i) < 0xC0 && (i > 0 ==> LabelLength(name, i) > 0) {
      assert i == 0;
    }
  }

  ghost function ReplyFor(q: nat): Op
    requires q < 256
  {
    Op.Packet(OneRecord(HostOf(q), q, (0, 0, 0, 1), (10, 0, 0, 1)), 1, (_: nat) => 0, false)
  }

  /** The only lookup that asks is answered; its entry is finished and its port is closed. */
  lemma AnswerStep(c: Limits, s: Dns, q: nat, n: nat, cb: Option<Callback>)
    requires ValidLimits(c) && Inv(c, s) && 1 <= n <= c.servers && c.maxTtl >= 1 && q < c.entries
    requires Asked(c, s, q, q + 1, n, cb)
    ensures Sized(c, s) && Entries(c, s) && Asked(c, Step(c, s, ReplyFor(q)), q + 1, q + 1, n, cb)
    ensures Step(c, s, ReplyFor(q)).seqno == s.seqno
    ensures forall k :: 0 <= k < c.entries ==> Step(c, s, ReplyFor(q)).table[k].seqno == s.table[k].seqno
  {
    hide Inv, Receive, OneRecord, Resolve, Asked, HostOf;
    InvEntries(c, s);
    InvSized(c, s);
    AskedSized(c, s, q, q + 1, n, cb);
    assert Occupied(s.table[q], q, q, q + 1);
    var p := OneRecord(HostOf(q), q, (0, 0, 0, 1), (10, 0, 0, 1));
    var addr := IpOf((10, 0, 0, 1));
    HostIsPlain(q);
    OneRecordFound(HostOf(q), q, (0, 0, 0, 1), (10, 0, 0, 1));
    FirstServer(c, s, q, n, cb);
    ReplyIsResolve(c, s, q, p, 1, (_: nat) => 0, false, [AnswersAt(HostOf(q))], 1, addr);
    ResolveOnly(c, s, q, n, cb, addr);
    assert Step(c, s, ReplyFor(q)) == Resolve(c, s, q, 1, addr);
  }

  lemma FirstServer(c: Limits, s: Dns, q: nat, n: nat, cb: Option<Callback>)
    requires ValidLimits(c) && 1 <= n <= c.servers && Asked(c, s, q, q + 1, n, cb)
    ensures s.servers[0] == 1
  {
  }

  lemma ResolveOnly(c: Limits, s: Dns, q: nat, n: nat, cb: Option<Callback>, addr: Ip)
    requires ValidLimits(c) && c.maxTtl >= 1 && q < c.entries && Asked(c, s, q, q + 1, n, cb)
    ensures var s' := Resolve(c, s, q, 1, addr);
            && Asked(c, s', q + 1, q + 1, n, cb) && s'.seqno == s.seqno
            && forall k :: 0 <= k < c.entries ==> s'.table[k].seqno == s.table[k].seqno
  {
    hide HostOf, CallsFor;
    var t := s.(table := s.table[q := s.table[q].(addr := addr, phase := Done, ttl := 1)]);
    forall k | 0 <= k < c.entries ensures Occupied(s.table[k], k, q, q + 1) {}
    assert Occupied(s.table[q], q, q, q + 1);
    assert !PortShared(c, t.table, q);
    var s' := Resolve(c, s, q, 1, addr);
    assert s'.requests == Flushed(s.requests, q);
    forall k | 0 <= k < c.entries ensures Occupied(s'.table[k], k, q + 1, q + 1) {
      assert Occupied(s.table[k], k, q, q + 1);
    }
  }

  /** A run to `first` finished entries; they are numbered in order. */
  lemma {:induction false} FinishedRun(c: Limits, first: nat, n: nat, cb: Option<Callback>)
    returns (ops: seq<Op>, states: seq<Dns>)
    requires ValidLimits(c) && first <= c.entries && 1 <= n <= c.servers && (first > 0 ==> c.maxTtl >= 1)
    ensures IsRun(c, ops, states) && Asked(c, states[|ops|], first, first, n, cb) && states[|ops|].seqno == first
    ensures Pass(ops, cb)
    ensures |states[|ops|].table| == c.entries && forall q :: 0 <= q < first ==> states[|ops|].table[q].seqno == q
    decreases first
  {
    hide Asked, Step, IsRun, Inv;
    if first == 0 {
      ops, states := ServersRun(c, n, cb);
      RunEnds(c, ops, states);
    } else {
      ops, states := FinishedRun(c, first - 1, n, cb);
      ops, states := Ask(c, ops, states, first - 1, first - 1, n, cb);
      RunEnds(c, ops, states);
      AnswerStep(c, states[|ops|], first - 1, n, cb);
      ops, states := Extend(c, ops, states, ReplyFor(first - 1));
      RunEnds(c, ops, states);
    }
  }

  // The end of the lookups.

  /**
   * No server is set; of the entries up to `last`, those from `j` on ask through port 0,
   * which is open unless `j` got to DNS_MAX_REQUESTS.
   */
  ghost predicate Ending(c: Limits, s: Dns, j: nat) {
    && Sized(c, s) && OnlyFirst(s.ports, j < c.requests) && FirstSet(s.servers, 0)
    && (forall q :: 0 <= q < c.entries && q < j ==> !s.table[q].phase.Asking?)
    && (forall q :: 0 <= q < c.entries && j <= q <= c.requests ==> Asker(s.table[q], q))
  }

  /** The state `t`, which differs from `s` in entry `j` and its age, is the one the lookup ends in. */
  ghost predicate EndsFrom(c: Limits, s: Dns, t: Dns, j: nat) {
    && j < c.entries && Sized(c, s) && Sized(c, t) && t.table[j].phase.Asking?
    && t.table[j].port == 0 && t.table[j].seqno == s.table[j].seqno
    && t == s.(table := t.table, ages := t.ages)
    && forall k :: 0 <= k < c.entries && k != j ==> t.table[k] == s.table[k]
  }

  /** The timer ends an entry without a server: its next query finds none, or it has no retry left. */
  lemma EndByTimer(c: Limits, s: Dns, j: nat) returns (t: Dns)
    requires ValidLimits(c) && Sized(c, s) && FirstSet(s.servers, 0) && j < c.entries && Asker(s.table[j], j)
    ensures s.table[j].server < c.servers && EndsFrom(c, s, t, j)
    ensures Tick(c, s, j, 0, false) == Finish(c, t, j, None, Unused)
  {
    hide Finish;
    var e, aged := s.table[j], s.(ages := s.ages[j := s.ages[j] + 1]);
    assert s.servers[0] == ANY && !Backup(c, s.servers, e);
    var next := Retry(c, e, false);
    var e' := if next.None? then e.(tmr := 0, retries := 1) else next.value;
    t := aged.(table := s.table[j := e']);
    assert Tick(c, s, j, 0, false) == Finish(c, t, j, None, Unused);
  }

  lemma EndStep(c: Limits, s: Dns, j: nat)
    requires ValidLimits(c) && Sized(c, s) && Entries(c, s) && Ending(c, s, j) && j < c.requests < c.entries
    ensures LegalOp(c, s, Op.Timer(j, false)) && Ending(c, Step(c, s, Op.Timer(j, false)), j + 1)
  {
    hide Tick, Finish, Ending;
    assert FirstSet(s.servers, 0) && OnlyFirst(s.ports, true) && Asker(s.table[j], j) by {
      EndingParts(c, s, j);
    }
    var t := EndByTimer(c, s, j);
    assert Ending(c, Finish(c, t, j, None, Unused), j + 1) by {
      EndingParts(c, s, j);
      FinishOfMany(c, t, j);
    }
  }

  lemma EndingParts(c: Limits, s: Dns, j: nat)
    requires Ending(c, s, j) && j < c.requests < c.entries
    ensures FirstSet(s.servers, 0) && OnlyFirst(s.ports, true) && Asker(s.table[j], j)
    ensures forall q :: 0 <= q < j ==> !s.table[q].phase.Asking?
    ensures forall q :: j < q <= c.requests ==> Asker(s.table[q], q)
  {
  }

  lemma FinishOfMany(c: Limits, t: Dns, j: nat)
    requires ValidLimits(c) && Sized(c, t) && j < c.requests < c.entries && t.table[j].port == 0
    requires OnlyFirst(t.ports, true) && FirstSet(t.servers, 0)
    requires forall q :: 0 <= q < j ==> !t.table[q].phase.Asking?
    requires forall q :: j < q <= c.requests ==> Asker(t.table[q], q)
    ensures Ending(c, Finish(c, t, j, None, Unused), j + 1)
  {
    hide HostOf;
    assert PortShared(c, t.table, j) <==> j + 1 < c.requests by {
      if j + 1 < c.requests {
        assert Asker(t.table[j + 1], j + 1);
      }
    }
  }

  /** From lookups on all entries from `first` to DNS_MAX_REQUESTS, a run that ends those before `j`. */
  lemma {:induction false} EndsRun(c: Limits, ops0: seq<Op>, states0: seq<Dns>, first: nat, j: nat,
                                   cb: Option<Callback>)
    returns (ops: seq<Op>, states: seq<Dns>)
    requires ValidLimits(c) && c.requests < c.entries && first <= j <= c.requests && first < c.requests
    requires IsRun(c, ops0, states0) && Asked(c, states0[|ops0|], first, c.requests + 1, 1, cb)
    ensures IsRun(c, ops, states) && Ending(c, states[|ops|], j) && (Pass(ops0, cb) ==> Pass(ops, cb))
    decreases j
  {
    hide Step, LegalOp, Ending, Asked, IsRun, Inv;
    if j == first {
      RunEnds(c, ops0, states0);
      NoServer(c, states0[|ops0|], first, cb);
      ops, states := Extend(c, ops0, states0, Op.SetServer(0, ANY));
    } else {
      ops, states := EndsRun(c, ops0, states0, first, j - 1, cb);
      RunEnds(c, ops, states);
      EndStep(c, states[|ops|], j - 1);
      ops, states := Extend(c, ops, states, Op.Timer(j - 1, false));
    }
  }

  lemma NoServer(c: Limits, s: Dns, first: nat, cb: Option<Callback>)
    requires ValidLimits(c) && Sized(c, s) && Entries(c, s) && first < c.requests < c.entries
    requires Asked(c, s, first, c.requests + 1, 1, cb)
    ensures LegalOp(c, s, Op.SetServer(0, ANY)) && Ending(c, Step(c, s, Op.SetServer(0, ANY)), first)
  {
    hide HostOf;
    forall q | 0 <= q < c.entries ensures Occupied(s.table[q], q, first, c.requests + 1) {}
  }
}
