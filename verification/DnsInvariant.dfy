/**
 * What holds between the steps of the resolver of src/lwip/dns.c, over every run of
 * enqueues, timer ticks, received packets and changes of the server list.
 */
module DnsInvariant {
  import opened Options
  import opened CaseFold
  import opened DnsTable

  // The waiting times.

  /** The ticks that pass while an entry waits with `k`, `k + 1`, ... retries behind it. */
  ghost function Waits(retries: nat, k: nat): nat
    decreases retries - k
  {
    if k >= retries then 0 else k + Waits(retries, k + 1)
  }

  /** The ticks one server is asked for. */
  ghost function PerServer(c: Limits): nat {
    1 + Waits(c.retries, 1)
  }

  ghost function Bound(c: Limits): nat {
    c.servers * PerServer(c)
  }

  /** The ticks that the servers after `server` are asked for. */
  ghost function Later(c: Limits, server: nat): int {
    (c.servers - 1 - server) * PerServer(c)
  }

  lemma LaterStep(c: Limits, server: nat)
    requires server < c.servers
    ensures Later(c, server) >= 0
    ensures server + 1 < c.servers ==> Later(c, server) == Later(c, server + 1) + PerServer(c)
    ensures server == 0 ==> Later(c, server) + PerServer(c) == Bound(c)
  {
    var k, m := c.servers - 1 - server, PerServer(c);
    LaterProduct(k, m);
  }

  lemma LaterProduct(k: nat, m: nat)
    ensures k * m >= 0 && k * m == (k - 1) * m + m && k * m + m == (k + 1) * m
  {
  }

  /** The ticks an asking entry can still go on for if nothing is received. */
  ghost function Rank(c: Limits, e: Entry): int {
    e.tmr as int + Waits(c.retries, e.retries as nat + 1) + Later(c, e.server)
  }

  lemma {:induction false} WaitsClosedForm(retries: nat, k: nat)
    requires 1 <= k <= retries
    ensures 2 * Waits(retries, k) == retries * (retries - 1) - k * (k - 1)
    decreases retries - k
  {
    if k < retries {
      WaitsClosedForm(retries, k + 1);
      assert (k + 1) * k == k * (k - 1) + 2 * k;
    }
  }

  /** The bound is DNS_MAX_SERVERS * (1 + R * (R - 1) / 2) for R retries. */
  lemma BoundClosedForm(c: Limits)
    requires ValidLimits(c)
    ensures 2 * PerServer(c) == 2 + c.retries * (c.retries - 1)
    ensures 2 * Bound(c) == c.servers * (2 + c.retries * (c.retries - 1))
  {
    WaitsClosedForm(c.retries, 1);
    TwiceProduct(c.servers, PerServer(c), 2 + c.retries * (c.retries - 1));
  }

  lemma TwiceProduct(a: nat, b: nat, d: int)
    requires 2 * b == d
    ensures 2 * (a * b) == a * d
  {
  }

  // The invariant.

  ghost predicate EntryOk(c: Limits, e: Entry) {
    && e.server < c.servers && !e.phase.New?
    && (e.phase.Asking? ==> e.tmr >= 1 && e.retries < c.retries && e.port < c.ports)
    && (e.phase.Done? ==> 1 <= e.ttl <= c.maxTtl)
  }

  ghost predicate Entries(c: Limits, s: Dns)
    requires Sized(c, s)
  {
    s.lastPort < c.ports && forall i :: 0 <= i < c.entries ==> EntryOk(c, s.table[i])
  }

  /** Every pending request points to an entry that asks. */
  ghost predicate Pointed(c: Limits, s: Dns)
    requires Sized(c, s)
  {
    forall r :: 0 <= r < c.requests && s.requests[r].found.Some? ==>
      s.requests[r].entry < c.entries && s.table[s.requests[r].entry].phase.Asking?
  }

  ghost predicate BothAsk(table: seq<Entry>, i: nat, j: nat)
    requires i < |table| && j < |table|
  {
    i != j && table[i].phase.Asking? && table[j].phase.Asking?
  }

  /** Entries that ask have different transaction ids. */
  ghost predicate DistinctIds(table: seq<Entry>) {
    forall i, j :: 0 <= i < |table| && 0 <= j < |table| && BothAsk(table, i, j) ==> table[i].txid != table[j].txid
  }

  /** Entries that ask for a non-empty name have names that differ beyond letter case. */
  ghost predicate DistinctNames(table: seq<Entry>) {
    forall i, j :: 0 <= i < |table| && 0 <= j < |table| && BothAsk(table, i, j) && |table[i].name| > 0 ==>
      LowerAll(table[i].name) != LowerAll(table[j].name)
  }

  ghost predicate Holds(table: seq<Entry>, k: nat) {
    exists i :: 0 <= i < |table| && table[i].phase.Asking? && table[i].port == k
  }

  /** With equal table sizes, a port is open exactly when an entry asks through it. */
  ghost predicate PortsOpen(c: Limits, s: Dns)
    requires Sized(c, s)
  {
    c.requests == c.entries ==> forall k :: 0 <= k < c.ports ==> (s.ports[k] <==> Holds(s.table, k))
  }

  /** The tickets of the first `n` requests that are pending. */
  ghost function Pending(requests: seq<Request>, table: seq<Entry>, n: nat): multiset<Ticket>
    requires n <= |requests|
  {
    if n == 0 then multiset{} else Pending(requests, table, n - 1) + Waiting(requests[n - 1], table)
  }

  ghost function Waiting(r: Request, table: seq<Entry>): multiset<Ticket> {
    if r.found.Some? && r.entry < |table| then multiset{Ticket(r.found.value, LowerAll(table[r.entry].name))}
    else multiset{}
  }

  ghost function Fired(calls: seq<Call>): multiset<Ticket> {
    if |calls| == 0 then multiset{}
    else Fired(calls[..|calls| - 1]) + multiset{Ticket(calls[|calls| - 1].cb, LowerAll(calls[|calls| - 1].name))}
  }

  /** Every accepted callback has been called once for its name, or is pending once. */
  ghost predicate Conserved(s: Dns) {
    s.accepted == Fired(s.calls) + Pending(s.requests, s.table, |s.requests|)
  }

  /** An asking entry has not been asking for longer than its remaining ticks allow. */
  ghost predicate InTime(c: Limits, s: Dns)
    requires Sized(c, s)
  {
    forall i :: 0 <= i < c.entries && s.table[i].phase.Asking? ==> s.ages[i] + Rank(c, s.table[i]) <= Bound(c)
  }

  ghost predicate Inv(c: Limits, s: Dns) {
    && Sized(c, s) && Entries(c, s) && Pointed(c, s)
    && DistinctIds(s.table) && DistinctNames(s.table) && PortsOpen(c, s)
    && Conserved(s) && InTime(c, s)
  }

  // Pending tickets.

  /** Pending tickets depend only on the requests and on the names of the entries they wait for. */
  lemma {:induction false} PendingFrame(requests: seq<Request>, table: seq<Entry>, table': seq<Entry>, n: nat)
    requires n <= |requests| && |table| == |table'|
    requires forall r :: 0 <= r < n && requests[r].found.Some? && requests[r].entry < |table| ==>
               table'[requests[r].entry].name == table[requests[r].entry].name
    ensures Pending(requests, table', n) == Pending(requests, table, n)
  {
    if n > 0 {
      PendingFrame(requests, table, table', n - 1);
    }
  }

  lemma Swap(a: multiset<Ticket>, b: multiset<Ticket>, d: multiset<Ticket>)
    ensures a + b + d == a + d + b == a + d + (b + multiset{}) == a + (b + d)
  {
  }

  lemma NoneWaits(r: Request, table: seq<Entry>)
    requires r.found.None?
    ensures Waiting(r, table) == multiset{}
  {
  }

  lemma {:induction false} PendingSet(requests: seq<Request>, table: seq<Entry>, r: nat, q: Request, n: nat)
    requires r < |requests| && n <= |requests| && requests[r].found.None?
    ensures Pending(requests[r := q], table, n) ==
              Pending(requests, table, n) + if r < n then Waiting(q, table) else multiset{}
  {
    if n > 0 {
      hide Waiting;
      PendingSet(requests, table, r, q, n - 1);
      var a, w, last := Pending(requests, table, n - 1), Waiting(q, table), Waiting(requests[n - 1], table);
      if r < n - 1 {
        Swap(a, w, last);
      } else if r == n - 1 {
        NoneWaits(requests[r], table);
      }
    }
  }

  lemma {:induction false} FiredConcat(a: seq<Call>, b: seq<Call>)
    ensures Fired(a + b) == Fired(a) + Fired(b)
    decreases |b|
  {
    if |b| == 0 {
      assert a + b == a;
    } else {
      var b' := b[..|b| - 1];
      assert (a + b)[..|a + b| - 1] == a + b';
      FiredConcat(a, b');
    }
  }

  lemma CallMatches(r: Request, table: seq<Entry>, calls: seq<Call>, addr: Option<Ip>)
    requires r.found.Some? && r.entry < |table|
    ensures Fired(calls + [Call(r.found.value, table[r.entry].name, addr)]) == Fired(calls) + Waiting(r, table)
  {
    var all := calls + [Call(r.found.value, table[r.entry].name, addr)];
    assert all[..|all| - 1] == calls;
  }

  /** The calls for an entry are exactly the tickets that its requests held. */
  lemma {:induction false} CallsMatch(requests: seq<Request>, table: seq<Entry>, i: nat, addr: Option<Ip>, n: nat)
    requires n <= |requests| && i < |table|
    ensures CallsMatchUpTo(requests, table, i, addr, n)
  {
    hide CallsMatchUpTo;
    if n == 0 {
      CallsMatchNone(requests, table, i, addr);
    } else {
      CallsMatch(requests, table, i, addr, n - 1);
      if WaitsFor(requests[n - 1], i) {
        CallsMatchCalled(requests, table, i, addr, n);
      } else {
        CallsMatchSkipped(requests, table, i, addr, n);
      }
    }
  }

  ghost predicate CallsMatchUpTo(requests: seq<Request>, table: seq<Entry>, i: nat, addr: Option<Ip>, n: nat)
    requires n <= |requests| && i < |table|
  {
    Pending(requests, table, n) ==
      Fired(CallsFor(requests, i, table[i].name, addr, n)) + Pending(Flushed(requests, i), table, n)
  }

  lemma CallsMatchNone(requests: seq<Request>, table: seq<Entry>, i: nat, addr: Option<Ip>)
    requires i < |table|
    ensures CallsMatchUpTo(requests, table, i, addr, 0)
  {
  }

  lemma CallsMatchCalled(requests: seq<Request>, table: seq<Entry>, i: nat, addr: Option<Ip>, n: nat)
    requires 0 < n <= |requests| && i < |table| && WaitsFor(requests[n - 1], i)
    requires CallsMatchUpTo(requests, table, i, addr, n - 1)
    ensures CallsMatchUpTo(requests, table, i, addr, n)
  {
    hide Waiting, Fired;
    var calls, flushed := CallsFor(requests, i, table[i].name, addr, n - 1), Flushed(requests, i);
    CallMatches(requests[n - 1], table, calls, addr);
    NoneWaits(flushed[n - 1], table);
    Swap(Fired(calls), Pending(flushed, table, n - 1), Waiting(requests[n - 1], table));
  }

  lemma CallsMatchSkipped(requests: seq<Request>, table: seq<Entry>, i: nat, addr: Option<Ip>, n: nat)
    requires 0 < n <= |requests| && i < |table| && !WaitsFor(requests[n - 1], i)
    requires CallsMatchUpTo(requests, table, i, addr, n - 1)
    ensures CallsMatchUpTo(requests, table, i, addr, n)
  {
    hide Waiting, Fired;
    var calls, flushed := CallsFor(requests, i, table[i].name, addr, n - 1), Flushed(requests, i);
    assert CallsFor(requests, i, table[i].name, addr, n) == calls;
    Swap(Fired(calls), Pending(flushed, table, n - 1), Waiting(requests[n - 1], table));
  }

  // Steps after which the same entries ask the same questions.

  ghost predicate Alike(e: Entry, e': Entry) {
    && (e.phase.Asking? <==> e'.phase.Asking?)
    && (e.phase.Asking? ==> e'.txid == e.txid && e'.name == e.name && e'.port == e.port)
  }

  ghost predicate SamePending(r: Request, r': Request) {
    r' == r || (r.found.None? && r'.found.None?)
  }

  ghost predicate StillAsks(c: Limits, s: Dns, s': Dns) {
    && Sized(c, s) && Sized(c, s') && Entries(c, s')
    && (forall i :: 0 <= i < c.entries ==> Alike(s.table[i], s'.table[i]))
    && (forall r :: 0 <= r < c.requests ==> SamePending(s.requests[r], s'.requests[r]))
    && s'.ports == s.ports && s'.calls == s.calls && s'.accepted == s.accepted
  }

  lemma StillAsksKeeps(c: Limits, s: Dns, s': Dns)
    requires Inv(c, s) && StillAsks(c, s, s') && InTime(c, s')
    ensures Inv(c, s')
  {
    forall i | 0 <= i < c.entries ensures Alike(s.table[i], s'.table[i]) {}
    forall r | 0 <= r < c.requests ensures SamePending(s.requests[r], s'.requests[r]) {}
    StillDistinct(c, s, s');
    StillOpen(c, s, s');
    StillConserved(s, s');
  }

  lemma StillDistinct(c: Limits, s: Dns, s': Dns)
    requires StillAsks(c, s, s') && DistinctIds(s.table) && DistinctNames(s.table)
    ensures DistinctIds(s'.table) && DistinctNames(s'.table)
  {
    hide LowerAll;
    forall i, j | 0 <= i < |s'.table| && 0 <= j < |s'.table| && BothAsk(s'.table, i, j)
      ensures s'.table[i].txid != s'.table[j].txid
      ensures |s'.table[i].name| > 0 ==> LowerAll(s'.table[i].name) != LowerAll(s'.table[j].name)
    {
      assert Alike(s.table[i], s'.table[i]) && Alike(s.table[j], s'.table[j]);
      assert BothAsk(s.table, i, j);
    }
  }

  lemma StillOpen(c: Limits, s: Dns, s': Dns)
    requires StillAsks(c, s, s') && PortsOpen(c, s)
    ensures PortsOpen(c, s')
  {
    forall k | 0 <= k < c.ports ensures Holds(s.table, k) <==> Holds(s'.table, k) {
      if Holds(s.table, k) {
        var i :| 0 <= i < |s.table| && s.table[i].phase.Asking? && s.table[i].port == k;
        assert Alike(s.table[i], s'.table[i]);
      }
      if Holds(s'.table, k) {
        var i :| 0 <= i < |s'.table| && s'.table[i].phase.Asking? && s'.table[i].port == k;
        assert Alike(s.table[i], s'.table[i]);
      }
    }
  }

  lemma {:induction false} PendingAlike(a: seq<Request>, b: seq<Request>, table: seq<Entry>, n: nat)
    requires n <= |a| == |b| && forall r :: 0 <= r < n ==> SamePending(a[r], b[r])
    ensures Pending(b, table, n) == Pending(a, table, n)
  {
    if n > 0 {
      PendingAlike(a, b, table, n - 1);
      assert SamePending(a[n - 1], b[n - 1]);
    }
  }

  lemma StillConserved(s: Dns, s': Dns)
    requires |s.table| == |s'.table| && |s.requests| == |s'.requests| && Conserved(s)
    requires forall r :: 0 <= r < |s.requests| ==> SamePending(s.requests[r], s'.requests[r])
    requires forall i :: 0 <= i < |s.table| ==> Alike(s.table[i], s'.table[i])
    requires forall r :: 0 <= r < |s.requests| && s.requests[r].found.Some? && s.requests[r].entry < |s.table| ==>
               s.table[s.requests[r].entry].phase.Asking?
    requires s'.calls == s.calls && s'.accepted == s.accepted
    ensures Conserved(s')
  {
    hide Waiting, Fired;
    var n := |s.requests|;
    PendingAlike(s.requests, s'.requests, s.table, n);
    PendingFrame(s'.requests, s.table, s'.table, n);
  }
}
