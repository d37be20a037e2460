/**
 * Every step of the resolver of src/lwip/dns.c keeps the invariant, so every run does.
 */
module DnsRuns {
  import opened Words
  import opened Options
  import opened CaseFold
  import opened DnsNames
  import opened DnsTable
  import opened DnsSteps
  import opened DnsInvariant

  // The end of a lookup.

  lemma FinishConserved(c: Limits, s: Dns, i: nat, addr: Option<Ip>, phase: Phase)
    requires Sized(c, s) && i < c.entries && c.requests <= c.entries && Conserved(s)
    ensures Conserved(Finish(c, s, i, addr, phase))
  {
    hide Waiting, Fired, PortShared;
    var n, s' := |s.requests|, Finish(c, s, i, addr, phase);
    var calls := CallsFor(s.requests, i, s.table[i].name, addr, n);
    CallsMatch(s.requests, s.table, i, addr, n);
    FiredConcat(s.calls, calls);
    PendingFrame(s'.requests, s.table, s'.table, n);
    Swap(Fired(s.calls), Fired(calls), Pending(s'.requests, s.table, n));
  }

  lemma FinishPorts(c: Limits, s: Dns, i: nat, addr: Option<Ip>, phase: Phase)
    requires Sized(c, s) && i < c.entries && c.requests <= c.entries && PortsOpen(c, s)
    requires s.table[i].phase.Asking? && s.table[i].port < c.ports && !phase.Asking?
    ensures PortsOpen(c, Finish(c, s, i, addr, phase))
  {
    var s', port := Finish(c, s, i, addr, phase), s.table[i].port;
    if c.requests == c.entries {
      forall k | 0 <= k < c.ports ensures s'.ports[k] <==> Holds(s'.table, k) {
        assert s.ports[k] <==> Holds(s.table, k);
        if Holds(s'.table, k) {
          var j :| 0 <= j < |s'.table| && s'.table[j].phase.Asking? && s'.table[j].port == k;
          assert j != i && s'.table[j] == s.table[j];
          assert Holds(s.table, k);
        }
        if s'.ports[k] {
          var j :| 0 <= j < |s.table| && s.table[j].phase.Asking? && s.table[j].port == k && (k == port ==> j != i);
          assert s'.table[j] == s.table[j];
        }
      }
    }
  }

  lemma FinishKeeps(c: Limits, s: Dns, i: nat, addr: Option<Ip>, phase: Phase)
    requires ValidLimits(c) && Inv(c, s) && i < c.entries && s.table[i].phase.Asking?
    requires phase.Unused? || (phase.Done? && 1 <= s.table[i].ttl <= c.maxTtl)
    ensures Inv(c, Finish(c, s, i, addr, phase))
  {
    hide Conserved, PortsOpen, PortShared, LowerAll, Rank;
    var s' := Finish(c, s, i, addr, phase);
    assert EntryOk(c, s.table[i]);
    FinishConserved(c, s, i, addr, phase);
    FinishPorts(c, s, i, addr, phase);
    FewerAsk(s.table, s'.table, i);
    forall j | 0 <= j < c.entries ensures EntryOk(c, s'.table[j]) {
      assert EntryOk(c, s.table[j]);
    }
    forall r | 0 <= r < c.requests && s'.requests[r].found.Some?
      ensures s'.requests[r].entry < c.entries && s'.table[s'.requests[r].entry].phase.Asking?
    {
      assert !WaitsFor(s.requests[r], i);
    }
  }

  lemma FewerAsk(table: seq<Entry>, table': seq<Entry>, i: nat)
    requires |table| == |table'| && i < |table| && !table'[i].phase.Asking?
    requires forall j :: 0 <= j < |table| && j != i ==> table'[j] == table[j]
    requires DistinctIds(table) && DistinctNames(table)
    ensures DistinctIds(table') && DistinctNames(table')
  {
    hide LowerAll;
    forall j, k | 0 <= j < |table'| && 0 <= k < |table'| && BothAsk(table', j, k)
      ensures table'[j].txid != table'[k].txid
      ensures |table'[j].name| > 0 ==> LowerAll(table'[j].name) != LowerAll(table'[k].name)
    {
      assert BothAsk(table, j, k);
    }
  }

  lemma SendKeeps(c: Limits, s: Dns, i: nat, memory: bool)
    requires ValidLimits(c) && Inv(c, s) && i < c.entries && s.table[i].phase.Asking?
    ensures s.table[i].server < c.servers && Inv(c, Send(c, s, i, memory))
  {
    assert EntryOk(c, s.table[i]);
    var e, s' := s.table[i], Send(c, s, i, memory);
    if s.servers[e.server] == ANY && !e.mdns {
      FinishKeeps(c, s, i, None, Unused);
    } else {
      assert StillAsks(c, s, s');
      StillAsksKeeps(c, s, s');
    }
  }

  // The timer.

  /** A check of an asking entry uses up exactly one of its remaining ticks. */
  lemma RetryRank(c: Limits, e: Entry, backup: bool)
    requires ValidLimits(c) && EntryOk(c, e) && e.phase.Asking? && (backup ==> e.server + 1 < c.servers)
    ensures var next := Retry(c, e, backup);
            next.Some? ==> EntryOk(c, next.value) && Alike(e, next.value) && Rank(c, next.value) == Rank(c, e) - 1
    ensures Rank(c, e) >= 1
    ensures Retry(c, e, backup).None? ==> e.tmr == 1 && e.retries + 1 == c.retries
  {
    hide Later;
    LaterStep(c, e.server);
    assert Waits(c.retries, c.retries) == 0;
  }

  ghost function WithEntry(s: Dns, i: nat, e: Entry, age: nat): Dns
    requires i < |s.table| == |s.ages|
  {
    s.(table := s.table[i := e], ages := s.ages[i := age])
  }

  /** Replacing an asking entry by one that asks the same with fewer ticks left. */
  lemma WithEntryKeeps(c: Limits, s: Dns, i: nat, e: Entry, age: nat)
    requires Inv(c, s) && i < c.entries && EntryOk(c, e) && Alike(s.table[i], e)
    requires e.phase.Asking? ==> age + Rank(c, e) <= Bound(c)
    ensures Inv(c, WithEntry(s, i, e, age))
  {
    hide Rank, Bound, LowerAll;
    var s' := WithEntry(s, i, e, age);
    forall j | 0 <= j < c.entries ensures EntryOk(c, s'.table[j]) && Alike(s.table[j], s'.table[j]) {
      assert EntryOk(c, s.table[j]);
    }
    assert StillAsks(c, s, s');
    StillAsksKeeps(c, s, s');
  }

  /** A check of entry `i`, of age `age` now, that is not new. */
  lemma CheckKeeps(c: Limits, s: Dns, i: nat, age: nat, txid: U16, memory: bool)
    requires ValidLimits(c) && Inv(c, s) && i < c.entries && (s.table[i].phase.Asking? ==> age <= s.ages[i] + 1)
    ensures s.table[i].server < c.servers
    ensures Inv(c, CheckEntry(c, s.(ages := s.ages[i := age]), i, txid, memory))
  {
    hide Rank, Bound, LowerAll, Inv;
    assert Inv(c, s) && EntryOk(c, s.table[i]) by {
      EntryFromInv(c, s, i);
    }
    assert Sized(c, s) by {
      EntryFromInv(c, s, i);
    }
    var e := s.table[i];
    match e.phase {
      case Asking => CheckAskingKeeps(c, s, i, age, txid, memory);
      case Done =>
        var ttl := if e.ttl == 0 then 0 else e.ttl - 1;
        var e' := e.(ttl := ttl, phase := if ttl == 0 then Unused else Done);
        WithEntryKeeps(c, s, i, e', age);
        assert CheckEntry(c, s.(ages := s.ages[i := age]), i, txid, memory) == WithEntry(s, i, e', age);
      case Unused =>
        WithEntryKeeps(c, s, i, e, age);
        assert s.table[i := e] == s.table;
        assert CheckEntry(c, s.(ages := s.ages[i := age]), i, txid, memory) == WithEntry(s, i, e, age);
    }
  }

  lemma EntryFromInv(c: Limits, s: Dns, i: nat)
    requires Inv(c, s) && i < c.entries
    ensures Sized(c, s) && EntryOk(c, s.table[i])
    ensures s.table[i].phase.Asking? ==> s.ages[i] + Rank(c, s.table[i]) <= Bound(c)
  {
  }

  lemma CheckAskingKeeps(c: Limits, s: Dns, i: nat, age: nat, txid: U16, memory: bool)
    requires ValidLimits(c) && Inv(c, s) && i < c.entries && s.table[i].phase.Asking? && age <= s.ages[i] + 1
    ensures s.table[i].server < c.servers
    ensures Inv(c, CheckEntry(c, s.(ages := s.ages[i := age]), i, txid, memory))
  {
    hide Rank, Bound, LowerAll, Inv, Finish;
    EntryFromInv(c, s, i);
    var e, aged := s.table[i], s.(ages := s.ages[i := age]);
    var next := Retry(c, e, Backup(c, s.servers, e));
    RetryRank(c, e, Backup(c, s.servers, e));
    if next.Some? {
      var s' := WithEntry(s, i, next.value, age);
      WithEntryKeeps(c, s, i, next.value, age);
      assert aged.table[i := next.value] == s'.table;
      if e.tmr == 1 {
        SendKeeps(c, s', i, memory);
      }
    } else {
      GiveUpKeeps(c, s, i, age);
    }
  }

  /** Giving up: the counters that reached their limits do not matter any more. */
  lemma GiveUpKeeps(c: Limits, s: Dns, i: nat, age: nat)
    requires ValidLimits(c) && Inv(c, s) && i < c.entries && s.table[i].phase.Asking?
    ensures var e := s.table[i];
            Inv(c, Finish(c, WithEntry(s, i, e.(tmr := 0, retries := (e.retries + 1) % 0x100), age), i, None, Unused))
  {
    hide Rank, Bound, LowerAll, PortShared, Conserved;
    var e := s.table[i];
    var e' := e.(tmr := 0, retries := (e.retries + 1) % 0x100);
    var a, b := Finish(c, s, i, None, Unused), Finish(c, WithEntry(s, i, e', age), i, None, Unused);
    FinishKeeps(c, s, i, None, Unused);
    assert PortShared(c, s.table, i) == PortShared(c, s.table[i := e'], i) by {
      SharedFrame(c, s.table, i, e');
    }
    forall j | 0 <= j < c.entries ensures EntryOk(c, b.table[j]) && Alike(a.table[j], b.table[j]) {
      assert EntryOk(c, a.table[j]);
    }
    assert StillAsks(c, a, b);
    StillAsksKeeps(c, a, b);
  }

  lemma SharedFrame(c: Limits, table: seq<Entry>, i: nat, e: Entry)
    requires i < |table| && c.requests <= |table| && e.port == table[i].port
    ensures PortShared(c, table, i) == PortShared(c, table[i := e], i)
  {
    var table' := table[i := e];
    if PortShared(c, table, i) {
      var j :| 0 <= j < c.requests && j != i && table[j].phase.Asking? && table[j].port == table[i].port;
      assert table'[j] == table[j];
    }
    if PortShared(c, table', i) {
      var j :| 0 <= j < c.requests && j != i && table'[j].phase.Asking? && table'[j].port == table'[i].port;
      assert table'[j] == table[j];
    }
  }

  /** A timer tick keeps the invariant. */
  lemma TickKeeps(c: Limits, s: Dns, i: nat, txid: U16, memory: bool)
    requires ValidLimits(c) && Inv(c, s) && i < c.entries
    ensures s.table[i].server < c.servers && Inv(c, Tick(c, s, i, txid, memory))
  {
    hide Rank, Bound, CheckEntry;
    if s.table[i].phase.Asking? {
      CheckKeeps(c, s, i, s.ages[i] + 1, txid, memory);
    } else {
      CheckKeeps(c, s, i, s.ages[i], txid, memory);
      assert s.ages[i := s.ages[i]] == s.ages;
      assert s.(ages := s.ages) == s;
    }
  }

  ghost function TickOne(c: Limits, s: Dns, i: nat, memory: bool): (s': Dns)
    requires ValidLimits(c) && Inv(c, s) && i < c.entries
    ensures Inv(c, s')
  {
    TickKeeps(c, s, i, 0, memory);
    Tick(c, s, i, 0, memory)
  }

  /** A tick for each of the first `n` entries; `memory` is whether each query can be allocated. */
  ghost function TickAll(c: Limits, s: Dns, memory: nat -> bool, n: nat): (s': Dns)
    requires ValidLimits(c) && Inv(c, s) && n <= c.entries
    ensures Inv(c, s')
  {
    if n == 0 then s else TickOne(c, TickAll(c, s, memory, n - 1), n - 1, memory(n - 1))
  }

  lemma InvSized(c: Limits, s: Dns)
    requires Inv(c, s)
    ensures Sized(c, s) && forall i :: 0 <= i < c.entries ==> s.table[i].server < c.servers
  {
    assert forall i :: 0 <= i < c.entries ==> EntryOk(c, s.table[i]);
  }

  // Received packets.

  lemma ResolveKeeps(c: Limits, s: Dns, i: nat, ttl: U32, addr: Ip)
    requires ValidLimits(c) && Inv(c, s) && i < c.entries && s.table[i].phase.Asking?
    ensures Sized(c, s) && Inv(c, Resolve(c, s, i, ttl, addr))
  {
    hide Rank, Bound, LowerAll, Inv, PortShared;
    EntryFromInv(c, s, i);
    var e, kept: U32 := s.table[i], if ttl > c.maxTtl then c.maxTtl else ttl;
    var e' := e.(addr := addr, ttl := kept);
    assert Rank(c, e') == Rank(c, e) by {
      RankFrame(c, e, e');
    }
    var s' := WithEntry(s, i, e', s.ages[i]);
    WithEntryKeeps(c, s, i, e', s.ages[i]);
    var phase := if kept == 0 then Unused else Done;
    FinishKeeps(c, s', i, Some(addr), phase);
    SharedFrame(c, s.table, i, e');
    SharedFrame(c, s.table, i, e'.(phase := Done));
    assert s.ages[i := s.ages[i]] == s.ages;
    assert Resolve(c, s, i, ttl, addr) == Finish(c, s', i, Some(addr), phase);
  }

  lemma RankFrame(c: Limits, e: Entry, e': Entry)
    requires e'.tmr == e.tmr && e'.retries == e.retries && e'.server == e.server
    ensures Rank(c, e') == Rank(c, e)
  {
  }

  /** An error reply lets the entry give up on its server at once: no more ticks than it had left. */
  lemma HurryRank(c: Limits, e: Entry)
    requires ValidLimits(c) && EntryOk(c, e) && e.phase.Asking?
    ensures var e' := e.(retries := c.retries - 1, tmr := 1); EntryOk(c, e') && Rank(c, e') <= Rank(c, e)
  {
    hide Later;
    assert Waits(c.retries, c.retries) == 0;
  }

  lemma ReceiveKeeps(c: Limits, s: Dns, p: Packet, from: Ip, tail: Text, txid: U16, memory: bool)
    requires ValidLimits(c) && Inv(c, s)
    ensures forall i :: 0 <= i < c.entries ==> s.table[i].server < c.servers
    ensures Inv(c, Receive(c, s, p, from, tail, txid, memory))
  {
    hide Inv, Finish, Resolve, CheckEntry, Judge;
    InvSized(c, s);
    if |p| >= 16 {
      var i := FindId(s.table, U16At(p, 0), 0);
      if i < c.entries {
        ReactKeeps(c, s, i, Judge(s.servers, s.table[i], p, from, tail), txid, memory);
      }
    }
  }

  lemma ReactKeeps(c: Limits, s: Dns, i: nat, verdict: Verdict, txid: U16, memory: bool)
    requires ValidLimits(c) && Inv(c, s) && i < c.entries && s.table[i].phase.Asking?
    ensures s.table[i].server < c.servers
    ensures Inv(c, Finish(c, s, i, None, Unused))
    ensures verdict.Answer? ==> Inv(c, Resolve(c, s, i, verdict.ttl, verdict.addr))
    ensures Backup(c, s.servers, s.table[i]) ==>
              var hurried := s.(table := s.table[i := s.table[i].(retries := c.retries - 1, tmr := 1)]);
              Inv(c, CheckEntry(c, hurried, i, txid, memory))
  {
    hide Rank, Bound, LowerAll, Inv, Finish, Resolve, CheckEntry;
    EntryFromInv(c, s, i);
    FinishKeeps(c, s, i, None, Unused);
    if verdict.Answer? {
      ResolveKeeps(c, s, i, verdict.ttl, verdict.addr);
    }
    if Backup(c, s.servers, s.table[i]) {
      var e' := s.table[i].(retries := c.retries - 1, tmr := 1);
      HurryRank(c, s.table[i]);
      WithEntryKeeps(c, s, i, e', s.ages[i]);
      var s' := WithEntry(s, i, e', s.ages[i]);
      CheckKeeps(c, s', i, s.ages[i], txid, memory);
      assert s.ages[i := s.ages[i]] == s.ages;
      assert s'.(ages := s'.ages[i := s.ages[i]]) == s.(table := s.table[i := e']);
    }
  }

  // Enqueued lookups.

  /** A transaction id that no asking entry uses. */
  predicate FreshId(table: seq<Entry>, txid: U16) {
    forall i :: 0 <= i < |table| && table[i].phase.Asking? ==> table[i].txid != txid
  }

  lemma SameHostLower(host: seq<Byte>, len: nat, name: HostName)
    requires CString(host) && len <= |host|
    ensures SameHost(host, len, name) ==> LowerAll(Kept(host, len)) == LowerAll(name)
    ensures Min(len, 255) > 0 && !SameHost(host, len, name) ==> LowerAll(Kept(host, len)) != LowerAll(name)
  {
    var n := Min(len, 255);
    if n > 0 {
      SameName(host, name, n);
    }
  }

  lemma JoinKeeps(c: Limits, s: Dns, i: nat, r: nat, cb: Option<Callback>, name: HostName)
    requires ValidLimits(c) && Inv(c, s) && i < c.entries && r < c.requests && s.requests[r].found.None?
    requires s.table[i].phase.Asking? && LowerAll(name) == LowerAll(s.table[i].name)
    ensures Inv(c, s.(requests := s.requests[r := Request(cb, i)], accepted := Accept(s.accepted, cb, name)))
  {
    hide Rank, Bound, LowerAll, Fired, Pending, DistinctNames;
    PendingSet(s.requests, s.table, r, Request(cb, i), |s.requests|);
    Swap(Fired(s.calls), Pending(s.requests, s.table, |s.requests|), Waiting(Request(cb, i), s.table));
  }

  ghost function Started(s: Dns, i: nat, r: nat, name: HostName, port: nat, cb: Option<Callback>, mdns: bool,
                         txid: U16): Dns
    requires i < |s.table| == |s.ages| && r < |s.requests| && port < |s.ports|
  {
    Begin(Placed(s, i, r, name, port, cb, mdns), i, txid)
  }

  /** The conditions under which a new lookup is placed. */
  ghost predicate MayStart(c: Limits, s: Dns, i: nat, r: nat, name: HostName, port: nat, txid: U16) {
    && ValidLimits(c) && Inv(c, s) && i < c.entries && r < c.requests && port < c.ports
    && !s.table[i].phase.Asking? && s.requests[r].found.None? && FreshId(s.table, txid)
    && (|name| > 0 ==> forall j :: 0 <= j < c.entries && s.table[j].phase.Asking? ==>
          LowerAll(s.table[j].name) != LowerAll(name))
  }

  lemma StartConserved(c: Limits, s: Dns, i: nat, r: nat, name: HostName, port: nat, cb: Option<Callback>, mdns: bool,
                       txid: U16)
    requires MayStart(c, s, i, r, name, port, txid)
    ensures Conserved(Started(s, i, r, name, port, cb, mdns, txid))
  {
    hide Rank, Bound, LowerAll, Fired, Pending, DistinctNames;
    var s' := Started(s, i, r, name, port, cb, mdns, txid);
    var n := |s.requests|;
    PendingFrame(s.requests, s.table, s'.table, n);
    PendingSet(s.requests, s'.table, r, Request(cb, i), n);
    Swap(Fired(s.calls), Pending(s.requests, s.table, n), Waiting(Request(cb, i), s'.table));
  }

  lemma StartDistinct(c: Limits, s: Dns, i: nat, r: nat, name: HostName, port: nat, cb: Option<Callback>, mdns: bool,
                      txid: U16)
    requires MayStart(c, s, i, r, name, port, txid)
    ensures var t := Started(s, i, r, name, port, cb, mdns, txid).table; DistinctIds(t) && DistinctNames(t)
  {
    var t := Started(s, i, r, name, port, cb, mdns, txid).table;
    forall j, k | 0 <= j < |t| && 0 <= k < |t| && BothAsk(t, j, k)
      ensures t[j].txid != t[k].txid
      ensures |t[j].name| > 0 ==> LowerAll(t[j].name) != LowerAll(t[k].name)
    {
      if j != i && k != i {
        assert BothAsk(s.table, j, k);
      }
    }
  }

  lemma StartPorts(c: Limits, s: Dns, i: nat, r: nat, name: HostName, port: nat, cb: Option<Callback>, mdns: bool,
                   txid: U16)
    requires MayStart(c, s, i, r, name, port, txid)
    ensures var s' := Started(s, i, r, name, port, cb, mdns, txid); Sized(c, s') && PortsOpen(c, s')
  {
    hide Rank, Bound, LowerAll, Conserved, DistinctNames;
    var s' := Started(s, i, r, name, port, cb, mdns, txid);
    if c.requests == c.entries {
      forall k | 0 <= k < c.ports ensures s'.ports[k] <==> Holds(s'.table, k) {
        assert s.ports[k] <==> Holds(s.table, k);
        assert s'.table[i].phase.Asking? && s'.table[i].port == port;
        if Holds(s.table, k) {
          var j :| 0 <= j < |s.table| && s.table[j].phase.Asking? && s.table[j].port == k;
          assert s'.table[j] == s.table[j];
        }
        if Holds(s'.table, k) && k != port {
          var j :| 0 <= j < |s'.table| && s'.table[j].phase.Asking? && s'.table[j].port == k;
          assert s'.table[j] == s.table[j];
        }
      }
    }
  }

  lemma StartKeeps(c: Limits, s: Dns, i: nat, r: nat, name: HostName, port: nat, cb: Option<Callback>, mdns: bool,
                   txid: U16)
    requires MayStart(c, s, i, r, name, port, txid)
    ensures Inv(c, Started(s, i, r, name, port, cb, mdns, txid))
  {
    hide LowerAll, Conserved, PortsOpen, DistinctIds, DistinctNames, Later, Bound;
    var s' := Started(s, i, r, name, port, cb, mdns, txid);
    StartConserved(c, s, i, r, name, port, cb, mdns, txid);
    StartDistinct(c, s, i, r, name, port, cb, mdns, txid);
    StartPorts(c, s, i, r, name, port, cb, mdns, txid);
    LaterStep(c, 0);
    forall j | 0 <= j < c.entries ensures EntryOk(c, s'.table[j]) {
      assert EntryOk(c, s.table[j]);
    }
  }

  /** A failed socket: the entry that was picked is unused afterwards and nothing is pending on it. */
  lemma RefuseKeeps(c: Limits, s: Dns, i: nat, r: nat, e: Entry)
    requires ValidLimits(c) && Inv(c, s) && i < c.entries && r < c.requests && s.requests[r].found.None?
    requires !s.table[i].phase.Asking? && e.phase.Unused? && e.server == s.table[i].server
    ensures Inv(c, s.(table := s.table[i := e], requests := s.requests[r := Request(None, i)]))
  {
    hide Rank, Bound, LowerAll;
    var s' := s.(table := s.table[i := e], requests := s.requests[r := Request(None, i)]);
    forall j | 0 <= j < c.entries ensures EntryOk(c, s'.table[j]) && Alike(s.table[j], s'.table[j]) {
      assert EntryOk(c, s.table[j]);
    }
    assert StillAsks(c, s, s');
    StillAsksKeeps(c, s, s');
  }

  lemma EnqueueKeeps(c: Limits, s: Dns, host: seq<Byte>, len: nat, cb: Option<Callback>, mdns: bool,
                     socket: bool, txid: U16, memory: bool)
    requires ValidLimits(c) && Inv(c, s) && CString(host) && len <= |host| && FreshId(s.table, txid)
    ensures Inv(c, Enqueue(c, s, host, len, cb, mdns, socket, txid, memory).0)
  {
    hide Rank, Bound, LowerAll, Conserved, PortsOpen, DistinctNames, DistinctIds, Pointed, InTime, SameHost, Send;
    var name := Kept(host, len);
    var dup, r, i := FindDuplicate(s.table, host, len, 0), FreeRequest(s.requests, 0), PickEntry(s);
    if dup < c.entries && r < c.requests {
      SameHostLower(host, len, s.table[dup].name);
      JoinKeeps(c, s, dup, r, cb, name);
    } else if i < c.entries && r < c.requests {
      var port := ChosenPort(c, s, socket);
      if port == c.ports {
        RefuseKeeps(c, s, i, r, Filled(s, i, name, port, s.table[i].mdns).(phase := Unused));
      } else {
        forall j | 0 <= j < c.entries && s.table[j].phase.Asking? && |name| > 0
          ensures LowerAll(s.table[j].name) != LowerAll(name)
        {
          assert !Duplicates(host, len, s.table[j]);
          SameHostLower(host, len, s.table[j].name);
        }
        StartKeeps(c, s, i, r, name, port, cb, mdns, txid);
        SendKeeps(c, Started(s, i, r, name, port, cb, mdns, txid), i, memory);
      }
    }
  }

  // Runs.

  datatype Op =
    | Lookup(host: seq<Byte>, len: nat, cb: Option<Callback>, mdns: bool, socket: bool, txid: U16, memory: bool)
    | Timer(entry: nat, memory: bool)
    | Packet(packet: DnsNames.Packet, from: Ip, tail: Text, memory: bool)
    | SetServer(index: nat, server: Ip)

  /** A lookup is for a C string and gets an id that `dns_create_txid` can yield. */
  ghost predicate LegalOp(c: Limits, s: Dns, op: Op) {
    match op
    case Lookup(host, len, _, _, _, txid, _) => CString(host) && len <= |host| && FreshId(s.table, txid)
    case Timer(entry, _) => entry < c.entries
    case Packet(_, _, _, _) => true
    case SetServer(_, _) => true
  }

  ghost function Step(c: Limits, s: Dns, op: Op): Dns
    requires ValidLimits(c) && Sized(c, s) && Entries(c, s) && LegalOp(c, s, op)
  {
    assert forall i :: 0 <= i < c.entries ==> EntryOk(c, s.table[i]);
    match op
    case Lookup(host, len, cb, mdns, socket, txid, memory) => Enqueue(c, s, host, len, cb, mdns, socket, txid, memory).0
    case Timer(entry, memory) => Tick(c, s, entry, 0, memory)
    case Packet(packet, from, tail, memory) => Receive(c, s, packet, from, tail, 0, memory)
    case SetServer(index, server) => if index < c.servers then s.(servers := s.servers[index := server]) else s
  }

  lemma StepKeeps(c: Limits, s: Dns, op: Op)
    requires ValidLimits(c) && Inv(c, s) && LegalOp(c, s, op)
    ensures Inv(c, Step(c, s, op))
  {
    hide Enqueue, Tick, Receive;
    match op
    case Lookup(host, len, cb, mdns, socket, txid, memory) =>
      EnqueueKeeps(c, s, host, len, cb, mdns, socket, txid, memory);
    case Timer(entry, memory) => TickKeeps(c, s, entry, 0, memory);
    case Packet(packet, from, tail, memory) => ReceiveKeeps(c, s, packet, from, tail, 0, memory);
    case SetServer(index, server) =>
  }

  /** The zero-initialised tables. */
  ghost function Initial(c: Limits): Dns {
    Dns(seq(c.entries, _ => Entry(Unused, 0, 0, 0, 0, 0, 0, [], 0, 0, false)), seq(c.requests, _ => Request(None, 0)),
        seq(c.ports, _ => false), seq(c.servers, _ => ANY), 0, 0, [], [], multiset{}, seq(c.entries, _ => 0))
  }

  lemma {:induction false} NothingPending(requests: seq<Request>, table: seq<Entry>, n: nat)
    requires n <= |requests| && forall r :: 0 <= r < n ==> requests[r].found.None?
    ensures Pending(requests, table, n) == multiset{}
  {
    if n > 0 {
      NothingPending(requests, table, n - 1);
    }
  }

  lemma InitialInv(c: Limits)
    requires ValidLimits(c)
    ensures Inv(c, Initial(c))
  {
    var s := Initial(c);
    NothingPending(s.requests, s.table, c.requests);
    assert forall i :: 0 <= i < c.entries ==> EntryOk(c, s.table[i]);
    assert forall k :: 0 <= k < c.ports ==> !s.ports[k] && !Holds(s.table, k);
  }

  ghost predicate Follows(c: Limits, states: seq<Dns>, t: nat, op: Op)
    requires t + 1 < |states|
  {
    && ValidLimits(c) && Sized(c, states[t]) && Entries(c, states[t]) && LegalOp(c, states[t], op)
    && states[t + 1] == Step(c, states[t], op)
  }

  /** `states` is what a run of legal steps from the initial tables goes through. */
  ghost predicate IsRun(c: Limits, ops: seq<Op>, states: seq<Dns>) {
    && |states| == |ops| + 1 && states[0] == Initial(c)
    && forall t :: 0 <= t < |ops| ==> Follows(c, states, t, ops[t])
  }

  /** From `s` to `s'` the timers of all entries are checked once each, in order. */
  ghost predicate TimerStates(c: Limits, s: Dns, s': Dns, memory: nat -> bool, states: seq<Dns>) {
    && |states| == c.entries + 1 && states[0] == s && states[c.entries] == s'
    && forall t :: 0 <= t < c.entries ==> Follows(c, states, t, Op.Timer(t, memory(t)))
  }

  /** One call of `dns_tmr` is a part of a run: a step for each entry, beginning with the first. */
  lemma {:induction false} TickAllSteps(c: Limits, s: Dns, memory: nat -> bool, n: nat) returns (states: seq<Dns>)
    requires ValidLimits(c) && Inv(c, s) && n <= c.entries
    ensures |states| == n + 1 && states[0] == s && states[n] == TickAll(c, s, memory, n)
    ensures forall t :: 0 <= t < n ==> Follows(c, states, t, Op.Timer(t, memory(t)))
  {
    hide Inv, Tick, Entries;
    if n == 0 {
      states := [s];
    } else {
      var before := TickAllSteps(c, s, memory, n - 1);
      states := before + [TickAll(c, s, memory, n)];
      TickFollows(c, before[n - 1], n - 1, memory(n - 1));
      forall t | 0 <= t < n ensures Follows(c, states, t, Op.Timer(t, memory(t))) {
        if t < n - 1 {
          assert Follows(c, before, t, Op.Timer(t, memory(t)));
        }
      }
    }
  }

  lemma TickFollows(c: Limits, s: Dns, i: nat, memory: bool)
    requires ValidLimits(c) && Inv(c, s) && i < c.entries
    ensures Sized(c, s) && Entries(c, s) && Step(c, s, Op.Timer(i, memory)) == TickOne(c, s, i, memory)
  {
    hide Tick;
  }

  /** Every state of every run satisfies the invariant. */
  lemma {:induction false} EveryRunInv(c: Limits, ops: seq<Op>, states: seq<Dns>, t: nat)
    requires ValidLimits(c) && IsRun(c, ops, states) && t < |states|
    ensures Inv(c, states[t])
    decreases t
  {
    hide Inv, Step;
    if t == 0 {
      InitialInv(c);
    } else {
      EveryRunInv(c, ops, states, t - 1);
      assert Follows(c, states, t - 1, ops[t - 1]);
      StepKeeps(c, states[t - 1], ops[t - 1]);
    }
  }

  // What the invariant gives.

  /** Accepted callbacks have fired exactly once once no entry asks any more. */
  lemma AllAnswered(c: Limits, s: Dns)
    requires Inv(c, s) && forall i :: 0 <= i < c.entries ==> !s.table[i].phase.Asking?
    ensures Fired(s.calls) == s.accepted
  {
    NothingPending(s.requests, s.table, c.requests);
  }

  /** At most one entry can match a reply: the first with the id is the only one. */
  lemma ReplyMatchesOne(c: Limits, s: Dns, id: U16, j: nat)
    requires Inv(c, s) && j < c.entries && s.table[j].phase.Asking? && s.table[j].txid == id
    ensures FindId(s.table, id, 0) == j
    ensures forall k :: 0 <= k < c.entries && s.table[k].phase.Asking? && s.table[k].txid == id ==> k == j
  {
    forall k | 0 <= k < c.entries && k != j ensures !(s.table[k].phase.Asking? && s.table[k].txid == id) {
      assert BothAsk(s.table, k, j) == s.table[k].phase.Asking?;
    }
  }

  /** An entry asks for fewer than DNS_MAX_SERVERS * (1 + R * (R - 1) / 2) ticks, with its counters in range. */
  lemma AskingWithinBound(c: Limits, s: Dns, i: nat)
    requires ValidLimits(c) && Inv(c, s) && i < c.entries && s.table[i].phase.Asking?
    ensures 2 * s.ages[i] < c.servers * (2 + c.retries * (c.retries - 1))
    ensures s.table[i].tmr >= 1 && s.table[i].retries < c.retries
  {
    hide Rank, Bound, Inv;
    EntryFromInv(c, s, i);
    RetryRank(c, s.table[i], false);
    BoundClosedForm(c);
  }
}
