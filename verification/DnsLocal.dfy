/**
 * What a step of the resolver of src/lwip/dns.c leaves alone: a tick or a packet acts on
 * one entry and at most answers requests, a lookup does not disturb entries that ask,
 * and a step sends at most one query.
 */
module DnsLocal {
  import opened Words
  import opened Options
  import opened CaseFold
  import opened DnsNames
  import opened DnsTable
  import opened DnsSteps
  import opened DnsInvariant
  import opened DnsRuns

  // Ticks and packets.

  ghost predicate SameRequest(r: Request, r': Request, i: nat) {
    r' == r || (r.entry == i && r'.found.None?)
  }

  /** Entry `i` keeps its name and number, and does not start; if it goes on asking it gets older by `ticks`. */
  ghost predicate GoesOn(s: Dns, s': Dns, i: nat, ticks: nat)
    requires i < |s.table| == |s'.table| == |s.ages| == |s'.ages|
  {
    var e, e' := s.table[i], s'.table[i];
    && e'.name == e.name && e'.seqno == e.seqno && (e.phase.Unused? ==> e'.phase.Unused?)
    && (e'.phase.Asking? ==>
        e.phase.Asking? && e'.port == e.port && s'.ages[i] == s.ages[i] + ticks && s'.requests == s.requests)
  }

  /** The port of entry `i` may be closed if the entry ends and the port is not shared. */
  ghost predicate ClosesOwn(c: Limits, s: Dns, s': Dns, i: nat)
    requires i < |s.table| == |s'.table| && c.requests <= |s.table|
  {
    && |s'.ports| == |s.ports|
    && (s'.table[i].phase.Asking? || !s.table[i].phase.Asking? ==> s'.ports == s.ports)
    && forall p :: 0 <= p < |s.ports| && s.ports[p] ==>
         s'.ports[p] || (p == s.table[i].port && !PortShared(c, s.table, i))
  }

  /** The step acts on entry `i` only, flushes at most the requests for it, and accepts nothing. */
  ghost predicate ActsOn(c: Limits, s: Dns, s': Dns, i: nat, ticks: nat) {
    && i < |s.table| == |s'.table| == |s.ages| == |s'.ages| && |s'.requests| == |s.requests| && c.requests <= |s.table|
    && s'.servers == s.servers && s'.accepted == s.accepted && s'.seqno == s.seqno
    && GoesOn(s, s', i, ticks) && ClosesOwn(c, s, s', i)
    && (forall k :: 0 <= k < |s.table| && k != i ==> s'.table[k] == s.table[k] && s'.ages[k] == s.ages[k])
    && (forall r :: 0 <= r < |s.requests| ==> SameRequest(s.requests[r], s'.requests[r], i))
  }

  lemma FinishActs(c: Limits, s: Dns, i: nat, addr: Option<Ip>, phase: Phase)
    requires Sized(c, s) && i < c.entries && c.requests <= c.entries && s.table[i].phase.Asking? && !phase.Asking?
    ensures ActsOn(c, s, Finish(c, s, i, addr, phase), i, 0) && Finish(c, s, i, addr, phase).sent == s.sent
    ensures Finish(c, s, i, addr, phase).table[i].phase == phase
  {
    hide PortShared;
  }

  lemma SendActs(c: Limits, s: Dns, i: nat, memory: bool)
    requires Sized(c, s) && i < c.entries && c.requests <= c.entries
    requires s.table[i].server < c.servers && s.table[i].phase.Asking?
    ensures ActsOn(c, s, Send(c, s, i, memory), i, 0)
  {
    hide Finish, QueryMessage, PortShared;
    FinishActs(c, s, i, None, Unused);
  }

  /** Changing entry `i` first, except for what identifies it, makes no difference. */
  lemma ActsFrame(c: Limits, s: Dns, t: Dns, s': Dns, i: nat)
    requires ActsOn(c, t, s', i, 0) && i < |s.table| && t == s.(table := s.table[i := t.table[i]])
    requires var e, e' := s.table[i], t.table[i];
             e.phase.Asking? && e'.phase.Asking? && e'.name == e.name && e'.seqno == e.seqno && e'.port == e.port
    ensures ActsOn(c, s, s', i, 0)
  {
    hide PortShared;
    SharedFrame(c, s.table, i, t.table[i]);
    assert forall r :: 0 <= r < |s.requests| ==> SameRequest(t.requests[r], s'.requests[r], i);
  }

  lemma CheckActs(c: Limits, s: Dns, i: nat, txid: U16, memory: bool)
    requires ValidLimits(c) && Sized(c, s) && i < c.entries && s.table[i].server < c.servers && !s.table[i].phase.New?
    ensures ActsOn(c, s, CheckEntry(c, s, i, txid, memory), i, 0)
  {
    hide Finish, Send, PortShared;
    var e := s.table[i];
    if e.phase.Asking? {
      var next := Retry(c, e, Backup(c, s.servers, e));
      if next.None? {
        var t := s.(table := s.table[i := e.(tmr := 0, retries := (e.retries + 1) % 0x100)]);
        FinishActs(c, t, i, None, Unused);
        ActsFrame(c, s, t, Finish(c, t, i, None, Unused), i);
      } else if e.tmr == 1 {
        var t := s.(table := s.table[i := next.value]);
        SendActs(c, t, i, memory);
        ActsFrame(c, s, t, Send(c, t, i, memory), i);
      }
    }
  }

  lemma TickActs(c: Limits, s: Dns, i: nat, memory: bool)
    requires ValidLimits(c) && Sized(c, s) && i < c.entries && s.table[i].server < c.servers && !s.table[i].phase.New?
    ensures ActsOn(c, s, Tick(c, s, i, 0, memory), i, 1)
  {
    hide CheckEntry;
    if s.table[i].phase.Asking? {
      CheckActs(c, s.(ages := s.ages[i := s.ages[i] + 1]), i, 0, memory);
    } else {
      CheckActs(c, s, i, 0, memory);
    }
  }

  lemma ResolveActs(c: Limits, s: Dns, i: nat, ttl: U32, addr: Ip)
    requires ValidLimits(c) && Sized(c, s) && i < c.entries && s.table[i].phase.Asking?
    ensures ActsOn(c, s, Resolve(c, s, i, ttl, addr), i, 0) && Resolve(c, s, i, ttl, addr).sent == s.sent
  {
    hide PortShared;
    var kept: U32 := if ttl > c.maxTtl then c.maxTtl else ttl;
    SharedFrame(c, s.table, i, s.table[i].(addr := addr, phase := Done, ttl := kept));
  }

  /** The entry that a packet is for, or the number of entries. */
  ghost function Addressee(s: Dns, p: Packet): (i: nat)
    ensures i <= |s.table|
  {
    if |p| < 16 then |s.table| else FindId(s.table, U16At(p, 0), 0)
  }

  lemma ReceiveActs(c: Limits, s: Dns, p: Packet, from: Ip, tail: Text, memory: bool)
    requires ValidLimits(c) && Sized(c, s) && forall i :: 0 <= i < c.entries ==> s.table[i].server < c.servers
    ensures var i, s' := Addressee(s, p), Receive(c, s, p, from, tail, 0, memory);
            if i < c.entries && !Judge(s.servers, s.table[i], p, from, tail).Ignore? then ActsOn(c, s, s', i, 0)
            else s' == s
  {
    hide CheckEntry, Finish, Resolve, Judge;
    var i := Addressee(s, p);
    if i < c.entries {
      var verdict := Judge(s.servers, s.table[i], p, from, tail);
      FinishActs(c, s, i, None, Unused);
      var t := s.(table := s.table[i := s.table[i].(retries := c.retries - 1, tmr := 1)]);
      CheckActs(c, t, i, 0, memory);
      ActsFrame(c, s, t, CheckEntry(c, t, i, 0, memory), i);
      if verdict.Answer? {
        ResolveActs(c, s, i, verdict.ttl, verdict.addr);
      }
    }
  }

  /** A tick or a packet acts on some entry. */
  lemma StepActs(c: Limits, s: Dns, op: Op) returns (i: nat)
    requires ValidLimits(c) && Inv(c, s) && LegalOp(c, s, op) && (op.Timer? || op.Packet?)
    ensures op.Timer? ==> i == op.entry
    ensures ActsOn(c, s, Step(c, s, op), i, if op.Timer? then 1 else 0)
  {
    hide Tick, Receive, Judge, Inv;
    InvSized(c, s);
    if op.Timer? {
      i := op.entry;
      EntryFromInv(c, s, i);
      TickActs(c, s, i, op.memory);
    } else {
      i := Addressee(s, op.packet);
      ReceiveActs(c, s, op.packet, op.from, op.tail, op.memory);
      if i == c.entries || Judge(s.servers, s.table[i], op.packet, op.from, op.tail).Ignore? {
        i := 0;
      }
    }
  }

  // Lookups.

  /** What a lookup does, by case. */
  datatype Outcome = Joined(r: nat, dup: nat) | Full | Refused(i: nat, r: nat) | Begun(i: nat, r: nat, port: nat)

  ghost predicate Comes(c: Limits, s: Dns, op: Op, how: Outcome)
    requires ValidLimits(c) && Sized(c, s) && Entries(c, s) && LegalOp(c, s, op) && op.Lookup?
  {
    var s', name := Step(c, s, op), Kept(op.host, op.len);
    match how
    case Joined(r, dup) =>
      && r < c.requests && dup < c.entries && s.requests[r].found.None?
      && s.table[dup].phase.Asking? && LowerAll(name) == LowerAll(s.table[dup].name)
      && s' == s.(requests := s.requests[r := Request(op.cb, dup)], accepted := Accept(s.accepted, op.cb, name))
    case Full => s' == s
    case Refused(i, r) =>
      && i < c.entries && r < c.requests && !s.table[i].phase.Asking? && s.requests[r].found.None?
      && s' == s.(table := s.table[i := Filled(s, i, name, c.ports, s.table[i].mdns).(phase := Unused)],
                  requests := s.requests[r := Request(None, i)])
    case Begun(i, r, port) =>
      && i == PickEntry(s) && i < c.entries && r < c.requests && port < c.ports
      && !s.table[i].phase.Asking? && s.requests[r].found.None?
      && s' == Send(c, Started(s, i, r, name, port, op.cb, op.mdns, op.txid), i, op.memory)
  }

  lemma LookupComes(c: Limits, s: Dns, op: Op) returns (how: Outcome)
    requires ValidLimits(c) && Inv(c, s) && LegalOp(c, s, op) && op.Lookup?
    ensures Comes(c, s, op, how)
  {
    hide LowerAll, SameHost, Send, Inv, PickEntry, ChosenPort;
    InvSized(c, s);
    assert Entries(c, s) by {
      InvEntries(c, s);
    }
    var dup, r, i := FindDuplicate(s.table, op.host, op.len, 0), FreeRequest(s.requests, 0), PickEntry(s);
    if dup < c.entries && r < c.requests {
      SameHostLower(op.host, op.len, s.table[dup].name);
      how := Joined(r, dup);
    } else if i == c.entries || r == c.requests {
      how := Full;
    } else {
      var port := ChosenPort(c, s, op.socket);
      how := if port == c.ports then Refused(i, r) else Begun(i, r, port);
    }
  }

  lemma InvEntries(c: Limits, s: Dns)
    requires Inv(c, s)
    ensures Sized(c, s) && Entries(c, s)
  {
  }

  /** A lookup does not disturb an entry that asks, and what it starts begins with fresh counters. */
  lemma LookupSpares(c: Limits, s: Dns, op: Op, k: nat)
    requires ValidLimits(c) && Inv(c, s) && LegalOp(c, s, op) && op.Lookup? && k < c.entries
    ensures var s' := Step(c, s, op);
            && Sized(c, s') && s'.servers == s.servers
            && (s.table[k].phase.Asking? ==> s'.table[k] == s.table[k] && s'.ages[k] == s.ages[k])
            && (!s.table[k].phase.Asking? && s'.table[k].phase.Asking? ==>
                s'.table[k].server == 0 && s'.table[k].tmr == 1 && s'.table[k].retries == 0)
  {
    hide LowerAll, Inv, Step, Finish, QueryMessage, PortShared;
    InvEntries(c, s);
    StepKeeps(c, s, op);
    InvSized(c, Step(c, s, op));
    var how := LookupComes(c, s, op);
    if how.Begun? {
      var t := Started(s, how.i, how.r, Kept(op.host, op.len), how.port, op.cb, op.mdns, op.txid);
      FinishActs(c, t, how.i, None, Unused);
    }
  }

  // Queries.

  ghost function QueryOf(s: Dns, e: Entry): Query
    requires e.server < |s.servers|
  {
    Query(if e.mdns then Multicast else Unicast(s.servers[e.server]), e.port, QueryMessage(e.name, e.txid))
  }

  /** The one query that was sent is that of entry `i`, which still asks, of a server that is set or of the group. */
  ghost predicate SentFor(s: Dns, s': Dns, i: nat) {
    && i < |s'.table| && s'.table[i].phase.Asking? && s'.table[i].server < |s'.servers|
    && (s'.table[i].mdns || s'.servers[s'.table[i].server] != ANY)
    && s'.sent == s.sent + [QueryOf(s', s'.table[i])]
  }

  ghost predicate SendsOne(s: Dns, s': Dns) {
    s'.sent == s.sent || exists i :: SentFor(s, s', i)
  }

  lemma SendSends(c: Limits, s: Dns, i: nat, memory: bool)
    requires Sized(c, s) && i < c.entries && c.requests <= c.entries && s.table[i].server < c.servers
    requires s.table[i].phase.Asking?
    ensures SendsOne(s, Send(c, s, i, memory))
  {
    hide Finish, QueryMessage;
    FinishActs(c, s, i, None, Unused);
    var s' := Send(c, s, i, memory);
    if s'.sent != s.sent {
      assert SentFor(s, s', i);
    }
  }

  lemma CheckSends(c: Limits, s: Dns, i: nat, txid: U16, memory: bool)
    requires ValidLimits(c) && Sized(c, s) && i < c.entries && s.table[i].server < c.servers && !s.table[i].phase.New?
    ensures SendsOne(s, CheckEntry(c, s, i, txid, memory))
  {
    hide Finish, Send;
    var e := s.table[i];
    if e.phase.Asking? {
      var next := Retry(c, e, Backup(c, s.servers, e));
      if next.None? {
        FinishActs(c, s.(table := s.table[i := e.(tmr := 0, retries := (e.retries + 1) % 0x100)]), i, None, Unused);
      } else if e.tmr == 1 {
        var t := s.(table := s.table[i := next.value]);
        SendSends(c, t, i, memory);
        SendsFrame(t, s, Send(c, t, i, memory));
      }
    }
  }

  lemma SendsFrame(t: Dns, s: Dns, s': Dns)
    requires SendsOne(t, s') && t.sent == s.sent
    ensures SendsOne(s, s')
  {
    if s'.sent != s.sent {
      var i :| SentFor(t, s', i);
      assert SentFor(s, s', i);
    }
  }

  /** A step sends at most one query, for an entry that asks afterwards. */
  lemma StepSends(c: Limits, s: Dns, op: Op)
    requires ValidLimits(c) && Inv(c, s) && LegalOp(c, s, op)
    ensures SendsOne(s, Step(c, s, op))
  {
    hide Inv, CheckEntry, Finish, Resolve, Judge, Send, SendsOne, Enqueue, LowerAll;
    InvSized(c, s);
    InvEntries(c, s);
    match op
    case Lookup(host, len, cb, mdns, socket, txid, memory) =>
      var how := LookupComes(c, s, op);
      if how.Begun? {
        var t := Started(s, how.i, how.r, Kept(host, len), how.port, cb, mdns, txid);
        SendSends(c, t, how.i, memory);
        SendsFrame(t, s, Step(c, s, op));
      } else {
        SendsNothing(s, Step(c, s, op));
      }
    case Timer(i, memory) =>
      EntryFromInv(c, s, i);
      var t := if s.table[i].phase.Asking? then s.(ages := s.ages[i := s.ages[i] + 1]) else s;
      CheckSends(c, t, i, 0, memory);
      SendsFrame(t, s, Step(c, s, op));
    case Packet(p, from, tail, memory) => ReceiveSends(c, s, p, from, tail, memory);
    case SetServer(_, _) => SendsNothing(s, Step(c, s, op));
  }

  lemma SendsNothing(s: Dns, s': Dns)
    requires s'.sent == s.sent
    ensures SendsOne(s, s')
  {
  }

  lemma ReceiveSends(c: Limits, s: Dns, p: Packet, from: Ip, tail: Text, memory: bool)
    requires ValidLimits(c) && Sized(c, s) && forall i :: 0 <= i < c.entries ==> s.table[i].server < c.servers
    ensures SendsOne(s, Receive(c, s, p, from, tail, 0, memory))
  {
    hide CheckEntry, Finish, Resolve, Judge, SendsOne;
    SendsNothing(s, s);
    var i := Addressee(s, p);
    if i < c.entries {
      var verdict := Judge(s.servers, s.table[i], p, from, tail);
      FinishActs(c, s, i, None, Unused);
      SendsNothing(s, Finish(c, s, i, None, Unused));
      var t := s.(table := s.table[i := s.table[i].(retries := c.retries - 1, tmr := 1)]);
      CheckSends(c, t, i, 0, memory);
      SendsFrame(t, s, CheckEntry(c, t, i, 0, memory));
      if verdict.Answer? {
        ResolveActs(c, s, i, verdict.ttl, verdict.addr);
        SendsNothing(s, Resolve(c, s, i, verdict.ttl, verdict.addr));
      }
    }
  }

  /**
   * In every run each step sends at most one query; it is the query of an entry that asks
   * after the step, goes to a server that is set or to the group, and, with equal table
   * sizes, leaves through an open port.
   */
  lemma EveryQueryThroughOpenPort(c: Limits, ops: seq<Op>, states: seq<Dns>, t: nat)
    requires ValidLimits(c) && IsRun(c, ops, states) && t < |ops|
    ensures var s, s' := states[t], states[t + 1];
            s'.sent != s.sent ==>
              exists i: nat ::
                && SentFor(s, s', i) && s'.table[i].port < c.ports
                && (c.requests == c.entries ==> |s'.ports| == c.ports && s'.ports[s'.table[i].port])
  {
    hide Inv, Step, SentFor;
    EveryRunInv(c, ops, states, t);
    EveryRunInv(c, ops, states, t + 1);
    assert Follows(c, states, t, ops[t]);
    StepSends(c, states[t], ops[t]);
    var s, s' := states[t], states[t + 1];
    if s'.sent != s.sent {
      var i: nat :| SentFor(s, s', i);
      assert i < |s'.table| && s'.table[i].phase.Asking? by {
        SentForAsks(s, s', i);
      }
      AskingPortOpen(c, s', i);
    }
  }

  lemma SentForAsks(s: Dns, s': Dns, i: nat)
    requires SentFor(s, s', i)
    ensures i < |s'.table| && s'.table[i].phase.Asking?
  {
  }

  lemma AskingPortOpen(c: Limits, s: Dns, i: nat)
    requires Inv(c, s) && i < |s.table| && s.table[i].phase.Asking?
    ensures |s.ports| == c.ports && s.table[i].port < c.ports && (c.requests == c.entries ==> s.ports[s.table[i].port])
  {
    EntryFromInv(c, s, i);
    assert Holds(s.table, s.table[i].port);
  }
}
