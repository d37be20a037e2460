/**
 * What the callbacks of the resolver of src/lwip/dns.c are called with: when a lookup ends,
 * exactly the callbacks that wait for it are called, in the order of the requests, with its
 * name and its address, or without an address if it failed.
 */
module DnsCallbacks {
  import opened Words
  import opened Options
  import opened DnsNames
  import opened DnsTable
  import opened DnsSteps
  import opened DnsInvariant
  import opened DnsRuns
  import opened DnsLocal

  ghost predicate Ascending(who: seq<nat>) {
    forall j, k :: 0 <= j < k < |who| ==> who[j] < who[k]
  }

  /** `who` are the requests below `n` that are pending on entry `i`, in order. */
  ghost predicate Waiters(requests: seq<Request>, i: nat, n: nat, who: seq<nat>)
    requires n <= |requests|
  {
    && Ascending(who)
    && (forall k :: 0 <= k < |who| ==>
         who[k] < n && requests[who[k]].found.Some? && requests[who[k]].entry == i)
    && (forall r :: 0 <= r < n && requests[r].found.Some? && requests[r].entry == i ==> r in who)
  }

  /** The calls are those of the callbacks of the requests `who`, all with this name and address. */
  ghost predicate CalledWith(calls: seq<Call>, requests: seq<Request>, who: seq<nat>,
                             name: HostName, addr: Option<Ip>) {
    && |calls| == |who|
    && forall k :: 0 <= k < |who| ==>
         && who[k] < |requests| && requests[who[k]].found.Some?
         && calls[k].cb == requests[who[k]].found.value && calls[k].name == name && calls[k].addr == addr
  }

  /** From `s` to `s'` exactly the callbacks that wait for entry `i` are called, with its name and `addr`. */
  ghost predicate Answered(s: Dns, s': Dns, i: nat, addr: Option<Ip>) {
    && i < |s.table| && |s.calls| <= |s'.calls| && s'.calls[..|s.calls|] == s.calls
    && exists who ::
         && Waiters(s.requests, i, |s.requests|, who)
         && CalledWith(s'.calls[|s.calls|..], s.requests, who, s.table[i].name, addr)
  }

  lemma {:induction false} CallsForWaiters(requests: seq<Request>, i: nat, name: HostName, addr: Option<Ip>, n: nat)
    returns (who: seq<nat>)
    requires n <= |requests|
    ensures Waiters(requests, i, n, who) && CalledWith(CallsFor(requests, i, name, addr, n), requests, who, name, addr)
  {
    if n == 0 {
      who := [];
    } else {
      who := CallsForWaiters(requests, i, name, addr, n - 1);
      if WaitsFor(requests[n - 1], i) {
        who := who + [n - 1];
      }
    }
  }

  lemma CallFoundAnswers(c: Limits, s: Dns, i: nat, addr: Option<Ip>)
    requires Sized(c, s) && i < c.entries && c.requests <= c.entries
    ensures Answered(s, CallFound(c, s, i, addr), i, addr)
  {
    var s', calls := CallFound(c, s, i, addr), CallsFor(s.requests, i, s.table[i].name, addr, |s.requests|);
    var who := CallsForWaiters(s.requests, i, s.table[i].name, addr, |s.requests|);
    assert s'.calls[|s.calls|..] == calls;
  }

  /** Nothing is called while the lookup goes on; when it ends, its callbacks are called. */
  ghost predicate CallsAtEnd(s: Dns, s': Dns, i: nat, addr: Option<Ip>) {
    && i < |s.table| == |s'.table|
    && if s'.table[i].phase.Asking? then s'.calls == s.calls else Answered(s, s', i, addr)
  }

  lemma FinishCalls(c: Limits, s: Dns, i: nat, addr: Option<Ip>, phase: Phase)
    requires Sized(c, s) && i < c.entries && c.requests <= c.entries && !phase.Asking?
    ensures CallsAtEnd(s, Finish(c, s, i, addr, phase), i, addr)
    ensures Answered(s, Finish(c, s, i, addr, phase), i, addr)
  {
    hide PortShared, CallsFor, Answered;
    CallFoundAnswers(c, s, i, addr);
    AnsweredFrame(s, s, CallFound(c, s, i, addr), Finish(c, s, i, addr, phase), i, addr);
  }

  lemma AnsweredFrame(s: Dns, t: Dns, t': Dns, s': Dns, i: nat, addr: Option<Ip>)
    requires Answered(t, t', i, addr) && i < |s.table| && t.table[i].name == s.table[i].name
    requires t.requests == s.requests && t.calls == s.calls && s'.calls == t'.calls
    ensures Answered(s, s', i, addr)
  {
    var who :| Waiters(t.requests, i, |t.requests|, who) &&
               CalledWith(t'.calls[|t.calls|..], t.requests, who, t.table[i].name, addr);
    assert Waiters(s.requests, i, |s.requests|, who);
  }

  lemma SendCalls(c: Limits, s: Dns, i: nat, memory: bool)
    requires Sized(c, s) && i < c.entries && c.requests <= c.entries
    requires s.table[i].server < c.servers && s.table[i].phase.Asking?
    ensures CallsAtEnd(s, Send(c, s, i, memory), i, None)
  {
    hide Finish, QueryMessage, Answered;
    FinishCalls(c, s, i, None, Unused);
  }

  lemma CheckCalls(c: Limits, s: Dns, i: nat, txid: U16, memory: bool)
    requires ValidLimits(c) && Sized(c, s) && i < c.entries && s.table[i].server < c.servers && s.table[i].phase.Asking?
    ensures CallsAtEnd(s, CheckEntry(c, s, i, txid, memory), i, None)
  {
    hide Finish, Send, Answered;
    var e, s' := s.table[i], CheckEntry(c, s, i, txid, memory);
    CheckActs(c, s, i, txid, memory);
    var next := Retry(c, e, Backup(c, s.servers, e));
    if next.None? {
      var t := s.(table := s.table[i := e.(tmr := 0, retries := (e.retries + 1) % 0x100)]);
      FinishActs(c, t, i, None, Unused);
      FinishCalls(c, t, i, None, Unused);
      AnsweredFrame(s, t, s', s', i, None);
    } else if e.tmr == 1 {
      var t := s.(table := s.table[i := next.value]);
      SendCalls(c, t, i, memory);
      if !s'.table[i].phase.Asking? {
        AnsweredFrame(s, t, s', s', i, None);
      }
    }
  }

  /** A tick that ends a lookup, by time-out or for want of a server, calls its callbacks without an address. */
  lemma TickCalls(c: Limits, s: Dns, i: nat, memory: bool)
    requires ValidLimits(c) && Inv(c, s) && i < c.entries
    ensures s.table[i].server < c.servers
    ensures var s' := Tick(c, s, i, 0, memory);
            if s.table[i].phase.Asking? then CallsAtEnd(s, s', i, None) else s'.calls == s.calls
  {
    hide Inv, Answered, Finish, Send;
    EntryFromInv(c, s, i);
    if s.table[i].phase.Asking? {
      var t, s' := s.(ages := s.ages[i := s.ages[i] + 1]), Tick(c, s, i, 0, memory);
      CheckCalls(c, t, i, 0, memory);
      if !s'.table[i].phase.Asking? {
        AnsweredFrame(s, t, s', s', i, None);
      }
    }
  }

  lemma ResolveCalls(c: Limits, s: Dns, i: nat, ttl: U32, addr: Ip)
    requires ValidLimits(c) && Sized(c, s) && i < c.entries && s.table[i].phase.Asking?
    ensures Answered(s, Resolve(c, s, i, ttl, addr), i, Some(addr))
    ensures !Resolve(c, s, i, ttl, addr).table[i].phase.Asking?
  {
    hide PortShared, CallsFor, Answered;
    var kept: U32 := if ttl > c.maxTtl then c.maxTtl else ttl;
    var t := s.(table := s.table[i := s.table[i].(addr := addr, phase := Done, ttl := kept)]);
    CallFoundAnswers(c, t, i, Some(addr));
    AnsweredFrame(s, t, CallFound(c, t, i, Some(addr)), Resolve(c, s, i, ttl, addr), i, Some(addr));
  }

  /** A packet that ends a lookup calls its callbacks: with the address it gives, and without one otherwise. */
  lemma ReceiveCalls(c: Limits, s: Dns, p: Packet, from: Ip, tail: Text, memory: bool)
    requires ValidLimits(c) && Inv(c, s)
    ensures forall i :: 0 <= i < c.entries ==> s.table[i].server < c.servers
    ensures var i, s' := Addressee(s, p), Receive(c, s, p, from, tail, 0, memory);
            if i < c.entries then
              var verdict := Judge(s.servers, s.table[i], p, from, tail);
              if verdict.Ignore? then s'.calls == s.calls
              else CallsAtEnd(s, s', i, if verdict.Answer? then Some(verdict.addr) else None)
            else s'.calls == s.calls
  {
    hide Inv, Answered, CheckEntry, Finish, Resolve, Judge;
    InvSized(c, s);
    var i := Addressee(s, p);
    if i < c.entries {
      var verdict := Judge(s.servers, s.table[i], p, from, tail);
      FinishCalls(c, s, i, None, Unused);
      FinishActs(c, s, i, None, Unused);
      var t := s.(table := s.table[i := s.table[i].(retries := c.retries - 1, tmr := 1)]);
      CheckCalls(c, t, i, 0, memory);
      var s' := CheckEntry(c, t, i, 0, memory);
      if !s'.table[i].phase.Asking? {
        AnsweredFrame(s, t, s', s', i, None);
      }
      if verdict.Answer? {
        ResolveActs(c, s, i, verdict.ttl, verdict.addr);
        ResolveCalls(c, s, i, verdict.ttl, verdict.addr);
      }
    }
  }
}
