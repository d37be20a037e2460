/**
 * What a lookup of the resolver of src/lwip/dns.c does: the name it keeps and the lookups
 * it joins, the port it takes, the queries that are sent for it, and the replies that fit.
 */
module DnsQueries {
  import opened Words
  import opened Options
  import opened CaseFold
  import opened DnsNames
  import opened DnsTable
  import opened DnsSteps
  import opened DnsInvariant
  import opened DnsRuns
  import opened DnsLocal
  import opened DnsReplies
  import opened DnsAges

  // The source port.

  ghost function Round(i: nat, n: nat): nat {
    if i < n then i else i - n
  }

  /** The port `x` places after `last`, going round the table, is open. */
  ghost predicate OpenAt(ports: seq<bool>, last: nat, x: nat) {
    Round(last + x, |ports|) < |ports| && ports[Round(last + x, |ports|)]
  }

  /** `k` is the first open port after `last`, going round the table. */
  ghost predicate NextOpen(ports: seq<bool>, last: nat, k: nat) {
    exists d: nat ::
      && 1 <= d <= |ports| && k == Round(last + d, |ports|) && OpenAt(ports, last, d)
      && forall x: nat :: 1 <= x < d ==> !OpenAt(ports, last, x)
  }

  /**
   * The port of a new lookup: the first closed one if there is one and a socket can be
   * made; otherwise the next open one after the last that was used; or none.
   */
  ghost predicate PortIs(c: Limits, s: Dns, socket: bool, k: nat) {
    if socket && exists p :: 0 <= p < |s.ports| && !s.ports[p] then
      k < |s.ports| && !s.ports[k] && forall p :: 0 <= p < k ==> s.ports[p]
    else if exists p :: 0 <= p < |s.ports| && s.ports[p] then NextOpen(s.ports, s.lastPort, k)
    else k == c.ports
  }

  /** None of the first `d - 1` ports after `last` is open. */
  lemma {:induction false} ReuseIsNext(ports: seq<bool>, last: nat, d: nat)
    requires last < |ports| && 1 <= d <= |ports| + 1
    requires forall x: nat :: 1 <= x < d ==> !OpenAt(ports, last, x)
    ensures var k := ReusePort(ports, if last + d <= |ports| then last + d else last + d - |ports|, |ports| + 1 - d);
            if exists p :: 0 <= p < |ports| && ports[p] then NextOpen(ports, last, k) else k == |ports|
    decreases |ports| + 1 - d
  {
    var n := |ports|;
    if d == n + 1 {
      forall p | 0 <= p < n ensures !ports[p] {
        var x := if p > last then p - last else p + n - last;
        assert Round(last + x, n) == p && !OpenAt(ports, last, x);
      }
    } else {
      var j := Round(last + d, n);
      if ports[j] {
        assert OpenAt(ports, last, d);
      } else {
        ReuseIsNext(ports, last, d + 1);
      }
    }
  }

  lemma ChosenIs(c: Limits, s: Dns, socket: bool)
    requires Sized(c, s) && s.lastPort < c.ports
    ensures PortIs(c, s, socket, ChosenPort(c, s, socket))
  {
    ReuseIsNext(s.ports, s.lastPort, 1);
  }

  // The name.

  lemma NamedExactly(host: seq<Byte>, len: nat, name: HostName)
    requires CString(host) && 0 < len <= |host|
    ensures SameHost(host, len, name) <==> IsNamed(host, len, name)
  {
    SameHostLower(host, len, name);
  }

  /** A lookup joins exactly if a request is free and some entry asks for its name. */
  lemma JoinsExactly(c: Limits, s: Dns, op: Op)
    requires Sized(c, s) && LegalOp(c, s, op) && op.Lookup? && op.len > 0
    ensures Joins(c, s, op) <==>
              && (exists r :: 0 <= r < c.requests && s.requests[r].found.None?)
              && (exists k ::
                    0 <= k < c.entries && s.table[k].phase.Asking? && IsNamed(op.host, op.len, s.table[k].name))
  {
    hide SameHost, IsNamed;
    forall k | 0 <= k < c.entries
      ensures SameHost(op.host, op.len, s.table[k].name) <==> IsNamed(op.host, op.len, s.table[k].name)
    {
      NamedExactly(op.host, op.len, s.table[k].name);
    }
    var dup := FindDuplicate(s.table, op.host, op.len, 0);
    assert forall k :: 0 <= k < c.entries && s.table[k].phase.Asking? && SameHost(op.host, op.len, s.table[k].name) ==>
             Duplicates(op.host, op.len, s.table[k]);
  }

  /** What a lookup with a callback waits for. */
  ghost function TicketOf(op: Op): multiset<Ticket>
    requires op.Lookup? && op.len <= |op.host|
  {
    if op.cb.None? then multiset{}
    else multiset{Ticket(op.cb.value, LowerAll(if op.len < 256 then op.host[..op.len] else op.host[..255]))}
  }

  /** The request `r` waits with the callback of the lookup for entry `k`, which asks for its name. */
  ghost predicate JoinsOn(c: Limits, s: Dns, s': Dns, op: Op, r: nat, k: nat)
    requires op.Lookup? && op.len <= |op.host|
  {
    && r < |s.requests| && k < |s.table| && s.requests[r].found.None?
    && s.table[k].phase.Asking? && IsNamed(op.host, op.len, s.table[k].name)
    && s' == s.(requests := s.requests[r := Request(op.cb, k)], accepted := s.accepted + TicketOf(op))
  }

  lemma JoinedLookup(c: Limits, s: Dns, op: Op) returns (r: nat, k: nat)
    requires ValidLimits(c) && Sized(c, s) && Entries(c, s) && LegalOp(c, s, op) && op.Lookup? && op.len > 0
    requires Joins(c, s, op)
    ensures JoinsOn(c, s, Step(c, s, op), op, r, k)
  {
    hide SameHost, IsNamed, PickEntry, ChosenPort, CheckEntry;
    r, k := FreeRequest(s.requests, 0), FindDuplicate(s.table, op.host, op.len, 0);
    NamedExactly(op.host, op.len, s.table[k].name);
  }

  // The start.

  /** A server can be asked at once, or the group. */
  ghost predicate CanAsk(s: Dns, op: Op)
    requires op.Lookup? && |s.servers| > 0
  {
    s.servers[0] != ANY || op.mdns
  }

  /** The entry asks for the name as it was started, through the port that was chosen. */
  ghost predicate Fresh(c: Limits, s: Dns, s': Dns, op: Op, i: nat)
    requires op.Lookup? && i < |s'.table|
  {
    var e := s'.table[i];
    && (exists r ::
          0 <= r < |s.requests| && s.requests[r].found.None? && s'.requests == s.requests[r := Request(op.cb, i)])
    && e.phase.Asking? && e.txid == op.txid && e.server == 0 && e.tmr == 1 && e.retries == 0
    && e.port == s'.lastPort < |s'.ports| && s'.ports[e.port]
  }

  /**
   * A lookup that gets an entry keeps the first 255 bytes of its name there.  If a server
   * is set or it is for mDNS, the entry asks through the chosen port, and its query is sent
   * if memory allows; otherwise it ends at once and its callback is called without address.
   */
  lemma LookupStarts(c: Limits, s: Dns, op: Op)
    requires ValidLimits(c) && Inv(c, s) && LegalOp(c, s, op) && op.Lookup?
    requires Sized(c, s) && Entries(c, s) && Fills(c, s, op) < c.entries
    ensures var i, s' := Fills(c, s, op), Step(c, s, op);
            var name := if op.len < 256 then op.host[..op.len] else op.host[..255];
            && |s'.table| == c.entries && s'.table[i].name == name && s'.table[i].mdns == op.mdns
            && PortIs(c, s, op.socket, s'.lastPort) && s'.accepted == s.accepted + TicketOf(op)
            && if CanAsk(s, op) then
                 && Fresh(c, s, s', op, i) && s'.calls == s.calls && |s'.servers| == c.servers
                 && s'.sent == s.sent + if op.memory then [QueryOf(s', s'.table[i])] else []
               else
                 && s'.table[i].phase.Unused? && s'.sent == s.sent
                 && s'.calls == s.calls + if op.cb.Some? then [Call(op.cb.value, name, None)] else []
  {
    hide Inv, SameHost, PickEntry, ChosenPort, FindDuplicate, FreeRequest, PortIs, TicketOf, Send, Started, Fresh;
    var i, r := Fills(c, s, op), FreeRequest(s.requests, 0);
    var port, name := ChosenPort(c, s, op.socket), Kept(op.host, op.len);
    ChosenIs(c, s, op.socket);
    LookupIsStarted(c, s, op, i, r, name, port);
    if CanAsk(s, op) {
      AsksAtOnce(c, s, i, r, port, op);
    } else {
      EndsAtOnce(c, s, i, r, port, op);
    }
  }

  lemma LookupIsStarted(c: Limits, s: Dns, op: Op, i: nat, r: nat, name: HostName, port: nat)
    requires ValidLimits(c) && Sized(c, s) && Entries(c, s) && LegalOp(c, s, op) && op.Lookup?
    requires i == Fills(c, s, op) < c.entries && r == FreeRequest(s.requests, 0)
    requires port == ChosenPort(c, s, op.socket) && name == Kept(op.host, op.len)
    ensures r < c.requests && port < c.ports && !s.table[i].phase.Asking?
    ensures var t := Started(s, i, r, name, port, op.cb, op.mdns, op.txid);
            Sized(c, t) && t.table[i].server < c.servers && Step(c, s, op) == Send(c, t, i, op.memory)
    ensures name == if op.len < 256 then op.host[..op.len] else op.host[..255]
  {
    hide SameHost, PickEntry, ChosenPort, FindDuplicate, FreeRequest, LowerAll, Send;
  }

  lemma AsksAtOnce(c: Limits, s: Dns, i: nat, r: nat, port: nat, op: Op)
    requires ValidLimits(c) && Sized(c, s) && op.Lookup? && CString(op.host) && op.len <= |op.host| && CanAsk(s, op)
    requires i < c.entries && r < c.requests && port < c.ports && s.requests[r].found.None?
    ensures var t := Started(s, i, r, Kept(op.host, op.len), port, op.cb, op.mdns, op.txid);
            && Sized(c, t) && t.table[i].server < c.servers
            && var s' := Send(c, t, i, op.memory);
               && |s'.table| == c.entries && s'.table[i].name == Kept(op.host, op.len) && s'.table[i].mdns == op.mdns
               && s'.lastPort == port && s'.accepted == s.accepted + TicketOf(op)
               && Fresh(c, s, s', op, i) && s'.calls == s.calls && |s'.servers| == c.servers
               && s'.sent == s.sent + if op.memory then [QueryOf(s', s'.table[i])] else []
  {
    hide LowerAll, QueryMessage;
  }

  /** A lookup that neither joins nor gets an entry is refused and changes nothing that anyone waits for. */
  lemma LookupFails(c: Limits, s: Dns, op: Op)
    requires ValidLimits(c) && Inv(c, s) && LegalOp(c, s, op) && op.Lookup?
    requires Sized(c, s) && Entries(c, s) && !Joins(c, s, op) && Fills(c, s, op) == c.entries
    ensures Enqueue(c, s, op.host, op.len, op.cb, op.mdns, op.socket, op.txid, op.memory).1 == OutOfMemory
    ensures var s' := Step(c, s, op);
            && s'.calls == s.calls && s'.sent == s.sent && s'.accepted == s.accepted
            && s'.ports == s.ports && s'.lastPort == s.lastPort && s'.servers == s.servers && s'.seqno == s.seqno
            && |s'.table| == c.entries && |s'.requests| == c.requests
            && (forall k :: 0 <= k < c.entries && s.table[k].phase.Asking? ==> s'.table[k] == s.table[k])
            && (forall r :: 0 <= r < c.requests && s.requests[r].found.Some? ==> s'.requests[r] == s.requests[r])
  {
    hide Inv, SameHost, PickEntry, ChosenPort, FindDuplicate, FreeRequest, CheckEntry;
  }

  lemma EndsAtOnce(c: Limits, s: Dns, i: nat, r: nat, port: nat, op: Op)
    requires ValidLimits(c) && Inv(c, s) && Sized(c, s) && op.Lookup? && CString(op.host) && op.len <= |op.host|
    requires i < c.entries && r < c.requests && port < c.ports && !s.table[i].phase.Asking? && s.requests[r].found.None?
    requires !CanAsk(s, op)
    ensures var name := Kept(op.host, op.len);
            var t := Started(s, i, r, name, port, op.cb, op.mdns, op.txid);
            && Sized(c, t) && t.table[i].server < c.servers
            && var s' := Send(c, t, i, op.memory);
               && |s'.table| == c.entries && s'.table[i].phase.Unused? && s'.table[i].name == name
               && s'.table[i].mdns == op.mdns && s'.lastPort == port && s'.sent == s.sent
               && s'.accepted == s.accepted + TicketOf(op)
               && s'.calls == s.calls + if op.cb.Some? then [Call(op.cb.value, name, None)] else []
  {
    hide PortShared, LowerAll, Inv, CallsFor, Flushed;
    var name := Kept(op.host, op.len);
    var t := Started(s, i, r, name, port, op.cb, op.mdns, op.txid);
    NobodyWaits(c, s, i);
    assert t.requests == s.requests[r := Request(op.cb, i)];
    OneWaits(t.requests, i, r, name, None, c.requests);
  }

  lemma NobodyWaits(c: Limits, s: Dns, i: nat)
    requires Inv(c, s) && i < |s.table| && !s.table[i].phase.Asking?
    ensures forall q :: 0 <= q < |s.requests| ==> !WaitsFor(s.requests[q], i)
  {
  }

  ghost function OneCall(q: Request, name: HostName, addr: Option<Ip>): seq<Call> {
    if q.found.Some? then [Call(q.found.value, name, addr)] else []
  }

  /** If only request `r` may wait for entry `i`, it alone is called. */
  lemma {:induction false} OneWaits(requests: seq<Request>, i: nat, r: nat, name: HostName, addr: Option<Ip>, n: nat)
    requires r < |requests| && n <= |requests| && requests[r].entry == i
    requires forall q :: 0 <= q < |requests| && q != r ==> !WaitsFor(requests[q], i)
    ensures CallsFor(requests, i, name, addr, n) == if r < n then OneCall(requests[r], name, addr) else []
  {
    if n > 0 {
      OneWaits(requests, i, r, name, addr, n - 1);
      var before := CallsFor(requests, i, name, addr, n - 1);
      if n - 1 != r {
        assert !WaitsFor(requests[n - 1], i);
        assert CallsFor(requests, i, name, addr, n) == before + [] == before;
      } else {
        assert before == [];
      }
    }
  }

  // Retries.

  /**
   * A tick of an entry that goes on asking sends its query exactly if its timer ran down
   * and memory allows, after a change of server to the new one; every other tick sends nothing.
   */
  lemma TickSends(c: Limits, s: Dns, i: nat, memory: bool)
    requires ValidLimits(c) && Inv(c, s) && i < c.entries
    ensures s.table[i].server < c.servers
    ensures var s' := Tick(c, s, i, 0, memory);
            && |s'.table| == c.entries && |s'.servers| == c.servers
            && if s'.table[i].phase.Asking? && s.table[i].tmr == 1 && memory then
                 s'.table[i].server < c.servers && s'.sent == s.sent + [QueryOf(s', s'.table[i])]
               else s'.sent == s.sent
  {
    hide Inv, Finish, QueryMessage;
    EntryFromInv(c, s, i);
    var e, aged := s.table[i], s.(ages := s.ages[i := s.ages[i] + 1]);
    if e.phase.Asking? {
      var next := Retry(c, e, Backup(c, s.servers, e));
      if next.None? {
        FinishActs(c, aged.(table := s.table[i := e.(tmr := 0, retries := (e.retries + 1) % 0x100)]), i, None, Unused);
      } else {
        FinishActs(c, aged.(table := s.table[i := next.value]), i, None, Unused);
      }
    }
  }

  // The message.

  /** The fields of a query: the id, recursion desired, one question of type A and class IN. */
  lemma QueryFields(name: HostName, txid: U16)
    ensures var q: Packet := QueryMessage(name, txid);
            && |q| == 12 + |name| + 2 + 4 && U16At(q, 0) == txid && q[2] == 1 && q[3] == 0
            && U16At(q, 4) == 1 && U16At(q, 6) == 0 && U16At(q, 8) == 0 && U16At(q, 10) == 0
            && HoldsVariant(name, q, 12) && U16At(q, 12 + |name| + 2) == 1 && U16At(q, 12 + |name| + 4) == 1
  {
    var q: Packet := QueryMessage(name, txid);
    var head: seq<Byte> := [txid / 0x100, txid % 0x100, 1, 0, 0, 1, 0, 0, 0, 0, 0, 0];
    assert q == head + EncodedName(name) + [0, 1, 0, 1];
    EncodingIsVariant(name, head, [0, 1, 0, 1]);
    hide HoldsVariant, EncodedByte, EncodedName, QueryMessage;
    assert forall k :: 0 <= k < 12 ==> q[k] == head[k];
    var end, tail := 12 + |name| + 2, q[12 + |name| + 2..];
    assert tail == [0, 1, 0, 1];
    assert tail[0] == q[end] && tail[1] == q[end + 1] && tail[2] == q[end + 2] && tail[3] == q[end + 3];
  }

  /** The packet repeats the id, the question count and the question of the query. */
  ghost predicate Repeats(p: Packet, q: Packet) {
    && 12 <= |q| <= |p| && p[0] == q[0] && p[1] == q[1] && p[4] == q[4] && p[5] == q[5]
    && forall k :: 12 <= k < |q| ==> p[k] == q[k]
  }

  /** A response without error that repeats the query is a proper reply to it. */
  lemma ReplyToQuery(name: HostName, txid: U16, p: Packet)
    requires Repeats(p, QueryMessage(name, txid)) && p[2] >= 0x80 && p[3] % 0x10 == 0
    ensures ProperReply(p, name, txid)
  {
    hide VariantByte, QueryMessage;
    var q: Packet := QueryMessage(name, txid);
    QueryFields(name, txid);
    forall j | 12 <= j < 12 + |name| + 2 ensures VariantByte(name, j - 12, p[j]) {
      assert VariantByte(name, j - 12, q[j]);
    }
  }
}
