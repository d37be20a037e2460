/**
 * The resolver of src/lwip/dns.c as a state machine over its tables, in the default
 * build with IPv4 only: shared requests, random source ports, mDNS queries.
 *
 * Callbacks append to `calls` and do not re-enter the resolver; queries that reach the
 * network append to `sent`.  `accepted` collects what enqueues accepted and `ages`
 * counts the timer ticks an entry has been asking for; both only serve to state what
 * the resolver promises.
 */
module DnsTable {
  import opened Words
  import opened Options
  import opened DnsNames

  /**
   * DNS_TABLE_SIZE, DNS_MAX_REQUESTS, DNS_MAX_SOURCE_PORTS, DNS_MAX_SERVERS,
   * DNS_MAX_RETRIES and DNS_MAX_TTL.
   */
  datatype Limits = Limits(entries: nat, requests: nat, ports: nat, servers: nat, retries: nat, maxTtl: U32)

  /** `dns_call_found` indexes the entry table by request numbers, so there are no more requests than entries. */
  ghost predicate ValidLimits(c: Limits) {
    1 <= c.requests <= c.entries <= 255 && 1 <= c.ports <= 255 && 1 <= c.servers <= 255 && 1 <= c.retries <= 255
  }

  type Ip = U32
  const ANY: Ip := 0

  datatype Phase = Unused | New | Asking | Done

  datatype Entry = Entry(phase: Phase, txid: U16, server: nat, tmr: Byte, retries: Byte, seqno: Byte,
                         port: nat, name: HostName, ttl: U32, addr: Ip, mdns: bool)

  datatype Callback = Callback(fn: nat, arg: nat)
  datatype Request = Request(found: Option<Callback>, entry: nat)

  /** A callback that was called: with the name and the address, or without one on failure. */
  datatype Call = Call(cb: Callback, name: HostName, addr: Option<Ip>)

  /** A callback that waits for a name, whatever its letter case. */
  datatype Ticket = Ticket(cb: Callback, name: seq<Byte>)

  datatype Dest = Unicast(server: Ip) | Multicast
  datatype Query = Query(dest: Dest, port: nat, message: seq<Byte>)

  datatype Dns = Dns(table: seq<Entry>, requests: seq<Request>, ports: seq<bool>, servers: seq<Ip>,
                     seqno: Byte, lastPort: nat,
                     sent: seq<Query>, calls: seq<Call>, accepted: multiset<Ticket>, ages: seq<nat>)

  ghost predicate Sized(c: Limits, s: Dns) {
    && |s.table| == |s.ages| == c.entries && |s.requests| == c.requests
    && |s.ports| == c.ports && |s.servers| == c.servers
  }

  // dns_call_found

  ghost predicate WaitsFor(r: Request, i: nat) {
    r.found.Some? && r.entry == i
  }

  /** The requests without those for entry `i`. */
  ghost function Flushed(requests: seq<Request>, i: nat): (f: seq<Request>)
    ensures |f| == |requests|
    ensures forall r :: 0 <= r < |f| ==>
              f[r] == if WaitsFor(requests[r], i) then requests[r].(found := None) else requests[r]
  {
    seq(|requests|, r requires 0 <= r < |requests| =>
      if WaitsFor(requests[r], i) then requests[r].(found := None) else requests[r])
  }

  /** The calls made for entry `i` by the first `n` requests, in order. */
  ghost function CallsFor(requests: seq<Request>, i: nat, name: HostName, addr: Option<Ip>, n: nat): seq<Call>
    requires n <= |requests|
  {
    if n == 0 then []
    else
      CallsFor(requests, i, name, addr, n - 1) +
      if WaitsFor(requests[n - 1], i) then [Call(requests[n - 1].found.value, name, addr)] else []
  }

  /** Another entry, among the first DNS_MAX_REQUESTS, asks through the same source port. */
  ghost predicate PortShared(c: Limits, table: seq<Entry>, i: nat)
    requires i < |table| && c.requests <= |table|
  {
    exists j :: 0 <= j < c.requests && j != i && table[j].phase.Asking? && table[j].port == table[i].port
  }

  /** `dns_call_found`: answers the requests for entry `i`, and closes its port unless it is shared. */
  ghost function CallFound(c: Limits, s: Dns, i: nat, addr: Option<Ip>): Dns
    requires Sized(c, s) && i < c.entries && c.requests <= c.entries
  {
    var e, shared := s.table[i], PortShared(c, s.table, i);
    s.(requests := Flushed(s.requests, i),
       calls := s.calls + CallsFor(s.requests, i, e.name, addr, |s.requests|),
       table := s.table[i := e.(port := if shared || e.port < c.ports then c.ports else e.port)],
       ports := if !shared && e.port < c.ports then s.ports[e.port := false] else s.ports)
  }

  ghost function SetPhase(s: Dns, i: nat, phase: Phase): Dns
    requires i < |s.table|
  {
    s.(table := s.table[i := s.table[i].(phase := phase)])
  }

  /** Ends the lookup of entry `i`. */
  ghost function Finish(c: Limits, s: Dns, i: nat, addr: Option<Ip>, phase: Phase): Dns
    requires Sized(c, s) && i < c.entries && c.requests <= c.entries
  {
    SetPhase(CallFound(c, s, i, addr), i, phase)
  }

  // dns_send, dns_backupserver_available, dns_check_entry

  ghost function Send(c: Limits, s: Dns, i: nat, memory: bool): Dns
    requires Sized(c, s) && i < c.entries && c.requests <= c.entries && s.table[i].server < c.servers
  {
    var e := s.table[i];
    if s.servers[e.server] == ANY && !e.mdns then Finish(c, s, i, None, Unused)
    else if memory then
      var dest := if e.mdns then Multicast else Unicast(s.servers[e.server]);
      s.(sent := s.sent + [Query(dest, e.port, QueryMessage(e.name, e.txid))])
    else s
  }

  predicate Backup(c: Limits, servers: seq<Ip>, e: Entry)
    requires |servers| == c.servers
  {
    e.server + 1 < c.servers && servers[e.server + 1] != ANY
  }

  /** A new entry starts to ask. */
  ghost function Begin(s: Dns, i: nat, txid: U16): Dns
    requires i < |s.table| == |s.ages|
  {
    s.(table := s.table[i := s.table[i].(txid := txid, phase := Asking, server := 0, tmr := 1, retries := 0)],
       ages := s.ages[i := 0])
  }

  /** What becomes of an asking entry when its timer is checked; `None` when it gives up. */
  function Retry(c: Limits, e: Entry, backup: bool): Option<Entry> {
    var tmr: Byte := (e.tmr + 0xFF) % 0x100;
    var retries: Byte := (e.retries + 1) % 0x100;
    if tmr != 0 then Some(e.(tmr := tmr))
    else if retries != c.retries then Some(e.(tmr := retries, retries := retries))
    else if backup && !e.mdns then Some(e.(server := e.server + 1, tmr := 1, retries := 0))
    else None
  }

  /** `dns_check_entry`; `txid` is what `dns_create_txid` yields. */
  ghost function CheckEntry(c: Limits, s: Dns, i: nat, txid: U16, memory: bool): Dns
    requires ValidLimits(c) && Sized(c, s) && i < c.entries && (s.table[i].phase.New? || s.table[i].server < c.servers)
  {
    var e := s.table[i];
    match e.phase
    case New => Send(c, Begin(s, i, txid), i, memory)
    case Asking =>
      var next := Retry(c, e, Backup(c, s.servers, e));
      if next.None? then
        Finish(c, s.(table := s.table[i := e.(tmr := 0, retries := (e.retries + 1) % 0x100)]), i, None, Unused)
      else
        var s' := s.(table := s.table[i := next.value]);
        if e.tmr == 1 then Send(c, s', i, memory) else s'
    case Done =>
      var ttl := if e.ttl == 0 then 0 else e.ttl - 1;
      s.(table := s.table[i := e.(ttl := ttl, phase := if ttl == 0 then Unused else Done)])
    case Unused => s
  }

  /** A timer tick for entry `i`. */
  ghost function Tick(c: Limits, s: Dns, i: nat, txid: U16, memory: bool): Dns
    requires ValidLimits(c) && Sized(c, s) && i < c.entries && (s.table[i].phase.New? || s.table[i].server < c.servers)
  {
    CheckEntry(c, if s.table[i].phase.Asking? then s.(ages := s.ages[i := s.ages[i] + 1]) else s, i, txid, memory)
  }
}
