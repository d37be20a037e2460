/**
 * Received packets and enqueued lookups of src/lwip/dns.c as steps of the resolver.
 */
module DnsSteps {
  import opened Words
  import opened Options
  import opened CaseFold
  import opened DnsNames
  import opened DnsTable

  // dns_recv

  function U16At(p: Packet, i: nat): U16
    requires i + 2 <= |p|
  {
    Word(p[i + 1], p[i])
  }

  function U32At(p: Packet, i: nat): U32
    requires i + 4 <= |p|
  {
    U16At(p, i) as int * 0x1_0000 + U16At(p, i + 2) as int
  }

  /** An address is kept in the order of its bytes in memory. */
  function IpAt(p: Packet, i: nat): Ip
    requires i + 4 <= |p|
  {
    Word(p[i], p[i + 1]) as int + 0x1_0000 * Word(p[i + 2], p[i + 3]) as int
  }

  datatype Verdict = Ignore | ServerError | NoAnswer | Answer(ttl: U32, addr: Ip)

  /** The first IPv4 address among the `n` answers that start at `at`. */
  function Scan(p: Packet, at: nat, n: nat): Verdict
    decreases n
  {
    if n == 0 || at >= |p| then NoAnswer
    else
      var rr := NameEnd(p, at);
      if rr == FAILED || rr + 10 > |p| then Ignore
      else
        var data := rr + 10;
        if U16At(p, rr + 2) == 1 && U16At(p, rr) == 1 && U16At(p, rr + 8) == 4 then
          if data + 4 > |p| then Ignore else Answer(U32At(p, rr + 4), IpAt(p, data))
        else if data + U16At(p, rr + 8) > 0xFFFF then Ignore
        else Scan(p, data + U16At(p, rr + 8), n - 1)
  }

  /** The memory from an entry's name on: the name, its zero, and whatever `tail` lies behind. */
  function TextOf(name: HostName, tail: Text): Text {
    (i: nat) => if i < |name| then name[i] else if i == |name| then 0 else tail(i)
  }

  /** What a packet from `from` that carries the entry's transaction id means for the entry. */
  ghost function Judge(servers: seq<Ip>, e: Entry, p: Packet, from: Ip, tail: Text): Verdict
    requires |p| >= 16 && e.server < |servers|
  {
    var q := MatchEnd(TextOf(e.name, tail), 0, p, 12);
    if p[2] < 0x80 || U16At(p, 4) != 1 || (!e.mdns && from != servers[e.server]) then Ignore
    else if q == FAILED || q + 4 > |p| || U16At(p, q + 2) != 1 || U16At(p, q) != 1 then Ignore
    else if p[3] % 0x10 != 0 then ServerError
    else Scan(p, q + 4, U16At(p, 6))
  }

  /** The first entry that asks with this transaction id. */
  ghost function FindId(table: seq<Entry>, id: U16, i: nat): (k: nat)
    requires i <= |table|
    ensures i <= k <= |table| && (k < |table| ==> table[k].phase.Asking? && table[k].txid == id)
    ensures forall j :: i <= j < k ==> !(table[j].phase.Asking? && table[j].txid == id)
    decreases |table| - i
  {
    if i == |table| || (table[i].phase.Asking? && table[i].txid == id) then i else FindId(table, id, i + 1)
  }

  /** `dns_correct_response` */
  ghost function Resolve(c: Limits, s: Dns, i: nat, ttl: U32, addr: Ip): Dns
    requires ValidLimits(c) && Sized(c, s) && i < c.entries
  {
    var kept: U32 := if ttl > c.maxTtl then c.maxTtl else ttl;
    var e := s.table[i].(addr := addr, phase := Done, ttl := kept);
    var s' := CallFound(c, s.(table := s.table[i := e]), i, Some(addr));
    if kept == 0 then SetPhase(s', i, Unused) else s'
  }

  /** `dns_recv` */
  ghost function Receive(c: Limits, s: Dns, p: Packet, from: Ip, tail: Text, txid: U16, memory: bool): Dns
    requires ValidLimits(c) && Sized(c, s) && forall i :: 0 <= i < c.entries ==> s.table[i].server < c.servers
  {
    if |p| < 16 then s
    else
      var i := FindId(s.table, U16At(p, 0), 0);
      if i == c.entries then s
      else
        var e := s.table[i];
        match Judge(s.servers, e, p, from, tail)
        case Ignore => s
        case ServerError =>
          if Backup(c, s.servers, e) then
            CheckEntry(c, s.(table := s.table[i := e.(retries := c.retries - 1, tmr := 1)]), i, txid, memory)
          else Finish(c, s, i, None, Unused)
        case NoAnswer => Finish(c, s, i, None, Unused)
        case Answer(ttl, addr) => Resolve(c, s, i, ttl, addr)
  }

  // dns_enqueue

  function Min(a: nat, b: nat): nat {
    if a < b then a else b
  }

  /** The part of the host name that the table can hold. */
  function Kept(host: seq<Byte>, len: nat): HostName
    requires CString(host) && len <= |host|
  {
    host[..Min(len, 255)]
  }

  /** `lwip_strnicmp(host, name, n) == 0 && !name[n]` for the kept length `n`. */
  ghost predicate SameHost(host: seq<Byte>, len: nat, name: HostName)
    requires len <= |host|
  {
    var n := Min(len, 255);
    |name| == n && if n > 0 then AgreeUpTo(host, name, n) else LowerAll(host) == LowerAll(name)
  }

  /** The name is, up to case, the first 255 bytes of the host name (DNS_MAX_NAME_LENGTH is 256). */
  ghost predicate IsNamed(host: seq<Byte>, len: nat, name: HostName)
    requires len <= |host|
  {
    LowerAll(name) == LowerAll(if len < 256 then host[..len] else host[..255])
  }

  ghost predicate Duplicates(host: seq<Byte>, len: nat, e: Entry)
    requires len <= |host|
  {
    e.phase.Asking? && SameHost(host, len, e.name)
  }

  ghost function FindDuplicate(table: seq<Entry>, host: seq<Byte>, len: nat, i: nat): (k: nat)
    requires i <= |table| && len <= |host|
    ensures i <= k <= |table| && (k < |table| ==> Duplicates(host, len, table[k]))
    ensures forall j :: i <= j < k ==> !Duplicates(host, len, table[j])
    decreases |table| - i
  {
    if i == |table| || Duplicates(host, len, table[i]) then i else FindDuplicate(table, host, len, i + 1)
  }

  ghost function FreeRequest(requests: seq<Request>, r: nat): (k: nat)
    requires r <= |requests|
    ensures r <= k <= |requests| && (k < |requests| ==> requests[k].found.None?)
    ensures forall j :: r <= j < k ==> requests[j].found.Some?
    decreases |requests| - r
  {
    if r == |requests| || requests[r].found.None? then r else FreeRequest(requests, r + 1)
  }

  ghost function FirstUnused(table: seq<Entry>, i: nat): (k: nat)
    requires i <= |table|
    ensures i <= k <= |table| && (k < |table| ==> table[k].phase.Unused?)
    ensures forall j :: i <= j < k ==> !table[j].phase.Unused?
    decreases |table| - i
  {
    if i == |table| || table[i].phase.Unused? then i else FirstUnused(table, i + 1)
  }

  /** How many enqueues ago an entry was filled, modulo 256. */
  function AgeOf(seqno: Byte, e: Entry): Byte {
    (seqno + 0x100 - e.seqno) % 0x100
  }

  /** `k` is the first finished entry of the largest age, modulo 256, among the first `n`; age 0 does not count. */
  ghost predicate IsOldest(table: seq<Entry>, seqno: Byte, n: nat, k: nat, age: Byte)
    requires n <= |table|
  {
    && (forall j :: 0 <= j < n && table[j].phase.Done? ==> AgeOf(seqno, table[j]) <= age)
    && (if age == 0 then k == |table| else k < n && table[k].phase.Done? && AgeOf(seqno, table[k]) == age)
    && (age > 0 ==> forall j :: 0 <= j < k && table[j].phase.Done? ==> AgeOf(seqno, table[j]) < age)
  }

  ghost function Oldest(table: seq<Entry>, seqno: Byte, n: nat): (r: (nat, Byte))
    requires n <= |table|
    ensures IsOldest(table, seqno, n, r.0, r.1)
  {
    if n == 0 then (|table|, 0)
    else
      var (k, age) := Oldest(table, seqno, n - 1);
      var e := table[n - 1];
      if e.phase.Done? && AgeOf(seqno, e) > age then (n - 1, AgeOf(seqno, e)) else (k, age)
  }

  /** The entry a new lookup takes: the first unused one, or else the finished one of the largest age modulo 256. */
  ghost function PickEntry(s: Dns): (k: nat)
    ensures k <= |s.table| && (k < |s.table| ==> s.table[k].phase.Unused? || s.table[k].phase.Done?)
    ensures (exists j :: 0 <= j < |s.table| && s.table[j].phase.Unused?) ==> k < |s.table| && s.table[k].phase.Unused?
    ensures k < |s.table| && s.table[k].phase.Done? ==>
              forall j :: 0 <= j < |s.table| && s.table[j].phase.Done? ==>
                AgeOf(s.seqno, s.table[j]) <= AgeOf(s.seqno, s.table[k])
  {
    var u := FirstUnused(s.table, 0);
    if u < |s.table| then u else Oldest(s.table, s.seqno, |s.table|).0
  }

  ghost function FirstClosed(ports: seq<bool>, i: nat): (k: nat)
    requires i <= |ports|
    ensures i <= k <= |ports| && (k < |ports| ==> !ports[k])
    ensures forall j :: i <= j < k ==> ports[j]
    decreases |ports| - i
  {
    if i == |ports| || !ports[i] then i else FirstClosed(ports, i + 1)
  }

  /** The first open port among the `n` that follow from `i` on, going round; |ports| if there is none. */
  ghost function ReusePort(ports: seq<bool>, i: nat, n: nat): (k: nat)
    requires i <= |ports|
    ensures k <= |ports| && (k < |ports| ==> ports[k])
    decreases n
  {
    if n == 0 || |ports| == 0 then |ports|
    else
      var j := if i == |ports| then 0 else i;
      if ports[j] then j else ReusePort(ports, j + 1, n - 1)
  }

  /** `dns_alloc_pcb`: the port it returns; `socket` is whether a socket could be created. */
  ghost function ChosenPort(c: Limits, s: Dns, socket: bool): (k: nat)
    requires Sized(c, s) && s.lastPort < c.ports
    ensures k <= c.ports
  {
    var i := FirstClosed(s.ports, 0);
    if i < c.ports && socket then i else ReusePort(s.ports, s.lastPort + 1, c.ports)
  }

  datatype Err = InProgress | OutOfMemory

  /** A callback is accepted for a name. */
  ghost function Accept(accepted: multiset<Ticket>, cb: Option<Callback>, name: HostName): multiset<Ticket> {
    if cb.Some? then accepted + multiset{Ticket(cb.value, LowerAll(name))} else accepted
  }

  /** The entry as `dns_enqueue` fills it. */
  ghost function Filled(s: Dns, i: nat, name: HostName, port: nat, mdns: bool): Entry
    requires i < |s.table|
  {
    s.table[i].(phase := New, seqno := s.seqno, name := name, port := port, mdns := mdns)
  }

  /** The tables when the new lookup is in place and about to ask. */
  ghost function Placed(s: Dns, i: nat, r: nat, name: HostName, port: nat, cb: Option<Callback>, mdns: bool): Dns
    requires i < |s.table| && r < |s.requests| && port < |s.ports|
  {
    s.(table := s.table[i := Filled(s, i, name, port, mdns)], requests := s.requests[r := Request(cb, i)],
       ports := s.ports[port := true], lastPort := port, seqno := (s.seqno + 1) % 0x100,
       accepted := Accept(s.accepted, cb, name))
  }

  /** `dns_enqueue` */
  ghost function Enqueue(c: Limits, s: Dns, host: seq<Byte>, len: nat, cb: Option<Callback>, mdns: bool,
                         socket: bool, txid: U16, memory: bool): (res: (Dns, Err))
    requires ValidLimits(c) && Sized(c, s) && s.lastPort < c.ports && CString(host) && len <= |host|
  {
    var name := Kept(host, len);
    var dup, r, i := FindDuplicate(s.table, host, len, 0), FreeRequest(s.requests, 0), PickEntry(s);
    if dup < c.entries && r < c.requests then
      (s.(requests := s.requests[r := Request(cb, dup)], accepted := Accept(s.accepted, cb, name)), InProgress)
    else if i == c.entries || r == c.requests then (s, OutOfMemory)
    else
      var port := ChosenPort(c, s, socket);
      if port == c.ports then
        (s.(table := s.table[i := Filled(s, i, name, port, s.table[i].mdns).(phase := Unused)],
            requests := s.requests[r := Request(None, i)]), OutOfMemory)
      else (CheckEntry(c, Placed(s, i, r, name, port, cb, mdns), i, txid, memory), InProgress)
  }
}
