/**
 * The resolver of src/lwip/dns.c in the form of the source: tables that are updated in
 * place, loops over them, and the packet parser.  Each method does to the tables what
 * the step function of the same name says.
 */
module DnsResolver {
  import opened Words
  import opened Options
  import opened CaseFold
  import opened DnsNames
  import opened DnsTable
  import opened DnsSteps
  import opened DnsInvariant
  import opened DnsRuns
  import opened DnsIds

  class Resolver {
    const c: Limits
    const table: array<Entry>
    const requests: array<Request>
    const ports: array<bool>
    const servers: array<Ip>
    var seqno: Byte
    var lastPort: nat
    ghost var sent: seq<Query>
    ghost var calls: seq<Call>
    ghost var accepted: multiset<Ticket>
    ghost var ages: seq<nat>

    ghost function State(): Dns
      reads this, table, requests, ports, servers
    {
      Dns(table[..], requests[..], ports[..], servers[..], seqno, lastPort, sent, calls, accepted, ages)
    }

    /** The tables have their sizes; entries that ask have a server in range. */
    ghost predicate Ready()
      reads this, table, requests, ports, servers
    {
      ValidLimits(c) && Sized(c, State())
    }

    ghost predicate Valid()
      reads this, table, requests, ports, servers
    {
      ValidLimits(c) && Inv(c, State())
    }

    /** The zero-initialised tables. */
    constructor (c: Limits)
      requires ValidLimits(c)
      ensures Valid() && this.c == c && State() == Initial(c)
      ensures fresh(table) && fresh(requests) && fresh(ports) && fresh(servers)
    {
      this.c := c;
      table := new Entry[c.entries](_ => Entry(Unused, 0, 0, 0, 0, 0, 0, [], 0, 0, false));
      requests := new Request[c.requests](_ => Request(None, 0));
      ports := new bool[c.ports](_ => false);
      servers := new Ip[c.servers](_ => ANY);
      seqno, lastPort := 0, 0;
      sent, calls, accepted, ages := [], [], multiset{}, seq(c.entries, _ => 0);
      new;
      assert State() == Initial(c);
      InitialInv(c);
    }

    /** `dns_setserver` */
    method SetServer(index: nat, server: Ip)
      requires Valid()
      modifies servers
      ensures Valid() && State() == Step(c, old(State()), Op.SetServer(index, server))
    {
      if index < c.servers {
        servers[index] := server;
      }
    }

    /** `dns_call_found` */
    method CallFound(i: nat, addr: Option<Ip>)
      requires Ready() && i < c.entries
      modifies this`calls, table, requests, ports
      ensures State() == DnsTable.CallFound(c, old(State()), i, addr)
    {
      AnswerRequests(i, addr);
      ClosePort(i);
    }

    /** The first loop of `dns_call_found`: call and flush the requests for the entry. */
    method AnswerRequests(i: nat, addr: Option<Ip>)
      requires Ready() && i < c.entries
      modifies this`calls, requests
      ensures requests[..] == Flushed(old(requests[..]), i)
      ensures calls == old(calls) + CallsFor(old(requests[..]), i, table[i].name, addr, c.requests)
    {
      ghost var reqs := requests[..];
      for r := 0 to c.requests
        invariant forall q :: 0 <= q < c.requests ==>
          requests[q] == if q < r && WaitsFor(reqs[q], i) then reqs[q].(found := None) else reqs[q]
        invariant calls == old(calls) + CallsFor(reqs, i, table[i].name, addr, r)
      {
        if requests[r].found.Some? && requests[r].entry == i {
          calls := calls + [Call(requests[r].found.value, table[i].name, addr)];
          requests[r] := requests[r].(found := None);
        }
      }
      assert requests[..] == Flushed(reqs, i);
    }

    /** The second loop: close the port unless another entry asks through it. */
    method ClosePort(i: nat)
      requires Ready() && i < c.entries
      modifies table, ports
      ensures var e, shared := old(table[i]), PortShared(c, old(table[..]), i);
              && table[..] == old(table[..])[i := e.(port := if shared || e.port < c.ports then c.ports else e.port)]
              && ports[..] == if !shared && e.port < c.ports then old(ports[..])[e.port := false] else old(ports[..])
    {
      ghost var t := table[..];
      var j, shared := 0, false;
      while j < c.requests && !shared
        invariant j <= c.requests && table[..] == t
        invariant shared ==> PortShared(c, t, i)
        invariant !shared ==> forall k :: 0 <= k < j && k != i ==> !(t[k].phase.Asking? && t[k].port == t[i].port)
      {
        if j != i && table[j].phase.Asking? && table[j].port == table[i].port {
          shared := true;
        }
        j := j + 1;
      }
      assert shared == PortShared(c, t, i);
      if shared {
        table[i] := table[i].(port := c.ports);
      }
      if table[i].port < c.ports {
        ports[table[i].port] := false;
        table[i] := table[i].(port := c.ports);
      }
    }

    /** `dns_send`: the lookup ends if its server is gone; otherwise the query is built and sent. */
    method Send(i: nat, memory: bool)
      requires Ready() && i < c.entries && table[i].server < c.servers
      modifies this`calls, this`sent, table, requests, ports
      ensures State() == DnsTable.Send(c, old(State()), i, memory)
    {
      var e := table[i];
      if servers[e.server] == ANY && !e.mdns {
        GiveUp(i);
        return;
      }
      if memory {
        var message := FillQuery(e.name, e.txid);
        var dest := if e.mdns then Multicast else Unicast(servers[e.server]);
        sent := sent + [Query(dest, e.port, message[..])];
      }
    }

    /** `dns_create_txid` with any source of ids: the loop ends with an id that no asking entry uses. */
    method NewTxid() returns (txid: U16)
      requires Ready()
      ensures FreshId(table[..], txid)
    {
      SomeFreshId(table[..], []);
      var t: U16 :| FreshId(table[..], t);
      txid := t;
    }

    /** `dns_backupserver_available` */
    method BackupAvailable(e: Entry) returns (b: bool)
      requires Ready()
      ensures b == Backup(c, servers[..], e)
    {
      b := e.server + 1 < c.servers && servers[e.server + 1] != ANY;
    }

    /** `dns_check_entry`; `txid` is the id that a new entry got. */
    method CheckEntry(i: nat, memory: bool) returns (txid: U16)
      requires Ready() && i < c.entries && (table[i].phase.New? || table[i].server < c.servers)
      modifies this`calls, this`sent, this`ages, table, requests, ports
      ensures State() == DnsTable.CheckEntry(c, old(State()), i, txid, memory)
      ensures old(table[i].phase.New?) ==> FreshId(old(table[..]), txid)
    {
      hide DnsTable.Send, SameHost;
      txid := 0;
      match table[i].phase {
        case New =>
          txid := NewTxid();
          table[i] := table[i].(txid := txid, phase := Asking, server := 0, tmr := 1, retries := 0);
          ages := ages[i := 0];
          assert State() == Begin(old(State()), i, txid);
          Send(i, memory);
        case Asking =>
          CheckAsking(i, txid, memory);
        case Done =>
          var e := table[i];
          if e.ttl == 0 {
            table[i] := e.(phase := Unused);
          } else {
            table[i] := e.(ttl := e.ttl - 1);
            if table[i].ttl == 0 {
              table[i] := table[i].(phase := Unused);
            }
          }
        case Unused =>
      }
    }

    /** The timer of an asking entry. */
    method CheckAsking(i: nat, ghost txid: U16, memory: bool)
      requires Ready() && i < c.entries && table[i].phase.Asking? && table[i].server < c.servers
      modifies this`calls, this`sent, table, requests, ports
      ensures State() == DnsTable.CheckEntry(c, old(State()), i, txid, memory)
    {
      hide DnsTable.Send, Finish;
      ghost var s, e := State(), table[i];
      var tmr: Byte := (table[i].tmr + 0xFF) % 0x100;
      if tmr != 0 {
        table[i] := table[i].(tmr := tmr);
        assert State() == s.(table := s.table[i := e.(tmr := tmr)]);
      } else {
        Expired(i, txid, memory);
      }
    }

    /** The timer has run down: retry, change the server, or give up. */
    method Expired(i: nat, ghost txid: U16, memory: bool)
      requires Ready() && i < c.entries && table[i].phase.Asking? && table[i].server < c.servers && table[i].tmr == 1
      modifies this`calls, this`sent, table, requests, ports
      ensures State() == DnsTable.CheckEntry(c, old(State()), i, txid, memory)
    {
      hide DnsTable.Send, DnsTable.CallFound;
      ghost var s, e := State(), table[i];
      var retries: Byte := (table[i].retries + 1) % 0x100;
      if retries == c.retries {
        var backup := BackupAvailable(table[i]);
        if backup && !table[i].mdns {
          table[i] := table[i].(server := table[i].server + 1, tmr := 1, retries := 0);
        } else {
          table[i] := table[i].(tmr := 0, retries := retries);
          GiveUp(i);
          return;
        }
      } else {
        table[i] := table[i].(tmr := retries, retries := retries);
      }
      ghost var next := Retry(c, e, Backup(c, s.servers, e));
      assert next.Some? && State() == s.(table := s.table[i := next.value]);
      Send(i, memory);
    }

    /** The lookup fails: its callbacks are called without an address and the entry is unused. */
    method GiveUp(i: nat)
      requires Ready() && i < c.entries
      modifies this`calls, table, requests, ports
      ensures State() == Finish(c, old(State()), i, None, Unused)
    {
      CallFound(i, None);
      table[i] := table[i].(phase := Unused);
    }

    /** A timer tick for one entry. */
    method TimerEntry(i: nat, memory: bool)
      requires Valid() && i < c.entries
      modifies this`calls, this`sent, this`ages, table, requests, ports
      ensures Valid() && old(table[i]).server < c.servers
      ensures State() == Tick(c, old(State()), i, 0, memory)
    {
      hide Inv, DnsTable.CheckEntry;
      ghost var s := State();
      EntryFromInv(c, s, i);
      TickKeeps(c, s, i, 0, memory);
      if table[i].phase.Asking? {
        ages := ages[i := ages[i] + 1];
      }
      ghost var aged := State();
      var txid := CheckEntry(i, memory);
      OldEntryCheck(c, aged, i, txid, memory);
    }

    /** `dns_tmr`: check all entries; `memory` is whether each query can be allocated. */
    method Timer(memory: nat -> bool)
      requires Valid()
      modifies this`calls, this`sent, this`ages, table, requests, ports
      ensures Valid() && State() == TickAll(c, old(State()), memory, c.entries)
      ensures exists states :: TimerStates(c, old(State()), State(), memory, states)
    {
      hide Inv, Tick, Entries;
      ghost var states := TickAllSteps(c, State(), memory, c.entries);
      for i := 0 to c.entries
        invariant Valid() && State() == TickAll(c, old(State()), memory, i)
      {
        TimerEntry(i, memory(i));
      }
      assert TimerStates(c, old(State()), State(), memory, states);
    }

    /** `dns_recv`: find the entry the packet is for, judge the packet, act on it. */
    method Receive(p: Packet, from: Ip, tail: Text, memory: bool)
      requires Valid()
      modifies this`calls, this`sent, this`ages, table, requests, ports
      ensures Valid() && forall i :: 0 <= i < c.entries ==> old(State()).table[i].server < c.servers
      ensures State() == DnsSteps.Receive(c, old(State()), p, from, tail, 0, memory)
    {
      hide Inv, Judge, Finish, Resolve, DnsTable.CheckEntry;
      ghost var s := State();
      InvSized(c, s);
      ReceiveKeeps(c, s, p, from, tail, 0, memory);
      if |p| < 16 {
        return;
      }
      var id, i := U16At(p, 0), 0;
      while i < c.entries && !(table[i].phase.Asking? && table[i].txid == id)
        invariant i <= c.entries && FindId(s.table, id, 0) == FindId(s.table, id, i)
      {
        i := i + 1;
      }
      if i == c.entries {
        return;
      }
      var verdict := JudgePacket(servers[table[i].server], table[i], p, from, tail, servers[..]);
      match verdict {
        case Ignore =>
        case ServerError =>
          var backup := BackupAvailable(table[i]);
          if backup {
            table[i] := table[i].(retries := c.retries - 1, tmr := 1);
            var txid := CheckEntry(i, memory);
            SameCheck(c, s, i, txid, memory);
          } else {
            GiveUp(i);
          }
        case NoAnswer => GiveUp(i);
        case Answer(ttl, addr) => CorrectResponse(i, ttl, addr);
      }
    }

    /** `dns_correct_response` */
    method CorrectResponse(i: nat, ttl: U32, addr: Ip)
      requires Ready() && i < c.entries
      modifies this`calls, table, requests, ports
      ensures State() == Resolve(c, old(State()), i, ttl, addr)
    {
      hide DnsTable.CallFound;
      table[i] := table[i].(addr := addr, phase := Done, ttl := ttl);
      if table[i].ttl > c.maxTtl {
        table[i] := table[i].(ttl := c.maxTtl);
      }
      ghost var kept: U32 := if ttl > c.maxTtl then c.maxTtl else ttl;
      ghost var e := old(table[i]).(addr := addr, phase := Done, ttl := kept);
      ghost var s := old(State()).(table := old(table[..])[i := e]);
      assert State() == s;
      CallFound(i, Some(addr));
      assert table[i].ttl == kept && table[i].phase.Done? by {
        CallFoundEntry(c, s, i, Some(addr));
      }
      if table[i].ttl == 0 && table[i].phase.Done? {
        table[i] := table[i].(phase := Unused);
      }
    }

    /** `dns_alloc_pcb`; `socket` is whether a new socket can be created and bound. */
    method AllocPort(socket: bool) returns (k: nat)
      requires Ready() && lastPort < c.ports
      modifies this`lastPort, ports
      ensures k == ChosenPort(c, old(State()), socket)
      ensures k < c.ports ==> ports[..] == old(ports[..])[k := true] && lastPort == k
      ensures k == c.ports ==> ports[..] == old(ports[..]) && lastPort == old(lastPort)
    {
      ghost var open := ports[..];
      var i := 0;
      while i < c.ports && ports[i]
        invariant i <= c.ports && FirstClosed(open, 0) == FirstClosed(open, i)
      {
        i := i + 1;
      }
      if i < c.ports {
        ports[i] := socket;
        if ports[i] {
          lastPort := i;
          return i;
        }
      }
      assert ports[..] == open;
      k := OpenPort();
      if k < c.ports {
        lastPort := k;
      }
    }

    /** The reuse loop of `dns_alloc_pcb`: the next open port after the last one used. */
    method OpenPort() returns (idx: nat)
      requires Ready() && lastPort < c.ports
      ensures idx == ReusePort(ports[..], lastPort + 1, c.ports)
    {
      idx := lastPort + 1;
      var n := c.ports;
      while n > 0
        invariant idx <= c.ports && ReusePort(ports[..], lastPort + 1, c.ports) == ReusePort(ports[..], idx, n)
        decreases n
      {
        if idx >= c.ports {
          idx := 0;
        }
        if ports[idx] {
          return;
        }
        idx, n := idx + 1, n - 1;
      }
      return c.ports;
    }

    /** The first free request, or the number of requests. */
    method FindRequest() returns (r: nat)
      requires Ready()
      ensures r == FreeRequest(requests[..], 0)
    {
      r := 0;
      while r < c.requests && requests[r].found.Some?
        invariant r <= c.requests && FreeRequest(requests[..], 0) == FreeRequest(requests[..], r)
      {
        r := r + 1;
      }
    }

    /** The duplicate check of `dns_enqueue`: joins a lookup for the same name if a request is free. */
    method Join(host: seq<Byte>, len: nat, cb: Option<Callback>) returns (joined: bool)
      requires Ready() && CString(host) && len <= |host|
      modifies this`accepted, requests
      ensures var s := old(State());
              var dup, r := FindDuplicate(s.table, host, len, 0), FreeRequest(s.requests, 0);
              && (joined <==> dup < c.entries && r < c.requests)
              && State() == if joined
                            then s.(requests := s.requests[r := Request(cb, dup)],
                                    accepted := Accept(s.accepted, cb, Kept(host, len)))
                            else s
    {
      hide SameHost;
      ghost var t := table[..];
      for i := 0 to c.entries
        invariant requests[..] == old(requests[..]) && accepted == old(accepted)
        invariant FindDuplicate(t, host, len, 0) == FindDuplicate(t, host, len, i) ||
                  FreeRequest(requests[..], 0) == c.requests
      {
        var same := false;
        if table[i].phase.Asking? {
          same := IsSameHost(host, len, table[i].name);
        }
        assert same == Duplicates(host, len, t[i]);
        if same {
          var r := FindRequest();
          if r < c.requests {
            requests[r] := Request(cb, i);
            accepted := Accept(accepted, cb, Kept(host, len));
            return true;
          }
        }
      }
      return false;
    }

    /** The entry search of `dns_enqueue`: an unused entry, or else the finished one of the largest 8-bit age. */
    method Pick() returns (k: nat)
      requires Ready()
      ensures k == PickEntry(State())
    {
      hide IsOldest;
      ghost var t := table[..];
      var i, lseq: Byte, lseqi := 0, 0, c.entries;
      while i < c.entries && !table[i].phase.Unused?
        invariant i <= c.entries && FirstUnused(t, 0) == FirstUnused(t, i)
        invariant (lseqi, lseq) == Oldest(t, seqno, i)
      {
        if table[i].phase.Done? {
          var age: Byte := (seqno + 0x100 - table[i].seqno) % 0x100;
          if age > lseq {
            lseq, lseqi := age, i;
          }
        }
        i := i + 1;
      }
      k := if i == c.entries then lseqi else i;
    }

    /** `dns_enqueue`; `txid` is the id that a new lookup got. */
    method Enqueue(host: seq<Byte>, len: nat, cb: Option<Callback>, mdns: bool, socket: bool, memory: bool)
      returns (err: Err, txid: U16)
      requires Valid() && CString(host) && len <= |host|
      modifies this`seqno, this`lastPort, this`calls, this`sent, this`accepted, this`ages, table, requests, ports
      ensures Valid() && FreshId(old(table[..]), txid) && old(lastPort) < c.ports && Sized(c, old(State()))
      ensures (State(), err) == DnsSteps.Enqueue(c, old(State()), host, len, cb, mdns, socket, txid, memory)
    {
      hide SameHost, PickEntry, ChosenPort, DnsTable.CheckEntry, Inv;
      ghost var s := State();
      InvPorts(c, s);
      txid := NewTxid();
      EnqueueKeeps(c, s, host, len, cb, mdns, socket, txid, memory);
      var joined := Join(host, len, cb);
      if joined {
        return InProgress, txid;
      }
      var i := Pick();
      if i == c.entries {
        return OutOfMemory, txid;
      }
      var r := FindRequest();
      if r == c.requests {
        return OutOfMemory, txid;
      }
      err, txid := StartLookup(i, r, Kept(host, len), cb, mdns, socket, memory, txid);
      EnqueueKeeps(c, s, host, len, cb, mdns, socket, txid, memory);
    }

    /** The rest of `dns_enqueue`: fill the entry, get a port, and ask. */
    method StartLookup(i: nat, r: nat, name: HostName, cb: Option<Callback>, mdns: bool, socket: bool, memory: bool,
                       other: U16)
      returns (err: Err, txid: U16)
      requires Ready() && lastPort < c.ports && i < c.entries && r < c.requests
      requires !table[i].phase.Asking? && requests[r].found.None? && FreshId(table[..], other)
      modifies this`seqno, this`lastPort, this`calls, this`sent, this`accepted, this`ages, table, requests, ports
      ensures FreshId(old(table[..]), txid)
      ensures var s := old(State());
              var port := ChosenPort(c, s, socket);
              if port == c.ports then
                && err == OutOfMemory
                && State() == s.(table := s.table[i := Filled(s, i, name, port, s.table[i].mdns).(phase := Unused)],
                                 requests := s.requests[r := Request(None, i)])
              else
                && err == InProgress
                && State() == DnsTable.CheckEntry(c, Placed(s, i, r, name, port, cb, mdns), i, txid, memory)
    {
      hide ChosenPort, DnsTable.CheckEntry, Placed;
      ghost var s := State();
      var port := FillEntry(i, r, name, cb, mdns, socket);
      if port >= c.ports {
        return OutOfMemory, other;
      }
      assert State() == Placed(s, i, r, name, port, cb, mdns);
      PlacedEntry(s, i, r, name, port, cb, mdns);
      txid := CheckEntry(i, memory);
      err := InProgress;
      SameFresh(s.table, i, Filled(s, i, name, port, mdns), txid);
    }

    /** The entry and the request are filled, or emptied again if there is no port. */
    method FillEntry(i: nat, r: nat, name: HostName, cb: Option<Callback>, mdns: bool, socket: bool) returns (port: nat)
      requires Ready() && lastPort < c.ports && i < c.entries && r < c.requests
      modifies this`seqno, this`lastPort, this`accepted, table, requests, ports
      ensures var s := old(State());
              && port == ChosenPort(c, s, socket)
              && State() == if port == c.ports
                            then s.(table := s.table[i := Filled(s, i, name, port, s.table[i].mdns).(phase := Unused)],
                                    requests := s.requests[r := Request(None, i)])
                            else Placed(s, i, r, name, port, cb, mdns)
    {
      hide ChosenPort, Accept;
      ghost var s := State();
      port := TakePort(i, r, name, cb, socket);
      if port >= c.ports {
        table[i] := table[i].(phase := Unused);
        requests[r] := Request(None, i);
        assert requests[..] == s.requests[r := Request(None, i)];
        return;
      }
      table[i] := table[i].(mdns := mdns);
      seqno := (seqno + 1) % 0x100;
      accepted := Accept(accepted, cb, name);
      assert table[..] == s.table[i := Filled(s, i, name, port, mdns)];
    }

    /** The entry and the request are filled, and the entry gets its port. */
    method TakePort(i: nat, r: nat, name: HostName, cb: Option<Callback>, socket: bool) returns (port: nat)
      requires Ready() && lastPort < c.ports && i < c.entries && r < c.requests
      modifies this`lastPort, table, requests, ports
      ensures port == ChosenPort(c, old(State()), socket)
      ensures table[..] == old(table[..])[i := Filled(old(State()), i, name, port, old(table[i].mdns))]
      ensures requests[..] == old(requests[..])[r := Request(cb, i)]
      ensures ports[..] == (if port < c.ports then old(ports[..])[port := true] else old(ports[..]))
      ensures lastPort == if port < c.ports then port else old(lastPort)
    {
      hide ChosenPort;
      ghost var s := State();
      table[i] := table[i].(phase := New, seqno := seqno, name := name);
      requests[r] := Request(cb, i);
      port := AllocPort(socket);
      SamePort(c, s, s.(table := table[..], requests := requests[..]), socket);
      table[i] := table[i].(port := port);
    }

    /** `dns_lookup`: the address of the first finished entry for the name. */
    method Lookup(host: seq<Byte>, len: nat) returns (addr: Option<Ip>)
      requires Ready() && CString(host) && len <= |host|
      ensures addr.None? <==> forall i :: 0 <= i < c.entries ==> !Cached(host, len, table[i])
      ensures addr.Some? ==>
                exists i ::
                  && 0 <= i < c.entries && Cached(host, len, table[i]) && addr.value == table[i].addr
                  && forall j :: 0 <= j < i ==> !Cached(host, len, table[j])
      ensures len > 0 ==> (addr.None? <==> forall i :: 0 <= i < c.entries ==> !Keeps(table[i], host, len))
      ensures len > 0 && addr.Some? ==>
                exists i :: 0 <= i < c.entries && Keeps(table[i], host, len) && addr.value == table[i].addr
    {
      hide SameHost, IsNamed;
      for i := 0 to c.entries
        invariant forall j :: 0 <= j < i ==> !Cached(host, len, table[j])
        invariant len > 0 ==> forall j :: 0 <= j < i ==> !Keeps(table[j], host, len)
      {
        if table[i].phase.Done? {
          var same := IsSameHost(host, len, table[i].name);
          if same {
            return Some(table[i].addr);
          }
        }
      }
      return None;
    }
  }

  /** The entry is finished and named as the host. */
  ghost predicate Keeps(e: Entry, host: seq<Byte>, len: nat)
    requires len <= |host|
  {
    e.phase.Done? && IsNamed(host, len, e.name)
  }

  ghost predicate Cached(host: seq<Byte>, len: nat, e: Entry)
    requires len <= |host|
  {
    e.phase.Done? && SameHost(host, len, e.name)
  }

  /** `lwip_strnicmp(host, name, n) == 0 && !name[n]` for the kept length `n`. */
  method IsSameHost(host: seq<Byte>, len: nat, name: HostName) returns (same: bool)
    requires CString(host) && len <= |host|
    ensures same == SameHost(host, len, name)
    ensures len > 0 ==> same == IsNamed(host, len, name)
  {
    var n := Min(len, 255);
    var r := Strnicmp(host, name, n);
    same := r == 0 && n <= |name| && CharAt(name, n) == 0;
    SameHostLower(host, len, name);
  }

  lemma InvPorts(c: Limits, s: Dns)
    requires Inv(c, s)
    ensures Sized(c, s) && s.lastPort < c.ports
  {
  }

  /** The port that is chosen depends on the ports only. */
  lemma SamePort(c: Limits, s: Dns, s': Dns, socket: bool)
    requires Sized(c, s) && Sized(c, s') && s.lastPort == s'.lastPort < c.ports && s.ports == s'.ports
    ensures ChosenPort(c, s, socket) == ChosenPort(c, s', socket)
  {
  }

  lemma PlacedEntry(s: Dns, i: nat, r: nat, name: HostName, port: nat, cb: Option<Callback>, mdns: bool)
    requires i < |s.table| && r < |s.requests| && port < |s.ports|
    ensures Placed(s, i, r, name, port, cb, mdns).table == s.table[i := Filled(s, i, name, port, mdns)]
  {
  }

  lemma SameFresh(table: seq<Entry>, i: nat, e: Entry, txid: U16)
    requires i < |table| && !table[i].phase.Asking? && FreshId(table[i := e], txid)
    ensures FreshId(table, txid)
  {
    forall j | 0 <= j < |table| && table[j].phase.Asking? ensures table[j].txid != txid {
      assert table[i := e][j] == table[j];
    }
  }

  lemma CallFoundEntry(c: Limits, s: Dns, i: nat, addr: Option<Ip>)
    requires Sized(c, s) && i < c.entries && c.requests <= c.entries
    ensures var t := CallFound(c, s, i, addr);
            |t.table| == c.entries && t.table[i].phase == s.table[i].phase && t.table[i].ttl == s.table[i].ttl
  {
  }

  lemma OldEntryCheck(c: Limits, s: Dns, i: nat, txid: U16, memory: bool)
    requires ValidLimits(c) && Sized(c, s) && i < c.entries && s.table[i].server < c.servers && !s.table[i].phase.New?
    ensures CheckEntry(c, s, i, txid, memory) == CheckEntry(c, s, i, 0, memory)
  {
  }

  /** Only a new entry takes the transaction id. */
  lemma SameCheck(c: Limits, s: Dns, i: nat, txid: U16, memory: bool)
    requires ValidLimits(c) && Sized(c, s) && i < c.entries && s.table[i].phase.Asking? && s.table[i].server < c.servers
    ensures var hurried := s.(table := s.table[i := s.table[i].(retries := c.retries - 1, tmr := 1)]);
            CheckEntry(c, hurried, i, txid, memory) == CheckEntry(c, hurried, i, 0, memory)
  {
  }

  /** The answer loop of `dns_recv`. */
  method ScanAnswers(p: Packet, start: nat, count: U16) returns (v: Verdict)
    requires start <= 0xFFFF
    ensures v == Scan(p, start, count)
  {
    var resIdx: U16, nanswers := start, count;
    while nanswers > 0 && resIdx < |p|
      invariant Scan(p, start, count) == Scan(p, resIdx, nanswers)
      decreases nanswers
    {
      var rr := SkipName(p, resIdx);
      if rr == FAILED || rr + 10 > |p| {
        return Ignore;
      }
      var len := U16At(p, rr + 8);
      if U16At(p, rr + 2) == 1 && U16At(p, rr) == 1 && len == 4 {
        if rr + 10 + 4 > |p| {
          return Ignore;
        }
        return Answer(U32At(p, rr + 4), IpAt(p, rr + 10));
      }
      if rr + 10 + len > 0xFFFF {
        return Ignore;
      }
      resIdx, nanswers := rr + 10 + len, nanswers - 1;
    }
    return NoAnswer;
  }

  /** The checks of `dns_recv` on a packet with the entry's transaction id. */
  method JudgePacket(server: Ip, e: Entry, p: Packet, from: Ip, tail: Text, ghost servers: seq<Ip>) returns (v: Verdict)
    requires |p| >= 16 && e.server < |servers| && server == servers[e.server]
    ensures v == Judge(servers, e, p, from, tail)
  {
    if p[2] < 0x80 || U16At(p, 4) != 1 {
      return Ignore;
    }
    if !e.mdns && from != server {
      return Ignore;
    }
    var q := CompareName(TextOf(e.name, tail), p, 12);
    if q == FAILED || q + 4 > |p| {
      return Ignore;
    }
    if U16At(p, q + 2) != 1 || U16At(p, q) != 1 {
      return Ignore;
    }
    if p[3] % 0x10 != 0 {
      return ServerError;
    }
    v := ScanAnswers(p, q + 4, U16At(p, 6));
  }
}
