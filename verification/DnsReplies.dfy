/**
 * Replies to the resolver of src/lwip/dns.c: which record of a packet is taken, and what
 * a proper reply to an asking entry does.
 */
module DnsReplies {
  import opened Words
  import opened Options
  import opened DnsNames
  import opened DnsTable
  import opened DnsSteps
  import opened DnsInvariant
  import opened DnsRuns
  import opened DnsLocal
  import opened DnsWalks
  import opened DnsCallbacks

  // The records of a packet.

  /** A resource record that starts at `at` has its name and its fixed part inside the packet. */
  ghost predicate HasRecord(p: Packet, at: nat) {
    at < |p| && NameEnd(p, at) != FAILED && NameEnd(p, at) + 10 <= |p|
  }

  /** Its type is A, its class IN and the length of its data 4. */
  ghost predicate IsAddress(p: Packet, at: nat)
    requires HasRecord(p, at)
  {
    var rr := NameEnd(p, at);
    U16At(p, rr) == 1 && U16At(p, rr + 2) == 1 && U16At(p, rr + 8) == 4
  }

  /** Where the next record starts. */
  ghost function NextRecord(p: Packet, at: nat): nat
    requires HasRecord(p, at)
  {
    NameEnd(p, at) + 10 + U16At(p, NameEnd(p, at) + 8)
  }

  /**
   * The record is passed: it is not an address, its fixed part is inside the packet and the
   * next offset, `next`, is at most 0xFFFF.  Its data may run past the end of the packet.
   */
  ghost predicate Passes(p: Packet, at: nat, next: nat) {
    HasRecord(p, at) && !IsAddress(p, at) && NextRecord(p, at) == next <= 0xFFFF
  }

  /** The record holds this address with this time to live. */
  ghost predicate Gives(p: Packet, at: nat, ttl: U32, addr: Ip) {
    && HasRecord(p, at) && IsAddress(p, at) && NameEnd(p, at) + 14 <= |p|
    && ttl == U32At(p, NameEnd(p, at) + 4) && addr == IpAt(p, NameEnd(p, at) + 10)
  }

  ghost function NextOf(starts: seq<nat>, j: nat): nat
    requires j + 1 < |starts|
  {
    starts[j + 1]
  }

  /** The records from `at` on start at `starts`, and all but the last are passed. */
  ghost predicate Walk(p: Packet, at: nat, starts: seq<nat>) {
    && |starts| > 0 && starts[0] == at
    && forall j :: 0 <= j < |starts| - 1 ==> Passes(p, starts[j], NextOf(starts, j))
  }

  lemma WalkOn(p: Packet, at: nat, next: nat, starts: seq<nat>)
    requires Passes(p, at, next) && Walk(p, next, starts)
    ensures Walk(p, at, [at] + starts)
  {
    var all := [at] + starts;
    forall j | 0 <= j < |all| - 1 ensures Passes(p, all[j], NextOf(all, j)) {
      if j > 0 {
        assert all[j] == starts[j - 1] && NextOf(all, j) == NextOf(starts, j - 1);
      }
    }
  }

  lemma WalkRest(p: Packet, at: nat, starts: seq<nat>)
    requires Walk(p, at, starts) && |starts| > 1
    ensures Passes(p, at, starts[1]) && Walk(p, starts[1], starts[1..])
  {
    assert Passes(p, starts[0], NextOf(starts, 0));
    var rest := starts[1..];
    forall j | 0 <= j < |rest| - 1 ensures Passes(p, rest[j], NextOf(rest, j)) {
      assert rest[j] == starts[j + 1] && NextOf(rest, j) == NextOf(starts, j + 1);
    }
  }

  /** Among the `n` records from `at` on, the first address is the last of `starts`. */
  ghost predicate FirstAddress(p: Packet, at: nat, n: nat, starts: seq<nat>, ttl: U32, addr: Ip) {
    |starts| <= n && Walk(p, at, starts) && Gives(p, starts[|starts| - 1], ttl, addr)
  }

  /** All `n` records are passed, or the packet ends before. */
  ghost predicate NoAddress(p: Packet, at: nat, n: nat, starts: seq<nat>) {
    |starts| <= n + 1 && Walk(p, at, starts) && (|starts| == n + 1 || starts[|starts| - 1] >= |p|)
  }

  lemma {:induction false} ScanFound(p: Packet, at: nat, n: nat) returns (starts: seq<nat>)
    ensures var v := Scan(p, at, n);
            && (v.Answer? ==> FirstAddress(p, at, n, starts, v.ttl, v.addr))
            && (v.NoAnswer? ==> NoAddress(p, at, n, starts))
    decreases n
  {
    hide NameEnd;
    starts := [at];
    if n > 0 && HasRecord(p, at) && !IsAddress(p, at) && NextRecord(p, at) <= 0xFFFF {
      var rest := ScanFound(p, NextRecord(p, at), n - 1);
      starts := [at] + rest;
      if Scan(p, at, n).Answer? || Scan(p, at, n).NoAnswer? {
        WalkOn(p, at, NextRecord(p, at), rest);
      }
    }
  }

  lemma ScanOne(p: Packet, at: nat, n: nat)
    ensures n == 0 || at >= |p| ==> Scan(p, at, n) == NoAnswer
    ensures n > 0 && HasRecord(p, at) && !IsAddress(p, at) && NextRecord(p, at) <= 0xFFFF ==>
              Scan(p, at, n) == Scan(p, NextRecord(p, at), n - 1)
    ensures forall ttl, addr :: n > 0 && Gives(p, at, ttl, addr) ==> Scan(p, at, n) == Answer(ttl, addr)
  {
    hide NameEnd;
  }

  lemma {:induction false} FoundScan(p: Packet, at: nat, n: nat, starts: seq<nat>, ttl: U32, addr: Ip)
    ensures FirstAddress(p, at, n, starts, ttl, addr) ==> Scan(p, at, n) == Answer(ttl, addr)
    ensures NoAddress(p, at, n, starts) ==> Scan(p, at, n) == NoAnswer
    decreases n
  {
    hide NameEnd, Scan, Gives, HasRecord, IsAddress, NextRecord;
    ScanOne(p, at, n);
    if n > 0 && |starts| > 1 && Walk(p, at, starts) {
      WalkRest(p, at, starts);
      var rest := starts[1..];
      assert rest[|rest| - 1] == starts[|starts| - 1];
      FoundScan(p, starts[1], n - 1, rest, ttl, addr);
    }
  }

  /**
   * The answer loop finds an address exactly if it is that of the first address record and
   * all records before it are passed; it finds that there is none exactly if all records up
   * to the announced number or the end of the packet are passed, where the last may be cut
   * short in its data; in all other cases it ignores the packet.
   */
  lemma ScanFindsFirst(p: Packet, at: nat, n: nat, ttl: U32, addr: Ip)
    ensures Scan(p, at, n) == Answer(ttl, addr) <==> exists starts :: FirstAddress(p, at, n, starts, ttl, addr)
    ensures Scan(p, at, n) == NoAnswer <==> exists starts :: NoAddress(p, at, n, starts)
    ensures !Scan(p, at, n).ServerError?
  {
    hide Scan, FirstAddress, NoAddress;
    var starts := ScanFound(p, at, n);
    forall starts ensures FirstAddress(p, at, n, starts, ttl, addr) ==> Scan(p, at, n) == Answer(ttl, addr) {
      FoundScan(p, at, n, starts, ttl, addr);
    }
    forall starts ensures NoAddress(p, at, n, starts) ==> Scan(p, at, n) == NoAnswer {
      FoundScan(p, at, n, starts, 0, 0);
    }
    NoServerError(p, at, n);
  }

  lemma {:induction false} NoServerError(p: Packet, at: nat, n: nat)
    ensures !Scan(p, at, n).ServerError?
    decreases n
  {
    hide NameEnd;
    if n > 0 && HasRecord(p, at) {
      NoServerError(p, NextRecord(p, at), n - 1);
    }
  }

  // Which packets matter.

  /** A response to the entry's question, from where it was sent; the question ends at `q` plus 4. */
  ghost predicate Heeded(servers: seq<Ip>, e: Entry, p: Packet, from: Ip, tail: Text, q: nat) {
    && |p| >= 16 && p[2] >= 0x80 && U16At(p, 4) == 1
    && e.server < |servers| && (e.mdns || from == servers[e.server])
    && q < FAILED && (exists starts :: ComparesFrom(TextOf(e.name, tail), p, 12, 12, starts, q))
    && q + 4 <= |p| && U16At(p, q) == 1 && U16At(p, q + 2) == 1
  }

  /** A packet is judged by its error code and its records if it is heeded, and otherwise ignored. */
  lemma JudgedIfHeeded(servers: seq<Ip>, e: Entry, p: Packet, from: Ip, tail: Text)
    requires |p| >= 16 && e.server < |servers|
    ensures forall q: nat :: Heeded(servers, e, p, from, tail, q) ==>
              Judge(servers, e, p, from, tail) ==
                if p[3] % 0x10 != 0 then ServerError else Scan(p, q + 4, U16At(p, 6))
    ensures (forall q: nat :: !Heeded(servers, e, p, from, tail, q)) ==> Judge(servers, e, p, from, tail) == Ignore
  {
    hide ComparesFrom, Scan, MatchEnd, Heeded;
    var text := TextOf(e.name, tail);
    forall q: nat | Heeded(servers, e, p, from, tail, q)
      ensures Judge(servers, e, p, from, tail) == if p[3] % 0x10 != 0 then ServerError else Scan(p, q + 4, U16At(p, 6))
    {
      HeededParts(servers, e, p, from, tail, q);
    }
    var m := MatchEnd(text, 0, p, 12);
    if Judge(servers, e, p, from, tail) != Ignore {
      ComparesExactly(text, p, 12, m);
      HeededFrom(servers, e, p, from, tail, m);
    }
  }

  lemma HeededParts(servers: seq<Ip>, e: Entry, p: Packet, from: Ip, tail: Text, q: nat)
    requires Heeded(servers, e, p, from, tail, q)
    ensures |p| >= 16 && e.server < |servers| && q + 4 <= |p| && MatchEnd(TextOf(e.name, tail), 0, p, 12) == q
    ensures p[2] >= 0x80 && U16At(p, 4) == 1 && (e.mdns || from == servers[e.server])
    ensures q < FAILED && U16At(p, q) == 1 && U16At(p, q + 2) == 1
  {
    hide ComparesFrom;
    ComparesExactly(TextOf(e.name, tail), p, 12, q);
  }

  lemma HeededFrom(servers: seq<Ip>, e: Entry, p: Packet, from: Ip, tail: Text, q: nat)
    requires |p| >= 16 && p[2] >= 0x80 && U16At(p, 4) == 1
    requires e.server < |servers| && (e.mdns || from == servers[e.server])
    requires q < FAILED && (exists starts :: ComparesFrom(TextOf(e.name, tail), p, 12, 12, starts, q))
    requires q + 4 <= |p| && U16At(p, q) == 1 && U16At(p, q + 2) == 1
    ensures Heeded(servers, e, p, from, tail, q)
  {
  }

  /** The entry asks with the id of the packet. */
  ghost predicate AsksWith(e: Entry, p: Packet) {
    e.phase.Asking? && |p| >= 16 && U16At(p, 0) == e.txid
  }

  /**
   * A packet that no asking entry heeds changes nothing: one that is short, with another
   * id, from another address than the server that was asked, that is no response, has not
   * one question, or asks for another name, type or class.
   */
  lemma StrangerIgnored(c: Limits, s: Dns, p: Packet, from: Ip, tail: Text, memory: bool)
    requires ValidLimits(c) && Inv(c, s)
    requires forall i: nat, q: nat :: i < |s.table| && AsksWith(s.table[i], p) ==>
               !Heeded(s.servers, s.table[i], p, from, tail, q)
    ensures forall i :: 0 <= i < c.entries ==> s.table[i].server < c.servers
    ensures Receive(c, s, p, from, tail, 0, memory) == s
  {
    hide Inv, Judge, Heeded, CheckEntry, Finish, Resolve;
    InvSized(c, s);
    if |p| >= 16 {
      var i := FindId(s.table, U16At(p, 0), 0);
      if i < c.entries {
        assert AsksWith(s.table[i], p);
        JudgedIfHeeded(s.servers, s.table[i], p, from, tail);
      }
    }
  }

  // Replies.

  /** Where the answers start in a reply to a question for the name. */
  function AnswersAt(name: HostName): nat {
    12 + |name| + 2 + 4
  }

  /** A response without error that repeats the id and the question, the name in any letter case. */
  ghost predicate ProperReply(p: Packet, name: HostName, txid: U16) {
    && AnswersAt(name) <= |p| && U16At(p, 0) == txid && p[2] >= 0x80 && p[3] % 0x10 == 0
    && U16At(p, 4) == 1 && HoldsVariant(name, p, 12)
    && U16At(p, AnswersAt(name) - 4) == 1 && U16At(p, AnswersAt(name) - 2) == 1
  }

  /** Such a reply from the server that was asked, or to an mDNS query, is judged by its answers. */
  lemma ReplyJudged(servers: seq<Ip>, e: Entry, p: Packet, from: Ip, tail: Text)
    requires e.server < |servers| && (e.mdns || from == servers[e.server]) && PlainLabels(e.name)
    requires ProperReply(p, e.name, e.txid)
    ensures Judge(servers, e, p, from, tail) == Scan(p, AnswersAt(e.name), U16At(p, 6))
  {
    hide MatchEnd, HoldsVariant, PlainLabels, Scan;
    assert Spells(TextOf(e.name, tail), e.name);
    OwnEncodingAccepted(TextOf(e.name, tail), e.name, p, 12);
  }

  /** What a resolved entry looks like, and what else changed. */
  ghost predicate Resolved(c: Limits, s: Dns, s': Dns, i: nat, ttl: U32, addr: Ip)
    requires Sized(c, s) && i < c.entries
  {
    var e, kept := s.table[i], if ttl > c.maxTtl then c.maxTtl else ttl;
    && Sized(c, s')
    && Answered(s, s', i, Some(addr))
    && s'.requests == Flushed(s.requests, i)
    && s'.table[i].addr == addr && s'.table[i].ttl == kept
    && s'.table[i].phase == (if kept == 0 then Unused else Done)
    && forall j :: 0 <= j < c.entries && j != i ==> s'.table[j] == s.table[j]
  }

  lemma ResolveResolves(c: Limits, s: Dns, i: nat, ttl: U32, addr: Ip)
    requires ValidLimits(c) && Sized(c, s) && i < c.entries && s.table[i].phase.Asking?
    ensures Resolved(c, s, Resolve(c, s, i, ttl, addr), i, ttl, addr)
  {
    hide PortShared, Answered;
    ResolveCalls(c, s, i, ttl, addr);
  }

  lemma ReplyIsResolve(c: Limits, s: Dns, i: nat, p: Packet, from: Ip, tail: Text, memory: bool,
                       starts: seq<nat>, ttl: U32, addr: Ip)
    requires ValidLimits(c) && Inv(c, s) && i < c.entries && s.table[i].phase.Asking? && PlainLabels(s.table[i].name)
    requires s.table[i].server < c.servers && (s.table[i].mdns || from == s.servers[s.table[i].server])
    requires ProperReply(p, s.table[i].name, s.table[i].txid)
    requires FirstAddress(p, AnswersAt(s.table[i].name), U16At(p, 6), starts, ttl, addr)
    ensures forall j :: 0 <= j < c.entries ==> s.table[j].server < c.servers
    ensures Receive(c, s, p, from, tail, 0, memory) == Resolve(c, s, i, ttl, addr)
  {
    hide Judge, Inv, Resolve, Finish, CheckEntry, PlainLabels, FirstAddress, HoldsVariant;
    InvSized(c, s);
    var e := s.table[i];
    ReplyJudged(s.servers, e, p, from, tail);
    FoundScan(p, AnswersAt(e.name), U16At(p, 6), starts, ttl, addr);
    ReplyMatchesOne(c, s, e.txid, i);
  }

  /**
   * The lookup, the query and the reply fit together: a proper reply to an asking entry,
   * with any records, resolves it to its first address record, whatever else the tables
   * hold.  All its callbacks, and no others, are called with the address; the entry is
   * kept for the TTL of the record, at most DNS_MAX_TTL, and not at all if that is 0.
   */
  lemma ReplyResolves(c: Limits, s: Dns, i: nat, p: Packet, from: Ip, tail: Text, memory: bool,
                      starts: seq<nat>, ttl: U32, addr: Ip)
    requires ValidLimits(c) && Inv(c, s) && i < c.entries && s.table[i].phase.Asking? && PlainLabels(s.table[i].name)
    requires s.table[i].server < c.servers && (s.table[i].mdns || from == s.servers[s.table[i].server])
    requires ProperReply(p, s.table[i].name, s.table[i].txid)
    requires FirstAddress(p, AnswersAt(s.table[i].name), U16At(p, 6), starts, ttl, addr)
    ensures forall j :: 0 <= j < c.entries ==> s.table[j].server < c.servers
    ensures Resolved(c, s, Receive(c, s, p, from, tail, 0, memory), i, ttl, addr)
  {
    hide Inv, Resolve, Receive, Resolved, PlainLabels, FirstAddress, HoldsVariant;
    InvSized(c, s);
    ReplyIsResolve(c, s, i, p, from, tail, memory, starts, ttl, addr);
    ResolveResolves(c, s, i, ttl, addr);
  }

  /** A proper reply whose records hold no address ends the lookup: its callbacks are called without one. */
  lemma EmptyReplyEnds(c: Limits, s: Dns, i: nat, p: Packet, from: Ip, tail: Text, memory: bool, starts: seq<nat>)
    requires ValidLimits(c) && Inv(c, s) && i < c.entries && s.table[i].phase.Asking? && PlainLabels(s.table[i].name)
    requires s.table[i].server < c.servers && (s.table[i].mdns || from == s.servers[s.table[i].server])
    requires ProperReply(p, s.table[i].name, s.table[i].txid)
    requires NoAddress(p, AnswersAt(s.table[i].name), U16At(p, 6), starts)
    ensures forall j :: 0 <= j < c.entries ==> s.table[j].server < c.servers
    ensures var s' := Receive(c, s, p, from, tail, 0, memory);
            && |s'.table| == c.entries && s'.table[i].phase.Unused?
            && Answered(s, s', i, None)
            && s'.requests == Flushed(s.requests, i)
  {
    hide Judge, Inv, Resolve, CheckEntry, PlainLabels, NoAddress, HoldsVariant, Answered;
    InvSized(c, s);
    var e := s.table[i];
    ReplyJudged(s.servers, e, p, from, tail);
    FoundScan(p, AnswersAt(e.name), U16At(p, 6), starts, 0, 0);
    ReplyMatchesOne(c, s, e.txid, i);
    assert Receive(c, s, p, from, tail, 0, memory) == Finish(c, s, i, None, Unused);
    FinishCalls(c, s, i, None, Unused);
  }

  /** The entry that asks the next server next, with fresh counters. */
  ghost predicate MovedOn(s: Dns, s': Dns, i: nat)
    requires i < |s.table|
  {
    && i < |s'.table|
    && s'.table[i] == s.table[i].(server := s.table[i].server + 1, tmr := 1, retries := 0)
  }

  /**
   * A reply with an error code, from the server that was asked, moves the lookup on to the
   * next server if one is set, and sends the query there; for mDNS, or without a next
   * server, it ends the lookup and calls its callbacks without an address.
   */
  lemma ErrorReplyMovesOn(c: Limits, s: Dns, i: nat, p: Packet, from: Ip, tail: Text, memory: bool, q: nat)
    requires ValidLimits(c) && Inv(c, s) && Sized(c, s) && i < c.entries && s.table[i].phase.Asking?
    requires Heeded(s.servers, s.table[i], p, from, tail, q) && p[3] % 0x10 != 0 && U16At(p, 0) == s.table[i].txid
    ensures forall j :: 0 <= j < c.entries ==> s.table[j].server < c.servers
    ensures var e, s' := s.table[i], Receive(c, s, p, from, tail, 0, memory);
            if e.server + 1 < c.servers && s.servers[e.server + 1] != ANY && !e.mdns then
              && MovedOn(s, s', i) && s'.calls == s.calls && s'.requests == s.requests && s'.servers == s.servers
              && s'.sent == s.sent + if memory then [QueryOf(s', s'.table[i])] else []
            else |s'.table| == c.entries && s'.table[i].phase.Unused? && Answered(s, s', i, None) && s'.sent == s.sent
  {
    hide Inv, Judge, Heeded, Finish, Resolve, Answered, QueryMessage;
    InvSized(c, s);
    EntryFromInv(c, s, i);
    HeededParts(s.servers, s.table[i], p, from, tail, q);
    JudgedIfHeeded(s.servers, s.table[i], p, from, tail);
    ReplyMatchesOne(c, s, s.table[i].txid, i);
    FinishActs(c, s, i, None, Unused);
    FinishCalls(c, s, i, None, Unused);
    var e := s.table[i].(retries := c.retries - 1, tmr := 1);
    var t := s.(table := s.table[i := e]);
    if Backup(c, s.servers, s.table[i]) {
      ErrorRetries(c, s, i, memory);
    }
  }

  lemma ErrorRetries(c: Limits, s: Dns, i: nat, memory: bool)
    requires ValidLimits(c) && Sized(c, s) && i < c.entries && s.table[i].phase.Asking? && s.table[i].server < c.servers
    requires Backup(c, s.servers, s.table[i])
    ensures var t := s.(table := s.table[i := s.table[i].(retries := c.retries - 1, tmr := 1)]);
            var s' := CheckEntry(c, t, i, 0, memory);
            if s.table[i].mdns then
              |s'.table| == c.entries && s'.table[i].phase.Unused? && Answered(s, s', i, None) && s'.sent == s.sent
            else
              && MovedOn(s, s', i) && s'.calls == s.calls && s'.requests == s.requests && s'.servers == s.servers
              && s'.sent == s.sent + if memory then [QueryOf(s', s'.table[i])] else []
  {
    hide Finish, Answered, QueryMessage;
    var e := s.table[i].(retries := c.retries - 1, tmr := 1);
    var t := s.(table := s.table[i := e]);
    if s.table[i].mdns {
      var u, s' := t.(table := t.table[i := e.(tmr := 0, retries := c.retries)]), CheckEntry(c, t, i, 0, memory);
      FinishActs(c, u, i, None, Unused);
      FinishCalls(c, u, i, None, Unused);
      assert s' == Finish(c, u, i, None, Unused);
      AnsweredFrame(s, u, s', s', i, None);
    }
  }

  /** The reply that repeats the question and answers it with one address record, its name compressed. */
  function OneRecord(name: HostName, txid: U16, ttl: (Byte, Byte, Byte, Byte),
                     ip: (Byte, Byte, Byte, Byte)): (p: Packet) {
    [txid / 0x100, txid % 0x100, 0x81, 0x80, 0, 1, 0, 1, 0, 0, 0, 0] + EncodedName(name) + [0, 1, 0, 1] +
    [0xC0, 0x0C, 0, 1, 0, 1, ttl.0, ttl.1, ttl.2, ttl.3, 0, 4, ip.0, ip.1, ip.2, ip.3]
  }

  function TtlOf(ttl: (Byte, Byte, Byte, Byte)): U32 {
    Word(ttl.1, ttl.0) as int * 0x1_0000 + Word(ttl.3, ttl.2) as int
  }

  function IpOf(ip: (Byte, Byte, Byte, Byte)): Ip {
    Word(ip.0, ip.1) as int + 0x1_0000 * Word(ip.2, ip.3) as int
  }

  /** It is a proper reply for every name, and its record is found. */
  lemma OneRecordFound(name: HostName, txid: U16, ttl: (Byte, Byte, Byte, Byte), ip: (Byte, Byte, Byte, Byte))
    ensures var p := OneRecord(name, txid, ttl, ip);
            && ProperReply(p, name, txid)
            && FirstAddress(p, AnswersAt(name), U16At(p, 6), [AnswersAt(name)], TtlOf(ttl), IpOf(ip))
  {
    var p, q := OneRecord(name, txid, ttl, ip), AnswersAt(name);
    var head: seq<Byte> := [txid / 0x100, txid % 0x100, 0x81, 0x80, 0, 1, 0, 1, 0, 0, 0, 0];
    var rest: seq<Byte> := [0, 1, 0, 1, 0xC0, 0x0C, 0, 1, 0, 1, ttl.0, ttl.1, ttl.2, ttl.3, 0, 4, ip.0, ip.1, ip.2,
                            ip.3];
    assert p == head + EncodedName(name) + rest;
    EncodingIsVariant(name, head, rest);
    hide HoldsVariant, EncodedName, OneRecord, EncodedByte;
    assert p[..12] == head && p[q - 4..] == rest;
    assert forall k :: 0 <= k < 12 ==> p[k] == head[k];
    assert forall k :: 0 <= k < 20 ==> p[q - 4..][k] == rest[k];
    assert NameEnd(p, q) == q + 2;
  }
}
