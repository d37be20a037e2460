/**
 * Transaction ids of the resolver of src/lwip/dns.c: `dns_create_txid` with ids from a
 * counter and with ids from any generator.
 */
module DnsIds {
  import opened Words
  import opened LinkedSlots
  import opened DnsTable
  import opened DnsRuns

  /** The ids of `who` are the ids `first`, `first + 1`, ... and all of them are in use. */
  ghost predicate InUse(table: seq<Entry>, who: seq<nat>, first: U16) {
    forall k :: 0 <= k < |who| ==>
      who[k] < |table| && table[who[k]].phase.Asking? && table[who[k]].txid == (first + k) % 0x1_0000
  }

  lemma InUseDistinct(table: seq<Entry>, who: seq<nat>, first: U16)
    requires InUse(table, who, first) && |who| <= 0x1_0000
    ensures Distinct(who) && |who| <= |table|
  {
    forall i, j | 0 <= i < j < |who| ensures who[i] != who[j] {
      ApartModulo(first, i, j);
    }
    if |who| > |table| {
      Pigeonhole(who, |table|);
    }
  }

  lemma ApartModulo(first: U16, i: nat, j: nat)
    requires i < j < 0x1_0000
    ensures (first + i) % 0x1_0000 != (first + j) % 0x1_0000
  {
  }

  /**
   * `dns_create_txid` with ids from a counter: the id is free, and it is found within
   * DNS_TABLE_SIZE + 1 tries.
   */
  method CreateTxid(table: seq<Entry>, counter: U16) returns (txid: U16, tries: nat)
    requires |table| <= 255
    ensures FreshId(table, txid)
    ensures 1 <= tries <= |table| + 1 && txid == (counter + tries) % 0x1_0000
  {
    ghost var who: seq<nat> := [];
    ghost var first: U16 := (counter + 1) % 0x1_0000;
    txid, tries := counter, 0;
    while true
      invariant tries == |who| <= |table| && InUse(table, who, first) && txid == (counter + tries) % 0x1_0000
      decreases |table| - |who|
    {
      txid, tries := (txid + 1) % 0x1_0000, tries + 1;
      assert txid == (first + |who|) % 0x1_0000;
      var i := 0;
      while i < |table| && !(table[i].phase.Asking? && table[i].txid == txid)
        invariant i <= |table| && forall j :: 0 <= j < i ==> !(table[j].phase.Asking? && table[j].txid == txid)
      {
        i := i + 1;
      }
      if i == |table| {
        return;
      }
      who := who + [i];
      InUseDistinct(table, who, first);
    }
  }

  lemma {:induction false} SomeFreshId(table: seq<Entry>, who: seq<nat>)
    requires |table| <= 255 && InUse(table, who, 0) && |who| <= |table|
    ensures exists txid: U16 :: FreshId(table, txid)
    decreases |table| - |who|
  {
    var txid: U16 := |who|;
    if !FreshId(table, txid) {
      var i :| 0 <= i < |table| && table[i].phase.Asking? && table[i].txid == txid;
      assert InUse(table, who + [i], 0);
      InUseDistinct(table, who + [i], 0);
      SomeFreshId(table, who + [i]);
    }
  }

  /**
   * `dns_create_txid` with ids from any generator, of which `draws` is what it yields: the
   * first draw that no asking entry uses.  It ends if there is one, `hit`.
   */
  method DrawTxid(table: seq<Entry>, draws: nat -> U16, ghost hit: nat) returns (txid: U16, last: nat)
    requires FreshId(table, draws(hit))
    ensures txid == draws(last) && FreshId(table, txid) && last <= hit
    ensures forall k :: 0 <= k < last ==> !FreshId(table, draws(k))
  {
    last := 0;
    while true
      invariant last <= hit && forall k :: 0 <= k < last ==> !FreshId(table, draws(k))
      decreases hit - last
    {
      txid := draws(last);
      var i := 0;
      while i < |table| && !(table[i].phase.Asking? && table[i].txid == txid)
        invariant i <= |table| && forall j :: 0 <= j < i ==> !(table[j].phase.Asking? && table[j].txid == txid)
      {
        i := i + 1;
      }
      if i == |table| {
        return;
      }
      last := last + 1;
    }
  }
}
