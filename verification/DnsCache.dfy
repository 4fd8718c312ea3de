/** The DNS forwarder's reply cache: sixteen slots filled round-robin, entries good for a minute. */
module DnsCache {
  import opened Bytes

  const DNS_CACHE_SIZE := 16
  const DNS_MAX_PACKET := 512
  const FRESH_MS := 60000

  type Packet = seq<byte>

  /** What identifies a query: everything after the header, so also its length. */
  function Key(q: Packet): Packet
    requires |q| >= 12
  {
    q[12..]
  }

  /** (uint16_t)(h ^ (h >> 16)): the two halves, xored. */
  function Mix(h: u32): bv16 { ((h % 0x1_0000) as bv16) ^ ((h / 0x1_0000) as bv16) }

  /** One round of the hash, in 32 bits. */
  function Round(h: u32, b: byte): u32 { (h * 31 + b) % 0x1_0000_0000 }

  /** The hash of the bytes from i on, started at h; at most 28 bytes count. */
  function HashFrom(key: Packet, i: nat, h: u32): bv16
    decreases |key| - i
  {
    if i < |key| && i < 28 then HashFrom(key, i + 1, Round(h, key[i])) else Mix(h)
  }

  function HashOf(key: Packet): bv16 { HashFrom(key, 0, 0) }

  /** A slot; query and reply are kept with a zero ID. */
  datatype Entry = Entry(valid: bool, hash: bv16, query: Packet, reply: Packet, saved: u32)

  const EMPTY := Entry(false, 0, [], [], 0)

  /** A store that took place: at is the uptime in milliseconds, which does not wrap. */
  datatype Stored = Stored(key: Packet, reply: Packet, at: nat)

  function Stamp(t: nat): u32 { t % 0x1_0000_0000 }

  function WithId(reply: Packet, q: Packet): Packet
    requires |reply| >= 2 && |q| >= 2
  {
    [q[0], q[1]] + reply[2..]
  }

  /** Among the last sixteen stores. */
  predicate Recent(log: seq<Stored>, k: int) { 0 <= k < |log| && |log| - DNS_CACHE_SIZE <= k }

  /** dns_query_hash */
  method QueryHash(q: Packet) returns (r: bv16)
    requires |q| >= 12
    ensures r == HashOf(Key(q))
  {
    hide Mix, Round;
    var h: u32 := 0;
    var i: nat := 12;
    while i < |q| && i < 40
      invariant 12 <= i <= |q|
      invariant HashFrom(Key(q), i - 12, h) == HashOf(Key(q))
      decreases |q| - i
    {
      assert Key(q)[i - 12] == q[i];
      h := Round(h, q[i]);
      i := i + 1;
    }
    return Mix(h);
  }

  /** The age the code computes is the true one modulo the uptime counter's range, so it is within a minute exactly
      when that is: in truth, or a whole number of wraps later. */
  lemma AgeOfRecent(now: nat, at: nat)
    requires at <= now
    ensures Age(Stamp(now), Stamp(at)) == (now - at) % 0x1_0000_0000
    ensures now - at < 0x1_0000_0000 ==> Age(Stamp(now), Stamp(at)) == now - at
  {
    var M := 0x1_0000_0000;
    var d := Stamp(now) - Stamp(at);
    assert now - at == d + M * (now / M - at / M);
    ModPlus(d, now / M - at / M);
  }

  lemma ModPlus(d: int, k: int)
    ensures (d + 0x1_0000_0000 * k) % 0x1_0000_0000 == d % 0x1_0000_0000
  {
  }

  /** The slot holds the store, and has been dropped only if that store has outlived its minute. */
  ghost predicate Holds(e: Entry, s: Stored, clock: nat) {
    && |e.query| >= 12 && |e.reply| >= 12
    && Key(e.query) == s.key && e.hash == HashOf(s.key) && e.reply == s.reply && e.saved == Stamp(s.at)
    && s.at <= clock && (!e.valid ==> clock - s.at > FRESH_MS)
  }

  /** Every slot holds one of the last sixteen stores, or nothing yet. */
  ghost predicate SlotsHold(es: seq<Entry>, held: seq<int>, log: seq<Stored>, clock: nat) {
    && |es| == |held| == DNS_CACHE_SIZE
    && forall j :: 0 <= j < DNS_CACHE_SIZE ==>
         if held[j] < 0 then held[j] == -1 && !es[j].valid
         else Recent(log, held[j]) && Holds(es[j], log[held[j]], clock)
  }

  /** Each of the last sixteen stores is in its slot. */
  ghost predicate RecentHeld(held: seq<int>, log: seq<Stored>) {
    && |held| == DNS_CACHE_SIZE
    && (forall k :: Recent(log, k) ==> held[k % DNS_CACHE_SIZE] == k)
    && (forall j :: 0 <= j < DNS_CACHE_SIZE && held[j] >= 0 ==> held[j] % DNS_CACHE_SIZE == j)
  }

  /** A valid slot is the newest store of its key. */
  ghost predicate Newest(es: seq<Entry>, held: seq<int>, log: seq<Stored>)
    requires |es| == |held|
  {
    forall j, k :: 0 <= j < |es| && es[j].valid && 0 <= held[j] < k < |log| ==> log[k].key != log[held[j]].key
  }

  lemma HoldOn(es: seq<Entry>, held: seq<int>, log: seq<Stored>, clock: nat, e: Entry, s: Stored)
    requires SlotsHold(es, held, log, clock) && RecentHeld(held, log) && Holds(e, s, clock)
    ensures SlotsHold(es[|log| % DNS_CACHE_SIZE := e], held[|log| % DNS_CACHE_SIZE := |log|], log + [s], clock)
  {
    hide Holds;
    var next := |log| % DNS_CACHE_SIZE;
    RoundRobin(|log|);
    forall j | 0 <= j < DNS_CACHE_SIZE && j != next && held[j] >= 0
      ensures Recent(log + [s], held[j])
    {
      assert Recent(log, held[j]) && held[j] % DNS_CACHE_SIZE == j;
      assert held[j] != |log| - DNS_CACHE_SIZE;
    }
  }

  lemma RecentOn(held: seq<int>, log: seq<Stored>, s: Stored)
    requires RecentHeld(held, log)
    ensures RecentHeld(held[|log| % DNS_CACHE_SIZE := |log|], log + [s])
  {
    RoundRobin(|log|);
    forall k | Recent(log + [s], k) && k < |log|
      ensures held[|log| % DNS_CACHE_SIZE := |log|][k % DNS_CACHE_SIZE] == k
    {
      assert Recent(log, k);
    }
  }

  lemma NewestOn(es: seq<Entry>, held: seq<int>, log: seq<Stored>, clock: nat, e: Entry, s: Stored)
    requires SlotsHold(es, held, log, clock) && Newest(es, held, log)
    requires forall j :: 0 <= j < |es| && es[j].valid && |es[j].query| >= 12 ==> Key(es[j].query) != s.key
    ensures Newest(es[|log| % DNS_CACHE_SIZE := e], held[|log| % DNS_CACHE_SIZE := |log|], log + [s])
  {
    forall j | 0 <= j < |es| && es[j].valid && held[j] >= 0
      ensures log[held[j]].key != s.key
    {
      assert Holds(es[j], log[held[j]], clock);
    }
  }

  /** No two valid slots have the same key. */
  lemma OneEntryPerKey(es: seq<Entry>, held: seq<int>, log: seq<Stored>, clock: nat, i: nat, j: nat)
    requires SlotsHold(es, held, log, clock) && RecentHeld(held, log) && Newest(es, held, log)
    requires i < DNS_CACHE_SIZE && j < DNS_CACHE_SIZE && es[i].valid && es[j].valid
    ensures |es[i].query| >= 12 && |es[j].query| >= 12
    ensures Key(es[i].query) == Key(es[j].query) ==> i == j
  {
    assert Holds(es[i], log[held[i]], clock) && Holds(es[j], log[held[j]], clock);
  }

  lemma ClockOn(es: seq<Entry>, held: seq<int>, log: seq<Stored>, was: nat, now: nat)
    requires SlotsHold(es, held, log, was) && was <= now
    ensures SlotsHold(es, held, log, now)
  {
  }

  /** The reply is that of store k: one of the query's key, among the last sixteen, at most a minute old by the
      32-bit clock; with the query's own ID. */
  ghost predicate Answers(log: seq<Stored>, k: int, q: Packet, reply: Packet, t: nat)
    requires |q| >= 12
  {
    && Recent(log, k) && log[k].key == Key(q)
    && Age(Stamp(t), Stamp(log[k].at)) <= FRESH_MS
    && |log[k].reply| >= 12 && reply == WithId(log[k].reply, q)
  }

  /** Store k is the newest one of its key. */
  ghost predicate Latest(log: seq<Stored>, k: int) {
    0 <= k < |log| && forall k' :: k < k' < |log| ==> log[k'].key != log[k].key
  }

  class Cache {
    const entries: array<Entry>
    var next: nat
    /** Every store so far, the store each slot holds (-1 for none), and the time of the last operation. */
    ghost var log: seq<Stored>
    ghost var held: seq<int>
    ghost var clock: nat

    ghost predicate Valid()
      reads this, entries
    {
      && entries.Length == DNS_CACHE_SIZE && next == |log| % DNS_CACHE_SIZE
      && SlotsHold(entries[..], held, log, clock) && RecentHeld(held, log)
    }

    /** Every valid slot is the newest store of its key: kept by storing only after a miss. */
    ghost predicate Unique()
      requires Valid()
      reads this, entries
    {
      Newest(entries[..], held, log)
    }

    constructor ()
      ensures Valid() && Unique() && log == [] && clock == 0
    {
      entries := new Entry[DNS_CACHE_SIZE](_ => EMPTY);
      next, log, clock := 0, [], 0;
      held := seq(DNS_CACHE_SIZE, _ => -1);
    }

    /** No valid slot answers this query: what a miss leaves behind. */
    ghost predicate Missed(q: Packet)
      requires |q| >= 12 && entries.Length == DNS_CACHE_SIZE
      reads this, entries
    {
      forall j :: 0 <= j < DNS_CACHE_SIZE && entries[j].valid && |entries[j].query| >= 12
                  ==> Key(entries[j].query) != Key(q)
    }

    /** One slot of the lookup: its reply, or nothing, dropping the slot if its minute is over. */
    method Probe(i: nat, q: Packet, h: bv16, t: nat) returns (r: Option<Packet>)
      requires Valid() && clock == t && i < DNS_CACHE_SIZE && |q| >= 12 && h == HashOf(Key(q))
      modifies entries
      ensures Valid() && (old(Unique()) ==> Unique())
      ensures r.Some? ==> Answers(log, held[i], q, r.value, t) && (old(Unique()) ==> Latest(log, held[i]))
      ensures r.None? ==> !entries[i].valid || held[i] < 0 || log[held[i]].key != Key(q)
      ensures forall j :: 0 <= j < DNS_CACHE_SIZE && j != i ==> entries[j] == old(entries[j])
    {
      hide HashOf;
      var e := entries[i];
      if !e.valid || e.hash != h || |e.query| != |q| {
        return None;
      }
      AgeOfRecent(t, log[held[i]].at);
      hide Age, Stamp;
      if Age(Stamp(t), e.saved) > FRESH_MS {
        entries[i] := e.(valid := false);
        return None;
      }
      if e.query[12..] != q[12..] {
        return None;
      }
      return Some([q[0], q[1]] + e.reply[2..]);
    }

    /** dns_cache_lookup at uptime t */
    method Lookup(q: Packet, t: nat) returns (r: Option<Packet>)
      requires Valid() && clock <= t
      modifies entries, `clock
      ensures Valid() && clock == t && (old(Unique()) ==> Unique())
      ensures r.Some? ==> |q| >= 12 && exists k :: Answers(log, k, q, r.value, t) && (old(Unique()) ==> Latest(log, k))
      // a key stored within the last sixteen stores and the last minute does hit
      ensures r.None? && |q| >= 12 ==>
                Missed(q) && forall k :: Recent(log, k) && log[k].key == Key(q) ==> t - log[k].at > FRESH_MS
    {
      hide HashOf, Age, Stamp;
      clock := t;
      if |q| < 12 {
        return None;
      }
      var h := QueryHash(q);
      for i := 0 to DNS_CACHE_SIZE
        invariant Valid() && clock == t && (old(Unique()) ==> Unique())
        invariant forall j :: 0 <= j < i && entries[j].valid && held[j] >= 0 ==> log[held[j]].key != Key(q)
      {
        r := Probe(i, q, h, t);
        if r.Some? {
          return;
        }
      }
      AllProbed(q);
      return None;
    }

    lemma AllProbed(q: Packet)
      requires Valid() && |q| >= 12
      requires forall j :: 0 <= j < DNS_CACHE_SIZE && entries[j].valid && held[j] >= 0 ==> log[held[j]].key != Key(q)
      ensures Missed(q) && forall k :: Recent(log, k) && log[k].key == Key(q) ==> clock - log[k].at > FRESH_MS
    {
      forall k | Recent(log, k) && log[k].key == Key(q)
        ensures clock - log[k].at > FRESH_MS
      {
        assert held[k % DNS_CACHE_SIZE] == k;
      }
    }

    /** dns_cache_store at uptime t; each key stays unique if the query was just looked up and missed. */
    method Store(q: Packet, reply: Packet, t: nat)
      requires Valid() && clock <= t
      modifies this, entries
      ensures Valid() && clock == t
      ensures old(Unique() && (|q| >= 12 ==> Missed(q))) ==> Unique()
      ensures var fits := 12 <= |q| <= DNS_MAX_PACKET && 12 <= |reply| <= DNS_MAX_PACKET;
              log == if fits then old(log) + [Stored(Key(q), [0, 0] + reply[2..], t)] else old(log)
    {
      clock := t;
      if |q| < 12 || |q| > DNS_MAX_PACKET || |reply| < 12 || |reply| > DNS_MAX_PACKET {
        return;
      }
      var h := QueryHash(q);
      hide HashOf, Stamp;
      ghost var n := |log|;
      var zero: Packet := [0, 0];
      var e := Entry(true, h, zero + q[2..], zero + reply[2..], Stamp(t));
      ghost var s, es := Stored(Key(q), zero + reply[2..], t), entries[..];
      assert Key(e.query) == s.key;
      ClockOn(es, held, log, old(clock), t);
      HoldOn(es, held, log, t, e, s);
      RecentOn(held, log, s);
      if Unique() && Missed(q) {
        NewestOn(es, held, log, t, e, s);
      }
      RoundRobin(n);
      hide SlotsHold, RecentHeld, Newest, Holds;
      entries[next] := e;
      held := held[next := n];
      log := log + [s];
      next := (next + 1) % DNS_CACHE_SIZE;
      assert entries[..] == es[n % DNS_CACHE_SIZE := e];
    }
  }

  /** The slot a store takes held the store sixteen before it, and none of those in between. */
  lemma RoundRobin(n: nat)
    ensures (n % DNS_CACHE_SIZE + 1) % DNS_CACHE_SIZE == (n + 1) % DNS_CACHE_SIZE
    ensures (n - DNS_CACHE_SIZE) % DNS_CACHE_SIZE == n % DNS_CACHE_SIZE
    ensures forall k :: n - DNS_CACHE_SIZE < k < n ==> k % DNS_CACHE_SIZE != n % DNS_CACHE_SIZE
  {
    forall k | n - DNS_CACHE_SIZE < k < n
      ensures k % DNS_CACHE_SIZE != n % DNS_CACHE_SIZE
    {
      assert n - k == DNS_CACHE_SIZE * (n / DNS_CACHE_SIZE - k / DNS_CACHE_SIZE)
                      + (n % DNS_CACHE_SIZE - k % DNS_CACHE_SIZE);
    }
  }
}
