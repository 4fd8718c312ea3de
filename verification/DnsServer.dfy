/** One round of the forwarder's server loop. */
module DnsServer {
  import opened Bytes
  import opened DnsCache
  import DnsReply

  /** A key stored again within sixteen stores had outlived its minute. */
  ghost predicate Sparse(log: seq<Stored>) {
    forall k, m :: 0 <= k < m < |log| && m - k <= DNS_CACHE_SIZE && log[k].key == log[m].key
                   ==> log[m].at - log[k].at > FRESH_MS
  }

  /** One turn of the loop: a query, what the network would answer it, and the times of lookup and store. */
  datatype Round = Round(query: Packet, wifiUp: bool, upstream: Option<Packet>, t0: nat, t1: nat)

  ghost predicate RoundOk(r: Round) {
    && |r.query| <= DNS_MAX_PACKET && r.t0 <= r.t1
    && (r.upstream.Some? ==> 12 <= |r.upstream.value| <= DNS_MAX_PACKET
                             && |r.query| >= 12 && r.upstream.value[..2] == r.query[..2])
  }

  /** A fresh store of the query's key, among the last sixteen. */
  ghost predicate Fresh(log: seq<Stored>, query: Packet, t: nat)
    requires |query| >= 12
  {
    exists k :: Recent(log, k) && log[k].key == Key(query) && t - log[k].at <= FRESH_MS
  }

  ghost predicate Cached(log: seq<Stored>, query: Packet, reply: Packet, t: nat)
    requires |query| >= 12
  {
    exists k :: Answers(log, k, query, reply, t) && Latest(log, k)
  }

  /** What a round replies and stores: the newest cached answer, always if there is a fresh one; else what upstream
      answers, which is stored; else, and only then, a made-up reply. */
  ghost predicate Answered(r: Round, log: seq<Stored>, reply: Packet, log': seq<Stored>) {
    if |r.query| < 12 then reply == [] && log' == log
    else
      || (log' == log && Cached(log, r.query, reply, r.t0))
      || (!Fresh(log, r.query, r.t0)
          && if r.wifiUp && r.upstream.Some? then
               && reply == r.upstream.value && |reply| >= 2
               && log' == log + [Stored(Key(r.query), [0, 0] + reply[2..], r.t1)]
             else
               log' == log && reply == if r.wifiUp then DnsReply.ServFail(r.query, DNS_MAX_PACKET)
                                       else DnsReply.Captive(r.query, DNS_MAX_PACKET))
  }

  /** Answer one query: from the cache, else from upstream if WiFi is up (and only then into the cache),
      else SERVFAIL or the captive reply. upstream is what forwarding gives if tried; t0 and t1 are the times
      of lookup and store. */
  method Serve(cache: Cache, query: Packet, wifiUp: bool, upstream: Option<Packet>, t0: nat, t1: nat, buf: array<byte>)
    returns (reply: Packet)
    requires cache.Valid() && cache.Unique() && cache.clock <= t0 <= t1 && buf.Length == DNS_MAX_PACKET
    requires upstream.Some? ==> 12 <= |upstream.value| <= DNS_MAX_PACKET
                                && |query| >= 12 && upstream.value[..2] == query[..2]
    requires |query| <= DNS_MAX_PACKET
    modifies cache, cache.entries, buf
    ensures cache.Valid() && cache.Unique() && cache.clock <= t1
    ensures old(cache.log) <= cache.log && (Sparse(old(cache.log)) ==> Sparse(cache.log))
    // a reply always carries the ID of its query
    ensures reply != [] ==> |query| >= 2 && |reply| >= 2 && reply[..2] == query[..2]
    ensures Answered(Round(query, wifiUp, upstream, t0, t1), old(cache.log), reply, cache.log)
  {
    hide DnsReply.Walk, HashOf;
    if |query| < 12 {
      return [];
    }
    var hit := cache.Lookup(query, t0);
    if hit.Some? {
      ghost var k :| Answers(cache.log, k, query, hit.value, t0) && Latest(cache.log, k);
      return hit.value;
    }
    if wifiUp && upstream.Some? {
      cache.Store(query, upstream.value, t1);
      return upstream.value;
    }
    var n;
    if wifiUp {
      n := DnsReply.MakeServFail(query, buf);
    } else {
      n := DnsReply.MakeCaptive(query, buf);
    }
    reply := buf[..n];
  }

  /** Round i of a run, by the stores before and after it. */
  ghost predicate AnsweredAt(rounds: seq<Round>, logs: seq<seq<Stored>>, replies: seq<Packet>, i: nat) {
    i < |rounds| && i < |replies| && i + 1 < |logs| && Answered(rounds[i], logs[i], replies[i], logs[i + 1])
  }

  /** The stored answer is what upstream gave some round for that key. */
  ghost predicate FromUpstream(s: Stored, rounds: seq<Round>) {
    exists r :: r in rounds && |r.query| >= 12 && r.wifiUp && r.upstream.Some? && |r.upstream.value| >= 2
                && s == Stored(Key(r.query), [0, 0] + r.upstream.value[2..], r.t1)
  }

  lemma StoresFrom(r: Round, log: seq<Stored>, reply: Packet, log': seq<Stored>, rounds: seq<Round>)
    requires Answered(r, log, reply, log') && r in rounds
    ensures log <= log' && forall k :: |log| <= k < |log'| ==> FromUpstream(log'[k], rounds)
  {
    hide DnsReply.Captive, DnsReply.ServFail, Cached, Fresh;
  }

  /** Any run of the server loop: every reply carries its query's ID, everything stored came from upstream, and no
      key is stored twice within sixteen stores and a minute. */
  method ServeAll(cache: Cache, rounds: seq<Round>, buf: array<byte>)
    returns (replies: seq<Packet>, ghost logs: seq<seq<Stored>>)
    requires cache.Valid() && cache.Unique() && buf.Length == DNS_MAX_PACKET && Sparse(cache.log)
    requires forall i :: 0 <= i < |rounds| ==> RoundOk(rounds[i]) && cache.clock <= rounds[i].t0
    requires forall i, j :: 0 <= i < j < |rounds| ==> rounds[i].t1 <= rounds[j].t0
    modifies cache, cache.entries, buf
    ensures cache.Valid() && cache.Unique() && Sparse(cache.log) && old(cache.log) <= cache.log
    ensures |replies| == |rounds| && |logs| == |rounds| + 1 && logs[0] == old(cache.log) && logs[|rounds|] == cache.log
    ensures forall i :: 0 <= i < |rounds| ==> AnsweredAt(rounds, logs, replies, i)
    ensures forall i :: 0 <= i < |rounds| && replies[i] != [] ==>
              |rounds[i].query| >= 2 && |replies[i]| >= 2 && replies[i][..2] == rounds[i].query[..2]
    ensures forall k :: |old(cache.log)| <= k < |cache.log| ==> FromUpstream(cache.log[k], rounds)
  {
    hide Sparse, WithId, Recent, DnsReply.Captive, DnsReply.ServFail;
    hide Cache.Valid, Cache.Unique, Answered;
    replies, logs := [], [cache.log];
    for i := 0 to |rounds|
      invariant cache.Valid() && cache.Unique() && Sparse(cache.log) && old(cache.log) <= cache.log
      invariant forall j :: i <= j < |rounds| ==> cache.clock <= rounds[j].t0
      invariant |replies| == i && |logs| == i + 1 && logs[0] == old(cache.log) && logs[i] == cache.log
      invariant forall j :: 0 <= j < i ==> AnsweredAt(rounds, logs, replies, j)
      invariant forall j :: 0 <= j < i && replies[j] != [] ==>
                  |rounds[j].query| >= 2 && |replies[j]| >= 2 && replies[j][..2] == rounds[j].query[..2]
      invariant forall k :: |old(cache.log)| <= k < |cache.log| ==> FromUpstream(cache.log[k], rounds)
    {
      var r := rounds[i];
      var reply := Serve(cache, r.query, r.wifiUp, r.upstream, r.t0, r.t1, buf);
      assert r in rounds;
      StoresFrom(r, logs[i], reply, cache.log, rounds);
      ghost var was, wasLogs := replies, logs;
      replies, logs := replies + [reply], logs + [cache.log];
      forall j | 0 <= j < i
        ensures AnsweredAt(rounds, logs, replies, j)
      {
        assert AnsweredAt(rounds, wasLogs, was, j);
      }
    }
  }
}
