/** The NAT flow table of the transparent proxy, and the two packet hooks that use it. */
module FlowTable {
  import opened Bytes
  import opened Packet

  const FLOW_MAX := 16
  const RELAY_HTTP_PORT: u16 := 3080
  const RELAY_TLS_PORT: u16 := 3443

  datatype FlowState = Free | Active | Closed

  datatype Flow = Flow(state: FlowState, phonePort: u16, relayPort: u16, origPort: u16, origIp: Ip4, stamp: u32)
  {
    function Dialled(): Dest { Dest(origIp, origPort) }
  }

  const ZERO_FLOW := Flow(Free, 0, 0, 0, Ip4(0, 0, 0, 0), 0)

  /** Where the phone thinks it is connecting to. */
  datatype Dest = Dest(ip: Ip4, port: u16)

  predicate WebPort(port: u16) { port == 80 || port == 443 }

  function RelayPort(webPort: u16): u16 { if webPort == 80 then RELAY_HTTP_PORT else RELAY_TLS_PORT }

  // ---------------------------------------------------------------- history

  /** What happened to the table: a phone segment to a web port, with the fate of its packet and
      the port whose flow lost its slot to it, or a reset when a new PPP link came up. */
  datatype Event =
    | Segment(port: u16, dest: Dest, syn: bool, redirected: bool, opens: bool, evicted: Option<u16>)
    | Reset

  /** The destination a port's redirected connection dialled, judged from the history alone. */
  ghost function Dialled(h: seq<Event>, port: u16): Option<Dest>
  {
    if h == [] then None
    else
      var e, before := h[|h| - 1], h[..|h| - 1];
      if e.Reset? then None
      else if !e.syn then Dialled(before, port)
      else if e.port == port then if e.redirected then Some(e.dest) else None
      else if e.evicted == Some(port) then None
      else Dialled(before, port)
  }

  /** Event e ends whatever connection the port had. */
  predicate Ends(e: Event, port: u16) {
    e.Reset? || (e.syn && (e.port == port || e.evicted == Some(port)))
  }

  /** Dialled in terms of the latest SYN of the port: it was redirected, went to d, and since then the
      port sent no other SYN, lost no slot and saw no reset. */
  lemma {:induction false} DialledIsLatestSyn(h: seq<Event>, port: u16, d: Dest)
    ensures Dialled(h, port) == Some(d)
       <==> exists i ::
              && 0 <= i < |h| && h[i].Segment? && h[i].syn && h[i].port == port && h[i].redirected && h[i].dest == d
              && forall j :: i < j < |h| ==> !Ends(h[j], port)
  {
    if h != [] {
      var n := |h| - 1;
      var before := h[..n];
      DialledIsLatestSyn(before, port, d);
      if !Ends(h[n], port) {
        assert Dialled(h, port) == Dialled(before, port);
        assert forall i :: 0 <= i < n ==> before[i] == h[i];
        if Dialled(before, port) == Some(d) {
          var i :| 0 <= i < n && before[i].Segment? && before[i].syn && before[i].port == port && before[i].redirected
                   && before[i].dest == d && forall j :: i < j < n ==> !Ends(before[j], port);
          assert h[i].Segment?;
        }
      }
    }
  }

  /** Event e ends the port's flow or puts a new one in its place; a SYN that repeats its flow does not. */
  predicate Replaces(e: Event, port: u16) {
    e.Reset? || (e.syn && (e.evicted == Some(port) || (e.port == port && (e.opens || !e.redirected))))
  }

  /** Which event opened the flow the port has now. */
  ghost function Born(h: seq<Event>, port: u16): (b: Option<nat>)
    ensures b.Some? ==> b.value < |h|
  {
    if h == [] then None
    else
      var n := |h| - 1;
      if !Replaces(h[n], port) then Born(h[..n], port)
      else if h[n].Segment? && h[n].port == port && h[n].opens then Some(n)
      else None
  }

  /** A flow present after n events is still the port's flow exactly if nothing has replaced it since. */
  lemma {:induction false} BornStays(h: seq<Event>, n: nat, port: u16)
    requires n <= |h| && Born(h[..n], port).Some?
    ensures Born(h, port) == Born(h[..n], port) <==> forall j :: n <= j < |h| ==> !Replaces(h[j], port)
    ensures Born(h, port) != Born(h[..n], port) ==> Born(h, port).None? || Born(h, port).value >= n
    decreases |h|
  {
    if n == |h| {
      assert h[..n] == h;
    } else {
      var m := |h| - 1;
      assert h[..m][..n] == h[..n];
      BornStays(h[..m], n, port);
      assert forall j :: n <= j < m ==> h[..m][j] == h[j];
    }
  }

  // ---------------------------------------------------------------- table

  predicate LiveAt(fs: seq<Flow>, i: int, port: u16) {
    0 <= i < |fs| && fs[i].state != Free && fs[i].phonePort == port
  }

  /** At most one live entry per phone port, each on the relay port of its web port. */
  ghost predicate TableOk(fs: seq<Flow>) {
    && (forall i, j :: 0 <= i < j < |fs| && fs[i].state != Free && fs[j].state != Free
                       ==> fs[i].phonePort != fs[j].phonePort)
    && (forall i :: 0 <= i < |fs| && fs[i].state != Free
                    ==> WebPort(fs[i].origPort) && fs[i].relayPort == RelayPort(fs[i].origPort))
  }

  /** The live entries are exactly the connections the history says are redirected. */
  ghost predicate Refines(fs: seq<Flow>, h: seq<Event>) {
    && (forall i :: 0 <= i < |fs| && fs[i].state != Free ==> Dialled(h, fs[i].phonePort) == Some(fs[i].Dialled()))
    && (forall port: u16 :: Dialled(h, port).Some? ==> exists i :: LiveAt(fs, i, port))
  }

  /** born names, for each live entry, the event that opened its flow. */
  ghost predicate Owned(fs: seq<Flow>, born: seq<nat>, h: seq<Event>) {
    && |born| == |fs|
    && (forall i :: 0 <= i < |fs| && fs[i].state != Free ==> Born(h, fs[i].phonePort) == Some(born[i]))
    && (forall port: u16 :: Born(h, port).Some? ==> exists i :: LiveAt(fs, i, port))
  }

  predicate Idle(f: Flow, now: u32) { f.state == Active && Age(now, f.stamp) > IDLE_MS }

  /** An active flow is idle exactly when it has not been used for two minutes, whatever the 32-bit clock shows. */
  lemma IdleExactly(f: Flow, used: nat, now: nat)
    requires f.state == Active && f.stamp == used % 0x1_0000_0000 && used <= now < used + 0x1_0000_0000
    ensures Idle(f, now % 0x1_0000_0000) <==> now - used > 120000
  {
    assert (Age(now % 0x1_0000_0000, f.stamp) - (now - used)) % 0x1_0000_0000 == 0;
  }

  /** The slot rule: any free slot, else the closed one of greatest age, else the oldest idle one, else none.
      A flow active within IDLE_MS is never chosen. */
  ghost predicate SlotRule(fs: seq<Flow>, now: u32, r: int) {
    if exists i :: 0 <= i < |fs| && fs[i].state == Free then
      0 <= r < |fs| && fs[r].state == Free
    else if exists i :: 0 <= i < |fs| && fs[i].state == Closed then
      0 <= r < |fs| && fs[r].state == Closed
      && forall i :: 0 <= i < |fs| && fs[i].state == Closed ==> Age(now, fs[i].stamp) <= Age(now, fs[r].stamp)
    else if exists i :: 0 <= i < |fs| && Idle(fs[i], now) then
      0 <= r < |fs| && Idle(fs[r], now)
      && forall i :: 0 <= i < |fs| && Idle(fs[i], now) ==> Age(now, fs[i].stamp) <= Age(now, fs[r].stamp)
    else r == -1
  }

  /** A port that loses its slot: no slot was free, and its flow was closed, or idle with none closed. */
  ghost predicate EvictionFair(fs: seq<Flow>, port: u16, now: u32) {
    && (exists i :: LiveAt(fs, i, port))
    && (forall i :: 0 <= i < |fs| ==> fs[i].state != Free)
    && (forall i :: LiveAt(fs, i, port) ==>
          fs[i].state == Closed || (Idle(fs[i], now) && forall j :: 0 <= j < |fs| ==> fs[j].state == Active))
  }

  /** The port already has an active flow to this destination: the SYN is a retransmission. */
  ghost predicate Repeats(fs: seq<Flow>, port: u16, dest: Dest) {
    exists i :: LiveAt(fs, i, port) && fs[i].state == Active && fs[i].Dialled() == dest
  }

  /** Flows of ports other than the segment's own and the evicted one are untouched. */
  ghost predicate OthersKept(before: seq<Flow>, after: seq<Flow>, e: Event)
    requires e.Segment? && |before| == |after|
  {
    && (forall k :: (0 <= k < |before| && before[k].state != Free && before[k].phonePort != e.port
                     && e.evicted != Some(before[k].phonePort)) ==> after[k] == before[k])
    && (forall k :: 0 <= k < |after| && after[k].state != Free && after[k].phonePort != e.port
              ==> after[k] == before[k] && e.evicted != Some(after[k].phonePort))
  }

  /** A segment that leaves the other ports' flows alone, and the own flow at index i if it matched,
      keeps the table in step with the history. */
  lemma RefinesStep(before: seq<Flow>, after: seq<Flow>, h: seq<Event>, e: Event, i: int)
    requires TableOk(before) && Refines(before, h) && |before| == |after| && e.Segment?
    requires OthersKept(before, after, e)
    requires forall k :: LiveAt(after, k, e.port)
               ==> if e.syn then e.redirected && after[k].Dialled() == e.dest
                   else LiveAt(before, k, e.port) && after[k].Dialled() == before[k].Dialled()
    requires e.syn && e.redirected ==> LiveAt(after, i, e.port)
    requires !e.syn ==> e.evicted.None? && forall k :: LiveAt(before, k, e.port) ==> LiveAt(after, k, e.port)
    ensures Refines(after, h + [e])
  {
    assert (h + [e])[..|h|] == h;
    forall port: u16 | Dialled(h + [e], port).Some?
      ensures exists k :: LiveAt(after, k, port)
    {
      if e.syn && e.port == port {
        assert LiveAt(after, i, port);
      } else {
        assert Dialled(h, port).Some?;
        var k :| LiveAt(before, k, port);
        assert LiveAt(after, k, port);
      }
    }
  }

  /** What a web segment does to the table. */
  ghost predicate Outcome(before: seq<Flow>, after: seq<Flow>, h: seq<Event>, e: Event, intercept: bool, now: u32)
    requires e.Segment? && |before| == |after|
  {
    // a segment that opens no connection follows the latest SYN of its port
    && (!e.syn ==> (e.redirected <==> Dialled(h, e.port) == Some(e.dest)))
    // a SYN passes through unredirected exactly when it repeats no active connection and there is
    // nowhere to send it, or every slot is held by a fresh active flow of another port
    && (e.syn ==> (!e.redirected <==>
          && !Repeats(before, e.port, e.dest)
          && (!intercept || forall i :: 0 <= i < |before| ==>
                before[i].state == Active && !Idle(before[i], now) && before[i].phonePort != e.port)))
    && (e.redirected ==> exists i :: LiveAt(after, i, e.port) && after[i].Dialled() == e.dest && after[i].stamp == now
                                     && (e.syn ==> after[i].state == Active))
    && (e.opens <==> e.syn && e.redirected && !Repeats(before, e.port, e.dest))
    && (e.evicted.Some? ==> intercept && e.redirected && e.evicted.value != e.port
                            && EvictionFair(before, e.evicted.value, now))
    && OthersKept(before, after, e)
    && TableOk(after) && Refines(after, h + [e])
  }

  /** The same segment keeps each live entry's birth known. */
  lemma OwnedStep(before: seq<Flow>, after: seq<Flow>, born: seq<nat>, born': seq<nat>, h: seq<Event>, e: Event)
    requires Owned(before, born, h) && |before| == |after| == |born'| && e.Segment? && OthersKept(before, after, e)
    requires forall k :: 0 <= k < |born| && !LiveAt(after, k, e.port) ==> born'[k] == born[k]
    requires forall k :: LiveAt(after, k, e.port)
               ==> if e.opens then born'[k] == |h| else LiveAt(before, k, e.port) && born'[k] == born[k]
    requires e.opens ==> e.syn && exists k :: LiveAt(after, k, e.port)
    requires e.syn && !e.redirected ==> forall k :: !LiveAt(after, k, e.port)
    requires !(e.syn && !e.redirected) && !e.opens ==>
               forall k :: LiveAt(before, k, e.port) ==> LiveAt(after, k, e.port)
    requires e.evicted.Some? ==> e.opens && e.evicted != Some(e.port)
    ensures Owned(after, born', h + [e])
  {
    var g := h + [e];
    assert g[..|h|] == h;
    forall port: u16 | Born(g, port).Some?
      ensures exists k :: LiveAt(after, k, port)
    {
      if !Replaces(e, port) {
        assert Born(h, port).Some?;
        var k :| LiveAt(before, k, port);
        assert port != e.port ==> after[k] == before[k];
        assert LiveAt(after, k, port);
      }
    }
    forall i | 0 <= i < |after| && after[i].state != Free
      ensures Born(g, after[i].phonePort) == Some(born'[i])
    {
      if after[i].phonePort == e.port {
        assert LiveAt(after, i, e.port);
      }
    }
  }

  /** The port's live entry, if any, is now closed and stamped; every other is as it was. */
  ghost predicate ClosedAt(before: seq<Flow>, after: seq<Flow>, port: u16, now: u32) {
    |before| == |after| && forall i :: 0 <= i < |before| ==>
      after[i] == if LiveAt(before, i, port) then before[i].(state := Closed, stamp := now) else before[i]
  }

  /** The relay may take a connection of this port: its flow is active and on this relay port. */
  ghost predicate Expected(fs: seq<Flow>, phonePort: u16, relayPort: u16) {
    exists i :: LiveAt(fs, i, phonePort) && fs[i].state == Active && fs[i].relayPort == relayPort
  }

  ghost predicate Replaced(h: seq<Event>, n: nat, port: u16) {
    exists j :: n <= j < |h| && Replaces(h[j], port)
  }

  /** The port's live entry is the flow that event b opened. */
  ghost predicate HasFlow(fs: seq<Flow>, born: seq<nat>, port: u16, b: nat)
    requires |born| == |fs|
  {
    exists i :: LiveAt(fs, i, port) && born[i] == b
  }

  /** The flow a port had after n events is still its entry exactly if no event since opened another one on the
      port, let a SYN of it pass, took its slot or reset the table. */
  lemma OwnFlow(fs: seq<Flow>, born: seq<nat>, h: seq<Event>, n: nat, port: u16)
    requires Owned(fs, born, h) && n <= |h| && Born(h[..n], port).Some?
    ensures HasFlow(fs, born, port, Born(h[..n], port).value) <==> !Replaced(h, n, port)
  {
    BornStays(h, n, port);
    if !Replaced(h, n, port) {
      var i :| LiveAt(fs, i, port);
      assert born[i] == Born(h[..n], port).value;
    }
  }

  lemma OwnedLength(fs: seq<Flow>, born: seq<nat>, h: seq<Event>)
    requires Owned(fs, born, h)
    ensures |born| == |fs|
  {
  }

  lemma OutcomeKeeps(before: seq<Flow>, after: seq<Flow>, h: seq<Event>, e: Event, intercept: bool, now: u32)
    requires e.Segment? && |before| == |after| && Outcome(before, after, h, e, intercept, now)
    ensures TableOk(after) && Refines(after, h + [e])
  {
    hide TableOk, Refines;
  }

  /** The segment belongs to the live flow at i and keeps it. */
  lemma KeepsFlow(before: seq<Flow>, born: seq<nat>, h: seq<Event>, e: Event, intercept: bool, now: u32, i: int)
    requires TableOk(before) && Refines(before, h) && e.Segment? && e.redirected && !e.opens && e.evicted.None?
    requires LiveAt(before, i, e.port) && before[i].Dialled() == e.dest && (e.syn ==> before[i].state == Active)
    requires Owned(before, born, h)
    ensures Outcome(before, before[i := before[i].(stamp := now)], h, e, intercept, now)
    ensures Owned(before[i := before[i].(stamp := now)], born, h + [e])
  {
    hide Owned;
    var after := before[i := before[i].(stamp := now)];
    assert LiveAt(after, i, e.port);
    RefinesStep(before, after, h, e, i);
    OwnedLength(before, born, h);
    OwnedStep(before, after, born, born, h, e);
  }

  /** No flow is kept or made: a port with no matching flow, or a SYN that lost its old one. */
  lemma PassesThrough(before: seq<Flow>, after: seq<Flow>, born: seq<nat>, h: seq<Event>, e: Event, intercept: bool,
                      now: u32, i: int)
    requires TableOk(before) && Refines(before, h) && e.Segment? && !e.redirected && !e.opens && e.evicted.None?
    requires i == -1 || LiveAt(before, i, e.port)
    requires i == -1 ==> forall k :: !LiveAt(before, k, e.port)
    requires i >= 0 ==> before[i].Dialled() != e.dest || (e.syn && before[i].state == Closed)
    requires after == if e.syn && i >= 0 then before[i := before[i].(state := Free)] else before
    requires e.syn && intercept ==>
               i == -1 && forall k :: 0 <= k < |before| ==> before[k].state == Active && !Idle(before[k], now)
    requires Owned(before, born, h)
    ensures Outcome(before, after, h, e, intercept, now) && Owned(after, born, h + [e])
  {
    hide Owned;
    RefinesStep(before, after, h, e, -1);
    OwnedLength(before, born, h);
    OwnedStep(before, after, born, born, h, e);
    if i == -1 {
      assert forall k :: 0 <= k < |before| && before[k].phonePort == e.port ==> before[k].state == Free by {
        assert forall k :: 0 <= k < |before| ==> !LiveAt(before, k, e.port);
      }
    }
  }

  /** before, with the flow at i freed if there is one. */
  ghost function Released(before: seq<Flow>, i: int): seq<Flow>
    requires -1 <= i < |before|
  {
    if i >= 0 then before[i := before[i].(state := Free)] else before
  }

  /** Preconditions shared by the lemmas about a SYN that opens a flow in slot j. */
  ghost predicate Opening(before: seq<Flow>, after: seq<Flow>, e: Event, now: u32, i: int, j: int) {
    && TableOk(before) && e.Segment? && e.redirected && e.opens && e.syn && WebPort(e.dest.port)
    && -1 <= i < |before| && 0 <= j < |before|
    && (i >= 0 ==> LiveAt(before, i, e.port))
    && (i == -1 ==> forall k :: 0 <= k < |before| ==> !LiveAt(before, k, e.port))
    && SlotRule(Released(before, i), now, j)
    && e.evicted == (if Released(before, i)[j].state == Free then None else Some(before[j].phonePort))
    && after == Released(before, i)[j := Flow(Active, e.port, RelayPort(e.dest.port), e.dest.port, e.dest.ip, now)]
  }

  lemma OpeningTable(before: seq<Flow>, after: seq<Flow>, e: Event, now: u32, i: int, j: int)
    requires Opening(before, after, e, now, i, j)
    ensures TableOk(after) && OthersKept(before, after, e)
    ensures forall k :: LiveAt(after, k, e.port) ==> k == j
  {
    var mid := Released(before, i);
    forall k | 0 <= k < |mid| && mid[k].state != Free
      ensures mid[k].phonePort != e.port
    {
      assert k == i || !LiveAt(before, k, e.port);
    }
  }

  lemma ReleasedIsTaken(before: seq<Flow>, port: u16, i: int, j: int, now: u32)
    requires 0 <= i < |before| && LiveAt(before, i, port) && SlotRule(Released(before, i), now, j)
    ensures 0 <= j < |before| && Released(before, i)[j].state == Free
  {
    assert Released(before, i)[i].state == Free;
  }

  lemma OpeningEviction(before: seq<Flow>, after: seq<Flow>, e: Event, now: u32, i: int, j: int)
    requires Opening(before, after, e, now, i, j) && e.evicted.Some?
    ensures e.evicted.value != e.port && EvictionFair(before, e.evicted.value, now)
  {
    if i >= 0 {
      ReleasedIsTaken(before, e.port, i, j, now);
      assert false;
    }
    assert LiveAt(before, j, e.evicted.value);
    assert !LiveAt(before, j, e.port);
  }

  /** A SYN makes a new flow in slot j, after the port's old flow (at i, if any) was freed. */
  lemma OpensFlow(before: seq<Flow>, after: seq<Flow>, born: seq<nat>, h: seq<Event>, e: Event, now: u32,
                  i: int, j: int)
    requires Opening(before, after, e, now, i, j) && Refines(before, h)
    requires i >= 0 ==> before[i].Dialled() != e.dest || before[i].state == Closed
    requires Owned(before, born, h)
    ensures Outcome(before, after, h, e, true, now)
    ensures |born| == |before| && Owned(after, born[j := |h|], h + [e])
  {
    hide Owned;
    OpeningTable(before, after, e, now, i, j);
    if e.evicted.Some? {
      OpeningEviction(before, after, e, now, i, j);
    }
    assert LiveAt(after, j, e.port);
    RefinesStep(before, after, h, e, j);
    OwnedLength(before, born, h);
    OwnedStep(before, after, born, born[j := |h|], h, e);
    SlotAvailable(before, e.port, i, j, now);
  }

  /** If the slot rule finds a slot, not every slot is held by a fresh active flow of another port. */
  lemma SlotAvailable(before: seq<Flow>, port: u16, i: int, j: int, now: u32)
    requires -1 <= i < |before| && 0 <= j < |before| && (i >= 0 ==> LiveAt(before, i, port))
    requires SlotRule(Released(before, i), now, j)
    ensures exists k :: 0 <= k < |before|
              && !(before[k].state == Active && !Idle(before[k], now) && before[k].phonePort != port)
  {
    if i >= 0 {
      assert before[i].phonePort == port;
    }
  }

  /** A segment the input hook looks at. */
  predicate Interesting(p: seq<byte>, fromPpp: bool) {
    fromPpp && TcpHeaders(p).Some? && Address(p, 12) == PHONE && Address(p, 16) != GATEWAY
    && WebPort(Port(p, TcpHeaders(p).value + 2))
  }

  /** What a packet at the input hook does to the table: one it looks at goes down in the history, any other does
      nothing. */
  ghost predicate Noted(before: seq<Flow>, after: seq<Flow>, h: seq<Event>, h': seq<Event>, q: seq<byte>, open: bool,
                        now: u32)
  {
    if !Interesting(q, true) then after == before && h' == h
    else
      var hl := TcpHeaders(q).value;
      && |before| == |after| && |h'| == |h| + 1 && h'[..|h|] == h
      && var e := h'[|h|];
         && e.Segment? && Outcome(before, after, h, e, IsSyn(q, hl) && open, now)
         && e == Segment(Port(q, hl), Dest(Address(q, 16), Port(q, hl + 2)), IsSyn(q, hl), e.redirected, e.opens,
                         e.evicted)
  }

  /** In the packet's own bytes: from 192.168.7.2, not to 192.168.7.1, to port 80 or 443. */
  lemma InterestingExactly(p: seq<byte>, hl: nat)
    requires TcpHeaders(p) == Some(hl)
    ensures Interesting(p, true)
       <==> p[12..16] == [192, 168, 7, 2] && p[16..20] != [192, 168, 7, 1] && p[hl + 2..hl + 4] in {[0, 80], [1, 187]}
    ensures !Interesting(p, false)
  {
    hide TcpHeaders;
    assert p[12..16] == [p[12], p[13], p[14], p[15]] && p[16..20] == [p[16], p[17], p[18], p[19]];
    assert p[hl + 2..hl + 4] == [p[hl + 2], p[hl + 3]];
  }

  /** The relay sees a redirected segment addressed to itself, still coming from the phone, with the
      checksum verdicts of the original. */
  lemma {:induction false} RedirectedSegment(p: seq<byte>, hl: nat, rest: seq<byte>)
    requires TcpHeaders(p) == Some(hl) && WebPort(Port(p, hl + 2))
    ensures var seen := Readdressed(p, hl, 16, hl + 2, GATEWAY, RelayPort(Port(p, hl + 2)));
            && Address(seen, 12) == Address(p, 12) && Port(seen, hl) == Port(p, hl)
            && Address(seen, 16) == GATEWAY
            && (Port(seen, hl + 2) == 3080 <==> Port(p, hl + 2) == 80)
            && (Port(seen, hl + 2) == 3443 <==> Port(p, hl + 2) == 443)
            && (IpChecksumOk(seen, hl) <==> IpChecksumOk(p, hl))
            && (TcpChecksumOk(seen, rest, hl) <==> TcpChecksumOk(p, rest, hl))
  {
    hide Readdressed, IpChecksumOk, TcpChecksumOk, TcpHeaders;
    ReaddressedIpChecksum(p, hl, 16, hl + 2, GATEWAY, RelayPort(Port(p, hl + 2)));
    ReaddressedTcpChecksum(p, rest, hl, 16, hl + 2, GATEWAY, RelayPort(Port(p, hl + 2)));
  }

  /** The packet is a reply of the relay to a connection it was redirected for. */
  ghost predicate Restored(h: seq<Event>, p: seq<byte>) {
    TcpHeaders(p).Some?
    && var hl := TcpHeaders(p).value;
       var dialled := Dialled(h, Port(p, hl + 2));
       && Port(p, hl) in {RELAY_HTTP_PORT, RELAY_TLS_PORT} && dialled.Some?
       && RelayPort(dialled.value.port) == Port(p, hl)
  }

  /** The port's active flow, if any, was used just now; every other is as it was. */
  ghost predicate Stamped(before: seq<Flow>, after: seq<Flow>, port: u16, now: u32) {
    |before| == |after| && forall k :: 0 <= k < |before| ==>
      var f := before[k];
      after[k] == if f.state == Active && f.phonePort == port then f.(stamp := now) else f
  }

  /** What a packet on its way to the phone does to the table. */
  ghost predicate Passed(before: seq<Flow>, after: seq<Flow>, h: seq<Event>, p: seq<byte>, now: u32) {
    if Restored(h, p) then Stamped(before, after, Port(p, TcpHeaders(p).value + 2), now) else after == before
  }

  /** The live entry decides: its relay port is the port the reply comes from. */
  lemma RestoredExactly(fs: seq<Flow>, h: seq<Event>, p: seq<byte>, hl: nat, port: u16, i: int)
    requires TableOk(fs) && Refines(fs, h) && TcpHeaders(p) == Some(hl)
    requires Port(p, hl) in {RELAY_HTTP_PORT, RELAY_TLS_PORT} && port == Port(p, hl + 2)
    requires i == -1 || LiveAt(fs, i, port)
    requires i == -1 ==> forall k :: !LiveAt(fs, k, port)
    ensures Restored(h, p) <==> i >= 0 && fs[i].relayPort == Port(p, hl)
    ensures i >= 0 ==> Dialled(h, port) == Some(fs[i].Dialled())
    ensures i >= 0 ==> forall k :: 0 <= k < |fs| && fs[k].state == Active && fs[k].phonePort == port ==> k == i
  {
    hide TcpHeaders, Port;
    if i == -1 {
      assert Dialled(h, port).None?;
    }
  }

  /** The phone sees the relay's reply come from the address and port it dialled. */
  lemma {:induction false} RestoredReply(reply: seq<byte>, hl: nat, rest: seq<byte>, dialled: Dest)
    requires TcpHeaders(reply) == Some(hl)
    ensures var back := Readdressed(reply, hl, 12, hl, dialled.ip, dialled.port);
            && Dest(Address(back, 12), Port(back, hl)) == dialled
            && Address(back, 16) == Address(reply, 16) && Port(back, hl + 2) == Port(reply, hl + 2)
            && (IpChecksumOk(back, hl) <==> IpChecksumOk(reply, hl))
            && (TcpChecksumOk(back, rest, hl) <==> TcpChecksumOk(reply, rest, hl))
  {
    hide Readdressed, IpChecksumOk, TcpChecksumOk, TcpHeaders;
    ReaddressedIpChecksum(reply, hl, 12, hl, dialled.ip, dialled.port);
    ReaddressedTcpChecksum(reply, rest, hl, 12, hl, dialled.ip, dialled.port);
  }

  class Table {
    const flows: array<Flow>
    ghost var hist: seq<Event>
    /** For each slot, the event that opened the flow last put there. */
    ghost var born: seq<nat>

    ghost predicate Valid()
      reads this, flows
    {
      flows.Length == FLOW_MAX && TableOk(flows[..]) && Refines(flows[..], hist) && Owned(flows[..], born, hist)
    }

    constructor ()
      ensures Valid() && fresh(flows) && hist == []
    {
      flows := new Flow[FLOW_MAX](_ => ZERO_FLOW);
      hist, born := [], seq(FLOW_MAX, _ => 0);
    }

    /** proxy_attach_netif: forget every flow. */
    method Clear()
      requires Valid()
      modifies this, flows
      ensures Valid() && hist == old(hist) + [Reset]
      ensures forall i :: 0 <= i < FLOW_MAX ==> flows[i].state == Free
    {
      for i := 0 to FLOW_MAX
        invariant hist == old(hist) && born == old(born)
        invariant forall j :: 0 <= j < i ==> flows[j] == ZERO_FLOW
      {
        flows[i] := ZERO_FLOW;
      }
      hist := hist + [Reset];
    }

    /** flow_find */
    method Find(port: u16) returns (r: int)
      requires flows.Length == FLOW_MAX
      ensures r == -1 || LiveAt(flows[..], r, port)
      ensures r == -1 ==> forall i :: !LiveAt(flows[..], i, port)
    {
      for i := 0 to FLOW_MAX
        invariant forall j :: 0 <= j < i ==> !LiveAt(flows[..], j, port)
      {
        if flows[i].state != Free && flows[i].phonePort == port {
          return i;
        }
      }
      return -1;
    }

    /** flow_slot */
    method Slot(now: u32) returns (r: int)
      requires flows.Length == FLOW_MAX
      ensures SlotRule(flows[..], now, r)
    {
      var closed, idle := -1, -1;
      for i := 0 to FLOW_MAX
        invariant forall j :: 0 <= j < i ==> flows[j].state != Free
        invariant -1 <= closed < i && -1 <= idle < i
        invariant closed >= 0 ==> flows[closed].state == Closed
        invariant idle >= 0 ==> Idle(flows[idle], now)
        invariant forall j :: 0 <= j < i && flows[j].state == Closed
                    ==> closed >= 0 && Age(now, flows[j].stamp) <= Age(now, flows[closed].stamp)
        invariant forall j :: 0 <= j < i && Idle(flows[j], now)
                    ==> idle >= 0 && Age(now, flows[j].stamp) <= Age(now, flows[idle].stamp)
      {
        var f := flows[i];
        if f.state == Free {
          return i;
        }
        var age := Age(now, f.stamp);
        if f.state == Closed {
          if closed == -1 || age > Age(now, flows[closed].stamp) { closed := i; }
        } else if age > IDLE_MS {
          if idle == -1 || age > Age(now, flows[idle].stamp) { idle := i; }
        }
      }
      return if closed >= 0 then closed else idle;
    }

    /** flow_lookup: the relay asks where a connection it just accepted was going. */
    method Lookup(phonePort: u16, relayPort: u16) returns (r: Option<Dest>)
      requires Valid()
      ensures r.Some? ==> Dialled(hist, phonePort) == r && Born(hist, phonePort).Some?
                          && r.value.port == (if relayPort == 3443 then 443 else 80)
      ensures r.Some? <==> Expected(flows[..], phonePort, relayPort)
    {
      var i := Find(phonePort);
      if i >= 0 && flows[i].state == Active && flows[i].relayPort == relayPort {
        return Some(flows[i].Dialled());
      }
      return None;
    }

    /** flow_mark_closed: by phone port alone, so it hits whatever flow the port has now. */
    method MarkClosed(phonePort: u16, now: u32)
      requires Valid()
      modifies flows
      ensures Valid()
      ensures ClosedAt(old(flows[..]), flows[..], phonePort, now)
      // for a session accepted after n events, it closes that session's own flow exactly if nothing replaced it
      ensures |born| == FLOW_MAX
      ensures forall n: nat :: n <= |hist| && Born(hist[..n], phonePort).Some? ==>
                (HasFlow(old(flows[..]), born, phonePort, Born(hist[..n], phonePort).value)
                 <==> !Replaced(hist, n, phonePort))
    {
      ghost var before := flows[..];
      forall n: nat | n <= |hist| && Born(hist[..n], phonePort).Some?
        ensures HasFlow(before, born, phonePort, Born(hist[..n], phonePort).value) <==> !Replaced(hist, n, phonePort)
      {
        OwnFlow(before, born, hist, n, phonePort);
      }
      hide Born, HasFlow, Replaced;
      var i := Find(phonePort);
      if i >= 0 {
        flows[i] := flows[i].(state := Closed, stamp := now);
      }
      assert forall k, port :: LiveAt(before, k, port) ==> LiveAt(flows[..], k, port);
    }

    /** Put a new flow of a port that has none in the slot the rule gives, if any. */
    method Take(sport: u16, dest: Dest, now: u32) returns (i: int, ghost evicted: Option<u16>)
      requires flows.Length == FLOW_MAX && TableOk(flows[..]) && WebPort(dest.port)
      requires forall k :: 0 <= k < FLOW_MAX && flows[k].state != Free ==> flows[k].phonePort != sport
      modifies flows
      ensures TableOk(flows[..])
      ensures i == -1 <==> forall k :: 0 <= k < FLOW_MAX ==> old(flows[k]).state == Active && !old(Idle(flows[k], now))
      ensures i == -1 ==> flows[..] == old(flows[..]) && evicted.None?
      ensures i != -1 ==>
                var was := old(flows[..]);
                && 0 <= i < FLOW_MAX && SlotRule(was, now, i)
                && flows[..] == was[i := Flow(Active, sport, RelayPort(dest.port), dest.port, dest.ip, was[i].stamp)]
                && evicted == if was[i].state == Free then None else Some(was[i].phonePort)
    {
      i := Slot(now);
      evicted := None;
      if i >= 0 {
        evicted := if flows[i].state == Free then None else Some(flows[i].phonePort);
        flows[i] := Flow(Active, sport, RelayPort(dest.port), dest.port, dest.ip, flows[i].stamp);
      }
    }

    /** The table part of the input hook, run with the table locked. */
    method Classify(sport: u16, dest: Dest, syn: bool, intercept: bool, now: u32) returns (match_: bool)
      requires Valid() && WebPort(dest.port) && (intercept ==> syn)
      modifies this, flows
      ensures Valid()
      ensures |hist| == |old(hist)| + 1 && hist[..|old(hist)|] == old(hist)
      ensures var e := hist[|old(hist)|];
              e.Segment? && e == Segment(sport, dest, syn, match_, e.opens, e.evicted)
              && Outcome(old(flows[..]), flows[..], old(hist), e, intercept, now)
    {
      hide Owned, Born, Outcome;
      ghost var before := flows[..];
      ghost var evicted: Option<u16> := None;
      match_ := false;
      var i := Find(sport);
      ghost var found := i;
      var same := i >= 0 && flows[i].Dialled() == dest;
      if syn && i >= 0 && (!same || flows[i].state == Closed) {
        flows[i] := flows[i].(state := Free);
        i := -1;
        same := false;
      }
      ghost var mid := flows[..];
      if same {
        match_ := true;
      } else if intercept {
        i, evicted := Take(sport, dest, now);
        match_ := i >= 0;
      }
      if match_ {
        flows[i] := flows[i].(stamp := now);
      }
      ghost var e := Segment(sport, dest, syn, match_, match_ && !same, evicted);
      if same {
        KeepsFlow(before, born, old(hist), e, intercept, now, found);
        assert flows[..] == before[found := before[found].(stamp := now)];
      } else if match_ {
        assert flows[..] == mid[i := Flow(Active, sport, RelayPort(dest.port), dest.port, dest.ip, now)];
        assert mid == Released(before, found);
        OpensFlow(before, flows[..], born, old(hist), e, now, found, i);
      } else {
        PassesThrough(before, flows[..], born, old(hist), e, intercept, now, found);
      }
      OutcomeKeeps(before, flows[..], hist, e, intercept, now);
      if e.opens {
        born := born[i := |hist|];
      }
      hist := hist + [e];
    }

    /** proxy_ip4_input_hook: redirect a phone packet to the relay, or leave it alone. */
    method InputHook(p: array<byte>, fromPpp: bool, ready: bool, wifiUp: bool, now: u32)
      requires Valid() && p as object != flows
      modifies this, flows, p
      ensures Valid()
      ensures if fromPpp then Noted(old(flows[..]), flows[..], old(hist), hist, old(p[..]), ready && wifiUp, now)
              else hist == old(hist) && flows[..] == old(flows[..])
      ensures var q := old(p[..]);
              if Interesting(q, fromPpp) && hist[|old(hist)|].redirected then
                var hl := TcpHeaders(q).value;
                p[..] == Readdressed(q, hl, 16, hl + 2, GATEWAY, RelayPort(Port(q, hl + 2)))
              else p[..] == q
    {
      hide Outcome;
      ghost var q := p[..];
      if !fromPpp {
        return;
      }
      var headers := TcpHeaders(p[..]);
      if headers.None? {
        return;
      }
      var hl := headers.value;
      var src, dst := Address(p[..], 12), Address(p[..], 16);
      if src != PHONE || dst == GATEWAY {
        return;
      }
      var dport, sport := Port(p[..], hl + 2), Port(p[..], hl);
      if dport != 80 && dport != 443 {
        return;
      }
      var syn := IsSyn(p[..], hl);
      var match_ := Classify(sport, Dest(dst, dport), syn, syn && ready && wifiUp, now);
      assert p[..] == q;
      if match_ {
        RewriteDestination(p, hl, GATEWAY, RelayPort(dport));
      }
    }

    /** proxy_netif_output: what is handed to the link in place of p; None when no memory was left for a copy.
        p itself stays as lwIP wrote it, because lwIP resends it. */
    method Output(p: array<byte>, memory: bool, now: u32) returns (sent: Option<array<byte>>)
      requires Valid() && p as object != flows
      modifies flows
      ensures Valid() && p[..] == old(p[..]) && hist == old(hist)
      // an active flow a reply passes on is in use
      ensures if Restored(hist, p[..])
              then Stamped(old(flows[..]), flows[..], Port(p[..], TcpHeaders(p[..]).value + 2), now)
              else flows[..] == old(flows[..])
      ensures var q := p[..];
              if Restored(hist, q) then
                var hl := TcpHeaders(q).value;
                var dialled := Dialled(hist, Port(q, hl + 2)).value;
                if memory then sent.Some? && fresh(sent.value)
                               && sent.value[..] == Readdressed(q, hl, 12, hl, dialled.ip, dialled.port)
                else sent.None?
              else sent == Some(p)
    {
      hide Owned, Born, Readdressed, Dialled;
      var headers := TcpHeaders(p[..]);
      if headers.None? {
        return Some(p);
      }
      hide TcpHeaders;
      var hl := headers.value;
      var sport := Port(p[..], hl);
      if sport != RELAY_HTTP_PORT && sport != RELAY_TLS_PORT {
        return Some(p);
      }
      var i := Find(Port(p[..], hl + 2));
      RestoredExactly(flows[..], hist, p[..], hl, Port(p[..], hl + 2), i);
      hide Restored, TableOk, Refines, Port;
      if i == -1 || flows[i].relayPort != sport {
        return Some(p);
      }
      var dialled := flows[i].Dialled();
      if flows[i].state == Active {
        Touch(i, now);
      }
      if !memory {
        return None;
      }
      var copy := new byte[p.Length](k requires 0 <= k < p.Length reads p => p[k]);
      assert copy[..] == p[..];
      RewriteSource(copy, hl, dialled.ip, dialled.port);
      return Some(copy);
    }

    method Touch(i: nat, now: u32)
      requires Valid() && i < FLOW_MAX
      modifies flows
      ensures Valid()
      ensures flows[..] == old(flows[..])[i := old(flows[i]).(stamp := now)]
    {
      ghost var before := flows[..];
      flows[i] := flows[i].(stamp := now);
      assert forall k, port :: LiveAt(before, k, port) ==> LiveAt(flows[..], k, port);
    }
  }

  /** A late close: the phone reuses a port while the relay still holds the session of its old connection; the
      close of that session then hits the new flow, and the new connection finds none. */
  method LateCloseHitsNewer(table: Table, port: u16, d1: Dest, d2: Dest, now: u32)
    returns (accepted: Option<Dest>, refused: Option<Dest>)
    requires table.Valid() && table.hist == []
    requires WebPort(d1.port) && WebPort(d2.port) && d1 != d2
    modifies table, table.flows
    ensures table.Valid()
    ensures table.hist == [Segment(port, d1, true, true, true, None), Segment(port, d2, true, true, true, None)]
    ensures accepted == Some(d1) && refused.None?
    ensures Dialled(table.hist, port) == Some(d2) && !Expected(table.flows[..], port, RelayPort(d2.port))
    ensures exists i :: LiveAt(table.flows[..], i, port) && table.flows[i].state == Closed
                        && table.flows[i].Dialled() == d2
  {
    hide Born, Owned, Refines, Outcome, Dialled, Replaced, HasFlow;
    NothingDialled(table);
    assert table.flows[0].state == Free;
    var i := OpenFlow(table, port, d1, now);
    accepted := table.Lookup(port, RelayPort(d1.port));
    assert table.flows[if i == 0 then 1 else 0].state == Free;
    var j := OpenFlow(table, port, d2, now);
    table.MarkClosed(port, now);
    assert LiveAt(table.flows[..], j, port);
    refused := table.Lookup(port, RelayPort(d2.port));
  }

  /** A SYN that repeats no flow of its port, while there is a proxy and a free slot, opens one. */
  method OpenFlow(table: Table, port: u16, d: Dest, now: u32) returns (i: nat)
    requires table.Valid() && WebPort(d.port) && exists k :: 0 <= k < FLOW_MAX && table.flows[k].state == Free
    requires !Repeats(table.flows[..], port, d)
    modifies table, table.flows
    ensures table.Valid() && table.hist == old(table.hist) + [Segment(port, d, true, true, true, None)]
    ensures Dialled(table.hist, port) == Some(d)
    ensures LiveAt(table.flows[..], i, port) && table.flows[i].state == Active && table.flows[i].Dialled() == d
    ensures Expected(table.flows[..], port, RelayPort(d.port))
    ensures forall k :: 0 <= k < FLOW_MAX && table.flows[k].state != Free ==>
              k == i || (table.flows[k] == old(table.flows[k]) && table.flows[k].phonePort != port)
  {
    hide Born, Owned, SlotRule;
    ghost var k :| 0 <= k < FLOW_MAX && table.flows[k].state == Free;
    assert table.flows[..][k].state == Free;
    var redirected := table.Classify(port, d, true, true, now);
    assert redirected;
    assert table.hist == old(table.hist) + [table.hist[|old(table.hist)|]];
    ghost var fs := table.flows[..];
    ghost var w :| LiveAt(fs, w, port) && fs[w].Dialled() == d && fs[w].state == Active;
    var r := table.Find(port);
    assert table.flows[..] == fs;
    i := r;
    assert TableOk(table.flows[..]) && table.flows[i].relayPort == RelayPort(d.port);
  }

  lemma NothingDialled(table: Table)
    requires table.Valid() && table.hist == []
    ensures forall i :: 0 <= i < FLOW_MAX ==> table.flows[i].state == Free
  {
    hide Owned;
    forall i | 0 <= i < FLOW_MAX
      ensures table.flows[i].state == Free
    {
      assert Dialled([], table.flows[i].phonePort).None?;
    }
  }
}
