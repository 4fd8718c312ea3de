/** HCI packets framed in a byte ring that the controller's task fills and the host's task drains. */
module Vhci {
  import opened Bytes

  const HOST_ACL_PACKETS := 20
  const HOST_SCO_PACKETS := 10
  const HOST_EVENT_PACKETS := 4
  const ACL_HEADER := 4
  const SCO_HEADER := 3
  const HOST_ACL_LEN := 1024
  const HOST_SCO_LEN := 60
  const EVENT_BUFFER := 257

  /** The size of the ring: for each packet its length tag, its type byte, header and payload. */
  const STORAGE := HOST_ACL_PACKETS * (2 + 1 + ACL_HEADER + HOST_ACL_LEN)
                   + HOST_SCO_PACKETS * (2 + 1 + SCO_HEADER + HOST_SCO_LEN)
                   + HOST_EVENT_PACKETS * (2 + 1 + EVENT_BUFFER)

  /** A packet as the controller hands it over: its H4 type byte, then the packet; the size is 16-bit. */
  type Packet = p: seq<byte> | 1 <= |p| < 0x1_0000 witness [0]

  function Tag(len: nat): (t: seq<byte>)
    requires len < 0x1_0000
    ensures |t| == 2
  {
    [len % 0x100, len / 0x100]
  }

  /** The bytes of a list of packets, each behind its length. */
  ghost function Frames(ps: seq<Packet>): seq<byte> {
    if ps == [] then [] else Tag(|ps[0]|) + ps[0] + Frames(ps[1..])
  }

  /** The packets the host would read out of these bytes, if it can follow the tags to their end. */
  ghost function Parse(r: seq<byte>): Option<seq<Packet>> {
    if r == [] then Some([])
    else if |r| < 2 then None
    else
      var len := Raw16(r[0], r[1]);
      if len == 0 || |r| < 2 + len then None
      else
        var rest := Parse(r[2 + len..]);
        if rest.None? then None else Some([r[2..2 + len]] + rest.value)
  }

  lemma Empty()
    ensures Frames([]) == [] && Parse([]) == Some([])
  {
  }

  /** The first packet is read off, whatever follows it. */
  lemma ParseOne(p: Packet, rest: seq<byte>)
    ensures Parse(Tag(|p|) + p + rest) == if Parse(rest).None? then None else Some([p] + Parse(rest).value)
  {
    var r := Tag(|p|) + p + rest;
    assert Raw16(r[0], r[1]) == |p|;
    assert r[2..2 + |p|] == p && r[2 + |p|..] == rest;
  }

  lemma {:induction false} ParseFramesThen(ps: seq<Packet>, tail: seq<byte>)
    ensures Parse(Frames(ps) + tail) == if Parse(tail).None? then None else Some(ps + Parse(tail).value)
  {
    hide Parse, Tag;
    if ps == [] {
      assert Frames(ps) + tail == tail;
      assert Parse(tail).Some? ==> ps + Parse(tail).value == Parse(tail).value;
    } else {
      ParseFramesThen(ps[1..], tail);
      ParseOne(ps[0], Frames(ps[1..]) + tail);
      assert Frames(ps) + tail == Tag(|ps[0]|) + ps[0] + (Frames(ps[1..]) + tail);
      assert Parse(tail).Some? ==> ps + Parse(tail).value == [ps[0]] + (ps[1..] + Parse(tail).value);
    }
  }

  /** Framing is unambiguous: the host reads back exactly the packets written. */
  lemma ParseFrames(ps: seq<Packet>)
    ensures Parse(Frames(ps)) == Some(ps)
  {
    hide Frames, Parse;
    Empty();
    ParseFramesThen(ps, []);
    assert Frames(ps) + [] == Frames(ps) && ps + [] == ps;
  }

  lemma FramesHead(p: Packet, ps: seq<Packet>)
    ensures Frames([p] + ps) == Tag(|p|) + p + Frames(ps)
  {
    assert ([p] + ps)[1..] == ps;
  }

  lemma {:induction false} FramesParse(r: seq<byte>)
    requires Parse(r).Some?
    ensures Frames(Parse(r).value) == r
    decreases |r|
  {
    hide Frames;
    if r == [] {
      Empty();
    } else {
      var len := Raw16(r[0], r[1]);
      var p: Packet, rest := r[2..2 + len], r[2 + len..];
      FramesParse(rest);
      FramesHead(p, Parse(rest).value);
      assert r == Tag(len) + p + rest;
    }
  }

  lemma ParseTagged(p: Packet)
    ensures Parse(Tag(|p|) + p) == Some([p])
  {
    hide Parse, Tag;
    Empty();
    ParseOne(p, []);
    assert Tag(|p|) + p + [] == Tag(|p|) + p && [p] + [] == [p];
  }

  /** Packet bytes added behind whole packets are one packet more. */
  lemma ParseAppend(ring: seq<byte>, p: Packet)
    requires Parse(ring).Some?
    ensures Parse(ring + Tag(|p|) + p) == Some(Parse(ring).value + [p])
  {
    hide Parse, Tag, Frames;
    var ps := Parse(ring).value;
    FramesParse(ring);
    ParseTagged(p);
    ParseFramesThen(ps, Tag(|p|) + p);
    assert ring + Tag(|p|) + p == Frames(ps) + (Tag(|p|) + p);
  }

  lemma TornTag(len: nat)
    requires 1 <= len < 0x1_0000
    ensures Parse(Tag(len)).None?
  {
  }

  lemma TornByte(p: Packet)
    requires |p| == 1
    ensures Parse(p).None?
  {
  }

  /** A write into the ring: all or nothing. */
  function Written(ring: seq<byte>, data: seq<byte>): seq<byte> {
    if |ring| + |data| <= STORAGE then ring + data else ring
  }

  /** What host_recv_pkt_cb leaves in the ring. Its space check is against the packet alone. */
  function Received(ring: seq<byte>, p: Packet): seq<byte>
    requires |ring| <= STORAGE
  {
    if STORAGE - |ring| < |p| then ring else Written(Written(ring, Tag(|p|)), p)
  }

  /** A packet that fits behind its tag is taken in whole. */
  lemma ReceivedWhole(ring: seq<byte>, p: Packet)
    requires |ring| <= STORAGE && Parse(ring).Some? && |ring| + 2 + |p| <= STORAGE
    ensures Received(ring, p) == ring + Tag(|p|) + p
    ensures Parse(Received(ring, p)) == Some(Parse(ring).value + [p])
  {
    hide Parse, Tag;
    ParseAppend(ring, p);
  }

  /** The ring stays readable exactly when the packet is dropped by the check or its tag fits too: in the gap of
      two the check passes and the tag or the packet is silently not written. */
  lemma FramingKeptExactlyWhen(ring: seq<byte>, p: Packet)
    requires |ring| <= STORAGE && Parse(ring).Some?
    ensures var free := STORAGE - |ring|;
            Parse(Received(ring, p)).Some? <==> free < |p| || |p| + 2 <= free
  {
    hide Parse, Tag, Frames;
    var free := STORAGE - |ring|;
    if |p| + 2 <= free {
      ReceivedWhole(ring, p);
    } else if |p| <= free {
      var ps := Parse(ring).value;
      FramesParse(ring);
      if free >= 2 {
        TornTag(|p|);
        ParseFramesThen(ps, Tag(|p|));
      } else {
        TornByte(p);
        ParseFramesThen(ps, p);
      }
    }
  }

  datatype Kind = Acl | Sco | Event

  function KindOf(p: Packet): Option<Kind> {
    if p[0] == 2 then Some(Acl) else if p[0] == 3 then Some(Sco) else if p[0] == 4 then Some(Event) else None
  }

  function MaxSize(k: Kind): nat {
    match k
    case Acl => 1 + ACL_HEADER + HOST_ACL_LEN
    case Sco => 1 + SCO_HEADER + HOST_SCO_LEN
    case Event => 1 + EVENT_BUFFER
  }

  function MaxCount(k: Kind): nat {
    match k case Acl => HOST_ACL_PACKETS case Sco => HOST_SCO_PACKETS case Event => HOST_EVENT_PACKETS
  }

  ghost function CountOf(ps: seq<Packet>, k: Kind): nat {
    if ps == [] then 0 else (if KindOf(ps[0]) == Some(k) then 1 else 0) + CountOf(ps[1..], k)
  }

  /** The flow control the host asks of the controller: packets of known kind and size, and no more of them
      unread than the storage was sized for. */
  ghost predicate WithinCredits(ps: seq<Packet>) {
    && (forall p :: p in ps ==> KindOf(p).Some? && |p| <= MaxSize(KindOf(p).value))
    && forall k :: CountOf(ps, k) <= MaxCount(k)
  }

  /** The storage a packet of this kind may take up, tag included. */
  function Slot(k: Kind): nat { 2 + MaxSize(k) }

  lemma SlotSizes()
    ensures Slot(Acl) == 1031 && Slot(Sco) == 66 && Slot(Event) == 260
    ensures STORAGE == 20 * 1031 + 10 * 66 + 4 * 260
  {
  }

  lemma {:induction false} FramesSize(ps: seq<Packet>)
    requires forall p :: p in ps ==> KindOf(p).Some? && |p| <= MaxSize(KindOf(p).value)
    ensures |Frames(ps)| <= 1031 * CountOf(ps, Acl) + 66 * CountOf(ps, Sco) + 260 * CountOf(ps, Event)
  {
    hide Frames, CountOf, KindOf, MaxSize, Tag;
    if ps == [] {
      Empty();
    } else {
      var p, rest := ps[0], ps[1..];
      FramesSize(rest);
      assert [p] + rest == ps;
      FramesHead(p, rest);
      SlotSizes();
      CountStep(ps);
      assert |Frames(ps)| == 2 + |p| + |Frames(rest)|;
      match KindOf(p).value {
        case Acl => assert |p| <= 1029;
        case Sco => assert |p| <= 64;
        case Event => assert |p| <= 258;
      }
    }
  }

  lemma CountStep(ps: seq<Packet>)
    requires ps != []
    ensures forall k :: CountOf(ps, k) == CountOf(ps[1..], k) + if KindOf(ps[0]) == Some(k) then 1 else 0
  {
  }

  /** The storage formula: packets within the credits always fit, tags and all. */
  lemma CreditsFit(ps: seq<Packet>)
    requires WithinCredits(ps)
    ensures |Frames(ps)| <= STORAGE
  {
    hide Frames, CountOf, KindOf;
    FramesSize(ps);
    assert CountOf(ps, Acl) <= MaxCount(Acl) && CountOf(ps, Sco) <= MaxCount(Sco);
    assert CountOf(ps, Event) <= MaxCount(Event);
  }

  /** So one more packet within the credits is never dropped and never lands in the gap. */
  lemma NextFits(ring: seq<byte>, p: Packet)
    requires Parse(ring).Some? && WithinCredits(Parse(ring).value + [p])
    ensures |ring| + 2 + |p| <= STORAGE
  {
    hide Parse, Frames;
    var ps := Parse(ring).value;
    CreditsFit(ps + [p]);
    ParseAppend(ring, p);
    FramesParse(ring + Tag(|p|) + p);
  }

  /** Where the host's task is: not in the callback, in it with no packet in hand, or handling one. */
  datatype Host = Idle | Draining | Handling(packet: Packet)

  /** Both tasks, the ring between them, and what the upper stack has been given. */
  datatype Link = Link(ring: seq<byte>, queued: bool, posting: bool, host: Host, delivered: seq<Packet>)

  /** The atomic sections. The mutex makes a whole receive one of them, and a whole read; the host gives the
      mutex up while a packet is handled. */
  datatype Act =
    | Arrive(packet: Packet)  // host_recv_pkt_cb up to giving the mutex
    | Post                    // and its queueing of the callback
    | Start                   // the run loop takes the callback off its list and calls it
    | Take                    // one packet is read out, or the ring is found empty
    | Handle                  // transport_packet_handler

  const FRESH := Link([], false, false, Idle, [])

  ghost predicate Enabled(l: Link, a: Act) {
    match a
    case Arrive(_) => !l.posting && |l.ring| <= STORAGE
    case Post => l.posting
    case Start => l.queued && l.host.Idle?
    case Take => l.host.Draining? && Parse(l.ring).Some?
    case Handle => l.host.Handling?
  }

  ghost function After(l: Link, a: Act): Link
    requires Enabled(l, a)
  {
    match a
    case Arrive(p) => l.(ring := Received(l.ring, p), posting := STORAGE - |l.ring| >= |p|)
    case Post => l.(posting := false, queued := true)
    case Start => l.(queued := false, host := Draining)
    case Take =>
      if l.ring == [] then l.(host := Idle)
      else
        var len := |Parse(l.ring).value[0]|;
        l.(ring := l.ring[2 + len..], host := Handling(l.ring[2..2 + len]))
    case Handle => l.(host := Draining, delivered := l.delivered + [l.host.packet])
  }

  ghost function InHand(l: Link): seq<Packet> {
    if l.host.Handling? then [l.host.packet] else []
  }

  /** Every packet that arrived has been delivered, is in hand, or is whole in the ring, in order; and while any
      is in the ring somebody is on the way to read it. */
  ghost predicate Orderly(l: Link, arrived: seq<Packet>) {
    && |l.ring| <= STORAGE && Parse(l.ring).Some?
    && l.delivered + InHand(l) + Parse(l.ring).value == arrived
    && (l.ring != [] ==> l.queued || l.posting || !l.host.Idle?)
  }

  /** The controller keeps to the credits. */
  ghost predicate Polite(l: Link, a: Act) {
    a.Arrive? ==> Parse(l.ring).Some? && WithinCredits(Parse(l.ring).value + [a.packet])
  }

  ghost predicate Run(l: Link, acts: seq<Act>)
    decreases |acts|
  {
    acts == [] || (Enabled(l, acts[0]) && Polite(l, acts[0]) && Run(After(l, acts[0]), acts[1..]))
  }

  ghost function RunFrom(l: Link, acts: seq<Act>): Link
    requires Run(l, acts)
    decreases |acts|
  {
    if acts == [] then l else RunFrom(After(l, acts[0]), acts[1..])
  }

  ghost function Arrivals(acts: seq<Act>): seq<Packet> {
    if acts == [] then []
    else ArrivedBy(acts[0]) + Arrivals(acts[1..])
  }

  lemma ArriveKeeps(l: Link, p: Packet, arrived: seq<Packet>)
    requires Orderly(l, arrived) && Enabled(l, Arrive(p)) && Polite(l, Arrive(p))
    ensures Orderly(After(l, Arrive(p)), arrived + [p])
  {
    hide Parse, WithinCredits, Received;
    NextFits(l.ring, p);
    ReceivedWhole(l.ring, p);
    var m, ps := After(l, Arrive(p)), Parse(l.ring).value;
    assert l.delivered + InHand(l) + (ps + [p]) == (l.delivered + InHand(l) + ps) + [p];
  }

  lemma ParseStep(r: seq<byte>)
    requires r != [] && Parse(r).Some?
    ensures var ps := Parse(r).value;
            && ps != [] && 2 + |ps[0]| <= |r| && ps[0] == r[2..2 + |ps[0]|]
            && Parse(r[2 + |ps[0]|..]).Some? && ps == [ps[0]] + Parse(r[2 + |ps[0]|..]).value
  {
  }

  lemma TakeKeeps(l: Link, arrived: seq<Packet>)
    requires Orderly(l, arrived) && Enabled(l, Take)
    ensures Orderly(After(l, Take), arrived)
  {
    hide Parse;
    if l.ring == [] {
      Empty();
    } else {
      ParseStep(l.ring);
      var ps, m := Parse(l.ring).value, After(l, Take);
      assert InHand(l) == [] && l.delivered + [] == l.delivered;
      assert l.delivered + ps == l.delivered + InHand(m) + Parse(m.ring).value;
    }
  }

  lemma HandleKeeps(l: Link, arrived: seq<Packet>)
    requires Orderly(l, arrived) && Enabled(l, Handle)
    ensures Orderly(After(l, Handle), arrived)
  {
    var m := After(l, Handle);
    assert m.delivered + InHand(m) == l.delivered + InHand(l);
  }

  function ArrivedBy(a: Act): seq<Packet> {
    if a.Arrive? then [a.packet] else []
  }

  lemma StepKeeps(l: Link, a: Act, arrived: seq<Packet>)
    requires Orderly(l, arrived) && Enabled(l, a) && Polite(l, a)
    ensures Orderly(After(l, a), arrived + ArrivedBy(a))
  {
    hide Parse, Received, WithinCredits;
    assert arrived + [] == arrived;
    match a {
      case Arrive(p) => ArriveKeeps(l, p, arrived);
      case Take => TakeKeeps(l, arrived);
      case Handle => HandleKeeps(l, arrived);
      case _ =>
    }
  }

  /** In every interleaving of the two tasks, with the controller within its credits: no packet is dropped or
      torn, all arrive in order, and none is left in the ring unattended. */
  lemma {:induction false} EveryRunIsOrderly(l: Link, arrived: seq<Packet>, acts: seq<Act>)
    requires Orderly(l, arrived) && Run(l, acts)
    ensures Orderly(RunFrom(l, acts), arrived + Arrivals(acts))
    decreases |acts|
  {
    hide Orderly, After, Enabled, Polite;
    if acts == [] {
      assert arrived + Arrivals(acts) == arrived;
    } else {
      StepKeeps(l, acts[0], arrived);
      EveryRunIsOrderly(After(l, acts[0]), arrived + ArrivedBy(acts[0]), acts[1..]);
      assert arrived + ArrivedBy(acts[0]) + Arrivals(acts[1..]) == arrived + Arrivals(acts);
    }
  }

  /** The transport object: the same link, changed in place. */
  class Transport {
    var ring: seq<byte>
    var callbackQueued: bool
    var posting: bool
    var host: Host
    ghost var delivered: seq<Packet>

    ghost function View(): Link
      reads this
    {
      Link(ring, callbackQueued, posting, host, delivered)
    }

    constructor ()
      ensures View() == FRESH && Orderly(View(), [])
    {
      ring, callbackQueued, posting, host, delivered := [], false, false, Idle, [];
    }

    /** host_recv_pkt_cb up to giving the mutex back. */
    method ReceivePacket(data: Packet) returns (taken: bool)
      requires Enabled(View(), Arrive(data))
      modifies this
      ensures View() == After(old(View()), Arrive(data))
      ensures taken <==> posting
    {
      var space := STORAGE - |ring|;
      if space < |data| {
        return false;
      }
      ring := Written(ring, Tag(|data|));
      ring := Written(ring, data);
      posting := true;
      return true;
    }

    method PostCallback()
      requires Enabled(View(), Post)
      modifies this
      ensures View() == After(old(View()), Post)
    {
      callbackQueued, posting := true, false;
    }

    method StartCallback()
      requires Enabled(View(), Start)
      modifies this
      ensures View() == After(old(View()), Start)
    {
      callbackQueued, host := false, Draining;
    }

    /** One turn of the loop head of transport_deliver_packets, under the mutex: the tag, then the packet. */
    method TakePacket()
      requires Enabled(View(), Take)
      modifies this
      ensures View() == After(old(View()), Take)
    {
      if ring == [] {
        host := Idle;
        return;
      }
      var tag := ring[..2];
      ring := ring[2..];
      var len := Raw16(tag[0], tag[1]);
      var packet := ring[..len];
      ring := ring[len..];
      host := Handling(packet);
      assert packet == old(ring)[2..2 + len] && ring == old(ring)[2 + len..];
    }

    method HandlePacket()
      requires Enabled(View(), Handle)
      modifies this
      ensures View() == After(old(View()), Handle)
    {
      delivered := delivered + [host.packet];
      host := Draining;
    }

    /** transport_deliver_packets with the controller quiet meanwhile: everything that arrived is delivered. */
    method DeliverPackets(ghost arrived: seq<Packet>)
      requires Orderly(View(), arrived) && Enabled(View(), Start)
      modifies this
      ensures Orderly(View(), arrived) && host.Idle? && ring == [] && delivered == arrived
    {
      StartCallback();
      assert InHand(old(View())) == InHand(View());
      while !host.Idle?
        invariant Orderly(View(), arrived) && !host.Handling? && (host.Idle? ==> ring == [])
        decreases |ring|, if host.Idle? then 0 else 1
      {
        TakeKeeps(View(), arrived);
        TakePacket();
        if host.Handling? {
          HandleKeeps(View(), arrived);
          HandlePacket();
        }
      }
      assert delivered + [] + [] == delivered;
    }
  }
}
