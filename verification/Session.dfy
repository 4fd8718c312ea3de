/** One relay session: buffers, states, and the bytes that pass through it. */
module Session {
  import opened Bytes
  import opened Packet
  import opened Text
  import opened HttpRewrite
  import HttpGrowth
  import Sni

  const UP_SZ := 2048
  const UP_CAP := 2560
  const DOWN_SZ := 1536
  const SETUP_MS := 10000

  /** Result of a non-blocking recv: bytes (none at end of stream), nothing yet, or an error. */
  datatype Received = Got(data: Octets) | NothingYet | RecvError

  /** Result of a non-blocking send: how many bytes were taken, none yet, or an error. */
  datatype Sending = Took(n: nat) | Busy | SendError

  /** Result of a non-blocking connect. */
  datatype Connecting = Connected | InProgress | Refused

  /** Why splice closes a session. */
  datatype Closing = Done | Broken

  datatype Phase = Head | Connect | Reply | Splice

  function After(now: u32, ms: u32): u32 { (now + ms) % 0x1_0000_0000 }

  // ---------------------------------------------------------------- one direction of the splice

  /** What one direction has read, still holds, and has written, since splicing began. */
  datatype Pipe = Pipe(read: Octets, held: Octets, written: Octets, eof: bool)

  datatype Moved = Moved(pipe: Pipe, failed: bool, moved: bool)

  /** One turn: write what is held if the far side is writable; only with nothing held, read. */
  function Turn(p: Pipe, writable: bool, readable: bool, send: Sending, recv: Received): Moved
    requires send.Took? ==> send.n <= |p.held|
  {
    if p.held != [] && writable then
      match send
      case Took(n) => Moved(p.(held := p.held[n..], written := p.written + p.held[..n]), false, n > 0)
      case Busy => Moved(p, false, false)
      case SendError => Moved(p, true, false)
    else if p.held == [] && !p.eof && readable then
      match recv
      case Got(data) => Moved(p.(read := p.read + data, held := data, eof := data == []), false, data != [])
      case NothingYet => Moved(p, false, false)
      case RecvError => Moved(p, true, false)
    else Moved(p, false, false)
  }

  /** Both directions of a splice, whether the proxy's write side is shut, and the idle deadline. */
  datatype Ends = Ends(up: Pipe, down: Pipe, shut: bool, deadline: u32)

  /** One pass of splice: a turn each way, the half-close, the end; and why the session must be closed, if it must. */
  function Spliced(e: Ends, pxWritable: bool, phReadable: bool, sendPx: Sending, recvPh: Received,
                   phWritable: bool, pxReadable: bool, sendPh: Sending, recvPx: Received, now: u32)
    : (Ends, Option<Closing>)
    requires sendPx.Took? ==> sendPx.n <= |e.up.held|
    requires sendPh.Took? ==> sendPh.n <= |e.down.held|
  {
    var u := Turn(e.up, pxWritable, phReadable, sendPx, recvPh);
    var d := Turn(e.down, phWritable, pxReadable, sendPh, recvPx);
    if u.failed then (e.(up := u.pipe), Some(Broken))
    else if d.failed then (e.(up := u.pipe, down := d.pipe), Some(Broken))
    else
      var shut := e.shut || (u.pipe.eof && u.pipe.held == []);
      if d.pipe.eof && d.pipe.held == [] then (Ends(u.pipe, d.pipe, shut, e.deadline), Some(Done))
      else (Ends(u.pipe, d.pipe, shut, if u.moved || d.moved then After(now, IDLE_MS) else e.deadline), None)
  }

  lemma SplicedIs(e: Ends, pxWritable: bool, phReadable: bool, sendPx: Sending, recvPh: Received,
                  phWritable: bool, pxReadable: bool, sendPh: Sending, recvPx: Received, now: u32)
    requires sendPx.Took? ==> sendPx.n <= |e.up.held|
    requires sendPh.Took? ==> sendPh.n <= |e.down.held|
    ensures var u := Turn(e.up, pxWritable, phReadable, sendPx, recvPh);
            var d := Turn(e.down, phWritable, pxReadable, sendPh, recvPx);
            var r := Spliced(e, pxWritable, phReadable, sendPx, recvPh, phWritable, pxReadable, sendPh, recvPx, now);
            && r.1 == (if u.failed || d.failed then Some(Broken)
                       else if d.pipe.eof && d.pipe.held == [] then Some(Done) else None)
            && r.0 == Ends(u.pipe, if u.failed then e.down else d.pipe,
                           e.shut || (r.1 != Some(Broken) && u.pipe.eof && u.pipe.held == []),
                           if r.1.None? && (u.moved || d.moved) then After(now, IDLE_MS) else e.deadline)
  {
    hide Turn;
  }

  /** A pass calls send on what is held for a side that can be written, and recv where nothing is held. */
  predicate Sends(p: Pipe, writable: bool) { p.held != [] && writable }

  predicate Reads(p: Pipe, readable: bool) { p.held == [] && !p.eof && readable }

  /** An error of a call that was made breaks the session; it is done once the proxy has closed and the phone has
      everything; a call that would block does neither. The idle deadline restarts exactly if some byte moved. */
  lemma SpliceEndsExactlyWhen(e: Ends, pxWritable: bool, phReadable: bool, sendPx: Sending, recvPh: Received,
                              phWritable: bool, pxReadable: bool, sendPh: Sending, recvPx: Received, now: u32)
    requires sendPx.Took? ==> sendPx.n <= |e.up.held|
    requires sendPh.Took? ==> sendPh.n <= |e.down.held|
    ensures var (sendsUp, readsUp) := (Sends(e.up, pxWritable), Reads(e.up, phReadable));
            var (sendsDown, readsDown) := (Sends(e.down, phWritable), Reads(e.down, pxReadable));
            var (a, why) := Spliced(e, pxWritable, phReadable, sendPx, recvPh, phWritable, pxReadable, sendPh, recvPx,
                                    now);
            && (why == Some(Broken) <==>
                  || (sendsUp && sendPx == SendError) || (readsUp && recvPh == RecvError)
                  || (sendsDown && sendPh == SendError) || (readsDown && recvPx == RecvError))
            && (why == Some(Done) <==>
                  && why != Some(Broken)
                  && (e.down.eof || (readsDown && recvPx == Got([])))
                  && (e.down.held == [] || (sendsDown && sendPh == Took(|e.down.held|))))
            && (why.None? ==>
                  a.deadline == if || (sendsUp && sendPx.Took? && sendPx.n > 0)
                                   || (sendsDown && sendPh.Took? && sendPh.n > 0)
                                   || (readsUp && recvPh.Got? && recvPh.data != [])
                                   || (readsDown && recvPx.Got? && recvPx.data != [])
                                then After(now, 120000) else e.deadline)
  {
  }

  /** What a turn writes and reads, whatever it does with the bytes in between. */
  lemma TurnMoves(p: Pipe, writable: bool, readable: bool, send: Sending, recv: Received)
    requires send.Took? ==> send.n <= |p.held|
    ensures var a := Turn(p, writable, readable, send, recv).pipe;
            && |a.written| == |p.written| + (if Sends(p, writable) && send.Took? then send.n else 0)
            && a.read == p.read + (if Reads(p, readable) && recv.Got? then recv.data else [])
            && (a.eof <==> p.eof || (Reads(p, readable) && recv == Got([])))
            && p.written <= a.written
  {
  }

  /** Nothing lost, added or reordered: written plus held is exactly start plus read. */
  predicate Conserves(p: Pipe, start: Octets) { p.written + p.held == start + p.read }

  lemma {:induction false} TurnConserves(p: Pipe, start: Octets, writable: bool, readable: bool, send: Sending,
                                         recv: Received)
    requires Conserves(p, start) && (send.Took? ==> send.n <= |p.held|)
    ensures Conserves(Turn(p, writable, readable, send, recv).pipe, start)
  {
    if p.held != [] && writable && send.Took? {
      assert p.held == p.held[..send.n] + p.held[send.n..];
    } else if p.held == [] && !p.eof && readable && recv.Got? {
      assert p.written == start + p.read;
    }
  }

  // ---------------------------------------------------------------- what goes to the proxy first

  const CONNECT: Octets := "CONNECT "
  const PORT_443: Octets := ":443"
  const VERSION: Octets := " HTTP/1.1"
  const HOST_NAME: Octets := "Host: "

  /** The request that opens a tunnel. */
  function ConnectRequest(host: Octets): (r: Octets)
    ensures |host| < HOST_SIZE ==> |r| < 200
  {
    CONNECT + host + PORT_443 + VERSION + CRLF + HOST_NAME + host + PORT_443 + CRLF + CRLF
  }

  /** A phone's first bytes are enough to open a tunnel: a whole record, a full buffer, or no handshake record. */
  ghost predicate HelloReady(first: Octets) {
    5 <= |first| && !(Sni.Byte(first, 0) == 0x16 && |first| < 5 + Sni.Be16(first, 3) && |first| < UP_SZ)
  }

  /** Of a handshake record as a TLS client sends it, the first k bytes are enough once it is all there or the buffer
      is full; of anything else, five. */
  lemma HelloExactly(record: Octets, k: nat)
    requires 5 <= |record| && |record| == 5 + 256 * (record[3] as int) + record[4] as int && k <= |record|
    ensures record[0] as int == 22 ==> (HelloReady(record[..k]) <==> k == |record| || k >= 2048)
    ensures record[0] as int != 22 ==> (HelloReady(record[..k]) <==> k >= 5)
  {
  }

  ghost function TunnelHost(first: Octets, ip: Ip4): (host: Octets)
    ensures |host| < HOST_SIZE
  {
    if Sni.SniOf(first).Some? then Sni.SniOf(first).value else Dotted(ip)
  }

  /** opening is what the proxy must receive for the phone's first bytes, before anything read later:
      the rewritten head and the start of the body, or the CONNECT request and the ClientHello. */
  ghost predicate Opens(tls: bool, first: Octets, ip: Ip4, host: Octets, opening: Octets) {
    if tls then
      HelloReady(first) && host == TunnelHost(first, ip) && opening == ConnectRequest(host) + first
    else
      exists e :: 0 <= e && e + 4 <= |first| && FirstBlank(first, e) && IsHead(first[..e + 4])
                  && Rewritten(first[..e + 4], ip).Some?
                  && host == HostFor(first[..e + 4], RequestLine(first[..e + 4]).value.2 + 2, ip)
                  && opening == Rewritten(first[..e + 4], ip).value + first[e + 4..]
  }

  /** The proxy's answer to CONNECT that starts the splice. */
  const HTTP_1: Octets := "HTTP/1."

  predicate Accepts(reply: Octets) { |reply| >= 12 && reply[..7] == HTTP_1 && reply[9] == '2' }

  /** A status line (section 4 of RFC 9112) opens the tunnel exactly if its code is 2xx; nothing else does that is
      not HTTP/1.x. */
  lemma AcceptsExactly(minor: octet, code: nat, rest: Octets)
    requires 100 <= code < 1000
    ensures var line := "HTTP/1." + [minor] + " " + [Digit(code / 100), Digit(code / 10 % 10), Digit(code % 10)] + rest;
            Accepts(line) <==> 200 <= code < 300
    ensures Accepts(rest) ==> "HTTP/1." <= rest
  {
    var line := "HTTP/1." + [minor] + " " + [Digit(code / 100), Digit(code / 10 % 10), Digit(code % 10)] + rest;
    assert line[..7] == HTTP_1 && line[9] == Digit(code / 100);
  }

  // ---------------------------------------------------------------- the session

  /** What the phone's bytes so far call for. */
  datatype Readiness = Wait | Go | Fail

  /** What the phone's bytes f call for. */
  ghost function Needs(tls: bool, f: Octets, memory: bool): Readiness {
    if tls then if HelloReady(f) then Go else Wait
    else
      var e := BlankIn(f);
      if e == -1 then if |f| >= UP_SZ then Fail else Wait
      else if memory && RequestLine(f[..e + 4]).Some? then Go
      else Fail
  }

  lemma BlankExists(f: Octets)
    ensures exists e :: -1 <= e < |f| && FirstBlank(f, e)
  {
    if exists i :: 0 <= i < |f| && BlankAt(f, i) {
      var i :| 0 <= i < |f| && BlankAt(f, i);
      FirstBefore(f, i);
    } else {
      assert FirstBlank(f, -1);
    }
  }

  lemma FirstBefore(f: Octets, i: int)
    requires BlankAt(f, i)
    ensures exists e :: 0 <= e <= i && FirstBlank(f, e)
    decreases i
  {
    if j :| 0 <= j < i && BlankAt(f, j) {
      FirstBefore(f, j);
    } else {
      assert FirstBlank(f, i);
    }
  }

  /** The index find_crlf2 gives. */
  ghost function BlankIn(f: Octets): (e: int)
    ensures FirstBlank(f, e) && -1 <= e && (e >= 0 ==> e + 4 <= |f|)
  {
    BlankExists(f);
    var e :| -1 <= e < |f| && FirstBlank(f, e);
    e
  }

  lemma FirstBlankIs(f: Octets, e: int)
    requires FirstBlank(f, e)
    ensures BlankIn(f) == e
  {
    var d := BlankIn(f);
    assert e < 0 || BlankAt(f, e);
    assert d < 0 || BlankAt(f, d);
  }

  // ---------------------------------------------------------------- what serving a session does to it

  /** All that a session is; of the buffers, what they still hold. */
  datatype State = State(
    tls: bool, ph: int, phonePort: u16, origIp: Ip4, st: Phase, px: int, deadline: u32, host: Octets,
    fromPhone: Octets, toProxy: Octets, fromProxy: Octets, toPhone: Octets,
    first: Octets, opening: Octets, answer: Octets,
    heldUp: Octets, heldDown: Octets, phEof: bool, pxEof: bool, pxShut: bool)
  {
    /** What it is for splice. */
    function Pipes(): Ends {
      Ends(Pipe(if |first| <= |fromPhone| then fromPhone[|first|..] else [], heldUp, toProxy, phEof),
           Pipe(fromProxy, heldDown, answer + toPhone, pxEof), pxShut, deadline)
    }
  }

  /** A session as do_accept makes it. */
  function NewSession(tls: bool, ph: int, phonePort: u16, origIp: Ip4, now: u32): State {
    State(tls, ph, phonePort, origIp, Head, -1, After(now, SETUP_MS), Dotted(origIp),
          [], [], [], [], [], [], [], [], [], false, false, false)
  }

  /** With the opening for the phone's bytes so far in the up buffer. */
  function Loaded(s: State, host: Octets, opening: Octets): State {
    s.(first := s.fromPhone, host := host, opening := opening, heldUp := if s.tls then s.fromPhone else opening)
  }

  /** Connected: the tunnel request is out, or the splice begins. */
  function Linked(s: State, now: u32): State {
    if s.tls then s.(st := Reply, toProxy := ConnectRequest(s.host), deadline := After(now, SETUP_MS))
    else s.(st := Splice, deadline := After(now, IDLE_MS))
  }

  /** What the outcome of the connect makes of session b in S_CONNECTING, and whether it lives on. */
  ghost predicate ConnectServed(b: State, a: State, error: bool, connectSent: bool, now: u32, keep: bool) {
    && a.px == b.px && a.fromPhone == b.fromPhone
    && (keep <==> !error && (b.tls ==> connectSent))
    && (keep ==> a == Linked(b, now))
  }

  /** What starting the connect makes of session b, and whether it lives on. */
  ghost predicate Started(b: State, a: State, address: bool, sock: int, outcome: Connecting, connectSent: bool,
                          now: u32, keep: bool) {
    && a.px == (if address then sock else -1) && a.fromPhone == b.fromPhone
    && (keep <==> address && sock >= 0
                  && (outcome == InProgress || (outcome == Connected && (b.tls ==> connectSent))))
    && (keep ==> a == if outcome == InProgress
                      then b.(px := sock, st := Connect, deadline := After(now, SETUP_MS))
                      else Linked(b.(px := sock), now))
  }

  /** What reading from the phone makes of session b in S_HEAD, and whether it lives on. */
  ghost predicate HeadServed(b: State, a: State, recv: Received, memory: bool, address: bool, sock: int,
                             outcome: Connecting, connectSent: bool, now: u32, keep: bool) {
    match recv
    case NothingYet => keep && a == b
    case RecvError => !keep && a.px == b.px
    case Got(data) =>
      var f := b.fromPhone + data;
      if data == [] then !keep && a.px == b.px && a.fromPhone == f
      else HeadJudged(b.(fromPhone := f, heldUp := f), a, memory, address, sock, outcome, connectSent, now, keep)
  }

  /** What the phone's bytes so far make of session b, and whether it lives on. */
  ghost predicate HeadJudged(b: State, a: State, memory: bool, address: bool, sock: int, outcome: Connecting,
                             connectSent: bool, now: u32, keep: bool) {
    var f := b.fromPhone;
    && a.fromPhone == f
    && match Needs(b.tls, f, memory)
       case Wait => keep && a == b
       case Fail => !keep && a.px == b.px
       case Go =>
         exists host, opening :: Opens(b.tls, f, b.origIp, host, opening)
           && Started(Loaded(b, host, opening), a, address, sock, outcome, connectSent, now, keep)
  }

  /** A session without a proxy socket gets the one offered, or none. */
  lemma HeadSocket(b: State, a: State, recv: Received, memory: bool, address: bool, sock: int, outcome: Connecting,
                   connectSent: bool, now: u32, keep: bool)
    requires HeadServed(b, a, recv, memory, address, sock, outcome, connectSent, now, keep) && b.px == -1
    ensures a.px == -1 || a.px == sock
  {
    hide Needs, Opens, Linked;
  }

  /** What reading from the proxy makes of session b in S_REPLY, and whether it lives on. */
  ghost predicate ReplyServed(b: State, a: State, recv: Received, now: u32, keep: bool) {
    && a.px == b.px && a.fromPhone == b.fromPhone && a.toProxy == b.toProxy && a.toPhone == b.toPhone
    && match recv
       case NothingYet => keep && a == b
       case RecvError => !keep
       case Got(data) =>
         var f := b.fromProxy + data;
         a.fromProxy == f && if data == [] then !keep else Judged(b.(fromProxy := f, heldDown := f), a, now, keep)
  }

  /** What the proxy's answer so far makes of session b, and whether it lives on. */
  ghost predicate Judged(b: State, a: State, now: u32, keep: bool) {
    var f := b.fromProxy;
    var e := BlankIn(f);
    && (keep <==> if e == -1 then |f| < DOWN_SZ - 1 else Accepts(f))
    && (keep ==> a == if e == -1 then b
                      else b.(st := Splice, answer := f[..e + 4], heldDown := f[e + 4..],
                              deadline := After(now, IDLE_MS)))
  }

  /** One pass of splice makes of session b what Spliced says, and nothing more. */
  ghost predicate SpliceServed(b: State, a: State, pxWritable: bool, phReadable: bool, sendPx: Sending,
                               recvPh: Received, phWritable: bool, pxReadable: bool, sendPh: Sending, recvPx: Received,
                               now: u32, why: Option<Closing>) {
    && (sendPx.Took? ==> sendPx.n <= |b.heldUp|) && (sendPh.Took? ==> sendPh.n <= |b.heldDown|)
    && (a.Pipes(), why) == Spliced(b.Pipes(), pxWritable, phReadable, sendPx, recvPh,
                                   phWritable, pxReadable, sendPh, recvPx, now)
    && b.first <= a.fromPhone
    && a == b.(fromPhone := a.fromPhone, toProxy := a.toProxy, fromProxy := a.fromProxy, toPhone := a.toPhone,
               heldUp := a.heldUp, heldDown := a.heldDown, phEof := a.phEof, pxEof := a.pxEof,
               pxShut := a.pxShut, deadline := a.deadline)
  }

  /** What is cut at the first blank line is a head. */
  lemma HeadCut(f: Octets, e: int)
    requires FirstBlank(f, e) && e >= 0
    ensures e + 4 <= |f| && IsHead(f[..e + 4])
  {
    var head := f[..e + 4];
    forall i | 0 <= i < |head|
      ensures BlankAt(head, i) <==> i == e
    {
      assert BlankAt(head, i) ==> BlankAt(f, i);
    }
  }

  /** The rewritten head and the body always fit the up buffer. */
  lemma RewriteFits(head: Octets, ip: Ip4, body: nat)
    requires IsHead(head) && |head| + body <= UP_SZ
    ensures Rewritten(head, ip).Some? <==> RequestLine(head).Some?
    ensures Rewritten(head, ip).Some? ==> 0 < |Rewritten(head, ip).value| <= UP_CAP - body
  {
    hide RequestLine;
    if Rewritten(head, ip).Some? {
      HttpGrowth.GrowthBound(head, ip);
    }
  }

  lemma HostForShort(head: Octets, ip: Ip4)
    requires IsHead(head) && RequestLine(head).Some?
    ensures |HostFor(head, RequestLine(head).value.2 + 2, ip)| < HOST_SIZE
  {
  }

  lemma RequestOpens(first: Octets, ip: Ip4, host: Octets, opening: Octets, e: int)
    requires FirstBlank(first, e) && e >= 0 && e + 4 <= |first| && IsHead(first[..e + 4])
    requires Rewritten(first[..e + 4], ip).Some?
    requires host == HostFor(first[..e + 4], RequestLine(first[..e + 4]).value.2 + 2, ip)
    requires opening == Rewritten(first[..e + 4], ip).value + first[e + 4..]
    ensures Opens(false, first, ip, host, opening)
  {
  }

  /** A stream cut in two is conserved. */
  lemma CutConserves(whole: Octets, n: nat)
    requires n <= |whole|
    ensures Conserves(Pipe(whole, whole[n..], whole[..n], false), [])
  {
  }

  lemma TunnelStarts(host: Octets, first: Octets, opening: Octets, ip: Ip4)
    requires Opens(true, first, ip, host, opening)
    ensures Conserves(Pipe([], first, ConnectRequest(host), false), opening)
  {
  }

  lemma ReplyPrefix(host: Octets, first: Octets, opening: Octets, ip: Ip4)
    requires Opens(true, first, ip, host, opening)
    ensures ConnectRequest(host) <= opening
  {
  }

  /** With nothing held, everything read has been written. */
  lemma Drained(p: Pipe, start: Octets)
    requires Conserves(p, start) && p.held == []
    ensures p.written == start + p.read
  {
    assert p.written + [] == p.written;
  }

  /** A tunnel needs no memory. */
  lemma NeedsTunnel(f: Octets, memory: bool)
    ensures Needs(true, f, memory) == Needs(true, f, true)
  {
  }

  /** While a session waits for more of the opening, its buffer has room for it. */
  lemma WaitsForRoom(tls: bool, f: Octets, memory: bool)
    requires Needs(tls, f, memory) == Wait
    ensures |f| < UP_SZ
  {
  }

  /** Put the head that ends at the blank line e in proxy form, with the start of the body behind it. */
  method RequestOpening(bytes: Octets, e: nat, ip: Ip4) returns (ok: bool, h: Octets, both: Octets)
    requires |bytes| <= UP_SZ && FirstBlank(bytes, e) && e + 4 <= |bytes|
    ensures ok <==> RequestLine(bytes[..e + 4]).Some?
    ensures ok ==> Opens(false, bytes, ip, h, both) && 0 < |both| <= UP_CAP && |h| < HOST_SIZE
  {
    hide FirstBlank, RequestLine, IsHead, Rewritten, HostFor, HostOk, Opens;
    HeadCut(bytes, e);
    var head, body := bytes[..e + 4], bytes[e + 4..];
    RewriteFits(head, ip, |body|);
    var out := new octet[UP_CAP];
    var n;
    n, h := Rewrite(head, ip, out, UP_CAP - |body|);
    both := [];
    ok := n >= 0;
    if ok {
      HostForShort(head, ip);
      both := out[..n] + body;
      RequestOpens(bytes, ip, h, both, e);
    }
  }

  class Session {
    const tls: bool
    const ph: int
    const phonePort: u16
    const origIp: Ip4
    const up: array<octet>
    const down: array<octet>
    var st: Phase
    var px: int
    var upLen: nat
    var upOff: nat
    var downLen: nat
    var downOff: nat
    var phEof: bool
    var pxEof: bool
    var pxShut: bool
    var deadline: u32
    var host: Octets

    // the four byte streams of the session, whole
    ghost var fromPhone: Octets
    ghost var toProxy: Octets
    ghost var fromProxy: Octets
    ghost var toPhone: Octets
    // the phone bytes the opening was made of, the opening, and the proxy's answer to CONNECT
    ghost var first: Octets
    ghost var opening: Octets
    ghost var answer: Octets

    ghost predicate Buffers()
      reads this
    {
      && up.Length == UP_CAP && down.Length == DOWN_SZ + 1 && up != down
      && upOff <= upLen <= UP_CAP && downOff <= downLen <= DOWN_SZ
      && |host| < HOST_SIZE && first <= fromPhone
    }

    ghost function Now(): (s: State)
      reads this, up, down
      ensures s.phonePort == phonePort && s.ph == ph && s.px == px && s.deadline == deadline && s.st == st
    {
      State(tls, ph, phonePort, origIp, st, px, deadline, host, fromPhone, toProxy, fromProxy, toPhone,
            first, opening, answer, Held(up, upOff, upLen), Held(down, downOff, downLen), phEof, pxEof, pxShut)
    }

    ghost function UpPipe(): Pipe
      requires Buffers()
      reads this, up
    {
      Pipe(fromPhone[|first|..], up[upOff..upLen], toProxy, phEof)
    }

    ghost function DownPipe(): Pipe
      requires Buffers()
      reads this, down
    {
      Pipe(fromProxy, down[downOff..downLen], answer + toPhone, pxEof)
    }

    ghost function BothEnds(): Ends
      requires Buffers()
      reads this, up, down
    {
      Ends(UpPipe(), DownPipe(), pxShut, deadline)
    }

    /** The opening is known and in the up buffer, nothing is sent yet. */
    ghost predicate Ready()
      reads this, up, down
    {
      && Buffers() && upOff == 0 && downOff == downLen == 0 && !phEof && !pxEof && !pxShut
      && toProxy == [] && fromProxy == [] && toPhone == [] && answer == []
      && first == fromPhone && Opens(tls, first, origIp, host, opening) && 0 < upLen
      && (if tls then up[..upLen] == first else up[..upLen] == opening)
    }

    /** The tunnel request is out, and the proxy's answer so far is in the down buffer. */
    ghost predicate Answering()
      reads this, up, down
    {
      && Buffers() && st == Reply && px >= 0 && tls && upOff == 0 && downOff == 0 && !phEof && !pxEof && !pxShut
      && first == fromPhone && Opens(tls, first, origIp, host, opening) && up[..upLen] == first && 0 < upLen
      && toProxy == ConnectRequest(host) && down[..downLen] == fromProxy && toPhone == [] && answer == []
    }

    ghost predicate Valid()
      reads this, up, down
    {
      && Buffers()
      && match st
         case Head =>
           && px == -1 && upOff == 0 && downOff == downLen == 0 && !phEof && !pxEof && !pxShut
           && upLen < UP_SZ && up[..upLen] == fromPhone && first == [] && opening == [] && answer == []
           && toProxy == [] && fromProxy == [] && toPhone == []
         case Connect => px >= 0 && Ready()
         case Reply => Answering() && downLen < DOWN_SZ - 1
         case Splice =>
           && px >= 0 && Opens(tls, first, origIp, host, opening)
           && (if tls then IsHead(answer) && Accepts(fromProxy) && answer <= fromProxy else answer == [])
           && Conserves(UpPipe(), opening) && Conserves(DownPipe(), [])
           && (upOff < upLen || upOff == upLen == 0) && (downOff < downLen || downOff == downLen == 0)
           && (pxShut <==> phEof && upLen == 0)
           && !(pxEof && downLen == 0)
    }

    constructor (tls: bool, ph: int, phonePort: u16, origIp: Ip4, now: u32)
      ensures Valid() && st == Head && px == -1 && fresh(up) && fresh(down) && up != down
      ensures this.tls == tls && this.ph == ph && this.phonePort == phonePort && this.origIp == origIp
      ensures Now() == NewSession(tls, ph, phonePort, origIp, now)
    {
      this.tls, this.ph, this.phonePort, this.origIp := tls, ph, phonePort, origIp;
      up, down := new octet[UP_CAP], new octet[DOWN_SZ + 1];
      st, px := Head, -1;
      upLen, upOff, downLen, downOff := 0, 0, 0, 0;
      phEof, pxEof, pxShut := false, false, false;
      deadline := After(now, SETUP_MS);
      host := Dotted(origIp);
      fromPhone, toProxy, fromProxy, toPhone := [], [], [], [];
      first, opening, answer := [], [], [];
    }

    // -------------------------------------------------------------- reading the opening

    /** The phone's bytes so far, not yet judged. */
    ghost predicate Reading()
      reads this, up, down
    {
      && Buffers() && px == -1 && upOff == 0 && downOff == downLen == 0 && !phEof && !pxEof && !pxShut
      && 0 < upLen <= UP_SZ && up[..upLen] == fromPhone && first == [] && opening == [] && answer == []
      && toProxy == [] && fromProxy == [] && toPhone == []
    }

    /** head_ready for a ClientHello: wait for the record, then take the host from it. */
    method PrepareTunnel() returns (r: Readiness)
      requires Reading() && tls
      modifies `host, `first, `opening
      ensures r == Needs(tls, fromPhone, true)
      ensures r == Wait ==> Reading() && host == old(host)
      ensures r == Go ==> Ready()
    {
      hide HostOk, Sni.SniOf;
      if upLen < 5 {
        return Wait;
      }
      var bytes := up[..upLen];
      var rec := 5 + Sni.Be16(bytes, 3);
      if Sni.Byte(bytes, 0) == 0x16 && upLen < rec && upLen < UP_SZ {
        return Wait;
      }
      var name := Sni.TlsSni(bytes);
      host := if name.Some? then name.value else Dotted(origIp);
      first := fromPhone;
      opening := ConnectRequest(host) + first;
      return Go;
    }

    /** head_ready for a plain request: wait for the blank line, then put the head in proxy form. */
    method PrepareRequest(memory: bool) returns (r: Readiness)
      requires Reading() && !tls
      modifies `host, `first, `opening, `upLen, up
      ensures r == Needs(tls, fromPhone, memory)
      ensures r == Wait ==> Reading() && host == old(host)
      ensures r == Go ==> Ready()
      ensures r == Fail ==> Buffers()
    {
      hide RequestLine, IsHead, HostOk, FirstBlank, Opens, Ready;
      var e := FindBlank(up, upLen);
      FirstBlankIs(fromPhone, e);
      if e == -1 {
        return if upLen >= UP_SZ then Fail else Wait;
      }
      if !memory {
        return Fail;
      }
      var ok := ReplaceHead(e);
      return if ok then Go else Fail;
    }

    /** Rewrite the head that ends at the blank line e, and put it before the body in the up buffer. */
    method ReplaceHead(e: nat) returns (ok: bool)
      requires Reading() && !tls && FirstBlank(fromPhone, e) && e + 4 <= |fromPhone|
      modifies `host, `first, `opening, `upLen, up
      ensures ok <==> RequestLine(fromPhone[..e + 4]).Some?
      ensures ok ==> Ready()
      ensures Buffers()
    {
      hide FirstBlank, RequestLine, IsHead, Opens, HostOk;
      var bytes := up[..upLen];
      var h, both;
      ok, h, both := RequestOpening(bytes, e, origIp);
      if ok {
        Install(both, h);
      }
    }

    method Install(both: Octets, h: Octets)
      requires Reading() && 0 < |both| <= UP_CAP && |h| < HOST_SIZE && !tls && Opens(false, fromPhone, origIp, h, both)
      modifies `host, `first, `opening, `upLen, up
      ensures Ready()
    {
      hide Opens;
      Copy(both, up, 0);
      host, upLen, first, opening := h, |both|, fromPhone, both;
      assert up[..upLen] == up[0..0 + |both|];
    }

    // -------------------------------------------------------------- connecting

    /** on_connected: the tunnel request goes out at once, or the splice starts with the rewritten head. */
    method OnConnected(connectSent: bool, now: u32) returns (keep: bool)
      requires Ready() && px >= 0
      modifies `st, `deadline, `toProxy
      ensures ConnectServed(old(Now()), Now(), false, connectSent, now, keep)
      ensures keep ==> Valid()
    {
      hide Opens, FirstBlank, ConnectRequest;
      if tls {
        if !connectSent {
          return false;
        }
        st, toProxy, deadline := Reply, ConnectRequest(host), After(now, SETUP_MS);
      } else {
        st, deadline := Splice, After(now, IDLE_MS);
        assert up[0..upLen] == up[..upLen];
      }
      return true;
    }

    /** start_connect: sock is what socket() returned, -1 if none was left. */
    method StartConnect(address: bool, sock: int, outcome: Connecting, connectSent: bool, now: u32) returns (keep: bool)
      requires Ready() && px == -1 && sock >= -1
      modifies `st, `deadline, `toProxy, `px
      ensures Started(old(Now()), Now(), address, sock, outcome, connectSent, now, keep)
      ensures keep ==> Valid()
    {
      hide Opens, ConnectRequest, Linked, Valid;
      if !address {
        return false;
      }
      px := sock;
      assert Now() == old(Now()).(px := sock);
      if px < 0 {
        return false;
      }
      match outcome
      case Connected => keep := OnConnected(connectSent, now);
      case InProgress =>
        st, deadline := Connect, After(now, SETUP_MS);
        ConnectIsValid();
        return true;
      case Refused => return false;
    }

    lemma ConnectIsValid()
      requires Ready() && px >= 0 && st == Connect
      ensures Valid()
    {
      hide Opens;
    }

    method AppendFromPhone(data: Octets)
      requires Valid() && st == Head && 0 < |data| <= UP_SZ - upLen
      modifies `upLen, `fromPhone, up
      ensures Reading() && fromPhone == old(fromPhone) + data && st == Head
      ensures Now() == old(Now()).(fromPhone := fromPhone, heldUp := fromPhone)
    {
      Copy(data, up, upLen);
      assert up[..upLen + |data|] == up[..upLen] + up[upLen..upLen + |data|];
      upLen := upLen + |data|;
      fromPhone := fromPhone + data;
    }

    /** head_ready up to the connect: judge the phone's bytes and prepare the up buffer. */
    method Prepare(memory: bool) returns (r: Readiness)
      requires Reading()
      modifies `host, `first, `opening, `upLen, up
      ensures r == Needs(tls, fromPhone, memory)
      ensures r == Wait ==> Reading() && upLen < UP_SZ && Now() == old(Now())
      ensures r == Go ==> Ready() && Now() == Loaded(old(Now()), host, opening)
    {
      hide Needs, FirstBlank, HostOk, Opens;
      if tls {
        NeedsTunnel(fromPhone, memory);
        r := PrepareTunnel();
      } else {
        r := PrepareRequest(memory);
      }
      if r == Wait {
        WaitsForRoom(tls, fromPhone, memory);
      }
    }

    /** S_HEAD: the phone's socket is readable. memory, address, sock, outcome and connectSent are what the
        allocator, the resolver and the socket calls answer if asked. */
    method HeadReadable(recv: Received, memory: bool, address: bool, sock: int, outcome: Connecting,
                        connectSent: bool, now: u32) returns (keep: bool)
      requires Valid() && st == Head && sock >= -1
      requires recv.Got? ==> |recv.data| <= UP_SZ - upLen
      modifies this, up
      ensures HeadServed(old(Now()), Now(), recv, memory, address, sock, outcome, connectSent, now, keep)
      ensures keep ==> Valid()
    {
      hide Valid, Reading, HeadJudged;
      match recv
      case NothingYet => return true;
      case RecvError => return false;
      case Got(data) =>
        if data == [] {
          return false;
        }
        AppendFromPhone(data);
        keep := HeadReady(memory, address, sock, outcome, connectSent, now);
    }

    /** head_ready: go on once there is enough to know where it is going. */
    method HeadReady(memory: bool, address: bool, sock: int, outcome: Connecting, connectSent: bool, now: u32)
      returns (keep: bool)
      requires Reading() && st == Head && sock >= -1
      modifies `host, `first, `opening, `upLen, `st, `deadline, `toProxy, `px, up
      ensures HeadJudged(old(Now()), Now(), memory, address, sock, outcome, connectSent, now, keep)
      ensures keep ==> Valid()
    {
      hide Opens, Needs, Ready, Started, Loaded;
      StillReading();
      var r := Prepare(memory);
      match r
      case Wait =>
        StillReading();
        return true;
      case Fail => return false;
      case Go =>
        IsReady();
        keep := StartConnect(address, sock, outcome, connectSent, now);
    }

    lemma IsReady()
      requires Ready()
      ensures Opens(tls, fromPhone, origIp, host, opening)
    {
    }

    lemma StillReading()
      requires Reading() && st == Head
      ensures px == -1 && (upLen < UP_SZ ==> Valid())
    {
    }

    // -------------------------------------------------------------- the answer to CONNECT

    /** S_REPLY: the proxy's socket is readable. */
    method ReplyReadable(recv: Received, now: u32) returns (keep: bool)
      requires Valid() && st == Reply
      requires recv.Got? ==> |recv.data| <= DOWN_SZ - 1 - downLen
      modifies this, down
      ensures ReplyServed(old(Now()), Now(), recv, now, keep)
      ensures keep ==> Valid()
    {
      hide Valid, Answering, Judged;
      match recv
      case NothingYet => return true;
      case RecvError => return false;
      case Got(data) =>
        if data == [] {
          return false;
        }
        AppendFromProxy(data);
        keep := ReplyReady(now);
    }

    /** reply_ready: go on once the answer is whole and a success. */
    method ReplyReady(now: u32) returns (keep: bool)
      requires Answering() && downLen <= DOWN_SZ - 1
      modifies `st, `deadline, `downLen, `answer, down
      ensures Judged(old(Now()), Now(), now, keep)
      ensures keep ==> Valid()
    {
      hide Opens, HostOk, FirstBlank, IsHead, Valid, Accepts, ConnectRequest;
      var e := FindBlank(down, downLen);
      FirstBlankIs(fromProxy, e);
      if e == -1 {
        if downLen < DOWN_SZ - 1 { WaitsOn(); }
        return downLen < DOWN_SZ - 1;
      }
      if !Accepts(down[..downLen]) {
        return false;
      }
      HeadCut(fromProxy, e);
      StartSplice(e + 4, now);
      return true;
    }

    lemma WaitsOn()
      requires Answering() && downLen < DOWN_SZ - 1
      ensures Valid()
    {
      hide Opens;
    }

    method AppendFromProxy(data: Octets)
      requires Valid() && st == Reply && 0 < |data| <= DOWN_SZ - 1 - downLen
      modifies `downLen, `fromProxy, down
      ensures Answering() && downLen == old(downLen) + |data| && fromProxy == old(fromProxy) + data
      ensures Now() == old(Now()).(fromProxy := fromProxy, heldDown := fromProxy)
      ensures down[downLen] == '\0'
    {
      hide Opens, ConnectRequest;
      Copy(data, down, downLen);
      assert down[..downLen + |data|] == down[..downLen] + down[downLen..downLen + |data|];
      downLen := downLen + |data|;
      fromProxy := fromProxy + data;
      ghost var all := down[..downLen];
      down[downLen] := '\0';
      assert down[..downLen] == all;
    }

    /** The answer is taken off the down buffer; the ClientHello in the up buffer goes out first. */
    method StartSplice(n: nat, now: u32)
      requires Answering() && n <= downLen && IsHead(fromProxy[..n]) && Accepts(fromProxy)
      modifies `st, `deadline, `downLen, `answer, down
      ensures Valid()
      ensures Now() == old(Now()).(st := Splice, answer := fromProxy[..n], heldDown := fromProxy[n..],
                                   deadline := After(now, IDLE_MS))
    {
      hide Opens, IsHead, Accepts, Valid, ConnectRequest;
      DropAnswer(n);
      answer := fromProxy[..n];
      st, deadline := Splice, After(now, IDLE_MS);
      TunnelOpen(n);
    }

    /** What follows the answer moves to the front of the down buffer. */
    method DropAnswer(n: nat)
      requires Buffers() && downOff == 0 && down[..downLen] == fromProxy && n <= downLen
      modifies `downLen, down
      ensures Buffers() && downLen == old(downLen) - n && down[..downLen] == fromProxy[n..]
    {
      var rest := down[n..downLen];
      assert rest == fromProxy[n..];
      Copy(rest, down, 0);
      downLen := downLen - n;
      assert down[..downLen] == down[0..0 + |rest|];
    }

    /** A tunnel just opened is in order: the ClientHello is held for the proxy, the rest of its bytes for the phone. */
    lemma TunnelOpen(n: nat)
      requires Buffers() && st == Splice && tls && px >= 0 && upOff == 0 && downOff == 0 && !phEof && !pxEof && !pxShut
      requires 0 < upLen && first == fromPhone && Opens(tls, first, origIp, host, opening) && up[..upLen] == first
      requires toProxy == ConnectRequest(host) && toPhone == [] && n <= |fromProxy| && down[..downLen] == fromProxy[n..]
      requires answer == fromProxy[..n] && IsHead(answer) && Accepts(fromProxy)
      ensures Valid()
    {
      hide HostOk, FirstBlank, IsHead, Accepts, Conserves, ConnectRequest;
      TunnelStarts(host, first, opening, origIp);
      CutConserves(fromProxy, n);
      hide Opens;
      assert fromPhone[|first|..] == [] && up[0..upLen] == up[..upLen] && down[0..downLen] == down[..downLen];
      assert answer + toPhone == fromProxy[..n];
    }

    // -------------------------------------------------------------- the splice

    /** The buffers in the middle of a turn: each either empty at offset 0 or with bytes left. */
    ghost predicate Splicing()
      reads this, up, down
    {
      && Buffers() && px >= 0 && st == Splice && Opens(tls, first, origIp, host, opening)
      && (if tls then IsHead(answer) && Accepts(fromProxy) && answer <= fromProxy else answer == [])
      && Conserves(UpPipe(), opening) && Conserves(DownPipe(), [])
      && (upOff < upLen || upOff == upLen == 0) && (downOff < downLen || downOff == downLen == 0)
    }

    /** The state holds as many bytes as the buffers. */
    lemma HeldIs()
      requires Valid()
      ensures |Now().heldUp| == upLen - upOff && |Now().heldDown| == downLen - downOff
    {
      hide Opens, IsHead, Accepts, Conserves;
    }

    lemma InBuffers()
      requires Valid() || Splicing()
      ensures Buffers()
    {
    }

    /** Send what the up buffer holds. */
    method SendUp(n: nat)
      requires Splicing() && upOff < upLen && n <= upLen - upOff
      modifies `upLen, `upOff, `toProxy
      ensures Splicing()
      ensures UpPipe() == Turn(old(UpPipe()), true, false, Took(n), NothingYet).pipe
    {
      hide Opens, IsHead, Accepts;
      ghost var was := UpPipe();
      TurnConserves(was, opening, true, false, Took(n), NothingYet);
      toProxy := toProxy + up[upOff..upOff + n];
      upOff := upOff + n;
      assert up[upOff..upLen] == was.held[n..];
      if upOff == upLen {
        upOff, upLen := 0, 0;
      }
      assert UpPipe() == Turn(was, true, false, Took(n), NothingYet).pipe;
    }

    /** Fill the empty up buffer. */
    method RecvUp(data: Octets)
      requires Splicing() && upLen == 0 && !phEof && |data| <= UP_SZ
      modifies `upLen, `upOff, `phEof, `fromPhone, up
      ensures Splicing()
      ensures UpPipe() == Turn(old(UpPipe()), false, true, Busy, Got(data)).pipe
    {
      hide Opens, IsHead;
      ghost var was := UpPipe();
      TurnConserves(was, opening, false, true, Busy, Got(data));
      if data == [] {
        phEof := true;
      } else {
        Copy(data, up, 0);
        upLen, upOff := |data|, 0;
        assert up[0..upLen] == data;
        fromPhone := fromPhone + data;
      }
      assert UpPipe() == Turn(was, false, true, Busy, Got(data)).pipe;
    }

    /** Phone to proxy. */
    method TurnUp(writable: bool, readable: bool, send: Sending, recv: Received) returns (failed: bool, moved: bool)
      requires Buffers() && Splicing()
      requires send.Took? ==> send.n <= upLen - upOff
      requires recv.Got? ==> |recv.data| <= UP_SZ
      modifies `upLen, `upOff, `phEof, `fromPhone, `toProxy, up
      ensures Buffers() && Splicing()
      ensures Moved(UpPipe(), failed, moved) == Turn(old(UpPipe()), writable, readable, send, recv)
      ensures DownPipe() == old(DownPipe())
      ensures old(phEof && upLen == 0) ==> phEof && upLen == 0
    {
      hide Opens, IsHead, Accepts, Conserves;
      failed, moved := false, false;
      if upOff < upLen && writable {
        if send == SendError {
          return true, false;
        }
        if send.Took? {
          SendUp(send.n);
          moved := send.n > 0;
        }
      } else if upLen == 0 && !phEof && readable {
        if recv == RecvError {
          return true, false;
        }
        if recv.Got? {
          RecvUp(recv.data);
          moved := recv.data != [];
        }
      }
    }

    /** Send what the down buffer holds. */
    method SendDown(n: nat)
      requires Splicing() && downOff < downLen && n <= downLen - downOff
      modifies `downLen, `downOff, `toPhone
      ensures Splicing()
      ensures DownPipe() == Turn(old(DownPipe()), true, false, Took(n), NothingYet).pipe
    {
      hide Opens, IsHead, Accepts;
      ghost var was := DownPipe();
      TurnConserves(was, [], true, false, Took(n), NothingYet);
      ghost var before, sent := toPhone, down[downOff..downOff + n];
      assert answer + (before + sent) == (answer + before) + sent;
      toPhone := toPhone + down[downOff..downOff + n];
      downOff := downOff + n;
      assert down[downOff..downLen] == was.held[n..];
      if downOff == downLen {
        downOff, downLen := 0, 0;
      }
      assert DownPipe() == Turn(was, true, false, Took(n), NothingYet).pipe;
    }

    /** Fill the empty down buffer. */
    method RecvDown(data: Octets)
      requires Splicing() && downLen == 0 && !pxEof && |data| <= DOWN_SZ
      modifies `downLen, `downOff, `pxEof, `fromProxy, down
      ensures Splicing()
      ensures DownPipe() == Turn(old(DownPipe()), false, true, Busy, Got(data)).pipe
    {
      hide Opens, IsHead;
      ghost var was := DownPipe();
      TurnConserves(was, [], false, true, Busy, Got(data));
      if data == [] {
        pxEof := true;
      } else {
        Copy(data, down, 0);
        downLen, downOff := |data|, 0;
        assert down[0..downLen] == data;
        fromProxy := fromProxy + data;
      }
      assert DownPipe() == Turn(was, false, true, Busy, Got(data)).pipe;
    }

    /** Proxy to phone. */
    method TurnDown(writable: bool, readable: bool, send: Sending, recv: Received) returns (failed: bool, moved: bool)
      requires Buffers() && Splicing()
      requires send.Took? ==> send.n <= downLen - downOff
      requires recv.Got? ==> |recv.data| <= DOWN_SZ
      modifies `downLen, `downOff, `pxEof, `fromProxy, `toPhone, down
      ensures Buffers() && Splicing()
      ensures Moved(DownPipe(), failed, moved) == Turn(old(DownPipe()), writable, readable, send, recv)
      ensures UpPipe() == old(UpPipe())
    {
      hide Opens, IsHead, Accepts, Conserves;
      failed, moved := false, false;
      if downOff < downLen && writable {
        if send == SendError {
          return true, false;
        }
        if send.Took? {
          SendDown(send.n);
          moved := send.n > 0;
        }
      } else if downLen == 0 && !pxEof && readable {
        if recv == RecvError {
          return true, false;
        }
        if recv.Got? {
          RecvDown(recv.data);
          moved := recv.data != [];
        }
      }
    }

    /** The half-close and the end that follow two turns which did not fail. */
    method EndTurn(moved: bool, now: u32) returns (done: bool)
      requires Buffers() && Splicing() && (pxShut ==> phEof && upLen == 0)
      modifies `pxShut, `deadline
      ensures Buffers() && Splicing() && (pxShut <==> phEof && upLen == 0)
      ensures UpPipe() == old(UpPipe()) && DownPipe() == old(DownPipe())
      ensures done <==> DownPipe().eof && DownPipe().held == []
      ensures pxShut == (UpPipe().eof && UpPipe().held == [])
      ensures deadline == if !done && moved then After(now, IDLE_MS) else old(deadline)
      ensures !done ==> Valid()
    {
      hide Opens, IsHead, Accepts, Conserves;
      if phEof && upLen == 0 && !pxShut {
        pxShut := true;
      }
      if pxEof && downLen == 0 {
        return true;
      }
      if moved {
        deadline := After(now, IDLE_MS);
      }
      return false;
    }

    /** The two turns, the half-close and the end. */
    method BothTurns(pxWritable: bool, phReadable: bool, sendPx: Sending, recvPh: Received,
                     phWritable: bool, pxReadable: bool, sendPh: Sending, recvPx: Received, now: u32)
      returns (why: Option<Closing>)
      requires Buffers() && Splicing() && (pxShut ==> phEof && upLen == 0)
      requires sendPx.Took? ==> sendPx.n <= upLen - upOff
      requires recvPh.Got? ==> |recvPh.data| <= UP_SZ
      requires sendPh.Took? ==> sendPh.n <= downLen - downOff
      requires recvPx.Got? ==> |recvPx.data| <= DOWN_SZ
      modifies `upLen, `upOff, `phEof, `fromPhone, `toProxy, `downLen, `downOff, `pxEof, `fromProxy, `toPhone
      modifies `pxShut, `deadline, up, down
      ensures Buffers() && Splicing()
      ensures (BothEnds(), why)
           == Spliced(old(BothEnds()), pxWritable, phReadable, sendPx, recvPh,
                      phWritable, pxReadable, sendPh, recvPx, now)
      ensures why != Some(Broken) ==> (pxShut <==> phEof && upLen == 0)
      ensures why.None? ==> Valid()
    {
      hide Opens, IsHead, Accepts, Conserves, Turn, Spliced;
      ghost var was := BothEnds();
      SplicedIs(was, pxWritable, phReadable, sendPx, recvPh, phWritable, pxReadable, sendPh, recvPx, now);
      var upFailed, upMoved := TurnUp(pxWritable, phReadable, sendPx, recvPh);
      if upFailed {
        return Some(Broken);
      }
      var downFailed, downMoved := TurnDown(phWritable, pxReadable, sendPh, recvPx);
      if downFailed {
        return Some(Broken);
      }
      var done := EndTurn(upMoved || downMoved, now);
      return if done then Some(Done) else None;
    }

    /** splice: one turn each way, then the half-close and the end. why is set when the session must be closed. */
    method SpliceTurn(pxWritable: bool, phReadable: bool, sendPx: Sending, recvPh: Received,
                      phWritable: bool, pxReadable: bool, sendPh: Sending, recvPx: Received, now: u32)
      returns (why: Option<Closing>)
      requires Valid() && st == Splice
      requires sendPx.Took? ==> sendPx.n <= upLen - upOff
      requires recvPh.Got? ==> |recvPh.data| <= UP_SZ
      requires sendPh.Took? ==> sendPh.n <= downLen - downOff
      requires recvPx.Got? ==> |recvPx.data| <= DOWN_SZ
      modifies this, up, down
      ensures Splicing() && px == old(px)
      ensures first == old(first) && opening == old(opening) && answer == old(answer)
      ensures SpliceServed(old(Now()), Now(), pxWritable, phReadable, sendPx, recvPh,
                           phWritable, pxReadable, sendPh, recvPx, now, why)
      ensures why != Some(Broken) ==> (pxShut <==> phEof && upLen == 0)
      ensures why.None? ==> Valid()
    {
      hide Spliced, Opens, IsHead, Accepts, Conserves;
      InBuffers();
      PipesAre();
      why := BothTurns(pxWritable, phReadable, sendPx, recvPh, phWritable, pxReadable, sendPh, recvPx, now);
      PipesAre();
      hide Splicing, Valid, State.Pipes;
    }

    /** What splice works on, as the state has it. */
    lemma PipesAre()
      requires Buffers()
      ensures Now().Pipes() == BothEnds() && first <= fromPhone
      ensures Now().heldUp == up[upOff..upLen] && Now().heldDown == down[downOff..downLen]
    {
    }

    // -------------------------------------------------------------- what the streams say

    /** In every state, what the proxy has been sent is a prefix of the opening and then what the phone sent
        after it, and what the phone has been sent is a prefix of what the proxy sent after its answer. */
    lemma DeliversInOrder()
      requires Valid()
      ensures st == Connect || st == Head ==> toProxy == []
      ensures st != Head ==> toProxy <= opening + fromPhone[|first|..]
      ensures answer + toPhone <= fromProxy
    {
      hide Opens, IsHead, Accepts;
      if st == Splice {
        assert toProxy + UpPipe().held == opening + fromPhone[|first|..];
        assert answer + toPhone + DownPipe().held == [] + fromProxy == fromProxy;
      } else if st == Reply {
        ReplyPrefix(host, first, opening, origIp);
        assert opening <= opening + fromPhone[|first|..];
      }
    }

    /** Once the write side is shut the proxy has everything the phone sent; once the proxy has closed and the
        down buffer is empty the phone has everything the proxy sent after its answer. */
    lemma NothingHeldBack()
      requires Splicing()
      ensures upLen == 0 ==> toProxy == opening + fromPhone[|first|..]
      ensures downLen == 0 ==> answer + toPhone == fromProxy
    {
      hide Opens, IsHead, Accepts;
      if upLen == 0 {
        Drained(UpPipe(), opening);
      }
      if downLen == 0 {
        Drained(DownPipe(), []);
      }
    }

    /** The descriptors a session waits on are those its service would use if they were ready. */
    ghost predicate Watches(pxWrite: bool, phRead: bool, phWrite: bool, pxRead: bool)
      requires Buffers()
      reads this, up, down
    {
      match st
      case Head => !pxWrite && phRead && !phWrite && !pxRead
      case Connect => pxWrite && !phRead && !phWrite && !pxRead
      case Reply => !pxWrite && !phRead && !phWrite && pxRead
      case Splice =>
        && (pxWrite <==> Sends(UpPipe(), true)) && (phRead <==> Reads(UpPipe(), true))
        && (phWrite <==> Sends(DownPipe(), true)) && (pxRead <==> Reads(DownPipe(), true))
    }

    /** sess_fds: which descriptors to wait on. There is always one, and whatever can be read has room to go to. */
    method Watch() returns (pxWrite: bool, phRead: bool, phWrite: bool, pxRead: bool)
      requires Valid()
      ensures Watches(pxWrite, phRead, phWrite, pxRead)
      ensures pxWrite || phRead || phWrite || pxRead
      ensures phRead ==> (if st == Head then UP_SZ - upLen else UP_SZ) > 0
      ensures pxRead ==> (if st == Reply then DOWN_SZ - 1 - downLen else DOWN_SZ) > 0
      ensures pxWrite || pxRead ==> px >= 0
    {
      hide Opens, IsHead, Accepts, Conserves;
      pxWrite, phRead, phWrite, pxRead := false, false, false, false;
      match st
      case Head => phRead := true;
      case Connect => pxWrite := true;
      case Reply => pxRead := true;
      case Splice =>
        if upOff < upLen { pxWrite := true; } else if !phEof { phRead := true; }
        if downOff < downLen { phWrite := true; } else if !pxEof { pxRead := true; }
    }
  }

  /** What a buffer holds between two offsets. */
  ghost function Held(a: array<octet>, lo: nat, hi: nat): Octets
    reads a
  {
    if lo <= hi <= a.Length then a[lo..hi] else []
  }

  /** memcpy into a buffer. */
  method Copy(src: Octets, dst: array<octet>, at: nat)
    requires at + |src| <= dst.Length
    modifies dst
    ensures dst[at..at + |src|] == src
    ensures dst[..at] == old(dst[..at]) && dst[at + |src|..] == old(dst[at + |src|..])
  {
    for i := 0 to |src|
      invariant dst[at..at + i] == src[..i]
      invariant dst[..at] == old(dst[..at]) && dst[at + |src|..] == old(dst[at + |src|..])
    {
      dst[at + i] := src[i];
    }
    assert src[..|src|] == src;
  }
}
