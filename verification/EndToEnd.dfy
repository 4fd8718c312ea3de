/** A session from the phone's first byte to the proxy's: what each side is sent when every call succeeds. */
module EndToEnd {
  import opened Bytes
  import opened Packet
  import opened Text
  import opened HttpRewrite
  import opened HttpForm
  import opened HttpMeaning
  import opened Session
  import opened Relay
  import Sni

  /** A session that has read p and not yet judged it enough. */
  predicate Reading(s: State, tls: bool, ip: Ip4, p: Octets) {
    exists now: u32 :: s == NewSession(tls, s.ph, s.phonePort, ip, now).(fromPhone := p, heldUp := p)
  }

  /** The phone sends q, and every call on the way to the proxy is made and goes through but the connect's own end. */
  predicate Arrives(io: Io, q: Octets) {
    && io.phReadable && q != [] && io.recvPh == Got(q)
    && io.memory && io.address && io.sock >= 0 && io.outcome == InProgress
  }

  /** The connect goes through, and the tunnel request is taken. */
  predicate Links(io: Io) { io.pxWritable && !io.connectError && io.connectSent }

  // ---------------------------------------------------------------- waiting for enough

  lemma BlankKept(head: Octets, body: Octets, k: nat)
    requires IsHead(head) && k <= |head + body|
    ensures var f := (head + body)[..k];
            BlankIn(f) == if k < |head| then -1 else |head| - 4
  {
    var f := (head + body)[..k];
    assert forall j :: 0 <= j < k && j < |head| ==> f[j] == head[j];
    forall i | 0 <= i < |f| && i < |head| - 4
      ensures !BlankAt(f, i)
    {
      assert !BlankAt(head, i);
    }
    assert BlankAt(head, |head| - 4);
    if k < |head| {
      FirstBlankIs(f, -1);
    } else {
      FirstBlankIs(f, |head| - 4);
    }
  }

  /** A request is waited for until its head is all there, unless 2048 bytes do not hold it. */
  lemma RequestAwaited(r: Request, body: Octets, k: nat, memory: bool)
    requires WellFormed(r) && k <= |Print(r) + body|
    ensures var f := (Print(r) + body)[..k];
            Needs(false, f, memory) == if k >= |Print(r)| then if memory then Go else Fail
                                       else if k >= 2048 then Fail else Wait
  {
    hide WellFormed, Print, IsHead, RequestLine, BlankIn;
    PrintedIsHead(r);
    RequestLinePrinted(r);
    BlankKept(Print(r), body, k);
    var f := (Print(r) + body)[..k];
    if k >= |Print(r)| {
      assert f[..|Print(r)|] == Print(r);
    }
  }

  /** The opening of a session whose phone has sent a whole request. */
  lemma RequestOpens(r: Request, body: Octets, ip: Ip4, host: Octets, opening: Octets)
    requires WellFormed(r) && Opens(false, Print(r) + body, ip, host, opening)
    ensures IsHead(Print(r)) && Rewritten(Print(r), ip).Some?
    ensures opening == Rewritten(Print(r), ip).value + body
  {
    hide WellFormed, Print, RequestLine, Rewritten, HostFor, BlankIn, FirstBlank;
    PrintedIsHead(r);
    var f := Print(r) + body;
    BlankKept(Print(r), body, |f|);
    assert f[..|f|] == f;
    var e :| 0 <= e && e + 4 <= |f| && FirstBlank(f, e) && IsHead(f[..e + 4]) && Rewritten(f[..e + 4], ip).Some?
             && opening == Rewritten(f[..e + 4], ip).value + f[e + 4..];
    FirstBlankIs(f, e);
    assert f[..e + 4] == Print(r) && f[e + 4..] == body;
  }

  // ---------------------------------------------------------------- one step after another

  /** Fewer bytes than are needed are kept, and more are waited for. */
  lemma Waits(s: State, tls: bool, ip: Ip4, p: Octets, q: Octets, io: Io, now: u32, a: State, keep: bool)
    requires Reading(s, tls, ip, p) && io.phReadable && q != [] && io.recvPh == Got(q)
    requires Needs(tls, p + q, io.memory) == Wait && Serves(s, a, io, now, keep)
    ensures keep && Reading(a, tls, ip, p + q)
  {
    hide Needs;
    var t: u32 :| s == NewSession(tls, s.ph, s.phonePort, ip, t).(fromPhone := p, heldUp := p);
    assert a == NewSession(tls, a.ph, a.phonePort, ip, t).(fromPhone := p + q, heldUp := p + q);
  }

  /** With enough, the session connects, the opening in its up buffer. */
  lemma Connects(s: State, tls: bool, ip: Ip4, p: Octets, q: Octets, io: Io, now: u32, a: State, keep: bool)
    requires Reading(s, tls, ip, p) && Arrives(io, q) && Needs(tls, p + q, io.memory) == Go
    requires Serves(s, a, io, now, keep)
    ensures keep && a.st == Connect && Opens(tls, p + q, ip, a.host, a.opening)
    ensures a == NewSession(tls, s.ph, s.phonePort, ip, now).(st := Connect, px := io.sock, fromPhone := p + q,
                   first := p + q, host := a.host, opening := a.opening, heldUp := if tls then p + q else a.opening)
  {
    hide Needs, Opens;
    var t: u32 :| s == NewSession(tls, s.ph, s.phonePort, ip, t).(fromPhone := p, heldUp := p);
    var b := s.(fromPhone := p + q, heldUp := p + q);
    var host, opening :| Opens(tls, p + q, ip, host, opening)
      && Started(Loaded(b, host, opening), a, io.address, io.sock, io.outcome, io.connectSent, now, keep);
  }

  /** A send that is taken moves the front of the up buffer to the proxy. */
  lemma SendsOn(b: State, a: State, io: Io, now: u32, keep: bool)
    requires b.st == Splice && Serves(b, a, io, now, keep) && io.pxWritable && io.sendPx.Took? && b.heldUp != []
    ensures io.sendPx.n <= |b.heldUp| && a.toProxy == b.toProxy + b.heldUp[..io.sendPx.n]
            && a.heldUp == b.heldUp[io.sendPx.n..]
  {
  }

  /** And on the other side the front of the down buffer to the phone, unless the phone's side has just failed. */
  lemma DeliversOn(b: State, a: State, io: Io, now: u32, keep: bool)
    requires b.st == Splice && Serves(b, a, io, now, keep) && io.phWritable && io.sendPh.Took? && b.heldDown != []
    requires io.sendPx != SendError && io.recvPh != RecvError
    ensures io.sendPh.n <= |b.heldDown| && a.toPhone == b.toPhone + b.heldDown[..io.sendPh.n]
            && a.heldDown == b.heldDown[io.sendPh.n..]
  {
    var why: Option<Closing> :| (keep <==> why.None?)
      && SpliceServed(b, a, io.pxWritable, io.phReadable, io.sendPx, io.recvPh,
                      io.phWritable, io.pxReadable, io.sendPh, io.recvPx, now, why);
    SplicedIs(b.Pipes(), io.pxWritable, io.phReadable, io.sendPx, io.recvPh,
              io.phWritable, io.pxReadable, io.sendPh, io.recvPx, now);
    hide Spliced, Serves;
    SameFront(b.answer, b.toPhone, b.heldDown[..io.sendPh.n], a.toPhone);
  }

  lemma SameFront(front: Octets, u: Octets, v: Octets, w: Octets)
    ensures front + w == front + u + v ==> w == u + v
  {
    assert (front + w)[|front|..] == w && (front + u + v)[|front|..] == u + v;
  }

  // ---------------------------------------------------------------- from end to end

  /** A plain request, in two pieces or in one: once it is whole, its head in absolute form and its body are what the
      proxy is sent. */
  lemma RequestReachesProxy(r: Request, body: Octets, ip: Ip4, p: Octets, q: Octets, s: State,
                            io1: Io, t1: u32, s1: State, keep1: bool, io2: Io, t2: u32, s2: State, keep2: bool,
                            io3: Io, t3: u32, s3: State, keep3: bool)
    requires HttpForm.WellFormed(r) && p + q == Print(r) + body
    requires Reading(s, false, ip, p) && Arrives(io1, q) && Serves(s, s1, io1, t1, keep1)
    requires Links(io2) && Serves(s1, s2, io2, t2, keep2)
    requires io3.pxWritable && io3.sendPx == Took(|s2.heldUp|) && Serves(s2, s3, io3, t3, keep3)
    ensures keep1 && keep2 && s2.st == Splice
    ensures IsHead(Print(r)) && Rewritten(Print(r), ip).Some?
    ensures s3.toProxy == Rewritten(Print(r), ip).value + body
  {
    hide Reading, Print, HttpForm.WellFormed, Needs, Opens, Serves, Rewritten, IsHead;
    var f := Print(r) + body;
    RequestAwaited(r, body, |f|, true);
    assert f[..|f|] == f;
    Connects(s, false, ip, p, q, io1, t1, s1, keep1);
    RequestOpens(r, body, ip, s1.host, s1.opening);
    Linking(s1, s2, io2, t2, keep2);
    OpeningNotEmpty(r, ip, body);
    SendsOn(s2, s3, io3, t3, keep3);
    assert s2.heldUp[..|s2.heldUp|] == s2.heldUp && [] + s2.heldUp == s2.heldUp;
  }

  lemma Linking(b: State, a: State, io: Io, now: u32, keep: bool)
    requires b.st == Connect && Links(io) && Serves(b, a, io, now, keep)
    ensures keep && a == Linked(b, now)
  {
  }

  lemma OpeningNotEmpty(r: Request, ip: Ip4, body: Octets)
    requires HttpForm.WellFormed(r)
    ensures IsHead(Print(r)) && Rewritten(Print(r), ip).Some? && Rewritten(Print(r), ip).value + body != []
  {
    hide HttpForm.WellFormed, Proxied, Rewritten, IsHead;
    RewritePrinted(r, ip);
  }

  lemma HelloWhole(h: Sni.Hello)
    requires Sni.WellFormed(h)
    ensures HelloReady(Sni.Print(h)) && Sni.Print(h) != []
  {
    VersionSize(h);
    hide Sni.Body, Sni.FieldsFit;
    var f, n := Sni.Print(h), |Sni.Body(h)| + 4;
    var front, rest := Sni.U8(0x16) + h.recordVersion, Sni.U8(1) + Sni.U8(0) + Sni.U16(|Sni.Body(h)|) + Sni.Body(h);
    assert |rest| == n;
    assert f == front + (Sni.U16(n) + rest);
    LengthAt(front, Sni.U16(n), rest);
    assert front[0] == Sni.U8(0x16)[0];
  }

  lemma LengthAt(front: Octets, size: Octets, rest: Octets)
    requires |front| == 3 && |size| == 2
    ensures var f := front + (size + rest);
            f[0] == front[0] && f[3] == size[0] && f[4] == size[1] && |f| == 5 + |rest|
  {
  }

  lemma VersionSize(h: Sni.Hello)
    requires Sni.WellFormed(h)
    ensures |h.recordVersion| == 2
  {
  }

  lemma HelloOpens(h: Sni.Hello, ip: Ip4, host: Octets, opening: Octets)
    requires Sni.WellFormed(h) && HostOk(h.host) && |h.host| < 80
    requires Opens(true, Sni.Print(h), ip, host, opening)
    ensures host == h.host && opening == ConnectRequest(h.host) + Sni.Print(h)
  {
    hide Sni.WellFormed, Sni.Print, Sni.SniOf, HostOk, HelloReady, ConnectRequest;
    Sni.SniRoundTrip(h, []);
    assert Sni.Print(h) + [] == Sni.Print(h);
  }

  /** The proxy's answer is waited for until its head is all there, unless 1535 bytes do not hold it; a success opens
      the tunnel, and what came behind the head is kept for the phone. */
  lemma AnswerAwaited(b: State, a: State, now: u32, keep: bool, answer: Octets, rest: Octets, k: nat)
    requires IsHead(answer) && k <= |answer + rest| && b.fromProxy == (answer + rest)[..k] && Judged(b, a, now, keep)
    ensures k < |answer| ==> (keep <==> k < 1535) && (keep ==> a == b)
    ensures k >= |answer| ==>
              && (keep <==> Accepts(b.fromProxy))
              && (keep ==> a == b.(st := Splice, answer := answer, heldDown := b.fromProxy[|answer|..],
                                   deadline := After(now, 120000)))
  {
    AnswerNotEmpty(answer);
    hide IsHead, Accepts, BlankIn;
    BlankKept(answer, rest, k);
    if k >= |answer| {
      assert b.fromProxy[..|answer|] == answer;
    }
  }

  lemma TunnelOpens(b: State, a: State, io: Io, now: u32, keep: bool, answer: Octets, rest: Octets)
    requires b.st == Reply && b.fromProxy == [] && io.pxReadable && io.recvPx == Got(answer + rest)
    requires IsHead(answer) && Accepts(answer + rest) && Serves(b, a, io, now, keep)
    ensures keep && a == b.(fromProxy := answer + rest, st := Splice, answer := answer, heldDown := rest,
                            deadline := After(now, 120000))
  {
    AnswerNotEmpty(answer);
    hide IsHead, Accepts, Judged;
    var f := answer + rest;
    assert b.fromProxy + f == f;
    assert ReplyServed(b, a, io.recvPx, now, keep);
    var c := b.(fromProxy := f, heldDown := f);
    assert Judged(c, a, now, keep);
    hide Serves, ReplyServed;
    assert f[..|f|] == f && f[|answer|..] == rest;
    AnswerAwaited(c, a, now, keep, answer, rest, |f|);
  }

  lemma AnswerNotEmpty(answer: Octets)
    requires IsHead(answer)
    ensures |answer| >= 4
  {
  }

  /** A ClientHello, in two pieces or in one: the proxy is asked for a tunnel to the host it names, and once it has
      granted that, it is sent the ClientHello and the phone what came behind the answer. */
  lemma HelloReachesHost(h: Sni.Hello, ip: Ip4, p: Octets, q: Octets, s: State, answer: Octets, rest: Octets,
                         io1: Io, t1: u32, s1: State, keep1: bool, io2: Io, t2: u32, s2: State, keep2: bool,
                         io3: Io, t3: u32, s3: State, keep3: bool, io4: Io, t4: u32, s4: State, keep4: bool)
    requires Sni.WellFormed(h) && HostOk(h.host) && |h.host| < 80 && p + q == Sni.Print(h)
    requires Reading(s, true, ip, p) && Arrives(io1, q) && Serves(s, s1, io1, t1, keep1)
    requires Links(io2) && Serves(s1, s2, io2, t2, keep2)
    requires io3.pxReadable && io3.recvPx == Got(answer + rest) && Serves(s2, s3, io3, t3, keep3)
    requires IsHead(answer) && Accepts(answer + rest) && rest != []
    requires io4.pxWritable && io4.sendPx == Took(|s3.heldUp|) && io4.phWritable && io4.sendPh == Took(|s3.heldDown|)
    requires io4.recvPh != RecvError && Serves(s3, s4, io4, t4, keep4)
    ensures keep1 && keep2 && keep3 && s2.toProxy == ConnectRequest(h.host)
    ensures s4.toProxy == ConnectRequest(h.host) + Sni.Print(h) && s4.toPhone == rest
  {
    hide Reading, Sni.Print, Sni.WellFormed, Opens, Serves, IsHead, Accepts, HostOk, ConnectRequest;
    HelloWhole(h);
    Connects(s, true, ip, p, q, io1, t1, s1, keep1);
    HelloOpens(h, ip, s1.host, s1.opening);
    Linking(s1, s2, io2, t2, keep2);
    TunnelOpens(s2, s3, io3, t3, keep3, answer, rest);
    SendsOn(s3, s4, io4, t4, keep4);
    DeliversOn(s3, s4, io4, t4, keep4);
    assert s3.heldUp[..|s3.heldUp|] == s3.heldUp && s3.heldDown[..|s3.heldDown|] == s3.heldDown;
  }
}
