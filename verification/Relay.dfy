/** The relay task: four session slots, the sockets and buffers they own, and the flow table they report to. */
module Relay {
  import opened Bytes
  import opened Packet
  import opened Text
  import opened Session
  import opened Slots
  import FlowTable

  const SESS_MAX := 4

  /** (int32_t)(now - deadline) > 0 */
  predicate Expired(now: u32, deadline: u32) { 0 < Age(now, deadline) < 0x8000_0000 }

  /** A deadline set at time t is past exactly when more than its milliseconds have gone by, whatever the 32-bit clock
      shows, unless it is looked at some 24 days too late. */
  lemma ExpiredExactly(t: nat, ms: u32, now: nat)
    requires t <= now && ms < 0x8000_0000 && now - t < 0x8000_0000
    ensures Expired(now % 0x1_0000_0000, After(t % 0x1_0000_0000, ms)) <==> now > t + ms
  {
    var M, d, stamp := 0x1_0000_0000, now - t - ms, t % 0x1_0000_0000;
    var wraps := t / M + (stamp + ms) / M - now / M;
    assert now % M - After(stamp, ms) == d + M * wraps;
    ModPlus(d, wraps);
    assert if d >= 0 then d % M == d else d % M == d + M;
  }

  lemma ModPlus(d: int, k: int)
    ensures (d + 0x1_0000_0000 * k) % 0x1_0000_0000 == d % 0x1_0000_0000
  {
  }

  /** What can happen to the relay: a session is served, a connection comes in, a session is looked at for lateness,
      a packet passes one of the two hooks, a new PPP link comes up. */
  datatype Step =
    | Serve(i: nat, io: Io, now: u32)
    | Accept(tls: bool, c: int, peerIsPhone: bool, pport: u16, memory: bool, now: u32)
    | Late(i: nat, now: u32)
    | FromPhone(packet: seq<byte>, ready: bool, wifiUp: bool, now: u32)
    | ToPhone(packet: seq<byte>, memory: bool, now: u32)
    | NewLink

  /** What the task and the flow table have on record: the sessions by slot, what the slots own, the open sockets, the
      live buffers, the session counter, the flows and their history. */
  datatype Books = Books(sessions: seq<Option<State>>, view: seq<Slot<Buffer>>, fds: set<int>, buffers: set<Buffer>,
                         active: int, flows: seq<FlowTable.Flow>, hist: seq<FlowTable.Event>)

  /** The books balance, and each slot owns what its session says. */
  ghost predicate BooksOk(b: Books, listeners: set<int>) {
    && |b.sessions| == |b.view| == SESS_MAX
    && Accounted(b.view, listeners, b.fds, b.buffers, b.active)
    && forall i :: 0 <= i < SESS_MAX ==> SlotOf(b.sessions[i], b.view[i])
  }

  predicate SlotOf(s: Option<State>, slot: Slot<Buffer>) {
    if s.None? then slot.Unused? else slot.Used? && slot.ph == s.value.ph && slot.px == s.value.px
  }

  /** The socket layer can answer so to a session in phase st: it hands over no more than asked for, and no descriptor
      that is in use. */
  predicate Possible(st: Phase, heldUp: int, heldDown: int, fds: set<int>, io: Io) {
    match st
    case Head =>
      io.sock >= -1 && (io.sock >= 0 ==> io.sock !in fds) && (io.recvPh.Got? ==> |io.recvPh.data| + heldUp <= UP_SZ)
    case Connect => true
    case Reply => io.recvPx.Got? ==> |io.recvPx.data| + heldDown <= DOWN_SZ - 1
    case Splice =>
      && (io.sendPx.Took? ==> io.sendPx.n <= heldUp) && (io.sendPh.Took? ==> io.sendPh.n <= heldDown)
      && (io.recvPh.Got? ==> |io.recvPh.data| <= UP_SZ) && (io.recvPx.Got? ==> |io.recvPx.data| <= DOWN_SZ)
  }

  /** What serving session b makes of it, by the phase it is in, and whether it lives on. */
  ghost predicate Serves(b: State, a: State, io: Io, now: u32, keep: bool) {
    match b.st
    case Head =>
      if io.phReadable then
        HeadServed(b, a, io.recvPh, io.memory, io.address, io.sock, io.outcome, io.connectSent, now, keep)
      else keep && a == b
    case Connect =>
      if io.pxWritable then ConnectServed(b, a, io.connectError, io.connectSent, now, keep) else keep && a == b
    case Reply => if io.pxReadable then ReplyServed(b, a, io.recvPx, now, keep) else keep && a == b
    case Splice =>
      exists why: Option<Closing> :: (keep <==> why.None?)
        && SpliceServed(b, a, io.pxWritable, io.phReadable, io.sendPx, io.recvPh,
                        io.phWritable, io.pxReadable, io.sendPh, io.recvPx, now, why)
  }

  ghost predicate RoomIn(b: Books) { exists i :: 0 <= i < |b.sessions| && b.sessions[i].None? }

  /** Slot i now has session s; no other slot, and no history, has changed. */
  ghost predicate SlotSet(b: Books, i: nat, s: Option<State>, b': Books)
    requires i < |b.sessions| && i < |b.view| && |b'.view| == |b.view|
  {
    && b'.sessions == b.sessions[i := s] && b'.hist == b.hist && b'.view == b.view[i := b'.view[i]]
    && (b.view[i].Used? && b'.view[i].Used? ==> b'.view[i].mem == b.view[i].mem)
  }

  /** Slot i is empty, and its session's port is marked closed in the flow table. */
  ghost predicate Emptied(b: Books, i: nat, now: u32, b': Books)
    requires i < |b.sessions| && i < |b.view| && |b'.view| == |b.view| && b.sessions[i].Some?
  {
    SlotSet(b, i, None, b') && FlowTable.ClosedAt(b.flows, b'.flows, b.sessions[i].value.phonePort, now)
  }

  /** A step does to the books exactly this. */
  ghost predicate Entered(b: Books, step: Step, b': Books)
    requires |b.sessions| == |b.view| == |b'.view| == SESS_MAX
  {
    match step
    case Serve(i, io, now) => ServeEntered(b, i, io, now, b')
    case Accept(tls, c, peerIsPhone, pport, memory, now) =>
      AcceptEntered(b, tls, Arrival(c, peerIsPhone, pport, memory), now, b')
    case Late(i, now) => LateEntered(b, i, now, b')
    case FromPhone(packet, ready, wifiUp, now) =>
      HookEntered(b, packet, ready && wifiUp, now, b')
    case ToPhone(packet, _, now) =>
      b' == b.(flows := b'.flows) && FlowTable.Passed(b.flows, b'.flows, b.hist, packet, now)
    case NewLink =>
      && b' == b.(flows := b'.flows, hist := b.hist + [FlowTable.Reset])
      && forall i :: 0 <= i < |b'.flows| ==> b'.flows[i].state == FlowTable.Free
  }

  /** A used slot whose sockets can answer so is served: its session goes on as Serves says, or is closed. */
  ghost predicate ServeEntered(b: Books, i: nat, io: Io, now: u32, b': Books)
    requires |b.sessions| == |b.view| == |b'.view| == SESS_MAX
  {
    if CanServe(b, i, io) then
      exists keep, a :: Serves(b.sessions[i].value, a, io, now, keep)
        && if keep then SlotSet(b, i, Some(a), b') && b'.flows == b.flows else Emptied(b, i, now, b')
    else b' == b
  }

  ghost predicate HookEntered(b: Books, packet: seq<byte>, open: bool, now: u32, b': Books) {
    && b' == b.(flows := b'.flows, hist := b'.hist)
    && FlowTable.Noted(b.flows, b'.flows, b.hist, b'.hist, packet, open, now)
  }

  ghost predicate LateEntered(b: Books, i: nat, now: u32, b': Books)
    requires |b.sessions| == |b.view| == |b'.view| == SESS_MAX
  {
    if i < SESS_MAX && b.sessions[i].Some? && Expired(now, b.sessions[i].value.deadline) then Emptied(b, i, now, b')
    else b' == b
  }

  lemma NotLate(b: Books, i: nat, now: u32)
    requires |b.sessions| == |b.view| == SESS_MAX
    requires !(i < SESS_MAX && b.sessions[i].Some? && Expired(now, b.sessions[i].value.deadline))
    ensures LateEntered(b, i, now, b)
  {
  }

  lemma NowEmpty(b: Books, i: nat, now: u32, b': Books)
    requires |b.sessions| == |b.view| == SESS_MAX && i < SESS_MAX
    requires b.sessions[i].Some? && Expired(now, b.sessions[i].value.deadline)
    requires b'.sessions == b.sessions[i := None] && b'.view == b.view[i := Unused] && b'.hist == b.hist
    requires FlowTable.ClosedAt(b.flows, b'.flows, b.sessions[i].value.phonePort, now)
    ensures |b'.view| == SESS_MAX && LateEntered(b, i, now, b')
  {
    hide FlowTable.ClosedAt;
  }

  ghost predicate CanServe(b: Books, i: nat, io: Io) {
    && i < |b.sessions| && b.sessions[i].Some?
    && var s := b.sessions[i].value;
       Possible(s.st, |s.heldUp|, |s.heldDown|, b.fds, io)
  }

  /** A connection the input hook redirected gets the first free slot, for the address it dialled, if there is one and
      memory for it; otherwise its port is marked closed. Any other is turned away. */
  ghost predicate AcceptEntered(b: Books, tls: bool, arrival: Arrival, now: u32, b': Books)
    requires |b.sessions| == |b.view| == |b'.view| == SESS_MAX
  {
    var port := arrival.pport;
    if !(arrival.c >= 0 && arrival.c !in b.fds && arrival.peerIsPhone
         && FlowTable.Expected(b.flows, port, ListenPort(tls)))
    then b' == b
    else if arrival.memory && RoomIn(b) then
      var dialled := FlowTable.Dialled(b.hist, port);
      && dialled.Some? && dialled.value.port == (if tls then 443 else 80)
      && FlowTable.Born(b.hist, port).Some? && b'.flows == b.flows
      && exists k: nat :: k < SESS_MAX && b.sessions[k].None? && (forall j :: 0 <= j < k ==> b.sessions[j].Some?)
           && SlotSet(b, k, Some(NewSession(tls, arrival.c, port, dialled.value.ip, now)), b')
    else b' == b.(flows := b'.flows) && FlowTable.ClosedAt(b.flows, b'.flows, port, now)
  }

  /** What AcceptEntered comes to for the slot k that do_accept gives, or none. */
  lemma AcceptIs(b: Books, tls: bool, arrival: Arrival, now: u32, k: int, b': Books)
    requires |b.sessions| == |b.view| == |b'.view| == SESS_MAX && -1 <= k < SESS_MAX
    requires var redirected := arrival.c >= 0 && arrival.c !in b.fds && arrival.peerIsPhone
                               && FlowTable.Expected(b.flows, arrival.pport, ListenPort(tls));
             && (k >= 0 <==> redirected && arrival.memory && RoomIn(b))
             && if redirected && k == -1 then FlowTable.ClosedAt(b.flows, b'.flows, arrival.pport, now)
                else b'.flows == b.flows
    requires k == -1 ==> b' == b.(flows := b'.flows)
    requires k >= 0 ==>
               var dialled := FlowTable.Dialled(b.hist, arrival.pport);
               && dialled.Some? && dialled.value.port == (if tls then 443 else 80)
               && FlowTable.Born(b.hist, arrival.pport).Some?
               && b.sessions[k].None? && (forall j :: 0 <= j < k ==> b.sessions[j].Some?)
               && SlotSet(b, k, Some(NewSession(tls, arrival.c, arrival.pport, dialled.value.ip, now)), b')
    ensures AcceptEntered(b, tls, arrival, now, b')
  {
    hide SlotSet, FlowTable.ClosedAt, FlowTable.Expected, FlowTable.Dialled, FlowTable.Born, RoomIn, NewSession;
  }

  /** The books before and after each of these steps. */
  ghost predicate Traced(trace: seq<Books>, steps: seq<Step>, listeners: set<int>) {
    && |trace| == |steps| + 1
    && (forall n :: 0 <= n <= |steps| ==> BooksOk(trace[n], listeners))
    && (forall n :: 0 <= n < |steps| ==> EnteredAt(trace, steps, n))
  }

  ghost predicate EnteredAt(trace: seq<Books>, steps: seq<Step>, n: nat) {
    && n < |steps| && n + 1 < |trace|
    && |trace[n].sessions| == |trace[n].view| == |trace[n + 1].view| == SESS_MAX
    && Entered(trace[n], steps[n], trace[n + 1])
  }

  function Take(tls: bool, arrival: Arrival, now: u32): Step {
    Accept(tls, arrival.c, arrival.peerIsPhone, arrival.pport, arrival.memory, now)
  }

  function Served(ios: seq<Io>, now: u32, n: nat): seq<Step>
    requires n <= |ios|
  {
    seq(n, i requires 0 <= i < n => Serve(i, ios[i], now))
  }

  function Looked(now: u32, n: nat): seq<Step> { seq(n, i requires 0 <= i < n => Late(i, now)) }

  /** The steps of one pass of proxy_task: every slot is served, both listeners are asked if new connections are let in,
      every slot is looked at for lateness. */
  function PassSteps(ios: seq<Io>, plain: Arrival, secure: Arrival, admit: bool, now: u32): seq<Step>
    requires |ios| == SESS_MAX
  {
    Served(ios, now, SESS_MAX) + (if admit then [Take(false, plain, now), Take(true, secure, now)] else [])
    + Looked(now, SESS_MAX)
  }

  lemma OneChanged<T>(a: seq<T>, b: seq<T>, k: nat)
    requires |a| == |b| && k < |a| && forall j :: 0 <= j < |a| && j != k ==> b[j] == a[j]
    ensures b == a[k := b[k]]
  {
  }

  /** The steps lead from these books to those, by way of the trace. */
  ghost predicate Leads(b: Books, trace: seq<Books>, steps: seq<Step>, b': Books, listeners: set<int>) {
    Traced(trace, steps, listeners) && |trace| == |steps| + 1 && trace[0] == b && trace[|steps|] == b'
  }

  lemma NoStep(b: Books, listeners: set<int>)
    requires BooksOk(b, listeners)
    ensures Leads(b, [b], [], b, listeners)
  {
    hide BooksOk, Entered;
  }

  lemma OneStep(b: Books, trace: seq<Books>, steps: seq<Step>, b': Books, step: Step, b'': Books, listeners: set<int>)
    requires Leads(b, trace, steps, b', listeners) && BooksOk(b', listeners) && BooksOk(b'', listeners)
    requires Entered(b', step, b'')
    ensures Leads(b, trace + [b''], steps + [step], b'', listeners)
  {
    hide Entered, Accounted;
    forall n: nat | n <= |steps|
      ensures EnteredAt(trace + [b''], steps + [step], n)
    {
      assert n < |steps| ==> EnteredAt(trace, steps, n);
    }
  }

  /** One run and then another. */
  lemma Joined(b: Books, first: seq<Books>, before: seq<Step>, b': Books, second: seq<Books>, after: seq<Step>,
               b'': Books, listeners: set<int>) returns (trace: seq<Books>)
    requires Leads(b, first, before, b', listeners) && Leads(b', second, after, b'', listeners)
    ensures Leads(b, trace, before + after, b'', listeners)
  {
    hide Entered, BooksOk;
    trace := first + second[1..];
    assert forall n :: |before| <= n < |trace| ==> trace[n] == second[n - |before|];
    forall n: nat | n < |before + after|
      ensures EnteredAt(trace, before + after, n)
    {
      if n < |before| {
        assert EnteredAt(first, before, n);
      } else {
        assert EnteredAt(second, after, n - |before|);
      }
    }
  }

  // ---------------------------------------------------------------- what a pass comes to

  /** The step leaves what slot i holds as it is. */
  predicate Spares(step: Step, i: nat, held: Option<State>) {
    match step
    case Serve(j, _, _) => j != i
    case Late(j, _) => j != i
    case Accept(_, _, _, _, _, _) => held.Some?
    case _ => true
  }

  lemma SlotSpared(b: Books, step: Step, b': Books, i: nat, listeners: set<int>)
    requires BooksOk(b, listeners) && BooksOk(b', listeners) && Entered(b, step, b') && i < SESS_MAX
    requires Spares(step, i, b.sessions[i])
    ensures b'.sessions[i] == b.sessions[i]
  {
    hide Accounted, Serves, FlowTable.ClosedAt, NewSession, FlowTable.Noted, FlowTable.Passed, FlowTable.Expected;
    hide CanServe, FlowTable.Dialled, FlowTable.Born;
  }

  lemma {:induction false} SlotWaits(trace: seq<Books>, steps: seq<Step>, m: nat, n: nat, i: nat,
                                     listeners: set<int>)
    requires Traced(trace, steps, listeners) && m <= n < |trace| == |steps| + 1 && i < SESS_MAX
    requires forall k :: 0 <= k < |trace| ==> |trace[k].sessions| == SESS_MAX
    requires forall k :: m <= k < n ==> Spares(steps[k], i, trace[m].sessions[i])
    ensures trace[n].sessions[i] == trace[m].sessions[i]
    decreases n
  {
    hide Entered, Accounted, Spares;
    if m != n {
      SlotWaits(trace, steps, m, n - 1, i, listeners);
      assert EnteredAt(trace, steps, n - 1);
      SlotSpared(trace[n - 1], steps[n - 1], trace[n], i, listeners);
    }
  }

  /** Step n of a trace. */
  lemma StepAt(trace: seq<Books>, steps: seq<Step>, n: nat, listeners: set<int>)
    requires Traced(trace, steps, listeners) && n < |steps|
    ensures |trace| == |steps| + 1 && |trace[n].sessions| == |trace[n].view| == |trace[n + 1].view| == SESS_MAX
    ensures forall k :: 0 <= k < |trace| ==> |trace[k].sessions| == SESS_MAX
    ensures Entered(trace[n], steps[n], trace[n + 1])
  {
    hide Entered, Accounted;
    assert EnteredAt(trace, steps, n);
  }

  /** The session, unless it is late. */
  function InTime(s: State, now: u32): Option<State> { if Expired(now, s.deadline) then None else Some(s) }

  /** From its service to the end of the pass, a used slot is only looked at for lateness. */
  lemma RestOfPass(trace: seq<Books>, ios: seq<Io>, plain: Arrival, secure: Arrival, admit: bool, now: u32,
                   listeners: set<int>, i: nat)
    requires |ios| == SESS_MAX && i < SESS_MAX
    requires Traced(trace, PassSteps(ios, plain, secure, admit, now), listeners)
    requires i + 1 < |trace| && |trace[i + 1].sessions| == SESS_MAX && trace[i + 1].sessions[i].Some?
    ensures |trace[|trace| - 1].sessions| == SESS_MAX
    ensures trace[|trace| - 1].sessions[i] == InTime(trace[i + 1].sessions[i].value, now)
  {
    hide Entered, Traced;
    var steps := PassSteps(ios, plain, secure, admit, now);
    var late := |steps| - SESS_MAX + i;
    StepAt(trace, steps, late, listeners);
    assert steps[late] == Late(i, now);
    SlotWaits(trace, steps, i + 1, late, i, listeners);
    LateIs(trace[late], i, now, trace[late + 1]);
    SlotWaits(trace, steps, late + 1, |steps|, i, listeners);
  }

  lemma LateIs(b: Books, i: nat, now: u32, b': Books)
    requires |b.sessions| == |b.view| == |b'.view| == SESS_MAX && i < SESS_MAX && Entered(b, Late(i, now), b')
    ensures |b'.sessions| == SESS_MAX
    ensures b'.sessions[i] == if b.sessions[i].None? then None else InTime(b.sessions[i].value, now)
  {
  }

  /** A slot in use when a pass begins is served, if its sockets can answer so. A session that lives on is there at the
      end as its service left it, one that cannot be served as it was, unless it is late by then. */
  lemma PassOnSlot(b: Books, trace: seq<Books>, ios: seq<Io>, plain: Arrival, secure: Arrival, admit: bool, now: u32,
                   b': Books, listeners: set<int>, i: nat)
    requires |ios| == SESS_MAX && Leads(b, trace, PassSteps(ios, plain, secure, admit, now), b', listeners)
    requires i < SESS_MAX && |b.sessions| == SESS_MAX && b.sessions[i].Some?
    ensures i + 1 < |trace| && |trace[i + 1].sessions| == |b'.sessions| == SESS_MAX
    ensures var s := b.sessions[i].value;
            if Possible(s.st, |s.heldUp|, |s.heldDown|, trace[i].fds, ios[i]) then
              exists keep, a :: Serves(s, a, ios[i], now, keep)
                && if keep then b'.sessions[i] == InTime(a, now) else trace[i + 1].sessions[i].None?
            else b'.sessions[i] == InTime(s, now)
  {
    hide Entered, Traced, Serves, Possible;
    var steps := PassSteps(ios, plain, secure, admit, now);
    StepAt(trace, steps, i, listeners);
    assert steps[i] == Serve(i, ios[i], now);
    SlotWaits(trace, steps, 0, i, i, listeners);
    ServeIs(trace[i], i, ios[i], now, trace[i + 1]);
    StepAt(trace, steps, i + 1, listeners);
    if trace[i + 1].sessions[i].Some? {
      RestOfPass(trace, ios, plain, secure, admit, now, listeners, i);
    }
  }

  lemma ServeIs(b: Books, i: nat, io: Io, now: u32, b': Books)
    requires |b.sessions| == |b.view| == |b'.view| == SESS_MAX && i < SESS_MAX && Entered(b, Serve(i, io, now), b')
    requires b.sessions[i].Some?
    ensures |b'.sessions| == SESS_MAX
    ensures var s := b.sessions[i].value;
            if Possible(s.st, |s.heldUp|, |s.heldDown|, b.fds, io) then
              exists keep, a :: Serves(s, a, io, now, keep) && b'.sessions[i] == if keep then Some(a) else None
            else b'.sessions[i] == Some(s)
  {
    hide Serves, Possible, FlowTable.ClosedAt;
  }

  /** At the end of a pass no session is late. */
  lemma NobodyLate(b: Books, trace: seq<Books>, ios: seq<Io>, plain: Arrival, secure: Arrival, admit: bool, now: u32,
                   b': Books, listeners: set<int>, i: nat)
    requires |ios| == SESS_MAX && Leads(b, trace, PassSteps(ios, plain, secure, admit, now), b', listeners)
    requires i < SESS_MAX
    ensures |b'.sessions| == SESS_MAX && (b'.sessions[i].Some? ==> !Expired(now, b'.sessions[i].value.deadline))
  {
    hide Entered, Traced;
    var steps := PassSteps(ios, plain, secure, admit, now);
    var late := |steps| - SESS_MAX + i;
    StepAt(trace, steps, late, listeners);
    assert steps[late] == Late(i, now);
    LateIs(trace[late], i, now, trace[late + 1]);
    SlotWaits(trace, steps, late + 1, |steps|, i, listeners);
  }

  /** With room at the start and heap enough, both listeners are asked once the sessions have been served. */
  lemma PassLetsIn(b: Books, trace: seq<Books>, ios: seq<Io>, plain: Arrival, secure: Arrival, now: u32, b': Books,
                   listeners: set<int>)
    requires |ios| == SESS_MAX && Leads(b, trace, PassSteps(ios, plain, secure, true, now), b', listeners)
    ensures |trace| == 11 && (forall n :: 4 <= n <= 6 ==> |trace[n].sessions| == |trace[n].view| == SESS_MAX)
    ensures AcceptEntered(trace[4], false, plain, now, trace[5]) && AcceptEntered(trace[5], true, secure, now, trace[6])
  {
    hide Traced, AcceptEntered;
    var steps := PassSteps(ios, plain, secure, true, now);
    StepAt(trace, steps, 4, listeners);
    StepAt(trace, steps, 5, listeners);
  }

  /** What accept() gives on a listener, c being -1 if nothing, and what the peer and the allocator are like. */
  datatype Arrival = Arrival(c: int, peerIsPhone: bool, pport: u16, memory: bool)

  type Buffer = array<octet>

  /** The port of a listener. */
  function ListenPort(tls: bool): u16 { if tls then FlowTable.RELAY_TLS_PORT else FlowTable.RELAY_HTTP_PORT }

  /** What select and the socket calls answer during one service of a session. */
  datatype Io = Io(
    phReadable: bool, phWritable: bool, pxReadable: bool, pxWritable: bool,
    recvPh: Received, recvPx: Received, sendPh: Sending, sendPx: Sending,
    memory: bool, address: bool, sock: int, outcome: Connecting, connectSent: bool, connectError: bool)

  class Task {
    const lh: int
    const lt: int
    const slots: array<Session?>
    const table: FlowTable.Table
    var active: int
    /** The sockets the task holds open, as the socket layer knows them. */
    var fds: set<int>
    /** The live session buffers. */
    ghost var buffers: set<Buffer>
    ghost var view: seq<Slot<Buffer>>
    /** Everything the slots reach, with the slot that owns it. */
    ghost var owner: map<object?, int>

    /** Each slot's objects are its own. */
    ghost predicate Shape()
      reads this, slots
    {
      && slots.Length == SESS_MAX
      && this !in owner && slots as object !in owner && table !in owner && table.flows !in owner
      && forall i :: 0 <= i < SESS_MAX && slots[i] != null ==>
           && slots[i] in owner && owner[slots[i]] == i
           && slots[i].up in owner && owner[slots[i].up] == i
           && slots[i].down in owner && owner[slots[i].down] == i
           && slots[i].up != slots[i].down
    }

    /** view is what the slots own. */
    ghost predicate Synced()
      requires Shape()
      reads this, slots, owner.Keys
    {
      && |view| == SESS_MAX
      && forall i :: 0 <= i < SESS_MAX ==>
           view[i] == if slots[i] == null then Unused else Used(slots[i].ph, slots[i].px, slots[i].up)
    }

    /** The books balance, were these the open sockets. */
    ghost predicate Balanced(open: set<int>)
      reads this, slots, owner.Keys
    {
      Shape() && Synced() && lh >= 0 && lt >= 0 && lh != lt && Accounted(view, {lh, lt}, open, buffers, active)
    }

    ghost predicate Accounts()
      reads this, slots, owner.Keys
    {
      Balanced(fds)
    }

    /** Every session but perhaps the one at busy is in order. */
    ghost predicate SessionsOk(busy: int)
      requires Shape()
      reads this, slots, owner.Keys
    {
      forall i :: 0 <= i < SESS_MAX && i != busy && slots[i] != null ==> slots[i].Valid()
    }

    /** All but the flow table is in order. */
    ghost predicate Orderly()
      reads this, slots, owner.Keys
    {
      Accounts() && SessionsOk(-1)
    }

    ghost predicate Valid()
      reads this, slots, owner.Keys, table, table.flows
    {
      Orderly() && table.Valid()
    }

    /** The table is not among what the slots reach. */
    lemma TableApart()
      requires Orderly()
      ensures table !in owner && table.flows !in owner && slots.Length == |view| == SESS_MAX
    {
      hide Accounted, Session.Valid;
    }

    /** After slot i was served its session is still there or, if it had to go, closed with its flow; nothing else
        of the slots and the flow table has changed. */
    twostate predicate Kept(i: nat, keep: bool, now: u32)
      requires i < SESS_MAX && slots.Length == SESS_MAX && old(slots[i]) != null
      reads this, slots, table, table.flows
    {
      && slots[i] == (if keep then old(slots[i]) else null)
      && (forall j :: 0 <= j < SESS_MAX && j != i ==> slots[j] == old(slots[j]))
      && table.hist == old(table.hist)
      && if keep then table.flows[..] == old(table.flows[..])
         else FlowTable.ClosedAt(old(table.flows[..]), table.flows[..], old(slots[i].phonePort), now)
    }

    constructor (lh: int, lt: int, table: FlowTable.Table)
      requires table.Valid() && lh >= 0 && lt >= 0 && lh != lt
      ensures Valid() && active == 0 && fds == {lh, lt} && buffers == {} && this.table == table
    {
      this.lh, this.lt, this.table := lh, lt, table;
      slots := new Session?[SESS_MAX](_ => null);
      active, fds, buffers, owner := 0, {lh, lt}, {}, map[];
      view := [Unused, Unused, Unused, Unused];
      new;
      NothingUsed(view);
    }

    /** close(): only ever called on a socket that is open. */
    method CloseSocket(fd: int)
      requires fd in fds
      modifies `fds
      ensures fds == old(fds) - {fd}
    {
      fds := fds - {fd};
    }

    /** free(): only ever called on a live buffer. */
    ghost method FreeBuffer(b: Buffer)
      requires b in buffers
      modifies `buffers
      ensures buffers == old(buffers) - {b}
    {
      buffers := buffers - {b};
    }

    /** Close what slot i owns. */
    method Release(i: nat)
      requires Accounts() && i < SESS_MAX && slots[i] != null
      modifies `fds, `buffers
      ensures fds == old(fds) - SocketsOf(view[i]) && buffers == old(buffers) - BuffersOf(view[i])
    {
      Closed(view, i, {lh, lt}, fds, buffers, active);
      hide Accounted;
      var s := slots[i];
      CloseSocket(s.ph);
      if s.px >= 0 { CloseSocket(s.px); }
      FreeBuffer(s.up);
    }

    /** sess_close */
    method SessClose(i: nat, now: u32)
      requires Accounts() && i < SESS_MAX && slots[i] != null && SessionsOk(i) && table.Valid()
      modifies `active, `fds, `buffers, `view, slots, table.flows
      ensures Valid() && view == old(view)[i := Unused]
      ensures fds == old(fds) - SocketsOf(old(view)[i]) && buffers == old(buffers) - BuffersOf(old(view)[i])
      ensures Kept(i, false, now)
    {
      hide Session.Valid, Accounted, FlowTable.Table.Valid, FlowTable.ClosedAt;
      Closed(view, i, {lh, lt}, fds, buffers, active);
      var port := slots[i].phonePort;
      Release(i);
      table.MarkClosed(port, now);
      slots[i] := null;
      active := active - 1;
      view := view[i := Unused];
    }

    /** The first unused slot. */
    method FreeSlot() returns (k: int)
      requires Shape()
      ensures -1 <= k < SESS_MAX && (k >= 0 ==> slots[k] == null && forall i :: 0 <= i < k ==> slots[i] != null)
      ensures k == -1 ==> forall i :: 0 <= i < SESS_MAX ==> slots[i] != null
    {
      for i := 0 to SESS_MAX
        invariant forall j :: 0 <= j < i ==> slots[j] != null
      {
        if slots[i] == null {
          return i;
        }
      }
      return -1;
    }

    /** Fill slot k with a new session. */
    method Occupy(k: nat, tls: bool, c: int, pport: u16, origIp: Ip4, now: u32)
      requires Balanced(fds - {c}) && SessionsOk(-1) && table.Valid()
      requires k < SESS_MAX && slots[k] == null && c >= 0 && c in fds
      modifies `active, `buffers, `owner, `view, slots
      ensures Valid() && active == old(active) + 1
      ensures old(owner.Keys) <= owner.Keys && fresh(owner.Keys - old(owner.Keys))
      ensures forall j :: 0 <= j < SESS_MAX && j != k ==> slots[j] == old(slots[j])
      ensures slots[k] != null && fresh(slots[k]) && slots[k].Now() == NewSession(tls, c, pport, origIp, now)
              && view == old(view)[k := Used(c, -1, slots[k].up)]
    {
      hide Session.Valid, Accounted, FlowTable.Table.Valid, Synced;
      var s := new Session(tls, c, pport, origIp, now);
      Register(k, s);
    }

    /** The slot, the counter and the books of a session just made. */
    method Register(k: nat, s: Session)
      requires Balanced(fds - {s.ph}) && SessionsOk(-1) && table.Valid() && k < SESS_MAX && slots[k] == null
      requires s.Valid() && s.ph >= 0 && s.ph in fds && s.px == -1
      requires s !in owner && s.up !in owner && s.down !in owner && s.up != s.down
      modifies `active, `buffers, `owner, `view, slots
      ensures Valid() && active == old(active) + 1
      ensures owner.Keys == old(owner.Keys) + {s, s.up, s.down}
      ensures slots[k] == s && view == old(view)[k := Used(s.ph, -1, s.up)]
      ensures forall j :: 0 <= j < SESS_MAX && j != k ==> slots[j] == old(slots[j])
    {
      hide Session.Valid, Accounted, FlowTable.Table.Valid;
      BuffersKnown(fds - {s.ph});
      Opened(view, k, s.ph, s.up, {lh, lt}, fds - {s.ph}, buffers, active);
      assert fds - {s.ph} + {s.ph} == fds;
      slots[k] := s;
      active := active + 1;
      buffers := buffers + {s.up};
      owner := owner[s := k][s.up := k][s.down := k];
      view := view[k := Used(s.ph, -1, s.up)];
    }

    /** Live buffers belong to slots, so a new buffer is not among them. */
    lemma BuffersKnown(open: set<int>)
      requires Balanced(open)
      ensures forall b :: b in buffers ==> b in owner
    {
      AllBuffersIn(view, set b: Buffer | b in owner);
    }

    /** accept(): a socket that was not open before. */
    method Accepted(c: int)
      modifies `fds
      ensures fds == old(fds) + {c}
    {
      fds := fds + {c};
    }

    ghost predicate Room()
      requires slots.Length == SESS_MAX
      reads slots
    {
      exists i :: 0 <= i < SESS_MAX && slots[i] == null
    }

    /** do_accept: c is the accepted socket, -1 if there was none. Gives the slot of the new session, or -1, in
        which case c has been closed again. */
    method DoAccept(tls: bool, c: int, peerIsPhone: bool, pport: u16, memory: bool, now: u32) returns (k: int)
      requires Valid() && (c >= 0 ==> c !in fds)
      modifies `active, `fds, `buffers, `owner, `view, slots, table.flows
      ensures Valid() && -1 <= k < SESS_MAX && table.hist == old(table.hist)
      ensures old(owner.Keys) <= owner.Keys && fresh(owner.Keys - old(owner.Keys))
      // a connection gets a session exactly if the input hook redirected it and there are a slot and memory for it
      ensures var expected := old(FlowTable.Expected(table.flows[..], pport, ListenPort(tls)));
              var redirected := c >= 0 && peerIsPhone && expected;
              && (k >= 0 <==> redirected && memory && old(Room()))
              && if redirected && k == -1
                 then FlowTable.ClosedAt(old(table.flows[..]), table.flows[..], pport, now)
                 else table.flows[..] == old(table.flows[..])
      ensures k == -1 ==> unchanged(this)
      ensures forall j :: 0 <= j < SESS_MAX && j != k ==> slots[j] == old(slots[j])
      // the session is for the address the phone dialled, with a flow of its own
      ensures k >= 0 ==>
                var dialled := FlowTable.Dialled(table.hist, pport);
                && dialled.Some? && dialled.value.port == (if tls then 443 else 80)
                && FlowTable.Born(table.hist, pport).Some?
                && old(slots[k]) == null && (forall j :: 0 <= j < k ==> old(slots[j]) != null)
                && slots[k] != null && slots[k].Now() == NewSession(tls, c, pport, dialled.value.ip, now)
                && view == old(view)[k := Used(c, -1, slots[k].up)] && fds == old(fds) + {c}
    {
      hide Session.Valid, Accounted, FlowTable.Table.Valid, FlowTable.Expected, FlowTable.Born, FlowTable.Dialled;
      if c < 0 {
        return -1;
      }
      Accepted(c);
      assert fds - {c} == old(fds);
      var dest: Option<FlowTable.Dest> := None;
      if peerIsPhone {
        dest := table.Lookup(pport, ListenPort(tls));
      }
      if dest.None? {
        CloseSocket(c);
        return -1;
      }
      k := FreeSlot();
      if k == -1 || !memory {
        CloseSocket(c);
        table.MarkClosed(pport, now);
        return -1;
      }
      Occupy(k, tls, c, pport, dest.value.ip, now);
    }

    /** The session in slot i now has a proxy socket. */
    method Attach(i: nat, was: int)
      requires Shape() && lh >= 0 && lt >= 0 && lh != lt && i < SESS_MAX && slots[i] != null && was < 0
      requires |view| == SESS_MAX && view[i] == Used(slots[i].ph, was, slots[i].up)
      requires forall j :: 0 <= j < SESS_MAX && j != i ==>
                 view[j] == if slots[j] == null then Unused else Used(slots[j].ph, slots[j].px, slots[j].up)
      requires Accounted(view, {lh, lt}, fds, buffers, active)
      requires slots[i].px == was || (slots[i].px >= 0 && slots[i].px !in fds)
      modifies `fds, `view
      ensures Accounts()
      ensures view == old(view)[i := Used(slots[i].ph, slots[i].px, slots[i].up)]
      ensures fds == old(fds) + if slots[i].px >= 0 then {slots[i].px} else {}
    {
      hide Accounted;
      if slots[i].px >= 0 {
        Attached(view, i, slots[i].px, {lh, lt}, fds, buffers, active);
        fds := fds + {slots[i].px};
        view := view[i := view[i].(px := slots[i].px)];
      }
    }

    /** The sockets of slot i's session can answer so. */
    predicate CanAnswer(i: nat, io: Io)
      requires slots.Length == SESS_MAX && i < SESS_MAX && slots[i] != null
      reads this, slots, slots[i]
    {
      var s := slots[i];
      Possible(s.st, s.upLen - s.upOff, s.downLen - s.downOff, fds, io)
    }

    /** sess_service in S_HEAD. */
    method ServiceHead(i: nat, io: Io, now: u32)
      requires Valid() && i < SESS_MAX && slots[i] != null && slots[i].st == Head
      requires CanAnswer(i, io)
      modifies `active, `fds, `buffers, `view, slots, table.flows, slots[i], slots[i].up
      ensures Valid()
      ensures Kept(i, slots[i] != null, now)
      ensures Serves(old(slots[i].Now()), old(slots[i]).Now(), io, now, slots[i] != null)
    {
      hide Session.Valid, Session.Now, Accounted, FlowTable.Table.Valid, HeadServed;
      if !io.phReadable {
        return;
      }
      var s := slots[i];
      HeadHasNoProxy(i);
      ghost var b := s.Now();
      var keep := s.HeadReadable(io.recvPh, io.memory, io.address, io.sock, io.outcome, io.connectSent, now);
      HeadSocket(b, s.Now(), io.recvPh, io.memory, io.address, io.sock, io.outcome, io.connectSent, now, keep);
      Attach(i, -1);
      if !keep {
        SessClose(i, now);
      }
    }

    lemma HeadHasNoProxy(i: nat)
      requires Valid() && i < SESS_MAX && slots[i] != null && slots[i].st == Head
      ensures slots[i].px == -1 && slots[i].upOff == 0
    {
      assert slots[i].Valid();
    }

    /** Close the session in slot i if it has to go, having changed nothing but its own state. */
    method Settle(i: nat, keep: bool, now: u32)
      requires Accounts() && i < SESS_MAX && slots[i] != null && SessionsOk(i) && table.Valid()
      requires keep ==> slots[i].Valid()
      modifies `active, `fds, `buffers, `view, slots, table.flows
      ensures Valid() && view == if keep then old(view) else old(view)[i := Unused]
      ensures fds == if keep then old(fds) else old(fds) - SocketsOf(old(view)[i])
      ensures Kept(i, keep, now)
    {
      hide Session.Valid, Accounted, FlowTable.Table.Valid;
      if !keep {
        SessClose(i, now);
      }
    }

    lemma Busy(i: nat)
      requires Valid() && i < SESS_MAX && slots[i] != null
      ensures slots[i].Valid() && (slots[i].st == Connect ==> slots[i].Ready() && slots[i].px >= 0)
      ensures slots[i].st == Reply ==> slots[i].downOff == 0
    {
    }

    /** sess_service in S_CONNECTING. */
    method ServiceConnect(i: nat, io: Io, now: u32)
      requires Valid() && i < SESS_MAX && slots[i] != null && slots[i].st == Connect
      modifies `active, `fds, `buffers, `view, slots, table.flows, slots[i]
      ensures Valid()
      ensures Kept(i, slots[i] != null, now)
      ensures Serves(old(slots[i].Now()), old(slots[i]).Now(), io, now, slots[i] != null)
    {
      hide Session.Valid, Session.Ready, Accounted, FlowTable.Table.Valid, ConnectRequest;
      Busy(i);
      if !io.pxWritable {
        return;
      }
      if io.connectError {
        Settle(i, false, now);
        return;
      }
      var keep := slots[i].OnConnected(io.connectSent, now);
      Settle(i, keep, now);
    }

    /** sess_service in S_REPLY. */
    method ServiceReply(i: nat, io: Io, now: u32)
      requires Valid() && i < SESS_MAX && slots[i] != null && slots[i].st == Reply
      requires CanAnswer(i, io)
      modifies `active, `fds, `buffers, `view, slots, table.flows, slots[i], slots[i].down
      ensures Valid()
      ensures Kept(i, slots[i] != null, now)
      ensures Serves(old(slots[i].Now()), old(slots[i]).Now(), io, now, slots[i] != null)
    {
      hide Session.Valid, Accounted, FlowTable.Table.Valid, BlankIn, Accepts;
      Busy(i);
      if !io.pxReadable {
        return;
      }
      var keep := slots[i].ReplyReadable(io.recvPx, now);
      Settle(i, keep, now);
    }

    /** sess_service in S_SPLICE. */
    method ServiceSplice(i: nat, io: Io, now: u32)
      requires Valid() && i < SESS_MAX && slots[i] != null && slots[i].st == Splice
      requires CanAnswer(i, io)
      modifies `active, `fds, `buffers, `view, slots, table.flows, slots[i], slots[i].up, slots[i].down
      ensures Valid()
      ensures Kept(i, slots[i] != null, now)
      ensures Serves(old(slots[i].Now()), old(slots[i]).Now(), io, now, slots[i] != null)
    {
      hide Session.Valid, Session.Splicing, Session.Now, Accounted, FlowTable.Table.Valid, SpliceServed;
      var s := slots[i];
      Busy(i);
      s.InBuffers();
      var why := s.SpliceTurn(io.pxWritable, io.phReadable, io.sendPx, io.recvPh,
                              io.phWritable, io.pxReadable, io.sendPh, io.recvPx, now);
      s.InBuffers();
      Settle(i, why.None?, now);
    }

    /** The end of a pass of proxy_task: a session past its deadline is closed, any other is kept. */
    method Expire(i: nat, now: u32)
      requires Valid() && i < SESS_MAX
      modifies `active, `fds, `buffers, `view, slots, table.flows
      ensures Valid()
      ensures var late := old(slots[i]) != null && Expired(now, old(slots[i].deadline));
              && view == (if late then old(view)[i := Unused] else old(view))
              && if late then Kept(i, false, now)
                 else unchanged(this) && slots[..] == old(slots[..]) && table.flows[..] == old(table.flows[..])
    {
      hide Session.Valid, Accounted, FlowTable.Table.Valid;
      if slots[i] != null && Expired(now, slots[i].deadline) {
        SessClose(i, now);
      }
    }

    // -------------------------------------------------------------- the task as a whole

    /** sess_service */
    method Service(i: nat, io: Io, now: u32)
      requires Valid() && i < SESS_MAX && slots[i] != null && CanAnswer(i, io)
      modifies `active, `fds, `buffers, `view, slots, table.flows, slots[i], slots[i].up, slots[i].down
      ensures Valid()
      ensures Kept(i, slots[i] != null, now)
      ensures Serves(old(slots[i].Now()), old(slots[i]).Now(), io, now, slots[i] != null)
      ensures owner == old(owner)
      ensures forall j :: 0 <= j < SESS_MAX && j != i && slots[j] != null ==> slots[j].Now() == old(slots[j].Now())
    {
      hide Session.Valid, Session.Now, Accounted, FlowTable.Table.Valid, FlowTable.ClosedAt, Serves, Possible;
      match slots[i].st
      case Head => ServiceHead(i, io, now);
      case Connect => ServiceConnect(i, io, now);
      case Reply => ServiceReply(i, io, now);
      case Splice => ServiceSplice(i, io, now);
    }

    /** The session in slot i. */
    ghost function SessionAt(i: nat): Option<State>
      requires Shape() && i < SESS_MAX
      reads this, slots, owner.Keys
    {
      if slots[i] == null then None else Some(slots[i].Now())
    }

    ghost function Ledger(): Books
      requires Valid()
      reads this, slots, owner.Keys, table, table.flows
    {
      Books([SessionAt(0), SessionAt(1), SessionAt(2), SessionAt(3)], view, fds, buffers, active, table.flows[..],
            table.hist)
    }

    /** The books, slot by slot. */
    lemma LedgerIs()
      requires Valid()
      ensures slots.Length == |view| == |Ledger().sessions| == |Ledger().view| == SESS_MAX
      ensures forall i :: 0 <= i < SESS_MAX ==>
                && Ledger().sessions[i] == (if slots[i] == null then None else Some(slots[i].Now()))
                && view[i] == (if slots[i] == null then Unused else Used(slots[i].ph, slots[i].px, slots[i].up))
                && (slots[i] != null ==> slots[i] in owner && slots[i].up in owner && slots[i].down in owner)
    {
      hide Accounted, Session.Valid, FlowTable.Table.Valid, Session.Now;
    }

    lemma RoomIs()
      requires Valid()
      ensures slots.Length == SESS_MAX && (RoomIn(Ledger()) <==> Room())
    {
      LedgerIs();
      hide Valid, Ledger, Session.Now;
    }

    lemma LedgerOk()
      requires Valid()
      ensures BooksOk(Ledger(), {lh, lt})
    {
      hide Accounted, Session.Valid, FlowTable.Table.Valid;
    }

    /** One thing that happens to the relay, if it can. */
    method Do(step: Step)
      requires Valid()
      modifies this, slots, table, table.flows, owner.Keys
      ensures Valid() && old(owner.Keys) <= owner.Keys && fresh(owner.Keys - old(owner.Keys))
      ensures BooksOk(old(Ledger()), {lh, lt}) && BooksOk(Ledger(), {lh, lt})
      ensures Entered(old(Ledger()), step, Ledger())
    {
      hide Valid, ServeEntered, AcceptEntered, LateEntered, BooksOk, FlowTable.Noted, FlowTable.Passed;
      LedgerOk();
      match step {
        case Serve(i, io, now) => DoServe(i, io, now);
        case Accept(tls, c, peerIsPhone, pport, memory, now) =>
          DoListen(tls, Arrival(c, peerIsPhone, pport, memory), now);
        case Late(i, now) => DoLate(i, now);
        case FromPhone(packet, ready, wifiUp, now) => DoFromPhone(packet, ready, wifiUp, now);
        case ToPhone(packet, memory, now) => DoToPhone(packet, memory, now);
        case NewLink => DoNewLink();
      }
      LedgerOk();
    }

    lemma AnswerIs(i: nat, io: Io)
      requires Valid() && i < SESS_MAX && slots[i] != null
      ensures CanAnswer(i, io) <==> CanServe(Ledger(), i, io)
    {
      hide Valid, Session.Valid, Session.Now, Possible;
      LedgerIs();
      Busy(i);
      slots[i].HeldIs();
    }

    method DoServe(i: nat, io: Io, now: u32)
      requires Valid()
      modifies this, slots, table.flows, owner.Keys
      ensures Valid() && owner == old(owner)
      ensures |old(view)| == |view| == SESS_MAX && ServeEntered(old(Ledger()), i, io, now, Ledger())
    {
      hide Valid, Session.Now, CanAnswer, Possible, Serves, FlowTable.ClosedAt;
      LedgerIs();
      ghost var was := Ledger();
      if i < SESS_MAX && slots[i] != null {
        AnswerIs(i, io);
        var can := CanAnswer(i, io);
        if can {
          ghost var s := slots[i];
          Service(i, io, now);
          LedgerIs();
          assert forall j :: 0 <= j < SESS_MAX && j != i ==> Ledger().sessions[j] == was.sessions[j];
          assert Serves(was.sessions[i].value, s.Now(), io, now, slots[i] != null);
        }
      }
    }

    method DoListen(tls: bool, arrival: Arrival, now: u32)
      requires Valid()
      modifies `active, `fds, `buffers, `owner, `view, slots, table.flows
      ensures Valid() && old(owner.Keys) <= owner.Keys && fresh(owner.Keys - old(owner.Keys))
      ensures |old(view)| == |view| == SESS_MAX && AcceptEntered(old(Ledger()), tls, arrival, now, Ledger())
    {
      hide Valid, Session.Now, AcceptEntered, NewSession, SlotSet;
      hide FlowTable.ClosedAt, FlowTable.Born, FlowTable.Dialled, FlowTable.Expected;
      RoomIs();
      hide RoomIn, Room;
      LedgerIs();
      ghost var was := Ledger();
      if arrival.c in fds {
        AcceptIs(was, tls, arrival, now, -1, was);
        return;
      }
      var k := Listen(tls, arrival, now);
      AcceptIs(was, tls, arrival, now, k, Ledger());
    }

    /** do_accept, and what becomes of the books. */
    method Listen(tls: bool, arrival: Arrival, now: u32) returns (k: int)
      requires Valid() && arrival.c !in fds
      modifies `active, `fds, `buffers, `owner, `view, slots, table.flows
      ensures Valid() && old(owner.Keys) <= owner.Keys && fresh(owner.Keys - old(owner.Keys))
      ensures |old(view)| == |view| == slots.Length == SESS_MAX && -1 <= k < SESS_MAX
      ensures var expected := old(FlowTable.Expected(table.flows[..], arrival.pport, ListenPort(tls)));
              var redirected := arrival.c >= 0 && arrival.peerIsPhone && expected;
              && (k >= 0 <==> redirected && arrival.memory && old(Room()))
              && if redirected && k == -1
                 then FlowTable.ClosedAt(old(table.flows[..]), table.flows[..], arrival.pport, now)
                 else table.flows[..] == old(table.flows[..])
      ensures k == -1 ==> Ledger() == old(Ledger()).(flows := Ledger().flows)
      ensures k >= 0 ==>
                var was := old(Ledger());
                var dialled := FlowTable.Dialled(was.hist, arrival.pport);
                && dialled.Some? && dialled.value.port == (if tls then 443 else 80)
                && FlowTable.Born(was.hist, arrival.pport).Some?
                && was.sessions[k].None? && (forall j :: 0 <= j < k ==> was.sessions[j].Some?)
                && SlotSet(was, k, Some(NewSession(tls, arrival.c, arrival.pport, dialled.value.ip, now)), Ledger())
    {
      hide Valid, Room, Session.Now, NewSession, FlowTable.ClosedAt, FlowTable.Born, FlowTable.Dialled;
      hide FlowTable.Expected;
      LedgerIs();
      ghost var was := Ledger();
      k := DoAccept(tls, arrival.c, arrival.peerIsPhone, arrival.pport, arrival.memory, now);
      LedgerIs();
      assert forall j :: 0 <= j < SESS_MAX && j != k ==> Ledger().sessions[j] == was.sessions[j];
      if k >= 0 {
        OneChanged(was.sessions, Ledger().sessions, k);
        OneChanged(was.view, view, k);
      } else {
        assert Ledger().sessions == was.sessions;
      }
    }

    method DoLate(i: nat, now: u32)
      requires Valid()
      modifies `active, `fds, `buffers, `view, slots, table.flows
      ensures Valid() && owner == old(owner)
      ensures |old(view)| == |view| == SESS_MAX && LateEntered(old(Ledger()), i, now, Ledger())
    {
      hide Valid, Session.Now, LateEntered, FlowTable.ClosedAt;
      LedgerIs();
      ghost var was := Ledger();
      if i >= SESS_MAX || slots[i] == null || !Expired(now, slots[i].deadline) {
        NotLate(was, i, now);
        return;
      }
      Expire(i, now);
      LedgerIs();
      assert forall j :: 0 <= j < SESS_MAX && j != i ==> Ledger().sessions[j] == was.sessions[j];
      OneChanged(was.sessions, Ledger().sessions, i);
      NowEmpty(was, i, now, Ledger());
    }

    /** A packet of the phone at the input hook. */
    method HookIn(packet: seq<byte>, open: bool, now: u32)
      requires table.Valid()
      modifies table, table.flows
      ensures table.Valid()
      ensures FlowTable.Noted(old(table.flows[..]), table.flows[..], old(table.hist), table.hist, packet, open, now)
    {
      hide FlowTable.Table.Valid, FlowTable.Noted, FlowTable.Interesting, Readdressed, TcpHeaders;
      var p := new byte[|packet|](k requires 0 <= k < |packet| => packet[k]);
      assert p[..] == packet;
      table.InputHook(p, true, open, true, now);
    }

    /** A packet on its way to the phone at the output hook. */
    method HookOut(packet: seq<byte>, memory: bool, now: u32)
      requires table.Valid()
      modifies table.flows
      ensures table.Valid()
      ensures FlowTable.Passed(old(table.flows[..]), table.flows[..], table.hist, packet, now)
    {
      hide FlowTable.Table.Valid, FlowTable.Restored, FlowTable.Stamped, Readdressed, TcpHeaders, Port;
      var p := new byte[|packet|](k requires 0 <= k < |packet| => packet[k]);
      assert p[..] == packet;
      var sent := table.Output(p, memory, now);
    }

    method DoFromPhone(packet: seq<byte>, ready: bool, wifiUp: bool, now: u32)
      requires Valid()
      modifies table, table.flows
      ensures Valid()
      ensures HookEntered(old(Ledger()), packet, ready && wifiUp, now, Ledger())
    {
      TableApart();
      hide Orderly, FlowTable.Table.Valid, FlowTable.Noted, Session.Now;
      HookIn(packet, ready && wifiUp, now);
    }

    method DoToPhone(packet: seq<byte>, memory: bool, now: u32)
      requires Valid()
      modifies table.flows
      ensures Valid()
      ensures |view| == SESS_MAX && Entered(old(Ledger()), ToPhone(packet, memory, now), Ledger())
    {
      TableApart();
      hide Orderly, FlowTable.Table.Valid, FlowTable.Passed, Session.Now;
      HookOut(packet, memory, now);
    }

    method DoNewLink()
      requires Valid()
      modifies table, table.flows
      ensures Valid()
      ensures |view| == SESS_MAX && Entered(old(Ledger()), NewLink, Ledger())
    {
      hide Session.Valid, Accounted, FlowTable.Table.Valid;
      table.Clear();
    }

    /** Any run of the relay task and the packet hooks, step by step: whatever happens in whatever order, at every
        point the books balance, and each step changes exactly what Entered says; and at the end every session is in
        order. */
    method Run(steps: seq<Step>) returns (ghost trace: seq<Books>)
      requires Valid()
      modifies this, slots, table, table.flows, owner.Keys
      ensures Valid() && old(owner.Keys) <= owner.Keys && fresh(owner.Keys - old(owner.Keys))
      ensures Leads(old(Ledger()), trace, steps, Ledger(), {lh, lt})
    {
      hide Valid, Entered, BooksOk, Leads;
      LedgerOk();
      trace := [Ledger()];
      NoStep(Ledger(), {lh, lt});
      for n := 0 to |steps|
        invariant Valid() && old(owner.Keys) <= owner.Keys && fresh(owner.Keys - old(owner.Keys))
        invariant Leads(old(Ledger()), trace, steps[..n], Ledger(), {lh, lt})
      {
        ghost var was := Ledger();
        Do(steps[n]);
        assert steps[..n + 1] == steps[..n] + [steps[n]];
        OneStep(old(Ledger()), trace, steps[..n], was, steps[n], Ledger(), {lh, lt});
        trace := trace + [Ledger()];
      }
      assert steps[..|steps|] == steps;
    }

    /** Every used slot is served. */
    method ServeAll(ios: seq<Io>, now: u32) returns (ghost trace: seq<Books>)
      requires Valid() && |ios| == SESS_MAX
      modifies this, slots, table.flows, owner.Keys
      ensures Valid() && owner == old(owner)
      ensures Leads(old(Ledger()), trace, Served(ios, now, SESS_MAX), Ledger(), {lh, lt})
    {
      hide Valid, BooksOk, Leads, ServeEntered, LateEntered;
      LedgerOk();
      trace := [Ledger()];
      NoStep(Ledger(), {lh, lt});
      assert Served(ios, now, 0) == [];
      for i := 0 to SESS_MAX
        invariant Valid() && owner == old(owner)
        invariant Leads(old(Ledger()), trace, Served(ios, now, i), Ledger(), {lh, lt})
      {
        ghost var was := Ledger();
        LedgerOk();
        DoServe(i, ios[i], now);
        LedgerOk();
        assert Served(ios, now, i + 1) == Served(ios, now, i) + [Serve(i, ios[i], now)];
        OneStep(old(Ledger()), trace, Served(ios, now, i), was, Serve(i, ios[i], now), Ledger(), {lh, lt});
        trace := trace + [Ledger()];
      }
    }

    /** Every used slot is looked at for lateness: nobody is left past the deadline. */
    method ExpireAll(now: u32) returns (ghost trace: seq<Books>)
      requires Valid()
      modifies `active, `fds, `buffers, `view, slots, table.flows
      ensures Valid() && owner == old(owner)
      ensures Leads(old(Ledger()), trace, Looked(now, SESS_MAX), Ledger(), {lh, lt})
    {
      hide Valid, BooksOk, Leads, ServeEntered, LateEntered;
      LedgerOk();
      trace := [Ledger()];
      NoStep(Ledger(), {lh, lt});
      assert Looked(now, 0) == [];
      for i := 0 to SESS_MAX
        invariant Valid() && owner == old(owner)
        invariant Leads(old(Ledger()), trace, Looked(now, i), Ledger(), {lh, lt})
      {
        ghost var was := Ledger();
        LedgerOk();
        DoLate(i, now);
        LedgerOk();
        assert Looked(now, i + 1) == Looked(now, i) + [Late(i, now)];
        OneStep(old(Ledger()), trace, Looked(now, i), was, Late(i, now), Ledger(), {lh, lt});
        trace := trace + [Ledger()];
      }
    }

    /** One pass of proxy_task after select: serve the sessions, take in new connections if there was room, close
        what is late. */
    method Pass(ios: seq<Io>, plain: Arrival, secure: Arrival, heapOk: bool, now: u32) returns (ghost trace: seq<Books>)
      requires Valid() && |ios| == SESS_MAX
      modifies this, slots, table, table.flows, owner.Keys
      ensures Valid() && fresh(owner.Keys - old(owner.Keys))
      ensures Leads(old(Ledger()), trace, PassSteps(ios, plain, secure, heapOk && old(Room()), now), Ledger(), {lh, lt})
      // nobody is left past the deadline
      ensures slots.Length == SESS_MAX
      ensures forall i :: 0 <= i < SESS_MAX && slots[i] != null ==> !Expired(now, slots[i].deadline)
    {
      hide Valid, Ledger, Room, Entered, BooksOk, Leads, Served, Looked, Take;
      ghost var start, first, last := Ledger(), Served(ios, now, SESS_MAX), Looked(now, SESS_MAX);
      var room := HasRoom();
      trace := ServeAll(ios, now);
      ghost var served := Ledger();
      var asked := if room && heapOk then [Take(false, plain, now), Take(true, secure, now)] else [];
      ghost var more := Run(asked);
      ghost var let := Ledger();
      trace := Joined(start, trace, first, served, more, asked, let, {lh, lt});
      more := ExpireAll(now);
      trace := Joined(start, trace, first + asked, let, more, last, Ledger(), {lh, lt});
      LedgerIs();
      forall i | 0 <= i < SESS_MAX && slots[i] != null
        ensures !Expired(now, slots[i].deadline)
      {
        NobodyLate(start, trace, ios, plain, secure, room && heapOk, now, Ledger(), {lh, lt}, i);
      }
    }

    method HasRoom() returns (room: bool)
      requires Valid()
      ensures room <==> Room()
    {
      var k := FreeSlot();
      return k >= 0;
    }
  }
}
