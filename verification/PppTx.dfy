/** The PPP transmit path: the tcpip task fills a stream, the BTstack task sends it when the channel has credit,
    and one flag under the state lock decides who queues the wake-up between them. */
module PppTx {
  import opened Bytes

  const PPP_TX_BUF_SIZE := 8192
  const PPP_TX_CHUNK_MAX := 1024

  /** Where the tcpip task is in ppp_output_cb. */
  datatype Producer =
    | Out                       // not in it
    | Checked                   // the session was up when it looked
    | Wrote                     // between the stream write and the flag test
    | MustPost                  // the flag was clear and is now set; the trampoline is still to be queued

  /** Where the BTstack task is. It runs one callback or event at a time. */
  datatype Consumer =
    | Idle
    | Notifying                 // tx_notify_cb, off the run loop's list, before its critical section
    | Requesting                // about to ask for a can-send-now event
    | Sending(chunk: seq<byte>) // the can-send-now handler, after the stream read
    | Opening                   // the channel-opened handler, between the stream reset and the flag reset

  /** queued counts how often the trampoline's registration is on the run loop's list; request is an outstanding
      can-send-now request; open says the active channel is open, live for sending. taken is what the stream has
      accepted since its last reset, offered what was handed to rfcomm_send since. */
  datatype Link = Link(
    stream: seq<byte>, pending: bool, queued: nat, request: bool, cid: nat, open: bool, reply: Option<seq<byte>>,
    producer: Producer, consumer: Consumer, taken: seq<byte>, offered: seq<byte>)

  const FRESH := Link([], false, 0, false, 0, false, None, Out, Idle, [], [])

  /** The atomic steps of both tasks, in any order. Arguments are what the environment decides. */
  datatype Act =
    // tcpip task, ppp_output_cb
    | SeeSession                             // session_active read as true
    | Write(data: seq<byte>)                 // xStreamBufferSend, as much as fits
    | TestFlag                               // the critical section
    | Post                                   // btstack_run_loop_execute_on_main_thread
    // BTstack task, tx_notify_cb
    | StartNotify
    | ClearFlag                              // its critical section
    | Request                                // rfcomm_request_can_send_now_event
    // BTstack task, RFCOMM events
    | SendReply(ok: bool)                    // can-send-now with a handshake reply waiting
    | SendChunk(mfs: nat)                    // can-send-now: the stream read
    | CheckRest                              // rfcomm_send, then the look at what is left
    | Text(answer: Option<seq<byte>>)        // data before the first PPP frame
    | Incoming(newCid: nat)
    | ResetStream
    | ResetFlag(started: bool)               // rest of channel-opened; whether the PPP session started
    | Lost                                   // channel closed or not opened, or session stopped

  function Min(a: nat, b: nat): nat { if a < b then a else b }

  function ChunkSize(mfs: nat): nat {
    if mfs == 0 || mfs > PPP_TX_CHUNK_MAX then PPP_TX_CHUNK_MAX else mfs
  }

  ghost predicate Enabled(l: Link, a: Act) {
    match a
    case SeeSession => l.producer.Out? && l.cid != 0
    case Write(_) => l.producer.Checked? && |l.stream| <= PPP_TX_BUF_SIZE
    case TestFlag => l.producer.Wrote?
    case Post => l.producer.MustPost?
    case StartNotify => l.consumer.Idle? && l.queued > 0
    case ClearFlag => l.consumer.Notifying?
    case Request => l.consumer.Requesting?
    case SendReply(_) => l.consumer.Idle? && l.request && l.cid != 0 && l.reply.Some?
    case SendChunk(_) => l.consumer.Idle? && l.request && l.cid != 0 && l.reply.None?
    case CheckRest => l.consumer.Sending?
    case Text(_) => l.consumer.Idle? && l.open
    case Incoming(newCid) => l.consumer.Idle? && l.cid == 0 && newCid != 0
    case ResetStream => l.consumer.Idle? && l.cid != 0 && !l.open
    case ResetFlag(_) => l.consumer.Opening?
    case Lost => l.consumer.Idle?
  }

  ghost function After(l: Link, a: Act): Link
    requires Enabled(l, a)
  {
    match a
    case SeeSession => l.(producer := Checked)
    case Write(data) =>
      var fit := data[..Min(|data|, PPP_TX_BUF_SIZE - |l.stream|)];
      l.(stream := l.stream + fit, taken := l.taken + fit, producer := Wrote)
    case TestFlag => l.(producer := if l.pending then Out else MustPost, pending := true)
    case Post => l.(producer := Out, queued := l.queued + 1)
    case StartNotify => l.(queued := l.queued - 1, consumer := Notifying)
    case ClearFlag => l.(pending := false, consumer := if l.cid == 0 then Idle else Requesting)
    case Request => l.(request := true, consumer := Idle)
    case SendReply(ok) =>
      if ok then l.(request := false, reply := None)
      else l.(request := false, consumer := Requesting)
    case SendChunk(mfs) =>
      var n := Min(ChunkSize(mfs), |l.stream|);
      l.(request := false, stream := l.stream[n..], consumer := Sending(l.stream[..n]))
    case CheckRest =>
      l.(offered := l.offered + l.consumer.chunk, consumer := if l.stream == [] then Idle else Requesting)
    case Text(answer) =>
      var reply := if answer.Some? then answer else l.reply;
      l.(reply := reply, consumer := if reply.Some? then Requesting else Idle)
    case Incoming(newCid) => l.(cid := newCid)
    case ResetStream => l.(stream := [], taken := [], offered := [], consumer := Opening)
    case ResetFlag(started) =>
      if started then l.(pending := false, reply := None, open := true, consumer := Idle)
      else l.(pending := false, reply := None, open := false, cid := 0, request := false, consumer := Idle)
    case Lost => l.(cid := 0, open := false, request := false)
  }

  /** Somebody is on the way to the stream: the trampoline queued or running, a can-send-now request or its
      handler, or a producer that has still to test the flag or queue the trampoline. */
  ghost predicate Awake(l: Link) {
    || l.queued > 0 || l.request || l.consumer.Notifying? || l.consumer.Requesting? || l.consumer.Sending?
    || l.producer.Wrote? || l.producer.MustPost?
  }

  /** The flag tells the truth at least one way: while it is set, a trampoline is coming that will clear it. */
  ghost predicate FlagBacked(l: Link) {
    l.pending ==> l.queued > 0 || l.consumer.Notifying? || l.producer.MustPost?
  }

  ghost function InHand(l: Link): seq<byte> {
    if l.consumer.Sending? then l.consumer.chunk else []
  }

  /** The bytes taken are offered once each and in order. */
  ghost predicate InOrder(l: Link) {
    l.offered + InHand(l) + l.stream == l.taken
  }

  /** What every interleaving keeps: the order of the bytes, the flag backed, nothing asked of a channel that is
      gone. */
  ghost predicate Sound(l: Link) {
    && |l.stream| <= PPP_TX_BUF_SIZE && InOrder(l) && FlagBacked(l)
    && (l.open ==> l.cid != 0) && (l.cid == 0 ==> !l.request && !l.consumer.Requesting? && !l.consumer.Sending?)
    && (l.consumer.Opening? ==> l.cid != 0 && !l.open)
  }

  /** No lost wake-up: bytes waiting for a live channel are on somebody's way. */
  ghost predicate NoLostWakeup(l: Link) {
    l.open && l.stream != [] ==> Awake(l)
  }

  /** While a channel is being opened what is in the stream was written since its reset. */
  ghost predicate Watched(l: Link) {
    && NoLostWakeup(l)
    && (l.consumer.Opening? && l.stream != [] ==> l.queued > 0 || l.producer.Wrote? || l.producer.MustPost?)
  }

  lemma SoundKept(l: Link, a: Act)
    requires Sound(l) && Enabled(l, a)
    ensures Sound(After(l, a))
  {
    OrderKept(l, a);
    hide InOrder;
  }

  lemma OrderKept(l: Link, a: Act)
    requires InOrder(l) && Enabled(l, a)
    ensures InOrder(After(l, a))
  {
  }

  /** Sending this reply leaves no bytes behind: nothing waits, or another wake-up happens to be under way. */
  ghost predicate Harmless(l: Link) {
    !l.open || l.stream == [] || l.queued > 0 || l.producer.Wrote? || l.producer.MustPost?
  }

  /** The one step that can leave the stream unwatched is a handshake reply sent, and only when it is not harmless:
      that branch does not look at the stream. */
  lemma WatchedKeptExactlyWhen(l: Link, a: Act)
    requires Sound(l) && Watched(l) && Enabled(l, a)
    ensures Watched(After(l, a)) <==> (a == SendReply(true) ==> Harmless(l))
  {
  }

  ghost predicate Run(l: Link, acts: seq<Act>)
    decreases |acts|
  {
    acts == [] || (Enabled(l, acts[0]) && Run(After(l, acts[0]), acts[1..]))
  }

  ghost function RunFrom(l: Link, acts: seq<Act>): Link
    requires Run(l, acts)
    decreases |acts|
  {
    if acts == [] then l else RunFrom(After(l, acts[0]), acts[1..])
  }

  lemma {:induction false} EveryRunIsSound(l: Link, acts: seq<Act>)
    requires Sound(l) && Run(l, acts)
    ensures Sound(RunFrom(l, acts))
    decreases |acts|
  {
    hide Sound, After, Enabled;
    if acts != [] {
      SoundKept(l, acts[0]);
      EveryRunIsSound(After(l, acts[0]), acts[1..]);
    }
  }

  ghost predicate RepliesHarmless(l: Link, acts: seq<Act>)
    requires Run(l, acts)
    decreases |acts|
  {
    acts == [] || ((acts[0] == SendReply(true) ==> Harmless(l)) && RepliesHarmless(After(l, acts[0]), acts[1..]))
  }

  /** No interleaving of the two tasks loses a wake-up, unless a handshake reply does. */
  lemma {:induction false} NoLostWakeupBarReplies(l: Link, acts: seq<Act>)
    requires Sound(l) && Watched(l) && Run(l, acts) && RepliesHarmless(l, acts)
    ensures Watched(RunFrom(l, acts)) && NoLostWakeup(RunFrom(l, acts))
    decreases |acts|
  {
    if acts != [] {
      SoundKept(l, acts[0]);
      WatchedKeptExactlyWhen(l, acts[0]);
      hide Sound, After, Enabled, Watched, Harmless;
      NoLostWakeupBarReplies(After(l, acts[0]), acts[1..]);
    }
  }

  /** So with no reply waiting at the start and none called for on the way, none is lost at all. */
  lemma {:induction false} NoReplyNoLostWakeup(l: Link, acts: seq<Act>)
    requires Sound(l) && Watched(l) && Run(l, acts)
    requires l.reply.None? && forall a :: a in acts && a.Text? ==> a.answer.None?
    ensures NoLostWakeup(RunFrom(l, acts))
  {
    RepliesAbsent(l, acts);
    NoLostWakeupBarReplies(l, acts);
  }

  lemma {:induction false} RepliesAbsent(l: Link, acts: seq<Act>)
    requires Run(l, acts)
    requires l.reply.None? && forall a :: a in acts && a.Text? ==> a.answer.None?
    ensures RepliesHarmless(l, acts)
    decreases |acts|
  {
    if acts != [] {
      ReplyOnlyFromText(l, acts[0]);
      hide After, Enabled, Harmless;
      RepliesAbsent(After(l, acts[0]), acts[1..]);
    }
  }

  lemma ReplyOnlyFromText(l: Link, a: Act)
    requires Enabled(l, a) && l.reply.None? && (a.Text? ==> a.answer.None?)
    ensures After(l, a).reply.None? && !a.SendReply?
  {
  }

  /** Even a lost wake-up lasts only until the next output: a write that reaches its flag test is followed by
      the trampoline. */
  lemma NextOutputWakes(l: Link)
    requires Sound(l) && Enabled(l, TestFlag)
    ensures Awake(After(l, TestFlag)) && Watched(After(l, TestFlag))
  {
  }

  // ---------------------------------------------------------------- the BTstack task gets there

  /** A write takes all there is room for: everything, or as much as fills the stream. */
  lemma WriteTakes(l: Link, data: seq<byte>)
    requires Enabled(l, Write(data))
    ensures var m := After(l, Write(data));
            && l.taken <= m.taken <= l.taken + data && m.stream == l.stream + m.taken[|l.taken|..]
            && (m.taken == l.taken + data || |m.stream| == 8192)
  {
  }

  /** A chunk is the front of the stream, as long as the channel's frames and the buffer allow. */
  lemma ChunkExactly(l: Link, mfs: nat)
    requires Enabled(l, SendChunk(mfs))
    ensures var m := After(l, SendChunk(mfs));
            && m.consumer.Sending? && m.consumer.chunk + m.stream == l.stream
            && |m.consumer.chunk| <= 1024 && (mfs != 0 ==> |m.consumer.chunk| <= mfs)
            && (m.stream == [] || |m.consumer.chunk| == 1024 || |m.consumer.chunk| == mfs)
  {
  }

  /** The BTstack task on its own way to the stream: no new event of the channel, no text of the phone. */
  predicate OfConsumer(a: Act) { a.StartNotify? || a.ClearFlag? || a.Request? || a.SendChunk? || a.CheckRest? }

  function Stage(l: Link): nat {
    match l.consumer
    case Notifying => 5
    case Requesting => 4
    case Sending(_) => if l.stream == [] then 1 else 5
    case _ => 0
  }

  /** How many steps the BTstack task can still make by itself, at most. */
  function Ahead(l: Link): nat { 10 * |l.stream| + 10 * l.queued + Stage(l) + if l.request then 3 else 0 }

  lemma StepGetsOn(l: Link, a: Act)
    requires Sound(l) && Watched(l) && Enabled(l, a) && OfConsumer(a) && l.open && l.reply.None?
    ensures var m := After(l, a);
            Ahead(m) < Ahead(l) && Watched(m) && m.open && m.reply.None? && m.taken == l.taken
            && m.producer == l.producer
  {
    WatchedKeptExactlyWhen(l, a);
  }

  /** With nothing left to do for it, everything taken has been offered to the channel. */
  lemma NothingLeftToDo(l: Link)
    requires Sound(l) && Watched(l) && l.open && l.reply.None? && l.producer.Out?
    requires forall a: Act :: OfConsumer(a) ==> !Enabled(l, a)
    ensures l.stream == [] && l.offered == l.taken
  {
    assert OfConsumer(StartNotify) && OfConsumer(ClearFlag) && OfConsumer(Request) && OfConsumer(CheckRest);
    assert OfConsumer(SendChunk(0)) && !Enabled(l, SendChunk(0)) && !Enabled(l, StartNotify) && !Enabled(l, ClearFlag);
    assert !Enabled(l, Request) && !Enabled(l, CheckRest);
    assert l.offered + [] + [] == l.offered;
  }

  /** Left to itself the BTstack task stops after so many steps, and when it stops, every byte the stream has taken
      has been offered to the channel, once and in order. */
  lemma {:induction false} DrainsByItself(l: Link, acts: seq<Act>)
    requires Sound(l) && Watched(l) && l.open && l.reply.None? && l.producer.Out?
    requires Run(l, acts) && forall a :: a in acts ==> OfConsumer(a)
    ensures |acts| <= Ahead(l)
    ensures var m := RunFrom(l, acts);
            (forall a: Act :: OfConsumer(a) ==> !Enabled(m, a)) ==> m.stream == [] && m.offered == l.taken
    decreases |acts|
  {
    if acts == [] {
      if forall a: Act :: OfConsumer(a) ==> !Enabled(l, a) {
        NothingLeftToDo(l);
      }
    } else {
      SoundKept(l, acts[0]);
      StepGetsOn(l, acts[0]);
      hide Sound, Watched, After, Enabled, OfConsumer, Ahead;
      assert OfConsumer(acts[0]);
      DrainsByItself(After(l, acts[0]), acts[1..]);
    }
  }

  /** A reply waiting for an open channel has been asked for. */
  ghost predicate ReplyAsked(l: Link) { l.open && l.reply.Some? ==> l.request || l.consumer.Requesting? }

  /** A handshake reply stays until it is sent, another takes its place or a channel opens, and while it waits on an
      open channel a can-send-now event is on its way. */
  lemma ReplyStays(l: Link, a: Act)
    requires Sound(l) && ReplyAsked(l) && Enabled(l, a)
    ensures ReplyAsked(After(l, a))
    ensures l.reply.Some? && After(l, a).reply != l.reply ==>
              a == SendReply(true) || (a.Text? && After(l, a).reply == a.answer) || a.ResetFlag?
    ensures a.Text? && a.answer.Some? ==> After(l, a).reply == a.answer
  {
  }

  // ---------------------------------------------------------------- the trampoline's registration

  /** The trampoline's registration is on the list, being run or about to be queued once if the flag is set, and
      not at all if it is clear. */
  ghost predicate OneTrampoline(l: Link) {
    l.queued + (if l.consumer.Notifying? then 1 else 0) + (if l.producer.MustPost? then 1 else 0)
    == if l.pending then 1 else 0
  }

  /** Opening a channel while the flag is set is the one step that breaks this. */
  lemma OneTrampolineKeptExactlyWhen(l: Link, a: Act)
    requires OneTrampoline(l) && Enabled(l, a)
    ensures OneTrampoline(After(l, a)) <==> (a.ResetFlag? ==> !l.pending)
  {
  }

  /** No channel of the run opens while the flag is set, that is, before an earlier trampoline has run. */
  ghost predicate OpensClean(l: Link, acts: seq<Act>)
    requires Run(l, acts)
    decreases |acts|
  {
    acts == [] || ((acts[0].ResetFlag? ==> !l.pending) && OpensClean(After(l, acts[0]), acts[1..]))
  }

  /** Then a queued registration is never queued again. */
  lemma {:induction false} NeverQueuedTwice(l: Link, acts: seq<Act>)
    requires OneTrampoline(l) && Run(l, acts) && OpensClean(l, acts)
    ensures var m := RunFrom(l, acts);
            OneTrampoline(m) && (Enabled(m, Post) ==> m.queued == 0)
    decreases |acts|
  {
    if acts != [] {
      OneTrampolineKeptExactlyWhen(l, acts[0]);
      hide OneTrampoline, After;
      NeverQueuedTwice(After(l, acts[0]), acts[1..]);
    }
  }

  /** A run, one step longer. */
  lemma {:induction false} Grow(l: Link, acts: seq<Act>, a: Act) returns (more: seq<Act>)
    requires Run(l, acts) && Enabled(RunFrom(l, acts), a)
    ensures more == acts + [a] && Run(l, more) && RunFrom(l, more) == After(RunFrom(l, acts), a)
    decreases |acts|
  {
    hide After, Enabled;
    more := acts + [a];
    if acts == [] {
      assert more[1..] == [];
    } else {
      var rest := Grow(After(l, acts[0]), acts[1..], a);
      assert more[1..] == rest && more[0] == acts[0];
    }
  }

  /** From a quiet link, a channel is opened. */
  lemma GrowOpening(acts: seq<Act>, newCid: nat) returns (more: seq<Act>)
    requires Run(FRESH, acts) && newCid != 0
    requires var l := RunFrom(FRESH, acts); l.consumer.Idle? && l.cid == 0 && !l.open
    ensures Run(FRESH, more)
    ensures RunFrom(FRESH, more) == RunFrom(FRESH, acts).(cid := newCid, open := true, stream := [], taken := [],
                                                          offered := [], pending := false, reply := None)
  {
    hide Run, RunFrom;
    more := Grow(FRESH, acts, Incoming(newCid));
    more := Grow(FRESH, more, ResetStream);
    more := Grow(FRESH, more, ResetFlag(true));
  }

  /** A byte is written with the flag clear, so the trampoline is queued. */
  lemma GrowOutput(acts: seq<Act>) returns (more: seq<Act>)
    requires Run(FRESH, acts)
    requires var l := RunFrom(FRESH, acts); l.producer.Out? && l.cid != 0 && l.stream == [] && !l.pending
    ensures Run(FRESH, more)
    ensures var l := RunFrom(FRESH, acts);
            RunFrom(FRESH, more)
            == l.(stream := [0x7E], taken := l.taken + [0x7E], pending := true, queued := l.queued + 1)
  {
    hide Run, RunFrom;
    more := Grow(FRESH, acts, SeeSession);
    more := Grow(FRESH, more, Write([0x7E]));
    more := Grow(FRESH, more, TestFlag);
    more := Grow(FRESH, more, Post);
  }

  /** A run that loses a wake-up: the phone's CLIENT is answered while a frame waits, its trampoline having run. */
  lemma ReplyCanStrand()
    ensures exists acts :: Run(FRESH, acts) && !NoLostWakeup(RunFrom(FRESH, acts))
  {
    hide Run, RunFrom;
    assert Run(FRESH, []) && RunFrom(FRESH, []) == FRESH by {
      Start();
    }
    var r := GrowOpening([], 1);
    r := Grow(FRESH, r, Text(Some([67])));
    r := Grow(FRESH, r, Request);
    r := GrowOutput(r);
    r := Grow(FRESH, r, StartNotify);
    r := Grow(FRESH, r, ClearFlag);
    r := Grow(FRESH, r, Request);
    r := Grow(FRESH, r, SendReply(true));
    assert Run(FRESH, r) && !NoLostWakeup(RunFrom(FRESH, r));
  }

  /** A run that queues the registration twice: the channel closes and another opens before the trampoline runs. */
  lemma StaleFlagQueuesTwice()
    ensures exists acts :: Run(FRESH, acts) && RunFrom(FRESH, acts).queued == 2
  {
    hide Run, RunFrom;
    assert Run(FRESH, []) && RunFrom(FRESH, []) == FRESH by {
      Start();
    }
    var r := GrowOpening([], 1);
    r := GrowOutput(r);
    r := Grow(FRESH, r, Lost);
    r := GrowOpening(r, 2);
    r := GrowOutput(r);
    assert Run(FRESH, r) && RunFrom(FRESH, r).queued == 2;
  }

  lemma Start()
    ensures Run(FRESH, []) && RunFrom(FRESH, []) == FRESH
  {
  }

  /** The static fields of the link, changed in place by both tasks. */
  class PppLink {
    var pppTxStream: seq<byte>
    var txNotifyPending: bool
    var activeCid: nat
    var prePppReply: Option<seq<byte>>
    /** The run loop's list and the channel's outstanding request, as far as they concern this path. */
    var queued: nat
    var request: bool
    var producer: Producer
    var consumer: Consumer
    ghost var open: bool
    ghost var taken: seq<byte>
    ghost var offered: seq<byte>

    ghost function View(): Link
      reads this
    {
      Link(pppTxStream, txNotifyPending, queued, request, activeCid, open, prePppReply, producer, consumer,
           taken, offered)
    }

    constructor ()
      ensures View() == FRESH && Sound(View()) && Watched(View()) && OneTrampoline(View())
    {
      pppTxStream, txNotifyPending, activeCid, prePppReply := [], false, 0, None;
      queued, request, producer, consumer := 0, false, Out, Idle;
      open, taken, offered := false, [], [];
    }

    /** ppp_output_cb: the look at session_active. */
    method OutputBegin() returns (up: bool)
      requires producer.Out?
      modifies `producer
      ensures up <==> activeCid != 0
      ensures if up then old(Enabled(View(), SeeSession)) && View() == old(After(View(), SeeSession))
              else View() == old(View())
    {
      up := activeCid != 0;
      if up {
        producer := Checked;
      }
    }

    /** ppp_output_cb: xStreamBufferSend without waiting. */
    method OutputWrite(data: seq<byte>) returns (sent: nat)
      requires Enabled(View(), Write(data))
      modifies `pppTxStream, `producer, `taken
      ensures View() == old(After(View(), Write(data)))
      ensures sent == Min(|data|, PPP_TX_BUF_SIZE - |old(pppTxStream)|) && taken == old(taken) + data[..sent]
    {
      sent := Min(|data|, PPP_TX_BUF_SIZE - |pppTxStream|);
      pppTxStream, taken := pppTxStream + data[..sent], taken + data[..sent];
      producer := Wrote;
    }

    /** ppp_output_cb: the critical section. */
    method OutputTestFlag()
      requires Enabled(View(), TestFlag)
      modifies `txNotifyPending, `producer
      ensures View() == old(After(View(), TestFlag))
    {
      var need := !txNotifyPending;
      if need {
        txNotifyPending := true;
      }
      producer := if need then MustPost else Out;
    }

    /** ppp_output_cb: btstack_run_loop_execute_on_main_thread. */
    method OutputPost()
      requires Enabled(View(), Post)
      modifies `queued, `producer
      ensures View() == old(After(View(), Post))
    {
      queued, producer := queued + 1, Out;
    }

    method NotifyStart()
      requires Enabled(View(), StartNotify)
      modifies `queued, `consumer
      ensures View() == old(After(View(), StartNotify))
    {
      queued, consumer := queued - 1, Notifying;
    }

    /** tx_notify_cb: the critical section. */
    method NotifyClear()
      requires Enabled(View(), ClearFlag)
      modifies `txNotifyPending, `consumer
      ensures View() == old(After(View(), ClearFlag))
    {
      txNotifyPending := false;
      consumer := if activeCid != 0 then Requesting else Idle;
    }

    /** rfcomm_request_can_send_now_event on the active channel. */
    method RequestCanSendNow()
      requires Enabled(View(), Request)
      modifies `request, `consumer
      ensures View() == old(After(View(), Request))
    {
      request, consumer := true, Idle;
    }

    /** RFCOMM_EVENT_CAN_SEND_NOW up to the stream read; sendOk is what rfcomm_send says of a reply. */
    method CanSendNow(sendOk: bool, maxFrame: nat)
      requires consumer.Idle? && request && activeCid != 0
      modifies this
      ensures old(prePppReply).Some? ==> View() == old(After(View(), SendReply(sendOk)))
      ensures old(prePppReply).None? ==> View() == old(After(View(), SendChunk(maxFrame)))
    {
      request := false;
      if prePppReply.Some? {
        if sendOk {
          prePppReply := None;
        } else {
          consumer := Requesting;
        }
        return;
      }
      var mfs := if maxFrame == 0 || maxFrame > PPP_TX_CHUNK_MAX then PPP_TX_CHUNK_MAX else maxFrame;
      var n := Min(mfs, |pppTxStream|);
      consumer := Sending(pppTxStream[..n]);
      pppTxStream := pppTxStream[n..];
    }

    /** The rest of it: the send, whatever comes of it, and the look at what is left. */
    method CanSendNowRest()
      requires Enabled(View(), CheckRest)
      modifies `consumer, `offered
      ensures View() == old(After(View(), CheckRest))
    {
      offered := offered + consumer.chunk;
      consumer := if |pppTxStream| > 0 then Requesting else Idle;
    }

    /** pre_ppp_handshake on data with no PPP flag yet; answer is the reply the text calls for, if any. */
    method Handshake(answer: Option<seq<byte>>)
      requires Enabled(View(), Text(answer))
      modifies `prePppReply, `consumer
      ensures View() == old(After(View(), Text(answer)))
    {
      if answer.Some? {
        prePppReply := answer;
      }
      if prePppReply.Some? {
        consumer := Requesting;
      }
    }

    method IncomingConnection(cid: nat)
      requires Enabled(View(), Incoming(cid))
      modifies `activeCid
      ensures View() == old(After(View(), Incoming(cid)))
    {
      activeCid := cid;
    }

    /** RFCOMM_EVENT_CHANNEL_OPENED: xStreamBufferReset. */
    method ChannelOpened()
      requires Enabled(View(), ResetStream)
      modifies `pppTxStream, `consumer, `taken, `offered
      ensures View() == old(After(View(), ResetStream))
    {
      pppTxStream, taken, offered, consumer := [], [], [], Opening;
    }

    /** RFCOMM_EVENT_CHANNEL_OPENED: the rest; started is what ppp_session_start says. */
    method ChannelOpenedRest(started: bool)
      requires Enabled(View(), ResetFlag(started))
      modifies this
      ensures View() == old(After(View(), ResetFlag(started)))
    {
      txNotifyPending, prePppReply, consumer := false, None, Idle;
      open := started;
      if !started {
        activeCid, request := 0, false;
      }
    }

    /** RFCOMM_EVENT_CHANNEL_CLOSED of the active channel, or a failed opening of it. */
    method ChannelLost()
      requires Enabled(View(), Lost)
      modifies `activeCid, `request, `open
      ensures View() == old(After(View(), Lost))
    {
      activeCid, request, open := 0, false, false;
    }
  }
}
