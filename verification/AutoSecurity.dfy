/** Auto security: the accept of an incoming RFCOMM channel is held until the phone's name, or an authenticated
    and encrypted link, decides. */
module AutoSecurity {
  import opened Bytes
  import opened Text

  const BT_NAME_MAX := 32
  const LEVEL_2 := 2

  /** Factory names of the phones that work without security. */
  const NOSEC_NAMES: seq<Octets> :=
    ["N-Gage", "NGage", "3650", "3600", "3660", "3620", "7650", "9210", "9290", "9300", "9500"]

  datatype Mode = Off | On | Auto

  /** Needle at position i of the name, letter case aside. */
  predicate OccursAt(hay: Octets, needle: Octets, i: nat) {
    i + |needle| <= |hay| && Lower(hay[i..i + |needle|]) == Lower(needle)
  }

  ghost predicate Contains(hay: Octets, needle: Octets) {
    exists i: nat :: i < |hay| && OccursAt(hay, needle, i)
  }

  ghost predicate KnownName(name: Octets) {
    exists k :: 0 <= k < |NOSEC_NAMES| && Contains(name, NOSEC_NAMES[k])
  }

  /** The name in a name-request reply: as much of it without a NUL as fits the buffer with a NUL behind. */
  ghost function NameIn(raw: Octets): (name: Octets)
    ensures name <= raw && '\0' !in name && |name| <= 31
    ensures |name| < 31 && |name| < |raw| ==> raw[|name|] == '\0'
  {
    var n := CStr(raw);
    if |n| < BT_NAME_MAX then n else n[..BT_NAME_MAX - 1]
  }

  /** A name is listed if some factory name is in it, but for the case of the letters. */
  lemma OccursExactly(hay: Octets, needle: Octets, i: nat)
    ensures OccursAt(hay, needle, i) <==> i + |needle| <= |hay| && SameButCase(hay[i..i + |needle|], needle)
  {
    if i + |needle| <= |hay| {
      LowerExactly(hay[i..i + |needle|], needle);
    }
  }

  /** What reaches the two handlers. asked says whether the name request could be sent, started whether the PPP
      session came up. */
  datatype Event =
    | Incoming(cid: u16, handle: u16, addr: nat, asked: bool)
    | NameComplete(addr: nat, status: byte, name: Octets)
    | SecurityLevel(handle: u16, status: byte, level: nat)
    | Opened(cid: u16, status: byte, started: bool)
    | Closed(cid: u16)

  /** rfcomm_accept_connection or rfcomm_decline_connection of a cid, for the channel that came in as event conn,
      while event at was being handled. */
  datatype Answer = Answer(cid: u16, conn: nat, at: nat, accepted: bool)

  /** The static fields; activeAt and heldAt say which events brought the active and the held channel, answers what
      was told to RFCOMM. */
  datatype State = State(
    activeCid: u16, sessionActive: bool, autoCid: u16, autoHandle: u16, autoAddr: nat, secPending: bool,
    lastPhone: Option<(Octets, bool)>, activeAt: nat, heldAt: nat, answers: seq<Answer>)

  const BOOT := State(0, false, 0, 0, 0, false, None, 0, 0, [])

  // ---------------------------------------------------------------- the handlers as functions

  function Answered(s: State, cid: u16, conn: nat, at: nat, accepted: bool): State {
    s.(answers := s.answers + [Answer(cid, conn, at, accepted)])
  }

  function Released(s: State): State { s.(autoCid := 0, secPending := false) }

  function Ended(s: State): State { s.(sessionActive := false, activeCid := 0) }

  ghost function Decided(s: State, name: Option<Octets>, at: nat): State {
    var secure := name.None? || !KnownName(name.value);
    var t := s.(lastPhone := Some((if name.Some? then name.value else [], secure)));
    if secure then t.(secPending := true) else Answered(Released(t), s.autoCid, s.heldAt, at, true)
  }

  ghost function Begun(s: State, e: Event, at: nat): State
    requires e.Incoming?
  {
    var t := s.(autoCid := e.cid, autoHandle := e.handle, autoAddr := e.addr, secPending := false, heldAt := at);
    if e.asked then t else Decided(t, None, at)
  }

  function Failed(s: State, at: nat): State {
    var t := Answered(Released(s), s.autoCid, s.heldAt, at, false);
    if s.activeCid == s.autoCid then Ended(t) else t
  }

  /** The state once the event with index at has been handled. */
  ghost function After(mode: Mode, s: State, e: Event, at: nat): State {
    match e
    case Incoming(cid, _, _, _) =>
      var t := s.(sessionActive := true, activeCid := cid, activeAt := at);
      if s.sessionActive then Answered(s, cid, at, at, false)
      else if mode == Auto then Begun(t, e, at)
      else Answered(t, cid, at, at, true)
    case NameComplete(addr, status, name) =>
      if mode != Auto || s.autoCid == 0 || s.secPending || addr != s.autoAddr then s
      else Decided(s, if status != 0 then None else Some(NameIn(name)), at)
    case SecurityLevel(handle, status, level) =>
      if mode != Auto || s.autoCid == 0 || !s.secPending || handle != s.autoHandle then s
      else if status != 0 || level < LEVEL_2 then Failed(s, at)
      else Answered(Released(s), s.autoCid, s.heldAt, at, true)
    case Opened(cid, status, started) =>
      if status == 0 then if started then s else Ended(s)
      else
        var t := if cid == s.autoCid then Released(s) else s;
        if s.activeCid == cid || s.activeCid == 0 then Ended(t) else t
    case Closed(cid) =>
      if cid != s.activeCid then s
      else if cid == s.autoCid then Ended(Released(s))
      else Ended(s)
  }

  /** What the stack below keeps to: channel numbers are not zero, and only an accepted channel opens. */
  predicate Plausible(s: State, e: Event) {
    && (e.Incoming? ==> e.cid != 0)
    && (e.Opened? && e.status == 0 ==> e.cid == s.activeCid && e.cid != s.autoCid)
  }

  /** A history of events that keeps to it throughout. */
  ghost predicate History(mode: Mode, h: seq<Event>) {
    h == [] || (History(mode, h[..|h| - 1]) && Plausible(StateAfter(mode, h[..|h| - 1]), h[|h| - 1]))
  }

  ghost function StateAfter(mode: Mode, h: seq<Event>): State {
    if h == [] then BOOT else After(mode, StateAfter(mode, h[..|h| - 1]), h[|h| - 1], |h| - 1)
  }

  // ---------------------------------------------------------------- channels, read off events and answers

  /** The event ends a channel of this cid. */
  predicate Ends(e: Event, cid: u16) {
    (e.Closed? && e.cid == cid) || (e.Opened? && e.cid == cid && (e.status != 0 || !e.started))
  }

  predicate HasAnswer(answers: seq<Answer>, p: nat) {
    exists i :: 0 <= i < |answers| && answers[i].conn == p
  }

  predicate Declined(answers: seq<Answer>, p: nat) {
    exists i :: 0 <= i < |answers| && answers[i].conn == p && !answers[i].accepted
  }

  /** The channel of event p has come in and neither been declined nor ended. */
  ghost predicate Ongoing(h: seq<Event>, answers: seq<Answer>, p: nat) {
    && p < |h| && h[p].Incoming? && !Declined(answers, p)
    && forall q :: p < q < |h| ==> !Ends(h[q], h[p].cid)
  }

  /** And has had no answer either. */
  ghost predicate Waiting(h: seq<Event>, answers: seq<Answer>, p: nat) {
    Ongoing(h, answers, p) && !HasAnswer(answers, p)
  }

  ghost predicate Busy(h: seq<Event>, answers: seq<Answer>) {
    exists p: nat :: Ongoing(h, answers, p)
  }

  ghost predicate GoodName(e: Event)
    requires e.NameComplete?
  {
    e.status == 0 && KnownName(NameIn(e.name))
  }

  /** Event q shows that the phone of event p is not one to let in by name: its name could not be asked for, did
      not come, or is not on the list. */
  ghost predicate NameFails(h: seq<Event>, p: nat, q: nat)
    requires p < |h| && q < |h| && h[p].Incoming?
  {
    if q == p then !h[p].asked
    else p < q && h[q].NameComplete? && h[q].addr == h[p].addr && !GoodName(h[q])
  }

  ghost predicate AskedForSecurity(h: seq<Event>, p: nat, end: nat)
    requires p < |h| && end <= |h| && h[p].Incoming?
  {
    exists q: nat :: p <= q < end && NameFails(h, p, q)
  }

  /** Event e finds the channel of event p waiting for this name. */
  ghost predicate AwaitsName(h: seq<Event>, answers: seq<Answer>, e: Event, p: nat) {
    Waiting(h, answers, p) && e.NameComplete? && e.addr == h[p].addr && !AskedForSecurity(h, p, |h|)
  }

  /** Event e finds the channel of event p waiting for this link to be secured. */
  ghost predicate AwaitsSecurity(h: seq<Event>, answers: seq<Answer>, e: Event, p: nat) {
    Waiting(h, answers, p) && e.SecurityLevel? && e.handle == h[p].handle && AskedForSecurity(h, p, |h|)
  }

  /** The answers that event e calls for after history h: a channel that comes in while another is ongoing is
      declined, one that comes in outside auto mode is accepted, a listed name accepts the channel that waits for it,
      and the security level decides the channel that waits for that. */
  ghost predicate CalledFor(mode: Mode, h: seq<Event>, answers: seq<Answer>, e: Event, more: seq<Answer>) {
    && (e.Incoming? ==>
          more == if Busy(h, answers) then [Answer(e.cid, |h|, |h|, false)]
                  else if mode != Auto then [Answer(e.cid, |h|, |h|, true)] else [])
    && (forall p: nat :: AwaitsName(h, answers, e, p) ==>
          more == if GoodName(e) then [Answer(h[p].cid, p, |h|, true)] else [])
    && (forall p: nat :: AwaitsSecurity(h, answers, e, p) ==>
          more == [Answer(h[p].cid, p, |h|, e.status == 0 && e.level >= 2)])
    && (more == [] || e.Incoming?
        || exists p: nat :: AwaitsName(h, answers, e, p) || AwaitsSecurity(h, answers, e, p))
  }

  /** The phone on record after event e: the one the decision was last made for, its name if it gave one, and whether
      it must secure the link. */
  ghost predicate PhoneAfter(mode: Mode, h: seq<Event>, answers: seq<Answer>, e: Event,
                             phone: Option<(Octets, bool)>, phone': Option<(Octets, bool)>) {
    if e.Incoming? && !e.asked && mode == Auto && !Busy(h, answers) then phone' == Some(([], true))
    else if exists p: nat :: AwaitsName(h, answers, e, p) then
      phone' == Some((if e.status == 0 then NameIn(e.name) else [], !GoodName(e)))
    else phone' == phone
  }

  // ---------------------------------------------------------------- what every history keeps

  /** One channel at a time: the session flag says whether there is one, and a held channel is that one. */
  predicate OneChannel(mode: Mode, s: State) {
    && (s.sessionActive <==> s.activeCid != 0)
    && (s.autoCid != 0 ==> s.autoCid == s.activeCid && mode == Auto)
    && (s.secPending ==> s.autoCid != 0)
  }

  /** The reason for an answer, read off the history alone. */
  ghost predicate Justified(mode: Mode, h: seq<Event>, a: Answer) {
    && a.conn <= a.at < |h| && h[a.conn].Incoming? && a.cid == h[a.conn].cid
    && var c, e := h[a.conn], h[a.at];
       if a.at == a.conn then a.accepted ==> mode != Auto
       else
         && mode == Auto
         && if e.NameComplete? then
              a.accepted && e.addr == c.addr && e.status == 0 && KnownName(NameIn(e.name))
            else
              && e.SecurityLevel? && e.handle == c.handle && AskedForSecurity(h, a.conn, a.at)
              && (a.accepted <==> e.status == 0 && e.level >= LEVEL_2)
  }

  /** The held channel came in as event heldAt and has had no answer. */
  ghost predicate HeldUnanswered(s: State, h: seq<Event>) {
    s.autoCid != 0 ==>
      && s.heldAt < |h| && h[s.heldAt].Incoming?
      && h[s.heldAt].cid == s.autoCid && h[s.heldAt].handle == s.autoHandle && h[s.heldAt].addr == s.autoAddr
      && (s.secPending <==> AskedForSecurity(h, s.heldAt, |h|))
      && s.heldAt == s.activeAt && !HasAnswer(s.answers, s.heldAt)
  }

  /** The active channel is the one that is ongoing, and it is held until it has an answer. */
  ghost predicate ActiveIsOngoing(s: State, h: seq<Event>) {
    && (forall p: nat :: Ongoing(h, s.answers, p) ==> s.sessionActive && p == s.activeAt)
    && (s.sessionActive ==> Ongoing(h, s.answers, s.activeAt) && h[s.activeAt].cid == s.activeCid)
    && (s.sessionActive && s.autoCid == 0 ==> HasAnswer(s.answers, s.activeAt))
  }

  /** Event q brings a channel down that had no answer yet. */
  predicate Drops(e: Event, cid: u16) {
    (e.Closed? && e.cid == cid) || (e.Opened? && e.cid == cid && e.status != 0)
  }

  /** The channel of event p has an answer, or is the held one, or went down before it got one. */
  ghost predicate Settled(s: State, h: seq<Event>, p: nat)
    requires p < |h| && h[p].Incoming?
  {
    || HasAnswer(s.answers, p)
    || (s.autoCid != 0 && s.heldAt == p)
    || exists q :: p < q < |h| && Drops(h[q], h[p].cid)
  }

  ghost predicate AnsweredOnce(answers: seq<Answer>) {
    forall i, j :: 0 <= i < j < |answers| ==> answers[i].conn != answers[j].conn
  }

  ghost predicate Sound(mode: Mode, s: State, h: seq<Event>) {
    && OneChannel(mode, s) && HeldUnanswered(s, h) && ActiveIsOngoing(s, h) && AnsweredOnce(s.answers)
    && (forall p: nat :: p < |h| && h[p].Incoming? ==> Settled(s, h, p))
    && forall i :: 0 <= i < |s.answers| ==> Justified(mode, h, s.answers[i])
  }

  lemma AskedGrows(h: seq<Event>, e: Event, p: nat, end: nat)
    requires p < |h| && end <= |h| && h[p].Incoming? && AskedForSecurity(h, p, end)
    ensures AskedForSecurity(h + [e], p, end) && AskedForSecurity(h + [e], p, |h| + 1)
  {
    var q: nat :| p <= q < end && NameFails(h, p, q);
    assert NameFails(h + [e], p, q);
  }

  /** A reason stays a reason. */
  lemma JustifiedGrows(mode: Mode, h: seq<Event>, e: Event, a: Answer)
    requires Justified(mode, h, a)
    ensures Justified(mode, h + [e], a)
  {
    hide KnownName;
    if a.at != a.conn && !h[a.at].NameComplete? {
      AskedGrows(h, e, a.conn, a.at);
    }
  }

  lemma AllJustifiedGrow(mode: Mode, h: seq<Event>, e: Event, answers: seq<Answer>)
    requires forall i :: 0 <= i < |answers| ==> Justified(mode, h, answers[i])
    ensures forall i :: 0 <= i < |answers| ==> Justified(mode, h + [e], answers[i])
  {
    hide Justified;
    forall i | 0 <= i < |answers|
      ensures Justified(mode, h + [e], answers[i])
    {
      JustifiedGrows(mode, h, e, answers[i]);
    }
  }

  /** A request for security in a history one event longer. */
  lemma AskedStep(h: seq<Event>, e: Event, p: nat)
    requires p < |h| && h[p].Incoming?
    ensures AskedForSecurity(h + [e], p, |h| + 1) <==> AskedForSecurity(h, p, |h|) || NameFails(h + [e], p, |h|)
  {
    hide KnownName;
    var g := h + [e];
    assert forall q: nat :: p <= q < |h| ==> (NameFails(g, p, q) <==> NameFails(h, p, q));
  }

  lemma AnswersJoined(answers: seq<Answer>, more: seq<Answer>, p: nat)
    requires |more| <= 1
    ensures HasAnswer(answers + more, p) <==> HasAnswer(answers, p) || (more != [] && more[0].conn == p)
    ensures Declined(answers + more, p)
       <==> Declined(answers, p) || (more != [] && more[0].conn == p && !more[0].accepted)
  {
    var all := answers + more;
    assert forall i :: 0 <= i < |answers| ==> all[i] == answers[i];
    assert more != [] ==> all[|answers|] == more[0];
  }

  /** What goes on in a history one event and perhaps an answer longer. */
  lemma OngoingStep(h: seq<Event>, e: Event, answers: seq<Answer>, more: seq<Answer>, p: nat)
    requires p < |h| && |more| <= 1
    ensures Ongoing(h + [e], answers + more, p)
       <==> Ongoing(h, answers, p) && !Ends(e, h[p].cid)
            && !(more != [] && more[0].conn == p && !more[0].accepted)
  {
    hide Declined, Ends;
    var g := h + [e];
    AnswersJoined(answers, more, p);
    assert forall q :: p < q < |h| ==> g[q] == h[q];
    assert g[|h|] == e && g[p] == h[p];
  }

  /** No answer is for an event still to come. */
  lemma NoneAhead(mode: Mode, s: State, h: seq<Event>, p: nat)
    requires Sound(mode, s, h) && |h| <= p
    ensures !HasAnswer(s.answers, p)
  {
    assert forall i :: 0 <= i < |s.answers| ==> Justified(mode, h, s.answers[i]);
  }

  /** What a handler tells RFCOMM. */
  ghost function Said(s: State, t: State): (more: seq<Answer>)
    requires s.answers <= t.answers
    ensures t.answers == s.answers + more
  {
    t.answers[|s.answers|..]
  }

  lemma AnswersGrow(mode: Mode, s: State, e: Event, at: nat)
    ensures var answers := After(mode, s, e, at).answers;
            s.answers <= answers && |answers| <= |s.answers| + 1
  {
  }

  lemma ActiveStep(mode: Mode, s: State, h: seq<Event>, e: Event)
    requires Sound(mode, s, h) && Plausible(s, e)
    ensures ActiveIsOngoing(After(mode, s, e, |h|), h + [e])
  {
    AnswersGrow(mode, s, e, |h|);
    var g, t := h + [e], After(mode, s, e, |h|);
    var more := Said(s, t);
    NoneAhead(mode, s, h, |h|);
    AnswersJoined(s.answers, more, s.activeAt);
    AnswersJoined(s.answers, more, |h|);
    hide KnownName, Justified, AnsweredOnce, Settled, AskedForSecurity;
    forall p: nat
      ensures Ongoing(g, t.answers, p) ==> t.sessionActive && p == t.activeAt
    {
      if p < |h| {
        OngoingStep(h, e, s.answers, more, p);
      }
    }
    if s.sessionActive {
      OngoingStep(h, e, s.answers, more, s.activeAt);
    }
  }

  lemma HeldStep(mode: Mode, s: State, h: seq<Event>, e: Event)
    requires Sound(mode, s, h) && Plausible(s, e)
    ensures HeldUnanswered(After(mode, s, e, |h|), h + [e])
  {
    AnswersGrow(mode, s, e, |h|);
    var g, t := h + [e], After(mode, s, e, |h|);
    var more := Said(s, t);
    NoneAhead(mode, s, h, |h|);
    AnswersJoined(s.answers, more, s.heldAt);
    AnswersJoined(s.answers, more, |h|);
    hide KnownName, Justified, AnsweredOnce, Settled, ActiveIsOngoing;
    assert g[|h|] == e;
    if s.autoCid != 0 {
      AskedStep(h, e, s.heldAt);
    }
    if e.Incoming? {
      assert AskedForSecurity(g, |h|, |h| + 1) <==> NameFails(g, |h|, |h|);
    }
  }

  lemma SettledStep(mode: Mode, s: State, h: seq<Event>, e: Event, p: nat)
    requires Sound(mode, s, h) && Plausible(s, e) && p <= |h| && (h + [e])[p].Incoming?
    ensures Settled(After(mode, s, e, |h|), h + [e], p)
  {
    AnswersGrow(mode, s, e, |h|);
    var g, t := h + [e], After(mode, s, e, |h|);
    var more := Said(s, t);
    AnswersJoined(s.answers, more, p);
    hide KnownName, Justified, AnsweredOnce, ActiveIsOngoing, AskedForSecurity;
    if p < |h| {
      assert g[p] == h[p] && g[|h|] == e && Settled(s, h, p);
      if q :| p < q < |h| && Drops(h[q], h[p].cid) {
        assert Drops(g[q], g[p].cid);
      }
    }
  }

  lemma JustifiedStep(mode: Mode, s: State, h: seq<Event>, e: Event)
    requires Sound(mode, s, h) && Plausible(s, e)
    ensures var t := After(mode, s, e, |h|);
            && OneChannel(mode, t) && AnsweredOnce(t.answers)
            && forall i :: 0 <= i < |t.answers| ==> Justified(mode, h + [e], t.answers[i])
  {
    hide KnownName, Settled, ActiveIsOngoing;
    AllJustifiedGrow(mode, h, e, s.answers);
    if s.autoCid != 0 && s.secPending {
      AskedGrows(h, e, s.heldAt, |h|);
    }
    assert (h + [e])[|h|] == e;
  }

  lemma SoundStep(mode: Mode, s: State, h: seq<Event>, e: Event)
    requires Sound(mode, s, h) && Plausible(s, e)
    ensures Sound(mode, After(mode, s, e, |h|), h + [e])
  {
    hide KnownName, HeldUnanswered, ActiveIsOngoing, Settled, Justified, OneChannel, AnsweredOnce, After, Plausible;
    HeldStep(mode, s, h, e);
    ActiveStep(mode, s, h, e);
    JustifiedStep(mode, s, h, e);
    forall p: nat | p <= |h| && (h + [e])[p].Incoming?
      ensures Settled(After(mode, s, e, |h|), h + [e], p)
    {
      SettledStep(mode, s, h, e, p);
    }
  }

  /** Every history of events, in any order: one channel at a time, every answer justified by the events before
      it, and none answered twice. */
  lemma {:induction false} EveryHistoryIsSound(mode: Mode, h: seq<Event>)
    requires History(mode, h)
    ensures Sound(mode, StateAfter(mode, h), h)
  {
    hide Sound, After;
    if h == [] {
      BootIsSound(mode);
    } else {
      var before := h[..|h| - 1];
      EveryHistoryIsSound(mode, before);
      SoundStep(mode, StateAfter(mode, before), before, h[|h| - 1]);
      assert before + [h[|h| - 1]] == h;
    }
  }

  lemma BootIsSound(mode: Mode)
    ensures Sound(mode, BOOT, [])
  {
  }

  // ---------------------------------------------------------------- what is answered, and that it is

  /** Of a sound state: the channels that wait are the held one. */
  lemma WaitingIsHeld(mode: Mode, s: State, h: seq<Event>, p: nat)
    requires Sound(mode, s, h)
    ensures Waiting(h, s.answers, p) <==> s.autoCid != 0 && p == s.heldAt
    ensures Busy(h, s.answers) <==> s.sessionActive
    ensures s.autoCid != 0 ==>
              && s.heldAt < |h| && h[s.heldAt].Incoming? && h[s.heldAt].cid == s.autoCid
              && h[s.heldAt].handle == s.autoHandle && h[s.heldAt].addr == s.autoAddr && mode == Auto
              && (s.secPending <==> AskedForSecurity(h, s.heldAt, |h|))
    ensures s.secPending ==> s.autoCid != 0
  {
    hide Justified, Settled, AskedForSecurity, AnsweredOnce;
  }

  lemma StateReacts(mode: Mode, s: State, h: seq<Event>, e: Event)
    requires Sound(mode, s, h) && Plausible(s, e)
    ensures var t := After(mode, s, e, |h|);
            && s.answers <= t.answers && CalledFor(mode, h, s.answers, e, t.answers[|s.answers|..])
            && PhoneAfter(mode, h, s.answers, e, s.lastPhone, t.lastPhone)
  {
    AnswersGrow(mode, s, e, |h|);
    var more := Said(s, After(mode, s, e, |h|));
    forall p: nat
      ensures Waiting(h, s.answers, p) <==> s.autoCid != 0 && p == s.heldAt
    {
      WaitingIsHeld(mode, s, h, p);
    }
    WaitingIsHeld(mode, s, h, 0);
    hide Waiting, Busy, Sound, KnownName, AskedForSecurity;
    var p := s.heldAt;
    assert s.autoCid != 0 && e.NameComplete? && e.addr == s.autoAddr && !s.secPending
      <==> AwaitsName(h, s.answers, e, p);
    assert s.autoCid != 0 && e.SecurityLevel? && e.handle == s.autoHandle && s.secPending
      <==> AwaitsSecurity(h, s.answers, e, p);
  }

  /** Each event of a history is answered as it calls for, neither more nor less, and puts the phone it decides on
      record. */
  lemma AnswersExactly(mode: Mode, h: seq<Event>, e: Event)
    requires History(mode, h + [e])
    ensures var answers, answers' := StateAfter(mode, h).answers, StateAfter(mode, h + [e]).answers;
            && answers <= answers' && CalledFor(mode, h, answers, e, answers'[|answers|..])
            && PhoneAfter(mode, h, answers, e, StateAfter(mode, h).lastPhone, StateAfter(mode, h + [e]).lastPhone)
  {
    hide Sound, After, CalledFor, PhoneAfter;
    assert (h + [e])[..|h|] == h;
    EveryHistoryIsSound(mode, h);
    StateReacts(mode, StateAfter(mode, h), h, e);
  }

  /** No phone is forgotten: each channel that came in has an answer, or is the one held now, or went down before it
      got one. */
  lemma NoneForgotten(mode: Mode, h: seq<Event>, p: nat)
    requires History(mode, h) && p < |h| && h[p].Incoming?
    ensures var s := StateAfter(mode, h);
            || HasAnswer(s.answers, p)
            || (mode == Auto && s.autoCid == h[p].cid && s.heldAt == p && Waiting(h, s.answers, p))
            || exists q :: p < q < |h| && Drops(h[q], h[p].cid)
  {
    hide After, StateAfter, History, Justified, AnsweredOnce, Waiting;
    EveryHistoryIsSound(mode, h);
    assert Settled(StateAfter(mode, h), h, p);
    WaitingIsHeld(mode, StateAfter(mode, h), h, p);
  }

  /** In auto mode a channel is accepted only once its phone's name matched the list, or, its name having failed
      to, once its link was reported authenticated and encrypted. */
  lemma AcceptedOnlyWhenDecided(h: seq<Event>, a: Answer)
    requires History(Auto, h) && a in StateAfter(Auto, h).answers && a.accepted
    ensures a.conn < a.at < |h| && h[a.conn].Incoming? && h[a.conn].cid == a.cid
    ensures var c, e := h[a.conn], h[a.at];
            || (e.NameComplete? && e.addr == c.addr && e.status == 0 && KnownName(NameIn(e.name)))
            || (e.SecurityLevel? && e.handle == c.handle && e.status == 0 && e.level >= LEVEL_2
                && AskedForSecurity(h, a.conn, a.at))
  {
    hide After, StateAfter, History, KnownName;
    EveryHistoryIsSound(Auto, h);
    assert Justified(Auto, h, a);
  }

  /** A channel is answered at most once, whatever happens. */
  lemma AnsweredAtMostOnce(mode: Mode, h: seq<Event>, i: nat, j: nat)
    requires History(mode, h)
    requires var answers := StateAfter(mode, h).answers;
             i < |answers| && j < |answers| && answers[i].conn == answers[j].conn
    ensures i == j
  {
    hide After, StateAfter, History, Justified, HeldUnanswered;
    EveryHistoryIsSound(mode, h);
  }

  // ---------------------------------------------------------------- the handlers in place

  /** contains_nocase, for a needle that is not empty. */
  method ContainsNocase(hay: Octets, needle: Octets) returns (found: bool)
    ensures found <==> Contains(hay, needle)
  {
    for i := 0 to |hay|
      invariant forall m: nat :: m < i ==> !OccursAt(hay, needle, m)
    {
      if OccursAt(hay, needle, i) {
        return true;
      }
    }
    return false;
  }

  method IsNosecName(name: Octets) returns (known: bool)
    ensures known <==> KnownName(name)
  {
    hide Contains;
    for k := 0 to |NOSEC_NAMES|
      invariant forall m :: 0 <= m < k ==> !Contains(name, NOSEC_NAMES[m])
    {
      var found := ContainsNocase(name, NOSEC_NAMES[k]);
      if found {
        return true;
      }
    }
    return false;
  }

  class Link {
    const mode: Mode
    var activeCid: u16
    var sessionActive: bool
    var autoCid: u16
    var autoHandle: u16
    var autoAddr: nat
    var autoSecPending: bool
    var lastPhone: Option<(Octets, bool)>
    ghost var activeAt: nat
    ghost var heldAt: nat
    ghost var answers: seq<Answer>
    /** Everything that has happened, oldest first. */
    ghost var events: seq<Event>

    ghost function View(): State
      reads this
    {
      State(activeCid, sessionActive, autoCid, autoHandle, autoAddr, autoSecPending, lastPhone, activeAt, heldAt,
            answers)
    }

    ghost predicate Valid()
      reads this
    {
      History(mode, events) && View() == StateAfter(mode, events)
    }

    constructor (mode: Mode)
      ensures Valid() && this.mode == mode && events == []
    {
      this.mode := mode;
      activeCid, sessionActive, autoCid, autoHandle, autoAddr, autoSecPending := 0, false, 0, 0, 0, false;
      lastPhone, activeAt, heldAt, answers, events := None, 0, 0, [], [];
    }

    /** rfcomm_accept_connection or rfcomm_decline_connection. */
    ghost method Tell(cid: u16, conn: nat, accepted: bool)
      modifies `answers
      ensures View() == Answered(old(View()), cid, conn, |events|, accepted)
    {
      answers := answers + [Answer(cid, conn, |events|, accepted)];
    }

    method AutoRelease()
      modifies `autoCid, `autoSecPending
      ensures View() == Released(old(View()))
    {
      autoCid, autoSecPending := 0, false;
    }

    method AutoFail()
      modifies this
      ensures View() == Failed(old(View()), |events|) && events == old(events)
    {
      var cid := autoCid;
      AutoRelease();
      Tell(cid, heldAt, false);
      if activeCid == cid {
        sessionActive, activeCid := false, 0;
      }
    }

    method AutoDecide(name: Option<Octets>)
      modifies this
      ensures View() == Decided(old(View()), name, |events|) && events == old(events)
    {
      hide KnownName;
      var secure := true;
      if name.Some? {
        var known := IsNosecName(name.value);
        secure := !known;
      }
      lastPhone := Some((if name.Some? then name.value else [], secure));
      if !secure {
        var cid := autoCid;
        AutoRelease();
        Tell(cid, heldAt, true);
        return;
      }
      autoSecPending := true;
    }

    method AutoBegin(cid: u16, handle: u16, addr: nat, asked: bool)
      modifies this
      ensures View() == Begun(old(View()), Incoming(cid, handle, addr, asked), |events|) && events == old(events)
    {
      hide KnownName;
      autoCid, autoHandle, autoAddr, autoSecPending, heldAt := cid, handle, addr, false, |events|;
      if !asked {
        AutoDecide(None);
      }
    }

    /** The event is on record and has been answered as it calls for. */
    twostate predicate Reacted(e: Event)
      reads this
    {
      && events == old(events) + [e] && old(answers) <= answers
      && CalledFor(mode, old(events), old(answers), e, answers[|old(answers)|..])
      && PhoneAfter(mode, old(events), old(answers), e, old(lastPhone), lastPhone)
    }

    ghost method Record(e: Event, was: State)
      requires History(mode, events) && was == StateAfter(mode, events) && Plausible(was, e)
      requires View() == After(mode, was, e, |events|)
      modifies `events
      ensures Valid() && events == old(events) + [e] && was.answers <= answers
      ensures CalledFor(mode, old(events), was.answers, e, answers[|was.answers|..])
      ensures PhoneAfter(mode, old(events), was.answers, e, was.lastPhone, lastPhone)
    {
      hide After, Plausible, CalledFor, PhoneAfter;
      assert (events + [e])[..|events|] == events;
      events := events + [e];
      AnswersExactly(mode, old(events), e);
    }

    /** RFCOMM_EVENT_INCOMING_CONNECTION */
    method IncomingConnection(cid: u16, handle: u16, addr: nat, asked: bool)
      requires Valid() && cid != 0
      modifies this
      ensures Valid() && Reacted(Incoming(cid, handle, addr, asked))
    {
      hide StateAfter, History, Decided, CalledFor, PhoneAfter;
      ghost var was := View();
      var busy := sessionActive;
      if !busy {
        sessionActive, activeCid, activeAt := true, cid, |events|;
      }
      if busy {
        Tell(cid, |events|, false);
      } else if mode == Auto {
        AutoBegin(cid, handle, addr, asked);
      } else {
        Tell(cid, |events|, true);
      }
      Record(Incoming(cid, handle, addr, asked), was);
    }

    /** HCI_EVENT_REMOTE_NAME_REQUEST_COMPLETE; the handler is installed in auto mode only. */
    method NameRequestComplete(addr: nat, status: byte, raw: Octets)
      requires Valid()
      modifies this
      ensures Valid() && Reacted(NameComplete(addr, status, raw))
    {
      hide StateAfter, History, Decided, CalledFor, PhoneAfter;
      ghost var was := View();
      if mode == Auto && autoCid != 0 && !autoSecPending && addr == autoAddr {
        if status != 0 {
          AutoDecide(None);
        } else {
          var name := NameOf(raw);
          AutoDecide(Some(name));
        }
      }
      Record(NameComplete(addr, status, raw), was);
    }

    /** strnlen and memcpy into the name buffer. */
    static method NameOf(raw: Octets) returns (name: Octets)
      ensures name == NameIn(raw)
    {
      var n := Memchr(raw, '\0', 0, |raw|);
      name := raw[..if n < BT_NAME_MAX then n else BT_NAME_MAX - 1];
      assert CStr(raw)[..|name|] == name;
    }

    /** GAP_EVENT_SECURITY_LEVEL */
    method SecurityLevelEvent(handle: u16, status: byte, level: nat)
      requires Valid()
      modifies this
      ensures Valid() && Reacted(SecurityLevel(handle, status, level))
    {
      hide StateAfter, History, CalledFor, PhoneAfter;
      ghost var was := View();
      if mode == Auto && autoCid != 0 && autoSecPending && handle == autoHandle {
        if status != 0 || level < LEVEL_2 {
          AutoFail();
        } else {
          var cid := autoCid;
          AutoRelease();
          Tell(cid, heldAt, true);
        }
      }
      Record(SecurityLevel(handle, status, level), was);
    }

    /** RFCOMM_EVENT_CHANNEL_OPENED */
    method ChannelOpened(cid: u16, status: byte, started: bool)
      requires Valid() && (status == 0 ==> cid == activeCid && cid != autoCid)
      modifies this
      ensures Valid() && Reacted(Opened(cid, status, started))
    {
      hide StateAfter, History, CalledFor, PhoneAfter;
      ghost var was := View();
      if status != 0 {
        if cid == autoCid {
          AutoRelease();
        }
        if activeCid == cid || activeCid == 0 {
          sessionActive, activeCid := false, 0;
        }
      } else if !started {
        sessionActive, activeCid := false, 0;
      }
      Record(Opened(cid, status, started), was);
    }

    /** RFCOMM_EVENT_CHANNEL_CLOSED */
    method ChannelClosed(cid: u16)
      requires Valid()
      modifies this
      ensures Valid() && Reacted(Closed(cid))
    {
      hide StateAfter, History, CalledFor, PhoneAfter;
      ghost var was := View();
      if cid == activeCid {
        if cid == autoCid {
          AutoRelease();
        }
        sessionActive, activeCid := false, 0;
      }
      Record(Closed(cid), was);
    }
  }
}
