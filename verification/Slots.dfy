/** Accounting for the relay's session slots: sockets, buffers and the session counter. */
module Slots {

  /** What a slot owns: the phone's socket, the proxy's (-1 until there is one), and its buffer. */
  datatype Slot<M> = Unused | Used(ph: int, px: int, mem: M)

  function SocketsOf<M>(s: Slot<M>): set<int> {
    if s.Unused? then {} else if s.px >= 0 then {s.ph, s.px} else {s.ph}
  }

  function BuffersOf<M>(s: Slot<M>): set<M> {
    if s.Unused? then {} else {s.mem}
  }

  ghost function Sockets<M>(ss: seq<Slot<M>>): set<int> {
    if ss == [] then {} else SocketsOf(ss[0]) + Sockets(ss[1..])
  }

  ghost function Buffers<M>(ss: seq<Slot<M>>): set<M> {
    if ss == [] then {} else BuffersOf(ss[0]) + Buffers(ss[1..])
  }

  ghost function Count<M>(ss: seq<Slot<M>>): nat {
    if ss == [] then 0 else (if ss[0].Used? then 1 else 0) + Count(ss[1..])
  }

  /** No two slots share a socket or a buffer, and no socket is a listener. */
  ghost predicate Apart<M>(ss: seq<Slot<M>>, listeners: set<int>) {
    && (forall i, j :: 0 <= i < j < |ss|
                       ==> SocketsOf(ss[i]) !! SocketsOf(ss[j]) && BuffersOf(ss[i]) !! BuffersOf(ss[j]))
    && (forall i :: 0 <= i < |ss| ==> SocketsOf(ss[i]) !! listeners)
    && (forall i :: 0 <= i < |ss| && ss[i].Used? ==> ss[i].ph >= 0 && ss[i].ph != ss[i].px)
  }

  /** Nothing leaks: the counter is the number of used slots, the open sockets are the listeners and what the
      slots own, the live buffers are the slots' buffers. */
  ghost predicate Accounted<M>(ss: seq<Slot<M>>, listeners: set<int>, fds: set<int>, buffers: set<M>, active: int) {
    && Apart(ss, listeners)
    && fds == listeners + Sockets(ss) && buffers == Buffers(ss) && active == Count(ss)
  }

  lemma {:induction false} SlotOwnsSockets<M>(ss: seq<Slot<M>>, i: nat)
    requires i < |ss|
    ensures SocketsOf(ss[i]) <= Sockets(ss) && BuffersOf(ss[i]) <= Buffers(ss)
  {
    if i > 0 {
      SlotOwnsSockets(ss[1..], i - 1);
    }
  }

  lemma {:induction false} OthersDisjoint<M>(s: Slot<M>, ss: seq<Slot<M>>)
    requires forall i :: 0 <= i < |ss| ==> SocketsOf(s) !! SocketsOf(ss[i]) && BuffersOf(s) !! BuffersOf(ss[i])
    ensures SocketsOf(s) !! Sockets(ss) && BuffersOf(s) !! Buffers(ss)
  {
    if ss != [] {
      OthersDisjoint(s, ss[1..]);
    }
  }

  /** Changing one slot changes the totals by exactly what it owned and owns. */
  lemma {:induction false} SlotUpdate<M>(ss: seq<Slot<M>>, i: nat, s: Slot<M>)
    requires i < |ss|
    requires forall j, k :: 0 <= j < k < |ss|
                            ==> SocketsOf(ss[j]) !! SocketsOf(ss[k]) && BuffersOf(ss[j]) !! BuffersOf(ss[k])
    ensures Sockets(ss[i := s]) == Sockets(ss) - SocketsOf(ss[i]) + SocketsOf(s)
    ensures Buffers(ss[i := s]) == Buffers(ss) - BuffersOf(ss[i]) + BuffersOf(s)
    ensures Count(ss[i := s]) == Count(ss) - (if ss[i].Used? then 1 else 0) + (if s.Used? then 1 else 0)
  {
    var rest := ss[1..];
    if i == 0 {
      assert ss[i := s][1..] == rest;
      OthersDisjoint(ss[0], rest);
    } else {
      assert ss[i := s][1..] == rest[i - 1 := s];
      SlotUpdate(rest, i - 1, s);
      OthersDisjoint(ss[0], rest);
      SlotOwnsSockets(rest, i - 1);
    }
  }

  /** A new session takes an unused slot, a socket not open before and a new buffer. */
  lemma Opened<M>(ss: seq<Slot<M>>, i: nat, ph: int, mem: M, listeners: set<int>, fds: set<int>, buffers: set<M>,
                  active: int)
    requires Accounted(ss, listeners, fds, buffers, active)
    requires i < |ss| && ss[i].Unused? && ph >= 0 && ph !in fds && mem !in buffers
    ensures Accounted(ss[i := Used(ph, -1, mem)], listeners, fds + {ph}, buffers + {mem}, active + 1)
  {
    SlotUpdate(ss, i, Used(ph, -1, mem));
    NewSlotApart(ss, i, Used(ph, -1, mem), listeners, fds, buffers);
  }

  lemma NewSlotApart<M>(ss: seq<Slot<M>>, i: nat, s: Slot<M>, listeners: set<int>, fds: set<int>, buffers: set<M>)
    requires i < |ss| && Apart(ss, listeners) && fds == listeners + Sockets(ss) && buffers == Buffers(ss)
    requires s.Used? ==> s.ph >= 0 && s.ph != s.px
    requires forall fd :: fd in SocketsOf(s) ==> fd in SocketsOf(ss[i]) || fd !in fds
    requires forall m :: m in BuffersOf(s) ==> m in BuffersOf(ss[i]) || m !in buffers
    ensures Apart(ss[i := s], listeners)
  {
    forall j | 0 <= j < |ss| && j != i
      ensures SocketsOf(s) !! SocketsOf(ss[j]) && BuffersOf(s) !! BuffersOf(ss[j])
    {
      SlotOwnsSockets(ss, j);
      assert j < i ==> SocketsOf(ss[j]) !! SocketsOf(ss[i]) && BuffersOf(ss[j]) !! BuffersOf(ss[i]);
      assert i < j ==> SocketsOf(ss[i]) !! SocketsOf(ss[j]) && BuffersOf(ss[i]) !! BuffersOf(ss[j]);
    }
  }

  /** The slot gets a proxy socket. */
  lemma Attached<M>(ss: seq<Slot<M>>, i: nat, px: int, listeners: set<int>, fds: set<int>, buffers: set<M>, active: int)
    requires Accounted(ss, listeners, fds, buffers, active)
    requires i < |ss| && ss[i].Used? && ss[i].px < 0 && px >= 0 && px !in fds
    ensures Accounted(ss[i := ss[i].(px := px)], listeners, fds + {px}, buffers, active)
  {
    SlotOwnsSockets(ss, i);
    SlotUpdate(ss, i, ss[i].(px := px));
    NewSlotApart(ss, i, ss[i].(px := px), listeners, fds, buffers);
  }

  /** Closing a slot releases its sockets and buffer, which were all open, and nothing else. */
  lemma Closed<M>(ss: seq<Slot<M>>, i: nat, listeners: set<int>, fds: set<int>, buffers: set<M>, active: int)
    requires Accounted(ss, listeners, fds, buffers, active)
    requires i < |ss| && ss[i].Used?
    ensures SocketsOf(ss[i]) <= fds && BuffersOf(ss[i]) <= buffers
    ensures Accounted(ss[i := Unused], listeners, fds - SocketsOf(ss[i]), buffers - BuffersOf(ss[i]), active - 1)
  {
    SlotOwnsSockets(ss, i);
    SlotUpdate(ss, i, Unused);
    NewSlotApart(ss, i, Unused, listeners, fds, buffers);
  }

  lemma {:induction false} NothingUsed<M>(ss: seq<Slot<M>>)
    requires forall i :: 0 <= i < |ss| ==> ss[i].Unused?
    ensures Sockets(ss) == {} && Buffers(ss) == {} && Count(ss) == 0
  {
    if ss != [] {
      NothingUsed(ss[1..]);
    }
  }

  lemma {:induction false} AllBuffersIn<M>(ss: seq<Slot<M>>, all: set<M>)
    requires forall i :: 0 <= i < |ss| && ss[i].Used? ==> ss[i].mem in all
    ensures Buffers(ss) <= all
  {
    if ss != [] {
      AllBuffersIn(ss[1..], all);
    }
  }
}
