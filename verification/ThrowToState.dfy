/** The state of asynchronous exceptions between threads (rts/RaiseAsync.c, rts/Messages.c): the
    messages, the queues they travel through, and what every step keeps. */
module ThrowToState {

  /** The info pointer of a message: stg_WHITEHOLE, stg_MSG_THROWTO or stg_MSG_NULL. */
  datatype Info = Locked | Ready | Revoked

  datatype Message = Message(info: Info, source: nat, target: nat)

  /** why_blocked, with the block_info that matters here. An MVar operation may have been completed
      already; BlockedOnRead, Write and Delay are `OnIO`. */
  datatype Why =
    | NotBlocked
    | OnMVar(completed: bool)
    | OnThrowTo(msg: nat)
    | OnBlackHole
    | OnSTM
    | OnIO
    | OnCCall
    | OnCCallInterruptible
    | Migrating

  datatype WhatNext = Alive | Killed | Complete

  datatype Thread = Thread(cap: nat, next: WhatNext, blockEx: bool, interruptible: bool, why: Why)

  /** An inbox holds throwTo messages and requests to wake a thread. */
  datatype Entry = Throw(msg: nat) | Wakeup(thread: nat)

  /** Where a message is: on no queue, with the operation under way, in the inbox of a capability, in
      the list that the capability took from its inbox, or on a thread's blocked_exceptions. */
  datatype Place = Nowhere | InHand | InInbox(cap: nat) | InTodo(cap: nat) | InBlocked(thread: nat)

  /** `raised` counts for each message how often its exception was raised. */
  datatype State = State(msgs: seq<Message>, threads: seq<Thread>, queues: map<Place, seq<Entry>>,
                         place: seq<Place>, raised: seq<nat>)

  const NOBODY := -1

  // ---------------------------------------------------------------- what every step keeps

  /** Queue p holds exactly the messages whose place it is, each once; requests to wake a thread are
      on no thread's queue. */
  ghost predicate Holds(q: seq<Entry>, p: Place, place: seq<Place>, threads: nat) {
    && (forall i :: 0 <= i < |q| && q[i].Throw? ==> q[i].msg < |place| && place[q[i].msg] == p)
    && (forall i, j :: 0 <= i < j < |q| && q[i].Throw? && q[j].Throw? ==> q[i].msg != q[j].msg)
    && (forall m :: 0 <= m < |place| && place[m] == p ==> Throw(m) in q)
    && (forall i :: 0 <= i < |q| && q[i].Wakeup? ==> q[i].thread < threads && !p.InBlocked?)
  }

  ghost predicate AllHold(s: State) {
    forall p :: p in s.queues ==> Holds(s.queues[p], p, s.place, |s.threads|)
  }

  predicate EndsOk(m: Message, threads: nat) {
    m.source < threads && m.target < threads && m.source != m.target
  }

  ghost predicate QueuesOk(s: State) {
    && |s.msgs| == |s.place| == |s.raised| && AllHold(s)
    && Nowhere !in s.queues && InHand !in s.queues
    && (forall m :: 0 <= m < |s.place| ==> s.place[m] in s.queues || s.place[m] == Nowhere || s.place[m] == InHand)
    && (forall m :: 0 <= m < |s.msgs| ==> EndsOk(s.msgs[m], |s.threads|))
  }

  /** A capability has an inbox and a list to work through, a thread a blocked_exceptions queue. */
  ghost predicate Furnished(s: State) {
    && (forall t :: 0 <= t < |s.threads| ==> InBlocked(t) in s.queues && InInbox(s.threads[t].cap) in s.queues)
    && (forall c: nat :: InInbox(c) in s.queues <==> InTodo(c) in s.queues)
  }

  /** The sender of a live message on a queue is blocked on it (except of message x, which is being
      sent). */
  ghost predicate SendersWait(s: State, x: int)
    requires QueuesOk(s)
  {
    forall m :: 0 <= m < |s.msgs| && m != x && s.msgs[m].info != Revoked && s.place[m] in s.queues ==>
      s.threads[s.msgs[m].source].why == OnThrowTo(m)
  }

  /** A request to wake t is on its way to t's capability. */
  ghost predicate WakePending(s: State, t: nat)
    requires t < |s.threads|
  {
    var c := s.threads[t].cap;
    || (InInbox(c) in s.queues && Wakeup(t) in s.queues[InInbox(c)])
    || (InTodo(c) in s.queues && Wakeup(t) in s.queues[InTodo(c)])
  }

  /** A thread blocked on a message is its sender; as long as the message is live it is not lost, and
      when it is revoked a request to wake the thread is on its way (except of thread y, which is
      about to be woken). */
  ghost predicate WaitersOk(s: State, y: int)
    requires QueuesOk(s)
  {
    forall t :: 0 <= t < |s.threads| && s.threads[t].why.OnThrowTo? ==>
      var m := s.threads[t].why.msg;
      && m < |s.msgs| && s.msgs[m].source == t
      && (s.msgs[m].info != Revoked ==> s.place[m] != Nowhere)
      && (s.msgs[m].info == Revoked && t != y ==> WakePending(s, t))
  }

  /** Unlocked live messages are somewhere; an exception is raised at most once, and then its message
      is done with. */
  ghost predicate MessagesOk(s: State)
    requires QueuesOk(s)
  {
    forall m :: 0 <= m < |s.msgs| ==>
      && (s.msgs[m].info == Ready ==> s.place[m] != Nowhere)
      && (s.place[m].InBlocked? ==> s.place[m].thread == s.msgs[m].target)
      && s.raised[m] <= 1
      && (s.raised[m] == 1 ==> s.msgs[m].info == Revoked || s.place[m] == Nowhere || s.place[m] == InHand)
  }

  ghost predicate Inv(s: State, x: int, y: int) {
    QueuesOk(s) && Furnished(s) && SendersWait(s, x) && WaitersOk(s, y) && MessagesOk(s)
  }

  // ---------------------------------------------------------------- primitive changes

  function SetInfo(s: State, m: nat, i: Info): State
    requires m < |s.msgs|
  {
    s.(msgs := s.msgs[m := s.msgs[m].(info := i)])
  }

  function SetWhy(s: State, t: nat, w: Why): State
    requires t < |s.threads|
  {
    s.(threads := s.threads[t := s.threads[t].(why := w)])
  }

  /** A message in hand is put at the front of queue p. */
  function Put(s: State, p: Place, m: nat): State
    requires p in s.queues && m < |s.place|
  {
    s.(queues := s.queues[p := [Throw(m)] + s.queues[p]], place := s.place[m := p])
  }

  function PutWakeup(s: State, p: Place, t: nat): State
    requires p in s.queues
  {
    s.(queues := s.queues[p := [Wakeup(t)] + s.queues[p]])
  }

  /** The first entry of queue p is taken off. */
  function Take(s: State, p: Place): State
    requires p in s.queues && s.queues[p] != []
  {
    var e := s.queues[p][0];
    s.(queues := s.queues[p := s.queues[p][1..]],
       place := if e.Throw? && e.msg < |s.place| then s.place[e.msg := InHand] else s.place)
  }

  /** A message in hand is forgotten. */
  function Drop(s: State, m: nat): State
    requires m < |s.place|
  {
    s.(place := s.place[m := Nowhere])
  }

  lemma HoldsElsewhere(q: seq<Entry>, p: Place, place: seq<Place>, threads: nat, m: nat, to: Place)
    requires Holds(q, p, place, threads) && m < |place| && place[m] != p && to != p
    ensures Holds(q, p, place[m := to], threads)
  {
  }

  lemma HoldsOneMore(q: seq<Entry>, p: Place, place: seq<Place>, threads: nat, m: nat)
    requires Holds(q, p, place, threads) && m < |place| && place[m] != p
    ensures Holds([Throw(m)] + q, p, place[m := p], threads)
  {
    var r := [Throw(m)] + q;
    forall k | 0 <= k < |place| && place[m := p][k] == p ensures Throw(k) in r {
      assert k != m ==> Throw(k) in q;
      assert r[0] == Throw(m);
    }
  }

  lemma HoldsOneLess(q: seq<Entry>, p: Place, place: seq<Place>, threads: nat)
    requires Holds(q, p, place, threads) && q != [] && p != InHand
    ensures q[0].Throw? ==> q[0].msg < |place| && place[q[0].msg] == p
                            && Holds(q[1..], p, place[q[0].msg := InHand], threads)
    ensures q[0].Wakeup? ==> !p.InBlocked? && Holds(q[1..], p, place, threads)
  {
    forall m | 0 <= m < |place| && place[m] == p && q[0] != Throw(m) ensures Throw(m) in q[1..] {
      var i :| 0 <= i < |q| && q[i] == Throw(m);
      assert q[1..][i - 1] == Throw(m);
    }
  }

  lemma PutHolds(s: State, p: Place, m: nat)
    requires QueuesOk(s) && p in s.queues && m < |s.place| && s.place[m] == InHand
    ensures QueuesOk(Put(s, p, m))
  {
    hide Holds, EndsOk;
    var s' := Put(s, p, m);
    forall q | q in s'.queues ensures Holds(s'.queues[q], q, s'.place, |s'.threads|) {
      assert Holds(s.queues[q], q, s.place, |s.threads|);
      if q == p {
        HoldsOneMore(s.queues[p], p, s.place, |s.threads|, m);
      } else {
        HoldsElsewhere(s.queues[q], q, s.place, |s.threads|, m, p);
      }
    }
  }

  lemma TakeHolds(s: State, p: Place)
    requires QueuesOk(s) && p in s.queues && s.queues[p] != []
    ensures QueuesOk(Take(s, p))
    ensures s.queues[p][0].Throw? ==> s.queues[p][0].msg < |s.msgs| && s.place[s.queues[p][0].msg] == p
    ensures s.queues[p][0].Wakeup? ==> s.queues[p][0].thread < |s.threads| && !p.InBlocked?
  {
    assert Holds(s.queues[p], p, s.place, |s.threads|);
    HoldsOneLess(s.queues[p], p, s.place, |s.threads|);
    assert s.queues[p][0].Wakeup? ==> s.queues[p][0].thread < |s.threads|;
    hide Holds, EndsOk;
    var s' := Take(s, p);
    var e := s.queues[p][0];
    forall q | q in s'.queues ensures Holds(s'.queues[q], q, s'.place, |s'.threads|) {
      assert Holds(s.queues[q], q, s.place, |s.threads|);
      if q != p && e.Throw? {
        HoldsElsewhere(s.queues[q], q, s.place, |s.threads|, e.msg, InHand);
      }
    }
  }

  lemma WakeupHolds(s: State, p: Place, t: nat)
    requires QueuesOk(s) && p in s.queues && p.InInbox? && t < |s.threads|
    ensures QueuesOk(PutWakeup(s, p, t))
  {
    hide EndsOk;
    var s' := PutWakeup(s, p, t);
    forall q | q in s'.queues ensures Holds(s'.queues[q], q, s'.place, |s'.threads|) {
      assert Holds(s.queues[q], q, s.place, |s.threads|);
    }
  }

  // ---------------------------------------------------------------- what the changes keep

  /** A live message in hand is put on a queue; its sender waits for it, or is about to. */
  lemma PutKeeps(s: State, p: Place, m: nat, x: int, y: int)
    requires Inv(s, x, y) && p in s.queues && m < |s.place| && s.place[m] == InHand
    requires s.msgs[m].info != Revoked && s.raised[m] == 0
    requires p.InBlocked? ==> p.thread == s.msgs[m].target
    requires x == m || s.threads[s.msgs[m].source].why == OnThrowTo(m)
    ensures Inv(Put(s, p, m), x, y)
  {
    hide AllHold, EndsOk, Holds, WakePending;
    PutHolds(s, p, m);
    var s' := Put(s, p, m);
    forall t | 0 <= t < |s.threads| && WakePending(s, t) ensures WakePending(s', t) {
      PutPending(s, p, m, t);
    }
  }

  lemma PutPending(s: State, p: Place, m: nat, t: nat)
    requires p in s.queues && m < |s.place| && t < |s.threads| && WakePending(s, t)
    ensures WakePending(Put(s, p, m), t)
  {
  }

  lemma TakePending(s: State, p: Place, t: nat)
    requires p in s.queues && s.queues[p] != [] && t < |s.threads| && WakePending(s, t) && s.queues[p][0] != Wakeup(t)
    ensures WakePending(Take(s, p), t)
  {
    assert s.queues[p] == [s.queues[p][0]] + Take(s, p).queues[p];
  }

  /** A request to wake t is sent to its capability. */
  lemma WakeupKeeps(s: State, t: nat, x: int, y: int)
    requires Inv(s, x, y) && t < |s.threads|
    ensures InInbox(s.threads[t].cap) in s.queues
    ensures Inv(PutWakeup(s, InInbox(s.threads[t].cap), t), x, if y == t then NOBODY else y)
  {
    var p := InInbox(s.threads[t].cap);
    assert InBlocked(t) in s.queues;
    WakeupHolds(s, p, t);
    hide AllHold, EndsOk;
    var s' := PutWakeup(s, p, t);
    forall u | 0 <= u < |s.threads| && (WakePending(s, u) || u == t) ensures WakePending(s', u) {
      assert Wakeup(t) in s'.queues[p];
    }
  }

  /** A thread becomes runnable that is not blocked on a live message. */
  lemma UnblockKeeps(s: State, t: nat, x: int, y: int)
    requires Inv(s, x, y) && t < |s.threads|
    requires s.threads[t].why.OnThrowTo? ==> s.msgs[s.threads[t].why.msg].info == Revoked
    ensures Inv(SetWhy(s, t, NotBlocked), x, if y == t then NOBODY else y)
  {
    hide Holds;
    var s' := SetWhy(s, t, NotBlocked);
    forall p | p in s'.queues ensures Holds(s'.queues[p], p, s'.place, |s'.threads|) {
      assert Holds(s.queues[p], p, s.place, |s.threads|);
    }
    forall u | 0 <= u < |s.threads| && WakePending(s, u) ensures WakePending(s', u) {
    }
  }

  /** A message is done with; its sender has to be woken now. */
  lemma RevokeKeeps(s: State, m: nat, x: int)
    requires Inv(s, x, NOBODY) && m < |s.msgs|
    ensures Inv(SetInfo(s, m, Revoked), x, s.msgs[m].source)
    ensures s.threads[s.msgs[m].source].why != OnThrowTo(m) ==> Inv(SetInfo(s, m, Revoked), x, NOBODY)
  {
    hide Holds;
    var s' := SetInfo(s, m, Revoked);
    forall p | p in s'.queues ensures Holds(s'.queues[p], p, s'.place, |s'.threads|) {
      assert Holds(s.queues[p], p, s.place, |s.threads|);
    }
    forall u | 0 <= u < |s.threads| && WakePending(s, u) ensures WakePending(s', u) {
    }
  }

  /** A live message is locked or unlocked. */
  lemma RelockKeeps(s: State, m: nat, i: Info, x: int, y: int)
    requires Inv(s, x, y) && m < |s.msgs| && s.msgs[m].info != Revoked && i != Revoked
    requires s.place[m] != Nowhere
    ensures Inv(SetInfo(s, m, i), x, y)
  {
    hide Holds;
    var s' := SetInfo(s, m, i);
    forall p | p in s'.queues ensures Holds(s'.queues[p], p, s'.place, |s'.threads|) {
      assert Holds(s.queues[p], p, s.place, |s.threads|);
    }
    forall u | 0 <= u < |s.threads| && WakePending(s, u) ensures WakePending(s', u) {
    }
  }

  /** The exception of a message in hand is raised. */
  lemma RaiseKeeps(s: State, m: nat, x: int, y: int)
    requires Inv(s, x, y) && m < |s.msgs| && s.place[m] == InHand && s.raised[m] == 0
    ensures Inv(s.(raised := s.raised[m := 1]), x, y)
  {
    hide Holds;
    var s' := s.(raised := s.raised[m := 1]);
    forall p | p in s'.queues ensures Holds(s'.queues[p], p, s'.place, |s'.threads|) {
      assert Holds(s.queues[p], p, s.place, |s.threads|);
    }
    forall u | 0 <= u < |s.threads| && WakePending(s, u) ensures WakePending(s', u) {
    }
  }

  /** A message in hand is forgotten that nobody waits for. */
  lemma DropKeeps(s: State, m: nat, x: int, y: int)
    requires Inv(s, x, y) && m < |s.place| && s.place[m] == InHand && s.msgs[m].info != Ready
    requires s.msgs[m].info == Revoked || s.threads[s.msgs[m].source].why != OnThrowTo(m)
    ensures Inv(Drop(s, m), x, y)
  {
    hide Holds, EndsOk;
    var s' := Drop(s, m);
    forall p | p in s'.queues ensures Holds(s'.queues[p], p, s'.place, |s'.threads|) {
      assert Holds(s.queues[p], p, s.place, |s.threads|);
      HoldsElsewhere(s.queues[p], p, s.place, |s.threads|, m, Nowhere);
    }
    forall u | 0 <= u < |s.threads| && WakePending(s, u) ensures WakePending(s', u) {
    }
  }

  /** An entry is taken off a queue: a message comes to hand, a request to wake a thread is now the
      business of the one who took it. */
  lemma TakeKeeps(s: State, p: Place, x: int)
    requires Inv(s, x, NOBODY) && p in s.queues && s.queues[p] != []
    ensures var e := s.queues[p][0]; var s' := Take(s, p);
      && Inv(s', x, if e.Wakeup? then e.thread else NOBODY)
      && (e.Throw? ==> e.msg < |s.msgs| && s.place[e.msg] == p && s'.place[e.msg] == InHand)
      && (e.Wakeup? ==> e.thread < |s.threads| && !p.InBlocked?)
  {
    hide AllHold, EndsOk, Holds, WakePending;
    TakeHolds(s, p);
    var e := s.queues[p][0];
    var s' := Take(s, p);
    forall u | 0 <= u < |s.threads| && WakePending(s, u) && e != Wakeup(u) ensures WakePending(s', u) {
      TakePending(s, p, u);
    }
  }

  /** A thread changes, perhaps its capability too; it is not blocked on a message before or after. */
  function SetThread(s: State, t: nat, th: Thread): State
    requires t < |s.threads|
  {
    s.(threads := s.threads[t := th])
  }

  lemma ThreadKeeps(s: State, t: nat, th: Thread, x: int, y: int)
    requires Inv(s, x, y) && t < |s.threads| && InInbox(th.cap) in s.queues
    requires !th.why.OnThrowTo? && !s.threads[t].why.OnThrowTo?
    ensures Inv(SetThread(s, t, th), x, y)
  {
    hide Holds;
    var s' := SetThread(s, t, th);
    forall p | p in s'.queues ensures Holds(s'.queues[p], p, s'.place, |s'.threads|) {
      assert Holds(s.queues[p], p, s.place, |s.threads|);
    }
    forall u | 0 <= u < |s.threads| && u != t && WakePending(s, u) ensures WakePending(s', u) {
    }
  }

  /** A new message, locked and in hand. */
  function Create(s: State, source: nat, target: nat): State {
    s.(msgs := s.msgs + [Message(Locked, source, target)], place := s.place + [InHand], raised := s.raised + [0])
  }

  lemma CreateKeeps(s: State, source: nat, target: nat, x: int)
    requires Inv(s, x, NOBODY) && source < |s.threads| && target < |s.threads| && source != target
    ensures Inv(Create(s, source, target), x, NOBODY)
  {
    hide WakePending;
    var s' := Create(s, source, target);
    forall p | p in s'.queues ensures Holds(s'.queues[p], p, s'.place, |s'.threads|) {
      assert Holds(s.queues[p], p, s.place, |s.threads|);
    }
    forall u | 0 <= u < |s.threads| && WakePending(s, u) ensures WakePending(s', u) {
      CreatePending(s, source, target, u);
    }
  }

  lemma CreatePending(s: State, source: nat, target: nat, t: nat)
    requires t < |s.threads| && WakePending(s, t)
    ensures WakePending(Create(s, source, target), t)
  {
  }

  /** The sender of message m, which was put on a queue, goes to sleep on it. */
  lemma SleepKeeps(s: State, m: nat, y: int)
    requires Inv(s, m, y) && m < |s.msgs| && s.msgs[m].info != Revoked && s.place[m] in s.queues
    requires s.threads[s.msgs[m].source].why == NotBlocked
    ensures Inv(SetWhy(s, s.msgs[m].source, OnThrowTo(m)), NOBODY, y)
  {
    hide Holds;
    var t := s.msgs[m].source;
    var s' := SetWhy(s, t, OnThrowTo(m));
    forall p | p in s'.queues ensures Holds(s'.queues[p], p, s'.place, |s'.threads|) {
      assert Holds(s.queues[p], p, s.place, |s.threads|);
    }
    forall u | 0 <= u < |s.threads| && WakePending(s, u) ensures WakePending(s', u) {
    }
  }

  /** A capability takes its whole inbox to work through. */
  function TakeAll(s: State, c: nat): State
    requires InInbox(c) in s.queues && InTodo(c) in s.queues
  {
    s.(queues := s.queues[InTodo(c) := s.queues[InInbox(c)]][InInbox(c) := []],
       place := Moved(s.place, c))
  }

  function Moved(place: seq<Place>, c: nat): (r: seq<Place>)
    ensures |r| == |place|
  {
    seq(|place|, i requires 0 <= i < |place| => if place[i] == InInbox(c) then InTodo(c) else place[i])
  }

  lemma TakeAllKeeps(s: State, c: nat, x: int, y: int)
    requires Inv(s, x, y) && InInbox(c) in s.queues && InTodo(c) in s.queues && s.queues[InTodo(c)] == []
    ensures Inv(TakeAll(s, c), x, y)
  {
    hide EndsOk, Holds, WakePending, AllHold, Moved;
    var s' := TakeAll(s, c);
    assert AllHold(s') by {
      TakeAllHolds(s, c);
    }
    MovedPlaces(s.place, c);
    forall u | 0 <= u < |s.threads| && WakePending(s, u) ensures WakePending(s', u) {
      TakeAllPending(s, c, u);
    }
  }

  lemma MovedPlaces(place: seq<Place>, c: nat)
    ensures forall m :: 0 <= m < |place| ==> Moved(place, c)[m] == if place[m] == InInbox(c) then InTodo(c) else place[m]
  {
  }

  lemma TakeAllHolds(s: State, c: nat)
    requires AllHold(s) && InInbox(c) in s.queues && InTodo(c) in s.queues && s.queues[InTodo(c)] == []
    ensures AllHold(TakeAll(s, c))
  {
    var s' := TakeAll(s, c);
    assert Holds(s.queues[InInbox(c)], InInbox(c), s.place, |s.threads|);
    assert Holds(s.queues[InTodo(c)], InTodo(c), s.place, |s.threads|);
    forall p | p in s'.queues ensures Holds(s'.queues[p], p, s'.place, |s'.threads|) {
      assert p in s.queues && Holds(s.queues[p], p, s.place, |s.threads|);
    }
  }

  lemma TakeAllPending(s: State, c: nat, t: nat)
    requires InInbox(c) in s.queues && InTodo(c) in s.queues && s.queues[InTodo(c)] == []
    requires t < |s.threads| && WakePending(s, t)
    ensures WakePending(TakeAll(s, c), t)
  {
  }
}
