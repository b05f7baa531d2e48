/** Stack freezing by asynchronous exceptions (`raiseAsync`).

    Stripping a stack turns every chunk above an update frame into an AP_STACK closure.
    The main result is the round trip: entering the closure an update frame was updated with
    rebuilds the words that stood above that frame, update frames included. */
module StackFreezing {
  import opened Options

  /** A stack word.  Every frame begins with its info word; `RetInfo` is any return frame that
      stack freezing treats as abstract, with its size in words. */
  datatype Word =
    | EnterInfo
    | UpdInfo
    | UnderflowInfo
    | CatchInfo
    | StopInfo
    | RetInfo(size: nat)
    | Ptr(p: nat)
    | Mask(interruptible: bool)
    | Raw(n: int)

  datatype Object =
    | ApStack(fun: Word, payload: seq<Word>, update: bool)
    | Ind(target: nat)
    | RaiseThunk(exception: nat)
    | Other(tag: nat)

  type Heap = map<nat, Object>

  const UPDATE_FRAME_SIZE := 2
  const UNDERFLOW_FRAME_SIZE := 2
  const CATCH_FRAME_SIZE := 3

  /** The closure `stg_dummy_ret_closure`, which returns to the frame below it when entered. */
  const DUMMY_RET := 0

  // ---------------------------------------------------------------------------------------
  // The shape of a stack
  // ---------------------------------------------------------------------------------------

  /** `rest` is a sequence of whole frames.  The last stack chunk ends in a stop frame, every
      other chunk in an underflow frame. */
  ghost predicate Framed(rest: seq<Word>, last: bool, limit: nat)
    decreases |rest|
  {
    && rest != []
    && match rest[0]
       case StopInfo => last && |rest| == 1
       case UnderflowInfo => !last && |rest| == UNDERFLOW_FRAME_SIZE
       case UpdInfo =>
         && |rest| >= UPDATE_FRAME_SIZE
         && rest[1].Ptr? && rest[1].p < limit
         && Framed(rest[UPDATE_FRAME_SIZE..], last, limit)
       case CatchInfo =>
         && |rest| >= CATCH_FRAME_SIZE
         && rest[1].Mask?
         && Framed(rest[CATCH_FRAME_SIZE..], last, limit)
       case RetInfo(n) => 1 <= n <= |rest| && Framed(rest[n..], last, limit)
       case _ => false
  }

  ghost predicate FramedAll(rest: seq<Word>, below: seq<seq<Word>>, limit: nat)
    decreases |below|
  {
    && Framed(rest, below == [], limit)
    && (below != [] ==> FramedAll(below[0], below[1..], limit))
  }

  /** All the words of a stack in one sequence, without the underflow frames between chunks. */
  ghost function Flat(rest: seq<Word>, below: seq<seq<Word>>): seq<Word>
    decreases |below|
  {
    if below == [] || |rest| < UNDERFLOW_FRAME_SIZE then rest
    else rest[..|rest| - UNDERFLOW_FRAME_SIZE] + Flat(below[0], below[1..])
  }

  // ---------------------------------------------------------------------------------------
  // What raiseAsync computes
  // ---------------------------------------------------------------------------------------

  /** The arguments that stay fixed during one walk.  `stop` is the number of words from
      `stop_here` to the end of the chunk, `updatee` the closure that `stop_here` updates. */
  datatype Request = Request(exception: Option<nat>, stop: Option<nat>, updatee: Option<nat>)

  /** One update frame met on the walk: its updatee, the closure left on the stack in its place,
      and how many words of the original stack (underflow frames not counted) lie above it. */
  datatype Frozen = Frozen(updatee: nat, ap: nat, depth: nat)

  datatype Verdict = Caught(handlerInterruptible: bool, raise: nat) | Killed | AtStop

  datatype Outcome = Outcome(
    verdict: Verdict, heap: Heap, hp: nat,
    rest: seq<Word>, below: seq<seq<Word>>, log: seq<Frozen>)

  /** The state of the walk: the current closure, the words between it and the next frame, the
      stack from that frame on, the heap, and what has been frozen so far. */
  datatype Walker = Walker(
    cur: Word, seg: seq<Word>, rest: seq<Word>, below: seq<seq<Word>>,
    heap: Heap, hp: nat, depth: nat, log: seq<Frozen>)

  ghost predicate Going(w: Walker, limit: nat) {
    FramedAll(w.rest, w.below, limit)
  }

  ghost predicate Stopped(q: Request, w: Walker) {
    q.stop.Some? && |w.rest| <= q.stop.value
  }

  /** An update frame of a stack: how many words of the flattened stack lie above it, and its updatee. */
  datatype UpdFrame = UpdFrame(depth: nat, updatee: nat)

  ghost function FreezeUpdate(q: Request, w: Walker): Walker
    requires |w.rest| >= UPDATE_FRAME_SIZE && w.rest[1].Ptr?
  {
    var u := w.rest[1].p;
    var h := w.heap[w.hp := ApStack(w.cur, w.seg, true)];
    var looping := q.updatee == Some(u);
    var ap := if looping then u else w.hp;
    w.(cur := Ptr(ap), seg := [], rest := w.rest[UPDATE_FRAME_SIZE..],
       heap := if looping then h else h[u := Ind(w.hp)], hp := w.hp + 1,
       depth := w.depth + |w.seg| + UPDATE_FRAME_SIZE,
       log := w.log + [Frozen(u, ap, w.depth + |w.seg|)])
  }

  ghost function FreezeUnderflow(w: Walker): Walker
    requires w.below != []
  {
    w.(cur := Ptr(w.hp), seg := [], rest := w.below[0], below := w.below[1..],
       heap := w.heap[w.hp := ApStack(w.cur, w.seg, false)], hp := w.hp + 1,
       depth := w.depth + |w.seg|)
  }

  ghost function Skip(w: Walker, n: nat): Walker
    requires n <= |w.rest|
  {
    w.(seg := w.seg + w.rest[..n], rest := w.rest[n..])
  }

  /** The walk ends at `stop_here`, at the bottom of the stack, or at a catch frame when there is
      an exception to raise. */
  ghost predicate EndsAt(q: Request, rest: seq<Word>)
    requires rest != []
  {
    (q.stop.Some? && |rest| <= q.stop.value) || rest[0] == StopInfo || (rest[0] == CatchInfo && q.exception.Some?)
  }

  ghost predicate Ends(q: Request, w: Walker)
    requires w.rest != []
  {
    EndsAt(q, w.rest)
  }

  /** One turn of the loop that does not end the walk. */
  ghost function Next(q: Request, w: Walker, limit: nat): (w': Walker)
    requires Going(w, limit) && !Ends(q, w)
    ensures Going(w', limit)
    ensures |w'.below| < |w.below| || (|w'.below| == |w.below| && |w'.rest| < |w.rest|)
  {
    match w.rest[0]
    case UpdInfo => FreezeUpdate(q, w)
    case UnderflowInfo => FreezeUnderflow(w)
    case CatchInfo => Skip(w, CATCH_FRAME_SIZE)
    case RetInfo(n) => Skip(w, n)
  }

  ghost function End(q: Request, w: Walker, limit: nat): Outcome
    requires Going(w, limit) && Ends(q, w)
  {
    if Stopped(q, w) then Outcome(AtStop, w.heap, w.hp, w.rest, w.below, w.log)
    else if w.rest[0] == StopInfo then Outcome(Killed, w.heap, w.hp, w.rest, w.below, w.log)
    else Outcome(Caught(w.rest[1].interruptible, w.hp),
                 w.heap[w.hp := RaiseThunk(q.exception.value)], w.hp + 1, w.rest, w.below, w.log)
  }

  ghost function Freeze(q: Request, w: Walker, limit: nat): Outcome
    requires Going(w, limit)
    decreases |w.below|, |w.rest|
  {
    if Ends(q, w) then End(q, w, limit) else Freeze(q, Next(q, w, limit), limit)
  }

  /** The update frames of a stack, nearest first, down to where the walk ends. */
  ghost function UpdFrames(q: Request, rest: seq<Word>, below: seq<seq<Word>>, limit: nat, depth: nat): seq<UpdFrame>
    requires FramedAll(rest, below, limit)
    decreases |below|, |rest|
  {
    if EndsAt(q, rest) then []
    else
      match rest[0]
      case UpdInfo =>
        [UpdFrame(depth, rest[1].p)] + UpdFrames(q, rest[UPDATE_FRAME_SIZE..], below, limit, depth + UPDATE_FRAME_SIZE)
      case UnderflowInfo => UpdFrames(q, below[0], below[1..], limit, depth)
      case CatchInfo => UpdFrames(q, rest[CATCH_FRAME_SIZE..], below, limit, depth + CATCH_FRAME_SIZE)
      case RetInfo(n) => UpdFrames(q, rest[n..], below, limit, depth + n)
  }

  ghost function FramesOf(log: seq<Frozen>): (fs: seq<UpdFrame>)
    ensures |fs| == |log| && forall k | 0 <= k < |log| :: fs[k] == UpdFrame(log[k].depth, log[k].updatee)
  {
    seq(|log|, k requires 0 <= k < |log| => UpdFrame(log[k].depth, log[k].updatee))
  }

  /** One turn of the loop freezes the update frame at hand, if it is one. */
  lemma NextFrames(q: Request, w: Walker, limit: nat)
    requires Going(w, limit) && !Ends(q, w)
    ensures var w' := Next(q, w, limit);
      FramesOf(w'.log) + UpdFrames(q, w'.rest, w'.below, limit, w'.depth + |w'.seg|) ==
      FramesOf(w.log) + UpdFrames(q, w.rest, w.below, limit, w.depth + |w.seg|)
  {
    var w' := Next(q, w, limit);
    if w.rest[0] == UpdInfo {
      var f := UpdFrame(w.depth + |w.seg|, w.rest[1].p);
      assert FramesOf(w'.log) == FramesOf(w.log) + [f];
    }
  }

  lemma EndFrames(q: Request, w: Walker, limit: nat)
    requires Going(w, limit) && Ends(q, w)
    ensures End(q, w, limit).log == w.log && UpdFrames(q, w.rest, w.below, limit, w.depth + |w.seg|) == []
  {
  }

  lemma FramesLeft(w: Walker, limit: nat)
    requires Going(w, limit)
    ensures w.rest != []
  {
  }

  /** Every update frame above the frame at which the walk ends is frozen, and nothing else is. */
  lemma {:induction false} AllFramesFrozen(q: Request, w: Walker, limit: nat)
    requires Going(w, limit)
    ensures FramesOf(Freeze(q, w, limit).log) ==
            FramesOf(w.log) + UpdFrames(q, w.rest, w.below, limit, w.depth + |w.seg|)
    decreases |w.below|, |w.rest|
  {
    hide Framed, FramedAll, Next, End, EndsAt, UpdFrames, FramesOf;
    FramesLeft(w, limit);
    if Ends(q, w) {
      EndFrames(q, w, limit);
    } else {
      NextFrames(q, w, limit);
      AllFramesFrozen(q, Next(q, w, limit), limit);
    }
  }

  // ---------------------------------------------------------------------------------------
  // Entering a frozen stack
  // ---------------------------------------------------------------------------------------

  /** Enter closure `w` on top of stack `s` and follow the entry code of AP_STACK closures:
      push an update frame (unless it is the NOUPD form), push the payload, enter the function.
      The walk goes on through closures allocated at `base` or later and stops at the first
      older closure; the result is that closure and the stack it finds. */
  ghost function Thaw(h: Heap, base: nat, w: Word, s: seq<Word>): (Word, seq<Word>)
    decreases if w.Ptr? then w.p + 1 else 0
  {
    if w.Ptr? && base <= w.p && w.p in h && h[w.p].ApStack? && Older(h[w.p].fun, w.p) then
      var o := h[w.p];
      Thaw(h, base, o.fun, o.payload + (if o.update then [UpdInfo, w] else []) + s)
    else
      (w, s)
  }

  ghost predicate Older(w: Word, p: nat) {
    w.Ptr? ==> w.p < p
  }

  /** Entering `w` on any stack gets to `fun` with `words` pushed. */
  ghost predicate Rebuilds(h: Heap, base: nat, w: Word, fun: Word, words: seq<Word>) {
    forall s: seq<Word> :: Thaw(h, base, w, s) == (fun, words + s)
  }

  /** `words` with every frozen update frame pointing at its AP_STACK instead of its updatee. */
  ghost function Relabel(words: seq<Word>, log: seq<Frozen>): (r: seq<Word>)
    ensures |r| == |words|
  {
    if log == [] then words
    else
      var e := log[|log| - 1];
      var r := Relabel(words, log[..|log| - 1]);
      if e.depth + 1 < |words| then r[e.depth + 1 := Ptr(e.ap)] else r
  }

  lemma {:induction false} RelabelAppend(words: seq<Word>, more: seq<Word>, log: seq<Frozen>)
    requires forall i | 0 <= i < |log| :: log[i].depth + 1 < |words|
    ensures Relabel(words + more, log) == Relabel(words, log) + more
  {
    if log != [] {
      RelabelAppend(words, more, log[..|log| - 1]);
    }
  }

  /** The closures allocated so far by the walk form a chain that only points downwards. */
  ghost predicate Chained(h: Heap, base: nat, hp: nat) {
    forall p | base <= p < hp :: p in h && h[p].ApStack? && Older(h[p].fun, p)
  }

  lemma {:induction false} ThawFrame(h: Heap, h': Heap, base: nat, hp: nat, w: Word, s: seq<Word>)
    requires Chained(h, base, hp) && Older(w, hp)
    requires forall p | base <= p < hp :: p in h' && h'[p] == h[p]
    ensures Thaw(h', base, w, s) == Thaw(h, base, w, s)
    decreases if w.Ptr? then w.p + 1 else 0
  {
    if w.Ptr? && base <= w.p {
      var o := h[w.p];
      ThawFrame(h, h', base, hp, o.fun, o.payload + (if o.update then [UpdInfo, w] else []) + s);
    }
  }

  lemma RebuildsFrame(h: Heap, h': Heap, base: nat, hp: nat, w: Word, fun: Word, words: seq<Word>)
    requires Chained(h, base, hp) && Older(w, hp)
    requires forall p | base <= p < hp :: p in h' && h'[p] == h[p]
    requires Rebuilds(h, base, w, fun, words)
    ensures Rebuilds(h', base, w, fun, words)
  {
    forall s: seq<Word> ensures Thaw(h', base, w, s) == (fun, words + s) {
      ThawFrame(h, h', base, hp, w, s);
    }
  }

  /** One more AP_STACK on a chain that already rebuilds `words`. */
  lemma RebuildsMore(h: Heap, base: nat, hp: nat, fun: Word, words: seq<Word>)
    requires base <= hp && hp in h && h[hp].ApStack? && Older(h[hp].fun, hp)
    requires Rebuilds(h, base, h[hp].fun, fun, words)
    ensures Rebuilds(h, base, Ptr(hp), fun,
                     words + h[hp].payload + (if h[hp].update then [UpdInfo, Ptr(hp)] else []))
  {
    var o := h[hp];
    var top := if o.update then [UpdInfo, Ptr(hp)] else [];
    forall s: seq<Word> ensures Thaw(h, base, Ptr(hp), s) == (fun, words + o.payload + top + s) {
      var s' := o.payload + top + s;
      assert Thaw(h, base, o.fun, s') == (fun, words + s');
      assert words + s' == words + o.payload + top + s;
    }
  }

  // ---------------------------------------------------------------------------------------
  // The round trip
  // ---------------------------------------------------------------------------------------

  ghost predicate Kept(e: Frozen) {
    e.ap == e.updatee
  }

  ghost predicate NoneKept(log: seq<Frozen>) {
    forall i | 0 <= i < |log| :: !Kept(log[i])
  }

  /** Each frame with updatee u performed its update. */
  ghost predicate AlwaysUpdated(log: seq<Frozen>, u: nat) {
    forall i | 0 <= i < |log| && log[i].updatee == u :: !Kept(log[i])
  }

  /** Where in the stack the words begin that the closure on top rebuilds: at the top, or below the
      last frame that kept its updatee. */
  ghost function RebuiltFrom(log: seq<Frozen>): nat {
    if log == [] then 0
    else
      var e := log[|log| - 1];
      if Kept(e) then e.depth + UPDATE_FRAME_SIZE else RebuiltFrom(log[..|log| - 1])
  }

  /** The closure that is entered when they are: the interrupted one, or the updatee kept. */
  ghost function Entered(log: seq<Frozen>, fun: Word): Word {
    if log == [] then fun
    else
      var e := log[|log| - 1];
      if Kept(e) then Ptr(e.updatee) else Entered(log[..|log| - 1], fun)
  }

  /** Those words down to `end`, with the frozen frames relabelled. */
  ghost function Rebuilt(flat: seq<Word>, log: seq<Frozen>, end: nat): seq<Word>
    requires RebuiltFrom(log) <= end <= |flat|
  {
    Relabel(flat[..end], log)[RebuiltFrom(log)..]
  }

  /** Entry `k` of the log stands for an update frame of `flat`, and its AP_STACK rebuilds the
      words of `flat` down to and including that frame, from the top or from the last frame that
      kept its updatee. */
  ghost predicate EntryOk(h: Heap, base: nat, fun: Word, flat: seq<Word>, log: seq<Frozen>, k: nat)
    requires k < |log|
  {
    var e, head := log[k], log[..k + 1];
    && RebuiltFrom(head) <= e.depth + UPDATE_FRAME_SIZE <= |flat|
    && flat[e.depth] == UpdInfo && flat[e.depth + 1] == Ptr(e.updatee) && e.updatee < base
    && Rebuilds(h, base, Ptr(e.ap), Entered(head, fun), Rebuilt(flat, head, e.depth + UPDATE_FRAME_SIZE))
  }

  /** The updatee of entry `k` was made an indirection to its AP_STACK unless a later frame with
      the same updatee overwrote it. */
  ghost predicate UpdateeOk(h: Heap, log: seq<Frozen>, k: nat)
    requires k < |log|
  {
    var e := log[k];
    !Kept(e) && (forall j | k < j < |log| :: log[j].updatee != e.updatee) ==>
      e.updatee in h && h[e.updatee] == Ind(e.ap)
  }

  /** Every entry of the log is in order. */
  ghost predicate LogOk(h: Heap, base: nat, hp: nat, fun: Word, flat: seq<Word>, log: seq<Frozen>) {
    && Spaced(log)
    && (forall k | 0 <= k < |log| :: Kept(log[k]) || base <= log[k].ap < hp)
    && (forall k | 0 <= k < |log| :: EntryOk(h, base, fun, flat, log, k))
    && (forall k | 0 <= k < |log| :: UpdateeOk(h, log, k))
  }

  /** The logged frames do not overlap. */
  ghost predicate Spaced(log: seq<Frozen>) {
    forall i, j | 0 <= i < j < |log| :: log[i].depth + 1 < log[j].depth
  }

  /** What the walk maintains about everything it has stripped so far. */
  ghost predicate Inv(w: Walker, base: nat, fun: Word, flat: seq<Word>) {
    && base <= w.hp
    && Chained(w.heap, base, w.hp)
    && Older(fun, base) && Older(w.cur, w.hp)
    && w.depth <= |flat|
    && flat[w.depth..] == w.seg + Flat(w.rest, w.below)
    && (forall k | 0 <= k < |w.log| :: w.log[k].depth + 1 < w.depth)
    && LogOk(w.heap, base, w.hp, fun, flat, w.log)
    && RebuiltFrom(w.log) <= w.depth
    && Rebuilds(w.heap, base, w.cur, Entered(w.log, fun), Rebuilt(flat, w.log, w.depth))
  }

  /** An entry of the log survives a longer log and changes to the heap outside the chain. */
  lemma EntryStays(h: Heap, h': Heap, base: nat, hp: nat, fun: Word, flat: seq<Word>,
                   log: seq<Frozen>, log': seq<Frozen>, k: nat)
    requires k < |log| <= |log'| && log'[..|log|] == log && base <= hp
    requires Kept(log[k]) || base <= log[k].ap < hp
    requires Chained(h, base, hp) && forall p | base <= p < hp :: p in h' && h'[p] == h[p]
    requires EntryOk(h, base, fun, flat, log, k)
    ensures EntryOk(h', base, fun, flat, log', k)
  {
    var e := log[k];
    assert log'[..k + 1] == log[..k + 1];
    assert log'[k] == log[k];
    var head := log[..k + 1];
    RebuildsFrame(h, h', base, hp, Ptr(e.ap), Entered(head, fun), Rebuilt(flat, head, e.depth + UPDATE_FRAME_SIZE));
  }

  /** The log survives the allocation of the object at `hp`. */
  lemma LogStays(h: Heap, base: nat, hp: nat, o: Object, fun: Word, flat: seq<Word>, log: seq<Frozen>)
    requires base <= hp && Chained(h, base, hp) && LogOk(h, base, hp, fun, flat, log)
    ensures LogOk(h[hp := o], base, hp + 1, fun, flat, log)
  {
    var h' := h[hp := o];
    forall k | 0 <= k < |log|
      ensures EntryOk(h', base, fun, flat, log, k) && UpdateeOk(h', log, k)
    {
      assert EntryOk(h, base, fun, flat, log, k) && UpdateeOk(h, log, k);
      assert log[..|log|] == log;
      EntryStays(h, h', base, hp, fun, flat, log, log, k);
    }
  }

  /** The log survives the update that adds entry `e` to it. */
  lemma LogGrows(h: Heap, base: nat, hp: nat, fun: Word, flat: seq<Word>, log: seq<Frozen>, e: Frozen)
    requires base <= hp && Chained(h, base, hp) && LogOk(h, base, hp, fun, flat, log)
    requires e.updatee < base && (Kept(e) || base <= e.ap < hp)
    requires forall i | 0 <= i < |log| :: log[i].depth + 1 < e.depth
    requires var h' := if Kept(e) then h else h[e.updatee := Ind(e.ap)];
             EntryOk(h', base, fun, flat, log + [e], |log|)
    ensures var h' := if Kept(e) then h else h[e.updatee := Ind(e.ap)];
            LogOk(h', base, hp, fun, flat, log + [e])
  {
    hide EntryOk;
    var h' := if Kept(e) then h else h[e.updatee := Ind(e.ap)];
    var log' := log + [e];
    forall k | 0 <= k < |log|
      ensures EntryOk(h', base, fun, flat, log', k) && UpdateeOk(h', log', k)
    {
      assert log'[k] == log[k];
      assert EntryOk(h, base, fun, flat, log, k) && UpdateeOk(h, log, k);
      EntryStays(h, h', base, hp, fun, flat, log, log', k);
      if !Kept(log[k]) && (forall j | k < j < |log'| :: log'[j].updatee != log[k].updatee) {
        assert log'[|log|] == e;
        assert forall j | k < j < |log| :: log'[j] == log[j];
      }
    }
    assert log'[|log|] == e;
  }

  lemma FlatSkip(rest: seq<Word>, below: seq<seq<Word>>, n: nat)
    requires n <= |rest|
    requires below != [] ==> n + UNDERFLOW_FRAME_SIZE <= |rest|
    ensures Flat(rest, below) == rest[..n] + Flat(rest[n..], below)
  {
    if below != [] {
      var m := |rest| - UNDERFLOW_FRAME_SIZE;
      assert rest[..m] == rest[..n] + rest[n..][..m - n];
    }
  }

  lemma SkipKeeps(w: Walker, n: nat, base: nat, fun: Word, flat: seq<Word>)
    requires Inv(w, base, fun, flat)
    requires n <= |w.rest|
    requires w.below != [] ==> n + UNDERFLOW_FRAME_SIZE <= |w.rest|
    ensures Inv(Skip(w, n), base, fun, flat)
  {
    FlatSkip(w.rest, w.below, n);
    var w' := Skip(w, n);
    assert w'.seg + Flat(w'.rest, w'.below) == w.seg + Flat(w.rest, w.below);
  }

  /** Allocating the AP_STACK of the current segment. */
  lemma SegmentFrozen(w: Walker, update: bool, base: nat, fun: Word, flat: seq<Word>)
    requires Inv(w, base, fun, flat)
    ensures var h := w.heap[w.hp := ApStack(w.cur, w.seg, update)];
            && Chained(h, base, w.hp + 1)
            && LogOk(h, base, w.hp + 1, fun, flat, w.log)
            && Rebuilds(h, base, Ptr(w.hp), Entered(w.log, fun),
                        Rebuilt(flat, w.log, w.depth) + w.seg + (if update then [UpdInfo, Ptr(w.hp)] else []))
  {
    var o := ApStack(w.cur, w.seg, update);
    LogStays(w.heap, base, w.hp, o, fun, flat, w.log);
    var words, f := Rebuilt(flat, w.log, w.depth), Entered(w.log, fun);
    RebuildsFrame(w.heap, w.heap[w.hp := o], base, w.hp, w.cur, f, words);
    RebuildsMore(w.heap[w.hp := o], base, w.hp, f, words);
  }

  /** Words below the last frozen frame are rebuilt as they are. */
  lemma RebuiltGrows(flat: seq<Word>, log: seq<Frozen>, end: nat, more: seq<Word>)
    requires RebuiltFrom(log) <= end && end + |more| <= |flat| && flat[..end + |more|] == flat[..end] + more
    requires forall i | 0 <= i < |log| :: log[i].depth + 1 < end
    ensures Rebuilt(flat, log, end + |more|) == Rebuilt(flat, log, end) + more
  {
    RelabelAppend(flat[..end], more, log);
    hide Relabel, RebuiltFrom;
    DropFront(Relabel(flat[..end], log), more, RebuiltFrom(log));
  }

  lemma DropFront<T>(a: seq<T>, b: seq<T>, n: nat)
    requires n <= |a|
    ensures (a + b)[n..] == a[n..] + b
  {
  }

  lemma UnderflowKeeps(w: Walker, base: nat, fun: Word, flat: seq<Word>)
    requires Inv(w, base, fun, flat)
    requires w.below != [] && |w.rest| == UNDERFLOW_FRAME_SIZE
    ensures Inv(FreezeUnderflow(w), base, fun, flat)
  {
    hide Relabel, Thaw;
    var w' := FreezeUnderflow(w);
    SegmentFrozen(w, false, base, fun, flat);
    var tail := Flat(w'.rest, w'.below);
    assert w.rest[..0] + tail == tail;
    CutAt(flat, w.depth, w.seg, [], tail);
    assert w.seg + [] == w.seg && [] + tail == tail;
    RebuiltGrows(flat, w.log, w.depth, w.seg);
    var words := Rebuilt(flat, w.log, w.depth);
    assert words + w.seg + [] == words + w.seg;
  }

  /** The words from the last frozen frame to the end of the update frame at hand. */
  lemma UpdateFrameAt(q: Request, w: Walker, flat: seq<Word>)
    requires w.depth <= |flat| && flat[w.depth..] == w.seg + Flat(w.rest, w.below)
    requires |w.rest| >= UPDATE_FRAME_SIZE && w.rest[0] == UpdInfo && w.rest[1].Ptr?
    requires w.below != [] ==> 2 * UPDATE_FRAME_SIZE <= |w.rest|
    ensures var w' := FreezeUpdate(q, w);
      && w'.depth <= |flat|
      && flat[w'.depth..] == w'.seg + Flat(w'.rest, w'.below)
      && flat[..w'.depth] == flat[..w.depth] + (w.seg + [UpdInfo, w.rest[1]])
  {
    FlatSkip(w.rest, w.below, UPDATE_FRAME_SIZE);
    assert w.rest[..UPDATE_FRAME_SIZE] == [UpdInfo, w.rest[1]];
    CutAt(flat, w.depth, w.seg, [UpdInfo, w.rest[1]], Flat(w.rest[UPDATE_FRAME_SIZE..], w.below));
  }

  lemma CutAt<T>(s: seq<T>, d: nat, a: seq<T>, b: seq<T>, tail: seq<T>)
    requires d <= |s| && s[d..] == a + (b + tail)
    ensures d + |a| + |b| <= |s|
    ensures s[d + |a| + |b|..] == tail && s[..d + |a| + |b|] == s[..d] + (a + b)
  {
    var n := |a| + |b|;
    assert s[d..] == (a + b) + tail;
    assert s[d..][n..] == s[d + n..] && s[d..][..n] == s[d..d + n];
    assert s[..d + n] == s[..d] + s[d..d + n];
  }

  lemma RelabelFrame(pre: seq<Word>, seg: seq<Word>, log: seq<Frozen>, e: Frozen)
    requires e.depth == |pre| + |seg| && forall i | 0 <= i < |log| :: log[i].depth + 1 < |pre|
    ensures Relabel(pre + (seg + [UpdInfo, Ptr(e.updatee)]), log + [e]) == Relabel(pre, log) + seg + [UpdInfo, Ptr(e.ap)]
  {
    var frame := seg + [UpdInfo, Ptr(e.updatee)];
    RelabelAppend(pre, frame, log);
    assert (log + [e])[..|log|] == log;
    assert (Relabel(pre, log) + frame)[e.depth + 1 := Ptr(e.ap)] == Relabel(pre, log) + seg + [UpdInfo, Ptr(e.ap)];
  }

  /** After an update frame, whether it was updated or not, the new current closure rebuilds what it
      has to. */
  lemma UpdateRebuilds(q: Request, w: Walker, base: nat, fun: Word, flat: seq<Word>)
    requires Inv(w, base, fun, flat)
    requires |w.rest| >= UPDATE_FRAME_SIZE && w.rest[1].Ptr? && w.rest[1].p < base
    requires var w' := FreezeUpdate(q, w);
      w'.depth <= |flat| && flat[..w'.depth] == flat[..w.depth] + (w.seg + [UpdInfo, w.rest[1]])
    ensures var w' := FreezeUpdate(q, w);
      && RebuiltFrom(w'.log) <= w'.depth
      && Rebuilds(w'.heap, base, w'.cur, Entered(w'.log, fun), Rebuilt(flat, w'.log, w'.depth))
  {
    hide Relabel, Thaw, LogOk, Flat;
    if q.updatee == Some(w.rest[1].p) {
      KeptRebuilds(q, w, base, fun, flat);
    } else {
      PerformedRebuilds(q, w, base, fun, flat);
    }
  }

  /** A closure that was kept stands for itself. */
  lemma KeptRebuilds(q: Request, w: Walker, base: nat, fun: Word, flat: seq<Word>)
    requires |w.rest| >= UPDATE_FRAME_SIZE && w.rest[1].Ptr? && w.rest[1].p < base && q.updatee == Some(w.rest[1].p)
    requires FreezeUpdate(q, w).depth <= |flat|
    ensures var w' := FreezeUpdate(q, w);
      && RebuiltFrom(w'.log) == w'.depth
      && Rebuilds(w'.heap, base, w'.cur, Entered(w'.log, fun), Rebuilt(flat, w'.log, w'.depth))
  {
    hide Relabel;
    var w' := FreezeUpdate(q, w);
    assert w'.log[|w.log|] == Frozen(w.rest[1].p, w.rest[1].p, w.depth + |w.seg|);
    assert Rebuilt(flat, w'.log, w'.depth) == [];
    forall s: seq<Word> ensures Thaw(w'.heap, base, w'.cur, s) == (w'.cur, [] + s) {
      assert [] + s == s;
    }
  }

  lemma PerformedRebuilds(q: Request, w: Walker, base: nat, fun: Word, flat: seq<Word>)
    requires Inv(w, base, fun, flat)
    requires |w.rest| >= UPDATE_FRAME_SIZE && w.rest[1].Ptr? && w.rest[1].p < base && q.updatee != Some(w.rest[1].p)
    requires var w' := FreezeUpdate(q, w);
      w'.depth <= |flat| && flat[..w'.depth] == flat[..w.depth] + (w.seg + [UpdInfo, w.rest[1]])
    ensures var w' := FreezeUpdate(q, w);
      && RebuiltFrom(w'.log) <= w'.depth
      && Rebuilds(w'.heap, base, w'.cur, Entered(w'.log, fun), Rebuilt(flat, w'.log, w'.depth))
  {
    hide Relabel, Thaw, LogOk, Flat, Rebuilds;
    var w' := FreezeUpdate(q, w);
    var e := w'.log[|w.log|];
    assert w'.log[..|w.log|] == w.log && !Kept(e);
    var h := w.heap[w.hp := ApStack(w.cur, w.seg, true)];
    SegmentFrozen(w, true, base, fun, flat);
    RebuiltUpdate(flat, w.log, w.depth, w.seg, e, fun);
    assert Chained(h, base, w'.hp);
    RebuildsFrame(h, w'.heap, base, w'.hp, w'.cur, Entered(w.log, fun), Rebuilt(flat, w'.log, w'.depth));
  }

  /** The words of one more frozen segment with its update frame. */
  lemma RebuiltUpdate(flat: seq<Word>, log: seq<Frozen>, depth: nat, seg: seq<Word>, e: Frozen, fun: Word)
    requires RebuiltFrom(log) <= depth && e.depth == depth + |seg| && e.depth + UPDATE_FRAME_SIZE <= |flat| && !Kept(e)
    requires flat[..e.depth + UPDATE_FRAME_SIZE] == flat[..depth] + (seg + [UpdInfo, Ptr(e.updatee)])
    requires forall i | 0 <= i < |log| :: log[i].depth + 1 < depth
    ensures RebuiltFrom(log + [e]) == RebuiltFrom(log) && Entered(log + [e], fun) == Entered(log, fun)
    ensures Rebuilt(flat, log + [e], e.depth + UPDATE_FRAME_SIZE) == Rebuilt(flat, log, depth) + seg + [UpdInfo, Ptr(e.ap)]
  {
    assert (log + [e])[..|log|] == log;
    RelabelFrame(flat[..depth], seg, log, e);
    hide Relabel;
    var pre := Relabel(flat[..depth], log);
    assert pre + seg + [UpdInfo, Ptr(e.ap)] == pre + (seg + [UpdInfo, Ptr(e.ap)]);
    DropFront(pre, seg + [UpdInfo, Ptr(e.ap)], RebuiltFrom(log));
  }

  /** The entry for the update frame at hand. */
  lemma NewEntry(q: Request, w: Walker, base: nat, fun: Word, flat: seq<Word>)
    requires Inv(w, base, fun, flat)
    requires |w.rest| >= UPDATE_FRAME_SIZE && w.rest[0] == UpdInfo && w.rest[1].Ptr? && w.rest[1].p < base
    requires w.below != [] ==> 2 * UPDATE_FRAME_SIZE <= |w.rest|
    ensures var w' := FreezeUpdate(q, w);
      && EntryOk(w'.heap, base, fun, flat, w'.log, |w.log|)
      && w'.depth <= |flat| && flat[w'.depth..] == w'.seg + Flat(w'.rest, w'.below)
      && RebuiltFrom(w'.log) <= w'.depth
      && Rebuilds(w'.heap, base, w'.cur, Entered(w'.log, fun), Rebuilt(flat, w'.log, w'.depth))
  {
    hide Relabel, Thaw, Flat, LogOk, Rebuilds, Rebuilt, RebuiltFrom, Entered, Chained;
    var w' := FreezeUpdate(q, w);
    var e := w'.log[|w.log|];
    UpdateFrameAt(q, w, flat);
    UpdateRebuilds(q, w, base, fun, flat);
    assert flat[..w'.depth][e.depth] == UpdInfo && flat[..w'.depth][e.depth + 1] == Ptr(e.updatee);
    assert w'.log[..|w.log| + 1] == w'.log;
  }

  lemma UpdateKeeps(q: Request, w: Walker, base: nat, fun: Word, flat: seq<Word>)
    requires Inv(w, base, fun, flat)
    requires |w.rest| >= UPDATE_FRAME_SIZE && w.rest[0] == UpdInfo && w.rest[1].Ptr? && w.rest[1].p < base
    requires w.below != [] ==> 2 * UPDATE_FRAME_SIZE <= |w.rest|
    ensures Inv(FreezeUpdate(q, w), base, fun, flat)
  {
    hide Relabel, Thaw, Flat, EntryOk, LogOk, Rebuilds, Rebuilt, RebuiltFrom, Entered;
    var w' := FreezeUpdate(q, w);
    var h := w.heap[w.hp := ApStack(w.cur, w.seg, true)];
    SegmentFrozen(w, true, base, fun, flat);
    NewEntry(q, w, base, fun, flat);
    LogGrows(h, base, w'.hp, fun, flat, w.log, w'.log[|w.log|]);
  }

  lemma FreezeUnfold(q: Request, w: Walker, limit: nat)
    requires Going(w, limit)
    ensures Freeze(q, w, limit) == if Ends(q, w) then End(q, w, limit) else Freeze(q, Next(q, w, limit), limit)
  {}

  lemma FramedRoom(rest: seq<Word>, last: bool, limit: nat)
    requires Framed(rest, last, limit) && !last
    ensures |rest| >= UNDERFLOW_FRAME_SIZE
  {}

  lemma NextKeeps(q: Request, w: Walker, base: nat, fun: Word, flat: seq<Word>)
    requires Going(w, base) && !Ends(q, w) && Inv(w, base, fun, flat)
    ensures Inv(Next(q, w, base), base, fun, flat)
  {
    match w.rest[0]
    case UpdInfo =>
      if w.below != [] { FramedRoom(w.rest[UPDATE_FRAME_SIZE..], false, base); }
      UpdateKeeps(q, w, base, fun, flat);
    case UnderflowInfo => UnderflowKeeps(w, base, fun, flat);
    case CatchInfo =>
      if w.below != [] { FramedRoom(w.rest[CATCH_FRAME_SIZE..], false, base); }
      SkipKeeps(w, CATCH_FRAME_SIZE, base, fun, flat);
    case RetInfo(n) =>
      if w.below != [] { FramedRoom(w.rest[n..], false, base); }
      SkipKeeps(w, n, base, fun, flat);
  }

  lemma {:induction false} FreezeSound(q: Request, w: Walker, base: nat, fun: Word, flat: seq<Word>)
    requires Going(w, base) && Inv(w, base, fun, flat)
    ensures var o := Freeze(q, w, base);
      && LogOk(o.heap, base, o.hp, fun, flat, o.log)
      && FramesOf(o.log) == FramesOf(w.log) + UpdFrames(q, w.rest, w.below, base, w.depth + |w.seg|)
    decreases |w.below|, |w.rest|
  {
    AllFramesFrozen(q, w, base);
    hide FramesOf, UpdFrames;
    if !Ends(q, w) {
      NextKeeps(q, w, base, fun, flat);
      FreezeSound(q, Next(q, w, base), base, fun, flat);
    } else if !Stopped(q, w) && w.rest[0] == CatchInfo {
      LogStays(w.heap, base, w.hp, RaiseThunk(q.exception.value), fun, flat, w.log);
    }
  }

  /** The walk as it starts: nothing frozen, `cur` on top of whole frames. */
  ghost function Start(cur: Word, rest: seq<Word>, below: seq<seq<Word>>, heap: Heap, hp: nat): Walker {
    Walker(cur, [], rest, below, heap, hp, 0, [])
  }

  lemma FreezeRebuilds(q: Request, cur: Word, rest: seq<Word>, below: seq<seq<Word>>, heap: Heap, hp: nat)
    requires FramedAll(rest, below, hp) && Older(cur, hp)
    ensures var o := Freeze(q, Start(cur, rest, below, heap, hp), hp);
            && LogOk(o.heap, hp, o.hp, cur, Flat(rest, below), o.log)
            && FramesOf(o.log) == UpdFrames(q, rest, below, hp, 0)
  {
    hide Framed, FramedAll, Freeze, LogOk, Inv, UpdFrames;
    StartInv(cur, rest, below, heap, hp);
    FreezeSound(q, Start(cur, rest, below, heap, hp), hp, cur, Flat(rest, below));
    assert FramesOf([]) == [] && [] + UpdFrames(q, rest, below, hp, 0) == UpdFrames(q, rest, below, hp, 0);
  }

  lemma StartInv(cur: Word, rest: seq<Word>, below: seq<seq<Word>>, heap: Heap, hp: nat)
    requires Older(cur, hp)
    ensures Inv(Start(cur, rest, below, heap, hp), hp, cur, Flat(rest, below))
  {
    var flat := Flat(rest, below);
    assert flat[0..] == flat == [] + flat;
    forall s: seq<Word> ensures Thaw(heap, hp, cur, s) == (cur, [] + s) {
      assert [] + s == s;
    }
    assert Rebuilt(flat, [], 0) == [];
  }

  // ---------------------------------------------------------------------------------------
  // Round trip, modulo indirections
  // ---------------------------------------------------------------------------------------

  /** Two words denote the same thing once indirections are followed. */
  ghost predicate SameWord(h: Heap, a: Word, b: Word) {
    a == b || (a.Ptr? && b.Ptr? && a.p in h && h[a.p] == Ind(b.p))
  }

  ghost predicate SameStack(h: Heap, a: seq<Word>, b: seq<Word>) {
    |a| == |b| && forall i | 0 <= i < |a| :: SameWord(h, a[i], b[i])
  }

  lemma {:induction false} RelabelAt(words: seq<Word>, log: seq<Frozen>, i: nat)
    requires i < |words|
    requires Spaced(log)
    ensures (forall k | 0 <= k < |log| :: log[k].depth + 1 != i) ==> Relabel(words, log)[i] == words[i]
    ensures forall k | 0 <= k < |log| && log[k].depth + 1 == i :: Relabel(words, log)[i] == Ptr(log[k].ap)
  {
    if log != [] {
      var init := log[..|log| - 1];
      RelabelAt(words, init, i);
      assert forall k | 0 <= k < |init| :: init[k] == log[k];
    }
  }

  /** No update frame down to frame `k` shares its updatee with a frame further down. */
  ghost predicate UpdateesApart(fs: seq<UpdFrame>, k: nat) {
    forall i, j | 0 <= i <= k && i < j < |fs| :: fs[i].updatee != fs[j].updatee
  }

  lemma {:induction false} RebuiltFromTop(log: seq<Frozen>, fun: Word)
    requires NoneKept(log)
    ensures RebuiltFrom(log) == 0 && Entered(log, fun) == fun
  {
    if log != [] {
      assert forall i | 0 <= i < |log| - 1 :: log[..|log| - 1][i] == log[i];
      RebuiltFromTop(log[..|log| - 1], fun);
    }
  }

  lemma {:induction false} LastWins(h: Heap, log: seq<Frozen>, i: nat, j: nat)
    requires i < j < |log| && log[i].updatee == log[j].updatee
    requires AlwaysUpdated(log, log[i].updatee) && forall k | 0 <= k < |log| :: UpdateeOk(h, log, k)
    ensures exists m :: j <= m < |log| && !Kept(log[m]) && log[i].updatee in h && h[log[i].updatee] == Ind(log[m].ap)
    decreases |log| - j
  {
    if m :| j < m < |log| && log[m].updatee == log[j].updatee {
      LastWins(h, log, i, m);
    } else {
      assert UpdateeOk(h, log, j);
    }
  }

  /** The closures made for the frames that performed their updates are in the order of the frames. */
  ghost predicate ApsIncrease(log: seq<Frozen>, hp: nat) {
    && (forall i | 0 <= i < |log| && !Kept(log[i]) :: log[i].ap < hp)
    && (forall i, j | 0 <= i < j < |log| && !Kept(log[i]) && !Kept(log[j]) :: log[i].ap < log[j].ap)
  }

  lemma {:induction false} ApsGrow(q: Request, w: Walker, limit: nat)
    requires Going(w, limit) && limit <= w.hp
    requires ApsIncrease(w.log, w.hp)
    ensures ApsIncrease(Freeze(q, w, limit).log, Freeze(q, w, limit).hp)
    decreases |w.below|, |w.rest|
  {
    if !Ends(q, w) { ApsGrow(q, Next(q, w, limit), limit); }
  }

  /** The frames that keep their updatee are those that share it with the frame to stop at. */
  ghost predicate KeptAreStops(q: Request, log: seq<Frozen>) {
    forall i | 0 <= i < |log| :: Kept(log[i]) <==> q.updatee == Some(log[i].updatee)
  }

  lemma {:induction false} OnlyStopsKept(q: Request, w: Walker, limit: nat)
    requires Going(w, limit) && limit <= w.hp && KeptAreStops(q, w.log)
    ensures KeptAreStops(q, Freeze(q, w, limit).log)
    decreases |w.below|, |w.rest|
  {
    if !Ends(q, w) { OnlyStopsKept(q, Next(q, w, limit), limit); }
  }

  /** None of the frames down to number k updates the closure that the frame to stop at is to update. */
  ghost predicate ApartFromStop(q: Request, fs: seq<UpdFrame>, k: nat) {
    forall i | 0 <= i <= k && i < |fs| :: q.updatee != Some(fs[i].updatee)
  }

  /** The round trip.  Every update frame of the stack above the frame at which the walk ends is
      frozen.  Entering the AP_STACK made for it gets back to the interrupted closure with the stack
      words above and including that frame; these equal the original ones modulo indirections, and
      the updatee leads to that AP_STACK, exactly when neither the frame nor one above it shares its
      updatee with a deeper one of these frames.  (If the walk is to stop at an update frame, this is
      about the frames above the first that shares its updatee with it.) */
  lemma RoundTrip(q: Request, cur: Word, rest: seq<Word>, below: seq<seq<Word>>, heap: Heap, hp: nat, k: nat)
    requires FramedAll(rest, below, hp) && Older(cur, hp)
    requires k < |UpdFrames(q, rest, below, hp, 0)| && ApartFromStop(q, UpdFrames(q, rest, below, hp, 0), k)
    ensures var o, fs := Freeze(q, Start(cur, rest, below, heap, hp), hp), UpdFrames(q, rest, below, hp, 0);
            var flat, end := Flat(rest, below), fs[k].depth + UPDATE_FRAME_SIZE;
            && |o.log| == |fs| && o.log[k].depth == fs[k].depth && o.log[k].updatee == fs[k].updatee
            && end <= |flat| && flat[fs[k].depth..end] == [UpdInfo, Ptr(fs[k].updatee)]
            && (forall s: seq<Word> :: Thaw(o.heap, hp, Ptr(o.log[k].ap), s) ==
                 (cur, Relabel(flat[..end], o.log[..k + 1]) + s))
            && (UpdateesApart(fs, k) <==>
                 && fs[k].updatee in o.heap && o.heap[fs[k].updatee] == Ind(o.log[k].ap)
                 && SameStack(o.heap, flat[..end], Relabel(flat[..end], o.log[..k + 1])))
  {
    hide EntryOk, LogOk, Freeze, UpdFrames, Thaw, Relabel, SameStack, Framed, FramedAll, Flat;
    var w := Start(cur, rest, below, heap, hp);
    var o := Freeze(q, w, hp);
    var log, h, flat := o.log, o.heap, Flat(rest, below);
    FreezeRebuilds(q, cur, rest, below, heap, hp);
    OnlyStopsKept(q, w, hp);
    ApsGrow(q, w, hp);
    KeptBelow(q, log, k);
    EntryRebuilds(h, hp, o.hp, cur, flat, log, k);
    if UpdateesApart(FramesOf(log), k) {
      SameWhenApart(h, hp, cur, flat, log, k, o.hp);
    } else {
      DiffersWhenShared(h, hp, cur, flat, log, k, o.hp);
    }
  }

  lemma KeptBelow(q: Request, log: seq<Frozen>, k: nat)
    requires k < |log| && KeptAreStops(q, log) && ApartFromStop(q, FramesOf(log), k)
    ensures NoneKept(log[..k + 1]) && forall i | 0 <= i <= k :: AlwaysUpdated(log, log[i].updatee)
  {
    assert forall i | 0 <= i < |log| :: FramesOf(log)[i].updatee == log[i].updatee;
  }

  lemma EntryRebuilds(h: Heap, base: nat, hp: nat, cur: Word, flat: seq<Word>, log: seq<Frozen>, k: nat)
    requires k < |log| && NoneKept(log[..k + 1]) && LogOk(h, base, hp, cur, flat, log)
    ensures var end := log[k].depth + UPDATE_FRAME_SIZE;
      && end <= |flat| && flat[log[k].depth..end] == [UpdInfo, Ptr(log[k].updatee)]
      && forall s: seq<Word> :: Thaw(h, base, Ptr(log[k].ap), s) == (cur, Relabel(flat[..end], log[..k + 1]) + s)
  {
    hide Thaw, Relabel;
    assert EntryOk(h, base, cur, flat, log, k);
    RebuiltFromTop(log[..k + 1], cur);
    var end := log[k].depth + UPDATE_FRAME_SIZE;
    assert Rebuilt(flat, log[..k + 1], end) == Relabel(flat[..end], log[..k + 1]);
  }

  /** Two update frames for the same thunk, one on top of the other: the thunk leads to the closure made
      for the lower frame, and entering that does not rebuild the original stack. */
  lemma SharedUpdatee(heap: Heap)
    ensures var q, rest := Request(Some(0), None, None), [UpdInfo, Ptr(1), UpdInfo, Ptr(1), StopInfo];
            && FramedAll(rest, [], 2) && UpdFrames(q, rest, [], 2, 0) == [UpdFrame(0, 1), UpdFrame(2, 1)]
            && var o := Freeze(q, Start(Ptr(0), rest, [], heap, 2), 2);
            && |o.log| == 2 && 1 in o.heap && o.heap[1] == Ind(o.log[1].ap)
            && (forall s: seq<Word> :: Thaw(o.heap, 2, Ptr(o.log[1].ap), s) == (Ptr(0), Relabel(rest[..4], o.log[..2]) + s))
            && !SameStack(o.heap, rest[..4], Relabel(rest[..4], o.log[..2]))
  {
    var q, rest := Request(Some(0), None, None), [UpdInfo, Ptr(1), UpdInfo, Ptr(1), StopInfo];
    SharedFrames(q, rest);
    hide Framed, UpdFrames, Freeze, Thaw, Relabel, SameStack;
    var fs := UpdFrames(q, rest, [], 2, 0);
    assert fs[0].updatee == fs[1].updatee == 1 && fs[1].depth == 2;
    assert !UpdateesApart(fs, 1);
    RoundTrip(q, Ptr(0), rest, [], heap, 2, 1);
    var o := Freeze(q, Start(Ptr(0), rest, [], heap, 2), 2);
    FreezeRebuilds(q, Ptr(0), rest, [], heap, 2);
    OnlyStopsKept(q, Start(Ptr(0), rest, [], heap, 2), 2);
    assert UpdateeOk(o.heap, o.log, 1);
  }

  lemma SharedFrames(q: Request, rest: seq<Word>)
    requires q == Request(Some(0), None, None) && rest == [UpdInfo, Ptr(1), UpdInfo, Ptr(1), StopInfo]
    ensures FramedAll(rest, [], 2) && UpdFrames(q, rest, [], 2, 0) == [UpdFrame(0, 1), UpdFrame(2, 1)]
  {
    assert rest[2..] == [UpdInfo, Ptr(1), StopInfo] && rest[2..][2..] == [StopInfo];
    assert Framed([StopInfo], true, 2) && Framed(rest[2..], true, 2) && Framed(rest, true, 2);
    assert UpdFrames(q, [StopInfo], [], 2, 4) == [];
    assert UpdFrames(q, rest[2..], [], 2, 2) == [UpdFrame(2, 1)];
  }

  lemma DiffersWhenShared(h: Heap, base: nat, cur: Word, flat: seq<Word>, log: seq<Frozen>, k: nat, hp: nat)
    requires k < |log| && !UpdateesApart(FramesOf(log), k) && ApsIncrease(log, hp)
    requires forall i | 0 <= i <= k :: AlwaysUpdated(log, log[i].updatee)
    requires LogOk(h, base, hp, cur, flat, log)
    ensures log[k].depth + UPDATE_FRAME_SIZE <= |flat|
    ensures !SameStack(h, flat[..log[k].depth + UPDATE_FRAME_SIZE],
                       Relabel(flat[..log[k].depth + UPDATE_FRAME_SIZE], log[..k + 1]))
  {
    hide EntryOk, LogOk, Relabel, SameStack;
    var i, j :| 0 <= i <= k && i < j < |log| && FramesOf(log)[i].updatee == FramesOf(log)[j].updatee;
    assert log[i].updatee == log[j].updatee;
    DiffersAt(h, base, cur, flat, log, k, hp, i, j);
  }

  /** Frame i no longer leads to its own closure. */
  lemma DiffersAt(h: Heap, base: nat, cur: Word, flat: seq<Word>, log: seq<Frozen>, k: nat, hp: nat, i: nat, j: nat)
    requires i <= k < |log| && i < j < |log| && log[i].updatee == log[j].updatee && ApsIncrease(log, hp)
    requires AlwaysUpdated(log, log[i].updatee)
    requires LogOk(h, base, hp, cur, flat, log)
    ensures log[k].depth + UPDATE_FRAME_SIZE <= |flat|
    ensures !SameStack(h, flat[..log[k].depth + UPDATE_FRAME_SIZE],
                       Relabel(flat[..log[k].depth + UPDATE_FRAME_SIZE], log[..k + 1]))
  {
    hide Rebuilds, Rebuilt, RebuiltFrom, Entered, Relabel;
    assert EntryOk(h, base, cur, flat, log, i) && EntryOk(h, base, cur, flat, log, k);
    LastWins(h, log, i, j);
    hide EntryOk, UpdateeOk;
    var d := log[i].depth + 1;
    var words := flat[..log[k].depth + UPDATE_FRAME_SIZE];
    var head := log[..k + 1];
    assert head[i] == log[i] && d < |words|;
    RelabelAt(words, head, d);
    assert words[d] == Ptr(log[i].updatee);
    assert !SameWord(h, words[d], Relabel(words, head)[d]);
  }

  lemma SameWhenApart(h: Heap, base: nat, cur: Word, flat: seq<Word>, log: seq<Frozen>, k: nat, hp: nat)
    requires k < |log| && NoneKept(log[..k + 1]) && UpdateesApart(FramesOf(log), k)
    requires LogOk(h, base, hp, cur, flat, log)
    ensures log[k].updatee in h && h[log[k].updatee] == Ind(log[k].ap)
    ensures log[k].depth + UPDATE_FRAME_SIZE <= |flat|
    ensures SameStack(h, flat[..log[k].depth + UPDATE_FRAME_SIZE],
                      Relabel(flat[..log[k].depth + UPDATE_FRAME_SIZE], log[..k + 1]))
  {
    hide Rebuilds, Rebuilt, RebuiltFrom, Entered, Relabel;
    assert EntryOk(h, base, cur, flat, log, k) && UpdateeOk(h, log, k);
    var end := log[k].depth + UPDATE_FRAME_SIZE;
    forall i | 0 <= i < end ensures SameWord(h, flat[..end][i], Relabel(flat[..end], log[..k + 1])[i]) {
      SameWordAt(h, base, cur, flat, log, k, i);
    }
  }

  lemma SameWordAt(h: Heap, base: nat, cur: Word, flat: seq<Word>, log: seq<Frozen>, k: nat, i: nat)
    requires k < |log| && NoneKept(log[..k + 1]) && UpdateesApart(FramesOf(log), k) && Spaced(log)
    requires forall m | 0 <= m < |log| :: EntryOk(h, base, cur, flat, log, m) && UpdateeOk(h, log, m)
    requires i < log[k].depth + UPDATE_FRAME_SIZE <= |flat|
    ensures var words := flat[..log[k].depth + UPDATE_FRAME_SIZE];
      SameWord(h, words[i], Relabel(words, log[..k + 1])[i])
  {
    hide Rebuilds, Rebuilt, RebuiltFrom, Entered, Relabel;
    var head := log[..k + 1];
    RelabelAt(flat[..log[k].depth + UPDATE_FRAME_SIZE], head, i);
    if m :| 0 <= m < |head| && head[m].depth + 1 == i {
      assert head[m] == log[m] && FramesOf(log)[m].updatee == log[m].updatee;
      assert EntryOk(h, base, cur, flat, log, m) && UpdateeOk(h, log, m);
    }
  }

  // ---------------------------------------------------------------------------------------
  // Where the walk stops, and what it leaves alone
  // ---------------------------------------------------------------------------------------

  /** A frame of a stack: its info word, and how many words of the flattened stack lie above it. */
  datatype Frame = Frame(depth: nat, info: Word)

  /** All the frames of a stack, nearest first, whatever is asked of the walk. */
  ghost function Frames(rest: seq<Word>, below: seq<seq<Word>>, limit: nat, depth: nat): (fs: seq<Frame>)
    requires FramedAll(rest, below, limit)
    ensures fs != []
    ensures forall f <- fs :: f.depth >= depth && (f.info == UpdInfo || f.info == CatchInfo || f.info.RetInfo? || f.info == StopInfo)
    decreases |below|, |rest|
  {
    match rest[0]
    case UpdInfo => [Frame(depth, UpdInfo)] + Frames(rest[UPDATE_FRAME_SIZE..], below, limit, depth + UPDATE_FRAME_SIZE)
    case UnderflowInfo => Frames(below[0], below[1..], limit, depth)
    case CatchInfo => [Frame(depth, CatchInfo)] + Frames(rest[CATCH_FRAME_SIZE..], below, limit, depth + CATCH_FRAME_SIZE)
    case RetInfo(n) => [Frame(depth, RetInfo(n))] + Frames(rest[n..], below, limit, depth + n)
    case _ => [Frame(depth, StopInfo)]
  }

  ghost function FrameSize(info: Word): nat {
    match info
    case UpdInfo => UPDATE_FRAME_SIZE
    case CatchInfo => CATCH_FRAME_SIZE
    case RetInfo(n) => n
    case _ => 1
  }

  /** The words of a stack read as one frame after the other, down to the stop frame at the bottom. */
  ghost predicate ReadAs(words: seq<Word>, fs: seq<Frame>, depth: nat) {
    && fs != [] && fs[0].depth == depth && fs[|fs| - 1].info == StopInfo
    && (forall i | 0 <= i < |fs| :: depth <= fs[i].depth < depth + |words| && words[fs[i].depth - depth] == fs[i].info)
    && (forall i | 0 <= i < |fs| - 1 :: fs[i + 1].depth == fs[i].depth + FrameSize(fs[i].info))
  }

  lemma {:induction false} FramesAreRead(rest: seq<Word>, below: seq<seq<Word>>, limit: nat, depth: nat)
    requires FramedAll(rest, below, limit)
    ensures ReadAs(Flat(rest, below), Frames(rest, below, limit, depth), depth)
    decreases |below|, |rest|
  {
    hide ReadAs, Framed, FramedAll, Frames, Flat;
    OneFrame(rest, below, limit, depth);
    if rest[0] == UnderflowInfo {
      FramesAreRead(below[0], below[1..], limit, depth);
    } else if rest[0] != StopInfo {
      var n := FrameSize(rest[0]);
      FramesAreRead(rest[n..], below, limit, depth + n);
      FrameOnTop(rest[..n], Flat(rest[n..], below), Frames(rest[n..], below, limit, depth + n), depth);
    } else {
      OnlyFrame(depth);
    }
  }

  lemma OnlyFrame(depth: nat)
    ensures ReadAs([StopInfo], [Frame(depth, StopInfo)], depth)
  {
  }

  lemma OneFrame(rest: seq<Word>, below: seq<seq<Word>>, limit: nat, depth: nat)
    requires FramedAll(rest, below, limit)
    ensures rest != []
    ensures rest[0] == StopInfo ==>
      && Flat(rest, below) == [StopInfo] && Frames(rest, below, limit, depth) == [Frame(depth, StopInfo)]
    ensures rest[0] == UnderflowInfo ==>
      && below != [] && FramedAll(below[0], below[1..], limit) && Flat(rest, below) == Flat(below[0], below[1..])
      && Frames(rest, below, limit, depth) == Frames(below[0], below[1..], limit, depth)
    ensures rest[0] != StopInfo && rest[0] != UnderflowInfo ==>
      var n := FrameSize(rest[0]);
      && 0 < n <= |rest| && FramedAll(rest[n..], below, limit) && Flat(rest, below) == rest[..n] + Flat(rest[n..], below)
      && Frames(rest, below, limit, depth) == [Frame(depth, rest[0])] + Frames(rest[n..], below, limit, depth + n)
  {
    NotEmpty(rest, below, limit);
    hide Framed, FramedAll, Flat, Frames;
    if rest[0] == StopInfo {
      BottomFrame(rest, below, limit, depth);
    } else if rest[0] == UnderflowInfo {
      ChunkFrame(rest, below, limit, depth);
    } else {
      TopFrame(rest, below, limit);
      TopFrames(rest, below, limit, depth);
    }
  }

  lemma NotEmpty(rest: seq<Word>, below: seq<seq<Word>>, limit: nat)
    requires FramedAll(rest, below, limit)
    ensures rest != []
  {
  }

  lemma BottomFrame(rest: seq<Word>, below: seq<seq<Word>>, limit: nat, depth: nat)
    requires FramedAll(rest, below, limit) && rest != [] && rest[0] == StopInfo
    ensures Flat(rest, below) == [StopInfo] && Frames(rest, below, limit, depth) == [Frame(depth, StopInfo)]
  {
  }

  lemma ChunkFrame(rest: seq<Word>, below: seq<seq<Word>>, limit: nat, depth: nat)
    requires FramedAll(rest, below, limit) && rest != [] && rest[0] == UnderflowInfo
    ensures below != [] && FramedAll(below[0], below[1..], limit) && Flat(rest, below) == Flat(below[0], below[1..])
    ensures Frames(rest, below, limit, depth) == Frames(below[0], below[1..], limit, depth)
  {
    assert below != [] && |rest| == UNDERFLOW_FRAME_SIZE && FramedAll(below[0], below[1..], limit);
    hide Framed, FramedAll;
    assert rest[..0] + Flat(below[0], below[1..]) == Flat(below[0], below[1..]);
  }

  lemma TopFrame(rest: seq<Word>, below: seq<seq<Word>>, limit: nat)
    requires FramedAll(rest, below, limit) && rest != [] && rest[0] != StopInfo && rest[0] != UnderflowInfo
    ensures var n := FrameSize(rest[0]);
      0 < n <= |rest| && FramedAll(rest[n..], below, limit) && Flat(rest, below) == rest[..n] + Flat(rest[n..], below)
  {
    hide Flat;
    var n := FrameSize(rest[0]);
    assert 0 < n <= |rest| && Framed(rest[n..], below == [], limit);
    assert FramedAll(rest[n..], below, limit);
    hide FramedAll;
    if below != [] { FramedRoom(rest[n..], false, limit); }
    hide Framed;
    FlatSkip(rest, below, n);
  }

  lemma TopFrames(rest: seq<Word>, below: seq<seq<Word>>, limit: nat, depth: nat)
    requires FramedAll(rest, below, limit) && rest != [] && rest[0] != StopInfo && rest[0] != UnderflowInfo
    requires 0 < FrameSize(rest[0]) <= |rest| && FramedAll(rest[FrameSize(rest[0])..], below, limit)
    ensures var n := FrameSize(rest[0]);
      Frames(rest, below, limit, depth) == [Frame(depth, rest[0])] + Frames(rest[n..], below, limit, depth + n)
  {
    assert rest[0] == UpdInfo || rest[0] == CatchInfo || rest[0].RetInfo?;
    hide Framed, FramedAll;
  }

  lemma FrameOnTop(top: seq<Word>, words: seq<Word>, fs: seq<Frame>, depth: nat)
    requires top != [] && |top| == FrameSize(top[0]) && ReadAs(words, fs, depth + |top|)
    ensures ReadAs(top + words, [Frame(depth, top[0])] + fs, depth)
  {
    var fs', n := [Frame(depth, top[0])] + fs, |top|;
    forall i | 0 <= i < |fs'| ensures depth <= fs'[i].depth < depth + |top + words| && (top + words)[fs'[i].depth - depth] == fs'[i].info {
      FrameShifts(top, words, fs, depth, i);
    }
    hide FrameSize;
    forall i | 0 <= i < |fs'| - 1 ensures fs'[i + 1].depth == fs'[i].depth + FrameSize(fs'[i].info) {
      assert fs'[i + 1] == fs[i] && (i > 0 ==> fs'[i] == fs[i - 1]);
    }
  }

  lemma FrameShifts(top: seq<Word>, words: seq<Word>, fs: seq<Frame>, depth: nat, i: nat)
    requires top != [] && ReadAs(words, fs, depth + |top|) && i <= |fs|
    ensures var f := ([Frame(depth, top[0])] + fs)[i];
      depth <= f.depth < depth + |top + words| && (top + words)[f.depth - depth] == f.info
  {
    if i > 0 {
      assert (top + words)[fs[i - 1].depth - depth] == words[fs[i - 1].depth - depth - |top|];
    }
  }

  /** The innermost catch frame. */
  ghost function InnermostCatch(fs: seq<Frame>): (c: Option<nat>)
    ensures c.None? ==> forall f <- fs :: f.info != CatchInfo
    ensures c.Some? ==> c.value < |fs| && fs[c.value].info == CatchInfo
    ensures c.Some? ==> forall i | 0 <= i < c.value :: fs[i].info != CatchInfo
  {
    if fs == [] then None
    else if fs[0].info == CatchInfo then Some(0)
    else
      match InnermostCatch(fs[1..])
      case None => None
      case Some(i) => Some(i + 1)
  }

  lemma CatchAhead(f: Frame, fs: seq<Frame>)
    requires f.info != CatchInfo
    ensures InnermostCatch(fs).None? ==> InnermostCatch([f] + fs).None?
    ensures InnermostCatch(fs).Some? ==> InnermostCatch([f] + fs) == Some(InnermostCatch(fs).value + 1)
  {
    assert ([f] + fs)[1..] == fs;
  }

  /** One turn of the loop goes on to the next frame. */
  lemma NextFrame(q: Request, w: Walker, limit: nat, depth: nat)
    requires Going(w, limit) && !Ends(q, w)
    ensures var w', n := Next(q, w, limit), FrameSize(w.rest[0]);
      Frames(w.rest, w.below, limit, depth) ==
      if w.rest[0] == UnderflowInfo then Frames(w'.rest, w'.below, limit, depth)
      else [Frame(depth, w.rest[0])] + Frames(w'.rest, w'.below, limit, depth + n)
  {
  }

  /** One turn of the loop takes a prefix off the flattened stack without passing a catch frame,
      unless there is no exception to raise. */
  lemma NextFlat(q: Request, w: Walker, limit: nat) returns (n: nat)
    requires Going(w, limit) && !Ends(q, w)
    ensures n <= |Flat(w.rest, w.below)|
    ensures Flat(Next(q, w, limit).rest, Next(q, w, limit).below) == Flat(w.rest, w.below)[n..]
    ensures n == if w.rest[0] == UnderflowInfo then 0 else FrameSize(w.rest[0])
  {
    match w.rest[0]
    case UnderflowInfo => n := 0;
    case UpdInfo =>
      n := UPDATE_FRAME_SIZE;
      if w.below != [] { FramedRoom(w.rest[n..], false, limit); }
      FlatSkip(w.rest, w.below, n);
    case CatchInfo =>
      n := CATCH_FRAME_SIZE;
      if w.below != [] { FramedRoom(w.rest[n..], false, limit); }
      FlatSkip(w.rest, w.below, n);
    case RetInfo(size) =>
      n := size;
      if w.below != [] { FramedRoom(w.rest[n..], false, limit); }
      FlatSkip(w.rest, w.below, n);
  }

  /** Without a frame to stop at, an exception is given to the innermost catch frame: the heap holds
      the thunk that raises it, the handler runs as interruptible as the frame says, and the
      stack from that frame on is the original one.  The thread dies if there is no catch frame, or
      no exception. */
  lemma {:induction false} HandlerGetsException(q: Request, w: Walker, limit: nat, depth: nat)
    requires Going(w, limit) && q.stop.None?
    ensures var o, ws, fs := Freeze(q, w, limit), Flat(w.rest, w.below), Frames(w.rest, w.below, limit, depth);
      if q.exception.Some? && InnermostCatch(fs).Some? then
        var d := fs[InnermostCatch(fs).value].depth - depth;
        && o.verdict.Caught? && o.verdict.raise in o.heap && o.heap[o.verdict.raise] == RaiseThunk(q.exception.value)
        && d + 1 < |ws| && ws[d + 1] == Mask(o.verdict.handlerInterruptible)
        && |o.rest| >= CATCH_FRAME_SIZE && Flat(o.rest, o.below) == ws[d..]
      else o.verdict.Killed?
    decreases |w.below|, |w.rest|
  {
    hide Framed, FramedAll, Frames, Flat, Next, End, Freeze, InnermostCatch;
    FramesLeft(w, limit);
    FreezeUnfold(q, w, limit);
    if Ends(q, w) {
      HandlerAtHand(q, w, limit, depth);
    } else {
      var n := NextFlat(q, w, limit);
      HandlerGetsException(q, Next(q, w, limit), limit, depth + n);
      NextFrame(q, w, limit, depth);
      HandlerAhead(q, w, limit, depth, n);
    }
  }

  lemma HandlerAtHand(q: Request, w: Walker, limit: nat, depth: nat)
    requires Going(w, limit) && q.stop.None? && Ends(q, w)
    ensures var o, ws, fs := End(q, w, limit), Flat(w.rest, w.below), Frames(w.rest, w.below, limit, depth);
      if q.exception.Some? && InnermostCatch(fs).Some? then
        && InnermostCatch(fs) == Some(0) && fs[0].depth == depth
        && o.verdict.Caught? && o.verdict.raise in o.heap && o.heap[o.verdict.raise] == RaiseThunk(q.exception.value)
        && 1 < |ws| && ws[1] == Mask(o.verdict.handlerInterruptible)
        && |o.rest| >= CATCH_FRAME_SIZE && Flat(o.rest, o.below) == ws[0..]
      else o.verdict.Killed?
  {
    if w.rest[0] == CatchInfo && w.below != [] { FramedRoom(w.rest[CATCH_FRAME_SIZE..], false, limit); }
  }

  lemma HandlerAhead(q: Request, w: Walker, limit: nat, depth: nat, n: nat)
    requires Going(w, limit) && !Ends(q, w) && n <= |Flat(w.rest, w.below)|
    requires var w' := Next(q, w, limit); Flat(w'.rest, w'.below) == Flat(w.rest, w.below)[n..]
    requires var w' := Next(q, w, limit);
      Frames(w.rest, w.below, limit, depth) ==
      if w.rest[0] == UnderflowInfo then Frames(w'.rest, w'.below, limit, depth + n)
      else [Frame(depth, w.rest[0])] + Frames(w'.rest, w'.below, limit, depth + n)
    ensures var fs, w' := Frames(w.rest, w.below, limit, depth), Next(q, w, limit);
      var fs', ws, ws' := Frames(w'.rest, w'.below, limit, depth + n), Flat(w.rest, w.below), Flat(w'.rest, w'.below);
      q.exception.Some? ==>
        && (InnermostCatch(fs).Some? <==> InnermostCatch(fs').Some?)
        && (InnermostCatch(fs).Some? ==>
             var d, d' := fs[InnermostCatch(fs).value].depth - depth, fs'[InnermostCatch(fs').value].depth - depth - n;
             d == d' + n && (d' <= |ws'| ==> ws'[d'..] == ws[d..]) && (d' + 1 < |ws'| ==> d + 1 < |ws| && ws'[d' + 1] == ws[d + 1]))
  {
    hide Framed, FramedAll, Frames, Flat, Next, InnermostCatch;
    FramesLeft(w, limit);
    if w.rest[0] != UnderflowInfo && q.exception.Some? {
      CatchAhead(Frame(depth, w.rest[0]), Frames(Next(q, w, limit).rest, Next(q, w, limit).below, limit, depth + n));
    }
  }

  /** `stop` words from the end of the chunk is the start of one of its frames. */
  ghost predicate FrameAt(rest: seq<Word>, stop: nat)
    decreases |rest|
  {
    |rest| == stop ||
    (|rest| > stop && rest != [] &&
     match rest[0]
     case UpdInfo => |rest| >= UPDATE_FRAME_SIZE && FrameAt(rest[UPDATE_FRAME_SIZE..], stop)
     case CatchInfo => |rest| >= CATCH_FRAME_SIZE && FrameAt(rest[CATCH_FRAME_SIZE..], stop)
     case RetInfo(n) => 1 <= n <= |rest| && FrameAt(rest[n..], stop)
     case _ => false)
  }

  lemma FrameAtBound(rest: seq<Word>, stop: nat)
    requires FrameAt(rest, stop)
    ensures stop <= |rest|
  {}

  /** How many words of the stack lie above the frame at which the walk ends. */
  ghost function EndDepth(q: Request, rest: seq<Word>, below: seq<seq<Word>>, limit: nat, depth: nat): (d: nat)
    requires FramedAll(rest, below, limit)
    ensures d >= depth
    decreases |below|, |rest|
  {
    if EndsAt(q, rest) then depth
    else
      match rest[0]
      case UpdInfo => EndDepth(q, rest[UPDATE_FRAME_SIZE..], below, limit, depth + UPDATE_FRAME_SIZE)
      case UnderflowInfo => EndDepth(q, below[0], below[1..], limit, depth)
      case CatchInfo => EndDepth(q, rest[CATCH_FRAME_SIZE..], below, limit, depth + CATCH_FRAME_SIZE)
      case RetInfo(n) => EndDepth(q, rest[n..], below, limit, depth + n)
  }

  lemma PassOneFrame(q: Request, rest: seq<Word>, below: seq<seq<Word>>, limit: nat, depth: nat)
    requires FramedAll(rest, below, limit) && rest != [] && !EndsAt(q, rest) && rest[0] != UnderflowInfo
    ensures var n := FrameSize(rest[0]);
      && 0 < n <= |rest| && FramedAll(rest[n..], below, limit) && (rest[0] == UpdInfo ==> |rest| > 1 && rest[1].Ptr?)
      && EndDepth(q, rest, below, limit, depth) == EndDepth(q, rest[n..], below, limit, depth + n)
      && UpdFrames(q, rest, below, limit, depth) ==
         (if rest[0] == UpdInfo then [UpdFrame(depth, rest[1].p)] else []) + UpdFrames(q, rest[n..], below, limit, depth + n)
  {
    TopFrame(rest, below, limit);
    assert rest[0] == UpdInfo || rest[0] == CatchInfo || rest[0].RetInfo?;
    assert rest[0] == UpdInfo ==> |rest| > 1 && rest[1].Ptr?;
    hide Framed, FramedAll;
  }

  lemma PassOneChunk(q: Request, rest: seq<Word>, below: seq<seq<Word>>, limit: nat, depth: nat)
    requires FramedAll(rest, below, limit) && rest != [] && !EndsAt(q, rest) && rest[0] == UnderflowInfo
    ensures below != [] && FramedAll(below[0], below[1..], limit)
    ensures EndDepth(q, rest, below, limit, depth) == EndDepth(q, below[0], below[1..], limit, depth)
    ensures UpdFrames(q, rest, below, limit, depth) == UpdFrames(q, below[0], below[1..], limit, depth)
  {
    ChunkFrame(rest, below, limit, depth);
    hide Framed, FramedAll;
  }

  /** A walk that is to stop at a frame of the current chunk ends there. */
  lemma {:induction false} EndsAtStop(q: Request, rest: seq<Word>, below: seq<seq<Word>>, limit: nat, depth: nat)
    requires FramedAll(rest, below, limit) && q.exception.None? && q.stop.Some? && FrameAt(rest, q.stop.value)
    ensures q.stop.value <= |rest| && EndDepth(q, rest, below, limit, depth) == depth + |rest| - q.stop.value
    decreases |rest|
  {
    hide FramedAll, Framed;
    FrameAtBound(rest, q.stop.value);
    if |rest| > q.stop.value {
      StopAhead(rest, below, limit, q.stop.value);
      PassOneFrame(q, rest, below, limit, depth);
      EndsAtStop(q, rest[FrameSize(rest[0])..], below, limit, depth + FrameSize(rest[0]));
    }
  }

  lemma StopAhead(rest: seq<Word>, below: seq<seq<Word>>, limit: nat, stop: nat)
    requires FramedAll(rest, below, limit) && FrameAt(rest, stop) && |rest| > stop
    ensures rest != [] && rest[0] != UnderflowInfo && rest[0] != StopInfo
    ensures FrameSize(rest[0]) <= |rest| && FrameAt(rest[FrameSize(rest[0])..], stop)
  {
  }

  /** Any other walk ends at the innermost catch frame if there is one and an exception for it, and
      else at the bottom of the stack. Without an exception it passes over every catch frame. */
  lemma {:induction false} EndsAtCatch(q: Request, rest: seq<Word>, below: seq<seq<Word>>, limit: nat, depth: nat)
    requires FramedAll(rest, below, limit) && q.stop.None?
    ensures EndDepth(q, rest, below, limit, depth) == CatchDepth(q, Frames(rest, below, limit, depth))
    decreases |below|, |rest|
  {
    hide FramedAll, Framed, Frames, Flat, EndDepth, CatchDepth;
    OneFrame(rest, below, limit, depth);
    if EndsAt(q, rest) {
      EndsHere(q, rest, below, limit, depth);
      if rest[0] == StopInfo {
        OnlyOne(q, Frame(depth, StopInfo));
      } else {
        CatchOnTop(q, Frame(depth, rest[0]), Frames(rest[FrameSize(rest[0])..], below, limit, depth + FrameSize(rest[0])));
      }
    } else if rest[0] == UnderflowInfo {
      PassOneChunk(q, rest, below, limit, depth);
      EndsAtCatch(q, below[0], below[1..], limit, depth);
    } else {
      var n := FrameSize(rest[0]);
      PassOneFrame(q, rest, below, limit, depth);
      EndsAtCatch(q, rest[n..], below, limit, depth + n);
      CatchBelow(q, Frame(depth, rest[0]), Frames(rest[n..], below, limit, depth + n));
    }
  }

  /** Where the innermost catch frame is if there is an exception for it, else the bottom of the stack. */
  ghost function CatchDepth(q: Request, fs: seq<Frame>): nat
    requires fs != []
  {
    if q.exception.Some? && InnermostCatch(fs).Some? then fs[InnermostCatch(fs).value].depth else fs[|fs| - 1].depth
  }

  lemma EndsHere(q: Request, rest: seq<Word>, below: seq<seq<Word>>, limit: nat, depth: nat)
    requires FramedAll(rest, below, limit) && rest != [] && EndsAt(q, rest)
    ensures EndDepth(q, rest, below, limit, depth) == depth && UpdFrames(q, rest, below, limit, depth) == []
  {
    hide FramedAll, Framed;
  }

  lemma OnlyOne(q: Request, f: Frame)
    requires f.info == StopInfo
    ensures CatchDepth(q, [f]) == f.depth
  {
  }

  lemma CatchOnTop(q: Request, f: Frame, fs: seq<Frame>)
    requires f.info == CatchInfo && q.exception.Some?
    ensures CatchDepth(q, [f] + fs) == f.depth
  {
  }

  lemma CatchBelow(q: Request, f: Frame, fs: seq<Frame>)
    requires fs != [] && (f.info == CatchInfo ==> q.exception.None?)
    ensures CatchDepth(q, [f] + fs) == CatchDepth(q, fs)
  {
    hide InnermostCatch;
    if f.info != CatchInfo { CatchAhead(f, fs); }
  }

  /** The depths of the update frames above depth `end`. */
  ghost function UpdDepths(fs: seq<Frame>, end: nat): seq<nat> {
    if fs == [] then []
    else (if fs[0].info == UpdInfo && fs[0].depth < end then [fs[0].depth] else []) + UpdDepths(fs[1..], end)
  }

  ghost function DepthsOf(us: seq<UpdFrame>): seq<nat> {
    if us == [] then [] else [us[0].depth] + DepthsOf(us[1..])
  }

  lemma {:induction false} NoneAbove(fs: seq<Frame>, end: nat)
    requires forall f <- fs :: f.depth >= end
    ensures UpdDepths(fs, end) == []
  {
    if fs != [] { NoneAbove(fs[1..], end); }
  }

  /** The frames that the walk freezes are all the update frames above its end. */
  lemma {:induction false} FrozenAreUpdateFrames(q: Request, rest: seq<Word>, below: seq<seq<Word>>, limit: nat, depth: nat)
    requires FramedAll(rest, below, limit)
    ensures DepthsOf(UpdFrames(q, rest, below, limit, depth)) ==
            UpdDepths(Frames(rest, below, limit, depth), EndDepth(q, rest, below, limit, depth))
    decreases |below|, |rest|
  {
    hide FramedAll, Framed, Frames, UpdFrames, EndDepth, UpdDepths, DepthsOf, Flat;
    OneFrame(rest, below, limit, depth);
    if EndsAt(q, rest) {
      EndsHere(q, rest, below, limit, depth);
      NoneAbove(Frames(rest, below, limit, depth), depth);
      NoDepths();
    } else if rest[0] == UnderflowInfo {
      PassOneChunk(q, rest, below, limit, depth);
      FrozenAreUpdateFrames(q, below[0], below[1..], limit, depth);
    } else {
      var n := FrameSize(rest[0]);
      PassOneFrame(q, rest, below, limit, depth);
      FrozenAreUpdateFrames(q, rest[n..], below, limit, depth + n);
      OneDepthMore(Frame(depth, rest[0]), Frames(rest[n..], below, limit, depth + n), rest[1..],
                   UpdFrames(q, rest[n..], below, limit, depth + n), EndDepth(q, rest, below, limit, depth));
    }
  }

  lemma NoDepths()
    ensures DepthsOf([]) == []
  {
  }

  lemma OneDepthMore(f: Frame, fs: seq<Frame>, after: seq<Word>, us: seq<UpdFrame>, end: nat)
    requires DepthsOf(us) == UpdDepths(fs, end) && f.depth < end && (f.info == UpdInfo ==> after != [] && after[0].Ptr?)
    ensures DepthsOf((if f.info == UpdInfo then [UpdFrame(f.depth, after[0].p)] else []) + us) == UpdDepths([f] + fs, end)
  {
    UpdDepthsCons(f, fs, end);
    hide DepthsOf, UpdDepths;
    if f.info == UpdInfo {
      DepthsCons(UpdFrame(f.depth, after[0].p), us);
    } else {
      assert [] + us == us && [] + UpdDepths(fs, end) == UpdDepths(fs, end);
    }
  }

  lemma UpdDepthsCons(f: Frame, fs: seq<Frame>, end: nat)
    ensures UpdDepths([f] + fs, end) == (if f.info == UpdInfo && f.depth < end then [f.depth] else []) + UpdDepths(fs, end)
  {
    assert ([f] + fs)[1..] == fs;
  }

  lemma DepthsCons(u: UpdFrame, us: seq<UpdFrame>)
    ensures DepthsOf([u] + us) == [u.depth] + DepthsOf(us)
  {
    assert ([u] + us)[1..] == us;
  }

  /** `suspendComputation` (no exception, a frame to stop at) freezes exactly the update frames above
      `stop_here`.  A frame that updates the same closure as `stop_here` does not perform its
      update, so that closure keeps its black hole and the loop can still be detected. */
  lemma SuspendKeepsBlackHole(q: Request, w: Walker, limit: nat)
    requires Going(w, limit) && limit <= w.hp
    requires q.exception.None? && q.stop.Some? && FrameAt(w.rest, q.stop.value)
    requires q.updatee.Some? && q.updatee.value < limit && q.updatee.value in w.heap
    ensures var o := Freeze(q, w, limit);
      && o.verdict.AtStop?
      && o.below == w.below
      && |w.rest| >= q.stop.value && o.rest == w.rest[|w.rest| - q.stop.value..]
      && FramesOf(o.log) == FramesOf(w.log) + UpdFrames(q, w.rest, w.below, limit, w.depth + |w.seg|)
      && q.updatee.value in o.heap && o.heap[q.updatee.value] == w.heap[q.updatee.value]
  {
    hide Freeze, UpdFrames, FramesOf, FrameAt, Framed, FramedAll;
    AllFramesFrozen(q, w, limit);
    StopsAtFrame(q, w, limit);
    BlackHoleStays(q, w, limit);
  }

  /** A walk that is to stop at a frame of the current chunk does, and leaves the stack from there on. */
  lemma {:induction false} StopsAtFrame(q: Request, w: Walker, limit: nat)
    requires Going(w, limit) && q.exception.None? && q.stop.Some? && FrameAt(w.rest, q.stop.value)
    ensures var o := Freeze(q, w, limit);
      && o.verdict.AtStop? && o.below == w.below
      && |w.rest| >= q.stop.value && o.rest == w.rest[|w.rest| - q.stop.value..]
    decreases |w.rest|
  {
    hide Next, Framed, FramedAll, FrameAt, End, EndsAt;
    FramesLeft(w, limit);
    if Ends(q, w) {
      SuspendEnds(q, w, limit);
    } else {
      FrameAhead(q, w, limit);
      StopsAtFrame(q, Next(q, w, limit), limit);
    }
  }

  lemma {:induction false} BlackHoleStays(q: Request, w: Walker, limit: nat)
    requires Going(w, limit) && limit <= w.hp
    requires q.exception.None? && q.stop.Some? && FrameAt(w.rest, q.stop.value)
    requires q.updatee.Some? && q.updatee.value < limit && q.updatee.value in w.heap
    ensures var o := Freeze(q, w, limit); q.updatee.value in o.heap && o.heap[q.updatee.value] == w.heap[q.updatee.value]
    decreases |w.rest|
  {
    hide Next, Framed, FramedAll, FrameAt, End, EndsAt;
    FramesLeft(w, limit);
    if Ends(q, w) {
      SuspendEnds(q, w, limit);
    } else {
      FrameAhead(q, w, limit);
      BlackHoleStays(q, Next(q, w, limit), limit);
    }
  }

  lemma SuspendEnds(q: Request, w: Walker, limit: nat)
    requires Going(w, limit) && q.exception.None? && q.stop.Some? && FrameAt(w.rest, q.stop.value) && Ends(q, w)
    ensures End(q, w, limit) == Outcome(AtStop, w.heap, w.hp, w.rest, w.below, w.log) && |w.rest| == q.stop.value
  {
  }

  /** A frame further down the current chunk stays ahead of the walk. */
  lemma FrameAhead(q: Request, w: Walker, limit: nat)
    requires Going(w, limit) && !Ends(q, w)
    requires q.stop.Some? && FrameAt(w.rest, q.stop.value)
    ensures var w' := Next(q, w, limit);
      && w'.below == w.below && FrameAt(w'.rest, q.stop.value) && w.hp <= w'.hp
      && (q.updatee.Some? && q.updatee.value < w.hp && q.updatee.value in w.heap ==>
            q.updatee.value in w'.heap && w'.heap[q.updatee.value] == w.heap[q.updatee.value])
      && q.stop.value <= |w'.rest| < |w.rest| && w'.rest == w.rest[|w.rest| - |w'.rest|..]
  {}

  // ---------------------------------------------------------------------------------------
  // The walk over stack memory
  // ---------------------------------------------------------------------------------------

  /** A stack chunk: the region `[lo, end)` of stack memory, live from `sp` on. */
  datatype Chunk = Chunk(lo: nat, sp: nat, end: nat)

  /** The chunks lie in memory without overlapping.  The storage manager keeps a few words of
      slop below every stack pointer. */
  ghost predicate Laid(cs: seq<Chunk>, size: nat) {
    && (forall i | 0 <= i < |cs| :: cs[i].lo + 2 <= cs[i].sp <= cs[i].end <= size)
    && (forall i, j | 0 <= i < j < |cs| :: cs[i].end <= cs[j].lo || cs[j].end <= cs[i].lo)
  }

  /** The live words of every chunk. */
  ghost function Lives(m: seq<Word>, cs: seq<Chunk>): (r: seq<seq<Word>>)
    requires Laid(cs, |m|)
    ensures |r| == |cs| && forall i | 0 <= i < |cs| :: r[i] == m[cs[i].sp..cs[i].end]
  {
    seq(|cs|, i requires 0 <= i < |cs| => m[cs[i].sp..cs[i].end])
  }

  /** `c` overlaps none of the chunks `cs`. */
  ghost predicate Clear(c: Chunk, cs: seq<Chunk>) {
    forall i | 0 <= i < |cs| :: cs[i].end <= c.lo || c.end <= cs[i].lo
  }

  lemma LaidTail(m: seq<Word>, cs: seq<Chunk>)
    requires Laid(cs, |m|) && cs != []
    ensures Laid(cs[1..], |m|) && Clear(cs[0], cs[1..])
    ensures cs[0].lo + 2 <= cs[0].sp <= cs[0].end <= |m|
    ensures Lives(m, cs)[0] == m[cs[0].sp..cs[0].end] && Lives(m, cs)[1..] == Lives(m, cs[1..])
  {}

  /** Writing inside a chunk leaves the others as they are. */
  lemma LivesSame(m: seq<Word>, m': seq<Word>, c: Chunk, cs: seq<Chunk>)
    requires Laid(cs, |m|) && Clear(c, cs) && |m| == |m'|
    requires forall i | 0 <= i < |m| && !(c.lo <= i < c.end) :: m'[i] == m[i]
    ensures Lives(m', cs) == Lives(m, cs)
  {
    forall i | 0 <= i < |cs| ensures m'[cs[i].sp..cs[i].end] == m[cs[i].sp..cs[i].end] {
      var a, b := m[cs[i].sp..cs[i].end], m'[cs[i].sp..cs[i].end];
      assert forall j | 0 <= j < |a| :: b[j] == a[j];
    }
  }

  /** What the frame at hand consists of. */
  lemma FrameFits(w: Walker, limit: nat)
    requires Going(w, limit)
    ensures match w.rest[0]
      case UpdInfo => |w.rest| > UPDATE_FRAME_SIZE && w.rest[1].Ptr?
      case UnderflowInfo => w.below != [] && w.below[0] != []
      case CatchInfo => |w.rest| > CATCH_FRAME_SIZE && w.rest[1].Mask?
      case RetInfo(n) => 0 < n < |w.rest|
      case StopInfo => |w.rest| == 1 && w.below == []
      case _ => false
  {
    match w.rest[0]
    case UpdInfo => assert Framed(w.rest[UPDATE_FRAME_SIZE..], w.below == [], limit);
    case UnderflowInfo => assert FramedAll(w.below[0], w.below[1..], limit);
    case CatchInfo => assert Framed(w.rest[CATCH_FRAME_SIZE..], w.below == [], limit);
    case RetInfo(n) => assert Framed(w.rest[n..], w.below == [], limit);
    case _ =>
  }

  /** A thread, the memory its stack lies in, and the heap it allocates in.  `chunks` are the
      stack chunks reached through the underflow frames, nearest first. */
  class Thread {
    const mem: array<Word>
    var stack: Chunk
    var chunks: seq<Chunk>
    var heap: Heap
    var hp: nat
    var killed: bool
    var blockExceptions: bool
    var interruptible: bool
    var blocked: bool
    var timesQueued: nat

    constructor (size: nat)
      requires 2 <= size
      ensures fresh(mem) && mem.Length == size && stack == Chunk(0, size, size) && chunks == [] && heap == map[]
      ensures !killed && !blocked && timesQueued == 0
    {
      mem := new Word[size](_ => StopInfo);
      stack, chunks := Chunk(0, size, size), [];
      heap, hp := map[], 1;
      killed, blockExceptions, interruptible, blocked, timesQueued := false, false, false, false, 0;
    }

    ghost predicate Valid()
      reads this
    {
      && stack.lo + 2 <= stack.sp <= stack.end <= mem.Length
      && Laid(chunks, mem.Length) && Clear(stack, chunks)
    }

    /** The walk as it starts: the closure on top, if the thread is about to enter one, and the
        frames of all chunks. */
    ghost function Walking(): Walker
      requires Valid()
      reads this, mem
    {
      var frames, below := mem[stack.sp..stack.end], Lives(mem[..], chunks);
      if |frames| >= 2 && frames[0] == EnterInfo then Start(frames[1], frames[2..], below, heap, hp)
      else Start(Ptr(DUMMY_RET), frames, below, heap, hp)
    }

    ghost predicate Strippable()
      requires Valid()
      reads this, mem
    {
      var w := Walking();
      DUMMY_RET < hp && w.cur.Ptr? && Older(w.cur, hp) && Going(w, hp)
    }

    /** All the words of the stack. */
    ghost function Words(): seq<Word>
      requires stack.sp <= stack.end <= mem.Length && Laid(chunks, mem.Length)
      reads this, mem
    {
      Flat(mem[stack.sp..stack.end], Lives(mem[..], chunks))
    }

    /** The words of its frames: all but the closure about to be entered, if there is one. */
    ghost function FrameWords(): seq<Word>
      requires Valid()
      reads this, mem
    {
      if |Words()| >= 2 && Words()[0] == EnterInfo then Words()[2..] else Words()
    }

    lemma FrameWordsAre()
      requires Valid() && Strippable()
      ensures FrameWords() == Flat(Walking().rest, Walking().below)
    {
      var frames, below := mem[stack.sp..stack.end], Lives(mem[..], chunks);
      var w := Walking();
      assert frames != [] && w.below == below;
      if below != [] { FramedRoom(w.rest, false, hp); }
      if frames[0] == EnterInfo {
        FlatSkip(frames, below, 2);
      } else {
        FramesAreRead(frames, below, hp, 0);
      }
    }

    /** The frames of the stack, nearest first. */
    ghost function StackFrames(): (fs: seq<Frame>)
      requires Valid() && Strippable()
      reads this, mem
      ensures ReadAs(FrameWords(), fs, 0)
    {
      FrameWordsAre();
      FramesAreRead(Walking().rest, Walking().below, hp, 0);
      Frames(Walking().rest, Walking().below, hp, 0)
    }

    /** The thread is about to raise the exception in the handler whose frame comes first in `frames`, the
        rest of its stack, masked and as interruptible as that frame says. */
    ghost predicate Handles(exception: nat, frames: seq<Word>)
      reads this, mem
    {
      && |frames| > 1 && blockExceptions && frames[1] == Mask(interruptible)
      && stack.sp + 1 < stack.end <= mem.Length && mem[stack.sp + 1].Ptr?
      && mem[stack.sp + 1].p in heap && heap[mem[stack.sp + 1].p] == RaiseThunk(exception)
      && Laid(chunks, mem.Length) && Words() == [EnterInfo, mem[stack.sp + 1]] + frames
    }

    lemma ResultHandles(o: Outcome, exception: nat, frames: seq<Word>)
      requires Result(o) && o.verdict.Caught? && |o.rest| >= CATCH_FRAME_SIZE && Flat(o.rest, o.below) == frames
      requires o.verdict.raise in o.heap && o.heap[o.verdict.raise] == RaiseThunk(exception)
      requires |frames| > 1 && frames[1] == Mask(o.verdict.handlerInterruptible)
      ensures Handles(exception, frames)
    {
      var top := [EnterInfo, Ptr(o.verdict.raise)];
      var words := mem[stack.sp..stack.end];
      assert words == top + o.rest && words[..2] == top && words[2..] == o.rest;
      FlatSkip(words, o.below, 2);
      assert mem[stack.sp + 1] == words[1];
    }

    /** `stop_here` is an update frame of the current chunk. */
    ghost predicate StopFrame(at: nat)
      requires Valid()
      reads this, mem
    {
      && at + 1 < stack.end <= mem.Length && mem[at + 1].Ptr?
      && FrameAt(Walking().rest, stack.end - at)
    }

    ghost function Asked(exception: Option<nat>, stopHere: Option<nat>): Request
      requires Valid() && (stopHere.Some? ==> StopFrame(stopHere.value))
      reads this, mem
    {
      match stopHere
      case None => Request(exception, None, None)
      case Some(at) => Request(exception, Some(stack.end - at), Some(mem[at + 1].p))
    }

    /** The concrete walk, with the current closure at `sp` and the next frame at `frame`, is at
        the point that `w` describes. */
    ghost predicate At(sp: nat, frame: nat, w: Walker)
      requires Valid()
      reads this, mem
    {
      && stack.lo + 1 <= sp < frame < stack.end
      && w.cur == mem[sp] && w.seg == mem[sp + 1..frame] && w.rest == mem[frame..stack.end]
      && w.heap == heap && w.hp == hp && w.below == Lives(mem[..], chunks)
    }

    lemma AtFrame(sp: nat, frame: nat, w: Walker, limit: nat)
      requires Valid() && At(sp, frame, w) && Going(w, limit)
      ensures sp < frame < stack.end <= mem.Length
      ensures |w.rest| == stack.end - frame && w.rest[0] == mem[frame] && |w.below| == |chunks|
    {}

    /** The fields that only the end of the walk touches. */
    twostate predicate SameFlags()
      reads this
    {
      && killed == old(killed) && blockExceptions == old(blockExceptions) && interruptible == old(interruptible)
      && blocked == old(blocked) && timesQueued == old(timesQueued)
    }

    /** An AP_STACK for the words of the stack from `sp` up to `frame`, the first one being the
        function. */
    method FreezeSegment(sp: nat, frame: nat, update: bool) returns (ap: nat)
      requires sp < frame <= mem.Length
      modifies this`heap, this`hp
      ensures ap == old(hp) && hp == ap + 1
      ensures heap == old(heap)[ap := ApStack(mem[sp], mem[sp + 1..frame], update)]
    {
      var payload := [];
      for i := sp + 1 to frame
        invariant payload == mem[sp + 1..i]
      {
        payload := payload + [mem[i]];
      }
      ap := hp;
      heap, hp := heap[ap := ApStack(mem[sp], payload, update)], hp + 1;
    }

    /** The UPDATE_FRAME case. */
    method StripUpdate(sp: nat, frame: nat, updatee: Option<nat>, ghost q: Request, ghost w: Walker)
      returns (sp': nat, frame': nat)
      requires Valid() && At(sp, frame, w) && q.updatee == updatee
      requires |w.rest| > UPDATE_FRAME_SIZE && w.rest[1].Ptr?
      modifies this, mem
      ensures stack == old(stack) && chunks == old(chunks) && SameFlags()
      ensures Valid() && At(sp', frame', FreezeUpdate(q, w))
      ensures frame' == frame + UPDATE_FRAME_SIZE
    {
      ghost var m := mem[..];
      assert w.rest[1] == mem[frame + 1];
      var u := mem[frame + 1].p;
      var ap := FreezeSegment(sp, frame, true);
      if updatee == Some(u) { ap := u; } else { heap := heap[u := Ind(ap)]; }
      sp' := frame + UPDATE_FRAME_SIZE - 1;
      mem[sp'] := Ptr(ap);
      frame' := sp' + 1;
      assert mem[frame'..stack.end] == m[frame'..stack.end];
      LivesSame(m, mem[..], stack, chunks);
    }

    /** The UNDERFLOW_FRAME case; `threadStackUnderflow` has no return values to carry over. */
    method StripUnderflow(sp: nat, frame: nat, ghost w: Walker) returns (sp': nat, frame': nat)
      requires Valid() && At(sp, frame, w)
      requires chunks != [] && w.below[0] != []
      modifies this, mem
      ensures SameFlags()
      ensures Valid() && At(sp', frame', FreezeUnderflow(w))
      ensures chunks == old(chunks)[1..]
    {
      hide Laid, Clear, Lives;
      var ap := FreezeSegment(sp, frame, false);
      ghost var m := mem[..];
      LaidTail(m, chunks);
      stack, chunks := chunks[0], chunks[1..];
      sp' := stack.sp - 1;
      mem[sp'] := Ptr(ap);
      frame' := sp' + 1;
      LivesSame(m, mem[..], stack, chunks);
      assert mem[frame'..stack.end] == m[frame'..stack.end];
    }

    /** The CATCH_FRAME case with an exception to raise: leave the handler applied to the
        exception on top of the frame. */
    method Deliver(sp: nat, frame: nat, exception: nat, ghost w: Walker) returns (raise: nat)
      requires Valid() && At(sp, frame, w)
      requires |w.rest| >= CATCH_FRAME_SIZE && w.rest[1].Mask?
      modifies this`heap, this`hp, this`blockExceptions, this`interruptible, this`stack, mem
      ensures raise == old(hp) && hp == raise + 1 && heap == old(heap)[raise := RaiseThunk(exception)]
      ensures blockExceptions && interruptible == w.rest[1].interruptible
      ensures stack.sp <= stack.end <= mem.Length && mem[stack.sp..stack.end] == [EnterInfo, Ptr(raise)] + w.rest
      ensures Laid(chunks, mem.Length) && Lives(mem[..], chunks) == w.below
    {
      hide Laid, Clear, Lives;
      ghost var m := mem[..];
      raise := hp;
      heap, hp := heap[raise := RaiseThunk(exception)], hp + 1;
      blockExceptions := true;
      assert w.rest[1] == mem[frame + 1];
      interruptible := mem[frame + 1].interruptible;
      mem[frame - 1], mem[frame - 2] := Ptr(raise), EnterInfo;
      LivesSame(m, mem[..], stack, chunks);
      stack := stack.(sp := frame - 2);
      assert mem[frame..stack.end] == m[frame..stack.end];
    }

    /** Moving on to the next frame. */
    lemma PassFrame(sp: nat, frame: nat, w: Walker, n: nat)
      requires Valid() && At(sp, frame, w) && n < |w.rest|
      ensures At(sp, frame + n, Skip(w, n))
    {
      assert mem[sp + 1..frame + n] == mem[sp + 1..frame] + mem[frame..stack.end][..n];
      assert mem[frame + n..stack.end] == mem[frame..stack.end][n..];
    }

    /** The thread after the walk. */
    ghost predicate Result(o: Outcome)
      reads `stack, `chunks, `heap, `hp, `killed, `blockExceptions, `interruptible, mem
    {
      && heap == o.heap && hp == o.hp
      && stack.sp <= stack.end <= mem.Length
      && Laid(chunks, mem.Length) && Lives(mem[..], chunks) == o.below
      && match o.verdict
         case Caught(i, raise) =>
           blockExceptions && interruptible == i && mem[stack.sp..stack.end] == [EnterInfo, Ptr(raise)] + o.rest
         case Killed => killed && stack.sp == stack.end && chunks == []
         case AtStop => |o.rest| <= stack.end && mem[stack.end - |o.rest|..stack.end] == o.rest
    }

    /** Arrange for a closure pointer on top of the stack, with whole frames below it. */
    method Prepare() returns (sp: nat)
      requires Valid() && Strippable()
      modifies mem
      ensures Valid() && At(sp, sp + 1, old(Walking()))
    {
      ghost var m, w := mem[..], Walking();
      sp := stack.sp;
      assert w.rest == if mem[sp..stack.end][0] == EnterInfo then mem[sp + 2..stack.end] else mem[sp..stack.end];
      if mem[sp] == EnterInfo {
        sp := sp + 1;
      } else {
        sp := sp - 1;
        mem[sp] := Ptr(DUMMY_RET);
      }
      LivesSame(m, mem[..], stack, chunks);
      assert mem[sp + 1..stack.end] == m[sp + 1..stack.end];
    }

    /** One turn of the loop: strip the frame at `frame`. */
    method Strip(sp: nat, frame: nat, updatee: Option<nat>, ghost q: Request, ghost w: Walker, ghost limit: nat)
      returns (sp': nat, frame': nat)
      requires Valid() && At(sp, frame, w) && Going(w, limit) && !Ends(q, w) && q.updatee == updatee
      modifies this, mem
      ensures SameFlags()
      ensures Valid() && At(sp', frame', Next(q, w, limit))
      ensures w.rest[0] == UnderflowInfo ==> chunks == old(chunks)[1..] && old(chunks) != []
      ensures w.rest[0] != UnderflowInfo ==> stack == old(stack) && chunks == old(chunks) && frame' > frame
    {
      hide Framed, FramedAll, Lives, Laid, Clear;
      FrameFits(w, limit);
      assert w.rest[0] == mem[frame];
      match mem[frame]
      case UpdInfo => sp', frame' := StripUpdate(sp, frame, updatee, q, w);
      case UnderflowInfo => sp', frame' := StripUnderflow(sp, frame, w);
      case CatchInfo =>
        PassFrame(sp, frame, w, CATCH_FRAME_SIZE);
        sp', frame' := sp, frame + CATCH_FRAME_SIZE;
      case RetInfo(n) =>
        PassFrame(sp, frame, w, n);
        sp', frame' := sp, frame + n;
    }

    /** The end of the walk: nothing more to do at `stop_here`, the thread dies at a stop frame,
        and a catch frame gets its handler.  A blocked thread then goes on the run queue. */
    method Conclude(sp: nat, frame: nat, exception: Option<nat>, stopped: bool,
                    ghost q: Request, ghost w: Walker, ghost limit: nat)
      requires Valid() && At(sp, frame, w) && Going(w, limit) && Ends(q, w)
      requires q.exception == exception && (stopped <==> Stopped(q, w))
      modifies this, mem
      ensures Result(End(q, w, limit))
      ensures !blocked && timesQueued == old(timesQueued) + (if old(blocked) then 1 else 0)
      ensures !End(q, w, limit).verdict.Killed? ==> killed == old(killed)
      ensures stopped ==> stack == old(stack) && chunks == old(chunks)
      ensures stopped ==> blockExceptions == old(blockExceptions) && interruptible == old(interruptible)
    {
      hide Framed, FramedAll, Laid, Clear, Lives;
      if blocked {
        blocked := false;
        timesQueued := timesQueued + 1;
      }
      if !stopped {
        ConcludeFrame(sp, frame, exception, q, w, limit);
      }
    }

    /** The STOP_FRAME case, and the CATCH_FRAME case with an exception to raise. */
    method ConcludeFrame(sp: nat, frame: nat, exception: Option<nat>, ghost q: Request, ghost w: Walker, ghost limit: nat)
      requires Valid() && At(sp, frame, w) && Going(w, limit) && Ends(q, w) && !Stopped(q, w) && q.exception == exception
      modifies this, mem
      ensures Result(End(q, w, limit))
      ensures blocked == old(blocked) && timesQueued == old(timesQueued)
      ensures !End(q, w, limit).verdict.Killed? ==> killed == old(killed)
    {
      hide Framed, FramedAll, Laid, Clear, Lives;
      FrameFits(w, limit);
      assert w.rest[0] == mem[frame];
      if mem[frame] == StopInfo {
        killed := true;
        stack := stack.(sp := frame + 1);
      } else {
        var raise := Deliver(sp, frame, exception.value, w);
      }
    }

    /** The loop of `raiseAsync`, up to the frame that ends the walk. */
    method StripStack(exception: Option<nat>, stopHere: Option<nat>, updatee: Option<nat>, from: nat,
                      ghost q: Request, ghost start: Walker, ghost limit: nat)
      returns (sp: nat, frame: nat, ghost w: Walker)
      requires Valid() && At(from, from + 1, start)
      requires Going(start, limit)
      requires q.exception == exception && q.updatee == updatee
      requires stopHere.None? ==> q.stop.None?
      requires stopHere.Some? ==> stopHere.value < stack.end && q.stop == Some(stack.end - stopHere.value)
      requires stopHere.Some? ==> FrameAt(start.rest, stack.end - stopHere.value)
      modifies this, mem
      ensures SameFlags()
      ensures Valid() && At(sp, frame, w)
      ensures Going(w, limit) && Ends(q, w) && Freeze(q, start, limit) == End(q, w, limit)
      ensures Stopped(q, w) <==> stopHere.Some? && stopHere.value <= frame
      ensures stopHere.Some? ==> stack == old(stack) && chunks == old(chunks)
    {
      hide At, Valid, Framed, FramedAll, Next, End, Freeze, FrameAt;
      AtFrame(from, from + 1, start, limit);
      w := start;
      sp, frame := from, from + 1;
      if stopHere.Some? { FrameAtBound(start.rest, stack.end - stopHere.value); }
      while (stopHere.None? || frame < stopHere.value) &&
            !(mem[frame] == StopInfo || (mem[frame] == CatchInfo && exception.Some?))
        invariant Valid() && At(sp, frame, w) && Going(w, limit) && Freeze(q, start, limit) == Freeze(q, w, limit)
        invariant frame < stack.end <= mem.Length && |w.rest| == stack.end - frame && w.rest[0] == mem[frame]
        invariant stopHere.Some? ==> frame <= stopHere.value
        invariant SameFlags()
        invariant stopHere.Some? ==>
          stack == old(stack) && chunks == old(chunks) && FrameAt(w.rest, stack.end - stopHere.value)
        decreases |chunks|, mem.Length - frame
      {
        AtFrame(sp, frame, w, limit);
        if stopHere.Some? { FrameAhead(q, w, limit); }
        FreezeUnfold(q, w, limit);
        sp, frame := Strip(sp, frame, updatee, q, w, limit);
        w := Next(q, w, limit);
        AtFrame(sp, frame, w, limit);
        if stopHere.Some? { FrameAtBound(w.rest, stack.end - stopHere.value); }
      }
      FreezeUnfold(q, w, limit);
    }

    /** raiseAsync() as the walk that it is. */
    method StripAll(exception: Option<nat>, stopHere: Option<nat>) returns (ghost o: Outcome)
      requires Valid() && Strippable()
      requires stopHere.Some? ==> exception.None? && StopFrame(stopHere.value)
      modifies this, mem
      ensures o == old(Freeze(Asked(exception, stopHere), Walking(), hp))
      ensures Result(o)
      ensures !blocked && timesQueued == old(timesQueued) + (if old(blocked) then 1 else 0)
      ensures !o.verdict.Killed? ==> killed == old(killed)
      ensures o.verdict.AtStop? ==>
        && stack == old(stack) && chunks == old(chunks)
        && blockExceptions == old(blockExceptions) && interruptible == old(interruptible)
    {
      ghost var q, start, limit := Asked(exception, stopHere), Walking(), hp;
      var updatee := None;
      if stopHere.Some? { updatee := Some(mem[stopHere.value + 1].p); }
      var frame;
      var sp := Prepare();
      ghost var w;
      sp, frame, w := StripStack(exception, stopHere, updatee, sp, q, start, limit);
      o := End(q, w, limit);
      Conclude(sp, frame, exception, stopHere.Some? && stopHere.value <= frame, q, w, limit);
    }

    /** raiseAsync(): the exception is given to the innermost handler, or else the thread dies; or the walk
        stops at the frame given and leaves the stack from there on. */
    method RaiseAsync(exception: Option<nat>, stopHere: Option<nat>) returns (ghost o: Outcome)
      requires Valid() && Strippable()
      requires stopHere.Some? ==> exception.None? && StopFrame(stopHere.value)
      modifies this, mem
      ensures o == old(Freeze(Asked(exception, stopHere), Walking(), hp))
      ensures Result(o)
      ensures !blocked && timesQueued == old(timesQueued) + (if old(blocked) then 1 else 0)
      ensures stopHere.None? && exception.Some? && InnermostCatch(old(StackFrames())).Some? ==>
        var at := old(StackFrames())[InnermostCatch(old(StackFrames())).value].depth;
        killed == old(killed) && at <= |old(FrameWords())| && Handles(exception.value, old(FrameWords())[at..])
      ensures stopHere.None? && (exception.None? || InnermostCatch(old(StackFrames())).None?) ==>
        killed && stack.sp == stack.end && chunks == []
      ensures stopHere.Some? ==>
        && killed == old(killed) && blockExceptions == old(blockExceptions) && interruptible == old(interruptible)
        && stack == old(stack) && chunks == old(chunks)
        && mem[stopHere.value..stack.end] == old(mem[stopHere.value..stack.end])
    {
      hide Frames, Flat, Framed, FramedAll, Freeze, FrameAt, Lives, Laid, Clear, ReadAs, FrameWords, Strippable;
      ghost var q, start, limit := Asked(exception, stopHere), Walking(), hp;
      ghost var frames, fs, words := FrameWords(), StackFrames(), mem[stack.sp..stack.end];
      HandlerIs(exception, stopHere);
      o := StripAll(exception, stopHere);
      if stopHere.Some? {
        assert mem[stopHere.value..stack.end] == o.rest;
      } else if exception.Some? && InnermostCatch(fs).Some? {
        ResultHandles(o, exception.value, frames[fs[InnermostCatch(fs).value].depth..]);
      }
    }

    /** What the walk over this stack comes to. */
    lemma HandlerIs(exception: Option<nat>, stopHere: Option<nat>)
      requires Valid() && Strippable()
      requires stopHere.Some? ==> exception.None? && StopFrame(stopHere.value)
      ensures var o, frames, fs := Freeze(Asked(exception, stopHere), Walking(), hp), FrameWords(), StackFrames();
        match stopHere
        case Some(at) => o.verdict.AtStop? && |o.rest| == stack.end - at && o.rest == mem[at..stack.end]
        case None =>
          if exception.Some? && InnermostCatch(fs).Some? then
            var d := fs[InnermostCatch(fs).value].depth;
            && o.verdict.Caught? && o.verdict.raise in o.heap && o.heap[o.verdict.raise] == RaiseThunk(exception.value)
            && d + 1 < |frames| && frames[d + 1] == Mask(o.verdict.handlerInterruptible)
            && |o.rest| >= CATCH_FRAME_SIZE && Flat(o.rest, o.below) == frames[d..]
          else o.verdict.Killed?
    {
      hide Frames, Flat, Framed, FramedAll, Freeze, End, FrameAt, Lives, Laid, Clear, ReadAs;
      var q, w := Asked(exception, stopHere), Walking();
      FrameWordsAre();
      if stopHere.Some? {
        StopsAtFrame(q, w, hp);
        var words := mem[stack.sp..stack.end];
        assert w.rest == words || w.rest == words[2..];
      } else {
        HandlerGetsException(q, w, hp, 0);
      }
    }
  }
}
