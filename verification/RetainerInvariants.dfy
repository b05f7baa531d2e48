/** The steps of the retainer traversal as functions of the closures' fields and the traverse
    stack, and what each of them keeps (rts/RetainerProfile.c). */
module RetainerInvariants {
  import opened Options

  import opened Retainers
  import opened RetainerGraph

  /** A traverse-stack element: the children of `c` from number `next` on are still to be visited
      with most recent retainer `r`. */
  datatype Frame = Frame(c: nat, r: Retainer, next: nat)

  /** A visit: closure, parent, most recent retainer. A root is its own parent. */
  datatype Item = Item(c: nat, cp: nat, r: Retainer)

  predicate FrameOk(g: Heap, f: Frame) {
    && f.c < |g| && (g[f.c].layout.Fixed? || g[f.c].layout.Ptrs?)
    && 1 <= f.next <= |Kids(g, f.c)|
    && (g[f.c].layout.Fixed? ==> f.next < |Kids(g, f.c)|)
  }

  predicate FramesOk(g: Heap, stack: seq<Frame>) {
    forall i :: 0 <= i < |stack| ==> FrameOk(g, stack[i])
  }

  predicate FieldsOk(rset: seq<RSet>, limit: nat) {
    forall i :: 0 <= i < |rset| ==> Bounded(rset[i], limit)
  }

  // ---------------------------------------------------------------- push and pop

  /** push(): the stack afterwards and the first child. */
  function Pushed(g: Heap, stack: seq<Frame>, c: nat, r: Retainer): (seq<Frame>, Option<nat>)
    requires c < |g| && WellFormed(g)
  {
    match g[c].layout
    case Single(d) => (stack, Some(d))
    case Fixed(ds) => (stack + [Frame(c, r, 1)], Some(ds[0]))
    case Ptrs(ds) => if ds == [] then (stack, None) else (stack + [Frame(c, r, 1)], Some(ds[0]))
    case _ => (stack, None)
  }

  /** pop(): used-up elements are dropped; above the boundary the next child is taken. */
  function Popped(g: Heap, stack: seq<Frame>, boundary: nat): (seq<Frame>, Option<Item>)
    requires FramesOk(g, stack)
    decreases |stack|
  {
    if |stack| <= boundary then (stack, None)
    else
      var n := |stack| - 1;
      var f := stack[n];
      var ds := Kids(g, f.c);
      if f.next == |ds| then Popped(g, stack[..n], boundary)
      else if g[f.c].layout.Fixed? && f.next + 1 == |ds| then (stack[..n], Some(Item(ds[f.next], f.c, f.r)))
      else (stack[n := f.(next := f.next + 1)], Some(Item(ds[f.next], f.c, f.r)))
  }

  /** The visits to the children of c from number k on. */
  function Visits(ds: seq<nat>, c: nat, r: Retainer, k: nat): set<Item> {
    set i | k <= i < |ds| :: Item(ds[i], c, r)
  }

  /** The visits the stack stands for. */
  function Pending(g: Heap, stack: seq<Frame>): set<Item>
    requires FramesOk(g, stack)
  {
    if stack == [] then {}
    else var f := stack[|stack| - 1];
         Pending(g, stack[..|stack| - 1]) + Visits(Kids(g, f.c), f.c, f.r, f.next)
  }

  /** The work on the stack: for each element its children left and its removal. */
  function Work(g: Heap, stack: seq<Frame>): nat
    requires FramesOk(g, stack)
  {
    if stack == [] then 0
    else var f := stack[|stack| - 1];
         Work(g, stack[..|stack| - 1]) + 1 + |Kids(g, f.c)| - f.next
  }

  function One(x: Option<Item>): set<Item> {
    match x
    case None => {}
    case Some(x) => {x}
  }

  lemma VisitsStep(ds: seq<nat>, c: nat, r: Retainer, k: nat)
    requires k < |ds|
    ensures Visits(ds, c, r, k) == Visits(ds, c, r, k + 1) + {Item(ds[k], c, r)}
  {
    forall x | x in Visits(ds, c, r, k) ensures x in Visits(ds, c, r, k + 1) || x == Item(ds[k], c, r) {
      var i :| k <= i < |ds| && x == Item(ds[i], c, r);
    }
  }

  /** A child taken from the top element, which stays. */
  lemma TakenKeeps(g: Heap, stack: seq<Frame>)
    requires FramesOk(g, stack) && |stack| > 0
    requires var f := stack[|stack| - 1]; f.next + (if g[f.c].layout.Fixed? then 1 else 0) < |Kids(g, f.c)|
    ensures var f := stack[|stack| - 1];
      var stack' := stack[|stack| - 1 := f.(next := f.next + 1)];
      && FramesOk(g, stack')
      && Pending(g, stack) == Pending(g, stack') + {Item(Kids(g, f.c)[f.next], f.c, f.r)}
      && Work(g, stack') < Work(g, stack)
  {
    hide Visits, Kids;
    var n := |stack| - 1;
    var f := stack[n];
    VisitsStep(Kids(g, f.c), f.c, f.r, f.next);
    assert stack[n := f.(next := f.next + 1)][..n] == stack[..n];
  }

  /** The top element dropped, with its last child or when it is used up. */
  lemma DroppedKeeps(g: Heap, stack: seq<Frame>)
    requires FramesOk(g, stack) && |stack| > 0
    ensures var f := stack[|stack| - 1];
      var stack' := stack[..|stack| - 1];
      && FramesOk(g, stack') && Work(g, stack') < Work(g, stack)
      && (f.next == |Kids(g, f.c)| ==> Pending(g, stack) == Pending(g, stack'))
      && (f.next + 1 == |Kids(g, f.c)| ==>
            Pending(g, stack) == Pending(g, stack') + {Item(Kids(g, f.c)[f.next], f.c, f.r)})
  {
    hide Kids;
    var f := stack[|stack| - 1];
    assert Visits(Kids(g, f.c), f.c, f.r, |Kids(g, f.c)|) == {};
    if f.next + 1 == |Kids(g, f.c)| {
      VisitsStep(Kids(g, f.c), f.c, f.r, f.next);
    }
  }

  lemma {:induction false} PoppedKeeps(g: Heap, stack: seq<Frame>, boundary: nat)
    requires FramesOk(g, stack) && boundary <= |stack|
    ensures var (stack', x) := Popped(g, stack, boundary);
      && boundary <= |stack'| <= |stack| && stack'[..boundary] == stack[..boundary]
      && FramesOk(g, stack')
      && Pending(g, stack) == Pending(g, stack') + One(x)
      && (x.Some? ==> Work(g, stack') < Work(g, stack))
      && (x.None? ==> stack' == stack[..boundary])
    decreases |stack|
  {
    hide Pending, Work;
    if |stack| > boundary {
      var n := |stack| - 1;
      var f := stack[n];
      assert stack[..n][..boundary] == stack[..boundary];
      if f.next == |Kids(g, f.c)| {
        DroppedKeeps(g, stack);
        PoppedKeeps(g, stack[..n], boundary);
      } else if g[f.c].layout.Fixed? && f.next + 1 == |Kids(g, f.c)| {
        DroppedKeeps(g, stack);
      } else {
        TakenKeeps(g, stack);
        assert stack[n := f.(next := f.next + 1)][..boundary] == stack[..boundary];
      }
    } else {
      assert stack[..boundary] == stack;
    }
  }

  lemma PushedKeeps(g: Heap, stack: seq<Frame>, c: nat, r: Retainer)
    requires FramesOk(g, stack) && c < |g| && WellFormed(g)
    requires g[c].layout.Single? || g[c].layout.Fixed? || g[c].layout.Ptrs? || g[c].layout.Leaf?
    ensures var (stack', d) := Pushed(g, stack, c, r);
      && |stack| <= |stack'| && stack'[..|stack|] == stack
      && FramesOk(g, stack')
      && Pending(g, stack) + Visits(Kids(g, c), c, r, 0)
         == Pending(g, stack') + One(if d.Some? then Some(Item(d.value, c, r)) else None)
      && (d.Some? ==> d.value in Kids(g, c))
  {
    var (stack', d) := Pushed(g, stack, c, r);
    var ds := Kids(g, c);
    assert Visits(ds, c, r, |ds|) == {};
    hide Visits;
    if d.Some? {
      assert d.value == ds[0];
      VisitsStep(ds, c, r, 0);
    }
  }

  // ---------------------------------------------------------------- the visit

  /** The field of x.c after the visit x: its parent's set, a singleton, or one element more. */
  function Visited(g: Heap, rset: seq<RSet>, x: Item, limit: nat): RSet
    requires |rset| == |g| && x.c < |g| && x.cp < |g|
  {
    var s := if g[x.cp].isRetainer then Null else rset[x.cp];
    var was := rset[x.c];
    if was.Null? then (if s.Null? then Singleton(x.r) else s)
    else if IsMember(x.r, was) then was
    else if !s.Null? && Num(s) == Num(was) + 1 then s
    else AddElement(x.r, was, limit)
  }

  /** Whether the visit goes on to the children. */
  predicate Descends(g: Heap, rset: seq<RSet>, x: Item)
    requires |rset| == |g| && x.c < |g|
  {
    rset[x.c].Null? || (!IsMember(x.r, rset[x.c]) && !g[x.c].isRetainer)
  }

  /** The most recent retainer of the children. */
  function Handed(g: Heap, x: Item): Retainer
    requires x.c < |g|
  {
    if g[x.c].isRetainer then g[x.c].tag else x.r
  }

  // ---------------------------------------------------------------- termination

  /** How much the fields can still grow. */
  function Room(rset: seq<RSet>, limit: nat): nat
    requires FieldsOk(rset, limit)
  {
    if rset == [] then 0
    else Room(rset[..|rset| - 1], limit) + (limit + 1 - Weight(rset[|rset| - 1], limit))
  }

  lemma {:induction false} RoomShrinks(rset: seq<RSet>, limit: nat, c: nat, s: RSet)
    requires FieldsOk(rset, limit) && Bounded(s, limit)
    requires c < |rset| && Weight(rset[c], limit) < Weight(s, limit)
    ensures FieldsOk(rset[c := s], limit)
    ensures Room(rset[c := s], limit) < Room(rset, limit)
    decreases |rset|
  {
    var n := |rset| - 1;
    if c == n {
      assert rset[c := s][..n] == rset[..n];
    } else {
      assert rset[c := s][..n] == rset[..n][c := s];
      RoomShrinks(rset[..n], limit, c, s);
    }
  }

  /** A visit either leaves the field as it is or strictly enlarges it, up to rs_MANY. */
  lemma VisitGrows(g: Heap, rset: seq<RSet>, x: Item, limit: nat)
    requires |rset| == |g| && x.c < |g| && x.cp < |g| && limit >= 1 && FieldsOk(rset, limit)
    ensures Bounded(Visited(g, rset, x, limit), limit) && !Visited(g, rset, x, limit).Null?
    ensures Visited(g, rset, x, limit) == rset[x.c] ||
            Weight(rset[x.c], limit) < Weight(Visited(g, rset, x, limit), limit)
    ensures Descends(g, rset, x) ==> Weight(rset[x.c], limit) < Weight(Visited(g, rset, x, limit), limit)
  {
    var was := rset[x.c];
    if !was.Null? && !IsMember(x.r, was) {
      AddGrows(x.r, was, limit);
    }
  }

  // ---------------------------------------------------------------- soundness

  /** More than `limit` retainers are most recent on paths to c. */
  ghost predicate Crowded(g: Heap, roots: seq<nat>, limit: nat, c: nat) {
    exists rs: set<Retainer> :: AllRetain(g, roots, rs, c) && |rs| > limit
  }

  ghost predicate AllRetain(g: Heap, roots: seq<nat>, rs: set<Retainer>, c: nat) {
    forall r <- rs :: Retains(g, roots, r, c)
  }

  /** Every retainer in a field is the most recent one on some path from a root, a field is only
      set for a closure on such a path, and it is rs_MANY only if there are too many. */
  ghost predicate Sound(g: Heap, roots: seq<nat>, rset: seq<RSet>, limit: nat) {
    && |rset| == |g|
    && (forall c, r :: 0 <= c < |g| && rset[c].Fin? && r in rset[c].elems ==> Retains(g, roots, r, c))
    && (forall c :: 0 <= c < |g| && !rset[c].Null? ==> !g[c].layout.Skipped? && exists r :: Retains(g, roots, r, c))
    && (forall c :: 0 <= c < |g| && rset[c].Many? ==> Crowded(g, roots, limit, c))
  }

  ghost predicate FramesSound(g: Heap, roots: seq<nat>, stack: seq<Frame>) {
    forall i :: 0 <= i < |stack| ==> stack[i].c < |g| && Carries(g, roots, stack[i].r, stack[i].c)
  }

  ghost predicate ItemSound(g: Heap, roots: seq<nat>, x: Item) {
    && x.c < |g| && x.cp < |g| && Retains(g, roots, x.r, x.c)
    && (x.c == x.cp || x.c in Kids(g, x.cp))
  }

  lemma VisitSound(g: Heap, roots: seq<nat>, rset: seq<RSet>, x: Item, limit: nat)
    requires WellFormed(g) && Sound(g, roots, rset, limit) && ItemSound(g, roots, x) && !g[x.c].layout.Skipped?
    ensures Sound(g, roots, rset[x.c := Visited(g, rset, x, limit)], limit)
    ensures Carries(g, roots, Handed(g, x), x.c)
  {
    hide Retains, Carries, Crowded;
    RetainsCarries(g, roots, x.r, x.c);
    var v := Visited(g, rset, x, limit);
    if v.Many? {
      VisitCrowded(g, roots, rset, x, limit);
    } else {
      forall r | r in v.elems ensures Retains(g, roots, r, x.c) {
        if r != x.r && !(rset[x.c].Fin? && r in rset[x.c].elems) {
          assert r in rset[x.cp].elems && x.c != x.cp;
          RetainsCarries(g, roots, r, x.cp);
          CarriesRetains(g, roots, r, x.cp, x.c);
        }
      }
    }
  }

  /** A visit makes a set rs_MANY when one more retainer than the limit has been found, or when the
      parent, which hands on all of its retainers, had too many. */
  lemma VisitCrowded(g: Heap, roots: seq<nat>, rset: seq<RSet>, x: Item, limit: nat)
    requires WellFormed(g) && Sound(g, roots, rset, limit) && ItemSound(g, roots, x)
    requires Visited(g, rset, x, limit).Many?
    ensures Crowded(g, roots, limit, x.c)
  {
    hide Retains, Carries;
    var was := rset[x.c];
    if was.Null? {
      var rs: set<Retainer> :| AllRetain(g, roots, rs, x.cp) && |rs| > limit;
      forall r | r in rs ensures Retains(g, roots, r, x.c) {
        RetainsCarries(g, roots, r, x.cp);
        CarriesRetains(g, roots, r, x.cp, x.c);
      }
      assert AllRetain(g, roots, rs, x.c);
    } else if !was.Many? {
      assert AllRetain(g, roots, was.elems + {x.r}, x.c) && |was.elems + {x.r}| == limit + 1;
    }
  }

  lemma PushedSound(g: Heap, roots: seq<nat>, stack: seq<Frame>, c: nat, r: Retainer)
    requires WellFormed(g) && FramesSound(g, roots, stack) && c < |g| && Carries(g, roots, r, c)
    ensures var (stack', d) := Pushed(g, stack, c, r);
      FramesSound(g, roots, stack') && (d.Some? ==> ItemSound(g, roots, Item(d.value, c, r)))
  {
    hide Retains, Carries;
    var (stack', d) := Pushed(g, stack, c, r);
    if d.Some? {
      assert d.value in Kids(g, c);
      CarriesRetains(g, roots, r, c, d.value);
    }
  }

  lemma {:induction false} PoppedSound(g: Heap, roots: seq<nat>, stack: seq<Frame>, boundary: nat)
    requires WellFormed(g) && FramesOk(g, stack) && FramesSound(g, roots, stack)
    ensures var (stack', x) := Popped(g, stack, boundary);
      FramesSound(g, roots, stack') && (x.Some? ==> ItemSound(g, roots, x.value))
    decreases |stack|
  {
    hide Retains, Carries;
    if |stack| > boundary {
      var n := |stack| - 1;
      var f := stack[n];
      if f.next == |Kids(g, f.c)| {
        PoppedSound(g, roots, stack[..n], boundary);
      } else {
        assert Kids(g, f.c)[f.next] in Kids(g, f.c);
        CarriesRetains(g, roots, f.r, f.c, Kids(g, f.c)[f.next]);
      }
    }
  }

  // ---------------------------------------------------------------- coverage

  predicate Done(g: Heap, rset: seq<RSet>, d: nat)
    requires |rset| == |g|
  {
    d < |g| && (!rset[d].Null? || g[d].layout.Skipped?)
  }

  /** Each child of a visited closure has been visited too, or is the subject of a visit to come,
      or is owed by a caller. */
  ghost predicate Covered(g: Heap, rset: seq<RSet>, items: set<Item>, owed: set<nat>)
    requires |rset| == |g|
  {
    forall c, d :: 0 <= c < |g| && !rset[c].Null? && d in Kids(g, c) ==>
      Done(g, rset, d) || d in owed || exists x :: x in items && x.c == d
  }

  function Members(s: seq<nat>): set<nat> {
    set d | d in s
  }

  lemma VisitCovers(g: Heap, rset: seq<RSet>, items: set<Item>, owed: set<nat>, x: Item, limit: nat)
    requires |rset| == |g| && x.c < |g| && x.cp < |g| && limit >= 1 && FieldsOk(rset, limit)
    requires Covered(g, rset, items + {x}, owed)
    ensures var rset' := rset[x.c := Visited(g, rset, x, limit)];
      && Done(g, rset', x.c)
      && (!Descends(g, rset, x) ==> Covered(g, rset', items, owed))
      && Covered(g, rset', items, owed + Members(Kids(g, x.c)))
      && Covered(g, rset', items + Visits(Kids(g, x.c), x.c, Handed(g, x), 0), owed)
  {
    VisitGrows(g, rset, x, limit);
    var rset' := rset[x.c := Visited(g, rset, x, limit)];
    var more := Visits(Kids(g, x.c), x.c, Handed(g, x), 0);
    forall d | d in Kids(g, x.c) ensures exists y :: y in more && y.c == d {
      var i :| 0 <= i < |Kids(g, x.c)| && Kids(g, x.c)[i] == d;
      assert Item(d, x.c, Handed(g, x)) in more;
    }
  }

  /** When nothing is left to visit, every closure on a path from a root has its field set. */
  lemma {:induction false} PathsAreVisited(g: Heap, roots: seq<nat>, rset: seq<RSet>, p: seq<nat>)
    requires |rset| == |g| && WellFormed(g) && Covered(g, rset, {}, {})
    requires forall c <- roots :: Done(g, rset, c)
    requires Path(g, roots, p)
    ensures Done(g, rset, Last(p))
    decreases |p|
  {
    if |p| > 1 {
      PathsAreVisited(g, roots, rset, Init(p));
    }
  }
}
