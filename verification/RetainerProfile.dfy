/** The retainer profiling engine (rts/RetainerProfile.c): one traverse stack shared by all
    recursive invocations, and a retainer-set field in every closure. */
module RetainerProfile {
  import opened Options

  import opened Retainers
  import opened RetainerGraph
  import opened RetainerInvariants
  import opened RetainerExactness

  /** The state in which no path is taken through recursion, so that a rank exists and the traverse
      stack describes everything still to be done. */
  ghost predicate Exact(g: Heap, rset: seq<RSet>, stack: seq<Frame>, x: Option<Item>, rank: nat -> nat) {
    && |rset| == |g| && WellFormed(g) && StackOnly(g) && Ranked(g, rank) && FramesOk(g, stack)
    && Chain(rank, stack) && (x.Some? ==> Below(rank, stack, x.value))
    && (Saturated(rset) || Flow(g, rset, Pending(g, stack) + One(x)))
  }

  /** Fields only gain members, unless something saturates. */
  ghost predicate Gained(before: seq<RSet>, after: seq<RSet>) {
    && |before| == |after|
    && (Saturated(after) ||
         (!Saturated(before) && forall c, r :: 0 <= c < |before| && IsMember(r, before[c]) ==> IsMember(r, after[c])))
  }

  /** The engine's variables: every closure's field, the traverse stack, the boundary of the current
      chunk, and (for the proof) how often each closure's children were scanned. */
  datatype State = State(rset: seq<RSet>, stack: seq<Frame>, boundary: nat, scans: seq<nat>)

  /** Visited closures stay visited. */
  ghost predicate Kept(before: seq<RSet>, after: seq<RSet>) {
    |before| == |after| && forall c :: 0 <= c < |before| && !before[c].Null? ==> !after[c].Null?
  }

  /** Scans of a closure's children are paid for by growth of its field; a retainer's children are
      scanned at most once. */
  ghost predicate ScansPaid(g: Heap, rset: seq<RSet>, scans: seq<nat>, limit: nat) {
    && |scans| == |rset| == |g|
    && forall c :: 0 <= c < |g| ==>
         scans[c] <= Weight(rset[c], limit) && (g[c].isRetainer && !rset[c].Null? ==> scans[c] <= 1)
  }

  lemma VisitScans(g: Heap, rset: seq<RSet>, scans: seq<nat>, x: Item, limit: nat)
    requires x.c < |g| && x.cp < |g| && limit >= 1 && FieldsOk(rset, limit) && ScansPaid(g, rset, scans, limit)
    ensures var scans' := if Descends(g, rset, x) then scans[x.c := scans[x.c] + 1] else scans;
      ScansPaid(g, rset[x.c := Visited(g, rset, x, limit)], scans', limit)
  {
    VisitGrows(g, rset, x, limit);
    hide Visited;
  }

  lemma VisitRoom(g: Heap, rset: seq<RSet>, x: Item, limit: nat)
    requires |rset| == |g| && x.c < |g| && x.cp < |g| && limit >= 1 && FieldsOk(rset, limit)
    ensures var rset' := rset[x.c := Visited(g, rset, x, limit)];
      FieldsOk(rset', limit) && Room(rset', limit) <= Room(rset, limit)
      && (Descends(g, rset, x) ==> Room(rset', limit) < Room(rset, limit))
  {
    hide Room, Visited;
    VisitGrows(g, rset, x, limit);
    if Visited(g, rset, x, limit) != rset[x.c] {
      RoomShrinks(rset, limit, x.c, Visited(g, rset, x, limit));
    } else {
      assert rset[x.c := Visited(g, rset, x, limit)] == rset;
    }
  }

  ghost predicate StateOk(g: Heap, limit: nat, roots: seq<nat>, s: State) {
    && WellFormed(g) && limit >= 1 && |s.rset| == |s.scans| == |g| && FieldsOk(s.rset, limit)
    && FramesOk(g, s.stack) && s.boundary <= |s.stack|
    && Sound(g, roots, s.rset, limit) && FramesSound(g, roots, s.stack)
    && ScansPaid(g, s.rset, s.scans, limit)
  }

  /** What the start of a piece of work needs: the visit x is genuine, and all children that remain
      to be visited are on the stack, are x's, or are owed by the callers. */
  ghost predicate Ready(g: Heap, limit: nat, roots: seq<nat>, s: State, x: Option<Item>, owed: set<nat>) {
    && StateOk(g, limit, roots, s)
    && (x.Some? ==> ItemSound(g, roots, x.value))
    && Covered(g, s.rset, Pending(g, s.stack) + One(x), owed)
  }

  function Fuel(s: State, limit: nat): nat {
    if FieldsOk(s.rset, limit) then Room(s.rset, limit) else 0
  }

  /** What all work keeps. */
  ghost predicate Progress(limit: nat, s: State, t: State) {
    && t.boundary == s.boundary <= |s.stack| && s.boundary <= |t.stack|
    && t.stack[..s.boundary] == s.stack[..s.boundary]
    && Fuel(t, limit) <= Fuel(s, limit) && Kept(s.rset, t.rset)
  }

  lemma ProgressFuel(limit: nat, s: State, t: State)
    requires Progress(limit, s, t)
    ensures Fuel(t, limit) <= Fuel(s, limit)
  {
  }

  lemma ProgressOn(limit: nat, s: State, t: State, u: State)
    requires Progress(limit, s, t) && Progress(limit, t, u)
    ensures Progress(limit, s, u)
  {
    hide Fuel;
  }

  function AfterVisit(g: Heap, limit: nat, s: State, x: Item): State
    requires |s.rset| == |s.scans| == |g| && x.c < |g| && x.cp < |g|
  {
    s.(rset := s.rset[x.c := Visited(g, s.rset, x, limit)],
       scans := if Descends(g, s.rset, x) then s.scans[x.c := s.scans[x.c] + 1] else s.scans)
  }

  lemma VisitOk(g: Heap, limit: nat, roots: seq<nat>, s: State, x: Item)
    requires StateOk(g, limit, roots, s) && ItemSound(g, roots, x) && !g[x.c].layout.Skipped?
    ensures var s' := AfterVisit(g, limit, s, x);
      && StateOk(g, limit, roots, s') && Progress(limit, s, s') && Carries(g, roots, Handed(g, x), x.c)
      && (Descends(g, s.rset, x) ==> Fuel(s', limit) < Fuel(s, limit))
  {
    hide Sound, FramesSound, ScansPaid, Retains, Carries, Room, Visited, Descends;
    hide WellFormed, FramesOk, FieldsOk, Kids, Bounded, Weight;
    VisitGrows(g, s.rset, x, limit);
    VisitSound(g, roots, s.rset, x, limit);
    VisitScans(g, s.rset, s.scans, x, limit);
    VisitRoom(g, s.rset, x, limit);
  }

  /** After a visit: either nothing more is to be done for it, or all its children are. */
  lemma VisitReady(g: Heap, limit: nat, roots: seq<nat>, s: State, x: Item, owed: set<nat>)
    requires Ready(g, limit, roots, s, Some(x), owed) && !g[x.c].layout.Skipped?
    ensures var s' := AfterVisit(g, limit, s, x);
      && Done(g, s'.rset, x.c)
      && (!Descends(g, s.rset, x) ==> Ready(g, limit, roots, s', None, owed))
      && Ready(g, limit, roots, s', None, owed + Members(Kids(g, x.c)))
      && Covered(g, s'.rset, Pending(g, s'.stack) + Visits(Kids(g, x.c), x.c, Handed(g, x), 0), owed)
  {
    VisitOk(g, limit, roots, s, x);
    VisitCovers(g, s.rset, Pending(g, s.stack), owed, x, limit);
    hide Sound, FramesSound, ScansPaid, ItemSound, Visited, Descends, Covered, Pending, Progress;
    assert Pending(g, s.stack) + One(None) == Pending(g, s.stack);
  }

  lemma SkipReady(g: Heap, limit: nat, roots: seq<nat>, s: State, x: Item, owed: set<nat>)
    requires Ready(g, limit, roots, s, Some(x), owed) && g[x.c].layout.Skipped?
    ensures Ready(g, limit, roots, s, None, owed) && Done(g, s.rset, x.c)
  {
    hide Sound, FramesSound, ScansPaid, Pending;
  }

  lemma PushReady(g: Heap, limit: nat, roots: seq<nat>, s: State, c: nat, r: Retainer, owed: set<nat>)
    requires StateOk(g, limit, roots, s) && c < |g| && Carries(g, roots, r, c)
    requires Covered(g, s.rset, Pending(g, s.stack) + Visits(Kids(g, c), c, r, 0), owed)
    requires g[c].layout.Single? || g[c].layout.Fixed? || g[c].layout.Ptrs? || g[c].layout.Leaf?
    ensures var (stack', d) := Pushed(g, s.stack, c, r);
      var s' := s.(stack := stack');
      && Progress(limit, s, s')
      && Ready(g, limit, roots, s', if d.Some? then Some(Item(d.value, c, r)) else None, owed)
  {
    hide Pushed, Sound, FramesSound, ItemSound, ScansPaid, Covered, Pending, Visits;
    PushedKeeps(g, s.stack, c, r);
    PushedSound(g, roots, s.stack, c, r);
    var (stack', d) := Pushed(g, s.stack, c, r);
    assert stack'[..|s.stack|][..s.boundary] == stack'[..s.boundary];
  }

  /** What is left to do before the stack is down to the boundary. */
  function TotalWork(g: Heap, stack: seq<Frame>, visiting: bool): nat {
    if !visiting then 0 else if FramesOk(g, stack) then Work(g, stack) + 1 else 1
  }

  lemma PopReady(g: Heap, limit: nat, roots: seq<nat>, s: State, owed: set<nat>)
    requires Ready(g, limit, roots, s, None, owed)
    ensures var (stack', x) := Popped(g, s.stack, s.boundary);
      var s' := s.(stack := stack');
      && Progress(limit, s, s') && Ready(g, limit, roots, s', x, owed)
      && (x.None? ==> |stack'| == s.boundary)
      && TotalWork(g, stack', x.Some?) < TotalWork(g, s.stack, true)
  {
    hide Popped, Sound, FramesSound, ItemSound, ScansPaid, Covered, Pending, Work;
    PoppedKeeps(g, s.stack, s.boundary);
    PoppedSound(g, roots, s.stack, s.boundary);
    assert Pending(g, s.stack) + One(None) == Pending(g, s.stack);
  }

  lemma ChildCovered(g: Heap, rset: seq<RSet>, items: set<Item>, owed: set<nat>, ds: seq<nat>, k: nat, x: Item)
    requires k < |ds| && x.c == ds[k] && |rset| == |g| && Covered(g, rset, items + One(None), owed + Members(ds[k..]))
    ensures Covered(g, rset, items + One(Some(x)), owed + Members(ds[k + 1..]))
  {
    hide Done, Kids;
    assert ds[k..] == [ds[k]] + ds[k + 1..];
    assert x in items + One(Some(x));
  }

  /** The next of the children owed becomes the visit to be made. */
  lemma ChildReady(g: Heap, limit: nat, roots: seq<nat>, s: State, c: nat, r: Retainer, ds: seq<nat>, k: nat,
                   owed: set<nat>)
    requires k < |ds| && Ready(g, limit, roots, s, None, owed + Members(ds[k..]))
    requires c < |g| && Carries(g, roots, r, c) && ds[k] in Kids(g, c)
    ensures Ready(g, limit, roots, s, Some(Item(ds[k], c, r)), owed + Members(ds[k + 1..]))
  {
    hide Sound, FramesSound, ScansPaid, Pending, Covered, Members, One, Bounded, FieldsOk;
    CarriesRetains(g, roots, r, c, ds[k]);
    ChildCovered(g, s.rset, Pending(g, s.stack), owed, ds, k, Item(ds[k], c, r));
  }

  lemma ReadyProgress(g: Heap, limit: nat, roots: seq<nat>, s: State, x: Option<Item>, owed: set<nat>)
    requires Ready(g, limit, roots, s, x, owed)
    ensures Progress(limit, s, s)
  {
  }

  lemma AllOwed(ds: seq<nat>, owed: set<nat>)
    ensures ds[0..] == ds && owed + Members(ds[|ds|..]) == owed
  {
  }

  /** A stack chunk starts with the boundary at the top and ends with the old one. */
  lemma ChunkReady(g: Heap, limit: nat, roots: seq<nat>, s: State, boundary: nat, x: Option<Item>, owed: set<nat>)
    requires Ready(g, limit, roots, s, x, owed) && boundary <= |s.stack|
    ensures Ready(g, limit, roots, s.(boundary := boundary), x, owed)
  {
    hide Sound, FramesSound, ScansPaid, Pending, Covered, ItemSound;
  }

  /** The visits to c's children can be taken over by the traverse stack. */
  ghost predicate Pushable(g: Heap, s: State, c: nat, r: Retainer, owed: set<nat>) {
    && FramesOk(g, s.stack) && |s.rset| == |g| && c < |g|
    && Covered(g, s.rset, Pending(g, s.stack) + Visits(Kids(g, c), c, r, 0), owed)
  }

  /** The visit x has been made: its closure has a set, which has the retainer unless it saturated. */
  ghost predicate Arrived(g: Heap, rset: seq<RSet>, x: Item, exact: bool) {
    && |rset| == |g| && Done(g, rset, x.c)
    && (exact && !Saturated(rset) && !g[x.c].layout.Skipped? ==> IsMember(x.r, rset[x.c]))
  }

  /** One more round of work after t, starting with the visit x1, keeps what was achieved for x0. */
  lemma GainedOn(g: Heap, limit: nat, s: State, t: State, u: State, x0: Item, x1: Item, exact: bool)
    requires Progress(limit, s, t) && Progress(limit, t, u) && |t.rset| == |u.rset| == |g|
    requires x1 == x0 || Arrived(g, t.rset, x0, exact)
    requires Arrived(g, u.rset, x1, exact)
    requires exact ==> Gained(s.rset, t.rset) && Gained(t.rset, u.rset)
    ensures Arrived(g, u.rset, x0, exact)
    ensures exact ==> Gained(s.rset, u.rset)
  {
    hide Fuel;
  }

  lemma FuelIsOfFields(s: State, t: State, limit: nat)
    requires s.rset == t.rset
    ensures Fuel(s, limit) == Fuel(t, limit)
  {
  }

  /** A chunk leaves the traverse stack as it found it. */
  lemma ChunkDone(limit: nat, s: State, t: State, u: State, boundary: nat)
    requires t == s.(boundary := |s.stack|) && Progress(limit, t, u)
    requires |u.stack| == u.boundary || u.stack == t.stack
    requires boundary == s.boundary <= |s.stack|
    ensures u.stack == s.stack
    ensures Progress(limit, s, u.(boundary := boundary))
  {
    FuelIsOfFields(s, t, limit);
    FuelIsOfFields(u, u.(boundary := boundary), limit);
    hide Fuel;
    assert u.stack[..|s.stack|] == s.stack[..|s.stack|];
  }

  // The exact runs.

  lemma ExactSkip(g: Heap, rset: seq<RSet>, stack: seq<Frame>, x: Item, rank: nat -> nat)
    requires Exact(g, rset, stack, Some(x), rank) && x.c < |g| && g[x.c].layout.Skipped?
    ensures Exact(g, rset, stack, None, rank)
  {
  }

  lemma ExactVisit(g: Heap, rset: seq<RSet>, stack: seq<Frame>, x: Item, limit: nat, rank: nat -> nat)
    requires Exact(g, rset, stack, Some(x), rank) && limit >= 1 && FieldsOk(rset, limit)
    requires x.c < |g| && x.cp < |g| && (x.c == x.cp || x.c in Kids(g, x.cp)) && !g[x.c].layout.Skipped?
    ensures var rset' := rset[x.c := Visited(g, rset, x, limit)];
      && Gained(rset, rset') && (Saturated(rset') || IsMember(x.r, rset'[x.c]))
      && (!Descends(g, rset, x) ==> Exact(g, rset', stack, None, rank))
      && (Saturated(rset') || Flow(g, rset', Pending(g, stack) + Visits(Kids(g, x.c), x.c, Handed(g, x), 0)))
  {
    var rset' := rset[x.c := Visited(g, rset, x, limit)];
    if Saturated(rset) {
      SaturatedStays(g, rset, x, limit);
    } else {
      VisitFlows(g, rset, stack, x, limit, rank);
      VisitAddsOne(g, rset, stack, x, limit, rank);
      assert Visited(g, rset, x, limit).Many? ==> rset'[x.c].Many?;
      hide Flow, Visited, Descends, Below, Chain, Pending, Visits, Ranked, WellFormed, StackOnly;
      assert Pending(g, stack) + One(None) == Pending(g, stack);
    }
  }

  lemma ExactPush(g: Heap, rset: seq<RSet>, stack: seq<Frame>, x: Item, limit: nat, rank: nat -> nat)
    requires Exact(g, rset, stack, Some(x), rank) && limit >= 1 && FieldsOk(rset, limit)
    requires x.c < |g| && x.cp < |g| && (x.c == x.cp || x.c in Kids(g, x.cp)) && !g[x.c].layout.Skipped?
    ensures var rset' := rset[x.c := Visited(g, rset, x, limit)];
      ExactAfterPush(g, rset', stack, x.c, Handed(g, x), rank)
  {
    ExactVisit(g, rset, stack, x, limit, rank);
    PushedChain(g, rank, stack, x);
    PushedKeeps(g, stack, x.c, Handed(g, x));
    hide Flow, Visited, Descends, Handed, Pushed, Below, Chain, Pending, Visits, Ranked;
  }

  ghost predicate ExactAfterPush(g: Heap, rset: seq<RSet>, stack: seq<Frame>, c: nat, r: Retainer, rank: nat -> nat)
    requires c < |g|
  {
    && WellFormed(g) && StackOnly(g)
    && var (stack', d) := Pushed(g, stack, c, r);
       Exact(g, rset, stack', if d.Some? then Some(Item(d.value, c, r)) else None, rank)
  }

  lemma ExactPop(g: Heap, rset: seq<RSet>, stack: seq<Frame>, boundary: nat, rank: nat -> nat)
    requires Exact(g, rset, stack, None, rank) && boundary <= |stack|
    ensures var (stack', x) := Popped(g, stack, boundary); Exact(g, rset, stack', x, rank)
  {
    PoppedChain(g, rank, stack, boundary);
    PoppedKeeps(g, stack, boundary);
    hide Flow, Popped, Below, Chain, Pending, Ranked;
    assert Pending(g, stack) + One(None) == Pending(g, stack);
  }

  // What one round of retainClosure() relies on.

  lemma ReadyShape(g: Heap, limit: nat, roots: seq<nat>, s: State, y: Item, owed: set<nat>)
    requires Ready(g, limit, roots, s, Some(y), owed)
    ensures |s.rset| == |s.scans| == |g| && y.c < |g| && y.cp < |g|
    ensures Progress(limit, s, s) && Gained(s.rset, s.rset)
  {
  }

  lemma SkipFacts(g: Heap, limit: nat, roots: seq<nat>, s: State, y: Item, owed: set<nat>,
                  exact: bool, rank: nat -> nat)
    requires Ready(g, limit, roots, s, Some(y), owed) && g[y.c].layout.Skipped?
    requires exact ==> Exact(g, s.rset, s.stack, Some(y), rank)
    ensures Ready(g, limit, roots, s, None, owed) && Arrived(g, s.rset, y, exact)
    ensures exact ==> Exact(g, s.rset, s.stack, None, rank)
  {
    SkipReady(g, limit, roots, s, y, owed);
    if exact {
      ExactSkip(g, s.rset, s.stack, y, rank);
    }
  }

  lemma VisitFacts(g: Heap, limit: nat, roots: seq<nat>, s: State, y: Item, owed: set<nat>,
                   exact: bool, rank: nat -> nat)
    requires Ready(g, limit, roots, s, Some(y), owed) && !g[y.c].layout.Skipped?
    requires exact ==> Exact(g, s.rset, s.stack, Some(y), rank)
    ensures var t := AfterVisit(g, limit, s, y);
      && t.stack == s.stack && t.boundary == s.boundary
      && Progress(limit, s, t) && Arrived(g, t.rset, y, exact) && Carries(g, roots, Handed(g, y), y.c)
      && (exact ==> Gained(s.rset, t.rset))
      && (if Descends(g, s.rset, y) then
            && Fuel(t, limit) < Fuel(s, limit)
            && Ready(g, limit, roots, t, None, owed + Members(Kids(g, y.c)))
            && Pushable(g, t, y.c, Handed(g, y), owed)
            && (exact ==> ExactAfterPush(g, t.rset, t.stack, y.c, Handed(g, y), rank))
          else
            && Ready(g, limit, roots, t, None, owed)
            && (exact ==> Exact(g, t.rset, t.stack, None, rank)))
  {
    VisitReady(g, limit, roots, s, y, owed);
    VisitOk(g, limit, roots, s, y);
    if exact {
      ExactVisit(g, s.rset, s.stack, y, limit, rank);
      ExactPush(g, s.rset, s.stack, y, limit, rank);
    }
    hide Sound, FramesSound, ScansPaid, ItemSound, Covered, Pending, Visits, Progress, Carries, Handed, Exact, ExactAfterPush;
    hide Gained, Descends, Visited, Flow;
  }

  lemma DescendFacts(g: Heap, limit: nat, roots: seq<nat>, s: State, c: nat, r: Retainer, owed: set<nat>,
                     exact: bool, rank: nat -> nat)
    requires c < |g| && Carries(g, roots, r, c) && !g[c].layout.Skipped?
    requires Ready(g, limit, roots, s, None, owed + Members(Kids(g, c)))
    requires Pushable(g, s, c, r, owed)
    requires exact ==> ExactAfterPush(g, s.rset, s.stack, c, r, rank)
    ensures WellFormed(g)
    ensures g[c].layout.Direct? || g[c].layout.Chunk? || g[c].layout.ApStack? ==> !exact
    ensures g[c].layout.ApStack? ==>
              Ready(g, limit, roots, s, Some(Item(g[c].layout.fun, c, r)), owed + Members(g[c].layout.children))
    ensures g[c].layout.Single? || g[c].layout.Fixed? || g[c].layout.Ptrs? || g[c].layout.Leaf? ==>
              var (stack', d) := Pushed(g, s.stack, c, r);
              var s' := s.(stack := stack');
              var x := if d.Some? then Some(Item(d.value, c, r)) else None;
              && Progress(limit, s, s') && Ready(g, limit, roots, s', x, owed)
              && (exact ==> Exact(g, s.rset, stack', x, rank))
  {
    if g[c].layout.ApStack? {
      var ds := Kids(g, c);
      assert ds[0..] == ds && ds[1..] == g[c].layout.children;
      ChildReady(g, limit, roots, s, c, r, ds, 0, owed);
    } else if !g[c].layout.Direct? && !g[c].layout.Chunk? {
      PushReady(g, limit, roots, s, c, r, owed);
    }
    hide Ready, Progress, Exact, Carries, Pushed, Covered, Pending, Visits;
  }

  function FreshState(g: Heap): State {
    State(seq(|g|, _ => Null), [], 0, seq(|g|, _ => 0))
  }

  function RootItem(g: Heap, c: nat): Item
    requires c < |g|
  {
    Item(c, c, RootTag(g, c))
  }

  lemma FreshReady(g: Heap, limit: nat, roots: seq<nat>, exact: bool, rank: nat -> nat)
    requires WellFormed(g) && limit >= 1
    requires exact ==> StackOnly(g) && Ranked(g, rank)
    ensures Ready(g, limit, roots, FreshState(g), None, {})
    ensures exact ==> Exact(g, FreshState(g).rset, [], None, rank)
  {
  }

  lemma RootReady(g: Heap, limit: nat, roots: seq<nat>, s: State, c: nat, exact: bool, rank: nat -> nat)
    requires c in roots && c < |g| && s.stack == [] && Ready(g, limit, roots, s, None, {})
    requires exact ==> Exact(g, s.rset, s.stack, None, rank)
    ensures Ready(g, limit, roots, s.(boundary := 0), Some(RootItem(g, c)), {})
    ensures exact ==> Exact(g, s.rset, s.stack, Some(RootItem(g, c)), rank)
  {
    RootRetains(g, roots, c);
    hide Sound, FramesSound, ScansPaid, Retains;
  }

  lemma ArrivedStays(g: Heap, before: seq<RSet>, after: seq<RSet>, x: Item, exact: bool)
    requires Arrived(g, before, x, exact) && Kept(before, after)
    requires exact ==> Gained(before, after)
    ensures Arrived(g, after, x, exact)
  {
  }

  lemma AtTheEnd(g: Heap, limit: nat, roots: seq<nat>, s: State, exact: bool, rank: nat -> nat)
    requires s.stack == [] && Ready(g, limit, roots, s, None, {})
    requires exact ==> Exact(g, s.rset, s.stack, None, rank)
    requires forall c <- roots :: c < |g| && Arrived(g, s.rset, RootItem(g, c), exact)
    ensures |s.rset| == |s.scans| == |g|
    ensures forall c :: 0 <= c < |g| && !g[c].layout.Skipped? ==>
              (!s.rset[c].Null? <==> exists r :: Retains(g, roots, r, c))
    ensures forall c, r :: 0 <= c < |g| && r in Elems(s.rset[c]) ==> Retains(g, roots, r, c)
    ensures forall c :: 0 <= c < |g| && s.rset[c].Many? ==> Crowded(g, roots, limit, c)
    ensures forall c :: 0 <= c < |g| ==> s.scans[c] <= limit + 1
    ensures exact ==> (Saturated(s.rset) <==> exists c :: 0 <= c < |g| && !g[c].layout.Skipped? && Crowded(g, roots, limit, c))
    ensures exact && !Saturated(s.rset) ==>
              forall c, r :: 0 <= c < |g| && !g[c].layout.Skipped? ==>
                (r in Elems(s.rset[c]) <==> Retains(g, roots, r, c))
  {
    hide Crowded;
    assert forall c <- roots :: Done(g, s.rset, c);
    forall c, r | 0 <= c < |g| && Retains(g, roots, r, c) ensures Done(g, s.rset, c) {
      var p :| Path(g, roots, p) && Last(p) == c && MostRecent(g, roots, p) == r;
      PathsAreVisited(g, roots, s.rset, p);
    }
    if exact {
      if !Saturated(s.rset) {
        forall c, r | 0 <= c < |g| && !g[c].layout.Skipped?
          ensures r in Elems(s.rset[c]) <==> Retains(g, roots, r, c)
        {
          ExactSets(g, roots, s.rset, limit, c, r);
        }
      }
      SaturatedMeans(g, roots, s.rset, limit);
    }
  }

  lemma ArrivedOn(g: Heap, limit: nat, s: State, t: State, u: State, y: Item, exact: bool)
    requires Arrived(g, t.rset, y, exact) && Progress(limit, t, u)
    requires exact ==> u.rset == t.rset
    ensures Arrived(g, u.rset, y, exact)
    ensures exact && Gained(s.rset, t.rset) ==> Gained(s.rset, u.rset)
  {
    hide Fuel;
  }

  class Engine {
    const g: Heap
    const limit: nat
    const roots: seq<nat>
    var rset: seq<RSet>
    var stack: seq<Frame>
    var boundary: nat
    ghost var scans: seq<nat>

    ghost function S(): State
      reads this
    {
      State(rset, stack, boundary, scans)
    }

    /** push() */
    method Push(c: nat, r: Retainer) returns (first: Option<nat>)
      requires WellFormed(g) && c < |g|
      modifies this
      ensures (stack, first) == Pushed(g, old(stack), c, r)
      ensures rset == old(rset) && boundary == old(boundary) && scans == old(scans)
    {
      match g[c].layout {
        case Single(d) =>
          return Some(d);
        case Fixed(ds) =>
          first := Some(ds[0]);
        case Ptrs(ds) =>
          if ds == [] {
            return None;
          }
          first := Some(ds[0]);
        case _ =>
          return None;
      }
      stack := stack + [Frame(c, r, 1)];
    }

    predicate IsOnBoundary()
      reads this
    {
      |stack| <= boundary
    }

    /** pop(): used-up elements are dropped until a child is found or the boundary is reached. */
    method Pop() returns (x: Option<Item>)
      requires WellFormed(g) && FramesOk(g, stack)
      modifies this
      ensures (stack, x) == Popped(g, old(stack), boundary)
      ensures rset == old(rset) && boundary == old(boundary) && scans == old(scans)
    {
      while true
        invariant FramesOk(g, stack)
        invariant Popped(g, stack, boundary) == Popped(g, old(stack), boundary)
        invariant rset == old(rset) && boundary == old(boundary) && scans == old(scans)
        decreases |stack|
      {
        if IsOnBoundary() {
          return None;
        }
        var n := |stack| - 1;
        var f := stack[n];
        var ds := Children(g[f.c].layout);
        if g[f.c].layout.Fixed? {
          if f.next + 1 < |ds| {
            stack := stack[n := f.(next := f.next + 1)];
          } else {
            stack := stack[..n];
          }
          return Some(Item(ds[f.next], f.c, f.r));
        } else if f.next < |ds| {
          stack := stack[n := f.(next := f.next + 1)];
          return Some(Item(ds[f.next], f.c, f.r));
        }
        stack := stack[..n];
      }
    }

    /** The part of retainClosure() that brings the field of x.c up to date; it says whether the
        children are to be visited, and with which most recent retainer. */
    method Visit(x: Item) returns (descend: bool, handed: Retainer)
      requires |rset| == |scans| == |g| && x.c < |g| && x.cp < |g|
      modifies this
      ensures S() == AfterVisit(g, limit, old(S()), x)
      ensures descend == Descends(g, old(rset), x) && handed == Handed(g, x)
    {
      var s := if g[x.cp].isRetainer then Null else rset[x.cp];
      var was := rset[x.c];
      handed := if g[x.c].isRetainer then g[x.c].tag else x.r;
      if was.Null? {
        rset := rset[x.c := if s.Null? then Singleton(x.r) else s];
        descend := true;
      } else if IsMember(x.r, was) {
        descend := false;
      } else {
        if !s.Null? && Num(s) == Num(was) + 1 {
          rset := rset[x.c := s];
        } else {
          rset := rset[x.c := AddElement(x.r, was, limit)];
        }
        descend := !g[x.c].isRetainer;
      }
      if descend {
        scans := scans[x.c := scans[x.c] + 1];
      }
    }

    /** pop(), when everything above has been dealt with. */
    method Next(ghost owed: set<nat>, ghost exact: bool, ghost rank: nat -> nat) returns (x: Option<Item>)
      requires Ready(g, limit, roots, S(), None, owed)
      requires exact ==> Exact(g, rset, stack, None, rank)
      modifies this
      ensures Ready(g, limit, roots, S(), x, owed) && Progress(limit, old(S()), S()) && rset == old(rset)
      ensures x.None? ==> |stack| == boundary
      ensures TotalWork(g, stack, x.Some?) < TotalWork(g, old(stack), true)
      ensures exact ==> Exact(g, rset, stack, x, rank)
    {
      assert FramesOk(g, stack) && boundary <= |stack| && WellFormed(g);
      PopReady(g, limit, roots, S(), owed);
      if exact {
        ExactPop(g, rset, stack, boundary, rank);
      }
      hide Ready, Progress, Popped, Work, Exact, FramesOk, Pending, TotalWork;
      x := Pop();
    }

    /** Each of the children ds of the visited closure c is the start of a recursive invocation. */
    method RetainAll(c: nat, r: Retainer, ds: seq<nat>, ghost owed: set<nat>)
      requires Ready(g, limit, roots, S(), None, owed + Members(ds))
      requires c < |g| && Carries(g, roots, r, c) && forall d <- ds :: d in Kids(g, c)
      modifies this
      ensures Ready(g, limit, roots, S(), None, owed) && Progress(limit, old(S()), S())
      ensures |stack| == boundary || stack == old(stack)
      decreases Fuel(S(), limit), 3
    {
      hide Ready, Progress, Fuel, Carries, Kids, Members, Exact, Gained, Arrived;
      ghost var s := S();
      ReadyProgress(g, limit, roots, s, None, owed + Members(ds));
      AllOwed(ds, owed);
      var k := 0;
      while k < |ds|
        invariant k <= |ds|
        invariant Ready(g, limit, roots, S(), None, owed + Members(ds[k..]))
        invariant Progress(limit, s, S())
        invariant |stack| == boundary || stack == old(stack)
      {
        ghost var t := S();
        ChildReady(g, limit, roots, t, c, r, ds, k, owed);
        ProgressFuel(limit, s, t);
        RetainClosure(Item(ds[k], c, r), owed + Members(ds[k + 1..]), false, _ => 0);
        ProgressOn(limit, s, t, S());
        k := k + 1;
      }
    }

    /** retainStack(): the children of a stack chunk, in a traverse stack of its own. */
    method RetainStack(c: nat, r: Retainer, ds: seq<nat>, ghost owed: set<nat>)
      requires Ready(g, limit, roots, S(), None, owed + Members(ds))
      requires c < |g| && Carries(g, roots, r, c) && forall d <- ds :: d in Kids(g, c)
      modifies this
      ensures Ready(g, limit, roots, S(), None, owed) && Progress(limit, old(S()), S()) && stack == old(stack)
      decreases Fuel(S(), limit), 4
    {
      ghost var s := S();
      assert boundary <= |stack|;
      ChunkReady(g, limit, roots, s, |stack|, None, owed + Members(ds));
      hide Ready, Progress, Carries, Kids, Fuel;
      var oldBoundary := boundary;
      boundary := |stack|;
      ghost var t := S();
      assert Fuel(t, limit) == Fuel(s, limit) by { FuelIsOfFields(s, t, limit); }
      RetainAll(c, r, ds, owed);
      ChunkDone(limit, s, t, S(), oldBoundary);
      ChunkReady(g, limit, roots, S(), oldBoundary, None, owed);
      boundary := oldBoundary;
    }

    /** retainClosure(): computes the sets of x0.c and of everything not yet covered below it, and
        empties the traverse stack down to the boundary. `owed` are the children that the callers
        will still visit; in `exact` runs there is no recursion. */
    method RetainClosure(x0: Item, ghost owed: set<nat>, ghost exact: bool, ghost rank: nat -> nat)
      requires Ready(g, limit, roots, S(), Some(x0), owed)
      requires exact ==> Exact(g, rset, stack, Some(x0), rank)
      modifies this
      ensures Ready(g, limit, roots, S(), None, owed) && Progress(limit, old(S()), S()) && |stack| == boundary
      ensures Arrived(g, rset, x0, exact)
      ensures exact ==> Exact(g, rset, stack, None, rank) && Gained(old(rset), rset)
      decreases Fuel(S(), limit), 2
    {
      ghost var s := S();
      assert Progress(limit, s, s);
      var x := Some(x0);
      while x.Some?
        invariant Ready(g, limit, roots, S(), x, owed) && Progress(limit, s, S())
        invariant x.None? ==> |stack| == boundary
        invariant x == Some(x0) || Arrived(g, rset, x0, exact)
        invariant exact ==> Exact(g, rset, stack, x, rank) && Gained(old(rset), rset)
        decreases Fuel(S(), limit), TotalWork(g, stack, x.Some?)
      {
        hide Ready, Progress, Exact, Gained, Fuel, TotalWork, Arrived;
        ghost var t := S();
        ProgressFuel(limit, s, t);
        ghost var x1 := x.value;
        x := Step(x.value, owed, exact, rank);
        ProgressOn(limit, s, t, S());
        GainedOn(g, limit, s, t, S(), x0, x1, exact);
      }
    }

    /** One round of retainClosure(): a visit, the start of its children's visits, and the choice
        of what to visit next. */
    method Step(y: Item, ghost owed: set<nat>, ghost exact: bool, ghost rank: nat -> nat) returns (x: Option<Item>)
      requires Ready(g, limit, roots, S(), Some(y), owed)
      requires exact ==> Exact(g, rset, stack, Some(y), rank)
      modifies this
      ensures Ready(g, limit, roots, S(), x, owed) && Progress(limit, old(S()), S())
      ensures x.None? ==> |stack| == boundary
      ensures Arrived(g, rset, y, exact)
      ensures Fuel(S(), limit) < Fuel(old(S()), limit) ||
              TotalWork(g, stack, x.Some?) < TotalWork(g, old(stack), true)
      ensures exact ==> Exact(g, rset, stack, x, rank) && Gained(old(rset), rset)
      decreases Fuel(S(), limit), 1
    {
      hide Ready, Progress, Fuel, Exact, Gained, TotalWork, FramesOk, Descends, Visited, Carries, Done, Covered, Handed;
      hide AfterVisit, ExactAfterPush, Pushable, Arrived;
      ghost var s := S();
      ReadyShape(g, limit, roots, s, y, owed);
      if g[y.c].layout.Skipped? {
        SkipFacts(g, limit, roots, s, y, owed, exact, rank);
        x := Next(owed, exact, rank);
        ArrivedOn(g, limit, s, s, S(), y, exact);
      } else {
        VisitFacts(g, limit, roots, s, y, owed, exact, rank);
        var descend, handed := Visit(y);
        ghost var t := S();
        if descend {
          x := Descend(y.c, handed, owed, exact, rank);
        } else {
          x := Next(owed, exact, rank);
        }
        ProgressFuel(limit, t, S());
        ProgressOn(limit, s, t, S());
        ArrivedOn(g, limit, s, t, S(), y, exact);
      }
    }

    /** The children of the visited closure c. */
    method Descend(c: nat, r: Retainer, ghost owed: set<nat>, ghost exact: bool, ghost rank: nat -> nat)
      returns (x: Option<Item>)
      requires c < |g| && Carries(g, roots, r, c) && !g[c].layout.Skipped?
      requires Ready(g, limit, roots, S(), None, owed + Members(Kids(g, c)))
      requires Pushable(g, S(), c, r, owed)
      requires exact ==> ExactAfterPush(g, rset, stack, c, r, rank)
      modifies this
      ensures Ready(g, limit, roots, S(), x, owed) && Progress(limit, old(S()), S())
      ensures x.None? ==> |stack| == boundary
      ensures exact ==> Exact(g, rset, stack, x, rank) && rset == old(rset)
      decreases Fuel(S(), limit), 5
    {
      hide Ready, Progress, Fuel, Exact, TotalWork, Carries, Members, Pushed, ExactAfterPush, Pushable, Arrived, Gained;
      ghost var s := S();
      DescendFacts(g, limit, roots, s, c, r, owed, exact, rank);
      match g[c].layout {
        case Direct(ds) =>
          RetainAll(c, r, ds, owed);
        case Chunk(ds) =>
          RetainStack(c, r, ds, owed);
        case ApStack(f, ds) =>
          RetainClosure(Item(f, c, r), owed + Members(ds), false, _ => 0);
          ghost var t := S();
          ProgressFuel(limit, s, t);
          RetainStack(c, r, ds, owed);
          ProgressOn(limit, s, t, S());
        case Skipped =>
          assert false;
        case Leaf | Single(_) | Fixed(_) | Ptrs(_) =>
          var first := Push(c, r);
          if first.Some? {
            x := Some(Item(first.value, c, r));
            return;
          }
      }
      ghost var u := S();
      ProgressFuel(limit, s, u);
      x := Next(owed, exact, rank);
      ProgressOn(limit, s, u, S());
    }

    /** A profiling run starts with no closure visited and an empty traverse stack. */
    constructor (g: Heap, limit: nat, roots: seq<nat>)
      ensures this.g == g && this.limit == limit && this.roots == roots
      ensures S() == FreshState(g)
    {
      this.g, this.limit, this.roots := g, limit, roots;
      rset := seq(|g|, _ => Null);
      stack, boundary := [], 0;
      scans := seq(|g|, _ => 0);
    }

    /** retainRoot(): a root that is a retainer starts with itself, any other with the system. */
    method RetainRoot(c: nat, ghost exact: bool, ghost rank: nat -> nat)
      requires c in roots && c < |g| && stack == [] && Ready(g, limit, roots, S(), None, {})
      requires exact ==> Exact(g, rset, stack, None, rank)
      modifies this
      ensures stack == [] && Ready(g, limit, roots, S(), None, {}) && Kept(old(rset), rset)
      ensures Arrived(g, rset, RootItem(g, c), exact)
      ensures exact ==> Exact(g, rset, stack, None, rank) && Gained(old(rset), rset)
    {
      RootReady(g, limit, roots, S(), c, exact, rank);
      hide Ready, Exact, Gained, Arrived, Kept, Fuel;
      boundary := |stack|;
      if g[c].isRetainer {
        RetainClosure(Item(c, c, g[c].tag), {}, exact, rank);
      } else {
        RetainClosure(Item(c, c, CCS_SYSTEM), {}, exact, rank);
      }
    }

    /** computeRetainerSet(): all roots in turn. Afterwards a closure has a set exactly if it is
        reachable; every retainer in a set is a most recent retainer of the closure; no closure's
        children were scanned more often than the limit plus one. On a heap without cycles that is
        walked with the traverse stack only, and if no set saturated, the sets are exact. */
    method ComputeRetainerSet(ghost exact: bool, ghost rank: nat -> nat)
      requires S() == FreshState(g) && WellFormed(g) && limit >= 1 && forall c <- roots :: c < |g|
      requires exact ==> StackOnly(g) && Ranked(g, rank)
      modifies this
      ensures |rset| == |scans| == |g|
      ensures forall c :: 0 <= c < |g| && !g[c].layout.Skipped? ==>
                (!rset[c].Null? <==> exists r :: Retains(g, roots, r, c))
      ensures forall c, r :: 0 <= c < |g| && r in Elems(rset[c]) ==> Retains(g, roots, r, c)
      ensures forall c :: 0 <= c < |g| ==> scans[c] <= limit + 1
      ensures forall c :: 0 <= c < |g| && rset[c].Many? ==> Crowded(g, roots, limit, c)
      ensures exact ==>
                (Saturated(rset) <==> exists c :: 0 <= c < |g| && !g[c].layout.Skipped? && Crowded(g, roots, limit, c))
      ensures exact && !Saturated(rset) ==>
                forall c <- roots :: g[c].layout.Skipped?
                  || (if g[c].isRetainer then g[c].tag else CCS_SYSTEM) in Elems(rset[c])
      ensures exact && !Saturated(rset) ==>
                forall c, r :: 0 <= c < |g| && !g[c].layout.Skipped? ==>
                  (r in Elems(rset[c]) <==> Retains(g, roots, r, c))
    {
      FreshReady(g, limit, roots, exact, rank);
      var i := 0;
      while i < |roots|
        invariant i <= |roots| && stack == [] && Ready(g, limit, roots, S(), None, {})
        invariant exact ==> Exact(g, rset, stack, None, rank)
        invariant forall c <- roots[..i] :: c < |g| && Arrived(g, rset, RootItem(g, c), exact)
      {
        hide Ready, Exact, Gained, Arrived, Kept, RootItem;
        ghost var was := rset;
        RetainRoot(roots[i], exact, rank);
        forall c | c in roots[..i] ensures Arrived(g, rset, RootItem(g, c), exact) {
          ArrivedStays(g, was, rset, RootItem(g, c), exact);
        }
        assert roots[..i + 1] == roots[..i] + [roots[i]];
        i := i + 1;
      }
      assert roots[..i] == roots;
      hide Ready, Exact, Arrived, RootItem, Crowded;
      AtTheEnd(g, limit, roots, S(), exact, rank);
      forall c | c in roots
        ensures Retains(g, roots, if g[c].isRetainer then g[c].tag else CCS_SYSTEM, c)
      {
        RootRetains(g, roots, c);
      }
    }
  }
}
