/** Cost-centre stacks at run time (rts/Profiling.c): the memoised push and the change of the current
    stack on entering a function, single-threaded. */
module CostCentreStacks {
  import opened StackTree

  const MAIN: nat := 0

  class Profiling {
    var nodes: seq<Node>
    var index: Tables
    const cafs: set<CC>
    /** The current stack (rCCCS) and the stack that overheads are charged to. */
    var current: nat
    const overhead: nat

    ghost predicate Valid()
      reads this
    {
      TreeOk(nodes, index)
    }

    ghost function Of(n: nat): seq<CC>
      requires Shape(nodes) && n < |nodes|
      reads this
    {
      Stack(nodes, n)
    }

    /** initProfiling2(): MAIN, and the predefined stacks as its children, each its own root. */
    constructor (main: CC, predefined: seq<CC>, cafs: set<CC>, overhead: nat)
      requires NoRepeats([main] + predefined) && overhead <= |predefined|
      ensures Valid() && current == MAIN && this.overhead == overhead && this.cafs == cafs
      ensures |nodes| == |predefined| + 1 && Of(MAIN) == [main]
      ensures forall i :: 1 <= i < |nodes| ==> Of(i) == [main, predefined[i - 1]] && nodes[i].root == i
    {
      this.cafs, this.overhead, current := cafs, overhead, MAIN;
      nodes := [Node(main, -1, 0, 0)];
      index := [[]];
      new;
      assert Good(nodes, index, 0);
      for i := 0 to |predefined|
        invariant Valid() && current == MAIN && |nodes| == i + 1 && Of(MAIN) == [main]
        invariant forall k :: 1 <= k <= i ==> Of(k) == [main, predefined[k - 1]] && nodes[k].root == k
        invariant forall e <- index[MAIN] :: e.cc in predefined[..i]
      {
        AddPredefined(main, predefined, i);
      }
    }

    /** actualPush_() on MAIN for a predefined stack, whose root is then set to itself. */
    method AddPredefined(main: CC, predefined: seq<CC>, i: nat)
      requires Valid() && NoRepeats([main] + predefined) && i < |predefined|
      requires |nodes| == i + 1 && Of(MAIN) == [main]
      requires forall e <- index[MAIN] :: e.cc in predefined[..i]
      modifies this
      ensures Valid() && old(nodes) <= nodes && current == old(current) && |nodes| == i + 2
      ensures Of(i + 1) == [main, predefined[i]] && nodes[i + 1].root == i + 1
      ensures forall k :: 0 <= k <= i ==> Of(k) == old(Of(k))
      ensures forall e <- index[MAIN] :: e.cc in predefined[..i + 1]
    {
      var cc := predefined[i];
      assert ([main] + predefined)[i + 1] == cc && ([main] + predefined)[0] == main;
      assert forall k :: 0 <= k < i ==> ([main] + predefined)[k + 1] == predefined[k];
      var x := Node(cc, MAIN, i + 1, 1);
      NodeAdded(nodes, index, x);
      forall k | 0 <= k <= i ensures Stack(nodes + [x], k) == Of(k) {
        StackStays(nodes, nodes + [x], k);
      }
      nodes := nodes + [x];
      index := index + [[]];
      AddToIndexTable(MAIN, i + 1, cc, false);
      assert predefined[..i + 1] == predefined[..i] + [cc];
    }

    /** isInIndexTable(): the stack remembered for cc, or -1. */
    method IsInIndexTable(index: seq<Entry>, cc: CC) returns (r: int)
      ensures r == -1 ==> forall e <- index :: e.cc != cc
      ensures r != -1 ==> exists e :: e in index && e.cc == cc && e.ccs == r
    {
      var i := 0;
      while i < |index|
        invariant i <= |index| && forall j :: 0 <= j < i ==> index[j].cc != cc
      {
        if index[i].cc == cc {
          return index[i].ccs;
        }
        i := i + 1;
      }
      return -1;
    }

    /** checkLoop(): the nearest stack on the way up with cc on top, or -1. */
    method CheckLoop(n: nat, cc: CC) returns (r: int)
      requires Shape(nodes) && n < |nodes|
      ensures r == -1 <==> cc !in Of(n)
      ensures r != -1 ==> 0 <= r <= n && Of(r) == Truncated(Of(n), cc)
    {
      ghost var q := Of(n);
      var m: int := n;
      while m != -1
        invariant -1 <= m <= n
        invariant m == -1 ==> cc !in q
        invariant m != -1 ==> (cc in q <==> cc in Of(m))
        invariant m != -1 && cc in q ==> Truncated(q, cc) == Truncated(Of(m), cc)
        decreases m
      {
        if nodes[m].cc == cc {
          return m;
        }
        if m > 0 {
          assert Of(m)[..|Of(m)| - 1] == Of(nodes[m].prev);
        }
        m := nodes[m].prev;
      }
      return -1;
    }

    /** addToIndexTable() on the table of stack n. */
    method AddToIndexTable(n: nat, ccs: nat, cc: CC, backEdge: bool)
      requires n < |index|
      modifies this
      ensures index == old(index)[n := [Entry(cc, ccs, backEdge)] + old(index[n])]
      ensures nodes == old(nodes) && current == old(current)
    {
      index := index[n := [Entry(cc, ccs, backEdge)] + index[n]];
    }

    /** actualPush(): a new stack object with n as its parent. */
    method ActualPush(n: nat, cc: CC) returns (r: nat)
      requires Valid() && n < |nodes| && cc !in Of(n) && forall e <- index[n] :: e.cc != cc
      modifies this
      ensures Valid() && old(nodes) <= nodes && current == old(current)
      ensures r < |nodes| && Of(r) == old(Of(n)) + [cc]
    {
      r := |nodes|;
      var x := Node(cc, n, nodes[n].root, nodes[n].depth + 1);
      NodeAdded(nodes, index, x);
      nodes := nodes + [x];
      index := index + [[]];
      AddToIndexTable(n, r, cc, false);
    }

    /** pushCostCentre(): s itself, a stack on the way up, a remembered stack or a new one; always
        the stack for the pushed sequence. That is s with cc on top or, if cc is on s already, s cut
        off after it. */
    method PushCostCentre(n: nat, cc: CC) returns (r: nat)
      requires Valid() && n < |nodes|
      modifies this
      ensures Valid() && old(nodes) <= nodes && current == old(current)
      ensures r < |nodes| && Of(r) == Push(old(Of(n)), cc)
      ensures cc !in old(Of(n)) ==> Of(r) == old(Of(n)) + [cc]
      ensures cc in old(Of(n)) ==> Of(r) <= old(Of(n)) && nodes[r].cc == cc && cc !in old(Of(n))[|Of(r)|..]
    {
      if cc in Of(n) {
        TruncatedIsPrefix(Of(n), cc);
      }
      if nodes[n].cc == cc {
        return n;
      }
      assert Good(nodes, index, n);
      var ixtable := index[n];
      var temp := IsInIndexTable(ixtable, cc);
      if temp != -1 {
        return temp;
      }
      temp := CheckLoop(n, cc);
      if temp != -1 {
        EntryAdded(nodes, index, n, Entry(cc, temp, true));
        AddToIndexTable(n, temp, cc, true);
        r := temp;
      } else {
        r := ActualPush(n, cc);
      }
    }

    /** enterFunEqualStacks(): pushes the part of fn above the stack it shares with the equally
        deep app. */
    method EnterFunEqualStacks(ccs0: nat, app: nat, fn: nat) returns (r: nat)
      requires Valid() && ccs0 < |nodes| && app < |nodes| && fn < |nodes|
      requires nodes[app].depth == nodes[fn].depth
      modifies this
      ensures Valid() && old(nodes) <= nodes && current == old(current)
      ensures r < |nodes|
      ensures Of(r) == PushAll(old(Of(ccs0)), old(Of(fn))[Common(old(Of(app)), old(Of(fn)))..])
      decreases nodes[fn].depth
    {
      if app == fn {
        CommonWithItself(Of(fn));
        return ccs0;
      }
      ghost var a, f := Of(app), Of(fn);
      if a == f {
        SameStackSameObject(nodes, index, app, fn);
      }
      ghost var a', f' := Of(nodes[app].prev), Of(nodes[fn].prev);
      CommonOfLonger(a', f', [nodes[app].cc], nodes[fn].cc);
      PushAllOneMore(Of(ccs0), f'[Common(a', f')..], nodes[fn].cc);
      r := EnterFunEqualStacks(ccs0, nodes[app].prev, nodes[fn].prev);
      r := PushCostCentre(r, nodes[fn].cc);
    }

    /** enterFunCurShorter(): fn is n deeper than app. */
    method EnterFunCurShorter(app: nat, fn: nat, n: nat) returns (r: nat)
      requires Valid() && app < |nodes| && fn < |nodes| && nodes[fn].depth == nodes[app].depth + n
      modifies this
      ensures Valid() && old(nodes) <= nodes && current == old(current)
      ensures r < |nodes| && Of(r) == Entered(old(Of(app)), old(Of(fn)))
      decreases n
    {
      if n == 0 {
        r := EnterFunEqualStacks(app, app, fn);
      } else {
        ghost var a, f' := Of(app), Of(nodes[fn].prev);
        CommonWithLonger(a, f', nodes[fn].cc);
        PushAllOneMore(a, f'[Common(a, f')..], nodes[fn].cc);
        r := EnterFunCurShorter(app, nodes[fn].prev, n - 1);
        r := PushCostCentre(r, nodes[fn].cc);
      }
    }

    /** appendCCS() */
    method AppendCCS(ccs1: nat, ccs2: nat) returns (r: nat)
      requires Valid() && ccs1 < |nodes| && ccs2 < |nodes|
      modifies this
      ensures Valid() && old(nodes) <= nodes && current == old(current)
      ensures r < |nodes| && Of(r) == Appended(old(Of(ccs1)), old(Of(ccs2)), cafs)
      decreases nodes[ccs2].depth
    {
      if ccs1 == ccs2 {
        return ccs1;
      }
      if ccs2 == MAIN || nodes[ccs2].cc in cafs {
        return ccs1;
      }
      ghost var p, f := Of(ccs1), Of(ccs2);
      if p == f {
        SameStackSameObject(nodes, index, ccs1, ccs2);
      }
      assert f[..|f| - 1] == Of(nodes[ccs2].prev);
      r := AppendCCS(ccs1, nodes[ccs2].prev);
      r := PushCostCentre(r, nodes[ccs2].cc);
    }

    /** The stack n steps up from app (case 4 of enterFunCCS()). */
    method GoUp(app: nat, n: nat) returns (tmp: nat)
      requires Shape(nodes) && app < |nodes| && n <= nodes[app].depth
      ensures tmp < |nodes| && nodes[tmp].depth == nodes[app].depth - n
      ensures Of(tmp) == Of(app)[..nodes[tmp].depth + 1]
    {
      tmp := app;
      for i := 0 to n
        invariant tmp < |nodes| && nodes[tmp].depth == nodes[app].depth - i
        invariant Of(tmp) == Of(app)[..nodes[tmp].depth + 1]
      {
        assert Of(nodes[tmp].prev) == Of(tmp)[..nodes[tmp].depth];
        assert Of(app)[..nodes[tmp].depth + 1][..nodes[tmp].depth] == Of(app)[..nodes[tmp].depth];
        tmp := nodes[tmp].prev;
      }
    }

    /** Cases 4 to 6 of enterFunCCS(), by the depths of the two stacks. */
    method EnterFunSameRoot(app: nat, fn: nat) returns (r: nat)
      requires Valid() && app < |nodes| && fn < |nodes|
      modifies this
      ensures Valid() && old(nodes) <= nodes && current == old(current)
      ensures r < |nodes| && Of(r) == Entered(old(Of(app)), old(Of(fn)))
    {
      if nodes[app].depth > nodes[fn].depth {
        var tmp := GoUp(app, nodes[app].depth - nodes[fn].depth);
        CommonOfPrefix(Of(app), Of(fn));
        r := EnterFunEqualStacks(app, tmp, fn);
      } else if nodes[fn].depth > nodes[app].depth {
        r := EnterFunCurShorter(app, fn, nodes[fn].depth - nodes[app].depth);
      } else {
        r := EnterFunEqualStacks(app, app, fn);
      }
    }

    /** enterFunCCS(): the current stack on entering a function whose closure has stack fn. */
    method EnterFunCCS(fn: nat)
      requires Valid() && current < |nodes| && fn < |nodes| && overhead < |nodes|
      modifies this
      ensures Valid() && old(nodes) <= nodes && current < |nodes|
      ensures fn == old(current) || nodes[fn].prev == MAIN ==> current == old(current) && nodes == old(nodes)
      ensures fn != old(current) && nodes[fn].prev != MAIN ==>
                Of(current) == if nodes[fn].root != nodes[old(current)].root
                               then PushAll(old(Of(current)), AboveCaf(old(Of(fn)), cafs))
                               else Entered(old(Of(current)), old(Of(fn)))
    {
      hide Good, Stack, PushAll, AboveCaf, Entered, Appended;
      if fn == current {
        return;
      }
      if nodes[fn].prev == MAIN {
        return;
      }
      var app := current;
      current := overhead;
      var r: nat;
      if nodes[fn].root != nodes[app].root {
        DifferentRoots(nodes, index, app, fn);
        AppendedIsPushed(Of(app), Of(fn), cafs);
        r := AppendCCS(app, fn);
      } else {
        r := EnterFunSameRoot(app, fn);
      }
      current := r;
    }
  }

  /** A stack with another root is no prefix, unless it is MAIN. */
  lemma DifferentRoots(ns: seq<Node>, ix: Tables, app: nat, fn: nat)
    requires TreeOk(ns, ix) && app < |ns| && fn < |ns| && ns[app].root != ns[fn].root
    ensures Stack(ns, app) <= Stack(ns, fn) ==> |Stack(ns, app)| == 1
  {
    var p, f := Stack(ns, app), Stack(ns, fn);
    if p <= f && |p| > 1 {
      var d := ns[app].depth;
      var up := Up(ns, fn, d);
      assert Stack(ns, up) == f[..d + 1] == p;
      SameStackSameObject(ns, ix, up, app);
      BranchHasOneRoot(ns, ix, fn, d);
    }
  }

  /** A further entry in the table of n. */
  function WithEntry(ix: Tables, n: nat, e: Entry): Tables
    requires n < |ix|
  {
    ix[n := [e] + ix[n]]
  }

  lemma EntryAdded(ns: seq<Node>, ix: Tables, n: nat, e: Entry)
    requires TreeOk(ns, ix) && n < |ns| && EntryOk(ns, n, e) && forall f <- ix[n] :: f.cc != e.cc
    ensures TreeOk(ns, WithEntry(ix, n, e))
  {
    forall k | 0 <= k < |ns| ensures Good(ns, WithEntry(ix, n, e), k) {
      assert Good(ns, ix, k);
      assert Good(ns, ix, n);
      TableGrows(ns, ix, n, e, k);
    }
  }

  lemma TableGrows(ns: seq<Node>, ix: Tables, n: nat, e: Entry, k: nat)
    requires Shape(ns) && |ix| == |ns| && n < |ns| && k < |ns| && EntryOk(ns, n, e)
    requires forall f <- ix[n] :: f.cc != e.cc
    requires Good(ns, ix, k)
    ensures Good(ns, WithEntry(ix, n, e), k)
  {
    hide Stack, EntryOk, RootOk, NoRepeats;
    var t := [e] + ix[n];
    assert forall f :: f in t <==> f == e || f in ix[n];
    assert k == n ==> DistinctKeys(t);
  }

  /** A stack about to be put under x.prev, predefined or pushed. */
  predicate NewNode(ns: seq<Node>, ix: Tables, x: Node)
    requires Shape(ns) && |ix| == |ns|
  {
    && 0 <= x.prev < |ns| && x.depth == ns[x.prev].depth + 1
    && x.cc !in Stack(ns, x.prev) && (forall e <- ix[x.prev] :: e.cc != x.cc)
    && (x.root == ns[x.prev].root || (x.prev == 0 && x.root == |ns|))
  }

  lemma NodeAdded(ns: seq<Node>, ix: Tables, x: Node)
    requires TreeOk(ns, ix) && NewNode(ns, ix, x)
    ensures TreeOk(ns + [x], WithEntry(ix + [[]], x.prev, Entry(x.cc, |ns|, false)))
    ensures Stack(ns + [x], |ns|) == Stack(ns, x.prev) + [x.cc]
  {
    hide Good, NewNode, EntryOk, Stack, WithEntry;
    NodeIsGood(ns, ix, x);
    var e := Entry(x.cc, |ns|, false);
    var ix' := WithEntry(ix + [[]], x.prev, e);
    forall k | 0 <= k < |ns| ensures Good(ns + [x], ix', k) {
      NodeStays(ns, ix, x, k);
      TableGrows(ns + [x], ix + [[]], x.prev, e, k);
    }
  }

  /** The new stack itself. */
  lemma NodeIsGood(ns: seq<Node>, ix: Tables, x: Node)
    requires TreeOk(ns, ix) && NewNode(ns, ix, x)
    ensures 0 <= x.prev < |ns| && Shape(ns + [x]) && Stack(ns + [x], |ns|) == Stack(ns, x.prev) + [x.cc]
    ensures EntryOk(ns + [x], x.prev, Entry(x.cc, |ns|, false))
    ensures forall f <- (ix + [[]])[x.prev] :: f.cc != x.cc
    ensures |WithEntry(ix + [[]], x.prev, Entry(x.cc, |ns|, false))| == |ns| + 1
    ensures Good(ns + [x], WithEntry(ix + [[]], x.prev, Entry(x.cc, |ns|, false)), |ns|)
  {
    StackStays(ns, ns + [x], x.prev);
    assert NoRepeats(Stack(ns, x.prev)) && RootOk(ns, x.prev) by {
      assert Good(ns, ix, x.prev);
    }
    assert ns[0].root == 0 by {
      assert Good(ns, ix, 0);
    }
    hide TreeOk, DistinctKeys;
  }

  lemma NodeStays(ns: seq<Node>, ix: Tables, x: Node, k: nat)
    requires Shape(ns) && |ix| == |ns| && Shape(ns + [x]) && k < |ns| && Good(ns, ix, k)
    ensures Good(ns + [x], ix + [[]], k)
  {
    var ns' := ns + [x];
    StackStays(ns, ns', k);
    forall f | f in ix[k] ensures EntryOk(ns', k, f) {
      EntryStays(ns, ns', k, f);
    }
  }
}
