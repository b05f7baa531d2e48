/** Pruning the tree of cost-centre stacks before it is printed (pruneCCSTree() in
    rts/Profiling.c). */
module PruneTree {
  import opened StackTree
  import opened CostReport

  /** Which stacks have entries, ticks or allocation of their own, and whether all are printed. */
  datatype Costs = Costs(costly: seq<bool>, all: bool)

  /** The first k entries of n's table after pruning: those up to the last child that was kept, and
      the back edges seen since then. A child that goes takes the back edges just before it along,
      because they do not advance the link that is overwritten. */
  function Trim(ix: Tables, cs: Costs, n: nat, k: nat): (seq<Entry>, seq<Entry>)
    requires Downward(ix) && |cs.costly| == |ix| && n < |ix| && k <= |ix[n]|
    decreases |ix| - n, k
  {
    if k == 0 then ([], [])
    else
      var (done, skipped) := Trim(ix, cs, n, k - 1);
      var e := ix[n][k - 1];
      assert e in ix[n];
      if e.backEdge then (done, skipped + [e])
      else if Kept(ix, cs, e.ccs) then (done + skipped + [e], [])
      else (done, [])
  }

  function Trimmed(ix: Tables, cs: Costs, n: nat): seq<Entry>
    requires Downward(ix) && |cs.costly| == |ix| && n < |ix|
    decreases |ix| - n, |ix[n]| + 1
  {
    var (done, skipped) := Trim(ix, cs, n, |ix[n]|);
    done + skipped
  }

  /** Whether stack n stays in the tree. */
  predicate Kept(ix: Tables, cs: Costs, n: nat)
    requires Downward(ix) && |cs.costly| == |ix| && n < |ix|
    decreases |ix| - n, |ix[n]| + 2
  {
    cs.all || Trimmed(ix, cs, n) != [] || cs.costly[n]
  }

  function Pruned(ix: Tables, cs: Costs): (r: Tables)
    requires Downward(ix) && |cs.costly| == |ix|
    ensures |r| == |ix|
  {
    seq(|ix|, n requires 0 <= n < |ix| => Trimmed(ix, cs, n))
  }

  lemma {:induction false} TrimSelects(ix: Tables, cs: Costs, n: nat, k: nat, e: Entry)
    requires Downward(ix) && |cs.costly| == |ix| && n < |ix| && k <= |ix[n]|
    requires e in Trim(ix, cs, n, k).0 || e in Trim(ix, cs, n, k).1
    ensures Selected(ix, cs, n, e)
    ensures e in Trim(ix, cs, n, k).1 ==> e.backEdge
    decreases k
  {
    if k > 0 {
      var f := ix[n][k - 1];
      assert f in ix[n];
      var (done, skipped) := Trim(ix, cs, n, k - 1);
      if e in done || e in skipped {
        TrimSelects(ix, cs, n, k - 1, e);
      }
    }
  }

  /** The pruned tables are still a tree, and every child left in one was kept. */
  lemma PrunedIsDownward(ix: Tables, cs: Costs)
    requires Downward(ix) && |cs.costly| == |ix|
    ensures Downward(Pruned(ix, cs))
    ensures forall n, e :: 0 <= n < |ix| && e in Pruned(ix, cs)[n] ==> Selected(ix, cs, n, e)
  {
    var ix' := Pruned(ix, cs);
    forall n, e | 0 <= n < |ix'| && e in ix'[n] ensures Selected(ix, cs, n, e) {
      assert ix'[n] == Trimmed(ix, cs, n);
      TrimSelects(ix, cs, n, |ix[n]|, e);
    }
  }

  /** An entry of n's table that leads to a stack that is kept, or is a back edge. */
  predicate Selected(ix: Tables, cs: Costs, n: nat, e: Entry)
    requires Downward(ix) && |cs.costly| == |ix| && n < |ix|
  {
    e in ix[n] && (!e.backEdge ==> n < e.ccs < |ix| && Kept(ix, cs, e.ccs))
  }

  // ---------------------------------------------------------------- no cost is lost

  predicate Points(n: nat, size: nat, es: seq<Entry>) {
    forall e <- es :: !e.backEdge ==> n < e.ccs < size
  }

  /** The sum over a list of entries of what hangs below them. */
  function ListSum(ix: Tables, w: seq<nat>, n: nat, es: seq<Entry>): nat
    requires Downward(ix) && |w| == |ix| && Points(n, |ix|, es)
  {
    if es == [] then 0
    else
      var e := es[|es| - 1];
      assert e in es;
      ListSum(ix, w, n, es[..|es| - 1]) + if e.backEdge then 0 else TreeSum(ix, w, e.ccs)
  }

  lemma {:induction false} ListSumOfTwo(ix: Tables, w: seq<nat>, n: nat, a: seq<Entry>, b: seq<Entry>)
    requires Downward(ix) && |w| == |ix| && Points(n, |ix|, a) && Points(n, |ix|, b)
    ensures ListSum(ix, w, n, a + b) == ListSum(ix, w, n, a) + ListSum(ix, w, n, b)
    decreases |b|
  {
    if b == [] {
      assert a + b == a;
    } else {
      ListSumOfTwo(ix, w, n, a, b[..|b| - 1]);
      assert (a + b)[..|a + b| - 1] == a + b[..|b| - 1];
    }
  }

  lemma {:induction false} ListSumOfBackEdges(ix: Tables, w: seq<nat>, n: nat, es: seq<Entry>)
    requires Downward(ix) && |w| == |ix| && forall e <- es :: e.backEdge
    ensures ListSum(ix, w, n, es) == 0
  {
    if es != [] {
      ListSumOfBackEdges(ix, w, n, es[..|es| - 1]);
    }
  }

  lemma {:induction false} ChildSumIsListSum(ix: Tables, w: seq<nat>, n: nat, k: nat)
    requires Downward(ix) && |w| == |ix| && n < |ix| && k <= |ix[n]|
    ensures Points(n, |ix|, ix[n][..k]) && ChildSum(ix, w, n, k) == ListSum(ix, w, n, ix[n][..k])
    decreases k
  {
    if k > 0 {
      ChildSumIsListSum(ix, w, n, k - 1);
      assert ix[n][..k][..k - 1] == ix[n][..k - 1];
    }
  }

  /** Weights that stacks without costs do not have. */
  predicate Fitting(w: seq<nat>, cs: Costs) {
    |w| == |cs.costly| && forall m :: 0 <= m < |w| && !cs.costly[m] ==> w[m] == 0
  }

  /** Pruning changes no sum over the tree, and what it removes sums to zero. */
  lemma {:induction false} PruningKeepsSums(ix: Tables, cs: Costs, w: seq<nat>, n: nat)
    requires Downward(ix) && |cs.costly| == |ix| && Fitting(w, cs) && n < |ix|
    ensures Downward(Pruned(ix, cs))
    ensures TreeSum(Pruned(ix, cs), w, n) == TreeSum(ix, w, n)
    ensures !Kept(ix, cs, n) ==> TreeSum(ix, w, n) == 0
    decreases |ix| - n, |ix[n]| + 1
  {
    PrunedIsDownward(ix, cs);
    var ix' := Pruned(ix, cs);
    TrimKeepsSum(ix, cs, w, n, |ix[n]|);
    ChildSumIsListSum(ix', w, n, |ix'[n]|);
    assert ix'[n][..|ix'[n]|] == Trimmed(ix, cs, n);
    var (done, skipped) := Trim(ix, cs, n, |ix[n]|);
    ListSumOfTwo(ix', w, n, done, skipped);
    ListSumOfBackEdges(ix', w, n, skipped);
  }

  lemma {:induction false} TrimKeepsSum(ix: Tables, cs: Costs, w: seq<nat>, n: nat, k: nat)
    requires Downward(ix) && |cs.costly| == |ix| && Fitting(w, cs) && n < |ix| && k <= |ix[n]|
    requires Downward(Pruned(ix, cs))
    ensures var (done, skipped) := Trim(ix, cs, n, k);
      && Points(n, |ix|, done) && Points(n, |ix|, skipped) && (forall e <- skipped :: e.backEdge)
      && ListSum(Pruned(ix, cs), w, n, done) == ChildSum(ix, w, n, k)
    decreases |ix| - n, k
  {
    if k > 0 {
      TrimKeepsSum(ix, cs, w, n, k - 1);
      var (done, skipped) := Trim(ix, cs, n, k - 1);
      var e := ix[n][k - 1];
      assert e in ix[n];
      if !e.backEdge {
        PruningKeepsSums(ix, cs, w, e.ccs);
        ListSumOfTwo(Pruned(ix, cs), w, n, done, skipped);
        ListSumOfBackEdges(Pruned(ix, cs), w, n, skipped);
        ListSumOfTwo(Pruned(ix, cs), w, n, done + skipped, [e]);
        assert [e][..0] == [];
      }
    }
  }

  /** Every stack with costs is still reached from MAIN, once. */
  lemma CostlyStacksStay(ns: seq<Node>, ix: Tables, cs: Costs, m: nat)
    requires TreeOk(ns, ix) && Downward(ix) && |cs.costly| == |ix| && m < |ns| && cs.costly[m]
    ensures Downward(Pruned(ix, cs)) && TreeSum(Pruned(ix, cs), Spike(|ix|, m, 1), 0) == 1
  {
    PruningKeepsSums(ix, cs, Spike(|ix|, m, 1), 0);
    VisitedOnce(ns, ix, 0, m, 1);
    MainIsAbove(ns, m);
  }

  // ---------------------------------------------------------------- what is left

  /** The first of the entries i to k - 1 that leads to a child, or k. */
  function NextChild(es: seq<Entry>, i: nat, k: nat): (j: nat)
    requires i <= k <= |es|
    ensures i <= j <= k && (j < k ==> !es[j].backEdge) && forall l :: i <= l < j ==> es[l].backEdge
    decreases k - i
  {
    if i == k || !es[i].backEdge then i else NextChild(es, i + 1, k)
  }

  /** Entry i shares the fate of the next child at or behind it. */
  predicate Stays(ix: Tables, cs: Costs, n: nat, i: nat)
    requires Downward(ix) && |cs.costly| == |ix| && n < |ix| && i < |ix[n]|
  {
    var j := NextChild(ix[n], i, |ix[n]|);
    j < |ix[n]| ==> ix[n][j] in ix[n] && Kept(ix, cs, ix[n][j].ccs)
  }

  /** Entry e is one of the first k, and the next child among them is kept (`done`), or there is none. */
  predicate Comes(ix: Tables, cs: Costs, n: nat, k: nat, e: Entry, done: bool)
    requires Downward(ix) && |cs.costly| == |ix| && n < |ix| && k <= |ix[n]|
  {
    exists i :: 0 <= i < k && ix[n][i] == e && Fate(ix, cs, n, k, i, done)
  }

  predicate Fate(ix: Tables, cs: Costs, n: nat, k: nat, i: nat, done: bool)
    requires Downward(ix) && |cs.costly| == |ix| && n < |ix| && i < k <= |ix[n]|
  {
    var j := NextChild(ix[n], i, k);
    if done then j < k && ix[n][j] in ix[n] && Kept(ix, cs, ix[n][j].ccs) else j == k
  }

  lemma {:induction false} NextChildGrows(es: seq<Entry>, i: nat, k: nat)
    requires i <= k < |es|
    ensures NextChild(es, i, k + 1) == if NextChild(es, i, k) < k || !es[k].backEdge then NextChild(es, i, k) else k + 1
    decreases k - i
  {
    if i < k && es[i].backEdge {
      NextChildGrows(es, i + 1, k);
    }
  }

  lemma {:induction false} TrimKeeps(ix: Tables, cs: Costs, n: nat, k: nat, e: Entry)
    requires Downward(ix) && |cs.costly| == |ix| && n < |ix| && k <= |ix[n]|
    ensures e in Trim(ix, cs, n, k).0 <==> Comes(ix, cs, n, k, e, true)
    ensures e in Trim(ix, cs, n, k).1 <==> Comes(ix, cs, n, k, e, false)
    decreases k
  {
    if k > 0 {
      TrimKeeps(ix, cs, n, k - 1, e);
      hide Kept, Downward;
      var last := ix[n][k - 1];
      assert last in ix[n];
      forall i | 0 <= i < k - 1
        ensures Fate(ix, cs, n, k, i, true) <==>
                  (Fate(ix, cs, n, k - 1, i, true)
                   || (Fate(ix, cs, n, k - 1, i, false) && !last.backEdge && Kept(ix, cs, last.ccs)))
        ensures Fate(ix, cs, n, k, i, false) <==> Fate(ix, cs, n, k - 1, i, false) && last.backEdge
      {
        NextChildGrows(ix[n], i, k - 1);
      }
      TrimKeepsOne(ix, cs, n, k, e);
    }
  }

  lemma TrimKeepsOne(ix: Tables, cs: Costs, n: nat, k: nat, e: Entry)
    requires Downward(ix) && |cs.costly| == |ix| && n < |ix| && 0 < k <= |ix[n]| && ix[n][k - 1] in ix[n]
    requires e in Trim(ix, cs, n, k - 1).0 <==> Comes(ix, cs, n, k - 1, e, true)
    requires e in Trim(ix, cs, n, k - 1).1 <==> Comes(ix, cs, n, k - 1, e, false)
    requires forall i :: 0 <= i < k - 1 ==>
      && (Fate(ix, cs, n, k, i, true) <==>
            (Fate(ix, cs, n, k - 1, i, true)
             || (Fate(ix, cs, n, k - 1, i, false) && !ix[n][k - 1].backEdge && Kept(ix, cs, ix[n][k - 1].ccs))))
      && (Fate(ix, cs, n, k, i, false) <==> Fate(ix, cs, n, k - 1, i, false) && ix[n][k - 1].backEdge)
    ensures e in Trim(ix, cs, n, k).0 <==> Comes(ix, cs, n, k, e, true)
    ensures e in Trim(ix, cs, n, k).1 <==> Comes(ix, cs, n, k, e, false)
  {
    var last := ix[n][k - 1];
    var (done, skipped) := Trim(ix, cs, n, k - 1);
    assert Fate(ix, cs, n, k, k - 1, true) <==> !last.backEdge && Kept(ix, cs, last.ccs);
    assert Fate(ix, cs, n, k, k - 1, false) <==> last.backEdge;
    hide Fate, Kept, Downward;
    assert Trim(ix, cs, n, k) == if last.backEdge then (done, skipped + [last])
                                 else if Kept(ix, cs, last.ccs) then (done + skipped + [last], []) else (done, []);
    hide Trim;
  }

  /** Exactly these entries are left in a table: a child that is kept, and a back edge behind which
      the next child in the table, if there is one, is kept. */
  lemma EntriesLeft(ix: Tables, cs: Costs, n: nat, e: Entry)
    requires Downward(ix) && |cs.costly| == |ix| && n < |ix|
    ensures e in Trimmed(ix, cs, n) <==> exists i :: 0 <= i < |ix[n]| && ix[n][i] == e && Stays(ix, cs, n, i)
  {
    TrimKeeps(ix, cs, n, |ix[n]|, e);
    var k := |ix[n]|;
    assert forall i :: 0 <= i < k ==> (Stays(ix, cs, n, i) <==> Fate(ix, cs, n, k, i, true) || Fate(ix, cs, n, k, i, false));
  }

  lemma {:induction false} NothingTrimmedOff(ix: Tables, cs: Costs, n: nat, k: nat)
    requires Downward(ix) && |cs.costly| == |ix| && n < |ix| && k <= |ix[n]| && cs.all
    ensures Trim(ix, cs, n, k).0 + Trim(ix, cs, n, k).1 == ix[n][..k]
    decreases k
  {
    if k > 0 {
      NothingTrimmedOff(ix, cs, n, k - 1);
      assert ix[n][k - 1] in ix[n] && ix[n][..k] == ix[n][..k - 1] + [ix[n][k - 1]];
    }
  }

  /** When all cost centres are to be printed, pruning leaves the tree as it is. */
  lemma AllStay(ix: Tables, cs: Costs)
    requires Downward(ix) && |cs.costly| == |ix| && cs.all
    ensures Pruned(ix, cs) == ix
  {
    forall n | 0 <= n < |ix| ensures Trimmed(ix, cs, n) == ix[n] {
      NothingTrimmedOff(ix, cs, n, |ix[n]|);
      assert ix[n][..|ix[n]|] == ix[n];
    }
  }

  /** Stack m is a reason to keep the stacks above it: it has costs, or the oldest entry of its table
      is a back edge. */
  predicate Reason(ix: Tables, cs: Costs, m: nat)
    requires |cs.costly| == |ix| && m < |ix|
  {
    cs.costly[m] || (ix[m] != [] && ix[m][|ix[m]| - 1].backEdge)
  }

  /** A stack is kept at its own table: for costs, for a back edge that is the oldest entry, or for a
      child that is kept. */
  lemma KeptStep(ix: Tables, cs: Costs, n: nat)
    requires Downward(ix) && |cs.costly| == |ix| && n < |ix| && !cs.all
    ensures Kept(ix, cs, n) <==>
              (Reason(ix, cs, n)
               || exists i :: 0 <= i < |ix[n]| && ix[n][i] in ix[n] && !ix[n][i].backEdge && Kept(ix, cs, ix[n][i].ccs))
  {
    var es, k := ix[n], |ix[n]|;
    if Trimmed(ix, cs, n) != [] {
      var e := Trimmed(ix, cs, n)[0];
      EntriesLeft(ix, cs, n, e);
      var i :| 0 <= i < k && es[i] == e && Stays(ix, cs, n, i);
      assert NextChild(es, i, k) < k ==> es[NextChild(es, i, k)] in es;
    }
    if k > 0 && es[k - 1].backEdge {
      assert Stays(ix, cs, n, k - 1);
      EntriesLeft(ix, cs, n, es[k - 1]);
    }
    if i :| 0 <= i < k && es[i] in es && !es[i].backEdge && Kept(ix, cs, es[i].ccs) {
      assert Stays(ix, cs, n, i);
      EntriesLeft(ix, cs, n, es[i]);
    }
  }

  /** A stack stays in the tree if and only if it or a stack below it has costs, or has a back edge as
      the oldest entry of its table. */
  lemma {:induction false} KeptExactly(ns: seq<Node>, ix: Tables, cs: Costs, n: nat)
    requires TreeOk(ns, ix) && Downward(ix) && |cs.costly| == |ix| && n < |ix| && !cs.all
    ensures Kept(ix, cs, n) <==> exists m :: 0 <= m < |ns| && Above(ns, n, m) && Reason(ix, cs, m)
    decreases |ix| - n
  {
    hide Good, Stack, Reason;
    KeptStep(ix, cs, n);
    assert Above(ns, n, n);
    if i :| 0 <= i < |ix[n]| && ix[n][i] in ix[n] && !ix[n][i].backEdge && Kept(ix, cs, ix[n][i].ccs) {
      var c := ix[n][i].ccs;
      ChildOf(ns, ix, n, ix[n][i]);
      KeptExactly(ns, ix, cs, c);
      var m :| 0 <= m < |ns| && Above(ns, c, m) && Reason(ix, cs, m);
      OnlyOneToward(ns, n, c, m);
    }
    if m :| 0 <= m < |ns| && Above(ns, n, m) && Reason(ix, cs, m) {
      if m != n {
        var c := Toward(ns, n, m);
        ListedChild(ns, ix, c);
        KeptExactly(ns, ix, cs, c);
        var i :| 0 <= i < |ix[n]| && ix[n][i] == Entry(ns[c].cc, c, false);
      }
    }
  }

  lemma ChildOf(ns: seq<Node>, ix: Tables, n: nat, e: Entry)
    requires TreeOk(ns, ix) && Downward(ix) && n < |ns| && e in ix[n] && !e.backEdge
    ensures n < e.ccs < |ns| && ns[e.ccs].prev == n
  {
    hide Stack;
    assert Good(ns, ix, n);
  }

  lemma ListedChild(ns: seq<Node>, ix: Tables, c: nat)
    requires TreeOk(ns, ix) && 0 < c < |ns|
    ensures 0 <= ns[c].prev < c && Entry(ns[c].cc, c, false) in ix[ns[c].prev]
  {
    hide Stack;
    assert Good(ns, ix, c);
  }

  /** A tree without any costs of which pruning leaves everything: MAIN, a child a and its child b, in
      whose table the push of a is remembered as a back edge. Without that entry all of it goes. */
  lemma CostlessStackStays()
    ensures var ns := [Node(0, -1, 0, 0), Node(1, 0, 1, 1), Node(2, 1, 1, 2)];
      var ix := [[Entry(1, 1, false)], [Entry(2, 2, false)], [Entry(1, 1, true)]];
      var cs := Costs([false, false, false], false);
      && TreeOk(ns, ix) && Downward(ix) && Kept(ix, cs, 0) && Trimmed(ix, cs, 0) == ix[0]
      && TreeOk(ns, ix[2 := []]) && Downward(ix[2 := []]) && !Kept(ix[2 := []], cs, 0)
  {
    var ns := [Node(0, -1, 0, 0), Node(1, 0, 1, 1), Node(2, 1, 1, 2)];
    var ix := [[Entry(1, 1, false)], [Entry(2, 2, false)], [Entry(1, 1, true)]];
    var cs := Costs([false, false, false], false);
    SmallTree(ns, ix);
    SmallTree(ns, ix[2 := []]);
    TreeIsDownward(ns, ix);
    TreeIsDownward(ns, ix[2 := []]);
    hide TreeOk;
    KeptStep(ix, cs, 2);
    KeptStep(ix, cs, 1);
    KeptStep(ix, cs, 0);
    assert ix[1][0] in ix[1] && ix[0][0] in ix[0];
    KeptStep(ix[2 := []], cs, 2);
    KeptStep(ix[2 := []], cs, 1);
    KeptStep(ix[2 := []], cs, 0);
  }

  lemma SmallTree(ns: seq<Node>, ix: Tables)
    requires ns == [Node(0, -1, 0, 0), Node(1, 0, 1, 1), Node(2, 1, 1, 2)]
    requires ix == [[Entry(1, 1, false)], [Entry(2, 2, false)], [Entry(1, 1, true)]]
             || ix == [[Entry(1, 1, false)], [Entry(2, 2, false)], []]
    ensures TreeOk(ns, ix)
  {
    assert Stack(ns, 0) == [0] && Stack(ns, 1) == [0, 1] && Stack(ns, 2) == [0, 1, 2];
    assert Truncated([0, 1, 2], 1) == [0, 1] by {
      assert [0, 1, 2][..2] == [0, 1];
    }
    hide Stack, Truncated;
    forall n | 0 <= n < 3 ensures Good(ns, ix, n) {
    }
  }

  /** The tables while n's is gone through: what is below its first k entries is pruned, and so are
      these entries themselves. */
  ghost predicate During(ns: seq<Node>, ix: Tables, cs: Costs, n: nat, k: nat, before: Tables, now: Tables)
    requires Shape(ns) && Downward(ix) && |cs.costly| == |ix| == |ns| && n < |ns| && k <= |ix[n]|
  {
    && |before| == |now| == |ns| && Same(ns, ix, n, before)
    && (forall m :: 0 <= m < |ns| && m != n ==>
          now[m] == if Passed(ns, ix, n, k, m) then Trimmed(ix, cs, m) else before[m])
    && now[n] == Trim(ix, cs, n, k).0 + Trim(ix, cs, n, k).1 + ix[n][k..]
  }

  /** At and below n nothing has been pruned yet. */
  ghost predicate Same(ns: seq<Node>, ix: Tables, n: nat, now: Tables)
    requires Shape(ns) && |ix| == |ns|
  {
    |now| == |ns| && forall m :: 0 <= m < |ns| && Above(ns, n, m) ==> now[m] == ix[m]
  }

  ghost predicate PrunedBelow(ns: seq<Node>, ix: Tables, cs: Costs, n: nat, before: Tables, now: Tables)
    requires Shape(ns) && Downward(ix) && |cs.costly| == |ix| == |ns|
  {
    && |before| == |now| == |ns|
    && forall m :: 0 <= m < |ns| ==> now[m] == if Above(ns, n, m) then Trimmed(ix, cs, m) else before[m]
  }

  lemma DuringStarts(ns: seq<Node>, ix: Tables, cs: Costs, n: nat, before: Tables)
    requires TreeOk(ns, ix) && Downward(ix) && |cs.costly| == |ns| && n < |ns| && Same(ns, ix, n, before)
    ensures During(ns, ix, cs, n, 0, before, before)
  {
    assert Above(ns, n, n) && ix[n][0..] == ix[n];
    forall m | 0 <= m < |ns| ensures !Passed(ns, ix, n, 0, m) {
      AllPassed(ns, ix, n, m);
    }
  }

  lemma DuringEnds(ns: seq<Node>, ix: Tables, cs: Costs, n: nat, before: Tables, now: Tables)
    requires TreeOk(ns, ix) && Downward(ix) && |cs.costly| == |ns| && n < |ns|
    requires During(ns, ix, cs, n, |ix[n]|, before, now)
    ensures PrunedBelow(ns, ix, cs, n, before, now)
  {
    forall m | 0 <= m < |ns| ensures Passed(ns, ix, n, |ix[n]|, m) <==> Above(ns, n, m) && n != m {
      AllPassed(ns, ix, n, m);
    }
    hide Passed;
    assert Above(ns, n, n) && now[n] == Trimmed(ix, cs, n);
  }

  /** The child behind entry k can be pruned; a back edge is just passed. */
  lemma DuringReady(ns: seq<Node>, ix: Tables, cs: Costs, n: nat, k: nat, before: Tables, now: Tables)
    requires TreeOk(ns, ix) && Downward(ix) && |cs.costly| == |ns| && n < |ns| && k < |ix[n]|
    requires During(ns, ix, cs, n, k, before, now)
    ensures !ix[n][k].backEdge ==> n < ix[n][k].ccs < |ns| && Same(ns, ix, ix[n][k].ccs, now)
    ensures ix[n][k].backEdge ==> During(ns, ix, cs, n, k + 1, before, now)
  {
    hide Passed, Trimmed;
    var e := ix[n][k];
    PassOn(ns, ix, n, k, n);
    if e.backEdge {
      forall m | 0 <= m < |ns| && m != n ensures Passed(ns, ix, n, k + 1, m) <==> Passed(ns, ix, n, k, m) {
        PassOn(ns, ix, n, k, m);
      }
      assert ix[n][k..] == [e] + ix[n][k + 1..];
    } else {
      forall m | 0 <= m < |ns| && Above(ns, e.ccs, m) ensures now[m] == ix[m] {
        PassOn(ns, ix, n, k, m);
        OnlyOneToward(ns, n, e.ccs, m);
      }
    }
  }

  /** The entry looked at is number k of the old table. */
  lemma DuringShape(ns: seq<Node>, ix: Tables, cs: Costs, n: nat, k: nat, before: Tables, now: Tables)
    requires TreeOk(ns, ix) && Downward(ix) && |cs.costly| == |ns| && n < |ns| && k <= |ix[n]|
    requires During(ns, ix, cs, n, k, before, now)
    ensures |now| == |ns|
    ensures var q := |Trim(ix, cs, n, k).0| + |Trim(ix, cs, n, k).1|;
      && q <= |now[n]| && (q < |now[n]| <==> k < |ix[n]|)
      && (k < |ix[n]| ==> now[n][q] == ix[n][k] && ix[n][k] in ix[n])
    ensures k < |ix[n]| && ix[n][k].backEdge ==>
              Trim(ix, cs, n, k + 1) == (Trim(ix, cs, n, k).0, Trim(ix, cs, n, k).1 + [ix[n][k]])
    ensures k < |ix[n]| && !ix[n][k].backEdge ==> ix[n][k].ccs < |ix|
    ensures k < |ix[n]| && !ix[n][k].backEdge ==>
              Trim(ix, cs, n, k + 1) == (if Kept(ix, cs, ix[n][k].ccs)
                                         then (Trim(ix, cs, n, k).0 + Trim(ix, cs, n, k).1 + [ix[n][k]], [])
                                         else (Trim(ix, cs, n, k).0, []))
  {
    hide Passed, Trimmed;
    if k < |ix[n]| {
      assert ix[n][k] in ix[n];
      assert ix[n][k..] == [ix[n][k]] + ix[n][k + 1..];
    }
  }

  /** After the child behind entry k was pruned: its entry goes, with the back edges before it, or
      stays. */
  lemma DuringStep(ns: seq<Node>, ix: Tables, cs: Costs, n: nat, k: nat, before: Tables, now: Tables, later: Tables)
    requires TreeOk(ns, ix) && Downward(ix) && |cs.costly| == |ns| && n < |ns| && k < |ix[n]| && !ix[n][k].backEdge
    requires During(ns, ix, cs, n, k, before, now)
    requires PrunedBelow(ns, ix, cs, ix[n][k].ccs, now, later)
    ensures ix[n][k].ccs < |ns| && later[n] == now[n]
    ensures var p := |Trim(ix, cs, n, k).0|; var q := p + |Trim(ix, cs, n, k).1|;
      && q < |later[n]|
      && During(ns, ix, cs, n, k + 1, before,
                if Kept(ix, cs, ix[n][k].ccs) then later else later[n := later[n][..p] + later[n][q + 1..]])
  {
    hide Passed, Trimmed, Trim, Kept, Good, Stack;
    DuringShape(ns, ix, cs, n, k, before, now);
    DuringOthers(ns, ix, cs, n, k, before, now, later);
    var e := ix[n][k];
    var rest := ix[n][k + 1..];
    assert ix[n][k..] == [e] + rest;
    ListStep(Trim(ix, cs, n, k).0, Trim(ix, cs, n, k).1, e, ix[n][k..], rest);
  }

  /** The tables of the stacks other than n. */
  lemma DuringOthers(ns: seq<Node>, ix: Tables, cs: Costs, n: nat, k: nat, before: Tables, now: Tables, later: Tables)
    requires TreeOk(ns, ix) && Downward(ix) && |cs.costly| == |ns| && n < |ns| && k < |ix[n]| && !ix[n][k].backEdge
    requires During(ns, ix, cs, n, k, before, now)
    requires PrunedBelow(ns, ix, cs, ix[n][k].ccs, now, later)
    ensures |later| == |ns| && later[n] == now[n]
    ensures forall m :: 0 <= m < |ns| && m != n ==>
              later[m] == if Passed(ns, ix, n, k + 1, m) then Trimmed(ix, cs, m) else before[m]
  {
    hide Passed, Trimmed, Trim, Kept, Good, Stack, Same;
    var c := ix[n][k].ccs;
    PassOn(ns, ix, n, k, n);
    if Above(ns, c, n) {
      AboveIsNotBelow(ns, c, n);
    }
    forall m | 0 <= m < |ns| && m != n
      ensures later[m] == if Passed(ns, ix, n, k + 1, m) then Trimmed(ix, cs, m) else before[m]
    {
      PassOn(ns, ix, n, k, m);
    }
  }

  lemma ListStep(done: seq<Entry>, skipped: seq<Entry>, e: Entry, rest: seq<Entry>, rest': seq<Entry>)
    requires rest == [e] + rest'
    ensures var t := done + skipped + rest; var p := |done|; var q := p + |skipped|;
      && t[q] == e
      && t[..p] + t[q + 1..] == done + [] + rest'
      && t == (done + skipped + [e]) + [] + rest'
  {
  }

  class Pruner {
    const nodes: seq<Node>
    const cs: Costs
    var index: Tables

    /** pruneCCSTree(): ix are the tables before the pass. `p` is the place of the link that is
        overwritten when a child goes, `q` that of the entry looked at. */
    method PruneCCSTree(n: nat, ghost ix: Tables) returns (kept: bool)
      requires TreeOk(nodes, ix) && Downward(ix) && |cs.costly| == |nodes| && n < |nodes| && Same(nodes, ix, n, index)
      modifies this
      ensures PrunedBelow(nodes, ix, cs, n, old(index), index) && |index| == |nodes|
      ensures kept == Kept(ix, cs, n)
      decreases |nodes| - n
    {
      hide Good, Stack, During, PrunedBelow, Same, Trim, Kept;
      DuringStarts(nodes, ix, cs, n, index);
      DuringShape(nodes, ix, cs, n, 0, index, index);
      NothingTrimmed(ix, cs, n);
      var p, q := 0, 0;
      ghost var k := 0;
      while q < |index[n]|
        invariant k <= |ix[n]| && During(nodes, ix, cs, n, k, old(index), index) && |index| == |nodes|
        invariant p == |Trim(ix, cs, n, k).0| && q == p + |Trim(ix, cs, n, k).1| && q <= |index[n]|
        decreases |ix[n]| - k
      {
        ghost var t := index;
        DuringShape(nodes, ix, cs, n, k, old(index), t);
        DuringReady(nodes, ix, cs, n, k, old(index), t);
        var e := index[n][q];
        if e.backEdge {
          q := q + 1;
        } else {
          var keep := PruneCCSTree(e.ccs, ix);
          DuringStep(nodes, ix, cs, n, k, old(index), t, index);
          if !keep {
            index := index[n := index[n][..p] + index[n][q + 1..]];
            q := p;
          } else {
            p := q + 1;
            q := q + 1;
          }
        }
        k := k + 1;
        DuringShape(nodes, ix, cs, n, k, old(index), index);
      }
      DuringShape(nodes, ix, cs, n, k, old(index), index);
      PrunedTable(nodes, ix, cs, n, old(index), index);
      kept := cs.all || index[n] != [] || cs.costly[n];
    }
  }

  lemma NothingTrimmed(ix: Tables, cs: Costs, n: nat)
    requires Downward(ix) && |cs.costly| == |ix| && n < |ix|
    ensures Trim(ix, cs, n, 0) == ([], [])
  {
  }

  lemma PrunedTable(ns: seq<Node>, ix: Tables, cs: Costs, n: nat, before: Tables, now: Tables)
    requires TreeOk(ns, ix) && Downward(ix) && |cs.costly| == |ns| && n < |ns|
    requires During(ns, ix, cs, n, |ix[n]|, before, now)
    ensures PrunedBelow(ns, ix, cs, n, before, now) && n < |now|
    ensures Kept(ix, cs, n) == (cs.all || now[n] != [] || cs.costly[n])
  {
    DuringEnds(ns, ix, cs, n, before, now);
    assert Above(ns, n, n);
  }
}
