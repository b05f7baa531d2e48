/** The passes over the tree of cost-centre stacks before a report is printed (rts/Profiling.c):
    per-cost-centre totals, program totals, inherited costs, and pruning. */
module CostReport {
  import opened StackTree

  /** Forward entries lead to stacks created later. */
  predicate Downward(ix: Tables) {
    forall n, e :: 0 <= n < |ix| && e in ix[n] && !e.backEdge ==> n < e.ccs < |ix|
  }

  lemma TreeIsDownward(ns: seq<Node>, ix: Tables)
    requires TreeOk(ns, ix)
    ensures Downward(ix)
  {
    hide Stack, Push;
    forall n, e | 0 <= n < |ix| && e in ix[n] && !e.backEdge ensures n < e.ccs < |ix| {
      assert Good(ns, ix, n);
      assert EntryOk(ns, n, e);
    }
  }

  // ---------------------------------------------------------------- sums over the tree

  /** The weights of n and of all stacks below it. */
  function TreeSum(ix: Tables, w: seq<nat>, n: nat): nat
    requires Downward(ix) && |w| == |ix| && n < |ix|
    decreases |ix| - n, |ix[n]| + 1
  {
    w[n] + ChildSum(ix, w, n, |ix[n]|)
  }

  /** Those below the first k entries of n's table. */
  function ChildSum(ix: Tables, w: seq<nat>, n: nat, k: nat): nat
    requires Downward(ix) && |w| == |ix| && n < |ix| && k <= |ix[n]|
    decreases |ix| - n, k
  {
    if k == 0 then 0
    else
      var e := ix[n][k - 1];
      assert e in ix[n];
      ChildSum(ix, w, n, k - 1) + if e.backEdge then 0 else TreeSum(ix, w, e.ccs)
  }

  /** The weights of all stacks. */
  function Total(w: seq<nat>): nat {
    if w == [] then 0 else Total(w[..|w| - 1]) + w[|w| - 1]
  }

  /** a is m or one of the stacks above it. */
  predicate Above(ns: seq<Node>, a: nat, m: nat)
    requires Shape(ns) && m < |ns|
    decreases m
  {
    a == m || (m > 0 && Above(ns, a, ns[m].prev))
  }

  /** The child of a on the way down to m. */
  function Toward(ns: seq<Node>, a: nat, m: nat): (c: nat)
    requires Shape(ns) && m < |ns| && Above(ns, a, m) && a != m
    ensures c < |ns| && c > 0 && ns[c].prev == a && Above(ns, c, m)
    decreases m
  {
    if ns[m].prev == a then m else Toward(ns, a, ns[m].prev)
  }

  lemma {:induction false} AboveIsNotBelow(ns: seq<Node>, a: nat, m: nat)
    requires Shape(ns) && m < |ns| && Above(ns, a, m)
    ensures a <= m
    decreases m
  {
    if a != m {
      AboveIsNotBelow(ns, a, ns[m].prev);
    }
  }

  lemma {:induction false} OnlyOneToward(ns: seq<Node>, a: nat, c: nat, m: nat)
    requires Shape(ns) && m < |ns| && 0 < c < |ns| && ns[c].prev == a && Above(ns, c, m)
    ensures Above(ns, a, m) && a != m && Toward(ns, a, m) == c
    decreases m
  {
    AboveIsNotBelow(ns, c, m);
    assert Above(ns, a, a);
    if c != m {
      OnlyOneToward(ns, a, c, ns[m].prev);
      AboveIsNotBelow(ns, a, ns[m].prev);
      if ns[m].prev == a {
        AboveIsNotBelow(ns, c, a);
      }
    }
  }

  lemma {:induction false} MainIsAbove(ns: seq<Node>, m: nat)
    requires Shape(ns) && m < |ns|
    ensures Above(ns, 0, m)
    decreases m
  {
    if m > 0 {
      MainIsAbove(ns, ns[m].prev);
    }
  }

  /** Weight v for m alone. */
  function Spike(size: nat, m: nat, v: nat): (w: seq<nat>)
    ensures |w| == size
  {
    seq(size, i requires 0 <= i < size => if i == m then v else 0)
  }

  predicate LeadsTo(es: seq<Entry>, c: nat) {
    exists e :: e in es && !e.backEdge && e.ccs == c
  }

  /** The walk over forward entries from n comes to every stack below n exactly once, and to no
      other. */
  lemma {:induction false} VisitedOnce(ns: seq<Node>, ix: Tables, n: nat, m: nat, v: nat)
    requires TreeOk(ns, ix) && Downward(ix) && n < |ns| && m < |ns|
    ensures TreeSum(ix, Spike(|ix|, m, v), n) == if Above(ns, n, m) then v else 0
    decreases |ix| - n, |ix[n]| + 1
  {
    ChildrenVisitedOnce(ns, ix, n, m, v, |ix[n]|);
    if Above(ns, n, m) && n != m {
      var c := Toward(ns, n, m);
      assert Good(ns, ix, c);
      assert Entry(ns[c].cc, c, false) in ix[n][..|ix[n]|];
    }
  }

  lemma {:induction false} ChildrenVisitedOnce(ns: seq<Node>, ix: Tables, n: nat, m: nat, v: nat, k: nat)
    requires TreeOk(ns, ix) && Downward(ix) && n < |ns| && m < |ns| && k <= |ix[n]|
    ensures ChildSum(ix, Spike(|ix|, m, v), n, k)
         == if Above(ns, n, m) && n != m && LeadsTo(ix[n][..k], Toward(ns, n, m)) then v else 0
    decreases |ix| - n, k
  {
    if k > 0 {
      var e := ix[n][k - 1];
      assert e in ix[n];
      ChildrenVisitedOnce(ns, ix, n, m, v, k - 1);
      assert ix[n][..k] == ix[n][..k - 1] + [e];
      if !e.backEdge {
        VisitedOnce(ns, ix, e.ccs, m, v);
        OneMoreChild(ns, ix, n, m, k);
      }
    }
  }

  lemma OneMoreChild(ns: seq<Node>, ix: Tables, n: nat, m: nat, k: nat)
    requires TreeOk(ns, ix) && Downward(ix) && n < |ns| && m < |ns| && 0 < k <= |ix[n]|
    requires !ix[n][k - 1].backEdge && ix[n][k - 1].ccs < |ns|
    ensures Above(ns, ix[n][k - 1].ccs, m) ==>
              && Above(ns, n, m) && n != m && Toward(ns, n, m) == ix[n][k - 1].ccs
              && !LeadsTo(ix[n][..k - 1], ix[n][k - 1].ccs)
  {
    var e := ix[n][k - 1];
    assert Good(ns, ix, n);
    assert EntryOk(ns, n, e);
    hide Stack, Push, Good;
    if Above(ns, e.ccs, m) {
      OnlyOneToward(ns, n, e.ccs, m);
      forall f | f in ix[n][..k - 1] && !f.backEdge ensures f.ccs != e.ccs {
        var i :| 0 <= i < k - 1 && ix[n][i] == f;
        assert EntryOk(ns, n, f) && f.cc != e.cc;
      }
    }
  }

  lemma {:induction false} SumsAdd(ix: Tables, a: seq<nat>, b: seq<nat>, c: seq<nat>, n: nat)
    requires Downward(ix) && |a| == |b| == |c| == |ix| && n < |ix|
    requires forall i :: 0 <= i < |a| ==> c[i] == a[i] + b[i]
    ensures TreeSum(ix, c, n) == TreeSum(ix, a, n) + TreeSum(ix, b, n)
    decreases |ix| - n, |ix[n]| + 1
  {
    ChildSumsAdd(ix, a, b, c, n, |ix[n]|);
  }

  lemma {:induction false} ChildSumsAdd(ix: Tables, a: seq<nat>, b: seq<nat>, c: seq<nat>, n: nat, k: nat)
    requires Downward(ix) && |a| == |b| == |c| == |ix| && n < |ix| && k <= |ix[n]|
    requires forall i :: 0 <= i < |a| ==> c[i] == a[i] + b[i]
    ensures ChildSum(ix, c, n, k) == ChildSum(ix, a, n, k) + ChildSum(ix, b, n, k)
    decreases |ix| - n, k
  {
    if k > 0 {
      var e := ix[n][k - 1];
      assert e in ix[n];
      ChildSumsAdd(ix, a, b, c, n, k - 1);
      if !e.backEdge {
        SumsAdd(ix, a, b, c, e.ccs);
      }
    }
  }

  /** The weights of the first k stacks, nothing for the others. */
  function Firsts(w: seq<nat>, k: nat): (r: seq<nat>)
    ensures |r| == |w|
  {
    seq(|w|, i requires 0 <= i < |w| => if i < k then w[i] else 0)
  }

  /** Counting one more stack adds its weight at its place, and to the total. */
  lemma OneMoreFirst(w: seq<nat>, k: nat)
    requires 0 < k <= |w|
    ensures forall i :: 0 <= i < |w| ==> Firsts(w, k)[i] == Firsts(w, k - 1)[i] + Spike(|w|, k - 1, w[k - 1])[i]
    ensures Total(w[..k]) == Total(w[..k - 1]) + w[k - 1]
  {
    assert w[..k][..k - 1] == w[..k - 1];
  }

  /** A walk over the whole tree adds up the weights of all stacks. */
  lemma {:induction false} WalkIsTotal(ns: seq<Node>, ix: Tables, w: seq<nat>, k: nat)
    requires TreeOk(ns, ix) && Downward(ix) && |w| == |ns| && k <= |w|
    ensures TreeSum(ix, Firsts(w, k), 0) == Total(w[..k])
    ensures k == |w| ==> TreeSum(ix, w, 0) == Total(w)
  {
    hide TreeSum, ChildSum, Above, Good;
    if k == 0 {
      var z := Firsts(w, 0);
      SumsAdd(ix, z, z, z, 0);
    } else {
      hide TreeSum, ChildSum, Above, Good, Firsts, Spike, Total;
      WalkIsTotal(ns, ix, w, k - 1);
      OneMoreFirst(w, k);
      SumsAdd(ix, Firsts(w, k - 1), Spike(|ix|, k - 1, w[k - 1]), Firsts(w, k), 0);
      VisitedOnce(ns, ix, 0, k - 1, w[k - 1]);
      MainIsAbove(ns, k - 1);
    }
    if k == |w| {
      assert Firsts(w, k) == w && w[..k] == w;
    }
  }

  // ---------------------------------------------------------------- the passes

  /** The costs w of the stacks whose cost centre is cc. */
  function OfCC(ns: seq<Node>, w: seq<nat>, cc: CC): (r: seq<nat>)
    requires |w| == |ns|
    ensures |r| == |w|
  {
    seq(|w|, i requires 0 <= i < |w| => if ns[i].cc == cc then w[i] else 0)
  }

  /** The costs of the stacks that are reported. */
  function Reported(w: seq<nat>, ignored: set<nat>): (r: seq<nat>)
    ensures |r| == |w|
  {
    seq(|w|, i requires 0 <= i < |w| => if i in ignored then 0 else w[i])
  }

  /** The costs that n inherits: an ignored stack inherits nothing, not even from below. */
  function Inherited(ix: Tables, w: seq<nat>, ignored: set<nat>, n: nat): nat
    requires Downward(ix) && |w| == |ix| && n < |ix|
    decreases |ix| - n, |ix[n]| + 1
  {
    if n in ignored then 0 else w[n] + ChildInherited(ix, w, ignored, n, |ix[n]|)
  }

  function ChildInherited(ix: Tables, w: seq<nat>, ignored: set<nat>, n: nat, k: nat): nat
    requires Downward(ix) && |w| == |ix| && n < |ix| && k <= |ix[n]|
    decreases |ix| - n, k
  {
    if k == 0 then 0
    else
      var e := ix[n][k - 1];
      assert e in ix[n];
      ChildInherited(ix, w, ignored, n, k - 1) + if e.backEdge then 0 else Inherited(ix, w, ignored, e.ccs)
  }

  /** m or a stack above it is ignored. */
  predicate Hidden(ns: seq<Node>, ignored: set<nat>, m: nat)
    requires Shape(ns) && m < |ns|
    decreases m
  {
    m in ignored || (m > 0 && Hidden(ns, ignored, ns[m].prev))
  }

  function Shown(ns: seq<Node>, w: seq<nat>, ignored: set<nat>): (r: seq<nat>)
    requires Shape(ns) && |w| == |ns|
    ensures |r| == |w|
  {
    seq(|w|, i requires 0 <= i < |w| => if Hidden(ns, ignored, i) then 0 else w[i])
  }

  lemma {:induction false} InheritedIsShown(ns: seq<Node>, ix: Tables, w: seq<nat>, ignored: set<nat>, n: nat)
    requires TreeOk(ns, ix) && Downward(ix) && |w| == |ns| && n < |ns|
    ensures Hidden(ns, ignored, n) ==> TreeSum(ix, Shown(ns, w, ignored), n) == 0
    ensures (n > 0 ==> !Hidden(ns, ignored, ns[n].prev)) ==>
              Inherited(ix, w, ignored, n) == TreeSum(ix, Shown(ns, w, ignored), n)
    decreases |ix| - n, |ix[n]| + 1
  {
    ChildInheritedIsShown(ns, ix, w, ignored, n, |ix[n]|);
  }

  lemma {:induction false} ChildInheritedIsShown(ns: seq<Node>, ix: Tables, w: seq<nat>, ignored: set<nat>,
                                                 n: nat, k: nat)
    requires TreeOk(ns, ix) && Downward(ix) && |w| == |ns| && n < |ns| && k <= |ix[n]|
    ensures Hidden(ns, ignored, n) ==> ChildSum(ix, Shown(ns, w, ignored), n, k) == 0
    ensures !Hidden(ns, ignored, n) ==>
              ChildInherited(ix, w, ignored, n, k) == ChildSum(ix, Shown(ns, w, ignored), n, k)
    decreases |ix| - n, k
  {
    if k > 0 {
      var e := ix[n][k - 1];
      assert Good(ns, ix, n);
      assert EntryOk(ns, n, e);
      ChildInheritedIsShown(ns, ix, w, ignored, n, k - 1);
      if !e.backEdge {
        InheritedIsShown(ns, ix, w, ignored, e.ccs);
      }
    }
  }

  lemma {:induction false} TotalIsMonotone(a: seq<nat>, b: seq<nat>)
    requires |a| == |b| && forall i :: 0 <= i < |a| ==> a[i] <= b[i]
    ensures Total(a) <= Total(b)
    ensures Total(a) == Total(b) <==> a == b
  {
    if a != [] {
      var n := |a| - 1;
      TotalIsMonotone(a[..n], b[..n]);
      assert a == a[..n] + [a[n]] && b == b[..n] + [b[n]];
    }
  }

  /** MAIN inherits exactly the reported total if and only if the stacks below ignored ones that are
      not ignored themselves have no costs. */
  lemma MainInheritsTheTotal(ns: seq<Node>, ix: Tables, w: seq<nat>, ignored: set<nat>)
    requires TreeOk(ns, ix) && Downward(ix) && |w| == |ns|
    ensures Inherited(ix, w, ignored, 0) <= Total(Reported(w, ignored))
    ensures Inherited(ix, w, ignored, 0) == Total(Reported(w, ignored)) <==>
            forall m :: 0 <= m < |ns| && m !in ignored && Hidden(ns, ignored, m) ==> w[m] == 0
  {
    var a, b := Shown(ns, w, ignored), Reported(w, ignored);
    InheritedIsShown(ns, ix, w, ignored, 0);
    WalkIsTotal(ns, ix, a, |a|);
    assert forall i :: 0 <= i < |ns| && i in ignored ==> Hidden(ns, ignored, i);
    TotalIsMonotone(a, b);
    if forall m :: 0 <= m < |ns| && m !in ignored && Hidden(ns, ignored, m) ==> w[m] == 0 {
      assert forall i :: 0 <= i < |a| ==> a[i] == b[i];
      assert a == b;
    } else {
      var m :| 0 <= m < |ns| && m !in ignored && Hidden(ns, ignored, m) && w[m] != 0;
      assert a[m] != b[m];
    }
  }

  /** The totals of the cost centres below k. */
  function TotalOfCCs(ns: seq<Node>, w: seq<nat>, k: nat): nat
    requires |w| == |ns|
  {
    if k == 0 then 0 else TotalOfCCs(ns, w, k - 1) + Total(OfCC(ns, w, k - 1))
  }

  function Below(ns: seq<Node>, w: seq<nat>, k: nat): (r: seq<nat>)
    requires |w| == |ns|
    ensures |r| == |w|
  {
    seq(|w|, i requires 0 <= i < |w| => if ns[i].cc < k then w[i] else 0)
  }

  lemma {:induction false} TotalsAdd(a: seq<nat>, b: seq<nat>, c: seq<nat>)
    requires |a| == |b| == |c| && forall i :: 0 <= i < |a| ==> c[i] == a[i] + b[i]
    ensures Total(c) == Total(a) + Total(b)
  {
    if a != [] {
      TotalsAdd(a[..|a| - 1], b[..|a| - 1], c[..|a| - 1]);
    }
  }

  /** The totals of all cost centres add up to the total over all stacks. */
  lemma {:induction false} CCsAddUp(ns: seq<Node>, w: seq<nat>, k: nat)
    requires |w| == |ns|
    ensures TotalOfCCs(ns, w, k) == Total(Below(ns, w, k))
    ensures (forall i :: 0 <= i < |ns| ==> ns[i].cc < k) ==> TotalOfCCs(ns, w, k) == Total(w)
  {
    if k == 0 {
      TotalsAdd(Below(ns, w, 0), Below(ns, w, 0), Below(ns, w, 0));
    } else {
      CCsAddUp(ns, w, k - 1);
      TotalsAdd(Below(ns, w, k - 1), OfCC(ns, w, k - 1), Below(ns, w, k));
    }
    if forall i :: 0 <= i < |ns| ==> ns[i].cc < k {
      assert Below(ns, w, k) == w;
    }
  }

  /** What m has inherited when the pass is over. */
  function Settled(ns: seq<Node>, ix: Tables, w: seq<nat>, ignored: set<nat>, m: nat): nat
    requires Shape(ns) && Downward(ix) && |w| == |ix| == |ns| && m < |ns|
  {
    if Hidden(ns, ignored, m) then 0 else Inherited(ix, w, ignored, m)
  }

  /** m is below one of the first k entries of n's table. */
  predicate Passed(ns: seq<Node>, ix: Tables, n: nat, k: nat, m: nat)
    requires Shape(ns) && |ix| == |ns| && n < |ns| && k <= |ix[n]| && m < |ns|
  {
    Above(ns, n, m) && n != m && LeadsTo(ix[n][..k], Toward(ns, n, m))
  }

  /** The entries of a table lead to disjoint parts of the tree. */
  lemma PassOn(ns: seq<Node>, ix: Tables, n: nat, k: nat, m: nat)
    requires TreeOk(ns, ix) && Downward(ix) && n < |ns| && k < |ix[n]| && m < |ns|
    ensures var e := ix[n][k];
      && (e.backEdge ==> (Passed(ns, ix, n, k + 1, m) <==> Passed(ns, ix, n, k, m)))
      && (!e.backEdge ==>
            && n < e.ccs < |ns| && ns[e.ccs].prev == n
            && (Passed(ns, ix, n, k + 1, m) <==> Passed(ns, ix, n, k, m) || Above(ns, e.ccs, m))
            && !(Passed(ns, ix, n, k, m) && Above(ns, e.ccs, m)))
  {
    var e := ix[n][k];
    assert e in ix[n];
    assert EntryOk(ns, n, e) by { assert Good(ns, ix, n); }
    assert ix[n][..k + 1] == ix[n][..k] + [e];
    if !e.backEdge {
      OneMoreChild(ns, ix, n, m, k + 1);
    }
  }

  lemma AllPassed(ns: seq<Node>, ix: Tables, n: nat, m: nat)
    requires TreeOk(ns, ix) && Downward(ix) && n < |ns| && m < |ns|
    ensures Passed(ns, ix, n, |ix[n]|, m) <==> Above(ns, n, m) && n != m
    ensures !Passed(ns, ix, n, 0, m)
  {
    if Above(ns, n, m) && n != m {
      var c := Toward(ns, n, m);
      assert Good(ns, ix, c);
      assert Entry(ns[c].cc, c, false) in ix[n][..|ix[n]|];
    }
  }

  // ---------------------------------------------------------------- figures by stack

  /** The weights of the stacks of a set. */
  function SumOver(w: seq<nat>, stacks: set<nat>): nat {
    if w == [] then 0
    else SumOver(w[..|w| - 1], stacks) + if |w| - 1 in stacks then w[|w| - 1] else 0
  }

  lemma {:induction false} MaskedSum(w: seq<nat>, masked: seq<nat>, s: set<nat>, t: set<nat>, both: set<nat>)
    requires |masked| == |w| && forall i :: 0 <= i < |w| ==> masked[i] == if i in t then w[i] else 0
    requires forall i :: 0 <= i < |w| ==> (i in both <==> i in s && i in t)
    ensures SumOver(masked, s) == SumOver(w, both)
  {
    if w != [] {
      MaskedSum(w[..|w| - 1], masked[..|w| - 1], s, t, both);
    }
  }

  lemma {:induction false} SumOfAll(w: seq<nat>, s: set<nat>)
    requires forall i :: 0 <= i < |w| ==> i in s
    ensures SumOver(w, s) == Total(w)
  {
    if w != [] {
      SumOfAll(w[..|w| - 1], s);
    }
  }

  lemma {:induction false} SumOfNone(w: seq<nat>, s: set<nat>)
    requires forall i :: 0 <= i < |w| ==> i !in s
    ensures SumOver(w, s) == 0
  {
    if w != [] {
      SumOfNone(w[..|w| - 1], s);
    }
  }

  ghost function StacksBelow(ns: seq<Node>, n: nat): set<nat>
    requires Shape(ns)
  {
    set m | 0 <= m < |ns| && Above(ns, n, m)
  }

  /** A walk from any stack adds up the weights of that stack and all below it. */
  lemma {:induction false} WalkAddsUpTo(ns: seq<Node>, ix: Tables, w: seq<nat>, n: nat, k: nat)
    requires TreeOk(ns, ix) && Downward(ix) && |w| == |ns| && n < |ns| && k <= |w|
    ensures TreeSum(ix, Firsts(w, k), n) == SumOver(w[..k], StacksBelow(ns, n))
  {
    hide TreeSum, Above, Good, Stack, Push;
    if k == 0 {
      var z := Firsts(w, 0);
      SumsAdd(ix, z, z, z, n);
    } else {
      WalkAddsUpTo(ns, ix, w, n, k - 1);
      OneMoreFirst(w, k);
      SumsAdd(ix, Firsts(w, k - 1), Spike(|ix|, k - 1, w[k - 1]), Firsts(w, k), n);
      VisitedOnce(ns, ix, n, k - 1, w[k - 1]);
      assert w[..k][..k - 1] == w[..k - 1];
    }
  }

  lemma WalkAddsUp(ns: seq<Node>, ix: Tables, w: seq<nat>, n: nat)
    requires TreeOk(ns, ix) && Downward(ix) && |w| == |ns| && n < |ns|
    ensures TreeSum(ix, w, n) == SumOver(w, StacksBelow(ns, n))
  {
    WalkAddsUpTo(ns, ix, w, n, |w|);
    assert Firsts(w, |w|) == w && w[..|w|] == w;
  }

  /** A stack is hidden if some ignored stack is at or above it. */
  lemma {:induction false} HiddenMeans(ns: seq<Node>, ignored: set<nat>, m: nat)
    requires Shape(ns) && m < |ns|
    ensures Hidden(ns, ignored, m) <==> exists a :: a in ignored && Above(ns, a, m)
    decreases m
  {
    assert Above(ns, m, m);
    if m > 0 {
      HiddenMeans(ns, ignored, ns[m].prev);
    }
  }

  lemma {:induction false} AboveOn(ns: seq<Node>, a: nat, b: nat, m: nat)
    requires Shape(ns) && m < |ns| && b < |ns| && Above(ns, a, b) && Above(ns, b, m)
    ensures Above(ns, a, m)
    decreases m
  {
    if b != m {
      AboveOn(ns, a, b, ns[m].prev);
    }
  }

  /** The stacks whose costs stack n is charged with: itself and those below it, unless an ignored stack is
      at or above them. */
  ghost function VisibleBelow(ns: seq<Node>, ignored: set<nat>, n: nat): set<nat>
    requires Shape(ns)
  {
    set m | 0 <= m < |ns| && Above(ns, n, m) && !exists a :: a in ignored && Above(ns, a, m)
  }

  /** What a stack has inherited at the end is what the stacks visible below it cost. */
  lemma SettledIsVisible(ns: seq<Node>, ix: Tables, w: seq<nat>, ignored: set<nat>, n: nat)
    requires TreeOk(ns, ix) && Downward(ix) && |w| == |ns| && n < |ns|
    ensures Settled(ns, ix, w, ignored, n) == SumOver(w, VisibleBelow(ns, ignored, n))
  {
    hide TreeSum, Inherited, Good, Stack, Push;
    forall m | 0 <= m < |ns| ensures Hidden(ns, ignored, m) <==> exists a :: a in ignored && Above(ns, a, m) {
      HiddenMeans(ns, ignored, m);
    }
    hide Hidden, Above;
    if Hidden(ns, ignored, n) {
      var a :| a in ignored && Above(ns, a, n);
      forall m | 0 <= m < |ns| && Above(ns, n, m) ensures Above(ns, a, m) {
        AboveIsNode(ns, a, n);
        AboveOn(ns, a, n, m);
      }
      SumOfNone(w, VisibleBelow(ns, ignored, n));
    } else {
      HiddenPrev(ns, ignored, n);
      InheritedIsShown(ns, ix, w, ignored, n);
      WalkAddsUp(ns, ix, Shown(ns, w, ignored), n);
      var seen := set m | 0 <= m < |ns| && !Hidden(ns, ignored, m);
      MaskedSum(w, Shown(ns, w, ignored), StacksBelow(ns, n), seen, VisibleBelow(ns, ignored, n));
    }
  }

  lemma {:induction false} AboveIsNode(ns: seq<Node>, a: nat, m: nat)
    requires Shape(ns) && m < |ns| && Above(ns, a, m)
    ensures a < |ns|
    decreases m
  {
    if a != m {
      AboveIsNode(ns, a, ns[m].prev);
    }
  }

  lemma HiddenPrev(ns: seq<Node>, ignored: set<nat>, n: nat)
    requires Shape(ns) && n < |ns| && !Hidden(ns, ignored, n)
    ensures n > 0 ==> !Hidden(ns, ignored, ns[n].prev)
  {
  }

  /** The walk from MAIN charges a cost centre with the stacks that have it on top, and the total with
      those that are not ignored. */
  lemma CentreIsCharged(ns: seq<Node>, ix: Tables, w: seq<nat>, cc: CC)
    requires TreeOk(ns, ix) && Downward(ix) && |w| == |ns|
    ensures TreeSum(ix, OfCC(ns, w, cc), 0) == SumOver(w, set m | 0 <= m < |ns| && ns[m].cc == cc)
  {
    hide TreeSum, TreeOk, Downward;
    AllBelowMain(ns, ix);
    WalkAddsUp(ns, ix, OfCC(ns, w, cc), 0);
    var own := set m | 0 <= m < |ns| && ns[m].cc == cc;
    forall i | 0 <= i < |w| ensures OfCC(ns, w, cc)[i] == (if i in own then w[i] else 0) && i in StacksBelow(ns, 0) {
    }
    MaskedSum(w, OfCC(ns, w, cc), StacksBelow(ns, 0), own, own);
  }

  lemma TotalIsCharged(ns: seq<Node>, ix: Tables, w: seq<nat>, ignored: set<nat>)
    requires TreeOk(ns, ix) && Downward(ix) && |w| == |ns|
    ensures TreeSum(ix, Reported(w, ignored), 0) == SumOver(w, set m | 0 <= m < |ns| && m !in ignored)
  {
    hide TreeSum, TreeOk, Downward;
    AllBelowMain(ns, ix);
    WalkAddsUp(ns, ix, Reported(w, ignored), 0);
    var own := set m | 0 <= m < |ns| && m !in ignored;
    forall i | 0 <= i < |w| ensures Reported(w, ignored)[i] == (if i in own then w[i] else 0) && i in StacksBelow(ns, 0) {
    }
    MaskedSum(w, Reported(w, ignored), StacksBelow(ns, 0), own, own);
  }

  lemma AllBelowMain(ns: seq<Node>, ix: Tables)
    requires TreeOk(ns, ix)
    ensures |ns| > 0 && Shape(ns) && forall m :: 0 <= m < |ns| ==> m in StacksBelow(ns, 0)
  {
    forall m | 0 <= m < |ns| ensures m in StacksBelow(ns, 0) {
      MainIsAbove(ns, m);
    }
  }

  class Report {
    const nodes: seq<Node>
    const ticks: seq<nat>
    const alloc: seq<nat>
    const ignored: set<nat>
    var index: Tables
    var ccTicks: seq<nat>
    var ccAlloc: seq<nat>
    var totalTicks: nat
    var totalAlloc: nat
    var inheritedTicks: seq<nat>
    var inheritedAlloc: seq<nat>

    ghost predicate Valid()
      reads this
    {
      && TreeOk(nodes, index) && Downward(index) && |ticks| == |alloc| == |nodes|
      && |ccTicks| == |ccAlloc| && (forall n <- nodes :: n.cc < |ccTicks|)
      && |inheritedTicks| == |inheritedAlloc| == |nodes|
    }

    constructor (nodes: seq<Node>, index: Tables, ticks: seq<nat>, alloc: seq<nat>, ignored: set<nat>, centres: nat)
      requires TreeOk(nodes, index) && |ticks| == |alloc| == |nodes| && forall n <- nodes :: n.cc < centres
      ensures Valid() && Zeroed()
      ensures this.nodes == nodes && this.ticks == ticks && this.alloc == alloc && this.ignored == ignored && this.index == index
    {
      this.nodes, this.index, this.ticks, this.alloc, this.ignored := nodes, index, ticks, alloc, ignored;
      ccTicks, ccAlloc := seq(centres, _ => 0), seq(centres, _ => 0);
      totalTicks, totalAlloc := 0, 0;
      inheritedTicks, inheritedAlloc := seq(|nodes|, _ => 0), seq(|nodes|, _ => 0);
      new;
      TreeIsDownward(nodes, index);
    }

    /** Nothing has been added up yet. */
    predicate Zeroed()
      reads this
    {
      && (forall c :: 0 <= c < |ccTicks| ==> ccTicks[c] == 0) && (forall c :: 0 <= c < |ccAlloc| ==> ccAlloc[c] == 0)
      && (forall n :: 0 <= n < |inheritedTicks| ==> inheritedTicks[n] == 0)
      && (forall n :: 0 <= n < |inheritedAlloc| ==> inheritedAlloc[n] == 0)
    }

    /** The passes of reportCCSProfiling() and reportPerCCCosts(). No cost is lost: the cost centres
        together have what all stacks have, the totals are those of the reported stacks, and MAIN
        inherits all of that exactly if no reported stack with costs is below an ignored one. */
    method ReportCCSProfiling()
      requires Valid() && Zeroed()
      modifies this
      ensures Valid() && index == old(index)
      ensures |ccTicks| == |old(ccTicks)| && forall cc :: 0 <= cc < |ccTicks| ==>
                && ccTicks[cc] == SumOver(ticks, set m | 0 <= m < |nodes| && nodes[m].cc == cc)
                && ccAlloc[cc] == SumOver(alloc, set m | 0 <= m < |nodes| && nodes[m].cc == cc)
      ensures totalTicks == SumOver(ticks, set m | 0 <= m < |nodes| && m !in ignored)
      ensures totalAlloc == SumOver(alloc, set m | 0 <= m < |nodes| && m !in ignored)
      ensures forall n :: 0 <= n < |nodes| ==>
                && inheritedTicks[n] == SumOver(ticks, VisibleBelow(nodes, ignored, n))
                && inheritedAlloc[n] == SumOver(alloc, VisibleBelow(nodes, ignored, n))
      ensures Total(ccTicks) == Total(ticks) && Total(ccAlloc) == Total(alloc)
      ensures totalTicks == Total(Reported(ticks, ignored)) && totalAlloc == Total(Reported(alloc, ignored))
      ensures inheritedTicks[0] <= totalTicks && (inheritedTicks[0] == totalTicks <==> NothingHidden(nodes, ticks, ignored))
      ensures inheritedAlloc[0] <= totalAlloc && (inheritedAlloc[0] == totalAlloc <==> NothingHidden(nodes, alloc, ignored))
    {
      assert |nodes| > 0;
      hide TreeOk, Downward, SettledBelow, TreeSum, NothingHidden;
      totalTicks, totalAlloc := 0, 0;
      CountTickss(0);
      WalkIsTotal(nodes, index, Reported(ticks, ignored), |nodes|);
      WalkIsTotal(nodes, index, Reported(alloc, ignored), |nodes|);
      AggregateCCCosts(0);
      CentresHaveAll(nodes, index, ticks, ccTicks);
      CentresHaveAll(nodes, index, alloc, ccAlloc);
      InheritCosts(0);
      MainInherited(nodes, index, ticks, ignored, old(inheritedTicks), inheritedTicks);
      MainInherited(nodes, index, alloc, ignored, old(inheritedAlloc), inheritedAlloc);
      AllSettled(nodes, index, ticks, ignored, old(inheritedTicks), inheritedTicks);
      AllSettled(nodes, index, alloc, ignored, old(inheritedAlloc), inheritedAlloc);
      CentresCharged(nodes, index, ticks, ccTicks);
      CentresCharged(nodes, index, alloc, ccAlloc);
      TotalIsCharged(nodes, index, ticks, ignored);
      TotalIsCharged(nodes, index, alloc, ignored);
    }

    /** aggregateCCCosts(): each cost centre gets the costs of its stacks at or below n. */
    method AggregateCCCosts(n: nat)
      requires Valid() && n < |nodes|
      modifies this`ccTicks, this`ccAlloc
      ensures Valid() && |ccTicks| == |old(ccTicks)|
      ensures forall cc :: 0 <= cc < |ccTicks| ==>
                && ccTicks[cc] == old(ccTicks[cc]) + TreeSum(index, OfCC(nodes, ticks, cc), n)
                && ccAlloc[cc] == old(ccAlloc[cc]) + TreeSum(index, OfCC(nodes, alloc, cc), n)
      decreases |nodes| - n
    {
      hide Good, Stack;
      var c := nodes[n].cc;
      assert nodes[n] in nodes;
      ccAlloc := ccAlloc[c := ccAlloc[c] + alloc[n]];
      ccTicks := ccTicks[c := ccTicks[c] + ticks[n]];
      for k := 0 to |index[n]|
        invariant Valid() && |ccTicks| == |old(ccTicks)|
        invariant forall cc :: 0 <= cc < |ccTicks| ==>
                    && ccTicks[cc] == old(ccTicks[cc]) + OfCC(nodes, ticks, cc)[n] + ChildSum(index, OfCC(nodes, ticks, cc), n, k)
                    && ccAlloc[cc] == old(ccAlloc[cc]) + OfCC(nodes, alloc, cc)[n] + ChildSum(index, OfCC(nodes, alloc, cc), n, k)
      {
        assert index[n][k] in index[n];
        if !index[n][k].backEdge {
          AggregateCCCosts(index[n][k].ccs);
        }
      }
    }

    /** countTickss(): the costs of all reported stacks, also of those below ignored ones. */
    method CountTickss(n: nat)
      requires Valid() && n < |nodes|
      modifies this`totalTicks, this`totalAlloc
      ensures Valid()
      ensures totalTicks == old(totalTicks) + TreeSum(index, Reported(ticks, ignored), n)
      ensures totalAlloc == old(totalAlloc) + TreeSum(index, Reported(alloc, ignored), n)
      decreases |nodes| - n
    {
      hide Good, Stack;
      if n !in ignored {
        totalAlloc := totalAlloc + alloc[n];
        totalTicks := totalTicks + ticks[n];
      }
      for k := 0 to |index[n]|
        invariant Valid()
        invariant totalTicks == old(totalTicks) + Reported(ticks, ignored)[n] + ChildSum(index, Reported(ticks, ignored), n, k)
        invariant totalAlloc == old(totalAlloc) + Reported(alloc, ignored)[n] + ChildSum(index, Reported(alloc, ignored), n, k)
      {
        assert index[n][k] in index[n];
        if !index[n][k].backEdge {
          CountTickss(index[n][k].ccs);
        }
      }
    }

    /** inheritCosts(): each stack at or below n that is not hidden gets its own costs and what its
        children inherited. */
    method InheritCosts(n: nat)
      requires Valid() && n < |nodes| && (n > 0 ==> !Hidden(nodes, ignored, nodes[n].prev))
      requires Untouched(nodes, n, inheritedTicks) && Untouched(nodes, n, inheritedAlloc)
      modifies this`inheritedTicks, this`inheritedAlloc
      ensures Valid()
      ensures SettledBelow(nodes, index, ticks, ignored, n, old(inheritedTicks), inheritedTicks)
      ensures SettledBelow(nodes, index, alloc, ignored, n, old(inheritedAlloc), inheritedAlloc)
      decreases |nodes| - n, 1
    {
      hide Good, Stack;
      if n in ignored {
        HiddenBelow(nodes, ignored, n);
        return;
      }
      assert !Hidden(nodes, ignored, n);
      inheritedTicks := inheritedTicks[n := inheritedTicks[n] + ticks[n]];
      inheritedAlloc := inheritedAlloc[n := inheritedAlloc[n] + alloc[n]];
      PartlyStarts(nodes, index, ticks, ignored, n, old(inheritedTicks), inheritedTicks);
      PartlyStarts(nodes, index, alloc, ignored, n, old(inheritedAlloc), inheritedAlloc);
      ghost var t, a := old(inheritedTicks), old(inheritedAlloc);
      for k := 0 to |index[n]|
        invariant Valid()
        invariant Partly(nodes, index, ticks, ignored, n, k, t, inheritedTicks)
        invariant Partly(nodes, index, alloc, ignored, n, k, a, inheritedAlloc)
      {
        hide Partly, Hidden, TreeOk, Downward;
        InheritFromEntry(n, k, t, a);
      }
      hide Hidden;
      PartlyEnds(nodes, index, ticks, ignored, n, t, inheritedTicks);
      PartlyEnds(nodes, index, alloc, ignored, n, a, inheritedAlloc);
    }

    /** One round of the loop of inheritCosts(). */
    method InheritFromEntry(n: nat, k: nat, ghost t: seq<nat>, ghost a: seq<nat>)
      requires Valid() && n < |nodes| && k < |index[n]|
      requires Partly(nodes, index, ticks, ignored, n, k, t, inheritedTicks)
      requires Partly(nodes, index, alloc, ignored, n, k, a, inheritedAlloc)
      modifies this`inheritedTicks, this`inheritedAlloc
      ensures Valid()
      ensures Partly(nodes, index, ticks, ignored, n, k + 1, t, inheritedTicks)
      ensures Partly(nodes, index, alloc, ignored, n, k + 1, a, inheritedAlloc)
      decreases |nodes| - n, 0
    {
      hide Partly, Untouched, SettledBelow, Hidden, Good, Stack, Downward;
      ghost var t1, a1 := inheritedTicks, inheritedAlloc;
      PartlyReady(nodes, index, ticks, ignored, n, k, t, t1);
      PartlyReady(nodes, index, alloc, ignored, n, k, a, a1);
      var c := index[n][k].ccs;
      if !index[n][k].backEdge {
        InheritCosts(c);
        PartlyStep(nodes, index, ticks, ignored, n, k, t, t1, inheritedTicks);
        PartlyStep(nodes, index, alloc, ignored, n, k, a, a1, inheritedAlloc);
        inheritedTicks := inheritedTicks[n := inheritedTicks[n] + inheritedTicks[c]];
        inheritedAlloc := inheritedAlloc[n := inheritedAlloc[n] + inheritedAlloc[c]];
      }
    }
  }

  lemma AllSettled(ns: seq<Node>, ix: Tables, w: seq<nat>, ignored: set<nat>, before: seq<nat>, now: seq<nat>)
    requires TreeOk(ns, ix) && Downward(ix) && |w| == |ns| && SettledBelow(ns, ix, w, ignored, 0, before, now)
    ensures |now| == |ns| && forall n :: 0 <= n < |ns| ==> now[n] == SumOver(w, VisibleBelow(ns, ignored, n))
  {
    hide Settled, TreeOk, Downward, VisibleBelow, SumOver;
    ShapeOfTree(ns, ix);
    forall n | 0 <= n < |ns| ensures now[n] == SumOver(w, VisibleBelow(ns, ignored, n)) {
      SettledIsVisible(ns, ix, w, ignored, n);
      MainIsAbove(ns, n);
    }
  }

  lemma ShapeOfTree(ns: seq<Node>, ix: Tables)
    requires TreeOk(ns, ix)
    ensures Shape(ns)
  {
  }

  lemma CentresCharged(ns: seq<Node>, ix: Tables, w: seq<nat>, cc: seq<nat>)
    requires TreeOk(ns, ix) && Downward(ix) && |w| == |ns|
    requires forall c :: 0 <= c < |cc| ==> cc[c] == TreeSum(ix, OfCC(ns, w, c), 0)
    ensures forall c :: 0 <= c < |cc| ==> cc[c] == SumOver(w, set m | 0 <= m < |ns| && ns[m].cc == c)
  {
    hide TreeSum, TreeOk, Downward, OfCC, SumOver;
    forall c | 0 <= c < |cc| ensures cc[c] == SumOver(w, set m | 0 <= m < |ns| && ns[m].cc == c) {
      CentreIsCharged(ns, ix, w, c);
    }
  }

  /** No stack that is reported and has costs is below an ignored one. */
  predicate NothingHidden(ns: seq<Node>, w: seq<nat>, ignored: set<nat>)
    requires Shape(ns) && |w| == |ns|
  {
    forall m :: 0 <= m < |ns| && m !in ignored && Hidden(ns, ignored, m) ==> w[m] == 0
  }

  lemma MainInherited(ns: seq<Node>, ix: Tables, w: seq<nat>, ignored: set<nat>, before: seq<nat>, now: seq<nat>)
    requires TreeOk(ns, ix) && Downward(ix) && |w| == |ns| && SettledBelow(ns, ix, w, ignored, 0, before, now)
    ensures now[0] <= Total(Reported(w, ignored))
    ensures now[0] == Total(Reported(w, ignored)) <==> NothingHidden(ns, w, ignored)
  {
    MainInheritsTheTotal(ns, ix, w, ignored);
    assert Above(ns, 0, 0);
  }

  lemma CentresHaveAll(ns: seq<Node>, ix: Tables, w: seq<nat>, cc: seq<nat>)
    requires TreeOk(ns, ix) && Downward(ix) && |w| == |ns| && forall n <- ns :: n.cc < |cc|
    requires forall c :: 0 <= c < |cc| ==> cc[c] == TreeSum(ix, OfCC(ns, w, c), 0)
    ensures Total(cc) == Total(w)
  {
    hide TreeSum;
    forall c | 0 <= c < |cc| ensures cc[c] == Total(OfCC(ns, w, c)) {
      WalkIsTotal(ns, ix, OfCC(ns, w, c), |ns|);
    }
    CentresUpTo(ns, w, cc, |cc|);
    assert cc[..|cc|] == cc;
    assert forall i :: 0 <= i < |ns| ==> ns[i] in ns;
    CCsAddUp(ns, w, |cc|);
  }

  lemma {:induction false} CentresUpTo(ns: seq<Node>, w: seq<nat>, cc: seq<nat>, k: nat)
    requires |w| == |ns| && k <= |cc| && forall c :: 0 <= c < |cc| ==> cc[c] == Total(OfCC(ns, w, c))
    ensures Total(cc[..k]) == TotalOfCCs(ns, w, k)
  {
    if k > 0 {
      CentresUpTo(ns, w, cc, k - 1);
      assert cc[..k][..k - 1] == cc[..k - 1];
    }
  }

  predicate Untouched(ns: seq<Node>, n: nat, inh: seq<nat>)
    requires Shape(ns)
  {
    |inh| == |ns| && forall m :: 0 <= m < |ns| && Above(ns, n, m) ==> inh[m] == 0
  }

  /** At and below n everything is settled, elsewhere nothing has changed. */
  predicate SettledBelow(ns: seq<Node>, ix: Tables, w: seq<nat>, ignored: set<nat>, n: nat,
                         before: seq<nat>, now: seq<nat>)
    requires Shape(ns) && Downward(ix) && |w| == |ix| == |ns|
  {
    && |before| == |now| == |ns|
    && forall m :: 0 <= m < |ns| ==>
         now[m] == if Above(ns, n, m) then Settled(ns, ix, w, ignored, m) else before[m]
  }

  /** The first k entries of n's table are dealt with. */
  predicate Partly(ns: seq<Node>, ix: Tables, w: seq<nat>, ignored: set<nat>, n: nat, k: nat,
                   before: seq<nat>, now: seq<nat>)
    requires Shape(ns) && Downward(ix) && |w| == |ix| == |ns| && n < |ns| && k <= |ix[n]|
  {
    && |before| == |now| == |ns| && !Hidden(ns, ignored, n)
    && now[n] == w[n] + ChildInherited(ix, w, ignored, n, k)
    && Untouched(ns, n, before)
    && forall m :: 0 <= m < |ns| && m != n ==>
         now[m] == if Passed(ns, ix, n, k, m) then Settled(ns, ix, w, ignored, m) else before[m]
  }

  lemma PartlyStarts(ns: seq<Node>, ix: Tables, w: seq<nat>, ignored: set<nat>, n: nat, before: seq<nat>, now: seq<nat>)
    requires TreeOk(ns, ix) && Downward(ix) && |w| == |ns| && n < |ns| && !Hidden(ns, ignored, n)
    requires Untouched(ns, n, before) && now == before[n := before[n] + w[n]]
    ensures Partly(ns, ix, w, ignored, n, 0, before, now)
  {
    assert Above(ns, n, n);
  }

  lemma PartlyEnds(ns: seq<Node>, ix: Tables, w: seq<nat>, ignored: set<nat>, n: nat, before: seq<nat>, now: seq<nat>)
    requires TreeOk(ns, ix) && Downward(ix) && |w| == |ns| && n < |ns|
    requires Partly(ns, ix, w, ignored, n, |ix[n]|, before, now)
    ensures SettledBelow(ns, ix, w, ignored, n, before, now)
  {
    forall m | 0 <= m < |ns| && m != n ensures Passed(ns, ix, n, |ix[n]|, m) <==> Above(ns, n, m) {
      AllPassed(ns, ix, n, m);
    }
    hide Passed, TreeOk;
  }

  lemma PartlyReady(ns: seq<Node>, ix: Tables, w: seq<nat>, ignored: set<nat>, n: nat, k: nat,
                    before: seq<nat>, now: seq<nat>)
    requires TreeOk(ns, ix) && Downward(ix) && |w| == |ns| && n < |ns| && k < |ix[n]|
    requires Partly(ns, ix, w, ignored, n, k, before, now)
    ensures !ix[n][k].backEdge ==>
              && n < ix[n][k].ccs < |ns| && ns[ix[n][k].ccs].prev == n && !Hidden(ns, ignored, n)
              && Untouched(ns, ix[n][k].ccs, now)
    ensures ix[n][k].backEdge ==> Partly(ns, ix, w, ignored, n, k + 1, before, now)
  {
    hide Good, Passed, Settled, Hidden;
    var e := ix[n][k];
    PassOn(ns, ix, n, k, n);
    forall m | 0 <= m < |ns| && m != n
      ensures e.backEdge ==> (Passed(ns, ix, n, k + 1, m) <==> Passed(ns, ix, n, k, m))
      ensures !e.backEdge && Above(ns, e.ccs, m) ==> now[m] == 0
    {
      PassOn(ns, ix, n, k, m);
      if !e.backEdge && Above(ns, e.ccs, m) {
        OnlyOneToward(ns, n, e.ccs, m);
      }
    }
    if !e.backEdge && Above(ns, e.ccs, n) {
      AboveIsNotBelow(ns, e.ccs, n);
    }
  }

  lemma PartlyStep(ns: seq<Node>, ix: Tables, w: seq<nat>, ignored: set<nat>, n: nat, k: nat,
                   before: seq<nat>, now: seq<nat>, later: seq<nat>)
    requires TreeOk(ns, ix) && Downward(ix) && |w| == |ns| && n < |ns| && k < |ix[n]| && !ix[n][k].backEdge
    requires Partly(ns, ix, w, ignored, n, k, before, now)
    requires SettledBelow(ns, ix, w, ignored, ix[n][k].ccs, now, later)
    ensures ix[n][k].ccs < |later|
    ensures Partly(ns, ix, w, ignored, n, k + 1, before, later[n := later[n] + later[ix[n][k].ccs]])
  {
    hide Good, Passed;
    var c := ix[n][k].ccs;
    PassOn(ns, ix, n, k, n);
    assert Above(ns, c, c);
    if Above(ns, c, n) {
      AboveIsNotBelow(ns, c, n);
    }
    forall m | 0 <= m < |ns| && m != n
      ensures Passed(ns, ix, n, k + 1, m) <==> Passed(ns, ix, n, k, m) || Above(ns, c, m)
    {
      PassOn(ns, ix, n, k, m);
    }
    assert later[c] == Inherited(ix, w, ignored, c);
  }

  lemma HiddenBelow(ns: seq<Node>, ignored: set<nat>, n: nat)
    requires Shape(ns) && n < |ns| && Hidden(ns, ignored, n)
    ensures forall m :: 0 <= m < |ns| && Above(ns, n, m) ==> Hidden(ns, ignored, m)
  {
    forall m | 0 <= m < |ns| && Above(ns, n, m) ensures Hidden(ns, ignored, m) {
      HiddenIsInherited(ns, ignored, n, m);
    }
  }

  lemma {:induction false} HiddenIsInherited(ns: seq<Node>, ignored: set<nat>, n: nat, m: nat)
    requires Shape(ns) && n < |ns| && Hidden(ns, ignored, n) && m < |ns| && Above(ns, n, m)
    ensures Hidden(ns, ignored, m)
    decreases m
  {
    if n != m {
      HiddenIsInherited(ns, ignored, n, ns[m].prev);
    }
  }
}
