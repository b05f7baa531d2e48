/** On a heap without cycles whose closures are all walked with the traverse stack, and as long as
    no set saturates, the traversal finds every most recent retainer. This is what justifies taking
    over the parent's set when it has exactly one element more (rts/RetainerProfile.c). */
module RetainerExactness {
  import opened Retainers
  import opened RetainerGraph
  import opened RetainerInvariants

  predicate Saturated(rset: seq<RSet>) {
    exists i :: 0 <= i < |rset| && rset[i].Many?
  }

  function Elems(s: RSet): set<Retainer> {
    if s.Fin? then s.elems else {}
  }

  /** r is one of the retainers c hands on to its children. */
  predicate Hands(g: Heap, rset: seq<RSet>, c: nat, r: Retainer)
    requires |rset| == |g| && c < |g|
  {
    if g[c].isRetainer then !rset[c].Null? && r == g[c].tag else r in Elems(rset[c])
  }

  /** Whatever a visited closure hands on has arrived at its children, or a visit bringing it is
      still to come. */
  ghost predicate Flow(g: Heap, rset: seq<RSet>, items: set<Item>)
    requires |rset| == |g| && WellFormed(g)
  {
    forall c, d, r :: 0 <= c < |g| && d in Kids(g, c) && Hands(g, rset, c, r) ==>
      g[d].layout.Skipped? || IsMember(r, rset[d]) || Item(d, c, r) in items
  }

  /** The stack is a chain of ancestors: no closure occurs in it twice. */
  ghost predicate Chain(rank: nat -> nat, stack: seq<Frame>) {
    forall i, j :: 0 <= i < j < |stack| ==> rank(stack[i].c) > rank(stack[j].c)
  }

  /** The parent of a visit is below all stack elements, or is one of them with the same retainer. */
  ghost predicate Below(rank: nat -> nat, stack: seq<Frame>, x: Item) {
    && (forall i :: 0 <= i < |stack| ==>
          rank(stack[i].c) > rank(x.cp) || (stack[i].c == x.cp && stack[i].r == x.r))
    && (x.c == x.cp ==> stack == [])
  }

  lemma {:induction false} PendingHasFrame(g: Heap, stack: seq<Frame>, x: Item)
    requires FramesOk(g, stack) && x in Pending(g, stack)
    ensures exists i :: 0 <= i < |stack| && stack[i].c == x.cp && stack[i].r == x.r
    decreases |stack|
  {
    var n := |stack| - 1;
    if x in Pending(g, stack[..n]) {
      PendingHasFrame(g, stack[..n], x);
      var i :| 0 <= i < n && stack[..n][i].c == x.cp && stack[..n][i].r == x.r;
      assert stack[i].c == x.cp && stack[i].r == x.r;
    } else {
      assert stack[n].c == x.cp && stack[n].r == x.r;
    }
  }

  /** The set of the visited closure gains exactly the visit's retainer, also when the parent's set
      is taken over. */
  lemma VisitAddsOne(g: Heap, rset: seq<RSet>, stack: seq<Frame>, x: Item, limit: nat, rank: nat -> nat)
    requires |rset| == |g| && WellFormed(g) && Ranked(g, rank) && limit >= 1 && FieldsOk(rset, limit)
    requires x.c < |g| && x.cp < |g| && (x.c == x.cp || x.c in Kids(g, x.cp)) && !g[x.c].layout.Skipped?
    requires FramesOk(g, stack) && Below(rank, stack, x)
    requires Flow(g, rset, Pending(g, stack) + {x}) && !Saturated(rset)
    ensures var v := Visited(g, rset, x, limit);
      v.Many? || (v.Fin? && v.elems == Elems(rset[x.c]) + {x.r})
  {
    hide Pending;
    var v := Visited(g, rset, x, limit);
    var was := rset[x.c];
    if x.c != x.cp && !g[x.cp].isRetainer && v == rset[x.cp] && rset[x.cp].Fin? {
      var s := rset[x.cp].elems;
      forall r | r in s ensures r == x.r || r in Elems(was) {
        assert Hands(g, rset, x.cp, r);
        if r != x.r && Item(x.c, x.cp, r) in Pending(g, stack) {
          PendingHasFrame(g, stack, Item(x.c, x.cp, r));
        }
      }
      if was.Null? {
        assert s <= {x.r};
        var r :| r in s;
      } else if !IsMember(x.r, was) && |s| == |was.elems| + 1 {
        assert s <= was.elems + {x.r};
        assert |was.elems + {x.r}| == |s|;
        SubsetOfSameSize(s, was.elems + {x.r});
      }
    }
  }

  lemma {:induction false} SubsetOfSameSize(a: set<Retainer>, b: set<Retainer>)
    requires a <= b && |a| == |b|
    ensures a == b
  {
    if x :| x in b && x !in a {
      assert |b - {x}| == |b| - 1;
      SubsetIsSmaller(a, b - {x});
    }
  }

  lemma {:induction false} SubsetIsSmaller(a: set<Retainer>, b: set<Retainer>)
    requires a <= b
    ensures |a| <= |b|
    decreases a
  {
    if x :| x in a {
      SubsetIsSmaller(a - {x}, b - {x});
    }
  }

  lemma SaturatedStays(g: Heap, rset: seq<RSet>, x: Item, limit: nat)
    requires |rset| == |g| && x.c < |g| && x.cp < |g|
    requires Saturated(rset)
    ensures Saturated(rset[x.c := Visited(g, rset, x, limit)])
  {
    var i :| 0 <= i < |rset| && rset[i].Many?;
    assert rset[x.c := Visited(g, rset, x, limit)][i].Many?;
  }

  lemma VisitFlows(g: Heap, rset: seq<RSet>, stack: seq<Frame>, x: Item, limit: nat, rank: nat -> nat)
    requires |rset| == |g| && WellFormed(g) && Ranked(g, rank) && limit >= 1 && FieldsOk(rset, limit)
    requires x.c < |g| && x.cp < |g| && (x.c == x.cp || x.c in Kids(g, x.cp)) && !g[x.c].layout.Skipped?
    requires FramesOk(g, stack) && Below(rank, stack, x)
    requires Flow(g, rset, Pending(g, stack) + {x})
    ensures var rset' := rset[x.c := Visited(g, rset, x, limit)];
      && (Saturated(rset') ||
           (&& Flow(g, rset', Pending(g, stack) + Visits(Kids(g, x.c), x.c, Handed(g, x), 0))
            && (!Descends(g, rset, x) ==> Flow(g, rset', Pending(g, stack)))))
  {
    hide Pending;
    var v := Visited(g, rset, x, limit);
    var rset' := rset[x.c := v];
    if Saturated(rset) {
      SaturatedStays(g, rset, x, limit);
    } else if v.Many? {
      assert rset'[x.c].Many?;
    } else {
      VisitAddsOne(g, rset, stack, x, limit, rank);
      var rest := Pending(g, stack);
      var more := Visits(Kids(g, x.c), x.c, Handed(g, x), 0);
      forall c, d, r | 0 <= c < |g| && d in Kids(g, c) && Hands(g, rset', c, r)
        ensures g[d].layout.Skipped? || IsMember(r, rset'[d]) || Item(d, c, r) in rest
             || (Descends(g, rset, x) && Item(d, c, r) in more)
      {
        assert IsMember(r, rset[d]) ==> IsMember(r, rset'[d]);
        if Hands(g, rset, c, r) {
          assert Item(d, c, r) == x ==> IsMember(r, rset'[d]);
        } else {
          assert c == x.c && r == Handed(g, x) && Descends(g, rset, x);
          var i :| 0 <= i < |Kids(g, x.c)| && Kids(g, x.c)[i] == d;
          assert Item(Kids(g, x.c)[i], x.c, r) in more;
        }
      }
    }
  }

  lemma PushedChain(g: Heap, rank: nat -> nat, stack: seq<Frame>, x: Item)
    requires WellFormed(g) && Ranked(g, rank) && x.c < |g| && x.cp < |g|
    requires x.c == x.cp || x.c in Kids(g, x.cp)
    requires Chain(rank, stack) && Below(rank, stack, x)
    ensures var (stack', d) := Pushed(g, stack, x.c, Handed(g, x));
      Chain(rank, stack') && (d.Some? ==> Below(rank, stack', Item(d.value, x.c, Handed(g, x))))
  {
    var (stack', d) := Pushed(g, stack, x.c, Handed(g, x));
    assert forall i :: 0 <= i < |stack| ==> rank(stack[i].c) > rank(x.c);
    if d.Some? {
      assert d.value in Kids(g, x.c);
    }
  }

  lemma {:induction false} PoppedChain(g: Heap, rank: nat -> nat, stack: seq<Frame>, boundary: nat)
    requires WellFormed(g) && Ranked(g, rank) && FramesOk(g, stack) && Chain(rank, stack)
    ensures var (stack', x) := Popped(g, stack, boundary);
      Chain(rank, stack') && (x.Some? ==> Below(rank, stack', x.value))
    decreases |stack|
  {
    hide Kids, WellFormed, Ranked, Chain, Below;
    if |stack| > boundary {
      var n := |stack| - 1;
      var f := stack[n];
      if f.next == |Kids(g, f.c)| {
        ChainAbove(rank, stack);
        PoppedChain(g, rank, stack[..n], boundary);
      } else {
        assert Kids(g, f.c)[f.next] in Kids(g, f.c);
        BelowTop(g, rank, stack, Kids(g, f.c)[f.next]);
      }
    }
  }

  lemma ChainAbove(rank: nat -> nat, stack: seq<Frame>)
    requires Chain(rank, stack) && |stack| > 0
    ensures Chain(rank, stack[..|stack| - 1])
  {
  }

  /** A child of the top element is below all others, whether the element stays or goes. */
  lemma BelowTop(g: Heap, rank: nat -> nat, stack: seq<Frame>, d: nat)
    requires Ranked(g, rank) && Chain(rank, stack) && |stack| > 0 && stack[|stack| - 1].c < |g|
    requires d in Kids(g, stack[|stack| - 1].c)
    ensures var n := |stack| - 1; var f := stack[n]; var stack' := stack[n := f.(next := f.next + 1)];
      && Chain(rank, stack[..n]) && Below(rank, stack[..n], Item(d, f.c, f.r))
      && Chain(rank, stack') && Below(rank, stack', Item(d, f.c, f.r))
  {
    hide Kids;
    var n := |stack| - 1;
    var f := stack[n];
    assert rank(d) < rank(f.c);
    assert forall i :: 0 <= i < n ==> rank(stack[i].c) > rank(f.c);
  }

  // ---------------------------------------------------------------- the end of the traversal

  /** Every root has the retainer it starts with. */
  ghost predicate RootsTagged(g: Heap, roots: seq<nat>, rset: seq<RSet>)
    requires |rset| == |g|
  {
    forall c <- roots :: c < |g| && (g[c].layout.Skipped? || IsMember(RootTag(g, c), rset[c]))
  }

  lemma {:induction false} PathArrives(g: Heap, roots: seq<nat>, rset: seq<RSet>, p: seq<nat>)
    requires |rset| == |g| && WellFormed(g) && Covered(g, rset, {}, {}) && Flow(g, rset, {})
    requires RootsTagged(g, roots, rset) && !Saturated(rset)
    requires forall c <- roots :: Done(g, rset, c)
    requires Path(g, roots, p)
    ensures g[Last(p)].layout.Skipped? || IsMember(MostRecent(g, roots, p), rset[Last(p)])
    decreases |p|
  {
    if |p| > 1 {
      hide Covered, Flow, RootsTagged, Saturated, WellFormed;
      var q := Init(p);
      PathArrives(g, roots, rset, q);
      PathsAreVisited(g, roots, rset, q);
      ArrivesBelow(g, rset, Last(q), Last(p), MostRecent(g, roots, q));
    }
  }

  /** What has arrived at a closure, or its own tag, arrives at its children. */
  lemma ArrivesBelow(g: Heap, rset: seq<RSet>, c: nat, d: nat, r: Retainer)
    requires |rset| == |g| && WellFormed(g) && Flow(g, rset, {}) && !Saturated(rset)
    requires c < |g| && d < |g| && d in Kids(g, c) && Done(g, rset, c)
    requires g[c].layout.Skipped? || IsMember(r, rset[c])
    ensures g[d].layout.Skipped? || IsMember(if g[c].isRetainer then g[c].tag else r, rset[d])
  {
    if !g[c].layout.Skipped? {
      assert Hands(g, rset, c, if g[c].isRetainer then g[c].tag else r);
    }
  }

  /** The retainer set of a closure is the set of most recent retainers on the paths to it. */
  lemma ExactSets(g: Heap, roots: seq<nat>, rset: seq<RSet>, limit: nat, c: nat, r: Retainer)
    requires WellFormed(g) && Sound(g, roots, rset, limit) && Covered(g, rset, {}, {}) && Flow(g, rset, {})
    requires RootsTagged(g, roots, rset) && !Saturated(rset)
    requires forall c <- roots :: Done(g, rset, c)
    requires c < |g| && !g[c].layout.Skipped?
    ensures r in Elems(rset[c]) <==> Retains(g, roots, r, c)
  {
    if Retains(g, roots, r, c) {
      var p :| Path(g, roots, p) && Last(p) == c && MostRecent(g, roots, p) == r;
      PathArrives(g, roots, rset, p);
    }
  }

  /** A set saturates exactly if some closure has more most recent retainers than the limit. */
  lemma SaturatedMeans(g: Heap, roots: seq<nat>, rset: seq<RSet>, limit: nat)
    requires Sound(g, roots, rset, limit) && FieldsOk(rset, limit)
    requires !Saturated(rset) ==>
               forall c, r :: 0 <= c < |g| && !g[c].layout.Skipped? ==> (r in Elems(rset[c]) <==> Retains(g, roots, r, c))
    ensures Saturated(rset) <==> exists c :: 0 <= c < |g| && !g[c].layout.Skipped? && Crowded(g, roots, limit, c)
  {
    hide Retains;
    if !Saturated(rset) {
      forall c | 0 <= c < |g| && !g[c].layout.Skipped? ensures !Crowded(g, roots, limit, c) {
        if Crowded(g, roots, limit, c) {
          var rs: set<Retainer> :| AllRetain(g, roots, rs, c) && |rs| > limit;
          SubsetIsSmaller(rs, Elems(rset[c]));
        }
      }
    }
  }
}
