/** The heap the retainer profiler walks, and what it is to find out: the most recent retainer on
    each path from a root to a closure. */
module RetainerGraph {
  import opened Retainers

  /** How the children of a closure are visited. `Single` leaves nothing on the traverse stack,
      `Fixed` (two or three children) is popped with its last child, `Ptrs` only when it is found
      to be used up. `Direct` (TSO, PAP, AP), `Chunk` (STACK) and `ApStack` are walked by
      recursion. A skipped closure has no retainer set at all. */
  datatype Layout =
    | Leaf
    | Single(child: nat)
    | Fixed(children: seq<nat>)
    | Ptrs(children: seq<nat>)
    | Direct(children: seq<nat>)
    | Chunk(children: seq<nat>)
    | ApStack(fun: nat, children: seq<nat>)
    | Skipped

  datatype Closure = Closure(layout: Layout, isRetainer: bool, tag: Retainer)

  type Heap = seq<Closure>

  const CCS_SYSTEM: Retainer := 0

  function Children(l: Layout): seq<nat> {
    match l
    case Leaf => []
    case Single(d) => [d]
    case Fixed(ds) => ds
    case Ptrs(ds) => ds
    case Direct(ds) => ds
    case Chunk(ds) => ds
    case ApStack(f, ds) => [f] + ds
    case Skipped => []
  }

  function Kids(g: Heap, c: nat): seq<nat>
    requires c < |g|
  {
    Children(g[c].layout)
  }

  predicate WellFormed(g: Heap) {
    && (forall c, d :: 0 <= c < |g| && d in Kids(g, c) ==> d < |g|)
    && (forall c :: 0 <= c < |g| && g[c].layout.Fixed? ==> 2 <= |g[c].layout.children| <= 3)
  }

  /** The retainer a root starts with: itself if it is one, otherwise the system. */
  function RootTag(g: Heap, c: nat): Retainer
    requires c < |g|
  {
    if g[c].isRetainer then g[c].tag else CCS_SYSTEM
  }

  /** A path along children, from a root. */
  ghost predicate Path(g: Heap, roots: seq<nat>, p: seq<nat>) {
    && |p| > 0 && Last(p) < |g|
    && if |p| == 1 then Last(p) in roots
       else Path(g, roots, Init(p)) && Last(p) in Kids(g, Last(Init(p)))
  }

  function Last(p: seq<nat>): nat
    requires |p| > 0
  {
    p[|p| - 1]
  }

  function Init(p: seq<nat>): (q: seq<nat>)
    requires |p| > 0
    ensures |q| < |p|
  {
    p[..|p| - 1]
  }

  /** The most recent retainer of the last closure of a path: its nearest proper ancestor on the
      path that is a retainer, or the tag of the root. */
  ghost function MostRecent(g: Heap, roots: seq<nat>, p: seq<nat>): Retainer
    requires Path(g, roots, p)
    decreases |p|, 0
  {
    if |p| == 1 then RootTag(g, Last(p)) else Onward(g, roots, Init(p))
  }

  /** What the last closure of a path hands on to its children. */
  ghost function Onward(g: Heap, roots: seq<nat>, p: seq<nat>): Retainer
    requires Path(g, roots, p)
    decreases |p|, 1
  {
    if g[Last(p)].isRetainer then g[Last(p)].tag else MostRecent(g, roots, p)
  }

  /** r is the most recent retainer of c on some path. */
  ghost predicate Retains(g: Heap, roots: seq<nat>, r: Retainer, c: nat) {
    exists p :: Path(g, roots, p) && Last(p) == c && MostRecent(g, roots, p) == r
  }

  /** c hands r on to its children on some path. */
  ghost predicate Carries(g: Heap, roots: seq<nat>, r: Retainer, c: nat) {
    exists p :: Path(g, roots, p) && Last(p) == c && Onward(g, roots, p) == r
  }

  lemma RootRetains(g: Heap, roots: seq<nat>, c: nat)
    requires c < |g| && c in roots
    ensures Retains(g, roots, RootTag(g, c), c)
  {
    assert Path(g, roots, [c]) && MostRecent(g, roots, [c]) == RootTag(g, c);
  }

  lemma RetainsCarries(g: Heap, roots: seq<nat>, r: Retainer, c: nat)
    requires Retains(g, roots, r, c) && c < |g|
    ensures Carries(g, roots, if g[c].isRetainer then g[c].tag else r, c)
  {
    var p :| Path(g, roots, p) && Last(p) == c && MostRecent(g, roots, p) == r;
    assert Onward(g, roots, p) == if g[c].isRetainer then g[c].tag else r;
  }

  lemma CarriesRetains(g: Heap, roots: seq<nat>, r: Retainer, c: nat, d: nat)
    requires WellFormed(g) && c < |g| && Carries(g, roots, r, c) && d in Kids(g, c)
    ensures Retains(g, roots, r, d)
  {
    var p :| Path(g, roots, p) && Last(p) == c && Onward(g, roots, p) == r;
    var q := p + [d];
    assert Init(q) == p;
    assert Path(g, roots, q) && MostRecent(g, roots, q) == r;
  }

  /** Along the path p from k on there is no retainer before the last closure, except possibly p[k]. */
  predicate FreeFrom(g: Heap, p: seq<nat>, k: nat) {
    forall i :: k < i < |p| - 1 ==> p[i] < |g| && !g[p[i]].isRetainer
  }

  /** r is the tag of the retainer p[k], from which the path goes on without further retainers, or
      that of the root, or the system if it is none, if the path has no retainer above its last
      closure. */
  predicate TagOf(g: Heap, p: seq<nat>, k: nat, r: Retainer) {
    && k < |p| && p[k] < |g| && FreeFrom(g, p, k)
    && if k < |p| - 1 && g[p[k]].isRetainer then r == g[p[k]].tag
       else k == 0 && r == if g[p[0]].isRetainer then g[p[0]].tag else CCS_SYSTEM
  }

  lemma {:induction false} RetainerFreePath(g: Heap, roots: seq<nat>, p: seq<nat>)
    requires Path(g, roots, p)
    ensures exists k: nat :: TagOf(g, p, k, MostRecent(g, roots, p))
    decreases |p|
  {
    var n := |p| - 1;
    if n == 0 {
      assert TagOf(g, p, 0, MostRecent(g, roots, p));
    } else {
      var q := Init(p);
      assert Path(g, roots, q) && Last(q) == p[n - 1];
      assert MostRecent(g, roots, p) == if g[p[n - 1]].isRetainer then g[p[n - 1]].tag else MostRecent(g, roots, q);
      RetainerFreePath(g, roots, q);
      hide Path, MostRecent;
      TagStep(g, p, MostRecent(g, roots, q), MostRecent(g, roots, p));
    }
  }

  /** One closure more on the path. */
  lemma TagStep(g: Heap, p: seq<nat>, before: Retainer, after: Retainer)
    requires |p| > 1 && p[|p| - 2] < |g| && exists k: nat :: TagOf(g, Init(p), k, before)
    requires after == if g[p[|p| - 2]].isRetainer then g[p[|p| - 2]].tag else before
    ensures exists k: nat :: TagOf(g, p, k, after)
  {
    var n := |p| - 1;
    if g[p[n - 1]].isRetainer {
      assert TagOf(g, p, n - 1, after);
    } else {
      var q := Init(p);
      var k: nat :| TagOf(g, q, k, before);
      forall i | k < i < |p| - 1 ensures p[i] < |g| && !g[p[i]].isRetainer {
        assert i < n - 1 ==> p[i] == q[i];
      }
      assert p[k] == q[k] && p[0] == q[0];
      assert TagOf(g, p, k, after);
    }
  }

  /** A numbering that decreases along every edge: the heap has no cycle. */
  ghost predicate Ranked(g: Heap, rank: nat -> nat) {
    forall c, d :: 0 <= c < |g| && d in Kids(g, c) ==> rank(d) < rank(c)
  }

  /** Only closures that are walked with the traverse stack. */
  predicate StackOnly(g: Heap) {
    forall c :: 0 <= c < |g| ==> !g[c].layout.Direct? && !g[c].layout.Chunk? && !g[c].layout.ApStack?
  }
}
