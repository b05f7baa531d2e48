/** The tree of cost-centre stacks (rts/Profiling.c) seen as sequences of cost centres: what the
    objects, their parents and their index tables stand for. Objects are numbered in the order of
    their creation; number 0 is MAIN. */
module StackTree {

  type CC = nat

  /** A child or a remembered push: pushing `cc` gives the stack `ccs`. */
  datatype Entry = Entry(cc: CC, ccs: nat, backEdge: bool)

  /** A stack object without its index table; `prev` is -1 for the parent of MAIN (EMPTY_STACK). */
  datatype Node = Node(cc: CC, prev: int, root: nat, depth: nat)

  /** The index table of each stack, newest entry first. */
  type Tables = seq<seq<Entry>>

  /** Parents come before their children. */
  predicate Shape(ns: seq<Node>) {
    && |ns| > 0 && ns[0].prev == -1 && ns[0].depth == 0
    && forall n :: 0 < n < |ns| ==> 0 <= ns[n].prev < n && ns[n].depth == ns[ns[n].prev].depth + 1
  }

  /** The cost centres of a stack, MAIN's first. */
  function Stack(ns: seq<Node>, n: nat): (q: seq<CC>)
    requires Shape(ns) && n < |ns|
    ensures |q| == ns[n].depth + 1 && q[|q| - 1] == ns[n].cc
  {
    if n == 0 then [ns[0].cc] else Stack(ns, ns[n].prev) + [ns[n].cc]
  }

  /** The stack q cut off after its topmost c. */
  function Truncated(q: seq<CC>, c: CC): seq<CC>
    requires c in q
  {
    if q[|q| - 1] == c then q else Truncated(q[..|q| - 1], c)
  }

  /** The meaning of a push. */
  function Push(q: seq<CC>, c: CC): seq<CC> {
    if c in q then Truncated(q, c) else q + [c]
  }

  predicate NoRepeats(q: seq<CC>) {
    forall i, j :: 0 <= i < j < |q| ==> q[i] != q[j]
  }

  /** The memo entry e of stack n says what the push would compute; a forward entry is a child. */
  predicate EntryOk(ns: seq<Node>, n: nat, e: Entry)
    requires Shape(ns) && n < |ns|
  {
    && e.ccs < |ns| && e.cc != ns[n].cc
    && Stack(ns, e.ccs) == Push(Stack(ns, n), e.cc)
    && (e.backEdge <==> e.cc in Stack(ns, n))
    && (!e.backEdge ==> ns[e.ccs].prev == n && ns[e.ccs].cc == e.cc)
  }

  predicate DistinctKeys(index: seq<Entry>) {
    forall i, j :: 0 <= i < j < |index| ==> index[i].cc != index[j].cc
  }

  /** A stack directly under MAIN is its own root if it is predefined and has MAIN's root if it was
      pushed; all others have their parent's root. */
  predicate RootOk(ns: seq<Node>, n: nat)
    requires Shape(ns) && n < |ns|
  {
    if n == 0 then ns[n].root == 0
    else if ns[n].prev == 0 then ns[n].root == n || ns[n].root == 0
    else ns[n].root == ns[ns[n].prev].root
  }

  /** Every stack but MAIN is remembered by its parent. */
  predicate Listed(ns: seq<Node>, ix: Tables, n: nat)
    requires Shape(ns) && |ix| == |ns| && n < |ns|
  {
    n == 0 || Entry(ns[n].cc, n, false) in ix[ns[n].prev]
  }

  predicate EntriesOk(ns: seq<Node>, n: nat, index: seq<Entry>)
    requires Shape(ns) && n < |ns|
  {
    forall e :: e in index ==> EntryOk(ns, n, e)
  }

  predicate Good(ns: seq<Node>, ix: Tables, n: nat)
    requires Shape(ns) && |ix| == |ns| && n < |ns|
  {
    && NoRepeats(Stack(ns, n)) && RootOk(ns, n) && Listed(ns, ix, n)
    && DistinctKeys(ix[n]) && EntriesOk(ns, n, ix[n])
  }

  predicate TreeOk(ns: seq<Node>, ix: Tables) {
    Shape(ns) && |ix| == |ns| && forall n :: 0 <= n < |ns| ==> Good(ns, ix, n)
  }

  lemma {:induction false} StackStays(before: seq<Node>, after: seq<Node>, n: nat)
    requires Shape(before) && Shape(after) && before <= after && n < |before|
    ensures Stack(after, n) == Stack(before, n)
    decreases n
  {
    if n > 0 {
      StackStays(before, after, before[n].prev);
    }
  }

  lemma EntryStays(before: seq<Node>, after: seq<Node>, n: nat, e: Entry)
    requires Shape(before) && Shape(after) && before <= after && n < |before|
    requires EntryOk(before, n, e)
    ensures EntryOk(after, n, e)
  {
    hide Stack, Push;
    StackStays(before, after, n);
    StackStays(before, after, e.ccs);
  }

  /** Two stacks with equal sequences are the same object. */
  lemma {:induction false} SameStackSameObject(ns: seq<Node>, ix: Tables, m: nat, n: nat)
    requires TreeOk(ns, ix) && m < |ns| && n < |ns|
    requires Stack(ns, m) == Stack(ns, n)
    ensures m == n
    decreases m
  {
    if m > 0 && n > 0 {
      var p := Stack(ns, ns[m].prev);
      var q := Stack(ns, ns[n].prev);
      assert p == Stack(ns, m)[..|p|] && q == Stack(ns, n)[..|q|];
      SameStackSameObject(ns, ix, ns[m].prev, ns[n].prev);
      var t := ix[ns[m].prev];
      assert Good(ns, ix, m) && Good(ns, ix, n) && Good(ns, ix, ns[m].prev);
      var i :| 0 <= i < |t| && t[i] == Entry(ns[m].cc, m, false);
      var j :| 0 <= j < |t| && t[j] == Entry(ns[n].cc, n, false);
      assert i == j;
    }
  }

  /** The object of a prefix of n's sequence, found by going up. */
  function Up(ns: seq<Node>, n: nat, depth: nat): (a: nat)
    requires Shape(ns) && n < |ns| && depth <= ns[n].depth
    ensures a <= n && ns[a].depth == depth && Stack(ns, a) == Stack(ns, n)[..depth + 1]
    decreases n
  {
    if ns[n].depth == depth then n
    else
      assert Stack(ns, ns[n].prev) == Stack(ns, n)[..ns[n].depth];
      var a := Up(ns, ns[n].prev, depth);
      assert Stack(ns, n)[..ns[n].depth][..depth + 1] == Stack(ns, n)[..depth + 1];
      a
  }

  /** Below MAIN all stacks of a branch have the same root. */
  lemma {:induction false} BranchHasOneRoot(ns: seq<Node>, ix: Tables, n: nat, depth: nat)
    requires TreeOk(ns, ix) && n < |ns| && 0 < depth <= ns[n].depth
    ensures ns[Up(ns, n, depth)].root == ns[n].root
    decreases n
  {
    if ns[n].depth > depth {
      assert Good(ns, ix, n);
      BranchHasOneRoot(ns, ix, ns[n].prev, depth);
    }
  }

  // ---------------------------------------------------------------- sequences

  lemma {:induction false} TruncatedIsPrefix(q: seq<CC>, c: CC)
    requires c in q
    ensures var t := Truncated(q, c); t != [] && t <= q && t[|t| - 1] == c && c !in q[|t|..]
    decreases |q|
  {
    if q[|q| - 1] != c {
      var p := q[..|q| - 1];
      TruncatedIsPrefix(p, c);
      var t := Truncated(p, c);
      assert q[|t|..] == p[|t|..] + [q[|q| - 1]];
    }
  }

  lemma PushKeepsNoRepeats(q: seq<CC>, c: CC)
    requires NoRepeats(q)
    ensures NoRepeats(Push(q, c)) && Push(q, c) != [] && Push(q, c)[|Push(q, c)| - 1] == c
  {
    if c in q {
      TruncatedIsPrefix(q, c);
    }
  }

  /** The prefix that ends with the only c of q. */
  lemma {:induction false} TruncatedAt(q: seq<CC>, c: CC, k: nat)
    requires k < |q| && q[k] == c && c !in q[k + 1..]
    ensures c in q && Truncated(q, c) == q[..k + 1]
    decreases |q|
  {
    var n := |q| - 1;
    if k < n {
      assert q[n] == q[k + 1..][n - k - 1];
      assert forall i :: k < i < n ==> q[..n][i] == q[k + 1..][i - k - 1];
      TruncatedAt(q[..n], c, k);
      assert q[..n][..k + 1] == q[..k + 1];
    }
  }

  /** Pushing the elements of f in order. */
  function PushAll(q: seq<CC>, f: seq<CC>): seq<CC>
    decreases |f|
  {
    if f == [] then q else Push(PushAll(q, f[..|f| - 1]), f[|f| - 1])
  }

  /** The length of the longest common prefix. */
  function Common(p: seq<CC>, f: seq<CC>): (k: nat)
    ensures k <= |p| && k <= |f|
  {
    if p == [] || f == [] || p[0] != f[0] then 0 else 1 + Common(p[1..], f[1..])
  }

  lemma {:induction false} CommonIsLongest(p: seq<CC>, f: seq<CC>)
    ensures p[..Common(p, f)] == f[..Common(p, f)]
    ensures Common(p, f) < |p| && Common(p, f) < |f| ==> p[Common(p, f)] != f[Common(p, f)]
  {
    if p != [] && f != [] && p[0] == f[0] {
      CommonIsLongest(p[1..], f[1..]);
      var k := Common(p[1..], f[1..]);
      assert p[..k + 1] == [p[0]] + p[1..][..k];
      assert f[..k + 1] == [f[0]] + f[1..][..k];
    }
  }

  lemma CommonIs(p: seq<CC>, f: seq<CC>, k: nat)
    requires k <= |p| && k <= |f| && p[..k] == f[..k]
    requires k < |p| && k < |f| ==> p[k] != f[k]
    ensures Common(p, f) == k
  {
    CommonIsLongest(p, f);
    var c := Common(p, f);
    assert forall i :: 0 <= i < k ==> p[i] == f[i] by {
      forall i | 0 <= i < k ensures p[i] == f[i] { assert p[..k][i] == f[..k][i]; }
    }
    assert forall i :: 0 <= i < c ==> p[i] == f[i] by {
      forall i | 0 <= i < c ensures p[i] == f[i] { assert p[..c][i] == f[..c][i]; }
    }
  }

  /** What entering a function makes of the current stack: the function's stack without the prefix
      that both have in common, pushed onto the current one. */
  function Entered(p: seq<CC>, f: seq<CC>): seq<CC> {
    PushAll(p, f[Common(p, f)..])
  }

  lemma PrefixNoRepeats(q: seq<CC>, x: seq<CC>)
    requires NoRepeats(q + x)
    ensures NoRepeats(q)
  {
    forall i, j | 0 <= i < j < |q| ensures q[i] != q[j] {
      assert (q + x)[i] == q[i] && (q + x)[j] == q[j];
    }
  }

  /** One more at the end: no repeats if and only if there were none and it is new. */
  lemma NoRepeatsOneMore(q: seq<CC>, c: CC)
    ensures NoRepeats(q + [c]) <==> NoRepeats(q) && c !in q
  {
    var r := q + [c];
    if NoRepeats(r) {
      PrefixNoRepeats(q, [c]);
      forall i | 0 <= i < |q| ensures q[i] != c {
        assert r[i] == q[i] && r[|q|] == c;
      }
    }
  }

  lemma {:induction false} PushAllKeepsNoRepeats(q: seq<CC>, x: seq<CC>)
    requires NoRepeats(q)
    ensures NoRepeats(PushAll(q, x))
    decreases |x|
  {
    if x != [] {
      PushAllKeepsNoRepeats(q, x[..|x| - 1]);
      PushKeepsNoRepeats(PushAll(q, x[..|x| - 1]), x[|x| - 1]);
    }
  }

  /** Pushing a number of cost centres appends them exactly if the longer stack repeats none. */
  lemma PushAllAppends(q: seq<CC>, x: seq<CC>)
    requires NoRepeats(q)
    ensures PushAll(q, x) == q + x <==> NoRepeats(q + x)
  {
    PushAllKeepsNoRepeats(q, x);
    if NoRepeats(q + x) {
      AllAppended(q, x);
    }
  }

  lemma {:induction false} AllAppended(q: seq<CC>, x: seq<CC>)
    requires NoRepeats(q + x)
    ensures PushAll(q, x) == q + x
    decreases |x|
  {
    if x == [] {
      assert q + x == q;
    } else {
      var y, c := x[..|x| - 1], x[|x| - 1];
      assert q + x == (q + y) + [c];
      NoRepeatsOneMore(q + y, c);
      AllAppended(q, y);
    }
  }

  lemma NoRepeatsInBoth(p: seq<CC>, x: seq<CC>)
    requires NoRepeats(p) && NoRepeats(x)
    ensures NoRepeats(p + x) <==> forall c <- x :: c !in p
  {
    if forall c <- x :: c !in p {
      forall i, j | 0 <= i < j < |p + x| ensures (p + x)[i] != (p + x)[j] {
        if i < |p| <= j {
          assert (p + x)[j] in x;
        }
      }
    } else {
      var c :| c in x && c in p;
      var i :| 0 <= i < |p| && p[i] == c;
      var j :| 0 <= j < |x| && x[j] == c;
      assert (p + x)[i] == (p + x)[|p| + j];
    }
  }

  /** With k the length of the longest common prefix, entering gives ccs ++ dropCommonPrefix ccs ccsfn
      exactly if none of the cost centres left of the function's stack is on the current one. */
  lemma EnteredIsAppend(p: seq<CC>, f: seq<CC>, k: nat)
    requires NoRepeats(p) && NoRepeats(f)
    requires k <= |p| && k <= |f| && p[..k] == f[..k]
    requires k < |p| && k < |f| ==> p[k] != f[k]
    ensures Entered(p, f) == p + f[k..] <==> forall c <- f[k..] :: c !in p
  {
    CommonIs(p, f, k);
    PushAllAppends(p, f[k..]);
    assert NoRepeats(f[k..]) by {
      assert forall i :: 0 <= i < |f[k..]| ==> f[k..][i] == f[k + i];
    }
    NoRepeatsInBoth(p, f[k..]);
  }

  /** The operator on the stacks it is explained with, and on one where it does not append. */
  lemma OperatorByExample(a: CC, b: CC, c: CC, d: CC)
    requires NoRepeats([a, b, c, d])
    ensures Entered([a, b, c], []) == [a, b, c]
    ensures Entered([a, b, c], [d]) == [a, b, c, d]
    ensures Entered([a, b, c], [a, b]) == [a, b, c]
    ensures Entered([a, b], [a, b, c]) == [a, b, c]
    ensures Entered([a, b, c], [a, b, d]) == [a, b, c, d]
    ensures Entered([a, b, c], [a, d, b]) == [a, b]
  {
    hide Entered, NoRepeats;
    Distinct(a, b, c, d);
    EnteredAs([a, b, c], [], 0, []);
    EnteredAs([a, b, c], [d], 0, [d]);
    EnteredAs([a, b, c], [a, b], 2, []);
    EnteredAs([a, b], [a, b, c], 2, [c]);
    EnteredAs([a, b, c], [a, b, d], 2, [d]);
    NotAppended(a, b, c, d);
  }

  lemma Distinct(a: CC, b: CC, c: CC, d: CC)
    requires NoRepeats([a, b, c, d])
    ensures a != b && a != c && a != d && b != c && b != d && c != d
    ensures NoRepeats([a, b, c]) && NoRepeats([a, b]) && NoRepeats([a, b, d]) && NoRepeats([d]) && NoRepeats([])
  {
    var q := [a, b, c, d];
    assert q[0] != q[1] && q[0] != q[2] && q[0] != q[3] && q[1] != q[2] && q[1] != q[3] && q[2] != q[3];
  }

  lemma EnteredAs(p: seq<CC>, f: seq<CC>, k: nat, x: seq<CC>)
    requires NoRepeats(p) && NoRepeats(f) && k <= |p| && k <= |f| && p[..k] == f[..k] && f[k..] == x
    requires k < |p| && k < |f| ==> p[k] != f[k]
    requires forall c <- x :: c !in p
    ensures Entered(p, f) == p + x
  {
    EnteredIsAppend(p, f, k);
  }

  lemma NotAppended(a: CC, b: CC, c: CC, d: CC)
    requires a != b && a != c && a != d && b != c && b != d && c != d
    ensures Entered([a, b, c], [a, d, b]) == [a, b]
  {
    var p, f := [a, b, c], [a, d, b];
    assert p[..1] == f[..1];
    CommonIs(p, f, 1);
    assert f[1..] == [d] + [b];
    PushAllOneMore(p, [], d);
    assert [] + [d] == [d];
    PushAllOneMore(p, [d], b);
    assert Push(p, d) == p + [d] == [a, b, c, d];
    TruncatedAt([a, b, c, d], b, 1);
    assert [a, b, c, d][..2] == [a, b];
  }

  /** The part of a stack above its topmost CAF cost centre, or above MAIN. */
  function AboveCaf(f: seq<CC>, cafs: set<CC>): seq<CC> {
    if |f| <= 1 || f[|f| - 1] in cafs then [] else AboveCaf(f[..|f| - 1], cafs) + [f[|f| - 1]]
  }

  lemma {:induction false} AboveCafIsSuffix(f: seq<CC>, cafs: set<CC>)
    requires f != []
    ensures var k := |f| - |AboveCaf(f, cafs)| - 1;
      && 0 <= k < |f| && AboveCaf(f, cafs) == f[k + 1..]
      && (k == 0 || f[k] in cafs) && forall i :: k < i < |f| ==> f[i] !in cafs
  {
    if |f| > 1 && f[|f| - 1] !in cafs {
      AboveCafIsSuffix(f[..|f| - 1], cafs);
    }
  }

  /** appendCCS() on sequences: as far down as MAIN, a CAF cost centre or the stack p itself. */
  function Appended(p: seq<CC>, f: seq<CC>, cafs: set<CC>): seq<CC>
    decreases |f|
  {
    if f == p || |f| <= 1 || f[|f| - 1] in cafs then p
    else Push(Appended(p, f[..|f| - 1], cafs), f[|f| - 1])
  }

  /** Unless p is itself a stack on the way down, all of f above its CAF root is pushed. */
  lemma {:induction false} AppendedIsPushed(p: seq<CC>, f: seq<CC>, cafs: set<CC>)
    requires f != [] && (p <= f ==> |p| == 1)
    ensures Appended(p, f, cafs) == PushAll(p, AboveCaf(f, cafs))
    decreases |f|
  {
    if f != p && |f| > 1 && f[|f| - 1] !in cafs {
      var g := f[..|f| - 1];
      AppendedIsPushed(p, g, cafs);
      var above := AboveCaf(f, cafs);
      assert above == AboveCaf(g, cafs) + [f[|f| - 1]];
      assert above[..|above| - 1] == AboveCaf(g, cafs);
    }
  }

  lemma PushAllOneMore(q: seq<CC>, f: seq<CC>, c: CC)
    ensures PushAll(q, f + [c]) == Push(PushAll(q, f), c)
  {
    assert (f + [c])[..|f|] == f;
  }

  /** Adding one cost centre to both of two equally long sequences that are then still different,
      or to the longer one, leaves their common prefix as it is. */
  lemma CommonOfLonger(p: seq<CC>, f: seq<CC>, x: seq<CC>, c: CC)
    requires |p| == |f| && |x| == 1 && p + x != f + [c]
    ensures Common(p + x, f + [c]) == Common(p, f)
    ensures (f + [c])[Common(p, f)..] == f[Common(p, f)..] + [c]
  {
    CommonIsLongest(p, f);
    var k := Common(p, f);
    assert (p + x)[..k] == p[..k] && (f + [c])[..k] == f[..k];
    CommonIs(p + x, f + [c], k);
  }

  lemma CommonWithLonger(p: seq<CC>, f: seq<CC>, c: CC)
    requires |p| <= |f|
    ensures Common(p, f + [c]) == Common(p, f)
    ensures (f + [c])[Common(p, f)..] == f[Common(p, f)..] + [c]
  {
    CommonIsLongest(p, f);
    var k := Common(p, f);
    assert (f + [c])[..k] == f[..k];
    CommonIs(p, f + [c], k);
  }

  lemma CommonOfPrefix(p: seq<CC>, f: seq<CC>)
    requires |f| <= |p|
    ensures Common(p[..|f|], f) == Common(p, f)
  {
    CommonIsLongest(p, f);
    var k := Common(p, f);
    assert p[..|f|][..k] == p[..k];
    CommonIs(p[..|f|], f, k);
  }

  lemma CommonWithItself(p: seq<CC>)
    ensures Common(p, p) == |p|
  {
    CommonIs(p, p, |p|);
  }

  /** A function stack directly under MAIN leaves the current stack as it is. That is what the
      operator gives exactly if its cost centre is the first one of the current stack or its top. */
  lemma EarlyReturnAgrees(p: seq<CC>, m: CC, d: CC)
    requires p != [] && p[0] == m && m != d && NoRepeats(p)
    ensures Entered(p, [m, d]) == p <==> (|p| > 1 && p[1] == d) || p[|p| - 1] == d
  {
    if |p| > 1 && p[1] == d {
      CommonIs(p, [m, d], 2);
    } else {
      CommonIs(p, [m, d], 1);
      assert [m, d][1..] == [] + [d];
      PushAllOneMore(p, [], d);
      if d in p {
        TruncatedIsPrefix(p, d);
      }
    }
  }
}
