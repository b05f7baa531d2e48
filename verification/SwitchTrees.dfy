/** The byte code generator's multi-way branches (mkMultiBranch in compiler/ghci/ByteCodeGen.lhs): a tree
    of tests leads to the code of the alternative that the scrutinee selects. */
module SwitchTrees {
  import opened Options

  import opened BytecodeMachine

  /** An alternative: the constructor tag or the literal it is for, and its code. */
  datatype Way = Way(discr: int, code: seq<Insn>)

  /** Alternatives for constructors or for integer literals. */
  datatype Kind = Tags | Ints

  /** Discriminants a test of this kind can have. */
  predicate Testable(kind: Kind, d: int) {
    kind.Tags? ==> d >= 0
  }

  function TestLT(kind: Kind, d: int, target: nat): Insn
    requires Testable(kind, d)
  {
    if kind.Tags? then TESTLT_P(d, target) else TESTLT_I(d, target)
  }

  function TestEQ(kind: Kind, d: int, target: nat): Insn
    requires Testable(kind, d)
  {
    if kind.Tags? then TESTEQ_P(d, target) else TESTEQ_I(d, target)
  }

  /** The alternatives are in increasing order, without repetitions, from `lo` to `hi`. */
  ghost predicate Ordered(kind: Kind, ways: seq<Way>, lo: int, hi: int) {
    && Testable(kind, lo)
    && (forall i :: 0 <= i < |ways| ==> lo <= ways[i].discr <= hi)
    && (forall i, j :: 0 <= i < j < |ways| ==> ways[i].discr < ways[j].discr)
  }

  lemma HalvesOrdered(kind: Kind, ways: seq<Way>, lo: int, hi: int)
    requires Ordered(kind, ways, lo, hi) && |ways| >= 2
    ensures var n := |ways| / 2; var mid := ways[n].discr;
      && lo <= mid - 1 && Testable(kind, mid)
      && Ordered(kind, ways[..n], lo, mid - 1) && Ordered(kind, ways[n..], mid, hi)
  {
    var n := |ways| / 2;
    assert ways[0].discr < ways[n].discr;
  }

  /** mkTree, with its labels resolved: the code is to stand at address `base`, and the default
      alternative, if there is one, at address `default`. */
  function Tree(kind: Kind, ways: seq<Way>, lo: int, hi: int, base: nat, default: Option<nat>): seq<Insn>
    requires Ordered(kind, ways, lo, hi) && (ways != [] || default.Some?)
    decreases |ways|
  {
    if ways == [] then [JMP(default.value)]
    else if |ways| == 1 then
      if lo == hi then ways[0].code
      else
        match default
        case None => [TestEQ(kind, ways[0].discr, base + 1 + |ways[0].code|)] + ways[0].code + [CASEFAIL]
        case Some(l) => [TestEQ(kind, ways[0].discr, l)] + ways[0].code
    else
      HalvesOrdered(kind, ways, lo, hi);
      var n := |ways| / 2;
      var mid := ways[n].discr;
      var below := Tree(kind, ways[..n], lo, mid - 1, base + 1, default);
      var geq := base + 1 + |below|;
      [TestLT(kind, mid, geq)] + below + Tree(kind, ways[n..], mid, hi, geq, default)
  }

  lemma TreeOfTwo(kind: Kind, ways: seq<Way>, lo: int, hi: int, base: nat, default: Option<nat>)
    requires Ordered(kind, ways, lo, hi) && |ways| >= 2
    ensures var n := |ways| / 2; var mid := ways[n].discr;
      && 0 < n < |ways| && Testable(kind, mid)
      && Ordered(kind, ways[..n], lo, mid - 1) && Ordered(kind, ways[n..], mid, hi)
      && var below := Tree(kind, ways[..n], lo, mid - 1, base + 1, default);
         Tree(kind, ways, lo, hi, base, default) ==
         [TestLT(kind, mid, base + 1 + |below|)] + below + Tree(kind, ways[n..], mid, hi, base + 1 + |below|, default)
  {
    HalvesOrdered(kind, ways, lo, hi);
  }

  lemma Increasing(kind: Kind, ways: seq<Way>, lo: int, hi: int)
    requires Ordered(kind, ways, lo, hi)
    ensures forall i, j :: 0 <= i < j < |ways| ==> ways[i].discr < ways[j].discr
  {
  }

  /** The instructions `code` stand at `pc` in BCO `b`. */
  ghost predicate CodeAt(h: Heap, b: nat, pc: nat, code: seq<Insn>) {
    b in h && h[b].Bco? && pc + |code| <= |h[b].code| && h[b].code[pc..pc + |code|] == code
  }

  lemma CodeParts(h: Heap, b: nat, pc: nat, a: seq<Insn>, c: seq<Insn>)
    requires CodeAt(h, b, pc, a + c)
    ensures CodeAt(h, b, pc, a) && CodeAt(h, b, pc + |a|, c)
  {
    var code := h[b].code[pc..pc + |a + c|];
    assert code[..|a|] == a && code[|a|..] == c;
    assert h[b].code[pc..pc + |a|] == code[..|a|];
    assert h[b].code[pc + |a|..pc + |a| + |c|] == code[|a|..];
  }

  lemma InsnAt(m: Machine, b: nat, pc: nat, i: Insn)
    requires m.mode == Exec(b, pc) && CodeAt(m.heap, b, pc, [i])
    ensures CurrentInsn(m) == Some(i)
  {
    assert m.heap[b].code[pc..pc + 1][0] == i;
  }

  /** The scrutinee is a constructor with tag `t`, or the literal `t` under the info word it is returned
      with. */
  ghost predicate Scrutinises(kind: Kind, m: Machine, t: int) {
    match kind
    case Tags => m.stack != [] && Points(m.stack[0], m.heap) && m.heap[m.stack[0].p].Con? && m.heap[m.stack[0].p].tag == t
    case Ints => |m.stack| > 1 && m.stack[1] == Lit(t)
  }

  /** A test falls through if the scrutinee is less than, or equal to, its operand, and else jumps to
      the target given; nothing else changes. */
  lemma LessDecides(kind: Kind, m: Machine, b: nat, pc: nat, t: int, d: int, target: nat)
    requires m.mode == Exec(b, pc) && Scrutinises(kind, m, t) && Testable(kind, d)
    requires CodeAt(m.heap, b, pc, [TestLT(kind, d, target)])
    ensures Reaches(m, m.(mode := Exec(b, if t < d then pc + 1 else target)), 1)
  {
    hide CodeAt, Reaches;
    InsnAt(m, b, pc, TestLT(kind, d, target));
    OneStep(m, m.(mode := Exec(b, if t < d then pc + 1 else target)));
  }

  lemma EqualDecides(kind: Kind, m: Machine, b: nat, pc: nat, t: int, d: int, target: nat)
    requires m.mode == Exec(b, pc) && Scrutinises(kind, m, t) && Testable(kind, d)
    requires CodeAt(m.heap, b, pc, [TestEQ(kind, d, target)])
    ensures Reaches(m, m.(mode := Exec(b, if t == d then pc + 1 else target)), 1)
  {
    hide CodeAt, Reaches;
    InsnAt(m, b, pc, TestEQ(kind, d, target));
    OneStep(m, m.(mode := Exec(b, if t == d then pc + 1 else target)));
  }

  lemma JumpDecides(m: Machine, b: nat, pc: nat, target: nat)
    requires m.mode == Exec(b, pc) && CodeAt(m.heap, b, pc, [JMP(target)])
    ensures Reaches(m, m.(mode := Exec(b, target)), 1)
  {
    InsnAt(m, b, pc, JMP(target));
    OneStep(m, m.(mode := Exec(b, target)));
  }

  /** Where the tree leads to for scrutinee `t`: to the code of the alternative for it, or else to the
      default, or else to an instruction that stops the program. */
  ghost predicate Selects(h: Heap, b: nat, ways: seq<Way>, default: Option<nat>, t: int, k: nat) {
    && (forall i :: 0 <= i < |ways| && ways[i].discr == t ==> CodeAt(h, b, k, ways[i].code))
    && ((forall i :: 0 <= i < |ways| ==> ways[i].discr != t) ==>
          if default.Some? then k == default.value else CodeAt(h, b, k, [CASEFAIL]))
  }

  lemma {:induction false} TreeSelects(kind: Kind, ways: seq<Way>, lo: int, hi: int, base: nat, default: Option<nat>,
                                       m: Machine, b: nat, t: int) returns (k: nat, n: nat)
    requires Ordered(kind, ways, lo, hi) && (ways != [] || default.Some?) && lo <= t <= hi
    requires m.mode == Exec(b, base) && CodeAt(m.heap, b, base, Tree(kind, ways, lo, hi, base, default))
    requires Scrutinises(kind, m, t)
    ensures Reaches(m, m.(mode := Exec(b, k)), n) && Selects(m.heap, b, ways, default, t, k)
    decreases |ways|
  {
    hide Reaches, CodeAt, Scrutinises, Tree, Ordered, Selects;
    if |ways| < 2 {
      k, n := LeafSelects(kind, ways, lo, hi, base, default, m, b, t);
    } else {
      var half := |ways| / 2;
      var mid := ways[half].discr;
      var m1, pc := TestSelects(kind, ways, lo, hi, base, default, m, b, t);
      if t < mid {
        k, n := TreeSelects(kind, ways[..half], lo, mid - 1, pc, default, m1, b, t);
      } else {
        k, n := TreeSelects(kind, ways[half..], mid, hi, pc, default, m1, b, t);
      }
      ReachesJoin(m, m1, m.(mode := Exec(b, k)), 1, n);
      n := n + 1;
      Increasing(kind, ways, lo, hi);
      HalfSelects(m.heap, b, ways, half, default, t, k);
    }
  }

  /** The test at the root of a tree leads to the half that the scrutinee belongs to. */
  lemma TestSelects(kind: Kind, ways: seq<Way>, lo: int, hi: int, base: nat, default: Option<nat>,
                    m: Machine, b: nat, t: int) returns (m1: Machine, pc: nat)
    requires Ordered(kind, ways, lo, hi) && |ways| >= 2 && lo <= t <= hi
    requires m.mode == Exec(b, base) && CodeAt(m.heap, b, base, Tree(kind, ways, lo, hi, base, default))
    requires Scrutinises(kind, m, t)
    ensures m1 == m.(mode := Exec(b, pc)) && Reaches(m, m1, 1) && Scrutinises(kind, m1, t)
    ensures var n := |ways| / 2; var mid := ways[n].discr;
      if t < mid then Ordered(kind, ways[..n], lo, mid - 1) && CodeAt(m.heap, b, pc, Tree(kind, ways[..n], lo, mid - 1, pc, default))
      else Ordered(kind, ways[n..], mid, hi) && CodeAt(m.heap, b, pc, Tree(kind, ways[n..], mid, hi, pc, default))
  {
    hide Reaches, CodeAt, Scrutinises, Tree, Ordered;
    TreeOfTwo(kind, ways, lo, hi, base, default);
    var half := |ways| / 2;
    var mid := ways[half].discr;
    var below := Tree(kind, ways[..half], lo, mid - 1, base + 1, default);
    var geq := base + 1 + |below|;
    CodeParts(m.heap, b, base, [TestLT(kind, mid, geq)] + below, Tree(kind, ways[half..], mid, hi, geq, default));
    CodeParts(m.heap, b, base, [TestLT(kind, mid, geq)], below);
    LessDecides(kind, m, b, base, t, mid, geq);
    pc := if t < mid then base + 1 else geq;
    m1 := m.(mode := Exec(b, pc));
    ScrutineeStays(kind, m, m1, t);
  }

  lemma ScrutineeStays(kind: Kind, m: Machine, m1: Machine, t: int)
    requires Scrutinises(kind, m, t) && m1.stack == m.stack && m1.heap == m.heap
    ensures Scrutinises(kind, m1, t)
  {
  }

  lemma HalfSelects(h: Heap, b: nat, ways: seq<Way>, half: nat, default: Option<nat>, t: int, k: nat)
    requires half < |ways| && forall i, j :: 0 <= i < j < |ways| ==> ways[i].discr < ways[j].discr
    requires Selects(h, b, if t < ways[half].discr then ways[..half] else ways[half..], default, t, k)
    ensures Selects(h, b, ways, default, t, k)
  {
    hide CodeAt;
    forall i | 0 <= i < |ways| && ways[i].discr == t ensures CodeAt(h, b, k, ways[i].code) {
      if t < ways[half].discr { assert ways[..half][i] == ways[i]; } else { assert ways[half..][i - half] == ways[i]; }
    }
  }

  lemma LeafSelects(kind: Kind, ways: seq<Way>, lo: int, hi: int, base: nat, default: Option<nat>,
                    m: Machine, b: nat, t: int) returns (k: nat, n: nat)
    requires Ordered(kind, ways, lo, hi) && |ways| < 2 && (ways != [] || default.Some?) && lo <= t <= hi
    requires m.mode == Exec(b, base) && CodeAt(m.heap, b, base, Tree(kind, ways, lo, hi, base, default))
    requires Scrutinises(kind, m, t)
    ensures Reaches(m, m.(mode := Exec(b, k)), n) && Selects(m.heap, b, ways, default, t, k)
  {
    hide CodeAt, Scrutinises;
    if ways == [] {
      JumpDecides(m, b, base, default.value);
      k, n := default.value, 1;
    } else if lo == hi {
      k, n := base, 0;
      assert m.(mode := Exec(b, base)) == m;
    } else {
      var way := ways[0];
      var target := if default.Some? then default.value else base + 1 + |way.code|;
      var test := TestEQ(kind, way.discr, target);
      if default.None? {
        CodeParts(m.heap, b, base, [test] + way.code, [CASEFAIL]);
      }
      CodeParts(m.heap, b, base, [test], way.code);
      EqualDecides(kind, m, b, base, t, way.discr, target);
      k, n := if t == way.discr then base + 1 else target, 1;
    }
  }

  // ---------------------------------------------------------------- all alternatives of a case

  /** The alternatives in increasing order (sortLe in mkMultiBranch). */
  function Insert(w: Way, ways: seq<Way>): seq<Way> {
    if ways == [] || w.discr <= ways[0].discr then [w] + ways else [ways[0]] + Insert(w, ways[1..])
  }

  function Sorted(ways: seq<Way>): seq<Way> {
    if ways == [] then [] else Insert(ways[0], Sorted(ways[1..]))
  }

  ghost predicate Distinct(ways: seq<Way>) {
    forall i, j :: 0 <= i < j < |ways| ==> ways[i].discr != ways[j].discr
  }

  ghost predicate InRange(kind: Kind, ways: seq<Way>, lo: int, hi: int) {
    Testable(kind, lo) && forall w <- ways :: lo <= w.discr <= hi
  }

  lemma {:induction false} InsertOrders(kind: Kind, w: Way, ways: seq<Way>, lo: int, hi: int)
    requires Ordered(kind, ways, lo, hi) && lo <= w.discr <= hi && forall v <- ways :: v.discr != w.discr
    ensures Ordered(kind, Insert(w, ways), lo, hi)
    ensures forall v :: v in Insert(w, ways) <==> v == w || v in ways
  {
    if ways != [] && w.discr > ways[0].discr {
      InsertOrders(kind, w, ways[1..], lo, hi);
      var r := Insert(w, ways[1..]);
      assert ways == [ways[0]] + ways[1..];
      hide Insert;
      PutInFront(kind, ways[0], r, lo, hi);
    } else {
      assert ways != [] ==> forall i :: 0 <= i < |ways| ==> ways[0].discr <= ways[i].discr;
      hide Insert;
      assert forall v <- ways :: w.discr < v.discr;
      PutInFront(kind, w, ways, lo, hi);
    }
  }

  lemma PutInFront(kind: Kind, w: Way, ways: seq<Way>, lo: int, hi: int)
    requires Ordered(kind, ways, lo, hi) && lo <= w.discr <= hi && forall v <- ways :: w.discr < v.discr
    ensures Ordered(kind, [w] + ways, lo, hi)
  {
    assert forall i :: 0 <= i < |ways| ==> ways[i] in ways;
  }

  lemma {:induction false} SortedOrders(kind: Kind, ways: seq<Way>, lo: int, hi: int)
    requires InRange(kind, ways, lo, hi) && Distinct(ways)
    ensures Ordered(kind, Sorted(ways), lo, hi)
    ensures forall v :: v in Sorted(ways) <==> v in ways
  {
    if ways != [] {
      SortedOrders(kind, ways[1..], lo, hi);
      forall v | v in Sorted(ways[1..]) ensures v.discr != ways[0].discr {
        var j :| 0 <= j < |ways[1..]| && ways[1..][j] == v;
        assert ways[j + 1] == v;
      }
      InsertOrders(kind, ways[0], Sorted(ways[1..]), lo, hi);
      assert ways == [ways[0]] + ways[1..];
    }
  }

  /** How long the tree is does not depend on where it stands. */
  lemma {:induction false} TreeLength(kind: Kind, ways: seq<Way>, lo: int, hi: int, base: nat, base': nat, l: nat, l': nat)
    requires Ordered(kind, ways, lo, hi)
    ensures |Tree(kind, ways, lo, hi, base, Some(l))| == |Tree(kind, ways, lo, hi, base', Some(l'))|
    decreases |ways|
  {
    hide Tree, Ordered, TestLT, TestEQ;
    if |ways| < 2 {
      LeafLength(kind, ways, lo, hi, base, l);
      LeafLength(kind, ways, lo, hi, base', l');
    } else {
      TreeOfTwo(kind, ways, lo, hi, base, Some(l));
      TreeOfTwo(kind, ways, lo, hi, base', Some(l'));
      var n := |ways| / 2;
      var mid := ways[n].discr;
      TreeLength(kind, ways[..n], lo, mid - 1, base + 1, base' + 1, l, l');
      var geq := base + 1 + |Tree(kind, ways[..n], lo, mid - 1, base + 1, Some(l))|;
      var geq' := base' + 1 + |Tree(kind, ways[..n], lo, mid - 1, base' + 1, Some(l'))|;
      TreeLength(kind, ways[n..], mid, hi, geq, geq', l, l');
    }
  }

  lemma LeafLength(kind: Kind, ways: seq<Way>, lo: int, hi: int, base: nat, l: nat)
    requires Ordered(kind, ways, lo, hi) && |ways| < 2
    ensures |Tree(kind, ways, lo, hi, base, Some(l))| ==
            if ways == [] then 1 else if lo == hi then |ways[0].code| else 1 + |ways[0].code|
  {
  }

  /** mkMultiBranch: the tree for all alternatives, and behind it the default. The range is that of the
      tags of the type, or of the machine's integers. */
  function MultiBranch(kind: Kind, ways: seq<Way>, default: Option<seq<Insn>>, lo: int, hi: int): seq<Insn>
    requires InRange(kind, ways, lo, hi) && Distinct(ways) && (ways != [] || default.Some?)
  {
    SortedOrders(kind, ways, lo, hi);
    SortedNotEmpty(ways);
    match default
    case None => Tree(kind, Sorted(ways), lo, hi, 0, None)
    case Some(code) =>
      var at := |Tree(kind, Sorted(ways), lo, hi, 0, Some(0))|;
      Tree(kind, Sorted(ways), lo, hi, 0, Some(at)) + code
  }

  lemma SortedNotEmpty(ways: seq<Way>)
    ensures ways != [] ==> Sorted(ways) != []
  {
  }

  /** The code that a case continuation begins to execute: for a scrutinee in the range it runs the
      alternative for it, or else the default, with stack and heap as they are; if there is neither, the
      program stops at CASEFAIL. */
  lemma CaseRunsArm(kind: Kind, ways: seq<Way>, default: Option<seq<Insn>>, lo: int, hi: int, m: Machine, b: nat, t: int)
    returns (k: nat, n: nat)
    requires InRange(kind, ways, lo, hi) && Distinct(ways) && (ways != [] || default.Some?) && lo <= t <= hi
    requires m.mode == Exec(b, 0) && CodeAt(m.heap, b, 0, MultiBranch(kind, ways, default, lo, hi))
    requires Scrutinises(kind, m, t)
    ensures Reaches(m, m.(mode := Exec(b, k)), n)
    ensures forall w :: w in ways && w.discr == t ==> CodeAt(m.heap, b, k, w.code)
    ensures (forall w <- ways :: w.discr != t) ==>
              CodeAt(m.heap, b, k, if default.Some? then default.value else [CASEFAIL])
  {
    hide CodeAt, Reaches, Scrutinises, Tree, Sorted;
    SortedOrders(kind, ways, lo, hi);
    SortedNotEmpty(ways);
    var sorted := Sorted(ways);
    var at: Option<nat> := None;
    if default.Some? {
      at := Some(|Tree(kind, sorted, lo, hi, 0, Some(0))|);
      TreeLength(kind, sorted, lo, hi, 0, 0, 0, at.value);
      CodeParts(m.heap, b, 0, Tree(kind, sorted, lo, hi, 0, at), default.value);
    }
    k, n := TreeSelects(kind, sorted, lo, hi, 0, at, m, b, t);
    forall w | w in ways && w.discr == t ensures CodeAt(m.heap, b, k, w.code) {
      var i :| 0 <= i < |sorted| && sorted[i] == w;
    }
    if forall w <- ways :: w.discr != t {
      assert forall i :: 0 <= i < |sorted| ==> sorted[i] in sorted;
    }
  }
}
