/** What the code of the byte code generator does when it is run (compiler/ghci/ByteCodeGen.lhs): tail
    calls, constructor applications, `let` and `case` over variables that live at known depths of the
    stack. All words are of one size here, pointers or integers. */
module CodeGenerator {
  import opened Options

  import opened BytecodeMachine
  import opened SwitchTrees

  type Var = nat

  /** BCEnv: the stack slot of each local variable, counted from the bottom of the function's part of the
      stack, which is `d` words deep. */
  type Env = map<Var, nat>

  datatype Atom = Local(x: Var) | Literal(n: int) | Global(w: Word)

  predicate Bound(a: Atom, p: Env, d: nat) {
    a.Local? ==> a.x in p && p[a.x] < d
  }

  predicate AllBound(args: seq<Atom>, p: Env, d: nat) {
    forall i :: 0 <= i < |args| ==> Bound(args[i], p, d)
  }

  /** What an atom stands for on a stack. */
  function ValueOf(a: Atom, p: Env, d: nat, s: seq<Word>): Word
    requires Bound(a, p, d) && d <= |s|
  {
    match a
    case Local(x) => s[d - 1 - p[x]]
    case Literal(n) => Lit(n)
    case Global(w) => w
  }

  /** Variable x stands for word w. */
  ghost predicate Stands(x: Var, p: Env, d: nat, s: seq<Word>, w: Word) {
    Bound(Local(x), p, d) && d <= |s| && ValueOf(Local(x), p, d, s) == w
  }

  function Values(args: seq<Atom>, p: Env, d: nat, s: seq<Word>): (r: seq<Word>)
    requires AllBound(args, p, d) && d <= |s|
    ensures |r| == |args|
  {
    if args == [] then [] else [ValueOf(args[0], p, d, s)] + Values(args[1..], p, d, s)
  }

  function Rev<T>(s: seq<T>): (r: seq<T>)
    ensures |r| == |s|
  {
    if s == [] then [] else Rev(s[1..]) + [s[0]]
  }

  lemma {:induction false} RevOfSum<T>(a: seq<T>, b: seq<T>)
    ensures Rev(a + b) == Rev(b) + Rev(a)
  {
    if a == [] {
      assert a + b == b;
    } else {
      assert (a + b)[1..] == a[1..] + b;
      RevOfSum(a[1..], b);
    }
  }

  lemma {:induction false} RevRev<T>(a: seq<T>)
    ensures Rev(Rev(a)) == a
  {
    if a != [] {
      RevOfSum(Rev(a[1..]), [a[0]]);
      RevRev(a[1..]);
    }
  }

  lemma {:induction false} RevAt<T>(a: seq<T>, i: nat)
    requires i < |a|
    ensures Rev(a)[|a| - 1 - i] == a[i]
  {
    if i > 0 { RevAt(a[1..], i - 1); }
  }

  lemma {:induction false} ValueAt(args: seq<Atom>, p: Env, d: nat, s: seq<Word>, i: nat)
    requires AllBound(args, p, d) && d <= |s| && i < |args|
    ensures Values(args, p, d, s)[i] == ValueOf(args[i], p, d, s)
  {
    if i > 0 { ValueAt(args[1..], p, d, s, i - 1); }
  }

  lemma {:induction false} ValuesOfSum(a: seq<Atom>, b: seq<Atom>, p: Env, d: nat, s: seq<Word>)
    requires AllBound(a + b, p, d) && d <= |s|
    ensures AllBound(a, p, d) && AllBound(b, p, d)
    ensures Values(a + b, p, d, s) == Values(a, p, d, s) + Values(b, p, d, s)
  {
    BoundParts(a, b, p, d);
    hide AllBound, ValueOf;
    if a == [] {
      assert a + b == b;
    } else {
      assert (a + b)[1..] == a[1..] + b;
      assert AllBound((a + b)[1..], p, d) by { BoundParts([(a + b)[0]], (a + b)[1..], p, d); assert [(a + b)[0]] + (a + b)[1..] == a + b; }
      ValuesOfSum(a[1..], b, p, d, s);
    }
  }

  lemma BoundParts(a: seq<Atom>, b: seq<Atom>, p: Env, d: nat)
    requires AllBound(a + b, p, d)
    ensures AllBound(a, p, d) && AllBound(b, p, d)
  {
    hide Bound;
    forall i: nat | i < |a| ensures Bound(a[i], p, d) { assert (a + b)[i] == a[i]; }
    forall i: nat | i < |b| ensures Bound(b[i], p, d) { assert (a + b)[|a| + i] == b[i]; }
  }

  lemma {:induction false} ValuesOfRev(a: seq<Atom>, p: Env, d: nat, s: seq<Word>)
    requires AllBound(a, p, d) && d <= |s|
    ensures AllBound(Rev(a), p, d) && Values(Rev(a), p, d, s) == Rev(Values(a, p, d, s))
  {
    if a != [] {
      ValuesOfRev(a[1..], p, d, s);
      ValuesOfSum(Rev(a[1..]), [a[0]], p, d, s);
      assert Values([a[0]], p, d, s) == [ValueOf(a[0], p, d, s)];
    }
  }

  /** More words on top of the stack do not matter. */
  lemma {:induction false} ValuesUnder(args: seq<Atom>, p: Env, d: nat, s: seq<Word>, top: seq<Word>)
    requires AllBound(args, p, d) && d <= |s|
    ensures AllBound(args, p, d + |top|) && Values(args, p, d + |top|, top + s) == Values(args, p, d, s)
  {
    if args != [] {
      ValuesUnder(args[1..], p, d, s, top);
    }
  }

  // ---------------------------------------------------------------- pushing atoms

  function PushAtom(a: Atom, p: Env, d: nat): Insn
    requires Bound(a, p, d)
  {
    match a
    case Local(x) => PUSH_L(d - p[x] - 1)
    case Literal(n) => PUSH_UBX([Lit(n)])
    case Global(w) => PUSH_G(w)
  }

  function Pushes(args: seq<Atom>, p: Env, d: nat): (code: seq<Insn>)
    requires AllBound(args, p, d)
    ensures |code| == |args|
  {
    if args == [] then [] else [PushAtom(args[0], p, d)] + Pushes(args[1..], p, d + 1)
  }

  /** The machine at another instruction of the same BCO, with another stack. */
  function On(m: Machine, pc: nat, s: seq<Word>): Machine
    requires m.mode.Exec?
  {
    m.(mode := Exec(m.mode.bco, pc), stack := s)
  }

  lemma PushAtomRuns(m: Machine, b: nat, pc: nat, a: Atom, p: Env, d: nat)
    requires m.mode == Exec(b, pc) && Bound(a, p, d) && d <= |m.stack|
    requires CodeAt(m.heap, b, pc, [PushAtom(a, p, d)])
    ensures Reaches(m, On(m, pc + 1, [ValueOf(a, p, d, m.stack)] + m.stack), 1)
  {
    hide CodeAt, Reaches;
    InsnAt(m, b, pc, PushAtom(a, p, d));
    OneStep(m, On(m, pc + 1, [ValueOf(a, p, d, m.stack)] + m.stack));
  }

  /** Pushing one atom after the other leaves their values on the stack, the last one on top. */
  lemma {:induction false} PushesRun(m: Machine, b: nat, pc: nat, args: seq<Atom>, p: Env, d: nat)
    requires m.mode == Exec(b, pc) && AllBound(args, p, d) && d <= |m.stack|
    requires CodeAt(m.heap, b, pc, Pushes(args, p, d))
    ensures Reaches(m, On(m, pc + |args|, Rev(Values(args, p, d, m.stack)) + m.stack), |args|)
    decreases |args|
  {
    hide CodeAt, PushAtom, Reaches, Pushes, Values, Rev, AllBound;
    if args == [] {
      NothingPushed(m, b, pc, args, p, d);
    } else {
      var m1 := FirstPush(m, b, pc, args, p, d);
      PushesRun(m1, b, pc + 1, args[1..], p, d + 1);
      ReachesJoin(m, m1, On(m, pc + |args|, Rev(Values(args, p, d, m.stack)) + m.stack), 1, |args| - 1);
    }
  }

  lemma NothingPushed(m: Machine, b: nat, pc: nat, args: seq<Atom>, p: Env, d: nat)
    requires args == [] && m.mode == Exec(b, pc) && d <= |m.stack|
    ensures Reaches(m, On(m, pc, Rev(Values(args, p, d, m.stack)) + m.stack), 0)
  {
    assert [] + m.stack == m.stack;
  }

  lemma FirstPush(m: Machine, b: nat, pc: nat, args: seq<Atom>, p: Env, d: nat) returns (m1: Machine)
    requires args != [] && m.mode == Exec(b, pc) && AllBound(args, p, d) && d <= |m.stack|
    requires CodeAt(m.heap, b, pc, Pushes(args, p, d))
    ensures m1.mode == Exec(b, pc + 1) && m1.heap == m.heap && m1.hp == m.hp && Reaches(m, m1, 1) && d + 1 <= |m1.stack|
    ensures AllBound(args[1..], p, d + 1) && CodeAt(m1.heap, b, pc + 1, Pushes(args[1..], p, d + 1))
    ensures Rev(Values(args[1..], p, d + 1, m1.stack)) + m1.stack == Rev(Values(args, p, d, m.stack)) + m.stack
  {
    hide CodeAt, PushAtom, Reaches;
    var w := ValueOf(args[0], p, d, m.stack);
    m1 := On(m, pc + 1, [w] + m.stack);
    CodeParts(m.heap, b, pc, [PushAtom(args[0], p, d)], Pushes(args[1..], p, d + 1));
    PushAtomRuns(m, b, pc, args[0], p, d);
    ValuesUnder(args[1..], p, d, m.stack, [w]);
    var vs := Values(args[1..], p, d, m.stack);
    assert ([w] + vs)[1..] == vs && Rev([w] + vs) == Rev(vs) + [w];
  }

  // ---------------------------------------------------------------- joining pushes

  /** Offsets are 16-bit words. */
  function Less(offset: nat, k: nat): nat
    requires k <= 2
  {
    if offset >= k then offset - k else 0x1_0000 + offset - k
  }

  /** The peephole optimisation of mkProtoBCO: pushes of local variables next to each other become one
      instruction, with all offsets counted from the stack before it. */
  function Peep(code: seq<Insn>): seq<Insn> {
    if |code| > 2 && code[0].PUSH_L? && code[1].PUSH_L? && code[2].PUSH_L? then
      [PUSH_LLL(code[0].o1, Less(code[1].o1, 1), Less(code[2].o1, 2))] + Peep(code[3..])
    else if |code| > 1 && code[0].PUSH_L? && code[1].PUSH_L? then
      [PUSH_LL(code[0].o1, Less(code[1].o1, 1))] + Peep(code[2..])
    else if code != [] then [code[0]] + Peep(code[1..])
    else []
  }

  /** The joined pushes leave what the single ones do: the values of all atoms, the last one on top. */
  lemma {:induction false} JoinedPushesRun(m: Machine, b: nat, pc: nat, args: seq<Atom>, p: Env, d: nat) returns (n: nat)
    requires m.mode == Exec(b, pc) && AllBound(args, p, d) && d <= |m.stack|
    requires CodeAt(m.heap, b, pc, Peep(Pushes(args, p, d)))
    ensures Reaches(m, On(m, pc + |Peep(Pushes(args, p, d))|, Rev(Values(args, p, d, m.stack)) + m.stack), n)
    decreases |args|
  {
    hide CodeAt, PushAtom, Reaches, Pushes, Values, Rev, AllBound, Peep, GroupSize;
    if args == [] {
      NothingPushed(m, b, pc, args, p, d);
      assert Peep(Pushes(args, p, d)) == [] by { NothingJoined(args, p, d); }
      n := 0;
    } else {
      var k := GroupSize(args);
      GroupBound(args, k, p, d);
      var i, m1 := FirstGroup(m, b, pc, args, k, p, d);
      CodeParts(m.heap, b, pc, [i], Peep(Pushes(args[k..], p, d + k)));
      n := JoinedPushesRun(m1, b, pc + 1, args[k..], p, d + k);
      GroupedValues(args, k, p, d, m.stack);
      ReachesJoin(m, m1, On(m, pc + |Peep(Pushes(args, p, d))|, Rev(Values(args, p, d, m.stack)) + m.stack), 1, n);
      n := n + 1;
    }
  }

  lemma NothingJoined(args: seq<Atom>, p: Env, d: nat)
    requires args == []
    ensures AllBound(args, p, d) && Peep(Pushes(args, p, d)) == []
  {
  }

  /** How many pushes become the first instruction. */
  function GroupSize(args: seq<Atom>): (k: nat)
    requires args != []
    ensures 1 <= k <= |args| && k <= 3
  {
    if |args| > 2 && args[0].Local? && args[1].Local? && args[2].Local? then 3
    else if |args| > 1 && args[0].Local? && args[1].Local? then 2
    else 1
  }

  lemma GroupBound(args: seq<Atom>, k: nat, p: Env, d: nat)
    requires AllBound(args, p, d) && k <= |args|
    ensures AllBound(args[..k], p, d) && AllBound(args[k..], p, d) && AllBound(args[k..], p, d + k)
  {
  }

  /** The values of the first group are on the stack under those of the rest. */
  lemma GroupedValues(args: seq<Atom>, k: nat, p: Env, d: nat, s: seq<Word>)
    requires AllBound(args, p, d) && d <= |s| && k <= |args|
    requires AllBound(args[..k], p, d) && AllBound(args[k..], p, d) && AllBound(args[k..], p, d + k)
    ensures var s1 := Rev(Values(args[..k], p, d, s)) + s;
      d + k <= |s1| && Rev(Values(args[k..], p, d + k, s1)) + s1 == Rev(Values(args, p, d, s)) + s
  {
    hide Values, Rev, AllBound;
    var top := Rev(Values(args[..k], p, d, s));
    assert args[..k] + args[k..] == args;
    ValuesUnder(args[k..], p, d, s, top);
    ValuesOfSum(args[..k], args[k..], p, d, s);
    RevOfSum(Values(args[..k], p, d, s), Values(args[k..], p, d, s));
  }

  lemma FirstGroup(m: Machine, b: nat, pc: nat, args: seq<Atom>, k: nat, p: Env, d: nat) returns (i: Insn, m1: Machine)
    requires m.mode == Exec(b, pc) && AllBound(args, p, d) && d <= |m.stack| && args != [] && k == GroupSize(args)
    requires AllBound(args[..k], p, d) && AllBound(args[k..], p, d + k)
    requires CodeAt(m.heap, b, pc, Peep(Pushes(args, p, d)))
    ensures Peep(Pushes(args, p, d)) == [i] + Peep(Pushes(args[k..], p, d + k))
    ensures m1 == On(m, pc + 1, Rev(Values(args[..k], p, d, m.stack)) + m.stack) && Reaches(m, m1, 1)
  {
    hide CodeAt, Reaches, Rev, Values, AllBound, Peep, Pushes;
    i := GroupInsn(args, k, p, d);
    m1 := On(m, pc + 1, Rev(Values(args[..k], p, d, m.stack)) + m.stack);
    CodeParts(m.heap, b, pc, [i], Peep(Pushes(args[k..], p, d + k)));
    InsnAt(m, b, pc, i);
    GroupPushes(m, i, args[..k], p, d);
    OneStep(m, m1);
  }

  /** The instruction for the first k atoms. */
  ghost predicate Joins(i: Insn, group: seq<Atom>, p: Env, d: nat)
    requires AllBound(group, p, d)
  {
    match |group|
    case 1 => i == PushAtom(group[0], p, d)
    case 2 => group[0].Local? && group[1].Local? && i == PUSH_LL(d - p[group[0].x] - 1, d - p[group[1].x] - 1)
    case 3 => group[0].Local? && group[1].Local? && group[2].Local?
              && i == PUSH_LLL(d - p[group[0].x] - 1, d - p[group[1].x] - 1, d - p[group[2].x] - 1)
    case _ => false
  }

  lemma GroupInsn(args: seq<Atom>, k: nat, p: Env, d: nat) returns (i: Insn)
    requires AllBound(args, p, d) && args != [] && k == GroupSize(args)
    requires AllBound(args[..k], p, d) && AllBound(args[k..], p, d + k)
    ensures Joins(i, args[..k], p, d)
    ensures Peep(Pushes(args, p, d)) == [i] + Peep(Pushes(args[k..], p, d + k))
  {
    var code := Pushes(args, p, d);
    PushesAre(args, p, d);
    i := Peep(code)[0];
    assert code[k..] == Pushes(args[k..], p, d + k) by { PushesDrop(args, k, p, d); }
  }

  /** Each push counts from the stack before it. */
  lemma {:induction false} PushesAre(args: seq<Atom>, p: Env, d: nat)
    requires AllBound(args, p, d)
    ensures forall i :: 0 <= i < |args| ==>
              Bound(args[i], p, d + i) && Pushes(args, p, d)[i] == PushAtom(args[i], p, d + i)
    decreases |args|
  {
    if args != [] {
      PushesAre(args[1..], p, d + 1);
    }
  }

  lemma {:induction false} PushesDrop(args: seq<Atom>, k: nat, p: Env, d: nat)
    requires AllBound(args, p, d) && k <= |args| && AllBound(args[k..], p, d + k)
    ensures Pushes(args, p, d)[k..] == Pushes(args[k..], p, d + k)
    decreases k
  {
    if k > 0 {
      assert args[1..][k - 1..] == args[k..];
      PushesDrop(args[1..], k - 1, p, d + 1);
    }
  }

  lemma GroupPushes(m: Machine, i: Insn, group: seq<Atom>, p: Env, d: nat)
    requires AllBound(group, p, d) && Joins(i, group, p, d) && d <= |m.stack| && m.mode.Exec? && CurrentInsn(m) == Some(i)
    ensures Step(m) == Some(On(m, m.mode.pc + 1, Rev(Values(group, p, d, m.stack)) + m.stack))
  {
    hide Rev, Values;
    var s, vs := m.stack, Values(group, p, d, m.stack);
    forall j: nat | j < |group| ensures Rev(vs)[|group| - 1 - j] == ValueOf(group[j], p, d, s) {
      ValueAt(group, p, d, s, j);
      RevAt(vs, j);
    }
    match |group|
    case 1 => assert Rev(vs)[1 - 1 - 0] == ValueOf(group[0], p, d, s); assert Rev(vs) == [ValueOf(group[0], p, d, s)];
    case 2 =>
      assert Rev(vs)[2 - 1 - 1] == ValueOf(group[1], p, d, s) && Rev(vs)[2 - 1 - 0] == ValueOf(group[0], p, d, s);
      assert Rev(vs) == [ValueOf(group[1], p, d, s), ValueOf(group[0], p, d, s)];
    case _ =>
      assert Rev(vs)[3 - 1 - 2] == ValueOf(group[2], p, d, s) && Rev(vs)[3 - 1 - 1] == ValueOf(group[1], p, d, s)
          && Rev(vs)[3 - 1 - 0] == ValueOf(group[0], p, d, s);
      assert Rev(vs) == [ValueOf(group[2], p, d, s), ValueOf(group[1], p, d, s), ValueOf(group[0], p, d, s)];
  }

  function Slide(n: nat, drop: nat): seq<Insn> {
    if drop == 0 then [] else [SLIDE(n, drop)]
  }

  lemma SlideRuns(m: Machine, b: nat, pc: nat, top: seq<Word>, gone: seq<Word>, rest: seq<Word>) returns (n: nat)
    requires m.mode == Exec(b, pc) && m.stack == top + gone + rest && CodeAt(m.heap, b, pc, Slide(|top|, |gone|))
    ensures Reaches(m, On(m, pc + |Slide(|top|, |gone|)|, top + rest), n)
  {
    hide CodeAt, Reaches;
    if gone == [] {
      assert m.stack == top + rest;
      OneConfiguration(m);
      n := 0;
    } else {
      InsnAt(m, b, pc, SLIDE(|top|, |gone|));
      assert m.stack[..|top|] == top && m.stack[|top| + |gone|..] == rest;
      OneStep(m, On(m, pc + 1, top + rest));
      n := 1;
    }
  }

  // ---------------------------------------------------------------- tail calls

  /** How many arguments the next apply frame takes (findPushSeq): a literal alone, or up to six
      pointers. */
  function PtrPrefix(args: seq<Atom>): (n: nat)
    ensures n <= |args| && n <= 6
    ensures args != [] && !args[0].Literal? ==> n > 0
  {
    if args == [] || args[0].Literal? then 0
    else
      var n := PtrPrefix(args[1..]);
      if n < 6 then n + 1 else 6
  }

  function FindPushSeq(args: seq<Atom>): (r: (Apply, nat))
    requires args != []
    ensures 0 < r.1 <= |args| && ArgWords(r.0) == r.1 && Legal(r.0) && r.0 != ApV
  {
    if args[0].Literal? then (ApN, 1) else (ApP(PtrPrefix(args)), PtrPrefix(args))
  }

  /** doTailCall: `args` are from right to left; the part of the stack to go is `drop` words deep, and
      `pushed` words have been put on top of it. */
  function DoPushes(args: seq<Atom>, fn: Atom, p: Env, d: nat, pushed: nat, drop: nat): seq<Insn>
    requires AllBound(args, p, d) && Bound(fn, p, d)
    decreases |args|
  {
    if args == [] then [PushAtom(fn, p, d)] + (Slide(pushed + 1, drop) + [ENTER])
    else
      var (ap, n) := FindPushSeq(args);
      Pushes(args[..n], p, d) + ([PUSH_APPLY(ap)] + DoPushes(args[n..], fn, p, d + n + 1, pushed + n + 1, drop))
  }

  /** The stack that the pushes build up on `top`, with the words `vs` for the arguments. */
  function Built(args: seq<Atom>, vs: seq<Word>, top: seq<Word>): seq<Word>
    requires |vs| == |args|
    decreases |args|
  {
    if args == [] then top
    else
      var (ap, n) := FindPushSeq(args);
      Built(args[n..], vs[n..], [ApplyInfo(ap)] + Rev(vs[..n]) + top)
  }

  lemma FrameOnTop(ap: Apply, vs: seq<Word>, s: seq<Word>)
    requires ArgWords(ap) == |vs| && Legal(ap) && ap != ApV
    ensures WaitingArgs([ApplyInfo(ap)] + vs + s) == vs + WaitingArgs(s)
    ensures BelowArgs([ApplyInfo(ap)] + vs + s) == BelowArgs(s)
  {
    var t := [ApplyInfo(ap)] + vs + s;
    assert t[1..1 + |vs|] == vs && t[1 + |vs|..] == s;
  }

  /** Read off the frames, the arguments are those pushed, from left to right. */
  lemma {:induction false} BuiltArgs(args: seq<Atom>, vs: seq<Word>, top: seq<Word>, s: seq<Word>)
    requires |vs| == |args|
    ensures WaitingArgs(Built(args, vs, top) + s) == Rev(vs) + WaitingArgs(top + s)
    ensures BelowArgs(Built(args, vs, top) + s) == BelowArgs(top + s)
    decreases |args|
  {
    hide WaitingArgs, BelowArgs, FindPushSeq;
    if args == [] {
      assert Rev(vs) + WaitingArgs(top + s) == WaitingArgs(top + s);
    } else {
      hide WaitingArgs, BelowArgs, FindPushSeq, Rev;
      var (ap, n) := FindPushSeq(args);
      var top' := [ApplyInfo(ap)] + Rev(vs[..n]) + top;
      BuiltArgs(args[n..], vs[n..], top', s);
      assert top' + s == [ApplyInfo(ap)] + Rev(vs[..n]) + (top + s);
      FrameOnTop(ap, Rev(vs[..n]), top + s);
      assert vs == vs[..n] + vs[n..];
      RevOfSum(vs[..n], vs[n..]);
      assert Rev(vs) + WaitingArgs(top + s) == Rev(vs[n..]) + (Rev(vs[..n]) + WaitingArgs(top + s));
    }
  }

  /** The pushes of a tail call, then the function, the slide and the entry. `s` is the stack from which
      the atoms take their values, `s[..drop]` the part of it to go. */
  lemma {:induction false} DoPushesRun(m: Machine, b: nat, pc: nat, args: seq<Atom>, fn: Atom, p: Env, d: nat,
                                       top: seq<Word>, s: seq<Word>, drop: nat) returns (n: nat)
    requires AllBound(args, p, d) && Bound(fn, p, d) && d <= |s| && drop <= |s|
    requires m.mode == Exec(b, pc) && m.stack == top + s
    requires AllBound(args, p, d + |top|) && Bound(fn, p, d + |top|)
    requires CodeAt(m.heap, b, pc, DoPushes(args, fn, p, d + |top|, |top|, drop))
    ensures Reaches(m, m.(mode := Eval(ValueOf(fn, p, d, s)), stack := Built(args, Values(args, p, d, s), top) + s[drop..]), n)
    decreases |args|
  {
    hide CodeAt, Reaches, PushAtom, Values;
    if args == [] {
      n := CallRuns(m, b, pc, fn, p, d, top, s, drop);
    } else {
      hide CodeAt, Reaches, PushAtom, Values, Built;
      var (ap, k) := FindPushSeq(args);
      BuiltStep(args, p, d, s, top);
      var vs := Values(args, p, d, s);
      var top' := [ApplyInfo(ap)] + Rev(vs[..k]) + top;
      var m1 := GroupRuns(m, b, pc, args, fn, p, d, top, s, drop);
      n := DoPushesRun(m1, b, pc + k + 1, args[k..], fn, p, d, top', s, drop);
      ReachesJoin(m, m1, m.(mode := Eval(ValueOf(fn, p, d, s)), stack := Built(args, vs, top) + s[drop..]), k + 1, n);
      n := k + 1 + n;
    }
  }

  lemma BuiltStep(args: seq<Atom>, p: Env, d: nat, s: seq<Word>, top: seq<Word>)
    requires args != [] && AllBound(args, p, d) && d <= |s|
    ensures var k := FindPushSeq(args).1; var vs := Values(args, p, d, s);
      && AllBound(args[k..], p, d) && vs[k..] == Values(args[k..], p, d, s)
      && Built(args, vs, top) == Built(args[k..], vs[k..], [ApplyInfo(FindPushSeq(args).0)] + Rev(vs[..k]) + top)
  {
    var k := FindPushSeq(args).1;
    assert args == args[..k] + args[k..];
    ValuesOfSum(args[..k], args[k..], p, d, s);
  }

  /** One apply frame: its arguments are pushed, and its info word. */
  lemma GroupRuns(m: Machine, b: nat, pc: nat, args: seq<Atom>, fn: Atom, p: Env, d: nat,
                  top: seq<Word>, s: seq<Word>, drop: nat) returns (m1: Machine)
    requires args != [] && AllBound(args, p, d) && Bound(fn, p, d) && d <= |s|
    requires m.mode == Exec(b, pc) && m.stack == top + s
    requires AllBound(args, p, d + |top|) && Bound(fn, p, d + |top|)
    requires CodeAt(m.heap, b, pc, DoPushes(args, fn, p, d + |top|, |top|, drop))
    ensures var (ap, k) := FindPushSeq(args); var vs := Values(args, p, d, s);
      var top' := [ApplyInfo(ap)] + Rev(vs[..k]) + top;
      && m1 == On(m, pc + k + 1, top' + s) && Reaches(m, m1, k + 1) && |top'| == |top| + k + 1
      && AllBound(args[k..], p, d) && AllBound(args[k..], p, d + |top'|) && Bound(fn, p, d + |top'|)
      && CodeAt(m1.heap, b, pc + k + 1, DoPushes(args[k..], fn, p, d + |top'|, |top'|, drop))
  {
    hide CodeAt, Reaches, AllBound, FindPushSeq, Rev, DoPushes, Pushes, Values;
    var (ap, k) := FindPushSeq(args);
    var D, vs, code := d + |top|, Values(args, p, d, s), DoPushes(args, fn, p, d + |top|, |top|, drop);
    DoPushesParts(args, fn, p, D, |top|, drop);
    GroupValues(args, k, p, d, s, top);
    var rest := DoPushes(args[k..], fn, p, D + k + 1, |top| + k + 1, drop);
    CodeParts(m.heap, b, pc, Pushes(args[..k], p, D), [PUSH_APPLY(ap)] + rest);
    CodeParts(m.heap, b, pc + k, [PUSH_APPLY(ap)], rest);
    PushesRun(m, b, pc, args[..k], p, D);
    var m0 := On(m, pc + k, Rev(vs[..k]) + m.stack);
    m1 := On(m, pc + k + 1, [ApplyInfo(ap)] + Rev(vs[..k]) + top + s);
    PushApplyRuns(m0, b, pc + k, ap);
    assert [ApplyInfo(ap)] + (Rev(vs[..k]) + (top + s)) == [ApplyInfo(ap)] + Rev(vs[..k]) + top + s;
    ReachesJoin(m, m0, m1, k, 1);
  }

  lemma DoPushesParts(args: seq<Atom>, fn: Atom, p: Env, d: nat, pushed: nat, drop: nat)
    requires args != [] && AllBound(args, p, d) && Bound(fn, p, d)
    ensures var (ap, k) := FindPushSeq(args);
      && k <= |args| && AllBound(args[..k], p, d) && AllBound(args[k..], p, d + k + 1) && Bound(fn, p, d + k + 1)
      && DoPushes(args, fn, p, d, pushed, drop) ==
         Pushes(args[..k], p, d) + ([PUSH_APPLY(ap)] + DoPushes(args[k..], fn, p, d + k + 1, pushed + k + 1, drop))
  {
  }

  lemma GroupValues(args: seq<Atom>, k: nat, p: Env, d: nat, s: seq<Word>, top: seq<Word>)
    requires k <= |args| && AllBound(args, p, d) && d <= |s|
    ensures AllBound(args[..k], p, d + |top|) && AllBound(args[k..], p, d)
    ensures Values(args[..k], p, d + |top|, top + s) == Values(args, p, d, s)[..k]
  {
    assert args == args[..k] + args[k..];
    ValuesUnder(args, p, d, s, top);
    ValuesOfSum(args[..k], args[k..], p, d, s);
    ValuesOfSum(args[..k], args[k..], p, d + |top|, top + s);
  }

  lemma PushApplyRuns(m: Machine, b: nat, pc: nat, ap: Apply)
    requires m.mode == Exec(b, pc) && CodeAt(m.heap, b, pc, [PUSH_APPLY(ap)])
    ensures Reaches(m, On(m, pc + 1, [ApplyInfo(ap)] + m.stack), 1)
  {
    hide CodeAt, Reaches;
    InsnAt(m, b, pc, PUSH_APPLY(ap));
    OneStep(m, On(m, pc + 1, [ApplyInfo(ap)] + m.stack));
  }

  /** The end of a tail call: the function on top, the frame of the caller away, and in. */
  lemma CallRuns(m: Machine, b: nat, pc: nat, fn: Atom, p: Env, d: nat, top: seq<Word>, s: seq<Word>, drop: nat)
    returns (n: nat)
    requires Bound(fn, p, d) && d <= |s| && drop <= |s| && m.mode == Exec(b, pc) && m.stack == top + s
    requires Bound(fn, p, d + |top|)
    requires CodeAt(m.heap, b, pc, [PushAtom(fn, p, d + |top|)] + (Slide(|top| + 1, drop) + [ENTER]))
    ensures Reaches(m, m.(mode := Eval(ValueOf(fn, p, d, s)), stack := top + s[drop..]), n)
  {
    hide CodeAt, Reaches, PushAtom;
    var w := ValueOf(fn, p, d, s);
    var push := [PushAtom(fn, p, d + |top|)];
    CodeParts(m.heap, b, pc, push, Slide(|top| + 1, drop) + [ENTER]);
    CodeParts(m.heap, b, pc + 1, Slide(|top| + 1, drop), [ENTER]);
    PushAtomRuns(m, b, pc, fn, p, d + |top|);
    var m1 := On(m, pc + 1, [w] + (top + s));
    assert [w] + (top + s) == ([w] + top) + s[..drop] + s[drop..];
    var k := SlideRuns(m1, b, pc + 1, [w] + top, s[..drop], s[drop..]);
    var at := pc + 1 + |Slide(|top| + 1, drop)|;
    var m2 := On(m, at, [w] + top + s[drop..]);
    ReachesJoin(m, m1, m2, 1, k);
    var m3 := m.(mode := Eval(w), stack := top + s[drop..]);
    EnterRuns(m2, b, at);
    assert m2.stack[1..] == top + s[drop..];
    ReachesJoin(m, m2, m3, 1 + k, 1);
    n := 2 + k;
  }

  lemma EnterRuns(m: Machine, b: nat, pc: nat)
    requires m.mode == Exec(b, pc) && m.stack != [] && CodeAt(m.heap, b, pc, [ENTER])
    ensures Reaches(m, m.(mode := Eval(m.stack[0]), stack := m.stack[1..]), 1)
  {
    hide CodeAt, Reaches;
    InsnAt(m, b, pc, ENTER);
    OneStep(m, m.(mode := Eval(m.stack[0]), stack := m.stack[1..]));
  }

  /** doTailCall: the code for `fn args` at depth `d`, the caller's frame of which is `drop` words deep,
      evaluates what `fn` stands for, with the arguments in apply frames on top of the stack below the
      caller's frame, in order, whatever groups they were pushed in. */
  lemma TailCallApplies(m: Machine, b: nat, pc: nat, fn: Atom, args: seq<Atom>, p: Env, d: nat, drop: nat)
    returns (m': Machine, n: nat)
    requires AllBound(args, p, d) && Bound(fn, p, d) && d <= |m.stack| && drop <= |m.stack| && m.mode == Exec(b, pc)
    requires AllBound(Rev(args), p, d) && CodeAt(m.heap, b, pc, DoPushes(Rev(args), fn, p, d, 0, drop))
    ensures Reaches(m, m', n) && m'.heap == m.heap && m'.hp == m.hp
    ensures m'.mode == Eval(ValueOf(fn, p, d, m.stack))
    ensures WaitingArgs(m'.stack) == Values(args, p, d, m.stack) + WaitingArgs(m.stack[drop..])
    ensures BelowArgs(m'.stack) == BelowArgs(m.stack[drop..])
  {
    hide CodeAt, Reaches, WaitingArgs, BelowArgs, DoPushes, Built, Values, AllBound;
    var s := m.stack;
    assert [] + s == s;
    n := DoPushesRun(m, b, pc, Rev(args), fn, p, d, [], s, drop);
    var vs := Values(Rev(args), p, d, s);
    m' := m.(mode := Eval(ValueOf(fn, p, d, s)), stack := Built(Rev(args), vs, []) + s[drop..]);
    BuiltArgs(Rev(args), vs, [], s[drop..]);
    ValuesOfRev(args, p, d, s);
    RevRev(Values(args, p, d, s));
    assert [] + s[drop..] == s[drop..];
  }

  // ---------------------------------------------------------------- constructor applications

  function Ptrs(args: seq<Atom>): seq<Atom> {
    if args == [] then [] else (if args[0].Literal? then [] else [args[0]]) + Ptrs(args[1..])
  }

  function NonPtrs(args: seq<Atom>): seq<Atom> {
    if args == [] then [] else (if args[0].Literal? then [args[0]] else []) + NonPtrs(args[1..])
  }

  /** mkConAppCode for a constructor with fields: the non-pointers are pushed first, both from right to
      left. */
  function ConApp(tag: nat, args: seq<Atom>, p: Env, d: nat): seq<Insn>
    requires AllBound(Rev(Ptrs(args) + NonPtrs(args)), p, d)
  {
    Pushes(Rev(Ptrs(args) + NonPtrs(args)), p, d) + [PACK(tag, |Ptrs(args) + NonPtrs(args)|)]
  }

  /** It allocates the constructor with the pointers first and then the others, each in order, and
      leaves a pointer to it on the stack. */
  lemma ConAppBuilds(m: Machine, b: nat, pc: nat, tag: nat, args: seq<Atom>, p: Env, d: nat) returns (n: nat)
    requires d <= |m.stack| && m.mode == Exec(b, pc) && AllBound(Ptrs(args) + NonPtrs(args), p, d)
    requires AllBound(Rev(Ptrs(args) + NonPtrs(args)), p, d) && CodeAt(m.heap, b, pc, ConApp(tag, args, p, d))
    ensures var fields := Values(Ptrs(args) + NonPtrs(args), p, d, m.stack);
      Reaches(m, On(m, pc + |ConApp(tag, args, p, d)|, [Ptr(m.hp, 0)] + m.stack).(
                   heap := m.heap[m.hp := Con(tag, fields)], hp := m.hp + 1), n)
  {
    hide CodeAt, Reaches, AllBound, Pushes, Values, Rev, Ptrs, NonPtrs;
    var fs := Ptrs(args) + NonPtrs(args);
    var fields := Values(fs, p, d, m.stack);
    CodeParts(m.heap, b, pc, Pushes(Rev(fs), p, d), [PACK(tag, |fs|)]);
    PushesRun(m, b, pc, Rev(fs), p, d);
    ValuesOfRev(fs, p, d, m.stack);
    RevRev(fields);
    var m1 := On(m, pc + |fs|, fields + m.stack);
    var m2 := On(m, pc + |fs| + 1, [Ptr(m.hp, 0)] + m.stack).(heap := m.heap[m.hp := Con(tag, fields)], hp := m.hp + 1);
    PackRuns(m1, b, pc + |fs|, tag, fields, m.stack);
    ReachesJoin(m, m1, m2, |fs|, 1);
    n := |fs| + 1;
  }

  lemma PackRuns(m: Machine, b: nat, pc: nat, tag: nat, fields: seq<Word>, s: seq<Word>)
    requires m.mode == Exec(b, pc) && m.stack == fields + s && CodeAt(m.heap, b, pc, [PACK(tag, |fields|)])
    ensures Reaches(m, On(m, pc + 1, [Ptr(m.hp, 0)] + s).(heap := m.heap[m.hp := Con(tag, fields)], hp := m.hp + 1), 1)
  {
    hide CodeAt, Reaches;
    InsnAt(m, b, pc, PACK(tag, |fields|));
    assert m.stack[..|fields|] == fields && m.stack[|fields|..] == s;
    OneStep(m, On(m, pc + 1, [Ptr(m.hp, 0)] + s).(heap := m.heap[m.hp := Con(tag, fields)], hp := m.hp + 1));
  }

  // ---------------------------------------------------------------- let

  /** A binding: the variable, the variables its right-hand side captures, its number of parameters, and
      the BCO for its code. */
  datatype Bind = Bind(x: Var, fvs: seq<Var>, arity: nat, bco: nat)

  /** The closure of a binding while its fields are not there yet, and when they are. */
  function Empty(k: Bind): Object {
    var none := seq(|k.fvs|, i => Lit(0));
    if k.arity == 0 then Ap(Lit(0), none) else Pap(k.arity, Lit(0), none)
  }

  function Closure(k: Bind, fields: seq<Word>): Object {
    if k.arity == 0 then Ap(Ptr(k.bco, 0), fields) else Pap(k.arity, Ptr(k.bco, 0), fields)
  }

  /** The environment with the bindings' variables in the slots from `d` on. */
  function BindEnv(binds: seq<Bind>, p: Env, d: nat): Env {
    if binds == [] then p else BindEnv(binds[1..], p[binds[0].x := d], d + 1)
  }

  function Allocs(binds: seq<Bind>): (code: seq<Insn>)
    ensures |code| == |binds|
  {
    if binds == [] then []
    else [if binds[0].arity == 0 then ALLOC_AP(|binds[0].fvs|) else ALLOC_PAP(binds[0].arity, |binds[0].fvs|)]
         + Allocs(binds[1..])
  }

  function Locals(xs: seq<Var>): (r: seq<Atom>)
    ensures |r| == |xs| && forall i :: 0 <= i < |xs| ==> r[i] == Local(xs[i])
  {
    if xs == [] then [] else [Local(xs[0])] + Locals(xs[1..])
  }

  predicate Captures(binds: seq<Bind>, p: Env, d: nat) {
    forall i :: 0 <= i < |binds| ==> AllBound(Locals(binds[i].fvs), p, d)
  }

  /** build_thunk for the closure whose pointer lies `off - 1` words below the top of the stack. */
  function BuildThunk(k: Bind, off: nat, p: Env, d: nat): seq<Insn>
    requires AllBound(Locals(k.fvs), p, d)
  {
    Pushes(Locals(k.fvs), p, d) + ([PUSH_G(Ptr(k.bco, 0))]
    + [if k.arity == 0 then MKAP(off + |k.fvs|, |k.fvs|) else MKPAP(off + |k.fvs|, |k.fvs|)])
  }

  function BuildThunks(binds: seq<Bind>, p: Env, d: nat): seq<Insn>
    requires Captures(binds, p, d)
  {
    if binds == [] then []
    else BuildThunk(binds[0], |binds|, p, d) + BuildThunks(binds[1..], p, d)
  }

  /** The heap with objects for the bindings from address `hp` on. */
  function Allocated(h: Heap, hp: nat, binds: seq<Bind>): Heap
    decreases |binds|
  {
    if binds == [] then h else Allocated(h[hp := Empty(binds[0])], hp + 1, binds[1..])
  }

  /** Pointers to `n` objects from address `hp` on, the last one first. */
  function Pointers(hp: nat, n: nat): (r: seq<Word>)
    ensures |r| == n && forall i :: 0 <= i < n ==> r[i] == Ptr(hp + n - 1 - i, 0)
  {
    seq(n, i requires 0 <= i < n => Ptr(hp + n - 1 - i, 0))
  }

  lemma AllocRuns(m: Machine, b: nat, pc: nat, k: Bind)
    requires m.mode == Exec(b, pc)
    requires CodeAt(m.heap, b, pc, [if k.arity == 0 then ALLOC_AP(|k.fvs|) else ALLOC_PAP(k.arity, |k.fvs|)])
    ensures Reaches(m, On(m, pc + 1, [Ptr(m.hp, 0)] + m.stack).(heap := m.heap[m.hp := Empty(k)], hp := m.hp + 1), 1)
  {
    hide CodeAt, Reaches;
    InsnAt(m, b, pc, if k.arity == 0 then ALLOC_AP(|k.fvs|) else ALLOC_PAP(k.arity, |k.fvs|));
    var o := if k.arity == 0 then Ap(Lit(0), seq(|k.fvs|, i => Lit(0))) else Pap(k.arity, Lit(0), seq(|k.fvs|, i => Lit(0)));
    assert o == Empty(k);
    OneStep(m, On(m, pc + 1, [Ptr(m.hp, 0)] + m.stack).(heap := m.heap[m.hp := Empty(k)], hp := m.hp + 1));
  }

  lemma {:induction false} AllocsRun(m: Machine, b: nat, pc: nat, binds: seq<Bind>)
    requires m.mode == Exec(b, pc) && b < m.hp && CodeAt(m.heap, b, pc, Allocs(binds))
    ensures Reaches(m, On(m, pc + |binds|, Pointers(m.hp, |binds|) + m.stack).(
                         heap := Allocated(m.heap, m.hp, binds), hp := m.hp + |binds|), |binds|)
    decreases |binds|
  {
    hide Reaches, CodeAt, Empty, Pointers;
    if binds == [] {
      assert Pointers(m.hp, 0) + m.stack == m.stack;
      OneConfiguration(m);
    } else {
      var k := binds[0];
      var alloc := [if k.arity == 0 then ALLOC_AP(|k.fvs|) else ALLOC_PAP(k.arity, |k.fvs|)];
      CodeParts(m.heap, b, pc, alloc, Allocs(binds[1..]));
      AllocRuns(m, b, pc, k);
      var m1 := On(m, pc + 1, [Ptr(m.hp, 0)] + m.stack).(heap := m.heap[m.hp := Empty(k)], hp := m.hp + 1);
      CodeStays(m.heap, m1.heap, b, pc + 1, Allocs(binds[1..]));
      AllocsRun(m1, b, pc + 1, binds[1..]);
      PointersBelow(m.hp, |binds|);
      assert Pointers(m.hp + 1, |binds| - 1) + ([Ptr(m.hp, 0)] + m.stack) == Pointers(m.hp, |binds|) + m.stack;
      ReachesJoin(m, m1, On(m, pc + |binds|, Pointers(m.hp, |binds|) + m.stack).(
                    heap := Allocated(m.heap, m.hp, binds), hp := m.hp + |binds|), 1, |binds| - 1);
    }
  }

  lemma OneConfiguration(m: Machine)
    ensures Reaches(m, m, 0)
  {
  }

  lemma PointersBelow(hp: nat, n: nat)
    requires n > 0
    ensures Pointers(hp, n) == Pointers(hp + 1, n - 1) + [Ptr(hp, 0)]
  {
  }

  lemma CodeStays(h: Heap, h': Heap, b: nat, pc: nat, code: seq<Insn>)
    requires CodeAt(h, b, pc, code) && b in h' && h'[b] == h[b]
    ensures CodeAt(h', b, pc, code)
  {
  }

  /** The captured values go into the closure, the last one first, and off the stack again. */
  lemma BuildThunkRuns(m: Machine, b: nat, pc: nat, k: Bind, off: nat, q: nat, p: Env, d: nat)
    requires m.mode == Exec(b, pc) && AllBound(Locals(k.fvs), p, d) && d <= |m.stack|
    requires 0 < off <= |m.stack| && m.stack[off - 1] == Ptr(q, 0) && q in m.heap && m.heap[q] == Empty(k) && q != b
    requires CodeAt(m.heap, b, pc, BuildThunk(k, off, p, d))
    ensures Reaches(m, On(m, pc + |k.fvs| + 2, m.stack).(
                         heap := m.heap[q := Closure(k, Rev(Values(Locals(k.fvs), p, d, m.stack)))]), |k.fvs| + 2)
  {
    hide Reaches, CodeAt, AllBound, Empty, Closure, Values, Pushes;
    var n := |k.fvs|;
    var fields := Rev(Values(Locals(k.fvs), p, d, m.stack));
    var mk := if k.arity == 0 then MKAP(off + n, n) else MKPAP(off + n, n);
    CodeParts(m.heap, b, pc, Pushes(Locals(k.fvs), p, d), [PUSH_G(Ptr(k.bco, 0))] + [mk]);
    CodeParts(m.heap, b, pc + n, [PUSH_G(Ptr(k.bco, 0))], [mk]);
    PushesRun(m, b, pc, Locals(k.fvs), p, d);
    var m1 := On(m, pc + n, fields + m.stack);
    var m2 := On(m, pc + n + 1, [Ptr(k.bco, 0)] + m1.stack);
    PushGlobalRuns(m1, b, pc + n, Ptr(k.bco, 0));
    ReachesJoin(m, m1, m2, n, 1);
    var m3 := On(m, pc + n + 2, m.stack).(heap := m.heap[q := Closure(k, fields)]);
    FillRuns(m2, b, pc + n + 1, k, off, q, fields, m.stack);
    ReachesJoin(m, m2, m3, n + 1, 1);
  }

  lemma PushGlobalRuns(m: Machine, b: nat, pc: nat, w: Word)
    requires m.mode == Exec(b, pc) && CodeAt(m.heap, b, pc, [PUSH_G(w)])
    ensures Reaches(m, On(m, pc + 1, [w] + m.stack), 1)
  {
    hide CodeAt, Reaches;
    InsnAt(m, b, pc, PUSH_G(w));
    OneStep(m, On(m, pc + 1, [w] + m.stack));
  }

  lemma FillRuns(m: Machine, b: nat, pc: nat, k: Bind, off: nat, q: nat, fields: seq<Word>, s: seq<Word>)
    requires m.mode == Exec(b, pc) && m.stack == [Ptr(k.bco, 0)] + (fields + s) && |fields| == |k.fvs|
    requires 0 < off <= |s| && s[off - 1] == Ptr(q, 0) && q in m.heap && m.heap[q] == Empty(k)
    requires CodeAt(m.heap, b, pc, [if k.arity == 0 then MKAP(off + |k.fvs|, |k.fvs|) else MKPAP(off + |k.fvs|, |k.fvs|)])
    ensures Reaches(m, On(m, pc + 1, s).(heap := m.heap[q := Closure(k, fields)]), 1)
  {
    hide CodeAt, Reaches;
    var n := |fields|;
    var i := if k.arity == 0 then MKAP(off + n, n) else MKPAP(off + n, n);
    InsnAt(m, b, pc, i);
    assert m.stack[off + n] == s[off - 1];
    assert m.stack[1..1 + n] == fields && m.stack[1 + n..] == s;
    OneStep(m, On(m, pc + 1, s).(heap := m.heap[q := Closure(k, fields)]));
  }

  /** At q there is the closure of a binding, with what its captured variables stand for, the last one
      first. */
  ghost predicate ClosureAt(h: Heap, q: nat, k: Bind, p: Env, d: nat, s: seq<Word>) {
    && AllBound(Locals(k.fvs), p, d) && d <= |s|
    && q in h && h[q] == Closure(k, Rev(Values(Locals(k.fvs), p, d, s)))
  }

  /** The heap with the closures of the bindings filled in, from address `hp` on. */
  function Filled(h: Heap, hp: nat, binds: seq<Bind>, p: Env, d: nat, s: seq<Word>): Heap
    requires Captures(binds, p, d) && d <= |s|
    decreases |binds|
  {
    if binds == [] then h
    else
      var fields := Rev(Values(Locals(binds[0].fvs), p, d, s));
      assert Captures([binds[0]] + binds[1..], p, d);
      Filled(h[hp := Closure(binds[0], fields)], hp + 1, binds[1..], p, d, s)
  }

  /** Those objects are still to be filled in. */
  ghost predicate EmptyFrom(h: Heap, hp: nat, binds: seq<Bind>) {
    forall i: nat :: i < |binds| ==> EmptyAt(h, hp + i, binds[i])
  }

  predicate EmptyAt(h: Heap, q: nat, k: Bind) {
    q in h && h[q] == Empty(k)
  }

  lemma {:induction false} BuildThunksRun(m: Machine, b: nat, pc: nat, binds: seq<Bind>, hp: nat, p: Env, d: nat) returns (n: nat)
    requires m.mode == Exec(b, pc) && Captures(binds, p, d) && d <= |m.stack| && b < hp
    requires |binds| <= |m.stack| && m.stack[..|binds|] == Pointers(hp, |binds|) && EmptyFrom(m.heap, hp, binds)
    requires CodeAt(m.heap, b, pc, BuildThunks(binds, p, d))
    ensures Reaches(m, On(m, pc + |BuildThunks(binds, p, d)|, m.stack).(heap := Filled(m.heap, hp, binds, p, d, m.stack)), n)
    decreases |binds|
  {
    hide Reaches, CodeAt, Pointers, BuildThunk, EmptyFrom, Captures;
    if binds == [] {
      OneConfiguration(m);
      n := 0;
    } else {
      hide Reaches, CodeAt, Pointers, BuildThunks, EmptyFrom, Captures, Filled;
      var m1, pc1 := FirstThunk(m, b, pc, binds, hp, p, d);
      n := BuildThunksRun(m1, b, pc1, binds[1..], hp + 1, p, d);
      ReachesJoin(m, m1, On(m, pc + |BuildThunks(binds, p, d)|, m.stack).(heap := Filled(m.heap, hp, binds, p, d, m.stack)),
                  |binds[0].fvs| + 2, n);
      n := |binds[0].fvs| + 2 + n;
    }
  }

  lemma FirstThunk(m: Machine, b: nat, pc: nat, binds: seq<Bind>, hp: nat, p: Env, d: nat) returns (m1: Machine, pc1: nat)
    requires m.mode == Exec(b, pc) && Captures(binds, p, d) && d <= |m.stack| && b < hp && binds != []
    requires |binds| <= |m.stack| && m.stack[..|binds|] == Pointers(hp, |binds|) && EmptyFrom(m.heap, hp, binds)
    requires CodeAt(m.heap, b, pc, BuildThunks(binds, p, d))
    ensures m1.mode == Exec(b, pc1) && m1.stack == m.stack && m1.hp == m.hp && Reaches(m, m1, |binds[0].fvs| + 2)
    ensures Captures(binds[1..], p, d) && m.stack[..|binds| - 1] == Pointers(hp + 1, |binds| - 1)
    ensures EmptyFrom(m1.heap, hp + 1, binds[1..]) && CodeAt(m1.heap, b, pc1, BuildThunks(binds[1..], p, d))
    ensures pc1 + |BuildThunks(binds[1..], p, d)| == pc + |BuildThunks(binds, p, d)|
    ensures Filled(m1.heap, hp + 1, binds[1..], p, d, m.stack) == Filled(m.heap, hp, binds, p, d, m.stack)
  {
    hide Reaches, CodeAt, Closure, Empty, BuildThunk, Values, AllBound;
    var k, n, fields := binds[0], |binds|, Rev(Values(Locals(binds[0].fvs), p, d, m.stack));
    assert Captures([k] + binds[1..], p, d);
    CodeParts(m.heap, b, pc, BuildThunk(k, n, p, d), BuildThunks(binds[1..], p, d));
    var top := m.stack[..n];
    assert top[n - 1] == Ptr(hp, 0) && top[n - 1] == m.stack[n - 1];
    FirstEmpty(m.heap, hp, binds, Closure(k, fields));
    BuildThunkRuns(m, b, pc, k, n, hp, p, d);
    ThunkCodeLength(k, n, p, d);
    pc1 := pc + |k.fvs| + 2;
    m1 := On(m, pc1, m.stack).(heap := m.heap[hp := Closure(k, fields)]);
    CodeIn(m.heap, b, pc, BuildThunk(k, n, p, d));
    CodeStays(m.heap, m1.heap, b, pc1, BuildThunks(binds[1..], p, d));
    assert m.stack[..n - 1] == top[..n - 1];
  }

  lemma CodeIn(h: Heap, b: nat, pc: nat, code: seq<Insn>)
    requires CodeAt(h, b, pc, code)
    ensures b in h
  {
  }

  lemma FirstEmpty(h: Heap, hp: nat, binds: seq<Bind>, o: Object)
    requires binds != [] && EmptyFrom(h, hp, binds)
    ensures hp in h && h[hp] == Empty(binds[0]) && EmptyFrom(h[hp := o], hp + 1, binds[1..])
  {
    assert EmptyAt(h, hp + 0, binds[0]);
    var h', more := h[hp := o], binds[1..];
    forall i: nat | i < |more| ensures EmptyAt(h', hp + 1 + i, more[i]) {
      assert EmptyAt(h, hp + (i + 1), binds[i + 1]);
    }
  }

  lemma ThunkCodeLength(k: Bind, off: nat, p: Env, d: nat)
    requires AllBound(Locals(k.fvs), p, d)
    ensures |BuildThunk(k, off, p, d)| == |k.fvs| + 2
  {
  }

  lemma {:induction false} BindEnvOther(binds: seq<Bind>, p: Env, d: nat, y: Var)
    requires forall i :: 0 <= i < |binds| ==> binds[i].x != y
    ensures (y in BindEnv(binds, p, d) <==> y in p) && (y in p ==> BindEnv(binds, p, d)[y] == p[y])
    decreases |binds|
  {
    if binds != [] {
      assert binds[0].x != y;
      assert forall i :: 0 <= i < |binds[1..]| ==> binds[1..][i] == binds[i + 1];
      BindEnvOther(binds[1..], p[binds[0].x := d], d + 1, y);
    }
  }

  lemma {:induction false} BindEnvBound(binds: seq<Bind>, p: Env, d: nat, i: nat)
    requires i < |binds| && forall j, l :: 0 <= j < l < |binds| ==> binds[j].x != binds[l].x
    ensures binds[i].x in BindEnv(binds, p, d) && BindEnv(binds, p, d)[binds[i].x] == d + i
    decreases |binds|
  {
    assert forall j :: 0 <= j < |binds[1..]| ==> binds[1..][j] == binds[j + 1];
    if i == 0 {
      BindEnvOther(binds[1..], p[binds[0].x := d], d + 1, binds[0].x);
    } else {
      BindEnvBound(binds[1..], p[binds[0].x := d], d + 1, i - 1);
    }
  }

  lemma {:induction false} FilledAt(h: Heap, hp: nat, binds: seq<Bind>, p: Env, d: nat, s: seq<Word>, q: nat)
    requires Captures(binds, p, d) && d <= |s|
    ensures var h' := Filled(h, hp, binds, p, d, s);
      if hp <= q < hp + |binds|
      then q in h' && h'[q] == Closure(binds[q - hp], Rev(Values(Locals(binds[q - hp].fvs), p, d, s)))
      else (q in h' <==> q in h) && (q in h ==> h'[q] == h[q])
    decreases |binds|
  {
    hide Closure, Values, Locals, Rev, AllBound;
    if binds != [] {
      assert Captures([binds[0]] + binds[1..], p, d);
      FilledAt(h[hp := Closure(binds[0], Rev(Values(Locals(binds[0].fvs), p, d, s)))], hp + 1, binds[1..], p, d, s, q);
    }
  }

  lemma {:induction false} AllocatedAt(h: Heap, hp: nat, binds: seq<Bind>, q: nat)
    ensures var h' := Allocated(h, hp, binds);
      if hp <= q < hp + |binds| then q in h' && h'[q] == Empty(binds[q - hp])
      else (q in h' <==> q in h) && (q in h ==> h'[q] == h[q])
    decreases |binds|
  {
    hide Empty;
    if binds != [] {
      AllocatedAt(h[hp := Empty(binds[0])], hp + 1, binds[1..], q);
    }
  }

  /** The code before the body of a `let`: all closures are allocated, and then filled in. */
  function LetCode(binds: seq<Bind>, p: Env, d: nat): seq<Insn>
    requires Captures(binds, BindEnv(binds, p, d), d + |binds|)
  {
    Allocs(binds) + BuildThunks(binds, BindEnv(binds, p, d), d + |binds|)
  }

  /** schemeE for `let`, recursive or not: afterwards each variable bound stands for a closure with its code
      and with what the captured variables stand for, the last one first; among these may be the
      variables bound. All other variables stand for what they stood for, and no other object has
      changed. */
  lemma LetBinds(m: Machine, b: nat, pc: nat, binds: seq<Bind>, p: Env, d: nat) returns (m': Machine, n: nat)
    requires m.mode == Exec(b, pc) && d <= |m.stack| && b < m.hp && (forall q :: q in m.heap ==> q < m.hp)
    requires forall i, j :: 0 <= i < j < |binds| ==> binds[i].x != binds[j].x
    requires Captures(binds, BindEnv(binds, p, d), d + |binds|) && CodeAt(m.heap, b, pc, LetCode(binds, p, d))
    ensures Reaches(m, m', n) && m'.mode == Exec(b, pc + |LetCode(binds, p, d)|)
    ensures |m'.stack| == |m.stack| + |binds| && m'.stack[|binds|..] == m.stack
    ensures var p', d' := BindEnv(binds, p, d), d + |binds|;
      && (forall i :: 0 <= i < |binds| ==>
            Stands(binds[i].x, p', d', m'.stack, Ptr(m.hp + i, 0)) && ClosureAt(m'.heap, m.hp + i, binds[i], p', d', m'.stack))
      && (forall y :: y in p && p[y] < d && (forall i :: 0 <= i < |binds| ==> binds[i].x != y) ==>
            Stands(y, p', d', m'.stack, ValueOf(Local(y), p, d, m.stack)))
    ensures forall q :: q in m.heap ==> q in m'.heap && m'.heap[q] == m.heap[q]
  {
    hide Reaches, CodeAt, ClosureAt, AllBound, LetCode, BindEnv, Captures, Filled, Allocated, Pointers, Stands;
    m', n := LetRuns(m, b, pc, binds, p, d);
    LetHeap(m, binds, BindEnv(binds, p, d), d + |binds|, m'.stack);
    LetEnv(m.hp, binds, p, d, m.stack);
  }

  /** The environment after a `let`. */
  lemma LetEnv(hp: nat, binds: seq<Bind>, p: Env, d: nat, s: seq<Word>)
    requires d <= |s| && forall i, j :: 0 <= i < j < |binds| ==> binds[i].x != binds[j].x
    ensures var p', d', s' := BindEnv(binds, p, d), d + |binds|, Pointers(hp, |binds|) + s;
      && (forall i :: 0 <= i < |binds| ==> Stands(binds[i].x, p', d', s', Ptr(hp + i, 0)))
      && (forall y :: y in p && p[y] < d && (forall i :: 0 <= i < |binds| ==> binds[i].x != y) ==>
            Stands(y, p', d', s', ValueOf(Local(y), p, d, s)))
  {
    hide BindEnv, Stands, Pointers;
    var n, p', d', s' := |binds|, BindEnv(binds, p, d), d + |binds|, Pointers(hp, |binds|) + s;
    forall i | 0 <= i < n ensures Stands(binds[i].x, p', d', s', Ptr(hp + i, 0)) {
      BindEnvBound(binds, p, d, i);
      AtSlot(binds[i].x, p', d', s', n - 1 - i);
    }
    forall y | y in p && p[y] < d && (forall i :: 0 <= i < |binds| ==> binds[i].x != y)
      ensures Stands(y, p', d', s', ValueOf(Local(y), p, d, s))
    {
      BindEnvOther(binds, p, d, y);
      AtSlot(y, p', d', s', n + (d - 1 - p[y]));
    }
  }

  lemma LetRuns(m: Machine, b: nat, pc: nat, binds: seq<Bind>, p: Env, d: nat) returns (m': Machine, n: nat)
    requires m.mode == Exec(b, pc) && d <= |m.stack| && b < m.hp && (forall q :: q in m.heap ==> q < m.hp)
    requires Captures(binds, BindEnv(binds, p, d), d + |binds|) && CodeAt(m.heap, b, pc, LetCode(binds, p, d))
    ensures Reaches(m, m', n) && m'.mode == Exec(b, pc + |LetCode(binds, p, d)|)
    ensures m'.stack == Pointers(m.hp, |binds|) + m.stack && m'.stack[..|binds|] == Pointers(m.hp, |binds|)
    ensures m'.stack[|binds|..] == m.stack
    ensures m'.heap == Filled(Allocated(m.heap, m.hp, binds), m.hp, binds, BindEnv(binds, p, d), d + |binds|, m'.stack)
  {
    hide Reaches, CodeAt, AllBound, Pointers, Allocs, BuildThunks, BindEnv, Captures, Filled, Allocated;
    var p', d', k := BindEnv(binds, p, d), d + |binds|, |binds|;
    CodeParts(m.heap, b, pc, Allocs(binds), BuildThunks(binds, p', d'));
    AllocsRun(m, b, pc, binds);
    var s := Pointers(m.hp, k) + m.stack;
    assert s[..k] == Pointers(m.hp, k) && s[k..] == m.stack;
    var m1 := On(m, pc + k, s).(heap := Allocated(m.heap, m.hp, binds), hp := m.hp + k);
    AreEmpty(m.heap, m.hp, binds);
    CodeIn(m.heap, b, pc, Allocs(binds));
    AllocatedAt(m.heap, m.hp, binds, b);
    CodeStays(m.heap, m1.heap, b, pc + k, BuildThunks(binds, p', d'));
    var j := BuildThunksRun(m1, b, pc + k, binds, m.hp, p', d');
    m' := On(m1, pc + k + |BuildThunks(binds, p', d')|, s).(heap := Filled(m1.heap, m.hp, binds, p', d', s));
    ReachesJoin(m, m1, m', k, j);
    n := k + j;
  }

  lemma AreEmpty(h: Heap, hp: nat, binds: seq<Bind>)
    ensures EmptyFrom(Allocated(h, hp, binds), hp, binds)
  {
    hide Empty, Allocated;
    var h' := Allocated(h, hp, binds);
    forall i: nat | i < |binds| ensures EmptyAt(h', hp + i, binds[i]) {
      AllocatedAt(h, hp, binds, hp + i);
    }
  }

  /** The heap after a `let`: the closures, and what was there. */
  lemma LetHeap(m: Machine, binds: seq<Bind>, p: Env, d: nat, s: seq<Word>)
    requires Captures(binds, p, d) && d <= |s| && forall q :: q in m.heap ==> q < m.hp
    ensures var h := Filled(Allocated(m.heap, m.hp, binds), m.hp, binds, p, d, s);
      && (forall i :: 0 <= i < |binds| ==> ClosureAt(h, m.hp + i, binds[i], p, d, s))
      && (forall q :: q in m.heap ==> q in h && h[q] == m.heap[q])
  {
    hide Closure, Values, Filled, Allocated;
    var h0 := Allocated(m.heap, m.hp, binds);
    var h := Filled(h0, m.hp, binds, p, d, s);
    forall i | 0 <= i < |binds|
      ensures ClosureAt(h, m.hp + i, binds[i], p, d, s)
    {
      FilledAt(h0, m.hp, binds, p, d, s, m.hp + i);
    }
    forall q: nat | q in m.heap ensures q in h && h[q] == m.heap[q] {
      FilledAt(h0, m.hp, binds, p, d, s, q);
      AllocatedAt(m.heap, m.hp, binds, q);
    }
  }

  // ---------------------------------------------------------------- entering a closure

  /** The slots that schemeR gives to the parameters and the captured variables of a closure: the
      parameters lie below, the last one deepest, and then the captured variables in order. */
  function ClosureEnv(params: seq<Var>, fvs: seq<Var>): Env {
    Slots(Rev(params) + fvs, 0, map[])
  }

  function Slots(xs: seq<Var>, from: nat, p: Env): Env
    decreases |xs|
  {
    if xs == [] then p else Slots(xs[1..], from + 1, p[xs[0] := from])
  }

  ghost predicate AllDifferent(xs: seq<Var>) {
    forall i, j :: 0 <= i < j < |xs| ==> xs[i] != xs[j]
  }

  lemma {:induction false} SlotsAt(xs: seq<Var>, from: nat, p: Env)
    requires AllDifferent(xs)
    ensures forall i :: 0 <= i < |xs| ==> xs[i] in Slots(xs, from, p) && Slots(xs, from, p)[xs[i]] == from + i
    ensures forall y :: y !in xs ==> (y in Slots(xs, from, p) <==> y in p) && (y in p ==> Slots(xs, from, p)[y] == p[y])
    decreases |xs|
  {
    if xs != [] {
      var more, p1 := xs[1..], p[xs[0] := from];
      SlotsAt(more, from + 1, p1);
      var q := Slots(more, from + 1, p1);
      assert forall i :: 0 <= i < |more| ==> more[i] == xs[i + 1];
      assert xs[0] !in more;
      forall i | 0 <= i < |xs| ensures xs[i] in q && q[xs[i]] == from + i {
        if i > 0 { assert xs[i] == more[i - 1]; }
      }
    }
  }

  /** What builds a closure and what runs it agree on its layout: with the payload of the closure on top
      of its arguments, each captured variable stands in the closure's code for what it stood for when
      the closure was built, and each parameter for its argument. */
  lemma CapturedValues(params: seq<Var>, fvs: seq<Var>, vs: seq<Word>, args: seq<Word>, rest: seq<Word>)
    requires AllDifferent(Rev(params) + fvs) && |vs| == |fvs| && |args| == |params|
    ensures var p, d, s := ClosureEnv(params, fvs), |params| + |fvs|, Rev(vs) + args + rest;
      && (forall i :: 0 <= i < |fvs| ==> Stands(fvs[i], p, d, s, vs[i]))
      && (forall i :: 0 <= i < |params| ==> Stands(params[i], p, d, s, args[i]))
  {
    hide ClosureEnv, AllDifferent, Rev;
    var p, d, s := ClosureEnv(params, fvs), |params| + |fvs|, Rev(vs) + args + rest;
    forall i: nat | i < |fvs| ensures Stands(fvs[i], p, d, s, vs[i]) {
      CapturedValue(params, fvs, vs, args, rest, i);
    }
    forall i: nat | i < |params| ensures Stands(params[i], p, d, s, args[i]) {
      ParameterValue(params, fvs, vs, args, rest, i);
    }
  }

  lemma CapturedValue(params: seq<Var>, fvs: seq<Var>, vs: seq<Word>, args: seq<Word>, rest: seq<Word>, i: nat)
    requires AllDifferent(Rev(params) + fvs) && |vs| == |fvs| && |args| == |params| && i < |fvs|
    ensures Stands(fvs[i], ClosureEnv(params, fvs), |params| + |fvs|, Rev(vs) + args + rest, vs[i])
  {
    hide Slots, Rev, AllDifferent, Stands;
    SlotsAt(Rev(params) + fvs, 0, map[]);
    assert (Rev(params) + fvs)[|params| + i] == fvs[i];
    RevAt(vs, i);
    hide ClosureEnv;
    var k := |fvs| - 1 - i;
    assert (Rev(vs) + args + rest)[k] == Rev(vs)[k];
    AtSlot(fvs[i], ClosureEnv(params, fvs), |params| + |fvs|, Rev(vs) + args + rest, k);
  }

  lemma ParameterValue(params: seq<Var>, fvs: seq<Var>, vs: seq<Word>, args: seq<Word>, rest: seq<Word>, i: nat)
    requires AllDifferent(Rev(params) + fvs) && |vs| == |fvs| && |args| == |params| && i < |params|
    ensures Stands(params[i], ClosureEnv(params, fvs), |params| + |fvs|, Rev(vs) + args + rest, args[i])
  {
    hide Slots, Rev, AllDifferent, Stands;
    SlotsAt(Rev(params) + fvs, 0, map[]);
    RevAt(params, i);
    assert (Rev(params) + fvs)[|params| - 1 - i] == params[i];
    hide ClosureEnv;
    assert (Rev(vs) + args + rest)[|fvs| + i] == args[i];
    AtSlot(params[i], ClosureEnv(params, fvs), |params| + |fvs|, Rev(vs) + args + rest, |fvs| + i);
  }

  lemma AtSlot(x: Var, p: Env, d: nat, s: seq<Word>, i: nat)
    requires i < d <= |s| && x in p && p[x] + i + 1 == d
    ensures Stands(x, p, d, s, s[i])
  {
  }

  /** A thunk that a `let` has built runs its code with the captured variables standing for what they stood
      for, under an update frame for the thunk. */
  lemma ThunkRuns(m: Machine, w: Word, k: Bind, p: Env, d: nat, s: seq<Word>) returns (m': Machine)
    requires m.mode == Eval(w) && w.Ptr? && ClosureAt(m.heap, w.p, k, p, d, s) && k.arity == 0 && AllDifferent(k.fvs)
    requires k.bco in m.heap && m.heap[k.bco].Bco?
    ensures Reaches(m, m', 2) && m'.mode == Exec(k.bco, 0) && m'.heap == m.heap && m'.hp == m.hp
    ensures |m'.stack| == |k.fvs| + 2 + |m.stack| && m'.stack[|k.fvs|..] == [UpdInfo, Untag(w)] + m.stack
    ensures forall i :: 0 <= i < |k.fvs| ==>
              && Bound(Local(k.fvs[i]), p, d) && d <= |s|
              && Stands(k.fvs[i], ClosureEnv([], k.fvs), |k.fvs|, m'.stack, ValueOf(Local(k.fvs[i]), p, d, s))
  {
    hide ClosureEnv, AllDifferent, Reaches, Rev;
    var vs := Values(Locals(k.fvs), p, d, s);
    var rest := [UpdInfo, Untag(w)] + m.stack;
    m' := EntersThunk(m, w, k.bco, Rev(vs));
    NoParameters(k.fvs);
    assert Rev(vs) + [] + rest == m'.stack;
    CapturedValues([], k.fvs, vs, [], rest);
    forall i | 0 <= i < |k.fvs| ensures vs[i] == ValueOf(Local(k.fvs[i]), p, d, s) {
      ValueAt(Locals(k.fvs), p, d, s, i);
    }
  }

  lemma NoParameters(fvs: seq<Var>)
    ensures Rev<Var>([]) + fvs == fvs
  {
  }

  lemma EntersThunk(m: Machine, w: Word, bco: nat, payload: seq<Word>) returns (m': Machine)
    requires m.mode == Eval(w) && w.Ptr? && w.p in m.heap && m.heap[w.p] == Ap(Ptr(bco, 0), payload)
    requires bco in m.heap && m.heap[bco].Bco?
    ensures Reaches(m, m', 2) && m' == m.(mode := Exec(bco, 0), stack := payload + ([UpdInfo, Untag(w)] + m.stack))
  {
    var m1 := m.(mode := RunFun(bco), stack := payload + [UpdInfo, Untag(w)] + m.stack);
    assert Step(m) == Some(m1);
    m' := m1.(mode := Exec(bco, 0));
    assert Step(m1) == Some(m');
    assert payload + [UpdInfo, Untag(w)] + m.stack == payload + ([UpdInfo, Untag(w)] + m.stack);
    TwoSteps(m, m1, m');
  }

  // ---------------------------------------------------------------- case

  /** The environment of an alternative's right-hand side: the case binder's value lies in slot
      `at`, and the fields of the constructor in the slots from `d` on, the first one on top. */
  function AltEnv(p: Env, at: nat, d: nat, bndr: Var, fields: seq<Var>): Env {
    Slots(Rev(fields), d, p[bndr := at])
  }

  /** The code of an alternative (codeAlt): the fields are unpacked if there are any. */
  function AltCode(fields: seq<Var>, rhs: seq<Insn>): seq<Insn> {
    (if fields == [] then [] else [UNPACK(|fields|)]) + rhs
  }

  /** In an alternative the fields stand for the fields of the constructor, the case binder for the
      value itself, and all other variables for what they stood for. */
  lemma AltBinds(p: Env, d: nat, bndr: Var, fields: seq<Var>, args: seq<Word>, w: Word, frame: seq<Word>, s: seq<Word>)
    requires AllDifferent(Rev(fields)) && bndr !in Rev(fields) && |args| == |fields| && |frame| == 2 && d <= |s|
    ensures var p', d', s' := AltEnv(p, d + 2, d + 3, bndr, fields), d + 3 + |fields|, args + [w] + frame + s;
      && (forall i :: 0 <= i < |fields| ==> Stands(fields[i], p', d', s', args[i]))
      && Stands(bndr, p', d', s', w)
      && (forall y :: y in p && p[y] < d && y != bndr && y !in Rev(fields) ==>
            Stands(y, p', d', s', ValueOf(Local(y), p, d, s)))
  {
    hide AltEnv, AllDifferent, Rev, Stands;
    AltSlots(p, d, bndr, fields);
    var p', t := AltEnv(p, d + 2, d + 3, bndr, fields), args + [w] + frame + s;
    forall i | 0 <= i < |fields| ensures Stands(fields[i], p', d + 3 + |fields|, t, args[i]) {
      FieldStands(p', d, fields, args, w, frame, s, i);
    }
    BinderStands(p', d, bndr, args, w, frame, s);
    forall y | y in p && p[y] < d && y != bndr && y !in Rev(fields)
      ensures Stands(y, p', d + 3 + |fields|, t, ValueOf(Local(y), p, d, s))
    {
      OtherStands(p', d, y, args, w, frame, s);
    }
  }

  lemma FieldStands(q: Env, d: nat, fields: seq<Var>, args: seq<Word>, w: Word, frame: seq<Word>, s: seq<Word>, i: nat)
    requires i < |fields| == |args| && |frame| == 2 && d <= |s| && fields[i] in q && q[fields[i]] == d + 2 + |args| - i
    ensures Stands(fields[i], q, d + 3 + |args|, args + [w] + frame + s, args[i])
  {
  }

  lemma BinderStands(q: Env, d: nat, bndr: Var, args: seq<Word>, w: Word, frame: seq<Word>, s: seq<Word>)
    requires |frame| == 2 && d <= |s| && bndr in q && q[bndr] == d + 2
    ensures Stands(bndr, q, d + 3 + |args|, args + [w] + frame + s, w)
  {
  }

  lemma OtherStands(q: Env, d: nat, y: Var, args: seq<Word>, w: Word, frame: seq<Word>, s: seq<Word>)
    requires |frame| == 2 && y in q && q[y] < d <= |s|
    ensures Stands(y, q, d + 3 + |args|, args + [w] + frame + s, s[d - 1 - q[y]])
  {
  }

  lemma AltSlots(p: Env, d: nat, bndr: Var, fields: seq<Var>)
    requires AllDifferent(Rev(fields)) && bndr !in Rev(fields)
    ensures var q := AltEnv(p, d + 2, d + 3, bndr, fields);
      && (forall i :: 0 <= i < |fields| ==> fields[i] in q && q[fields[i]] == d + 2 + |fields| - i)
      && bndr in q && q[bndr] == d + 2
      && (forall y :: y in p && y != bndr && y !in Rev(fields) ==> y in q && q[y] == p[y])
  {
    hide Slots, Rev, AllDifferent;
    SlotsAt(Rev(fields), d + 3, p[bndr := d + 2]);
    forall i: nat | i < |fields| ensures Rev(fields)[|fields| - 1 - i] == fields[i] {
      RevAt(fields, i);
    }
    var q := AltEnv(p, d + 2, d + 3, bndr, fields);
    forall i: nat | i < |fields| ensures fields[i] in q && q[fields[i]] == d + 2 + |fields| - i {
      assert Rev(fields)[|fields| - 1 - i] in q;
    }
  }

  /** doCase: PUSH_ALTS leaves a frame for the alternatives on the stack under which the scrutinee is
      evaluated. */
  lemma CasePushesAlts(m: Machine, b: nat, pc: nat, alts: nat)
    requires m.mode == Exec(b, pc) && CodeAt(m.heap, b, pc, [PUSH_ALTS(None, Ptr(alts, 0))])
    ensures Reaches(m, On(m, pc + 1, [CtoiInfo(None), Ptr(alts, 0)] + m.stack), 1)
  {
    hide CodeAt, Reaches;
    InsnAt(m, b, pc, PUSH_ALTS(None, Ptr(alts, 0)));
    OneStep(m, On(m, pc + 1, [CtoiInfo(None), Ptr(alts, 0)] + m.stack));
  }

  /** When the scrutinee's value comes back to that frame, the alternative for its constructor is run:
      its right-hand side is reached with the fields on top of the value, the frame and the stack of the
      `case`. */
  lemma CaseReturns(m: Machine, alts: nat, ways: seq<Way>, default: Option<seq<Insn>>, lo: int, hi: int,
                    way: Way, fields: seq<Var>, rhs: seq<Insn>, s: seq<Word>) returns (k: nat, n: nat)
    requires m.mode.Return? && Points(m.mode.obj, m.heap) && m.heap[m.mode.obj.p].Con?
    requires m.stack == [CtoiInfo(None), Ptr(alts, 0)] + s && alts in m.heap && m.heap[alts].Bco?
    requires InRange(Tags, ways, lo, hi) && Distinct(ways) && way in ways && way.code == AltCode(fields, rhs)
    requires CodeAt(m.heap, alts, 0, MultiBranch(Tags, ways, default, lo, hi))
    requires m.heap[m.mode.obj.p].tag == way.discr && lo <= way.discr <= hi && |m.heap[m.mode.obj.p].args| == |fields|
    ensures CodeAt(m.heap, alts, k, rhs)
    ensures var w, args := Untag(m.mode.obj), m.heap[m.mode.obj.p].args;
      Reaches(m, m.(mode := Exec(alts, k), stack := args + [w] + [CtoiInfo(None), Ptr(alts, 0)] + s), n)
  {
    hide Reaches, CodeAt, MultiBranch, Distinct, InRange;
    var m2 := ReturnsToAlts(m, alts, s);
    var j;
    k, j := CaseRunsArm(Tags, ways, default, lo, hi, m2, alts, way.discr);
    var m3 := m2.(mode := Exec(alts, k));
    ReachesJoin(m, m2, m3, 2, j);
    k, n := ArmUnpacks(m3, alts, k, fields, rhs, Untag(m.mode.obj), s);
    ReachesJoin(m, m3, m.(mode := Exec(alts, k), stack := m.heap[m.mode.obj.p].args + [Untag(m.mode.obj)] + [CtoiInfo(None), Ptr(alts, 0)] + s), 2 + j, n);
    n := 2 + j + n;
  }

  lemma ReturnsToAlts(m: Machine, alts: nat, s: seq<Word>) returns (m': Machine)
    requires m.mode.Return? && Points(m.mode.obj, m.heap) && m.heap[m.mode.obj.p].Con?
    requires m.stack == [CtoiInfo(None), Ptr(alts, 0)] + s && alts in m.heap && m.heap[alts].Bco?
    ensures m' == m.(mode := Exec(alts, 0), stack := [Untag(m.mode.obj)] + [CtoiInfo(None), Ptr(alts, 0)] + s)
    ensures Reaches(m, m', 2)
  {
    var m1 := m.(mode := RunRet(alts), stack := [Untag(m.mode.obj)] + m.stack);
    m' := m1.(mode := Exec(alts, 0));
    assert Step(m) == Some(m1) && Step(m1) == Some(m');
    TwoSteps(m, m1, m');
    assert [Untag(m.mode.obj)] + m.stack == [Untag(m.mode.obj)] + [CtoiInfo(None), Ptr(alts, 0)] + s;
  }

  /** The beginning of an alternative: its fields are on the stack. */
  lemma ArmUnpacks(m: Machine, alts: nat, k: nat, fields: seq<Var>, rhs: seq<Insn>, w: Word, s: seq<Word>)
    returns (k': nat, n: nat)
    requires m.mode == Exec(alts, k) && m.stack == [w] + [CtoiInfo(None), Ptr(alts, 0)] + s
    requires Points(w, m.heap) && m.heap[w.p].Con? && |m.heap[w.p].args| == |fields|
    requires CodeAt(m.heap, alts, k, AltCode(fields, rhs))
    ensures CodeAt(m.heap, alts, k', rhs)
    ensures Reaches(m, On(m, k', m.heap[w.p].args + [w] + [CtoiInfo(None), Ptr(alts, 0)] + s), n)
  {
    var args := m.heap[w.p].args;
    hide Reaches, CodeAt;
    CodeParts(m.heap, alts, k, if fields == [] then [] else [UNPACK(|fields|)], rhs);
    if fields == [] {
      assert args + [w] + [CtoiInfo(None), Ptr(alts, 0)] + s == m.stack;
      OneConfiguration(m);
      k', n := k, 0;
    } else {
      UnpackRuns(m, alts, k, |fields|);
      assert args + m.stack == args + [w] + [CtoiInfo(None), Ptr(alts, 0)] + s;
      k', n := k + 1, 1;
    }
  }

  lemma UnpackRuns(m: Machine, b: nat, pc: nat, n: nat)
    requires m.mode == Exec(b, pc) && CodeAt(m.heap, b, pc, [UNPACK(n)])
    requires m.stack != [] && Points(m.stack[0], m.heap) && m.heap[m.stack[0].p].Con? && |m.heap[m.stack[0].p].args| == n
    ensures Reaches(m, On(m, pc + 1, m.heap[m.stack[0].p].args + m.stack), 1)
  {
    hide CodeAt, Reaches;
    InsnAt(m, b, pc, UNPACK(n));
    var args := m.heap[m.stack[0].p].args;
    assert args[..n] == args;
    OneStep(m, On(m, pc + 1, args + m.stack));
  }

  /** The alternatives of a `case` on constructors stand in BCO `alts`. */
  ghost predicate AltsAt(h: Heap, alts: nat, ways: seq<Way>, default: Option<seq<Insn>>, lo: int, hi: int) {
    && InRange(Tags, ways, lo, hi) && Distinct(ways) && (ways != [] || default.Some?)
    && CodeAt(h, alts, 0, MultiBranch(Tags, ways, default, lo, hi))
  }

  lemma AltsStay(h: Heap, h': Heap, alts: nat, ways: seq<Way>, default: Option<seq<Insn>>, lo: int, hi: int)
    requires AltsAt(h, alts, ways, default, lo, hi) && alts in h' && h'[alts] == h[alts]
    ensures AltsAt(h', alts, ways, default, lo, hi)
  {
    hide MultiBranch;
  }

  lemma CaseReturnsTo(m: Machine, alts: nat, ways: seq<Way>, default: Option<seq<Insn>>, lo: int, hi: int,
                      way: Way, fields: seq<Var>, rhs: seq<Insn>, s: seq<Word>) returns (k: nat, n: nat)
    requires m.mode.Return? && m.mode.obj.Ptr? && m.mode.obj.tag == 0 && Points(m.mode.obj, m.heap) && m.heap[m.mode.obj.p].Con?
    requires m.stack == [CtoiInfo(None), Ptr(alts, 0)] + s && alts in m.heap && m.heap[alts].Bco?
    requires AltsAt(m.heap, alts, ways, default, lo, hi) && way in ways && way.code == AltCode(fields, rhs)
    requires m.heap[m.mode.obj.p].tag == way.discr && |m.heap[m.mode.obj.p].args| == |fields|
    ensures CodeAt(m.heap, alts, k, rhs)
    ensures Reaches(m, m.(mode := Exec(alts, k),
                          stack := m.heap[m.mode.obj.p].args + [m.mode.obj] + [CtoiInfo(None), Ptr(alts, 0)] + s), n)
  {
    hide MultiBranch, CodeAt, Reaches, AltCode;
    k, n := CaseReturns(m, alts, ways, default, lo, hi, way, fields, rhs, s);
  }

  /** Entering a constructor on top of the stack returns it. */
  lemma ConstructorReturns(m: Machine, m': Machine, b: nat, pc: nat, vs: seq<Word>, tag: nat)
    requires m.mode == Exec(b, pc) && CodeAt(m.heap, b, pc, [ENTER]) && m.stack != [] && Points(m.stack[0], m.heap)
    requires m.heap[m.stack[0].p] == Con(tag, vs) && m' == m.(mode := Return(m.stack[0]), stack := m.stack[1..])
    ensures Reaches(m, m', 2)
  {
    hide CodeAt, Reaches;
    InsnAt(m, b, pc, ENTER);
    var e := m.(mode := Eval(m.stack[0]), stack := m.stack[1..]);
    assert Step(m) == Some(e) && Step(e) == Some(m');
    TwoSteps(m, e, m');
  }

  /** A `case` on a constructor application, as compiled: the constructor is built, entered and returned,
      and the alternative for it is reached with the values of its arguments for its fields. */
  lemma CaseOfConstructor(m: Machine, b: nat, pc: nat, alts: nat, tag: nat, args: seq<Atom>, p: Env, d: nat,
                          ways: seq<Way>, default: Option<seq<Insn>>, lo: int, hi: int,
                          way: Way, fields: seq<Var>, rhs: seq<Insn>) returns (k: nat, n: nat, m': Machine)
    requires m.mode == Exec(b, pc) && d <= |m.stack| && (forall q :: q in m.heap ==> q < m.hp)
    requires AllBound(Ptrs(args) + NonPtrs(args), p, d) && AllBound(Rev(Ptrs(args) + NonPtrs(args)), p, d + 2)
    requires CodeAt(m.heap, b, pc, [PUSH_ALTS(None, Ptr(alts, 0))] + (ConApp(tag, args, p, d + 2) + [ENTER]))
    requires alts in m.heap && m.heap[alts].Bco? && AltsAt(m.heap, alts, ways, default, lo, hi)
    requires way in ways && way.code == AltCode(fields, rhs) && way.discr == tag && |fields| == |Ptrs(args) + NonPtrs(args)|
    ensures CodeAt(m'.heap, alts, k, rhs) && m'.mode == Exec(alts, k) && Reaches(m, m', n)
    ensures m'.stack == Values(Ptrs(args) + NonPtrs(args), p, d, m.stack) + [Ptr(m.hp, 0)]
                        + [CtoiInfo(None), Ptr(alts, 0)] + m.stack
  {
    hide Reaches, CodeAt, ConApp, AltsAt, AllBound, AltCode;
    var fs, frame := Ptrs(args) + NonPtrs(args), [CtoiInfo(None), Ptr(alts, 0)];
    CodeParts(m.heap, b, pc, [PUSH_ALTS(None, Ptr(alts, 0))], ConApp(tag, args, p, d + 2) + [ENTER]);
    CodeParts(m.heap, b, pc + 1, ConApp(tag, args, p, d + 2), [ENTER]);
    CasePushesAlts(m, b, pc, alts);
    var m1 := On(m, pc + 1, frame + m.stack);
    ValuesUnder(fs, p, d, m.stack, frame);
    var vs := Values(fs, p, d, m.stack);
    var j := ConAppBuilds(m1, b, pc + 1, tag, args, p, d + 2);
    var at := pc + 1 + |ConApp(tag, args, p, d + 2)|;
    var h := m.heap[m.hp := Con(tag, vs)];
    var m2 := On(m, at, [Ptr(m.hp, 0)] + (frame + m.stack)).(heap := h, hp := m.hp + 1);
    ReachesJoin(m, m1, m2, 1, j);
    CodeIn(m.heap, b, at, [ENTER]);
    CodeStays(m.heap, h, b, at, [ENTER]);
    var m3 := m2.(mode := Return(Ptr(m.hp, 0)), stack := frame + m.stack);
    ConstructorReturns(m2, m3, b, at, vs, tag);
    ReachesJoin(m, m2, m3, 1 + j, 2);
    AltsStay(m.heap, h, alts, ways, default, lo, hi);
    var i;
    k, i := CaseReturnsTo(m3, alts, ways, default, lo, hi, way, fields, rhs, m.stack);
    m' := m3.(mode := Exec(alts, k), stack := vs + [Ptr(m.hp, 0)] + frame + m.stack);
    ReachesJoin(m, m3, m', 3 + j, i);
    n := 3 + j + i;
  }

  // ---------------------------------------------------------------- literals

  /** returnUnboxedAtom for an integer: it is left above the caller's frame under the info word for its
      kind. */
  lemma LiteralReturns(m: Machine, b: nat, pc: nat, i: int, drop: nat) returns (n: nat)
    requires m.mode == Exec(b, pc) && drop <= |m.stack|
    requires CodeAt(m.heap, b, pc, [PUSH_UBX([Lit(i)])] + (Slide(1, drop) + [RETURN_UNBOXED(RepN)]))
    ensures Reaches(m, m.(mode := ReturnUnboxed, stack := [GcRet(RepN), Lit(i)] + m.stack[drop..]), n)
  {
    hide CodeAt, Reaches;
    CodeParts(m.heap, b, pc, [PUSH_UBX([Lit(i)])], Slide(1, drop) + [RETURN_UNBOXED(RepN)]);
    CodeParts(m.heap, b, pc + 1, Slide(1, drop), [RETURN_UNBOXED(RepN)]);
    PushAtomRuns(m, b, pc, Literal(i), map[], 0);
    var m1 := On(m, pc + 1, [Lit(i)] + m.stack);
    assert [Lit(i)] + m.stack == [Lit(i)] + m.stack[..drop] + m.stack[drop..];
    var k := SlideRuns(m1, b, pc + 1, [Lit(i)], m.stack[..drop], m.stack[drop..]);
    var at := pc + 1 + |Slide(1, drop)|;
    var m2 := On(m, at, [Lit(i)] + m.stack[drop..]);
    ReachesJoin(m, m1, m2, 1, k);
    var m3 := m.(mode := ReturnUnboxed, stack := [GcRet(RepN), Lit(i)] + m.stack[drop..]);
    UnboxedRuns(m2, b, at);
    assert [GcRet(RepN)] + ([Lit(i)] + m.stack[drop..]) == [GcRet(RepN), Lit(i)] + m.stack[drop..];
    ReachesJoin(m, m2, m3, 1 + k, 1);
    n := 2 + k;
  }

  lemma UnboxedRuns(m: Machine, b: nat, pc: nat)
    requires m.mode == Exec(b, pc) && CodeAt(m.heap, b, pc, [RETURN_UNBOXED(RepN)])
    ensures Reaches(m, m.(mode := ReturnUnboxed, stack := [GcRet(RepN)] + m.stack), 1)
  {
    hide CodeAt, Reaches;
    InsnAt(m, b, pc, RETURN_UNBOXED(RepN));
    OneStep(m, m.(mode := ReturnUnboxed, stack := [GcRet(RepN)] + m.stack));
  }

  /** A `case` on integers runs the alternative for the integer returned to it. */
  lemma IntegerCaseReturns(m: Machine, alts: nat, ways: seq<Way>, default: Option<seq<Insn>>, lo: int, hi: int,
                           i: int, s: seq<Word>) returns (k: nat, n: nat)
    requires m.mode.ReturnUnboxed? && alts in m.heap && m.heap[alts].Bco?
    requires m.stack == [GcRet(RepN), Lit(i)] + [CtoiInfo(Some(RepN)), Ptr(alts, 0)] + s
    requires InRange(Ints, ways, lo, hi) && Distinct(ways) && (ways != [] || default.Some?) && lo <= i <= hi
    requires CodeAt(m.heap, alts, 0, MultiBranch(Ints, ways, default, lo, hi))
    ensures Reaches(m, m.(mode := Exec(alts, k)), n)
    ensures forall w :: w in ways && w.discr == i ==> CodeAt(m.heap, alts, k, w.code)
    ensures (forall w <- ways :: w.discr != i) ==>
              CodeAt(m.heap, alts, k, if default.Some? then default.value else [CASEFAIL])
  {
    hide Reaches, CodeAt, MultiBranch, Distinct, InRange;
    var m2 := ReturnsToIntegers(m, alts, i, s);
    var j;
    k, j := CaseRunsArm(Ints, ways, default, lo, hi, m2, alts, i);
    ReachesJoin(m, m2, m.(mode := Exec(alts, k)), 2, j);
    n := 2 + j;
  }

  lemma ReturnsToIntegers(m: Machine, alts: nat, i: int, s: seq<Word>) returns (m': Machine)
    requires m.mode.ReturnUnboxed? && alts in m.heap && m.heap[alts].Bco?
    requires m.stack == [GcRet(RepN), Lit(i)] + [CtoiInfo(Some(RepN)), Ptr(alts, 0)] + s
    ensures m' == m.(mode := Exec(alts, 0)) && m.stack[1] == Lit(i) && Reaches(m, m', 2)
  {
    var m1 := m.(mode := RunRetUnboxed(alts));
    m' := m1.(mode := Exec(alts, 0));
    assert m.stack[2] == CtoiInfo(Some(RepN)) && m.stack[3] == Ptr(alts, 0);
    assert Step(m) == Some(m1) && Step(m1) == Some(m');
    TwoSteps(m, m1, m');
  }
}
