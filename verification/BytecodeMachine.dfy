/** The eval/apply core of the bytecode interpreter (`interpretBCO`).

    `Step` is the interpreter when no check fails.  `Bail` is the stack it leaves when a heap,
    stack or context-switch check sends it back to the scheduler, and `Resume` is where the next
    call of the interpreter starts.  The main results: interruptions are invisible, and applying
    a BCO or a partial application keeps the spine of function and arguments. */
module BytecodeMachine {
  import opened Options

  /** The apply frames: one non-pointer argument, or one to six pointers. */
  datatype Apply = ApV | ApF | ApD | ApL | ApN | ApP(count: nat)

  /** The return conventions of case continuations and of unboxed returns. */
  datatype Rep = RepP | RepN | RepF | RepD | RepL | RepV

  datatype Word =
    | EnterInfo
    | ApplyInterp
    | ApplyInfo(ap: Apply)
    | UpdInfo
    | CtoiInfo(unboxed: Option<Rep>)
    | GcRet(rep: Rep)
    | OtherInfo
    | Ptr(p: nat, tag: nat)
    | Lit(n: int)

  datatype Object =
    | Con(tag: nat, args: seq<Word>)
    | Fun(arity: nat)
    | Pap(arity: nat, fun: Word, payload: seq<Word>)
    | Bco(arity: nat, code: seq<Insn>)
    | Ap(fun: Word, payload: seq<Word>)
    | Ind(indirectee: Word)
    | Unknown

  datatype Insn =
    | STKCHECK(words: nat)
    | PUSH_L(o1: nat)
    | PUSH_LL(o1: nat, o2: nat)
    | PUSH_LLL(o1: nat, o2: nat, o3: nat)
    | PUSH_G(ptr: Word)
    | PUSH_ALTS(rep: Option<Rep>, alts: Word)
    | PUSH_APPLY(ap: Apply)
    | PUSH_UBX(lits: seq<Word>)
    | SLIDE(n: nat, drop: nat)
    | ALLOC_AP(size: nat)
    | ALLOC_PAP(arity: nat, size: nat)
    | MKAP(stkoff: nat, size: nat)
    | MKPAP(stkoff: nat, size: nat)
    | UNPACK(n: nat)
    | PACK(tag: nat, n: nat)
    | TESTLT_P(discr: nat, failto: nat)
    | TESTEQ_P(discr: nat, failto: nat)
    | TESTLT_I(lit: int, failto: nat)
    | TESTEQ_I(lit: int, failto: nat)
    | JMP(target: nat)
    | CASEFAIL
    | ENTER
    | RETURN
    | RETURN_UNBOXED(conv: Rep)

  type Heap = map<nat, Object>

  /** Where the interpreter is: the labels of the C function that control can be at. */
  datatype Mode =
    | Eval(obj: Word)
    | Return(obj: Word)
    | ReturnUnboxed
    | RunFun(bco: nat)
    | RunRet(bco: nat)
    | RunRetUnboxed(bco: nat)
    | Exec(bco: nat, pc: nat)
    | Yielded

  datatype Machine = Machine(mode: Mode, stack: seq<Word>, heap: Heap, hp: nat)

  const UPDATE_FRAME_SIZE := 2

  /** A pointer with its tag bits cleared. */
  function Untag(w: Word): Word {
    if w.Ptr? then Ptr(w.p, 0) else w
  }

  predicate Whnf(o: Object) {
    o.Con? || o.Fun? || o.Pap? || o.Bco?
  }

  predicate Points(w: Word, h: Heap) {
    w.Ptr? && w.p in h
  }

  predicate IsBco(w: Word, h: Heap) {
    Points(w, h) && h[w.p].Bco?
  }

  /** Number of arguments of an apply frame; void arguments take no stack word. */
  function Args(a: Apply): (n: nat) {
    match a
    case ApP(k) => k
    case _ => 1
  }

  function ArgWords(a: Apply): (m: nat) {
    match a
    case ApP(k) => k
    case ApV => 0
    case _ => 1
  }

  /** There are apply frames for one to six pointers. */
  predicate Legal(a: Apply) {
    a.ApP? ==> 1 <= a.count <= 6
  }

  // ---------------------------------------------------------------------------------------
  // One step, when no check fails
  // ---------------------------------------------------------------------------------------

  function EvalStep(m: Machine): Option<Machine>
    requires m.mode.Eval?
  {
    var w := m.mode.obj;
    if !Points(w, m.heap) then None else
    match m.heap[w.p]
    case Ind(target) => Some(m.(mode := Eval(target)))
    case Ap(fun, payload) =>
      if IsBco(fun, m.heap)
      then Some(m.(mode := RunFun(fun.p), stack := payload + [UpdInfo, Untag(w)] + m.stack))
      else None
    case Unknown => Some(m.(mode := Yielded, stack := [EnterInfo, w] + m.stack))
    case _ => Some(m.(mode := Return(w)))
  }

  /** `do_apply`: apply `arity` arguments' worth of a BCO that already has `payload`, given the
      frame `a` on top of its arguments. */
  function ApplyBco(m: Machine, bco: Word, arity: nat, payload: seq<Word>): Machine
    requires m.stack != [] && m.stack[0].ApplyInfo? && |m.stack| > ArgWords(m.stack[0].ap)
    requires bco.Ptr?
  {
    var a := m.stack[0].ap;
    var args := m.stack[1..1 + ArgWords(a)];
    var rest := m.stack[1 + ArgWords(a)..];
    if arity < Args(a) && arity <= |args| then
      m.(mode := RunFun(bco.p),
         stack := (payload + args[..arity]) + ([ApplyInfo(ApP(Args(a) - arity))] + args[arity..] + rest))
    else if arity <= Args(a) then
      m.(mode := RunFun(bco.p), stack := payload + args + rest)
    else
      m.(mode := Return(Ptr(m.hp, 0)), stack := rest,
         heap := m.heap[m.hp := Pap(arity - Args(a), bco, payload + args)], hp := m.hp + 1)
  }

  function ReturnStep(m: Machine): Option<Machine>
    requires m.mode.Return?
  {
    var w := m.mode.obj;
    // the interpreter asserts that it only returns values
    if !Points(w, m.heap) || !Whnf(m.heap[w.p]) || m.stack == [] then None else
    match m.stack[0]
    case ApplyInfo(a) =>
      if |m.stack| <= ArgWords(a) then None else
      (match m.heap[w.p]
       case Pap(arity, fun, payload) =>
         if IsBco(fun, m.heap) then Some(ApplyBco(m, fun, arity, payload))
         else Some(m.(mode := Yielded, stack := [EnterInfo, w] + m.stack))
       case Bco(arity, _) => Some(ApplyBco(m, Untag(w), arity, []))
       case _ => Some(m.(mode := Yielded, stack := [EnterInfo, w] + m.stack)))
    case UpdInfo =>
      if |m.stack| < UPDATE_FRAME_SIZE || !m.stack[1].Ptr? then None
      else Some(m.(heap := m.heap[m.stack[1].p := Ind(w)], stack := m.stack[UPDATE_FRAME_SIZE..]))
    case CtoiInfo(_) =>
      if |m.stack| < 2 || !IsBco(m.stack[1], m.heap) then None
      else Some(m.(mode := RunRet(m.stack[1].p), stack := [Untag(w)] + m.stack))
    case _ => Some(m.(mode := Yielded, stack := [EnterInfo, w] + m.stack))
  }

  /** Words taken by the frame that carries an unboxed value to its continuation. */
  function GcRetSize(r: Rep): nat {
    if r.RepV? then 1 else 2
  }

  function ReturnUnboxedStep(m: Machine): Option<Machine>
    requires m.mode.ReturnUnboxed?
  {
    if m.stack == [] || !m.stack[0].GcRet? || |m.stack| <= GcRetSize(m.stack[0].rep) then None else
    var offset := GcRetSize(m.stack[0].rep);
    if !m.stack[offset].CtoiInfo? then Some(m.(mode := Yielded))
    else if |m.stack| <= offset + 1 || !IsBco(m.stack[offset + 1], m.heap) then None
    else Some(m.(mode := RunRetUnboxed(m.stack[offset + 1].p)))
  }

  /** The next instruction of the same BCO, with a new stack. */
  function Next(m: Machine, stack: seq<Word>): Option<Machine>
    requires m.mode.Exec?
  {
    Some(m.(mode := Exec(m.mode.bco, m.mode.pc + 1), stack := stack))
  }

  function Branch(m: Machine, taken: bool, target: nat): Option<Machine>
    requires m.mode.Exec?
  {
    Some(m.(mode := Exec(m.mode.bco, if taken then target else m.mode.pc + 1)))
  }

  /** Allocate `o` and push a pointer to it on `stack`. */
  function Allocate(m: Machine, o: Object, stack: seq<Word>): Option<Machine>
    requires m.mode.Exec?
  {
    Next(m.(heap := m.heap[m.hp := o], hp := m.hp + 1), [Ptr(m.hp, 0)] + stack)
  }

  function CurrentInsn(m: Machine): Option<Insn>
  {
    if m.mode.Exec? && m.mode.bco in m.heap && m.heap[m.mode.bco].Bco? && m.mode.pc < |m.heap[m.mode.bco].code|
    then Some(m.heap[m.mode.bco].code[m.mode.pc])
    else None
  }

  function InsnStep(m: Machine): Option<Machine>
    requires m.mode.Exec?
  {
    var s := m.stack;
    match CurrentInsn(m)
    case None => None
    case Some(insn) =>
      match insn
      case STKCHECK(_) => Next(m, s)
      case PUSH_L(o1) => if o1 < |s| then Next(m, [s[o1]] + s) else None
      case PUSH_LL(o1, o2) => if o1 < |s| && o2 < |s| then Next(m, [s[o2], s[o1]] + s) else None
      case PUSH_LLL(o1, o2, o3) =>
        if o1 < |s| && o2 < |s| && o3 < |s| then Next(m, [s[o3], s[o2], s[o1]] + s) else None
      case PUSH_G(w) => Next(m, [w] + s)
      case PUSH_ALTS(rep, alts) => Next(m, [CtoiInfo(rep), alts] + s)
      case PUSH_APPLY(a) => Next(m, [ApplyInfo(a)] + s)
      case PUSH_UBX(lits) => Next(m, lits + s)
      case SLIDE(n, drop) => if n + drop <= |s| then Next(m, s[..n] + s[n + drop..]) else None
      case ALLOC_AP(size) => Allocate(m, Ap(Lit(0), seq(size, i => Lit(0))), s)
      case ALLOC_PAP(arity, size) => Allocate(m, Pap(arity, Lit(0), seq(size, i => Lit(0))), s)
      case MKAP(off, size) =>
        if size < |s| && off < |s| && Points(s[off], m.heap) && m.heap[s[off].p].Ap? && |m.heap[s[off].p].payload| == size
        then Next(m.(heap := m.heap[s[off].p := Ap(s[0], s[1..1 + size])]), s[1 + size..]) else None
      case MKPAP(off, size) =>
        if size < |s| && off < |s| && Points(s[off], m.heap) && m.heap[s[off].p].Pap? && |m.heap[s[off].p].payload| == size
        then Next(m.(heap := m.heap[s[off].p := Pap(m.heap[s[off].p].arity, s[0], s[1..1 + size])]), s[1 + size..]) else None
      case UNPACK(n) =>
        if s != [] && Points(s[0], m.heap) && m.heap[s[0].p].Con? && n <= |m.heap[s[0].p].args|
        then Next(m, m.heap[s[0].p].args[..n] + s) else None
      case PACK(tag, n) => if n <= |s| then Allocate(m, Con(tag, s[..n]), s[n..]) else None
      case TESTLT_P(d, failto) =>
        if s != [] && Points(s[0], m.heap) && m.heap[s[0].p].Con?
        then Branch(m, m.heap[s[0].p].tag >= d, failto) else None
      case TESTEQ_P(d, failto) =>
        if s != [] && Points(s[0], m.heap) && m.heap[s[0].p].Con?
        then Branch(m, m.heap[s[0].p].tag != d, failto) else None
      case TESTLT_I(lit, failto) => if |s| > 1 && s[1].Lit? then Branch(m, s[1].n >= lit, failto) else None
      case TESTEQ_I(lit, failto) => if |s| > 1 && s[1].Lit? then Branch(m, s[1].n != lit, failto) else None
      case JMP(target) => Branch(m, true, target)
      // the interpreter stops the program
      case CASEFAIL => None
      case ENTER => if s != [] then Some(m.(mode := Eval(s[0]), stack := s[1..])) else None
      case RETURN => if s != [] then Some(m.(mode := Return(s[0]), stack := s[1..])) else None
      case RETURN_UNBOXED(rep) => Some(m.(mode := ReturnUnboxed, stack := [GcRet(rep)] + s))
  }

  function Step(m: Machine): Option<Machine> {
    match m.mode
    case Eval(_) => EvalStep(m)
    case Return(_) => ReturnStep(m)
    case ReturnUnboxed => ReturnUnboxedStep(m)
    case RunFun(b) => Some(m.(mode := Exec(b, 0)))
    case RunRet(b) => Some(m.(mode := Exec(b, 0)))
    case RunRetUnboxed(b) => Some(m.(mode := Exec(b, 0)))
    case Exec(_, _) => InsnStep(m)
    case Yielded => None
  }

  // ---------------------------------------------------------------------------------------
  // Going back to the scheduler, and coming back
  // ---------------------------------------------------------------------------------------

  /** The stack left behind by an exit with `ThreadInterpret`, wherever there is one. */
  function Bail(m: Machine): Option<seq<Word>> {
    match m.mode
    case Eval(w) =>
      if Points(w, m.heap) && m.heap[w.p].Ap? then Some([EnterInfo, w] + m.stack) else None
    case Return(w) =>
      if Points(w, m.heap) && m.heap[w.p].Pap? && IsBco(m.heap[w.p].fun, m.heap) && m.stack != [] && m.stack[0].ApplyInfo?
      then Some([EnterInfo, w] + m.stack) else None
    case RunFun(b) => Some([ApplyInterp, Ptr(b, 0)] + m.stack)
    case RunRet(b) => Some([EnterInfo] + m.stack)
    case RunRetUnboxed(b) => Some(m.stack)
    case Exec(b, pc) =>
      (match CurrentInsn(m)
       case Some(STKCHECK(_)) => Some([ApplyInterp, Ptr(b, 0)] + m.stack)
       case Some(ENTER) => if m.stack != [] then Some([EnterInfo] + m.stack) else None
       case _ => None)
    case _ => None
  }

  /** The three ways to enter the interpreter, told apart by the word on top of the stack. */
  function Resume(stack: seq<Word>, heap: Heap, hp: nat): Option<Machine> {
    if stack == [] then None
    else if stack[0] == EnterInfo then
      if |stack| > 1 then Some(Machine(Eval(stack[1]), stack[2..], heap, hp)) else None
    else if stack[0] == ApplyInterp then
      if |stack| > 1 && stack[1].Ptr? then Some(Machine(RunFun(stack[1].p), stack[2..], heap, hp)) else None
    else Some(Machine(ReturnUnboxed, stack, heap, hp))
  }

  /** `n` uninterrupted steps lead from `m` to `m'`. */
  ghost predicate Reaches(m: Machine, m': Machine, n: nat)
    decreases n
  {
    if n == 0 then m == m'
    else Step(m).Some? && Reaches(Step(m).value, m', n - 1)
  }

  /** What the interpreter's own jumps guarantee about the continuation entry points, and the
      compiler's promise that a stack check is the first instruction of a function. */
  ghost predicate Sane(m: Machine) {
    EntryOk(m) && ChecksFirst(m.heap)
  }

  ghost predicate EntryOk(m: Machine) {
    && (m.mode.RunRet? ==>
          && |m.stack| > 2 && m.stack[0].Ptr? && m.stack[0].tag == 0
          && m.stack[0].p in m.heap && Whnf(m.heap[m.stack[0].p])
          && m.stack[1].CtoiInfo? && IsBco(m.stack[2], m.heap) && m.stack[2].p == m.mode.bco)
    && (m.mode.RunRetUnboxed? ==>
          && m.stack != [] && m.stack[0].GcRet?
          && |m.stack| > GcRetSize(m.stack[0].rep) + 1 && m.stack[GcRetSize(m.stack[0].rep)].CtoiInfo?
          && IsBco(m.stack[GcRetSize(m.stack[0].rep) + 1], m.heap)
          && m.stack[GcRetSize(m.stack[0].rep) + 1].p == m.mode.bco)
  }

  ghost predicate ChecksFirst(h: Heap) {
    forall b, i | b in h && h[b].Bco? && 0 < i < |h[b].code| :: !h[b].code[i].STKCHECK?
  }

  /** No step makes or changes a BCO. */
  lemma StepKeepsCode(m: Machine, b: nat)
    requires Step(m).Some? && b in Step(m).value.heap && Step(m).value.heap[b].Bco?
    ensures b in m.heap && m.heap[b] == Step(m).value.heap[b]
  {}

  // ---------------------------------------------------------------------------------------
  // Interruptions are invisible
  // ---------------------------------------------------------------------------------------

  lemma StepKeepsSane(m: Machine)
    requires Sane(m) && Step(m).Some?
    ensures Sane(Step(m).value)
  {
    var m' := Step(m).value;
    assert EntryOk(m') by { EntriesOk(m); }
    hide Step;
    forall b, i | b in m'.heap && m'.heap[b].Bco? && 0 < i < |m'.heap[b].code| ensures !m'.heap[b].code[i].STKCHECK? {
      StepKeepsCode(m, b);
    }
  }

  lemma EntriesOk(m: Machine)
    requires Step(m).Some?
    ensures EntryOk(Step(m).value)
  {}

  lemma OneStep(a: Machine, b: Machine)
    requires Step(a) == Some(b)
    ensures Reaches(a, b, 1)
  {
    hide Step;
    assert Reaches(b, b, 0);
  }

  lemma TwoSteps(a: Machine, b: Machine, c: Machine)
    requires Step(a) == Some(b) && Step(b) == Some(c)
    ensures Reaches(a, c, 2)
  {
    hide Step;
    OneStep(b, c);
  }

  /** A value returned to a case continuation is evaluated again, which finds a value. */
  lemma ResumeAtContinuation(m: Machine)
    requires Sane(m) && m.mode.RunRet?
    ensures Bail(m) == Some([EnterInfo] + m.stack)
    ensures Resume([EnterInfo] + m.stack, m.heap, m.hp).Some?
    ensures Reaches(Resume([EnterInfo] + m.stack, m.heap, m.hp).value, m, 2)
  {
    var s := [EnterInfo] + m.stack;
    var r := m.(mode := Eval(m.stack[0]), stack := m.stack[1..]);
    var e := r.(mode := Return(m.stack[0]));
    assert s[1] == m.stack[0] && s[2..] == m.stack[1..];
    assert Resume(s, m.heap, m.hp) == Some(r);
    assert Step(r) == Some(e);
    assert Step(e) == Some(m) by {
      assert [m.stack[0]] + m.stack[1..] == m.stack;
    }
    TwoSteps(r, e, m);
  }

  /** After an interruption the interpreter gets back, in at most two steps, to the configuration
      that was interrupted; after one at ENTER it is already past it. */
  lemma ResumeCatchesUp(m: Machine) returns (n: nat)
    requires Sane(m) && Bail(m).Some?
    ensures Resume(Bail(m).value, m.heap, m.hp).Some?
    ensures Sane(Resume(Bail(m).value, m.heap, m.hp).value)
    ensures var r := Resume(Bail(m).value, m.heap, m.hp).value;
            if CurrentInsn(m) == Some(ENTER) then Step(m) == Some(r) else n <= 2 && Reaches(r, m, n)
  {
    var s := Bail(m).value;
    if m.mode.RunRet? {
      ResumeAtContinuation(m);
      n := 2;
    } else if CurrentInsn(m) == Some(ENTER) {
      n := 1;
      assert s[1] == m.stack[0] && s[2..] == m.stack[1..];
    } else {
      var r := Resume(s, m.heap, m.hp).value;
      if r != m {
        n := 1;
        assert !m.mode.ReturnUnboxed? && (m.mode.RunRetUnboxed? || s[2..] == m.stack);
        assert m.mode.Exec? ==> m.heap[m.mode.bco].code[m.mode.pc].STKCHECK? && m.mode.pc == 0;
        OneStep(r, m);
      } else {
        n := 0;
      }
    }
  }

  /** A run in which every configuration follows from the one before by a step or by an exit to
      the scheduler and a return from it. */
  ghost predicate InterruptedRun(run: seq<Machine>) {
    forall i | 0 < i < |run| :: Step(run[i - 1]) == Some(run[i]) || Interrupted(run[i - 1], run[i])
  }

  ghost predicate Interrupted(m: Machine, m': Machine) {
    Bail(m).Some? && Resume(Bail(m).value, m.heap, m.hp) == Some(m')
  }

  lemma {:induction false} ReachesJoin(a: Machine, b: Machine, c: Machine, n: nat, k: nat)
    requires Reaches(a, b, n) && Reaches(b, c, k)
    ensures Reaches(a, c, n + k)
    decreases n
  {
    hide Step;
    if n > 0 { ReachesJoin(Step(a).value, b, c, n - 1, k); }
  }

  /** However often a run is interrupted, it stays on the uninterrupted run from the same start:
      the last configuration still leads to some `u` on that run. */
  lemma {:induction false} InterruptionsFollow(run: seq<Machine>) returns (u: Machine, n: nat, k: nat)
    requires run != [] && Sane(run[0]) && InterruptedRun(run)
    ensures Sane(run[|run| - 1])
    ensures Reaches(run[0], u, n) && Reaches(run[|run| - 1], u, k)
  {
    hide Step, Bail, Resume, CurrentInsn, Sane;
    if |run| == 1 {
      u, n, k := run[0], 0, 0;
    } else {
      var init := run[..|run| - 1];
      u, n, k := InterruptionsFollow(init);
      var d, d' := init[|init| - 1], run[|run| - 1];
      assert InterruptedRun(init);
      if Step(d) == Some(d') {
        StepKeepsSane(d);
        n, u, k := OneAhead(run[0], d, d', u, n, k);
      } else {
        assert Interrupted(run[|run| - 2], run[|run| - 1]);
        var j := ResumeCatchesUp(d);
        if CurrentInsn(d) != Some(ENTER) {
          ReachesJoin(d', d, u, j, k);
          k := j + k;
        }
      }
    }
  }

  lemma OneAhead(a: Machine, d: Machine, d': Machine, u: Machine, n: nat, k: nat) returns (n': nat, u': Machine, k': nat)
    requires Reaches(a, u, n) && Reaches(d, u, k) && Step(d) == Some(d')
    ensures Reaches(a, u', n') && Reaches(d', u', k')
  {
    hide Step;
    if k == 0 {
      OneStep(d, d');
      ReachesJoin(a, d, d', n, 1);
      n', u', k' := n + 1, d', 0;
    } else {
      n', u', k' := n, u, k - 1;
    }
  }

  /** A run that ends, ends where the uninterrupted run from the same start ends: the same
      stack and heap are handed to the scheduler (or the same assertion fails). */
  lemma InterruptionsInvisible(run: seq<Machine>) returns (n: nat)
    requires run != [] && Sane(run[0]) && InterruptedRun(run)
    requires Step(run[|run| - 1]).None?
    ensures Reaches(run[0], run[|run| - 1], n)
  {
    var u, k;
    u, n, k := InterruptionsFollow(run);
  }

  /** Uninterrupted runs are deterministic, so there is no other configuration to end in. */
  lemma {:induction false} EndIsUnique(a: Machine, b: Machine, c: Machine, n: nat, k: nat)
    requires Reaches(a, b, n) && Reaches(a, c, k) && Step(b).None? && Step(c).None?
    ensures b == c && n == k
    decreases n
  {
    hide Step;
    if n > 0 && k > 0 { EndIsUnique(Step(a).value, b, c, n - 1, k - 1); }
  }

  /** Two further steps of a run, and then it is over. */
  lemma {:induction false} NotReached(a: Machine, b: Machine, c: Machine, d: Machine, m: Machine, n: nat)
    requires Step(a) == Some(b) && Step(b) == Some(c) && Step(c) == Some(d) && Step(d).None?
    requires m != a && m != b && m != c && m != d
    ensures !Reaches(a, m, n)
  {
    hide Step;
    if n >= 3 {
      assert !Reaches(d, m, n - 3);
      assert !Reaches(c, m, n - 2);
      assert !Reaches(b, m, n - 1);
    } else if n == 2 {
      assert !Reaches(c, m, 0);
      assert !Reaches(b, m, 1);
    } else if n == 1 {
      assert !Reaches(b, m, 0);
    }
  }

  /** Why the compiler must put STKCHECK first: a stack check after another instruction is not
      invisible, because the function starts again from its first instruction. */
  lemma LateCheckIsVisible()
    ensures exists m: Machine ::
      && CurrentInsn(m).Some? && CurrentInsn(m).value.STKCHECK? && Bail(m).Some?
      && var r := Resume(Bail(m).value, m.heap, m.hp);
         && r.Some? && forall n: nat :: !Reaches(r.value, m, n)
  {
    var code := [PUSH_L(0), STKCHECK(99)];
    var h: Heap := map[7 := Bco(1, code)];
    var five := [Lit(5), Lit(5)];
    var m := Machine(Exec(7, 1), five, h, 8);
    assert CurrentInsn(m) == Some(STKCHECK(99));
    var s := [ApplyInterp, Ptr(7, 0)] + five;
    assert Bail(m) == Some(s) && s[2..] == five;
    var r := Machine(RunFun(7), five, h, 8);
    assert Resume(s, h, 8) == Some(r);
    var r1 := Machine(Exec(7, 0), five, h, 8);
    var r2 := Machine(Exec(7, 1), [Lit(5)] + five, h, 8);
    var r3 := r2.(mode := Exec(7, 2));
    assert CurrentInsn(r1) == Some(PUSH_L(0)) && CurrentInsn(r2) == Some(STKCHECK(99)) && CurrentInsn(r3) == None;
    assert Step(r) == Some(r1) && Step(r1) == Some(r2) && Step(r2) == Some(r3) && Step(r3).None?;
    assert |r2.stack| != |five|;
    forall n: nat ensures !Reaches(r, m, n) { NotReached(r, r1, r2, r3, m, n); }
  }

  // ---------------------------------------------------------------------------------------
  // Application keeps the spine
  // ---------------------------------------------------------------------------------------

  /** A function and all the arguments waiting for it, and the stack below them. */
  datatype Spine = Spine(bco: nat, args: seq<Word>, below: seq<Word>)

  /** An apply frame with its arguments, of whatever kind but void, is on top of the stack. */
  ghost predicate ArgFrame(s: seq<Word>) {
    s != [] && s[0].ApplyInfo? && s[0].ap != ApV && Legal(s[0].ap) && |s| > Args(s[0].ap)
  }

  /** The arguments of the apply frames on top of the stack, nearest first. */
  ghost function WaitingArgs(s: seq<Word>): seq<Word>
    decreases |s|
  {
    if ArgFrame(s) then s[1..1 + Args(s[0].ap)] + WaitingArgs(s[1 + Args(s[0].ap)..]) else []
  }

  ghost function BelowArgs(s: seq<Word>): seq<Word>
    decreases |s|
  {
    if ArgFrame(s) then BelowArgs(s[1 + Args(s[0].ap)..]) else s
  }

  /** A BCO that takes arguments, or a partial application of one that still lacks some: the
      arguments it has and the arguments it lacks make up the arity of the BCO. */
  ghost predicate Applicable(w: Word, h: Heap) {
    Points(w, h) &&
    match h[w.p]
    case Bco(arity, _) => arity > 0
    case Pap(arity, fun, payload) => arity > 0 && IsBco(fun, h) && h[fun.p].arity == |payload| + arity
    case _ => false
  }

  /** The spine of a function about to be applied. */
  ghost function SpineOfReturn(w: Word, s: seq<Word>, h: Heap): Spine
    requires Applicable(w, h)
  {
    match h[w.p]
    case Bco(_, _) => Spine(w.p, WaitingArgs(s), BelowArgs(s))
    case Pap(_, fun, payload) => Spine(fun.p, payload + WaitingArgs(s), BelowArgs(s))
  }

  /** The spine of a BCO being entered: it takes exactly its arity of words off the stack. */
  ghost function SpineOfEntry(b: nat, s: seq<Word>, h: Heap): Spine
    requires b in h && h[b].Bco? && h[b].arity <= |s|
  {
    Spine(b, s[..h[b].arity] + WaitingArgs(s[h[b].arity..]), BelowArgs(s[h[b].arity..]))
  }

  /** `m` is about to enter a BCO with its arguments on the stack, or holds another function. */
  ghost predicate HasSpine(m: Machine, spine: Spine) {
    match m.mode
    case RunFun(b) => b in m.heap && m.heap[b].Bco? && m.heap[b].arity <= |m.stack| && SpineOfEntry(b, m.stack, m.heap) == spine
    case Return(w) => Applicable(w, m.heap) && SpineOfReturn(w, m.stack, m.heap) == spine
    case _ => false
  }

  lemma SplitFrame(args: seq<Word>, k: nat, rest: seq<Word>)
    requires k < |args| <= 6
    ensures var s := [ApplyInfo(ApP(|args| - k))] + args[k..] + rest;
            WaitingArgs(s) == args[k..] + WaitingArgs(rest) && BelowArgs(s) == BelowArgs(rest)
  {
    var s := [ApplyInfo(ApP(|args| - k))] + args[k..] + rest;
    assert s[1..1 + (|args| - k)] == args[k..] && s[1 + (|args| - k)..] == rest;
  }

  lemma EntrySpine(b: nat, front: seq<Word>, tail: seq<Word>, h: Heap)
    requires b in h && h[b].Bco? && h[b].arity == |front|
    ensures SpineOfEntry(b, front + tail, h) == Spine(b, front + WaitingArgs(tail), BelowArgs(tail))
  {
    assert (front + tail)[..|front|] == front && (front + tail)[|front|..] == tail;
  }

  lemma Regroup<T>(a: seq<T>, b: seq<T>, c: seq<T>)
    ensures a + b + c == a + (b + c)
  {}

  lemma Rejoin<T>(a: seq<T>, b: seq<T>, k: nat, c: seq<T>)
    requires k <= |b|
    ensures (a + b[..k]) + (b[k..] + c) == a + (b + c)
  {}

  /** More arguments than the BCO takes: the surplus stays behind under a smaller apply frame. */
  lemma OverApply(b: nat, payload: seq<Word>, args: seq<Word>, rest: seq<Word>, arity: nat, h: Heap)
    requires 0 < arity < |args| <= 6 && b in h && h[b].Bco? && h[b].arity == |payload| + arity
    ensures var s := (payload + args[..arity]) + ([ApplyInfo(ApP(|args| - arity))] + args[arity..] + rest);
      |s| >= h[b].arity && SpineOfEntry(b, s, h) == Spine(b, payload + (args + WaitingArgs(rest)), BelowArgs(rest))
  {
    hide WaitingArgs, BelowArgs, SpineOfEntry;
    SplitFrame(args, arity, rest);
    EntrySpine(b, payload + args[..arity], [ApplyInfo(ApP(|args| - arity))] + args[arity..] + rest, h);
    Rejoin(payload, args, arity, WaitingArgs(rest));
  }

  /** Fewer arguments than the BCO still lacks: they all go into a new partial application. */
  lemma UnderApply(p: nat, bco: Word, payload: seq<Word>, lacks: nat, rest: seq<Word>, h: Heap)
    requires IsBco(bco, h) && p !in h && 0 < lacks && h[bco.p].arity == |payload| + lacks
    ensures var h' := h[p := Pap(lacks, bco, payload)];
      && Applicable(Ptr(p, 0), h')
      && SpineOfReturn(Ptr(p, 0), rest, h') == Spine(bco.p, payload + WaitingArgs(rest), BelowArgs(rest))
  {
    hide WaitingArgs, BelowArgs;
  }

  lemma WaitingSplit(s: seq<Word>, k: nat, args: seq<Word>, rest: seq<Word>)
    requires ArgFrame(s) && k == Args(s[0].ap) && args == s[1..1 + k] && rest == s[1 + k..]
    ensures WaitingArgs(s) == args + WaitingArgs(rest) && BelowArgs(s) == BelowArgs(rest)
  {}

  lemma ApplyBcoKeepsSpine(m: Machine, bco: Word, arity: nat, payload: seq<Word>)
    requires ArgFrame(m.stack) && IsBco(bco, m.heap) && m.hp !in m.heap
    requires arity > 0 && m.heap[bco.p].arity == |payload| + arity
    ensures HasSpine(ApplyBco(m, bco, arity, payload),
                     Spine(bco.p, payload + WaitingArgs(m.stack), BelowArgs(m.stack)))
  {
    hide WaitingArgs, BelowArgs, SpineOfEntry, SpineOfReturn, Applicable;
    var k := Args(m.stack[0].ap);
    var args, rest := m.stack[1..1 + k], m.stack[1 + k..];
    WaitingSplit(m.stack, k, args, rest);
    if arity < k {
      OverApply(bco.p, payload, args, rest, arity, m.heap);
    } else if arity == k {
      EntrySpine(bco.p, payload + args, rest, m.heap);
      Regroup(payload, args, WaitingArgs(rest));
    } else {
      UnderApply(m.hp, bco, payload + args, arity - k, rest, m.heap);
      Regroup(payload, args, WaitingArgs(rest));
    }
  }

  /** Applying a BCO, or a partial application of one, to a frame of arguments keeps the same
      function applied to the same arguments: the BCO is entered with exactly its arity of them
      on the stack, or a partial application with the right remaining arity is returned. */
  lemma ApplyKeepsSpine(m: Machine)
    requires m.mode.Return? && Applicable(m.mode.obj, m.heap) && ArgFrame(m.stack) && m.hp !in m.heap
    ensures Step(m).Some? && HasSpine(Step(m).value, SpineOfReturn(m.mode.obj, m.stack, m.heap))
  {
    hide WaitingArgs, BelowArgs;
    var w := m.mode.obj;
    match m.heap[w.p]
    case Bco(arity, _) =>
      ApplyBcoKeepsSpine(m, Untag(w), arity, []);
      assert [] + WaitingArgs(m.stack) == WaitingArgs(m.stack);
    case Pap(arity, fun, payload) =>
      ApplyBcoKeepsSpine(m, fun, arity, payload);
  }

  ghost predicate HeapBelow(m: Machine) {
    forall p | p in m.heap :: p < m.hp
  }

  /** One application: the BCO is entered, or there is one frame less. */
  lemma ApplyProgress(m: Machine)
    requires m.mode.Return? && Applicable(m.mode.obj, m.heap) && ArgFrame(m.stack) && HeapBelow(m)
    ensures Step(m).Some? && HasSpine(Step(m).value, SpineOfReturn(m.mode.obj, m.stack, m.heap))
    ensures HeapBelow(Step(m).value)
    ensures Step(m).value.mode.RunFun? || (Step(m).value.mode.Return? && |Step(m).value.stack| < |m.stack|)
  {
    ApplyKeepsSpine(m);
    hide HasSpine, SpineOfReturn, WaitingArgs, BelowArgs;
  }

  /** The whole spine is worked off: the machine gets to enter the BCO with all its arguments, or
      runs out of arguments holding a partial application that has collected every one of them. */
  lemma {:induction false} SpineIsApplied(m: Machine) returns (m': Machine, n: nat)
    requires m.mode.Return? && Applicable(m.mode.obj, m.heap) && HeapBelow(m)
    ensures Reaches(m, m', n)
    ensures HasSpine(m', SpineOfReturn(m.mode.obj, m.stack, m.heap))
    ensures m'.mode.RunFun? || (m'.mode.Return? && WaitingArgs(m'.stack) == [])
    decreases |m.stack|
  {
    hide Step, HeapBelow, SpineOfReturn, SpineOfEntry, Applicable;
    if ArgFrame(m.stack) {
      ApplyProgress(m);
      var next := Step(m).value;
      if next.mode.Return? {
        m', n := SpineIsApplied(next);
        n := n + 1;
      } else {
        OneStep(m, next);
        m', n := next, 1;
      }
    } else {
      m', n := m, 0;
    }
  }

  // ---------------------------------------------------------------------------------------
  // Instructions that belong together
  // ---------------------------------------------------------------------------------------

  /** The machine after instruction `i`, wherever in a BCO it stands. */
  ghost predicate Executes(m: Machine, i: Insn, m': Machine) {
    m.mode.Exec? && CurrentInsn(m) == Some(i) && Step(m) == Some(m')
  }

  /** The combined pushes count all offsets from the stack before them: each is as good as single
      pushes whose offsets allow for the words pushed already. */
  lemma PushesTogether(m: Machine, m': Machine, m1: Machine, m2: Machine, m3: Machine, m4: Machine,
                       o1: nat, o2: nat, o3: nat)
    requires Executes(m1, PUSH_L(o1), m2) && m1.stack == m.stack && m1.heap == m.heap
    requires Executes(m2, PUSH_L(o2 + 1), m3)
    ensures Executes(m, PUSH_LL(o1, o2), m') ==> m'.stack == m3.stack && m'.heap == m3.heap
    ensures Executes(m, PUSH_LLL(o1, o2, o3), m') && Executes(m3, PUSH_L(o3 + 2), m4) ==>
              m'.stack == m4.stack && m'.heap == m4.heap
  {
    assert m2.stack[o2 + 1] == m.stack[o2];
    if Executes(m3, PUSH_L(o3 + 2), m4) {
      assert m3.stack[o3 + 2] == m.stack[o3];
    }
  }

  /** UNPACK takes a constructor apart that PACK has made: the fields are back on the stack in their
      order, on top of the pointer to the constructor. */
  lemma PackThenUnpack(m: Machine, m1: Machine, m2: Machine, m3: Machine, tag: nat, n: nat)
    requires Executes(m, PACK(tag, n), m1)
    requires m2.stack == m1.stack && m2.heap == m1.heap && Executes(m2, UNPACK(n), m3)
    ensures n <= |m.stack| && m3.stack == m.stack[..n] + [Ptr(m.hp, 0)] + m.stack[n..]
    ensures m3.heap == m1.heap && forall p :: p in m.heap && p != m.hp ==> p in m3.heap && m3.heap[p] == m.heap[p]
  {
    assert m1.heap[m.hp] == Con(tag, m.stack[..n]);
  }

  /** Evaluating a thunk that MKAP has filled enters its function with the arguments in the order they
      had on the stack, under an update frame for the thunk. */
  lemma FilledThunkIsApplied(m: Machine, m1: Machine, m2: Machine, off: nat, size: nat)
    requires Executes(m, MKAP(off, size), m1)
    requires m2.mode == Eval(m.stack[off]) && m2.heap == m1.heap && IsBco(m.stack[0], m1.heap)
    ensures size < |m.stack| && m1.stack == m.stack[1 + size..]
    ensures Step(m2).Some? && Step(m2).value.mode == RunFun(m.stack[0].p)
    ensures Step(m2).value.stack == m.stack[1..1 + size] + [UpdInfo, Untag(m.stack[off])] + m2.stack
  {
    assert m1.heap[m.stack[off].p] == Ap(m.stack[0], m.stack[1..1 + size]);
  }

  /** The update that follows makes the thunk an indirection to the value returned, which from then on
      evaluating the thunk gives. */
  lemma UpdatedThunkHasValue(m: Machine, m2: Machine, thunk: Word, w: Word)
    requires m.mode == Return(w) && Points(w, m.heap) && Whnf(m.heap[w.p]) && thunk.Ptr? && thunk.p != w.p
    requires |m.stack| >= 2 && m.stack[..2] == [UpdInfo, thunk]
    requires Step(m).Some? && m2.mode == Eval(thunk) && m2.heap == Step(m).value.heap
    ensures Step(m).value.stack == m.stack[2..] && Step(m).value.mode == Return(w)
    ensures Reaches(m2, m2.(mode := Return(w)), 2)
  {
    assert m.stack[0] == m.stack[..2][0] && m.stack[1] == m.stack[..2][1];
    var e := m2.(mode := Eval(w));
    assert m2.heap[thunk.p] == Ind(w);
    assert Step(m2) == Some(e) && Step(e) == Some(m2.(mode := Return(w)));
    TwoSteps(m2, e, m2.(mode := Return(w)));
  }

  /** A void argument counts towards the arity but is not passed: with the frame for one on top of that
      for the `k` others, a function of `k + 1` arguments is entered with those `k` words alone. */
  lemma VoidIsCounted(m: Machine, k: nat, args: seq<Word>, rest: seq<Word>) returns (m1: Machine, m2: Machine)
    requires m.mode.Return? && Points(m.mode.obj, m.heap) && m.heap[m.mode.obj.p].Bco? && m.hp !in m.heap
    requires m.heap[m.mode.obj.p].arity == k + 1 && k > 0 && |args| == k && rest != []
    requires m.stack == [ApplyInfo(ApV), ApplyInfo(ApP(k))] + args + rest
    ensures Step(m) == Some(m1) && Step(m1) == Some(m2)
    ensures m2.mode == RunFun(m.mode.obj.p) && m2.stack == args + rest
    ensures forall p :: p in m.heap ==> p in m2.heap && m2.heap[p] == m.heap[p]
  {
    var f := m.mode.obj;
    var s1 := [ApplyInfo(ApP(k))] + args + rest;
    assert m.stack[1..1] == [] && m.stack[1..] == s1;
    m1 := m.(mode := Return(Ptr(m.hp, 0)), stack := s1, heap := m.heap[m.hp := Pap(k, Untag(f), [] + [])], hp := m.hp + 1);
    assert m.stack[0] == ApplyInfo(ApV) && ArgWords(ApV) == 0 && Args(ApV) == 1;
    assert ApplyBco(m, Untag(f), k + 1, []) == m1;
    assert s1[1..1 + k] == args && s1[1 + k..] == rest;
    m2 := m1.(mode := RunFun(f.p), stack := [] + args + rest);
    assert s1[0] == ApplyInfo(ApP(k)) && m1.heap[m.hp] == Pap(k, Untag(f), []);
    assert ApplyBco(m1, Untag(f), k, []) == m2;
  }

  /** On a value RETURN comes to what ENTER comes to after evaluating it. */
  lemma ReturnIsEnter(m: Machine, m1: Machine, m2: Machine, m3: Machine)
    requires Executes(m, RETURN, m1) && Executes(m2, ENTER, m3)
    requires m2.stack == m.stack && m2.heap == m.heap && m2.hp == m.hp
    requires Points(m.stack[0], m.heap) && Whnf(m.heap[m.stack[0].p])
    ensures Step(m3) == Some(m1)
  {
  }
}
