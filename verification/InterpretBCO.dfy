/** The interpreter's code: one method for each label of `interpretBCO`, working on stack memory
    and the heap in place, each proved to perform the step of `BytecodeMachine` or to leave the
    stack that `Bail` describes. */
module InterpretBCO {
  import opened Options

  import opened BytecodeMachine

  /** Words that may be used below the stack limit. */
  const RESERVED_STACK_WORDS := 21

  const INTERP_STACK_CHECK_THRESH := 50

  /** `Interrupted` is an exit with `ThreadInterpret`; `Goto` is a jump within the interpreter. */
  datatype Outcome = Goto(mode: Mode) | Interrupted

  /** Words an instruction may need below the stack pointer; the compiler has added these up for the
      stack check at the start of the function. */
  function Room(insn: Insn): nat {
    match insn
    case PUSH_UBX(lits) => |lits|
    case UNPACK(n) => n
    case _ => 3
  }

  /** The stack check made in configuration m, if any, finds room in a stack for `cap` words. */
  predicate Passes(m: Machine, cap: nat) {
    match m.mode
    case Eval(w) =>
      Points(w, m.heap) && m.heap[w.p].Ap? ==> |m.stack| + |m.heap[w.p].payload| + UPDATE_FRAME_SIZE <= cap
    case Return(w) =>
      Points(w, m.heap) && m.heap[w.p].Pap? && IsBco(m.heap[w.p].fun, m.heap) && m.stack != [] && m.stack[0].ApplyInfo? ==>
        |m.stack| + |m.heap[w.p].payload| + 1 <= cap
    case RunFun(_) => |m.stack| + INTERP_STACK_CHECK_THRESH <= cap
    case Exec(_, _) =>
      (match CurrentInsn(m)
       case Some(STKCHECK(words)) => |m.stack| + words + 1 <= cap
       case _ => true)
    case _ => true
  }

  /** What the checks are for: they leave room for a function to run, and evaluating and returning
      never go beyond the limit by more than the words for which there is no check, which are those
      for a continuation or for going back to the scheduler. */
  lemma ChecksLeaveRoom(m: Machine, cap: nat)
    requires Step(m).Some? && Passes(m, cap) && |m.stack| <= cap
    requires m.mode.Eval? || m.mode.Return? || m.mode.RunFun?
    ensures var m' := Step(m).value;
      && |m'.stack| <= cap + (if m'.mode.RunRet? then 1 else if m'.mode.Yielded? then 2 else 0)
      && (m.mode.RunFun? ==> |m'.stack| + INTERP_STACK_CHECK_THRESH <= cap)
  {
  }

  class Interpreter {
    /** Stack memory; the stack grows downwards and `sp` is its top. */
    const stk: array<Word>
    const spLim: nat
    var sp: nat
    var heap: Heap
    var hp: nat

    constructor (size: nat, limit: nat)
      requires RESERVED_STACK_WORDS <= limit <= size
      ensures Valid() && fresh(stk) && sp == stk.Length == size && spLim == limit && heap == map[] && hp == 0
    {
      stk := new Word[size](_ => OtherInfo);
      spLim, sp, heap, hp := limit, size, map[], 0;
    }

    ghost predicate Valid()
      reads this
    {
      RESERVED_STACK_WORDS <= spLim <= stk.Length && sp <= stk.Length
    }

    ghost function M(mode: Mode): Machine
      requires Valid()
      reads this, stk
    {
      Machine(mode, stk[sp..], heap, hp)
    }

    /** How many words the stack may take up to its limit. */
    function Capacity(): nat
      requires Valid()
      reads this
    {
      stk.Length - spLim
    }

    /** The method did what the label's code does from configuration `m`. */
    ghost predicate Did(m: Machine, o: Outcome)
      requires Valid()
      reads this, stk
    {
      match o
      case Goto(mode) => Step(m) == Some(M(mode))
      case Interrupted => Bail(m) == Some(stk[sp..]) && heap == m.heap && hp == m.hp
    }

    // -------------------------------------------------------------------------------------
    // Moving words about
    // -------------------------------------------------------------------------------------

    method Push(w: Word)
      requires Valid() && 1 <= sp
      modifies this, stk
      ensures Valid() && stk[sp..] == [w] + old(stk[sp..]) && heap == old(heap) && hp == old(hp)
    {
      sp := sp - 1;
      stk[sp] := w;
    }

    /** Two words that let the interpreter or the scheduler start over. */
    method PushPair(info: Word, w: Word)
      requires Valid() && 2 <= sp
      modifies this, stk
      ensures Valid() && stk[sp..] == [info, w] + old(stk[sp..]) && heap == old(heap) && hp == old(hp)
    {
      sp := sp - 2;
      stk[sp + 1] := w;
      stk[sp] := info;
    }

    /** Copy the words of a closure's payload onto the stack. */
    method Unpack(words: seq<Word>)
      requires Valid() && |words| <= sp
      modifies this, stk
      ensures Valid() && stk[sp..] == words + old(stk[sp..]) && heap == old(heap) && hp == old(hp)
    {
      sp := sp - |words|;
      for i := 0 to |words|
        invariant Valid() && sp == old(sp) - |words| && heap == old(heap) && hp == old(hp)
        invariant forall j | 0 <= j < i :: stk[sp + j] == words[j]
        invariant forall j | sp + |words| <= j < stk.Length :: stk[j] == old(stk[j])
      {
        stk[sp + i] := words[i];
      }
    }

    /** Copy `n` words from the top of the stack into a closure's payload. */
    method Payload(n: nat) returns (words: seq<Word>)
      requires Valid() && sp + n <= stk.Length
      ensures words == stk[sp..][..n]
    {
      words := [];
      for i := 0 to n
        invariant words == stk[sp..][..i]
      {
        words := words + [stk[sp + i]];
      }
    }

    /** Move the top `n` words down by one, over the info word below the top, and put `info` in
        the gap: `Sp` points at the old info word, the arguments begin above it. */
    method Shuffle(n: nat, info: Word)
      requires Valid() && sp + n < stk.Length
      modifies stk
      ensures stk[sp..] == old(stk[sp..][1..][..n]) + [info] + old(stk[sp..][1..][n..])
    {
      ghost var a := stk[..];
      MoveDown(n);
      stk[sp + n] := info;
      MovedDown(a, stk[..], sp, n, info);
    }

    /** Its loop: the `n` words above the top go down by one, the first one first. */
    method MoveDown(n: nat)
      requires Valid() && sp + n < stk.Length
      modifies stk
      ensures forall j | sp <= j < sp + n :: stk[j] == old(stk[j + 1])
      ensures forall j | sp + n <= j < stk.Length :: stk[j] == old(stk[j])
    {
      for i := 0 to n
        invariant forall j | sp <= j < sp + i :: stk[j] == old(stk[j + 1])
        invariant forall j | sp + i <= j < stk.Length :: stk[j] == old(stk[j])
      {
        stk[sp + i] := stk[sp + 1 + i];
      }
    }

    lemma MovedDown(a: seq<Word>, b: seq<Word>, lo: nat, n: nat, info: Word)
      requires |a| == |b| && lo + n < |a| && b[lo + n] == info
      requires forall j | lo <= j < lo + n :: b[j] == a[j + 1]
      requires forall j | lo + n < j < |a| :: b[j] == a[j]
      ensures b[lo..] == a[lo..][1..][..n] + [info] + a[lo..][1..][n..]
    {
      assert b[lo..lo + n] == a[lo + 1..lo + 1 + n];
      assert b[lo + n + 1..] == a[lo + n + 1..];
      assert b[lo..] == b[lo..lo + n] + [info] + b[lo + n + 1..];
    }

    /** Memory while `n` words from `lo` move up by `gap`: all but the first `k` have moved. */
    ghost function Raised(a: seq<Word>, lo: nat, k: nat, n: nat, gap: nat): seq<Word>
      requires k <= n && lo + n + gap <= |a|
    {
      a[..lo + k + gap] + a[lo + k..lo + n] + a[lo + n + gap..]
    }

    lemma RaisedOneMore(a: seq<Word>, lo: nat, k: nat, n: nat, gap: nat)
      requires 0 < k <= n && lo + n + gap <= |a|
      ensures |Raised(a, lo, k, n, gap)| == |a|
      ensures Raised(a, lo, k - 1, n, gap) == Raised(a, lo, k, n, gap)[lo + k - 1 + gap := Raised(a, lo, k, n, gap)[lo + k - 1]]
    {
      assert Raised(a, lo, k, n, gap)[lo + k - 1] == a[lo + k - 1];
    }

    lemma RaisedStack(a: seq<Word>, lo: nat, n: nat, gap: nat)
      requires lo + n + gap <= |a|
      ensures Raised(a, lo, n, n, gap) == a
      ensures Raised(a, lo, 0, n, gap)[lo + gap..] == a[lo..][..n] + a[lo..][n + gap..]
    {
    }

    /** SLIDE: drop `gap` words from under the top `n`, which move up, the last one first. */
    method Slide(n: nat, gap: nat)
      requires Valid() && sp + n + gap <= stk.Length
      modifies this, stk
      ensures Valid() && stk[sp..] == old(stk[sp..][..n] + stk[sp..][n + gap..]) && heap == old(heap) && hp == old(hp)
    {
      hide Raised;
      ghost var a := stk[..];
      RaisedStack(a, sp, n, gap);
      var k := n;
      while k > 0
        invariant 0 <= k <= n && sp == old(sp) && Valid() && heap == old(heap) && hp == old(hp)
        invariant stk[..] == Raised(a, sp, k, n, gap)
      {
        RaisedOneMore(a, sp, k, n, gap);
        k := k - 1;
        stk[sp + k + gap] := stk[sp + k];
      }
      assert a[sp..] == old(stk[sp..]);
      sp := sp + gap;
      assert stk[..][sp..] == stk[sp..];
    }

    // -------------------------------------------------------------------------------------
    // The labels of the interpreter
    // -------------------------------------------------------------------------------------

    /** Entry to the interpreter: cases 1 to 3. */
    method Enter() returns (mode: Mode)
      requires Valid() && Resume(stk[sp..], heap, hp).Some?
      modifies this
      ensures Valid() && Resume(old(stk[sp..]), old(heap), old(hp)) == Some(M(mode))
    {
      ghost var s := stk[sp..];
      if stk[sp] == EnterInfo {
        mode := Eval(stk[sp + 1]);
        sp := sp + 2;
      } else if stk[sp] == ApplyInterp {
        mode := RunFun(stk[sp + 1].p);
        sp := sp + 2;
      } else {
        mode := ReturnUnboxed;
      }
      assert stk[sp..] == if mode.ReturnUnboxed? then s else s[2..];
    }

    /** eval_obj */
    method EvalObj(w: Word) returns (o: Outcome)
      requires Valid() && 2 <= sp && Step(M(Eval(w))).Some?
      modifies this, stk
      ensures Valid() && Did(old(M(Eval(w))), o)
      ensures o.Goto? ==> Passes(old(M(Eval(w))), Capacity())
    {
      match heap[w.p]
      case Ind(target) => o := Goto(Eval(target));
      case Ap(fun, payload) =>
        if sp < spLim + |payload| + UPDATE_FRAME_SIZE {
          PushPair(EnterInfo, w);
          o := Interrupted;
        } else {
          ghost var s := stk[sp..];
          PushPair(UpdInfo, Untag(w));
          Unpack(payload);
          Regroup(payload, [UpdInfo, Untag(w)], s);
          o := Goto(RunFun(fun.p));
        }
      case Unknown =>
        PushPair(EnterInfo, w);
        o := Goto(Yielded);
      case _ => o := Goto(Return(w));
    }

    /** The stack of the case with too many arguments: a smaller frame is left for the surplus. */
    ghost function SurplusStack(s: seq<Word>, arity: nat, k: nat, payload: seq<Word>): seq<Word>
      requires arity <= k < |s|
    {
      (payload + s[1..1 + k][..arity]) + ([ApplyInfo(ApP(k - arity))] + s[1..1 + k][arity..] + s[1 + k..])
    }

    /** The same, as the shuffle leaves it. */
    lemma Surplus(s: seq<Word>, arity: nat, k: nat, payload: seq<Word>)
      requires arity <= k < |s|
      ensures payload + (s[1..][..arity] + [ApplyInfo(ApP(k - arity))] + s[1..][arity..]) == SurplusStack(s, arity, k, payload)
    {
      assert s[1..][..arity] == s[1..1 + k][..arity];
      assert s[1..][arity..] == s[1..1 + k][arity..] + s[1 + k..];
    }

    /** arity < n: shuffle the arguments for this function down, put the apply frame for the rest
        in the gap, and unpack the payload. */
    method ApplySurplus(arity: nat, payload: seq<Word>, ghost s: seq<Word>)
      requires Valid() && |payload| <= sp && s == stk[sp..] && s != [] && s[0].ApplyInfo?
      requires 0 < arity < Args(s[0].ap) == ArgWords(s[0].ap) < |s|
      modifies this, stk
      ensures Valid() && heap == old(heap) && hp == old(hp)
      ensures stk[sp..] == SurplusStack(s, arity, Args(s[0].ap), payload)
    {
      hide SurplusStack, Args, ArgWords;
      assert stk[sp] == s[0];
      var n := Args(stk[sp].ap);
      Surplus(s, arity, n, payload);
      Shuffle(arity, ApplyInfo(ApP(n - arity)));
      Unpack(payload);
    }

    /** arity == n: drop the apply frame and unpack the payload. */
    method ApplyExact(m: nat, payload: seq<Word>, ghost s: seq<Word>)
      requires Valid() && |payload| <= sp && s == stk[sp..] && m < |s|
      modifies this, stk
      ensures Valid() && heap == old(heap) && hp == old(hp)
      ensures stk[sp..] == payload + s[1..1 + m] + s[1 + m..]
    {
      sp := sp + 1;
      assert stk[sp..] == s[1..1 + m] + s[1 + m..];
      Unpack(payload);
      Regroup(payload, s[1..1 + m], s[1 + m..]);
    }

    /** arity > n: build a new PAP. */
    method ApplyTooFew(bco: Word, lacks: nat, m: nat, payload: seq<Word>, ghost s: seq<Word>) returns (pap: Word)
      requires Valid() && s == stk[sp..] && m < |s|
      modifies this
      ensures Valid() && pap == Ptr(old(hp), 0) && hp == old(hp) + 1 && stk[sp..] == s[1 + m..]
      ensures heap == old(heap)[old(hp) := Pap(lacks, bco, payload + s[1..1 + m])]
    {
      sp := sp + 1;
      var args := Payload(m);
      assert args == s[1..1 + m];
      heap, pap := heap[hp := Pap(lacks, bco, payload + args)], Ptr(hp, 0);
      hp, sp := hp + 1, sp + m;
    }

    /** The three arity cases of `do_apply` for a BCO with some payload. */
    method Apply(bco: Word, arity: nat, payload: seq<Word>, ghost m0: Machine) returns (mode: Mode)
      requires Valid() && |payload| <= sp && bco.Ptr? && arity > 0
      requires m0 == M(m0.mode)
      requires m0.stack != [] && m0.stack[0].ApplyInfo? && ArgWords(m0.stack[0].ap) < |m0.stack|
      modifies this, stk
      ensures Valid() && ApplyBco(m0, bco, arity, payload) == M(mode)
    {
      hide ApplyBco, Args, ArgWords, SurplusStack;
      assert stk[sp] == m0.stack[0];
      var n, m := Args(stk[sp].ap), ArgWords(stk[sp].ap);
      mode := RunFun(bco.p);
      if arity < n {
        AppliedSurplus(m0, bco, arity, payload);
        ApplySurplus(arity, payload, m0.stack);
      } else if arity == n {
        AppliedExact(m0, bco, payload);
        ApplyExact(m, payload, m0.stack);
      } else {
        AppliedTooFew(m0, bco, arity, payload);
        var pap := ApplyTooFew(bco, arity - n, m, payload, m0.stack);
        mode := Return(pap);
      }
    }

    lemma AppliedSurplus(m: Machine, bco: Word, arity: nat, payload: seq<Word>)
      requires m.stack != [] && m.stack[0].ApplyInfo? && ArgWords(m.stack[0].ap) < |m.stack|
      requires bco.Ptr? && 0 < arity < Args(m.stack[0].ap)
      ensures ArgWords(m.stack[0].ap) == Args(m.stack[0].ap)
      ensures ApplyBco(m, bco, arity, payload) ==
              m.(mode := RunFun(bco.p), stack := SurplusStack(m.stack, arity, Args(m.stack[0].ap), payload))
    {
    }

    lemma AppliedExact(m: Machine, bco: Word, payload: seq<Word>)
      requires m.stack != [] && m.stack[0].ApplyInfo? && ArgWords(m.stack[0].ap) < |m.stack| && bco.Ptr?
      ensures var s, k := m.stack, ArgWords(m.stack[0].ap);
        ApplyBco(m, bco, Args(m.stack[0].ap), payload) ==
        m.(mode := RunFun(bco.p), stack := payload + s[1..1 + k] + s[1 + k..])
    {
    }

    lemma AppliedTooFew(m: Machine, bco: Word, arity: nat, payload: seq<Word>)
      requires m.stack != [] && m.stack[0].ApplyInfo? && ArgWords(m.stack[0].ap) < |m.stack|
      requires bco.Ptr? && Args(m.stack[0].ap) < arity
      ensures var s, k := m.stack, ArgWords(m.stack[0].ap);
        ApplyBco(m, bco, arity, payload) ==
        m.(mode := Return(Ptr(m.hp, 0)), stack := s[1 + k..], hp := m.hp + 1,
           heap := m.heap[m.hp := Pap(arity - Args(m.stack[0].ap), bco, payload + s[1..1 + k])])
    {
    }

    /** do_return, including do_apply */
    method DoReturn(w: Word) returns (o: Outcome)
      requires Valid() && 2 <= sp && Step(M(Return(w))).Some?
      requires heap[w.p].Pap? ==> heap[w.p].arity > 0
      requires heap[w.p].Bco? ==> heap[w.p].arity > 0
      modifies this, stk
      ensures Valid() && Did(old(M(Return(w))), o)
      ensures o.Goto? ==> Passes(old(M(Return(w))), Capacity())
    {
      match stk[sp]
      case ApplyInfo(_) => o := DoApply(w);
      case UpdInfo =>
        heap := heap[stk[sp + 1].p := Ind(w)];
        sp := sp + UPDATE_FRAME_SIZE;
        o := Goto(Return(w));
      case CtoiInfo(_) =>
        var bco := stk[sp + 1];
        Push(Untag(w));
        o := Goto(RunRet(bco.p));
      case _ =>
        PushPair(EnterInfo, w);
        o := Goto(Yielded);
    }

    method DoApply(w: Word) returns (o: Outcome)
      requires Valid() && 2 <= sp && Step(M(Return(w))).Some? && stk[sp].ApplyInfo?
      requires heap[w.p].Pap? ==> heap[w.p].arity > 0
      requires heap[w.p].Bco? ==> heap[w.p].arity > 0
      modifies this, stk
      ensures Valid() && Did(old(M(Return(w))), o)
      ensures o.Goto? ==> Passes(old(M(Return(w))), Capacity())
    {
      hide ApplyBco;
      if heap[w.p].Pap? && IsBco(heap[w.p].fun, heap) {
        var pap := heap[w.p];
        if sp < spLim + |pap.payload| + 1 {
          PushPair(EnterInfo, w);
          o := Interrupted;
        } else {
          var mode := Apply(pap.fun, pap.arity, pap.payload, M(Return(w)));
          o := Goto(mode);
        }
      } else if heap[w.p].Bco? {
        var mode := Apply(Untag(w), heap[w.p].arity, [], M(Return(w)));
        o := Goto(mode);
      } else {
        PushPair(EnterInfo, w);
        o := Goto(Yielded);
      }
    }

    /** do_return_unboxed */
    method DoReturnUnboxed() returns (o: Outcome)
      requires Valid() && Step(M(ReturnUnboxed)).Some?
      ensures Did(M(ReturnUnboxed), o)
    {
      var offset := GcRetSize(stk[sp].rep);
      if stk[sp + offset].CtoiInfo? {
        o := Goto(RunRetUnboxed(stk[sp + offset + 1].p));
      } else {
        o := Goto(Yielded);
      }
    }

    /** run_BCO_return, run_BCO_return_unboxed and run_BCO_fun: the heap check, and for a function
        the stack check, before the BCO starts. */
    method RunBcoReturn(b: nat, gcWanted: bool) returns (o: Outcome)
      requires Valid() && 2 <= sp
      modifies this, stk
      ensures Valid() && Did(old(M(RunRet(b))), o)
    {
      if gcWanted {
        Push(EnterInfo);
        o := Interrupted;
      } else {
        o := Goto(Exec(b, 0));
      }
    }

    method RunBcoReturnUnboxed(b: nat, gcWanted: bool) returns (o: Outcome)
      requires Valid()
      ensures Did(M(RunRetUnboxed(b)), o)
    {
      o := if gcWanted then Interrupted else Goto(Exec(b, 0));
    }

    method RunBcoFun(b: nat, gcWanted: bool) returns (o: Outcome)
      requires Valid() && 2 <= sp
      modifies this, stk
      ensures Valid() && Did(old(M(RunFun(b))), o)
      ensures o.Goto? ==> Passes(old(M(RunFun(b))), Capacity())
    {
      if gcWanted || sp < spLim + INTERP_STACK_CHECK_THRESH {
        PushPair(ApplyInterp, Ptr(b, 0));
        o := Interrupted;
      } else {
        o := Goto(Exec(b, 0));
      }
    }

    // -------------------------------------------------------------------------------------
    // Instructions
    // -------------------------------------------------------------------------------------

    /** PUSH_L, PUSH_LL, PUSH_LLL */
    method ExecPushLocal(insn: Insn, ghost m: Machine)
      requires Valid() && Room(insn) <= sp && m.mode.Exec? && m == M(m.mode)
      requires CurrentInsn(m) == Some(insn) && Step(m).Some?
      requires insn.PUSH_L? || insn.PUSH_LL? || insn.PUSH_LLL?
      modifies this, stk
      ensures Valid() && Step(m) == Some(M(Exec(m.mode.bco, m.mode.pc + 1)))
    {
      match insn
      case PUSH_L(o1) => Unpack([stk[sp + o1]]);
      case PUSH_LL(o1, o2) => Unpack([stk[sp + o2], stk[sp + o1]]);
      case PUSH_LLL(o1, o2, o3) => Unpack([stk[sp + o3], stk[sp + o2], stk[sp + o1]]);
    }

    /** PUSH_G, PUSH_ALTS, PUSH_APPLY, PUSH_UBX, UNPACK, SLIDE */
    method ExecStack(insn: Insn, ghost m: Machine)
      requires Valid() && Room(insn) <= sp && m.mode.Exec? && m == M(m.mode)
      requires CurrentInsn(m) == Some(insn) && Step(m).Some?
      requires insn.PUSH_G? || insn.PUSH_ALTS? || insn.PUSH_APPLY? || insn.PUSH_UBX? || insn.UNPACK? || insn.SLIDE?
      modifies this, stk
      ensures Valid() && Step(m) == Some(M(Exec(m.mode.bco, m.mode.pc + 1)))
    {
      match insn
      case PUSH_G(w) => Push(w);
      case PUSH_ALTS(rep, alts) => PushPair(CtoiInfo(rep), alts);
      case PUSH_APPLY(a) => Push(ApplyInfo(a));
      case PUSH_UBX(lits) => Unpack(lits);
      case UNPACK(n) => Unpack(heap[stk[sp].p].args[..n]);
      case SLIDE(n, drop) => Slide(n, drop);
    }

    /** ALLOC_AP, ALLOC_PAP, PACK: allocate a closure and push it */
    method ExecAllocate(insn: Insn, ghost m: Machine)
      requires Valid() && Room(insn) <= sp && m.mode.Exec? && m == M(m.mode)
      requires CurrentInsn(m) == Some(insn) && Step(m).Some?
      requires insn.ALLOC_AP? || insn.ALLOC_PAP? || insn.PACK?
      modifies this, stk
      ensures Valid() && Step(m) == Some(M(Exec(m.mode.bco, m.mode.pc + 1)))
    {
      var o := Unknown;
      match insn {
        case ALLOC_AP(size) => o := Ap(Lit(0), seq(size, i => Lit(0)));
        case ALLOC_PAP(arity, size) => o := Pap(arity, Lit(0), seq(size, i => Lit(0)));
        case PACK(tag, n) =>
          var payload := Payload(n);
          o, sp := Con(tag, payload), sp + n;
          assert stk[sp..] == m.stack[n..];
      }
      heap, hp := heap[hp := o], hp + 1;
      Push(Ptr(hp - 1, 0));
    }

    /** What MKAP and MKPAP need and do. */
    lemma Filled(m: Machine, off: nat, size: nat)
      requires m.mode.Exec? && Step(m).Some?
      requires CurrentInsn(m) == Some(MKAP(off, size)) || CurrentInsn(m) == Some(MKPAP(off, size))
      ensures off < |m.stack| && size < |m.stack| && m.stack[off].Ptr? && m.stack[off].p in m.heap
      ensures var p, fun, args := m.stack[off].p, m.stack[0], m.stack[1..1 + size];
        && (m.heap[p].Ap? || m.heap[p].Pap?)
        && Step(m) == Some(m.(
             mode := Exec(m.mode.bco, m.mode.pc + 1), stack := m.stack[1 + size..],
             heap := m.heap[p := if m.heap[p].Ap? then Ap(fun, args) else Pap(m.heap[p].arity, fun, args)]))
    {
    }

    /** MKAP, MKPAP: fill in an allocated closure from the function and arguments on the stack */
    method ExecFill(off: nat, size: nat, ghost m: Machine)
      requires Valid() && m.mode.Exec? && m == M(m.mode) && Step(m).Some?
      requires CurrentInsn(m) == Some(MKAP(off, size)) || CurrentInsn(m) == Some(MKPAP(off, size))
      modifies this, stk
      ensures Valid() && Step(m) == Some(M(Exec(m.mode.bco, m.mode.pc + 1)))
    {
      hide Step, CurrentInsn;
      Filled(m, off, size);
      var p, fun := stk[sp + off].p, stk[sp];
      assert fun == m.stack[0] && stk[sp + off] == m.stack[off];
      sp := sp + 1;
      assert stk[sp..] == m.stack[1..];
      var payload := Payload(size);
      assert payload == m.stack[1..1 + size];
      heap := heap[p := if heap[p].Ap? then Ap(fun, payload) else Pap(heap[p].arity, fun, payload)];
      sp := sp + size;
      assert stk[sp..] == m.stack[1 + size..];
    }

    /** TESTLT_P, TESTEQ_P, TESTLT_I, TESTEQ_I, JMP */
    method ExecBranch(insn: Insn, b: nat, pc: nat) returns (mode: Mode)
      requires Valid() && CurrentInsn(M(Exec(b, pc))) == Some(insn) && Step(M(Exec(b, pc))).Some?
      requires insn.TESTLT_P? || insn.TESTEQ_P? || insn.TESTLT_I? || insn.TESTEQ_I? || insn.JMP?
      ensures Step(M(Exec(b, pc))) == Some(M(mode))
    {
      var next := pc + 1;
      match insn {
        case TESTLT_P(discr, failto) => if heap[stk[sp].p].tag >= discr { next := failto; }
        case TESTEQ_P(discr, failto) => if heap[stk[sp].p].tag != discr { next := failto; }
        case TESTLT_I(lit, failto) => if stk[sp + 1].n >= lit { next := failto; }
        case TESTEQ_I(lit, failto) => if stk[sp + 1].n != lit { next := failto; }
        case JMP(target) => next := target;
      }
      mode := Exec(b, next);
    }

    /** STKCHECK, ENTER, RETURN, RETURN_UNBOXED: the instructions at which control may leave the
        BCO.  `switchWanted` is the context-switch flag. */
    method ExecLeave(insn: Insn, b: nat, pc: nat, switchWanted: bool, ghost m: Machine) returns (o: Outcome)
      requires Valid() && Room(insn) <= sp && m == M(Exec(b, pc))
      requires CurrentInsn(m) == Some(insn) && Step(m).Some?
      requires insn.STKCHECK? || insn.ENTER? || insn.RETURN? || insn.RETURN_UNBOXED?
      modifies this, stk
      ensures Valid() && Did(m, o)
      ensures o.Goto? ==> Passes(m, Capacity())
    {
      match insn
      case STKCHECK(words) =>
        if sp < spLim + words + 1 {
          PushPair(ApplyInterp, Ptr(b, 0));
          o := Interrupted;
        } else {
          o := Goto(Exec(b, pc + 1));
        }
      case ENTER =>
        if switchWanted {
          Push(EnterInfo);
          o := Interrupted;
        } else {
          o := Goto(Eval(stk[sp]));
          sp := sp + 1;
        }
      case RETURN =>
        o := Goto(Return(stk[sp]));
        sp := sp + 1;
      case RETURN_UNBOXED(rep) =>
        Push(GcRet(rep));
        o := Goto(ReturnUnboxed);
    }

    /** nextInsn */
    method NextInsn(b: nat, pc: nat, switchWanted: bool) returns (o: Outcome)
      requires Valid() && Step(M(Exec(b, pc))).Some? && Room(CurrentInsn(M(Exec(b, pc))).value) <= sp
      modifies this, stk
      ensures Valid() && Did(old(M(Exec(b, pc))), o)
      ensures o.Goto? ==> Passes(old(M(Exec(b, pc))), Capacity())
    {
      ghost var m := M(Exec(b, pc));
      var insn := heap[b].code[pc];
      if insn.STKCHECK? || insn.ENTER? || insn.RETURN? || insn.RETURN_UNBOXED? {
        o := ExecLeave(insn, b, pc, switchWanted, m);
      } else if insn.TESTLT_P? || insn.TESTEQ_P? || insn.TESTLT_I? || insn.TESTEQ_I? || insn.JMP? {
        var mode := ExecBranch(insn, b, pc);
        o := Goto(mode);
      } else {
        if insn.MKAP? || insn.MKPAP? {
          ExecFill(insn.stkoff, insn.size, m);
        } else if insn.ALLOC_AP? || insn.ALLOC_PAP? || insn.PACK? {
          ExecAllocate(insn, m);
        } else if insn.PUSH_L? || insn.PUSH_LL? || insn.PUSH_LLL? {
          ExecPushLocal(insn, m);
        } else {
          ExecStack(insn, m);
        }
        o := Goto(Exec(b, pc + 1));
      }
    }

    // -------------------------------------------------------------------------------------
    // The interpreter as a whole
    // -------------------------------------------------------------------------------------

    /** The code at a label; `wanted` says whether the heap check or the context switch flag asks for
        an interruption, where the label looks at one. */
    method Label(mode: Mode, wanted: bool) returns (o: Outcome)
      requires Valid() && !mode.Yielded? && Promised(M(mode), Capacity())
      modifies this, stk
      ensures Valid() && Did(old(M(mode)), o)
      ensures o.Goto? ==> Passes(old(M(mode)), Capacity())
    {
      hide Step, Bail, Resume;
      PromisedMeans(M(mode), Capacity());
      match mode
      case Eval(w) => o := EvalObj(w);
      case Return(w) => o := DoReturn(w);
      case ReturnUnboxed => o := DoReturnUnboxed();
      case RunFun(b) => o := RunBcoFun(b, wanted);
      case RunRet(b) => o := RunBcoReturn(b, wanted);
      case RunRetUnboxed(b) => o := RunBcoReturnUnboxed(b, wanted);
      case Exec(b, pc) => o := NextInsn(b, pc, wanted);
    }

    /** interpretBCO(): from one of the three entries until control leaves it. The run so far of the
        thread, which began with configuration `start`, goes on. `wanted` says for each label passed
        whether an interruption is asked for there, and where it ends the method stops counting. */
    method Interpret(wanted: seq<bool>, ghost start: Machine, ghost past: seq<Machine>)
      returns (e: Exit, ghost run: seq<Machine>)
      requires Valid() && Resume(stk[sp..], heap, hp).Some? && Compiled(start, Capacity())
      requires var run := past + [Resume(stk[sp..], heap, hp).value]; run[0] == start && Chain(run, Capacity())
      modifies this, stk
      ensures Valid() && run != [] && run[0] == start && Chain(run, Capacity())
      ensures match e
        case Finished => run[|run| - 1] == M(Yielded)
        case Left =>
          && Bail(run[|run| - 1]) == Some(stk[sp..])
          && heap == run[|run| - 1].heap && hp == run[|run| - 1].hp
        case Unfinished(mode) => run[|run| - 1] == M(mode)
    {
      hide Step, Bail, Resume, Passes, Promised, Compiled;
      run := past + [Resume(stk[sp..], heap, hp).value];
      var mode := Enter();
      for k := 0 to |wanted|
        invariant Valid() && run != [] && run[0] == start && Chain(run, Capacity()) && run[|run| - 1] == M(mode)
      {
        if mode == Yielded {
          return Finished, run;
        }
        IsPromised(start, run, Capacity());
        ghost var m := M(mode);
        var o := Label(mode, wanted[k]);
        if o == Outcome.Interrupted {
          return Left, run;
        }
        ChainGrows(run, M(o.mode), Capacity());
        mode := o.mode;
        run := run + [M(mode)];
      }
      e := if mode == Yielded then Finished else Unfinished(mode);
    }

    /** The scheduler calls the interpreter again whenever the thread was interrupted. If the thread
        gets to where machine code has to take over, the stack and the heap are there as if it had
        never been interrupted. */
    method RunThread(plan: seq<seq<bool>>) returns (done: bool, ghost n: nat)
      requires Valid() && Resume(stk[sp..], heap, hp).Some?
      requires Sane(Resume(stk[sp..], heap, hp).value) && Compiled(Resume(stk[sp..], heap, hp).value, Capacity())
      modifies this, stk
      ensures Valid() && (done ==> Reaches(old(Resume(stk[sp..], heap, hp).value), M(Yielded), n))
    {
      hide Step, Bail, Resume, Passes, Sane, Compiled;
      ghost var start := Resume(stk[sp..], heap, hp).value;
      ghost var past: seq<Machine> := [];
      n := 0;
      for i := 0 to |plan|
        invariant Valid() && Resume(stk[sp..], heap, hp).Some?
        invariant (past + [Resume(stk[sp..], heap, hp).value])[0] == start
        invariant Chain(past + [Resume(stk[sp..], heap, hp).value], Capacity())
      {
        var e;
        ghost var run;
        e, run := Interpret(plan[i], start, past);
        ChainIsRun(run, Capacity());
        match e {
          case Finished =>
            NoStepFromYielded(M(Yielded));
            n := InterruptionsInvisible(run);
            return true, n;
          case Unfinished(_) =>
            return false, n;
          case Left =>
            ghost var u, a, b := InterruptionsFollow(run);
            ghost var c := ResumeCatchesUp(run[|run| - 1]);
            ChainGrows(run, Resume(stk[sp..], heap, hp).value, Capacity());
            past := run;
        }
      }
      done := false;
    }
  }

  /** How a call of the interpreter ends: at machine code, at an interruption, or not yet. */
  datatype Exit = Finished | Left | Unfinished(mode: Mode)

  /** The configurations of a thread on a stack for `cap` words: each follows from the one before by a
      step, whose stack check passed, or by leaving the interpreter and entering it again. */
  ghost predicate Chain(run: seq<Machine>, cap: nat) {
    forall i | 0 < i < |run| :: Follows(run[i - 1], run[i], cap)
  }

  ghost predicate Follows(m: Machine, m': Machine, cap: nat) {
    (Step(m) == Some(m') && Passes(m, cap)) || BytecodeMachine.Interrupted(m, m')
  }

  /** What the compiler and the rest of the runtime system promise about a configuration: no assertion
      fails in it, the functions returned take arguments, and the words that the label may need are
      there, below the limit if need be. */
  ghost predicate Promised(m: Machine, cap: nat) {
    && (m.mode.Yielded? || Step(m).Some?)
    && |m.stack| + Words(m) <= cap + RESERVED_STACK_WORDS
    && (m.mode.Return? && Points(m.mode.obj, m.heap) ==>
          match m.heap[m.mode.obj.p]
          case Pap(arity, _, _) => arity > 0
          case Bco(arity, _) => arity > 0
          case _ => true)
  }

  function Words(m: Machine): nat {
    match CurrentInsn(m)
    case Some(insn) => Room(insn)
    case None => 2
  }

  lemma PromisedMeans(m: Machine, cap: nat)
    requires Promised(m, cap) && !m.mode.Yielded?
    ensures Step(m).Some?
    ensures m.mode.Exec? ==> CurrentInsn(m).Some? && |m.stack| + Room(CurrentInsn(m).value) <= cap + RESERVED_STACK_WORDS
    ensures !m.mode.Exec? ==> |m.stack| + 2 <= cap + RESERVED_STACK_WORDS
    ensures m.mode.Return? ==> Points(m.mode.obj, m.heap)
    ensures m.mode.Return? && m.heap[m.mode.obj.p].Pap? ==> m.heap[m.mode.obj.p].arity > 0
    ensures m.mode.Return? && m.heap[m.mode.obj.p].Bco? ==> m.heap[m.mode.obj.p].arity > 0
  {
  }

  /** It is promised for every configuration in which all stack checks on the way have passed. */
  ghost predicate Compiled(start: Machine, cap: nat) {
    forall run | run != [] && run[0] == start && Chain(run, cap) :: Promised(run[|run| - 1], cap)
  }

  /** The promise can be kept: a constructor is evaluated on an almost empty stack. */
  lemma SomethingIsCompiled()
    ensures exists start, cap :: Sane(start) && Compiled(start, cap)
  {
    var start := Machine(Eval(Ptr(0, 0)), [OtherInfo], map[0 := Con(0, [])], 1);
    forall run | run != [] && run[0] == start && Chain(run, 0) ensures Promised(run[|run| - 1], 0) {
      OnlyThree(start, run);
    }
    assert Sane(start) && Compiled(start, 0);
  }

  lemma {:induction false} OnlyThree(start: Machine, run: seq<Machine>)
    requires start == Machine(Eval(Ptr(0, 0)), [OtherInfo], map[0 := Con(0, [])], 1)
    requires run != [] && run[0] == start && Chain(run, 0)
    ensures var m := run[|run| - 1];
      m == start || m == start.(mode := Return(Ptr(0, 0))) || m == start.(mode := Yielded, stack := [EnterInfo, Ptr(0, 0), OtherInfo])
  {
    if |run| > 1 {
      var init := run[..|run| - 1];
      OnlyThree(start, init);
      assert Follows(init[|init| - 1], run[|run| - 1], 0);
      assert [EnterInfo, Ptr(0, 0)] + [OtherInfo] == [EnterInfo, Ptr(0, 0), OtherInfo];
    }
  }

  lemma IsPromised(start: Machine, run: seq<Machine>, cap: nat)
    requires Compiled(start, cap) && run != [] && run[0] == start && Chain(run, cap)
    ensures Promised(run[|run| - 1], cap)
  {
  }

  lemma ChainGrows(run: seq<Machine>, m: Machine, cap: nat)
    requires run != [] && Chain(run, cap) && Follows(run[|run| - 1], m, cap)
    ensures Chain(run + [m], cap) && (run + [m])[0] == run[0]
  {
    hide Follows;
  }

  lemma ChainIsRun(run: seq<Machine>, cap: nat)
    requires Chain(run, cap)
    ensures InterruptedRun(run)
  {
    hide Step, Passes, BytecodeMachine.Interrupted;
    forall i | 0 < i < |run| ensures Step(run[i - 1]) == Some(run[i]) || BytecodeMachine.Interrupted(run[i - 1], run[i]) {
      assert Follows(run[i - 1], run[i], cap);
    }
  }

  lemma NoStepFromYielded(m: Machine)
    requires m.mode.Yielded?
    ensures Step(m).None?
  {
  }
}
