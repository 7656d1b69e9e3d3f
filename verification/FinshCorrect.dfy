/** Running compiled code is evaluating the source. */
module FinshCorrect {
  import opened Base
  import opened FinshLanguage
  import opened FinshVm
  import opened FinshCompiler

  /** What running on from s must give once e has been evaluated by code of length n at s.pc. */
  ghost function Continue(text: seq<byte>, s: State, e: Expr, n: nat): Option<State> {
    match Eval(e, s.mem)
    case None => None
    case Some((v, m)) => Run(text, State(s.pc + n, s.stack + [v], m))
  }

  function Size(e: Expr): (n: nat)
    ensures n >= 1
  {
    match e
    case Deref(p) => 1 + Size(p)
    case Complement(e) => 1 + Size(e)
    case Bin(_, l, r) => 1 + Size(l) + Size(r)
    case Assign(_, e) => 1 + Size(e)
    case AssignDeref(p, e) => 1 + Size(p) + Size(e)
    case _ => 1
  }

  lemma RunLoad(text: seq<byte>, s: State, op: byte, a: u32)
    requires At(text, s.pc, [op] + Dword(a)) && |s.stack| < STACK_MAX
    ensures op == OP_LD_DWORD ==> Run(text, s) == Run(text, State(s.pc + 5, s.stack + [a], s.mem))
    ensures op == OP_LD_VALUE_DWORD && a in s.mem ==>
              Run(text, s) == Run(text, State(s.pc + 5, s.stack + [s.mem[a]], s.mem))
    ensures op == OP_LD_VALUE_DWORD && a !in s.mem ==> Run(text, s) == None
  {
    AtIndex(text, s.pc, [op] + Dword(a), 0);
    AtSplit(text, s.pc, [op], Dword(a));
    DwordRoundTrip(text, s.pc + 1, a);
  }

  lemma RunOp(text: seq<byte>, s: State, op: byte)
    requires At(text, s.pc, [op])
    ensures Run(text, s) == match Step(text, s) case None => None case Some(s1) => Run(text, s1)
    ensures text[s.pc] == op
  {
    AtIndex(text, s.pc, [op], 0);
  }

  /** A binary operator consumes two values and leaves their result. */
  lemma RunBinary(text: seq<byte>, s: State, op: BinOp, base: seq<u32>, a: u32, b: u32)
    requires At(text, s.pc, [BinCode(op)])
    requires s.stack == base + [a, b]
    ensures Run(text, s) == match Alu(op, a, b)
                            case None => None
                            case Some(v) => Run(text, State(s.pc + 1, base + [v], s.mem))
  {
    hide Alu;
    RunOp(text, s, BinCode(op));
    assert s.stack[..|base|] == base;
    assert BinOfCode(BinCode(op)) == Some(op);
  }

  lemma AluBump(inc: bool, v: u32)
    ensures Alu(if inc then Add else Sub, v, 1) == Some(Bumped(inc, v))
  {
  }

  /** LD_VALUE_DWORD_STACK replaces the address on top by the value it points to. */
  lemma RunReload(text: seq<byte>, s: State, base: seq<u32>, a: u32)
    requires At(text, s.pc, [OP_LD_VALUE_DWORD_STACK])
    requires s.stack == base + [a]
    ensures Run(text, s) == match Fetch(s.mem, a)
                            case None => None
                            case Some(v) => Run(text, State(s.pc + 1, base + [v], s.mem))
  {
    RunOp(text, s, OP_LD_VALUE_DWORD_STACK);
    if a in s.mem {
      assert s.stack[|base| := s.mem[a]] == base + [s.mem[a]];
    }
  }

  /** ST_DWORD stores the value on top and leaves the address. */
  lemma RunSt(text: seq<byte>, s: State, base: seq<u32>, a: u32, v: u32)
    requires At(text, s.pc, [OP_ST_DWORD])
    requires s.stack == base + [a, v]
    ensures Run(text, s) == match Store(s.mem, a, v)
                            case None => None
                            case Some(m) => Run(text, State(s.pc + 1, base + [a], m))
  {
    RunOp(text, s, OP_ST_DWORD);
    assert s.stack[..|s.stack| - 1] == base + [a];
  }

  lemma RunPop(text: seq<byte>, s: State, base: seq<u32>, v: u32)
    requires At(text, s.pc, [OP_POP])
    requires s.stack == base + [v]
    ensures Run(text, s) == Run(text, State(s.pc + 1, base, s.mem))
  {
    RunOp(text, s, OP_POP);
    assert s.stack[..|s.stack| - 1] == base;
  }

  lemma RunNot(text: seq<byte>, s: State, base: seq<u32>, v: u32)
    requires At(text, s.pc, [OP_BITWISE_DWORD])
    requires s.stack == base + [v]
    ensures Run(text, s) == Run(text, State(s.pc + 1, base + [Flip(v)], s.mem))
  {
    RunOp(text, s, OP_BITWISE_DWORD);
    assert s.stack[|base| := Flip(v)] == base + [Flip(v)];
  }

  /** ST_DWORD then LD_VALUE_DWORD_STACK: store the value and leave it on the stack. */
  lemma RunStore(text: seq<byte>, s: State, base: seq<u32>, a: u32, v: u32)
    requires At(text, s.pc, [OP_ST_DWORD, OP_LD_VALUE_DWORD_STACK])
    requires s.stack == base + [a, v]
    ensures Run(text, s) == match Store(s.mem, a, v)
                            case None => None
                            case Some(m) => Run(text, State(s.pc + 2, base + [v], m))
  {
    hide Run, Alu, Dword;
    assert [OP_ST_DWORD, OP_LD_VALUE_DWORD_STACK] == [OP_ST_DWORD] + [OP_LD_VALUE_DWORD_STACK];
    AtSplit(text, s.pc, [OP_ST_DWORD], [OP_LD_VALUE_DWORD_STACK]);
    RunSt(text, s, base, a, v);
    if a in s.mem {
      var s1 := State(s.pc + 1, base + [a], s.mem[a := v]);
      RunReload(text, s1, base, a);
    }
  }

  /** The common part of ++ and --, with the address already on the stack. */
  lemma RunBump(text: seq<byte>, s: State, base: seq<u32>, inc: bool, a: u32)
    requires At(text, s.pc, EmitBump(inc, a))
    requires s.stack == base + [a] && |s.stack| + 2 <= STACK_MAX
    ensures Run(text, s) ==
            if a !in s.mem then None
            else
              Run(text, State(s.pc + 12, s.stack, s.mem[a := Bumped(inc, s.mem[a])]))
  {
    hide Run, Alu, Dword;
    var op := if inc then Add else Sub;
    var (c1, c2, c3) := ([OP_LD_VALUE_DWORD] + Dword(a), [OP_LD_DWORD] + Dword(1), [BinCode(op), OP_ST_DWORD]);
    assert EmitBump(inc, a) == c1 + (c2 + c3);
    AtSplit(text, s.pc, c1, c2 + c3);
    AtSplit(text, s.pc + 5, c2, c3);
    assert c3 == [BinCode(op)] + [OP_ST_DWORD];
    AtSplit(text, s.pc + 10, [BinCode(op)], [OP_ST_DWORD]);
    RunLoad(text, s, OP_LD_VALUE_DWORD, a);
    if a in s.mem {
      var x := s.mem[a];
      var s1 := State(s.pc + 5, s.stack + [x], s.mem);
      RunLoad(text, s1, OP_LD_DWORD, 1);
      var s2 := State(s.pc + 10, s1.stack + [1], s.mem);
      assert s2.stack == s.stack + [x, 1];
      RunBinary(text, s2, op, s.stack, x, 1);
      AluBump(inc, x);
      var w := Bumped(inc, x);
      var s3 := State(s.pc + 11, s.stack + [w], s.mem);
      assert s3.stack == base + [a, w];
      RunSt(text, s3, base, a, w);
    }
  }

  /** Compiled expressions: from any stack with room, at any place in the text segment. */
  lemma {:induction false} RunExpression(text: seq<byte>, s: State, e: Expr)
    requires e.Typed() && At(text, s.pc, Emit(e))
    requires |s.stack| + Depth(e) <= STACK_MAX
    ensures Run(text, s) == Continue(text, s, e, |Emit(e)|)
    decreases Size(e), 0
  {
    hide Run, Alu, Dword;
    match e
    case Const(v) => RunLoad(text, s, OP_LD_DWORD, v);
    case Load(x) => RunLoad(text, s, OP_LD_VALUE_DWORD, x.addr);
    case AddrOf(x) => RunLoad(text, s, OP_LD_DWORD, x.addr);
    case Deref(p) => RunUnary(text, s, p, OP_LD_VALUE_DWORD_STACK);
    case Complement(e1) => RunUnary(text, s, e1, OP_BITWISE_DWORD);
    case Bin(op, l, r) => RunBin(text, s, op, l, r);
    case Assign(x, e1) => RunAssign(text, s, x, e1);
    case AssignDeref(p, e1) => RunAssignDeref(text, s, p, e1);
    case Pre(inc, x) => RunPre(text, s, inc, x);
    case Post(inc, x) => RunPost(text, s, inc, x);
  }

  /** An operand followed by an operation on the top of the stack. */
  lemma {:induction false} RunUnary(text: seq<byte>, s: State, e: Expr, op: byte)
    requires e.Typed() && At(text, s.pc, Emit(e) + [op])
    requires op == OP_LD_VALUE_DWORD_STACK || op == OP_BITWISE_DWORD
    requires |s.stack| + Depth(e) <= STACK_MAX
    ensures Run(text, s) == Continue(text, s, if op == OP_BITWISE_DWORD then Complement(e) else Deref(e), |Emit(e)| + 1)
    decreases Size(e), 1
  {
    hide Run, Alu, Dword;
    AtSplit(text, s.pc, Emit(e), [op]);
    RunExpression(text, s, e);
    match Eval(e, s.mem)
    case None =>
    case Some((v, m)) =>
      var s1 := State(s.pc + |Emit(e)|, s.stack + [v], m);
      if op == OP_BITWISE_DWORD {
        RunNot(text, s1, s.stack, v);
      } else {
        RunReload(text, s1, s.stack, v);
      }
  }

  /** Two operands in a row: both values end up on the stack, left below right. */
  lemma {:induction false} RunTwo(text: seq<byte>, s: State, l: Expr, r: Expr, rest: seq<byte>)
    requires l.Typed() && r.Typed() && At(text, s.pc, Emit(l) + (Emit(r) + rest))
    requires |s.stack| + Max(Depth(l), 1 + Depth(r)) <= STACK_MAX
    ensures Run(text, s) == match Eval(l, s.mem)
                            case None => None
                            case Some((a, m1)) =>
                              (match Eval(r, m1)
                               case None => None
                               case Some((b, m2)) =>
                                 Run(text, State(s.pc + |Emit(l)| + |Emit(r)|, s.stack + [a, b], m2)))
    ensures At(text, s.pc + |Emit(l)| + |Emit(r)|, rest)
    decreases Size(l) + Size(r), 1
  {
    hide Run, Emit, Depth, Eval;
    AtSplit(text, s.pc, Emit(l), Emit(r) + rest);
    AtSplit(text, s.pc + |Emit(l)|, Emit(r), rest);
    RunExpression(text, s, l);
    match Eval(l, s.mem)
    case None =>
    case Some((a, m1)) =>
      var s1 := State(s.pc + |Emit(l)|, s.stack + [a], m1);
      RunExpression(text, s1, r);
      match Eval(r, m1) {
        case None =>
        case Some((b, m2)) =>
          assert s1.stack + [b] == s.stack + [a, b];
      }
  }

  lemma {:induction false} RunBin(text: seq<byte>, s: State, op: BinOp, l: Expr, r: Expr)
    requires Bin(op, l, r).Typed() && At(text, s.pc, Emit(Bin(op, l, r)))
    requires |s.stack| + Depth(Bin(op, l, r)) <= STACK_MAX
    ensures Run(text, s) == Continue(text, s, Bin(op, l, r), |Emit(Bin(op, l, r))|)
    decreases Size(l) + Size(r), 2
  {
    hide Run, Alu;
    RunTwo(text, s, l, r, [BinCode(op)]);
    match Eval(l, s.mem)
    case None =>
    case Some((a, m1)) =>
      match Eval(r, m1)
      case None =>
      case Some((b, m2)) =>
        RunBinary(text, State(s.pc + |Emit(l)| + |Emit(r)|, s.stack + [a, b], m2), op, s.stack, a, b);
  }

  lemma {:induction false} RunAssign(text: seq<byte>, s: State, x: Symbol, e: Expr)
    requires Assign(x, e).Typed() && At(text, s.pc, Emit(Assign(x, e)))
    requires |s.stack| + Depth(Assign(x, e)) <= STACK_MAX
    ensures Run(text, s) == Continue(text, s, Assign(x, e), |Emit(Assign(x, e))|)
    decreases Size(e), 2
  {
    hide Run, Dword;
    var c := [OP_ST_DWORD, OP_LD_VALUE_DWORD_STACK];
    AtSplit(text, s.pc, [OP_LD_DWORD] + Dword(x.addr), Emit(e) + c);
    AtSplit(text, s.pc + 5, Emit(e), c);
    RunLoad(text, s, OP_LD_DWORD, x.addr);
    var s1 := State(s.pc + 5, s.stack + [x.addr], s.mem);
    RunExpression(text, s1, e);
    match Eval(e, s.mem)
    case None =>
    case Some((v, m1)) =>
      var s2 := State(s1.pc + |Emit(e)|, s1.stack + [v], m1);
      assert s2.stack == s.stack + [x.addr, v];
      RunStore(text, s2, s.stack, x.addr, v);
  }

  lemma {:induction false} RunAssignDeref(text: seq<byte>, s: State, p: Expr, e: Expr)
    requires AssignDeref(p, e).Typed() && At(text, s.pc, Emit(AssignDeref(p, e)))
    requires |s.stack| + Depth(AssignDeref(p, e)) <= STACK_MAX
    ensures Run(text, s) == Continue(text, s, AssignDeref(p, e), |Emit(AssignDeref(p, e))|)
    decreases Size(p) + Size(e), 2
  {
    hide Run;
    RunTwo(text, s, p, e, [OP_ST_DWORD, OP_LD_VALUE_DWORD_STACK]);
    match Eval(p, s.mem)
    case None =>
    case Some((a, m1)) =>
      match Eval(e, m1)
      case None =>
      case Some((v, m2)) =>
        RunStore(text, State(s.pc + |Emit(p)| + |Emit(e)|, s.stack + [a, v], m2), s.stack, a, v);
  }

  lemma RunPre(text: seq<byte>, s: State, inc: bool, x: Symbol)
    requires Pre(inc, x).Typed() && At(text, s.pc, Emit(Pre(inc, x)))
    requires |s.stack| + 3 <= STACK_MAX
    ensures Run(text, s) == Continue(text, s, Pre(inc, x), |Emit(Pre(inc, x))|)
  {
    hide Run, Alu, Dword;
    var (c, b, d) := ([OP_LD_DWORD] + Dword(x.addr), EmitBump(inc, x.addr), [OP_LD_VALUE_DWORD_STACK]);
    AtSplit(text, s.pc, c, b + d);
    AtSplit(text, s.pc + 5, b, d);
    RunLoad(text, s, OP_LD_DWORD, x.addr);
    var s1 := State(s.pc + 5, s.stack + [x.addr], s.mem);
    RunBump(text, s1, s.stack, inc, x.addr);
    if x.addr in s.mem {
      var w := Bumped(inc, s.mem[x.addr]);
      var s2 := State(s1.pc + 12, s1.stack, s.mem[x.addr := w]);
      RunReload(text, s2, s.stack, x.addr);
    }
  }

  lemma RunPost(text: seq<byte>, s: State, inc: bool, x: Symbol)
    requires Post(inc, x).Typed() && At(text, s.pc, Emit(Post(inc, x)))
    requires |s.stack| + 4 <= STACK_MAX
    ensures Run(text, s) == Continue(text, s, Post(inc, x), |Emit(Post(inc, x))|)
  {
    hide Run, Alu, Dword;
    var (c0, c, b, d) :=
      ([OP_LD_VALUE_DWORD] + Dword(x.addr), [OP_LD_DWORD] + Dword(x.addr), EmitBump(inc, x.addr), [OP_POP]);
    AtSplit(text, s.pc, c0, c + (b + d));
    AtSplit(text, s.pc + 5, c, b + d);
    AtSplit(text, s.pc + 10, b, d);
    RunLoad(text, s, OP_LD_VALUE_DWORD, x.addr);
    if x.addr in s.mem {
      var v := s.mem[x.addr];
      var s1 := State(s.pc + 5, s.stack + [v], s.mem);
      RunLoad(text, s1, OP_LD_DWORD, x.addr);
      var s2 := State(s.pc + 10, s1.stack + [x.addr], s.mem);
      RunBump(text, s2, s1.stack, inc, x.addr);
      var w := Bumped(inc, v);
      var s3 := State(s2.pc + 12, s2.stack, s.mem[x.addr := w]);
      RunPop(text, s3, s1.stack, x.addr);
    }
  }

  /** finsh_vm_run on a compiled statement list in a zero-filled text segment. */
  lemma {:induction false} RunList(text: seq<byte>, s: State, es: seq<Expr>)
    requires |es| > 0 && forall e <- es :: e.Typed() && Depth(e) <= STACK_MAX
    requires s.stack == [] && At(text, s.pc, EmitList(es))
    requires forall i :: s.pc + |EmitList(es)| <= i < |text| ==> text[i] == OP_NOOP
    ensures Run(text, s) == match EvalList(es, s.mem)
                            case None => None
                            case Some((v, m)) => Some(State(|text|, [v], m))
    decreases |es|
  {
    hide Run, Emit, Eval, Depth;
    var (e, rest) := (es[0], es[1..]);
    var c := Emit(e);
    if |es| == 1 {
      RunExpression(text, s, e);
      match Eval(e, s.mem)
      case None =>
      case Some((v, m)) =>
        assert [] + [v] == [v];
        RunPadding(text, State(s.pc + |c|, [v], m));
    } else {
      assert EmitList(es) == c + ([OP_POP] + EmitList(rest));
      AtSplit(text, s.pc, c, [OP_POP] + EmitList(rest));
      AtSplit(text, s.pc + |c|, [OP_POP], EmitList(rest));
      RunExpression(text, s, e);
      match Eval(e, s.mem)
      case None =>
      case Some((v, m)) =>
        RunPop(text, State(s.pc + |c|, s.stack + [v], m), [], v);
        RunList(text, State(s.pc + |c| + 1, [], m), rest);
    }
  }
}
