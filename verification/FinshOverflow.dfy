/** The stack depth of an expression is exact: with one slot less its code runs past the stack. */
module FinshOverflow {
  import opened Base
  import opened FinshLanguage
  import opened FinshVm
  import opened FinshCompiler
  import opened FinshCorrect

  lemma LoadFaults(text: seq<byte>, s: State, op: byte, rest: seq<byte>)
    requires At(text, s.pc, [op] + rest) && (op == OP_LD_DWORD || op == OP_LD_VALUE_DWORD) && |s.stack| >= STACK_MAX
    ensures Run(text, s) == None
  {
    AtIndex(text, s.pc, [op] + rest, 0);
  }

  /** A load that has room, followed by code that has none. */
  lemma LoadThenFaults(text: seq<byte>, s: State, op: byte, a: u32, rest: seq<byte>)
    requires At(text, s.pc, ([op] + Dword(a)) + rest) && (op == OP_LD_DWORD || op == OP_LD_VALUE_DWORD)
    requires |s.stack| < STACK_MAX ==>
               forall v: u32 :: Run(text, State(s.pc + 5, s.stack + [v], s.mem)) == None
    ensures Run(text, s) == None
  {
    hide Run, Dword;
    AtSplit(text, s.pc, [op] + Dword(a), rest);
    if |s.stack| < STACK_MAX {
      RunLoad(text, s, op, a);
    } else {
      LoadFaults(text, s, op, Dword(a));
    }
  }

  /** Code that needs more slots than there are left faults, whatever it computes. */
  lemma {:induction false} Overflows(text: seq<byte>, s: State, e: Expr)
    requires e.Typed() && At(text, s.pc, Emit(e))
    requires |s.stack| + Depth(e) > STACK_MAX
    ensures Run(text, s) == None
    decreases Size(e), 0
  {
    hide Run, Alu, Dword;
    match e
    case Const(v) => LoadFaults(text, s, OP_LD_DWORD, Dword(v));
    case Load(x) => LoadFaults(text, s, OP_LD_VALUE_DWORD, Dword(x.addr));
    case AddrOf(x) => LoadFaults(text, s, OP_LD_DWORD, Dword(x.addr));
    case Deref(p) =>
      AtSplit(text, s.pc, Emit(p), [OP_LD_VALUE_DWORD_STACK]);
      Overflows(text, s, p);
    case Complement(e1) =>
      AtSplit(text, s.pc, Emit(e1), [OP_BITWISE_DWORD]);
      Overflows(text, s, e1);
    case Bin(op, l, r) => TwoOverflow(text, s, l, r, [BinCode(op)]);
    case Assign(x, e1) =>
      var c := [OP_ST_DWORD, OP_LD_VALUE_DWORD_STACK];
      AtSplit(text, s.pc, [OP_LD_DWORD] + Dword(x.addr), Emit(e1) + c);
      AtSplit(text, s.pc + 5, Emit(e1), c);
      forall v: u32 | |s.stack| < STACK_MAX ensures Run(text, State(s.pc + 5, s.stack + [v], s.mem)) == None {
        Overflows(text, State(s.pc + 5, s.stack + [v], s.mem), e1);
      }
      LoadThenFaults(text, s, OP_LD_DWORD, x.addr, Emit(e1) + c);
    case AssignDeref(p, e1) => TwoOverflow(text, s, p, e1, [OP_ST_DWORD, OP_LD_VALUE_DWORD_STACK]);
    case Pre(inc, x) =>
      var (b, d) := (EmitBump(inc, x.addr), [OP_LD_VALUE_DWORD_STACK]);
      AtSplit(text, s.pc, [OP_LD_DWORD] + Dword(x.addr), b + d);
      AtSplit(text, s.pc + 5, b, d);
      forall v: u32 | |s.stack| < STACK_MAX ensures Run(text, State(s.pc + 5, s.stack + [v], s.mem)) == None {
        BumpOverflows(text, State(s.pc + 5, s.stack + [v], s.mem), inc, x.addr);
      }
      LoadThenFaults(text, s, OP_LD_DWORD, x.addr, b + d);
    case Post(inc, x) => PostOverflows(text, s, inc, x);
  }

  lemma {:induction false} TwoOverflow(text: seq<byte>, s: State, l: Expr, r: Expr, rest: seq<byte>)
    requires l.Typed() && r.Typed() && At(text, s.pc, Emit(l) + (Emit(r) + rest))
    requires |s.stack| + Max(Depth(l), 1 + Depth(r)) > STACK_MAX
    ensures Run(text, s) == None
    decreases Size(l) + Size(r), 1
  {
    hide Run, Emit, Depth, Eval;
    AtSplit(text, s.pc, Emit(l), Emit(r) + rest);
    AtSplit(text, s.pc + |Emit(l)|, Emit(r), rest);
    if |s.stack| + Depth(l) > STACK_MAX {
      Overflows(text, s, l);
    } else {
      RunExpression(text, s, l);
      if Eval(l, s.mem).Some? {
        var (a, m1) := Eval(l, s.mem).value;
        Overflows(text, State(s.pc + |Emit(l)|, s.stack + [a], m1), r);
      }
    }
  }

  lemma BumpOverflows(text: seq<byte>, s: State, inc: bool, a: u32)
    requires At(text, s.pc, EmitBump(inc, a)) && |s.stack| + 2 > STACK_MAX
    ensures Run(text, s) == None
  {
    hide Run, Dword;
    var (c1, c2) := ([OP_LD_VALUE_DWORD] + Dword(a), [OP_LD_DWORD] + Dword(1));
    var c3 := [if inc then BinCode(Add) else BinCode(Sub), OP_ST_DWORD];
    assert EmitBump(inc, a) == c1 + (c2 + c3);
    AtSplit(text, s.pc, c1, c2 + c3);
    assert c2 + c3 == [OP_LD_DWORD] + (Dword(1) + c3);
    forall v: u32 | |s.stack| < STACK_MAX ensures Run(text, State(s.pc + 5, s.stack + [v], s.mem)) == None {
      LoadFaults(text, State(s.pc + 5, s.stack + [v], s.mem), OP_LD_DWORD, Dword(1) + c3);
    }
    LoadThenFaults(text, s, OP_LD_VALUE_DWORD, a, c2 + c3);
  }

  lemma PostOverflows(text: seq<byte>, s: State, inc: bool, x: Symbol)
    requires Post(inc, x).Typed() && At(text, s.pc, Emit(Post(inc, x))) && |s.stack| + 4 > STACK_MAX
    ensures Run(text, s) == None
  {
    hide Run, Dword, EmitBump;
    var (c0, c) := ([OP_LD_VALUE_DWORD] + Dword(x.addr), [OP_LD_DWORD] + Dword(x.addr));
    var (b, d) := (EmitBump(inc, x.addr), [OP_POP]);
    AtSplit(text, s.pc, c0, c + (b + d));
    AtSplit(text, s.pc + 5, c, b + d);
    AtSplit(text, s.pc + 10, b, d);
    forall v: u32 | |s.stack| < STACK_MAX ensures Run(text, State(s.pc + 5, s.stack + [v], s.mem)) == None {
      var s1 := State(s.pc + 5, s.stack + [v], s.mem);
      forall w: u32 | |s1.stack| < STACK_MAX ensures Run(text, State(s1.pc + 5, s1.stack + [w], s1.mem)) == None {
        BumpOverflows(text, State(s1.pc + 5, s1.stack + [w], s1.mem), inc, x.addr);
      }
      LoadThenFaults(text, s1, OP_LD_DWORD, x.addr, b + d);
    }
    LoadThenFaults(text, s, OP_LD_VALUE_DWORD, x.addr, c + (b + d));
  }

  /** Every statement of the list fits on the stack by itself. */
  predicate FitsStack(es: seq<Expr>) {
    forall e <- es :: Depth(e) <= STACK_MAX
  }

  /** What a line yields: the value and memory of left-to-right evaluation if the stack is deep enough. */
  ghost function Result(es: seq<Expr>, m: Memory): Option<(u32, Memory)>
    requires |es| > 0
  {
    if FitsStack(es) then EvalList(es, m) else None
  }

  /** A list runs to its value exactly if every statement fits on the stack and evaluation is defined. */
  lemma {:induction false} RunListExactly(text: seq<byte>, s: State, es: seq<Expr>)
    requires |es| > 0 && forall e <- es :: e.Typed()
    requires s.stack == [] && At(text, s.pc, EmitList(es))
    requires forall i :: s.pc + |EmitList(es)| <= i < |text| ==> text[i] == OP_NOOP
    ensures Run(text, s) == match Result(es, s.mem)
                            case None => None
                            case Some((v, m)) => Some(State(|text|, [v], m))
    decreases |es|
  {
    if FitsStack(es) {
      RunList(text, s, es);
    } else {
      ListOverflows(text, s, es);
    }
  }

  lemma {:induction false} ListOverflows(text: seq<byte>, s: State, es: seq<Expr>)
    requires |es| > 0 && (forall e <- es :: e.Typed()) && !FitsStack(es)
    requires s.stack == [] && At(text, s.pc, EmitList(es))
    ensures Run(text, s) == None
    decreases |es|
  {
    hide Run, Emit, Eval, Depth;
    var (e, rest) := (es[0], es[1..]);
    var c := Emit(e);
    if |es| > 1 {
      assert EmitList(es) == c + ([OP_POP] + EmitList(rest));
      AtSplit(text, s.pc, c, [OP_POP] + EmitList(rest));
      AtSplit(text, s.pc + |c|, [OP_POP], EmitList(rest));
    }
    if Depth(e) > STACK_MAX {
      Overflows(text, s, e);
    } else {
      RunExpression(text, s, e);
      if Eval(e, s.mem).Some? {
        var (v, m) := Eval(e, s.mem).value;
        RunPop(text, State(s.pc + |c|, s.stack + [v], m), [], v);
        ListOverflows(text, State(s.pc + |c| + 1, [], m), rest);
      }
    }
  }
}
