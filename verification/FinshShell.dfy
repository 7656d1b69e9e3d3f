/** finsh_run_line after parsing: compile the statement list, run it, report the stack bottom. */
module FinshShell {
  import opened Base
  import opened FinshLanguage
  import opened FinshVm
  import opened FinshCompiler
  import opened FinshNodes
  import opened FinshOverflow

  /** The node table holds the parsed list at root, with nothing shared. */
  ghost predicate Holds(s: seq<Cell>, root: int, es: seq<Expr>) {
    Shape(s, root, LowerList(es)) && Separate(s, root, LowerList(es))
  }

  /**
   * The whole pipeline computes what left-to-right evaluation of the source computes, or faults exactly
   * if that is undefined or a statement needs more than the stack.
   */
  method RunLine(c: Compiler, root: int, ghost es: seq<Expr>, mem: Memory)
    returns (value: Option<u32>, memory: Memory)
    requires |es| > 0 && forall e <- es :: e.Typed()
    requires Holds(c.nodes[..], root, es)
    requires c.text.Length == TEXT_MAX && |EmitList(es)| <= TEXT_MAX && c.nodes as object != c.text
    requires !c.error
    modifies c, c.nodes, c.text
    ensures !c.error
    ensures match Result(es, mem)
            case None => value == None
            case Some((v, m)) => value == Some(v) && memory == m
  {
    hide EmitList, Result, Run, ListCode, ListErrors, Emit, TypeChecked, Shape, Separate, Depth;
    LowerListFaithful(es);
    c.CompilerRun(root, LowerList(es));
    var machine := new Machine(c.text, mem);
    ghost var text := c.text[..];
    assert At(text, 0, EmitList(es)) by {
      assert text[0..|EmitList(es)|] == c.text[..c.pc];
    }
    assert text == machine.text[..];
    RunListExactly(text, State(0, [], mem), es);
    machine.VmRun();
    memory := machine.mem;
    if machine.fault {
      value := None;
    } else {
      assert machine.Now().stack == machine.stack[..machine.sp];
      value := Some(machine.stack[0]);
    }
  }
}
