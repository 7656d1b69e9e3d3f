/** finsh_compiler.c in place: the node table, the text segment and the two recursive walks. */
module FinshNodes {
  import opened Base
  import opened FinshLanguage
  import opened FinshVm
  import opened FinshCompiler

  /** A null child or sibling pointer. */
  const NULL := -1

  /** One struct finsh_node; child and sibling are positions in the node table. */
  datatype Cell = Cell(kind: Kind, dt: Width, isAddr: bool, value: u32, sym: Symbol, child: int, sibling: int)

  /** The cells reachable from i form the tree t. */
  ghost predicate Shape(s: seq<Cell>, i: int, t: Tree)
    decreases t
  {
    if t.Nil? then i == NULL
    else
      && 0 <= i < |s|
      && s[i] == Cell(t.kind, t.dt, t.isAddr, t.value, t.sym, s[i].child, s[i].sibling)
      && Shape(s, s[i].child, t.child)
      && Shape(s, s[i].sibling, t.sibling)
  }

  ghost function Cells(s: seq<Cell>, i: int, t: Tree): set<int>
    requires Shape(s, i, t)
    decreases t
  {
    if t.Nil? then {} else {i} + Cells(s, s[i].child, t.child) + Cells(s, s[i].sibling, t.sibling)
  }

  /** No cell is reachable twice. */
  ghost predicate Separate(s: seq<Cell>, i: int, t: Tree)
    requires Shape(s, i, t)
    decreases t
  {
    t.Node? ==>
      var (c, n) := (Cells(s, s[i].child, t.child), Cells(s, s[i].sibling, t.sibling));
      && i !in c && i !in n && c !! n
      && Separate(s, s[i].child, t.child)
      && Separate(s, s[i].sibling, t.sibling)
  }

  /** Cells outside a tree do not matter to it. */
  lemma {:induction false} Framed(s: seq<Cell>, s': seq<Cell>, i: int, t: Tree)
    requires Shape(s, i, t) && |s| == |s'|
    requires forall j <- Cells(s, i, t) :: 0 <= j < |s| && s'[j] == s[j]
    ensures Shape(s', i, t) && Cells(s', i, t) == Cells(s, i, t)
    ensures Separate(s, i, t) ==> Separate(s', i, t)
    decreases t
  {
    if t.Node? {
      Framed(s, s', s[i].child, t.child);
      Framed(s, s', s[i].sibling, t.sibling);
    }
  }

  lemma {:induction false} CellsInTable(s: seq<Cell>, i: int, t: Tree)
    requires Shape(s, i, t)
    ensures forall j <- Cells(s, i, t) :: 0 <= j < |s|
    decreases t
  {
    if t.Node? {
      CellsInTable(s, s[i].child, t.child);
      CellsInTable(s, s[i].sibling, t.sibling);
    }
  }

  /** s1 differs from s only in cells of the set. */
  ghost predicate OnlyIn(s: seq<Cell>, s1: seq<Cell>, cells: set<int>) {
    |s| == |s1| && forall j :: 0 <= j < |s| && j !in cells ==> s1[j] == s[j]
  }

  lemma Parts(s: seq<Cell>, i: int, t: Tree)
    requires t.Node? && Shape(s, i, t) && Separate(s, i, t)
    ensures Separate(s, s[i].child, t.child)
  {
  }

  lemma NothingToCheck(s: seq<Cell>, isAddr: bool)
    ensures TypeChecked(Nil, isAddr) == Nil && Rewrites(s, s, NULL, Nil, Nil)
  {
  }

  /** A walk turned the tree t at i into u without touching other cells. */
  ghost predicate Rewrites(s: seq<Cell>, s1: seq<Cell>, i: int, t: Tree, u: Tree)
    requires Shape(s, i, t)
  {
    && OnlyIn(s, s1, Cells(s, i, t))
    && Shape(s1, i, u) && Cells(s1, i, u) == Cells(s, i, t) && Separate(s1, i, u)
  }

  /** After the child was rewritten the siblings still stand as they were. */
  lemma SiblingKept(s: seq<Cell>, s1: seq<Cell>, i: int, t: Tree, child: Tree)
    requires t.Node? && Shape(s, i, t) && Separate(s, i, t)
    requires Rewrites(s, s1, s[i].child, t.child, child)
    ensures Shape(s1, s[i].sibling, t.sibling) && Separate(s1, s[i].sibling, t.sibling)
    ensures Cells(s1, s[i].sibling, t.sibling) == Cells(s, s[i].sibling, t.sibling)
    ensures s1[i] == s[i]
  {
    CellsInTable(s, s[i].sibling, t.sibling);
    Framed(s, s1, s[i].sibling, t.sibling);
  }

  /** The check of the siblings leaves the checked child alone. */
  lemma ChildKept(s: seq<Cell>, s1: seq<Cell>, s2: seq<Cell>, i: int, t: Tree, child: Tree, sibling: Tree)
    requires t.Node? && Shape(s, i, t) && Separate(s, i, t)
    requires Rewrites(s, s1, s[i].child, t.child, child)
    requires Shape(s1, s[i].sibling, t.sibling)
    requires Cells(s1, s[i].sibling, t.sibling) == Cells(s, s[i].sibling, t.sibling)
    requires Rewrites(s1, s2, s[i].sibling, t.sibling, sibling)
    ensures s2[i] == s[i] && Shape(s2, s[i].child, child)
  {
    CellsInTable(s1, s[i].child, child);
    Framed(s1, s2, s[i].child, child);
  }

  /** Rewriting child, siblings and then the node itself rewrites the whole tree. */
  lemma Rejoined(s: seq<Cell>, s1: seq<Cell>, s2: seq<Cell>, s3: seq<Cell>, i: int, t: Tree,
                 child: Tree, sibling: Tree, u: Tree)
    requires t.Node? && Shape(s, i, t) && Separate(s, i, t)
    requires Rewrites(s, s1, s[i].child, t.child, child)
    requires Shape(s1, s[i].sibling, t.sibling)
    requires Cells(s1, s[i].sibling, t.sibling) == Cells(s, s[i].sibling, t.sibling)
    requires Rewrites(s1, s2, s[i].sibling, t.sibling, sibling)
    requires u.Node? && u == t.(isAddr := u.isAddr, dt := u.dt, child := child, sibling := sibling)
    requires s3 == s2[i := s[i].(isAddr := u.isAddr, dt := u.dt)]
    ensures Rewrites(s, s3, i, t, u)
  {
    CellsInTable(s1, s[i].child, child);
    Framed(s1, s2, s[i].child, child);
    CellsInTable(s2, s[i].child, child);
    Framed(s2, s3, s[i].child, child);
    CellsInTable(s2, s[i].sibling, sibling);
    Framed(s2, s3, s[i].sibling, sibling);
  }

  class Compiler {
    /** global_node_table. */
    const nodes: array<Cell>
    /** text_segment. */
    const text: array<byte>
    /** finsh_compile_pc. */
    var pc: nat
    /** Whether finsh_error_set was called. */
    var error: bool

    constructor (nodes: array<Cell>)
      ensures this.nodes == nodes && fresh(text) && text.Length == TEXT_MAX
    {
      this.nodes := nodes;
      text := new byte[TEXT_MAX](_ => 0);
      pc, error := 0, false;
    }

    /** finsh_type_check: rewrites idtype and data_type of every node of the tree in place. */
    method TypeCheck(i: int, isAddr: bool, ghost t: Tree)
      requires Shape(nodes[..], i, t) && Separate(nodes[..], i, t)
      modifies nodes
      ensures Rewrites(old(nodes[..]), nodes[..], i, t, TypeChecked(t, isAddr))
      decreases t
    {
      hide LeafType, Cells, Separate, OnlyIn;
      if i == NULL {
        NothingToCheck(nodes[..], isAddr);
        return;
      }
      ghost var s := nodes[..];
      Parts(s, i, t);
      var c := nodes[i];
      if c.kind.KAssign? || c.kind.KPreInc? || c.kind.KPreDec? || c.kind.KGetAddr? {
        TypeCheck(c.child, true, t.child);
      } else if c.kind.KGetValue? && isAddr {
        TypeCheck(c.child, false, t.child);
      } else {
        TypeCheck(c.child, isAddr, t.child);
      }
      ghost var s1 := nodes[..];
      ghost var child := TypeChecked(t.child, ChildAddr(t.kind, isAddr));
      SiblingKept(s, s1, i, t, child);

      TypeCheck(c.sibling, false, t.sibling);
      ghost var s2 := nodes[..];
      ghost var sibling := TypeChecked(t.sibling, false);
      ChildKept(s, s1, s2, i, t, child, sibling);

      var addr := c.isAddr || (isAddr && !c.sym.SysCall?);
      var dt := if c.child != NULL then nodes[c.child].dt else LeafType(c.kind, c.sym, c.dt);
      nodes[i] := nodes[i].(isAddr := addr, dt := dt);
      assert nodes[..] == s2[i := c.(isAddr := addr, dt := dt)];
      Rejoined(s, s1, s2, nodes[..], i, t, child, sibling, TypeChecked(t, isAddr));
    }

    /** code was written at the old pc; the text beyond it is as before. */
    twostate predicate Appended(code: seq<byte>)
      reads this, text
    {
      && old(pc) <= pc <= text.Length
      && text[..pc] == old(text[..pc]) + code
      && forall k :: pc <= k < text.Length ==> text[k] == old(text[k])
    }

    /** finsh_code_byte. */
    method CodeByte(b: byte)
      requires pc < text.Length
      modifies this`pc, text
      ensures Appended([b])
    {
      text[pc] := b;
      pc := pc + 1;
    }

    /** finsh_code_dword. */
    method CodeDword(v: u32)
      requires pc + 4 <= text.Length
      modifies this`pc, text
      ensures Appended(Dword(v))
    {
      CodeByte(v % 256);
      CodeByte(v / 256 % 256);
      CodeByte(v / 0x1_0000 % 256);
      CodeByte(v / 0x100_0000);
    }

    /** The BYTE, WORD or DWORD form of an operation. */
    method CodeSized(first: byte, w: Width)
      requires first < 250 && pc + |Sized(first, w)| <= text.Length
      modifies this`pc, text
      ensures Appended(Sized(first, w))
    {
      if w != VOID {
        CodeByte(first + w - 1);
      }
    }

    /** A one-byte operation with a dword operand. */
    method CodeLoad(op: byte, v: u32)
      requires pc + 5 <= text.Length
      modifies this`pc, text
      ensures Appended([op] + Dword(v))
    {
      CodeByte(op);
      CodeDword(v);
    }

    /** FINSH_NODE_ID. */
    method CodeId(sym: Symbol, isAddr: bool)
      requires pc + |LoadId(sym, isAddr)| <= text.Length
      modifies this`pc, text
      ensures Appended(LoadId(sym, isAddr))
    {
      match sym
      case NoSymbol =>
      case SysCall(func) =>
        CodeLoad(OP_LD_DWORD, func);
      case _ =>
        if LoadWidth(sym.ty) != VOID {
          CodeLoad(if isAddr then OP_LD_DWORD else 0x25 + LoadWidth(sym.ty) - 1, sym.addr);
        }
    }

    /** Load the constant 1. */
    method CodeOne(w: Width)
      requires pc + |LoadOne(w)| <= text.Length
      modifies this`pc, text
      ensures Appended(LoadOne(w))
    {
      if w == BYTE {
        CodeByte(0x22);
        CodeByte(1);
      } else if w == WORD {
        CodeByte(0x23);
        CodeByte(1);
        CodeByte(0);
      } else {
        CodeLoad(OP_LD_DWORD, 1);
      }
    }

    /** Load the variable, add or subtract one, store it. */
    method CodeBump(w: Width, inc: bool, a: u32)
      requires w != VOID && pc + |Bump(w, inc, a)| <= text.Length
      modifies this`pc, text
      ensures Appended(Bump(w, inc, a))
    {
      hide LoadOne, Dword;
      CodeLoad(0x25 + w - 1, a);
      CodeOne(w);
      CodeSized(BinFirst(if inc then Add else Sub), w);
      CodeSized(0x28, w);
    }

    /** FINSH_NODE_SYS_ASSIGN: store, then load the value again. */
    method CodeAssign(i: int, ghost t: Tree)
      requires t.Node? && t.kind.KAssign? && Shape(nodes[..], i, t) && pc + |NodeCode(t).0| <= text.Length
      modifies this`pc, this`error, text
      ensures Appended(NodeCode(t).0) && error == (old(error) || NodeCode(t).1)
    {
      var child := nodes[i].child;
      if child != NULL && (nodes[child].kind.KId? || nodes[child].kind.KGetValue?) {
        CodeSized(0x28, nodes[child].dt);
        CodeSized(0x2D, nodes[child].dt);
        error := error || nodes[child].dt == VOID;
      }
    }

    /** The four forms of ++ and --. */
    method CodeStep(i: int, ghost t: Tree)
      requires t.Node? && Shape(nodes[..], i, t) && pc + |NodeCode(t).0| <= text.Length
      requires t.kind.KPreInc? || t.kind.KPreDec? || t.kind.KInc? || t.kind.KDec?
      modifies this`pc, text
      ensures Appended(NodeCode(t).0)
    {
      hide Dword, LoadOne, Bump;
      var c := nodes[i];
      if c.child != NULL && nodes[c.child].kind.KId? && nodes[c.child].sym.Var? && c.dt != VOID {
        var a := nodes[c.child].sym.addr;
        if c.kind.KPreInc? || c.kind.KPreDec? {
          CodeBump(c.dt, c.kind.KPreInc?, a);
          CodeByte(OP_LD_VALUE_DWORD_STACK);
        } else {
          CodeLoad(OP_LD_DWORD, a);
          CodeBump(c.dt, c.kind.KInc?, a);
          CodeByte(OP_POP);
        }
      }
    }

    /** What finsh_compile emits for the node itself. */
    method CodeNode(i: int, ghost t: Tree)
      requires t.Node? && Shape(nodes[..], i, t) && pc + |NodeCode(t).0| <= text.Length
      modifies this`pc, this`error, text
      ensures Appended(NodeCode(t).0) && error == (old(error) || NodeCode(t).1)
    {
      hide LoadId, Dword, Bump, BinFirst, Sized;
      var c := nodes[i];
      match c.kind
      case KId => CodeId(c.sym, c.isAddr);
      case KChar =>
        CodeByte(0x22);
        CodeByte(c.value % 256);
      case KInt | KLong | KString | KNull => CodeLoad(OP_LD_DWORD, c.value);
      case KBin(op) => CodeSized(BinFirst(op), c.dt);
      case KBitwise => CodeSized(0x19, c.dt);
      case KFunc =>
        var n := 0;
        if c.child != NULL {
          n := CountParameters(c.child, t.child);
        }
        CodeByte(0x2C);
        CodeByte(n % 256);
      case KAssign => CodeAssign(i, t);
      case KPreInc | KPreDec | KInc | KDec => CodeStep(i, t);
      case KSysNull => CodeDword(0);
      case KGetValue =>
        if !c.isAddr {
          CodeSized(0x2D, c.dt);
        }
      case KGetAddr =>
      case KUnknown | KCast => error := true;
    }

    /** The loop over the parameters of a call. */
    method CountParameters(callee: int, ghost t: Tree) returns (n: nat)
      requires t.Node? && Shape(nodes[..], callee, t)
      ensures n == Siblings(t.sibling)
    {
      n := 0;
      var i := nodes[callee].sibling;
      ghost var u := t.sibling;
      while i != NULL
        invariant Shape(nodes[..], i, u)
        invariant n + Siblings(u) == Siblings(t.sibling)
        decreases u
      {
        n := n + 1;
        i, u := nodes[i].sibling, u.sibling;
      }
    }

    /** finsh_compile: children first, then the node, then its siblings. */
    method Compile(i: int, ghost t: Tree)
      requires Shape(nodes[..], i, t) && pc + |Code(t)| <= text.Length
      modifies this`pc, this`error, text
      ensures Appended(Code(t)) && error == (old(error) || Errors(t))
      decreases t
    {
      hide NodeCode, Cells;
      if i != NULL {
        Compile(nodes[i].child, t.child);
        CodeNode(i, t);
        Compile(nodes[i].sibling, t.sibling);
        assert old(text[..pc]) + Code(t) == old(text[..pc]) + Code(t.child) + NodeCode(t).0 + Code(t.sibling);
      }
    }

    /** finsh_compiler_run: check every statement, clear the text, compile one by one. */
    method CompilerRun(root: int, ghost t: Tree)
      requires Shape(nodes[..], root, t) && Separate(nodes[..], root, t)
      requires nodes as object != text
      requires |ListCode(TypeChecked(t, false))| <= text.Length
      modifies this, nodes, text
      ensures pc == |ListCode(TypeChecked(t, false))|
      ensures text[..pc] == ListCode(TypeChecked(t, false))
      ensures forall k :: pc <= k < text.Length ==> text[k] == 0
      ensures error == (old(error) || ListErrors(TypeChecked(t, false)))
    {
      hide TypeChecked, Shape, Separate;
      TypeCheck(root, false, t);
      ghost var s := nodes[..];
      assert Rewrites(old(nodes[..]), s, root, t, TypeChecked(t, false));
      forall k | 0 <= k < text.Length {
        text[k] := 0;
      }
      assert nodes[..] == s;
      pc := 0;
      CompileStatements(root, TypeChecked(t, false));
    }

    /** The loop over the statements: each is cut from its siblings and compiled alone. */
    method CompileStatements(root: int, ghost t: Tree)
      requires pc == 0 && Shape(nodes[..], root, t) && Separate(nodes[..], root, t)
      requires nodes as object != text && |ListCode(t)| <= text.Length
      requires forall k :: 0 <= k < text.Length ==> text[k] == 0
      modifies this, nodes, text
      ensures pc == |ListCode(t)| && text[..pc] == ListCode(t)
      ensures forall k :: pc <= k < text.Length ==> text[k] == 0
      ensures error == (old(error) || ListErrors(t))
    {
      hide Code, Errors, NodeCode;
      var sibling := root;
      ghost var u := t;
      while sibling != NULL
        invariant Shape(nodes[..], sibling, u) && Separate(nodes[..], sibling, u)
        invariant pc + |ListCode(u)| == |ListCode(t)| && pc <= text.Length
        invariant text[..pc] + ListCode(u) == ListCode(t)
        invariant forall k :: pc <= k < text.Length ==> text[k] == 0
        invariant error || ListErrors(u) <==> old(error) || ListErrors(t)
        decreases u
      {
        var current := sibling;
        sibling := nodes[current].sibling;
        ghost var s := nodes[..];
        nodes[current] := nodes[current].(sibling := NULL);
        StatementCut(s, nodes[..], current, u);
        Compile(current, u.(sibling := Nil));
        if sibling != NULL {
          CodeByte(OP_POP);
        }
        ListCodeSplit(u);
        u := u.sibling;
      }
    }
  }

  /** Cutting the sibling link leaves the statement alone and the rest of the list intact. */
  lemma StatementCut(s: seq<Cell>, s1: seq<Cell>, i: int, t: Tree)
    requires t.Node? && Shape(s, i, t) && Separate(s, i, t)
    requires s1 == s[i := s[i].(sibling := NULL)]
    ensures Shape(s1, i, t.(sibling := Nil))
    ensures Shape(s1, s[i].sibling, t.sibling) && Separate(s1, s[i].sibling, t.sibling)
  {
    CellsInTable(s, s[i].child, t.child);
    CellsInTable(s, s[i].sibling, t.sibling);
    Framed(s, s1, s[i].child, t.child);
    Framed(s, s1, s[i].sibling, t.sibling);
  }

  lemma ListCodeSplit(t: Tree)
    requires t.Node?
    ensures ListCode(t) == Code(t.(sibling := Nil)) + (if t.sibling.Nil? then [] else [OP_POP]) + ListCode(t.sibling)
  {
    if t.sibling.Nil? {
      assert t.(sibling := Nil) == t;
    }
  }
}
