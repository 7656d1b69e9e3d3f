/** finsh_compiler.c: the type check and the code generator over first-child, next-sibling trees. */
module FinshCompiler {
  import opened Base
  import opened FinshLanguage
  import opened FinshVm

  datatype Kind =
    | KUnknown | KId
    | KChar | KInt | KLong | KString | KNull
    | KBin(op: BinOp) | KBitwise
    | KFunc | KAssign | KCast
    | KPreInc | KPreDec | KInc | KDec
    | KGetValue | KGetAddr | KSysNull

  const VOID := 0
  const BYTE := 1
  const WORD := 2
  const DWORD := 3

  type Width = w: int | 0 <= w <= 3

  /** The nodes reachable from one node, as a value. */
  datatype Tree =
    | Nil
    | Node(kind: Kind, dt: Width, isAddr: bool, value: u32, sym: Symbol, child: Tree, sibling: Tree)

  /** The operand nodes the generator dereferences without a check are there. */
  predicate Parsed(t: Tree) {
    t.Node? ==>
      && Parsed(t.child)
      && Parsed(t.sibling)
      && ((t.kind.KFunc? || t.kind.KAssign? || IsStep(t.kind)) ==> t.child.Node?)
      && (IsStep(t.kind) && t.child.kind.KId? ==> t.child.sym.Var?)
  }

  predicate IsStep(k: Kind) {
    k.KPreInc? || k.KPreDec? || k.KInc? || k.KDec?
  }

  // ---- Type check ----

  /** The data type finsh_type_check gives an identifier or constant; dt when it sets none. */
  function LeafType(kind: Kind, sym: Symbol, dt: Width): Width {
    match kind
    case KId =>
      if sym.Var? || sym.SysVar? then
        (match sym.ty
         case Void => VOID
         case Char | UChar => BYTE
         case Short | UShort => WORD
         case Int | UInt | Long | ULong => DWORD
         case CharP | VoidP | ShortP | IntP | LongP => DWORD
         case Unknown => dt)
      else dt
    case KChar => BYTE
    case KInt | KLong | KString | KNull => DWORD
    case _ => dt
  }

  /** Which of address or value the children of a node are checked for. */
  function ChildAddr(kind: Kind, isAddr: bool): bool {
    if kind.KAssign? || kind.KPreInc? || kind.KPreDec? || kind.KGetAddr? then true
    else if kind.KGetValue? && isAddr then false
    else isAddr
  }

  /** The node itself after the check of its child. */
  function Checked(t: Tree, isAddr: bool, child: Tree, sibling: Tree): Tree
    requires t.Node?
  {
    t.(isAddr := t.isAddr || (isAddr && !t.sym.SysCall?),
       dt := if child.Node? then child.dt else LeafType(t.kind, t.sym, t.dt),
       child := child,
       sibling := sibling)
  }

  function TypeChecked(t: Tree, isAddr: bool): Tree {
    if t.Nil? then Nil
    else
      var child := TypeChecked(t.child, ChildAddr(t.kind, isAddr));
      var sibling := TypeChecked(t.sibling, false);
      Checked(t, isAddr, child, sibling)
  }

  // ---- Code generation ----

  /** The width of the load an identifier of this type gets; VOID when none is emitted. */
  function LoadWidth(ty: FinshType): Width {
    match ty
    case Char | UChar => BYTE
    case Short | UShort => WORD
    case Int | UInt | Long | ULong | CharP | ShortP | IntP | LongP => DWORD
    case Unknown | Void | VoidP => VOID
  }

  /** The BYTE, WORD and DWORD forms of an operation are consecutive. */
  function Sized(first: byte, w: Width): seq<byte>
    requires first < 250
  {
    if w == VOID then [] else [first + w - 1]
  }

  function LoadId(sym: Symbol, isAddr: bool): seq<byte> {
    match sym
    case NoSymbol => []
    case SysCall(func) => [OP_LD_DWORD] + Dword(func)
    case Var(ty, a) =>
      if LoadWidth(ty) == VOID then []
      else (if isAddr then [OP_LD_DWORD] else Sized(0x25, LoadWidth(ty))) + Dword(a)
    case SysVar(ty, a) =>
      if LoadWidth(ty) == VOID then []
      else (if isAddr then [OP_LD_DWORD] else Sized(0x25, LoadWidth(ty))) + Dword(a)
  }

  /** The opcode of the BYTE form of an operator. */
  function BinFirst(op: BinOp): (b: byte)
    ensures b < 250
  {
    match op
    case Add => 0x01
    case Sub => 0x04
    case Div => 0x07
    case Mod => 0x0A
    case Mul => 0x0D
    case And => 0x10
    case Or => 0x13
    case Xor => 0x16
    case Shl => 0x1C
    case Shr => 0x1F
  }

  /** The constant 1 in the given width. */
  function LoadOne(w: Width): seq<byte> {
    if w == BYTE then [0x22, 1]
    else if w == WORD then [0x23, 1, 0]
    else [OP_LD_DWORD] + Dword(1)
  }

  /** Load the variable, add or subtract one and store it: the common part of ++ and --. */
  function Bump(w: Width, inc: bool, a: u32): seq<byte>
    requires w != VOID
  {
    Sized(0x25, w) + Dword(a) + LoadOne(w) + Sized(BinFirst(if inc then Add else Sub), w) + Sized(0x28, w)
  }

  function StoreAndReload(w: Width): seq<byte> {
    Sized(0x28, w) + Sized(0x2D, w)
  }

  function Siblings(t: Tree): nat {
    if t.Nil? then 0 else 1 + Siblings(t.sibling)
  }

  /** The bytes emitted for one node after its children, and whether it is an error. */
  function NodeCode(t: Tree): (seq<byte>, bool)
    requires t.Node?
  {
    match t.kind
    case KId => (LoadId(t.sym, t.isAddr), false)
    case KChar => ([0x22, t.value % 256], false)
    case KInt | KLong => ([OP_LD_DWORD] + Dword(t.value), false)
    case KNull | KString => ([OP_LD_DWORD] + Dword(t.value), false)
    case KBin(op) => (Sized(BinFirst(op), t.dt), false)
    case KBitwise => (Sized(0x19, t.dt), false)
    case KFunc => ([0x2C, Parameters(t) % 256], false)
    case KAssign =>
      if t.child.Node? && (t.child.kind.KId? || t.child.kind.KGetValue?) then
        (StoreAndReload(t.child.dt), t.child.dt == VOID)
      else ([], false)
    case KPreInc | KPreDec =>
      if StepsVariable(t) then
        (Bump(t.dt, t.kind.KPreInc?, t.child.sym.addr) + [OP_LD_VALUE_DWORD_STACK], false)
      else ([], false)
    case KInc | KDec =>
      if StepsVariable(t) then
        ([OP_LD_DWORD] + Dword(t.child.sym.addr) + Bump(t.dt, t.kind.KInc?, t.child.sym.addr) + [OP_POP], false)
      else ([], false)
    case KSysNull => (Dword(0), false)
    case KGetValue => (if t.isAddr then [] else Sized(0x2D, t.dt), false)
    case KGetAddr => ([], false)
    case KUnknown | KCast => ([], true)
  }

  /** The number of actual parameters of a call: the siblings of its callee. */
  function Parameters(t: Tree): nat
    requires t.Node?
  {
    if t.child.Nil? then 0 else Siblings(t.child.sibling)
  }

  /** The operand of ++ or -- is a variable of a width that has code. */
  predicate StepsVariable(t: Tree)
    requires t.Node?
  {
    t.child.Node? && t.child.kind.KId? && t.child.sym.Var? && t.dt != VOID
  }

  /** finsh_compile: children, then the node, then its siblings. */
  function Code(t: Tree): seq<byte> {
    if t.Nil? then [] else Code(t.child) + NodeCode(t).0 + Code(t.sibling)
  }

  predicate Errors(t: Tree) {
    t.Node? && (Errors(t.child) || NodeCode(t).1 || Errors(t.sibling))
  }

  /** finsh_compiler_run on a statement list: each statement alone, a POP between two. */
  function ListCode(t: Tree): seq<byte> {
    if t.Nil? then []
    else if t.sibling.Nil? then Code(t)
    else Code(t.(sibling := Nil)) + [OP_POP] + ListCode(t.sibling)
  }

  predicate ListErrors(t: Tree) {
    t.Node? && (Errors(t.(sibling := Nil)) || ListErrors(t.sibling))
  }

  // ---- From source expressions to trees and code ----

  function Leaf(kind: Kind, v: u32, sym: Symbol, sibling: Tree): Tree {
    Node(kind, VOID, false, v, sym, Nil, sibling)
  }

  function Inner(kind: Kind, child: Tree, sibling: Tree): Tree {
    Node(kind, VOID, false, 0, NoSymbol, child, sibling)
  }

  /** The tree the parser builds: the first operand is the child, the second its sibling. */
  function Lower(e: Expr, sibling: Tree): Tree {
    match e
    case Const(v) => Leaf(KLong, v, NoSymbol, sibling)
    case Load(x) => Leaf(KId, 0, x, sibling)
    case AddrOf(x) => Inner(KGetAddr, Leaf(KId, 0, x, Nil), sibling)
    case Deref(p) => Inner(KGetValue, Lower(p, Nil), sibling)
    case Complement(e) => Inner(KBitwise, Lower(e, Nil), sibling)
    case Bin(op, l, r) => Inner(KBin(op), Lower(l, Lower(r, Nil)), sibling)
    case Assign(x, e) => Inner(KAssign, Leaf(KId, 0, x, Lower(e, Nil)), sibling)
    case AssignDeref(p, e) => Inner(KAssign, Inner(KGetValue, Lower(p, Nil), Lower(e, Nil)), sibling)
    case Pre(inc, x) => Inner(if inc then KPreInc else KPreDec, Leaf(KId, 0, x, Nil), sibling)
    case Post(inc, x) => Inner(if inc then KInc else KDec, Leaf(KId, 0, x, Nil), sibling)
  }

  function LowerList(es: seq<Expr>): Tree {
    if es == [] then Nil else Lower(es[0], LowerList(es[1..]))
  }

  /** Straight compilation of an expression, written on its own. */
  function Emit(e: Expr): seq<byte>
    requires e.Typed()
  {
    match e
    case Const(v) => [OP_LD_DWORD] + Dword(v)
    case Load(x) => [OP_LD_VALUE_DWORD] + Dword(x.addr)
    case AddrOf(x) => [OP_LD_DWORD] + Dword(x.addr)
    case Deref(p) => Emit(p) + [OP_LD_VALUE_DWORD_STACK]
    case Complement(e) => Emit(e) + [OP_BITWISE_DWORD]
    case Bin(op, l, r) => Emit(l) + (Emit(r) + [BinCode(op)])
    case Assign(x, e) => [OP_LD_DWORD] + Dword(x.addr) + (Emit(e) + [OP_ST_DWORD, OP_LD_VALUE_DWORD_STACK])
    case AssignDeref(p, e) => Emit(p) + (Emit(e) + [OP_ST_DWORD, OP_LD_VALUE_DWORD_STACK])
    case Pre(inc, x) => [OP_LD_DWORD] + Dword(x.addr) + (EmitBump(inc, x.addr) + [OP_LD_VALUE_DWORD_STACK])
    case Post(inc, x) =>
      [OP_LD_VALUE_DWORD] + Dword(x.addr) + ([OP_LD_DWORD] + Dword(x.addr) + (EmitBump(inc, x.addr) + [OP_POP]))
  }

  function EmitBump(inc: bool, a: u32): seq<byte> {
    [OP_LD_VALUE_DWORD] + Dword(a) +
    ([OP_LD_DWORD] + Dword(1) + [if inc then BinCode(Add) else BinCode(Sub), OP_ST_DWORD])
  }

  function EmitList(es: seq<Expr>): seq<byte>
    requires forall e <- es :: e.Typed()
  {
    if es == [] then []
    else if |es| == 1 then Emit(es[0])
    else Emit(es[0]) + [OP_POP] + EmitList(es[1..])
  }

  /** What checking and compiling a lowered expression gives: its bytes and no error. */
  ghost predicate Faithful(e: Expr, sibling: Tree)
    requires e.Typed()
  {
    var t := TypeChecked(Lower(e, sibling), false);
    && t.Node?
    && t.dt == DWORD
    && t.sibling == TypeChecked(sibling, false)
    && Code(t.child) + NodeCode(t).0 == Emit(e)
    && !Errors(t.child) && !NodeCode(t).1
  }

  /** The check of an operator node whose operands are lowered expressions. */
  lemma CheckInner(kind: Kind, child: Tree, sibling: Tree, isAddr: bool)
    requires child.Node?
    ensures TypeChecked(Inner(kind, child, sibling), isAddr) ==
            var c := TypeChecked(child, ChildAddr(kind, isAddr));
            Node(kind, if c.Node? then c.dt else VOID, isAddr, 0, NoSymbol, c, TypeChecked(sibling, false))
  {
  }

  /** The check of a variable node sets its width and the address request. */
  lemma CheckId(x: Symbol, sibling: Tree, isAddr: bool)
    requires IsDword(x)
    ensures TypeChecked(Leaf(KId, 0, x, sibling), isAddr) ==
            Node(KId, DWORD, isAddr, 0, x, Nil, TypeChecked(sibling, false))
  {
  }

  /** The code of a prepared operand without siblings. */
  lemma CodeOperand(e: Expr)
    requires e.Typed() && Faithful(e, Nil)
    ensures var t := TypeChecked(Lower(e, Nil), false);
            t.Node? && t.dt == DWORD && Code(t) == Emit(e) && !Errors(t)
  {
    hide Emit, NodeCode, Lower;
    var t := TypeChecked(Lower(e, Nil), false);
    assert t.sibling == Nil;
    assert Code(t) == Code(t.child) + NodeCode(t).0 + [];
  }

  /** The code of a prepared operand in front of its siblings' code. */
  lemma CodeBefore(e: Expr, sibling: Tree)
    requires e.Typed() && Faithful(e, sibling)
    ensures var (t, rest) := (TypeChecked(Lower(e, sibling), false), TypeChecked(sibling, false));
            t.Node? && t.dt == DWORD && Code(t) == Emit(e) + Code(rest) && (Errors(t) <==> Errors(rest))
  {
    hide Emit, NodeCode, Lower, TypeChecked;
    var t := TypeChecked(Lower(e, sibling), false);
    assert Code(t) == Code(t.child) + NodeCode(t).0 + Code(t.sibling);
  }

  lemma {:induction false} LowerFaithful(e: Expr, sibling: Tree)
    requires e.Typed()
    ensures Faithful(e, sibling)
  {
    hide Code, Errors, Emit, Faithful;
    match e
    case Const(_) => FaithfulLeaf(e, sibling);
    case Load(_) => FaithfulLeaf(e, sibling);
    case AddrOf(_) => FaithfulVariable(e, sibling);
    case Pre(_, _) => FaithfulVariable(e, sibling);
    case Post(_, _) => FaithfulVariable(e, sibling);
    case Deref(p) => LowerFaithful(p, Nil); FaithfulUnary(e, p, sibling);
    case Complement(p) => LowerFaithful(p, Nil); FaithfulUnary(e, p, sibling);
    case Bin(op, l, r) =>
      LowerFaithful(r, Nil);
      LowerFaithful(l, Lower(r, Nil));
      FaithfulBin(op, l, r, sibling);
    case Assign(x, e1) =>
      LowerFaithful(e1, Nil);
      FaithfulAssign(x, e1, sibling);
    case AssignDeref(p, e1) =>
      LowerFaithful(p, Nil);
      LowerFaithful(e1, Nil);
      FaithfulAssignDeref(p, e1, sibling);
  }

  /** The code of an identifier node without children. */
  lemma CodeVariable(x: Symbol, isAddr: bool, sibling: Tree)
    requires IsDword(x)
    ensures Code(Node(KId, DWORD, isAddr, 0, x, Nil, sibling)) ==
            [if isAddr then OP_LD_DWORD else OP_LD_VALUE_DWORD] + Dword(x.addr) + Code(sibling)
    ensures Errors(Node(KId, DWORD, isAddr, 0, x, Nil, sibling)) == Errors(sibling)
  {
    assert LoadId(x, isAddr) == [if isAddr then OP_LD_DWORD else OP_LD_VALUE_DWORD] + Dword(x.addr);
  }

  lemma FaithfulLeaf(e: Expr, sibling: Tree)
    requires e.Typed() && (e.Const? || e.Load?)
    ensures Faithful(e, sibling)
  {
    var t := TypeChecked(Lower(e, sibling), false);
    if e.Const? {
      assert t == Node(KLong, DWORD, false, e.v, NoSymbol, Nil, TypeChecked(sibling, false));
    } else {
      CheckId(e.x, sibling, false);
      assert LoadId(e.x, false) == [OP_LD_VALUE_DWORD] + Dword(e.x.addr);
    }
  }

  lemma FaithfulVariable(e: Expr, sibling: Tree)
    requires e.Typed() && (e.AddrOf? || e.Pre? || e.Post?)
    ensures Faithful(e, sibling)
  {
    hide TypeChecked, Dword, LoadId, Code, Errors;
    var isAddr := e.AddrOf? || e.Pre?;
    CheckNil();
    CheckId(e.x, Nil, isAddr);
    CheckInner(Lower(e, sibling).kind, Leaf(KId, 0, e.x, Nil), sibling, false);
    CodeVariable(e.x, isAddr, Nil);
    CodeNil();
    var t := TypeChecked(Lower(e, sibling), false);
    assert Code(t.child) == [if isAddr then OP_LD_DWORD else OP_LD_VALUE_DWORD] + Dword(e.x.addr);
    if !e.AddrOf? {
      BumpDword(e.inc, e.x.addr);
    }
  }

  lemma CodeNil()
    ensures Code(Nil) == [] && !Errors(Nil)
  {
  }

  lemma BumpDword(inc: bool, a: u32)
    ensures Bump(DWORD, inc, a) == EmitBump(inc, a)
  {
  }

  lemma CheckNil()
    ensures TypeChecked(Nil, false) == Nil
  {
  }

  lemma FaithfulUnary(e: Expr, p: Expr, sibling: Tree)
    requires e.Typed() && (e == Deref(p) || e == Complement(p))
    requires Faithful(p, Nil)
    ensures Faithful(e, sibling)
  {
    hide TypeChecked;
    CodeOperand(p);
    CheckInner(Lower(e, sibling).kind, Lower(p, Nil), sibling, false);
  }

  lemma FaithfulBin(op: BinOp, l: Expr, r: Expr, sibling: Tree)
    requires l.Typed() && r.Typed()
    requires Faithful(r, Nil) && Faithful(l, Lower(r, Nil))
    ensures Faithful(Bin(op, l, r), sibling)
  {
    hide TypeChecked, Code, Errors, Faithful;
    CodeOperand(r);
    CodeBefore(l, Lower(r, Nil));
    CheckInner(KBin(op), Lower(l, Lower(r, Nil)), sibling, false);
    var t := TypeChecked(Lower(Bin(op, l, r), sibling), false);
    assert Code(t.child) == Emit(l) + Emit(r);
    assert NodeCode(t).0 == [BinCode(op)];
    assert Code(t.child) + NodeCode(t).0 == Emit(Bin(op, l, r));
    FaithfulNode(Bin(op, l, r), sibling);
  }

  lemma FaithfulNode(e: Expr, sibling: Tree)
    requires e.Typed()
    requires var t := TypeChecked(Lower(e, sibling), false);
             && t.Node? && t.dt == DWORD && t.sibling == TypeChecked(sibling, false)
             && Code(t.child) + NodeCode(t).0 == Emit(e) && !Errors(t.child) && !NodeCode(t).1
    ensures Faithful(e, sibling)
  {
  }

  lemma FaithfulAssign(x: Symbol, e: Expr, sibling: Tree)
    requires IsDword(x) && e.Typed()
    requires Faithful(e, Nil)
    ensures Faithful(Assign(x, e), sibling)
  {
    hide TypeChecked, Dword, LoadId, Code, Errors;
    CodeOperand(e);
    CodeVariable(x, true, TypeChecked(Lower(e, Nil), false));
    CheckId(x, Lower(e, Nil), true);
    CheckInner(KAssign, Leaf(KId, 0, x, Lower(e, Nil)), sibling, false);
    var t := TypeChecked(Lower(Assign(x, e), sibling), false);
    assert Code(t.child) == [OP_LD_DWORD] + Dword(x.addr) + Emit(e);
    assert NodeCode(t).0 == [OP_ST_DWORD, OP_LD_VALUE_DWORD_STACK];
    assert Code(t.child) + NodeCode(t).0 == Emit(Assign(x, e));
  }

  lemma FaithfulAssignDeref(p: Expr, e: Expr, sibling: Tree)
    requires p.Typed() && e.Typed()
    requires Faithful(p, Nil) && Faithful(e, Nil)
    ensures Faithful(AssignDeref(p, e), sibling)
  {
    hide TypeChecked, Faithful, Dword, LoadId;
    CodeOperand(p);
    CodeOperand(e);
    CheckInner(KGetValue, Lower(p, Nil), Lower(e, Nil), true);
    CheckInner(KAssign, Inner(KGetValue, Lower(p, Nil), Lower(e, Nil)), sibling, false);
    var t := TypeChecked(Lower(AssignDeref(p, e), sibling), false);
    AddressNode(t.child);
    hide Code, Errors;
    assert Code(t.child) == Emit(p) + Emit(e);
    assert NodeCode(t).0 == [OP_ST_DWORD, OP_LD_VALUE_DWORD_STACK];
    assert Code(t.child) + NodeCode(t).0 == Emit(AssignDeref(p, e));
    FaithfulNode(AssignDeref(p, e), sibling);
  }

  /** A dereference that is assigned to emits nothing of its own. */
  lemma AddressNode(c: Tree)
    requires c.Node? && c.kind == KGetValue && c.isAddr && c.dt == DWORD
    ensures Code(c) == Code(c.child) + Code(c.sibling)
    ensures Errors(c) <==> Errors(c.child) || Errors(c.sibling)
  {
    assert NodeCode(c).0 == [];
    assert Code(c.child) + [] == Code(c.child);
  }

  /** A statement list compiles to its statements' code with a POP between two, without error. */
  lemma {:induction false} LowerListFaithful(es: seq<Expr>)
    requires forall e <- es :: e.Typed()
    ensures var t := TypeChecked(LowerList(es), false);
            ListCode(t) == EmitList(es) && !ListErrors(t) && (t.Nil? <==> es == [])
  {
    hide Emit, Lower, NodeCode;
    if es != [] {
      var rest := LowerList(es[1..]);
      LowerFaithful(es[0], rest);
      LowerListFaithful(es[1..]);
      var t := TypeChecked(Lower(es[0], rest), false);
      var one := t.(sibling := Nil);
      CodeAlone(t);
      assert Code(one) == Emit(es[0]);
    }
  }

  lemma CodeAlone(t: Tree)
    requires t.Node?
    ensures Code(t.(sibling := Nil)) == Code(t.child) + NodeCode(t).0
    ensures Errors(t.(sibling := Nil)) <==> Errors(t.child) || NodeCode(t).1
  {
    var one := t.(sibling := Nil);
    assert NodeCode(one) == NodeCode(t);
    assert Code(one) == Code(t.child) + NodeCode(t).0 + Code(Nil);
  }
}
