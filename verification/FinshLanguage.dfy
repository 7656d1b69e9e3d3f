/** The expressions finsh accepts over 32-bit values and what they mean. */
module FinshLanguage {
  import opened Base
  import Bits

  datatype BinOp = Add | Sub | Mul | Div | Mod | And | Or | Xor | Shl | Shr

  datatype FinshType =
    | Unknown | Void | VoidP | Char | UChar | CharP | Short | UShort | ShortP
    | Int | UInt | IntP | Long | ULong | LongP

  /** What an identifier was resolved to: the id union of a node with the kind bits of idtype. */
  datatype Symbol =
    | NoSymbol
    | Var(ty: FinshType, addr: u32)
    | SysVar(ty: FinshType, addr: u32)
    | SysCall(func: u32)

  /** A variable whose type check yields DWORD and for which a dword load is emitted. */
  predicate IsDword(s: Symbol) {
    && (s.Var? || s.SysVar?)
    && (match s.ty
        case Int | UInt | Long | ULong | CharP | ShortP | IntP | LongP => true
        case _ => false)
  }

  datatype Expr =
    | Const(v: u32)
    | Load(x: Symbol)
    | AddrOf(x: Symbol)
    | Deref(p: Expr)
    | Complement(e: Expr)
    | Bin(op: BinOp, l: Expr, r: Expr)
    | Assign(x: Symbol, e: Expr)
    | AssignDeref(p: Expr, e: Expr)
    | Pre(inc: bool, x: Symbol)
    | Post(inc: bool, x: Symbol)
  {
    /** Identifiers are dword variables; ++ and -- apply to shell variables only. */
    predicate Typed() {
      match this
      case Const(_) => true
      case Load(x) => IsDword(x)
      case AddrOf(x) => IsDword(x)
      case Deref(p) => p.Typed()
      case Complement(e) => e.Typed()
      case Bin(_, l, r) => l.Typed() && r.Typed()
      case Assign(x, e) => IsDword(x) && e.Typed()
      case AssignDeref(p, e) => p.Typed() && e.Typed()
      case Pre(_, x) => IsDword(x) && x.Var?
      case Post(_, x) => IsDword(x) && x.Var?
    }
  }

  /** Dword cells by address. */
  type Memory = map<u32, u32>

  /** C division: truncation toward zero. */
  function TruncDiv(a: int, b: int): int
    requires b != 0
  {
    var q := (if a < 0 then -a else a) / (if b < 0 then -b else b);
    if (a < 0) == (b < 0) then q else -q
  }

  /** The C operators on long. None where C leaves the result undefined. */
  function Alu(op: BinOp, x: u32, y: u32): Option<u32> {
    match op
    case Add => Some(Wrap(x + y))
    case Sub => Some(Wrap(x - y))
    case Mul => Some(Wrap(x * y))
    case Div =>
      if y == 0 || (x == 0x8000_0000 && y == TWO32 - 1) then None
      else Some(Wrap(TruncDiv(Signed(x), Signed(y))))
    case Mod =>
      if y == 0 || (x == 0x8000_0000 && y == TWO32 - 1) then None
      else Some(Wrap(Signed(x) - Signed(y) * TruncDiv(Signed(x), Signed(y))))
    case And => Some(Wrap(Bits.And(x, y)))
    case Or => Some(Wrap(Bits.Or(x, y)))
    case Xor => Some(Wrap(Bits.Xor(x, y)))
    case Shl => if y >= 32 then None else Some(Wrap(x * Bits.Pow2(y)))
    case Shr => if y >= 32 then None else Some(Wrap(Signed(x) / Bits.Pow2(y)))
  }

  function Flip(x: u32): u32 {
    TWO32 - 1 - x
  }

  /** The value ++ or -- stores. */
  function Bumped(inc: bool, v: u32): u32 {
    Wrap(if inc then v + 1 else v - 1)
  }

  function Fetch(m: Memory, a: u32): Option<u32> {
    if a in m then Some(m[a]) else None
  }

  function Store(m: Memory, a: u32, v: u32): Option<Memory> {
    if a in m then Some(m[a := v]) else None
  }

  /** Left-to-right evaluation: the value and the memory it leaves. */
  function Eval(e: Expr, m: Memory): Option<(u32, Memory)> {
    match e
    case Const(v) => Some((v, m))
    case Load(x) =>
      if x.NoSymbol? || x.SysCall? then None
      else
        var v :- Fetch(m, x.addr);
        Some((v, m))
    case AddrOf(x) =>
      if x.NoSymbol? || x.SysCall? then None else Some((x.addr, m))
    case Deref(p) =>
      var (a, m1) :- Eval(p, m);
      var v :- Fetch(m1, a);
      Some((v, m1))
    case Complement(e) =>
      var (v, m1) :- Eval(e, m);
      Some((Flip(v), m1))
    case Bin(op, l, r) =>
      var (a, m1) :- Eval(l, m);
      var (b, m2) :- Eval(r, m1);
      var v :- Alu(op, a, b);
      Some((v, m2))
    case Assign(x, e) =>
      if x.NoSymbol? || x.SysCall? then None
      else
        var (v, m1) :- Eval(e, m);
        var m2 :- Store(m1, x.addr, v);
        Some((v, m2))
    case AssignDeref(p, e) =>
      var (a, m1) :- Eval(p, m);
      var (v, m2) :- Eval(e, m1);
      var m3 :- Store(m2, a, v);
      Some((v, m3))
    case Pre(inc, x) =>
      if x.NoSymbol? || x.SysCall? then None
      else
        var v :- Fetch(m, x.addr);
        Some((Bumped(inc, v), m[x.addr := Bumped(inc, v)]))
    case Post(inc, x) =>
      if x.NoSymbol? || x.SysCall? then None
      else
        var v :- Fetch(m, x.addr);
        Some((v, m[x.addr := Bumped(inc, v)]))
  }

  /** A statement list: each value is dropped but the last one. */
  function EvalList(es: seq<Expr>, m: Memory): Option<(u32, Memory)>
    requires |es| > 0
  {
    var (v, m1) :- Eval(es[0], m);
    if |es| == 1 then Some((v, m1)) else EvalList(es[1..], m1)
  }

  /** Stack slots an expression needs while it is evaluated. */
  function Depth(e: Expr): nat {
    match e
    case Const(_) => 1
    case Load(_) => 1
    case AddrOf(_) => 1
    case Deref(p) => Depth(p)
    case Complement(e) => Depth(e)
    case Bin(_, l, r) => Max(Depth(l), 1 + Depth(r))
    case Assign(_, e) => 1 + Depth(e)
    case AssignDeref(p, e) => Max(Depth(p), 1 + Depth(e))
    case Pre(_, _) => 3
    case Post(_, _) => 4
  }

  function Max(a: nat, b: nat): nat {
    if a < b then b else a
  }
}
