/** The finsh stack machine, restricted to its dword operations. */
module FinshVm {
  import opened Base
  import opened FinshLanguage

  /** finsh_vm_stack has this many slots and text_segment this many bytes. */
  const STACK_MAX := 64
  const TEXT_MAX := 128

  const OP_NOOP: byte := 0x00
  const OP_BITWISE_DWORD: byte := 0x1B
  const OP_LD_DWORD: byte := 0x24
  const OP_LD_VALUE_DWORD: byte := 0x27
  const OP_ST_DWORD: byte := 0x2A
  const OP_POP: byte := 0x2B
  const OP_LD_VALUE_DWORD_STACK: byte := 0x2F

  /** The opcode of the dword form of an operator. */
  function BinCode(op: BinOp): byte {
    match op
    case Add => 0x03
    case Sub => 0x06
    case Div => 0x09
    case Mod => 0x0C
    case Mul => 0x0F
    case And => 0x12
    case Or => 0x15
    case Xor => 0x18
    case Shl => 0x1E
    case Shr => 0x21
  }

  /** The operator an opcode selects in op_table, if it is a dword operator. */
  function BinOfCode(c: byte): Option<BinOp> {
    if c == 0x03 then Some(Add)
    else if c == 0x06 then Some(Sub)
    else if c == 0x09 then Some(Div)
    else if c == 0x0C then Some(Mod)
    else if c == 0x0F then Some(Mul)
    else if c == 0x12 then Some(And)
    else if c == 0x15 then Some(Or)
    else if c == 0x18 then Some(Xor)
    else if c == 0x1E then Some(Shl)
    else if c == 0x21 then Some(Shr)
    else None
  }

  /** FINSH_SET32: least significant byte first. */
  function Dword(v: u32): (b: seq<byte>)
    ensures |b| == 4
  {
    [v % 256, v / 256 % 256, v / 0x1_0000 % 256, v / 0x100_0000]
  }

  function Little(b0: int, b1: int, b2: int, b3: int): int {
    b0 + 0x100 * b1 + 0x1_0000 * b2 + 0x100_0000 * b3
  }

  /** FINSH_GET32 at an offset. */
  function GetDword(text: seq<byte>, pc: nat): u32
    requires pc + 4 <= |text|
  {
    Little(text[pc], text[pc + 1], text[pc + 2], text[pc + 3])
  }

  /** pc and the live part of the stack (finsh_sp is its length), and memory. */
  datatype State = State(pc: nat, stack: seq<u32>, mem: Memory)

  /** One fetch and one call through op_table. None: the C program would be undefined. */
  function Step(text: seq<byte>, s: State): (r: Option<State>)
    requires s.pc < |text|
    ensures r.Some? ==> s.pc < r.value.pc
  {
    var n, pc, op := |s.stack|, s.pc + 1, text[s.pc];
    if op == OP_NOOP then Some(s.(pc := pc))
    else if op == OP_LD_DWORD then
      if pc + 4 > |text| || n >= STACK_MAX then None
      else Some(State(pc + 4, s.stack + [GetDword(text, pc)], s.mem))
    else if op == OP_LD_VALUE_DWORD then
      if pc + 4 > |text| || n >= STACK_MAX then None
      else
        var v :- Fetch(s.mem, GetDword(text, pc));
        Some(State(pc + 4, s.stack + [v], s.mem))
    else if n == 0 then None
    else if op == OP_POP then Some(State(pc, s.stack[..n - 1], s.mem))
    else if op == OP_BITWISE_DWORD then
      Some(State(pc, s.stack[n - 1 := Flip(s.stack[n - 1])], s.mem))
    else if op == OP_LD_VALUE_DWORD_STACK then
      var v :- Fetch(s.mem, s.stack[n - 1]);
      Some(State(pc, s.stack[n - 1 := v], s.mem))
    else if n == 1 then None
    else if op == OP_ST_DWORD then
      var m :- Store(s.mem, s.stack[n - 2], s.stack[n - 1]);
      Some(State(pc, s.stack[..n - 1], m))
    else
      var bin :- BinOfCode(op);
      var v :- Alu(bin, s.stack[n - 2], s.stack[n - 1]);
      Some(State(pc, s.stack[..n - 2] + [v], s.mem))
  }

  /** The fetch loop: it stops when pc leaves the text segment. */
  function Run(text: seq<byte>, s: State): Option<State>
    decreases |text| - s.pc
  {
    if s.pc >= |text| then Some(s)
    else
      var s1 :- Step(text, s);
      Run(text, s1)
  }

  /** The bytes of a code fragment stand at pc. */
  ghost predicate At(text: seq<byte>, pc: nat, code: seq<byte>) {
    && pc + |code| <= |text|
    && text[pc..pc + |code|] == code
  }

  lemma AtSplit(text: seq<byte>, pc: nat, a: seq<byte>, b: seq<byte>)
    requires At(text, pc, a + b)
    ensures At(text, pc, a) && At(text, pc + |a|, b)
  {
    var ab := text[pc..pc + |a + b|];
    assert ab[..|a|] == a && ab[|a|..] == b;
    assert text[pc..pc + |a|] == ab[..|a|];
    assert text[pc + |a|..pc + |a| + |b|] == ab[|a|..];
  }

  lemma AtIndex(text: seq<byte>, pc: nat, code: seq<byte>, i: nat)
    requires At(text, pc, code) && i < |code|
    ensures text[pc + i] == code[i]
  {
    assert text[pc..pc + |code|][i] == code[i];
  }

  /** Splitting off a byte at a time. */
  lemma Bytes(v: nat)
    ensures v / 256 / 256 == v / 0x1_0000 && v / 0x1_0000 / 256 == v / 0x100_0000
    ensures v == v % 256 + 256 * (v / 256)
  {
  }

  lemma LittleDword(v: u32)
    ensures var d := Dword(v); Little(d[0], d[1], d[2], d[3]) == v
  {
    Bytes(v);
    Bytes(v / 256);
    Bytes(v / 0x1_0000);
  }

  /** Reading back what FINSH_SET32 wrote yields the same word. */
  lemma DwordRoundTrip(text: seq<byte>, pc: nat, v: u32)
    requires At(text, pc, Dword(v))
    ensures GetDword(text, pc) == v
  {
    var d := Dword(v);
    LittleDword(v);
    hide Dword, Little;
    AtIndex(text, pc, d, 0);
    AtIndex(text, pc, d, 1);
    AtIndex(text, pc, d, 2);
    AtIndex(text, pc, d, 3);
  }

  /** Zero bytes are no-ops: the loop runs through them unchanged. */
  lemma {:induction false} RunPadding(text: seq<byte>, s: State)
    requires s.pc <= |text|
    requires forall i :: s.pc <= i < |text| ==> text[i] == OP_NOOP
    ensures Run(text, s) == Some(s.(pc := |text|))
    decreases |text| - s.pc
  {
    if s.pc < |text| {
      RunPadding(text, s.(pc := s.pc + 1));
    }
  }

  // ---- The machine itself ----

  /** finsh_vm.c: text_segment, finsh_vm_stack, finsh_pc and finsh_sp. */
  class Machine {
    const text: array<byte>
    const stack: array<u32>
    var pc: nat
    var sp: nat
    var mem: Memory
    /** Set when an operation is undefined: the model then stops. */
    var fault: bool

    ghost predicate Valid()
      reads this, stack, text
    {
      stack.Length == STACK_MAX && sp <= STACK_MAX
    }

    ghost function Now(): State
      reads this, stack
      requires sp <= stack.Length
    {
      State(pc, stack[..sp], mem)
    }

    constructor (text: array<byte>, mem: Memory)
      ensures Valid() && !fault && this.text == text && this.mem == mem && fresh(stack)
    {
      this.text := text;
      this.mem := mem;
      stack := new u32[STACK_MAX](_ => 0);
      pc, sp, fault := 0, 0, false;
    }

    method Operand() returns (v: u32)
      requires Valid() && pc + 4 <= text.Length
      modifies this`pc
      ensures v == GetDword(text[..], old(pc)) && pc == old(pc) + 4
    {
      v := Little(text[pc], text[pc + 1], text[pc + 2], text[pc + 3]);
      pc := pc + 4;
    }

    /** OP_ld_dword. */
    method LdDword()
      requires Valid() && pc + 4 <= text.Length && sp < STACK_MAX && text as object != stack
      modifies this, stack
      ensures Valid() && fault == old(fault)
      ensures Now() == State(old(pc) + 4, old(stack[..sp]) + [GetDword(text[..], old(pc))], old(mem))
    {
      stack[sp] := Operand();
      sp := sp + 1;
    }

    /** OP_ld_value_dword. */
    method LdValueDword()
      requires Valid() && pc + 4 <= text.Length && sp < STACK_MAX && text as object != stack
      requires GetDword(text[..], pc) in mem
      modifies this, stack
      ensures Valid() && fault == old(fault)
      ensures Now() == State(old(pc) + 4, old(stack[..sp]) + [old(mem)[GetDword(text[..], old(pc))]], old(mem))
    {
      var a := Operand();
      stack[sp] := mem[a];
      sp := sp + 1;
    }

    /** OP_ld_value_dword_stack. */
    method LdValueDwordStack()
      requires Valid() && sp >= 1 && stack[sp - 1] in mem
      modifies stack
      ensures Now() == old(State(pc, stack[..sp][sp - 1 := mem[stack[sp - 1]]], mem))
    {
      stack[sp - 1] := mem[stack[sp - 1]];
    }

    /** OP_st_dword: the address stays on the stack. */
    method StDword()
      requires Valid() && sp >= 2 && stack[sp - 2] in mem
      modifies this`sp, this`mem
      ensures Valid()
      ensures Now() == old(State(pc, stack[..sp][..sp - 1], mem[stack[sp - 2] := stack[sp - 1]]))
    {
      mem := mem[stack[sp - 2] := stack[sp - 1]];
      sp := sp - 1;
      assert stack[..sp] == old(stack[..sp][..sp - 1]);
    }

    /** OP_pop. */
    method Pop()
      requires Valid() && sp >= 1
      modifies this`sp
      ensures Valid()
      ensures Now() == old(State(pc, stack[..sp][..sp - 1], mem))
    {
      sp := sp - 1;
      assert stack[..sp] == old(stack[..sp][..sp - 1]);
    }

    /** OP_bw_dword. */
    method Complement()
      requires Valid() && sp >= 1
      modifies stack
      ensures Now() == old(State(pc, stack[..sp][sp - 1 := Flip(stack[sp - 1])], mem))
    {
      stack[sp - 1] := Flip(stack[sp - 1]);
    }

    /** OP_BIN_DWORD: the result replaces the lower operand. */
    method Binary(op: BinOp)
      requires Valid() && sp >= 2 && Alu(op, stack[sp - 2], stack[sp - 1]).Some?
      modifies stack, this`sp
      ensures Valid()
      ensures Now() == old(State(pc, stack[..sp][..sp - 2] + [Alu(op, stack[sp - 2], stack[sp - 1]).value], mem))
    {
      stack[sp - 2] := Alu(op, stack[sp - 2], stack[sp - 1]).value;
      sp := sp - 1;
      assert stack[..sp] == old(stack[..sp][..sp - 2]) + [stack[sp - 1]];
    }

    /** Fetch the opcode and run the operation it selects in op_table. */
    method Execute()
      requires Valid() && pc < text.Length && !fault && text as object != stack
      modifies this, stack
      ensures Valid() && old(pc) < pc
      ensures match Step(text[..], old(Now()))
              case None => fault
              case Some(s) => !fault && Now() == s
    {
      var op := text[pc];
      pc := pc + 1;
      if op == OP_NOOP {
      } else if op == OP_LD_DWORD {
        if pc + 4 <= text.Length && sp < STACK_MAX {
          LdDword();
        } else {
          fault := true;
        }
      } else if op == OP_LD_VALUE_DWORD {
        if pc + 4 <= text.Length && sp < STACK_MAX {
          if GetDword(text[..], pc) in mem {
            LdValueDword();
          } else {
            fault := true;
          }
        } else {
          fault := true;
        }
      } else if sp == 0 {
        fault := true;
      } else if op == OP_POP {
        Pop();
      } else if op == OP_BITWISE_DWORD {
        Complement();
      } else if op == OP_LD_VALUE_DWORD_STACK {
        if stack[sp - 1] in mem {
          LdValueDwordStack();
        } else {
          fault := true;
        }
      } else if sp == 1 {
        fault := true;
      } else if op == OP_ST_DWORD {
        if stack[sp - 2] in mem {
          StDword();
        } else {
          fault := true;
        }
      } else {
        var bin := BinOfCode(op);
        if bin.None? {
          fault := true;
        } else {
          if Alu(bin.value, stack[sp - 2], stack[sp - 1]).Some? {
            Binary(bin.value);
          } else {
            fault := true;
          }
        }
      }
    }

    /** finsh_vm_run: reset sp and pc, then loop while pc is inside the text segment. */
    method VmRun()
      requires Valid() && !fault && text as object != stack
      modifies this, stack
      ensures Valid()
      ensures match Run(text[..], State(0, [], old(mem)))
              case None => fault
              case Some(s) => !fault && Now() == s
    {
      sp, pc := 0, 0;
      ghost var start := Now();
      assert start == State(0, [], old(mem));
      while pc < text.Length && !fault
        invariant Valid()
        invariant fault ==> Run(text[..], start) == None
        invariant !fault ==> Run(text[..], Now()) == Run(text[..], start)
        decreases text.Length - pc
      {
        Execute();
      }
    }
  }
}
