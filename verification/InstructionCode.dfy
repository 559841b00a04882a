/** What the processor finds at the address of a statement: its opcode, its operand, its data. */
module InstructionCode {
  import opened Basics
  import opened AsmOpcode
  import opened AsmExpr
  import opened AsmLayout
  import opened AsmStable
  import opened AsmRelax
  import opened AsmEmit
  import opened AsmImage
  import opened BranchCode

  /** Two bytes, as the processor takes them for a number. */
  function Word(bs: seq<Byte>): nat
    requires |bs| == 2
  {
    bs[0] as nat + 256 * bs[1] as nat
  }

  /** Bytes of the operand an encoding has. */
  function OperandSize(mode: EmitMode): nat {
    match mode
    case Implied | Accumulator => 0
    case Immediate | Zp | ZpX | ZpY | IndX | IndY | Rel => 1
    case Abs | AbsX | AbsY | Ind | RelLong => 2
  }

  /** The values an encoding has room for, when the operand is at pc. */
  predicate HasRoom(mode: EmitMode, v: int, pc: int) {
    match mode
    case Immediate => -128 <= v < 256
    case Zp | ZpX | ZpY | IndX | IndY => 0 <= v < 256
    case Rel => -128 <= v - (pc + 1) < 128
    case _ => true
  }

  /** What the operand bytes are worth to the processor: a displacement, or the value modulo what fits. */
  ghost predicate Worth(mode: EmitMode, bs: seq<Byte>, v: int, pc: int) {
    && |bs| == OperandSize(mode)
    && (OperandSize(mode) == 2 ==> Word(bs) == v % 65536)
    && (OperandSize(mode) == 1 ==> if mode == Rel then pc + 1 + Signed(bs[0]) == v else bs[0] == v % 256)
  }

  /** An operand is written exactly when there is room for its value, and then is worth that value. */
  lemma OperandIsWorth(mode: EmitMode, v: int, pc: int)
    requires OperandSize(mode) > 0
    ensures var e := OperandBytes(mode, v, pc);
      e.ok == HasRoom(mode, v, pc) && (e.ok ==> Worth(mode, e.bytes, v, pc)) && (!e.ok ==> e.bytes == [])
  {
    TwosComplement.LowHigh(v);
  }

  /** The byte is the instruction's opcode: the registered one, or the one written for it. */
  ghost predicate IsOpcode(table: Table, op: Opcode, mode: EmitMode, b: Byte) {
    match op
    case Named(name) => (name, mode) in table && table[(name, mode)] == b
    case RawByte(code) => mode != RelLong && b == code
  }

  /** There is an opcode; for a branch written long, one of the opposite branch and one of the jump. */
  ghost predicate HasOpcode(table: Table, op: Opcode, mode: EmitMode) {
    if mode == RelLong then op.Named? && InvertBranch(op.name).Some? && ("JMP", Abs) in table
    else op.RawByte? || (op.name, mode) in table
  }

  lemma HeadIs(table: Table, op: Opcode, mode: EmitMode)
    ensures var e := HeadBytes(table, op, mode);
      && e.ok == HasOpcode(table, op, mode)
      && (e.ok ==> |e.bytes| + OperandSize(mode) == ModeSize(mode))
      && (e.ok && mode != RelLong ==> |e.bytes| == 1 && IsOpcode(table, op, mode, e.bytes[0]))
  {
  }

  /** An instruction is accepted exactly when its opcode exists and its operand, if the encoding has one, is there, has a
      value after the opcode, and fits. */
  ghost predicate InsnAccepted(table: Table, op: Opcode, operand: Option<Expr>, mode: EmitMode, symbols: Symbols, at: int) {
    && HasOpcode(table, op, mode)
    && (OperandSize(mode) > 0 ==>
          && operand.Some?
          && var pc := at + ModeSize(mode) - OperandSize(mode);
             var v := EvalExpr(operand.value, symbols, pc); v.Ok? && HasRoom(mode, v.value, pc))
  }

  lemma InsnIsAccepted(table: Table, op: Opcode, operand: Option<Expr>, mode: EmitMode, symbols: Symbols, at: int)
    ensures InsnBytes(table, op, operand, mode, symbols, at).ok == InsnAccepted(table, op, operand, mode, symbols, at)
  {
    HeadIs(table, op, mode);
    hide EvalExpr, HeadBytes, HasOpcode, OperandBytes, HasRoom;
    if HeadBytes(table, op, mode).ok && OperandSize(mode) > 0 && operand.Some? {
      var pc := at + |HeadBytes(table, op, mode).bytes|;
      var v := EvalExpr(operand.value, symbols, pc);
      if v.Ok? { OperandIsWorth(mode, v.value, pc); }
    }
  }

  /** The operand an accepted instruction has at its end. */
  lemma InsnEndsInOperand(table: Table, op: Opcode, operand: Option<Expr>, mode: EmitMode, symbols: Symbols, at: int)
    requires InsnBytes(table, op, operand, mode, symbols, at).ok && OperandSize(mode) > 0 && operand.Some?
    ensures var bs, pc := InsnBytes(table, op, operand, mode, symbols, at).bytes, at + ModeSize(mode) - OperandSize(mode);
      && |bs| == ModeSize(mode) && EvalExpr(operand.value, symbols, pc).Ok?
      && Worth(mode, bs[ModeSize(mode) - OperandSize(mode)..], EvalExpr(operand.value, symbols, pc).value, pc)
  {
    HeadIs(table, op, mode);
    InsnLength(table, op, operand, mode, symbols, at);
    hide EvalExpr, HeadBytes, HasOpcode, OperandBytes, Worth;
    var head := HeadBytes(table, op, mode).bytes;
    var pc := at + |head|;
    var v := EvalExpr(operand.value, symbols, pc).value;
    OperandIsWorth(mode, v, pc);
    assert (head + OperandBytes(mode, v, pc).bytes)[|head|..] == OperandBytes(mode, v, pc).bytes;
  }

  // ----- data -----

  /** The k-th value of .byte or .word, evaluated where it stands. */
  function DataValue(es: seq<Expr>, width: nat, symbols: Symbols, at: int, k: nat): Eval
    requires k < |es|
  {
    EvalExpr(es[k], symbols, at + width * k)
  }

  /** The bytes from p on are worth v, as far as they go. */
  ghost predicate DataWorth(bs: seq<Byte>, p: nat, width: nat, v: int) {
    p + width <= |bs| && (width == 1 ==> bs[p] == v % 256) && (width == 2 ==> Word(bs[p..p + 2]) == v % 65536)
  }

  /** Data is accepted exactly when every value has one, and each then stands in its place, low byte first. */
  lemma {:induction false} DataIsWorth(es: seq<Expr>, width: nat, symbols: Symbols, at: int, n: nat)
    requires n <= |es| && (width == 1 || width == 2)
    ensures var e := DataBytes(es, width, symbols, at, n);
      && e.ok == (forall k :: 0 <= k < n ==> DataValue(es, width, symbols, at, k).Ok?)
      && (e.ok ==> |e.bytes| == width * n
                   && forall k: nat :: k < n ==> DataWorth(e.bytes, width * k, width, DataValue(es, width, symbols, at, k).value))
  {
    hide EvalExpr, DataWorth;
    if n > 0 {
      DataIsWorth(es, width, symbols, at, n - 1);
      var before := DataBytes(es, width, symbols, at, n - 1);
      if before.ok && DataValue(es, width, symbols, at, n - 1).Ok? {
        var v := DataValue(es, width, symbols, at, n - 1).value;
        var after := before.bytes + LoHi(v)[..width];
        LastWorth(before.bytes, width, v);
        forall k: nat | k < n - 1
          ensures DataWorth(after, width * k, width, DataValue(es, width, symbols, at, k).value)
        {
          assert width * k + width <= width * (n - 1);
          StaysWorth(before.bytes, LoHi(v)[..width], width * k, width, DataValue(es, width, symbols, at, k).value);
        }
      }
    }
  }

  lemma LastWorth(bs: seq<Byte>, width: nat, v: int)
    requires width == 1 || width == 2
    ensures |bs + LoHi(v)[..width]| == |bs| + width && DataWorth(bs + LoHi(v)[..width], |bs|, width, v)
  {
    TwosComplement.LowHigh(v);
    if width == 2 { assert (bs + LoHi(v)[..2])[|bs|..|bs| + 2] == LoHi(v); }
  }

  lemma StaysWorth(bs: seq<Byte>, cs: seq<Byte>, p: nat, width: nat, v: int)
    requires DataWorth(bs, p, width, v)
    ensures DataWorth(bs + cs, p, width, v)
  {
    if width == 2 { assert (bs + cs)[p..p + 2] == bs[p..p + 2]; }
  }

  // ----- whole statements -----

  /** When the second pass accepts a statement. */
  ghost predicate Accepted(table: Table, s: Stmt, mode: EmitMode, symbols: Symbols, at: int) {
    match s.body
    case Insn(op, _, _, operand) => InsnAccepted(table, op, operand, mode, symbols, at)
    case Bytes(es) => forall k :: 0 <= k < |es| ==> DataValue(es, 1, symbols, at, k).Ok?
    case Words(es) => forall k :: 0 <= k < |es| ==> DataValue(es, 2, symbols, at, k).Ok?
    case Res(e) => EvalExpr(e, symbols, at).Ok? && EvalExpr(e, symbols, at).value >= 0
    case _ => true
  }

  lemma StatementAccepted(table: Table, s: Stmt, mode: EmitMode, symbols: Symbols, at: int)
    ensures StatementBytes(table, s, mode, symbols, at).ok == Accepted(table, s, mode, symbols, at)
  {
    hide InsnBytes, InsnAccepted, DataBytes, DataValue, DataWorth, EvalExpr;
    match s.body {
      case Insn(op, _, _, operand) => InsnIsAccepted(table, op, operand, mode, symbols, at);
      case Bytes(es) => DataIsWorth(es, 1, symbols, at, |es|);
      case Words(es) => DataIsWorth(es, 2, symbols, at, |es|);
      case _ =>
    }
  }

  /** What an accepted statement puts where it stands: data values, text as it is, a zero at the end of a string, zeros
      for reserved bytes. */
  ghost predicate Stands(s: Stmt, symbols: Symbols, at: int, bs: seq<Byte>) {
    match s.body
    case Bytes(es) => |bs| == |es| && forall k: nat :: k < |es| ==> var v := DataValue(es, 1, symbols, at, k); v.Ok? && DataWorth(bs, 1 * k, 1, v.value)
    case Words(es) => |bs| == 2 * |es| && forall k: nat :: k < |es| ==> var v := DataValue(es, 2, symbols, at, k); v.Ok? && DataWorth(bs, 2 * k, 2, v.value)
    case Text(cs) => bs == cs
    case Asciiz(cs) => |bs| == |cs| + 1 && bs[..|cs|] == cs && bs[|cs|] == 0
    case Res(e) => EvalExpr(e, symbols, at) == Ok(|bs|) && forall k :: 0 <= k < |bs| ==> bs[k] == 0
    case Insn(_, _, _, _) => true
    case _ => bs == []
  }

  lemma StatementStands(table: Table, s: Stmt, mode: EmitMode, symbols: Symbols, at: int)
    requires StatementBytes(table, s, mode, symbols, at).ok
    ensures Stands(s, symbols, at, StatementBytes(table, s, mode, symbols, at).bytes)
  {
    match s.body {
      case Bytes(es) => DataIsWorth(es, 1, symbols, at, |es|);
      case Words(es) => DataIsWorth(es, 2, symbols, at, |es|);
      case _ =>
    }
    hide InsnBytes, DataBytes, DataValue, EvalExpr, DataWorth;
  }

  // ----- in memory -----

  /** Memory from `at` on. */
  function Span(ram: Ram, at: int, n: nat): (bs: seq<Byte>)
    ensures |bs| == n
  {
    seq<Byte>(n, i => At(ram, at + i))
  }

  lemma HeldIs(ram: Ram, at: int, bs: seq<Byte>)
    requires BranchCode.Holds(ram, at, bs)
    ensures Span(ram, at, |bs|) == bs
  {
    hide At;
  }

  /** The statement's bytes are what memory holds at its address. */
  lemma StatementInMemory(p: Program, modes: Modes, i: nat, ram: Ram)
    requires Assembled(p, modes, ram) && i < |p.stmts|
    ensures WellFormed(p) && |modes| == |p.stmts|
    ensures var e := StatementBytes(p.table, p.stmts[i], modes[i], LayoutOf(p, modes).symbols, AddressOf(p, modes, i));
      e.ok && Span(ram, AddressOf(p, modes, i), |e.bytes|) == e.bytes && |e.bytes| == Reserved(p, modes, i)
  {
    hide *;
    AssembledFacts(p, modes, ram);
    RegularParts(p);
    StatementLoaded(p, modes, i, ram);
    StatementAddress(p, modes, i);
    BytesAtIs(p, modes, LayoutOf(p, modes), i);
    HeldIs(ram, AddressOf(p, modes, i), BytesAt(p, modes, LayoutOf(p, modes), i).bytes);
  }

  lemma BytesAtIs(p: Program, modes: Modes, l: Layout, i: nat)
    requires |modes| == |l.address| == |p.stmts| && i < |p.stmts|
    ensures BytesAt(p, modes, l, i) == StatementBytes(p.table, p.stmts[i], modes[i], l.symbols, l.address[i])
  {
    hide StatementBytes;
  }

  /** After an assembly without errors the processor finds at an instruction's address the opcode of its encoding, and
      after it an operand worth its value. */
  lemma InstructionInMemory(p: Program, modes: Modes, i: nat, ram: Ram)
    requires Assembled(p, modes, ram) && i < |p.stmts| && p.stmts[i].body.Insn?
    ensures WellFormed(p) && |modes| == |p.stmts|
    ensures var b, mode, at := p.stmts[i].body, modes[i], AddressOf(p, modes, i);
      && (mode != RelLong ==> IsOpcode(p.table, b.op, mode, At(ram, at)))
      && (OperandSize(mode) > 0 ==>
            && b.operand.Some?
            && var pc := at + ModeSize(mode) - OperandSize(mode);
               var v := EvalExpr(b.operand.value, LayoutOf(p, modes).symbols, pc);
               v.Ok? && HasRoom(mode, v.value, pc) && Worth(mode, Span(ram, pc, OperandSize(mode)), v.value, pc))
  {
    hide *;
    StatementInMemory(p, modes, i, ram);
    InsnOf(p.table, p.stmts[i], modes[i], LayoutOf(p, modes).symbols, AddressOf(p, modes, i), ram);
  }

  lemma InsnOf(table: Table, s: Stmt, mode: EmitMode, symbols: Symbols, at: int, ram: Ram)
    requires s.body.Insn?
    requires var e := StatementBytes(table, s, mode, symbols, at); e.ok && Span(ram, at, |e.bytes|) == e.bytes
    ensures mode != RelLong ==> IsOpcode(table, s.body.op, mode, At(ram, at))
    ensures OperandSize(mode) > 0 ==>
      && s.body.operand.Some?
      && var pc := at + ModeSize(mode) - OperandSize(mode);
         var v := EvalExpr(s.body.operand.value, symbols, pc);
         v.Ok? && HasRoom(mode, v.value, pc) && Worth(mode, Span(ram, pc, OperandSize(mode)), v.value, pc)
  {
    var op, operand := s.body.op, s.body.operand;
    var bs := InsnBytes(table, op, operand, mode, symbols, at).bytes;
    hide EvalExpr, At, OperandBytes, HasRoom, Worth, IsOpcode, HeadBytes, HasOpcode, ModeSize;
    HeadIs(table, op, mode);
    InsnIsAccepted(table, op, operand, mode, symbols, at);
    InsnLength(table, op, operand, mode, symbols, at);
    InsnStarts(table, op, operand, mode, symbols, at);
    if mode != RelLong { assert Span(ram, at, |bs|)[0] == At(ram, at); }
    if OperandSize(mode) > 0 {
      InsnEndsInOperand(table, op, operand, mode, symbols, at);
      SpanSplit(ram, at, ModeSize(mode) - OperandSize(mode), OperandSize(mode));
    }
  }

  lemma InsnStarts(table: Table, op: Opcode, operand: Option<Expr>, mode: EmitMode, symbols: Symbols, at: int)
    requires InsnBytes(table, op, operand, mode, symbols, at).ok
    ensures HeadBytes(table, op, mode).bytes <= InsnBytes(table, op, operand, mode, symbols, at).bytes
    ensures ModeSize(mode) >= OperandSize(mode) + 1
  {
    hide EvalExpr, HeadBytes, OperandBytes;
  }

  lemma SpanSplit(ram: Ram, at: int, m: nat, n: nat)
    ensures Span(ram, at, m + n)[m..] == Span(ram, at + m, n)
  {
    hide At;
  }

  /** An operand that is a label reads as the label's address: in full where it has two bytes, and, where it has one that
      is no displacement, an address in page zero. */
  lemma InstructionReadsLabel(p: Program, modes: Modes, i: nat, t: nat, x: string, ram: Ram)
    requires Assembled(p, modes, ram) && i < |p.stmts| && t < |p.stmts| && LabelAt(p, t, x)
    requires p.stmts[i].body.Insn? && p.stmts[i].body.operand == Some(Ident(x)) && modes[i] != RelLong && modes[i] != Rel
    ensures WellFormed(p) && |modes| == |p.stmts|
    ensures var mode, from, to := modes[i], AddressOf(p, modes, i), AddressOf(p, modes, t);
      && IsOpcode(p.table, p.stmts[i].body.op, mode, At(ram, from))
      && (OperandSize(mode) == 2 ==> Word(Span(ram, from + 1, 2)) == to % 65536)
      && (OperandSize(mode) == 1 ==> At(ram, from + 1) == to)
  {
    hide *;
    InstructionInMemory(p, modes, i, ram);
    AssembledFacts(p, modes, ram);
    LabelEval(p, modes, t, x, AddressOf(p, modes, i) + 1);
    LabelWorth(modes[i], ram, AddressOf(p, modes, i) + 1, AddressOf(p, modes, t));
  }

  lemma LabelWorth(mode: EmitMode, ram: Ram, pc: int, v: nat)
    requires mode != RelLong && mode != Rel
    ensures ModeSize(mode) == OperandSize(mode) + 1
    ensures OperandSize(mode) > 0 && HasRoom(mode, v, pc) && Worth(mode, Span(ram, pc, OperandSize(mode)), v, pc) ==>
      && (OperandSize(mode) == 2 ==> Word(Span(ram, pc, 2)) == v % 65536)
      && (OperandSize(mode) == 1 ==> At(ram, pc) == v)
  {
    hide At;
    if OperandSize(mode) == 1 { assert Span(ram, pc, 1)[0] == At(ram, pc + 0); }
  }

  /** And the processor finds the data. */
  lemma DataInMemory(p: Program, modes: Modes, i: nat, ram: Ram)
    requires Assembled(p, modes, ram) && i < |p.stmts|
    ensures WellFormed(p) && |modes| == |p.stmts|
    ensures Stands(p.stmts[i], LayoutOf(p, modes).symbols, AddressOf(p, modes, i),
                   Span(ram, AddressOf(p, modes, i), Reserved(p, modes, i)))
  {
    hide *;
    StatementInMemory(p, modes, i, ram);
    StatementStands(p.table, p.stmts[i], modes[i], LayoutOf(p, modes).symbols, AddressOf(p, modes, i));
  }

  /** No byte is the opcode of two instructions. */
  ghost predicate OneMeaning(table: Table) {
    forall a, b :: a in table && b in table && table[a] == table[b] ==> a == b
  }

  /** With such a table what is at an instruction's address tells its mnemonic and its encoding. */
  lemma Disassembles(p: Program, modes: Modes, i: nat, ram: Ram, name: string, other: (string, EmitMode))
    requires Assembled(p, modes, ram) && OneMeaning(p.table) && i < |p.stmts|
    requires p.stmts[i].body.Insn? && p.stmts[i].body.op == Opcode.Named(name)
    requires other in p.table
    ensures WellFormed(p) && |modes| == |p.stmts|
    ensures modes[i] != RelLong ==> (p.table[other] == At(ram, AddressOf(p, modes, i)) <==> other == (name, modes[i]))
  {
    hide Assembled, WellFormed, At, AddressOf, LayoutOf, EvalExpr, HasRoom, Worth;
    InstructionInMemory(p, modes, i, ram);
  }
}
