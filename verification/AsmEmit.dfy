/** The bytes each statement stands for, and where the second pass puts them. */
module AsmEmit {
  import opened Basics
  import opened AsmOpcode
  import opened AsmExpr
  import opened AsmLayout
  import opened AsmStable
  import opened AsmRelax

  /** Bytes produced up to the end, or up to an error. */
  datatype Emission = Emission(bytes: seq<Byte>, ok: bool)

  function LoHi(v: int): seq<Byte> {
    [v % 256, v / 256 % 256]
  }

  /** Opcode bytes: one, or for a long branch the opposite branch over a jump. */
  function HeadBytes(table: Table, op: Opcode, mode: EmitMode): Emission {
    if mode == RelLong then
      var inverse := if op.Named? then InvertBranch(op.name) else None;
      var jump := Lookup(table, Opcode.Named("JMP"), Abs);
      if inverse.None? then Emission([], false)
      else if jump.None? then Emission([inverse.value, 3], false)
      else Emission([inverse.value, 3, jump.value], true)
    else
      match Lookup(table, op, mode)
      case None => Emission([], false)
      case Some(code) => Emission([code], true)
  }

  predicate ByteOperand(mode: EmitMode) {
    mode == Zp || mode == ZpX || mode == ZpY || mode == IndX || mode == IndY
  }

  /** Operand bytes for value v, when the byte after the opcode bytes is at pc. */
  function OperandBytes(mode: EmitMode, v: int, pc: int): Emission {
    if mode == Immediate then (if -128 <= v <= 255 then Emission([v % 256], true) else Emission([], false))
    else if ByteOperand(mode) then (if 0 <= v <= 255 then Emission([v % 256], true) else Emission([], false))
    else if mode == Rel then
      (if -128 <= v - (pc + 1) <= 127 then Emission([(v - (pc + 1)) % 256], true) else Emission([], false))
    else Emission(LoHi(v), true)
  }

  function InsnBytes(table: Table, op: Opcode, operand: Option<Expr>, mode: EmitMode, symbols: Symbols,
                     at: int): Emission {
    var head := HeadBytes(table, op, mode);
    if !head.ok || mode == Implied || mode == Accumulator then head
    else if operand.None? then Emission(head.bytes, false)
    else
      match EvalExpr(operand.value, symbols, at + |head.bytes|)
      case Ok(v) =>
        var tail := OperandBytes(mode, v, at + |head.bytes|);
        Emission(head.bytes + tail.bytes, tail.ok)
      case _ => Emission(head.bytes, false)
  }

  /** Data of the first i expressions, `width` bytes each; the value `*` moves along. */
  function DataBytes(es: seq<Expr>, width: nat, symbols: Symbols, at: int, i: nat): Emission
    requires i <= |es| && (width == 1 || width == 2)
  {
    if i == 0 then Emission([], true)
    else
      var before := DataBytes(es, width, symbols, at, i - 1);
      if !before.ok then before
      else
        match EvalExpr(es[i - 1], symbols, at + |before.bytes|)
        case Ok(v) => Emission(before.bytes + LoHi(v)[..width], true)
        case _ => Emission(before.bytes, false)
  }

  function Zeros(n: nat): (z: seq<Byte>)
    ensures |z| == n
  {
    seq(n, _ => 0)
  }

  function StatementBytes(table: Table, s: Stmt, mode: EmitMode, symbols: Symbols, at: int): Emission {
    match s.body
    case Insn(op, _, _, operand) => InsnBytes(table, op, operand, mode, symbols, at)
    case Bytes(es) => DataBytes(es, 1, symbols, at, |es|)
    case Words(es) => DataBytes(es, 2, symbols, at, |es|)
    case Text(bs) => Emission(bs, true)
    case Asciiz(bs) => Emission(bs + [0], true)
    case Res(e) =>
      (match EvalExpr(e, symbols, at)
       case Ok(v) => if v < 0 then Emission([], false) else Emission(Zeros(v), true)
       case _ => Emission([], false))
    case _ => Emission([], true)
  }

  // ----- pass agreement -----

  lemma {:induction false} DataLength(es: seq<Expr>, width: nat, symbols: Symbols, at: int, i: nat)
    requires i <= |es| && (width == 1 || width == 2)
    ensures DataBytes(es, width, symbols, at, i).ok ==> |DataBytes(es, width, symbols, at, i).bytes| == width * i
  {
    if i > 0 { DataLength(es, width, symbols, at, i - 1); }
  }

  /** After a pass without errors, what the second pass writes for a statement without an error, in whichever encoding,
      has the size that pass gives that encoding there. */
  lemma WritesItsSize(p: Program, modes: Modes, mode: EmitMode, i: nat)
    requires Clean(p, modes) && i < |p.stmts|
    requires var l := LayoutOf(p, modes); StatementBytes(p.table, p.stmts[i], mode, l.symbols, l.address[i]).ok
    ensures var l := LayoutOf(p, modes);
      |StatementBytes(p.table, p.stmts[i], mode, l.symbols, l.address[i]).bytes|
        == BodySize(p.stmts[i], mode, KnownAt(p, modes, i), PlacedAt(p, modes, i))
  {
    var s, l := p.stmts[i], LayoutOf(p, modes);
    CleanPlaces(p, modes);
    hide *;
    if s.body.Res? {
      AmountStays(p, modes, i);
      AmountKnown(p, modes, i);
    }
    SizeWritten(p.table, s, mode, l.symbols, l.address[i], KnownAt(p, modes, i), PlacedAt(p, modes, i));
  }

  /** A statement's bytes have its size, if its amount is the same when it is placed and when it is written. */
  lemma SizeWritten(table: Table, s: Stmt, mode: EmitMode, symbols: Symbols, at: int, known: Symbols, placed: int)
    requires StatementBytes(table, s, mode, symbols, at).ok
    requires s.body.Res? ==> EvalExpr(s.body.amount, symbols, at) == EvalExpr(s.body.amount, known, placed)
    ensures |StatementBytes(table, s, mode, symbols, at).bytes| == BodySize(s, mode, known, placed)
  {
    hide EvalExpr, InsnBytes, DataBytes, ModeSize;
    match s.body
    case Insn(op, _, _, operand) => InsnLength(table, op, operand, mode, symbols, at);
    case Bytes(es) => DataLength(es, 1, symbols, at, |es|);
    case Words(es) => DataLength(es, 2, symbols, at, |es|);
    case _ =>
  }

  /** So in the encoding of that pass it has exactly the bytes reserved. */
  lemma WritesWhatWasReserved(p: Program, modes: Modes, i: nat)
    requires Clean(p, modes) && i < |p.stmts|
    requires var l := LayoutOf(p, modes); StatementBytes(p.table, p.stmts[i], modes[i], l.symbols, l.address[i]).ok
    ensures var l := LayoutOf(p, modes);
            |StatementBytes(p.table, p.stmts[i], modes[i], l.symbols, l.address[i]).bytes| == Reserved(p, modes, i)
  {
    hide LayoutOf, StatementBytes, KnownAt, PlacedAt, BodySize;
    WritesItsSize(p, modes, modes[i], i);
  }

  /** The same encodings, some instructions in their narrow form. */
  ghost predicate Shrunk(p: Program, modes: Modes, written: Modes) {
    && |modes| == |p.stmts| && Below(written, modes)
    && forall i :: 0 <= i < |modes| && written[i] != modes[i] ==> p.stmts[i].body.Insn?
  }

  lemma ShrunkLength(p: Program, modes: Modes, written: Modes)
    requires Shrunk(p, modes, written)
    ensures |modes| == |written| == |p.stmts|
  {
  }

  /** In an encoding that shrank after the pass it has at most those, and exactly those only if it did not shrink. */
  lemma WritesLessIfShrunk(p: Program, modes: Modes, written: Modes, i: nat)
    requires Clean(p, modes) && i < |p.stmts| && Shrunk(p, modes, written)
    requires var l := LayoutOf(p, modes); StatementBytes(p.table, p.stmts[i], written[i], l.symbols, l.address[i]).ok
    ensures var l := LayoutOf(p, modes);
      var n := |StatementBytes(p.table, p.stmts[i], written[i], l.symbols, l.address[i]).bytes|;
      n <= Reserved(p, modes, i) && (n == Reserved(p, modes, i) <==> written[i] == modes[i])
  {
    hide LayoutOf, StatementBytes, KnownAt, PlacedAt, EvalExpr, Clean;
    assert AtMost(written[i], modes[i]);
    hide Below;
    WritesItsSize(p, modes, written[i], i);
  }

  lemma InsnLength(table: Table, op: Opcode, operand: Option<Expr>, mode: EmitMode, symbols: Symbols, at: int)
    requires InsnBytes(table, op, operand, mode, symbols, at).ok
    ensures |InsnBytes(table, op, operand, mode, symbols, at).bytes| == ModeSize(mode)
  {
    hide EvalExpr, Lookup, InvertBranch;
  }

  /** Statement i and the offset of one of its bytes. */
  ghost predicate Covers(p: Program, modes: Modes, i: nat, a: int)
    requires WellFormed(p) && |modes| == |p.stmts|
  {
    i < |p.stmts| && AddressOf(p, modes, i) <= a < AddressOf(p, modes, i) + Reserved(p, modes, i)
  }

  /** Later statements of a segment lie wholly above earlier ones. */
  lemma {:induction false} LaterIsAbove(p: Program, modes: Modes, g: string, i: nat, j: nat)
    requires WellFormed(p) && |modes| == |p.stmts| && i < j <= |p.stmts| && p.stmts[i].segment == g
    ensures Offset(p, modes, g, i) + Reserved(p, modes, i) <= Offset(p, modes, g, j)
  {
    hide Reserved;
    if i < j - 1 { LaterIsAbove(p, modes, g, i, j - 1); }
  }

  /** The statements of a segment tile the bytes it uses: each byte belongs to exactly one of them. */
  lemma {:induction false} SegmentIsTiled(p: Program, modes: Modes, g: string, n: nat, a: int) returns (i: nat)
    requires WellFormed(p) && |modes| == |p.stmts| && n <= |p.stmts| && g in p.bases
    requires p.bases[g] <= a < p.bases[g] + Offset(p, modes, g, n)
    ensures i < n && p.stmts[i].segment == g && Covers(p, modes, i, a)
    ensures forall j :: 0 <= j < |p.stmts| && p.stmts[j].segment == g && Covers(p, modes, j, a) ==> j == i
  {
    if a < p.bases[g] + Offset(p, modes, g, n - 1) {
      i := SegmentIsTiled(p, modes, g, n - 1, a);
    } else {
      i := n - 1;
      forall j | 0 <= j < |p.stmts| && p.stmts[j].segment == g && j != i
        ensures !Covers(p, modes, j, a)
      {
        hide Reserved;
        if j < i {
          LaterIsAbove(p, modes, g, j, i);
        } else {
          LaterIsAbove(p, modes, g, i, j);
        }
      }
    }
  }

  // ----- no late surprises -----

  /** A statement a stable run has shrunk cannot fail a range check: once its opcode exists and its operand
      has a value, its bytes are complete. */
  lemma ShrunkStatementsFit(p: Program, ts: seq<Modes>, i: nat)
    requires Plain(p) && Run(p, ts) && i < |p.stmts|
    requires var m := ts[|ts| - 1]; m[i] != InitialModes(p)[i]
    ensures var m := ts[|ts| - 1]; var l := LayoutOf(p, m); var b := p.stmts[i].body;
      && b.Insn? && b.operand.Some?
      && (Lookup(p.table, b.op, m[i]).Some? && EvalExpr(b.operand.value, l.symbols, l.address[i] + 1).Ok?
          ==> StatementBytes(p.table, p.stmts[i], m[i], l.symbols, l.address[i]).ok)
  {
    hide *;
    RunStarts(p, ts);
    var m := ts[|ts| - 1];
    StaleDecisionsHold(p, ts, |ts| - 1, |ts| - 1, i);
    PlainParts(p, i);
    InitialAt(p, i);
    FitsOnceRelaxed(p, m, i, InitialModes(p)[i], LayoutOf(p, m).address[i]);
  }

  lemma PlainParts(p: Program, i: nat)
    requires Plain(p) && i < |p.stmts|
    ensures WellFormed(p) && PlainOperand(p, i)
  {
  }

  lemma FitsOnceRelaxed(p: Program, m: Modes, i: nat, w: EmitMode, at: int)
    requires WellFormed(p) && |m| == |p.stmts| && i < |p.stmts| && PlainOperand(p, i)
    requires w == InitialModeOf(p, p.stmts[i]) && at == LayoutOf(p, m).address[i]
    requires RelaxedAt(p, m, w, i) == m[i] != w
    ensures var l := LayoutOf(p, m); var b := p.stmts[i].body;
      && b.Insn? && b.operand.Some?
      && (Lookup(p.table, b.op, m[i]).Some? && EvalExpr(b.operand.value, l.symbols, at + 1).Ok?
          ==> StatementBytes(p.table, p.stmts[i], m[i], l.symbols, at).ok)
  {
    hide LayoutOf, Lookup, EvalExpr, InitialModeOf, WellFormed;
    var b := p.stmts[i].body;
    if w != RelLong {
      if Sums(p, b.operand.value) { SumsNoPc(p, b.operand.value); }
      PlainValue(p, m, b.operand.value, at);
    }
  }

  lemma {:induction false} SumsNoPc(p: Program, e: Expr)
    requires Sums(p, e)
    ensures NoPc(e)
    decreases e
  {
    if e.Binary? {
      SumsNoPc(p, e.left);
      SumsNoPc(p, e.right);
    }
  }

  lemma RunStarts(p: Program, ts: seq<Modes>)
    requires Run(p, ts)
    ensures WellFormed(p) && ts != [] && ts[0] == InitialModes(p) && forall k :: 0 <= k < |ts| ==> |ts[k]| == |p.stmts|
  {
  }

  lemma InitialAt(p: Program, i: nat)
    requires i < |p.stmts|
    ensures InitialModes(p)[i] == InitialModeOf(p, p.stmts[i])
  {
  }

  /** The value of a plain operand does not depend on where it is evaluated. */
  lemma PlainValue(p: Program, m: Modes, e: Expr, at: int)
    requires WellFormed(p) && |m| == |p.stmts| && NoPc(e)
    ensures EvalExpr(e, LayoutOf(p, m).symbols, at) == EvalExpr(e, LayoutOf(p, m).symbols, at + 1)
  {
    EvalAgree(e, LayoutOf(p, m).symbols, LayoutOf(p, m).symbols, at, at + 1);
  }

  /** When a statement that is shrunk at an address is refused there: a branch never, for want of an opcode apart; any
      other exactly when its operand, evaluated after the opcode, has no value in 0..255. */
  lemma ShrunkRefusedIff(p: Program, s: Stmt, mode: EmitMode, symbols: Symbols, at: int)
    requires s.body.Insn? && s.body.operand.Some? && Relaxed(p, s, mode, symbols, at) != mode
    ensures var narrow := Relaxed(p, s, mode, symbols, at);
      !StatementBytes(p.table, s, narrow, symbols, at).ok <==>
        if narrow == Rel then Lookup(p.table, s.body.op, Rel).None?
        else
          var v := EvalExpr(s.body.operand.value, symbols, at + 1);
          !(v.Ok? && 0 <= v.value <= 255)
  {
    hide EvalExpr, Lookup;
  }

  /** So outside plain programs the decision can be wrong. Shrinking reads `*` as the instruction's address, the second
      pass as the address after its opcode: an operand `* + k` is shrunk exactly when at + k is in page zero, and then
      refused exactly when it is the last byte of it. */
  lemma StarIsReadTwice(p: Program, s: Stmt, mode: EmitMode, symbols: Symbols, at: int, k: int)
    requires s.body.Insn? && s.body.operand == Some(Binary(Add, Pc, Number(k))) && ZeroPageForm(p, s.body, mode).Some?
    ensures var narrow := ZeroPageForm(p, s.body, mode).value;
      && (Relaxed(p, s, mode, symbols, at) == narrow <==> 0 <= at + k <= 255)
      && (Relaxed(p, s, mode, symbols, at) == narrow ==>
           (!StatementBytes(p.table, s, narrow, symbols, at).ok <==> at + k == 255))
  {
    var e := s.body.operand.value;
    assert EvalExpr(e, symbols, at) == Ok(at + k) && EvalExpr(e, symbols, at + 1) == Ok(at + 1 + k) by {
      assert EvalExpr(e.left, symbols, at) == Ok(at) && EvalExpr(e.right, symbols, at) == Ok(k);
      assert EvalExpr(e.left, symbols, at + 1) == Ok(at + 1) && EvalExpr(e.right, symbols, at + 1) == Ok(k);
    }
    hide EvalExpr, StatementBytes;
    if 0 <= at + k <= 255 {
      ShrunkRefusedIff(p, s, mode, symbols, at);
    }
  }
}
