/** Which encodings belong to an operand as it is written, which of them an instruction starts with, and which it may end
    with. */
module AsmShape {
  import opened Basics
  import opened AsmOpcode
  import opened AsmExpr
  import opened AsmLayout
  import opened AsmRelax
  import opened Assembler

  /** How the operand of an encoding is written. */
  function ShapeOf(mode: EmitMode): AddrMode {
    match mode
    case Implied => AmImplied
    case Accumulator => AmAccumulator
    case Immediate => AmImmediate
    case Zp | Abs => AmZpOrAbs
    case ZpX | AbsX => AmZpXOrAbsX
    case ZpY | AbsY => AmZpYOrAbsY
    case Ind => AmIndirect
    case IndX => AmIndexedIndirect
    case IndY => AmIndirectIndexed
    case Rel | RelLong => AmRelative
  }

  /** A plain address, or one with an index: it may be meant to lie in page zero or not. */
  predicate IsAddress(shape: AddrMode) {
    shape in {AmZpOrAbs, AmZpXOrAbsX, AmZpYOrAbsY}
  }

  /** The table knows the instruction in an encoding of this shape and size. */
  ghost predicate Registered(table: Table, op: Opcode, shape: AddrMode, size: nat) {
    exists m :: ShapeOf(m) == shape && ModeSize(m) == size && Lookup(table, op, m).Some?
  }

  /** Without a specifier an instruction starts in an encoding of its written shape. An address starts in three bytes
      wherever that encoding is registered, otherwise in two, a branch by name in its long form. There is no encoding only
      for an address in no registered encoding, or of a raw opcode. */
  lemma StartsInShape(table: Table, op: Opcode, parsed: AddrMode)
    ensures var shape := Normalize(op, parsed);
      match InitialMode(table, op, SpecNone, parsed)
      case Some(m) =>
        && ShapeOf(m) == shape
        && (IsAddress(shape) ==> op.Named? && Lookup(table, op, m).Some? && (ModeSize(m) == 3 <==> Registered(table, op, shape, 3)))
        && (shape == AmRelative ==> (m == RelLong <==> op.Named? && IsBranchName(op.name)))
      case None => IsAddress(shape) && (op.RawByte? || !(Registered(table, op, shape, 2) || Registered(table, op, shape, 3)))
  {
    hide Lookup, IsBranchName, Normalize;
    var shape, r := Normalize(op, parsed), InitialMode(table, op, SpecNone, parsed);
    if IsAddress(shape) {
      AddressForms(table, op, shape);
      if r.Some? { assert Lookup(table, op, r.value).Some?; }
    }
  }

  /** An address has one encoding of each size. */
  lemma AddressForms(table: Table, op: Opcode, shape: AddrMode)
    requires IsAddress(shape)
    ensures var (narrow, wide) := match shape case AmZpOrAbs => (Zp, Abs) case AmZpXOrAbsX => (ZpX, AbsX) case _ => (ZpY, AbsY);
      && (Registered(table, op, shape, 2) <==> Lookup(table, op, narrow).Some?)
      && (Registered(table, op, shape, 3) <==> Lookup(table, op, wide).Some?)
  {
    hide Lookup;
    var (narrow, wide) := match shape case AmZpOrAbs => (Zp, Abs) case AmZpXOrAbsX => (ZpX, AbsX) case _ => (ZpY, AbsY);
    assert ShapeOf(narrow) == ShapeOf(wide) == shape && ModeSize(narrow) == 2 && ModeSize(wide) == 3;
  }

  predicate ForcesZeroPage(spec: ModeSpec) { spec in {SpecZ, SpecZX, SpecZY} }

  predicate ForcesAbsolute(spec: ModeSpec) { spec in {SpecA, SpecAX, SpecAY} }

  predicate ForcesIndirect(spec: ModeSpec) { spec in {SpecI, SpecIX, SpecIY} }

  /** A specifier gives the one encoding of its own: of two bytes in page zero, of three for an absolute address. It goes
      with operands of that encoding's shape; those for indirection also with a plain address. */
  lemma StartsAsSpecified(table: Table, op: Opcode, spec: ModeSpec, parsed: AddrMode)
    requires spec != SpecNone
    ensures var m := SpecMode(spec); var shape := Normalize(op, parsed);
      && InitialMode(table, op, spec, parsed)
           == (if shape == ShapeOf(m) || (ForcesIndirect(spec) && shape == AmZpOrAbs) then Some(m) else None)
      && (ForcesZeroPage(spec) ==> ModeSize(m) == 2) && (ForcesAbsolute(spec) ==> ModeSize(m) == 3)
      && (spec in {SpecZ, SpecA} ==> ShapeOf(m) == AmZpOrAbs)
      && (spec in {SpecZX, SpecAX} ==> ShapeOf(m) == AmZpXOrAbsX)
      && (spec in {SpecZY, SpecAY} ==> ShapeOf(m) == AmZpYOrAbsY)
      && ShapeOf(SpecMode(SpecI)) == AmIndirect && ShapeOf(SpecMode(SpecIX)) == AmIndexedIndirect
      && ShapeOf(SpecMode(SpecIY)) == AmIndirectIndexed
  {
    hide Normalize;
  }

  /** What is reported before anything is placed: without a specifier an address in no registered encoding, or of a raw
      opcode; with one, an operand of another shape. */
  lemma IllegalIff(p: Program, s: Stmt)
    ensures IsIllegal(p, s) <==>
      && s.body.Insn?
      && var shape := Normalize(s.body.op, s.body.parsed);
        if s.body.spec == SpecNone then
          IsAddress(shape) && (s.body.op.RawByte? || !(Registered(p.table, s.body.op, shape, 2) || Registered(p.table, s.body.op, shape, 3)))
        else
          shape != ShapeOf(SpecMode(s.body.spec)) && !(ForcesIndirect(s.body.spec) && shape == AmZpOrAbs)
  {
    hide Lookup, Normalize;
    if s.body.Insn? && s.body.spec == SpecNone {
      StartsInShape(p.table, s.body.op, s.body.parsed);
      var r := InitialMode(p.table, s.body.op, s.body.spec, s.body.parsed);
      if r.Some? && IsAddress(ShapeOf(r.value)) { assert Registered(p.table, s.body.op, ShapeOf(r.value), ModeSize(r.value)); }
    }
  }

  /** The parser's view is changed for branches alone, whose address is a target, and for shifts without an operand, which
      work on the accumulator. */
  lemma NormalizeOnly(op: Opcode, parsed: AddrMode)
    ensures var branch := match op case Named(name) => InvertBranch(name).Some? case RawByte(code) => code % 32 == 16;
      var shift := match op case Named(name) => name in {"ASL", "LSR", "ROL", "ROR"} case RawByte(code) => code < 128 && code % 32 == 10;
      Normalize(op, parsed) ==
        if branch && parsed == AmZpOrAbs then AmRelative else if shift && parsed == AmImplied then AmAccumulator else parsed
  {
  }

  /** Shrinking keeps the shape of every operand, and every encoding a run ends in is one that is registered if the one it
      started in was. */
  lemma NarrowKeepsShape(narrow: EmitMode, wide: EmitMode)
    requires AtMost(narrow, wide)
    ensures ShapeOf(narrow) == ShapeOf(wide)
    ensures narrow != wide ==> ModeSize(narrow) == 2 && 2 < ModeSize(wide)
  {
  }

  lemma {:induction false} SpecifiedStays(p: Program, n: nat, i: nat)
    requires WellFormed(p) && i < |p.stmts| && p.stmts[i].body.Insn? && p.stmts[i].body.spec != SpecNone
    ensures Batch(p, n)[i] == InitialModeOf(p, p.stmts[i])
  {
    hide LayoutOf, EvalExpr, Lookup, Normalize;
    if n > 0 {
      SpecifiedStays(p, n - 1, i);
      assert Batch(p, n)[i] == RelaxedAt(p, Batch(p, n - 1), Batch(p, n - 1)[i], i);
    } else {
      assert InitialModes(p)[i] == InitialModeOf(p, p.stmts[i]);
    }
  }

  /** However many sweeps are made, an operand stays in its shape, and an encoding of a specifier what it is. */
  lemma {:induction false} BatchKeepsShape(p: Program, n: nat, i: nat)
    requires WellFormed(p) && i < |p.stmts|
    ensures ShapeOf(Batch(p, n)[i]) == ShapeOf(InitialModeOf(p, p.stmts[i]))
    ensures p.stmts[i].body.Insn? && InitialMode(p.table, p.stmts[i].body.op, p.stmts[i].body.spec, p.stmts[i].body.parsed).Some? ==>
      p.stmts[i].body.spec == SpecNone ==> ShapeOf(Batch(p, n)[i]) == Normalize(p.stmts[i].body.op, p.stmts[i].body.parsed)
    ensures p.stmts[i].body.Insn? && p.stmts[i].body.spec != SpecNone ==> Batch(p, n)[i] == InitialModeOf(p, p.stmts[i])
  {
    var s := p.stmts[i];
    BatchDescends(p, n);
    BelowAt(Batch(p, n), InitialModes(p), i);
    NarrowKeepsShape(Batch(p, n)[i], InitialModes(p)[i]);
    hide Normalize, InitialMode, Lookup;
    if s.body.Insn? && s.body.spec == SpecNone { StartsInShape(p.table, s.body.op, s.body.parsed); }
    if s.body.Insn? && s.body.spec != SpecNone { SpecifiedStays(p, n, i); }
  }

  // ----- when nothing more may shrink -----

  /** The operand is known to lie in page zero: by its value, or by being an import declared to. */
  ghost predicate InPageZero(p: Program, e: Expr, symbols: Symbols, at: int) {
    var v := EvalExpr(e, symbols, at);
    if v.Ok? then 0 <= v.value < 256 else e.Ident? && e.name in p.zpImports
  }

  /** A long branch whose target is in reach of the short one, or an address of three bytes without a specifier that lies
      in page zero and is registered in two. */
  ghost predicate MayShrink(p: Program, s: Stmt, mode: EmitMode, symbols: Symbols, at: int) {
    && s.body.Insn? && s.body.operand.Some?
    && (|| (mode == RelLong
            && var v := EvalExpr(s.body.operand.value, symbols, at + 1); v.Ok? && -128 <= v.value - (at + 2) < 128)
        || (s.body.spec == SpecNone && IsAddress(ShapeOf(mode)) && ModeSize(mode) == 3
            && Registered(p.table, s.body.op, ShapeOf(mode), 2) && InPageZero(p, s.body.operand.value, symbols, at)))
  }

  /** Looking at a statement changes its encoding exactly then, to the one of two bytes of the same shape. */
  lemma ShrinksIff(p: Program, s: Stmt, mode: EmitMode, symbols: Symbols, at: int)
    ensures var r := Relaxed(p, s, mode, symbols, at);
      && (r != mode <==> MayShrink(p, s, mode, symbols, at))
      && ShapeOf(r) == ShapeOf(mode) && (r != mode ==> ModeSize(r) == 2)
  {
    hide Lookup, EvalExpr;
    if s.body.Insn? && IsAddress(ShapeOf(mode)) { AddressForms(p.table, s.body.op, ShapeOf(mode)); }
    hide Registered;
  }

  /** So encodings are stable exactly when they come from the initial ones by shrinking and no statement may shrink under
      their own layout. */
  lemma StableMeans(p: Program, m: Modes)
    requires WellFormed(p) && |m| == |p.stmts|
    ensures Stable(p, m) <==>
      && Below(m, InitialModes(p))
      && forall i :: 0 <= i < |m| ==> !MayShrink(p, p.stmts[i], m[i], LayoutOf(p, m).symbols, LayoutOf(p, m).address[i])
  {
    hide Relaxed, MayShrink, Below, LayoutOf;
    forall i | 0 <= i < |m|
      ensures RelaxedAt(p, m, m[i], i) == m[i] <==> !MayShrink(p, p.stmts[i], m[i], LayoutOf(p, m).symbols, LayoutOf(p, m).address[i])
    {
      ShrinksIff(p, p.stmts[i], m[i], LayoutOf(p, m).symbols, LayoutOf(p, m).address[i]);
    }
  }
}
