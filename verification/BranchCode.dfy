/** What the processor does with the bytes of a conditional branch. */
module BranchCode {
  import opened Basics
  import opened AsmOpcode
  import TwosComplement
  import opened AsmExpr
  import opened AsmConstants
  import opened AsmLayout
  import opened AsmStable
  import opened AsmRelax
  import opened AsmEmit
  import opened AsmImage

  // ----- the processor -----

  datatype Flags = Flags(n: bool, v: bool, c: bool, z: bool)

  /** The condition a branch mnemonic stands for. */
  predicate Condition(name: string, f: Flags)
    requires IsBranchName(name)
  {
    if name == "BCC" then !f.c else if name == "BCS" then f.c
    else if name == "BEQ" then f.z else if name == "BNE" then !f.z
    else if name == "BMI" then f.n else if name == "BPL" then !f.n
    else if name == "BVC" then !f.v else f.v
  }

  /** Branch opcodes: the top two bits choose the flag, the next one the value it must have. */
  predicate IsBranchCode(code: Byte) {
    code % 32 == 16
  }

  predicate Taken(code: Byte, f: Flags)
    requires IsBranchCode(code)
  {
    var flag := if code / 64 == 0 then f.n else if code / 64 == 1 then f.v else if code / 64 == 2 then f.c else f.z;
    flag == (code / 32 % 2 == 1)
  }

  function Signed(b: Byte): int {
    if b < 128 then b else b - 256
  }

  type Ram = m: seq<Byte> | |m| == 65536 witness seq(65536, _ => 0)

  function At(ram: Ram, a: int): Byte {
    ram[a % 65536]
  }

  /** One instruction, when it is a branch or an absolute jump. */
  function Step(ram: Ram, pc: int, f: Flags): Option<int> {
    var code := At(ram, pc);
    if IsBranchCode(code) then Some((pc + 2 + (if Taken(code, f) then Signed(At(ram, pc + 1)) else 0)) % 65536)
    else if code == 0x4C then Some(At(ram, pc + 1) as int + 256 * At(ram, pc + 2))
    else None
  }

  /** Control passes from one address to another in one or two such instructions. */
  ghost predicate Goes(ram: Ram, from: int, to: int, f: Flags) {
    Step(ram, from, f) == Some(to) || (Step(ram, from, f).Some? && Step(ram, Step(ram, from, f).value, f) == Some(to))
  }

  // ----- the table -----

  function BranchOpcode(name: string): Byte
    requires IsBranchName(name)
  {
    if name == "BCC" then 0x90 else if name == "BCS" then 0xB0
    else if name == "BEQ" then 0xF0 else if name == "BMI" then 0x30
    else if name == "BNE" then 0xD0 else if name == "BPL" then 0x10
    else if name == "BVC" then 0x50 else 0x70
  }

  /** The registered opcodes are those of the 6502 for branches and for JMP. */
  ghost predicate Standard(table: Table) {
    && (forall name :: IsBranchName(name) && (name, Rel) in table ==> table[(name, Rel)] == BranchOpcode(name))
    && (("JMP", Abs) in table ==> table[("JMP", Abs)] == 0x4C)
  }

  lemma OpcodeMeansCondition(name: string, f: Flags)
    requires IsBranchName(name)
    ensures IsBranchCode(BranchOpcode(name)) && Taken(BranchOpcode(name), f) == Condition(name, f)
  {
  }

  /** The inverted opcode branches exactly when the mnemonic's condition fails. */
  lemma InverseMeansOpposite(name: string, f: Flags)
    requires IsBranchName(name)
    ensures InvertBranch(name).Some?
    ensures var code := InvertBranch(name).value; IsBranchCode(code) && Taken(code, f) == !Condition(name, f)
  {
  }

  ghost predicate Holds(ram: Ram, at: int, bs: seq<Byte>) {
    forall k :: 0 <= k < |bs| ==> At(ram, at + k) == bs[k]
  }

  // ----- both encodings go to the right place -----

  lemma ShortBranch(ram: Ram, at: int, code: Byte, v: int, f: Flags)
    requires IsBranchCode(code) && -128 <= v - (at + 2) <= 127
    requires Holds(ram, at, [code, (v - (at + 2)) % 256])
    ensures Step(ram, at, f) == Some(if Taken(code, f) then v % 65536 else (at + 2) % 65536)
  {
    var bs: seq<Byte> := [code, (v - (at + 2)) % 256];
    assert At(ram, at + 0) == bs[0] && At(ram, at + 1) == bs[1];
  }

  lemma LongBranch(ram: Ram, at: int, code: Byte, v: int, f: Flags)
    requires IsBranchCode(code) && Holds(ram, at, [code, 3, 0x4C] + LoHi(v))
    ensures Goes(ram, at, if Taken(code, f) then (at + 5) % 65536 else v % 65536, f)
  {
    var bs := [code, 3, 0x4C] + LoHi(v);
    assert At(ram, at + 0) == bs[0] && At(ram, at + 1) == bs[1] && At(ram, at + 2) == bs[2];
    assert At(ram, at + 3) == bs[3] && At(ram, at + 4) == bs[4];
    var next := (at + 2) % 65536;
    if !Taken(code, f) {
      Around(at, 0);
      Around(at, 1);
      Around(at, 2);
      assert At(ram, next) == At(ram, at + 2) && At(ram, next + 1) == At(ram, at + 3) && At(ram, next + 2) == At(ram, at + 4);
      TwosComplement.LowHigh(v);
    }
  }

  lemma Around(at: int, k: int)
    ensures ((at + 2) % 65536 + k) % 65536 == (at + 2 + k) % 65536
  {
  }

  /** The bytes of a named branch, short or long, lead to its operand's value when the condition holds and to
      the byte after them otherwise. */
  lemma BranchGoesRight(table: Table, name: string, e: Expr, mode: EmitMode, symbols: Symbols, at: int, v: int,
                        ram: Ram, f: Flags)
    requires IsBranchName(name) && Standard(table) && (mode == Rel || mode == RelLong)
    requires forall pc :: EvalExpr(e, symbols, pc) == Ok(v)
    requires var b := InsnBytes(table, Opcode.Named(name), Some(e), mode, symbols, at); b.ok && Holds(ram, at, b.bytes)
    ensures Goes(ram, at, (if Condition(name, f) then v else at + ModeSize(mode)) % 65536, f)
  {
    hide *;
    OpcodeMeansCondition(name, f);
    InverseMeansOpposite(name, f);
    BranchShape(table, name, e, mode, symbols, at, v);
    if mode == Rel {
      ShortBranch(ram, at, BranchOpcode(name), v, f);
      GoesInOne(ram, at, if Condition(name, f) then v % 65536 else (at + 2) % 65536, f);
    } else {
      LongBranch(ram, at, InvertBranch(name).value, v, f);
    }
    BranchSizes();
  }

  lemma GoesInOne(ram: Ram, from: int, to: int, f: Flags)
    requires Step(ram, from, f) == Some(to)
    ensures Goes(ram, from, to, f)
  {
  }

  lemma BranchSizes()
    ensures ModeSize(Rel) == 2 && ModeSize(RelLong) == 5
  {
  }

  lemma BranchShape(table: Table, name: string, e: Expr, mode: EmitMode, symbols: Symbols, at: int, v: int)
    requires IsBranchName(name) && Standard(table) && InvertBranch(name).Some?
    requires forall pc :: EvalExpr(e, symbols, pc) == Ok(v)
    requires InsnBytes(table, Opcode.Named(name), Some(e), mode, symbols, at).ok
    ensures var b := InsnBytes(table, Opcode.Named(name), Some(e), mode, symbols, at).bytes;
      && (mode == Rel ==> -128 <= v - (at + 2) <= 127 && b == [BranchOpcode(name), (v - (at + 2)) % 256])
      && (mode == RelLong ==> b == [InvertBranch(name).value, 3, 0x4C] + LoHi(v))
  {
    hide EvalExpr, BranchOpcode, InvertBranch, IsBranchName;
    assert EvalExpr(e, symbols, at + 1) == Ok(v);
    assert EvalExpr(e, symbols, at + 3) == Ok(v);
  }

  // ----- in the finished image -----

  /** Memory loaded with the image. */
  ghost predicate Loaded(ram: Ram, m: Memory) {
    forall a :: a in m ==> At(ram, a) == m[a]
  }

  /** Two passes without errors, over segments that do not overlap, whose image is loaded in memory. */
  ghost predicate Assembled(p: Program, modes: Modes, ram: Ram) {
    && Clean(p, modes) && SegmentsApart(p, modes)
    && FailuresTo(p, modes, LayoutOf(p, modes), |p.stmts|) == 0
    && Loaded(ram, ImageTo(p, modes, LayoutOf(p, modes), |p.stmts|))
  }

  lemma AssembledFacts(p: Program, modes: Modes, ram: Ram)
    requires Assembled(p, modes, ram)
    ensures Clean(p, modes) && Regular(p) && WellFormed(p) && |modes| == |p.stmts| == |LayoutOf(p, modes).address|
  {
    CleanIsRegular(p, modes);
    hide PlaceTo, Sweeps, Distinct;
  }

  lemma StatementWritten(p: Program, modes: Modes, i: nat, ram: Ram)
    requires Assembled(p, modes, ram) && i < |p.stmts|
    ensures var b := BytesAt(p, modes, LayoutOf(p, modes), i); b.ok && |b.bytes| == Reserved(p, modes, i)
  {
    var l := LayoutOf(p, modes);
    hide LayoutOf, ImageTo, SegmentsApart, FailuresTo, Reserved, StatementBytes, Loaded;
    NoFailure(p, modes, l, i, |p.stmts|);
    WritesWhatWasReserved(p, modes, i);
  }

  lemma ByteLoaded(p: Program, modes: Modes, i: nat, ram: Ram, k: nat)
    requires Assembled(p, modes, ram) && i < |p.stmts| && k < Reserved(p, modes, i)
    ensures k < |BytesAt(p, modes, LayoutOf(p, modes), i).bytes|
    ensures At(ram, AddressOf(p, modes, i) + k) == BytesAt(p, modes, LayoutOf(p, modes), i).bytes[k]
  {
    hide LayoutOf, ImageTo, Reserved, At, SegmentsApart, BytesAt, FailuresTo, AddressOf;
    var a := AddressOf(p, modes, i) + k;
    ImageIsFaithful(p, modes, modes, |p.stmts|, a);
    StatementWritten(p, modes, i, ram);
    assert Covers(p, modes, i, a);
    assert Shows(p, modes, modes, LayoutOf(p, modes), ImageTo(p, modes, LayoutOf(p, modes), |p.stmts|), i, a);
  }

  /** A statement's bytes are found at its address. */
  lemma StatementLoaded(p: Program, modes: Modes, i: nat, ram: Ram)
    requires Assembled(p, modes, ram) && i < |p.stmts|
    ensures WellFormed(p) && |modes| == |p.stmts| == |LayoutOf(p, modes).address|
    ensures var b := BytesAt(p, modes, LayoutOf(p, modes), i);
      b.ok && |b.bytes| == Reserved(p, modes, i) && Holds(ram, AddressOf(p, modes, i), b.bytes)
  {
    AssembledFacts(p, modes, ram);
    hide Assembled, LayoutOf, Reserved, At, BytesAt, AddressOf, WellFormed, Regular, Clean;
    StatementWritten(p, modes, i, ram);
    forall k | 0 <= k < Reserved(p, modes, i)
      ensures At(ram, AddressOf(p, modes, i) + k) == BytesAt(p, modes, LayoutOf(p, modes), i).bytes[k]
    {
      ByteLoaded(p, modes, i, ram, k);
    }
  }

  /** A branch instruction on a label. */
  ghost predicate IsBranchTo(s: Stmt, name: string, x: string) {
    IsBranchName(name) && s.body.Insn? && s.body.op == Opcode.Named(name) && s.body.operand == Some(Ident(x))
  }

  /** Running a branch in the finished image reaches the label when the condition holds, and the next
      statement's address otherwise, whichever encoding was chosen. */
  lemma BranchReachesLabel(p: Program, modes: Modes, i: nat, t: nat, name: string, x: string, ram: Ram, f: Flags)
    requires Assembled(p, modes, ram) && Standard(p.table) && i < |p.stmts| && t < |p.stmts|
    requires IsBranchTo(p.stmts[i], name, x) && LabelAt(p, t, x) && (modes[i] == Rel || modes[i] == RelLong)
    ensures var from := AddressOf(p, modes, i);
            var to := if Condition(name, f) then AddressOf(p, modes, t) else from + ModeSize(modes[i]);
            Goes(ram, from, to % 65536, f)
  {
    hide *;
    AssembledFacts(p, modes, ram);
    RegularParts(p);
    StatementLoaded(p, modes, i, ram);
    BranchBytes(p, modes, i, name, x);
    BranchIsNamed(p.stmts[i], name, x);
    var symbols, at, v := LayoutOf(p, modes).symbols, AddressOf(p, modes, i), AddressOf(p, modes, t);
    forall pc
      ensures EvalExpr(Ident(x), symbols, pc) == Ok(v)
    {
      LabelEval(p, modes, t, x, pc);
    }
    BranchGoesRight(p.table, name, Ident(x), modes[i], symbols, at, v, ram, f);
  }

  lemma RegularParts(p: Program)
    requires Regular(p)
    ensures WellFormed(p) && NoOrg(p)
  {
  }

  lemma BranchIsNamed(s: Stmt, name: string, x: string)
    requires IsBranchTo(s, name, x)
    ensures IsBranchName(name)
  {
  }

  lemma BranchBytes(p: Program, modes: Modes, i: nat, name: string, x: string)
    requires WellFormed(p) && NoOrg(p) && |modes| == |p.stmts| && i < |p.stmts| && IsBranchTo(p.stmts[i], name, x)
    ensures BytesAt(p, modes, LayoutOf(p, modes), i)
      == InsnBytes(p.table, Opcode.Named(name), Some(Ident(x)), modes[i], LayoutOf(p, modes).symbols,
                   AddressOf(p, modes, i))
  {
    hide LayoutOf, InsnBytes;
    StatementAddress(p, modes, i);
  }
}
