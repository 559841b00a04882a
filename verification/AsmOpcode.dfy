/** Opcodes, addressing modes and their sizes. */
module AsmOpcode {
  import opened Basics

  datatype EmitMode =
    | Implied | Accumulator | Immediate | Zp | ZpX | ZpY | Abs | AbsX | AbsY | Ind | IndX | IndY | Rel | RelLong

  /** The parser's view of an operand, before an encoding is chosen. */
  datatype AddrMode =
    | AmImplied | AmAccumulator | AmImmediate | AmZpOrAbs | AmZpXOrAbsX | AmZpYOrAbsY
    | AmIndirect | AmIndexedIndirect | AmIndirectIndexed | AmRelative

  datatype ModeSpec = SpecNone | SpecZ | SpecZX | SpecZY | SpecA | SpecAX | SpecAY | SpecI | SpecIX | SpecIY

  /** A mnemonic, or a raw opXX token standing for its byte. */
  datatype Opcode = Named(name: string) | RawByte(code: Byte)

  type Table = map<(string, EmitMode), Byte>

  function Lookup(table: Table, op: Opcode, mode: EmitMode): Option<Byte> {
    match op
    case RawByte(code) => if mode != RelLong then Some(code) else None
    case Named(name) => if (name, mode) in table then Some(table[(name, mode)]) else None
  }

  predicate IsBranchName(name: string) {
    || name == "BCC" || name == "BCS" || name == "BEQ" || name == "BMI"
    || name == "BNE" || name == "BPL" || name == "BVC" || name == "BVS"
  }

  /** The opcode byte of the branch on the opposite condition. */
  function InvertBranch(name: string): Option<Byte> {
    if name == "BCC" then Some(0xB0) else if name == "BCS" then Some(0x90)
    else if name == "BEQ" then Some(0xD0) else if name == "BMI" then Some(0x10)
    else if name == "BNE" then Some(0xF0) else if name == "BPL" then Some(0x30)
    else if name == "BVC" then Some(0x70) else if name == "BVS" then Some(0x50)
    else None
  }

  predicate RawIsBranch(code: Byte) {
    code == 0x10 || code == 0x30 || code == 0x50 || code == 0x70 || code == 0x90 || code == 0xB0 || code == 0xD0 || code == 0xF0
  }

  predicate RawIsShift(code: Byte) {
    code == 0x0A || code == 0x2A || code == 0x4A || code == 0x6A
  }

  function ModeSize(mode: EmitMode): nat {
    match mode
    case Implied | Accumulator => 1
    case Immediate | Zp | ZpX | ZpY | IndX | IndY | Rel => 2
    case RelLong => 5
    case Abs | AbsX | AbsY | Ind => 3
  }

  /** Branches take a relative operand; a bare shift works on the accumulator. */
  function Normalize(op: Opcode, mode: AddrMode): AddrMode {
    var branch := match op case Named(name) => IsBranchName(name) case RawByte(code) => RawIsBranch(code);
    var shift := match op
      case Named(name) => name == "ASL" || name == "LSR" || name == "ROL" || name == "ROR"
      case RawByte(code) => RawIsShift(code);
    if branch && mode == AmZpOrAbs then AmRelative
    else if shift && mode == AmImplied then AmAccumulator
    else mode
  }

  predicate AcceptsSpec(mode: AddrMode, spec: ModeSpec) {
    match spec
    case SpecZ | SpecA => mode == AmZpOrAbs
    case SpecZX | SpecAX => mode == AmZpXOrAbsX
    case SpecZY | SpecAY => mode == AmZpYOrAbsY
    case SpecI => mode == AmZpOrAbs || mode == AmIndirect
    case SpecIX => mode == AmZpOrAbs || mode == AmIndexedIndirect
    case SpecIY => mode == AmZpOrAbs || mode == AmIndirectIndexed
    case SpecNone => true
  }

  function SpecMode(spec: ModeSpec): EmitMode
    requires spec != SpecNone
  {
    match spec
    case SpecZ => Zp case SpecZX => ZpX case SpecZY => ZpY
    case SpecA => Abs case SpecAX => AbsX case SpecAY => AbsY
    case SpecI => Ind case SpecIX => IndX case SpecIY => IndY
  }

  function WideOrNarrow(table: Table, op: Opcode, wide: EmitMode, narrow: EmitMode): Option<EmitMode> {
    if op.RawByte? then None
    else if Lookup(table, op, wide).Some? then Some(wide)
    else if Lookup(table, op, narrow).Some? then Some(narrow)
    else None
  }

  /** The encoding an instruction starts with: the widest its operand shape allows. None is an error. */
  function InitialMode(table: Table, op: Opcode, spec: ModeSpec, parsed: AddrMode): Option<EmitMode> {
    var mode := Normalize(op, parsed);
    if spec != SpecNone then
      if AcceptsSpec(mode, spec) then Some(SpecMode(spec)) else None
    else
      match mode
      case AmImplied => Some(Implied)
      case AmAccumulator => Some(Accumulator)
      case AmImmediate => Some(Immediate)
      case AmIndexedIndirect => Some(IndX)
      case AmIndirectIndexed => Some(IndY)
      case AmIndirect => Some(Ind)
      case AmRelative => Some(if op.Named? && IsBranchName(op.name) then RelLong else Rel)
      case AmZpOrAbs => WideOrNarrow(table, op, Abs, Zp)
      case AmZpXOrAbsX => WideOrNarrow(table, op, AbsX, ZpX)
      case AmZpYOrAbsY => WideOrNarrow(table, op, AbsY, ZpY)
  }
}
