/** What assembly lines mean: a small-step semantics for the instructions the peephole pass knows,
    on the lines a set of keep marks leaves in place. */
module PeepholeMachine {
  import opened Basics
  import opened Peephole

  type Memory = map<int, Byte>

  /** Everything observable except the N and Z flags and the program counter. */
  datatype Core = Core(a: Byte, x: Byte, y: Byte, c: bool, stk: seq<Byte>, mem: Memory)

  /** What the lines leave open: immediate values, where the compiler's zero-page names and all other
      operands live, the arithmetic, and what a called routine does (it may not read N or Z). */
  datatype Env = Env(imm: string -> Byte, zp: string -> int, address: (string, Core) -> int,
                     alu: (string, Byte, Byte, bool) -> (Byte, bool), call: (string, Core) -> (Core, Byte))

  datatype Exit = FellOff | Returned | Left(target: string)

  /** nz is the byte N and Z were last set from. */
  datatype Config = Running(pc: nat, core: Core, nz: Byte) | Done(exit: Exit, core: Core)

  function Load(mem: Memory, address: int): Byte {
    if address in mem then mem[address] else 0
  }

  function Name(operand: Option<string>): string {
    if operand.Some? then operand.value else ""
  }

  function Address(env: Env, operand: string, core: Core): int {
    if IsCompilerZp(operand) then env.zp(operand) else env.address(operand, core)
  }

  function OperandValue(env: Env, operand: string, core: Core): Byte {
    if IsImmediate(operand) then env.imm(operand) else Load(core.mem, Address(env, operand, core))
  }

  predicate IsArithmetic(m: string) {
    m == "adc" || m == "and" || m == "eor" || m == "ora" || m == "sbc"
  }

  predicate IsLoad(m: string) {
    m == "lda" || m == "ldx" || m == "ldy"
  }

  /** An instruction that neither jumps nor returns: new core and the byte N and Z now reflect. */
  function Execute(env: Env, m: string, operand: Option<string>, core: Core, nz: Byte): (Core, Byte) {
    var v := OperandValue(env, Name(operand), core);
    if m == "lda" then (core.(a := v), v)
    else if m == "ldx" then (core.(x := v), v)
    else if m == "ldy" then (core.(y := v), v)
    else if m == "sta" then (core.(mem := core.mem[Address(env, Name(operand), core) := core.a]), nz)
    else if IsArithmetic(m) then
      var (r, carry) := env.alu(m, core.a, v, core.c);
      (core.(a := r, c := carry), r)
    else if m == "cmp" then
      var (r, carry) := env.alu(m, core.a, v, core.c);
      (core.(c := carry), r)
    else if m == "pha" then (core.(stk := core.stk + [core.a]), nz)
    else if m == "pla" then
      var top: Byte := if core.stk == [] then 0 else core.stk[|core.stk| - 1];
      (core.(a := top, stk := if core.stk == [] then [] else core.stk[..|core.stk| - 1]), top)
    else if m == "iny" then
      var r: Byte := (core.y + 1) % 256;
      (core.(y := r), r)
    else if m == "dex" then
      var r: Byte := (core.x + 255) % 256;
      (core.(x := r), r)
    else if m == "clc" then (core.(c := false), nz)
    else if m == "sec" then (core.(c := true), nz)
    else if m == "jsr" then env.call(Name(operand), core)
    else (core, nz)
  }

  // ----- labels -----

  /** Labels starting with @ are local to the last other label before them. */
  predicate IsLocal(name: string) {
    |name| > 0 && name[0] == '@'
  }

  function Scope(lines: seq<Line>, i: nat): Option<string>
    requires i < |lines|
  {
    if lines[i].Label? && !IsLocal(lines[i].name) then Some(lines[i].name)
    else if i == 0 then None else Scope(lines, i - 1)
  }

  predicate Names(lines: seq<Line>, from: nat, name: string, i: nat)
    requires from < |lines| && i < |lines|
  {
    lines[i].Label? && lines[i].name == name && (IsLocal(name) ==> Scope(lines, i) == Scope(lines, from))
  }

  /** The first line from `start` on that `name`, used at line `from`, refers to; |lines| if none. */
  function FindLabel(lines: seq<Line>, from: nat, name: string, start: nat): (i: nat)
    requires from < |lines| && start <= |lines|
    ensures start <= i <= |lines| && (i < |lines| ==> Names(lines, from, name, i))
    decreases |lines| - start
  {
    if start == |lines| || Names(lines, from, name, start) then start else FindLabel(lines, from, name, start + 1)
  }

  /** No label is declared twice in one scope; the assembler rejects anything else. */
  ghost predicate UniqueLabels(lines: seq<Line>) {
    forall i, j :: 0 <= i < |lines| && 0 <= j < |lines| && lines[j].Label? && Names(lines, j, lines[j].name, i) ==> i == j
  }

  // ----- running -----

  /** The first kept instruction from pc on. */
  function Fetch(lines: seq<Line>, keep: seq<bool>, pc: nat): (i: nat)
    requires |keep| == |lines| && pc <= |lines|
    ensures pc <= i <= |lines| && (i < |lines| ==> keep[i] && lines[i].Insn?)
    decreases |lines| - pc
  {
    if pc == |lines| || (keep[pc] && lines[pc].Insn?) then pc else Fetch(lines, keep, pc + 1)
  }

  function Jump(lines: seq<Line>, from: nat, name: string, core: Core, nz: Byte): Config
    requires from < |lines|
  {
    var j := FindLabel(lines, from, name, 0);
    if j < |lines| then Running(j, core, nz) else Done(Left(name), core)
  }

  /** Line i, an instruction, is executed. */
  function Act(env: Env, lines: seq<Line>, i: nat, core: Core, nz: Byte): (r: Config)
    requires i < |lines| && lines[i].Insn?
    ensures r.Running? ==> r.pc <= |lines|
  {
    var m := lines[i].mnemonic;
    var name := Name(lines[i].operand);
    if m == "jmp" || (m == "beq" && nz == 0) || (m == "bne" && nz != 0) then Jump(lines, i, name, core, nz)
    else if m == "rts" then Done(Returned, core)
    else if m == "beq" || m == "bne" then Running(i + 1, core, nz)
    else
      var (core', nz') := Execute(env, m, lines[i].operand, core, nz);
      Running(i + 1, core', nz')
  }

  predicate InCode(lines: seq<Line>, s: Config) {
    s.Running? ==> s.pc <= |lines|
  }

  function Step(env: Env, lines: seq<Line>, keep: seq<bool>, s: Config): (r: Config)
    requires |keep| == |lines| && InCode(lines, s)
    ensures InCode(lines, r)
  {
    if s.Done? then s
    else
      var i := Fetch(lines, keep, s.pc);
      if i == |lines| then Done(FellOff, s.core) else Act(env, lines, i, s.core, s.nz)
  }

  function Run(env: Env, lines: seq<Line>, keep: seq<bool>, s: Config, n: nat): (r: Config)
    requires |keep| == |lines| && InCode(lines, s)
    ensures InCode(lines, r)
  {
    if n == 0 then s else Step(env, lines, keep, Run(env, lines, keep, s, n - 1))
  }

  /** The same registers, carry, stack and memory, and the same exit if stopped. */
  predicate Same(s: Config, t: Config) {
    s.core == t.core && (s.Done? <==> t.Done?) && (s.Done? ==> s.exit == t.exit)
  }
}
