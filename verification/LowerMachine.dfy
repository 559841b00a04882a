/** What lowered control flow does when it runs: jumps and labels, the byte stack that temporaries live on,
    and opaque pieces of expression code. */
module LowerMachine {
  import opened Basics
  import opened TwosComplement

  /** Generated labels are told apart by their number; see LowerLabels. */
  datatype Label = Gen(number: nat) | User(name: string) | Fini

  datatype Kind = Kind(signed: bool, big: bool)

  /** The runtime's comparisons of two operands in place. */
  datatype Helper = EqN | LtN(kind: Kind) | LeN(kind: Kind)

  datatype Instr =
    | Mark(label_: Label)
    | Jmp(target: Label)
    | Beq(target: Label)
    | Bne(target: Label)
    | PushN(size: nat)
    | PopN(size: nat)
    | EvalTo(id: nat, offset: nat, size: nat)
    | Effect(id: nat)
    | StoreTo(offset: nat, bytes: seq<Byte>)
    | LdaZero
    | OraSlot(offset: nat)
    | StaArg1
    | LdaArg1
    | Ptr(second: bool, offset: nat)
    | Call(helper: Helper, size: nat)

  /** The expressions evaluated so far, by id. All else that expressions touch is a function of it. */
  type Trace = seq<nat>

  /** What each expression is worth where it is evaluated, and what freshly pushed bytes hold. */
  datatype Env = Env(value: (nat, Trace) -> seq<Byte>, junk: Trace -> seq<Byte>)

  /** Everything but the program counter. The zero flag is that of the last load or or, so of a. */
  datatype Regs = Regs(stack: seq<Byte>, trace: Trace, a: Byte, arg1: Byte, ptr0: nat, ptr1: nat)

  datatype State = State(pc: nat, r: Regs)

  /** The first n bytes, with zeros where there are fewer. */
  function Exactly(bs: seq<Byte>, n: nat): (r: seq<Byte>)
    ensures |r| == n
  {
    seq(n, i requires 0 <= i < n => if i < |bs| then bs[i] else 0)
  }

  function Value(env: Env, id: nat, size: nat, trace: Trace): (v: seq<Byte>)
    ensures |v| == size
  {
    Exactly(env.value(id, trace), size)
  }

  function Write(stack: seq<Byte>, offset: nat, bs: seq<Byte>): (r: seq<Byte>)
    requires offset + |bs| <= |stack|
    ensures |r| == |stack|
  {
    stack[..offset] + bs + stack[offset + |bs|..]
  }

  // ----- numbers -----

  /** Little-endian. */
  function Unsigned(bs: seq<Byte>): (v: nat)
    ensures v < Pow256(|bs|)
  {
    if bs == [] then 0 else bs[0] + 256 * Unsigned(bs[1..])
  }

  function Reverse(bs: seq<Byte>): (r: seq<Byte>)
    ensures |r| == |bs|
  {
    seq(|bs|, i requires 0 <= i < |bs| => bs[|bs| - 1 - i])
  }

  function Decode(kind: Kind, bs: seq<Byte>): int {
    var low := if kind.big then Reverse(bs) else bs;
    var u := Unsigned(low);
    if kind.signed && |low| > 0 && low[|low| - 1] >= 128 then u - Pow256(|low|) else u
  }

  lemma LowestByte(a: Byte, v: int, b: Byte, w: int)
    requires a as int + 256 * v == b as int + 256 * w
    ensures a == b && v == w
  {
  }

  lemma {:induction false} UnsignedInjective(a: seq<Byte>, b: seq<Byte>)
    requires |a| == |b| && Unsigned(a) == Unsigned(b)
    ensures a == b
  {
    if a != [] {
      LowestByte(a[0], Unsigned(a[1..]), b[0], Unsigned(b[1..]));
      UnsignedInjective(a[1..], b[1..]);
      assert a == [a[0]] + a[1..] && b == [b[0]] + b[1..];
    }
  }

  lemma ReverseInjective(a: seq<Byte>, b: seq<Byte>)
    requires |a| == |b| && Reverse(a) == Reverse(b)
    ensures a == b
  {
    forall i | 0 <= i < |a|
      ensures a[i] == b[i]
    {
      assert Reverse(a)[|a| - 1 - i] == a[i] && Reverse(b)[|a| - 1 - i] == b[i];
    }
  }

  /** Comparing bytes for equality compares the numbers they stand for. */
  lemma SameBytesSameNumber(kind: Kind, a: seq<Byte>, b: seq<Byte>)
    requires |a| == |b|
    ensures Decode(kind, a) == Decode(kind, b) <==> a == b
  {
    if Decode(kind, a) == Decode(kind, b) {
      if kind.big {
        UnsignedInjective(Reverse(a), Reverse(b));
        ReverseInjective(a, b);
      } else {
        UnsignedInjective(a, b);
      }
    }
  }

  predicate Compares(h: Helper, a: seq<Byte>, b: seq<Byte>) {
    match h
    case EqN => a == b
    case LtN(kind) => Decode(kind, a) < Decode(kind, b)
    case LeN(kind) => Decode(kind, a) <= Decode(kind, b)
  }

  /** Bitwise or. */
  function Or(a: Byte, b: Byte): (r: Byte)
    ensures r == 0 <==> a == 0 && b == 0
  {
    OrBits(a, b, 8)
  }

  function OrBits(a: nat, b: nat, n: nat): (r: nat)
    requires a < TwoTo(n) && b < TwoTo(n)
    ensures r < TwoTo(n) && (r == 0 <==> a == 0 && b == 0)
    decreases n
  {
    if n == 0 then 0
    else 2 * OrBits(a / 2, b / 2, n - 1) + (if a % 2 == 1 || b % 2 == 1 then 1 else 0)
  }

  function TwoTo(n: nat): nat {
    if n == 0 then 1 else 2 * TwoTo(n - 1)
  }

  // ----- running -----

  function FindMark(code: seq<Instr>, x: Label, from: nat): (i: nat)
    requires from <= |code|
    ensures from <= i <= |code| && (i < |code| ==> code[i] == Mark(x))
    ensures i == |code| ==> forall k :: from <= k < |code| ==> code[k] != Mark(x)
    decreases |code| - from
  {
    if from == |code| || code[from] == Mark(x) then from else FindMark(code, x, from + 1)
  }

  predicate IsJump(i: Instr) {
    i.Jmp? || i.Beq? || i.Bne?
  }

  /** An instruction that does not jump; None if it reaches outside the stack. */
  function Act(env: Env, i: Instr, r: Regs): Option<Regs>
    requires !IsJump(i)
  {
    match i
    case Mark(_) => Some(r)
    case PushN(n) => Some(r.(stack := r.stack + Exactly(env.junk(r.trace), n)))
    case PopN(n) => if n <= |r.stack| then Some(r.(stack := r.stack[..|r.stack| - n])) else None
    case EvalTo(id, offset, size) =>
      if offset + size <= |r.stack|
      then Some(r.(stack := Write(r.stack, offset, Value(env, id, size, r.trace)), trace := r.trace + [id]))
      else None
    case Effect(id) => Some(r.(trace := r.trace + [id]))
    case StoreTo(offset, bs) => if offset + |bs| <= |r.stack| then Some(r.(stack := Write(r.stack, offset, bs))) else None
    case LdaZero => Some(r.(a := 0))
    case OraSlot(offset) => if offset < |r.stack| then Some(r.(a := Or(r.a, r.stack[offset]))) else None
    case StaArg1 => Some(r.(arg1 := r.a))
    case LdaArg1 => Some(r.(a := r.arg1))
    case Ptr(second, offset) => Some(if second then r.(ptr1 := offset) else r.(ptr0 := offset))
    case Call(h, n) =>
      if r.ptr0 + n <= |r.stack| && r.ptr1 + n <= |r.stack|
      then Some(r.(arg1 := if Compares(h, r.stack[r.ptr0..r.ptr0 + n], r.stack[r.ptr1..r.ptr1 + n]) then 1 else 0))
      else None
  }

  predicate JumpTaken(i: Instr, r: Regs)
    requires IsJump(i)
  {
    i.Jmp? || (i.Beq? && r.a == 0) || (i.Bne? && r.a != 0)
  }

  /** One step; a state that cannot go on stays as it is. */
  function Step(env: Env, code: seq<Instr>, s: State): State {
    if s.pc >= |code| then s
    else
      var i := code[s.pc];
      if IsJump(i) then
        if !JumpTaken(i, s.r) then s.(pc := s.pc + 1)
        else
          var k := FindMark(code, i.target, 0);
          if k < |code| then s.(pc := k) else s
      else
        match Act(env, i, s.r)
        case Some(r) => State(s.pc + 1, r)
        case None => s
  }

  function Run(env: Env, code: seq<Instr>, s: State, n: nat): State
    decreases n
  {
    if n == 0 then s else Run(env, code, Step(env, code, s), n - 1)
  }

  lemma {:induction false} RunPlus(env: Env, code: seq<Instr>, s: State, m: nat, n: nat)
    ensures Run(env, code, s, m + n) == Run(env, code, Run(env, code, s, m), n)
    decreases m
  {
    hide Step;
    if m > 0 { RunPlus(env, code, Step(env, code, s), m - 1, n); }
  }

  // ----- labels and fragments -----

  /** No generated label is placed twice. */
  ghost predicate UniqueMarks(code: seq<Instr>) {
    forall i, j :: 0 <= i < j < |code| && code[i].Mark? && !code[i].label_.User? ==> code[j] != code[i]
  }

  ghost predicate Placed(code: seq<Instr>, x: Label) {
    FindMark(code, x, 0) < |code|
  }

  lemma MarkFound(code: seq<Instr>, x: Label, i: nat)
    requires UniqueMarks(code) && i < |code| && code[i] == Mark(x) && !x.User?
    ensures Placed(code, x) && FindMark(code, x, 0) == i
  {
    var k := FindMark(code, x, 0);
  }

  /** The fragment is part of the program, at `at`. */
  ghost predicate Sits(code: seq<Instr>, at: nat, fragment: seq<Instr>) {
    at + |fragment| <= |code| && code[at..at + |fragment|] == fragment
  }

  lemma SitsParts(code: seq<Instr>, at: nat, f: seq<Instr>, g: seq<Instr>)
    requires Sits(code, at, f + g)
    ensures Sits(code, at, f) && Sits(code, at + |f|, g)
  {
    var whole := code[at..at + |f + g|];
    assert code[at..at + |f|] == whole[..|f|] == f;
    assert code[at + |f|..at + |f| + |g|] == whole[|f|..] == g;
  }

  lemma SitsOne(code: seq<Instr>, at: nat, i: Instr)
    requires Sits(code, at, [i])
    ensures at < |code| && code[at] == i
  {
    assert code[at..at + 1][0] == code[at];
  }

  // ----- straight-line code -----

  ghost predicate Straight(f: seq<Instr>) {
    forall k :: 0 <= k < |f| ==> !IsJump(f[k])
  }

  function Fold(env: Env, f: seq<Instr>, r: Regs): Option<Regs>
    requires Straight(f)
  {
    if f == [] then Some(r)
    else
      match Act(env, f[0], r)
      case None => None
      case Some(r') => Fold(env, f[1..], r')
  }

  lemma {:induction false} FoldRuns(env: Env, code: seq<Instr>, at: nat, f: seq<Instr>, r: Regs)
    requires Sits(code, at, f) && Straight(f) && Fold(env, f, r).Some?
    ensures Run(env, code, State(at, r), |f|) == State(at + |f|, Fold(env, f, r).value)
    decreases |f|
  {
    if f != [] {
      assert f == [f[0]] + f[1..];
      SitsParts(code, at, [f[0]], f[1..]);
      SitsOne(code, at, f[0]);
      FoldRuns(env, code, at + 1, f[1..], Act(env, f[0], r).value);
    }
  }

  lemma {:induction false} FoldPlus(env: Env, f: seq<Instr>, g: seq<Instr>, r: Regs)
    requires Straight(f) && Straight(g)
    ensures Straight(f + g)
    ensures Fold(env, f + g, r) == match Fold(env, f, r) case None => None case Some(m) => Fold(env, g, m)
  {
    hide Act;
    if f == [] {
      assert f + g == g;
    } else {
      assert (f + g)[1..] == f[1..] + g;
      if Act(env, f[0], r).Some? {
        FoldPlus(env, f[1..], g, Act(env, f[0], r).value);
      }
    }
  }
}
