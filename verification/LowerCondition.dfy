/** Conditions lowered to jumps, and what the jumps decide. */
module LowerCondition {
  import opened Basics
  import opened LowerMachine

  datatype CmpOp = Eq | Ne | Lt | Gt | Le | Ge

  /** A literal is kept with its spelling; leaves are opaque expressions of a known size. */
  datatype Cond =
    | Absent
    | Negated(inner: Cond)
    | Both(left: Cond, right: Cond)
    | Either(left: Cond, right: Cond)
    | Literal(text: Option<string>, value: int)
    | Compare(op: CmpOp, kind: Kind, size: nat, lhs: nat, rhs: nat)
    | Leaf(id: nat, size: nat)

  // ----- meaning -----

  predicate Holds(op: CmpOp, a: int, b: int) {
    match op
    case Eq => a == b
    case Ne => a != b
    case Lt => a < b
    case Gt => a > b
    case Le => a <= b
    case Ge => a >= b
  }

  predicate NonZero(bs: seq<Byte>) {
    exists i :: 0 <= i < |bs| && bs[i] != 0
  }

  /** The value of a condition and the trace after evaluating just what it needs, left to right. */
  function Truth(env: Env, c: Cond, t: Trace): (bool, Trace) {
    match c
    case Absent => (false, t)
    case Literal(_, v) => (v != 0, t)
    case Leaf(id, size) => (NonZero(Value(env, id, size, t)), t + [id])
    case Compare(op, kind, size, l, r) =>
      (Holds(op, Decode(kind, Value(env, l, size, t)), Decode(kind, Value(env, r, size, t + [l]))), t + [l] + [r])
    case Negated(inner) =>
      var (b, t') := Truth(env, inner, t);
      (!b, t')
    case Both(l, r) =>
      var (b, t') := Truth(env, l, t);
      if b then Truth(env, r, t') else (false, t')
    case Either(l, r) =>
      var (b, t') := Truth(env, l, t);
      if b then (true, t') else Truth(env, r, t')
  }

  // ----- code -----

  /** Labels a condition uses up. */
  function CondLabels(c: Cond): nat {
    match c
    case Negated(inner) => 1 + CondLabels(inner)
    case Both(l, r) => CondLabels(l) + CondLabels(r)
    case Either(l, r) => 2 + CondLabels(l) + CondLabels(r)
    case _ => 0
  }

  function OraSlots(offset: nat, n: nat): seq<Instr> {
    if n == 0 then [] else OraSlots(offset, n - 1) + [OraSlot(offset + n - 1)]
  }

  function TestSlot(id: nat, size: nat, locals: nat): seq<Instr> {
    [PushN(size % 256), EvalTo(id, locals, size), LdaZero] + OraSlots(locals, size) + [StaArg1, PopN(size % 256),
          LdaArg1]
  }

  function HelperOf(op: CmpOp, kind: Kind): Helper {
    match op
    case Eq | Ne => EqN
    case Lt | Gt => LtN(kind)
    case Le | Ge => LeN(kind)
  }

  /** Greater-than comparisons swap their operands. */
  predicate Swaps(op: CmpOp) {
    op == Gt || op == Ge
  }

  function CompareSlots(op: CmpOp, kind: Kind, size: nat, l: nat, r: nat, locals: nat): seq<Instr> {
    var first := if Swaps(op) then locals + size else locals;
    var second := if Swaps(op) then locals else locals + size;
    [PushN(2 * size % 256), EvalTo(l, locals, size), EvalTo(r, locals + size, size), Ptr(false, first),
     Ptr(true, second),
     Call(HelperOf(op, kind), size), PopN(2 * size % 256), LdaArg1]
  }

  /** Falls through if the condition holds and jumps to f if not; new labels are numbered from n. */
  function CondCode(c: Cond, f: Label, n: nat, locals: nat): seq<Instr> {
    match c
    case Absent => [Jmp(f)]
    case Literal(text, _) => if text.None? || text.value == "0" then [Jmp(f)] else []
    case Leaf(id, size) => TestSlot(id, size, locals) + [Beq(f)]
    case Compare(op, kind, size, l, r) =>
      CompareSlots(op, kind, size, l, r, locals) + [if op == Ne then Bne(f) else Beq(f)]
    case Negated(inner) => CondCode(inner, Gen(n), n + 1, locals) + [Jmp(f), Mark(Gen(n))]
    case Both(l, r) => CondCode(l, f, n, locals) + CondCode(r, f, n + CondLabels(l), locals)
    case Either(l, r) =>
      CondCode(l, Gen(n), n + 2, locals) + [Jmp(Gen(n + 1)), Mark(Gen(n))]
      + (CondCode(r, f, n + 2 + CondLabels(l), locals) + [Mark(Gen(n + 1))])
  }

  /** Temporaries whose doubled size the one-byte argument of the push can hold. */
  predicate WellSized(c: Cond) {
    match c
    case Leaf(_, size) => size < 256
    case Compare(_, _, size, _, _) => 2 * size < 256
    case Negated(inner) => WellSized(inner)
    case Both(l, r) => WellSized(l) && WellSized(r)
    case Either(l, r) => WellSized(l) && WellSized(r)
    case _ => true
  }

  /** A literal counts as zero exactly when it is spelled 0. */
  predicate Canonical(c: Cond) {
    match c
    case Literal(text, v) => v == 0 <==> (text.None? || text.value == "0")
    case Negated(inner) => Canonical(inner)
    case Both(l, r) => Canonical(l) && Canonical(r)
    case Either(l, r) => Canonical(l) && Canonical(r)
    case _ => true
  }

  // ----- straight-line pieces -----

  /** The stack has its old height, and nothing below `locals` changed. */
  ghost predicate Keeps(before: seq<Byte>, after: seq<Byte>, locals: nat) {
    locals <= |before| == |after| && after[..locals] == before[..locals]
  }

  lemma FoldCons(env: Env, i: Instr, g: seq<Instr>, r: Regs)
    requires !IsJump(i) && Straight(g)
    ensures Straight([i] + g)
    ensures Fold(env, [i] + g, r) == match Act(env, i, r) case None => None case Some(m) => Fold(env, g, m)
  {
    hide Act;
    assert ([i] + g)[1..] == g;
  }

  lemma Fold3(env: Env, i: Instr, j: Instr, k: Instr, r: Regs)
    requires !IsJump(i) && !IsJump(j) && !IsJump(k)
    requires Act(env, i, r).Some? && Act(env, j, Act(env, i, r).value).Some?
    ensures Straight([i, j, k]) && Fold(env, [i, j, k], r) == Act(env, k, Act(env, j, Act(env, i, r).value).value)
  {
    hide Act;
    FoldCons(env, i, [j, k], r);
    FoldCons(env, j, [k], Act(env, i, r).value);
    FoldCons(env, k, [], Act(env, j, Act(env, i, r).value).value);
    assert [i, j, k] == [i] + [j, k] && [j, k] == [j] + [k] && [k] == [k] + [];
  }

  /** After or-ing n bytes, a is zero exactly if it was and they all are. */
  lemma {:induction false} OraFolds(env: Env, offset: nat, n: nat, r: Regs)
    requires offset + n <= |r.stack|
    ensures Straight(OraSlots(offset, n)) && Fold(env, OraSlots(offset, n), r).Some?
    ensures var s := Fold(env, OraSlots(offset, n), r).value;
      s == r.(a := s.a) && (s.a == 0 <==> r.a == 0 && !NonZero(r.stack[offset..offset + n]))
  {
    if n > 0 {
      OraFolds(env, offset, n - 1, r);
      var s := Fold(env, OraSlots(offset, n - 1), r).value;
      var last := OraSlot(offset + n - 1);
      FoldCons(env, last, [], s);
      assert [last] + [] == [last];
      FoldPlus(env, OraSlots(offset, n - 1), [last], r);
      NonZeroSnoc(r.stack[offset..offset + n - 1], r.stack[offset + n - 1]);
      assert r.stack[offset..offset + n] == r.stack[offset..offset + n - 1] + [r.stack[offset + n - 1]];
    }
  }

  lemma NonZeroSnoc(bs: seq<Byte>, b: Byte)
    ensures NonZero(bs + [b]) <==> NonZero(bs) || b != 0
  {
    if NonZero(bs) {
      var i :| 0 <= i < |bs| && bs[i] != 0;
      assert (bs + [b])[i] != 0;
    }
    if b != 0 {
      assert (bs + [b])[|bs|] != 0;
    }
  }

  lemma WriteRead(stack: seq<Byte>, offset: nat, bs: seq<Byte>, locals: nat)
    requires offset + |bs| <= |stack| && locals <= offset
    ensures Write(stack, offset, bs)[offset..offset + |bs|] == bs && Write(stack, offset, bs)[..locals] == stack[..locals]
  {
  }

  /** Pushing n bytes and evaluating into them. */
  lemma PushEval(env: Env, id: nat, size: nat, room: nat, locals: nat, offset: nat, r: Regs)
    requires locals <= |r.stack| && locals <= offset && offset + size <= |r.stack| + room
    ensures var r1 := Act(env, PushN(room), r); var r2 := Act(env, EvalTo(id, offset, size), r1.value);
      && r1.Some? && r2.Some? && |r2.value.stack| == |r.stack| + room && r2.value.trace == r.trace + [id]
      && r2.value.stack[offset..offset + size] == Value(env, id, size, r.trace)
      && r2.value.stack[..locals] == r.stack[..locals]
  {
    var r1 := Act(env, PushN(room), r).value;
    WriteRead(r1.stack, offset, Value(env, id, size, r.trace), locals);
  }

  /** Popping what was pushed. */
  lemma StorePopLoad(env: Env, room: nat, locals: nat, r: Regs)
    requires locals + room <= |r.stack|
    ensures Straight([StaArg1, PopN(room), LdaArg1])
    ensures var f := Fold(env, [StaArg1, PopN(room), LdaArg1], r);
      && f.Some? && f.value.a == r.a && f.value.trace == r.trace
      && |f.value.stack| == |r.stack| - room && f.value.stack[..locals] == r.stack[..locals]
  {
    Fold3(env, StaArg1, PopN(room), LdaArg1, r);
  }

  /** Testing a slot leaves a zero exactly for a zero value. */
  lemma TestFolds(env: Env, id: nat, size: nat, locals: nat, r: Regs)
    requires size < 256 && locals <= |r.stack|
    ensures Straight(TestSlot(id, size, locals)) && Fold(env, TestSlot(id, size, locals), r).Some?
    ensures var s := Fold(env, TestSlot(id, size, locals), r).value;
      s.trace == r.trace + [id] && Keeps(r.stack, s.stack, locals) && (s.a != 0 <==> NonZero(Value(env, id, size, r.trace)))
  {
    hide *;
    var head, tail := [PushN(size), EvalTo(id, locals, size), LdaZero], [StaArg1, PopN(size), LdaArg1];
    NotJump(PushN(size));
    NotJump(EvalTo(id, locals, size));
    NotJump(LdaZero);
    PushEval(env, id, size, size, locals, locals, r);
    var r2 := Act(env, EvalTo(id, locals, size), Act(env, PushN(size), r).value).value;
    Fold3(env, PushN(size), EvalTo(id, locals, size), LdaZero, r);
    LoadsZero(env, r2);
    OraFolds(env, locals, size, r2.(a := 0));
    var r4 := Fold(env, OraSlots(locals, size), r2.(a := 0)).value;
    StorePopLoad(env, size, locals, r4);
    FoldPlus(env, head, OraSlots(locals, size), r);
    FoldPlus(env, head + OraSlots(locals, size), tail, r);
    TestShape(id, size, locals);
    KeepsIntro(r.stack, Fold(env, tail, r4).value.stack, locals);
  }

  lemma NotJump(i: Instr)
    requires !i.Jmp? && !i.Beq? && !i.Bne?
    ensures !IsJump(i)
  {
  }

  lemma TestShape(id: nat, size: nat, locals: nat)
    requires size < 256
    ensures TestSlot(id, size, locals) == [PushN(size), EvalTo(id, locals, size), LdaZero] + OraSlots(locals,
          size) + [StaArg1, PopN(size), LdaArg1]
  {
  }

  lemma LoadsZero(env: Env, r: Regs)
    ensures Act(env, LdaZero, r) == Some(r.(a := 0))
  {
  }

  ghost predicate TwoSlots(stack: seq<Byte>, locals: nat, size: nat, a: seq<Byte>, b: seq<Byte>) {
    && |stack| >= locals + 2 * size && |a| == |b| == size
    && stack[locals..locals + size] == a && stack[locals + size..locals + 2 * size] == b
  }

  /** Both operands are evaluated, left first, into adjacent slots. */
  lemma BothEvaluate(env: Env, l: nat, r: nat, size: nat, locals: nat, m: Regs)
    requires locals <= |m.stack|
    ensures Straight([PushN(2 * size), EvalTo(l, locals, size), EvalTo(r, locals + size, size)])
    ensures var f := Fold(env, [PushN(2 * size), EvalTo(l, locals, size), EvalTo(r, locals + size, size)], m);
      && f.Some? && f.value.trace == m.trace + [l] + [r]
      && TwoSlots(f.value.stack, locals, size, Value(env, l, size, m.trace), Value(env, r, size, m.trace + [l]))
      && |f.value.stack| == |m.stack| + 2 * size && f.value.stack[..locals] == m.stack[..locals]
  {
    PushEval(env, l, size, 2 * size, locals, locals, m);
    var m2 := Act(env, EvalTo(l, locals, size), Act(env, PushN(2 * size), m).value).value;
    var b := Value(env, r, size, m2.trace);
    WriteRead(m2.stack, locals + size, b, locals + size);
    assert m2.stack[..locals + size] == m2.stack[..locals] + m2.stack[locals..locals + size];
    var after := Write(m2.stack, locals + size, b);
    assert after[..locals + size][..locals] == after[..locals] && after[..locals + size][locals..] == after[locals..locals + size];
    Fold3(env, PushN(2 * size), EvalTo(l, locals, size), EvalTo(r, locals + size, size), m);
  }

  /** The helper compares the two slots, in the order its pointers were set. */
  lemma HelperCompares(env: Env, h: Helper, size: nat, locals: nat, swap: bool, a: seq<Byte>, b: seq<Byte>, m: Regs)
    requires TwoSlots(m.stack, locals, size, a, b)
    ensures var f := Fold(env, PointAndCall(h, size, locals, swap), m);
      && f.Some? && f.value.stack == m.stack && f.value.trace == m.trace
      && (f.value.arg1 != 0 <==> if swap then Compares(h, b, a) else Compares(h, a, b))
  {
    hide Compares, Fold, Straight, Act;
    var first := if swap then locals + size else locals;
    var second := if swap then locals else locals + size;
    Points(env, h, first, second, size, m);
    Fold3(env, Ptr(false, first), Ptr(true, second), Call(h, size), m);
  }

  lemma Points(env: Env, h: Helper, first: nat, second: nat, size: nat, m: Regs)
    requires first + size <= |m.stack| && second + size <= |m.stack|
    ensures !IsJump(Ptr(false, first)) && !IsJump(Ptr(true, second)) && !IsJump(Call(h, size))
    ensures Act(env, Ptr(false, first), m) == Some(m.(ptr0 := first))
    ensures Act(env, Ptr(true, second), m.(ptr0 := first)) == Some(m.(ptr0 := first, ptr1 := second))
    ensures Act(env, Call(h, size), m.(ptr0 := first, ptr1 := second)) ==
      Some(m.(ptr0 := first, ptr1 := second, arg1 :=
        if Compares(h, m.stack[first..first + size], m.stack[second..second + size]) then 1 else 0))
  {
    hide Compares;
  }

  function PointAndCall(h: Helper, size: nat, locals: nat, swap: bool): (f: seq<Instr>)
    ensures Straight(f)
  {
    [Ptr(false, if swap then locals + size else locals), Ptr(true, if swap then locals else locals + size), Call(h, size)]
  }

  lemma PopLoad(env: Env, room: nat, locals: nat, r: Regs)
    requires locals + room <= |r.stack|
    ensures Straight([PopN(room), LdaArg1])
    ensures var f := Fold(env, [PopN(room), LdaArg1], r);
      && f.Some? && f.value.a == r.arg1 && f.value.trace == r.trace
      && |f.value.stack| == |r.stack| - room && f.value.stack[..locals] == r.stack[..locals]
  {
    FoldCons(env, PopN(room), [LdaArg1], r);
    FoldCons(env, LdaArg1, [], Act(env, PopN(room), r).value);
    assert [PopN(room), LdaArg1] == [PopN(room)] + [LdaArg1] && [LdaArg1] == [LdaArg1] + [];
  }

  /** Comparing leaves a non-zero exactly when the helper's relation holds. */
  lemma CompareFolds(env: Env, op: CmpOp, kind: Kind, size: nat, l: nat, r: nat, locals: nat, m: Regs)
    requires 2 * size < 256 && locals <= |m.stack|
    ensures Straight(CompareSlots(op, kind, size, l, r, locals)) && Fold(env, CompareSlots(op, kind, size, l, r, locals), m).Some?
    ensures var s := Fold(env, CompareSlots(op, kind, size, l, r, locals), m).value;
      && s.trace == m.trace + [l] + [r] && Keeps(m.stack, s.stack, locals)
      && ((s.a != 0) == (Truth(env, Compare(op, kind, size, l, r), m.trace).0 == (op != Ne)))
  {
    hide *;
    var h := HelperOf(op, kind);
    var evals := [PushN(2 * size), EvalTo(l, locals, size), EvalTo(r, locals + size, size)];
    var call, pop := PointAndCall(h, size, locals, Swaps(op)), [PopN(2 * size), LdaArg1];
    var a, b := Value(env, l, size, m.trace), Value(env, r, size, m.trace + [l]);
    CompareShape(op, kind, size, l, r, locals);
    HelperDecides(op, kind, a, b);
    TruthOfCompare(env, op, kind, size, l, r, m.trace);
    BothEvaluate(env, l, r, size, locals, m);
    var m3 := Fold(env, evals, m).value;
    HelperCompares(env, h, size, locals, Swaps(op), a, b, m3);
    var m6 := Fold(env, call, m3).value;
    PopLoad(env, 2 * size, locals, m6);
    var m8 := Fold(env, pop, m6).value;
    FoldPlus(env, evals, call, m);
    FoldPlus(env, evals + call, pop, m);
    KeepsIntro(m.stack, m8.stack, locals);
  }

  lemma CompareShape(op: CmpOp, kind: Kind, size: nat, l: nat, r: nat, locals: nat)
    requires 2 * size < 256
    ensures CompareSlots(op, kind, size, l, r, locals)
      == [PushN(2 * size), EvalTo(l, locals, size), EvalTo(r, locals + size, size)]
         + PointAndCall(HelperOf(op, kind), size, locals, Swaps(op)) + [PopN(2 * size), LdaArg1]
  {
  }

  lemma TruthOfCompare(env: Env, op: CmpOp, kind: Kind, size: nat, l: nat, r: nat, t: Trace)
    ensures Truth(env, Compare(op, kind, size, l, r), t)
      == (Holds(op, Decode(kind, Value(env, l, size, t)), Decode(kind, Value(env, r, size, t + [l]))), t + [l] + [r])
  {
  }

  lemma KeepsIntro(before: seq<Byte>, after: seq<Byte>, locals: nat)
    requires locals <= |before| == |after| && after[..locals] == before[..locals]
    ensures Keeps(before, after, locals)
  {
  }

  /** The helper chosen for an operator, given its operands in the chosen order, decides the operator, or its
      opposite for !=. */
  lemma HelperDecides(op: CmpOp, kind: Kind, a: seq<Byte>, b: seq<Byte>)
    requires |a| == |b|
    ensures (if Swaps(op) then Compares(HelperOf(op, kind), b, a) else Compares(HelperOf(op, kind), a, b))
      == (Holds(op, Decode(kind, a), Decode(kind, b)) == (op != Ne))
  {
    SameBytesSameNumber(kind, a, b);
  }

  // ----- running a condition -----

  lemma JumpStep(env: Env, code: seq<Instr>, pc: nat, r: Regs)
    requires pc < |code| && IsJump(code[pc]) && (JumpTaken(code[pc], r) ==> Placed(code, code[pc].target))
    ensures Run(env, code, State(pc, r), 1) == State(if JumpTaken(code[pc], r) then FindMark(code, code[pc].target,
          0) else pc + 1, r)
  {
    assert Run(env, code, State(pc, r), 1) == Run(env, code, Step(env, code, State(pc, r)), 0);
  }

  lemma MarkStep(env: Env, code: seq<Instr>, pc: nat, r: Regs)
    requires pc < |code| && code[pc].Mark?
    ensures Run(env, code, State(pc, r), 1) == State(pc + 1, r)
  {
    assert Run(env, code, State(pc, r), 1) == Run(env, code, Step(env, code, State(pc, r)), 0);
  }

  /** The code of c at `at` has run from r to t: it fell through if c is true, reached f if not, evaluated what c
      evaluates, and left the stack as it was. */
  ghost predicate Decided(env: Env, code: seq<Instr>, end: nat, c: Cond, f: Label, locals: nat, r: Regs, t: State) {
    && t.r.trace == Truth(env, c, r.trace).1 && Keeps(r.stack, t.r.stack, locals)
    && t.pc == (if Truth(env, c, r.trace).0 then end else FindMark(code, f, 0))
  }

  ghost predicate CondSits(code: seq<Instr>, at: nat, c: Cond, f: Label, n: nat, locals: nat) {
    && UniqueMarks(code) && Placed(code, f) && WellSized(c) && Canonical(c)
    && Sits(code, at, CondCode(c, f, n, locals))
  }

  /** Straight code followed by one conditional jump. */
  lemma StraightThenJump(env: Env, code: seq<Instr>, at: nat, g: seq<Instr>, j: Instr, r: Regs) returns (k: nat,
        t: State)
    requires Sits(code, at, g + [j]) && Straight(g) && Fold(env, g, r).Some? && IsJump(j) && Placed(code, j.target)
    ensures Run(env, code, State(at, r), k) == t
    ensures t.r == Fold(env, g, r).value
    ensures t.pc == if JumpTaken(j, t.r) then FindMark(code, j.target, 0) else at + |g + [j]|
  {
    hide Fold, Sits, Placed;
    SitsParts(code, at, g, [j]);
    FoldRuns(env, code, at, g, r);
    SitsOne(code, at + |g|, j);
    JumpStep(env, code, at + |g|, Fold(env, g, r).value);
    RunPlus(env, code, State(at, r), |g|, 1);
    k := |g| + 1;
    t := Run(env, code, State(at, r), k);
  }

  /** A condition's code, run from its start: past its end if the condition holds, at the false label if not, having
      evaluated just the leaves short-circuiting demands, in order, with the stack as high as before. */
  lemma {:induction false} CondRuns(env: Env, code: seq<Instr>, at: nat, c: Cond, f: Label, n: nat, locals: nat,
                                    r: Regs)
    returns (k: nat, t: State)
    requires CondSits(code, at, c, f, n, locals) && locals <= |r.stack|
    ensures Run(env, code, State(at, r), k) == t
    ensures Decided(env, code, at + |CondCode(c, f, n, locals)|, c, f, locals, r, t)
    decreases c, 2
  {
    match c {
      case Absent => k, t := AlwaysJumps(env, code, at, f, r);
      case Literal(text, v) =>
        if v == 0 {
          k, t := AlwaysJumps(env, code, at, f, r);
        } else {
          k, t := 0, State(at, r);
        }
      case Leaf(id, size) =>
        TestFolds(env, id, size, locals, r);
        hide Fold, TestSlot, NonZero;
        k, t := StraightThenJump(env, code, at, TestSlot(id, size, locals), Beq(f), r);
      case Compare(op, kind, size, lhs, rhs) =>
        CompareFolds(env, op, kind, size, lhs, rhs, locals, r);
        hide Fold, CompareSlots, Truth;
        k, t := StraightThenJump(env, code, at, CompareSlots(op, kind, size, lhs, rhs, locals), if op == Ne then Bne(f) else Beq(f), r);
      case Negated(inner) => k, t := NegatedRuns(env, code, at, c, f, n, locals, r);
      case Both(left, right) => k, t := BothRuns(env, code, at, c, f, n, locals, r);
      case Either(left, right) => k, t := EitherRuns(env, code, at, c, f, n, locals, r);
    }
  }

  lemma AlwaysJumps(env: Env, code: seq<Instr>, at: nat, f: Label, r: Regs) returns (k: nat, t: State)
    requires Sits(code, at, [Jmp(f)]) && Placed(code, f)
    ensures Run(env, code, State(at, r), k) == t && t == State(FindMark(code, f, 0), r)
  {
    SitsOne(code, at, Jmp(f));
    JumpStep(env, code, at, r);
    k, t := 1, State(FindMark(code, f, 0), r);
  }

  lemma NegatedSits(code: seq<Instr>, at: nat, inner: Cond, f: Label, n: nat, locals: nat)
    requires CondSits(code, at, Negated(inner), f, n, locals)
    ensures CondSits(code, at, inner, Gen(n), n + 1, locals)
    ensures var end := at + |CondCode(inner, Gen(n), n + 1, locals)|;
      && end + 1 < |code| && code[end] == Jmp(f) && code[end + 1] == Mark(Gen(n)) && FindMark(code, Gen(n), 0) == end + 1
      && |CondCode(Negated(inner), f, n, locals)| == |CondCode(inner, Gen(n), n + 1, locals)| + 2
  {
    hide UniqueMarks, Sits;
    var g := CondCode(inner, Gen(n), n + 1, locals);
    SitsParts(code, at, g, [Jmp(f), Mark(Gen(n))]);
    SitsTwo(code, at + |g|, Jmp(f), Mark(Gen(n)));
    MarkFound(code, Gen(n), at + |g| + 1);
  }

  lemma NegatedRuns(env: Env, code: seq<Instr>, at: nat, c: Cond, f: Label, n: nat, locals: nat, r: Regs)
    returns (k: nat, t: State)
    requires CondSits(code, at, c, f, n, locals) && c.Negated? && locals <= |r.stack|
    ensures Run(env, code, State(at, r), k) == t
    ensures Decided(env, code, at + |CondCode(c, f, n, locals)|, c, f, locals, r, t)
    decreases c, 0
  {
    NegatedSits(code, at, c.inner, f, n, locals);
    CondSitsPlaced(code, at, c, f, n, locals);
    hide CondCode, CondSits, FindMark, Placed;
    var j: nat, m: State := CondRuns(env, code, at, c.inner, Gen(n), n + 1, locals, r);
    if Truth(env, c.inner, r.trace).0 {
      JumpStep(env, code, m.pc, m.r);
    } else {
      MarkStep(env, code, m.pc, m.r);
    }
    RunPlus(env, code, State(at, r), j, 1);
    k := j + 1;
    t := Run(env, code, m, 1);
  }

  lemma CondSitsPlaced(code: seq<Instr>, at: nat, c: Cond, f: Label, n: nat, locals: nat)
    requires CondSits(code, at, c, f, n, locals)
    ensures Placed(code, f)
  {
  }

  lemma BothSits(code: seq<Instr>, at: nat, l: Cond, r: Cond, f: Label, n: nat, locals: nat)
    requires CondSits(code, at, Both(l, r), f, n, locals)
    ensures CondSits(code, at, l, f, n, locals)
    ensures CondSits(code, at + |CondCode(l, f, n, locals)|, r, f, n + CondLabels(l), locals)
    ensures |CondCode(Both(l, r), f, n, locals)| == |CondCode(l, f, n, locals)| + |CondCode(r, f, n + CondLabels(l),
          locals)|
  {
    hide UniqueMarks, Sits;
    SitsParts(code, at, CondCode(l, f, n, locals), CondCode(r, f, n + CondLabels(l), locals));
  }

  lemma BothRuns(env: Env, code: seq<Instr>, at: nat, c: Cond, f: Label, n: nat, locals: nat, r: Regs)
    returns (k: nat, t: State)
    requires CondSits(code, at, c, f, n, locals) && c.Both? && locals <= |r.stack|
    ensures Run(env, code, State(at, r), k) == t
    ensures Decided(env, code, at + |CondCode(c, f, n, locals)|, c, f, locals, r, t)
    decreases c, 0
  {
    BothSits(code, at, c.left, c.right, f, n, locals);
    hide CondCode, CondSits, FindMark;
    var j: nat, m: State := CondRuns(env, code, at, c.left, f, n, locals, r);
    if Truth(env, c.left, r.trace).0 {
      var i: nat;
      i, t := CondRuns(env, code, m.pc, c.right, f, n + CondLabels(c.left), locals, m.r);
      RunPlus(env, code, State(at, r), j, i);
      k := j + i;
    } else {
      k, t := j, m;
    }
  }

  lemma EitherSits(code: seq<Instr>, at: nat, l: Cond, r: Cond, f: Label, n: nat, locals: nat)
    requires CondSits(code, at, Either(l, r), f, n, locals)
    ensures CondSits(code, at, l, Gen(n), n + 2, locals)
    ensures var mid := at + |CondCode(l, Gen(n), n + 2, locals)|;
      var end := mid + 2 + |CondCode(r, f, n + 2 + CondLabels(l), locals)|;
      && end < |code| && code[mid] == Jmp(Gen(n + 1)) && code[mid + 1] == Mark(Gen(n)) && code[end] == Mark(Gen(n + 1))
      && FindMark(code, Gen(n), 0) == mid + 1 && FindMark(code, Gen(n + 1), 0) == end && Placed(code, Gen(n + 1))
      && CondSits(code, mid + 2, r, f, n + 2 + CondLabels(l), locals)
      && at + |CondCode(Either(l, r), f, n, locals)| == end + 1
  {
    hide *;
    var g, h := CondCode(l, Gen(n), n + 2, locals), CondCode(r, f, n + 2 + CondLabels(l), locals);
    EitherShape(code, at, l, r, f, n, locals);
    SitsParts(code, at, g + [Jmp(Gen(n + 1)), Mark(Gen(n))], h + [Mark(Gen(n + 1))]);
    SitsParts(code, at, g, [Jmp(Gen(n + 1)), Mark(Gen(n))]);
    SitsTwo(code, at + |g|, Jmp(Gen(n + 1)), Mark(Gen(n)));
    SitsParts(code, at + |g| + 2, h, [Mark(Gen(n + 1))]);
    SitsOne(code, at + |g| + 2 + |h|, Mark(Gen(n + 1)));
    MarkFound(code, Gen(n), at + |g| + 1);
    MarkFound(code, Gen(n + 1), at + |g| + 2 + |h|);
    CondSitsIntro(code, at, l, Gen(n), n + 2, locals);
    CondSitsIntro(code, at + |g| + 2, r, f, n + 2 + CondLabels(l), locals);
  }

  lemma EitherShape(code: seq<Instr>, at: nat, l: Cond, r: Cond, f: Label, n: nat, locals: nat)
    requires CondSits(code, at, Either(l, r), f, n, locals)
    ensures UniqueMarks(code) && Placed(code, f) && WellSized(l) && Canonical(l) && WellSized(r) && Canonical(r)
    ensures var g := CondCode(l, Gen(n), n + 2, locals) + [Jmp(Gen(n + 1)), Mark(Gen(n))];
      var h := CondCode(r, f, n + 2 + CondLabels(l), locals) + [Mark(Gen(n + 1))];
      CondCode(Either(l, r), f, n, locals) == g + h && Sits(code, at, g + h)
  {
    hide UniqueMarks, Placed, Sits;
  }

  lemma CondSitsIntro(code: seq<Instr>, at: nat, c: Cond, f: Label, n: nat, locals: nat)
    requires UniqueMarks(code) && Placed(code, f) && WellSized(c) && Canonical(c) && Sits(code, at, CondCode(c, f, n, locals))
    ensures CondSits(code, at, c, f, n, locals)
  {
    hide UniqueMarks, Placed, WellSized, Canonical, Sits;
  }

  lemma SitsTwo(code: seq<Instr>, at: nat, i: Instr, j: Instr)
    requires Sits(code, at, [i, j])
    ensures at + 1 < |code| && code[at] == i && code[at + 1] == j
  {
    assert [i, j] == [i] + [j];
    SitsParts(code, at, [i], [j]);
    SitsOne(code, at, i);
    SitsOne(code, at + 1, j);
  }

  lemma EitherRuns(env: Env, code: seq<Instr>, at: nat, c: Cond, f: Label, n: nat, locals: nat, r: Regs)
    returns (k: nat, t: State)
    requires CondSits(code, at, c, f, n, locals) && c.Either? && locals <= |r.stack|
    ensures Run(env, code, State(at, r), k) == t
    ensures Decided(env, code, at + |CondCode(c, f, n, locals)|, c, f, locals, r, t)
    decreases c, 1
  {
    hide *;
    EitherSits(code, at, c.left, c.right, f, n, locals);
    assert c == Either(c.left, c.right);
    var mid, end := at + |CondCode(c.left, Gen(n), n + 2, locals)|, at + |CondCode(c, f, n, locals)|;
    var j: nat, m: State := CondRuns(env, code, at, c.left, Gen(n), n + 2, locals, r);
    DecidedHeight(env, code, mid, c.left, Gen(n), locals, r, m);
    if Truth(env, c.left, r.trace).0 {
      JmpStep(env, code, mid, m.r);
      MarkStep(env, code, end - 1, m.r);
      RunPlus(env, code, m, 1, 1);
      RunPlus(env, code, State(at, r), j, 2);
      k, t := j + 2, State(end, m.r);
      DecidedLeft(env, code, mid, end, c, f, n, locals, r, m);
    } else {
      var i: nat;
      i, t := EitherRight(env, code, at, c, f, n, locals, m.r);
      RunPlus(env, code, State(at, r), j, i);
      k := j + i;
      DecidedRight(env, code, mid, end, c, f, n, locals, r, m, t);
    }
  }

  lemma JmpStep(env: Env, code: seq<Instr>, pc: nat, r: Regs)
    requires pc < |code| && code[pc].Jmp? && Placed(code, code[pc].target)
    ensures Run(env, code, State(pc, r), 1) == State(FindMark(code, code[pc].target, 0), r)
  {
    hide Run, FindMark, Placed;
    JumpStep(env, code, pc, r);
  }

  lemma DecidedHeight(env: Env, code: seq<Instr>, end: nat, c: Cond, f: Label, locals: nat, r: Regs, t: State)
    requires Decided(env, code, end, c, f, locals, r, t)
    ensures locals <= |t.r.stack| && t == State(if Truth(env, c, r.trace).0 then end else FindMark(code, f, 0), t.r)
  {
    hide Truth, FindMark;
  }

  lemma DecidedLeft(env: Env, code: seq<Instr>, mid: nat, end: nat, c: Cond, f: Label, n: nat, locals: nat, r: Regs,
                    m: State)
    requires c.Either? && Decided(env, code, mid, c.left, Gen(n), locals, r, m) && Truth(env, c.left, r.trace).0
    ensures Decided(env, code, end, c, f, locals, r, State(end, m.r))
  {
    hide FindMark, Keeps;
  }

  lemma DecidedRight(env: Env, code: seq<Instr>, mid: nat, end: nat, c: Cond, f: Label, n: nat, locals: nat, r: Regs,
                     m: State, t: State)
    requires c.Either? && Decided(env, code, mid, c.left, Gen(n), locals, r, m) && !Truth(env, c.left, r.trace).0
    requires Decided(env, code, end, c.right, f, locals, m.r, t)
    ensures Decided(env, code, end, c, f, locals, r, t)
  {
    hide FindMark;
  }

  /** From the mark in front of the right operand, whose value is now the value of the whole. */
  lemma EitherRight(env: Env, code: seq<Instr>, at: nat, c: Cond, f: Label, n: nat, locals: nat, r: Regs)
    returns (k: nat, t: State)
    requires CondSits(code, at, c, f, n, locals) && c.Either? && locals <= |r.stack|
    ensures Run(env, code, State(FindMark(code, Gen(n), 0), r), k) == t
    ensures Decided(env, code, at + |CondCode(c, f, n, locals)|, c.right, f, locals, r, t)
    decreases c, 0
  {
    hide *;
    EitherSits(code, at, c.left, c.right, f, n, locals);
    var mid, end := FindMark(code, Gen(n), 0), FindMark(code, Gen(n + 1), 0);
    MarkStep(env, code, mid, r);
    var i: nat, u: State := CondRuns(env, code, mid + 1, c.right, f, n + 2 + CondLabels(c.left), locals, r);
    RunPlus(env, code, State(mid, r), 1, i);
    k, t := 1 + i, u;
    assert c == Either(c.left, c.right);
    DecidedMoves(env, code, end, end + 1, c.right, f, locals, r, u);
    if Truth(env, c.right, r.trace).0 {
      MarkStep(env, code, end, u.r);
      RunPlus(env, code, State(mid, r), k, 1);
      k, t := k + 1, State(end + 1, u.r);
    }
  }

  /** The end of a condition's code may as well be one step further. */
  lemma DecidedMoves(env: Env, code: seq<Instr>, end: nat, end': nat, c: Cond, f: Label, locals: nat, r: Regs, t: State)
    requires Decided(env, code, end, c, f, locals, r, t)
    ensures Truth(env, c, r.trace).0 ==> t == State(end, t.r) && Decided(env, code, end', c, f, locals, r, State(end', t.r))
    ensures !Truth(env, c, r.trace).0 ==> Decided(env, code, end', c, f, locals, r, t)
  {
    hide Truth, FindMark, Keeps;
  }

  /** A literal's code decides what the literal means exactly when the literal is canonical: 00 and 0x0, which
      are zero, are taken for true. */
  lemma LiteralNeedsSpelling(text: Option<string>, v: int, f: Label, n: nat, locals: nat)
    ensures CondCode(Literal(text, v), f, n, locals) == (if v != 0 then [] else [Jmp(f)]) <==> Canonical(Literal(text, v))
    ensures !Canonical(Literal(Some("00"), 0)) && !Canonical(Literal(Some("0x0"), 0))
  {
    assert "00" != "0" && "0x0" != "0" by {
      assert |"00"| == 2 && |"0x0"| == 3;
    }
  }
}
