/** The chain of comparisons a switch starts with. */
module LowerDispatch {
  import opened Basics
  import opened LowerMachine
  import opened LowerCondition
  import opened LowerStatement

  /** The switch value lies at `locals`, with room for an operand after it. */
  ghost predicate SlotHeld(stack: seq<Byte>, locals: nat, size: nat, v: seq<Byte>) {
    |stack| >= locals + 2 * size && |v| == size && stack[locals..locals + size] == v
  }

  lemma HeldStays(before: seq<Byte>, after: seq<Byte>, locals: nat, size: nat, v: seq<Byte>)
    requires SlotHeld(before, locals, size, v) && Keeps(before, after, locals + size)
    ensures SlotHeld(after, locals, size, v)
  {
    assert after[locals..locals + size] == after[..locals + size][locals..];
    assert before[locals..locals + size] == before[..locals + size][locals..];
  }

  lemma KeepsTwice(a: seq<Byte>, b: seq<Byte>, c: seq<Byte>, locals: nat)
    requires Keeps(a, b, locals) && Keeps(b, c, locals)
    ensures Keeps(a, c, locals)
  {
  }

  /** An operand is put after the switch value. */
  lemma OperandActs(env: Env, op: Operand, kind: Kind, size: nat, locals: nat, v: seq<Byte>, m: Regs)
    requires SlotHeld(m.stack, locals, size, v)
    ensures !IsJump(OperandCode(op, kind, size, locals + size))
    ensures var f := Act(env, OperandCode(op, kind, size, locals + size), m); var b := OperandBytes(env, op, kind,
          size, m.trace);
      && f.Some? && f.value.trace == b.1 && Keeps(m.stack, f.value.stack, locals + size)
      && TwoSlots(f.value.stack, locals, size, v, b.0)
  {
    var bs := OperandBytes(env, op, kind, size, m.trace).0;
    WriteRead(m.stack, locals + size, bs, locals + size);
    HeldStays(m.stack, Write(m.stack, locals + size, bs), locals, size, v);
    hide Write, Encode, Exactly;
  }

  /** A test leaves a non-zero exactly when the helper's relation holds between the value and the operand. */
  lemma TestOperandFolds(env: Env, op: Operand, h: Helper, operandFirst: bool, kind: Kind, size: nat, locals: nat,
                         v: seq<Byte>, m: Regs)
    requires SlotHeld(m.stack, locals, size, v)
    ensures Straight(TestOperand(op, h, operandFirst, kind, size, locals))
    ensures var f := Fold(env, TestOperand(op, h, operandFirst, kind, size, locals), m); var b := OperandBytes(env, op,
          kind, size, m.trace);
      && f.Some? && f.value.trace == b.1 && Keeps(m.stack, f.value.stack, locals + size)
      && (f.value.a != 0 <==> if operandFirst then Compares(h, b.0, v) else Compares(h, v, b.0))
  {
    hide *;
    var i := OperandCode(op, kind, size, locals + size);
    var b := OperandBytes(env, op, kind, size, m.trace);
    OperandActs(env, op, kind, size, locals, v, m);
    var m1 := Act(env, i, m).value;
    HelperCompares(env, h, size, locals, operandFirst, v, b.0, m1);
    var call := PointAndCall(h, size, locals, operandFirst);
    var m2 := Fold(env, call, m1).value;
    OneFolds(env, i, m);
    LoadFolds(env, m2);
    FoldPlus(env, [i], call, m);
    FoldPlus(env, [i] + call, [LdaArg1], m);
    TestOperandShape(op, h, operandFirst, kind, size, locals);
  }

  lemma OneFolds(env: Env, i: Instr, r: Regs)
    requires !IsJump(i)
    ensures Straight([i]) && Fold(env, [i], r) == Act(env, i, r)
  {
    hide Act;
    FoldCons(env, i, [], r);
    assert [i] + [] == [i];
  }

  lemma LoadFolds(env: Env, r: Regs)
    ensures Straight([LdaArg1]) && Fold(env, [LdaArg1], r) == Some(r.(a := r.arg1))
  {
    OneFolds(env, LdaArg1, r);
  }

  lemma TestOperandShape(op: Operand, h: Helper, operandFirst: bool, kind: Kind, size: nat, locals: nat)
    ensures TestOperand(op, h, operandFirst, kind, size, locals)
      == [OperandCode(op, kind, size, locals + size)] + PointAndCall(h, size, locals, operandFirst) + [LdaArg1]
  {
  }

  /** One section's test: to its label if it matches, on to the next test if not. */
  ghost predicate Tested(code: seq<Instr>, end: nat, target: Label, found: (bool, Trace), low: nat, m: Regs, t: State) {
    && t.r.trace == found.1 && Keeps(m.stack, t.r.stack, low)
    && t.pc == if found.0 then FindMark(code, target, 0) else end
  }

  lemma OneRuns(env: Env, code: seq<Instr>, at: nat, op: Operand, kind: Kind, size: nat, target: Label, skip: nat,
                locals: nat, v: seq<Byte>, m: Regs)
    returns (k: nat, t: State)
    requires Sits(code, at, CaseTest(One(op), kind, size, target, skip, locals)) && Placed(code, target) && SlotHeld(m.stack, locals, size, v)
    ensures Run(env, code, State(at, m), k) == t
    ensures Tested(code, at + |CaseTest(One(op), kind, size, target, skip, locals)|, target,
                   Matches(env, One(op), kind, size, v, m.trace), locals + size, m, t)
  {
    TestOperandFolds(env, op, EqN, false, kind, size, locals, v, m);
    SameBytesSameNumber(kind, v, OperandBytes(env, op, kind, size, m.trace).0);
    hide Fold, TestOperand, Decode, SlotHeld, Keeps, OperandBytes, Straight, Sits, Placed, Run;
    k, t := StraightThenJump(env, code, at, TestOperand(op, EqN, false, kind, size, locals), Bne(target), m);
  }

  /** A comparison with one bound, followed by a jump. */
  lemma BoundRuns(env: Env, code: seq<Instr>, at: nat, op: Operand, operandFirst: bool, j: Instr, kind: Kind,
                  size: nat, locals: nat, v: seq<Byte>, m: Regs)
    returns (k: nat, t: State)
    requires (j.Beq? || j.Bne?) && Placed(code, j.target) && SlotHeld(m.stack, locals, size, v)
    requires Sits(code, at, TestOperand(op, LeN(kind), operandFirst, kind, size, locals) + [j])
    ensures Run(env, code, State(at, m), k) == t
    ensures var b := OperandBytes(env, op, kind, size, m.trace);
      var holds := if operandFirst then Decode(kind, b.0) <= Decode(kind, v) else Decode(kind, v) <= Decode(kind, b.0);
      && t.r.trace == b.1 && Keeps(m.stack, t.r.stack, locals + size)
      && t.pc == if holds == j.Bne? then FindMark(code, j.target, 0) else at + |TestOperand(op, LeN(kind), operandFirst, kind, size, locals) + [j]|
  {
    TestOperandFolds(env, op, LeN(kind), operandFirst, kind, size, locals, v, m);
    hide Fold, TestOperand, Decode, SlotHeld, Keeps, OperandBytes, Straight, Sits, Placed, Run;
    k, t := StraightThenJump(env, code, at, TestOperand(op, LeN(kind), operandFirst, kind, size, locals), j, m);
  }

  lemma RangeSits(code: seq<Instr>, at: nat, a: Operand, b: Operand, kind: Kind, size: nat, target: Label, skip: nat,
                  locals: nat)
    requires UniqueMarks(code) && Sits(code, at, CaseTest(Range(a, b), kind, size, target, skip, locals))
    ensures var first := TestOperand(Ordered(a, b).0, LeN(kind), true, kind, size, locals) + [Beq(Gen(skip))];
      var second := TestOperand(Ordered(a, b).1, LeN(kind), false, kind, size, locals) + [Bne(target)];
      var end := at + |first| + |second|;
      && Sits(code, at, first) && Sits(code, at + |first|, second) && end < |code| && code[end] == Mark(Gen(skip))
      && Placed(code, Gen(skip)) && FindMark(code, Gen(skip), 0) == end
      && at + |CaseTest(Range(a, b), kind, size, target, skip, locals)| == end + 1
  {
    hide TestOperand, Sits, UniqueMarks, Placed, Ordered;
    var first := TestOperand(Ordered(a, b).0, LeN(kind), true, kind, size, locals) + [Beq(Gen(skip))];
    var second := TestOperand(Ordered(a, b).1, LeN(kind), false, kind, size, locals) + [Bne(target)];
    SitsParts(code, at, first, second + [Mark(Gen(skip))]);
    SitsParts(code, at + |first|, second, [Mark(Gen(skip))]);
    SitsOne(code, at + |first| + |second|, Mark(Gen(skip)));
    MarkFound(code, Gen(skip), at + |first| + |second|);
  }

  lemma MatchesRange(env: Env, a: Operand, b: Operand, kind: Kind, size: nat, v: seq<Byte>, t: Trace)
    ensures var (low, high) := Ordered(a, b);
      var first := OperandBytes(env, low, kind, size, t); var second := OperandBytes(env, high, kind, size, first.1);
      Matches(env, Range(a, b), kind, size, v, t) ==
        if Decode(kind, first.0) <= Decode(kind, v) then (Decode(kind, v) <= Decode(kind, second.0), second.1) else (false, first.1)
  {
  }

  lemma RangeRuns(env: Env, code: seq<Instr>, at: nat, a: Operand, b: Operand, kind: Kind, size: nat, target: Label,
                  skip: nat, locals: nat, v: seq<Byte>, m: Regs)
    returns (k: nat, t: State)
    requires UniqueMarks(code) && Sits(code, at, CaseTest(Range(a, b), kind, size, target, skip, locals)) && Placed(code, target)
    requires SlotHeld(m.stack, locals, size, v)
    ensures Run(env, code, State(at, m), k) == t
    ensures Tested(code, at + |CaseTest(Range(a, b), kind, size, target, skip, locals)|, target,
                   Matches(env, Range(a, b), kind, size, v, m.trace), locals + size, m, t)
  {
    hide *;
    RangeSits(code, at, a, b, kind, size, target, skip, locals);
    MatchesRange(env, a, b, kind, size, v, m.trace);
    var (low, high) := Ordered(a, b);
    var end := FindMark(code, Gen(skip), 0);
    var i: nat, u: State := BoundRuns(env, code, at, low, true, Beq(Gen(skip)), kind, size, locals, v, m);
    var first := OperandBytes(env, low, kind, size, m.trace);
    if Decode(kind, first.0) <= Decode(kind, v) {
      HeldStays(m.stack, u.r.stack, locals, size, v);
      var j: nat;
      j, t := UpperRuns(env, code, u.pc, high, kind, size, target, end, locals, v, u.r);
      RunPlus(env, code, State(at, m), i, j);
      KeepsTwice(m.stack, u.r.stack, t.r.stack, locals + size);
      k := i + j;
    } else {
      MarkStep(env, code, end, u.r);
      RunPlus(env, code, State(at, m), i, 1);
      k, t := i + 1, State(end + 1, u.r);
    }
    TestedIntro(code, end + 1, target, Matches(env, Range(a, b), kind, size, v, m.trace), locals + size, m, t);
  }

  lemma TestedIntro(code: seq<Instr>, end: nat, target: Label, found: (bool, Trace), low: nat, m: Regs, t: State)
    requires t.r.trace == found.1 && Keeps(m.stack, t.r.stack, low) && t.pc == if found.0 then FindMark(code, target, 0) else end
    ensures Tested(code, end, target, found, low, m, t)
  {
  }

  /** The upper bound of a range, and the mark after it. */
  lemma UpperRuns(env: Env, code: seq<Instr>, at: nat, high: Operand, kind: Kind, size: nat, target: Label, end: nat,
                  locals: nat, v: seq<Byte>, m: Regs)
    returns (k: nat, t: State)
    requires Placed(code, target) && SlotHeld(m.stack, locals, size, v) && end < |code| && code[end].Mark?
    requires Sits(code, at, TestOperand(high, LeN(kind), false, kind, size, locals) + [Bne(target)])
    requires end == at + |TestOperand(high, LeN(kind), false, kind, size, locals) + [Bne(target)]|
    ensures Run(env, code, State(at, m), k) == t
    ensures var b := OperandBytes(env, high, kind, size, m.trace);
      && t.r.trace == b.1 && Keeps(m.stack, t.r.stack, locals + size)
      && t.pc == if Decode(kind, v) <= Decode(kind, b.0) then FindMark(code, target, 0) else end + 1
  {
    hide *;
    k, t := BoundRuns(env, code, at, high, false, Bne(target), kind, size, locals, v, m);
    if Decode(kind, v) > Decode(kind, OperandBytes(env, high, kind, size, m.trace).0) {
      MarkStep(env, code, end, t.r);
      RunPlus(env, code, State(at, m), k, 1);
      k, t := k + 1, State(end + 1, t.r);
    }
  }

  /** Labels Gen(base), Gen(base + 1), ... are all there. */
  ghost predicate CasesPlaced(code: seq<Instr>, base: nat, count: nat) {
    forall x: nat :: base <= x < base + count ==> Placed(code, Gen(x))
  }

  /** The chain ends at the label of the first section that matches, or falls through. */
  lemma {:induction false} DispatchRuns(env: Env, code: seq<Instr>, at: nat, ss: Sections, kind: Kind, size: nat,
                                        base: nat, skip: nat, first: nat,
                                        locals: nat, v: seq<Byte>, m: Regs) returns (k: nat, t: State)
    requires UniqueMarks(code) && Sits(code, at, DispatchCode(ss, kind, size, base, skip, locals)) && CasesPlaced(code, base, Count(ss))
    requires SlotHeld(m.stack, locals, size, v)
    ensures Run(env, code, State(at, m), k) == t
    ensures Chosen(code, at + |DispatchCode(ss, kind, size, base, skip, locals)|, base, first, Count(ss),
                   Pick(env, ss, first, kind, size, v, m.trace), locals + size, m, t)
    decreases ss
  {
    hide *;
    DispatchNext(ss, kind, size, base, skip, locals);
    PickNext(env, ss, first, kind, size, v, m.trace);
    if ss.NoMore? {
      k, t := 0, State(at, m);
      RunNothing(env, code, t);
      KeepsItself(m.stack, locals, size, v);
      ChosenIntro(code, at, base, first, 0, (None, m.trace), locals + size, m, t);
    } else {
      var l, rest := ss.label_, ss.rest;
      var test := CaseTest(l, kind, size, Gen(base), skip, locals);
      var skip' := skip + (if l.Range? then 1 else 0);
      SitsParts(code, at, test, DispatchCode(rest, kind, size, base + 1, skip', locals));
      CasesRest(code, base, Count(ss));
      var i: nat, u: State := CaseRuns(env, code, at, l, kind, size, Gen(base), skip, locals, v, m);
      var found := Matches(env, l, kind, size, v, m.trace);
      TestedParts(code, at + |test|, Gen(base), found, locals + size, m, u);
      var end := at + |DispatchCode(ss, kind, size, base, skip, locals)|;
      if found.0 {
        k, t := i, u;
        ChosenIntro(code, end, base, first, Count(ss), (Some(first), found.1), locals + size, m, t);
      } else {
        HeldStays(m.stack, u.r.stack, locals, size, v);
        var j: nat;
        j, t := DispatchRuns(env, code, u.pc, rest, kind, size, base + 1, skip', first + 1, locals, v, u.r);
        RunPlus(env, code, State(at, m), i, j);
        k := i + j;
        ChosenLater(code, end, base, first, Count(ss), Pick(env, ss, first, kind, size, v, m.trace), locals + size, m,
                    u.r, t);
      }
    }
  }

  /** At the chosen section's label, or at the end when none was chosen. */
  ghost predicate Chosen(code: seq<Instr>, end: nat, base: nat, first: nat, count: nat, p: (Option<nat>, Trace),
                         low: nat, m: Regs, t: State) {
    && t.r.trace == p.1 && Keeps(m.stack, t.r.stack, low)
    && (p.0.Some? ==> first <= p.0.value < first + count)
    && t.pc == if p.0.Some? then FindMark(code, Gen(base + p.0.value - first), 0) else end
  }

  lemma ChosenIntro(code: seq<Instr>, end: nat, base: nat, first: nat, count: nat, p: (Option<nat>, Trace), low: nat,
                    m: Regs, t: State)
    requires t.r.trace == p.1 && Keeps(m.stack, t.r.stack, low) && (p.0.Some? ==> p.0.value == first && count > 0)
    requires t.pc == if p.0.Some? then FindMark(code, Gen(base), 0) else end
    ensures Chosen(code, end, base, first, count, p, low, m, t)
  {
  }

  lemma ChosenLater(code: seq<Instr>, end: nat, base: nat, first: nat, count: nat, p: (Option<nat>, Trace), low: nat,
                    m: Regs, u: Regs, t: State)
    requires count > 0 && Keeps(m.stack, u.stack, low) && Chosen(code, end, base + 1, first + 1, count - 1, p, low, u, t)
    ensures Chosen(code, end, base, first, count, p, low, m, t)
  {
    KeepsTwice(m.stack, u.stack, t.r.stack, low);
    hide Keeps, FindMark;
    if p.0.Some? {
      assert base + p.0.value - first == base + 1 + p.0.value - (first + 1);
    }
  }

  lemma RunNothing(env: Env, code: seq<Instr>, s: State)
    ensures Run(env, code, s, 0) == s
  {
  }

  lemma KeepsItself(stack: seq<Byte>, locals: nat, size: nat, v: seq<Byte>)
    requires SlotHeld(stack, locals, size, v)
    ensures Keeps(stack, stack, locals + size)
  {
  }

  lemma DispatchNext(ss: Sections, kind: Kind, size: nat, base: nat, skip: nat, locals: nat)
    ensures DispatchCode(ss, kind, size, base, skip, locals) ==
      if ss.NoMore? then []
      else CaseTest(ss.label_, kind, size, Gen(base), skip, locals)
           + DispatchCode(ss.rest, kind, size, base + 1, skip + (if ss.label_.Range? then 1 else 0), locals)
    ensures Count(ss) == if ss.NoMore? then 0 else 1 + Count(ss.rest)
    ensures SkipLabels(ss) == if ss.NoMore? then 0 else (if ss.label_.Range? then 1 else 0) + SkipLabels(ss.rest)
  {
  }

  lemma PickNext(env: Env, ss: Sections, i: nat, kind: Kind, size: nat, v: seq<Byte>, t: Trace)
    ensures Pick(env, ss, i, kind, size, v, t) ==
      if ss.NoMore? then (None, t)
      else
        var found := Matches(env, ss.label_, kind, size, v, t);
        if found.0 then (Some(i), found.1) else Pick(env, ss.rest, i + 1, kind, size, v, found.1)
  {
  }

  lemma TestedParts(code: seq<Instr>, end: nat, target: Label, found: (bool, Trace), low: nat, m: Regs, t: State)
    requires Tested(code, end, target, found, low, m, t)
    ensures t == State(if found.0 then FindMark(code, target, 0) else end, t.r)
    ensures t.r.trace == found.1 && Keeps(m.stack, t.r.stack, low)
  {
  }

  lemma CasesRest(code: seq<Instr>, base: nat, count: nat)
    requires CasesPlaced(code, base, count) && count > 0
    ensures Placed(code, Gen(base)) && CasesPlaced(code, base + 1, count - 1)
  {
    hide Placed;
  }

  lemma CaseRuns(env: Env, code: seq<Instr>, at: nat, l: CaseLabel, kind: Kind, size: nat, target: Label, skip: nat,
                 locals: nat, v: seq<Byte>, m: Regs)
    returns (k: nat, t: State)
    requires UniqueMarks(code) && Sits(code, at, CaseTest(l, kind, size, target, skip, locals)) && Placed(code, target)
    requires SlotHeld(m.stack, locals, size, v)
    ensures Run(env, code, State(at, m), k) == t
    ensures Tested(code, at + |CaseTest(l, kind, size, target, skip, locals)|, target,
                   Matches(env, l, kind, size, v, m.trace), locals + size, m, t)
  {
    match l {
      case Default => k, t := 0, State(at, m);
      case One(op) => k, t := OneRuns(env, code, at, op, kind, size, target, skip, locals, v, m);
      case Range(a, b) => k, t := RangeRuns(env, code, at, a, b, kind, size, target, skip, locals, v, m);
    }
  }
}
