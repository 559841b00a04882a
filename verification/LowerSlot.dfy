/** Conditions as values: a slot is filled with one or zero. */
module LowerSlot {
  import opened Basics
  import opened LowerMachine
  import opened LowerCondition

  /** Conditions that are materialised through jumps. */
  predicate HasSlotForm(c: Cond) {
    c.Negated? || c.Both? || c.Either? || c.Compare?
  }

  /** The first byte tells. */
  function Flag(b: bool, size: nat): (bs: seq<Byte>)
    ensures |bs| == size
    ensures size > 0 ==> (NonZero(bs) <==> b)
  {
    var bs: seq<Byte> := seq(size, i requires 0 <= i < size => if b && i == 0 then 1 else 0);
    assert size > 0 && b ==> bs[0] != 0;
    bs
  }

  /** Where the condition fell through, store `yes`; at the false label, `no`. */
  function Choose(dst: nat, yes: seq<Byte>, no: seq<Byte>, n: nat): seq<Instr> {
    [StoreTo(dst, yes)] + ([Jmp(Gen(n + 1)), Mark(Gen(n))] + ([StoreTo(dst, no)] + [Mark(Gen(n + 1))]))
  }

  function SlotCode(c: Cond, dst: nat, size: nat, n: nat, locals: nat): seq<Instr>
    requires HasSlotForm(c)
  {
    match c
    case Negated(inner) => CondCode(inner, Gen(n), n + 2, locals) + Choose(dst, Flag(false, size), Flag(true, size), n)
    case Either(l, r) =>
      (CondCode(l, Gen(n + 2), n + 3, locals) + [StoreTo(dst, Flag(true, size))]) + ([Jmp(Gen(n + 1)), Mark(Gen(n + 2))]
      + (CondCode(r, Gen(n), n + 3 + CondLabels(l), locals) + Choose(dst, Flag(true, size), Flag(false, size), n)))
    case _ => CondCode(c, Gen(n), n + 2, locals) + Choose(dst, Flag(true, size), Flag(false, size), n)
  }

  ghost predicate Good(code: seq<Instr>, c: Cond) {
    UniqueMarks(code) && WellSized(c) && Canonical(c)
  }

  /** The run from r to t ended with `bytes` in the slot and the rest of the stack below `locals` as it was. */
  ghost predicate Filled(end: nat, dst: nat, bytes: seq<Byte>, trace: Trace, locals: nat, r: Regs, t: State) {
    && t.pc == end && t.r.trace == trace && |t.r.stack| == |r.stack|
    && dst + |bytes| <= locals <= |r.stack| && t.r.stack[..locals] == Write(r.stack, dst, bytes)[..locals]
  }

  lemma StoreStep(env: Env, code: seq<Instr>, pc: nat, dst: nat, bytes: seq<Byte>, locals: nat, r: Regs, s: Regs)
    requires pc < |code| && code[pc] == StoreTo(dst, bytes) && dst + |bytes| <= locals && Keeps(r.stack, s.stack, locals)
    ensures Run(env, code, State(pc, s), 1).pc == pc + 1
    ensures Filled(pc + 1, dst, bytes, s.trace, locals, r, Run(env, code, State(pc, s), 1))
  {
    assert Run(env, code, State(pc, s), 1) == Run(env, code, Step(env, code, State(pc, s)), 0);
    assert Write(s.stack, dst, bytes)[..locals] == Write(s.stack[..locals], dst, bytes);
    assert Write(r.stack, dst, bytes)[..locals] == Write(r.stack[..locals], dst, bytes);
  }

  lemma FilledMoves(end: nat, end': nat, dst: nat, bytes: seq<Byte>, trace: Trace, locals: nat, r: Regs, t: State)
    requires Filled(end, dst, bytes, trace, locals, r, t)
    ensures Filled(end', dst, bytes, trace, locals, r, State(end', t.r)) && t == State(end, t.r)
  {
  }

  /** Where the parts of a choice are. */
  lemma ChooseSits(code: seq<Instr>, at: nat, dst: nat, yes: seq<Byte>, no: seq<Byte>, n: nat)
    requires UniqueMarks(code) && Sits(code, at, Choose(dst, yes, no, n))
    ensures at + 4 < |code| && code[at] == StoreTo(dst, yes) && code[at + 1] == Jmp(Gen(n + 1)) && code[at + 2] == Mark(Gen(n))
      && code[at + 3] == StoreTo(dst, no) && code[at + 4] == Mark(Gen(n + 1)) && |Choose(dst, yes, no, n)| == 5
    ensures Placed(code, Gen(n)) && Placed(code, Gen(n + 1)) && FindMark(code, Gen(n), 0) == at + 2 && FindMark(code, Gen(n + 1), 0) == at + 4
  {
    hide UniqueMarks, Sits, Placed;
    SitsParts(code, at, [StoreTo(dst, yes)], [Jmp(Gen(n + 1)), Mark(Gen(n))] + ([StoreTo(dst,
          no)] + [Mark(Gen(n + 1))]));
    SitsOne(code, at, StoreTo(dst, yes));
    SitsParts(code, at + 1, [Jmp(Gen(n + 1)), Mark(Gen(n))], [StoreTo(dst, no)] + [Mark(Gen(n + 1))]);
    SitsTwo(code, at + 1, Jmp(Gen(n + 1)), Mark(Gen(n)));
    SitsParts(code, at + 3, [StoreTo(dst, no)], [Mark(Gen(n + 1))]);
    SitsOne(code, at + 3, StoreTo(dst, no));
    SitsOne(code, at + 4, Mark(Gen(n + 1)));
    MarkFound(code, Gen(n), at + 2);
    MarkFound(code, Gen(n + 1), at + 4);
  }

  /** From the choice's start, or from its false label, to its end. */
  lemma ChooseRuns(env: Env, code: seq<Instr>, at: nat, dst: nat, yes: seq<Byte>, no: seq<Byte>, n: nat, b: bool,
                   locals: nat, r: Regs, s: Regs)
    returns (k: nat, t: State)
    requires UniqueMarks(code) && Sits(code, at, Choose(dst, yes, no, n)) && |yes| == |no| && dst + |yes| <= locals
    requires Keeps(r.stack, s.stack, locals)
    ensures Run(env, code, State(if b then at else FindMark(code, Gen(n), 0), s), k) == t
    ensures Filled(at + |Choose(dst, yes, no, n)|, dst, if b then yes else no, s.trace, locals, r, t)
  {
    ChooseSits(code, at, dst, yes, no, n);
    hide *;
    if b {
      k, t := StoreThenJump(env, code, at, dst, yes, at + 4, locals, r, s);
    } else {
      MarkStep(env, code, at + 2, s);
      StoreStep(env, code, at + 3, dst, no, locals, r, s);
      RunPlus(env, code, State(at + 2, s), 1, 1);
      var u := Run(env, code, State(at + 3, s), 1);
      MarkStep(env, code, at + 4, u.r);
      RunPlus(env, code, State(at + 2, s), 2, 1);
      FilledMoves(at + 4, at + 5, dst, no, s.trace, locals, r, u);
      k, t := 3, State(at + 5, u.r);
    }
  }

  /** Storing and jumping to the end mark, then past it. */
  lemma StoreThenJump(env: Env, code: seq<Instr>, at: nat, dst: nat, yes: seq<Byte>, end: nat, locals: nat, r: Regs,
                      s: Regs)
    returns (k: nat, t: State)
    requires at + 1 < |code| && code[at] == StoreTo(dst, yes) && code[at + 1].Jmp? && dst + |yes| <= locals
    requires Placed(code, code[at + 1].target) && FindMark(code, code[at + 1].target, 0) == end && end < |code| && code[end].Mark?
    requires Keeps(r.stack, s.stack, locals)
    ensures Run(env, code, State(at, s), k) == t
    ensures Filled(end + 1, dst, yes, s.trace, locals, r, t)
  {
    hide Filled, Keeps, Run, FindMark, Placed;
    StoreStep(env, code, at, dst, yes, locals, r, s);
    var u := Run(env, code, State(at, s), 1);
    FilledMoves(at + 1, end + 1, dst, yes, s.trace, locals, r, u);
    JumpStep(env, code, at + 1, u.r);
    MarkStep(env, code, end, u.r);
    RunPlus(env, code, State(at, s), 1, 1);
    RunPlus(env, code, State(at, s), 2, 1);
    k, t := 3, State(end + 1, u.r);
  }

  lemma DecidedParts(env: Env, code: seq<Instr>, end: nat, c: Cond, f: Label, locals: nat, r: Regs, t: State)
    requires Decided(env, code, end, c, f, locals, r, t)
    ensures t == State(if Truth(env, c, r.trace).0 then end else FindMark(code, f, 0), t.r)
    ensures t.r.trace == Truth(env, c, r.trace).1 && Keeps(r.stack, t.r.stack, locals)
  {
    hide Truth, FindMark, Keeps;
  }

  /** A condition followed by a choice fills the slot according to its value. */
  lemma CondChooses(env: Env, code: seq<Instr>, at: nat, c: Cond, dst: nat, yes: seq<Byte>, no: seq<Byte>, n: nat,
                    m: nat, locals: nat, r: Regs)
    returns (k: nat, t: State)
    requires Good(code, c) && Sits(code, at, CondCode(c, Gen(n), m, locals) + Choose(dst, yes, no, n))
    requires |yes| == |no| && dst + |yes| <= locals <= |r.stack|
    ensures Run(env, code, State(at, r), k) == t
    ensures var b := Truth(env, c, r.trace);
      Filled(at + |CondCode(c, Gen(n), m, locals) + Choose(dst, yes, no, n)|, dst, if b.0 then yes else no, b.1, locals, r, t)
  {
    hide *;
    var g := CondCode(c, Gen(n), m, locals);
    SitsParts(code, at, g, Choose(dst, yes, no, n));
    GoodSits(code, at, c, Gen(n), m, locals, at + |g|, dst, yes, no, n);
    var i: nat, u: State := CondRuns(env, code, at, c, Gen(n), m, locals, r);
    DecidedParts(env, code, at + |g|, c, Gen(n), locals, r, u);
    var j: nat;
    j, t := ChooseRuns(env, code, at + |g|, dst, yes, no, n, Truth(env, c, r.trace).0, locals, r, u.r);
    RunPlus(env, code, State(at, r), i, j);
    k := i + j;
  }

  lemma GoodSits(code: seq<Instr>, at: nat, c: Cond, f: Label, m: nat, locals: nat, choice: nat, dst: nat,
                 yes: seq<Byte>, no: seq<Byte>, n: nat)
    requires Good(code, c) && Sits(code, at, CondCode(c, f, m, locals)) && Sits(code, choice, Choose(dst, yes, no, n)) && f == Gen(n)
    ensures CondSits(code, at, c, f, m, locals) && UniqueMarks(code)
  {
    hide UniqueMarks, Sits, WellSized, Canonical, CondCode, Choose;
    ChooseSits(code, choice, dst, yes, no, n);
  }

  /** The slot form leaves one for true and zero for false, evaluates what the condition evaluates, and touches
      nothing else on the stack. */
  lemma SlotRuns(env: Env, code: seq<Instr>, at: nat, c: Cond, dst: nat, size: nat, n: nat, locals: nat, r: Regs)
    returns (k: nat, t: State)
    requires HasSlotForm(c) && Good(code, c) && Sits(code, at, SlotCode(c, dst, size, n, locals)) && dst + size <= locals <= |r.stack|
    ensures Run(env, code, State(at, r), k) == t
    ensures var b := Truth(env, c, r.trace); Filled(at + |SlotCode(c, dst, size, n, locals)|, dst, Flag(b.0, size),
                                                    b.1, locals, r, t)
  {
    var yes, no := Flag(true, size), Flag(false, size);
    if c.Negated? {
      hide Run, CondCode, Choose, Filled, Flag;
      k, t := CondChooses(env, code, at, c.inner, dst, no, yes, n, n + 2, locals, r);
    } else if c.Either? {
      hide *;
      k, t := EitherFills(env, code, at, c, dst, size, n, locals, r);
    } else {
      hide Run, CondCode, Choose, Filled, Flag, Truth;
      k, t := CondChooses(env, code, at, c, dst, yes, no, n, n + 2, locals, r);
    }
  }

  lemma EitherSlotSits(code: seq<Instr>, at: nat, c: Cond, dst: nat, size: nat, n: nat, locals: nat)
    requires c.Either? && Good(code, c) && Sits(code, at, SlotCode(c, dst, size, n, locals))
    ensures var yes, no := Flag(true, size), Flag(false, size);
      var mid := at + |CondCode(c.left, Gen(n + 2), n + 3, locals)|;
      var tail := CondCode(c.right, Gen(n), n + 3 + CondLabels(c.left), locals) + Choose(dst, yes, no, n);
      && CondSits(code, at, c.left, Gen(n + 2), n + 3, locals) && Good(code, c.right)
      && mid + 2 < |code| && code[mid] == StoreTo(dst, yes) && code[mid + 1] == Jmp(Gen(n + 1)) && code[mid + 2] == Mark(Gen(n + 2))
      && FindMark(code, Gen(n + 2), 0) == mid + 2 && Sits(code, mid + 3, tail)
      && at + |SlotCode(c, dst, size, n, locals)| == mid + 3 + |tail|
      && var end := mid + 2 + |tail|; end < |code| && code[end].Mark? && Placed(code, Gen(n + 1)) && FindMark(code, Gen(n + 1), 0) == end
  {
    hide *;
    var yes, no := Flag(true, size), Flag(false, size);
    var g := CondCode(c.left, Gen(n + 2), n + 3, locals);
    var tail := CondCode(c.right, Gen(n), n + 3 + CondLabels(c.left), locals) + Choose(dst, yes, no, n);
    EitherSlotShape(code, c, dst, size, n, locals);
    SitsParts(code, at, g + [StoreTo(dst, yes)], [Jmp(Gen(n + 1)), Mark(Gen(n + 2))] + tail);
    SitsParts(code, at, g, [StoreTo(dst, yes)]);
    SitsOne(code, at + |g|, StoreTo(dst, yes));
    SitsParts(code, at + |g| + 1, [Jmp(Gen(n + 1)), Mark(Gen(n + 2))], tail);
    SitsTwo(code, at + |g| + 1, Jmp(Gen(n + 1)), Mark(Gen(n + 2)));
    MarkFound(code, Gen(n + 2), at + |g| + 2);
    CondSitsIntro(code, at, c.left, Gen(n + 2), n + 3, locals);
    SitsParts(code, at + |g| + 3, CondCode(c.right, Gen(n), n + 3 + CondLabels(c.left), locals),
              Choose(dst, yes, no, n));
    ChooseSits(code, at + |g| + 3 + |CondCode(c.right, Gen(n), n + 3 + CondLabels(c.left), locals)|, dst, yes, no, n);
  }

  lemma EitherSlotShape(code: seq<Instr>, c: Cond, dst: nat, size: nat, n: nat, locals: nat)
    requires c.Either? && Good(code, c)
    ensures UniqueMarks(code) && WellSized(c.left) && Canonical(c.left) && Good(code, c.right)
    ensures SlotCode(c, dst, size, n, locals) ==
      (CondCode(c.left, Gen(n + 2), n + 3, locals) + [StoreTo(dst, Flag(true, size))]) + ([Jmp(Gen(n + 1)),
            Mark(Gen(n + 2))]
      + (CondCode(c.right, Gen(n), n + 3 + CondLabels(c.left), locals) + Choose(dst, Flag(true, size),
            Flag(false, size), n)))
  {
    hide UniqueMarks, CondCode, Choose;
  }

  lemma EitherFills(env: Env, code: seq<Instr>, at: nat, c: Cond, dst: nat, size: nat, n: nat, locals: nat, r: Regs)
    returns (k: nat, t: State)
    requires c.Either? && Good(code, c) && Sits(code, at, SlotCode(c, dst, size, n, locals)) && dst + size <= locals <= |r.stack|
    ensures Run(env, code, State(at, r), k) == t
    ensures var b := Truth(env, c, r.trace); Filled(at + |SlotCode(c, dst, size, n, locals)|, dst, Flag(b.0, size),
                                                    b.1, locals, r, t)
  {
    hide *;
    var yes, no := Flag(true, size), Flag(false, size);
    var mid := at + |CondCode(c.left, Gen(n + 2), n + 3, locals)|;
    var tail := CondCode(c.right, Gen(n), n + 3 + CondLabels(c.left), locals) + Choose(dst, yes, no, n);
    EitherSlotSits(code, at, c, dst, size, n, locals);
    EitherTruth(env, c, r.trace);
    var i: nat, u: State := CondRuns(env, code, at, c.left, Gen(n + 2), n + 3, locals, r);
    DecidedParts(env, code, mid, c.left, Gen(n + 2), locals, r, u);
    KeepsSame(r.stack, u.r.stack, locals);
    var j: nat;
    if Truth(env, c.left, r.trace).0 {
      j, t := StoreThenJump(env, code, mid, dst, yes, mid + 2 + |tail|, locals, r, u.r);
      RunPlus(env, code, State(at, r), i, j);
      k := i + j;
    } else {
      MarkStep(env, code, mid + 2, u.r);
      j, t := CondChooses(env, code, mid + 3, c.right, dst, yes, no, n, n + 3 + CondLabels(c.left), locals, u.r);
      RunPlus(env, code, State(mid + 2, u.r), 1, j);
      RunPlus(env, code, State(at, r), i, 1 + j);
      k := i + (1 + j);
      FilledAfter(mid + 3 + |tail|, dst, Flag(Truth(env, c, r.trace).0, size), Truth(env, c, r.trace).1, locals, r,
                  u.r, t);
    }
  }

  lemma EitherTruth(env: Env, c: Cond, t: Trace)
    requires c.Either?
    ensures var left := Truth(env, c.left, t);
      Truth(env, c, t) == if left.0 then (true, left.1) else Truth(env, c.right, left.1)
  {
  }

  lemma KeepsSame(before: seq<Byte>, after: seq<Byte>, locals: nat)
    requires Keeps(before, after, locals)
    ensures locals <= |before| == |after|
  {
  }

  lemma FilledAfter(end: nat, dst: nat, bytes: seq<Byte>, trace: Trace, locals: nat, r: Regs, m: Regs, t: State)
    requires Keeps(r.stack, m.stack, locals) && Filled(end, dst, bytes, trace, locals, m, t)
    ensures Filled(end, dst, bytes, trace, locals, r, t)
  {
    assert Write(m.stack, dst, bytes)[..locals] == Write(m.stack[..locals], dst, bytes);
    assert Write(r.stack, dst, bytes)[..locals] == Write(r.stack[..locals], dst, bytes);
  }
}
