/** The compiler's emitting procedures: code is appended, labels are numbered by a counter, and the labels of
    enclosing loops are kept on fixed-size stacks. */
module LowerEmitter {
  import opened Basics
  import opened LowerMachine
  import opened LowerCondition
  import opened LowerSlot
  import opened LowerStatement
  import opened LowerContext
  import opened LowerSimulation
  import opened LowerLabels
  import opened LowerFunction

  const MAX_DEPTH := 128

  class Compiler {
    var code: seq<Instr>
    var counter: nat
    var locals: nat
    const frames: array<Frame>
    var depth: nat
    const named: array<NamedFrame>
    var namedDepth: nat
    var pending: Option<string>

    ghost predicate Valid()
      reads `depth, `namedDepth
    {
      && frames.Length == named.Length == MAX_DEPTH && depth <= MAX_DEPTH && namedDepth <= MAX_DEPTH
    }

    /** The labels of the loops and switches around the statement being compiled. */
    ghost function Enclosing(): Loops
      reads `depth, `namedDepth, frames, named
      requires Valid()
    {
      Loops(frames[..depth], named[..namedDepth])
    }

    constructor (localsUsed: nat)
      ensures Valid() && Enclosing() == Loops([], []) && pending == None && fresh(frames) && fresh(named)
      ensures code == [] && counter == 0 && locals == localsUsed
    {
      code, counter, locals := [], 0, localsUsed;
      frames := new Frame[MAX_DEPTH](_ => Frame(Fini, None));
      named := new NamedFrame[MAX_DEPTH](_ => NamedFrame("", Frame(Fini, None)));
      depth, namedDepth, pending := 0, 0, None;
    }

    /** The code so far is `before` with `more` after it; so many labels have been used; locals are back. */
    ghost predicate Added(before: seq<Instr>, more: seq<Instr>, n: nat, depth: nat)
      reads this
    {
      code == before + more && counter == n && locals == depth
    }

    /** A label no other call of this method returns. */
    method NextLabel() returns (x: Label)
      modifies `counter
      ensures x == Gen(old(counter)) && counter == old(counter) + 1
    {
      x := Gen(counter);
      counter := counter + 1;
    }

    method Emit(i: Instr)
      modifies `code
      ensures code == old(code) + [i]
    {
      code := code + [i];
    }

    method EmitAll(more: seq<Instr>)
      modifies `code
      ensures code == old(code) + more
    {
      code := code + more;
    }

    /** Room for the value, the value, and a test whether all its bytes are zero. */
    method TruthyBranchFalse(id: nat, size: nat, falseLabel: Label)
      modifies `code, `counter, `locals
      ensures Added(old(code), CondCode(Leaf(id, size), falseLabel, old(counter), old(locals)), old(counter),
                    old(locals))
    {
      ghost var before := code;
      var saved := locals;
      Emit(PushN(size % 256));
      locals := saved + size;
      Emit(EvalTo(id, saved, size));
      locals := saved;
      Emit(LdaZero);
      assert code == before + [PushN(size % 256), EvalTo(id, saved, size), LdaZero];
      var i := 0;
      while i < size
        invariant 0 <= i <= size && locals == saved && counter == old(counter)
        invariant code == before + ([PushN(size % 256), EvalTo(id, saved, size), LdaZero] + OraSlots(saved, i))
      {
        Emit(OraSlot(saved + i));
        i := i + 1;
      }
      EmitAll([StaArg1, PopN(size % 256), LdaArg1]);
      Emit(Beq(falseLabel));
      assert code == before + (TestSlot(id, size, saved) + [Beq(falseLabel)]);
    }

    /** Both operands in adjacent slots, compared by a helper; greater-than operators exchange the pointers. */
    method CompareBranchFalse(op: CmpOp, kind: Kind, size: nat, lhs: nat, rhs: nat, falseLabel: Label)
      modifies `code, `counter, `locals
      ensures Added(old(code), CondCode(Compare(op, kind, size, lhs, rhs), falseLabel, old(counter), old(locals)),
                    old(counter), old(locals))
    {
      ghost var before := code;
      var saved := locals;
      var first, second := saved, saved + size;
      EmitAll([PushN(2 * size % 256)]);
      locals := saved + 2 * size;
      EmitAll([EvalTo(lhs, first, size), EvalTo(rhs, second, size)]);
      locals := saved;
      var helper, invert := EqN, false;
      match op {
        case Eq =>
        case Ne => invert := true;
        case Lt => helper := LtN(kind);
        case Gt => helper := LtN(kind); first, second := second, first;
        case Le => helper := LeN(kind);
        case Ge => helper := LeN(kind); first, second := second, first;
      }
      EmitAll([Ptr(false, first), Ptr(true, second), Call(helper, size), PopN(2 * size % 256), LdaArg1]);
      Emit(if invert then Bne(falseLabel) else Beq(falseLabel));
      assert code == before + (CompareSlots(op, kind, size, lhs, rhs,
                                            saved) + [if op == Ne then Bne(falseLabel) else Beq(falseLabel)]);
    }

    /** Falls through if the condition holds, jumps to f if not; a conjunction shares f, a disjunction and a negation
        make labels of their own. */
    method ConditionBranchFalse(c: Cond, falseLabel: Label)
      modifies `code, `counter, `locals
      ensures Added(old(code), CondCode(c, falseLabel, old(counter), old(locals)), old(counter) + CondLabels(c),
                    old(locals))
      decreases c
    {
      match c {
        case Absent => Emit(Jmp(falseLabel));
        case Negated(inner) =>
          var end := NextLabel();
          ConditionBranchFalse(inner, end);
          Emit(Jmp(falseLabel));
          Emit(Mark(end));
          Join3(old(code), CondCode(inner, end, old(counter) + 1, old(locals)), [Jmp(falseLabel)], [Mark(end)]);
        case Both(left, right) =>
          ConditionBranchFalse(left, falseLabel);
          ConditionBranchFalse(right, falseLabel);
          Join2(old(code), CondCode(left, falseLabel, old(counter), old(locals)),
                CondCode(right, falseLabel, old(counter) + CondLabels(left), old(locals)));
        case Either(left, right) =>
          var rhs := NextLabel();
          var end := NextLabel();
          ConditionBranchFalse(left, rhs);
          EmitAll([Jmp(end), Mark(rhs)]);
          ConditionBranchFalse(right, falseLabel);
          Emit(Mark(end));
          Join4(old(code), CondCode(left, rhs, old(counter) + 2, old(locals)), [Jmp(end), Mark(rhs)],
                CondCode(right, falseLabel, old(counter) + 2 + CondLabels(left), old(locals)), [Mark(end)]);
        case Literal(text, _) =>
          if text.None? || text.value == "0" {
            Emit(Jmp(falseLabel));
          }
        case Leaf(id, size) => TruthyBranchFalse(id, size, falseLabel);
        case Compare(op, kind, size, lhs, rhs) => CompareBranchFalse(op, kind, size, lhs, rhs, falseLabel);
      }
    }

    /** One or zero in a slot, by way of jumps. */
    method ConditionToSlot(c: Cond, dst: nat, size: nat)
      requires HasSlotForm(c)
      modifies `code, `counter, `locals
      ensures Added(old(code), SlotCode(c, dst, size, old(counter), old(locals)), old(counter) + SlotLabels(c),
                    old(locals))
    {
      var falseLabel := NextLabel();
      var end := NextLabel();
      var yes, no := Flag(true, size), Flag(false, size);
      if c.Negated? {
        ConditionBranchFalse(c.inner, falseLabel);
        Choice(dst, no, yes, falseLabel, end);
        Join2(old(code), CondCode(c.inner, falseLabel, old(counter) + 2, old(locals)),
              Choose(dst, no, yes, old(counter)));
      } else if c.Either? {
        EitherToSlot(c, dst, size, falseLabel, end);
      } else {
        ConditionBranchFalse(c, falseLabel);
        Choice(dst, yes, no, falseLabel, end);
        Join2(old(code), CondCode(c, falseLabel, old(counter) + 2, old(locals)), Choose(dst, yes, no, old(counter)));
      }
    }

    method EitherToSlot(c: Cond, dst: nat, size: nat, falseLabel: Label, end: Label)
      requires c.Either? && counter >= 2 && falseLabel == Gen(counter - 2) && end == Gen(counter - 1)
      modifies `code, `counter, `locals
      ensures Added(old(code), SlotCode(c, dst, size, old(counter) - 2, old(locals)), old(counter) - 2 + SlotLabels(c),
                    old(locals))
    {
      var yes, no := Flag(true, size), Flag(false, size);
      var rhs := NextLabel();
      ConditionBranchFalse(c.left, rhs);
      Emit(StoreTo(dst, yes));
      EmitAll([Jmp(end), Mark(rhs)]);
      ConditionBranchFalse(c.right, falseLabel);
      Choice(dst, yes, no, falseLabel, end);
      hide CondCode, Choose, Flag;
      Join5(old(code), CondCode(c.left, rhs, old(counter) + 1, old(locals)), [StoreTo(dst, yes)], [Jmp(end), Mark(rhs)],
            CondCode(c.right, falseLabel, old(counter) + 1 + CondLabels(c.left), old(locals)), Choose(dst, yes, no,
                  old(counter) - 2));
    }

    method Choice(dst: nat, yes: seq<Byte>, no: seq<Byte>, falseLabel: Label, end: Label)
      requires falseLabel.Gen? && end == Gen(falseLabel.number + 1)
      modifies `code
      ensures code == old(code) + Choose(dst, yes, no, falseLabel.number)
    {
      EmitAll([StoreTo(dst, yes), Jmp(end), Mark(falseLabel), StoreTo(dst, no), Mark(end)]);
    }

    // ----- label stacks -----

    /** The stacks after a push: each takes the frame only below its capacity. */
    static function Pushed(loops: Loops, name: Option<string>, f: Frame): Loops {
      Loops(if |loops.frames| < MAX_DEPTH then loops.frames + [f] else loops.frames,
            if name.Some? && |loops.named| < MAX_DEPTH then loops.named + [NamedFrame(name.value, f)] else loops.named)
    }

    /** Beyond the capacity nothing is pushed. */
    method PushLabels(f: Frame, name: Option<string>)
      requires Valid()
      modifies `depth, `namedDepth, frames, named
      ensures Valid()
      ensures Enclosing() == Pushed(old(Enclosing()), name, f)
      ensures old(depth) < MAX_DEPTH && old(namedDepth) < MAX_DEPTH ==>
        Enclosing() == Push(old(Enclosing()), name, f) && depth == old(depth) + 1 && namedDepth <= old(namedDepth) + 1
        && namedDepth == old(namedDepth) + (if name.Some? then 1 else 0)
    {
      if depth < MAX_DEPTH {
        frames[depth] := f;
        depth := depth + 1;
      }
      if name.Some? {
        if namedDepth < MAX_DEPTH {
          named[namedDepth] := NamedFrame(name.value, f);
          namedDepth := namedDepth + 1;
        }
      }
    }

    method PopLabels(name: Option<string>, ghost loops: Loops, ghost f: Frame)
      requires Valid() && Enclosing() == Push(loops, name, f)
      modifies `depth, `namedDepth
      ensures Valid() && Enclosing() == loops
    {
      if depth > 0 {
        depth := depth - 1;
      }
      if name.Some? && namedDepth > 0 {
        namedDepth := namedDepth - 1;
      }
    }

    method CurrentBreak() returns (x: Option<Label>)
      requires Valid()
      ensures x == BreakLabel(Enclosing(), None)
    {
      x := if depth > 0 then Some(frames[depth - 1].brk) else None;
    }

    method CurrentAgain() returns (x: Option<Label>)
      requires Valid()
      ensures x == CurrentContinue(Enclosing())
    {
      x := if depth > 0 then frames[depth - 1].again else None;
    }

    /** The innermost enclosing loop or switch of that name. */
    method LookupNamed(name: string) returns (f: Option<Frame>)
      requires Valid()
      ensures f == FindNamed(Enclosing().named, name)
    {
      var i := namedDepth;
      assert named[..namedDepth][..i] == named[..namedDepth];
      while i > 0
        invariant i <= namedDepth && FindNamed(named[..namedDepth], name) == FindNamed(named[..i], name)
      {
        i := i - 1;
        assert named[..i + 1][..i] == named[..i];
        if named[i].name == name {
          return Some(named[i].frame);
        }
      }
      return None;
    }

    // ----- statements -----

    /** The statement's code has been added, and everything else is as it was. */
    ghost predicate Emitted(before: seq<Instr>, more: seq<Instr>, n: nat, depthUsed: nat, loops: Loops)
      reads this, frames, named
    {
      Added(before, more, n, depthUsed) && Valid() && Enclosing() == loops && pending == None
    }

    ghost predicate StmtEmitted(s: Stmt, name: Option<string>, before: seq<Instr>, loops: Loops, n: nat, depthUsed: nat)
      reads this, frames, named
    {
      Emitted(before, StmtCode(s, name, loops, n, depthUsed), n + StmtLabels(s), depthUsed, loops)
    }

    ghost predicate AllEmitted(ss: Stmts, before: seq<Instr>, loops: Loops, n: nat, depthUsed: nat)
      reads this, frames, named
    {
      Emitted(before, AllCode(ss, loops, n, depthUsed), n + AllLabels(ss), depthUsed, loops)
    }

    lemma AddedParts(before: seq<Instr>, more: seq<Instr>, n: nat, depthUsed: nat)
      requires Added(before, more, n, depthUsed)
      ensures code == before + more && counter == n && locals == depthUsed
    {
    }

    lemma EmittedParts(before: seq<Instr>, more: seq<Instr>, n: nat, depthUsed: nat, loops: Loops)
      requires Emitted(before, more, n, depthUsed, loops)
      ensures code == before + more && counter == n && locals == depthUsed && Valid() && Enclosing() == loops && pending == None
    {
    }

    lemma EmittedIntro(before: seq<Instr>, more: seq<Instr>, n: nat, depthUsed: nat, loops: Loops)
      requires code == before + more && counter == n && locals == depthUsed && Valid() && Enclosing() == loops && pending == None
      ensures Emitted(before, more, n, depthUsed, loops)
    {
    }

    lemma DepthOf(loops: Loops)
      requires Valid() && Enclosing() == loops
      ensures depth == |loops.frames| && namedDepth == |loops.named|
    {
    }

    lemma AllParts(ss: Stmts, before: seq<Instr>, loops: Loops, n: nat, depthUsed: nat)
      requires AllEmitted(ss, before, loops, n, depthUsed)
      ensures code == before + AllCode(ss, loops, n, depthUsed) && counter == n + AllLabels(ss) && locals == depthUsed
      ensures Valid() && Enclosing() == loops && pending == None
    {
      hide AllCode, AllLabels;
    }

    lemma StmtDone(s: Stmt, name: Option<string>, before: seq<Instr>, loops: Loops, n: nat, depthUsed: nat)
      requires code == before + StmtCode(s, name, loops, n, depthUsed) && counter == n + StmtLabels(s) && locals == depthUsed
      requires Valid() && Enclosing() == loops && pending == None
      ensures StmtEmitted(s, name, before, loops, n, depthUsed)
    {
      hide StmtCode, StmtLabels;
    }

    method EmitEffects(ids: seq<nat>)
      modifies `code
      ensures code == old(code) + EffectsCode(ids)
    {
      var i := 0;
      while i < |ids|
        invariant 0 <= i <= |ids| && code == old(code) + EffectsCode(ids[..i])
      {
        Emit(Effect(ids[i]));
        assert EffectsCode(ids[..i + 1]) == EffectsCode(ids[..i]) + [Effect(ids[i])];
        i := i + 1;
      }
      assert ids[..i] == ids;
    }

    /** A plain break outside every loop stops the compiler; an unknown name is only warned about. */
    method BreakStatement(name: Option<string>) returns (ok: bool)
      requires Valid() && pending == None
      modifies `code
      ensures ok == Accepted(Break(name), None, ScopeOf(old(Enclosing())))
      ensures ok ==> Emitted(old(code), StmtCode(Break(name), None, old(Enclosing()), old(counter), old(locals)),
                             old(counter), old(locals), old(Enclosing()))
    {
      ok := true;
      if name.Some? {
        var f := LookupNamed(name.value);
        if f.Some? {
          Emit(Jmp(f.value.brk));
        }
      } else {
        var target := CurrentBreak();
        if target.None? {
          return false;
        }
        Emit(Jmp(target.value));
      }
    }

    /** A plain continue outside every loop stops the compiler; an unknown name is only warned about. */
    method ContinueStatement(name: Option<string>) returns (ok: bool)
      requires Valid() && pending == None
      modifies `code
      ensures ok == Accepted(Continue(name), None, ScopeOf(old(Enclosing())))
      ensures ok ==> Emitted(old(code), StmtCode(Continue(name), None, old(Enclosing()), old(counter), old(locals)),
                             old(counter), old(locals), old(Enclosing()))
    {
      ok := true;
      if name.Some? {
        var f := LookupNamed(name.value);
        if f.Some? && f.value.again.Some? {
          Emit(Jmp(f.value.again.value));
        }
      } else {
        var target := CurrentAgain();
        if target.None? {
          return false;
        }
        Emit(Jmp(target.value));
      }
    }

    /** Jumps to the label at the end of the function. */
    method ReturnStatement(result: Option<nat>)
      requires Valid() && pending == None
      modifies `code
      ensures Emitted(old(code), StmtCode(Return(result), None, old(Enclosing()), old(counter), old(locals)),
                      old(counter), old(locals), old(Enclosing()))
    {
      ghost var ids := if result.Some? then [result.value] else [];
      if result.Some? {
        EmitEffects([result.value]);
      }
      assert result.None? ==> old(code) + EffectsCode(ids) == old(code);
      Emit(Jmp(Fini));
      Join2(old(code), EffectsCode(ids), [Jmp(Fini)]);
    }

    /** Any statement: its code is appended, and the stacks of labels are as before. */
    method Statement(s: Stmt) returns (ok: bool)
      requires Valid() && HasRoom(Enclosing(), Nest(s)) && (pending.Some? ==> Takes(s))
      modifies this, frames, named
      ensures ok == Accepted(s, old(pending), ScopeOf(old(Enclosing())))
      ensures ok ==> StmtEmitted(s, old(pending), old(code), old(Enclosing()), old(counter), old(locals))
      decreases s, 2
    {
      match s {
        case Effects(ids) => EmitEffects(ids); ok := true;
        case If(_, _, _) => ok := IfStatement(s);
        case Loop(_, _, _) => ok := LoopStatement(s);
        case Switch(_, _, _, _) => ok := SwitchStatement(s);
        case Break(name) => ok := BreakStatement(name);
        case Continue(name) => ok := ContinueStatement(name);
        case Return(result) => ReturnStatement(result); ok := true;
        case Block(body) => ok := StatementList(body);
        case Labelled(_, _) => ok := LabelStatement(s);
      }
    }

    /** A label names the loop or switch that follows it directly. */
    method LabelStatement(s: Stmt) returns (ok: bool)
      requires s.Labelled? && Valid() && HasRoom(Enclosing(), Nest(s)) && pending == None
      modifies this, frames, named
      ensures ok == Accepted(s, None, ScopeOf(old(Enclosing())))
      ensures ok ==> StmtEmitted(s, None, old(code), old(Enclosing()), old(counter), old(locals))
      decreases s, 1
    {
      Emit(Mark(User(s.mark)));
      var saved := pending;
      if Takes(s.inner) {
        pending := Some(s.mark);
      }
      ghost var inside := pending;
      ok := Statement(s.inner);
      if !ok {
        return;
      }
      pending := saved;
      hide StmtCode;
      Join2(old(code), [Mark(User(s.mark))], StmtCode(s.inner, inside, old(Enclosing()), old(counter), old(locals)));
      LabelledIs(s, old(Enclosing()), old(counter), old(locals));
    }

    ghost predicate LoopEmitted(shape: Shape, body: Stmts, name: Option<string>, before: seq<Instr>, loops: Loops,
                                n: nat, depthUsed: nat)
      reads this, frames, named
    {
      Emitted(before, LoopCode(shape, body, name, loops, n, depthUsed),
              n + LoopOwn(shape) + CondLabels(shape.test) + AllLabels(body), depthUsed, loops)
    }

    /** while: start and end labels, the test at the start. */
    method WhileStatement(shape: Shape, body: Stmts) returns (ok: bool)
      requires shape.WhileDo? && Valid() && HasRoom(Enclosing(), 1 + NestAll(body))
      modifies this, frames, named
      ensures ok == AllAccepted(body, InLoop(ScopeOf(old(Enclosing())), old(pending)))
      ensures ok ==> LoopEmitted(shape, body, old(pending), old(code), old(Enclosing()), old(counter), old(locals))
      decreases body, 2
    {
      hide *;
      ghost var before, loops, n, depthUsed := code, Enclosing(), counter, locals;
      var name := pending;
      pending := None;
      var start := NextLabel();
      var end := NextLabel();
      ghost var f := Frame(end, Some(start));
      WhilePieces(before, shape, body, name, loops, n, depthUsed);
      DepthOf(loops);
      RoomInside(loops, name, f, NestAll(body));
      PushLabels(Frame(end, Some(start)), name);
      Emit(Mark(start));
      ghost var headed := code;
      ConditionBranchFalse(shape.test, end);
      AddedParts(headed, CondCode(shape.test, end, n + 2, depthUsed), n + 2 + CondLabels(shape.test), depthUsed);
      ghost var tested := code;
      ok := StatementList(body);
      PushScope(loops, name, f);
      if !ok {
        return;
      }
      AllParts(body, tested, Push(loops, name, f), n + 2 + CondLabels(shape.test), depthUsed);
      Emit(Jmp(start));
      Emit(Mark(end));
      PopLabels(name, loops, f);
      LoopDone(shape, body, name, before, loops, n, depthUsed);
    }

    /** The test of a for, if it has one. */
    method ForTest(test: Cond, end: Label)
      modifies `code, `counter, `locals
      ensures Added(old(code), ForTestCode(test, end, old(counter), old(locals)), old(counter) + CondLabels(test), old(locals))
    {
      if !test.Absent? {
        ConditionBranchFalse(test, end);
      } else {
        assert code + [] == code;
      }
    }

    /** for: an absent condition is not tested, and continue goes to the step. */
    method ForStatement(shape: Shape, body: Stmts) returns (ok: bool)
      requires shape.ForDo? && Valid() && HasRoom(Enclosing(), 1 + NestAll(body))
      modifies this, frames, named
      ensures ok == AllAccepted(body, InLoop(ScopeOf(old(Enclosing())), old(pending)))
      ensures ok ==> LoopEmitted(shape, body, old(pending), old(code), old(Enclosing()), old(counter), old(locals))
      decreases body, 2
    {
      hide *;
      ghost var before, loops, n, depthUsed := code, Enclosing(), counter, locals;
      var name := pending;
      pending := None;
      var start := NextLabel();
      var step := NextLabel();
      var end := NextLabel();
      ghost var f := Frame(end, Some(step));
      ForPieces(before, shape, body, name, loops, n, depthUsed);
      DepthOf(loops);
      RoomInside(loops, name, f, NestAll(body));
      PushLabels(Frame(end, Some(step)), name);
      Emit(Mark(start));
      ghost var headed := code;
      ForTest(shape.test, end);
      AddedParts(headed, ForTestCode(shape.test, end, n + 3, depthUsed), n + 3 + CondLabels(shape.test), depthUsed);
      ghost var tested := code;
      ok := StatementList(body);
      PushScope(loops, name, f);
      if !ok {
        return;
      }
      AllParts(body, tested, Push(loops, name, f), n + 3 + CondLabels(shape.test), depthUsed);
      Emit(Mark(step));
      EmitEffects(if shape.step.Some? then [shape.step.value] else []);
      Emit(Jmp(start));
      Emit(Mark(end));
      PopLabels(name, loops, f);
      LoopDone(shape, body, name, before, loops, n, depthUsed);
    }

    /** do: the test comes after the body, and continue goes to it. */
    method DoStatement(shape: Shape, body: Stmts) returns (ok: bool)
      requires shape.DoWhile? && Valid() && HasRoom(Enclosing(), 1 + NestAll(body))
      modifies this, frames, named
      ensures ok == AllAccepted(body, InLoop(ScopeOf(old(Enclosing())), old(pending)))
      ensures ok ==> LoopEmitted(shape, body, old(pending), old(code), old(Enclosing()), old(counter), old(locals))
      decreases body, 2
    {
      hide *;
      ghost var before, loops, n, depthUsed := code, Enclosing(), counter, locals;
      var name := pending;
      pending := None;
      var start := NextLabel();
      var test := NextLabel();
      var end := NextLabel();
      ghost var f := Frame(end, Some(test));
      DoPieces(before, shape, body, name, loops, n, depthUsed);
      DepthOf(loops);
      RoomInside(loops, name, f, NestAll(body));
      Emit(Mark(start));
      PushLabels(Frame(end, Some(test)), name);
      ghost var headed := code;
      ok := StatementList(body);
      PushScope(loops, name, f);
      if !ok {
        return;
      }
      AllParts(body, headed, Push(loops, name, f), n + 3, depthUsed);
      Emit(Mark(test));
      ghost var tailed := code;
      ConditionBranchFalse(shape.test, end);
      AddedParts(tailed, CondCode(shape.test, end, n + 3 + AllLabels(body), depthUsed),
                 n + 3 + AllLabels(body) + CondLabels(shape.test), depthUsed);
      Emit(Jmp(start));
      Emit(Mark(end));
      PopLabels(name, loops, f);
      LoopDone(shape, body, name, before, loops, n, depthUsed);
    }

    method LoopStatement(s: Stmt) returns (ok: bool)
      requires s.Loop? && Valid() && HasRoom(Enclosing(), Nest(s))
      modifies this, frames, named
      ensures ok == Accepted(s, old(pending), ScopeOf(old(Enclosing())))
      ensures ok ==> StmtEmitted(s, old(pending), old(code), old(Enclosing()), old(counter), old(locals))
      decreases s, 1
    {
      ghost var before, loops, n, depthUsed, name := code, Enclosing(), counter, locals, pending;
      hide *;
      LoopNest(s, name, ScopeOf(loops));
      StmtIs(s, name, loops, n, depthUsed);
      EmitEffects(s.init);
      ghost var after := code;
      match s.shape {
        case WhileDo(_) => ok := WhileStatement(s.shape, s.body);
        case ForDo(_, _) => ok := ForStatement(s.shape, s.body);
        case DoWhile(_) => ok := DoStatement(s.shape, s.body);
      }
      if ok {
        LoopEmittedParts(s.shape, s.body, name, after, loops, n, depthUsed);
        Join2(before, EffectsCode(s.init), LoopCode(s.shape, s.body, name, loops, n, depthUsed));
        StmtDone(s, name, before, loops, n, depthUsed);
      }
    }

    lemma LoopEmittedParts(shape: Shape, body: Stmts, name: Option<string>, before: seq<Instr>, loops: Loops, n: nat,
                           depthUsed: nat)
      requires LoopEmitted(shape, body, name, before, loops, n, depthUsed)
      ensures code == before + LoopCode(shape, body, name, loops, n, depthUsed)
      ensures counter == n + LoopOwn(shape) + CondLabels(shape.test) + AllLabels(body) && locals == depthUsed
      ensures Valid() && Enclosing() == loops && pending == None
    {
      hide LoopCode, CondLabels, AllLabels;
    }

    lemma LoopDone(shape: Shape, body: Stmts, name: Option<string>, before: seq<Instr>, loops: Loops, n: nat,
                   depthUsed: nat)
      requires code == before + LoopCode(shape, body, name, loops, n, depthUsed)
      requires counter == n + LoopOwn(shape) + CondLabels(shape.test) + AllLabels(body) && locals == depthUsed
      requires Valid() && Enclosing() == loops && pending == None
      ensures LoopEmitted(shape, body, name, before, loops, n, depthUsed)
    {
      hide LoopCode, CondLabels, AllLabels;
    }

    // ----- switch -----

    /** One label per section; the last default section is the one that counts. */
    method AllocateCases(ss: Sections) returns (d: Option<nat>)
      modifies `counter
      ensures counter == old(counter) + Count(ss) && d == LastDefault(ss, 0)
    {
      d := None;
      var i, rest := 0, ss;
      while rest.Section?
        invariant counter == old(counter) + i && i + Count(rest) == Count(ss)
        invariant LastDefault(ss, 0) == (if LastDefault(rest, i).Some? then LastDefault(rest, i) else d)
        decreases rest
      {
        var _ := NextLabel();
        if rest.label_.Default? {
          d := Some(i);
        }
        i, rest := i + 1, rest.rest;
      }
    }

    /** Compares the switch value with an operand put after it. */
    method TestAgainst(v: Operand, h: Helper, operandFirst: bool, kind: Kind, size: nat)
      modifies `code, `locals
      ensures Added(old(code), TestOperand(v, h, operandFirst, kind, size, old(locals)), counter, old(locals))
    {
      var saved := locals;
      locals := saved + 2 * size;
      Emit(OperandCode(v, kind, size, saved + size));
      locals := saved;
      EmitAll([Ptr(false, if operandFirst then saved + size else saved), Ptr(true, if operandFirst then saved else saved + size), Call(h, size)]);
      Emit(LdaArg1);
    }

    method TestCase(l: CaseLabel, kind: Kind, size: nat, target: Label)
      modifies `code, `counter, `locals
      ensures Added(old(code), CaseTest(l, kind, size, target, old(counter), old(locals)),
                    old(counter) + (if l.Range? then 1 else 0), old(locals))
    {
      match l {
        case Default =>
        case One(v) =>
          TestAgainst(v, EqN, false, kind, size);
          Emit(Bne(target));
        case Range(a, b) =>
          var skip := NextLabel();
          var low, high := a, b;
          if a.Constant? && b.Constant? && a.value > b.value {
            low, high := b, a;
          }
          TestAgainst(low, LeN(kind), true, kind, size);
          Emit(Beq(skip));
          TestAgainst(high, LeN(kind), false, kind, size);
          Emit(Bne(target));
          Emit(Mark(skip));
          hide TestOperand;
          Join6(old(code), TestOperand(low, LeN(kind), true, kind, size, old(locals)), [Beq(skip)],
                TestOperand(high, LeN(kind), false, kind, size, old(locals)), [Bne(target)], [Mark(skip)]);
      }
    }

    method DispatchCases(ss: Sections, kind: Kind, size: nat, base: nat)
      modifies `code, `counter, `locals
      ensures Added(old(code), DispatchCode(ss, kind, size, base, old(counter), old(locals)),
                    old(counter) + SkipLabels(ss), old(locals))
    {
      hide CaseTest, DispatchCode, SkipLabels;
      ghost var before, n, depthUsed, done := code, counter, locals, [];
      var i, rest := 0, ss;
      while rest.Section?
        invariant Added(before, done, counter, depthUsed)
        invariant DispatchCode(ss, kind, size, base, n, depthUsed) == done + DispatchCode(rest, kind, size, base + i,
              counter, depthUsed)
        invariant counter + SkipLabels(rest) == n + SkipLabels(ss)
        decreases rest
      {
        LowerDispatch.DispatchNext(rest, kind, size, base + i, counter, depthUsed);
        ghost var was, test := counter, CaseTest(rest.label_, kind, size, Gen(base + i), counter, depthUsed);
        TestCase(rest.label_, kind, size, Gen(base + i));
        Join2(before, done, test);
        Join2(done, test, DispatchCode(rest.rest, kind, size, base + i + 1, counter, depthUsed));
        done := done + test;
        i, rest := i + 1, rest.rest;
      }
      LowerDispatch.DispatchNext(rest, kind, size, base + i, counter, depthUsed);
    }

    ghost predicate BodiesEmitted(ss: Sections, base: nat, room: nat, before: seq<Instr>, loops: Loops, n: nat,
                                  depthUsed: nat)
      reads this, frames, named
    {
      Emitted(before, BodiesCode(ss, loops, base, n, depthUsed + room), n + BodyLabels(ss), depthUsed, loops)
    }

    /** One section: its label, and its body with the switch's temporaries in place. */
    method SectionBody(body: Stmts, x: Label, room: nat, ghost before: seq<Instr>,
                       ghost done: seq<Instr>) returns (ok: bool)
      requires Valid() && HasRoom(Enclosing(), NestAll(body)) && pending == None && code == before + done
      modifies this, frames, named
      ensures ok == AllAccepted(body, ScopeOf(old(Enclosing())))
      ensures ok ==> Emitted(before, done + ([Mark(x)] + AllCode(body, old(Enclosing()), old(counter), old(locals) + room)),
                             old(counter) + AllLabels(body), old(locals), old(Enclosing()))
      decreases body, 2
    {
      hide *;
      ghost var loops, n := Enclosing(), counter;
      var saved := locals;
      Emit(Mark(x));
      locals := saved + room;
      ghost var marked := code;
      ok := StatementList(body);
      if !ok {
        return;
      }
      AllParts(body, marked, loops, n, saved + room);
      locals := saved;
      Join3(before, done, [Mark(x)], AllCode(body, loops, n, saved + room));
      EmittedIntro(before, done + ([Mark(x)] + AllCode(body, loops, n, saved + room)), n + AllLabels(body), saved,
                   loops);
    }

    /** The sections' bodies, one after the other, each with the switch's temporaries in place. */
    method SectionBodies(ss: Sections, base: nat, room: nat) returns (ok: bool)
      requires Valid() && HasRoom(Enclosing(), NestSections(ss)) && pending == None
      modifies this, frames, named
      ensures ok == SectionsAccepted(ss, ScopeOf(old(Enclosing())))
      ensures ok ==> BodiesEmitted(ss, base, room, old(code), old(Enclosing()), old(counter), old(locals))
      decreases ss, 1
    {
      hide *;
      ghost var loops, n := Enclosing(), counter;
      ghost var before, done := code, [];
      var saved := locals;
      var i, rest := 0, ss;
      SectionsStart(ss, loops, base, n, saved + room);
      EmittedIntro(before, done, n, saved, loops);
      while rest.Section?
        invariant rest == ss || rest < ss
        invariant Emitted(before, done, counter, saved, loops) && HasRoom(loops, NestSections(rest))
        invariant SectionsSplit(ss, rest, done, loops, base, base + i, n, counter, saved + room)
        decreases rest
      {
        ghost var was := counter;
        EmittedParts(before, done, was, saved, loops);
        SectionNest(rest);
        RoomLess(loops, NestSections(rest), NestAll(rest.body));
        RoomLess(loops, NestSections(rest), NestSections(rest.rest));
        SectionsNext(ss, rest, done, loops, base, base + i, n, was, saved + room);
        ok := SectionBody(rest.body, Gen(base + i), room, before, done);
        if !ok {
          return;
        }
        EmittedParts(before, done + ([Mark(Gen(base + i))] + AllCode(rest.body, loops, was, saved + room)),
                     was + AllLabels(rest.body), saved, loops);
        done := done + ([Mark(Gen(base + i))] + AllCode(rest.body, loops, was, saved + room));
        i, rest := i + 1, rest.rest;
      }
      ok := true;
      SectionsDone(ss, done, loops, base, base + i, n, counter, saved + room);
      BodiesDone(ss, base, room, before, done, loops, n, counter, saved);
    }

    lemma BodiesDone(ss: Sections, base: nat, room: nat, before: seq<Instr>, done: seq<Instr>, loops: Loops, n: nat,
                     k: nat, depthUsed: nat)
      requires Emitted(before, done, k, depthUsed, loops) && done == BodiesCode(ss, loops, base, n, depthUsed + room) && k == n + BodyLabels(ss)
      ensures BodiesEmitted(ss, base, room, before, loops, n, depthUsed)
    {
      hide Emitted, BodiesCode, BodyLabels;
    }

    /** switch: nothing at all for one without sections; otherwise the tests, the sections, and the clean-up. */
    method SwitchStatement(s: Stmt) returns (ok: bool)
      requires s.Switch? && Valid() && HasRoom(Enclosing(), Nest(s))
      modifies this, frames, named
      ensures ok == Accepted(s, old(pending), ScopeOf(old(Enclosing())))
      ensures ok ==> StmtEmitted(s, old(pending), old(code), old(Enclosing()), old(counter), old(locals))
      decreases s, 1
    {
      hide *;
      ghost var before, loops, n, depthUsed := code, Enclosing(), counter, locals;
      var name := pending;
      pending := None;
      SwitchNest(s, name, ScopeOf(loops));
      StmtIs(s, name, loops, n, depthUsed);
      if s.sections.NoMore? {
        assert before == before + [];
        StmtDone(s, name, before, loops, n, depthUsed);
        return true;
      }
      ghost var count, skips := Count(s.sections), SkipLabels(s.sections);
      SwitchIs(s, name, loops, n, depthUsed);
      var cleanup := NextLabel();
      var end := NextLabel();
      SelectSection(s, cleanup);
      AddedParts(before, SelectCode(s, n, depthUsed), n + 2 + count + skips, depthUsed);
      ghost var selected := code;
      ok := SwitchRest(s, cleanup, end, name);
      if !ok {
        return;
      }
      EmittedParts(selected, RestCode(s, name, loops, n, n + 2 + count + skips, depthUsed),
                   n + 2 + count + skips + BodyLabels(s.sections), depthUsed, loops);
      SwitchHalves(before, s, name, loops, n, depthUsed);
      StmtDone(s, name, before, loops, n, depthUsed);
    }

    /** From the value to the jump that ends the tests. */
    method SelectSection(s: Stmt, cleanup: Label)
      requires s.Switch? && cleanup.Gen? && counter == cleanup.number + 2
      modifies `code, `counter, `locals
      ensures Added(old(code), SelectCode(s, cleanup.number, old(locals)),
                    old(counter) + Count(s.sections) + SkipLabels(s.sections), old(locals))
    {
      hide *;
      ghost var before, n := code, cleanup.number;
      var room, saved := 2 * s.size % 256, locals;
      Emit(PushN(room));
      locals := saved + 2 * s.size;
      Emit(EvalTo(s.id, saved, s.size));
      locals := saved;
      var d := AllocateCases(s.sections);
      ghost var pushed, tests := code, DispatchCode(s.sections, s.kind, s.size, n + 2, n + 2 + Count(s.sections),
                                                    saved);
      DispatchCases(s.sections, s.kind, s.size, cleanup.number + 2);
      AddedParts(pushed, tests, n + 2 + Count(s.sections) + SkipLabels(s.sections), saved);
      SelectIs(s, n, saved);
      Emit(Jmp(if d.Some? then Gen(cleanup.number + 2 + d.value) else cleanup));
      SelectRegroup(before, PushN(room), EvalTo(s.id, saved, s.size), tests, Jmp(ElseLabel(s.sections, n)));
      AddedIntro(before, SelectCode(s, n, saved), n + 2 + Count(s.sections) + SkipLabels(s.sections), saved);
    }

    lemma AddedIntro(before: seq<Instr>, more: seq<Instr>, n: nat, depthUsed: nat)
      requires code == before + more && counter == n && locals == depthUsed
      ensures Added(before, more, n, depthUsed)
    {
    }

    /** The bodies between pushing and popping the switch's labels, and the clean-up. */
    method SwitchRest(s: Stmt, cleanup: Label, end: Label, name: Option<string>) returns (ok: bool)
      requires s.Switch? && cleanup.Gen? && end == Gen(cleanup.number + 1) && pending == None
      requires Valid() && HasRoom(Enclosing(), 1 + NestSections(s.sections))
      modifies this, frames, named
      ensures ok == SectionsAccepted(s.sections, InSwitch(ScopeOf(old(Enclosing())), name))
      ensures ok ==> Emitted(old(code), RestCode(s, name, old(Enclosing()), cleanup.number, old(counter), old(locals)),
                             old(counter) + BodyLabels(s.sections), old(locals), old(Enclosing()))
      decreases s, 0
    {
      hide *;
      ghost var before, loops, m, depthUsed := code, Enclosing(), counter, locals;
      ghost var n := cleanup.number;
      var again := CurrentAgain();
      ghost var f := Frame(cleanup, again);
      DepthOf(loops);
      RoomInside(loops, name, f, NestSections(s.sections));
      PushLabels(Frame(cleanup, again), name);
      ok := SectionBodies(s.sections, cleanup.number + 2, 2 * s.size);
      PushScope(loops, name, f);
      if !ok {
        return;
      }
      BodiesParts(s.sections, n + 2, 2 * s.size, before, Push(loops, name, f), m, depthUsed);
      PopLabels(name, loops, f);
      EmitAll([Mark(cleanup), PopN(2 * s.size % 256), Mark(end)]);
      RestIs(s, name, loops, n, m, depthUsed);
      Join2(before, BodiesCode(s.sections, Push(loops, name, f), n + 2, m, depthUsed + 2 * s.size),
            [Mark(cleanup), PopN(2 * s.size % 256), Mark(end)]);
      EmittedIntro(before, RestCode(s, name, loops, n, m, depthUsed), m + BodyLabels(s.sections), depthUsed, loops);
    }

    lemma BodiesParts(ss: Sections, base: nat, room: nat, before: seq<Instr>, loops: Loops, n: nat, depthUsed: nat)
      requires BodiesEmitted(ss, base, room, before, loops, n, depthUsed)
      ensures code == before + BodiesCode(ss, loops, base, n, depthUsed + room) && counter == n + BodyLabels(ss) && locals == depthUsed
      ensures Valid() && Enclosing() == loops && pending == None
    {
      hide BodiesCode, BodyLabels;
    }

    // ----- lists of statements -----

    /** Statements one after another, until one stops the compiler. */
    method StatementList(ss: Stmts) returns (ok: bool)
      requires Valid() && HasRoom(Enclosing(), NestAll(ss)) && pending == None
      modifies this, frames, named
      ensures ok == AllAccepted(ss, ScopeOf(old(Enclosing())))
      ensures ok ==> AllEmitted(ss, old(code), old(Enclosing()), old(counter), old(locals))
      decreases ss, 1
    {
      hide *;
      ghost var loops, n, depthUsed := Enclosing(), counter, locals;
      ghost var before, done := code, [];
      var rest := ss;
      ListStart(ss, loops, n, depthUsed);
      EmittedIntro(before, done, n, depthUsed, loops);
      while rest.Then?
        invariant rest == ss || rest < ss
        invariant Emitted(before, done, counter, depthUsed, loops) && HasRoom(loops, NestAll(rest))
        invariant ListSplit(ss, rest, done, loops, n, counter, depthUsed)
        decreases rest
      {
        ghost var was, at := counter, code;
        EmittedParts(before, done, was, depthUsed, loops);
        ListNext(ss, rest, done, loops, n, was, depthUsed);
        RoomLess(loops, NestAll(rest), Nest(rest.first));
        RoomLess(loops, NestAll(rest), NestAll(rest.rest));
        ok := Statement(rest.first);
        if !ok {
          return;
        }
        StmtJoins(rest.first, before, done, at, loops, was, depthUsed);
        done := done + StmtCode(rest.first, None, loops, was, depthUsed);
        rest := rest.rest;
      }
      ok := true;
      ListDone(ss, done, loops, n, counter, depthUsed);
      AllDone(ss, before, done, loops, n, counter, depthUsed);
    }

    lemma StmtJoins(s: Stmt, before: seq<Instr>, done: seq<Instr>, at: seq<Instr>, loops: Loops, n: nat, depthUsed: nat)
      requires StmtEmitted(s, None, at, loops, n, depthUsed) && at == before + done
      ensures Emitted(before, done + StmtCode(s, None, loops, n, depthUsed), counter, depthUsed, loops) && counter == n + StmtLabels(s)
    {
      hide StmtCode, StmtLabels, Enclosing, Valid;
      Join2(before, done, StmtCode(s, None, loops, n, depthUsed));
    }

    lemma AllDone(ss: Stmts, before: seq<Instr>, done: seq<Instr>, loops: Loops, n: nat, k: nat, depthUsed: nat)
      requires Emitted(before, done, k, depthUsed, loops) && done == AllCode(ss, loops, n, depthUsed) && k == n + AllLabels(ss)
      ensures AllEmitted(ss, before, loops, n, depthUsed)
    {
      hide Emitted, AllCode, AllLabels;
    }

    /** A whole body, and the label every return goes to. */
    method FunctionBody(body: Stmts) returns (ok: bool)
      requires Valid() && Enclosing() == NO_LOOPS && pending == None && NestAll(body) <= MAX_DEPTH
      modifies this, frames, named
      ensures ok == AllAccepted(body, NO_SCOPE)
      ensures ok ==> code == old(code) + FunctionCode(body, old(counter), old(locals)) && counter == old(counter) + AllLabels(body)
    {
      ghost var before, n, depthUsed := code, counter, locals;
      assert ScopeOf(NO_LOOPS) == NO_SCOPE by { assert KnownNames([]) == []; }
      hide AllCode, AllLabels, AllAccepted, NestAll;
      ok := StatementList(body);
      if ok {
        AllParts(body, before, NO_LOOPS, n, depthUsed);
        Emit(Mark(Fini));
        Join2(before, AllCode(body, NO_LOOPS, n, depthUsed), [Mark(Fini)]);
      }
    }

    /** Without an else part there is no jump over it, and no end label. */
    method IfStatement(s: Stmt) returns (ok: bool)
      requires s.If? && Valid() && HasRoom(Enclosing(), Nest(s)) && pending == None
      modifies this, frames, named
      ensures ok == Accepted(s, None, ScopeOf(old(Enclosing())))
      ensures ok ==> StmtEmitted(s, None, old(code), old(Enclosing()), old(counter), old(locals))
      decreases s, 1
    {
      hide *;
      ghost var before, loops, n, depthUsed := code, Enclosing(), counter, locals;
      IfNest(s, ScopeOf(loops));
      RoomLess(loops, Nest(s), NestAll(s.yes));
      RoomLess(loops, Nest(s), NestAll(s.no));
      IfJoined(before, s, loops, n, depthUsed);
      var falseLabel := NextLabel();
      var end := NextLabel();
      ConditionBranchFalse(s.test, falseLabel);
      AddedParts(before, CondCode(s.test, falseLabel, n + 2, depthUsed), n + 2 + CondLabels(s.test), depthUsed);
      ghost var middle := code;
      ok := StatementList(s.yes);
      if !ok {
        return;
      }
      AllParts(s.yes, middle, loops, n + 2 + CondLabels(s.test), depthUsed);
      ghost var most := code;
      ok := IfRest(s.no, falseLabel, end);
      if !ok {
        return;
      }
      EmittedParts(most, ElseCode(s.no, falseLabel, end, loops, n + 2 + CondLabels(s.test) + AllLabels(s.yes),
                                  depthUsed),
                   n + 2 + CondLabels(s.test) + AllLabels(s.yes) + AllLabels(s.no), depthUsed, loops);
      StmtDone(s, None, before, loops, n, depthUsed);
    }

    /** The jump over the else part, the false label, the else part and its end. */
    method IfRest(no: Stmts, falseLabel: Label, end: Label) returns (ok: bool)
      requires Valid() && HasRoom(Enclosing(), NestAll(no)) && pending == None
      modifies this, frames, named
      ensures ok == AllAccepted(no, ScopeOf(old(Enclosing())))
      ensures ok ==> Emitted(old(code), ElseCode(no, falseLabel, end, old(Enclosing()), old(counter), old(locals)),
                             old(counter) + AllLabels(no), old(locals), old(Enclosing()))
      decreases no, 2
    {
      if no.Nothing? {
        Emit(Mark(falseLabel));
        return true;
      }
      EmitAll([Jmp(end), Mark(falseLabel)]);
      hide AllCode, AllAccepted, AllLabels;
      ok := StatementList(no);
      if !ok {
        return;
      }
      Emit(Mark(end));
      Join3(old(code), [Jmp(end), Mark(falseLabel)], AllCode(no, old(Enclosing()), old(counter), old(locals)),
            [Mark(end)]);
    }
  }

  function ElseCode(no: Stmts, falseLabel: Label, end: Label, loops: Loops, n: nat, locals: nat): seq<Instr> {
    if no.Nothing? then [Mark(falseLabel)]
    else [Jmp(end), Mark(falseLabel)] + (AllCode(no, loops, n, locals) + [Mark(end)])
  }

  /** ss is compiled up to `rest`: `done` is the code so far, k the next label. */
  ghost predicate ListSplit(ss: Stmts, rest: Stmts, done: seq<Instr>, loops: Loops, n: nat, k: nat, locals: nat) {
    && AllCode(ss, loops, n, locals) == done + AllCode(rest, loops, k, locals)
    && k + AllLabels(rest) == n + AllLabels(ss)
    && AllAccepted(ss, ScopeOf(loops)) == AllAccepted(rest, ScopeOf(loops))
  }

  ghost predicate SectionsSplit(ss: Sections, rest: Sections, done: seq<Instr>, loops: Loops, base: nat, at: nat,
                                n: nat, k: nat, locals: nat) {
    && BodiesCode(ss, loops, base, n, locals) == done + BodiesCode(rest, loops, at, k, locals)
    && k + BodyLabels(rest) == n + BodyLabels(ss)
    && SectionsAccepted(ss, ScopeOf(loops)) == SectionsAccepted(rest, ScopeOf(loops))
  }

  /** One section further; if its body is not accepted, neither is the whole. */
  lemma SectionsNext(ss: Sections, rest: Sections, done: seq<Instr>, loops: Loops, base: nat, at: nat, n: nat, k: nat,
                     locals: nat)
    requires SectionsSplit(ss, rest, done, loops, base, at, n, k, locals) && rest.Section?
    ensures !AllAccepted(rest.body, ScopeOf(loops)) ==> !SectionsAccepted(ss, ScopeOf(loops))
    ensures AllAccepted(rest.body, ScopeOf(loops)) ==>
      SectionsSplit(ss, rest.rest, done + ([Mark(Gen(at))] + AllCode(rest.body, loops, k, locals)), loops, base,
                    at + 1, n, k + AllLabels(rest.body), locals)
  {
    BodiesAre(rest, loops, at, k, locals);
    SkipIs(rest);
    hide BodiesCode, AllCode, AllLabels, BodyLabels, AllAccepted, ScopeOf;
    Join2(done, [Mark(Gen(at))] + AllCode(rest.body, loops, k, locals),
          BodiesCode(rest.rest, loops, at + 1, k + AllLabels(rest.body), locals));
    Join2([Mark(Gen(at))], AllCode(rest.body, loops, k, locals), BodiesCode(rest.rest, loops, at + 1,
          k + AllLabels(rest.body), locals));
  }

  lemma SectionsStart(ss: Sections, loops: Loops, base: nat, n: nat, locals: nat)
    ensures SectionsSplit(ss, ss, [], loops, base, base, n, n, locals)
  {
    hide BodiesCode, SectionsAccepted, BodyLabels;
    assert [] + BodiesCode(ss, loops, base, n, locals) == BodiesCode(ss, loops, base, n, locals);
  }

  lemma SectionsDone(ss: Sections, done: seq<Instr>, loops: Loops, base: nat, at: nat, n: nat, k: nat, locals: nat)
    requires SectionsSplit(ss, NoMore, done, loops, base, at, n, k, locals)
    ensures BodiesCode(ss, loops, base, n, locals) == done && k == n + BodyLabels(ss) && SectionsAccepted(ss, ScopeOf(loops))
  {
  }

  lemma SectionNest(ss: Sections)
    requires ss.Section?
    ensures NestAll(ss.body) <= NestSections(ss) && NestSections(ss.rest) <= NestSections(ss)
  {
  }

  lemma SwitchNest(s: Stmt, name: Option<string>, scope: Scope)
    requires s.Switch?
    ensures Nest(s) == 1 + NestSections(s.sections) && Accepted(s, name, scope) == SectionsAccepted(s.sections, InSwitch(scope, name))
    ensures s.sections.NoMore? ==> Accepted(s, name, scope)
  {
  }

  /** The two halves of a switch: choosing a section, and the sections. */
  function SelectCode(s: Stmt, n: nat, locals: nat): seq<Instr>
    requires s.Switch?
  {
    [PushN(2 * s.size % 256), EvalTo(s.id, locals, s.size)]
    + (DispatchCode(s.sections, s.kind, s.size, n + 2, n + 2 + Count(s.sections),
                    locals) + [Jmp(ElseLabel(s.sections, n))])
  }

  function RestCode(s: Stmt, name: Option<string>, loops: Loops, n: nat, m: nat, locals: nat): seq<Instr>
    requires s.Switch?
  {
    BodiesCode(s.sections, Push(loops, name, SwitchFrame(loops, n)), n + 2, m, locals + 2 * s.size)
    + [Mark(Gen(n)), PopN(2 * s.size % 256), Mark(Gen(n + 1))]
  }

  lemma RestIs(s: Stmt, name: Option<string>, loops: Loops, n: nat, m: nat, locals: nat)
    requires s.Switch?
    ensures RestCode(s, name, loops, n, m, locals) ==
      BodiesCode(s.sections, Push(loops, name, Frame(Gen(n), CurrentContinue(loops))), n + 2, m, locals + 2 * s.size)
      + [Mark(Gen(n)), PopN(2 * s.size % 256), Mark(Gen(n + 1))]
  {
    hide BodiesCode, Push, CurrentContinue;
  }

  lemma SwitchFrameIs(loops: Loops, n: nat)
    ensures SwitchFrame(loops, n) == Frame(Gen(n), CurrentContinue(loops))
  {
  }

  lemma SwitchHalves(before: seq<Instr>, s: Stmt, name: Option<string>, loops: Loops, n: nat, locals: nat)
    requires s.Switch? && s.sections.Section?
    ensures var m := n + 2 + Count(s.sections) + SkipLabels(s.sections);
      before + SwitchCode(s, name, loops, n, locals) ==
        before + SelectCode(s, n, locals) + RestCode(s, name, loops, n, m, locals)
  {
    hide *;
    var m := n + 2 + Count(s.sections) + SkipLabels(s.sections);
    SwitchIs(s, name, loops, n, locals);
    SelectIs(s, n, locals);
    RestIs(s, name, loops, n, m, locals);
    SwitchFrameIs(loops, n);
    SwitchRegroup(before, [PushN(2 * s.size % 256), EvalTo(s.id, locals, s.size)],
                  DispatchCode(s.sections, s.kind, s.size, n + 2, n + 2 + Count(s.sections), locals),
                  Jmp(ElseLabel(s.sections, n)),
                  BodiesCode(s.sections, Push(loops, name, SwitchFrame(loops, n)), n + 2, m, locals + 2 * s.size),
                  Mark(Gen(n)), PopN(2 * s.size % 256), Mark(Gen(n + 1)));
  }

  lemma SwitchRegroup(a: seq<Instr>, b: seq<Instr>, d: seq<Instr>, e: Instr, f: seq<Instr>, g: Instr, h: Instr,
                      i: Instr)
    ensures a + (b + (d + ([e] + (f + ([g, h] + [i]))))) == a + (b + (d + [e])) + (f + [g, h, i])
  {
  }

  lemma SelectIs(s: Stmt, n: nat, locals: nat)
    requires s.Switch?
    ensures SelectCode(s, n, locals) ==
      [PushN(2 * s.size % 256), EvalTo(s.id, locals, s.size)]
      + (DispatchCode(s.sections, s.kind, s.size, n + 2, n + 2 + Count(s.sections),
                      locals) + [Jmp(ElseLabel(s.sections, n))])
    ensures ElseLabel(s.sections, n) ==
      if LastDefault(s.sections, 0).Some? then Gen(n + 2 + LastDefault(s.sections, 0).value) else Gen(n)
  {
  }

  lemma SelectRegroup(a: seq<Instr>, b: Instr, c: Instr, d: seq<Instr>, e: Instr)
    ensures a + [b] + [c] + d + [e] == a + ([b, c] + (d + [e]))
  {
  }

  lemma ListStart(ss: Stmts, loops: Loops, n: nat, locals: nat)
    ensures ListSplit(ss, ss, [], loops, n, n, locals)
  {
    hide AllCode, AllLabels, AllAccepted;
    assert [] + AllCode(ss, loops, n, locals) == AllCode(ss, loops, n, locals);
  }

  /** One statement further; if it is not accepted, neither is the whole. */
  lemma ListNext(ss: Stmts, rest: Stmts, done: seq<Instr>, loops: Loops, n: nat, k: nat, locals: nat)
    requires ListSplit(ss, rest, done, loops, n, k, locals) && rest.Then?
    ensures !Accepted(rest.first, None, ScopeOf(loops)) ==> !AllAccepted(ss, ScopeOf(loops))
    ensures Accepted(rest.first, None, ScopeOf(loops)) ==>
      ListSplit(ss, rest.rest, done + StmtCode(rest.first, None, loops, k, locals), loops, n,
                k + StmtLabels(rest.first), locals)
    ensures Nest(rest.first) <= NestAll(rest) && NestAll(rest.rest) <= NestAll(rest)
  {
    AllIs(rest, loops, k, locals);
    hide StmtCode, StmtLabels, Accepted, ScopeOf, AllCode, AllLabels;
    Join2(done, StmtCode(rest.first, None, loops, k, locals), AllCode(rest.rest, loops, k + StmtLabels(rest.first),
                                                                      locals));
  }

  lemma ListDone(ss: Stmts, done: seq<Instr>, loops: Loops, n: nat, k: nat, locals: nat)
    requires ListSplit(ss, Nothing, done, loops, n, k, locals)
    ensures AllCode(ss, loops, n, locals) == done && k == n + AllLabels(ss) && AllAccepted(ss, ScopeOf(loops))
  {
  }

  lemma LabelledIs(s: Stmt, loops: Loops, n: nat, locals: nat)
    requires s.Labelled?
    ensures StmtCode(s, None, loops, n, locals) ==
      [Mark(User(s.mark))] + StmtCode(s.inner, if Takes(s.inner) then Some(s.mark) else None, loops, n, locals)
    ensures StmtLabels(s) == StmtLabels(s.inner)
  {
  }

  lemma IfJoined(before: seq<Instr>, s: Stmt, loops: Loops, n: nat, locals: nat)
    requires s.If?
    ensures var m := n + 2 + CondLabels(s.test);
      before + StmtCode(s, None, loops, n, locals) ==
        before + CondCode(s.test, Gen(n), n + 2, locals) + AllCode(s.yes, loops, m, locals)
        + ElseCode(s.no, Gen(n), Gen(n + 1), loops, m + AllLabels(s.yes), locals)
    ensures StmtLabels(s) == 2 + CondLabels(s.test) + AllLabels(s.yes) + AllLabels(s.no)
  {
    hide *;
    var m := n + 2 + CondLabels(s.test);
    IfShape(s, None, loops, n, locals);
    IfLabels(s);
    ElseCodeIs(s.no, Gen(n), Gen(n + 1), loops, m + AllLabels(s.yes), locals);
    var cond, yes, rest := CondCode(s.test, Gen(n), n + 2, locals), AllCode(s.yes, loops, m, locals), ElseCode(s.no,
          Gen(n), Gen(n + 1), loops, m + AllLabels(s.yes), locals);
    Join3(before, cond, yes, rest);
    Join2(cond, yes, rest);
  }

  lemma ElseCodeIs(no: Stmts, falseLabel: Label, end: Label, loops: Loops, n: nat, locals: nat)
    ensures ElseCode(no, falseLabel, end, loops, n, locals) ==
      if no.Nothing? then [Mark(falseLabel)] else [Jmp(end), Mark(falseLabel)] + (AllCode(no, loops, n, locals) + [Mark(end)])
  {
  }

  lemma IfNest(s: Stmt, scope: Scope)
    requires s.If?
    ensures NestAll(s.yes) <= Nest(s) && NestAll(s.no) <= Nest(s)
    ensures Accepted(s, None, scope) == (AllAccepted(s.yes, scope) && AllAccepted(s.no, scope))
  {
  }

  /** A loop's code, part after part. */
  lemma LoopPieces(before: seq<Instr>, shape: Shape, body: Stmts, name: Option<string>, loops: Loops, n: nat,
                   locals: nat)
    ensures var m := BodyStart(shape, n); var inside := Push(loops, name, LoopFrame(shape, n));
      before + LoopCode(shape, body, name, loops, n, locals) ==
        before + [Mark(Gen(n))] + HeadCode(shape, n, locals) + AllCode(body, inside, m, locals) + TailCode(shape, n,
              m + AllLabels(body), locals)
        + [Jmp(Gen(n))] + [Mark(EndLabel(shape, n))]
    ensures LoopFrame(shape, n) == Frame(EndLabel(shape, n), Some(AgainLabel(shape, n)))
    ensures EndLabel(shape, n) == Gen(n + LoopOwn(shape) - 1) && AgainLabel(shape, n) == (if shape.WhileDo? then Gen(n) else Gen(n + 1))
    ensures LoopOwn(shape) == (if shape.WhileDo? then 2 else 3)
    ensures BodyStart(shape, n) == n + LoopOwn(shape) + (if shape.DoWhile? then 0 else CondLabels(shape.test))
    ensures shape.WhileDo? ==> HeadCode(shape, n, locals) == CondCode(shape.test, EndLabel(shape, n), n + 2, locals)
    ensures shape.ForDo? ==>
      HeadCode(shape, n, locals) == (if shape.test.Absent? then [] else CondCode(shape.test, EndLabel(shape, n), n + 3, locals))
    ensures shape.DoWhile? ==> HeadCode(shape, n, locals) == []
    ensures shape.test.Absent? ==> CondLabels(shape.test) == 0
  {
    LoopIs(shape, body, name, loops, n, locals);
    LoopNumbers(shape, n);
    hide LoopCode, AllCode, CondCode, Push, AllLabels, EffectsCode;
    var m := BodyStart(shape, n);
    hide BodyStart;
    var head, mid, tail := HeadCode(shape, n, locals), AllCode(body, Push(loops, name, LoopFrame(shape, n)), m,
                                                               locals), TailCode(shape, n, m + AllLabels(body), locals);
    hide TailCode;
    LoopRegroup(before, [Mark(Gen(n))], head, mid, tail, Jmp(Gen(n)), Mark(EndLabel(shape, n)));
  }

  lemma WhilePieces(before: seq<Instr>, shape: Shape, body: Stmts, name: Option<string>, loops: Loops, n: nat,
                    locals: nat)
    requires shape.WhileDo?
    ensures var m := n + 2 + CondLabels(shape.test); var inside := Push(loops, name, Frame(Gen(n + 1), Some(Gen(n))));
      && before + LoopCode(shape, body, name, loops, n, locals) ==
           before + [Mark(Gen(n))] + CondCode(shape.test, Gen(n + 1), n + 2, locals) + AllCode(body, inside, m,
                 locals) + [Jmp(Gen(n))] + [Mark(Gen(n + 1))]
      && LoopOwn(shape) == 2
  {
    LoopPieces(before, shape, body, name, loops, n, locals);
    hide LoopCode, AllCode, CondCode, HeadCode, Push, AllLabels, CondLabels;
    var m := BodyStart(shape, n);
    var most := before + [Mark(Gen(n))] + HeadCode(shape, n, locals) + AllCode(body,
          Push(loops, name, LoopFrame(shape, n)), m, locals);
    assert most + TailCode(shape, n, m + AllLabels(body), locals) == most;
  }

  function ForTestCode(test: Cond, end: Label, n: nat, locals: nat): seq<Instr> {
    if test.Absent? then [] else CondCode(test, end, n, locals)
  }

  lemma ForPieces(before: seq<Instr>, shape: Shape, body: Stmts, name: Option<string>, loops: Loops, n: nat,
                  locals: nat)
    requires shape.ForDo?
    ensures var m := n + 3 + CondLabels(shape.test); var inside := Push(loops, name,
          Frame(Gen(n + 2), Some(Gen(n + 1))));
      var head := before + [Mark(Gen(n))];
      && before + LoopCode(shape, body, name, loops, n, locals) ==
           head + ForTestCode(shape.test, Gen(n + 2), n + 3, locals)
           + AllCode(body, inside, m, locals) + [Mark(Gen(n + 1))] + EffectsCode(if shape.step.Some? then [shape.step.value] else [])
           + [Jmp(Gen(n))] + [Mark(Gen(n + 2))]
      && LoopOwn(shape) == 3 && (shape.test.Absent? ==> CondLabels(shape.test) == 0)
  {
    LoopPieces(before, shape, body, name, loops, n, locals);
    hide LoopCode, AllCode, CondCode, HeadCode, Push, AllLabels, EffectsCode;
    var m := BodyStart(shape, n);
    var head := before + [Mark(Gen(n))];
    var most := head + HeadCode(shape, n, locals) + AllCode(body, Push(loops, name, LoopFrame(shape, n)), m, locals);
    var effects := EffectsCode(if shape.step.Some? then [shape.step.value] else []);
    Join2(most, [Mark(Gen(n + 1))], effects);
  }

  lemma DoPieces(before: seq<Instr>, shape: Shape, body: Stmts, name: Option<string>, loops: Loops, n: nat, locals: nat)
    requires shape.DoWhile?
    ensures var m := n + 3; var inside := Push(loops, name, Frame(Gen(n + 2), Some(Gen(n + 1))));
      && before + LoopCode(shape, body, name, loops, n, locals) ==
           before + [Mark(Gen(n))] + AllCode(body, inside, m, locals) + [Mark(Gen(n + 1))] + CondCode(shape.test,
                 Gen(n + 2), m + AllLabels(body), locals)
           + [Jmp(Gen(n))] + [Mark(Gen(n + 2))]
      && LoopOwn(shape) == 3
  {
    LoopPieces(before, shape, body, name, loops, n, locals);
    hide LoopCode, AllCode, CondCode, HeadCode, Push, AllLabels, CondLabels;
    var m := BodyStart(shape, n);
    var head := before + [Mark(Gen(n))];
    assert head + HeadCode(shape, n, locals) == head;
    var most := head + AllCode(body, Push(loops, name, LoopFrame(shape, n)), m, locals);
    Join2(most, [Mark(Gen(n + 1))], CondCode(shape.test, Gen(n + 2), m + AllLabels(body), locals));
  }

  lemma LoopRegroup(a: seq<Instr>, b: seq<Instr>, c: seq<Instr>, d: seq<Instr>, e: seq<Instr>, i: Instr, j: Instr)
    ensures a + (b + (c + (d + (e + [i, j])))) == a + b + c + d + e + [i] + [j]
  {
  }

  lemma LoopNest(s: Stmt, name: Option<string>, scope: Scope)
    requires s.Loop?
    ensures Nest(s) == 1 + NestAll(s.body) && Accepted(s, name, scope) == AllAccepted(s.body, InLoop(scope, name))
  {
  }

  lemma RoomInside(loops: Loops, name: Option<string>, f: Frame, levels: nat)
    requires HasRoom(loops, 1 + levels)
    ensures HasRoom(Push(loops, name, f), levels) && |loops.frames| < MAX_DEPTH && |loops.named| < MAX_DEPTH
  {
  }

  // ----- nesting -----

  /** Room on the label stacks for this many more levels. */
  predicate HasRoom(loops: Loops, levels: nat) {
    |loops.frames| + levels <= MAX_DEPTH && |loops.named| + levels <= MAX_DEPTH
  }

  lemma RoomLess(loops: Loops, levels: nat, fewer: nat)
    requires HasRoom(loops, levels) && fewer <= levels
    ensures HasRoom(loops, fewer)
  {
  }

  function Max(a: nat, b: nat): nat {
    if a < b then b else a
  }

  /** Levels of loops and switches inside one another. */
  function Nest(s: Stmt): nat {
    match s
    case If(_, yes, no) => Max(NestAll(yes), NestAll(no))
    case Loop(_, _, body) => 1 + NestAll(body)
    case Switch(_, _, _, sections) => 1 + NestSections(sections)
    case Block(body) => NestAll(body)
    case Labelled(_, inner) => Nest(inner)
    case _ => 0
  }

  function NestAll(ss: Stmts): nat {
    if ss.Nothing? then 0 else Max(Nest(ss.first), NestAll(ss.rest))
  }

  function NestSections(ss: Sections): nat {
    if ss.NoMore? then 0 else Max(NestAll(ss.body), NestSections(ss.rest))
  }

  function SlotLabels(c: Cond): nat
    requires HasSlotForm(c)
  {
    if c.Negated? then 2 + CondLabels(c.inner) else if c.Either? then 1 + CondLabels(c) else 2 + CondLabels(c)
  }

  lemma Join6(a: seq<Instr>, b: seq<Instr>, c: seq<Instr>, d: seq<Instr>, e: seq<Instr>, f: seq<Instr>)
    ensures a + b + c + d + e + f == a + (b + c + (d + e + f))
  {
  }

  lemma Join2(a: seq<Instr>, b: seq<Instr>, c: seq<Instr>)
    ensures a + b + c == a + (b + c)
  {
  }

  lemma Join3(a: seq<Instr>, b: seq<Instr>, c: seq<Instr>, d: seq<Instr>)
    ensures a + b + c + d == a + (b + (c + d))
  {
  }

  lemma Join4(a: seq<Instr>, b: seq<Instr>, c: seq<Instr>, d: seq<Instr>, e: seq<Instr>)
    ensures a + b + c + d + e == a + (b + c + (d + e))
  {
  }

  lemma Join5(a: seq<Instr>, b: seq<Instr>, c: seq<Instr>, d: seq<Instr>, e: seq<Instr>, f: seq<Instr>)
    ensures a + b + c + d + e + f == a + ((b + c) + (d + (e + f)))
  {
  }
}
