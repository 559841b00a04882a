/** What loops and jumps mean in terms of simpler statements. */
module LowerLaws {
  import opened Basics
  import opened LowerMachine
  import opened LowerCondition
  import opened LowerStatement
  import opened LowerSimulation

  function Append(a: Stmts, b: Stmts): Stmts {
    match a
    case Nothing => b
    case Then(s, rest) => Then(s, Append(rest, b))
  }

  /** After a the rest is come to if a ended by itself. */
  function Followed(env: Env, r: Result, b: Stmts, scope: Scope, fuel: nat): Result {
    if r.Finished? && r.outcome == Next then Leaking(ExecAll(env, b, scope, r.trace, fuel), r.leak) else r
  }

  lemma {:induction false} AppendMeans(env: Env, a: Stmts, b: Stmts, scope: Scope, t: Trace, fuel: nat)
    ensures ExecAll(env, Append(a, b), scope, t, fuel) == Followed(env, ExecAll(env, a, scope, t, fuel), b, scope, fuel)
  {
    hide Exec;
    if a.Then? {
      var r := Exec(env, a.first, None, scope, t, fuel);
      if r.Finished? { AppendMeans(env, a.rest, b, scope, r.trace, fuel); }
    }
  }

  /** No run of the statements ends by continuing a loop around them. */
  ghost predicate NeverContinues(env: Env, body: Stmts, scope: Scope) {
    forall t: Trace, fuel: nat :: !Continues(ExecAll(env, body, scope, t, fuel))
  }

  predicate Continues(r: Result) { r.Finished? && r.outcome.Continued? }

  // ----- conditions -----

  function Opposite(op: CmpOp): CmpOp {
    match op
    case Eq => Ne case Ne => Eq
    case Lt => Ge case Ge => Lt
    case Gt => Le case Le => Gt
  }

  /** Negation moves inwards without changing what is evaluated: it exchanges and with or and each comparison with its
      opposite. */
  function Inward(c: Cond): Cond {
    match c
    case Both(l, r) => Either(Inward(l), Inward(r))
    case Either(l, r) => Both(Inward(l), Inward(r))
    case Compare(op, kind, size, l, r) => Compare(Opposite(op), kind, size, l, r)
    case Negated(inner) => inner
    case _ => Negated(c)
  }

  lemma {:induction false} NegationInward(env: Env, c: Cond, t: Trace)
    ensures Truth(env, Negated(c), t) == Truth(env, Inward(c), t)
  {
    match c
    case Both(l, r) =>
      NegationInward(env, l, t);
      NegationInward(env, r, Truth(env, l, t).1);
    case Either(l, r) =>
      NegationInward(env, l, t);
      NegationInward(env, r, Truth(env, l, t).1);
    case _ =>
  }

  /** A comparison evaluates its left side, then its right side, and exactly one of <, == and > holds. */
  lemma Trichotomy(env: Env, kind: Kind, size: nat, l: nat, r: nat, t: Trace)
    ensures var less, same, more := Truth(env, Compare(Lt, kind, size, l, r), t), Truth(env, Compare(Eq, kind, size, l, r), t),
                                    Truth(env, Compare(Gt, kind, size, l, r), t);
      && less.1 == same.1 == more.1 == t + [l, r]
      && (less.0 || same.0 || more.0) && !(less.0 && same.0) && !(same.0 && more.0) && !(less.0 && more.0)
      && (same.0 <==> Decode(kind, Value(env, l, size, t)) == Decode(kind, Value(env, r, size, t + [l])))
      && (less.0 <==> Decode(kind, Value(env, l, size, t)) < Decode(kind, Value(env, r, size, t + [l])))
  {
    hide Decode, Value;
    assert t + [l] + [r] == t + [l, r];
  }

  // ----- which statements never continue a loop around them -----

  /** No continue by name, and no plain one but in loops of its own. */
  predicate Uncontinuing(s: Stmt, inLoop: bool) {
    match s
    case Continue(name) => name.None? && inLoop
    case If(_, yes, no) => AllUncontinuing(yes, inLoop) && AllUncontinuing(no, inLoop)
    case Loop(_, _, body) => AllUncontinuing(body, true)
    case Switch(_, _, _, sections) => SectionsUncontinuing(sections, inLoop)
    case Block(body) => AllUncontinuing(body, inLoop)
    case Labelled(_, inner) => Uncontinuing(inner, inLoop)
    case _ => true
  }

  predicate AllUncontinuing(ss: Stmts, inLoop: bool) {
    ss.Then? ==> Uncontinuing(ss.first, inLoop) && AllUncontinuing(ss.rest, inLoop)
  }

  predicate SectionsUncontinuing(ss: Sections, inLoop: bool) {
    ss.Section? ==> AllUncontinuing(ss.body, inLoop) && SectionsUncontinuing(ss.rest, inLoop)
  }

  /** Ends by continuing at most a plain way, and that only inside a loop. */
  predicate Tame(r: Result, inLoop: bool) { Continues(r) ==> r.outcome.name.None? && inLoop }

  lemma {:induction false} StmtTame(env: Env, s: Stmt, pending: Option<string>, scope: Scope, t: Trace, fuel: nat, inLoop: bool)
    requires Uncontinuing(s, inLoop)
    ensures Tame(Exec(env, s, pending, scope, t, fuel), inLoop)
    decreases fuel, s, 1
  {
    match s
    case If(c, yes, no) =>
      var (b, t') := Truth(env, c, t);
      AllTame(env, if b then yes else no, scope, t', fuel, inLoop);
    case Loop(init, shape, body) => LoopTame(env, shape, body, pending, scope, t + init, fuel);
    case Switch(id, size, kind, sections) =>
      hide ExecFrom, Pick, LastDefault, InSwitch, Value;
      if sections.Section? { ExecSwitch(env, s, pending, scope, t, fuel); }
      forall i: nat, t1: Trace ensures Tame(ExecFrom(env, sections, i, InSwitch(scope, pending), t1, fuel), inLoop) {
        FromTame(env, sections, i, InSwitch(scope, pending), t1, fuel, inLoop);
      }
    case Block(body) => AllTame(env, body, scope, t, fuel, inLoop);
    case Labelled(name, inner) => StmtTame(env, inner, if Takes(inner) then Some(name) else None, scope, t, fuel, inLoop);
    case _ =>
  }

  lemma {:induction false} AllTame(env: Env, ss: Stmts, scope: Scope, t: Trace, fuel: nat, inLoop: bool)
    requires AllUncontinuing(ss, inLoop)
    ensures Tame(ExecAll(env, ss, scope, t, fuel), inLoop)
    decreases fuel, ss, 1
  {
    hide Exec;
    if ss.Then? {
      StmtTame(env, ss.first, None, scope, t, fuel, inLoop);
      var r := Exec(env, ss.first, None, scope, t, fuel);
      if r.Finished? && r.outcome == Next { AllTame(env, ss.rest, scope, r.trace, fuel, inLoop); }
    }
  }

  lemma {:induction false} LoopTame(env: Env, shape: Shape, body: Stmts, pending: Option<string>, scope: Scope, t: Trace, fuel: nat)
    requires AllUncontinuing(body, true)
    ensures Tame(ExecLoop(env, shape, body, pending, scope, t, fuel), false)
    decreases fuel, body, 3
  {
    hide ExecAll, TestBefore, TestAfter, InLoop, ExecLoop, NextRound, AllUncontinuing;
    ExecLoopIs(env, shape, body, pending, scope, t, fuel);
    if fuel > 0 {
      var (b, t1) := TestBefore(env, shape, t);
      var r := ExecAll(env, body, InLoop(scope, pending), t1, fuel - 1);
      AllTame(env, body, InLoop(scope, pending), t1, fuel - 1, true);
      if r.Finished? {
        NextRoundIs(env, shape, body, pending, scope, r.outcome, r.trace, fuel);
        LoopTame(env, shape, body, pending, scope, TestAfter(env, shape, r.trace).1, fuel - 1);
      }
    }
  }

  lemma {:induction false} FromTame(env: Env, ss: Sections, i: nat, scope: Scope, t: Trace, fuel: nat, inLoop: bool)
    requires SectionsUncontinuing(ss, inLoop)
    ensures Tame(ExecFrom(env, ss, i, scope, t, fuel), inLoop)
    decreases fuel, ss, 1
  {
    hide ExecAll;
    if ss.Section? {
      if i > 0 {
        FromTame(env, ss.rest, i - 1, scope, t, fuel, inLoop);
      } else {
        AllTame(env, ss.body, scope, t, fuel, inLoop);
        var r := ExecAll(env, ss.body, scope, t, fuel);
        if r.Finished? && r.outcome == Next { FromTame(env, ss.rest, 0, scope, r.trace, fuel, inLoop); }
      }
    }
  }

  /** So it can be read off a body that it never continues its loop. */
  lemma UncontinuingNever(env: Env, body: Stmts, scope: Scope)
    requires AllUncontinuing(body, false)
    ensures NeverContinues(env, body, scope)
  {
    forall t: Trace, fuel: nat ensures !Continues(ExecAll(env, body, scope, t, fuel)) {
      AllTame(env, body, scope, t, fuel, false);
    }
  }

  // ----- laws -----

  function StepOf(step: Option<nat>): Stmts {
    Then(Effects(if step.Some? then [step.value] else []), Nothing)
  }

  lemma StepMeans(env: Env, step: Option<nat>, scope: Scope, t: Trace, fuel: nat)
    ensures ExecAll(env, StepOf(step), scope, t, fuel) == Finished(Next, t + (if step.Some? then [step.value] else []), 0)
  {
  }

  /** A for without a condition asks nothing. */
  function Asked(c: Cond): Cond {
    if c.Absent? then Literal(None, 1) else c
  }

  lemma AskedMeans(env: Env, c: Cond, step: Option<nat>, t: Trace)
    ensures TestBefore(env, ForDo(c, step), t) == TestBefore(env, WhileDo(Asked(c)), t) == Truth(env, Asked(c), t)
  {
  }

  /** A body that never continues its loop may have the step at its end. */
  lemma {:induction false} StepInBody(env: Env, c: Cond, step: Option<nat>, body: Stmts, pending: Option<string>, scope: Scope,
                                      t: Trace, fuel: nat)
    requires NeverContinues(env, body, InLoop(scope, pending))
    ensures ExecLoop(env, ForDo(c, step), body, pending, scope, t, fuel)
      == ExecLoop(env, WhileDo(Asked(c)), Append(body, StepOf(step)), pending, scope, t, fuel)
    decreases fuel
  {
    hide ExecAll, Truth, InLoop, Append, StepOf, Asked;
    AskedMeans(env, c, step, t);
    if fuel > 0 {
      var (b, t1) := Truth(env, Asked(c), t);
      var inside, r := InLoop(scope, pending), ExecAll(env, body, InLoop(scope, pending), t1, fuel - 1);
      AppendMeans(env, body, StepOf(step), inside, t1, fuel - 1);
      assert !Continues(r);
      if b && r.Finished? {
        StepMeans(env, step, inside, r.trace, fuel - 1);
        if r.outcome == Next {
          assert r.trace + [] == r.trace;
          StepInBody(env, c, step, body, pending, scope, r.trace + (if step.Some? then [step.value] else []), fuel - 1);
        }
      }
    }
  }

  lemma Alone(env: Env, s: Stmt, scope: Scope, t: Trace, fuel: nat)
    ensures ExecAll(env, Then(s, Nothing), scope, t, fuel) == Exec(env, s, None, scope, t, fuel)
  {
    hide Exec;
    var r := Exec(env, s, None, scope, t, fuel);
    if r.Finished? { assert ExecAll(env, Nothing, scope, r.trace, fuel) == Finished(Next, r.trace, 0); }
  }

  lemma EffectsFirst(env: Env, ids: seq<nat>, rest: Stmts, scope: Scope, t: Trace, fuel: nat)
    ensures ExecAll(env, Then(Effects(ids), rest), scope, t, fuel) == ExecAll(env, rest, scope, t + ids, fuel)
  {
    assert Exec(env, Effects(ids), None, scope, t, fuel) == Finished(Next, t + ids, 0);
  }

  /** A for is its first part, then a while with the step at the end of its body, unless the body continues the loop. */
  lemma ForIsWhile(env: Env, init: seq<nat>, c: Cond, step: Option<nat>, body: Stmts, scope: Scope, t: Trace, fuel: nat)
    requires NeverContinues(env, body, InLoop(scope, None))
    ensures Exec(env, Loop(init, ForDo(c, step), body), None, scope, t, fuel)
      == ExecAll(env, Then(Effects(init), Then(Loop([], WhileDo(Asked(c)), Append(body, StepOf(step))), Nothing)), scope, t, fuel)
  {
    hide ExecAll, ExecLoop, NeverContinues, InLoop, Append, StepOf, Asked;
    var later := Loop([], WhileDo(Asked(c)), Append(body, StepOf(step)));
    EffectsFirst(env, init, Then(later, Nothing), scope, t, fuel);
    Alone(env, later, scope, t + init, fuel);
    assert t + init + [] == t + init;
    StepInBody(env, c, step, body, None, scope, t + init, fuel);
  }

  /** A name that stands for the innermost loop, or none. */
  predicate Mine(name: Option<string>, pending: Option<string>) { name.None? || name == pending }

  lemma MineIs(name: Option<string>, pending: Option<string>, scope: Scope)
    requires Mine(name, pending)
    ensures ContinueOutcome(InLoop(scope, pending), name) == Continued(name)
    ensures BreakOutcome(InLoop(scope, pending), name) == Broke(name)
  {
    if name.Some? { assert InLoop(scope, pending).names[|scope.names|] == Known(name.value, true); }
  }

  /** What stands after a continue might as well not be there: the loop goes on as if its body had ended. */
  lemma {:induction false} ContinueSkips(env: Env, shape: Shape, body: Stmts, name: Option<string>, rest: Stmts,
                                         pending: Option<string>, scope: Scope, t: Trace, fuel: nat)
    requires Mine(name, pending)
    ensures ExecLoop(env, shape, Append(body, Then(Continue(name), rest)), pending, scope, t, fuel)
      == ExecLoop(env, shape, body, pending, scope, t, fuel)
    decreases fuel
  {
    hide ExecAll, Truth, InLoop, Append, ContinueOutcome;
    if fuel > 0 {
      var (b, t1) := TestBefore(env, shape, t);
      var inside, r := InLoop(scope, pending), ExecAll(env, body, InLoop(scope, pending), t1, fuel - 1);
      AppendMeans(env, body, Then(Continue(name), rest), inside, t1, fuel - 1);
      MineIs(name, pending, scope);
      if b && r.Finished? {
        JumpFirst(env, Continue(name), rest, inside, r.trace, fuel - 1);
        var (more, t2) := TestAfter(env, shape, r.trace);
        if Again(r.outcome, pending) && more {
          ContinueSkips(env, shape, body, name, rest, pending, scope, t2, fuel - 1);
        }
      }
    }
  }

  /** Nothing after a jump is reached. */
  lemma JumpFirst(env: Env, jump: Stmt, rest: Stmts, scope: Scope, t: Trace, fuel: nat)
    requires jump.Break? || jump.Continue?
    ensures var o := if jump.Break? then BreakOutcome(scope, jump.name) else ContinueOutcome(scope, jump.name);
      o != Next ==> ExecAll(env, Then(jump, rest), scope, t, fuel) == Finished(o, t, 0)
  {
    hide BreakOutcome, ContinueOutcome;
  }

  /** A loop whose body comes to a break is over. */
  lemma BreakStops(env: Env, shape: Shape, body: Stmts, name: Option<string>, rest: Stmts, pending: Option<string>, scope: Scope,
                   t: Trace, fuel: nat)
    requires Mine(name, pending) && fuel > 0 && TestBefore(env, shape, t).0
    requires var r := ExecAll(env, body, InLoop(scope, pending), TestBefore(env, shape, t).1, fuel - 1);
      r.Finished? && r.outcome == Next
    ensures ExecLoop(env, shape, Append(body, Then(Break(name), rest)), pending, scope, t, fuel)
      == ExecAll(env, body, InLoop(scope, pending), TestBefore(env, shape, t).1, fuel - 1)
  {
    hide ExecAll, Truth, InLoop, Append, BreakOutcome;
    var t1 := TestBefore(env, shape, t).1;
    var inside, r := InLoop(scope, pending), ExecAll(env, body, InLoop(scope, pending), t1, fuel - 1);
    AppendMeans(env, body, Then(Break(name), rest), inside, t1, fuel - 1);
    MineIs(name, pending, scope);
    JumpFirst(env, Break(name), rest, inside, r.trace, fuel - 1);
  }

  /** After its first round a do-while is a while. */
  lemma {:induction false} DoIsWhile(env: Env, c: Cond, body: Stmts, pending: Option<string>, scope: Scope, t: Trace, fuel: nat)
    requires fuel > 0
    ensures var r := ExecAll(env, body, InLoop(scope, pending), t, fuel - 1);
      r.Finished? && Again(r.outcome, pending) ==>
        var then_ := ExecLoop(env, WhileDo(c), body, pending, scope, r.trace, fuel - 1);
        then_.Finished? ==> ExecLoop(env, DoWhile(c), body, pending, scope, t, fuel) == Leaking(then_, r.leak)
    decreases fuel
  {
    hide ExecAll, Truth, InLoop, ExecLoop, NextRound;
    var r := ExecAll(env, body, InLoop(scope, pending), t, fuel - 1);
    ExecLoopIs(env, DoWhile(c), body, pending, scope, t, fuel);
    if r.Finished? { ExecLoopIs(env, WhileDo(c), body, pending, scope, r.trace, fuel - 1); }
    if r.Finished? && Again(r.outcome, pending) && fuel > 1 {
      var (b, t1) := Truth(env, c, r.trace);
      var s := ExecAll(env, body, InLoop(scope, pending), t1, fuel - 2);
      NextRoundIs(env, DoWhile(c), body, pending, scope, r.outcome, r.trace, fuel);
      if s.Finished? {
        NextRoundIs(env, WhileDo(c), body, pending, scope, s.outcome, s.trace, fuel - 1);
        NextRoundIs(env, DoWhile(c), body, pending, scope, s.outcome, s.trace, fuel - 1);
      }
      ExecLoopIs(env, DoWhile(c), body, pending, scope, t1, fuel - 1);
      if b && s.Finished? && Again(s.outcome, pending) { DoIsWhile(env, c, body, pending, scope, t1, fuel - 1); }
    }
  }
}
