/** Lowered statements do what the statements mean. */
module LowerSimulation {
  import opened Basics
  import opened LowerMachine
  import opened LowerCondition
  import opened LowerStatement
  import opened LowerContext
  import opened LowerDispatch

  // ----- pieces of statements -----

  lemma {:induction false} EffectsFold(env: Env, ids: seq<nat>, r: Regs)
    ensures Straight(EffectsCode(ids)) && Fold(env, EffectsCode(ids), r) == Some(r.(trace := r.trace + ids))
  {
    if ids == [] {
      assert r.trace + ids == r.trace;
    } else {
      EffectsFold(env, ids[1..], r.(trace := r.trace + [ids[0]]));
      assert EffectsCode(ids)[1..] == EffectsCode(ids[1..]);
      assert r.trace + [ids[0]] + ids[1..] == r.trace + ids;
    }
  }

  lemma EffectsRun(env: Env, code: seq<Instr>, at: nat, ids: seq<nat>, r: Regs)
    requires Sits(code, at, EffectsCode(ids))
    ensures Run(env, code, State(at, r), |ids|) == State(at + |ids|, r.(trace := r.trace + ids))
  {
    EffectsFold(env, ids, r);
    FoldRuns(env, code, at, EffectsCode(ids), r);
  }

  /** Everything the lowering of a statement needs from its surroundings. */
  ghost predicate StmtSits(code: seq<Instr>, at: nat, s: Stmt, pending: Option<string>, loops: Loops, n: nat,
                           locals: nat) {
    && Around(code, loops) && Plain(s) && Accepted(s, pending, ScopeOf(loops))
    && Sits(code, at, StmtCode(s, pending, loops, n, locals))
  }

  ghost predicate AllSits(code: seq<Instr>, at: nat, ss: Stmts, loops: Loops, n: nat, locals: nat) {
    && Around(code, loops) && AllPlain(ss) && AllAccepted(ss, ScopeOf(loops))
    && Sits(code, at, AllCode(ss, loops, n, locals))
  }

  lemma CarriesNext(env: Env, code: seq<Instr>, at: nat, end: nat, loops: Loops, locals: nat, r: Regs, fuel: nat,
                    k: nat, t: State)
    requires Run(env, code, State(at, r), k) == t && t.pc == end && Grown(r.stack, t.r.stack, locals, 0)
    ensures Carries(env, code, at, end, loops, locals, r, Finished(Next, t.r.trace, 0), fuel, k, t)
  {
    hide Run, Grown;
  }

  // ----- simple statements -----

  lemma EffectsCarries(env: Env, code: seq<Instr>, at: nat, ids: seq<nat>, loops: Loops, locals: nat, r: Regs,
                       fuel: nat) returns (k: nat, t: State)
    requires Sits(code, at, EffectsCode(ids)) && locals <= |r.stack|
    ensures Carries(env, code, at, at + |ids|, loops, locals, r, Finished(Next, r.trace + ids, 0), fuel, k, t)
  {
    EffectsRun(env, code, at, ids, r);
    k, t := |ids|, State(at + |ids|, r.(trace := r.trace + ids));
  }

  /** A jump to where an outcome goes. */
  lemma JumpCarries(env: Env, code: seq<Instr>, at: nat, end: nat, loops: Loops, locals: nat, r: Regs, o: Outcome,
                    fuel: nat) returns (k: nat, t: State)
    requires Around(code, loops) && o != Next && TargetOf(loops, o).Some? && Sits(code, at, [Jmp(TargetOf(loops, o).value)]) && locals <= |r.stack|
    ensures Carries(env, code, at, end, loops, locals, r, Finished(o, r.trace, 0), fuel, k, t)
  {
    hide Run, Around, Sits, TargetOf, Placed, FindMark;
    TargetPlaced(code, loops, o);
    k, t := AlwaysJumps(env, code, at, TargetOf(loops, o).value, r);
  }

  /** Break and continue: a jump, or nothing when the name is unknown. */
  lemma ExitCarries(env: Env, code: seq<Instr>, at: nat, s: Stmt, pending: Option<string>, loops: Loops, n: nat,
                    locals: nat, r: Regs, fuel: nat)
    returns (k: nat, t: State)
    requires (s.Break? || s.Continue?) && StmtSits(code, at, s, pending, loops, n, locals) && locals <= |r.stack|
    ensures Carries(env, code, at, at + |StmtCode(s, pending, loops, n, locals)|, loops, locals, r,
                    Exec(env, s, pending, ScopeOf(loops), r.trace, fuel), fuel, k, t)
  {
    ExitResolves(loops, s, pending);
    var o := if s.Break? then BreakOutcome(ScopeOf(loops), s.name) else ContinueOutcome(ScopeOf(loops), s.name);
    var x := if s.Break? then BreakLabel(loops, s.name) else ContinueLabel(loops, s.name);
    hide BreakOutcome, ContinueOutcome, BreakLabel, ContinueLabel, Around, Sits, ScopeOf;
    if x.None? {
      k, t := 0, State(at, r);
    } else {
      k, t := JumpCarries(env, code, at, at + 1, loops, locals, r, o, fuel);
    }
  }

  /** The label an accepted break or continue finds is the one its outcome is aimed at. */
  lemma ExitResolves(loops: Loops, s: Stmt, pending: Option<string>)
    requires (s.Break? || s.Continue?) && Accepted(s, pending, ScopeOf(loops))
    ensures s.Break? ==> var o, x := BreakOutcome(ScopeOf(loops), s.name), BreakLabel(loops, s.name);
      if x.None? then o == Next else o != Next && TargetOf(loops, o) == x
    ensures s.Continue? ==> var o, x := ContinueOutcome(ScopeOf(loops), s.name), ContinueLabel(loops, s.name);
      if x.None? then o == Next else o != Next && TargetOf(loops, o) == x
  {
    if s.name.Some? {
      FindAlike(loops.named, s.name.value);
    }
  }

  lemma ReturnCarries(env: Env, code: seq<Instr>, at: nat, result: Option<nat>, loops: Loops, locals: nat, r: Regs,
                      fuel: nat) returns (k: nat, t: State)
    requires Around(code, loops) && locals <= |r.stack|
    requires Sits(code, at, EffectsCode(if result.Some? then [result.value] else []) + [Jmp(Fini)])
    ensures Carries(env, code, at, at + |EffectsCode(if result.Some? then [result.value] else []) + [Jmp(Fini)]|,
                    loops, locals, r,
                    Finished(Returned, if result.Some? then r.trace + [result.value] else r.trace, 0), fuel, k, t)
  {
    var ids := if result.Some? then [result.value] else [];
    SitsParts(code, at, EffectsCode(ids), [Jmp(Fini)]);
    EffectsRun(env, code, at, ids, r);
    var m := r.(trace := r.trace + ids);
    hide Run, Around, Sits, FindMark;
    var j: nat;
    j, t := JumpCarries(env, code, at + |ids|, at + |ids| + 1, loops, locals, m, Returned, fuel);
    assert r.trace + [] == r.trace;
    GrownSame(r.stack, locals);
    CarriesAfter(env, code, at, at + |ids|, at + |ids| + 1, loops, locals, r, 0, |ids|, State(at + |ids|, m),
                 Finished(Returned, m.trace, 0), fuel, fuel, j, t);
    k := |ids| + j;
  }

  // ----- parts of a loop -----

  ghost predicate TestSits(code: seq<Instr>, c: Cond) {
    UniqueMarks(code) && WellSized(c) && Canonical(c)
  }

  /** The test before the body: on into the body, or to the end label. */
  lemma HeadRuns(env: Env, code: seq<Instr>, at: nat, shape: Shape, n: nat, locals: nat, r: Regs) returns (k: nat,
        t: State)
    requires TestSits(code, shape.test) && Placed(code, EndLabel(shape, n)) && Sits(code, at, HeadCode(shape, n, locals)) && locals <= |r.stack|
    ensures Run(env, code, State(at, r), k) == t
    ensures var b := TestBefore(env, shape, r.trace);
      t == State(if b.0 then at + |HeadCode(shape, n, locals)| else FindMark(code, EndLabel(shape, n), 0), t.r)
      && t.r.trace == b.1 && Grown(r.stack, t.r.stack, locals, 0)
  {
    hide Run, FindMark, Placed, Sits, UniqueMarks, CondCode, Truth, Canonical, WellSized;
    GrownSame(r.stack, locals);
    if shape.DoWhile? || (shape.ForDo? && shape.test.Absent?) {
      k, t := 0, State(at, r);
      RunNothing(env, code, t);
    } else {
      var m := if shape.WhileDo? then n + 2 else n + 3;
      CondSitsIntro(code, at, shape.test, EndLabel(shape, n), m, locals);
      k, t := CondRuns(env, code, at, shape.test, EndLabel(shape, n), m, locals, r);
      KeepsGrown(r.stack, t.r.stack, locals);
      hide Keeps, Grown;
    }
  }

  /** What follows the body, and the jump back: to the start, or, for a do-while, to the end label. */
  lemma TailRuns(env: Env, code: seq<Instr>, at: nat, shape: Shape, n: nat, m: nat, locals: nat,
                 r: Regs) returns (k: nat, t: State)
    requires TestSits(code, shape.test) && Placed(code, EndLabel(shape, n)) && Placed(code, Gen(n)) && locals <= |r.stack|
    requires Sits(code, at, TailCode(shape, n, m, locals) + [Jmp(Gen(n)), Mark(EndLabel(shape, n))])
    ensures Run(env, code, State(at, r), k) == t && k >= 1
    ensures var b := TestAfter(env, shape, r.trace);
      t == State(FindMark(code, if b.0 then Gen(n) else EndLabel(shape, n), 0), t.r)
      && t.r.trace == b.1 && Grown(r.stack, t.r.stack, locals, 0)
  {
    hide *;
    var tail := TailCode(shape, n, m, locals);
    SitsParts(code, at, tail, [Jmp(Gen(n)), Mark(EndLabel(shape, n))]);
    SitsTwo(code, at + |tail|, Jmp(Gen(n)), Mark(EndLabel(shape, n)));
    if shape.WhileDo? {
      WhileTail(env, shape, n, m, locals, r.trace);
      GrownSame(r.stack, locals);
      JmpStep(env, code, at, r);
      k, t := 1, State(FindMark(code, Gen(n), 0), r);
    } else {
      var rest := AfterCode(shape, n, m, locals);
      MarkedTail(shape, n, m, locals);
      SitsParts(code, at, [Mark(Gen(n + 1))], rest);
      SitsOne(code, at, Mark(Gen(n + 1)));
      MarkStep(env, code, at, r);
      var j: nat, u: State := AfterMark(env, code, at + 1, shape, n, m, locals, rest, r);
      RunPlus(env, code, State(at, r), 1, j);
      k, t := 1 + j, u;
      if TestAfter(env, shape, r.trace).0 {
        JmpStep(env, code, at + |tail|, u.r);
        RunPlus(env, code, State(at, r), k, 1);
        k, t := k + 1, State(FindMark(code, Gen(n), 0), u.r);
      }
    }
  }

  function AfterCode(shape: Shape, n: nat, m: nat, locals: nat): seq<Instr> {
    if shape.ForDo? then EffectsCode(if shape.step.Some? then [shape.step.value] else []) else CondCode(shape.test, EndLabel(shape, n), m, locals)
  }

  lemma MarkedTail(shape: Shape, n: nat, m: nat, locals: nat)
    requires !shape.WhileDo?
    ensures TailCode(shape, n, m, locals) == [Mark(Gen(n + 1))] + AfterCode(shape, n, m, locals)
  {
    hide CondCode, EffectsCode;
  }

  lemma WhileTail(env: Env, shape: Shape, n: nat, m: nat, locals: nat, t: Trace)
    requires shape.WhileDo?
    ensures TailCode(shape, n, m, locals) == [] && TestAfter(env, shape, t) == (true, t)
  {
  }

  /** The step of a for, or the test of a do-while. */
  lemma AfterMark(env: Env, code: seq<Instr>, at: nat, shape: Shape, n: nat, m: nat, locals: nat, rest: seq<Instr>,
                  r: Regs) returns (k: nat, t: State)
    requires !shape.WhileDo? && TestSits(code, shape.test) && Placed(code, EndLabel(shape, n)) && locals <= |r.stack|
    requires rest == AfterCode(shape, n, m, locals) && Sits(code, at, rest)
    ensures Run(env, code, State(at, r), k) == t
    ensures var b := TestAfter(env, shape, r.trace);
      t == State(if b.0 then at + |rest| else FindMark(code, EndLabel(shape, n), 0), t.r)
      && t.r.trace == b.1 && Grown(r.stack, t.r.stack, locals, 0)
  {
    if shape.ForDo? {
      var ids := if shape.step.Some? then [shape.step.value] else [];
      EffectsRun(env, code, at, ids, r);
      k, t := |ids|, State(at + |ids|, r.(trace := r.trace + ids));
      GrownSame(r.stack, locals);
    } else {
      hide Run, FindMark, Placed, Sits, UniqueMarks, CondCode, Truth, Canonical, WellSized, Grown;
      CondSitsIntro(code, at, shape.test, EndLabel(shape, n), m, locals);
      k, t := CondRuns(env, code, at, shape.test, EndLabel(shape, n), m, locals, r);
      KeepsGrown(r.stack, t.r.stack, locals);
    }
  }

  // ----- where the parts of a loop are -----

  function BodyCode(shape: Shape, body: Stmts, pending: Option<string>, loops: Loops, n: nat, locals: nat): seq<Instr> {
    AllCode(body, Push(loops, pending, LoopFrame(shape, n)), BodyStart(shape, n), locals)
  }

  function BodyAt(at: nat, shape: Shape, n: nat, locals: nat): nat {
    at + 1 + |HeadCode(shape, n, locals)|
  }

  function TailAt(at: nat, shape: Shape, body: Stmts, pending: Option<string>, loops: Loops, n: nat, locals: nat): nat {
    BodyAt(at, shape, n, locals) + |BodyCode(shape, body, pending, loops, n, locals)|
  }

  function LoopTail(shape: Shape, body: Stmts, n: nat, locals: nat): seq<Instr> {
    TailCode(shape, n, BodyStart(shape, n) + AllLabels(body), locals) + [Jmp(Gen(n)), Mark(EndLabel(shape, n))]
  }

  function LoopEnd(at: nat, shape: Shape, body: Stmts, pending: Option<string>, loops: Loops, n: nat,
                   locals: nat): nat {
    TailAt(at, shape, body, pending, loops, n, locals) + |LoopTail(shape, body, n, locals)|
  }

  ghost predicate LoopPlaces(code: seq<Instr>, at: nat, shape: Shape, body: Stmts, pending: Option<string>,
                             loops: Loops, n: nat, locals: nat) {
    var tailAt, end := TailAt(at, shape, body, pending, loops, n, locals), LoopEnd(at, shape, body, pending, loops, n,
          locals);
    && TestSits(code, shape.test) && at < tailAt < end <= |code|
    && code[at] == Mark(Gen(n)) && Placed(code, Gen(n)) && FindMark(code, Gen(n), 0) == at
    && code[end - 1] == Mark(EndLabel(shape, n)) && Placed(code, EndLabel(shape, n)) && FindMark(code, EndLabel(shape, n), 0) == end - 1
    && FindMark(code, AgainLabel(shape, n), 0) == (if shape.WhileDo? then at else tailAt)
    && Sits(code, at + 1, HeadCode(shape, n, locals))
    && AllSits(code, BodyAt(at, shape, n, locals), body, Push(loops, pending, LoopFrame(shape, n)), BodyStart(shape, n), locals)
    && Sits(code, tailAt, LoopTail(shape, body, n, locals))
  }

  lemma LoopShape(at: nat, shape: Shape, body: Stmts, pending: Option<string>, loops: Loops, n: nat, locals: nat)
    ensures var code := LoopCode(shape, body, pending, loops, n, locals);
      && code == [Mark(Gen(n))] + (HeadCode(shape, n, locals) + (BodyCode(shape, body, pending, loops, n, locals) + LoopTail(shape, body, n, locals)))
      && at + |code| == LoopEnd(at, shape, body, pending, loops, n, locals)
    ensures BodyAt(at, shape, n, locals) == at + 1 + |HeadCode(shape, n, locals)|
    ensures TailAt(at, shape, body, pending, loops, n, locals) == at + 1 + |HeadCode(shape, n,
          locals)| + |BodyCode(shape, body, pending, loops, n, locals)|
    ensures LoopEnd(at, shape, body, pending, loops, n, locals) == TailAt(at, shape, body, pending, loops, n,
          locals) + |LoopTail(shape, body, n, locals)|
    ensures shape.WhileDo? ==> AgainLabel(shape, n) == Gen(n)
  {
    hide HeadCode, AllCode, TailCode, BodyStart;
  }

  lemma LoopIsPlaced(code: seq<Instr>, at: nat, shape: Shape, body: Stmts, pending: Option<string>, loops: Loops,
                     n: nat, locals: nat)
    requires Around(code, loops) && TestSits(code, shape.test) && AllPlain(body) && AllAccepted(body, InLoop(ScopeOf(loops), pending))
    requires Sits(code, at, LoopCode(shape, body, pending, loops, n, locals))
    ensures LoopPlaces(code, at, shape, body, pending, loops, n, locals)
  {
    hide *;
    var head, mid, tail := HeadCode(shape, n, locals), BodyCode(shape, body, pending, loops, n,
                                                                locals), LoopTail(shape, body, n, locals);
    LoopShape(at, shape, body, pending, loops, n, locals);
    SitsParts(code, at, [Mark(Gen(n))], head + (mid + tail));
    SitsOne(code, at, Mark(Gen(n)));
    SitsParts(code, at + 1, head, mid + tail);
    SitsParts(code, at + 1 + |head|, mid, tail);
    TestSitsUnique(code, shape.test);
    MarkFound(code, Gen(n), at);
    TailMarks(code, at + 1 + |head| + |mid|, shape, body, n, locals);
    LoopBodySits(code, at, shape, body, pending, loops, n, locals);
    LoopPlacesIntro(code, at, shape, body, pending, loops, n, locals);
  }

  lemma TestSitsUnique(code: seq<Instr>, c: Cond)
    requires TestSits(code, c)
    ensures UniqueMarks(code)
  {
  }

  /** The marks in what follows the body. */
  lemma TailMarks(code: seq<Instr>, at: nat, shape: Shape, body: Stmts, n: nat, locals: nat)
    requires UniqueMarks(code) && Sits(code, at, LoopTail(shape, body, n, locals))
    ensures var end := at + |LoopTail(shape, body, n, locals)|;
      && at + 1 < end <= |code| && code[end - 1] == Mark(EndLabel(shape, n))
      && Placed(code, EndLabel(shape, n)) && FindMark(code, EndLabel(shape, n), 0) == end - 1
      && (!shape.WhileDo? ==> Placed(code, AgainLabel(shape, n)) && FindMark(code, AgainLabel(shape, n), 0) == at)
  {
    hide *;
    var tail := TailCode(shape, n, BodyStart(shape, n) + AllLabels(body), locals);
    var rest := TailShape(shape, body, n, locals);
    SitsParts(code, at, tail, [Jmp(Gen(n)), Mark(EndLabel(shape, n))]);
    SitsTwo(code, at + |tail|, Jmp(Gen(n)), Mark(EndLabel(shape, n)));
    MarkFound(code, EndLabel(shape, n), at + |tail| + 1);
    if !shape.WhileDo? {
      SitsParts(code, at, [Mark(Gen(n + 1))], rest);
      SitsOne(code, at, Mark(Gen(n + 1)));
      MarkFound(code, Gen(n + 1), at);
    }
  }

  lemma TailShape(shape: Shape, body: Stmts, n: nat, locals: nat) returns (rest: seq<Instr>)
    ensures var tail := TailCode(shape, n, BodyStart(shape, n) + AllLabels(body), locals);
      && LoopTail(shape, body, n, locals) == tail + [Jmp(Gen(n)), Mark(EndLabel(shape, n))]
      && (!shape.WhileDo? ==> tail == [Mark(Gen(n + 1))] + rest && AgainLabel(shape, n) == Gen(n + 1))
      && EndLabel(shape, n).Gen?
  {
    hide CondCode, EffectsCode, BodyStart;
    var tail := TailCode(shape, n, BodyStart(shape, n) + AllLabels(body), locals);
    rest := if shape.WhileDo? then [] else tail[1..];
  }

  lemma LoopBodySits(code: seq<Instr>, at: nat, shape: Shape, body: Stmts, pending: Option<string>, loops: Loops,
                     n: nat, locals: nat)
    requires Around(code, loops) && AllPlain(body) && AllAccepted(body, InLoop(ScopeOf(loops), pending))
    requires Placed(code, EndLabel(shape, n)) && Placed(code, AgainLabel(shape, n))
    requires Sits(code, BodyAt(at, shape, n, locals), BodyCode(shape, body, pending, loops, n, locals))
    ensures AllSits(code, BodyAt(at, shape, n, locals), body, Push(loops, pending, LoopFrame(shape, n)),
                    BodyStart(shape, n), locals)
  {
    hide AllCode, BodyAt, Sits, Placed, AllPlain, AllAccepted, InLoop, ScopeOf, Push, Around;
    AroundPush(code, loops, pending, LoopFrame(shape, n));
    PushScope(loops, pending, LoopFrame(shape, n));
  }

  lemma LoopPlacesIntro(code: seq<Instr>, at: nat, shape: Shape, body: Stmts, pending: Option<string>, loops: Loops,
                        n: nat, locals: nat)
    requires var tailAt, end := TailAt(at, shape, body, pending, loops, n, locals), LoopEnd(at, shape, body, pending,
          loops, n, locals);
      && TestSits(code, shape.test) && tailAt < end <= |code|
      && at < |code| && code[at] == Mark(Gen(n)) && Placed(code, Gen(n)) && FindMark(code, Gen(n), 0) == at
      && code[end - 1] == Mark(EndLabel(shape, n)) && Placed(code, EndLabel(shape, n)) && FindMark(code, EndLabel(shape, n), 0) == end - 1
      && (!shape.WhileDo? ==> FindMark(code, AgainLabel(shape, n), 0) == tailAt)
      && Sits(code, at + 1, HeadCode(shape, n, locals))
      && AllSits(code, BodyAt(at, shape, n, locals), body, Push(loops, pending, LoopFrame(shape, n)), BodyStart(shape, n), locals)
      && Sits(code, tailAt, LoopTail(shape, body, n, locals))
    ensures LoopPlaces(code, at, shape, body, pending, loops, n, locals)
  {
    hide TestSits, Placed, FindMark, Sits, AllSits, HeadCode, LoopTail, BodyCode, BodyStart, LoopEnd;
  }

  // ----- parts of a switch -----

  ghost predicate SectionsSit(code: seq<Instr>, at: nat, ss: Sections, loops: Loops, base: nat, n: nat, locals: nat) {
    && Around(code, loops) && SectionsPlain(ss) && SectionsAccepted(ss, ScopeOf(loops))
    && Sits(code, at, BodiesCode(ss, loops, base, n, locals))
  }

  /** The first section's label, its body, and the other sections. */
  lemma SectionSits(code: seq<Instr>, at: nat, ss: Sections, loops: Loops, base: nat, n: nat, locals: nat)
    requires SectionsSit(code, at, ss, loops, base, n, locals) && ss.Section?
    ensures var body := AllCode(ss.body, loops, n, locals);
      && at < |code| && code[at] == Mark(Gen(base)) && Placed(code, Gen(base)) && FindMark(code, Gen(base), 0) == at
      && AllSits(code, at + 1, ss.body, loops, n, locals)
      && SectionsSit(code, at + 1 + |body|, ss.rest, loops, base + 1, n + AllLabels(ss.body), locals)
      && |BodiesCode(ss, loops, base, n, locals)| == 1 + |body| + |BodiesCode(ss.rest, loops, base + 1, n + AllLabels(ss.body), locals)|
  {
    var body, rest := AllCode(ss.body, loops, n, locals), BodiesCode(ss.rest, loops, base + 1, n + AllLabels(ss.body),
                                                                     locals);
    assert UniqueMarks(code);
    hide AllCode, Sits, Placed, UniqueMarks, AllPlain, AllAccepted, ScopeOf, AllLabels, Around;
    SitsParts(code, at, [Mark(Gen(base))], body + rest);
    SitsOne(code, at, Mark(Gen(base)));
    SitsParts(code, at + 1, body, rest);
    MarkFound(code, Gen(base), at);
  }

  lemma {:induction false} SectionsPlaced(code: seq<Instr>, at: nat, ss: Sections, loops: Loops, base: nat, n: nat,
                                          locals: nat)
    requires SectionsSit(code, at, ss, loops, base, n, locals)
    ensures CasesPlaced(code, base, Count(ss))
    decreases ss
  {
    hide SectionsSit, Placed;
    if ss.Section? {
      SectionSits(code, at, ss, loops, base, n, locals);
      SectionsPlaced(code, at + 1 + |AllCode(ss.body, loops, n, locals)|, ss.rest, loops, base + 1,
                     n + AllLabels(ss.body), locals);
      hide AllCode, AllLabels;
    }
  }

  lemma {:induction false} LastDefaultIndex(ss: Sections, i: nat)
    ensures LastDefault(ss, i).Some? ==> i <= LastDefault(ss, i).value < i + Count(ss)
  {
    if ss.Section? { LastDefaultIndex(ss.rest, i + 1); }
  }

  /** Making room and evaluating the switch value. */
  lemma SwitchStarts(env: Env, code: seq<Instr>, at: nat, id: nat, size: nat, locals: nat, r: Regs) returns (t: State)
    requires Sits(code, at, [PushN(2 * size), EvalTo(id, locals, size)]) && locals <= |r.stack|
    ensures Run(env, code, State(at, r), 2) == t && t.pc == at + 2 && t.r.trace == r.trace + [id]
    ensures SlotHeld(t.r.stack, locals, size, Value(env, id, size, r.trace)) && Grown(r.stack, t.r.stack, locals, 2 * size)
  {
    PushEval(env, id, size, 2 * size, locals, locals, r);
    var push, eval := PushN(2 * size), EvalTo(id, locals, size);
    var m := Act(env, push, r).value;
    hide Act;
    FoldCons(env, push, [eval], r);
    OneFolds(env, eval, m);
    assert [push, eval] == [push] + [eval];
    FoldRuns(env, code, at, [push, eval], r);
    t := Run(env, code, State(at, r), 2);
  }

  lemma PopStep(env: Env, code: seq<Instr>, pc: nat, room: nat, r: Regs)
    requires pc < |code| && code[pc] == PopN(room) && room <= |r.stack|
    ensures Run(env, code, State(pc, r), 1) == State(pc + 1, r.(stack := r.stack[..|r.stack| - room]))
  {
    assert Run(env, code, State(pc, r), 1) == Run(env, code, Step(env, code, State(pc, r)), 0);
  }

  /** The clean-up at the end of a switch. */
  lemma CleanUp(env: Env, code: seq<Instr>, pc: nat, room: nat, locals: nat, r: Regs, s: Regs,
                leak: nat) returns (t: State)
    requires pc + 2 < |code| && code[pc].Mark? && code[pc + 1] == PopN(room) && code[pc + 2].Mark?
    requires Grown(r.stack, s.stack, locals, room + leak)
    ensures Run(env, code, State(pc, s), 3) == t && t.pc == pc + 3 && t.r.trace == s.trace && Grown(r.stack, t.r.stack, locals, leak)
  {
    MarkStep(env, code, pc, s);
    PopStep(env, code, pc + 1, room, s);
    var u := s.(stack := s.stack[..|s.stack| - room]);
    MarkStep(env, code, pc + 2, u);
    hide Run;
    RunPlus(env, code, State(pc, s), 1, 1);
    RunPlus(env, code, State(pc, s), 2, 1);
    t := State(pc + 3, u);
  }

  /** Leaving a switch: through the clean-up when the bodies end or break, past it otherwise. */
  lemma SwitchLeaves(env: Env, code: seq<Instr>, at: nat, p: nat, clean: nat, loops: Loops, pending: Option<string>,
                     n: nat, room: nat, locals: nat,
                     r: Regs, start: nat, u: Regs, result: Result, fuel: nat, k: nat, t: State) returns (k': nat,
                           t': State)
    requires Run(env, code, State(at, r), start) == State(p, u) && Grown(r.stack, u.stack, locals, room)
    requires Carries(env, code, p, clean, Push(loops, pending, SwitchFrame(loops, n)), locals + room, u, result, fuel,
                     k, t)
    requires clean + 2 < |code| && code[clean].Mark? && code[clean + 1] == PopN(room) && code[clean + 2].Mark? && FindMark(code, Gen(n), 0) == clean
    ensures Carries(env, code, at, clean + 3, loops, locals, r, LeaveSwitch(result, pending, room), fuel, k', t')
  {
    hide *;
    var inside := Push(loops, pending, SwitchFrame(loops, n));
    RunPlus(env, code, State(at, r), start, k);
    CarriesParts(env, code, p, clean, inside, locals + room, u, result, fuel, k, t);
    k', t' := start + k, t;
    if result.Timeout? {
      TimeoutAfter(env, code, at, p, clean, clean + 3, loops, inside, locals, r, start, State(p, u), fuel, fuel, k, t,
                   locals + room);
      LeaveIs(result, pending, room);
    } else {
      var o := result.outcome;
      GrownBoth(r.stack, u.stack, t.r.stack, locals, room, result.leak);
      LeaveIs(result, pending, room);
      LeaveTarget(code, clean, loops, pending, n, o, t.pc);
      if o == Next || Leaves(o, pending) {
        t' := CleanUp(env, code, clean, room, locals, r, t.r, result.leak);
        RunPlus(env, code, State(at, r), start + k, 3);
        k' := start + k + 3;
        CarriesIntro(env, code, at, clean + 3, loops, locals, r, Finished(Next, result.trace, result.leak), fuel, k',
                     t');
      } else {
        CarriesIntro(env, code, at, clean + 3, loops, locals, r, LeaveSwitch(result, pending, room), fuel, k', t');
      }
    }
  }

  lemma CarriesIntro(env: Env, code: seq<Instr>, at: nat, end: nat, loops: Loops, locals: nat, r: Regs, result: Result,
                     fuel: nat, k: nat, t: State)
    requires result.Finished? && Run(env, code, State(at, r), k) == t && t.r.trace == result.trace && Grown(r.stack, t.r.stack, locals, result.leak)
    requires if result.outcome == Next then t.pc == end
      else TargetOf(loops, result.outcome).Some? && t.pc == FindMark(code, TargetOf(loops, result.outcome).value, 0)
    ensures Carries(env, code, at, end, loops, locals, r, result, fuel, k, t)
  {
    hide Run, Grown, TargetOf, FindMark;
  }

  lemma LeaveIs(result: Result, pending: Option<string>, room: nat)
    ensures LeaveSwitch(result, pending, room) ==
      if result.Timeout? || result.outcome == Next then result
      else if Leaves(result.outcome, pending) then result.(outcome := Next)
      else if result.outcome.Continued? && result.outcome.name.Some? && result.outcome.name == pending
      then result.(outcome := Continued(None), leak := result.leak + room)
      else result.(leak := result.leak + room)
  {
  }

  /** Where control is once the bodies are left. */
  lemma LeaveTarget(code: seq<Instr>, clean: nat, loops: Loops, pending: Option<string>, n: nat, o: Outcome, pc: nat)
    requires Arrived(code, clean, Push(loops, pending, SwitchFrame(loops, n)), o, pc) && FindMark(code, Gen(n), 0) == clean
    ensures o == Next || Leaves(o, pending) ==> pc == clean
    ensures o != Next && !Leaves(o, pending) ==>
      var x := if o.Continued? && o.name.Some? && o.name == pending then Continued(None) else o;
      TargetOf(loops, x).Some? && pc == FindMark(code, TargetOf(loops, x).value, 0)
  {
    if o != Next { TargetInside(loops, pending, SwitchFrame(loops, n), o); }
    ContinueTarget(loops, o, pending);
    hide TargetOf, FindMark, Push, CurrentContinue;
    SwitchFrameParts(loops, n);
  }

  lemma SwitchFrameParts(loops: Loops, n: nat)
    ensures SwitchFrame(loops, n).brk == Gen(n) && SwitchFrame(loops, n).again == TargetOf(loops, Continued(None))
  {
  }

  lemma GrownBoth(a: seq<Byte>, b: seq<Byte>, c: seq<Byte>, locals: nat, room: nat, leak: nat)
    requires Grown(a, b, locals, room) && Grown(b, c, locals + room, leak)
    ensures Grown(a, c, locals, room + leak)
  {
    assert c[..locals] == c[..locals + room][..locals] && b[..locals] == b[..locals + room][..locals];
  }

  /** Continuing a switch by name continues what surrounds it. */
  lemma ContinueTarget(loops: Loops, o: Outcome, pending: Option<string>)
    ensures TargetOf(loops, Continued(None)) == CurrentContinue(loops)
  {
  }

  function Dispatch(s: Stmt, n: nat, locals: nat): seq<Instr>
    requires s.Switch?
  {
    DispatchCode(s.sections, s.kind, s.size, n + 2, n + 2 + Count(s.sections), locals)
  }

  function Bodies(s: Stmt, pending: Option<string>, loops: Loops, n: nat, locals: nat): seq<Instr>
    requires s.Switch?
  {
    BodiesCode(s.sections, Push(loops, pending, SwitchFrame(loops, n)), n + 2,
               n + 2 + Count(s.sections) + SkipLabels(s.sections), locals + 2 * s.size)
  }

  function BodiesAt(at: nat, s: Stmt, n: nat, locals: nat): nat
    requires s.Switch?
  {
    at + 2 + |Dispatch(s, n, locals)| + 1
  }

  function CleanAt(at: nat, s: Stmt, pending: Option<string>, loops: Loops, n: nat, locals: nat): nat
    requires s.Switch?
  {
    BodiesAt(at, s, n, locals) + |Bodies(s, pending, loops, n, locals)|
  }

  ghost predicate SwitchPlaces(code: seq<Instr>, at: nat, s: Stmt, pending: Option<string>, loops: Loops, n: nat,
                               locals: nat)
    requires s.Switch?
  {
    var bodiesAt, clean := BodiesAt(at, s, n, locals), CleanAt(at, s, pending, loops, n, locals);
    && UniqueMarks(code) && clean + 2 < |code|
    && Sits(code, at, [PushN(2 * s.size), EvalTo(s.id, locals, s.size)]) && Sits(code, at + 2, Dispatch(s, n, locals))
    && code[bodiesAt - 1] == Jmp(ElseLabel(s.sections, n))
    && SectionsSit(code, bodiesAt, s.sections, Push(loops, pending, SwitchFrame(loops, n)), n + 2,
                   n + 2 + Count(s.sections) + SkipLabels(s.sections), locals + 2 * s.size)
    && code[clean] == Mark(Gen(n)) && code[clean + 1] == PopN(2 * s.size) && code[clean + 2].Mark?
    && Placed(code, Gen(n)) && FindMark(code, Gen(n), 0) == clean
  }

  lemma SwitchShape(at: nat, s: Stmt, pending: Option<string>, loops: Loops, n: nat, locals: nat)
    requires s.Switch? && 2 * s.size < 256
    ensures SwitchCode(s, pending, loops, n, locals) ==
      [PushN(2 * s.size), EvalTo(s.id, locals, s.size)] + (Dispatch(s, n, locals) + ([Jmp(ElseLabel(s.sections, n))]
      + (Bodies(s, pending, loops, n, locals) + ([Mark(Gen(n)), PopN(2 * s.size)] + [Mark(Gen(n + 1))]))))
    ensures at + |SwitchCode(s, pending, loops, n, locals)| == CleanAt(at, s, pending, loops, n, locals) + 3
    ensures BodiesAt(at, s, n, locals) == at + 2 + |Dispatch(s, n, locals)| + 1
    ensures CleanAt(at, s, pending, loops, n, locals) == at + 2 + |Dispatch(s, n, locals)| + 1 + |Bodies(s, pending,
          loops, n, locals)|
  {
    hide DispatchCode, BodiesCode, Push, ElseLabel, Count, SkipLabels;
  }

  lemma CurrentPlaced(code: seq<Instr>, loops: Loops)
    requires Around(code, loops)
    ensures UniqueMarks(code) && (CurrentContinue(loops).Some? ==> Placed(code, CurrentContinue(loops).value))
  {
    hide UniqueMarks, Placed;
  }

  lemma BodiesSit(code: seq<Instr>, at: nat, s: Stmt, pending: Option<string>, loops: Loops, n: nat, locals: nat)
    requires s.Switch? && Around(code, loops) && SectionsPlain(s.sections) && SectionsAccepted(s.sections, InSwitch(ScopeOf(loops), pending))
    requires Placed(code, Gen(n)) && Sits(code, at, Bodies(s, pending, loops, n, locals))
    ensures SectionsSit(code, at, s.sections, Push(loops, pending, SwitchFrame(loops, n)), n + 2,
                        n + 2 + Count(s.sections) + SkipLabels(s.sections), locals + 2 * s.size)
  {
    hide *;
    CurrentPlaced(code, loops);
    SwitchFramePlaced(code, loops, n);
    AroundPush(code, loops, pending, SwitchFrame(loops, n));
    PushScope(loops, pending, SwitchFrame(loops, n));
    SectionsSitIntro(code, at, s, pending, loops, n, locals);
  }

  lemma SwitchFramePlaced(code: seq<Instr>, loops: Loops, n: nat)
    requires Placed(code, Gen(n)) && (CurrentContinue(loops).Some? ==> Placed(code, CurrentContinue(loops).value))
    ensures FramePlaced(code, SwitchFrame(loops, n)) && SwitchFrame(loops, n).again == CurrentContinue(loops)
  {
    hide Placed, CurrentContinue;
  }

  lemma SectionsSitIntro(code: seq<Instr>, at: nat, s: Stmt, pending: Option<string>, loops: Loops, n: nat, locals: nat)
    requires s.Switch? && Around(code, Push(loops, pending, SwitchFrame(loops, n))) && SectionsPlain(s.sections)
    requires SectionsAccepted(s.sections, ScopeOf(Push(loops, pending, SwitchFrame(loops, n))))
    requires Sits(code, at, Bodies(s, pending, loops, n, locals))
    ensures SectionsSit(code, at, s.sections, Push(loops, pending, SwitchFrame(loops, n)), n + 2,
                        n + 2 + Count(s.sections) + SkipLabels(s.sections), locals + 2 * s.size)
  {
    hide BodiesCode, Sits, SectionsPlain, SectionsAccepted, ScopeOf, Push, Around, Count, SkipLabels;
  }

  lemma SwitchIsPlaced(code: seq<Instr>, at: nat, s: Stmt, pending: Option<string>, loops: Loops, n: nat, locals: nat)
    requires s.Switch? && 2 * s.size < 256 && Around(code, loops) && SectionsPlain(s.sections)
    requires SectionsAccepted(s.sections, InSwitch(ScopeOf(loops), pending)) && Sits(code, at, SwitchCode(s, pending, loops, n, locals))
    ensures SwitchPlaces(code, at, s, pending, loops, n, locals)
  {
    hide *;
    var head: seq<Instr> := [PushN(2 * s.size), EvalTo(s.id, locals, s.size)];
    var last: seq<Instr> := [Mark(Gen(n)), PopN(2 * s.size)];
    var dispatch, bodies := Dispatch(s, n, locals), Bodies(s, pending, loops, n, locals);
    var clean := CleanAt(at, s, pending, loops, n, locals);
    SwitchShape(at, s, pending, loops, n, locals);
    CurrentPlaced(code, loops);
    SitsParts(code, at, head, dispatch + ([Jmp(ElseLabel(s.sections, n))] + (bodies + (last + [Mark(Gen(n + 1))]))));
    SitsParts(code, at + 2, dispatch, [Jmp(ElseLabel(s.sections, n))] + (bodies + (last + [Mark(Gen(n + 1))])));
    SitsParts(code, at + 2 + |dispatch|, [Jmp(ElseLabel(s.sections, n))], bodies + (last + [Mark(Gen(n + 1))]));
    SitsOne(code, at + 2 + |dispatch|, Jmp(ElseLabel(s.sections, n)));
    SitsParts(code, at + 2 + |dispatch| + 1, bodies, last + [Mark(Gen(n + 1))]);
    SitsParts(code, clean, last, [Mark(Gen(n + 1))]);
    SitsTwo(code, clean, Mark(Gen(n)), PopN(2 * s.size));
    SitsOne(code, clean + 2, Mark(Gen(n + 1)));
    MarkFound(code, Gen(n), clean);
    BodiesSit(code, BodiesAt(at, s, n, locals), s, pending, loops, n, locals);
    SwitchPlacesIntro(code, at, s, pending, loops, n, locals);
  }

  lemma SwitchPlacesIntro(code: seq<Instr>, at: nat, s: Stmt, pending: Option<string>, loops: Loops, n: nat,
                          locals: nat)
    requires s.Switch?
    requires var bodiesAt, clean := BodiesAt(at, s, n, locals), CleanAt(at, s, pending, loops, n, locals);
      && UniqueMarks(code) && clean + 2 < |code| && bodiesAt <= clean
      && Sits(code, at, [PushN(2 * s.size), EvalTo(s.id, locals, s.size)]) && Sits(code, at + 2, Dispatch(s, n, locals))
      && bodiesAt > 0 && code[bodiesAt - 1] == Jmp(ElseLabel(s.sections, n))
      && SectionsSit(code, bodiesAt, s.sections, Push(loops, pending, SwitchFrame(loops, n)), n + 2,
                   n + 2 + Count(s.sections) + SkipLabels(s.sections), locals + 2 * s.size)
      && code[clean] == Mark(Gen(n)) && code[clean + 1] == PopN(2 * s.size) && code[clean + 2].Mark?
      && Placed(code, Gen(n)) && FindMark(code, Gen(n), 0) == clean
    ensures SwitchPlaces(code, at, s, pending, loops, n, locals)
  {
    hide UniqueMarks, Sits, SectionsSit, Placed, FindMark, Dispatch, Bodies, Count, SkipLabels, Push, ElseLabel;
  }

  /** From the start of a switch to the label its value selects. */
  lemma SwitchSelects(env: Env, code: seq<Instr>, at: nat, s: Stmt, pending: Option<string>, loops: Loops, n: nat,
                      locals: nat, r: Regs)
    returns (k: nat, t: State)
    requires s.Switch? && SwitchPlaces(code, at, s, pending, loops, n, locals) && locals <= |r.stack|
    ensures Run(env, code, State(at, r), k) == t
    ensures var v := Value(env, s.id, s.size, r.trace); var p := Pick(env, s.sections, 0, s.kind, s.size, v,
                                                                      r.trace + [s.id]);
      var i := if p.0.Some? then p.0 else LastDefault(s.sections, 0);
      && t.r.trace == p.1 && Grown(r.stack, t.r.stack, locals, 2 * s.size) && (i.Some? ==> i.value < Count(s.sections))
      && t == State(FindMark(code, if i.Some? then Gen(n + 2 + i.value) else Gen(n), 0), t.r)
  {
    hide *;
    SwitchFacts(code, at, s, pending, loops, n, locals);
    LastDefaultIndex(s.sections, 0);
    var v := Value(env, s.id, s.size, r.trace);
    var u := SwitchStarts(env, code, at, s.id, s.size, locals, r);
    DispatchIs(s, n, locals);
    var j: nat;
    j, t := DispatchRuns(env, code, at + 2, s.sections, s.kind, s.size, n + 2, n + 2 + Count(s.sections), 0, locals, v,
                         u.r);
    var p := Pick(env, s.sections, 0, s.kind, s.size, v, u.r.trace);
    ChosenParts(code, at + 2 + |Dispatch(s, n, locals)|, n + 2, 0, Count(s.sections), p, locals, s.size, r, u.r, t);
    RunPlus(env, code, State(at, r), 2, j);
    k := 2 + j;
    if p.0.None? {
      ElseIs(code, s.sections, n);
      JmpStep(env, code, t.pc, t.r);
      RunPlus(env, code, State(at, r), k, 1);
      k, t := k + 1, State(FindMark(code, ElseLabel(s.sections, n), 0), t.r);
    }
  }

  lemma SwitchFacts(code: seq<Instr>, at: nat, s: Stmt, pending: Option<string>, loops: Loops, n: nat, locals: nat)
    requires s.Switch? && SwitchPlaces(code, at, s, pending, loops, n, locals)
    ensures UniqueMarks(code) && Placed(code, Gen(n)) && CasesPlaced(code, n + 2, Count(s.sections))
    ensures Sits(code, at, [PushN(2 * s.size), EvalTo(s.id, locals, s.size)]) && Sits(code, at + 2, Dispatch(s, n, locals))
    ensures var jump := at + 2 + |Dispatch(s, n, locals)|; jump < |code| && code[jump] == Jmp(ElseLabel(s.sections, n))
  {
    hide UniqueMarks, Sits, SectionsSit, Placed, FindMark, Dispatch, Bodies, SkipLabels, Push, ElseLabel;
    SectionsPlaced(code, BodiesAt(at, s, n, locals), s.sections, Push(loops, pending, SwitchFrame(loops, n)), n + 2,
                   n + 2 + Count(s.sections) + SkipLabels(s.sections), locals + 2 * s.size);
  }

  lemma DispatchIs(s: Stmt, n: nat, locals: nat)
    requires s.Switch?
    ensures Dispatch(s, n, locals) == DispatchCode(s.sections, s.kind, s.size, n + 2, n + 2 + Count(s.sections), locals)
  {
  }

  lemma ChosenParts(code: seq<Instr>, end: nat, base: nat, first: nat, count: nat, p: (Option<nat>, Trace),
                    locals: nat, size: nat, r: Regs, u: Regs, t: State)
    requires Chosen(code, end, base, first, count, p, locals + size, u, t) && Grown(r.stack, u.stack, locals, 2 * size)
    ensures t.r.trace == p.1 && (p.0.Some? ==> first <= p.0.value < first + count) && Grown(r.stack, t.r.stack, locals, 2 * size)
    ensures t == State(if p.0.Some? then FindMark(code, Gen(base + p.0.value - first), 0) else end, t.r)
  {
    assert t.r.stack[..locals + size][..locals] == t.r.stack[..locals] && u.stack[..locals + size][..locals] == u.stack[..locals];
    hide FindMark;
  }

  lemma ElseIs(code: seq<Instr>, ss: Sections, n: nat)
    requires Placed(code, Gen(n)) && CasesPlaced(code, n + 2, Count(ss)) && (LastDefault(ss, 0).Some? ==> LastDefault(ss, 0).value < Count(ss))
    ensures Placed(code, ElseLabel(ss, n))
    ensures ElseLabel(ss, n) == if LastDefault(ss, 0).Some? then Gen(n + 2 + LastDefault(ss, 0).value) else Gen(n)
  {
    hide Placed, LastDefault, Count;
  }

  // ----- all statements -----

  lemma FirstSits(code: seq<Instr>, at: nat, ss: Stmts, loops: Loops, n: nat, locals: nat)
    requires AllSits(code, at, ss, loops, n, locals) && ss.Then?
    ensures var first := StmtCode(ss.first, None, loops, n, locals);
      && StmtSits(code, at, ss.first, None, loops, n, locals)
      && AllSits(code, at + |first|, ss.rest, loops, n + StmtLabels(ss.first), locals)
      && |AllCode(ss, loops, n, locals)| == |first| + |AllCode(ss.rest, loops, n + StmtLabels(ss.first), locals)|
  {
    hide StmtCode, StmtLabels, Around, Sits, Plain, Accepted, ScopeOf;
    SitsParts(code, at, StmtCode(ss.first, None, loops, n, locals), AllCode(ss.rest, loops, n + StmtLabels(ss.first),
          locals));
  }

  lemma ExecFirst(env: Env, ss: Stmts, scope: Scope, t: Trace, fuel: nat)
    requires ss.Then?
    ensures var done := Exec(env, ss.first, None, scope, t, fuel);
      ExecAll(env, ss, scope, t, fuel) ==
        if done.Finished? && done.outcome == Next then Leaking(ExecAll(env, ss.rest, scope, done.trace, fuel), done.leak) else done
  {
    hide Exec;
  }

  lemma CarriesParts(env: Env, code: seq<Instr>, at: nat, end: nat, loops: Loops, locals: nat, r: Regs, result: Result,
                     fuel: nat, k: nat, t: State)
    requires Carries(env, code, at, end, loops, locals, r, result, fuel, k, t)
    ensures Run(env, code, State(at, r), k) == t
    ensures result.Finished? ==> t.r.trace == result.trace && Grown(r.stack, t.r.stack, locals, result.leak) && Arrived(code, end, loops, result.outcome, t.pc)
    ensures result.Finished? && result.outcome == Next ==> t.pc == end
  {
    hide Run, Grown;
  }

  lemma GrownHigh(before: seq<Byte>, after: seq<Byte>, locals: nat, leak: nat)
    requires Grown(before, after, locals, leak)
    ensures locals <= |after|
  {
  }

  /** A list of statements, run from its start, does what the list means. */
  lemma {:induction false} AllRuns(env: Env, code: seq<Instr>, at: nat, ss: Stmts, loops: Loops, n: nat, locals: nat,
                                   r: Regs, fuel: nat)
    returns (k: nat, t: State)
    requires AllSits(code, at, ss, loops, n, locals) && locals <= |r.stack|
    ensures Carries(env, code, at, at + |AllCode(ss, loops, n, locals)|, loops, locals, r,
                    ExecAll(env, ss, ScopeOf(loops), r.trace, fuel), fuel, k, t)
    decreases fuel, ss, 1
  {
    hide *;
    if ss.Nothing? {
      k, t := NothingCarries(env, code, at, loops, n, locals, r, fuel);
    } else {
      FirstSits(code, at, ss, loops, n, locals);
      ExecFirst(env, ss, ScopeOf(loops), r.trace, fuel);
      var mid, end := at + |StmtCode(ss.first, None, loops, n, locals)|, at + |AllCode(ss, loops, n, locals)|;
      var done := Exec(env, ss.first, None, ScopeOf(loops), r.trace, fuel);
      k, t := StmtRuns(env, code, at, ss.first, None, loops, n, locals, r, fuel);
      CarriesParts(env, code, at, mid, loops, locals, r, done, fuel, k, t);
      if done.Finished? && done.outcome == Next {
        GrownHigh(r.stack, t.r.stack, locals, done.leak);
        var j: nat, u: State := AllRuns(env, code, mid, ss.rest, loops, n + StmtLabels(ss.first), locals, t.r, fuel);
        CarriesAfter(env, code, at, mid, end, loops, locals, r, done.leak, k, t,
                     ExecAll(env, ss.rest, ScopeOf(loops), done.trace, fuel), fuel, fuel, j, u);
        k, t := k + j, u;
      } else {
        CarriesOut(env, code, at, mid, end, loops, locals, r, done, fuel, k, t);
      }
    }
  }

  lemma NothingCarries(env: Env, code: seq<Instr>, at: nat, loops: Loops, n: nat, locals: nat, r: Regs,
                       fuel: nat) returns (k: nat, t: State)
    requires locals <= |r.stack|
    ensures Carries(env, code, at, at + |AllCode(Nothing, loops, n, locals)|, loops, locals, r,
                    ExecAll(env, Nothing, ScopeOf(loops), r.trace, fuel), fuel, k, t)
  {
    k, t := 0, State(at, r);
  }

  /** A statement's code does what the statement means: the machine gets to the end of it, or to the label the break,
      continue or return is aimed at, with the statement's trace and the stack higher by what the source leaks; and a
      statement still running after so many rounds keeps the machine running as long. */
  lemma {:induction false} StmtRuns(env: Env, code: seq<Instr>, at: nat, s: Stmt, pending: Option<string>,
                                    loops: Loops, n: nat, locals: nat, r: Regs, fuel: nat)
    returns (k: nat, t: State)
    requires StmtSits(code, at, s, pending, loops, n, locals) && locals <= |r.stack|
    ensures Carries(env, code, at, at + |StmtCode(s, pending, loops, n, locals)|, loops, locals, r,
                    Exec(env, s, pending, ScopeOf(loops), r.trace, fuel), fuel, k, t)
    decreases fuel, s, 4
  {
    hide *;
    StmtParts(env, code, at, s, pending, loops, n, locals, r.trace, fuel);
    match s {
      case Effects(ids) => k, t := EffectsCarries(env, code, at, ids, loops, locals, r, fuel);
      case If(_, _, _) => k, t := IfRuns(env, code, at, s, pending, loops, n, locals, r, fuel);
      case Loop(init, shape, body) =>
        EffectsRun(env, code, at, init, r);
        GrownSame(r.stack, locals);
        var m := State(at + |init|, r.(trace := r.trace + init));
        var j: nat;
        j, t := LoopRuns(env, code, at + |init|, shape, body, pending, loops, n, locals, m.r, fuel);
        var rest := ExecLoop(env, shape, body, pending, ScopeOf(loops), m.r.trace, fuel);
        LeakNothing(rest);
        CarriesAfter(env, code, at, at + |init|, LoopEnd(at + |init|, shape, body, pending, loops, n, locals), loops,
                     locals, r, 0, |init|, m, rest, fuel, fuel, j, t);
        k := |init| + j;
      case Switch(_, _, _, sections) =>
        if sections.NoMore? {
          k, t := NothingCarries(env, code, at, loops, n, locals, r, fuel);
        } else {
          k, t := SwitchRuns(env, code, at, s, pending, loops, n, locals, r, fuel);
        }
      case Break(_) => k, t := ExitCarries(env, code, at, s, pending, loops, n, locals, r, fuel);
      case Continue(_) => k, t := ExitCarries(env, code, at, s, pending, loops, n, locals, r, fuel);
      case Return(result) => k, t := ReturnCarries(env, code, at, result, loops, locals, r, fuel);
      case Block(body) => k, t := AllRuns(env, code, at, body, loops, n, locals, r, fuel);
      case Labelled(name, inner) =>
        var inside := if Takes(inner) then Some(name) else None;
        MarkStep(env, code, at, r);
        GrownSame(r.stack, locals);
        var j: nat;
        j, t := StmtRuns(env, code, at + 1, inner, inside, loops, n, locals, r, fuel);
        var rest := Exec(env, inner, inside, ScopeOf(loops), r.trace, fuel);
        LeakNothing(rest);
        CarriesAfter(env, code, at, at + 1, at + 1 + |StmtCode(inner, inside, loops, n, locals)|, loops, locals, r, 0,
                     1, State(at + 1, r), rest, fuel, fuel, j, t);
        k := 1 + j;
    }
  }

  lemma LeakNothing(result: Result)
    ensures Leaking(result, 0) == result
  {
  }

  /** What a statement's code, meaning and surroundings are made of. */
  lemma StmtParts(env: Env, code: seq<Instr>, at: nat, s: Stmt, pending: Option<string>, loops: Loops, n: nat,
                  locals: nat, t: Trace, fuel: nat)
    requires StmtSits(code, at, s, pending, loops, n, locals)
    ensures Around(code, loops)
    ensures s.Effects? ==>
      && Sits(code, at, EffectsCode(s.ids)) && |StmtCode(s, pending, loops, n, locals)| == |s.ids|
      && Exec(env, s, pending, ScopeOf(loops), t, fuel) == Finished(Next, t + s.ids, 0)
    ensures s.Loop? ==>
      && Sits(code, at, EffectsCode(s.init)) && LoopPlaces(code, at + |s.init|, s.shape, s.body, pending, loops, n, locals)
      && at + |StmtCode(s, pending, loops, n, locals)| == LoopEnd(at + |s.init|, s.shape, s.body, pending, loops, n, locals)
      && Exec(env, s, pending, ScopeOf(loops), t, fuel) == ExecLoop(env, s.shape, s.body, pending, ScopeOf(loops), t + s.init, fuel)
    ensures s.Switch? && s.sections.NoMore? ==>
      && StmtCode(s, pending, loops, n, locals) == AllCode(Nothing, loops, n, locals)
      && Exec(env, s, pending, ScopeOf(loops), t, fuel) == ExecAll(env, Nothing, ScopeOf(loops), t, fuel)
    ensures s.Switch? && s.sections.Section? ==>
      && SwitchPlaces(code, at, s, pending, loops, n, locals)
      && at + |StmtCode(s, pending, loops, n, locals)| == CleanAt(at, s, pending, loops, n, locals) + 3
    ensures s.Return? ==> var code' := EffectsCode(if s.result.Some? then [s.result.value] else []) + [Jmp(Fini)];
      && StmtCode(s, pending, loops, n, locals) == code' && Sits(code, at, code')
      && Exec(env, s, pending, ScopeOf(loops), t, fuel) == Finished(Returned, if s.result.Some? then t + [s.result.value] else t, 0)
    ensures s.Block? ==>
      && AllSits(code, at, s.body, loops, n, locals) && StmtCode(s, pending, loops, n, locals) == AllCode(s.body, loops, n, locals)
      && Exec(env, s, pending, ScopeOf(loops), t, fuel) == ExecAll(env, s.body, ScopeOf(loops), t, fuel)
    ensures s.Labelled? ==> var inside := if Takes(s.inner) then Some(s.mark) else None;
      && at < |code| && code[at].Mark? && StmtSits(code, at + 1, s.inner, inside, loops, n, locals)
      && |StmtCode(s, pending, loops, n, locals)| == 1 + |StmtCode(s.inner, inside, loops, n, locals)|
      && Exec(env, s, pending, ScopeOf(loops), t, fuel) == Exec(env, s.inner, inside, ScopeOf(loops), t, fuel)
  {
    hide Around, ScopeOf, Sits, EffectsCode, LoopCode, SwitchCode, ExecLoop, AllCode, LoopPlaces, SwitchPlaces, LoopEnd, CleanAt, ExecFrom, Pick;
    match s {
      case Loop(init, shape, body) =>
        EffectsLength(init);
        SitsParts(code, at, EffectsCode(init), LoopCode(shape, body, pending, loops, n, locals));
        AroundTest(code, loops, shape.test);
        LoopIsPlaced(code, at + |init|, shape, body, pending, loops, n, locals);
        LoopShape(at + |init|, shape, body, pending, loops, n, locals);
      case Switch(_, _, _, sections) =>
        AllOfNothing(env, loops, n, locals, ScopeOf(loops), t, fuel);
        if sections.Section? {
          SwitchIsPlaced(code, at, s, pending, loops, n, locals);
          SwitchShape(at, s, pending, loops, n, locals);
        }
      case Labelled(name, inner) =>
        var inside := if Takes(inner) then Some(name) else None;
        SitsParts(code, at, [Mark(User(name))], StmtCode(inner, inside, loops, n, locals));
        SitsOne(code, at, Mark(User(name)));
      case Effects(ids) => EffectsLength(ids);
      case _ =>
    }
  }

  lemma AllOfNothing(env: Env, loops: Loops, n: nat, locals: nat, scope: Scope, t: Trace, fuel: nat)
    ensures AllCode(Nothing, loops, n, locals) == [] && ExecAll(env, Nothing, scope, t, fuel) == Finished(Next, t, 0)
  {
  }

  lemma EffectsLength(ids: seq<nat>)
    ensures |EffectsCode(ids)| == |ids|
  {
  }

  lemma AroundTest(code: seq<Instr>, loops: Loops, c: Cond)
    requires Around(code, loops) && WellSized(c) && Canonical(c)
    ensures TestSits(code, c)
  {
    hide UniqueMarks;
  }

  // ----- if -----

  /** A block, and the few steps from its end to the end of the statement around it. */
  lemma {:induction false} BranchRuns(env: Env, code: seq<Instr>, at: nat, ss: Stmts, loops: Loops, n: nat,
                                      locals: nat, r: Regs, fuel: nat, j: nat, end: nat)
    returns (k: nat, t: State)
    requires AllSits(code, at, ss, loops, n, locals) && locals <= |r.stack| && at + |AllCode(ss, loops, n, locals)| <= end
    requires LeadsOn(env, code, at + |AllCode(ss, loops, n, locals)|, j, end)
    ensures Carries(env, code, at, end, loops, locals, r, ExecAll(env, ss, ScopeOf(loops), r.trace, fuel), fuel, k, t)
    decreases fuel, ss, 2
  {
    hide *;
    var mid := at + |AllCode(ss, loops, n, locals)|;
    var done := ExecAll(env, ss, ScopeOf(loops), r.trace, fuel);
    k, t := AllRuns(env, code, at, ss, loops, n, locals, r, fuel);
    if done.Finished? && done.outcome == Next {
      LedOn(env, code, mid, j, end, t.r);
      CarriesOn(env, code, at, mid, end, loops, locals, r, done, fuel, k, t, j);
      k, t := k + j, State(end, t.r);
    } else {
      CarriesOut(env, code, at, mid, end, loops, locals, r, done, fuel, k, t);
    }
  }

  /** j steps that only move control. */
  ghost predicate LeadsOn(env: Env, code: seq<Instr>, mid: nat, j: nat, end: nat) {
    forall x: Regs :: Run(env, code, State(mid, x), j) == State(end, x)
  }

  lemma LedOn(env: Env, code: seq<Instr>, mid: nat, j: nat, end: nat, r: Regs)
    requires LeadsOn(env, code, mid, j, end)
    ensures Run(env, code, State(mid, r), j) == State(end, r)
  {
    hide Run;
  }

  lemma MarkLeadsOn(env: Env, code: seq<Instr>, mid: nat)
    requires mid < |code| && code[mid].Mark?
    ensures LeadsOn(env, code, mid, 1, mid + 1)
  {
    hide Run;
    forall x: Regs
      ensures Run(env, code, State(mid, x), 1) == State(mid + 1, x)
    {
      MarkStep(env, code, mid, x);
    }
  }

  lemma JumpLeadsOn(env: Env, code: seq<Instr>, mid: nat, last: nat)
    requires mid < |code| && code[mid].Jmp? && Placed(code, code[mid].target) && FindMark(code, code[mid].target, 0) == last
    requires last < |code| && code[last].Mark?
    ensures LeadsOn(env, code, mid, 2, last + 1)
  {
    hide Run, FindMark, Placed;
    forall x: Regs
      ensures Run(env, code, State(mid, x), 2) == State(last + 1, x)
    {
      JmpStep(env, code, mid, x);
      MarkStep(env, code, last, x);
      RunPlus(env, code, State(mid, x), 1, 1);
    }
  }

  /** Where the parts of an if are: then-part, false label, else-part. */
  ghost predicate IfPlaces(env: Env, code: seq<Instr>, at: nat, s: Stmt, loops: Loops, n: nat, locals: nat, end: nat,
                           noAt: nat, j: nat)
    requires s.If?
  {
    var yesAt := at + |CondCode(s.test, Gen(n), n + 2, locals)|;
    var m := n + 2 + CondLabels(s.test);
    var yesEnd := yesAt + |AllCode(s.yes, loops, m, locals)|;
    var noEnd := noAt + |AllCode(s.no, loops, m + AllLabels(s.yes), locals)|;
    && CondSits(code, at, s.test, Gen(n), n + 2, locals)
    && AllSits(code, yesAt, s.yes, loops, m, locals) && AllSits(code, noAt, s.no, loops, m + AllLabels(s.yes), locals)
    && 0 < noAt <= |code| && code[noAt - 1].Mark? && FindMark(code, Gen(n), 0) == noAt - 1
    && yesEnd <= end && noEnd <= end
    && (exists i :: LeadsOn(env, code, yesEnd, i, end)) && LeadsOn(env, code, noEnd, j, end)
  }

  lemma NothingLeadsOn(env: Env, code: seq<Instr>, at: nat)
    ensures LeadsOn(env, code, at, 0, at)
  {
  }

  lemma SitsNothing(code: seq<Instr>, at: nat)
    requires at <= |code|
    ensures Sits(code, at, [])
  {
  }

  lemma IfWithoutElse(env: Env, code: seq<Instr>, at: nat, s: Stmt, pending: Option<string>, loops: Loops, n: nat,
                      locals: nat) returns (end: nat, noAt: nat, j: nat)
    requires s.If? && s.no.Nothing? && StmtSits(code, at, s, pending, loops, n, locals)
    ensures IfPlaces(env, code, at, s, loops, n, locals, end, noAt, j) && end == at + |StmtCode(s, pending, loops, n, locals)|
  {
    hide *;
    var m := n + 2 + CondLabels(s.test);
    var cond, yes := CondCode(s.test, Gen(n), n + 2, locals), AllCode(s.yes, loops, m, locals);
    IfFacts(code, at, s, pending, loops, n, locals);
    IfShape(s, pending, loops, n, locals);
    SitsParts(code, at, cond + yes, [Mark(Gen(n))]);
    SitsParts(code, at, cond, yes);
    SitsOne(code, at + |cond| + |yes|, Mark(Gen(n)));
    MarkFound(code, Gen(n), at + |cond| + |yes|);
    CondSitsIntro(code, at, s.test, Gen(n), n + 2, locals);
    noAt, end, j := at + |cond| + |yes| + 1, at + |cond| + |yes| + 1, 0;
    MarkLeadsOn(env, code, at + |cond| + |yes|);
    NothingLeadsOn(env, code, end);
    SitsNothing(code, noAt);
    NoCode(loops, m + AllLabels(s.yes), locals);
    AllSitsIntro(code, at + |cond|, s.yes, loops, m, locals);
    AllSitsIntro(code, noAt, s.no, loops, m + AllLabels(s.yes), locals);
    IfPlacesIntro(env, code, at, s, loops, n, locals, end, noAt, 1, j);
  }

  lemma NoCode(loops: Loops, n: nat, locals: nat)
    ensures AllCode(Nothing, loops, n, locals) == []
  {
  }

  lemma IfWithElse(env: Env, code: seq<Instr>, at: nat, s: Stmt, pending: Option<string>, loops: Loops, n: nat,
                   locals: nat) returns (end: nat, noAt: nat, j: nat)
    requires s.If? && !s.no.Nothing? && StmtSits(code, at, s, pending, loops, n, locals)
    ensures IfPlaces(env, code, at, s, loops, n, locals, end, noAt, j) && end == at + |StmtCode(s, pending, loops, n, locals)|
  {
    hide *;
    var m := n + 2 + CondLabels(s.test);
    var cond, yes, no := CondCode(s.test, Gen(n), n + 2, locals), AllCode(s.yes, loops, m, locals), AllCode(s.no,
          loops, m + AllLabels(s.yes), locals);
    IfFacts(code, at, s, pending, loops, n, locals);
    IfShape(s, pending, loops, n, locals);
    SitsParts(code, at, cond + yes, [Jmp(Gen(n + 1)), Mark(Gen(n))] + (no + [Mark(Gen(n + 1))]));
    SitsParts(code, at, cond, yes);
    var jump := at + |cond| + |yes|;
    SitsParts(code, jump, [Jmp(Gen(n + 1)), Mark(Gen(n))], no + [Mark(Gen(n + 1))]);
    SitsTwo(code, jump, Jmp(Gen(n + 1)), Mark(Gen(n)));
    SitsParts(code, jump + 2, no, [Mark(Gen(n + 1))]);
    SitsOne(code, jump + 2 + |no|, Mark(Gen(n + 1)));
    MarkFound(code, Gen(n), jump + 1);
    MarkFound(code, Gen(n + 1), jump + 2 + |no|);
    CondSitsIntro(code, at, s.test, Gen(n), n + 2, locals);
    noAt, end, j := jump + 2, jump + 2 + |no| + 1, 1;
    JumpLeadsOn(env, code, jump, jump + 2 + |no|);
    MarkLeadsOn(env, code, jump + 2 + |no|);
    AllSitsIntro(code, at + |cond|, s.yes, loops, m, locals);
    AllSitsIntro(code, noAt, s.no, loops, m + AllLabels(s.yes), locals);
    IfPlacesIntro(env, code, at, s, loops, n, locals, end, noAt, 2, j);
  }

  /** A block whose surroundings are in order, wherever its code is. */
  ghost predicate AllReady(code: seq<Instr>, ss: Stmts, loops: Loops) {
    Around(code, loops) && AllPlain(ss) && AllAccepted(ss, ScopeOf(loops))
  }

  lemma AllSitsIntro(code: seq<Instr>, at: nat, ss: Stmts, loops: Loops, n: nat, locals: nat)
    requires AllReady(code, ss, loops) && Sits(code, at, AllCode(ss, loops, n, locals))
    ensures AllSits(code, at, ss, loops, n, locals)
  {
    hide Around, AllPlain, AllAccepted, ScopeOf, Sits;
  }

  lemma IfFacts(code: seq<Instr>, at: nat, s: Stmt, pending: Option<string>, loops: Loops, n: nat, locals: nat)
    requires s.If? && StmtSits(code, at, s, pending, loops, n, locals)
    ensures UniqueMarks(code) && WellSized(s.test) && Canonical(s.test) && AllReady(code, s.yes, loops) && AllReady(code, s.no, loops)
    ensures Sits(code, at, StmtCode(s, pending, loops, n, locals))
  {
    AroundUnique(code, loops);
    hide Around, UniqueMarks, ScopeOf, Sits, StmtCode;
  }

  lemma IfPlacesIntro(env: Env, code: seq<Instr>, at: nat, s: Stmt, loops: Loops, n: nat, locals: nat, end: nat,
                      noAt: nat, i: nat, j: nat)
    requires s.If?
    requires var yesAt := at + |CondCode(s.test, Gen(n), n + 2, locals)|;
      var m := n + 2 + CondLabels(s.test);
      var yesEnd := yesAt + |AllCode(s.yes, loops, m, locals)|;
      var noEnd := noAt + |AllCode(s.no, loops, m + AllLabels(s.yes), locals)|;
      && CondSits(code, at, s.test, Gen(n), n + 2, locals)
      && AllSits(code, yesAt, s.yes, loops, m, locals) && AllSits(code, noAt, s.no, loops, m + AllLabels(s.yes), locals)
      && 0 < noAt <= |code| && code[noAt - 1].Mark? && FindMark(code, Gen(n), 0) == noAt - 1
      && yesEnd <= end && noEnd <= end && LeadsOn(env, code, yesEnd, i, end) && LeadsOn(env, code, noEnd, j, end)
    ensures IfPlaces(env, code, at, s, loops, n, locals, end, noAt, j)
  {
    hide CondCode, AllCode, CondSits, AllSits, FindMark, LeadsOn, CondLabels, AllLabels;
  }

  lemma IfShape(s: Stmt, pending: Option<string>, loops: Loops, n: nat, locals: nat)
    requires s.If?
    ensures var m := n + 2 + CondLabels(s.test);
      var head := CondCode(s.test, Gen(n), n + 2, locals) + AllCode(s.yes, loops, m, locals);
      StmtCode(s, pending, loops, n, locals) ==
        if s.no.Nothing? then head + [Mark(Gen(n))]
        else head + ([Jmp(Gen(n + 1)), Mark(Gen(n))] + (AllCode(s.no, loops, m + AllLabels(s.yes),
                                                                locals) + [Mark(Gen(n + 1))]))
  {
    hide CondCode, AllCode, CondLabels, AllLabels;
  }

  lemma AroundUnique(code: seq<Instr>, loops: Loops)
    requires Around(code, loops)
    ensures UniqueMarks(code)
  {
  }

  lemma ExecIf(env: Env, s: Stmt, pending: Option<string>, scope: Scope, t: Trace, fuel: nat)
    requires s.If?
    ensures var b := Truth(env, s.test, t); Exec(env, s, pending, scope, t, fuel) == ExecAll(env, if b.0 then s.yes else s.no, scope, b.1, fuel)
  {
  }

  lemma IfPlaced(env: Env, code: seq<Instr>, at: nat, s: Stmt, loops: Loops, n: nat, locals: nat, end: nat, noAt: nat,
                 j: nat) returns (i: nat)
    requires s.If? && IfPlaces(env, code, at, s, loops, n, locals, end, noAt, j)
    ensures var yesAt := at + |CondCode(s.test, Gen(n), n + 2, locals)|;
      var m := n + 2 + CondLabels(s.test);
      var yesEnd := yesAt + |AllCode(s.yes, loops, m, locals)|;
      var noEnd := noAt + |AllCode(s.no, loops, m + AllLabels(s.yes), locals)|;
      && CondSits(code, at, s.test, Gen(n), n + 2, locals)
      && AllSits(code, yesAt, s.yes, loops, m, locals) && AllSits(code, noAt, s.no, loops, m + AllLabels(s.yes), locals)
      && 0 < noAt <= |code| && code[noAt - 1].Mark? && FindMark(code, Gen(n), 0) == noAt - 1
      && yesEnd <= end && noEnd <= end
      && LeadsOn(env, code, yesEnd, i, end) && LeadsOn(env, code, noEnd, j, end)
  {
    hide CondCode, AllCode, CondSits, AllSits, FindMark, LeadsOn, CondLabels, AllLabels;
    var m := n + 2 + CondLabels(s.test);
    var yesEnd := at + |CondCode(s.test, Gen(n), n + 2, locals)| + |AllCode(s.yes, loops, m, locals)|;
    var i' :| LeadsOn(env, code, yesEnd, i', end);
    i := i';
  }

  /** if, with and without an else part. */
  lemma {:induction false} IfRuns(env: Env, code: seq<Instr>, at: nat, s: Stmt, pending: Option<string>, loops: Loops,
                                  n: nat, locals: nat, r: Regs, fuel: nat)
    returns (k: nat, t: State)
    requires s.If? && StmtSits(code, at, s, pending, loops, n, locals) && locals <= |r.stack|
    ensures Carries(env, code, at, at + |StmtCode(s, pending, loops, n, locals)|, loops, locals, r,
                    Exec(env, s, pending, ScopeOf(loops), r.trace, fuel), fuel, k, t)
    decreases fuel, s, 3
  {
    hide *;
    var end: nat, noAt: nat, j: nat;
    if s.no.Nothing? {
      end, noAt, j := IfWithoutElse(env, code, at, s, pending, loops, n, locals);
    } else {
      end, noAt, j := IfWithElse(env, code, at, s, pending, loops, n, locals);
    }
    var i := IfPlaced(env, code, at, s, loops, n, locals, end, noAt, j);
    ExecIf(env, s, pending, ScopeOf(loops), r.trace, fuel);
    var yesAt, m := at + |CondCode(s.test, Gen(n), n + 2, locals)|, n + 2 + CondLabels(s.test);
    var truth := Truth(env, s.test, r.trace);
    var i0: nat, u: State := CondRuns(env, code, at, s.test, Gen(n), n + 2, locals, r);
    DecidedGrows(env, code, yesAt, s.test, Gen(n), locals, r, u);
    var i1: nat;
    if truth.0 {
      i1, t := BranchRuns(env, code, yesAt, s.yes, loops, m, locals, u.r, fuel, i, end);
      var rest := ExecAll(env, s.yes, ScopeOf(loops), truth.1, fuel);
      LeakNothing(rest);
      CarriesAfter(env, code, at, yesAt, end, loops, locals, r, 0, i0, u, rest, fuel, fuel, i1, t);
      k := i0 + i1;
    } else {
      MarkStep(env, code, noAt - 1, u.r);
      RunPlus(env, code, State(at, r), i0, 1);
      i1, t := BranchRuns(env, code, noAt, s.no, loops, m + AllLabels(s.yes), locals, u.r, fuel, j, end);
      var rest := ExecAll(env, s.no, ScopeOf(loops), truth.1, fuel);
      LeakNothing(rest);
      CarriesAfter(env, code, at, noAt, end, loops, locals, r, 0, i0 + 1, State(noAt, u.r), rest, fuel, fuel, i1, t);
      k := i0 + 1 + i1;
    }
  }

  lemma DecidedGrows(env: Env, code: seq<Instr>, end: nat, c: Cond, f: Label, locals: nat, r: Regs, t: State)
    requires Decided(env, code, end, c, f, locals, r, t)
    ensures t == State(if Truth(env, c, r.trace).0 then end else FindMark(code, f, 0), t.r)
    ensures t.r.trace == Truth(env, c, r.trace).1 && Grown(r.stack, t.r.stack, locals, 0) && locals <= |t.r.stack|
  {
    hide Truth, FindMark;
  }

  // ----- loops -----

  lemma LoopFacts(code: seq<Instr>, at: nat, shape: Shape, body: Stmts, pending: Option<string>, loops: Loops, n: nat,
                  locals: nat)
    requires LoopPlaces(code, at, shape, body, pending, loops, n, locals)
    ensures var tailAt, end := TailAt(at, shape, body, pending, loops, n, locals), LoopEnd(at, shape, body, pending,
          loops, n, locals);
      && TestSits(code, shape.test) && at < tailAt < end <= |code|
      && code[at] == Mark(Gen(n)) && Placed(code, Gen(n)) && FindMark(code, Gen(n), 0) == at
      && code[end - 1] == Mark(EndLabel(shape, n)) && Placed(code, EndLabel(shape, n)) && FindMark(code, EndLabel(shape, n), 0) == end - 1
      && FindMark(code, AgainLabel(shape, n), 0) == (if shape.WhileDo? then at else tailAt)
      && Sits(code, at + 1, HeadCode(shape, n, locals))
      && AllSits(code, BodyAt(at, shape, n, locals), body, Push(loops, pending, LoopFrame(shape, n)), BodyStart(shape, n), locals)
      && Sits(code, tailAt, TailCode(shape, n, BodyStart(shape, n) + AllLabels(body), locals) + [Jmp(Gen(n)), Mark(EndLabel(shape, n))])
      && BodyAt(at, shape, n, locals) == at + 1 + |HeadCode(shape, n, locals)|
      && tailAt == BodyAt(at, shape, n, locals) + |AllCode(body, Push(loops, pending, LoopFrame(shape, n)), BodyStart(shape, n), locals)|
  {
    hide TestSits, Placed, FindMark, Sits, AllSits, HeadCode, AllCode, TailCode, BodyStart, AllLabels, Push;
  }

  lemma LoopFrameIs(shape: Shape, n: nat)
    ensures LoopFrame(shape, n) == Frame(EndLabel(shape, n), Some(AgainLabel(shape, n)))
  {
  }

  lemma TimeoutCarries(env: Env, code: seq<Instr>, at: nat, end: nat, loops: Loops, locals: nat, r: Regs)
    requires at < end
    ensures Carries(env, code, at, end, loops, locals, r, Timeout, 0, 0, State(at, r))
  {
  }

  lemma TimeoutAfter(env: Env, code: seq<Instr>, at: nat, mid: nat, inner: nat, end: nat, loops: Loops, inside: Loops,
                     locals: nat, r: Regs,
                     k: nat, m: State, spent: nat, fuel: nat, j: nat, t: State, high: nat)
    requires Run(env, code, State(at, r), k) == m && m.pc == mid && inner <= end && fuel <= spent + k
    requires Carries(env, code, mid, inner, inside, high, m.r, Timeout, spent, j, t)
    ensures Carries(env, code, at, end, loops, locals, r, Timeout, fuel, k + j, t)
  {
    hide Run;
    RunPlus(env, code, State(at, r), k, j);
  }

  lemma ExecLoopIs(env: Env, shape: Shape, body: Stmts, pending: Option<string>, scope: Scope, t: Trace, fuel: nat)
    ensures ExecLoop(env, shape, body, pending, scope, t, fuel) ==
      if fuel == 0 then Timeout
      else
        var before := TestBefore(env, shape, t);
        if !before.0 then Finished(Next, before.1, 0)
        else
          var done := ExecAll(env, body, InLoop(scope, pending), before.1, fuel - 1);
          if done.Timeout? then Timeout
          else Leaking(NextRound(env, shape, body, pending, scope, done.outcome, done.trace, fuel), done.leak)
  {
    hide ExecAll, NextRound, TestBefore, InLoop;
  }

  lemma NextRoundIs(env: Env, shape: Shape, body: Stmts, pending: Option<string>, scope: Scope, o: Outcome, t: Trace,
                    fuel: nat)
    requires fuel > 0
    ensures NextRound(env, shape, body, pending, scope, o, t, fuel) ==
      if Leaves(o, pending) then Finished(Next, t, 0)
      else if !Again(o, pending) then Finished(o, t, 0)
      else
        var after := TestAfter(env, shape, t);
        if !after.0 then Finished(Next, after.1, 0) else ExecLoop(env, shape, body, pending, scope, after.1, fuel - 1)
  {
    hide ExecLoop, TestAfter;
  }

  /** while, for and do-while. */
  lemma {:induction false} LoopRuns(env: Env, code: seq<Instr>, at: nat, shape: Shape, body: Stmts,
                                    pending: Option<string>, loops: Loops, n: nat, locals: nat, r: Regs, fuel: nat)
    returns (k: nat, t: State)
    requires Around(code, loops) && LoopPlaces(code, at, shape, body, pending, loops, n, locals) && locals <= |r.stack|
    ensures Carries(env, code, at, LoopEnd(at, shape, body, pending, loops, n, locals), loops, locals, r,
                    ExecLoop(env, shape, body, pending, ScopeOf(loops), r.trace, fuel), fuel, k, t)
    decreases fuel, body, 3
  {
    hide *;
    LoopFacts(code, at, shape, body, pending, loops, n, locals);
    ExecLoopIs(env, shape, body, pending, ScopeOf(loops), r.trace, fuel);
    var end := LoopEnd(at, shape, body, pending, loops, n, locals);
    if fuel == 0 {
      TimeoutCarries(env, code, at, end, loops, locals, r);
      k, t := 0, State(at, r);
    } else {
      MarkStep(env, code, at, r);
      var j: nat, u: State := HeadRuns(env, code, at + 1, shape, n, locals, r);
      RunPlus(env, code, State(at, r), 1, j);
      GrownHigh(r.stack, u.r.stack, locals, 0);
      if TestBefore(env, shape, r.trace).0 {
        k, t := FromBody(env, code, at, shape, body, pending, loops, n, locals, r, 1 + j, u, fuel);
      } else {
        MarkStep(env, code, end - 1, u.r);
        RunPlus(env, code, State(at, r), 1 + j, 1);
        k, t := 1 + j + 1, State(end, u.r);
        CarriesNext(env, code, at, end, loops, locals, r, fuel, k, t);
      }
    }
  }

  /** The iteration from the body on, the test before it having succeeded after `spent` steps. */
  lemma {:induction false} FromBody(env: Env, code: seq<Instr>, at: nat, shape: Shape, body: Stmts,
                                    pending: Option<string>, loops: Loops, n: nat, locals: nat,
                                    r: Regs, spent: nat, u: State, fuel: nat) returns (k: nat, t: State)
    requires Around(code, loops) && LoopPlaces(code, at, shape, body, pending, loops, n, locals) && locals <= |u.r.stack|
    requires Run(env, code, State(at, r), spent) == u && spent >= 1 && fuel > 0 && Grown(r.stack, u.r.stack, locals, 0)
    requires TestBefore(env, shape, r.trace) == (true, u.r.trace) && u.pc == BodyAt(at, shape, n, locals)
    ensures Carries(env, code, at, LoopEnd(at, shape, body, pending, loops, n, locals), loops, locals, r,
                    ExecLoop(env, shape, body, pending, ScopeOf(loops), r.trace, fuel), fuel, k, t)
    decreases fuel, body, 2
  {
    hide *;
    LoopFacts(code, at, shape, body, pending, loops, n, locals);
    ExecLoopIs(env, shape, body, pending, ScopeOf(loops), r.trace, fuel);
    LoopFrameIs(shape, n);
    PushScope(loops, pending, LoopFrame(shape, n));
    var end, tailAt := LoopEnd(at, shape, body, pending, loops, n, locals), TailAt(at, shape, body, pending, loops, n,
          locals);
    var inside := Push(loops, pending, LoopFrame(shape, n));
    var i: nat, v: State := AllRuns(env, code, u.pc, body, inside, BodyStart(shape, n), locals, u.r, fuel - 1);
    var done := ExecAll(env, body, ScopeOf(inside), u.r.trace, fuel - 1);
    CarriesParts(env, code, u.pc, tailAt, inside, locals, u.r, done, fuel - 1, i, v);
    if done.Timeout? {
      TimeoutAfter(env, code, at, u.pc, tailAt, end, loops, inside, locals, r, spent, u, fuel - 1, fuel, i, v, locals);
      k, t := spent + i, v;
    } else {
      GrownTwice(r.stack, u.r.stack, v.r.stack, locals, 0, done.leak);
      GrownHigh(u.r.stack, v.r.stack, locals, done.leak);
      RunPlus(env, code, State(at, r), spent, i);
      var l: nat;
      l, t := RoundRuns(env, code, at, shape, body, pending, loops, n, locals, done.outcome, v, fuel);
      CarriesAfter(env, code, at, v.pc, end, loops, locals, r, done.leak, spent + i, v,
                   NextRound(env, shape, body, pending, ScopeOf(loops), done.outcome, done.trace,
                             fuel), fuel, fuel - 1, l, t);
      k := spent + i + l;
    }
  }

  lemma ArrivedAt(code: seq<Instr>, end: nat, loops: Loops, o: Outcome, pc: nat)
    requires Arrived(code, end, loops, o, pc)
    ensures if o == Next then pc == end else TargetOf(loops, o).Some? && pc == FindMark(code, TargetOf(loops, o).value, 0)
  {
  }

  /** Control is already where the outcome sends it. */
  lemma StaysCarries(env: Env, code: seq<Instr>, end: nat, loops: Loops, locals: nat, v: State, o: Outcome, fuel: nat)
    requires o != Next && locals <= |v.r.stack| && TargetOf(loops, o).Some? && v.pc == FindMark(code, TargetOf(loops, o).value, 0)
    ensures Carries(env, code, v.pc, end, loops, locals, v.r, Finished(o, v.r.trace, 0), fuel, 0, v)
  {
    hide TargetOf, FindMark;
  }

  /** From the end of the body, or from where it jumped to. */
  lemma {:induction false} RoundRuns(env: Env, code: seq<Instr>, at: nat, shape: Shape, body: Stmts,
                                     pending: Option<string>, loops: Loops, n: nat, locals: nat,
                                     o: Outcome, v: State, fuel: nat) returns (k: nat, t: State)
    requires Around(code, loops) && LoopPlaces(code, at, shape, body, pending, loops, n, locals) && locals <= |v.r.stack| && fuel > 0
    requires Arrived(code, TailAt(at, shape, body, pending, loops, n, locals),
                     Push(loops, pending, LoopFrame(shape, n)), o, v.pc)
    ensures Carries(env, code, v.pc, LoopEnd(at, shape, body, pending, loops, n, locals), loops, locals, v.r,
                    NextRound(env, shape, body, pending, ScopeOf(loops), o, v.r.trace, fuel), fuel - 1, k, t)
    decreases fuel, body, 0
  {
    hide *;
    LoopFacts(code, at, shape, body, pending, loops, n, locals);
    NextRoundIs(env, shape, body, pending, ScopeOf(loops), o, v.r.trace, fuel);
    LoopFrameIs(shape, n);
    ArrivedAt(code, TailAt(at, shape, body, pending, loops, n, locals), Push(loops, pending, LoopFrame(shape, n)), o,
              v.pc);
    NextNotLeaving(pending);
    if o != Next { TargetInside(loops, pending, LoopFrame(shape, n), o); }
    GrownSame(v.r.stack, locals);
    var end := LoopEnd(at, shape, body, pending, loops, n, locals);
    if Leaves(o, pending) {
      MarkStep(env, code, end - 1, v.r);
      k, t := 1, State(end, v.r);
      CarriesNext(env, code, v.pc, end, loops, locals, v.r, fuel - 1, k, t);
    } else if !Again(o, pending) {
      StaysCarries(env, code, end, loops, locals, v, o, fuel - 1);
      k, t := 0, v;
    } else {
      var j: nat, w: State := BackRuns(env, code, at, shape, body, pending, loops, n, locals, v);
      GrownHigh(v.r.stack, w.r.stack, locals, 0);
      var after := TestAfter(env, shape, v.r.trace);
      if after.0 {
        var i: nat;
        i, t := LoopRuns(env, code, at, shape, body, pending, loops, n, locals, w.r, fuel - 1);
        var rest := ExecLoop(env, shape, body, pending, ScopeOf(loops), after.1, fuel - 1);
        LeakNothing(rest);
        CarriesAfter(env, code, v.pc, at, end, loops, locals, v.r, 0, j, w, rest, fuel - 1, fuel - 1, i, t);
        k := j + i;
      } else {
        MarkStep(env, code, end - 1, w.r);
        RunPlus(env, code, v, j, 1);
        k, t := j + 1, State(end, w.r);
        CarriesNext(env, code, v.pc, end, loops, locals, v.r, fuel - 1, k, t);
      }
    }
  }

  lemma NextNotLeaving(pending: Option<string>)
    ensures !Leaves(Next, pending) && Again(Next, pending)
  {
  }

  /** Back to the start of the loop, or, when a do-while's test fails, to its end label. */
  lemma BackRuns(env: Env, code: seq<Instr>, at: nat, shape: Shape, body: Stmts, pending: Option<string>, loops: Loops,
                 n: nat, locals: nat, v: State)
    returns (k: nat, t: State)
    requires LoopPlaces(code, at, shape, body, pending, loops, n, locals) && locals <= |v.r.stack|
    requires v.pc == TailAt(at, shape, body, pending, loops, n, locals) || v.pc == FindMark(code, AgainLabel(shape, n), 0)
    ensures Run(env, code, v, k) == t
    ensures var b := TestAfter(env, shape, v.r.trace);
      t == State(if b.0 then at else LoopEnd(at, shape, body, pending, loops, n, locals) - 1, t.r)
      && t.r.trace == b.1 && Grown(v.r.stack, t.r.stack, locals, 0)
  {
    hide *;
    LoopFacts(code, at, shape, body, pending, loops, n, locals);
    if v.pc == TailAt(at, shape, body, pending, loops, n, locals) {
      k, t := TailRuns(env, code, v.pc, shape, n, BodyStart(shape, n) + AllLabels(body), locals, v.r);
    } else {
      WhileGoesOn(env, shape, v.r.trace);
      GrownSame(v.r.stack, locals);
      RunNothing(env, code, v);
      k, t := 0, v;
    }
  }

  lemma WhileGoesOn(env: Env, shape: Shape, t: Trace)
    ensures shape.WhileDo? ==> TestAfter(env, shape, t) == (true, t)
  {
  }

  // ----- switches -----

  lemma ExecFromIs(env: Env, ss: Sections, i: nat, scope: Scope, t: Trace, fuel: nat)
    ensures ExecFrom(env, ss, i, scope, t, fuel) ==
      if ss.NoMore? then Finished(Next, t, 0)
      else if i > 0 then ExecFrom(env, ss.rest, i - 1, scope, t, fuel)
      else
        var done := ExecAll(env, ss.body, scope, t, fuel);
        if done.Finished? && done.outcome == Next then Leaking(ExecFrom(env, ss.rest, 0, scope, done.trace, fuel), done.leak) else done
  {
    hide ExecAll;
  }

  lemma SectionsFacts(code: seq<Instr>, at: nat, ss: Sections, loops: Loops, base: nat, n: nat, locals: nat)
    requires SectionsSit(code, at, ss, loops, base, n, locals)
    ensures |BodiesCode(ss, loops, base, n, locals)| == if ss.NoMore? then 0
      else 1 + |AllCode(ss.body, loops, n, locals)| + |BodiesCode(ss.rest, loops, base + 1, n + AllLabels(ss.body),
                                                                  locals)|
  {
    hide AllCode, AllLabels;
  }

  /** From the label of section i, through it and the sections after it. */
  lemma {:induction false} FromRuns(env: Env, code: seq<Instr>, at: nat, ss: Sections, i: nat, loops: Loops, base: nat,
                                    n: nat, locals: nat, r: Regs, fuel: nat)
    returns (k: nat, t: State)
    requires SectionsSit(code, at, ss, loops, base, n, locals) && i < Count(ss) && locals <= |r.stack|
    ensures Carries(env, code, FindMark(code, Gen(base + i), 0), at + |BodiesCode(ss, loops, base, n, locals)|, loops,
                    locals, r,
                    ExecFrom(env, ss, i, ScopeOf(loops), r.trace, fuel), fuel, k, t)
    decreases fuel, ss, 3
  {
    hide *;
    ExecFromIs(env, ss, i, ScopeOf(loops), r.trace, fuel);
    CountIs(ss);
    SectionSits(code, at, ss, loops, base, n, locals);
    var mid := at + 1 + |AllCode(ss.body, loops, n, locals)|;
    var end := at + |BodiesCode(ss, loops, base, n, locals)|;
    if i > 0 {
      k, t := FromRuns(env, code, mid, ss.rest, i - 1, loops, base + 1, n + AllLabels(ss.body), locals, r, fuel);
    } else {
      MarkStep(env, code, at, r);
      GrownSame(r.stack, locals);
      var j: nat, u: State := AllRuns(env, code, at + 1, ss.body, loops, n, locals, r, fuel);
      var done := ExecAll(env, ss.body, ScopeOf(loops), r.trace, fuel);
      LeakNothing(done);
      CarriesAfter(env, code, at, at + 1, mid, loops, locals, r, 0, 1, State(at + 1, r), done, fuel, fuel, j, u);
      CarriesParts(env, code, at, mid, loops, locals, r, done, fuel, 1 + j, u);
      if done.Finished? && done.outcome == Next {
        GrownHigh(r.stack, u.r.stack, locals, done.leak);
        var l: nat;
        l, t := FallThrough(env, code, mid, ss.rest, loops, base + 1, n + AllLabels(ss.body), locals, u.r, fuel);
        CarriesAfter(env, code, at, mid, end, loops, locals, r, done.leak, 1 + j, u,
                     ExecFrom(env, ss.rest, 0, ScopeOf(loops), done.trace, fuel), fuel, fuel, l, t);
        k := 1 + j + l;
      } else {
        CarriesOut(env, code, at, mid, end, loops, locals, r, done, fuel, 1 + j, u);
        k, t := 1 + j, u;
      }
    }
  }

  lemma CountIs(ss: Sections)
    ensures Count(ss) == if ss.NoMore? then 0 else 1 + Count(ss.rest)
  {
  }

  /** From the end of one section into the next, if there is one. */
  lemma {:induction false} FallThrough(env: Env, code: seq<Instr>, at: nat, ss: Sections, loops: Loops, base: nat,
                                       n: nat, locals: nat, r: Regs, fuel: nat)
    returns (k: nat, t: State)
    requires SectionsSit(code, at, ss, loops, base, n, locals) && locals <= |r.stack|
    ensures Carries(env, code, at, at + |BodiesCode(ss, loops, base, n, locals)|, loops, locals, r,
                    ExecFrom(env, ss, 0, ScopeOf(loops), r.trace, fuel), fuel, k, t)
    decreases fuel, ss, 4
  {
    hide *;
    CountIs(ss);
    if ss.NoMore? {
      ExecFromIs(env, ss, 0, ScopeOf(loops), r.trace, fuel);
      SectionsFacts(code, at, ss, loops, base, n, locals);
      GrownSame(r.stack, locals);
      k, t := 0, State(at, r);
      RunNothing(env, code, t);
      CarriesNext(env, code, at, at, loops, locals, r, fuel, k, t);
    } else {
      SectionSits(code, at, ss, loops, base, n, locals);
      k, t := FromRuns(env, code, at, ss, 0, loops, base, n, locals, r, fuel);
    }
  }

  lemma ExecSwitch(env: Env, s: Stmt, pending: Option<string>, scope: Scope, t: Trace, fuel: nat)
    requires s.Switch? && s.sections.Section?
    ensures var p := Pick(env, s.sections, 0, s.kind, s.size, Value(env, s.id, s.size, t), t + [s.id]);
      var i := if p.0.Some? then p.0 else LastDefault(s.sections, 0);
      Exec(env, s, pending, scope, t, fuel) ==
        if i.None? then Finished(Next, p.1, 0)
        else LeaveSwitch(ExecFrom(env, s.sections, i.value, InSwitch(scope, pending), p.1, fuel), pending, 2 * s.size)
  {
    hide Pick, Value, LastDefault, LeaveSwitch, ExecFrom, InSwitch;
  }

  lemma SwitchEnds(code: seq<Instr>, at: nat, s: Stmt, pending: Option<string>, loops: Loops, n: nat, locals: nat)
    requires s.Switch? && SwitchPlaces(code, at, s, pending, loops, n, locals)
    ensures var clean := CleanAt(at, s, pending, loops, n, locals);
      && clean + 2 < |code| && code[clean].Mark? && code[clean + 1] == PopN(2 * s.size) && code[clean + 2].Mark? && FindMark(code, Gen(n), 0) == clean
    ensures var inside := Push(loops, pending,
                               SwitchFrame(loops, n)); var m := n + 2 + Count(s.sections) + SkipLabels(s.sections);
      && SectionsSit(code, BodiesAt(at, s, n, locals), s.sections, inside, n + 2, m, locals + 2 * s.size)
      && CleanAt(at, s, pending, loops, n, locals) == BodiesAt(at, s, n, locals) + |BodiesCode(s.sections, inside, n + 2, m, locals + 2 * s.size)|
  {
    hide UniqueMarks, Sits, SectionsSit, Placed, FindMark, Dispatch, BodiesCode, Count, SkipLabels, Push, BodiesAt;
  }

  lemma SwitchScope(loops: Loops, pending: Option<string>, n: nat)
    ensures ScopeOf(Push(loops, pending, SwitchFrame(loops, n))) == InSwitch(ScopeOf(loops), pending)
  {
    PushScope(loops, pending, SwitchFrame(loops, n));
  }

  /** A switch: its value, the tests, the sections from the chosen one on, and the clean-up. */
  lemma {:induction false} SwitchRuns(env: Env, code: seq<Instr>, at: nat, s: Stmt, pending: Option<string>,
                                      loops: Loops, n: nat, locals: nat, r: Regs, fuel: nat)
    returns (k: nat, t: State)
    requires s.Switch? && s.sections.Section? && SwitchPlaces(code, at, s, pending, loops, n, locals) && locals <= |r.stack|
    ensures Carries(env, code, at, CleanAt(at, s, pending, loops, n, locals) + 3, loops, locals, r,
                    Exec(env, s, pending, ScopeOf(loops), r.trace, fuel), fuel, k, t)
    decreases fuel, s, 3
  {
    hide *;
    SwitchEnds(code, at, s, pending, loops, n, locals);
    ExecSwitch(env, s, pending, ScopeOf(loops), r.trace, fuel);
    SwitchScope(loops, pending, n);
    var clean, room := CleanAt(at, s, pending, loops, n, locals), 2 * s.size;
    var inside, m := Push(loops, pending, SwitchFrame(loops, n)), n + 2 + Count(s.sections) + SkipLabels(s.sections);
    var start: nat, u: State := SwitchSelects(env, code, at, s, pending, loops, n, locals, r);
    GrownRoom(r.stack, u.r.stack, locals, room);
    var p := Pick(env, s.sections, 0, s.kind, s.size, Value(env, s.id, s.size, r.trace), r.trace + [s.id]);
    var i := if p.0.Some? then p.0 else LastDefault(s.sections, 0);
    if i.None? {
      t := CleanUp(env, code, clean, room, locals, r, u.r, 0);
      RunPlus(env, code, State(at, r), start, 3);
      k := start + 3;
      CarriesNext(env, code, at, clean + 3, loops, locals, r, fuel, k, t);
    } else {
      var j: nat, v: State := FromRuns(env, code, BodiesAt(at, s, n, locals), s.sections, i.value, inside, n + 2, m,
                                       locals + room, u.r, fuel);
      k, t := SwitchLeaves(env, code, at, u.pc, clean, loops, pending, n, room, locals, r, start, u.r,
                           ExecFrom(env, s.sections, i.value, ScopeOf(inside), p.1, fuel), fuel, j, v);
    }
  }

  lemma GrownRoom(before: seq<Byte>, after: seq<Byte>, locals: nat, room: nat)
    requires Grown(before, after, locals, room)
    ensures locals + room <= |after|
  {
  }
}
