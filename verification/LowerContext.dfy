/** What it means for code to carry out a statement inside its loops and switches. */
module LowerContext {
  import opened Basics
  import opened LowerMachine
  import opened LowerCondition
  import opened LowerStatement

  /** The scope that a stack of labels stands for. */
  function ScopeOf(loops: Loops): Scope {
    Scope(KnownNames(loops.named), CurrentContinue(loops).Some?, loops.frames != [])
  }

  function KnownNames(named: seq<NamedFrame>): (ks: seq<Known>)
    ensures |ks| == |named|
  {
    seq(|named|, i requires 0 <= i < |named| => Known(named[i].name, named[i].frame.again.Some?))
  }

  /** Names are found alike in both. */
  lemma {:induction false} FindAlike(named: seq<NamedFrame>, x: string)
    ensures Find(KnownNames(named), x) ==
      match FindNamed(named, x) case None => None case Some(f) => Some(Known(x, f.again.Some?))
  {
    if named != [] {
      FindAlike(named[..|named| - 1], x);
      assert KnownNames(named)[..|named| - 1] == KnownNames(named[..|named| - 1]);
    }
  }

  lemma PushScope(loops: Loops, pending: Option<string>, f: Frame)
    ensures f.again.Some? ==> ScopeOf(Push(loops, pending, f)) == InLoop(ScopeOf(loops), pending)
    ensures f.again == CurrentContinue(loops) ==> ScopeOf(Push(loops, pending, f)) == InSwitch(ScopeOf(loops), pending)
  {
    if pending.Some? {
      assert KnownNames(loops.named + [NamedFrame(pending.value,
                                                  f)]) == KnownNames(loops.named) + [Known(pending.value,
            f.again.Some?)];
    }
  }

  /** Where an outcome other than Next sends control. */
  function TargetOf(loops: Loops, o: Outcome): Option<Label>
    requires o != Next
  {
    match o
    case Broke(name) => BreakLabel(loops, name)
    case Continued(name) => ContinueLabel(loops, name)
    case Returned => Some(Fini)
  }

  lemma NamedOnTop(named: seq<NamedFrame>, name: string, f: Frame, x: string)
    ensures FindNamed(named + [NamedFrame(name, f)], x) == if x == name then Some(f) else FindNamed(named, x)
  {
    assert (named + [NamedFrame(name, f)])[..|named|] == named;
  }

  /** Inside a pushed frame, only outcomes aimed at the frame resolve differently. */
  lemma TargetInside(loops: Loops, pending: Option<string>, f: Frame, o: Outcome)
    requires o != Next
    ensures var target := TargetOf(Push(loops, pending, f), o);
      if Leaves(o, pending) then target == Some(f.brk)
      else if Again(o, pending) then target == f.again
      else target == TargetOf(loops, o)
  {
    if (o.Broke? || o.Continued?) && o.name.Some? && pending.Some? {
      NamedOnTop(loops.named, pending.value, f, o.name.value);
    }
  }

  ghost predicate FramePlaced(code: seq<Instr>, f: Frame) {
    Placed(code, f.brk) && (f.again.Some? ==> Placed(code, f.again.value))
  }

  /** The whole program: generated labels are unique, and all labels one could jump to are in it. */
  ghost predicate Around(code: seq<Instr>, loops: Loops) {
    && UniqueMarks(code) && Placed(code, Fini)
    && (forall i :: 0 <= i < |loops.frames| ==> FramePlaced(code, loops.frames[i]))
    && (forall i :: 0 <= i < |loops.named| ==> FramePlaced(code, loops.named[i].frame))
  }

  lemma AroundPush(code: seq<Instr>, loops: Loops, pending: Option<string>, f: Frame)
    requires Around(code, loops) && FramePlaced(code, f)
    ensures Around(code, Push(loops, pending, f))
  {
    hide UniqueMarks, Placed, FramePlaced;
  }

  lemma {:induction false} FoundPlaced(code: seq<Instr>, named: seq<NamedFrame>, x: string)
    requires forall i :: 0 <= i < |named| ==> FramePlaced(code, named[i].frame)
    ensures FindNamed(named, x).Some? ==> FramePlaced(code, FindNamed(named, x).value)
  {
    if named != [] { FoundPlaced(code, named[..|named| - 1], x); }
  }

  lemma TargetPlaced(code: seq<Instr>, loops: Loops, o: Outcome)
    requires Around(code, loops) && o != Next && TargetOf(loops, o).Some?
    ensures Placed(code, TargetOf(loops, o).value)
  {
    if (o.Broke? || o.Continued?) && o.name.Some? {
      FoundPlaced(code, loops.named, o.name.value);
    }
    hide Placed, UniqueMarks;
  }

  // ----- carrying out -----

  /** `leak` bytes higher, and unchanged below `locals`. */
  ghost predicate Grown(before: seq<Byte>, after: seq<Byte>, locals: nat, leak: nat) {
    locals <= |before| && |after| == |before| + leak && after[..locals] == before[..locals]
  }

  lemma GrownTwice(a: seq<Byte>, b: seq<Byte>, c: seq<Byte>, locals: nat, leak: nat, more: nat)
    requires Grown(a, b, locals, leak) && Grown(b, c, locals, more)
    ensures Grown(a, c, locals, leak + more)
  {
  }

  ghost predicate Arrived(code: seq<Instr>, end: nat, loops: Loops, o: Outcome, pc: nat) {
    if o == Next then pc == end else TargetOf(loops, o).Some? && pc == FindMark(code, TargetOf(loops, o).value, 0)
  }

  /** k steps from r at `at` lead to t, as the result says. A result that ran out of fuel means at least `fuel`
      steps, and control still inside. */
  ghost predicate Carries(env: Env, code: seq<Instr>, at: nat, end: nat, loops: Loops, locals: nat, r: Regs,
                          result: Result, fuel: nat, k: nat, t: State) {
    && Run(env, code, State(at, r), k) == t
    && match result
       case Timeout => fuel <= k && t.pc < end
       case Finished(o, trace, leak) => t.r.trace == trace && Grown(r.stack, t.r.stack, locals, leak) && Arrived(code, end, loops, o, t.pc)
  }

  /** First straight on to `mid`, then whatever happens from there. */
  lemma CarriesAfter(env: Env, code: seq<Instr>, at: nat, mid: nat, end: nat, loops: Loops, locals: nat, r: Regs,
                     leak: nat,
                     k: nat, m: State, result: Result, fuel: nat, spent: nat, j: nat, t: State)
    requires Run(env, code, State(at, r), k) == m && mid == m.pc && Grown(r.stack, m.r.stack, locals, leak)
    requires Carries(env, code, mid, end, loops, locals, m.r, result, spent, j, t) && fuel <= spent + k
    ensures Carries(env, code, at, end, loops, locals, r, Leaking(result, leak), fuel, k + j, t)
  {
    hide Run, Arrived;
    RunPlus(env, code, State(at, r), k, j);
    if result.Finished? {
      GrownTwice(r.stack, m.r.stack, t.r.stack, locals, leak, result.leak);
      hide Grown;
    }
  }

  /** Where a statement does not simply end, what comes after it does not matter. */
  lemma CarriesOut(env: Env, code: seq<Instr>, at: nat, mid: nat, end: nat, loops: Loops, locals: nat, r: Regs,
                   result: Result, fuel: nat, k: nat, t: State)
    requires Carries(env, code, at, mid, loops, locals, r, result, fuel, k, t) && mid <= end
    requires result.Timeout? || result.outcome != Next
    ensures Carries(env, code, at, end, loops, locals, r, result, fuel, k, t)
  {
    hide Run, Grown;
  }

  /** A few more steps that change no register. */
  lemma CarriesOn(env: Env, code: seq<Instr>, at: nat, mid: nat, end: nat, loops: Loops, locals: nat, r: Regs,
                  result: Result, fuel: nat, k: nat, t: State, j: nat)
    requires Carries(env, code, at, mid, loops, locals, r, result, fuel, k, t)
    requires result.Finished? && result.outcome == Next && Run(env, code, State(mid, t.r), j) == State(end, t.r)
    ensures Carries(env, code, at, end, loops, locals, r, result, fuel, k + j, State(end, t.r))
  {
    hide Run, Grown;
    RunPlus(env, code, State(at, r), k, j);
  }

  lemma GrownSame(before: seq<Byte>, locals: nat)
    requires locals <= |before|
    ensures Grown(before, before, locals, 0)
  {
  }

  lemma KeepsGrown(before: seq<Byte>, after: seq<Byte>, locals: nat)
    requires Keeps(before, after, locals)
    ensures Grown(before, after, locals, 0)
  {
  }
}
