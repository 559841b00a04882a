/** Which jumps leave a switch's temporaries on the stack, told from the source alone. */
module LowerLeak {
  import opened Basics
  import opened LowerMachine
  import opened LowerCondition
  import opened LowerStatement

  /** A place in a non-empty switch: the switch's name, the names of the loops within it that surround the place, and
      whether there is such a loop. */
  datatype Inside = Inside(switchName: Option<string>, loops: set<string>, inLoop: bool)

  function IntoLoop(inside: Option<Inside>, pending: Option<string>): Option<Inside> {
    if inside.None? then None
    else Some(Inside(inside.value.switchName,
                     if pending.Some? then inside.value.loops + {pending.value} else inside.value.loops, true))
  }

  /** No jump leaves a non-empty switch but by breaking out of that switch: no return in one, no continue and no named
      jump to anything around it. Names that are unknown, where the statement does nothing, do not matter. */
  predicate Contained(s: Stmt, pending: Option<string>, scope: Scope, inside: Option<Inside>)
    decreases s, 1
  {
    match s
    case Effects(_) => true
    case If(_, yes, no) => AllContained(yes, scope, inside) && AllContained(no, scope, inside)
    case Loop(_, _, body) => AllContained(body, InLoop(scope, pending), IntoLoop(inside, pending))
    case Switch(_, _, _, sections) =>
      SectionsContained(sections, InSwitch(scope, pending), Some(Inside(pending, {}, false)))
    case Break(name) => inside.None? || BreakOutcome(scope, name) == Next || BreaksInside(name, inside.value)
    case Continue(name) => inside.None? || ContinueOutcome(scope, name) == Next || ContinuesInside(name, inside.value)
    case Return(_) => inside.None?
    case Block(body) => AllContained(body, scope, inside)
    case Labelled(name, inner) => Contained(inner, if Takes(inner) then Some(name) else None, scope, inside)
  }

  predicate AllContained(ss: Stmts, scope: Scope, inside: Option<Inside>)
    decreases ss, 1
  {
    match ss
    case Nothing => true
    case Then(s, rest) => Contained(s, None, scope, inside) && AllContained(rest, scope, inside)
  }

  predicate SectionsContained(ss: Sections, scope: Scope, inside: Option<Inside>)
    decreases ss, 1
  {
    match ss
    case NoMore => true
    case Section(_, body, rest) => AllContained(body, scope, inside) && SectionsContained(rest, scope, inside)
  }

  predicate BreaksInside(name: Option<string>, i: Inside) {
    name.None? || name == i.switchName || name.value in i.loops
  }

  predicate ContinuesInside(name: Option<string>, i: Inside) {
    if name.None? then i.inLoop else name.value in i.loops
  }

  /** Outcomes that get no further than the switch. */
  predicate StaysInside(o: Outcome, i: Inside) {
    match o
    case Next => true
    case Broke(name) => BreaksInside(name, i)
    case Continued(name) => ContinuesInside(name, i)
    case Returned => false
  }

  /** Nothing has leaked, and within a switch control stays in it. */
  predicate Tidy(r: Result, inside: Option<Inside>) {
    r.Finished? ==> r.leak == 0 && (inside.Some? ==> StaysInside(r.outcome, inside.value))
  }

  /** What is contained leaks nothing, whatever its expressions are worth. */
  lemma {:induction false} ContainedIsTidy(env: Env, s: Stmt, pending: Option<string>, scope: Scope,
                                           inside: Option<Inside>, t: Trace, fuel: nat)
    requires Contained(s, pending, scope, inside)
    ensures Tidy(Exec(env, s, pending, scope, t, fuel), inside)
    decreases fuel, s, 1
  {
    hide Truth, Pick, Value;
    match s {
      case If(c, yes, no) =>
        var (b, t') := Truth(env, c, t);
        AllTidy(env, if b then yes else no, scope, inside, t', fuel);
      case Loop(init, shape, body) => LoopTidy(env, shape, body, pending, scope, inside, t + init, fuel);
      case Switch(id, size, kind, sections) =>
        if sections.Section? {
          var (entry, t') := Pick(env, sections, 0, kind, size, Value(env, id, size, t), t + [id]);
          var i := if entry.Some? then entry else LastDefault(sections, 0);
          if i.Some? {
            FromTidy(env, sections, i.value, InSwitch(scope, pending), Some(Inside(pending, {}, false)), t', fuel);
          }
        }
      case Block(body) => AllTidy(env, body, scope, inside, t, fuel);
      case Labelled(name, inner) => ContainedIsTidy(env, inner, if Takes(inner) then Some(name) else None, scope, inside, t, fuel);
      case _ =>
    }
  }

  lemma {:induction false} AllTidy(env: Env, ss: Stmts, scope: Scope, inside: Option<Inside>, t: Trace, fuel: nat)
    requires AllContained(ss, scope, inside)
    ensures Tidy(ExecAll(env, ss, scope, t, fuel), inside)
    decreases fuel, ss, 1
  {
    if ss.Then? {
      ContainedIsTidy(env, ss.first, None, scope, inside, t, fuel);
      var r := Exec(env, ss.first, None, scope, t, fuel);
      if r.Finished? && r.outcome == Next {
        AllTidy(env, ss.rest, scope, inside, r.trace, fuel);
      }
    }
  }

  lemma {:induction false} FromTidy(env: Env, ss: Sections, i: nat, scope: Scope, inside: Option<Inside>, t: Trace, fuel: nat)
    requires SectionsContained(ss, scope, inside)
    ensures Tidy(ExecFrom(env, ss, i, scope, t, fuel), inside)
    decreases fuel, ss, 1
  {
    if ss.Section? {
      if i > 0 {
        FromTidy(env, ss.rest, i - 1, scope, inside, t, fuel);
      } else {
        AllTidy(env, ss.body, scope, inside, t, fuel);
        var r := ExecAll(env, ss.body, scope, t, fuel);
        if r.Finished? && r.outcome == Next {
          FromTidy(env, ss.rest, 0, scope, inside, r.trace, fuel);
        }
      }
    }
  }

  lemma {:induction false} LoopTidy(env: Env, shape: Shape, body: Stmts, pending: Option<string>, scope: Scope,
                                    inside: Option<Inside>, t: Trace, fuel: nat)
    requires AllContained(body, InLoop(scope, pending), IntoLoop(inside, pending))
    ensures Tidy(ExecLoop(env, shape, body, pending, scope, t, fuel), inside)
    decreases fuel, body, 3
  {
    if fuel > 0 {
      var (b, t1) := TestBefore(env, shape, t);
      if b {
        AllTidy(env, body, InLoop(scope, pending), IntoLoop(inside, pending), t1, fuel - 1);
        var r := ExecAll(env, body, InLoop(scope, pending), t1, fuel - 1);
        if r.Finished? {
          RoundTidy(env, shape, body, pending, scope, inside, r.outcome, r.trace, fuel);
        }
      }
    }
  }

  lemma {:induction false} RoundTidy(env: Env, shape: Shape, body: Stmts, pending: Option<string>, scope: Scope,
                                     inside: Option<Inside>, o: Outcome, t: Trace, fuel: nat)
    requires fuel > 0 && AllContained(body, InLoop(scope, pending), IntoLoop(inside, pending))
    requires inside.Some? ==> StaysInside(o, IntoLoop(inside, pending).value)
    ensures Tidy(NextRound(env, shape, body, pending, scope, o, t, fuel), inside)
    decreases fuel, body, 2
  {
    if !Leaves(o, pending) && Again(o, pending) {
      var (b, t') := TestAfter(env, shape, t);
      if b { LoopTidy(env, shape, body, pending, scope, inside, t', fuel - 1); }
    }
  }

  /** How the sections of a switch end, once one is chosen. */
  function SectionsResult(env: Env, s: Stmt, pending: Option<string>, scope: Scope, t: Trace, fuel: nat): Option<Result>
    requires s.Switch?
  {
    var (entry, t') := Pick(env, s.sections, 0, s.kind, s.size, Value(env, s.id, s.size, t), t + [s.id]);
    var i := if entry.Some? then entry else LastDefault(s.sections, 0);
    if s.sections.NoMore? || i.None? then None
    else Some(ExecFrom(env, s.sections, i.value, InSwitch(scope, pending), t', fuel))
  }

  /** A switch leaks its temporaries exactly when a jump carries control out of it other than by breaking out of it. */
  lemma SwitchLeaks(env: Env, s: Stmt, pending: Option<string>, scope: Scope, t: Trace, fuel: nat)
    requires s.Switch? && Exec(env, s, pending, scope, t, fuel).Finished?
    ensures var r := SectionsResult(env, s, pending, scope, t, fuel);
      Exec(env, s, pending, scope, t, fuel).leak ==
        if r.None? then 0
        else r.value.leak + (if StaysInside(r.value.outcome, Inside(pending, {}, false)) then 0 else 2 * s.size)
  {
    hide Pick, Value, ExecFrom;
  }

  // ----- the jumps a run executes -----

  /** The value of a non-empty switch has at least one byte. */
  predicate Sized(s: Stmt)
    decreases s, 1
  {
    match s
    case If(_, yes, no) => AllSized(yes) && AllSized(no)
    case Loop(_, _, body) => AllSized(body)
    case Switch(_, size, _, sections) => (sections.NoMore? || size > 0) && SectionsSized(sections)
    case Block(body) => AllSized(body)
    case Labelled(_, inner) => Sized(inner)
    case _ => true
  }

  predicate AllSized(ss: Stmts)
    decreases ss, 1
  {
    match ss
    case Nothing => true
    case Then(s, rest) => Sized(s) && AllSized(rest)
  }

  predicate SectionsSized(ss: Sections)
    decreases ss, 1
  {
    match ss
    case NoMore => true
    case Section(_, body, rest) => AllSized(body) && SectionsSized(rest)
  }

  /** The run executes a break, continue or return that is not contained where it stands. */
  predicate Escapes(env: Env, s: Stmt, pending: Option<string>, scope: Scope, inside: Option<Inside>, t: Trace, fuel: nat)
    decreases fuel, s, 1
  {
    match s
    case Effects(_) => false
    case If(c, yes, no) =>
      var (b, t') := Truth(env, c, t);
      AllEscapes(env, if b then yes else no, scope, inside, t', fuel)
    case Loop(init, shape, body) => LoopEscapes(env, shape, body, pending, scope, inside, t + init, fuel)
    case Switch(id, size, kind, sections) =>
      if sections.NoMore? then false
      else
        var (entry, t') := Pick(env, sections, 0, kind, size, Value(env, id, size, t), t + [id]);
        var i := if entry.Some? then entry else LastDefault(sections, 0);
        i.Some? && FromEscapes(env, sections, i.value, InSwitch(scope, pending), Some(Inside(pending, {}, false)), t', fuel)
    case Block(body) => AllEscapes(env, body, scope, inside, t, fuel)
    case Labelled(name, inner) => Escapes(env, inner, if Takes(inner) then Some(name) else None, scope, inside, t, fuel)
    case _ => !Contained(s, None, scope, inside)
  }

  predicate AllEscapes(env: Env, ss: Stmts, scope: Scope, inside: Option<Inside>, t: Trace, fuel: nat)
    decreases fuel, ss, 1
  {
    match ss
    case Nothing => false
    case Then(s, rest) =>
      || Escapes(env, s, None, scope, inside, t, fuel)
      || (var r := Exec(env, s, None, scope, t, fuel);
          r.Finished? && r.outcome == Next && AllEscapes(env, rest, scope, inside, r.trace, fuel))
  }

  predicate FromEscapes(env: Env, ss: Sections, i: nat, scope: Scope, inside: Option<Inside>, t: Trace, fuel: nat)
    decreases fuel, ss, 1
  {
    match ss
    case NoMore => false
    case Section(_, body, rest) =>
      if i > 0 then FromEscapes(env, rest, i - 1, scope, inside, t, fuel)
      else
        || AllEscapes(env, body, scope, inside, t, fuel)
        || (var r := ExecAll(env, body, scope, t, fuel);
            r.Finished? && r.outcome == Next && FromEscapes(env, rest, 0, scope, inside, r.trace, fuel))
  }

  predicate LoopEscapes(env: Env, shape: Shape, body: Stmts, pending: Option<string>, scope: Scope,
                        inside: Option<Inside>, t: Trace, fuel: nat)
    decreases fuel, body, 3
  {
    if fuel == 0 then false
    else
      var (b, t1) := TestBefore(env, shape, t);
      && b
      && (|| AllEscapes(env, body, InLoop(scope, pending), IntoLoop(inside, pending), t1, fuel - 1)
          || (var r := ExecAll(env, body, InLoop(scope, pending), t1, fuel - 1);
              r.Finished? && RoundEscapes(env, shape, body, pending, scope, inside, r.outcome, r.trace, fuel)))
  }

  predicate RoundEscapes(env: Env, shape: Shape, body: Stmts, pending: Option<string>, scope: Scope,
                         inside: Option<Inside>, o: Outcome, t: Trace, fuel: nat)
    requires fuel > 0
    decreases fuel, body, 2
  {
    if Leaves(o, pending) || !Again(o, pending) then false
    else
      var (b, t') := TestAfter(env, shape, t);
      b && LoopEscapes(env, shape, body, pending, scope, inside, t', fuel - 1)
  }

  /** A finished run has leaked, or is about to leave the switch around it otherwise than by breaking out of it. */
  predicate Untidy(r: Result, inside: Option<Inside>)
    requires r.Finished?
  {
    r.leak > 0 || (inside.Some? && !StaysInside(r.outcome, inside.value))
  }

  /** A run leaks exactly when it executes a jump that is not contained, wherever that stands. */
  lemma {:induction false} LeaksIffEscapes(env: Env, s: Stmt, pending: Option<string>, scope: Scope,
                                           inside: Option<Inside>, t: Trace, fuel: nat)
    requires Sized(s) && Exec(env, s, pending, scope, t, fuel).Finished?
    ensures Untidy(Exec(env, s, pending, scope, t, fuel), inside) <==> Escapes(env, s, pending, scope, inside, t, fuel)
    decreases fuel, s, 1
  {
    hide Truth, Pick, Value;
    match s {
      case If(c, yes, no) =>
        var (b, t') := Truth(env, c, t);
        AllLeakIff(env, if b then yes else no, scope, inside, t', fuel);
      case Loop(init, shape, body) => LoopLeaksIff(env, shape, body, pending, scope, inside, t + init, fuel);
      case Switch(id, size, kind, sections) =>
        if sections.Section? {
          var (entry, t') := Pick(env, sections, 0, kind, size, Value(env, id, size, t), t + [id]);
          var i := if entry.Some? then entry else LastDefault(sections, 0);
          if i.Some? {
            FromLeaksIff(env, sections, i.value, InSwitch(scope, pending), Some(Inside(pending, {}, false)), t', fuel);
          }
        }
      case Block(body) => AllLeakIff(env, body, scope, inside, t, fuel);
      case Labelled(name, inner) => LeaksIffEscapes(env, inner, if Takes(inner) then Some(name) else None, scope, inside, t, fuel);
      case _ =>
    }
  }

  lemma {:induction false} AllLeakIff(env: Env, ss: Stmts, scope: Scope, inside: Option<Inside>, t: Trace, fuel: nat)
    requires AllSized(ss) && ExecAll(env, ss, scope, t, fuel).Finished?
    ensures Untidy(ExecAll(env, ss, scope, t, fuel), inside) <==> AllEscapes(env, ss, scope, inside, t, fuel)
    decreases fuel, ss, 1
  {
    if ss.Then? {
      LeaksIffEscapes(env, ss.first, None, scope, inside, t, fuel);
      var r := Exec(env, ss.first, None, scope, t, fuel);
      if r.outcome == Next {
        AllLeakIff(env, ss.rest, scope, inside, r.trace, fuel);
      }
    }
  }

  lemma {:induction false} FromLeaksIff(env: Env, ss: Sections, i: nat, scope: Scope, inside: Option<Inside>, t: Trace, fuel: nat)
    requires SectionsSized(ss) && ExecFrom(env, ss, i, scope, t, fuel).Finished?
    ensures Untidy(ExecFrom(env, ss, i, scope, t, fuel), inside) <==> FromEscapes(env, ss, i, scope, inside, t, fuel)
    decreases fuel, ss, 1
  {
    if ss.Section? {
      if i > 0 {
        FromLeaksIff(env, ss.rest, i - 1, scope, inside, t, fuel);
      } else {
        AllLeakIff(env, ss.body, scope, inside, t, fuel);
        var r := ExecAll(env, ss.body, scope, t, fuel);
        if r.outcome == Next {
          FromLeaksIff(env, ss.rest, 0, scope, inside, r.trace, fuel);
        }
      }
    }
  }

  lemma {:induction false} LoopLeaksIff(env: Env, shape: Shape, body: Stmts, pending: Option<string>, scope: Scope,
                                        inside: Option<Inside>, t: Trace, fuel: nat)
    requires AllSized(body) && ExecLoop(env, shape, body, pending, scope, t, fuel).Finished?
    ensures Untidy(ExecLoop(env, shape, body, pending, scope, t, fuel), inside)
      <==> LoopEscapes(env, shape, body, pending, scope, inside, t, fuel)
    decreases fuel, body, 3
  {
    var (b, t1) := TestBefore(env, shape, t);
    if b {
      AllLeakIff(env, body, InLoop(scope, pending), IntoLoop(inside, pending), t1, fuel - 1);
      var r := ExecAll(env, body, InLoop(scope, pending), t1, fuel - 1);
      RoundLeaksIff(env, shape, body, pending, scope, inside, r.outcome, r.trace, fuel);
    }
  }

  lemma {:induction false} RoundLeaksIff(env: Env, shape: Shape, body: Stmts, pending: Option<string>, scope: Scope,
                                         inside: Option<Inside>, o: Outcome, t: Trace, fuel: nat)
    requires fuel > 0 && AllSized(body) && NextRound(env, shape, body, pending, scope, o, t, fuel).Finished?
    ensures Untidy(NextRound(env, shape, body, pending, scope, o, t, fuel), inside)
      <==> (inside.Some? && !StaysInside(o, IntoLoop(inside, pending).value))
           || RoundEscapes(env, shape, body, pending, scope, inside, o, t, fuel)
    decreases fuel, body, 2
  {
    if !Leaves(o, pending) && Again(o, pending) {
      var (b, t') := TestAfter(env, shape, t);
      if b { LoopLeaksIff(env, shape, body, pending, scope, inside, t', fuel - 1); }
    }
  }
}
