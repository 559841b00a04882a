/** Which section of a switch over constants is entered, told from its labels alone. */
module LowerEntry {
  import opened Basics
  import opened LowerMachine
  import opened LowerStatement
  import opened LowerSimulation
  import opened LowerFunction

  /** The section that the value d leads to: the first one that lists it; if there is none the last default; if there is
      no default either, none. */
  ghost predicate Enters(ss: Sections, d: int, r: Option<nat>) {
    match r
    case Some(i) =>
      && i < Count(ss)
      && (|| (Lists(LabelAt(ss, i), d) && forall j :: 0 <= j < i ==> !Lists(LabelAt(ss, j), d))
          || (LabelAt(ss, i).Default? && (forall j :: 0 <= j < Count(ss) ==> !Lists(LabelAt(ss, j), d))
              && forall j :: i < j < Count(ss) ==> !LabelAt(ss, j).Default?))
    case None => forall j :: 0 <= j < Count(ss) ==> !Lists(LabelAt(ss, j), d) && !LabelAt(ss, j).Default?
  }

  /** The default that counts is the last one, wherever it stands. */
  lemma {:induction false} DefaultIsLast(ss: Sections, i: nat)
    ensures match LastDefault(ss, i)
      case Some(d) =>
        && i <= d < i + Count(ss) && LabelAt(ss, d - i).Default?
        && forall j :: d - i < j < Count(ss) ==> !LabelAt(ss, j).Default?
      case None => forall j :: 0 <= j < Count(ss) ==> !LabelAt(ss, j).Default?
  {
    if ss.Section? {
      DefaultIsLast(ss.rest, i + 1);
      forall j | 0 < j < Count(ss)
        ensures LabelAt(ss, j) == LabelAt(ss.rest, j - 1)
      {
      }
    }
  }

  ghost predicate ConstantLabels(s: Stmt)
    requires s.Switch?
  {
    forall j :: 0 <= j < Count(s.sections) ==> ConstantLabel(LabelAt(s.sections, j), s.kind, s.size)
  }

  /** The section chosen for the bytes v, by comparing or else by default. */
  function Entry(env: Env, s: Stmt, v: seq<Byte>, t: Trace): Option<nat>
    requires s.Switch?
  {
    var p := Pick(env, s.sections, 0, s.kind, s.size, v, t);
    if p.0.Some? then p.0 else LastDefault(s.sections, 0)
  }

  lemma EntryIs(env: Env, s: Stmt, v: seq<Byte>, t: Trace)
    requires s.Switch? && ConstantLabels(s)
    ensures Enters(s.sections, Decode(s.kind, v), Entry(env, s, v, t))
    ensures Pick(env, s.sections, 0, s.kind, s.size, v, t).1 == t
  {
    hide Pick, LastDefault, Decode, Lists, ConstantLabel;
    PickIsFirst(env, s.sections, 0, s.kind, s.size, v, t);
    DefaultIsLast(s.sections, 0);
  }

  /** A value leads to one section at most. */
  lemma EntryIsUnique(ss: Sections, d: int, a: Option<nat>, b: Option<nat>)
    requires Enters(ss, d, a) && Enters(ss, d, b)
    ensures a == b
  {
    hide Lists;
  }

  function SectionBody(ss: Sections, i: nat): Stmts
    requires i < Count(ss)
  {
    if i == 0 then ss.body else SectionBody(ss.rest, i - 1)
  }

  /** What the switch means: the sections from the one entered on, until control leaves it. */
  lemma SwitchMeans(env: Env, s: Stmt, pending: Option<string>, scope: Scope, t: Trace, fuel: nat) returns (i: Option<nat>)
    requires s.Switch? && s.sections.Section? && ConstantLabels(s)
    ensures Enters(s.sections, Decode(s.kind, Value(env, s.id, s.size, t)), i)
    ensures i.Some? ==> i.value < Count(s.sections)
    ensures Exec(env, s, pending, scope, t, fuel) ==
      if i.None? then Finished(Next, t + [s.id], 0)
      else LeaveSwitch(ExecFrom(env, s.sections, i.value, InSwitch(scope, pending), t + [s.id], fuel), pending, 2 * s.size)
  {
    hide *;
    var v := Value(env, s.id, s.size, t);
    i := Entry(env, s, v, t + [s.id]);
    EntryIs(env, s, v, t + [s.id]);
    ExecSwitch(env, s, pending, scope, t, fuel);
    EntryParts(env, s, v, t + [s.id]);
    EntersInside(s.sections, Decode(s.kind, v), i);
  }

  lemma EntryParts(env: Env, s: Stmt, v: seq<Byte>, t: Trace)
    requires s.Switch?
    ensures var p := Pick(env, s.sections, 0, s.kind, s.size, v, t);
      Entry(env, s, v, t) == if p.0.Some? then p.0 else LastDefault(s.sections, 0)
  {
    hide Pick, LastDefault;
  }

  lemma EntersInside(ss: Sections, d: int, i: Option<nat>)
    requires Enters(ss, d, i)
    ensures i.Some? ==> i.value < Count(ss)
  {
    hide Lists;
  }

  /** From the chosen section on, that section comes first and then, unless it leaves, the ones after it. */
  lemma {:induction false} FromSection(env: Env, ss: Sections, i: nat, scope: Scope, t: Trace, fuel: nat)
    requires i < Count(ss)
    ensures ExecFrom(env, ss, i, scope, t, fuel) ==
      match ExecAll(env, SectionBody(ss, i), scope, t, fuel)
      case Timeout => Timeout
      case Finished(o, t', leak) =>
        if o == Next then Leaking(ExecFrom(env, ss, i + 1, scope, t', fuel), leak) else Finished(o, t', leak)
    decreases ss
  {
    hide ExecAll;
    if i > 0 {
      forall t': Trace
        ensures ExecFrom(env, ss, i + 1, scope, t', fuel) == ExecFrom(env, ss.rest, i, scope, t', fuel)
      {
      }
      FromSection(env, ss.rest, i - 1, scope, t, fuel);
    } else {
      forall t': Trace
        ensures ExecFrom(env, ss, 1, scope, t', fuel) == ExecFrom(env, ss.rest, 0, scope, t', fuel)
      {
      }
    }
  }

  /** Where in the code section i begins: its label, its own body's code after it. */
  lemma {:induction false} SectionFound(code: seq<Instr>, at: nat, ss: Sections, loops: Loops, base: nat, n: nat, locals: nat,
                                        i: nat)
    returns (m: nat)
    requires SectionsSit(code, at, ss, loops, base, n, locals) && i < Count(ss)
    ensures var p := FindMark(code, Gen(base + i), 0);
      p < |code| && code[p] == Mark(Gen(base + i)) && AllSits(code, p + 1, SectionBody(ss, i), loops, m, locals)
    decreases ss
  {
    hide *;
    BodyIs(ss, i);
    SectionSits(code, at, ss, loops, base, n, locals);
    if i == 0 {
      m := n;
    } else {
      m := SectionFound(code, at + 1 + |AllCode(ss.body, loops, n, locals)|, ss.rest, loops, base + 1, n + AllLabels(ss.body),
                        locals, i - 1);
      assert base + 1 + (i - 1) == base + i;
    }
  }

  lemma BodyIs(ss: Sections, i: nat)
    requires i < Count(ss)
    ensures ss.Section? && SectionBody(ss, i) == if i == 0 then ss.body else SectionBody(ss.rest, i - 1)
    ensures Count(ss) == 1 + Count(ss.rest)
  {
  }

  /** The code of a switch leads to the body of the section its value enters, and to the clean-up if there is none;
      nothing but the value is evaluated on the way. */
  lemma SwitchEnters(env: Env, code: seq<Instr>, at: nat, s: Stmt, pending: Option<string>, loops: Loops, n: nat, locals: nat,
                     r: Regs)
    returns (k: nat, t: State, i: Option<nat>, m: nat)
    requires s.Switch? && s.sections.Section? && ConstantLabels(s)
    requires SwitchPlaces(code, at, s, pending, loops, n, locals) && locals <= |r.stack|
    ensures Run(env, code, State(at, r), k) == t && t.r.trace == r.trace + [s.id]
    ensures Enters(s.sections, Decode(s.kind, Value(env, s.id, s.size, r.trace)), i)
    ensures i.None? ==> t.pc == CleanAt(at, s, pending, loops, n, locals)
    ensures i.Some? ==>
      && i.value < Count(s.sections) && t.pc < |code| && code[t.pc].Mark?
      && AllSits(code, t.pc + 1, SectionBody(s.sections, i.value), Push(loops, pending, SwitchFrame(loops, n)), m, locals + 2 * s.size)
  {
    hide *;
    var v := Value(env, s.id, s.size, r.trace);
    k, t := SwitchSelects(env, code, at, s, pending, loops, n, locals, r);
    i := Entry(env, s, v, r.trace + [s.id]);
    EntryIs(env, s, v, r.trace + [s.id]);
    EntryParts(env, s, v, r.trace + [s.id]);
    EntersInside(s.sections, Decode(s.kind, v), i);
    SwitchEnds(code, at, s, pending, loops, n, locals);
    m := 0;
    if i.Some? {
      m := SectionFound(code, BodiesAt(at, s, n, locals), s.sections, Push(loops, pending, SwitchFrame(loops, n)), n + 2,
                        n + 2 + Count(s.sections) + SkipLabels(s.sections), locals + 2 * s.size, i.value);
    }
  }
}
