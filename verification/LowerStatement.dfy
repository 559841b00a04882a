/** Structured statements: what they mean, and the jumps and labels they are lowered to. */
module LowerStatement {
  import opened Basics
  import opened LowerMachine
  import opened LowerCondition

  datatype Operand = Constant(value: int) | RunTime(id: nat)

  datatype CaseLabel = Default | One(value: Operand) | Range(low: Operand, high: Operand)

  /** for(;;) loops may have no condition, which then counts as true. */
  datatype Shape = WhileDo(test: Cond) | ForDo(test: Cond, step: Option<nat>) | DoWhile(test: Cond)

  datatype Stmt =
    | Effects(ids: seq<nat>)
    | If(test: Cond, yes: Stmts, no: Stmts)
    | Loop(init: seq<nat>, shape: Shape, body: Stmts)
    | Switch(id: nat, size: nat, kind: Kind, sections: Sections)
    | Break(name: Option<string>)
    | Continue(name: Option<string>)
    | Return(result: Option<nat>)
    | Block(body: Stmts)
    | Labelled(mark: string, inner: Stmt)

  datatype Stmts = Nothing | Then(first: Stmt, rest: Stmts)

  datatype Sections = NoMore | Section(label_: CaseLabel, body: Stmts, rest: Sections)

  // ----- constants -----

  function Digits(v: int, n: nat): (bs: seq<Byte>)
    ensures |bs| == n
    decreases n
  {
    if n == 0 then [] else [v % 256] + Digits(v / 256, n - 1)
  }

  function Encode(kind: Kind, v: int, n: nat): (bs: seq<Byte>)
    ensures |bs| == n
  {
    if kind.big then Reverse(Digits(v, n)) else Digits(v, n)
  }

  // ----- meaning -----

  datatype Outcome = Next | Broke(name: Option<string>) | Continued(name: Option<string>) | Returned

  /** Leak: bytes that jumps out of switches left on the stack. */
  datatype Result = Timeout | Finished(outcome: Outcome, trace: Trace, leak: nat)

  /** A loop or switch name in scope, and whether `continue` to it is possible. */
  datatype Known = Known(name: string, again: bool)

  /** Also whether a plain continue, and a plain break, are possible. */
  datatype Scope = Scope(names: seq<Known>, again: bool, inside: bool)

  function Find(names: seq<Known>, x: string): Option<Known> {
    if names == [] then None
    else if names[|names| - 1].name == x then Some(names[|names| - 1])
    else Find(names[..|names| - 1], x)
  }

  /** Inside a loop named by `pending`. */
  function InLoop(scope: Scope, pending: Option<string>): Scope {
    Scope(if pending.Some? then scope.names + [Known(pending.value, true)] else scope.names, true, true)
  }

  /** Inside a switch; continuing it continues the loop around it, if there is one. */
  function InSwitch(scope: Scope, pending: Option<string>): Scope {
    Scope(if pending.Some? then scope.names + [Known(pending.value, scope.again)] else scope.names, scope.again, true)
  }

  function Leaking(r: Result, more: nat): Result {
    if r.Finished? then r.(leak := r.leak + more) else r
  }

  predicate Takes(s: Stmt) {
    s.Loop? || s.Switch?
  }

  /** A break or continue to an unknown name does nothing. */
  function BreakOutcome(scope: Scope, name: Option<string>): Outcome {
    if name.Some? && Find(scope.names, name.value).None? then Next else Broke(name)
  }

  function ContinueOutcome(scope: Scope, name: Option<string>): Outcome {
    if name.Some? && (Find(scope.names, name.value).None? || !Find(scope.names, name.value).value.again) then Next
    else Continued(name)
  }

  function Exec(env: Env, s: Stmt, pending: Option<string>, scope: Scope, t: Trace, fuel: nat): Result
    decreases fuel, s, 1
  {
    match s
    case Effects(ids) => Finished(Next, t + ids, 0)
    case If(c, yes, no) =>
      var (b, t') := Truth(env, c, t);
      ExecAll(env, if b then yes else no, scope, t', fuel)
    case Loop(init, shape, body) => ExecLoop(env, shape, body, pending, scope, t + init, fuel)
    case Switch(id, size, kind, sections) =>
      if sections.NoMore? then Finished(Next, t, 0)
      else
        var v := Value(env, id, size, t);
        var (entry, t') := Pick(env, sections, 0, kind, size, v, t + [id]);
        var i := if entry.Some? then entry else LastDefault(sections, 0);
        if i.None? then Finished(Next, t', 0)
        else LeaveSwitch(ExecFrom(env, sections, i.value, InSwitch(scope, pending), t', fuel), pending, 2 * size)
    case Break(name) => Finished(BreakOutcome(scope, name), t, 0)
    case Continue(name) => Finished(ContinueOutcome(scope, name), t, 0)
    case Return(result) => Finished(Returned, if result.Some? then t + [result.value] else t, 0)
    case Block(body) => ExecAll(env, body, scope, t, fuel)
    case Labelled(name, inner) => Exec(env, inner, if Takes(inner) then Some(name) else None, scope, t, fuel)
  }

  function ExecAll(env: Env, ss: Stmts, scope: Scope, t: Trace, fuel: nat): Result
    decreases fuel, ss, 1
  {
    match ss
    case Nothing => Finished(Next, t, 0)
    case Then(s, rest) =>
      match Exec(env, s, None, scope, t, fuel)
      case Timeout => Timeout
      case Finished(o, t', leak) => if o == Next then Leaking(ExecAll(env, rest, scope, t', fuel), leak) else Finished(o, t', leak)
  }

  /** The test before an iteration: none for do-while. */
  function TestBefore(env: Env, shape: Shape, t: Trace): (bool, Trace) {
    match shape
    case WhileDo(c) => Truth(env, c, t)
    case ForDo(c, _) => if c.Absent? then (true, t) else Truth(env, c, t)
    case DoWhile(_) => (true, t)
  }

  /** What follows the body: the step of a for, the test of a do-while. */
  function TestAfter(env: Env, shape: Shape, t: Trace): (bool, Trace) {
    match shape
    case WhileDo(_) => (true, t)
    case ForDo(_, step) => (true, if step.Some? then t + [step.value] else t)
    case DoWhile(c) => Truth(env, c, t)
  }

  predicate Again(o: Outcome, pending: Option<string>) {
    o == Next || (o.Continued? && (o.name.None? || o.name == pending))
  }

  predicate Leaves(o: Outcome, pending: Option<string>) {
    o.Broke? && (o.name.None? || o.name == pending)
  }

  /** Each iteration costs one unit of fuel. */
  function ExecLoop(env: Env, shape: Shape, body: Stmts, pending: Option<string>, scope: Scope, t: Trace,
                    fuel: nat): Result
    decreases fuel, body, 3
  {
    if fuel == 0 then Timeout
    else
      var (b, t1) := TestBefore(env, shape, t);
      if !b then Finished(Next, t1, 0)
      else
        match ExecAll(env, body, InLoop(scope, pending), t1, fuel - 1)
        case Timeout => Timeout
        case Finished(o, t2, leak) => Leaking(NextRound(env, shape, body, pending, scope, o, t2, fuel), leak)
  }

  /** After the body ended with o: out of the loop, or round again. */
  function NextRound(env: Env, shape: Shape, body: Stmts, pending: Option<string>, scope: Scope, o: Outcome, t: Trace,
                     fuel: nat): Result
    requires fuel > 0
    decreases fuel, body, 2
  {
    if Leaves(o, pending) then Finished(Next, t, 0)
    else if !Again(o, pending) then Finished(o, t, 0)
    else
      var (b, t') := TestAfter(env, shape, t);
      if !b then Finished(Next, t', 0)
      else ExecLoop(env, shape, body, pending, scope, t', fuel - 1)
  }

  function OperandBytes(env: Env, v: Operand, kind: Kind, size: nat, t: Trace): (r: (seq<Byte>, Trace))
    ensures |r.0| == size
  {
    match v
    case Constant(c) => (Encode(kind, c, size), t)
    case RunTime(id) => (Value(env, id, size, t), t + [id])
  }

  /** Constant bounds written the wrong way round are exchanged. */
  function Ordered(low: Operand, high: Operand): (Operand, Operand) {
    if low.Constant? && high.Constant? && low.value > high.value then (high, low) else (low, high)
  }

  function Matches(env: Env, l: CaseLabel, kind: Kind, size: nat, v: seq<Byte>, t: Trace): (bool, Trace) {
    match l
    case Default => (false, t)
    case One(c) =>
      var (bs, t') := OperandBytes(env, c, kind, size, t);
      (Decode(kind, v) == Decode(kind, bs), t')
    case Range(a, b) =>
      var (low, high) := Ordered(a, b);
      var (bs, t') := OperandBytes(env, low, kind, size, t);
      if Decode(kind, bs) > Decode(kind, v) then (false, t')
      else
        var (cs, t'') := OperandBytes(env, high, kind, size, t');
        (Decode(kind, v) <= Decode(kind, cs), t'')
  }

  /** The first section, counting from i, whose label matches. */
  function Pick(env: Env, ss: Sections, i: nat, kind: Kind, size: nat, v: seq<Byte>, t: Trace): (Option<nat>, Trace) {
    match ss
    case NoMore => (None, t)
    case Section(l, _, rest) =>
      var (b, t') := Matches(env, l, kind, size, v, t);
      if b then (Some(i), t') else Pick(env, rest, i + 1, kind, size, v, t')
  }

  /** The last default section, counting from i. */
  function LastDefault(ss: Sections, i: nat): Option<nat> {
    match ss
    case NoMore => None
    case Section(l, _, rest) =>
      var later := LastDefault(rest, i + 1);
      if later.Some? then later else if l.Default? then Some(i) else None
  }

  /** The bodies from the i-th section on, falling through. */
  function ExecFrom(env: Env, ss: Sections, i: nat, scope: Scope, t: Trace, fuel: nat): Result
    decreases fuel, ss, 1
  {
    match ss
    case NoMore => Finished(Next, t, 0)
    case Section(_, body, rest) =>
      if i > 0 then ExecFrom(env, rest, i - 1, scope, t, fuel)
      else
        match ExecAll(env, body, scope, t, fuel)
        case Timeout => Timeout
        case Finished(o, t', leak) => if o == Next then Leaking(ExecFrom(env, rest, 0, scope, t', fuel), leak) else Finished(o, t', leak)
  }

  /** A break ends the switch; what passes through it leaves its temporaries behind. */
  function LeaveSwitch(r: Result, pending: Option<string>, room: nat): Result {
    if r.Timeout? || r.outcome == Next then r
    else if Leaves(r.outcome, pending) then r.(outcome := Next)
    else if r.outcome.Continued? && r.outcome.name.Some? && r.outcome.name == pending
    then r.(outcome := Continued(None), leak := r.leak + room)
    else r.(leak := r.leak + room)
  }

  // ----- code -----

  datatype Frame = Frame(brk: Label, again: Option<Label>)

  datatype NamedFrame = NamedFrame(name: string, frame: Frame)

  /** The stacks of break and continue labels, innermost last. */
  datatype Loops = Loops(frames: seq<Frame>, named: seq<NamedFrame>)

  function CurrentContinue(loops: Loops): Option<Label> {
    if loops.frames == [] then None else loops.frames[|loops.frames| - 1].again
  }

  function FindNamed(named: seq<NamedFrame>, x: string): Option<Frame> {
    if named == [] then None
    else if named[|named| - 1].name == x then Some(named[|named| - 1].frame)
    else FindNamed(named[..|named| - 1], x)
  }

  function Push(loops: Loops, pending: Option<string>, f: Frame): Loops {
    Loops(loops.frames + [f], if pending.Some? then loops.named + [NamedFrame(pending.value, f)] else loops.named)
  }

  function JumpTo(x: Option<Label>): seq<Instr> {
    if x.Some? then [Jmp(x.value)] else []
  }

  function BreakLabel(loops: Loops, name: Option<string>): Option<Label> {
    if name.None? then (if loops.frames == [] then None else Some(loops.frames[|loops.frames| - 1].brk))
    else
      var f := FindNamed(loops.named, name.value);
      if f.Some? then Some(f.value.brk) else None
  }

  function ContinueLabel(loops: Loops, name: Option<string>): Option<Label> {
    if name.None? then CurrentContinue(loops)
    else
      var f := FindNamed(loops.named, name.value);
      if f.Some? then f.value.again else None
  }

  function EffectsCode(ids: seq<nat>): seq<Instr> {
    seq(|ids|, i requires 0 <= i < |ids| => Effect(ids[i]))
  }

  function StmtLabels(s: Stmt): nat {
    match s
    case If(c, yes, no) => 2 + CondLabels(c) + AllLabels(yes) + AllLabels(no)
    case Loop(_, shape, body) => LoopOwn(shape) + CondLabels(shape.test) + AllLabels(body)
    case Switch(_, _, _, sections) =>
      if sections.NoMore? then 0 else 2 + Count(sections) + SkipLabels(sections) + BodyLabels(sections)
    case Block(body) => AllLabels(body)
    case Labelled(_, inner) => StmtLabels(inner)
    case _ => 0
  }

  function AllLabels(ss: Stmts): nat {
    match ss
    case Nothing => 0
    case Then(s, rest) => StmtLabels(s) + AllLabels(rest)
  }

  function LoopOwn(shape: Shape): nat {
    if shape.WhileDo? then 2 else 3
  }

  function Count(ss: Sections): nat {
    if ss.NoMore? then 0 else 1 + Count(ss.rest)
  }

  function SkipLabels(ss: Sections): nat {
    if ss.NoMore? then 0 else (if ss.label_.Range? then 1 else 0) + SkipLabels(ss.rest)
  }

  function BodyLabels(ss: Sections): nat {
    if ss.NoMore? then 0 else AllLabels(ss.body) + BodyLabels(ss.rest)
  }

  function StmtCode(s: Stmt, pending: Option<string>, loops: Loops, n: nat, locals: nat): seq<Instr>
    decreases s, 1
  {
    match s
    case Effects(ids) => EffectsCode(ids)
    case If(c, yes, no) => IfCode(s, loops, n, locals)
    case Loop(init, shape, body) => EffectsCode(init) + LoopCode(shape, body, pending, loops, n, locals)
    case Switch(_, _, _, sections) => if sections.NoMore? then [] else SwitchCode(s, pending, loops, n, locals)
    case Break(name) => JumpTo(BreakLabel(loops, name))
    case Continue(name) => JumpTo(ContinueLabel(loops, name))
    case Return(result) => EffectsCode(if result.Some? then [result.value] else []) + [Jmp(Fini)]
    case Block(body) => AllCode(body, loops, n, locals)
    case Labelled(name, inner) => [Mark(User(name))] + StmtCode(inner, if Takes(inner) then Some(name) else None, loops, n, locals)
  }

  function AllCode(ss: Stmts, loops: Loops, n: nat, locals: nat): seq<Instr>
    decreases ss, 1
  {
    match ss
    case Nothing => []
    case Then(s, rest) => StmtCode(s, None, loops, n, locals) + AllCode(rest, loops, n + StmtLabels(s), locals)
  }

  /** Labels: false n, end n + 1. Without an else part there is no jump over it. */
  function IfCode(s: Stmt, loops: Loops, n: nat, locals: nat): seq<Instr>
    requires s.If?
    decreases s, 0
  {
    var m := n + 2 + CondLabels(s.test);
    var head := CondCode(s.test, Gen(n), n + 2, locals) + AllCode(s.yes, loops, m, locals);
    if s.no.Nothing? then head + [Mark(Gen(n))]
    else head + ([Jmp(Gen(n + 1)), Mark(Gen(n))] + (AllCode(s.no, loops, m + AllLabels(s.yes),
                                                            locals) + [Mark(Gen(n + 1))]))
  }

  function EndLabel(shape: Shape, n: nat): Label {
    Gen(n + LoopOwn(shape) - 1)
  }

  function AgainLabel(shape: Shape, n: nat): Label {
    if shape.WhileDo? then Gen(n) else Gen(n + 1)
  }

  function LoopFrame(shape: Shape, n: nat): Frame {
    Frame(EndLabel(shape, n), Some(AgainLabel(shape, n)))
  }

  function HeadCode(shape: Shape, n: nat, locals: nat): seq<Instr> {
    match shape
    case WhileDo(c) => CondCode(c, EndLabel(shape, n), n + 2, locals)
    case ForDo(c, _) => if c.Absent? then [] else CondCode(c, EndLabel(shape, n), n + 3, locals)
    case DoWhile(_) => []
  }

  /** The part after the body: a do-while's test is numbered after the body. */
  function TailCode(shape: Shape, n: nat, m: nat, locals: nat): seq<Instr> {
    match shape
    case WhileDo(_) => []
    case ForDo(_, step) => [Mark(Gen(n + 1))] + EffectsCode(if step.Some? then [step.value] else [])
    case DoWhile(c) => [Mark(Gen(n + 1))] + CondCode(c, EndLabel(shape, n), m, locals)
  }

  function BodyStart(shape: Shape, n: nat): nat {
    n + LoopOwn(shape) + (if shape.DoWhile? then 0 else CondLabels(shape.test))
  }

  function LoopCode(shape: Shape, body: Stmts, pending: Option<string>, loops: Loops, n: nat, locals: nat): seq<Instr>
    decreases body, 2
  {
    var m := BodyStart(shape, n);
    [Mark(Gen(n))] + (HeadCode(shape, n, locals) + (AllCode(body, Push(loops, pending, LoopFrame(shape, n)), m, locals)
      + (TailCode(shape, n, m + AllLabels(body), locals) + [Jmp(Gen(n)), Mark(EndLabel(shape, n))])))
  }

  // ----- switch: cleanup n, end n + 1, cases from n + 2, then the skip labels of ranges -----

  function OperandCode(v: Operand, kind: Kind, size: nat, offset: nat): Instr {
    match v
    case Constant(c) => StoreTo(offset, Encode(kind, c, size))
    case RunTime(id) => EvalTo(id, offset, size)
  }

  /** Compares the value at `locals` with the operand after it, in one order or the other. */
  function TestOperand(v: Operand, h: Helper, operandFirst: bool, kind: Kind, size: nat, locals: nat): seq<Instr> {
    var a, b := locals, locals + size;
    [OperandCode(v, kind, size, b)] + [Ptr(false, if operandFirst then b else a), Ptr(true, if operandFirst then a else b), Call(h, size)] + [LdaArg1]
  }

  function CaseTest(l: CaseLabel, kind: Kind, size: nat, target: Label, skip: nat, locals: nat): seq<Instr> {
    match l
    case Default => []
    case One(v) => TestOperand(v, EqN, false, kind, size, locals) + [Bne(target)]
    case Range(a, b) =>
      var (low, high) := Ordered(a, b);
      TestOperand(low, LeN(kind), true, kind, size, locals) + [Beq(Gen(skip))]
      + (TestOperand(high, LeN(kind), false, kind, size, locals) + [Bne(target)] + [Mark(Gen(skip))])
  }

  /** Tests in source order; the section's label is Gen(base), the next section's Gen(base + 1). */
  function DispatchCode(ss: Sections, kind: Kind, size: nat, base: nat, skip: nat, locals: nat): seq<Instr> {
    match ss
    case NoMore => []
    case Section(l, _, rest) =>
      CaseTest(l, kind, size, Gen(base), skip, locals)
      + DispatchCode(rest, kind, size, base + 1, skip + (if l.Range? then 1 else 0), locals)
  }

  function BodiesCode(ss: Sections, loops: Loops, base: nat, n: nat, locals: nat): seq<Instr>
    decreases ss, 1
  {
    match ss
    case NoMore => []
    case Section(_, body, rest) =>
      [Mark(Gen(base))] + (AllCode(body, loops, n, locals) + BodiesCode(rest, loops, base + 1, n + AllLabels(body),
            locals))
  }

  function ElseLabel(ss: Sections, n: nat): Label {
    var d := LastDefault(ss, 0);
    if d.Some? then Gen(n + 2 + d.value) else Gen(n)
  }

  function SwitchFrame(loops: Loops, n: nat): Frame {
    Frame(Gen(n), CurrentContinue(loops))
  }

  function SwitchCode(s: Stmt, pending: Option<string>, loops: Loops, n: nat, locals: nat): seq<Instr>
    requires s.Switch?
    decreases s, 0
  {
    var room := 2 * s.size % 256;
    var skip := n + 2 + Count(s.sections);
    [PushN(room), EvalTo(s.id, locals, s.size)]
    + (DispatchCode(s.sections, s.kind, s.size, n + 2, skip, locals)
    + ([Jmp(ElseLabel(s.sections, n))]
    + (BodiesCode(s.sections, Push(loops, pending, SwitchFrame(loops, n)), n + 2, skip + SkipLabels(s.sections),
                  locals + 2 * s.size)
    + ([Mark(Gen(n)), PopN(room)] + [Mark(Gen(n + 1))]))))
  }

  // ----- what the compiler accepts and the theorem covers -----

  /** Plain break and continue have a target; the compiler stops with an error otherwise. */
  predicate Accepted(s: Stmt, pending: Option<string>, scope: Scope)
    decreases s, 1
  {
    match s
    case If(_, yes, no) => AllAccepted(yes, scope) && AllAccepted(no, scope)
    case Loop(_, shape, body) => AllAccepted(body, InLoop(scope, pending))
    case Switch(_, _, _, sections) => SectionsAccepted(sections, InSwitch(scope, pending))
    case Break(name) => name.None? ==> scope.inside
    case Continue(name) => name.None? ==> scope.again
    case Block(body) => AllAccepted(body, scope)
    case Labelled(name, inner) => Accepted(inner, if Takes(inner) then Some(name) else None, scope)
    case _ => true
  }

  predicate AllAccepted(ss: Stmts, scope: Scope)
    decreases ss, 1
  {
    match ss
    case Nothing => true
    case Then(s, rest) => Accepted(s, None, scope) && AllAccepted(rest, scope)
  }

  predicate SectionsAccepted(ss: Sections, scope: Scope)
    decreases ss, 1
  {
    match ss
    case NoMore => true
    case Section(_, body, rest) => AllAccepted(body, scope) && SectionsAccepted(rest, scope)
  }

  /** Temporaries fit the one-byte push argument, and literals in conditions are spelled canonically. */
  predicate Plain(s: Stmt)
    decreases s, 1
  {
    match s
    case If(c, yes, no) => WellSized(c) && Canonical(c) && AllPlain(yes) && AllPlain(no)
    case Loop(_, shape, body) => WellSized(shape.test) && Canonical(shape.test) && AllPlain(body)
    case Switch(_, size, _, sections) => 2 * size < 256 && SectionsPlain(sections)
    case Block(body) => AllPlain(body)
    case Labelled(_, inner) => Plain(inner)
    case _ => true
  }

  predicate AllPlain(ss: Stmts)
    decreases ss, 1
  {
    match ss
    case Nothing => true
    case Then(s, rest) => Plain(s) && AllPlain(rest)
  }

  predicate SectionsPlain(ss: Sections)
    decreases ss, 1
  {
    match ss
    case NoMore => true
    case Section(_, body, rest) => AllPlain(body) && SectionsPlain(rest)
  }
}
