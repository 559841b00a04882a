/** No generated label is used twice, and what follows for whole functions. */
module LowerLabels {
  import opened Basics
  import opened LowerMachine
  import opened LowerCondition
  import opened LowerStatement
  import opened LowerDispatch
  import opened LowerSimulation

  /** The code places generated labels with numbers in s only, each at most once, and not the final label. */
  ghost predicate Own(code: seq<Instr>, s: set<nat>) {
    && (forall i :: 0 <= i < |code| && code[i].Mark? ==> !code[i].label_.Fini? && (code[i].label_.Gen? ==> code[i].label_.number in s))
    && UniqueMarks(code)
  }

  lemma OwnPlus(f: seq<Instr>, s: set<nat>, g: seq<Instr>, t: set<nat>)
    requires Own(f, s) && Own(g, t) && s !! t
    ensures Own(f + g, s + t)
  {
    var h := f + g;
    forall i, j | 0 <= i < j < |h| && h[i].Mark? && !h[i].label_.User?
      ensures h[j] != h[i]
    {
      if i < |f| <= j {
        assert h[i] == f[i] && h[j] == g[j - |f|];
      } else if j < |f| {
        assert h[i] == f[i] && h[j] == f[j];
      } else {
        assert h[i] == g[i - |f|] && h[j] == g[j - |f|];
      }
    }
  }

  lemma OwnWider(f: seq<Instr>, s: set<nat>, t: set<nat>)
    requires Own(f, s) && s <= t
    ensures Own(f, t)
  {
  }

  lemma OwnNone(f: seq<Instr>)
    requires forall i :: 0 <= i < |f| ==> !f[i].Mark?
    ensures Own(f, {})
  {
  }

  lemma OwnOne(n: nat)
    ensures Own([Mark(Gen(n))], {n})
  {
  }

  lemma OwnJumpMark(x: Label, n: nat)
    ensures Own([Jmp(x), Mark(Gen(n))], {n})
  {
  }

  /** Numbers from a up to but not including b. */
  function Numbers(a: nat, b: nat): (s: set<nat>)
    ensures forall k: nat :: k in s <==> a <= k < b
    decreases b
  {
    if a >= b then {} else Numbers(a, b - 1) + {b - 1}
  }

  /** Code in two parts whose labels are numbered consecutively. */
  lemma OwnChain(f: seq<Instr>, a: nat, b: nat, g: seq<Instr>, c: nat)
    requires Own(f, Numbers(a, b)) && Own(g, Numbers(b, c)) && a <= b <= c
    ensures Own(f + g, Numbers(a, c))
  {
    hide Own;
    OwnPlus(f, Numbers(a, b), g, Numbers(b, c));
    OwnWider(f + g, Numbers(a, b) + Numbers(b, c), Numbers(a, c));
  }

  lemma {:induction false} OraOwn(offset: nat, n: nat)
    ensures forall i :: 0 <= i < |OraSlots(offset, n)| ==> !OraSlots(offset, n)[i].Mark?
  {
    if n > 0 { OraOwn(offset, n - 1); }
  }

  lemma {:induction false} CondOwn(c: Cond, f: Label, n: nat, locals: nat)
    ensures Own(CondCode(c, f, n, locals), Numbers(n, n + CondLabels(c)))
    decreases c, 1
  {
    hide *;
    match c {
      case Negated(_) => NegatedOwn(c, f, n, locals);
      case Both(l, r) =>
        CondOwn(l, f, n, locals);
        CondOwn(r, f, n + CondLabels(l), locals);
        BothIs(c, f, n, locals);
        OwnChain(CondCode(l, f, n, locals), n, n + CondLabels(l), CondCode(r, f, n + CondLabels(l), locals),
                 n + CondLabels(c));
      case Either(_, _) => EitherOwn(c, f, n, locals);
      case _ => SimpleOwn(c, f, n, locals);
    }
  }

  lemma BothIs(c: Cond, f: Label, n: nat, locals: nat)
    requires c.Both?
    ensures CondCode(c, f, n, locals) == CondCode(c.left, f, n, locals) + CondCode(c.right, f, n + CondLabels(c.left),
          locals)
    ensures CondLabels(c) == CondLabels(c.left) + CondLabels(c.right)
  {
  }

  lemma EitherIs(c: Cond, f: Label, n: nat, locals: nat)
    requires c.Either?
    ensures CondCode(c, f, n, locals) == CondCode(c.left, Gen(n), n + 2, locals) + [Jmp(Gen(n + 1)), Mark(Gen(n))]
      + (CondCode(c.right, f, n + 2 + CondLabels(c.left), locals) + [Mark(Gen(n + 1))])
    ensures CondLabels(c) == 2 + CondLabels(c.left) + CondLabels(c.right)
  {
  }

  lemma SimpleOwn(c: Cond, f: Label, n: nat, locals: nat)
    requires !c.Negated? && !c.Both? && !c.Either?
    ensures Own(CondCode(c, f, n, locals), Numbers(n, n + CondLabels(c)))
  {
    if c.Leaf? { OraOwn(locals, c.size); }
    OwnNone(CondCode(c, f, n, locals));
    OwnWider(CondCode(c, f, n, locals), {}, Numbers(n, n));
  }

  lemma {:induction false} NegatedOwn(c: Cond, f: Label, n: nat, locals: nat)
    requires c.Negated?
    ensures Own(CondCode(c, f, n, locals), Numbers(n, n + CondLabels(c)))
    decreases c, 0
  {
    var s := Numbers(n + 1, n + CondLabels(c));
    CondOwn(c.inner, Gen(n), n + 1, locals);
    OwnJumpMark(f, n);
    hide Own;
    OwnPlus(CondCode(c.inner, Gen(n), n + 1, locals), s, [Jmp(f), Mark(Gen(n))], {n});
    OwnWider(CondCode(c, f, n, locals), s + {n}, Numbers(n, n + CondLabels(c)));
  }

  lemma {:induction false} EitherOwn(c: Cond, f: Label, n: nat, locals: nat)
    requires c.Either?
    ensures Own(CondCode(c, f, n, locals), Numbers(n, n + CondLabels(c)))
    decreases c, 0
  {
    hide *;
    EitherIs(c, f, n, locals);
    var m := n + 2 + CondLabels(c.left);
    var end := n + CondLabels(c);
    CondOwn(c.left, Gen(n), n + 2, locals);
    CondOwn(c.right, f, m, locals);
    OwnJumpMark(Gen(n + 1), n);
    OwnOne(n + 1);
    var left, right := CondCode(c.left, Gen(n), n + 2, locals), CondCode(c.right, f, m, locals);
    var s, t := Numbers(n + 2, m), Numbers(m, end);
    OwnPlus(left, s, [Jmp(Gen(n + 1)), Mark(Gen(n))], {n});
    OwnPlus(right, t, [Mark(Gen(n + 1))], {n + 1});
    OwnPlus(left + [Jmp(Gen(n + 1)), Mark(Gen(n))], s + {n}, right + [Mark(Gen(n + 1))], t + {n + 1});
    OwnWider(CondCode(c, f, n, locals), s + {n} + (t + {n + 1}), Numbers(n, end));
  }

  // ----- statements -----

  lemma EffectsOwn(ids: seq<nat>, n: nat)
    ensures Own(EffectsCode(ids), Numbers(n, n))
  {
    OwnNone(EffectsCode(ids));
    OwnWider(EffectsCode(ids), {}, Numbers(n, n));
  }

  lemma {:induction false} StmtOwn(s: Stmt, pending: Option<string>, loops: Loops, n: nat, locals: nat)
    ensures Own(StmtCode(s, pending, loops, n, locals), Numbers(n, n + StmtLabels(s)))
    decreases s, 4
  {
    hide *;
    StmtIs(s, pending, loops, n, locals);
    match s {
      case If(_, _, _) => IfOwn(s, pending, loops, n, locals);
      case Loop(init, shape, body) =>
        EffectsOwn(init, n);
        WholeLoopOwn(shape, body, pending, loops, n, locals);
        OwnChain(EffectsCode(init), n, n, LoopCode(shape, body, pending, loops, n, locals), n + StmtLabels(s));
      case Switch(_, _, _, sections) =>
        if sections.NoMore? {
          EmptyOwn(n);
        } else {
          SwitchOwn(s, pending, loops, n, locals);
        }
      case Block(body) => AllOwn(body, loops, n, locals);
      case Labelled(name, inner) =>
        var inside := if Takes(inner) then Some(name) else None;
        StmtOwn(inner, inside, loops, n, locals);
        UserOwn(name, n);
        OwnChain([Mark(User(name))], n, n, StmtCode(inner, inside, loops, n, locals), n + StmtLabels(s));
      case _ => PlainOwn(s, pending, loops, n, locals);
    }
  }

  lemma EmptyOwn(n: nat)
    ensures Own([], Numbers(n, n))
  {
    OwnNone([]);
    OwnWider([], {}, Numbers(n, n));
  }

  lemma StmtIs(s: Stmt, pending: Option<string>, loops: Loops, n: nat, locals: nat)
    ensures s.Loop? ==>
      && StmtCode(s, pending, loops, n, locals) == EffectsCode(s.init) + LoopCode(s.shape, s.body, pending, loops, n, locals)
      && StmtLabels(s) == LoopOwn(s.shape) + CondLabels(s.shape.test) + AllLabels(s.body)
    ensures s.Switch? ==>
      && StmtCode(s, pending, loops, n, locals) == (if s.sections.NoMore? then [] else SwitchCode(s, pending, loops, n, locals))
      && (s.sections.NoMore? ==> StmtLabels(s) == 0)
    ensures s.Block? ==> StmtCode(s, pending, loops, n, locals) == AllCode(s.body, loops, n, locals) && StmtLabels(s) == AllLabels(s.body)
    ensures s.Labelled? ==>
      && StmtLabels(s) == StmtLabels(s.inner)
      && StmtCode(s, pending, loops, n, locals) ==
           [Mark(User(s.mark))] + StmtCode(s.inner, if Takes(s.inner) then Some(s.mark) else None, loops, n, locals)
  {
    hide LoopCode, SwitchCode, AllCode, AllLabels, CondLabels, EffectsCode;
  }

  lemma UserOwn(name: string, n: nat)
    ensures Own([Mark(User(name))], Numbers(n, n))
  {
  }

  lemma PlainOwn(s: Stmt, pending: Option<string>, loops: Loops, n: nat, locals: nat)
    requires s.Effects? || s.Break? || s.Continue? || s.Return?
    ensures Own(StmtCode(s, pending, loops, n, locals), Numbers(n, n + StmtLabels(s)))
  {
    OwnNone(StmtCode(s, pending, loops, n, locals));
    OwnWider(StmtCode(s, pending, loops, n, locals), {}, Numbers(n, n));
  }

  lemma {:induction false} AllOwn(ss: Stmts, loops: Loops, n: nat, locals: nat)
    ensures Own(AllCode(ss, loops, n, locals), Numbers(n, n + AllLabels(ss)))
    decreases ss, 1
  {
    hide *;
    AllIs(ss, loops, n, locals);
    if ss.Nothing? {
      EmptyOwn(n);
    } else {
      var m := n + StmtLabels(ss.first);
      StmtOwn(ss.first, None, loops, n, locals);
      AllOwn(ss.rest, loops, m, locals);
      OwnChain(StmtCode(ss.first, None, loops, n, locals), n, m, AllCode(ss.rest, loops, m, locals),
               m + AllLabels(ss.rest));
    }
  }

  lemma AllIs(ss: Stmts, loops: Loops, n: nat, locals: nat)
    ensures AllCode(ss, loops, n, locals) ==
      if ss.Nothing? then [] else StmtCode(ss.first, None, loops, n, locals) + AllCode(ss.rest, loops, n + StmtLabels(ss.first), locals)
    ensures AllLabels(ss) == if ss.Nothing? then 0 else StmtLabels(ss.first) + AllLabels(ss.rest)
  {
    hide StmtCode, StmtLabels;
  }

  lemma {:induction false} IfOwn(s: Stmt, pending: Option<string>, loops: Loops, n: nat, locals: nat)
    requires s.If?
    ensures Own(StmtCode(s, pending, loops, n, locals), Numbers(n, n + StmtLabels(s)))
    decreases s, 3
  {
    hide *;
    IfLabels(s);
    var m := n + 2 + CondLabels(s.test);
    var m', end := m + AllLabels(s.yes), n + StmtLabels(s);
    CondOwn(s.test, Gen(n), n + 2, locals);
    AllOwn(s.yes, loops, m, locals);
    AllOwn(s.no, loops, m', locals);
    IfShape(s, pending, loops, n, locals);
    OwnOne(n);
    OwnOne(n + 1);
    OwnJumpMark(Gen(n + 1), n);
    var cond, yes, no := CondCode(s.test, Gen(n), n + 2, locals), AllCode(s.yes, loops, m, locals), AllCode(s.no,
          loops, m', locals);
    OwnChain(cond, n + 2, m, yes, m');
    var head, t := Numbers(n + 2, m'), Numbers(m', end);
    if s.no.Nothing? {
      OwnPlus(cond + yes, head, [Mark(Gen(n))], {n});
      OwnWider(cond + yes + [Mark(Gen(n))], head + {n}, Numbers(n, end));
    } else {
      OwnPlus(no, t, [Mark(Gen(n + 1))], {n + 1});
      OwnPlus([Jmp(Gen(n + 1)), Mark(Gen(n))], {n}, no + [Mark(Gen(n + 1))], t + {n + 1});
      OwnPlus(cond + yes, head, [Jmp(Gen(n + 1)), Mark(Gen(n))] + (no + [Mark(Gen(n + 1))]), {n} + (t + {n + 1}));
      OwnWider(StmtCode(s, pending, loops, n, locals), head + ({n} + (t + {n + 1})), Numbers(n, end));
    }
  }

  lemma IfLabels(s: Stmt)
    requires s.If?
    ensures StmtLabels(s) == 2 + CondLabels(s.test) + AllLabels(s.yes) + AllLabels(s.no)
    ensures s.no.Nothing? ==> AllLabels(s.no) == 0
  {
    hide CondLabels;
  }

  /** The part before the body: labels from the loop's own on. */
  lemma HeadOwn(shape: Shape, n: nat, locals: nat)
    ensures Own(HeadCode(shape, n, locals), Numbers(n + LoopOwn(shape), BodyStart(shape, n)))
  {
    if shape.DoWhile? || (shape.ForDo? && shape.test.Absent?) {
      OwnNone([]);
      OwnWider([], {}, Numbers(n + LoopOwn(shape), BodyStart(shape, n)));
    } else {
      CondOwn(shape.test, EndLabel(shape, n), n + LoopOwn(shape), locals);
    }
  }

  /** The part after the body, with its own label, if it has one. */
  lemma TailOwn(shape: Shape, n: nat, m: nat, locals: nat)
    requires n + 3 <= m
    ensures var k := if shape.DoWhile? then CondLabels(shape.test) else 0;
      Own(TailCode(shape, n, m, locals), (if shape.WhileDo? then {} else {n + 1}) + Numbers(m, m + k))
  {
    OwnOne(n + 1);
    match shape {
      case WhileDo(_) => OwnNone([]);
      case ForDo(_, step) =>
        var ids := if step.Some? then [step.value] else [];
        EffectsOwn(ids, m);
        hide Own;
        OwnPlus([Mark(Gen(n + 1))], {n + 1}, EffectsCode(ids), Numbers(m, m));
      case DoWhile(c) =>
        CondOwn(c, EndLabel(shape, n), m, locals);
        hide Own;
        OwnPlus([Mark(Gen(n + 1))], {n + 1}, CondCode(c, EndLabel(shape, n), m, locals), Numbers(m, m + CondLabels(c)));
    }
  }

  lemma {:induction false} WholeLoopOwn(shape: Shape, body: Stmts, pending: Option<string>, loops: Loops, n: nat,
                                        locals: nat)
    ensures Own(LoopCode(shape, body, pending, loops, n, locals), Numbers(n,
          n + LoopOwn(shape) + CondLabels(shape.test) + AllLabels(body)))
    decreases body, 2
  {
    hide *;
    LoopNumbers(shape, n);
    var m := BodyStart(shape, n);
    var m' := m + AllLabels(body);
    var last := n + LoopOwn(shape) - 1;
    var k := if shape.DoWhile? then CondLabels(shape.test) else 0;
    HeadOwn(shape, n, locals);
    AllOwn(body, Push(loops, pending, LoopFrame(shape, n)), m, locals);
    if shape.WhileDo? { TailOwnWhile(shape, n, m', locals); } else { TailOwn(shape, n, m', locals); }
    OwnJumpMark(Gen(n), last);
    OwnOne(n);
    LoopIs(shape, body, pending, loops, n, locals);
    var head, mid, tail := HeadCode(shape, n, locals), AllCode(body, Push(loops, pending, LoopFrame(shape, n)), m,
                                                               locals), TailCode(shape, n, m', locals);
    var own := if shape.WhileDo? then {} else {n + 1};
    var jump: seq<Instr> := [Jmp(Gen(n)), Mark(EndLabel(shape, n))];
    OwnPlus(tail, own + Numbers(m', m' + k), jump, {last});
    OwnPlus(mid, Numbers(m, m'), tail + jump, own + Numbers(m', m' + k) + {last});
    OwnPlus(head, Numbers(n + LoopOwn(shape), m), mid + (tail + jump), Numbers(m,
          m') + (own + Numbers(m', m' + k) + {last}));
    OwnPlus([Mark(Gen(n))], {n}, head + (mid + (tail + jump)), Numbers(n + LoopOwn(shape),
          m) + (Numbers(m, m') + (own + Numbers(m', m' + k) + {last})));
    OwnWider(LoopCode(shape, body, pending, loops, n, locals),
             {n} + (Numbers(n + LoopOwn(shape), m) + (Numbers(m, m') + (own + Numbers(m', m' + k) + {last}))),
             Numbers(n, n + LoopOwn(shape) + CondLabels(shape.test) + AllLabels(body)));
  }

  lemma LoopIs(shape: Shape, body: Stmts, pending: Option<string>, loops: Loops, n: nat, locals: nat)
    ensures var m := BodyStart(shape, n);
      LoopCode(shape, body, pending, loops, n, locals) == [Mark(Gen(n))] + (HeadCode(shape, n, locals)
        + (AllCode(body, Push(loops, pending, LoopFrame(shape, n)), m, locals)
        + (TailCode(shape, n, m + AllLabels(body), locals) + [Jmp(Gen(n)), Mark(EndLabel(shape, n))])))
  {
    hide HeadCode, AllCode, TailCode, BodyStart, AllLabels, Push;
  }

  lemma LoopNumbers(shape: Shape, n: nat)
    ensures LoopOwn(shape) == (if shape.WhileDo? then 2 else 3) && EndLabel(shape, n) == Gen(n + LoopOwn(shape) - 1)
    ensures BodyStart(shape, n) == n + LoopOwn(shape) + (if shape.DoWhile? then 0 else CondLabels(shape.test))
  {
    hide CondLabels;
  }

  lemma TailOwnWhile(shape: Shape, n: nat, m: nat, locals: nat)
    requires shape.WhileDo?
    ensures Own(TailCode(shape, n, m, locals), {} + Numbers(m, m))
  {
    OwnNone([]);
    OwnWider([], {}, {} + Numbers(m, m));
  }

  // ----- switches -----

  lemma TestOwn(op: Operand, h: Helper, operandFirst: bool, kind: Kind, size: nat, j: Instr, locals: nat)
    requires !j.Mark?
    ensures Own(TestOperand(op, h, operandFirst, kind, size, locals) + [j], {})
  {
    OwnNone(TestOperand(op, h, operandFirst, kind, size, locals) + [j]);
  }

  lemma CaseOwn(l: CaseLabel, kind: Kind, size: nat, target: Label, skip: nat, locals: nat)
    ensures Own(CaseTest(l, kind, size, target, skip, locals), Numbers(skip, skip + (if l.Range? then 1 else 0)))
  {
    match l {
      case Default =>
        OwnNone([]);
        OwnWider([], {}, Numbers(skip, skip));
      case One(v) =>
        TestOwn(v, EqN, false, kind, size, Bne(target), locals);
        hide Own, TestOperand;
        OwnWider(CaseTest(l, kind, size, target, skip, locals), {}, Numbers(skip, skip));
      case Range(a, b) =>
        var (low, high) := Ordered(a, b);
        TestOwn(low, LeN(kind), true, kind, size, Beq(Gen(skip)), locals);
        TestOwn(high, LeN(kind), false, kind, size, Bne(target), locals);
        OwnOne(skip);
        hide Own, TestOperand;
        var first, second := TestOperand(low, LeN(kind), true, kind, size,
                                         locals) + [Beq(Gen(skip))], TestOperand(high, LeN(kind), false, kind, size,
              locals) + [Bne(target)];
        OwnPlus(second, {}, [Mark(Gen(skip))], {skip});
        OwnPlus(first, {}, second + [Mark(Gen(skip))], {} + {skip});
        OwnWider(CaseTest(l, kind, size, target, skip, locals), {} + ({} + {skip}), Numbers(skip, skip + 1));
    }
  }

  lemma {:induction false} DispatchOwn(ss: Sections, kind: Kind, size: nat, base: nat, skip: nat, locals: nat)
    ensures Own(DispatchCode(ss, kind, size, base, skip, locals), Numbers(skip, skip + SkipLabels(ss)))
    decreases ss
  {
    hide *;
    DispatchNext(ss, kind, size, base, skip, locals);
    SkipIs(ss);
    if ss.NoMore? {
      EmptyOwn(skip);
    } else {
      var skip' := skip + (if ss.label_.Range? then 1 else 0);
      CaseOwn(ss.label_, kind, size, Gen(base), skip, locals);
      DispatchOwn(ss.rest, kind, size, base + 1, skip', locals);
      OwnChain(CaseTest(ss.label_, kind, size, Gen(base), skip, locals), skip, skip',
               DispatchCode(ss.rest, kind, size, base + 1, skip', locals), skip + SkipLabels(ss));
    }
  }

  lemma SkipIs(ss: Sections)
    ensures SkipLabels(ss) == if ss.NoMore? then 0 else (if ss.label_.Range? then 1 else 0) + SkipLabels(ss.rest)
    ensures BodyLabels(ss) == if ss.NoMore? then 0 else AllLabels(ss.body) + BodyLabels(ss.rest)
    ensures Count(ss) == if ss.NoMore? then 0 else 1 + Count(ss.rest)
  {
    hide AllLabels;
  }

  lemma BodiesAre(ss: Sections, loops: Loops, base: nat, n: nat, locals: nat)
    ensures BodiesCode(ss, loops, base, n, locals) ==
      if ss.NoMore? then []
      else [Mark(Gen(base))] + (AllCode(ss.body, loops, n, locals) + BodiesCode(ss.rest, loops, base + 1,
            n + AllLabels(ss.body), locals))
  {
    hide AllCode, AllLabels;
  }

  lemma {:induction false} BodiesOwn(ss: Sections, loops: Loops, base: nat, n: nat, locals: nat)
    requires base + Count(ss) <= n
    ensures Own(BodiesCode(ss, loops, base, n, locals), Numbers(base, base + Count(ss)) + Numbers(n,
          n + BodyLabels(ss)))
    decreases ss, 1
  {
    hide *;
    SkipIs(ss);
    BodiesAre(ss, loops, base, n, locals);
    if ss.NoMore? {
      OwnNone([]);
      OwnWider([], {}, Numbers(base, base) + Numbers(n, n));
    } else {
      var m := n + AllLabels(ss.body);
      AllOwn(ss.body, loops, n, locals);
      BodiesOwn(ss.rest, loops, base + 1, m, locals);
      OwnOne(base);
      var body, rest := AllCode(ss.body, loops, n, locals), BodiesCode(ss.rest, loops, base + 1, m, locals);
      var t := Numbers(base + 1, base + Count(ss)) + Numbers(m, n + BodyLabels(ss));
      OwnPlus(body, Numbers(n, m), rest, t);
      OwnPlus([Mark(Gen(base))], {base}, body + rest, Numbers(n, m) + t);
      OwnWider([Mark(Gen(base))] + (body + rest), {base} + (Numbers(n, m) + t),
               Numbers(base, base + Count(ss)) + Numbers(n, n + BodyLabels(ss)));
    }
  }

  lemma {:induction false} SwitchOwn(s: Stmt, pending: Option<string>, loops: Loops, n: nat, locals: nat)
    requires s.Switch? && s.sections.Section?
    ensures Own(SwitchCode(s, pending, loops, n, locals), Numbers(n, n + StmtLabels(s)))
    decreases s, 3
  {
    hide *;
    SwitchIs(s, pending, loops, n, locals);
    var room := 2 * s.size % 256;
    var skip := n + 2 + Count(s.sections);
    var m, end := skip + SkipLabels(s.sections), n + StmtLabels(s);
    var inside := Push(loops, pending, SwitchFrame(loops, n));
    DispatchOwn(s.sections, s.kind, s.size, n + 2, skip, locals);
    BodiesOwn(s.sections, inside, n + 2, m, locals + 2 * s.size);
    OwnNone([PushN(room), EvalTo(s.id, locals, s.size)]);
    OwnNone([Jmp(ElseLabel(s.sections, n))]);
    CleanOwn(room, n);
    OwnOne(n + 1);
    var dispatch, bodies := DispatchCode(s.sections, s.kind, s.size, n + 2, skip, locals), BodiesCode(s.sections,
          inside, n + 2, m, locals + 2 * s.size);
    var d, b := Numbers(skip, m), Numbers(n + 2, skip) + Numbers(m, end);
    var clean: seq<Instr> := [Mark(Gen(n)), PopN(room)];
    OwnPlus(clean, {n}, [Mark(Gen(n + 1))], {n + 1});
    OwnPlus(bodies, b, clean + [Mark(Gen(n + 1))], {n} + {n + 1});
    OwnPlus([Jmp(ElseLabel(s.sections, n))], {}, bodies + (clean + [Mark(Gen(n + 1))]), b + ({n} + {n + 1}));
    OwnPlus(dispatch, d, [Jmp(ElseLabel(s.sections, n))] + (bodies + (clean + [Mark(Gen(n + 1))])),
            {} + (b + ({n} + {n + 1})));
    OwnPlus([PushN(room), EvalTo(s.id, locals, s.size)], {}, dispatch + ([Jmp(ElseLabel(s.sections,
          n))] + (bodies + (clean + [Mark(Gen(n + 1))]))), d + ({} + (b + ({n} + {n + 1}))));
    OwnWider(SwitchCode(s, pending, loops, n, locals), {} + (d + ({} + (b + ({n} + {n + 1})))), Numbers(n, end));
  }

  lemma SwitchIs(s: Stmt, pending: Option<string>, loops: Loops, n: nat, locals: nat)
    requires s.Switch? && s.sections.Section?
    ensures var skip := n + 2 + Count(s.sections);
      SwitchCode(s, pending, loops, n, locals) == [PushN(2 * s.size % 256), EvalTo(s.id, locals, s.size)]
        + (DispatchCode(s.sections, s.kind, s.size, n + 2, skip, locals)
        + ([Jmp(ElseLabel(s.sections, n))]
        + (BodiesCode(s.sections, Push(loops, pending, SwitchFrame(loops, n)), n + 2, skip + SkipLabels(s.sections),
                      locals + 2 * s.size)
        + ([Mark(Gen(n)), PopN(2 * s.size % 256)] + [Mark(Gen(n + 1))]))))
    ensures StmtLabels(s) == 2 + Count(s.sections) + SkipLabels(s.sections) + BodyLabels(s.sections)
  {
    hide DispatchCode, BodiesCode, Count, SkipLabels, BodyLabels, Push, ElseLabel;
  }

  lemma CleanOwn(room: nat, n: nat)
    ensures Own([Mark(Gen(n)), PopN(room)], {n})
  {
  }
}
