/** Shrinking encodings: one sweep, and every way of repeating it. */
module AsmRelax {
  import opened Basics
  import opened AsmOpcode
  import opened AsmExpr
  import opened AsmLayout
  import opened AsmStable

  // ----- the rules -----

  function ZeroPageOf(mode: EmitMode): Option<EmitMode> {
    match mode
    case Abs => Some(Zp)
    case AbsX => Some(ZpX)
    case AbsY => Some(ZpY)
    case _ => None
  }

  /** The zero-page form an instruction may take instead of its present one. */
  function ZeroPageForm(p: Program, body: Body, mode: EmitMode): Option<EmitMode>
    requires body.Insn?
  {
    var narrow := ZeroPageOf(mode);
    if body.spec == SpecNone && narrow.Some? && Lookup(p.table, body.op, narrow.value).Some? then narrow else None
  }

  predicate BranchFits(e: Expr, symbols: Symbols, at: int) {
    var v := EvalExpr(e, symbols, at + 1);
    v.Ok? && -128 <= v.value - (at + 2) <= 127
  }

  predicate PageZero(p: Program, e: Expr, symbols: Symbols, at: int) {
    match EvalExpr(e, symbols, at)
    case Ok(v) => 0 <= v <= 255
    case _ => e.Ident? && e.name in p.zpImports
  }

  /** The encoding of statement s at address `at`, after it has been looked at once. */
  function Relaxed(p: Program, s: Stmt, mode: EmitMode, symbols: Symbols, at: int): EmitMode {
    if !s.body.Insn? || s.body.operand.None? then mode
    else if mode == RelLong && BranchFits(s.body.operand.value, symbols, at) then Rel
    else
      var narrow := ZeroPageForm(p, s.body, mode);
      if narrow.Some? && PageZero(p, s.body.operand.value, symbols, at) then narrow.value else mode
  }

  /** Statement i after it has been looked at under the layout of `seen`. */
  function RelaxedAt(p: Program, seen: Modes, mode: EmitMode, i: nat): EmitMode
    requires WellFormed(p) && |seen| == |p.stmts| && i < |p.stmts|
  {
    Relaxed(p, p.stmts[i], mode, LayoutOf(p, seen).symbols, LayoutOf(p, seen).address[i])
  }

  function RelaxAll(p: Program, m: Modes): (r: Modes)
    requires WellFormed(p) && |m| == |p.stmts|
    ensures |r| == |m|
  {
    seq(|m|, i requires 0 <= i < |m| => RelaxedAt(p, m, m[i], i))
  }

  // ----- the order -----

  predicate Narrows(wide: EmitMode, narrow: EmitMode) {
    (wide == RelLong && narrow == Rel) || ZeroPageOf(wide) == Some(narrow)
  }

  predicate AtMost(narrow: EmitMode, wide: EmitMode) {
    narrow == wide || Narrows(wide, narrow)
  }

  /** b is a, possibly with some statements in their narrow form. */
  ghost predicate Below(b: Modes, a: Modes) {
    |b| == |a| && forall i :: 0 <= i < |a| ==> AtMost(b[i], a[i])
  }

  lemma BelowTrans(c: Modes, b: Modes, a: Modes)
    requires Below(c, b) && Below(b, a)
    ensures Below(c, a)
  {
    forall i | 0 <= i < |a|
      ensures AtMost(c[i], a[i])
    {
      assert AtMost(c[i], b[i]) && AtMost(b[i], a[i]);
    }
  }

  /** Looking at a statement keeps its encoding or takes the one narrow form that exists for it. */
  lemma RelaxedAtMost(p: Program, s: Stmt, mode: EmitMode, symbols: Symbols, at: int)
    ensures var r := Relaxed(p, s, mode, symbols, at);
      AtMost(r, mode) && (forall n :: Narrows(n, mode) ==> r == mode)
  {
  }

  lemma NarrowsUnique(w: EmitMode, m: EmitMode, n: EmitMode)
    requires Narrows(w, m) && Narrows(w, n)
    ensures m == n
  {
  }

  // ----- programs with plain operands -----

  ghost predicate SameSegmentLabel(p: Program, i: nat, t: nat, e: Expr)
    requires i < |p.stmts|
  {
    t < |p.stmts| && e.Ident? && LabelAt(p, t, e.name) && p.stmts[t].segment == p.stmts[i].segment
  }

  /** A relaxable branch names a label of its own segment; any other relaxable operand is a sum of labels and numbers
      or does not depend on labels, not even through constants. */
  ghost predicate PlainOperand(p: Program, i: nat)
    requires i < |p.stmts|
  {
    var s := p.stmts[i];
    s.body.Insn? && s.body.operand.Some? ==>
      var e, mode := s.body.operand.value, InitialModeOf(p, s);
      && (mode == RelLong ==> exists t :: SameSegmentLabel(p, i, t, e))
      && (ZeroPageForm(p, s.body, mode).Some? ==> PlainValued(p, e))
  }

  ghost predicate PlainValued(p: Program, e: Expr) {
    Sums(p, e) || LabelFree(p, e)
  }

  /** A sum of labels and numbers that are not negative. */
  predicate Sums(p: Program, e: Expr) {
    || (e.Number? && e.value >= 0)
    || (e.Ident? && IsLabel(p, e.name))
    || (e.Binary? && e.op == Add && Sums(p, e.left) && Sums(p, e.right))
  }

  /** The amount is the distance from one label to a later one of the same segment, both declared so far. */
  ghost predicate Spans(p: Program, i: nat, e: Expr, s: nat, t: nat)
    requires i < |p.stmts|
  {
    && s <= t <= i && p.stmts[s].segment == p.stmts[t].segment
    && e.Binary? && e.op == Sub && e.left.Ident? && e.right.Ident?
    && LabelAt(p, t, e.left.name) && LabelAt(p, s, e.right.name)
  }

  /** Made of such distances and of what does not depend on labels, adding either and subtracting only the latter:
      the value cannot grow when encodings shrink. */
  ghost predicate Shrinks(p: Program, i: nat, e: Expr)
    requires i < |p.stmts|
    decreases e
  {
    || LabelFree(p, e)
    || (exists s: nat, t: nat :: Spans(p, i, e, s, t))
    || (e.Binary? && e.op == Add && Shrinks(p, i, e.left) && Shrinks(p, i, e.right))
    || (e.Binary? && e.op == Sub && Shrinks(p, i, e.left) && LabelFree(p, e.right))
  }

  ghost predicate PlainAmount(p: Program, i: nat)
    requires i < |p.stmts|
  {
    p.stmts[i].body.Res? ==> Shrinks(p, i, p.stmts[i].body.amount)
  }

  /** Names declared once, no .org, and plain amounts of .res. */
  ghost predicate Shrinkable(p: Program) {
    Regular(p) && forall i :: 0 <= i < |p.stmts| ==> PlainAmount(p, i)
  }

  ghost predicate Plain(p: Program) {
    Shrinkable(p) && forall i :: 0 <= i < |p.stmts| ==> PlainOperand(p, i)
  }

  /** Shrinking encodings shrinks the distance between any two statements of a segment. */
  lemma {:induction false} DistanceShrinks(p: Program, a: Modes, b: Modes, g: string, i: nat, j: nat)
    requires Shrinkable(p) && |a| == |p.stmts| && Below(b, a) && i <= j <= |p.stmts|
    ensures WellFormed(p) && 0 <= Offset(p, b, g, j) - Offset(p, b, g, i) <= Offset(p, a, g, j) - Offset(p, a, g, i)
    decreases j, 0
  {
    hide Shrinkable, Below, Reserved;
    IsWellFormed(p);
    BelowLength(b, a);
    if i < j {
      DistanceShrinks(p, a, b, g, i, j - 1);
      ReservedShrinks(p, a, b, j - 1);
    }
  }

  /** No statement takes more bytes when encodings shrink. */
  lemma {:induction false} ReservedShrinks(p: Program, a: Modes, b: Modes, i: nat)
    requires Shrinkable(p) && |a| == |p.stmts| && Below(b, a) && i < |p.stmts|
    ensures WellFormed(p) && |b| == |p.stmts| && Reserved(p, b, i) <= Reserved(p, a, i)
    decreases i, 2
  {
    hide KnownAt, PlacedAt, EvalExpr, Below, Shrinks, Regular;
    IsWellFormed(p);
    BelowAt(b, a, i);
    if p.stmts[i].body.Res? {
      assert PlainAmount(p, i);
      AmountShrinks(p, a, b, i, p.stmts[i].body.amount);
    }
  }

  /** The value of e where the body of statement i is looked at. */
  function ValueAt(p: Program, m: Modes, i: nat, e: Expr): Eval
    requires WellFormed(p) && |m| == |p.stmts| && i < |p.stmts|
  {
    EvalExpr(e, KnownAt(p, m, i), PlacedAt(p, m, i))
  }

  lemma {:induction false} AmountShrinks(p: Program, a: Modes, b: Modes, i: nat, e: Expr)
    requires Shrinkable(p) && |a| == |p.stmts| && Below(b, a) && i < |p.stmts| && Shrinks(p, i, e)
    ensures WellFormed(p) && |b| == |p.stmts|
    ensures ValueAt(p, a, i, e).Ok? <==> ValueAt(p, b, i, e).Ok?
    ensures ValueAt(p, a, i, e).Ok? ==> ValueAt(p, b, i, e).value <= ValueAt(p, a, i, e).value
    decreases i, 1, e
  {
    hide KnownAt, PlacedAt, Below, LabelFree, Regular, Offset, Shrinkable;
    IsWellFormed(p);
    BelowLength(b, a);
    if LabelFree(p, e) {
      SteadyValue(p, a, b, i, e);
    } else if s: nat, t: nat :| Spans(p, i, e, s, t) {
      SpanValue(p, a, i, e, s, t);
      SpanValue(p, b, i, e, s, t);
      hide ValueAt, Spans;
      DistanceShrinks(p, a, b, p.stmts[t].segment, s, t);
    } else {
      hide Spans;
      AmountShrinks(p, a, b, i, e.left);
      if e.op == Add {
        AmountShrinks(p, a, b, i, e.right);
      } else {
        SteadyValue(p, a, b, i, e.right);
      }
    }
  }

  lemma SteadyValue(p: Program, a: Modes, b: Modes, i: nat, e: Expr)
    requires Regular(p) && |a| == |b| == |p.stmts| && i < |p.stmts| && LabelFree(p, e)
    ensures ValueAt(p, a, i, e) == ValueAt(p, b, i, e)
  {
    hide PlaceTo, LabelFree, Distinct, EvalExpr, Begin, Agree;
    AgreeSoFar(p, a, b, i);
    BeginAgree(p, i, PlaceTo(p, a, i), PlaceTo(p, b, i), PlacedAt(p, a, i), PlacedAt(p, b, i));
    LabelFreeAgree(p, e, KnownAt(p, a, i), KnownAt(p, b, i), PlacedAt(p, a, i), PlacedAt(p, b, i));
  }

  lemma BeginAgree(p: Program, i: nat, k: Layout, l: Layout, at: int, at': int)
    requires i < |p.stmts| && Agree(p, k.symbols, l.symbols)
    ensures Agree(p, Begin(k, p.stmts[i], at).symbols, Begin(l, p.stmts[i], at').symbols)
  {
    var s := p.stmts[i];
    forall x | Steady(p, x)
      ensures SameAt(Begin(k, s, at).symbols, Begin(l, s, at').symbols, x)
    {
      SteadyNotLabel(p, x);
      hide Steady;
      assert SameAt(k.symbols, l.symbols, x);
      assert !LabelAt(p, i, x);
    }
  }

  /** Such a distance is known when it is reserved. */
  lemma SpanValue(p: Program, m: Modes, i: nat, e: Expr, s: nat, t: nat)
    requires Regular(p) && |m| == |p.stmts| && i < |p.stmts| && Spans(p, i, e, s, t)
    ensures s <= t < |p.stmts|
    ensures var g := p.stmts[t].segment; ValueAt(p, m, i, e) == Ok(Offset(p, m, g, t) - Offset(p, m, g, s))
  {
    hide KnownAt, PlacedAt, Distinct, Offset;
    LabelKnown(p, m, i, s, e.right.name);
    LabelKnown(p, m, i, t, e.left.name);
    Difference(e, KnownAt(p, m, i), PlacedAt(p, m, i), AddressOf(p, m, t), AddressOf(p, m, s));
  }

  /** Subtracting a distance lets an amount grow: k less such a distance grows by what the distance loses. */
  lemma OppositeAmountGrows(p: Program, a: Modes, b: Modes, i: nat, s: nat, t: nat, k: nat)
    requires Regular(p) && |a| == |b| == |p.stmts| && i < |p.stmts| && p.stmts[i].body.Res?
    requires var e := p.stmts[i].body.amount; e.Binary? && e.op == Sub && e.left == Number(k) && Spans(p, i, e.right, s, t)
    requires Distance(p, b, s, t) <= Distance(p, a, s, t) <= k
    ensures Reserved(p, b, i) - Reserved(p, a, i) == Distance(p, a, s, t) - Distance(p, b, s, t)
  {
    hide Regular, Reserved, Spans;
    OppositeAmount(p, a, i, s, t, k);
    OppositeAmount(p, b, i, s, t, k);
  }

  function Distance(p: Program, m: Modes, s: nat, t: nat): int
    requires WellFormed(p) && |m| == |p.stmts| && s < |p.stmts| && t < |p.stmts|
  {
    AddressOf(p, m, t) - AddressOf(p, m, s)
  }

  lemma OppositeAmount(p: Program, m: Modes, i: nat, s: nat, t: nat, k: nat)
    requires Regular(p) && |m| == |p.stmts| && i < |p.stmts| && p.stmts[i].body.Res?
    requires var e := p.stmts[i].body.amount; e.Binary? && e.op == Sub && e.left == Number(k) && Spans(p, i, e.right, s, t)
    requires Distance(p, m, s, t) <= k
    ensures Reserved(p, m, i) == k - Distance(p, m, s, t)
  {
    hide KnownAt, PlacedAt, Distinct, AddressOf;
    var e := p.stmts[i].body.amount;
    LabelKnown(p, m, i, s, e.right.right.name);
    LabelKnown(p, m, i, t, e.right.left.name);
    Difference(e.right, KnownAt(p, m, i), PlacedAt(p, m, i), AddressOf(p, m, t), AddressOf(p, m, s));
    assert EvalExpr(e.left, KnownAt(p, m, i), PlacedAt(p, m, i)) == Ok(k);
  }

  lemma Difference(e: Expr, known: Symbols, pc: int, v: int, w: int)
    requires e.Binary? && e.op == Sub && e.left.Ident? && e.right.Ident?
    requires e.left.name in known && known[e.left.name] == Some(v)
    requires e.right.name in known && known[e.right.name] == Some(w)
    ensures EvalExpr(e, known, pc) == Ok(v - w)
  {
    assert EvalExpr(e.left, known, pc) == Ok(v) && EvalExpr(e.right, known, pc) == Ok(w);
  }

  /** While statement i is placed the labels up to it have their addresses. */
  lemma LabelKnown(p: Program, m: Modes, i: nat, t: nat, x: string)
    requires Regular(p) && |m| == |p.stmts| && t <= i < |p.stmts| && LabelAt(p, t, x)
    ensures x in KnownAt(p, m, i) && KnownAt(p, m, i)[x] == Some(AddressOf(p, m, t))
  {
    PlacedSymbols(p, m, i, x);
    hide PlaceTo, AddressOf, PlacedAt;
    if t < i {
      BeginKeepsOld(PlaceTo(p, m, i), p.stmts[i], PlacedAt(p, m, i), x);
    } else {
      AddressPlaced(p, m, i);
      assert Declares(p.stmts[i], x);
      NotBefore(p, i, x);
    }
  }

  lemma NotBefore(p: Program, i: nat, x: string)
    requires Regular(p) && i < |p.stmts| && Declares(p.stmts[i], x)
    ensures x !in p.symbols && forall k :: 0 <= k < i ==> !LabelAt(p, k, x) && !ConstAt(p, k, x)
  {
    forall k | 0 <= k < i
      ensures !LabelAt(p, k, x) && !ConstAt(p, k, x)
    {
      assert !Declares(p.stmts[k], x);
    }
  }

  lemma BeginKeepsOld(l: Layout, s: Stmt, at: int, x: string)
    requires x in l.symbols
    ensures var b := Begin(l, s, at).symbols; x in b && b[x] == l.symbols[x]
  {
  }

  lemma IsWellFormed(p: Program)
    requires Shrinkable(p)
    ensures WellFormed(p) && Regular(p) && NoOrg(p)
  {
  }

  lemma LabelEval(p: Program, m: Modes, t: nat, x: string, pc: int)
    requires Regular(p) && |m| == |p.stmts| && t < |p.stmts| && LabelAt(p, t, x)
    ensures EvalExpr(Ident(x), LayoutOf(p, m).symbols, pc) == Ok(AddressOf(p, m, t))
  {
    hide LayoutOf, Regular, AddressOf;
    LabelValue(p, m, t, x);
  }

  lemma BranchDistance(p: Program, m: Modes, i: nat, t: nat)
    requires Regular(p) && |m| == |p.stmts| && i < |p.stmts|
    requires p.stmts[i].body.Insn? && p.stmts[i].body.operand.Some? && SameSegmentLabel(p, i, t, p.stmts[i].body.operand.value)
    ensures BranchFits(p.stmts[i].body.operand.value, LayoutOf(p, m).symbols, LayoutOf(p, m).address[i])
      <==> -128 <= Offset(p, m, p.stmts[i].segment, t) - Offset(p, m, p.stmts[i].segment, i) - 2 <= 127
  {
    hide LayoutOf, Distinct, Offset;
    StatementAddress(p, m, i);
    LabelEval(p, m, t, p.stmts[i].body.operand.value.name, AddressOf(p, m, i) + 1);
  }

  /** A branch that is within reach under one layout stays within reach when anything shrinks. */
  lemma BranchStaysInReach(p: Program, a: Modes, b: Modes, i: nat, t: nat)
    requires Shrinkable(p) && |a| == |p.stmts| && Below(b, a) && i < |p.stmts|
    requires p.stmts[i].body.Insn? && p.stmts[i].body.operand.Some? && SameSegmentLabel(p, i, t, p.stmts[i].body.operand.value)
    requires BranchFits(p.stmts[i].body.operand.value, LayoutOf(p, a).symbols, LayoutOf(p, a).address[i])
    requires ModeSize(b[i]) >= 2
    ensures BranchFits(p.stmts[i].body.operand.value, LayoutOf(p, b).symbols, LayoutOf(p, b).address[i])
  {
    hide LayoutOf, Shrinkable, Regular, BranchFits, Below;
    IsWellFormed(p);
    BelowLength(b, a);
    BranchDistance(p, a, i, t);
    BranchDistance(p, b, i, t);
    var g := p.stmts[i].segment;
    if t <= i {
      DistanceShrinks(p, a, b, g, t, i);
    } else {
      DistanceShrinks(p, a, b, g, i, t);
      DistanceShrinks(p, a, b, g, i + 1, t);
      InsnOffset(p, b, i);
    }
  }

  lemma InsnOffset(p: Program, m: Modes, i: nat)
    requires WellFormed(p) && |m| == |p.stmts| && i < |p.stmts| && p.stmts[i].body.Insn?
    ensures Offset(p, m, p.stmts[i].segment, i + 1) == Offset(p, m, p.stmts[i].segment, i) + ModeSize(m[i])
  {
    hide PlaceTo;
  }

  /** An operand in page zero under one layout stays there when anything shrinks. */
  lemma OperandStaysInPageZero(p: Program, a: Modes, b: Modes, e: Expr, i: nat)
    requires Shrinkable(p) && |a| == |p.stmts| && Below(b, a) && i < |p.stmts|
    requires PlainValued(p, e)
    requires PageZero(p, e, LayoutOf(p, a).symbols, LayoutOf(p, a).address[i])
    ensures PageZero(p, e, LayoutOf(p, b).symbols, LayoutOf(p, b).address[i])
  {
    hide LayoutOf, Shrinkable, Regular, Below, LabelFree, EvalExpr, Sums;
    IsWellFormed(p);
    BelowLength(b, a);
    var k, l := LayoutOf(p, a), LayoutOf(p, b);
    if Sums(p, e) {
      SumShrinks(p, a, b, e, k.address[i], l.address[i]);
    } else {
      OthersAgree(p, a, b);
      LabelFreeAgree(p, e, k.symbols, l.symbols, k.address[i], l.address[i]);
    }
  }

  lemma {:induction false} SumShrinks(p: Program, a: Modes, b: Modes, e: Expr, pc: int, pc': int)
    requires Shrinkable(p) && |a| == |p.stmts| && Below(b, a) && Sums(p, e)
    ensures WellFormed(p) && |b| == |p.stmts|
    ensures var v, w := EvalExpr(e, LayoutOf(p, a).symbols, pc), EvalExpr(e, LayoutOf(p, b).symbols, pc');
      v.Ok? && w.Ok? && 0 <= w.value <= v.value
    decreases e
  {
    hide LayoutOf, Shrinkable, Regular, Below, IsLabel;
    IsWellFormed(p);
    BelowLength(b, a);
    if e.Ident? {
      var t := LabelIndex(p, e.name);
      LabelEval(p, a, t, e.name, pc);
      LabelEval(p, b, t, e.name, pc');
      SegmentKnown(p, t);
      DistanceShrinks(p, a, b, p.stmts[t].segment, 0, t);
    } else if e.Binary? {
      SumShrinks(p, a, b, e.left, pc, pc');
      SumShrinks(p, a, b, e.right, pc, pc');
    }
  }

  lemma LabelIndex(p: Program, x: string) returns (t: nat)
    requires IsLabel(p, x)
    ensures t < |p.stmts| && LabelAt(p, t, x)
  {
    t :| 0 <= t < |p.stmts| && LabelAt(p, t, x);
  }

  lemma SegmentKnown(p: Program, t: nat)
    requires WellFormed(p) && t < |p.stmts|
    ensures p.stmts[t].segment in p.bases
  {
  }

  /** What may shrink under a layout may shrink under every later one, in the same way. */
  lemma RelaxedMonotone(p: Program, a: Modes, b: Modes, i: nat)
    requires Plain(p) && i < |p.stmts| && Below(b, a) && Below(a, InitialModes(p))
    ensures var w := InitialModes(p)[i];
      RelaxedAt(p, a, w, i) != w ==> RelaxedAt(p, b, w, i) == RelaxedAt(p, a, w, i)
  {
    hide LayoutOf, Shrinkable, Below, InitialModeOf, PlainValued, BranchFits, PageZero;
    IsWellFormed(p);
    BelowLength(b, a);
    BelowLength(a, InitialModes(p));
    var w, s := InitialModes(p)[i], p.stmts[i];
    BelowAt(b, a, i);
    BelowAt(a, InitialModes(p), i);
    assert PlainOperand(p, i);
    if RelaxedAt(p, a, w, i) != w {
      var e := s.body.operand.value;
      if w == RelLong {
        var t :| SameSegmentLabel(p, i, t, e);
        BranchStaysInReach(p, a, b, i, t);
      } else {
        OperandStaysInPageZero(p, a, b, e, i);
      }
    }
  }

  lemma BelowLength(b: Modes, a: Modes)
    requires Below(b, a)
    ensures |b| == |a|
  {
  }

  lemma BelowAt(b: Modes, a: Modes, i: nat)
    requires Below(b, a) && i < |a|
    ensures |b| == |a| && AtMost(b[i], a[i])
  {
  }

  // ----- runs -----

  /** Each statement keeps its encoding or is looked at under some layout computed so far. */
  ghost predicate MovesFrom(p: Program, ts: seq<Modes>, k: nat)
    requires WellFormed(p) && k + 1 < |ts| && forall j :: 0 <= j < |ts| ==> |ts[j]| == |p.stmts|
  {
    forall i :: 0 <= i < |p.stmts| ==> MovesAt(p, ts, k, i)
  }

  ghost predicate MovesAt(p: Program, ts: seq<Modes>, k: nat, i: nat)
    requires WellFormed(p) && k + 1 < |ts| && i < |p.stmts| && forall j :: 0 <= j < |ts| ==> |ts[j]| == |p.stmts|
  {
    ts[k + 1][i] == ts[k][i] || exists j :: 0 <= j <= k && ts[k + 1][i] == RelaxedAt(p, ts[j], ts[k][i], i)
  }

  /** Any order of relaxing: whole sweeps, one statement at a time, with current or stale layouts. */
  ghost predicate Run(p: Program, ts: seq<Modes>) {
    && WellFormed(p) && ts != [] && ts[0] == InitialModes(p)
    && (forall j :: 0 <= j < |ts| ==> |ts[j]| == |p.stmts|)
    && forall k :: 0 <= k < |ts| - 1 ==> MovesFrom(p, ts, k)
  }

  /** Encodings only ever move to their narrow form, and stay there. */
  lemma {:induction false} RunDescends(p: Program, ts: seq<Modes>, j: nat, k: nat)
    requires Run(p, ts) && j <= k < |ts|
    ensures Below(ts[k], ts[j])
  {
    if j < k {
      RunDescends(p, ts, j, k - 1);
      forall i | 0 <= i < |p.stmts|
        ensures AtMost(ts[k][i], ts[k - 1][i])
      {
        hide Relaxed, LayoutOf;
        MovesAtMost(p, ts, k - 1, i);
      }
      BelowTrans(ts[k], ts[k - 1], ts[j]);
    }
  }

  lemma MovesAtMost(p: Program, ts: seq<Modes>, k: nat, i: nat)
    requires Run(p, ts) && k + 1 < |ts| && i < |p.stmts|
    ensures AtMost(ts[k + 1][i], ts[k][i])
  {
    hide Relaxed, LayoutOf, AtMost;
    assert MovesFrom(p, ts, k) && MovesAt(p, ts, k, i);
    AtMostRefl(ts[k][i]);
    if ts[k + 1][i] != ts[k][i] {
      var j :| 0 <= j <= k && ts[k + 1][i] == RelaxedAt(p, ts[j], ts[k][i], i);
      var l := LayoutOf(p, ts[j]);
      RelaxedAtMost(p, p.stmts[i], ts[k][i], l.symbols, l.address[i]);
    }
  }

  lemma AtMostRefl(m: EmitMode)
    ensures AtMost(m, m)
  {
  }

  /** A statement that has shrunk did so under the layout of an earlier point of the run. */
  lemma {:induction false} ShrunkBy(p: Program, ts: seq<Modes>, k: nat, i: nat) returns (j: nat)
    requires Run(p, ts) && k < |ts| && i < |p.stmts| && ts[k][i] != ts[0][i]
    ensures j < k && ts[k][i] == RelaxedAt(p, ts[j], ts[0][i], i)
  {
    hide Relaxed, LayoutOf, InitialModes;
    assert MovesFrom(p, ts, k - 1) && MovesAt(p, ts, k - 1, i);
    if ts[k][i] == ts[k - 1][i] {
      j := ShrunkBy(p, ts, k - 1, i);
    } else {
      j :| 0 <= j <= k - 1 && ts[k][i] == RelaxedAt(p, ts[j], ts[k - 1][i], i);
      if ts[k - 1][i] != ts[0][i] {
        RunDescends(p, ts, 0, k - 1);
        BelowAt(ts[k - 1], ts[0], i);
        var l := LayoutOf(p, ts[j]);
        RelaxedAtMost(p, p.stmts[i], ts[k - 1][i], l.symbols, l.address[i]);
        assert false;
      }
    }
  }

  /** Decisions made under a stale layout hold under every later one: a shrunk statement would be shrunk,
      to the same form, by the layout of any later point of the run. */
  lemma StaleDecisionsHold(p: Program, ts: seq<Modes>, k: nat, later: nat, i: nat)
    requires Plain(p) && Run(p, ts) && k <= later < |ts| && i < |p.stmts| && ts[k][i] != ts[0][i]
    ensures RelaxedAt(p, ts[later], InitialModes(p)[i], i) == ts[k][i]
  {
    hide Relaxed, LayoutOf, InitialModes;
    var j := ShrunkBy(p, ts, k, i);
    RunDescends(p, ts, j, later);
    RunDescends(p, ts, 0, j);
    RelaxedMonotone(p, ts[j], ts[later], i);
  }

  /** No statement may shrink any further. */
  ghost predicate Stable(p: Program, m: Modes) {
    && WellFormed(p) && Below(m, InitialModes(p))
    && forall i :: 0 <= i < |m| ==> RelaxedAt(p, m, m[i], i) == m[i]
  }

  /** No run ever shrinks a statement that stays wide in some stable choice of encodings. */
  lemma {:induction false} StableStaysBelow(p: Program, ts: seq<Modes>, k: nat, c: Modes)
    requires Plain(p) && Run(p, ts) && k < |ts| && Stable(p, c)
    ensures Below(c, ts[k])
  {
    if k > 0 {
      forall i | 0 <= i < |p.stmts|
        ensures AtMost(c[i], ts[k][i])
      {
        hide RelaxedAt, InitialModeOf, Plain;
        BelowAt(c, InitialModes(p), i);
        if ts[k][i] != ts[0][i] {
          var j := ShrunkBy(p, ts, k, i);
          StableStaysBelow(p, ts, j, c);
          RunDescends(p, ts, 0, j);
          RunDescends(p, ts, 0, k);
          BelowAt(ts[k], ts[0], i);
          RelaxedMonotone(p, ts[j], c, i);
          if c[i] != ts[0][i] {
            NarrowsUnique(ts[0][i], c[i], ts[k][i]);
          }
        }
      }
    }
  }

  /** Order independence: every run that ends stable ends in the same encodings, the widest choice under
      which nothing may shrink. */
  lemma StableEndIsLargest(p: Program, ts: seq<Modes>, us: seq<Modes>, c: Modes)
    requires Plain(p) && Run(p, ts) && Stable(p, ts[|ts| - 1])
    ensures Stable(p, c) ==> Below(c, ts[|ts| - 1])
    ensures Run(p, us) && Stable(p, us[|us| - 1]) ==> us[|us| - 1] == ts[|ts| - 1]
  {
    hide Plain, Stable;
    if Stable(p, c) {
      StableStaysBelow(p, ts, |ts| - 1, c);
    }
    if Run(p, us) && Stable(p, us[|us| - 1]) {
      StableStaysBelow(p, ts, |ts| - 1, us[|us| - 1]);
      StableStaysBelow(p, us, |us| - 1, ts[|ts| - 1]);
      BelowBoth(us[|us| - 1], ts[|ts| - 1]);
    }
  }

  lemma BelowBoth(a: Modes, b: Modes)
    requires Below(a, b) && Below(b, a)
    ensures a == b
  {
    forall i | 0 <= i < |a|
      ensures a[i] == b[i]
    {
      assert AtMost(a[i], b[i]) && AtMost(b[i], a[i]);
    }
  }
}
