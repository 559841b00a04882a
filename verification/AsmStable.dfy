/** Which entries of the symbol table depend on the encodings, and how. */
module AsmStable {
  import opened Basics
  import opened AsmExpr
  import opened AsmConstants
  import opened AsmLayout

  /** The tables agree on every name that does not depend on labels. */
  ghost predicate Agree(p: Program, s: Symbols, t: Symbols) {
    forall x :: Steady(p, x) ==> SameAt(s, t, x)
  }

  /** A steady constant's expression mentions steady names only. */
  lemma SteadyConstant(p: Program, i: nat)
    requires i < |p.stmts| && p.stmts[i].body.Const? && Steady(p, p.stmts[i].body.name)
    ensures LabelFree(p, p.stmts[i].body.value)
  {
    var names :| Closed(p, names) && p.stmts[i].body.name in names;
    forall x | x in Idents(p.stmts[i].body.value)
      ensures Steady(p, x)
    {
      assert Closed(p, names) && x in names;
    }
  }

  lemma {:induction false} EvalAgree(e: Expr, s: Symbols, t: Symbols, pc: int, pc': int)
    requires NoPc(e) && forall x :: x in Idents(e) ==> SameAt(s, t, x)
    ensures EvalExpr(e, s, pc) == EvalExpr(e, t, pc')
  {
    match e
    case Neg(inner) => EvalAgree(inner, s, t, pc, pc');
    case Lo(inner) => EvalAgree(inner, s, t, pc, pc');
    case Hi(inner) => EvalAgree(inner, s, t, pc, pc');
    case Binary(_, l, r) => EvalAgree(l, s, t, pc, pc'); EvalAgree(r, s, t, pc, pc');
    case Ident(name) => assert name in Idents(e);
    case _ =>
  }

  lemma LabelFreeAgree(p: Program, e: Expr, s: Symbols, t: Symbols, pc: int, pc': int)
    requires LabelFree(p, e) && Agree(p, s, t)
    ensures EvalExpr(e, s, pc) == EvalExpr(e, t, pc')
  {
    EvalAgree(e, s, t, pc, pc');
  }

  /** The same constants, placed at possibly different addresses. */
  ghost predicate Aligned(p: Program, cs: seq<Constant>, ds: seq<Constant>) {
    && |cs| == |ds|
    && forall i :: 0 <= i < |cs| ==> AlignedAt(p, cs[i], ds[i])
  }

  ghost predicate AlignedAt(p: Program, c: Constant, d: Constant) {
    c.name == d.name && c.expr == d.expr && (Steady(p, c.name) ==> LabelFree(p, c.expr))
  }

  lemma VisitAgree(p: Program, c: Constant, d: Constant, s: Symbols, t: Symbols)
    requires AlignedAt(p, c, d) && Agree(p, s, t)
    ensures Agree(p, Visit(c, s), Visit(d, t))
  {
    if Steady(p, c.name) { LabelFreeAgree(p, c.expr, s, t, c.pc, d.pc); }
    hide Steady, LabelFree;
    forall x | Steady(p, x)
      ensures SameAt(Visit(c, s), Visit(d, t), x)
    {
      assert SameAt(s, t, x);
    }
  }

  lemma {:induction false} SweepToAgree(p: Program, cs: seq<Constant>, ds: seq<Constant>, s: Symbols, t: Symbols,
                                        i: nat)
    requires Aligned(p, cs, ds) && Agree(p, s, t) && i <= |cs|
    ensures Agree(p, SweepTo(cs, s, i), SweepTo(ds, t, i))
  {
    hide Agree, AlignedAt, Visit;
    if i > 0 {
      SweepToAgree(p, cs, ds, s, t, i - 1);
      VisitAgree(p, cs[i - 1], ds[i - 1], SweepTo(cs, s, i - 1), SweepTo(ds, t, i - 1));
    }
  }

  lemma {:induction false} SweepsAgree(p: Program, cs: seq<Constant>, ds: seq<Constant>, s: Symbols, t: Symbols, n: nat)
    requires Aligned(p, cs, ds) && Agree(p, s, t)
    ensures Agree(p, Sweeps(cs, s, n), Sweeps(ds, t, n))
  {
    hide Agree, Aligned, SweepTo;
    if n > 0 {
      SweepsAgree(p, cs, ds, s, t, n - 1);
      AlignedLength(p, cs, ds);
      SweepToAgree(p, cs, ds, Sweeps(cs, s, n - 1), Sweeps(ds, t, n - 1), |cs|);
    }
  }

  lemma AlignedLength(p: Program, cs: seq<Constant>, ds: seq<Constant>)
    requires Aligned(p, cs, ds)
    ensures |cs| == |ds|
  {
  }

  lemma {:induction false} ConstantsAligned(p: Program, a: seq<int>, b: seq<int>, i: nat)
    requires i <= |p.stmts| && i <= |a| && i <= |b|
    ensures Aligned(p, Constants(p, a, i), Constants(p, b, i))
    ensures forall c :: c in Constants(p, a, i) ==> exists t :: 0 <= t < i && ConstAt(p, t, c.name)
  {
    if i > 0 {
      ConstantsAligned(p, a, b, i - 1);
      hide Steady, LabelFree;
      if p.stmts[i - 1].body.Const? {
        if Steady(p, p.stmts[i - 1].body.name) { SteadyConstant(p, i - 1); }
        assert ConstAt(p, i - 1, p.stmts[i - 1].body.name);
      }
    }
  }

  // ----- names other than constants keep what the pass gave them -----

  ghost predicate NotNamed(cs: seq<Constant>, x: string) {
    forall c :: c in cs ==> c.name != x
  }

  lemma {:induction false} SweepToKeeps(cs: seq<Constant>, s: Symbols, i: nat, x: string)
    requires NotNamed(cs, x) && i <= |cs|
    ensures SameAt(SweepTo(cs, s, i), s, x)
  {
    if i > 0 {
      SweepToKeeps(cs, s, i - 1, x);
      assert cs[i - 1] in cs;
    }
  }

  lemma {:induction false} SweepsKeep(cs: seq<Constant>, s: Symbols, n: nat, x: string)
    requires NotNamed(cs, x)
    ensures SameAt(Sweeps(cs, s, n), s, x)
  {
    if n > 0 {
      SweepsKeep(cs, s, n - 1, x);
      SweepToKeeps(cs, Sweeps(cs, s, n - 1), |cs|, x);
    }
  }

  // ----- the finished table -----

  /** No constant has a label's name. */
  lemma LabelsNotConstants(p: Program, l: Layout, t: nat, x: string)
    requires Regular(p) && |l.address| == |p.stmts| && t < |p.stmts| && LabelAt(p, t, x)
    ensures NotNamed(Constants(p, l.address, |p.stmts|), x)
  {
    var cs := Constants(p, l.address, |p.stmts|);
    ConstantsAligned(p, l.address, l.address, |p.stmts|);
    forall c | c in cs
      ensures c.name != x
    {
      var k :| 0 <= k < |p.stmts| && ConstAt(p, k, c.name);
      assert Declares(p.stmts[k], c.name) && Declares(p.stmts[t], x);
    }
  }

  /** A label's value is the base of its segment plus the bytes reserved there before it. */
  lemma LabelValue(p: Program, modes: Modes, t: nat, x: string)
    requires Regular(p) && |modes| == |p.stmts| && t < |p.stmts| && LabelAt(p, t, x)
    ensures var s := LayoutOf(p, modes).symbols; x in s && s[x] == Some(AddressOf(p, modes, t))
  {
    var l := PlaceTo(p, modes, |p.stmts|);
    PlacedSymbols(p, modes, |p.stmts|, x);
    LabelsNotConstants(p, l, t, x);
    hide PlaceTo, Constants, AddressOf, Regular;
    SweepsKeep(Constants(p, l.address, |p.stmts|), l.symbols, 64, x);
  }

  lemma StatementAddress(p: Program, modes: Modes, i: nat)
    requires WellFormed(p) && NoOrg(p) && |modes| == |p.stmts| && i < |p.stmts|
    ensures LayoutOf(p, modes).address[i] == AddressOf(p, modes, i)
  {
    PlacedAddress(p, modes, |p.stmts|, i);
  }

  /** The value of a name that does not depend on labels does not depend on the encodings chosen. */
  lemma OthersAgree(p: Program, a: Modes, b: Modes)
    requires Regular(p) && |a| == |b| == |p.stmts|
    ensures Agree(p, LayoutOf(p, a).symbols, LayoutOf(p, b).symbols)
  {
    var k, l := PlaceTo(p, a, |p.stmts|), PlaceTo(p, b, |p.stmts|);
    hide PlaceTo, Regular;
    AgreeSoFar(p, a, b, |p.stmts|);
    ConstantsAligned(p, k.address, l.address, |p.stmts|);
    hide Agree;
    SweepsAgree(p, Constants(p, k.address, |p.stmts|), Constants(p, l.address, |p.stmts|), k.symbols, l.symbols, 64);
  }

  lemma AgreeSoFar(p: Program, a: Modes, b: Modes, i: nat)
    requires Regular(p) && |a| == |b| == |p.stmts| && i <= |p.stmts|
    ensures Agree(p, PlaceTo(p, a, i).symbols, PlaceTo(p, b, i).symbols)
  {
    hide PlaceTo, Distinct;
    forall x | Steady(p, x)
      ensures SameAt(PlaceTo(p, a, i).symbols, PlaceTo(p, b, i).symbols, x)
    {
      SteadyNotLabel(p, x);
      PlacedSymbols(p, a, i, x);
      PlacedSymbols(p, b, i, x);
      SameBeforeConstants(p, a, b, i, x);
    }
  }

  lemma SteadyNotLabel(p: Program, x: string)
    requires Steady(p, x)
    ensures !IsLabel(p, x)
  {
  }

  lemma SameBeforeConstants(p: Program, a: Modes, b: Modes, i: nat, x: string)
    requires WellFormed(p) && |a| == |b| == |p.stmts| && i <= |p.stmts| && !IsLabel(p, x)
    requires Knows(p, a, i, x) && Knows(p, b, i, x)
    ensures SameAt(PlaceTo(p, a, i).symbols, PlaceTo(p, b, i).symbols, x)
  {
    hide PlaceTo, AddressOf;
    if t :| 0 <= t < i && ConstAt(p, t, x) {
    } else {
    }
  }

  // ----- amounts reserved -----

  /** A value known when a statement is placed is the value in the finished table. */
  lemma ValueStays(p: Program, modes: Modes, i: nat, x: string)
    requires Regular(p) && |modes| == |p.stmts| && i < |p.stmts| && Defined(KnownAt(p, modes, i), x)
    ensures var t := LayoutOf(p, modes).symbols; Defined(t, x) && t[x] == KnownAt(p, modes, i)[x]
  {
    hide KnownAt, PlaceTo, Distinct, Constants, Sweeps;
    var n := |p.stmts|;
    KnownGrows(p, modes, i, x);
    PlacedSymbols(p, modes, n, x);
    hide Knows;
    ConstantsNotDefined(p, modes, x);
    SweepsKeep(Constants(p, PlaceTo(p, modes, n).address, n), PlaceTo(p, modes, n).symbols, 64, x);
  }

  lemma ConstantsNotDefined(p: Program, modes: Modes, x: string)
    requires WellFormed(p) && |modes| == |p.stmts| && Knows(p, modes, |p.stmts|, x)
    requires Defined(PlaceTo(p, modes, |p.stmts|).symbols, x)
    ensures NotNamed(Constants(p, PlaceTo(p, modes, |p.stmts|).address, |p.stmts|), x)
  {
    hide PlaceTo, AddressOf;
    var l := PlaceTo(p, modes, |p.stmts|);
    ConstantsAligned(p, l.address, l.address, |p.stmts|);
  }

  /** The amount a .res reserves is its expression's value under the finished table. */
  lemma AmountStays(p: Program, modes: Modes, i: nat)
    requires Clean(p, modes) && i < |p.stmts| && p.stmts[i].body.Res?
    ensures var l := LayoutOf(p, modes);
            EvalExpr(p.stmts[i].body.amount, l.symbols, l.address[i]) == Ok(Reserved(p, modes, i))
  {
    hide *;
    CleanPlaces(p, modes);
    CleanIsRegular(p, modes);
    StatementAddress(p, modes, i);
    AddressPlaced(p, modes, i);
    AmountKnown(p, modes, i);
    var e := p.stmts[i].body.amount;
    forall x | x in Idents(e) && Defined(KnownAt(p, modes, i), x)
      ensures Defined(LayoutOf(p, modes).symbols, x)
      ensures x in LayoutOf(p, modes).symbols && x in KnownAt(p, modes, i)
      ensures LayoutOf(p, modes).symbols[x] == KnownAt(p, modes, i)[x]
    {
      ValueStays(p, modes, i, x);
      DefinedSome(LayoutOf(p, modes).symbols, x);
      DefinedSome(KnownAt(p, modes, i), x);
    }
    EvalMonotone(e, KnownAt(p, modes, i), LayoutOf(p, modes).symbols, PlacedAt(p, modes, i));
  }

  lemma AddressPlaced(p: Program, modes: Modes, i: nat)
    requires WellFormed(p) && NoOrg(p) && |modes| == |p.stmts| && i < |p.stmts|
    ensures |LayoutOf(p, modes).address| == |p.stmts| && AddressOf(p, modes, i) == PlacedAt(p, modes, i)
  {
    hide PlaceTo;
    PlacedOffset(p, modes, i, p.stmts[i].segment);
  }
}
