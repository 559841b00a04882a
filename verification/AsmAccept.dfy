/** Exactly which programs a layout pass accepts, and what .org does. */
module AsmAccept {
  import opened Basics
  import opened AsmOpcode
  import opened AsmExpr
  import opened AsmConstants
  import opened AsmLayout

  /** The value of an expression where the body of statement i is come to. */
  function Met(p: Program, modes: Modes, i: nat, e: Expr): Eval
    requires WellFormed(p) && |modes| == |p.stmts| && i < |p.stmts|
  {
    EvalExpr(e, KnownAt(p, modes, i), PlacedAt(p, modes, i))
  }

  /** A .res asks for a known number of bytes, a .org for a known address not below its segment. */
  ghost predicate Possible(p: Program, modes: Modes, i: nat)
    requires WellFormed(p) && |modes| == |p.stmts| && i < |p.stmts|
  {
    match p.stmts[i].body
    case Res(e) => Met(p, modes, i, e).Ok? && Met(p, modes, i, e).value >= 0
    case Org(e) => Met(p, modes, i, e).Ok? && Met(p, modes, i, e).value >= p.bases[p.stmts[i].segment]
    case _ => true
  }

  ghost predicate NewNames(l: Layout, s: Stmt) {
    && (forall x :: Declares(s, x) ==> x !in l.symbols)
    && (s.body.Const? ==> s.mark != Some(s.body.name))
  }

  lemma BeginErrs(l: Layout, s: Stmt, at: int)
    ensures var r := Begin(l, s, at);
      && r.errors == l.errors + (if s.mark.Some? && s.mark.value in l.symbols then 1 else 0)
      && forall x :: x in r.symbols <==> x in l.symbols || s.mark == Some(x)
  {
  }

  ghost predicate ReservesWell(l: Layout, s: Stmt, base: nat, at: int) {
    match s.body
    case Res(e) => EvalExpr(e, l.symbols, at).Ok? && EvalExpr(e, l.symbols, at).value >= 0
    case Org(e) => EvalExpr(e, l.symbols, at).Ok? && EvalExpr(e, l.symbols, at).value >= base
    case Const(x, _) => x !in l.symbols
    case _ => true
  }

  lemma ReserveErrs(l: Layout, s: Stmt, mode: EmitMode, base: nat, at: int)
    requires s.segment in l.pcs
    ensures Reserve(l, s, mode, base, at).errors == l.errors + (if ReservesWell(l, s, base, at) then 0 else 1)
  {
    hide EvalExpr, ModeSize;
  }

  lemma NewNamesAre(l: Layout, s: Stmt)
    ensures NewNames(l, s) <==>
      && (s.mark.Some? ==> s.mark.value !in l.symbols)
      && (s.body.Const? ==> s.body.name !in l.symbols && s.mark != Some(s.body.name))
  {
    assert s.mark.Some? ==> Declares(s, s.mark.value);
    assert s.body.Const? ==> Declares(s, s.body.name);
  }

  /** One statement adds an error unless its names are new and what it asks for is possible. */
  lemma OneErrorLess(l: Layout, s: Stmt, mode: EmitMode, base: nat)
    requires s.segment in l.pcs
    ensures var at := base + l.pcs[s.segment];
      var known := Begin(l, s, at).symbols;
      var possible := match s.body
        case Res(e) => EvalExpr(e, known, at).Ok? && EvalExpr(e, known, at).value >= 0
        case Org(e) => EvalExpr(e, known, at).Ok? && EvalExpr(e, known, at).value >= base
        case _ => true;
      && Place(l, s, mode, base).errors >= l.errors
      && (Place(l, s, mode, base).errors == l.errors <==> NewNames(l, s) && possible)
  {
    hide EvalExpr, ModeSize, Begin, Reserve, NewNames;
    var at := base + l.pcs[s.segment];
    BeginErrs(l, s, at);
    ReserveErrs(Begin(l, s, at), s, mode, base, at);
    NewNamesAre(l, s);
  }

  lemma OneErrorAt(p: Program, modes: Modes, i: nat)
    requires WellFormed(p) && |modes| == |p.stmts| && i < |p.stmts|
    ensures PlaceTo(p, modes, i + 1).errors >= PlaceTo(p, modes, i).errors
    ensures PlaceTo(p, modes, i + 1).errors == PlaceTo(p, modes, i).errors
      <==> NewNames(PlaceTo(p, modes, i), p.stmts[i]) && Possible(p, modes, i)
  {
    hide EvalExpr, PlaceTo, Place, Begin, NewNames;
    PlaceToNext(p, modes, i + 1);
    OneErrorLess(PlaceTo(p, modes, i), p.stmts[i], modes[i], p.bases[p.stmts[i].segment]);
  }

  /** The table holds what it held before the pass and what has been declared. */
  lemma {:induction false} TableHas(p: Program, modes: Modes, i: nat, x: string)
    requires WellFormed(p) && |modes| == |p.stmts| && i <= |p.stmts| && x in PlaceTo(p, modes, i).symbols
    ensures x in p.symbols || exists k :: 0 <= k < i && Declares(p.stmts[k], x)
  {
    if i > 0 {
      var l, s := PlaceTo(p, modes, i - 1), p.stmts[i - 1];
      hide Declares, EvalExpr;
      PlacedNames(l, s, modes[i - 1], p.bases[s.segment], x);
      hide PlaceTo, Place;
      PlaceToNext(p, modes, i);
      if x in l.symbols { TableHas(p, modes, i - 1, x); }
    }
  }

  lemma PlacedNames(l: Layout, s: Stmt, mode: EmitMode, base: nat, x: string)
    requires s.segment in l.pcs
    ensures x in Place(l, s, mode, base).symbols ==> x in l.symbols || Declares(s, x)
  {
    hide EvalExpr;
  }

  lemma {:induction false} PlacesWithoutError(p: Program, modes: Modes, n: nat)
    requires WellFormed(p) && |modes| == |p.stmts| && n <= |p.stmts|
    ensures PlaceTo(p, modes, n).errors == 0
      <==> forall i :: 0 <= i < n ==> NewNames(PlaceTo(p, modes, i), p.stmts[i]) && Possible(p, modes, i)
  {
    hide PlaceTo, NewNames, Possible;
    if n > 0 {
      PlacesWithoutError(p, modes, n - 1);
      OneErrorAt(p, modes, n - 1);
    } else {
      NothingWrong(p, modes);
    }
  }

  lemma NothingWrong(p: Program, modes: Modes)
    requires WellFormed(p) && |modes| == |p.stmts|
    ensures PlaceTo(p, modes, 0).errors == 0
  {
  }

  lemma DistinctAreNew(p: Program, modes: Modes, i: nat)
    requires WellFormed(p) && Distinct(p) && |modes| == |p.stmts| && i < |p.stmts|
    ensures NewNames(PlaceTo(p, modes, i), p.stmts[i])
  {
    forall x | Declares(p.stmts[i], x)
      ensures x !in PlaceTo(p, modes, i).symbols
    {
      hide PlaceTo, Declares;
      if x in PlaceTo(p, modes, i).symbols { TableHas(p, modes, i, x); }
    }
    hide PlaceTo;
  }

  lemma {:induction false} NoneStuck(cs: seq<Constant>, t: Symbols, n: nat)
    requires n <= |cs|
    ensures StuckCount(cs, t, n) == 0 <==> forall i :: 0 <= i < n ==> !Stuck(cs[i], t)
  {
    hide Stuck;
    if n > 0 { NoneStuck(cs, t, n - 1); }
  }

  /** Every constant has a value or an expression that has one. */
  ghost predicate ConstantsKnown(p: Program, modes: Modes)
    requires WellFormed(p) && |modes| == |p.stmts|
  {
    var l := LayoutOf(p, modes);
    forall i :: 0 <= i < |p.stmts| && p.stmts[i].body.Const? ==>
      Defined(l.symbols, p.stmts[i].body.name) || EvalExpr(p.stmts[i].body.value, l.symbols, l.address[i]).Ok?
  }

  lemma {:induction false} NoneStuckAmong(p: Program, address: seq<int>, t: Symbols, n: nat)
    requires n <= |p.stmts| == |address|
    ensures (forall c :: c in Constants(p, address, n) ==> !Stuck(c, t))
      <==> forall i :: 0 <= i < n && p.stmts[i].body.Const? ==> !Stuck(Constant(p.stmts[i].body.name, p.stmts[i].body.value, address[i]), t)
  {
    hide Stuck;
    if n > 0 {
      NoneStuckAmong(p, address, t, n - 1);
      var before, body := Constants(p, address, n - 1), p.stmts[n - 1].body;
      if body.Const? {
        assert Constants(p, address, n) == before + [Constant(body.name, body.value, address[n - 1])];
        assert Constant(body.name, body.value, address[n - 1]) in Constants(p, address, n);
      } else {
        assert Constants(p, address, n) == before;
      }
    }
  }

  lemma ResolvedWithoutError(p: Program, modes: Modes)
    requires WellFormed(p) && |modes| == |p.stmts|
    ensures LayoutOf(p, modes).errors == 0 <==> PlaceTo(p, modes, |p.stmts|).errors == 0 && ConstantsKnown(p, modes)
  {
    var l := PlaceTo(p, modes, |p.stmts|);
    var cs := Constants(p, l.address, |p.stmts|);
    var t := Sweeps(cs, l.symbols, 64);
    assert LayoutOf(p, modes) == l.(symbols := t, errors := l.errors + StuckCount(cs, t, |cs|));
    NoneStuck(cs, t, |cs|);
    NoneStuckAmong(p, l.address, t, |p.stmts|);
    hide PlaceTo, Constants, Sweeps, StuckCount, LayoutOf;
    assert (forall i :: 0 <= i < |cs| ==> !Stuck(cs[i], t)) <==> forall c :: c in cs ==> !Stuck(c, t);
  }

  /** A pass reports no error exactly when every name is declared once, every .res and .org asks for something possible,
      and no constant is stuck. */
  lemma CleanIff(p: Program, modes: Modes)
    requires WellFormed(p) && |modes| == |p.stmts|
    ensures LayoutOf(p, modes).errors == 0
      <==> Distinct(p) && (forall i :: 0 <= i < |p.stmts| ==> Possible(p, modes, i)) && ConstantsKnown(p, modes)
  {
    hide *;
    ResolvedWithoutError(p, modes);
    PlacesWithoutError(p, modes, |p.stmts|);
    if PlaceTo(p, modes, |p.stmts|).errors == 0 { DistinctIf(p, modes); }
    if Distinct(p) {
      forall i | 0 <= i < |p.stmts|
        ensures NewNames(PlaceTo(p, modes, i), p.stmts[i])
      {
        DistinctAreNew(p, modes, i);
      }
    }
  }

  /** After a .org that is possible its segment goes on at the address named, and every other segment where it was; one
      that is not possible moves nothing. */
  lemma OrgMoves(p: Program, modes: Modes, i: nat, g: string)
    requires WellFormed(p) && |modes| == |p.stmts| && i < |p.stmts| && p.stmts[i].body.Org? && g in p.bases
    ensures g in PlaceTo(p, modes, i).pcs && g in PlaceTo(p, modes, i + 1).pcs && p.stmts[i].segment in p.bases
    ensures var before, after := PlaceTo(p, modes, i).pcs[g], PlaceTo(p, modes, i + 1).pcs[g];
      if g == p.stmts[i].segment && Possible(p, modes, i) then p.bases[g] + after == Met(p, modes, i, p.stmts[i].body.target).value
      else after == before
  {
    hide PlaceTo, Place, EvalExpr, Begin;
    PlaceToNext(p, modes, i + 1);
    OrgOne(PlaceTo(p, modes, i), p.stmts[i], modes[i], p.bases[p.stmts[i].segment], g);
  }

  lemma OrgOne(l: Layout, s: Stmt, mode: EmitMode, base: nat, g: string)
    requires s.segment in l.pcs && s.body.Org? && g in l.pcs
    ensures var at := base + l.pcs[s.segment];
      var v, r := EvalExpr(s.body.target, Begin(l, s, at).symbols, at), Place(l, s, mode, base);
      && g in r.pcs
      && (if g == s.segment && v.Ok? && v.value >= base then base + r.pcs[g] == v.value else r.pcs[g] == l.pcs[g])
  {
    hide EvalExpr, ModeSize;
  }

  /** Bytes of every kind of statement but those two, as the pass takes them. */
  lemma SizeTaken(p: Program, modes: Modes, i: nat)
    requires WellFormed(p) && |modes| == |p.stmts| && i < |p.stmts|
    ensures match p.stmts[i].body
      case Insn(_, _, _, _) => Reserved(p, modes, i) == ModeSize(modes[i])
      case Bytes(es) => Reserved(p, modes, i) == |es|
      case Words(es) => Reserved(p, modes, i) == |es| + |es|
      case Text(bs) => Reserved(p, modes, i) == |bs|
      case Asciiz(bs) => Reserved(p, modes, i) == |bs + [0]|
      case Res(e) => Possible(p, modes, i) ==> Met(p, modes, i, e) == Ok(Reserved(p, modes, i))
      case _ => Reserved(p, modes, i) == 0
  {
    hide KnownAt, PlacedAt, EvalExpr;
  }
}
