/** Statements, and the layout that one pass over them computes. */
module AsmLayout {
  import opened Basics
  import opened AsmOpcode
  import opened AsmExpr
  import opened AsmConstants

  datatype Body =
    | Blank
    | Insn(op: Opcode, spec: ModeSpec, parsed: AddrMode, operand: Option<Expr>)
    | Bytes(exprs: seq<Expr>)
    | Words(exprs: seq<Expr>)
    | Text(bytes: seq<Byte>)
    | Asciiz(bytes: seq<Byte>)
    | Res(amount: Expr)
    | Org(target: Expr)
    | Const(name: string, value: Expr)

  datatype Stmt = Stmt(segment: string, mark: Option<string>, body: Body)

  datatype Program = Program(stmts: seq<Stmt>, bases: map<string, nat>, symbols: Symbols,
                             zpImports: set<string>, table: Table)

  /** Every segment that is used exists. */
  ghost predicate WellFormed(p: Program) {
    forall i :: 0 <= i < |p.stmts| ==> p.stmts[i].segment in p.bases
  }

  type Modes = seq<EmitMode>

  datatype Layout = Layout(address: seq<int>, pcs: map<string, nat>, symbols: Symbols, errors: nat)

  function InitialModes(p: Program): (m: Modes)
    ensures |m| == |p.stmts|
  {
    seq(|p.stmts|, i requires 0 <= i < |p.stmts| => InitialModeOf(p, p.stmts[i]))
  }

  /** An instruction without a usable addressing mode counts as one byte. */
  function InitialModeOf(p: Program, s: Stmt): EmitMode {
    if s.body.Insn? then
      match InitialMode(p.table, s.body.op, s.body.spec, s.body.parsed)
      case Some(m) => m
      case None => Implied
    else Implied
  }

  // ----- one pass -----

  function Declare(l: Layout, x: string, v: Option<int>): Layout {
    if x in l.symbols then l.(errors := l.errors + 1) else l.(symbols := l.symbols[x := v])
  }

  function Advance(l: Layout, segment: string, amount: nat): Layout
    requires segment in l.pcs
  {
    l.(pcs := l.pcs[segment := l.pcs[segment] + amount])
  }

  function Fail(l: Layout): Layout {
    l.(errors := l.errors + 1)
  }

  function Begin(l: Layout, s: Stmt, at: int): (r: Layout)
    ensures r.pcs == l.pcs && r.address == l.address + [at]
  {
    var l := l.(address := l.address + [at]);
    if s.mark.Some? then Declare(l, s.mark.value, Some(at)) else l
  }

  /** Moves the segment past the body of a statement at address `at`, or binds a constant's name. */
  function Reserve(l: Layout, s: Stmt, mode: EmitMode, base: nat, at: int): (r: Layout)
    requires s.segment in l.pcs
    ensures r.address == l.address && r.pcs.Keys == l.pcs.Keys
  {
    match s.body
    case Blank => l
    case Insn(_, _, _, _) => Advance(l, s.segment, ModeSize(mode))
    case Bytes(es) => Advance(l, s.segment, |es|)
    case Words(es) => Advance(l, s.segment, 2 * |es|)
    case Text(bs) => Advance(l, s.segment, |bs|)
    case Asciiz(bs) => Advance(l, s.segment, |bs| + 1)
    case Const(x, _) => Declare(l, x, None)
    case Res(e) =>
      (match EvalExpr(e, l.symbols, at)
       case Ok(v) => if v < 0 then Fail(l) else Advance(l, s.segment, v)
       case _ => Fail(l))
    case Org(e) =>
      (match EvalExpr(e, l.symbols, at)
       case Ok(v) => if v < base then Fail(l) else l.(pcs := l.pcs[s.segment := v - base])
       case _ => Fail(l))
  }

  /** The layout after one more statement, in a segment starting at base. */
  function Place(l: Layout, s: Stmt, mode: EmitMode, base: nat): (r: Layout)
    requires s.segment in l.pcs
    ensures r.address == l.address + [base + l.pcs[s.segment]] && r.pcs.Keys == l.pcs.Keys
  {
    var at := base + l.pcs[s.segment];
    Reserve(Begin(l, s, at), s, mode, base, at)
  }

  function PlaceTo(p: Program, modes: Modes, i: nat): (l: Layout)
    requires WellFormed(p) && |modes| == |p.stmts| && i <= |p.stmts|
    ensures |l.address| == i && l.pcs.Keys == p.bases.Keys
  {
    if i == 0 then Layout([], map s | s in p.bases :: 0, p.symbols, 0)
    else Place(PlaceTo(p, modes, i - 1), p.stmts[i - 1], modes[i - 1], p.bases[p.stmts[i - 1].segment])
  }

  /** The constants of the first i statements, each with the address of its statement. */
  function Constants(p: Program, address: seq<int>, i: nat): (cs: seq<Constant>)
    requires i <= |p.stmts| && i <= |address|
  {
    if i == 0 then []
    else if p.stmts[i - 1].body.Const? then
      Constants(p, address, i - 1) + [Constant(p.stmts[i - 1].body.name, p.stmts[i - 1].body.value, address[i - 1])]
    else Constants(p, address, i - 1)
  }

  /** The table after the constants' sweeps; each constant that is still stuck is an error. */
  function Resolved(p: Program, l: Layout): (r: Layout)
    requires |l.address| == |p.stmts|
    ensures r.address == l.address && r.pcs == l.pcs
  {
    var cs := Constants(p, l.address, |p.stmts|);
    var t := Sweeps(cs, l.symbols, 64);
    l.(symbols := t, errors := l.errors + StuckCount(cs, t, |cs|))
  }

  /** A whole pass: statements in order, then the constants. */
  function LayoutOf(p: Program, modes: Modes): (l: Layout)
    requires WellFormed(p) && |modes| == |p.stmts|
    ensures |l.address| == |p.stmts|
  {
    Resolved(p, PlaceTo(p, modes, |p.stmts|))
  }

  /** No address is negative. */
  lemma {:induction false} AddressesNatural(p: Program, modes: Modes, i: nat, k: nat)
    requires WellFormed(p) && |modes| == |p.stmts| && k < i <= |p.stmts|
    ensures 0 <= PlaceTo(p, modes, i).address[k]
  {
    hide Place;
    if k < i - 1 { AddressesNatural(p, modes, i - 1, k); }
  }

  // ----- programs whose layout has a closed form -----

  predicate IsLabel(p: Program, x: string) {
    exists i :: 0 <= i < |p.stmts| && LabelAt(p, i, x)
  }

  predicate LabelAt(p: Program, i: nat, x: string)
    requires i < |p.stmts|
  {
    p.stmts[i].mark == Some(x)
  }

  predicate Declares(s: Stmt, x: string) {
    s.mark == Some(x) || (s.body.Const? && s.body.name == x)
  }

  /** No name is declared twice or predefined. */
  ghost predicate Distinct(p: Program) {
    && (forall i, x :: 0 <= i < |p.stmts| && Declares(p.stmts[i], x) ==> x !in p.symbols)
    && (forall i, j, x :: 0 <= i < j < |p.stmts| && Declares(p.stmts[i], x) ==> !Declares(p.stmts[j], x))
    && (forall i :: 0 <= i < |p.stmts| && p.stmts[i].body.Const? ==> p.stmts[i].mark != Some(p.stmts[i].body.name))
  }

  predicate NoPc(e: Expr) {
    match e
    case Pc => false
    case Neg(x) => NoPc(x)
    case Lo(x) => NoPc(x)
    case Hi(x) => NoPc(x)
    case Binary(_, l, r) => NoPc(l) && NoPc(r)
    case _ => true
  }

  /** A set of names that are no labels and, where they are constants, are defined by one another. */
  ghost predicate Closed(p: Program, names: set<string>) {
    && (forall x :: x in names ==> !IsLabel(p, x))
    && forall i :: 0 <= i < |p.stmts| && p.stmts[i].body.Const? && p.stmts[i].body.name in names ==>
         NoPc(p.stmts[i].body.value) && Idents(p.stmts[i].body.value) <= names
  }

  /** Neither a label nor a constant that depends on one, directly or through other constants. */
  ghost predicate Steady(p: Program, x: string) {
    exists names :: Closed(p, names) && x in names
  }

  /** The expression's value cannot depend on where anything is placed. */
  ghost predicate LabelFree(p: Program, e: Expr) {
    NoPc(e) && forall x :: x in Idents(e) ==> Steady(p, x)
  }

  predicate NoOrg(p: Program) {
    forall i :: 0 <= i < |p.stmts| ==> !p.stmts[i].body.Org?
  }

  /** Each name declared once, and no .org. */
  ghost predicate Regular(p: Program) {
    WellFormed(p) && Distinct(p) && NoOrg(p)
  }

  /** Bytes a statement's body takes at an address, under the names known there. */
  function BodySize(s: Stmt, mode: EmitMode, symbols: Symbols, at: int): nat {
    match s.body
    case Insn(_, _, _, _) => ModeSize(mode)
    case Bytes(es) => |es|
    case Words(es) => 2 * |es|
    case Text(bs) => |bs|
    case Asciiz(bs) => |bs| + 1
    case Res(e) => (match EvalExpr(e, symbols, at) case Ok(v) => if v < 0 then 0 else v case _ => 0)
    case _ => 0
  }

  /** Where the pass places statement i. */
  function PlacedAt(p: Program, modes: Modes, i: nat): nat
    requires WellFormed(p) && |modes| == |p.stmts| && i < |p.stmts|
  {
    p.bases[p.stmts[i].segment] + PlaceTo(p, modes, i).pcs[p.stmts[i].segment]
  }

  /** The names known when the pass comes to the body of statement i. */
  function KnownAt(p: Program, modes: Modes, i: nat): Symbols
    requires WellFormed(p) && |modes| == |p.stmts| && i < |p.stmts|
  {
    Begin(PlaceTo(p, modes, i), p.stmts[i], PlacedAt(p, modes, i)).symbols
  }

  /** Bytes the pass reserves for statement i. */
  function Reserved(p: Program, modes: Modes, i: nat): nat
    requires WellFormed(p) && |modes| == |p.stmts| && i < |p.stmts|
  {
    BodySize(p.stmts[i], modes[i], KnownAt(p, modes, i), PlacedAt(p, modes, i))
  }

  /** Bytes reserved in a segment by the first i statements. */
  function Offset(p: Program, modes: Modes, segment: string, i: nat): nat
    requires WellFormed(p) && |modes| == |p.stmts| && i <= |p.stmts|
  {
    if i == 0 then 0
    else Offset(p, modes, segment, i - 1) + (if p.stmts[i - 1].segment == segment then Reserved(p, modes, i - 1) else 0)
  }

  function AddressOf(p: Program, modes: Modes, i: nat): nat
    requires WellFormed(p) && |modes| == |p.stmts| && i < |p.stmts|
  {
    p.bases[p.stmts[i].segment] + Offset(p, modes, p.stmts[i].segment, i)
  }

  /** Without .org a statement takes its size from its segment and touches no other. */
  lemma PlaceAdvances(l: Layout, s: Stmt, mode: EmitMode, base: nat, g: string)
    requires s.segment in l.pcs && !s.body.Org? && g in l.pcs
    ensures var r, at := Place(l, s, mode, base), base + l.pcs[s.segment];
      && g in r.pcs
      && r.pcs[g] == l.pcs[g] + (if g == s.segment then BodySize(s, mode, Begin(l, s, at).symbols, at) else 0)
  {
    hide Begin, Reserve, BodySize;
    var at := base + l.pcs[s.segment];
    ReserveAdvances(Begin(l, s, at), s, mode, base, at, g);
  }

  lemma ReserveAdvances(l: Layout, s: Stmt, mode: EmitMode, base: nat, at: int, g: string)
    requires s.segment in l.pcs && !s.body.Org? && g in l.pcs
    ensures var r := Reserve(l, s, mode, base, at);
      && g in r.pcs && r.pcs[g] == l.pcs[g] + (if g == s.segment then BodySize(s, mode, l.symbols, at) else 0)
  {
    hide ModeSize, EvalExpr;
  }

  lemma {:induction false} PlacedOffset(p: Program, modes: Modes, i: nat, g: string)
    requires WellFormed(p) && NoOrg(p) && |modes| == |p.stmts| && i <= |p.stmts| && g in p.bases
    ensures PlaceTo(p, modes, i).pcs[g] == Offset(p, modes, g, i)
  {
    hide Place, Begin, BodySize;
    if i > 0 {
      PlacedOffset(p, modes, i - 1, g);
      PlaceAdvances(PlaceTo(p, modes, i - 1), p.stmts[i - 1], modes[i - 1], p.bases[p.stmts[i - 1].segment], g);
    }
  }

  lemma PlaceToNext(p: Program, modes: Modes, i: nat)
    requires WellFormed(p) && |modes| == |p.stmts| && 0 < i <= |p.stmts|
    ensures var l := PlaceTo(p, modes, i - 1); var s := p.stmts[i - 1];
      && PlaceTo(p, modes, i) == Place(l, s, modes[i - 1], p.bases[s.segment])
      && PlaceTo(p, modes, i).address == l.address + [p.bases[s.segment] + l.pcs[s.segment]]
  {
  }

  /** Without .org a statement's address is the base of its segment plus what the statements before it reserve there. */
  lemma {:induction false} PlacedAddress(p: Program, modes: Modes, i: nat, k: nat)
    requires WellFormed(p) && NoOrg(p) && |modes| == |p.stmts| && k < i <= |p.stmts|
    ensures PlaceTo(p, modes, i).address[k] == AddressOf(p, modes, k)
  {
    hide PlaceTo, Place, Offset;
    PlaceToNext(p, modes, i);
    if k < i - 1 {
      PlacedAddress(p, modes, i - 1, k);
    } else {
      PlacedOffset(p, modes, k, p.stmts[k].segment);
    }
  }

  /** What placing one statement does to the entry of a name. */
  lemma PlaceEntry(l: Layout, s: Stmt, mode: EmitMode, base: nat, x: string)
    requires s.segment in l.pcs && (s.body.Const? ==> s.mark != Some(s.body.name))
    requires Declares(s, x) ==> x !in l.symbols
    ensures var t := Place(l, s, mode, base).symbols;
      if s.mark == Some(x) then x in t && t[x] == Some(base + l.pcs[s.segment])
      else if Declares(s, x) then x in t && t[x].None?
      else SameAt(l.symbols, t, x)
  {
  }

  predicate SameAt(s: Symbols, t: Symbols, x: string) {
    (x in s <==> x in t) && (x in s ==> s[x] == t[x])
  }

  /** What the symbol table says about x after i statements. */
  ghost predicate Knows(p: Program, modes: Modes, i: nat, x: string)
    requires WellFormed(p) && |modes| == |p.stmts| && i <= |p.stmts|
  {
    var s := PlaceTo(p, modes, i).symbols;
    && (forall t :: 0 <= t < i && LabelAt(p, t, x) ==> x in s && s[x] == Some(AddressOf(p, modes, t)))
    && (forall t :: 0 <= t < i && ConstAt(p, t, x) ==> x in s && s[x].None?)
    && ((forall t :: 0 <= t < i ==> !LabelAt(p, t, x) && !ConstAt(p, t, x)) ==> SameAt(s, p.symbols, x))
  }

  predicate ConstAt(p: Program, i: nat, x: string)
    requires i < |p.stmts|
  {
    p.stmts[i].body.Const? && p.stmts[i].body.name == x
  }

  lemma {:induction false} PlacedSymbols(p: Program, modes: Modes, i: nat, x: string)
    requires Regular(p) && |modes| == |p.stmts| && i <= |p.stmts|
    ensures Knows(p, modes, i, x)
  {
    if i == 0 {
    } else {
      PlacedSymbols(p, modes, i - 1, x);
      PlacedStep(p, modes, i, x);
    }
  }

  lemma PlacedStep(p: Program, modes: Modes, i: nat, x: string)
    requires Regular(p) && |modes| == |p.stmts| && 0 < i <= |p.stmts|
    requires Knows(p, modes, i - 1, x)
    ensures Knows(p, modes, i, x)
  {
    hide PlaceTo, Place, Offset;
    var s, l := p.stmts[i - 1], PlaceTo(p, modes, i - 1);
    PlacedOffset(p, modes, i - 1, s.segment);
    PlaceToNext(p, modes, i);
    if Declares(s, x) {
      assert forall t :: 0 <= t < i - 1 ==> !Declares(p.stmts[t], x);
    }
    assert Declares(s, x) <==> LabelAt(p, i - 1, x) || ConstAt(p, i - 1, x);
    PlaceEntry(l, s, modes[i - 1], p.bases[s.segment], x);
  }

  // ----- passes without errors -----

  /** A pass over a program without .org that reports nothing. */
  ghost predicate Clean(p: Program, modes: Modes) {
    WellFormed(p) && |modes| == |p.stmts| && NoOrg(p) && LayoutOf(p, modes).errors == 0
  }

  /** What is in the table stays as it is while statements are placed. */
  lemma PlaceKeeps(l: Layout, s: Stmt, mode: EmitMode, base: nat, x: string)
    requires s.segment in l.pcs && x in l.symbols
    ensures var b, r := Begin(l, s, base + l.pcs[s.segment]).symbols, Place(l, s, mode, base).symbols;
      x in b && b[x] == l.symbols[x] && x in r && r[x] == l.symbols[x]
  {
    hide EvalExpr;
  }

  lemma BeginKeeps(l: Layout, s: Stmt, mode: EmitMode, base: nat, x: string)
    requires s.segment in l.pcs && x in Begin(l, s, base + l.pcs[s.segment]).symbols
    ensures var b, r := Begin(l, s, base + l.pcs[s.segment]).symbols, Place(l, s, mode, base).symbols;
      x in r && r[x] == b[x]
  {
    hide EvalExpr;
  }

  /** A statement placed without an error declares only new names, and has a size if it is a .res. */
  ghost predicate Succeeded(l: Layout, s: Stmt, r: Layout, base: nat)
    requires s.segment in l.pcs
  {
    && (s.body.Const? ==> s.mark != Some(s.body.name))
    && (forall x :: Declares(s, x) ==> x !in l.symbols && x in r.symbols)
    && (s.body.Res? ==>
         var at := base + l.pcs[s.segment];
         var v := EvalExpr(s.body.amount, Begin(l, s, at).symbols, at); v.Ok? && v.value >= 0)
  }

  lemma PlaceSucceeds(l: Layout, s: Stmt, mode: EmitMode, base: nat)
    requires s.segment in l.pcs && Place(l, s, mode, base).errors == 0
    ensures l.errors == 0 && Succeeded(l, s, Place(l, s, mode, base), base)
  {
    hide EvalExpr;
  }

  lemma {:induction false} NoErrorBefore(p: Program, modes: Modes, i: nat, n: nat)
    requires WellFormed(p) && |modes| == |p.stmts| && i <= n <= |p.stmts| && PlaceTo(p, modes, n).errors == 0
    ensures PlaceTo(p, modes, i).errors == 0
  {
    hide Place;
    if i < n {
      PlaceSucceeds(PlaceTo(p, modes, n - 1), p.stmts[n - 1], modes[n - 1], p.bases[p.stmts[n - 1].segment]);
      NoErrorBefore(p, modes, i, n - 1);
    }
  }

  lemma {:induction false} TableGrows(p: Program, modes: Modes, i: nat, n: nat, x: string)
    requires WellFormed(p) && |modes| == |p.stmts| && i <= n <= |p.stmts| && x in PlaceTo(p, modes, i).symbols
    ensures x in PlaceTo(p, modes, n).symbols && PlaceTo(p, modes, n).symbols[x] == PlaceTo(p, modes, i).symbols[x]
  {
    hide Place;
    if i < n {
      TableGrows(p, modes, i, n - 1, x);
      PlaceKeeps(PlaceTo(p, modes, n - 1), p.stmts[n - 1], modes[n - 1], p.bases[p.stmts[n - 1].segment], x);
    }
  }

  lemma StatementPlaced(p: Program, modes: Modes, i: nat)
    requires WellFormed(p) && |modes| == |p.stmts| && i < |p.stmts| && PlaceTo(p, modes, |p.stmts|).errors == 0
    ensures var s, l := p.stmts[i], PlaceTo(p, modes, i);
      s.segment in p.bases && s.segment in l.pcs && Succeeded(l, s, PlaceTo(p, modes, i + 1), p.bases[s.segment])
  {
    hide Place, PlaceTo, Succeeded;
    NoErrorBefore(p, modes, i + 1, |p.stmts|);
    PlaceToNext(p, modes, i + 1);
    PlaceSucceeds(PlaceTo(p, modes, i), p.stmts[i], modes[i], p.bases[p.stmts[i].segment]);
  }

  /** A .res placed without an error has an amount that is known where it stands. */
  lemma AmountKnown(p: Program, modes: Modes, i: nat)
    requires WellFormed(p) && |modes| == |p.stmts| && i < |p.stmts| && PlaceTo(p, modes, |p.stmts|).errors == 0
    requires p.stmts[i].body.Res?
    ensures EvalExpr(p.stmts[i].body.amount, KnownAt(p, modes, i), PlacedAt(p, modes, i)) == Ok(Reserved(p, modes, i))
  {
    hide PlaceTo, EvalExpr, Begin;
    StatementPlaced(p, modes, i);
  }

  /** What is known at a statement stays known while the others are placed. */
  lemma KnownGrows(p: Program, modes: Modes, i: nat, x: string)
    requires WellFormed(p) && |modes| == |p.stmts| && i < |p.stmts| && x in KnownAt(p, modes, i)
    ensures var t := PlaceTo(p, modes, |p.stmts|).symbols; x in t && t[x] == KnownAt(p, modes, i)[x]
  {
    hide PlaceTo, Begin, Place;
    BeginKeeps(PlaceTo(p, modes, i), p.stmts[i], modes[i], p.bases[p.stmts[i].segment], x);
    PlaceToNext(p, modes, i + 1);
    TableGrows(p, modes, i + 1, |p.stmts|, x);
  }

  /** Of a pass without errors: the i-th statement's names are new, also to the statements before it. */
  lemma NamesAreNew(p: Program, modes: Modes, i: nat, x: string)
    requires WellFormed(p) && |modes| == |p.stmts| && i < |p.stmts| && PlaceTo(p, modes, |p.stmts|).errors == 0
    requires Declares(p.stmts[i], x)
    ensures x !in PlaceTo(p, modes, i).symbols && x in PlaceTo(p, modes, i + 1).symbols
    ensures p.stmts[i].body.Const? ==> p.stmts[i].mark != Some(p.stmts[i].body.name)
  {
    hide PlaceTo, EvalExpr, Declares;
    StatementPlaced(p, modes, i);
  }

  /** A pass without errors has met every name once. */
  lemma CleanIsRegular(p: Program, modes: Modes)
    requires Clean(p, modes)
    ensures Regular(p)
  {
    CleanPlaces(p, modes);
    hide *;
    DistinctIf(p, modes);
    RegularIf(p);
  }

  lemma CleanPlaces(p: Program, modes: Modes)
    requires Clean(p, modes)
    ensures WellFormed(p) && NoOrg(p) && |modes| == |p.stmts| && PlaceTo(p, modes, |p.stmts|).errors == 0
  {
    hide PlaceTo, Sweeps;
  }

  lemma RegularIf(p: Program)
    requires WellFormed(p) && Distinct(p) && NoOrg(p)
    ensures Regular(p)
  {
  }

  lemma DistinctIf(p: Program, modes: Modes)
    requires WellFormed(p) && |modes| == |p.stmts| && PlaceTo(p, modes, |p.stmts|).errors == 0
    ensures Distinct(p)
  {
    hide PlaceTo, WellFormed, Declares;
    PlaceToStart(p, modes);
    forall i, x | 0 <= i < |p.stmts| && Declares(p.stmts[i], x)
      ensures x !in p.symbols
    {
      NamesAreNew(p, modes, i, x);
      if x in p.symbols { TableGrows(p, modes, 0, i, x); }
    }
    forall i, j, x | 0 <= i < j < |p.stmts| && Declares(p.stmts[i], x)
      ensures !Declares(p.stmts[j], x)
    {
      NamesAreNew(p, modes, i, x);
      TableGrows(p, modes, i + 1, j, x);
      if Declares(p.stmts[j], x) { NamesAreNew(p, modes, j, x); }
    }
    forall i | 0 <= i < |p.stmts| && p.stmts[i].body.Const?
      ensures p.stmts[i].mark != Some(p.stmts[i].body.name)
    {
      ConstDeclares(p.stmts[i]);
      NamesAreNew(p, modes, i, p.stmts[i].body.name);
    }
  }

  lemma ConstDeclares(s: Stmt)
    requires s.body.Const?
    ensures Declares(s, s.body.name)
  {
  }

  lemma PlaceToStart(p: Program, modes: Modes)
    requires WellFormed(p) && |modes| == |p.stmts|
    ensures PlaceTo(p, modes, 0).symbols == p.symbols
  {
  }
}
