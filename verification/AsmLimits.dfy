/** Programs that shrinking does not settle. */
module AsmLimits {
  import opened Basics
  import opened AsmOpcode
  import opened AsmExpr
  import opened AsmConstants
  import opened AsmLayout
  import opened AsmStable
  import opened AsmRelax
  import opened Assembler
  import opened AsmEmit
  import opened AsmImage

  predicate IsBranchMode(m: EmitMode) {
    m == Rel || m == RelLong
  }

  // ----- branches that shrink one after another -----

  /** Different numbers have different names. */
  function Name(i: nat): (s: string)
    ensures |s| == i
  {
    seq(i, _ => 'L')
  }

  /** Of n branches each but the last spans the next one; a label and 120 bytes follow each. */
  function Link(n: nat, i: nat): Stmt
    requires i < 2 * n
  {
    if i % 2 == 0 then
      var target := if i + 3 < 2 * n then i + 3 else 2 * n - 1;
      Stmt("CODE", None, Insn(Opcode.Named("BNE"), SpecNone, AmZpOrAbs, Some(Ident(Name(target)))))
    else Stmt("CODE", Some(Name(i)), Res(Number(120)))
  }

  function Cascade(n: nat): Program {
    Program(seq(2 * n, i requires 0 <= i < 2 * n => Link(n, i)), map["CODE" := 0], map[], {},
            map[("BNE", Rel) := 0xD0, ("JMP", Abs) := 0x4C])
  }

  /** The last k branches are short. */
  function Form(n: nat, k: nat): (m: Modes)
    ensures |m| == 2 * n
  {
    seq(2 * n, i requires 0 <= i < 2 * n => FormAt(n, k, i))
  }

  function FormAt(n: nat, k: nat, i: nat): EmitMode {
    if i % 2 == 1 then Implied else if i / 2 + k < n then RelLong else Rel
  }

  lemma CascadeParts(n: nat, i: nat)
    requires i < 2 * n
    ensures |Cascade(n).stmts| == 2 * n && Cascade(n).stmts[i] == Link(n, i) && Form(n, 0)[i] == FormAt(n, 0, i)
  {
    hide Link, FormAt;
  }

  lemma CascadeIsRegular(n: nat)
    ensures Regular(Cascade(n)) && |Cascade(n).stmts| == 2 * n && WellFormed(Cascade(n)) && NoOrg(Cascade(n))
  {
    var p := Cascade(n);
    assert forall i :: 0 <= i < 2 * n ==> p.stmts[i] == Link(n, i);
  }

  lemma CascadeStarts(n: nat)
    ensures InitialModes(Cascade(n)) == Form(n, 0)
  {
    var p := Cascade(n);
    forall i | 0 <= i < 2 * n
      ensures InitialModeOf(p, p.stmts[i]) == FormAt(n, 0, i)
    {
      assert p.stmts[i] == Link(n, i);
    }
    hide InitialModeOf, FormAt, Cascade;
    assert |p.stmts| == 2 * n by { CascadeIsRegular(n); }
  }

  /** What a statement of the cascade takes, and where the next one is. */
  lemma LinkSize(n: nat, m: Modes, i: nat)
    requires |m| == 2 * n && i < 2 * n
    ensures WellFormed(Cascade(n)) && |Cascade(n).stmts| == 2 * n
    ensures var p := Cascade(n);
      && Reserved(p, m, i) == (if i % 2 == 0 then ModeSize(m[i]) else 120)
      && Offset(p, m, "CODE", i + 1) == Offset(p, m, "CODE", i) + Reserved(p, m, i)
  {
    CascadeIsRegular(n);
    CascadeParts(n, i);
    var p := Cascade(n);
    hide Cascade, KnownAt, PlacedAt;
  }

  function Target(n: nat, j: nat): nat {
    if j + 1 < n then 2 * j + 3 else 2 * j + 1
  }

  /** The distance of the j-th branch's target. */
  lemma TargetOffset(n: nat, m: Modes, j: nat)
    requires |m| == 2 * n && j < n
    ensures WellFormed(Cascade(n)) && |Cascade(n).stmts| == 2 * n
    ensures var p := Cascade(n);
      Offset(p, m, "CODE", Target(n, j)) - Offset(p, m, "CODE", 2 * j)
        == ModeSize(m[2 * j]) + (if j + 1 < n then 120 + ModeSize(m[2 * j + 2]) else 0)
  {
    hide Cascade, Offset, Reserved, ModeSize;
    LinkSize(n, m, 2 * j);
    if j + 1 < n {
      LinkSize(n, m, 2 * j + 1);
      LinkSize(n, m, 2 * j + 2);
    }
  }

  lemma BranchOf(n: nat, j: nat)
    requires j < n
    ensures |Cascade(n).stmts| == 2 * n
    ensures var b := Cascade(n).stmts[2 * j].body;
      && b.Insn? && b.operand == Some(Ident(Name(Target(n, j))))
      && SameSegmentLabel(Cascade(n), 2 * j, Target(n, j), b.operand.value)
  {
    CascadeParts(n, 2 * j);
    CascadeParts(n, Target(n, j));
  }

  /** A branch fits exactly when it is the last one, or is short already, or the next one is. */
  lemma BranchReaches(n: nat, m: Modes, j: nat)
    requires |m| == 2 * n && j < n && IsBranchMode(m[2 * j]) && (j + 1 < n ==> IsBranchMode(m[2 * j + 2]))
    ensures WellFormed(Cascade(n)) && |Cascade(n).stmts| == 2 * n && Cascade(n).stmts[2 * j].body.Insn?
    ensures Cascade(n).stmts[2 * j].body.operand.Some?
    ensures var p := Cascade(n); var l := LayoutOf(p, m);
      BranchFits(p.stmts[2 * j].body.operand.value, l.symbols, l.address[2 * j]) ==
        (j + 1 == n || m[2 * j] == Rel || m[2 * j + 2] == Rel)
  {
    hide Cascade, Offset, LayoutOf, BranchFits, SameSegmentLabel, Target;
    CascadeIsRegular(n);
    TargetOffset(n, m, j);
    BranchOf(n, j);
    BranchDistance(Cascade(n), m, 2 * j, Target(n, j));
    assert Cascade(n).stmts[2 * j].segment == "CODE" by { CascadeParts(n, 2 * j); }
  }

  /** One sweep shrinks one branch, the last long one. */
  lemma SweepMoves(n: nat, k: nat, i: nat)
    requires k < n && i < 2 * n
    ensures WellFormed(Cascade(n)) && |Cascade(n).stmts| == 2 * n
    ensures RelaxedAt(Cascade(n), Form(n, k), FormAt(n, k, i), i) == FormAt(n, k + 1, i)
  {
    CascadeIsRegular(n);
    hide LayoutOf, BranchFits, Regular, WellFormed;
    CascadeParts(n, i);
    if i % 2 == 0 {
      BranchReaches(n, Form(n, k), i / 2);
    }
  }

  lemma SweepForm(n: nat, k: nat)
    requires k < n
    ensures WellFormed(Cascade(n)) && |Cascade(n).stmts| == 2 * n
    ensures RelaxAll(Cascade(n), Form(n, k)) == Form(n, k + 1)
  {
    hide Cascade, RelaxedAt, FormAt;
    CascadeIsRegular(n);
    forall i | 0 <= i < 2 * n
      ensures RelaxedAt(Cascade(n), Form(n, k), Form(n, k)[i], i) == Form(n, k + 1)[i]
    {
      SweepMoves(n, k, i);
    }
  }

  /** So after k sweeps k branches are short. */
  lemma {:induction false} BatchForm(n: nat, k: nat)
    requires k <= n
    ensures WellFormed(Cascade(n)) && Batch(Cascade(n), k) == Form(n, k)
  {
    hide Cascade, RelaxAll, Form, InitialModes;
    CascadeIsRegular(n);
    if k == 0 {
      CascadeStarts(n);
    } else {
      BatchForm(n, k - 1);
      SweepForm(n, k - 1);
    }
  }

  /** A cascade of n branches takes n sweeps: each one before shrinks something. */
  lemma CascadeTakesAll(n: nat, k: nat)
    requires k < n
    ensures WellFormed(Cascade(n)) && Batch(Cascade(n), k + 1) != Batch(Cascade(n), k) && !Stable(Cascade(n), Batch(Cascade(n), k))
  {
    hide Cascade, Batch, RelaxedAt;
    var p, i := Cascade(n), 2 * (n - 1 - k);
    BatchForm(n, k);
    BatchForm(n, k + 1);
    CascadeIsRegular(n);
    SweepMoves(n, k, i);
    assert Form(n, k)[i] == RelLong && Form(n, k + 1)[i] == Rel;
    assert RelaxedAt(p, Batch(p, k), Batch(p, k)[i], i) != Batch(p, k)[i];
  }

  // ----- what is left when fifty rounds are not enough -----

  lemma {:induction false} PlacesCleanly(n: nat, m: Modes, i: nat)
    requires |m| == 2 * n && i <= 2 * n
    ensures WellFormed(Cascade(n)) && |Cascade(n).stmts| == 2 * n && PlaceTo(Cascade(n), m, i).errors == 0
  {
    hide *;
    CascadeIsRegular(n);
    if i > 0 {
      PlacesCleanly(n, m, i - 1);
      PlaceToNext(Cascade(n), m, i);
      LinkPlaced(n, m, i - 1);
    } else {
      NothingPlaced(n, m);
    }
  }

  lemma NothingPlaced(n: nat, m: Modes)
    requires |m| == |Cascade(n).stmts| && WellFormed(Cascade(n))
    ensures PlaceTo(Cascade(n), m, 0).errors == 0
  {
    hide Cascade;
  }

  lemma LinkPlaced(n: nat, m: Modes, i: nat)
    requires |m| == 2 * n && i < 2 * n && WellFormed(Cascade(n)) && |Cascade(n).stmts| == 2 * n
    requires PlaceTo(Cascade(n), m, i).errors == 0
    ensures Place(PlaceTo(Cascade(n), m, i), Cascade(n).stmts[i], m[i], Cascade(n).bases[Cascade(n).stmts[i].segment]).errors == 0
  {
    var p, x := Cascade(n), Name(i);
    CascadeIsRegular(n);
    CascadeParts(n, i);
    assert "CODE" in PlaceTo(p, m, i).pcs;
    hide *;
    PlacedSymbols(p, m, i, x);
    LinkIsNew(n, m, i);
    OneLinkPlaced(PlaceTo(p, m, i), n, i, m[i], Cascade(n).bases[Cascade(n).stmts[i].segment]);
  }

  lemma LinkIsNew(n: nat, m: Modes, i: nat)
    requires |m| == 2 * n && i < 2 * n && WellFormed(Cascade(n)) && |Cascade(n).stmts| == 2 * n
    requires Knows(Cascade(n), m, i, Name(i))
    ensures Link(n, i).mark.Some? ==> Name(i) !in PlaceTo(Cascade(n), m, i).symbols
  {
    if i % 2 == 1 {
      CascadeIsRegular(n);
      CascadeParts(n, i);
      assert Declares(Cascade(n).stmts[i], Name(i));
      hide Cascade, PlaceTo, AddressOf, Declares;
      NotBefore(Cascade(n), i, Name(i));
    }
  }

  lemma OneLinkPlaced(l: Layout, n: nat, i: nat, mode: EmitMode, base: nat)
    requires i < 2 * n && "CODE" in l.pcs && l.errors == 0 && (Link(n, i).mark.Some? ==> Name(i) !in l.symbols)
    ensures Link(n, i).segment == "CODE" && Place(l, Link(n, i), mode, base).errors == 0
  {
  }

  lemma {:induction false} NoConstants(n: nat, address: seq<int>, i: nat)
    requires i <= 2 * n == |address|
    ensures |Cascade(n).stmts| == 2 * n && Constants(Cascade(n), address, i) == []
  {
    if i > 0 {
      NoConstants(n, address, i - 1);
      CascadeParts(n, i - 1);
    }
  }

  lemma CascadeIsClean(n: nat, m: Modes)
    requires |m| == 2 * n
    ensures Clean(Cascade(n), m) && SegmentsApart(Cascade(n), m)
  {
    CascadeIsRegular(n);
    PlacesCleanly(n, m, 2 * n);
    NoConstants(n, PlaceTo(Cascade(n), m, 2 * n).address, 2 * n);
    hide PlaceTo, Link, Constants, Sweeps, Regular, Offset;
  }

  /** Nothing lies beyond 125 bytes a branch. */
  lemma {:induction false} CascadeEnds(n: nat, m: Modes, i: nat)
    requires |m| == 2 * n && i <= 2 * n
    ensures WellFormed(Cascade(n)) && |Cascade(n).stmts| == 2 * n && Offset(Cascade(n), m, "CODE", i) <= 125 * i
  {
    hide Cascade, Reserved;
    CascadeIsRegular(n);
    if i > 0 {
      CascadeEnds(n, m, i - 1);
      LinkSize(n, m, i - 1);
    }
  }

  /** A short branch is written if it fits, a long one always, each in full. */
  lemma BranchWritten(table: Table, s: Stmt, mode: EmitMode, symbols: Symbols, at: int)
    requires s.body.Insn? && s.body.op == Opcode.Named("BNE") && s.body.operand.Some? && ("BNE", Rel) in table && ("JMP", Abs) in table
    requires IsBranchMode(mode) && EvalExpr(s.body.operand.value, symbols, at + 3).Ok?
    ensures var e := StatementBytes(table, s, mode, symbols, at);
      e.ok == (mode == RelLong || BranchFits(s.body.operand.value, symbols, at)) && (e.ok ==> |e.bytes| == ModeSize(mode))
  {
    hide EvalExpr;
  }

  /** Bytes a statement takes when k branches are short. */
  function Width(n: nat, k: nat, i: nat): nat {
    if i % 2 == 0 then ModeSize(FormAt(n, k, i)) else 120
  }

  lemma BranchBytes(n: nat, k: nat, j: nat)
    requires k < n && j < n
    ensures WellFormed(Cascade(n)) && |Cascade(n).stmts| == 2 * n
    ensures var e := BytesAt(Cascade(n), Form(n, k + 1), LayoutOf(Cascade(n), Form(n, k)), 2 * j);
      e.ok && |e.bytes| == Width(n, k + 1, 2 * j)
  {
    hide *;
    var p, m, t := Cascade(n), Form(n, k), Target(n, j);
    CascadeIsRegular(n);
    TargetIsLabel(n, j);
    FormOfBranch(n, k, j);
    BranchReaches(n, m, j);
    var l := LayoutOf(p, m);
    LabelEval(p, m, t, Name(t), l.address[2 * j] + 3);
    BranchWritten(p.table, p.stmts[2 * j], Form(n, k + 1)[2 * j], l.symbols, l.address[2 * j]);
    BytesAre(p, Form(n, k + 1), l, 2 * j);
  }

  lemma FormOfBranch(n: nat, k: nat, j: nat)
    requires k < n && j < n
    ensures var m, w := Form(n, k), Form(n, k + 1);
      && IsBranchMode(m[2 * j]) && (j + 1 < n ==> IsBranchMode(m[2 * j + 2]))
      && IsBranchMode(w[2 * j])
      && (w[2 * j] == RelLong || j + 1 == n || m[2 * j] == Rel || m[2 * j + 2] == Rel)
      && Width(n, k + 1, 2 * j) == ModeSize(w[2 * j])
  {
  }

  lemma BytesAre(p: Program, modes: Modes, l: Layout, i: nat)
    requires |modes| == |l.address| == |p.stmts| && i < |p.stmts|
    ensures BytesAt(p, modes, l, i) == StatementBytes(p.table, p.stmts[i], modes[i], l.symbols, l.address[i])
  {
    hide StatementBytes;
  }

  lemma TargetIsLabel(n: nat, j: nat)
    requires j < n
    ensures |Cascade(n).stmts| == 2 * n && Target(n, j) < 2 * n && LabelAt(Cascade(n), Target(n, j), Name(Target(n, j)))
    ensures ("BNE", Rel) in Cascade(n).table && ("JMP", Abs) in Cascade(n).table
    ensures var b := Cascade(n).stmts[2 * j].body;
      b.Insn? && b.op == Opcode.Named("BNE") && b.operand == Some(Ident(Name(Target(n, j))))
  {
    CascadeParts(n, Target(n, j));
    CascadeParts(n, 2 * j);
  }

  lemma PaddingBytes(n: nat, modes: Modes, l: Layout, i: nat)
    requires i < 2 * n && i % 2 == 1 && |modes| == |l.address| == |Cascade(n).stmts|
    ensures |Cascade(n).stmts| == 2 * n
    ensures BytesAt(Cascade(n), modes, l, i) == Emission(Zeros(120), true)
  {
    CascadeParts(n, i);
    NumberEval(120, l.symbols, l.address[i]);
    hide EvalExpr;
  }

  lemma LinkSucceeds(n: nat, k: nat, i: nat)
    requires k < n <= 250 && i < 2 * n
    ensures WellFormed(Cascade(n)) && |Cascade(n).stmts| == 2 * n
    ensures var l := LayoutOf(Cascade(n), Form(n, k)); var e := BytesAt(Cascade(n), Form(n, k + 1), l, i);
      Succeeds(e, l.address[i]) && |e.bytes| == Width(n, k + 1, i)
  {
    hide *;
    CascadeIsRegular(n);
    CascadeEnds(n, Form(n, k), i);
    CascadeAddress(n, Form(n, k), i);
    WidthSmall(n, k + 1, i);
    var l := LayoutOf(Cascade(n), Form(n, k));
    if i % 2 == 0 {
      BranchBytes(n, k, i / 2);
    } else {
      PaddingBytes(n, Form(n, k + 1), l, i);
    }
    SucceedsIf(BytesAt(Cascade(n), Form(n, k + 1), l, i), l.address[i]);
  }

  lemma WidthSmall(n: nat, k: nat, i: nat)
    ensures Width(n, k, i) <= 120 && (i % 2 == 1 ==> Width(n, k, i) == 120)
  {
  }

  lemma SucceedsIf(e: Emission, at: int)
    requires e.ok && |e.bytes| <= 120 && 0 <= at <= 62500
    ensures Succeeds(e, at)
  {
  }

  lemma CascadeAddress(n: nat, m: Modes, i: nat)
    requires |m| == 2 * n && i < 2 * n
    ensures WellFormed(Cascade(n)) && |Cascade(n).stmts| == 2 * n
    ensures AddressOf(Cascade(n), m, i) == Offset(Cascade(n), m, "CODE", i) == LayoutOf(Cascade(n), m).address[i]
  {
    CascadeIsRegular(n);
    CascadeParts(n, i);
    hide LayoutOf, Offset;
    StatementAddress(Cascade(n), m, i);
  }

  lemma NumberEval(v: int, symbols: Symbols, pc: int)
    ensures EvalExpr(Number(v), symbols, pc) == Ok(v)
  {
  }

  lemma {:induction false} NothingFails(n: nat, k: nat, i: nat)
    requires k < n <= 250 && i <= 2 * n
    ensures WellFormed(Cascade(n)) && |Cascade(n).stmts| == 2 * n
    ensures FailuresTo(Cascade(n), Form(n, k + 1), LayoutOf(Cascade(n), Form(n, k)), i) == 0
  {
    hide Cascade, LayoutOf, BytesAt, Form, Succeeds;
    CascadeIsRegular(n);
    if i > 0 {
      NothingFails(n, k, i - 1);
      LinkSucceeds(n, k, i - 1);
    }
  }

  /** With 51 branches or more the rounds run out, without an error being reported and before any choice is stable. The
      branch that shrank last is written short where it was placed long: the byte after it is not in the image, though
      the statement after it is. */
  lemma CutOffLeavesHole(n: nat)
    requires 51 <= n <= 250
    ensures Clean(Cascade(n), Batch(Cascade(n), 49)) && SegmentsApart(Cascade(n), Batch(Cascade(n), 49))
    ensures StillShrinking(Cascade(n), 50) && forall k: nat :: k <= 50 ==> !Stable(Cascade(n), Batch(Cascade(n), k))
    ensures |Cascade(n).stmts| == 2 * n
    ensures var p := Cascade(n); var l := LayoutOf(p, Batch(p, 49)); var m := ImageTo(p, Batch(p, 50), l, 2 * n);
      && FailuresTo(p, Batch(p, 50), l, 2 * n) == 0
      && (var at := l.address[2 * (n - 50)]; at + 1 in m && at + 2 !in m && at + 5 in m)
  {
    hide *;
    CascadeIsRegular(n);
    BatchForm(n, 49);
    BatchForm(n, 50);
    CascadeIsClean(n, Form(n, 49));
    NothingFails(n, 49, 2 * n);
    forall k: nat | k <= 50
      ensures !Stable(Cascade(n), Batch(Cascade(n), k)) && Batch(Cascade(n), k + 1) != Batch(Cascade(n), k)
    {
      CascadeTakesAll(n, k);
    }
    ShrinkingIf(Cascade(n), 50);
    HoleAfter(n, 49);
  }

  lemma ShrinkingIf(p: Program, k: nat)
    requires WellFormed(p) && forall n: nat :: n <= k ==> Batch(p, n + 1) != Batch(p, n)
    ensures StillShrinking(p, k)
  {
  }

  lemma HoleAfter(n: nat, k: nat)
    requires k < n <= 250
    ensures WellFormed(Cascade(n)) && |Cascade(n).stmts| == 2 * n
    ensures var p := Cascade(n); var l := LayoutOf(p, Form(n, k)); var m := ImageTo(p, Form(n, k + 1), l, 2 * n);
      var at := l.address[2 * (n - 1 - k)]; at + 1 in m && at + 2 !in m && at + 5 in m
  {
    hide *;
    var i := 2 * (n - 1 - k);
    CascadeIsRegular(n);
    HoleWidths(n, k);
    ShownAt(n, k, i, 1);
    ShownAt(n, k, i, 2);
    ShownAt(n, k, i + 1, 0);
    NextAddress(n, Form(n, k), i);
  }

  lemma HoleWidths(n: nat, k: nat)
    requires k < n
    ensures var i := 2 * (n - 1 - k);
      Form(n, k)[i] == RelLong && Width(n, k, i) == 5 && Width(n, k + 1, i) == 2 && Width(n, k, i + 1) == Width(n, k + 1, i + 1) == 120
  {
  }

  lemma NextAddress(n: nat, m: Modes, i: nat)
    requires |m| == 2 * n && i + 1 < 2 * n && m[i] == RelLong && i % 2 == 0
    ensures WellFormed(Cascade(n)) && |Cascade(n).stmts| == 2 * n
    ensures LayoutOf(Cascade(n), m).address[i + 1] == LayoutOf(Cascade(n), m).address[i] + 5
  {
    hide LayoutOf, Reserved, Offset, Cascade, AddressOf;
    LinkSize(n, m, i);
    CascadeAddress(n, m, i);
    CascadeAddress(n, m, i + 1);
  }

  /** Whether the image has the d-th byte of a statement's place. */
  lemma ShownAt(n: nat, k: nat, i: nat, d: nat)
    requires k < n <= 250 && i < 2 * n && d < Width(n, k, i)
    ensures WellFormed(Cascade(n)) && |Cascade(n).stmts| == 2 * n
    ensures var p := Cascade(n); var l := LayoutOf(p, Form(n, k)); var m := ImageTo(p, Form(n, k + 1), l, 2 * n);
      l.address[i] + d in m <==> d < Width(n, k + 1, i)
  {
    hide *;
    var p, m := Cascade(n), Form(n, k);
    CascadeIsRegular(n);
    FormShrinks(n, k);
    WidthReserved(n, k, i);
    CascadeAddress(n, m, i);
    CascadeIsClean(n, m);
    NothingFails(n, k, 2 * n);
    LinkSucceeds(n, k, i);
    ImageIsFaithful(p, m, Form(n, k + 1), 2 * n, LayoutOf(p, m).address[i] + d);
    HasByte(p, m, Form(n, k + 1), i, d);
  }

  /** A faithful image has the first bytes of a statement's place, as many as the statement stands for. */
  lemma HasByte(p: Program, modes: Modes, written: Modes, i: nat, d: nat)
    requires WellFormed(p) && |modes| == |written| == |p.stmts| && i < |p.stmts| && d < Reserved(p, modes, i)
    requires Faithful(p, modes, written, LayoutOf(p, modes), |p.stmts|, AddressOf(p, modes, i) + d)
    ensures var l := LayoutOf(p, modes);
      AddressOf(p, modes, i) + d in ImageTo(p, written, l, |p.stmts|) <==> d < |BytesAt(p, written, l, i).bytes|
  {
    hide LayoutOf, ImageTo, BytesAt, Reserved, AddressOf;
    assert Covers(p, modes, i, AddressOf(p, modes, i) + d);
    assert Shows(p, modes, written, LayoutOf(p, modes), ImageTo(p, written, LayoutOf(p, modes), |p.stmts|), i, AddressOf(p, modes, i) + d);
  }

  lemma WidthReserved(n: nat, k: nat, i: nat)
    requires i < 2 * n
    ensures WellFormed(Cascade(n)) && |Cascade(n).stmts| == 2 * n && Reserved(Cascade(n), Form(n, k), i) == Width(n, k, i)
  {
    hide Reserved, Cascade, ModeSize;
    LinkSize(n, Form(n, k), i);
  }

  lemma FormShrinks(n: nat, k: nat)
    requires k < n
    ensures Shrunk(Cascade(n), Form(n, k), Form(n, k + 1))
  {
    CascadeIsRegular(n);
    forall i | 0 <= i < 2 * n && Form(n, k + 1)[i] != Form(n, k)[i]
      ensures Cascade(n).stmts[i].body.Insn?
    {
      CascadeParts(n, i);
    }
    hide Cascade;
  }

  // ----- branches that shrink at each other's cost -----

  function Branch(mark: nat, target: nat): Stmt {
    Stmt("CODE", Some(Name(mark)), Insn(Opcode.Named("BNE"), SpecNone, AmZpOrAbs, Some(Ident(Name(target)))))
  }

  /** k bytes less the distance from one label to a later one. */
  function Rest(mark: nat, k: nat, from: nat, to: nat): Stmt {
    Stmt("CODE", Some(Name(mark)), Res(Binary(Sub, Number(k), Binary(Sub, Ident(Name(to)), Ident(Name(from))))))
  }

  /** Two branches; what either saves is reserved before the target of the second, and what the second saves, twice,
      before that of the first. Statements are labelled from 1 to 6. */
  function Rivals(): Program {
    Program([Branch(1, 5), Branch(2, 6), Rest(3, 64, 2, 3), Rest(4, 65, 2, 3), Rest(5, 10, 1, 2), Stmt("CODE", Some(Name(6)), Blank)],
            map["CODE" := 0], map[], {}, map[("BNE", Rel) := 0xD0, ("JMP", Abs) := 0x4C])
  }

  function Sizes(first: EmitMode, second: EmitMode): Modes {
    [first, second, Implied, Implied, Implied, Implied]
  }

  lemma RivalAt(i: nat)
    requires i < 6
    ensures |Rivals().stmts| == 6
    ensures var s := Rivals().stmts[i];
      s.mark == Some(Name(i + 1)) && s.segment == "CODE" && !s.body.Const? && !s.body.Org?
  {
  }

  lemma RivalsAreRegular()
    ensures Regular(Rivals()) && WellFormed(Rivals()) && |Rivals().stmts| == 6
  {
    var p := Rivals();
    assert p.symbols == map[] && p.bases == map["CODE" := 0];
    forall i | 0 <= i < 6
      ensures |p.stmts| == 6 && p.stmts[i].mark == Some(Name(i + 1)) && p.stmts[i].segment == "CODE"
      ensures !p.stmts[i].body.Const? && !p.stmts[i].body.Org?
    {
      RivalAt(i);
    }
    hide Rivals;
  }

  lemma RivalsStart()
    ensures InitialModes(Rivals()) == Sizes(RelLong, RelLong)
  {
  }

  lemma {:induction false} RivalNext(m: Modes, i: nat)
    requires |m| == 6 && i < 6
    ensures WellFormed(Rivals()) && |Rivals().stmts| == 6
    ensures Offset(Rivals(), m, "CODE", i + 1) == Offset(Rivals(), m, "CODE", i) + Reserved(Rivals(), m, i)
    ensures AddressOf(Rivals(), m, i) == Offset(Rivals(), m, "CODE", i)
  {
    RivalsAreRegular();
    RivalAt(i);
    assert Rivals().bases == map["CODE" := 0];
    hide Rivals, Reserved;
  }

  lemma {:induction false} RivalBranch(m: Modes, i: nat)
    requires |m| == 6 && i < 2
    ensures WellFormed(Rivals()) && |Rivals().stmts| == 6 && Reserved(Rivals(), m, i) == ModeSize(m[i])
  {
    RivalsAreRegular();
    hide KnownAt, PlacedAt;
  }

  predicate Leaves(i: nat, from: nat, to: nat, k: nat) {
    |Rivals().stmts| == 6 && i < 6 && Rivals().stmts[i] == Rest(i + 1, k, from + 1, to + 1) && from <= to <= i
  }

  lemma RivalLeaves()
    ensures Leaves(2, 1, 2, 64) && Leaves(3, 1, 2, 65) && Leaves(4, 0, 1, 10)
  {
  }

  lemma {:induction false} RivalRest(m: Modes, i: nat, from: nat, to: nat, k: nat)
    requires |m| == 6 && Leaves(i, from, to, k)
    ensures WellFormed(Rivals()) && |Rivals().stmts| == 6
    ensures var d := Offset(Rivals(), m, "CODE", to) - Offset(Rivals(), m, "CODE", from);
      d <= k ==> Reserved(Rivals(), m, i) == k - d
  {
    var p := Rivals();
    RivalsAreRegular();
    RivalAt(from);
    RivalAt(to);
    RivalNext(m, from);
    RivalNext(m, to);
    hide Rivals, Reserved, AddressOf, Regular, WellFormed, Offset;
    assert Spans(p, i, p.stmts[i].body.amount.right, from, to);
    hide Spans;
    if Distance(p, m, from, to) <= k {
      OppositeAmount(p, m, i, from, to, k);
    }
  }

  /** Where the branches and their targets are. */
  lemma {:induction false} RivalOffsets(m: Modes)
    requires |m| == 6 && IsBranchMode(m[0]) && IsBranchMode(m[1])
    ensures WellFormed(Rivals()) && |Rivals().stmts| == 6
    ensures var p := Rivals();
      && Offset(p, m, "CODE", 0) == 0 && Offset(p, m, "CODE", 1) == ModeSize(m[0])
      && Offset(p, m, "CODE", 4) == ModeSize(m[0]) + 129 - ModeSize(m[1])
      && Offset(p, m, "CODE", 5) == 139 - ModeSize(m[1])
  {
    RivalLeaves();
    hide Rivals, Reserved, Leaves, AddressOf;
    RivalBranch(m, 0);
    RivalNext(m, 0);
    RivalBranch(m, 1);
    RivalNext(m, 1);
    RivalRest(m, 2, 1, 2, 64);
    RivalNext(m, 2);
    RivalRest(m, 3, 1, 2, 65);
    RivalNext(m, 3);
    RivalRest(m, 4, 0, 1, 10);
    RivalNext(m, 4);
  }

  /** The first branch fits when it is no longer than the second, the second when the two take ten bytes. */
  lemma {:induction false} RivalFits(m: Modes, i: nat)
    requires |m| == 6 && IsBranchMode(m[0]) && IsBranchMode(m[1]) && i < 2
    ensures WellFormed(Rivals()) && |Rivals().stmts| == 6 && Rivals().stmts[i].body.Insn? && Rivals().stmts[i].body.operand.Some?
    ensures var p := Rivals(); var l := LayoutOf(p, m);
      BranchFits(p.stmts[i].body.operand.value, l.symbols, l.address[i]) ==
        if i == 0 then ModeSize(m[0]) <= ModeSize(m[1]) else ModeSize(m[0]) + ModeSize(m[1]) >= 10
  {
    RivalsAreRegular();
    RivalAt(i);
    assert SameSegmentLabel(Rivals(), i, 4 + i, Rivals().stmts[i].body.operand.value);
    hide Rivals, LayoutOf, BranchFits, SameSegmentLabel, Regular, Offset;
    RivalOffsets(m);
    BranchDistance(Rivals(), m, i, 4 + i);
  }

  /** Looking at a statement under some encodings. */
  lemma {:induction false} RivalSeen(m: Modes, mode: EmitMode, i: nat)
    requires |m| == 6 && IsBranchMode(m[0]) && IsBranchMode(m[1]) && i < 6
    requires if i < 2 then IsBranchMode(mode) else mode == Implied
    ensures WellFormed(Rivals()) && |Rivals().stmts| == 6
    ensures RelaxedAt(Rivals(), m, mode, i) ==
      if i == 0 && ModeSize(m[0]) <= ModeSize(m[1]) then Rel
      else if i == 1 && ModeSize(m[0]) + ModeSize(m[1]) >= 10 then Rel
      else mode
  {
    RivalsAreRegular();
    hide LayoutOf, BranchFits, Regular, WellFormed;
    if i < 2 { RivalFits(m, i); }
  }

  lemma RivalRun(a: EmitMode, b: EmitMode)
    requires IsBranchMode(a) && IsBranchMode(b)
    ensures Run(Rivals(), [InitialModes(Rivals()), Sizes(a, b)])
  {
    var p, ts := Rivals(), [InitialModes(Rivals()), Sizes(a, b)];
    RivalsAreRegular();
    RivalsStart();
    hide Rivals, InitialModes, RelaxedAt, Regular;
    forall i | 0 <= i < 6
      ensures MovesAt(p, ts, 0, i)
    {
      RivalSeen(ts[0], ts[0][i], i);
      assert RelaxedAt(p, ts[0], ts[0][i], i) == if i < 2 then Rel else Implied;
    }
  }

  lemma RivalStable(a: EmitMode, b: EmitMode)
    requires IsBranchMode(a) && IsBranchMode(b) && !(a == b == RelLong)
    ensures Stable(Rivals(), Sizes(a, b))
  {
    var p, m := Rivals(), Sizes(a, b);
    RivalsAreRegular();
    RivalsStart();
    hide Rivals, InitialModes, RelaxedAt, Regular;
    forall i | 0 <= i < 6
      ensures RelaxedAt(p, m, m[i], i) == m[i]
    {
      RivalSeen(m, m[i], i);
    }
  }

  lemma RivalSweep()
    ensures WellFormed(Rivals()) && Batch(Rivals(), 1) == Sizes(Rel, Rel)
  {
    var p, m := Rivals(), Sizes(RelLong, RelLong);
    RivalsAreRegular();
    RivalsStart();
    hide Rivals, InitialModes, RelaxedAt, Regular;
    BatchNext(p, 1);
    forall i | 0 <= i < 6
      ensures RelaxedAt(p, m, m[i], i) == Sizes(Rel, Rel)[i]
    {
      RivalSeen(m, m[i], i);
    }
    assert Batch(p, 0) == m;
  }

  /** Whether the second pass accepts the i-th branch. */
  lemma RivalWritten(m: Modes, i: nat)
    requires |m| == 6 && IsBranchMode(m[0]) && IsBranchMode(m[1]) && i < 2
    ensures WellFormed(Rivals()) && |Rivals().stmts| == 6
    ensures BytesAt(Rivals(), m, LayoutOf(Rivals(), m), i).ok ==
      (m[i] == RelLong || (if i == 0 then ModeSize(m[0]) <= ModeSize(m[1]) else ModeSize(m[0]) + ModeSize(m[1]) >= 10))
  {
    hide *;
    var p := Rivals();
    RivalsAreRegular();
    RivalFits(m, i);
    RivalParts(i);
    var l := LayoutOf(p, m);
    LabelEval(p, m, i + 4, Name(i + 5), l.address[i] + 3);
    BytesAre(p, m, l, i);
    BranchWritten(p.table, p.stmts[i], m[i], l.symbols, l.address[i]);
  }

  lemma RivalParts(i: nat)
    requires i < 2
    ensures |Rivals().stmts| == 6 && LabelAt(Rivals(), i + 4, Name(i + 5))
    ensures ("BNE", Rel) in Rivals().table && ("JMP", Abs) in Rivals().table
    ensures var b := Rivals().stmts[i].body; b.Insn? && b.op == Opcode.Named("BNE") && b.operand == Some(Ident(Name(i + 5)))
  {
  }

  lemma SizesAre(a: EmitMode, b: EmitMode)
    requires IsBranchMode(a) && IsBranchMode(b)
    ensures |Sizes(a, b)| == 6 && IsBranchMode(Sizes(a, b)[0]) && IsBranchMode(Sizes(a, b)[1])
    ensures Sizes(a, b)[0] == a && Sizes(a, b)[1] == b && ModeSize(Rel) == 2 && ModeSize(RelLong) == 5
  {
  }

  lemma RivalPlain(i: nat)
    requires i < 6
    ensures |Rivals().stmts| == 6 && PlainOperand(Rivals(), i)
  {
    if i < 2 {
      RivalAt(i + 4);
      assert SameSegmentLabel(Rivals(), i, i + 4, Rivals().stmts[i].body.operand.value);
    }
  }

  /** Where an amount may subtract a distance, shrinking one branch can forbid the other: two orders of shrinking end
      stable in different encodings, and the assembler's sweeps, which shrink both at once, end in a third in which the
      second branch is out of reach and refused, though the first of the other two would do. */
  lemma OrderMatters()
    ensures var p, a, b, c := Rivals(), Sizes(Rel, RelLong), Sizes(RelLong, Rel), Sizes(Rel, Rel);
      && Regular(p) && |p.stmts| == 6 && (forall i: nat :: i < 6 ==> PlainOperand(p, i))
      && Run(p, [InitialModes(p), a]) && Stable(p, a) && Run(p, [InitialModes(p), b]) && Stable(p, b)
      && Batch(p, 1) == c && Stable(p, c)
      && !BytesAt(p, c, LayoutOf(p, c), 1).ok
      && BytesAt(p, a, LayoutOf(p, a), 0).ok && BytesAt(p, a, LayoutOf(p, a), 1).ok
  {
    hide *;
    RivalsAreRegular();
    forall i: nat | i < 6
      ensures PlainOperand(Rivals(), i)
    {
      RivalPlain(i);
    }
    SizesAre(Rel, Rel);
    SizesAre(Rel, RelLong);
    RivalRun(Rel, RelLong);
    RivalRun(RelLong, Rel);
    RivalStable(Rel, RelLong);
    RivalStable(RelLong, Rel);
    RivalStable(Rel, Rel);
    RivalSweep();
    RivalWritten(Sizes(Rel, Rel), 1);
    RivalWritten(Sizes(Rel, RelLong), 0);
    RivalWritten(Sizes(Rel, RelLong), 1);
  }
}
