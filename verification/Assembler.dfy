/** The assembler's context: encodings and addresses kept in arrays and rewritten by each pass. */
module Assembler {
  import opened Basics
  import opened AsmOpcode
  import opened AsmExpr
  import opened AsmConstants
  import opened AsmLayout
  import opened AsmRelax

  /** The encodings after n whole sweeps. */
  function Batch(p: Program, n: nat): (m: Modes)
    requires WellFormed(p)
    ensures |m| == |p.stmts|
  {
    if n == 0 then InitialModes(p) else RelaxAll(p, Batch(p, n - 1))
  }

  /** Errors reported by the layout passes of the first n rounds. */
  ghost function PassErrors(p: Program, n: nat): nat
    requires WellFormed(p)
  {
    if n == 0 then 0 else PassErrors(p, n - 1) + LayoutOf(p, Batch(p, n - 1)).errors
  }

  class Context {
    const program: Program
    const modes: array<EmitMode>
    const address: array<int>
    var pcs: map<string, nat>
    var used: map<string, nat>
    var symbols: Symbols
    var errors: nat

    ghost predicate Valid()
      reads this
    {
      && WellFormed(program) && modes.Length == address.Length == |program.stmts|
      && pcs.Keys == program.bases.Keys
    }

    /** The first i statements are placed as l says. */
    ghost predicate Holds(l: Layout, before: nat, i: nat)
      reads this, address
    {
      && i == |l.address| <= address.Length && address[..i] == l.address
      && pcs == l.pcs && symbols == l.symbols && errors == before + l.errors
    }

    constructor (p: Program)
      requires WellFormed(p)
      ensures Valid() && fresh(modes) && fresh(address) && program == p
      ensures modes[..] == InitialModes(p) && errors == Illegal(p, |p.stmts|)
    {
      program := p;
      modes := new EmitMode[|p.stmts|];
      address := new int[|p.stmts|];
      pcs := map s | s in p.bases :: 0;
      used := map s | s in p.bases :: 0;
      symbols := p.symbols;
      errors := 0;
      new;
      var i := 0;
      while i < |p.stmts|
        invariant 0 <= i <= |p.stmts| && Valid() && program == p && fresh(modes) && fresh(address)
        invariant modes[..i] == InitialModes(p)[..i] && errors == Illegal(p, i)
      {
        modes[i] := InitialModeOf(p, p.stmts[i]);
        if IsIllegal(p, p.stmts[i]) {
          errors := errors + 1;
        }
        i := i + 1;
      }
    }

    /** Declares a name; declaring it twice is an error. */
    method DeclareSymbol(x: string, v: Option<int>, ghost l: Layout, ghost before: nat, ghost i: nat)
      requires Valid() && Holds(l, before, i)
      modifies `symbols, `errors
      ensures Valid() && Holds(Declare(l, x, v), before, i)
    {
      if x in symbols {
        errors := errors + 1;
      } else {
        symbols := symbols[x := v];
      }
    }

    method SegmentAdvance(segment: string, amount: nat, ghost l: Layout, ghost before: nat, ghost i: nat)
      requires Valid() && Holds(l, before, i) && segment in l.pcs
      modifies `pcs
      ensures Valid() && Holds(Advance(l, segment, amount), before, i)
    {
      pcs := pcs[segment := pcs[segment] + amount];
    }

    method Report(ghost l: Layout, ghost before: nat, ghost i: nat)
      requires Valid() && Holds(l, before, i)
      modifies `errors
      ensures Valid() && Holds(Fail(l), before, i)
    {
      errors := errors + 1;
    }

    method BeginStatement(i: nat, ghost l: Layout, ghost before: nat) returns (at: int)
      requires Valid() && i < |program.stmts| && Holds(l, before, i) && program.stmts[i].segment in l.pcs
      modifies `symbols, `errors, address
      ensures at == program.bases[program.stmts[i].segment] + l.pcs[program.stmts[i].segment]
      ensures Valid() && Holds(Begin(l, program.stmts[i], at), before, i + 1)
    {
      var s := program.stmts[i];
      at := program.bases[s.segment] + pcs[s.segment];
      address[i] := at;
      ghost var m := l.(address := l.address + [at]);
      assert Holds(m, before, i + 1);
      hide Holds;
      if s.mark.Some? {
        DeclareSymbol(s.mark.value, Some(at), m, before, i + 1);
      }
    }

    method ReserveStatement(i: nat, base: nat, at: int, ghost l: Layout, ghost before: nat)
      requires Valid() && i < |program.stmts| && Holds(l, before, i + 1)
      requires program.stmts[i].segment in l.pcs && base == program.bases[program.stmts[i].segment]
      modifies `pcs, `symbols, `errors
      ensures Valid() && Holds(Reserve(l, program.stmts[i], modes[i], base, at), before, i + 1)
    {
      var s := program.stmts[i];
      match s.body {
        case Blank =>
        case Insn(_, _, _, _) => SegmentAdvance(s.segment, ModeSize(modes[i]), l, before, i + 1);
        case Bytes(es) => SegmentAdvance(s.segment, |es|, l, before, i + 1);
        case Words(es) => SegmentAdvance(s.segment, 2 * |es|, l, before, i + 1);
        case Text(bs) => SegmentAdvance(s.segment, |bs|, l, before, i + 1);
        case Asciiz(bs) => SegmentAdvance(s.segment, |bs| + 1, l, before, i + 1);
        case Const(x, _) => DeclareSymbol(x, None, l, before, i + 1);
        case Res(e) =>
          var v := EvalExpr(e, symbols, at);
          if v.Ok? && v.value >= 0 {
            SegmentAdvance(s.segment, v.value, l, before, i + 1);
          } else {
            Report(l, before, i + 1);
          }
        case Org(e) =>
          var v := EvalExpr(e, symbols, at);
          if v.Ok? && v.value >= base {
            pcs := pcs[s.segment := v.value - base];
          } else {
            Report(l, before, i + 1);
          }
      }
    }

    /** Gives the statement its address, binds its label, and moves its segment past it. */
    method PlaceStatement(i: nat, ghost l: Layout, ghost before: nat)
      requires Valid() && i < |program.stmts| && Holds(l, before, i) && program.stmts[i].segment in l.pcs
      modifies `pcs, `symbols, `errors, address
      ensures Valid() && Holds(Place(l, program.stmts[i], modes[i], program.bases[program.stmts[i].segment]), before, i + 1)
    {
      hide Holds, Begin, Reserve;
      var s := program.stmts[i];
      var at := BeginStatement(i, l, before);
      ReserveStatement(i, program.bases[s.segment], at, Begin(l, s, at), before);
    }

    /** One layout pass: segments back to their start, then every statement in order. */
    method Pass1()
      requires Valid()
      modifies this, address
      ensures Valid() && used == pcs && Holds(LayoutOf(program, modes[..]), old(errors), |program.stmts|)
    {
      pcs := map s | s in program.bases :: 0;
      symbols := program.symbols;
      ghost var m, before := modes[..], errors;
      var i := 0;
      while i < |program.stmts|
        invariant i <= |program.stmts| && Valid() && modes[..] == m
        invariant Holds(PlaceTo(program, m, i), before, i)
      {
        hide Holds, PlaceTo, Place;
        PlaceToNext(program, m, i + 1);
        PlaceStatement(i, PlaceTo(program, m, i), before);
        i := i + 1;
      }
      used := pcs;
      ResolveConstants(PlaceTo(program, m, i), before);
    }

    /** The sweeps over the constants; each one still stuck is an error. */
    method ResolveConstants(ghost l: Layout, ghost before: nat)
      requires Valid() && Holds(l, before, |program.stmts|)
      modifies `symbols, `errors
      ensures Valid() && Holds(Resolved(program, l), before, |program.stmts|)
    {
      var cs := [];
      var i := 0;
      while i < |program.stmts|
        invariant 0 <= i <= |program.stmts| && cs == Constants(program, address[..], i)
      {
        if program.stmts[i].body.Const? {
          cs := cs + [Constant(program.stmts[i].body.name, program.stmts[i].body.value, address[i])];
        }
        i := i + 1;
      }
      var sweeps, stuck;
      symbols, sweeps, stuck := Resolve(cs, symbols);
      errors := errors + stuck;
      assert address[..] == l.address;
      FinishedIsSixtyFour(cs, l.symbols, symbols, sweeps);
    }

    /** Looks at one statement. */
    method RelaxOne(i: nat) returns (narrowed: bool)
      requires Valid() && i < |program.stmts|
      modifies modes
      ensures modes[..] == old(modes[..])[i := Relaxed(program, program.stmts[i], old(modes[i]), symbols, address[i])]
      ensures narrowed == (modes[i] != old(modes[i]))
    {
      narrowed := false;
      var body := program.stmts[i].body;
      if body.Insn? && body.operand.Some? {
        if modes[i] == RelLong && BranchFits(body.operand.value, symbols, address[i]) {
          modes[i], narrowed := Rel, true;
        } else {
          var candidate := ZeroPageForm(program, body, modes[i]);
          if candidate.Some? && PageZero(program, body.operand.value, symbols, address[i]) {
            modes[i], narrowed := candidate.value, true;
          }
        }
      }
    }

    /** Looks at every instruction once, under the layout of the pass just made. */
    method RelaxSweep(ghost before: nat) returns (changed: bool)
      requires Valid() && Holds(LayoutOf(program, modes[..]), before, |program.stmts|)
      modifies modes
      ensures modes[..] == RelaxAll(program, old(modes[..])) && changed == (modes[..] != old(modes[..]))
    {
      changed := false;
      ghost var was := modes[..];
      ghost var l := LayoutOf(program, was);
      hide LayoutOf, Relaxed;
      var i := 0;
      while i < |program.stmts|
        invariant i <= |program.stmts| && Swept(program, l, was, modes[..], i)
        invariant changed == (modes[..] != was)
      {
        ghost var m := modes[..];
        assert m[i] == was[i];
        var narrowed := RelaxOne(i);
        changed := changed || narrowed;
        SweptOne(program, l, was, m, modes[..], i);
        i := i + 1;
      }
      SweptAll(program, was, modes[..]);
    }

    /** The fields hold the layout l. */
    ghost predicate LaidOut(l: Layout)
      reads this, address
    {
      address[..] == l.address && pcs == l.pcs && symbols == l.symbols
    }

    /** Up to fifty rounds of laying out and shrinking, until a round changes neither an encoding nor the
        signature of the segments' used sizes. Not reaching that point takes 49 shrinking sweeps; then the encodings
        are those after the last sweep and the addresses and symbols those of the layout before it. The errors are those
        of all the rounds. */
    method Relax(signature: map<string, nat> -> int) returns (stable: bool, ghost rounds: nat)
      requires Valid() && modes[..] == InitialModes(program)
      modifies this, modes, address
      ensures Valid() && 1 <= rounds <= 50 && modes[..] == Batch(program, rounds)
      ensures errors == old(errors) + PassErrors(program, rounds)
      ensures LaidOut(LayoutOf(program, Batch(program, rounds - 1)))
      ensures stable ==> Stable(program, modes[..]) && Batch(program, rounds - 1) == modes[..]
      ensures !stable ==> StillShrinking(program, 50) && rounds == 50
    {
      stable := false;
      rounds := 50;
      var iter := 0;
      while iter < 50
        invariant iter <= 50 && Valid() && modes[..] == Batch(program, iter)
        invariant errors == old(errors) + PassErrors(program, iter)
        invariant iter > 0 ==> UsedBy(program, iter - 1, used)
        invariant StillShrinking(program, iter)
        invariant iter > 0 ==> LaidOut(LayoutOf(program, Batch(program, iter - 1)))
      {
        hide *;
        ghost var was := used;
        var signed := signature(used);
        ghost var before := errors;
        Pass1();
        ghost var m := modes[..];
        ValidParts();
        HeldParts(LayoutOf(program, m), before);
        Uses(program, iter);
        var changed := signed != signature(used);
        var narrowed := RelaxSweep(before);
        BatchNext(program, iter + 1);
        LaidOutAfter(LayoutOf(program, m), before);
        PassErrorsNext(program, iter);
        if !changed && !narrowed {
          BatchDescends(program, iter);
          FixedIsStable(program, m);
          stable, rounds := true, iter + 1;
          return;
        }
        ShrinkingStep(program, iter, was, used, narrowed);
        iter := iter + 1;
      }
    }

    lemma ValidParts()
      requires Valid()
      ensures WellFormed(program) && modes.Length == address.Length == |program.stmts|
    {
    }

    lemma LaidOutParts(l: Layout)
      requires LaidOut(l)
      ensures address[..] == l.address && pcs == l.pcs && symbols == l.symbols
    {
    }

    lemma LaidOutAfter(l: Layout, before: nat)
      requires Holds(l, before, address.Length)
      ensures LaidOut(l)
    {
    }

    lemma HeldParts(l: Layout, before: nat)
      requires Holds(l, before, address.Length)
      ensures pcs == l.pcs && errors == before + l.errors && LaidOut(l)
    {
    }
  }

  lemma PassErrorsNext(p: Program, n: nat)
    requires WellFormed(p)
    ensures PassErrors(p, n + 1) == PassErrors(p, n) + LayoutOf(p, Batch(p, n)).errors
  {
    hide LayoutOf, Batch;
  }

  ghost predicate UsedBy(p: Program, n: nat, used: map<string, nat>)
    requires WellFormed(p)
  {
    used == LayoutOf(p, Batch(p, n)).pcs
  }

  lemma Uses(p: Program, n: nat)
    requires WellFormed(p)
    ensures UsedBy(p, n, LayoutOf(p, Batch(p, n)).pcs)
  {
  }

  /** Each of the first k - 1 sweeps has narrowed something. */
  ghost predicate StillShrinking(p: Program, k: nat)
    requires WellFormed(p)
  {
    forall n: nat :: n + 2 <= k ==> Batch(p, n + 1) != Batch(p, n)
  }

  lemma ShrinkingStep(p: Program, k: nat, was: map<string, nat>, used: map<string, nat>, narrowed: bool)
    requires WellFormed(p) && StillShrinking(p, k) && UsedBy(p, k, used) && (k > 0 ==> UsedBy(p, k - 1, was))
    requires narrowed == (Batch(p, k + 1) != Batch(p, k)) && (narrowed || was != used)
    ensures StillShrinking(p, k + 1)
  {
    hide RelaxAll, LayoutOf, InitialModes;
    BatchNext(p, k + 1);
    if k > 0 {
      BatchNext(p, k);
    }
  }

  lemma BatchNext(p: Program, n: nat)
    requires WellFormed(p) && 0 < n
    ensures Batch(p, n) == RelaxAll(p, Batch(p, n - 1))
  {
  }

  lemma FixedIsStable(p: Program, m: Modes)
    requires WellFormed(p) && Below(m, InitialModes(p)) && |m| == |p.stmts| && RelaxAll(p, m) == m
    ensures Stable(p, m)
  {
    hide RelaxedAt;
    forall i | 0 <= i < |m|
      ensures RelaxedAt(p, m, m[i], i) == m[i]
    {
      assert RelaxAll(p, m)[i] == RelaxedAt(p, m, m[i], i);
    }
  }

  function Batches(p: Program, n: nat): (ts: seq<Modes>)
    requires WellFormed(p)
  {
    seq(n + 1, k requires 0 <= k <= n => Batch(p, k))
  }

  /** Whole sweeps are one of the runs. */
  lemma BatchesRun(p: Program, n: nat)
    requires WellFormed(p)
    ensures Run(p, Batches(p, n))
  {
    hide RelaxedAt, InitialModes;
    var ts := Batches(p, n);
    forall k | 0 <= k < n
      ensures MovesFrom(p, ts, k)
    {
      BatchNext(p, k + 1);
      forall i | 0 <= i < |p.stmts|
        ensures MovesAt(p, ts, k, i)
      {
        assert ts[k + 1][i] == RelaxedAt(p, ts[k], ts[k][i], i);
      }
    }
  }

  lemma BatchDescends(p: Program, n: nat)
    requires WellFormed(p)
    ensures Below(Batch(p, n), InitialModes(p))
  {
    hide RelaxedAt, Below;
    BatchesRun(p, n);
    RunDescends(p, Batches(p, n), 0, n);
  }

  /** What whole sweeps end in is what every order of relaxing ends in: the widest stable choice. */
  lemma BatchIsLargest(p: Program, n: nat, us: seq<Modes>, c: Modes)
    requires Plain(p) && Stable(p, Batch(p, n))
    ensures Stable(p, c) ==> Below(c, Batch(p, n))
    ensures Run(p, us) && Stable(p, us[|us| - 1]) ==> us[|us| - 1] == Batch(p, n)
  {
    hide *;
    PlainIsWellFormed(p);
    BatchesRun(p, n);
    BatchesEnd(p, n);
    StableEndIsLargest(p, Batches(p, n), us, c);
  }

  lemma PlainIsWellFormed(p: Program)
    requires Plain(p)
    ensures WellFormed(p)
  {
  }

  lemma BatchesEnd(p: Program, n: nat)
    requires WellFormed(p)
    ensures |Batches(p, n)| == n + 1 && Batches(p, n)[n] == Batch(p, n)
  {
  }

  // ----- how many sweeps it takes -----

  /** Statements among the first i that still could have a narrow form. */
  function Wide(m: Modes, i: nat): (w: nat)
    requires i <= |m|
    ensures w <= i
  {
    if i == 0 then 0 else Wide(m, i - 1) + (if m[i - 1] == RelLong || ZeroPageOf(m[i - 1]).Some? then 1 else 0)
  }

  lemma {:induction false} WideShrinks(b: Modes, a: Modes, i: nat)
    requires Below(b, a) && i <= |a|
    ensures Wide(b, i) <= Wide(a, i) && (Wide(b, i) == Wide(a, i) ==> b[..i] == a[..i])
  {
    if i > 0 {
      WideShrinks(b, a, i - 1);
      assert AtMost(b[i - 1], a[i - 1]);
      assert a[..i] == a[..i - 1] + [a[i - 1]] && b[..i] == b[..i - 1] + [b[i - 1]];
    }
  }

  lemma {:induction false} ShrinkingCosts(p: Program, n: nat)
    requires WellFormed(p) && StillShrinking(p, n + 1)
    ensures |Batch(p, n)| == |p.stmts| && Wide(Batch(p, n), |p.stmts|) + n <= |p.stmts|
  {
    hide Wide, Run, Below, RelaxAll;
    if n > 0 {
      ShrinkingCosts(p, n - 1);
      OneSweepCosts(p, n);
    }
  }

  lemma OneSweepCosts(p: Program, n: nat)
    requires WellFormed(p) && n > 0 && Batch(p, n) != Batch(p, n - 1)
    ensures |Batch(p, n)| == |Batch(p, n - 1)| == |p.stmts|
    ensures Wide(Batch(p, n), |p.stmts|) < Wide(Batch(p, n - 1), |p.stmts|)
  {
    hide Wide, Run, Below, RelaxAll, Batch;
    var ts := Batches(p, n);
    BatchesRun(p, n);
    RunDescends(p, ts, n - 1, n);
    BatchesEnd(p, n);
    WideShrinks(ts[n], ts[n - 1], |p.stmts|);
    assert ts[n][..|p.stmts|] == ts[n] && ts[n - 1][..|p.stmts|] == ts[n - 1];
  }

  /** With at most 48 statements the fifty rounds always suffice. */
  lemma ShortProgramsSettle(p: Program)
    requires WellFormed(p) && |p.stmts| <= 48
    ensures !StillShrinking(p, 50)
  {
    if StillShrinking(p, 50) {
      ShrinkingCosts(p, 49);
    }
  }

  /** Statement i has been looked at. */
  ghost predicate Swept(p: Program, l: Layout, was: Modes, now: Modes, i: nat)
    requires |l.address| == |p.stmts| == |was|
  {
    && |now| == |was| && i <= |was|
    && (forall k :: 0 <= k < i ==> now[k] == Relaxed(p, p.stmts[k], was[k], l.symbols, l.address[k]))
    && (forall k :: i <= k < |was| ==> now[k] == was[k])
  }

  lemma SweptOne(p: Program, l: Layout, was: Modes, before: Modes, after: Modes, i: nat)
    requires |l.address| == |p.stmts| == |was| && Swept(p, l, was, before, i) && i < |was|
    requires after == before[i := Relaxed(p, p.stmts[i], before[i], l.symbols, l.address[i])]
    ensures Swept(p, l, was, after, i + 1)
  {
    hide Relaxed;
  }

  lemma SweptAll(p: Program, was: Modes, now: Modes)
    requires WellFormed(p) && |was| == |p.stmts| && Swept(p, LayoutOf(p, was), was, now, |was|)
    ensures now == RelaxAll(p, was)
  {
    hide Relaxed, LayoutOf;
  }

  predicate IsIllegal(p: Program, s: Stmt) {
    s.body.Insn? && InitialMode(p.table, s.body.op, s.body.spec, s.body.parsed).None?
  }

  /** Instructions among the first i whose operand shape no addressing mode accepts. */
  function Illegal(p: Program, i: nat): nat
    requires i <= |p.stmts|
  {
    if i == 0 then 0 else Illegal(p, i - 1) + (if IsIllegal(p, p.stmts[i - 1]) then 1 else 0)
  }
}
