/** Programs on which the peephole pass changes the result: one for each condition the
    simulation asks for beyond what the compiler's own output always satisfies. */
module PeepholeLimits {
  import opened Basics
  import opened Peephole
  import opened PeepholeMachine
  import opened PeepholeSimulation

  function Op(mnemonic: string, operand: string): Line {
    Insn(mnemonic, Some(operand))
  }

  lemma {:induction false} RunStopped(env: Env, lines: seq<Line>, keep: seq<bool>, s: Config, n: nat, k: nat)
    requires |keep| == |lines| && InCode(lines, s) && Run(env, lines, keep, s, k).Done? && k <= n
    ensures Run(env, lines, keep, s, n) == Run(env, lines, keep, s, k)
  {
    if k < n { RunStopped(env, lines, keep, s, n - 1, k); }
  }

  /** Two runs that stop after m steps with different cores do not mean the same. */
  lemma StopsApart(env: Env, lines: seq<Line>, keep: seq<bool>, keep': seq<bool>, s: Config, m: nat)
    requires |keep| == |keep'| == |lines| && InCode(lines, s)
    requires Run(env, lines, keep, s, m).Done? && Run(env, lines, keep', s, m).Done?
    requires Run(env, lines, keep, s, m).core != Run(env, lines, keep', s, m).core
    ensures !MeansSame(env, lines, keep, keep', s)
  {
    hide Step;
    if MeansSame(env, lines, keep, keep', s) {
      assert Preceded(env, lines, keep, keep', s, m);
      var n: nat :| m <= n && Matched(env, lines, keep, keep', s, n, m);
      RunStopped(env, lines, keep, s, n, m);
      assert false;
    }
  }

  /** Three instructions in a row, from the top. */
  lemma ThreeInARow(env: Env, lines: seq<Line>, keep: seq<bool>, core: Core, nz: Byte)
    requires |lines| == |keep| == 3 && keep[0] && keep[1]
    requires forall i :: 0 <= i < 3 ==> lines[i].Insn? && !IsJump(lines[i].mnemonic) && lines[i].mnemonic != "rts"
    ensures var (c1, n1) := Execute(env, lines[0].mnemonic, lines[0].operand, core, nz);
      var (c2, n2) := Execute(env, lines[1].mnemonic, lines[1].operand, c1, n1);
      var (c3, n3) := Execute(env, lines[2].mnemonic, lines[2].operand, c2, n2);
      Run(env, lines, keep, Running(0, core, nz), 4) == Done(FellOff, if keep[2] then c3 else c2)
  {
    hide Execute;
    var s := Running(0, core, nz);
    assert Fetch(lines, keep, 3) == 3 && Fetch(lines, keep, 2) == if keep[2] then 2 else 3;
    assert Fetch(lines, keep, 1) == 1 && Fetch(lines, keep, 0) == 0;
    var s1 := Step(env, lines, keep, s);
    var s2 := Step(env, lines, keep, s1);
    var s3 := Step(env, lines, keep, s2);
    assert Run(env, lines, keep, s, 0) == s;
    assert Run(env, lines, keep, s, 1) == s1;
    assert Run(env, lines, keep, s, 2) == s2;
    assert Run(env, lines, keep, s, 3) == s3;
  }

  /** dex is not among the instructions the pass knows: it does not forget X. */
  lemma UnknownWriter(env: Env, core: Core, nz: Byte)
    requires env.imm("#1") == 1
    ensures var lines := [Op("ldx", "#1"), Op("dex", ""), Op("ldx", "#1")];
      !MeansSame(env, lines, AllKept(3), Sweep(lines, AllKept(3)), Running(0, core, nz))
  {
    var lines := [Op("ldx", "#1"), Op("dex", ""), Op("ldx", "#1")];
    var all := AllKept(3);
    UnknownWriterSwept();
    hide Sweep, MeansSame, Run;
    ThreeInARow(env, lines, all, core, nz);
    ThreeInARow(env, lines, Sweep(lines, all), core, nz);
    StopsApart(env, lines, all, Sweep(lines, all), Running(0, core, nz), 4);
  }

  lemma UnknownWriterSwept()
    ensures Sweep([Op("ldx", "#1"), Op("dex", ""), Op("ldx", "#1")], AllKept(3)) == [true, true, false]
  {
    var lines := [Op("ldx", "#1"), Op("dex", ""), Op("ldx", "#1")];
    assert TrackAt(lines, AllKept(3), 1).x == Some("#1");
    assert TrackAt(lines, AllKept(3), 2).x == Some("#1");
  }

  /** A store to a zero-page name does not forget X, though X may hold that name's old value. */
  lemma StoredOperand(env: Env, core: Core, nz: Byte)
    requires core.a != Load(core.mem, env.zp("arg0"))
    ensures var lines := [Op("ldx", "arg0"), Op("sta", "arg0"), Op("ldx", "arg0")];
      !MeansSame(env, lines, AllKept(3), Sweep(lines, AllKept(3)), Running(0, core, nz))
  {
    var lines := [Op("ldx", "arg0"), Op("sta", "arg0"), Op("ldx", "arg0")];
    var all := AllKept(3);
    assert TrackAt(lines, all, 1).x == Some("arg0");
    assert TrackAt(lines, all, 2).x == Some("arg0");
    assert Sweep(lines, all) == [true, true, false];
    ThreeInARow(env, lines, all, core, nz);
    ThreeInARow(env, lines, Sweep(lines, all), core, nz);
    StopsApart(env, lines, all, Sweep(lines, all), Running(0, core, nz), 4);
  }

  function FlagReader(): seq<Line> {
    [Op("lda", "#0"), Op("ldy", "#1"), Op("lda", "#0"), Op("beq", "@out"), Op("sec", ""), Label("@out")]
  }

  lemma FlagReaderSwept()
    ensures Sweep(FlagReader(), AllKept(6)) == [true, true, false, true, true, true]
  {
    var lines, all := FlagReader(), AllKept(6);
    assert TrackAt(lines, all, 1) == Track(Some("#0"), None, None);
    assert TrackAt(lines, all, 2) == Track(Some("#0"), None, Some("#1"));
    assert NextKept(lines, all, 3) == 4;
    assert Sweep(lines, all)[0] && Sweep(lines, all)[1] && !Sweep(lines, all)[2];
    assert Sweep(lines, all)[3] && Sweep(lines, all)[4] && Sweep(lines, all)[5];
  }

  lemma FlagReaderTarget()
    ensures FindLabel(FlagReader(), 3, "@out", 0) == 5
  {
    var lines := FlagReader();
    assert Scope(lines, 5) == Scope(lines, 4) == Scope(lines, 3);
    assert FindLabel(lines, 3, "@out", 5) == 5;
    assert FindLabel(lines, 3, "@out", 2) == FindLabel(lines, 3, "@out", 4) == 5;
  }

  lemma FourSteps(env: Env, lines: seq<Line>, keep: seq<bool>, s: Config)
    requires |keep| == |lines| && InCode(lines, s)
    ensures var s1 := Step(env, lines, keep, s);
      var s2 := Step(env, lines, keep, s1);
      var s3 := Step(env, lines, keep, s2);
      var s4 := Step(env, lines, keep, s3);
      Run(env, lines, keep, s, 5) == Step(env, lines, keep, s4)
  {
    hide Step;
    var s1 := Step(env, lines, keep, s);
    var s2 := Step(env, lines, keep, s1);
    var s3 := Step(env, lines, keep, s2);
    RunCons(env, lines, keep, s, 4);
    RunCons(env, lines, keep, s1, 3);
    RunCons(env, lines, keep, s2, 2);
    RunCons(env, lines, keep, s3, 1);
    RunCons(env, lines, keep, Step(env, lines, keep, s3), 0);
  }

  /** What each line of the example does. */
  lemma FlagReaderActs(env: Env, core: Core, nz: Byte)
    requires env.imm("#0") == 0 && env.imm("#1") == 1
    ensures |FlagReader()| == 6 && forall i :: 0 <= i < 5 ==> FlagReader()[i].Insn?
    ensures Act(env, FlagReader(), 0, core, nz) == Running(1, core.(a := 0), 0)
    ensures Act(env, FlagReader(), 1, core, nz) == Running(2, core.(y := 1), 1)
    ensures Act(env, FlagReader(), 2, core, nz) == Running(3, core.(a := 0), 0)
    ensures Act(env, FlagReader(), 3, core, nz) == if nz == 0 then Running(5, core, nz) else Running(4, core, nz)
    ensures Act(env, FlagReader(), 4, core, nz) == Running(5, core.(c := true), nz)
  {
    FlagReaderActsFirst(env, core, nz);
    hide Act;
    FlagReaderActsLast(env, core, nz);
  }

  lemma FlagReaderActsFirst(env: Env, core: Core, nz: Byte)
    requires env.imm("#0") == 0 && env.imm("#1") == 1
    ensures Act(env, FlagReader(), 0, core, nz) == Running(1, core.(a := 0), 0)
    ensures Act(env, FlagReader(), 1, core, nz) == Running(2, core.(y := 1), 1)
    ensures Act(env, FlagReader(), 2, core, nz) == Running(3, core.(a := 0), 0)
  {
    hide FindLabel;
  }

  lemma FlagReaderActsLast(env: Env, core: Core, nz: Byte)
    ensures Act(env, FlagReader(), 3, core, nz) == if nz == 0 then Running(5, core, nz) else Running(4, core, nz)
    ensures Act(env, FlagReader(), 4, core, nz) == Running(5, core.(c := true), nz)
  {
    FlagReaderTarget();
    hide FindLabel;
  }

  lemma FlagReaderFetches(keep: seq<bool>)
    requires keep == AllKept(6) || keep == [true, true, false, true, true, true]
    ensures |FlagReader()| == 6
    ensures Fetch(FlagReader(), keep, 0) == 0 && Fetch(FlagReader(), keep, 1) == 1
    ensures Fetch(FlagReader(), keep, 2) == if keep[2] then 2 else 3
    ensures Fetch(FlagReader(), keep, 3) == 3 && Fetch(FlagReader(), keep, 4) == 4 && Fetch(FlagReader(), keep, 5) == 6
  {
    assert Fetch(FlagReader(), keep, 5) == 6;
  }

  /** As written, the last load sets N and Z and the branch skips the sec; swept, the branch sees
      the flags of the ldy and falls through to it. */
  lemma FlagReaderRuns(env: Env, keep: seq<bool>, core: Core, nz: Byte)
    requires keep == AllKept(6) || keep == [true, true, false, true, true, true]
    requires env.imm("#0") == 0 && env.imm("#1") == 1
    ensures |FlagReader()| == |keep| == 6
    ensures Run(env, FlagReader(), keep, Running(0, core, nz), 5) ==
      Done(FellOff, core.(a := 0, y := 1, c := if keep[2] then core.c else true))
  {
    var lines := FlagReader();
    FlagReaderFetches(keep);
    FourSteps(env, lines, keep, Running(0, core, nz));
    var core2 := core.(a := 0, y := 1);
    FlagReaderActs(env, core, nz);
    FlagReaderActs(env, core.(a := 0), 0);
    FlagReaderActs(env, core2, 1);
    FlagReaderActs(env, core2, 0);
    hide Run, Act, Fetch, FlagReader;
  }

  /** A dropped load no longer sets N and Z for the branch after it. */
  lemma ObservedFlags(env: Env, core: Core, nz: Byte)
    requires !core.c && env.imm("#0") == 0 && env.imm("#1") == 1
    ensures !MeansSame(env, FlagReader(), AllKept(6), Sweep(FlagReader(), AllKept(6)), Running(0, core, nz))
  {
    FlagReaderSwept();
    hide Run, Sweep, FlagReader;
    var kept := [true, true, false, true, true, true];
    FlagReaderRuns(env, AllKept(6), core, nz);
    FlagReaderRuns(env, kept, core, nz);
    StopsApart(env, FlagReader(), AllKept(6), kept, Running(0, core, nz), 5);
  }
}
