/** The peephole pass keeps a program's meaning. One sweep is simulated step by step; sweeps compose. */
module PeepholeSimulation {
  import opened Basics
  import opened Peephole
  import opened PeepholeMachine

  /** The mnemonics the pass handles, with clc and sec. */
  predicate Handled(m: string) {
    || IsLoad(m) || m == "sta" || IsArithmetic(m) || m == "cmp" || m == "pha" || m == "pla" || m == "iny"
    || m == "clc" || m == "sec" || m == "jsr" || m == "rts" || IsJump(m)
  }

  /** Instructions that set N and Z themselves. */
  predicate SetsFlags(m: string) {
    IsLoad(m) || IsArithmetic(m) || m == "cmp" || m == "pla" || m == "iny" || m == "jsr"
  }

  /** Only handled instructions, no verbatim text. */
  predicate SupportedLine(line: Line) {
    !line.Raw? && (line.Insn? ==> Handled(line.mnemonic))
  }

  predicate Supported(lines: seq<Line>) {
    forall i :: 0 <= i < |lines| ==> SupportedLine(lines[i])
  }

  // ----- which positions cannot observe N and Z -----

  /** Starting from line i with unknown N and Z, the next line to use them sets them first,
      provided the same holds of the lines i leads to. */
  predicate FlagsDeadAt(lines: seq<Line>, q: set<nat>, i: nat) {
    if i >= |lines| then i == |lines|
    else if !lines[i].Insn? then i + 1 in q
    else
      var m := lines[i].mnemonic;
      if IsBranch(m) then false
      else if m == "jmp" then
        var j := FindLabel(lines, i, Name(lines[i].operand), 0);
        j < |lines| ==> j in q
      else SetsFlags(m) || m == "rts" || i + 1 in q
  }

  predicate FlagsDead(lines: seq<Line>, q: set<nat>) {
    forall i :: i in q ==> FlagsDeadAt(lines, q, i)
  }

  predicate DroppedLoad(lines: seq<Line>, keep: seq<bool>, keep': seq<bool>, i: nat)
    requires |keep| == |keep'| == |lines| && i < |lines|
  {
    keep[i] && !keep'[i] && lines[i].Insn? && IsLoad(lines[i].mnemonic)
  }

  /** No beq or bne can observe N or Z as last set by a load that was dropped. */
  predicate LoadsUnobserved(lines: seq<Line>, q: set<nat>, keep: seq<bool>, keep': seq<bool>)
    requires |keep| == |keep'| == |lines|
  {
    FlagsDead(lines, q) && forall i :: 0 <= i < |lines| && DroppedLoad(lines, keep, keep', i) ==> i + 1 in q
  }

  /** Only instructions are ever dropped. */
  predicate KeepsOthers(lines: seq<Line>, keep: seq<bool>) {
    |keep| == |lines| && forall i :: 0 <= i < |lines| && !lines[i].Insn? ==> keep[i]
  }

  // ----- Fetch -----

  lemma FetchOver(lines: seq<Line>, keep: seq<bool>, p: nat)
    requires |keep| == |lines| && p < |lines| && !(keep[p] && lines[p].Insn?)
    ensures Fetch(lines, keep, p) == Fetch(lines, keep, p + 1)
  {
  }

  /** Fetching under fewer marks may first fetch under more. */
  lemma {:induction false} FetchFewer(lines: seq<Line>, keep: seq<bool>, keep': seq<bool>, p: nat)
    requires |keep| == |keep'| == |lines| && p <= |lines|
    requires forall i :: 0 <= i < |lines| && keep'[i] ==> keep[i]
    ensures Fetch(lines, keep', p) == Fetch(lines, keep', Fetch(lines, keep, p))
    decreases |lines| - p
  {
    if Fetch(lines, keep, p) != p {
      FetchFewer(lines, keep, keep', p + 1);
    }
  }

  /** Nothing is executed between a dropped jump and the label it jumps to. */
  lemma {:induction false} FetchToNext(lines: seq<Line>, keep: seq<bool>, keep': seq<bool>, k: nat, i: nat)
    requires |keep| == |keep'| == |lines| && k < |lines| && k <= i <= NextKept(lines, keep, k)
    requires forall x :: 0 <= x < |lines| && keep'[x] ==> keep[x]
    requires !keep'[k]
    ensures Fetch(lines, keep', k) == Fetch(lines, keep', i)
  {
    if i > k {
      FetchToNext(lines, keep, keep', k, i - 1);
      if i - 1 > k { NextKeptSkips(lines, keep, k, i - 1); }
    }
  }

  lemma {:induction false} NextKeptSkips(lines: seq<Line>, keep: seq<bool>, k: nat, i: nat)
    requires |keep| == |lines| && k < |lines| && k < i < NextKept(lines, keep, k)
    ensures !keep[i] || lines[i].Blank?
    decreases i - k
  {
    if i > k + 1 { NextKeptSkips(lines, keep, k + 1, i); }
  }

  // ----- dead flags and marks -----

  /** Where the flags are dead, they are dead at the next executed line. */
  ghost predicate DeadThrough(lines: seq<Line>, q: set<nat>, keep: seq<bool>)
    requires |keep| == |lines|
  {
    forall p :: p in q && p <= |lines| ==> Fetch(lines, keep, p) in q
  }

  lemma {:induction false} DeadInitially(lines: seq<Line>, q: set<nat>, keep: seq<bool>, p: nat)
    requires FlagsDead(lines, q) && |keep| == |lines| && forall i :: 0 <= i < |lines| ==> keep[i]
    requires p in q && p <= |lines|
    ensures Fetch(lines, keep, p) in q
    decreases |lines| - p
  {
    assert FlagsDeadAt(lines, q, p);
    if p < |lines| && !lines[p].Insn? {
      DeadInitially(lines, q, keep, p + 1);
    }
  }

  /** From a dropped jump to the label it names. */
  lemma DeadPastJump(lines: seq<Line>, q: set<nat>, keep: seq<bool>, k: nat)
    requires KeepsOthers(lines, keep) && UniqueLabels(lines) && FlagsDead(lines, q)
    requires k in q && k < |lines| && JumpsToNext(lines, keep, k) && !Sweep(lines, keep)[k]
    ensures var j := NextKept(lines, keep, k);
      j in q && Fetch(lines, Sweep(lines, keep), k) == Fetch(lines, Sweep(lines, keep), j)
  {
    assert FlagsDeadAt(lines, q, k);
    NextLabelFound(lines, keep, k);
    hide Fetch, FindLabel, NextKept, KeepsOthers, UniqueLabels, TrackAt;
    FetchToNext(lines, keep, Sweep(lines, keep), k, NextKept(lines, keep, k));
  }

  /** From a dropped load to the line after it. */
  lemma DeadPastLoad(lines: seq<Line>, q: set<nat>, keep: seq<bool>, k: nat)
    requires |keep| == |lines| && LoadsUnobserved(lines, q, keep, Sweep(lines, keep))
    requires k < |lines| && keep[k] && !JumpsToNext(lines, keep, k) && !Sweep(lines, keep)[k]
    ensures k + 1 in q && Fetch(lines, Sweep(lines, keep), k) == Fetch(lines, Sweep(lines, keep), k + 1)
  {
    hide Fetch, FlagsDead, JumpsToNext, TrackAt;
    assert DroppedLoad(lines, keep, Sweep(lines, keep), k);
    FetchOver(lines, Sweep(lines, keep), k);
  }

  /** Fetching ends at a kept instruction or past the end, and a sweep only drops more. */
  lemma {:induction false} FetchedIs(lines: seq<Line>, keep: seq<bool>, p: nat)
    requires |keep| == |lines| && p <= |lines|
    ensures var k := Fetch(lines, keep, p); p <= k <= |lines| && (k < |lines| ==> keep[k] && lines[k].Insn?)
    decreases |lines| - p
  {
    if p < |lines| && !(keep[p] && lines[p].Insn?) { FetchedIs(lines, keep, p + 1); }
  }

  lemma SweepOnlyDrops(lines: seq<Line>, keep: seq<bool>)
    requires |keep| == |lines|
    ensures |Sweep(lines, keep)| == |lines| && forall i :: 0 <= i < |lines| && Sweep(lines, keep)[i] ==> keep[i]
  {
    hide Dropped, TrackAt;
  }

  lemma FetchesItself(lines: seq<Line>, keep: seq<bool>, k: nat)
    requires |keep| == |lines| && k <= |lines| && (k < |lines| ==> keep[k] && lines[k].Insn?)
    ensures Fetch(lines, keep, k) == k
  {
  }

  lemma DeadParts(lines: seq<Line>, q: set<nat>, keep: seq<bool>, p: nat)
    requires KeepsOthers(lines, keep) && LoadsUnobserved(lines, q, keep, Sweep(lines, keep)) && DeadThrough(lines, q, keep)
    requires p in q && p <= |lines|
    ensures |keep| == |lines| && FlagsDead(lines, q) && Fetch(lines, keep, p) in q
  {
    hide FlagsDead, Fetch;
  }

  /** A sweep keeps the dead positions dead at the next executed line. */
  lemma {:induction false} DeadAfterSweep(lines: seq<Line>, q: set<nat>, keep: seq<bool>, p: nat)
    requires KeepsOthers(lines, keep) && UniqueLabels(lines)
    requires LoadsUnobserved(lines, q, keep, Sweep(lines, keep)) && DeadThrough(lines, q, keep)
    requires p in q && p <= |lines|
    ensures Fetch(lines, Sweep(lines, keep), p) in q
    decreases |lines| - p
  {
    hide *;
    DeadParts(lines, q, keep, p);
    var keep', k := Sweep(lines, keep), Fetch(lines, keep, p);
    SweepOnlyDrops(lines, keep);
    FetchedIs(lines, keep, p);
    FetchFewer(lines, keep, keep', p);
    if k == |lines| || keep'[k] {
      FetchesItself(lines, keep', k);
    } else if JumpsToNext(lines, keep, k) {
      DeadPastJump(lines, q, keep, k);
      DeadAfterSweep(lines, q, keep, NextKept(lines, keep, k));
    } else {
      DeadPastLoad(lines, q, keep, k);
      DeadAfterSweep(lines, q, keep, k + 1);
    }
  }

  lemma {:induction false} ScopeAcross(lines: seq<Line>, keep: seq<bool>, k: nat, i: nat)
    requires KeepsOthers(lines, keep) && k < |lines| && k <= i < NextKept(lines, keep, k)
    requires lines[k].Insn?
    ensures Scope(lines, i) == Scope(lines, k)
  {
    if i > k {
      ScopeAcross(lines, keep, k, i - 1);
      NextKeptSkips(lines, keep, k, i);
    }
  }

  /** The label a dropped jump stands in front of is the one it refers to. */
  lemma NextLabelFound(lines: seq<Line>, keep: seq<bool>, k: nat)
    requires KeepsOthers(lines, keep) && UniqueLabels(lines) && k < |lines| && JumpsToNext(lines, keep, k)
    ensures FindLabel(lines, k, Name(lines[k].operand), 0) == NextKept(lines, keep, k)
  {
    var j := NextKept(lines, keep, k);
    var name := Name(lines[k].operand);
    ScopeAcross(lines, keep, k, j - 1);
    assert Names(lines, k, name, j);
    var i := FindLabel(lines, k, name, 0);
    FindLabelFirst(lines, k, name, 0, j);
    assert Names(lines, k, name, i);
    assert Names(lines, j, lines[j].name, i);
  }

  lemma {:induction false} FindLabelFirst(lines: seq<Line>, from: nat, name: string, start: nat, j: nat)
    requires from < |lines| && start <= j < |lines| && Names(lines, from, name, j)
    ensures FindLabel(lines, from, name, start) <= j
    decreases |lines| - start
  {
    if start < j { FindLabelFirst(lines, from, name, start + 1, j); }
  }

  // ----- what the lines alone say -----

  /** What each register was last loaded with when line i is reached, read off the lines in order. */
  function Seen(lines: seq<Line>, i: nat): Track
    requires i <= |lines|
  {
    if i == 0 then UNKNOWN else After(lines[i - 1], Seen(lines, i - 1))
  }

  /** Line i loads what the register has been holding since an earlier line. */
  predicate Repeats(lines: seq<Line>, i: nat)
    requires i < |lines|
  {
    LoadsHeld(lines[i], Seen(lines, i))
  }

  /** No beq or bne can observe N or Z as last set by such a load. */
  predicate RepeatsUnobserved(lines: seq<Line>, q: set<nat>) {
    FlagsDead(lines, q) && forall i :: 0 <= i < |lines| && Repeats(lines, i) ==> i + 1 in q
  }

  /** Only jumps and repeated loads have been dropped. */
  ghost predicate DropsRepeats(lines: seq<Line>, keep: seq<bool>) {
    && |keep| == |lines|
    && forall i :: 0 <= i < |lines| && !keep[i] ==> lines[i].Insn? && (IsJump(lines[i].mnemonic) || Repeats(lines, i))
  }

  function OnlyImmediate(operand: Option<string>): Option<string> {
    if operand.Some? && IsImmediate(operand.value) then operand else None
  }

  /** What is known after a line when a store also forgets what was loaded into X and Y from memory. */
  function SureAfter(line: Line, t: Track): Track {
    var r := After(line, t);
    if line.Insn? && line.mnemonic == "sta" then r.(x := OnlyImmediate(r.x), y := OnlyImmediate(r.y)) else r
  }

  function Sure(lines: seq<Line>, i: nat): Track
    requires i <= |lines|
  {
    if i == 0 then UNKNOWN else SureAfter(lines[i - 1], Sure(lines, i - 1))
  }

  /** No store stands between a load of X or Y from a zero-page name and a load that repeats it. */
  predicate RepeatsSure(lines: seq<Line>) {
    forall i :: 0 <= i < |lines| && Repeats(lines, i) ==> LoadsHeld(lines[i], Sure(lines, i))
  }

  /** So what a sweep drops teaches nothing new. */
  lemma DroppedStaysSure(lines: seq<Line>, keep: seq<bool>, i: nat)
    requires DropsRepeats(lines, keep) && RepeatsSure(lines) && i < |lines| && !keep[i]
    ensures Sure(lines, i + 1) == Sure(lines, i)
  {
    hide Seen;
  }

  // ----- what the sweep knows is true -----

  /** A tracked operand is safe to track and has the register's value. */
  ghost predicate Holds(env: Env, operand: Option<string>, register: Byte, core: Core) {
    operand.Some? ==> IsSafeLoad(operand) && register == OperandValue(env, operand.value, core)
  }

  ghost predicate Knows(env: Env, t: Track, core: Core) {
    Holds(env, t.a, core.a, core) && Holds(env, t.x, core.x, core) && Holds(env, t.y, core.y, core)
  }

  /** Such an operand's value changes only with memory, and that of an immediate not at all. */
  lemma HoldsStill(env: Env, operand: Option<string>, register: Byte, core: Core, core': Core)
    requires Holds(env, operand, register, core)
    ensures core'.mem == core.mem ==> Holds(env, operand, register, core')
    ensures Holds(env, OnlyImmediate(operand), register, core')
  {
    hide IsCompilerZp;
  }

  lemma HoldsLoaded(env: Env, operand: Option<string>, core: Core, core': Core)
    ensures core'.mem == core.mem ==> Holds(env, Loaded(operand), OperandValue(env, Name(operand), core), core')
  {
    hide IsCompilerZp;
  }

  /** Executing a kept line keeps the knowledge true. */
  lemma KnowsAfter(env: Env, line: Line, t: Track, core: Core, nz: Byte)
    requires SupportedLine(line) && line.Insn? && Knows(env, t, core)
    requires !IsJump(line.mnemonic) && line.mnemonic != "rts"
    ensures Knows(env, SureAfter(line, t), Execute(env, line.mnemonic, line.operand, core, nz).0)
  {
    var next := Execute(env, line.mnemonic, line.operand, core, nz).0;
    HoldsStill(env, t.a, core.a, core, next);
    HoldsStill(env, t.x, core.x, core, next);
    HoldsStill(env, t.y, core.y, core, next);
    HoldsLoaded(env, line.operand, core, next);
    assert Holds(env, None, next.a, next) && Holds(env, None, next.x, next) && Holds(env, None, next.y, next);
    NotReset(line);
    hide OperandValue, Address, Resets, Holds, OnlyImmediate, Loaded;
  }

  lemma NotReset(line: Line)
    requires line.Insn?
    ensures !Resets(line)
  {
  }

  /** Reloading what the register holds changes nothing but N and Z. */
  lemma HeldLoadIsIdle(env: Env, line: Line, t: Track, core: Core, nz: Byte)
    requires LoadsHeld(line, t) && Knows(env, t, core)
    ensures Execute(env, line.mnemonic, line.operand, core, nz).0 == core
  {
  }

  /** Knowledge on the way to the next executed line. */
  lemma {:induction false} KnowsThrough(env: Env, lines: seq<Line>, keep: seq<bool>, p: nat, core: Core)
    requires DropsRepeats(lines, keep) && RepeatsSure(lines) && p <= |lines|
    requires Knows(env, Sure(lines, p), core) || (p < |lines| && lines[p].Label?)
    ensures |keep| == |lines| && Knows(env, Sure(lines, Fetch(lines, keep, p)), core)
    decreases |lines| - p
  {
    hide *;
    FetchStep(lines, keep, p);
    if p < |lines| && !(keep[p] && lines[p].Insn?) {
      KnowsNext(env, lines, keep, p, core);
      KnowsThrough(env, lines, keep, p + 1, core);
    }
  }

  lemma FetchStep(lines: seq<Line>, keep: seq<bool>, p: nat)
    requires DropsRepeats(lines, keep) && p <= |lines|
    ensures |keep| == |lines|
    ensures Fetch(lines, keep, p) == if p == |lines| || (keep[p] && lines[p].Insn?) then p else Fetch(lines, keep, p + 1)
  {
  }

  /** Past a line that is not executed. */
  lemma KnowsNext(env: Env, lines: seq<Line>, keep: seq<bool>, p: nat, core: Core)
    requires DropsRepeats(lines, keep) && RepeatsSure(lines) && p < |lines| && !(keep[p] && lines[p].Insn?)
    requires Knows(env, Sure(lines, p), core) || lines[p].Label?
    ensures Knows(env, Sure(lines, p + 1), core)
  {
    if !keep[p] {
      DroppedStaysSure(lines, keep, p);
    } else {
      hide DropsRepeats, RepeatsSure, OperandValue, IsSafeLoad;
      SureNext(lines, p);
    }
  }

  // ----- simulation of one sweep -----

  /** s runs on the marks before a sweep, t on the marks after it. */
  ghost predicate Related(env: Env, lines: seq<Line>, q: set<nat>, keep: seq<bool>, s: Config, t: Config)
    requires KeepsOthers(lines, keep) && InCode(lines, s) && InCode(lines, t)
  {
    && Same(s, t)
    && (s.Running? ==>
        && (s.nz == t.nz || Fetch(lines, keep, s.pc) in q)
        && Fetch(lines, Sweep(lines, keep), s.pc) == Fetch(lines, Sweep(lines, keep), t.pc)
        && (Knows(env, Sure(lines, s.pc), s.core) || (s.pc < |lines| && lines[s.pc].Label?)))
  }

  /** What a sweep needs of the program. */
  ghost predicate Sweepable(lines: seq<Line>, q: set<nat>, keep: seq<bool>) {
    && Supported(lines) && KeepsOthers(lines, keep) && UniqueLabels(lines)
    && DropsRepeats(lines, keep) && RepeatsSure(lines)
    && LoadsUnobserved(lines, q, keep, Sweep(lines, keep)) && DeadThrough(lines, q, keep)
  }

  /** Why line k was dropped, and that no more is known after it than before. */
  lemma DroppedFacts(lines: seq<Line>, keep: seq<bool>, k: nat)
    requires DropsRepeats(lines, keep) && RepeatsSure(lines)
    requires k < |lines| && keep[k] && !Sweep(lines, keep)[k]
    ensures JumpsToNext(lines, keep, k) || LoadsHeld(lines[k], Sure(lines, k))
    ensures Sure(lines, k + 1) == Sure(lines, k)
  {
    hide Seen, After, LoadsHeld;
    TrackIsSeen(lines, keep, k);
    SweepDropsRepeats(lines, keep);
    DroppedStaysSure(lines, Sweep(lines, keep), k);
  }

  /** The two ways to arrive: at the next line, or at the label the dropped jump names. */
  lemma DroppedLoadActs(env: Env, lines: seq<Line>, k: nat, t: Track, core: Core, nz: Byte)
    requires k < |lines| && LoadsHeld(lines[k], t) && Knows(env, t, core)
    ensures lines[k].Insn? && IsLoad(lines[k].mnemonic)
    ensures var r := Act(env, lines, k, core, nz); r.Running? && r.pc == k + 1 && r.core == core
  {
    hide OperandValue;
    HeldLoadIsIdle(env, lines[k], t, core, nz);
  }

  lemma DroppedJumpActs(env: Env, lines: seq<Line>, k: nat, core: Core, nz: Byte)
    requires k < |lines| && lines[k].Insn? && IsJump(lines[k].mnemonic) && FindLabel(lines, k, Name(lines[k].operand), 0) < |lines|
    ensures var r := Act(env, lines, k, core, nz);
      && r.Running? && r.core == core && r.nz == nz
      && (r.pc == FindLabel(lines, k, Name(lines[k].operand), 0) || (IsBranch(lines[k].mnemonic) && r.pc == k + 1))
  {
    hide Execute, FindLabel;
  }

  /** Jumping where dropped lines lead anyway. */
  lemma DroppedJumpStep(env: Env, lines: seq<Line>, q: set<nat>, keep: seq<bool>, k: nat, nz: Byte, t: Config,
                        core: Core)
    requires Sweepable(lines, q, keep) && InCode(lines, t) && t.Running? && t.core == core
    requires k < |lines| && keep[k] && !Sweep(lines, keep)[k] && JumpsToNext(lines, keep, k)
    requires (nz == t.nz || k in q) && Knows(env, Sure(lines, k), core)
    requires Fetch(lines, Sweep(lines, keep), k) == Fetch(lines, Sweep(lines, keep), t.pc)
    ensures var r := Act(env, lines, k, core, nz); r.Running? && r.pc > k && Related(env, lines, q, keep, r, t)
  {
    hide *;
    SweepableFacts(lines, q, keep);
    JumpFacts(lines, keep, k);
    FetchOver(lines, Sweep(lines, keep), k);
    DroppedFacts(lines, keep, k);
    DroppedJumpActs(env, lines, k, core, nz);
    if k in q { DeadJump(lines, q, keep, k); }
    RelatedAt(env, lines, q, keep, core, Act(env, lines, k, core, nz).pc, nz, t);
  }

  lemma JumpFacts(lines: seq<Line>, keep: seq<bool>, k: nat)
    requires KeepsOthers(lines, keep) && UniqueLabels(lines) && k < |lines| && JumpsToNext(lines, keep, k) && !Sweep(lines, keep)[k]
    ensures var j := FindLabel(lines, k, Name(lines[k].operand), 0);
      && lines[k].Insn? && IsJump(lines[k].mnemonic) && k < j < |lines| && lines[j].Label?
      && Fetch(lines, Sweep(lines, keep), k) == Fetch(lines, Sweep(lines, keep), j)
  {
    NextLabelFound(lines, keep, k);
    FetchToNext(lines, keep, Sweep(lines, keep), k, NextKept(lines, keep, k));
  }

  /** A dead position that jumps does so unconditionally, to a dead one. */
  lemma DeadJump(lines: seq<Line>, q: set<nat>, keep: seq<bool>, k: nat)
    requires Sweepable(lines, q, keep) && k < |lines| && lines[k].Insn? && IsJump(lines[k].mnemonic) && k in q
    ensures !IsBranch(lines[k].mnemonic)
    ensures var j := FindLabel(lines, k, Name(lines[k].operand), 0); j < |lines| ==> Fetch(lines, keep, j) in q
  {
    assert FlagsDeadAt(lines, q, k);
    hide Supported, UniqueLabels, KeepsOthers, Fetch, FindLabel;
  }

  lemma RelatedAt(env: Env, lines: seq<Line>, q: set<nat>, keep: seq<bool>, core: Core, p: nat, nz: Byte, t: Config)
    requires KeepsOthers(lines, keep) && |keep| == |lines| && p <= |lines| && InCode(lines, t) && t.Running? && t.core == core
    requires nz == t.nz || Fetch(lines, keep, p) in q
    requires Fetch(lines, Sweep(lines, keep), p) == Fetch(lines, Sweep(lines, keep), t.pc)
    requires Knows(env, Sure(lines, p), core) || (p < |lines| && lines[p].Label?)
    ensures Related(env, lines, q, keep, Running(p, core, nz), t)
  {
    hide Knows, TrackAt, Sweep, Fetch, KeepsOthers;
  }

  /** Loading what is held, where N and Z are not looked at. */
  lemma DroppedLoadStep(env: Env, lines: seq<Line>, q: set<nat>, keep: seq<bool>, k: nat, nz: Byte, t: Config,
                        core: Core)
    requires Sweepable(lines, q, keep) && InCode(lines, t) && t.Running? && t.core == core
    requires k < |lines| && keep[k] && !Sweep(lines, keep)[k] && LoadsHeld(lines[k], Sure(lines, k))
    requires Knows(env, Sure(lines, k), core)
    requires Fetch(lines, Sweep(lines, keep), k) == Fetch(lines, Sweep(lines, keep), t.pc)
    ensures var r := Act(env, lines, k, core, nz); r.Running? && r.pc > k && Related(env, lines, q, keep, r, t)
  {
    hide *;
    SweepableFacts(lines, q, keep);
    FetchOver(lines, Sweep(lines, keep), k);
    DroppedFacts(lines, keep, k);
    DroppedLoadActs(env, lines, k, Sure(lines, k), core, nz);
    DeadLoad(lines, q, keep, k);
    RelatedAt(env, lines, q, keep, core, k + 1, Act(env, lines, k, core, nz).nz, t);
  }

  lemma DeadLoad(lines: seq<Line>, q: set<nat>, keep: seq<bool>, k: nat)
    requires Sweepable(lines, q, keep) && k < |lines| && keep[k] && !Sweep(lines, keep)[k]
    requires lines[k].Insn? && IsLoad(lines[k].mnemonic)
    ensures Fetch(lines, keep, k + 1) in q
  {
    assert DroppedLoad(lines, keep, Sweep(lines, keep), k);
    hide Supported, UniqueLabels, KeepsOthers, Fetch, FlagsDead;
  }

  /** A line the sweep dropped is executed by s alone. */
  lemma DroppedStep(env: Env, lines: seq<Line>, q: set<nat>, keep: seq<bool>, s: Config, t: Config)
    requires Sweepable(lines, q, keep) && InCode(lines, s) && InCode(lines, t)
    requires s.Running? && Related(env, lines, q, keep, s, t)
    requires var k := Fetch(lines, keep, s.pc); k < |lines| && !Sweep(lines, keep)[k]
    ensures var r := Step(env, lines, keep, s); r.Running? && r.pc > s.pc && Related(env, lines, q, keep, r, t)
  {
    var k := Fetch(lines, keep, s.pc);
    KnowsThrough(env, lines, keep, s.pc, s.core);
    FetchFewer(lines, keep, Sweep(lines, keep), s.pc);
    DroppedFacts(lines, keep, k);
    hide Act, Knows, Fetch, Supported, UniqueLabels, TrackAt, JumpsToNext, LoadsHeld, LoadsUnobserved, DeadThrough;
    if JumpsToNext(lines, keep, k) {
      DroppedJumpStep(env, lines, q, keep, k, s.nz, t, s.core);
    } else {
      DroppedLoadStep(env, lines, q, keep, k, s.nz, t, s.core);
    }
  }

  /** N and Z after an instruction depend on nothing but the core, or are left as they were. */
  lemma FlagsAfter(env: Env, line: Line, core: Core, nz: Byte, nz': Byte)
    requires line.Insn? && Handled(line.mnemonic) && !IsJump(line.mnemonic) && line.mnemonic != "rts"
    ensures var r, r' := Execute(env, line.mnemonic, line.operand, core, nz), Execute(env, line.mnemonic, line.operand,
          core, nz');
      r.0 == r'.0 && (SetsFlags(line.mnemonic) ==> r.1 == r'.1) && (!SetsFlags(line.mnemonic) ==> r.1 == nz && r'.1 == nz')
  {
  }

  /** Both programs execute the kept line k from the same core. */
  lemma ActRelated(env: Env, lines: seq<Line>, q: set<nat>, keep: seq<bool>, k: nat, core: Core, nz: Byte, nz': Byte)
    requires Sweepable(lines, q, keep) && k < |lines| && lines[k].Insn? && Kept(lines, keep, k)
    requires Knows(env, Sure(lines, k), core) && (nz == nz' || k in q)
    ensures Related(env, lines, q, keep, Act(env, lines, k, core, nz), Act(env, lines, k, core, nz'))
  {
    var m := lines[k].mnemonic;
    KeptFacts(lines, keep, k);
    if IsJump(m) {
      JumpRelated(env, lines, q, keep, k, core, nz, nz');
    } else if m != "rts" {
      PlainRelated(env, lines, q, keep, k, core, nz, nz');
    }
  }

  lemma KeptFacts(lines: seq<Line>, keep: seq<bool>, k: nat)
    requires Supported(lines) && |keep| == |lines| && k < |lines| && Kept(lines, keep, k)
    ensures SupportedLine(lines[k])
  {
  }

  predicate Jumps(m: string, nz: Byte) {
    m == "jmp" || (m == "beq" && nz == 0) || (m == "bne" && nz != 0)
  }

  lemma JumpFalls(lines: seq<Line>, k: nat)
    requires k < |lines| && lines[k].Insn? && IsJump(lines[k].mnemonic)
    ensures Sure(lines, k + 1) == Sure(lines, k)
  {
  }

  lemma JumpActs(env: Env, lines: seq<Line>, k: nat, core: Core, nz: Byte)
    requires k < |lines| && lines[k].Insn? && IsJump(lines[k].mnemonic)
    ensures !IsBranch(lines[k].mnemonic) ==> Jumps(lines[k].mnemonic, nz)
    ensures var name := Name(lines[k].operand); var j := FindLabel(lines, k, name, 0);
      Act(env, lines, k, core, nz) ==
        if !Jumps(lines[k].mnemonic, nz) then Running(k + 1, core, nz)
        else if j < |lines| then Running(j, core, nz)
        else Done(Left(name), core)
  {
    hide FindLabel, Name, Execute;
  }

  lemma JumpRelated(env: Env, lines: seq<Line>, q: set<nat>, keep: seq<bool>, k: nat, core: Core, nz: Byte, nz': Byte)
    requires Sweepable(lines, q, keep) && k < |lines| && lines[k].Insn? && Kept(lines, keep, k) && IsJump(lines[k].mnemonic)
    requires Knows(env, Sure(lines, k), core) && (nz == nz' || k in q)
    ensures Related(env, lines, q, keep, Act(env, lines, k, core, nz), Act(env, lines, k, core, nz'))
  {
    hide *;
    SweepableFacts(lines, q, keep);
    if nz != nz' { DeadJump(lines, q, keep, k); }
    JumpFalls(lines, k);
    JumpActs(env, lines, k, core, nz);
    JumpActs(env, lines, k, core, nz');
    var j := FindLabel(lines, k, Name(lines[k].operand), 0);
    if !Jumps(lines[k].mnemonic, nz) {
      RelatedNext(env, lines, q, keep, k + 1, core, nz, nz');
    } else if j < |lines| {
      LabelFound(lines, k);
      RelatedNext(env, lines, q, keep, j, core, nz, nz');
    } else {
      RelatedDone(env, lines, q, keep, Left(Name(lines[k].operand)), core);
    }
  }

  lemma LabelFound(lines: seq<Line>, k: nat)
    requires k < |lines| && lines[k].Insn? && FindLabel(lines, k, Name(lines[k].operand), 0) < |lines|
    ensures lines[FindLabel(lines, k, Name(lines[k].operand), 0)].Label?
  {
    hide FindLabel;
  }

  lemma RelatedDone(env: Env, lines: seq<Line>, q: set<nat>, keep: seq<bool>, e: Exit, core: Core)
    requires KeepsOthers(lines, keep)
    ensures Related(env, lines, q, keep, Done(e, core), Done(e, core))
  {
  }

  lemma PlainRelated(env: Env, lines: seq<Line>, q: set<nat>, keep: seq<bool>, k: nat, core: Core, nz: Byte, nz': Byte)
    requires Sweepable(lines, q, keep) && k < |lines| && lines[k].Insn? && Kept(lines, keep, k) && SupportedLine(lines[k])
    requires !IsJump(lines[k].mnemonic) && lines[k].mnemonic != "rts"
    requires Knows(env, Sure(lines, k), core) && (nz == nz' || k in q)
    ensures Related(env, lines, q, keep, Act(env, lines, k, core, nz), Act(env, lines, k, core, nz'))
  {
    hide *;
    SweepableFacts(lines, q, keep);
    var r, r' := Execute(env, lines[k].mnemonic, lines[k].operand, core, nz), Execute(env, lines[k].mnemonic,
          lines[k].operand, core, nz');
    HandledLine(lines[k]);
    KnowsAfter(env, lines[k], Sure(lines, k), core, nz);
    SureNext(lines, k);
    FlagsAfter(env, lines[k], core, nz, nz');
    if nz != nz' { DeadThere(lines, q, keep, k); }
    PlainActs(env, lines, k, core, nz);
    PlainActs(env, lines, k, core, nz');
    RelatedNext(env, lines, q, keep, k + 1, r.0, r.1, r'.1);
  }

  lemma SureNext(lines: seq<Line>, k: nat)
    requires k < |lines|
    ensures Sure(lines, k + 1) == SureAfter(lines[k], Sure(lines, k))
  {
  }

  lemma HandledLine(line: Line)
    requires SupportedLine(line) && line.Insn?
    ensures Handled(line.mnemonic)
  {
  }

  lemma RelatedNext(env: Env, lines: seq<Line>, q: set<nat>, keep: seq<bool>, p: nat, core: Core, nz: Byte, nz': Byte)
    requires KeepsOthers(lines, keep) && |keep| == |lines| && p <= |lines|
    requires Knows(env, Sure(lines, p), core) || (p < |lines| && lines[p].Label?)
    requires nz == nz' || Fetch(lines, keep, p) in q
    ensures Related(env, lines, q, keep, Running(p, core, nz), Running(p, core, nz'))
  {
    hide Knows, TrackAt, Sweep, Fetch, KeepsOthers;
  }

  lemma PlainActs(env: Env, lines: seq<Line>, k: nat, core: Core, nz: Byte)
    requires k < |lines| && lines[k].Insn? && !IsJump(lines[k].mnemonic) && lines[k].mnemonic != "rts"
    ensures var r := Execute(env, lines[k].mnemonic, lines[k].operand, core, nz);
            Act(env, lines, k, core, nz) == Running(k + 1, r.0, r.1)
  {
    hide Execute;
  }

  /** A dead position that neither jumps, returns nor sets the flags hands on to a dead one. */
  lemma DeadThere(lines: seq<Line>, q: set<nat>, keep: seq<bool>, k: nat)
    requires Sweepable(lines, q, keep) && k < |lines| && lines[k].Insn? && k in q
    requires !IsJump(lines[k].mnemonic) && lines[k].mnemonic != "rts"
    ensures SetsFlags(lines[k].mnemonic) || Fetch(lines, keep, k + 1) in q
  {
    assert FlagsDeadAt(lines, q, k);
    hide Supported, UniqueLabels, KeepsOthers, Fetch;
  }

  /** Any other step is made by both. */
  lemma KeptStep(env: Env, lines: seq<Line>, q: set<nat>, keep: seq<bool>, s: Config, t: Config)
    requires Sweepable(lines, q, keep) && InCode(lines, s) && InCode(lines, t)
    requires s.Running? && Related(env, lines, q, keep, s, t)
    requires var k := Fetch(lines, keep, s.pc); k < |lines| ==> Sweep(lines, keep)[k]
    ensures Related(env, lines, q, keep, Step(env, lines, keep, s), Step(env, lines, Sweep(lines, keep), t))
  {
    hide Act, Supported, UniqueLabels, LoadsUnobserved, DeadThrough;
    var keep' := Sweep(lines, keep);
    var k := Fetch(lines, keep, s.pc);
    KnowsThrough(env, lines, keep, s.pc, s.core);
    FetchFewer(lines, keep, keep', s.pc);
    if k < |lines| {
      ActRelated(env, lines, q, keep, k, s.core, s.nz, t.nz);
    }
  }

  // ----- whole runs -----

  lemma {:induction false} RunPlus(env: Env, lines: seq<Line>, keep: seq<bool>, s: Config, n: nat, j: nat)
    requires |keep| == |lines| && InCode(lines, s)
    ensures Run(env, lines, keep, s, n + j) == Run(env, lines, keep, Run(env, lines, keep, s, n), j)
  {
    hide Step;
    if j > 0 {
      RunPlus(env, lines, keep, s, n, j - 1);
      assert n + j - 1 == n + (j - 1);
    }
  }

  lemma RunCons(env: Env, lines: seq<Line>, keep: seq<bool>, s: Config, j: nat)
    requires |keep| == |lines| && InCode(lines, s)
    ensures Run(env, lines, keep, s, 1 + j) == Run(env, lines, keep, Step(env, lines, keep, s), j)
  {
    hide Step;
    RunPlus(env, lines, keep, s, 1, j);
    assert Run(env, lines, keep, s, 0) == s;
  }

  /** One step of s is matched by one step of t or by none. */
  lemma OneStep(env: Env, lines: seq<Line>, q: set<nat>, keep: seq<bool>, s: Config, t: Config) returns (both: bool)
    requires Sweepable(lines, q, keep) && InCode(lines, s) && InCode(lines, t) && Related(env, lines, q, keep, s, t)
    ensures InCode(lines, Step(env, lines, keep, s)) && InCode(lines, Step(env, lines, Sweep(lines, keep), t))
    ensures both ==> Related(env, lines, q, keep, Step(env, lines, keep, s), Step(env, lines, Sweep(lines, keep), t))
    ensures !both ==> Related(env, lines, q, keep, Step(env, lines, keep, s), t)
  {
    both := false;
    if s.Running? {
      var k := Fetch(lines, keep, s.pc);
      if k < |lines| && !Sweep(lines, keep)[k] {
        DroppedStep(env, lines, q, keep, s, t);
      } else {
        KeptStep(env, lines, q, keep, s, t);
        both := true;
      }
    }
  }

  /** Whatever the swept program does, it does no later than the program it came from. */
  lemma {:induction false} ForwardRun(env: Env, lines: seq<Line>, q: set<nat>, keep: seq<bool>, s: Config, t: Config,
                                      n: nat)
    returns (m: nat)
    requires Sweepable(lines, q, keep) && InCode(lines, s) && InCode(lines, t) && Related(env, lines, q, keep, s, t)
    ensures m <= n
    ensures Related(env, lines, q, keep, Run(env, lines, keep, s, n), Run(env, lines, Sweep(lines, keep), t, m))
  {
    hide *;
    SweepableFacts(lines, q, keep);
    if n == 0 {
      m := 0;
      RunNone(env, lines, keep, s);
      RunNone(env, lines, Sweep(lines, keep), t);
    } else {
      m := ForwardRun(env, lines, q, keep, s, t, n - 1);
      var s', t' := Run(env, lines, keep, s, n - 1), Run(env, lines, Sweep(lines, keep), t, m);
      var both := OneStep(env, lines, q, keep, s', t');
      RunSnoc(env, lines, keep, s, n - 1);
      if both {
        RunSnoc(env, lines, Sweep(lines, keep), t, m);
        m := m + 1;
      }
    }
  }

  /** The next line s executes, if any, was not dropped. */
  ghost predicate Ready(lines: seq<Line>, keep: seq<bool>, s: Config)
    requires |keep| == |lines| && InCode(lines, s)
  {
    s.Running? ==> var k := Fetch(lines, keep, s.pc); k < |lines| ==> Sweep(lines, keep)[k]
  }

  /** Finitely many dropped lines separate s from its next shared step. */
  lemma {:induction false} CatchUp(env: Env, lines: seq<Line>, q: set<nat>, keep: seq<bool>, s: Config, t: Config)
    returns (j: nat)
    requires Sweepable(lines, q, keep) && InCode(lines, s) && InCode(lines, t) && Related(env, lines, q, keep, s, t)
    ensures Related(env, lines, q, keep, Run(env, lines, keep, s, j), t) && Ready(lines, keep, Run(env, lines, keep, s, j))
    decreases if s.Running? then |lines| - s.pc + 1 else 0
  {
    if Ready(lines, keep, s) {
      j := 0;
    } else {
      DroppedStep(env, lines, q, keep, s, t);
      hide *;
      j := CatchUp(env, lines, q, keep, Step(env, lines, keep, s), t);
      RunCons(env, lines, keep, s, j);
      j := 1 + j;
    }
  }

  lemma ReadyStep(env: Env, lines: seq<Line>, q: set<nat>, keep: seq<bool>, s: Config, t: Config)
    requires Sweepable(lines, q, keep) && InCode(lines, s) && InCode(lines, t) && Related(env, lines, q, keep, s, t)
    requires Ready(lines, keep, s)
    ensures Related(env, lines, q, keep, Step(env, lines, keep, s), Step(env, lines, Sweep(lines, keep), t))
  {
    if s.Running? { KeptStep(env, lines, q, keep, s, t); }
  }

  lemma RunSnoc(env: Env, lines: seq<Line>, keep: seq<bool>, s: Config, n: nat)
    requires |keep| == |lines| && InCode(lines, s)
    ensures Run(env, lines, keep, s, n + 1) == Step(env, lines, keep, Run(env, lines, keep, s, n))
  {
    hide Step;
  }

  lemma SweepableFacts(lines: seq<Line>, q: set<nat>, keep: seq<bool>)
    requires Sweepable(lines, q, keep)
    ensures KeepsOthers(lines, keep) && |keep| == |lines| && UniqueLabels(lines)
    ensures DropsRepeats(lines, keep) && RepeatsSure(lines)
  {
  }

  lemma RunNone(env: Env, lines: seq<Line>, keep: seq<bool>, s: Config)
    requires |keep| == |lines| && InCode(lines, s)
    ensures Run(env, lines, keep, s, 0) == s
  {
  }

  /** Every point the swept program reaches is matched by the program it came from. */
  lemma {:induction false} BackwardRun(env: Env, lines: seq<Line>, q: set<nat>, keep: seq<bool>, s: Config, t: Config,
                                       m: nat)
    returns (n: nat)
    requires Sweepable(lines, q, keep) && InCode(lines, s) && InCode(lines, t) && Related(env, lines, q, keep, s, t)
    ensures m <= n
    ensures Related(env, lines, q, keep, Run(env, lines, keep, s, n), Run(env, lines, Sweep(lines, keep), t, m))
  {
    hide *;
    SweepableFacts(lines, q, keep);
    if m == 0 {
      n := 0;
      RunNone(env, lines, keep, s);
      RunNone(env, lines, Sweep(lines, keep), t);
    } else {
      n := BackwardRun(env, lines, q, keep, s, t, m - 1);
      var s', t' := Run(env, lines, keep, s, n), Run(env, lines, Sweep(lines, keep), t, m - 1);
      var j := CatchUp(env, lines, q, keep, s', t');
      RunPlus(env, lines, keep, s, n, j);
      ReadyStep(env, lines, q, keep, Run(env, lines, keep, s, n + j), t');
      RunSnoc(env, lines, keep, s, n + j);
      RunSnoc(env, lines, Sweep(lines, keep), t, m - 1);
      n := n + j + 1;
    }
  }

  /** n steps before and m steps after reach the same core. */
  ghost predicate Matched(env: Env, lines: seq<Line>, keep: seq<bool>, keep': seq<bool>, s: Config, n: nat, m: nat)
    requires |keep| == |keep'| == |lines| && InCode(lines, s)
  {
    Same(Run(env, lines, keep, s, n), Run(env, lines, keep', s, m))
  }

  ghost predicate Followed(env: Env, lines: seq<Line>, keep: seq<bool>, keep': seq<bool>, s: Config, n: nat)
    requires |keep| == |keep'| == |lines| && InCode(lines, s)
  {
    exists m: nat :: m <= n && Matched(env, lines, keep, keep', s, n, m)
  }

  ghost predicate Preceded(env: Env, lines: seq<Line>, keep: seq<bool>, keep': seq<bool>, s: Config, m: nat)
    requires |keep| == |keep'| == |lines| && InCode(lines, s)
  {
    exists n: nat :: m <= n && Matched(env, lines, keep, keep', s, n, m)
  }

  /** Under the two sets of marks, runs from s pass through the same cores and end alike: what n
      steps reach before, at most n steps reach after, and the converse. */
  ghost predicate MeansSame(env: Env, lines: seq<Line>, keep: seq<bool>, keep': seq<bool>, s: Config)
    requires |keep| == |keep'| == |lines| && InCode(lines, s)
  {
    && (forall n: nat :: Followed(env, lines, keep, keep', s, n))
    && (forall m: nat :: Preceded(env, lines, keep, keep', s, m))
  }

  /** Execution starts at the first line or at a label. */
  predicate Entry(lines: seq<Line>, s: Config) {
    s.Running? && s.pc <= |lines| && (s.pc == 0 || (s.pc < |lines| && lines[s.pc].Label?))
  }

  lemma SweepMeansSame(env: Env, lines: seq<Line>, q: set<nat>, keep: seq<bool>, s: Config)
    requires Sweepable(lines, q, keep) && Entry(lines, s)
    ensures MeansSame(env, lines, keep, Sweep(lines, keep), s)
  {
    assert Related(env, lines, q, keep, s, s);
    hide Sweepable, Run;
    forall n: nat
      ensures Followed(env, lines, keep, Sweep(lines, keep), s, n)
    {
      var m := ForwardRun(env, lines, q, keep, s, s, n);
      assert Matched(env, lines, keep, Sweep(lines, keep), s, n, m);
    }
    forall m: nat
      ensures Preceded(env, lines, keep, Sweep(lines, keep), s, m)
    {
      var n := BackwardRun(env, lines, q, keep, s, s, m);
      assert Matched(env, lines, keep, Sweep(lines, keep), s, n, m);
    }
  }

  lemma MatchedTrans(env: Env, lines: seq<Line>, a: seq<bool>, b: seq<bool>, c: seq<bool>, s: Config, n: nat, k: nat,
                     m: nat)
    requires |a| == |b| == |c| == |lines| && InCode(lines, s)
    requires Matched(env, lines, a, b, s, n, k) && Matched(env, lines, b, c, s, k, m)
    ensures Matched(env, lines, a, c, s, n, m)
  {
    hide Run;
  }

  lemma MeansSameTrans(env: Env, lines: seq<Line>, a: seq<bool>, b: seq<bool>, c: seq<bool>, s: Config)
    requires |a| == |b| == |c| == |lines| && InCode(lines, s)
    requires MeansSame(env, lines, a, b, s) && MeansSame(env, lines, b, c, s)
    ensures MeansSame(env, lines, a, c, s)
  {
    hide Matched;
    forall n: nat
      ensures Followed(env, lines, a, c, s, n)
    {
      assert Followed(env, lines, a, b, s, n);
      var k: nat :| k <= n && Matched(env, lines, a, b, s, n, k);
      assert Followed(env, lines, b, c, s, k);
      var m: nat :| m <= k && Matched(env, lines, b, c, s, k, m);
      MatchedTrans(env, lines, a, b, c, s, n, k, m);
    }
    forall m: nat
      ensures Preceded(env, lines, a, c, s, m)
    {
      assert Preceded(env, lines, b, c, s, m);
      var k: nat :| m <= k && Matched(env, lines, b, c, s, k, m);
      assert Preceded(env, lines, a, b, s, k);
      var n: nat :| k <= n && Matched(env, lines, a, b, s, n, k);
      MatchedTrans(env, lines, a, b, c, s, n, k, m);
    }
  }

  lemma MeansSameSelf(env: Env, lines: seq<Line>, a: seq<bool>, s: Config)
    requires |a| == |lines| && InCode(lines, s)
    ensures MeansSame(env, lines, a, a, s)
  {
    hide Run;
    forall n: nat
      ensures Followed(env, lines, a, a, s, n) && Preceded(env, lines, a, a, s, n)
    {
      assert Matched(env, lines, a, a, s, n, n);
    }
  }

  function AllKept(n: nat): (r: seq<bool>)
    ensures |r| == n && forall i :: 0 <= i < n ==> r[i]
  {
    seq(n, i => true)
  }

  lemma {:induction false} SweepsOnlyDrop(lines: seq<Line>, keep: seq<bool>, k: nat, n: nat)
    requires |keep| == |lines| && k <= n
    ensures forall i :: 0 <= i < |lines| && Sweeps(lines, keep, n)[i] ==> Sweeps(lines, keep, k)[i]
  {
    if k < n { SweepsOnlyDrop(lines, keep, k, n - 1); }
  }

  lemma FewerLoadsUnobserved(lines: seq<Line>, q: set<nat>, a: seq<bool>, b: seq<bool>, c: seq<bool>, d: seq<bool>)
    requires |a| == |b| == |c| == |d| == |lines| && LoadsUnobserved(lines, q, a, d)
    requires forall i :: 0 <= i < |lines| ==> (b[i] ==> a[i]) && (d[i] ==> c[i])
    ensures LoadsUnobserved(lines, q, b, c)
  {
    hide FlagsDead;
    forall i | 0 <= i < |lines| && DroppedLoad(lines, b, c, i)
      ensures i + 1 in q
    {
      assert DroppedLoad(lines, a, d, i);
    }
  }

  lemma {:induction false} SweepsKeepOthers(lines: seq<Line>, k: nat)
    ensures KeepsOthers(lines, Sweeps(lines, AllKept(|lines|), k))
  {
    hide *;
    NoSweepKeepsAll(lines);
    if k > 0 {
      SweepsKeepOthers(lines, k - 1);
      SweepKeepsOthers(lines, Sweeps(lines, AllKept(|lines|), k - 1));
      SweepsSnoc(lines, AllKept(|lines|), k);
    }
  }

  lemma NoSweep(lines: seq<Line>, keep: seq<bool>)
    requires |keep| == |lines|
    ensures Sweeps(lines, keep, 0) == keep
  {
  }

  lemma EntryInCode(lines: seq<Line>, s: Config)
    requires Entry(lines, s)
    ensures InCode(lines, s)
  {
  }

  lemma NoSweepKeepsAll(lines: seq<Line>)
    ensures KeepsOthers(lines, Sweeps(lines, AllKept(|lines|), 0))
  {
  }

  lemma SweepsSnoc(lines: seq<Line>, keep: seq<bool>, k: nat)
    requires |keep| == |lines| && k > 0
    ensures Sweeps(lines, keep, k) == Sweep(lines, Sweeps(lines, keep, k - 1))
  {
  }

  lemma SweepKeepsOthers(lines: seq<Line>, keep: seq<bool>)
    requires KeepsOthers(lines, keep)
    ensures KeepsOthers(lines, Sweep(lines, keep))
  {
  }

  /** The k-th sweep drops no load the whole optimization keeps. */
  lemma SweepLoadsUnobserved(lines: seq<Line>, q: set<nat>, k: nat, n: nat)
    requires k < n && LoadsUnobserved(lines, q, AllKept(|lines|), Sweeps(lines, AllKept(|lines|), n))
    ensures LoadsUnobserved(lines, q, Sweeps(lines, AllKept(|lines|), k),
                            Sweep(lines, Sweeps(lines, AllKept(|lines|), k)))
  {
    var all := AllKept(|lines|);
    SweepsOnlyDrop(lines, all, k + 1, n);
    SweepsSnoc(lines, all, k + 1);
    hide LoadsUnobserved, Sweep, Sweeps;
    FewerLoadsUnobserved(lines, q, all, Sweeps(lines, all, k), Sweeps(lines, all, k + 1), Sweeps(lines, all, n));
  }

  lemma DeadThroughAll(lines: seq<Line>, q: set<nat>, last: seq<bool>)
    requires |last| == |lines| && LoadsUnobserved(lines, q, AllKept(|lines|), last)
    ensures DeadThrough(lines, q, AllKept(|lines|))
  {
    forall p | p in q && p <= |lines|
      ensures Fetch(lines, AllKept(|lines|), p) in q
    {
      DeadInitially(lines, q, AllKept(|lines|), p);
    }
  }

  lemma DeadThroughSweep(lines: seq<Line>, q: set<nat>, keep: seq<bool>)
    requires Sweepable(lines, q, keep)
    ensures DeadThrough(lines, q, Sweep(lines, keep))
  {
    forall p | p in q && p <= |lines|
      ensures Fetch(lines, Sweep(lines, keep), p) in q
    {
      DeadAfterSweep(lines, q, keep, p);
    }
  }

  /** Every sweep on the way to the n-th meets the conditions the whole optimization meets. */
  lemma {:induction false} SweepsSweepable(lines: seq<Line>, q: set<nat>, k: nat, n: nat)
    requires Supported(lines) && UniqueLabels(lines) && RepeatsSure(lines) && k < n
    requires LoadsUnobserved(lines, q, AllKept(|lines|), Sweeps(lines, AllKept(|lines|), n))
    ensures Sweepable(lines, q, Sweeps(lines, AllKept(|lines|), k))
  {
    hide *;
    var all := AllKept(|lines|);
    SweepLoadsUnobserved(lines, q, k, n);
    SweepsKeepOthers(lines, k);
    SweepsDropRepeats(lines, k);
    if k == 0 {
      NoSweep(lines, all);
      DeadThroughAll(lines, q, Sweeps(lines, all, n));
    } else {
      SweepsSweepable(lines, q, k - 1, n);
      DeadThroughSweep(lines, q, Sweeps(lines, all, k - 1));
      SweepsSnoc(lines, all, k);
    }
    IsSweepable(lines, q, Sweeps(lines, all, k));
  }

  lemma IsSweepable(lines: seq<Line>, q: set<nat>, keep: seq<bool>)
    requires Supported(lines) && KeepsOthers(lines, keep) && UniqueLabels(lines) && |keep| == |lines|
    requires DropsRepeats(lines, keep) && RepeatsSure(lines)
    requires LoadsUnobserved(lines, q, keep, Sweep(lines, keep)) && DeadThrough(lines, q, keep)
    ensures Sweepable(lines, q, keep)
  {
    hide Supported, KeepsOthers, UniqueLabels, LoadsUnobserved, DeadThrough;
  }

  // ----- the condition on the lines alone -----

  lemma DroppedKeepsTrack(line: Line, t: Track)
    requires (line.Insn? && IsJump(line.mnemonic)) || LoadsHeld(line, t)
    ensures After(line, t) == t
  {
  }

  /** What a sweep knows does not depend on what was dropped before. */
  lemma {:induction false} TrackIsSeen(lines: seq<Line>, keep: seq<bool>, i: nat)
    requires DropsRepeats(lines, keep) && i <= |lines|
    ensures TrackAt(lines, keep, i) == Seen(lines, i)
  {
    hide After, LoadsHeld;
    if i > 0 {
      TrackIsSeen(lines, keep, i - 1);
      var t := Seen(lines, i - 1);
      if !keep[i - 1] || Dropped(lines, keep, i - 1, t) {
        DroppedKeepsTrack(lines[i - 1], t);
      }
    }
  }

  lemma {:induction false} SweepsDropRepeats(lines: seq<Line>, n: nat)
    ensures DropsRepeats(lines, Sweeps(lines, AllKept(|lines|), n))
  {
    hide *;
    NoSweep(lines, AllKept(|lines|));
    NothingDropped(lines);
    if n > 0 {
      SweepsDropRepeats(lines, n - 1);
      SweepsSnoc(lines, AllKept(|lines|), n);
      SweepDropsRepeats(lines, Sweeps(lines, AllKept(|lines|), n - 1));
    }
  }

  lemma NothingDropped(lines: seq<Line>)
    ensures |AllKept(|lines|)| == |lines| && DropsRepeats(lines, AllKept(|lines|))
  {
  }

  lemma SweepDropsRepeats(lines: seq<Line>, keep: seq<bool>)
    requires DropsRepeats(lines, keep)
    ensures DropsRepeats(lines, Sweep(lines, keep))
  {
    hide TrackAt, Seen;
    forall i | 0 <= i < |lines| && !Sweep(lines, keep)[i]
      ensures lines[i].Insn? && (IsJump(lines[i].mnemonic) || Repeats(lines, i))
    {
      TrackIsSeen(lines, keep, i);
    }
  }

  /** The loads dropped are the repeated ones: the first sweep drops them all, and no later one any other. */
  lemma {:induction false} DroppedLoadsRepeat(lines: seq<Line>, n: nat, i: nat)
    requires i < |lines| && n > 0
    ensures DroppedLoad(lines, AllKept(|lines|), Sweeps(lines, AllKept(|lines|), n), i) <==> Repeats(lines, i)
  {
    var all := AllKept(|lines|);
    SweepsDropRepeats(lines, n);
    NoSweep(lines, all);
    SweepsDropRepeats(lines, 0);
    TrackIsSeen(lines, all, i);
    SweepsSnoc(lines, all, 1);
    SweepsOnlyDrop(lines, all, 1, n);
  }

  /** So whether a dropped load's flags are observed can be told from the lines before anything is dropped. */
  lemma RepeatsUnobservedIff(lines: seq<Line>, q: set<nat>, n: nat)
    requires n > 0
    ensures RepeatsUnobserved(lines, q) <==> LoadsUnobserved(lines, q, AllKept(|lines|), Sweeps(lines, AllKept(|lines|), n))
  {
    hide Sweeps, FlagsDead, Repeats, DroppedLoad;
    forall i | 0 <= i < |lines|
      ensures DroppedLoad(lines, AllKept(|lines|), Sweeps(lines, AllKept(|lines|), n), i) <==> Repeats(lines, i)
    {
      DroppedLoadsRepeat(lines, n, i);
    }
  }

  /** The optimizer keeps the program's meaning: after any number of sweeps the remaining lines
      compute what all lines compute, with the same outcome or the same endless run. */
  lemma {:induction false} OptimizedMeansSame(env: Env, lines: seq<Line>, q: set<nat>, n: nat, s: Config)
    requires Supported(lines) && UniqueLabels(lines) && Entry(lines, s)
    requires RepeatsUnobserved(lines, q) && RepeatsSure(lines)
    ensures MeansSame(env, lines, AllKept(|lines|), Sweeps(lines, AllKept(|lines|), n), s)
  {
    hide *;
    RepeatsUnobservedIff(lines, q, n + 1);
    PrefixMeansSame(env, lines, q, n, n + 1, s);
  }

  lemma {:induction false} PrefixMeansSame(env: Env, lines: seq<Line>, q: set<nat>, k: nat, n: nat, s: Config)
    requires Supported(lines) && UniqueLabels(lines) && RepeatsSure(lines) && Entry(lines, s) && k <= n
    requires LoadsUnobserved(lines, q, AllKept(|lines|), Sweeps(lines, AllKept(|lines|), n))
    ensures MeansSame(env, lines, AllKept(|lines|), Sweeps(lines, AllKept(|lines|), k), s)
  {
    hide *;
    var all := AllKept(|lines|);
    NoSweep(lines, all);
    EntryInCode(lines, s);
    if k > 0 {
      PrefixMeansSame(env, lines, q, k - 1, n, s);
      SweepsSweepable(lines, q, k - 1, n);
      SweepsSnoc(lines, all, k);
      SweepMeansSame(env, lines, q, Sweeps(lines, all, k - 1), s);
      MeansSameTrans(env, lines, all, Sweeps(lines, all, k - 1), Sweeps(lines, all, k), s);
    } else {
      MeansSameSelf(env, lines, all, s);
    }
  }
}
