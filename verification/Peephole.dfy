/** The peephole pass over parsed assembly lines: which lines one sweep drops, and the sweep and
    its repetition as the compiler runs them. */
module Peephole {
  import opened Basics

  /** A parsed line. Lines starting at column 0 that are neither labels nor directives are Raw(false);
      indented text that is no instruction is Raw(true). */
  datatype Line =
    | Blank(generated: bool)
    | Label(name: string)
    | Directive
    | Raw(generated: bool)
    | Insn(mnemonic: string, operand: Option<string>)

  predicate IsCompilerZp(operand: string) {
    || operand == "arg0" || operand == "arg1" || operand == "fp" || operand == "fp+1"
    || operand == "sp" || operand == "sp+1" || operand == "ptr0" || operand == "ptr0+1"
    || operand == "ptr1" || operand == "ptr1+1" || operand == "ptr2" || operand == "ptr2+1"
  }

  predicate IsImmediate(operand: string) {
    |operand| > 0 && operand[0] == '#'
  }

  predicate IsSafeLoad(operand: Option<string>) {
    operand.Some? && operand.value != "" && (IsImmediate(operand.value) || IsCompilerZp(operand.value))
  }

  function InstructionSize(mnemonic: string, operand: Option<string>): nat {
    if || mnemonic == "rts" || mnemonic == "pha" || mnemonic == "pla"
       || mnemonic == "clc" || mnemonic == "sec" || mnemonic == "iny" then 1
    else if mnemonic == "beq" || mnemonic == "bne" then 2
    else if mnemonic == "jmp" || mnemonic == "jsr" then 3
    else if operand.None? then 0
    else if IsImmediate(operand.value) then 2
    else if |operand.value| > 0 && operand.value[0] == '(' then 2
    else if IsCompilerZp(operand.value) then 2
    else 3
  }

  function Size(line: Line): nat {
    if line.Insn? then InstructionSize(line.mnemonic, line.operand) else 0
  }

  /** The operand last loaded into each register and still held there, where known. */
  datatype Track = Track(a: Option<string>, x: Option<string>, y: Option<string>)

  const UNKNOWN := Track(None, None, None)

  predicate Resets(line: Line) {
    line.Label? || line.Directive? || (line.Blank? && !line.generated) || (line.Raw? && !line.generated)
  }

  function Loaded(operand: Option<string>): Option<string> {
    if IsSafeLoad(operand) then operand else None
  }

  /** The mnemonics after which the pass forgets what A holds. */
  predicate ClobbersA(mnemonic: string) {
    || mnemonic == "sta" || mnemonic == "adc" || mnemonic == "and" || mnemonic == "cmp"
    || mnemonic == "eor" || mnemonic == "ora" || mnemonic == "sbc" || mnemonic == "pla"
  }

  /** What is known after a kept line. */
  function After(line: Line, t: Track): Track {
    if Resets(line) then UNKNOWN
    else if !line.Insn? then t
    else if line.mnemonic == "lda" then t.(a := Loaded(line.operand))
    else if line.mnemonic == "ldx" then t.(x := Loaded(line.operand))
    else if line.mnemonic == "ldy" then t.(y := Loaded(line.operand))
    else if ClobbersA(line.mnemonic) then t.(a := None)
    else if line.mnemonic == "iny" then t.(y := None)
    else if line.mnemonic == "jsr" || line.mnemonic == "rts" then UNKNOWN
    else t
  }

  /** The next kept line after i that is not blank; |lines| if there is none. */
  function NextKept(lines: seq<Line>, keep: seq<bool>, i: nat): (j: nat)
    requires |keep| == |lines| && i < |lines|
    ensures i < j <= |lines|
    decreases |lines| - i
  {
    if i + 1 == |lines| || (keep[i + 1] && !lines[i + 1].Blank?) then i + 1 else NextKept(lines, keep, i + 1)
  }

  predicate IsBranch(mnemonic: string) {
    mnemonic == "beq" || mnemonic == "bne"
  }

  predicate IsJump(mnemonic: string) {
    mnemonic == "jmp" || IsBranch(mnemonic)
  }

  predicate JumpsToNext(lines: seq<Line>, keep: seq<bool>, i: nat)
    requires |keep| == |lines| && i < |lines|
  {
    var line := lines[i];
    var j := NextKept(lines, keep, i);
    && line.Insn? && IsJump(line.mnemonic) && line.operand.Some?
    && j < |lines| && lines[j].Label? && lines[j].name == line.operand.value
  }

  predicate LoadsHeld(line: Line, t: Track) {
    && line.Insn? && IsSafeLoad(line.operand)
    && (|| (line.mnemonic == "lda" && t.a == line.operand)
        || (line.mnemonic == "ldx" && t.x == line.operand)
        || (line.mnemonic == "ldy" && t.y == line.operand))
  }

  predicate Dropped(lines: seq<Line>, keep: seq<bool>, i: nat, t: Track)
    requires |keep| == |lines| && i < |lines|
  {
    keep[i] && (JumpsToNext(lines, keep, i) || LoadsHeld(lines[i], t))
  }

  /** What the sweep knows when it reaches line i. */
  function TrackAt(lines: seq<Line>, keep: seq<bool>, i: nat): Track
    requires |keep| == |lines| && i <= |lines|
  {
    if i == 0 then UNKNOWN
    else
      var t := TrackAt(lines, keep, i - 1);
      if !keep[i - 1] || Dropped(lines, keep, i - 1, t) then t else After(lines[i - 1], t)
  }

  predicate Kept(lines: seq<Line>, keep: seq<bool>, i: nat)
    requires |keep| == |lines| && i < |lines|
  {
    keep[i] && !Dropped(lines, keep, i, TrackAt(lines, keep, i))
  }

  /** The keep marks after one sweep. */
  function Sweep(lines: seq<Line>, keep: seq<bool>): (r: seq<bool>)
    requires |keep| == |lines|
    ensures |r| == |lines|
    ensures forall i :: 0 <= i < |lines| ==> r[i] == Kept(lines, keep, i)
  {
    seq(|lines|, i requires 0 <= i < |lines| => Kept(lines, keep, i))
  }

  function Bytes(lines: seq<Line>, keep: seq<bool>): nat
    requires |keep| == |lines|
  {
    if lines == [] then 0
    else Bytes(lines[..|lines| - 1], keep[..|lines| - 1]) + if keep[|lines| - 1] then Size(lines[|lines| - 1]) else 0
  }

  function Count(keep: seq<bool>): nat {
    if keep == [] then 0 else Count(keep[..|keep| - 1]) + if keep[|keep| - 1] then 1 else 0
  }

  /** `upto` lines of the new marks, the rest of the old ones. */
  function Mixed(old_: seq<bool>, new_: seq<bool>, upto: nat): seq<bool>
    requires |old_| == |new_| && upto <= |new_|
  {
    new_[..upto] + old_[upto..]
  }

  ghost predicate Unmarked(now: seq<bool>, next: seq<bool>, i: nat) {
    i < |now| && next == now[i := false]
  }

  /** Dropping lines never changes which line follows, seen from the line being handled. */
  lemma {:induction false} NextKeptMixed(lines: seq<Line>, keep: seq<bool>, new_: seq<bool>, i: nat, k: nat)
    requires |keep| == |new_| == |lines| && i <= k < |lines|
    ensures NextKept(lines, Mixed(keep, new_, i), k) == NextKept(lines, keep, k)
    decreases |lines| - k
  {
    if k + 1 < |lines| {
      assert Mixed(keep, new_, i)[k + 1] == keep[k + 1];
      NextKeptMixed(lines, keep, new_, i, k + 1);
    }
  }

  /** The counters of the passes so far and of the current one. */
  datatype Stats = Stats(totalSaved: nat, bytes: nat, removed: nat, saved: nat, dupLoad: nat, jumpNext: nat,
                         branchNext: nat)

  /** The counters agree with the first i old and new marks. */
  ghost predicate Tally(lines: seq<Line>, before: seq<bool>, after: seq<bool>, i: nat, s: Stats, totalBefore: nat)
    requires |before| == |after| == |lines| && i <= |lines|
  {
    && s.bytes == Bytes(lines[..i], before[..i]) && Bytes(lines[..i], after[..i]) + s.saved == s.bytes
    && s.totalSaved == totalBefore + s.saved && s.removed == s.dupLoad + s.jumpNext + s.branchNext
    && Count(after[..i]) + s.removed == Count(before[..i])
    && (s.removed > 0 <==> before[..i] != after[..i])
  }

  function CountDrop(s: Stats, line: Line, jump: bool): Stats {
    var t := s.(removed := s.removed + 1, saved := s.saved + Size(line), totalSaved := s.totalSaved + Size(line));
    if !jump then t.(dupLoad := s.dupLoad + 1)
    else if line.Insn? && line.mnemonic == "jmp" then t.(jumpNext := s.jumpNext + 1)
    else t.(branchNext := s.branchNext + 1)
  }

  class Buffer {
    const lines: seq<Line>
    const keep: array<bool>

    constructor (lines: seq<Line>)
      ensures this.lines == lines && keep.Length == |lines| && fresh(keep)
      ensures forall i :: 0 <= i < |lines| ==> keep[i]
    {
      this.lines := lines;
      keep := new bool[|lines|](_ => true);
    }

    method NextKeptNonblank(index: nat) returns (j: int)
      requires keep.Length == |lines| && index < |lines|
      ensures var next := NextKept(lines, keep[..], index); j == if next < |lines| then next else -1
    {
      var i := index + 1;
      while i < |lines|
        invariant index < i <= |lines|
        invariant NextKept(lines, keep[..], index) == NextKept(lines, keep[..], i - 1)
      {
        if keep[i] && !lines[i].Blank? {
          return i;
        }
        i := i + 1;
      }
      return -1;
    }

    /** Whether the kept line i is dropped, and as what. */
    method Classify(i: nat, t: Track) returns (jump: bool, load: bool)
      requires keep.Length == |lines| && i < |lines| && keep[i]
      ensures jump <==> JumpsToNext(lines, keep[..], i)
      ensures load <==> !jump && LoadsHeld(lines[i], t)
    {
      var line := lines[i];
      jump, load := false, false;
      if line.Insn? {
        if IsJump(line.mnemonic) && line.operand.Some? {
          var j := NextKeptNonblank(i);
          if j >= 0 && lines[j].Label? && lines[j].name == line.operand.value {
            return true, false;
          }
        }
        load := LoadsHeld(line, t);
      }
    }

    method Drop(i: nat)
      requires keep.Length == |lines| && i < |lines|
      modifies keep
      ensures Unmarked(old(keep[..]), keep[..], i)
    {
      keep[i] := false;
    }

    /** One line of a sweep: its mark, what is known after it, and the counters. */
    method HandleLine(i: nat, t: Track, s: Stats, ghost before: seq<bool>, ghost saved: nat)
      returns (t': Track, s': Stats, dropped: bool)
      requires keep.Length == |lines| && i < |lines| && Sweeping(lines, before, i, keep[..], t, s, saved)
      modifies keep
      ensures Sweeping(lines, before, i + 1, keep[..], t', s', saved)
      ensures s'.removed > 0 <==> dropped || s.removed > 0
    {
      hide *;
      ghost var now := keep[..];
      SweepVerdict(lines, before, i, now, t, s, saved);
      t', s', dropped := t, s, false;
      if !keep[i] {
        SweepSkips(lines, before, i, now, t, s, saved);
        return;
      }
      var jump, load := Classify(i, t);
      if jump || load {
        Drop(i);
        s', dropped := CountDrop(s.(bytes := s.bytes + Size(lines[i])), lines[i], jump), true;
        SweepDrops(lines, before, i, now, keep[..], t, s, jump, saved);
        return;
      }
      s' := s.(bytes := s.bytes + Size(lines[i]));
      SweepKeeps(lines, before, i, now, t, s, saved);
      t' := After(lines[i], t);
    }

    /** One sweep. Marks dropped lines and counts the bytes saved; answers whether any was dropped. */
    method RunPass(saved: nat) returns (changed: bool, stats: Stats)
      requires keep.Length == |lines|
      modifies keep
      ensures keep[..] == Sweep(lines, old(keep[..]))
      ensures changed <==> keep[..] != old(keep[..])
      ensures Tally(lines, old(keep[..]), keep[..], |lines|, stats, saved)
    {
      ghost var before := keep[..];
      var t := UNKNOWN;
      changed := false;
      stats := Stats(saved, 0, 0, 0, 0, 0, 0);
      hide *;
      SweepStarts(lines, before, stats);
      for i := 0 to |lines|
        invariant keep.Length == |lines| && Sweeping(lines, before, i, keep[..], t, stats, saved)
        invariant changed <==> stats.removed > 0
      {
        var dropped: bool;
        t, stats, dropped := HandleLine(i, t, stats, before, saved);
        changed := changed || dropped;
      }
      SweepEnds(lines, before, keep[..], t, stats, saved);
    }

    /** One more sweep, the n-th since the marks were `first`. */
    method NextPass(saved: nat, ghost first: seq<bool>, ghost n: nat) returns (changed: bool, stats: Stats)
      requires keep.Length == |lines| && Optimizing(lines, first, keep[..], n, saved, true)
      modifies keep
      ensures Optimizing(lines, first, keep[..], n + 1, stats.totalSaved, changed)
    {
      hide *;
      ghost var before := keep[..];
      changed, stats := RunPass(saved);
      OptimizingStep(lines, first, before, keep[..], n, saved, stats, changed);
    }

    /** Sweeps until nothing changes, at most twenty times. */
    method Optimize() returns (stats: Stats, passes: nat)
      requires keep.Length == |lines|
      modifies keep
      ensures 1 <= passes <= 20 && keep[..] == Sweeps(lines, old(keep[..]), passes)
      ensures passes < 20 ==> Swept(lines, keep[..])
      ensures stats.totalSaved + Bytes(lines, keep[..]) == Bytes(lines, old(keep[..]))
    {
      hide *;
      ghost var first := keep[..];
      passes, stats := 0, Stats(0, 0, 0, 0, 0, 0, 0);
      var changed := true;
      OptimizingStart(lines, first);
      while changed && passes < 20
        invariant passes <= 20 && (passes == 0 ==> changed) && keep.Length == |lines|
        invariant Optimizing(lines, first, keep[..], passes, stats.totalSaved, changed)
        decreases 20 - passes
      {
        changed, stats := NextPass(stats.totalSaved, first, passes);
        passes := passes + 1;
      }
      OptimizingEnd(lines, first, keep[..], passes, stats.totalSaved, changed);
    }
  }

  /** After n sweeps of the marks `first`, `now` are the marks and `saved` the bytes saved. */
  ghost predicate Optimizing(lines: seq<Line>, first: seq<bool>, now: seq<bool>, n: nat, saved: nat, changed: bool) {
    && |first| == |lines| && now == Sweeps(lines, first, n) && saved + Bytes(lines, now) == Bytes(lines, first)
    && (!changed ==> Swept(lines, now))
  }

  /** Another sweep would change nothing. */
  ghost predicate Swept(lines: seq<Line>, keep: seq<bool>) {
    |keep| == |lines| && Sweep(lines, keep) == keep
  }

  lemma OptimizingStart(lines: seq<Line>, first: seq<bool>)
    requires |first| == |lines|
    ensures Optimizing(lines, first, first, 0, 0, true)
  {
  }

  lemma OptimizingStep(lines: seq<Line>, first: seq<bool>, was: seq<bool>, now: seq<bool>, n: nat, saved: nat,
                       s: Stats, changed: bool)
    requires Optimizing(lines, first, was, n, saved, true) && |was| == |lines|
    requires now == Sweep(lines, was) && (changed <==> now != was) && Tally(lines, was, now, |lines|, s, saved)
    ensures Optimizing(lines, first, now, n + 1, s.totalSaved, changed)
  {
    assert lines[..|lines|] == lines && was[..|lines|] == was && now[..|lines|] == now;
  }

  lemma OptimizingEnd(lines: seq<Line>, first: seq<bool>, now: seq<bool>, n: nat, saved: nat, changed: bool)
    requires Optimizing(lines, first, now, n, saved, changed)
    ensures |first| == |now| == |lines| && now == Sweeps(lines, first, n) && (!changed ==> Swept(lines, now))
    ensures saved + Bytes(lines, now) == Bytes(lines, first)
  {
  }

  /** The keep marks after n sweeps. */
  function Sweeps(lines: seq<Line>, keep: seq<bool>, n: nat): (r: seq<bool>)
    requires |keep| == |lines|
    ensures |r| == |lines|
  {
    if n == 0 then keep else Sweep(lines, Sweeps(lines, keep, n - 1))
  }

  /** Every sweep that changes something leaves fewer kept lines. */
  lemma SweepShrinks(lines: seq<Line>, keep: seq<bool>)
    requires |keep| == |lines|
    ensures Sweep(lines, keep) != keep ==> Count(Sweep(lines, keep)) < Count(keep)
  {
    CountBelow(keep, Sweep(lines, keep));
  }

  lemma {:induction false} CountBelow(a: seq<bool>, b: seq<bool>)
    requires |a| == |b| && forall i :: 0 <= i < |a| && b[i] ==> a[i]
    ensures Count(b) <= Count(a) && (a != b ==> Count(b) < Count(a))
  {
    if |a| > 0 {
      var n := |a| - 1;
      CountBelow(a[..n], b[..n]);
      assert a == a[..n] + [a[n]] && b == b[..n] + [b[n]];
    }
  }

  /** The first i lines are handled: marks, knowledge and counters are those of the sweep. */
  ghost predicate Sweeping(lines: seq<Line>, before: seq<bool>, i: nat, now: seq<bool>, t: Track, s: Stats,
                           saved: nat) {
    && |before| == |lines| && i <= |lines|
    && now == Mixed(before, Sweep(lines, before), i) && t == TrackAt(lines, before, i)
    && Tally(lines, before, Sweep(lines, before), i, s, saved)
  }

  lemma SweepStarts(lines: seq<Line>, before: seq<bool>, s: Stats)
    requires |before| == |lines| && s == Stats(s.totalSaved, 0, 0, 0, 0, 0, 0)
    ensures Sweeping(lines, before, 0, before, UNKNOWN, s, s.totalSaved)
  {
  }

  lemma SweepEnds(lines: seq<Line>, before: seq<bool>, now: seq<bool>, t: Track, s: Stats, saved: nat)
    requires Sweeping(lines, before, |lines|, now, t, s, saved)
    ensures |before| == |now| == |lines| && now == Sweep(lines, before) && (s.removed > 0 <==> before != now)
    ensures Tally(lines, before, now, |lines|, s, saved)
  {
    assert before[..|lines|] == before && now[..|lines|] == now;
  }

  /** The sweep's verdict on line i, in terms of the marks as they now stand. */
  lemma SweepVerdict(lines: seq<Line>, before: seq<bool>, i: nat, now: seq<bool>, t: Track, s: Stats, saved: nat)
    requires Sweeping(lines, before, i, now, t, s, saved) && i < |lines|
    ensures |now| == |before| == |lines| && now[i] == before[i]
    ensures Kept(lines, before, i) <==> now[i] && !JumpsToNext(lines, now, i) && !LoadsHeld(lines[i], t)
  {
    NextKeptMixed(lines, before, Sweep(lines, before), i, i);
  }

  lemma SweepSkips(lines: seq<Line>, before: seq<bool>, i: nat, now: seq<bool>, t: Track, s: Stats, saved: nat)
    requires Sweeping(lines, before, i, now, t, s, saved) && i < |lines| && !before[i]
    ensures Sweeping(lines, before, i + 1, now, t, s, saved)
  {
    PrefixStep(lines, before, Sweep(lines, before), i);
    MixedStep(before, Sweep(lines, before), i);
  }

  lemma SweepKeeps(lines: seq<Line>, before: seq<bool>, i: nat, now: seq<bool>, t: Track, s: Stats, saved: nat)
    requires Sweeping(lines, before, i, now, t, s, saved) && i < |lines| && Kept(lines, before, i)
    ensures Sweeping(lines, before, i + 1, now, After(lines[i], t), s.(bytes := s.bytes + Size(lines[i])), saved)
  {
    hide After;
    PrefixStep(lines, before, Sweep(lines, before), i);
    MixedStep(before, Sweep(lines, before), i);
  }

  lemma SweepDrops(lines: seq<Line>, before: seq<bool>, i: nat, now: seq<bool>, next: seq<bool>, t: Track, s: Stats,
                   jump: bool, saved: nat)
    requires Sweeping(lines, before, i, now, t, s, saved) && i < |lines| && before[i] && !Kept(lines, before, i)
    requires Unmarked(now, next, i)
    ensures var r := CountDrop(s.(bytes := s.bytes + Size(lines[i])), lines[i], jump);
      Sweeping(lines, before, i + 1, next, t, r, saved) && r.removed > 0
  {
    hide After;
    PrefixStep(lines, before, Sweep(lines, before), i);
    MixedStep(before, Sweep(lines, before), i);
  }

  lemma MixedStep(before: seq<bool>, after: seq<bool>, i: nat)
    requires |before| == |after| && i < |after|
    ensures Mixed(before, after, i + 1) == Mixed(before, after, i)[i := after[i]]
    ensures |Mixed(before, after, i)| == |after| && Mixed(before, after, i)[i] == before[i]
  {
  }

  lemma PrefixStep(lines: seq<Line>, before: seq<bool>, after: seq<bool>, i: nat)
    requires |before| == |after| == |lines| && i < |lines|
    ensures Bytes(lines[..i + 1], before[..i + 1]) == Bytes(lines[..i], before[..i]) + if before[i] then Size(lines[i]) else 0
    ensures Bytes(lines[..i + 1], after[..i + 1]) == Bytes(lines[..i], after[..i]) + if after[i] then Size(lines[i]) else 0
    ensures Count(before[..i + 1]) == Count(before[..i]) + if before[i] then 1 else 0
    ensures Count(after[..i + 1]) == Count(after[..i]) + if after[i] then 1 else 0
    ensures before[..i + 1] != after[..i + 1] <==> before[..i] != after[..i] || before[i] != after[i]
  {
    hide Size;
    assert lines[..i + 1][..i] == lines[..i] && before[..i + 1][..i] == before[..i] && after[..i + 1][..i] == after[..i];
    assert before[..i + 1] == before[..i] + [before[i]] && after[..i + 1] == after[..i] + [after[i]];
  }
}