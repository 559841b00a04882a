/** Exactly which lines the peephole pass drops, and what it leaves behind, told without its own bookkeeping. */
module PeepholeExact {
  import opened Basics
  import opened AsmOpcode
  import opened Peephole

  datatype Register = A | X | Y

  /** The register a line loads, if it is a load. */
  function LoadOf(line: Line): Option<Register> {
    if !line.Insn? then None
    else if line.mnemonic == "lda" then Some(A)
    else if line.mnemonic == "ldx" then Some(X)
    else if line.mnemonic == "ldy" then Some(Y)
    else None
  }

  const FORGET_A := {"lda", "sta", "adc", "and", "cmp", "eor", "ora", "sbc", "pla", "jsr", "rts"}
  const FORGET_X := {"ldx", "jsr", "rts"}
  const FORGET_Y := {"ldy", "iny", "jsr", "rts"}

  /** Past this line nothing known of the register before is taken to be true: it begins anew at labels, at directives and
      at whatever the compiler did not write itself, and at certain instructions. */
  predicate Forgets(line: Line, r: Register) {
    match line
    case Label(_) => true
    case Directive => true
    case Blank(generated) => !generated
    case Raw(generated) => !generated
    case Insn(m, _) => m in (match r case A => FORGET_A case X => FORGET_X case Y => FORGET_Y)
  }

  /** Of the kept lines before k, one loads the operand into the register, and none after that one forgets it. */
  ghost predicate HeldSince(lines: seq<Line>, keep: seq<bool>, k: nat, r: Register, operand: string, i: nat)
    requires |keep| == |lines| && k <= |lines|
  {
    && i < k && keep[i] && LoadOf(lines[i]) == Some(r) && lines[i].operand == Some(operand)
    && forall j :: i < j < k && keep[j] ==> !Forgets(lines[j], r)
  }

  ghost predicate Held(lines: seq<Line>, keep: seq<bool>, k: nat, r: Register, operand: string)
    requires |keep| == |lines| && k <= |lines|
  {
    IsSafeLoad(Some(operand)) && exists i: nat :: HeldSince(lines, keep, k, r, operand, i)
  }

  /** The next line that is kept and not blank is the label itself. */
  ghost predicate LabelNext(lines: seq<Line>, keep: seq<bool>, k: nat, name: string, j: nat)
    requires |keep| == |lines|
  {
    && k < j < |lines| && keep[j] && lines[j] == Label(name)
    && forall i :: k < i < j && keep[i] ==> lines[i].Blank?
  }

  /** A jmp, beq or bne to where control gets anyway. */
  ghost predicate Pointless(lines: seq<Line>, keep: seq<bool>, k: nat)
    requires |keep| == |lines| && k < |lines|
  {
    && lines[k].Insn? && lines[k].mnemonic in {"jmp", "beq", "bne"} && lines[k].operand.Some?
    && exists j: nat :: LabelNext(lines, keep, k, lines[k].operand.value, j)
  }

  /** A load of what its register holds. */
  ghost predicate Idle(lines: seq<Line>, keep: seq<bool>, k: nat)
    requires |keep| == |lines| && k < |lines|
  {
    && LoadOf(lines[k]).Some? && lines[k].operand.Some?
    && Held(lines, keep, k, LoadOf(lines[k]).value, lines[k].operand.value)
  }

  // ----- the pass's own bookkeeping -----

  function Slot(t: Track, r: Register): Option<string> {
    match r case A => t.a case X => t.x case Y => t.y
  }

  lemma SlotAfter(line: Line, t: Track, r: Register)
    ensures Slot(After(line, t), r) ==
      if LoadOf(line) == Some(r) then (if IsSafeLoad(line.operand) then line.operand else None)
      else if Forgets(line, r) then None
      else Slot(t, r)
  {
    hide IsSafeLoad;
  }

  lemma SlotDropped(lines: seq<Line>, keep: seq<bool>, k: nat, t: Track, r: Register)
    requires |keep| == |lines| && k < |lines| && Dropped(lines, keep, k, t)
    ensures Slot(After(lines[k], t), r) == Slot(t, r)
  {
    hide IsSafeLoad, NextKept;
    SlotAfter(lines[k], t, r);
  }

  /** What the pass knows of a register is what was loaded and not forgotten since. */
  lemma {:induction false} SlotIsHeld(lines: seq<Line>, keep: seq<bool>, k: nat, r: Register, operand: string)
    requires |keep| == |lines| && k <= |lines|
    ensures Slot(TrackAt(lines, keep, k), r) == Some(operand) <==> Held(lines, keep, k, r, operand)
  {
    hide IsSafeLoad, Dropped, After, Forgets, LoadOf;
    if k > 0 {
      SlotIsHeld(lines, keep, k - 1, r, operand);
      var t, line := TrackAt(lines, keep, k - 1), lines[k - 1];
      if keep[k - 1] {
        SlotAfter(line, t, r);
        if Dropped(lines, keep, k - 1, t) { SlotDropped(lines, keep, k - 1, t, r); }
        LoadForgets(line, r);
        HeldNext(lines, keep, k - 1, r, operand);
      } else {
        HeldSkips(lines, keep, k - 1, r, operand);
      }
    } else {
      NothingHeld(lines, keep, r, operand);
    }
  }

  lemma NothingHeld(lines: seq<Line>, keep: seq<bool>, r: Register, operand: string)
    requires |keep| == |lines|
    ensures Slot(TrackAt(lines, keep, 0), r).None? && !Held(lines, keep, 0, r, operand)
  {
  }

  lemma LoadForgets(line: Line, r: Register)
    ensures LoadOf(line) == Some(r) ==> Forgets(line, r) && line.Insn?
  {
  }

  lemma HeldSkips(lines: seq<Line>, keep: seq<bool>, k: nat, r: Register, operand: string)
    requires |keep| == |lines| && k < |lines| && !keep[k]
    ensures Held(lines, keep, k + 1, r, operand) <==> Held(lines, keep, k, r, operand)
  {
    hide IsSafeLoad, Forgets, LoadOf;
    var next := k + 1;
    if i: nat :| HeldSince(lines, keep, next, r, operand, i) {
      assert HeldSince(lines, keep, k, r, operand, i);
    }
    if i: nat :| HeldSince(lines, keep, k, r, operand, i) {
      assert HeldSince(lines, keep, next, r, operand, i);
    }
  }

  lemma HeldNext(lines: seq<Line>, keep: seq<bool>, k: nat, r: Register, operand: string)
    requires |keep| == |lines| && k < |lines| && keep[k] && (LoadOf(lines[k]) == Some(r) ==> Forgets(lines[k], r) && lines[k].Insn?)
    ensures Held(lines, keep, k + 1, r, operand) <==>
      if LoadOf(lines[k]) == Some(r) then IsSafeLoad(Some(operand)) && lines[k].operand == Some(operand)
      else !Forgets(lines[k], r) && Held(lines, keep, k, r, operand)
  {
    hide IsSafeLoad, Forgets, LoadOf;
    var next := k + 1;
    if LoadOf(lines[k]) == Some(r) && lines[k].operand == Some(operand) {
      assert HeldSince(lines, keep, next, r, operand, k);
    }
    if i: nat :| HeldSince(lines, keep, next, r, operand, i) {
      if i < k { assert HeldSince(lines, keep, k, r, operand, i); }
    }
    if i: nat :| HeldSince(lines, keep, k, r, operand, i) {
      if !Forgets(lines[k], r) { assert HeldSince(lines, keep, next, r, operand, i); }
    }
  }

  lemma {:induction false} NextKeptIs(lines: seq<Line>, keep: seq<bool>, k: nat)
    requires |keep| == |lines| && k < |lines|
    ensures var j := NextKept(lines, keep, k);
      && k < j <= |lines| && (j < |lines| ==> keep[j] && !lines[j].Blank?)
      && forall i :: k < i < j && keep[i] ==> lines[i].Blank?
    decreases |lines| - k
  {
    if k + 1 < |lines| && !(keep[k + 1] && !lines[k + 1].Blank?) { NextKeptIs(lines, keep, k + 1); }
  }

  lemma PointlessIs(lines: seq<Line>, keep: seq<bool>, k: nat)
    requires |keep| == |lines| && k < |lines|
    ensures JumpsToNext(lines, keep, k) <==> Pointless(lines, keep, k)
  {
    NextKeptIs(lines, keep, k);
    hide NextKept;
    var j := NextKept(lines, keep, k);
    if JumpsToNext(lines, keep, k) {
      assert LabelNext(lines, keep, k, lines[k].operand.value, j);
    }
  }

  lemma IdleIs(lines: seq<Line>, keep: seq<bool>, k: nat)
    requires |keep| == |lines| && k < |lines|
    ensures LoadsHeld(lines[k], TrackAt(lines, keep, k)) <==> Idle(lines, keep, k)
  {
    hide TrackAt, IsCompilerZp, IsImmediate;
    if LoadOf(lines[k]).Some? && lines[k].operand.Some? {
      SlotIsHeld(lines, keep, k, LoadOf(lines[k]).value, lines[k].operand.value);
    }
  }

  // ----- what is dropped and what remains -----

  /** A sweep drops a line exactly when it is a pointless jump or a load of what its register holds. */
  lemma DroppedIff(lines: seq<Line>, keep: seq<bool>, k: nat)
    requires |keep| == |lines| && k < |lines| && keep[k]
    ensures !Sweep(lines, keep)[k] <==> Pointless(lines, keep, k) || Idle(lines, keep, k)
  {
    hide TrackAt, LoadsHeld, JumpsToNext;
    PointlessIs(lines, keep, k);
    IdleIs(lines, keep, k);
  }

  /** Once another sweep would change nothing, no kept jump goes to the label after it, and between any two loads of the
      same operand into the same register stands a line at which the register is forgotten. */
  lemma SweptIsTight(lines: seq<Line>, keep: seq<bool>, i: nat, k: nat, r: Register, operand: string)
    requires Swept(lines, keep) && k < |lines| && keep[k]
    ensures !Pointless(lines, keep, k)
    ensures i < k && keep[i] && LoadOf(lines[i]) == LoadOf(lines[k]) == Some(r)
            && lines[i].operand == lines[k].operand == Some(operand) && IsSafeLoad(Some(operand)) ==>
              exists j :: i < j < k && keep[j] && Forgets(lines[j], r)
  {
    DroppedIff(lines, keep, k);
    hide Sweep, Forgets, IsSafeLoad;
    if i < k && keep[i] && LoadOf(lines[i]) == LoadOf(lines[k]) == Some(r)
       && lines[i].operand == lines[k].operand == Some(operand) && IsSafeLoad(Some(operand)) {
      assert !Held(lines, keep, k, r, operand);
      assert !HeldSince(lines, keep, k, r, operand, i);
    }
  }

  // ----- operands and sizes -----

  const ZP_PAIRS := {"fp", "sp", "ptr0", "ptr1", "ptr2"}

  /** The compiler's own zero-page names are its two arguments and the two bytes of each of its pointers. */
  lemma CompilerZpNames(operand: string)
    ensures IsCompilerZp(operand) <==> operand in {"arg0", "arg1"} || exists p :: p in ZP_PAIRS && (operand == p || operand == p + "+1")
  {
    if IsCompilerZp(operand) && operand !in {"arg0", "arg1"} {
      assert "fp" in ZP_PAIRS && "sp" in ZP_PAIRS && "ptr0" in ZP_PAIRS && "ptr1" in ZP_PAIRS && "ptr2" in ZP_PAIRS;
    }
  }

  /** What a load may be dropped for: an immediate, or one of those names. */
  lemma SafeLoads(operand: Option<string>)
    ensures IsSafeLoad(operand) <==>
      operand.Some? && ((exists rest :: operand.value == "#" + rest) || operand.value in {"arg0", "arg1"}
        || exists p :: p in ZP_PAIRS && (operand.value == p || operand.value == p + "+1"))
  {
    if operand.Some? {
      CompilerZpNames(operand.value);
      if |operand.value| > 0 && operand.value[0] == '#' { assert operand.value == "#" + operand.value[1..]; }
    }
    hide IsCompilerZp;
  }

  /** The encoding a line's mnemonic and operand amount to, names of unknown address being absolute. */
  function EncodingOf(mnemonic: string, operand: string): EmitMode {
    if mnemonic in {"rts", "pha", "pla", "clc", "sec", "iny"} then Implied
    else if mnemonic in {"beq", "bne"} then Rel
    else if mnemonic in {"jmp", "jsr"} then Abs
    else if IsImmediate(operand) then Immediate
    else if |operand| > 0 && operand[0] == '(' then IndY
    else if IsCompilerZp(operand) then Zp
    else Abs
  }

  /** So the bytes saved are counted as the assembler would count them. */
  lemma SizeIsEncodings(mnemonic: string, operand: string)
    ensures InstructionSize(mnemonic, Some(operand)) == ModeSize(EncodingOf(mnemonic, operand))
  {
    hide IsCompilerZp;
  }
}
