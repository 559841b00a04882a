/** The second pass: each statement's bytes, written one by one into the image. */
module SecondPass {
  import opened Basics
  import opened AsmOpcode
  import opened AsmExpr
  import opened AsmLayout
  import opened AsmEmit
  import opened AsmImage
  import opened IntelHex

  lemma {:induction false} OverlayGrows(m: Memory, at: int, bs: seq<Byte>, cs: seq<Byte>)
    ensures Overlay(m, at, bs + cs) == if Fits(at, |bs|) then Overlay(Overlay(m, at, bs), at + |bs|, cs) else Overlay(m, at, bs)
    decreases |bs|
  {
    if bs == [] {
      assert bs + cs == cs;
    } else if 0 <= at < 65536 {
      OverlayGrows(m[at := bs[0]], at + 1, bs[1..], cs);
      assert (bs + cs)[1..] == bs[1..] + cs;
    }
  }

  class Emitter {
    const program: Program
    const modes: Modes
    const layout: Layout
    const image: Image
    var errors: nat

    ghost predicate Valid()
      reads this, image, image.used
    {
      && |modes| == |layout.address| == |program.stmts| && image.Valid()
      && forall i :: 0 <= i < |program.stmts| ==> 0 <= layout.address[i]
    }

    /** Starting from image m and a count of errors, e has been written at `at`; a byte that does not fit
        ends the statement with one error. */
    ghost predicate Done(m: Memory, at: int, e: Emission, before: nat)
      reads this, image, image.data, image.used
      requires image.Valid()
    {
      image.Contents() == Overlay(m, at, e.bytes) && errors == before + (if Succeeds(e, at) then 0 else 1)
    }

    constructor (p: Program, m: Modes, l: Layout, errorsSoFar: nat)
      requires |m| == |l.address| == |p.stmts| && forall i :: 0 <= i < |l.address| ==> 0 <= l.address[i]
      ensures Valid() && image.Contents() == map[] && errors == errorsSoFar
      ensures program == p && modes == m && layout == l && fresh(image) && fresh(image.data) && fresh(image.used)
    {
      program, modes, layout, errors := p, m, l, errorsSoFar;
      image := new Image();
    }

    method EmitByte(pc: int, b: Byte) returns (ok: bool)
      requires Valid()
      modifies this, image, image.data, image.used
      ensures Valid() && ok == Fits(pc, 1) && Done(old(image.Contents()), pc, Emission([b], true), old(errors))
    {
      ghost var m := image.Contents();
      ok := image.WriteByte(pc, b);
      if !ok {
        errors := errors + 1;
      }
      assert Overlay(m, pc, [b]) == if Fits(pc, 1) then m[pc := b] else m;
    }

    method Report(ghost m: Memory, ghost at: int, ghost bs: seq<Byte>)
      requires Valid() && image.Contents() == Overlay(m, at, bs)
      modifies `errors
      ensures Valid() && Done(m, at, Emission(bs, false), old(errors))
    {
      errors := errors + 1;
    }

    /** One more byte after bs. */
    lemma Extended(m: Memory, at: int, bs: seq<Byte>, cs: seq<Byte>, ok: bool, before: nat)
      requires image.Valid() && 0 <= at && Fits(at, |bs|)
      requires Done(Overlay(m, at, bs), at + |bs|, Emission(cs, ok), before)
      ensures Done(m, at, Emission(bs + cs, ok), before)
    {
      OverlayGrows(m, at, bs, cs);
    }

    /** A statement that ran out of the image is done, whatever else it stands for. */
    lemma RanOut(m: Memory, at: int, bs: seq<Byte>, e: Emission, before: nat)
      requires image.Valid() && Done(m, at, Emission(bs, true), before) && !Fits(at, |bs|)
      requires |bs| <= |e.bytes| && e.bytes[..|bs|] == bs
      ensures Done(m, at, e, before)
    {
      OverlayGrows(m, at, bs, e.bytes[|bs|..]);
      assert e.bytes == bs + e.bytes[|bs|..];
    }

    /** Bytes one after another; the first address outside the image ends it with an error. */
    method EmitAll(at: int, bs: seq<Byte>) returns (ok: bool)
      requires Valid() && 0 <= at
      modifies this, image, image.data, image.used
      ensures Valid() && ok == Fits(at, |bs|) && Done(old(image.Contents()), at, Emission(bs, true), old(errors))
    {
      ghost var m, before := image.Contents(), errors;
      var i := 0;
      while i < |bs|
        invariant 0 <= i <= |bs| && Valid() && Fits(at, i) && Done(m, at, Emission(bs[..i], true), before)
      {
        hide *;
        DoneParts(m, at, Emission(bs[..i], true), before);
        ok := EmitByte(at + i, bs[i]);
        DoneNext(m, at, bs, i, before);
        i := i + 1;
        if !ok {
          NotFit(at, i, |bs|);
          RanOut(m, at, bs[..i], Emission(bs, true), before);
          return;
        }
        FitsNext(at, i);
      }
      assert bs[..i] == bs;
      ok := true;
    }

    lemma DoneParts(m: Memory, at: int, e: Emission, before: nat)
      requires image.Valid() && Done(m, at, e, before)
      ensures image.Contents() == Overlay(m, at, e.bytes) && (Succeeds(e, at) ==> errors == before)
    {
    }

    lemma DoneNext(m: Memory, at: int, bs: seq<Byte>, i: nat, before: nat)
      requires image.Valid() && 0 <= at && i < |bs| && Fits(at, i)
      requires Done(Overlay(m, at, bs[..i]), at + i, Emission([bs[i]], true), before)
      ensures Done(m, at, Emission(bs[..i + 1], true), before)
    {
      Extended(m, at, bs[..i], [bs[i]], true, before);
      assert bs[..i] + [bs[i]] == bs[..i + 1];
    }

    lemma ImageValid()
      requires Valid()
      ensures image.Valid()
    {
    }

    /** The opcode bytes. */
    method EmitHead(op: Opcode, mode: EmitMode, at: int) returns (ok: bool)
      requires Valid() && 0 <= at
      modifies this, image, image.data, image.used
      ensures Valid() && ok == Succeeds(HeadBytes(program.table, op, mode), at)
      ensures Done(old(image.Contents()), at, HeadBytes(program.table, op, mode), old(errors))
    {
      ghost var m, before := image.Contents(), errors;
      OverlayNothing(m, at);
      if mode == RelLong {
        var inverse := if op.Named? then InvertBranch(op.name) else None;
        if inverse.None? {
          Report(m, at, []);
          return false;
        }
        ok := EmitByte(at, inverse.value);
        hide Valid, Done, Lookup, InvertBranch, Overlay;
        if !ok {
          RanOut(m, at, [inverse.value], HeadBytes(program.table, op, mode), before);
          return;
        }
        DoneParts(m, at, Emission([inverse.value], true), before);
        ok := EmitByte(at + 1, 3);
        Extended(m, at, [inverse.value], [3], true, before);
        assert [inverse.value] + [3] == [inverse.value, 3];
        if !ok {
          RanOut(m, at, [inverse.value, 3], HeadBytes(program.table, op, mode), before);
          return;
        }
        DoneParts(m, at, Emission([inverse.value, 3], true), before);
        var jump := Lookup(program.table, Opcode.Named("JMP"), Abs);
        if jump.None? {
          Report(m, at, [inverse.value, 3]);
          return false;
        }
        ok := EmitByte(at + 2, jump.value);
        Extended(m, at, [inverse.value, 3], [jump.value], true, before);
        assert [inverse.value, 3] + [jump.value] == [inverse.value, 3, jump.value];
      } else {
        var code := Lookup(program.table, op, mode);
        if code.None? {
          Report(m, at, []);
          return false;
        }
        ok := EmitByte(at, code.value);
      }
    }

    /** The operand bytes, or an error when the value does not fit the mode. */
    method EmitOperand(mode: EmitMode, v: int, pc: int)
      requires Valid() && 0 <= pc
      modifies this, image, image.data, image.used
      ensures Valid() && Done(old(image.Contents()), pc, OperandBytes(mode, v, pc), old(errors))
    {
      ghost var m, before := image.Contents(), errors;
      OverlayNothing(m, pc);
      if (mode == Immediate && !(-128 <= v <= 255)) || (ByteOperand(mode) && !(0 <= v <= 255)) {
        Report(m, pc, []);
        return;
      }
      if mode == Immediate || ByteOperand(mode) {
        var _ := EmitByte(pc, v % 256);
      } else if mode == Rel {
        var disp := v - (pc + 1);
        if disp < -128 || disp > 127 {
          Report(m, pc, []);
          return;
        }
        var _ := EmitByte(pc, disp % 256);
      } else {
        var _ := EmitAll(pc, LoHi(v));
      }
    }

    /** The opcode bytes, then the operand evaluated at the address after them. */
    method EmitInsn(op: Opcode, operand: Option<Expr>, mode: EmitMode, at: int)
      requires Valid() && 0 <= at
      modifies this, image, image.data, image.used
      ensures Valid() && Done(old(image.Contents()), at, InsnBytes(program.table, op, operand, mode, layout.symbols, at), old(errors))
    {
      ghost var m, before := image.Contents(), errors;
      ghost var head := HeadBytes(program.table, op, mode);
      ghost var whole := InsnBytes(program.table, op, operand, mode, layout.symbols, at);
      hide *;
      var ok := EmitHead(op, mode, at);
      HeadFirst(program.table, op, operand, mode, layout.symbols, at);
      ImageValid();
      if ok {
        HeadSucceeds(head, at);
        EmitRest(op, operand, mode, at, m, before);
      } else if head.ok {
        HeadFails(head, at);
        RanOut(m, at, head.bytes, whole, before);
      }
    }

    /** What follows the opcode bytes. */
    method EmitRest(op: Opcode, operand: Option<Expr>, mode: EmitMode, at: int, ghost m: Memory, ghost before: nat)
      requires Valid() && 0 <= at && image.Valid()
      requires var head := HeadBytes(program.table, op, mode); head.ok && Fits(at, |head.bytes|) && Done(m, at, head, before)
      modifies this, image, image.data, image.used
      ensures Valid() && image.Valid()
      ensures Done(m, at, InsnBytes(program.table, op, operand, mode, layout.symbols, at), before)
    {
      hide *;
      ghost var head := HeadBytes(program.table, op, mode);
      InsnIs(program.table, op, operand, mode, layout.symbols, at);
      HeadShape(program.table, op, mode);
      HeadSucceeds(head, at);
      DoneParts(m, at, head, before);
      if mode == Implied || mode == Accumulator {
        return;
      }
      if operand.None? {
        Report(m, at, head.bytes);
        return;
      }
      var pc := at + (if mode == RelLong then 3 else 1);
      var v := EvalExpr(operand.value, layout.symbols, pc);
      if !v.Ok? {
        Report(m, at, head.bytes);
        return;
      }
      EmitOperand(mode, v.value, pc);
      ImageValid();
      var tail := OperandBytes(mode, v.value, pc);
      Extended(m, at, head.bytes, tail.bytes, tail.ok, before);
    }

    /** The first i values have been written, all of them. */
    ghost predicate Written(m: Memory, es: seq<Expr>, width: nat, at: int, i: nat, before: nat)
      reads this, image, image.data, image.used
      requires image.Valid() && i <= |es| && (width == 1 || width == 2)
    {
      var e := DataBytes(es, width, layout.symbols, at, i);
      e.ok && |e.bytes| == width * i && Fits(at, width * i) && Done(m, at, e, before)
    }

    /** One value; if it has none, or does not fit, the whole statement is done. */
    method EmitValue(es: seq<Expr>, width: nat, at: int, i: nat, ghost m: Memory, ghost before: nat) returns (ok: bool)
      requires Valid() && 0 <= at && (width == 1 || width == 2) && i < |es| && image.Valid()
      requires Written(m, es, width, at, i, before)
      modifies this, image, image.data, image.used
      ensures Valid() && image.Valid()
      ensures if ok then Written(m, es, width, at, i + 1, before)
              else Done(m, at, DataBytes(es, width, layout.symbols, at, |es|), before)
    {
      hide *;
      ghost var e, whole := DataBytes(es, width, layout.symbols, at, i), DataBytes(es, width, layout.symbols, at, |es|);
      WrittenParts(m, es, width, at, i, before);
      DataNext(es, width, layout.symbols, at, i);
      DataPrefix(es, width, layout.symbols, at, i + 1, |es|);
      DoneParts(m, at, e, before);
      var pc := at + width * i;
      var v := EvalExpr(es[i], layout.symbols, pc);
      if !v.Ok? {
        Report(m, at, e.bytes);
        ImageValid();
        return false;
      }
      WidthOf(v.value, width);
      ok := EmitAll(pc, LoHi(v.value)[..width]);
      ImageValid();
      Extended(m, at, e.bytes, LoHi(v.value)[..width], true, before);
      FitsSum(at, |e.bytes|, width);
      assert width * i + width == width * (i + 1);
      if ok {
        WrittenIntro(m, es, width, at, i + 1, before);
      } else {
        RanOut(m, at, e.bytes + LoHi(v.value)[..width], whole, before);
      }
    }

    lemma WrittenParts(m: Memory, es: seq<Expr>, width: nat, at: int, i: nat, before: nat)
      requires image.Valid() && i <= |es| && (width == 1 || width == 2) && Written(m, es, width, at, i, before)
      ensures var e := DataBytes(es, width, layout.symbols, at, i);
        && e.ok && e == Emission(e.bytes, true) && |e.bytes| == width * i && Fits(at, |e.bytes|) && Done(m, at, e, before)
        && Succeeds(e, at)
    {
      hide DataBytes, Done;
    }

    lemma WrittenIntro(m: Memory, es: seq<Expr>, width: nat, at: int, i: nat, before: nat)
      requires image.Valid() && i <= |es| && (width == 1 || width == 2)
      requires var e := DataBytes(es, width, layout.symbols, at, i);
        e.ok && |e.bytes| == width * i && Fits(at, |e.bytes|) && Done(m, at, e, before)
      ensures Written(m, es, width, at, i, before)
    {
      hide DataBytes, Done;
    }

    /** .byte and .word: one value after another, until one fails. */
    method EmitData(es: seq<Expr>, width: nat, at: int)
      requires Valid() && 0 <= at && (width == 1 || width == 2)
      modifies this, image, image.data, image.used
      ensures Valid() && Done(old(image.Contents()), at, DataBytes(es, width, layout.symbols, at, |es|), old(errors))
    {
      ghost var m, before := image.Contents(), errors;
      OverlayNothing(m, at);
      var i := 0;
      while i < |es|
        invariant 0 <= i <= |es| && Valid() && Written(m, es, width, at, i, before)
      {
        hide Valid, Written, Done, DataBytes;
        ImageValid();
        var ok := EmitValue(es, width, at, i, m, before);
        if !ok {
          return;
        }
        i := i + 1;
      }
    }

    method EmitStatement(i: nat)
      requires Valid() && i < |program.stmts|
      modifies this, image, image.data, image.used
      ensures Valid() && Done(old(image.Contents()), layout.address[i], BytesAt(program, modes, layout, i), old(errors))
    {
      var at := layout.address[i];
      ghost var m := image.Contents();
      OverlayNothing(m, at);
      match program.stmts[i].body {
        case Insn(op, _, _, operand) => EmitInsn(op, operand, modes[i], at);
        case Bytes(es) => EmitData(es, 1, at);
        case Words(es) => EmitData(es, 2, at);
        case Text(bs) => var _ := EmitAll(at, bs);
        case Asciiz(bs) => var _ := EmitAll(at, bs + [0]);
        case Res(e) =>
          var v := EvalExpr(e, layout.symbols, at);
          if v.Ok? && v.value >= 0 {
            var _ := EmitAll(at, Zeros(v.value));
          } else {
            Report(m, at, []);
          }
        case _ =>
      }
    }

    /** Writes every statement; a failing one is counted and skipped. */
    method Pass2()
      requires Valid() && image.Contents() == map[]
      modifies this, image, image.data, image.used
      ensures Valid() && image.Contents() == ImageTo(program, modes, layout, |program.stmts|)
      ensures errors == old(errors) + FailuresTo(program, modes, layout, |program.stmts|)
    {
      var i := 0;
      while i < |program.stmts|
        invariant i <= |program.stmts| && Valid() && image.Contents() == ImageTo(program, modes, layout, i)
        invariant errors == old(errors) + FailuresTo(program, modes, layout, i)
      {
        hide Valid, BytesAt, Overlay;
        EmitStatement(i);
        i := i + 1;
      }
    }
  }

  lemma OverlayNothing(m: Memory, at: int)
    ensures Overlay(m, at, []) == m
  {
  }

  lemma HeadShape(table: Table, op: Opcode, mode: EmitMode)
    requires HeadBytes(table, op, mode).ok
    ensures HeadBytes(table, op, mode) == Emission(HeadBytes(table, op, mode).bytes, true)
    ensures |HeadBytes(table, op, mode).bytes| == if mode == RelLong then 3 else 1
  {
  }

  lemma WidthOf(v: int, width: nat)
    requires width == 1 || width == 2
    ensures |LoHi(v)| == 2 && |LoHi(v)[..width]| == width
  {
  }

  lemma HeadSucceeds(head: Emission, at: int)
    ensures Succeeds(head, at) <==> head.ok && Fits(at, |head.bytes|)
    ensures head.ok ==> head == Emission(head.bytes, true)
  {
  }

  lemma HeadFails(head: Emission, at: int)
    requires head.ok && !Succeeds(head, at)
    ensures !Fits(at, |head.bytes|) && head == Emission(head.bytes, true)
  {
  }

  lemma InsnIs(table: Table, op: Opcode, operand: Option<Expr>, mode: EmitMode, symbols: Symbols, at: int)
    requires HeadBytes(table, op, mode).ok
    ensures var head, whole := HeadBytes(table, op, mode), InsnBytes(table, op, operand, mode, symbols, at);
      if mode == Implied || mode == Accumulator then whole == head
      else if operand.None? then whole == Emission(head.bytes, false)
      else
        var pc := at + |head.bytes|;
        match EvalExpr(operand.value, symbols, pc)
        case Ok(v) =>
          whole == Emission(head.bytes + OperandBytes(mode, v, pc).bytes, OperandBytes(mode, v, pc).ok)
        case _ => whole == Emission(head.bytes, false)
  {
    hide OperandBytes, EvalExpr, HeadBytes;
  }

  /** An instruction's bytes begin with its opcode bytes, and are those alone if they fail. */
  lemma HeadFirst(table: Table, op: Opcode, operand: Option<Expr>, mode: EmitMode, symbols: Symbols, at: int)
    ensures var head, whole := HeadBytes(table, op, mode), InsnBytes(table, op, operand, mode, symbols, at);
      && |head.bytes| <= |whole.bytes| && whole.bytes[..|head.bytes|] == head.bytes
      && (!head.ok ==> whole == head)
  {
    hide OperandBytes, EvalExpr;
    var head := HeadBytes(table, op, mode);
    hide HeadBytes;
    assert head.bytes[..|head.bytes|] == head.bytes;
  }

  lemma FitsSum(at: int, n: nat, k: nat)
    requires 0 <= at && Fits(at, n) && 0 < k
    ensures Fits(at, n + k) <==> Fits(at + n, k)
  {
  }

  lemma DataNext(es: seq<Expr>, width: nat, symbols: Symbols, at: int, i: nat)
    requires i < |es| && (width == 1 || width == 2) && DataBytes(es, width, symbols, at, i).ok
    ensures var before := DataBytes(es, width, symbols, at, i);
      DataBytes(es, width, symbols, at, i + 1) ==
        match EvalExpr(es[i], symbols, at + |before.bytes|)
        case Ok(v) => Emission(before.bytes + LoHi(v)[..width], true)
        case _ => Emission(before.bytes, false)
  {
  }

  /** What has been produced stays; after a failure nothing follows. */
  lemma {:induction false} DataPrefix(es: seq<Expr>, width: nat, symbols: Symbols, at: int, i: nat, n: nat)
    requires i <= n <= |es| && (width == 1 || width == 2)
    ensures var a, b := DataBytes(es, width, symbols, at, i), DataBytes(es, width, symbols, at, n);
      |a.bytes| <= |b.bytes| && b.bytes[..|a.bytes|] == a.bytes && (!a.ok ==> b == a)
  {
    if i == n {
      var a := DataBytes(es, width, symbols, at, i);
      assert a.bytes[..|a.bytes|] == a.bytes;
    } else {
      DataPrefix(es, width, symbols, at, i, n - 1);
      hide EvalExpr;
    }
  }

  lemma NotFit(at: int, n: nat, all: nat)
    requires 0 <= at && 0 < n <= all && !Fits(at + n - 1, 1)
    ensures !Fits(at, n) && !Fits(at, all)
  {
  }

  lemma FitsNext(at: int, n: nat)
    requires 0 <= at && 0 < n && Fits(at + n - 1, 1)
    ensures Fits(at, n)
  {
  }
}
