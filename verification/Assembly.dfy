/** The whole assembler: shrink until stable, then write. */
module Assembly {
  import opened AsmLayout
  import opened AsmRelax
  import opened AsmEmit
  import opened AsmImage
  import opened Assembler
  import opened SecondPass
  import opened IntelHex

  /** Statements placed with some encodings and written with others: at every address the image holds exactly what the
      statement placed there stands for. */
  ghost predicate ImageOf(p: Program, modes: Modes, written: Modes, m: Memory)
    requires WellFormed(p) && |modes| == |written| == |p.stmts|
  {
    var l := LayoutOf(p, modes);
    m == ImageTo(p, written, l, |p.stmts|) && forall a :: Faithful(p, modes, written, l, |p.stmts|, a)
  }

  /** Every statement fills the bytes it was given. */
  ghost predicate NoHoles(p: Program, modes: Modes, written: Modes)
    requires WellFormed(p) && |modes| == |written| == |p.stmts|
  {
    forall i :: 0 <= i < |p.stmts| ==> |BytesAt(p, written, LayoutOf(p, modes), i).bytes| == Reserved(p, modes, i)
  }

  lemma ErrorFreeIsFaithful(p: Program, modes: Modes, written: Modes)
    requires Clean(p, modes) && Shrunk(p, modes, written) && SegmentsApart(p, modes)
    requires FailuresTo(p, written, LayoutOf(p, modes), |p.stmts|) == 0
    ensures ImageOf(p, modes, written, ImageTo(p, written, LayoutOf(p, modes), |p.stmts|))
    ensures NoHoles(p, modes, written) <==> written == modes
  {
    hide SegmentsApart, FailuresTo, LayoutOf, ImageTo, Faithful, BytesAt, Reserved;
    BelowLength(written, modes);
    forall a
      ensures Faithful(p, modes, written, LayoutOf(p, modes), |p.stmts|, a)
    {
      ImageIsFaithful(p, modes, written, |p.stmts|, a);
    }
    forall i | 0 <= i < |p.stmts|
      ensures |BytesAt(p, written, LayoutOf(p, modes), i).bytes| == Reserved(p, modes, i) <==> written[i] == modes[i]
    {
      FillsIffKept(p, modes, written, i);
    }
  }

  lemma FillsIffKept(p: Program, modes: Modes, written: Modes, i: nat)
    requires Clean(p, modes) && Shrunk(p, modes, written) && i < |p.stmts|
    requires FailuresTo(p, written, LayoutOf(p, modes), |p.stmts|) == 0
    ensures |BytesAt(p, written, LayoutOf(p, modes), i).bytes| == Reserved(p, modes, i) <==> written[i] == modes[i]
  {
    BelowLength(written, modes);
    hide LayoutOf, StatementBytes, Reserved, Below;
    NoFailure(p, written, LayoutOf(p, modes), i, |p.stmts|);
    WritesLessIfShrunk(p, modes, written, i);
  }

  lemma {:induction false} AddressesOf(p: Program, modes: Modes)
    requires WellFormed(p) && |modes| == |p.stmts|
    ensures |LayoutOf(p, modes).address| == |p.stmts| && forall i :: 0 <= i < |p.stmts| ==> 0 <= LayoutOf(p, modes).address[i]
  {
    hide PlaceTo;
    forall i | 0 <= i < |p.stmts|
      ensures 0 <= LayoutOf(p, modes).address[i]
    {
      AddressesNatural(p, modes, |p.stmts|, i);
    }
  }

  lemma CleanIf(p: Program, modes: Modes)
    requires WellFormed(p) && |modes| == |p.stmts| && NoOrg(p) && LayoutOf(p, modes).errors == 0
    ensures Clean(p, modes)
  {
  }

  /** A sweep only puts instructions into their narrow form. */
  lemma BatchShrinks(p: Program, n: nat)
    requires WellFormed(p)
    ensures Shrunk(p, Batch(p, n), Batch(p, n + 1))
  {
    hide Batch, LayoutOf;
    BatchNext(p, n + 1);
    var m := Batch(p, n);
    hide RelaxAll;
    forall i | 0 <= i < |m|
      ensures AtMost(Batch(p, n + 1)[i], m[i]) && (Batch(p, n + 1)[i] != m[i] ==> p.stmts[i].body.Insn?)
    {
      SweptAt(p, m, i);
      RelaxedAtMost(p, p.stmts[i], m[i], LayoutOf(p, m).symbols, LayoutOf(p, m).address[i]);
    }
  }

  lemma SweptAt(p: Program, m: Modes, i: nat)
    requires WellFormed(p) && |m| == |p.stmts| && i < |m|
    ensures RelaxAll(p, m)[i] == Relaxed(p, p.stmts[i], m[i], LayoutOf(p, m).symbols, LayoutOf(p, m).address[i])
  {
    hide Relaxed, LayoutOf;
  }

  /** The encodings under which the statements were last placed, in the last of so many rounds. */
  ghost function Placed(p: Program, rounds: nat): (m: Modes)
    requires WellFormed(p)
    ensures |m| == |p.stmts|
  {
    if rounds == 0 then InitialModes(p) else Batch(p, rounds - 1)
  }

  lemma EndIsShrunk(p: Program, rounds: nat)
    requires WellFormed(p) && rounds > 0
    ensures Shrunk(p, Placed(p, rounds), Batch(p, rounds))
  {
    hide Batch;
    BatchShrinks(p, rounds - 1);
  }

  lemma PlacedIs(p: Program, rounds: nat)
    requires WellFormed(p) && rounds > 0
    ensures Placed(p, rounds) == Batch(p, rounds - 1)
  {
    hide Batch;
  }

  /** All the errors of an assembly of so many rounds: operands of no usable shape, those of every layout pass, and those of
      the second pass. */
  ghost function AllErrors(p: Program, rounds: nat): nat
    requires WellFormed(p)
  {
    Illegal(p, |p.stmts|) + PassErrors(p, rounds) + FailuresTo(p, Batch(p, rounds), LayoutOf(p, Placed(p, rounds)), |p.stmts|)
  }

  lemma {:induction false} NothingIllegal(p: Program, n: nat)
    requires n <= |p.stmts|
    ensures Illegal(p, n) == 0 <==> forall i :: 0 <= i < n ==> !IsIllegal(p, p.stmts[i])
  {
    hide IsIllegal;
    if n > 0 { NothingIllegal(p, n - 1); }
  }

  lemma {:induction false} NoPassErrs(p: Program, n: nat)
    requires WellFormed(p)
    ensures PassErrors(p, n) == 0 <==> forall k: nat :: k < n ==> LayoutOf(p, Batch(p, k)).errors == 0
  {
    hide LayoutOf, Batch;
    if n > 0 {
      NoPassErrs(p, n - 1);
      var last: nat := n - 1;
      PassErrorsNext(p, last);
    }
  }

  /** The bytes of the first n statements are complete and inside the image. */
  ghost predicate Written(p: Program, modes: Modes, l: Layout, n: nat)
    requires |modes| == |l.address| == |p.stmts| && n <= |p.stmts|
  {
    forall i: nat :: i < n ==> Succeeds(BytesAt(p, modes, l, i), l.address[i])
  }

  lemma {:induction false} NothingFails(p: Program, modes: Modes, l: Layout, n: nat)
    requires |modes| == |l.address| == |p.stmts| && n <= |p.stmts|
    ensures FailuresTo(p, modes, l, n) == 0 <==> Written(p, modes, l, n)
  {
    hide BytesAt, Succeeds;
    if n > 0 { NothingFails(p, modes, l, n - 1); }
  }

  /** There are none exactly when every instruction has an encoding to start with, no layout pass finds fault, and every
      statement's bytes are complete and inside the image. */
  lemma NoErrorsIff(p: Program, rounds: nat)
    requires WellFormed(p) && rounds > 0
    ensures AllErrors(p, rounds) == 0 <==>
      && (forall i :: 0 <= i < |p.stmts| ==> !IsIllegal(p, p.stmts[i]))
      && (forall k: nat :: k < rounds ==> LayoutOf(p, Batch(p, k)).errors == 0)
      && Written(p, Batch(p, rounds), LayoutOf(p, Batch(p, rounds - 1)), |p.stmts|)
  {
    hide LayoutOf, Batch, Illegal, PassErrors, FailuresTo, BytesAt, Succeeds, IsIllegal;
    NothingIllegal(p, |p.stmts|);
    NoPassErrs(p, rounds);
    NothingFails(p, Batch(p, rounds), LayoutOf(p, Batch(p, rounds - 1)), |p.stmts|);
  }

  /** Assembling a program: the errors reported are those of every pass made. Without .org, if none was reported and the
      segments end up apart, every statement's bytes are where it was placed. They fill their place, without holes, if
      shrinking ended stable; if instead it was cut off after fifty rounds, exactly when the last of them shrank nothing. */
  method Assemble(p: Program, signature: map<string, nat> -> int)
    returns (stable: bool, errors: nat, modes: Modes, image: Image, ghost rounds: nat)
    requires WellFormed(p)
    ensures 1 <= rounds <= 50 && modes == Batch(p, rounds) && image.Valid()
    ensures if stable then Stable(p, modes) && Placed(p, rounds) == modes else rounds == 50 && StillShrinking(p, 50)
    ensures errors == AllErrors(p, rounds)
    ensures image.Contents() == ImageTo(p, modes, LayoutOf(p, Placed(p, rounds)), |p.stmts|)
    ensures errors == 0 && NoOrg(p) ==>
      Clean(p, Placed(p, rounds)) && FailuresTo(p, modes, LayoutOf(p, Placed(p, rounds)), |p.stmts|) == 0
    ensures errors == 0 && NoOrg(p) && SegmentsApart(p, Placed(p, rounds)) ==>
      && ImageOf(p, Placed(p, rounds), modes, image.Contents())
      && (NoHoles(p, Placed(p, rounds), modes) <==> modes == Placed(p, rounds))
  {
    hide *;
    var c := new Context(p);
    c.ValidParts();
    stable, rounds := c.Relax(signature);
    c.ValidParts();
    modes := c.modes[..];
    PlacedIs(p, rounds);
    ghost var placed := Placed(p, rounds);
    AddressesOf(p, placed);
    c.LaidOutParts(LayoutOf(p, placed));
    var l := Layout(c.address[..], c.pcs, c.symbols, c.errors);
    SameButErrors(p, modes, LayoutOf(p, placed), l);
    var e := new Emitter(p, modes, l, c.errors);
    e.Pass2();
    errors, image := e.errors, e.image;
    e.ImageValid();
    ErrorsAre(p, rounds);
    if errors == 0 && NoOrg(p) {
      LastIsClean(p, rounds);
      if SegmentsApart(p, placed) {
        EndIsShrunk(p, rounds);
        ErrorFreeIsFaithful(p, placed, modes);
      }
    }
  }

  /** The second pass looks at addresses and names only. */
  lemma {:induction false} SameTo(p: Program, modes: Modes, l: Layout, k: Layout, n: nat)
    requires |modes| == |l.address| == |p.stmts| && k.address == l.address && k.symbols == l.symbols && n <= |p.stmts|
    ensures ImageTo(p, modes, k, n) == ImageTo(p, modes, l, n) && FailuresTo(p, modes, k, n) == FailuresTo(p, modes, l, n)
  {
    hide StatementBytes, Overlay, Succeeds;
    if n > 0 { SameTo(p, modes, l, k, n - 1); }
  }

  lemma SameButErrors(p: Program, modes: Modes, l: Layout, k: Layout)
    requires |modes| == |l.address| == |p.stmts| && k.address == l.address && k.symbols == l.symbols
    ensures ImageTo(p, modes, k, |p.stmts|) == ImageTo(p, modes, l, |p.stmts|)
    ensures FailuresTo(p, modes, k, |p.stmts|) == FailuresTo(p, modes, l, |p.stmts|)
  {
    SameTo(p, modes, l, k, |p.stmts|);
  }

  lemma ErrorsAre(p: Program, rounds: nat)
    requires WellFormed(p)
    ensures AllErrors(p, rounds)
      == Illegal(p, |p.stmts|) + PassErrors(p, rounds) + FailuresTo(p, Batch(p, rounds), LayoutOf(p, Placed(p, rounds)), |p.stmts|)
  {
    hide Illegal, PassErrors, FailuresTo, Batch, LayoutOf, Placed;
  }

  lemma LastIsClean(p: Program, rounds: nat)
    requires WellFormed(p) && rounds > 0 && NoOrg(p) && AllErrors(p, rounds) == 0
    ensures Clean(p, Placed(p, rounds)) && FailuresTo(p, Batch(p, rounds), LayoutOf(p, Placed(p, rounds)), |p.stmts|) == 0
  {
    hide *;
    ErrorsAre(p, rounds);
    PlacedIs(p, rounds);
    NoPassErrs(p, rounds);
    CleanIf(p, Placed(p, rounds));
  }
}
