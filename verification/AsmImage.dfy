/** The image the second pass leaves behind. */
module AsmImage {
  import opened Basics
  import opened AsmLayout
  import opened AsmStable
  import opened AsmEmit

  type Memory = map<int, Byte>

  /** Bytes written one after another from `at`, up to the first address outside the image. */
  function Overlay(m: Memory, at: int, bs: seq<Byte>): Memory
    decreases |bs|
  {
    if bs == [] || !(0 <= at < 65536) then m else Overlay(m[at := bs[0]], at + 1, bs[1..])
  }

  predicate Fits(at: int, n: nat) {
    n == 0 || (0 <= at && at + n <= 65536)
  }

  lemma {:induction false} OverlayHolds(m: Memory, at: int, bs: seq<Byte>, a: int)
    requires Fits(at, |bs|)
    ensures var r := Overlay(m, at, bs);
      if at <= a < at + |bs| then a in r && r[a] == bs[a - at]
      else (a in r <==> a in m) && (a in m ==> r[a] == m[a])
    decreases |bs|
  {
    if bs != [] {
      OverlayHolds(m[at := bs[0]], at + 1, bs[1..], a);
    }
  }

  // ----- the whole program -----

  function BytesAt(p: Program, modes: Modes, l: Layout, i: nat): Emission
    requires |modes| == |l.address| == |p.stmts| && i < |p.stmts|
  {
    StatementBytes(p.table, p.stmts[i], modes[i], l.symbols, l.address[i])
  }

  /** The image after the first i statements. */
  function ImageTo(p: Program, modes: Modes, l: Layout, i: nat): Memory
    requires |modes| == |l.address| == |p.stmts| && i <= |p.stmts|
  {
    if i == 0 then map[]
    else Overlay(ImageTo(p, modes, l, i - 1), l.address[i - 1], BytesAt(p, modes, l, i - 1).bytes)
  }

  predicate Succeeds(e: Emission, at: int) {
    e.ok && Fits(at, |e.bytes|)
  }

  /** Errors among the first i statements: at most one each. */
  function FailuresTo(p: Program, modes: Modes, l: Layout, i: nat): nat
    requires |modes| == |l.address| == |p.stmts| && i <= |p.stmts|
  {
    if i == 0 then 0
    else FailuresTo(p, modes, l, i - 1) + (if Succeeds(BytesAt(p, modes, l, i - 1), l.address[i - 1]) then 0 else 1)
  }

  lemma {:induction false} NoFailure(p: Program, modes: Modes, l: Layout, i: nat, n: nat)
    requires |modes| == |l.address| == |p.stmts| && i < n <= |p.stmts| && FailuresTo(p, modes, l, n) == 0
    ensures Succeeds(BytesAt(p, modes, l, i), l.address[i])
  {
    if i < n - 1 { NoFailure(p, modes, l, i, n - 1); }
  }

  /** The parts of the address space the segments use do not overlap. */
  ghost predicate SegmentsApart(p: Program, modes: Modes)
    requires WellFormed(p) && |modes| == |p.stmts|
  {
    forall g, h :: g in p.bases && h in p.bases && g != h ==>
      p.bases[g] + Offset(p, modes, g, |p.stmts|) <= p.bases[h] || p.bases[h] + Offset(p, modes, h, |p.stmts|) <= p.bases[g]
  }

  lemma StatementsApart(p: Program, modes: Modes, i: nat, j: nat, a: int)
    requires WellFormed(p) && |modes| == |p.stmts| && SegmentsApart(p, modes) && i < j < |p.stmts|
    ensures !(Covers(p, modes, i, a) && Covers(p, modes, j, a))
  {
    hide Reserved;
    LaterIsAbove(p, modes, p.stmts[i].segment, i, |p.stmts|);
    LaterIsAbove(p, modes, p.stmts[j].segment, j, |p.stmts|);
    if p.stmts[i].segment == p.stmts[j].segment {
      LaterIsAbove(p, modes, p.stmts[i].segment, i, j);
    }
  }

  ghost predicate Covered(p: Program, modes: Modes, n: nat, a: int)
    requires WellFormed(p) && |modes| == |p.stmts|
  {
    exists i: nat :: i < n && Covers(p, modes, i, a)
  }

  /** Where statement i was given its place, the image has exactly the bytes that the statement stands for. */
  ghost predicate Shows(p: Program, modes: Modes, written: Modes, l: Layout, m: Memory, i: nat, a: int)
    requires WellFormed(p) && |modes| == |written| == |l.address| == |p.stmts| && i < |p.stmts|
  {
    Covers(p, modes, i, a) ==>
      var at, bs := AddressOf(p, modes, i), BytesAt(p, written, l, i).bytes;
      && at <= a
      && (a in m <==> a < at + |bs|)
      && (a in m ==> m[a] == bs[a - at])
  }

  /** Of statements placed with some encodings and written with others: a byte is in the image only where a statement
      was placed, and there each statement shows. */
  ghost predicate Faithful(p: Program, modes: Modes, written: Modes, l: Layout, n: nat, a: int)
    requires WellFormed(p) && |modes| == |written| == |l.address| == |p.stmts| && n <= |p.stmts|
  {
    && (a in ImageTo(p, written, l, n) ==> Covered(p, modes, n, a))
    && forall i: nat :: i < n ==> Shows(p, modes, written, l, ImageTo(p, written, l, n), i, a)
  }

  /** When neither pass reports an error and the segments do not overlap, the image is faithful, even if statements
      shrank after they were placed. */
  lemma {:induction false} ImageIsFaithful(p: Program, modes: Modes, written: Modes, n: nat, a: int)
    requires Clean(p, modes) && Shrunk(p, modes, written)
    requires SegmentsApart(p, modes) && n <= |p.stmts|
    requires FailuresTo(p, written, LayoutOf(p, modes), n) == 0
    ensures Faithful(p, modes, written, LayoutOf(p, modes), n, a)
  {
    if n == 0 {
    } else {
      ImageIsFaithful(p, modes, written, n - 1, a);
      LastIsWritten(p, modes, written, n, a);
      LastIsApart(p, modes, n, a);
      hide LayoutOf, StatementBytes, Covers, SegmentsApart, Overlay, ImageTo;
      OneMore(p, modes, written, LayoutOf(p, modes), n, a);
    }
  }

  lemma LastIsApart(p: Program, modes: Modes, n: nat, a: int)
    requires WellFormed(p) && |modes| == |p.stmts| && SegmentsApart(p, modes) && 0 < n <= |p.stmts|
    ensures Covers(p, modes, n - 1, a) ==> !Covered(p, modes, n - 1, a)
  {
    hide Covers, SegmentsApart;
    if i: nat :| i < n - 1 && Covers(p, modes, i, a) {
      StatementsApart(p, modes, i, n - 1, a);
    }
  }

  /** The last statement's bytes are in, and nothing else changed. */
  ghost predicate Wrote(p: Program, modes: Modes, written: Modes, l: Layout, n: nat, a: int)
    requires WellFormed(p) && |modes| == |written| == |p.stmts| == |l.address| && 0 < n <= |p.stmts|
  {
    var before, after := ImageTo(p, written, l, n - 1), ImageTo(p, written, l, n);
    var at, bs := AddressOf(p, modes, n - 1), BytesAt(p, written, l, n - 1).bytes;
    && |bs| <= Reserved(p, modes, n - 1)
    && (if at <= a < at + |bs| then a in after && after[a] == bs[a - at]
        else (a in after <==> a in before) && (a in before ==> after[a] == before[a]))
  }

  lemma LastIsWritten(p: Program, modes: Modes, written: Modes, n: nat, a: int)
    requires Clean(p, modes) && Shrunk(p, modes, written) && 0 < n <= |p.stmts|
    requires var l := LayoutOf(p, modes); Succeeds(BytesAt(p, written, l, n - 1), l.address[n - 1])
    ensures Wrote(p, modes, written, LayoutOf(p, modes), n, a)
  {
    hide *;
    CleanPlaces(p, modes);
    ShrunkLength(p, modes, written);
    var l := LayoutOf(p, modes);
    StatementAddress(p, modes, n - 1);
    BytesOf(p, written, l, n - 1);
    WritesLessIfShrunk(p, modes, written, n - 1);
    LastOverlays(p, written, l, n, a);
    WroteIf(p, modes, written, l, n, a);
  }

  lemma BytesOf(p: Program, modes: Modes, l: Layout, i: nat)
    requires |modes| == |l.address| == |p.stmts| && i < |p.stmts| && Succeeds(BytesAt(p, modes, l, i), l.address[i])
    ensures BytesAt(p, modes, l, i) == StatementBytes(p.table, p.stmts[i], modes[i], l.symbols, l.address[i])
    ensures BytesAt(p, modes, l, i).ok
  {
    hide StatementBytes;
  }

  lemma LastOverlays(p: Program, written: Modes, l: Layout, n: nat, a: int)
    requires |written| == |l.address| == |p.stmts| && 0 < n <= |p.stmts|
    requires Succeeds(BytesAt(p, written, l, n - 1), l.address[n - 1])
    ensures var before, after := ImageTo(p, written, l, n - 1), ImageTo(p, written, l, n);
      var at, bs := l.address[n - 1], BytesAt(p, written, l, n - 1).bytes;
      if at <= a < at + |bs| then a in after && after[a] == bs[a - at]
      else (a in after <==> a in before) && (a in before ==> after[a] == before[a])
  {
    hide BytesAt, Overlay;
    OverlayHolds(ImageTo(p, written, l, n - 1), l.address[n - 1], BytesAt(p, written, l, n - 1).bytes, a);
  }

  lemma WroteIf(p: Program, modes: Modes, written: Modes, l: Layout, n: nat, a: int)
    requires WellFormed(p) && |modes| == |written| == |p.stmts| == |l.address| && 0 < n <= |p.stmts|
    requires l.address[n - 1] == AddressOf(p, modes, n - 1) && |BytesAt(p, written, l, n - 1).bytes| <= Reserved(p, modes, n - 1)
    requires var before, after := ImageTo(p, written, l, n - 1), ImageTo(p, written, l, n);
      var at, bs := l.address[n - 1], BytesAt(p, written, l, n - 1).bytes;
      if at <= a < at + |bs| then a in after && after[a] == bs[a - at]
      else (a in after <==> a in before) && (a in before ==> after[a] == before[a])
    ensures Wrote(p, modes, written, l, n, a)
  {
    hide BytesAt, AddressOf, ImageTo, Reserved;
  }

  lemma OneMore(p: Program, modes: Modes, written: Modes, l: Layout, n: nat, a: int)
    requires WellFormed(p) && |modes| == |written| == |p.stmts| == |l.address| && 0 < n <= |p.stmts|
    requires Faithful(p, modes, written, l, n - 1, a) && Wrote(p, modes, written, l, n, a)
    requires Covers(p, modes, n - 1, a) ==> !Covered(p, modes, n - 1, a)
    ensures Faithful(p, modes, written, l, n, a)
  {
    hide BytesAt, AddressOf, ImageTo, Reserved, Shows, Wrote, Covers;
    WroteThere(p, modes, written, l, n, a);
    forall i: nat | i < n
      ensures Shows(p, modes, written, l, ImageTo(p, written, l, n), i, a)
    {
      if i < n - 1 {
        assert Shows(p, modes, written, l, ImageTo(p, written, l, n - 1), i, a);
        StillShows(p, modes, written, l, n, i, a);
      } else {
        LastShows(p, modes, written, l, n, a);
      }
    }
  }

  lemma WroteThere(p: Program, modes: Modes, written: Modes, l: Layout, n: nat, a: int)
    requires WellFormed(p) && |modes| == |written| == |p.stmts| == |l.address| && 0 < n <= |p.stmts|
    requires Wrote(p, modes, written, l, n, a)
    ensures a in ImageTo(p, written, l, n) ==> a in ImageTo(p, written, l, n - 1) || Covers(p, modes, n - 1, a)
  {
    hide BytesAt, AddressOf, ImageTo, Reserved;
  }

  lemma StillShows(p: Program, modes: Modes, written: Modes, l: Layout, n: nat, i: nat, a: int)
    requires WellFormed(p) && |modes| == |written| == |p.stmts| == |l.address| && i < n - 1 < |p.stmts|
    requires Wrote(p, modes, written, l, n, a) && Shows(p, modes, written, l, ImageTo(p, written, l, n - 1), i, a)
    requires !(Covers(p, modes, i, a) && Covers(p, modes, n - 1, a))
    ensures Shows(p, modes, written, l, ImageTo(p, written, l, n), i, a)
  {
    hide BytesAt, AddressOf, ImageTo, Reserved;
  }

  lemma LastShows(p: Program, modes: Modes, written: Modes, l: Layout, n: nat, a: int)
    requires WellFormed(p) && |modes| == |written| == |p.stmts| == |l.address| && 0 < n <= |p.stmts|
    requires Wrote(p, modes, written, l, n, a) && (Covers(p, modes, n - 1, a) ==> a !in ImageTo(p, written, l, n - 1))
    ensures Shows(p, modes, written, l, ImageTo(p, written, l, n), n - 1, a)
  {
    hide BytesAt, AddressOf, ImageTo, Reserved;
  }
}
