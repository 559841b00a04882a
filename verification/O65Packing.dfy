/** Packing named segments into the object file's output segments, and the growing byte buffers they are
    written to. */
module O65Packing {
  import opened Basics

  const TEXT := 2
  const DATA := 3
  const BSS := 4
  const ZP := 5

  /** A segment of the source and the bytes it uses (negative sizes count as none). */
  datatype Source = Source(name: string, used: int)

  /** What the writer adds up is cut to 32 bits, what it records to 16. */
  const WORD32 := 0x1_0000_0000
  const WORD16 := 0x1_0000

  function Size(s: Source): nat { if s.used < 0 then 0 else s.used }

  /** No size comes so close to 4 GiB that adding it to a length wraps. */
  ghost predicate Moderate(sources: seq<Source>) {
    forall s :: s in sources ==> Size(s) < WORD32 - 0xFFFF
  }

  datatype Placed = Placed(name: string, segid: nat, imageSegid: nat, packedBase: nat, imageBase: nat, size: nat)

  /** What a name and its contents decide: the output segment, and whether a zero-page segment has bytes to load. */
  datatype Rules = Rules(segment: string -> nat, loads: string -> bool)

  /** Whether a placed segment takes up space in output segment g: zero-page segments with a load image also
      take up space in DATA. */
  predicate Occupies(l: Placed, g: nat) {
    l.segid == g || (g == DATA && l.segid == ZP && l.imageSegid == DATA)
  }

  function BaseIn(l: Placed, g: nat): nat {
    if l.segid == g then l.packedBase else l.imageBase
  }

  /** Bytes of g taken up by the first i segments placed. */
  function Total(ls: seq<Placed>, g: nat, i: nat): nat
    requires i <= |ls|
  {
    if i == 0 then 0 else Total(ls, g, i - 1) + (if Occupies(ls[i - 1], g) then ls[i - 1].size else 0)
  }

  ghost predicate InPlace(ls: seq<Placed>, g: nat) {
    forall i :: 0 <= i < |ls| && Occupies(ls[i], g) ==> BaseIn(ls[i], g) == Total(ls, g, i)
  }

  ghost predicate DistinctNames(ls: seq<Placed>) {
    forall i, j :: 0 <= i < j < |ls| ==> ls[i].name != ls[j].name
  }

  /** Names are registered once; in each output segment the ranges follow one another from 0 to its length; and
      nothing exceeds 16 bits. */
  ghost predicate Packed(ls: seq<Placed>, lengths: seq<nat>) {
    && |lengths| == 6 && DistinctNames(ls)
    && (forall g :: TEXT <= g <= ZP ==> InPlace(ls, g) && lengths[g] == Total(ls, g, |ls|) <= 0xFFFF)
  }

  /** Names are registered once, and the lengths are the totals as far as 16 bits go. */
  ghost predicate Counted(ls: seq<Placed>, lengths: seq<nat>) {
    && |lengths| == 6 && DistinctNames(ls)
    && (forall g :: TEXT <= g <= ZP ==> lengths[g] == Total(ls, g, |ls|) % WORD16)
  }

  /** A placed segment stands for a source segment: its size, its output segment, and where its bytes are loaded. */
  ghost predicate Describes(l: Placed, rules: Rules, sources: seq<Source>) {
    && (exists s :: s in sources && s.name == l.name && l.size == Size(s) % WORD16 && (Moderate(sources) ==> l.size == Size(s)))
    && l.segid == rules.segment(l.name)
    && l.imageSegid == (if l.segid == ZP && rules.loads(l.name) then DATA else l.segid)
  }

  lemma {:induction false} TotalGrows(ls: seq<Placed>, g: nat, i: nat, j: nat)
    requires i <= j <= |ls|
    ensures Total(ls, g, i) <= Total(ls, g, j)
  {
    if i < j { TotalGrows(ls, g, i, j - 1); }
  }

  ghost predicate Holds(l: Placed, g: nat, a: nat) {
    Occupies(l, g) && BaseIn(l, g) <= a < BaseIn(l, g) + l.size
  }

  /** Each byte of an output segment belongs to exactly one placed segment. */
  lemma {:induction false} PackedTiles(ls: seq<Placed>, lengths: seq<nat>, g: nat, n: nat, a: nat) returns (i: nat)
    requires Packed(ls, lengths) && TEXT <= g <= ZP && n <= |ls| && a < Total(ls, g, n)
    ensures i < n && Holds(ls[i], g, a)
    ensures forall j :: 0 <= j < |ls| && Holds(ls[j], g, a) ==> j == i
  {
    assert InPlace(ls, g);
    if a < Total(ls, g, n - 1) {
      i := PackedTiles(ls, lengths, g, n - 1, a);
    } else {
      i := n - 1;
      forall j | 0 <= j < |ls| && Holds(ls[j], g, a)
        ensures j == i
      {
        if j < i { TotalGrows(ls, g, j + 1, i); }
        if j > i { TotalGrows(ls, g, i + 1, j); }
      }
    }
  }

  /** No range reaches beyond its output segment, so every base and size fits 16 bits. */
  lemma RangesFit(ls: seq<Placed>, lengths: seq<nat>, g: nat, i: nat)
    requires Packed(ls, lengths) && TEXT <= g <= ZP && i < |ls| && Occupies(ls[i], g)
    ensures BaseIn(ls[i], g) + ls[i].size <= lengths[g] <= 0xFFFF
  {
    assert InPlace(ls, g);
    TotalGrows(ls, g, i + 1, |ls|);
  }

  lemma {:induction false} TotalKept(ls: seq<Placed>, l: Placed, g: nat, i: nat)
    requires i <= |ls|
    ensures Total(ls + [l], g, i) == Total(ls, g, i)
  {
    if i > 0 {
      TotalKept(ls, l, g, i - 1);
      assert (ls + [l])[i - 1] == ls[i - 1];
    }
  }

  /** Placing one more segment after the others. */
  lemma PackedMore(ls: seq<Placed>, lengths: seq<nat>, l: Placed, lengths': seq<nat>)
    requires Packed(ls, lengths) && |lengths'| == 6 && forall i :: 0 <= i < |ls| ==> ls[i].name != l.name
    requires forall g :: TEXT <= g <= ZP ==>
      && lengths'[g] == lengths[g] + (if Occupies(l, g) then l.size else 0) <= 0xFFFF
      && (Occupies(l, g) ==> BaseIn(l, g) == lengths[g])
    ensures Packed(ls + [l], lengths')
  {
    var more := ls + [l];
    forall g | TEXT <= g <= ZP
      ensures InPlace(more, g) && lengths'[g] == Total(more, g, |more|)
    {
      assert InPlace(ls, g);
      TotalKept(ls, l, g, |ls|);
      forall i | 0 <= i < |more| && Occupies(more[i], g)
        ensures BaseIn(more[i], g) == Total(more, g, i)
      {
        TotalKept(ls, l, g, i);
      }
    }
  }

  lemma CountedMore(ls: seq<Placed>, lengths: seq<nat>, l: Placed, lengths': seq<nat>)
    requires Counted(ls, lengths) && |lengths'| == 6 && forall i :: 0 <= i < |ls| ==> ls[i].name != l.name
    requires forall g :: TEXT <= g <= ZP ==> lengths'[g] == (lengths[g] + (if Occupies(l, g) then l.size else 0)) % WORD16
    ensures Counted(ls + [l], lengths')
  {
    var more := ls + [l];
    hide Total, Occupies;
    forall g | TEXT <= g <= ZP
      ensures lengths'[g] == Total(more, g, |more|) % WORD16
    {
      TotalMore(ls, l, g);
      SumCut(if Occupies(l, g) then l.size else 0, Total(ls, g, |ls|));
    }
  }

  lemma TotalMore(ls: seq<Placed>, l: Placed, g: nat)
    ensures Total(ls + [l], g, |ls + [l]|) == Total(ls, g, |ls|) + (if Occupies(l, g) then l.size else 0)
  {
    TotalKept(ls, l, g, |ls|);
  }

  /** The check on the sum as it is cut to 32 bits: what passes it fits exactly when the sum itself did not wrap, and
      the sum as recorded is right modulo 2^16 in any case. */
  lemma PassesIffFits(length: nat, size: nat)
    requires length <= 0xFFFF && (length + size % WORD32) % WORD32 <= 0xFFFF
    ensures length + size <= 0xFFFF <==> length + size < WORD32
    ensures (length + size % WORD32) % WORD32 == (length + size % WORD16) % WORD16
  {
    var sum := length + size % WORD32;
    assert sum % WORD32 == sum % WORD16 by { Cut(sum); }
    Cut(size);
    SumCut(length, size % WORD32);
    SumCut(length, size);
  }

  /** Cutting to 32 bits first does not matter when 16 bits are kept. */
  lemma Cut(v: nat)
    ensures v % WORD32 % WORD16 == v % WORD16
  {
    assert v == WORD32 * (v / WORD32) + v % WORD32 && WORD32 == WORD16 * WORD16;
  }

  lemma SumCut(a: nat, b: nat)
    ensures (a + b) % WORD16 == (a + b % WORD16) % WORD16
  {
    assert b == WORD16 * (b / WORD16) + b % WORD16;
  }

  // ----- what is placed where -----

  predicate IsPlaced(ls: seq<Placed>, name: string) {
    exists i :: 0 <= i < |ls| && ls[i].name == name
  }

  /** The first source segment of that name. */
  function SourceOf(sources: seq<Source>, name: string, i: nat): Option<Source>
    requires i <= |sources|
    decreases |sources| - i
  {
    if i == |sources| then None
    else if sources[i].name == name then Some(sources[i])
    else SourceOf(sources, name, i + 1)
  }

  /** A segment put after those already placed. */
  function NextPlaced(ls: seq<Placed>, rules: Rules, s: Source): Placed {
    var segid := rules.segment(s.name);
    var image := if segid == ZP && rules.loads(s.name) then DATA else segid;
    Placed(s.name, segid, image, Length(ls, segid),
           if image == DATA && segid == ZP then Length(ls, DATA) else Length(ls, segid),
           Size(s) % WORD16)
  }

  function Length(ls: seq<Placed>, g: nat): nat {
    Total(ls, g, |ls|) % WORD16
  }

  lemma CountedLengths(ls: seq<Placed>, lengths: seq<nat>)
    requires Counted(ls, lengths)
    ensures |lengths| == 6 && forall g :: TEXT <= g <= ZP ==> lengths[g] == Length(ls, g)
  {
    hide Total;
  }

  /** By 32-bit sums, nothing it occupies would grow past 64 KiB. */
  predicate HasSpace(ls: seq<Placed>, l: Placed, size: nat) {
    && (Length(ls, l.segid) + size % WORD32) % WORD32 <= 0xFFFF
    && (l.segid == ZP && l.imageSegid == DATA ==> (Length(ls, DATA) + size % WORD32) % WORD32 <= 0xFFFF)
  }

  /** The segments placed after one more name; None is an overflow. */
  function Register(ls: seq<Placed>, rules: Rules, sources: seq<Source>, name: string): Option<seq<Placed>> {
    var s := SourceOf(sources, name, 0);
    if IsPlaced(ls, name) || s.None? then Some(ls)
    else
      var l := NextPlaced(ls, rules, s.value);
      if HasSpace(ls, l, Size(s.value)) then Some(ls + [l]) else None
  }

  /** A segment about to be placed: l stands for s, has space, and `now` is `was` with it added. */
  ghost predicate Fitting(ls: seq<Placed>, rules: Rules, was: seq<nat>, l: Placed, now: seq<nat>, s: Source) {
    && |was| == |now| == 6 && TEXT <= l.segid <= ZP
    && !IsPlaced(ls, l.name) && l.name == s.name && l == NextPlaced(ls, rules, s) && HasSpace(ls, l, Size(s))
    && forall g :: TEXT <= g <= ZP ==> now[g] == if Occupies(l, g) then (was[g] + Size(s) % WORD32) % WORD32 else was[g]
  }

  lemma FittingIf(ls: seq<Placed>, rules: Rules, was: seq<nat>, l: Placed, now: seq<nat>, s: Source)
    requires |was| == 6 && TEXT <= l.segid <= ZP && !IsPlaced(ls, l.name) && l.name == s.name
    requires l == NextPlaced(ls, rules, s) && HasSpace(ls, l, Size(s))
    requires var one := was[l.segid := (was[l.segid] + Size(s) % WORD32) % WORD32];
      now == if l.segid == ZP && l.imageSegid == DATA then one[DATA := (was[DATA] + Size(s) % WORD32) % WORD32] else one
    ensures Fitting(ls, rules, was, l, now, s)
  {
    hide NextPlaced, HasSpace, IsPlaced, Size;
  }

  lemma OneLength(ls: seq<Placed>, rules: Rules, sources: seq<Source>, was: seq<nat>, l: Placed, now: seq<nat>, s: Source, g: nat)
    requires Counted(ls, was) && Fitting(ls, rules, was, l, now, s) && s in sources && TEXT <= g <= ZP
    ensures now[g] == (was[g] + (if Occupies(l, g) then l.size else 0)) % WORD16
    ensures Occupies(l, g) ==> BaseIn(l, g) == was[g]
    ensures Moderate(sources) && Occupies(l, g) ==> Size(s) == l.size && now[g] == was[g] + l.size <= 0xFFFF
    ensures !Occupies(l, g) ==> now[g] == was[g] <= 0xFFFF
  {
    hide Total, IsPlaced, DistinctNames;
    if Occupies(l, g) { PassesIffFits(was[g], Size(s)); }
  }

  lemma PlacingIs(ls: seq<Placed>, rules: Rules, was: seq<nat>, l: Placed, now: seq<nat>, s: Source)
    requires Fitting(ls, rules, was, l, now, s)
    ensures |was| == |now| == 6 && TEXT <= l.segid <= ZP && Occupies(l, l.segid) && l.name == s.name
    ensures forall i :: 0 <= i < |ls| ==> ls[i].name != l.name
    ensures l.segid == rules.segment(l.name) && l.size == Size(s) % WORD16
    ensures l.imageSegid == (if l.segid == ZP && rules.loads(l.name) then DATA else l.segid)
  {
    hide Total;
  }

  /** Placing a segment keeps what holds of those placed and of the lengths. */
  lemma Placing(ls: seq<Placed>, rules: Rules, sources: seq<Source>, was: seq<nat>, l: Placed, now: seq<nat>, s: Source)
    requires Counted(ls, was) && (Moderate(sources) ==> Packed(ls, was)) && s in sources
    requires Fitting(ls, rules, was, l, now, s)
    ensures Counted(ls + [l], now) && (Moderate(sources) ==> Packed(ls + [l], now))
    ensures Describes(l, rules, sources)
  {
    PlacingIs(ls, rules, was, l, now, s);
    hide Fitting, Counted, Packed, Occupies, BaseIn, Moderate;
    forall g | TEXT <= g <= ZP
      ensures now[g] == (was[g] + (if Occupies(l, g) then l.size else 0)) % WORD16
      ensures Occupies(l, g) ==> BaseIn(l, g) == was[g]
      ensures Moderate(sources) && Occupies(l, g) ==> Size(s) == l.size && now[g] == was[g] + l.size <= 0xFFFF
      ensures !Occupies(l, g) ==> now[g] == was[g] <= 0xFFFF
    {
      OneLength(ls, rules, sources, was, l, now, s, g);
    }
    CountedMore(ls, was, l, now);
    if Moderate(sources) {
      assert Occupies(l, l.segid) && Size(s) == l.size;
      PackedMore(ls, was, l, now);
    }
  }

  /** After the first i names in use. */
  function RegisterUses(rules: Rules, sources: seq<Source>, uses: seq<string>, i: nat): Option<seq<Placed>>
    requires i <= |uses|
  {
    if i == 0 then Some([])
    else
      var before := RegisterUses(rules, sources, uses, i - 1);
      if before.None? then None else Register(before.value, rules, sources, uses[i - 1])
  }

  /** And after the first i source segments that have bytes. */
  function RegisterRest(ls: Option<seq<Placed>>, rules: Rules, sources: seq<Source>, i: nat): Option<seq<Placed>>
    requires i <= |sources|
  {
    if i == 0 then ls
    else
      var before := RegisterRest(ls, rules, sources, i - 1);
      if before.None? then None
      else if sources[i - 1].used <= 0 then before
      else Register(before.value, rules, sources, sources[i - 1].name)
  }

  /** The finished layout. */
  function Layouts(rules: Rules, sources: seq<Source>, uses: seq<string>): Option<seq<Placed>> {
    RegisterRest(RegisterUses(rules, sources, uses, |uses|), rules, sources, |sources|)
  }

  lemma {:induction false} OverflowStays(rules: Rules, sources: seq<Source>, uses: seq<string>, i: nat, n: nat)
    requires i <= n <= |uses| && RegisterUses(rules, sources, uses, i).None?
    ensures RegisterUses(rules, sources, uses, n).None?
  {
    if i < n { OverflowStays(rules, sources, uses, i, n - 1); }
  }

  lemma {:induction false} RestOverflowStays(ls: Option<seq<Placed>>, rules: Rules, sources: seq<Source>, i: nat,
                                             n: nat)
    requires i <= n <= |sources| && RegisterRest(ls, rules, sources, i).None?
    ensures RegisterRest(ls, rules, sources, n).None?
  {
    if i < n { RestOverflowStays(ls, rules, sources, i, n - 1); }
  }

  /** Every segment that is used, or has bytes, is placed in the end, unless it is no segment of the source. */
  lemma {:induction false} RegisterPlaces(ls: seq<Placed>, rules: Rules, sources: seq<Source>, name: string, x: string)
    requires Register(ls, rules, sources, name).Some?
    ensures var after := Register(ls, rules, sources, name).value;
      && (IsPlaced(ls, x) ==> IsPlaced(after, x))
      && (IsPlaced(after, name) || SourceOf(sources, name, 0).None?)
  {
    var after := Register(ls, rules, sources, name).value;
    if after != ls {
      assert after[|ls|].name == name by { SourceNamed(sources, name, 0); }
      if i :| 0 <= i < |ls| && ls[i].name == x { assert after[i].name == x; }
    }
  }

  lemma {:induction false} SourceNamed(sources: seq<Source>, name: string, i: nat)
    requires i <= |sources|
    ensures var s := SourceOf(sources, name, i); s.Some? ==> s.value in sources && s.value.name == name
    ensures SourceOf(sources, name, i).None? ==> forall k :: i <= k < |sources| ==> sources[k].name != name
    decreases |sources| - i
  {
    if i < |sources| { SourceNamed(sources, name, i + 1); }
  }

  lemma {:induction false} UsesPlaced(rules: Rules, sources: seq<Source>, uses: seq<string>, k: nat, i: nat)
    requires k < i <= |uses| && RegisterUses(rules, sources, uses, i).Some?
    ensures IsPlaced(RegisterUses(rules, sources, uses, i).value, uses[k]) || SourceOf(sources, uses[k], 0).None?
  {
    RegisterPlaces(RegisterUses(rules, sources, uses, i - 1).value, rules, sources, uses[i - 1], uses[k]);
    if k < i - 1 { UsesPlaced(rules, sources, uses, k, i - 1); }
  }

  lemma {:induction false} RestPlaced(ls: Option<seq<Placed>>, rules: Rules, sources: seq<Source>, x: string, i: nat)
    requires i <= |sources| && RegisterRest(ls, rules, sources, i).Some?
    ensures ls.Some? && (IsPlaced(ls.value, x) ==> IsPlaced(RegisterRest(ls, rules, sources, i).value, x))
    ensures (exists k :: 0 <= k < i && sources[k].used > 0 && sources[k].name == x) ==>
      IsPlaced(RegisterRest(ls, rules, sources, i).value, x)
  {
    if i > 0 {
      RestPlaced(ls, rules, sources, x, i - 1);
      var s := sources[i - 1];
      if s.used > 0 {
        RegisterPlaces(RegisterRest(ls, rules, sources, i - 1).value, rules, sources, s.name, x);
        SourceNamed(sources, s.name, 0);
      }
    }
  }

  /** What a finished layout holds: every segment in use, and every segment with bytes. */
  lemma {:induction false} LayoutsHoldAll(rules: Rules, sources: seq<Source>, uses: seq<string>, x: string)
    requires Layouts(rules, sources, uses).Some?
    requires (x in uses && exists k :: 0 <= k < |sources| && sources[k].name == x)
      || exists k :: 0 <= k < |sources| && sources[k].used > 0 && sources[k].name == x
    ensures IsPlaced(Layouts(rules, sources, uses).value, x)
  {
    RestPlaced(RegisterUses(rules, sources, uses, |uses|), rules, sources, x, |sources|);
    if x in uses && exists k :: 0 <= k < |sources| && sources[k].name == x {
      var k :| 0 <= k < |uses| && uses[k] == x;
      UsesPlaced(rules, sources, uses, k, |uses|);
      SourceNamed(sources, x, 0);
    }
  }

  ghost predicate At(ls: seq<Placed>, i: nat, name: string) {
    i < |ls| && ls[i].name == name
  }

  lemma RegisterKeeps(ls: seq<Placed>, rules: Rules, sources: seq<Source>, name: string, i: nat, x: string)
    requires Register(ls, rules, sources, name).Some?
    ensures var after := Register(ls, rules, sources, name).value;
      && |ls| <= |after| && (At(ls, i, x) ==> At(after, i, x))
      && (At(after, i, x) ==> At(ls, i, x) || (i == |ls| && x == name))
  {
    SourceNamed(sources, name, 0);
    hide HasSpace;
  }

  lemma {:induction false} UsesKeep(rules: Rules, sources: seq<Source>, uses: seq<string>, k: nat, n: nat, i: nat, x: string)
    requires k <= n <= |uses| && RegisterUses(rules, sources, uses, n).Some?
    ensures RegisterUses(rules, sources, uses, k).Some?
    ensures var before, after := RegisterUses(rules, sources, uses, k).value, RegisterUses(rules, sources, uses, n).value;
      && |before| <= |after| && (At(before, i, x) ==> At(after, i, x))
      && (At(after, i, x) ==> At(before, i, x) || (i >= |before| && exists m :: k <= m < n && uses[m] == x))
  {
    hide Register;
    if k < n {
      UsesKeep(rules, sources, uses, k, n - 1, i, x);
      RegisterKeeps(RegisterUses(rules, sources, uses, n - 1).value, rules, sources, uses[n - 1], i, x);
    }
  }

  lemma {:induction false} RestKeeps(ls: seq<Placed>, rules: Rules, sources: seq<Source>, n: nat, i: nat, x: string)
    requires n <= |sources| && RegisterRest(Some(ls), rules, sources, n).Some?
    ensures var after := RegisterRest(Some(ls), rules, sources, n).value;
      && |ls| <= |after| && (At(ls, i, x) ==> At(after, i, x)) && (At(after, i, x) ==> At(ls, i, x) || i >= |ls|)
  {
    hide Register;
    if n > 0 {
      RestKeeps(ls, rules, sources, n - 1, i, x);
      if sources[n - 1].used > 0 {
        RegisterKeeps(RegisterRest(Some(ls), rules, sources, n - 1).value, rules, sources, sources[n - 1].name, i, x);
      }
    }
  }

  lemma UsedByThen(rules: Rules, sources: seq<Source>, uses: seq<string>, k: nat) returns (i: nat)
    requires k < |uses| && RegisterUses(rules, sources, uses, k + 1).Some? && SourceOf(sources, uses[k], 0).Some?
    ensures At(RegisterUses(rules, sources, uses, k + 1).value, i, uses[k])
  {
    var ls := RegisterUses(rules, sources, uses, k + 1).value;
    UsesPlaced(rules, sources, uses, k, k + 1);
    i :| 0 <= i < |ls| && ls[i].name == uses[k];
  }

  /** Segments are placed in the order of their first use, those that merely have bytes after them: whatever is not used up
      to the k-th use stands after the segment used there. */
  lemma UsedInOrder(rules: Rules, sources: seq<Source>, uses: seq<string>, k: nat, j: nat) returns (i: nat)
    requires Layouts(rules, sources, uses).Some? && k < |uses| && SourceOf(sources, uses[k], 0).Some?
    requires j < |Layouts(rules, sources, uses).value| && Layouts(rules, sources, uses).value[j].name !in uses[..k + 1]
    ensures i < j && Layouts(rules, sources, uses).value[i].name == uses[k]
  {
    var ls := Layouts(rules, sources, uses).value;
    var x, n := ls[j].name, |uses|;
    LayoutsFrom(rules, sources, uses);
    hide RegisterUses, RegisterRest, Register, SourceOf, Layouts;
    var used := RegisterUses(rules, sources, uses, n).value;
    RestKeeps(used, rules, sources, |sources|, j, x);
    UsesKeep(rules, sources, uses, k + 1, n, j, x);
    i := UsedByThen(rules, sources, uses, k);
    UsesKeep(rules, sources, uses, k + 1, n, i, uses[k]);
    RestKeeps(used, rules, sources, |sources|, i, uses[k]);
    NotUsedYet(rules, sources, uses, k + 1, j, x);
  }

  lemma NotUsedYet(rules: Rules, sources: seq<Source>, uses: seq<string>, k: nat, j: nat, x: string)
    requires k <= |uses| && RegisterUses(rules, sources, uses, k).Some? && x !in uses[..k]
    ensures !At(RegisterUses(rules, sources, uses, k).value, j, x)
  {
    UsesKeep(rules, sources, uses, 0, k, j, x);
    assert forall m :: 0 <= m < k ==> uses[m] == uses[..k][m];
    assert RegisterUses(rules, sources, uses, 0) == Some([]);
    hide RegisterUses;
  }

  lemma LayoutsFrom(rules: Rules, sources: seq<Source>, uses: seq<string>)
    requires Layouts(rules, sources, uses).Some?
    ensures RegisterUses(rules, sources, uses, |uses|).Some?
    ensures RegisterRest(RegisterUses(rules, sources, uses, |uses|), rules, sources, |sources|) == Layouts(rules, sources, uses)
  {
    RestPlaced(RegisterUses(rules, sources, uses, |uses|), rules, sources, "", |sources|);
    hide RegisterUses, RegisterRest;
  }

  class Packer {
    const rules: Rules
    const sources: seq<Source>
    var layouts: seq<Placed>
    const lengths: array<nat>

    ghost predicate Valid()
      reads this, lengths
    {
      && lengths.Length == 6 && Counted(layouts, lengths[..])
      && (Moderate(sources) ==> Packed(layouts, lengths[..]))
      && (forall i :: 0 <= i < |layouts| ==> Describes(layouts[i], rules, sources))
      && forall x :: TEXT <= rules.segment(x) <= ZP
    }

    constructor (r: Rules, s: seq<Source>)
      requires forall x :: TEXT <= r.segment(x) <= ZP
      ensures Valid() && layouts == [] && rules == r && sources == s && fresh(lengths)
    {
      rules, sources, layouts := r, s, [];
      lengths := new nat[6](_ => 0);
      new;
      assert lengths[..] == [0, 0, 0, 0, 0, 0];
    }

    method FindLayout(name: string) returns (found: bool)
      ensures found <==> IsPlaced(layouts, name)
    {
      var i := 0;
      while i < |layouts|
        invariant 0 <= i <= |layouts| && forall k :: 0 <= k < i ==> layouts[k].name != name
      {
        if layouts[i].name == name {
          return true;
        }
        i := i + 1;
      }
      return false;
    }

    method FindSource(name: string) returns (s: Option<Source>)
      ensures s == SourceOf(sources, name, 0)
    {
      var i := 0;
      while i < |sources|
        invariant 0 <= i <= |sources| && SourceOf(sources, name, 0) == SourceOf(sources, name, i)
      {
        if sources[i].name == name {
          return Some(sources[i]);
        }
        i := i + 1;
      }
      return None;
    }

    /** The fields hold the segments placed, or what was there before an overflow. */
    ghost predicate Registered(ok: bool, was: seq<Placed>, now: Option<seq<Placed>>)
      reads this
    {
      if ok then now == Some(layouts) else now.None? && layouts == was
    }

    /** Places a segment after those already in its output segment; fails, changing nothing, if that would
        exceed 64 KiB there or in the data image, by 32-bit sums. */
    method RegisterLayout(name: string) returns (ok: bool)
      requires Valid()
      modifies this, lengths
      ensures Valid() && Registered(ok, old(layouts), Register(old(layouts), rules, sources, name))
      ensures !ok ==> lengths[..] == old(lengths[..])
    {
      var known := FindLayout(name);
      if known {
        return true;
      }
      var source := FindSource(name);
      if source.None? {
        return true;
      }
      SourceNamed(sources, name, 0);
      CountedLengths(layouts, lengths[..]);
      hide Total, Length, Packed, Counted, Describes, Moderate, SourceOf;
      var size := Size(source.value);
      var segid := rules.segment(name);
      var loads := if segid == TEXT || segid == DATA then true else segid == ZP && rules.loads(name);
      var total := (lengths[segid] + size % WORD32) % WORD32;
      if total > 0xFFFF {
        return false;
      }
      var imageTotal := (lengths[DATA] + (if loads && segid == ZP then size % WORD32 else 0)) % WORD32;
      if imageTotal > 0xFFFF {
        return false;
      }
      var imageSegid := if segid == TEXT then TEXT else if segid == DATA || (segid == ZP && loads) then DATA else segid;
      var packedBase := lengths[segid];
      var imageBase := if imageSegid == DATA && segid == ZP then lengths[DATA] else packedBase;
      var l := Placed(name, segid, imageSegid, packedBase, imageBase, size % WORD16);
      assert l == NextPlaced(layouts, rules, source.value) && HasSpace(layouts, l, size);
      ghost var was := lengths[..];
      hide NextPlaced, HasSpace, IsPlaced, Fitting;
      lengths[segid] := total;
      if segid == ZP && loads {
        lengths[DATA] := imageTotal;
      }
      FittingIf(layouts, rules, was, l, lengths[..], source.value);
      Placing(layouts, rules, sources, was, l, lengths[..], source.value);
      layouts := layouts + [l];
      return true;
    }

    /** First the segments in order of use, then any other that has bytes. */
    method BuildLayouts(uses: seq<string>) returns (ok: bool)
      requires Valid() && layouts == []
      modifies this, lengths
      ensures Valid() && ok == Layouts(rules, sources, uses).Some?
      ensures ok ==> Layouts(rules, sources, uses) == Some(layouts)
    {
      hide Valid, Register;
      var i := 0;
      while i < |uses|
        invariant 0 <= i <= |uses| && Valid() && RegisterUses(rules, sources, uses, i) == Some(layouts)
      {
        ok := RegisterLayout(uses[i]);
        if !ok {
          OverflowStays(rules, sources, uses, i + 1, |uses|);
          RestOverflowStays(None, rules, sources, 0, |sources|);
          return;
        }
        i := i + 1;
      }
      ghost var mid := RegisterUses(rules, sources, uses, |uses|);
      i := 0;
      while i < |sources|
        invariant 0 <= i <= |sources| && Valid() && RegisterRest(mid, rules, sources, i) == Some(layouts)
      {
        if sources[i].used > 0 {
          ok := RegisterLayout(sources[i].name);
          if !ok {
            RestOverflowStays(mid, rules, sources, i + 1, |sources|);
            return;
          }
        }
        i := i + 1;
      }
      ok := true;
    }
  }

  // ----- buffers -----

  /** The buffer after a byte at `offset`: longer if need be, the gap filled with zeros. */
  function Stored(bs: seq<Byte>, offset: nat, v: Byte): (r: seq<Byte>)
    ensures |r| == if offset < |bs| then |bs| else offset + 1
    ensures r[offset] == v && forall k :: 0 <= k < |r| && k != offset ==> r[k] == if k < |bs| then bs[k] else 0
  {
    var longer := if offset < |bs| then bs else bs + seq(offset + 1 - |bs|, _ => 0);
    longer[offset := v]
  }

  class Buffer {
    var data: array<Byte>
    var len: nat

    /** Unused capacity is zero. */
    ghost predicate Valid()
      reads this, data
    {
      len <= data.Length && forall k :: len <= k < data.Length ==> data[k] == 0
    }

    ghost function Contents(): seq<Byte>
      reads this, data
      requires Valid()
    {
      data[..len]
    }

    constructor ()
      ensures Valid() && Contents() == [] && fresh(data)
    {
      data := new Byte[0];
      len := 0;
    }

    /** Doubles the capacity, from 64, until it is enough; new bytes are zero. */
    method EnsureCapacity(need: nat)
      requires Valid()
      modifies this
      ensures Valid() && need <= data.Length && Contents() == old(Contents()) && (data == old(data) || fresh(data))
    {
      if need <= data.Length {
        return;
      }
      var cap := if data.Length > 0 then data.Length else 64;
      while cap < need
        invariant cap > 0 && cap >= data.Length
        decreases need - cap
      {
        cap := cap * 2;
      }
      var was := data;
      var grown := new Byte[cap](_ => 0);
      var i := 0;
      while i < was.Length
        invariant 0 <= i <= was.Length <= grown.Length && data == was && len == old(len) && Valid()
        invariant forall k :: 0 <= k < i ==> grown[k] == was[k]
        invariant forall k :: i <= k < grown.Length ==> grown[k] == 0
        modifies grown
      {
        grown[i] := was[i];
        i := i + 1;
      }
      data := grown;
    }

    /** Offsets beyond 16 bits are refused. */
    method WriteByte(offset: int, v: Byte) returns (ok: bool)
      requires Valid()
      modifies this, data
      ensures Valid() && ok == (0 <= offset <= 0xFFFF) && (data == old(data) || fresh(data))
      ensures Contents() == if ok then Stored(old(Contents()), offset, v) else old(Contents())
    {
      if offset < 0 || offset > 0xFFFF {
        return false;
      }
      var need := offset + 1;
      EnsureCapacity(need);
      data[offset] := v;
      if need > len {
        len := need;
      }
      ok := true;
    }

    /** Low byte first; the high byte is not written if the low one is refused. */
    method WriteWord(offset: int, v: int) returns (ok: bool)
      requires Valid()
      modifies this, data
      ensures Valid() && ok == (0 <= offset < 0xFFFF) && (data == old(data) || fresh(data))
      ensures ok ==> Contents() == Stored(Stored(old(Contents()), offset, v % 256), offset + 1, v / 256 % 256)
      ensures !ok ==> Contents() == if offset == 0xFFFF then Stored(old(Contents()), offset, v % 256) else old(Contents())
    {
      ok := WriteByte(offset, v % 256);
      if ok {
        ok := WriteByte(offset + 1, v / 256 % 256);
      }
    }
  }
}
