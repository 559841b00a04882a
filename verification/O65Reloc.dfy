/** Which expressions an object file can carry, and the relocations that keep them right when segments move. */
module O65Reloc {
  import opened Basics
  import opened TwosComplement
  import opened AsmExpr
  import opened AsmLayout
  import opened AsmStable
  import opened O65Packing
  import opened O65Lookup

  const SEG_UNDEF := 0
  const SEG_ABS := 1

  /** A defined symbol: its output segment, the placed segment it lies in, its value in the output segment, and its
      value in the source layout. */
  datatype Sym = Sym(segid: nat, home: nat, packed: int, source: int)

  datatype Names = Names(defined: map<string, Sym>, imported: set<string>)

  datatype Part = NoPart | Low | High | Word

  datatype Info = Info(isReloc: bool, segid: nat, index: nat, value: int, relocValue: int, part: Part)

  datatype Analysis = Fail | Known(info: Info, undefs: seq<string>)

  function Plain(v: int): Info {
    Info(false, 0, 0, v, 0, NoPart)
  }

  // ----- imported names, numbered in order of first use -----

  function IndexOf(undefs: seq<string>, x: string): (i: nat)
    ensures i <= |undefs| && (i < |undefs| ==> undefs[i] == x)
  {
    if undefs == [] then 0 else if undefs[0] == x then 0 else 1 + IndexOf(undefs[1..], x)
  }

  function Intern(undefs: seq<string>, x: string): (r: seq<string>)
    ensures undefs <= r && IndexOf(undefs, x) < |r| && r[IndexOf(undefs, x)] == x
  {
    if IndexOf(undefs, x) < |undefs| then undefs else undefs + [x]
  }

  // ----- the analysis -----

  /** The table ordinary evaluation uses. */
  function SourceTable(names: Names): Symbols {
    map x | x in names.defined :: Some(names.defined[x].source)
  }

  function Plus(a: Info, k: int): Info {
    a.(value := a.value + k, relocValue := a.relocValue + k)
  }

  function Analyze(names: Names, undefs: seq<string>, e: Expr, pc: int): Analysis
    decreases e
  {
    match e
    case Number(v) => Known(Plain(v), undefs)
    case CharConst(v) => Known(Plain(v), undefs)
    case Pc => Known(Plain(pc), undefs)
    case Ident(x) =>
      if x in names.defined then
        var s := names.defined[x];
        Known(Info(s.segid != SEG_ABS, s.segid, 0, s.packed, s.packed, Word), undefs)
      else if x in names.imported then Known(Info(true, SEG_UNDEF, IndexOf(undefs, x), 0, 0, Word), Intern(undefs, x))
      else Fail
    case Neg(inner) =>
      (match Analyze(names, undefs, inner, pc)
       case Known(i, us) => if i.isReloc then Fail else Known(Plain(-i.value), us)
       case Fail => Fail)
    case Lo(inner) =>
      (match Analyze(names, undefs, inner, pc)
       case Known(i, us) => Known(i.(value := i.value % 256, part := Low), us)
       case Fail => Fail)
    case Hi(inner) =>
      (match Analyze(names, undefs, inner, pc)
       case Known(i, us) => Known(i.(value := i.value / 256 % 256, part := High), us)
       case Fail => Fail)
    case Binary(op, l, r) =>
      match Analyze(names, undefs, l, pc)
      case Fail => Fail
      case Known(a, us) =>
        match Analyze(names, us, r, pc)
        case Fail => Fail
        case Known(b, us') => Combine(names, e, pc, op, a, b, us')
  }

  function Combine(names: Names, e: Expr, pc: int, op: BinOp, a: Info, b: Info, us: seq<string>): Analysis {
    if a.isReloc && b.isReloc then Fail
    else
      match op
      case Add =>
        if a.isReloc then Known(Plus(a, b.value), us)
        else if b.isReloc then Known(Plus(b, a.value), us)
        else Known(Plain(a.value + b.value), us)
      case Sub =>
        if b.isReloc then Fail
        else if a.isReloc then Known(Plus(a, -b.value), us)
        else Known(Plain(a.value - b.value), us)
      case Mul | Div =>
        if a.isReloc || b.isReloc then Fail
        else
          match EvalExpr(e, SourceTable(names), pc)
          case Ok(v) => Known(Plain(v), us)
          case _ => Fail
  }

  // ----- what is accepted -----

  /** A name that moves: a symbol outside the absolute segment, or an import. */
  predicate MovesName(names: Names, x: string) {
    if x in names.defined then names.defined[x].segid != SEG_ABS else x in names.imported
  }

  ghost predicate Moves(names: Names, e: Expr) {
    exists x :: x in Idents(e) && MovesName(names, x)
  }

  /** Every name is known, and nothing that moves is negated, multiplied, divided or subtracted, or added to something that
      moves; other products and quotients must have a value. */
  ghost predicate Acceptable(names: Names, e: Expr, pc: int) {
    match e
    case Ident(x) => x in names.defined || x in names.imported
    case Neg(inner) => Acceptable(names, inner, pc) && !Moves(names, inner)
    case Lo(inner) => Acceptable(names, inner, pc)
    case Hi(inner) => Acceptable(names, inner, pc)
    case Binary(op, l, r) =>
      && Acceptable(names, l, pc) && Acceptable(names, r, pc) && !(Moves(names, l) && Moves(names, r))
      && (op == Sub ==> !Moves(names, r))
      && (op == Mul || op == Div ==> !Moves(names, e) && EvalExpr(e, SourceTable(names), pc).Ok?)
    case _ => true
  }

  /** Exactly those expressions are accepted, and exactly those that mention a name that moves are recorded to move. */
  lemma {:induction false} AcceptedIff(names: Names, undefs: seq<string>, e: Expr, pc: int)
    ensures var a := Analyze(names, undefs, e, pc);
      (a.Known? <==> Acceptable(names, e, pc)) && (a.Known? ==> (a.info.isReloc <==> Moves(names, e)))
    decreases e
  {
    match e {
      case Neg(inner) => AcceptedIff(names, undefs, inner, pc);
      case Lo(inner) => AcceptedIff(names, undefs, inner, pc);
      case Hi(inner) => AcceptedIff(names, undefs, inner, pc);
      case Binary(op, l, r) =>
        AcceptedIff(names, undefs, l, pc);
        var a := Analyze(names, undefs, l, pc);
        if a.Known? { AcceptedIff(names, a.undefs, r, pc); }
        MovesEither(names, e);
        hide Moves, EvalExpr, SourceTable;
      case Ident(x) => assert x in Idents(e);
      case _ =>
    }
  }

  lemma MovesEither(names: Names, e: Expr)
    requires e.Binary?
    ensures Moves(names, e) <==> Moves(names, e.left) || Moves(names, e.right)
  {
    hide MovesName;
  }

  // ----- where things end up -----

  /** The placed segments, the address each gets from the linker, and where imported names turn out to be. */
  datatype Placement = Placement(layouts: seq<Placed>, run: nat -> int, address: string -> int)

  /** How far a placed segment moves. */
  function Shift(p: Placement, h: nat): int
    requires h < |p.layouts|
  {
    p.run(h) - p.layouts[h].packedBase
  }

  /** Every symbol lies in a placed segment of its output segment. */
  predicate Housed(names: Names, p: Placement) {
    forall x :: x in names.defined && names.defined[x].segid != SEG_ABS ==>
      names.defined[x].home < |p.layouts| && p.layouts[names.defined[x].home].segid == names.defined[x].segid
  }

  function Moved(names: Names, p: Placement): Symbols
    requires Housed(names, p)
  {
    map x | x in names.defined.Keys + names.imported ::
      if x in names.defined then
        var s := names.defined[x];
        Some(s.packed + (if s.segid == SEG_ABS then 0 else Shift(p, s.home)))
      else Some(p.address(x))
  }

  /** The placed segment of the symbol that makes an expression relocatable. */
  function Home(names: Names, undefs: seq<string>, e: Expr, pc: int): nat
    decreases e
  {
    match e
    case Ident(x) => if x in names.defined then names.defined[x].home else 0
    case Lo(inner) => Home(names, undefs, inner, pc)
    case Hi(inner) => Home(names, undefs, inner, pc)
    case Binary(_, l, r) =>
      (match Analyze(names, undefs, l, pc)
       case Known(a, us) => if a.isReloc then Home(names, undefs, l, pc) else Home(names, us, r, pc)
       case Fail => 0)
    case _ => 0
  }

  /** Imports have an index; anything else that moves has a placed segment. */
  predicate Placeable(i: Info, h: nat, undefs: seq<string>, p: Placement) {
    i.isReloc ==>
      if i.segid == SEG_UNDEF then i.index < |undefs|
      else i.segid != SEG_ABS && h < |p.layouts| && p.layouts[h].segid == i.segid
  }

  /** What moving adds to the value recorded in the object file. */
  function Motion(i: Info, h: nat, undefs: seq<string>, p: Placement): int
    requires Placeable(i, h, undefs, p)
  {
    if !i.isReloc then 0 else if i.segid == SEG_UNDEF then p.address(undefs[i.index]) else Shift(p, h)
  }

  /** Absolute symbols have one value; no defined symbol is in the undefined segment. */
  predicate WellNamed(names: Names) {
    forall x :: x in names.defined ==>
      names.defined[x].segid != SEG_UNDEF && (names.defined[x].segid == SEG_ABS ==> names.defined[x].source == names.defined[x].packed)
  }

  predicate NoParts(e: Expr) {
    match e
    case Lo(_) => false
    case Hi(_) => false
    case Neg(x) => NoParts(x)
    case Binary(_, l, r) => NoParts(l) && NoParts(r)
    case _ => true
  }

  /** An expression that needs no relocation mentions absolute symbols only. */
  ghost predicate Absolute(names: Names, e: Expr) {
    forall x :: x in Idents(e) ==> x in names.defined && names.defined[x].segid == SEG_ABS
  }

  lemma AbsoluteEval(names: Names, e: Expr, p: Placement, pc: int, pc': int)
    requires WellNamed(names) && Housed(names, p) && Absolute(names, e) && NoPc(e)
    ensures EvalExpr(e, SourceTable(names), pc) == EvalExpr(e, Moved(names, p), pc')
  {
    forall x | x in Idents(e)
      ensures SameAt(SourceTable(names), Moved(names, p), x)
    {
    }
    EvalAgree(e, SourceTable(names), Moved(names, p), pc, pc');
  }

  /** The analysis of e is right for every placement. */
  ghost predicate Right(names: Names, undefs: seq<string>, e: Expr, a: Analysis, h: nat, p: Placement, pc: int)
    requires a.Known? && Housed(names, p)
  {
    && undefs <= a.undefs && Placeable(a.info, h, a.undefs, p)
    && (!a.info.isReloc ==> Absolute(names, e))
    && (a.info.isReloc ==> a.info.relocValue == a.info.value && a.info.part == Word)
    && EvalExpr(e, Moved(names, p), pc) == Ok(a.info.value + Motion(a.info, h, a.undefs, p))
  }

  /** An expression without < or > that is accepted is worth, wherever its segments are put, its recorded value
      plus the motion of at most one segment or import: it is affine with coefficient 0 or 1. */
  lemma {:induction false} AnalysisIsAffine(names: Names, undefs: seq<string>, e: Expr, at: int, p: Placement, pc: int)
    requires WellNamed(names) && Housed(names, p) && NoPc(e) && NoParts(e) && Analyze(names, undefs, e, at).Known?
    ensures Right(names, undefs, e, Analyze(names, undefs, e, at), Home(names, undefs, e, at), p, pc)
    decreases e
  {
    match e {
      case Neg(inner) =>
        AnalysisIsAffine(names, undefs, inner, at, p, pc);
        hide Home, Housed;
      case Binary(op, l, r) =>
        AnalysisIsAffine(names, undefs, l, at, p, pc);
        var a := Analyze(names, undefs, l, at);
        AnalysisIsAffine(names, a.undefs, r, at, p, pc);
        var b := Analyze(names, a.undefs, r, at);
        var h, k := Home(names, undefs, l, at), Home(names, a.undefs, r, at);
        assert Home(names, undefs, e, at) == if a.info.isReloc then h else k;
        hide Analyze, Moved, WellNamed, Home;
        AnalyzeBinary(names, undefs, e, at);
        CombineRight(names, undefs, e, at, p, pc, a, b, h, k);
      case _ =>
    }
  }

  lemma AnalyzeBinary(names: Names, undefs: seq<string>, e: Expr, at: int)
    requires e.Binary? && Analyze(names, undefs, e, at).Known?
    ensures var a := Analyze(names, undefs, e.left, at);
      a.Known? && Analyze(names, a.undefs, e.right, at).Known?
      && Analyze(names, undefs, e, at) ==
           Combine(names, e, at, e.op, a.info, Analyze(names, a.undefs, e.right, at).info,
                   Analyze(names, a.undefs, e.right, at).undefs)
  {
  }

  lemma CombineRight(names: Names, undefs: seq<string>, e: Expr, at: int, p: Placement, pc: int, a: Analysis,
                     b: Analysis, h: nat, k: nat)
    requires WellNamed(names) && Housed(names, p) && NoPc(e) && e.Binary? && a.Known? && b.Known?
    requires Right(names, undefs, e.left, a, h, p, pc) && Right(names, a.undefs, e.right, b, k, p, pc)
    requires Combine(names, e, at, e.op, a.info, b.info, b.undefs).Known?
    ensures Right(names, undefs, e, Combine(names, e, at, e.op, a.info, b.info, b.undefs), if a.info.isReloc then h else k, p, pc)
  {
    if !a.info.isReloc && !b.info.isReloc {
      assert Absolute(names, e);
      AbsoluteEval(names, e, p, at, pc);
    }
    hide Moved, WellNamed, SourceTable, Housed;
  }

  // ----- relocation records -----

  datatype Reloc = Reloc(offset: nat, part: Part, segid: nat, index: nat, aux: Option<Byte>)

  /** What is recorded for an operand of one or two bytes, if anything. A byte of a local symbol is accompanied
      by the other byte of the recorded word. */
  function RecordFor(i: Info, width: nat, offset: nat): Option<Reloc> {
    if !i.isReloc then None
    else
      var part := if i.part != NoPart then i.part else if width == 2 then Word else Low;
      var aux := if width == 1 && i.segid != SEG_UNDEF
                 then Some(if part == Low then i.relocValue / 256 % 256 else i.relocValue % 256)
                 else None;
      Some(Reloc(offset, part, i.segid, i.index, aux))
  }

  function OrZero(b: Option<Byte>): Byte {
    if b.Some? then b.value else 0
  }

  /** The word a local relocation applies to, put together from the code and the auxiliary byte. */
  function CurrentWord(data: seq<Byte>, r: Reloc): int
    requires r.offset < |data| && (r.part == Word ==> r.offset + 1 < |data|)
  {
    match r.part
    case Word => data[r.offset] as int + 256 * (data[r.offset + 1] as int)
    case Low => data[r.offset] as int + 256 * (OrZero(r.aux) as int)
    case High => OrZero(r.aux) as int + 256 * (data[r.offset] as int)
    case NoPart => data[r.offset]
  }

  function Patch(data: seq<Byte>, r: Reloc, target: int): (d: seq<Byte>)
    requires r.offset < |data| && (r.part == Word ==> r.offset + 1 < |data|)
    ensures |d| == |data|
  {
    match r.part
    case Word => data[r.offset := target % 256][r.offset + 1 := target / 256 % 256]
    case Low => data[r.offset := target % 256]
    case High => data[r.offset := target / 256 % 256]
    case NoPart => data
  }

  /** A relocation lies within the code bytes, and so does what it refers to. */
  predicate Applicable(data: seq<Byte>, r: Reloc, undefs: seq<string>) {
    && r.offset < |data| && (r.part == Word ==> r.offset + 1 < |data|)
    && (r.segid == SEG_UNDEF ==> r.index < |undefs|)
  }

  /** What the linker makes of the code bytes. It moves a local value as far as the segment moves that it takes the
      value to belong to; it stops at a value without such a segment. */
  function Applied(data: seq<Byte>, r: Reloc, undefs: seq<string>, p: Placement): (d: Option<seq<Byte>>)
    requires Applicable(data, r, undefs)
    ensures d.Some? ==> |d.value| == |data|
  {
    var current := CurrentWord(data, r);
    if r.segid == SEG_UNDEF then
      var target := p.address(undefs[r.index]) % 65536;
      Some(Patch(data, r, if r.part == Word then (target + current) % 65536 else target))
    else if r.segid == SEG_ABS then Some(Patch(data, r, current))
    else
      match LayoutFor(p.layouts, r.segid, current)
      case None => None
      case Some(j) => Some(Patch(data, r, (current + Shift(p, j)) % 65536))
  }

  /** The code after linking: the recorded relocation applied, if there is one. */
  function Linked(data: seq<Byte>, i: Info, width: nat, offset: nat, undefs: seq<string>, p: Placement): (d: Option<seq<Byte>>)
    requires offset + 1 < |data| && (i.isReloc && i.segid == SEG_UNDEF ==> i.index < |undefs|)
    ensures d.Some? ==> |d.value| == |data|
  {
    var r := RecordFor(i, width, offset);
    if r.None? then Some(data) else Applied(data, r.value, undefs, p)
  }

  lemma SumMod(a: int, b: int)
    ensures (a % 65536 + b) % 65536 == (a + b) % 65536
  {
  }

  /** Only the operand's own bytes are changed. */
  ghost predicate OthersKept(before: seq<Byte>, after: seq<Byte>, offset: nat, width: nat) {
    |before| == |after| && forall k :: 0 <= k < |before| && !(offset <= k < offset + width) ==> after[k] == before[k]
  }

  /** A word operand holds its recorded value's bytes. */
  ghost predicate HoldsWord(data: seq<Byte>, offset: nat, v: int) {
    offset + 1 < |data| && data[offset] == v % 256 && data[offset + 1] == v / 256 % 256
  }

  /** How far the linker moves a recorded value; None if it stops. */
  function Taken(i: Info, undefs: seq<string>, p: Placement): Option<int>
    requires i.isReloc && i.segid == SEG_UNDEF ==> i.index < |undefs|
  {
    if !i.isReloc then Some(0)
    else if i.segid == SEG_UNDEF then Some(p.address(undefs[i.index]))
    else
      match LayoutFor(p.layouts, i.segid, i.relocValue % 65536)
      case None => None
      case Some(j) => Some(Shift(p, j))
  }

  /** A word relocation moves a recorded word that far, or the linker stops. */
  lemma WordLinks(i: Info, h: nat, undefs: seq<string>, p: Placement, data: seq<Byte>, offset: nat)
    requires Placeable(i, h, undefs, p) && (i.isReloc ==> i.part == Word && i.relocValue == i.value)
    requires HoldsWord(data, offset, i.value)
    ensures offset + 1 < |data|
    ensures var linked, m := Linked(data, i, 2, offset, undefs, p), Taken(i, undefs, p);
      && (linked.Some? <==> m.Some?)
      && (linked.Some? ==> HoldsWord(linked.value, offset, i.value + m.value) && OthersKept(data, linked.value, offset, 2))
  {
    hide LayoutFor, Shift;
    var v := i.value;
    LowHigh(v);
    var m := Taken(i, undefs, p);
    if m.Some? {
      LowHigh(v + m.value);
      SumMod(v, m.value);
      if i.isReloc && i.segid == SEG_UNDEF { ImportSum(v, m.value); }
    }
  }

  lemma ImportSum(v: int, m: int)
    ensures (m % 65536 + (v % 256 + 256 * (v / 256 % 256))) % 65536 == (v + m) % 65536
  {
    LowHigh(v);
  }

  lemma SameMod(v: int, w: int)
    ensures (v - w) % 65536 == 0 <==> v % 65536 == w % 65536
  {
    var d := v / 65536 - w / 65536;
    assert v - w == 65536 * d + (v % 65536 - w % 65536);
  }

  lemma SameBytes(v: int, w: int)
    ensures v % 65536 == w % 65536 <==> v % 256 == w % 256 && v / 256 % 256 == w / 256 % 256
  {
    LowHigh(v);
    LowHigh(w);
  }

  /** Two values have the same word exactly when they differ by a multiple of 65536. */
  lemma SameWord(data: seq<Byte>, offset: nat, v: int, w: int)
    requires HoldsWord(data, offset, v)
    ensures HoldsWord(data, offset, w) <==> (v - w) % 65536 == 0
  {
    SameMod(v, w);
    SameBytes(v, w);
  }

  /** Wherever segments and imports end up, a linked word operand holds the expression's value there if and only if the
      linker moves the recorded value as far as the symbol in it, up to multiples of 65536. */
  lemma WordIsRight(names: Names, undefs: seq<string>, e: Expr, at: int, p: Placement, pc: int, data: seq<Byte>,
                    offset: nat)
    requires WellNamed(names) && Housed(names, p) && NoPc(e) && NoParts(e) && Analyze(names, undefs, e, at).Known?
    requires HoldsWord(data, offset, Analyze(names, undefs, e, at).info.value)
    ensures var a, h := Analyze(names, undefs, e, at), Home(names, undefs, e, at);
      && Placeable(a.info, h, a.undefs, p) && EvalExpr(e, Moved(names, p), pc).Ok?
      && var linked, m := Linked(data, a.info, 2, offset, a.undefs, p), Taken(a.info, a.undefs, p);
      && (linked.Some? <==> m.Some?)
      && (linked.Some? ==>
           && (HoldsWord(linked.value, offset, EvalExpr(e, Moved(names, p), pc).value) <==>
                 (m.value - Motion(a.info, h, a.undefs, p)) % 65536 == 0)
           && OthersKept(data, linked.value, offset, 2))
  {
    hide *;
    var a, h := Analyze(names, undefs, e, at), Home(names, undefs, e, at);
    AnalysisIsAffine(names, undefs, e, at, p, pc);
    RightParts(names, undefs, e, a, h, p, pc);
    WordLinks(a.info, h, a.undefs, p, data, offset);
    var linked, m := Linked(data, a.info, 2, offset, a.undefs, p), Taken(a.info, a.undefs, p);
    if linked.Some? {
      SameWord(linked.value, offset, a.info.value + m.value, a.info.value + Motion(a.info, h, a.undefs, p));
    }
  }

  lemma RightParts(names: Names, undefs: seq<string>, e: Expr, a: Analysis, h: nat, p: Placement, pc: int)
    requires a.Known? && Housed(names, p) && Right(names, undefs, e, a, h, p, pc)
    ensures Placeable(a.info, h, a.undefs, p) && (a.info.isReloc && a.info.segid == SEG_UNDEF ==> a.info.index < |a.undefs|)
    ensures a.info.isReloc ==> a.info.relocValue == a.info.value && a.info.part == Word
    ensures EvalExpr(e, Moved(names, p), pc) == Ok(a.info.value + Motion(a.info, h, a.undefs, p))
  {
    hide EvalExpr, Moved, Absolute, Motion;
  }

  /** In segments packed one after another, a local value moves with the segment it lies inside of, or at the end of
      where no other starts, whether or not that is the segment of its symbol. */
  lemma TakenWith(i: Info, j: nat, undefs: seq<string>, p: Placement, lengths: seq<nat>)
    requires i.isReloc && i.segid != SEG_UNDEF && Packed(p.layouts, lengths) && TEXT <= i.segid <= ZP
    requires j < |p.layouts|
    requires var l := p.layouts[j];
      Inside(l, i.segid, i.relocValue) || (EndsAt(l, i.segid, i.relocValue) && !Followed(p.layouts, i.segid, j))
    ensures Taken(i, undefs, p) == Some(Shift(p, j))
  {
    hide Packed, LayoutFor, Shift, Followed;
    RangesFit(p.layouts, lengths, i.segid, j);
    FindsHome(p.layouts, lengths, i.segid, j, i.relocValue);
  }

  /** So a word or byte is right wherever its value lies in the segment of its symbol. */
  lemma TakenIsMotion(i: Info, h: nat, undefs: seq<string>, p: Placement, lengths: seq<nat>)
    requires Placeable(i, h, undefs, p) && Packed(p.layouts, lengths)
    requires i.isReloc && i.segid != SEG_UNDEF ==>
      && TEXT <= i.segid <= ZP
      && (|| Inside(p.layouts[h], i.segid, i.relocValue)
          || (EndsAt(p.layouts[h], i.segid, i.relocValue) && !Followed(p.layouts, i.segid, h)))
    ensures Taken(i, undefs, p) == Some(Motion(i, h, undefs, p))
  {
    hide Packed, LayoutFor, Shift, Followed, Inside, EndsAt;
    if i.isReloc && i.segid != SEG_UNDEF {
      TakenWith(i, h, undefs, p, lengths);
    }
  }

  /** The recorded byte of < or >, with its neighbour in the auxiliary byte, moves as part of the word they make; it is
      right exactly when that word's motion and the symbol's give the same byte. */
  lemma ByteIsRight(names: Names, undefs: seq<string>, e: Expr, at: int, p: Placement, pc: int, data: seq<Byte>,
                    offset: nat)
    requires WellNamed(names) && Housed(names, p) && (e.Lo? || e.Hi?) && NoPc(e.inner) && NoParts(e.inner)
    requires Analyze(names, undefs, e, at).Known?
    requires var i := Analyze(names, undefs, e, at).info; !(i.isReloc && i.segid == SEG_UNDEF)
    requires offset + 1 < |data| && data[offset] == Analyze(names, undefs, e, at).info.value
    ensures var a, h := Analyze(names, undefs, e, at), Home(names, undefs, e, at);
      && Placeable(a.info, h, a.undefs, p) && EvalExpr(e, Moved(names, p), pc).Ok?
      && var linked, m := Linked(data, a.info, 1, offset, a.undefs, p), Taken(a.info, a.undefs, p);
      && (linked.Some? <==> m.Some?)
      && (linked.Some? && a.info.isReloc ==>
           (linked.value[offset] == EvalExpr(e, Moved(names, p), pc).value <==>
              var v, d := a.info.relocValue, Motion(a.info, h, a.undefs, p);
              if e.Lo? then (m.value - d) % 256 == 0 else (v + m.value) / 256 % 256 == (v + d) / 256 % 256))
      && (linked.Some? && !a.info.isReloc ==> linked.value[offset] == EvalExpr(e, Moved(names, p), pc).value)
      && (linked.Some? ==> OthersKept(data, linked.value, offset, 1))
  {
    hide *;
    var a, inner, h := Analyze(names, undefs, e, at), Analyze(names, undefs, e.inner, at), Home(names, undefs, e, at);
    AnalyzePart(names, undefs, e, at);
    AnalysisIsAffine(names, undefs, e.inner, at, p, pc);
    RightParts(names, undefs, e.inner, inner, h, p, pc);
    PartMoves(inner.info, a.info, h, inner.undefs, p);
    EvalPart(e, Moved(names, p), pc, inner.info.value + Motion(inner.info, h, inner.undefs, p));
    ByteLinks(inner.info, e.Lo?, h, inner.undefs, p, data, offset);
    var m := Taken(inner.info, inner.undefs, p);
    if m.Some? {
      LowSame(inner.info.value + Motion(inner.info, h, inner.undefs, p), m.value - Motion(inner.info, h, inner.undefs, p));
    }
  }

  /** A part of a value moves as the value does. */
  lemma PartMoves(i: Info, part: Info, h: nat, undefs: seq<string>, p: Placement)
    requires Placeable(i, h, undefs, p) && part == i.(value := part.value, part := part.part)
    ensures Placeable(part, h, undefs, p) && Motion(part, h, undefs, p) == Motion(i, h, undefs, p)
    ensures i.isReloc && i.segid == SEG_UNDEF ==> i.index < |undefs|
    ensures Taken(part, undefs, p) == Taken(i, undefs, p) && (!i.isReloc ==> Taken(i, undefs, p) == Some(Motion(i, h, undefs, p)))
  {
  }

  /** A byte relocation moves the word made of the byte and its auxiliary byte. */
  lemma ByteLinks(i: Info, low: bool, h: nat, undefs: seq<string>, p: Placement, data: seq<Byte>, offset: nat)
    requires Placeable(i, h, undefs, p) && !(i.isReloc && i.segid == SEG_UNDEF) && (i.isReloc ==> i.relocValue == i.value)
    requires offset + 1 < |data| && data[offset] == (if low then i.value % 256 else i.value / 256 % 256)
    ensures var part := i.(value := if low then i.value % 256 else i.value / 256 % 256, part := if low then Low else High);
      var linked, m := Linked(data, part, 1, offset, undefs, p), Taken(i, undefs, p);
      && (linked.Some? <==> m.Some?)
      && (linked.Some? ==>
           && linked.value[offset] == (if low then (i.value + m.value) % 256 else (i.value + m.value) / 256 % 256)
           && OthersKept(data, linked.value, offset, 1))
  {
    hide LayoutFor, Shift;
    var v := i.value;
    LowHigh(v);
    var m := Taken(i, undefs, p);
    if m.Some? {
      LowHigh(v + m.value);
      SumMod(v, m.value);
    }
  }

  lemma EvalPart(e: Expr, s: Symbols, pc: int, v: int)
    requires (e.Lo? || e.Hi?) && EvalExpr(e.inner, s, pc) == Ok(v)
    ensures EvalExpr(e, s, pc) == Ok(if e.Lo? then v % 256 else v / 256 % 256)
  {
  }

  lemma AnalyzePart(names: Names, undefs: seq<string>, e: Expr, at: int)
    requires (e.Lo? || e.Hi?) && Analyze(names, undefs, e, at).Known?
    ensures var inner := Analyze(names, undefs, e.inner, at); var v := inner.info.value;
      && inner.Known? && Home(names, undefs, e, at) == Home(names, undefs, e.inner, at)
      && Analyze(names, undefs, e, at) ==
           Known(inner.info.(value := if e.Lo? then v % 256 else v / 256 % 256, part := if e.Lo? then Low else High),
                 inner.undefs)
  {
  }

  /** For an import plus an offset the linker forgets the offset of a byte: the low byte is right exactly when the
      offset's low byte is zero, the high byte exactly when adding the offset does not change it. */
  lemma ImportByteIsRight(names: Names, undefs: seq<string>, e: Expr, at: int, p: Placement, pc: int, data: seq<Byte>,
                          offset: nat)
    requires WellNamed(names) && Housed(names, p) && (e.Lo? || e.Hi?) && NoPc(e.inner) && NoParts(e.inner)
    requires Analyze(names, undefs, e, at).Known?
    requires var i := Analyze(names, undefs, e, at).info; i.isReloc && i.segid == SEG_UNDEF
    requires offset + 1 < |data|
    ensures var a := Analyze(names, undefs, e, at); a.info.index < |a.undefs|
    ensures var a := Analyze(names, undefs, e, at); var linked := Linked(data, a.info, 1, offset, a.undefs, p);
      var target := p.address(a.undefs[a.info.index]); var k := a.info.relocValue;
      && linked.Some?
      && (EvalExpr(e, Moved(names, p), pc) == Ok(linked.value[offset]))
           == (if e.Lo? then k % 256 == 0 else (target + k) / 256 % 256 == target / 256 % 256)
  {
    var a, inner, h := Analyze(names, undefs, e, at), Analyze(names, undefs, e.inner, at), Home(names, undefs, e.inner, at);
    AnalysisIsAffine(names, undefs, e.inner, at, p, pc);
    var target, k := p.address(inner.undefs[inner.info.index]), inner.info.value;
    EvalPart(e, Moved(names, p), pc, k + target);
    AnalyzePart(names, undefs, e, at);
    hide Analyze, Moved, WellNamed, EvalExpr, NoPc, NoParts, Absolute, Home, Housed;
    LowHigh(target);
    LowSame(target, k);
  }

  lemma LowSame(a: int, k: int)
    ensures (a + k) % 256 == a % 256 <==> k % 256 == 0
  {
  }

  /** A one-byte operand without < or > gets a word relocation. The linker takes the byte after it for the high byte,
      looks for the segment of that word, and rewrites both: the byte after survives exactly when the sum of the operand
      byte and the motion stays below 256. */
  lemma WordOnByte(i: Info, data: seq<Byte>, offset: nat, undefs: seq<string>, p: Placement)
    requires i.isReloc && i.segid != SEG_UNDEF && i.segid != SEG_ABS && i.part == Word && offset + 1 < |data|
    requires data[offset] == i.value % 256
    ensures var linked := Linked(data, i, 1, offset, undefs, p);
      var j := LayoutFor(p.layouts, i.segid, data[offset] as int + 256 * (data[offset + 1] as int));
      && (linked.Some? <==> j.Some?)
      && (linked.Some? ==>
           && linked.value[offset] == (i.value + Shift(p, j.value)) % 256
           && (linked.value[offset + 1] == data[offset + 1] <==> (i.value % 256 + Shift(p, j.value)) / 256 % 256 == 0))
  {
    var low, next: int := i.value % 256, data[offset + 1];
    hide Shift, LayoutFor;
    var j := LayoutFor(p.layouts, i.segid, low + 256 * next);
    if j.Some? {
      var d := Shift(p, j.value);
      LowHigh(low + 256 * next + d);
      assert (low + 256 * next + d) % 256 == (low + d) % 256 == (i.value + d) % 256;
      assert (low + 256 * next + d) / 256 == next + (low + d) / 256;
      LowSame(next, (low + d) / 256);
    }
  }
}
