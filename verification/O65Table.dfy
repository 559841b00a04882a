/** The delta-coded relocation table: what the writer writes, the linker's reader reads back. */
module O65Table {
  import opened Basics
  import opened O65Reloc

  /** A table entry; the auxiliary byte is there exactly when the type byte has the AUX bit ($10). */
  datatype Entry = Entry(offset: nat, kind: Byte, segid: Byte, index: nat, aux: Option<Byte>)

  predicate HasAuxBit(kind: Byte) {
    kind / 16 % 2 == 1
  }

  predicate WellFormed(e: Entry) {
    && (e.aux.Some? <==> HasAuxBit(e.kind))
    && (if e.segid == SEG_UNDEF then e.index < 65536 else e.index == 0)
  }

  /** Offsets strictly increase. */
  ghost predicate Ascending(es: seq<Entry>) {
    && (forall i :: 0 <= i < |es| ==> WellFormed(es[i]))
    && (forall i, j :: 0 <= i < j < |es| ==> es[i].offset < es[j].offset)
  }

  // ----- reading -----

  /** The linker's reader: 255 skips 254, 0 ends the table, anything else starts an entry. The result also has
      the bytes after the table. */
  function Parse(bs: seq<Byte>, prev: int): Option<(seq<Entry>, seq<Byte>)>
    requires prev >= -1
    decreases |bs|
  {
    if bs == [] then None
    else if bs[0] == 0 then Some(([], bs[1..]))
    else if bs[0] == 255 then Parse(bs[1..], prev + 254)
    else
      var e := ParseEntry(bs, prev);
      if e.None? then None
      else
        var rest := Parse(e.value.1, prev + bs[0]);
        if rest.None? then None else Some(([e.value.0] + rest.value.0, rest.value.1))
  }

  function ParseEntry(bs: seq<Byte>, prev: int): (r: Option<(Entry, seq<Byte>)>)
    requires bs != [] && prev >= -1 && bs[0] > 0
    ensures r.Some? ==> |r.value.1| < |bs|
  {
    if |bs| < 3 then None
    else
      var kind, segid := bs[1], bs[2];
      var head := if segid == SEG_UNDEF then 5 else 3;
      var all := head + (if HasAuxBit(kind) then 1 else 0);
      if |bs| < all then None
      else
        var index := if segid == SEG_UNDEF then bs[3] as int + 256 * (bs[4] as int) else 0;
        var aux := if HasAuxBit(kind) then Some(bs[head]) else None;
        Some((Entry(prev + bs[0], kind, segid, index, aux), bs[all..]))
  }

  // ----- writing -----

  function Body(e: Entry): seq<Byte> {
    [e.kind, e.segid] + (if e.segid == SEG_UNDEF then [e.index % 256, e.index / 256 % 256] else [])
    + (if e.aux.Some? then [e.aux.value] else [])
  }

  /** A gap of any length, in steps of 254. */
  function Gap(delta: nat): seq<Byte> {
    if delta > 254 then [255] + Gap(delta - 254) else [delta]
  }

  /** A 255 for each full 254 before the last step, which is 1 to 254. */
  lemma {:induction false} GapBytes(delta: nat)
    requires delta > 0
    ensures var g, n := Gap(delta), (delta - 1) / 254;
      |g| == n + 1 && (forall i :: 0 <= i < n ==> g[i] == 255) && g[n] == delta - 254 * n && 1 <= g[n] <= 254
  {
    if delta > 254 { GapBytes(delta - 254); }
  }

  function Coded(es: seq<Entry>, prev: int): seq<Byte>
    requires prev >= -1
    requires Ascending(es) && (es != [] ==> es[0].offset > prev)
  {
    if es == [] then [0]
    else Gap(es[0].offset - prev) + Body(es[0]) + Coded(es[1..], es[0].offset)
  }

  lemma {:induction false} GapParses(delta: nat, e: Entry, rest: seq<Byte>, prev: int)
    requires prev >= -1 && 0 < delta && e.offset == prev + delta && WellFormed(e) && Parse(rest, e.offset).Some?
    ensures Parse(Gap(delta) + Body(e) + rest, prev) == Some(([e] + Parse(rest, e.offset).value.0,
                                                              Parse(rest, e.offset).value.1))
    decreases delta
  {
    var bs := Gap(delta) + Body(e) + rest;
    if delta > 254 {
      GapParses(delta - 254, e, rest, prev + 254);
      assert bs[1..] == Gap(delta - 254) + Body(e) + rest;
    } else {
      EntryParses(delta, e, rest, prev);
    }
  }

  lemma EntryParses(delta: nat, e: Entry, rest: seq<Byte>, prev: int)
    requires prev >= -1 && 0 < delta <= 254 && e.offset == prev + delta && WellFormed(e)
    ensures ParseEntry([delta] + Body(e) + rest, prev) == Some((e, rest))
  {
    var bs: seq<Byte> := [delta] + Body(e) + rest;
    var head := if e.segid == SEG_UNDEF then 5 else 3;
    var all := head + (if HasAuxBit(e.kind) then 1 else 0);
    assert bs[all..] == rest;
    if e.segid == SEG_UNDEF {
      assert bs[3] == e.index % 256 && bs[4] == e.index / 256 % 256;
    }
  }

  lemma RestAscending(es: seq<Entry>)
    requires Ascending(es) && es != []
    ensures Ascending(es[1..]) && (es[1..] != [] ==> es[1..][0].offset > es[0].offset)
  {
  }

  lemma CodedEnd(prev: int)
    requires prev >= -1
    ensures Ascending([]) && Coded([], prev) == [0]
  {
  }

  lemma CodedNext(es: seq<Entry>, prev: int)
    requires prev >= -1 && Ascending(es) && es != [] && es[0].offset > prev
    ensures Ascending(es[1..]) && (es[1..] != [] ==> es[1..][0].offset > es[0].offset) && WellFormed(es[0])
    ensures Coded(es, prev) == Gap(es[0].offset - prev) + Body(es[0]) + Coded(es[1..], es[0].offset)
  {
    RestAscending(es);
  }

  lemma EndParses(after: seq<Byte>, prev: int)
    requires prev >= -1
    ensures Parse([0] + after, prev) == Some(([], after))
  {
  }

  /** Reading a written table gives back exactly its entries, and leaves what follows it. */
  lemma {:induction false} TableReadsBack(es: seq<Entry>, prev: int, after: seq<Byte>)
    requires prev >= -1 && Ascending(es) && (es != [] ==> es[0].offset > prev)
    ensures Parse(Coded(es, prev) + after, prev) == Some((es, after))
  {
    hide *;
    if es == [] {
      CodedEnd(prev);
      EndParses(after, prev);
    } else {
      CodedNext(es, prev);
      TableReadsBack(es[1..], es[0].offset, after);
      var rest := Coded(es[1..], es[0].offset) + after;
      GapParses(es[0].offset - prev, es[0], rest, prev);
      assert Coded(es, prev) + after == Gap(es[0].offset - prev) + Body(es[0]) + rest;
      assert [es[0]] + es[1..] == es;
    }
  }

  /** One entry: its gap from the previous offset, then its fields. */
  method WriteEntry(e: Entry, prev: int) returns (out: seq<Byte>)
    requires e.offset > prev && WellFormed(e)
    ensures out == Gap(e.offset - prev) + Body(e)
  {
    out := [];
    var delta := e.offset - prev;
    while delta > 254
      invariant delta > 0 && Gap(e.offset - prev) == out + Gap(delta)
    {
      out := out + [255];
      delta := delta - 254;
    }
    out := out + [delta];
    out := out + [e.kind, e.segid];
    if e.segid == SEG_UNDEF {
      out := out + [e.index % 256, e.index / 256 % 256];
    }
    if e.aux.Some? {
      out := out + [e.aux.value];
    }
  }

  /** The table as written, entry by entry, and its end mark. */
  method WriteTable(es: seq<Entry>) returns (out: seq<Byte>)
    requires Ascending(es)
    ensures forall after :: Parse(out + after, -1) == Some((es, after))
  {
    hide *;
    out := [];
    var prev: int := -1;
    var rest := es;
    while rest != []
      invariant prev >= -1 && Ascending(rest) && (rest != [] ==> rest[0].offset > prev)
      invariant Coded(es, -1) == out + Coded(rest, prev)
      decreases |rest|
    {
      CodedNext(rest, prev);
      var entry := WriteEntry(rest[0], prev);
      assert out + (entry + Coded(rest[1..], rest[0].offset)) == out + entry + Coded(rest[1..], rest[0].offset);
      out := out + entry;
      prev := rest[0].offset;
      rest := rest[1..];
    }
    CodedEnd(prev);
    out := out + [0];
    forall after
      ensures Parse(out + after, -1) == Some((es, after))
    {
      TableReadsBack(es, -1, after);
    }
  }

  // ----- relocations as entries -----

  const KIND_AUX := 0x10
  const KIND_LOW := 0x20
  const KIND_HIGH := 0x40
  const KIND_WORD := 0x80

  function KindOf(part: Part, aux: bool): Byte
    requires part != NoPart
  {
    (if part == Low then KIND_LOW else if part == High then KIND_HIGH else KIND_WORD) + (if aux then KIND_AUX else 0)
  }

  /** A relocation as the writer records it. */
  predicate Writable(r: Reloc) {
    r.part != NoPart && r.segid < 256 && (if r.segid == SEG_UNDEF then r.index < 65536 else r.index == 0)
  }

  function EntryOf(r: Reloc): Entry
    requires Writable(r)
  {
    Entry(r.offset, KindOf(r.part, r.aux.Some?), r.segid, r.index, r.aux)
  }

  /** What the linker takes an entry for. */
  function RelocOf(e: Entry): Reloc {
    var part := if e.kind / 128 % 2 == 1 then Word else if e.kind / 64 % 2 == 1 then High else if e.kind / 32 % 2 == 1 then Low else NoPart;
    Reloc(e.offset, part, e.segid, e.index, e.aux)
  }

  lemma EntryKeeps(r: Reloc)
    requires Writable(r)
    ensures WellFormed(EntryOf(r)) && RelocOf(EntryOf(r)) == r
  {
  }

  function EntriesOf(rs: seq<Reloc>): (es: seq<Entry>)
    requires forall i :: 0 <= i < |rs| ==> Writable(rs[i])
    ensures |es| == |rs|
  {
    seq(|rs|, i requires 0 <= i < |rs| => EntryOf(rs[i]))
  }

  /** A table written for relocations in ascending order is read by the linker as the same relocations. */
  lemma RelocationsReadBack(rs: seq<Reloc>, after: seq<Byte>)
    requires forall i :: 0 <= i < |rs| ==> Writable(rs[i])
    requires forall i, j :: 0 <= i < j < |rs| ==> rs[i].offset < rs[j].offset
    ensures Ascending(EntriesOf(rs)) && Parse(Coded(EntriesOf(rs), -1) + after, -1) == Some((EntriesOf(rs), after))
    ensures forall i :: 0 <= i < |rs| ==> RelocOf(EntriesOf(rs)[i]) == rs[i]
  {
    forall i | 0 <= i < |rs|
      ensures WellFormed(EntriesOf(rs)[i]) && RelocOf(EntriesOf(rs)[i]) == rs[i]
    {
      EntryKeeps(rs[i]);
    }
    TableReadsBack(EntriesOf(rs), -1, after);
  }
}
