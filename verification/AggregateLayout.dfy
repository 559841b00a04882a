/** Where struct and union members lie. Three loops of the compiler compute it: the member lookup behind `.` and
    `->`, the type fingerprint, and the size of the whole aggregate. */
module AggregateLayout {
  import opened Basics

  /** A declared field: its name if it has one, the size of its declared type in bytes, and its width in bits when
      it is a bit-field (0 when it is not). */
  datatype Field = Field(name: Option<string>, size: nat, width: nat)

  datatype Place = Place(byteOffset: nat, bitOffset: nat, width: nat, storage: nat)

  /** First bit and number of bits a field takes when the bits before it are used up. */
  function StartBit(cursor: nat, f: Field): (bit: nat)
    ensures cursor <= bit < cursor + 8 && (f.width == 0 ==> bit % 8 == 0)
  {
    if f.width > 0 then cursor else (cursor + 7) / 8 * 8
  }

  function Bits(f: Field): nat {
    if f.width > 0 then f.width else 8 * f.size
  }

  /** Bits used up by the first i fields. */
  function Used(fields: seq<Field>, i: nat): nat
    requires i <= |fields|
  {
    if i == 0 then 0 else StartBit(Used(fields, i - 1), fields[i - 1]) + Bits(fields[i - 1])
  }

  /** Bits used up by those of the first i fields that have a name. */
  function UsedByNamed(fields: seq<Field>, i: nat): nat
    requires i <= |fields|
  {
    if i == 0 then 0
    else if fields[i - 1].name.None? then UsedByNamed(fields, i - 1)
    else StartBit(UsedByNamed(fields, i - 1), fields[i - 1]) + Bits(fields[i - 1])
  }

  /** A bit-field is no wider than its declared type. */
  ghost predicate WidthsFit(fields: seq<Field>) {
    forall i :: 0 <= i < |fields| ==> fields[i].width <= 8 * fields[i].size
  }

  function FirstBit(p: Place): nat { 8 * p.byteOffset + p.bitOffset }

  /** p describes a field f whose first bit is at start, byte-aligned unless f is a bit-field, and whose storage is
      the least number of whole bytes from there on that holds it. */
  ghost predicate PlacedAt(p: Place, f: Field, start: nat) {
    && FirstBit(p) == start && p.bitOffset < 8 && p.width == f.width
    && (f.width == 0 ==> p.bitOffset == 0)
    && 8 * (p.storage - 1) < p.bitOffset + Bits(f) <= 8 * p.storage
  }

  lemma PlaceIs(cursor: nat, f: Field)
    ensures var c := StartBit(cursor, f);
            var o := if f.width == 0 then 0 else c % 8;
            PlacedAt(Place(c / 8, o, f.width, if f.width > 0 then (o + f.width + 7) / 8 else f.size), f, c)
  {
  }

  ghost predicate AllPlaced(places: seq<Place>, fields: seq<Field>, isUnion: bool) {
    && |places| <= |fields|
    && forall k :: 0 <= k < |places| ==>
         PlacedAt(places[k], fields[k], if isUnion then 0 else StartBit(Used(fields, k), fields[k]))
  }

  lemma EmptyPlaced(fields: seq<Field>, isUnion: bool)
    ensures AllPlaced([], fields, isUnion) && Used(fields, 0) == 0
  {
  }

  lemma UsedNext(fields: seq<Field>, i: nat)
    requires i < |fields|
    ensures Used(fields, i + 1) == StartBit(Used(fields, i), fields[i]) + Bits(fields[i])
  {
  }

  lemma {:induction false} OneMorePlaced(places: seq<Place>, fields: seq<Field>, isUnion: bool, p: Place)
    requires AllPlaced(places, fields, isUnion) && |places| < |fields|
    requires PlacedAt(p, fields[|places|], if isUnion then 0 else StartBit(Used(fields, |places|), fields[|places|]))
    ensures AllPlaced(places + [p], fields, isUnion)
  {
    hide PlacedAt, StartBit, Used;
  }

  /** Index of the first field so named, or the number of fields. */
  function IndexOf(fields: seq<Field>, member: string, i: nat): (k: nat)
    requires i <= |fields|
    ensures i <= k <= |fields|
    ensures k < |fields| ==> fields[k].name == Some(member)
    ensures forall j :: i <= j < k ==> fields[j].name != Some(member)
    decreases |fields| - i
  {
    if i < |fields| && fields[i].name != Some(member) then IndexOf(fields, member, i + 1) else i
  }

  /** find_aggregate_member_info: unnamed fields are passed over without moving the cursor. */
  method FindMember(fields: seq<Field>, isUnion: bool, member: string) returns (r: Option<Place>)
    ensures r.Some? <==> IndexOf(fields, member, 0) < |fields|
    ensures r.Some? ==> (var k := IndexOf(fields, member, 0);
                         PlacedAt(r.value, fields[k],
                                  if isUnion then 0 else StartBit(UsedByNamed(fields, k), fields[k])))
  {
    var cursor := 0;
    var i := 0;
    while i < |fields|
      invariant 0 <= i <= |fields|
      invariant IndexOf(fields, member, 0) == IndexOf(fields, member, i)
      invariant !isUnion ==> cursor == UsedByNamed(fields, i)
    {
      var f := fields[i];
      if f.name.None? {
        i := i + 1;
        continue;
      }
      if !isUnion && f.width == 0 && cursor % 8 != 0 {
        cursor := (cursor + 7) / 8 * 8;
      }
      var byteOffset := if isUnion then 0 else cursor / 8;
      var bitOffset := if isUnion || f.width == 0 then 0 else cursor % 8;
      var storage := if f.width > 0 then (bitOffset + f.width + 7) / 8 else f.size;
      if f.name == Some(member) {
        return Some(Place(byteOffset, bitOffset, f.width, storage));
      }
      if !isUnion {
        cursor := cursor + (if f.width > 0 then f.width else f.size * 8);
      }
      i := i + 1;
    }
    return None;
  }

  /** append_base_type_fingerprint: every field is described, and every field moves the cursor. */
  method Fingerprint(fields: seq<Field>, isUnion: bool) returns (places: seq<Place>)
    ensures |places| == |fields| && AllPlaced(places, fields, isUnion)
  {
    hide PlacedAt, AllPlaced, Used;
    places := [];
    var cursor := 0;
    assert AllPlaced([], fields, isUnion) && Used(fields, 0) == 0 by { EmptyPlaced(fields, isUnion); }
    for i := 0 to |fields|
      invariant |places| == i && AllPlaced(places, fields, isUnion)
      invariant !isUnion ==> cursor == Used(fields, i)
    {
      var f := fields[i];
      PlaceIs(if isUnion then 0 else cursor, f);
      UsedNext(fields, i);
      var byteOffset, bitOffset := 0, 0;
      if isUnion {
      } else if f.width > 0 {
        byteOffset, bitOffset := cursor / 8, cursor % 8;
      } else {
        if cursor % 8 != 0 {
          cursor := (cursor + 7) / 8 * 8;
        }
        byteOffset := cursor / 8;
      }
      var storage := if f.width > 0 then (bitOffset + f.width + 7) / 8 else f.size;
      OneMorePlaced(places, fields, isUnion, Place(byteOffset, bitOffset, f.width, storage));
      places := places + [Place(byteOffset, bitOffset, f.width, storage)];
      if !isUnion {
        cursor := cursor + (if f.width > 0 then f.width else f.size * 8);
      }
    }
  }

  /** Bytes of the widest of the first i fields. */
  function Widest(fields: seq<Field>, i: nat): nat
    requires i <= |fields|
  {
    if i == 0 then 0
    else
      var bytes := (Bits(fields[i - 1]) + 7) / 8;
      var rest := Widest(fields, i - 1);
      if bytes > rest then bytes else rest
  }

  lemma SizeStarts(fields: seq<Field>)
    ensures Used(fields, 0) == Widest(fields, 0) == 0
  {
  }

  lemma SizeStep(fields: seq<Field>, i: nat)
    requires i < |fields|
    ensures var c, f := Used(fields, i), fields[i];
            if f.width > 0 then Used(fields, i + 1) == c + f.width
            else Used(fields, i + 1) == (if c % 8 != 0 then (c + 7) / 8 * 8 else c) + f.size * 8
                 && (Used(fields, i + 1) + 7) / 8 == Used(fields, i + 1) / 8
    ensures var w, f := Widest(fields, i), fields[i];
            var bytes := if f.width > 0 then (f.width + 7) / 8 else f.size;
            Widest(fields, i + 1) == if bytes > w then bytes else w
  {
  }

  /** The size of the aggregate; None where the compiler rejects a field wider than its type. */
  method SizeOf(fields: seq<Field>, isUnion: bool) returns (r: Option<nat>)
    ensures r.Some? <==> WidthsFit(fields)
    ensures r.Some? ==> r.value == if isUnion then Widest(fields, |fields|) else (Used(fields, |fields|) + 7) / 8
  {
    hide Used, Widest, StartBit;
    SizeStarts(fields);
    var cursor := 0;
    var size := 0;
    for i := 0 to |fields|
      invariant forall k :: 0 <= k < i ==> fields[k].width <= 8 * fields[k].size
      invariant isUnion ==> size == Widest(fields, i)
      invariant !isUnion ==> cursor == Used(fields, i) && size == (cursor + 7) / 8
    {
      var f := fields[i];
      SizeStep(fields, i);
      if f.width > 0 {
        if f.width > f.size * 8 {
          return None;
        }
        if !isUnion {
          cursor := cursor + f.width;
          size := (cursor + 7) / 8;
        } else {
          var fieldSize := (f.width + 7) / 8;
          if fieldSize > size {
            size := fieldSize;
          }
        }
      } else if !isUnion {
        if cursor % 8 != 0 {
          cursor := (cursor + 7) / 8 * 8;
        }
        cursor := cursor + f.size * 8;
        size := cursor / 8;
      } else if f.size > size {
        size := f.size;
      }
    }
    return Some(size);
  }

  lemma StartGrows(c: nat, d: nat, f: Field)
    requires c <= d
    ensures StartBit(c, f) <= StartBit(d, f)
  {
  }

  lemma {:induction false} UsedGrows(fields: seq<Field>, i: nat, j: nat)
    requires i <= j <= |fields|
    ensures Used(fields, i) <= Used(fields, j) && UsedByNamed(fields, i) <= UsedByNamed(fields, j)
  {
    hide StartBit;
    if i < j { UsedGrows(fields, i, j - 1); }
  }

  lemma {:induction false} NamedUseLess(fields: seq<Field>, i: nat)
    requires i <= |fields|
    ensures UsedByNamed(fields, i) <= Used(fields, i)
  {
    hide StartBit;
    if i > 0 {
      NamedUseLess(fields, i - 1);
      StartGrows(UsedByNamed(fields, i - 1), Used(fields, i - 1), fields[i - 1]);
    }
  }

  /** Two members of a struct, as `.` finds them: the one declared first ends before the other begins, even when
      unnamed fields stand between them. */
  lemma {:induction false} MembersDoNotOverlap(fields: seq<Field>, p: Place, q: Place, i: nat, j: nat)
    requires i < j < |fields| && fields[i].name.Some? && fields[j].name.Some?
    requires PlacedAt(p, fields[i], StartBit(UsedByNamed(fields, i), fields[i]))
    requires PlacedAt(q, fields[j], StartBit(UsedByNamed(fields, j), fields[j]))
    ensures FirstBit(p) + Bits(fields[i]) <= FirstBit(q)
  {
    hide StartBit;
    UsedGrows(fields, i + 1, j);
  }

  /** Every member lies inside the size computed for its aggregate. */
  lemma {:induction false} MembersFitInside(fields: seq<Field>, p: Place, i: nat)
    requires i < |fields|
    requires || PlacedAt(p, fields[i], StartBit(UsedByNamed(fields, i), fields[i]))
             || PlacedAt(p, fields[i], StartBit(Used(fields, i), fields[i]))
    ensures p.byteOffset + p.storage <= (Used(fields, |fields|) + 7) / 8
  {
    hide StartBit;
    NamedUseLess(fields, i);
    StartGrows(UsedByNamed(fields, i), Used(fields, i), fields[i]);
    UsedGrows(fields, i + 1, |fields|);
    assert FirstBit(p) + Bits(fields[i]) <= Used(fields, i + 1);
  }

  lemma {:induction false} UnionMembersFitInside(fields: seq<Field>, p: Place, i: nat, n: nat)
    requires i < n <= |fields| && PlacedAt(p, fields[i], 0)
    ensures p.byteOffset == 0 && p.storage <= Widest(fields, n)
  {
    if i < n - 1 { UnionMembersFitInside(fields, p, i, n - 1); }
  }

  /** Nothing is wasted: a field begins where the one before it ends, or at the next byte from there; the size of a struct
      is the least that holds its last field, and that of a union the size of one of its fields. */
  lemma {:induction false} NothingWasted(fields: seq<Field>, i: nat, p: Place)
    requires i < |fields| && PlacedAt(p, fields[i], StartBit(Used(fields, i), fields[i]))
    ensures FirstBit(p) == if fields[i].width > 0 || Used(fields, i) % 8 == 0 then Used(fields, i) else Used(fields, i) + 8 - Used(fields, i) % 8
    ensures Used(fields, i + 1) == FirstBit(p) + (if fields[i].width > 0 then fields[i].width else 8 * fields[i].size)
    ensures var size := (Used(fields, i + 1) + 7) / 8; p.byteOffset + p.storage == size
  {
  }

  lemma {:induction false} WidestIsOne(fields: seq<Field>, n: nat) returns (i: nat)
    requires 0 < n <= |fields|
    ensures i < n && Widest(fields, n) == if fields[i].width > 0 then (fields[i].width + 7) / 8 else fields[i].size
  {
    i := 0;
    if n > 1 { i := WidestIsOne(fields, n - 1); }
    if Widest(fields, n) != Widest(fields, n - 1) { i := n - 1; }
  }

  lemma {:induction false} NamedUseAll(fields: seq<Field>, i: nat)
    requires i <= |fields| && forall k :: 0 <= k < i ==> fields[k].name.Some?
    ensures UsedByNamed(fields, i) == Used(fields, i)
  {
    if i > 0 { NamedUseAll(fields, i - 1); }
  }

  lemma PlacesAgree(p: Place, q: Place, f: Field, start: nat)
    requires PlacedAt(p, f, start) && PlacedAt(q, f, start)
    ensures p == q
  {
  }

  /** Where every field before it has a name, the lookup and the fingerprint place a member alike. */
  lemma {:induction false} CopiesAgree(fields: seq<Field>, isUnion: bool, k: nat, found: Place, listed: seq<Place>)
    requires k < |fields| == |listed| && AllPlaced(listed, fields, isUnion)
    requires isUnion || forall i :: 0 <= i < k ==> fields[i].name.Some?
    requires PlacedAt(found, fields[k], if isUnion then 0 else StartBit(UsedByNamed(fields, k), fields[k]))
    ensures found == listed[k]
  {
    hide StartBit;
    if !isUnion { NamedUseAll(fields, k); }
    PlacesAgree(found, listed[k], fields[k], if isUnion then 0 else StartBit(Used(fields, k), fields[k]));
  }

  /** In a struct they place member k alike exactly when the unnamed fields before it took no bits that matter to it: none
      for a bit-field, none beyond the byte that is rounded up to for any other field. */
  lemma {:induction false} CopiesAgreeIff(fields: seq<Field>, k: nat, found: Place, listed: Place)
    requires k < |fields|
    requires PlacedAt(found, fields[k], StartBit(UsedByNamed(fields, k), fields[k]))
    requires PlacedAt(listed, fields[k], StartBit(Used(fields, k), fields[k]))
    ensures found == listed <==>
      if fields[k].width > 0 then UsedByNamed(fields, k) == Used(fields, k)
      else (UsedByNamed(fields, k) + 7) / 8 == (Used(fields, k) + 7) / 8
  {
    var a, b := StartBit(UsedByNamed(fields, k), fields[k]), StartBit(Used(fields, k), fields[k]);
    if a == b {
      PlacesAgree(found, listed, fields[k], a);
    } else {
      assert FirstBit(found) == a && FirstBit(listed) == b;
    }
  }

  /** Bits of the unnamed ones among the first i fields. */
  function UnnamedBits(fields: seq<Field>, i: nat): nat
    requires i <= |fields|
  {
    if i == 0 then 0 else UnnamedBits(fields, i - 1) + (if fields[i - 1].name.None? then Bits(fields[i - 1]) else 0)
  }

  lemma {:induction false} BitFieldsAdd(fields: seq<Field>, i: nat)
    requires i <= |fields| && forall j :: 0 <= j < i ==> fields[j].width > 0
    ensures Used(fields, i) == UsedByNamed(fields, i) + UnnamedBits(fields, i)
  {
    if i > 0 { BitFieldsAdd(fields, i - 1); }
  }

  lemma {:induction false} UnnamedBitsNone(fields: seq<Field>, i: nat)
    requires i <= |fields|
    ensures UnnamedBits(fields, i) == 0 <==> forall j :: 0 <= j < i && fields[j].name.None? ==> Bits(fields[j]) == 0
  {
    if i > 0 { UnnamedBitsNone(fields, i - 1); }
  }

  /** Among bit-fields they differ by exactly the width of the unnamed ones before the member, and so agree exactly when
      there is none. */
  lemma {:induction false} UnnamedBitsShiftMembers(fields: seq<Field>, k: nat, found: Place, listed: Place)
    requires k < |fields| && forall j :: 0 <= j <= k ==> fields[j].width > 0
    requires PlacedAt(found, fields[k], StartBit(UsedByNamed(fields, k), fields[k]))
    requires PlacedAt(listed, fields[k], StartBit(Used(fields, k), fields[k]))
    ensures FirstBit(listed) == FirstBit(found) + UnnamedBits(fields, k)
    ensures found == listed <==> forall j :: 0 <= j < k ==> fields[j].name.Some?
  {
    BitFieldsAdd(fields, k);
    UnnamedBitsNone(fields, k);
    CopiesAgreeIff(fields, k, found, listed);
  }

  /** struct { int a:3; int :5; int b:4; }: the two places of b are a byte apart. */
  lemma UnnamedFiveBits(found: Place, listed: Place)
    requires var fields := [Field(Some("a"), 2, 3), Field(None, 2, 5), Field(Some("b"), 2, 4)];
      && PlacedAt(found, fields[2], StartBit(UsedByNamed(fields, 2), fields[2]))
      && PlacedAt(listed, fields[2], StartBit(Used(fields, 2), fields[2]))
    ensures found == Place(0, 3, 4, 1) && listed == Place(1, 0, 4, 1)
  {
    var fields := [Field(Some("a"), 2, 3), Field(None, 2, 5), Field(Some("b"), 2, 4)];
    assert Used(fields, 1) == UsedByNamed(fields, 1) == 3;
    assert Used(fields, 2) == 8 && UsedByNamed(fields, 2) == 3;
  }
}
