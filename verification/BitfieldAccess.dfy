/** Reading and writing bit-fields. The compiler unrolls these loops into 6502 code; each step here does to memory
    what the emitted fragment does. */
module BitfieldAccess {
  import opened Basics
  import opened AggregateLayout

  /** A bit-field: its address, the bits skipped there, its width, and the size and signedness of its declared type. */
  datatype BitField = BitField(at: nat, bitOffset: nat, width: nat, size: nat, signed: bool)

  function Mask(k: nat): bv8
    requires k < 8
  {
    if k == 0 then 1 else if k == 1 then 2 else if k == 2 then 4 else if k == 3 then 8
    else if k == 4 then 16 else if k == 5 then 32 else if k == 6 then 64 else 128
  }

  predicate Bit(b: bv8, k: nat)
    requires k < 8
  {
    b & Mask(k) != 0
  }

  /** The bits below k, as `(1 << k) - 1`. */
  function LowMask(k: nat): bv8
    requires 0 < k < 8
  {
    Mask(k) - 1
  }

  function KeepLow(b: bv8, k: nat): bv8
    requires 0 < k < 8
  {
    b & LowMask(k)
  }

  function SetHigh(b: bv8, k: nat): bv8
    requires 0 < k < 8
  {
    b | (0xff ^ LowMask(k))
  }

  /** `ror`: the carry comes in at the top, bit 0 goes out. */
  function Ror(b: bv8, carry: bool): bv8 {
    (b >> 1) | (if carry then 0x80 else 0)
  }

  /** Bit n of a stretch of memory, counting from the lowest bit of its first byte. */
  predicate BitAt(m: seq<bv8>, n: nat)
    requires n < 8 * |m|
  {
    Bit(m[n / 8], n % 8)
  }

  lemma OraBit(b: bv8, k: nat, j: nat)
    requires k < 8 && j < 8
    ensures Bit(b | Mask(k), j) <==> j == k || Bit(b, j)
  {
  }

  lemma AndBit(b: bv8, k: nat, j: nat)
    requires k < 8 && j < 8
    ensures Bit(b & (0xff ^ Mask(k)), j) <==> j != k && Bit(b, j)
  {
  }

  lemma LowMaskBit(b: bv8, k: nat, j: nat)
    requires 0 < k < 8 && j < 8
    ensures Bit(KeepLow(b, k), j) <==> j < k && Bit(b, j)
    ensures Bit(SetHigh(b, k), j) <==> j >= k || Bit(b, j)
  {
  }

  lemma RorBit(b: bv8, carry: bool, j: nat)
    requires j < 8
    ensures Bit(Ror(b, carry), j) <==> if j == 7 then carry else Bit(b, j + 1)
  {
  }

  lemma ConstantBit(j: nat)
    requires j < 8
    ensures !Bit(0, j) && Bit(0xff, j)
  {
  }

  /** What a store does: the field's bits become the lowest bits of the value at `from`, and no other bit of memory
      changes. */
  ghost predicate Stored(before: seq<bv8>, after: seq<bv8>, f: BitField, from: nat, width: nat)
    requires |before| == |after| && 8 * f.at + f.bitOffset + width <= 8 * |before| && 8 * from + width <= 8 * |before|
  {
    forall n :: 0 <= n < 8 * |before| ==>
      (BitAt(after, n) <==>
        var first := 8 * f.at + f.bitOffset;
        if first <= n < first + width then BitAt(before, 8 * from + (n - first)) else BitAt(before, n))
  }

  /** The value being stored and the field do not share a byte. */
  predicate Apart(f: BitField, from: nat) {
    || from + (f.width + 7) / 8 <= f.at + f.bitOffset / 8
    || f.at + (f.bitOffset + f.width + 7) / 8 <= from
  }

  predicate InMemory(f: BitField, from: nat, bytes: nat) {
    && 8 * f.at + f.bitOffset + f.width <= 8 * bytes && 8 * from + f.width <= 8 * bytes
  }

  /** Memory m with bit t made v. */
  ghost predicate OneBit(m: seq<bv8>, m': seq<bv8>, t: nat, v: bool) {
    && |m| == |m'|
    && forall n :: 0 <= n < 8 * |m| ==> (BitAt(m', n) <==> if n == t then v else BitAt(m, n))
  }

  function WithBit(b: bv8, k: nat, v: bool): bv8
    requires k < 8
  {
    if v then b | Mask(k) else b & (0xff ^ Mask(k))
  }

  lemma WithBitBit(b: bv8, k: nat, v: bool, j: nat)
    requires k < 8 && j < 8
    ensures Bit(WithBit(b, k, v), j) <==> if j == k then v else Bit(b, j)
  {
    OraBit(b, k, j);
    AndBit(b, k, j);
  }

  lemma {:induction false} OneByte(m: seq<bv8>, t: nat, v: bool)
    requires t < 8 * |m|
    ensures OneBit(m, m[t / 8 := WithBit(m[t / 8], t % 8, v)], t, v)
  {
    hide Bit, WithBit, Mask;
    var m' := m[t / 8 := WithBit(m[t / 8], t % 8, v)];
    forall n | 0 <= n < 8 * |m|
      ensures BitAt(m', n) <==> if n == t then v else BitAt(m, n)
    {
      if n / 8 == t / 8 {
        WithBitBit(m[t / 8], t % 8, v, n % 8);
        assert n == t <==> n % 8 == t % 8;
      }
    }
  }

  lemma ApartBits(f: BitField, from: nat)
    requires Apart(f, from)
    ensures || 8 * from + f.width <= 8 * f.at + f.bitOffset
            || 8 * f.at + f.bitOffset + f.width <= 8 * from
  {
  }

  /** One more bit stored. */
  lemma {:induction false} StoreStep(m0: seq<bv8>, m: seq<bv8>, m': seq<bv8>, f: BitField, from: nat, bit: nat)
    requires |m0| == |m| && bit < f.width && InMemory(f, from, |m|) && Apart(f, from)
    requires Stored(m0, m, f, from, bit)
    requires OneBit(m, m', 8 * f.at + f.bitOffset + bit, BitAt(m, 8 * from + bit))
    ensures Stored(m0, m', f, from, bit + 1)
  {
    hide BitAt;
    ApartBits(f, from);
    assert BitAt(m, 8 * from + bit) <==> BitAt(m0, 8 * from + bit);
  }

  /** emit_copy_fp_to_bitfield_lvalue, run: bit by bit, whatever the field's width and alignment. */
  method Store(mem: array<bv8>, f: BitField, from: nat, size: nat)
    requires InMemory(f, from, mem.Length) && Apart(f, from)
    modifies mem
    ensures if size == 0 || f.size == 0 then mem[..] == old(mem[..]) else Stored(old(mem[..]), mem[..], f, from, f.width)
  {
    hide Stored, Apart, Mask;
    if size == 0 || f.size == 0 {
      return;
    }
    NothingStored(mem[..], f, from);
    for bit := 0 to f.width
      invariant Stored(old(mem[..]), mem[..], f, from, bit)
    {
      ghost var m, t := mem[..], 8 * f.at + f.bitOffset + bit;
      var dstByte, dstMask := f.at + (f.bitOffset + bit) / 8, Mask((f.bitOffset + bit) % 8);
      var srcByte, srcMask := from + bit / 8, Mask(bit % 8);
      assert dstByte == t / 8 && (f.bitOffset + bit) % 8 == t % 8;
      OneByte(m, t, BitAt(m, 8 * from + bit));
      if mem[srcByte] & srcMask != 0 {
        mem[dstByte] := mem[dstByte] | dstMask;
      } else {
        mem[dstByte] := mem[dstByte] & (0xff ^ dstMask);
      }
      assert mem[..] == m[t / 8 := WithBit(m[t / 8], t % 8, BitAt(m, 8 * from + bit))];
      StoreStep(old(mem[..]), m, mem[..], f, from, bit);
    }
  }

  lemma NothingStored(m: seq<bv8>, f: BitField, from: nat)
    requires InMemory(f, from, |m|)
    ensures Stored(m, m, f, from, 0)
  {
  }

  function Min(a: int, b: int): int { if a < b then a else b }

  /** Bytes of the declared type that a load of so many bytes brings in. */
  function RawBytes(f: BitField, copy: nat): int {
    Min(f.size - f.bitOffset / 8, copy)
  }

  function SourceByte(f: BitField): nat { f.at + f.bitOffset / 8 }

  /** Bit n of the field's bytes once shifted down to the field's first bit; bits past the bytes brought in are 0. */
  ghost predicate RawBit(m: seq<bv8>, f: BitField, copy: nat, n: nat)
    requires SourceByte(f) + RawBytes(f, copy) <= |m|
  {
    var b := n + f.bitOffset % 8;
    b < 8 * RawBytes(f, copy) && BitAt(m, 8 * SourceByte(f) + b)
  }

  /** Memory with only bytes to..to+count changed. */
  ghost predicate OnlyChanges(m: seq<bv8>, m': seq<bv8>, to: nat, count: nat) {
    && |m| == |m'| && to + count <= |m|
    && forall i :: 0 <= i < |m| && !(to <= i < to + count) ==> m'[i] == m[i]
  }

  /** Bytes to..to+copy hold the raw bytes moved down by k bits. */
  ghost predicate MovedDown(m0: seq<bv8>, m: seq<bv8>, f: BitField, to: nat, copy: nat, k: nat) {
    && OnlyChanges(m0, m, to, copy) && SourceByte(f) + RawBytes(f, copy) <= |m0|
    && forall n :: 8 * to <= n < 8 * (to + copy) ==>
         (BitAt(m, n) <==>
           var b := n - 8 * to + k;
           b < 8 * RawBytes(f, copy) && BitAt(m0, 8 * SourceByte(f) + b))
  }

  /** Bytes to..to+copy moved down by one bit, a 0 entering at the top. */
  ghost predicate OneDown(m: seq<bv8>, m': seq<bv8>, to: nat, copy: nat) {
    && OnlyChanges(m, m', to, copy)
    && forall n :: 8 * to <= n < 8 * (to + copy) ==>
         (BitAt(m', n) <==> n + 1 < 8 * (to + copy) && BitAt(m, n + 1))
  }

  /** The bits of to..to+copy from width on are all v, the ones below are kept. */
  ghost predicate FilledAbove(m: seq<bv8>, m': seq<bv8>, to: nat, copy: nat, width: nat, v: bool) {
    && OnlyChanges(m, m', to, copy)
    && forall n :: 8 * to <= n < 8 * (to + copy) ==>
         (BitAt(m', n) <==> if n - 8 * to < width then BitAt(m, n) else v)
  }

  /** What a load does: the field's bits, then copies of its sign bit or 0. */
  ghost predicate Loaded(m0: seq<bv8>, m: seq<bv8>, f: BitField, to: nat, copy: nat) {
    && OnlyChanges(m0, m, to, copy) && SourceByte(f) + RawBytes(f, copy) <= |m0| && f.width > 0
    && forall n :: 8 * to <= n < 8 * (to + copy) ==>
         (BitAt(m, n) <==>
           if n - 8 * to < f.width then RawBit(m0, f, copy, n - 8 * to)
           else f.signed && RawBit(m0, f, copy, f.width - 1))
  }

  method Fill(mem: array<bv8>, to: nat, count: nat, value: bv8)
    requires to + count <= mem.Length
    modifies mem
    ensures OnlyChanges(old(mem[..]), mem[..], to, count)
    ensures forall i :: to <= i < to + count ==> mem[i] == value
  {
    for i := to to (to + count)
      invariant OnlyChanges(old(mem[..]), mem[..], to, count)
      invariant forall j :: to <= j < i ==> mem[j] == value
    {
      mem[i] := value;
    }
  }

  method Copy(mem: array<bv8>, src: nat, to: nat, count: nat)
    requires src + count <= mem.Length && to + count <= mem.Length && (src + count <= to || to + count <= src)
    modifies mem
    ensures OnlyChanges(old(mem[..]), mem[..], to, count)
    ensures forall i :: to <= i < to + count ==> mem[i] == old(mem[i - to + src])
  {
    for i := 0 to count
      invariant OnlyChanges(old(mem[..]), mem[..], to, count)
      invariant forall j :: to <= j < to + i ==> mem[j] == old(mem[j - to + src])
    {
      mem[to + i] := mem[src + i];
    }
  }

  /** The carry coming into byte i: the lowest bit of the byte after it. */
  predicate CarryInto(m: seq<bv8>, i: nat, end: nat)
    requires end <= |m|
  {
    i + 1 < end && Bit(m[i + 1], 0)
  }

  lemma {:induction false} RotatedBytes(m: seq<bv8>, m': seq<bv8>, to: nat, copy: nat)
    requires OnlyChanges(m, m', to, copy)
    requires forall i :: to <= i < to + copy ==> m'[i] == Ror(m[i], CarryInto(m, i, to + copy))
    ensures OneDown(m, m', to, copy)
  {
    hide Bit, Ror;
    forall n | 8 * to <= n < 8 * (to + copy)
      ensures BitAt(m', n) <==> n + 1 < 8 * (to + copy) && BitAt(m, n + 1)
    {
      var i := n / 8;
      RorBit(m[i], CarryInto(m, i, to + copy), n % 8);
      if n % 8 == 7 {
        assert (n + 1) / 8 == n / 8 + 1 && (n + 1) % 8 == 0;
      } else {
        assert (n + 1) / 8 == n / 8 && (n + 1) % 8 == n % 8 + 1;
      }
    }
  }

  /** Only the last byte is moved down by one bit. */
  ghost predicate TopDown(m: seq<bv8>, m': seq<bv8>, to: nat, copy: nat) {
    && |m| == |m'| && 0 < copy && to + copy <= |m|
    && forall i :: 0 <= i < |m| && i != to + copy - 1 ==> m'[i] == m[i]
  }

  /** Bytes to+y+1..to+copy have been rotated, those below not yet. */
  ghost predicate Rotating(m: seq<bv8>, m': seq<bv8>, to: nat, copy: nat, y: int) {
    && OnlyChanges(m, m', to, copy) && -1 <= y < copy
    && (forall i :: to <= i <= to + y ==> m'[i] == m[i])
    && (forall i :: to + y < i < to + copy ==> m'[i] == Ror(m[i], CarryInto(m, i, to + copy)))
  }

  lemma RotateOne(m0: seq<bv8>, m: seq<bv8>, m': seq<bv8>, to: nat, copy: nat, y: nat, carry: bool)
    requires Rotating(m0, m, to, copy, y) && carry == CarryInto(m0, to + y, to + copy)
    requires m' == m[to + y := Ror(m[to + y], carry)]
    ensures Rotating(m0, m', to, copy, y - 1)
    ensures y > 0 ==> Bit(m[to + y], 0) == CarryInto(m0, to + y - 1, to + copy)
    ensures y == copy - 1 ==> TopDown(m0, m', to, copy)
  {
    hide Bit, Ror;
  }

  /** The state of the loop below: byte y comes next, with this carry, or there is no more. */
  ghost predicate Turning(m0: seq<bv8>, m: seq<bv8>, to: nat, copy: nat, y: nat, carry: bool, more: bool) {
    && |m| == |m0| && to + copy <= |m| && 0 < copy <= 256
    && if more then
         && y < copy && Rotating(m0, m, to, copy, y) && (y == copy - 1 || (y < 128 && copy <= 129))
         && carry == CarryInto(m0, to + y, to + copy)
       else if copy <= 129 then Rotating(m0, m, to, copy, -1)
       else TopDown(m0, m, to, copy)
  }

  lemma TurningParts(m0: seq<bv8>, m: seq<bv8>, to: nat, copy: nat, y: nat, carry: bool)
    requires Turning(m0, m, to, copy, y, carry, true)
    ensures to + y < |m| == |m0| && y < copy <= 256
  {
  }

  lemma TurnOne(m0: seq<bv8>, m: seq<bv8>, m': seq<bv8>, to: nat, copy: nat, y: nat, carry: bool)
    requires Turning(m0, m, to, copy, y, carry, true) && to + y < |m| && m' == m[to + y := Ror(m[to + y], carry)]
    ensures var next := (y + 255) % 256;
      Turning(m0, m', to, copy, next, Bit(m[to + y], 0), next < 128) && (next < 128 ==> next < y)
  {
    RotateOne(m0, m, m', to, copy, y, carry);
    hide Bit, Ror, Rotating, CarryInto, TopDown;
  }

  lemma TurningEnds(m0: seq<bv8>, m: seq<bv8>, to: nat, copy: nat, y: nat, carry: bool)
    requires Turning(m0, m, to, copy, y, carry, false)
    ensures if copy <= 129 then OneDown(m0, m, to, copy) else TopDown(m0, m, to, copy)
  {
    hide OneDown, TopDown;
    if copy <= 129 {
      RotatingAll(m0, m, to, copy);
      RotatedBytes(m0, m, to, copy);
    }
  }

  lemma TurningStarts(m: seq<bv8>, to: nat, copy: nat)
    requires 0 < copy <= 256 && to + copy <= |m|
    ensures Turning(m, m, to, copy, copy - 1, false, true)
  {
  }

  /** One pass of the shift: `clc`, then `ror` from the last byte down, the carry linking the bytes. The loop goes on
      as long as the index counted down is positive as a signed byte, so from 130 bytes on it stops after the first. */
  method ShiftRight(mem: array<bv8>, to: nat, copy: nat)
    requires 0 < copy <= 256 && to + copy <= mem.Length
    modifies mem
    ensures if copy <= 129 then OneDown(old(mem[..]), mem[..], to, copy) else TopDown(old(mem[..]), mem[..], to, copy)
  {
    hide *;
    ghost var m0 := mem[..];
    var carry, more := false, true;
    var y: nat := copy - 1;
    TurningStarts(m0, to, copy);
    while more
      invariant Turning(m0, mem[..], to, copy, y, carry, more)
      decreases if more then y + 1 else 0
    {
      ghost var m := mem[..];
      TurningParts(m0, m, to, copy, y, carry);
      var a := mem[to + y];
      mem[to + y] := Ror(a, carry);
      TurnOne(m0, m, mem[..], to, copy, y, carry);
      carry := Bit(a, 0);
      y := (y + 255) % 256;
      more := y < 128;
    }
    TurningEnds(m0, mem[..], to, copy, y, carry);
  }

  lemma RotatingAll(m: seq<bv8>, m': seq<bv8>, to: nat, copy: nat)
    requires Rotating(m, m', to, copy, -1)
    ensures OnlyChanges(m, m', to, copy)
    ensures forall i :: to <= i < to + copy ==> m'[i] == Ror(m[i], CarryInto(m, i, to + copy))
  {
    hide Ror, CarryInto;
  }

  lemma {:induction false} MovedOnce(m0: seq<bv8>, m: seq<bv8>, m': seq<bv8>, f: BitField, to: nat, copy: nat, k: nat)
    requires MovedDown(m0, m, f, to, copy, k) && OneDown(m, m', to, copy)
    ensures MovedDown(m0, m', f, to, copy, k + 1)
  {
    hide BitAt;
  }

  /** Byte i of a field of so many bits, with every bit past the field made v. */
  function FilledByte(b: bv8, i: nat, width: nat, v: bool): bv8 {
    if 8 * i >= width then (if v then 0xff else 0)
    else if 8 * i + 8 <= width then b
    else if v then SetHigh(b, width - 8 * i) else KeepLow(b, width - 8 * i)
  }

  lemma FilledByteBit(b: bv8, i: nat, width: nat, v: bool, k: nat)
    requires k < 8
    ensures Bit(FilledByte(b, i, width, v), k) <==> if 8 * i + k < width then Bit(b, k) else v
  {
    hide Bit, KeepLow, SetHigh;
    ConstantBit(k);
    if 8 * i < width < 8 * i + 8 {
      LowMaskBit(b, width - 8 * i, k);
    }
  }

  lemma {:induction false} FilledBytes(m: seq<bv8>, m': seq<bv8>, to: nat, copy: nat, width: nat, v: bool)
    requires OnlyChanges(m, m', to, copy)
    requires forall i :: to <= i < to + copy ==> m'[i] == FilledByte(m[i], i - to, width, v)
    ensures FilledAbove(m, m', to, copy, width, v)
  {
    hide Bit, FilledByte;
    forall n | 8 * to <= n < 8 * (to + copy)
      ensures BitAt(m', n) <==> if n - 8 * to < width then BitAt(m, n) else v
    {
      FilledByteBit(m[n / 8], n / 8 - to, width, v, n % 8);
    }
  }

  lemma ByteCases(b: bv8, i: nat, width: nat, v: bool)
    requires width > 0
    ensures var last, rem := (width - 1) / 8, width % 8;
            FilledByte(b, i, width, v) ==
              if i > last then (if v then 0xff else 0)
              else if i < last || rem == 0 then b
              else if v then SetHigh(b, rem) else KeepLow(b, rem)
  {
    hide KeepLow, SetHigh;
    var last, rem := (width - 1) / 8, width % 8;
    assert i == last && rem != 0 ==> width - 8 * i == rem;
  }

  /** Both clean-up fragments: mask or set the rest of the last byte of the field, then fill the bytes above it. */
  method FillAbove(mem: array<bv8>, to: nat, copy: nat, width: nat, v: bool)
    requires to + copy <= mem.Length && 0 < width < 8 * copy
    modifies mem
    ensures FilledAbove(old(mem[..]), mem[..], to, copy, width, v)
  {
    hide Bit, KeepLow, SetHigh, FilledAbove, BitAt, FilledByte;
    var last := (width - 1) / 8;
    var rem := width % 8;
    if rem != 0 {
      mem[to + last] := if v then SetHigh(mem[to + last], rem) else KeepLow(mem[to + last], rem);
    }
    ghost var m := mem[..];
    Fill(mem, to + last + 1, copy - (last + 1), if v then 0xff else 0);
    forall i | to <= i < to + copy
      ensures mem[i] == FilledByte(old(mem[i]), i - to, width, v)
    {
      ByteCases(old(mem[i]), i - to, width, v);
      assert i - to <= last ==> mem[i] == m[i];
    }
    FilledBytes(old(mem[..]), mem[..], to, copy, width, v);
  }

  lemma {:induction false} CopiedBytes(m0: seq<bv8>, m: seq<bv8>, f: BitField, to: nat, copy: nat)
    requires OnlyChanges(m0, m, to, copy) && SourceByte(f) + RawBytes(f, copy) <= |m0|
    requires forall i :: to <= i < to + copy ==>
      m[i] == if i - to < RawBytes(f, copy) then m0[i - to + SourceByte(f)] else 0
    ensures MovedDown(m0, m, f, to, copy, 0)
  {
    hide Bit, RawBytes, SourceByte;
    forall n | 8 * to <= n < 8 * (to + copy)
      ensures BitAt(m, n) <==> n - 8 * to < 8 * RawBytes(f, copy) && BitAt(m0, 8 * SourceByte(f) + (n - 8 * to))
    {
      ConstantBit(n % 8);
      var i, b := n / 8, 8 * SourceByte(f) + (n - 8 * to);
      assert b / 8 == i - to + SourceByte(f) && b % 8 == n % 8;
      assert m[i] == if i - to < RawBytes(f, copy) then m0[i - to + SourceByte(f)] else 0;
    }
  }

  lemma {:induction false} LoadedIs(m0: seq<bv8>, m1: seq<bv8>, m: seq<bv8>, f: BitField, to: nat, copy: nat, v: bool)
    requires MovedDown(m0, m1, f, to, copy, f.bitOffset % 8) && f.width > 0
    requires if f.width < 8 * copy then FilledAbove(m1, m, to, copy, f.width, v) else m == m1
    requires f.width < 8 * copy ==> v == (f.signed && BitAt(m1, 8 * to + f.width - 1))
    ensures Loaded(m0, m, f, to, copy)
  {
    hide BitAt, SourceByte;
  }

  /** Below the last byte, bytes to..to+copy hold the raw bytes as they are. */
  ghost predicate Stuck(m0: seq<bv8>, m: seq<bv8>, f: BitField, to: nat, copy: nat) {
    && OnlyChanges(m0, m, to, copy) && 0 < copy && SourceByte(f) + RawBytes(f, copy) <= |m0|
    && forall n :: 8 * to <= n < 8 * (to + copy - 1) && n - 8 * to < f.width ==>
         (BitAt(m, n) <==> n - 8 * to < 8 * RawBytes(f, copy) && BitAt(m0, 8 * SourceByte(f) + (n - 8 * to)))
  }

  lemma {:induction false} StuckOnce(m0: seq<bv8>, m: seq<bv8>, m': seq<bv8>, f: BitField, to: nat, copy: nat)
    requires Stuck(m0, m, f, to, copy) && TopDown(m, m', to, copy)
    ensures Stuck(m0, m', f, to, copy)
  {
    hide Bit, RawBytes, SourceByte;
    forall n | 8 * to <= n < 8 * (to + copy - 1)
      ensures BitAt(m', n) == BitAt(m, n)
    {
      assert n / 8 != to + copy - 1;
    }
    hide BitAt;
  }

  lemma {:induction false} StuckFilled(m0: seq<bv8>, m: seq<bv8>, m': seq<bv8>, f: BitField, to: nat, copy: nat, v: bool)
    requires Stuck(m0, m, f, to, copy) && FilledAbove(m, m', to, copy, f.width, v)
    ensures Stuck(m0, m', f, to, copy)
  {
    hide BitAt, RawBytes, SourceByte;
  }

  lemma MovedNowhere(m0: seq<bv8>, m: seq<bv8>, f: BitField, to: nat, copy: nat)
    requires MovedDown(m0, m, f, to, copy, 0) && 0 < copy
    ensures Stuck(m0, m, f, to, copy)
  {
    hide BitAt, RawBytes, SourceByte;
  }

  /** The loop of the shift reaches every byte, or there is nothing to shift. */
  predicate Shifts(f: BitField, copy: nat) {
    f.bitOffset % 8 == 0 || copy <= 129
  }

  /** Clear the destination, bring in the field's bytes, and shift them down to bit 0. */
  method BringDown(mem: array<bv8>, f: BitField, to: nat, copy: nat)
    requires 0 < copy <= f.size && copy <= 256 && to + copy <= mem.Length && f.at + f.size <= mem.Length
    requires to + copy <= f.at || f.at + f.size <= to
    modifies mem
    ensures if Shifts(f, copy) then MovedDown(old(mem[..]), mem[..], f, to, copy, f.bitOffset % 8)
            else Stuck(old(mem[..]), mem[..], f, to, copy)
  {
    hide BitAt, MovedDown, OneDown, TopDown, Stuck;
    Fill(mem, to, copy, 0);
    var raw := RawBytes(f, copy);
    if raw > 0 {
      Copy(mem, SourceByte(f), to, raw);
    }
    CopiedBytes(old(mem[..]), mem[..], f, to, copy);
    MovedNowhere(old(mem[..]), mem[..], f, to, copy);
    var x := f.bitOffset % 8;
    while x != 0
      invariant 0 <= x <= f.bitOffset % 8
      invariant if Shifts(f, copy) then MovedDown(old(mem[..]), mem[..], f, to, copy, f.bitOffset % 8 - x)
                else Stuck(old(mem[..]), mem[..], f, to, copy)
    {
      ghost var m := mem[..];
      ShiftRight(mem, to, copy);
      if copy <= 129 {
        MovedOnce(old(mem[..]), m, mem[..], f, to, copy, f.bitOffset % 8 - x);
      } else {
        StuckOnce(old(mem[..]), m, mem[..], f, to, copy);
      }
      x := x - 1;
    }
  }

  /** emit_copy_bitfield_lvalue_to_fp, run. */
  method Load(mem: array<bv8>, f: BitField, to: nat, size: nat)
    requires f.width > 0 && Min(size, f.size) <= 256
    requires to + Min(size, f.size) <= mem.Length && f.at + f.size <= mem.Length
    requires to + Min(size, f.size) <= f.at || f.at + f.size <= to
    modifies mem
    ensures var copy := Min(size, f.size);
      if copy == 0 then mem[..] == old(mem[..])
      else if Shifts(f, copy) then Loaded(old(mem[..]), mem[..], f, to, copy)
      else Stuck(old(mem[..]), mem[..], f, to, copy)
  {
    hide BitAt, MovedDown, FilledAbove, Loaded, Stuck, Shifts, Mask;
    var copy := Min(size, f.size);
    if copy == 0 {
      return;
    }
    BringDown(mem, f, to, copy);
    ghost var m1 := mem[..];
    var sign := false;
    if f.width < 8 * copy {
      FillAbove(mem, to, copy, f.width, false);
      SignKept(m1, mem[..], to, copy, f.width);
      sign := f.signed && mem[to + (f.width - 1) / 8] & Mask((f.width - 1) % 8) != 0;
      if sign {
        ghost var m2 := mem[..];
        FillAbove(mem, to, copy, f.width, true);
        FilledTwice(m1, m2, mem[..], to, copy, f.width);
      }
      if !Shifts(f, copy) { StuckFilled(old(mem[..]), m1, mem[..], f, to, copy, sign); }
    }
    if Shifts(f, copy) { LoadedIs(old(mem[..]), m1, mem[..], f, to, copy, sign); }
  }

  /** Where the shift stops early, the load is wrong as soon as two raw bits that far apart differ below the last byte. */
  lemma StuckIsWrong(m0: seq<bv8>, m: seq<bv8>, f: BitField, to: nat, copy: nat, n: nat)
    requires Stuck(m0, m, f, to, copy) && n < Min(f.width, 8 * (copy - 1)) && n < 8 * RawBytes(f, copy)
    requires BitAt(m0, 8 * SourceByte(f) + n) != RawBit(m0, f, copy, n)
    ensures !Loaded(m0, m, f, to, copy)
  {
    hide BitAt, RawBytes, SourceByte;
    assert 8 * to <= 8 * to + n < 8 * (to + copy);
    assert BitAt(m, 8 * to + n) != RawBit(m0, f, copy, n);
  }

  lemma SignKept(m: seq<bv8>, m': seq<bv8>, to: nat, copy: nat, width: nat)
    requires FilledAbove(m, m', to, copy, width, false) && 0 < width < 8 * copy
    ensures |m'| == |m| && to + copy <= |m|
    ensures BitAt(m, 8 * to + width - 1) <==> m'[to + (width - 1) / 8] & Mask((width - 1) % 8) != 0
  {
    hide Mask;
    assert BitAt(m', 8 * to + width - 1) <==> BitAt(m, 8 * to + width - 1);
    assert (8 * to + width - 1) / 8 == to + (width - 1) / 8 && (8 * to + width - 1) % 8 == (width - 1) % 8;
  }

  lemma FilledTwice(m: seq<bv8>, m1: seq<bv8>, m2: seq<bv8>, to: nat, copy: nat, width: nat)
    requires FilledAbove(m, m1, to, copy, width, false) && FilledAbove(m1, m2, to, copy, width, true)
    ensures FilledAbove(m, m2, to, copy, width, true)
  {
    hide BitAt;
  }

  /** The bytes brought in reach to the end of the field, or to the end of what is loaded. */
  predicate Fits(f: BitField, copy: nat) {
    f.bitOffset % 8 + Min(f.width, 8 * copy) <= 8 * RawBytes(f, copy)
  }

  /** Bytes to..to+copy hold the low bits of the value stored from `from`, extended. */
  ghost predicate ReadsBack(m0: seq<bv8>, m2: seq<bv8>, f: BitField, from: nat, to: nat, copy: nat)
    requires f.width > 0 && 8 * from + f.width <= 8 * |m0| && to + copy <= |m2|
  {
    forall n :: 8 * to <= n < 8 * (to + copy) ==>
      (BitAt(m2, n) <==> if n - 8 * to < f.width then BitAt(m0, 8 * from + (n - 8 * to))
                         else f.signed && BitAt(m0, 8 * from + f.width - 1))
  }

  /** Loading right after storing gives the low bits of whatever was stored, zero- or sign-extended. */
  lemma {:induction false} LoadAfterStore(m0: seq<bv8>, m1: seq<bv8>, m2: seq<bv8>, f: BitField, from: nat, to: nat,
                                          copy: nat)
    requires f.width > 0 && |m0| == |m1| && InMemory(f, from, |m0|) && Stored(m0, m1, f, from, f.width)
    requires Loaded(m1, m2, f, to, copy) && Fits(f, copy)
    ensures ReadsBack(m0, m2, f, from, to, copy)
  {
    hide BitAt;
    assert 8 * SourceByte(f) + f.bitOffset % 8 == 8 * f.at + f.bitOffset;
    forall n: nat | n < Min(f.width, 8 * copy)
      ensures RawBit(m1, f, copy, n) <==> BitAt(m0, 8 * from + n)
    {
    }
    forall n | 8 * to <= n < 8 * (to + copy)
      ensures BitAt(m2, n) <==> if n - 8 * to < f.width then BitAt(m0, 8 * from + (n - 8 * to))
                                else f.signed && BitAt(m0, 8 * from + f.width - 1)
    {
      var k: nat := n - 8 * to;
      if k < f.width {
        assert RawBit(m1, f, copy, k) <==> BitAt(m0, 8 * from + k);
      } else {
        assert RawBit(m1, f, copy, f.width - 1) <==> BitAt(m0, 8 * from + (f.width - 1));
      }
    }
  }

  /** Storing all ones is read back exactly when the field fits: past the declared type's bytes, bits are lost. */
  lemma {:induction false} OnesReadBackIffFits(m0: seq<bv8>, m1: seq<bv8>, m2: seq<bv8>, f: BitField, from: nat,
                                               to: nat, copy: nat)
    requires f.width > 0 && copy > 0 && |m0| == |m1| && InMemory(f, from, |m0|) && Stored(m0, m1, f, from, f.width)
    requires Loaded(m1, m2, f, to, copy)
    requires forall n :: 8 * from <= n < 8 * from + f.width ==> BitAt(m0, n)
    ensures ReadsBack(m0, m2, f, from, to, copy) <==> Fits(f, copy)
  {
    hide BitAt;
    if Fits(f, copy) {
      LoadAfterStore(m0, m1, m2, f, from, to, copy);
    } else {
      var top := 8 * RawBytes(f, copy) - f.bitOffset % 8;
      var lost: nat := if top < 0 then 0 else top;
      assert lost < Min(f.width, 8 * copy) && !RawBit(m1, f, copy, lost);
      assert !BitAt(m2, 8 * to + lost) && BitAt(m0, 8 * from + lost);
    }
  }

  /** A member of a struct is placed at a bit offset below 8, so at full size it fits exactly when its bits end
      within its declared type. */
  lemma FitsAtFullSize(f: BitField)
    requires f.bitOffset < 8 && f.width <= 8 * f.size
    ensures Fits(f, f.size) <==> f.bitOffset + f.width <= 8 * f.size
  {
  }

  /** struct { int a:5; int b:12; } with two-byte ints: b runs one bit past its type, and does not fit. */
  lemma TwelveBitsAfterFive(base: nat, signed: bool)
    ensures var b := Field(Some("b"), 2, 12);
      && PlacedAt(Place(0, 5, 12, 3), b, StartBit(UsedByNamed([Field(Some("a"), 2, 5), b], 1), b))
      && !Fits(MemberOf(Place(0, 5, 12, 3), b, base, signed), 2)
  {
    var b := Field(Some("b"), 2, 12);
    assert UsedByNamed([Field(Some("a"), 2, 5), b], 1) == 5;
  }

  /** The bit-field at p of an object at `base`. */
  function MemberOf(p: Place, f: Field, base: nat, signed: bool): BitField {
    BitField(base + p.byteOffset, p.bitOffset, p.width, f.size, signed)
  }

  /** Storing into one member of a struct leaves every other member's bits as they were. */
  lemma {:induction false} OtherMembersKept(fields: seq<Field>, i: nat, j: nat, p: Place, q: Place, base: nat,
                                            signed: bool,
                                            m0: seq<bv8>, m1: seq<bv8>, from: nat, n: nat)
    requires i < |fields| && j < |fields| && i != j && fields[i].name.Some? && fields[j].name.Some?
    requires PlacedAt(p, fields[i], StartBit(UsedByNamed(fields, i), fields[i])) && fields[i].width > 0
    requires PlacedAt(q, fields[j], StartBit(UsedByNamed(fields, j), fields[j]))
    requires var f := MemberOf(p, fields[i], base, signed);
             |m0| == |m1| && InMemory(f, from, |m0|) && Stored(m0, m1, f, from, f.width)
    requires n < Bits(fields[j]) && 8 * base + FirstBit(q) + n < 8 * |m0|
    ensures BitAt(m1, 8 * base + FirstBit(q) + n) <==> BitAt(m0, 8 * base + FirstBit(q) + n)
  {
    hide BitAt, StartBit, UsedByNamed;
    if i < j {
      MembersDoNotOverlap(fields, p, q, i, j);
    } else {
      MembersDoNotOverlap(fields, q, p, j, i);
    }
  }
}
