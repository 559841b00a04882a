/** The sparse memory image, and its dump as Intel HEX text. */
module IntelHex {
  import opened Basics

  // ----- the format, as a reader sees it -----

  /** A data record: consecutive bytes from an address. */
  datatype Record = Record(start: nat, bytes: seq<Byte>)

  /** One byte of memory. */
  datatype Cell = Cell(address: nat, value: Byte)

  function DigitValue(c: char): Option<nat> {
    if '0' <= c <= '9' then Some(c as int - '0' as int)
    else if 'A' <= c <= 'F' then Some(c as int - 'A' as int + 10)
    else None
  }

  /** Pairs of hexadecimal digits up to the end of the line, and the text after it. */
  function ReadPairs(t: string): (r: Option<(seq<Byte>, string)>)
    ensures r.Some? ==> |r.value.1| < |t|
  {
    if t == "" then None
    else if t[0] == '\n' then Some(([], t[1..]))
    else if |t| < 2 || DigitValue(t[0]).None? || DigitValue(t[1]).None? then None
    else
      match ReadPairs(t[2..])
      case None => None
      case Some(r) =>
        var hi, lo := DigitValue(t[0]).value, DigitValue(t[1]).value;
        Some(([16 * hi + lo] + r.0, r.1))
  }

  function Sum(bs: seq<Byte>): nat {
    if bs == [] then 0 else Sum(bs[..|bs| - 1]) + bs[|bs| - 1]
  }

  /** Byte count, address, type, data, checksum: the count is right and all bytes add up to 0 mod 256. */
  predicate GoodLine(bs: seq<Byte>) {
    |bs| >= 5 && |bs| == bs[0] as int + 5 && Sum(bs) % 256 == 0
  }

  /** The data records of a file, which the end-of-file record must close. */
  function ReadFile(t: string): Option<seq<Record>>
    decreases |t|
  {
    if t == "" || t[0] != ':' then None
    else
      match ReadPairs(t[1..])
      case None => None
      case Some((bs, rest)) =>
        if !GoodLine(bs) then None
        else if bs[3] == 1 then (if rest == "" then Some([]) else None)
        else if bs[3] != 0 then None
        else
          match ReadFile(rest)
          case None => None
          case Some(rs) => Some([Record(256 * bs[1] as int + bs[2], bs[4..|bs| - 1])] + rs)
  }

  function CellsOf(r: Record): seq<Cell> {
    seq(|r.bytes|, i requires 0 <= i < |r.bytes| => Cell(r.start + i, r.bytes[i]))
  }

  function AllCells(rs: seq<Record>): seq<Cell> {
    if rs == [] then [] else AllCells(rs[..|rs| - 1]) + CellsOf(rs[|rs| - 1])
  }

  // ----- what is printed -----

  function HexDigit(n: nat): (c: char)
    requires n < 16
    ensures DigitValue(c) == Some(n) && c != '\n'
  {
    if n < 10 then (n + 48) as char else (n + 55) as char
  }

  function Hex(b: Byte): string {
    [HexDigit(b / 16), HexDigit(b % 16)]
  }

  function HexAll(bs: seq<Byte>): string {
    if bs == [] then "" else Hex(bs[0]) + HexAll(bs[1..])
  }

  function Line(bs: seq<Byte>): string {
    ":" + HexAll(bs) + "\n"
  }

  function Checksum(bs: seq<Byte>): Byte {
    (256 - Sum(bs) % 256) % 256
  }

  function Header(count: Byte, start: nat, kind: Byte): seq<Byte>
    requires start < 65536
  {
    [count, start / 256, start % 256, kind]
  }

  function Sealed(bs: seq<Byte>): seq<Byte> {
    bs + [Checksum(bs)]
  }

  predicate Short(r: Record) {
    1 <= |r.bytes| <= 16 && r.start + |r.bytes| <= 65536
  }

  function RecordText(r: Record): string
    requires Short(r)
  {
    Line(Sealed(Header(|r.bytes|, r.start, 0) + r.bytes))
  }

  ghost predicate AllShort(rs: seq<Record>) {
    forall i :: 0 <= i < |rs| ==> Short(rs[i])
  }

  function RecordsText(rs: seq<Record>): string
    requires AllShort(rs)
  {
    if rs == [] then "" else RecordText(rs[0]) + RecordsText(rs[1..])
  }

  function EndText(): string {
    Line(Sealed(Header(0, 0, 1)))
  }

  lemma {:induction false} PairsBack(bs: seq<Byte>, rest: string)
    ensures ReadPairs(HexAll(bs) + "\n" + rest) == Some((bs, rest))
  {
    var t := HexAll(bs) + "\n" + rest;
    if bs == [] {
      assert t[1..] == rest;
    } else {
      PairsBack(bs[1..], rest);
      assert t[2..] == HexAll(bs[1..]) + "\n" + rest;
      assert t[0] == HexDigit(bs[0] / 16) && t[1] == HexDigit(bs[0] % 16);
      assert [bs[0]] + bs[1..] == bs;
    }
  }

  lemma SealedIsGood(bs: seq<Byte>)
    requires |bs| >= 4 && |bs| == bs[0] as int + 4
    ensures GoodLine(Sealed(bs))
  {
    var s := Sealed(bs);
    assert s[..|s| - 1] == bs;
  }

  lemma LineBack(bs: seq<Byte>, rest: string)
    ensures |Line(bs)| > 0 && (Line(bs) + rest)[0] == ':' && ReadPairs((Line(bs) + rest)[1..]) == Some((bs, rest))
  {
    PairsBack(bs, rest);
    assert (Line(bs) + rest)[1..] == HexAll(bs) + "\n" + rest;
  }

  /** Reading a file whose first line is bs. */
  lemma ReadOne(bs: seq<Byte>, rest: string)
    requires GoodLine(bs)
    ensures bs[3] == 1 && rest == "" ==> ReadFile(Line(bs) + rest) == Some([])
    ensures bs[3] == 0 && ReadFile(rest).Some? ==>
      ReadFile(Line(bs) + rest) == Some([Record(256 * bs[1] as int + bs[2], bs[4..|bs| - 1])] + ReadFile(rest).value)
  {
    hide Line, ReadPairs, GoodLine;
    GoodLineLong(bs);
    LineBack(bs, rest);
  }

  lemma GoodLineLong(bs: seq<Byte>)
    requires GoodLine(bs)
    ensures |bs| >= 5
  {
  }

  /** Whatever records are printed, reading the text gives them back. */
  lemma {:induction false} FileBack(rs: seq<Record>)
    requires AllShort(rs)
    ensures ReadFile(RecordsText(rs) + EndText()) == Some(rs)
  {
    hide Line, ReadFile, Sealed, GoodLine;
    if rs == [] {
      var h := Header(0, 0, 1);
      SealedIsGood(h);
      SealedKeeps(h);
      ReadOne(Sealed(h), "");
      assert RecordsText(rs) + EndText() == Line(Sealed(h)) + "";
    } else {
      FileBack(rs[1..]);
      var r := rs[0];
      var h := Header(|r.bytes|, r.start, 0) + r.bytes;
      SealedIsGood(h);
      SealedKeeps(h);
      ReadOne(Sealed(h), RecordsText(rs[1..]) + EndText());
      assert RecordsText(rs) + EndText() == Line(Sealed(h)) + (RecordsText(rs[1..]) + EndText());
      assert Sealed(h)[4..|Sealed(h)| - 1] == r.bytes;
      assert [r] + rs[1..] == rs;
    }
  }

  lemma SealedKeeps(bs: seq<Byte>)
    ensures |Sealed(bs)| == |bs| + 1 && forall i :: 0 <= i < |bs| ==> Sealed(bs)[i] == bs[i]
  {
  }

  lemma {:induction false} RecordsTextAppend(rs: seq<Record>, r: Record)
    requires AllShort(rs) && Short(r)
    ensures AllShort(rs + [r]) && RecordsText(rs + [r]) == RecordsText(rs) + RecordText(r)
  {
    hide RecordText, Short;
    if rs == [] {
      assert [r][1..] == [];
    } else {
      RecordsTextAppend(rs[1..], r);
      assert (rs + [r])[1..] == rs[1..] + [r];
    }
  }

  // ----- the image -----

  /** The bytes in use below an address, in ascending order. */
  function UsedCells(data: seq<Byte>, used: seq<bool>, a: nat): seq<Cell>
    requires a <= |data| && a <= |used|
  {
    if a == 0 then []
    else if used[a - 1] then UsedCells(data, used, a - 1) + [Cell(a - 1, data[a - 1])]
    else UsedCells(data, used, a - 1)
  }

  lemma {:induction false} NothingBelow(data: seq<Byte>, used: seq<bool>, a: nat, b: nat)
    requires a <= b <= |data| && b <= |used| && forall k :: a <= k < b ==> !used[k]
    ensures UsedCells(data, used, b) == UsedCells(data, used, a)
  {
    if a < b { NothingBelow(data, used, a, b - 1); }
  }

  lemma {:induction false} HexAllAppend(bs: seq<Byte>, b: Byte)
    ensures HexAll(bs + [b]) == HexAll(bs) + Hex(b)
  {
    if bs == [] {
      assert [b][1..] == [];
    } else {
      HexAllAppend(bs[1..], b);
      assert (bs + [b])[1..] == bs[1..] + [b];
    }
  }

  lemma SumAppend(bs: seq<Byte>, b: Byte)
    ensures Sum(bs + [b]) == Sum(bs) + b
  {
    assert (bs + [b])[..|bs|] == bs;
  }

  /** The running sum and text of a record, i data bytes in. */
  ghost predicate Emitted(h: seq<Byte>, bytes: seq<Byte>, i: nat, sum: nat, digits: string) {
    i <= |bytes| && sum == Sum(h + bytes[..i]) && digits == HexAll(h + bytes[..i])
  }

  lemma EmittedHeader(h: seq<Byte>, bytes: seq<Byte>)
    requires |h| == 4
    ensures Emitted(h, bytes, 0, h[0] as int + h[1] + h[2] + h[3], Hex(h[0]) + Hex(h[1]) + Hex(h[2]) + Hex(h[3]))
  {
    hide Hex, Sum, HexAll;
    HeaderPrefix(h, 0);
    HeaderPrefix(h, 1);
    HeaderPrefix(h, 2);
    HeaderPrefix(h, 3);
    SumNothing();
    assert h[..0] == [];
    assert h + bytes[..0] == h[..4];
  }

  lemma SumNothing()
    ensures Sum([]) == 0 && HexAll([]) == ""
  {
  }

  lemma HeaderPrefix(h: seq<Byte>, i: nat)
    requires i < |h|
    ensures Sum(h[..i + 1]) == Sum(h[..i]) + h[i] && HexAll(h[..i + 1]) == HexAll(h[..i]) + Hex(h[i])
  {
    assert h[..i + 1] == h[..i] + [h[i]];
    SumAppend(h[..i], h[i]);
    HexAllAppend(h[..i], h[i]);
  }

  lemma EmittedOne(h: seq<Byte>, bytes: seq<Byte>, i: nat, sum: nat, digits: string)
    requires Emitted(h, bytes, i, sum, digits) && i < |bytes|
    ensures Emitted(h, bytes, i + 1, sum + bytes[i], digits + Hex(bytes[i]))
  {
    hide Hex, HexAll, Sum;
    SumAppend(h + bytes[..i], bytes[i]);
    HexAllAppend(h + bytes[..i], bytes[i]);
    assert h + bytes[..i] + [bytes[i]] == h + bytes[..i + 1];
  }

  lemma EmittedLine(h: seq<Byte>, bytes: seq<Byte>, sum: nat, digits: string)
    requires Emitted(h, bytes, |bytes|, sum, digits)
    ensures ":" + digits + Hex((256 - sum % 256) % 256) + "\n" == Line(Sealed(h + bytes))
  {
    assert bytes[..|bytes|] == bytes;
    HexAllAppend(h + bytes, Checksum(h + bytes));
  }

  /** Prints one record, adding up its bytes on the way. */
  method EmitRecord(start: nat, kind: Byte, bytes: seq<Byte>) returns (text: string)
    requires start < 65536 && |bytes| < 256
    ensures text == Line(Sealed(Header(|bytes|, start, kind) + bytes))
  {
    hide Emitted, Hex, Sealed, Line;
    ghost var h := Header(|bytes|, start, kind);
    EmittedHeader(h, bytes);
    var sum: nat := |bytes| + start / 256 + start % 256 + kind;
    var digits := Hex(|bytes|) + Hex(start / 256) + Hex(start % 256) + Hex(kind);
    var i := 0;
    while i < |bytes|
      invariant 0 <= i <= |bytes| && Emitted(h, bytes, i, sum, digits)
    {
      EmittedOne(h, bytes, i, sum, digits);
      digits := digits + Hex(bytes[i]);
      sum := sum + bytes[i];
      i := i + 1;
    }
    EmittedLine(h, bytes, sum, digits);
    var checksum := (256 - sum % 256) % 256;
    text := ":" + digits + Hex(checksum) + "\n";
  }

  class Image {
    const data: array<Byte>
    const used: array<bool>
    var hasData: bool
    var minAddr: nat
    var maxAddr: nat

    /** Used addresses lie between the two bounds, which are used themselves. */
    ghost predicate Valid()
      reads this, used
    {
      && data.Length == used.Length == 65536
      && (hasData ==> minAddr <= maxAddr < 65536 && used[minAddr] && used[maxAddr])
      && forall a :: 0 <= a < 65536 && used[a] ==> hasData && minAddr <= a <= maxAddr
    }

    ghost function Contents(): map<int, Byte>
      reads this, data, used
      requires Valid()
    {
      map a | 0 <= a < 65536 && used[a] :: data[a]
    }

    constructor ()
      ensures Valid() && Contents() == map[] && fresh(data) && fresh(used)
    {
      data := new Byte[65536](_ => 0);
      used := new bool[65536](_ => false);
      hasData := false;
      minAddr := 0;
      maxAddr := 0;
    }

    /** Refuses addresses outside the image; otherwise the byte replaces what was there. */
    method WriteByte(addr: int, value: Byte) returns (ok: bool)
      requires Valid()
      modifies this, data, used
      ensures Valid() && ok == (0 <= addr < 65536)
      ensures Contents() == if ok then old(Contents())[addr := value] else old(Contents())
    {
      if addr < 0 || addr >= 65536 {
        return false;
      }
      data[addr] := value;
      used[addr] := true;
      if !hasData {
        hasData, minAddr, maxAddr := true, addr, addr;
      } else {
        if addr < minAddr {
          minAddr := addr;
        }
        if addr > maxAddr {
          maxAddr := addr;
        }
      }
      return true;
    }

    /** Prints the bytes in use, sixteen to a record at most. */
    method Dump() returns (text: string)
      requires Valid()
      ensures ReadsBack(data[..], used[..], text)
    {
      text := "";
      ghost var d, u, rs := data[..], used[..], [];
      var addr := 0;
      if hasData {
        addr := minAddr;
        NothingBelow(d, u, 0, addr);
        while addr <= maxAddr
          invariant minAddr <= addr <= maxAddr + 1 && Dumped(d, u, rs, text, addr)
        {
          ghost var from := addr;
          while addr <= maxAddr && !used[addr]
            invariant from <= addr <= maxAddr + 1 && forall k :: from <= k < addr ==> !u[k]
          {
            addr := addr + 1;
          }
          hide UsedCells, RecordsText, AllCells, Line, Sealed, AllShort, Filled;
          DumpedSkip(d, u, rs, text, from, addr);
          if addr > maxAddr {
            break;
          }
          var start, bytes := addr, [];
          while addr <= maxAddr && used[addr] && |bytes| < 16
            invariant start <= addr <= maxAddr + 1 && |bytes| == addr - start <= 16
            invariant addr == start ==> used[addr]
            invariant bytes == d[start..addr] && forall k :: start <= k < addr ==> u[k]
          {
            bytes := bytes + [data[addr]];
            addr := addr + 1;
          }
          var line := EmitRecord(start, 0, bytes);
          DumpedRecord(d, u, rs, text, Record(start, bytes), addr);
          text := text + line;
          rs := rs + [Record(start, bytes)];
        }
        hide Valid;
        DumpedSkip(d, u, rs, text, addr, 65536);
      } else {
        NothingBelow(d, u, addr, 65536);
      }
      var end := EmitRecord(0, 1, []);
      hide *;
      EndLine();
      DumpedEnd(d, u, rs, text);
      text := text + end;
    }
  }

  /** Records end only after sixteen bytes or where the bytes in use do. */
  ghost predicate Filled(rs: seq<Record>, used: seq<bool>) {
    forall r :: r in rs ==> |r.bytes| == 16 || EndsAt(used, r.start + |r.bytes|)
  }

  predicate EndsAt(used: seq<bool>, a: nat) {
    a >= |used| || !used[a]
  }

  /** Reading the text yields exactly the bytes in use, each once and in ascending order, in records of
      one to sixteen bytes, of sixteen wherever there are that many. */
  ghost predicate ReadsBack(data: seq<Byte>, used: seq<bool>, text: string)
    requires |data| == |used|
  {
    && ReadFile(text).Some? && AllShort(ReadFile(text).value) && Filled(ReadFile(text).value, used)
    && AllCells(ReadFile(text).value) == UsedCells(data, used, |data|)
  }

  /** The records rs, whose text this is, hold the bytes in use below a. */
  ghost predicate Dumped(data: seq<Byte>, used: seq<bool>, rs: seq<Record>, text: string, a: nat) {
    && a <= |data| == |used| == 65536 && AllShort(rs) && Filled(rs, used)
    && text == RecordsText(rs) && AllCells(rs) == UsedCells(data, used, a)
  }

  lemma DumpedSkip(data: seq<Byte>, used: seq<bool>, rs: seq<Record>, text: string, a: nat, b: nat)
    requires Dumped(data, used, rs, text, a) && a <= b <= |data| && forall k :: a <= k < b ==> !used[k]
    ensures Dumped(data, used, rs, text, b)
  {
    NothingBelow(data, used, a, b);
  }

  lemma DumpedRecord(data: seq<Byte>, used: seq<bool>, rs: seq<Record>, text: string, r: Record, b: nat)
    requires Dumped(data, used, rs, text, r.start) && r.start < b <= |data| && b - r.start <= 16
    requires r.bytes == data[r.start..b] && forall k :: r.start <= k < b ==> used[k]
    requires b - r.start == 16 || EndsAt(used, b)
    ensures Short(r) && Dumped(data, used, rs + [r], text + RecordText(r), b)
  {
    RecordsTextAppend(rs, r);
    AllCellsAppend(rs, r);
    AllUsed(data, used, r.start, b);
    FilledAppend(rs, r, used);
    hide RecordsText, RecordText, AllCells, UsedCells, CellsOf, Filled, EndsAt;
  }

  lemma FilledAppend(rs: seq<Record>, r: Record, used: seq<bool>)
    requires Filled(rs, used) && (|r.bytes| == 16 || EndsAt(used, r.start + |r.bytes|))
    ensures Filled(rs + [r], used)
  {
  }

  lemma {:induction false} AllUsed(data: seq<Byte>, used: seq<bool>, a: nat, b: nat)
    requires a <= b <= |data| == |used| && forall k :: a <= k < b ==> used[k]
    ensures UsedCells(data, used, b) == UsedCells(data, used, a) + CellsOf(Record(a, data[a..b]))
  {
    if a < b {
      AllUsed(data, used, a, b - 1);
      CellsOfAppend(a, data[a..b - 1], data[b - 1]);
      assert data[a..b] == data[a..b - 1] + [data[b - 1]];
    }
  }

  lemma DumpedEnd(data: seq<Byte>, used: seq<bool>, rs: seq<Record>, text: string)
    requires Dumped(data, used, rs, text, 65536)
    ensures ReadsBack(data, used, text + EndText())
  {
    FileBack(rs);
  }

  lemma EndLine()
    ensures EndText() == Line(Sealed(Header(0, 0, 1) + []))
  {
    assert Header(0, 0, 1) + [] == Header(0, 0, 1);
  }

  lemma CellsOfAppend(start: nat, bs: seq<Byte>, b: Byte)
    ensures CellsOf(Record(start, bs + [b])) == CellsOf(Record(start, bs)) + [Cell(start + |bs|, b)]
  {
  }

  lemma AllCellsAppend(rs: seq<Record>, r: Record)
    ensures AllCells(rs + [r]) == AllCells(rs) + CellsOf(r)
  {
    assert (rs + [r])[..|rs|] == rs;
  }
}
