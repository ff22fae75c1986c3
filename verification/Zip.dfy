// The stored-only ZIP writer and reader of the page script. Names are their UTF-8 bytes.
// Layouts: sections 4.3.7, 4.3.12 and 4.3.16 of PKWARE APPNOTE.TXT.

module Zip {
  import opened Crc
  import opened CrcRegisters

  type Byte = x: int | 0 <= x < 256

  datatype Entry = Entry(name: seq<Byte>, data: seq<Byte>)

  /** null, a DataView RangeError, or the files found */
  datatype Parsed = NoDirectory | OutOfRange | Files(files: map<seq<Byte>, seq<Byte>>)

  // ---- little-endian fields; larger values are truncated ----

  function U16(v: nat): (r: seq<Byte>) {
    [v % 256, (v / 256) % 256]
  }

  function U32(v: nat): (r: seq<Byte>) {
    [v % 256, (v / 256) % 256, (v / 65536) % 256, (v / 16777216) % 256]
  }

  function GetUint16(s: seq<Byte>, p: nat): (v: nat)
    requires p + 2 <= |s|
  {
    s[p] as int + 256 * s[p + 1] as int
  }

  function GetUint32(s: seq<Byte>, p: nat): (v: nat)
    requires p + 4 <= |s|
  {
    s[p] as int + 256 * s[p + 1] as int + 65536 * s[p + 2] as int + 16777216 * s[p + 3] as int
  }

  lemma U16ReadsBack(v: nat)
    requires v < 0x10000
    ensures GetUint16(U16(v), 0) == v
  {
  }

  lemma U32ReadsBack(v: nat)
    requires v < 0x1_0000_0000
    ensures GetUint32(U32(v), 0) == v
  {
    assert v / 65536 == (v / 256) / 256 && v / 16777216 == (v / 65536) / 256;
  }

  /** Reading inside a part of a larger buffer. */
  lemma ReadInside(a: seq<Byte>, h: seq<Byte>, b: seq<Byte>, k: nat)
    ensures k + 2 <= |h| ==> GetUint16(a + h + b, |a| + k) == GetUint16(h, k)
    ensures k + 4 <= |h| ==> GetUint32(a + h + b, |a| + k) == GetUint32(h, k)
  {
    assert forall i :: 0 <= i < |h| ==> (a + h + b)[|a| + i] == h[i];
  }

  // ---- the layout buildZip writes ----

  function BytesToBits(data: seq<Byte>): seq<bv8> {
    if data == [] then [] else BytesToBits(data[..|data| - 1]) + [data[|data| - 1] as bv8]
  }

  function Checksum(data: seq<Byte>): (r: nat)
    ensures r < 0x1_0000_0000
  {
    BitSerialCrc(BytesToBits(data)) as int
  }

  /** The DOS time and date fields. */
  datatype Stamp = Stamp(time: nat, date: nat)

  function LocalHeader(e: Entry, t: Stamp, crc: nat): (h: seq<Byte>)
    ensures |h| == 30
  {
    (U32(0x04034b50) + U16(20) + U16(0) + U16(0) + U16(t.time) + U16(t.date)
     + U32(crc) + U32(|e.data|) + U32(|e.data|)) + U16(|e.name|) + U16(0)
  }

  function CentralHeader(e: Entry, t: Stamp, crc: nat, offset: nat): (h: seq<Byte>)
    ensures |h| == 46
  {
    (U32(0x02014b50) + U16(20) + U16(20) + U16(0)) + U16(0) + (U16(t.time) + U16(t.date) + U32(crc))
    + U32(|e.data|) + U32(|e.data|) + U16(|e.name|) + U16(0) + U16(0) + (U16(0) + U16(0) + U32(0)) + U32(offset)
  }

  function EndOfDirectory(count: nat, size: nat, offset: nat): (h: seq<Byte>)
    ensures |h| == 22
  {
    U32(0x06054b50) + U16(0) + U16(0) + U16(count) + U16(count) + U32(size) + U32(offset) + U16(0)
  }

  /** How each piece of an archive is rendered. */
  datatype Layout = Layout(local: Entry -> seq<Byte>, central: (Entry, nat) -> seq<Byte>, end: (nat, nat, nat) -> seq<Byte>)

  function ZipLayout(t: Stamp): Layout {
    Layout((e: Entry) => LocalHeader(e, t, Checksum(e.data)) + e.name + e.data,
           (e: Entry, offset: nat) => CentralHeader(e, t, Checksum(e.data), offset) + e.name,
           EndOfDirectory)
  }

  function Locals(y: Layout, es: seq<Entry>): seq<Byte> {
    if es == [] then [] else Locals(y, es[..|es| - 1]) + y.local(es[|es| - 1])
  }

  function Centrals(y: Layout, es: seq<Entry>): seq<Byte> {
    if es == [] then []
    else Centrals(y, es[..|es| - 1]) + y.central(es[|es| - 1], |Locals(y, es[..|es| - 1])|)
  }

  function Archive(y: Layout, es: seq<Entry>): seq<Byte> {
    Locals(y, es) + Centrals(y, es) + y.end(|es|, |Centrals(y, es)|, |Locals(y, es)|)
  }

  // ---- what parseZip computes ----

  predicate EndSignatureAt(buf: seq<Byte>, p: int)
    requires 0 <= p && p + 4 <= |buf|
  {
    buf[p] == 0x50 && buf[p + 1] == 0x4b && buf[p + 2] == 0x05 && buf[p + 3] == 0x06
  }

  /** The last signature at or before `p`, or -1. */
  function LastSignature(buf: seq<Byte>, p: int): (r: int)
    requires p + 22 <= |buf|
    ensures -1 <= r <= p || r == -1
  {
    if p < 0 then -1 else if EndSignatureAt(buf, p) then p else LastSignature(buf, p - 1)
  }

  /** ArrayBuffer.slice clamps both ends. */
  function Slice(buf: seq<Byte>, a: nat, b: nat): seq<Byte> {
    var from, to := if a <= |buf| then a else |buf|, if b <= |buf| then b else |buf|;
    if from <= to then buf[from..to] else []
  }

  /** What the reader makes of one directory record: stop, fail, or go on with an entry or a skipped one. */
  datatype Step = Stop | Fail | Take(name: seq<Byte>, data: seq<Byte>, next: nat) | Skip(next: nat)

  function StepAt(buf: seq<Byte>, p: nat): (s: Step)
    ensures (s.Take? || s.Skip?) ==> p + 46 <= |buf| && p < s.next
  {
    if p + 4 > |buf| then Fail
    else if GetUint32(buf, p) != 0x02014b50 then Stop
    else if p + 46 > |buf| then Fail
    else StepOn(buf, p, GetUint16(buf, p + 10), p + 46 + GetUint16(buf, p + 28),
                GetUint16(buf, p + 30) + GetUint16(buf, p + 32), GetUint32(buf, p + 42), GetUint32(buf, p + 20))
  }

  function StepOn(buf: seq<Byte>, p: nat, stored: nat, nameEnd: nat, rest: nat, off: nat, size: nat): (s: Step) {
    if stored != 0 then Skip(nameEnd + rest)
    else if off + 30 > |buf| then Fail
    else
      var start := off + 30 + GetUint16(buf, off + 26) + GetUint16(buf, off + 28);
      Take(Slice(buf, p + 46, nameEnd), Slice(buf, start, start + size), nameEnd + rest)
  }

  /** Walks the central directory from `p`; only stored entries are taken. */
  function Walk(buf: seq<Byte>, p: nat, end: nat, files: map<seq<Byte>, seq<Byte>>): Parsed
    decreases |buf| - p
  {
    if p >= end then Files(files)
    else match StepAt(buf, p)
      case Stop => Files(files)
      case Fail => OutOfRange
      case Take(name, data, next) => Walk(buf, next, end, files[name := data])
      case Skip(next) => Walk(buf, next, end, files)
  }

  function Parse(buf: seq<Byte>): Parsed {
    if |buf| < 22 then NoDirectory
    else
      var pos := LastSignature(buf, |buf| - 22);
      if pos < 0 then NoDirectory
      else
        var off := GetUint32(buf, pos + 16);
        Walk(buf, off, off + GetUint32(buf, pos + 12), map[])
  }

  // ---- the script's loops ----

  method BuildZip(es: seq<Entry>, t: Stamp) returns (blob: seq<Byte>)
    ensures blob == Archive(ZipLayout(t), es)
  {
    var table := CrcTable();
    var parts, central := PackEntries(table, es, t, ZipLayout(t));
    blob := parts + central + EndOfDirectory(|es|, |central|, |parts|);
  }

  method PackEntries(table: map<bv32, bv32>, es: seq<Entry>, t: Stamp, ghost y: Layout)
    returns (parts: seq<Byte>, central: seq<Byte>)
    requires IsTable(CRC32, table) && y == ZipLayout(t)
    ensures parts == Locals(y, es) && central == Centrals(y, es)
  {
    parts, central := [], [];
    var offset := 0;
    for i := 0 to |es|
      invariant parts == Locals(y, es[..i]) && central == Centrals(y, es[..i]) && offset == |parts|
    {
      var local, record := PackEntry(table, es[i], t, offset);
      assert es[..i + 1][..i] == es[..i];
      parts, central := parts + local, central + record;
      offset := offset + |local|;
    }
    assert es[..|es|] == es;
  }

  method PackEntry(table: map<bv32, bv32>, e: Entry, t: Stamp, offset: nat) returns (local: seq<Byte>, record: seq<Byte>)
    requires IsTable(CRC32, table)
    ensures local == ZipLayout(t).local(e) && record == ZipLayout(t).central(e, offset)
  {
    var bits := Crc32(table, BytesToBits(e.data));
    var crc := bits as int;
    local := LocalHeader(e, t, crc) + e.name + e.data;
    record := CentralHeader(e, t, crc, offset) + e.name;
  }

  method ParseZip(buf: seq<Byte>) returns (r: Parsed)
    ensures r == Parse(buf)
  {
    if |buf| < 22 { return NoDirectory; }
    var pos := |buf| - 22;
    while pos >= 0 && !EndSignatureAt(buf, pos)
      invariant -1 <= pos <= |buf| - 22
      invariant LastSignature(buf, |buf| - 22) == LastSignature(buf, pos)
    {
      pos := pos - 1;
    }
    if pos < 0 { return NoDirectory; }
    var cdOff, cdSz := GetUint32(buf, pos + 16), GetUint32(buf, pos + 12);
    r := ReadDirectory(buf, cdOff, cdOff + cdSz);
  }

  method ReadDirectory(buf: seq<Byte>, start: nat, end: nat) returns (r: Parsed)
    ensures r == Walk(buf, start, end, map[])
  {
    var p, files: map<seq<Byte>, seq<Byte>> := start, map[];
    while p < end
      invariant Walk(buf, p, end, files) == Walk(buf, start, end, map[])
      decreases |buf| - p
    {
      var step := ReadRecord(buf, p);
      match step {
        case Stop => break;
        case Fail => return OutOfRange;
        case Take(name, data, next) => p, files := next, files[name := data];
        case Skip(next) => p := next;
      }
    }
    r := Files(files);
  }

  method ReadRecord(buf: seq<Byte>, p: nat) returns (s: Step)
    ensures s == StepAt(buf, p)
  {
    if p + 4 > |buf| { return Fail; }
    if GetUint32(buf, p) != 0x02014b50 { return Stop; }
    if p + 46 > |buf| { return Fail; }
    var fnLen, exLen, cmtLen := GetUint16(buf, p + 28), GetUint16(buf, p + 30), GetUint16(buf, p + 32);
    var lOff, cmpSz := GetUint32(buf, p + 42), GetUint32(buf, p + 20);
    var name := Slice(buf, p + 46, p + 46 + fnLen);
    s := Skip(p + 46 + fnLen + exLen + cmtLen);
    if GetUint16(buf, p + 10) == 0 {
      if lOff + 30 > |buf| { return Fail; }
      var lFn, lEx := GetUint16(buf, lOff + 26), GetUint16(buf, lOff + 28);
      s := Take(name, Slice(buf, lOff + 30 + lFn + lEx, lOff + 30 + lFn + lEx + cmpSz), s.next);
    }
  }

  // ---- reading back what was written ----

  /** The fields the reader takes from a directory record. */
  ghost predicate IsRecord(part: seq<Byte>, e: Entry, offset: nat) {
    && |part| == 46 + |e.name| && part[46..] == e.name
    && GetUint32(part, 0) == 0x02014b50 && GetUint16(part, 10) == 0 && GetUint32(part, 20) == |e.data|
    && GetUint16(part, 28) == |e.name| && GetUint16(part, 30) == 0 && GetUint16(part, 32) == 0
    && GetUint32(part, 42) == offset
  }

  ghost predicate IsLocal(part: seq<Byte>, e: Entry) {
    && |part| == 30 + |e.name| + |e.data| && part[30 + |e.name|..] == e.data
    && GetUint16(part, 26) == |e.name| && GetUint16(part, 28) == 0
  }

  ghost predicate IsEnd(part: seq<Byte>, size: nat, offset: nat) {
    |part| == 22 && GetUint32(part, 12) == size && GetUint32(part, 16) == offset && EndSignatureAt(part, 0)
  }

  /** Every piece carries, within the field limits, what the reader needs. */
  ghost predicate Readable(y: Layout) {
    && (forall e: Entry, offset: nat :: |e.name| < 0x10000 && |e.data| < 0x1_0000_0000 && offset < 0x1_0000_0000
          ==> IsRecord(y.central(e, offset), e, offset))
    && (forall e: Entry :: |e.name| < 0x10000 ==> IsLocal(y.local(e), e))
    && (forall count: nat, size: nat, offset: nat :: size < 0x1_0000_0000 && offset < 0x1_0000_0000
          ==> IsEnd(y.end(count, size, offset), size, offset))
  }

  lemma CentralFields(e: Entry, t: Stamp, crc: nat, offset: nat)
    requires |e.name| < 0x10000 && |e.data| < 0x1_0000_0000 && offset < 0x1_0000_0000
    ensures var h := CentralHeader(e, t, crc, offset);
      && GetUint32(h, 0) == 0x02014b50 && GetUint16(h, 10) == 0 && GetUint32(h, 20) == |e.data|
      && GetUint16(h, 28) == |e.name| && GetUint16(h, 30) == 0 && GetUint16(h, 32) == 0 && GetUint32(h, 42) == offset
  {
    var h := CentralHeader(e, t, crc, offset);
    U32ReadsBack(0x02014b50);
    U32ReadsBack(|e.data|);
    U16ReadsBack(|e.name|);
    U32ReadsBack(offset);
    assert h[0..4] == U32(0x02014b50);
    assert h[10..12] == U16(0);
    assert h[20..24] == U32(|e.data|);
    assert h[28..30] == U16(|e.name|);
    assert h[30..32] == U16(0);
    assert h[32..34] == U16(0);
    assert h[42..46] == U32(offset);
  }

  lemma LocalFields(e: Entry, t: Stamp, crc: nat)
    requires |e.name| < 0x10000
    ensures var h := LocalHeader(e, t, crc); GetUint16(h, 26) == |e.name| && GetUint16(h, 28) == 0
  {
    var h := LocalHeader(e, t, crc);
    U16ReadsBack(|e.name|);
    assert h[26..28] == U16(|e.name|);
    assert h[28..30] == U16(0);
  }

  lemma EndFields(count: nat, size: nat, offset: nat)
    requires size < 0x1_0000_0000 && offset < 0x1_0000_0000
    ensures var h := EndOfDirectory(count, size, offset);
      GetUint32(h, 12) == size && GetUint32(h, 16) == offset && EndSignatureAt(h, 0)
  {
    var h := EndOfDirectory(count, size, offset);
    U32ReadsBack(size);
    U32ReadsBack(offset);
    assert h[0..4] == U32(0x06054b50);
    assert h[12..16] == U32(size);
    assert h[16..20] == U32(offset);
  }

  lemma ZipLayoutReadable(t: Stamp)
    ensures Readable(ZipLayout(t))
  {
    var y := ZipLayout(t);
    forall e: Entry, offset: nat | |e.name| < 0x10000 && |e.data| < 0x1_0000_0000 && offset < 0x1_0000_0000
      ensures IsRecord(y.central(e, offset), e, offset)
    {
      RecordWritten(e, t, offset);
    }
    forall e: Entry | |e.name| < 0x10000 ensures IsLocal(y.local(e), e) { LocalWritten(e, t); }
    forall count: nat, size: nat, offset: nat | size < 0x1_0000_0000 && offset < 0x1_0000_0000
      ensures IsEnd(y.end(count, size, offset), size, offset)
    {
      EndFields(count, size, offset);
    }
  }

  lemma RecordWritten(e: Entry, t: Stamp, offset: nat)
    requires |e.name| < 0x10000 && |e.data| < 0x1_0000_0000 && offset < 0x1_0000_0000
    ensures IsRecord(CentralHeader(e, t, Checksum(e.data), offset) + e.name, e, offset)
  {
    CentralFields(e, t, Checksum(e.data), offset);
    RecordFromHeader(CentralHeader(e, t, Checksum(e.data), offset), e, offset);
  }

  lemma RecordFromHeader(h: seq<Byte>, e: Entry, offset: nat)
    requires |h| == 46
    requires GetUint32(h, 0) == 0x02014b50 && GetUint16(h, 10) == 0 && GetUint32(h, 20) == |e.data|
    requires GetUint16(h, 28) == |e.name| && GetUint16(h, 30) == 0 && GetUint16(h, 32) == 0 && GetUint32(h, 42) == offset
    ensures IsRecord(h + e.name, e, offset)
  {
  }

  lemma LocalWritten(e: Entry, t: Stamp)
    requires |e.name| < 0x10000
    ensures IsLocal(LocalHeader(e, t, Checksum(e.data)) + e.name + e.data, e)
  {
    LocalFields(e, t, Checksum(e.data));
    LocalFromHeader(LocalHeader(e, t, Checksum(e.data)), e);
  }

  lemma LocalFromHeader(h: seq<Byte>, e: Entry)
    requires |h| == 30 && GetUint16(h, 26) == |e.name| && GetUint16(h, 28) == 0
    ensures IsLocal(h + e.name + e.data, e)
  {
  }

  /** The field limits of the format. The entry count field may wrap: the reader does not use it. */
  ghost predicate WithinLimits(y: Layout, es: seq<Entry>) {
    && (forall e: Entry :: e in es ==> |e.name| < 0x10000)
    && |Locals(y, es)| < 0x1_0000_0000 && |Centrals(y, es)| < 0x1_0000_0000
  }

  /** Each name with its bytes; of equal names the last one counts. */
  function Contents(es: seq<Entry>): map<seq<Byte>, seq<Byte>> {
    if es == [] then map[] else Contents(es[..|es| - 1])[es[|es| - 1].name := es[|es| - 1].data]
  }

  /** What is kept under a name is the data of the last entry carrying it, and nothing else is kept. */
  lemma {:induction false} LastEntryWins(es: seq<Entry>, name: seq<Byte>)
    ensures name in Contents(es) <==> exists i :: 0 <= i < |es| && es[i].name == name
    ensures forall i :: 0 <= i < |es| && es[i].name == name && (forall j :: i < j < |es| ==> es[j].name != name)
              ==> Contents(es)[name] == es[i].data
  {
    if es != [] {
      var init := es[..|es| - 1];
      LastEntryWins(init, name);
      assert forall i :: 0 <= i < |init| ==> es[i] == init[i];
      assert es[|es| - 1].name == name ==> exists i :: 0 <= i < |es| && es[i].name == name;
    }
  }

  ghost predicate RecordAt(buf: seq<Byte>, p: nat, e: Entry, offset: nat) {
    && p + 46 <= |buf| && Slice(buf, p + 46, p + 46 + |e.name|) == e.name
    && GetUint32(buf, p) == 0x02014b50 && GetUint16(buf, p + 10) == 0 && GetUint32(buf, p + 20) == |e.data|
    && GetUint16(buf, p + 28) == |e.name| && GetUint16(buf, p + 30) == 0 && GetUint16(buf, p + 32) == 0
    && GetUint32(buf, p + 42) == offset
  }

  ghost predicate LocalAt(buf: seq<Byte>, p: nat, e: Entry) {
    && p + 30 <= |buf| && GetUint16(buf, p + 26) == |e.name| && GetUint16(buf, p + 28) == 0
    && Slice(buf, p + 30 + |e.name|, p + 30 + |e.name| + |e.data|) == e.data
  }

  lemma RecordInside(a: seq<Byte>, record: seq<Byte>, b: seq<Byte>, e: Entry, offset: nat)
    requires IsRecord(record, e, offset)
    ensures RecordAt(a + record + b, |a|, e, offset)
  {
    ReadInside(a, record, b, 0);
    ReadInside(a, record, b, 10);
    ReadInside(a, record, b, 20);
    ReadInside(a, record, b, 28);
    ReadInside(a, record, b, 30);
    ReadInside(a, record, b, 32);
    ReadInside(a, record, b, 42);
    SliceInside(a, record, b, 46, |record|);
  }

  lemma LocalInside(c: seq<Byte>, local: seq<Byte>, d: seq<Byte>, e: Entry)
    requires IsLocal(local, e)
    ensures LocalAt(c + local + d, |c|, e)
  {
    ReadInside(c, local, d, 26);
    ReadInside(c, local, d, 28);
    SliceInside(c, local, d, 30 + |e.name|, |local|);
  }

  /** One directory record, wherever it and its local part are in the buffer. */
  lemma StepReadsEntry(buf: seq<Byte>, p: nat, e: Entry, offset: nat)
    requires RecordAt(buf, p, e, offset) && LocalAt(buf, offset, e)
    ensures StepAt(buf, p) == Take(e.name, e.data, p + 46 + |e.name|)
  {
    assert StepAt(buf, p) == StepOn(buf, p, 0, p + 46 + |e.name|, 0, offset, |e.data|);
  }

  lemma SliceInside(a: seq<Byte>, h: seq<Byte>, b: seq<Byte>, i: nat, j: nat)
    requires i <= j <= |h|
    ensures Slice(a + h + b, |a| + i, |a| + j) == h[i..j]
  {
  }

  lemma {:induction false} LocalsSplit(y: Layout, es: seq<Entry>, i: nat) returns (rest: seq<Byte>)
    requires i < |es|
    ensures Locals(y, es) == Locals(y, es[..i]) + y.local(es[i]) + rest
  {
    if i == |es| - 1 {
      rest := [];
    } else {
      var init := es[..|es| - 1];
      rest := LocalsSplit(y, init, i);
      assert init[..i] == es[..i];
      rest := rest + y.local(es[|es| - 1]);
    }
  }

  lemma {:induction false} CentralsSplit(y: Layout, es: seq<Entry>, i: nat) returns (rest: seq<Byte>)
    requires i < |es|
    ensures Centrals(y, es) == Centrals(y, es[..i]) + y.central(es[i], |Locals(y, es[..i])|) + rest
  {
    if i == |es| - 1 {
      rest := [];
    } else {
      var init, last := es[..|es| - 1], es[|es| - 1];
      rest := CentralsSplit(y, init, i);
      assert init[..i] == es[..i];
      rest := rest + y.central(last, |Locals(y, init)|);
    }
  }

  /** Where record `i` ends. */
  ghost function Position(y: Layout, es: seq<Entry>, i: nat): nat
    requires i <= |es|
  {
    |Locals(y, es)| + |Centrals(y, es[..i])|
  }

  ghost predicate ReadsEntry(buf: seq<Byte>, y: Layout, es: seq<Entry>, i: nat)
    requires i < |es|
  {
    StepAt(buf, Position(y, es, i)) == Take(es[i].name, es[i].data, Position(y, es, i + 1))
  }

  lemma {:induction false} PositionsGrow(y: Layout, es: seq<Entry>, i: nat, j: nat)
    requires i <= j <= |es|
    ensures Position(y, es, i) <= Position(y, es, j)
  {
    if i < j {
      PositionsGrow(y, es, i, j - 1);
      assert es[..j][..j - 1] == es[..j - 1];
    }
  }

  lemma EntryReadable(y: Layout, es: seq<Entry>, i: nat)
    requires Readable(y) && WithinLimits(y, es) && i < |es|
    ensures IsRecord(y.central(es[i], |Locals(y, es[..i])|), es[i], |Locals(y, es[..i])|) && IsLocal(y.local(es[i]), es[i])
  {
    var e := es[i];
    var afterLocal := LocalsSplit(y, es, i);
    assert e in es;
    assert IsLocal(y.local(e), e);
  }

  /** Splitting at record and local part `i` is all the step needs. */
  lemma StepAtPieces(buf: seq<Byte>, a: seq<Byte>, record: seq<Byte>, b: seq<Byte>,
                     c: seq<Byte>, local: seq<Byte>, d: seq<Byte>, e: Entry)
    requires buf == a + record + b && buf == c + local + d
    requires IsRecord(record, e, |c|) && IsLocal(local, e)
    ensures StepAt(buf, |a|) == Take(e.name, e.data, |a| + |record|)
  {
    RecordInside(a, record, b, e, |c|);
    LocalInside(c, local, d, e);
    StepReadsEntry(buf, |a|, e, |c|);
  }

  /** Where record `i` and local part `i` are in the archive. */
  lemma PiecesAt(y: Layout, es: seq<Entry>, i: nat, buf: seq<Byte>, end: seq<Byte>)
    returns (a: seq<Byte>, b: seq<Byte>, c: seq<Byte>, d: seq<Byte>)
    requires i < |es| && buf == Locals(y, es) + Centrals(y, es) + end
    ensures c == Locals(y, es[..i]) && |a| == Position(y, es, i)
    ensures buf == a + y.central(es[i], |c|) + b && buf == c + y.local(es[i]) + d
  {
    var locals, centrals, before := Locals(y, es), Centrals(y, es), Centrals(y, es[..i]);
    c := Locals(y, es[..i]);
    var afterLocal := LocalsSplit(y, es, i);
    var afterRecord := CentralsSplit(y, es, i);
    PiecesTogether(locals, centrals, end, before, y.central(es[i], |c|), afterRecord, c, y.local(es[i]), afterLocal);
    a, b, d := locals + before, afterRecord + end, afterLocal + centrals + end;
  }

  lemma StepAtEntry(y: Layout, es: seq<Entry>, i: nat, buf: seq<Byte>, end: seq<Byte>)
    requires i < |es| && buf == Locals(y, es) + Centrals(y, es) + end
    requires IsRecord(y.central(es[i], |Locals(y, es[..i])|), es[i], |Locals(y, es[..i])|) && IsLocal(y.local(es[i]), es[i])
    ensures ReadsEntry(buf, y, es, i)
  {
    var a, b, c, d := PiecesAt(y, es, i, buf, end);
    StepAtPieces(buf, a, y.central(es[i], |c|), b, c, y.local(es[i]), d, es[i]);
    NextPosition(y, es, i);
  }

  lemma NextPosition(y: Layout, es: seq<Entry>, i: nat)
    requires i < |es|
    ensures Position(y, es, i + 1) == Position(y, es, i) + |y.central(es[i], |Locals(y, es[..i])|)|
  {
    assert es[..i + 1][..i] == es[..i];
  }

  lemma PiecesTogether(locals: seq<Byte>, centrals: seq<Byte>, end: seq<Byte>, before: seq<Byte>, record: seq<Byte>,
                       afterRecord: seq<Byte>, c: seq<Byte>, local: seq<Byte>, afterLocal: seq<Byte>)
    requires locals == c + local + afterLocal && centrals == before + record + afterRecord
    ensures locals + centrals + end == (locals + before) + record + (afterRecord + end)
    ensures locals + centrals + end == c + local + (afterLocal + centrals + end)
  {
  }

  ghost predicate AllRead(buf: seq<Byte>, y: Layout, es: seq<Entry>) {
    forall i :: 0 <= i < |es| ==> ReadsEntry(buf, y, es, i)
  }

  lemma AllStepsRead(y: Layout, es: seq<Entry>, end: seq<Byte>)
    requires Readable(y) && WithinLimits(y, es)
    ensures AllRead(Locals(y, es) + Centrals(y, es) + end, y, es)
  {
    var buf := Locals(y, es) + Centrals(y, es) + end;
    forall i | 0 <= i < |es| ensures ReadsEntry(buf, y, es, i) {
      EntryReadable(y, es, i);
      StepAtEntry(y, es, i, buf, end);
    }
  }

  lemma {:induction false} WalkReadsRest(buf: seq<Byte>, y: Layout, es: seq<Entry>, i: nat)
    requires i <= |es| && AllRead(buf, y, es)
    ensures Walk(buf, Position(y, es, i), Position(y, es, |es|), Contents(es[..i])) == Files(Contents(es))
    decreases |es| - i
  {
    if i == |es| {
      assert es[..i] == es;
    } else {
      assert ReadsEntry(buf, y, es, i);
      PositionsGrow(y, es, i + 1, |es|);
      WalkReadsRest(buf, y, es, i + 1);
      assert es[..i + 1][..i] == es[..i];
    }
  }

  /** The end record leads the reader to a directory of that size at that offset. */
  ghost predicate LeadsTo(buf: seq<Byte>, offset: nat, size: nat) {
    Parse(buf) == Walk(buf, offset, offset + size, map[])
  }

  lemma EndReadsBack(front: seq<Byte>, end: seq<Byte>, size: nat, offset: nat)
    requires IsEnd(end, size, offset)
    ensures LeadsTo(front + end, offset, size)
  {
    var buf := front + end;
    assert buf == front + end + [];
    ReadInside(front, end, [], 12);
    ReadInside(front, end, [], 16);
    assert EndSignatureAt(buf, |buf| - 22);
  }

  lemma EndLeadsToDirectory(y: Layout, es: seq<Entry>)
    requires Readable(y) && WithinLimits(y, es)
    ensures LeadsTo(Archive(y, es), |Locals(y, es)|, |Centrals(y, es)|)
  {
    var locals, centrals := |Locals(y, es)|, |Centrals(y, es)|;
    var end := y.end(|es|, centrals, locals);
    assert IsEnd(end, centrals, locals);
    EndReadsBack(Locals(y, es) + Centrals(y, es), end, centrals, locals);
  }

  lemma DirectoryReadsBack(y: Layout, es: seq<Entry>, buf: seq<Byte>)
    requires AllRead(buf, y, es) && LeadsTo(buf, |Locals(y, es)|, |Centrals(y, es)|)
    ensures Parse(buf) == Files(Contents(es))
  {
    WalkReadsRest(buf, y, es, 0);
    WalkStarts(y, es);
    SameWalk(buf, Position(y, es, 0), Position(y, es, |es|), |Locals(y, es)|, |Centrals(y, es)|, Contents(es[..0]), Files(Contents(es)));
  }

  lemma WalkStarts(y: Layout, es: seq<Entry>)
    ensures Position(y, es, 0) == |Locals(y, es)| && Position(y, es, |es|) == |Locals(y, es)| + |Centrals(y, es)|
    ensures Contents(es[..0]) == map[]
  {
    assert es[..0] == [] && es[..|es|] == es;
  }

  lemma SameWalk(buf: seq<Byte>, p: nat, end: nat, offset: nat, size: nat, files: map<seq<Byte>, seq<Byte>>, r: Parsed)
    requires LeadsTo(buf, offset, size) && p == offset && end == offset + size && files == map[]
    requires Walk(buf, p, end, files) == r
    ensures Parse(buf) == r
  {
  }

  /** Reading an archive returns every name with its exact bytes, for any readable layout. */
  lemma ArchiveReadsBack(y: Layout, es: seq<Entry>)
    requires Readable(y) && WithinLimits(y, es)
    ensures Parse(Archive(y, es)) == Files(Contents(es))
  {
    AllStepsRead(y, es, y.end(|es|, |Centrals(y, es)|, |Locals(y, es)|));
    EndLeadsToDirectory(y, es);
    DirectoryReadsBack(y, es, Archive(y, es));
  }

  /** parseZip(buildZip(entries)) returns every name with its exact bytes. */
  lemma RoundTrip(es: seq<Entry>, t: Stamp)
    requires WithinLimits(ZipLayout(t), es)
    ensures Parse(Archive(ZipLayout(t), es)) == Files(Contents(es))
  {
    ZipLayoutReadable(t);
    ArchiveReadsBack(ZipLayout(t), es);
  }
}
