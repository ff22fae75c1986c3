// Every field of the three kinds of headers buildZip writes, at its place in sections 4.3.7, 4.3.12 and 4.3.16 of
// PKWARE APPNOTE.TXT, and the check value of the checksum.

module ZipFields {
  import opened Crc
  import opened CrcRegisters
  import opened Zip

  /** Two bytes, least significant first. */
  lemma TwoBytes(a: Byte, b: Byte)
    ensures U16(a + 256 * b) == [a, b] && GetUint16([a, b], 0) == a + 256 * b
  {
  }

  /** Four bytes, least significant first. */
  lemma FourBytes(a: Byte, b: Byte, c: Byte, d: Byte)
    ensures U32(a + 256 * b + 65536 * c + 16777216 * d) == [a, b, c, d]
    ensures GetUint32([a, b, c, d], 0) == a + 256 * b + 65536 * c + 16777216 * d
  {
    var v := a + 256 * (b + 256 * (c + 256 * d));
    LowByteOf(a, b + 256 * (c + 256 * d));
    LowByteOf(b, c + 256 * d);
    LowByteOf(c, d);
    Quotients(v);
    assert v == a + 256 * b + 65536 * c + 16777216 * d;
  }

  lemma LowByteOf(a: Byte, rest: nat)
    ensures (a + 256 * rest) % 256 == a && (a + 256 * rest) / 256 == rest
  {
  }

  lemma Quotients(v: nat)
    ensures v / 65536 == (v / 256) / 256 && v / 16777216 == ((v / 256) / 256) / 256
  {
  }

  lemma Read16(h: seq<Byte>, p: nat, v: nat)
    requires v < 0x10000 && p + 2 <= |h| && h[p..p + 2] == U16(v)
    ensures GetUint16(h, p) == v
  {
    U16ReadsBack(v);
    assert h[p] == h[p..p + 2][0] && h[p + 1] == h[p..p + 2][1];
  }

  lemma Read32(h: seq<Byte>, p: nat, v: nat)
    requires v < 0x1_0000_0000 && p + 4 <= |h| && h[p..p + 4] == U32(v)
    ensures GetUint32(h, p) == v
  {
    U32ReadsBack(v);
    assert h[p] == h[p..p + 4][0] && h[p + 1] == h[p..p + 4][1] && h[p + 2] == h[p..p + 4][2] && h[p + 3] == h[p..p + 4][3];
  }

  /** What fits the header fields. */
  predicate InLimits(e: Entry, t: Stamp, offset: nat) {
    && |e.name| < 0x10000 && |e.data| < 0x1_0000_0000 && t.time < 0x10000 && t.date < 0x10000 && offset < 0x1_0000_0000
  }

  /** Signature, version 2.0, no flags, stored; time, date, checksum, both sizes, name length, no extra field. */
  lemma LocalHeaderIs(e: Entry, t: Stamp, crc: nat)
    requires InLimits(e, t, 0) && crc < 0x1_0000_0000
    ensures var h := LocalHeader(e, t, crc);
      && |h| == 30 && h[..10] == [0x50, 0x4b, 3, 4, 20, 0, 0, 0, 0, 0]
      && GetUint16(h, 10) == t.time && GetUint16(h, 12) == t.date && GetUint32(h, 14) == crc
      && GetUint32(h, 18) == |e.data| && GetUint32(h, 22) == |e.data| && GetUint16(h, 26) == |e.name| && GetUint16(h, 28) == 0
  {
    var h := LocalHeader(e, t, crc);
    LocalParts(e, t, crc);
    Read16(h, 10, t.time);
    Read16(h, 12, t.date);
    Read32(h, 14, crc);
    Read32(h, 18, |e.data|);
    Read32(h, 22, |e.data|);
    Read16(h, 26, |e.name|);
    Read16(h, 28, 0);
  }

  lemma LocalParts(e: Entry, t: Stamp, crc: nat)
    ensures var h := LocalHeader(e, t, crc);
      && h[..10] == [0x50, 0x4b, 3, 4, 20, 0, 0, 0, 0, 0]
      && h[10..12] == U16(t.time) && h[12..14] == U16(t.date) && h[14..18] == U32(crc)
      && h[18..22] == U32(|e.data|) && h[22..26] == U32(|e.data|) && h[26..28] == U16(|e.name|) && h[28..30] == U16(0)
  {
    assert U32(0x04034b50) == [0x50, 0x4b, 3, 4] && U16(20) == [20, 0] && U16(0) == [0, 0];
  }

  /** The first 20 bytes of a directory header, and the other 26. */
  function CentralFront(t: Stamp, crc: nat): (h: seq<Byte>)
    ensures |h| == 20
  {
    (U32(0x02014b50) + U16(20) + U16(20) + U16(0)) + U16(0) + (U16(t.time) + U16(t.date) + U32(crc))
  }

  function CentralBack(e: Entry, offset: nat): (h: seq<Byte>)
    ensures |h| == 26
  {
    U32(|e.data|) + U32(|e.data|) + U16(|e.name|) + U16(0) + U16(0) + (U16(0) + U16(0) + U32(0)) + U32(offset)
  }

  lemma Regroup(f: seq<Byte>, a: seq<Byte>, b: seq<Byte>, c: seq<Byte>, d: seq<Byte>, g: seq<Byte>, k: seq<Byte>, m: seq<Byte>)
    ensures f + a + b + c + d + g + k + m == f + (a + b + c + d + g + k + m)
  {
  }

  lemma CentralInTwo(e: Entry, t: Stamp, crc: nat, offset: nat)
    ensures CentralHeader(e, t, crc, offset) == CentralFront(t, crc) + CentralBack(e, offset)
  {
    Regroup(CentralFront(t, crc), U32(|e.data|), U32(|e.data|), U16(|e.name|), U16(0), U16(0), U16(0) + U16(0) + U32(0), U32(offset));
  }

  lemma CentralParts(t: Stamp, crc: nat)
    ensures var h := CentralFront(t, crc);
      && h[..12] == [0x50, 0x4b, 1, 2, 20, 0, 20, 0, 0, 0, 0, 0]
      && h[12..14] == U16(t.time) && h[14..16] == U16(t.date) && h[16..20] == U32(crc)
  {
    assert U32(0x02014b50) == [0x50, 0x4b, 1, 2] && U16(20) == [20, 0] && U16(0) == [0, 0];
  }

  lemma CentralRest(e: Entry, offset: nat)
    ensures var h := CentralBack(e, offset);
      && h[0..4] == U32(|e.data|) && h[4..8] == U32(|e.data|) && h[8..10] == U16(|e.name|)
      && h[10..22] == [0, 0, 0, 0, 0, 0, 0, 0, 0, 0, 0, 0] && h[22..26] == U32(offset)
  {
    assert U16(0) == [0, 0] && U32(0) == [0, 0, 0, 0];
  }

  lemma SliceOfBack(front: seq<Byte>, back: seq<Byte>, i: nat, j: nat)
    requires i <= j <= |back|
    ensures (front + back)[|front| + i..|front| + j] == back[i..j]
  {
  }

  lemma SliceOfFront(front: seq<Byte>, back: seq<Byte>, i: nat, j: nat)
    requires i <= j <= |front|
    ensures (front + back)[i..j] == front[i..j]
  {
  }

  /** Signature, versions 2.0, no flags, stored; time, date, checksum, both sizes, name length; no extra field, comment,
      disk number or attributes; the offset of the local header. */
  lemma CentralHeaderIs(e: Entry, t: Stamp, crc: nat, offset: nat)
    requires InLimits(e, t, offset) && crc < 0x1_0000_0000
    ensures var h := CentralHeader(e, t, crc, offset);
      && |h| == 46 && h[..12] == [0x50, 0x4b, 1, 2, 20, 0, 20, 0, 0, 0, 0, 0]
      && GetUint16(h, 12) == t.time && GetUint16(h, 14) == t.date && GetUint32(h, 16) == crc
      && GetUint32(h, 20) == |e.data| && GetUint32(h, 24) == |e.data| && GetUint16(h, 28) == |e.name|
      && h[30..42] == [0, 0, 0, 0, 0, 0, 0, 0, 0, 0, 0, 0] && GetUint32(h, 42) == offset
  {
    CentralInTwo(e, t, crc, offset);
    CentralFrontIs(e, t, crc, offset);
    CentralBackIs(e, t, crc, offset);
  }

  lemma CentralFrontIs(e: Entry, t: Stamp, crc: nat, offset: nat)
    requires InLimits(e, t, offset) && crc < 0x1_0000_0000
    ensures var h := CentralFront(t, crc) + CentralBack(e, offset);
      && h[..12] == [0x50, 0x4b, 1, 2, 20, 0, 20, 0, 0, 0, 0, 0]
      && GetUint16(h, 12) == t.time && GetUint16(h, 14) == t.date && GetUint32(h, 16) == crc
  {
    var front, back := CentralFront(t, crc), CentralBack(e, offset);
    CentralParts(t, crc);
    SliceOfFront(front, back, 0, 12);
    SliceOfFront(front, back, 12, 14);
    SliceOfFront(front, back, 14, 16);
    SliceOfFront(front, back, 16, 20);
    Read16(front + back, 12, t.time);
    Read16(front + back, 14, t.date);
    Read32(front + back, 16, crc);
  }

  lemma CentralBackIs(e: Entry, t: Stamp, crc: nat, offset: nat)
    requires InLimits(e, t, offset) && crc < 0x1_0000_0000
    ensures var h := CentralFront(t, crc) + CentralBack(e, offset);
      && GetUint32(h, 20) == |e.data| && GetUint32(h, 24) == |e.data| && GetUint16(h, 28) == |e.name|
      && h[30..42] == [0, 0, 0, 0, 0, 0, 0, 0, 0, 0, 0, 0] && GetUint32(h, 42) == offset
  {
    var front, back := CentralFront(t, crc), CentralBack(e, offset);
    CentralRest(e, offset);
    SliceOfBack(front, back, 0, 4);
    SliceOfBack(front, back, 4, 8);
    SliceOfBack(front, back, 8, 10);
    SliceOfBack(front, back, 10, 22);
    SliceOfBack(front, back, 22, 26);
    Read32(front + back, 20, |e.data|);
    Read32(front + back, 24, |e.data|);
    Read16(front + back, 28, |e.name|);
    Read32(front + back, 42, offset);
  }

  /** Signature, first disk, both entry counts, size and offset of the directory, no comment. */
  lemma EndIs(count: nat, size: nat, offset: nat)
    requires count < 0x10000 && size < 0x1_0000_0000 && offset < 0x1_0000_0000
    ensures var h := EndOfDirectory(count, size, offset);
      && |h| == 22 && h[..8] == [0x50, 0x4b, 5, 6, 0, 0, 0, 0] && GetUint16(h, 8) == count && GetUint16(h, 10) == count
      && GetUint32(h, 12) == size && GetUint32(h, 16) == offset && h[20..] == [0, 0]
  {
    var h := EndOfDirectory(count, size, offset);
    EndParts(count, size, offset);
    Read16(h, 8, count);
    Read16(h, 10, count);
    Read32(h, 12, size);
    Read32(h, 16, offset);
  }

  lemma EndParts(count: nat, size: nat, offset: nat)
    ensures var h := EndOfDirectory(count, size, offset);
      && h[..8] == [0x50, 0x4b, 5, 6, 0, 0, 0, 0] && h[8..10] == U16(count) && h[10..12] == U16(count)
      && h[12..16] == U32(size) && h[16..20] == U32(offset) && h[20..] == [0, 0]
  {
    assert U32(0x06054b50) == [0x50, 0x4b, 5, 6] && U16(0) == [0, 0];
  }

  lemma FieldOfPrefix(h: seq<Byte>, rest: seq<Byte>, p: nat)
    requires p + 4 <= |h|
    ensures GetUint32(h + rest, p) == GetUint32(h, p)
  {
  }

  /** The headers of an archive carry the checksum of the entry's own bytes. */
  lemma HeadersOfArchive(e: Entry, t: Stamp, offset: nat)
    requires InLimits(e, t, offset)
    ensures var local := ZipLayout(t).local(e); |local| >= 30 && GetUint32(local, 14) == Checksum(e.data)
    ensures var central := ZipLayout(t).central(e, offset); |central| >= 46 && GetUint32(central, 16) == Checksum(e.data)
  {
    var local, central := LocalHeader(e, t, Checksum(e.data)), CentralHeader(e, t, Checksum(e.data), offset);
    LocalHeaderIs(e, t, Checksum(e.data));
    FieldOfPrefix(local, e.name, 14);
    FieldOfPrefix(local + e.name, e.data, 14);
    CentralHeaderIs(e, t, Checksum(e.data), offset);
    FieldOfPrefix(central, e.name, 16);
  }

  // ----- Check values of the checksum -----

  lemma FeedZeros()
    ensures Feed(0xFFFFFFFF, 0) == 0x92477cdf && Feed(0x92477cdf, 0) == 0xa49b3d4f && Feed(0xa49b3d4f, 0) == 0xbff51d87
    ensures Feed(0xbff51d87, 0) == 0xb2420de3 && Feed(0xb2420de3, 0) == 0xb49985d1 && Feed(0xb49985d1, 0) == 0xb7f441c8
    ensures Feed(0xb7f441c8, 0) == 0x5bfa20e4 && Feed(0x5bfa20e4, 0) == 0x2dfd1072
  {
  }

  lemma FeedByte(c: bv32)
    ensures FeedBits(CRC32, c, 0, 8)
      == Feed(Feed(Feed(Feed(Feed(Feed(Feed(Feed(c, 0), 0), 0), 0), 0), 0), 0), 0)
  {
    var f := (w: bv32) => CRC32.feed(w, CRC32.lowBit(0));
    assert CRC32.lowBit(0) == 0 && CRC32.half(0) == 0;
    var c4 := Feed(Feed(Feed(Feed(c, 0), 0), 0), 0);
    assert FeedBits(CRC32, c4, 0, 4) == Feed(Feed(Feed(Feed(c4, 0), 0), 0), 0);
    assert FeedBits(CRC32, c, 0, 8) == FeedBits(CRC32, c4, 0, 4);
  }

  /** Nothing has checksum 0, and one zero byte has 0xD202EF8D. */
  lemma CheckValues()
    ensures BitSerialCrc([]) == 0 && BitSerialCrc([0]) == 0xD202EF8D
  {
    assert [0 as bv8][..0] == [] && Words([]) == [] && Words([0]) == [0];
    FeedByte(0xFFFFFFFF);
    FeedZeros();
    assert FeedAll(CRC32, 0xFFFFFFFF, [0][..0]) == 0xFFFFFFFF;
  }

  lemma FeedOne()
    ensures Feed(0xFFFFFFFF, 1) == 0x7fffffff && Feed(0x7fffffff, 0) == 0xd2477cdf && Feed(0xd2477cdf, 0) == 0x849b3d4f
    ensures Feed(0x849b3d4f, 0) == 0xaff51d87 && Feed(0xaff51d87, 1) == 0x57fa8ec3 && Feed(0x57fa8ec3, 1) == 0x2bfd4761
    ensures Feed(0x2bfd4761, 0) == 0xf8462090 && Feed(0xf8462090, 0) == 0x7c231048
  {
  }

  /** The bits of the character `1`, least significant first. */
  lemma BitsOfOne()
    ensures FeedBits(CRC32, 0xFFFFFFFF, 0x31, 8) == 0x7c231048
  {
    FeedOne();
    LowBits();
    assert FeedBits(CRC32, 0x57fa8ec3, 1, 3) == FeedBits(CRC32, 0xf8462090, 0, 1) == 0x7c231048;
    assert FeedBits(CRC32, 0x849b3d4f, 6, 5) == FeedBits(CRC32, 0xaff51d87, 3, 4) == FeedBits(CRC32, 0x57fa8ec3, 1, 3);
    assert FeedBits(CRC32, 0xFFFFFFFF, 0x31, 8) == FeedBits(CRC32, 0x7fffffff, 0x18, 7) == FeedBits(CRC32, 0xd2477cdf, 12, 6)
        == FeedBits(CRC32, 0x849b3d4f, 6, 5);
  }

  lemma LowBits()
    ensures LowBit(0x31) == 1 && LowBit(0x18) == 0 && LowBit(12) == 0 && LowBit(6) == 0 && LowBit(3) == 1 && LowBit(1) == 1 && LowBit(0) == 0
    ensures Half(0x31) == 0x18 && Half(0x18) == 12 && Half(12) == 6 && Half(6) == 3 && Half(3) == 1 && Half(1) == 0 && Half(0) == 0
  {
  }

  /** The character `1` has checksum 0x83DCEFB7. */
  lemma ChecksumOfOne()
    ensures Checksum([0x31]) == 0x83DCEFB7
  {
    var buf: seq<Byte> := [0x31];
    assert buf[..0] == [] && BytesToBits(buf) == [0x31];
    var bits: seq<bv8> := [0x31];
    assert bits[..0] == [] && Words(bits) == [0x31];
    BitsOfOne();
    assert FeedAll(CRC32, 0xFFFFFFFF, [0x31]) == 0x7c231048 by { assert [0x31 as bv32][..0] == []; }
    assert BitSerialCrc(bits) == 0x83DCEFB7;
  }

  // ----- What the reader looks for -----

  predicate Pk56At(buf: seq<Byte>, q: int)
    requires 0 <= q && q + 4 <= |buf|
  {
    buf[q..q + 4] == [0x50, 0x4b, 5, 6]
  }

  lemma SignatureIs(buf: seq<Byte>, q: int)
    requires 0 <= q && q + 4 <= |buf|
    ensures EndSignatureAt(buf, q) <==> Pk56At(buf, q)
  {
    assert buf[q..q + 4] == [buf[q], buf[q + 1], buf[q + 2], buf[q + 3]];
  }

  /** The last place up to `p` where the end signature stands, or none. */
  lemma {:induction false} LastSignatureIs(buf: seq<Byte>, p: int)
    requires p + 22 <= |buf|
    ensures var r := LastSignature(buf, p);
      && (r >= 0 ==> Pk56At(buf, r))
      && forall q :: 0 <= q <= p && q > r ==> !Pk56At(buf, q)
  {
    if p >= 0 {
      SignatureIs(buf, p);
      if !EndSignatureAt(buf, p) { LastSignatureIs(buf, p - 1); }
    }
  }

  /** There is no directory if and only if no end record can begin anywhere. */
  lemma NoDirectoryIff(buf: seq<Byte>)
    ensures Parse(buf) == NoDirectory <==> forall q :: 0 <= q <= |buf| - 22 ==> !Pk56At(buf, q)
  {
    if |buf| >= 22 {
      LastSignatureIs(buf, |buf| - 22);
      var pos := LastSignature(buf, |buf| - 22);
      if pos >= 0 {
        var off := GetUint32(buf, pos + 16);
        WalkEnds(buf, off, off + GetUint32(buf, pos + 12), map[]);
      }
    }
  }

  lemma {:induction false} WalkEnds(buf: seq<Byte>, p: nat, end: nat, files: map<seq<Byte>, seq<Byte>>)
    ensures Walk(buf, p, end, files) != NoDirectory
    decreases |buf| - p
  {
    if p < end {
      match StepAt(buf, p)
      case Take(name, data, next) => WalkEnds(buf, next, end, files[name := data]);
      case Skip(next) => WalkEnds(buf, next, end, files);
      case _ =>
    }
  }

  /** A directory record that lies inside the file, by its fields: anything but a record ends the walk; a record whose method
      is not 0 is passed over; a stored one gives its name and the bytes behind its local header, wherever that points. */
  lemma RecordsAre(buf: seq<Byte>, p: nat)
    requires p + 46 <= |buf|
    ensures buf[p..p + 4] != [0x50, 0x4b, 1, 2] ==> StepAt(buf, p) == Stop
    ensures buf[p..p + 4] == [0x50, 0x4b, 1, 2] ==>
      var next := p + 46 + GetUint16(buf, p + 28) + GetUint16(buf, p + 30) + GetUint16(buf, p + 32);
      var local := GetUint32(buf, p + 42);
      && (GetUint16(buf, p + 10) != 0 ==> StepAt(buf, p) == Skip(next))
      && (GetUint16(buf, p + 10) == 0 && local + 30 > |buf| ==> StepAt(buf, p) == Fail)
      && (GetUint16(buf, p + 10) == 0 && local + 30 <= |buf| ==>
            var start := local + 30 + GetUint16(buf, local + 26) + GetUint16(buf, local + 28);
            StepAt(buf, p) == Take(Cut(buf, p + 46, GetUint16(buf, p + 28)), Cut(buf, start, GetUint32(buf, p + 20)), next))
  {
    RecordSignature(buf, p);
  }

  /** `n` bytes from `start` on, or as many as there are. */
  function Cut(buf: seq<Byte>, start: nat, n: nat): seq<Byte> {
    if start > |buf| then [] else if start + n > |buf| then buf[start..] else buf[start..start + n]
  }

  lemma RecordSignature(buf: seq<Byte>, p: nat)
    requires p + 4 <= |buf|
    ensures GetUint32(buf, p) == 0x02014b50 <==> buf[p..p + 4] == [0x50, 0x4b, 1, 2]
  {
    assert buf[p..p + 4] == [buf[p], buf[p + 1], buf[p + 2], buf[p + 3]];
  }
}
