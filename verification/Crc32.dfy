// The table-driven CRC-32 of the page script, against the bit-serial definition of section 8 of RFC 1952.

module Crc {
  import opened CrcRegisters

  const POLY: bv32 := 0xEDB88320

  function Xor(x: bv32, y: bv32): bv32 { x ^ y }

  function LowBit(x: bv32): bv32 { x & 1 }

  function Half(x: bv32): bv32 { x >> 1 }

  function LowByte(x: bv32): bv32 { x & 0xFF }

  function HighPart(x: bv32): bv32 { x & 0xFFFFFF00 }

  function DropByte(x: bv32): bv32 { x >> 8 }

  /** One shift of the register: the inner loop of crcTable. */
  function Shift(c: bv32): bv32 {
    if c & 1 == 1 then POLY ^ (c >> 1) else c >> 1
  }

  /** One message bit enters the register: the definition of a reflected CRC. */
  function Feed(c: bv32, bit: bv32): bv32 {
    if (c ^ bit) & 1 == 1 then POLY ^ (c >> 1) else c >> 1
  }

  const CRC32: Register<bv32> := Register(0, Xor, LowBit, Half, LowByte, HighPart, DropByte, Shift, Feed)

  // ---- CRC-32 obeys the laws of a register ----

  lemma XorShift(x: bv32, y: bv32)
    ensures (x ^ y) >> 1 == (x >> 1) ^ (y >> 1)
    ensures (x ^ y) & 1 == (x & 1) ^ (y & 1)
    ensures (x ^ (y & 1)) & 1 == (x ^ y) & 1
    ensures (x & 1 == 0 || x & 1 == 1) && (y & 1 == 0 || y & 1 == 1)
  {
  }

  lemma XorAssoc(p: bv32, x: bv32, y: bv32)
    ensures (p ^ x) ^ y == p ^ (x ^ y) && x ^ (p ^ y) == p ^ (x ^ y) && (p ^ x) ^ (p ^ y) == x ^ y
  {
  }

  lemma ShiftEven(x: bv32)
    requires x & 1 == 0
    ensures Shift(x) == x >> 1
  {
  }

  lemma ShiftOdd(x: bv32)
    requires x & 1 == 1
    ensures Shift(x) == POLY ^ (x >> 1)
  {
  }

  lemma XorParity(x: bv32, y: bv32)
    ensures (x ^ y) & 1 == if x & 1 == y & 1 then 0 else 1
    ensures x & 1 == 0 || x & 1 == 1
  {
  }

  lemma ShiftLinear(x: bv32, y: bv32)
    ensures Shift(x ^ y) == Shift(x) ^ Shift(y)
  {
    XorParity(x, y);
    XorParity(y, x);
    XorShift(x, y);
    XorAssoc(POLY, x >> 1, y >> 1);
    if x & 1 == 0 { ShiftEven(x); } else { ShiftOdd(x); }
    if y & 1 == 0 { ShiftEven(y); } else { ShiftOdd(y); }
    if x & 1 == y & 1 { ShiftEven(x ^ y); } else { ShiftOdd(x ^ y); }
  }

  lemma FeedShifts(c: bv32, b: bv32)
    ensures Shift(Xor(c, b)) == Xor(Feed(c, LowBit(b)), Half(b))
  {
    XorShift(c, b);
    XorAssoc(POLY, c >> 1, b >> 1);
  }

  lemma Splits(w: bv32)
    ensures Xor(LowByte(w), HighPart(w)) == w && Xor(w, 0) == w
  {
  }

  lemma EvenHalves(h: bv32)
    requires h & 0xFF == 0
    ensures h & 1 == 0 && (h >> 1) & 1 == 0 && ((h >> 1) >> 1) & 1 == 0 && (((h >> 1) >> 1) >> 1) & 1 == 0
    ensures ((((h >> 1) >> 1) >> 1) >> 1) & 1 == 0 && (((((h >> 1) >> 1) >> 1) >> 1) >> 1) & 1 == 0
    ensures ((((((h >> 1) >> 1) >> 1) >> 1) >> 1) >> 1) & 1 == 0
    ensures (((((((h >> 1) >> 1) >> 1) >> 1) >> 1) >> 1) >> 1) & 1 == 0
  {
  }

  lemma EightHalves(h: bv32)
    ensures Half(Half(Half(Half(Half(Half(Half(Half(h)))))))) == DropByte(h)
  {
  }

  lemma EvenShift(h: bv32)
    requires h & 1 == 0
    ensures CRC32.shift(h) == CRC32.half(h) == h >> 1
  {
  }

  lemma HighPartPlain(h: bv32)
    requires h & 0xFF == 0
    ensures ShiftsPlainly(CRC32, h, 8)
  {
    EvenHalves(h);
    var h1 := h >> 1;
    var h2 := h1 >> 1;
    var h3 := h2 >> 1;
    var h4 := h3 >> 1;
    var h5 := h4 >> 1;
    var h6 := h5 >> 1;
    var h7 := h6 >> 1;
    EvenShift(h);
    EvenShift(h1);
    EvenShift(h2);
    EvenShift(h3);
    EvenShift(h4);
    EvenShift(h5);
    EvenShift(h6);
    EvenShift(h7);
    assert ShiftsPlainly(CRC32, h6, 2);
    assert ShiftsPlainly(CRC32, h4, 4);
    assert ShiftsPlainly(CRC32, h2, 6);
  }

  lemma ByteFacts(c: bv32)
    ensures (c & 0xFFFFFF00) & 0xFF == 0 && (c & 0xFFFFFF00) >> 8 == c >> 8
    ensures c & 0xFF == c ==> c >> 8 == 0
    ensures (c & 0xFF) & 0xFF == c & 0xFF
  {
  }

  lemma XorKeepsHigh(c: bv32, b: bv32)
    requires b & 0xFF == b
    ensures (c ^ b) >> 8 == c >> 8
  {
  }

  lemma Operations(x: bv32, y: bv32)
    ensures CRC32.xor(x, y) == x ^ y && CRC32.shift(x) == Shift(x)
  {
  }

  lemma LinearAt(x: bv32, y: bv32)
    ensures CRC32.shift(CRC32.xor(x, y)) == CRC32.xor(CRC32.shift(x), CRC32.shift(y))
  {
    var a, b := Shift(x), Shift(y);
    Operations(x, y);
    Operations(y, x);
    Operations(x ^ y, x);
    Operations(a, b);
    ShiftLinear(x, y);
  }

  lemma LinearLaw()
    ensures ShiftIsLinear(CRC32)
  {
    forall x, y ensures CRC32.shift(CRC32.xor(x, y)) == CRC32.xor(CRC32.shift(x), CRC32.shift(y)) { LinearAt(x, y); }
  }

  lemma FeedLaw()
    ensures FeedIsShift(CRC32)
  {
    forall c, b ensures CRC32.shift(CRC32.xor(c, b)) == CRC32.xor(CRC32.feed(c, CRC32.lowBit(b)), CRC32.half(b)) { FeedShifts(c, b); }
  }

  lemma SplitLaw()
    ensures SplitsIntoBytes(CRC32) && forall c :: CRC32.xor(c, CRC32.zero) == c
  {
    forall w ensures CRC32.xor(CRC32.lowByte(w), CRC32.highPart(w)) == w && CRC32.xor(w, CRC32.zero) == w { Splits(w); }
  }

  lemma HighLaw()
    ensures HighPartMovesDown(CRC32)
  {
    forall w ensures ShiftsPlainly(CRC32, CRC32.highPart(w), 8) && Iterate(CRC32.half, CRC32.highPart(w), 8) == CRC32.dropByte(w) {
      ByteFacts(w);
      HighPartPlain(w & 0xFFFFFF00);
      IterateEight(Half, w & 0xFFFFFF00);
      EightHalves(w & 0xFFFFFF00);
    }
  }

  lemma SmallLaw()
    ensures BytesAreSmall(CRC32)
  {
    forall b | CRC32.lowByte(b) == b ensures Iterate(CRC32.half, b, 8) == CRC32.zero {
      ByteFacts(b);
      IterateEight(Half, b);
      EightHalves(b);
    }
    forall c, b | CRC32.lowByte(b) == b ensures CRC32.dropByte(CRC32.xor(c, b)) == CRC32.dropByte(c) { XorKeepsHigh(c, b); }
  }

  lemma Crc32IsLawful()
    ensures Lawful(CRC32)
  {
    LinearLaw();
    FeedLaw();
    SplitLaw();
    HighLaw();
    SmallLaw();
  }

  // ---- the page script ----

  function Words(buf: seq<bv8>): seq<bv32> {
    if buf == [] then [] else Words(buf[..|buf| - 1]) + [buf[|buf| - 1] as bv32]
  }

  /** The checksum by definition: all message bits in order, all ones as initial value and final mask. */
  function BitSerialCrc(buf: seq<bv8>): bv32 {
    FeedAll(CRC32, 0xFFFFFFFF, Words(buf)) ^ 0xFFFFFFFF
  }

  ghost predicate FilledBelow(t: map<bv32, bv32>, n: bv32) {
    forall m {:trigger IsEntry(CRC32, t, m)} :: m < n ==> IsEntry(CRC32, t, m)
  }

  lemma BelowNext(m: bv32, n: bv32)
    requires n < 256
    ensures m < n + 1 <==> m < n || m == n
    ensures n + 1 <= 256 && n + 1 > n
  {
  }

  lemma OneMoreEntry(t: map<bv32, bv32>, n: bv32, c: bv32)
    requires n < 256 && FilledBelow(t, n) && c == Iterate(CRC32.shift, n, 8)
    ensures FilledBelow(t[n := c], n + 1)
  {
    var t' := t[n := c];
    forall m {:trigger IsEntry(CRC32, t', m)} | m < n + 1 ensures IsEntry(CRC32, t', m) {
      BelowNext(m, n);
      if m != n { assert IsEntry(CRC32, t, m); }
    }
  }

  lemma LowByteBelow256(w: bv32)
    ensures CRC32.lowByte(w) < 256
  {
  }

  lemma FilledIsTable(t: map<bv32, bv32>)
    requires FilledBelow(t, 256)
    ensures IsTable(CRC32, t)
  {
    forall w ensures IsEntry(CRC32, t, CRC32.lowByte(w)) { LowByteBelow256(w); }
  }

  /** crcTable, an array with one cell per byte value. */
  method CrcTable() returns (t: map<bv32, bv32>)
    ensures IsTable(CRC32, t)
  {
    t := map[];
    var n: bv32 := 0;
    while n < 256
      invariant n <= 256 && FilledBelow(t, n)
      decreases 256 - n
    {
      var c := TableCell(n);
      BelowNext(n, n);
      OneMoreEntry(t, n, c);
      t := t[n := c];
      n := n + 1;
    }
    FilledIsTable(t);
  }

  method TableCell(n: bv32) returns (c: bv32)
    ensures c == Iterate(CRC32.shift, n, 8)
  {
    c := n;
    for k := 0 to 8
      invariant Iterate(CRC32.shift, c, 8 - k) == Iterate(CRC32.shift, n, 8)
    {
      ghost var before := c;
      c := if c & 1 == 1 then POLY ^ (c >> 1) else c >> 1;
      assert c == CRC32.shift(before);
    }
  }

  lemma WordIsByte(b: bv8)
    ensures CRC32.lowByte(b as bv32) == b as bv32
  {
  }

  lemma {:induction false} WordsAreBytes(buf: seq<bv8>)
    ensures AllBytes(CRC32, Words(buf))
  {
    if buf != [] {
      WordsAreBytes(buf[..|buf| - 1]);
      WordIsByte(buf[|buf| - 1]);
      AllBytesAppend(CRC32, Words(buf[..|buf| - 1]), buf[|buf| - 1] as bv32);
    }
  }

  /** crc32: the table-driven checksum is the bit-serial one for every byte sequence. */
  method Crc32(table: map<bv32, bv32>, buf: seq<bv8>) returns (r: bv32)
    requires IsTable(CRC32, table)
    ensures r == BitSerialCrc(buf)
  {
    Crc32IsLawful();
    WordsAreBytes(buf);
    var c := TakeBytes(CRC32, table, 0xFFFFFFFF, Words(buf));
    r := c ^ 0xFFFFFFFF;
  }
}
