// Why a table of byte steps can replace bit-by-bit steps, for any register that obeys a few laws.

module CrcRegisters {

  /** The operations of a reflected CRC register over words W. */
  datatype Register<!W> = Register(
    zero: W,
    xor: (W, W) -> W,
    lowBit: W -> W,         // w & 1
    half: W -> W,           // w >> 1
    lowByte: W -> W,        // w & 0xFF
    highPart: W -> W,       // the other bits
    dropByte: W -> W,       // w >> 8
    shift: W -> W,          // one shift of the register
    feed: (W, W) -> W)      // one message bit enters

  function Iterate<W>(f: W -> W, w: W, k: nat): W
    decreases k, w
  {
    if k == 0 then w else Iterate(f, f(w), k - 1)
  }

  /** The lowest `k` bits of `b` enter one after the other, least significant first. */
  function FeedBits<W>(r: Register<W>, c: W, b: W, k: nat): W
    decreases k, b
  {
    if k == 0 then c else FeedBits(r, r.feed(c, r.lowBit(b)), r.half(b), k - 1)
  }

  ghost predicate ShiftIsLinear<W(!new)>(r: Register<W>) {
    forall x, y :: r.shift(r.xor(x, y)) == r.xor(r.shift(x), r.shift(y))
  }

  /** Feeding one bit of `b` and keeping the rest xored into the register is one shift of both together. */
  ghost predicate FeedIsShift<W(!new)>(r: Register<W>) {
    forall c, b :: r.shift(r.xor(c, b)) == r.xor(r.feed(c, r.lowBit(b)), r.half(b))
  }

  /** `h` and its next `k - 1` halves are plainly shifted. */
  ghost predicate ShiftsPlainly<W>(r: Register<W>, h: W, k: nat) {
    k == 0 || (r.shift(h) == r.half(h) && ShiftsPlainly(r, r.half(h), k - 1))
  }

  ghost predicate SplitsIntoBytes<W(!new)>(r: Register<W>) {
    forall w :: r.xor(r.lowByte(w), r.highPart(w)) == w
  }

  ghost predicate HighPartMovesDown<W(!new)>(r: Register<W>) {
    forall w :: ShiftsPlainly(r, r.highPart(w), 8) && Iterate(r.half, r.highPart(w), 8) == r.dropByte(w)
  }

  ghost predicate BytesAreSmall<W(!new)>(r: Register<W>) {
    && (forall b :: r.lowByte(b) == b ==> Iterate(r.half, b, 8) == r.zero)
    && (forall c, b :: r.lowByte(b) == b ==> r.dropByte(r.xor(c, b)) == r.dropByte(c))
  }

  ghost predicate Lawful<W(!new)>(r: Register<W>) {
    && ShiftIsLinear(r) && FeedIsShift(r) && SplitsIntoBytes(r) && HighPartMovesDown(r) && BytesAreSmall(r)
    && forall c :: r.xor(c, r.zero) == c
  }

  lemma {:induction false} IterateLinear<W(!new)>(r: Register<W>, x: W, y: W, k: nat)
    requires ShiftIsLinear(r)
    ensures Iterate(r.shift, r.xor(x, y), k) == r.xor(Iterate(r.shift, x, k), Iterate(r.shift, y, k))
    decreases k
  {
    if k > 0 { IterateLinear(r, r.shift(x), r.shift(y), k - 1); }
  }

  lemma {:induction false} FeedBitsIsIterate<W(!new)>(r: Register<W>, c: W, b: W, k: nat)
    requires FeedIsShift(r) && (forall w :: r.xor(w, r.zero) == w) && Iterate(r.half, b, k) == r.zero
    ensures FeedBits(r, c, b, k) == Iterate(r.shift, r.xor(c, b), k)
    decreases k
  {
    if k > 0 { FeedBitsIsIterate(r, r.feed(c, r.lowBit(b)), r.half(b), k - 1); }
  }

  lemma {:induction false} PlainShifts<W(!new)>(r: Register<W>, h: W, k: nat)
    requires ShiftsPlainly(r, h, k)
    ensures Iterate(r.shift, h, k) == Iterate(r.half, h, k)
    decreases k
  {
    if k > 0 { PlainShifts(r, r.half(h), k - 1); }
  }

  /** Eight bit-serial steps equal one table step: the entry of the low byte of c ^ b, xored with c >> 8. */
  lemma ByteIsTableStep<W(!new)>(r: Register<W>, c: W, b: W)
    requires Lawful(r) && r.lowByte(b) == b
    ensures FeedBits(r, c, b, 8) == r.xor(Iterate(r.shift, r.lowByte(r.xor(c, b)), 8), r.dropByte(c))
  {
    FeedBitsIsIterate(r, c, b, 8);
    var x := r.xor(c, b);
    IterateLinear(r, r.lowByte(x), r.highPart(x), 8);
    PlainShifts(r, r.highPart(x), 8);
  }

  lemma IterateEight<W>(f: W -> W, w: W)
    ensures Iterate(f, w, 8) == f(f(f(f(f(f(f(f(w))))))))
  {
    var w2 := f(f(w));
    var w4 := f(f(w2));
    var w6 := f(f(w4));
    assert Iterate(f, w6, 2) == Iterate(f, f(w6), 1) == f(f(w6));
    assert Iterate(f, w4, 4) == Iterate(f, f(w4), 3) == Iterate(f, w6, 2);
    assert Iterate(f, w2, 6) == Iterate(f, f(w2), 5) == Iterate(f, w4, 4);
    assert Iterate(f, w, 8) == Iterate(f, f(w), 7) == Iterate(f, w2, 6);
  }

  // ---- whole messages ----

  function FeedAll<W>(r: Register<W>, c: W, message: seq<W>): W {
    if message == [] then c else FeedBits(r, FeedAll(r, c, message[..|message| - 1]), message[|message| - 1], 8)
  }

  ghost predicate IsEntry<W>(r: Register<W>, t: map<W, W>, w: W) {
    w in t && t[w] == Iterate(r.shift, w, 8)
  }

  /** `t` holds the entry of every byte. */
  ghost predicate IsTable<W(!new)>(r: Register<W>, t: map<W, W>) {
    forall w :: IsEntry(r, t, r.lowByte(w))
  }

  lemma TableStep<W(!new)>(r: Register<W>, t: map<W, W>, c0: W, message: seq<W>, i: nat, c: W)
    requires Lawful(r) && IsTable(r, t) && i < |message| && r.lowByte(message[i]) == message[i]
    requires c == FeedAll(r, c0, message[..i])
    ensures r.lowByte(r.xor(c, message[i])) in t
    ensures r.xor(t[r.lowByte(r.xor(c, message[i]))], r.dropByte(c)) == FeedAll(r, c0, message[..i + 1])
  {
    assert IsEntry(r, t, r.lowByte(r.xor(c, message[i])));
    assert message[..i + 1][..i] == message[..i];
    ByteIsTableStep(r, c, message[i]);
  }

  ghost predicate AllBytes<W>(r: Register<W>, message: seq<W>) {
    forall i :: 0 <= i < |message| ==> r.lowByte(message[i]) == message[i]
  }

  lemma AllBytesAppend<W>(r: Register<W>, message: seq<W>, b: W)
    requires AllBytes(r, message) && r.lowByte(b) == b
    ensures AllBytes(r, message + [b])
  {
  }

  /** The loop of crc32: c = crcTable[(c ^ buf[i]) & 0xFF] ^ (c >>> 8). */
  method TakeBytes<W(!new)>(r: Register<W>, table: map<W, W>, c0: W, message: seq<W>) returns (c: W)
    requires Lawful(r) && IsTable(r, table) && AllBytes(r, message)
    ensures c == FeedAll(r, c0, message)
  {
    c := c0;
    for i := 0 to |message|
      invariant c == FeedAll(r, c0, message[..i])
    {
      TableStep(r, table, c0, message, i, c);
      c := r.xor(table[r.lowByte(r.xor(c, message[i]))], r.dropByte(c));
    }
    assert message[..|message|] == message;
  }
}
