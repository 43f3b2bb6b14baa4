/** The log byte by byte: at which offset each field of an order, of a record header and of the file header
    stands, in writing and in reading, and exactly which bytes make up a readable log. */
module WalLayout {
  import opened Types
  import opened Wal

  function Pow256(j: nat): (p: nat)
    ensures p > 0
  {
    if j == 0 then 1 else 256 * Pow256(j - 1)
  }

  // Bytes off to off + size hold n, lowest byte first.
  ghost predicate Holds(b: Bytes, off: nat, size: nat, n: nat)
    requires off + size <= |b|
  {
    forall j {:trigger Pow256(j)} {:trigger b[off + j]} :: 0 <= j < size ==>
      ValueOf(b[off + j]) == n / Pow256(j) % 256
  }

  // The integer that bytes off to off + size stand for: the sum of b[off + j] * 256^j.
  function Field(b: Bytes, off: nat, size: nat): nat
    requires off + size <= |b|
  {
    if size == 0 then 0 else Field(b, off, size - 1) + ValueOf(b[off + size - 1]) * Pow256(size - 1)
  }

  // ----- Little-endian integers -------------------------------------------------------------------

  lemma Distribute(a: nat, b: nat, d: nat)
    ensures (a + b) * d == a * d + b * d
  {
  }

  lemma Multiples(p: nat, q: nat, d: nat)
    requires p < q
    ensures p * d + d <= q * d
  {
    var e: nat := q - p - 1;
    Distribute(p, 1, d);
    Distribute(p + 1, e, d);
  }

  lemma QuotientIs(n: nat, d: nat, q: nat, r: nat)
    requires d > 0 && n == q * d + r && r < d
    ensures n / d == q
  {
    var p := n / d;
    assert n == p * d + n % d;
    if p < q {
      Multiples(p, q, d);
    } else if q < p {
      Multiples(q, p, d);
    }
  }

  lemma DivDiv(n: nat, p: nat)
    requires p > 0
    ensures n / 256 / p == n / (256 * p)
  {
    var m := n / 256;
    var q, r := m / p, m % p;
    assert m == q * p + r;
    assert 256 * (q * p) == q * (256 * p);
    QuotientIs(n, 256 * p, q, 256 * r + n % 256);
  }

  lemma {:induction false} LeHolds(n: nat, size: nat)
    ensures Holds(Le(n, size), 0, size, n)
    decreases size
  {
    hide Pow256, Le, ValueOf;
    var b := Le(n, size);
    forall j: nat | 0 <= j < size ensures ValueOf(b[0 + j]) == n / Pow256(j) % 256 { LeAt(n, size, j); }
  }

  lemma {:induction false} LeAt(n: nat, size: nat, j: nat)
    requires j < size
    ensures ValueOf(Le(n, size)[j]) == n / Pow256(j) % 256
    decreases size
  {
    hide ValueOf, ByteOf;
    ByteRoundTrip(n);
    if j > 0 {
      LeAt(n / 256, size - 1, j - 1);
      DivDiv(n, Pow256(j - 1));
    } else {
      assert Pow256(0) == 1;
    }
  }

  lemma Shuffle(a: nat, p: nat)
    ensures a * (256 * p) == 256 * (a * p)
  {
  }

  lemma FieldLast(b: Bytes, off: nat, size: nat)
    requires 0 < size && off + size <= |b|
    ensures Field(b, off, size) == Field(b, off, size - 1) + ValueOf(b[off + size - 1]) * Pow256(size - 1)
  {
  }

  lemma {:induction false} FieldHead(b: Bytes, off: nat, size: nat)
    requires 0 < size && off + size <= |b|
    ensures Field(b, off, size) == ValueOf(b[off]) + 256 * Field(b, off + 1, size - 1)
    decreases size
  {
    hide ValueOf;
    if size == 1 {
      assert Field(b, off, 0) == 0 && Field(b, off + 1, 0) == 0 && Pow256(0) == 1;
    } else {
      FieldHead(b, off, size - 1);
      var top, p := ValueOf(b[off + size - 1]), Pow256(size - 2);
      assert Pow256(size - 1) == 256 * p;
      assert top * (256 * p) == 256 * (top * p) by { Shuffle(top, p); }
      FieldLast(b, off + 1, size - 1);
    }
  }

  lemma {:induction false} FromLeIs(b: Bytes, off: nat, size: nat)
    requires off + size <= |b|
    ensures FromLe(b[off..off + size]) == Field(b, off, size)
    decreases size
  {
    hide Field, ValueOf;
    if size == 0 {
      assert Field(b, off, 0) == 0 by { NoField(b, off); }
    } else {
      FieldHead(b, off, size);
      FromLeIs(b, off + 1, size - 1);
      assert b[off..off + size][1..] == b[off + 1..off + size];
    }
  }

  lemma NoField(b: Bytes, off: nat)
    requires off <= |b|
    ensures Field(b, off, 0) == 0
  {
  }

  // ----- Writing ----------------------------------------------------------------------------------

  // A part of the bytes that is a little-endian integer.
  lemma PartHolds(b: Bytes, off: nat, size: nat, n: nat)
    requires off + size <= |b| && b[off..off + size] == Le(n, size)
    ensures Holds(b, off, size, n)
  {
    hide Pow256, Le, ValueOf;
    LeHolds(n, size);
    forall j: nat | 0 <= j < size ensures ValueOf(b[off + j]) == n / Pow256(j) % 256 {
      assert b[off..off + size][j] == b[off + j] && Le(n, size)[0 + j] == b[off + j];
    }
  }

  lemma OrderParts(o: Order)
    ensures var b := EncodeOrder(o);
            && b[0..8] == Le(o.id, 8) && b[8..16] == Le(o.price, 8) && b[16..24] == Le(o.qty, 8)
            && b[24..32] == Le(o.userId, 8) && b[32..40] == Le(o.clientOrderId, 8) && b[40..48] == EncodeTail(o)
  {
    hide Le, EncodeTail;
  }

  lemma TailParts(o: Order)
    ensures var b := EncodeTail(o);
            && b[0..1] == Le(o.side, 1) && b[1..2] == Le(o.orderType, 1) && b[2..4] == Le(o.symbolId, 2)
            && b[4..6] == Le(o.magic, 2) && b[6..7] == Le(o.padding.0, 1) && b[7..8] == Le(o.padding.1, 1)
  {
    hide Le;
  }

  lemma SubPart(b: Bytes, off: nat, size: nat, from: nat, to: nat)
    requires off + size <= |b| && from <= to <= size
    ensures b[off..off + size][from..to] == b[off + from..off + to]
  {
    var x, y := b[off..off + size][from..to], b[off + from..off + to];
    assert |x| == |y| && forall i :: 0 <= i < |x| ==> x[i] == y[i];
  }

  // Where each field of an order stands in its 48 bytes.
  lemma OrderLayout(o: Order)
    ensures var b := EncodeOrder(o);
            && Holds(b, 0, 8, o.id) && Holds(b, 8, 8, o.price) && Holds(b, 16, 8, o.qty) && Holds(b, 24, 8, o.userId)
            && Holds(b, 32, 8, o.clientOrderId) && Holds(b, 40, 1, o.side) && Holds(b, 41, 1, o.orderType)
            && Holds(b, 42, 2, o.symbolId) && Holds(b, 44, 2, o.magic)
            && Holds(b, 46, 1, o.padding.0) && Holds(b, 47, 1, o.padding.1)
  {
    hide Le, EncodeOrder, EncodeTail, Holds;
    var b := EncodeOrder(o);
    OrderParts(o);
    TailParts(o);
    PartHolds(b, 0, 8, o.id);
    PartHolds(b, 8, 8, o.price);
    PartHolds(b, 16, 8, o.qty);
    PartHolds(b, 24, 8, o.userId);
    PartHolds(b, 32, 8, o.clientOrderId);
    SubPart(b, 40, 8, 0, 1);
    SubPart(b, 40, 8, 1, 2);
    SubPart(b, 40, 8, 2, 4);
    SubPart(b, 40, 8, 4, 6);
    SubPart(b, 40, 8, 6, 7);
    SubPart(b, 40, 8, 7, 8);
    PartHolds(b, 40, 1, o.side);
    PartHolds(b, 41, 1, o.orderType);
    PartHolds(b, 42, 2, o.symbolId);
    PartHolds(b, 44, 2, o.magic);
    PartHolds(b, 46, 1, o.padding.0);
    PartHolds(b, 47, 1, o.padding.1);
  }

  lemma HeaderParts(h: RecordHeader)
    ensures var b := EncodeHeader(h);
            && b[0..8] == Le(h.seqId, 8) && b[8..16] == Le(h.timestampNs, 8)
            && b[16..20] == Le(h.payloadLen, 4) && b[20..24] == Le(h.crc32, 4)
  {
    hide Le;
  }

  // And each field of a record header in its 24.
  lemma HeaderLayout(h: RecordHeader)
    ensures var b := EncodeHeader(h);
            && Holds(b, 0, 8, h.seqId) && Holds(b, 8, 8, h.timestampNs)
            && Holds(b, 16, 4, h.payloadLen) && Holds(b, 20, 4, h.crc32)
  {
    hide Le, EncodeHeader, Holds;
    var b := EncodeHeader(h);
    HeaderParts(h);
    PartHolds(b, 0, 8, h.seqId);
    PartHolds(b, 8, 8, h.timestampNs);
    PartHolds(b, 16, 4, h.payloadLen);
    PartHolds(b, 20, 4, h.crc32);
  }

  lemma LowByte(n: nat, b: nat, rest: nat)
    requires n == b + 256 * rest && b < 256
    ensures ByteOf(n) == ByteOf(b) && n / 256 == rest
  {
    assert n % 256 == b == b % 256;
  }

  lemma FourBytes(n: nat, b0: nat, b1: nat, b2: nat, b3: nat)
    requires b0 < 256 && b1 < 256 && b2 < 256 && b3 < 256
    requires n == b0 + 256 * (b1 + 256 * (b2 + 256 * b3))
    ensures Le(n, 4) == [ByteOf(b0), ByteOf(b1), ByteOf(b2), ByteOf(b3)]
  {
    hide ByteOf;
    LowByte(n, b0, b1 + 256 * (b2 + 256 * b3));
    LowByte(n / 256, b1, b2 + 256 * b3);
    LowByte(n / 256 / 256, b2, b3);
    LowByte(n / 256 / 256 / 256, b3, 0);
    assert Le(n / 256 / 256 / 256, 1) == [ByteOf(b3)] + Le(0, 0);
    assert Le(n / 256 / 256, 2) == [ByteOf(b2)] + Le(b3, 1);
    assert Le(n / 256, 3) == [ByteOf(b1)] + Le(b2 + 256 * b3, 2);
  }

  // The eight bytes a log starts with: "1LAW" and version 1.
  const FILE_HEADER_BYTES: Bytes := [0x31, 0x4C, 0x41, 0x57, 0x01, 0x00, 0x00, 0x00]

  lemma FileHeaderLayout()
    ensures FILE_HEADER == FILE_HEADER_BYTES
  {
    hide Le;
    FourBytes(WAL_MAGIC, 0x31, 0x4C, 0x41, 0x57);
    FourBytes(WAL_VERSION, 1, 0, 0, 0);
  }

  // ----- Reading ----------------------------------------------------------------------------------

  lemma Chunk(b: Bytes, from: nat, size: nat)
    requires from + size <= |b|
    ensures b[from..][..size] == b[from..from + size] && b[from..][size..] == b[from + size..]
  {
  }

  // Taking an integer off bytes that are left of b from an offset on.
  lemma TakeAt(b: Bytes, off: nat, size: nat)
    requires off + size <= |b|
    ensures Take(b[off..], size) == (Field(b, off, size), b[off + size..])
  {
    hide FromLe, Field;
    Chunk(b, off, size);
    FromLeIs(b, off, size);
  }

  // The fields of the 48 bytes of b from an offset on, taken for an order.
  ghost predicate OrderAt(b: Bytes, off: nat, o: Order)
    requires off + ORDER_SIZE <= |b|
  {
    && o.id == Field(b, off, 8) && o.price == Field(b, off + 8, 8) && o.qty == Field(b, off + 16, 8)
    && o.userId == Field(b, off + 24, 8) && o.clientOrderId == Field(b, off + 32, 8)
    && o.side == Field(b, off + 40, 1) && o.orderType == Field(b, off + 41, 1)
    && o.symbolId == Field(b, off + 42, 2) && o.magic == Field(b, off + 44, 2)
    && o.padding == (Field(b, off + 46, 1), Field(b, off + 47, 1))
  }

  lemma DecodedOrder(b: Bytes)
    requires |b| == ORDER_SIZE
    ensures OrderAt(b, 0, DecodeOrder(b))
  {
    hide Take, Field;
    assert b[0..] == b;
    TakeAt(b, 0, 8);
    TakeAt(b, 8, 8);
    TakeAt(b, 16, 8);
    TakeAt(b, 24, 8);
    TakeAt(b, 32, 8);
    TakeAt(b, 40, 1);
    TakeAt(b, 41, 1);
    TakeAt(b, 42, 2);
    TakeAt(b, 44, 2);
    TakeAt(b, 46, 1);
    TakeAt(b, 47, 1);
  }

  ghost predicate HeaderAt(b: Bytes, off: nat, h: RecordHeader)
    requires off + RECORD_HEADER_SIZE <= |b|
  {
    && h.seqId == Field(b, off, 8) && h.timestampNs == Field(b, off + 8, 8)
    && h.payloadLen == Field(b, off + 16, 4) && h.crc32 == Field(b, off + 20, 4)
  }

  lemma DecodedHeader(b: Bytes)
    requires |b| == RECORD_HEADER_SIZE
    ensures HeaderAt(b, 0, DecodeHeader(b))
  {
    hide Take, Field;
    assert b[0..] == b;
    TakeAt(b, 0, 8);
    TakeAt(b, 8, 8);
    TakeAt(b, 16, 4);
    TakeAt(b, 20, 4);
  }

  // A field of a part of the bytes is a field of the whole.
  lemma {:induction false} FieldOfPart(b: Bytes, from: nat, to: nat, off: nat, size: nat)
    requires from <= to <= |b| && off + size <= to - from
    ensures Field(b[from..to], off, size) == Field(b, from + off, size)
    decreases size
  {
    if size > 0 { FieldOfPart(b, from, to, off, size - 1); }
  }

  lemma OrderOfPart(b: Bytes, from: nat, to: nat, o: Order)
    requires from <= to <= |b| && to == from + ORDER_SIZE
    ensures OrderAt(b[from..to], 0, o) <==> OrderAt(b, from, o)
  {
    hide Field;
    forall off: nat, size: nat | off + size <= ORDER_SIZE
      ensures Field(b[from..to], off, size) == Field(b, from + off, size)
    {
      FieldOfPart(b, from, to, off, size);
    }
  }

  lemma HeaderOfPart(b: Bytes, from: nat, to: nat, h: RecordHeader)
    requires from <= to <= |b| && to == from + RECORD_HEADER_SIZE
    ensures HeaderAt(b[from..to], 0, h) <==> HeaderAt(b, from, h)
  {
    hide Field;
    forall off: nat, size: nat | off + size <= RECORD_HEADER_SIZE
      ensures Field(b[from..to], off, size) == Field(b, from + off, size)
    {
      FieldOfPart(b, from, to, off, size);
    }
  }

  function Start(i: nat): nat { FILE_HEADER_SIZE + RECORD_SIZE * i }

  // Record i of the file is whole, says it holds 48 bytes, and carries their checksum.
  predicate Readable(file: Bytes, i: nat) {
    && Start(i) + RECORD_SIZE <= |file|
    && Field(file, Start(i) + 16, 4) == ORDER_SIZE
    && Field(file, Start(i) + 20, 4) == CrcOf(file[Start(i) + RECORD_HEADER_SIZE..Start(i) + RECORD_SIZE])
  }

  // And these are its fields.
  ghost predicate RecordAt(file: Bytes, i: nat, r: Record) {
    && Readable(file, i)
    && HeaderAt(file, Start(i), r.header) && OrderAt(file, Start(i) + RECORD_HEADER_SIZE, r.order)
  }

  lemma NextOnBytes(file: Bytes, i: nat)
    requires Start(i) <= |file|
    ensures NextRecord(file[Start(i)..]).Some? <==> Readable(file, i)
    ensures Readable(file, i) ==> RecordAt(file, i, NextRecord(file[Start(i)..]).value)
  {
    hide DecodeHeader, DecodeOrder, CrcOf, OrderAt, Field, Start;
    var at := Start(i);
    var b := file[at..];
    if |b| >= RECORD_HEADER_SIZE {
      Chunk(file, at, RECORD_HEADER_SIZE);
      var h := DecodeHeader(b[..RECORD_HEADER_SIZE]);
      DecodedHeader(b[..RECORD_HEADER_SIZE]);
      HeaderOfPart(file, at, at + RECORD_HEADER_SIZE, h);
      if |b| >= RECORD_SIZE {
        var from, to := at + RECORD_HEADER_SIZE, at + RECORD_SIZE;
        assert b[RECORD_HEADER_SIZE..RECORD_SIZE] == file[from..to];
        DecodedOrder(file[from..to]);
        OrderOfPart(file, from, to, DecodeOrder(file[from..to]));
      }
    }
  }

  lemma {:induction false} RecordsOnBytes(file: Bytes, k: nat)
    requires Start(k) <= |file|
    ensures var rs := Records(file[Start(k)..]);
            && (forall i {:trigger rs[i]} :: 0 <= i < |rs| ==> RecordAt(file, k + i, rs[i]))
            && !Readable(file, k + |rs|)
    decreases |file| - Start(k)
  {
    hide NextRecord, RecordAt, Field, CrcOf;
    NextOnBytes(file, k);
    if Readable(file, k) {
      assert file[Start(k)..][RECORD_SIZE..] == file[Start(k + 1)..];
      RecordsOnBytes(file, k + 1);
      var rs, tail := Records(file[Start(k)..]), Records(file[Start(k + 1)..]);
      forall i | 0 <= i < |rs| ensures RecordAt(file, k + i, rs[i]) {
        if i > 0 {
          var j := i - 1;
          assert rs[i] == tail[j];
          assert RecordAt(file, k + 1 + j, tail[j]);
          assert k + 1 + j == k + i;
        }
      }
      assert k + |rs| == (k + 1) + |tail|;
    }
  }

  lemma {:induction false} LeFromLe(b: Bytes)
    ensures Le(FromLe(b), |b|) == b
  {
    if b != [] {
      LeFromLe(b[1..]);
      SameByte(b[0], FromLe(b[1..]));
    }
  }

  lemma SameByte(x: bv8, rest: nat)
    ensures ByteOf(ValueOf(x) + 256 * rest) == x && (ValueOf(x) + 256 * rest) / 256 == rest
  {
    assert (ValueOf(x) + 256 * rest) % 256 == ValueOf(x);
  }

  // The two numbers of the file header are those eight bytes.
  lemma HeaderNumbers(file: Bytes)
    requires |file| >= FILE_HEADER_SIZE
    ensures FromLe(file[..4]) == WAL_MAGIC && FromLe(file[4..8]) == WAL_VERSION <==> file[..8] == FILE_HEADER_BYTES
  {
    hide Le, FromLe;
    FileHeaderLayout();
    Widths();
    LeRoundTrip(WAL_MAGIC, 4);
    LeRoundTrip(WAL_VERSION, 4);
    LeFromLe(file[..4]);
    LeFromLe(file[4..8]);
    assert file[..8] == file[..4] + file[4..8];
    assert file[..8][..4] == file[..4] && file[..8][4..] == file[4..8];
    assert FILE_HEADER[..4] == Le(WAL_MAGIC, 4) && FILE_HEADER[4..] == Le(WAL_VERSION, 4);
  }

  // What reading any file gives: an error for one without the header bytes, and otherwise the records up to
  // the first that is not readable, each with its fields from their places.
  lemma ParseOnBytes(file: Bytes)
    ensures Parse(file) == TooSmall <==> |file| < 8
    ensures Parse(file) == BadHeader <==> |file| >= 8 && file[..8] != FILE_HEADER_BYTES
    ensures Parse(file).Log? ==>
              && (forall i {:trigger Parse(file).records[i]} :: 0 <= i < |Parse(file).records| ==>
                    RecordAt(file, i, Parse(file).records[i]))
              && !Readable(file, |Parse(file).records|)
  {
    hide FromLe, Records, Readable, RecordAt;
    if |file| >= FILE_HEADER_SIZE {
      HeaderNumbers(file);
      assert Start(0) == FILE_HEADER_SIZE;
      RecordsOnBytes(file, 0);
      var rs := Records(file[Start(0)..]);
      forall i {:trigger rs[i]} | 0 <= i < |rs| ensures RecordAt(file, i, rs[i]) {
        assert RecordAt(file, 0 + i, rs[i]);
      }
    }
  }
}
