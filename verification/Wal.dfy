/** The write-ahead log of src/wal.rs as bytes: fixed 72-byte records behind an 8-byte file header, each
    with the checksum of its payload. */
module Wal {
  import opened Types
  import opened Crc

  type Bytes = seq<bv8>

  const WAL_MAGIC: nat := 0x5741_4C31
  const WAL_VERSION: nat := 1
  const FILE_HEADER_SIZE: nat := 8
  const RECORD_HEADER_SIZE: nat := 24
  const ORDER_SIZE: nat := 48
  const RECORD_SIZE: nat := 72

  datatype RecordHeader = RecordHeader(seqId: nat, timestampNs: nat, payloadLen: nat, crc32: nat)

  datatype Record = Record(header: RecordHeader, order: Order)

  datatype Log = Log(records: seq<Record>) | TooSmall | BadHeader

  // ----- Little-endian integers -------------------------------------------------------------------

  function ByteOf(n: nat): bv8 { (n % 256) as bv8 }

  function ValueOf(b: bv8): nat { b as int }

  function Le(n: nat, size: nat): (b: Bytes)
    ensures |b| == size
    decreases size
  {
    if size == 0 then [] else [ByteOf(n)] + Le(n / 256, size - 1)
  }

  function FromLe(b: Bytes): nat {
    if b == [] then 0 else ValueOf(b[0]) + 256 * FromLe(b[1..])
  }

  function Limit256(size: nat): nat {
    if size == 0 then 1 else 256 * Limit256(size - 1)
  }

  lemma ByteRoundTrip(n: nat)
    ensures ValueOf(ByteOf(n)) == n % 256
  {
    SmallByte(n % 256);
  }

  lemma SmallByte(m: nat)
    requires m < 256
    ensures (m as bv8) as int == m
  {
    if m < 16 {} else if m < 32 {} else if m < 64 {} else if m < 128 {} else {}
  }

  lemma {:induction false} LeRoundTrip(n: nat, size: nat)
    requires n < Limit256(size)
    ensures FromLe(Le(n, size)) == n
    decreases size
  {
    hide ByteOf, ValueOf;
    if size > 0 {
      ByteRoundTrip(n);
      LeRoundTrip(n / 256, size - 1);
      assert Le(n, size)[1..] == Le(n / 256, size - 1);
    }
  }

  lemma Widths()
    ensures Limit256(1) == 0x100 && Limit256(2) == 0x1_0000 && Limit256(4) == 0x1_0000_0000
    ensures Limit256(8) == 0x1_0000_0000_0000_0000
  {
    assert Limit256(1) == 256 * Limit256(0) && Limit256(2) == 256 * Limit256(1) && Limit256(3) == 256 * Limit256(2);
    assert Limit256(4) == 256 * Limit256(3) && Limit256(5) == 256 * Limit256(4) && Limit256(6) == 256 * Limit256(5);
    assert Limit256(7) == 256 * Limit256(6) && Limit256(8) == 256 * Limit256(7);
  }

  // The first `size` bytes as an integer, and the rest.
  function Take(b: Bytes, size: nat): (nat, Bytes)
    requires size <= |b|
  {
    (FromLe(b[..size]), b[size..])
  }

  lemma {:induction false} TakeLe(n: nat, size: nat, rest: Bytes)
    requires n < Limit256(size)
    ensures Take(Le(n, size) + rest, size) == (n, rest)
  {
    LeRoundTrip(n, size);
    assert (Le(n, size) + rest)[..size] == Le(n, size) && (Le(n, size) + rest)[size..] == rest;
  }

  // ----- Orders -----------------------------------------------------------------------------------

  // The 48 bytes of an order, field after field.
  function EncodeOrder(o: Order): (b: Bytes)
    ensures |b| == ORDER_SIZE
  {
    Le(o.id, 8) + (Le(o.price, 8) + (Le(o.qty, 8) + (Le(o.userId, 8) + (Le(o.clientOrderId, 8) + EncodeTail(o)))))
  }

  function EncodeTail(o: Order): (b: Bytes)
    ensures |b| == 8
  {
    Le(o.side, 1) + (Le(o.orderType, 1)
        + (Le(o.symbolId, 2) + (Le(o.magic, 2) + (Le(o.padding.0, 1) + Le(o.padding.1, 1)))))
  }

  function DecodeOrder(b: Bytes): Order
    requires |b| == ORDER_SIZE
  {
    var (id, b1) := Take(b, 8);
    var (price, b2) := Take(b1, 8);
    var (qty, b3) := Take(b2, 8);
    var (userId, b4) := Take(b3, 8);
    var (clientOrderId, b5) := Take(b4, 8);
    var (side, b6) := Take(b5, 1);
    var (orderType, b7) := Take(b6, 1);
    var (symbolId, b8) := Take(b7, 2);
    var (magic, b9) := Take(b8, 2);
    var (p0, b10) := Take(b9, 1);
    var (p1, _) := Take(b10, 1);
    Order(id, price, qty, userId, clientOrderId, side, orderType, symbolId, magic, (p0, p1))
  }

  // The order's fields have their machine widths.
  predicate Fits(o: Order) {
    && o.id <= U64_MAX && o.price <= U64_MAX && o.qty <= U64_MAX && o.userId <= U64_MAX && o.clientOrderId <= U64_MAX
    && o.side < 0x100 && o.orderType < 0x100 && o.symbolId < 0x1_0000 && o.magic < 0x1_0000
    && o.padding.0 < 0x100 && o.padding.1 < 0x100
  }

  lemma {:induction false} OrderRoundTrip(o: Order)
    requires Fits(o)
    ensures DecodeOrder(EncodeOrder(o)) == o
  {
    hide Le, Take, Limit256;
    Widths();
    var t10 := Le(o.padding.1, 1);
    var t9 := Le(o.padding.0, 1) + t10;
    var t8 := Le(o.magic, 2) + t9;
    var t7 := Le(o.symbolId, 2) + t8;
    var t6 := Le(o.orderType, 1) + t7;
    var t5 := EncodeTail(o);
    var t4 := Le(o.clientOrderId, 8) + t5;
    var t3 := Le(o.userId, 8) + t4;
    var t2 := Le(o.qty, 8) + t3;
    var t1 := Le(o.price, 8) + t2;
    TakeLe(o.id, 8, t1);
    TakeLe(o.price, 8, t2);
    TakeLe(o.qty, 8, t3);
    TakeLe(o.userId, 8, t4);
    TakeLe(o.clientOrderId, 8, t5);
    TakeLe(o.side, 1, t6);
    TakeLe(o.orderType, 1, t7);
    TakeLe(o.symbolId, 2, t8);
    TakeLe(o.magic, 2, t9);
    TakeLe(o.padding.0, 1, t10);
    assert t10 + [] == t10;
    TakeLe(o.padding.1, 1, []);
  }

  // ----- Records ----------------------------------------------------------------------------------

  function CrcOf(payload: Bytes): nat { Nat(Crc32(payload)) }

  function Nat(crc: bv32): nat { crc as int }

  lemma {:induction false} NatInjective(x: bv32, y: bv32)
    requires Nat(x) == Nat(y)
    ensures x == y
  {
    assert (x as int) as bv32 == x && (y as int) as bv32 == y;
  }

  function EncodeHeader(h: RecordHeader): (b: Bytes)
    ensures |b| == RECORD_HEADER_SIZE
  {
    Le(h.seqId, 8) + (Le(h.timestampNs, 8) + (Le(h.payloadLen, 4) + Le(h.crc32, 4)))
  }

  function DecodeHeader(b: Bytes): RecordHeader
    requires |b| == RECORD_HEADER_SIZE
  {
    var (seqId, b1) := Take(b, 8);
    var (timestampNs, b2) := Take(b1, 8);
    var (payloadLen, b3) := Take(b2, 4);
    var (crc32, _) := Take(b3, 4);
    RecordHeader(seqId, timestampNs, payloadLen, crc32)
  }

  predicate HeaderFits(h: RecordHeader) {
    h.seqId <= U64_MAX && h.timestampNs <= U64_MAX && h.payloadLen <= U32_MAX && h.crc32 <= U32_MAX
  }

  lemma {:induction false} HeaderRoundTrip(h: RecordHeader)
    requires HeaderFits(h)
    ensures DecodeHeader(EncodeHeader(h)) == h
  {
    hide Le, Take, Limit256;
    Widths();
    var t3 := Le(h.crc32, 4);
    var t2 := Le(h.payloadLen, 4) + t3;
    var t1 := Le(h.timestampNs, 8) + t2;
    TakeLe(h.seqId, 8, t1);
    TakeLe(h.timestampNs, 8, t2);
    TakeLe(h.payloadLen, 4, t3);
    assert t3 + [] == t3;
    TakeLe(h.crc32, 4, []);
  }

  // The record the writer makes of an order.
  function RecordFor(seqId: nat, timestampNs: nat, o: Order): Record {
    Record(RecordHeader(seqId, timestampNs, ORDER_SIZE, CrcOf(EncodeOrder(o))), o)
  }

  function EncodeRecord(r: Record): (b: Bytes)
    ensures |b| == RECORD_SIZE
  {
    EncodeHeader(r.header) + EncodeOrder(r.order)
  }

  // A record that a writer could have made.
  ghost predicate Written(r: Record) {
    && r == RecordFor(r.header.seqId, r.header.timestampNs, r.order)
    && r.header.seqId <= U64_MAX && r.header.timestampNs <= U64_MAX && Fits(r.order)
  }

  function EncodeAll(rs: seq<Record>): (b: Bytes)
    ensures |b| == RECORD_SIZE * |rs|
  {
    if rs == [] then [] else EncodeRecord(rs[0]) + EncodeAll(rs[1..])
  }

  const FILE_HEADER: Bytes := Le(WAL_MAGIC, 4) + Le(WAL_VERSION, 4)

  // ----- Reading ----------------------------------------------------------------------------------

  // One record at the front, unless it is cut short, of another length, or damaged.
  function NextRecord(b: Bytes): Option<Record> {
    if |b| < RECORD_HEADER_SIZE then None
    else
      var h := DecodeHeader(b[..RECORD_HEADER_SIZE]);
      if h.payloadLen != ORDER_SIZE || |b| < RECORD_SIZE then None
      else
        var payload := b[RECORD_HEADER_SIZE..RECORD_SIZE];
        if CrcOf(payload) != h.crc32 then None else Some(Record(h, DecodeOrder(payload)))
  }

  function Records(b: Bytes): (rs: seq<Record>)
    ensures RECORD_SIZE * |rs| <= |b|
  {
    match NextRecord(b)
    case None => []
    case Some(r) => [r] + Records(b[RECORD_SIZE..])
  }

  function Parse(file: Bytes): Log {
    if |file| < FILE_HEADER_SIZE then TooSmall
    else if FromLe(file[..4]) != WAL_MAGIC || FromLe(file[4..8]) != WAL_VERSION then BadHeader
    else Log(Records(file[FILE_HEADER_SIZE..]))
  }

  lemma CrcFits(payload: Bytes)
    ensures CrcOf(payload) <= U32_MAX
  {
    hide Crc32;
  }

  lemma {:induction false} NextIsWritten(r: Record, rest: Bytes)
    requires Written(r)
    ensures NextRecord(EncodeRecord(r) + rest) == Some(r) && (EncodeRecord(r) + rest)[RECORD_SIZE..] == rest
  {
    hide EncodeHeader, EncodeOrder, DecodeHeader, DecodeOrder, CrcOf;
    var b := EncodeRecord(r) + rest;
    CrcFits(EncodeOrder(r.order));
    HeaderRoundTrip(r.header);
    OrderRoundTrip(r.order);
    assert b[..RECORD_HEADER_SIZE] == EncodeHeader(r.header);
    assert b[RECORD_HEADER_SIZE..RECORD_SIZE] == EncodeOrder(r.order);
  }

  lemma {:induction false} EncodeConcat(a: seq<Record>, b: seq<Record>)
    ensures EncodeAll(a + b) == EncodeAll(a) + EncodeAll(b)
  {
    hide EncodeRecord;
    if a == [] {
      assert a + b == b;
    } else {
      assert (a + b)[1..] == a[1..] + b;
      EncodeConcat(a[1..], b);
    }
  }

  lemma RecordsNext(b: Bytes, r: Record)
    requires NextRecord(b) == Some(r)
    ensures |b| >= RECORD_SIZE && Records(b) == [r] + Records(b[RECORD_SIZE..])
  {
    hide DecodeHeader, DecodeOrder, CrcOf;
  }

  // Whole records in front are read back, whatever follows them.
  lemma {:induction false} RecordsPrefix(rs: seq<Record>, rest: Bytes)
    requires forall r :: r in rs ==> Written(r)
    ensures Records(EncodeAll(rs) + rest) == rs + Records(rest)
  {
    hide EncodeRecord, NextRecord, Written, Records;
    if rs == [] {
      assert EncodeAll(rs) + rest == rest;
    } else {
      var tail := EncodeAll(rs[1..]) + rest;
      assert EncodeAll(rs) + rest == EncodeRecord(rs[0]) + tail;
      NextIsWritten(rs[0], tail);
      RecordsNext(EncodeRecord(rs[0]) + tail, rs[0]);
      RecordsPrefix(rs[1..], rest);
      assert [rs[0]] + (rs[1..] + Records(rest)) == rs + Records(rest);
    }
  }

  lemma HeaderOk(rest: Bytes)
    ensures Parse(FILE_HEADER + rest) == Log(Records(rest))
  {
    hide Records;
    Widths();
    LeRoundTrip(WAL_MAGIC, 4);
    LeRoundTrip(WAL_VERSION, 4);
    var file := FILE_HEADER + rest;
    assert file[..4] == Le(WAL_MAGIC, 4) && file[4..8] == Le(WAL_VERSION, 4) && file[FILE_HEADER_SIZE..] == rest;
  }

  // A log that was written is read back whole.
  lemma {:induction false} LogRoundTrip(rs: seq<Record>)
    requires forall r :: r in rs ==> Written(r)
    ensures Parse(FILE_HEADER + EncodeAll(rs)) == Log(rs)
  {
    hide EncodeAll, Records, Parse;
    HeaderOk(EncodeAll(rs));
    RecordsPrefix(rs, []);
    assert EncodeAll(rs) + [] == EncodeAll(rs) && rs + [] == rs;
    assert Records([]) == [] by { NothingToRead([]); }
  }

  lemma NothingToRead(b: Bytes)
    requires |b| < RECORD_SIZE
    ensures Records(b) == []
  {
  }

  lemma {:induction false} TruncatedRecords(rs: seq<Record>, n: nat)
    requires (forall r :: r in rs ==> Written(r)) && n <= |EncodeAll(rs)|
    ensures n / RECORD_SIZE <= |rs| && Records(EncodeAll(rs)[..n]) == rs[..n / RECORD_SIZE]
  {
    hide EncodeRecord, Records, Written;
    var k := n / RECORD_SIZE;
    assert rs == rs[..k] + rs[k..];
    EncodeConcat(rs[..k], rs[k..]);
    var rest := EncodeAll(rs)[RECORD_SIZE * k..n];
    assert EncodeAll(rs)[..n] == EncodeAll(rs[..k]) + rest;
    RecordsPrefix(rs[..k], rest);
    NothingToRead(rest);
    assert rs[..k] + [] == rs[..k];
  }

  // Any truncation that keeps the file header loses exactly the records that are not whole.
  lemma {:induction false} TruncationKeepsPrefix(rs: seq<Record>, n: nat)
    requires (forall r :: r in rs ==> Written(r)) && FILE_HEADER_SIZE <= n <= |FILE_HEADER + EncodeAll(rs)|
    ensures (n - FILE_HEADER_SIZE) / RECORD_SIZE <= |rs|
    ensures Parse((FILE_HEADER + EncodeAll(rs))[..n]) == Log(rs[..(n - FILE_HEADER_SIZE) / RECORD_SIZE])
  {
    hide EncodeAll, Records, Parse, Written;
    TruncatedRecords(rs, n - FILE_HEADER_SIZE);
    HeaderOk(EncodeAll(rs)[..n - FILE_HEADER_SIZE]);
    assert (FILE_HEADER + EncodeAll(rs))[..n] == FILE_HEADER + EncodeAll(rs)[..n - FILE_HEADER_SIZE];
  }

  // Damage to a payload that the checksum tells: within 32 consecutive bits.
  ghost predicate Damaged(payload: Bytes, damaged: Bytes) {
    && |payload| == |damaged| && payload != damaged
    && exists k: nat :: k + 32 <= 8 * |payload| && DiffersWithin(payload, damaged, k)
  }

  ghost predicate DiffersWithin(a: Bytes, b: Bytes, k: nat)
    requires |a| == |b| && k + 32 <= 8 * |a|
  {
    Bits(a)[..k] == Bits(b)[..k] && Bits(a)[k + 32..] == Bits(b)[k + 32..]
  }

  // Four consecutive bytes are such a window.
  lemma FourBytesAreDamage(payload: Bytes, damaged: Bytes, j: nat)
    requires |payload| == |damaged| && payload != damaged && j + 4 <= |payload|
    requires payload[..j] == damaged[..j] && payload[j + 4..] == damaged[j + 4..]
    ensures Damaged(payload, damaged)
  {
    hide Bits;
    WindowBits(payload, damaged, j);
    assert DiffersWithin(payload, damaged, 8 * j);
  }

  lemma {:induction false} NextIsDamaged(r: Record, damaged: Bytes, rest: Bytes)
    requires Written(r) && Damaged(EncodeOrder(r.order), damaged)
    ensures NextRecord(EncodeHeader(r.header) + (damaged + rest)) == None
  {
    hide EncodeHeader, EncodeOrder, CrcOf, DecodeHeader, DecodeOrder, Bits;
    var b := EncodeHeader(r.header) + (damaged + rest);
    var payload := EncodeOrder(r.order);
    CrcFits(payload);
    HeaderRoundTrip(r.header);
    var k: nat :| k + 32 <= 8 * |payload| && DiffersWithin(payload, damaged, k);
    DamageDetected(payload, damaged, k, 32);
    CrcDiffers(payload, damaged);
    assert b[..RECORD_HEADER_SIZE] == EncodeHeader(r.header) && b[RECORD_HEADER_SIZE..RECORD_SIZE] == damaged;
  }

  // Damage inside a payload costs that record and everything behind it, and nothing before it.
  lemma {:induction false} DamageKeepsPrefix(rs: seq<Record>, i: nat, damaged: Bytes, rest: Bytes)
    requires (forall r :: r in rs ==> Written(r)) && i < |rs|
    requires Damaged(EncodeOrder(rs[i].order), damaged)
    ensures Parse(FILE_HEADER + (EncodeAll(rs[..i]) + (EncodeHeader(rs[i].header) + (damaged + rest)))) == Log(rs[..i])
  {
    hide EncodeAll, Parse, EncodeHeader, EncodeOrder, NextRecord, Written, Damaged;
    var b := EncodeHeader(rs[i].header) + (damaged + rest);
    HeaderOk(EncodeAll(rs[..i]) + b);
    RecordsPrefix(rs[..i], b);
    NextIsDamaged(rs[i], damaged, rest);
    assert rs[..i] + [] == rs[..i];
  }

  lemma {:induction false} CrcDiffers(a: Bytes, b: Bytes)
    requires Crc32(a) != Crc32(b)
    ensures CrcOf(a) != CrcOf(b)
  {
    hide Crc32;
    if CrcOf(a) == CrcOf(b) { NatInjective(Crc32(a), Crc32(b)); }
  }

  // ----- The reader's loop ------------------------------------------------------------------------

  method ReadAll(file: Bytes) returns (log: Log)
    ensures log == Parse(file)
  {
    hide DecodeHeader, DecodeOrder, FromLe, CrcOf, Crc32;
    if |file| < FILE_HEADER_SIZE {
      return TooSmall;
    }
    if FromLe(file[..4]) != WAL_MAGIC || FromLe(file[4..8]) != WAL_VERSION {
      return BadHeader;
    }
    var records: seq<Record> := [];
    var pos := FILE_HEADER_SIZE;
    while pos + RECORD_HEADER_SIZE <= |file|
      invariant FILE_HEADER_SIZE <= pos <= |file|
      invariant Records(file[FILE_HEADER_SIZE..]) == records + Records(file[pos..])
    {
      assert file[pos..][..RECORD_HEADER_SIZE] == file[pos..pos + RECORD_HEADER_SIZE];
      var header := DecodeHeader(file[pos..pos + RECORD_HEADER_SIZE]);
      if header.payloadLen != ORDER_SIZE {
        break;
      }
      if pos + RECORD_SIZE > |file| {
        break;
      }
      assert file[pos..][RECORD_HEADER_SIZE..RECORD_SIZE] == file[pos + RECORD_HEADER_SIZE..pos + RECORD_SIZE];
      assert file[pos..][RECORD_SIZE..] == file[pos + RECORD_SIZE..];
      var payload := file[pos + RECORD_HEADER_SIZE..pos + RECORD_SIZE];
      var crc := ComputeCrc32(payload);
      CrcIs(payload);
      if Nat(crc) != header.crc32 {
        break;
      }
      ghost var before := records;
      records := records + [Record(header, DecodeOrder(payload))];
      pos := pos + RECORD_SIZE;
      assert before + ([Record(header, DecodeOrder(payload))] + Records(file[pos..])) == records + Records(file[pos..]);
    }
    assert Records(file[pos..]) == [];
    assert records + [] == records;
    log := Log(records);
  }

  lemma CrcIs(payload: Bytes)
    ensures CrcOf(payload) == Nat(Crc32(payload))
  {
  }

  // ----- The writer -------------------------------------------------------------------------------

  // Sequence ids count up from 1.
  ghost predicate Consecutive(rs: seq<Record>) {
    forall i :: 0 <= i < |rs| ==> rs[i].header.seqId == i + 1
  }

  // The next sequence id for an existing file: one past the last readable record.
  function ResumeAt(log: Log): nat {
    match log
    case Log(rs) => if rs == [] then 1 else rs[|rs| - 1].header.seqId + 1
    case _ => 1
  }

  class WalWriter {
    var file: Bytes
    var seqCounter: nat

    // The file is an untorn log of rs, and the counter continues it.
    ghost predicate Holds(rs: seq<Record>)
      reads this
    {
      && file == FILE_HEADER + EncodeAll(rs) && seqCounter == |rs| + 1
      && Consecutive(rs) && forall r :: r in rs ==> Written(r)
    }

    // Open a new or existing file: an empty one gets its header, another resumes after its last record.
    constructor (existing: Bytes)
      ensures existing == [] ==> Holds([])
      ensures existing != [] ==> file == existing
      ensures existing != [] ==> seqCounter == ResumeAt(Parse(existing))
      ensures forall rs ::
              existing == FILE_HEADER + EncodeAll(rs) && Consecutive(rs) && (forall r :: r in rs ==> Written(r)) ==>
                  Holds(rs)
    {
      hide Parse, Written, EncodeRecord;
      seqCounter := 1;
      if existing == [] {
        file := FILE_HEADER;
      } else {
        file := existing;
        var log := ReadAll(existing);
        if log.Log? && log.records != [] {
          seqCounter := log.records[|log.records| - 1].header.seqId + 1;
        }
      }
      new;
      assert FILE_HEADER + [] == FILE_HEADER;
      forall rs | existing == FILE_HEADER + EncodeAll(rs) && Consecutive(rs) && (forall r :: r in rs ==> Written(r))
        ensures Holds(rs)
      {
        LogRoundTrip(rs);
      }
    }

    method WriteOrder(o: Order, timestampNs: nat, ghost rs: seq<Record>) returns (seqId: nat)
      modifies this
      ensures seqId == old(seqCounter) && seqCounter == seqId + 1
      ensures file == old(file) + EncodeRecord(RecordFor(seqId, timestampNs, o))
      ensures old(Holds(rs)) && Fits(o) && seqId <= U64_MAX && timestampNs <= U64_MAX ==>
              Holds(rs + [RecordFor(seqId, timestampNs, o)])
    {
      hide EncodeHeader, EncodeOrder, Fits, Crc32;
      seqId := seqCounter;
      seqCounter := seqCounter + 1;
      var payload := EncodeOrder(o);
      var checksum := ComputeCrc32(payload);
      var header := RecordHeader(seqId, timestampNs, |payload|, Nat(checksum));
      file := file + EncodeHeader(header);
      file := file + payload;
      var r := RecordFor(seqId, timestampNs, o);
      assert header == r.header;
      EncodeConcat(rs, [r]);
      assert EncodeAll([r]) == EncodeRecord(r) by { EncodeOne(r); }
      assert old(file) + EncodeHeader(header) + payload == old(file) + EncodeRecord(r);
      assert FILE_HEADER + EncodeAll(rs) + EncodeRecord(r) == FILE_HEADER + EncodeAll(rs + [r]);
    }
  }

  lemma EncodeOne(r: Record)
    ensures EncodeAll([r]) == EncodeRecord(r)
  {
    hide EncodeRecord;
    assert [r][1..] == [];
    assert EncodeAll([]) == [];
  }
}
