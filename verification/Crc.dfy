/** The checksum of src/wal.rs: the table-driven CRC-32 of IEEE 802.3-2018 section 3.2.9 is the bit-serial
    reflected CRC, and no damage within 32 consecutive bits goes unnoticed. */
module Crc {

  const POLYNOMIAL: bv32 := 0xEDB88320

  // The lookup table, in sixteen blocks of 16 entries.
  const BLOCK_0: seq<bv32> := [
    0x00000000, 0x77073096, 0xEE0E612C, 0x990951BA, 0x076DC419, 0x706AF48F, 0xE963A535, 0x9E6495A3,
    0x0EDB8832, 0x79DCB8A4, 0xE0D5E91E, 0x97D2D988, 0x09B64C2B, 0x7EB17CBD, 0xE7B82D07, 0x90BF1D91]

  const BLOCK_1: seq<bv32> := [
    0x1DB71064, 0x6AB020F2, 0xF3B97148, 0x84BE41DE, 0x1ADAD47D, 0x6DDDE4EB, 0xF4D4B551, 0x83D385C7,
    0x136C9856, 0x646BA8C0, 0xFD62F97A, 0x8A65C9EC, 0x14015C4F, 0x63066CD9, 0xFA0F3D63, 0x8D080DF5]

  const BLOCK_2: seq<bv32> := [
    0x3B6E20C8, 0x4C69105E, 0xD56041E4, 0xA2677172, 0x3C03E4D1, 0x4B04D447, 0xD20D85FD, 0xA50AB56B,
    0x35B5A8FA, 0x42B2986C, 0xDBBBC9D6, 0xACBCF940, 0x32D86CE3, 0x45DF5C75, 0xDCD60DCF, 0xABD13D59]

  const BLOCK_3: seq<bv32> := [
    0x26D930AC, 0x51DE003A, 0xC8D75180, 0xBFD06116, 0x21B4F4B5, 0x56B3C423, 0xCFBA9599, 0xB8BDA50F,
    0x2802B89E, 0x5F058808, 0xC60CD9B2, 0xB10BE924, 0x2F6F7C87, 0x58684C11, 0xC1611DAB, 0xB6662D3D]

  const BLOCK_4: seq<bv32> := [
    0x76DC4190, 0x01DB7106, 0x98D220BC, 0xEFD5102A, 0x71B18589, 0x06B6B51F, 0x9FBFE4A5, 0xE8B8D433,
    0x7807C9A2, 0x0F00F934, 0x9609A88E, 0xE10E9818, 0x7F6A0DBB, 0x086D3D2D, 0x91646C97, 0xE6635C01]

  const BLOCK_5: seq<bv32> := [
    0x6B6B51F4, 0x1C6C6162, 0x856530D8, 0xF262004E, 0x6C0695ED, 0x1B01A57B, 0x8208F4C1, 0xF50FC457,
    0x65B0D9C6, 0x12B7E950, 0x8BBEB8EA, 0xFCB9887C, 0x62DD1DDF, 0x15DA2D49, 0x8CD37CF3, 0xFBD44C65]

  const BLOCK_6: seq<bv32> := [
    0x4DB26158, 0x3AB551CE, 0xA3BC0074, 0xD4BB30E2, 0x4ADFA541, 0x3DD895D7, 0xA4D1C46D, 0xD3D6F4FB,
    0x4369E96A, 0x346ED9FC, 0xAD678846, 0xDA60B8D0, 0x44042D73, 0x33031DE5, 0xAA0A4C5F, 0xDD0D7CC9]

  const BLOCK_7: seq<bv32> := [
    0x5005713C, 0x270241AA, 0xBE0B1010, 0xC90C2086, 0x5768B525, 0x206F85B3, 0xB966D409, 0xCE61E49F,
    0x5EDEF90E, 0x29D9C998, 0xB0D09822, 0xC7D7A8B4, 0x59B33D17, 0x2EB40D81, 0xB7BD5C3B, 0xC0BA6CAD]

  const BLOCK_8: seq<bv32> := [
    0xEDB88320, 0x9ABFB3B6, 0x03B6E20C, 0x74B1D29A, 0xEAD54739, 0x9DD277AF, 0x04DB2615, 0x73DC1683,
    0xE3630B12, 0x94643B84, 0x0D6D6A3E, 0x7A6A5AA8, 0xE40ECF0B, 0x9309FF9D, 0x0A00AE27, 0x7D079EB1]

  const BLOCK_9: seq<bv32> := [
    0xF00F9344, 0x8708A3D2, 0x1E01F268, 0x6906C2FE, 0xF762575D, 0x806567CB, 0x196C3671, 0x6E6B06E7,
    0xFED41B76, 0x89D32BE0, 0x10DA7A5A, 0x67DD4ACC, 0xF9B9DF6F, 0x8EBEEFF9, 0x17B7BE43, 0x60B08ED5]

  const BLOCK_10: seq<bv32> := [
    0xD6D6A3E8, 0xA1D1937E, 0x38D8C2C4, 0x4FDFF252, 0xD1BB67F1, 0xA6BC5767, 0x3FB506DD, 0x48B2364B,
    0xD80D2BDA, 0xAF0A1B4C, 0x36034AF6, 0x41047A60, 0xDF60EFC3, 0xA867DF55, 0x316E8EEF, 0x4669BE79]

  const BLOCK_11: seq<bv32> := [
    0xCB61B38C, 0xBC66831A, 0x256FD2A0, 0x5268E236, 0xCC0C7795, 0xBB0B4703, 0x220216B9, 0x5505262F,
    0xC5BA3BBE, 0xB2BD0B28, 0x2BB45A92, 0x5CB36A04, 0xC2D7FFA7, 0xB5D0CF31, 0x2CD99E8B, 0x5BDEAE1D]

  const BLOCK_12: seq<bv32> := [
    0x9B64C2B0, 0xEC63F226, 0x756AA39C, 0x026D930A, 0x9C0906A9, 0xEB0E363F, 0x72076785, 0x05005713,
    0x95BF4A82, 0xE2B87A14, 0x7BB12BAE, 0x0CB61B38, 0x92D28E9B, 0xE5D5BE0D, 0x7CDCEFB7, 0x0BDBDF21]

  const BLOCK_13: seq<bv32> := [
    0x86D3D2D4, 0xF1D4E242, 0x68DDB3F8, 0x1FDA836E, 0x81BE16CD, 0xF6B9265B, 0x6FB077E1, 0x18B74777,
    0x88085AE6, 0xFF0F6A70, 0x66063BCA, 0x11010B5C, 0x8F659EFF, 0xF862AE69, 0x616BFFD3, 0x166CCF45]

  const BLOCK_14: seq<bv32> := [
    0xA00AE278, 0xD70DD2EE, 0x4E048354, 0x3903B3C2, 0xA7672661, 0xD06016F7, 0x4969474D, 0x3E6E77DB,
    0xAED16A4A, 0xD9D65ADC, 0x40DF0B66, 0x37D83BF0, 0xA9BCAE53, 0xDEBB9EC5, 0x47B2CF7F, 0x30B5FFE9]

  const BLOCK_15: seq<bv32> := [
    0xBDBDF21C, 0xCABAC28A, 0x53B39330, 0x24B4A3A6, 0xBAD03605, 0xCDD70693, 0x54DE5729, 0x23D967BF,
    0xB3667A2E, 0xC4614AB8, 0x5D681B02, 0x2A6F2B94, 0xB40BBE37, 0xC30C8EA1, 0x5A05DF1B, 0x2D02EF8D]

  const CRC32_TABLE: seq<bv32> :=
    BLOCK_0 + BLOCK_1 + BLOCK_2 + BLOCK_3 + BLOCK_4 + BLOCK_5 + BLOCK_6 + BLOCK_7
    + BLOCK_8 + BLOCK_9 + BLOCK_10 + BLOCK_11 + BLOCK_12 + BLOCK_13 + BLOCK_14 + BLOCK_15

  // ----- The bit-serial definition ----------------------------------------------------------------

  // One message bit into the shift register: the bit is added to the outgoing bit, which feeds back.
  function Shift(reg: bv32, bit: bool): bv32 {
    if ((reg & 1) == 1) != bit then (reg >> 1) ^ POLYNOMIAL else reg >> 1
  }

  function Register(reg: bv32, bits: seq<bool>): bv32
    decreases |bits|
  {
    if bits == [] then reg else Register(Shift(reg, bits[0]), bits[1..])
  }

  // The bits of a byte in transmission order, least significant first.
  function ByteBits(b: bv8): seq<bool> {
    [b & 1 != 0, b & 2 != 0, b & 4 != 0, b & 8 != 0, b & 16 != 0, b & 32 != 0, b & 64 != 0, b & 128 != 0]
  }

  function Bits(data: seq<bv8>): (bits: seq<bool>)
    ensures |bits| == 8 * |data|
  {
    if data == [] then [] else Bits(data[..|data| - 1]) + ByteBits(data[|data| - 1])
  }

  function Crc32(data: seq<bv8>): bv32 { !Register(0xFFFF_FFFF, Bits(data)) }

  // ----- The table --------------------------------------------------------------------------------

  function EightShifts(reg: bv32): bv32 {
    Shift(Shift(Shift(Shift(Shift(Shift(Shift(Shift(reg, false), false), false), false), false), false), false), false)
  }

  function Index(x: bv8): nat { x as int }

  function Next(x: bv8): bv8 { x + 1 }

  lemma IndexNext(x: bv8)
    requires Index(x) < 255
    ensures Index(Next(x)) == Index(x) + 1
  {
  }

  lemma IndexInjective(x: bv8, y: bv8)
    requires Index(x) == Index(y)
    ensures x == y
  {
    assert (x as int) as bv8 == x && (y as int) as bv8 == y;
  }

  lemma IndexBound(x: bv8)
    ensures Index(x) < 256
  {
  }

  // The table entry of a byte: eight shifts with no incoming bits.
  function Entry(x: bv8): bv32 { EightShifts(x as bv32) }

  // `count` consecutive table entries.
  function Entries(from: bv8, count: nat): (r: seq<bv32>)
    ensures |r| == count
    decreases count
  {
    if count == 0 then [] else [Entry(from)] + Entries(Next(from), count - 1)
  }

  lemma {:induction false} EntriesAt(from: bv8, count: nat, x: bv8)
    requires Index(from) <= Index(x) && Index(x) - Index(from) < count
    ensures Entries(from, count)[Index(x) - Index(from)] == Entry(x)
    decreases count
  {
    hide Entry, Index, Next;
    IndexBound(x);
    if Index(from) == Index(x) {
      IndexInjective(from, x);
    } else {
      IndexNext(from);
      EntriesAt(Next(from), count - 1, x);
    }
  }

  lemma {:induction false} EntriesConcat(n: bv8, a: nat, m: bv8, b: nat)
    requires Index(m) == Index(n) + a
    ensures Entries(n, a) + Entries(m, b) == Entries(n, a + b)
    decreases a
  {
    hide Entry, Index, Next;
    if a == 0 {
      IndexInjective(n, m);
      assert Entries(n, a) == [];
    } else {
      IndexBound(m);
      IndexNext(n);
      EntriesConcat(Next(n), a - 1, m, b);
      assert [Entry(n)] + Entries(Next(n), a - 1) + Entries(m, b) ==
             [Entry(n)] + (Entries(Next(n), a - 1) + Entries(m, b));
    }
  }

  lemma EntriesCons(n: bv8, count: nat)
    ensures Entries(n, count + 1) == [Entry(n)] + Entries(Next(n), count)
  {
  }

  function Four(n: bv8): seq<bv32> {
    [Entry(n), Entry(n + 1), Entry(n + 2), Entry(n + 3)]
  }

  lemma FourIs(n: bv8)
    ensures Four(n) == Entries(n, 4)
  {
    hide Entry, Entries, Next;
    var n1 := Next(n);
    var n2 := Next(n1);
    var n3 := Next(n2);
    assert n1 == n + 1 && n2 == n + 2 && n3 == n + 3 by { Nexts(n); }
    EntriesCons(n3, 0);
    EntriesCons(n2, 1);
    EntriesCons(n1, 2);
    EntriesCons(n, 3);
    assert Entries(Next(n3), 0) == [];
  }

  lemma Nexts(n: bv8)
    ensures Next(n) == n + 1 && Next(Next(n)) == n + 2 && Next(Next(Next(n))) == n + 3
    ensures Next(Next(Next(Next(n)))) == n + 4
  {
  }

  function Block(n: bv8): seq<bv32> { Four(n) + Four(n + 4) + Four(n + 8) + Four(n + 12) }

  lemma Block0() ensures BLOCK_0 == Block(0) {}

  lemma Block1() ensures BLOCK_1 == Block(16) {}

  lemma Block2() ensures BLOCK_2 == Block(32) {}

  lemma Block3() ensures BLOCK_3 == Block(48) {}

  lemma Block4() ensures BLOCK_4 == Block(64) {}

  lemma Block5() ensures BLOCK_5 == Block(80) {}

  lemma Block6() ensures BLOCK_6 == Block(96) {}

  lemma Block7() ensures BLOCK_7 == Block(112) {}

  lemma Block8() ensures BLOCK_8 == Block(128) {}

  lemma Block9() ensures BLOCK_9 == Block(144) {}

  lemma Block10() ensures BLOCK_10 == Block(160) {}

  lemma Block11() ensures BLOCK_11 == Block(176) {}

  lemma Block12() ensures BLOCK_12 == Block(192) {}

  lemma Block13() ensures BLOCK_13 == Block(208) {}

  lemma Block14() ensures BLOCK_14 == Block(224) {}

  lemma Block15() ensures BLOCK_15 == Block(240) {}

  lemma BlockIs(n: bv8)
    requires Index(n) + 16 <= 256 && Index(n + 4) == Index(n) + 4 && Index(n + 8) == Index(n) + 8
    requires Index(n + 12) == Index(n) + 12
    ensures Block(n) == Entries(n, 16)
  {
    hide Four, Entries, Index;
    FourIs(n);
    FourIs(n + 4);
    FourIs(n + 8);
    FourIs(n + 12);
    EntriesConcat(n, 4, n + 4, 4);
    EntriesConcat(n, 8, n + 8, 4);
    EntriesConcat(n, 12, n + 12, 4);
  }

  lemma {:induction false} Blocks()
    ensures CRC32_TABLE == Entries(0, 16) + Entries(16, 16) + Entries(32, 16) + Entries(48, 16)
                           + Entries(64, 16) + Entries(80, 16) + Entries(96, 16) + Entries(112, 16)
                           + Entries(128, 16) + Entries(144, 16) + Entries(160, 16) + Entries(176, 16)
                           + Entries(192, 16) + Entries(208, 16) + Entries(224, 16) + Entries(240, 16)
  {
    hide Block, Entries;
    Block0();
    Block1();
    Block2();
    Block3();
    Block4();
    Block5();
    Block6();
    Block7();
    Block8();
    Block9();
    Block10();
    Block11();
    Block12();
    Block13();
    Block14();
    Block15();
    BlockIs(0);
    BlockIs(16);
    BlockIs(32);
    BlockIs(48);
    BlockIs(64);
    BlockIs(80);
    BlockIs(96);
    BlockIs(112);
    BlockIs(128);
    BlockIs(144);
    BlockIs(160);
    BlockIs(176);
    BlockIs(192);
    BlockIs(208);
    BlockIs(224);
    BlockIs(240);
  }

  // The constants of the table are eight register shifts of their index.
  lemma {:induction false} TableIs()
    ensures CRC32_TABLE == Entries(0, 256)
  {
    hide Entries;
    Blocks();
    EntriesConcat(0, 16, 16, 16);
    EntriesConcat(0, 32, 32, 16);
    EntriesConcat(0, 48, 48, 16);
    EntriesConcat(0, 64, 64, 16);
    EntriesConcat(0, 80, 80, 16);
    EntriesConcat(0, 96, 96, 16);
    EntriesConcat(0, 112, 112, 16);
    EntriesConcat(0, 128, 128, 16);
    EntriesConcat(0, 144, 144, 16);
    EntriesConcat(0, 160, 160, 16);
    EntriesConcat(0, 176, 176, 16);
    EntriesConcat(0, 192, 192, 16);
    EntriesConcat(0, 208, 208, 16);
    EntriesConcat(0, 224, 224, 16);
    EntriesConcat(0, 240, 240, 16);
  }

  lemma {:induction false} TableAt(x: bv8)
    ensures |CRC32_TABLE| == 256 && Index(x) < 256 && CRC32_TABLE[Index(x)] == Entry(x)
  {
    hide Entries, Entry;
    TableIs();
    IndexBound(x);
    EntriesAt(0, 256, x);
  }

  // ----- The register as an abstract machine --------------------------------------------------------

  function X(a: bv32, b: bv32): bv32 { a ^ b }

  function Half(a: bv32): bv32 { a >> 1 }

  predicate Odd(a: bv32) { a & 1 == 1 }

  lemma ShiftIs(reg: bv32, bit: bool)
    ensures Shift(reg, bit) == if Odd(reg) != bit then X(Half(reg), POLYNOMIAL) else Half(reg)
  {
  }

  lemma XAssociative(a: bv32, b: bv32, c: bv32)
    ensures X(X(a, b), c) == X(a, X(b, c))
  {
  }

  lemma XZero(a: bv32)
    ensures X(a, a) == 0 && X(a, 0) == a && X(0, a) == a
  {
  }

  lemma XCommutes(a: bv32, b: bv32)
    ensures X(a, b) == X(b, a)
  {
  }

  lemma XParts(a: bv32, b: bv32)
    ensures Half(X(a, b)) == X(Half(a), Half(b)) && (Odd(X(a, b)) <==> Odd(a) != Odd(b))
  {
  }

  lemma {:induction false} XPolynomial(h: bv32, k: bv32, p: bv32)
    ensures X(X(h, p), X(k, p)) == X(h, k) && X(X(h, p), k) == X(X(h, k), p) && X(h, X(k, p)) == X(X(h, k), p)
  {
    hide X;
    XAssociative(h, k, p);
    XAssociative(h, p, k);
    XCommutes(p, k);
    XAssociative(X(h, p), k, p);
    XAssociative(X(h, k), p, p);
    XZero(p);
    XZero(X(h, k));
  }

  // The register is linear in its content and in the incoming bit.
  lemma {:induction false} ShiftXor(r: bv32, s: bv32, a: bool, b: bool)
    ensures Shift(X(r, s), a != b) == X(Shift(r, a), Shift(s, b))
  {
    hide Shift, X, Half, Odd;
    ShiftIs(r, a);
    ShiftIs(s, b);
    ShiftIs(X(r, s), a != b);
    XParts(r, s);
    XPolynomial(Half(r), Half(s), POLYNOMIAL);
  }

  // Bits can be put into the register beforehand instead of one by one.
  lemma {:induction false} ShiftSplit(a: bv32, y: bv32)
    ensures Shift(X(a, y), false) == X(Shift(a, Odd(y)), Half(y))
  {
    hide Shift, X, Half, Odd;
    ShiftIs(a, Odd(y));
    ShiftIs(X(a, y), false);
    XParts(a, y);
    XPolynomial(Half(a), Half(y), POLYNOMIAL);
  }

  // ----- A byte at a time -------------------------------------------------------------------------

  function Wide(b: bv8): bv32 { b as bv32 }

  function Lowest(x: bv32): bv8 { (x & 0xFF) as bv8 }

  function Upper(x: bv32): bv32 { x >> 8 }

  lemma LowHalves(b: bv8)
    ensures var y0, s := Wide(b), ByteBits(b);
            var y1 := Half(y0); var y2 := Half(y1); var y3 := Half(y2);
            |s| == 8 && Odd(y0) == s[0] && Odd(y1) == s[1] && Odd(y2) == s[2] && Odd(y3) == s[3]
  {
  }

  lemma HighHalves(b: bv8)
    ensures var y4, s := Half(Half(Half(Half(Wide(b))))), ByteBits(b);
            var y5 := Half(y4); var y6 := Half(y5); var y7 := Half(y6);
            && |s| == 8 && Odd(y4) == s[4] && Odd(y5) == s[5] && Odd(y6) == s[6] && Odd(y7) == s[7]
            && Half(y7) == 0
  {
  }

  lemma ByteHalves(b: bv8)
    ensures var y0, s := Wide(b), ByteBits(b);
            var y1 := Half(y0); var y2 := Half(y1); var y3 := Half(y2); var y4 := Half(y3);
            var y5 := Half(y4); var y6 := Half(y5); var y7 := Half(y6);
            && |s| == 8 && Odd(y0) == s[0] && Odd(y1) == s[1] && Odd(y2) == s[2] && Odd(y3) == s[3]
            && Odd(y4) == s[4] && Odd(y5) == s[5] && Odd(y6) == s[6] && Odd(y7) == s[7] && Half(y7) == 0
  {
    hide Half, Odd, Wide, ByteBits;
    LowHalves(b);
    HighHalves(b);
  }

  lemma ByteRegister(reg: bv32, b: bv8)
    ensures Register(reg, ByteBits(b)) == EightShifts(X(reg, Wide(b)))
  {
    hide Shift, X, Half, Odd, ByteBits, Wide, Register;
    var y0, s := Wide(b), ByteBits(b);
    ByteHalves(b);
    var y1 := Half(y0);
    var y2 := Half(y1);
    var y3 := Half(y2);
    var y4 := Half(y3);
    var y5 := Half(y4);
    var y6 := Half(y5);
    var y7 := Half(y6);
    var a1 := Shift(reg, s[0]);
    var a2 := Shift(a1, s[1]);
    var a3 := Shift(a2, s[2]);
    var a4 := Shift(a3, s[3]);
    var a5 := Shift(a4, s[4]);
    var a6 := Shift(a5, s[5]);
    var a7 := Shift(a6, s[6]);
    EightBits(reg, s);
    ShiftSplit(reg, y0);
    ShiftSplit(a1, y1);
    ShiftSplit(a2, y2);
    ShiftSplit(a3, y3);
    ShiftSplit(a4, y4);
    ShiftSplit(a5, y5);
    ShiftSplit(a6, y6);
    ShiftSplit(a7, y7);
    XZero(Shift(a7, s[7]));
  }

  lemma EightBits(reg: bv32, s: seq<bool>)
    requires |s| == 8
    ensures Register(reg, s) ==
            Shift(Shift(Shift(Shift(Shift(Shift(Shift(Shift(reg, s[0]), s[1]), s[2]), s[3]), s[4]), s[5]), s[6]), s[7])
  {
    hide Shift, Register;
    FourBits(reg, s);
    var mid := Shift(Shift(Shift(Shift(reg, s[0]), s[1]), s[2]), s[3]);
    FourBits(mid, s[4..]);
    assert s[4..][4..] == [];
    NoBits(Shift(Shift(Shift(Shift(mid, s[4]), s[5]), s[6]), s[7]));
  }

  lemma FourBits(reg: bv32, s: seq<bool>)
    requires |s| >= 4
    ensures Register(reg, s) == Register(Shift(Shift(Shift(Shift(reg, s[0]), s[1]), s[2]), s[3]), s[4..])
  {
    hide Shift;
    assert s[1..][1..] == s[2..] && s[2..][1..] == s[3..] && s[3..][1..] == s[4..];
    var a1 := Shift(reg, s[0]);
    var a2 := Shift(a1, s[1]);
    var a3 := Shift(a2, s[2]);
    assert Register(reg, s) == Register(a1, s[1..]) == Register(a2, s[2..]) == Register(a3, s[3..]);
  }

  // Eight shifts move the upper bits down and look the lowest byte up.
  lemma {:induction false} ByteLookup(x: bv32)
    ensures EightShifts(x) == X(Upper(x), Entry(Lowest(x)))
  {
    hide Shift, X, Half, Odd, Lowest, Upper;
    var lo, y0 := UpperHalves(x);
    var y1 := Half(y0);
    var y2 := Half(y1);
    var y3 := Half(y2);
    var y4 := Half(y3);
    var y5 := Half(y4);
    var y6 := Half(y5);
    var y7 := Half(y6);
    var a1 := Shift(lo, false);
    var a2 := Shift(a1, false);
    var a3 := Shift(a2, false);
    var a4 := Shift(a3, false);
    var a5 := Shift(a4, false);
    var a6 := Shift(a5, false);
    var a7 := Shift(a6, false);
    ShiftSplit(lo, y0);
    ShiftSplit(a1, y1);
    ShiftSplit(a2, y2);
    ShiftSplit(a3, y3);
    ShiftSplit(a4, y4);
    ShiftSplit(a5, y5);
    ShiftSplit(a6, y6);
    ShiftSplit(a7, y7);
    XCommutes(Shift(a7, false), Upper(x));
  }

  lemma UpperHalves(x: bv32) returns (lo: bv32, y0: bv32)
    ensures lo == Wide(Lowest(x)) && X(lo, y0) == x
    ensures var y1 := Half(y0); var y2 := Half(y1); var y3 := Half(y2); var y4 := Half(y3);
            var y5 := Half(y4); var y6 := Half(y5); var y7 := Half(y6);
            && !Odd(y0) && !Odd(y1) && !Odd(y2) && !Odd(y3) && !Odd(y4) && !Odd(y5) && !Odd(y6) && !Odd(y7)
            && Half(y7) == Upper(x)
  {
    hide Half, Odd, X, Upper, Wide, Lowest;
    lo, y0 := x & 0xFF, x & 0xFFFF_FF00;
    Splits(x);
    UpperEven(x);
    UpperMoves(x);
  }

  lemma UpperEven(x: bv32)
    ensures var y0 := x & 0xFFFF_FF00;
            var y1 := Half(y0); var y2 := Half(y1); var y3 := Half(y2); var y4 := Half(y3);
            var y5 := Half(y4); var y6 := Half(y5); var y7 := Half(y6);
            !Odd(y0) && !Odd(y1) && !Odd(y2) && !Odd(y3) && !Odd(y4) && !Odd(y5) && !Odd(y6) && !Odd(y7)
  {
  }

  lemma UpperMoves(x: bv32)
    ensures Half(Half(Half(Half(Half(Half(Half(Half(x & 0xFFFF_FF00)))))))) == Upper(x)
  {
  }

  lemma Splits(x: bv32)
    ensures X(x & 0xFF, x & 0xFFFF_FF00) == x && Wide(Lowest(x)) == x & 0xFF
  {
  }

  lemma {:induction false} RegisterConcat(reg: bv32, a: seq<bool>, b: seq<bool>)
    ensures Register(reg, a + b) == Register(Register(reg, a), b)
    decreases |a|
  {
    hide Shift;
    if a == [] {
      assert a + b == b;
    } else {
      assert (a + b)[1..] == a[1..] + b;
      RegisterConcat(Shift(reg, a[0]), a[1..], b);
    }
  }

  lemma UpperOnly(reg: bv32, b: bv8)
    ensures Upper(X(reg, Wide(b))) == Upper(reg)
  {
  }

  // One turn of the checksum loop.
  lemma ByteStep(reg: bv32, b: bv8)
    ensures var i := Index(Lowest(X(reg, Wide(b))));
            && i < 256 == |CRC32_TABLE|
            && Register(reg, ByteBits(b)) == X(Upper(reg), CRC32_TABLE[i])
  {
    hide Index, Register, EightShifts, ByteBits, X, Wide, Lowest, Upper, Entry;
    var x := X(reg, Wide(b));
    UpperOnly(reg, b);
    TableAt(Lowest(x));
    ByteRegister(reg, b);
    ByteLookup(x);
  }

  lemma BitsSnoc(reg: bv32, data: seq<bv8>, i: nat)
    requires i < |data|
    ensures Register(reg, Bits(data[..i + 1])) == Register(Register(reg, Bits(data[..i])), ByteBits(data[i]))
  {
    hide Register, ByteBits;
    assert data[..i + 1][..|data[..i + 1]| - 1] == data[..i];
    RegisterConcat(reg, Bits(data[..i]), ByteBits(data[i]));
  }

  lemma NoBits(reg: bv32)
    ensures Register(reg, []) == reg && Bits([]) == []
  {
  }

  // The table-driven loop computes the bit-serial checksum.
  method ComputeCrc32(data: seq<bv8>) returns (r: bv32)
    ensures r == Crc32(data)
  {
    hide Index, Register, Bits, ByteBits, Wide;
    var crc: bv32 := 0xFFFF_FFFF;
    NoBits(crc);
    assert data[..0] == [];
    for i := 0 to |data|
      invariant crc == Register(0xFFFF_FFFF, Bits(data[..i]))
    {
      ByteStep(crc, data[i]);
      BitsSnoc(0xFFFF_FFFF, data, i);
      var idx := Index(Lowest(X(crc, Wide(data[i]))));
      crc := X(Upper(crc), CRC32_TABLE[idx]);
    }
    assert data[..|data|] == data;
    r := !crc;
  }

  // ----- The check value --------------------------------------------------------------------------

  // The digits 1 to 9 in ASCII, for which every implementation of this CRC-32 gives 0xCBF43926.
  const CHECK_INPUT: seq<bv8> := [0x31, 0x32, 0x33, 0x34, 0x35, 0x36, 0x37, 0x38, 0x39]

  // The register after one byte, from that after none.
  lemma NextByte(data: seq<bv8>, i: nat, before: bv32, after: bv32)
    requires i < |data| && Register(0xFFFF_FFFF, Bits(data[..i])) == before
    requires Register(before, ByteBits(data[i])) == after
    ensures Register(0xFFFF_FFFF, Bits(data[..i + 1])) == after
  {
    hide Register, Bits, ByteBits;
    BitsSnoc(0xFFFF_FFFF, data, i);
  }

  lemma Digit1()
    ensures Register(0xFFFF_FFFF, ByteBits(0x31)) == 0x7C23_1048
  {
    EightBits(0xFFFF_FFFF, ByteBits(0x31));
  }

  lemma Digit2()
    ensures Register(0x7C23_1048, ByteBits(0x32)) == 0xB0AC_BB32
  {
    EightBits(0x7C23_1048, ByteBits(0x32));
  }

  lemma Digit3()
    ensures Register(0xB0AC_BB32, ByteBits(0x33)) == 0x77B7_9C2D
  {
    EightBits(0xB0AC_BB32, ByteBits(0x33));
  }

  lemma Digit4()
    ensures Register(0x77B7_9C2D, ByteBits(0x34)) == 0x641C_1F5C
  {
    EightBits(0x77B7_9C2D, ByteBits(0x34));
  }

  lemma Digit5()
    ensures Register(0x641C_1F5C, ByteBits(0x35)) == 0x340A_C5E3
  {
    EightBits(0x641C_1F5C, ByteBits(0x35));
  }

  lemma Digit6()
    ensures Register(0x340A_C5E3, ByteBits(0x36)) == 0xF68D_2C9E
  {
    EightBits(0x340A_C5E3, ByteBits(0x36));
  }

  lemma Digit7()
    ensures Register(0xF68D_2C9E, ByteBits(0x37)) == 0xAFFC_9660
  {
    EightBits(0xF68D_2C9E, ByteBits(0x37));
  }

  lemma Digit8()
    ensures Register(0xAFFC_9660, ByteBits(0x38)) == 0x651F_2550
  {
    EightBits(0xAFFC_9660, ByteBits(0x38));
  }

  lemma Digit9()
    ensures Register(0x651F_2550, ByteBits(0x39)) == 0x340B_C6D9
  {
    EightBits(0x651F_2550, ByteBits(0x39));
  }

  lemma CheckValue()
    ensures Crc32(CHECK_INPUT) == 0xCBF4_3926
    ensures Crc32([]) == 0
  {
    hide Register, Bits, ByteBits;
    var data := CHECK_INPUT;
    NoBits(0xFFFF_FFFF);
    assert data[..0] == [];
    Digit1();
    NextByte(data, 0, 0xFFFF_FFFF, 0x7C23_1048);
    Digit2();
    NextByte(data, 1, 0x7C23_1048, 0xB0AC_BB32);
    Digit3();
    NextByte(data, 2, 0xB0AC_BB32, 0x77B7_9C2D);
    Digit4();
    NextByte(data, 3, 0x77B7_9C2D, 0x641C_1F5C);
    Digit5();
    NextByte(data, 4, 0x641C_1F5C, 0x340A_C5E3);
    Digit6();
    NextByte(data, 5, 0x340A_C5E3, 0xF68D_2C9E);
    Digit7();
    NextByte(data, 6, 0xF68D_2C9E, 0xAFFC_9660);
    Digit8();
    NextByte(data, 7, 0xAFFC_9660, 0x651F_2550);
    Digit9();
    NextByte(data, 8, 0x651F_2550, 0x340B_C6D9);
    assert data[..9] == data;
  }

  // ----- Error detection --------------------------------------------------------------------------

  // The upper 32 - k bits.
  function HighBits(k: nat): bv32 {
    if k == 0 then 0xFFFF_FFFF else HighBits(k - 1) << 1
  }

  lemma {:induction false} HighBitsNest(k: nat)
    ensures HighBits(k + 1) & HighBits(k) == HighBits(k + 1)
  {
    if k > 0 {
      HighBitsNest(k - 1);
      var m := HighBits(k - 1);
      assert (m << 1) & m == m << 1 ==> ((m << 1) << 1) & (m << 1) == (m << 1) << 1;
    }
  }

  lemma {:induction false} HighBitsTop(k: nat)
    requires k <= 31
    ensures HighBits(k) & 0x8000_0000 == 0x8000_0000
    decreases 31 - k
  {
    if k == 31 {
      assert HighBits(8) == 0xFFFF_FF00 && HighBits(16) == 0xFFFF_0000 && HighBits(24) == 0xFF00_0000;
    } else {
      HighBitsTop(k + 1);
      HighBitsNest(k);
      Contains(HighBits(k), HighBits(k + 1), 0x8000_0000);
    }
  }

  lemma Contains(x: bv32, y: bv32, z: bv32)
    requires y & x == y && y & z == z
    ensures x & z == z
  {
  }

  // A register that reaches zero within 32 bits: it held nothing above them, and its lowest bit cancelled
  // the first incoming bit.
  lemma {:induction false} BackFromZero(reg: bv32, w: seq<bool>)
    requires |w| <= 32 && Register(reg, w) == 0
    ensures reg & HighBits(|w|) == 0
    ensures w != [] ==> ((reg & 1) == 1) == w[0]
    decreases |w|
  {
    if w == [] {
      assert reg & HighBits(0) == 0;
    } else {
      var next := Shift(reg, w[0]);
      BackFromZero(next, w[1..]);
      HighBitsTop(|w| - 1);
      NoFeedback(reg, w[0], HighBits(|w| - 1));
    }
  }

  lemma NoFeedback(reg: bv32, bit: bool, high: bv32)
    requires Shift(reg, bit) & high == 0 && high & 0x8000_0000 == 0x8000_0000
    ensures ((reg & 1) == 1) == bit && reg & (high << 1) == 0
  {
    var next := Shift(reg, bit);
    assert next & 0x8000_0000 == 0;
    assert ((reg >> 1) ^ POLYNOMIAL) & 0x8000_0000 == 0x8000_0000;
  }

  // A burst that starts in a zero register and leaves it zero is no burst.
  lemma {:induction false} NoSilentBurst(w: seq<bool>)
    requires |w| <= 32 && Register(0, w) == 0
    ensures forall i :: 0 <= i < |w| ==> !w[i]
    decreases |w|
  {
    if w != [] {
      BackFromZero(0, w);
      assert Shift(0, false) == 0;
      NoSilentBurst(w[1..]);
      assert forall i :: 0 < i < |w| ==> w[i] == w[1..][i - 1];
    }
  }

  function Xor(a: seq<bool>, b: seq<bool>): seq<bool>
    requires |a| == |b|
  {
    seq(|a|, i requires 0 <= i < |a| => a[i] != b[i])
  }

  lemma {:induction false} RegisterXor(r: bv32, s: bv32, a: seq<bool>, b: seq<bool>)
    requires |a| == |b|
    ensures Register(X(r, s), Xor(a, b)) == X(Register(r, a), Register(s, b))
    decreases |a|
  {
    hide Shift, X;
    if a != [] {
      ShiftXor(r, s, a[0], b[0]);
      RegisterXor(Shift(r, a[0]), Shift(s, b[0]), a[1..], b[1..]);
      assert Xor(a, b)[1..] == Xor(a[1..], b[1..]);
    }
  }

  lemma {:induction false} RegisterInjective(r: bv32, s: bv32, bits: seq<bool>)
    requires Register(r, bits) == Register(s, bits)
    ensures r == s
    decreases |bits|
  {
    if bits != [] {
      RegisterInjective(Shift(r, bits[0]), Shift(s, bits[0]), bits[1..]);
      ShiftInjective(r, s, bits[0]);
    }
  }

  lemma ShiftInjective(r: bv32, s: bv32, bit: bool)
    requires Shift(r, bit) == Shift(s, bit)
    ensures r == s
  {
  }

  // Bit strings that agree outside 32 consecutive bits and leave the same register are the same.
  lemma SameRegister(reg: bv32, a: seq<bool>, b: seq<bool>, k: nat, n: nat)
    requires |a| == |b| && k + n <= |a| && n <= 32
    requires a[..k] == b[..k] && a[k + n..] == b[k + n..] && Register(reg, a) == Register(reg, b)
    ensures a == b
  {
    hide Register, X;
    var u, v, tail := a[k..k + n], b[k..k + n], a[k + n..];
    assert a == a[..k] + (u + tail) && b == a[..k] + (v + tail);
    var p := Register(reg, a[..k]);
    RegisterConcat(reg, a[..k], u + tail);
    RegisterConcat(reg, a[..k], v + tail);
    RegisterConcat(p, u, tail);
    RegisterConcat(p, v, tail);
    RegisterInjective(Register(p, u), Register(p, v), tail);
    RegisterXor(p, p, u, v);
    XZero(p);
    XZero(Register(p, u));
    NoSilentBurst(Xor(u, v));
    forall i | 0 <= i < n ensures u[i] == v[i] { assert !Xor(u, v)[i]; }
    assert u == v;
  }

  // Two bit strings that differ, but only within 32 consecutive bits, leave different registers.
  lemma BurstDetected(reg: bv32, a: seq<bool>, b: seq<bool>, k: nat, n: nat)
    requires |a| == |b| && k + n <= |a| && n <= 32
    requires a[..k] == b[..k] && a[k + n..] == b[k + n..] && a != b
    ensures Register(reg, a) != Register(reg, b)
  {
    if Register(reg, a) == Register(reg, b) { SameRegister(reg, a, b, k, n); }
  }

  lemma {:induction false} BitsConcat(a: seq<bv8>, b: seq<bv8>)
    ensures Bits(a + b) == Bits(a) + Bits(b)
    decreases |b|
  {
    hide ByteBits;
    if b == [] {
      assert a + b == a;
    } else {
      assert (a + b)[..|a + b| - 1] == a + b[..|b| - 1];
      BitsConcat(a, b[..|b| - 1]);
      assert Bits(a) + Bits(b[..|b| - 1]) + ByteBits(b[|b| - 1]) ==
             Bits(a) + (Bits(b[..|b| - 1]) + ByteBits(b[|b| - 1]));
    }
  }

  lemma ByteBitsInjective(a: bv8, b: bv8)
    requires ByteBits(a) == ByteBits(b)
    ensures a == b
  {
    var s, t := ByteBits(a), ByteBits(b);
    assert s[0] == t[0] && s[1] == t[1] && s[2] == t[2] && s[3] == t[3] && s[4] == t[4] && s[5] == t[5]
           && s[6] == t[6] && s[7] == t[7];
  }

  lemma {:induction false} BitsInjective(a: seq<bv8>, b: seq<bv8>)
    requires |a| == |b| && Bits(a) == Bits(b)
    ensures a == b
    decreases |a|
  {
    hide ByteBits;
    if a != [] {
      var n := |a| - 1;
      assert Bits(a)[..8 * n] == Bits(a[..n]) && Bits(b)[..8 * n] == Bits(b[..n]);
      assert Bits(a)[8 * n..] == ByteBits(a[n]) && Bits(b)[8 * n..] == ByteBits(b[n]);
      BitsInjective(a[..n], b[..n]);
      ByteBitsInjective(a[n], b[n]);
      assert a == a[..n] + [a[n]] && b == b[..n] + [b[n]];
    }
  }

  // Payloads of equal length that differ only within 32 consecutive bits have different checksums.
  lemma {:induction false} DamageDetected(a: seq<bv8>, b: seq<bv8>, k: nat, n: nat)
    requires |a| == |b| && k + n <= 8 * |a| && n <= 32 && a != b
    requires Bits(a)[..k] == Bits(b)[..k] && Bits(a)[k + n..] == Bits(b)[k + n..]
    ensures Crc32(a) != Crc32(b)
  {
    hide Register, Bits;
    if Bits(a) == Bits(b) { BitsInjective(a, b); }
    BurstDetected(0xFFFF_FFFF, Bits(a), Bits(b), k, n);
    NotInjective(Register(0xFFFF_FFFF, Bits(a)), Register(0xFFFF_FFFF, Bits(b)));
  }

  lemma NotInjective(x: bv32, y: bv32)
    ensures !x == !y ==> x == y
  {
  }

  lemma {:induction false} SplitBits(a: seq<bv8>, k: nat)
    requires k <= |a|
    ensures Bits(a)[..8 * k] == Bits(a[..k]) && Bits(a)[8 * k..] == Bits(a[k..])
  {
    hide Bits;
    assert a == a[..k] + a[k..];
    BitsConcat(a[..k], a[k..]);
  }

  lemma {:induction false} WindowBits(a: seq<bv8>, b: seq<bv8>, k: nat)
    requires |a| == |b| && k + 4 <= |a|
    requires a[..k] == b[..k] && a[k + 4..] == b[k + 4..]
    ensures Bits(a)[..8 * k] == Bits(b)[..8 * k] && Bits(a)[8 * k + 32..] == Bits(b)[8 * k + 32..]
  {
    hide Bits;
    SplitBits(a, k);
    SplitBits(b, k);
    SplitBits(a, k + 4);
    SplitBits(b, k + 4);
    assert 8 * (k + 4) == 8 * k + 32;
  }

  // In particular, payloads that differ only within four consecutive bytes.
  lemma WindowDetected(a: seq<bv8>, b: seq<bv8>, k: nat)
    requires |a| == |b| && k + 4 <= |a| && a != b
    requires a[..k] == b[..k] && a[k + 4..] == b[k + 4..]
    ensures Crc32(a) != Crc32(b)
  {
    hide Bits, Crc32;
    WindowBits(a, b, k);
    DamageDetected(a, b, 8 * k, 32);
  }
}
