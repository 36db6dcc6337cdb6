/** The game's 256-entry checksum table and its XOR-linearity. */
module CrcTables {
  // The bit operations, named so that the proofs below can use their laws one at a time.

  function Xor8(x: bv8, y: bv8): bv8 { x ^ y }

  function Xor32(x: bv32, y: bv32): bv32 { x ^ y }

  function Not(x: bv32): bv32 { !x }

  function LowByte(x: bv32): bv8 { (x & 0xFF) as bv8 }

  function ShiftByte(x: bv32): bv32 { x >> 8 }

  /** The 256 table entries, by quarters; in each, eight to a row, in index order. */
  function CrcTable(i: bv8): bv32
  {
    if i & 0x80 == 0 then
      if i & 0x40 == 0 then FirstQuarter(i) else SecondQuarter(i)
    else
      if i & 0x40 == 0 then ThirdQuarter(i) else FourthQuarter(i)
  }

  function FirstQuarter(i: bv8): bv32
  {
    if i & 0x20 == 0 then
      if i & 0x10 == 0 then
        if i & 0x08 == 0 then
          Octet(i, 0x00000000, 0x09073096, 0x120E612C, 0x1B0951BA, 0xFF6DC419, 0xF66AF48F, 0xED63A535, 0xE46495A3)
        else
          Octet(i, 0xFEDB8832, 0xF7DCB8A4, 0xECD5E91E, 0xE5D2D988, 0x01B64C2B, 0x08B17CBD, 0x13B82D07, 0x1ABF1D91)
      else
        if i & 0x08 == 0 then
          Octet(i, 0xFDB71064, 0xF4B020F2, 0xEFB97148, 0xE6BE41DE, 0x02DAD47D, 0x0BDDE4EB, 0x10D4B551, 0x19D385C7)
        else
          Octet(i, 0x036C9856, 0x0A6BA8C0, 0x1162F97A, 0x1865C9EC, 0xFC015C4F, 0xF5066CD9, 0xEE0F3D63, 0xE7080DF5)
    else
      if i & 0x10 == 0 then
        if i & 0x08 == 0 then
          Octet(i, 0xFB6E20C8, 0xF269105E, 0xE96041E4, 0xE0677172, 0x0403E4D1, 0x0D04D447, 0x160D85FD, 0x1F0AB56B)
        else
          Octet(i, 0x05B5A8FA, 0x0CB2986C, 0x17BBC9D6, 0x1EBCF940, 0xFAD86CE3, 0xF3DF5C75, 0xE8D60DCF, 0xE1D13D59)
      else
        if i & 0x08 == 0 then
          Octet(i, 0x06D930AC, 0x0FDE003A, 0x14D75180, 0x1DD06116, 0xF9B4F4B5, 0xF0B3C423, 0xEBBA9599, 0xE2BDA50F)
        else
          Octet(i, 0xF802B89E, 0xF1058808, 0xEA0CD9B2, 0xE30BE924, 0x076F7C87, 0x0E684C11, 0x15611DAB, 0x1C662D3D)
  }

  function SecondQuarter(i: bv8): bv32
  {
    if i & 0x20 == 0 then
      if i & 0x10 == 0 then
        if i & 0x08 == 0 then
          Octet(i, 0xF6DC4190, 0xFFDB7106, 0xE4D220BC, 0xEDD5102A, 0x09B18589, 0x00B6B51F, 0x1BBFE4A5, 0x12B8D433)
        else
          Octet(i, 0x0807C9A2, 0x0100F934, 0x1A09A88E, 0x130E9818, 0xF76A0DBB, 0xFE6D3D2D, 0xE5646C97, 0xEC635C01)
      else
        if i & 0x08 == 0 then
          Octet(i, 0x0B6B51F4, 0x026C6162, 0x196530D8, 0x1062004E, 0xF40695ED, 0xFD01A57B, 0xE608F4C1, 0xEF0FC457)
        else
          Octet(i, 0xF5B0D9C6, 0xFCB7E950, 0xE7BEB8EA, 0xEEB9887C, 0x0ADD1DDF, 0x03DA2D49, 0x18D37CF3, 0x11D44C65)
    else
      if i & 0x10 == 0 then
        if i & 0x08 == 0 then
          Octet(i, 0x0DB26158, 0x04B551CE, 0x1FBC0074, 0x16BB30E2, 0xF2DFA541, 0xFBD895D7, 0xE0D1C46D, 0xE9D6F4FB)
        else
          Octet(i, 0xF369E96A, 0xFA6ED9FC, 0xE1678846, 0xE860B8D0, 0x0C042D73, 0x05031DE5, 0x1E0A4C5F, 0x170D7CC9)
      else
        if i & 0x08 == 0 then
          Octet(i, 0xF005713C, 0xF90241AA, 0xE20B1010, 0xEB0C2086, 0x0F68B525, 0x066F85B3, 0x1D66D409, 0x1461E49F)
        else
          Octet(i, 0x0EDEF90E, 0x07D9C998, 0x1CD09822, 0x15D7A8B4, 0xF1B33D17, 0xF8B40D81, 0xE3BD5C3B, 0xEABA6CAD)
  }

  function ThirdQuarter(i: bv8): bv32
  {
    if i & 0x20 == 0 then
      if i & 0x10 == 0 then
        if i & 0x08 == 0 then
          Octet(i, 0xEDB88320, 0xE4BFB3B6, 0xFFB6E20C, 0xF6B1D29A, 0x12D54739, 0x1BD277AF, 0x00DB2615, 0x09DC1683)
        else
          Octet(i, 0x13630B12, 0x1A643B84, 0x016D6A3E, 0x086A5AA8, 0xEC0ECF0B, 0xE509FF9D, 0xFE00AE27, 0xF7079EB1)
      else
        if i & 0x08 == 0 then
          Octet(i, 0x100F9344, 0x1908A3D2, 0x0201F268, 0x0B06C2FE, 0xEF62575D, 0xE66567CB, 0xFD6C3671, 0xF46B06E7)
        else
          Octet(i, 0xEED41B76, 0xE7D32BE0, 0xFCDA7A5A, 0xF5DD4ACC, 0x11B9DF6F, 0x18BEEFF9, 0x03B7BE43, 0x0AB08ED5)
    else
      if i & 0x10 == 0 then
        if i & 0x08 == 0 then
          Octet(i, 0x16D6A3E8, 0x1FD1937E, 0x04D8C2C4, 0x0DDFF252, 0xE9BB67F1, 0xE0BC5767, 0xFBB506DD, 0xF2B2364B)
        else
          Octet(i, 0xE80D2BDA, 0xE10A1B4C, 0xFA034AF6, 0xF3047A60, 0x1760EFC3, 0x1E67DF55, 0x056E8EEF, 0x0C69BE79)
      else
        if i & 0x08 == 0 then
          Octet(i, 0xEB61B38C, 0xE266831A, 0xF96FD2A0, 0xF068E236, 0x140C7795, 0x1D0B4703, 0x060216B9, 0x0F05262F)
        else
          Octet(i, 0x15BA3BBE, 0x1CBD0B28, 0x07B45A92, 0x0EB36A04, 0xEAD7FFA7, 0xE3D0CF31, 0xF8D99E8B, 0xF1DEAE1D)
  }

  function FourthQuarter(i: bv8): bv32
  {
    if i & 0x20 == 0 then
      if i & 0x10 == 0 then
        if i & 0x08 == 0 then
          Octet(i, 0x1B64C2B0, 0x1263F226, 0x096AA39C, 0x006D930A, 0xE40906A9, 0xED0E363F, 0xF6076785, 0xFF005713)
        else
          Octet(i, 0xE5BF4A82, 0xECB87A14, 0xF7B12BAE, 0xFEB61B38, 0x1AD28E9B, 0x13D5BE0D, 0x08DCEFB7, 0x01DBDF21)
      else
        if i & 0x08 == 0 then
          Octet(i, 0xE6D3D2D4, 0xEFD4E242, 0xF4DDB3F8, 0xFDDA836E, 0x19BE16CD, 0x10B9265B, 0x0BB077E1, 0x02B74777)
        else
          Octet(i, 0x18085AE6, 0x110F6A70, 0x0A063BCA, 0x03010B5C, 0xE7659EFF, 0xEE62AE69, 0xF56BFFD3, 0xFC6CCF45)
    else
      if i & 0x10 == 0 then
        if i & 0x08 == 0 then
          Octet(i, 0xE00AE278, 0xE90DD2EE, 0xF2048354, 0xFB03B3C2, 0x1F672661, 0x166016F7, 0x0D69474D, 0x046E77DB)
        else
          Octet(i, 0x1ED16A4A, 0x17D65ADC, 0x0CDF0B66, 0x05D83BF0, 0xE1BCAE53, 0xE8BB9EC5, 0xF3B2CF7F, 0xFAB5FFE9)
      else
        if i & 0x08 == 0 then
          Octet(i, 0x1DBDF21C, 0x14BAC28A, 0x0FB39330, 0x06B4A3A6, 0xE2D03605, 0xEBD70693, 0xF0DE5729, 0xF9D967BF)
        else
          Octet(i, 0xE3667A2E, 0xEA614AB8, 0xF1681B02, 0xF86F2B94, 0x1C0BBE37, 0x150C8EA1, 0x0E05DF1B, 0x0702EF8D)
  }

  function Octet(i: bv8, e0: bv32, e1: bv32, e2: bv32, e3: bv32, e4: bv32, e5: bv32, e6: bv32, e7: bv32): bv32
  {
    if i & 4 == 0 then
      if i & 2 == 0 then (if i & 1 == 0 then e0 else e1) else (if i & 1 == 0 then e2 else e3)
    else
      if i & 2 == 0 then (if i & 1 == 0 then e4 else e5) else (if i & 1 == 0 then e6 else e7)
  }

  // XOR-linearity of the table.

  ghost predicate Linear(t: bv8 -> bv32)
  {
    forall a, b :: t(Xor8(a, b)) == Xor32(t(a), t(b))
  }

  ghost predicate SingleBit(b: bv8)
  {
    b == 1 || b == 2 || b == 4 || b == 8 || b == 16 || b == 32 || b == 64 || b == 128
  }

  predicate HasBit(i: bv8, bit: bv8) { i & bit != 0 }

  function Bit(i: bv8, bit: bv8, entry: bv32): bv32 { if HasBit(i, bit) then entry else 0 }

  /** The entries of the single bits below 64 that an index has. */
  function LowBits(i: bv8): bv32
  {
    Xor32(Xor32(Bit(i, 1, 0x09073096), Bit(i, 2, 0x120E612C)),
          Xor32(Xor32(Bit(i, 4, 0xFF6DC419), Bit(i, 8, 0xFEDB8832)),
                Xor32(Bit(i, 16, 0xFDB71064), Bit(i, 32, 0xFB6E20C8))))
  }

  function HighBits(i: bv8): bv32
  {
    Xor32(Bit(i, 64, 0xF6DC4190), Bit(i, 128, 0xEDB88320))
  }

  lemma FirstQuarterSplits(i: bv8)
    ensures FirstQuarter(i) == Xor32(0x00000000, LowBits(i))
  {
  }

  lemma SecondQuarterSplits(i: bv8)
    ensures SecondQuarter(i) == Xor32(0xF6DC4190, LowBits(i))
  {
  }

  lemma ThirdQuarterSplits(i: bv8)
    ensures ThirdQuarter(i) == Xor32(0xEDB88320, LowBits(i))
  {
  }

  lemma FourthQuarterSplits(i: bv8)
    ensures FourthQuarter(i) == Xor32(0x1B64C2B0, LowBits(i))
  {
  }

  /** Every entry is the exclusive or of the entries of its index's bits. */
  lemma TableSplits(i: bv8)
    ensures CrcTable(i) == Xor32(HighBits(i), LowBits(i))
  {
    FirstQuarterSplits(i);
    SecondQuarterSplits(i);
    ThirdQuarterSplits(i);
    FourthQuarterSplits(i);
  }

  lemma XorAssociates(x: bv32, y: bv32, z: bv32)
    ensures Xor32(Xor32(x, y), z) == Xor32(x, Xor32(y, z))
  {
    assert (x ^ y) ^ z == x ^ (y ^ z);
  }

  lemma XorCommutes(x: bv32, y: bv32)
    ensures Xor32(x, y) == Xor32(y, x)
  {
  }

  lemma XorUnit(x: bv32)
    ensures Xor32(0, x) == x && Xor32(x, 0) == x && Xor32(x, x) == 0
  {
  }

  lemma SwapWords(a: bv32, b: bv32, c: bv32, d: bv32)
    ensures Xor32(Xor32(a, b), Xor32(c, d)) == Xor32(Xor32(a, c), Xor32(b, d))
  {
    XorAssociates(a, b, Xor32(c, d));
    XorAssociates(b, c, d);
    XorCommutes(b, c);
    XorAssociates(c, b, d);
    XorAssociates(a, c, Xor32(b, d));
  }

  function Single(bit: bv8, entry: bv32): bv8 -> bv32 { i => Bit(i, bit, entry) }

  function Both(f: bv8 -> bv32, g: bv8 -> bv32): bv8 -> bv32 { i => Xor32(f(i), g(i)) }

  lemma BitOfXor(a: bv8, b: bv8, bit: bv8)
    requires SingleBit(bit)
    ensures HasBit(Xor8(a, b), bit) <==> HasBit(a, bit) != HasBit(b, bit)
  {
  }

  lemma SingleIsLinear(bit: bv8, entry: bv32)
    requires SingleBit(bit)
    ensures Linear(Single(bit, entry))
  {
    forall a, b ensures Bit(Xor8(a, b), bit, entry) == Xor32(Bit(a, bit, entry), Bit(b, bit, entry)) {
      BitOfXor(a, b, bit);
      XorUnit(entry);
      XorUnit(0);
    }
  }

  lemma BothAreLinear(f: bv8 -> bv32, g: bv8 -> bv32)
    requires Linear(f) && Linear(g)
    ensures Linear(Both(f, g))
  {
    forall a, b ensures Both(f, g)(Xor8(a, b)) == Xor32(Both(f, g)(a), Both(f, g)(b)) {
      SwapWords(f(a), f(b), g(a), g(b));
    }
  }

  function Pair(x: bv8, e: bv32, y: bv8, f: bv32): (pair: bv8 -> bv32)
    requires SingleBit(x) && SingleBit(y)
    ensures Linear(pair)
  {
    SingleIsLinear(x, e);
    SingleIsLinear(y, f);
    BothAreLinear(Single(x, e), Single(y, f));
    Both(Single(x, e), Single(y, f))
  }

  function High(): bv8 -> bv32 { Pair(64, 0xF6DC4190, 128, 0xEDB88320) }

  function Low(): bv8 -> bv32
  {
    Both(Pair(1, 0x09073096, 2, 0x120E612C),
         Both(Pair(4, 0xFF6DC419, 8, 0xFEDB8832), Pair(16, 0xFDB71064, 32, 0xFB6E20C8)))
  }

  lemma LowIsLinear()
    ensures Linear(Low())
  {
    var q, r := Pair(4, 0xFF6DC419, 8, 0xFEDB8832), Pair(16, 0xFDB71064, 32, 0xFB6E20C8);
    BothAreLinear(q, r);
    BothAreLinear(Pair(1, 0x09073096, 2, 0x120E612C), Both(q, r));
  }

  /** The entries of the eight single bits, which determine the table. */
  lemma TableBasis()
    ensures CrcTable(1) == 0x09073096 && CrcTable(2) == 0x120E612C && CrcTable(4) == 0xFF6DC419
    ensures CrcTable(8) == 0xFEDB8832 && CrcTable(16) == 0xFDB71064 && CrcTable(32) == 0xFB6E20C8
    ensures CrcTable(64) == 0xF6DC4190 && CrcTable(128) == 0xEDB88320
  {
  }

  lemma TableIsSum(i: bv8)
    ensures CrcTable(i) == Both(High(), Low())(i)
  {
    assert High()(i) == HighBits(i);
    assert Low()(i) == LowBits(i);
    TableSplits(i);
  }

  lemma SameIsLinear(f: bv8 -> bv32, g: bv8 -> bv32)
    requires Linear(g) && forall i :: f(i) == g(i)
    ensures Linear(f)
  {
  }

  /** All 65536 pairs: the entry of an XOR is the XOR of the entries. */
  lemma TableLinear()
    ensures Linear(CrcTable)
  {
    LowIsLinear();
    BothAreLinear(High(), Low());
    forall i ensures CrcTable(i) == Both(High(), Low())(i) {
      TableIsSum(i);
    }
    SameIsLinear(CrcTable, Both(High(), Low()));
  }
}

/** The game's table-driven checksum. */
module Checksum {
  import opened Bytes
  import opened CrcTables

  const CHECKSUM_SEED: bv32 := 0xFEDC_BA76

  /** One turn of the checksum loop over the lookup table `t`. */
  function Step(t: bv8 -> bv32, crc: bv32, b: bv8): bv32
  {
    Xor32(ShiftByte(crc), t(Xor8(b, LowByte(crc))))
  }

  function StepOf(t: bv8 -> bv32): (bv32, bv8) -> bv32 { (crc, b) => Step(t, crc, b) }

  function Fold<S, B>(turn: (S, B) -> S, s: seq<B>, start: S): S
  {
    if s == [] then start else Fold(turn, s[1..], turn(start, s[0]))
  }

  function Crc32(t: bv8 -> bv32, s: seq<bv8>, start: bv32): bv32
  {
    Not(Fold(StepOf(t), s, Not(start)))
  }

  /** The checksum loop itself. */
  method ComputeCrc32(t: bv8 -> bv32, s: seq<bv8>, start: bv32) returns (result: bv32)
    ensures result == Crc32(t, s, start)
  {
    var crc := Not(start);
    var i := 0;
    while i < |s|
      invariant 0 <= i <= |s|
      invariant Fold(StepOf(t), s[i..], crc) == Fold(StepOf(t), s, Not(start))
    {
      assert s[i..][1..] == s[i + 1..];
      crc := Step(t, crc, s[i]);
      i := i + 1;
    }
    result := Not(crc);
  }

  /** Bytes are bit-vectors in this module and integers everywhere else. */
  function Bits(s: seq<byte>): seq<bv8>
  {
    seq(|s|, i requires 0 <= i < |s| => s[i] as bv8)
  }

  /** The value stored, little-endian, in the last four bytes of a save whose body is `s`. */
  function SaveChecksum(s: seq<byte>): u32
  {
    Crc32(CrcTable, Bits(s), CHECKSUM_SEED) as int
  }

  // A message checksummed in pieces.

  lemma {:induction false} FoldConcat<S, B>(turn: (S, B) -> S, a: seq<B>, b: seq<B>, start: S)
    ensures Fold(turn, a + b, start) == Fold(turn, b, Fold(turn, a, start))
  {
    if a == [] {
      assert a + b == b;
    } else {
      assert (a + b)[1..] == a[1..] + b;
      FoldConcat(turn, a[1..], b, turn(start, a[0]));
    }
  }

  lemma NotNot(x: bv32)
    ensures Not(Not(x)) == x
  {
  }

  /** The first part's checksum seeds the second part's, whatever the table. */
  lemma ChecksumChains(t: bv8 -> bv32, a: seq<bv8>, b: seq<bv8>, seed: bv32)
    ensures Crc32(t, a + b, seed) == Crc32(t, b, Crc32(t, a, seed))
  {
    FoldConcat(StepOf(t), a, b, Not(seed));
    NotNot(Fold(StepOf(t), a, Not(seed)));
  }

  // What one byte does.

  /** The four bytes of a word, least significant first. */
  function FourOf(x: bv32): seq<bv8>
  {
    [(x & 0xFF) as bv8, ((x >> 8) & 0xFF) as bv8, ((x >> 16) & 0xFF) as bv8, ((x >> 24) & 0xFF) as bv8]
  }

  /** A byte equal to the low byte of the state only shifts the state. */
  lemma ShiftedOut(t: bv8 -> bv32, crc: bv32)
    requires t(0) == 0
    ensures Step(t, crc, LowByte(crc)) == ShiftByte(crc)
  {
    XorSelf(LowByte(crc));
    XorUnit(ShiftByte(crc));
  }

  lemma XorSelf(b: bv8)
    ensures Xor8(b, b) == 0
  {
  }

  lemma BytesShift(x: bv32)
    ensures var y := ShiftByte(x); var z := ShiftByte(y); var u := ShiftByte(z);
      FourOf(x) == [LowByte(x), LowByte(y), LowByte(z), LowByte(u)] && ShiftByte(u) == 0
  {
  }

  lemma FoldFour<S, B>(turn: (S, B) -> S, a: B, b: B, c: B, d: B, start: S)
    ensures Fold(turn, [a, b, c, d], start) == turn(turn(turn(turn(start, a), b), c), d)
  {
    FoldOne(turn, a, [b, c, d], start);
    FoldOne(turn, b, [c, d], turn(start, a));
    FoldOne(turn, c, [d], turn(turn(start, a), b));
    FoldOne(turn, d, [], turn(turn(turn(start, a), b), c));
    assert [a] + [b, c, d] == [a, b, c, d] && [b] + [c, d] == [b, c, d] && [c] + [d] == [c, d] && [d] + [] == [d];
  }

  lemma FoldOne<S, B>(turn: (S, B) -> S, first: B, rest: seq<B>, start: S)
    ensures Fold(turn, [first] + rest, start) == Fold(turn, rest, turn(start, first))
  {
    assert ([first] + rest)[1..] == rest;
  }

  lemma StateRunsOut(t: bv8 -> bv32, x: bv32)
    requires t(0) == 0
    ensures Fold(StepOf(t), FourOf(x), x) == 0
  {
    var y := ShiftByte(x);
    var z := ShiftByte(y);
    var u := ShiftByte(z);
    BytesShift(x);
    ShiftedOut(t, x);
    ShiftedOut(t, y);
    ShiftedOut(t, z);
    ShiftedOut(t, u);
    FoldFour(StepOf(t), LowByte(x), LowByte(y), LowByte(z), LowByte(u), x);
  }

  lemma FirstEntry()
    ensures CrcTable(0) == 0
  {
  }

  /** The residue: a message followed by the complement of its checksum has the checksum of all ones. */
  lemma Residue(s: seq<bv8>, seed: bv32)
    ensures Crc32(CrcTable, s + FourOf(Not(Crc32(CrcTable, s, seed))), seed) == 0xFFFF_FFFF
  {
    var turn, state := StepOf(CrcTable), Fold(StepOf(CrcTable), s, Not(seed));
    FirstEntry();
    NotNot(state);
    FoldConcat(turn, s, FourOf(state), Not(seed));
    StateRunsOut(CrcTable, state);
    NotZero();
  }

  lemma NotZero()
    ensures Not(0) == 0xFFFF_FFFF && Not(0xFFFF_FFFF) == 0
  {
  }

  /** From state zero one byte looks its table entry up. */
  lemma OneByte(b: bv8)
    ensures Crc32(CrcTable, [b], 0xFFFF_FFFF) == Not(CrcTable(b))
  {
    NotZero();
    assert [b][1..] == [];
    assert Fold(StepOf(CrcTable), [b], 0) == Step(CrcTable, 0, b);
    ZeroState(b, CrcTable(b));
  }

  lemma ZeroState(b: bv8, entry: bv32)
    ensures Xor8(b, LowByte(0)) == b && Xor32(ShiftByte(0), entry) == entry
  {
  }

  /** An empty save body would store the seed. */
  lemma EmptyChecksum()
    ensures SaveChecksum([]) == 0xFEDC_BA76
  {
    assert Bits([]) == [];
    NotNot(CHECKSUM_SEED);
  }

  // Checksums of messages of one length.

  function Zip<B>(add: (B, B) -> B, a: seq<B>, b: seq<B>): (r: seq<B>)
    requires |a| == |b|
    ensures |r| == |a|
  {
    seq(|a|, i requires 0 <= i < |a| => add(a[i], b[i]))
  }

  function XorAll(a: seq<bv8>, b: seq<bv8>): (r: seq<bv8>)
    requires |a| == |b|
    ensures |r| == |a|
  {
    Zip(Xor8, a, b)
  }

  lemma ByteLaws(x: bv32, y: bv32)
    ensures LowByte(Xor32(x, y)) == Xor8(LowByte(x), LowByte(y))
    ensures ShiftByte(Xor32(x, y)) == Xor32(ShiftByte(x), ShiftByte(y))
  {
  }

  lemma SwapBytes(a: bv8, b: bv8, c: bv8, d: bv8)
    ensures Xor8(Xor8(a, b), Xor8(c, d)) == Xor8(Xor8(a, c), Xor8(b, d))
  {
    assert (a ^ b) ^ (c ^ d) == (a ^ c) ^ (b ^ d);
  }

  lemma StepLinear(t: bv8 -> bv32, x: bv32, a: bv8, y: bv32, b: bv8)
    requires Linear(t)
    ensures Step(t, Xor32(x, y), Xor8(a, b)) == Xor32(Step(t, x, a), Step(t, y, b))
  {
    ByteLaws(x, y);
    SwapBytes(a, b, LowByte(x), LowByte(y));
    SwapWords(ShiftByte(x), ShiftByte(y), t(Xor8(a, LowByte(x))), t(Xor8(b, LowByte(y))));
  }

  /** A turn that takes sums to sums. */
  ghost predicate Additive<S(!new), B(!new)>(turn: (S, B) -> S, sum: (S, S) -> S, add: (B, B) -> B)
  {
    forall x, a, y, b :: turn(sum(x, y), add(a, b)) == sum(turn(x, a), turn(y, b))
  }

  lemma {:induction false} FoldIsAdditive<S(!new), B(!new)>(turn: (S, B) -> S, sum: (S, S) -> S, add: (B, B) -> B,
                                                            a: seq<B>, x: S, b: seq<B>, y: S)
    requires Additive(turn, sum, add) && |a| == |b|
    ensures Fold(turn, Zip(add, a, b), sum(x, y)) == sum(Fold(turn, a, x), Fold(turn, b, y))
  {
    if a != [] {
      assert Zip(add, a, b)[1..] == Zip(add, a[1..], b[1..]);
      FoldIsAdditive(turn, sum, add, a[1..], turn(x, a[0]), b[1..], turn(y, b[0]));
    }
  }

  lemma XorOfNots(x: bv32, y: bv32)
    ensures Xor32(Not(x), Not(y)) == Xor32(x, y)
  {
  }

  lemma XorNot(x: bv32, y: bv32)
    ensures Xor32(x, Not(y)) == Not(Xor32(x, y))
  {
  }

  lemma ThreeTimes(s: bv32, x: bv32, y: bv32, z: bv32)
    ensures Xor32(Xor32(s, s), s) == s
    ensures Not(Xor32(Xor32(x, y), z)) == Xor32(Xor32(Not(x), Not(y)), Not(z))
  {
    XorUnit(s);
    XorOfNots(x, y);
    XorNot(Xor32(x, y), z);
  }

  /** With the real table, the checksums of three messages XOR to the checksum of their XOR. */
  lemma ChecksumAffine(a: seq<bv8>, b: seq<bv8>, c: seq<bv8>, seed: bv32)
    requires |a| == |b| == |c|
    ensures Xor32(Xor32(Crc32(CrcTable, a, seed), Crc32(CrcTable, b, seed)), Crc32(CrcTable, c, seed))
         == Crc32(CrcTable, XorAll(XorAll(a, b), c), seed)
  {
    TableLinear();
    AffineIfLinear(CrcTable, a, b, c, seed);
  }

  lemma AffineIfLinear(t: bv8 -> bv32, a: seq<bv8>, b: seq<bv8>, c: seq<bv8>, seed: bv32)
    requires Linear(t) && |a| == |b| == |c|
    ensures Xor32(Xor32(Crc32(t, a, seed), Crc32(t, b, seed)), Crc32(t, c, seed)) ==
      Crc32(t, XorAll(XorAll(a, b), c), seed)
  {
    var turn, s := StepOf(t), Not(seed);
    StepsAreAdditive(t);
    FoldIsAdditive(turn, Xor32, Xor8, a, s, b, s);
    FoldIsAdditive(turn, Xor32, Xor8, XorAll(a, b), Xor32(s, s), c, s);
    ThreeTimes(s, Fold(turn, a, s), Fold(turn, b, s), Fold(turn, c, s));
  }

  lemma StepsAreAdditive(t: bv8 -> bv32)
    requires Linear(t)
    ensures Additive(StepOf(t), Xor32, Xor8)
  {
    forall x, a, y, b ensures Step(t, Xor32(x, y), Xor8(a, b)) == Xor32(Step(t, x, a), Step(t, y, b)) {
      StepLinear(t, x, a, y, b);
    }
  }
}
