/** Bitwise OR on bytes. */
module ByteOr {
  import opened Bytes

  function Or8(a: bv8, b: bv8): bv8 { a | b }

  function ToBits(a: byte): bv8 { a as bv8 }

  /** Bitwise OR of two bytes. */
  function Or(a: byte, b: byte): byte { Or8(ToBits(a), ToBits(b)) as int }

  lemma Or8Laws(a: bv8, b: bv8, c: bv8)
    ensures Or8(a, b) == Or8(b, a) && Or8(a, a) == a && Or8(a, 0) == a && Or8(0, a) == a
    ensures Or8(Or8(a, b), c) == Or8(a, Or8(b, c))
  {
  }

  /** Bits to a byte and back. */
  lemma Back(v: bv8)
    ensures (v as int) as bv8 == v
  {
  }

  lemma Succ(v: bv8)
    requires v != 0xFF
    ensures (v + 1) as int == v as int + 1
  {
  }

  lemma Top(v: bv8)
    requires v as int != 255
    ensures v != 0xFF
  {
  }

  lemma {:induction false} Preimage(a: nat) returns (v: bv8)
    requires a < 0x100
    ensures v as int == a
  {
    v := 0;
    if a > 0 {
      var w := Preimage(a - 1);
      Top(w);
      Succ(w);
      v := w + 1;
    }
  }

  /** A byte to bits and back, from the byte having some bits at all. */
  lemma There(a: byte)
    ensures ToBits(a) as int == a
  {
    var v := Preimage(a);
    Back(v);
  }

  lemma OrCommutes(a: byte, b: byte)
    ensures Or(a, b) == Or(b, a) && Or(a, a) == a && Or(a, 0) == a && Or(0, a) == a
  {
    Or8Laws(ToBits(a), ToBits(b), 0); There(a);
  }

  lemma OrAssociates(a: byte, b: byte, c: byte)
    ensures Or(Or(a, b), c) == Or(a, Or(b, c))
  {
    var x, y, z := ToBits(a), ToBits(b), ToBits(c);
    Back(Or8(x, y)); Back(Or8(y, z));
    Or8Laws(x, y, z);
  }

  /** Bitwise OR of bytes is a join with least element 0. */
  lemma OrLaws(a: byte, b: byte, c: byte)
    ensures Or(a, b) == Or(b, a) && Or(a, a) == a && Or(a, 0) == a && Or(0, a) == a
    ensures Or(Or(a, b), c) == Or(a, Or(b, c))
  {
    OrCommutes(a, b);
    OrAssociates(a, b, c);
  }

  // Bit by bit.

  /** Binary digit `k` of a byte. */
  predicate Digit(a: byte, k: nat)
  {
    if k == 0 then a % 2 == 1 else Digit(a / 2, k - 1)
  }

  lemma Halves(v: bv8)
    ensures (v >> 1) as int == v as int / 2
    ensures (v & 1 == 1) <==> v as int % 2 == 1
  {
  }

  lemma OrHalves(x: bv8, y: bv8)
    ensures Or8(x, y) >> 1 == Or8(x >> 1, y >> 1)
    ensures Or8(x, y) & 1 == 1 <==> x & 1 == 1 || y & 1 == 1
  {
  }

  lemma HalfBits(a: byte)
    ensures ToBits(a) >> 1 == ToBits(a / 2) && (ToBits(a) & 1 == 1 <==> a % 2 == 1)
  {
    There(a);
    There(a / 2);
    Halves(ToBits(a));
    Back(ToBits(a) >> 1);
  }

  lemma OrHalf(a: byte, b: byte)
    ensures Or(a, b) / 2 == Or(a / 2, b / 2)
    ensures Or(a, b) % 2 == 1 <==> a % 2 == 1 || b % 2 == 1
  {
    HalfBits(a);
    HalfBits(b);
    OrHalves(ToBits(a), ToBits(b));
    Halves(Or8(ToBits(a), ToBits(b)));
  }

  /** A digit of the join is set if and only if it is set in one of the two. */
  lemma {:induction false} OrDigit(a: byte, b: byte, k: nat)
    ensures Digit(Or(a, b), k) <==> Digit(a, k) || Digit(b, k)
  {
    OrHalf(a, b);
    if k > 0 {
      OrDigit(a / 2, b / 2, k - 1);
    }
  }
}
