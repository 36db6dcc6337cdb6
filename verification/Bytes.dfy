/** Bytes, little-endian words and the optional results shared by every module. */
module Bytes {
  type byte = x: int | 0 <= x < 0x100
  type u32 = x: int | 0 <= x < 0x1_0000_0000

  /** `None` stands for every `bail!` of the modelled code; the message text is not modelled. */
  datatype Option<+T> = None | Some(value: T)

  function Zeros(n: nat): seq<byte> { seq(n, _ => 0) }

  function LE32(v: u32): (s: seq<byte>)
    ensures |s| == 4
  {
    [v % 0x100, v / 0x100 % 0x100, v / 0x100 / 0x100 % 0x100, v / 0x100 / 0x100 / 0x100]
  }

  /** The value of `n` bytes, least significant first. */
  function Value(s: seq<byte>, i: nat, n: nat): nat
    requires i + n <= |s|
    decreases |s| - i, n
  {
    if n == 0 then 0 else s[i] as int + 0x100 * Value(s, i + 1, n - 1)
  }

  function U32At(s: seq<byte>, i: nat): u32
    requires i + 4 <= |s|
  {
    FourBytes(s, i);
    Value(s, i, 4)
  }

  lemma FourBytes(s: seq<byte>, i: nat)
    requires i + 4 <= |s|
    ensures Value(s, i, 4) ==
      s[i] as int + 0x100 * (s[i + 1] as int) + 0x1_0000 * (s[i + 2] as int) + 0x100_0000 * (s[i + 3] as int)
  {
    assert Value(s, i + 3, 1) == s[i + 3] as int + 0x100 * Value(s, i + 4, 0);
    assert Value(s, i + 2, 2) == s[i + 2] as int + 0x100 * Value(s, i + 3, 1);
    assert Value(s, i + 1, 3) == s[i + 1] as int + 0x100 * Value(s, i + 2, 2);
  }

  function Max(a: int, b: int): int { if a < b then b else a }

  function Min(a: int, b: int): int { if a < b then a else b }

  /** Decoding undoes encoding. */
  lemma DecodeEncoded(v: u32)
    ensures U32At(LE32(v), 0) == v
  {
    FourBytes(LE32(v), 0);
  }

  /** Encoding undoes decoding. */
  lemma EncodeDecoded(s: seq<byte>, i: nat)
    requires i + 4 <= |s|
    ensures LE32(U32At(s, i)) == [s[i], s[i + 1], s[i + 2], s[i + 3]]
  {
    FourBytes(s, i);
    var high := s[i + 2] as int + 0x100 * (s[i + 3] as int);
    var middle := s[i + 1] as int + 0x100 * high;
    assert U32At(s, i) / 0x100 == middle;
    assert middle / 0x100 == high;
  }

  /** A word is determined by its four bytes and determines them. */
  lemma SameWord(s: seq<byte>, i: nat, t: seq<byte>, j: nat)
    requires i + 4 <= |s| && j + 4 <= |t|
    ensures U32At(s, i) == U32At(t, j)
      <==> s[i] == t[j] && s[i + 1] == t[j + 1] && s[i + 2] == t[j + 2] && s[i + 3] == t[j + 3]
  {
    FourBytes(s, i);
    FourBytes(t, j);
    EncodeDecoded(s, i);
    EncodeDecoded(t, j);
  }

  /** A slice of a slice is a slice. */
  lemma SubSlice<T>(s: seq<T>, i: nat, j: nat, a: nat, b: nat)
    requires i <= j <= |s| && a <= b <= j - i
    ensures s[i..j][a..b] == s[i + a..i + b]
  {
    var u, v := s[i..j][a..b], s[i + a..i + b];
    assert forall k | 0 <= k < b - a :: u[k] == s[i..j][a + k] == s[i + a + k] == v[k];
  }
}
