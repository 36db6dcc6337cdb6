/** The Repentance+ sidecar record: merging in place, converting in place, and the laws of both. */
module RepPlusExtra {
  import opened Bytes
  import opened ByteOr
  import opened Lz4
  import opened Conversion

  // Merging is a join.

  function ByteAt(s: seq<byte>, i: nat): byte { if i < |s| then s[i] else 0 }

  lemma MergedByte(a: Extra, b: Extra, i: nat)
    ensures |MergeExtra(a, b).achievements| == Max(|a.achievements|, |b.achievements|)
    ensures ByteAt(MergeExtra(a, b).achievements, i) == Or(ByteAt(a.achievements, i), ByteAt(b.achievements, i))
  {
    OrLaws(ByteAt(a.achievements, i), ByteAt(b.achievements, i), 0);
  }

  lemma GrownWord(s: seq<byte>, n: nat, w: nat)
    requires |s| % 4 == 0 && w % 4 == 0
    ensures Word(Grow(s, n), w) == Word(s, w)
  {
    var g := Grow(s, n);
    if w + 4 <= |s| {
      SameWord(g, w, s, w);
    } else if w + 4 <= |g| {
      assert g[w] == g[w + 1] == g[w + 2] == g[w + 3] == 0;
      SameWord(g, w, Zeros(4), 0);
      FourBytes(Zeros(4), 0);
    }
  }

  lemma MergedWord(a: Extra, b: Extra, w: nat)
    requires |a.counters| % 4 == 0 && |b.counters| % 4 == 0 && w % 4 == 0
    ensures |MergeExtra(a, b).counters| == Max(|a.counters|, |b.counters|)
    ensures Word(MergeExtra(a, b).counters, w) == Max(Word(a.counters, w), Word(b.counters, w))
  {
    var g := Grow(a.counters, |b.counters|);
    GrownWord(a.counters, |b.counters|, w);
    if w + 4 <= |g| {
      MaxWordsAt(g, b.counters, w);
    }
  }

  /** Two records with the same length, bytes and words are the same. */
  lemma SameExtra(a: Extra, b: Extra)
    requires |a.achievements| == |b.achievements| && |a.counters| == |b.counters| && |a.counters| % 4 == 0
    requires forall i: nat :: ByteAt(a.achievements, i) == ByteAt(b.achievements, i)
    requires forall w: nat | w % 4 == 0 :: Word(a.counters, w) == Word(b.counters, w)
    ensures a == b
  {
    forall i | 0 <= i < |a.achievements| ensures a.achievements[i] == b.achievements[i] {
      assert ByteAt(a.achievements, i) == ByteAt(b.achievements, i);
    }
    forall w: nat | w % 4 == 0 && w + 4 <= |a.counters| ensures U32At(a.counters, w) == U32At(b.counters, w) {
      assert Word(a.counters, w) == Word(b.counters, w);
    }
    SameWords(a.counters, b.counters);
  }

  predicate WholeWords(a: Extra) { |a.counters| % 4 == 0 }

  lemma MergeCommutes(a: Extra, b: Extra)
    requires WholeWords(a) && WholeWords(b)
    ensures MergeExtra(a, b) == MergeExtra(b, a)
  {
    var x, y := MergeExtra(a, b), MergeExtra(b, a);
    forall i: nat ensures ByteAt(x.achievements, i) == ByteAt(y.achievements, i) {
      MergedByte(a, b, i);
      MergedByte(b, a, i);
      OrLaws(ByteAt(a.achievements, i), ByteAt(b.achievements, i), 0);
    }
    forall w: nat | w % 4 == 0 ensures Word(x.counters, w) == Word(y.counters, w) {
      MergedWord(a, b, w);
      MergedWord(b, a, w);
    }
    MergedByte(a, b, 0);
    MergedByte(b, a, 0);
    MergedWord(a, b, 0);
    MergedWord(b, a, 0);
    SameExtra(x, y);
  }

  /** The word at `w` of a string that ends in zeros without end. */
  function PadWord(s: seq<byte>, w: nat): u32 { U32At(Grow(s, w + 4), w) }

  lemma PaddedZero(s: seq<byte>, w: nat)
    requires w >= |s|
    ensures PadWord(s, w) == 0
  {
    FourBytes(Grow(s, w + 4), w);
  }

  lemma SamePad(s: seq<byte>, t: seq<byte>, w: nat)
    requires forall k | w <= k < w + 4 :: ByteAt(s, k) == ByteAt(t, k)
    ensures PadWord(s, w) == PadWord(t, w)
  {
    var g, h := Grow(s, w + 4), Grow(t, w + 4);
    forall k | w <= k < w + 4 ensures g[k] == h[k] {
      assert g[k] == ByteAt(s, k) && h[k] == ByteAt(t, k);
    }
    SameWord(g, w, h, w);
  }

  /** A merged word is the larger one where the second record holds a whole word, and the first's elsewhere. */
  lemma MergedPad(a: Extra, b: Extra, w: nat)
    requires w % 4 == 0
    ensures PadWord(MergeExtra(a, b).counters, w)
      == if w + 4 <= |b.counters| then Max(PadWord(a.counters, w), PadWord(b.counters, w)) else PadWord(a.counters, w)
  {
    var g, m := Grow(a.counters, |b.counters|), MergeExtra(a, b).counters;
    SamePad(g, a.counters, w);
    if w + 4 <= |b.counters| {
      MaxWordsAt(g, b.counters, w);
      WholePad(g, w);
      WholePad(b.counters, w);
      WholePad(m, w);
    } else {
      UnraisedBytes(g, b.counters, w);
      SamePad(m, g, w);
    }
  }

  lemma WholePad(s: seq<byte>, w: nat)
    requires w + 4 <= |s|
    ensures PadWord(s, w) == U32At(s, w)
  {
  }

  lemma SamePads(s: seq<byte>, t: seq<byte>)
    requires |s| == |t| && forall w: nat | w % 4 == 0 :: PadWord(s, w) == PadWord(t, w)
    ensures s == t
  {
    forall k | 0 <= k < |s| ensures s[k] == t[k] {
      var w := k - k % 4;
      assert PadWord(s, w) == PadWord(t, w);
      SameWord(Grow(s, w + 4), w, Grow(t, w + 4), w);
    }
  }

  /** A partial trailing word of the middle record lies beyond the whole words of the last. */
  predicate MiddleFits(m: nat, k: nat) { m % 4 == 0 || k < m - m % 4 + 4 }

  lemma MergeAssociates(a: Extra, b: Extra, c: Extra)
    requires MiddleFits(|b.counters|, |c.counters|)
    ensures MergeExtra(MergeExtra(a, b), c) == MergeExtra(a, MergeExtra(b, c))
  {
    AchievementsAssociate(a, b, c);
    CountersAssociate(a, b, c);
  }

  lemma CountersAssociate(a: Extra, b: Extra, c: Extra)
    requires MiddleFits(|b.counters|, |c.counters|)
    ensures MergeExtra(MergeExtra(a, b), c).counters == MergeExtra(a, MergeExtra(b, c)).counters
  {
    var ab, bc := MergeExtra(a, b), MergeExtra(b, c);
    MergedLength(a, b); MergedLength(b, c); MergedLength(ab, c); MergedLength(a, bc);
    forall w: nat | w % 4 == 0
      ensures PadWord(MergeExtra(ab, c).counters, w) == PadWord(MergeExtra(a, bc).counters, w)
    {
      WordsAssociate(a, b, c, w);
    }
    SamePads(MergeExtra(ab, c).counters, MergeExtra(a, bc).counters);
  }

  lemma MergedLength(a: Extra, b: Extra)
    ensures |MergeExtra(a, b).counters| == Max(|a.counters|, |b.counters|)
  {
  }

  lemma WordsAssociate(a: Extra, b: Extra, c: Extra, w: nat)
    requires MiddleFits(|b.counters|, |c.counters|) && w % 4 == 0
    ensures PadWord(MergeExtra(MergeExtra(a, b), c).counters, w) == PadWord(MergeExtra(a, MergeExtra(b, c)).counters, w)
  {
    MergedTwice(a, b, c, w);
    if w + 4 > |b.counters| && w + 4 <= |c.counters| {
      BeyondMiddle(|b.counters|, |c.counters|, w);
      PaddedZero(b.counters, w);
    }
  }

  lemma BeyondMiddle(m: nat, k: nat, w: nat)
    requires MiddleFits(m, k) && w % 4 == 0 && m < w + 4 <= k
    ensures w >= m
  {
  }

  lemma AchievementsAssociate(a: Extra, b: Extra, c: Extra)
    ensures MergeExtra(MergeExtra(a, b), c).achievements == MergeExtra(a, MergeExtra(b, c)).achievements
  {
    var ab, bc := MergeExtra(a, b), MergeExtra(b, c);
    var x, y := MergeExtra(ab, c).achievements, MergeExtra(a, bc).achievements;
    MergedByte(a, b, 0); MergedByte(b, c, 0); MergedByte(ab, c, 0); MergedByte(a, bc, 0);
    forall i | 0 <= i < |x| ensures x[i] == y[i] {
      MergedByte(a, b, i); MergedByte(b, c, i); MergedByte(ab, c, i); MergedByte(a, bc, i);
      OrLaws(ByteAt(a.achievements, i), ByteAt(b.achievements, i), ByteAt(c.achievements, i));
      assert ByteAt(x, i) == ByteAt(y, i);
    }
  }

  /** Both orders, word by word: they differ where only the last record holds a whole word. */
  lemma MergedTwice(a: Extra, b: Extra, c: Extra, w: nat)
    requires w % 4 == 0
    ensures var left, right := MergeExtra(MergeExtra(a, b), c).counters, MergeExtra(a, MergeExtra(b, c)).counters;
      PadWord(right, w) == if w + 4 > |b.counters| && w + 4 <= |c.counters|
                           then Max(PadWord(left, w), PadWord(b.counters, w)) else PadWord(left, w)
  {
    var ab, bc := MergeExtra(a, b), MergeExtra(b, c);
    MergedPad(a, b, w);
    MergedPad(ab, c, w);
    MergedPad(b, c, w);
    MergedPad(a, bc, w);
  }

  ghost predicate Associate(a: Extra, b: Extra, c: Extra)
  {
    MergeExtra(MergeExtra(a, b), c) == MergeExtra(a, MergeExtra(b, c))
  }

  ghost predicate HaveLengths(a: Extra, b: Extra, c: Extra, n: nat, m: nat, k: nat)
  {
    |a.counters| == n && |b.counters| == m && |c.counters| == k
  }

  /** A partial word in the middle is lost to the left and kept to the right. */
  lemma PartialMiddle(n: nat, m: nat, k: nat) returns (a: Extra, b: Extra, c: Extra)
    requires !MiddleFits(m, k)
    ensures HaveLengths(a, b, c, n, m, k) && !Associate(a, b, c)
  {
    a, b, c := Extra([], Zeros(n)), Extra([], LastByte(m)), Extra([], Zeros(k));
    var w := m - m % 4;
    MergedTwice(a, b, c, w);
    MergedPad(a, b, w);
    MergedPad(MergeExtra(a, b), c, w);
    SamePad(Zeros(n), [], w); PaddedZero([], w);
    SamePad(Zeros(k), [], w);
    FourBytes(Grow(LastByte(m), w + 4), w);
  }

  lemma MiddlesAssociate(a: Extra, b: Extra, c: Extra, n: nat, m: nat, k: nat)
    requires HaveLengths(a, b, c, n, m, k) && MiddleFits(m, k)
    ensures Associate(a, b, c)
  {
    MergeAssociates(a, b, c);
  }

  ghost predicate AllAssociate(n: nat, m: nat, k: nat)
  {
    forall a: Extra, b: Extra, c: Extra | HaveLengths(a, b, c, n, m, k) :: Associate(a, b, c)
  }

  /** Merging associates for all records of three counter lengths if and only if the middle one fits. */
  lemma MergeAssociatesExactly(n: nat, m: nat, k: nat)
    ensures AllAssociate(n, m, k) <==> MiddleFits(m, k)
  {
    if MiddleFits(m, k) {
      forall a: Extra, b: Extra, c: Extra | HaveLengths(a, b, c, n, m, k) ensures Associate(a, b, c) {
        MiddlesAssociate(a, b, c, n, m, k);
      }
    } else {
      NotAllAssociate(n, m, k);
    }
  }

  lemma NotAllAssociate(n: nat, m: nat, k: nat)
    requires !MiddleFits(m, k)
    ensures !AllAssociate(n, m, k)
  {
    var a, b, c := PartialMiddle(n, m, k);
  }

  /** Merging a record into itself changes nothing, whatever its lengths. */
  lemma MergeIsIdempotent(a: Extra)
    ensures MergeExtra(a, a) == a
  {
    forall i | 0 <= i < |a.achievements| ensures Or(a.achievements[i], a.achievements[i]) == a.achievements[i] {
      OrLaws(a.achievements[i], 0, 0);
    }
    forall i | 0 <= i < |a.counters| ensures MaxByte(a.counters, a.counters, i) == a.counters[i] {
      var w := i - i % 4;
      if w + 4 <= |a.counters| {
        EncodeDecoded(a.counters, w);
      }
    }
  }

  /** A zero record and one that differs from it in the last counter byte. */
  function LastByte(m: nat): seq<byte>
    requires m > 0
  {
    Zeros(m - 1) + [1]
  }

  /** A partial trailing word is kept from the left record alone, so merging then depends on the order. */
  lemma PartialWordDoesNotCommute(n: nat, m: nat)
    requires m % 4 != 0
    ensures MergeExtra(Extra([], Zeros(n)), Extra([], LastByte(m))) !=
      MergeExtra(Extra([], LastByte(m)), Extra([], Zeros(n)))
  {
    var a, b, k := Zeros(n), LastByte(m), m - 1;
    var w := k - k % 4;
    assert w + 4 > m;
    assert MergeExtra(Extra([], a), Extra([], b)).counters[k] == Grow(a, m)[k] == 0;
    var g := Grow(b, n);
    if w + 4 <= |g| && w + 4 <= |a| {
      ZeroWord(a, w);
      EncodeDecoded(g, w);
    }
    assert MergeExtra(Extra([], b), Extra([], a)).counters[k] == MaxByte(g, a, k) == g[k] == 1;
  }

  lemma ZeroWord(s: seq<byte>, w: nat)
    requires w + 4 <= |s| && s == Zeros(|s|)
    ensures U32At(s, w) == 0
  {
    FourBytes(s, w);
  }

  ghost predicate Commute(a: Extra, b: Extra) { MergeExtra(a, b) == MergeExtra(b, a) }

  /** Merging commutes for all records of two counter lengths if and only if both are whole words. */
  lemma MergeCommutesExactly(n: nat, m: nat)
    ensures (forall a: Extra, b: Extra | |a.counters| == n && |b.counters| == m :: Commute(a, b)) <==>
      n % 4 == 0 && m % 4 == 0
  {
    if n % 4 == 0 && m % 4 == 0 {
      forall a: Extra, b: Extra | |a.counters| == n && |b.counters| == m ensures Commute(a, b) {
        MergeCommutes(a, b);
      }
    } else if m % 4 != 0 {
      PartialWordDoesNotCommute(n, m);
      assert !Commute(Extra([], Zeros(n)), Extra([], LastByte(m)));
    } else {
      PartialWordDoesNotCommute(m, n);
      assert !Commute(Extra([], LastByte(n)), Extra([], Zeros(m)));
    }
  }

  // The code that changes records and saves in place.

  class Sidecar {
    var extraAchievements: seq<byte>
    var extraCounters: seq<byte>

    constructor (extra: Extra)
      ensures View() == extra
    {
      extraAchievements, extraCounters := extra.achievements, extra.counters;
    }

    function View(): Extra
      reads this
    {
      Extra(extraAchievements, extraCounters)
    }

    method Merge(other: Extra)
      modifies this
      ensures View() == MergeExtra(old(View()), other)
    {
      ghost var grown := Grow(extraAchievements, |other.achievements|);
      if |extraAchievements| < |other.achievements| {
        extraAchievements := extraAchievements + Zeros(|other.achievements| - |extraAchievements|);
      }
      for i := 0 to |other.achievements|
        modifies this`extraAchievements
        invariant extraAchievements == OrBytes(grown, other.achievements[..i])
      {
        extraAchievements := extraAchievements[i := Or(extraAchievements[i], other.achievements[i])];
      }
      assert other.achievements[..|other.achievements|] == other.achievements;
      ghost var words := Grow(extraCounters, |other.counters|);
      if |extraCounters| < |other.counters| {
        extraCounters := extraCounters + Zeros(|other.counters| - |extraCounters|);
      }
      var raised := RaiseWords(extraCounters, other.counters, |other.counters|);
      extraCounters := raised;
    }
  }

  lemma UnraisedBytes(s: seq<byte>, other: seq<byte>, w: nat)
    requires w % 4 == 0 && (w + 4 > |other| || w + 4 > |s|)
    ensures forall k | w <= k < w + 4 && k < |s| :: MaxByte(s, other, k) == s[k]
  {
    forall k | w <= k < w + 4 && k < |s| ensures MaxByte(s, other, k) == s[k] {
      WordStart(w, k - w);
    }
  }

  /** Every whole word below `i` is raised. */
  ghost predicate Raised(r: seq<byte>, s: seq<byte>, other: seq<byte>, i: nat)
  {
    |r| == |s| && forall k | 0 <= k < |s| :: r[k] == if k < i then MaxByte(s, other, k) else s[k]
  }

  lemma RaisedWord(r: seq<byte>, s: seq<byte>, other: seq<byte>, i: nat)
    requires Raised(r, s, other, i) && i % 4 == 0 && i + 4 <= |s| && i + 4 <= |other|
    ensures Raised(r[..i] + LE32(Max(U32At(r, i), U32At(other, i))) + r[i + 4..], s, other, i + 4)
  {
    SameWord(r, i, s, i);
    var max := LE32(Max(U32At(s, i), U32At(other, i)));
    MaxByteInWord(s, other, i, 0);
    MaxByteInWord(s, other, i, 1);
    MaxByteInWord(s, other, i, 2);
    MaxByteInWord(s, other, i, 3);
    Pieces(r[..i], max, r[i + 4..]);
    var next := r[..i] + max + r[i + 4..];
    forall k | 0 <= k < |s| ensures next[k] == if k < i + 4 then MaxByte(s, other, k) else s[k] {
      if i <= k < i + 4 {
        assert next[k] == next[i..i + 4][k - i];
      }
    }
  }

  /** The counter loop shared by merging and converting: every whole word below `limit` is raised. */
  method RaiseWords(s: seq<byte>, other: seq<byte>, limit: nat) returns (r: seq<byte>)
    requires limit >= |s| || limit >= |other|
    ensures r == MaxWords(s, other)
  {
    r := s;
    var i := 0;
    while i < limit
      invariant i % 4 == 0 && Raised(r, s, other, i)
      decreases limit - i
    {
      if i + 4 <= |other| && i + 4 <= |s| {
        RaisedWord(r, s, other, i);
        r := r[..i] + LE32(Max(U32At(r, i), U32At(other, i))) + r[i + 4..];
      } else {
        UnraisedBytes(s, other, i);
      }
      i := i + 4;
    }
    NothingLeft(r, s, other, i);
  }

  lemma NothingLeft(r: seq<byte>, s: seq<byte>, other: seq<byte>, i: nat)
    requires Raised(r, s, other, i) && (i >= |s| || i >= |other|)
    ensures r == MaxWords(s, other)
  {
    forall k | i <= k < |s| ensures MaxByte(s, other, k) == s[k] {
      UnraisedBytes(s, other, k - k % 4);
    }
  }
}
