/** Conversion between the Repentance and Repentance+ layouts of a save. */
module Conversion {
  import opened Bytes
  import opened ByteOr
  import opened Lz4
  import opened SaveFormat
  import opened SaveGrammar
  import opened SaveLayout

  // What Repentance+ adds, and how two such records combine.

  datatype Extra = Extra(achievements: seq<byte>, counters: seq<byte>)

  /** `Vec::resize` with zeros, for a vector that may only grow. */
  function Grow(s: seq<byte>, n: nat): seq<byte>
  {
    if |s| < n then s + Zeros(n - |s|) else s
  }

  function Fit(s: seq<byte>, n: nat): (r: seq<byte>)
    ensures |r| == n
  {
    if |s| < n then s + Zeros(n - |s|) else s[..n]
  }

  /** The byte of `s` at `i`, where each whole word both hold becomes the larger of the two. */
  function MaxByte(s: seq<byte>, other: seq<byte>, i: nat): byte
    requires i < |s|
  {
    var w := i - i % 4;
    if w + 4 <= |s| && w + 4 <= |other| then LE32(Max(U32At(s, w), U32At(other, w)))[i - w] else s[i]
  }

  function MaxWords(s: seq<byte>, other: seq<byte>): (r: seq<byte>)
    ensures |r| == |s|
  {
    seq(|s|, i requires 0 <= i < |s| => MaxByte(s, other, i))
  }

  function OrBytes(s: seq<byte>, other: seq<byte>): (r: seq<byte>)
    ensures |r| == |s|
  {
    seq(|s|, i requires 0 <= i < |s| => if i < |other| then Or(s[i], other[i]) else s[i])
  }

  function MergeExtra(a: Extra, b: Extra): Extra
  {
    Extra(OrBytes(Grow(a.achievements, |b.achievements|), b.achievements),
          MaxWords(Grow(a.counters, |b.counters|), b.counters))
  }

  // The conversions.

  function RepFromPlus(crc: ChecksumFn, data: seq<byte>): seq<byte>
    requires |data| >= 2790
  {
    Build(crc, data[16..20], 638, data[32..670], 1984, 496, data[686..2670], data[2778..|data| - 4])
  }

  function RepPlusToRep(crc: ChecksumFn, input: seq<byte>): Option<seq<byte>>
  {
    match Canonicalize(crc, input)
    case None => None
    case Some(canonical) =>
      var data := canonical.bytes;
      if !IsRepPlus(data) then Some(data)
      else if |data| < 2790 then None
      else if Canonical(crc, RepFromPlus(crc, data)) then Some(RepFromPlus(crc, data)) else None
  }

  function ExtractExtra(crc: ChecksumFn, input: seq<byte>): Option<Extra>
  {
    match Canonicalize(crc, input)
    case None => None
    case Some(canonical) =>
      var data := canonical.bytes;
      if !IsRepPlus(data) || |data| < 2790 then None
      else Some(Extra(data[670..674], data[2670..2778]))
  }

  /** Steam's unlocks and the defeat of Mom force achievement `638 + i`. */
  predicate Forced(data: seq<byte>, ids: seq<u32>, i: nat)
    requires |data| >= 34
  {
    638 + i in ids || (i == 3 && data[33] == 1)
  }

  /** The four extra achievement bytes written into a converted Repentance save. */
  function ExtraAchievements(data: seq<byte>, extra: Extra, ids: seq<u32>): (r: seq<byte>)
    requires |data| >= 34
    ensures |r| == 4
  {
    seq(4, i requires 0 <= i < 4 => if Forced(data, ids, i) then 1 else Fit(extra.achievements, 4)[i])
  }

  function PlusFromRep(crc: ChecksumFn, data: seq<byte>, extra: Extra, ids: seq<u32>): seq<byte>
    requires |data| >= 2678
  {
    Build(crc, data[16..20], 642, data[32..670] + ExtraAchievements(data, extra, ids),
          2092, 523, data[682..2666] + Fit(extra.counters, 108), data[2666..|data| - 4])
  }

  /** The four extra achievement bytes of a save that already has them. */
  function HealedAchievements(data: seq<byte>, extra: Extra, ids: seq<u32>): (r: seq<byte>)
    requires |data| >= 674
    ensures |r| == 4
  {
    seq(4, i requires 0 <= i < 4 =>
      if Forced(data, ids, i) || (i < |extra.achievements| && extra.achievements[i] == 1) then 1 else data[670 + i])
  }

  /** A Repentance+ save with the extra achievements and counters raised, its checksum not yet repaired. */
  function Healed(data: seq<byte>, extra: Extra, ids: seq<u32>): (r: seq<byte>)
    requires |data| >= 2790
    ensures |r| == |data|
  {
    data[..670] + HealedAchievements(data, extra, ids) + data[674..2670]
    + MaxWords(data[2670..2778], extra.counters) + data[2778..]
  }

  function RepToRepPlus(crc: ChecksumFn, input: seq<byte>, extra: Extra, ids: seq<u32>): Option<seq<byte>>
  {
    match Canonicalize(crc, input)
    case None => None
    case Some(canonical) =>
      var data := canonical.bytes;
      if IsRepPlus(data) then
        if |data| < 2790 then None else
        var healed := Healed(data, extra, ids);
        if healed == data then Some(data) else
        var sealed := Seal(crc, healed[..|healed| - 4]);
        if Canonical(crc, sealed) then Some(sealed) else None
      else
        if |data| < 2678 then None else
        var built := PlusFromRep(crc, data, extra, ids);
        if Canonical(crc, built) then Some(built) else None
  }

  // Round trips.

  lemma ConvertedFields(crc: ChecksumFn, b: seq<byte>, extra: Extra, ids: seq<u32>)
    requires |b| >= 2678
    ensures var p := PlusFromRep(crc, b, extra, ids);
      && |p| == |b| + 112 && p[..16] == MAGIC && p[16..20] == b[16..20] && Sealed(crc, p)
      && U32At(p, 20) == 1 && U32At(p, 24) == 642 && U32At(p, 28) == 642
      && U32At(p, 674) == 2 && U32At(p, 678) == 2092 && U32At(p, 682) == 523
      && p[32..670] == b[32..670] && p[670..674] == ExtraAchievements(b, extra, ids)
      && p[686..2670] == b[682..2666] && p[2670..2778] == Fit(extra.counters, 108)
      && p[2778..|p| - 4] == b[2666..|b| - 4]
  {
    var achievements := b[32..670] + ExtraAchievements(b, extra, ids);
    var counters := b[682..2666] + Fit(extra.counters, 108);
    var p := PlusFromRep(crc, b, extra, ids);
    BuiltBuild(crc, b[16..20], 642, achievements, 2092, 523, counters, b[2666..|b| - 4]);
    SubSlice(p, 32, 674, 0, 638);
    SubSlice(p, 32, 674, 638, 642);
    SubSlice(p, 686, 2778, 0, 1984);
    SubSlice(p, 686, 2778, 1984, 2092);
  }

  /** Repentance to Repentance+: any extra, any Steam ids; only the size limit can stop it. */
  lemma ConvertedIsStandard(crc: ChecksumFn, b: seq<byte>, extra: Extra, ids: seq<u32>)
    requires StandardRep(crc, b) && |b| >= 2678
    ensures |PlusFromRep(crc, b, extra, ids)| == |b| + 112
    ensures |b| <= MAX_SAVE_SIZE - 112 ==> StandardRepPlus(crc, PlusFromRep(crc, b, extra, ids))
  {
    StandardRepLayout(crc, b);
    ConvertedFields(crc, b, extra, ids);
    if |b| <= MAX_SAVE_SIZE - 112 {
      RebuiltIsCanonical(crc, b, 2666, PlusFromRep(crc, b, extra, ids), 642, 523);
    }
  }

  /** Repentance to Repentance+ and back is the identity on bytes, checksum included. */
  lemma RepRoundTrip(crc: ChecksumFn, b: seq<byte>, extra: Extra, ids: seq<u32>)
    requires StandardRep(crc, b)
    ensures |b| <= MAX_SAVE_SIZE - 112 <==> RepToRepPlus(crc, b, extra, ids).Some?
    ensures RepToRepPlus(crc, b, extra, ids).Some?
      ==> RepPlusToRep(crc, RepToRepPlus(crc, b, extra, ids).value) == Some(b)
  {
    StandardRepLayout(crc, b);
    ConvertedIsStandard(crc, b, extra, ids);
    var p := PlusFromRep(crc, b, extra, ids);
    if |b| <= MAX_SAVE_SIZE - 112 {
      StandardRepPlusLayout(crc, p);
      ConvertedFields(crc, b, extra, ids);
      BuildBuilt(crc, b, b[16..20], 638, b[32..670], 1984, 496, b[682..2666], b[2666..|b| - 4]);
    }
  }

  lemma BackFields(crc: ChecksumFn, p: seq<byte>)
    requires |p| >= 2790
    ensures var q := RepFromPlus(crc, p);
      && |q| == |p| - 112 && q[..16] == MAGIC && q[16..20] == p[16..20] && Sealed(crc, q)
      && U32At(q, 20) == 1 && U32At(q, 24) == 638 && U32At(q, 28) == 638
      && U32At(q, 670) == 2 && U32At(q, 674) == 1984 && U32At(q, 678) == 496
      && q[32..670] == p[32..670] && q[682..2666] == p[686..2670] && q[2666..|q| - 4] == p[2778..|p| - 4]
  {
    BuiltBuild(crc, p[16..20], 638, p[32..670], 1984, 496, p[686..2670], p[2778..|p| - 4]);
  }

  /** A standard Repentance+ save always converts, to a standard Repentance save. */
  lemma BackIsStandard(crc: ChecksumFn, p: seq<byte>)
    requires StandardRepPlus(crc, p)
    ensures |p| >= 2790 && RepPlusToRep(crc, p) == Some(RepFromPlus(crc, p)) && StandardRep(crc, RepFromPlus(crc, p))
  {
    StandardRepPlusLayout(crc, p);
    BackFields(crc, p);
    RebuiltIsCanonical(crc, p, 2778, RepFromPlus(crc, p), 638, 496);
  }

  lemma RebuiltExtraAchievements(crc: ChecksumFn, p: seq<byte>)
    requires |p| >= 2790
    ensures var q := RepFromPlus(crc, p);
      |q| >= 2678 && (ExtraAchievements(q, Extra(p[670..674], p[2670..2778]), []) == p[670..674] <==>
        (p[33] == 1 ==> p[673] == 1))
  {
    BackFields(crc, p);
    var q := RepFromPlus(crc, p);
    assert q[33] == q[32..670][1] == p[32..670][1] == p[33];
    var a := ExtraAchievements(q, Extra(p[670..674], p[2670..2778]), []);
    assert a[0] == p[670..674][0] && a[1] == p[670..674][1] && a[2] == p[670..674][2];
    assert a[3] == if p[33] == 1 then 1 else p[673];
    assert p[670..674][3] == p[673];
  }

  lemma Reassembled(crc: ChecksumFn, p: seq<byte>, q: seq<byte>, extra: Extra, achievements: seq<byte>)
    requires StandardRepPlus(crc, p) && |p| >= 2894 && |q| >= 2678
    requires q[16..20] == p[16..20] && q[32..670] == p[32..670] && q[682..2666] == p[686..2670]
    requires q[2666..|q| - 4] == p[2778..|p| - 4]
    requires achievements == p[670..674] && Fit(extra.counters, 108) == p[2670..2778]
    ensures Build(crc, q[16..20], 642, q[32..670] + achievements, 2092, 523, q[682..2666] + Fit(extra.counters, 108),
                  q[2666..|q| - 4]) == p
  {
    StandardRepPlusLayout(crc, p);
    assert p[32..674] == p[32..670] + p[670..674];
    assert p[686..2778] == p[686..2670] + p[2670..2778];
    BuildBuilt(crc, p, p[16..20], 642, p[32..674], 2092, 523, p[686..2778], p[2778..|p| - 4]);
  }

  lemma RebuiltFromParts(crc: ChecksumFn, p: seq<byte>)
    requires StandardRepPlus(crc, p) && |p| >= 2894
    ensures |RepFromPlus(crc, p)| >= 2678
    ensures PlusFromRep(crc, RepFromPlus(crc, p), Extra(p[670..674], p[2670..2778]), []) == p
      <==> (p[33] == 1 ==> p[673] == 1)
  {
    RebuiltExtraAchievements(crc, p);
    BackFields(crc, p);
    var q, extra := RepFromPlus(crc, p), Extra(p[670..674], p[2670..2778]);
    var achievements := ExtraAchievements(q, extra, []);
    if achievements == p[670..674] {
      Reassembled(crc, p, q, extra, achievements);
    } else {
      ConvertedFields(crc, q, extra, []);
    }
  }

  /**
   * Repentance+ to Repentance and back, with the extra that was cut off and no Steam ids, is the
   * identity exactly when the defeat of Mom (byte 33) has already set the last extra achievement.
   */
  lemma RepPlusRoundTrip(crc: ChecksumFn, p: seq<byte>)
    requires StandardRepPlus(crc, p)
    ensures RepPlusToRep(crc, p).Some? && ExtractExtra(crc, p).Some? && |p| >= 674
    ensures RepToRepPlus(crc, RepPlusToRep(crc, p).value, ExtractExtra(crc, p).value, []) == Some(p)
      <==> (p[33] == 1 ==> p[673] == 1)
  {
    StandardRepPlusLayout(crc, p);
    BackIsStandard(crc, p);
    RebuiltFromParts(crc, p);
    var q := RepFromPlus(crc, p);
    StandardRepLayout(crc, q);
    ConvertedIsStandard(crc, q, ExtractExtra(crc, p).value, []);
  }

  // What holds of every input.

  /** Any result of the conversion to Repentance is valid, is not Repentance+, and converts to itself. */
  lemma ToRepIsClosed(crc: ChecksumFn, input: seq<byte>)
    requires RepPlusToRep(crc, input).Some?
    ensures var r := RepPlusToRep(crc, input).value;
      Canonical(crc, r) && !IsRepPlus(r) && RepPlusToRep(crc, r) == Some(r)
  {
    var data := Canonicalize(crc, input).value.bytes;
    CanonicalizeIsIdempotent(crc, input);
    if IsRepPlus(data) {
      BackFields(crc, data);
    }
  }

  /** A Repentance+ save converts if and only if its third section starts where the layout has it. */
  lemma ToRepExactly(crc: ChecksumFn, c: seq<byte>)
    requires Canonical(crc, c) && |c| >= 32 && U32At(c, 28) >= 642
    ensures RepPlusToRep(crc, c).Some? <==> |c| >= 2790 && Walk(c, 2778, 3) == Some(|c| - 8)
  {
    ConvertsBack(crc, c);
    if |c| >= 2790 {
      BackIsCanonical(crc, c);
    }
  }

  lemma ConvertsBack(crc: ChecksumFn, c: seq<byte>)
    requires Canonical(crc, c) && IsRepPlus(c)
    ensures RepPlusToRep(crc, c).Some? <==> |c| >= 2790 && Canonical(crc, RepFromPlus(crc, c))
  {
  }

  lemma BackIsCanonical(crc: ChecksumFn, c: seq<byte>)
    requires Canonical(crc, c) && |c| >= 2790
    ensures Canonical(crc, RepFromPlus(crc, c)) <==> Walk(c, 2778, 3) == Some(|c| - 8)
  {
    BackFields(crc, c);
    RebuiltExactly(crc, c, 2778, RepFromPlus(crc, c), 638, 496);
  }

  /** So does any other save, if there is room for it. */
  lemma ToRepPlusExactly(crc: ChecksumFn, c: seq<byte>, extra: Extra, ids: seq<u32>)
    requires Canonical(crc, c) && (|c| >= 32 ==> U32At(c, 28) < 642)
    ensures RepToRepPlus(crc, c, extra, ids).Some? <==>
      2678 <= |c| <= 33_554_432 - 112 && Walk(c, 2666, 3) == Some(|c| - 8)
  {
    Converts(crc, c, extra, ids);
    if |c| >= 2678 {
      ConvertedIsCanonical(crc, c, extra, ids);
    }
  }

  lemma Converts(crc: ChecksumFn, c: seq<byte>, extra: Extra, ids: seq<u32>)
    requires Canonical(crc, c) && !IsRepPlus(c)
    ensures RepToRepPlus(crc, c, extra, ids).Some? <==>
      |c| >= 2678 && Canonical(crc, PlusFromRep(crc, c, extra, ids))
  {
  }

  lemma ConvertedIsCanonical(crc: ChecksumFn, c: seq<byte>, extra: Extra, ids: seq<u32>)
    requires Canonical(crc, c) && |c| >= 2678
    ensures Canonical(crc, PlusFromRep(crc, c, extra, ids)) <==>
      |c| <= 33_554_432 - 112 && Walk(c, 2666, 3) == Some(|c| - 8)
  {
    ConvertedFields(crc, c, extra, ids);
    if |c| <= 33_554_432 - 112 {
      RebuiltExactly(crc, c, 2666, PlusFromRep(crc, c, extra, ids), 642, 523);
    }
  }

  lemma HealedFields(data: seq<byte>, extra: Extra, ids: seq<u32>)
    requires |data| >= 2790
    ensures var h := Healed(data, extra, ids);
      && h[..670] == data[..670] && h[670..674] == HealedAchievements(data, extra, ids)
      && h[674..2670] == data[674..2670] && h[2670..2778] == MaxWords(data[2670..2778], extra.counters)
      && h[2778..] == data[2778..]
  {
    var a, w := HealedAchievements(data, extra, ids), MaxWords(data[2670..2778], extra.counters);
    Pieces(data[..670], a, data[674..2670] + w + data[2778..]);
    Pieces(data[..670] + a, data[674..2670], w + data[2778..]);
    Pieces(data[..670] + a + data[674..2670], w, data[2778..]);
    var h := Healed(data, extra, ids);
    assert h == data[..670] + a + (data[674..2670] + w + data[2778..]);
    assert h == (data[..670] + a) + data[674..2670] + (w + data[2778..]);
    assert h == (data[..670] + a + data[674..2670]) + w + data[2778..];
  }

  /** A standard Repentance+ save can always be raised. */
  lemma RaisedIsAccepted(crc: ChecksumFn, c: seq<byte>, extra: Extra, ids: seq<u32>)
    requires StandardRepPlus(crc, c)
    ensures RepToRepPlus(crc, c, extra, ids).Some?
  {
    StandardRepPlusLayout(crc, c);
    var h := Healed(c, extra, ids);
    if h != c {
      var u := Seal(crc, h[..|h| - 4]);
      HealedFields(c, extra, ids);
      SealedBody(crc, h[..|h| - 4]);
      SealedHead(c, h, u);
      assert u[2778..|u| - 4] == h[..|h| - 4][2778..] == h[2778..][..|h| - 2782] == c[2778..|c| - 4];
      RebuiltIsCanonical(crc, c, 2778, u, 642, 523);
    }
  }

  lemma SealedHead(c: seq<byte>, h: seq<byte>, u: seq<byte>)
    requires |u| == |h| == |c| >= 2894 && u[..|u| - 4] == h[..|h| - 4]
    requires h[..670] == c[..670] && h[674..2670] == c[674..2670]
    ensures u[..16] == c[..16] && U32At(u, 20) == U32At(c, 20) && U32At(u, 24) == U32At(c, 24)
    ensures U32At(u, 674) == U32At(c, 674) && U32At(u, 682) == U32At(c, 682)
  {
    assert u[..670] == u[..|u| - 4][..670] == c[..670];
    assert u[674..2670] == u[..|u| - 4][674..2670] == c[674..2670];
    assert u[..16] == u[..670][..16] && c[..16] == c[..670][..16];
    SameWord(u, 20, u[..670], 20); SameWord(c, 20, c[..670], 20);
    SameWord(u, 24, u[..670], 24); SameWord(c, 24, c[..670], 24);
    SameWord(u, 674, u[674..2670], 0); SameWord(c, 674, c[674..2670], 0);
    SameWord(u, 682, u[674..2670], 8); SameWord(c, 682, c[674..2670], 8);
  }

  /** A save is its own healing exactly when the two healed ranges already are. */
  lemma HealedUnchanged(data: seq<byte>, extra: Extra, ids: seq<u32>)
    requires |data| >= 2790
    ensures Healed(data, extra, ids) == data <==>
      && HealedAchievements(data, extra, ids) == data[670..674]
      && MaxWords(data[2670..2778], extra.counters) == data[2670..2778]
  {
    HealedFields(data, extra, ids);
    assert data == data[..670] + data[670..674] + data[674..2670] + data[2670..2778] + data[2778..];
  }

  // Word-wise maxima.

  /** The word of `s` at `w`, or zero where `s` holds no whole word. */
  function Word(s: seq<byte>, w: nat): u32
  {
    if w + 4 <= |s| then U32At(s, w) else 0
  }

  lemma WordStart(w: nat, k: nat)
    requires w % 4 == 0 && k < 4
    ensures (w + k) % 4 == k
  {
  }

  lemma MaxByteInWord(s: seq<byte>, other: seq<byte>, w: nat, k: nat)
    requires w % 4 == 0 && w + 4 <= |s| && k < 4
    ensures MaxByte(s, other, w + k) ==
      if w + 4 <= |other| then LE32(Max(U32At(s, w), U32At(other, w)))[k] else s[w + k]
  {
    WordStart(w, k);
  }

  lemma MaxWordsAt(s: seq<byte>, other: seq<byte>, w: nat)
    requires w % 4 == 0 && w + 4 <= |s|
    ensures U32At(MaxWords(s, other), w) == Max(U32At(s, w), Word(other, w))
  {
    var r := MaxWords(s, other);
    MaxByteInWord(s, other, w, 0);
    MaxByteInWord(s, other, w, 1);
    MaxByteInWord(s, other, w, 2);
    MaxByteInWord(s, other, w, 3);
    if w + 4 <= |other| {
      var m := Max(U32At(s, w), U32At(other, w));
      DecodeEncoded(m);
      SameWord(r, w, LE32(m), 0);
    } else {
      SameWord(r, w, s, w);
    }
  }

  /** Equal words make equal strings of words. */
  lemma SameWords(s: seq<byte>, t: seq<byte>)
    requires |s| == |t| && |s| % 4 == 0
    requires forall w: nat | w % 4 == 0 && w + 4 <= |s| :: U32At(s, w) == U32At(t, w)
    ensures s == t
  {
    forall i | 0 <= i < |s| ensures s[i] == t[i] {
      var w := i - i % 4;
      assert U32At(s, w) == U32At(t, w);
      SameWord(s, w, t, w);
    }
  }

  lemma MaxWordsUnchanged(s: seq<byte>, other: seq<byte>)
    requires |s| % 4 == 0
    ensures MaxWords(s, other) == s <==> forall w: nat | w % 4 == 0 && w + 4 <= |s| :: Word(other, w) <= U32At(s, w)
  {
    if forall w: nat | w % 4 == 0 && w + 4 <= |s| :: Word(other, w) <= U32At(s, w) {
      forall w: nat | w % 4 == 0 && w + 4 <= |s| ensures U32At(MaxWords(s, other), w) == U32At(s, w) {
        MaxWordsAt(s, other, w);
      }
      SameWords(MaxWords(s, other), s);
    }
    if MaxWords(s, other) == s {
      forall w: nat | w % 4 == 0 && w + 4 <= |s| ensures Word(other, w) <= U32At(s, w) {
        MaxWordsAt(s, other, w);
      }
    }
  }

  lemma MaxWordsTwice(s: seq<byte>, other: seq<byte>)
    requires |s| % 4 == 0
    ensures MaxWords(MaxWords(s, other), other) == MaxWords(s, other)
  {
    forall w: nat | w % 4 == 0 && w + 4 <= |s| ensures Word(other, w) <= U32At(MaxWords(s, other), w) {
      MaxWordsAt(s, other, w);
    }
    MaxWordsUnchanged(MaxWords(s, other), other);
  }

  /** What was padded or cut from a string is not raised by that string. */
  lemma MaxWordsOfFit(s: seq<byte>, n: nat)
    requires n % 4 == 0
    ensures MaxWords(Fit(s, n), s) == Fit(s, n)
  {
    forall w: nat | w % 4 == 0 && w + 4 <= n ensures Word(s, w) <= U32At(Fit(s, n), w) {
      if w + 4 <= |s| {
        SameWord(Fit(s, n), w, s, w);
      }
    }
    MaxWordsUnchanged(Fit(s, n), s);
  }

  lemma HealedTwice(data: seq<byte>, extra: Extra, ids: seq<u32>, y: seq<byte>)
    requires |data| >= 2790 && |y| == |data| && y[..|y| - 4] == Healed(data, extra, ids)[..|y| - 4]
    ensures Healed(y, extra, ids) == y
  {
    HealedFields(data, extra, ids);
    var h := Healed(data, extra, ids);
    assert y[33] == y[..|y| - 4][33] == h[33] == h[..670][33] == data[..670][33];
    assert y[670..674] == y[..|y| - 4][670..674] == h[670..674];
    assert y[2670..2778] == y[..|y| - 4][2670..2778] == h[2670..2778];
    assert HealedAchievements(y, extra, ids) == y[670..674];
    MaxWordsTwice(data[2670..2778], extra.counters);
    HealedUnchanged(y, extra, ids);
  }

  lemma ConvertedIsHealed(crc: ChecksumFn, data: seq<byte>, extra: Extra, ids: seq<u32>)
    requires |data| >= 2678
    ensures |PlusFromRep(crc, data, extra, ids)| >= 2790
    ensures Healed(PlusFromRep(crc, data, extra, ids), extra, ids) == PlusFromRep(crc, data, extra, ids)
  {
    ConvertedFields(crc, data, extra, ids);
    var p := PlusFromRep(crc, data, extra, ids);
    assert p[33] == p[32..670][1] == data[32..670][1] == data[33];
    assert HealedAchievements(p, extra, ids) == p[670..674];
    MaxWordsOfFit(extra.counters, 108);
    HealedUnchanged(p, extra, ids);
  }

  lemma HealedAndSealed(crc: ChecksumFn, data: seq<byte>, extra: Extra, ids: seq<u32>)
    requires |data| >= 2790 && IsRepPlus(data)
    ensures var y := Seal(crc, Healed(data, extra, ids)[..|data| - 4]);
      |y| == |data| && IsRepPlus(y) && Healed(y, extra, ids) == y
  {
    var h := Healed(data, extra, ids);
    var y := Seal(crc, h[..|data| - 4]);
    SealedBody(crc, h[..|data| - 4]);
    HealedTwice(data, extra, ids, y);
    HealedFields(data, extra, ids);
    forall i | 28 <= i < 32 ensures y[i] == data[i] {
      assert y[i] == y[..|y| - 4][i] == h[i] == h[..670][i] == data[..670][i];
    }
    SameWord(y, 28, data, 28);
  }

  /** Any result of the conversion to Repentance+ is valid and Repentance+, and converting it again changes nothing. */
  lemma ToRepPlusIsClosed(crc: ChecksumFn, input: seq<byte>, extra: Extra, ids: seq<u32>)
    requires RepToRepPlus(crc, input, extra, ids).Some?
    ensures var r := RepToRepPlus(crc, input, extra, ids).value;
      Canonical(crc, r) && IsRepPlus(r) && |r| >= 2790 && RepToRepPlus(crc, r, extra, ids) == Some(r)
  {
    var data := Canonicalize(crc, input).value.bytes;
    CanonicalizeIsIdempotent(crc, input);
    if IsRepPlus(data) {
      HealedAndSealed(crc, data, extra, ids);
    } else {
      ConvertedFields(crc, data, extra, ids);
      ConvertedIsHealed(crc, data, extra, ids);
    }
  }

  /**
   * What a push under a Repentance+ name reads back as: the pushed save itself exactly when it is
   * in Repentance's standard layout.
   */
  lemma ConvertedReadsBack(crc: ChecksumFn, c: seq<byte>, extra: Extra, ids: seq<u32>)
    requires Canonical(crc, c) && RepToRepPlus(crc, c, extra, ids).Some?
    ensures RepPlusToRep(crc, RepToRepPlus(crc, c, extra, ids).value) == Some(c) <==> StandardRep(crc, c)
  {
    var p := RepToRepPlus(crc, c, extra, ids).value;
    ToRepPlusIsClosed(crc, c, extra, ids);
    if StandardRep(crc, c) {
      RepRoundTrip(crc, c, extra, ids);
    }
    if RepPlusToRep(crc, p) == Some(c) {
      BackFields(crc, p);
    }
  }
}
