/** Canonicalization, and the two layouts of a canonical save. */
module SaveLayout {
  import opened Bytes
  import opened Lz4
  import opened SaveFormat
  import opened SaveGrammar

  // Canonicalization.

  datatype Encoding = SteamCanonical | IosRawLz4

  datatype CanonicalSave = CanonicalSave(bytes: seq<byte>, encoding: Encoding)

  predicate StartsWithMagic(s: seq<byte>)
  {
    |s| >= 16 && s[..16] == MAGIC
  }

  function Canonicalize(crc: ChecksumFn, input: seq<byte>): Option<CanonicalSave>
  {
    if StartsWithMagic(input) then
      if Canonical(crc, input) then Some(CanonicalSave(input, SteamCanonical)) else None
    else
      match DecodeRaw(input)
      case None => None
      case Some(decoded) => if Canonical(crc, decoded) then Some(CanonicalSave(decoded, IosRawLz4)) else None
  }

  method CanonicalizeSave(crc: ChecksumFn, input: seq<byte>) returns (result: Option<CanonicalSave>)
    ensures result == Canonicalize(crc, input)
  {
    if |input| >= 16 && input[..16] == MAGIC {
      var ok := ValidateCanonical(crc, input);
      return if ok then Some(CanonicalSave(input, SteamCanonical)) else None;
    }
    var decoded := DecodeRawLz4(input);
    if decoded.None? {
      return None;
    }
    var ok := ValidateCanonical(crc, decoded.value);
    return if ok then Some(CanonicalSave(decoded.value, IosRawLz4)) else None;
  }

  /** A stream that starts with the magic is no LZ4 block: its first match reaches back too far. */
  lemma MagicIsNotLz4(input: seq<byte>)
    requires StartsWithMagic(input)
    ensures DecodeRaw(input) == None
  {
    assert forall i | 0 <= i < 16 :: input[i] == input[..16][i];
    assert input[0] == 73 && input[5] == 78 && input[6] == 71;
    if |input| <= MAX_SAVE_SIZE {
      assert ReadLiterals(input, 0) == Some((input[1..5], 5));
      assert DecodeTurn(input, 0, []) == Reject;
    }
  }

  /** The result is valid, and it is the input itself or what the input decodes to. */
  lemma CanonicalizeMeaning(crc: ChecksumFn, input: seq<byte>, bytes: seq<byte>, encoding: Encoding)
    ensures Canonicalize(crc, input) == Some(CanonicalSave(bytes, encoding)) <==>
      Canonical(crc, bytes) && if encoding == SteamCanonical then bytes == input else DecodeRaw(input) == Some(bytes)
  {
    if StartsWithMagic(input) {
      MagicIsNotLz4(input);
    }
  }

  /** Canonicalizing what canonicalization returned changes nothing. */
  lemma CanonicalizeIsIdempotent(crc: ChecksumFn, input: seq<byte>)
    requires Canonicalize(crc, input).Some?
    ensures var bytes := Canonicalize(crc, input).value.bytes;
      Canonical(crc, bytes) && Canonicalize(crc, bytes) == Some(CanonicalSave(bytes, SteamCanonical))
  {
  }

  // The two layouts.

  predicate IsRepPlus(s: seq<byte>)
  {
    |s| >= 32 && U32At(s, 28) >= 642
  }

  /** Sections 1 and 2 with the given counts, then everything from section 3 on. */
  function Layout(header: seq<byte>, n: u32, achievements: seq<byte>, size: u32, m: u32, counters: seq<byte>,
                  tail: seq<byte>): seq<byte>
  {
    MAGIC + header + (LE32(1) + LE32(n) + LE32(n) + achievements + (LE32(2) + LE32(size) + LE32(m) + counters + tail))
  }

  function Build(crc: ChecksumFn, header: seq<byte>, n: u32, achievements: seq<byte>, size: u32, m: u32,
                 counters: seq<byte>, tail: seq<byte>): seq<byte>
  {
    Seal(crc, Layout(header, n, achievements, size, m, counters, tail))
  }

  ghost predicate Built(crc: ChecksumFn, s: seq<byte>, header: seq<byte>, n: u32, achievements: seq<byte>, size: u32,
                        m: u32, counters: seq<byte>, tail: seq<byte>)
  {
    && |header| == 4 && |achievements| == n && |counters| == size && |tail| >= 4
    && |s| == 48 + n + size + |tail|
    && s[..16] == MAGIC && s[16..20] == header && Sealed(crc, s)
    && U32At(s, 20) == 1 && U32At(s, 24) == n && U32At(s, 28) == n
    && s[32..32 + n] == achievements
    && U32At(s, 32 + n) == 2 && U32At(s, 36 + n) == size && U32At(s, 40 + n) == m
    && s[44 + n..44 + n + size] == counters
    && s[44 + n + size..|s| - 4] == tail
  }

  lemma AtLayout(s: seq<byte>, header: seq<byte>, n: u32, achievements: seq<byte>, size: u32, m: u32,
                 counters: seq<byte>, tail: seq<byte>)
    requires |header| == 4 && |achievements| == n && |counters| == size && |s| >= 44 + n + size
    ensures At(s, 0, Layout(header, n, achievements, size, m, counters, tail)) <==>
      && s[..16] == MAGIC && s[16..20] == header
      && U32At(s, 20) == 1 && U32At(s, 24) == n && U32At(s, 28) == n
      && s[32..32 + n] == achievements
      && U32At(s, 32 + n) == 2 && U32At(s, 36 + n) == size && U32At(s, 40 + n) == m
      && s[44 + n..44 + n + size] == counters
      && At(s, 44 + n + size, tail)
  {
    var second := LE32(2) + LE32(size) + LE32(m) + counters + tail;
    AtConcat(s, 0, MAGIC + header, LE32(1) + LE32(n) + LE32(n) + achievements + second);
    AtConcat(s, 0, MAGIC, header);
    AtSlice(s, 0, MAGIC);
    AtSlice(s, 16, header);
    AtPart(s, 20, 1, n, n, achievements, second);
    AtPart(s, 32 + n, 2, size, m, counters, tail);
  }

  lemma BuiltBuild(crc: ChecksumFn, header: seq<byte>, n: u32, achievements: seq<byte>, size: u32, m: u32,
                   counters: seq<byte>, tail: seq<byte>)
    requires |header| == 4 && |achievements| == n && |counters| == size && |tail| >= 4
    ensures Built(crc, Build(crc, header, n, achievements, size, m, counters, tail),
                  header, n, achievements, size, m, counters, tail)
  {
    var s := Build(crc, header, n, achievements, size, m, counters, tail);
    var body := Layout(header, n, achievements, size, m, counters, tail);
    SealedBody(crc, body);
    AtSlice(s, 0, body);
    AtLayout(s, header, n, achievements, size, m, counters, tail);
    AtSlice(s, 44 + n + size, tail);
  }

  lemma BuildBuilt(crc: ChecksumFn, s: seq<byte>, header: seq<byte>, n: u32, achievements: seq<byte>, size: u32, m: u32,
                   counters: seq<byte>, tail: seq<byte>)
    requires Built(crc, s, header, n, achievements, size, m, counters, tail)
    ensures s == Build(crc, header, n, achievements, size, m, counters, tail)
  {
    var body := Layout(header, n, achievements, size, m, counters, tail);
    AtSlice(s, 44 + n + size, tail);
    AtLayout(s, header, n, achievements, size, m, counters, tail);
    AtSlice(s, 0, body);
    BodySealed(crc, s);
  }

  /** A valid save with Repentance's counts in sections 1 and 2. */
  predicate StandardRep(crc: ChecksumFn, s: seq<byte>)
  {
    && Canonical(crc, s) && |s| >= 682
    && U32At(s, 20) == 1 && U32At(s, 24) == 638 && U32At(s, 28) == 638
    && U32At(s, 670) == 2 && U32At(s, 674) == 1984 && U32At(s, 678) == 496
  }

  /** A valid save with Repentance+'s counts in sections 1 and 2. */
  predicate StandardRepPlus(crc: ChecksumFn, s: seq<byte>)
  {
    && Canonical(crc, s) && |s| >= 686
    && U32At(s, 20) == 1 && U32At(s, 24) == 642 && U32At(s, 28) == 642
    && U32At(s, 674) == 2 && U32At(s, 678) == 2092 && U32At(s, 682) == 523
  }

  lemma {:induction false} WalkLength(s: seq<byte>, pos: nat, kind: nat)
    requires pos <= |s| && 1 <= kind <= 12 && Walk(s, pos, kind).Some?
    ensures Walk(s, pos, kind).value >= pos + 12 * (12 - kind)
    decreases 12 - kind
  {
    if kind < 12 {
      SectionLength(s, pos, kind);
      WalkLength(s, Section(s, pos, kind).value, kind + 1);
    }
  }

  lemma SectionLength(s: seq<byte>, pos: nat, kind: nat)
    requires pos <= |s| && 1 <= kind <= 11 && Section(s, pos, kind).Some?
    ensures Section(s, pos, kind).value >= pos + 12
  {
  }

  /** Sections 1 and 2 crossed: where section 3 starts when their counts are `n` and `4 * m`. */
  lemma WalkToThird(s: seq<byte>, n: u32, m: u32)
    requires 44 + n <= |s|
    requires U32At(s, 20) == 1 && U32At(s, 24) == n
    requires U32At(s, 32 + n) == 2 && U32At(s, 40 + n) == m
    ensures 44 + n + 4 * m <= |s| ==> Walk(s, 20, 1) == Walk(s, 44 + n + 4 * m, 3)
    ensures 44 + n + 4 * m > |s| ==> Walk(s, 20, 1).None?
  {
    assert Section(s, 20, 1) == Some(32 + n as int);
  }

  lemma StandardTail(crc: ChecksumFn, s: seq<byte>, n: u32, m: u32)
    requires Canonical(crc, s) && 44 + n <= |s|
    requires U32At(s, 20) == 1 && U32At(s, 24) == n
    requires U32At(s, 32 + n) == 2 && U32At(s, 40 + n) == m
    ensures 44 + n + 4 * m + 116 <= |s| && Walk(s, 44 + n + 4 * m, 3) == Some(|s| - 8)
  {
    WalkToThird(s, n, m);
    WalkLength(s, 44 + n + 4 * m, 3);
  }

  lemma StandardBuilt(crc: ChecksumFn, s: seq<byte>, n: u32, m: u32)
    requires 48 + n + 4 * m + 4 <= |s| && 4 * m < 0x1_0000_0000 && s[..16] == MAGIC && Sealed(crc, s)
    requires U32At(s, 20) == 1 && U32At(s, 24) == n && U32At(s, 28) == n
    requires U32At(s, 32 + n) == 2 && U32At(s, 36 + n) == 4 * m && U32At(s, 40 + n) == m
    ensures Built(crc, s, s[16..20], n, s[32..32 + n], 4 * m, m, s[44 + n..44 + n + 4 * m], s[44 + n + 4 * m..|s| - 4])
  {
  }

  /** A standard Repentance save: 2666 bytes before section 3, whose bytes the layout fixes. */
  lemma StandardRepLayout(crc: ChecksumFn, s: seq<byte>)
    requires StandardRep(crc, s)
    ensures |s| >= 2782 && Walk(s, 2666, 3) == Some(|s| - 8) && !IsRepPlus(s)
    ensures Built(crc, s, s[16..20], 638, s[32..670], 1984, 496, s[682..2666], s[2666..|s| - 4])
  {
    StandardTail(crc, s, 638, 496);
    StandardBuilt(crc, s, 638, 496);
  }

  lemma StandardRepPlusLayout(crc: ChecksumFn, s: seq<byte>)
    requires StandardRepPlus(crc, s)
    ensures |s| >= 2894 && Walk(s, 2778, 3) == Some(|s| - 8) && IsRepPlus(s)
    ensures Built(crc, s, s[16..20], 642, s[32..674], 2092, 523, s[686..2778], s[2778..|s| - 4])
  {
    StandardTail(crc, s, 642, 523);
    StandardBuilt(crc, s, 642, 523);
  }

  lemma TailMoved(source: seq<byte>, from: nat, s: seq<byte>, to: nat)
    requires from + 8 <= |source| && |s| - to == |source| - from && 8 <= |s| - to
    requires s[to..|s| - 4] == source[from..|source| - 4]
    ensures Moved(source, from, |source| - 8, s, to - from)
  {
    assert forall i | from <= i < |source| - 8 ::
        source[i] == source[from..|source| - 4][i - from] == s[to..|s| - 4][i - from] == s[i + (to - from)];
  }

  /** A rebuilt save is valid when its tail is another valid save's, from its third section on. */
  lemma RebuiltIsCanonical(crc: ChecksumFn, source: seq<byte>, from: nat, s: seq<byte>, n: u32, m: u32)
    requires from + 8 <= |source| && Walk(source, from, 3) == Some(|source| - 8)
    requires 52 + n + 4 * m <= |s| <= MAX_SAVE_SIZE && s[..16] == MAGIC && Sealed(crc, s)
    requires U32At(s, 20) == 1 && U32At(s, 24) == n && U32At(s, 32 + n) == 2 && U32At(s, 40 + n) == m
    requires s[44 + n + 4 * m..|s| - 4] == source[from..|source| - 4]
    ensures Canonical(crc, s)
  {
    var third: int := 44 + n as int + 4 * (m as int);
    RebuiltWalk(source, from, s, third);
    WalkToThird(s, n, m);
  }

  lemma RebuiltWalk(source: seq<byte>, from: nat, s: seq<byte>, third: nat)
    requires from + 8 <= |source| && Walk(source, from, 3) == Some(|source| - 8)
    requires third + 8 <= |s| && s[third..|s| - 4] == source[from..|source| - 4]
    ensures Walk(s, third, 3) == Some(|s| - 8)
  {
    assert |s[third..|s| - 4]| == |s| - 4 - third;
    TailMoved(source, from, s, third);
    Relocate(source, from, |source| - 8, s, third - from, 3);
  }

  /** And only then. */
  lemma RebuiltExactly(crc: ChecksumFn, source: seq<byte>, from: nat, s: seq<byte>, n: u32, m: u32)
    requires from + 8 <= |source|
    requires 52 + n + 4 * m <= |s| <= MAX_SAVE_SIZE && s[..16] == MAGIC && Sealed(crc, s)
    requires U32At(s, 20) == 1 && U32At(s, 24) == n && U32At(s, 32 + n) == 2 && U32At(s, 40 + n) == m
    requires s[44 + n + 4 * m..|s| - 4] == source[from..|source| - 4]
    ensures Canonical(crc, s) <==> Walk(source, from, 3) == Some(|source| - 8)
  {
    var third: int := 44 + n as int + 4 * (m as int);
    if Walk(source, from, 3) == Some(|source| - 8) {
      RebuiltIsCanonical(crc, source, from, s, n, m);
    }
    if Canonical(crc, s) {
      WalkToThird(s, n, m);
      RebuiltWalk(s, third, source, from);
    }
  }
}
