/** Saves that exist: standard ones, and saves at which a round trip fails. */
module SaveWitness {
  import opened Bytes
  import opened SaveFormat
  import opened SaveGrammar
  import opened SaveLayout
  import opened Conversion
  import opened SyncCodec

  const EMPTY := Part(0, 0, [])

  /** A save with these achievements and counters; `word` is the word at 28, which the validator does not look at. */
  function Sample(header: seq<byte>, achievements: seq<byte>, word: u32, counters: seq<byte>): Save
    requires |achievements| < 0x1_0000 && |counters| < 0x1_0000
  {
    var parts := [Part(|achievements|, word, achievements), Part(|counters|, |counters| / 4, counters)]
      + [EMPTY, EMPTY, EMPTY, EMPTY] + [EMPTY, EMPTY, EMPTY, EMPTY];
    Save(header, parts, [Sub(0, []), Sub(0, []), Sub(0, []), Sub(0, [])], Zeros(4))
  }

  lemma {:induction false} EmptyParts(parts: seq<Part>, kind: nat)
    requires 3 <= kind && forall i :: 0 <= i < |parts| ==> parts[i] == EMPTY
    ensures WellFormedParts(parts, kind) && PartsSize(parts) == 12 * |parts|
  {
    if parts != [] {
      EmptyParts(parts[1..], kind + 1);
    }
  }

  lemma {:induction false} EmptySubs(subs: seq<Sub>)
    requires forall i :: 0 <= i < |subs| ==> subs[i] == Sub(0, [])
    ensures WellFormedBestiary(subs) && EncodedSize(subs) == 0 && BestiarySize(subs) == 8 * |subs|
  {
    if subs != [] {
      EmptySubs(subs[1..]);
    }
  }

  lemma SampleIsWellFormed(header: seq<byte>, achievements: seq<byte>, word: u32, counters: seq<byte>)
    requires |header| == 4 && |achievements| < 0x1_0000 && |counters| < 0x1_0000 && |counters| % 4 == 0
    ensures var save := Sample(header, achievements, word, counters);
      && WellFormed(save) && PartsSize(save.parts) == 120 + |achievements| + |counters|
      && BestiarySize(save.bestiary) == 32
  {
    var save := Sample(header, achievements, word, counters);
    EmptyParts(save.parts[2..], 3);
    assert save.parts[1..][1..] == save.parts[2..];
    assert WellFormedParts(save.parts[1..], 2) && PartsSize(save.parts[1..]) == 108 + |counters|;
    EmptySubs(save.bestiary);
  }

  lemma SampleSave(crc: ChecksumFn, header: seq<byte>, achievements: seq<byte>, word: u32, counters: seq<byte>)
    returns (s: seq<byte>)
    requires |header| == 4 && |achievements| < 0x1_0000 && |counters| < 0x1_0000 && |counters| % 4 == 0
    ensures var n, size := |achievements|, |counters|;
      && Canonical(crc, s) && |s| == 192 + n + size && s[..16] == MAGIC && s[16..20] == header
      && U32At(s, 20) == 1 && U32At(s, 24) == n && U32At(s, 28) == word && s[32..32 + n] == achievements
      && U32At(s, 32 + n) == 2 && U32At(s, 36 + n) == size && U32At(s, 40 + n) == size / 4
      && s[44 + n..44 + n + size] == counters
  {
    var save := Sample(header, achievements, word, counters);
    SampleIsWellFormed(header, achievements, word, counters);
    s := Print(crc, save);
    PrintedSave(crc, save, s);
    PrintedIsCanonical(crc, save, s);
    assert save.parts[1..][0] == save.parts[1];
    assert SpelledParts(s, 32 + |achievements|, save.parts[1..], 2);
  }

  /** There are standard saves with any header and any achievements, whatever the checksum. */
  lemma StandardSaveExists(crc: ChecksumFn, header: seq<byte>, achievements: seq<byte>) returns (s: seq<byte>)
    requires |header| == 4 && |achievements| == 638
    ensures StandardRep(crc, s) && |s| == 2814 && s[16..20] == header && s[32..670] == achievements
  {
    s := SampleSave(crc, header, achievements, 638, Zeros(1984));
  }

  /** The counts of sections 1 and 2 that the walk uses are Repentance's; the other words are free. */
  predicate RepSized(crc: ChecksumFn, c: seq<byte>)
  {
    && Canonical(crc, c) && |c| >= 682 && !IsRepPlus(c)
    && U32At(c, 20) == 1 && U32At(c, 24) == 638 && U32At(c, 670) == 2 && U32At(c, 678) == 496
  }

  /** Every such save up to the size limit is uploaded under a Repentance+ name. */
  lemma RepSizedUploads(crc: ChecksumFn, path: string, c: seq<byte>, extra: Extra, ids: seq<u32>)
    requires RepSized(crc, c) && |c| <= Lz4.MAX_SAVE_SIZE - 112
    ensures Uploaded(crc, path, c, extra, ids).Some?
  {
    if IsRepPlusName(path) {
      StandardTail(crc, c, 638, 496);
      ConvertedFields(crc, c, extra, ids);
      RebuiltIsCanonical(crc, c, 2666, PlusFromRep(crc, c, extra, ids), 642, 523);
    }
  }

  /**
   * A valid save, a standard one but for the word at 28, that is uploaded under a Repentance+ name and
   * does not read back, with any sidecar and any ids.
   */
  lemma NonStandardDoesNotReadBack(crc: ChecksumFn, path: string, extra: Extra, ids: seq<u32>) returns (c: seq<byte>)
    requires IsRepPlusName(path)
    ensures RepSized(crc, c) && !StandardRep(crc, c) && !Pushable(crc, path, c)
    ensures Uploaded(crc, path, c, extra, ids).Some?
    ensures Normalized(crc, Uploaded(crc, path, c, extra, ids).value) != Some(c)
  {
    c := SampleSave(crc, Zeros(4), Zeros(638), 637, Zeros(1984));
    RepSizedUploads(crc, path, c, extra, ids);
    UploadReadsBack(crc, path, c, extra, ids);
  }

  /** A standard Repentance+ save that records the defeat of Mom and not the achievement that goes with it. */
  lemma RepPlusRoundTripFails(crc: ChecksumFn) returns (p: seq<byte>)
    ensures StandardRepPlus(crc, p) && p[33] == 1 && p[673] == 0
    ensures RepPlusToRep(crc, p).Some? && ExtractExtra(crc, p).Some?
    ensures RepToRepPlus(crc, RepPlusToRep(crc, p).value, ExtractExtra(crc, p).value, []) != Some(p)
  {
    var achievements := Zeros(642)[1 := 1];
    p := SampleSave(crc, Zeros(4), achievements, 642, Zeros(2092));
    assert p[33] == p[32..674][1] && p[673] == p[32..674][641];
    RepPlusRoundTrip(crc, p);
  }

  /** Every valid save has a compressed form, which is no Repentance+ save as it stands. */
  lemma CompressedForm(crc: ChecksumFn, p: seq<byte>) returns (raw: seq<byte>)
    requires Canonical(crc, p) && |p| == 2926 && p[16..20] == Zeros(4)
    ensures Canonicalize(crc, raw) == Some(CanonicalSave(p, IosRawLz4)) && !IsRepPlus(raw)
  {
    var block := Lz4.Last(0, p);
    raw := Lz4.Encode(block, 0);
    assert [] + p == p;
    assert Lz4.Encodes(block, raw, p);
    CompressedLength();
    assert raw == [240] + Lz4.LengthCode(2926) + p;
    Lz4.DecoderCorrect(raw, p);
    if StartsWithMagic(raw) {
      MagicIsNotLz4(raw);
    }
    CompressedWord(crc, p, raw);
  }

  lemma CompressedLength()
    ensures |Lz4.LengthCode(2926)| == 12
  {
    RunLength(11, 106);
  }

  lemma {:induction false} RunLength(k: nat, rest: nat)
    requires rest < 255
    ensures |Lz4.Run(255 * k + rest)| == k + 1
  {
    if k > 0 {
      RunLength(k - 1, rest);
    }
  }

  /** The word at 28 of the compressed form is the last byte of the magic and the first three of the header. */
  lemma CompressedWord(crc: ChecksumFn, p: seq<byte>, raw: seq<byte>)
    requires Canonical(crc, p) && |p| == 2926 && p[16..20] == Zeros(4)
    requires raw == [240] + Lz4.LengthCode(2926) + p && |Lz4.LengthCode(2926)| == 12
    ensures !IsRepPlus(raw)
  {
    assert raw[28] == p[15] == p[..16][15] == 32;
    assert raw[29] == p[16] == p[16..20][0] && raw[30] == p[17] == p[16..20][1] && raw[31] == p[18] == p[16..20][2];
    FourBytes(raw, 28);
  }
}
