/** The save theorems at the game's own checksum. */
module GameSave {
  import ByteOr
  import opened Bytes
  import opened Checksum
  import opened SaveFormat
  import opened SaveLayout
  import opened Conversion

  /** The checksum is computed over the save's own bytes. */
  lemma BitsAreBytes(s: seq<byte>, i: nat)
    requires i < |s|
    ensures |Bits(s)| == |s| && Bits(s)[i] as int == s[i]
  {
    ByteOr.There(s[i]);
  }

  /** A standard save, converted and sealed, is accepted, stores the checksum of its body, and converts back. */
  lemma SealedRoundTrip(crc: ChecksumFn, b: seq<byte>, extra: Extra, ids: seq<u32>)
    requires StandardRep(crc, b) && |b| <= Lz4.MAX_SAVE_SIZE - 112
    ensures var p := RepToRepPlus(crc, b, extra, ids);
      && p.Some? && |p.value| == |b| + 112 && U32At(p.value, |b| + 108) == crc(p.value[16..|b| + 108])
      && RepPlusToRep(crc, p.value) == Some(b)
  {
    RepRoundTrip(crc, b, extra, ids);
    SealedResult(crc, b, extra, ids);
  }

  lemma SealedResult(crc: ChecksumFn, b: seq<byte>, extra: Extra, ids: seq<u32>)
    requires StandardRep(crc, b) && RepToRepPlus(crc, b, extra, ids).Some?
    ensures var p := RepToRepPlus(crc, b, extra, ids).value;
      |p| == |b| + 112 && U32At(p, |b| + 108) == crc(p[16..|b| + 108])
  {
    StandardRepLayout(crc, b);
    ConvertedFields(crc, b, extra, ids);
    assert RepToRepPlus(crc, b, extra, ids) == Some(PlusFromRep(crc, b, extra, ids));
  }

  /** So it is for the game's saves, whose checksum is the loop over the real table. */
  lemma GameRoundTrip(b: seq<byte>, extra: Extra, ids: seq<u32>)
    requires StandardRep(SaveChecksum, b) && |b| <= Lz4.MAX_SAVE_SIZE - 112
    ensures var p := RepToRepPlus(SaveChecksum, b, extra, ids);
      && p.Some? && |p.value| == |b| + 112 && U32At(p.value, |b| + 108) == SaveChecksum(p.value[16..|b| + 108])
      && RepPlusToRep(SaveChecksum, p.value) == Some(b)
  {
    SealedRoundTrip(SaveChecksum, b, extra, ids);
  }
}
