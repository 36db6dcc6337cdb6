/** What synchronization sees of a save file: its content, what Steam's copy means, what an upload sends. */
module SyncCodec {
  import opened Bytes
  import opened SaveFormat
  import opened SaveLayout
  import opened Conversion

  /** The canonical bytes of a file on this device. */
  function Content(crc: ChecksumFn, raw: seq<byte>): Option<seq<byte>>
  {
    match Canonicalize(crc, raw)
    case None => None
    case Some(save) => Some(save.bytes)
  }

  /** Steam's copy in Repentance's own layout. */
  function Normalized(crc: ChecksumFn, raw: seq<byte>): Option<seq<byte>>
  {
    match Canonicalize(crc, raw)
    case None => None
    case Some(save) => if IsRepPlus(save.bytes) then RepPlusToRep(crc, save.bytes) else Some(save.bytes)
  }

  /** Steam's copy is in the device's compressed form, which other clients cannot read. */
  function NeedsRepair(crc: ChecksumFn, raw: seq<byte>): bool
  {
    Canonicalize(crc, raw).Some? && Canonicalize(crc, raw).value.encoding == IosRawLz4
  }

  /** The Repentance+ data in Steam's copy. */
  function Learned(crc: ChecksumFn, raw: seq<byte>): Option<Extra>
  {
    match Canonicalize(crc, raw)
    case None => None
    case Some(save) => if IsRepPlus(save.bytes) then ExtractExtra(crc, save.bytes) else None
  }

  function LowerChar(c: char): char
  {
    if 'A' <= c <= 'Z' then c - 'A' + 'a' else c
  }

  /** A file name that, in any case, contains the Repentance+ stem. */
  predicate IsRepPlusName(path: string)
  {
    exists i :: 0 <= i <= |path| && StemAt(path[i..])
  }

  predicate StemAt(path: string)
  {
    var stem := "rep+persistentgamedata";
    |stem| <= |path| && forall k | 0 <= k < |stem| :: LowerChar(path[k]) == stem[k]
  }

  /** Such a name contains these 22 letters, each in either case. */
  lemma RepPlusNameMeaning(path: string)
    ensures IsRepPlusName(path) <==> exists i: nat :: SpelledAt(path, i)
  {
    if IsRepPlusName(path) {
      var i :| 0 <= i <= |path| && StemAt(path[i..]);
      StemIsSpelled(path, i);
    }
    if exists i: nat :: SpelledAt(path, i) {
      var i: nat :| SpelledAt(path, i);
      StemIsSpelled(path, i);
    }
  }

  lemma StemIsSpelled(path: string, i: nat)
    requires i <= |path|
    ensures StemAt(path[i..]) <==> SpelledAt(path, i)
  {
    if i <= |path| - 22 {
      var rest, stem := path[i..], path[i..i + 22];
      forall k | 0 <= k < 22 ensures LowerChar(rest[k]) == "rep+persistentgamedata"[k] <==> InEitherCase(stem[k], k) {
        EitherCase(rest[k], k);
      }
    }
  }

  predicate InEitherCase(c: char, k: nat)
    requires k < 22
  {
    c == "rep+persistentgamedata"[k] || c == "REP+PERSISTENTGAMEDATA"[k]
  }

  predicate SpellsStem(stem: string)
  {
    |stem| == 22 && forall k | 0 <= k < 22 :: InEitherCase(stem[k], k)
  }

  predicate SpelledAt(path: string, i: nat) { i + 22 <= |path| && SpellsStem(path[i..i + 22]) }

  lemma EitherCase(c: char, k: nat)
    requires k < 22
    ensures LowerChar(c) == "rep+persistentgamedata"[k] <==> InEitherCase(c, k)
  {
  }

  /** The bytes a push of canonical content `c` sends under a name. */
  function Uploaded(crc: ChecksumFn, path: string, c: seq<byte>, extra: Extra, ids: seq<u32>): Option<seq<byte>>
  {
    if IsRepPlusName(path) then RepToRepPlus(crc, c, extra, ids) else Some(c)
  }

  /** The Repentance+ data that an upload of `c` under a Repentance+ name holds. */
  function Carried(c: seq<byte>, extra: Extra, ids: seq<u32>): Extra
  {
    if IsRepPlus(c) && |c| >= 2790 then
      Extra(HealedAchievements(c, extra, ids), MaxWords(c[2670..2778], extra.counters))
    else if |c| >= 34 then Extra(ExtraAchievements(c, extra, ids), Fit(extra.counters, 108))
    else extra
  }

  /** The content a push under this name can get back unchanged. */
  predicate Pushable(crc: ChecksumFn, path: string, c: seq<byte>)
  {
    if IsRepPlusName(path) then StandardRep(crc, c) else !IsRepPlus(c)
  }

  lemma ContentIsCanonical(crc: ChecksumFn, raw: seq<byte>)
    requires Content(crc, raw).Some?
    ensures var c := Content(crc, raw).value; Canonical(crc, c) && Content(crc, c) == Some(c)
  {
    CanonicalizeIsIdempotent(crc, raw);
  }

  /** The content of a file is what it is, or decodes to, if that is valid; in the second case it needs repair. */
  lemma ContentMeaning(crc: ChecksumFn, raw: seq<byte>, c: seq<byte>)
    ensures Content(crc, raw) == Some(c) <==>
      Canonical(crc, c) && (c == raw || Lz4.DecodeRaw(raw) == Some(c))
    ensures Content(crc, raw) == Some(c) ==> (NeedsRepair(crc, raw) <==> c != raw)
    ensures Content(crc, raw).None? ==> !NeedsRepair(crc, raw)
  {
    CanonicalizeMeaning(crc, raw, c, SteamCanonical);
    CanonicalizeMeaning(crc, raw, c, IosRawLz4);
    if Canonical(crc, raw) {
      MagicIsNotLz4(raw);
    }
  }

  /** Repentance+ data is learned from content whose word at 28 is at least 642: the four bytes and the 27 words. */
  lemma LearnedMeaning(crc: ChecksumFn, raw: seq<byte>, c: seq<byte>)
    requires Content(crc, raw) == Some(c)
    ensures Learned(crc, raw) ==
      if |c| >= 2790 && U32At(c, 28) >= 642 then Some(Extra(c[670..674], c[2670..2778])) else None
  {
    CanonicalizeIsIdempotent(crc, raw);
  }

  lemma NormalizedIsConverted(crc: ChecksumFn, raw: seq<byte>)
    ensures Normalized(crc, raw) == RepPlusToRep(crc, raw)
  {
    if Canonicalize(crc, raw).Some? {
      CanonicalizeIsIdempotent(crc, raw);
    }
  }

  /** What Steam's copy means is itself a canonical save, means itself, and is never Repentance+. */
  lemma NormalizedIsStable(crc: ChecksumFn, raw: seq<byte>)
    requires Normalized(crc, raw).Some?
    ensures var n := Normalized(crc, raw).value;
      && Canonical(crc, n) && !IsRepPlus(n) && Content(crc, n) == Some(n)
      && Normalized(crc, n) == Some(n) && !NeedsRepair(crc, n)
  {
    NormalizedIsConverted(crc, raw);
    ToRepIsClosed(crc, raw);
  }

  /** A Repentance+ copy that can be read at all means a save in the standard layout. */
  lemma ReadRepPlusIsStandard(crc: ChecksumFn, raw: seq<byte>)
    requires Normalized(crc, raw).Some? && IsRepPlus(Canonicalize(crc, raw).value.bytes)
    ensures StandardRep(crc, Normalized(crc, raw).value) && Learned(crc, raw).Some?
  {
    CanonicalizeIsIdempotent(crc, raw);
    BackFields(crc, Canonicalize(crc, raw).value.bytes);
  }

  /** An upload is canonical, and means the content that was pushed exactly when that content is pushable. */
  lemma UploadReadsBack(crc: ChecksumFn, path: string, c: seq<byte>, extra: Extra, ids: seq<u32>)
    requires Canonical(crc, c) && Uploaded(crc, path, c, extra, ids).Some?
    ensures var u := Uploaded(crc, path, c, extra, ids).value;
      && Canonical(crc, u) && !NeedsRepair(crc, u)
      && (Normalized(crc, u) == Some(c) <==> Pushable(crc, path, c))
      && if IsRepPlusName(path) then IsRepPlus(u) else u == c
  {
    var u := Uploaded(crc, path, c, extra, ids).value;
    if IsRepPlusName(path) {
      ToRepPlusIsClosed(crc, c, extra, ids);
      ConvertedReadsBack(crc, c, extra, ids);
    } else if IsRepPlus(c) && Normalized(crc, c).Some? {
      NormalizedIsStable(crc, c);
    }
    NormalizedIsConverted(crc, u);
  }

  // Synchronization depends on the formats only through these functions and their laws.

  datatype Codec = Codec(
    content: seq<byte> -> Option<seq<byte>>,
    normalized: seq<byte> -> Option<seq<byte>>,
    needsRepair: seq<byte> -> bool,
    learned: seq<byte> -> Option<Extra>,
    forced: seq<byte> -> Option<Extra>,
    extract: seq<byte> -> Option<Extra>,
    uploaded: (string, seq<byte>, Extra, seq<u32>) -> Option<seq<byte>>,
    carried: (seq<byte>, Extra, seq<u32>) -> Extra,
    pushable: (string, seq<byte>) -> bool)

  function SaveCodec(crc: ChecksumFn): Codec
  {
    Codec(raw => Content(crc, raw),
          raw => Normalized(crc, raw),
          raw => NeedsRepair(crc, raw),
          raw => Learned(crc, raw),
          raw => if IsRepPlus(raw) then ExtractExtra(crc, raw) else None,
          raw => ExtractExtra(crc, raw),
          (path, c, extra, ids) => Uploaded(crc, path, c, extra, ids),
          (c, extra, ids) => Carried(c, extra, ids),
          (path, c) => Pushable(crc, path, c))
  }

  ghost predicate ContentLaws(codec: Codec)
  {
    && (forall raw | codec.content(raw).Some? :: codec.content(codec.content(raw).value) == codec.content(raw))
    && (forall raw | codec.normalized(raw).Some? ::
          var n := codec.normalized(raw).value;
          codec.content(raw).Some? && codec.content(n) == Some(n) && codec.normalized(n) == Some(n)
            && !codec.needsRepair(n)
          && (codec.learned(raw).None? ==> codec.content(raw) == Some(n)))
  }

  ghost predicate UploadLaws(codec: Codec)
  {
    && (forall path, c, extra, ids | codec.content(c) == Some(c) && codec.uploaded(path, c, extra, ids).Some? ::
          var u := codec.uploaded(path, c, extra, ids).value;
          !codec.needsRepair(u) && (codec.normalized(u) == Some(c) <==> codec.pushable(path, c)))
  }

  ghost predicate Lawful(codec: Codec) { ContentLaws(codec) && UploadLaws(codec) }

  lemma ContentIsStable(crc: ChecksumFn)
    ensures ContentLaws(SaveCodec(crc))
  {
    var codec := SaveCodec(crc);
    forall raw | codec.content(raw).Some? ensures codec.content(codec.content(raw).value) == codec.content(raw) {
      ContentIsCanonical(crc, raw);
    }
    forall raw | codec.normalized(raw).Some?
      ensures var n := codec.normalized(raw).value;
        codec.content(raw).Some? && codec.content(n) == Some(n) && codec.normalized(n) == Some(n)
          && !codec.needsRepair(n)
        && (codec.learned(raw).None? ==> codec.content(raw) == Some(n))
    {
      NormalizedIsStable(crc, raw);
      if IsRepPlus(Canonicalize(crc, raw).value.bytes) {
        ReadRepPlusIsStandard(crc, raw);
      }
    }
  }

  /** The save formats, whatever the checksum, are all that synchronization needs. */
  lemma SaveCodecIsLawful(crc: ChecksumFn)
    ensures Lawful(SaveCodec(crc))
  {
    var codec := SaveCodec(crc);
    ContentIsStable(crc);
    forall path, c, extra, ids | codec.content(c) == Some(c) && codec.uploaded(path, c, extra, ids).Some?
      ensures var u := codec.uploaded(path, c, extra, ids).value;
        !codec.needsRepair(u) && (codec.normalized(u) == Some(c) <==> codec.pushable(path, c))
    {
      ContentIsCanonical(crc, c);
      UploadReadsBack(crc, path, c, extra, ids);
    }
  }
}
