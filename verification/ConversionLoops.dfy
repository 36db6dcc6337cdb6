/** The converters as the program runs them: buffers appended to, or patched byte by byte. */
module ConversionLoops {
  import opened Bytes
  import opened SaveFormat
  import opened SaveGrammar
  import opened SaveLayout
  import opened Conversion
  import opened RepPlusExtra

  /** Appends sections 1 and 2, the rest and the checksum to an output buffer. */
  method AppendLayout(crc: ChecksumFn, header: seq<byte>, n: u32, achievements: seq<byte>, size: u32, m: u32,
                      counters: seq<byte>, tail: seq<byte>) returns (out: seq<byte>)
    ensures out == Build(crc, header, n, achievements, size, m, counters, tail)
  {
    out := MAGIC;
    out := out + header;
    ghost var start := out;
    out := out + LE32(1);
    out := out + LE32(n);
    out := out + LE32(n);
    out := out + achievements;
    ghost var first := LE32(1) + LE32(n) + LE32(n) + achievements;
    assert out == start + first;
    out := out + LE32(2);
    out := out + LE32(size);
    out := out + LE32(m);
    out := out + counters;
    out := out + tail;
    ghost var second := LE32(2) + LE32(size) + LE32(m) + counters + tail;
    assert out == start + (first + second);
    var checksum := crc(out[16..]);
    out := out + LE32(checksum);
  }

  method ConvertRepPlusToRep(crc: ChecksumFn, input: seq<byte>) returns (result: Option<seq<byte>>)
    ensures result == RepPlusToRep(crc, input)
  {
    var canonical := CanonicalizeSave(crc, input);
    if canonical.None? {
      return None;
    }
    var data := canonical.value.bytes;
    if !IsRepPlus(data) {
      return Some(data);
    }
    if |data| < 2778 + 8 + 4 {
      return None;
    }
    var out := AppendLayout(crc, data[16..20], 638, data[32..32 + 638], 1984, 496, data[686..686 + 496 * 4],
      data[2778..|data| - 4]);
    var ok := ValidateCanonical(crc, out);
    return if ok then Some(out) else None;
  }

  /** What patching from the given achievement bytes and ids makes of byte `670 + k`. */
  function PatchedByte(before: seq<byte>, achievements: seq<byte>, ids: seq<u32>, k: nat): byte
    requires |before| >= 674 && k < 4
  {
    if (k < |achievements| && achievements[k] == 1) || 638 + k in ids then 1 else before[670 + k]
  }

  function PatchedBytes(before: seq<byte>, achievements: seq<byte>, ids: seq<u32>): seq<byte>
    requires |before| >= 674
  {
    [PatchedByte(before, achievements, ids, 0), PatchedByte(before, achievements, ids, 1),
     PatchedByte(before, achievements, ids, 2), PatchedByte(before, achievements, ids, 3)]
  }

  /** A save whose four extra achievement bytes are `four` and which is otherwise `before`. */
  function WithFour(before: seq<byte>, four: seq<byte>): seq<byte>
    requires |before| >= 674
  {
    before[..670] + four + before[674..]
  }

  lemma SetFour(before: seq<byte>, four: seq<byte>, k: nat, v: byte)
    requires |before| >= 674 && |four| == 4 && k < 4
    ensures WithFour(before, four)[670 + k] == four[k]
    ensures WithFour(before, four)[670 + k := v] == WithFour(before, four[k := v])
    ensures WithFour(before, before[670..674]) == before
    ensures four != before[670..674] ==> WithFour(before, four) != before
  {
    assert WithFour(before, four)[670..674] == four;
  }

  /** Sets one extra achievement unless it is already set. */
  method SetAchievement(before: seq<byte>, data0: seq<byte>, ghost four: seq<byte>, k: nat, modified0: bool)
    returns (data: seq<byte>, modified: bool)
    requires |before| >= 674 && |four| == 4 && k < 4 && data0 == WithFour(before, four)
    requires modified0 ==> four != before[670..674]
    requires four[k] == before[670 + k] || four[k] == 1
    requires !modified0 ==> four == before[670..674]
    ensures data == WithFour(before, four[k := 1])
    ensures modified <==> four[k := 1] != before[670..674]
  {
    SetFour(before, four, k, 1);
    data, modified := data0, modified0;
    if data[670 + k] != 1 {
      data := data[670 + k := 1];
      modified := true;
      assert four[k := 1][k] != before[670..674][k];
    } else {
      assert four[k := 1] == four;
    }
  }

  lemma PatchedMore(before: seq<byte>, achievements: seq<byte>, i: nat)
    requires |before| >= 674 && i < |achievements| && i < 4
    ensures var four := PatchedBytes(before, achievements[..i], []);
      && four[i] == before[670 + i]
      && PatchedBytes(before, achievements[..i + 1], []) == if achievements[i] == 1 then four[i := 1] else four
  {
  }

  lemma PatchedMoreIds(before: seq<byte>, achievements: seq<byte>, ids: seq<u32>, j: nat)
    requires |before| >= 674 && j < |ids|
    ensures var four := PatchedBytes(before, achievements, ids[..j]);
      && (forall k | 0 <= k < 4 :: four[k] == before[670 + k] || four[k] == 1)
      && PatchedBytes(before, achievements, ids[..j + 1])
      == if 638 <= ids[j] <= 641 then four[ids[j] - 638 := 1] else four
  {
    assert ids[..j + 1] == ids[..j] + [ids[j]];
  }

  method PatchFromExtra(before: seq<byte>, achievements: seq<byte>) returns (data: seq<byte>, modified: bool)
    requires |before| >= 674
    ensures var four := PatchedBytes(before, achievements[..Min(|achievements|, 4)], []);
      data == WithFour(before, four) && (modified <==> four != before[670..674])
  {
    data, modified := before, false;
    SetFour(before, before[670..674], 0, 0);
    assert PatchedBytes(before, [], []) == before[670..674];
    for i := 0 to Min(|achievements|, 4)
      invariant var four := PatchedBytes(before, achievements[..i], []);
        data == WithFour(before, four) && (modified <==> four != before[670..674])
    {
      PatchedMore(before, achievements, i);
      if achievements[i] == 1 {
        data, modified := SetAchievement(before, data, PatchedBytes(before, achievements[..i], []), i, modified);
      }
    }
  }

  method PatchFromIds(before: seq<byte>, data0: seq<byte>, achievements: seq<byte>, ids: seq<u32>, modified0: bool)
    returns (data: seq<byte>, modified: bool)
    requires |before| >= 674
    requires var four := PatchedBytes(before, achievements, []);
      data0 == WithFour(before, four) && (modified0 <==> four != before[670..674])
    ensures var four := PatchedBytes(before, achievements, ids);
      data == WithFour(before, four) && (modified <==> four != before[670..674])
  {
    data, modified := data0, modified0;
    for j := 0 to |ids|
      invariant var four := PatchedBytes(before, achievements, ids[..j]);
        data == WithFour(before, four) && (modified <==> four != before[670..674])
    {
      PatchedMoreIds(before, achievements, ids, j);
      if 638 <= ids[j] <= 641 {
        data, modified := SetAchievement(before, data, PatchedBytes(before, achievements, ids[..j]), ids[j] - 638,
          modified);
      }
    }
    assert ids[..|ids|] == ids;
  }

  lemma HealedIsPatched(before: seq<byte>, extra: Extra, ids: seq<u32>)
    requires |before| >= 674
    ensures var four := PatchedBytes(before, extra.achievements[..Min(|extra.achievements|, 4)], ids);
      && (four[3] == before[673] || four[3] == 1)
      && HealedAchievements(before, extra, ids) == if before[33] == 1 then four[3 := 1] else four
  {
  }

  method PatchAchievements(before: seq<byte>, extra: Extra, ids: seq<u32>) returns (data: seq<byte>, modified: bool)
    requires |before| >= 2790
    ensures data == WithFour(before, HealedAchievements(before, extra, ids))
    ensures modified <==> HealedAchievements(before, extra, ids) != before[670..674]
  {
    data, modified := PatchFromExtra(before, extra.achievements);
    var shared := extra.achievements[..Min(|extra.achievements|, 4)];
    data, modified := PatchFromIds(before, data, shared, ids, modified);
    HealedIsPatched(before, extra, ids);
    if data[33] == 1 {
      data, modified := SetAchievement(before, data, PatchedBytes(before, shared, ids), 3, modified);
    }
  }

  method ConvertRepToRepPlusWithExtra(crc: ChecksumFn, input: seq<byte>, extra: Extra, ids: seq<u32>)
    returns (result: Option<seq<byte>>)
    ensures result == RepToRepPlus(crc, input, extra, ids)
  {
    var canonical := CanonicalizeSave(crc, input);
    if canonical.None? {
      return None;
    }
    var data := canonical.value.bytes;
    if IsRepPlus(data) {
      if |data| < 2778 + 8 + 4 {
        return None;
      }
      result := HealRepPlus(crc, data, extra, ids);
      return;
    }
    if |data| < 2666 + 8 + 4 {
      return None;
    }
    var extraAch := ConvertedAchievements(data, extra, ids);
    var extraCnt := Fit(extra.counters, 108);
    var out := AppendLayout(crc, data[16..20], 642, data[32..32 + 638] + extraAch, 2092, 523,
                            data[682..682 + 1984] + extraCnt, data[2666..|data| - 4]);
    var ok := ValidateCanonical(crc, out);
    return if ok then Some(out) else None;
  }

  method ConvertedAchievements(data: seq<byte>, extra: Extra, ids: seq<u32>) returns (extraAch: seq<byte>)
    requires |data| >= 2678
    ensures extraAch == ExtraAchievements(data, extra, ids)
  {
    extraAch := Fit(extra.achievements, 4);
    for j := 0 to |ids|
      invariant |extraAch| == 4
      invariant forall k | 0 <= k < 4 :: extraAch[k] == if 638 + k in ids[..j] then 1 else Fit(extra.achievements, 4)[k]
    {
      assert ids[..j + 1] == ids[..j] + [ids[j]];
      if 638 <= ids[j] <= 641 {
        extraAch := extraAch[ids[j] - 638 := 1];
      }
    }
    assert ids[..|ids|] == ids;
    if data[33] == 1 {
      extraAch := extraAch[3 := 1];
    }
  }

  /** The branch for saves that already are Repentance+: patch, and reseal only what changed. */
  method HealRepPlus(crc: ChecksumFn, before: seq<byte>, extra: Extra, ids: seq<u32>)
    returns (result: Option<seq<byte>>)
    requires Canonical(crc, before) && |before| >= 2790
    ensures result == var healed := Healed(before, extra, ids);
      if healed == before then Some(before) else
      var sealed := Seal(crc, healed[..|healed| - 4]);
      if Canonical(crc, sealed) then Some(sealed) else None
  {
    var data, modified := PatchAchievements(before, extra, ids);
    var raised := RaiseWords(before[2670..2778], extra.counters, Min(|extra.counters|, 108));
    if raised != before[2670..2778] {
      data := data[..2670] + raised + data[2778..];
      modified := true;
    }
    HealedUnchanged(before, extra, ids);
    PatchesMakeHealed(before, extra, ids, data);
    if modified {
      var body := data[..|data| - 4];
      var checksum := crc(body[16..]);
      data := body + LE32(checksum);
      var ok := ValidateCanonical(crc, data);
      if !ok {
        return None;
      }
    }
    return Some(data);
  }

  lemma PatchesMakeHealed(before: seq<byte>, extra: Extra, ids: seq<u32>, data: seq<byte>)
    requires |before| >= 2790
    requires var patched := WithFour(before, HealedAchievements(before, extra, ids));
      var raised := MaxWords(before[2670..2778], extra.counters);
      data == if raised == before[2670..2778] then patched else patched[..2670] + raised + patched[2778..]
    ensures data == Healed(before, extra, ids)
  {
    var four, raised := HealedAchievements(before, extra, ids), MaxWords(before[2670..2778], extra.counters);
    var patched := WithFour(before, four);
    assert before[674..] == before[674..2670] + before[2670..2778] + before[2778..];
    assert patched == before[..670] + four + before[674..2670] + before[2670..2778] + before[2778..];
    assert patched[..2670] == before[..670] + four + before[674..2670];
    assert patched[2778..] == before[2778..];
  }
}
