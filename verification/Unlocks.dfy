/** Achievement unlocks read from saves, and their agreement with what a conversion writes. */
module Unlocks {
  import opened Bytes
  import opened SaveFormat
  import opened SaveGrammar
  import opened SaveLayout
  import opened Conversion

  const MAX_ACHIEVEMENT_ID: nat := 641

  function MaxId(s: seq<byte>): nat
    requires |s| >= 32
  {
    Min(if U32At(s, 28) == 0 then 0 else U32At(s, 28) - 1, MAX_ACHIEVEMENT_ID)
  }

  /** The stream starts with a well-sized achievement section. */
  predicate HasAchievements(s: seq<byte>)
  {
    |s| >= 32 && U32At(s, 20) == 1 && U32At(s, 24) == U32At(s, 28) && 32 + U32At(s, 24) <= |s|
  }

  /** Achievement `id` has a byte, and it is 1. */
  predicate Unlocked(s: seq<byte>, id: nat)
  {
    32 + id < |s| && s[32 + id] == 1
  }

  /** The ids, from 1, that are unlocked. */
  function UnlockedIds(s: seq<byte>): Option<set<nat>>
  {
    if HasAchievements(s) then Some(set id: nat | 1 <= id <= MaxId(s) && Unlocked(s, id)) else None
  }

  method UnlockedAchievementIdsFromCanonical(s: seq<byte>) returns (result: Option<set<nat>>)
    ensures result == UnlockedIds(s)
  {
    if |s| < 32 {
      return None;
    }
    if U32At(s, 20) != 1 {
      return None;
    }
    var blockSize, entryCount := U32At(s, 24), U32At(s, 28);
    if blockSize != entryCount {
      return None;
    }
    if 32 + blockSize > |s| {
      return None;
    }
    var maxId := Min(if entryCount == 0 then 0 else entryCount - 1, MAX_ACHIEVEMENT_ID);
    var unlocked: set<nat> := {};
    for id := 1 to maxId + 1
      invariant unlocked == set k: nat | 1 <= k < id && Unlocked(s, k)
    {
      if s[32 + id] == 1 {
        assert Unlocked(s, id);
        unlocked := unlocked + {id};
      }
    }
    assert unlocked == set id: nat | 1 <= id <= MaxId(s) && Unlocked(s, id);
    return Some(unlocked);
  }

  /** What the sidecar of a slot adds. */
  function SidecarIds(extra: Extra): set<nat>
  {
    set i: nat | i < 4 && i < |extra.achievements| && extra.achievements[i] == 1 :: 638 + i
  }

  function ReadUp(ids: set<nat>): set<nat> { if 1 in ids then ids + {641} else ids }

  lemma ReadUpJoins(a: set<nat>, b: set<nat>)
    ensures ReadUp(a + b) == ReadUp(a) + ReadUp(b)
  {
  }

  /** The unlocks of one save, with the one the defeat of Mom grants. */
  function SaveUnlocks(crc: ChecksumFn, raw: seq<byte>): Option<set<nat>>
  {
    match Canonicalize(crc, raw)
    case None => None
    case Some(canonical) =>
      match UnlockedIds(canonical.bytes)
      case None => None
      case Some(ids) => Some(ReadUp(ids))
  }

  /** The unlocks of one slot: its save's and its sidecar's. */
  function SlotUnlocks(crc: ChecksumFn, raw: seq<byte>, extra: Extra): Option<set<nat>>
  {
    match SaveUnlocks(crc, raw)
    case None => None
    case Some(ids) => Some(ids + SidecarIds(extra))
  }

  ghost predicate FromSaves(crc: ChecksumFn, saves: seq<seq<byte>>, id: nat)
  {
    exists k :: 0 <= k < |saves| && SaveUnlocks(crc, saves[k]).Some? && id in SaveUnlocks(crc, saves[k]).value
  }

  /** With 641 for the defeat of Mom, these are the unlocks of the saves. */
  ghost predicate ReadsAs(crc: ChecksumFn, saves: seq<seq<byte>>, ids: set<nat>)
  {
    forall id :: id in ReadUp(ids) <==> FromSaves(crc, saves, id)
  }

  ghost predicate FromSidecars(sidecars: seq<Extra>, id: nat)
  {
    exists k :: 0 <= k < |sidecars| && id in SidecarIds(sidecars[k])
  }

  method ParseUnlocks(crc: ChecksumFn, raw: seq<byte>) returns (ids: Option<set<nat>>)
    ensures ids.None? <==> SaveUnlocks(crc, raw).None?
    ensures ids.Some? ==> SaveUnlocks(crc, raw) == Some(ReadUp(ids.value))
  {
    var canonical := CanonicalizeSave(crc, raw);
    if canonical.None? {
      return None;
    }
    ids := UnlockedAchievementIdsFromCanonical(canonical.value.bytes);
  }

  function Union(parts: seq<set<nat>>): set<nat>
  {
    if parts == [] then {} else Union(parts[..|parts| - 1]) + parts[|parts| - 1]
  }

  method CollectFromSaves(crc: ChecksumFn, saves: seq<seq<byte>>) returns (result: Option<set<nat>>)
    ensures result.None? <==> exists k :: 0 <= k < |saves| && SaveUnlocks(crc, saves[k]).None?
    ensures result.Some? ==> ReadsAs(crc, saves, result.value)
  {
    var unlocked: set<nat> := {};
    ghost var parsed: seq<set<nat>> := [];
    for i := 0 to |saves|
      invariant |parsed| == i && unlocked == Union(parsed)
      invariant forall k :: 0 <= k < i ==> SaveUnlocks(crc, saves[k]) == Some(ReadUp(parsed[k]))
    {
      var ids := ParseUnlocks(crc, saves[i]);
      if ids.None? {
        return None;
      }
      assert (parsed + [ids.value])[..i] == parsed;
      parsed := parsed + [ids.value];
      unlocked := unlocked + ids.value;
    }
    UnionReadsAs(crc, saves, parsed);
    return Some(unlocked);
  }

  lemma {:induction false} UnionReadsAs(crc: ChecksumFn, saves: seq<seq<byte>>, parsed: seq<set<nat>>)
    requires |parsed| == |saves|
    requires forall k :: 0 <= k < |saves| ==> SaveUnlocks(crc, saves[k]) == Some(ReadUp(parsed[k]))
    ensures ReadsAs(crc, saves, Union(parsed))
  {
    if saves != [] {
      var n := |saves| - 1;
      UnionReadsAs(crc, saves[..n], parsed[..n]);
      assert saves[..n + 1] == saves;
      SaveAdded(crc, saves, n, Union(parsed[..n]), parsed[n]);
    }
  }

  lemma OneMoreSave(crc: ChecksumFn, saves: seq<seq<byte>>, i: nat)
    requires i < |saves| && SaveUnlocks(crc, saves[i]).Some?
    ensures forall id :: (FromSaves(crc, saves[..i + 1], id)
                          <==> FromSaves(crc, saves[..i], id) || id in SaveUnlocks(crc, saves[i]).value)
  {
    forall id: nat | FromSaves(crc, saves[..i], id) || id in SaveUnlocks(crc, saves[i]).value
      ensures FromSaves(crc, saves[..i + 1], id)
    {
      if FromSaves(crc, saves[..i], id) {
        var k :| 0 <= k < i && SaveUnlocks(crc, saves[..i][k]).Some? && id in SaveUnlocks(crc, saves[..i][k]).value;
        assert saves[..i + 1][k] == saves[..i][k];
      } else {
        assert saves[..i + 1][i] == saves[i];
      }
    }
  }

  lemma SaveAdded(crc: ChecksumFn, saves: seq<seq<byte>>, i: nat, unlocked: set<nat>, ids: set<nat>)
    requires i < |saves| && SaveUnlocks(crc, saves[i]) == Some(ReadUp(ids))
    requires ReadsAs(crc, saves[..i], unlocked)
    ensures ReadsAs(crc, saves[..i + 1], unlocked + ids)
  {
    OneMoreSave(crc, saves, i);
    ReadUpJoins(unlocked, ids);
  }

  /** The unlocks of all saves and all sidecars; a save that cannot be parsed fails the whole. */
  method CollectLocalUnlocks(crc: ChecksumFn, saves: seq<seq<byte>>, sidecars: seq<Extra>)
    returns (result: Option<set<nat>>)
    ensures result.None? <==> exists k :: 0 <= k < |saves| && SaveUnlocks(crc, saves[k]).None?
    ensures result.Some? ==>
      forall id :: id in result.value <==> FromSaves(crc, saves, id) || FromSidecars(sidecars, id)
  {
    var fromSaves := CollectFromSaves(crc, saves);
    if fromSaves.None? {
      return None;
    }
    var unlocked := fromSaves.value;
    if 1 in unlocked {
      unlocked := unlocked + {641};
    }
    for slot := 0 to |sidecars|
      invariant forall id :: id in unlocked <==> FromSaves(crc, saves, id) || FromSidecars(sidecars[..slot], id)
    {
      assert sidecars[..slot + 1] == sidecars[..slot] + [sidecars[slot]];
      unlocked := unlocked + SidecarIds(sidecars[slot]);
    }
    assert sidecars[..|sidecars|] == sidecars;
    return Some(unlocked);
  }

  // Agreement with the conversion.

  ghost predicate HeadAndFour(c: seq<byte>, u: seq<byte>, extra: Extra, ids: seq<u32>)
  {
    && |u| >= 682 && U32At(u, 20) == 1 && U32At(u, 24) == 642 && U32At(u, 28) == 642
    && (forall id: nat | id < 638 :: Unlocked(u, id) <==> Unlocked(c, id))
    && forall id: nat | 638 <= id <= 641 :: Unlocked(u, id) <==>
      (id == 641 && Unlocked(c, 1)) || id in ids || id in SidecarIds(extra) || (IsRepPlus(c) && Unlocked(c, id))
  }

  /** Bytes 32 to 670 hold the ids below 638. */
  lemma SameHead(c: seq<byte>, u: seq<byte>, id: nat)
    requires |c| >= 682 && |u| >= 682 && u[32..670] == c[32..670] && id < 638
    ensures Unlocked(u, id) <==> Unlocked(c, id)
  {
    assert u[32 + id] == u[32..670][id] == c[32..670][id] == c[32 + id];
  }

  lemma ConvertedHead(crc: ChecksumFn, c: seq<byte>, extra: Extra, ids: seq<u32>)
    requires StandardRep(crc, c) && RepToRepPlus(crc, c, extra, ids).Some?
    ensures HeadAndFour(c, RepToRepPlus(crc, c, extra, ids).value, extra, ids)
  {
    StandardRepLayout(crc, c);
    ConvertedFields(crc, c, extra, ids);
    var u := PlusFromRep(crc, c, extra, ids);
    forall id: nat | id < 638 ensures Unlocked(u, id) <==> Unlocked(c, id) {
      SameHead(c, u, id);
    }
    forall id: nat | 638 <= id <= 641
      ensures Unlocked(u, id) <==> (id == 641 && Unlocked(c, 1)) || id in ids || id in SidecarIds(extra)
    {
      var i := id - 638;
      assert u[670 + i] == u[670..674][i] == ExtraAchievements(c, extra, ids)[i];
    }
  }

  lemma HealedBytes(crc: ChecksumFn, c: seq<byte>, extra: Extra, ids: seq<u32>)
    requires StandardRepPlus(crc, c) && RepToRepPlus(crc, c, extra, ids).Some?
    ensures |c| >= 2790
    ensures var u := RepToRepPlus(crc, c, extra, ids).value;
      && |u| == |c| && (forall i | 0 <= i < 670 :: u[i] == c[i]) && u[670..674] == HealedAchievements(c, extra, ids)
  {
    StandardRepPlusLayout(crc, c);
    HealedFields(c, extra, ids);
    var h, u := Healed(c, extra, ids), RepToRepPlus(crc, c, extra, ids).value;
    SealedBody(crc, h[..|h| - 4]);
    assert u[..|u| - 4] == h[..|h| - 4];
    forall i | 0 <= i < 670 ensures u[i] == c[i] {
      assert u[i] == u[..|u| - 4][i] == h[i] == h[..670][i] == c[..670][i];
    }
    assert u[670..674] == u[..|u| - 4][670..674] == h[670..674];
  }

  lemma HealedHead(crc: ChecksumFn, c: seq<byte>, extra: Extra, ids: seq<u32>)
    requires StandardRepPlus(crc, c) && RepToRepPlus(crc, c, extra, ids).Some?
    ensures HeadAndFour(c, RepToRepPlus(crc, c, extra, ids).value, extra, ids)
  {
    HealedBytes(crc, c, extra, ids);
    var u := RepToRepPlus(crc, c, extra, ids).value;
    SameWord(u, 20, c, 20);
    SameWord(u, 24, c, 24);
    SameWord(u, 28, c, 28);
    forall id: nat | id < 638 ensures Unlocked(u, id) <==> Unlocked(c, id) {
      assert u[32 + id] == c[32 + id];
    }
    forall id: nat | 638 <= id <= 641
      ensures Unlocked(u, id) <==>
        (id == 641 && Unlocked(c, 1)) || id in ids || id in SidecarIds(extra) || Unlocked(c, id)
    {
      var i := id - 638;
      assert u[670 + i] == u[670..674][i] == HealedAchievements(c, extra, ids)[i];
    }
  }

  /** Steam's ids among the four that only Repentance+ has. */
  function ExtraIds(ids: seq<u32>): set<nat> { set id: nat | id in {638, 639, 640, 641} && id in ids }

  lemma HeadUnlocks(crc: ChecksumFn, c: seq<byte>, u: seq<byte>, extra: Extra, ids: seq<u32>)
    requires HeadAndFour(c, u, extra, ids) && |c| >= 682
    requires StandardRep(crc, c) || StandardRepPlus(crc, c)
    ensures UnlockedIds(c).Some?
    ensures UnlockedIds(u) == Some(ReadUp(UnlockedIds(c).value) + SidecarIds(extra) + ExtraIds(ids))
    ensures forall id :: 1 <= id <= 637 ==> (id in UnlockedIds(u).value <==> id in UnlockedIds(c).value)
  {
    if StandardRep(crc, c) {
      StandardRepLayout(crc, c);
    } else {
      StandardRepPlusLayout(crc, c);
    }
    var x, y := UnlockedIds(u).value, ReadUp(UnlockedIds(c).value) + SidecarIds(extra) + ExtraIds(ids);
    forall id: nat ensures id in x <==> id in y {
      assert 1 in UnlockedIds(c).value <==> Unlocked(c, 1);
    }
    assert x == y;
  }

  /**
   * The unlocks parsed back from a slot's converted save are those collected for the slot and those of
   * Steam's that are among the four new ones, and nothing more.
   */
  lemma UnlocksAgree(crc: ChecksumFn, raw: seq<byte>, extra: Extra, ids: seq<u32>)
    requires Canonicalize(crc, raw).Some?
    requires var c := Canonicalize(crc, raw).value.bytes; StandardRep(crc, c) || StandardRepPlus(crc, c)
    requires RepToRepPlus(crc, raw, extra, ids).Some?
    ensures SlotUnlocks(crc, raw, extra).Some?
    ensures UnlockedIds(RepToRepPlus(crc, raw, extra, ids).value)
      == Some(SlotUnlocks(crc, raw, extra).value + ExtraIds(ids))
    ensures forall id :: 1 <= id <= 637 ==>
      (id in UnlockedIds(RepToRepPlus(crc, raw, extra, ids).value).value
       <==> id in UnlockedIds(Canonicalize(crc, raw).value.bytes).value)
  {
    var c := Canonicalize(crc, raw).value.bytes;
    CanonicalizeIsIdempotent(crc, raw);
    if StandardRep(crc, c) {
      ConvertedHead(crc, c, extra, ids);
    } else {
      HealedHead(crc, c, extra, ids);
    }
    HeadUnlocks(crc, c, RepToRepPlus(crc, c, extra, ids).value, extra, ids);
  }

  // The same, byte by byte.

  /** A canonical save that starts with an achievement section of as many bytes as it counts. */
  ghost predicate Counted(c: seq<byte>)
  {
    |c| >= 32 && U32At(c, 20) == 1 && U32At(c, 24) == U32At(c, 28) && 32 + U32At(c, 28) <= |c|
  }

  /** The byte at 32 + id is 1; the byte at 33 stands for 641 too. */
  ghost predicate SaveHas(c: seq<byte>, id: nat)
    requires Counted(c)
  {
    || (1 <= id <= 641 && id < U32At(c, 28) && c[32 + id] == 1)
    || (id == 641 && 1 < U32At(c, 28) && c[33] == 1)
  }

  ghost predicate SidecarHas(extra: Extra, id: nat)
  {
    638 <= id <= 641 && id - 638 < |extra.achievements| && extra.achievements[id - 638] == 1
  }

  lemma SaveUnlocksMeaning(crc: ChecksumFn, raw: seq<byte>)
    ensures SaveUnlocks(crc, raw).Some? <==>
      Canonicalize(crc, raw).Some? && Counted(Canonicalize(crc, raw).value.bytes)
    ensures SaveUnlocks(crc, raw).Some? ==>
      forall id :: id in SaveUnlocks(crc, raw).value <==> SaveHas(Canonicalize(crc, raw).value.bytes, id)
  {
    if Canonicalize(crc, raw).Some? {
      UnlockedMeaning(Canonicalize(crc, raw).value.bytes);
    }
  }

  lemma UnlockedMeaning(c: seq<byte>)
    ensures UnlockedIds(c).Some? <==> Counted(c)
    ensures UnlockedIds(c).Some? ==> forall id :: id in ReadUp(UnlockedIds(c).value) <==> SaveHas(c, id)
  {
    if Counted(c) {
      var ids := UnlockedIds(c).value;
      forall id ensures id in ids <==> 1 <= id <= 641 && id < U32At(c, 28) && c[32 + id] == 1 {
        assert 1 <= id < U32At(c, 28) ==> (Unlocked(c, id) <==> c[32 + id] == 1);
      }
      assert 1 in ids <==> 1 < U32At(c, 28) && c[33] == 1;
    }
  }

  /** What is collected from all saves and all sidecars. */
  lemma CollectedMeaning(crc: ChecksumFn, saves: seq<seq<byte>>, sidecars: seq<Extra>, id: nat)
    requires forall k :: 0 <= k < |saves| ==> SaveUnlocks(crc, saves[k]).Some?
    ensures forall k :: 0 <= k < |saves| ==>
      Canonicalize(crc, saves[k]).Some? && Counted(Canonicalize(crc, saves[k]).value.bytes)
    ensures FromSaves(crc, saves, id) <==>
      exists k :: 0 <= k < |saves| && SaveHas(Canonicalize(crc, saves[k]).value.bytes, id)
    ensures FromSidecars(sidecars, id) <==> exists k :: 0 <= k < |sidecars| && SidecarHas(sidecars[k], id)
  {
    forall k | 0 <= k < |saves|
      ensures Canonicalize(crc, saves[k]).Some? && Counted(Canonicalize(crc, saves[k]).value.bytes)
      ensures id in SaveUnlocks(crc, saves[k]).value <==> SaveHas(Canonicalize(crc, saves[k]).value.bytes, id)
    {
      SaveUnlocksMeaning(crc, saves[k]);
    }
    forall k | 0 <= k < |sidecars| ensures id in SidecarIds(sidecars[k]) <==> SidecarHas(sidecars[k], id) {
      SidecarMeaning(sidecars[k], id);
    }
  }

  lemma SidecarMeaning(extra: Extra, id: nat)
    ensures id in SidecarIds(extra) <==> SidecarHas(extra, id)
  {
    if SidecarHas(extra, id) {
      assert 638 + (id - 638) == id;
    }
  }

  /**
   * A save built in the Repentance+ layout, byte by byte: the achievements and counters of the save, then
   * Steam's ids, the defeat of Mom and the sidecar's flags, and the sidecar's counters.
   */
  lemma BuiltMeaning(crc: ChecksumFn, c: seq<byte>, extra: Extra, ids: seq<u32>)
    requires StandardRep(crc, c) && RepToRepPlus(crc, c, extra, ids).Some?
    ensures var u := RepToRepPlus(crc, c, extra, ids).value;
      && |u| == |c| + 112 && |c| >= 2782
      && (forall k :: 32 <= k < 670 ==> u[k] == c[k])
      && (forall k | 670 <= k < 674 ::
            u[k] == if k - 32 in ids || (k == 673 && c[33] == 1) then 1
                    else if k - 670 < |extra.achievements| then extra.achievements[k - 670] else 0)
      && (forall k :: 686 <= k < 2670 ==> u[k] == c[k - 4])
      && (forall k | 2670 <= k < 2778 ::
            u[k] == if k - 2670 < |extra.counters| then extra.counters[k - 2670] else 0)
      && (forall k :: 2778 <= k < |u| - 4 ==> u[k] == c[k - 112])
  {
    StandardRepLayout(crc, c);
    ConvertedFields(crc, c, extra, ids);
    var u := PlusFromRep(crc, c, extra, ids);
    forall k | 32 <= k < 670 ensures u[k] == c[k] {
      assert u[k] == u[32..670][k - 32] && c[k] == c[32..670][k - 32];
    }
    forall k | 670 <= k < 674 ensures u[k] == ExtraAchievements(c, extra, ids)[k - 670] {
      assert u[k] == u[670..674][k - 670];
    }
    forall k | 686 <= k < 2670 ensures u[k] == c[k - 4] {
      assert u[k] == u[686..2670][k - 686] && c[k - 4] == c[682..2666][k - 686];
    }
    forall k | 2670 <= k < 2778 ensures u[k] == Fit(extra.counters, 108)[k - 2670] {
      assert u[k] == u[2670..2778][k - 2670];
    }
    forall k | 2778 <= k < |u| - 4 ensures u[k] == c[k - 112] {
      assert u[k] == u[2778..|u| - 4][k - 2778] && c[k - 112] == c[2666..|c| - 4][k - 2778];
    }
  }

  /** A Repentance+ save raised: flags set by Steam's ids, by the defeat of Mom and by the sidecar. */
  lemma RaisedMeaning(crc: ChecksumFn, c: seq<byte>, extra: Extra, ids: seq<u32>)
    requires StandardRepPlus(crc, c) && RepToRepPlus(crc, c, extra, ids).Some?
    ensures var u := RepToRepPlus(crc, c, extra, ids).value;
      && |u| == |c| && |c| >= 2894
      && (forall k :: 0 <= k < 670 || 674 <= k < 2670 || 2778 <= k < |c| - 4 ==> u[k] == c[k])
      && (forall k | 670 <= k < 674 ::
            u[k] == if k - 32 in ids || (k == 673 && c[33] == 1) || SidecarHas(extra, k - 32) then 1 else c[k])
  {
    StandardRepPlusLayout(crc, c);
    RaisedBody(crc, c, extra, ids);
    HealedParts(c, Healed(c, extra, ids), extra, ids);
    forall k | 670 <= k < 674
      ensures RepToRepPlus(crc, c, extra, ids).value[k] == HealedAchievements(c, extra, ids)[k - 670]
    {
      assert Healed(c, extra, ids)[670 + (k - 670)] == HealedAchievements(c, extra, ids)[k - 670];
    }
  }

  /** And each counter is the larger of the save's and the sidecar's. */
  lemma RaisedCounters(crc: ChecksumFn, c: seq<byte>, extra: Extra, ids: seq<u32>, w: nat)
    requires StandardRepPlus(crc, c) && RepToRepPlus(crc, c, extra, ids).Some? && w % 4 == 0 && w + 4 <= 108
    ensures var u := RepToRepPlus(crc, c, extra, ids).value;
      && |u| == |c| && |c| >= 2894
      && U32At(u, 2670 + w) ==
        Max(U32At(c, 2670 + w), if w + 4 <= |extra.counters| then U32At(extra.counters, w) else 0)
  {
    StandardRepPlusLayout(crc, c);
    RaisedBody(crc, c, extra, ids);
    RaisedWord(c, RepToRepPlus(crc, c, extra, ids).value, extra, w);
  }

  lemma RaisedBody(crc: ChecksumFn, c: seq<byte>, extra: Extra, ids: seq<u32>)
    requires StandardRepPlus(crc, c) && RepToRepPlus(crc, c, extra, ids).Some? && |c| >= 2894
    ensures var h, u := Healed(c, extra, ids), RepToRepPlus(crc, c, extra, ids).value;
      && |u| == |c| && (forall k :: 0 <= k < |u| - 4 ==> u[k] == h[k])
      && u[2670..2778] == MaxWords(c[2670..2778], extra.counters)
  {
    HealedFields(c, extra, ids);
    var h, u := Healed(c, extra, ids), RepToRepPlus(crc, c, extra, ids).value;
    SealedBody(crc, h[..|h| - 4]);
    assert u[..|u| - 4] == h[..|h| - 4];
    forall k | 0 <= k < |u| - 4 ensures u[k] == h[k] {
      assert u[k] == u[..|u| - 4][k];
    }
    assert u[2670..2778] == h[2670..2778];
  }

  lemma RaisedWord(c: seq<byte>, u: seq<byte>, extra: Extra, w: nat)
    requires |u| == |c| >= 2894 && u[2670..2778] == MaxWords(c[2670..2778], extra.counters)
    requires w % 4 == 0 && w + 4 <= 108
    ensures U32At(u, 2670 + w)
      == Max(U32At(c, 2670 + w), if w + 4 <= |extra.counters| then U32At(extra.counters, w) else 0)
  {
    MaxWordsAt(c[2670..2778], extra.counters, w);
    SameWord(u, 2670 + w, u[2670..2778], w);
    SameWord(c[2670..2778], w, c, 2670 + w);
  }

  lemma HealedParts(c: seq<byte>, h: seq<byte>, extra: Extra, ids: seq<u32>)
    requires |c| >= 2894 && h == Healed(c, extra, ids)
    ensures forall k :: 0 <= k < 670 || 674 <= k < 2670 || 2778 <= k < |c| ==> h[k] == c[k]
    ensures forall i: nat | i < 4 :: h[670 + i] == HealedAchievements(c, extra, ids)[i]
    ensures h[2670..2778] == MaxWords(c[2670..2778], extra.counters)
  {
    HealedFields(c, extra, ids);
    forall k | 0 <= k < 670 ensures h[k] == c[k] {
      assert h[k] == h[..670][k] && c[k] == c[..670][k];
    }
    forall k | 674 <= k < 2670 ensures h[k] == c[k] {
      assert h[k] == h[674..2670][k - 674] && c[k] == c[674..2670][k - 674];
    }
    forall k | 2778 <= k < |c| ensures h[k] == c[k] {
      assert h[k] == h[2778..][k - 2778] && c[k] == c[2778..][k - 2778];
    }
    forall i: nat | i < 4 ensures h[670 + i] == HealedAchievements(c, extra, ids)[i] {
      assert h[670 + i] == h[670..674][i];
    }
  }
}
