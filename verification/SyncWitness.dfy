/** What can go wrong with the real saves: agreement lost by a push, unlocks lost by a run and by a choice. */
module SyncWitness {
  import opened Bytes
  import opened SaveFormat
  import opened SaveLayout
  import opened Conversion
  import opened RepPlusExtra
  import opened SyncCodec
  import opened SyncModel
  import opened SyncSafety
  import opened SyncHistory
  import opened SyncProvenance
  import opened SyncConvergence
  import opened SyncProgress
  import opened SaveWitness

  const REP_PLUS_PATH := "rep+persistentgamedata1.dat"
  const FILE := Name(REP_PLUS_PATH, 1)
  const NOTHING := Extra([], [])
  const UNLOCK := Extra([1, 0, 0, 0], [])

  lemma IsRepPlusPath()
    ensures IsRepPlusName(REP_PLUS_PATH)
  {
    var stem := "rep+persistentgamedata";
    assert REP_PLUS_PATH[0..] == REP_PLUS_PATH;
    forall k | 0 <= k < |stem| ensures LowerChar(REP_PLUS_PATH[k]) == stem[k] {
    }
    assert StemAt(REP_PLUS_PATH[0..]);
  }

  /** Canonical bytes as a file: what they hold and mean. */
  lemma CanonicalFile(crc: ChecksumFn, s: seq<byte>)
    requires Canonical(crc, s) && !IsRepPlus(s)
    ensures Content(crc, s) == Some(s) && Normalized(crc, s) == Some(s) && !NeedsRepair(crc, s) && Learned(crc, s).None?
  {
  }

  /**
   * The device holds a valid save that is not standard, BASE and Steam's file under a Repentance+ name a
   * standard one. A manual run pushes, moves BASE to the device's save, and Steam's file means another.
   */
  lemma PushCanLoseAgreement(crc: ChecksumFn) returns (input: Input, v: View)
    ensures var codec := SaveCodec(crc);
      && PushDue(codec, input, v) && !PushOk(codec, input, v)
      && TurnOf(codec, input, v).verdict == Settled && TurnOf(codec, input, v).entry.Some?
      && !OneCommit(codec, v, TurnOf(codec, input, v))
  {
    var codec := SaveCodec(crc);
    IsRepPlusPath();
    SaveCodecIsLawful(crc);
    var s := StandardSaveExists(crc, Zeros(4), Zeros(638));
    var c := NonStandardDoesNotReadBack(crc, REP_PLUS_PATH, NOTHING, []);
    input := Input(true, {}, {}, {}, []);
    v := View(0, 1, c, Some(Remote(FILE, s, true)), NOTHING, Some(s), None);
    StandardRepLayout(crc, s);
    CanonicalFile(crc, s);
    CanonicalFile(crc, c);
    DuePush(crc, input, v, c, s);
    TurnCommits(codec, input, v);
  }

  /** A manual run of a device that has moved away from BASE, which Steam still means, pushes. */
  lemma DuePush(crc: ChecksumFn, input: Input, v: View, c: seq<byte>, s: seq<byte>)
    requires input.manual && v.base == Some(s) && v.pull.None? && v.remote.Some? && c != s
    requires Content(crc, v.local) == Some(c) && Normalized(crc, v.remote.value.bytes) == Some(s)
    requires RepSized(crc, c) && |c| <= Lz4.MAX_SAVE_SIZE - 112
    ensures var codec := SaveCodec(crc);
      && PushDue(codec, input, v)
      && TurnOf(codec, input, v).verdict == Settled && TurnOf(codec, input, v).entry.Some?
  {
    var codec, r := SaveCodec(crc), v.remote.value;
    SaveCodecIsLawful(crc);
    DueTurn(codec, input, v);
    TurnTransfers(codec, input, v);
    RepSizedUploads(crc, r.name.path, c, LearnedView(codec, input, v, r.bytes).extra, input.ids);
  }

  lemma TwoSaves(crc: ChecksumFn) returns (s: seq<byte>, c: seq<byte>)
    ensures StandardRep(crc, s) && |s| == 2814 && s[16..20] == Zeros(4)
    ensures StandardRep(crc, c) && |c| == 2814 && RepSized(crc, c) && Content(crc, c) == Some(c) && c != s
  {
    s := StandardSaveExists(crc, Zeros(4), Zeros(638));
    c := StandardSaveExists(crc, [1, 0, 0, 0], Zeros(638));
    StandardRepLayout(crc, c);
    CanonicalFile(crc, c);
    assert s[16..20][0] == 0 && c[16..20][0] == 1;
  }

  /** A standard save as a Repentance+ file with an unlock. */
  lemma UnlockOnSteam(crc: ChecksumFn, s: seq<byte>) returns (p: seq<byte>, x: Extra)
    requires StandardRep(crc, s) && |s| == 2814 && s[16..20] == Zeros(4)
    ensures Canonical(crc, p) && |p| == 2926 && p[16..20] == Zeros(4)
    ensures Content(crc, p) == Some(p) && Normalized(crc, p) == Some(s) && Learned(crc, p) == Some(x)
    ensures ByteAt(x.achievements, 0) == 1
  {
    StandardRepLayout(crc, s);
    ConvertedIsStandard(crc, s, UNLOCK, []);
    p := PlusFromRep(crc, s, UNLOCK, []);
    x := Carried(s, UNLOCK, []);
    ConvertedFields(crc, s, UNLOCK, []);
    BuiltCarries(crc, s, UNLOCK, []);
    RepRoundTrip(crc, s, UNLOCK, []);
    NormalizedIsConverted(crc, p);
    StandardRepPlusLayout(crc, p);
    assert Fit(UNLOCK.achievements, 4) == [1, 0, 0, 0];
  }

  /** A sidecar without the unlock does not carry it, whatever the standard save. */
  lemma NothingCarried(crc: ChecksumFn, c: seq<byte>, x: Extra)
    requires StandardRep(crc, c) && ByteAt(x.achievements, 0) == 1
    ensures !Above(Carried(c, NOTHING, []), x)
  {
    StandardRepLayout(crc, c);
    assert ByteAt(Carried(c, NOTHING, []).achievements, 0) == Fit([], 4)[0] == 0;
  }

  /** A device with one save, its BASE, and a file on Steam; there is no sidecar. */
  function OneSlot(local: seq<byte>, remote: seq<byte>, base: seq<byte>): World
  {
    World(map[1 := local], map[(0, 1) := Remote(FILE, remote, true)], map[], [],
          SyncState(Some(0), map[FILE := Entry(1, FILE, base)], map[]))
  }

  lemma OneSlotView(local: seq<byte>, remote: seq<byte>, base: seq<byte>)
    ensures var w := OneSlot(local, remote, base);
      && Orderly(w) && SteamFile(w, 1) == Some(Remote(FILE, remote, true))
      && Now(w, 1) == View(0, 1, local, Some(Remote(FILE, remote, true)), NOTHING, Some(base), None)
  {
    var files := OneSlot(local, remote, base).saved.files;
    assert FILE in files && files[FILE].slot == 1;
    assert HasEntry(files, 1);
  }

  lemma OneSlotCompletes(codec: Codec, input: Input, w: World)
    requires w.saved.account.Some? && 1 in w.locals && input.manual && codec.content(w.locals[1]).Some?
    requires TurnOf(codec, input, Now(w, 1)).verdict != Failed
    ensures Completes(codec, input, w, [1])
  {
    var account, turn := w.saved.account.value, TurnFn(codec, input);
    var t := turn(Now(w, 1));
    LocalsStay(w, t.effects);
    assert [1][1..] == [];
    assert RunFrom(turn, ApplyAll(w, t.effects), After(w.saved, 1, t), account, []).state.Some?;
    assert Selected(input, w, account, []) == [] && Selected(input, w, account, [1]) == [1];
    assert PlanOf(codec, input, w, [1]).state.Some?;
  }

  /** A manual run whose sidecar cannot be written, with an unlock that only Steam's file has: the run loses it. */
  lemma RunCanLoseUnlock(crc: ChecksumFn) returns (input: Input, w: World, x: Extra)
    ensures var codec := SaveCodec(crc);
      && Orderly(w) && w.saved.account.Some? && 1 in w.locals && 1 !in input.writable
      && Completes(codec, input, w, [1])
      && Progressed(codec, SteamFile(w, 1)) && codec.learned(SteamFile(w, 1).value.bytes) == Some(x)
      && !Holds(codec, SteamFile(Synced(codec, input, w, [1]), 1), x)
  {
    var codec, p := SaveCodec(crc), [];
    var s, c := TwoSaves(crc);
    p, x := UnlockOnSteam(crc, s);
    input, w := Input(true, {}, {}, {}, []), OneSlot(c, p, s);
    IsRepPlusPath();
    OneSlotView(c, p, s);
    SaveCodecIsLawful(crc);
    SaveCodecKeepsProgress(crc);
    DuePush(crc, input, Now(w, 1), c, s);
    OneSlotCompletes(codec, input, w);
    NothingCarried(crc, c, x);
    CompletedSyncKeepsProgress(codec, input, w, [1], 1, x);
  }

  /** A choice over a compressed file loses what only that file has, though the sidecar can be written. */
  lemma ChoiceCanLoseUnlock(crc: ChecksumFn) returns (input: Input, w: World, x: Extra, cut: nat)
    ensures var codec := SaveCodec(crc);
      && w.saved.account.Some? && 1 in w.locals && 1 in input.writable && 1 in input.rewritable
      && Progressed(codec, SteamFile(w, 1)) && codec.learned(SteamFile(w, 1).value.bytes) == Some(x)
      && !Holds(codec, SteamFile(Next(codec, w, Force(input, 1, true, FILE, cut)), 1), x)
  {
    var codec, p := SaveCodec(crc), [];
    var s, c := TwoSaves(crc);
    p, x := UnlockOnSteam(crc, s);
    var raw := CompressedForm(crc, p);
    input, w := Input(true, {}, {1}, {1}, []), OneSlot(c, raw, s);
    IsRepPlusPath();
    OneSlotView(c, raw, s);
    SaveCodecIsLawful(crc);
    SaveCodecKeepsProgress(crc);
    RepSizedUploads(crc, REP_PLUS_PATH, c, NOTHING, []);
    NothingCarried(crc, c, x);
    cut := |ForceTurn(codec, input, Now(w, 1), true, FILE).effects|;
    ForceKeepsProgress(codec, input, w, 1, true, FILE, cut, x);
  }
}
