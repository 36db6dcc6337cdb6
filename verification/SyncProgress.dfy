/** Repentance+ progress on Steam: exactly when a run, a choice or a whole history keeps it. */
module SyncProgress {
  import opened Bytes
  import opened ByteOr
  import opened SaveFormat
  import opened SaveLayout
  import opened Conversion
  import opened RepPlusExtra
  import opened SyncDecision
  import opened SyncCodec
  import opened SyncModel
  import opened SyncRuns
  import opened SyncSafety
  import opened SyncHistory
  import opened SyncProvenance
  import opened SyncConvergence

  /** Every unlock among the four extra achievements and every extra counter of `x` is in `y` too. */
  ghost predicate Above(y: Extra, x: Extra)
  {
    && (forall i | 0 <= i < 4 && ByteAt(x.achievements, i) == 1 :: ByteAt(y.achievements, i) == 1)
    && (forall w: nat | w % 4 == 0 && w + 4 <= 108 :: Word(y.counters, w) >= Word(x.counters, w))
  }

  /** Achievement bytes are flags. */
  ghost predicate Flags(x: Extra)
  {
    forall i | 0 <= i < |x.achievements| :: x.achievements[i] <= 1
  }

  lemma OrOne(a: byte)
    requires a <= 1
    ensures Or(a, 1) == 1 && Or(1, a) == 1 && Or(a, 0) == a && Or(0, a) == a
  {
    OrLaws(a, 1, 0);
    OrLaws(a, 0, 0);
    OrLaws(1, 1, 1);
  }

  lemma MergeFlags(a: Extra, b: Extra, i: nat)
    requires Flags(a) && Flags(b)
    ensures ByteAt(MergeExtra(a, b).achievements, i)
      == if ByteAt(a.achievements, i) == 1 || ByteAt(b.achievements, i) == 1 then 1 else 0
  {
    MergedByte(a, b, i);
    OrOne(ByteAt(a.achievements, i));
    OrOne(ByteAt(b.achievements, i));
  }

  lemma GrownWordAtLeast(s: seq<byte>, n: nat, w: nat)
    ensures w + 4 <= |Grow(s, n)| ==> U32At(Grow(s, n), w) >= Word(s, w)
  {
    if w + 4 <= |s| {
      SameWord(Grow(s, n), w, s, w);
    }
  }

  /** Merging loses nothing of either record when the merged-in one is long enough. */
  lemma MergeIsAbove(a: Extra, b: Extra)
    requires Flags(a) && Flags(b) && |b.counters| >= 108
    ensures Flags(MergeExtra(a, b)) && Above(MergeExtra(a, b), a) && Above(MergeExtra(a, b), b)
  {
    var m := MergeExtra(a, b);
    forall i | 0 <= i < |m.achievements| ensures m.achievements[i] <= 1 {
      MergeFlags(a, b, i);
    }
    forall i: nat | i < 4
      ensures (ByteAt(a.achievements, i) == 1 || ByteAt(b.achievements, i) == 1) ==> ByteAt(m.achievements, i) == 1
    {
      MergeFlags(a, b, i);
    }
    var g := Grow(a.counters, |b.counters|);
    forall w: nat | w % 4 == 0 && w + 4 <= 108
      ensures Word(m.counters, w) >= Word(a.counters, w) && Word(m.counters, w) >= Word(b.counters, w)
    {
      MaxWordsAt(g, b.counters, w);
      GrownWordAtLeast(a.counters, |b.counters|, w);
    }
  }

  lemma AboveIsTransitive(z: Extra, y: Extra, x: Extra)
    requires Above(z, y) && Above(y, x)
    ensures Above(z, x)
  {
  }

  // What the formats guarantee.

  /** The Repentance+ data in a file, if any, has flags where it has achievements. */
  ghost predicate FlagFile(codec: Codec, raw: seq<byte>)
  {
    codec.learned(raw).Some? ==> Flags(codec.learned(raw).value)
  }

  ghost predicate LearnedLaws(codec: Codec)
  {
    forall raw ::
      && (codec.learned(raw).Some? ==>
            |codec.learned(raw).value.achievements| == 4 && |codec.learned(raw).value.counters| == 108)
      && (codec.content(raw).Some? ==> codec.learned(codec.content(raw).value) == codec.learned(raw))
      && (codec.content(raw) == Some(raw) || codec.forced(raw).Some? ==> codec.forced(raw) == codec.learned(raw))
      && (codec.normalized(raw).Some? ==> codec.learned(codec.normalized(raw).value).None?)
  }

  /** What is carried is the sidecar and more; an upload under a Repentance+ name holds exactly that. */
  ghost predicate CarryLaws(codec: Codec)
  {
    && (forall c, extra, ids :: Above(codec.carried(c, extra, ids), extra))
    && (forall path, c, extra, ids | codec.content(c) == Some(c) && codec.uploaded(path, c, extra, ids).Some? ::
          UploadCarries(codec, path, c, extra, ids))
  }

  ghost predicate UploadCarries(codec: Codec, path: string, c: seq<byte>, extra: Extra, ids: seq<u32>)
    requires codec.uploaded(path, c, extra, ids).Some?
  {
    var u := codec.uploaded(path, c, extra, ids).value;
    && codec.extract(u) == codec.learned(u)
    && (Flags(extra) && FlagFile(codec, c) ==> FlagFile(codec, u))
    && (IsRepPlusName(path) ==> codec.learned(u) == Some(codec.carried(c, extra, ids)))
  }

  ghost predicate ProgressLaws(codec: Codec) { LearnedLaws(codec) && CarryLaws(codec) }

  lemma FitIsAbove(x: Extra, y: Extra)
    requires |y.achievements| == 4 && y.counters == Fit(x.counters, 108)
    requires forall i | 0 <= i < 4 :: y.achievements[i] == 1 || y.achievements[i] == ByteAt(x.achievements, i)
    ensures Above(y, x)
  {
    forall w: nat | w % 4 == 0 && w + 4 <= 108 ensures Word(y.counters, w) >= Word(x.counters, w) {
      if w + 4 <= |x.counters| {
        SameWord(y.counters, w, x.counters, w);
      }
    }
  }

  lemma RaisedIsAbove(s: seq<byte>, x: Extra, y: Extra)
    requires |s| == 108 && |y.achievements| == 4 && y.counters == MaxWords(s, x.counters)
    requires forall i | 0 <= i < 4 && ByteAt(x.achievements, i) == 1 :: y.achievements[i] == 1
    ensures Above(y, x)
  {
    forall w: nat | w % 4 == 0 && w + 4 <= 108 ensures Word(y.counters, w) >= Word(x.counters, w) {
      MaxWordsAt(s, x.counters, w);
    }
  }

  lemma CarriedIsAbove(c: seq<byte>, extra: Extra, ids: seq<u32>)
    ensures Above(Carried(c, extra, ids), extra)
  {
    var y := Carried(c, extra, ids);
    if IsRepPlus(c) && |c| >= 2790 {
      RaisedIsAbove(c[2670..2778], extra, y);
    } else if |c| >= 34 {
      forall i: nat | i < 4 ensures Fit(extra.achievements, 4)[i] == ByteAt(extra.achievements, i) {
      }
      FitIsAbove(extra, y);
    }
  }

  /** A save built in the Repentance+ layout holds the fitted sidecar. */
  lemma BuiltCarries(crc: ChecksumFn, c: seq<byte>, extra: Extra, ids: seq<u32>)
    requires !IsRepPlus(c) && |c| >= 2678 && Canonical(crc, PlusFromRep(crc, c, extra, ids))
    ensures ExtractExtra(crc, PlusFromRep(crc, c, extra, ids)) == Some(Carried(c, extra, ids))
    ensures Flags(extra) ==> Flags(Carried(c, extra, ids))
  {
    ConvertedFields(crc, c, extra, ids);
    forall i: nat | i < 4 ensures Fit(extra.achievements, 4)[i] == ByteAt(extra.achievements, i) {
    }
  }

  /** A Repentance+ save raised to the sidecar holds both. */
  lemma RaisedCarries(crc: ChecksumFn, c: seq<byte>, extra: Extra, ids: seq<u32>)
    requires Canonical(crc, c) && IsRepPlus(c) && RepToRepPlus(crc, c, extra, ids).Some?
    ensures |c| >= 2790
    ensures ExtractExtra(crc, RepToRepPlus(crc, c, extra, ids).value) == Some(Carried(c, extra, ids))
    ensures Flags(extra) && Flags(Extra(c[670..674], c[2670..2778])) ==> Flags(Carried(c, extra, ids))
  {
    ToRepPlusIsClosed(crc, c, extra, ids);
    ExtractedSlices(crc, RepToRepPlus(crc, c, extra, ids).value);
    RaisedSlices(crc, c, extra, ids);
    RaisedFlags(c, extra, ids);
  }

  lemma ExtractedSlices(crc: ChecksumFn, u: seq<byte>)
    requires Canonical(crc, u) && IsRepPlus(u) && |u| >= 2790
    ensures ExtractExtra(crc, u) == Some(Extra(u[670..674], u[2670..2778]))
  {
  }

  lemma RaisedFlags(c: seq<byte>, extra: Extra, ids: seq<u32>)
    requires |c| >= 2790
    ensures Flags(Extra(c[670..674], c[2670..2778])) ==>
      Flags(Extra(HealedAchievements(c, extra, ids), MaxWords(c[2670..2778], extra.counters)))
  {
    forall i: nat | i < 4 ensures c[670 + i] == c[670..674][i] {
    }
  }

  lemma RaisedSlices(crc: ChecksumFn, c: seq<byte>, extra: Extra, ids: seq<u32>)
    requires Canonical(crc, c) && IsRepPlus(c) && RepToRepPlus(crc, c, extra, ids).Some? && |c| >= 2790
    ensures var u := RepToRepPlus(crc, c, extra, ids).value;
      && |u| == |c| && u[670..674] == HealedAchievements(c, extra, ids)
      && u[2670..2778] == MaxWords(c[2670..2778], extra.counters)
  {
    var u, h := RepToRepPlus(crc, c, extra, ids).value, Healed(c, extra, ids);
    HealedFields(c, extra, ids);
    SaveGrammar.SealedBody(crc, h[..|h| - 4]);
    assert |u| == |h| && u[..|u| - 4] == h[..|h| - 4];
    assert u[670..674] == u[..|u| - 4][670..674] == h[670..674];
    assert u[2670..2778] == u[..|u| - 4][2670..2778] == h[2670..2778];
  }

  lemma LearnedIsWhole(crc: ChecksumFn, raw: seq<byte>)
    ensures Learned(crc, raw).Some? ==>
      |Learned(crc, raw).value.achievements| == 4 && |Learned(crc, raw).value.counters| == 108
    ensures ExtractExtra(crc, raw) == Learned(crc, raw)
    ensures Content(crc, raw).Some? ==> Learned(crc, Content(crc, raw).value) == Learned(crc, raw)
    ensures Content(crc, raw) == Some(raw) && !IsRepPlus(raw) ==> Learned(crc, raw).None?
  {
    if Canonicalize(crc, raw).Some? {
      CanonicalizeIsIdempotent(crc, raw);
    }
  }

  lemma NormalizedHasNoExtra(crc: ChecksumFn, raw: seq<byte>)
    requires Normalized(crc, raw).Some?
    ensures Learned(crc, Normalized(crc, raw).value).None?
  {
    NormalizedIsStable(crc, raw);
    LearnedIsWhole(crc, Normalized(crc, raw).value);
  }

  lemma SaveCodecLearns(crc: ChecksumFn)
    ensures LearnedLaws(SaveCodec(crc))
  {
    var codec := SaveCodec(crc);
    forall raw
      ensures codec.learned(raw).Some? ==>
        |codec.learned(raw).value.achievements| == 4 && |codec.learned(raw).value.counters| == 108
      ensures codec.content(raw).Some? ==> codec.learned(codec.content(raw).value) == codec.learned(raw)
      ensures codec.content(raw) == Some(raw) || codec.forced(raw).Some? ==> codec.forced(raw) == codec.learned(raw)
      ensures codec.normalized(raw).Some? ==> codec.learned(codec.normalized(raw).value).None?
    {
      LearnedIsWhole(crc, raw);
      if Normalized(crc, raw).Some? {
        NormalizedHasNoExtra(crc, raw);
      }
    }
  }

  lemma SaveCodecCarries(crc: ChecksumFn, path: string, c: seq<byte>, extra: Extra, ids: seq<u32>)
    requires Content(crc, c) == Some(c) && Uploaded(crc, path, c, extra, ids).Some?
    ensures UploadCarries(SaveCodec(crc), path, c, extra, ids)
  {
    LearnedIsWhole(crc, Uploaded(crc, path, c, extra, ids).value);
    if IsRepPlusName(path) {
      ContentIsCanonical(crc, c);
      if IsRepPlus(c) {
        RaisedCarries(crc, c, extra, ids);
      } else {
        BuiltCarries(crc, c, extra, ids);
      }
    }
  }

  /** The save formats carry Repentance+ progress, whatever the checksum and the layout of the save. */
  lemma SaveCodecKeepsProgress(crc: ChecksumFn)
    ensures ProgressLaws(SaveCodec(crc))
  {
    var codec := SaveCodec(crc);
    SaveCodecLearns(crc);
    forall c, extra, ids ensures Above(codec.carried(c, extra, ids), extra) {
      CarriedIsAbove(c, extra, ids);
    }
    forall path, c, extra, ids | codec.content(c) == Some(c) && codec.uploaded(path, c, extra, ids).Some?
      ensures UploadCarries(codec, path, c, extra, ids)
    {
      SaveCodecCarries(crc, path, c, extra, ids);
    }
  }

  // One slot.

  ghost predicate FlagView(codec: Codec, v: View)
  {
    FlagFile(codec, v.local) && Flags(v.extra) && (v.remote.Some? ==> FlagFile(codec, v.remote.value.bytes))
  }

  ghost predicate FlagEffect(codec: Codec, e: Effect)
  {
    match e
    case KeepExtra(_, x) => Flags(x)
    case Store(b) => FlagFile(codec, b.bytes)
    case Upload(_, _, r) => FlagFile(codec, r.bytes)
    case ReplaceLocal(_, bytes) => FlagFile(codec, bytes)
    case Save(_) => true
  }

  ghost predicate AllFlags(codec: Codec, effects: seq<Effect>)
  {
    forall i :: 0 <= i < |effects| ==> FlagEffect(codec, effects[i])
  }

  /** What the device's content carries with this sidecar and these ids is at or above `x`. */
  ghost predicate Covers(codec: Codec, input: Input, v: View, x: Extra)
  {
    codec.content(v.local).Some? ==> Above(codec.carried(codec.content(v.local).value, v.extra, input.ids), x)
  }

  lemma PushedExtra(codec: Codec, input: Input, v: View, path: string, c: seq<byte>)
    requires Lawful(codec) && ProgressLaws(codec) && FlagView(codec, v)
    requires codec.content(v.local) == Some(c) && codec.uploaded(path, c, v.extra, input.ids).Some?
    ensures var u := codec.uploaded(path, c, v.extra, input.ids).value;
      && UploadCarries(codec, path, c, v.extra, input.ids) && FlagFile(codec, u)
      && AllFlags(codec, PushExtra(codec, input, v, path, u))
  {
    assert codec.content(c) == Some(c) && codec.learned(c) == codec.learned(v.local);
    var u := codec.uploaded(path, c, v.extra, input.ids).value;
    assert UploadCarries(codec, path, c, v.extra, input.ids);
    if IsRepPlusName(path) {
      MergeIsAbove(v.extra, codec.learned(u).value);
    }
  }

  lemma PushFlags(codec: Codec, input: Input, v: View, r: Remote, c: seq<byte>)
    requires Lawful(codec) && ProgressLaws(codec) && FlagView(codec, v)
    requires FlagFile(codec, r.bytes) && codec.content(v.local) == Some(c)
    ensures AllFlags(codec, PushTurn(codec, input, v, r, c).effects)
  {
    if codec.uploaded(r.name.path, c, v.extra, input.ids).Some? {
      PushedExtra(codec, input, v, r.name.path, c);
    }
  }

  lemma NewFlags(codec: Codec, input: Input, v: View, c: seq<byte>, name: Name)
    requires Lawful(codec) && ProgressLaws(codec) && FlagView(codec, v) && codec.content(v.local) == Some(c)
    ensures AllFlags(codec, NewTurn(codec, input, v, c, name).effects)
  {
    if codec.uploaded(name.path, c, v.extra, input.ids).Some? {
      PushedExtra(codec, input, v, name.path, c);
    }
  }

  lemma TwoFlags(codec: Codec, a: Effect, b: Effect)
    requires FlagEffect(codec, a) && FlagEffect(codec, b)
    ensures AllFlags(codec, [a, b])
  {
  }

  lemma CompareFlags(codec: Codec, input: Input, v: View, r: Remote, c: seq<byte>, n: seq<byte>)
    requires Lawful(codec) && ProgressLaws(codec) && FlagView(codec, v) && v.remote == Some(r)
    requires codec.content(v.local) == Some(c) && FlagFile(codec, n)
    ensures AllFlags(codec, CompareTurn(codec, input, v, r, c, n).effects)
    ensures AllFlags(codec, PullTurn(v, r, n).effects)
  {
    TwoFlags(codec, StoreOf(v, LocalBeforePull, v.local), ReplaceLocal(v.slot, n));
    match Decide(v.base, c, n)
    case DownloadRemote =>
    case FirstSyncChoiceRequired =>
      TwoFlags(codec, StoreOf(v, LocalFirstSync, v.local), StoreOf(v, SteamFirstSync, r.bytes));
    case Conflict => TwoFlags(codec, StoreOf(v, LocalConflict, v.local), StoreOf(v, SteamConflict, r.bytes));
    case _ => PushFlags(codec, input, v, r, c);
  }

  /** Merging what Steam's copy holds keeps flags, and puts it in the sidecar when that can be written. */
  lemma LearnedFlags(codec: Codec, input: Input, v: View, x: Extra)
    requires FlagView(codec, v) && Flags(x) && |x.counters| == 108
    ensures Flags(KeptExtra(input, v, MergeExtra(v.extra, x)))
    ensures AllFlags(codec, KeepIfWritable(input, v.slot, MergeExtra(v.extra, x)))
    ensures v.slot in input.writable ==> Above(KeptExtra(input, v, MergeExtra(v.extra, x)), x)
  {
    MergeIsAbove(v.extra, x);
  }

  lemma LearnedViewFlags(codec: Codec, input: Input, v: View, r: Remote)
    requires ProgressLaws(codec) && FlagView(codec, v) && v.remote == Some(r)
    ensures FlagView(codec, LearnedView(codec, input, v, r.bytes))
    ensures AllFlags(codec, LearnEffects(codec, input, v, r.bytes))
  {
    if codec.learned(r.bytes).Some? {
      LearnedFlags(codec, input, v, codec.learned(r.bytes).value);
    }
  }

  lemma TurnFlags(codec: Codec, input: Input, v: View)
    requires Lawful(codec) && ProgressLaws(codec) && FlagView(codec, v)
    ensures AllFlags(codec, TurnOf(codec, input, v).effects)
  {
    if v.remote.Some? && codec.content(v.local).Some? {
      var r := v.remote.value;
      LearnedViewFlags(codec, input, v, r);
      if codec.normalized(r.bytes).Some? {
        var c, n := codec.content(v.local).value, codec.normalized(r.bytes).value;
        CompareFlags(codec, input, LearnedView(codec, input, v, r.bytes), r, c, n);
      }
    }
  }

  lemma ForcedViewFlags(codec: Codec, input: Input, v: View, r: Remote)
    requires ProgressLaws(codec) && FlagView(codec, v) && v.remote == Some(r)
    ensures FlagView(codec, ForcedView(codec, input, v, r)) && AllFlags(codec, BeforeForce(codec, input, v, r))
  {
    if codec.forced(r.bytes).Some? {
      LearnedFlags(codec, input, v, codec.forced(r.bytes).value);
    }
  }

  lemma ForceFlags(codec: Codec, input: Input, v: View, useLocal: bool, name: Name)
    requires Lawful(codec) && ProgressLaws(codec) && FlagView(codec, v)
    ensures AllFlags(codec, ForceTurn(codec, input, v, useLocal, name).effects)
  {
    if codec.content(v.local).Some? {
      var c := codec.content(v.local).value;
      match v.remote
      case None => NewFlags(codec, input, v, c, name);
      case Some(r) =>
        ForcedViewFlags(codec, input, v, r);
        PushFlags(codec, input, ForcedView(codec, input, v, r), r, c);
    }
  }

  lemma AboveIsReflexive(x: Extra)
    ensures Above(x, x)
  {
  }

  // Worlds.

  ghost predicate FlagWorld(codec: Codec, w: World)
  {
    && (forall slot <- w.locals :: FlagFile(codec, w.locals[slot]))
    && (forall key <- w.remotes :: FlagFile(codec, w.remotes[key].bytes))
    && (forall slot <- w.extras :: Flags(w.extras[slot]))
    && (forall b <- w.backups :: FlagFile(codec, b.bytes))
  }

  lemma {:induction false} StaysFlagged(codec: Codec, w: World, effects: seq<Effect>)
    requires FlagWorld(codec, w) && AllFlags(codec, effects)
    ensures FlagWorld(codec, ApplyAll(w, effects))
    decreases |effects|
  {
    if effects != [] {
      assert FlagEffect(codec, effects[0]);
      StaysFlagged(codec, Apply(w, effects[0]), effects[1..]);
    }
  }

  lemma {:induction false} RunIsFlagged(codec: Codec, input: Input, w: World, st: SyncState, account: nat,
                                        slots: seq<nat>)
    requires Lawful(codec) && ProgressLaws(codec) && FlagWorld(codec, w)
    requires forall slot <- slots :: slot in w.locals
    ensures AllFlags(codec, RunFrom(TurnFn(codec, input), w, st, account, slots).effects)
    decreases |slots|
  {
    if slots != [] {
      var v := ViewOf(w, st, account, slots[0]);
      var t := TurnOf(codec, input, v);
      TurnFlags(codec, input, v);
      StaysFlagged(codec, w, t.effects);
      LocalsStay(w, t.effects);
      if t.verdict != Failed {
        RunIsFlagged(codec, input, ApplyAll(w, t.effects), After(st, slots[0], t), account, slots[1..]);
      }
    }
  }

  lemma SyncIsFlagged(codec: Codec, input: Input, w: World, slots: seq<nat>, cut: nat)
    requires Lawful(codec) && ProgressLaws(codec) && FlagWorld(codec, w)
    ensures FlagWorld(codec, ApplyAll(w, Take(SyncEffects(codec, input, w, slots), cut)))
  {
    var effects := SyncEffects(codec, input, w, slots);
    if effects != [] {
      RunIsFlagged(codec, input, w, w.saved, w.saved.account.value, Selected(input, w, w.saved.account.value, slots));
      assert AllFlags(codec, effects);
    }
    StaysFlagged(codec, w, Take(effects, cut));
  }

  lemma ForceIsFlagged(codec: Codec, input: Input, w: World, slot: nat, useLocal: bool, name: Name, cut: nat)
    requires Lawful(codec) && ProgressLaws(codec) && FlagWorld(codec, w)
    ensures FlagWorld(codec, ApplyAll(w, Take(ForceEffects(codec, input, w, slot, useLocal, name), cut)))
  {
    var effects := ForceEffects(codec, input, w, slot, useLocal, name);
    if effects != [] {
      var v := Now(w, slot);
      ForceFlags(codec, input, v, useLocal, name);
      assert AllFlags(codec, effects);
    }
    StaysFlagged(codec, w, Take(effects, cut));
  }

  lemma RestoreIsFlagged(codec: Codec, input: Input, w: World, slot: nat, bytes: seq<byte>, cut: nat)
    requires ProgressLaws(codec) && FlagWorld(codec, w) && FlagFile(codec, bytes)
    ensures FlagWorld(codec, ApplyAll(w, Take(RestoreEffects(codec, input, w, slot, bytes), cut)))
  {
    if codec.learned(bytes).Some? {
      MergeIsAbove(ExtraOf(w, slot), codec.learned(bytes).value);
    }
    assert AllFlags(codec, RestoreEffects(codec, input, w, slot, bytes));
    StaysFlagged(codec, w, Take(RestoreEffects(codec, input, w, slot, bytes), cut));
  }

  /** Files that players and other clients write hold flags where Repentance+ has them. */
  ghost predicate Flagged(codec: Codec, step: Step)
  {
    match step
    case EditLocal(_, Some(bytes)) => FlagFile(codec, bytes)
    case EditRemote(_, _, Some(r)) => FlagFile(codec, r.bytes)
    case _ => true
  }

  lemma StepKeepsFlags(codec: Codec, w: World, step: Step)
    requires Lawful(codec) && ProgressLaws(codec) && FlagWorld(codec, w) && Flagged(codec, step)
    ensures FlagWorld(codec, Next(codec, w, step))
  {
    match step
    case Sync(input, slots, cut) => SyncIsFlagged(codec, input, w, slots, cut);
    case Force(input, slot, useLocal, name, cut) => ForceIsFlagged(codec, input, w, slot, useLocal, name, cut);
    case Restore(input, slot, backup, cut) =>
      if backup < |w.backups| {
        assert w.backups[backup] in w.backups;
        RestoreIsFlagged(codec, input, w, slot, w.backups[backup].bytes, cut);
      }
    case _ =>
  }

  // What a step leaves on Steam.

  /** Steam's file of a slot, as the signed-in account has it. */
  function SteamFile(w: World, slot: nat): Option<Remote>
  {
    if w.saved.account.Some? && (w.saved.account.value, slot) in w.remotes
    then Some(w.remotes[(w.saved.account.value, slot)]) else None
  }

  /** A Repentance+ file with progress to lose. */
  ghost predicate Progressed(codec: Codec, r: Option<Remote>)
  {
    r.Some? && IsRepPlusName(r.value.name.path) && codec.learned(r.value.bytes).Some?
  }

  /** It holds every unlock and counter of `x`. */
  ghost predicate Holds(codec: Codec, r: Option<Remote>, x: Extra)
  {
    Progressed(codec, r) && Above(codec.learned(r.value.bytes).value, x)
  }

  ghost predicate Uploads(effects: seq<Effect>, slot: nat)
  {
    exists i :: 0 <= i < |effects| && effects[i].Upload? && effects[i].slot == slot
  }

  lemma {:induction false} OnlyUploads(effects: seq<Effect>, slot: nat)
    ensures Uploads(effects, slot) <==> !NoUpload(Only(effects, slot))
  {
    if effects != [] {
      var rest, last := effects[..|effects| - 1], effects[|effects| - 1];
      OnlyUploads(rest, slot);
      UploadsAppend(rest, last, slot);
      var only := Only(rest, slot);
      assert effects == rest + [last];
      if Concerns(last, slot) {
        assert forall i :: 0 <= i < |only| ==> (only + [last])[i] == only[i];
        assert (only + [last])[|only|] == last;
      } else {
        assert Only(effects, slot) == only;
      }
    }
  }

  lemma UploadsAppend(rest: seq<Effect>, last: Effect, slot: nat)
    ensures Uploads(rest + [last], slot) <==> Uploads(rest, slot) || (last.Upload? && last.slot == slot)
  {
    var all := rest + [last];
    if last.Upload? && last.slot == slot {
      assert all[|rest|].Upload? && all[|rest|].slot == slot;
    }
    if Uploads(rest, slot) {
      var i :| 0 <= i < |rest| && rest[i].Upload? && rest[i].slot == slot;
      assert all[i].Upload? && all[i].slot == slot;
    }
  }

  /** A synchronization stays with its account, wherever it ends. */
  lemma SyncKeepsAccount(codec: Codec, input: Input, w: World, slots: seq<nat>)
    requires Orderly(w) && Distinct(slots)
    ensures SameAccount(w.saved.account, SyncEffects(codec, input, w, slots))
  {
    var effects, final := SyncIsOperation(codec, input, w, slots);
  }

  /** What Steam and the sidecar then hold for a slot. */
  lemma SyncSteamFile(codec: Codec, input: Input, w: World, slots: seq<nat>, cut: nat, slot: nat)
    requires Orderly(w) && Distinct(slots) && slot in w.locals && w.saved.account.Some?
    ensures var after := Next(codec, w, Sync(input, slots, cut));
      var seen := SeenAll(Now(w, slot), DoneTo(codec, input, w, slots, cut, slot));
      SteamFile(after, slot) == seen.remote && ExtraOf(after, slot) == seen.extra
  {
    var effects := Take(SyncEffects(codec, input, w, slots), cut);
    SyncKeepsAccount(codec, input, w, slots);
    AccountStays(w, effects);
    ViewAfter(w, w.saved, w.saved.account.value, slot, effects);
    OnlyIsSeen(Now(w, slot), effects);
  }

  // Runs.

  /** A push that is due is made from the sidecar as it is after learning from Steam's file. */
  lemma DueTurn(codec: Codec, input: Input, v: View)
    requires Lawful(codec) && PushDue(codec, input, v)
    ensures var r := v.remote.value;
      TurnOf(codec, input, v).effects == LearnEffects(codec, input, v, r.bytes)
        + PushTurn(codec, input, LearnedView(codec, input, v, r.bytes), r, codec.content(v.local).value).effects
    ensures var r := v.remote.value;
      TurnOf(codec, input, v).verdict
      == PushTurn(codec, input, LearnedView(codec, input, v, r.bytes), r, codec.content(v.local).value).verdict
  {
    AgreementIsRecognized(v.base, codec.content(v.local).value, codec.normalized(v.remote.value.bytes).value);
    TransfersOverwriteBaseOnly(v.base, codec.content(v.local).value, codec.normalized(v.remote.value.bytes).value);
  }

  /** What Steam holds after it. */
  lemma TurnHolds(codec: Codec, input: Input, v: View, x: Extra)
    requires Lawful(codec) && ProgressLaws(codec) && PushDue(codec, input, v)
    requires IsRepPlusName(v.remote.value.name.path) && TurnOf(codec, input, v).verdict != Failed
    ensures Holds(codec, SeenAll(v, TurnOf(codec, input, v).effects).remote, x)
      <==> Covers(codec, input, LearnedView(codec, input, v, v.remote.value.bytes), x)
  {
    var r, c := v.remote.value, codec.content(v.local).value;
    var learned, learn := LearnedView(codec, input, v, r.bytes), LearnEffects(codec, input, v, r.bytes);
    DueTurn(codec, input, v);
    LearnedIsSeen(codec, input, v, r.bytes);
    SeenAppend(v, learn, PushTurn(codec, input, learned, r, c).effects);
    PushHolds(codec, input, learned, r, c);
  }

  /** A turn that has uploaded has come to its end. */
  lemma UploadIsWhole(codec: Codec, input: Input, v: View, done: seq<Effect>)
    requires Lawful(codec) && done <= TurnOf(codec, input, v).effects && !NoUpload(done)
    ensures done == TurnOf(codec, input, v).effects
    ensures PushDue(codec, input, v) && TurnOf(codec, input, v).verdict != Failed
  {
    var k :| 0 <= k < |done| && done[k].Upload?;
    assert TurnOf(codec, input, v).effects[k] == done[k];
    TurnCommits(codec, input, v);
    LoudIsLast(codec, TurnOf(codec, input, v));
    TurnTransfers(codec, input, v);
  }

  /** What the run would push of a slot, after learning what it can, covers `x`. */
  ghost predicate Pays(codec: Codec, input: Input, w: World, slot: nat, x: Extra)
  {
    && slot in w.locals && SteamFile(w, slot).Some?
    && Covers(codec, input, LearnedView(codec, input, Now(w, slot), SteamFile(w, slot).value.bytes), x)
  }

  /**
   * A synchronization, wherever it ends, keeps the Repentance+ progress of a file on Steam, every unlock
   * and every counter, if and only if it has not uploaded to the slot or what it pushes covers it.
   */
  lemma SyncKeepsProgress(codec: Codec, input: Input, w: World, slots: seq<nat>, cut: nat, slot: nat, x: Extra)
    requires Lawful(codec) && ProgressLaws(codec) && Orderly(w) && Distinct(slots)
    requires Progressed(codec, SteamFile(w, slot)) && codec.learned(SteamFile(w, slot).value.bytes) == Some(x)
    ensures Holds(codec, SteamFile(Next(codec, w, Sync(input, slots, cut)), slot), x) <==>
      (Uploads(Take(SyncEffects(codec, input, w, slots), cut), slot) ==> Pays(codec, input, w, slot, x))
  {
    var effects := Take(SyncEffects(codec, input, w, slots), cut);
    AboveIsReflexive(x);
    if !Uploads(effects, slot) {
      SyncKeepsAccount(codec, input, w, slots);
      ElsewhereUnseen(w, effects, slot);
    } else {
      UploadsOnDevice(codec, input, w, slots, cut, slot);
      var done := DoneTo(codec, input, w, slots, cut, slot);
      SyncDone(codec, input, w, slots, cut, slot);
      SyncSteamFile(codec, input, w, slots, cut, slot);
      OnlyUploads(effects, slot);
      UploadIsWhole(codec, input, Now(w, slot), done);
      TurnHolds(codec, input, Now(w, slot), x);
    }
  }

  /** Only a slot that the run takes up, and whose push is due, is uploaded. */
  lemma UploadsOnDevice(codec: Codec, input: Input, w: World, slots: seq<nat>, cut: nat, slot: nat)
    requires Orderly(w) && Distinct(slots) && Uploads(Take(SyncEffects(codec, input, w, slots), cut), slot)
    ensures w.saved.account.Some? && slot in w.locals && slot in slots
  {
    var effects := Take(SyncEffects(codec, input, w, slots), cut);
    var i :| 0 <= i < |effects| && effects[i].Upload? && effects[i].slot == slot;
    var account := w.saved.account.value;
    TurnsAreOwn(codec, input);
    RunSavesNothing(TurnFn(codec, input), w, w.saved, account, Selected(input, w, account, slots));
    assert effects[i] == PlanOf(codec, input, w, slots).effects[i];
  }

  /** A run that completes uploads exactly the pushes that are due, so its condition is known beforehand. */
  lemma CompletedSyncKeepsProgress(codec: Codec, input: Input, w: World, slots: seq<nat>, slot: nat, x: Extra)
    requires Lawful(codec) && ProgressLaws(codec) && Orderly(w) && Distinct(slots) && Completes(codec, input, w, slots)
    requires Progressed(codec, SteamFile(w, slot)) && codec.learned(SteamFile(w, slot).value.bytes) == Some(x)
    requires slot in slots && slot in w.locals
    ensures Holds(codec, SteamFile(Synced(codec, input, w, slots), slot), x) <==>
      (PushDue(codec, input, Now(w, slot)) ==> Pays(codec, input, w, slot, x))
  {
    var effects := SyncEffects(codec, input, w, slots);
    assert Take(effects, |effects|) == effects;
    SyncKeepsProgress(codec, input, w, slots, |effects|, slot, x);
    CompletedUploads(codec, input, w, slots, slot);
  }

  lemma CompletedUploads(codec: Codec, input: Input, w: World, slots: seq<nat>, slot: nat)
    requires Lawful(codec) && Orderly(w) && Distinct(slots) && Completes(codec, input, w, slots)
    requires slot in slots && slot in w.locals && SteamFile(w, slot).Some?
    ensures Uploads(SyncEffects(codec, input, w, slots), slot) <==> PushDue(codec, input, Now(w, slot))
  {
    var effects := SyncEffects(codec, input, w, slots);
    assert Take(effects, |effects|) == effects;
    SyncDone(codec, input, w, slots, |effects|, slot);
    OnlyUploads(effects, slot);
    CompletedSyncDidNotFail(codec, input, w, slots, slot);
    TurnTransfers(codec, input, Now(w, slot));
  }

  /** A run whose sidecar can be written, or already holds it, carries what Steam's file holds. */
  lemma RunCovers(codec: Codec, input: Input, v: View, x: Extra)
    requires ProgressLaws(codec) && FlagView(codec, v)
    requires v.remote.Some? && codec.learned(v.remote.value.bytes) == Some(x)
    requires v.slot in input.writable || Covers(codec, input, v, x)
    ensures Covers(codec, input, LearnedView(codec, input, v, v.remote.value.bytes), x)
  {
    if v.slot in input.writable && codec.content(v.local).Some? {
      var learned, c := LearnedView(codec, input, v, v.remote.value.bytes), codec.content(v.local).value;
      LearnedFlags(codec, input, v, x);
      AboveIsTransitive(codec.carried(c, learned.extra, input.ids), learned.extra, x);
    }
  }

  /** A choice, too, when Steam's file is not compressed, so that it is recognized. */
  lemma ChoiceCovers(codec: Codec, input: Input, v: View, x: Extra)
    requires ProgressLaws(codec) && FlagView(codec, v)
    requires v.remote.Some? && codec.learned(v.remote.value.bytes) == Some(x)
    requires codec.content(v.remote.value.bytes) == Some(v.remote.value.bytes) && v.slot in input.writable
    ensures Covers(codec, input, ForcedView(codec, input, v, v.remote.value), x)
  {
    if codec.content(v.local).Some? {
      var learned, c := ForcedView(codec, input, v, v.remote.value), codec.content(v.local).value;
      LearnedFlags(codec, input, v, x);
      AboveIsTransitive(codec.carried(c, learned.extra, input.ids), learned.extra, x);
    }
  }

  // Effects on other slots.

  ghost predicate SameAccount(account: Option<nat>, effects: seq<Effect>)
  {
    forall i :: 0 <= i < |effects| && effects[i].Save? ==> effects[i].state.account == account
  }

  lemma {:induction false} AccountStays(w: World, effects: seq<Effect>)
    requires SameAccount(w.saved.account, effects)
    ensures ApplyAll(w, effects).saved.account == w.saved.account
    decreases |effects|
  {
    if effects != [] {
      AccountStays(Apply(w, effects[0]), effects[1..]);
    }
  }

  /** Effects without an upload to the slot leave Steam's file of it alone. */
  lemma {:induction false} ElsewhereUnseen(w: World, effects: seq<Effect>, slot: nat)
    requires !Uploads(effects, slot) && SameAccount(w.saved.account, effects)
    ensures SteamFile(ApplyAll(w, effects), slot) == SteamFile(w, slot)
    decreases |effects|
  {
    if effects != [] {
      assert !(effects[0].Upload? && effects[0].slot == slot);
      assert SteamFile(Apply(w, effects[0]), slot) == SteamFile(w, slot);
      forall i | 0 <= i < |effects| - 1 ensures !(effects[1..][i].Upload? && effects[1..][i].slot == slot) {
        assert effects[1..][i] == effects[i + 1];
      }
      ElsewhereUnseen(Apply(w, effects[0]), effects[1..], slot);
    }
  }

  lemma TidyUploads(s: nat, t: Turn, slot: nat)
    requires TidyTurn(s, t) && s != slot
    ensures !Uploads(t.effects, slot)
  {
  }

  lemma ForceElsewhere(codec: Codec, input: Input, w: World, s: nat, useLocal: bool, name: Name, cut: nat, slot: nat)
    requires Orderly(w) && name.slot == s && (s != slot || slot !in w.locals)
    ensures SteamFile(Next(codec, w, Force(input, s, useLocal, name, cut)), slot) == SteamFile(w, slot)
  {
    var effects, final := ForceIsOperation(codec, input, w, s, useLocal, name);
    if w.saved.account.Some? && s in w.locals {
      ForceIsTidy(codec, input, Now(w, s), useLocal, name);
      TidyUploads(s, ForceTurn(codec, input, Now(w, s), useLocal, name), slot);
    }
    ElsewhereUnseen(w, Take(WithSave(effects, final), cut), slot);
  }

  /** A choice that has uploaded the device's side. */
  ghost predicate HasUploaded(codec: Codec, input: Input, v: View, useLocal: bool, name: Name, cut: nat)
  {
    var t := ForceTurn(codec, input, v, useLocal, name);
    useLocal && t.verdict != Failed && cut >= |t.effects|
  }

  /**
   * The user's choice keeps the progress of a Repentance+ file on Steam if and only if it has not uploaded,
   * or what the device's content carries with the sidecar, after learning what it could, covers it.
   */
  lemma ForceKeepsProgress(codec: Codec, input: Input, w: World, slot: nat, useLocal: bool, name: Name, cut: nat,
                           x: Extra)
    requires Lawful(codec) && ProgressLaws(codec) && slot in w.locals
    requires Progressed(codec, SteamFile(w, slot)) && codec.learned(SteamFile(w, slot).value.bytes) == Some(x)
    ensures var v := Now(w, slot);
      Holds(codec, SteamFile(Next(codec, w, Force(input, slot, useLocal, name, cut)), slot), x) <==>
      (HasUploaded(codec, input, v, useLocal, name, cut) ==>
         Covers(codec, input, ForcedView(codec, input, v, v.remote.value), x))
  {
    var v := Now(w, slot);
    var t := ForceTurn(codec, input, v, useLocal, name);
    ForceSteamFile(codec, input, w, slot, useLocal, name, cut);
    AboveIsReflexive(x);
    if HasUploaded(codec, input, v, useLocal, name, cut) {
      ForceHolds(codec, input, v, name, x);
      assert Take(t.effects, cut) == t.effects;
    } else {
      ForceCommits(codec, input, v, useLocal, name);
      ShortOfUpload(codec, input, v, useLocal, name, cut);
      QuietUnseen(v, Take(t.effects, cut));
    }
  }

  lemma ShortOfUpload(codec: Codec, input: Input, v: View, useLocal: bool, name: Name, cut: nat)
    requires Lawful(codec) && v.remote.Some? && !HasUploaded(codec, input, v, useLocal, name, cut)
    ensures AllQuiet(Take(ForceTurn(codec, input, v, useLocal, name).effects, cut))
  {
    var t := ForceTurn(codec, input, v, useLocal, name);
    ForceCommits(codec, input, v, useLocal, name);
    if cut < |t.effects| {
      QuietPrefix(codec, t, Take(t.effects, cut));
    } else {
      assert Take(t.effects, cut) == t.effects;
    }
  }

  /** What Steam holds after a choice of the device's side, under a Repentance+ name. */
  lemma ForceHolds(codec: Codec, input: Input, v: View, name: Name, x: Extra)
    requires Lawful(codec) && ProgressLaws(codec) && v.remote.Some? && IsRepPlusName(v.remote.value.name.path)
    requires ForceTurn(codec, input, v, true, name).verdict != Failed
    ensures Holds(codec, SeenAll(v, ForceTurn(codec, input, v, true, name).effects).remote, x) <==>
      Covers(codec, input, ForcedView(codec, input, v, v.remote.value), x)
  {
    var r, c := v.remote.value, codec.content(v.local).value;
    var learned := ForcedView(codec, input, v, r);
    ForcedIsSeen(codec, input, v, r);
    SeenAppend(v, BeforeForce(codec, input, v, r), PushTurn(codec, input, learned, r, c).effects);
    PushHolds(codec, input, learned, r, c);
  }

  /** After a push under a Repentance+ name Steam's file holds exactly what the content carries. */
  lemma PushHolds(codec: Codec, input: Input, v: View, r: Remote, c: seq<byte>)
    requires Lawful(codec) && ProgressLaws(codec) && codec.content(v.local) == Some(c) && IsRepPlusName(r.name.path)
    requires PushTurn(codec, input, v, r, c).verdict != Failed
    ensures var after := SeenAll(v, PushTurn(codec, input, v, r, c).effects).remote;
      && after.Some? && after.value.name == r.name
      && codec.learned(after.value.bytes) == Some(codec.carried(c, v.extra, input.ids))
  {
    assert codec.content(c) == Some(c);
    var u := codec.uploaded(r.name.path, c, v.extra, input.ids).value;
    assert UploadCarries(codec, r.name.path, c, v.extra, input.ids);
    var learn, store := PushExtra(codec, input, v, r.name.path, u), StoreOf(v, SteamBeforePush, r.bytes);
    var commit := Upload(v.account, v.slot, Verified(r.name, u));
    assert PushTurn(codec, input, v, r, c).effects == (learn + [store]) + [commit];
    SeenLast(v, learn + [store], commit);
    QuietUnseen(v, learn + [store]);
  }

  lemma ForceSteamFile(codec: Codec, input: Input, w: World, slot: nat, useLocal: bool, name: Name, cut: nat)
    requires slot in w.locals && w.saved.account.Some?
    ensures SteamFile(Next(codec, w, Force(input, slot, useLocal, name, cut)), slot)
      == SeenAll(Now(w, slot), Take(ForceTurn(codec, input, Now(w, slot), useLocal, name).effects, cut)).remote
  {
    var v := Now(w, slot);
    var t := ForceTurn(codec, input, v, useLocal, name);
    var effects := ForceEffects(codec, input, w, slot, useLocal, name);
    var account := w.saved.account.value;
    ViewAfter(w, w.saved, account, slot, Take(t.effects, cut));
    if cut > |t.effects| && t.verdict != Failed {
      var st := Queued(After(w.saved, slot, t), v, useLocal);
      assert Take(effects, cut) == t.effects + [Save(st)];
      ApplyAppend(w, t.effects, [Save(st)]);
      assert [Save(st)][1..] == [];
    } else {
      assert Take(effects, cut) == Take(t.effects, cut);
      ForceSavesLast(codec, input, v, useLocal, name);
      OnlySaveSaves(w, Take(t.effects, cut));
    }
  }

  lemma PushSavesNothing(codec: Codec, input: Input, v: View, r: Remote, c: seq<byte>)
    ensures NoSave(PushTurn(codec, input, v, r, c).effects)
  {
  }

  lemma ForceSavesLast(codec: Codec, input: Input, v: View, useLocal: bool, name: Name)
    ensures NoSave(ForceTurn(codec, input, v, useLocal, name).effects)
  {
    if v.remote.Some? && codec.content(v.local).Some? {
      var r := v.remote.value;
      PushSavesNothing(codec, input, ForcedView(codec, input, v, r), r, codec.content(v.local).value);
      assert NoSave(BeforeForce(codec, input, v, r));
    }
  }

  /** Along a whole history every sidecar, every file on Steam and every backup keeps its flags. */
  lemma {:induction false} HistoryKeepsFlags(codec: Codec, worlds: seq<World>, steps: seq<Step>, i: nat)
    requires Lawful(codec) && ProgressLaws(codec) && History(codec, worlds, steps) && i < |worlds|
    requires FlagWorld(codec, worlds[0]) && forall k :: 0 <= k < |steps| ==> Flagged(codec, steps[k])
    ensures FlagWorld(codec, worlds[i])
  {
    if i > 0 {
      HistoryKeepsFlags(codec, worlds, steps, i - 1);
      HistoryStep(codec, worlds, steps, i);
      StepKeepsFlags(codec, worlds[i - 1], steps[i - 1]);
    }
  }

  /** Another client replaces Steam's file of this slot, or another account signs in. */
  ghost predicate Foreign(w: World, step: Step, slot: nat)
  {
    match step
    case EditRemote(account, s, _) => w.saved.account == Some(account) && s == slot
    case SignIn(account) => w.saved.account != Some(account)
    case _ => false
  }

  /** An upload that a step has made to the slot covers `x`. */
  ghost predicate Preserving(codec: Codec, w: World, step: Step, slot: nat, x: Extra)
    requires SteamFile(w, slot).Some?
  {
    match step
    case Sync(input, slots, cut) =>
      Uploads(Take(SyncEffects(codec, input, w, slots), cut), slot) ==> Pays(codec, input, w, slot, x)
    case Force(input, s, useLocal, name, cut) =>
      s == slot && slot in w.locals && HasUploaded(codec, input, Now(w, slot), useLocal, name, cut) ==>
        Covers(codec, input, ForcedView(codec, input, Now(w, slot), SteamFile(w, slot).value), x)
    case _ => true
  }

  lemma RestoreElsewhere(codec: Codec, input: Input, w: World, s: nat, bytes: seq<byte>, cut: nat, slot: nat)
    ensures SteamFile(ApplyAll(w, Take(RestoreEffects(codec, input, w, s, bytes), cut)), slot) == SteamFile(w, slot)
  {
    var effects := RestoreEffects(codec, input, w, s, bytes);
    assert forall i | 0 <= i < |effects| :: !effects[i].Upload? && !effects[i].Save?;
    ElsewhereUnseen(w, Take(effects, cut), slot);
  }

  lemma QuietStep(codec: Codec, w: World, step: Step, slot: nat)
    requires SteamFile(w, slot).Some? && !Foreign(w, step, slot) && !step.Sync? && !step.Force?
    ensures SteamFile(Next(codec, w, step), slot) == SteamFile(w, slot)
  {
    if step.Restore? && step.backup < |w.backups| {
      RestoreElsewhere(codec, step.input, w, step.slot, w.backups[step.backup].bytes, step.cut, slot);
    }
  }

  /** A step of this program keeps the progress of a file on Steam if and only if it is preserving. */
  lemma StepKeepsProgress(codec: Codec, w: World, step: Step, slot: nat, x: Extra)
    requires Lawful(codec) && ProgressLaws(codec) && Orderly(w) && Allowed(step) && !Foreign(w, step, slot)
    requires Progressed(codec, SteamFile(w, slot)) && codec.learned(SteamFile(w, slot).value.bytes) == Some(x)
    ensures Holds(codec, SteamFile(Next(codec, w, step), slot), x) <==> Preserving(codec, w, step, slot, x)
  {
    AboveIsReflexive(x);
    match step
    case Sync(input, slots, cut) => SyncKeepsProgress(codec, input, w, slots, cut, slot, x);
    case Force(input, s, useLocal, name, cut) =>
      if s == slot && slot in w.locals {
        ForceKeepsProgress(codec, input, w, slot, useLocal, name, cut, x);
      } else {
        ForceElsewhere(codec, input, w, s, useLocal, name, cut, slot);
      }
    case _ => QuietStep(codec, w, step, slot);
  }

  /** A step of this program that preserves whatever Steam's file of the slot holds. */
  ghost predicate Keeps(codec: Codec, w: World, step: Step, slot: nat)
  {
    && !Foreign(w, step, slot)
    && (Progressed(codec, SteamFile(w, slot)) ==>
          Preserving(codec, w, step, slot, codec.learned(SteamFile(w, slot).value.bytes).value))
  }

  lemma KeepsOn(codec: Codec, w: World, step: Step, slot: nat, x: Extra)
    requires Lawful(codec) && ProgressLaws(codec) && Orderly(w) && Allowed(step) && Keeps(codec, w, step, slot)
    requires Holds(codec, SteamFile(w, slot), x)
    ensures Holds(codec, SteamFile(Next(codec, w, step), slot), x)
  {
    var y := codec.learned(SteamFile(w, slot).value.bytes).value;
    StepKeepsProgress(codec, w, step, slot, y);
    AboveIsTransitive(codec.learned(SteamFile(Next(codec, w, step), slot).value.bytes).value, y, x);
  }

  lemma HistoryKeepsOn(codec: Codec, worlds: seq<World>, steps: seq<Step>, i: nat, slot: nat, x: Extra)
    requires Lawful(codec) && ProgressLaws(codec) && History(codec, worlds, steps) && 0 < i < |worlds|
    requires Keeps(codec, worlds[i - 1], steps[i - 1], slot) && Holds(codec, SteamFile(worlds[i - 1], slot), x)
    ensures Holds(codec, SteamFile(worlds[i], slot), x)
  {
    HistoryIsOrderly(codec, worlds, steps, i - 1);
    HistoryStep(codec, worlds, steps, i);
    KeepsOn(codec, worlds[i - 1], steps[i - 1], slot, x);
  }

  /** In any history, progress on Steam at one time is there at every later time, through such steps. */
  lemma {:induction false} HistoryKeepsProgress(codec: Codec, worlds: seq<World>, steps: seq<Step>, a: nat, b: nat,
                                                slot: nat, x: Extra)
    requires Lawful(codec) && ProgressLaws(codec) && History(codec, worlds, steps) && a <= b < |worlds|
    requires Holds(codec, SteamFile(worlds[a], slot), x)
    requires forall k :: a <= k < b ==> Keeps(codec, worlds[k], steps[k], slot)
    ensures Holds(codec, SteamFile(worlds[b], slot), x)
    decreases b
  {
    if a < b {
      HistoryKeepsProgress(codec, worlds, steps, a, b - 1, slot, x);
      HistoryKeepsOn(codec, worlds, steps, b, slot, x);
    }
  }

  // Flags and writable sidecars.

  /** A step of this program that can write the slot's sidecar; a choice of the device's side, over a canonical file. */
  ghost predicate Careful(codec: Codec, w: World, step: Step, slot: nat)
  {
    !Foreign(w, step, slot) &&
    match step
    case Sync(input, slots, _) => slot in slots ==> slot in input.writable
    case Force(input, s, true, _, _) =>
      s == slot && SteamFile(w, slot).Some? ==>
        slot in input.writable
        && codec.content(SteamFile(w, slot).value.bytes) == Some(SteamFile(w, slot).value.bytes)
    case _ => true
  }

  lemma CarefulKeeps(codec: Codec, w: World, step: Step, slot: nat)
    requires ProgressLaws(codec) && Orderly(w) && FlagWorld(codec, w) && Allowed(step) && Careful(codec, w, step, slot)
    ensures Keeps(codec, w, step, slot)
  {
    if Progressed(codec, SteamFile(w, slot)) && slot in w.locals {
      var x := codec.learned(SteamFile(w, slot).value.bytes).value;
      match step
      case Sync(input, slots, cut) =>
        if Uploads(Take(SyncEffects(codec, input, w, slots), cut), slot) {
          UploadsOnDevice(codec, input, w, slots, cut, slot);
          RunCovers(codec, input, Now(w, slot), x);
        }
      case Force(input, s, true, _, _) =>
        if s == slot {
          ChoiceCovers(codec, input, Now(w, slot), x);
        }
      case _ =>
    } else if step.Sync? && Uploads(Take(SyncEffects(codec, step.input, w, step.slots), step.cut), slot) {
      UploadsOnDevice(codec, step.input, w, step.slots, step.cut, slot);
    }
  }

  /**
   * In any history whose files have flags where Repentance+ has achievements, no progress on Steam is ever
   * lost while the slot's sidecar can be written.
   */
  lemma CarefulHistory(codec: Codec, worlds: seq<World>, steps: seq<Step>, a: nat, b: nat, slot: nat, x: Extra)
    requires Lawful(codec) && ProgressLaws(codec) && History(codec, worlds, steps) && a <= b < |worlds|
    requires FlagWorld(codec, worlds[0]) && forall k :: 0 <= k < |steps| ==> Flagged(codec, steps[k])
    requires Holds(codec, SteamFile(worlds[a], slot), x)
    requires forall k :: a <= k < b ==> Careful(codec, worlds[k], steps[k], slot)
    ensures Holds(codec, SteamFile(worlds[b], slot), x)
  {
    forall k | a <= k < b ensures Keeps(codec, worlds[k], steps[k], slot) {
      HistoryKeepsFlags(codec, worlds, steps, k);
      HistoryIsOrderly(codec, worlds, steps, k);
      HistoryStep(codec, worlds, steps, k + 1);
      CarefulKeeps(codec, worlds[k], steps[k], slot);
    }
    HistoryKeepsProgress(codec, worlds, steps, a, b, slot, x);
  }
}
