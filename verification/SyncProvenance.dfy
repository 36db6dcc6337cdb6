/** BASE always was, at some moment, what the device and Steam held together. */
module SyncProvenance {
  import opened Bytes
  import opened Conversion
  import opened SyncDecision
  import opened SyncCodec
  import opened SyncModel
  import opened SyncRuns
  import opened SyncSafety
  import opened SyncHistory

  /** An effect that changes neither the device's save nor Steam's file. */
  predicate Quiet(e: Effect) { e.KeepExtra? || e.Store? }

  ghost predicate AllQuiet(effects: seq<Effect>)
  {
    forall i :: 0 <= i < |effects| ==> Quiet(effects[i])
  }

  lemma {:induction false} QuietUnseen(v: View, effects: seq<Effect>)
    requires AllQuiet(effects)
    ensures SeenAll(v, effects) == v.(extra := SeenAll(v, effects).extra)
    decreases |effects|
  {
    if effects != [] {
      assert Quiet(effects[0]);
      QuietUnseen(Seen(v, effects[0]), effects[1..]);
    }
  }

  /** Device and Steam hold the same content. */
  ghost predicate Agree(codec: Codec, v: View, c: seq<byte>)
  {
    codec.content(v.local) == Some(c) && v.remote.Some? && codec.normalized(v.remote.value.bytes) == Some(c)
  }

  // Turns.

  /** A turn that changes a side does so in its last effect, and never uploads a compressed file. */
  ghost predicate LoudLast(codec: Codec, t: Turn)
  {
    if t.effects == [] || Quiet(t.effects[|t.effects| - 1]) then AllQuiet(t.effects)
    else
      && AllQuiet(t.effects[..|t.effects| - 1]) && t.entry.Some?
      && match t.effects[|t.effects| - 1]
        case Upload(_, _, r) => !codec.needsRepair(r.bytes)
        case ReplaceLocal(_, _) => true
        case _ => false
  }

  /** Besides, a new BASE is what both sides then hold. */
  ghost predicate OneCommit(codec: Codec, v: View, t: Turn)
  {
    LoudLast(codec, t) && (t.entry.Some? ==> Agree(codec, SeenAll(v, t.effects), t.entry.value.base))
  }

  /** A run is about to push: it is manual, no queued pull comes first, and Steam holds BASE or a compressed copy. */
  predicate PushDue(codec: Codec, input: Input, v: View)
  {
    && input.manual && codec.content(v.local).Some?
    && v.remote.Some? && codec.normalized(v.remote.value.bytes).Some? && !PullMatches(v.pull, v.remote.value)
    && if codec.content(v.local) == codec.normalized(v.remote.value.bytes) then codec.needsRepair(v.remote.value.bytes)
       else v.base == codec.normalized(v.remote.value.bytes)
  }

  /** If it is, the content can be read back from under the file's name. */
  predicate PushOk(codec: Codec, input: Input, v: View)
  {
    PushDue(codec, input, v) ==> codec.pushable(v.remote.value.name.path, codec.content(v.local).value)
  }

  /** What a push or a first upload sends is not compressed, and means the content exactly when that is pushable. */
  lemma UploadMeansContent(codec: Codec, path: string, c: seq<byte>, extra: Extra, ids: seq<u32>)
    requires Lawful(codec) && codec.content(c) == Some(c) && codec.uploaded(path, c, extra, ids).Some?
    ensures var u := codec.uploaded(path, c, extra, ids).value;
      !codec.needsRepair(u) && (codec.normalized(u) == Some(c) <==> codec.pushable(path, c))
  {
  }

  /** A copy, then an upload of the device's content. */
  lemma UploadCommits(codec: Codec, v: View, t: Turn, quiet: seq<Effect>, store: Effect, r: Remote, c: seq<byte>)
    requires codec.content(v.local) == Some(c) && AllQuiet(quiet) && Quiet(store) && !codec.needsRepair(r.bytes)
    requires t.effects == quiet + [store, Upload(v.account, v.slot, r)] && t.entry.Some? && t.entry.value.base == c
    ensures LoudLast(codec, t)
    ensures OneCommit(codec, v, t) <==> codec.normalized(r.bytes) == Some(c)
  {
    var commit := Upload(v.account, v.slot, r);
    assert t.effects == (quiet + [store]) + [commit];
    SeenLast(v, quiet + [store], commit);
    QuietUnseen(v, quiet + [store]);
  }

  lemma PushCommits(codec: Codec, input: Input, v: View, r: Remote, c: seq<byte>)
    requires Lawful(codec) && codec.content(v.local) == Some(c)
    ensures var t := PushTurn(codec, input, v, r, c);
      LoudLast(codec, t) && (t.verdict != Failed ==> (OneCommit(codec, v, t) <==> codec.pushable(r.name.path, c)))
  {
    var upload := codec.uploaded(r.name.path, c, v.extra, input.ids);
    assert codec.content(c) == Some(c);
    if upload.Some? {
      UploadMeansContent(codec, r.name.path, c, v.extra, input.ids);
      UploadCommits(codec, v, PushTurn(codec, input, v, r, c), PushExtra(codec, input, v, r.name.path, upload.value),
                    StoreOf(v, SteamBeforePush, r.bytes), Verified(r.name, upload.value), c);
    }
  }

  lemma NewCommits(codec: Codec, input: Input, v: View, c: seq<byte>, name: Name)
    requires Lawful(codec) && codec.content(v.local) == Some(c)
    ensures var t := NewTurn(codec, input, v, c, name);
      LoudLast(codec, t) && (t.verdict != Failed ==> (OneCommit(codec, v, t) <==> codec.pushable(name.path, c)))
  {
    var upload := codec.uploaded(name.path, c, v.extra, input.ids);
    assert codec.content(c) == Some(c);
    if upload.Some? {
      UploadMeansContent(codec, name.path, c, v.extra, input.ids);
      UploadCommits(codec, v, NewTurn(codec, input, v, c, name), PushExtra(codec, input, v, name.path, upload.value),
                    StoreOf(v, LocalFirstSync, v.local), Verified(name, upload.value), c);
    }
  }

  lemma PullCommits(codec: Codec, v: View, r: Remote, n: seq<byte>)
    requires Lawful(codec) && v.remote == Some(r) && codec.normalized(r.bytes) == Some(n)
    ensures OneCommit(codec, v, PullTurn(v, r, n))
  {
    var store, commit := StoreOf(v, LocalBeforePull, v.local), ReplaceLocal(v.slot, n);
    assert [store, commit] == [store] + [commit];
    SeenLast(v, [store], commit);
    QuietUnseen(v, [store]);
  }

  lemma CompareCommits(codec: Codec, input: Input, v: View, r: Remote, c: seq<byte>, n: seq<byte>)
    requires Lawful(codec) && v.remote == Some(r)
    requires codec.content(v.local) == Some(c) && codec.normalized(r.bytes) == Some(n)
    ensures var t := CompareTurn(codec, input, v, r, c, n);
      var due := input.manual && if c == n then codec.needsRepair(r.bytes) else v.base == Some(n);
      LoudLast(codec, t) &&
      (t.verdict != Failed ==> (OneCommit(codec, v, t) <==> (due ==> codec.pushable(r.name.path, c))))
  {
    AgreementIsRecognized(v.base, c, n);
    TransfersOverwriteBaseOnly(v.base, c, n);
    match Decide(v.base, c, n)
    case Unchanged => PushCommits(codec, input, v, r, c);
    case Converged => PushCommits(codec, input, v, r, c);
    case UploadLocal => PushCommits(codec, input, v, r, c);
    case DownloadRemote => PullCommits(codec, v, r, n);
    case _ =>
  }

  lemma LoudAfterQuiet(codec: Codec, quiet: seq<Effect>, t: Turn)
    requires AllQuiet(quiet) && LoudLast(codec, t)
    ensures LoudLast(codec, t.(effects := quiet + t.effects))
  {
    var all := quiet + t.effects;
    if t.effects != [] {
      assert all[|all| - 1] == t.effects[|t.effects| - 1];
      assert all[..|all| - 1] == quiet + t.effects[..|t.effects| - 1];
    } else {
      assert all == quiet;
    }
  }

  lemma CommitAfterLearning(codec: Codec, v: View, learned: View, quiet: seq<Effect>, t: Turn)
    requires AllQuiet(quiet) && SeenAll(v, quiet) == learned && LoudLast(codec, t)
    ensures LoudLast(codec, t.(effects := quiet + t.effects))
    ensures OneCommit(codec, v, t.(effects := quiet + t.effects)) <==> OneCommit(codec, learned, t)
  {
    SeenAppend(v, quiet, t.effects);
    LoudAfterQuiet(codec, quiet, t);
  }

  lemma LearnedIsSeen(codec: Codec, input: Input, v: View, raw: seq<byte>)
    ensures AllQuiet(LearnEffects(codec, input, v, raw))
    ensures SeenAll(v, LearnEffects(codec, input, v, raw)) == LearnedView(codec, input, v, raw)
  {
  }

  lemma ResolveCommits(codec: Codec, input: Input, v: View, r: Remote, c: seq<byte>, n: seq<byte>)
    requires Lawful(codec) && v.remote == Some(r)
    requires codec.content(v.local) == Some(c) && codec.normalized(r.bytes) == Some(n)
    ensures var t := ResolveTurn(codec, input, v, r, c, n);
      LoudLast(codec, t) && (t.verdict != Failed ==> (OneCommit(codec, v, t) <==> PushOk(codec, input, v)))
  {
    PullCommits(codec, v, r, n);
    CompareCommits(codec, input, v, r, c, n);
  }

  lemma PresentCommits(codec: Codec, input: Input, v: View, r: Remote, c: seq<byte>)
    requires Lawful(codec) && v.remote == Some(r) && codec.content(v.local) == Some(c)
    ensures var t := PresentTurn(codec, input, v, r, c);
      LoudLast(codec, t) && (t.verdict != Failed ==> (OneCommit(codec, v, t) <==> PushOk(codec, input, v)))
  {
    LearnedIsSeen(codec, input, v, r.bytes);
    if codec.normalized(r.bytes).Some? {
      var learned, n := LearnedView(codec, input, v, r.bytes), codec.normalized(r.bytes).value;
      ResolveCommits(codec, input, learned, r, c, n);
      assert PushOk(codec, input, learned) <==> PushOk(codec, input, v);
      CommitAfterLearning(codec, v, learned, LearnEffects(codec, input, v, r.bytes),
                          ResolveTurn(codec, input, learned, r, c, n));
    }
  }

  /**
   * Every turn changes a side in its last effect only. A new BASE is what both sides then hold if and
   * only if a push that was due was of content that can be read back.
   */
  lemma TurnCommits(codec: Codec, input: Input, v: View)
    requires Lawful(codec)
    ensures var t := TurnOf(codec, input, v);
      LoudLast(codec, t) && (t.verdict != Failed ==> (OneCommit(codec, v, t) <==> PushOk(codec, input, v)))
  {
    if v.remote.Some? && codec.content(v.local).Some? {
      PresentCommits(codec, input, v, v.remote.value, codec.content(v.local).value);
    }
  }

  // Choices.

  /** The device's side was chosen, and its content can be read back from under the name it is sent to. */
  predicate ForceOk(codec: Codec, v: View, useLocal: bool, name: Name)
  {
    useLocal && codec.content(v.local).Some? ==>
      codec.pushable(if v.remote.Some? then v.remote.value.name.path else name.path, codec.content(v.local).value)
  }

  lemma ForcedIsSeen(codec: Codec, input: Input, v: View, r: Remote)
    ensures AllQuiet(BeforeForce(codec, input, v, r))
    ensures SeenAll(v, BeforeForce(codec, input, v, r)) == ForcedView(codec, input, v, r)
  {
    var learn, both := ForcedEffects(codec, input, v, r),
      [StoreOf(v, LocalBeforeForce, v.local), StoreOf(v, SteamBeforeForce, r.bytes)];
    SeenAppend(v, learn, both);
    assert both == [both[0]] + [both[1]];
    SeenLast(ForcedView(codec, input, v, r), [both[0]], both[1]);
    assert [both[0]][1..] == [];
  }

  lemma ForceOverCommits(codec: Codec, input: Input, v: View, r: Remote, c: seq<byte>, useLocal: bool)
    requires Lawful(codec) && v.remote == Some(r) && codec.content(v.local) == Some(c)
    ensures var t := ForceOverTurn(codec, input, v, r, c, useLocal);
      LoudLast(codec, t) &&
      (t.verdict != Failed ==> (OneCommit(codec, v, t) <==> (useLocal ==> codec.pushable(r.name.path, c))))
  {
    var learned := ForcedView(codec, input, v, r);
    var t := if useLocal then PushTurn(codec, input, learned, r, c) else Turn([], None, false, Settled);
    PushCommits(codec, input, learned, r, c);
    ForcedIsSeen(codec, input, v, r);
    CommitAfterLearning(codec, v, learned, BeforeForce(codec, input, v, r), t);
  }

  /** The same for the user's choices. */
  lemma ForceCommits(codec: Codec, input: Input, v: View, useLocal: bool, name: Name)
    requires Lawful(codec)
    ensures var t := ForceTurn(codec, input, v, useLocal, name);
      LoudLast(codec, t) && (t.verdict != Failed ==> (OneCommit(codec, v, t) <==> ForceOk(codec, v, useLocal, name)))
  {
    match (codec.content(v.local), v.remote)
    case (None, _) =>
    case (Some(c), None) => NewCommits(codec, input, v, c, name);
    case (Some(c), Some(r)) => ForceOverCommits(codec, input, v, r, c, useLocal);
  }

  ghost predicate UploadsLast(codec: Codec, effects: seq<Effect>)
  {
    forall k :: 0 <= k < |effects| && effects[k].Upload? ==>
      k == |effects| - 1 && !codec.needsRepair(effects[k].remote.bytes)
  }

  lemma LoudIsLast(codec: Codec, t: Turn)
    requires LoudLast(codec, t)
    ensures UploadsLast(codec, t.effects)
  {
    forall i | 0 <= i < |t.effects| - 1 ensures Quiet(t.effects[i]) || Quiet(t.effects[|t.effects| - 1]) {
      assert t.effects[..|t.effects| - 1][i] == t.effects[i];
    }
  }

  /** An upload, by a run or by a choice, is the last effect on its slot, and leaves nothing to repair. */
  lemma PushRepairs(codec: Codec, input: Input, v: View, useLocal: bool, name: Name)
    requires Lawful(codec)
    ensures UploadsLast(codec, TurnOf(codec, input, v).effects)
    ensures UploadsLast(codec, ForceTurn(codec, input, v, useLocal, name).effects)
  {
    TurnCommits(codec, input, v);
    LoudIsLast(codec, TurnOf(codec, input, v));
    ForceCommits(codec, input, v, useLocal, name);
    LoudIsLast(codec, ForceTurn(codec, input, v, useLocal, name));
  }

  // When a turn transfers.

  ghost predicate NoReplacement(effects: seq<Effect>)
  {
    forall i :: 0 <= i < |effects| ==> !effects[i].ReplaceLocal?
  }

  lemma {:induction false} LocalUnseen(v: View, effects: seq<Effect>)
    requires NoReplacement(effects)
    ensures SeenAll(v, effects).local == v.local
    decreases |effects|
  {
    if effects != [] {
      LocalUnseen(Seen(v, effects[0]), effects[1..]);
    }
  }

  ghost predicate NoUpload(effects: seq<Effect>)
  {
    forall i :: 0 <= i < |effects| ==> !effects[i].Upload?
  }

  /** A run is about to replace the device's save: it may, and a queued pull matches or only Steam has moved. */
  predicate PullDue(codec: Codec, input: Input, v: View)
  {
    && v.slot in input.allowed && codec.content(v.local).Some?
    && v.remote.Some? && codec.normalized(v.remote.value.bytes).Some?
    && (PullMatches(v.pull, v.remote.value)
        || (v.base == codec.content(v.local) && v.base != codec.normalized(v.remote.value.bytes)))
  }

  lemma PushTransfers(codec: Codec, input: Input, v: View, r: Remote, c: seq<byte>)
    ensures var t := PushTurn(codec, input, v, r, c);
      && NoReplacement(t.effects) && (NoUpload(t.effects) <==> t.verdict == Failed)
      && (t.verdict != Failed ==> t.entry == Some(Entry(v.slot, r.name, c)))
  {
    var t := PushTurn(codec, input, v, r, c);
    if t.verdict != Failed {
      assert t.effects[|t.effects| - 1].Upload?;
    }
  }

  lemma PullTransfers(v: View, r: Remote, n: seq<byte>)
    ensures NoUpload(PullTurn(v, r, n).effects) && !NoReplacement(PullTurn(v, r, n).effects)
  {
    assert PullTurn(v, r, n).effects[1].ReplaceLocal?;
  }

  lemma CompareTransfers(codec: Codec, input: Input, v: View, r: Remote, c: seq<byte>, n: seq<byte>)
    ensures var t := CompareTurn(codec, input, v, r, c, n);
      var push := input.manual && if c == n then codec.needsRepair(r.bytes) else v.base == Some(n);
      && (NoUpload(t.effects) <==> !push || t.verdict == Failed)
      && (NoReplacement(t.effects) <==> !(v.slot in input.allowed && v.base == Some(c) && c != n))
      && (push && t.verdict != Failed ==> t.entry == Some(Entry(v.slot, r.name, c)))
      && (!push ==> t.verdict != Failed)
  {
    AgreementIsRecognized(v.base, c, n);
    TransfersOverwriteBaseOnly(v.base, c, n);
    PushTransfers(codec, input, v, r, c);
    PullTransfers(v, r, n);
  }

  lemma QuietTransfers(quiet: seq<Effect>, effects: seq<Effect>)
    requires AllQuiet(quiet)
    ensures NoUpload(quiet + effects) <==> NoUpload(effects)
    ensures NoReplacement(quiet + effects) <==> NoReplacement(effects)
  {
    assert forall i :: 0 <= i < |effects| ==> (quiet + effects)[|quiet| + i] == effects[i];
  }

  /**
   * A turn uploads if and only if a push is due and its conversion succeeds, and replaces the device's
   * save if and only if a pull is due.
   */
  lemma TurnTransfers(codec: Codec, input: Input, v: View)
    requires Lawful(codec)
    ensures var t := TurnOf(codec, input, v);
      && (NoUpload(t.effects) <==> !PushDue(codec, input, v) || t.verdict == Failed)
      && (NoReplacement(t.effects) <==> !PullDue(codec, input, v))
      && (PushDue(codec, input, v) && t.verdict != Failed ==>
            t.entry.Some? && codec.content(v.local) == Some(t.entry.value.base))
  {
    if v.remote.Some? && codec.content(v.local).Some? && codec.normalized(v.remote.value.bytes).Some? {
      var r := v.remote.value;
      var learned, learn := LearnedView(codec, input, v, r.bytes), LearnEffects(codec, input, v, r.bytes);
      var c, n := codec.content(v.local).value, codec.normalized(r.bytes).value;
      LearnedIsSeen(codec, input, v, r.bytes);
      CompareTransfers(codec, input, learned, r, c, n);
      PullTransfers(learned, r, n);
      QuietTransfers(learn, ResolveTurn(codec, input, learned, r, c, n).effects);
    }
  }

  /** A slot's file on the device and an account's file on Steam hold the same content. */
  ghost predicate Together(codec: Codec, w: World, account: nat, slot: nat, c: seq<byte>)
  {
    && slot in w.locals && codec.content(w.locals[slot]) == Some(c)
    && (account, slot) in w.remotes && codec.normalized(w.remotes[(account, slot)].bytes) == Some(c)
  }

  // What every step keeps.

  lemma {:induction false} OnlySaveSaves(w: World, effects: seq<Effect>)
    requires forall i :: 0 <= i < |effects| ==> !effects[i].Save?
    ensures ApplyAll(w, effects).saved == w.saved
    decreases |effects|
  {
    if effects != [] {
      OnlySaveSaves(Apply(w, effects[0]), effects[1..]);
    }
  }

  /** What a run carries along, besides the views. */
  lemma {:induction false} RunKeepsAccount(turn: View -> Turn, w: World, st: SyncState, account: nat, slots: seq<nat>)
    requires forall slot <- slots :: slot in w.locals
    ensures var plan := RunFrom(turn, w, st, account, slots);
      plan.state.Some? ==> plan.state.value.account == st.account
    decreases |slots|
  {
    if slots != [] {
      var t := turn(ViewOf(w, st, account, slots[0]));
      LocalsStay(w, t.effects);
      if t.verdict != Failed {
        RunKeepsAccount(turn, ApplyAll(w, t.effects), After(st, slots[0], t), account, slots[1..]);
      }
    }
  }

  /** A run keeps BASE of the slots it does not take up, with or without a save on the device. */
  lemma {:induction false} RunKeepsOthers(turn: View -> Turn, w: World, st: SyncState, account: nat, slots: seq<nat>,
                                          other: nat)
    requires OwnTurns(turn) && (forall slot <- slots :: slot in w.locals) && Placed(w) && Keyed(st.files)
    requires other !in slots
    ensures var plan := RunFrom(turn, w, st, account, slots);
      plan.state.Some? ==> BaseOf(plan.state.value.files, other) == BaseOf(st.files, other)
    decreases |slots|
  {
    if slots != [] {
      var v := ViewOf(w, st, account, slots[0]);
      var t := turn(v);
      assert OwnTurn(v, t);
      LocalsStay(w, t.effects);
      if t.entry.Some? {
        UpsertEntries(st.files, t.entry.value, other);
      }
      if t.verdict != Failed {
        TurnKeepsOrder(turn, w, st, account, slots[0]);
        RunKeepsOthers(turn, ApplyAll(w, t.effects), After(st, slots[0], t), account, slots[1..], other);
      }
    }
  }

  lemma OwnUploadsArePlaced(w: World, v: View, effects: seq<Effect>)
    requires AllOwn(v, effects) && (v.remote.Some? ==> v.remote.value.name.slot == v.slot)
    ensures AllPlaced(effects)
  {
    forall i | 0 <= i < |effects| && effects[i].Upload? ensures effects[i].remote.name.slot == effects[i].slot {
      assert Own(v, effects[i]);
    }
  }

  ghost predicate AllPlaced(effects: seq<Effect>)
  {
    forall i :: 0 <= i < |effects| && effects[i].Upload? ==> effects[i].remote.name.slot == effects[i].slot
  }

  lemma {:induction false} RunIsPlaced(turn: View -> Turn, w: World, st: SyncState, account: nat, slots: seq<nat>)
    requires OwnTurns(turn) && Placed(w) && forall slot <- slots :: slot in w.locals
    ensures AllPlaced(RunFrom(turn, w, st, account, slots).effects)
    decreases |slots|
  {
    if slots != [] {
      var v := ViewOf(w, st, account, slots[0]);
      var t := turn(v);
      assert OwnTurn(v, t);
      LocalsStay(w, t.effects);
      OwnUploadsArePlaced(w, v, t.effects);
      if t.verdict != Failed {
        StaysPlaced(w, t.effects);
        RunIsPlaced(turn, ApplyAll(w, t.effects), After(st, slots[0], t), account, slots[1..]);
      }
    }
  }

  ghost predicate NoSave(effects: seq<Effect>)
  {
    forall i :: 0 <= i < |effects| ==> !effects[i].Save?
  }

  lemma StaysOrderly(w: World, effects: seq<Effect>)
    requires Orderly(w) && NoSave(effects) && AllPlaced(effects)
    ensures Orderly(ApplyAll(w, effects)) && ApplyAll(w, effects).saved == w.saved
  {
    StaysPlaced(w, effects);
    OnlySaveSaves(w, effects);
  }

  /** Effects of an operation that, if it gets that far, ends by saving `final`. */
  ghost predicate Operation(w: World, effects: seq<Effect>, final: Option<SyncState>)
  {
    && NoSave(effects) && AllPlaced(effects)
    && (final.Some? ==>
          && w.saved.account.Some? && final.value.account == w.saved.account
          && Keyed(final.value.files))
  }

  function WithSave(effects: seq<Effect>, final: Option<SyncState>): seq<Effect>
  {
    if final.None? then effects else effects + [Save(final.value)]
  }

  /** Cut off anywhere, an operation leaves an orderly world; the stored state is the old one or `final`. */
  lemma CutOperation(w: World, effects: seq<Effect>, final: Option<SyncState>, cut: nat)
    requires Orderly(w) && Operation(w, effects, final)
    ensures var after := ApplyAll(w, Take(WithSave(effects, final), cut));
      && Orderly(after)
      && (after.saved == w.saved || (final.Some? && after == ApplyAll(w, effects).(saved := final.value)))
  {
    if final.Some? && cut > |effects| {
      assert Take(WithSave(effects, final), cut) == effects + [Save(final.value)];
      StaysOrderly(w, effects);
      ApplyAppend(w, effects, [Save(final.value)]);
      assert [Save(final.value)][1..] == [];
    } else {
      assert Take(WithSave(effects, final), cut) == Take(effects, cut);
      StaysOrderly(w, Take(effects, cut));
    }
  }

  /** What became of a slot's BASE: kept, cleared, or set to what both sides hold afterwards exactly if `ok`. */
  ghost predicate BaseFollows(codec: Codec, w: World, after: World, slot: nat, ok: bool)
  {
    match BaseOf(after.saved.files, slot)
    case None => true
    case Some(b) =>
      || (after.saved.account == w.saved.account && BaseOf(w.saved.files, slot) == Some(b))
      || (after.saved.account.Some? && (Together(codec, after, after.saved.account.value, slot, b) <==> ok))
  }

  /** What a step is about to push from this slot can be read back; the world before the step tells. */
  ghost predicate PushesOk(codec: Codec, w: World, step: Step, slot: nat)
  {
    w.saved.account.Some? && slot in w.locals ==>
      match step
      case Sync(input, slots, _) => slot in slots ==> PushOk(codec, input, Now(w, slot))
      case Force(_, s, useLocal, name, _) => s == slot ==> ForceOk(codec, Now(w, slot), useLocal, name)
      case _ => true
  }

  // Synchronizations.

  lemma RunIsOperation(codec: Codec, input: Input, w: World, account: nat, slots: seq<nat>)
    requires Orderly(w) && Distinct(slots) && (forall slot <- slots :: slot in w.locals) && slots != []
    requires w.saved.account == Some(account)
    ensures var plan := RunFrom(TurnFn(codec, input), w, w.saved, account, slots);
      Operation(w, plan.effects, plan.state)
  {
    var turn := TurnFn(codec, input);
    TurnsAreOwn(codec, input);
    RunSavesNothing(turn, w, w.saved, account, slots);
    RunIsPlaced(turn, w, w.saved, account, slots);
    RunKeepsAccount(turn, w, w.saved, account, slots);
    if RunFrom(turn, w, w.saved, account, slots).state.Some? {
      RunIsTurns(turn, w, w.saved, account, slots, slots[0]);
    }
  }

  /** After a completed run, a slot's BASE is what it was, or both sides hold it exactly if its push was readable. */
  lemma RunBase(codec: Codec, input: Input, w: World, account: nat, slots: seq<nat>, slot: nat)
    requires Lawful(codec) && Orderly(w) && Distinct(slots) && forall slot <- slots :: slot in w.locals
    requires slot in slots && RunFrom(TurnFn(codec, input), w, w.saved, account, slots).state.Some?
    ensures var plan := RunFrom(TurnFn(codec, input), w, w.saved, account, slots);
      || BaseOf(plan.state.value.files, slot) == BaseOf(w.saved.files, slot)
      || (&& BaseOf(plan.state.value.files, slot).Some?
          && (Together(codec, ApplyAll(w, plan.effects), account, slot, BaseOf(plan.state.value.files, slot).value)
              <==> PushOk(codec, input, ViewOf(w, w.saved, account, slot))))
  {
    TurnsAreOwn(codec, input);
    RunIsTurns(TurnFn(codec, input), w, w.saved, account, slots, slot);
    TurnCommits(codec, input, ViewOf(w, w.saved, account, slot));
    FailedMovesNothing(codec, input, ViewOf(w, w.saved, account, slot));
  }

  lemma FailedMovesNothing(codec: Codec, input: Input, v: View)
    ensures TurnOf(codec, input, v).verdict == Failed ==> TurnOf(codec, input, v).entry.None?
  {
  }

  lemma SyncIsOperation(codec: Codec, input: Input, w: World, slots: seq<nat>)
    returns (effects: seq<Effect>, final: Option<SyncState>)
    requires Orderly(w) && Distinct(slots)
    ensures SyncEffects(codec, input, w, slots) == WithSave(effects, final) && Operation(w, effects, final)
    ensures final.Some? ==>
      (w.saved.account.Some? && effects == PlanOf(codec, input, w, slots).effects
        && final == PlanOf(codec, input, w, slots).state)
  {
    if SyncEffects(codec, input, w, slots) == [] {
      effects, final := [], None;
    } else {
      var selected := Selected(input, w, w.saved.account.value, slots);
      SelectedIsDistinct(input, w, w.saved.account.value, slots);
      RunIsOperation(codec, input, w, w.saved.account.value, selected);
      effects, final := PlanOf(codec, input, w, slots).effects, PlanOf(codec, input, w, slots).state;
    }
  }

  lemma SyncMovesBase(codec: Codec, input: Input, w: World, slots: seq<nat>, cut: nat, slot: nat)
    requires Lawful(codec) && Orderly(w) && Distinct(slots)
    ensures BaseFollows(codec, w, Next(codec, w, Sync(input, slots, cut)), slot,
                        PushesOk(codec, w, Sync(input, slots, cut), slot))
  {
    var effects, final := SyncIsOperation(codec, input, w, slots);
    CutOperation(w, effects, final, cut);
    if Next(codec, w, Sync(input, slots, cut)).saved != w.saved {
      var account := w.saved.account.value;
      var selected := Selected(input, w, account, slots);
      SelectedIsDistinct(input, w, account, slots);
      if slot in selected {
        RunBase(codec, input, w, account, selected, slot);
      } else {
        TurnsAreOwn(codec, input);
        RunKeepsOthers(TurnFn(codec, input), w, w.saved, account, selected, slot);
      }
    }
  }

  // Operations of one slot.

  predicate Tidy(slot: nat, e: Effect)
  {
    match e
    case KeepExtra(s, _) => s == slot
    case Store(b) => b.slot == slot
    case Upload(_, s, r) => s == slot && r.name.slot == slot
    case ReplaceLocal(s, _) => s == slot
    case Save(_) => false
  }

  ghost predicate TidyTurn(slot: nat, t: Turn)
  {
    && (forall i :: 0 <= i < |t.effects| ==> Tidy(slot, t.effects[i]))
    && (t.entry.Some? ==> t.entry.value.slot == slot == t.entry.value.name.slot)
  }

  lemma PushIsTidy(codec: Codec, input: Input, v: View, r: Remote, c: seq<byte>)
    requires r.name.slot == v.slot
    ensures TidyTurn(v.slot, PushTurn(codec, input, v, r, c))
  {
  }

  lemma ForceIsTidy(codec: Codec, input: Input, v: View, useLocal: bool, name: Name)
    requires name.slot == v.slot && (v.remote.Some? ==> v.remote.value.name.slot == v.slot)
    ensures TidyTurn(v.slot, ForceTurn(codec, input, v, useLocal, name))
  {
    if codec.content(v.local).Some? && v.remote.Some? {
      var r, c := v.remote.value, codec.content(v.local).value;
      PushIsTidy(codec, input, ForcedView(codec, input, v, r), r, c);
    }
  }

  lemma TidyIsPlaced(slot: nat, t: Turn)
    requires TidyTurn(slot, t)
    ensures NoSave(t.effects) && AllPlaced(t.effects)
  {
    forall i | 0 <= i < |t.effects|
      ensures !t.effects[i].Save? && (t.effects[i].Upload? ==> t.effects[i].remote.name.slot == t.effects[i].slot)
    {
      assert Tidy(slot, t.effects[i]);
    }
  }

  lemma TurnIsOperation(w: World, slot: nat, t: Turn, st: SyncState)
    requires Orderly(w) && slot in w.locals && w.saved.account.Some? && TidyTurn(slot, t)
    requires st == After(w.saved, slot, t).(pulls := st.pulls)
    ensures Operation(w, t.effects, Some(st))
  {
    TidyIsPlaced(slot, t);
    if t.entry.Some? {
      UpsertEntries(w.saved.files, t.entry.value, slot);
    }
  }

  lemma TurnMovesBase(codec: Codec, w: World, slot: nat, t: Turn, st: SyncState, other: nat, ok: bool)
    requires Orderly(w) && slot in w.locals && w.saved.account.Some? && TidyTurn(slot, t)
    requires (OneCommit(codec, Now(w, slot), t) <==> ok) && LoudLast(codec, t)
    requires st == After(w.saved, slot, t).(pulls := st.pulls)
    ensures BaseFollows(codec, w, ApplyAll(w, t.effects).(saved := st), other, ok)
  {
    if t.entry.Some? {
      UpsertEntries(w.saved.files, t.entry.value, other);
      ViewAfter(w, w.saved, w.saved.account.value, slot, t.effects);
    }
  }

  lemma ForceIsOperation(codec: Codec, input: Input, w: World, slot: nat, useLocal: bool, name: Name)
    returns (effects: seq<Effect>, final: Option<SyncState>)
    requires Orderly(w) && name.slot == slot
    ensures ForceEffects(codec, input, w, slot, useLocal, name) == WithSave(effects, final)
      && Operation(w, effects, final)
    ensures final.Some? ==>
      (&& w.saved.account.Some? && slot in w.locals
        && var t := ForceTurn(codec, input, Now(w, slot), useLocal, name);
         && t.verdict != Failed && effects == t.effects
         && final == Some(Queued(After(w.saved, slot, t), Now(w, slot), useLocal)))
    ensures effects == if w.saved.account.None? || slot !in w.locals then []
                       else ForceTurn(codec, input, Now(w, slot), useLocal, name).effects
  {
    effects, final := [], None;
    if w.saved.account.Some? && slot in w.locals {
      var t := ForceTurn(codec, input, Now(w, slot), useLocal, name);
      var st := Queued(After(w.saved, slot, t), Now(w, slot), useLocal);
      ForceIsTidy(codec, input, Now(w, slot), useLocal, name);
      TurnIsOperation(w, slot, t, st);
      effects, final := t.effects, if t.verdict == Failed then None else Some(st);
    }
  }

  lemma ForcedBase(codec: Codec, w: World, step: Step, st: SyncState, slot: nat)
    requires Lawful(codec) && Orderly(w) && Allowed(step) && step.Force? && step.slot in w.locals
    requires w.saved.account.Some?
    requires var t := ForceTurn(codec, step.input, Now(w, step.slot), step.useLocal, step.name);
      t.verdict != Failed && st == Queued(After(w.saved, step.slot, t), Now(w, step.slot), step.useLocal)
    ensures var t := ForceTurn(codec, step.input, Now(w, step.slot), step.useLocal, step.name);
      BaseFollows(codec, w, ApplyAll(w, t.effects).(saved := st), slot,
                  ForceOk(codec, Now(w, step.slot), step.useLocal, step.name))
  {
    var v := Now(w, step.slot);
    ForceIsTidy(codec, step.input, v, step.useLocal, step.name);
    ForceCommits(codec, step.input, v, step.useLocal, step.name);
    TurnMovesBase(codec, w, step.slot, ForceTurn(codec, step.input, v, step.useLocal, step.name), st, slot,
                  ForceOk(codec, v, step.useLocal, step.name));
  }

  lemma ForceMovesBase(codec: Codec, w: World, step: Step, slot: nat)
    requires Lawful(codec) && Orderly(w) && Allowed(step) && step.Force?
    ensures BaseFollows(codec, w, Next(codec, w, step), slot, PushesOk(codec, w, step, slot))
  {
    var effects, final := ForceIsOperation(codec, step.input, w, step.slot, step.useLocal, step.name);
    CutOperation(w, effects, final, step.cut);
    if final.Some? {
      ForcedBase(codec, w, step, final.value, slot);
      if slot != step.slot {
        ForcedElsewhere(codec, w, step, slot);
      }
    }
  }

  /** A choice for another slot leaves BASE alone. */
  lemma ForcedElsewhere(codec: Codec, w: World, step: Step, slot: nat)
    requires Orderly(w) && Allowed(step) && step.Force? && step.slot in w.locals && w.saved.account.Some?
    requires slot != step.slot
    ensures var t := ForceTurn(codec, step.input, Now(w, step.slot), step.useLocal, step.name);
      BaseOf(After(w.saved, step.slot, t).files, slot) == BaseOf(w.saved.files, slot)
  {
    var t := ForceTurn(codec, step.input, Now(w, step.slot), step.useLocal, step.name);
    ForceIsTidy(codec, step.input, Now(w, step.slot), step.useLocal, step.name);
    if t.entry.Some? {
      UpsertEntries(w.saved.files, t.entry.value, slot);
    }
  }

  lemma RestoreIsOperation(codec: Codec, input: Input, w: World, slot: nat, bytes: seq<byte>)
    ensures Operation(w, RestoreEffects(codec, input, w, slot, bytes), None)
  {
  }

  // Histories.

  lemma EditKeepsOrder(codec: Codec, w: World, step: Step)
    requires Orderly(w) && Allowed(step) && (step.EditLocal? || step.EditRemote? || step.SignIn?)
    ensures Orderly(Next(codec, w, step))
  {
  }

  lemma EditKeepsBase(codec: Codec, w: World, step: Step, slot: nat, ok: bool)
    requires Orderly(w) && (step.EditLocal? || step.EditRemote? || step.SignIn?)
    ensures BaseFollows(codec, w, Next(codec, w, step), slot, ok)
  {
  }

  /** Signing in again keeps BASE and queued pulls; another account starts without; nothing else changes. */
  lemma SignInExactly(codec: Codec, w: World, account: nat)
    requires Orderly(w)
    ensures var after := Next(codec, w, SignIn(account));
      && after == w.(saved := after.saved) && after.saved.account == Some(account)
      && (w.saved.account.Some? && w.saved.account != Some(account) ==>
            after.saved.files == map[] && after.saved.pulls == map[])
      && (w.saved.account.None? || w.saved.account == Some(account) ==>
            after.saved.files == w.saved.files && after.saved.pulls == w.saved.pulls)
  {
  }

  /** Every step, cut off anywhere, keeps the world orderly. */
  lemma StepKeepsOrder(codec: Codec, w: World, step: Step)
    requires Orderly(w) && Allowed(step)
    ensures Orderly(Next(codec, w, step))
  {
    match step
    case Sync(input, slots, cut) =>
      var effects, final := SyncIsOperation(codec, input, w, slots);
      CutOperation(w, effects, final, cut);
    case Force(input, slot, useLocal, name, cut) =>
      var effects, final := ForceIsOperation(codec, input, w, slot, useLocal, name);
      CutOperation(w, effects, final, cut);
    case Restore(input, slot, backup, cut) =>
      if backup < |w.backups| {
        RestoreIsOperation(codec, input, w, slot, w.backups[backup].bytes);
        CutOperation(w, RestoreEffects(codec, input, w, slot, w.backups[backup].bytes), None, cut);
      }
    case _ => EditKeepsOrder(codec, w, step);
  }

  /**
   * A step keeps a slot's BASE, clears it, or sets it to what both sides then hold, if and only if what it
   * was about to push from this slot, if anything, can be read back.
   */
  lemma StepMovesBase(codec: Codec, w: World, step: Step, slot: nat)
    requires Lawful(codec) && Orderly(w) && Allowed(step)
    ensures BaseFollows(codec, w, Next(codec, w, step), slot, PushesOk(codec, w, step, slot))
  {
    match step
    case Sync(input, slots, cut) => SyncMovesBase(codec, input, w, slots, cut, slot);
    case Force(_, _, _, _, _) => ForceMovesBase(codec, w, step, slot);
    case Restore(input, s, backup, cut) =>
      if backup < |w.backups| {
        RestoreIsOperation(codec, input, w, s, w.backups[backup].bytes);
        CutOperation(w, RestoreEffects(codec, input, w, s, w.backups[backup].bytes), None, cut);
      }
    case _ => EditKeepsBase(codec, w, step, slot, PushesOk(codec, w, step, slot));
  }

  lemma {:induction false} HistoryIsOrderly(codec: Codec, worlds: seq<World>, steps: seq<Step>, i: nat)
    requires History(codec, worlds, steps) && i < |worlds|
    ensures Orderly(worlds[i])
  {
    if i > 0 {
      HistoryIsOrderly(codec, worlds, steps, i - 1);
      HistoryStep(codec, worlds, steps, i);
      StepKeepsOrder(codec, worlds[i - 1], steps[i - 1]);
    }
  }

  ghost predicate SameBase(a: World, b: World, slot: nat)
  {
    a.saved.account == b.saved.account && BaseOf(a.saved.files, slot) == BaseOf(b.saved.files, slot)
  }

  lemma StillSameBase(worlds: seq<World>, j: nat, i: nat, slot: nat)
    requires 0 < i < |worlds| && j < i && SameBase(worlds[i - 1], worlds[i], slot)
    requires forall k | j <= k <= i - 1 :: SameBase(worlds[k], worlds[i - 1], slot)
    ensures forall k | j <= k <= i :: SameBase(worlds[k], worlds[i], slot)
  {
  }

  lemma StepOrigin(codec: Codec, worlds: seq<World>, steps: seq<Step>, i: nat, slot: nat)
    requires Lawful(codec) && History(codec, worlds, steps) && i < |worlds|
    requires BaseOf(worlds[i].saved.files, slot).Some?
    ensures i > 0 && worlds[i].saved.account.Some?
    ensures SameBase(worlds[i - 1], worlds[i], slot)
      || (Together(codec, worlds[i], worlds[i].saved.account.value, slot, BaseOf(worlds[i].saved.files, slot).value)
          <==> PushesOk(codec, worlds[i - 1], steps[i - 1], slot))
  {
    HistoryIsOrderly(codec, worlds, steps, i);
    assert HasEntry(worlds[i].saved.files, slot);
    HistoryIsOrderly(codec, worlds, steps, i - 1);
    HistoryStep(codec, worlds, steps, i);
    StepMovesBase(codec, worlds[i - 1], steps[i - 1], slot);
  }

  /**
   * Where BASE comes from, in any history: the last step that changed it left both sides, the device's and
   * the signed-in account's, holding exactly it, if and only if what that step was about to push from this
   * slot, if anything, could be read back.
   */
  lemma {:induction false} BaseOrigin(codec: Codec, worlds: seq<World>, steps: seq<Step>, i: nat, slot: nat)
    returns (j: nat)
    requires Lawful(codec) && History(codec, worlds, steps) && i < |worlds|
    requires BaseOf(worlds[i].saved.files, slot).Some?
    ensures 0 < j <= i && worlds[i].saved.account.Some?
    ensures !SameBase(worlds[j - 1], worlds[j], slot) && forall k | j <= k <= i :: SameBase(worlds[k], worlds[i], slot)
    ensures Together(codec, worlds[j], worlds[i].saved.account.value, slot, BaseOf(worlds[i].saved.files, slot).value)
      <==> PushesOk(codec, worlds[j - 1], steps[j - 1], slot)
  {
    StepOrigin(codec, worlds, steps, i, slot);
    if SameBase(worlds[i - 1], worlds[i], slot) {
      j := BaseOrigin(codec, worlds, steps, i - 1, slot);
      StillSameBase(worlds, j, i, slot);
    } else {
      j := i;
    }
  }

  /** So a BASE was once shared when the earlier steps could read back what they pushed from its slot. */
  lemma BaseWasShared(codec: Codec, worlds: seq<World>, steps: seq<Step>, i: nat, slot: nat) returns (j: nat)
    requires Lawful(codec) && History(codec, worlds, steps) && i < |worlds|
    requires forall k :: 0 <= k < i ==> PushesOk(codec, worlds[k], steps[k], slot)
    requires BaseOf(worlds[i].saved.files, slot).Some?
    ensures j <= i && worlds[i].saved.account.Some?
    ensures Together(codec, worlds[j], worlds[i].saved.account.value, slot, BaseOf(worlds[i].saved.files, slot).value)
  {
    j := BaseOrigin(codec, worlds, steps, i, slot);
  }
}
