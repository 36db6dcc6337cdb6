/** What a synchronization may overwrite, and when. */
module SyncSafety {
  import opened Bytes
  import opened SyncDecision
  import opened SyncCodec
  import opened SyncModel
  import opened SyncRuns

  predicate EndsWith(done: seq<Effect>, e: Effect) { done != [] && done[|done| - 1] == e }

  /** The device's save may go when it equals BASE, or by a queued pull of exactly this version; a copy is kept. */
  ghost predicate MayReplaceLocal(codec: Codec, input: Input, v: View, done: seq<Effect>, bytes: seq<byte>)
  {
    && v.slot in input.allowed
    && v.remote.Some? && codec.normalized(v.remote.value.bytes) == Some(bytes)
    && (PullMatches(v.pull, v.remote.value) || (v.base.Some? && codec.content(v.local) == v.base))
    && EndsWith(done, StoreOf(v, LocalBeforePull, v.local))
  }

  /** Steam's file may go by request only, when it means BASE or what the device holds; a copy is kept. */
  ghost predicate MayUpload(codec: Codec, input: Input, v: View, done: seq<Effect>, r: Remote)
  {
    && input.manual
    && v.remote.Some? && r.name == v.remote.value.name
    && codec.normalized(v.remote.value.bytes).Some?
    && (codec.normalized(v.remote.value.bytes) == v.base
      || codec.normalized(v.remote.value.bytes) == codec.content(v.local))
    && EndsWith(done, StoreOf(v, SteamBeforePush, v.remote.value.bytes))
  }

  ghost predicate Justified(codec: Codec, input: Input, v: View, done: seq<Effect>, e: Effect)
  {
    match e
    case ReplaceLocal(_, bytes) => MayReplaceLocal(codec, input, v, done, bytes)
    case Upload(_, _, r) => MayUpload(codec, input, v, done, r)
    case Save(_) => false
    case _ => true
  }

  ghost predicate AllJustified(codec: Codec, input: Input, v: View, effects: seq<Effect>)
  {
    forall k :: 0 <= k < |effects| ==> Justified(codec, input, v, effects[..k], effects[k])
  }

  lemma PushJustified(codec: Codec, input: Input, v: View, r: Remote, c: seq<byte>)
    requires input.manual && v.remote == Some(r) && codec.normalized(r.bytes).Some?
    requires codec.normalized(r.bytes) == v.base || codec.normalized(r.bytes) == codec.content(v.local)
    ensures AllJustified(codec, input, v, PushTurn(codec, input, v, r, c).effects)
  {
  }

  lemma CompareJustified(codec: Codec, input: Input, v: View, r: Remote, c: seq<byte>, n: seq<byte>)
    requires v.remote == Some(r) && codec.content(v.local) == Some(c) && codec.normalized(r.bytes) == Some(n)
    ensures AllJustified(codec, input, v, CompareTurn(codec, input, v, r, c, n).effects)
  {
    AgreementIsRecognized(v.base, c, n);
    TransfersOverwriteBaseOnly(v.base, c, n);
    var d := Decide(v.base, c, n);
    if input.manual && d in {Unchanged, Converged, UploadLocal} {
      PushJustified(codec, input, v, r, c);
    }
  }

  lemma JustifiedAfterLearning(codec: Codec, input: Input, v: View, learned: View, learn: seq<Effect>,
                               effects: seq<Effect>)
    requires learned == v.(extra := learned.extra)
    requires |learn| <= 1 && (learn != [] ==> learn[0].KeepExtra?)
    requires AllJustified(codec, input, learned, effects)
    ensures AllJustified(codec, input, v, learn + effects)
  {
    var all := learn + effects;
    forall k | 0 <= k < |all| ensures Justified(codec, input, v, all[..k], all[k]) {
      if k >= |learn| {
        assert Justified(codec, input, learned, effects[..k - |learn|], effects[k - |learn|]);
        assert all[..k] == learn + effects[..k - |learn|];
      }
    }
  }

  lemma TurnJustified(codec: Codec, input: Input, v: View)
    ensures AllJustified(codec, input, v, TurnOf(codec, input, v).effects)
  {
    if v.remote.Some? && codec.content(v.local).Some? {
      var r := v.remote.value;
      if codec.content(r.bytes).Some? && codec.normalized(r.bytes).Some? {
        var c, n := codec.content(v.local).value, codec.normalized(r.bytes).value;
        var learn, learned := LearnEffects(codec, input, v, r.bytes), LearnedView(codec, input, v, r.bytes);
        CompareJustified(codec, input, learned, r, c, n);
        JustifiedAfterLearning(codec, input, v, learned, learn, ResolveTurn(codec, input, learned, r, c, n).effects);
      }
    }
  }

  /** True divergence, with or without a BASE, changes neither side and keeps a copy of both. */
  lemma DivergenceTouchesNeitherSide(codec: Codec, input: Input, v: View)
    requires v.remote.Some? && codec.content(v.local).Some? && codec.content(v.remote.value.bytes).Some?
    requires codec.normalized(v.remote.value.bytes).Some? && !PullMatches(v.pull, v.remote.value)
    requires Decide(v.base, codec.content(v.local).value, codec.normalized(v.remote.value.bytes).value)
      in {Conflict, FirstSyncChoiceRequired}
    ensures var t := TurnOf(codec, input, v);
      && SeenAll(v, t.effects) == v.(extra := SeenAll(v, t.effects).extra)
      && t.entry.None? && t.verdict == Choice(if v.base.Some? then TrueConflict else FirstSync)
      && t.effects == LearnEffects(codec, input, v, v.remote.value.bytes) + [
           StoreOf(v, if v.base.Some? then LocalConflict else LocalFirstSync, v.local),
           StoreOf(v, if v.base.Some? then SteamConflict else SteamFirstSync, v.remote.value.bytes)]
  {
    var learn := LearnEffects(codec, input, v, v.remote.value.bytes);
    var local := StoreOf(v, if v.base.Some? then LocalConflict else LocalFirstSync, v.local);
    var steam := StoreOf(v, if v.base.Some? then SteamConflict else SteamFirstSync, v.remote.value.bytes);
    assert TurnOf(codec, input, v).effects == learn + [local, steam];
    CopiesUnseen(v, learn, local.backup, steam.backup);
  }

  lemma CopiesUnseen(v: View, learn: seq<Effect>, a: Backup, b: Backup)
    requires |learn| <= 1 && (learn != [] ==> learn[0].KeepExtra?)
    ensures SeenAll(v, learn + [Store(a), Store(b)]) == v.(extra := SeenAll(v, learn + [Store(a), Store(b)]).extra)
  {
    assert learn + [Store(a), Store(b)] == (learn + [Store(a)]) + [Store(b)];
    SeenLast(v, learn + [Store(a)], Store(b));
    SeenLast(v, learn, Store(a));
    if learn != [] {
      assert learn == [] + [learn[0]];
      SeenLast(v, [], learn[0]);
    }
  }

  // Whole runs.

  function SlotOf(e: Effect): nat
    requires !e.Save?
  {
    match e
    case KeepExtra(slot, _) => slot
    case Store(backup) => backup.slot
    case Upload(_, slot, _) => slot
    case ReplaceLocal(slot, _) => slot
  }

  ghost predicate Within(effects: seq<Effect>, slots: seq<nat>)
  {
    forall i :: 0 <= i < |effects| ==> !effects[i].Save? && SlotOf(effects[i]) in slots
  }

  lemma OwnIsWithin(v: View, effects: seq<Effect>, slots: seq<nat>)
    requires AllOwn(v, effects) && v.slot in slots
    ensures Within(effects, slots)
  {
    forall i | 0 <= i < |effects| ensures !effects[i].Save? && SlotOf(effects[i]) in slots {
      assert Own(v, effects[i]);
    }
  }

  lemma {:induction false} RunSavesNothing(turn: View -> Turn, w: World, st: SyncState, account: nat, slots: seq<nat>)
    requires OwnTurns(turn) && forall slot <- slots :: slot in w.locals
    ensures Within(RunFrom(turn, w, st, account, slots).effects, slots)
    decreases |slots|
  {
    if slots != [] {
      var v := ViewOf(w, st, account, slots[0]);
      assert OwnTurn(v, turn(v));
      OwnIsWithin(v, turn(v).effects, slots);
      LocalsStay(w, turn(v).effects);
      if turn(v).verdict != Failed {
        var w', st' := ApplyAll(w, turn(v).effects), After(st, slots[0], turn(v));
        RunSavesNothing(turn, w', st', account, slots[1..]);
        assert Within(RunFrom(turn, w', st', account, slots[1..]).effects, slots);
      }
    }
  }

  /** An effect in a run is the next one of its slot's turn. */
  lemma NextOfTurn(turn: View -> Turn, w: World, st: SyncState, account: nat, slots: seq<nat>, i: nat)
    requires forall slot <- slots :: slot in w.locals
    requires OwnTurns(turn) && Distinct(slots) && Placed(w) && Keyed(st.files)
    requires i < |RunFrom(turn, w, st, account, slots).effects|
    ensures var effects := RunFrom(turn, w, st, account, slots).effects;
      && !effects[i].Save? && SlotOf(effects[i]) in slots
      && Only(effects[..i], SlotOf(effects[i])) + [effects[i]] <=
        turn(ViewOf(w, st, account, SlotOf(effects[i]))).effects
  {
    var effects := RunFrom(turn, w, st, account, slots).effects;
    RunSavesNothing(turn, w, st, account, slots);
    var slot := SlotOf(effects[i]);
    CutRunIsCutTurns(turn, w, st, account, slots, i + 1, slot);
    assert Take(effects, i + 1) == effects[..i + 1] && effects[..i + 1][..i] == effects[..i];
    assert Concerns(effects[i], slot);
  }

  /** A slot as the stored state and the signed-in account have it. */
  ghost function Now(w: World, slot: nat): View
    requires slot in w.locals && w.saved.account.Some?
  {
    ViewOf(w, w.saved, w.saved.account.value, slot)
  }

  /** The run that a synchronization makes, once it has got as far as its slots. */
  ghost function PlanOf(codec: Codec, input: Input, w: World, slots: seq<nat>): Plan
    requires w.saved.account.Some?
  {
    var account := w.saved.account.value;
    RunFrom(TurnFn(codec, input), w, w.saved, account, Selected(input, w, account, slots))
  }

  /** What a run of the synchronization starts from. */
  ghost predicate Orderly(w: World)
  {
    && Placed(w) && Keyed(w.saved.files)
    && (w.saved.files.Keys != {} ==> w.saved.account.Some?)
  }

  /**
   * Every effect of a whole synchronization is justified by the state it started from, and saving the
   * new state is its last effect; so this holds wherever a crash or a failure cuts it off.
   */
  lemma SyncIsJustified(codec: Codec, input: Input, w: World, slots: seq<nat>, i: nat)
    requires Orderly(w) && Distinct(slots)
    requires i < |SyncEffects(codec, input, w, slots)|
    ensures var effects := SyncEffects(codec, input, w, slots);
      if effects[i].Save? then i == |effects| - 1
      else
        && w.saved.account.Some? && SlotOf(effects[i]) in slots && SlotOf(effects[i]) in w.locals
        && Justified(codec, input, ViewOf(w, w.saved, w.saved.account.value, SlotOf(effects[i])),
                     Only(effects[..i], SlotOf(effects[i])), effects[i])
  {
    var effects := SyncEffects(codec, input, w, slots);
    var account := w.saved.account.value;
    var selected := Selected(input, w, account, slots);
    var plan := RunFrom(TurnFn(codec, input), w, w.saved, account, selected);
    SelectedIsDistinct(input, w, account, slots);
    if i < |plan.effects| {
      RunIsJustified(codec, input, w, account, selected, i);
      assert effects[..i] == plan.effects[..i];
    }
  }

  lemma RunIsJustified(codec: Codec, input: Input, w: World, account: nat, slots: seq<nat>, i: nat)
    requires Orderly(w) && Distinct(slots) && forall slot <- slots :: slot in w.locals
    requires i < |RunFrom(TurnFn(codec, input), w, w.saved, account, slots).effects|
    ensures var effects := RunFrom(TurnFn(codec, input), w, w.saved, account, slots).effects;
      && !effects[i].Save? && SlotOf(effects[i]) in slots
      && Justified(codec, input, ViewOf(w, w.saved, account, SlotOf(effects[i])),
                   Only(effects[..i], SlotOf(effects[i])), effects[i])
  {
    var turn := TurnFn(codec, input);
    var effects := RunFrom(turn, w, w.saved, account, slots).effects;
    TurnsAreOwn(codec, input);
    NextOfTurn(turn, w, w.saved, account, slots, i);
    var v, done := ViewOf(w, w.saved, account, SlotOf(effects[i])), Only(effects[..i], SlotOf(effects[i]));
    TurnJustified(codec, input, v);
    assert turn(v).effects[..|done|] == done;
    assert turn(v).effects[|done|] == effects[i];
  }

  lemma TurnsAreOwn(codec: Codec, input: Input)
    ensures OwnTurns(TurnFn(codec, input))
  {
    forall v ensures OwnTurn(v, TurnFn(codec, input)(v)) {
      TurnIsOwn(codec, input, v);
    }
  }

  lemma {:induction false} SelectedIsDistinct(input: Input, w: World, account: nat, slots: seq<nat>)
    requires Distinct(slots)
    ensures Distinct(Selected(input, w, account, slots))
  {
    if slots != [] {
      SelectedIsDistinct(input, w, account, slots[1..]);
    }
  }
}
