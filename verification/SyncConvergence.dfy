/** Synchronization settles: fixpoints, convergence in two runs, and recovery from a run cut off anywhere. */
module SyncConvergence {
  import opened Bytes
  import opened SyncDecision
  import opened SyncCodec
  import opened SyncModel
  import opened SyncRuns
  import opened SyncSafety
  import opened SyncProvenance

  // One slot.

  /** Both sides hold BASE and nothing is queued. */
  ghost predicate InSync(codec: Codec, v: View)
  {
    v.base.Some? && Agree(codec, v, v.base.value) && v.pull.None?
  }

  /**
   * A turn that moved BASE, by a push, a pull or by finding both sides equal, leaves the slot in sync if
   * and only if what it was about to push, if anything, can be read back.
   */
  lemma MovedBaseIsInSync(codec: Codec, input: Input, v: View)
    requires Lawful(codec) && TurnOf(codec, input, v).entry.Some?
    ensures InSync(codec, NextView(TurnFn(codec, input), v)) <==> PushOk(codec, input, v)
  {
    var t := TurnOf(codec, input, v);
    TurnCommits(codec, input, v);
    FailedMovesNothing(codec, input, v);
    PullUnseen(v, t.effects);
    MovedBaseDropsPull(codec, input, v);
  }

  lemma MovedBaseDropsPull(codec: Codec, input: Input, v: View)
    ensures TurnOf(codec, input, v).entry.Some? ==> TurnOf(codec, input, v).dropPull || v.pull.None?
  {
  }

  lemma {:induction false} PullUnseen(v: View, effects: seq<Effect>)
    ensures SeenAll(v, effects).pull == v.pull && SeenAll(v, effects).base == v.base
      && SeenAll(v, effects).slot == v.slot
    decreases |effects|
  {
    if effects != [] {
      PullUnseen(Seen(v, effects[0]), effects[1..]);
    }
  }

  /** A turn without a new BASE touches neither side. */
  lemma KeptBaseIsQuiet(codec: Codec, input: Input, v: View)
    requires Lawful(codec) && TurnOf(codec, input, v).entry.None?
    ensures var next := NextView(TurnFn(codec, input), v);
      && AllQuiet(TurnOf(codec, input, v).effects)
      && next.local == v.local && next.remote == v.remote && next.base == v.base
  {
    TurnCommits(codec, input, v);
    QuietUnseen(v, TurnOf(codec, input, v).effects);
  }

  /**
   * A slot in sync: the comparison says Unchanged, and, unless a manual run has to replace a compressed
   * file on Steam, neither side is touched. It stays in sync, after such a replacement if and only if the
   * content can be read back.
   */
  lemma InSyncIsFixpoint(codec: Codec, input: Input, v: View)
    requires Lawful(codec) && InSync(codec, v)
    ensures Decide(v.base, codec.content(v.local).value, codec.normalized(v.remote.value.bytes).value) == Unchanged
    ensures PushDue(codec, input, v) <==> input.manual && codec.needsRepair(v.remote.value.bytes)
    ensures !PushDue(codec, input, v) ==>
      (NextView(TurnFn(codec, input), v) == v.(extra := NextView(TurnFn(codec, input), v).extra)
       && TurnOf(codec, input, v).effects == LearnEffects(codec, input, v, v.remote.value.bytes))
    ensures TurnOf(codec, input, v).verdict != Failed ==>
      (InSync(codec, NextView(TurnFn(codec, input), v)) <==> PushOk(codec, input, v))
  {
    var t := TurnOf(codec, input, v);
    InSyncTurn(codec, input, v);
    if t.entry.Some? {
      MovedBaseIsInSync(codec, input, v);
    }
    LearnedIsSeen(codec, input, v, v.remote.value.bytes);
    QuietUnseen(v, LearnEffects(codec, input, v, v.remote.value.bytes));
  }

  lemma InSyncTurn(codec: Codec, input: Input, v: View)
    requires Lawful(codec) && InSync(codec, v)
    ensures var t, learn := TurnOf(codec, input, v), LearnEffects(codec, input, v, v.remote.value.bytes);
      && (!PushDue(codec, input, v) ==> t.effects == learn && t.entry.None? && !t.dropPull && t.verdict != Failed)
      && (PushDue(codec, input, v) && t.verdict != Failed ==> t.entry.Some?)
  {
    var learn := LearnEffects(codec, input, v, v.remote.value.bytes);
    assert learn + [] == learn;
  }

  /** Sides that agree, whatever BASE says, are in sync after one more turn, with the same exception. */
  lemma AgreementSettles(codec: Codec, input: Input, v: View, c: seq<byte>)
    requires Lawful(codec) && Agree(codec, v, c) && TurnOf(codec, input, v).verdict != Failed
    requires !PullMatches(v.pull, v.remote.value)
    ensures InSync(codec, NextView(TurnFn(codec, input), v)) <==> PushOk(codec, input, v)
  {
    AgreementIsRecognized(v.base, c, c);
    if Decide(v.base, c, c) == Converged {
      ConvergedMovesBase(codec, input, v, c);
      MovedBaseIsInSync(codec, input, v);
    } else {
      UnchangedSettles(codec, input, v, c);
    }
  }

  /** A queued pull of what the device holds already is applied when it may be, and waits otherwise. */
  lemma MatchedSettles(codec: Codec, input: Input, v: View, c: seq<byte>)
    requires Lawful(codec) && Agree(codec, v, c) && TurnOf(codec, input, v).verdict != Failed
    requires PullMatches(v.pull, v.remote.value)
    ensures PushOk(codec, input, v)
    ensures InSync(codec, NextView(TurnFn(codec, input), v)) <==> v.slot in input.allowed
  {
    if v.slot in input.allowed {
      MatchedMovesBase(codec, input, v, c);
      MovedBaseIsInSync(codec, input, v);
    } else {
      PullUnseen(v, TurnOf(codec, input, v).effects);
    }
  }

  lemma MatchedMovesBase(codec: Codec, input: Input, v: View, c: seq<byte>)
    requires Lawful(codec) && Agree(codec, v, c) && PullMatches(v.pull, v.remote.value) && v.slot in input.allowed
    ensures TurnOf(codec, input, v).entry.Some?
  {
  }

  /** A queued pull for another version is dropped. */
  lemma UnchangedSettles(codec: Codec, input: Input, v: View, c: seq<byte>)
    requires Lawful(codec) && Agree(codec, v, c) && v.base == Some(c) && TurnOf(codec, input, v).verdict != Failed
    requires !PullMatches(v.pull, v.remote.value)
    ensures InSync(codec, NextView(TurnFn(codec, input), v)) <==> PushOk(codec, input, v)
  {
    var t := TurnOf(codec, input, v);
    PullUnseen(v, t.effects);
    MovedBaseDropsPull(codec, input, v);
    UnchangedTurn(codec, input, v, c);
    if t.entry.Some? {
      MovedBaseIsInSync(codec, input, v);
    } else {
      KeptBaseIsQuiet(codec, input, v);
    }
  }

  lemma UnchangedTurn(codec: Codec, input: Input, v: View, c: seq<byte>)
    requires Lawful(codec) && Agree(codec, v, c) && v.base == Some(c) && TurnOf(codec, input, v).verdict != Failed
    requires !PullMatches(v.pull, v.remote.value)
    ensures var t := TurnOf(codec, input, v);
      (t.dropPull || v.pull.None?) && (PushDue(codec, input, v) <==> t.entry.Some?)
  {
  }

  lemma ConvergedMovesBase(codec: Codec, input: Input, v: View, c: seq<byte>)
    requires Lawful(codec) && Agree(codec, v, c) && !PullMatches(v.pull, v.remote.value)
    requires Decide(v.base, c, c) == Converged
    ensures TurnOf(codec, input, v).entry.Some? || TurnOf(codec, input, v).verdict == Failed
  {
  }

  /** At most one side has moved away from BASE. */
  ghost predicate OneSided(codec: Codec, v: View)
  {
    && v.base.Some? && codec.content(v.local).Some? && v.remote.Some? && codec.normalized(v.remote.value.bytes).Some?
    && (codec.content(v.local) == v.base || codec.normalized(v.remote.value.bytes) == v.base)
  }

  /** The first, automatic turn: in sync at once, or unchanged with an upload for the next one. */
  lemma PrelaunchTurn(codec: Codec, input: Input, v: View)
    requires Lawful(codec) && OneSided(codec, v) && !input.manual && v.slot in input.allowed
    ensures var v' := NextView(TurnFn(codec, input), v);
      InSync(codec, v') || (v' == v.(extra := v'.extra, pull := None)
        && codec.normalized(v.remote.value.bytes) == v.base)
  {
    var t := TurnOf(codec, input, v);
    if t.entry.Some? {
      MovedBaseIsInSync(codec, input, v);
    } else {
      PrelaunchWithoutEntry(codec, input, v);
      KeptBaseIsQuiet(codec, input, v);
      QuietUnseen(v, t.effects);
    }
  }

  lemma PrelaunchWithoutEntry(codec: Codec, input: Input, v: View)
    requires Lawful(codec) && OneSided(codec, v) && !input.manual && v.slot in input.allowed
    requires TurnOf(codec, input, v).entry.None?
    ensures var t := TurnOf(codec, input, v);
      (t.dropPull || v.pull.None?) && codec.normalized(v.remote.value.bytes) == v.base
  {
  }

  /** The second, manual turn. */
  lemma ManualTurn(codec: Codec, input: Input, v: View)
    requires Lawful(codec) && input.manual && TurnOf(codec, input, v).verdict != Failed
    requires OneSided(codec, v) && codec.normalized(v.remote.value.bytes) == v.base && v.pull.None?
    ensures InSync(codec, NextView(TurnFn(codec, input), v)) <==> PushOk(codec, input, v)
  {
    if codec.content(v.local) == v.base {
      InSyncIsFixpoint(codec, input, v);
    } else {
      TransfersOverwriteBaseOnly(v.base, codec.content(v.local).value, codec.normalized(v.remote.value.bytes).value);
      ManualPushes(codec, input, v);
      MovedBaseIsInSync(codec, input, v);
    }
  }

  lemma ManualPushes(codec: Codec, input: Input, v: View)
    requires Lawful(codec) && input.manual && TurnOf(codec, input, v).verdict != Failed && v.pull.None?
    requires v.remote.Some? && codec.content(v.local).Some? && codec.normalized(v.remote.value.bytes).Some?
    requires Decide(v.base, codec.content(v.local).value, codec.normalized(v.remote.value.bytes).value) == UploadLocal
    ensures TurnOf(codec, input, v).entry.Some?
  {
  }

  // Whole runs.

  /** The synchronization reached its end and stored the new state. */
  ghost predicate Completes(codec: Codec, input: Input, w: World, slots: seq<nat>)
  {
    var effects := SyncEffects(codec, input, w, slots);
    effects != [] && effects[|effects| - 1].Save?
  }

  ghost function Synced(codec: Codec, input: Input, w: World, slots: seq<nat>): World
  {
    ApplyAll(w, SyncEffects(codec, input, w, slots))
  }

  /** The slots a synchronization takes up. */
  ghost predicate TakesUp(input: Input, w: World, slots: seq<nat>, slot: nat)
    requires w.saved.account.Some?
  {
    slot in slots && slot in w.locals && (input.manual || (w.saved.account.value, slot) in w.remotes)
  }

  lemma CompletedParts(codec: Codec, input: Input, w: World, slots: seq<nat>)
    requires Completes(codec, input, w, slots)
    ensures w.saved.account.Some? && PlanOf(codec, input, w, slots).state.Some?
    ensures var plan := PlanOf(codec, input, w, slots);
      && SyncEffects(codec, input, w, slots) == plan.effects + [Save(plan.state.value)]
      && Synced(codec, input, w, slots) == ApplyAll(w, plan.effects).(saved := plan.state.value)
  {
    var account := w.saved.account.value;
    var plan := PlanOf(codec, input, w, slots);
    TurnsAreOwn(codec, input);
    RunSavesNothing(TurnFn(codec, input), w, w.saved, account, Selected(input, w, account, slots));
    ApplyAppend(w, plan.effects, [Save(plan.state.value)]);
    assert [Save(plan.state.value)][1..] == [];
  }

  /** A completed synchronization is one turn of each slot it takes up. */
  lemma CompletedSync(codec: Codec, input: Input, w: World, slots: seq<nat>, slot: nat)
    requires Orderly(w) && Distinct(slots) && Completes(codec, input, w, slots) && slot in w.locals
    ensures w.saved.account.Some? && Synced(codec, input, w, slots).saved.account == w.saved.account
    ensures slot in Synced(codec, input, w, slots).locals
    ensures Now(Synced(codec, input, w, slots), slot)
      == if TakesUp(input, w, slots, slot) then NextView(TurnFn(codec, input), Now(w, slot)) else Now(w, slot)
  {
    CompletedParts(codec, input, w, slots);
    var account := w.saved.account.value;
    var selected := Selected(input, w, account, slots);
    TurnsAreOwn(codec, input);
    SelectedIsDistinct(input, w, account, slots);
    RunIsTurns(TurnFn(codec, input), w, w.saved, account, selected, slot);
    RunKeepsAccount(TurnFn(codec, input), w, w.saved, account, selected);
  }

  lemma {:induction false} CompletedTurn(turn: View -> Turn, w: World, st: SyncState, account: nat, slots: seq<nat>,
                                         slot: nat)
    requires forall s <- slots :: s in w.locals
    requires OwnTurns(turn) && Distinct(slots) && slot in slots && Placed(w) && Keyed(st.files)
    requires RunFrom(turn, w, st, account, slots).state.Some?
    ensures turn(ViewOf(w, st, account, slot)).verdict != Failed
    decreases |slots|
  {
    if slot != slots[0] {
      var t := turn(ViewOf(w, st, account, slots[0]));
      TurnView(turn, w, st, account, slots[0], slot);
      TurnKeepsOrder(turn, w, st, account, slots[0]);
      LocalsStay(w, t.effects);
      CompletedTurn(turn, ApplyAll(w, t.effects), After(st, slots[0], t), account, slots[1..], slot);
    }
  }

  lemma CompletedSyncDidNotFail(codec: Codec, input: Input, w: World, slots: seq<nat>, slot: nat)
    requires Orderly(w) && Distinct(slots) && Completes(codec, input, w, slots)
    requires w.saved.account.Some? && TakesUp(input, w, slots, slot)
    ensures TurnOf(codec, input, Now(w, slot)).verdict != Failed
  {
    CompletedParts(codec, input, w, slots);
    var account := w.saved.account.value;
    TurnsAreOwn(codec, input);
    SelectedIsDistinct(input, w, account, slots);
    CompletedTurn(TurnFn(codec, input), w, w.saved, account, Selected(input, w, account, slots), slot);
  }

  /**
   * From a BASE that at most one side has left, a completed automatic synchronization that may replace
   * saves, followed by a completed manual one, brings the device, Steam and BASE to the same content, if
   * and only if what the manual one is about to push, if anything, can be read back.
   */
  lemma TwoSyncsConverge(codec: Codec, w: World, launch: Input, slots: seq<nat>, manual: Input, slots': seq<nat>,
                         slot: nat)
    requires Lawful(codec) && Orderly(w) && Distinct(slots) && Distinct(slots')
    requires w.saved.account.Some? && slot in w.locals && OneSided(codec, Now(w, slot))
    requires !launch.manual && slot in launch.allowed && slot in slots && Completes(codec, launch, w, slots)
    requires var w1 := Synced(codec, launch, w, slots);
      manual.manual && slot in slots' && Completes(codec, manual, w1, slots')
    ensures var w1 := Synced(codec, launch, w, slots);
      var w2 := Synced(codec, manual, w1, slots');
      && slot in w1.locals && w1.saved.account.Some? && slot in w2.locals && w2.saved.account.Some?
      && (InSync(codec, Now(w2, slot)) <==> PushOk(codec, manual, Now(w1, slot)))
  {
    var w1 := Synced(codec, launch, w, slots);
    CompletedSync(codec, launch, w, slots, slot);
    SyncedIsOrderly(codec, launch, w, slots);
    CompletedSync(codec, manual, w1, slots', slot);
    CompletedSyncDidNotFail(codec, manual, w1, slots', slot);
    PrelaunchTurn(codec, launch, Now(w, slot));
    if InSync(codec, Now(w1, slot)) {
      InSyncIsFixpoint(codec, manual, Now(w1, slot));
    } else {
      ManualTurn(codec, manual, Now(w1, slot));
    }
  }

  lemma SyncedIsOrderly(codec: Codec, input: Input, w: World, slots: seq<nat>)
    requires Orderly(w) && Distinct(slots)
    ensures Orderly(Synced(codec, input, w, slots))
  {
    var effects, final := SyncIsOperation(codec, input, w, slots);
    CutOperation(w, effects, final, |SyncEffects(codec, input, w, slots)|);
    assert Take(SyncEffects(codec, input, w, slots), |SyncEffects(codec, input, w, slots)|) ==
      SyncEffects(codec, input, w, slots);
  }

  /** A completed synchronization keeps a slot in sync, if and only if what it has to repair can be read back. */
  lemma InSyncStays(codec: Codec, input: Input, w: World, slots: seq<nat>, slot: nat)
    requires Lawful(codec) && Orderly(w) && Distinct(slots) && Completes(codec, input, w, slots)
    requires slot in w.locals && w.saved.account.Some? && InSync(codec, Now(w, slot))
    ensures var after := Synced(codec, input, w, slots);
      && slot in after.locals && after.saved.account.Some?
      && (InSync(codec, Now(after, slot)) <==> (slot in slots ==> PushOk(codec, input, Now(w, slot))))
  {
    CompletedSync(codec, input, w, slots, slot);
    if TakesUp(input, w, slots, slot) {
      CompletedSyncDidNotFail(codec, input, w, slots, slot);
      InSyncIsFixpoint(codec, input, Now(w, slot));
    }
  }

  // Runs cut off.

  /** Anything short of a whole turn touches neither side. */
  lemma QuietPrefix(codec: Codec, t: Turn, done: seq<Effect>)
    requires LoudLast(codec, t) && done <= t.effects && done != t.effects
    ensures AllQuiet(done)
  {
    forall i | 0 <= i < |done| ensures Quiet(done[i]) {
      assert done[i] == t.effects[..|t.effects| - 1][i];
    }
  }

  lemma PrefixOfTurn(codec: Codec, input: Input, v: View, done: seq<Effect>)
    requires Lawful(codec) && done <= TurnOf(codec, input, v).effects
    ensures var t, after := TurnOf(codec, input, v), SeenAll(v, done);
      || AllQuiet(done)
      || (t.entry.Some? && codec.content(after.local) == Some(t.entry.value.base)
          && (Agree(codec, after, t.entry.value.base) <==> PushOk(codec, input, v)))
  {
    var t := TurnOf(codec, input, v);
    TurnCommits(codec, input, v);
    FailedMovesNothing(codec, input, v);
    if done != t.effects {
      QuietPrefix(codec, t, done);
    } else if !AllQuiet(done) && PushDue(codec, input, v) {
      TurnTransfers(codec, input, v);
      PushLeavesLocal(codec, input, v);
    }
  }

  lemma PushLeavesLocal(codec: Codec, input: Input, v: View)
    requires Lawful(codec) && PushDue(codec, input, v)
    ensures SeenAll(v, TurnOf(codec, input, v).effects).local == v.local
  {
    TurnTransfers(codec, input, v);
    assert !PullDue(codec, input, v);
    LocalUnseen(v, TurnOf(codec, input, v).effects);
  }

  /** What a synchronization, cut off anywhere, has done to a slot. */
  ghost function DoneTo(codec: Codec, input: Input, w: World, slots: seq<nat>, cut: nat, slot: nat): seq<Effect>
  {
    Only(Take(SyncEffects(codec, input, w, slots), cut), slot)
  }

  /** That is the beginning of the slot's turn, and the whole turn when the synchronization completes. */
  lemma SyncDone(codec: Codec, input: Input, w: World, slots: seq<nat>, cut: nat, slot: nat)
    requires Orderly(w) && Distinct(slots) && slot in w.locals && w.saved.account.Some?
    ensures var t, done := TurnOf(codec, input, Now(w, slot)), DoneTo(codec, input, w, slots, cut, slot);
      && done <= t.effects && (slot !in slots ==> done == [])
      && ((Completes(codec, input, w, slots) && TakesUp(input, w, slots, slot)
           && cut >= |SyncEffects(codec, input, w, slots)|) ==> done == t.effects)
  {
    var effects := SyncEffects(codec, input, w, slots);
    if effects == [] {
      assert Take(effects, cut) == [];
    } else {
      var account := w.saved.account.value;
      var selected, plan := Selected(input, w, account, slots), PlanOf(codec, input, w, slots);
      TurnsAreOwn(codec, input);
      SelectedIsDistinct(input, w, account, slots);
      CutRunIsCutTurns(TurnFn(codec, input), w, w.saved, account, selected, cut, slot);
      assert effects == WithSave(plan.effects, plan.state);
      SaveConcernsNoSlot(plan.effects, plan.state, cut, slot);
      if Completes(codec, input, w, slots) {
        CompletedParts(codec, input, w, slots);
      }
    }
  }

  lemma SaveConcernsNoSlot(effects: seq<Effect>, final: Option<SyncState>, cut: nat, slot: nat)
    ensures Only(Take(WithSave(effects, final), cut), slot) == Only(Take(effects, cut), slot)
  {
    if final.Some? && cut > |effects| {
      var all := effects + [Save(final.value)];
      assert Take(all, cut) == all && all[..|all| - 1] == effects && all[|all| - 1].Save?;
    } else {
      assert Take(WithSave(effects, final), cut) == Take(effects, cut);
    }
  }

  /** Cut off before it stores its state, that is all that happened to the slot. */
  lemma CutView(codec: Codec, input: Input, w: World, slots: seq<nat>, cut: nat, slot: nat)
    requires Orderly(w) && Distinct(slots) && slot in w.locals && w.saved.account.Some?
    requires cut < |SyncEffects(codec, input, w, slots)| || !Completes(codec, input, w, slots)
    ensures var after := ApplyAll(w, Take(SyncEffects(codec, input, w, slots), cut));
      && slot in after.locals && after.saved == w.saved
      && Now(after, slot) == SeenAll(Now(w, slot), DoneTo(codec, input, w, slots, cut, slot))
  {
    var effects := Take(SyncEffects(codec, input, w, slots), cut);
    if SyncEffects(codec, input, w, slots) != [] {
      var account := w.saved.account.value;
      TurnsAreOwn(codec, input);
      RunSavesNothing(TurnFn(codec, input), w, w.saved, account, Selected(input, w, account, slots));
      assert effects == Take(PlanOf(codec, input, w, slots).effects, cut);
    }
    OnlySaveSaves(w, effects);
    ViewAfter(w, w.saved, w.saved.account.value, slot, effects);
    OnlyIsSeen(Now(w, slot), effects);
  }

  /**
   * Wherever a synchronization is cut off before its state is stored, each slot's two sides are both as
   * they were, or its transfer is done. The sides then agree if and only if what was pushed, if anything,
   * can be read back; agreeing sides compare as Unchanged or Converged, whatever BASE is stored.
   */
  lemma CutSyncHeals(codec: Codec, input: Input, w: World, slots: seq<nat>, cut: nat, slot: nat,
                     base: Option<seq<byte>>)
    requires Lawful(codec) && Orderly(w) && Distinct(slots) && slot in w.locals && w.saved.account.Some?
    requires cut < |SyncEffects(codec, input, w, slots)| || !Completes(codec, input, w, slots)
    ensures var after := ApplyAll(w, Take(SyncEffects(codec, input, w, slots), cut));
      && slot in after.locals && after.saved == w.saved
      && (|| Now(after, slot) == Now(w, slot).(extra := Now(after, slot).extra)
          || (&& codec.content(after.locals[slot]).Some?
              && var c := codec.content(after.locals[slot]).value;
                && (Agree(codec, Now(after, slot), c) <==> PushOk(codec, input, Now(w, slot)))
                && (Agree(codec, Now(after, slot), c) ==> Decide(base, c, c) in {Unchanged, Converged})))
  {
    var v := Now(w, slot);
    var done := DoneTo(codec, input, w, slots, cut, slot);
    SyncDone(codec, input, w, slots, cut, slot);
    CutView(codec, input, w, slots, cut, slot);
    PrefixOfTurn(codec, input, v, done);
    if AllQuiet(done) {
      QuietUnseen(v, done);
    } else {
      var c := TurnOf(codec, input, v).entry.value.base;
      AgreementIsRecognized(base, c, c);
    }
  }

  /**
   * A completed run that takes up a slot whose sides agree puts it in sync, if and only if a push that is
   * due can be read back, and a queued pull that matches may be applied.
   */
  lemma NextSyncRecovers(codec: Codec, input: Input, w: World, slots: seq<nat>, slot: nat, c: seq<byte>)
    requires Lawful(codec) && Orderly(w) && Distinct(slots) && Completes(codec, input, w, slots)
    requires slot in w.locals && w.saved.account.Some? && slot in slots
    requires Together(codec, w, w.saved.account.value, slot, c)
    ensures var v, after := Now(w, slot), Synced(codec, input, w, slots);
      && slot in after.locals && after.saved.account.Some?
      && (InSync(codec, Now(after, slot)) <==>
            PushOk(codec, input, v) && (PullMatches(v.pull, v.remote.value) ==> slot in input.allowed))
  {
    CompletedSync(codec, input, w, slots, slot);
    CompletedSyncDidNotFail(codec, input, w, slots, slot);
    if PullMatches(Now(w, slot).pull, Now(w, slot).remote.value) {
      MatchedSettles(codec, input, Now(w, slot), c);
    } else {
      AgreementSettles(codec, input, Now(w, slot), c);
    }
  }
}
