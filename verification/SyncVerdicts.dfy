/** What a run reports about a slot, what a choice of the user achieves, and that the sidecar never shrinks. */
module SyncVerdicts {
  import opened Bytes
  import opened Conversion
  import opened SyncDecision
  import opened SyncCodec
  import opened SyncModel
  import opened SyncRuns
  import opened SyncSafety
  import opened SyncHistory
  import opened SyncProvenance
  import opened SyncConvergence
  import opened SyncProgress

  // Verdicts.

  /** The conversion of what a push that is due would send fails. */
  predicate PushFails(codec: Codec, input: Input, v: View)
  {
    && PushDue(codec, input, v)
    && var r := v.remote.value;
      codec.uploaded(r.name.path, codec.content(v.local).value, LearnedView(codec, input, v, r.bytes).extra, input.ids)
        .None?
  }

  /** Both sides can be read, differ from each other and from BASE, and no queued pull decides. */
  predicate Diverged(codec: Codec, v: View)
  {
    && codec.content(v.local).Some? && v.remote.Some? && codec.normalized(v.remote.value.bytes).Some?
    && !PullMatches(v.pull, v.remote.value) && codec.content(v.local) != codec.normalized(v.remote.value.bytes)
    && v.base != codec.content(v.local) && v.base != codec.normalized(v.remote.value.bytes)
  }

  lemma CompareVerdict(codec: Codec, input: Input, v: View, r: Remote, c: seq<byte>, n: seq<byte>)
    ensures var verdict := CompareTurn(codec, input, v, r, c, n).verdict;
      var push := if c == n then codec.needsRepair(r.bytes) else v.base == Some(n);
      && (verdict == Failed <==> push && input.manual && codec.uploaded(r.name.path, c, v.extra, input.ids).None?)
      && (verdict == Waiting <==> push && !input.manual)
      && (verdict == Choice(RestartRequired) <==> c != n && v.base == Some(c) && v.slot !in input.allowed)
      && (verdict == Choice(FirstSync) <==> c != n && v.base.None?)
      && (verdict == Choice(TrueConflict) <==> c != n && v.base.Some? && v.base != Some(c) && v.base != Some(n))
      && verdict != Choice(RemoteMissing)
  {
    AgreementIsRecognized(v.base, c, n);
    TransfersOverwriteBaseOnly(v.base, c, n);
  }

  /**
   * What a turn reports: it failed exactly when a file could not be read or a due push not converted, the
   * slot waits exactly when a manual run would push, it needs a relaunch exactly when a run that may replace
   * saves would pull, and a choice exactly when Steam has no file or both sides have moved.
   */
  lemma VerdictMeaning(codec: Codec, input: Input, v: View)
    requires Lawful(codec)
    ensures var verdict := TurnOf(codec, input, v).verdict;
      && (verdict == Failed <==>
            || codec.content(v.local).None?
            || (v.remote.Some? && codec.normalized(v.remote.value.bytes).None?)
            || PushFails(codec, input, v))
      && (verdict == Waiting <==> !input.manual && PushDue(codec, input.(manual := true), v))
      && (verdict == Choice(RestartRequired) <==>
            v.slot !in input.allowed && PullDue(codec, input.(allowed := input.allowed + {v.slot}), v))
      && (verdict == Choice(RemoteMissing) <==> codec.content(v.local).Some? && v.remote.None?)
      && (verdict == Choice(FirstSync) <==> Diverged(codec, v) && v.base.None?)
      && (verdict == Choice(TrueConflict) <==> Diverged(codec, v) && v.base.Some?)
  {
    if codec.content(v.local).Some? && v.remote.Some? && codec.normalized(v.remote.value.bytes).Some? {
      var r := v.remote.value;
      CompareVerdict(codec, input, LearnedView(codec, input, v, r.bytes), r, codec.content(v.local).value,
                     codec.normalized(r.bytes).value);
    }
  }

  /** A run reports, slot by slot, what each slot's own turn reports, up to the first that fails. */
  lemma {:induction false} RunVerdicts(turn: View -> Turn, w: World, st: SyncState, account: nat, slots: seq<nat>,
                                       i: nat)
    requires forall slot <- slots :: slot in w.locals
    requires OwnTurns(turn) && Distinct(slots) && Placed(w) && Keyed(st.files)
    ensures var plan := RunFrom(turn, w, st, account, slots);
      && |plan.verdicts| <= |slots| && (plan.state.Some? ==> |plan.verdicts| == |slots|)
      && (i < |plan.verdicts| ==> plan.verdicts[i] == turn(ViewOf(w, st, account, slots[i])).verdict)
    decreases |slots|
  {
    if slots != [] {
      var t := turn(ViewOf(w, st, account, slots[0]));
      if t.verdict != Failed {
        TurnGoesOn(turn, w, st, account, slots, if i < |slots| then slots[i] else slots[0]);
        RunVerdicts(turn, ApplyAll(w, t.effects), After(st, slots[0], t), account, slots[1..],
                    if i > 0 then i - 1 else 0);
      }
    }
  }

  lemma CompareSettled(codec: Codec, input: Input, v: View, r: Remote, c: seq<byte>, n: seq<byte>)
    ensures var t := CompareTurn(codec, input, v, r, c, n);
      && (t.verdict != Settled ==> AllQuiet(t.effects))
      && (t.verdict == Settled && t.entry.None? ==> t.effects == [] && v.base == Some(c) && c == n)
  {
    AgreementIsRecognized(v.base, c, n);
  }

  lemma TurnSettled(codec: Codec, input: Input, v: View)
    ensures var t := TurnOf(codec, input, v);
      && (t.verdict != Settled ==> AllQuiet(t.effects))
      && (t.verdict == Settled && t.entry.None? ==>
            AllQuiet(t.effects) && (t.dropPull || v.pull.None?) && v.base.Some? && Agree(codec, v, v.base.value))
  {
    if v.remote.Some? && codec.content(v.local).Some? && codec.normalized(v.remote.value.bytes).Some? {
      var r := v.remote.value;
      CompareSettled(codec, input, LearnedView(codec, input, v, r.bytes), r, codec.content(v.local).value,
                     codec.normalized(r.bytes).value);
    }
  }

  /**
   * A slot reported as settled is in sync afterwards if and only if what was pushed, if anything, can be
   * read back; any other verdict means that neither side was touched.
   */
  lemma SettledMeansInSync(codec: Codec, input: Input, v: View)
    requires Lawful(codec)
    ensures var t, next := TurnOf(codec, input, v), NextView(TurnFn(codec, input), v);
      if t.verdict == Settled then InSync(codec, next) <==> PushOk(codec, input, v)
      else next.local == v.local && next.remote == v.remote
  {
    var t := TurnOf(codec, input, v);
    TurnSettled(codec, input, v);
    if t.entry.Some? && t.verdict == Settled {
      MovedBaseIsInSync(codec, input, v);
    } else {
      TurnTransfers(codec, input, v);
      QuietUnseen(v, t.effects);
    }
  }

  /** A slot has something left to do: a push, a pull, a choice between the sides, or a first upload. */
  predicate Unsettled(codec: Codec, input: Input, v: View)
  {
    || (!input.manual && PushDue(codec, input.(manual := true), v))
    || (v.slot !in input.allowed && PullDue(codec, input.(allowed := input.allowed + {v.slot}), v))
    || v.remote.None? || Diverged(codec, v)
  }

  lemma SettledExactly(codec: Codec, input: Input, v: View)
    requires Lawful(codec) && TurnOf(codec, input, v).verdict != Failed
    ensures TurnOf(codec, input, v).verdict == Settled <==> !Unsettled(codec, input, v)
  {
    VerdictMeaning(codec, input, v);
  }

  /** The verdicts of a completed synchronization, in the order of the slots it takes up. */
  lemma CompletedVerdicts(codec: Codec, input: Input, w: World, slots: seq<nat>, i: nat) returns (slot: nat)
    requires Orderly(w) && Distinct(slots) && Completes(codec, input, w, slots) && w.saved.account.Some?
    requires i < |PlanOf(codec, input, w, slots).verdicts|
    ensures TakesUp(input, w, slots, slot) && i < |Selected(input, w, w.saved.account.value, slots)|
    ensures slot == Selected(input, w, w.saved.account.value, slots)[i]
    ensures TurnOf(codec, input, Now(w, slot)).verdict == PlanOf(codec, input, w, slots).verdicts[i] != Failed
  {
    var account := w.saved.account.value;
    var selected := Selected(input, w, account, slots);
    TurnsAreOwn(codec, input);
    SelectedIsDistinct(input, w, account, slots);
    RunVerdicts(TurnFn(codec, input), w, w.saved, account, selected, i);
    slot := selected[i];
    assert slot in selected;
    CompletedSyncDidNotFail(codec, input, w, slots, slot);
  }

  /** What they say of the slots, as these were before. */
  lemma ReportMeaning(codec: Codec, input: Input, w: World, slots: seq<nat>, i: nat) returns (slot: nat)
    requires Lawful(codec) && Orderly(w) && Distinct(slots) && Completes(codec, input, w, slots)
    requires w.saved.account.Some? && i < |PlanOf(codec, input, w, slots).verdicts|
    ensures i < |Selected(input, w, w.saved.account.value, slots)|
    ensures slot == Selected(input, w, w.saved.account.value, slots)[i] && slot in w.locals
    ensures var verdict, v := PlanOf(codec, input, w, slots).verdicts[i], Now(w, slot);
      && (verdict == Waiting <==> !input.manual && PushDue(codec, input.(manual := true), v))
      && (verdict == Choice(RestartRequired) <==>
            slot !in input.allowed && PullDue(codec, input.(allowed := input.allowed + {slot}), v))
      && (verdict == Choice(RemoteMissing) <==> v.remote.None?)
      && (verdict == Choice(FirstSync) <==> Diverged(codec, v) && v.base.None?)
      && (verdict == Choice(TrueConflict) <==> Diverged(codec, v) && v.base.Some?)
  {
    slot := CompletedVerdicts(codec, input, w, slots, i);
    VerdictMeaning(codec, input, Now(w, slot));
  }

  /** Every slot that it takes up has a verdict there. */
  lemma VerdictOfSlot(codec: Codec, input: Input, w: World, slots: seq<nat>, slot: nat) returns (i: nat)
    requires Orderly(w) && Distinct(slots) && Completes(codec, input, w, slots) && w.saved.account.Some?
    requires TakesUp(input, w, slots, slot)
    ensures i < |PlanOf(codec, input, w, slots).verdicts|
    ensures TurnOf(codec, input, Now(w, slot)).verdict == PlanOf(codec, input, w, slots).verdicts[i] != Failed
  {
    var account := w.saved.account.value;
    var selected := Selected(input, w, account, slots);
    assert slot in selected;
    i :| 0 <= i < |selected| && selected[i] == slot;
    TurnsAreOwn(codec, input);
    SelectedIsDistinct(input, w, account, slots);
    CompletedParts(codec, input, w, slots);
    RunVerdicts(TurnFn(codec, input), w, w.saved, account, selected, i);
    CompletedSyncDidNotFail(codec, input, w, slots, slot);
  }

  /** Some slot that the synchronization takes up gets this verdict. */
  ghost predicate SomeSlot(codec: Codec, input: Input, w: World, slots: seq<nat>, verdict: Verdict)
    requires w.saved.account.Some?
  {
    exists slot :: TakesUp(input, w, slots, slot) && TurnOf(codec, input, Now(w, slot)).verdict == verdict
  }

  lemma ReportedExactly(codec: Codec, input: Input, w: World, slots: seq<nat>, verdict: Verdict)
    requires Orderly(w) && Distinct(slots) && Completes(codec, input, w, slots) && w.saved.account.Some?
    ensures verdict in PlanOf(codec, input, w, slots).verdicts <==> SomeSlot(codec, input, w, slots, verdict)
  {
    var verdicts := PlanOf(codec, input, w, slots).verdicts;
    if verdict in verdicts {
      var i :| 0 <= i < |verdicts| && verdicts[i] == verdict;
      var slot := CompletedVerdicts(codec, input, w, slots, i);
    }
    if SomeSlot(codec, input, w, slots, verdict) {
      var slot :| TakesUp(input, w, slots, slot) && TurnOf(codec, input, Now(w, slot)).verdict == verdict;
      var i := VerdictOfSlot(codec, input, w, slots, slot);
    }
  }

  /** A conflict is shown before a relaunch, a relaunch before a waiting upload, and that before the other choices. */
  lemma PhaseMeaning(codec: Codec, input: Input, w: World, slots: seq<nat>)
    requires Orderly(w) && Distinct(slots) && Completes(codec, input, w, slots) && w.saved.account.Some?
    ensures var phase := PhaseOf(PlanOf(codec, input, w, slots).verdicts);
      var conflict := SomeSlot(codec, input, w, slots, Choice(TrueConflict));
      var restart := SomeSlot(codec, input, w, slots, Choice(RestartRequired));
      var waiting := SomeSlot(codec, input, w, slots, Waiting);
      && (phase == ConflictPhase <==> conflict)
      && (phase == RestartPhase <==> restart && !conflict)
      && (phase == UploadPhase <==> waiting && !conflict && !restart)
  {
    ReportedExactly(codec, input, w, slots, Choice(TrueConflict));
    ReportedExactly(codec, input, w, slots, Choice(RestartRequired));
    ReportedExactly(codec, input, w, slots, Waiting);
    PhaseOfVerdicts(PlanOf(codec, input, w, slots).verdicts);
  }

  lemma PhaseOfVerdicts(verdicts: seq<Verdict>)
    ensures PhaseOf(verdicts) == ConflictPhase <==> Choice(TrueConflict) in verdicts
    ensures PhaseOf(verdicts) == RestartPhase <==>
      Choice(RestartRequired) in verdicts && Choice(TrueConflict) !in verdicts
    ensures PhaseOf(verdicts) == UploadPhase <==>
      Waiting in verdicts && Choice(RestartRequired) !in verdicts && Choice(TrueConflict) !in verdicts
  {
  }

  ghost predicate NothingLeft(codec: Codec, input: Input, w: World, slots: seq<nat>)
    requires w.saved.account.Some?
  {
    forall slot | TakesUp(input, w, slots, slot) :: !Unsettled(codec, input, Now(w, slot))
  }

  lemma SettledVerdict(codec: Codec, input: Input, w: World, slots: seq<nat>, i: nat)
    requires Lawful(codec) && Orderly(w) && Distinct(slots) && Completes(codec, input, w, slots)
    requires w.saved.account.Some? && NothingLeft(codec, input, w, slots)
    requires i < |PlanOf(codec, input, w, slots).verdicts|
    ensures PlanOf(codec, input, w, slots).verdicts[i] == Settled
  {
    var slot := CompletedVerdicts(codec, input, w, slots, i);
    SettledExactly(codec, input, Now(w, slot));
  }

  lemma UnsettledVerdict(codec: Codec, input: Input, w: World, slots: seq<nat>, slot: nat)
    requires Lawful(codec) && Orderly(w) && Distinct(slots) && Completes(codec, input, w, slots)
    requires w.saved.account.Some? && TakesUp(input, w, slots, slot) && Unsettled(codec, input, Now(w, slot))
    ensures PhaseOf(PlanOf(codec, input, w, slots).verdicts) != Idle
  {
    var i := VerdictOfSlot(codec, input, w, slots, slot);
    SettledExactly(codec, input, Now(w, slot));
    NotIdle(PlanOf(codec, input, w, slots).verdicts, i);
  }

  lemma NotIdle(verdicts: seq<Verdict>, i: nat)
    requires i < |verdicts| && verdicts[i] != Settled
    ensures PhaseOf(verdicts) != Idle
  {
    assert verdicts[i] in verdicts;
  }

  /** A completed synchronization reports idle if and only if no slot it took up has anything left to do. */
  lemma IdleExactly(codec: Codec, input: Input, w: World, slots: seq<nat>)
    requires Lawful(codec) && Orderly(w) && Distinct(slots) && Completes(codec, input, w, slots)
    requires w.saved.account.Some?
    ensures PhaseOf(PlanOf(codec, input, w, slots).verdicts) == Idle <==> NothingLeft(codec, input, w, slots)
  {
    var verdicts := PlanOf(codec, input, w, slots).verdicts;
    if NothingLeft(codec, input, w, slots) {
      forall i | 0 <= i < |verdicts| ensures verdicts[i] == Settled {
        SettledVerdict(codec, input, w, slots, i);
      }
    } else {
      var slot :| TakesUp(input, w, slots, slot) && Unsettled(codec, input, Now(w, slot));
      UnsettledVerdict(codec, input, w, slots, slot);
    }
  }

  /** Then every slot it took up is in sync, if and only if what it pushed there, if anything, can be read back. */
  lemma IdleMeansInSync(codec: Codec, input: Input, w: World, slots: seq<nat>, slot: nat)
    requires Lawful(codec) && Orderly(w) && Distinct(slots) && Completes(codec, input, w, slots)
    requires w.saved.account.Some? && TakesUp(input, w, slots, slot)
    requires PhaseOf(PlanOf(codec, input, w, slots).verdicts) == Idle
    ensures var after := Synced(codec, input, w, slots);
      && slot in after.locals && after.saved.account.Some?
      && (InSync(codec, Now(after, slot)) <==> PushOk(codec, input, Now(w, slot)))
  {
    var i := VerdictOfSlot(codec, input, w, slots, slot);
    if PlanOf(codec, input, w, slots).verdicts[i] != Settled {
      NotIdle(PlanOf(codec, input, w, slots).verdicts, i);
    }
    SettledMeansInSync(codec, input, Now(w, slot));
    CompletedSync(codec, input, w, slots, slot);
  }

  // Choices.

  /** The view of a slot after the user chose Steam's side for it. */
  lemma SteamChosen(codec: Codec, input: Input, w: World, slot: nat, name: Name)
    requires w.saved.account.Some? && slot in w.locals && codec.content(w.locals[slot]).Some?
      && Now(w, slot).remote.Some?
    ensures var after := ApplyAll(w, ForceEffects(codec, input, w, slot, false, name));
      var r := Now(w, slot).remote.value;
      && after.saved == w.saved.(pulls := w.saved.pulls[slot := Pull(r.name, Sha(r))])
      && slot in after.locals && Now(after, slot).local == w.locals[slot] && Now(after, slot).remote == Some(r)
  {
    var v := Now(w, slot);
    var t := ForceTurn(codec, input, v, false, name);
    var st := Queued(After(w.saved, slot, t), v, false);
    ApplyAppend(w, t.effects, [Save(st)]);
    assert [Save(st)][1..] == [];
    ViewAfter(w, w.saved, w.saved.account.value, slot, t.effects);
    QuietUnseen(v, t.effects);
  }

  /**
   * Whatever file Steam then has under the slot, the choice holds for it if and only if it has the chosen
   * file's name and, when Steam had listed a hash, its listed content; without one, if none is listed.
   */
  lemma ChosenVersionOnly(codec: Codec, input: Input, w: World, slot: nat, name: Name, r: Remote)
    requires w.saved.account.Some? && slot in w.locals && codec.content(w.locals[slot]).Some?
      && Now(w, slot).remote.Some?
    ensures var after := ApplyAll(w, ForceEffects(codec, input, w, slot, false, name));
      var chosen := Now(w, slot).remote.value;
      && slot in after.saved.pulls
      && (PullMatches(Some(after.saved.pulls[slot]), r) <==>
            r.name == chosen.name && (if chosen.listed then r.listed && r.bytes == chosen.bytes else !r.listed))
  {
    SteamChosen(codec, input, w, slot, name);
  }

  /**
   * A slot for which Steam's side was chosen gets exactly that at the next completed run that may replace
   * saves, whatever was played meanwhile, provided Steam's file is still the chosen one.
   */
  lemma ChosenSteamArrives(codec: Codec, w: World, input: Input, slots: seq<nat>, slot: nat, n: seq<byte>)
    requires Lawful(codec) && Orderly(w) && Distinct(slots) && Completes(codec, input, w, slots)
    requires slot in w.locals && slot in slots && slot in input.allowed && w.saved.account.Some?
    requires SteamFile(w, slot).Some? && codec.normalized(SteamFile(w, slot).value.bytes) == Some(n)
    requires slot in w.saved.pulls && PullMatches(Some(w.saved.pulls[slot]), SteamFile(w, slot).value)
    ensures var after := Synced(codec, input, w, slots);
      slot in after.locals && after.locals[slot] == n && after.saved.account.Some? && InSync(codec, Now(after, slot))
  {
    CompletedSync(codec, input, w, slots, slot);
    CompletedSyncDidNotFail(codec, input, w, slots, slot);
    QueuedTurn(codec, input, Now(w, slot), n);
    MovedBaseIsInSync(codec, input, Now(w, slot));
  }

  lemma QueuedTurn(codec: Codec, input: Input, v: View, n: seq<byte>)
    requires Lawful(codec) && v.remote.Some? && codec.normalized(v.remote.value.bytes) == Some(n)
    requires PullMatches(v.pull, v.remote.value) && v.slot in input.allowed && TurnOf(codec, input, v).verdict != Failed
    ensures TurnOf(codec, input, v).entry.Some? && NextView(TurnFn(codec, input), v).local == n
  {
    var r, learn := v.remote.value, LearnEffects(codec, input, v, v.remote.value.bytes);
    var store, commit := StoreOf(v, LocalBeforePull, v.local), ReplaceLocal(v.slot, n);
    assert TurnOf(codec, input, v).effects == (learn + [store]) + [commit];
    SeenLast(v, learn + [store], commit);
    QuietUnseen(v, learn + [store]);
  }

  lemma DevicePushed(codec: Codec, input: Input, v: View, name: Name)
    requires ForceTurn(codec, input, v, true, name).verdict != Failed
    ensures var t := ForceTurn(codec, input, v, true, name);
      && codec.content(v.local).Some? && t.entry.Some? && t.entry.value.base == codec.content(v.local).value
      && NoReplacement(t.effects)
  {
    if v.remote.Some? {
      var r := v.remote.value;
      PushTransfers(codec, input, ForcedView(codec, input, v, r), r, codec.content(v.local).value);
      assert NoReplacement(BeforeForce(codec, input, v, r));
    }
  }

  /** What storing the state after one slot's turn makes of that slot. */
  lemma SavedTurn(w: World, slot: nat, t: Turn, st: SyncState)
    requires slot in w.locals && w.saved.account.Some? && Keyed(w.saved.files)
    requires t.entry.Some? && t.entry.value.slot == slot == t.entry.value.name.slot
    requires st.files == Upsert(w.saved.files, t.entry.value) && st.account == w.saved.account
    ensures var after := ApplyAll(w, t.effects + [Save(st)]);
      && slot in after.locals && after.saved == st && BaseOf(st.files, slot) == Some(t.entry.value.base)
      && Now(after, slot).local == SeenAll(Now(w, slot), t.effects).local
      && Now(after, slot).remote == SeenAll(Now(w, slot), t.effects).remote
  {
    UpsertEntries(w.saved.files, t.entry.value, slot);
    ApplyAppend(w, t.effects, [Save(st)]);
    assert [Save(st)][1..] == [];
    ViewAfter(w, w.saved, w.saved.account.value, slot, t.effects);
  }

  /**
   * After the user chose the device's side and the push went through, BASE is the device's content, and
   * Steam's file means it too if and only if it can be read back from under the name it was sent to.
   */
  lemma ChosenDeviceArrives(codec: Codec, input: Input, w: World, slot: nat, name: Name)
    requires Lawful(codec) && Orderly(w) && slot in w.locals && w.saved.account.Some? && name.slot == slot
    requires ForceTurn(codec, input, Now(w, slot), true, name).verdict != Failed
    ensures var after := ApplyAll(w, ForceEffects(codec, input, w, slot, true, name));
      && slot in after.locals && after.locals[slot] == w.locals[slot] && after.saved.account == w.saved.account
      && codec.content(w.locals[slot]).Some?
      && BaseOf(after.saved.files, slot) == codec.content(w.locals[slot])
      && (Agree(codec, Now(after, slot), codec.content(w.locals[slot]).value)
          <==> ForceOk(codec, Now(w, slot), true, name))
  {
    var v := Now(w, slot);
    var t := ForceTurn(codec, input, v, true, name);
    DevicePushed(codec, input, v, name);
    LocalUnseen(v, t.effects);
    ForceIsTidy(codec, input, v, true, name);
    ForceCommits(codec, input, v, true, name);
    SavedTurn(w, slot, t, After(w.saved, slot, t));
  }

  // Restores.

  /**
   * A restored slot holds what the backup means; what was live before has been backed up, and a writable
   * sidecar of flags has the backup's Repentance+ data.
   */
  lemma RestoredContent(codec: Codec, input: Input, w: World, slot: nat, bytes: seq<byte>)
    requires Lawful(codec) && ProgressLaws(codec) && codec.normalized(bytes).Some?
    ensures var after := ApplyAll(w, RestoreEffects(codec, input, w, slot, bytes));
      && slot in after.locals && codec.content(after.locals[slot]) == codec.normalized(bytes)
      && after.remotes == w.remotes && after.saved == w.saved
      && (slot in w.locals ==> after.backups == w.backups + [Backup(slot, LocalBeforeRestore, w.locals[slot])])
      && (codec.learned(bytes).Some? && slot in input.writable && Flags(ExtraOf(w, slot)) && FlagFile(codec, bytes) ==>
            Above(ExtraOf(after, slot), codec.learned(bytes).value))
  {
    var before := if slot in w.locals then [Store(Backup(slot, LocalBeforeRestore, w.locals[slot]))] else [];
    var back := WriteBack(codec, input, w, slot, bytes);
    ApplyAppend(w, before, back);
    var w1 := ApplyAll(w, before);
    assert w1 == w.(backups := w1.backups) by {
      assert before != [] ==> before[1..] == [];
    }
    if codec.learned(bytes).Some? {
      var merged := MergeExtra(ExtraOf(w, slot), codec.learned(bytes).value);
      if Flags(ExtraOf(w, slot)) && FlagFile(codec, bytes) {
        MergeIsAbove(ExtraOf(w, slot), codec.learned(bytes).value);
      }
      var keep, put := KeepIfWritable(input, slot, merged), [ReplaceLocal(slot, codec.normalized(bytes).value)];
      assert back == keep + put && put[1..] == [] && (keep != [] ==> keep[1..] == []);
      ApplyAppend(w1, keep, put);
    } else {
      assert back[1..] == [];
    }
  }

  // The sidecar.

  /** Every sidecar written is at or above the one before it. */
  ghost predicate Grows(x: Extra, effects: seq<Effect>)
    decreases |effects|
  {
    effects == [] ||
    (if effects[0].KeepExtra? then Above(effects[0].extra, x) && Grows(effects[0].extra, effects[1..])
     else Grows(x, effects[1..]))
  }

  lemma {:induction false} GrowsAppend(v: View, a: seq<Effect>, b: seq<Effect>)
    requires AllOwn(v, a) && Grows(v.extra, a) && Grows(SeenAll(v, a).extra, b)
    ensures Grows(v.extra, a + b)
    decreases |a|
  {
    if a == [] {
      assert a + b == b;
    } else {
      assert Own(v, a[0]);
      assert (a + b)[1..] == a[1..] + b;
      var v' := Seen(v, a[0]);
      OwnStays(v, a, v');
      GrowsAppend(v', a[1..], b);
    }
  }

  lemma OwnStays(v: View, effects: seq<Effect>, v': View)
    requires AllOwn(v, effects) && effects != [] && v' == Seen(v, effects[0])
    ensures AllOwn(v', effects[1..])
  {
    assert Own(v, effects[0]);
    forall i | 0 <= i < |effects| - 1 ensures Own(v', effects[1..][i]) {
      assert Own(v, effects[i + 1]);
    }
  }

  /** So the sidecar is above the first one, wherever the effects are cut off. */
  lemma {:induction false} GrownPrefix(v: View, effects: seq<Effect>, done: seq<Effect>)
    requires AllOwn(v, effects) && Grows(v.extra, effects) && done <= effects
    ensures Above(SeenAll(v, done).extra, v.extra)
    decreases |done|
  {
    AboveIsReflexive(v.extra);
    if done != [] {
      var v' := Seen(v, effects[0]);
      assert Own(v, effects[0]);
      OwnStays(v, effects, v');
      GrownPrefix(v', effects[1..], done[1..]);
      AboveIsTransitive(SeenAll(v, done).extra, v'.extra, v.extra);
    }
  }

  lemma PushGrows(codec: Codec, input: Input, v: View, r: Remote, c: seq<byte>)
    requires Lawful(codec) && ProgressLaws(codec) && FlagView(codec, v)
    requires codec.content(v.local) == Some(c)
    ensures Grows(v.extra, PushTurn(codec, input, v, r, c).effects)
  {
    var upload := codec.uploaded(r.name.path, c, v.extra, input.ids);
    if upload.Some? {
      PushedExtra(codec, input, v, r.name.path, c);
      var learn, effects := PushExtra(codec, input, v, r.name.path, upload.value),
        PushTurn(codec, input, v, r, c).effects;
      if learn == [] {
        QuietGrows(v.extra, effects[0], effects[1]);
        assert effects == [effects[0], effects[1]];
      } else {
        MergeIsAbove(v.extra, codec.learned(upload.value).value);
        QuietGrows(learn[0].extra, effects[1], effects[2]);
        assert effects[1..] == [effects[1], effects[2]];
      }
    }
  }

  lemma QuietGrows(x: Extra, a: Effect, b: Effect)
    requires !a.KeepExtra? && !b.KeepExtra?
    ensures Grows(x, [a, b])
  {
  }

  lemma CompareGrows(codec: Codec, input: Input, v: View, r: Remote, c: seq<byte>, n: seq<byte>)
    requires Lawful(codec) && ProgressLaws(codec) && FlagView(codec, v)
    requires codec.content(v.local) == Some(c)
    ensures Grows(v.extra, CompareTurn(codec, input, v, r, c, n).effects)
    ensures Grows(v.extra, PullTurn(v, r, n).effects)
  {
    PushGrows(codec, input, v, r, c);
    QuietGrows(v.extra, StoreOf(v, LocalBeforePull, v.local), ReplaceLocal(v.slot, n));
    QuietGrows(v.extra, StoreOf(v, LocalFirstSync, v.local), StoreOf(v, SteamFirstSync, r.bytes));
    QuietGrows(v.extra, StoreOf(v, LocalConflict, v.local), StoreOf(v, SteamConflict, r.bytes));
  }

  lemma LearnGrows(codec: Codec, input: Input, v: View, r: Remote)
    requires ProgressLaws(codec) && FlagView(codec, v) && v.remote == Some(r)
    ensures var learn := LearnEffects(codec, input, v, r.bytes);
      AllOwn(v, learn) && Grows(v.extra, learn) && SeenAll(v, learn) == LearnedView(codec, input, v, r.bytes)
  {
    if codec.learned(r.bytes).Some? {
      MergeIsAbove(v.extra, codec.learned(r.bytes).value);
    }
  }

  lemma TurnGrows(codec: Codec, input: Input, v: View)
    requires Lawful(codec) && ProgressLaws(codec) && FlagView(codec, v)
    ensures Grows(v.extra, TurnOf(codec, input, v).effects)
  {
    if v.remote.Some? && codec.content(v.local).Some? {
      var r := v.remote.value;
      var learned := LearnedView(codec, input, v, r.bytes);
      LearnGrows(codec, input, v, r);
      LearnedViewFlags(codec, input, v, r);
      if codec.content(r.bytes).Some? && codec.normalized(r.bytes).Some? {
        var c, n := codec.content(v.local).value, codec.normalized(r.bytes).value;
        CompareGrows(codec, input, learned, r, c, n);
        GrowsAppend(v, LearnEffects(codec, input, v, r.bytes), ResolveTurn(codec, input, learned, r, c, n).effects);
      }
    }
  }

  /** Wherever a synchronization is cut off, no sidecar has lost an unlock or lowered a counter. */
  lemma SyncKeepsSidecar(codec: Codec, input: Input, w: World, slots: seq<nat>, cut: nat, slot: nat)
    requires Lawful(codec) && ProgressLaws(codec) && Orderly(w) && Distinct(slots)
    requires slot in w.locals && w.saved.account.Some? && FlagView(codec, Now(w, slot))
    ensures Above(ExtraOf(Next(codec, w, Sync(input, slots, cut)), slot), ExtraOf(w, slot))
  {
    var v := Now(w, slot);
    var done := DoneTo(codec, input, w, slots, cut, slot);
    SyncDone(codec, input, w, slots, cut, slot);
    SyncSteamFile(codec, input, w, slots, cut, slot);
    TurnGrows(codec, input, v);
    TurnIsOwn(codec, input, v);
    GrownPrefix(v, TurnOf(codec, input, v).effects, done);
  }

  /** After a push under a Repentance+ name, a writable sidecar has all that Steam's new file has. */
  lemma PushRemembers(codec: Codec, input: Input, v: View, r: Remote, c: seq<byte>)
    requires Lawful(codec) && ProgressLaws(codec) && FlagView(codec, v) && v.remote == Some(r)
    requires codec.content(v.local) == Some(c) && IsRepPlusName(r.name.path) && v.slot in input.rewritable
    requires PushTurn(codec, input, v, r, c).verdict != Failed
    ensures var after := SeenAll(v, PushTurn(codec, input, v, r, c).effects);
      && after.remote.Some? && codec.learned(after.remote.value.bytes).Some?
      && Above(after.extra, codec.learned(after.remote.value.bytes).value)
      && Above(codec.learned(after.remote.value.bytes).value, v.extra)
  {
    var u := codec.uploaded(r.name.path, c, v.extra, input.ids).value;
    var y := codec.learned(u).value;
    var store, commit := StoreOf(v, SteamBeforePush, r.bytes),
      Upload(v.account, v.slot, Verified(r.name, u));
    PushedExtra(codec, input, v, r.name.path, c);
    MergeIsAbove(v.extra, y);
    assert PushTurn(codec, input, v, r, c).effects ==
      ([KeepExtra(v.slot, MergeExtra(v.extra, y))] + [store]) + [commit];
    SeenLast(v, [KeepExtra(v.slot, MergeExtra(v.extra, y))] + [store], commit);
    SeenLast(v, [KeepExtra(v.slot, MergeExtra(v.extra, y))], store);
    SeenLast(v, [], KeepExtra(v.slot, MergeExtra(v.extra, y)));
    assert [] + [KeepExtra(v.slot, MergeExtra(v.extra, y))] == [KeepExtra(v.slot, MergeExtra(v.extra, y))];
  }
}
