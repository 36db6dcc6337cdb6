/** Whole histories: edits, synchronizations cut off anywhere, choices, restores and account switches. */
module SyncHistory {
  import opened Bytes
  import opened SyncCodec
  import opened SyncModel
  import opened SyncRuns
  import opened SyncSafety

  /**
   * `cut` is how many effects happen before a crash, a lost connection or any other error. A restart
   * is no step of its own: nothing outside the world survives one.
   */
  datatype Step =
    | EditLocal(slot: nat, file: Option<seq<byte>>)
    | EditRemote(account: nat, slot: nat, remote: Option<Remote>)
    | SignIn(account: nat)
    | Sync(input: Input, slots: seq<nat>, cut: nat)
    | Force(input: Input, slot: nat, useLocal: bool, name: Name, cut: nat)
    | Restore(input: Input, slot: nat, backup: nat, cut: nat)

  ghost function Next(codec: Codec, w: World, step: Step): World
  {
    match step
    case EditLocal(slot, None) => w.(locals := w.locals - {slot})
    case EditLocal(slot, Some(bytes)) => w.(locals := w.locals[slot := bytes])
    case EditRemote(account, slot, None) => w.(remotes := w.remotes - {(account, slot)})
    case EditRemote(account, slot, Some(r)) => w.(remotes := w.remotes[(account, slot) := r])
    case SignIn(account) => w.(saved := Bind(w.saved, account))
    case Sync(input, slots, cut) => ApplyAll(w, Take(SyncEffects(codec, input, w, slots), cut))
    case Force(input, slot, useLocal, name, cut) =>
      ApplyAll(w, Take(ForceEffects(codec, input, w, slot, useLocal, name), cut))
    case Restore(input, slot, backup, cut) =>
      if backup < |w.backups|
        then ApplyAll(w, Take(RestoreEffects(codec, input, w, slot, w.backups[backup].bytes), cut))
      else w
  }

  /** Files on Steam stand in the slot their name says, a run looks at a slot once, a choice names its slot. */
  ghost predicate Allowed(step: Step)
  {
    match step
    case EditRemote(_, slot, Some(r)) => r.name.slot == slot
    case Sync(_, slots, _) => Distinct(slots)
    case Force(_, slot, _, name, _) => name.slot == slot
    case _ => true
  }

  /** A history starts on a device that has not synchronized yet. */
  ghost predicate History(codec: Codec, worlds: seq<World>, steps: seq<Step>)
  {
    && |worlds| == |steps| + 1 && Orderly(worlds[0]) && worlds[0].saved.files == map[]
    && forall i :: 0 <= i < |steps| ==> Allowed(steps[i]) && worlds[i + 1] == Next(codec, worlds[i], steps[i])
  }

  lemma HistoryStep(codec: Codec, worlds: seq<World>, steps: seq<Step>, i: nat)
    requires History(codec, worlds, steps) && 0 < i < |worlds|
    ensures Allowed(steps[i - 1]) && worlds[i] == Next(codec, worlds[i - 1], steps[i - 1])
  {
    assert worlds[i - 1 + 1] == worlds[i];
  }
}
