/** What a run, a choice and a restore make of the sidecar, exactly; and what stops a run before it starts. */
module SyncSidecar {
  import opened Bytes
  import opened Conversion
  import opened SyncDecision
  import opened SyncCodec
  import opened SyncModel
  import opened SyncRuns
  import opened SyncSafety
  import opened SyncProvenance
  import opened SyncConvergence
  import opened SyncProgress
  import opened SyncVerdicts

  // Runs.

  /** What Steam's file holds is merged in, and after a push what that carries, as far as the file can be written. */
  function SidecarAfter(codec: Codec, input: Input, v: View): Extra
  {
    if codec.content(v.local).None? || v.remote.None? || codec.content(v.remote.value.bytes).None? then v.extra else
    var learned := codec.learned(v.remote.value.bytes);
    var kept := if learned.Some? && v.slot in input.writable then MergeExtra(v.extra, learned.value) else v.extra;
    if PushDue(codec, input, v) && !PushFails(codec, input, v) && IsRepPlusName(v.remote.value.name.path)
       && v.slot in input.rewritable
    then MergeExtra(kept, codec.carried(codec.content(v.local).value, kept, input.ids)) else kept
  }

  lemma PushSidecar(codec: Codec, input: Input, v: View, r: Remote, c: seq<byte>)
    requires Lawful(codec) && ProgressLaws(codec) && codec.content(v.local) == Some(c)
    requires PushTurn(codec, input, v, r, c).verdict != Failed
    ensures SeenAll(v, PushTurn(codec, input, v, r, c).effects).extra
      == if IsRepPlusName(r.name.path) && v.slot in input.rewritable
         then MergeExtra(v.extra, codec.carried(c, v.extra, input.ids)) else v.extra
  {
    assert codec.content(c) == Some(c);
    var u := codec.uploaded(r.name.path, c, v.extra, input.ids).value;
    assert UploadCarries(codec, r.name.path, c, v.extra, input.ids);
    var learn, store := PushExtra(codec, input, v, r.name.path, u), StoreOf(v, SteamBeforePush, r.bytes);
    var commit := Upload(v.account, v.slot, Verified(r.name, u));
    assert PushTurn(codec, input, v, r, c).effects == (learn + [store]) + [commit];
    SeenLast(v, learn + [store], commit);
    SeenLast(v, learn, store);
    if learn != [] {
      assert learn == [] + [learn[0]];
      SeenLast(v, [], learn[0]);
    }
  }

  predicate NoKeep(effects: seq<Effect>)
  {
    forall e <- effects :: !e.KeepExtra?
  }

  lemma {:induction false} ExtraUnseen(v: View, effects: seq<Effect>)
    requires NoKeep(effects)
    ensures SeenAll(v, effects).extra == v.extra
    decreases |effects|
  {
    if effects != [] {
      assert effects[0] in effects;
      ExtraUnseen(Seen(v, effects[0]), effects[1..]);
    }
  }

  lemma CompareKeepsNothing(codec: Codec, input: Input, v: View, r: Remote, c: seq<byte>, n: seq<byte>)
    requires !(input.manual && if c == n then codec.needsRepair(r.bytes) else v.base == Some(n))
    ensures NoKeep(CompareTurn(codec, input, v, r, c, n).effects)
  {
    AgreementIsRecognized(v.base, c, n);
    TransfersOverwriteBaseOnly(v.base, c, n);
  }

  lemma FailedPushKeepsNothing(codec: Codec, input: Input, v: View, r: Remote, c: seq<byte>)
    requires codec.uploaded(r.name.path, c, v.extra, input.ids).None?
    ensures PushTurn(codec, input, v, r, c).effects == []
  {
  }

  lemma PresentSidecar(codec: Codec, input: Input, v: View)
    requires Lawful(codec) && ProgressLaws(codec) && codec.content(v.local).Some? && v.remote.Some?
    requires codec.normalized(v.remote.value.bytes).Some?
    ensures SeenAll(v, TurnOf(codec, input, v).effects).extra == SidecarAfter(codec, input, v)
  {
    var r, c, n := v.remote.value, codec.content(v.local).value, codec.normalized(v.remote.value.bytes).value;
    var learned, learn := LearnedView(codec, input, v, r.bytes), LearnEffects(codec, input, v, r.bytes);
    var rest := ResolveTurn(codec, input, learned, r, c, n).effects;
    LearnedIsSeen(codec, input, v, r.bytes);
    SeenAppend(v, learn, rest);
    if PushDue(codec, input, v) {
      DueTurn(codec, input, v);
      if PushFails(codec, input, v) {
        FailedPushKeepsNothing(codec, input, learned, r, c);
        assert learn + [] == learn;
      } else {
        PushSidecar(codec, input, learned, r, c);
        SeenAppend(v, learn, PushTurn(codec, input, learned, r, c).effects);
      }
    } else {
      if !PullMatches(v.pull, r) {
        CompareKeepsNothing(codec, input, learned, r, c, n);
      }
      ExtraUnseen(learned, rest);
    }
  }

  lemma TurnSidecar(codec: Codec, input: Input, v: View)
    requires Lawful(codec) && ProgressLaws(codec)
    ensures SeenAll(v, TurnOf(codec, input, v).effects).extra == SidecarAfter(codec, input, v)
  {
    if codec.content(v.local).Some? && v.remote.Some? {
      if codec.normalized(v.remote.value.bytes).Some? {
        PresentSidecar(codec, input, v);
      } else {
        LearnedIsSeen(codec, input, v, v.remote.value.bytes);
      }
    }
  }

  /** A completed run leaves exactly this sidecar to a slot that it takes up, and every other as it was. */
  lemma SyncSidecars(codec: Codec, input: Input, w: World, slots: seq<nat>, slot: nat)
    requires Lawful(codec) && ProgressLaws(codec) && Orderly(w) && Distinct(slots) && Completes(codec, input, w, slots)
    requires slot in w.locals && w.saved.account.Some?
    ensures ExtraOf(Synced(codec, input, w, slots), slot)
      == if TakesUp(input, w, slots, slot) then SidecarAfter(codec, input, Now(w, slot)) else ExtraOf(w, slot)
  {
    CompletedSync(codec, input, w, slots, slot);
    if TakesUp(input, w, slots, slot) {
      TurnSidecar(codec, input, Now(w, slot));
    }
  }

  // Choices.

  function ForcedSidecar(codec: Codec, input: Input, v: View, useLocal: bool): Extra
    requires v.remote.Some?
  {
    if codec.content(v.local).None? then v.extra else
    var r, c := v.remote.value, codec.content(v.local).value;
    var kept := ForcedView(codec, input, v, r).extra;
    if useLocal && codec.uploaded(r.name.path, c, kept, input.ids).Some? && IsRepPlusName(r.name.path)
       && v.slot in input.rewritable
    then MergeExtra(kept, codec.carried(c, kept, input.ids)) else kept
  }

  /** The same for a choice over a Steam file, which learns from it only if it is recognized undecoded. */
  lemma ForceSidecar(codec: Codec, input: Input, v: View, useLocal: bool, name: Name)
    requires Lawful(codec) && ProgressLaws(codec) && v.remote.Some?
    ensures SeenAll(v, ForceTurn(codec, input, v, useLocal, name).effects).extra
      == ForcedSidecar(codec, input, v, useLocal)
    ensures codec.content(v.local).Some? ==>
      var forced := codec.forced(v.remote.value.bytes);
      ForcedView(codec, input, v, v.remote.value).extra
      == if forced.Some? && v.slot in input.writable then MergeExtra(v.extra, forced.value) else v.extra
  {
    if codec.content(v.local).Some? {
      var r, c := v.remote.value, codec.content(v.local).value;
      var learned := ForcedView(codec, input, v, r);
      var push := if useLocal then PushTurn(codec, input, learned, r, c).effects else [];
      ForcedIsSeen(codec, input, v, r);
      SeenAppend(v, BeforeForce(codec, input, v, r), push);
      if useLocal && codec.uploaded(r.name.path, c, learned.extra, input.ids).Some? {
        PushSidecar(codec, input, learned, r, c);
      }
    }
  }

  lemma {:induction false} LocalsKept(w: World, effects: seq<Effect>)
    requires NoReplacement(effects)
    ensures ApplyAll(w, effects).locals == w.locals
    decreases |effects|
  {
    if effects != [] {
      LocalsKept(Apply(w, effects[0]), effects[1..]);
    }
  }

  /** The choice of the device's side leaves every save on the device and every queued pull as they were. */
  lemma ForceLeavesDevice(codec: Codec, input: Input, w: World, slot: nat, name: Name)
    requires slot in w.locals && w.saved.account.Some?
    requires ForceTurn(codec, input, Now(w, slot), true, name).verdict != Failed
    ensures var after := ApplyAll(w, ForceEffects(codec, input, w, slot, true, name));
      && after.locals == w.locals && after.saved.pulls == w.saved.pulls && after.saved.account == w.saved.account
  {
    var t := ForceTurn(codec, input, Now(w, slot), true, name);
    var st := Queued(After(w.saved, slot, t), Now(w, slot), true);
    DevicePushed(codec, input, Now(w, slot), name);
    ForceDropsNothing(codec, input, Now(w, slot), name);
    LocalsKept(w, t.effects);
    AppliedLast(w, t.effects, Save(st));
  }

  lemma ForceDropsNothing(codec: Codec, input: Input, v: View, name: Name)
    ensures !ForceTurn(codec, input, v, true, name).dropPull
  {
  }

  /** The first upload of a slot, to the last byte: under the name given, with what the sidecar and Steam's ids add. */
  lemma FirstUpload(codec: Codec, input: Input, w: World, slot: nat, name: Name, c: seq<byte>, u: seq<byte>)
    requires Keyed(w.saved.files) && name.slot == slot && slot in w.locals && w.saved.account.Some?
    requires (w.saved.account.value, slot) !in w.remotes && codec.content(w.locals[slot]) == Some(c)
    requires codec.uploaded(name.path, c, ExtraOf(w, slot), input.ids) == Some(u)
    ensures var after := ApplyAll(w, ForceEffects(codec, input, w, slot, true, name));
      && after.remotes == w.remotes[(w.saved.account.value, slot) := Remote(name, u, true)]
      && after.locals == w.locals
      && after.extras == (if IsRepPlusName(name.path) && codec.extract(u).Some? && slot in input.rewritable
                          then w.extras[slot := MergeExtra(ExtraOf(w, slot), codec.extract(u).value)] else w.extras)
      && after.saved == w.saved.(files := after.saved.files)
      && EntryOf(after.saved.files, slot) == Some(Entry(slot, name, c))
  {
    var v := Now(w, slot);
    var learn, store := PushExtra(codec, input, v, name.path, u), StoreOf(v, LocalFirstSync, v.local);
    var commit := Upload(v.account, slot, Verified(name, u));
    var save := Save(After(w.saved, slot, NewTurn(codec, input, v, c, name)));
    assert ForceEffects(codec, input, w, slot, true, name) == ((learn + [store]) + [commit]) + [save];
    AppliedLast(w, (learn + [store]) + [commit], save);
    AppliedLast(w, learn + [store], commit);
    AppliedLast(w, learn, store);
    assert learn != [] ==> learn[1..] == [];
    UpsertEntries(w.saved.files, Entry(slot, name, c), slot);
  }

  lemma AppliedLast(w: World, effects: seq<Effect>, last: Effect)
    ensures ApplyAll(w, effects + [last]) == Apply(ApplyAll(w, effects), last)
  {
    ApplyAppend(w, effects, [last]);
    assert [last][1..] == [];
  }

  // Restores.

  /** A restore, to the last byte: what cannot be read changes nothing, what cannot be converted only the sidecar. */
  lemma RestoreExactly(codec: Codec, input: Input, w: World, slot: nat, bytes: seq<byte>)
    ensures var after := ApplyAll(w, RestoreEffects(codec, input, w, slot, bytes));
      var learned, meant := codec.learned(bytes), codec.normalized(bytes);
      if codec.content(bytes).None? then after == w else
        && after.saved == w.saved && after.remotes == w.remotes
        && after.backups
           == w.backups + (if slot in w.locals then [Backup(slot, LocalBeforeRestore, w.locals[slot])] else [])
        && after.extras == (if learned.Some? && slot in input.writable
                            then w.extras[slot := MergeExtra(ExtraOf(w, slot), learned.value)] else w.extras)
        && after.locals == (if meant.None? then w.locals
                            else w.locals[slot := if learned.Some? then meant.value else bytes])
  {
    if codec.content(bytes).Some? {
      var before := if slot in w.locals then [Store(Backup(slot, LocalBeforeRestore, w.locals[slot]))] else [];
      var back := WriteBack(codec, input, w, slot, bytes);
      ApplyAppend(w, before, back);
      assert before != [] ==> before[1..] == [];
      var w1 := ApplyAll(w, before);
      WriteBackExactly(codec, input, w, w1, slot, bytes);
    }
  }

  lemma WriteBackExactly(codec: Codec, input: Input, w: World, w1: World, slot: nat, bytes: seq<byte>)
    requires w1 == w.(backups := w1.backups)
    ensures var after := ApplyAll(w1, WriteBack(codec, input, w, slot, bytes));
      var learned, meant := codec.learned(bytes), codec.normalized(bytes);
      && after.saved == w.saved && after.remotes == w.remotes && after.backups == w1.backups
      && after.extras == (if learned.Some? && slot in input.writable
                          then w.extras[slot := MergeExtra(ExtraOf(w, slot), learned.value)] else w.extras)
      && after.locals == (if meant.None? then w.locals
                          else w.locals[slot := if learned.Some? then meant.value else bytes])
  {
    var learned, meant := codec.learned(bytes), codec.normalized(bytes);
    var keep := if learned.Some? then KeepIfWritable(input, slot, MergeExtra(ExtraOf(w, slot), learned.value)) else [];
    var put := if meant.Some? then [ReplaceLocal(slot, if learned.Some? then meant.value else bytes)] else [];
    assert WriteBack(codec, input, w, slot, bytes) == keep + put;
    ApplyAppend(w1, keep, put);
    assert keep != [] ==> keep[1..] == [];
    assert put != [] ==> put[1..] == [];
  }

  // Before a run.

  /** One save that cannot be read, among those that a synchronization would take up, and it does nothing at all. */
  lemma UnreadableStopsRun(codec: Codec, input: Input, w: World, slots: seq<nat>, slot: nat)
    requires w.saved.account.Some? && TakesUp(input, w, slots, slot) && codec.content(w.locals[slot]).None?
    ensures SyncEffects(codec, input, w, slots) == [] && Synced(codec, input, w, slots) == w
    ensures !Completes(codec, input, w, slots)
  {
    assert slot in Selected(input, w, w.saved.account.value, slots);
  }
}
