/** Which copies are kept, exactly: by a run, cut off anywhere, by a choice, and by a restore. */
module SyncCopies {
  import opened Bytes
  import opened SyncDecision
  import opened SyncCodec
  import opened SyncModel
  import opened SyncRuns
  import opened SyncSafety
  import opened SyncHistory
  import opened SyncProvenance
  import opened SyncConvergence
  import opened SyncVerdicts

  /** The backups among some effects, in order. */
  function Copies(effects: seq<Effect>): seq<Backup>
  {
    if effects == [] then [] else CopyIn(effects[0]) + Copies(effects[1..])
  }

  function CopyIn(e: Effect): seq<Backup> { if e.Store? then [e.backup] else [] }

  lemma Associates(a: seq<Backup>, b: seq<Backup>, c: seq<Backup>)
    ensures a + (b + c) == (a + b) + c
  {
  }

  lemma {:induction false} CopiesKept(w: World, effects: seq<Effect>)
    ensures ApplyAll(w, effects).backups == w.backups + Copies(effects)
    decreases |effects|
  {
    if effects != [] {
      CopiesKept(Apply(w, effects[0]), effects[1..]);
    }
  }

  lemma {:induction false} CopiesAppend(a: seq<Effect>, b: seq<Effect>)
    ensures Copies(a + b) == Copies(a) + Copies(b)
  {
    if a == [] {
      assert a + b == b;
    } else {
      assert (a + b)[0] == a[0] && (a + b)[1..] == a[1..] + b;
      CopiesAppend(a[1..], b);
      assert Copies(a + b) == CopyIn(a[0]) + Copies(a[1..] + b);
      Associates(CopyIn(a[0]), Copies(a[1..]), Copies(b));
    }
  }

  lemma OneCopy(b: Backup)
    ensures Copies([Store(b)]) == [b]
  {
    assert [Store(b)][1..] == [];
  }

  lemma NoCopy(e: Effect)
    requires !e.Store?
    ensures Copies([e]) == []
  {
    assert [e][1..] == [];
  }

  lemma TwoCopies(a: Effect, b: Effect)
    ensures Copies([a, b]) == Copies([a]) + Copies([b])
  {
    assert [a, b] == [a] + [b];
    CopiesAppend([a], [b]);
  }

  // One slot's turn.

  lemma LearnKeepsNoCopy(codec: Codec, input: Input, v: View, raw: seq<byte>)
    ensures Copies(LearnEffects(codec, input, v, raw)) == []
  {
    if LearnEffects(codec, input, v, raw) != [] {
      NoCopy(LearnEffects(codec, input, v, raw)[0]);
    }
  }

  lemma PushCopies(codec: Codec, input: Input, v: View, r: Remote, c: seq<byte>)
    ensures Copies(PushTurn(codec, input, v, r, c).effects)
      == if codec.uploaded(r.name.path, c, v.extra, input.ids).None? then []
         else [Backup(v.slot, SteamBeforePush, r.bytes)]
  {
    var upload := codec.uploaded(r.name.path, c, v.extra, input.ids);
    if upload.Some? {
      var learn := PushExtra(codec, input, v, r.name.path, upload.value);
      var store := StoreOf(v, SteamBeforePush, r.bytes);
      var commit := Upload(v.account, v.slot, Verified(r.name, upload.value));
      if learn != [] {
        NoCopy(learn[0]);
      }
      OneCopy(store.backup);
      NoCopy(commit);
      TwoCopies(store, commit);
      CopiesAppend(learn, [store, commit]);
    }
  }

  lemma BothCopies(v: View, r: Remote, local: Source, steam: Source)
    ensures Copies([StoreOf(v, local, v.local), StoreOf(v, steam, r.bytes)])
      == [Backup(v.slot, local, v.local), Backup(v.slot, steam, r.bytes)]
  {
    OneCopy(Backup(v.slot, local, v.local));
    OneCopy(Backup(v.slot, steam, r.bytes));
    TwoCopies(StoreOf(v, local, v.local), StoreOf(v, steam, r.bytes));
  }

  lemma PullCopies(v: View, r: Remote, n: seq<byte>)
    ensures Copies(PullTurn(v, r, n).effects) == [Backup(v.slot, LocalBeforePull, v.local)]
  {
    OneCopy(Backup(v.slot, LocalBeforePull, v.local));
    NoCopy(ReplaceLocal(v.slot, n));
    TwoCopies(StoreOf(v, LocalBeforePull, v.local), ReplaceLocal(v.slot, n));
  }

  lemma CompareCopies(codec: Codec, input: Input, v: View, r: Remote, c: seq<byte>, n: seq<byte>)
    ensures Copies(CompareTurn(codec, input, v, r, c, n).effects) ==
      if input.manual && (if c == n then codec.needsRepair(r.bytes) else v.base == Some(n)) then
        if codec.uploaded(r.name.path, c, v.extra, input.ids).None? then []
        else [Backup(v.slot, SteamBeforePush, r.bytes)]
      else if c == n || v.base == Some(n) then []
      else if v.base == Some(c) then
        if v.slot in input.allowed then [Backup(v.slot, LocalBeforePull, v.local)] else []
      else if v.base.None? then [Backup(v.slot, LocalFirstSync, v.local), Backup(v.slot, SteamFirstSync, r.bytes)]
      else [Backup(v.slot, LocalConflict, v.local), Backup(v.slot, SteamConflict, r.bytes)]
  {
    AgreementIsRecognized(v.base, c, n);
    TransfersOverwriteBaseOnly(v.base, c, n);
    PushCopies(codec, input, v, r, c);
    PullCopies(v, r, n);
    BothCopies(v, r, LocalFirstSync, SteamFirstSync);
    BothCopies(v, r, LocalConflict, SteamConflict);
  }

  /** The copies that a turn keeps, from what the slot looked like before. */
  function TurnCopies(codec: Codec, input: Input, v: View): seq<Backup>
  {
    if codec.content(v.local).None? then []
    else if v.remote.None? then [Backup(v.slot, LocalFirstSync, v.local)]
    else
      var steam := v.remote.value.bytes;
      if codec.content(steam).None? then [Backup(v.slot, SteamInvalid, steam)]
      else if PullDue(codec, input, v) then [Backup(v.slot, LocalBeforePull, v.local)]
      else if PushDue(codec, input, v) && !PushFails(codec, input, v) then [Backup(v.slot, SteamBeforePush, steam)]
      else if Diverged(codec, v) && v.base.None? then
        [Backup(v.slot, LocalFirstSync, v.local), Backup(v.slot, SteamFirstSync, steam)]
      else if Diverged(codec, v) then
        [Backup(v.slot, LocalConflict, v.local), Backup(v.slot, SteamConflict, steam)]
      else []
  }

  lemma ResolveCopies(codec: Codec, input: Input, v: View, r: Remote, c: seq<byte>, n: seq<byte>)
    ensures Copies(ResolveTurn(codec, input, v, r, c, n).effects) ==
      if !PullMatches(v.pull, r) then Copies(CompareTurn(codec, input, v, r, c, n).effects)
      else if v.slot in input.allowed then [Backup(v.slot, LocalBeforePull, v.local)] else []
  {
    PullCopies(v, r, n);
  }

  /** A turn keeps exactly these copies. */
  lemma TurnKeepsCopies(codec: Codec, input: Input, v: View)
    requires Lawful(codec)
    ensures Copies(TurnOf(codec, input, v).effects) == TurnCopies(codec, input, v)
  {
    if codec.content(v.local).None? {
    } else if v.remote.None? {
      OneCopy(Backup(v.slot, LocalFirstSync, v.local));
    } else if codec.content(v.remote.value.bytes).None? {
      OneCopy(Backup(v.slot, SteamInvalid, v.remote.value.bytes));
    } else {
      PresentCopies(codec, input, v);
    }
  }

  lemma ResolvedCopies(codec: Codec, input: Input, v: View, r: Remote, c: seq<byte>, n: seq<byte>)
    requires v.remote == Some(r) && codec.content(r.bytes).Some?
    requires codec.content(v.local) == Some(c) && codec.normalized(r.bytes) == Some(n)
    ensures Copies(ResolveTurn(codec, input, v, r, c, n).effects) ==
      if PullDue(codec, input, v) then [Backup(v.slot, LocalBeforePull, v.local)]
      else if PushDue(codec, input, v) && codec.uploaded(r.name.path, c, v.extra, input.ids).Some? then
        [Backup(v.slot, SteamBeforePush, r.bytes)]
      else if Diverged(codec, v) && v.base.None? then
        [Backup(v.slot, LocalFirstSync, v.local), Backup(v.slot, SteamFirstSync, r.bytes)]
      else if Diverged(codec, v) then
        [Backup(v.slot, LocalConflict, v.local), Backup(v.slot, SteamConflict, r.bytes)]
      else []
  {
    ResolveCopies(codec, input, v, r, c, n);
    CompareCopies(codec, input, v, r, c, n);
  }

  lemma PresentCopies(codec: Codec, input: Input, v: View)
    requires Lawful(codec) && codec.content(v.local).Some? && v.remote.Some?
    requires codec.content(v.remote.value.bytes).Some?
    ensures Copies(TurnOf(codec, input, v).effects) == TurnCopies(codec, input, v)
  {
    var r := v.remote.value;
    LearnKeepsNoCopy(codec, input, v, r.bytes);
    if codec.normalized(r.bytes).Some? {
      var learned := LearnedView(codec, input, v, r.bytes);
      var c, n := codec.content(v.local).value, codec.normalized(r.bytes).value;
      CopiesAppend(LearnEffects(codec, input, v, r.bytes), ResolveTurn(codec, input, learned, r, c, n).effects);
      ResolvedCopies(codec, input, learned, r, c, n);
      SameDues(codec, input, v, learned);
    }
  }

  lemma SameDues(codec: Codec, input: Input, v: View, learned: View)
    requires learned == v.(extra := learned.extra)
    ensures PullDue(codec, input, learned) <==> PullDue(codec, input, v)
    ensures PushDue(codec, input, learned) <==> PushDue(codec, input, v)
    ensures Diverged(codec, learned) <==> Diverged(codec, v)
  {
  }

  // Runs.

  function OfSlot(backups: seq<Backup>, slot: nat): seq<Backup>
  {
    if backups == [] then [] else IfOfSlot(backups[0], slot) + OfSlot(backups[1..], slot)
  }

  function IfOfSlot(b: Backup, slot: nat): seq<Backup> { if b.slot == slot then [b] else [] }

  lemma OfSlotHead(first: Backup, rest: seq<Backup>, slot: nat)
    ensures OfSlot([first] + rest, slot) == IfOfSlot(first, slot) + OfSlot(rest, slot)
  {
    assert ([first] + rest)[1..] == rest;
  }

  lemma {:induction false} OfSlotAppend(a: seq<Backup>, b: seq<Backup>, slot: nat)
    ensures OfSlot(a + b, slot) == OfSlot(a, slot) + OfSlot(b, slot)
  {
    if a == [] {
      assert a + b == b;
    } else {
      assert a + b == [a[0]] + (a[1..] + b);
      OfSlotHead(a[0], a[1..] + b, slot);
      OfSlotAppend(a[1..], b, slot);
      Associates(IfOfSlot(a[0], slot), OfSlot(a[1..], slot), OfSlot(b, slot));
    }
  }

  lemma {:induction false} CopiesOfSlot(effects: seq<Effect>, slot: nat)
    ensures OfSlot(Copies(effects), slot) == Copies(Only(effects, slot))
  {
    if effects != [] {
      var rest, last := effects[..|effects| - 1], effects[|effects| - 1];
      assert effects == rest + [last];
      CopiesOfSlot(rest, slot);
      CopiesAppend(rest, [last]);
      OfSlotAppend(Copies(rest), Copies([last]), slot);
      LastCopy(last, slot);
      CopiesAppend(Only(rest, slot), if Concerns(last, slot) then [last] else []);
      assert Only(rest, slot) + [] == Only(rest, slot);
    }
  }

  lemma LastCopy(last: Effect, slot: nat)
    ensures OfSlot(Copies([last]), slot) == Copies(if Concerns(last, slot) then [last] else [])
  {
    if last.Store? {
      OneCopy(last.backup);
      assert [last.backup][1..] == [];
    } else {
      NoCopy(last);
    }
  }

  lemma {:induction false} CopiesOfPrefix(done: seq<Effect>, effects: seq<Effect>)
    requires done <= effects
    ensures Copies(done) <= Copies(effects)
  {
    assert effects == done + effects[|done|..];
    CopiesAppend(done, effects[|done|..]);
  }

  /**
   * A synchronization, wherever it ends, adds to a slot's backups a beginning of its turn's copies and takes
   * none away; one that completes adds exactly them.
   */
  lemma SyncKeepsCopies(codec: Codec, input: Input, w: World, slots: seq<nat>, cut: nat, slot: nat)
    requires Lawful(codec) && Orderly(w) && Distinct(slots) && slot in w.locals && w.saved.account.Some?
    ensures var after, copies := Next(codec, w, Sync(input, slots, cut)), TurnCopies(codec, input, Now(w, slot));
      && OfSlot(w.backups, slot) <= OfSlot(after.backups, slot) <= OfSlot(w.backups, slot) + copies
      && (slot !in slots ==> OfSlot(after.backups, slot) == OfSlot(w.backups, slot))
      && ((Completes(codec, input, w, slots) && TakesUp(input, w, slots, slot)
           && cut >= |SyncEffects(codec, input, w, slots)|) ==>
            OfSlot(after.backups, slot) == OfSlot(w.backups, slot) + copies)
  {
    var done := DoneTo(codec, input, w, slots, cut, slot);
    SyncDone(codec, input, w, slots, cut, slot);
    BackupsOfSlot(w, Take(SyncEffects(codec, input, w, slots), cut), slot);
    TurnKeepsCopies(codec, input, Now(w, slot));
    CopiesOfPrefix(done, TurnOf(codec, input, Now(w, slot)).effects);
  }

  lemma BackupsOfSlot(w: World, effects: seq<Effect>, slot: nat)
    ensures OfSlot(ApplyAll(w, effects).backups, slot) == OfSlot(w.backups, slot) + Copies(Only(effects, slot))
  {
    CopiesKept(w, effects);
    OfSlotAppend(w.backups, Copies(effects), slot);
    CopiesOfSlot(effects, slot);
  }

  // Choices.

  /** The copies that a choice keeps: of both sides before anything else, and of Steam's file before a push. */
  function ChoiceCopies(codec: Codec, input: Input, v: View, useLocal: bool, name: Name): seq<Backup>
  {
    match (codec.content(v.local), v.remote)
    case (None, _) => []
    case (Some(c), None) =>
      if useLocal && codec.uploaded(name.path, c, v.extra, input.ids).Some?
      then [Backup(v.slot, LocalFirstSync, v.local)] else []
    case (Some(c), Some(r)) =>
      [Backup(v.slot, LocalBeforeForce, v.local), Backup(v.slot, SteamBeforeForce, r.bytes)]
      + if useLocal && codec.uploaded(r.name.path, c, ForcedView(codec, input, v, r).extra, input.ids).Some?
        then [Backup(v.slot, SteamBeforePush, r.bytes)] else []
  }

  lemma BeforeForceCopies(codec: Codec, input: Input, v: View, r: Remote)
    ensures Copies(BeforeForce(codec, input, v, r))
      == [Backup(v.slot, LocalBeforeForce, v.local), Backup(v.slot, SteamBeforeForce, r.bytes)]
  {
    var learn := ForcedEffects(codec, input, v, r);
    if learn != [] {
      NoCopy(learn[0]);
    }
    BothCopies(v, r, LocalBeforeForce, SteamBeforeForce);
    CopiesAppend(learn, [StoreOf(v, LocalBeforeForce, v.local), StoreOf(v, SteamBeforeForce, r.bytes)]);
  }

  lemma NewCopies(codec: Codec, input: Input, v: View, c: seq<byte>, name: Name)
    ensures Copies(NewTurn(codec, input, v, c, name).effects)
      == if codec.uploaded(name.path, c, v.extra, input.ids).None? then []
         else [Backup(v.slot, LocalFirstSync, v.local)]
  {
    var upload := codec.uploaded(name.path, c, v.extra, input.ids);
    if upload.Some? {
      var learn := PushExtra(codec, input, v, name.path, upload.value);
      var store, commit := StoreOf(v, LocalFirstSync, v.local), Upload(v.account, v.slot, Verified(name, upload.value));
      if learn != [] {
        NoCopy(learn[0]);
      }
      OneCopy(store.backup);
      NoCopy(commit);
      TwoCopies(store, commit);
      CopiesAppend(learn, [store, commit]);
    }
  }

  lemma ForceTurnCopies(codec: Codec, input: Input, v: View, useLocal: bool, name: Name)
    ensures Copies(ForceTurn(codec, input, v, useLocal, name).effects) == ChoiceCopies(codec, input, v, useLocal, name)
  {
    match (codec.content(v.local), v.remote)
    case (None, _) =>
    case (Some(c), None) => NewCopies(codec, input, v, c, name);
    case (Some(c), Some(r)) =>
      var learned := ForcedView(codec, input, v, r);
      BeforeForceCopies(codec, input, v, r);
      PushCopies(codec, input, learned, r, c);
      CopiesAppend(BeforeForce(codec, input, v, r),
                   if useLocal then PushTurn(codec, input, learned, r, c).effects else []);
  }

  /** A choice that was not cut off, whether or not it failed, adds exactly its copies to the backups. */
  lemma ForceKeepsCopies(codec: Codec, input: Input, w: World, slot: nat, useLocal: bool, name: Name)
    requires slot in w.locals && w.saved.account.Some?
    ensures ApplyAll(w, ForceEffects(codec, input, w, slot, useLocal, name)).backups
      == w.backups + ChoiceCopies(codec, input, Now(w, slot), useLocal, name)
  {
    var t := ForceTurn(codec, input, Now(w, slot), useLocal, name);
    CopiesKept(w, ForceEffects(codec, input, w, slot, useLocal, name));
    ForceTurnCopies(codec, input, Now(w, slot), useLocal, name);
    if t.verdict != Failed {
      var save := Save(Queued(After(w.saved, slot, t), Now(w, slot), useLocal));
      NoCopy(save);
      CopiesAppend(t.effects, [save]);
    }
  }

  /** Anything that a choice commits, on Steam or in the stored state, comes after the copies it owes. */
  ghost predicate CopiedFirst(v: View, effects: seq<Effect>)
  {
    forall k | 0 <= k < |effects| && (effects[k].Upload? || effects[k].Save?) ::
      if v.remote.Some? then
        StoreOf(v, LocalBeforeForce, v.local) in effects[..k]
        && StoreOf(v, SteamBeforeForce, v.remote.value.bytes) in effects[..k]
      else StoreOf(v, LocalFirstSync, v.local) in effects[..k]
  }

  /** Wherever a choice is cut off, what it has committed it had copied before. */
  lemma ForceCopiesFirst(codec: Codec, input: Input, w: World, slot: nat, useLocal: bool, name: Name, cut: nat)
    requires slot in w.locals && w.saved.account.Some?
    ensures CopiedFirst(Now(w, slot), Take(ForceEffects(codec, input, w, slot, useLocal, name), cut))
  {
    var v, effects := Now(w, slot), ForceEffects(codec, input, w, slot, useLocal, name);
    var done := Take(effects, cut);
    forall k | 0 <= k < |done| && (done[k].Upload? || done[k].Save?)
      ensures if v.remote.Some? then
          StoreOf(v, LocalBeforeForce, v.local) in done[..k]
          && StoreOf(v, SteamBeforeForce, v.remote.value.bytes) in done[..k]
        else StoreOf(v, LocalFirstSync, v.local) in done[..k]
    {
      assert done[..k] == effects[..k] && done[k] == effects[k];
      if v.remote.Some? {
        CommitOver(codec, input, w, slot, useLocal, name, k);
      } else {
        CommitNew(codec, input, w, slot, useLocal, name, k);
      }
    }
  }

  lemma BeforeForceShape(codec: Codec, input: Input, v: View, r: Remote)
    ensures var first := BeforeForce(codec, input, v, r);
      && StoreOf(v, LocalBeforeForce, v.local) in first && StoreOf(v, SteamBeforeForce, r.bytes) in first
      && forall i | 0 <= i < |first| :: !first[i].Upload? && !first[i].Save?
  {
    var first := BeforeForce(codec, input, v, r);
    assert first[|first| - 2] == StoreOf(v, LocalBeforeForce, v.local);
    assert first[|first| - 1] == StoreOf(v, SteamBeforeForce, r.bytes);
  }

  lemma ForceStarts(codec: Codec, input: Input, w: World, slot: nat, useLocal: bool, name: Name)
    requires slot in w.locals && w.saved.account.Some? && Now(w, slot).remote.Some?
    requires ForceEffects(codec, input, w, slot, useLocal, name) != []
    ensures BeforeForce(codec, input, Now(w, slot), Now(w, slot).remote.value)
      <= ForceEffects(codec, input, w, slot, useLocal, name)
  {
  }

  lemma CommitOver(codec: Codec, input: Input, w: World, slot: nat, useLocal: bool, name: Name, k: nat)
    requires slot in w.locals && w.saved.account.Some? && Now(w, slot).remote.Some?
    requires var effects := ForceEffects(codec, input, w, slot, useLocal, name);
      k < |effects| && (effects[k].Upload? || effects[k].Save?)
    ensures var v, before := Now(w, slot), ForceEffects(codec, input, w, slot, useLocal, name)[..k];
      StoreOf(v, LocalBeforeForce, v.local) in before && StoreOf(v, SteamBeforeForce, v.remote.value.bytes) in before
  {
    var v, effects := Now(w, slot), ForceEffects(codec, input, w, slot, useLocal, name);
    ForceStarts(codec, input, w, slot, useLocal, name);
    BeforeForceShape(codec, input, v, v.remote.value);
    StartStays(BeforeForce(codec, input, v, v.remote.value), effects, k);
  }

  lemma StartStays(first: seq<Effect>, effects: seq<Effect>, k: nat)
    requires first <= effects && k < |effects| && (effects[k].Upload? || effects[k].Save?)
    requires forall i | 0 <= i < |first| :: !first[i].Upload? && !first[i].Save?
    ensures forall e <- first :: e in effects[..k]
  {
    assert k >= |first|;
    forall i | 0 <= i < |first| ensures first[i] in effects[..k] {
      assert effects[..k][i] == first[i];
    }
  }

  lemma CommitNew(codec: Codec, input: Input, w: World, slot: nat, useLocal: bool, name: Name, k: nat)
    requires slot in w.locals && w.saved.account.Some? && Now(w, slot).remote.None?
    requires var effects := ForceEffects(codec, input, w, slot, useLocal, name);
      k < |effects| && (effects[k].Upload? || effects[k].Save?)
    ensures var v := Now(w, slot);
      StoreOf(v, LocalFirstSync, v.local) in ForceEffects(codec, input, w, slot, useLocal, name)[..k]
  {
    var v, effects := Now(w, slot), ForceEffects(codec, input, w, slot, useLocal, name);
    var upload := codec.uploaded(name.path, codec.content(v.local).value, v.extra, input.ids).value;
    var learn := PushExtra(codec, input, v, name.path, upload);
    assert effects[|learn|] == StoreOf(v, LocalFirstSync, v.local);
    assert k > |learn|;
    assert effects[..k][|learn|] == effects[|learn|];
  }
}
