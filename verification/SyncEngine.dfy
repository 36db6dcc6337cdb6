/** The engine that carries synchronizations out, step by step, on the world it owns. */
module SyncEngine {
  import opened Bytes
  import opened Conversion
  import opened SyncDecision
  import opened SyncCodec
  import opened SyncModel
  import opened SyncRuns
  import opened SyncSafety
  import opened SyncConvergence

  /** What is left of an operation's effects once the first ones happened. */
  lemma Then(w: World, first: seq<Effect>, rest: seq<Effect>, cut: nat)
    ensures cut >= |first| ==>
      ApplyAll(w, Take(first + rest, cut)) == ApplyAll(ApplyAll(w, first), Take(rest, cut - |first|))
    ensures cut <= |first| ==> Take(first + rest, cut) == Take(first, cut)
    ensures cut >= |first| ==> Take(first, cut) == first
  {
    TakeAppend(first, rest, cut);
    if cut >= |first| {
      ApplyAppend(w, first, Take(rest, cut - |first|));
      assert cut == |first| ==> Take(rest, 0) == [] && first + [] == first;
    }
  }

  function Spent(budget: nat, effects: seq<Effect>): nat
  {
    if budget >= |effects| then budget - |effects| else 0
  }

  /** Removes every entry of the slot, then keeps the new one under its name. */
  method UpsertState(files: map<Name, Entry>, e: Entry) returns (after: map<Name, Entry>)
    ensures after == Upsert(files, e)
  {
    after := files;
    var stale: set<Name> := set name | name in files && files[name].slot == e.slot;
    while stale != {}
      invariant forall name <- stale :: name in files && files[name].slot == e.slot
      invariant after == map name | name in files && (files[name].slot != e.slot || name in stale) :: files[name]
      decreases |stale|
    {
      var name :| name in stale;
      after := after - {name};
      stale := stale - {name};
    }
    assert after == map name | name in files && files[name].slot != e.slot :: files[name];
    after := after[e.name := e];
  }

  method FindEntry(files: map<Name, Entry>, slot: nat) returns (found: Option<Entry>)
    requires Keyed(files)
    ensures found == EntryOf(files, slot)
  {
    var names := files.Keys;
    found := None;
    while names != {}
      invariant names <= files.Keys
      invariant found.None?
      invariant forall name <- files.Keys - names :: files[name].slot != slot
      decreases |names|
    {
      var name :| name in names;
      if files[name].slot == slot {
        found := Some(files[name]);
        assert HasEntry(files, slot);
        return;
      }
      names := names - {name};
    }
  }

  /** What the program shows, from the choices that are pending and the number of uploads that wait. */
  method ReportPhase(verdicts: seq<Verdict>) returns (phase: Phase)
    requires Failed !in verdicts
    ensures phase == PhaseOf(verdicts)
  {
    var pending: seq<Kind>, uploadsWaiting := [], 0;
    for i := 0 to |verdicts|
      invariant forall kind :: kind in pending <==> Choice(kind) in verdicts[..i]
      invariant uploadsWaiting > 0 <==> Waiting in verdicts[..i]
      invariant pending == [] && uploadsWaiting == 0 <==> forall verdict <- verdicts[..i] :: verdict == Settled
    {
      assert verdicts[..i + 1] == verdicts[..i] + [verdicts[i]];
      match verdicts[i]
      case Choice(kind) => pending := pending + [kind];
      case Waiting => uploadsWaiting := uploadsWaiting + 1;
      case _ =>
    }
    assert verdicts[..|verdicts|] == verdicts;
    if pending == [] && uploadsWaiting == 0 {
      phase := Idle;
    } else if TrueConflict in pending {
      phase := ConflictPhase;
    } else if RestartRequired in pending {
      phase := RestartPhase;
    } else if uploadsWaiting > 0 {
      phase := UploadPhase;
    } else {
      phase := FirstSyncPhase;
    }
  }

  class Engine {
    var locals: map<nat, seq<byte>>
    var remotes: map<(nat, nat), Remote>
    var extras: map<nat, Extra>
    var backups: seq<Backup>
    var saved: SyncState
    /** How many effects succeed before the process dies or one of them fails. */
    var budget: nat

    constructor (w: World, budget: nat)
      ensures TheWorld() == w && this.budget == budget
    {
      locals, remotes, extras, backups, saved := w.locals, w.remotes, w.extras, w.backups, w.saved;
      this.budget := budget;
    }

    function TheWorld(): World
      reads this
    {
      World(locals, remotes, extras, backups, saved)
    }

    /** The effects happened on `w`, as far as the budget went. */
    ghost predicate Did(w: World, cut: nat, effects: seq<Effect>)
      reads this
    {
      TheWorld() == ApplyAll(w, Take(effects, cut)) && budget == Spent(cut, effects)
    }

    // Single effects.

    method SaveExtra(slot: nat, extra: Extra) returns (ok: bool)
      modifies this
      ensures Did(old(TheWorld()), old(budget), [KeepExtra(slot, extra)]) && ok == (old(budget) >= 1)
    {
      ok := budget > 0;
      if ok {
        extras := extras[slot := extra];
        budget := budget - 1;
      }
      OneEffect(old(TheWorld()), KeepExtra(slot, extra), old(budget));
    }

    method BackupBytes(slot: nat, source: Source, bytes: seq<byte>) returns (ok: bool)
      modifies this
      ensures Did(old(TheWorld()), old(budget), [Store(Backup(slot, source, bytes))]) && ok == (old(budget) >= 1)
    {
      ok := budget > 0;
      if ok {
        backups := backups + [Backup(slot, source, bytes)];
        budget := budget - 1;
      }
      OneEffect(old(TheWorld()), Store(Backup(slot, source, bytes)), old(budget));
    }

    method UploadVerified(account: nat, slot: nat, remote: Remote) returns (ok: bool)
      modifies this
      ensures Did(old(TheWorld()), old(budget), [Upload(account, slot, remote)]) && ok == (old(budget) >= 1)
    {
      ok := budget > 0;
      if ok {
        remotes := remotes[(account, slot) := remote];
        budget := budget - 1;
      }
      OneEffect(old(TheWorld()), Upload(account, slot, remote), old(budget));
    }

    method WriteLocal(slot: nat, bytes: seq<byte>) returns (ok: bool)
      modifies this
      ensures Did(old(TheWorld()), old(budget), [ReplaceLocal(slot, bytes)]) && ok == (old(budget) >= 1)
    {
      ok := budget > 0;
      if ok {
        locals := locals[slot := bytes];
        budget := budget - 1;
      }
      OneEffect(old(TheWorld()), ReplaceLocal(slot, bytes), old(budget));
    }

    method SaveState(state: SyncState) returns (ok: bool)
      modifies this
      ensures Did(old(TheWorld()), old(budget), [Save(state)]) && ok == (old(budget) >= 1)
    {
      ok := budget > 0;
      if ok {
        saved := state;
        budget := budget - 1;
      }
      OneEffect(old(TheWorld()), Save(state), old(budget));
    }

    static lemma OneEffect(w: World, e: Effect, cut: nat)
      ensures ApplyAll(w, Take([e], cut)) == if cut > 0 then Apply(w, e) else w
    {
      assert [e][1..] == [];
      assert cut == 0 ==> Take([e], cut) == [];
    }

    // Turns.

    /** The slot as the engine has it. */
    ghost predicate Sees(v: View)
      reads this
    {
      && v.slot in locals && v.local == locals[v.slot] && v.extra == ExtraOf(TheWorld(), v.slot)
      && v.remote == if (v.account, v.slot) in remotes then Some(remotes[(v.account, v.slot)]) else None
    }

    method KeepExtraIfWritable(input: Input, slot: nat, extra: Extra) returns (ok: bool)
      modifies this
      ensures Did(old(TheWorld()), old(budget), KeepIfWritable(input, slot, extra))
      ensures ok == (old(budget) >= |KeepIfWritable(input, slot, extra)|)
    {
      ok := true;
      if slot in input.writable {
        ok := SaveExtra(slot, extra);
      }
    }

    method PushOne(codec: Codec, input: Input, v: View, r: Remote, c: seq<byte>, st: SyncState)
      returns (ok: bool, after: SyncState)
      requires Sees(v)
      modifies this
      ensures var t := PushTurn(codec, input, v, r, c);
        && Did(old(TheWorld()), old(budget), t.effects)
        && (ok <==> t.verdict != Failed && old(budget) >= |t.effects|)
        && (ok ==> after == After(st, v.slot, t))
    {
      after := st;
      var stored := if v.slot in extras then extras[v.slot] else Extra([], []);
      var upload := codec.uploaded(r.name.path, c, stored, input.ids);
      if upload.None? {
        ok := false;
        return;
      }
      ghost var learn := PushExtra(codec, input, v, r.name.path, upload.value);
      ok := MergeUploaded(codec, input, v, r.name.path, upload.value);
      ghost var store := StoreOf(v, SteamBeforePush, r.bytes);
      ghost var commit := Upload(v.account, v.slot, Verified(r.name, upload.value));
      Then(old(TheWorld()), learn, [store, commit], old(budget));
      if !ok { return; }
      ok := BackupAndUpload(v, SteamBeforePush, r.bytes, Verified(r.name, upload.value));
      var files := UpsertState(st.files, Entry(v.slot, r.name, c));
      after := st.(files := files);
    }

    /** What a push replaces is backed up first; for a first upload, what it sends. */
    method BackupAndUpload(v: View, source: Source, bytes: seq<byte>, remote: Remote) returns (ok: bool)
      modifies this
      ensures Did(old(TheWorld()), old(budget), [StoreOf(v, source, bytes), Upload(v.account, v.slot, remote)])
      ensures ok <==> old(budget) >= 2
    {
      ghost var store, commit := StoreOf(v, source, bytes), Upload(v.account, v.slot, remote);
      assert [store] + [commit] == [store, commit];
      Then(TheWorld(), [store], [commit], budget);
      ok := BackupBytes(v.slot, source, bytes);
      if !ok { return; }
      ok := UploadVerified(v.account, v.slot, remote);
    }

    method PullOne(v: View, r: Remote, bytes: seq<byte>, st: SyncState) returns (ok: bool, after: SyncState)
      requires Sees(v)
      modifies this
      ensures Did(old(TheWorld()), old(budget), PullTurn(v, r, bytes).effects)
      ensures ok <==> old(budget) >= 2
      ensures ok ==> after == After(st, v.slot, PullTurn(v, r, bytes))
    {
      after := st;
      ghost var store, commit := StoreOf(v, LocalBeforePull, v.local), ReplaceLocal(v.slot, bytes);
      assert [store] + [commit] == [store, commit];
      Then(TheWorld(), [store], [commit], budget);
      ok := BackupBytes(v.slot, LocalBeforePull, locals[v.slot]);
      if !ok { return; }
      ok := WriteLocal(v.slot, bytes);
      var files := UpsertState(st.files, Entry(v.slot, r.name, bytes));
      after := st.(files := files);
    }

    method BackupBoth(v: View, r: Remote, local: Source, steam: Source) returns (ok: bool)
      requires Sees(v)
      modifies this
      ensures Did(old(TheWorld()), old(budget), [StoreOf(v, local, v.local), StoreOf(v, steam, r.bytes)])
      ensures ok <==> old(budget) >= 2
    {
      ghost var first, second := StoreOf(v, local, v.local), StoreOf(v, steam, r.bytes);
      assert [first] + [second] == [first, second];
      Then(TheWorld(), [first], [second], budget);
      ok := BackupBytes(v.slot, local, locals[v.slot]);
      if !ok { return; }
      ok := BackupBytes(v.slot, steam, r.bytes);
    }

    /** The three-way comparison and what follows from it. */
    method Compare(codec: Codec, input: Input, v: View, r: Remote, c: seq<byte>, n: seq<byte>, st: SyncState)
      returns (ok: bool, verdict: Verdict, after: SyncState)
      requires Sees(v)
      modifies this
      ensures var t := CompareTurn(codec, input, v, r, c, n);
        && Did(old(TheWorld()), old(budget), t.effects)
        && (ok <==> t.verdict != Failed && old(budget) >= |t.effects|)
        && (ok ==> verdict == t.verdict && after == After(st, v.slot, t))
    {
      ok, verdict, after := true, Settled, st;
      match Decide(v.base, c, n)
      case Unchanged => ok, verdict, after := CompareEqual(codec, input, v, r, c, n, st);
      case Converged => ok, verdict, after := CompareEqual(codec, input, v, r, c, n, st);
      case UploadLocal =>
        if input.manual {
          ok, after := PushOne(codec, input, v, r, c, st);
        } else {
          verdict := Waiting;
        }
      case DownloadRemote =>
        if v.slot in input.allowed {
          ok, after := PullOne(v, r, n, st);
        } else {
          verdict := Choice(RestartRequired);
        }
      case FirstSyncChoiceRequired =>
        ok := BackupBoth(v, r, LocalFirstSync, SteamFirstSync);
        verdict := Choice(FirstSync);
      case Conflict =>
        ok := BackupBoth(v, r, LocalConflict, SteamConflict);
        verdict := Choice(TrueConflict);
    }

    /** Equal sides: a manual run replaces a compressed file, and a new BASE is kept. */
    method CompareEqual(codec: Codec, input: Input, v: View, r: Remote, c: seq<byte>, n: seq<byte>, st: SyncState)
      returns (ok: bool, verdict: Verdict, after: SyncState)
      requires Sees(v) && Decide(v.base, c, n) in {Unchanged, Converged}
      modifies this
      ensures var t := CompareTurn(codec, input, v, r, c, n);
        && Did(old(TheWorld()), old(budget), t.effects)
        && (ok <==> t.verdict != Failed && old(budget) >= |t.effects|)
        && (ok ==> verdict == t.verdict && after == After(st, v.slot, t))
    {
      ok, verdict, after := true, Settled, st;
      var repair := codec.needsRepair(r.bytes);
      if repair && input.manual {
        ok, after := PushOne(codec, input, v, r, c, st);
        return;
      }
      if Decide(v.base, c, n) == Converged {
        var files := UpsertState(st.files, Entry(v.slot, r.name, c));
        after := st.(files := files);
      }
      if repair {
        verdict := Waiting;
      }
    }

    /** A queued pull comes first; one that no longer matches is dropped. */
    method Resolve(codec: Codec, input: Input, v: View, r: Remote, c: seq<byte>, n: seq<byte>, st: SyncState)
      returns (ok: bool, verdict: Verdict, after: SyncState)
      requires Sees(v) && v.pull == if v.slot in st.pulls then Some(st.pulls[v.slot]) else None
      modifies this
      ensures var t := ResolveTurn(codec, input, v, r, c, n);
        && Did(old(TheWorld()), old(budget), t.effects)
        && (ok <==> t.verdict != Failed && old(budget) >= |t.effects|)
        && (ok ==> verdict == t.verdict && after == After(st, v.slot, t))
    {
      ok, verdict, after := true, Settled, st;
      if v.slot in st.pulls {
        var requested := st.pulls[v.slot];
        var same := requested.name == r.name && requested.sha == Sha(r);
        if same && v.slot in input.allowed {
          ok, after := PullOne(v, r, n, st);
          after := after.(pulls := after.pulls - {v.slot});
          return;
        }
        if same {
          verdict := Choice(RestartRequired);
          return;
        }
        after := after.(pulls := after.pulls - {v.slot});
      }
      ok, verdict, after := Compare(codec, input, v, r, c, n, after);
    }

    method MergeUploaded(codec: Codec, input: Input, v: View, path: string, upload: seq<byte>) returns (ok: bool)
      requires Sees(v)
      modifies this
      ensures Did(old(TheWorld()), old(budget), PushExtra(codec, input, v, path, upload))
      ensures ok == (old(budget) >= |PushExtra(codec, input, v, path, upload)|)
    {
      ok := true;
      if IsRepPlusName(path) {
        var carried := codec.extract(upload);
        if carried.Some? {
          var stored := if v.slot in extras then extras[v.slot] else Extra([], []);
          if v.slot in input.rewritable {
            ok := SaveExtra(v.slot, MergeExtra(stored, carried.value));
          }
        }
      }
    }

    /** Repentance+ data on Steam goes into the sidecar first; a sidecar that cannot be written is skipped. */
    method Learn(codec: Codec, input: Input, v: View, raw: seq<byte>) returns (ok: bool, learned: View)
      requires Sees(v)
      modifies this
      ensures Did(old(TheWorld()), old(budget), LearnEffects(codec, input, v, raw))
      ensures ok == (old(budget) >= |LearnEffects(codec, input, v, raw)|)
      ensures ok ==> learned == LearnedView(codec, input, v, raw) && Sees(learned)
    {
      ok := true;
      var extra := codec.learned(raw);
      if extra.Some? {
        var stored := if v.slot in extras then extras[v.slot] else Extra([], []);
        ok := KeepExtraIfWritable(input, v.slot, MergeExtra(stored, extra.value));
        OneEffect(old(TheWorld()), KeepExtra(v.slot, MergeExtra(stored, extra.value)), old(budget));
      }
      learned := v.(extra := if v.slot in extras then extras[v.slot] else Extra([], []));
    }

    /** The slot as the world and the state in hand have it. */
    method Look(account: nat, slot: nat, st: SyncState) returns (v: View)
      requires slot in locals && Keyed(st.files)
      ensures v == ViewOf(TheWorld(), st, account, slot)
    {
      var prior := FindEntry(st.files, slot);
      v := View(account, slot, locals[slot],
                if (account, slot) in remotes then Some(remotes[(account, slot)]) else None,
                if slot in extras then extras[slot] else Extra([], []),
                if prior.Some? then Some(prior.value.base) else None,
                if slot in st.pulls then Some(st.pulls[slot]) else None);
    }

    method SyncSlot(codec: Codec, input: Input, account: nat, slot: nat, st: SyncState)
      returns (ok: bool, verdict: Verdict, after: SyncState)
      requires slot in locals && Keyed(st.files)
      modifies this
      ensures var t := TurnOf(codec, input, old(ViewOf(TheWorld(), st, account, slot)));
        && Did(old(TheWorld()), old(budget), t.effects)
        && (ok <==> t.verdict != Failed && old(budget) >= |t.effects|)
        && (ok ==> verdict == t.verdict && after == After(st, slot, t))
    {
      ok, verdict, after := true, Settled, st;
      var v := Look(account, slot, st);
      var c := codec.content(v.local);
      if c.None? {
        ok := false;
        return;
      }
      if v.remote.None? {
        ok := BackupBytes(slot, LocalFirstSync, locals[slot]);
        verdict := Choice(RemoteMissing);
        return;
      }
      var r := v.remote.value;
      if codec.content(r.bytes).None? {
        ok := BackupBytes(slot, SteamInvalid, r.bytes);
        ok := false;
        return;
      }
      ok, verdict, after := SyncPresent(codec, input, v, r, c.value, st);
    }

    /** Both sides can be read. */
    method SyncPresent(codec: Codec, input: Input, v: View, r: Remote, c: seq<byte>, st: SyncState)
      returns (ok: bool, verdict: Verdict, after: SyncState)
      requires Sees(v) && v.pull == if v.slot in st.pulls then Some(st.pulls[v.slot]) else None
      modifies this
      ensures var t := PresentTurn(codec, input, v, r, c);
        && Did(old(TheWorld()), old(budget), t.effects)
        && (ok <==> t.verdict != Failed && old(budget) >= |t.effects|)
        && (ok ==> verdict == t.verdict && after == After(st, v.slot, t))
    {
      verdict, after := Settled, st;
      ghost var learn := LearnEffects(codec, input, v, r.bytes);
      var learned;
      ok, learned := Learn(codec, input, v, r.bytes);
      var n := codec.normalized(r.bytes);
      if n.None? {
        ok := false;
        return;
      }
      ghost var rest := ResolveTurn(codec, input, LearnedView(codec, input, v, r.bytes), r, c, n.value);
      Then(old(TheWorld()), learn, rest.effects, old(budget));
      if !ok { return; }
      ok, verdict, after := Resolve(codec, input, learned, r, c, n.value, st);
    }

    // Operations.

    static lemma SelectedStep(input: Input, w: World, account: nat, slots: seq<nat>, i: nat, selected: seq<nat>)
      requires i < |slots|
      ensures var rest := Selected(input, w, account, slots[i + 1..]);
        selected + Selected(input, w, account, slots[i..])
        == if slots[i] in w.locals && (input.manual || (account, slots[i]) in w.remotes)
           then (selected + [slots[i]]) + rest else selected + rest
    {
      var rest := Selected(input, w, account, slots[i + 1..]);
      assert slots[i..][1..] == slots[i + 1..];
      assert selected + ([slots[i]] + rest) == (selected + [slots[i]]) + rest;
    }

    method SelectSlots(input: Input, account: nat, slots: seq<nat>) returns (selected: seq<nat>)
      ensures selected == Selected(input, TheWorld(), account, slots)
    {
      selected := [];
      for i := 0 to |slots|
        invariant selected + Selected(input, TheWorld(), account, slots[i..]) ==
          Selected(input, TheWorld(), account, slots)
      {
        SelectedStep(input, TheWorld(), account, slots, i, selected);
        if slots[i] in locals && (input.manual || (account, slots[i]) in remotes) {
          selected := selected + [slots[i]];
        }
      }
    }

    method AllReadable(codec: Codec, slots: seq<nat>) returns (ok: bool)
      requires forall slot <- slots :: slot in locals
      ensures ok <==> forall slot <- slots :: codec.content(locals[slot]).Some?
    {
      for i := 0 to |slots|
        invariant forall k :: 0 <= k < i ==> codec.content(locals[slots[k]]).Some?
      {
        if codec.content(locals[slots[i]]).None? {
          return false;
        }
      }
      return true;
    }

    /** Where a run stands: what was done, and that doing the rest completes the plan. */
    ghost predicate Midway(turn: View -> Turn, plan: Plan, w: World, cut: nat, done: seq<Effect>,
                           verdicts: seq<Verdict>, st: SyncState, account: nat, slots: seq<nat>)
      reads this
    {
      && (forall slot <- slots :: slot in locals) && Placed(TheWorld()) && Keyed(st.files)
      && cut >= |done| && TheWorld() == ApplyAll(w, done) && budget == cut - |done|
      && var rest := RunFrom(turn, TheWorld(), st, account, slots);
        plan == Plan(done + rest.effects, verdicts + rest.verdicts, rest.state)
    }

    /** The slots in order; the new state stays in memory. */
    method SyncSlots(codec: Codec, input: Input, account: nat, slots: seq<nat>, st: SyncState)
      returns (ok: bool, verdicts: seq<Verdict>, after: SyncState)
      requires (forall slot <- slots :: slot in locals) && Placed(TheWorld()) && Keyed(st.files)
      modifies this
      ensures var plan := RunFrom(TurnFn(codec, input), old(TheWorld()), st, account, slots);
        && Did(old(TheWorld()), old(budget), plan.effects)
        && (ok <==> plan.state.Some? && old(budget) >= |plan.effects|)
        && (ok ==> verdicts == plan.verdicts && after == plan.state.value)
    {
      ok, verdicts, after := true, [], st;
      ghost var turn := TurnFn(codec, input);
      ghost var plan := RunFrom(turn, TheWorld(), st, account, slots);
      ghost var done: seq<Effect> := [];
      for i := 0 to |slots|
        invariant ok && Midway(turn, plan, old(TheWorld()), old(budget), done, verdicts, after, account, slots[i..])
      {
        assert slots[i..][1..] == slots[i + 1..];
        var verdict;
        ok, verdict, after, done := SyncRound(codec, input, account, slots[i..], after, plan, old(TheWorld()),
          old(budget), done, verdicts);
        if !ok {
          return;
        }
        verdicts := verdicts + [verdict];
      }
      assert done + [] == done && done[..|done|] == done;
    }

    method SyncRound(codec: Codec, input: Input, account: nat, slots: seq<nat>, st: SyncState,
                     ghost plan: Plan, ghost w: World, ghost cut: nat, ghost done: seq<Effect>,
                     ghost verdicts: seq<Verdict>)
      returns (ok: bool, verdict: Verdict, after: SyncState, ghost done': seq<Effect>)
      requires slots != [] && Midway(TurnFn(codec, input), plan, w, cut, done, verdicts, st, account, slots)
      modifies this
      ensures !ok ==> Did(w, cut, plan.effects) && !(plan.state.Some? && cut >= |plan.effects|)
      ensures ok ==> Midway(TurnFn(codec, input), plan, w, cut, done', verdicts + [verdict], after, account, slots[1..])
    {
      ghost var turn := TurnFn(codec, input);
      ghost var w', cut' := TheWorld(), budget;
      ghost var t := turn(ViewOf(w', st, account, slots[0]));
      ok, verdict, after := SyncSlot(codec, input, account, slots[0], st);
      done' := done + t.effects;
      assert TheWorld() == ApplyAll(w', Take(t.effects, cut')) && budget == Spent(cut', t.effects);
      if ok {
        assert Take(t.effects, cut') == t.effects;
        TurnsAreOwn(codec, input);
        RoundGoesOn(turn, plan, w, done, verdicts, w', st, account, slots);
      } else {
        RoundStops(turn, plan, w, cut, done, verdicts, w', st, account, slots);
      }
    }

    /** A round that could not finish stops the run. */
    static lemma RoundStops(turn: View -> Turn, plan: Plan, w0: World, cut: nat, done: seq<Effect>,
                            verdicts: seq<Verdict>, w: World, st: SyncState, account: nat, slots: seq<nat>)
      requires slots != [] && (forall slot <- slots :: slot in w.locals) && cut >= |done| && w == ApplyAll(w0, done)
      requires var rest := RunFrom(turn, w, st, account, slots);
        plan == Plan(done + rest.effects, verdicts + rest.verdicts, rest.state)
      requires var t := turn(ViewOf(w, st, account, slots[0])); t.verdict == Failed || cut - |done| < |t.effects|
      ensures var t := turn(ViewOf(w, st, account, slots[0]));
        && ApplyAll(w0, Take(plan.effects, cut)) == ApplyAll(w, Take(t.effects, cut - |done|))
        && Spent(cut, plan.effects) == Spent(cut - |done|, t.effects)
        && !(plan.state.Some? && cut >= |plan.effects|)
    {
      var t := turn(ViewOf(w, st, account, slots[0]));
      LocalsStay(w, t.effects);
      Stopped(w0, cut, done, t.effects, RunFrom(turn, w, st, account, slots).effects);
    }

    /** Any other leaves the rest of the run to do. */
    static lemma RoundGoesOn(turn: View -> Turn, plan: Plan, w0: World, done: seq<Effect>, verdicts: seq<Verdict>,
                             w: World, st: SyncState, account: nat, slots: seq<nat>)
      requires slots != [] && (forall slot <- slots :: slot in w.locals)
      requires OwnTurns(turn) && Placed(w) && Keyed(st.files) && w == ApplyAll(w0, done)
      requires var rest := RunFrom(turn, w, st, account, slots);
        plan == Plan(done + rest.effects, verdicts + rest.verdicts, rest.state)
      requires turn(ViewOf(w, st, account, slots[0])).verdict != Failed
      ensures var t := turn(ViewOf(w, st, account, slots[0]));
        && (forall slot <- slots[1..] :: slot in ApplyAll(w, t.effects).locals)
        && Placed(ApplyAll(w, t.effects)) && Keyed(After(st, slots[0], t).files)
        && ApplyAll(w0, done + t.effects) == ApplyAll(w, t.effects)
        && var rest := RunFrom(turn, ApplyAll(w, t.effects), After(st, slots[0], t), account, slots[1..]);
          plan == Plan((done + t.effects) + rest.effects, (verdicts + [t.verdict]) + rest.verdicts, rest.state)
    {
      var t := turn(ViewOf(w, st, account, slots[0]));
      LocalsStay(w, t.effects);
      TurnKeepsOrder(turn, w, st, account, slots[0]);
      ApplyAppend(w0, done, t.effects);
      RoundOfPlan(turn, w, st, account, slots);
      var rest := RunFrom(turn, ApplyAll(w, t.effects), After(st, slots[0], t), account, slots[1..]);
      Associates(done, t.effects, rest.effects);
      Associates(verdicts, [t.verdict], rest.verdicts);
    }

    static lemma Associates<T>(a: seq<T>, b: seq<T>, c: seq<T>)
      ensures a + (b + c) == (a + b) + c
    {
    }

    static lemma RoundOfPlan(turn: View -> Turn, w: World, st: SyncState, account: nat, slots: seq<nat>)
      requires slots != [] && (forall slot <- slots :: slot in w.locals)
      requires turn(ViewOf(w, st, account, slots[0])).verdict != Failed
      ensures var t := turn(ViewOf(w, st, account, slots[0]));
        && (forall slot <- slots[1..] :: slot in ApplyAll(w, t.effects).locals)
        && var rest := RunFrom(turn, ApplyAll(w, t.effects), After(st, slots[0], t), account, slots[1..]);
          RunFrom(turn, w, st, account, slots)
          == Plan(t.effects + rest.effects, [t.verdict] + rest.verdicts, rest.state)
    {
      LocalsStay(w, turn(ViewOf(w, st, account, slots[0])).effects);
    }

    /** A round that could not finish is where the whole run stopped. */
    static lemma Stopped(w: World, cut: nat, done: seq<Effect>, turn: seq<Effect>, rest: seq<Effect>)
      requires cut >= |done| && turn <= rest && (cut - |done| < |turn| || turn == rest)
      ensures ApplyAll(w, Take(done + rest, cut)) == ApplyAll(ApplyAll(w, done), Take(turn, cut - |done|))
      ensures Spent(cut, done + rest) == Spent(cut - |done|, turn)
    {
      Then(w, done, rest, cut);
      assert Take(rest, cut - |done|) == Take(turn, cut - |done|);
    }

    /**
     * One synchronization. The engine's world ends up exactly where the specification's effects, cut
     * off after `budget`, lead.
     */
    method RunSync(codec: Codec, input: Input, slots: seq<nat>) returns (ok: bool, verdicts: seq<Verdict>)
      requires Orderly(TheWorld())
      modifies this
      ensures Did(old(TheWorld()), old(budget), SyncEffects(codec, input, old(TheWorld()), slots))
      ensures ok <==> (Completes(codec, input, old(TheWorld()), slots)
                       && old(budget) >= |SyncEffects(codec, input, old(TheWorld()), slots)|)
      ensures ok ==> verdicts == PlanOf(codec, input, old(TheWorld()), slots).verdicts
    {
      verdicts := [];
      if saved.account.None? {
        return false, [];
      }
      var account := saved.account.value;
      var selected := SelectSlots(input, account, slots);
      var readable := AllReadable(codec, selected);
      EffectsOf(codec, input, TheWorld(), slots);
      if selected == [] || !readable {
        return false, [];
      }
      ghost var w, cut, plan := TheWorld(), budget, PlanOf(codec, input, TheWorld(), slots);
      if plan.state.Some? {
        Then(w, plan.effects, [Save(plan.state.value)], cut);
      }
      var state;
      ok, verdicts, state := SyncSlots(codec, input, account, selected, saved);
      if ok {
        ok := SaveState(state);
      }
    }

    /** When a synchronization gets as far as its slots, and when it gets to its end. */
    static lemma EffectsOf(codec: Codec, input: Input, w: World, slots: seq<nat>)
      requires w.saved.account.Some?
      ensures var selected := Selected(input, w, w.saved.account.value, slots);
        var plan := PlanOf(codec, input, w, slots);
        if selected == [] || (exists slot <- selected :: codec.content(w.locals[slot]).None?) then
          SyncEffects(codec, input, w, slots) == [] && !Completes(codec, input, w, slots)
        else
          && (Completes(codec, input, w, slots) <==> plan.state.Some?)
          && SyncEffects(codec, input, w, slots)
             == if plan.state.None? then plan.effects else plan.effects + [Save(plan.state.value)]
    {
      TurnsAreOwn(codec, input);
      RunSavesNothing(TurnFn(codec, input), w, w.saved, w.saved.account.value,
                      Selected(input, w, w.saved.account.value, slots));
    }

    /** The user's choice for one slot. */
    method ForceSlot(codec: Codec, input: Input, slot: nat, useLocal: bool, name: Name) returns (ok: bool)
      requires Keyed(saved.files)
      modifies this
      ensures Did(old(TheWorld()), old(budget), ForceEffects(codec, input, old(TheWorld()), slot, useLocal, name))
      ensures ok <==>
        (old(saved).account.Some? && slot in old(locals)
         && ForceTurn(codec, input, old(Now(TheWorld(), slot)), useLocal, name).verdict != Failed
         && old(budget) >= |ForceEffects(codec, input, old(TheWorld()), slot, useLocal, name)|)
    {
      if saved.account.None? || slot !in locals {
        return false;
      }
      var v := Look(saved.account.value, slot, saved);
      ghost var w, cut := TheWorld(), budget;
      ghost var t := ForceTurn(codec, input, v, useLocal, name);
      if t.verdict != Failed {
        Then(w, t.effects, [Save(Queued(After(w.saved, slot, t), v, useLocal))], cut);
      }
      var st;
      ok, st := ForceOne(codec, input, v, useLocal, name, saved);
      if ok {
        ok := SaveState(st);
      }
    }

    method ForceOne(codec: Codec, input: Input, v: View, useLocal: bool, name: Name, st: SyncState)
      returns (ok: bool, after: SyncState)
      requires Sees(v)
      modifies this
      ensures var t := ForceTurn(codec, input, v, useLocal, name);
        && Did(old(TheWorld()), old(budget), t.effects)
        && (ok <==> t.verdict != Failed && old(budget) >= |t.effects|)
        && (ok ==> after == Queued(After(st, v.slot, t), v, useLocal))
    {
      after := st;
      var c := codec.content(v.local);
      if c.None? || (v.remote.None? && !useLocal) {
        ok := false;
      } else if v.remote.None? {
        ok, after := PushNew(codec, input, v, name, c.value, st);
      } else {
        ok, after := ForceOver(codec, input, v, v.remote.value, c.value, useLocal, st);
      }
    }

    method PushNew(codec: Codec, input: Input, v: View, name: Name, c: seq<byte>, st: SyncState)
      returns (ok: bool, after: SyncState)
      requires Sees(v)
      modifies this
      ensures var t := NewTurn(codec, input, v, c, name);
        && Did(old(TheWorld()), old(budget), t.effects)
        && (ok <==> t.verdict != Failed && old(budget) >= |t.effects|)
        && (ok ==> after == After(st, v.slot, t))
    {
      after := st;
      var upload := codec.uploaded(name.path, c, v.extra, input.ids);
      if upload.None? {
        ok := false;
        return;
      }
      ghost var learn := PushExtra(codec, input, v, name.path, upload.value);
      ghost var store := StoreOf(v, LocalFirstSync, v.local);
      ghost var commit := Upload(v.account, v.slot, Verified(name, upload.value));
      ok := MergeUploaded(codec, input, v, name.path, upload.value);
      Then(old(TheWorld()), learn, [store, commit], old(budget));
      if !ok { return; }
      ok := BackupAndUpload(v, LocalFirstSync, v.local, Verified(name, upload.value));
      var files := UpsertState(st.files, Entry(v.slot, name, c));
      after := st.(files := files);
    }

    method ForceOver(codec: Codec, input: Input, v: View, r: Remote, c: seq<byte>, useLocal: bool, st: SyncState)
      returns (ok: bool, after: SyncState)
      requires Sees(v) && v.remote == Some(r)
      modifies this
      ensures var t := ForceOverTurn(codec, input, v, r, c, useLocal);
        && Did(old(TheWorld()), old(budget), t.effects)
        && (ok <==> t.verdict != Failed && old(budget) >= |t.effects|)
        && (ok ==> after == Queued(After(st, v.slot, t), v, useLocal))
    {
      after := st;
      ghost var w, cut := TheWorld(), budget;
      ghost var rest := if useLocal then PushTurn(codec, input, ForcedView(codec, input, v, r), r, c).effects else [];
      Then(w, BeforeForce(codec, input, v, r), rest, cut);
      assert BeforeForce(codec, input, v, r) + [] == BeforeForce(codec, input, v, r);
      var learned;
      ok, learned := Prepare(codec, input, v, r);
      if !ok { return; }
      if useLocal {
        ok, after := PushOne(codec, input, learned, r, c, st);
      } else {
        after := st.(pulls := st.pulls[v.slot := Pull(r.name, Sha(r))]);
      }
    }

    /** What a choice does before it transfers anything. */
    method Prepare(codec: Codec, input: Input, v: View, r: Remote) returns (ok: bool, learned: View)
      requires Sees(v) && v.remote == Some(r)
      modifies this
      ensures Did(old(TheWorld()), old(budget), BeforeForce(codec, input, v, r))
      ensures ok == (old(budget) >= |BeforeForce(codec, input, v, r)|)
      ensures ok ==> learned == ForcedView(codec, input, v, r) && Sees(learned)
    {
      ghost var w, cut := TheWorld(), budget;
      ghost var both := [StoreOf(v, LocalBeforeForce, v.local), StoreOf(v, SteamBeforeForce, r.bytes)];
      ghost var learn := ForcedEffects(codec, input, v, r);
      ok := LearnForced(codec, input, v, r);
      Then(w, learn, both, cut);
      if ok {
        ghost var w1 := TheWorld();
        learned := v.(extra := if v.slot in extras then extras[v.slot] else Extra([], []));
        ok := BackupBoth(learned, r, LocalBeforeForce, SteamBeforeForce);
        CopiesOnly(w1, both, cut - |learn|);
      } else {
        learned := v;
      }
    }

    method LearnForced(codec: Codec, input: Input, v: View, r: Remote) returns (ok: bool)
      requires Sees(v)
      modifies this
      ensures Did(old(TheWorld()), old(budget), ForcedEffects(codec, input, v, r))
      ensures ok == (old(budget) >= |ForcedEffects(codec, input, v, r)|)
      ensures ok ==> Sees(ForcedView(codec, input, v, r))
    {
      ok := true;
      var extra := codec.forced(r.bytes);
      if extra.Some? {
        ok := KeepExtraIfWritable(input, v.slot, MergeExtra(v.extra, extra.value));
        OneEffect(old(TheWorld()), KeepExtra(v.slot, MergeExtra(v.extra, extra.value)), old(budget));
      }
    }

    static lemma CopiesOnly(w: World, both: seq<Effect>, cut: nat)
      requires |both| == 2 && both[0].Store? && both[1].Store?
      ensures ApplyAll(w, Take(both, cut)) == w.(backups := ApplyAll(w, Take(both, cut)).backups)
    {
      assert both == [both[0]] + [both[1]];
      Then(w, [both[0]], [both[1]], cut);
      OneEffect(w, both[0], cut);
      if cut >= 1 {
        OneEffect(Apply(w, both[0]), both[1], cut - 1);
        OneEffect(w, both[0], 1);
      }
    }

    /** Puts a verified backup back, at the launch after the user asked for it. */
    method ApplyPendingRestore(codec: Codec, input: Input, slot: nat, bytes: seq<byte>) returns (ok: bool)
      modifies this
      ensures var effects := RestoreEffects(codec, input, old(TheWorld()), slot, bytes);
        && Did(old(TheWorld()), old(budget), effects)
        && (ok <==> codec.normalized(bytes).Some? && codec.content(bytes).Some? && old(budget) >= |effects|)
    {
      if codec.content(bytes).None? {
        return false;
      }
      ghost var w, cut := TheWorld(), budget;
      ghost var before := if slot in locals then [Store(Backup(slot, LocalBeforeRestore, locals[slot]))] else [];
      Then(w, before, WriteBack(codec, input, w, slot, bytes), cut);
      ok := true;
      if slot in locals {
        ok := BackupBytes(slot, LocalBeforeRestore, locals[slot]);
        OneEffect(w, before[0], cut);
      }
      if ok {
        ok := PutBack(codec, input, slot, bytes);
      }
    }

    method PutBack(codec: Codec, input: Input, slot: nat, bytes: seq<byte>) returns (ok: bool)
      modifies this
      ensures var effects := WriteBack(codec, input, old(TheWorld()), slot, bytes);
        && Did(old(TheWorld()), old(budget), effects)
        && (ok <==> codec.normalized(bytes).Some? && old(budget) >= |effects|)
    {
      var n, extra := codec.normalized(bytes), codec.learned(bytes);
      ok := true;
      if extra.Some? {
        var merged := MergeExtra(if slot in extras then extras[slot] else Extra([], []), extra.value);
        if n.Some? {
          Then(TheWorld(), KeepIfWritable(input, slot, merged), [ReplaceLocal(slot, n.value)], budget);
        }
        ok := KeepExtraIfWritable(input, slot, merged);
      }
      if !ok || n.None? {
        return false;
      }
      ok := WriteLocal(slot, if extra.Some? then n.value else bytes);
    }

    /** A sign-in clears BASE and queued pulls exactly when another account was signed in before. */
    method BindAccount(account: nat)
      modifies this
      ensures TheWorld() == old(TheWorld()).(saved := Bind(old(saved), account))
    {
      if saved.account.Some? && saved.account.value != account {
        saved := saved.(files := map[], pulls := map[]);
      }
      saved := saved.(account := Some(account));
    }
  }
}
