/** One synchronization: what it does to a slot, and to all slots in turn. */
module SyncModel {
  import opened Bytes
  import opened Conversion
  import opened SyncDecision
  import opened SyncCodec

  // What survives a restart: the save files, Steam, the sidecars, the backups and the stored state.

  /** A Steam file name fixes its slot. */
  datatype Name = Name(path: string, slot: nat)

  /** A file on Steam, and whether Steam lists its SHA-1. */
  datatype Remote = Remote(name: Name, bytes: seq<byte>, listed: bool)

  datatype Entry = Entry(slot: nat, name: Name, base: seq<byte>)

  datatype Pull = Pull(name: Name, sha: Option<seq<byte>>)

  datatype SyncState = SyncState(account: Option<nat>, files: map<Name, Entry>, pulls: map<nat, Pull>)

  datatype Source =
    | LocalFirstSync | SteamFirstSync | LocalConflict | SteamConflict | LocalBeforePull
    | SteamBeforePush | LocalBeforeForce | SteamBeforeForce | LocalBeforeRestore | SteamInvalid

  datatype Backup = Backup(slot: nat, source: Source, bytes: seq<byte>)

  datatype World = World(locals: map<nat, seq<byte>>, remotes: map<(nat, nat), Remote>, extras: map<nat, Extra>,
                         backups: seq<Backup>, saved: SyncState)

  /** Files are identified by content, so the listed SHA-1 stands for the bytes. */
  function Sha(r: Remote): Option<seq<byte>> { if r.listed then Some(r.bytes) else None }

  /** An upload succeeds only when Steam then lists the file with its hash. */
  function Verified(name: Name, bytes: seq<byte>): Remote { Remote(name, bytes, true) }

  datatype Effect =
    | KeepExtra(slot: nat, extra: Extra)
    | Store(backup: Backup)
    | Upload(account: nat, slot: nat, remote: Remote)
    | ReplaceLocal(slot: nat, bytes: seq<byte>)
    | Save(state: SyncState)

  function Apply(w: World, e: Effect): World
  {
    match e
    case KeepExtra(slot, extra) => w.(extras := w.extras[slot := extra])
    case Store(backup) => w.(backups := w.backups + [backup])
    case Upload(account, slot, remote) => w.(remotes := w.remotes[(account, slot) := remote])
    case ReplaceLocal(slot, bytes) => w.(locals := w.locals[slot := bytes])
    case Save(state) => w.(saved := state)
  }

  function ApplyAll(w: World, effects: seq<Effect>): World
    decreases |effects|
  {
    if effects == [] then w else ApplyAll(Apply(w, effects[0]), effects[1..])
  }

  /** The effects that happen before a crash or an error cuts them off. */
  function Take(effects: seq<Effect>, cut: nat): seq<Effect>
  {
    if cut <= |effects| then effects[..cut] else effects
  }

  // One slot.

  datatype View = View(account: nat, slot: nat, local: seq<byte>, remote: Option<Remote>, extra: Extra,
                       base: Option<seq<byte>>, pull: Option<Pull>)

  /**
   * What an operation meets: the trigger, and per slot the replacement flag and the sidecar, which can be
   * written when Steam's file or a backup is learned from (`writable`) and after an upload is converted
   * (`rewritable`); a sidecar write that fails is ignored.
   */
  datatype Input = Input(manual: bool, allowed: set<nat>, writable: set<nat>, rewritable: set<nat>, ids: seq<u32>)

  datatype Kind = RemoteMissing | RestartRequired | FirstSync | TrueConflict

  datatype Verdict = Settled | Choice(kind: Kind) | Waiting | Failed

  datatype Turn = Turn(effects: seq<Effect>, entry: Option<Entry>, dropPull: bool, verdict: Verdict)

  function StoreOf(v: View, source: Source, bytes: seq<byte>): Effect { Store(Backup(v.slot, source, bytes)) }

  function KeepIfWritable(input: Input, slot: nat, extra: Extra): seq<Effect>
  {
    if slot in input.writable then [KeepExtra(slot, extra)] else []
  }

  function KeptExtra(input: Input, v: View, extra: Extra): Extra
  {
    if v.slot in input.writable then extra else v.extra
  }

  function PullTurn(v: View, r: Remote, bytes: seq<byte>): Turn
  {
    Turn([StoreOf(v, LocalBeforePull, v.local), ReplaceLocal(v.slot, bytes)], Some(Entry(v.slot, r.name, bytes)),
      false, Settled)
  }

  /** The sidecar a push leaves behind: what the upload holds is merged back. */
  function PushExtra(codec: Codec, input: Input, v: View, path: string, upload: seq<byte>): seq<Effect>
  {
    if IsRepPlusName(path) && codec.extract(upload).Some? && v.slot in input.rewritable
    then [KeepExtra(v.slot, MergeExtra(v.extra, codec.extract(upload).value))] else []
  }

  function PushTurn(codec: Codec, input: Input, v: View, r: Remote, c: seq<byte>): Turn
  {
    match codec.uploaded(r.name.path, c, v.extra, input.ids)
    case None => Turn([], None, false, Failed)
    case Some(u) =>
      Turn(PushExtra(codec, input, v, r.name.path, u)
           + [StoreOf(v, SteamBeforePush, r.bytes),
              Upload(v.account, v.slot, Verified(r.name, u))],
           Some(Entry(v.slot, r.name, c)), false, Settled)
  }

  function BothTurn(v: View, r: Remote, local: Source, steam: Source, kind: Kind): Turn
  {
    Turn([StoreOf(v, local, v.local), StoreOf(v, steam, r.bytes)], None, false, Choice(kind))
  }

  function CompareTurn(codec: Codec, input: Input, v: View, r: Remote, c: seq<byte>, n: seq<byte>): Turn
  {
    match Decide(v.base, c, n)
    case Unchanged =>
      if !codec.needsRepair(r.bytes) then Turn([], None, false, Settled)
      else if input.manual then PushTurn(codec, input, v, r, c)
      else Turn([], None, false, Waiting)
    case Converged =>
      if codec.needsRepair(r.bytes) && input.manual then PushTurn(codec, input, v, r, c)
      else Turn([], Some(Entry(v.slot, r.name, c)), false, if codec.needsRepair(r.bytes) then Waiting else Settled)
    case UploadLocal =>
      if input.manual then PushTurn(codec, input, v, r, c) else Turn([], None, false, Waiting)
    case DownloadRemote =>
      if v.slot in input.allowed then PullTurn(v, r, n) else Turn([], None, false, Choice(RestartRequired))
    case FirstSyncChoiceRequired => BothTurn(v, r, LocalFirstSync, SteamFirstSync, FirstSync)
    case Conflict => BothTurn(v, r, LocalConflict, SteamConflict, TrueConflict)
  }

  /** A pull the user queued, for exactly this version on Steam; two missing hashes count as equal. */
  predicate PullMatches(pull: Option<Pull>, r: Remote)
  {
    pull.Some? && pull.value.name == r.name && pull.value.sha == Sha(r)
  }

  function ResolveTurn(codec: Codec, input: Input, v: View, r: Remote, c: seq<byte>, n: seq<byte>): Turn
  {
    if PullMatches(v.pull, r) then
      if v.slot in input.allowed then PullTurn(v, r, n).(dropPull := true)
      else Turn([], None, false, Choice(RestartRequired))
    else
      CompareTurn(codec, input, v, r, c, n).(dropPull := v.pull.Some?)
  }

  /** Repentance+ data on Steam is merged into the sidecar before anything is decided. */
  function LearnEffects(codec: Codec, input: Input, v: View, raw: seq<byte>): seq<Effect>
  {
    match codec.learned(raw)
    case None => []
    case Some(extra) => KeepIfWritable(input, v.slot, MergeExtra(v.extra, extra))
  }

  function LearnedView(codec: Codec, input: Input, v: View, raw: seq<byte>): View
  {
    match codec.learned(raw)
    case None => v
    case Some(extra) => v.(extra := KeptExtra(input, v, MergeExtra(v.extra, extra)))
  }

  function TurnOf(codec: Codec, input: Input, v: View): Turn
  {
    match (codec.content(v.local), v.remote)
    case (None, _) => Turn([], None, false, Failed)
    case (_, None) => Turn([StoreOf(v, LocalFirstSync, v.local)], None, false, Choice(RemoteMissing))
    case (Some(c), Some(r)) =>
      if codec.content(r.bytes).None? then Turn([StoreOf(v, SteamInvalid, r.bytes)], None, false, Failed)
      else PresentTurn(codec, input, v, r, c)
  }

  /** Both sides can be read. */
  function PresentTurn(codec: Codec, input: Input, v: View, r: Remote, c: seq<byte>): Turn
  {
    var learn := LearnEffects(codec, input, v, r.bytes);
    match codec.normalized(r.bytes)
    case None => Turn(learn, None, false, Failed)
    case Some(n) =>
      var t := ResolveTurn(codec, input, LearnedView(codec, input, v, r.bytes), r, c, n);
      t.(effects := learn + t.effects)
  }

  function TurnFn(codec: Codec, input: Input): View -> Turn { v => TurnOf(codec, input, v) }

  // All slots.

  function ExtraOf(w: World, slot: nat): Extra
  {
    if slot in w.extras then w.extras[slot] else Extra([], [])
  }

  predicate HasEntry(files: map<Name, Entry>, slot: nat) { exists name :: name in files && files[name].slot == slot }

  /** The stored entry of a slot; the state keeps at most one. */
  ghost function EntryOf(files: map<Name, Entry>, slot: nat): Option<Entry>
  {
    if HasEntry(files, slot) then
      var name :| name in files && files[name].slot == slot;
      Some(files[name])
    else None
  }

  ghost function BaseOf(files: map<Name, Entry>, slot: nat): Option<seq<byte>>
  {
    match EntryOf(files, slot)
    case None => None
    case Some(e) => Some(e.base)
  }

  function Upsert(files: map<Name, Entry>, e: Entry): map<Name, Entry>
  {
    (map name | name in files && files[name].slot != e.slot :: files[name])[e.name := e]
  }

  function After(st: SyncState, slot: nat, t: Turn): SyncState
  {
    SyncState(st.account,
              if t.entry.Some? then Upsert(st.files, t.entry.value) else st.files,
              if t.dropPull then st.pulls - {slot} else st.pulls)
  }

  ghost function ViewOf(w: World, st: SyncState, account: nat, slot: nat): View
    requires slot in w.locals
  {
    View(account, slot, w.locals[slot],
         if (account, slot) in w.remotes then Some(w.remotes[(account, slot)]) else None,
         ExtraOf(w, slot), BaseOf(st.files, slot), if slot in st.pulls then Some(st.pulls[slot]) else None)
  }

  datatype Plan = Plan(effects: seq<Effect>, verdicts: seq<Verdict>, state: Option<SyncState>)

  /** The slots in turn; a failure ends the run with the new state unsaved. */
  ghost function RunFrom(turn: View -> Turn, w: World, st: SyncState, account: nat, slots: seq<nat>): Plan
    requires forall slot <- slots :: slot in w.locals
    decreases |slots|
  {
    if slots == [] then Plan([], [], Some(st)) else
    var t := turn(ViewOf(w, st, account, slots[0]));
    if t.verdict == Failed then Plan(t.effects, [Failed], None) else
    LocalsStay(w, t.effects);
    var rest := RunFrom(turn, ApplyAll(w, t.effects), After(st, slots[0], t), account, slots[1..]);
    Plan(t.effects + rest.effects, [t.verdict] + rest.verdicts, rest.state)
  }

  lemma {:induction false} LocalsStay(w: World, effects: seq<Effect>)
    ensures w.locals.Keys <= ApplyAll(w, effects).locals.Keys
    decreases |effects|
  {
    if effects != [] {
      LocalsStay(Apply(w, effects[0]), effects[1..]);
    }
  }

  /** Only a manual run looks at slots that Steam does not have. */
  function Selected(input: Input, w: World, account: nat, slots: seq<nat>): (selected: seq<nat>)
    ensures forall slot :: slot in selected <==>
      (slot in slots && slot in w.locals && (input.manual || (account, slot) in w.remotes))
  {
    if slots == [] then []
    else if slots[0] in w.locals && (input.manual || (account, slots[0]) in w.remotes)
    then [slots[0]] + Selected(input, w, account, slots[1..])
    else Selected(input, w, account, slots[1..])
  }

  /** Every effect of a synchronization in order; saving the state comes last. */
  ghost function SyncEffects(codec: Codec, input: Input, w: World, slots: seq<nat>): seq<Effect>
  {
    match w.saved.account
    case None => []
    case Some(account) =>
      var selected := Selected(input, w, account, slots);
      if selected == [] || exists slot <- selected :: codec.content(w.locals[slot]).None? then [] else
      var plan := RunFrom(TurnFn(codec, input), w, w.saved, account, selected);
      if plan.state.None? then plan.effects else plan.effects + [Save(plan.state.value)]
  }

  /** What the program shows after a completed synchronization. */
  datatype Phase = Idle | ConflictPhase | RestartPhase | UploadPhase | FirstSyncPhase

  function PhaseOf(verdicts: seq<Verdict>): Phase
  {
    if forall verdict <- verdicts :: verdict == Settled then Idle
    else if Choice(TrueConflict) in verdicts then ConflictPhase
    else if Choice(RestartRequired) in verdicts then RestartPhase
    else if Waiting in verdicts then UploadPhase
    else FirstSyncPhase
  }

  // The user's choices.

  /** One side is chosen: the device's save is pushed now, or Steam's is queued for the next launch. */
  function ForceTurn(codec: Codec, input: Input, v: View, useLocal: bool, name: Name): Turn
  {
    match (codec.content(v.local), v.remote)
    case (None, _) => Turn([], None, false, Failed)
    case (Some(c), None) => if useLocal then NewTurn(codec, input, v, c, name) else Turn([], None, false, Failed)
    case (Some(c), Some(r)) => ForceOverTurn(codec, input, v, r, c, useLocal)
  }

  /** A choice reads Steam's file undecoded: only a canonical Repentance+ file is learned from. */
  function ForcedExtra(codec: Codec, v: View, r: Remote): Option<Extra>
  {
    match codec.forced(r.bytes)
    case None => None
    case Some(extra) => Some(MergeExtra(v.extra, extra))
  }

  function ForcedView(codec: Codec, input: Input, v: View, r: Remote): View
  {
    match ForcedExtra(codec, v, r)
    case None => v
    case Some(extra) => v.(extra := KeptExtra(input, v, extra))
  }

  function ForcedEffects(codec: Codec, input: Input, v: View, r: Remote): seq<Effect>
  {
    match ForcedExtra(codec, v, r)
    case None => []
    case Some(extra) => KeepIfWritable(input, v.slot, extra)
  }

  function BeforeForce(codec: Codec, input: Input, v: View, r: Remote): seq<Effect>
  {
    ForcedEffects(codec, input, v, r) + [StoreOf(v, LocalBeforeForce, v.local), StoreOf(v, SteamBeforeForce, r.bytes)]
  }

  function ForceOverTurn(codec: Codec, input: Input, v: View, r: Remote, c: seq<byte>, useLocal: bool): Turn
  {
    var t := if useLocal then PushTurn(codec, input, ForcedView(codec, input, v, r), r, c)
      else Turn([], None, false, Settled);
    t.(effects := BeforeForce(codec, input, v, r) + t.effects)
  }

  /** The first upload of a slot that Steam does not have. */
  function NewTurn(codec: Codec, input: Input, v: View, c: seq<byte>, name: Name): Turn
  {
    match codec.uploaded(name.path, c, v.extra, input.ids)
    case None => Turn([], None, false, Failed)
    case Some(u) =>
      Turn(PushExtra(codec, input, v, name.path, u)
           + [StoreOf(v, LocalFirstSync, v.local), Upload(v.account, v.slot, Verified(name, u))],
           Some(Entry(v.slot, name, c)), false, Settled)
  }

  function Queued(st: SyncState, v: View, useLocal: bool): SyncState
  {
    if useLocal || v.remote.None? then st
    else st.(pulls := st.pulls[v.slot := Pull(v.remote.value.name, Sha(v.remote.value))])
  }

  ghost function ForceEffects(codec: Codec, input: Input, w: World, slot: nat, useLocal: bool, name: Name): seq<Effect>
  {
    if w.saved.account.None? || slot !in w.locals then [] else
    var v := ViewOf(w, w.saved, w.saved.account.value, slot);
    var t := ForceTurn(codec, input, v, useLocal, name);
    if t.verdict == Failed then t.effects
    else t.effects + [Save(Queued(After(w.saved, slot, t), v, useLocal))]
  }

  /** A restored backup: Repentance+ backups are converted, others are put back byte for byte. */
  function RestoreEffects(codec: Codec, input: Input, w: World, slot: nat, bytes: seq<byte>): seq<Effect>
  {
    if codec.content(bytes).None? then [] else
    (if slot in w.locals then [Store(Backup(slot, LocalBeforeRestore, w.locals[slot]))] else [])
    + WriteBack(codec, input, w, slot, bytes)
  }

  function WriteBack(codec: Codec, input: Input, w: World, slot: nat, bytes: seq<byte>): seq<Effect>
  {
    match (codec.normalized(bytes), codec.learned(bytes))
    case (None, None) => []
    case (None, Some(extra)) => KeepIfWritable(input, slot, MergeExtra(ExtraOf(w, slot), extra))
    case (Some(_), None) => [ReplaceLocal(slot, bytes)]
    case (Some(n), Some(extra)) =>
      KeepIfWritable(input, slot, MergeExtra(ExtraOf(w, slot), extra)) + [ReplaceLocal(slot, n)]
  }

  /** A sign-in; another account than before starts without BASE and without queued pulls. */
  function Bind(st: SyncState, account: nat): SyncState
  {
    if st.account.Some? && st.account.value != account then SyncState(Some(account), map[], map[])
    else st.(account := Some(account))
  }
}
