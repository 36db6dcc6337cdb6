/** The prelaunch barrier: every interleaving of the launching thread with the operations it races. */
module PrelaunchBarrier {
  import opened Bytes

  /** Who holds the lock that a replacement takes. */
  datatype Holder = Nobody | Launcher | Worker(id: nat)

  datatype Result = NeverCalled | Early | Started(completed: bool)

  /** Where the launching thread is: outside, or between two steps of the preflight. */
  datatype LauncherAt =
    | Outside(last: Result)
    | Opened
    | Restoring
    | Ready
    | Losing
    | Waiting(own: nat)
    | Closing(own: nat, completed: bool)
    | Locked(own: nat, completed: bool)
    | Cleared(own: nat, completed: bool)

  /** Where an operation is; `Checked` is inside a replacement, after its last permission check. */
  datatype WorkerAt = Claimed | Body | Guarded | Checked | Done

  datatype State = State(allowed: bool, guard: Holder, active: bool, launcher: LauncherAt, workers: seq<WorkerAt>)

  datatype Action =
    | Enter | LockRestore | WriteRestore | UnlockRestore | SkipRestore | TrySpawn | CloseEarly
    | StopWaiting | LockClose | Clear | UnlockClose
    | Spawn | Begin(w: nat) | Lock(w: nat) | Check(w: nat) | Write(w: nat) | Unlock(w: nat) | Finish(w: nat)

  const START := State(false, Nobody, false, Outside(NeverCalled), [])

  predicate At(workers: seq<WorkerAt>, w: nat, at: WorkerAt) { w < |workers| && workers[w] == at }

  function Move(s: State, w: nat, at: WorkerAt): State
    requires w < |s.workers|
  {
    s.(workers := s.workers[w := at])
  }

  /** Claims the single operation slot, or fails. */
  function Claim(s: State): Option<State>
  {
    if s.active then None else Some(s.(active := true, workers := s.workers + [Claimed]))
  }

  function LauncherStep(s: State, a: Action): Option<State>
  {
    match (s.launcher, a)
    case (Outside(_), Enter) => Some(s.(launcher := Opened, allowed := true))
    case (Opened, SkipRestore) => Some(s.(launcher := Ready))
    case (Opened, LockRestore) => if s.guard == Nobody then Some(s.(launcher := Restoring, guard := Launcher)) else None
    case (Restoring, WriteRestore) => if s.allowed then Some(s) else None
    case (Restoring, UnlockRestore) => Some(s.(launcher := Ready, guard := Nobody))
    case (Ready, TrySpawn) =>
      (match Claim(s)
       case None => Some(s.(launcher := Losing))
       case Some(t) => Some(t.(launcher := Waiting(|s.workers|))))
    case (Losing, CloseEarly) => Some(s.(launcher := Outside(Early), allowed := false))
    case (Waiting(own), StopWaiting) => Some(s.(launcher := Closing(own, !s.active)))
    case (Closing(own, completed), LockClose) =>
      if s.guard == Nobody then Some(s.(launcher := Locked(own, completed), guard := Launcher)) else None
    case (Locked(own, completed), Clear) => Some(s.(launcher := Cleared(own, completed), allowed := false))
    case (Cleared(_, completed), UnlockClose) => Some(s.(launcher := Outside(Started(completed)), guard := Nobody))
    case _ => None
  }

  function WorkerStep(s: State, a: Action): Option<State>
  {
    match a
    case Spawn => Claim(s)
    case Begin(w) => if At(s.workers, w, Claimed) then Some(Move(s, w, Body)) else None
    case Lock(w) =>
      if At(s.workers, w, Body) && s.guard == Nobody then Some(Move(s, w, Guarded).(guard := Worker(w))) else None
    case Check(w) =>
      if !At(s.workers, w, Guarded) then None
      else if s.allowed then Some(Move(s, w, Checked))
      else Some(Move(s, w, Body).(guard := Nobody))
    case Write(w) => if At(s.workers, w, Checked) then Some(s) else None
    case Unlock(w) => if At(s.workers, w, Checked) then Some(Move(s, w, Body).(guard := Nobody)) else None
    case Finish(w) => if At(s.workers, w, Body) then Some(Move(s, w, Done).(active := false)) else None
    case _ => None
  }

  predicate IsWorkers(a: Action)
  {
    a.Spawn? || a.Begin? || a.Lock? || a.Check? || a.Write? || a.Unlock? || a.Finish?
  }

  /** The state after an action, where it can happen. */
  function Step(s: State, a: Action): Option<State>
  {
    if IsWorkers(a) then WorkerStep(s, a) else LauncherStep(s, a)
  }

  /** An interleaving: the states passed through, and the action between each two. */
  ghost predicate Trace(s: State, states: seq<State>, actions: seq<Action>)
  {
    && |states| == |actions| + 1 && states[0] == s
    && forall i :: 0 <= i < |actions| ==> Step(states[i], actions[i]) == Some(states[i + 1])
  }

  /** Writes to the live save. */
  predicate Writes(a: Action) { a.Write? || a.WriteRestore? }

  // What every interleaving keeps.

  predicate Alive(workers: seq<WorkerAt>, w: nat) { w < |workers| && workers[w] != Done }

  predicate Inside(workers: seq<WorkerAt>, w: nat) { At(workers, w, Guarded) || At(workers, w, Checked) }

  ghost predicate OneOperation(s: State)
  {
    && (forall v, w :: Alive(s.workers, v) && Alive(s.workers, w) ==> v == w)
    && (s.active <==> exists w :: Alive(s.workers, w))
  }

  ghost predicate GuardIsHeld(s: State)
  {
    && (forall w :: Inside(s.workers, w) <==> s.guard == Worker(w))
    && (s.guard == Launcher <==> s.launcher.Restoring? || s.launcher.Locked? || s.launcher.Cleared?)
  }

  /** When permission has been withdrawn under the lock, nobody is inside a replacement. */
  ghost predicate Shut(s: State) { !s.allowed && forall w :: !At(s.workers, w, Checked) }

  function Own(s: State): Option<(nat, bool)>
  {
    match s.launcher
    case Waiting(own) => Some((own, false))
    case Closing(own, completed) => Some((own, completed))
    case Locked(own, completed) => Some((own, completed))
    case Cleared(own, completed) => Some((own, completed))
    case _ => None
  }

  ghost predicate Invariant(s: State)
  {
    && OneOperation(s) && GuardIsHeld(s)
    && (s.launcher.Outside? ==> !s.allowed)
    && (s.launcher.Cleared? || (s.launcher.Outside? && s.launcher.last.Started?) ==> Shut(s))
    && (Own(s).Some? ==> Own(s).value.0 < |s.workers| && (Own(s).value.1 ==> At(s.workers, Own(s).value.0, Done)))
  }

  lemma ClaimKeepsOperation(s: State)
    requires OneOperation(s) && !s.active
    ensures OneOperation(Claim(s).value)
  {
    var t := Claim(s).value;
    assert Alive(t.workers, |s.workers|);
    forall w | Alive(t.workers, w) ensures w == |s.workers| {
      assert !Alive(s.workers, w);
    }
  }

  /** The only operation moves on, and stays the only one until it is done. */
  lemma MoveKeepsOperation(s: State, w: nat, t: State)
    requires OneOperation(s) && Alive(s.workers, w)
    requires |t.workers| == |s.workers| && forall v :: 0 <= v < |s.workers| && v != w ==> t.workers[v] == s.workers[v]
    requires t.active <==> t.workers[w] != Done
    ensures OneOperation(t)
  {
    forall v | Alive(t.workers, v) ensures v == w {
      assert v != w ==> Alive(s.workers, v);
    }
    if t.active {
      assert Alive(t.workers, w);
    }
  }

  lemma WorkersKeepOperation(s: State, a: Action)
    requires OneOperation(s) && IsWorkers(a) && WorkerStep(s, a).Some?
    ensures OneOperation(WorkerStep(s, a).value)
  {
    if a.Spawn? {
      ClaimKeepsOperation(s);
    } else {
      assert Alive(s.workers, a.w);
      MoveKeepsOperation(s, a.w, WorkerStep(s, a).value);
    }
  }

  lemma WorkersKeepGuard(s: State, a: Action)
    requires GuardIsHeld(s) && IsWorkers(a) && WorkerStep(s, a).Some?
    ensures GuardIsHeld(WorkerStep(s, a).value)
  {
    var t := WorkerStep(s, a).value;
    if !a.Spawn? {
      assert Inside(s.workers, a.w) <==> s.guard == Worker(a.w);
    }
    forall w ensures Inside(t.workers, w) <==> t.guard == Worker(w) {
      assert Inside(s.workers, w) <==> s.guard == Worker(w);
    }
  }

  lemma WorkersKeepShut(s: State, a: Action)
    requires Shut(s) && IsWorkers(a) && WorkerStep(s, a).Some?
    ensures Shut(WorkerStep(s, a).value)
  {
    var t := WorkerStep(s, a).value;
    forall w ensures !At(t.workers, w, Checked) {
      assert !At(s.workers, w, Checked);
    }
  }

  lemma WorkersKeepInvariant(s: State, a: Action)
    requires Invariant(s) && IsWorkers(a) && WorkerStep(s, a).Some?
    ensures Invariant(WorkerStep(s, a).value)
  {
    WorkersKeepOperation(s, a);
    WorkersKeepGuard(s, a);
    if Shut(s) {
      WorkersKeepShut(s, a);
    }
  }

  lemma LauncherKeepsGuard(s: State, a: Action)
    requires GuardIsHeld(s) && LauncherStep(s, a).Some?
    ensures GuardIsHeld(LauncherStep(s, a).value)
  {
    var t := LauncherStep(s, a).value;
    forall w ensures Inside(t.workers, w) <==> t.guard == Worker(w) {
      assert Inside(s.workers, w) <==> s.guard == Worker(w);
    }
  }

  /** While the launcher holds the lock, nobody is inside a replacement. */
  lemma LockedOut(s: State)
    requires GuardIsHeld(s) && s.guard == Launcher
    ensures forall w :: !At(s.workers, w, Checked)
  {
    forall w ensures !At(s.workers, w, Checked) {
      assert Inside(s.workers, w) <==> s.guard == Worker(w);
    }
  }

  lemma LauncherKeepsOperation(s: State, a: Action)
    requires OneOperation(s) && LauncherStep(s, a).Some?
    ensures OneOperation(LauncherStep(s, a).value)
  {
    if s.launcher.Ready? && !s.active {
      ClaimKeepsOperation(s);
      assert OneOperation(Claim(s).value);
    }
  }

  lemma LauncherKeepsInvariant(s: State, a: Action)
    requires Invariant(s) && LauncherStep(s, a).Some?
    ensures Invariant(LauncherStep(s, a).value)
  {
    var t := LauncherStep(s, a).value;
    LauncherKeepsGuard(s, a);
    LauncherKeepsOperation(s, a);
    if s.launcher.Waiting? && !s.active {
      assert !Alive(s.workers, s.launcher.own);
    }
    if s.guard == Launcher {
      LockedOut(s);
    }
  }

  lemma {:induction false} TraceKeepsInvariant(states: seq<State>, actions: seq<Action>, i: nat)
    requires Trace(START, states, actions) && i < |states|
    ensures Invariant(states[i])
  {
    if i > 0 {
      TraceKeepsInvariant(states, actions, i - 1);
      var s, a := states[i - 1], actions[i - 1];
      assert Step(s, a) == Some(states[i - 1 + 1]);
      if IsWorkers(a) {
        WorkersKeepInvariant(s, a);
      } else {
        LauncherKeepsInvariant(s, a);
      }
    }
  }

  /** In every interleaving at most one operation is between its claim and its end. */
  lemma AtMostOneOperation(states: seq<State>, actions: seq<Action>, i: nat, v: nat, w: nat)
    requires Trace(START, states, actions) && i < |states| && Alive(states[i].workers, v) && Alive(states[i].workers, w)
    ensures v == w && states[i].active
  {
    TraceKeepsInvariant(states, actions, i);
  }

  // The barrier.

  /** The preflight returned by its started path and has not been entered again. */
  predicate Returned(s: State) { s.launcher.Outside? && s.launcher.last.Started? }

  lemma ReturnedStays(s: State, a: Action)
    requires Invariant(s) && Returned(s) && a != Enter && Step(s, a).Some?
    ensures Returned(Step(s, a).value) && !Writes(a)
  {
    assert Shut(s);
  }

  /**
   * Once the preflight has returned by its started path, even when it timed out with the operation
   * still running, no operation is inside a replacement, and no interleaving writes the live save
   * before the preflight is entered again.
   */
  lemma {:induction false} BarrierHolds(states: seq<State>, actions: seq<Action>, i: nat, j: nat)
    requires Trace(START, states, actions) && i <= j < |states| && Returned(states[i])
    requires forall k :: i <= k < j ==> actions[k] != Enter
    ensures Returned(states[j]) && forall w :: !At(states[j].workers, w, Checked)
    ensures i < j ==> !Writes(actions[j - 1])
  {
    TraceKeepsInvariant(states, actions, j);
    if i < j {
      BarrierHolds(states, actions, i, j - 1);
      TraceKeepsInvariant(states, actions, j - 1);
      assert Step(states[j - 1], actions[j - 1]) == Some(states[j - 1 + 1]);
      ReturnedStays(states[j - 1], actions[j - 1]);
    }
    assert Shut(states[j]);
  }

  /** A preflight that reports completion has seen its own operation end. */
  lemma CompletedMeansDone(states: seq<State>, actions: seq<Action>, i: nat)
    requires Trace(START, states, actions) && i < |states| && states[i].launcher.Cleared?
      && states[i].launcher.completed
    ensures At(states[i].workers, states[i].launcher.own, Done)
  {
    TraceKeepsInvariant(states, actions, i);
  }

  // The early path, which withdraws permission without the lock.

  predicate ReturnedEarly(s: State) { s.launcher == Outside(Early) }

  lemma EarlyStep(s: State, a: Action)
    requires Invariant(s) && ReturnedEarly(s) && a != Enter && Step(s, a).Some?
    ensures ReturnedEarly(Step(s, a).value)
    ensures forall w :: At(Step(s, a).value.workers, w, Checked) ==> At(s.workers, w, Checked)
    ensures Writes(a) ==> a.Write? && At(s.workers, a.w, Checked)
  {
  }

  /** An interleaving from `s` on, without a new preflight, whose last action writes the live save. */
  ghost predicate WritesLater(s: State, states: seq<State>, actions: seq<Action>)
  {
    && Trace(s, states, actions) && actions != [] && Writes(actions[|actions| - 1])
    && forall k :: 0 <= k < |actions| ==> actions[k] != Enter
  }

  lemma {:induction false} EarlyTrace(s: State, states: seq<State>, actions: seq<Action>, j: nat)
    requires Invariant(s) && ReturnedEarly(s) && Trace(s, states, actions) && j < |states|
    requires forall k :: 0 <= k < |actions| ==> actions[k] != Enter
    ensures Invariant(states[j]) && ReturnedEarly(states[j])
    ensures forall w :: At(states[j].workers, w, Checked) ==> At(s.workers, w, Checked)
  {
    if j > 0 {
      EarlyTrace(s, states, actions, j - 1);
      assert Step(states[j - 1], actions[j - 1]) == Some(states[j - 1 + 1]);
      EarlyStep(states[j - 1], actions[j - 1]);
      WorkersKeepInvariant(states[j - 1], actions[j - 1]);
    }
  }

  /**
   * After an early return the live save can still be written, before the preflight is entered again,
   * exactly when some operation is inside a replacement past its check at the return.
   */
  lemma EarlyReturnExactly(states: seq<State>, actions: seq<Action>, i: nat)
    requires Trace(START, states, actions) && i < |states| && ReturnedEarly(states[i])
    ensures (exists w :: At(states[i].workers, w, Checked)) <==>
      exists later: seq<State>, todo: seq<Action> :: WritesLater(states[i], later, todo)
  {
    var s := states[i];
    TraceKeepsInvariant(states, actions, i);
    if w :| At(s.workers, w, Checked) {
      assert WritesLater(s, [s, s], [Write(w)]);
    }
    if later: seq<State>, todo: seq<Action> :| WritesLater(s, later, todo) {
      var last := |todo| - 1;
      EarlyTrace(s, later, todo, last);
      assert Step(later[last], todo[last]) == Some(later[last + 1]);
      EarlyStep(later[last], todo[last]);
      assert At(s.workers, todo[last].w, Checked);
    }
  }

  /** The worker list after an action, spelled out. */
  lemma SameWorkers(t: State, workers: seq<WorkerAt>)
    requires |t.workers| == |workers| == 1 && t.workers[0] == workers[0]
    ensures t == t.(workers := workers)
  {
    assert t.workers == workers;
  }

  lemma Extended(states: seq<State>, actions: seq<Action>, a: Action, workers: seq<WorkerAt>)
    returns (states': seq<State>, actions': seq<Action>, t: State)
    requires Trace(START, states, actions) && Step(states[|states| - 1], a).Some? && |workers| == 1
    requires var t := Step(states[|states| - 1], a).value; |t.workers| == 1 && t.workers[0] == workers[0]
    ensures Trace(START, states', actions') && states'[|states'| - 1] == t && actions' == actions + [a]
    ensures t == Step(states[|states| - 1], a).value && t.workers == workers
  {
    t := Step(states[|states| - 1], a).value;
    SameWorkers(t, workers);
    states', actions' := states + [t], actions + [a];
  }

  /** Such an interleaving exists: an operation takes the lock and checks while the preflight is open. */
  lemma EarlyReturnIsNoBarrier() returns (states: seq<State>, actions: seq<Action>)
    ensures Trace(START, states, actions) && ReturnedEarly(states[|states| - 1])
    ensures At(states[|states| - 1].workers, 0, Checked)
  {
    var s := START;
    states, actions := [s], [];
    states, actions, s := Extended(states, actions, Spawn, [Claimed]);
    states, actions, s := Extended(states, actions, Begin(0), [Body]);
    states, actions, s := Extended(states, actions, Enter, [Body]);
    states, actions, s := Extended(states, actions, SkipRestore, [Body]);
    states, actions, s := Extended(states, actions, Lock(0), [Guarded]);
    states, actions, s := Extended(states, actions, Check(0), [Checked]);
    states, actions, s := Extended(states, actions, TrySpawn, [Checked]);
    states, actions, s := Extended(states, actions, CloseEarly, [Checked]);
  }

  /** One more step, to a state that is known. */
  lemma Onward(states: seq<State>, actions: seq<Action>, a: Action, t: State)
    returns (states': seq<State>, actions': seq<Action>)
    requires Trace(START, states, actions) && Step(states[|states| - 1], a).Some?
    requires Same(Step(states[|states| - 1], a).value, t)
    ensures Trace(START, states', actions') && states'[|states'| - 1] == t && actions' == actions + [a]
  {
    assert Step(states[|states| - 1], a).value.workers == t.workers;
    states', actions' := states + [t], actions + [a];
  }

  predicate Same(s: State, t: State)
  {
    && s == t.(workers := s.workers) && |s.workers| == |t.workers|
    && forall w :: 0 <= w < |s.workers| ==> s.workers[w] == t.workers[w]
  }

  lemma RestoreFirst() returns (states: seq<State>, actions: seq<Action>)
    ensures Trace(START, states, actions) && states[|states| - 1] == State(true, Nobody, true, Waiting(0), [Claimed])
    ensures WriteRestore in actions
  {
    states, actions := [START], [];
    states, actions := Onward(states, actions, Enter, State(true, Nobody, false, Opened, []));
    states, actions := Onward(states, actions, LockRestore, State(true, Launcher, false, Restoring, []));
    states, actions := Onward(states, actions, WriteRestore, State(true, Launcher, false, Restoring, []));
    states, actions := Onward(states, actions, UnlockRestore, State(true, Nobody, false, Ready, []));
    states, actions := Onward(states, actions, TrySpawn, State(true, Nobody, true, Waiting(0), [Claimed]));
  }

  lemma OperationEnds(before: seq<State>, done: seq<Action>) returns (states: seq<State>, actions: seq<Action>)
    requires Trace(START, before, done) && before[|before| - 1] == State(true, Nobody, true, Waiting(0), [Claimed])
    ensures Trace(START, states, actions) && states[|states| - 1] == State(true, Nobody, false, Waiting(0), [Done])
    ensures done <= actions && Write(0) in actions
  {
    states, actions := Onward(before, done, Begin(0), State(true, Nobody, true, Waiting(0), [Body]));
    states, actions := Onward(states, actions, Lock(0), State(true, Worker(0), true, Waiting(0), [Guarded]));
    states, actions := Onward(states, actions, Check(0), State(true, Worker(0), true, Waiting(0), [Checked]));
    states, actions := Onward(states, actions, Write(0), State(true, Worker(0), true, Waiting(0), [Checked]));
    states, actions := Onward(states, actions, Unlock(0), State(true, Nobody, true, Waiting(0), [Body]));
    states, actions := Onward(states, actions, Finish(0), State(true, Nobody, false, Waiting(0), [Done]));
  }

  /** The preflight as it is meant: a restore, an operation that replaces the save and ends, and a return after it. */
  lemma PreflightCompletes() returns (states: seq<State>, actions: seq<Action>)
    ensures Trace(START, states, actions) && states[|states| - 1].launcher == Outside(Started(true))
    ensures WriteRestore in actions && Write(0) in actions && At(states[|states| - 1].workers, 0, Done)
  {
    states, actions := RestoreFirst();
    states, actions := OperationEnds(states, actions);
    states, actions := Onward(states, actions, StopWaiting, State(true, Nobody, false, Closing(0, true), [Done]));
    states, actions := Onward(states, actions, LockClose, State(true, Launcher, false, Locked(0, true), [Done]));
    states, actions := Onward(states, actions, Clear, State(false, Launcher, false, Cleared(0, true), [Done]));
    var last := State(false, Nobody, false, Outside(Started(true)), [Done]);
    states, actions := Onward(states, actions, UnlockClose, last);
  }
}
