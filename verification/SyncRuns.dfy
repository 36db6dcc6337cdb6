/** A run is its slots' turns, each independent of the others. */
module SyncRuns {
  import opened Bytes
  import opened SyncCodec
  import opened SyncModel

  // Sequences of effects.

  lemma {:induction false} ApplyAppend(w: World, a: seq<Effect>, b: seq<Effect>)
    ensures ApplyAll(w, a + b) == ApplyAll(ApplyAll(w, a), b)
    decreases |a|
  {
    if a == [] {
      assert a + b == b;
    } else {
      assert (a + b)[1..] == a[1..] + b;
      ApplyAppend(Apply(w, a[0]), a[1..], b);
    }
  }

  lemma TakeAppend(a: seq<Effect>, b: seq<Effect>, cut: nat)
    ensures Take(a + b, cut) == if cut <= |a| then Take(a, cut) else a + Take(b, cut - |a|)
  {
  }

  /** What an effect changes of a slot. */
  function Seen(v: View, e: Effect): View
  {
    match e
    case KeepExtra(slot, extra) => if slot == v.slot then v.(extra := extra) else v
    case Upload(account, slot, remote) =>
      if slot == v.slot && account == v.account then v.(remote := Some(remote)) else v
    case ReplaceLocal(slot, bytes) => if slot == v.slot then v.(local := bytes) else v
    case _ => v
  }

  function SeenAll(v: View, effects: seq<Effect>): View
    decreases |effects|
  {
    if effects == [] then v else SeenAll(Seen(v, effects[0]), effects[1..])
  }

  lemma {:induction false} SeenAppend(v: View, a: seq<Effect>, b: seq<Effect>)
    ensures SeenAll(v, a + b) == SeenAll(SeenAll(v, a), b)
    decreases |a|
  {
    if a == [] {
      assert a + b == b;
    } else {
      assert (a + b)[1..] == a[1..] + b;
      SeenAppend(Seen(v, a[0]), a[1..], b);
    }
  }

  /** Viewing a slot commutes with effects. */
  lemma {:induction false} ViewAfter(w: World, st: SyncState, account: nat, slot: nat, effects: seq<Effect>)
    requires slot in w.locals
    ensures slot in ApplyAll(w, effects).locals
    ensures ViewOf(ApplyAll(w, effects), st, account, slot) == SeenAll(ViewOf(w, st, account, slot), effects)
    decreases |effects|
  {
    if effects != [] {
      var w' := Apply(w, effects[0]);
      assert ViewOf(w', st, account, slot) == Seen(ViewOf(w, st, account, slot), effects[0]);
      ViewAfter(w', st, account, slot, effects[1..]);
    }
  }

  // One slot's turn leaves the other slots alone.

  predicate Concerns(e: Effect, slot: nat)
  {
    match e
    case KeepExtra(s, _) => s == slot
    case Store(b) => b.slot == slot
    case Upload(_, s, _) => s == slot
    case ReplaceLocal(s, _) => s == slot
    case Save(_) => false
  }

  ghost predicate AllConcern(effects: seq<Effect>, slot: nat)
  {
    forall i :: 0 <= i < |effects| ==> Concerns(effects[i], slot)
  }

  lemma {:induction false} OthersUnseen(v: View, slot: nat, effects: seq<Effect>)
    requires v.slot != slot && AllConcern(effects, slot)
    ensures SeenAll(v, effects) == v
    decreases |effects|
  {
    if effects != [] {
      assert Concerns(effects[0], slot);
      OthersUnseen(v, slot, effects[1..]);
    }
  }

  /** An effect on the viewed slot alone; an upload replaces Steam's file under its own name. */
  predicate Own(v: View, e: Effect)
  {
    Concerns(e, v.slot) &&
    (e.Upload? ==> e.account == v.account && v.remote.Some? && e.remote.name == v.remote.value.name)
  }

  ghost predicate AllOwn(v: View, effects: seq<Effect>)
  {
    forall i :: 0 <= i < |effects| ==> Own(v, effects[i])
  }

  ghost predicate OwnTurn(v: View, t: Turn)
  {
    && AllOwn(v, t.effects)
    && (t.entry.Some? ==> v.remote.Some? && t.entry.value.slot == v.slot && t.entry.value.name == v.remote.value.name)
  }

  lemma PushIsOwn(codec: Codec, input: Input, v: View, r: Remote, c: seq<byte>)
    requires v.remote == Some(r)
    ensures OwnTurn(v, PushTurn(codec, input, v, r, c))
  {
  }

  lemma CompareIsOwn(codec: Codec, input: Input, v: View, r: Remote, c: seq<byte>, n: seq<byte>)
    requires v.remote == Some(r)
    ensures OwnTurn(v, CompareTurn(codec, input, v, r, c, n))
  {
    PushIsOwn(codec, input, v, r, c);
  }

  lemma LearningIsOwn(v: View, learned: View, learn: seq<Effect>, t: Turn)
    requires AllOwn(v, learn) && OwnTurn(learned, t) && learned == v.(extra := learned.extra)
    ensures OwnTurn(v, t.(effects := learn + t.effects))
  {
    forall i | 0 <= i < |t.effects| ensures Own(v, t.effects[i]) {
      assert Own(learned, t.effects[i]);
    }
  }

  lemma TurnIsOwn(codec: Codec, input: Input, v: View)
    ensures OwnTurn(v, TurnOf(codec, input, v))
  {
    if v.remote.Some? && codec.content(v.local).Some? {
      var r := v.remote.value;
      var learn, learned := LearnEffects(codec, input, v, r.bytes), LearnedView(codec, input, v, r.bytes);
      assert AllOwn(v, learn);
      if codec.normalized(r.bytes).Some? {
        var c, n := codec.content(v.local).value, codec.normalized(r.bytes).value;
        CompareIsOwn(codec, input, learned, r, c, n);
        LearningIsOwn(v, learned, learn, ResolveTurn(codec, input, learned, r, c, n));
      }
    }
  }

  // The stored state.

  /** Entries are kept under names of their own slot, one for each slot. */
  ghost predicate Keyed(files: map<Name, Entry>)
  {
    && (forall name <- files :: files[name].name == name && name.slot == files[name].slot)
    && (forall a, b | a in files && b in files && files[a].slot == files[b].slot :: a == b)
  }

  /** Replacing a slot's entry leaves exactly the new one, and every other slot its own. */
  lemma UpsertEntries(files: map<Name, Entry>, e: Entry, slot: nat)
    requires Keyed(files) && e.name.slot == e.slot
    ensures Keyed(Upsert(files, e))
    ensures EntryOf(Upsert(files, e), slot) == if slot == e.slot then Some(e) else EntryOf(files, slot)
  {
    var after := Upsert(files, e);
    assert after[e.name] == e;
    assert forall name <- after ::
      name == e.name || (name in files && after[name] == files[name] && files[name].slot != e.slot);
    if slot == e.slot {
      assert HasEntry(after, slot);
    } else if HasEntry(files, slot) {
      var name :| name in files && files[name].slot == slot;
      assert name in after && after[name] == files[name];
    }
  }

  /** Steam's files stand in the slot their name says. */
  ghost predicate Placed(w: World)
  {
    forall key <- w.remotes :: w.remotes[key].name.slot == key.1
  }

  // Runs over any turns that keep to their own slot.

  ghost predicate OwnTurns(turn: View -> Turn) { forall v :: OwnTurn(v, turn(v)) }

  ghost function NextView(turn: View -> Turn, v: View): View
  {
    SeenAll(v, turn(v).effects).(
      base := if turn(v).entry.Some? then Some(turn(v).entry.value.base) else v.base,
      pull := if turn(v).dropPull then None else v.pull)
  }

  lemma {:induction false} StaysPlaced(w: World, effects: seq<Effect>)
    requires Placed(w)
    requires forall i :: 0 <= i < |effects| && effects[i].Upload? ==> effects[i].remote.name.slot == effects[i].slot
    ensures Placed(ApplyAll(w, effects))
    decreases |effects|
  {
    if effects != [] {
      StaysPlaced(Apply(w, effects[0]), effects[1..]);
    }
  }

  lemma TurnKeepsOrder(turn: View -> Turn, w: World, st: SyncState, account: nat, slot: nat)
    requires OwnTurns(turn) && Placed(w) && slot in w.locals && Keyed(st.files)
    ensures var t := turn(ViewOf(w, st, account, slot));
      Placed(ApplyAll(w, t.effects)) && Keyed(After(st, slot, t).files)
  {
    var v := ViewOf(w, st, account, slot);
    var t := turn(v);
    assert OwnTurn(v, t);
    StaysPlaced(w, t.effects);
    if t.entry.Some? {
      UpsertEntries(st.files, t.entry.value, slot);
    }
  }

  /** After one slot's turn, that slot has its next view, and every other slot the view it had. */
  lemma TurnView(turn: View -> Turn, w: World, st: SyncState, account: nat, slot: nat, other: nat)
    requires OwnTurns(turn) && slot in w.locals && other in w.locals && Placed(w) && Keyed(st.files)
    ensures var v := ViewOf(w, st, account, slot);
      && other in ApplyAll(w, turn(v).effects).locals
      && ViewOf(ApplyAll(w, turn(v).effects), After(st, slot, turn(v)), account, other)
         == if other == slot then NextView(turn, v) else ViewOf(w, st, account, other)
  {
    var v := ViewOf(w, st, account, slot);
    var t := turn(v);
    assert OwnTurn(v, t);
    var st' := After(st, slot, t);
    ViewAfter(w, st', account, other, t.effects);
    if t.entry.Some? {
      UpsertEntries(st.files, t.entry.value, other);
    }
    var seen := ViewOf(w, st', account, other);
    if other != slot {
      assert seen == ViewOf(w, st, account, other);
      OthersUnseen(seen, slot, t.effects);
    } else {
      assert seen == v.(base := seen.base, pull := seen.pull);
      BookkeepingUnseen(v, seen.base, seen.pull, t.effects);
    }
  }

  lemma {:induction false} BookkeepingUnseen(v: View, base: Option<seq<byte>>, pull: Option<Pull>, effects: seq<Effect>)
    ensures SeenAll(v.(base := base, pull := pull), effects) == SeenAll(v, effects).(base := base, pull := pull)
    decreases |effects|
  {
    if effects != [] {
      BookkeepingUnseen(Seen(v, effects[0]), base, pull, effects[1..]);
    }
  }

  ghost predicate Distinct(slots: seq<nat>)
  {
    forall i, j :: 0 <= i < j < |slots| ==> slots[i] != slots[j]
  }

  /** The loop over slots does to each slot what that slot's turn alone does, and nothing to the others. */
  lemma {:induction false} RunIsTurns(turn: View -> Turn, w: World, st: SyncState, account: nat, slots: seq<nat>,
                                      other: nat)
    requires forall slot <- slots :: slot in w.locals
    requires OwnTurns(turn) && Distinct(slots) && other in w.locals && Placed(w) && Keyed(st.files)
    requires RunFrom(turn, w, st, account, slots).state.Some?
    ensures var plan := RunFrom(turn, w, st, account, slots);
      && other in ApplyAll(w, plan.effects).locals
      && Placed(ApplyAll(w, plan.effects)) && Keyed(plan.state.value.files)
      && ViewOf(ApplyAll(w, plan.effects), plan.state.value, account, other)
         == (if other in slots then NextView(turn, ViewOf(w, st, account, other)) else ViewOf(w, st, account, other))
    decreases |slots|
  {
    if slots != [] {
      var t := turn(ViewOf(w, st, account, slots[0]));
      var w', st' := ApplyAll(w, t.effects), After(st, slots[0], t);
      TurnView(turn, w, st, account, slots[0], other);
      TurnKeepsOrder(turn, w, st, account, slots[0]);
      LocalsStay(w, t.effects);
      RunIsTurns(turn, w', st', account, slots[1..], other);
      ApplyAppend(w, t.effects, RunFrom(turn, w', st', account, slots[1..]).effects);
      assert slots == [slots[0]] + slots[1..];
    }
  }

  // Cut runs.

  /** The effects on one slot, in order. */
  function Only(effects: seq<Effect>, slot: nat): seq<Effect>
  {
    if effects == [] then []
    else
      Only(effects[..|effects| - 1], slot)
      + if Concerns(effects[|effects| - 1], slot) then [effects[|effects| - 1]] else []
  }

  lemma {:induction false} OnlyAppend(a: seq<Effect>, b: seq<Effect>, slot: nat)
    ensures Only(a + b, slot) == Only(a, slot) + Only(b, slot)
  {
    if b == [] {
      assert a + b == a;
    } else {
      assert (a + b)[..|a + b| - 1] == a + b[..|b| - 1];
      OnlyAppend(a, b[..|b| - 1], slot);
    }
  }

  lemma {:induction false} OnlyOfTurn(effects: seq<Effect>, slot: nat, other: nat)
    requires AllConcern(effects, slot)
    ensures Only(effects, other) == if other == slot then effects else []
  {
    if effects != [] {
      OnlyOfTurn(effects[..|effects| - 1], slot, other);
      assert Concerns(effects[|effects| - 1], slot);
    }
  }

  lemma SeenLast(v: View, rest: seq<Effect>, last: Effect)
    ensures SeenAll(v, rest + [last]) == Seen(SeenAll(v, rest), last)
  {
    SeenAppend(v, rest, [last]);
    assert [last][1..] == [];
  }

  lemma {:induction false} OnlyIsSeen(v: View, effects: seq<Effect>)
    ensures SeenAll(v, effects) == SeenAll(v, Only(effects, v.slot))
  {
    if effects != [] {
      var rest, last := effects[..|effects| - 1], effects[|effects| - 1];
      OnlyIsSeen(v, rest);
      assert effects == rest + [last];
      SeenLast(v, rest, last);
      SeenSlot(v, rest);
      if Concerns(last, v.slot) {
        SeenLast(v, Only(rest, v.slot), last);
      } else {
        assert Only(effects, v.slot) == Only(rest, v.slot);
      }
    }
  }

  lemma {:induction false} SeenSlot(v: View, effects: seq<Effect>)
    ensures SeenAll(v, effects).slot == v.slot
    decreases |effects|
  {
    if effects != [] {
      SeenSlot(Seen(v, effects[0]), effects[1..]);
    }
  }

  /** If what follows the turn has done to `other` the beginning of `own`, so has the whole. */
  lemma CutStep(turn: seq<Effect>, rest: seq<Effect>, cut: nat, slot: nat, other: nat, own: seq<Effect>)
    requires AllConcern(turn, slot) && (other == slot ==> own == turn)
    requires cut >= |turn| ==> Only(Take(rest, cut - |turn|), other) <= if other == slot then [] else own
    ensures var done := Only(Take(turn + rest, cut), other);
      && done <= own
      && (other != slot ==> done == if cut < |turn| then [] else Only(Take(rest, cut - |turn|), other))
      && (other == slot && cut >= |turn| ==> done == own)
  {
    TakeAppend(turn, rest, cut);
    OnlyOfTurn(Take(turn, cut), slot, other);
    OnlyOfTurn(turn, slot, other);
    if cut >= |turn| {
      OnlyAppend(turn, Take(rest, cut - |turn|), other);
      assert cut == |turn| ==> Take(rest, 0) == [] && turn + [] == turn;
    }
  }

  /** What a turn leaves for the rest of the run. */
  lemma TurnGoesOn(turn: View -> Turn, w: World, st: SyncState, account: nat, slots: seq<nat>, other: nat)
    requires slots != [] && forall slot <- slots :: slot in w.locals
    requires OwnTurns(turn) && Distinct(slots) && other in w.locals && Placed(w) && Keyed(st.files)
    ensures var t := turn(ViewOf(w, st, account, slots[0]));
      var w', st' := ApplyAll(w, t.effects), After(st, slots[0], t);
      && AllConcern(t.effects, slots[0])
      && (forall slot <- slots[1..] :: slot in w'.locals) && Distinct(slots[1..])
      && other in w'.locals && Placed(w') && Keyed(st'.files)
      && (other != slots[0] ==> ViewOf(w', st', account, other) == ViewOf(w, st, account, other))
  {
    var v := ViewOf(w, st, account, slots[0]);
    assert OwnTurn(v, turn(v));
    LocalsStay(w, turn(v).effects);
    TurnView(turn, w, st, account, slots[0], other);
    TurnKeepsOrder(turn, w, st, account, slots[0]);
  }

  /**
   * A run cut off anywhere, or failing, has done to each slot the beginning of that slot's own turn; a
   * whole run the whole turn.
   */
  lemma {:induction false} CutRunIsCutTurns(turn: View -> Turn, w: World, st: SyncState, account: nat, slots: seq<nat>,
                                            cut: nat, other: nat)
    requires forall slot <- slots :: slot in w.locals
    requires OwnTurns(turn) && Distinct(slots) && other in w.locals && Placed(w) && Keyed(st.files)
    ensures var plan := RunFrom(turn, w, st, account, slots);
      var done, own := Only(Take(plan.effects, cut), other), turn(ViewOf(w, st, account, other)).effects;
      && done <= own
      && (other !in slots ==> done == [])
      && (other in slots && plan.state.Some? && cut >= |plan.effects| ==> done == own)
    decreases |slots|
  {
    if slots != [] {
      var t, own := turn(ViewOf(w, st, account, slots[0])), turn(ViewOf(w, st, account, other)).effects;
      TurnGoesOn(turn, w, st, account, slots, other);
      if t.verdict == Failed {
        CutStep(t.effects, [], cut, slots[0], other, own);
        assert t.effects + [] == t.effects;
      } else {
        var w', st' := ApplyAll(w, t.effects), After(st, slots[0], t);
        if cut >= |t.effects| {
          CutRunIsCutTurns(turn, w', st', account, slots[1..], cut - |t.effects|, other);
        }
        CutStep(t.effects, RunFrom(turn, w', st', account, slots[1..]).effects, cut, slots[0], other, own);
      }
    }
  }
}
