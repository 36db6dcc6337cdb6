/** The additive achievement plan: which stat groups to store on Steam, and with which values. */
module AdditivePlan {
  import opened Bytes

  // Bit fields form a semilattice; nothing else about them is used.

  function Or32(a: bv32, b: bv32): bv32 { a | b }

  function Bit(k: nat): bv32
    requires k < 32
  {
    1 << k
  }

  predicate Covers(a: bv32, b: bv32) { Or32(a, b) == a }

  predicate Meets(a: bv32, b: bv32) { a & b != 0 }

  lemma OrLaws(a: bv32, b: bv32)
    ensures Or32(a, b) == Or32(b, a) && Or32(a, a) == a && Or32(a, 0) == a && Or32(0, a) == a
  {
  }

  lemma OrAssociates(a: bv32, b: bv32, c: bv32)
    ensures Or32(Or32(a, b), c) == Or32(a, Or32(b, c))
  {
    assert (a | b) | c == a | (b | c);
  }

  lemma CoversJoin(a: bv32, b: bv32)
    ensures Covers(Or32(a, b), a) && Covers(Or32(a, b), b)
  {
    OrAssociates(a, b, b); OrAssociates(b, a, a);
    OrLaws(a, b); OrLaws(b, a);
  }

  lemma CoversTransitive(a: bv32, b: bv32, c: bv32)
    requires Covers(a, b) && Covers(b, c)
    ensures Covers(a, c)
  {
    OrAssociates(a, b, c);
  }

  lemma CoversAntisymmetric(a: bv32, b: bv32)
    requires Covers(a, b) && Covers(b, a)
    ensures a == b
  {
    OrLaws(a, b);
  }

  lemma JoinMeets(a: bv32, b: bv32, m: bv32)
    ensures Meets(Or32(a, b), m) <==> Meets(a, m) || Meets(b, m)
  {
    assert (a | b) & m == (a & m) | (b & m);
  }

  lemma BitsDiffer(j: nat, k: nat)
    requires j < 32 && k < 32
    ensures Meets(Bit(j), Bit(k)) <==> j == k
  {
  }

  // The inputs.

  datatype Definition = Definition(stat: u32, bit: u32, name: string)
  datatype Block = Block(stat: Option<u32>, unlockTimes: seq<u32>)
  datatype Stat = Stat(id: Option<u32>, value: Option<bv32>)
  datatype Store = Store(id: u32, value: bv32)

  /** A later definition of a name replaces an earlier one. */
  function Find(definitions: seq<Definition>, name: string): Option<Definition>
  {
    if definitions == [] then None
    else if definitions[|definitions| - 1].name == name then Some(definitions[|definitions| - 1])
    else Find(definitions[..|definitions| - 1], name)
  }

  /** The bits of the first 32 unlock times that are not zero. */
  function TimeBits(times: seq<u32>): bv32
  {
    if times == [] then 0 else
    var rest, k := TimeBits(times[..|times| - 1]), |times| - 1;
    if times[k] != 0 && k < 32 then Or32(rest, Bit(k)) else rest
  }

  function BlockBits(blocks: seq<Block>, id: u32): bv32
  {
    if blocks == [] then 0 else
    var rest, last := BlockBits(blocks[..|blocks| - 1], id), blocks[|blocks| - 1];
    if last.stat == Some(id) then Or32(rest, TimeBits(last.unlockTimes)) else rest
  }

  function StatBits(stats: seq<Stat>, id: u32): bv32
  {
    if stats == [] then 0 else
    var rest, last := StatBits(stats[..|stats| - 1], id), stats[|stats| - 1];
    if last.id == Some(id) && last.value.Some? then Or32(rest, last.value.value) else rest
  }

  function CachedBits(definitions: seq<Definition>, cached: set<string>, id: u32): bv32
  {
    if definitions == [] then 0 else
    var rest, last := CachedBits(definitions[..|definitions| - 1], cached, id), definitions[|definitions| - 1];
    if last.stat == id && last.name in cached && last.bit < 32 then Or32(rest, Bit(last.bit)) else rest
  }

  /** What Steam already has for a stat group, from all three sources. */
  function Current(definitions: seq<Definition>, stats: seq<Stat>, blocks: seq<Block>, cached: set<string>,
                   id: u32): bv32
  {
    Or32(Or32(BlockBits(blocks, id), StatBits(stats, id)), CachedBits(definitions, cached, id))
  }

  predicate Requestable(definitions: seq<Definition>, name: string)
  {
    Find(definitions, name).Some? && Find(definitions, name).value.bit < 32
  }

  /** The bits the requested names stand for in one stat group. */
  function RequestedBits(definitions: seq<Definition>, names: seq<string>, id: u32): bv32
  {
    if names == [] then 0 else
    var rest, name := RequestedBits(definitions, names[..|names| - 1], id), names[|names| - 1];
    if Requestable(definitions, name) && Find(definitions, name).value.stat == id
    then Or32(rest, Bit(Find(definitions, name).value.bit)) else rest
  }

  function Target(definitions: seq<Definition>, stats: seq<Stat>, blocks: seq<Block>, cached: set<string>,
                  names: seq<string>, id: u32): bv32
  {
    Or32(Current(definitions, stats, blocks, cached, id), RequestedBits(definitions, names, id))
  }

  // The plan.

  function Get(values: map<u32, bv32>, id: u32): bv32 { if id in values then values[id] else 0 }

  function Add(values: map<u32, bv32>, id: u32, bits: bv32): map<u32, bv32>
  {
    values[id := Or32(Get(values, id), bits)]
  }

  ghost predicate Ascending(plan: seq<Store>)
  {
    forall i, j :: 0 <= i < j < |plan| ==> plan[i].id < plan[j].id
  }

  predicate Stores(plan: seq<Store>, id: u32) { exists i :: 0 <= i < |plan| && plan[i].id == id }

  /** The plan stores exactly the groups that lack a requested bit, each with its joined value. */
  ghost predicate IsPlan(plan: seq<Store>, definitions: seq<Definition>, stats: seq<Stat>, blocks: seq<Block>,
                         cached: set<string>, names: seq<string>)
  {
    && Ascending(plan)
    && (forall i :: 0 <= i < |plan| ==>
          plan[i].value == Target(definitions, stats, blocks, cached, names, plan[i].id))
    && (forall id: u32 :: (Stores(plan, id) <==>
          !Covers(Current(definitions, stats, blocks, cached, id), RequestedBits(definitions, names, id))))
  }

  method BlockTimeBits(times: seq<u32>) returns (bits: bv32)
    ensures bits == TimeBits(times)
  {
    bits := 0;
    for pos := 0 to |times|
      invariant bits == TimeBits(times[..pos])
    {
      assert times[..pos + 1][..pos] == times[..pos];
      if times[pos] != 0 && pos < 32 {
        bits := Or32(bits, Bit(pos));
      }
    }
    assert times[..|times|] == times;
  }

  method ValuesOfBlocks(blocks: seq<Block>) returns (values: map<u32, bv32>)
    ensures forall id: u32 :: Get(values, id) == BlockBits(blocks, id)
  {
    values := map[];
    for i := 0 to |blocks|
      invariant forall id: u32 :: Get(values, id) == BlockBits(blocks[..i], id)
    {
      assert blocks[..i + 1][..i] == blocks[..i];
      if blocks[i].stat.Some? {
        var bits := BlockTimeBits(blocks[i].unlockTimes);
        values := Add(values, blocks[i].stat.value, bits);
      }
    }
    assert blocks[..|blocks|] == blocks;
  }

  /** Every group has its earlier bits and these. */
  ghost predicate Joined(values: map<u32, bv32>, before: map<u32, bv32>, bits: u32 -> bv32)
  {
    forall id :: Get(values, id) == Or32(Get(before, id), bits(id))
  }

  function StatBitsOf(stats: seq<Stat>): u32 -> bv32 { (id: u32) => StatBits(stats, id) }

  function CachedBitsOf(definitions: seq<Definition>, cached: set<string>): u32 -> bv32
  {
    (id: u32) => CachedBits(definitions, cached, id)
  }

  lemma NothingJoined(before: map<u32, bv32>, bits: u32 -> bv32)
    requires forall id :: bits(id) == 0
    ensures Joined(before, before, bits)
  {
    forall id ensures Or32(Get(before, id), 0) == Get(before, id) {
      OrLaws(Get(before, id), 0);
    }
  }

  lemma OneJoined(values: map<u32, bv32>, before: map<u32, bv32>, bits: u32 -> bv32, id: u32, more: bv32,
                  joined: u32 -> bv32)
    requires Joined(values, before, bits) && joined(id) == Or32(bits(id), more)
    requires forall other | other != id :: joined(other) == bits(other)
    ensures Joined(Add(values, id, more), before, joined)
  {
    OrAssociates(Get(before, id), bits(id), more);
  }

  lemma StatJoined(values: map<u32, bv32>, before: map<u32, bv32>, stats: seq<Stat>, i: nat)
    requires i < |stats| && Joined(values, before, StatBitsOf(stats[..i]))
    ensures var s, joined := stats[i], StatBitsOf(stats[..i + 1]);
      if s.id.Some? && s.value.Some? then Joined(Add(values, s.id.value, s.value.value), before, joined)
      else Joined(values, before, joined)
  {
    var s, bits, joined := stats[i], StatBitsOf(stats[..i]), StatBitsOf(stats[..i + 1]);
    assert stats[..i + 1][..i] == stats[..i];
    if s.id.Some? && s.value.Some? {
      OneJoined(values, before, bits, s.id.value, s.value.value, joined);
    } else {
      assert forall id :: joined(id) == bits(id);
    }
  }

  lemma CachedJoined(values: map<u32, bv32>, before: map<u32, bv32>, definitions: seq<Definition>,
                     cached: set<string>, i: nat)
    requires i < |definitions| && Joined(values, before, CachedBitsOf(definitions[..i], cached))
    ensures var d, joined := definitions[i], CachedBitsOf(definitions[..i + 1], cached);
      if d.name in cached && d.bit < 32 then Joined(Add(values, d.stat, Bit(d.bit)), before, joined)
      else Joined(values, before, joined)
  {
    var d, bits, joined :=
      definitions[i], CachedBitsOf(definitions[..i], cached), CachedBitsOf(definitions[..i + 1], cached);
    assert definitions[..i + 1][..i] == definitions[..i];
    if d.name in cached && d.bit < 32 {
      OneJoined(values, before, bits, d.stat, Bit(d.bit), joined);
    } else {
      assert forall id :: joined(id) == bits(id);
    }
  }

  method AddStats(before: map<u32, bv32>, stats: seq<Stat>) returns (values: map<u32, bv32>)
    ensures Joined(values, before, StatBitsOf(stats))
  {
    values := before;
    NothingJoined(before, StatBitsOf(stats[..0]));
    for i := 0 to |stats|
      invariant Joined(values, before, StatBitsOf(stats[..i]))
    {
      StatJoined(values, before, stats, i);
      if stats[i].id.Some? && stats[i].value.Some? {
        values := Add(values, stats[i].id.value, stats[i].value.value);
      }
    }
    assert stats[..|stats|] == stats;
  }

  method AddCached(before: map<u32, bv32>, definitions: seq<Definition>, cached: set<string>)
    returns (values: map<u32, bv32>)
    ensures Joined(values, before, CachedBitsOf(definitions, cached))
  {
    values := before;
    NothingJoined(before, CachedBitsOf(definitions[..0], cached));
    for i := 0 to |definitions|
      invariant Joined(values, before, CachedBitsOf(definitions[..i], cached))
    {
      CachedJoined(values, before, definitions, cached, i);
      var d := definitions[i];
      if d.name in cached && d.bit < 32 {
        values := Add(values, d.stat, Bit(d.bit));
      }
    }
    assert definitions[..|definitions|] == definitions;
  }

  /** Adds every requested bit and says which groups gained one; None when a name cannot be requested. */
  method AddRequested(before: map<u32, bv32>, definitions: seq<Definition>, names: seq<string>)
    returns (ok: bool, values: map<u32, bv32>, changed: set<u32>)
    ensures ok <==> forall i :: 0 <= i < |names| ==> Requestable(definitions, names[i])
    ensures ok ==> forall id: u32 :: Get(values, id) == Or32(Get(before, id), RequestedBits(definitions, names, id))
    ensures ok ==> forall id: u32 :: id in changed <==> Get(values, id) != Get(before, id)
  {
    ok, values, changed := true, before, {};
    forall id: u32 ensures Or32(Get(before, id), 0) == Get(before, id) {
      OrLaws(Get(before, id), 0);
    }
    for i := 0 to |names|
      invariant ok
      invariant forall k :: 0 <= k < i ==> Requestable(definitions, names[k])
      invariant forall id: u32 :: Get(values, id) == Or32(Get(before, id), RequestedBits(definitions, names[..i], id))
      invariant forall id: u32 :: id in changed <==> Get(values, id) != Get(before, id)
    {
      if !Requestable(definitions, names[i]) {
        ok := false;
        return;
      }
      var d := Find(definitions, names[i]).value;
      NextRequested(definitions, names, i);
      values, changed := AddBit(before, values, changed, d, RequestedBits(definitions, names[..i], d.stat));
    }
    assert names[..|names|] == names;
  }

  lemma NextRequested(definitions: seq<Definition>, names: seq<string>, i: nat)
    requires i < |names| && Requestable(definitions, names[i])
    ensures var d := Find(definitions, names[i]).value;
      forall id: u32 :: (RequestedBits(definitions, names[..i + 1], id)
        == if id == d.stat then Or32(RequestedBits(definitions, names[..i], id), Bit(d.bit))
           else RequestedBits(definitions, names[..i], id))
  {
    assert names[..i + 1][..i] == names[..i];
  }

  /** Adds one bit, and notes the group when that changes its value. */
  method AddBit(ghost before: map<u32, bv32>, values: map<u32, bv32>, changed: set<u32>, d: Definition,
                ghost gained: bv32)
    returns (values': map<u32, bv32>, changed': set<u32>)
    requires d.bit < 32 && Get(values, d.stat) == Or32(Get(before, d.stat), gained)
    requires forall id: u32 :: id in changed <==> Get(values, id) != Get(before, id)
    ensures forall id: u32 ::
      (Get(values', id) == if id == d.stat then Or32(Get(before, id), Or32(gained, Bit(d.bit))) else Get(values, id))
    ensures forall id: u32 :: id in changed' <==> Get(values', id) != Get(before, id)
  {
    values', changed' := values, changed;
    var value := Get(values, d.stat);
    var updated := Or32(value, Bit(d.bit));
    OrAssociates(Get(before, d.stat), gained, Bit(d.bit));
    GrowthIsVisible(Get(before, d.stat), gained, Bit(d.bit));
    if updated != value {
      values' := values[d.stat := updated];
      changed' := changed + {d.stat};
    }
  }

  /** A value that grew again cannot be back where it started. */
  lemma GrowthIsVisible(start: bv32, gained: bv32, more: bv32)
    ensures var value := Or32(start, gained);
            Or32(value, more) == start ==> Or32(value, more) == value
  {
    var value := Or32(start, gained);
    CoversJoin(start, gained);
    CoversJoin(value, more);
    if Or32(value, more) == start {
      CoversAntisymmetric(start, value);
    }
  }

  lemma SmallestExists(ids: set<u32>) returns (least: u32)
    requires ids != {}
    ensures least in ids && forall id <- ids :: least <= id
  {
    var any :| any in ids;
    least := any;
    var rest := ids - {any};
    if rest != {} {
      var other := SmallestExists(rest);
      if other < any { least := other; }
    }
    forall id <- ids ensures least <= id {
      assert id == any || id in rest;
    }
  }

  /** The changed groups with their values, in ascending order. */
  method ListStores(values: map<u32, bv32>, changed: set<u32>) returns (plan: seq<Store>)
    ensures Ascending(plan)
    ensures forall id: u32 :: Stores(plan, id) <==> id in changed
    ensures forall i :: 0 <= i < |plan| ==> plan[i].value == Get(values, plan[i].id)
  {
    plan := [];
    var rest := changed;
    while rest != {}
      invariant rest <= changed
      invariant Ascending(plan)
      invariant forall i, id :: 0 <= i < |plan| && id in rest ==> plan[i].id < id
      invariant forall id: u32 :: Stores(plan, id) <==> id in changed - rest
      invariant forall i :: 0 <= i < |plan| ==> plan[i].value == Get(values, plan[i].id)
      decreases |rest|
    {
      ghost var smallest := SmallestExists(rest);
      var id: u32 :| id in rest && forall other <- rest :: id <= other;
      ghost var before := plan;
      plan := plan + [Store(id, Get(values, id))];
      forall other: u32 ensures Stores(plan, other) <==> Stores(before, other) || other == id {
        assert plan[|before|].id == id;
        if Stores(before, other) {
          var i :| 0 <= i < |before| && before[i].id == other;
          assert plan[i].id == other;
        }
      }
      rest := rest - {id};
    }
  }

  /** Without a plan some name has no definition, or one whose bit does not fit a stat. */
  method BuildAdditiveStats(definitions: seq<Definition>, stats: seq<Stat>, blocks: seq<Block>, cached: set<string>,
                            names: seq<string>)
    returns (plan: Option<seq<Store>>)
    ensures plan.Some? <==> forall i :: 0 <= i < |names| ==> Requestable(definitions, names[i])
    ensures plan.Some? ==> IsPlan(plan.value, definitions, stats, blocks, cached, names)
  {
    var fromBlocks := ValuesOfBlocks(blocks);
    var fromStats := AddStats(fromBlocks, stats);
    var current := AddCached(fromStats, definitions, cached);
    var ok, values, changed := AddRequested(current, definitions, names);
    if !ok {
      return None;
    }
    var stores := ListStores(values, changed);
    plan := Some(stores);
  }

  // What a plan does.

  /** The values are determined, so there is one plan. */
  lemma PlanIsUnique(p: seq<Store>, q: seq<Store>, definitions: seq<Definition>, stats: seq<Stat>, blocks: seq<Block>,
                     cached: set<string>, names: seq<string>)
    requires IsPlan(p, definitions, stats, blocks, cached, names)
    requires IsPlan(q, definitions, stats, blocks, cached, names)
    ensures p == q
  {
    SameIdsSameOrder(p, q);
  }

  lemma {:induction false} SameIdsSameOrder(p: seq<Store>, q: seq<Store>)
    requires Ascending(p) && Ascending(q)
    requires forall id: u32 :: Stores(p, id) <==> Stores(q, id)
    ensures |p| == |q| && forall i :: 0 <= i < |p| ==> p[i].id == q[i].id
  {
    if p == [] || q == [] {
      if p != [] { assert Stores(p, p[0].id); }
      if q != [] { assert Stores(q, q[0].id); }
    } else {
      assert Stores(p, p[0].id) && Stores(q, q[0].id);
      forall id: u32 ensures Stores(p[1..], id) <==> Stores(q[1..], id) {
        TailStores(p, id);
        TailStores(q, id);
      }
      SameIdsSameOrder(p[1..], q[1..]);
      assert forall i :: 1 <= i < |p| ==> p[i] == p[1..][i - 1] && q[i] == q[1..][i - 1];
    }
  }

  lemma TailStores(p: seq<Store>, id: u32)
    requires Ascending(p) && p != []
    ensures Stores(p[1..], id) <==> Stores(p, id) && id != p[0].id
  {
    if Stores(p[1..], id) {
      var i :| 0 <= i < |p| - 1 && p[1..][i].id == id;
      assert p[i + 1].id == id;
    }
    if Stores(p, id) && id != p[0].id {
      var i :| 0 <= i < |p| && p[i].id == id;
      assert p[1..][i - 1].id == id;
    }
  }

  /** Every stored value holds all that Steam had before, and storing changes it. */
  lemma PlanOnlyAdds(plan: seq<Store>, definitions: seq<Definition>, stats: seq<Stat>, blocks: seq<Block>,
                     cached: set<string>, names: seq<string>, i: nat)
    requires IsPlan(plan, definitions, stats, blocks, cached, names) && i < |plan|
    ensures Covers(plan[i].value, Current(definitions, stats, blocks, cached, plan[i].id))
    ensures Covers(plan[i].value, RequestedBits(definitions, names, plan[i].id))
    ensures plan[i].value != Current(definitions, stats, blocks, cached, plan[i].id)
  {
    var id := plan[i].id;
    assert Stores(plan, id);
    CoversJoin(Current(definitions, stats, blocks, cached, id), RequestedBits(definitions, names, id));
  }

  function Planned(plan: seq<Store>, id: u32): Option<bv32>
  {
    if plan == [] then None
    else if plan[|plan| - 1].id == id then Some(plan[|plan| - 1].value)
    else Planned(plan[..|plan| - 1], id)
  }

  lemma {:induction false} PlannedIsStored(plan: seq<Store>, id: u32)
    ensures Planned(plan, id).Some? <==> Stores(plan, id)
    ensures Planned(plan, id).Some? ==> Store(id, Planned(plan, id).value) in plan
  {
    if plan != [] {
      var rest := plan[..|plan| - 1];
      PlannedIsStored(rest, id);
      if Stores(rest, id) {
        var i :| 0 <= i < |rest| && rest[i].id == id;
        assert plan[i].id == id;
      }
    }
  }

  /** Stats after a store: the planned groups are replaced by their planned values. */
  function Replaced(stats: seq<Stat>, plan: seq<Store>): seq<Stat>
  {
    if stats == [] then []
    else if stats[|stats| - 1].id.Some? && Stores(plan, stats[|stats| - 1].id.value)
      then Replaced(stats[..|stats| - 1], plan)
    else Replaced(stats[..|stats| - 1], plan) + [stats[|stats| - 1]]
  }

  function Stored(plan: seq<Store>): seq<Stat>
  {
    if plan == [] then []
    else Stored(plan[..|plan| - 1]) + [Stat(Some(plan[|plan| - 1].id), Some(plan[|plan| - 1].value))]
  }

  function Apply(stats: seq<Stat>, plan: seq<Store>): seq<Stat> { Replaced(stats, plan) + Stored(plan) }

  lemma {:induction false} ReplacedBits(stats: seq<Stat>, plan: seq<Store>, id: u32)
    ensures StatBits(Replaced(stats, plan), id) == if Stores(plan, id) then 0 else StatBits(stats, id)
  {
    if stats != [] {
      var rest, last := stats[..|stats| - 1], stats[|stats| - 1];
      ReplacedBits(rest, plan, id);
      if !(last.id.Some? && Stores(plan, last.id.value)) {
        assert Replaced(stats, plan)[..|Replaced(rest, plan)|] == Replaced(rest, plan);
      }
    }
  }

  lemma {:induction false} AppliedBits(stats: seq<Stat>, plan: seq<Store>, done: seq<Store>, id: u32)
    requires Ascending(plan) && done <= plan
    ensures StatBits(Replaced(stats, plan) + Stored(done), id) ==
      if Planned(done, id).Some? then Planned(done, id).value
      else if Stores(plan, id) then 0 else StatBits(stats, id)
  {
    var kept := Replaced(stats, plan);
    if done == [] {
      assert kept + Stored(done) == kept;
      ReplacedBits(stats, plan, id);
    } else {
      var rest, last := done[..|done| - 1], done[|done| - 1];
      AppliedBits(stats, plan, rest, id);
      var all := kept + Stored(done);
      assert all[..|all| - 1] == kept + Stored(rest);
      if last.id == id {
        assert plan[|rest|] == last && Stores(plan, id);
        PlannedIsStored(rest, id);
        assert forall i :: 0 <= i < |rest| ==> rest[i] == plan[i];
        OrLaws(0, last.value);
      }
    }
  }

  /** Storing a plan clears no bit of any group and adds every requested one. */
  lemma AppliedPlanCoversTarget(plan: seq<Store>, definitions: seq<Definition>, stats: seq<Stat>, blocks: seq<Block>,
                                cached: set<string>, names: seq<string>, id: u32)
    requires IsPlan(plan, definitions, stats, blocks, cached, names)
    ensures Current(definitions, Apply(stats, plan), blocks, cached, id)
         == Target(definitions, stats, blocks, cached, names, id)
  {
    AppliedBits(stats, plan, plan, id);
    PlannedIsStored(plan, id);
    if Stores(plan, id) {
      var b, s, c := BlockBits(blocks, id), StatBits(stats, id), CachedBits(definitions, cached, id);
      AbsorbedByTarget(b, s, c, RequestedBits(definitions, names, id));
    }
  }

  /** Joining a value again with parts it already holds changes nothing. */
  lemma AbsorbedByTarget(b: bv32, s: bv32, c: bv32, r: bv32)
    ensures var target := Or32(Or32(Or32(b, s), c), r);
            Or32(Or32(b, target), c) == target
  {
    var bs, bsc := Or32(b, s), Or32(Or32(b, s), c);
    var target := Or32(bsc, r);
    CoversJoin(b, s); CoversJoin(bs, c); CoversJoin(bsc, r);
    CoversTransitive(target, bsc, bs); CoversTransitive(target, bs, b); CoversTransitive(target, bsc, c);
    OrLaws(b, target);
  }

  /** Steam may report more than was stored; whatever holds the planned values needs no second plan. */
  lemma ReplanIsEmpty(definitions: seq<Definition>, stats: seq<Stat>, blocks: seq<Block>, cached: set<string>,
                      names: seq<string>, stats': seq<Stat>, blocks': seq<Block>, cached': set<string>)
    requires forall id: u32 :: Covers(Current(definitions, stats', blocks', cached', id),
                                      Target(definitions, stats, blocks, cached, names, id))
    ensures IsPlan([], definitions, stats', blocks', cached', names)
  {
    forall id: u32
      ensures Covers(Current(definitions, stats', blocks', cached', id), RequestedBits(definitions, names, id))
    {
      var t := Target(definitions, stats, blocks, cached, names, id);
      CoversJoin(Current(definitions, stats, blocks, cached, id), RequestedBits(definitions, names, id));
      CoversTransitive(Current(definitions, stats', blocks', cached', id), t, RequestedBits(definitions, names, id));
    }
  }

  lemma SecondPlanIsEmpty(first: seq<Store>, second: seq<Store>, definitions: seq<Definition>, stats: seq<Stat>,
                          blocks: seq<Block>, cached: set<string>, names: seq<string>)
    requires IsPlan(first, definitions, stats, blocks, cached, names)
    requires IsPlan(second, definitions, Apply(stats, first), blocks, cached, names)
    ensures second == []
  {
    forall id: u32 ensures Covers(Current(definitions, Apply(stats, first), blocks, cached, id),
                                  Target(definitions, stats, blocks, cached, names, id)) {
      AppliedPlanCoversTarget(first, definitions, stats, blocks, cached, names, id);
      OrLaws(Target(definitions, stats, blocks, cached, names, id), 0);
    }
    ReplanIsEmpty(definitions, stats, blocks, cached, names, Apply(stats, first), blocks, cached);
    PlanIsUnique(second, [], definitions, Apply(stats, first), blocks, cached, names);
  }

  // What a stored bit means.

  predicate Has(value: bv32, k: nat)
    requires k < 32
  {
    Meets(value, Bit(k))
  }

  function Half(value: bv32): bv32 { value >> 1 }

  predicate Odd(value: bv32) { value & 1 == 1 }

  /** Binary digit `k`, counted from the least significant. */
  predicate Digit(value: bv32, k: nat)
  {
    if k == 0 then Odd(value) else Digit(Half(value), k - 1)
  }

  lemma BitDoubles(k: nat)
    requires 0 < k < 32
    ensures Half(Bit(k)) == Bit(k - 1) && !Odd(Bit(k))
  {
    BitShifts(k);
    EvenBit(Bit(k));
  }

  lemma EvenBit(bit: bv32)
    requires bit & 1 == 0
    ensures !Odd(bit)
  {
  }

  lemma BitShifts(k: nat)
    requires 0 < k < 32
    ensures Bit(k) >> 1 == Bit(k - 1) && Bit(k) & 1 == 0
  {
  }

  lemma FirstBit(value: bv32)
    ensures Meets(value, Bit(0)) <==> Odd(value)
  {
  }

  lemma MeetsHalved(value: bv32, bit: bv32)
    requires !Odd(bit)
    ensures Meets(value, bit) <==> Meets(Half(value), Half(bit))
  {
  }

  lemma HasHalved(value: bv32, k: nat)
    requires 0 < k < 32
    ensures Has(value, k) <==> Has(Half(value), k - 1)
  {
    BitDoubles(k);
    MeetsHalved(value, Bit(k));
  }

  lemma HasFirst(value: bv32)
    ensures Has(value, 0) <==> Odd(value)
  {
    FirstBit(value);
  }

  /** The bit of an achievement is the digit of that number. */
  lemma {:induction false} HasDigit(value: bv32, k: nat)
    requires k < 32
    ensures Has(value, k) <==> Digit(value, k)
  {
    if k == 0 {
      HasFirst(value);
    } else {
      HasHalved(value, k);
      HasDigit(Half(value), k - 1);
    }
  }

  predicate IsLast(definitions: seq<Definition>, name: string, i: nat)
  {
    && i < |definitions| && definitions[i].name == name
    && forall j :: i < j < |definitions| ==> definitions[j].name != name
  }

  /** Of several definitions of a name the last one counts. */
  lemma {:induction false} LastIsFound(definitions: seq<Definition>, name: string, i: nat)
    requires IsLast(definitions, name, i)
    ensures Find(definitions, name) == Some(definitions[i])
  {
    var n := |definitions| - 1;
    if i < n {
      assert forall j :: 0 <= j < n ==> definitions[..n][j] == definitions[j];
      LastIsFound(definitions[..n], name, i);
    }
  }

  lemma {:induction false} NoneIsFound(definitions: seq<Definition>, name: string)
    requires forall i :: 0 <= i < |definitions| ==> definitions[i].name != name
    ensures Find(definitions, name) == None
  {
    if definitions != [] {
      NoneIsFound(definitions[..|definitions| - 1], name);
    }
  }

  predicate TimeHas(times: seq<u32>, k: nat) { k < |times| && k < 32 && times[k] != 0 }

  predicate BlockHas(b: Block, id: u32, k: nat) { b.stat == Some(id) && TimeHas(b.unlockTimes, k) }

  predicate StatHas(s: Stat, id: u32, k: nat)
    requires k < 32
  {
    s.id == Some(id) && s.value.Some? && Has(s.value.value, k)
  }

  predicate CacheHas(d: Definition, cached: set<string>, id: u32, k: nat)
  {
    d.stat == id && d.bit == k && d.name in cached
  }

  predicate RequestHas(definitions: seq<Definition>, name: string, id: u32, k: nat)
  {
    Find(definitions, name).Some? && Find(definitions, name).value.stat == id && Find(definitions, name).value.bit == k
  }

  lemma JoinHas(a: bv32, b: bv32, k: nat)
    requires k < 32
    ensures Has(Or32(a, b), k) <==> Has(a, k) || Has(b, k)
  {
    JoinMeets(a, b, Bit(k));
  }

  lemma BitHas(j: nat, k: nat)
    requires j < 32 && k < 32
    ensures Has(Bit(j), k) <==> j == k
    ensures !Has(0, k)
  {
    BitsDiffer(j, k);
  }

  lemma {:induction false} TimeBitsMeaning(times: seq<u32>, k: nat)
    requires k < 32
    ensures Has(TimeBits(times), k) <==> TimeHas(times, k)
  {
    BitHas(0, k);
    if times != [] {
      var last := |times| - 1;
      TimeBitsMeaning(times[..last], k);
      if last < 32 { BitHas(last, k); JoinHas(TimeBits(times[..last]), Bit(last), k); }
    }
  }

  lemma {:induction false} BlockBitsMeaning(blocks: seq<Block>, id: u32, k: nat)
    requires k < 32
    ensures Has(BlockBits(blocks, id), k) <==> exists i :: 0 <= i < |blocks| && BlockHas(blocks[i], id, k)
  {
    BitHas(0, k);
    if blocks != [] {
      var rest, last := blocks[..|blocks| - 1], blocks[|blocks| - 1];
      assert forall i :: 0 <= i < |rest| ==> rest[i] == blocks[i];
      BlockBitsMeaning(rest, id, k);
      TimeBitsMeaning(last.unlockTimes, k);
      JoinHas(BlockBits(rest, id), TimeBits(last.unlockTimes), k);
    }
  }

  lemma {:induction false} StatBitsMeaning(stats: seq<Stat>, id: u32, k: nat)
    requires k < 32
    ensures Has(StatBits(stats, id), k) <==> exists i :: 0 <= i < |stats| && StatHas(stats[i], id, k)
  {
    BitHas(0, k);
    if stats != [] {
      var rest, last := stats[..|stats| - 1], stats[|stats| - 1];
      assert forall i :: 0 <= i < |rest| ==> rest[i] == stats[i];
      StatBitsMeaning(rest, id, k);
      if last.value.Some? { JoinHas(StatBits(rest, id), last.value.value, k); }
    }
  }

  lemma {:induction false} CachedBitsMeaning(definitions: seq<Definition>, cached: set<string>, id: u32, k: nat)
    requires k < 32
    ensures Has(CachedBits(definitions, cached, id), k) <==>
      exists i :: 0 <= i < |definitions| && CacheHas(definitions[i], cached, id, k)
  {
    BitHas(0, k);
    if definitions != [] {
      var rest, last := definitions[..|definitions| - 1], definitions[|definitions| - 1];
      assert forall i :: 0 <= i < |rest| ==> rest[i] == definitions[i];
      CachedBitsMeaning(rest, cached, id, k);
      if last.bit < 32 { BitHas(last.bit, k); JoinHas(CachedBits(rest, cached, id), Bit(last.bit), k); }
    }
  }

  lemma {:induction false} RequestedBitsMeaning(definitions: seq<Definition>, names: seq<string>, id: u32, k: nat)
    requires k < 32
    ensures Has(RequestedBits(definitions, names, id), k) <==>
      exists i :: 0 <= i < |names| && RequestHas(definitions, names[i], id, k)
  {
    BitHas(0, k);
    if names != [] {
      var rest, last := names[..|names| - 1], names[|names| - 1];
      assert forall i :: 0 <= i < |rest| ==> rest[i] == names[i];
      RequestedBitsMeaning(definitions, rest, id, k);
      if Requestable(definitions, last) {
        BitHas(Find(definitions, last).value.bit, k);
        JoinHas(RequestedBits(definitions, rest, id), Bit(Find(definitions, last).value.bit), k);
      }
    }
  }

  lemma TargetHas(definitions: seq<Definition>, stats: seq<Stat>, blocks: seq<Block>,
                  cached: set<string>, names: seq<string>, id: u32, k: nat)
    requires k < 32
    ensures Has(Target(definitions, stats, blocks, cached, names, id), k) <==>
      || Has(BlockBits(blocks, id), k) || Has(StatBits(stats, id), k)
      || Has(CachedBits(definitions, cached, id), k) || Has(RequestedBits(definitions, names, id), k)
  {
    ThreeHave(BlockBits(blocks, id), StatBits(stats, id), CachedBits(definitions, cached, id), k);
    JoinHas(Current(definitions, stats, blocks, cached, id), RequestedBits(definitions, names, id), k);
  }

  lemma ThreeHave(a: bv32, b: bv32, c: bv32, k: nat)
    requires k < 32
    ensures Has(Or32(Or32(a, b), c), k) <==> Has(a, k) || Has(b, k) || Has(c, k)
  {
    JoinHas(a, b, k);
    JoinHas(Or32(a, b), c, k);
  }

  /** A stored bit comes from one of the four sources, and every source reaches the store. */
  lemma StoredBitMeaning(plan: seq<Store>, definitions: seq<Definition>, stats: seq<Stat>, blocks: seq<Block>,
                         cached: set<string>, names: seq<string>, p: nat, k: nat)
    requires IsPlan(plan, definitions, stats, blocks, cached, names) && p < |plan| && k < 32
    ensures Has(plan[p].value, k) <==>
      || (exists i :: 0 <= i < |blocks| && BlockHas(blocks[i], plan[p].id, k))
      || (exists i :: 0 <= i < |stats| && StatHas(stats[i], plan[p].id, k))
      || (exists i :: 0 <= i < |definitions| && CacheHas(definitions[i], cached, plan[p].id, k))
      || (exists i :: 0 <= i < |names| && RequestHas(definitions, names[i], plan[p].id, k))
  {
    TargetHas(definitions, stats, blocks, cached, names, plan[p].id, k);
    BlockBitsMeaning(blocks, plan[p].id, k);
    StatBitsMeaning(stats, plan[p].id, k);
    CachedBitsMeaning(definitions, cached, plan[p].id, k);
    RequestedBitsMeaning(definitions, names, plan[p].id, k);
  }

  // The read-back after a store.

  datatype Achievement = Achievement(name: string, achieved: bool)

  /** How many earlier unlocks the read-back no longer shows; the read-back is accepted at zero. */
  method CountLostUnlocks(previously: set<string>, verified: seq<Achievement>) returns (lost: nat)
    ensures lost == |set name | name in previously && Achievement(name, true) !in verified|
    ensures lost == 0 <==> forall name <- previously :: Achievement(name, true) in verified
  {
    var after: set<string> := {};
    for i := 0 to |verified|
      invariant forall name :: name in after <==> Achievement(name, true) in verified[..i]
    {
      if verified[i].achieved {
        after := after + {verified[i].name};
      }
      assert verified[..i + 1] == verified[..i] + [verified[i]];
    }
    assert verified[..|verified|] == verified;
    lost := |previously - after|;
    assert previously - after == set name | name in previously && Achievement(name, true) !in verified;
    assert lost == 0 <==> previously - after == {};
    assert previously - after == {} <==> forall name <- previously :: name in after;
  }
}
