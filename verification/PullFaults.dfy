/** Replacing the live save: wherever it fails or the process dies, the save is the old one or the new one. */
module PullFaults {
  import opened Bytes
  import opened Backups

  /** A backup whose manifest and data are both in place. */
  ghost predicate Intact(files: Files, r: Record)
  {
    At(files, Manifest(r.id)) == Some(Json(r)) && At(files, Data(r.id)) == Some(Raw(r.bytes))
  }

  ghost predicate LeftOrLost(files: Files, r: Record, left: bool)
  {
    if left then Intact(files, r) else Manifest(r.id) !in files && Data(r.id) !in files
  }

  /** Besides temporary files, `now` differs from `before` at most by lacking backups with the given numbers. */
  ghost predicate OnlyBackups(now: Files, before: Files, ids: set<nat>)
  {
    forall p: Path :: !p.Temporary? ==>
      (At(now, p) == At(before, p) || ((p.Data? || p.Manifest?) && p.id in ids && At(now, p).None?))
  }

  ghost predicate AllOnlyBackups(moments: seq<Files>, from: nat, before: Files, ids: set<nat>)
  {
    forall i :: from <= i < |moments| ==> OnlyBackups(moments[i], before, ids)
  }

  /** Every backup that was in place still is, except perhaps those of one slot and source. */
  ghost predicate Others(now: Files, before: Files, slot: nat, source: Source)
  {
    forall r: Record | Intact(before, r) && (r.slot != slot || r.source != source) :: Intact(now, r)
  }

  ghost predicate AllOthers(moments: seq<Files>, from: nat, before: Files, slot: nat, source: Source)
  {
    forall i :: from <= i < |moments| ==> Others(moments[i], before, slot, source)
  }

  lemma OthersContinue(past: seq<Files>, moments: seq<Files>, from: nat, before: Files, middle: Files, slot: nat,
                       source: Source)
    requires past <= moments && from <= |past| && AllOthers(past, from, before, slot, source)
    requires Others(middle, before, slot, source) && AllOthers(moments, |past|, middle, slot, source)
    ensures AllOthers(moments, from, before, slot, source)
  {
    forall i | from <= i < |moments| ensures Others(moments[i], before, slot, source) {
      assert i < |past| ==> moments[i] == past[i];
    }
  }

  /** Writing the live save or the files of a new backup leaves every other backup alone. */
  lemma TouchedOthers(now: Files, before: Files, path: Path, content: Content, slot: nat, source: Source)
    requires Touched(now, before, path, content) && !path.Temporary?
    requires path.Data? || path.Manifest? ==> forall r: Record | Intact(before, r) :: r.id != path.id
    ensures Others(now, before, slot, source)
  {
  }

  lemma AllTouchedOthers(moments: seq<Files>, from: nat, before: Files, path: Path, content: Content, slot: nat,
                         source: Source)
    requires AllTouched(moments, from, before, path, content) && !path.Temporary?
    requires path.Data? || path.Manifest? ==> forall r: Record | Intact(before, r) :: r.id != path.id
    ensures AllOthers(moments, from, before, slot, source)
  {
    forall i | from <= i < |moments| ensures Others(moments[i], before, slot, source) {
      TouchedOthers(moments[i], before, path, content, slot, source);
    }
  }

  /** Whenever the live save is not `live`, a backup of it is in place. */
  ghost predicate Covered(moments: seq<Files>, from: nat, live: seq<byte>, copy: Record)
  {
    copy.bytes == live &&
    forall i :: from <= i < |moments| ==> At(moments[i], Live) == Some(Raw(live)) || Intact(moments[i], copy)
  }

  lemma CoveredLater(past: seq<Files>, moments: seq<Files>, from: nat, live: seq<byte>, copy: Record)
    requires past <= moments && from <= |past| && Covered(past, from, live, copy)
    requires forall i :: |past| <= i < |moments| ==> Intact(moments[i], copy)
    ensures Covered(moments, from, live, copy)
  {
    forall i | from <= i < |moments| ensures At(moments[i], Live) == Some(Raw(live)) || Intact(moments[i], copy) {
      assert i < |past| ==> moments[i] == past[i];
    }
  }

  /** Of a live save a backup of this slot and source is in place whenever it is not live any more. */
  ghost predicate CopyKept(moments: seq<Files>, from: nat, live: Option<Content>, slot: nat, source: Source)
  {
    live.Some? && live.value.Raw? ==>
      exists copy: Record ::
        copy.slot == slot && copy.source == source && Covered(moments, from, live.value.bytes, copy)
  }

  /** As long as the live save is unchanged, no backup of it is owed. */
  lemma NothingOwed(moments: seq<Files>, from: nat, live: Option<Content>, slot: nat, source: Source)
    requires LiveAmong(moments, from, live, live)
    ensures CopyKept(moments, from, live, slot, source)
  {
    if live.Some? && live.value.Raw? {
      var copy := Record(0, 0, source, slot, live.value.bytes);
      assert Covered(moments, from, live.value.bytes, copy);
    }
  }

  /** The live save is one of two, at every moment from `from` on. */
  ghost predicate LiveAmong(moments: seq<Files>, from: nat, a: Option<Content>, b: Option<Content>)
  {
    forall i :: from <= i < |moments| ==> At(moments[i], Live) == a || At(moments[i], Live) == b
  }

  ghost predicate Listed(s: seq<Record>, files: Files)
  {
    && (forall r :: r in s ==> At(files, Manifest(r.id)) == Some(Json(r)))
    && (forall r :: multiset(s)[r] <= 1)
  }

  /** The records of the backups numbered below `k`, in that order. */
  ghost function RecordsBelow(files: Files, k: nat): seq<Record>
  {
    if k == 0 then []
    else
      RecordsBelow(files, k - 1)
      + match At(files, Manifest(k - 1)) case Some(Json(record)) => [record] case _ => []
  }

  lemma {:induction false} SameRecords(a: Files, b: Files, k: nat)
    requires forall id: nat | id < k :: At(a, Manifest(id)) == At(b, Manifest(id))
    ensures RecordsBelow(a, k) == RecordsBelow(b, k)
  {
    if k > 0 {
      SameRecords(a, b, k - 1);
    }
  }

  lemma {:induction false} RecordIsBelow(files: Files, k: nat, r: Record)
    requires r.id < k && At(files, Manifest(r.id)) == Some(Json(r))
    ensures r in RecordsBelow(files, k)
  {
    if r.id < k - 1 {
      RecordIsBelow(files, k - 1, r);
    }
  }

  /** Retention, after the new record was added, leaves `r`. */
  ghost predicate Survives(files: Files, nextId: nat, added: Record, r: Record)
  {
    r !in Expired(SortNewest(RecordsBelow(files, nextId) + [added]), added.slot, added.source)
  }

  /** The live save, if any, is backed up before a restore, and that leaves the backup to be restored. */
  ghost predicate Restorable(files: Files, nextId: nat, clock: int, r: Record)
  {
    match At(files, Live)
    case Some(Raw(bytes)) => Survives(files, nextId, Record(nextId, clock, LocalBeforeRestore, r.slot, bytes), r)
    case _ => true
  }

  lemma SortedMatching(s: seq<Record>, slot: nat, source: Source, r: Record)
    ensures r in Expired(s, slot, source) ==> r in s && r.slot == slot && r.source == source
    ensures r in SortNewest(s) <==> r in s
  {
    SortKeeps(Matching(s, slot, source));
    SortKeeps(s);
    assert r in multiset(SortNewest(s)) <==> r in multiset(s);
    assert r in multiset(SortNewest(Matching(s, slot, source))) <==> r in multiset(Matching(s, slot, source));
  }

  /** A backup made for any other purpose can always be restored. */
  lemma OthersAreRestorable(files: Files, nextId: nat, clock: int, r: Record)
    requires r.source != LocalBeforeRestore
    ensures Restorable(files, nextId, clock, r)
  {
    match At(files, Live)
    case Some(Raw(bytes)) =>
      var added := Record(nextId, clock, LocalBeforeRestore, r.slot, bytes);
      SortedMatching(SortNewest(RecordsBelow(files, nextId) + [added]), r.slot, LocalBeforeRestore, r);
    case _ =>
  }

  function One(r: Record, slot: nat, source: Source): multiset<Record>
  {
    if r.slot == slot && r.source == source then multiset{r} else multiset{}
  }

  lemma MatchingHead(r: Record, s: seq<Record>, slot: nat, source: Source)
    ensures multiset(Matching([r] + s, slot, source)) == One(r, slot, source) + multiset(Matching(s, slot, source))
  {
    assert ([r] + s)[1..] == s;
  }

  lemma {:induction false} InsertCount(r: Record, s: seq<Record>, slot: nat, source: Source)
    ensures multiset(Matching(Insert(r, s), slot, source)) == One(r, slot, source) + multiset(Matching(s, slot, source))
  {
    if s == [] || r.created >= s[0].created {
      MatchingHead(r, s, slot, source);
    } else {
      InsertCount(r, s[1..], slot, source);
      MatchingHead(s[0], Insert(r, s[1..]), slot, source);
      MatchingHead(s[0], s[1..], slot, source);
      assert s == [s[0]] + s[1..];
    }
  }

  lemma {:induction false} SortedCount(s: seq<Record>, slot: nat, source: Source)
    ensures multiset(Matching(SortNewest(s), slot, source)) == multiset(Matching(s, slot, source))
  {
    if s != [] {
      SortedCount(s[1..], slot, source);
      InsertCount(s[0], SortNewest(s[1..]), slot, source);
      MatchingHead(s[0], s[1..], slot, source);
      assert s == [s[0]] + s[1..];
    }
  }

  /** The oldest of twelve or more backups that were made before restores cannot be restored over a live save. */
  lemma OldestIsLost(files: Files, nextId: nat, clock: int, r: Record, live: seq<byte>)
    requires At(files, Live) == Some(Raw(live)) && r.source == LocalBeforeRestore && r.created < clock
    requires r in RecordsBelow(files, nextId) && |Matching(RecordsBelow(files, nextId), r.slot, r.source)| >= 12
    requires forall other | other in RecordsBelow(files, nextId) && other != r
      && other.slot == r.slot && other.source == r.source :: other.created > r.created
    ensures !Restorable(files, nextId, clock, r)
  {
    var records, added := RecordsBelow(files, nextId), Record(nextId, clock, LocalBeforeRestore, r.slot, live);
    var all := records + [added];
    MatchingAppend(records, added, r.slot, r.source);
    SortedCount(all, r.slot, r.source);
    SortedMatching(all, r.slot, r.source, r);
    assert |multiset(Matching(SortNewest(all), r.slot, r.source))| == |multiset(Matching(all, r.slot, r.source))|;
    forall other | other in Matching(SortNewest(all), r.slot, r.source) && other != r
      ensures other.created > r.created
    {
      SortedMatching(all, r.slot, r.source, other);
    }
    OldestExpires(SortNewest(all), r.slot, r.source, r);
  }

  lemma {:induction false} MatchingAppend(s: seq<Record>, r: Record, slot: nat, source: Source)
    ensures Matching(s + [r], slot, source) == Matching(s, slot, source) + Matching([r], slot, source)
  {
    if s == [] {
      assert s + [r] == [r];
    } else {
      assert (s + [r])[1..] == s[1..] + [r];
      MatchingAppend(s[1..], r, slot, source);
    }
  }

  // Such a disk.

  function RestoreRecord(k: nat): Record { Record(k, k, LocalBeforeRestore, 1, []) }

  /** A live save and `k` backups made before restores. */
  function Restores(k: nat): Files
  {
    if k == 0 then map[Live := Raw([])]
    else Restores(k - 1)[Manifest(k - 1) := Json(RestoreRecord(k - 1))][Data(k - 1) := Raw([])]
  }

  lemma {:induction false} RestoresFiles(k: nat)
    ensures At(Restores(k), Live) == Some(Raw([])) && ValidFiles(Restores(k), k, k)
    ensures forall id: nat ::
      (At(Restores(k), Manifest(id)) == if id < k then Some(Json(RestoreRecord(id))) else None)
      && (At(Restores(k), Data(id)) == if id < k then Some(Raw([])) else None)
  {
    if k > 0 {
      RestoresFiles(k - 1);
    }
  }

  function RestoreRecords(k: nat): (s: seq<Record>)
    ensures |s| == k && forall i | 0 <= i < k :: s[i] == RestoreRecord(i)
  {
    if k == 0 then [] else RestoreRecords(k - 1) + [RestoreRecord(k - 1)]
  }

  lemma {:induction false} RestoresListed(files: Files, k: nat)
    requires forall id: nat | id < k :: At(files, Manifest(id)) == Some(Json(RestoreRecord(id)))
    ensures RecordsBelow(files, k) == RestoreRecords(k)
  {
    if k > 0 {
      RestoresListed(files, k - 1);
      assert At(files, Manifest(k - 1)) == Some(Json(RestoreRecord(k - 1)));
    }
  }

  lemma {:induction false} AllMatching(s: seq<Record>, slot: nat, source: Source)
    requires forall r <- s :: r.slot == slot && r.source == source
    ensures Matching(s, slot, source) == s
  {
    if s != [] {
      AllMatching(s[1..], slot, source);
    }
  }

  lemma FirstOfRestores(files: Files, k: nat, s: seq<Record>)
    requires k >= 12 && RecordsBelow(files, k) == s && At(files, Live) == Some(Raw([]))
    requires |s| == k && forall i | 0 <= i < k :: s[i] == RestoreRecord(i)
    ensures !Restorable(files, k, k, RestoreRecord(0))
  {
    var r := s[0];
    AllMatching(s, 1, LocalBeforeRestore);
    forall other | other in s && other != r ensures other.created > r.created {
      var i :| 0 <= i < k && s[i] == other;
    }
    OldestIsLost(files, k, k, r, []);
  }

  /** Twelve restores on, the first of the backups they made is in place and cannot be restored. */
  lemma RestoresLoseFirst(k: nat) returns (files: Files, r: Record)
    requires k >= 12
    ensures ValidFiles(files, k, k) && At(files, Live).Some? && Intact(files, r) && r.source == LocalBeforeRestore
    ensures !Restorable(files, k, k, r)
  {
    files, r := Restores(k), RestoreRecord(0);
    RestoresFiles(k);
    assert At(files, Manifest(0)) == Some(Json(r)) && At(files, Data(0)) == Some(Raw([]));
    RestoresListed(files, k);
    FirstOfRestores(files, k, RestoreRecords(k));
  }

  ghost predicate ValidFiles(files: Files, nextId: nat, clock: int)
  {
    && (forall id: nat :: Manifest(id) in files ==>
          var c := files[Manifest(id)];
          c.Json? && c.record.id == id && c.record.created < clock && id < nextId)
    && (forall id: nat :: Data(id) in files ==> id < nextId)
  }

  lemma StaysValid(now: Files, before: Files, path: Path, content: Content, nextId: nat, clock: int)
    requires ValidFiles(before, nextId, clock) && Touched(now, before, path, content)
    requires path.Data? ==> path.id < nextId
    requires path.Manifest? ==>
      path.id < nextId && content.Json? && content.record.id == path.id && content.record.created < clock
    ensures ValidFiles(now, nextId, clock)
  {
    forall id: nat | Manifest(id) in now
      ensures var c := now[Manifest(id)]; c.Json? && c.record.id == id && c.record.created < clock && id < nextId
    {
      assert At(now, Manifest(id)) == Some(now[Manifest(id)]);
    }
    forall id: nat | Data(id) in now ensures id < nextId {
      assert At(now, Data(id)).Some?;
    }
  }

  class BackupManager {
    const disk: Disk
    /** Numbers not given out yet, and a time later than that of every record. */
    var nextId: nat
    var clock: int

    constructor (disk: Disk, nextId: nat, clock: int)
      ensures this.disk == disk && this.nextId == nextId && this.clock == clock
    {
      this.disk, this.nextId, this.clock := disk, nextId, clock;
    }

    ghost predicate Valid()
      reads this, disk
    {
      ValidFiles(disk.files, nextId, clock)
    }

    /** All records that can be read, newest first. */
    method List() returns (ok: bool, records: seq<Record>)
      requires Valid()
      modifies disk`done
      ensures disk.done > old(disk.done) && (disk.Undisturbed(old(disk.done)) ==> ok)
      ensures Listed(records, disk.files) && (!ok ==> records == [])
      ensures disk.Undisturbed(old(disk.done)) ==> records == SortNewest(RecordsBelow(disk.files, nextId))
    {
      records := [];
      ok := disk.Attempt();
      if ok {
        for id := 0 to nextId
          invariant old(disk.done) < disk.done && Valid()
          invariant Listed(records, disk.files) && forall r :: r in records ==> r.id < id
          invariant disk.Undisturbed(old(disk.done)) ==> records == RecordsBelow(disk.files, id)
        {
          ghost var before := disk.done;
          if Manifest(id) in disk.files {
            var content := disk.Read(Manifest(id));
            assert disk.Undisturbed(old(disk.done)) ==> !disk.fails(before);
            if content.Some? {
              ListedAppend(records, disk.files, content.value.record);
              records := records + [content.value.record];
            }
          }
        }
        SortKeepsRecords(records, disk.files);
        records := SortNewest(records);
      }
    }

    static lemma ListedAppend(s: seq<Record>, files: Files, r: Record)
      requires Listed(s, files) && At(files, Manifest(r.id)) == Some(Json(r)) && r !in s
      ensures Listed(s + [r], files)
    {
      assert multiset(s + [r]) == multiset(s) + multiset{r};
    }

    static lemma SortKeepsRecords(s: seq<Record>, files: Files)
      requires Listed(s, files)
      ensures Listed(SortNewest(s), files) && forall r :: r in s <==> r in SortNewest(s)
    {
      var sorted := SortNewest(s);
      SortKeeps(s);
      forall r ensures r in s <==> r in sorted {
        assert r in multiset(s) <==> r in multiset(sorted);
      }
    }

    /** Removes the records beyond the newest twelve of one slot and source, data first; removals may fail. */
    method ApplyRetention(slot: nat, source: Source)
      returns (ok: bool, ghost records: seq<Record>, ghost gone: set<nat>)
      requires Valid()
      modifies disk
      ensures Valid() && disk.Later(old(disk.moments), old(disk.done)) && (disk.Undisturbed(old(disk.done)) ==> ok)
      ensures Listed(records, old(disk.files)) && gone == set r | r in Expired(records, slot, source) :: r.id
      ensures AllOnlyBackups(disk.moments, |old(disk.moments)|, old(disk.files), gone)
      ensures OnlyBackups(disk.files, old(disk.files), gone)
      ensures disk.Undisturbed(old(disk.done)) ==>
        && records == SortNewest(RecordsBelow(old(disk.files), nextId))
        && (forall id <- gone :: Manifest(id) !in disk.files && Data(id) !in disk.files)
    {
      var listed;
      ok, listed := List();
      records := listed;
      var expired := Expired(listed, slot, source);
      gone := set r | r in expired :: r.id;
      RemoveAll(expired, gone);
    }

    method RemoveAll(expired: seq<Record>, ghost gone: set<nat>)
      requires Valid() && gone == set r | r in expired :: r.id
      modifies disk
      ensures Valid() && disk.Later(old(disk.moments), old(disk.done))
      ensures AllOnlyBackups(disk.moments, |old(disk.moments)|, old(disk.files), gone)
      ensures OnlyBackups(disk.files, old(disk.files), gone)
      ensures disk.Undisturbed(old(disk.done)) ==>
        forall id <- gone :: Manifest(id) !in disk.files && Data(id) !in disk.files
    {
      for i := 0 to |expired|
        invariant Valid() && disk.Later(old(disk.moments), old(disk.done))
        invariant AllOnlyBackups(disk.moments, |old(disk.moments)|, old(disk.files), gone)
        invariant OnlyBackups(disk.files, old(disk.files), gone)
        invariant disk.Undisturbed(old(disk.done)) ==>
          forall k :: 0 <= k < i ==> Manifest(expired[k].id) !in disk.files && Data(expired[k].id) !in disk.files
      {
        assert expired[i].id in gone by { assert expired[i] in expired; }
        ghost var middle, from, since := disk.files, |disk.moments|, disk.done;
        RemoveBackup(expired[i].id);
        Composed(disk.moments, |old(disk.moments)|, from, old(disk.files), middle, gone);
        Composed([disk.files], 0, 0, old(disk.files), middle, gone);
        assert disk.Undisturbed(old(disk.done)) ==> disk.Undisturbed(since);
      }
    }

    static lemma Composed(moments: seq<Files>, from: nat, middle: nat, before: Files, files: Files, ids: set<nat>)
      requires from <= middle && OnlyBackups(files, before, ids)
      requires forall i :: from <= i < middle && i < |moments| ==> OnlyBackups(moments[i], before, ids)
      requires forall i :: middle <= i < |moments| ==> OnlyBackups(moments[i], files, ids)
      ensures AllOnlyBackups(moments, from, before, ids)
    {
      forall i | from <= i < |moments| ensures OnlyBackups(moments[i], before, ids) {
        if i >= middle {
          OnlyBackupsTwice(moments[i], files, before, ids);
        }
      }
    }

    static lemma OnlyBackupsTwice(c: Files, b: Files, a: Files, ids: set<nat>)
      requires OnlyBackups(c, b, ids) && OnlyBackups(b, a, ids)
      ensures OnlyBackups(c, a, ids)
    {
    }

    method RemoveBackup(id: nat)
      requires Valid()
      modifies disk
      ensures Valid() && disk.Later(old(disk.moments), old(disk.done)) && disk.files.Keys <= old(disk.files).Keys
      ensures AllOnlyBackups(disk.moments, |old(disk.moments)|, old(disk.files), {id})
      ensures OnlyBackups(disk.files, old(disk.files), {id})
      ensures disk.Undisturbed(old(disk.done)) ==> Manifest(id) !in disk.files && Data(id) !in disk.files
    {
      var removed := disk.Remove(Data(id));
      assert OnlyBackups(disk.files, old(disk.files), {id});
      removed := disk.Remove(Manifest(id));
    }

    static lemma LiveContinues(past: seq<Files>, moments: seq<Files>, from: nat, a: Option<Content>, b: Option<Content>)
      requires past <= moments && from <= |past| && LiveAmong(past, from, a, b) && LiveAmong(moments, |past|, a, b)
      ensures LiveAmong(moments, from, a, b)
    {
      forall i | from <= i < |moments| ensures At(moments[i], Live) == a || At(moments[i], Live) == b {
        assert i < |past| ==> moments[i] == past[i];
      }
    }

    /** The live save stays what it is. */
    ghost predicate LiveStays(since: nat, live: Option<Content>)
      reads disk
    {
      LiveAmong(disk.moments, since, live, live) && At(disk.files, Live) == live
    }

    /** Data, then manifest, each written atomically. */
    method WriteBackup(r: Record) returns (ok: bool)
      requires Valid() && r.id < nextId && r.created < clock
      modifies disk
      ensures Valid() && disk.Later(old(disk.moments), old(disk.done))
      ensures LiveStays(|old(disk.moments)|, At(old(disk.files), Live))
      ensures ok ==> Intact(disk.files, r)
      ensures disk.Undisturbed(old(disk.done)) ==> ok
      ensures forall p: Path | !p.Temporary? && p != Data(r.id) && p != Manifest(r.id) ::
        At(disk.files, p) == At(old(disk.files), p)
      ensures (forall x: Record | Intact(old(disk.files), x) :: x.id != r.id) ==>
        AllOthers(disk.moments, |old(disk.moments)|, old(disk.files), r.slot, r.source)
    {
      ghost var files, from := disk.files, |disk.moments|;
      ghost var fresh' := forall x: Record | Intact(files, x) :: x.id != r.id;
      ok := disk.WriteBytes(Data(r.id), Raw(r.bytes));
      StaysValid(disk.files, files, Data(r.id), Raw(r.bytes), nextId, clock);
      ghost var past, middle := disk.moments, disk.files;
      if fresh' {
        AllTouchedOthers(disk.moments, from, files, Data(r.id), Raw(r.bytes), r.slot, r.source);
      }
      if ok {
        ok := disk.WriteBytes(Manifest(r.id), Json(r));
        StaysValid(disk.files, middle, Manifest(r.id), Json(r), nextId, clock);
        LiveContinues(past, disk.moments, from, At(files, Live), At(files, Live));
        if fresh' {
          SecondWrite(past, disk.moments, from, files, middle, r);
        }
      }
    }

    static lemma SecondWrite(past: seq<Files>, moments: seq<Files>, from: nat, files: Files, middle: Files, r: Record)
      requires past <= moments && from <= |past| && AllOthers(past, from, files, r.slot, r.source)
      requires forall x: Record | Intact(files, x) :: x.id != r.id
      requires Touched(middle, files, Data(r.id), Raw(r.bytes))
      requires AllTouched(moments, |past|, middle, Manifest(r.id), Json(r))
      ensures AllOthers(moments, from, files, r.slot, r.source)
    {
      forall i | from <= i < |moments| ensures Others(moments[i], files, r.slot, r.source) {
        if i < |past| {
          assert moments[i] == past[i];
        } else {
          assert Touched(moments[i], middle, Manifest(r.id), Json(r));
        }
      }
    }

    /** A new backup; it is the newest of its kind, so retention leaves it. */
    method BackupBytes(slot: nat, source: Source, bytes: seq<byte>) returns (record: Option<Record>)
      requires Valid()
      modifies this, disk
      ensures Valid() && disk.Later(old(disk.moments), old(disk.done))
      ensures LiveStays(|old(disk.moments)|, At(old(disk.files), Live))
      ensures record.Some? ==> record == Some(Record(old(nextId), old(clock), source, slot, bytes))
      ensures record.Some? ==> Intact(disk.files, record.value)
      ensures disk.Undisturbed(old(disk.done)) ==> record.Some?
      ensures Others(disk.files, old(disk.files), slot, source)
      ensures AllOthers(disk.moments, |old(disk.moments)|, old(disk.files), slot, source)
      ensures forall k: nat | k < old(nextId) ::
        (At(disk.files, Data(k)) == At(old(disk.files), Data(k)) || At(disk.files, Data(k)).None?)
      ensures disk.Undisturbed(old(disk.done)) ==> forall r: Record | Intact(old(disk.files), r) ::
        LeftOrLost(disk.files, r,
          Survives(old(disk.files), old(nextId), Record(old(nextId), old(clock), source, slot, bytes), r))
    {
      var r := Record(nextId, clock, source, slot, bytes);
      nextId, clock := nextId + 1, clock + 1;
      ghost var files, from := disk.files, |disk.moments|;
      var ok := WriteBackup(r);
      ghost var past, written := disk.moments, disk.files;
      if !ok {
        return None;
      }
      ok := Retain(r, files);
      LiveContinues(past, disk.moments, from, At(files, Live), At(files, Live));
      OthersContinue(past, disk.moments, from, files, written, slot, source);
      record := if ok then Some(r) else None;
    }

    /** Retention after `added` was written; it is the newest of its kind and stays. */
    method Retain(added: Record, ghost before: Files) returns (ok: bool)
      requires Valid() && Intact(disk.files, added) && added.id + 1 == nextId && added.created + 1 == clock
      requires ValidFiles(before, added.id, added.created)
      requires forall id: nat | id < added.id :: At(disk.files, Manifest(id)) == At(before, Manifest(id))
      requires forall id: nat | id < added.id :: At(disk.files, Data(id)) == At(before, Data(id))
      modifies disk
      ensures Valid() && disk.Later(old(disk.moments), old(disk.done)) && (disk.Undisturbed(old(disk.done)) ==> ok)
      ensures LiveStays(|old(disk.moments)|, At(old(disk.files), Live)) && Intact(disk.files, added)
      ensures Others(disk.files, old(disk.files), added.slot, added.source)
      ensures AllOthers(disk.moments, |old(disk.moments)|, old(disk.files), added.slot, added.source)
      ensures forall k: nat ::
        (At(disk.files, Data(k)) == At(old(disk.files), Data(k)) || At(disk.files, Data(k)).None?)
      ensures disk.Undisturbed(old(disk.done)) ==> forall r: Record | Intact(before, r) ::
        LeftOrLost(disk.files, r, Survives(before, added.id, added, r))
    {
      ghost var records, gone, written := [], {}, disk.files;
      ok, records, gone := ApplyRetention(added.slot, added.source);
      OlderThan(before, written, added, records);
      NewestSurvives(records, added.slot, added.source, added);
      GoneMatched(records, added.slot, added.source, written, gone);
      RetainedOthers(disk.moments, |old(disk.moments)|, written, added.slot, added.source, gone);
      RetainedOthers([disk.files], 0, written, added.slot, added.source, gone);
      assert Others([disk.files][0], written, added.slot, added.source);
      if disk.Undisturbed(old(disk.done)) {
        RetentionOutcome(before, written, disk.files, added, records, gone);
      }
    }

    static lemma RetainedOthers(moments: seq<Files>, from: nat, files: Files, slot: nat, source: Source, gone: set<nat>)
      requires AllOnlyBackups(moments, from, files, gone)
      requires forall id <- gone :: (Manifest(id) in files && files[Manifest(id)].Json?
        && files[Manifest(id)].record.slot == slot && files[Manifest(id)].record.source == source)
      ensures AllOthers(moments, from, files, slot, source)
    {
      forall i | from <= i < |moments| ensures Others(moments[i], files, slot, source) {
        assert OnlyBackups(moments[i], files, gone);
        forall r: Record | Intact(files, r) && (r.slot != slot || r.source != source) ensures Intact(moments[i], r) {
          assert r.id !in gone;
        }
      }
    }

    static lemma OlderThan(before: Files, written: Files, added: Record, records: seq<Record>)
      requires ValidFiles(before, added.id, added.created) && ValidFiles(written, added.id + 1, added.created + 1)
      requires Intact(written, added) && Listed(records, written)
      requires forall id: nat | id < added.id :: At(written, Manifest(id)) == At(before, Manifest(id))
      ensures forall r | r in records && r != added :: r.created < added.created
    {
      forall r | r in records && r != added ensures r.created < added.created {
        assert At(written, Manifest(r.id)) == Some(Json(r));
        assert At(before, Manifest(r.id)) == Some(Json(r));
      }
    }

    /** What retention removed after `added` was written, seen from the files before. */
    static lemma RetentionOutcome(before: Files, written: Files, after: Files, added: Record, records: seq<Record>,
                                  gone: set<nat>)
      requires ValidFiles(before, added.id, added.created) && Intact(written, added)
      requires forall id: nat | id < added.id :: At(written, Manifest(id)) == At(before, Manifest(id))
      requires forall id: nat | id < added.id :: At(written, Data(id)) == At(before, Data(id))
      requires records == SortNewest(RecordsBelow(written, added.id + 1))
      requires gone == set r | r in Expired(records, added.slot, added.source) :: r.id
      requires forall r | r in Expired(records, added.slot, added.source) ::
        At(written, Manifest(r.id)) == Some(Json(r))
      requires OnlyBackups(after, written, gone)
      requires forall id <- gone :: Manifest(id) !in after && Data(id) !in after
      ensures forall r: Record | Intact(before, r) :: LeftOrLost(after, r, Survives(before, added.id, added, r))
    {
      SameRecords(before, written, added.id);
      assert RecordsBelow(written, added.id + 1) == RecordsBelow(before, added.id) + [added];
      forall r: Record | Intact(before, r) ensures LeftOrLost(after, r, Survives(before, added.id, added, r)) {
        assert r.id < added.id && Intact(written, r);
        assert r.id in gone <==> r in Expired(records, added.slot, added.source);
      }
    }

    static lemma GoneMatched(records: seq<Record>, slot: nat, source: Source, files: Files, gone: set<nat>)
      requires Listed(records, files) && gone == set r | r in Expired(records, slot, source) :: r.id
      ensures forall id <- gone :: (Manifest(id) in files && files[Manifest(id)].Json?
        && files[Manifest(id)].record.slot == slot && files[Manifest(id)].record.source == source
        && files[Manifest(id)].record in Expired(records, slot, source))
      ensures forall r | r in Expired(records, slot, source) :: At(files, Manifest(r.id)) == Some(Json(r))
    {
      SortKeeps(Matching(records, slot, source));
      forall r | r in Expired(records, slot, source) ensures r in records {
        assert r in multiset(SortNewest(Matching(records, slot, source)));
      }
      forall id <- gone
        ensures Manifest(id) in files && files[Manifest(id)].Json?
          && files[Manifest(id)].record.slot == slot && files[Manifest(id)].record.source == source
          && files[Manifest(id)].record in Expired(records, slot, source)
      {
        var r :| r in Expired(records, slot, source) && r.id == id;
        assert r in multiset(SortNewest(Matching(records, slot, source)));
      }
    }

    /** Backs up the live save, which must not change while it is read. */
    method BackupLive(slot: nat, source: Source) returns (record: Option<Record>)
      requires Valid()
      modifies this, disk
      ensures Valid() && disk.Later(old(disk.moments), old(disk.done))
      ensures LiveStays(|old(disk.moments)|, At(old(disk.files), Live))
      ensures record.Some? ==>
        && record == Some(Record(old(nextId), old(clock), source, slot, record.value.bytes))
        && Intact(disk.files, record.value)
        && At(old(disk.files), Live) == Some(Raw(record.value.bytes))
      ensures (disk.Undisturbed(old(disk.done)) && At(old(disk.files), Live).Some?
        && At(old(disk.files), Live).value.Raw?) ==> record.Some?
      ensures Others(disk.files, old(disk.files), slot, source)
      ensures AllOthers(disk.moments, |old(disk.moments)|, old(disk.files), slot, source)
      ensures forall k: nat | k < old(nextId) ::
        (At(disk.files, Data(k)) == At(old(disk.files), Data(k)) || At(disk.files, Data(k)).None?)
      ensures disk.Undisturbed(old(disk.done)) && record.Some? ==> forall r: Record | Intact(old(disk.files), r) ::
        LeftOrLost(disk.files, r, Survives(old(disk.files), old(nextId), record.value, r))
    {
      var content := disk.Read(Live);
      var again := disk.Read(Live);
      assert disk.Undisturbed(old(disk.done)) ==> !disk.fails(old(disk.done)) && !disk.fails(old(disk.done) + 1);
      if content.None? || again.None? || content != again || !content.value.Raw? {
        return None;
      }
      record := BackupBytes(slot, source, content.value.bytes);
    }

    /** The live save as it was read, when reading succeeds. */
    method ReadBack(path: Path, bytes: seq<byte>) returns (same: bool)
      modifies disk`done
      ensures disk.done == old(disk.done) + 1
      ensures same ==> At(disk.files, path) == Some(Raw(bytes))
      ensures disk.Undisturbed(old(disk.done)) && At(disk.files, path) == Some(Raw(bytes)) ==> same
    {
      var content := disk.Read(path);
      assert disk.Undisturbed(old(disk.done)) ==> !disk.fails(old(disk.done));
      same := content == Some(Raw(bytes));
    }

    /** Finds a record, checks its data, backs up what is live now, and puts the data in its place. */
    method RestoreLocal(id: nat, ghost r: Record) returns (ok: bool)
      requires Valid() && Intact(disk.files, r) && r.id == id
      modifies this, disk
      ensures Valid() && disk.Later(old(disk.moments), old(disk.done))
      ensures LiveAmong(disk.moments, |old(disk.moments)|, At(old(disk.files), Live), Some(Raw(r.bytes)))
      ensures At(disk.files, Live) == At(old(disk.files), Live) || At(disk.files, Live) == Some(Raw(r.bytes))
      ensures ok ==> At(disk.files, Live) == Some(Raw(r.bytes))
      ensures (disk.Undisturbed(old(disk.done))
        && (At(old(disk.files), Live).Some? ==> At(old(disk.files), Live).value.Raw?)) ==>
        (ok <==> Restorable(old(disk.files), old(nextId), old(clock), r))
        && (!ok ==> Manifest(id) !in disk.files && Data(id) !in disk.files)
      ensures AllOthers(disk.moments, |old(disk.moments)|, old(disk.files), r.slot, LocalBeforeRestore)
      ensures Others(disk.files, old(disk.files), r.slot, LocalBeforeRestore)
      ensures CopyKept(disk.moments, |old(disk.moments)|, At(old(disk.files), Live), r.slot, LocalBeforeRestore)
    {
      ghost var since := disk.done;
      var found := FindVerified(id, r);
      if found.None? {
        NothingOwed(disk.moments, |disk.moments|, At(disk.files, Live), r.slot, LocalBeforeRestore);
        return false;
      }
      ghost var verified := disk.done;
      assert disk.Undisturbed(since) ==> disk.Undisturbed(verified);
      ok := RestoreOver(id, found.value.slot, r);
    }

    /** Puts a backup made before a pull back; it stays in place meanwhile. */
    method RollBack(copy: Record) returns (restored: bool)
      requires Valid() && Intact(disk.files, copy) && copy.source == LocalBeforePull
      requires At(disk.files, Live).Some? ==> At(disk.files, Live).value.Raw?
      modifies this, disk
      ensures Valid() && disk.Later(old(disk.moments), old(disk.done))
      ensures LiveAmong(disk.moments, |old(disk.moments)|, At(old(disk.files), Live), Some(Raw(copy.bytes)))
      ensures At(disk.files, Live) == At(old(disk.files), Live) || At(disk.files, Live) == Some(Raw(copy.bytes))
      ensures restored ==> At(disk.files, Live) == Some(Raw(copy.bytes))
      ensures disk.Undisturbed(old(disk.done)) ==> restored
      ensures forall i :: |old(disk.moments)| <= i < |disk.moments| ==> Intact(disk.moments[i], copy)
    {
      ghost var files := disk.files;
      OthersAreRestorable(disk.files, nextId, clock, copy);
      restored := RestoreLocal(copy.id, copy);
      assert forall i :: |old(disk.moments)| <= i < |disk.moments| ==>
        Others(disk.moments[i], files, copy.slot, LocalBeforeRestore);
    }

    /** The record, with its data checked. */
    method FindVerified(id: nat, ghost r: Record) returns (found: Option<Record>)
      requires Valid() && Intact(disk.files, r) && r.id == id
      modifies disk`done
      ensures disk.done > old(disk.done) && (found.Some? ==> found.value == r)
      ensures disk.Undisturbed(old(disk.done)) ==> found.Some?
    {
      ghost var since := disk.done;
      RecordIsBelow(disk.files, nextId, r);
      SortedMatching(RecordsBelow(disk.files, nextId), r.slot, r.source, r);
      var listed, records := List();
      found := Find(records, id);
      if !listed || found.None? {
        assert !disk.Undisturbed(since);
        return None;
      }
      ghost var read := disk.done;
      var verified := ReadBack(Data(id), found.value.bytes);
      if !verified {
        assert !disk.Undisturbed(read);
        return None;
      }
    }

    /** Backs up what is live, if anything, then puts the backup's data in its place. */
    method RestoreOver(id: nat, slot: nat, ghost r: Record) returns (ok: bool)
      requires Valid() && Intact(disk.files, r) && id == r.id && slot == r.slot
      modifies this, disk
      ensures Valid() && disk.Later(old(disk.moments), old(disk.done))
      ensures LiveAmong(disk.moments, |old(disk.moments)|, At(old(disk.files), Live), Some(Raw(r.bytes)))
      ensures At(disk.files, Live) == At(old(disk.files), Live) || At(disk.files, Live) == Some(Raw(r.bytes))
      ensures ok ==> At(disk.files, Live) == Some(Raw(r.bytes))
      ensures (disk.Undisturbed(old(disk.done))
        && (At(old(disk.files), Live).Some? ==> At(old(disk.files), Live).value.Raw?)) ==>
        (ok <==> Restorable(old(disk.files), old(nextId), old(clock), r))
        && (!ok ==> Manifest(r.id) !in disk.files && Data(r.id) !in disk.files)
      ensures AllOthers(disk.moments, |old(disk.moments)|, old(disk.files), r.slot, LocalBeforeRestore)
      ensures Others(disk.files, old(disk.files), r.slot, LocalBeforeRestore)
      ensures CopyKept(disk.moments, |old(disk.moments)|, At(old(disk.files), Live), r.slot, LocalBeforeRestore)
    {
      ghost var files, since, from := disk.files, disk.done, |disk.moments|;
      ghost var restorable := Restorable(disk.files, nextId, clock, r);
      ghost var copy: Option<Record> := None;
      if Live in disk.files {
        var saved := BackupLive(slot, LocalBeforeRestore);
        if saved.None? {
          NothingOwed(disk.moments, from, At(files, Live), slot, LocalBeforeRestore);
          return false;
        }
        copy := saved;
        assert disk.Undisturbed(since) ==> LeftOrLost(disk.files, r, restorable);
      }
      ghost var past, replaced, middle := disk.moments, disk.done, disk.files;
      ok := Replace(id, r);
      LiveContinues(past, disk.moments, from, At(files, Live), Some(Raw(r.bytes)));
      OthersContinue(past, disk.moments, from, files, middle, slot, LocalBeforeRestore);
      if copy.Some? {
        CoveredAfter(past, disk.moments, from, middle, copy.value);
      }
      assert disk.Undisturbed(since) ==> disk.Undisturbed(replaced);
    }

    /** A backup of the live save that was in place before it was replaced stays in place. */
    static lemma CoveredAfter(past: seq<Files>, moments: seq<Files>, from: nat, middle: Files, copy: Record)
      requires past <= moments && from <= |past| && Intact(middle, copy)
      requires LiveAmong(past, from, Some(Raw(copy.bytes)), Some(Raw(copy.bytes)))
      requires forall i :: |past| <= i < |moments| ==> Intact(middle, copy) ==> Intact(moments[i], copy)
      ensures Covered(moments, from, copy.bytes, copy)
    {
      assert Covered(past, from, copy.bytes, copy);
      CoveredLater(past, moments, from, copy.bytes, copy);
    }

    method Find(records: seq<Record>, id: nat) returns (found: Option<Record>)
      ensures found.Some? ==> found.value in records && found.value.id == id
      ensures found.None? ==> forall r :: r in records ==> r.id != id
    {
      for i := 0 to |records|
        invariant forall k :: 0 <= k < i ==> records[k].id != id
      {
        if records[i].id == id {
          return Some(records[i]);
        }
      }
      return None;
    }

    /** Copies a backup's data over the live save and reads it back. */
    method Replace(id: nat, ghost r: Record) returns (ok: bool)
      requires Valid() && r.id == id
        && (At(disk.files, Data(id)) == Some(Raw(r.bytes)) || At(disk.files, Data(id)).None?)
      modifies this, disk
      ensures Valid() && disk.Later(old(disk.moments), old(disk.done))
      ensures LiveAmong(disk.moments, |old(disk.moments)|, At(old(disk.files), Live), Some(Raw(r.bytes)))
      ensures At(disk.files, Live) == At(old(disk.files), Live) || At(disk.files, Live) == Some(Raw(r.bytes))
      ensures ok ==> At(disk.files, Live) == Some(Raw(r.bytes))
      ensures ok ==> At(old(disk.files), Data(id)).Some?
      ensures disk.Undisturbed(old(disk.done)) && At(old(disk.files), Data(id)).Some? ==> ok
      ensures At(disk.files, Data(id)) == At(old(disk.files), Data(id))
      ensures At(disk.files, Manifest(id)) == At(old(disk.files), Manifest(id))
      ensures forall x: Record | Intact(old(disk.files), x) :: Intact(disk.files, x)
      ensures forall i, x: Record | |old(disk.moments)| <= i < |disk.moments| && Intact(old(disk.files), x) ::
        Intact(disk.moments[i], x)
    {
      ghost var files := disk.files;
      var data := disk.Read(Data(id));
      assert disk.Undisturbed(old(disk.done)) ==> !disk.fails(old(disk.done));
      if data.None? {
        return false;
      }
      ok := disk.WriteBytes(Live, data.value);
      StaysValid(disk.files, files, Live, data.value, nextId, clock);
      if ok {
        ok := ReadBack(Live, data.value.bytes);
      }
    }
  }

  datatype PullResult = Refused | NotStarted | Replaced | RolledBack | RollbackFailed

  /** One slot's live save and the BASE the running operation has in hand for it. */
  class LiveSave {
    const manager: BackupManager
    const slot: nat
    var base: Option<seq<byte>>

    constructor (manager: BackupManager, slot: nat, base: Option<seq<byte>>)
      ensures this.manager == manager && this.slot == slot && this.base == base
    {
      this.manager, this.slot, this.base := manager, slot, base;
    }

    /**
     * Replaces the live save. At every moment, so also after a crash at any moment, it is exactly the
     * old or exactly the new save; the result says which, and BASE follows the new one only. A rollback
     * can only fail when a second operation on the disk fails.
     */
    method PullOne(bytes: seq<byte>, allowed: bool) returns (result: PullResult)
      requires manager.Valid()
      requires At(manager.disk.files, Live).Some? && At(manager.disk.files, Live).value.Raw?
      modifies this, manager, manager.disk
      ensures manager.Valid() && manager.disk.Later(old(manager.disk.moments), old(manager.disk.done))
      ensures LiveAmong(manager.disk.moments, |old(manager.disk.moments)|, At(old(manager.disk.files), Live),
        Some(Raw(bytes)))
      ensures result == Replaced ==> At(manager.disk.files, Live) == Some(Raw(bytes)) && base == Some(bytes)
      ensures result in {Refused, NotStarted, RolledBack} ==>
        At(manager.disk.files, Live) == At(old(manager.disk.files), Live)
      ensures result != Replaced ==> base == old(base)
      ensures result == Refused <==> !allowed
      ensures manager.disk.Undisturbed(old(manager.disk.done)) && allowed ==> result == Replaced
      ensures CopyKept(manager.disk.moments, |old(manager.disk.moments)|, At(old(manager.disk.files), Live), slot,
        LocalBeforePull)
      ensures result == RollbackFailed ==>
        exists j, k :: old(manager.disk.done) <= j < k < manager.disk.done && manager.disk.fails(j)
          && manager.disk.fails(k)
    {
      var disk := manager.disk;
      if !allowed {
        NothingOwed(disk.moments, |disk.moments|, At(disk.files, Live), slot, LocalBeforePull);
        return Refused;
      }
      ghost var live, from, since := At(disk.files, Live), |disk.moments|, disk.done;
      var backup := manager.BackupLive(slot, LocalBeforePull);
      if backup.None? {
        NothingOwed(disk.moments, from, live, slot, LocalBeforePull);
        return NotStarted;
      }
      ghost var past, files, started := disk.moments, disk.files, disk.done;
      var ok := disk.WriteBytes(Live, Raw(bytes));
      StaysValid(disk.files, files, Live, Raw(bytes), manager.nextId, manager.clock);
      if ok {
        ok := manager.ReadBack(Live, bytes);
      }
      manager.LiveContinues(past, disk.moments, from, live, Some(Raw(bytes)));
      manager.CoveredAfter(past, disk.moments, from, files, backup.value);
      if ok {
        base := Some(bytes);
        return Replaced;
      }
      ghost var failed := disk.done;
      past := disk.moments;
      assert !disk.Undisturbed(started);
      var restored := manager.RollBack(backup.value);
      manager.LiveContinues(past, disk.moments, from, live, Some(Raw(bytes)));
      CoveredLater(past, disk.moments, from, live.value.bytes, backup.value);
      result := if restored then RolledBack else RollbackFailed;
      if !restored {
        assert !disk.Undisturbed(failed);
        TwoFailures(disk, started, failed);
      }
    }

    static lemma TwoFailures(disk: Disk, started: nat, failed: nat)
      requires exists j :: started <= j < failed && disk.fails(j)
      requires !disk.Undisturbed(failed)
      ensures exists j, k :: started <= j < k < disk.done && disk.fails(j) && disk.fails(k)
    {
      var j :| started <= j < failed && disk.fails(j);
      var k :| failed <= k < disk.done && disk.fails(k);
      assert disk.fails(j) && disk.fails(k) && j < k;
    }
  }
}
