/** Backups, their retention, and replacing the live save, on a disk where any operation may fail. */
module Backups {
  import opened Bytes

  // Records, and the order in which retention sees them.

  datatype Source = LocalBeforePull | LocalBeforeRestore | OtherSource(name: string)

  /** A record identifies its bytes; `created` is its time. */
  datatype Record = Record(id: nat, created: int, source: Source, slot: nat, bytes: seq<byte>)

  const RETAINED: nat := 12

  ghost predicate NewestFirst(s: seq<Record>)
  {
    forall i, j :: 0 <= i < j < |s| ==> s[i].created >= s[j].created
  }

  function Insert(r: Record, s: seq<Record>): seq<Record>
  {
    if s == [] || r.created >= s[0].created then [r] + s else [s[0]] + Insert(r, s[1..])
  }

  function SortNewest(s: seq<Record>): seq<Record>
  {
    if s == [] then [] else Insert(s[0], SortNewest(s[1..]))
  }

  lemma {:induction false} InsertAdds(r: Record, s: seq<Record>)
    ensures multiset(Insert(r, s)) == multiset(s) + multiset{r}
  {
    if s != [] && r.created < s[0].created {
      InsertAdds(r, s[1..]);
      assert multiset(s) == multiset{s[0]} + multiset(s[1..]) by { assert s == [s[0]] + s[1..]; }
    }
  }

  lemma {:induction false} InsertIsSorted(r: Record, s: seq<Record>)
    requires NewestFirst(s)
    ensures NewestFirst(Insert(r, s))
    ensures Insert(r, s) != [] && Insert(r, s)[0].created == if s == [] then r.created else Later(r, s[0])
  {
    if s != [] && r.created < s[0].created {
      InsertIsSorted(r, s[1..]);
    }
  }

  function Later(a: Record, b: Record): int { if a.created >= b.created then a.created else b.created }

  lemma {:induction false} SortKeeps(s: seq<Record>)
    ensures NewestFirst(SortNewest(s)) && multiset(SortNewest(s)) == multiset(s)
  {
    if s != [] {
      SortKeeps(s[1..]);
      InsertAdds(s[0], SortNewest(s[1..]));
      InsertIsSorted(s[0], SortNewest(s[1..]));
      assert s == [s[0]] + s[1..];
    }
  }

  function Matching(s: seq<Record>, slot: nat, source: Source): (m: seq<Record>)
    ensures forall r :: r in m <==> r in s && r.slot == slot && r.source == source
  {
    if s == [] then []
    else if s[0].slot == slot && s[0].source == source then [s[0]] + Matching(s[1..], slot, source)
    else Matching(s[1..], slot, source)
  }

  /** What retention removes: the matching records after the first twelve, newest first. */
  function Expired(s: seq<Record>, slot: nat, source: Source): seq<Record>
  {
    var m := SortNewest(Matching(s, slot, source));
    if |m| <= RETAINED then [] else m[RETAINED..]
  }

  function Kept(s: seq<Record>, slot: nat, source: Source): seq<Record>
  {
    var m := SortNewest(Matching(s, slot, source));
    if |m| <= RETAINED then m else m[..RETAINED]
  }

  /** Twelve records stay, or all when there are fewer, and no removed one is newer than one that stays. */
  lemma RetentionKeepsNewest(s: seq<Record>, slot: nat, source: Source)
    ensures |Kept(s, slot, source)| == Min(12, |Matching(s, slot, source)|)
    ensures multiset(Kept(s, slot, source)) + multiset(Expired(s, slot, source)) == multiset(Matching(s, slot, source))
    ensures forall kept, gone | kept in Kept(s, slot, source) && gone in Expired(s, slot, source) ::
      kept.created >= gone.created
  {
    var m := SortNewest(Matching(s, slot, source));
    SortKeeps(Matching(s, slot, source));
    assert |m| == |multiset(m)| == |multiset(Matching(s, slot, source))|;
    assert |m| > RETAINED ==> m == m[..RETAINED] + m[RETAINED..];
  }

  /** The strictly newest record never expires. */
  lemma NewestSurvives(s: seq<Record>, slot: nat, source: Source, newest: Record)
    requires forall r | r in s && r != newest :: r.created < newest.created
    requires multiset(s)[newest] <= 1
    ensures newest !in Expired(s, slot, source)
  {
    var m := SortNewest(Matching(s, slot, source));
    SortKeeps(Matching(s, slot, source));
    MatchingOnce(s, slot, source, newest);
    forall i | RETAINED <= i < |m| ensures m[i] != newest {
      assert m == [m[0]] + m[1..] && m[1..][i - 1] == m[i] && m[i] in multiset(m[1..]);
      assert m[0].created >= m[i].created && m[0] in multiset(m);
    }
  }

  /** The strictly oldest of more than twelve matching records always expires. */
  lemma OldestExpires(s: seq<Record>, slot: nat, source: Source, oldest: Record)
    requires oldest in Matching(s, slot, source) && |Matching(s, slot, source)| > 12
    requires forall r | r in Matching(s, slot, source) && r != oldest :: r.created > oldest.created
    ensures oldest in Expired(s, slot, source)
  {
    var kept, gone := Kept(s, slot, source), Expired(s, slot, source);
    RetentionKeepsNewest(s, slot, source);
    assert |multiset(kept) + multiset(gone)| == |multiset(Matching(s, slot, source))|;
    var last := gone[0];
    assert last in multiset(gone) && oldest in multiset(Matching(s, slot, source));
    assert last in multiset(Matching(s, slot, source));
    assert last == oldest || oldest !in multiset(kept);
  }

  lemma {:induction false} MatchingOnce(s: seq<Record>, slot: nat, source: Source, r: Record)
    ensures multiset(Matching(s, slot, source))[r] <= multiset(s)[r]
  {
    if s != [] {
      assert s == [s[0]] + s[1..];
      MatchingOnce(s[1..], slot, source, r);
    }
  }

  // The disk.

  datatype Path = Live | Data(id: nat) | Manifest(id: nat) | Temporary(number: nat)

  datatype Content = Raw(bytes: seq<byte>) | Json(record: Record)

  type Files = map<Path, Content>

  function At(files: Files, path: Path): Option<Content>
  {
    if path in files then Some(files[path]) else None
  }

  /** Besides temporary files, `now` differs from `before` at most by holding `content` at `path`. */
  ghost predicate Touched(now: Files, before: Files, path: Path, content: Content)
  {
    forall p: Path :: !p.Temporary? ==> (At(now, p) == At(before, p) || (p == path && At(now, p) == Some(content)))
  }

  ghost predicate AllTouched(moments: seq<Files>, from: nat, before: Files, path: Path, content: Content)
  {
    forall i :: from <= i < |moments| ==> Touched(moments[i], before, path, content)
  }

  /** Operations on the disk, numbered; `fails` says which of them fail. */
  class Disk {
    var files: Files
    var done: nat
    const fails: nat -> bool
    var temporaries: nat
    /** Every state the disk has been in, which is what a crash can leave behind. */
    ghost var moments: seq<Files>

    constructor (files: Files, fails: nat -> bool)
      ensures this.files == files && this.fails == fails && done == 0 && moments == [files]
    {
      this.files, this.fails, done, temporaries, moments := files, fails, 0, 0, [files];
    }

    /** No operation since the given one failed. */
    ghost predicate Undisturbed(since: nat)
      reads this
    {
      forall k :: since <= k < done ==> !fails(k)
    }

    ghost predicate Later(past: seq<Files>, since: nat)
      reads this
    {
      past <= moments && since <= done
    }

    /** One operation that changes nothing, such as flushing a file or a directory. */
    method Attempt() returns (ok: bool)
      modifies this`done
      ensures done == old(done) + 1 && ok == !fails(old(done))
    {
      ok := !fails(done);
      done := done + 1;
    }

    method Read(path: Path) returns (content: Option<Content>)
      modifies this`done
      ensures done == old(done) + 1
      ensures content.Some? ==> At(files, path) == content
      ensures content.None? ==> fails(old(done)) || path !in files
    {
      var ok := Attempt();
      content := if ok then At(files, path) else None;
    }

    /** Writing a file may leave any part of it when it fails. */
    method Put(path: Path, content: Content) returns (ok: bool)
      requires path.Temporary?
      modifies this
      ensures done == old(done) + 1 && ok == !fails(old(done)) && temporaries == old(temporaries)
      ensures ok ==> At(files, path) == Some(content)
      ensures moments == old(moments) + [files]
      ensures forall p: Path :: p != path ==> At(files, p) == At(old(files), p)
    {
      ok := Attempt();
      var part: Content := *;
      files := files[path := if ok then content else part];
      moments := moments + [files];
    }

    method Rename(from: Path, to: Path) returns (ok: bool)
      requires from in files && from != to
      modifies this
      ensures done == old(done) + 1 && ok == !fails(old(done)) && temporaries == old(temporaries)
      ensures files == if ok then old(files)[to := old(files)[from]] - {from} else old(files)
      ensures moments == old(moments) + [files]
    {
      ok := Attempt();
      if ok {
        files := files[to := files[from]] - {from};
      }
      moments := moments + [files];
    }

    method Remove(path: Path) returns (ok: bool)
      modifies this
      ensures done == old(done) + 1 && ok == !fails(old(done)) && temporaries == old(temporaries)
      ensures files == if ok then old(files) - {path} else old(files)
      ensures moments == old(moments) + [files]
    {
      ok := Attempt();
      if ok {
        files := files - {path};
      }
      moments := moments + [files];
    }

    /**
     * Writes a temporary file and renames it into place. At every moment the file holds its old or its
     * new content; after an error it may hold either, since the directory is flushed after the rename.
     */
    method WriteBytes(path: Path, content: Content) returns (ok: bool)
      requires !path.Temporary?
      modifies this
      ensures Later(old(moments), old(done))
      ensures AllTouched(moments, |old(moments)|, old(files), path, content)
      ensures Touched(files, old(files), path, content)
      ensures ok ==> At(files, path) == Some(content)
      ensures Undisturbed(old(done)) ==> ok
    {
      var temp := Temporary(temporaries);
      temporaries := temporaries + 1;
      ok := Put(temp, content);
      assert Touched(files, old(files), path, content);
      if ok {
        ok := Attempt();
        if ok {
          ok := Rename(temp, path);
          assert Touched(files, old(files), path, content);
          if ok {
            ok := Attempt();
          }
        }
      }
      assert Touched(files, old(files), path, content);
      if !ok {
        var removed := Remove(temp);
        assert Touched(files, old(files), path, content);
      }
    }
  }
}
