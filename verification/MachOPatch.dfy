/** The patch carried out in place on a file's bytes. */
module MachOPatch {
  import opened Bytes
  import opened MachO

  method Unpack(data: array<byte>, at: nat) returns (v: u32)
    requires at + 4 <= data.Length
    ensures v == U32At(data[..], at)
  {
    FourBytes(data[..], at);
    v := data[at] as int + 0x100 * (data[at + 1] as int) + 0x1_0000 * (data[at + 2] as int)
      + 0x100_0000 * (data[at + 3] as int);
  }

  /** A word of a range of the file. */
  method UnpackIn(data: array<byte>, start: nat, end: nat, at: nat) returns (v: u32)
    requires start <= end <= data.Length && start + at + 4 <= end
    ensures v == U32At(data[start..end], at)
  {
    v := Unpack(data, start + at);
    WordInSlice(data[..], start, end, at);
    assert data[..][start..end] == data[start..end];
  }

  method ReadName(data: array<byte>, start: nat, end: nat) returns (name: seq<byte>)
    requires start <= end <= data.Length
    ensures name == UpToNul(data[start..end])
  {
    name := [];
    var i := start;
    while i < end && data[i] != 0
      invariant start <= i <= end
      invariant name + UpToNul(data[i..end]) == UpToNul(data[start..end])
    {
      assert data[i..end][1..] == data[i + 1..end];
      name := name + [data[i]];
      i := i + 1;
    }
  }

  method SectionsFrom(data: array<byte>, start: nat, end: nat, n: nat, first: nat) returns (least: Option<nat>)
    requires start + 72 <= end <= data.Length
    ensures least == Sections(data[start..end], 72, n, first)
  {
    var section: nat := 72;
    var f: nat := first;
    for i := 0 to n
      invariant section <= end - start + 80
      invariant Sections(data[start..end], section, n - i, f) == Sections(data[start..end], 72, n, first)
    {
      if section + 80 > end - start {
        return None;
      }
      var offset := UnpackIn(data, start, end, section + 48);
      if offset != 0 {
        f := Min(f, offset);
      }
      section := section + 80;
    }
    return Some(f);
  }

  /** Examines one load command. */
  method LookAt(data: array<byte>, start: nat, end: nat, first: nat, name: Name, decode: Decoder)
    returns (verdict: Verdict)
    requires start + 8 <= end <= data.Length
    ensures verdict == Look(data[start..end], first, name, decode)
  {
    var kind := UnpackIn(data, start, end, 0);
    if kind == LC_LOAD_DYLIB && end - start >= 24 {
      var offset := UnpackIn(data, start, end, 8);
      if 0 < offset < end - start {
        var raw := ReadName(data, start + offset, end);
        assert data[start..end][offset..] == data[start + offset..end];
        if decode(raw) == name.text {
          return Found;
        }
      }
    }
    if (kind == LC_ENCRYPTION_INFO || kind == LC_ENCRYPTION_INFO_64) && end - start >= 20 {
      var cryptid := UnpackIn(data, start, end, 16);
      if cryptid != 0 {
        return Malformed;
      }
    }
    verdict := Clear(first);
    if kind == LC_SEGMENT_64 && end - start >= 72 {
      var sections := UnpackIn(data, start, end, 64);
      var least := SectionsFrom(data, start, end, sections, first);
      verdict := if least.None? then Malformed else Clear(least.value);
    }
  }

  method ScanCommands(data: array<byte>, start: nat, end: nat, n: nat, first: nat, name: Name, decode: Decoder)
    returns (verdict: Verdict)
    requires start <= end <= data.Length
    ensures verdict == Scan(data[start..end], n, first, name, decode)
  {
    var cursor, f := start, first;
    for i := 0 to n
      invariant start <= cursor <= end
      invariant Scan(data[cursor..end], n - i, f, name, decode) == Scan(data[start..end], n, first, name, decode)
    {
      verdict, cursor := ScanCommand(data, cursor, end, n - i, f, name, decode);
      if !verdict.Clear? {
        return;
      }
      f := verdict.first;
    }
    return Clear(f);
  }

  /** One step of the walk. */
  method ScanCommand(data: array<byte>, cursor: nat, end: nat, n: nat, first: nat, name: Name, decode: Decoder)
    returns (verdict: Verdict, next: nat)
    requires cursor <= end <= data.Length && n > 0
    ensures cursor <= next <= end
    ensures verdict.Clear? ==>
      Scan(data[cursor..end], n, first, name, decode) == Scan(data[next..end], n - 1, verdict.first, name, decode)
    ensures !verdict.Clear? ==> Scan(data[cursor..end], n, first, name, decode) == verdict
  {
    next := cursor;
    if cursor + 8 > end {
      return Malformed, next;
    }
    var size := UnpackIn(data, cursor, end, 4);
    if size < 8 || cursor + size > end {
      return Malformed, next;
    }
    verdict := LookAt(data, cursor, cursor + size, first, name, decode);
    next := cursor + size;
    assert data[cursor..end][..size] == data[cursor..next] && data[cursor..end][size..] == data[next..end];
  }

  method AllZero(data: array<byte>, start: nat, end: nat) returns (zero: bool)
    requires start <= end <= data.Length
    ensures zero <==> data[start..end] == Zeros(end - start)
  {
    for i := start to end
      invariant forall k :: start <= k < i ==> data[k] == 0
    {
      if data[i] != 0 {
        assert data[start..end][i - start] != 0;
        return false;
      }
    }
    return true;
  }

  method Write(data: array<byte>, at: nat, bytes: seq<byte>)
    requires at + |bytes| <= data.Length
    modifies data
    ensures data[..] == old(data[..at]) + bytes + old(data[at + |bytes|..])
  {
    for i := 0 to |bytes|
      invariant data[..at] == old(data[..at]) && data[at..at + i] == bytes[..i]
      invariant data[at + i..] == old(data[at + i..])
    {
      data[at + i] := bytes[i];
      assert data[at..at + i + 1] == data[at..at + i] + [bytes[i]];
    }
    assert data[..] == data[..at] + data[at..at + |bytes|] + data[at + |bytes|..];
  }

  /** The file with one slice replaced. */
  function WithSlice(file: seq<byte>, base: nat, slice: seq<byte>): seq<byte>
    requires base + |slice| <= |file|
  {
    file[..base] + slice + file[base + |slice|..]
  }

  /**
   * Patches one slice in place. Only an addition changes the file, except that counts too large for
   * their fields are noticed after the command was written over the zero range.
   */
  method PatchSlice(data: array<byte>, base: nat, size: nat, name: Name, decode: Decoder) returns (outcome: Outcome)
    requires base + size <= data.Length
    modifies data
    ensures outcome == Decision(old(data[base..base + size]), name, decode)
    ensures outcome == Added ==>
      (Fits(old(data[base..base + size]), name)
       && data[..] == WithSlice(old(data[..]), base, Patched(old(data[base..base + size]), name)))
    ensures outcome == CountTooLarge ==>
      (IsImage(old(data[base..base + size])) && CommandSize(name) < 0x1_0000_0000
       && var at := base + 32 + CommandBytes(old(data[base..base + size]));
         at + CommandSize(name) <= base + size && data[..] == WithSlice(old(data[..]), at, DylibCommand(name)))
    ensures outcome != Added && outcome != CountTooLarge ==> data[..] == old(data[..])
  {
    var count, total;
    outcome, count, total := Assess(data, base, size, name, decode);
    if outcome == CountTooLarge {
      Write(data, base + 32 + total, DylibCommand(name));
    }
    if outcome == Added {
      Append(data, base, size, count, total, name);
    }
  }

  method Append(data: array<byte>, base: nat, size: nat, count: u32, total: u32, name: Name)
    requires base + size <= data.Length && Fits(data[base..base + size], name)
    requires CommandCount(data[base..base + size]) == count && CommandBytes(data[base..base + size]) == total
    modifies data
    ensures data[..] == WithSlice(old(data[..]), base, Patched(old(data[base..base + size]), name))
  {
    ghost var s := data[base..base + size];
    var command := DylibCommand(name);
    PatchedParts(s, name, count, total, command);
    WriteBoth(data, base, size, 32 + total, command, LE32(count + 1), LE32(total + |command|));
  }

  /** Reads the slice and decides; the counts are needed only when something is to be written. */
  method Assess(data: array<byte>, base: nat, size: nat, name: Name, decode: Decoder)
    returns (outcome: Outcome, count: u32, total: u32)
    requires base + size <= data.Length
    ensures outcome == Decision(data[base..base + size], name, decode)
    ensures var s := data[base..base + size];
      && (outcome == Added ==> Fits(s, name) && count == CommandCount(s))
      && (outcome == Added || outcome == CountTooLarge ==>
            IsImage(s) && total == CommandBytes(s) && CommandSize(name) < 0x1_0000_0000
              && 32 + total + CommandSize(name) <= size)
  {
    var image;
    image, count, total := ReadHeader(data, base, size);
    if !image {
      return Refused, count, total;
    }
    var verdict := ScanCommands(data, base + 32, base + 32 + total, count, size, name, decode);
    SliceOfSlice(data, base, base + size, 32, 32 + total);
    DecisionFollows(data[base..base + size], name, decode);
    if !verdict.Clear? {
      return if verdict.Found? then Present else Refused, count, total;
    }
    outcome := CanInsert(data, base, size, total, verdict.first, name);
  }

  method ReadHeader(data: array<byte>, base: nat, size: nat) returns (image: bool, count: u32, total: u32)
    requires base + size <= data.Length
    ensures image <==> IsImage(data[base..base + size])
    ensures image ==> count == CommandCount(data[base..base + size]) && total == CommandBytes(data[base..base + size])
  {
    if size < 32 {
      return false, 0, 0;
    }
    var magic := UnpackIn(data, base, base + size, 0);
    count := UnpackIn(data, base, base + size, 16);
    total := UnpackIn(data, base, base + size, 20);
    image := magic == MH_MAGIC_64 && 32 + total <= size;
  }

  /** What the walk's verdict decides, and what room an addition has. */
  lemma DecisionFollows(s: seq<byte>, name: Name, decode: Decoder)
    requires IsImage(s)
    ensures var verdict, outcome := Scan(Area(s), CommandCount(s), |s|, name, decode), Decision(s, name, decode);
      && (verdict.Found? ==> outcome == Present) && (verdict.Malformed? ==> outcome == Refused)
      && (verdict.Clear? ==> verdict.first <= |s| && outcome == SlackDecision(s, verdict.first, name))
      && (outcome == Added ==> Fits(s, name))
      && (outcome == Added || outcome == CountTooLarge ==>
            CommandSize(name) < 0x1_0000_0000 && 32 + CommandBytes(s) + CommandSize(name) <= |s|)
  {
    if Scan(Area(s), CommandCount(s), |s|, name, decode).Clear? {
      CountFits(s, name, decode);
    }
  }

  method CanInsert(data: array<byte>, base: nat, size: nat, total: u32, first: nat, name: Name)
    returns (outcome: Outcome)
    requires base + size <= data.Length && IsImage(data[base..base + size])
    requires CommandBytes(data[base..base + size]) == total && first <= size
    ensures outcome == SlackDecision(data[base..base + size], first, name)
  {
    if CommandSize(name) >= 0x1_0000_0000 {
      return NameTooLong;
    }
    var end := 32 + total as int;
    if end + CommandSize(name) > first {
      return Refused;
    }
    var zero := AllZero(data, base + end, base + end + CommandSize(name));
    SliceOfSlice(data, base, base + size, end, end + CommandSize(name));
    if !zero {
      return Refused;
    }
    return if total + CommandSize(name) >= 0x1_0000_0000 then CountTooLarge else Added;
  }

  lemma SliceOfSlice(data: array<byte>, i: nat, j: nat, a: nat, b: nat)
    requires i <= j <= data.Length && a <= b <= j - i
    ensures data[i..j][a..b] == data[i + a..i + b]
  {
    SubSlice(data[..], i, j, a, b);
    assert data[..][i..j] == data[i..j] && data[..][i + a..i + b] == data[i + a..i + b];
  }

  lemma PatchedParts(s: seq<byte>, name: Name, count: u32, total: u32, command: seq<byte>)
    requires Fits(s, name) && CommandCount(s) == count && CommandBytes(s) == total && command == DylibCommand(name)
    ensures var end := 32 + total as int;
      Patched(s, name)
      == s[..16] + LE32(count + 1) + LE32(total + |command|) + s[24..end] + command + s[end + |command|..]
  {
  }

  method WriteBoth(data: array<byte>, base: nat, size: nat, end: nat, command: seq<byte>, a: seq<byte>, b: seq<byte>)
    requires base + size <= data.Length && |a| == |b| == 4 && 32 <= end && end + |command| <= size
    modifies data
    ensures var s := old(data[base..base + size]);
      data[..] == WithSlice(old(data[..]), base, s[..16] + a + b + s[24..end] + command + s[end + |command|..])
  {
    ghost var file := data[..];
    Write(data, base + end, command);
    ghost var once := data[..];
    Write(data, base + 16, a + b);
    assert once[..base + 16] == old(data[..])[..base + 16];
    Assembled(file, base, size, end, a, b, command, data[..]);
    assert file[base..base + size] == old(data[base..base + size]);
  }

  lemma Assembled(file: seq<byte>, base: nat, size: nat, end: nat, a: seq<byte>, b: seq<byte>, command: seq<byte>,
                  after: seq<byte>)
    requires base + size <= |file| && |a| == |b| == 4 && 32 <= end && end + |command| <= size
    requires var once := file[..base + end] + command + file[base + end + |command|..];
      after == once[..base + 16] + (a + b) + once[base + 24..]
    ensures var s := file[base..base + size];
      after == WithSlice(file, base, s[..16] + a + b + s[24..end] + command + s[end + |command|..])
  {
    var s, k := file[base..base + size], |command|;
    OutsideSlice(file, base, size, end, k);
    Overwritten(file[..base + end], command, file[base + end + k..], base + 16);
    assert |s[..16] + a + b + s[24..end] + command + s[end + k..]| == size;
    Regrouped(file[..base], s[..16], a, b, s[24..end], command, s[end + k..], file[base + size..]);
  }

  /** The file around the command, in terms of the slice. */
  lemma OutsideSlice(file: seq<byte>, base: nat, size: nat, end: nat, k: nat)
    requires base + size <= |file| && 32 <= end && end + k <= size
    ensures var s, head := file[base..base + size], file[..base + end];
      && head[..base + 16] == file[..base] + s[..16] && head[base + 24..] == s[24..end]
      && file[base + end + k..] == s[end + k..] + file[base + size..]
  {
    var s, head := file[base..base + size], file[..base + end];
    SubSlice(file, base, base + size, 0, 16);
    SubSlice(file, base, base + size, 24, end);
    SubSlice(file, base, base + size, end + k, size);
    assert s[0..16] == s[..16] && s[end + k..size] == s[end + k..];
    assert head[..base + 16] == file[..base] + file[base..base + 16];
    assert head[base + 24..] == file[base + 24..base + end];
    assert file[base + end + k..] == file[base + end + k..base + size] + file[base + size..];
  }

  /** A word range inside `head` and what follows it. */
  lemma Overwritten(head: seq<byte>, command: seq<byte>, rest: seq<byte>, i: nat)
    requires i + 8 <= |head|
    ensures var once := head + command + rest;
      once[..i] == head[..i] && once[i + 8..] == head[i + 8..] + command + rest
  {
  }

  lemma Regrouped(p: seq<byte>, q: seq<byte>, a: seq<byte>, b: seq<byte>, c: seq<byte>, d: seq<byte>, e: seq<byte>,
                  f: seq<byte>)
    ensures (p + q) + (a + b) + (c + d + (e + f)) == p + (q + a + b + c + d + e) + f
  {
  }
}
