/** Adding a library to a Mach-O slice: the load commands as a list, and the patch that appends to it. */
module MachO {
  import opened Bytes

  const MH_MAGIC_64: u32 := 0xFEEDFACF
  const LC_SEGMENT_64: u32 := 0x19
  const LC_LOAD_DYLIB: u32 := 0x0C
  const LC_ENCRYPTION_INFO: u32 := 0x21
  const LC_ENCRYPTION_INFO_64: u32 := 0x2C

  /** An install name as text and as the bytes that encode it. */
  datatype Name = Name(text: string, encoded: seq<byte>)

  /** Decoding of bytes to text, which never fails. */
  type Decoder = seq<byte> -> string

  /** The bytes before the first zero byte. */
  function UpToNul(s: seq<byte>): (r: seq<byte>)
    ensures 0 !in r && |r| <= |s|
  {
    if s == [] || s[0] == 0 then [] else [s[0]] + UpToNul(s[1..])
  }

  lemma {:induction false} UpToNulPrefix(s: seq<byte>, rest: seq<byte>)
    ensures UpToNul(s + [0] + rest) == UpToNul(s)
    ensures 0 !in s ==> UpToNul(s) == s
  {
    if s == [] {
      assert s + [0] + rest == [0] + rest;
    } else {
      assert (s + [0] + rest)[1..] == s[1..] + [0] + rest;
      assert s == [s[0]] + s[1..];
      UpToNulPrefix(s[1..], rest);
    }
  }

  /** The next multiple of eight, the only boundary the commands are aligned to. */
  function Align8(value: nat): (r: nat)
    ensures r % 8 == 0 && value <= r < value + 8
  {
    value + 7 - (value + 7) % 8
  }

  function CommandSize(name: Name): nat { Align8(24 + |name.encoded| + 1) }

  /** The load command that names a library. */
  function DylibCommand(name: Name): (command: seq<byte>)
    requires CommandSize(name) < 0x1_0000_0000
    ensures |command| == CommandSize(name)
  {
    DylibHead(name) + name.encoded + [0] + Zeros(CommandSize(name) - 24 - |name.encoded| - 1)
  }

  function DylibHead(name: Name): (head: seq<byte>)
    requires CommandSize(name) < 0x1_0000_0000
    ensures |head| == 24
  {
    LE32(LC_LOAD_DYLIB) + LE32(CommandSize(name)) + LE32(24) + LE32(0) + LE32(0) + LE32(0)
  }

  // The list of load commands.

  function SizeOf(area: seq<byte>): nat
    requires |area| >= 8
  {
    U32At(area, 4)
  }

  predicate HasCommand(area: seq<byte>)
  {
    |area| >= 8 && 8 <= SizeOf(area) <= |area|
  }

  /** The first `n` commands of an area, and what is left of it. */
  function Commands(area: seq<byte>, n: nat): Option<(seq<seq<byte>>, seq<byte>)>
  {
    if n == 0 then Some(([], area))
    else if !HasCommand(area) then None
    else
      match Commands(area[SizeOf(area)..], n - 1)
      case None => None
      case Some((commands, rest)) => Some(([area[..SizeOf(area)]] + commands, rest))
  }

  function Kind(command: seq<byte>): u32
    requires |command| >= 8
  {
    U32At(command, 0)
  }

  /** The library a command names, if it does. */
  function LibraryName(command: seq<byte>): Option<seq<byte>>
    requires |command| >= 8
  {
    if Kind(command) == LC_LOAD_DYLIB && |command| >= 24 && 0 < U32At(command, 8) < |command|
    then Some(UpToNul(command[U32At(command, 8)..])) else None
  }

  predicate Loads(command: seq<byte>, name: Name, decode: Decoder)
    requires |command| >= 8
  {
    LibraryName(command).Some? && decode(LibraryName(command).value) == name.text
  }

  predicate Encrypted(command: seq<byte>)
    requires |command| >= 8
  {
    Kind(command) in {LC_ENCRYPTION_INFO, LC_ENCRYPTION_INFO_64} && |command| >= 20 && U32At(command, 16) != 0
  }

  /** The least of `first` and the nonzero offsets of `n` sections from `pos` on. */
  function Sections(command: seq<byte>, pos: nat, n: nat, first: nat): (r: Option<nat>)
    ensures r.Some? ==> r.value <= first
    decreases |command| + 80 - pos, n
  {
    if n == 0 then Some(first)
    else if pos + 80 > |command| then None
    else
      var offset := U32At(command, pos + 48);
      Sections(command, pos + 80, n - 1, if offset != 0 then Min(first, offset) else first)
  }

  function SectionStart(command: seq<byte>, first: nat): (r: Option<nat>)
    requires |command| >= 8
    ensures r.Some? ==> r.value <= first
  {
    if Kind(command) == LC_SEGMENT_64 && |command| >= 72
      then Sections(command, 72, U32At(command, 64), first) else Some(first)
  }

  datatype Verdict = Malformed | Found | Clear(first: nat)

  function Look(command: seq<byte>, first: nat, name: Name, decode: Decoder): Verdict
    requires |command| >= 8
  {
    if Loads(command, name, decode) then Found
    else if Encrypted(command) then Malformed
    else match SectionStart(command, first) case None => Malformed case Some(f) => Clear(f)
  }

  /** The walk over `n` commands; it ends at the first that is malformed or already loads the library. */
  function Scan(area: seq<byte>, n: nat, first: nat, name: Name, decode: Decoder): (r: Verdict)
    ensures r.Clear? ==> r.first <= first
  {
    if n == 0 then Clear(first)
    else if !HasCommand(area) then Malformed
    else
      match Look(area[..SizeOf(area)], first, name, decode)
      case Clear(f) => Scan(area[SizeOf(area)..], n - 1, f, name, decode)
      case verdict => verdict
  }

  /** The command an area starts with. */
  function Next(area: seq<byte>, first: nat, name: Name, decode: Decoder): (r: Verdict)
    ensures r.Clear? ==> r.first <= first
  {
    if HasCommand(area) then Look(area[..SizeOf(area)], first, name, decode) else Malformed
  }

  // The patch.

  datatype Outcome = Added | Present | Refused | NameTooLong | CountTooLarge

  function CommandCount(s: seq<byte>): u32
    requires |s| >= 24
  {
    U32At(s, 16)
  }

  function CommandBytes(s: seq<byte>): u32
    requires |s| >= 24
  {
    U32At(s, 20)
  }

  predicate IsImage(s: seq<byte>)
  {
    |s| >= 32 && U32At(s, 0) == MH_MAGIC_64 && 32 + CommandBytes(s) <= |s|
  }

  function Area(s: seq<byte>): seq<byte>
    requires IsImage(s)
  {
    s[32..32 + CommandBytes(s)]
  }

  /** What the patch does to a slice, and whether it can. */
  function Decision(s: seq<byte>, name: Name, decode: Decoder): Outcome
  {
    if !IsImage(s) then Refused
    else ScanDecision(s, Scan(Area(s), CommandCount(s), |s|, name, decode), name)
  }

  function ScanDecision(s: seq<byte>, verdict: Verdict, name: Name): Outcome
    requires IsImage(s) && (verdict.Clear? ==> verdict.first <= |s|)
  {
    match verdict
    case Malformed => Refused
    case Found => Present
    case Clear(first) => SlackDecision(s, first, name)
  }

  /** Whether the command fits, below the first section's content, into bytes that are zero. */
  function SlackDecision(s: seq<byte>, first: nat, name: Name): Outcome
    requires IsImage(s) && first <= |s|
  {
    var end := 32 + CommandBytes(s) as int;
    if CommandSize(name) >= 0x1_0000_0000 then NameTooLong
    else if end + CommandSize(name) > first || s[end..end + CommandSize(name)] != Zeros(CommandSize(name)) then Refused
    else if CommandBytes(s) + CommandSize(name) >= 0x1_0000_0000 then CountTooLarge
    else Added
  }

  /** The command fits in the slice, and the raised counts in their fields. */
  predicate Fits(s: seq<byte>, name: Name)
  {
    && IsImage(s) && CommandSize(name) < 0x1_0000_0000 && 32 + CommandBytes(s) + CommandSize(name) <= |s|
    && CommandCount(s) + 1 < 0x1_0000_0000 && CommandBytes(s) + CommandSize(name) < 0x1_0000_0000
  }

  /** The slice with the command after the others and the two counts raised. */
  function Patched(s: seq<byte>, name: Name): (r: seq<byte>)
    requires Fits(s, name)
    ensures |r| == |s|
  {
    var end := 32 + CommandBytes(s) as int;
    s[..16] + LE32(CommandCount(s) + 1) + LE32(CommandBytes(s) + CommandSize(name))
    + s[24..end] + DylibCommand(name) + s[end + CommandSize(name)..]
  }

  // What a scan that finds nothing has established.

  lemma {:induction false} CommandsAreFramed(area: seq<byte>, n: nat)
    requires Commands(area, n).Some?
    ensures var (commands, rest) := Commands(area, n).value;
      |commands| == n && |rest| + 8 * n <= |area| && forall i :: 0 <= i < n ==> |commands[i]| >= 8
  {
    if n > 0 {
      CommandsAreFramed(area[SizeOf(area)..], n - 1);
      assert |area[..SizeOf(area)]| == SizeOf(area);
    }
  }

  /** Section `k` of a segment command says where its content starts; zero says it has none. */
  predicate SectionAt(command: seq<byte>, k: nat, offset: nat)
  {
    && |command| >= 72 && Kind(command) == LC_SEGMENT_64 && k < U32At(command, 64)
    && 72 + 80 * k + 80 <= |command| && U32At(command, 72 + 80 * k + 48) == offset
  }

  lemma {:induction false} SectionsAreBounded(command: seq<byte>, pos: nat, n: nat, first: nat, k: nat)
    requires Sections(command, pos, n, first).Some? && k < n
    ensures pos + 80 * k + 80 <= |command|
    ensures var offset := U32At(command, pos + 80 * k + 48);
      offset != 0 ==> Sections(command, pos, n, first).value <= offset
    decreases n
  {
    if k > 0 {
      var offset := U32At(command, pos + 48);
      SectionsAreBounded(command, pos + 80, n - 1, if offset != 0 then Min(first, offset) else first, k - 1);
    }
  }

  /** The scan's bound lies at or below the content of every section of every command. */
  lemma {:induction false} ScanIsThorough(area: seq<byte>, n: nat, first: nat, name: Name, decode: Decoder, i: nat)
    requires Scan(area, n, first, name, decode).Clear? && i < n
    ensures Commands(area, n).Some? && |Commands(area, n).value.0| == n && |Commands(area, n).value.0[i]| >= 8
    ensures var command := Commands(area, n).value.0[i];
      && !Loads(command, name, decode) && !Encrypted(command)
      && forall k, offset | SectionAt(command, k, offset) && offset != 0 ::
           Scan(area, n, first, name, decode).first <= offset
  {
    ScanParses(area, n, first, name, decode);
    CommandsAreFramed(area, n);
    var command := area[..SizeOf(area)];
    var f := Look(command, first, name, decode).first;
    if i == 0 {
      forall k: nat, offset: nat | SectionAt(command, k, offset) && offset != 0 ensures f <= offset {
        SectionsAreBounded(command, 72, U32At(command, 64), first, k);
      }
    } else {
      ScanIsThorough(area[SizeOf(area)..], n - 1, f, name, decode, i - 1);
    }
  }

  lemma {:induction false} ScanParses(area: seq<byte>, n: nat, first: nat, name: Name, decode: Decoder)
    requires Scan(area, n, first, name, decode).Clear?
    ensures Commands(area, n).Some?
  {
    if n > 0 {
      var f := Look(area[..SizeOf(area)], first, name, decode).first;
      ScanParses(area[SizeOf(area)..], n - 1, f, name, decode);
    }
  }

  /** Every command takes at least eight bytes, so a slice that scans cannot exhaust the command counter. */
  lemma CountFits(s: seq<byte>, name: Name, decode: Decoder)
    requires IsImage(s) && Scan(Area(s), CommandCount(s), |s|, name, decode).Clear?
    ensures CommandCount(s) + 1 < 0x1_0000_0000
    ensures Decision(s, name, decode) == Added ==> Fits(s, name)
  {
    ScanParses(Area(s), CommandCount(s), |s|, name, decode);
    CommandsAreFramed(Area(s), CommandCount(s));
  }

  // Reading a patched slice.

  lemma WordInSlice(s: seq<byte>, i: nat, j: nat, k: nat)
    requires i <= j <= |s| && k + 4 <= j - i
    ensures U32At(s[i..j], k) == U32At(s, i + k)
  {
    SameWord(s[i..j], k, s, i + k);
  }

  lemma WordInPrefix(s: seq<byte>, t: seq<byte>, k: nat)
    requires k + 4 <= |s|
    ensures U32At(s + t, k) == U32At(s, k)
  {
    SameWord(s + t, k, s, k);
  }

  /** A parse that uses up the area goes on into what is appended. */
  lemma {:induction false} AppendCommands(area: seq<byte>, n: nat, more: seq<byte>)
    requires Commands(area, n).Some? && Commands(area, n).value.1 == []
    requires HasCommand(more) && SizeOf(more) == |more|
    ensures Commands(area + more, n + 1) == Some((Commands(area, n).value.0 + [more], []))
  {
    if n == 0 {
      assert area + more == more;
      assert more[..|more|] == more && more[|more|..] == [];
      assert Commands(more[SizeOf(more)..], 0) == Some(([], []));
      assert [more] + [] == [] + [more];
    } else {
      var size := SizeOf(area);
      WordInPrefix(area, more, 4);
      assert (area + more)[..size] == area[..size] && (area + more)[size..] == area[size..] + more;
      AppendCommands(area[size..], n - 1, more);
      var commands := Commands(area[size..], n - 1).value.0;
      assert [area[..size]] + (commands + [more]) == ([area[..size]] + commands) + [more];
    }
  }

  /** A scan that finds nothing in `n` commands goes on into what is left of the area and what is appended. */
  lemma {:induction false} AppendScan(area: seq<byte>, n: nat, first: nat, name: Name, decode: Decoder, more: seq<byte>)
    requires Scan(area, n, first, name, decode).Clear? && Commands(area, n).Some?
    ensures Scan(area + more, n + 1, first, name, decode)
      == Next(Commands(area, n).value.1 + more, Scan(area, n, first, name, decode).first, name, decode)
  {
    if n == 0 {
      NextScanned(area + more, first, name, decode);
    } else {
      var size := SizeOf(area);
      WordInPrefix(area, more, 4);
      assert (area + more)[..size] == area[..size] && (area + more)[size..] == area[size..] + more;
      AppendScan(area[size..], n - 1, Look(area[..size], first, name, decode).first, name, decode, more);
    }
  }

  lemma NextScanned(area: seq<byte>, first: nat, name: Name, decode: Decoder)
    ensures Scan(area, 1, first, name, decode) == Next(area, first, name, decode)
  {
    if HasCommand(area) && Look(area[..SizeOf(area)], first, name, decode).Clear? {
      assert Scan(area[SizeOf(area)..], 0, Look(area[..SizeOf(area)], first, name, decode).first, name, decode).Clear?;
    }
  }

  lemma DylibFields(name: Name)
    requires CommandSize(name) < 0x1_0000_0000
    ensures var d := DylibCommand(name);
      && HasCommand(d) && SizeOf(d) == |d| && |d| % 8 == 0
      && Kind(d) == LC_LOAD_DYLIB && U32At(d, 8) == 24
      && LibraryName(d) == Some(UpToNul(name.encoded)) && !Encrypted(d)
  {
    var d := DylibCommand(name);
    var padding := Zeros(CommandSize(name) - 24 - |name.encoded| - 1);
    DylibHeadFields(name);
    assert d == DylibHead(name) + (name.encoded + [0] + padding);
    WordInPrefix(DylibHead(name), name.encoded + [0] + padding, 0);
    WordInPrefix(DylibHead(name), name.encoded + [0] + padding, 4);
    WordInPrefix(DylibHead(name), name.encoded + [0] + padding, 8);
    assert d[24..] == name.encoded + [0] + padding;
    UpToNulPrefix(name.encoded, padding);
  }

  lemma DylibHeadFields(name: Name)
    requires CommandSize(name) < 0x1_0000_0000
    ensures var head := DylibHead(name);
      U32At(head, 0) == LC_LOAD_DYLIB && U32At(head, 4) == CommandSize(name) && U32At(head, 8) == 24
  {
    var head := DylibHead(name);
    DecodeEncoded(LC_LOAD_DYLIB); DecodeEncoded(CommandSize(name)); DecodeEncoded(24);
    assert head[0..4] == LE32(LC_LOAD_DYLIB) && head[4..8] == LE32(CommandSize(name)) && head[8..12] == LE32(24);
    WordInSlice(head, 0, 4, 0); WordInSlice(head, 4, 8, 0); WordInSlice(head, 8, 12, 0);
  }

  lemma LookAtDylib(name: Name, first: nat, decode: Decoder)
    requires CommandSize(name) < 0x1_0000_0000
    ensures HasCommand(DylibCommand(name)) && SizeOf(DylibCommand(name)) == |DylibCommand(name)|
    ensures Look(DylibCommand(name), first, name, decode)
      == if decode(UpToNul(name.encoded)) == name.text then Found else Clear(first)
  {
    DylibFields(name);
  }

  /** The pieces of a patched slice, by position. */
  lemma PatchedPieces(s: seq<byte>, name: Name)
    requires Fits(s, name)
    ensures var p, end := Patched(s, name), 32 + CommandBytes(s) as int;
      && p[..16] == s[..16] && p[16..20] == LE32(CommandCount(s) + 1)
      && p[20..24] == LE32(CommandBytes(s) + CommandSize(name))
      && p[24..end] == s[24..end] && p[end..end + CommandSize(name)] == DylibCommand(name)
      && p[end + CommandSize(name)..] == s[end + CommandSize(name)..]
  {
  }

  lemma PatchedFields(s: seq<byte>, name: Name)
    requires Fits(s, name)
    ensures Extends(Patched(s, name), s, name)
  {
    var p, end := Patched(s, name), 32 + CommandBytes(s) as int;
    PatchedPieces(s, name);
    PatchedCounts(s, name);
    WordInSlice(p, 0, 16, 0);
    WordInSlice(s, 0, 16, 0);
    PatchedArea(s, name);
  }

  lemma PatchedArea(s: seq<byte>, name: Name)
    requires Fits(s, name)
    ensures var p, end := Patched(s, name), 32 + CommandBytes(s) as int;
      p[32..end + CommandSize(name)] == s[32..end] + DylibCommand(name)
  {
    var p, end := Patched(s, name), 32 + CommandBytes(s) as int;
    PatchedPieces(s, name);
    SubSlice(p, 24, end, 8, end - 24);
    SubSlice(s, 24, end, 8, end - 24);
    assert p[32..end + CommandSize(name)] == p[32..end] + p[end..end + CommandSize(name)];
  }

  lemma PatchedCounts(s: seq<byte>, name: Name)
    requires Fits(s, name)
    ensures CommandCount(Patched(s, name)) == CommandCount(s) + 1
    ensures CommandBytes(Patched(s, name)) == CommandBytes(s) + CommandSize(name)
  {
    PatchedPieces(s, name);
    DecodeEncoded(CommandCount(s) + 1);
    DecodeEncoded(CommandBytes(s) + CommandSize(name));
    WordInSlice(Patched(s, name), 16, 20, 0);
    WordInSlice(Patched(s, name), 20, 24, 0);
  }

  /** A slice `p` that holds the commands of `s` and then the one for `name`. */
  ghost predicate Extends(p: seq<byte>, s: seq<byte>, name: Name)
    requires CommandSize(name) < 0x1_0000_0000
  {
    && IsImage(s) && IsImage(p) && CommandCount(p) == CommandCount(s) + 1
    && CommandBytes(p) == CommandBytes(s) + CommandSize(name) && Area(p) == Area(s) + DylibCommand(name)
  }

  // The main results.

  /** What the command area holds after the commands that are counted. */
  function Rest(s: seq<byte>): seq<byte>
    requires IsImage(s) && Commands(Area(s), CommandCount(s)).Some?
  {
    Commands(Area(s), CommandCount(s)).value.1
  }

  ghost predicate Whole(s: seq<byte>)
    requires IsImage(s)
  {
    Commands(Area(s), CommandCount(s)).Some? && Commands(Area(s), CommandCount(s)).value.1 == []
  }

  lemma ExtendedParses(p: seq<byte>, s: seq<byte>, name: Name)
    requires CommandSize(name) < 0x1_0000_0000 && Extends(p, s, name) && Whole(s)
    ensures Whole(p)
    ensures Commands(Area(p), CommandCount(p)).value.0 ==
      Commands(Area(s), CommandCount(s)).value.0 + [DylibCommand(name)]
  {
    LookAtDylib(name, 0, _ => "");
    AppendCommands(Area(s), CommandCount(s), DylibCommand(name));
  }

  function Total(commands: seq<seq<byte>>): nat
  {
    if commands == [] then 0 else |commands[0]| + Total(commands[1..])
  }

  lemma {:induction false} TotalLength(area: seq<byte>, n: nat)
    requires Commands(area, n).Some?
    ensures |area| == Total(Commands(area, n).value.0) + |Commands(area, n).value.1|
  {
    if n > 0 {
      TotalLength(area[SizeOf(area)..], n - 1);
      assert Commands(area, n).value.0[1..] == Commands(area[SizeOf(area)..], n - 1).value.0;
    }
  }

  lemma {:induction false} TotalAppend(commands: seq<seq<byte>>, command: seq<byte>)
    ensures Total(commands + [command]) == Total(commands) + |command|
  {
    if commands == [] {
      assert commands + [command] == [command];
    } else {
      assert (commands + [command])[1..] == commands[1..] + [command];
      TotalAppend(commands[1..], command);
    }
  }

  /** The slice `p` lists the commands of `s`, then the one for `name`, and nothing else. */
  ghost predicate ListsOneMore(p: seq<byte>, s: seq<byte>, name: Name)
    requires IsImage(s) && CommandSize(name) < 0x1_0000_0000 && Commands(Area(s), CommandCount(s)).Some?
  {
    && IsImage(p) && CommandCount(p) == CommandCount(s) + 1
    && Commands(Area(p), CommandCount(p))
       == Some((Commands(Area(s), CommandCount(s)).value.0 + [DylibCommand(name)], []))
  }

  lemma ExtendedLists(p: seq<byte>, s: seq<byte>, name: Name)
    requires CommandSize(name) < 0x1_0000_0000 && Extends(p, s, name) && Commands(Area(s), CommandCount(s)).Some?
    ensures ListsOneMore(p, s, name) <==> Whole(s)
  {
    var d, commands := DylibCommand(name), Commands(Area(s), CommandCount(s)).value.0;
    TotalLength(Area(s), CommandCount(s));
    TotalAppend(commands, d);
    if Whole(s) {
      ExtendedParses(p, s, name);
    } else if ListsOneMore(p, s, name) {
      TotalLength(Area(p), CommandCount(p));
    }
  }

  /**
   * The patched slice lists the same commands and then one naming the library, and nothing else, if and
   * only if the sizes of the commands sum to the total in the header, which the patch does not check.
   */
  lemma PatchedParses(s: seq<byte>, name: Name, decode: Decoder)
    requires Decision(s, name, decode) == Added
    ensures Fits(s, name) && Commands(Area(s), CommandCount(s)).Some?
    ensures ListsOneMore(Patched(s, name), s, name) <==> Whole(s)
    ensures LibraryName(DylibCommand(name)) == Some(UpToNul(name.encoded))
  {
    CountFits(s, name, decode);
    ScanParses(Area(s), CommandCount(s), |s|, name, decode);
    PatchedFields(s, name);
    DylibFields(name);
    ExtendedLists(Patched(s, name), s, name);
  }

  /** Only the two counts and a range that was zero change, and the range ends below every section's content. */
  lemma PatchedFrame(s: seq<byte>, name: Name, decode: Decoder)
    requires Decision(s, name, decode) == Added
    ensures Fits(s, name)
    ensures var p := Patched(s, name);
      var end := 32 + CommandBytes(s) as int;
      && |p| == |s|
      && (forall i :: 0 <= i < |s| && !(16 <= i < 24) && !(end <= i < end + CommandSize(name)) ==> p[i] == s[i])
      && (forall i :: end <= i < end + CommandSize(name) ==> s[i] == 0)
      && U32At(p, 16) == U32At(s, 16) + 1 && U32At(p, 20) == U32At(s, 20) + CommandSize(name)
      && p[end..end + CommandSize(name)] == DylibCommand(name)
    ensures Commands(Area(s), CommandCount(s)).Some? && |Commands(Area(s), CommandCount(s)).value.0| == CommandCount(s)
    ensures forall i, k, offset ::
      0 <= i < CommandCount(s) && SectionAt(Commands(Area(s), CommandCount(s)).value.0[i], k, offset) && offset != 0
      ==> 32 + CommandBytes(s) + CommandSize(name) <= offset
  {
    CountFits(s, name, decode);
    var end := 32 + CommandBytes(s) as int;
    PatchedPieces(s, name);
    PatchedCounts(s, name);
    ScanParses(Area(s), CommandCount(s), |s|, name, decode);
    CommandsAreFramed(Area(s), CommandCount(s));
    forall i | end <= i < end + CommandSize(name) ensures s[i] == 0 {
      assert s[i] == s[end..end + CommandSize(name)][i - end];
    }
    forall i: nat, k: nat, offset: nat |
      i < CommandCount(s) && SectionAt(Commands(Area(s), CommandCount(s)).value.0[i], k, offset) && offset != 0
      ensures 32 + CommandBytes(s) + CommandSize(name) <= offset
    {
      ScanIsThorough(Area(s), CommandCount(s), |s|, name, decode, i);
    }
  }

  /**
   * What a second patch does: the command it reads after those of the first starts in what was left of the
   * command area, and goes on into the new command.
   */
  lemma SecondPatch(s: seq<byte>, name: Name, decode: Decoder)
    requires Decision(s, name, decode) == Added
    ensures Fits(s, name) && Commands(Area(s), CommandCount(s)).Some? && IsImage(Patched(s, name))
    ensures var p := Patched(s, name);
      Decision(p, name, decode) == ScanDecision(p, NextVerdict(s, name, decode), name)
  {
    CountFits(s, name, decode);
    ScanParses(Area(s), CommandCount(s), |s|, name, decode);
    PatchedFields(s, name);
    AppendScan(Area(s), CommandCount(s), |s|, name, decode, DylibCommand(name));
  }

  /** The look at that command, after a first scan that found nothing. */
  function NextVerdict(s: seq<byte>, name: Name, decode: Decoder): (r: Verdict)
    requires Decision(s, name, decode) == Added && Commands(Area(s), CommandCount(s)).Some?
    ensures r.Clear? ==> r.first <= |s|
  {
    var first := Scan(Area(s), CommandCount(s), |s|, name, decode).first;
    Next(Rest(s) + DylibCommand(name), first, name, decode)
  }

  /** When nothing was left, it finds the library exactly when decoding the name up to a zero byte gives it back. */
  lemma SecondPatchOfWhole(s: seq<byte>, name: Name, decode: Decoder)
    requires Decision(s, name, decode) == Added && Whole(s)
    ensures Fits(s, name)
    ensures Decision(Patched(s, name), name, decode) == Present <==> decode(UpToNul(name.encoded)) == name.text
  {
    SecondPatch(s, name, decode);
    var d, first := DylibCommand(name), Scan(Area(s), CommandCount(s), |s|, name, decode).first;
    assert Rest(s) + d == d && d[..|d|] == d;
    LookAtDylib(name, first, decode);
  }

  /** In particular it finds every name without a zero byte that decodes to itself. */
  lemma SecondPatchFindsName(s: seq<byte>, name: Name, decode: Decoder)
    requires Decision(s, name, decode) == Added && Whole(s)
    requires 0 !in name.encoded && decode(name.encoded) == name.text
    ensures Fits(s, name)
    ensures Decision(Patched(s, name), name, decode) == Present
  {
    SecondPatchOfWhole(s, name, decode);
    UpToNulPrefix(name.encoded, []);
  }

  /** A header that counts no commands but eight bytes of them, and room for one. */
  function Uncounted(name: Name): seq<byte>
  {
    LE32(MH_MAGIC_64) + Zeros(12) + LE32(0) + LE32(8) + Zeros(16 + CommandSize(name))
  }

  /** Such a slice is patched, does not list the library, and is refused the second time. */
  lemma UncountedIsAdded(name: Name, decode: Decoder)
    requires CommandSize(name) + 8 < 0x1_0000_0000
    ensures var s := Uncounted(name);
      && Decision(s, name, decode) == Added && Fits(s, name) && !Whole(s)
      && !ListsOneMore(Patched(s, name), s, name) && Decision(Patched(s, name), name, decode) == Refused
  {
    var s := Uncounted(name);
    UncountedFields(name);
    var end, size := 40, CommandSize(name);
    assert s[end..end + size] == Zeros(size);
    PatchedParses(s, name, decode);
    SecondPatch(s, name, decode);
    assert Rest(s) == Zeros(8);
    WordInPrefix(Zeros(8), DylibCommand(name), 4);
    FourBytes(Zeros(8), 4);
  }

  lemma UncountedFields(name: Name)
    requires CommandSize(name) + 8 < 0x1_0000_0000
    ensures var s := Uncounted(name);
      && IsImage(s) && CommandCount(s) == 0 && CommandBytes(s) == 8 && |s| == 40 + CommandSize(name)
      && Area(s) == Zeros(8) && s[24..] == Zeros(16 + CommandSize(name))
  {
    var s := Uncounted(name);
    assert s[0..4] == LE32(MH_MAGIC_64) && s[16..20] == LE32(0) && s[20..24] == LE32(8);
    DecodeEncoded(MH_MAGIC_64); DecodeEncoded(0); DecodeEncoded(8);
    WordInSlice(s, 0, 4, 0); WordInSlice(s, 16, 20, 0); WordInSlice(s, 20, 24, 0);
  }
}
