/** What the Mach-O patch decides, in terms of the numbers of the file format. */
module MachODecision {
  import opened Bytes
  import opened MachO

  // Commands: an area cut into pieces that say their own length.

  function Joined(commands: seq<seq<byte>>): seq<byte>
  {
    if commands == [] then [] else commands[0] + Joined(commands[1..])
  }

  /** The area starts with `n` commands, each with its size in its second word, and goes on with `rest`. */
  ghost predicate Cut(area: seq<byte>, n: nat, commands: seq<seq<byte>>, rest: seq<byte>)
  {
    && |commands| == n && area == Joined(commands) + rest
    && forall i :: 0 <= i < n ==> |commands[i]| >= 8 && U32At(commands[i], 4) == |commands[i]|
  }

  lemma {:induction false} ParsedIsCut(area: seq<byte>, n: nat)
    requires Commands(area, n).Some?
    ensures Cut(area, n, Commands(area, n).value.0, Commands(area, n).value.1)
  {
    if n > 0 {
      var size := SizeOf(area);
      var (commands, rest) := Commands(area[size..], n - 1).value;
      ParsedIsCut(area[size..], n - 1);
      FirstOfCut(area, size, commands, rest, n);
    }
  }

  lemma FirstOfCut(area: seq<byte>, size: nat, commands: seq<seq<byte>>, rest: seq<byte>, n: nat)
    requires HasCommand(area) && size == SizeOf(area) && n > 0 && Cut(area[size..], n - 1, commands, rest)
    ensures Cut(area, n, [area[..size]] + commands, rest)
  {
    var all := [area[..size]] + commands;
    assert all[1..] == commands;
    assert area == area[..size] + (Joined(commands) + rest) == (area[..size] + Joined(commands)) + rest;
    SameWord(area[..size], 4, area, 4);
    forall i | 0 <= i < n ensures |all[i]| >= 8 && U32At(all[i], 4) == |all[i]| {
      if i > 0 {
        assert all[i] == commands[i - 1];
      }
    }
  }

  lemma {:induction false} CutIsParsed(area: seq<byte>, n: nat, commands: seq<seq<byte>>, rest: seq<byte>)
    requires Cut(area, n, commands, rest)
    ensures Commands(area, n) == Some((commands, rest))
    decreases n
  {
    if n == 0 {
      assert area == [] + rest == rest && commands == [];
    } else {
      var first, others := commands[0], commands[1..];
      assert area == first + (Joined(others) + rest);
      SameWord(first, 4, area, 4);
      assert area[..|first|] == first && area[|first|..] == Joined(others) + rest;
      assert forall i :: 0 <= i < n - 1 ==> others[i] == commands[i + 1];
      CutIsParsed(area[|first|..], n - 1, others, rest);
      assert [first] + others == commands;
    }
  }

  // One command.

  /** It names the library: a load command (0x0C) whose name, from the offset at 8 to a zero byte, decodes to it. */
  ghost predicate NamesLibrary(command: seq<byte>, name: Name, decode: Decoder)
    requires |command| >= 8
  {
    && U32At(command, 0) == 0x0C && |command| >= 24 && 0 < U32At(command, 8) < |command|
    && decode(UpToNul(command[U32At(command, 8)..])) == name.text
  }

  /** It says that the image is encrypted: 0x21 or 0x2C with a nonzero word at 16. */
  ghost predicate SaysEncrypted(command: seq<byte>)
    requires |command| >= 8
  {
    (U32At(command, 0) == 0x21 || U32At(command, 0) == 0x2C) && |command| >= 20 && U32At(command, 16) != 0
  }

  /** Every section of a segment (0x19) lies in the command, and its content, if any, at `end` or above. */
  ghost predicate SectionsAbove(command: seq<byte>, end: nat)
    requires |command| >= 8
  {
    U32At(command, 0) == 0x19 && |command| >= 72 ==>
      forall k | 0 <= k < U32At(command, 64) :: SectionAbove(command, 72 + 80 * k, end)
  }

  ghost predicate SectionAbove(command: seq<byte>, pos: nat, end: nat)
  {
    pos + 80 <= |command| && (U32At(command, pos + 48) == 0 || end <= U32At(command, pos + 48))
  }

  ghost predicate Harmless(command: seq<byte>, name: Name, decode: Decoder, end: nat)
    requires |command| >= 8
  {
    !NamesLibrary(command, name, decode) && !SaysEncrypted(command) && SectionsAbove(command, end)
  }

  lemma {:induction false} SectionsExactly(command: seq<byte>, pos: nat, n: nat, first: nat, end: nat)
    ensures (Sections(command, pos, n, first).Some? && end <= Sections(command, pos, n, first).value) <==>
      (end <= first && forall k | 0 <= k < n :: SectionAbove(command, pos + 80 * k, end))
    decreases n
  {
    if n > 0 {
      if pos + 80 <= |command| {
        var offset := U32At(command, pos + 48);
        var f := if offset != 0 then Min(first, offset) else first;
        SectionsExactly(command, pos + 80, n - 1, f, end);
        SectionsShift(command, pos, n, end);
      } else {
        assert !SectionAbove(command, pos + 80 * 0, end);
      }
    }
  }

  lemma SectionsShift(command: seq<byte>, pos: nat, n: nat, end: nat)
    requires n > 0
    ensures (forall k | 0 <= k < n :: SectionAbove(command, pos + 80 * k, end)) <==>
      (SectionAbove(command, pos, end) && forall k | 0 <= k < n - 1 :: SectionAbove(command, pos + 80 + 80 * k, end))
  {
    if forall k | 0 <= k < n :: SectionAbove(command, pos + 80 * k, end) {
      assert SectionAbove(command, pos + 80 * 0, end);
      forall k | 0 <= k < n - 1 ensures SectionAbove(command, pos + 80 + 80 * k, end) {
        assert SectionAbove(command, pos + 80 * (k + 1), end);
      }
    }
    if SectionAbove(command, pos, end) && forall k | 0 <= k < n - 1 :: SectionAbove(command, pos + 80 + 80 * k, end) {
      forall k | 0 <= k < n ensures SectionAbove(command, pos + 80 * k, end) {
        if k > 0 {
          assert SectionAbove(command, pos + 80 + 80 * (k - 1), end);
        }
      }
    }
  }

  lemma LookExactly(command: seq<byte>, first: nat, name: Name, decode: Decoder, end: nat)
    requires |command| >= 8
    ensures (Look(command, first, name, decode).Clear? && end <= Look(command, first, name, decode).first) <==>
      (end <= first && Harmless(command, name, decode, end))
  {
    if U32At(command, 0) == 0x19 && |command| >= 72 {
      SectionsExactly(command, 72, U32At(command, 64), first, end);
    }
  }

  // The whole scan.

  ghost predicate AllHarmless(commands: seq<seq<byte>>, name: Name, decode: Decoder, end: nat)
  {
    forall i :: 0 <= i < |commands| ==> |commands[i]| >= 8 && Harmless(commands[i], name, decode, end)
  }

  lemma {:induction false} ScanExactly(area: seq<byte>, n: nat, first: nat, name: Name, decode: Decoder, end: nat)
    ensures (Scan(area, n, first, name, decode).Clear? && end <= Scan(area, n, first, name, decode).first) <==>
      (end <= first && Commands(area, n).Some? && AllHarmless(Commands(area, n).value.0, name, decode, end))
    decreases n
  {
    if n > 0 && HasCommand(area) {
      var command, more := area[..SizeOf(area)], area[SizeOf(area)..];
      LookExactly(command, first, name, decode, end);
      var look := Look(command, first, name, decode);
      if look.Clear? {
        ScanExactly(more, n - 1, look.first, name, decode, end);
        ScanKeepsBound(more, n - 1, look.first, name, decode);
        if Commands(more, n - 1).Some? {
          HarmlessFirst(command, Commands(more, n - 1).value.0, name, decode, end);
        }
      } else if Commands(more, n - 1).Some? {
        HarmlessFirst(command, Commands(more, n - 1).value.0, name, decode, end);
      }
    }
  }

  lemma ScanKeepsBound(area: seq<byte>, n: nat, first: nat, name: Name, decode: Decoder)
    ensures Scan(area, n, first, name, decode).Clear? ==> Scan(area, n, first, name, decode).first <= first
  {
  }

  lemma HarmlessFirst(command: seq<byte>, commands: seq<seq<byte>>, name: Name, decode: Decoder, end: nat)
    requires |command| >= 8
    ensures AllHarmless([command] + commands, name, decode, end) <==>
      Harmless(command, name, decode, end) && AllHarmless(commands, name, decode, end)
  {
    var all := [command] + commands;
    if AllHarmless(all, name, decode, end) {
      assert all[0] == command;
      forall i | 0 <= i < |commands| ensures |commands[i]| >= 8 && Harmless(commands[i], name, decode, end) {
        assert all[i + 1] == commands[i];
      }
    }
  }

  /** The area is cut into as many commands as are counted, all harmless. */
  ghost predicate HarmlessArea(area: seq<byte>, n: nat, name: Name, decode: Decoder, end: nat)
  {
    exists commands, rest :: Cut(area, n, commands, rest) && AllHarmless(commands, name, decode, end)
  }

  lemma ParsedExactly(area: seq<byte>, n: nat, name: Name, decode: Decoder, end: nat)
    ensures HarmlessArea(area, n, name, decode, end) <==>
      (Commands(area, n).Some? && AllHarmless(Commands(area, n).value.0, name, decode, end))
  {
    if Commands(area, n).Some? {
      ParsedIsCut(area, n);
    }
    if HarmlessArea(area, n, name, decode, end) {
      var commands, rest :| Cut(area, n, commands, rest) && AllHarmless(commands, name, decode, end);
      CutIsParsed(area, n, commands, rest);
    }
  }

  /** The new command, byte by byte: six words, the name, and at least one zero, up to the next multiple of eight. */
  lemma CommandExactly(name: Name)
    requires CommandSize(name) < 0x1_0000_0000
    ensures CommandSize(name) % 8 == 0 && 25 + |name.encoded| <= CommandSize(name) < 33 + |name.encoded|
    ensures var d, n := DylibCommand(name), |name.encoded|;
      && |d| == CommandSize(name) && U32At(d, 0) == 0x0C && U32At(d, 4) == |d| && U32At(d, 8) == 24
      && d[24..24 + n] == name.encoded
      && forall i | 12 <= i < 24 || 24 + n <= i < |d| :: d[i] == 0
  {
    DylibFields(name);
    var d, head, n := DylibCommand(name), DylibHead(name), |name.encoded|;
    assert d[..24] == head;
    assert head[12..] == LE32(0) + LE32(0) + LE32(0);
    forall i | 12 <= i < 24 ensures d[i] == 0 {
      assert d[i] == d[..24][i] == head[i] == head[12..][i - 12];
    }
    assert d[24 + n..] == [0] + Zeros(CommandSize(name) - 24 - n - 1);
    forall i | 24 + n <= i < |d| ensures d[i] == 0 {
      assert d[i] == d[24 + n..][i - (24 + n)];
    }
  }

  ghost predicate AllZero(s: seq<byte>) { forall i | 0 <= i < |s| :: s[i] == 0 }

  /**
   * A library is added if and only if the slice is a 64-bit image whose counted commands fit in its command
   * area, none of them names the library already or says that the image is encrypted, and the bytes after the
   * area, up to the first section's content, are zero and enough for the command, whose size fits its fields.
   */
  lemma AddedExactly(s: seq<byte>, name: Name, decode: Decoder)
    ensures Decision(s, name, decode) == Added <==>
      && |s| >= 32 && U32At(s, 0) == 0xFEED_FACF
      && var total, size := U32At(s, 20) as int, CommandSize(name);
        && 32 + total + size <= |s| && total + size < 0x1_0000_0000
        && HarmlessArea(s[32..32 + total], U32At(s, 16), name, decode, 32 + total + size)
        && AllZero(s[32 + total..32 + total + size])
  {
    if IsImage(s) {
      var end := 32 + CommandBytes(s) as int + CommandSize(name);
      ScanExactly(Area(s), CommandCount(s), |s|, name, decode, end);
      ParsedExactly(Area(s), CommandCount(s), name, decode, end);
      if end <= |s| {
        ZerosExactly(s[32 + CommandBytes(s)..end]);
      }
    }
  }

  lemma ZerosExactly(s: seq<byte>)
    ensures s == Zeros(|s|) <==> AllZero(s)
  {
  }
}
