/** The canonical save stream: the eleven-section validator and the grammar it accepts. */
module SaveFormat {
  import opened Bytes
  import opened Lz4

  /** "ISAACNGSAVE09R  " */
  const MAGIC: seq<byte> := [73, 83, 65, 65, 67, 78, 71, 83, 65, 86, 69, 48, 57, 82, 32, 32]
  const SECTION_COUNT: nat := 11
  const TRAILER_SIZE: nat := 8

  /** Everything here holds of any checksum function; the game's is `Checksum.SaveChecksum`. */
  type ChecksumFn = seq<byte> -> u32

  // The section walk. Every function yields the position after what it reads.

  function BodySize(kind: nat, block: u32, count: u32): nat
  {
    if kind == 1 then block
    else if kind == 2 || kind == 3 || kind == 8 || kind == 9 then 4 * count
    else count
  }

  /** The bestiary subsections come in the order 4, 2, 3, 1. */
  function BestiaryKind(n: nat): u32
  {
    if n == 0 then 4 else if n == 1 then 2 else if n == 2 then 3 else 1
  }

  /** One bestiary subsection; yields its encoded count, half its length in bytes. */
  function Subsection(s: seq<byte>, pos: nat, kind: u32): (r: Option<u32>)
    requires pos <= |s|
    ensures r.Some? ==> pos + 8 + 2 * r.value <= |s|
  {
    if pos + 8 > |s| then None else
    var count := U32At(s, pos + 4);
    if U32At(s, pos) != kind || count % 4 != 0 || pos + 8 + 2 * count > |s| then None else Some(count)
  }

  /** The bestiary subsections from number `n` on; yields the sum of their encoded counts too. */
  function Subsections(s: seq<byte>, pos: nat, n: nat, size: nat): (r: Option<(nat, nat)>)
    requires pos <= |s| && n <= 4
    ensures r.Some? ==> pos <= r.value.0 <= |s|
    decreases |s| - pos
  {
    if n == 4 then Some((pos, size)) else
    match Subsection(s, pos, BestiaryKind(n))
    case None => None
    case Some(count) => Subsections(s, pos + 8 + 2 * count, n + 1, size + count)
  }

  function Section(s: seq<byte>, pos: nat, kind: nat): (r: Option<nat>)
    requires pos <= |s| && 1 <= kind <= 11
    ensures r.Some? ==> pos < r.value <= |s|
  {
    if pos + 12 > |s| || U32At(s, pos) != kind then None else
    var block, count := U32At(s, pos + 4), U32At(s, pos + 8);
    if kind == 11 then
      match Subsections(s, pos + 12, 0, 0)
      case None => None
      case Some((end, size)) => if count == 4 && size == block then Some(end) else None
    else
      var end := pos + 12 + BodySize(kind, block, count);
      if end > |s| then None else Some(end)
  }

  /** The sections from number `kind` to the last. */
  function Walk(s: seq<byte>, pos: nat, kind: nat): (r: Option<nat>)
    requires pos <= |s| && 1 <= kind <= 12
    ensures r.Some? ==> pos <= r.value <= |s|
    decreases |s| - pos
  {
    if kind == 12 then Some(pos) else
    match Section(s, pos, kind)
    case None => None
    case Some(next) => Walk(s, next, kind + 1)
  }

  predicate Sealed(crc: ChecksumFn, s: seq<byte>)
    requires |s| >= 20
  {
    U32At(s, |s| - 4) == crc(s[16..|s| - 4])
  }

  predicate Canonical(crc: ChecksumFn, s: seq<byte>)
  {
    && 20 <= |s| <= MAX_SAVE_SIZE
    && s[..16] == MAGIC
    && Walk(s, 20, 1) == Some(|s| - TRAILER_SIZE)
    && Sealed(crc, s)
  }

  // The validating loops.

  method ReadU32(s: seq<byte>, cursor: nat) returns (word: Option<u32>, next: nat)
    ensures word == if cursor + 4 <= |s| then Some(U32At(s, cursor)) else None
    ensures word.Some? ==> next == cursor + 4
  {
    next := cursor + 4;
    if next > |s| {
      return None, cursor;
    }
    return Some(U32At(s, cursor)), next;
  }

  method ValidateSubsections(s: seq<byte>, start: nat) returns (result: Option<(nat, nat)>)
    requires start <= |s|
    ensures result == Subsections(s, start, 0, 0)
  {
    var cursor, size: nat := start, 0;
    for n := 0 to 4
      invariant start <= cursor <= |s|
      invariant Subsections(s, cursor, n, size) == Subsections(s, start, 0, 0)
    {
      var kind, afterKind := ReadU32(s, cursor);
      if kind.None? {
        return None;
      }
      var count, afterCount := ReadU32(s, afterKind);
      if count.None? || kind.value != BestiaryKind(n) || count.value % 4 != 0 {
        return None;
      }
      if afterCount + 2 * count.value > |s| {
        return None;
      }
      size := size + count.value;
      cursor := afterCount + 2 * count.value;
    }
    return Some((cursor, size));
  }

  /** The body of the validating loop. */
  method ValidateSection(s: seq<byte>, start: nat, kind: nat) returns (end: Option<nat>)
    requires start <= |s| && 1 <= kind <= 11
    ensures end == Section(s, start, kind)
  {
    var word, afterWord := ReadU32(s, start);
    if word.None? {
      return None;
    }
    var block, afterBlock := ReadU32(s, afterWord);
    if block.None? {
      return None;
    }
    var count, body := ReadU32(s, afterBlock);
    if count.None? || word.value != kind {
      return None;
    }
    if kind == 11 {
      if count.value != 4 {
        return None;
      }
      var subsections := ValidateSubsections(s, body);
      if subsections.None? || subsections.value.1 != block.value {
        return None;
      }
      return Some(subsections.value.0);
    }
    if body + BodySize(kind, block.value, count.value) > |s| {
      return None;
    }
    return Some(body + BodySize(kind, block.value, count.value));
  }

  method ValidateCanonical(crc: ChecksumFn, s: seq<byte>) returns (ok: bool)
    ensures ok <==> Canonical(crc, s)
  {
    if |s| > MAX_SAVE_SIZE || |s| < 16 || s[..16] != MAGIC {
      return false;
    }
    var cursor: nat := 20;
    if cursor > |s| {
      return false;
    }
    ghost var expected := Walk(s, 20, 1);
    for kind := 1 to SECTION_COUNT + 1
      invariant 20 <= cursor <= |s|
      invariant Walk(s, cursor, kind) == expected
    {
      var end := ValidateSection(s, cursor, kind);
      if end.None? {
        return false;
      }
      cursor := end.value;
    }
    if |s| - cursor != TRAILER_SIZE {
      return false;
    }
    return U32At(s, |s| - 4) == crc(s[16..|s| - 4]);
  }

  // Relocation: the walk depends only on the bytes it crosses.

  /** Bytes `from` to `to` of `s` stand in `t` too, moved by `shift`. */
  ghost predicate Moved(s: seq<byte>, from: nat, to: nat, t: seq<byte>, shift: int)
  {
    && to <= |s|
    && 0 <= from + shift
    && to + shift <= |t|
    && forall i | from <= i < to :: s[i] == t[i + shift]
  }

  lemma MovedWord(s: seq<byte>, from: nat, to: nat, t: seq<byte>, shift: int, i: nat)
    requires Moved(s, from, to, t, shift) && from <= i && i + 4 <= to
    ensures U32At(s, i) == U32At(t, i + shift)
  {
    FourBytes(s, i);
    FourBytes(t, i + shift);
  }

  lemma MoveSubsection(s: seq<byte>, p: nat, e: nat, t: seq<byte>, shift: int, kind: u32)
    requires p <= e && Moved(s, p, e, t, shift)
    requires Subsection(s, p, kind).Some? && p + 8 + 2 * Subsection(s, p, kind).value <= e
    ensures Subsection(t, p + shift, kind) == Subsection(s, p, kind)
  {
    MovedWord(s, p, e, t, shift, p);
    MovedWord(s, p, e, t, shift, p + 4);
  }

  lemma {:induction false} MoveSubsections(s: seq<byte>, p: nat, e: nat, t: seq<byte>, shift: int, n: nat, size: nat)
    requires n <= 4 && p <= e && Moved(s, p, e, t, shift)
    requires Subsections(s, p, n, size).Some? && Subsections(s, p, n, size).value.0 <= e
    ensures Subsections(t, p + shift, n, size)
         == Some((Subsections(s, p, n, size).value.0 + shift, Subsections(s, p, n, size).value.1))
    decreases 4 - n
  {
    if n < 4 {
      var count := Subsection(s, p, BestiaryKind(n)).value;
      MoveSubsection(s, p, e, t, shift, BestiaryKind(n));
      MoveSubsections(s, p + 8 + 2 * (count as int), e, t, shift, n + 1, size + count);
    }
  }

  lemma MoveSection(s: seq<byte>, p: nat, e: nat, t: seq<byte>, shift: int, kind: nat)
    requires 1 <= kind <= 11 && p <= e && Moved(s, p, e, t, shift)
    requires Section(s, p, kind).Some? && Section(s, p, kind).value <= e
    ensures Section(t, p + shift, kind) == Some(Section(s, p, kind).value + shift)
  {
    MovedWord(s, p, e, t, shift, p);
    MovedWord(s, p, e, t, shift, p + 4);
    MovedWord(s, p, e, t, shift, p + 8);
    if kind == 11 {
      MoveSubsections(s, p + 12, e, t, shift, 0, 0);
    }
  }

  /** Sections moved anywhere in another stream, whatever surrounds them, are walked the same way. */
  lemma {:induction false} Relocate(s: seq<byte>, p: nat, e: nat, t: seq<byte>, shift: int, kind: nat)
    requires 1 <= kind <= 12 && p <= e && Moved(s, p, e, t, shift)
    requires Walk(s, p, kind) == Some(e)
    ensures Walk(t, p + shift, kind) == Some(e + shift)
    decreases 12 - kind
  {
    if kind < 12 {
      MoveSection(s, p, e, t, shift, kind);
      Relocate(s, Section(s, p, kind).value, e, t, shift, kind + 1);
    }
  }
}
