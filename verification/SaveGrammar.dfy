/** The grammar of canonical saves: records, how they are printed, and that the validator accepts exactly the prints. */
module SaveGrammar {
  import opened Bytes
  import opened Lz4
  import opened SaveFormat

  /** Sections 1 to 10. */
  datatype Part = Part(block: u32, count: u32, body: seq<byte>)

  /** A bestiary subsection: twice as many bytes as its count says. */
  datatype Sub = Sub(count: u32, body: seq<byte>)

  /** Section 11 is the four subsections; its block size and count follow from them. */
  datatype Save = Save(header: seq<byte>, parts: seq<Part>, bestiary: seq<Sub>, salt: seq<byte>)

  /** The length of each section's body, by its number: bytes for 1, 4 to 7 and 10, words for 2, 3, 8 and 9. */
  predicate Lengths(parts: seq<Part>)
    requires |parts| == 10
  {
    && |parts[0].body| == parts[0].block
    && |parts[1].body| == 4 * parts[1].count
    && |parts[2].body| == 4 * parts[2].count
    && |parts[3].body| == parts[3].count
    && |parts[4].body| == parts[4].count
    && |parts[5].body| == parts[5].count
    && |parts[6].body| == parts[6].count
    && |parts[7].body| == 4 * parts[7].count
    && |parts[8].body| == 4 * parts[8].count
    && |parts[9].body| == parts[9].count
  }

  predicate WellFormedBestiary(subs: seq<Sub>)
  {
    subs != [] ==> subs[0].count % 4 == 0 && |subs[0].body| == 2 * subs[0].count && WellFormedBestiary(subs[1..])
  }

  function EncodedSize(subs: seq<Sub>): nat
  {
    if subs == [] then 0 else subs[0].count as int + EncodedSize(subs[1..])
  }

  predicate WellFormed(save: Save)
  {
    && |save.header| == 4
    && |save.parts| == 10 && Lengths(save.parts)
    && |save.bestiary| == 4 && WellFormedBestiary(save.bestiary) && EncodedSize(save.bestiary) < 0x1_0000_0000
    && |save.salt| == 4
  }

  function PrintSub(kind: u32, sub: Sub): seq<byte> { LE32(kind) + LE32(sub.count) + sub.body }

  /** The four subsections of the bestiary are numbered 4, 2, 3 and 1, in this order. */
  function PrintFour(subs: seq<Sub>): seq<byte>
    requires |subs| == 4
  {
    PrintSub(4, subs[0]) + (PrintSub(2, subs[1]) + (PrintSub(3, subs[2]) + PrintSub(1, subs[3])))
  }

  /** A save starts with these sixteen bytes: "ISAACNGSAVE09R  ". */
  const HEADER: seq<byte> := [73, 83, 65, 65, 67, 78, 71, 83, 65, 86, 69, 48, 57, 82, 32, 32]

  function PrintParts(parts: seq<Part>, kind: nat): seq<byte>
    requires kind + |parts| <= 11
  {
    if parts == [] then []
    else LE32(kind) + LE32(parts[0].block) + LE32(parts[0].count) + parts[0].body + PrintParts(parts[1..], kind + 1)
  }

  /** The bestiary from subsection `n` on, as the validator reads it. */
  function PrintBestiary(subs: seq<Sub>, n: nat): seq<byte>
    requires n + |subs| <= 4 && WellFormedBestiary(subs)
  {
    if subs == [] then []
    else LE32(BestiaryKind(n)) + LE32(subs[0].count) + subs[0].body + PrintBestiary(subs[1..], n + 1)
  }

  function PrintSections(save: Save): seq<byte>
    requires WellFormed(save)
  {
    PrintParts(save.parts, 1) + (LE32(11) + LE32(EncodedSize(save.bestiary)) + LE32(4) + PrintFour(save.bestiary))
  }

  /** A body followed by its checksum. */
  function Seal(crc: ChecksumFn, body: seq<byte>): seq<byte>
    requires |body| >= 16
  {
    body + LE32(crc(body[16..]))
  }

  function Print(crc: ChecksumFn, save: Save): seq<byte>
    requires WellFormed(save)
  {
    Seal(crc, HEADER + save.header + PrintSections(save) + save.salt)
  }

  // The validator reads what the grammar prints: the same lengths and the same numbers.

  predicate WellFormedParts(parts: seq<Part>, kind: nat)
  {
    parts != [] ==>
      (|parts[0].body| == BodySize(kind, parts[0].block, parts[0].count) && WellFormedParts(parts[1..], kind + 1))
  }

  lemma {:induction false} PartAt(parts: seq<Part>, kind: nat)
    ensures WellFormedParts(parts, kind) <==>
      forall i :: 0 <= i < |parts| ==> |parts[i].body| == BodySize(kind + i, parts[i].block, parts[i].count)
  {
    if parts != [] {
      PartAt(parts[1..], kind + 1);
      assert parts == [parts[0]] + parts[1..];
    }
  }

  lemma LengthsAreBodySizes(parts: seq<Part>)
    requires |parts| == 10
    ensures Lengths(parts) <==> WellFormedParts(parts, 1)
  {
    PartAt(parts, 1);
  }

  lemma FourArePrinted(subs: seq<Sub>)
    requires |subs| == 4 && WellFormedBestiary(subs)
    ensures PrintFour(subs) == PrintBestiary(subs, 0)
  {
    assert subs[1..][1..] == subs[2..] && subs[2..][1..] == subs[3..] && subs[3..][1..] == [];
    assert WellFormedBestiary(subs[1..]);
    assert WellFormedBestiary(subs[2..]);
    assert WellFormedBestiary(subs[3..]);
    assert PrintBestiary([], 4) == [];
    assert PrintBestiary(subs[3..], 3) == PrintSub(1, subs[3]) + PrintBestiary([], 4) == PrintSub(1, subs[3]);
    assert PrintBestiary(subs[2..], 2) == PrintSub(3, subs[2]) + PrintBestiary(subs[3..], 3);
    assert PrintBestiary(subs[1..], 1) == PrintSub(2, subs[1]) + PrintBestiary(subs[2..], 2);
    assert PrintBestiary(subs, 0) == PrintSub(4, subs[0]) + PrintBestiary(subs[1..], 1);
  }

  // Printed pieces inside a stream.

  ghost predicate At(s: seq<byte>, pos: nat, piece: seq<byte>)
  {
    pos + |piece| <= |s| && forall i | 0 <= i < |piece| :: piece[i] == s[pos + i]
  }

  lemma AtConcat(s: seq<byte>, pos: nat, a: seq<byte>, b: seq<byte>)
    ensures At(s, pos, a + b) <==> At(s, pos, a) && At(s, pos + |a|, b)
  {
    if At(s, pos, a + b) {
      assert forall i | 0 <= i < |a| :: a[i] == (a + b)[i];
      assert forall i | 0 <= i < |b| :: b[i] == (a + b)[|a| + i];
    }
  }

  lemma AtWord(s: seq<byte>, pos: nat, v: u32)
    requires pos + 4 <= |s|
    ensures At(s, pos, LE32(v)) <==> U32At(s, pos) == v
  {
    DecodeEncoded(v);
    SameWord(LE32(v), 0, s, pos);
    assert At(s, pos, LE32(v)) <==> forall i | 0 <= i < 4 :: LE32(v)[i] == s[pos + i];
  }

  lemma AtSlice(s: seq<byte>, pos: nat, piece: seq<byte>)
    requires pos + |piece| <= |s|
    ensures At(s, pos, piece) <==> s[pos..pos + |piece|] == piece
  {
    if s[pos..pos + |piece|] == piece {
      assert forall i | 0 <= i < |piece| :: piece[i] == s[pos..pos + |piece|][i];
    }
  }

  lemma AtPart(s: seq<byte>, pos: nat, a: u32, b: u32, c: u32, body: seq<byte>, rest: seq<byte>)
    ensures At(s, pos, LE32(a) + LE32(b) + LE32(c) + body + rest) <==>
      && pos + 12 + |body| <= |s|
      && U32At(s, pos) == a && U32At(s, pos + 4) == b && U32At(s, pos + 8) == c
      && s[pos + 12..pos + 12 + |body|] == body
      && At(s, pos + 12 + |body|, rest)
  {
    AtConcat(s, pos, LE32(a) + LE32(b) + LE32(c) + body, rest);
    AtConcat(s, pos, LE32(a) + LE32(b) + LE32(c), body);
    AtConcat(s, pos, LE32(a) + LE32(b), LE32(c));
    AtConcat(s, pos, LE32(a), LE32(b));
    if pos + 12 + |body| <= |s| {
      AtWord(s, pos, a);
      AtWord(s, pos + 4, b);
      AtWord(s, pos + 8, c);
      AtSlice(s, pos + 12, body);
    }
  }

  lemma AtSubsection(s: seq<byte>, pos: nat, a: u32, b: u32, body: seq<byte>, rest: seq<byte>)
    ensures At(s, pos, LE32(a) + LE32(b) + body + rest) <==>
      && pos + 8 + |body| <= |s|
      && U32At(s, pos) == a && U32At(s, pos + 4) == b
      && s[pos + 8..pos + 8 + |body|] == body
      && At(s, pos + 8 + |body|, rest)
  {
    AtConcat(s, pos, LE32(a) + LE32(b) + body, rest);
    AtConcat(s, pos, LE32(a) + LE32(b), body);
    AtConcat(s, pos, LE32(a), LE32(b));
    if pos + 8 + |body| <= |s| {
      AtWord(s, pos, a);
      AtWord(s, pos + 4, b);
      AtSlice(s, pos + 8, body);
    }
  }

  // Sections 1 to 10.

  function PartsSize(parts: seq<Part>): nat
  {
    if parts == [] then 0 else 12 + |parts[0].body| + PartsSize(parts[1..])
  }

  /** The sections stand at `pos`, field by field. */
  ghost predicate SpelledParts(s: seq<byte>, pos: nat, parts: seq<Part>, kind: nat)
    decreases |parts|
  {
    parts != [] ==>
      var next := pos + 12 + |parts[0].body|;
      && next <= |s|
      && U32At(s, pos) == kind && U32At(s, pos + 4) == parts[0].block && U32At(s, pos + 8) == parts[0].count
      && s[pos + 12..next] == parts[0].body
      && SpelledParts(s, next, parts[1..], kind + 1)
  }

  lemma {:induction false} SpelledPartsArePrinted(s: seq<byte>, pos: nat, parts: seq<Part>, kind: nat)
    requires kind + |parts| <= 11 && pos <= |s|
    ensures |PrintParts(parts, kind)| == PartsSize(parts)
    ensures SpelledParts(s, pos, parts, kind) <==> At(s, pos, PrintParts(parts, kind))
    decreases |parts|
  {
    if parts != [] {
      var next := pos + 12 + |parts[0].body|;
      AtPart(s, pos, kind, parts[0].block, parts[0].count, parts[0].body, PrintParts(parts[1..], kind + 1));
      SpelledPartsArePrinted(s, if next <= |s| then next else 0, parts[1..], kind + 1);
    }
  }

  lemma {:induction false} WalkSpelledParts(s: seq<byte>, pos: nat, parts: seq<Part>, kind: nat)
    requires 1 <= kind && kind + |parts| == 11 && WellFormedParts(parts, kind) && SpelledParts(s, pos, parts, kind)
    requires pos + PartsSize(parts) <= |s|
    ensures Walk(s, pos, kind) == Walk(s, pos + PartsSize(parts), 11)
    decreases |parts|
  {
    if parts != [] {
      WalkSpelledParts(s, pos + 12 + |parts[0].body|, parts[1..], kind + 1);
    }
  }

  lemma FirstPart(s: seq<byte>, pos: nat, first: Part, rest: seq<Part>, kind: nat)
    requires pos + 12 + |first.body| <= |s| && s[pos + 12..pos + 12 + |first.body|] == first.body
    requires U32At(s, pos) == kind && U32At(s, pos + 4) == first.block && U32At(s, pos + 8) == first.count
    requires SpelledParts(s, pos + 12 + |first.body|, rest, kind + 1)
    ensures SpelledParts(s, pos, [first] + rest, kind)
    ensures PartsSize([first] + rest) == 12 + |first.body| + PartsSize(rest)
    ensures WellFormedParts([first] + rest, kind)
      <==> |first.body| == BodySize(kind, first.block, first.count) && WellFormedParts(rest, kind + 1)
  {
    assert ([first] + rest)[1..] == rest;
  }

  lemma {:induction false} ReadParts(s: seq<byte>, pos: nat, kind: nat) returns (parts: seq<Part>)
    requires pos <= |s| && 1 <= kind <= 11 && Walk(s, pos, kind).Some?
    ensures |parts| == 11 - kind && WellFormedParts(parts, kind) && SpelledParts(s, pos, parts, kind)
    ensures pos + PartsSize(parts) <= |s| && Walk(s, pos, kind) == Walk(s, pos + PartsSize(parts), 11)
    decreases 11 - kind
  {
    if kind == 11 {
      return [];
    }
    var next := Section(s, pos, kind).value;
    var rest := ReadParts(s, next, kind + 1);
    var first := Part(U32At(s, pos + 4), U32At(s, pos + 8), s[pos + 12..next]);
    FirstPart(s, pos, first, rest, kind);
    parts := [first] + rest;
  }

  lemma {:induction false} SamePartsSpelled(s: seq<byte>, pos: nat, a: seq<Part>, b: seq<Part>, kind: nat)
    requires |a| == |b| && WellFormedParts(a, kind) && WellFormedParts(b, kind)
    requires SpelledParts(s, pos, a, kind) && SpelledParts(s, pos, b, kind)
    ensures a == b
    decreases |a|
  {
    if a != [] {
      assert a[0] == b[0];
      SamePartsSpelled(s, pos + 12 + |a[0].body|, a[1..], b[1..], kind + 1);
      assert a == [a[0]] + a[1..] && b == [b[0]] + b[1..];
    }
  }

  // Section 11.

  function BestiarySize(subs: seq<Sub>): nat
  {
    if subs == [] then 0 else 8 + |subs[0].body| + BestiarySize(subs[1..])
  }

  ghost predicate SpelledBestiary(s: seq<byte>, pos: nat, subs: seq<Sub>, n: nat)
    decreases |subs|
  {
    subs != [] ==>
      var next := pos + 8 + |subs[0].body|;
      && next <= |s|
      && U32At(s, pos) == BestiaryKind(n) && U32At(s, pos + 4) == subs[0].count
      && s[pos + 8..next] == subs[0].body
      && SpelledBestiary(s, next, subs[1..], n + 1)
  }

  lemma {:induction false} PrintedBestiarySize(subs: seq<Sub>, n: nat)
    requires n + |subs| <= 4 && WellFormedBestiary(subs)
    ensures |PrintBestiary(subs, n)| == BestiarySize(subs)
  {
    if subs != [] {
      PrintedBestiarySize(subs[1..], n + 1);
    }
  }

  lemma {:induction false} SpelledBestiaryIsPrinted(s: seq<byte>, pos: nat, subs: seq<Sub>, n: nat)
    requires n + |subs| <= 4 && WellFormedBestiary(subs) && pos <= |s|
    ensures SpelledBestiary(s, pos, subs, n) <==> At(s, pos, PrintBestiary(subs, n))
    decreases |subs|
  {
    if subs != [] {
      var next, rest := pos + 8 + |subs[0].body|, PrintBestiary(subs[1..], n + 1);
      assert PrintBestiary(subs, n) == LE32(BestiaryKind(n)) + LE32(subs[0].count) + subs[0].body + rest;
      AtSubsection(s, pos, BestiaryKind(n), subs[0].count, subs[0].body, rest);
      if next <= |s| {
        SpelledBestiaryIsPrinted(s, next, subs[1..], n + 1);
      }
    }
  }

  lemma {:induction false} WalkSpelledBestiary(s: seq<byte>, pos: nat, subs: seq<Sub>, n: nat, size: nat)
    requires n + |subs| == 4 && WellFormedBestiary(subs) && pos <= |s| && SpelledBestiary(s, pos, subs, n)
    ensures Subsections(s, pos, n, size) == Some((pos + BestiarySize(subs), size + EncodedSize(subs)))
    decreases |subs|
  {
    if subs != [] {
      assert Subsection(s, pos, BestiaryKind(n)) == Some(subs[0].count);
      WalkSpelledBestiary(s, pos + 8 + |subs[0].body|, subs[1..], n + 1, size + subs[0].count as int);
    }
  }

  lemma FirstSub(s: seq<byte>, pos: nat, first: Sub, rest: seq<Sub>, n: nat)
    requires pos + 8 + |first.body| <= |s| && s[pos + 8..pos + 8 + |first.body|] == first.body
    requires U32At(s, pos) == BestiaryKind(n) && U32At(s, pos + 4) == first.count
    requires SpelledBestiary(s, pos + 8 + |first.body|, rest, n + 1)
    ensures SpelledBestiary(s, pos, [first] + rest, n)
    ensures BestiarySize([first] + rest) == 8 + |first.body| + BestiarySize(rest)
    ensures EncodedSize([first] + rest) == first.count as int + EncodedSize(rest)
    ensures WellFormedBestiary([first] + rest)
      <==> first.count % 4 == 0 && |first.body| == 2 * first.count && WellFormedBestiary(rest)
  {
    assert ([first] + rest)[1..] == rest;
  }

  lemma {:induction false} ReadBestiary(s: seq<byte>, pos: nat, n: nat, size: nat) returns (subs: seq<Sub>)
    requires pos <= |s| && n <= 4 && Subsections(s, pos, n, size).Some?
    ensures |subs| == 4 - n && WellFormedBestiary(subs) && SpelledBestiary(s, pos, subs, n)
    ensures Subsections(s, pos, n, size) == Some((pos + BestiarySize(subs), size + EncodedSize(subs)))
    decreases 4 - n
  {
    if n == 4 {
      return [];
    }
    var count := Subsection(s, pos, BestiaryKind(n)).value;
    var next := pos + 8 + 2 * (count as int);
    var rest := ReadBestiary(s, next, n + 1, size + count as int);
    var first := Sub(count, s[pos + 8..next]);
    FirstSub(s, pos, first, rest, n);
    subs := [first] + rest;
  }

  lemma {:induction false} SameBestiarySpelled(s: seq<byte>, pos: nat, a: seq<Sub>, b: seq<Sub>, n: nat)
    requires |a| == |b| && WellFormedBestiary(a) && WellFormedBestiary(b)
    requires SpelledBestiary(s, pos, a, n) && SpelledBestiary(s, pos, b, n)
    ensures a == b
    decreases |a|
  {
    if a != [] {
      assert a[0] == b[0];
      SameBestiarySpelled(s, pos + 8 + |a[0].body|, a[1..], b[1..], n + 1);
      assert a == [a[0]] + a[1..] && b == [b[0]] + b[1..];
    }
  }

  // All eleven sections.

  lemma AtBestiary(s: seq<byte>, pos: nat, size: u32, subs: seq<byte>)
    ensures At(s, pos, LE32(11) + LE32(size) + LE32(4) + subs) <==>
      && pos + 12 <= |s|
      && U32At(s, pos) == 11 && U32At(s, pos + 4) == size && U32At(s, pos + 8) == 4
      && At(s, pos + 12, subs)
  {
    AtPart(s, pos, 11, size, 4, [], subs);
    assert LE32(11) + LE32(size) + LE32(4) + [] == LE32(11) + LE32(size) + LE32(4);
  }

  ghost predicate SpelledSections(s: seq<byte>, pos: nat, save: Save)
  {
    && SpelledParts(s, pos, save.parts, 1)
    && var end := pos + PartsSize(save.parts);
    && end + 12 <= |s|
    && U32At(s, end) == 11 && U32At(s, end + 4) == EncodedSize(save.bestiary) && U32At(s, end + 8) == 4
    && SpelledBestiary(s, end + 12, save.bestiary, 0)
  }

  lemma PrintedSectionsSize(save: Save)
    requires WellFormed(save)
    ensures |PrintSections(save)| == PartsSize(save.parts) + 12 + BestiarySize(save.bestiary)
  {
    SpelledPartsArePrinted([], 0, save.parts, 1);
    FourArePrinted(save.bestiary);
    PrintedBestiarySize(save.bestiary, 0);
  }

  lemma LastSectionIsPrinted(s: seq<byte>, pos: nat, size: u32, bestiary: seq<Sub>)
    requires |bestiary| == 4 && WellFormedBestiary(bestiary)
    ensures At(s, pos, LE32(11) + LE32(size) + LE32(4) + PrintFour(bestiary)) <==>
      && pos + 12 <= |s|
      && U32At(s, pos) == 11 && U32At(s, pos + 4) == size && U32At(s, pos + 8) == 4
      && SpelledBestiary(s, pos + 12, bestiary, 0)
  {
    FourArePrinted(bestiary);
    AtBestiary(s, pos, size, PrintBestiary(bestiary, 0));
    if pos + 12 <= |s| {
      SpelledBestiaryIsPrinted(s, pos + 12, bestiary, 0);
    }
  }

  lemma SpelledSectionsArePrinted(s: seq<byte>, pos: nat, save: Save)
    requires WellFormed(save) && pos <= |s|
    ensures |PrintSections(save)| == PartsSize(save.parts) + 12 + BestiarySize(save.bestiary)
    ensures SpelledSections(s, pos, save) <==> At(s, pos, PrintSections(save))
  {
    var size := EncodedSize(save.bestiary);
    PrintedSectionsSize(save);
    SpelledPartsArePrinted(s, pos, save.parts, 1);
    AtConcat(s, pos, PrintParts(save.parts, 1), LE32(11) + LE32(size) + LE32(4) + PrintFour(save.bestiary));
    LastSectionIsPrinted(s, pos + PartsSize(save.parts), size, save.bestiary);
  }

  lemma WalkSpelledSections(s: seq<byte>, pos: nat, save: Save)
    requires WellFormed(save) && SpelledSections(s, pos, save)
    ensures Walk(s, pos, 1) == Some(pos + PartsSize(save.parts) + 12 + BestiarySize(save.bestiary))
  {
    var end := pos + PartsSize(save.parts);
    LengthsAreBodySizes(save.parts);
    WalkSpelledBestiary(s, end + 12, save.bestiary, 0, 0);
    LastSection(s, end);
    WalkSpelledParts(s, pos, save.parts, 1);
  }

  lemma LastSection(s: seq<byte>, pos: nat)
    requires pos <= |s|
    ensures Walk(s, pos, 11) == Section(s, pos, 11)
  {
  }

  lemma ReadSections(s: seq<byte>, pos: nat, header: seq<byte>, salt: seq<byte>) returns (save: Save)
    requires |header| == |salt| == 4 && pos <= |s| && Walk(s, pos, 1).Some?
    ensures WellFormed(save) && SpelledSections(s, pos, save) && save.header == header && save.salt == salt
    ensures Walk(s, pos, 1) == Some(pos + PartsSize(save.parts) + 12 + BestiarySize(save.bestiary))
  {
    var parts := ReadParts(s, pos, 1);
    LengthsAreBodySizes(parts);
    var end := pos + PartsSize(parts);
    LastSection(s, end);
    var bestiary := ReadBestiary(s, end + 12, 0, 0);
    save := Save(header, parts, bestiary, salt);
  }

  // Whole saves.

  ghost predicate Prints(crc: ChecksumFn, save: Save, s: seq<byte>)
  {
    WellFormed(save) && Print(crc, save) == s
  }

  /** Sealing keeps the body and makes the last word its checksum. */
  lemma SealedBody(crc: ChecksumFn, body: seq<byte>)
    requires |body| >= 16
    ensures var s := Seal(crc, body);
      |s| == |body| + 4 && s[..|s| - 4] == body && Sealed(crc, s)
  {
    var s, v := Seal(crc, body), crc(body[16..]);
    assert s[16..|s| - 4] == body[16..];
    DecodeEncoded(v);
    SameWord(LE32(v), 0, s, |body|);
  }

  /** A sealed stream is the seal of all but its last word. */
  lemma BodySealed(crc: ChecksumFn, s: seq<byte>)
    requires |s| >= 20 && Sealed(crc, s)
    ensures s == Seal(crc, s[..|s| - 4])
  {
    var body := s[..|s| - 4];
    assert body[16..] == s[16..|s| - 4];
    EncodeDecoded(s, |s| - 4);
    assert s == body + [s[|s| - 4], s[|s| - 3], s[|s| - 2], s[|s| - 1]];
  }

  lemma AtSealed(crc: ChecksumFn, s: seq<byte>, header: seq<byte>, sections: seq<byte>, salt: seq<byte>)
    requires |header| == 4 && |salt| == 4
    requires s == Seal(crc, MAGIC + header + sections + salt)
    ensures |s| == 28 + |sections| && Sealed(crc, s)
    ensures s[..16] == MAGIC && s[16..20] == header && At(s, 20, sections) && s[|s| - 8..|s| - 4] == salt
  {
    var body := MAGIC + header + sections + salt;
    SealedBody(crc, body);
    AtSlice(s, 0, body);
    AtConcat(s, 0, MAGIC + header + sections, salt);
    AtConcat(s, 0, MAGIC + header, sections);
    AtConcat(s, 0, MAGIC, header);
    AtSlice(s, 0, MAGIC);
    AtSlice(s, 16, header);
    AtSlice(s, |s| - 8, salt);
  }

  lemma PrintedSave(crc: ChecksumFn, save: Save, s: seq<byte>)
    requires Prints(crc, save, s)
    ensures |s| >= 28 && s[..16] == MAGIC && Sealed(crc, s)
    ensures save.header == s[16..20] && save.salt == s[|s| - 8..|s| - 4]
    ensures SpelledSections(s, 20, save)
    ensures PartsSize(save.parts) + 12 + BestiarySize(save.bestiary) == |s| - 28
  {
    AtSealed(crc, s, save.header, PrintSections(save), save.salt);
    SpelledSectionsArePrinted(s, 20, save);
  }

  lemma SpelledSave(crc: ChecksumFn, save: Save, s: seq<byte>)
    requires |s| >= 28 && s[..16] == MAGIC && Sealed(crc, s)
    requires save.header == s[16..20] && save.salt == s[|s| - 8..|s| - 4]
    requires WellFormed(save) && SpelledSections(s, 20, save)
    requires PartsSize(save.parts) + 12 + BestiarySize(save.bestiary) == |s| - 28
    ensures Prints(crc, save, s)
  {
    SpelledSectionsArePrinted(s, 20, save);
    SealedParts(crc, s, PrintSections(save));
  }

  /** A sealed stream is the seal of its four parts. */
  lemma SealedParts(crc: ChecksumFn, s: seq<byte>, sections: seq<byte>)
    requires |s| >= 28 && s[..16] == MAGIC && Sealed(crc, s) && At(s, 20, sections) && |sections| == |s| - 28
    ensures s == Seal(crc, MAGIC + s[16..20] + sections + s[|s| - 8..|s| - 4])
  {
    AtSlice(s, 20, sections);
    BodySealed(crc, s);
    assert s[..|s| - 4] == s[..16] + s[16..20] + s[20..|s| - 8] + s[|s| - 8..|s| - 4];
  }

  lemma CanonicalIsPrinted(crc: ChecksumFn, s: seq<byte>) returns (save: Save)
    requires Canonical(crc, s)
    ensures Prints(crc, save, s)
  {
    save := ReadSections(s, 20, s[16..20], s[|s| - 8..|s| - 4]);
    SpelledSave(crc, save, s);
  }

  lemma PrintedIsCanonical(crc: ChecksumFn, save: Save, s: seq<byte>)
    requires Prints(crc, save, s) && |s| <= MAX_SAVE_SIZE
    ensures Canonical(crc, s)
  {
    PrintedSave(crc, save, s);
    WalkSpelledSections(s, 20, save);
  }

  /** The validator accepts exactly the prints of well-formed records within the size limit. */
  lemma ValidatorAcceptsGrammar(crc: ChecksumFn, s: seq<byte>)
    ensures Canonical(crc, s) <==> |s| <= 33_554_432 && exists save :: Prints(crc, save, s)
  {
    if Canonical(crc, s) {
      var save := CanonicalIsPrinted(crc, s);
    } else if |s| <= MAX_SAVE_SIZE && exists save :: Prints(crc, save, s) {
      var save :| Prints(crc, save, s);
      PrintedIsCanonical(crc, save, s);
    }
  }

  /** A stream is the print of at most one record. */
  lemma RecordIsUnique(crc: ChecksumFn, a: Save, b: Save, s: seq<byte>)
    requires Prints(crc, a, s) && Prints(crc, b, s)
    ensures a == b
  {
    PrintedSave(crc, a, s);
    PrintedSave(crc, b, s);
    LengthsAreBodySizes(a.parts);
    LengthsAreBodySizes(b.parts);
    SamePartsSpelled(s, 20, a.parts, b.parts, 1);
    SameBestiarySpelled(s, 20 + PartsSize(a.parts) + 12, a.bestiary, b.bestiary, 0);
  }
}
