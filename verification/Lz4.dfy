/** The raw LZ4 block decoder: the decoding loop, and what it decodes. */
module Lz4 {
  import opened Bytes

  const MAX_SAVE_SIZE: nat := 32 * 1024 * 1024

  // The decoder's specification, branch by branch.

  /** Adds extension bytes to `length` until one below 255; yields the length and the next position. */
  function Extend(input: seq<byte>, pos: nat, length: nat): Option<(nat, nat)>
    requires pos <= |input|
    decreases |input| - pos
  {
    if pos == |input| then None
    else if input[pos] != 255 then Some((length + input[pos], pos + 1))
    else Extend(input, pos + 1, length + 255)
  }

  function ReadLength(input: seq<byte>, pos: nat, base: nat): (r: Option<(nat, nat)>)
    requires pos <= |input|
    ensures r.Some? ==> pos <= r.value.1 <= |input|
  {
    if base != 15 then Some((base, pos)) else ExtendAdvances(input, pos, base); Extend(input, pos, base)
  }

  /** Copying byte by byte from `offset` back repeats the last `offset` bytes periodically. */
  function CopyMatch(s: seq<byte>, offset: nat, length: nat): seq<byte>
    requires 1 <= offset <= |s|
  {
    s + seq(length, i requires 0 <= i => s[|s| - offset + i % offset])
  }

  /** A token and the literals it announces; yields them and the position after them. */
  function ReadLiterals(input: seq<byte>, pos: nat): (r: Option<(seq<byte>, nat)>)
    requires pos < |input|
    ensures r.Some? ==> pos < r.value.1 <= |input|
  {
    match ReadLength(input, pos + 1, input[pos] / 16)
    case None => None
    case Some((length, start)) =>
      if start + length > |input| then None else Some((input[start..start + length], start + length))
  }

  /** A two-byte offset and a match length; yields both and the position after them. */
  function ReadMatch(input: seq<byte>, pos: nat, base: nat): (r: Option<(nat, nat, nat)>)
    requires pos <= |input|
    ensures r.Some? ==> pos < r.value.2 <= |input| && r.value.0 > 0
  {
    if pos + 2 > |input| then None else
    var offset := input[pos] as int + 0x100 * (input[pos + 1] as int);
    if offset == 0 then None else
    match ReadLength(input, pos + 2, base)
    case None => None
    case Some((length, next)) => Some((offset, length + 4, next))
  }

  /** One turn of the decoding loop. */
  datatype Turn = Reject | Finish(output: seq<byte>) | Continue(next: nat, output: seq<byte>)

  function DecodeTurn(input: seq<byte>, pos: nat, output: seq<byte>): (turn: Turn)
    requires pos < |input|
    ensures turn.Continue? ==> pos < turn.next <= |input|
  {
    match ReadLiterals(input, pos)
    case None => Reject
    case Some((literals, end)) =>
      if |output| + |literals| > MAX_SAVE_SIZE then Reject else
      if end == |input| then Finish(output + literals) else
      match ReadMatch(input, end, input[pos] % 16)
      case None => Reject
      case Some((offset, length, next)) =>
        if offset > |output| + |literals| || |output| + |literals| + length > MAX_SAVE_SIZE then Reject
        else Continue(next, CopyMatch(output + literals, offset, length))
  }

  function DecodeFrom(input: seq<byte>, pos: nat, output: seq<byte>): Option<seq<byte>>
    requires pos <= |input|
    decreases |input| - pos
  {
    if pos == |input| then Some(output) else
    match DecodeTurn(input, pos, output)
    case Reject => None
    case Finish(literal) => Some(literal)
    case Continue(next, grown) => DecodeFrom(input, next, grown)
  }

  function DecodeRaw(input: seq<byte>): Option<seq<byte>>
  {
    if input == [] || |input| > MAX_SAVE_SIZE then None else DecodeFrom(input, 0, [])
  }

  lemma {:induction false} ExtendAdvances(input: seq<byte>, pos: nat, length: nat)
    requires pos <= |input|
    ensures var r := Extend(input, pos, length);
      r.Some? ==> pos < r.value.1 <= |input| && length <= r.value.0 < length + 255 * (r.value.1 - pos)
    decreases |input| - pos
  {
    if pos < |input| && input[pos] == 255 {
      ExtendAdvances(input, pos + 1, length + 255);
    }
  }

  // The decoding loops.

  method ExtendedLength(input: seq<byte>, start: nat, base: nat) returns (length: Option<nat>, cursor: nat)
    requires start <= |input|
    ensures length.None? <==> ReadLength(input, start, base).None?
    ensures length.Some? ==> ReadLength(input, start, base) == Some((length.value, cursor))
  {
    cursor := start;
    if base != 15 {
      return Some(base), cursor;
    }
    var total: nat := base;
    while cursor < |input|
      invariant start <= cursor <= |input|
      invariant Extend(input, cursor, total) == Extend(input, start, base)
    {
      var extension := input[cursor];
      cursor := cursor + 1;
      total := total + extension as int;
      if extension != 255 {
        return Some(total), cursor;
      }
    }
    return None, cursor;
  }

  method DecodeRawLz4(input: seq<byte>) returns (result: Option<seq<byte>>)
    ensures result == DecodeRaw(input)
  {
    if input == [] || |input| > MAX_SAVE_SIZE {
      return None;
    }
    var output: seq<byte> := [];
    var cursor := 0;
    ghost var expected := DecodeFrom(input, 0, []);
    while cursor < |input|
      invariant 0 <= cursor <= |input|
      invariant DecodeFrom(input, cursor, output) == expected
      decreases |input| - cursor
    {
      var turn := DecodeSequence(input, cursor, output);
      match turn
      case Reject => return None;
      case Finish(literal) => return Some(literal);
      case Continue(next, grown) => cursor, output := next, grown;
    }
    return Some(output);
  }

  /** The body of the decoding loop. */
  method DecodeSequence(input: seq<byte>, start: nat, output: seq<byte>) returns (turn: Turn)
    requires start < |input|
    ensures turn == DecodeTurn(input, start, output)
  {
    var token := input[start];
    var literalLength, cursor := ExtendedLength(input, start + 1, token / 16);
    if literalLength.None? {
      return Reject;
    }
    var end := cursor + literalLength.value;
    if end > |input| || |output| + literalLength.value > MAX_SAVE_SIZE {
      return Reject;
    }
    var literal := output + input[cursor..end];
    if end == |input| {
      return Finish(literal);
    }
    if end + 2 > |input| {
      return Reject;
    }
    var offset := input[end] as int + 0x100 * (input[end + 1] as int);
    if offset == 0 || offset > |literal| {
      return Reject;
    }
    var baseMatch, next := ExtendedLength(input, end + 2, token % 16);
    if baseMatch.None? {
      return Reject;
    }
    var matchLength := baseMatch.value + 4;
    if |literal| + matchLength > MAX_SAVE_SIZE {
      return Reject;
    }
    var grown := AppendMatch(literal, offset, matchLength);
    return Continue(next, grown);
  }

  /** The innermost loop: each byte pushed may itself be the source of a later one. */
  method AppendMatch(s: seq<byte>, offset: nat, length: nat) returns (output: seq<byte>)
    requires 1 <= offset <= |s|
    ensures output == CopyMatch(s, offset, length)
  {
    output := s;
    for k := 0 to length
      invariant output == CopyMatch(s, offset, k)
    {
      NextCopied(s, offset, k);
      output := output + [output[|output| - offset]];
    }
  }

  lemma NextCopied(s: seq<byte>, offset: nat, k: nat)
    requires 1 <= offset <= |s|
    ensures var output := CopyMatch(s, offset, k);
      CopyMatch(s, offset, k + 1) == output + [output[|output| - offset]]
  {
    var output, next := CopyMatch(s, offset, k), CopyMatch(s, offset, k + 1);
    CopiedByte(s, offset, k);
    assert next == output + [s[|s| - offset + k % offset]];
  }

  /** The byte `offset` back from the end is the next one of the period. */
  lemma CopiedByte(s: seq<byte>, offset: nat, k: nat)
    requires 1 <= offset <= |s|
    ensures var output := CopyMatch(s, offset, k); output[|output| - offset] == s[|s| - offset + k % offset]
  {
    var output := CopyMatch(s, offset, k);
    if k >= offset {
      PreviousPeriod(k, offset);
      assert output[|s| + (k - offset)] == s[|s| - offset + (k - offset) % offset];
    } else {
      RemainderIsUnique(k, offset, 0, k);
    }
  }

  lemma PreviousPeriod(k: nat, period: nat)
    requires 1 <= period <= k
    ensures (k - period) % period == k % period
  {
    RemainderIsUnique(k - period, period, k / period - 1, k % period);
  }

  lemma RemainderIsUnique(x: int, d: nat, q: int, r: nat)
    requires x == d * q + r && r < d
    ensures x % d == r
  {
    var gap := x / d - q;
    assert d * gap == r - x % d;
    MultipleIsFar(d, gap);
  }

  lemma MultipleIsFar(d: nat, gap: int)
    ensures gap >= 1 ==> d * gap >= d
    ensures gap <= -1 ==> d * gap + d <= 0
  {
  }

  // What the decoder decodes: the block format, written out.

  /** The sequences of a block. A final literal-only sequence still carries an unused low nibble. */
  datatype Block =
    | End
    | Last(nibble: nat, literals: seq<byte>)
    | Copy(literals: seq<byte>, offset: nat, matchLength: nat, rest: Block)

  /** Every offset reaches back into what is already produced; fields fit their encodings. */
  predicate WellFormed(b: Block, produced: nat)
  {
    match b
    case End => true
    case Last(nibble, _) => nibble < 16
    case Copy(literals, offset, matchLength, rest) =>
      && 1 <= offset <= produced + |literals|
      && offset < 0x1_0000
      && matchLength >= 4
      && WellFormed(rest, produced + |literals| + matchLength)
  }

  function Nibble(length: nat): nat { if length < 15 then length else 15 }

  /** The bytes that follow the nibble 15: `length - 15` as a run of 255s and a remainder. */
  function LengthCode(length: nat): seq<byte>
  {
    if length < 15 then [] else Run(length - 15)
  }

  function Run(n: nat): seq<byte>
  {
    if n < 255 then [n] else [255] + Run(n - 255)
  }

  function Opening(low: nat, literals: seq<byte>): seq<byte>
    requires low < 16
  {
    [16 * Nibble(|literals|) + low] + LengthCode(|literals|) + literals
  }

  function Match(offset: nat, matchLength: nat): seq<byte>
    requires offset < 0x1_0000 && matchLength >= 4
  {
    [offset % 0x100, offset / 0x100] + LengthCode(matchLength - 4)
  }

  function Encode(b: Block, produced: nat): seq<byte>
    requires WellFormed(b, produced)
  {
    match b
    case End => []
    case Last(nibble, literals) => Opening(nibble, literals)
    case Copy(literals, offset, matchLength, rest) =>
      Opening(Nibble(matchLength - 4), literals) + Match(offset, matchLength)
      + Encode(rest, produced + |literals| + matchLength)
  }

  /** Byte after byte, each the one `offset` back; so an overlapping match repeats periodically. */
  function Repeat(s: seq<byte>, offset: nat, length: nat): (r: seq<byte>)
    requires 1 <= offset <= |s|
    ensures |r| == |s| + length && r == CopyMatch(s, offset, length)
  {
    if length == 0 then s else
    var r := Repeat(s, offset, length - 1);
    NextCopied(s, offset, length - 1);
    r + [r[|r| - offset]]
  }

  /** The data a block stands for, appended to `output`. */
  function Expand(b: Block, output: seq<byte>): seq<byte>
    requires WellFormed(b, |output|)
  {
    match b
    case End => output
    case Last(_, literals) => output + literals
    case Copy(literals, offset, matchLength, rest) =>
      Expand(rest, Repeat(output + literals, offset, matchLength))
  }

  // The length code is a bijection between lengths and their nibble and extension bytes.

  lemma {:induction false} RunDecodes(n: nat, input: seq<byte>, pos: nat, base: nat)
    requires pos + |Run(n)| <= |input| && input[pos..pos + |Run(n)|] == Run(n)
    ensures Extend(input, pos, base) == Some((base + n, pos + |Run(n)|))
  {
    assert input[pos] == Run(n)[0];
    if n >= 255 {
      assert input[pos + 1..pos + |Run(n)|] == Run(n - 255);
      RunDecodes(n - 255, input, pos + 1, base + 255);
    }
  }

  lemma LengthDecodes(length: nat, input: seq<byte>, pos: nat)
    requires pos + |LengthCode(length)| <= |input|
    requires input[pos..pos + |LengthCode(length)|] == LengthCode(length)
    ensures ReadLength(input, pos, Nibble(length)) == Some((length, pos + |LengthCode(length)|))
  {
    if length >= 15 {
      RunDecodes(length - 15, input, pos, 15);
    }
  }

  lemma {:induction false} DecodedRun(input: seq<byte>, pos: nat, base: nat)
    requires pos <= |input| && Extend(input, pos, base).Some?
    ensures var (length, next) := Extend(input, pos, base).value;
      base <= length && pos < next <= |input| && input[pos..next] == Run(length - base)
    decreases |input| - pos
  {
    var (length, next) := Extend(input, pos, base).value;
    if input[pos] == 255 {
      DecodedRun(input, pos + 1, base + 255);
      assert input[pos..next] == [255] + input[pos + 1..next];
    } else {
      assert input[pos..next] == [input[pos]];
    }
  }

  lemma DecodedLength(input: seq<byte>, pos: nat, base: nat)
    requires pos <= |input| && base <= 15 && ReadLength(input, pos, base).Some?
    ensures var (length, next) := ReadLength(input, pos, base).value;
      Nibble(length) == base && pos <= next <= |input| && input[pos..next] == LengthCode(length)
  {
    if base == 15 {
      DecodedRun(input, pos, 15);
    }
  }

  // Decoding an encoding gives its expansion.

  lemma {:induction false} ExpandGrows(b: Block, output: seq<byte>)
    requires WellFormed(b, |output|)
    ensures output <= Expand(b, output)
  {
    if b.Copy? {
      ExpandGrows(b.rest, CopyMatch(output + b.literals, b.offset, b.matchLength));
    }
  }

  lemma Pieces(a: seq<byte>, b: seq<byte>, c: seq<byte>)
    ensures var s := a + b + c;
      s[..|a|] == a && s[|a|..|a| + |b|] == b && s[|a| + |b|..] == c
  {
  }

  lemma LiteralsDecode(low: nat, literals: seq<byte>, input: seq<byte>, pos: nat)
    requires low < 16
    requires pos + |Opening(low, literals)| <= |input|
    requires input[pos..pos + |Opening(low, literals)|] == Opening(low, literals)
    ensures ReadLiterals(input, pos) == Some((literals, pos + |Opening(low, literals)|))
    ensures input[pos] % 16 == low
  {
    var opening, code := Opening(low, literals), LengthCode(|literals|);
    var s, start := input[pos..pos + |opening|], pos + 1 + |code|;
    Pieces([opening[0]], code, literals);
    assert opening == [opening[0]] + code + literals;
    assert input[pos] == s[0];
    SubSlice(input, pos, pos + |opening|, 1, 1 + |code|);
    LengthDecodes(|literals|, input, pos + 1);
    SubSlice(input, pos, pos + |opening|, 1 + |code|, |opening|);
  }

  lemma MatchDecodes(offset: nat, matchLength: nat, input: seq<byte>, pos: nat)
    requires 1 <= offset < 0x1_0000 && matchLength >= 4
    requires pos + |Match(offset, matchLength)| <= |input|
    requires input[pos..pos + |Match(offset, matchLength)|] == Match(offset, matchLength)
    ensures ReadMatch(input, pos, Nibble(matchLength - 4))
         == Some((offset, matchLength, pos + |Match(offset, matchLength)|))
  {
    var s, code := input[pos..pos + |Match(offset, matchLength)|], LengthCode(matchLength - 4);
    assert input[pos] == s[0] && input[pos + 1] == s[1];
    assert input[pos + 2..pos + 2 + |code|] == s[2..] == code;
    LengthDecodes(matchLength - 4, input, pos + 2);
  }

  lemma CopyTurn(literals: seq<byte>, offset: nat, matchLength: nat, tail: seq<byte>,
                 input: seq<byte>, pos: nat, output: seq<byte>)
    requires 1 <= offset <= |output| + |literals| && offset < 0x1_0000 && matchLength >= 4
    requires |output| + |literals| + matchLength <= MAX_SAVE_SIZE
    requires pos < |input|
    requires input[pos..] == Opening(Nibble(matchLength - 4), literals) + Match(offset, matchLength) + tail
    ensures |tail| < |input| - pos && input[|input| - |tail|..] == tail
    ensures DecodeTurn(input, pos, output)
         == Continue(|input| - |tail|, CopyMatch(output + literals, offset, matchLength))
  {
    var opening, m := Opening(Nibble(matchLength - 4), literals), Match(offset, matchLength);
    ThreePieces(input, pos, opening, m, tail);
    LiteralsDecode(Nibble(matchLength - 4), literals, input, pos);
    MatchDecodes(offset, matchLength, input, pos + |opening|);
  }

  lemma ThreePieces(input: seq<byte>, pos: nat, a: seq<byte>, b: seq<byte>, c: seq<byte>)
    requires pos <= |input| && input[pos..] == a + b + c
    ensures pos + |a| + |b| + |c| == |input|
    ensures input[pos..pos + |a|] == a && input[pos + |a|..pos + |a| + |b|] == b && input[pos + |a| + |b|..] == c
  {
    Pieces(a, b, c);
    var s := input[pos..];
    assert input[pos..pos + |a|] == s[..|a|] && input[pos + |a|..pos + |a| + |b|] == s[|a|..|a| + |b|];
    assert input[pos + |a| + |b|..] == s[|a| + |b|..];
  }

  lemma LastTurn(nibble: nat, literals: seq<byte>, input: seq<byte>, pos: nat, output: seq<byte>)
    requires nibble < 16 && |output| + |literals| <= MAX_SAVE_SIZE
    requires pos <= |input| && input[pos..] == Opening(nibble, literals)
    ensures pos < |input| && DecodeTurn(input, pos, output) == Finish(output + literals)
  {
    assert input[pos..pos + |Opening(nibble, literals)|] == input[pos..];
    LiteralsDecode(nibble, literals, input, pos);
  }

  /** The first turn on an encoded block leaves the rest of the block to decode. */
  lemma CopyBlock(b: Block, input: seq<byte>, pos: nat, output: seq<byte>) returns (next: nat, grown: seq<byte>)
    requires b.Copy? && WellFormed(b, |output|) && |Expand(b, output)| <= MAX_SAVE_SIZE
    requires pos <= |input| && input[pos..] == Encode(b, |output|)
    ensures pos < next <= |input| && WellFormed(b.rest, |grown|) && input[next..] == Encode(b.rest, |grown|)
    ensures DecodeTurn(input, pos, output) == Continue(next, grown) && Expand(b, output) == Expand(b.rest, grown)
  {
    grown := CopyMatch(output + b.literals, b.offset, b.matchLength);
    var tail := Encode(b.rest, |grown|);
    ExpandGrows(b.rest, grown);
    CopyTurn(b.literals, b.offset, b.matchLength, tail, input, pos, output);
    next := |input| - |tail|;
  }

  lemma {:induction false} EncodedDecodes(b: Block, input: seq<byte>, pos: nat, output: seq<byte>)
    requires WellFormed(b, |output|) && |Expand(b, output)| <= MAX_SAVE_SIZE
    requires pos <= |input| && input[pos..] == Encode(b, |output|)
    ensures DecodeFrom(input, pos, output) == Some(Expand(b, output))
    decreases b
  {
    match b
    case End =>
    case Last(nibble, literals) => LastTurn(nibble, literals, input, pos, output);
    case Copy(_, _, _, rest) =>
      var next, grown := CopyBlock(b, input, pos, output);
      EncodedDecodes(rest, input, next, grown);
  }

  lemma DecodedLiterals(input: seq<byte>, pos: nat)
    requires pos < |input| && ReadLiterals(input, pos).Some?
    ensures var (literals, end) := ReadLiterals(input, pos).value;
      input[pos..end] == Opening(input[pos] % 16, literals)
  {
    DecodedLength(input, pos + 1, input[pos] / 16);
    var (length, start) := ReadLength(input, pos + 1, input[pos] / 16).value;
    assert input[pos..start + length] == [input[pos]] + input[pos + 1..start] + input[start..start + length];
  }

  lemma DecodedMatch(input: seq<byte>, pos: nat, base: nat)
    requires pos <= |input| && base <= 15 && ReadMatch(input, pos, base).Some?
    ensures var (offset, matchLength, next) := ReadMatch(input, pos, base).value;
      offset < 0x1_0000 && matchLength >= 4 && base == Nibble(matchLength - 4)
      && input[pos..next] == Match(offset, matchLength)
  {
    DecodedLength(input, pos + 2, base);
    var (offset, matchLength, next) := ReadMatch(input, pos, base).value;
    assert input[pos..next] == [offset % 0x100, offset / 0x100] + input[pos + 2..next];
  }

  /** A turn that continues has read the opening and the match of one sequence. */
  lemma ContinuedTurn(input: seq<byte>, pos: nat, output: seq<byte>)
    returns (literals: seq<byte>, offset: nat, matchLength: nat)
    requires pos < |input| && DecodeTurn(input, pos, output).Continue?
    ensures 1 <= offset <= |output| + |literals| && offset < 0x1_0000 && matchLength >= 4
    ensures var turn := DecodeTurn(input, pos, output);
      && turn.output == CopyMatch(output + literals, offset, matchLength) && |turn.output| <= MAX_SAVE_SIZE
      && input[pos..turn.next] == Opening(Nibble(matchLength - 4), literals) + Match(offset, matchLength)
  {
    DecodedLiterals(input, pos);
    var (bytes, end) := ReadLiterals(input, pos).value;
    DecodedMatch(input, end, input[pos] % 16);
    var (back, length, next) := ReadMatch(input, end, input[pos] % 16).value;
    literals, offset, matchLength := bytes, back, length;
    assert input[pos..next] == input[pos..end] + input[end..next];
  }

  /** A turn that finishes has read an opening up to the end. */
  lemma FinishedTurn(input: seq<byte>, pos: nat, output: seq<byte>) returns (nibble: nat, literals: seq<byte>)
    requires pos < |input| && DecodeTurn(input, pos, output).Finish?
    ensures nibble < 16 && input[pos..] == Opening(nibble, literals)
    ensures DecodeTurn(input, pos, output).output == output + literals && |output + literals| <= MAX_SAVE_SIZE
  {
    DecodedLiterals(input, pos);
    nibble, literals := input[pos] % 16, ReadLiterals(input, pos).value.0;
    assert input[pos..] == input[pos..|input|];
  }

  /** One sequence and the block after it make a block. */
  lemma CopyOf(input: seq<byte>, pos: nat, output: seq<byte>, next: nat, grown: seq<byte>, literals: seq<byte>,
               offset: nat, matchLength: nat, rest: Block) returns (b: Block)
    requires pos <= next <= |input| && 1 <= offset <= |output| + |literals| && offset < 0x1_0000 && matchLength >= 4
    requires input[pos..next] == Opening(Nibble(matchLength - 4), literals) + Match(offset, matchLength)
    requires grown == CopyMatch(output + literals, offset, matchLength)
    requires WellFormed(rest, |grown|) && Encode(rest, |grown|) == input[next..]
    ensures WellFormed(b, |output|) && Encode(b, |output|) == input[pos..] && Expand(b, output) == Expand(rest, grown)
  {
    Copied(output + literals, offset, matchLength, grown);
    b := Copy(literals, offset, matchLength, rest);
    assert input[pos..] == input[pos..next] + input[next..];
  }

  /** From `pos` on the input is the encoding of `b`, and decodes to its expansion. */
  ghost predicate Decodes(b: Block, input: seq<byte>, pos: nat, output: seq<byte>)
    requires pos <= |input|
  {
    && WellFormed(b, |output|) && Encode(b, |output|) == input[pos..]
    && DecodeFrom(input, pos, output) == Some(Expand(b, output)) && |Expand(b, output)| <= MAX_SAVE_SIZE
  }

  lemma FinishedBlock(input: seq<byte>, pos: nat, output: seq<byte>) returns (b: Block)
    requires pos < |input| && DecodeTurn(input, pos, output).Finish?
    ensures Decodes(b, input, pos, output)
  {
    var nibble, literals := FinishedTurn(input, pos, output);
    b := Last(nibble, literals);
  }

  lemma Continues(input: seq<byte>, pos: nat, output: seq<byte>)
    requires pos < |input| && DecodeTurn(input, pos, output).Continue?
    ensures var turn := DecodeTurn(input, pos, output);
      DecodeFrom(input, pos, output) == DecodeFrom(input, turn.next, turn.output)
  {
  }

  /** A sequence before a block that decodes makes one that does. */
  lemma ContinuedBlock(input: seq<byte>, pos: nat, output: seq<byte>, next: nat, grown: seq<byte>, literals: seq<byte>,
                       offset: nat, matchLength: nat, rest: Block) returns (b: Block)
    requires pos <= next <= |input| && 1 <= offset <= |output| + |literals| && offset < 0x1_0000 && matchLength >= 4
    requires input[pos..next] == Opening(Nibble(matchLength - 4), literals) + Match(offset, matchLength)
    requires grown == CopyMatch(output + literals, offset, matchLength) && Decodes(rest, input, next, grown)
    requires DecodeFrom(input, pos, output) == DecodeFrom(input, next, grown)
    ensures Decodes(b, input, pos, output)
  {
    b := CopyOf(input, pos, output, next, grown, literals, offset, matchLength, rest);
    Decoded(b, rest, input, pos, output, next, grown);
  }

  lemma Copied(s: seq<byte>, offset: nat, length: nat, grown: seq<byte>)
    requires 1 <= offset <= |s| && grown == CopyMatch(s, offset, length)
    ensures |grown| == |s| + length
  {
  }

  lemma Decoded(b: Block, rest: Block, input: seq<byte>, pos: nat, output: seq<byte>, next: nat, grown: seq<byte>)
    requires pos <= |input| && next <= |input| && Decodes(rest, input, next, grown)
    requires WellFormed(b, |output|) && Encode(b, |output|) == input[pos..]
    requires DecodeFrom(input, pos, output) == DecodeFrom(input, next, grown)
    requires Expand(b, output) == Expand(rest, grown)
    ensures Decodes(b, input, pos, output)
  {
  }

  /** Every accepted input is the encoding of a well-formed block, and decodes to its expansion. */
  lemma {:induction false} DecodedIsEncoding(input: seq<byte>, pos: nat, output: seq<byte>) returns (b: Block)
    requires pos <= |input| && |output| <= MAX_SAVE_SIZE && DecodeFrom(input, pos, output).Some?
    ensures Decodes(b, input, pos, output)
    decreases |input| - pos
  {
    if pos == |input| {
      return End;
    }
    match DecodeTurn(input, pos, output)
    case Finish(_) => b := FinishedBlock(input, pos, output);
    case Continue(next, grown) =>
      var literals, offset, matchLength := ContinuedTurn(input, pos, output);
      var rest := DecodedIsEncoding(input, next, grown);
      Continues(input, pos, output);
      b := ContinuedBlock(input, pos, output, next, grown, literals, offset, matchLength, rest);
  }

  ghost predicate Encodes(b: Block, input: seq<byte>, output: seq<byte>)
  {
    && WellFormed(b, 0)
    && Encode(b, 0) == input
    && Expand(b, []) == output
  }

  /**
   * The decoder accepts exactly the encodings of well-formed blocks within the size limits, and
   * returns what the block stands for.
   */
  lemma DecoderCorrect(input: seq<byte>, output: seq<byte>)
    ensures DecodeRaw(input) == Some(output) <==>
      && 0 < |input| <= 33_554_432
      && |output| <= 33_554_432
      && exists b :: Encodes(b, input, output)
  {
    if DecodeRaw(input) == Some(output) {
      var b := DecodedIsEncoding(input, 0, []);
      assert input[0..] == input;
      assert Encodes(b, input, output);
    }
    if 0 < |input| <= MAX_SAVE_SIZE && |output| <= MAX_SAVE_SIZE && exists b :: Encodes(b, input, output) {
      var b :| Encodes(b, input, output);
      assert input[0..] == input;
      EncodedDecodes(b, input, 0, []);
    }
  }

  // Resource bounds.

  lemma TurnAmplification(input: seq<byte>, pos: nat, output: seq<byte>)
    requires pos < |input|
    ensures match DecodeTurn(input, pos, output)
      case Reject => true
      case Finish(r) => |r| <= MAX_SAVE_SIZE && |r| <= |output| + 255 * (|input| - pos)
      case Continue(next, r) => |r| <= MAX_SAVE_SIZE && |r| <= |output| + 255 * (next - pos)
  {
    if DecodeTurn(input, pos, output).Continue? {
      var (literals, end) := ReadLiterals(input, pos).value;
      ExtendAdvances(input, end + 2, 15);
    }
  }

  lemma {:induction false} Amplification(input: seq<byte>, pos: nat, output: seq<byte>)
    requires pos <= |input| && |output| <= MAX_SAVE_SIZE && DecodeFrom(input, pos, output).Some?
    ensures var r := DecodeFrom(input, pos, output).value;
      |r| <= MAX_SAVE_SIZE && |r| <= |output| + 255 * (|input| - pos)
    decreases |input| - pos
  {
    if pos < |input| {
      TurnAmplification(input, pos, output);
      match DecodeTurn(input, pos, output)
      case Finish(_) =>
      case Continue(next, grown) => Amplification(input, next, grown);
    }
  }

  /** No input, however crafted, expands beyond 32 MiB or beyond 255 times its own length. */
  lemma DecodedSizeIsBounded(input: seq<byte>)
    requires DecodeRaw(input).Some?
    ensures |DecodeRaw(input).value| <= 33_554_432
    ensures |DecodeRaw(input).value| <= 255 * |input|
  {
    Amplification(input, 0, []);
  }
}
