// lzokay's compressor (external/lzokay/lzokay.cpp), for any match finder that returns true matches.
// The two low bits of an already written byte are patched once the literals that follow are known.
module LzoEncoder {
  import opened Bytes
  import opened LzoFormat

  // What the match finder reports at a position: its longest match, and for each length
  // below 34 an offset with a match of exactly that length, or 0.
  datatype Advice = Advice(length: nat, offset: nat, best: seq<nat>)

  predicate TrueMatch(src: seq<byte>, pos: nat, length: nat, offset: nat) {
    && 1 <= offset <= pos
    && offset <= M4_MAX_OFFSET
    && length <= MAX_MATCH_LEN
    && pos + length <= |src|
    && forall j :: pos <= j < pos + length ==> src[j] == src[j - offset]
  }

  // A length below 2 means no match; best is read only beside a match.
  predicate TrueAdvice(src: seq<byte>, pos: nat, a: Advice) {
    a.length >= 2 ==>
      && TrueMatch(src, pos, a.length, a.offset)
      && |a.best| == MAX_MATCH_BY_LENGTH_LEN
      && forall k :: 2 <= k < MAX_MATCH_BY_LENGTH_LEN && a.best[k] != 0 ==> TrueMatch(src, pos, k, a.best[k])
  }

  // A match finder: one answer per position.
  ghost predicate TrueFinder(src: seq<byte>, finder: seq<Advice>) {
    |finder| == |src| && forall p :: 0 <= p < |src| ==> TrueAdvice(src, p, finder[p])
  }

  // The gate of the main loop: a match this cheap or this far costs more than it saves,
  // or cannot be written at this place.
  predicate Gated(a: Advice, litLen: nat, first: bool) {
    || a.length < 2
    || (a.length == 2 && (a.offset > M1_MAX_OFFSET || litLen == 0 || litLen >= 4))
    || (a.length == 2 && first)
    || (first && litLen == 0)
    || (a.length == M2_MIN_LEN && a.offset > M1_MAX_OFFSET + M2_MAX_OFFSET && litLen >= 4)
  }

  datatype Choice = Choice(length: nat, offset: nat)

  // find_better_match: a shorter match that its nearer offset makes cheaper.
  function BetterMatch(a: Advice): (r: Choice)
    requires a.length >= 2 && |a.best| == MAX_MATCH_BY_LENGTH_LEN
    ensures r == Choice(a.length, a.offset) ||
            (3 <= r.length < a.length && a.length - 2 <= r.length < MAX_MATCH_BY_LENGTH_LEN
             && r.offset == a.best[r.length] != 0)
  {
    var n, off := a.length, a.offset;
    if n <= M2_MIN_LEN || off <= M2_MAX_OFFSET then Choice(n, off)
    else if off > M2_MAX_OFFSET && n >= M2_MIN_LEN + 1 && n <= M2_MAX_LEN + 1
            && a.best[n - 1] != 0 && a.best[n - 1] <= M2_MAX_OFFSET then
      Choice(n - 1, a.best[n - 1])
    else if off > M3_MAX_OFFSET && n >= M4_MAX_LEN + 1 && n <= M2_MAX_LEN + 2
            && a.best[n - 2] != 0 && a.best[n] <= M2_MAX_OFFSET then
      Choice(n - 2, a.best[n - 2])
    else if off > M3_MAX_OFFSET && n >= M4_MAX_LEN + 1 && n <= M3_MAX_LEN + 1
            && a.best[n - 1] != 0 && a.best[n - 2] <= M3_MAX_OFFSET then
      Choice(n - 1, a.best[n - 1])
    else Choice(n, off)
  }

  // The header of a literal run that does not open the stream and is longer than 3.
  function RunHeader(litLen: nat): seq<byte>
    requires litLen > 3
  {
    if litLen <= 18 then [litLen - 3] else [0] + LengthField(litLen - 18)
  }

  // Where the two low bits of the last instruction stand.
  function Patch(out: seq<byte>, literals: nat): (r: seq<byte>)
    requires |out| >= 2 && literals <= 3
    ensures |r| == |out|
  {
    out[|out| - 2 := OrTwoBits(out[|out| - 2], literals)]
  }

  // encode_literal_run
  function LiteralRun(out: seq<byte>, lits: seq<byte>): (r: seq<byte>)
    requires out == [] || |out| >= 2
    ensures |r| >= |out| + |lits|
  {
    if out == [] && |lits| <= 238 then [17 + |lits|] + lits
    else if |lits| <= 3 then Patch(out, |lits|) + lits
    else out + RunHeader(|lits|) + lits
  }

  // Two bytes of an M3 or M4 offset, low bits first, and room for the literal count.
  function OffsetField(v: nat): (r: seq<byte>)
    ensures |r| == 2
  {
    [v * 4 % 256, v / 64 % 256]
  }

  function LengthHeader(marker: nat, shortMax: nat, length: nat): seq<byte>
    requires 2 <= length && 2 <= shortMax
    requires marker + shortMax - 2 < 256
  {
    if length <= shortMax then [marker + length - 2] else [marker] + LengthField(length - shortMax)
  }

  // encode_lookback_match, the literal count still 0.
  function MatchBytes(length: nat, offset: nat, lastLitLen: nat): (r: seq<byte>)
    requires length >= 2 && offset >= 1
    ensures |r| >= 2
  {
    if length == 2 then
      [M1_MARKER + (offset - 1) % 4 * 4, (offset - 1) / 4 % 256]
    else if length <= M2_MAX_LEN && offset <= M2_MAX_OFFSET then
      [(length - 1) * 32 + (offset - 1) % 8 * 4, (offset - 1) / 8]
    else if length == M2_MIN_LEN && offset <= M1_MAX_OFFSET + M2_MAX_OFFSET && lastLitLen >= 4 then
      var v := offset - 1 - M2_MAX_OFFSET;
      [M1_MARKER + v % 4 * 4, v / 4]
    else if offset <= M3_MAX_OFFSET then
      LengthHeader(M3_MARKER, M3_MAX_LEN, length) + OffsetField(offset - 1)
    else
      var v := offset - 0x4000;
      LengthHeader(M4_MARKER + v / 0x4000 % 2 * 8, M4_MAX_LEN, length) + OffsetField(v)
  }

  // The main loop's variables: the position, the pending literals, and what is written.
  datatype Progress = Progress(pos: nat, litPtr: nat, litLen: nat, out: seq<byte>)

  ghost predicate InRange(src: seq<byte>, e: Progress) {
    && e.litPtr + e.litLen <= e.pos <= |src|
    && (e.out == [] || |e.out| >= 2)
  }

  // One turn of the main loop.
  ghost function Turn(src: seq<byte>, finder: seq<Advice>, e: Progress): (r: Progress)
    requires TrueFinder(src, finder) && InRange(src, e) && e.pos < |src|
    ensures InRange(src, r) && r.pos > e.pos && |r.out| >= |e.out|
  {
    var from := if e.litLen == 0 then e.pos else e.litPtr;
    assert TrueAdvice(src, e.pos, finder[e.pos]);
    if Gated(finder[e.pos], e.litLen, e.out == []) then
      Progress(e.pos + 1, from, (e.litLen + 1) % UINT32_RANGE, e.out)
    else
      var m := BetterMatch(finder[e.pos]);
      Progress(e.pos + m.length, from, 0,
               LiteralRun(e.out, src[from..from + e.litLen]) + MatchBytes(m.length, m.offset, e.litLen))
  }

  // What a turn that writes a match leaves.
  lemma MatchTurn(src: seq<byte>, finder: seq<Advice>, e: Progress, from: nat, m: Choice)
    requires TrueFinder(src, finder) && InRange(src, e) && e.pos < |src|
    requires !Gated(finder[e.pos], e.litLen, e.out == [])
    requires from == if e.litLen == 0 then e.pos else e.litPtr
    requires m.length >= 2 && m.offset >= 1
    requires |finder[e.pos].best| == MAX_MATCH_BY_LENGTH_LEN && m == BetterMatch(finder[e.pos])
    ensures Turn(src, finder, e) ==
            Progress(e.pos + m.length, from, 0,
                     LiteralRun(e.out, src[from..from + e.litLen]) + MatchBytes(m.length, m.offset, e.litLen))
  {
    hide LiteralRun, MatchBytes, BetterMatch;
    assert TrueAdvice(src, e.pos, finder[e.pos]);
  }

  ghost function CompressFrom(src: seq<byte>, finder: seq<Advice>, e: Progress): (r: seq<byte>)
    requires TrueFinder(src, finder) && InRange(src, e)
    ensures |r| > |e.out|
    decreases |src| - e.pos
  {
    if e.pos == |src| then LiteralRun(e.out, src[e.litPtr..e.litPtr + e.litLen]) + TERMINATOR
    else CompressFrom(src, finder, Turn(src, finder, e))
  }

  lemma {:induction false} CompressOn(src: seq<byte>, finder: seq<Advice>, e: Progress)
    requires TrueFinder(src, finder) && InRange(src, e)
    ensures if e.pos < |src| then CompressFrom(src, finder, e) == CompressFrom(src, finder, Turn(src, finder, e))
            else CompressFrom(src, finder, e) == LiteralRun(e.out, src[e.litPtr..e.litPtr + e.litLen]) + TERMINATOR
  {
    hide Turn, LiteralRun;
  }

  // A turn that goes on with its literals.
  lemma LiteralTurn(src: seq<byte>, finder: seq<Advice>, e: Progress)
    requires TrueFinder(src, finder) && InRange(src, e) && e.pos < |src|
    requires Gated(finder[e.pos], e.litLen, e.out == [])
    ensures Turn(src, finder, e) ==
            Progress(e.pos + 1, if e.litLen == 0 then e.pos else e.litPtr, (e.litLen + 1) % UINT32_RANGE, e.out)
  {
    hide LiteralRun, MatchBytes, BetterMatch;
  }

  // The whole output of compress.
  ghost function Compressed(src: seq<byte>, finder: seq<Advice>): seq<byte>
    requires TrueFinder(src, finder)
  {
    CompressFrom(src, finder, Progress(0, 0, 0, []))
  }

  // *outp++ = b
  method Put(dst: array<byte>, outp: nat, b: byte)
    requires outp < dst.Length
    modifies dst
    ensures dst[..outp + 1] == old(dst[..outp]) + [b]
  {
    dst[outp] := b;
  }

  method PutLengthField(dst: array<byte>, at: nat, length: nat) returns (outp: nat)
    requires length >= 1
    requires at + |LengthField(length)| <= dst.Length
    modifies dst
    ensures outp == at + |LengthField(length)|
    ensures dst[..outp] == old(dst[..at]) + LengthField(length)
  {
    outp := at;
    var l := length;
    while l > 255
      invariant 1 <= l <= length && at <= outp
      invariant outp + |LengthField(l)| == at + |LengthField(length)|
      invariant dst[..outp] + LengthField(l) == old(dst[..at]) + LengthField(length)
    {
      assert dst[..outp] + [0] + LengthField(l - 255) == dst[..outp] + LengthField(l);
      Put(dst, outp, 0);
      outp := outp + 1;
      l := l - 255;
    }
    Put(dst, outp, l);
    outp := outp + 1;
  }

  method CopyIn(dst: array<byte>, at: nat, bytes: seq<byte>) returns (outp: nat)
    requires at + |bytes| <= dst.Length
    modifies dst
    ensures outp == at + |bytes|
    ensures dst[..outp] == old(dst[..at]) + bytes
  {
    for i := 0 to |bytes|
      invariant dst[..at + i] == old(dst[..at]) + bytes[..i]
    {
      Put(dst, at + i, bytes[i]);
    }
    outp := at + |bytes|;
    assert bytes[..|bytes|] == bytes;
  }

  // An instruction byte and the length field behind it.
  method PutLongLength(dst: array<byte>, at: nat, marker: byte, length: nat) returns (outp: nat)
    requires length >= 1 && at + 1 + |LengthField(length)| <= dst.Length
    modifies dst
    ensures outp == at + 1 + |LengthField(length)|
    ensures dst[..outp] == old(dst[..at]) + ([marker] + LengthField(length))
  {
    hide LengthField;
    ghost var was := dst[..at];
    Put(dst, at, marker);
    outp := PutLengthField(dst, at + 1, length);
    assert was + [marker] + LengthField(length) == was + ([marker] + LengthField(length));
  }

  // The header of a run longer than 3 that does not open the stream.
  method EncodeRunHeader(dst: array<byte>, at: nat, litLen: nat) returns (code: EResult, outp: nat)
    requires at <= dst.Length && litLen > 3
    modifies dst
    ensures outp <= dst.Length
    ensures code == Success ==> dst[..outp] == old(dst[..at]) + RunHeader(litLen)
    ensures code != Success ==> code == OutputOverrun && at + |RunHeader(litLen)| + litLen > dst.Length
  {
    hide LengthField;
    if litLen <= 18 {
      if at + 1 > dst.Length { return OutputOverrun, at; }
      Put(dst, at, litLen - 3);
      outp := at + 1;
    } else {
      if at + (litLen - 18) / 255 + 2 > dst.Length { return OutputOverrun, at; }
      outp := PutLongLength(dst, at, 0, litLen - 18);
    }
    return Success, outp;
  }

  method EncodeLiteralRun(dst: array<byte>, at: nat, lits: seq<byte>) returns (code: EResult, outp: nat)
    requires at <= dst.Length && (at == 0 || at >= 2)
    modifies dst
    ensures outp <= dst.Length
    ensures code == if |LiteralRun(old(dst[..at]), lits)| <= dst.Length then Success else OutputOverrun
    ensures code == Success ==> dst[..outp] == LiteralRun(old(dst[..at]), lits)
  {
    hide RunHeader, OrTwoBits;
    ghost var was := dst[..at];
    if at == 0 && |lits| <= 238 {
      if 1 > dst.Length { return OutputOverrun, at; }
      Put(dst, at, 17 + |lits|);
      outp := at + 1;
      assert dst[..outp] == [17 + |lits|];
    } else if |lits| <= 3 {
      outp := at;
      dst[outp - 2] := OrTwoBits(dst[outp - 2], |lits|);
      assert dst[..outp] == Patch(was, |lits|);
    } else {
      code, outp := EncodeRunHeader(dst, at, |lits|);
      if code != Success { return; }
      assert dst[..outp] == was + RunHeader(|lits|);
    }
    if outp + |lits| > dst.Length { return OutputOverrun, outp; }
    outp := CopyIn(dst, outp, lits);
    code := Success;
  }

  // A match that fits in two bytes.
  predicate ShortForm(length: nat, offset: nat, lastLitLen: nat) {
    || length == 2
    || (length <= M2_MAX_LEN && offset <= M2_MAX_OFFSET)
    || (length == M2_MIN_LEN && offset <= M1_MAX_OFFSET + M2_MAX_OFFSET && lastLitLen >= 4)
  }

  method EncodeLengthHeader(dst: array<byte>, at: nat, length: nat, marker: byte, shortMax: nat)
    returns (code: EResult, outp: nat)
    requires at <= dst.Length && 2 <= length && 2 <= shortMax && marker + shortMax - 2 < 256
    modifies dst
    ensures outp <= dst.Length
    ensures code == Success ==> dst[..outp] == old(dst[..at]) + LengthHeader(marker, shortMax, length)
    ensures code != Success ==>
      code == OutputOverrun && at + |LengthHeader(marker, shortMax, length)| + 2 > dst.Length
  {
    hide LengthField;
    if length <= shortMax {
      if at + 1 > dst.Length { return OutputOverrun, at; }
      Put(dst, at, marker + length - 2);
      outp := at + 1;
    } else {
      if at + (length - shortMax) / 255 + 2 > dst.Length { return OutputOverrun, at; }
      outp := PutLongLength(dst, at, marker, length - shortMax);
    }
    code := Success;
  }

  method EncodeFarMatch(dst: array<byte>, at: nat, length: nat, marker: byte, shortMax: nat, v: nat)
    returns (code: EResult, outp: nat)
    requires at <= dst.Length && 2 <= length && 2 <= shortMax && marker + shortMax - 2 < 256
    modifies dst
    ensures outp <= dst.Length
    ensures code == if at + |LengthHeader(marker, shortMax, length)| + 2 <= dst.Length then Success else OutputOverrun
    ensures code == Success ==>
      dst[..outp] == old(dst[..at]) + LengthHeader(marker, shortMax, length) + OffsetField(v)
  {
    hide LengthHeader;
    code, outp := EncodeLengthHeader(dst, at, length, marker, shortMax);
    if code != Success { return; }
    if outp + 2 > dst.Length { return OutputOverrun, outp; }
    Put(dst, outp, v * 4 % 256);
    Put(dst, outp + 1, v / 64 % 256);
    return Success, outp + 2;
  }

  method EncodeNearMatch(dst: array<byte>, at: nat, length: nat, offset: nat, lastLitLen: nat)
    returns (code: EResult, outp: nat)
    requires at <= dst.Length && length >= 2 && offset >= 1 && ShortForm(length, offset, lastLitLen)
    modifies dst
    ensures outp <= dst.Length
    ensures code == if at + |MatchBytes(length, offset, lastLitLen)| <= dst.Length then Success else OutputOverrun
    ensures code == Success ==> dst[..outp] == old(dst[..at]) + MatchBytes(length, offset, lastLitLen)
  {
    if at + 2 > dst.Length { return OutputOverrun, at; }
    ghost var was := dst[..at];
    var v: nat := offset - 1;
    var b0: byte, b1: byte;
    if length == 2 {
      b0, b1 := M1_MARKER + v % 4 * 4, v / 4 % 256;
    } else if length <= M2_MAX_LEN && offset <= M2_MAX_OFFSET {
      b0, b1 := (length - 1) * 32 + v % 8 * 4, v / 8;
    } else {
      v := v - M2_MAX_OFFSET;
      b0, b1 := M1_MARKER + v % 4 * 4, v / 4;
    }
    assert [b0, b1] == MatchBytes(length, offset, lastLitLen);
    hide MatchBytes;
    Put(dst, at, b0);
    Put(dst, at + 1, b1);
    assert dst[..at + 2] == was + [b0, b1];
    return Success, at + 2;
  }

  method EncodeLookbackMatch(dst: array<byte>, at: nat, length: nat, offset: nat, lastLitLen: nat)
    returns (code: EResult, outp: nat)
    requires at <= dst.Length && length >= 2 && offset >= 1
    modifies dst
    ensures outp <= dst.Length
    ensures code == if at + |MatchBytes(length, offset, lastLitLen)| <= dst.Length then Success else OutputOverrun
    ensures code == Success ==> dst[..outp] == old(dst[..at]) + MatchBytes(length, offset, lastLitLen)
  {
    hide LengthHeader, OffsetField;
    if ShortForm(length, offset, lastLitLen) {
      code, outp := EncodeNearMatch(dst, at, length, offset, lastLitLen);
    } else {
      var v, marker, shortMax := offset - 1, M3_MARKER, M3_MAX_LEN;
      if offset > M3_MAX_OFFSET {
        v := offset - 0x4000;
        marker, shortMax := M4_MARKER + v / 0x4000 % 2 * 8, M4_MAX_LEN;
      }
      assert MatchBytes(length, offset, lastLitLen) == LengthHeader(marker, shortMax, length) + OffsetField(v);
      hide MatchBytes;
      code, outp := EncodeFarMatch(dst, at, length, marker, shortMax, v);
    }
  }

  // A literal run and the match that follows it.
  method EncodePair(dst: array<byte>, at: nat, lits: seq<byte>, length: nat, offset: nat)
    returns (code: EResult, outp: nat)
    requires at <= dst.Length && (at == 0 || at >= 2) && length >= 2 && offset >= 1
    modifies dst
    ensures outp <= dst.Length
    ensures var written := LiteralRun(old(dst[..at]), lits) + MatchBytes(length, offset, |lits|);
            && code == (if |written| <= dst.Length then Success else OutputOverrun)
            && (code == Success ==> dst[..outp] == written)
  {
    code, outp := EncodeLiteralRun(dst, at, lits);
    if code != Success { return; }
    code, outp := EncodeLookbackMatch(dst, outp, length, offset, |lits|);
  }

  // What stands behind the loop: the last literals and the end mark.
  method EncodeEnd(dst: array<byte>, at: nat, lits: seq<byte>) returns (code: EResult, outp: nat)
    requires at <= dst.Length && (at == 0 || at >= 2)
    modifies dst
    ensures outp <= dst.Length
    ensures var written := LiteralRun(old(dst[..at]), lits) + TERMINATOR;
            && code == (if |written| <= dst.Length then Success else OutputOverrun)
            && (code == Success ==> dst[..outp] == written)
  {
    hide LiteralRun;
    code, outp := EncodeLiteralRun(dst, at, lits);
    if code != Success { return; }
    if outp + 3 > dst.Length { return OutputOverrun, outp; }
    outp := CopyIn(dst, outp, TERMINATOR);
  }

  // compress over a caller's buffer: what is written, and whether the buffer is long enough for it.
  method Compress(src: seq<byte>, finder: seq<Advice>, dst: array<byte>) returns (code: EResult, size: nat)
    requires TrueFinder(src, finder)
    modifies dst
    ensures size <= dst.Length
    ensures code == if |Compressed(src, finder)| <= dst.Length then Success else OutputOverrun
    ensures code == Success ==> dst[..size] == Compressed(src, finder)
  {
    hide LiteralRun, MatchBytes, BetterMatch, CompressFrom, Turn;
    var pos: nat, outp: nat, litPtr: nat, litLen: nat := 0, 0, 0, 0;
    assert dst[..outp] == [];
    while pos < |src|
      invariant outp <= dst.Length && InRange(src, Progress(pos, litPtr, litLen, dst[..outp]))
      invariant CompressFrom(src, finder, Progress(pos, litPtr, litLen, dst[..outp])) == Compressed(src, finder)
      decreases |src| - pos
    {
      ghost var before := Progress(pos, litPtr, litLen, dst[..outp]);
      ghost var turn := Turn(src, finder, before);
      CompressOn(src, finder, before);
      if litLen == 0 { litPtr := pos; }
      assert TrueAdvice(src, pos, finder[pos]);
      assert (outp == 0) == (dst[..outp] == []);
      if Gated(finder[pos], litLen, outp == 0) {
        LiteralTurn(src, finder, before);
        litLen := (litLen + 1) % UINT32_RANGE;
        pos := pos + 1;
        assert Progress(pos, litPtr, litLen, dst[..outp]) == turn;
      } else {
        var m := BetterMatch(finder[pos]);
        MatchTurn(src, finder, before, litPtr, m);
        code, outp := EncodePair(dst, outp, src[litPtr..litPtr + litLen], m.length, m.offset);
        if code != Success { return code, outp; }
        litLen, pos := 0, pos + m.length;
        assert Progress(pos, litPtr, litLen, dst[..outp]) == turn;
      }
    }
    CompressOn(src, finder, Progress(pos, litPtr, litLen, dst[..outp]));
    code, size := EncodeEnd(dst, outp, src[litPtr..litPtr + litLen]);
  }
}
