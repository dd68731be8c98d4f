// Decompressing what the compressor wrote gives the source back, whatever true matches the finder
// reported, as long as its runs of literals are short; and the output never outgrows
// compress_worst_size.
module LzoRoundTrip {
  import opened Bytes
  import opened LzoFormat
  import opened LzoDecoder
  import opened LzoEncoder

  // The decoder's state after an instruction that copied `literals` literals.
  function StateOf(literals: nat): nat {
    if literals >= 4 then 4 else literals
  }

  // A match the gate lets through after `lastLitLen` literals.
  predicate Writable(length: nat, offset: nat, lastLitLen: nat) {
    && 2 <= length <= MAX_MATCH_LEN
    && 1 <= offset <= M4_MAX_OFFSET
    && (length == 2 ==> offset <= M1_MAX_OFFSET && 1 <= lastLitLen <= 3)
  }

  lemma OffsetArithmetic(v: nat)
    ensures v * 4 % 256 == v % 64 * 4
    ensures v % 0x4000 == v % 64 + v / 64 % 256 * 64
  {
    var a, r := v / 64, v % 64;
    assert v * 4 == 256 * a + r * 4;
    FourteenBits(v);
  }

  lemma FourteenBits(v: nat)
    ensures v % 0x4000 == v % 64 + v / 64 % 256 * 64
  {
    var a, r := v / 64, v % 64;
    var b, c := a / 256, a % 256;
    assert v == 0x4000 * b + (64 * c + r);
  }

  // The bits the patch writes to are free in every match.
  lemma LowBitsFree(length: nat, offset: nat, lastLitLen: nat)
    requires Writable(length, offset, lastLitLen)
    ensures var m := MatchBytes(length, offset, lastLitLen); m[|m| - 2] % 4 == 0
  {
    hide LengthHeader;
    if !ShortForm(length, offset, lastLitLen) {
      var v := if offset <= M3_MAX_OFFSET then offset - 1 else offset - 0x4000;
      OffsetArithmetic(v);
      var m := MatchBytes(length, offset, lastLitLen);
      assert m[|m| - 2] == OffsetField(v)[0];
    }
  }

  lemma OrZero(x: byte)
    requires x % 4 == 0
    ensures OrTwoBits(x, 0) == x
  {
  }

  // Finding the parts of a written prefix.
  lemma PrefixParts(f: seq<byte>, a: seq<byte>, b: seq<byte>)
    requires |a + b| <= |f| && f[..|a + b|] == a + b
    ensures f[..|a|] == a && At(f, |a|, b)
  {
    forall i | 0 <= i < |b| ensures f[|a| + i] == b[i] {
      assert f[..|a + b|][|a| + i] == (a + b)[|a| + i];
    }
    assert f[..|a|] == f[..|a + b|][..|a|];
  }

  // Reading back each form of a match, its literal count patched to s.

  lemma M2Arithmetic(length: nat, d: nat, s: nat)
    requires 3 <= length <= M2_MAX_LEN && d < 8 && s <= 3
    ensures var inst := (length - 1) * 32 + d * 4 + s;
            64 <= inst < 256 && inst / 4 % 8 == d && inst % 4 == s && inst / 32 == length - 1
  {
    var inst := (length - 1) * 32 + d * 4 + s;
    assert inst / 4 == (length - 1) * 8 + d;
  }

  // A two-byte match with first byte b0 + s.
  lemma ReadPair(f: seq<byte>, p: nat, m: seq<byte>, s: nat)
    requires |m| == 2 && m[0] % 4 == 0 && s <= 3 && At(f, p, Patch(m, s))
    ensures p + 2 <= |f| && f[p] as int == m[0] as int + s && f[p + 1] == m[1]
  {
    assert f[p] == Patch(m, s)[0] && f[p + 1] == Patch(m, s)[1];
  }

  lemma ReadNear(f: seq<byte>, p: nat, length: nat, offset: nat, lastLitLen: nat, s: nat)
    requires Writable(length, offset, lastLitLen) && ShortForm(length, offset, lastLitLen) && s <= 3
    requires At(f, p, Patch(MatchBytes(length, offset, lastLitLen), s))
    ensures ReadInst(f, p, StateOf(lastLitLen)) == Match(offset, length, s, p + 2)
  {
    var m := MatchBytes(length, offset, lastLitLen);
    LowBitsFree(length, offset, lastLitLen);
    ReadPair(f, p, m, s);
    hide OrTwoBits, At, Patch;
    if 2 < length && length <= M2_MAX_LEN && offset <= M2_MAX_OFFSET {
      M2Arithmetic(length, (offset - 1) % 8, s);
    } else {
      var v := if length == 2 then offset - 1 else offset - 1 - M2_MAX_OFFSET;
      assert f[p] as int == v % 4 * 4 + s && f[p + 1] as int == v / 4;
    }
  }

  // The length and the first byte of an M3 or M4 header.
  lemma ReadHeader(f: seq<byte>, p: nat, marker: byte, shortMax: nat, length: nat)
    requires 2 <= length <= MAX_MATCH_LEN && 2 <= shortMax && marker + shortMax - 2 < 256
    requires At(f, p, LengthHeader(marker, shortMax, length))
    ensures p < |f|
    ensures length <= shortMax ==> f[p] as int == marker + length - 2
    ensures length > shortMax ==>
      && f[p] == marker
      && ReadLong(f, p + 1, shortMax) == Long(length, p + |LengthHeader(marker, shortMax, length)|)
  {
    var header := LengthHeader(marker, shortMax, length);
    assert f[p] == header[0];
    if length > shortMax {
      assert header == [marker] + LengthField(length - shortMax);
      AtParts(f, p, [marker], LengthField(length - shortMax));
      ReadLengthField(f, p + 1, length - shortMax);
    }
  }

  // The two offset bytes, patched: the offset and the literal count.
  lemma ReadOffset(f: seq<byte>, p: nat, v: nat, s: nat)
    requires s <= 3 && At(f, p, Patch(OffsetField(v), s))
    ensures p + 2 <= |f| && Le16(f, p) / 4 == v % 0x4000 && Le16(f, p) % 4 == s
  {
    var b := OffsetField(v);
    OffsetArithmetic(v);
    assert f[p] == Patch(b, s)[0] == OrTwoBits(b[0], s) && f[p + 1] == Patch(b, s)[1] == b[1];
    var low, high := v % 64, v / 64 % 256;
    assert b[0] as int == low * 4 && b[1] as int == high;
    assert f[p] as int == low * 4 + s;
    hide OrTwoBits, OffsetField, Patch;
    assert Le16(f, p) == 4 * (low + 64 * high) + s;
  }

  lemma ReadM3(f: seq<byte>, p: nat, length: nat, v: nat, s: nat, state: nat)
    requires 3 <= length <= MAX_MATCH_LEN && v < 0x4000 && s <= 3
    requires At(f, p, LengthHeader(M3_MARKER, M3_MAX_LEN, length) + Patch(OffsetField(v), s))
    ensures ReadInst(f, p, state) ==
            Match(v + 1, length, s, p + |LengthHeader(M3_MARKER, M3_MAX_LEN, length)| + 2)
  {
    hide OffsetField, Patch, ReadLong, At, OrTwoBits;
    var header := LengthHeader(M3_MARKER, M3_MAX_LEN, length);
    AtParts(f, p, header, Patch(OffsetField(v), s));
    ReadHeader(f, p, M3_MARKER, M3_MAX_LEN, length);
    ReadOffset(f, p + |header|, v, s);
    assert FarMatch(f, length, p + |header|, 0) == Match(v + 1, length, s, p + |header| + 2);
    hide FarMatch;
  }

  lemma ReadM4(f: seq<byte>, p: nat, length: nat, v: nat, s: nat, state: nat)
    requires 3 <= length <= MAX_MATCH_LEN && 1 <= v < 0x8000 && s <= 3
    requires At(f, p, LengthHeader(M4_MARKER + v / 0x4000 % 2 * 8, M4_MAX_LEN, length) + Patch(OffsetField(v), s))
    ensures ReadInst(f, p, state) ==
            Match(v + 0x4000, length, s,
                  p + |LengthHeader(M4_MARKER + v / 0x4000 % 2 * 8, M4_MAX_LEN, length)| + 2)
  {
    hide OffsetField, Patch, ReadLong, At, OrTwoBits;
    var h := v / 0x4000 % 2;
    var marker: byte := M4_MARKER + h * 8;
    var header := LengthHeader(marker, M4_MAX_LEN, length);
    AtParts(f, p, header, Patch(OffsetField(v), s));
    ReadHeader(f, p, marker, M4_MAX_LEN, length);
    ReadOffset(f, p + |header|, v, s);
    assert h * 0x4000 + v % 0x4000 == v;
    assert FarMatch(f, length, p + |header|, 1 + h * 16384) == Match(v + 0x4000, length, s, p + |header| + 2);
    hide FarMatch;
    assert f[p] / 8 % 2 == h;
  }

  lemma ReadFar(f: seq<byte>, p: nat, length: nat, offset: nat, lastLitLen: nat, s: nat)
    requires Writable(length, offset, lastLitLen) && !ShortForm(length, offset, lastLitLen) && s <= 3
    requires At(f, p, Patch(MatchBytes(length, offset, lastLitLen), s))
    ensures ReadInst(f, p, StateOf(lastLitLen)) ==
            Match(offset, length, s, p + |MatchBytes(length, offset, lastLitLen)|)
  {
    hide LengthHeader, OrTwoBits, At, ReadInst;
    if offset <= M3_MAX_OFFSET {
      assert Patch(MatchBytes(length, offset, lastLitLen), s) ==
             LengthHeader(M3_MARKER, M3_MAX_LEN, length) + Patch(OffsetField(offset - 1), s);
      ReadM3(f, p, length, offset - 1, s, StateOf(lastLitLen));
    } else {
      var v := offset - 0x4000;
      assert Patch(MatchBytes(length, offset, lastLitLen), s) ==
             LengthHeader(M4_MARKER + v / 0x4000 % 2 * 8, M4_MAX_LEN, length) + Patch(OffsetField(v), s);
      ReadM4(f, p, length, v, s, StateOf(lastLitLen));
    }
  }

  lemma ReadMatch(f: seq<byte>, p: nat, length: nat, offset: nat, lastLitLen: nat, s: nat)
    requires Writable(length, offset, lastLitLen) && s <= 3
    requires At(f, p, Patch(MatchBytes(length, offset, lastLitLen), s))
    ensures ReadInst(f, p, StateOf(lastLitLen)) ==
            Match(offset, length, s, p + |MatchBytes(length, offset, lastLitLen)|)
  {
    if ShortForm(length, offset, lastLitLen) {
      ReadNear(f, p, length, offset, lastLitLen, s);
    } else {
      ReadFar(f, p, length, offset, lastLitLen, s);
    }
  }

  // A literal run longer than 3, read in state 0.
  lemma {:induction false} ReadRun(f: seq<byte>, capacity: nat, p: nat, lits: seq<byte>, out: seq<byte>)
    requires 3 < |lits| < UINT32_RANGE && |out| + |lits| <= capacity
    requires At(f, p, RunHeader(|lits|) + lits)
    ensures var q := p + |RunHeader(|lits|)| + |lits|;
            q <= |f| && DecodeFrom(f, capacity, p, 0, out) == DecodeFrom(f, capacity, q, 4, out + lits)
  {
    hide RunHeader, ReadInst, At;
    var q := p + |RunHeader(|lits|)|;
    AtParts(f, p, RunHeader(|lits|), lits);
    RunInst(f, p, |lits|);
    AtSlice(f, q, lits);
    AtFits(f, q, lits);
  }

  lemma RunInst(f: seq<byte>, p: nat, litLen: nat)
    requires 3 < litLen < UINT32_RANGE && At(f, p, RunHeader(litLen))
    ensures ReadInst(f, p, 0) == Literals(litLen, p + |RunHeader(litLen)|) && p < |f|
  {
    assert f[p] == RunHeader(litLen)[0];
    if litLen > 18 {
      AtParts(f, p, [0], LengthField(litLen - 18));
      hide At;
      ReadLengthField(f, p + 1, litLen - 18);
      hide LengthField, ZeroRun;
    }
  }

  // Copying a true match back continues the source.
  lemma {:induction false} CopyTrueMatch(src: seq<byte>, pos: nat, length: nat, offset: nat)
    requires TrueMatch(src, pos, length, offset)
    ensures CopyBack(src[..pos], offset, length) == src[..pos + length]
  {
    if length > 0 {
      CopyTrueMatch(src, pos, length - 1, offset);
      var last := pos + length - 1;
      assert src[last] == src[last - offset];
      assert src[..last] + [src[last]] == src[..last + 1];
    }
  }

  lemma {:induction false} ReadTerminator(f: seq<byte>, capacity: nat, p: nat, state: nat, out: seq<byte>)
    requires At(f, p, TERMINATOR) && p + 3 == |f|
    ensures DecodeFrom(f, capacity, p, state, out) == Outcome(Success, out)
  {
    assert f[p] == TERMINATOR[0] && f[p + 1] == TERMINATOR[1] && f[p + 2] == TERMINATOR[2];
    assert ReadInst(f, p, state) == Stop(3, p + 3);
  }

  // One decoder turn over a match the encoder wrote at p and later patched.
  lemma MatchContinues(src: seq<byte>, f: seq<byte>, capacity: nat, p: nat, pos: nat, m: Choice, lastLitLen: nat,
                       s: nat, next: nat, base: nat)
    requires Writable(m.length, m.offset, lastLitLen) && TrueMatch(src, pos, m.length, m.offset)
    requires next == p + |MatchBytes(m.length, m.offset, lastLitLen)| && base == pos + m.length
    requires s <= 3 && base + s <= |src| <= capacity
    requires At(f, p, Patch(MatchBytes(m.length, m.offset, lastLitLen), s))
    requires At(f, next, src[base..base + s])
    ensures next + s <= |f|
    ensures DecodeFrom(f, capacity, p, StateOf(lastLitLen), src[..pos])
            == DecodeFrom(f, capacity, next + s, s, src[..base + s])
  {
    hide ReadInst, Patch, MatchBytes, StateOf, CopyBack;
    ReadMatch(f, p, m.length, m.offset, lastLitLen, s);
    CopyTrueMatch(src, pos, m.length, m.offset);
    hide Writable, TrueMatch;
    assert f[next..next + s] == src[base..base + s];
    assert src[..base] + src[base..base + s] == src[..base + s];
  }

  // The choice at an ungated position can be written and is a true match.
  lemma ChoiceIsWritable(src: seq<byte>, pos: nat, a: Advice, litLen: nat, first: bool)
    requires pos < |src| && TrueAdvice(src, pos, a) && !Gated(a, litLen, first)
    ensures var m := BetterMatch(a);
            Writable(m.length, m.offset, litLen) && TrueMatch(src, pos, m.length, m.offset)
  {
  }

  // The pending literals stand right before the position; their count is a uint32_t.
  ghost predicate Pending(e: Progress) {
    e.litLen < UINT32_RANGE && (e.litLen > 0 ==> e.litPtr + e.litLen == e.pos)
  }

  // From here on no run of literals comes to 2^32, where the count of the pending ones starts anew.
  ghost predicate ShortRuns(src: seq<byte>, finder: seq<Advice>, e: Progress)
    requires TrueFinder(src, finder) && InRange(src, e)
    decreases |src| - e.pos
  {
    e.pos == |src| ||
    (&& (Gated(finder[e.pos], e.litLen, e.out == []) ==> e.litLen + 1 < UINT32_RANGE)
     && ShortRuns(src, finder, Turn(src, finder, e)))
  }

  // The encoder's state while the last match written still waits for its literal count.
  ghost predicate AfterMatch(src: seq<byte>, e: Progress) {
    && InRange(src, e) && Pending(e)
    && |e.out| >= 2 && e.out[|e.out| - 2] % 4 == 0
  }

  // What the decoder has still to do behind the last match: its s literals, then the rest.
  ghost predicate Resumes(src: seq<byte>, f: seq<byte>, capacity: nat, e: Progress, s: nat)
    requires AfterMatch(src, e)
  {
    var at, base := |e.out|, e.pos - e.litLen;
    && s <= 3 && base + s <= |src| && at + s <= |f|
    && f[..at] == Patch(e.out, s)
    && At(f, at, src[base..base + s])
    && DecodeFrom(f, capacity, at + s, s, src[..base + s]) == Outcome(Success, src)
  }

  // A written run of at most 3 literals, decoded: its length went into the match before it.
  lemma {:induction false} ShortRun(src: seq<byte>, f: seq<byte>, capacity: nat, e: Progress, lits: seq<byte>)
    requires AfterMatch(src, e) && |lits| == e.litLen <= 3 && lits == src[e.pos - e.litLen..e.pos]
    requires var run := LiteralRun(e.out, lits);
             && |run| <= |f| && f[..|run|] == run
             && DecodeFrom(f, capacity, |run|, e.litLen, src[..e.pos]) == Outcome(Success, src)
    ensures Resumes(src, f, capacity, e, e.litLen)
  {
    hide OrTwoBits, DecodeFrom;
    assert LiteralRun(e.out, lits) == Patch(e.out, e.litLen) + lits;
    PrefixParts(f, Patch(e.out, e.litLen), lits);
  }

  // A longer run, decoded: the match before it announced no literals.
  lemma {:induction false} LongRun(src: seq<byte>, f: seq<byte>, capacity: nat, e: Progress, lits: seq<byte>)
    requires AfterMatch(src, e) && |lits| == e.litLen && lits == src[e.pos - e.litLen..e.pos]
    requires 3 < e.litLen < UINT32_RANGE && |src| <= capacity
    requires var run := LiteralRun(e.out, lits);
             && |run| <= |f| && f[..|run|] == run
             && DecodeFrom(f, capacity, |run|, 4, src[..e.pos]) == Outcome(Success, src)
    ensures Resumes(src, f, capacity, e, 0)
  {
    hide OrTwoBits, RunHeader, DecodeFrom;
    var base := e.pos - e.litLen;
    var headed := RunHeader(|lits|) + lits;
    assert LiteralRun(e.out, lits) == e.out + headed;
    PrefixParts(f, e.out, headed);
    ReadRun(f, capacity, |e.out|, lits, src[..base]);
    assert src[..base] + lits == src[..e.pos];
    assert Patch(e.out, 0) == e.out by { OrZero(e.out[|e.out| - 2]); }
  }

  // The literals that are pending, as the code slices them.
  function PendingLiterals(src: seq<byte>, e: Progress): (r: seq<byte>)
    requires e.litPtr + e.litLen <= e.pos <= |src|
    ensures |r| == e.litLen
  {
    var from := if e.litLen == 0 then e.pos else e.litPtr;
    src[from..from + e.litLen]
  }

  lemma PendingRun(src: seq<byte>, f: seq<byte>, capacity: nat, e: Progress) returns (s: nat)
    requires AfterMatch(src, e) && |src| <= capacity
    requires var run := LiteralRun(e.out, PendingLiterals(src, e));
             && |run| <= |f| && f[..|run|] == run
             && DecodeFrom(f, capacity, |run|, StateOf(e.litLen), src[..e.pos]) == Outcome(Success, src)
    ensures Resumes(src, f, capacity, e, s)
  {
    var lits := src[e.pos - e.litLen..e.pos];
    assert PendingLiterals(src, e) == lits;
    hide LiteralRun, DecodeFrom, Resumes, PendingLiterals;
    if e.litLen <= 3 {
      s := e.litLen;
      ShortRun(src, f, capacity, e, lits);
    } else {
      s := 0;
      LongRun(src, f, capacity, e, lits);
    }
  }

  lemma PatchTail(run: seq<byte>, bytes: seq<byte>, s: nat)
    requires |bytes| >= 2 && s <= 3
    ensures Patch(run + bytes, s) == run + Patch(bytes, s)
  {
    hide OrTwoBits;
  }

  // Resumes right behind a match, where no literal is pending.
  lemma {:induction false} ResumesAtMatch(src: seq<byte>, f: seq<byte>, capacity: nat, e: Progress, s: nat)
    requires AfterMatch(src, e) && e.litLen == 0 && Resumes(src, f, capacity, e, s)
    ensures s <= 3 && e.pos + s <= |src| && |e.out| + s <= |f|
    ensures f[..|e.out|] == Patch(e.out, s) && At(f, |e.out|, src[e.pos..e.pos + s])
    ensures DecodeFrom(f, capacity, |e.out| + s, s, src[..e.pos + s]) == Outcome(Success, src)
  {
    hide DecodeFrom, At, Patch;
    assert e.pos - e.litLen == e.pos;
  }

  // What a turn that writes a match adds, found again in the finished output.
  lemma TurnParts(f: seq<byte>, run: seq<byte>, bytes: seq<byte>, s: nat)
    requires |bytes| >= 2 && s <= 3
    requires |run + bytes| <= |f| && f[..|run + bytes|] == Patch(run + bytes, s)
    ensures |run| <= |f| && f[..|run|] == run && At(f, |run|, Patch(bytes, s))
  {
    PatchTail(run, bytes, s);
    hide Patch, At;
    PrefixParts(f, run, Patch(bytes, s));
  }

  lemma {:induction false} TurnDecodes(src: seq<byte>, f: seq<byte>, capacity: nat, at: nat, pos: nat, m: Choice,
                                       litLen: nat,
                                       next: Progress, s: nat)
    requires Writable(m.length, m.offset, litLen) && TrueMatch(src, pos, m.length, m.offset)
    requires next.litLen == 0 && next.pos == pos + m.length
    requires |next.out| == at + |MatchBytes(m.length, m.offset, litLen)|
    requires |src| <= capacity && AfterMatch(src, next) && Resumes(src, f, capacity, next, s)
    requires At(f, at, Patch(MatchBytes(m.length, m.offset, litLen), s))
    ensures DecodeFrom(f, capacity, at, StateOf(litLen), src[..pos]) == Outcome(Success, src)
  {
    hide *;
    ResumesAtMatch(src, f, capacity, next, s);
    MatchContinues(src, f, capacity, at, pos, m, litLen, s, |next.out|, next.pos);
  }

  // The end of the loop: the last literals and the terminator.
  lemma {:induction false} EndDecodes(src: seq<byte>, finder: seq<Advice>, e: Progress, capacity: nat)
    requires TrueFinder(src, finder) && InRange(src, e) && e.pos == |src|
    ensures var f, run := CompressFrom(src, finder, e), LiteralRun(e.out, PendingLiterals(src, e));
            && |run| <= |f| && f[..|run|] == run
            && DecodeFrom(f, capacity, |run|, StateOf(e.litLen), src[..e.pos]) == Outcome(Success, src)
  {
    var run := LiteralRun(e.out, PendingLiterals(src, e));
    var f := CompressFrom(src, finder, e);
    assert src[e.litPtr..e.litPtr + e.litLen] == PendingLiterals(src, e);
    hide LiteralRun, DecodeFrom, StateOf, PendingLiterals;
    assert f == run + TERMINATOR;
    PrefixParts(f, run, TERMINATOR);
    ReadTerminator(f, capacity, |run|, StateOf(e.litLen), src[..e.pos]);
    assert src[..e.pos] == src;
  }

  // A turn that writes a match, and what the decoder makes of it.
  lemma MatchAfter(src: seq<byte>, finder: seq<Advice>, e: Progress)
    requires TrueFinder(src, finder) && InRange(src, e) && e.pos < |src| && Pending(e)
    requires !Gated(finder[e.pos], e.litLen, e.out == [])
    ensures AfterMatch(src, Turn(src, finder, e))
    ensures var m, next := BetterMatch(finder[e.pos]), Turn(src, finder, e);
            && Writable(m.length, m.offset, e.litLen) && TrueMatch(src, e.pos, m.length, m.offset)
            && next.litLen == 0 && next.pos == e.pos + m.length
            && |MatchBytes(m.length, m.offset, e.litLen)| >= 2
            && next.out == LiteralRun(e.out, PendingLiterals(src, e)) + MatchBytes(m.length, m.offset, e.litLen)
  {
    hide LiteralRun, MatchBytes, BetterMatch, TrueMatch, Writable;
    var a := finder[e.pos];
    assert TrueAdvice(src, e.pos, a);
    var m := BetterMatch(a);
    ChoiceIsWritable(src, e.pos, a, e.litLen, e.out == []);
    LowBitsFree(m.length, m.offset, e.litLen);
    MatchTurn(src, finder, e, if e.litLen == 0 then e.pos else e.litPtr, m);
  }

  // A turn that leaves one literal more pending, or starts the count anew.
  lemma GatedTurn(src: seq<byte>, finder: seq<Advice>, e: Progress)
    requires TrueFinder(src, finder) && InRange(src, e) && e.pos < |src| && Pending(e)
    requires Gated(finder[e.pos], e.litLen, e.out == [])
    ensures var next := Turn(src, finder, e);
            && InRange(src, next) && Pending(next) && next.pos == e.pos + 1 && next.out == e.out
            && next.litLen == if e.litLen + 1 < UINT32_RANGE then e.litLen + 1 else 0
  {
    hide LiteralRun, MatchBytes, BetterMatch, Gated;
  }

  lemma {:induction false} MatchDecodes(src: seq<byte>, finder: seq<Advice>, e: Progress, f: seq<byte>, capacity: nat,
                                        s: nat)
    requires TrueFinder(src, finder) && InRange(src, e) && e.pos < |src| <= capacity && Pending(e)
    requires !Gated(finder[e.pos], e.litLen, e.out == [])
    requires AfterMatch(src, Turn(src, finder, e)) && Resumes(src, f, capacity, Turn(src, finder, e), s)
    ensures var run := LiteralRun(e.out, PendingLiterals(src, e));
            && |run| <= |f| && f[..|run|] == run
            && DecodeFrom(f, capacity, |run|, StateOf(e.litLen), src[..e.pos]) == Outcome(Success, src)
  {
    hide LiteralRun, MatchBytes, BetterMatch, DecodeFrom, StateOf, TrueMatch, At, Patch, PendingLiterals, Turn;
    MatchAfter(src, finder, e);
    hide InRange, Pending;
    var m, next := BetterMatch(finder[e.pos]), Turn(src, finder, e);
    var run := LiteralRun(e.out, PendingLiterals(src, e));
    TurnParts(f, run, MatchBytes(m.length, m.offset, e.litLen), s);
    TurnDecodes(src, f, capacity, |run|, e.pos, m, e.litLen, next, s);
  }

  lemma {:induction false} Tail(src: seq<byte>, finder: seq<Advice>, e: Progress, capacity: nat) returns (s: nat)
    requires TrueFinder(src, finder) && |src| <= capacity
    requires AfterMatch(src, e) && ShortRuns(src, finder, e)
    ensures Resumes(src, CompressFrom(src, finder, e), capacity, e, s)
    decreases |src| - e.pos
  {
    hide LiteralRun, MatchBytes, BetterMatch, DecodeFrom, StateOf, PendingLiterals, Resumes, Turn, Gated;
    var f := CompressFrom(src, finder, e);
    if e.pos == |src| {
      EndDecodes(src, finder, e, capacity);
      s := PendingRun(src, f, capacity, e);
    } else {
      assert TrueAdvice(src, e.pos, finder[e.pos]);
      var next := Turn(src, finder, e);
      if Gated(finder[e.pos], e.litLen, false) {
        GatedTurn(src, finder, e);
        s := Tail(src, finder, next, capacity);
        GatedResumes(src, f, capacity, e, next, s);
      } else {
        MatchAfter(src, finder, e);
        var s' := Tail(src, finder, next, capacity);
        MatchDecodes(src, finder, e, f, capacity, s');
        s := PendingRun(src, f, capacity, e);
      }
    }
  }

  // A literal more that is pending changes nothing behind the last match.
  lemma GatedResumes(src: seq<byte>, f: seq<byte>, capacity: nat, e: Progress, next: Progress, s: nat)
    requires AfterMatch(src, e) && AfterMatch(src, next) && Resumes(src, f, capacity, next, s)
    requires next.out == e.out && next.pos - next.litLen == e.pos - e.litLen
    ensures Resumes(src, f, capacity, e, s)
  {
    hide DecodeFrom, At, Patch;
  }

  // The run that opens the stream, decoded.
  lemma {:induction false} OpeningRun(src: seq<byte>, f: seq<byte>, capacity: nat, lits: seq<byte>)
    requires 1 <= |lits| < UINT32_RANGE && |lits| <= |src| <= capacity && |f| >= 3
    requires var run := LiteralRun([], lits);
             && |run| <= |f| && f[..|run|] == run
             && DecodeFrom(f, capacity, |run|, StateOf(|lits|), lits) == Outcome(Success, src)
    ensures Decode(f, capacity) == Outcome(Success, src)
  {
    hide DecodeFrom, RunHeader;
    if |lits| <= 238 {
      PrefixParts(f, [17 + |lits|], lits);
      assert f[0] as int == 17 + |lits|;
      assert f[1..1 + |lits|] == lits;
    } else {
      var headed := RunHeader(|lits|) + lits;
      assert LiteralRun([], lits) == [] + headed;
      PrefixParts(f, [], headed);
      ReadRun(f, capacity, 0, lits, []);
      assert [] + lits == lits;
      RunHeaderIsZero(|lits|);
      AtParts(f, 0, RunHeader(|lits|), lits);
    }
  }

  lemma RunHeaderIsZero(litLen: nat)
    requires litLen > 18
    ensures |RunHeader(litLen)| > 0 && RunHeader(litLen)[0] == 0
  {
  }

  lemma OpeningLiterals(src: seq<byte>, e: Progress)
    requires InRange(src, e) && Pending(e) && e.litLen == e.pos
    ensures PendingLiterals(src, e) == src[..e.pos]
  {
  }

  lemma {:induction false} Head(src: seq<byte>, finder: seq<Advice>, e: Progress, capacity: nat)
    requires TrueFinder(src, finder) && src != [] && |src| <= capacity
    requires InRange(src, e) && Pending(e) && e.out == [] && e.litLen == e.pos && ShortRuns(src, finder, e)
    ensures Decode(CompressFrom(src, finder, e), capacity) == Outcome(Success, src)
    decreases |src| - e.pos
  {
    hide LiteralRun, MatchBytes, BetterMatch, DecodeFrom, StateOf, Decode, Resumes, Turn, Gated, PendingLiterals;
    OpeningLiterals(src, e);
    var f := CompressFrom(src, finder, e);
    var lits := PendingLiterals(src, e);
    if e.pos == |src| {
      EndDecodes(src, finder, e, capacity);
      OpeningRun(src, f, capacity, lits);
    } else {
      assert TrueAdvice(src, e.pos, finder[e.pos]);
      var next := Turn(src, finder, e);
      if Gated(finder[e.pos], e.litLen, true) {
        GatedTurn(src, finder, e);
        Head(src, finder, next, capacity);
      } else {
        MatchAfter(src, finder, e);
        var s := Tail(src, finder, next, capacity);
        MatchDecodes(src, finder, e, f, capacity, s);
        OpeningRun(src, f, capacity, lits);
      }
    }
  }

  // What the empty source becomes: an instruction the decoder reads as a match before the output.
  lemma EmptySource(capacity: nat)
    ensures Compressed([], []) == [17, 17, 0, 0]
    ensures Decode([17, 17, 0, 0], capacity) == Outcome(LookbehindOverrun, [])
  {
    var f: seq<byte> := [17, 17, 0, 0];
    assert Le16(f, 1) == 17;
    assert ReadInst(f, 0, 0) == Match(16388, 3, 1, 3);
  }

  // compress_worst_size
  function CompressWorstSize(n: nat): nat {
    n + n / 16 + 64 + 3
  }

  lemma RunCost(litLen: nat)
    requires litLen > 3
    ensures |RunHeader(litLen)| <= 1 + litLen / 16
  {
    if litLen > 18 {
      assert (litLen - 19) / 255 <= (litLen - 19) / 16 && (litLen - 19) / 16 + 1 <= litLen / 16;
    }
  }

  // A match the gate lets through costs no more than it replaces, and at least a byte less
  // after four or more literals, which pays for their header.
  lemma MatchCost(src: seq<byte>, pos: nat, a: Advice, litLen: nat, first: bool)
    requires pos < |src| && TrueAdvice(src, pos, a) && !Gated(a, litLen, first)
    ensures var m := BetterMatch(a);
            && |MatchBytes(m.length, m.offset, litLen)| <= m.length
            && (litLen > 3 ==> |MatchBytes(m.length, m.offset, litLen)| < m.length)
  {
  }

  lemma RunSize(out: seq<byte>, lits: seq<byte>)
    requires out == [] || |out| >= 2
    ensures |LiteralRun(out, lits)| <=
            |out| + |lits| + (if |lits| > 3 then 1 + |lits| / 16 else 0) + (if out == [] then 1 else 0)
  {
    if |lits| > 3 { RunCost(|lits|); }
  }

  // From any point of the loop, each 16 source bytes cost at most one byte beyond themselves.
  lemma {:induction false} RestSize(src: seq<byte>, finder: seq<Advice>, e: Progress)
    requires TrueFinder(src, finder) && InRange(src, e) && Pending(e)
    ensures var rest := |src| - e.pos + e.litLen;
            |CompressFrom(src, finder, e)| <= |e.out| + rest + rest / 16 + 4 + (if e.out == [] then 1 else 0)
    decreases |src| - e.pos
  {
    hide MatchBytes, LiteralRun, BetterMatch, Turn, Gated, PendingLiterals;
    var lits := PendingLiterals(src, e);
    RunSize(e.out, lits);
    if e.pos == |src| {
      LastRun(src, e);
    } else {
      assert TrueAdvice(src, e.pos, finder[e.pos]);
      var next := Turn(src, finder, e);
      if Gated(finder[e.pos], e.litLen, e.out == []) {
        GatedTurn(src, finder, e);
      } else {
        MatchAfter(src, finder, e);
        MatchCost(src, e.pos, finder[e.pos], e.litLen, e.out == []);
      }
      RestSize(src, finder, next);
    }
  }

  lemma LastRun(src: seq<byte>, e: Progress)
    requires InRange(src, e) && Pending(e) && e.pos == |src|
    ensures src[e.litPtr..e.litPtr + e.litLen] == PendingLiterals(src, e)
  {
  }

  // The buffer compress_worst_size asks for is always enough, by 62 bytes.
  lemma WorstSize(src: seq<byte>, finder: seq<Advice>)
    requires TrueFinder(src, finder)
    ensures |Compressed(src, finder)| <= |src| + |src| / 16 + 5 <= CompressWorstSize(|src|)
  {
    RestSize(src, finder, Progress(0, 0, 0, []));
  }
}
