// Exactly when decompressing what the compressor wrote gives the source back: when the source is not
// empty and no run of literals comes to 2^32. A longer run starts the encoder's 32-bit count anew, and
// whatever the decoder then makes of the stream is shorter than the source.
module LzoExact {
  import opened Bytes
  import opened LzoFormat
  import opened LzoDecoder
  import opened LzoEncoder
  import opened LzoRoundTrip

  // A success, if it is one, gives at most n bytes, or fewer than n.
  predicate AtMost(o: Outcome, n: int, fewer: bool) {
    o.code == Success ==> |o.out| <= n && (fewer ==> |o.out| < n)
  }

  // ---- One instruction, on any output

  // A match makes of any output a longer one, or ends the decoding.
  lemma {:induction false} AnyMatch(f: seq<byte>, capacity: nat, p: nat, m: Choice, litLen: nat, s: nat, out: seq<byte>)
    returns (out': seq<byte>)
    requires Writable(m.length, m.offset, litLen) && s <= 3
    requires At(f, p, Patch(MatchBytes(m.length, m.offset, litLen), s))
    requires p + |MatchBytes(m.length, m.offset, litLen)| + s <= |f|
    ensures |out'| == |out| + m.length + s
    ensures var next := p + |MatchBytes(m.length, m.offset, litLen)| + s;
            var o := DecodeFrom(f, capacity, p, StateOf(litLen), out);
            o.code != Success || o == DecodeFrom(f, capacity, next, s, out')
  {
    hide ReadInst, Patch, MatchBytes, StateOf, CopyBack;
    ReadMatch(f, p, m.length, m.offset, litLen, s);
    var q := p + |MatchBytes(m.length, m.offset, litLen)|;
    out' := (if m.offset > |out| then out + seq(m.length, _ => 0) else CopyBack(out, m.offset, m.length)) + f[q..q + s];
  }

  // So does a long run of literals.
  lemma {:induction false} AnyRun(f: seq<byte>, capacity: nat, p: nat, lits: seq<byte>, out: seq<byte>)
    requires 3 < |lits| < UINT32_RANGE && At(f, p, RunHeader(|lits|) + lits)
    ensures var q := p + |RunHeader(|lits|)| + |lits|;
            var o := DecodeFrom(f, capacity, p, 0, out);
            q <= |f| && (o.code != Success || o == DecodeFrom(f, capacity, q, 4, out + lits))
  {
    hide RunHeader, ReadInst, At;
    var q := p + |RunHeader(|lits|)|;
    AtParts(f, p, RunHeader(|lits|), lits);
    RunInst(f, p, |lits|);
    AtSlice(f, q, lits);
    AtFits(f, q, lits);
  }

  // ---- The rest of a stream, on any output

  // From p on, any output grows by at most n bytes, or fewer.
  ghost predicate Grows(f: seq<byte>, capacity: nat, p: nat, state: nat, n: int, fewer: bool)
    requires p <= |f|
  {
    forall out :: AtMost(DecodeFrom(f, capacity, p, state, out), |out| + n, fewer)
  }

  // What stands behind the last match: its s literals, and a rest in which any output grows by no more
  // than what the source has there.
  ghost predicate Bounded(src: seq<byte>, f: seq<byte>, capacity: nat, e: Progress, s: nat, fewer: bool)
    requires AfterMatch(src, e)
  {
    var at, base := |e.out|, e.pos - e.litLen;
    && s <= 3 && at + s <= |f| && f[..at] == Patch(e.out, s)
    && Grows(f, capacity, at + s, s, |src| - base - s, fewer)
  }

  lemma {:induction false} RunBounded(src: seq<byte>, f: seq<byte>, capacity: nat, e: Progress, fewer: bool)
    returns (s: nat)
    requires AfterMatch(src, e)
    requires var run := LiteralRun(e.out, PendingLiterals(src, e));
             && |run| <= |f| && f[..|run|] == run
             && Grows(f, capacity, |run|, StateOf(e.litLen), |src| - e.pos, fewer)
    ensures Bounded(src, f, capacity, e, s, fewer)
  {
    hide LiteralRun, PendingLiterals, Grows, RunHeader, Patch, At, DecodeFrom;
    var lits := PendingLiterals(src, e);
    s := if e.litLen <= 3 then e.litLen else 0;
    RunParts(f, e.out, lits, s);
    if e.litLen > 3 {
      LongRunBounded(f, capacity, |e.out|, lits, |src| - e.pos, fewer);
    }
  }

  // Where a run behind a match puts its length: into the match, or into a header.
  lemma RunParts(f: seq<byte>, out: seq<byte>, lits: seq<byte>, s: nat)
    requires |out| >= 2 && out[|out| - 2] % 4 == 0 && s == if |lits| <= 3 then |lits| else 0
    requires var run := LiteralRun(out, lits); |run| <= |f| && f[..|run|] == run
    ensures |out| <= |f| && f[..|out|] == Patch(out, s)
    ensures |lits| <= 3 ==> |LiteralRun(out, lits)| == |out| + |lits|
    ensures |lits| > 3 ==>
              && |LiteralRun(out, lits)| == |out| + |RunHeader(|lits|)| + |lits|
              && At(f, |out|, RunHeader(|lits|) + lits)
  {
    hide OrTwoBits, RunHeader;
    if |lits| <= 3 {
      PrefixParts(f, Patch(out, s), lits);
    } else {
      var headed := RunHeader(|lits|) + lits;
      assert LiteralRun(out, lits) == out + headed;
      PrefixParts(f, out, headed);
      OrZero(out[|out| - 2]);
    }
  }

  lemma {:induction false} LongRunBounded(f: seq<byte>, capacity: nat, p: nat, lits: seq<byte>, n: int, fewer: bool)
    requires 3 < |lits| < UINT32_RANGE && At(f, p, RunHeader(|lits|) + lits)
    requires p + |RunHeader(|lits|)| + |lits| <= |f|
    requires Grows(f, capacity, p + |RunHeader(|lits|)| + |lits|, 4, n, fewer)
    ensures p <= |f| && Grows(f, capacity, p, 0, |lits| + n, fewer)
  {
    hide DecodeFrom, RunHeader, At;
    var q := p + |RunHeader(|lits|)| + |lits|;
    forall out: seq<byte> ensures AtMost(DecodeFrom(f, capacity, p, 0, out), |out| + |lits| + n, fewer) {
      AnyRun(f, capacity, p, lits, out);
      assert AtMost(DecodeFrom(f, capacity, q, 4, out + lits), |out + lits| + n, fewer);
    }
  }

  lemma GrowsMore(f: seq<byte>, capacity: nat, p: nat, state: nat, n: int, fewer: bool, n': int, fewer': bool)
    requires p <= |f| && Grows(f, capacity, p, state, n, fewer) && n <= n' && (fewer' ==> fewer || n < n')
    ensures Grows(f, capacity, p, state, n', fewer')
  {
    hide DecodeFrom;
    forall out: seq<byte> ensures AtMost(DecodeFrom(f, capacity, p, state, out), |out| + n', fewer') {
      assert AtMost(DecodeFrom(f, capacity, p, state, out), |out| + n, fewer);
    }
  }

  // A turn that writes a match.
  lemma {:induction false} MatchBounded(src: seq<byte>, finder: seq<Advice>, e: Progress, f: seq<byte>, capacity: nat,
                                        s: nat, fewer: bool)
    requires TrueFinder(src, finder) && InRange(src, e) && e.pos < |src| && Pending(e)
    requires !Gated(finder[e.pos], e.litLen, e.out == [])
    requires AfterMatch(src, Turn(src, finder, e)) && Bounded(src, f, capacity, Turn(src, finder, e), s, fewer)
    ensures var run := LiteralRun(e.out, PendingLiterals(src, e));
            && |run| <= |f| && f[..|run|] == run
            && Grows(f, capacity, |run|, StateOf(e.litLen), |src| - e.pos, fewer)
  {
    hide LiteralRun, MatchBytes, BetterMatch, DecodeFrom, StateOf, TrueMatch, At, Patch, PendingLiterals, Turn, Gated;
    hide Grows, CompressFrom;
    MatchAfter(src, finder, e);
    var m, next := BetterMatch(finder[e.pos]), Turn(src, finder, e);
    var run, bytes := LiteralRun(e.out, PendingLiterals(src, e)), MatchBytes(m.length, m.offset, e.litLen);
    assert next.out == run + bytes && |next.out| == |run| + |bytes|;
    TurnParts(f, run, bytes, s);
    hide InRange, Pending;
    MatchGrows(f, capacity, |run|, m, e.litLen, s, |src| - next.pos - s, fewer);
  }

  lemma {:induction false} MatchGrows(f: seq<byte>, capacity: nat, p: nat, m: Choice, litLen: nat, s: nat, n: int,
                                      fewer: bool)
    requires Writable(m.length, m.offset, litLen) && s <= 3
    requires At(f, p, Patch(MatchBytes(m.length, m.offset, litLen), s))
    requires p + |MatchBytes(m.length, m.offset, litLen)| + s <= |f|
    requires Grows(f, capacity, p + |MatchBytes(m.length, m.offset, litLen)| + s, s, n, fewer)
    ensures Grows(f, capacity, p, StateOf(litLen), m.length + s + n, fewer)
  {
    hide MatchBytes, DecodeFrom, StateOf, At, Patch;
    var next := p + |MatchBytes(m.length, m.offset, litLen)| + s;
    forall out: seq<byte>
      ensures AtMost(DecodeFrom(f, capacity, p, StateOf(litLen), out), |out| + m.length + s + n, fewer)
    {
      var out' := AnyMatch(f, capacity, p, m, litLen, s, out);
      assert AtMost(DecodeFrom(f, capacity, next, s, out'), |out'| + n, fewer);
    }
  }

  // The end of the loop.
  lemma {:induction false} EndBounded(src: seq<byte>, finder: seq<Advice>, e: Progress, capacity: nat)
    requires TrueFinder(src, finder) && InRange(src, e) && e.pos == |src|
    ensures var f, run := CompressFrom(src, finder, e), LiteralRun(e.out, PendingLiterals(src, e));
            && |run| <= |f| && f[..|run|] == run && f == run + TERMINATOR
            && Grows(f, capacity, |run|, StateOf(e.litLen), 0, false)
  {
    var run := LiteralRun(e.out, PendingLiterals(src, e));
    var f := CompressFrom(src, finder, e);
    assert src[e.litPtr..e.litPtr + e.litLen] == PendingLiterals(src, e);
    hide LiteralRun, DecodeFrom, StateOf, PendingLiterals;
    assert f == run + TERMINATOR;
    PrefixParts(f, run, TERMINATOR);
    forall out: seq<byte> ensures AtMost(DecodeFrom(f, capacity, |run|, StateOf(e.litLen), out), |out|, false) {
      ReadTerminator(f, capacity, |run|, StateOf(e.litLen), out);
    }
  }

  // A literal more, or the count started anew: then 2^32 literals are never written.
  lemma {:induction false} GatedBounded(src: seq<byte>, f: seq<byte>, capacity: nat, e: Progress, next: Progress,
                                        s: nat, fewer: bool)
    requires AfterMatch(src, e) && AfterMatch(src, next) && Bounded(src, f, capacity, next, s, fewer)
    requires next.out == e.out && next.pos == e.pos + 1
    requires next.litLen == if e.litLen + 1 < UINT32_RANGE then e.litLen + 1 else 0
    ensures Bounded(src, f, capacity, e, s, fewer || e.litLen + 1 == UINT32_RANGE)
  {
    hide Grows, Patch;
    GrowsMore(f, capacity, |e.out| + s, s, |src| - (next.pos - next.litLen) - s, fewer,
              |src| - (e.pos - e.litLen) - s, fewer || e.litLen + 1 == UINT32_RANGE);
  }

  lemma {:induction false} TailBounded(src: seq<byte>, finder: seq<Advice>, e: Progress, capacity: nat) returns (s: nat)
    requires TrueFinder(src, finder) && AfterMatch(src, e)
    ensures Bounded(src, CompressFrom(src, finder, e), capacity, e, s, !ShortRuns(src, finder, e))
    decreases |src| - e.pos
  {
    hide LiteralRun, MatchBytes, BetterMatch, DecodeFrom, StateOf, PendingLiterals, Bounded, Turn, Gated;
    var f := CompressFrom(src, finder, e);
    var fewer := !ShortRuns(src, finder, e);
    if e.pos == |src| {
      EndBounded(src, finder, e, capacity);
      s := RunBounded(src, f, capacity, e, fewer);
    } else {
      assert TrueAdvice(src, e.pos, finder[e.pos]);
      var next := Turn(src, finder, e);
      if Gated(finder[e.pos], e.litLen, false) {
        GatedTurn(src, finder, e);
        s := TailBounded(src, finder, next, capacity);
        GatedBounded(src, f, capacity, e, next, s, !ShortRuns(src, finder, next));
      } else {
        MatchAfter(src, finder, e);
        var s' := TailBounded(src, finder, next, capacity);
        MatchBounded(src, finder, e, f, capacity, s', fewer);
        s := RunBounded(src, f, capacity, e, fewer);
      }
    }
  }

  // ---- The start of a stream

  lemma {:induction false} AnyOpening(f: seq<byte>, capacity: nat, lits: seq<byte>)
    requires 1 <= |lits| < UINT32_RANGE && |f| >= 3
    requires var run := LiteralRun([], lits); |run| <= |f| && f[..|run|] == run
    ensures var o := Decode(f, capacity);
            o.code != Success || o == DecodeFrom(f, capacity, |LiteralRun([], lits)|, StateOf(|lits|), lits)
  {
    hide DecodeFrom, RunHeader;
    if |lits| <= 238 {
      PrefixParts(f, [17 + |lits|], lits);
      assert f[0] as int == 17 + |lits|;
      assert f[1..1 + |lits|] == lits;
    } else {
      var headed := RunHeader(|lits|) + lits;
      assert LiteralRun([], lits) == [] + headed;
      PrefixParts(f, [], headed);
      AnyRun(f, capacity, 0, lits, []);
      assert [] + lits == lits;
      RunHeaderIsZero(|lits|);
      AtParts(f, 0, RunHeader(|lits|), lits);
    }
  }

  lemma {:induction false} OpeningBounded(f: seq<byte>, capacity: nat, lits: seq<byte>, n: int, fewer: bool)
    requires 1 <= |lits| < UINT32_RANGE && |f| >= 3
    requires var run := LiteralRun([], lits);
             |run| <= |f| && f[..|run|] == run && Grows(f, capacity, |run|, StateOf(|lits|), n, fewer)
    ensures AtMost(Decode(f, capacity), |lits| + n, fewer)
  {
    hide DecodeFrom, LiteralRun, StateOf, Decode;
    AnyOpening(f, capacity, lits);
    assert AtMost(DecodeFrom(f, capacity, |LiteralRun([], lits)|, StateOf(|lits|), lits), |lits| + n, fewer);
  }

  // Nothing decoded from a stream is longer than the source, and with a run of 2^32 all is shorter.
  lemma {:induction false} HeadBounded(src: seq<byte>, finder: seq<Advice>, e: Progress, capacity: nat)
    requires TrueFinder(src, finder) && InRange(src, e) && Pending(e) && e.out == []
    ensures AtMost(Decode(CompressFrom(src, finder, e), capacity), |src| - e.pos + e.litLen, !ShortRuns(src, finder, e))
    decreases |src| - e.pos
  {
    hide LiteralRun, MatchBytes, BetterMatch, Bounded, Turn, Gated, PendingLiterals, AtMost, Decode;
    if e.pos == |src| {
      HeadEnds(src, finder, e, capacity);
    } else {
      assert TrueAdvice(src, e.pos, finder[e.pos]);
      if Gated(finder[e.pos], e.litLen, true) {
        GatedTurn(src, finder, e);
        HeadBounded(src, finder, Turn(src, finder, e), capacity);
        hide CompressFrom;
        MoreAtMost(Decode(CompressFrom(src, finder, e), capacity), |src| - e.pos + e.litLen);
      } else {
        HeadMatches(src, finder, e, capacity);
      }
    }
  }

  lemma MoreAtMost(o: Outcome, n: int)
    ensures forall m: int, fewer: bool, fewer': bool {:trigger AtMost(o, m, fewer), AtMost(o, n, fewer')} ::
              AtMost(o, m, fewer) && m <= n && (fewer' ==> fewer || m < n) ==> AtMost(o, n, fewer')
  {
  }

  // The stream of a source without matches.
  lemma {:induction false} HeadEnds(src: seq<byte>, finder: seq<Advice>, e: Progress, capacity: nat)
    requires TrueFinder(src, finder) && InRange(src, e) && Pending(e) && e.out == [] && e.pos == |src|
    ensures AtMost(Decode(CompressFrom(src, finder, e), capacity), e.litLen, false)
  {
    hide LiteralRun, DecodeFrom, StateOf, Decode, PendingLiterals, Grows;
    var lits := PendingLiterals(src, e);
    EndBounded(src, finder, e, capacity);
    if e.litLen == 0 {
      NothingWritten(CompressFrom(src, finder, e), capacity, lits);
    } else {
      OpeningBounded(CompressFrom(src, finder, e), capacity, lits, 0, false);
    }
  }

  // The run that opens a stream, and the first match.
  lemma {:induction false} HeadMatches(src: seq<byte>, finder: seq<Advice>, e: Progress, capacity: nat)
    requires TrueFinder(src, finder) && InRange(src, e) && Pending(e) && e.out == [] && e.pos < |src|
    requires !Gated(finder[e.pos], e.litLen, true)
    ensures AtMost(Decode(CompressFrom(src, finder, e), capacity), |src| - e.pos + e.litLen,
                   !ShortRuns(src, finder, Turn(src, finder, e)))
  {
    hide LiteralRun, MatchBytes, BetterMatch, DecodeFrom, StateOf, Decode, Bounded, Turn, Gated, PendingLiterals;
    hide AtMost, Grows, ShortRuns;
    var f, next := CompressFrom(src, finder, e), Turn(src, finder, e);
    var fewer := !ShortRuns(src, finder, next);
    NotFirst(finder[e.pos], e.litLen);
    MatchAfter(src, finder, e);
    var s := TailBounded(src, finder, next, capacity);
    MatchBounded(src, finder, e, f, capacity, s, fewer);
    OpeningBounded(f, capacity, PendingLiterals(src, e), |src| - e.pos, fewer);
  }

  lemma NotFirst(a: Advice, litLen: nat)
    requires !Gated(a, litLen, true)
    ensures litLen > 0
  {
  }

  lemma NothingWritten(f: seq<byte>, capacity: nat, lits: seq<byte>)
    requires lits == [] && f == LiteralRun([], lits) + TERMINATOR
    ensures Decode(f, capacity).code != Success
  {
    assert f == [17, 17, 0, 0];
    EmptySource(capacity);
  }

  // ---- The law of the codec

  const START := Progress(0, 0, 0, [])

  // Into any buffer that holds the source, what a true finder makes of it decompresses to it if and only
  // if it is not empty and no run of literals comes to 2^32.
  lemma {:induction false} RoundTrip(src: seq<byte>, finder: seq<Advice>, capacity: nat)
    requires TrueFinder(src, finder) && |src| <= capacity
    ensures Decode(Compressed(src, finder), capacity) == Outcome(Success, src)
            <==> src != [] && ShortRuns(src, finder, START)
  {
    if src == [] {
      assert finder == [];
      EmptySource(capacity);
    } else if ShortRuns(src, finder, START) {
      Head(src, finder, START, capacity);
    } else {
      HeadBounded(src, finder, START, capacity);
    }
  }

  // Below 2^32 bytes every finder will do.
  lemma {:induction false} SmallIsShort(src: seq<byte>, finder: seq<Advice>, e: Progress)
    requires TrueFinder(src, finder) && |src| < UINT32_RANGE && InRange(src, e) && Pending(e)
    ensures ShortRuns(src, finder, e)
    decreases |src| - e.pos
  {
    hide LiteralRun, MatchBytes, BetterMatch, Turn, Gated;
    if e.pos < |src| {
      assert TrueAdvice(src, e.pos, finder[e.pos]);
      if Gated(finder[e.pos], e.litLen, e.out == []) {
        GatedTurn(src, finder, e);
      } else {
        MatchAfter(src, finder, e);
      }
      SmallIsShort(src, finder, Turn(src, finder, e));
    }
  }

  // The finder that never finds a match.
  function NoMatches(n: nat): (finder: seq<Advice>)
    ensures |finder| == n && forall p :: 0 <= p < n ==> finder[p].length == 0
  {
    seq(n, _ => Advice(0, 0, []))
  }

  lemma {:induction false} AllLiterals(src: seq<byte>, e: Progress)
    requires TrueFinder(src, NoMatches(|src|)) && |src| >= UINT32_RANGE
    requires InRange(src, e) && Pending(e) && e.out == [] && e.litLen == e.pos
    ensures !ShortRuns(src, NoMatches(|src|), e)
    decreases |src| - e.pos
  {
    hide LiteralRun, MatchBytes, BetterMatch, Turn, NoMatches;
    var finder := NoMatches(|src|);
    if e.litLen + 1 < UINT32_RANGE {
      GatedTurn(src, finder, e);
      AllLiterals(src, Turn(src, finder, e));
    }
  }

  // So a source survives every true finder if and only if it has between 1 and 2^32 - 1 bytes.
  lemma EveryFinder(src: seq<byte>, capacity: nat)
    requires |src| <= capacity
    ensures (forall finder :: TrueFinder(src, finder) ==>
               Decode(Compressed(src, finder), capacity) == Outcome(Success, src))
            <==> 0 < |src| < UINT32_RANGE
  {
    hide Decode, ShortRuns, Compressed;
    if 0 < |src| < UINT32_RANGE {
      forall finder | TrueFinder(src, finder)
        ensures Decode(Compressed(src, finder), capacity) == Outcome(Success, src)
      {
        SmallIsShort(src, finder, START);
        RoundTrip(src, finder, capacity);
      }
    } else {
      var finder := NoMatches(|src|);
      assert TrueFinder(src, finder);
      if src != [] { AllLiterals(src, START); }
      RoundTrip(src, finder, capacity);
    }
  }

  // Both programs, back to back over buffers of the sizes a caller gives them.
  method CompressThenDecompress(src: seq<byte>, finder: seq<Advice>, packed: array<byte>, unpacked: array<byte>)
    returns (code: EResult, size: nat)
    requires TrueFinder(src, finder)
    requires packed.Length >= CompressWorstSize(|src|) && unpacked.Length >= |src| && packed != unpacked
    modifies packed, unpacked
    ensures size <= unpacked.Length
    ensures code == Success && unpacked[..size] == src <==> src != [] && ShortRuns(src, finder, START)
  {
    WorstSize(src, finder);
    var packedCode, packedSize := Compress(src, finder, packed);
    RoundTrip(src, finder, unpacked.Length);
    code, size := Decompress(packed[..packedSize], unpacked);
  }
}
