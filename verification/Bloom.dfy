// hash::bloom (src/hash/bloom.cpp, src/hash/bloom.hpp): seven bits per hash in a power of two of
// bits, filled by one thread or by several, each owning a range of words.
module Bloom {
  import opened Word64

  const NUM_HASHES := 7

  // std::bit_ceil of at least ten bits per hash
  function CeilPow2(n: nat, p: nat): (r: nat)
    requires p > 0 && p % 64 == 0
    ensures r >= n && r >= p && r % 64 == 0
    decreases if n > p then n - p else 0
  {
    if p >= n then p else CeilPow2(n, 2 * p)
  }

  function NumBits(hashes: nat): (r: nat)
    ensures r >= 64 && r >= hashes * 10 && r % 64 == 0
  {
    CeilPow2(hashes * 10, 64)
  }

  // Bit k of a hash: (h1 + k * h2) & (bits - 1), the two halves of the hash.
  function Position(hash: nat, k: nat, bits: nat): (p: nat)
    requires bits > 0
    ensures p < bits
  {
    (hash % 0x1_0000_0000 + k * (hash / 0x1_0000_0000 % 0x1_0000_0000)) % bits
  }

  predicate IsSet(words: seq<Word>, p: nat)
    requires p < 64 * |words|
  {
    words[p / 64][p % 64]
  }

  // One of the first k bits of the hash.
  ghost predicate ByHash(hash: nat, bits: nat, k: nat, p: nat)
    requires bits > 0
  {
    exists l :: 0 <= l < k && Position(hash, l, bits) == p
  }

  ghost predicate Wanted(hashes: seq<nat>, bits: nat, p: nat)
    requires bits > 0
  {
    exists i :: 0 <= i < |hashes| && ByHash(hashes[i], bits, NUM_HASHES, p)
  }

  // In the words from `begin` to `end`, exactly the bits of the hashes are set.
  ghost predicate Filled(words: seq<Word>, hashes: seq<nat>, begin: nat, end: nat)
    requires |words| > 0
  {
    && end <= |words|
    && forall p :: 64 * begin <= p < 64 * end ==> (IsSet(words, p) <==> Wanted(hashes, 64 * |words|, p))
  }

  lemma OneMoreHash(hashes: seq<nat>, bits: nat, i: nat, p: nat)
    requires bits > 0 && i < |hashes|
    ensures Wanted(hashes[..i + 1], bits, p) <==>
            Wanted(hashes[..i], bits, p) || ByHash(hashes[i], bits, NUM_HASHES, p)
  {
    if Wanted(hashes[..i], bits, p) {
      var j :| 0 <= j < i && ByHash(hashes[..i][j], bits, NUM_HASHES, p);
      assert hashes[..i + 1][j] == hashes[..i][j];
    }
    if ByHash(hashes[i], bits, NUM_HASHES, p) { assert hashes[..i + 1][i] == hashes[i]; }
  }

  lemma OneMoreBit(hash: nat, bits: nat, k: nat, p: nat)
    requires bits > 0
    ensures ByHash(hash, bits, k + 1, p) <==> ByHash(hash, bits, k, p) || Position(hash, k, bits) == p
  {
    hide Position;
  }

  // What a thread has set: the first i hashes' bits in its words, and the first k of the next one's.
  ghost predicate RangeSoFar(words: seq<Word>, was: seq<Word>, hashes: seq<nat>, begin: nat, end: nat, i: nat, k: nat)
  {
    && |words| == |was| > 0 && i <= |hashes| && (k > 0 ==> i < |hashes|)
    && forall p :: 0 <= p < 64 * |words| ==>
         (IsSet(words, p) <==>
          || IsSet(was, p)
          || (64 * begin <= p < 64 * end &&
              (Wanted(hashes[..i], 64 * |words|, p) || (k > 0 && ByHash(hashes[i], 64 * |words|, k, p)))))
  }

  // set_range: every hash's bits that fall into the words begin..end-1; the other words stay.
  method SetRange(words: array<Word>, hashes: seq<nat>, begin: nat, end: nat)
    requires begin <= end <= words.Length && words.Length > 0
    modifies words
    ensures RangeSoFar(words[..], old(words[..]), hashes, begin, end, |hashes|, 0)
  {
    var bits := 64 * words.Length;
    ghost var was := words[..];
    for i := 0 to |hashes|
      invariant RangeSoFar(words[..], was, hashes, begin, end, i, 0)
    {
      for k := 0 to NUM_HASHES
        invariant RangeSoFar(words[..], was, hashes, begin, end, i, k)
      {
        var bit := Position(hashes[i], k, bits);
        var word := bit / 64;
        ghost var before := words[..];
        if begin <= word < end {
          words[word] := words[word][bit % 64 := true];
        }
        BitKeepsRange(before, words[..], was, hashes, begin, end, i, k);
      }
      HashKeepsRange(words[..], was, hashes, begin, end, i);
    }
  }

  lemma BitKeepsRange(before: seq<Word>, after: seq<Word>, was: seq<Word>, hashes: seq<nat>, begin: nat, end: nat,
                      i: nat, k: nat)
    requires |after| == |before| && i < |hashes| && k < NUM_HASHES && begin <= end <= |was|
    requires RangeSoFar(before, was, hashes, begin, end, i, k)
    requires var bit := Position(hashes[i], k, 64 * |was|);
             after == if begin <= bit / 64 < end then before[bit / 64 := before[bit / 64][bit % 64 := true]] else before
    ensures RangeSoFar(after, was, hashes, begin, end, i, k + 1)
  {
    var bits := 64 * |was|;
    var bit := Position(hashes[i], k, bits);
    hide Position, ByHash, Wanted;
    forall p | 0 <= p < bits
      ensures IsSet(after, p) <==>
              IsSet(was, p) ||
              (64 * begin <= p < 64 * end && (Wanted(hashes[..i], bits, p) || ByHash(hashes[i], bits, k + 1, p)))
    {
      OneMoreBit(hashes[i], bits, k, p);
      if k == 0 { NoBits(hashes[i], bits, p); }
      if p / 64 == bit / 64 && p % 64 == bit % 64 { assert p == bit; }
    }
  }

  lemma NoBits(hash: nat, bits: nat, p: nat)
    requires bits > 0
    ensures !ByHash(hash, bits, 0, p)
  {
  }

  lemma HashKeepsRange(words: seq<Word>, was: seq<Word>, hashes: seq<nat>, begin: nat, end: nat, i: nat)
    requires i < |hashes| && RangeSoFar(words, was, hashes, begin, end, i, NUM_HASHES)
    ensures RangeSoFar(words, was, hashes, begin, end, i + 1, 0)
  {
    hide ByHash, Wanted;
    forall p | 0 <= p < 64 * |words|
      ensures Wanted(hashes[..i + 1], 64 * |words|, p) <==>
              Wanted(hashes[..i], 64 * |words|, p) || ByHash(hashes[i], 64 * |words|, NUM_HASHES, p)
    {
      OneMoreHash(hashes, 64 * |words|, i, p);
    }
  }

  // The words a split filling gives to range r.
  function RangeBegin(words: nat, perRange: nat, r: nat): nat {
    if r * perRange < words then r * perRange else words
  }

  // build_to_file, for a number of ranges: the ranges may finish in any order.
  method BuildFilter(hashes: seq<nat>, ranges: nat) returns (words: array<Word>)
    requires ranges >= 1
    ensures fresh(words) && words.Length == NumBits(|hashes|) / 64 > 0
    ensures Filled(words[..], hashes, 0, words.Length)
  {
    var count := NumBits(|hashes|) / 64;
    words := new Word[count](_ => Zero());
    var perRange := (count + ranges - 1) / ranges;
    var done := seq(ranges, _ => false);
    assert count <= ranges * perRange by { CoversAll(count, ranges); }
    while exists r :: 0 <= r < ranges && !done[r]
      invariant fresh(words) && words.Length == count && |done| == ranges
      invariant forall p :: 0 <= p < 64 * count ==>
                  (IsSet(words[..], p) <==> InDoneRange(done, count, perRange, p) && Wanted(hashes, 64 * count, p))
      decreases Undone(done)
    {
      var r :| 0 <= r < ranges && !done[r];
      ghost var was := words[..];
      RangesAscend(count, perRange, r);
      SetRange(words, hashes, RangeBegin(count, perRange, r), RangeBegin(count, perRange, r + 1));
      assert hashes[..|hashes|] == hashes;
      RangeDone(done, count, perRange, r);
      done := done[r := true];
    }
    forall p | 0 <= p < 64 * count ensures InDoneRange(done, count, perRange, p) {
      SomeRange(done, count, perRange, ranges, p);
    }
  }

  ghost predicate InDoneRange(done: seq<bool>, words: nat, perRange: nat, p: nat) {
    exists r :: 0 <= r < |done| && done[r] && InRange(words, perRange, r, p)
  }

  ghost predicate InRange(words: nat, perRange: nat, r: nat, p: nat) {
    64 * RangeBegin(words, perRange, r) <= p < 64 * RangeBegin(words, perRange, r + 1)
  }

  function Undone(done: seq<bool>): nat {
    if done == [] then 0 else Undone(done[..|done| - 1]) + if done[|done| - 1] then 0 else 1
  }

  lemma {:induction false} UndoneShrinks(done: seq<bool>, r: nat)
    requires r < |done| && !done[r]
    ensures Undone(done[r := true]) < Undone(done)
  {
    var n := |done| - 1;
    if r < n {
      assert done[r := true][..n] == done[..n][r := true];
      UndoneShrinks(done[..n], r);
    } else {
      assert done[r := true][..n] == done[..n];
    }
  }

  lemma CoversAll(count: nat, ranges: nat)
    requires ranges >= 1
    ensures count <= ranges * ((count + ranges - 1) / ranges)
  {
    var x := count + ranges - 1;
    assert x == ranges * (x / ranges) + x % ranges;
  }

  lemma RangesAscend(words: nat, perRange: nat, r: nat)
    ensures RangeBegin(words, perRange, r) <= RangeBegin(words, perRange, r + 1) <= words
  {
    assert (r + 1) * perRange == r * perRange + perRange;
  }

  lemma RangeDone(done: seq<bool>, words: nat, perRange: nat, r: nat)
    requires r < |done| && !done[r]
    ensures Undone(done[r := true]) < Undone(done)
    ensures forall p :: InDoneRange(done[r := true], words, perRange, p) <==>
                        InDoneRange(done, words, perRange, p) || InRange(words, perRange, r, p)
  {
    UndoneShrinks(done, r);
    forall p: nat
      ensures InDoneRange(done[r := true], words, perRange, p) <==>
              InDoneRange(done, words, perRange, p) || InRange(words, perRange, r, p)
    {
      if InDoneRange(done, words, perRange, p) {
        var q :| 0 <= q < |done| && done[q] && InRange(words, perRange, q, p);
        assert done[r := true][q];
      }
      if InRange(words, perRange, r, p) { assert done[r := true][r]; }
    }
  }

  lemma {:induction false} SomeRange(done: seq<bool>, words: nat, perRange: nat, n: nat, p: nat)
    requires n <= |done| && p < 64 * RangeBegin(words, perRange, n)
    requires forall r :: 0 <= r < |done| ==> done[r]
    ensures InDoneRange(done, words, perRange, p)
  {
    if n > 0 && 64 * RangeBegin(words, perRange, n - 1) <= p {
      assert InRange(words, perRange, n - 1, p);
    } else if n > 0 {
      SomeRange(done, words, perRange, n - 1, p);
    }
  }

  // contains
  method Contains(words: array<Word>, hash: nat) returns (r: bool)
    requires words.Length > 0
    ensures r <==> forall k :: 0 <= k < NUM_HASHES ==> IsSet(words[..], Position(hash, k, 64 * words.Length))
  {
    var bits := 64 * words.Length;
    for k := 0 to NUM_HASHES
      invariant forall l :: 0 <= l < k ==> IsSet(words[..], Position(hash, l, bits))
    {
      var bit := Position(hash, k, bits);
      if !words[bit / 64][bit % 64] {
        assert !IsSet(words[..], Position(hash, k, bits));
        return false;
      }
    }
    return true;
  }

  // A filter answers yes for every hash it was built from.
  lemma NoFalseNegative(words: seq<Word>, hashes: seq<nat>, hash: nat)
    requires |words| > 0 && Filled(words, hashes, 0, |words|) && hash in hashes
    ensures forall k :: 0 <= k < NUM_HASHES ==> IsSet(words, Position(hash, k, 64 * |words|))
  {
    var bits := 64 * |words|;
    var i :| 0 <= i < |hashes| && hashes[i] == hash;
    forall k | 0 <= k < NUM_HASHES ensures IsSet(words, Position(hash, k, bits)) {
      assert ByHash(hashes[i], bits, NUM_HASHES, Position(hash, k, bits));
      assert Wanted(hashes, bits, Position(hash, k, bits));
    }
  }

  // However many threads filled them and in whatever order, two filters of the same hashes are the same.
  lemma FillingIsUnique(a: seq<Word>, b: seq<Word>, hashes: seq<nat>)
    requires |a| == |b| > 0 && Filled(a, hashes, 0, |a|) && Filled(b, hashes, 0, |b|)
    ensures a == b
  {
    forall w, i | 0 <= w < |a| && 0 <= i < 64 ensures a[w][i] == b[w][i] {
      assert IsSet(a, 64 * w + i) == IsSet(b, 64 * w + i);
      assert (64 * w + i) / 64 == w && (64 * w + i) % 64 == i;
    }
    forall w | 0 <= w < |a| ensures a[w] == b[w] {
      assert forall i :: 0 <= i < 64 ==> a[w][i] == b[w][i];
    }
  }
}
