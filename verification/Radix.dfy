// radix_sort (src/importer.cpp): four passes of 16 bits, each counted and scattered by several
// threads over chunks. The threads of a pass may take their turns in any order.
module Radix {
  import opened Arithmetic
  import opened Entries
  import opened Sequences

  const BUCKETS := 65536

  // 2^16, 2^32, 2^48
  function ShiftOf(pass: nat): (r: nat)
    ensures r > 0
  {
    if pass == 0 then 1 else BUCKETS * ShiftOf(pass - 1)
  }

  // (key >> shift) & 0xffff
  function Digit(e: Entry, shift: nat): (d: nat)
    requires shift > 0
    ensures d < BUCKETS
  {
    e.hash / shift % BUCKETS
  }

  // How many of the first n entries have digit b, and how many of all entries a smaller one.
  function CountEq(s: seq<Entry>, shift: nat, b: nat, n: nat): (r: nat)
    requires shift > 0 && n <= |s|
    ensures r <= n
  {
    if n == 0 then 0 else CountEq(s, shift, b, n - 1) + if Digit(s[n - 1], shift) == b then 1 else 0
  }

  function CountLess(s: seq<Entry>, shift: nat, b: nat): nat
    requires shift > 0
  {
    if b == 0 then 0 else CountLess(s, shift, b - 1) + CountEq(s, shift, b - 1, |s|)
  }

  // Where a stable sort by this digit puts entry i.
  function Rank(s: seq<Entry>, shift: nat, i: nat): nat
    requires shift > 0 && i < |s|
  {
    CountLess(s, shift, Digit(s[i], shift)) + CountEq(s, shift, Digit(s[i], shift), i)
  }

  lemma {:induction false} CountEqGrows(s: seq<Entry>, shift: nat, b: nat, m: nat, n: nat)
    requires shift > 0 && m <= n <= |s|
    ensures CountEq(s, shift, b, m) <= CountEq(s, shift, b, n)
    ensures m < n && Digit(s[m], shift) == b ==> CountEq(s, shift, b, m) < CountEq(s, shift, b, n)
  {
    if m < n {
      if m < n - 1 { CountEqGrows(s, shift, b, m, n - 1); }
    }
  }

  lemma {:induction false} CountLessGrows(s: seq<Entry>, shift: nat, a: nat, b: nat)
    requires shift > 0 && a < b
    ensures CountLess(s, shift, a) + CountEq(s, shift, a, |s|) <= CountLess(s, shift, b)
  {
    if a < b - 1 { CountLessGrows(s, shift, a, b - 1); }
  }

  // The digits' counts add up, one entry at a time.
  lemma {:induction false} CountLessTotal(s: seq<Entry>, shift: nat, b: nat)
    requires shift > 0
    ensures CountLess(s, shift, b) <= |s|
    ensures b == BUCKETS ==> CountLess(s, shift, b) == |s|
  {
    FewerThan(s, shift, b, |s|);
  }

  function CountBelow(s: seq<Entry>, shift: nat, b: nat, n: nat): (r: nat)
    requires shift > 0 && n <= |s|
    ensures r <= n
  {
    if n == 0 then 0 else CountBelow(s, shift, b, n - 1) + if Digit(s[n - 1], shift) < b then 1 else 0
  }

  lemma {:induction false} FewerThan(s: seq<Entry>, shift: nat, b: nat, n: nat)
    requires shift > 0 && n == |s|
    ensures CountLess(s, shift, b) == CountBelow(s, shift, b, n)
    ensures b == BUCKETS ==> CountBelow(s, shift, b, n) == n
  {
    if b == 0 {
      NoneBelow(s, shift, n);
    } else {
      FewerThan(s, shift, b - 1, n);
      OneMoreDigit(s, shift, b - 1, n);
    }
    if b == BUCKETS { AllBelow(s, shift, n); }
  }

  lemma {:induction false} NoneBelow(s: seq<Entry>, shift: nat, n: nat)
    requires shift > 0 && n <= |s|
    ensures CountBelow(s, shift, 0, n) == 0
  {
    if n > 0 { NoneBelow(s, shift, n - 1); }
  }

  lemma {:induction false} AllBelow(s: seq<Entry>, shift: nat, n: nat)
    requires shift > 0 && n <= |s|
    ensures CountBelow(s, shift, BUCKETS, n) == n
  {
    if n > 0 { AllBelow(s, shift, n - 1); }
  }

  lemma {:induction false} OneMoreDigit(s: seq<Entry>, shift: nat, b: nat, n: nat)
    requires shift > 0 && n <= |s|
    ensures CountBelow(s, shift, b + 1, n) == CountBelow(s, shift, b, n) + CountEq(s, shift, b, n)
  {
    if n > 0 { OneMoreDigit(s, shift, b, n - 1); }
  }

  // Ranks order entries by digit, then by place: distinct slots for distinct entries.
  lemma RankOrders(s: seq<Entry>, shift: nat, i: nat, j: nat)
    requires shift > 0 && i < |s| && j < |s| && i != j
    ensures Rank(s, shift, i) < |s|
    ensures Rank(s, shift, i) < Rank(s, shift, j) <==>
              Digit(s[i], shift) < Digit(s[j], shift) || (Digit(s[i], shift) == Digit(s[j], shift) && i < j)
    ensures Rank(s, shift, i) != Rank(s, shift, j)
  {
    var a, b := Digit(s[i], shift), Digit(s[j], shift);
    RankInside(s, shift, i);
    RankInside(s, shift, j);
    if a < b { CountLessGrows(s, shift, a, b); }
    else if b < a { CountLessGrows(s, shift, b, a); }
    else if i < j { CountEqGrows(s, shift, a, i, j); }
    else { CountEqGrows(s, shift, a, j, i); }
  }

  lemma {:induction false} RankInside(s: seq<Entry>, shift: nat, i: nat)
    requires shift > 0 && i < |s|
    ensures Rank(s, shift, i) < CountLess(s, shift, Digit(s[i], shift)) + CountEq(s, shift, Digit(s[i], shift), |s|)
    ensures Rank(s, shift, i) < |s|
  {
    var d := Digit(s[i], shift);
    CountEqGrows(s, shift, d, i, |s|);
    CountLessTotal(s, shift, d + 1);
  }

  function Ranks(s: seq<Entry>, shift: nat): (r: seq<nat>)
    requires shift > 0
    ensures |r| == |s|
  {
    seq(|s|, i requires 0 <= i < |s| => Rank(s, shift, i))
  }

  lemma RanksPermute(s: seq<Entry>, shift: nat)
    requires shift > 0
    ensures Permutation(Ranks(s, shift))
  {
    forall i | 0 <= i < |s| ensures Rank(s, shift, i) < |s| { RankInside(s, shift, i); }
    forall i, j | 0 <= i < j < |s| ensures Ranks(s, shift)[i] != Ranks(s, shift)[j] { RankOrders(s, shift, i, j); }
  }

  // t is s sorted by one digit, stably.
  ghost predicate SortedPass(s: seq<Entry>, shift: nat, t: seq<Entry>)
    requires shift > 0
  {
    |t| == |s| && forall i :: 0 <= i < |s| ==> Rank(s, shift, i) < |t| && t[Rank(s, shift, i)] == s[i]
  }

  // t lists the entries of s in the order `order`, by the low part of the key and then by place.
  ghost predicate StableBy(s: seq<Entry>, modulus: nat, t: seq<Entry>, order: seq<nat>)
    requires modulus > 0
  {
    && |t| == |order| == |s| && Permutation(order)
    && (forall k :: 0 <= k < |t| ==> order[k] < |s| && t[k] == s[order[k]])
    && (forall k, l :: 0 <= k < l < |t| ==> Ordered(t[k].hash % modulus, order[k], t[l].hash % modulus, order[l]))
  }

  predicate Ordered(key: nat, place: nat, key': nat, place': nat) {
    key < key' || (key == key' && place < place')
  }

  // The low digits and the next one together.
  lemma DigitAndLow(e: Entry, shift: nat)
    requires shift > 0
    ensures BUCKETS * shift > 0 && e.hash % (BUCKETS * shift) == Digit(e, shift) * shift + e.hash % shift
  {
    var q, r := e.hash / shift, e.hash % shift;
    var hi, d := q / BUCKETS, q % BUCKETS;
    assert e.hash == shift * q + r;
    Regroup(shift, q, hi, d);
    Multiples(shift, d, BUCKETS);
    Remainder(e.hash, BUCKETS * shift, hi, d * shift + r);
  }

  lemma Regroup(shift: nat, q: nat, hi: nat, d: nat)
    requires q == BUCKETS * hi + d
    ensures shift * q == (BUCKETS * shift) * hi + d * shift
  {
    assert shift * (BUCKETS * hi + d) == shift * (BUCKETS * hi) + shift * d;
    assert shift * (BUCKETS * hi) == (BUCKETS * shift) * hi;
  }

  lemma LexicographicDigits(d: nat, low: nat, d': nat, low': nat, shift: nat)
    requires shift > 0 && low < shift && low' < shift
    ensures d < d' ==> d * shift + low < d' * shift + low'
    ensures d == d' ==> d * shift == d' * shift
  {
    if d < d' { Multiples(shift, d, d'); }
  }

  // One more pass of a least-significant-digit sort.
  lemma PassExtends(s: seq<Entry>, shift: nat, t: seq<Entry>, order: seq<nat>, u: seq<Entry>) returns (order': seq<nat>)
    requires shift > 0 && StableBy(s, shift, t, order) && SortedPass(t, shift, u)
    ensures BUCKETS * shift > 0 && StableBy(s, BUCKETS * shift, u, order')
  {
    RanksPermute(t, shift);
    var ranks := Ranks(t, shift);
    var from := Inverse(ranks);
    order' := seq(|s|, k requires 0 <= k < |s| => order[from[k]]);
    forall k | 0 <= k < |u| ensures order'[k] < |s| && u[k] == s[order'[k]] && u[k] == t[from[k]] {
      assert ranks[from[k]] == k;
    }
    hide Rank, Digit;
    forall k, l | 0 <= k < l < |u|
      ensures order'[k] != order'[l]
      ensures Ordered(u[k].hash % (BUCKETS * shift), order'[k], u[l].hash % (BUCKETS * shift), order'[l])
    {
      assert ranks[from[k]] == k && ranks[from[l]] == l;
      PairOrdered(s, shift, t, order, from[k], from[l]);
    }
  }

  // Two entries in the order of their ranks are ordered by one digit more.
  lemma PairOrdered(s: seq<Entry>, shift: nat, t: seq<Entry>, order: seq<nat>, i: nat, j: nat)
    requires shift > 0 && StableBy(s, shift, t, order) && i < |t| && j < |t|
    requires Rank(t, shift, i) < Rank(t, shift, j)
    ensures order[i] != order[j] && BUCKETS * shift > 0
    ensures Ordered(t[i].hash % (BUCKETS * shift), order[i], t[j].hash % (BUCKETS * shift), order[j])
  {
    assert i != j;
    if i < j { assert Ordered(t[i].hash % shift, order[i], t[j].hash % shift, order[j]); }
    if j < i { assert Ordered(t[j].hash % shift, order[j], t[i].hash % shift, order[i]); }
    hide StableBy, Permutation;
    RankOrders(t, shift, i, j);
    DigitAndLow(t[i], shift);
    DigitAndLow(t[j], shift);
    LexicographicDigits(Digit(t[i], shift), t[i].hash % shift, Digit(t[j], shift), t[j].hash % shift, shift);
    hide Rank, Digit;
  }

  lemma StartIsStable(s: seq<Entry>)
    ensures StableBy(s, 1, s, Iota(|s|))
  {
  }

  // ---- The passes, as the threads run them

  // Counts of digit b in the chunks of the first t threads.
  method CountChunk(src: array<Entry>, shift: nat, begin: nat, end: nat) returns (counts: seq<nat>)
    requires shift > 0 && begin <= end <= src.Length
    ensures |counts| == BUCKETS
    ensures forall b :: 0 <= b < BUCKETS ==>
              CountEq(src[..], shift, b, begin) + counts[b] == CountEq(src[..], shift, b, end)
  {
    counts := seq(BUCKETS, _ => 0);
    for i := begin to end
      invariant |counts| == BUCKETS
      invariant forall b :: 0 <= b < BUCKETS ==>
                  CountEq(src[..], shift, b, begin) + counts[b] == CountEq(src[..], shift, b, i)
    {
      var bucket := Digit(src[i], shift);
      counts := counts[bucket := counts[bucket] + 1];
    }
  }

  // Where thread t starts each bucket: behind the smaller digits, and behind the same digit in
  // earlier chunks.
  ghost predicate StartsAt(s: seq<Entry>, shift: nat, positions: seq<nat>, done: nat)
    requires shift > 0 && done <= |s|
  {
    && |positions| == BUCKETS
    && forall b :: 0 <= b < BUCKETS ==> positions[b] == CountLess(s, shift, b) + CountEq(s, shift, b, done)
  }

  // counts[t] counts the chunk between borders t and t + 1.
  ghost predicate Chunked(s: seq<Entry>, shift: nat, counts: seq<seq<nat>>, borders: seq<nat>)
    requires shift > 0
  {
    && |borders| == |counts| + 1 && borders[0] == 0 && borders[|counts|] == |s|
    && (forall t :: 0 <= t < |borders| ==> borders[t] <= |s|)
    && (forall t :: 0 <= t < |counts| ==> borders[t] <= borders[t + 1] && |counts[t]| == BUCKETS)
    && (forall t, b :: 0 <= t < |counts| && 0 <= b < BUCKETS ==>
          CountEq(s, shift, b, borders[t]) + counts[t][b] == CountEq(s, shift, b, borders[t + 1]))
  }

  method BucketTotal(ghost s: seq<Entry>, shift: nat, counts: seq<seq<nat>>, ghost borders: seq<nat>, bucket: nat)
    returns (all: nat)
    requires shift > 0 && Chunked(s, shift, counts, borders) && bucket < BUCKETS
    ensures all == CountEq(s, shift, bucket, |s|)
  {
    all := 0;
    for t := 0 to |counts|
      invariant all == CountEq(s, shift, bucket, borders[t])
    {
      all := all + counts[t][bucket];
    }
  }

  method GlobalPositions(ghost s: seq<Entry>, shift: nat, counts: seq<seq<nat>>, ghost borders: seq<nat>)
    returns (positions: seq<nat>)
    requires shift > 0 && Chunked(s, shift, counts, borders)
    ensures StartsAt(s, shift, positions, 0)
  {
    hide Chunked, CountEq, Digit;
    var total := 0;
    positions := [];
    for bucket := 0 to BUCKETS
      invariant |positions| == bucket && total == CountLess(s, shift, bucket)
      invariant forall b :: 0 <= b < bucket ==> positions[b] == CountLess(s, shift, b)
    {
      positions := positions + [total];
      var all := BucketTotal(s, shift, counts, borders, bucket);
      total := total + all;
    }
    NothingBefore(s, shift);
  }

  lemma NothingBefore(s: seq<Entry>, shift: nat)
    requires shift > 0
    ensures forall b :: 0 <= b < BUCKETS ==> CountEq(s, shift, b, 0) == 0
  {
  }

  method ThreadPositions(ghost s: seq<Entry>, shift: nat, counts: seq<seq<nat>>, ghost borders: seq<nat>,
                         global: seq<nat>)
    returns (positions: seq<seq<nat>>)
    requires shift > 0 && Chunked(s, shift, counts, borders) && StartsAt(s, shift, global, 0)
    ensures |positions| == |counts|
    ensures forall t :: 0 <= t < |counts| ==> StartsAt(s, shift, positions[t], borders[t])
  {
    positions := [];
    var next := global;
    for t := 0 to |counts|
      invariant |positions| == t && StartsAt(s, shift, next, borders[t])
      invariant forall u :: 0 <= u < t ==> StartsAt(s, shift, positions[u], borders[u])
    {
      positions := positions + [next];
      next := AddCounts(next, counts[t]);
    }
  }

  function AddCounts(a: seq<nat>, b: seq<nat>): (r: seq<nat>)
    requires |a| == |b|
    ensures |r| == |a| && forall i :: 0 <= i < |a| ==> r[i] == a[i] + b[i]
  {
    seq(|a|, i requires 0 <= i < |a| => a[i] + b[i])
  }

  // A thread between its borders, its next slots right.
  ghost predicate Scattering(s: seq<Entry>, shift: nat, begin: nat, end: nat, cursor: nat, place: seq<nat>)
    requires shift > 0
  {
    begin <= cursor <= end <= |s| && StartsAt(s, shift, place, cursor)
  }

  // The entries begin..cursor-1 are in their slots.
  ghost predicate Scattered(s: seq<Entry>, shift: nat, t: seq<Entry>, begin: nat, cursor: nat)
    requires shift > 0
  {
    cursor <= |s| && forall i :: begin <= i < cursor ==> Rank(s, shift, i) < |t| && t[Rank(s, shift, i)] == s[i]
  }

  // Another entry's write does not touch them.
  lemma WriteElsewhere(s: seq<Entry>, shift: nat, t: seq<Entry>, begin: nat, cursor: nat, i: nat)
    requires shift > 0 && |s| == |t| && i < |s| && !(begin <= i < cursor)
    requires Scattered(s, shift, t, begin, cursor)
    ensures Rank(s, shift, i) < |t| && Scattered(s, shift, t[Rank(s, shift, i) := s[i]], begin, cursor)
  {
    RankInside(s, shift, i);
    forall k | begin <= k < cursor ensures Rank(s, shift, k) != Rank(s, shift, i) { RankOrders(s, shift, k, i); }
  }

  predicate HasWork(borders: seq<nat>, cursor: seq<nat>, t: nat) {
    t < |cursor| && t + 1 < |borders| && cursor[t] < borders[t + 1]
  }

  // One write of thread t's scatter task.
  method ScatterOne(src: array<Entry>, dst: array<Entry>, shift: nat, ghost begin: nat, ghost end: nat, i: nat,
                    place: seq<nat>)
    returns (place': seq<nat>)
    requires shift > 0 && src != dst && src.Length == dst.Length
    requires i < end && Scattering(src[..], shift, begin, end, i, place)
    modifies dst
    ensures Rank(src[..], shift, i) < dst.Length
    ensures dst[..] == old(dst[..])[Rank(src[..], shift, i) := src[i]]
    ensures Scattering(src[..], shift, begin, end, i + 1, place')
  {
    var bucket := Digit(src[i], shift);
    RankInside(src[..], shift, i);
    dst[place[bucket]] := src[i];
    place' := place[bucket := place[bucket] + 1];
  }

  // The scatter tasks in any interleaving of their writes: every slot is written once, by the thread
  // that owns the entry that ranks there.
  method Scatter(src: array<Entry>, dst: array<Entry>, shift: nat, borders: seq<nat>, positions: seq<seq<nat>>)
    requires shift > 0 && src != dst && src.Length == dst.Length
    requires |borders| == |positions| + 1 && borders[0] == 0 && borders[|positions|] == src.Length
    requires forall t :: 0 <= t < |positions| ==>
               Scattering(src[..], shift, borders[t], borders[t + 1], borders[t], positions[t])
    modifies dst
    ensures SortedPass(src[..], shift, dst[..])
  {
    ghost var s := src[..];
    var cursor, place := borders[..|positions|], positions;
    ThreadsStart(s, shift, borders, positions, dst[..]);
    hide Threads, Unscattered, Rank, StartsAt, Scattering, Scattered, SortedPass;
    while exists t :: 0 <= t < |cursor| && HasWork(borders, cursor, t)
      invariant src[..] == s && Threads(s, shift, borders, cursor, place, dst[..])
      decreases Unscattered(borders, cursor)
    {
      var t :| 0 <= t < |cursor| && HasWork(borders, cursor, t);
      cursor, place := ThreadWrites(src, dst, shift, borders, cursor, place, t);
    }
    AllDone(s, shift, borders, cursor, place, dst[..]);
  }

  // One thread's next write.
  method ThreadWrites(src: array<Entry>, dst: array<Entry>, shift: nat, borders: seq<nat>, cursor: seq<nat>,
                      place: seq<seq<nat>>, t: nat)
    returns (cursor': seq<nat>, place': seq<seq<nat>>)
    requires shift > 0 && src != dst && Threads(src[..], shift, borders, cursor, place, dst[..])
    requires t < |cursor| && HasWork(borders, cursor, t)
    modifies dst
    ensures Threads(src[..], shift, borders, cursor', place', dst[..])
    ensures Unscattered(borders, cursor') < Unscattered(borders, cursor)
  {
    hide Unscattered, Rank, StartsAt, Scattered;
    ghost var was := dst[..];
    ThreadAt(src[..], shift, borders, cursor, place, was, t);
    ThreadsFit(src[..], shift, borders, cursor, place, was);
    hide Threads, Scattering;
    var i := cursor[t];
    var next := ScatterOne(src, dst, shift, borders[t], borders[t + 1], i, place[t]);
    ThreadMoves(src[..], shift, borders, cursor, place, was, t, next);
    ScatterAdvances(borders, cursor, t);
    cursor' := cursor[t := i + 1];
    place' := place[t := next];
  }

  lemma ThreadsFit(s: seq<Entry>, shift: nat, borders: seq<nat>, cursor: seq<nat>, place: seq<seq<nat>>, t: seq<Entry>)
    requires shift > 0 && Threads(s, shift, borders, cursor, place, t)
    ensures |s| == |t| && |borders| == |cursor| + 1 == |place| + 1
  {
  }

  // All threads between their borders, what they passed in its slots.
  ghost predicate Threads(s: seq<Entry>, shift: nat, borders: seq<nat>, cursor: seq<nat>, place: seq<seq<nat>>,
                          t: seq<Entry>)
    requires shift > 0
  {
    && |cursor| == |place| && |borders| == |cursor| + 1 && |t| == |s| && borders[0] == 0 && borders[|cursor|] == |s|
    && forall u :: 0 <= u < |cursor| ==>
         && Scattering(s, shift, borders[u], borders[u + 1], cursor[u], place[u])
         && Scattered(s, shift, t, borders[u], cursor[u])
  }

  lemma ThreadsStart(s: seq<Entry>, shift: nat, borders: seq<nat>, positions: seq<seq<nat>>, t: seq<Entry>)
    requires shift > 0 && |borders| == |positions| + 1 && borders[0] == 0 && borders[|positions|] == |s| == |t|
    requires forall u :: 0 <= u < |positions| ==>
               Scattering(s, shift, borders[u], borders[u + 1], borders[u], positions[u])
    ensures Threads(s, shift, borders, borders[..|positions|], positions, t)
  {
    hide StartsAt;
    forall u | 0 <= u < |positions|
      ensures Scattering(s, shift, borders[u], borders[u + 1], borders[..|positions|][u], positions[u])
      ensures Scattered(s, shift, t, borders[u], borders[..|positions|][u])
    {
      assert Scattering(s, shift, borders[u], borders[u + 1], borders[u], positions[u]);
    }
  }

  lemma ThreadAt(s: seq<Entry>, shift: nat, borders: seq<nat>, cursor: seq<nat>, place: seq<seq<nat>>, t: seq<Entry>,
                 u: nat)
    requires shift > 0 && Threads(s, shift, borders, cursor, place, t) && u < |cursor|
    ensures |cursor| == |place| && |borders| == |cursor| + 1
    ensures Scattering(s, shift, borders[u], borders[u + 1], cursor[u], place[u])
    ensures forall v :: 0 <= v < |cursor| ==> borders[v] <= cursor[v] <= borders[v + 1]
  {
    hide StartsAt;
    forall v | 0 <= v < |cursor| ensures borders[v] <= cursor[v] <= borders[v + 1] {
      assert Scattering(s, shift, borders[v], borders[v + 1], cursor[v], place[v]);
    }
  }

  lemma ThreadMoves(s: seq<Entry>, shift: nat, borders: seq<nat>, cursor: seq<nat>, place: seq<seq<nat>>,
                    t: seq<Entry>, u: nat, next: seq<nat>)
    requires shift > 0 && Threads(s, shift, borders, cursor, place, t) && HasWork(borders, cursor, u)
    requires Scattering(s, shift, borders[u], borders[u + 1], cursor[u] + 1, next)
    ensures cursor[u] < |s| && Rank(s, shift, cursor[u]) < |t|
    ensures Threads(s, shift, borders, cursor[u := cursor[u] + 1], place[u := next],
                    t[Rank(s, shift, cursor[u]) := s[cursor[u]]])
  {
    hide Rank, StartsAt;
    var i := cursor[u];
    RankInside(s, shift, i);
    var t' := t[Rank(s, shift, i) := s[i]];
    forall v | 0 <= v < |cursor| ensures borders[v] <= cursor[v] <= borders[v + 1] {
      assert Scattering(s, shift, borders[v], borders[v + 1], cursor[v], place[v]);
    }
    forall v | 0 <= v < |cursor| ensures Scattered(s, shift, t', borders[v], cursor[v := cursor[v]][v]) {
      ChunksApart(borders, cursor, u, v);
      WriteElsewhere(s, shift, t, borders[v], cursor[v], i);
    }
  }

  lemma AllDone(s: seq<Entry>, shift: nat, borders: seq<nat>, cursor: seq<nat>, place: seq<seq<nat>>, t: seq<Entry>)
    requires shift > 0 && Threads(s, shift, borders, cursor, place, t)
    requires forall u :: 0 <= u < |cursor| ==> !HasWork(borders, cursor, u)
    ensures SortedPass(s, shift, t)
  {
    hide Rank, StartsAt;
    forall i | 0 <= i < |s| ensures Rank(s, shift, i) < |t| && t[Rank(s, shift, i)] == s[i] {
      var u := ChunkOf(borders, |cursor|, i);
      assert Scattering(s, shift, borders[u], borders[u + 1], cursor[u], place[u]);
      assert !HasWork(borders, cursor, u);
    }
  }

  // The entry a thread is at belongs to no other thread.
  lemma ChunksApart(borders: seq<nat>, cursor: seq<nat>, t: nat, u: nat)
    requires |borders| == |cursor| + 1 && t < |cursor| && u < |cursor|
    requires forall v :: 0 <= v < |cursor| ==> borders[v] <= cursor[v] <= borders[v + 1]
    requires cursor[t] < borders[t + 1]
    ensures !(borders[u] <= cursor[t] < cursor[u])
  {
    if u < t { BordersAscend(borders, cursor, u + 1, t); }
    if t < u { BordersAscend(borders, cursor, t + 1, u); }
  }

  lemma {:induction false} BordersAscend(borders: seq<nat>, cursor: seq<nat>, a: nat, b: nat)
    requires |borders| == |cursor| + 1 && a <= b < |borders|
    requires forall v :: 0 <= v < |cursor| ==> borders[v] <= cursor[v] <= borders[v + 1]
    ensures borders[a] <= borders[b]
    decreases b - a
  {
    if a < b {
      assert borders[a] <= cursor[a] <= borders[a + 1];
      BordersAscend(borders, cursor, a + 1, b);
    }
  }

  ghost function Unscattered(borders: seq<nat>, cursor: seq<nat>): nat
    decreases |cursor|
  {
    if cursor == [] || |borders| != |cursor| + 1 then 0
    else
      var n := |cursor| - 1;
      Unscattered(borders[..n + 1], cursor[..n]) + if cursor[n] <= borders[n + 1] then borders[n + 1] - cursor[n] else 0
  }

  lemma {:induction false} ScatterAdvances(borders: seq<nat>, cursor: seq<nat>, t: nat)
    requires |borders| == |cursor| + 1 && t < |cursor| && cursor[t] < borders[t + 1]
    requires forall u :: 0 <= u < |cursor| ==> cursor[u] <= borders[u + 1]
    ensures Unscattered(borders, cursor[t := cursor[t] + 1]) < Unscattered(borders, cursor)
    decreases |cursor|
  {
    var n := |cursor| - 1;
    if t < n {
      assert cursor[t := cursor[t] + 1][..n] == cursor[..n][t := cursor[t] + 1];
      ScatterAdvances(borders[..n + 1], cursor[..n], t);
    } else {
      assert cursor[t := cursor[t] + 1][..n] == cursor[..n];
    }
  }

  lemma {:induction false} ChunkOf(borders: seq<nat>, threads: nat, i: nat) returns (t: nat)
    requires |borders| == threads + 1 && borders[0] == 0 && i < borders[threads]
    ensures t < threads && borders[t] <= i < borders[t + 1]
    decreases threads
  {
    if borders[threads - 1] <= i {
      t := threads - 1;
    } else {
      t := ChunkOf(borders[..threads], threads - 1, i);
    }
  }

  // One pass: count, place, scatter.
  method Pass(src: array<Entry>, dst: array<Entry>, shift: nat, chunk: nat)
    requires shift > 0 && src != dst && 0 < src.Length == dst.Length && chunk > 0
    modifies dst
    ensures SortedPass(src[..], shift, dst[..])
  {
    var n := src.Length;
    var counts: seq<seq<nat>>, borders: seq<nat> := [], [0];
    while borders[|counts|] < n
      invariant |borders| == |counts| + 1 && borders[0] == 0 && src[..] == old(src[..])
      invariant forall t :: 0 <= t < |borders| ==> borders[t] <= n
      invariant forall t :: 0 <= t < |counts| ==> borders[t] <= borders[t + 1] && |counts[t]| == BUCKETS
      invariant forall t, b :: 0 <= t < |counts| && 0 <= b < BUCKETS ==>
                  CountEq(src[..], shift, b, borders[t]) + counts[t][b] == CountEq(src[..], shift, b, borders[t + 1])
      decreases n - borders[|counts|]
    {
      var begin := borders[|counts|];
      var end := if begin + chunk < n then begin + chunk else n;
      var c := CountChunk(src, shift, begin, end);
      counts, borders := counts + [c], borders + [end];
    }
    var global := GlobalPositions(src[..], shift, counts, borders);
    var positions := ThreadPositions(src[..], shift, counts, borders, global);
    Scatter(src, dst, shift, borders, positions);
  }

  const KEY_RANGE := 0x1_0000_0000_0000_0000

  function ThreadCount(maxThreads: nat, n: nat): (r: nat)
    ensures r >= 1
  {
    var least := if maxThreads < n then maxThreads else n;
    var capped := if least < 8 then least else 8;
    if capped < 1 then 1 else capped
  }

  // t lists the entries of s sorted by hash, entries with the same hash in their old order.
  ghost predicate StablySorted(s: seq<Entry>, t: seq<Entry>) {
    exists order :: StableBy(s, KEY_RANGE, t, order)
  }

  method RadixSort(offsets: array<Entry>, maxThreads: nat)
    modifies offsets
    ensures StablySorted(old(offsets[..]), offsets[..])
  {
    ghost var s := offsets[..];
    ghost var order := Iota(offsets.Length);
    StartIsStable(s);
    var n := offsets.Length;
    if n < 2 {
      assert StableBy(s, KEY_RANGE, offsets[..], order);
      return;
    }
    var numThreads := ThreadCount(maxThreads, n);
    var chunk := (n + numThreads - 1) / numThreads;
    var temp := new Entry[n];
    var src, dst := offsets, temp;
    var shift := 1;
    for pass := 0 to 4
      invariant shift == ShiftOf(pass) && chunk > 0
      invariant if pass % 2 == 0 then src == offsets && dst == temp else src == temp && dst == offsets
      invariant StableBy(s, shift, src[..], order)
    {
      Pass(src, dst, shift, chunk);
      order := PassExtends(s, shift, src[..], order, dst[..]);
      src, dst := dst, src;
      shift := BUCKETS * shift;
    }
    assert ShiftOf(4) == KEY_RANGE by {
      assert ShiftOf(1) == 65536 && ShiftOf(2) == 0x1_0000_0000 && ShiftOf(3) == 0x1_0000_0000_0000;
    }
  }

  // ---- The low-memory path sorts by hash and offset instead

  predicate LexSorted(t: seq<Entry>) {
    forall k, l :: 0 <= k < l < |t| ==> t[k].hash < t[l].hash || (t[k].hash == t[l].hash && t[k].offset <= t[l].offset)
  }

  lemma {:induction false} Rearranged(s: seq<Entry>, t: seq<Entry>, p: seq<nat>)
    requires |s| == |t| == |p| && Permutation(p) && forall k :: 0 <= k < |t| ==> p[k] < |s| && t[k] == s[p[k]]
    ensures multiset(t) == multiset(s)
  {
    if s != [] {
      var n := |s| - 1;
      var k := PlaceOf(p, n);
      var p', t', s' := p[..k] + p[k + 1..], t[..k] + t[k + 1..], s[..n];
      forall j | 0 <= j < n ensures p'[j] < n && t'[j] == s'[p'[j]] {
        assert p'[j] == (if j < k then p[j] else p[j + 1]);
      }
      Rearranged(s', t', p');
      assert t == t[..k] + [t[k]] + t[k + 1..];
      assert s == s' + [s[n]];
    }
  }

  predicate NotAfter(a: Entry, b: Entry) { a.hash < b.hash || (a.hash == b.hash && a.offset <= b.offset) }

  lemma FirstIsLeast(t: seq<Entry>, x: Entry)
    requires LexSorted(t) && x in t
    ensures NotAfter(t[0], x)
  {
    var i :| 0 <= i < |t| && t[i] == x;
    if i > 0 { assert t[0].hash < t[i].hash || (t[0].hash == t[i].hash && t[0].offset <= t[i].offset); }
  }

  lemma LexTail(t: seq<Entry>)
    requires LexSorted(t) && t != []
    ensures LexSorted(t[1..])
    ensures multiset(t[1..]) == multiset(t) - multiset{t[0]}
  {
    var tail := t[1..];
    forall k, l | 0 <= k < l < |tail|
      ensures tail[k].hash < tail[l].hash || (tail[k].hash == tail[l].hash && tail[k].offset <= tail[l].offset)
    {
      assert tail[k] == t[k + 1] && tail[l] == t[l + 1];
    }
    assert t == [t[0]] + tail;
  }

  lemma {:induction false} LexSortedIsUnique(t: seq<Entry>, u: seq<Entry>)
    requires LexSorted(t) && LexSorted(u) && multiset(t) == multiset(u)
    ensures t == u
  {
    hide LexSorted;
    assert |t| == |multiset(t)| == |multiset(u)| == |u|;
    if t != [] {
      assert t[0] in multiset(t) && u[0] in multiset(u);
      FirstIsLeast(t, u[0]);
      FirstIsLeast(u, t[0]);
      LexTail(t);
      LexTail(u);
      LexSortedIsUnique(t[1..], u[1..]);
      assert t == [t[0]] + t[1..] && u == [u[0]] + u[1..];
    }
  }

  // On entries whose offsets never decrease, as the writers produce them, both paths give the same list.
  lemma BothPathsAgree(s: seq<Entry>, t: seq<Entry>, u: seq<Entry>)
    requires forall i :: 0 <= i < |s| ==> s[i].hash < KEY_RANGE
    requires forall i, j :: 0 <= i < j < |s| ==> s[i].offset <= s[j].offset
    requires StablySorted(s, t)
    requires LexSorted(u) && multiset(u) == multiset(s)
    ensures t == u
  {
    var order :| StableBy(s, KEY_RANGE, t, order);
    Rearranged(s, t, order);
    forall k, l | 0 <= k < l < |t|
      ensures t[k].hash < t[l].hash || (t[k].hash == t[l].hash && t[k].offset <= t[l].offset)
    {
      assert Ordered(t[k].hash % KEY_RANGE, order[k], t[l].hash % KEY_RANGE, order[l]);
      assert t[k].hash % KEY_RANGE == t[k].hash && t[l].hash % KEY_RANGE == t[l].hash;
    }
    LexSortedIsUnique(t, u);
  }
}
