// The ranking of candidates (src/lookup.cpp): their standing, the comparator of a dozen keys, and the
// merge of the terms only frequency and pitch dictionaries have.
module Ranking {
  import opened Options
  import opened Candidates

  datatype Settings = Settings(
    follow: bool,            // lookup.formOf "follow"
    ownEntryAfter: bool,     // lookup.ownEntry "afterReferences"
    confirmedByReference: bool,  // lookup.confirmedOrder "references"
    readingsRequired: bool,
    primary: Text,           // the primary reading, "" for none
    byFrequency: bool,
    descending: bool)

  // A candidate with what is set just before sorting.
  datatype Ranked = Ranked(c: Candidate, rankDepth: nat, standing: nat)

  predicate HasGlossaries(c: Candidate) { c.best.term.hasGlossaries }

  function DictRank(c: Candidate): nat {
    if HasGlossaries(c) && c.best.term.dictRank < c.rank then c.best.term.dictRank else c.rank
  }

  function Standing(s: Settings, c: Candidate): nat {
    if !s.follow || !HasGlossaries(c) then 0
    else if c.WholeWord() then (if c.Confirmed() then 4 else 3)
    else if c.Confirmed() then 2
    else 0
  }

  // ---- lookup.ownEntry "afterReferences"

  predicate OwnEntry(c: Candidate) {
    HasGlossaries(c) && c.best.Depth() == 0 && c.best.reference.None? && !c.Confirmed()
  }

  predicate ConfirmedLike(c: Candidate, matchedLen: nat, steps: int) {
    HasGlossaries(c) && c.Confirmed() && c.best.matchedLen == matchedLen && c.best.steps == steps
  }

  // The shortest trace of the confirmed terms with this matched length and these steps.
  function ShortestConfirmed(cs: seq<Candidate>, matchedLen: nat, steps: int): Option<nat> {
    if cs == [] then None
    else
      var n := |cs| - 1;
      var before := ShortestConfirmed(cs[..n], matchedLen, steps);
      if !ConfirmedLike(cs[n], matchedLen, steps) then before
      else if before.Some? && before.value < cs[n].best.Depth() then before
      else Some(cs[n].best.Depth())
  }

  function RankedOf(s: Settings, cs: seq<Candidate>, c: Candidate): Ranked {
    var shortest := ShortestConfirmed(cs, c.best.matchedLen, c.best.steps);
    if s.follow && s.ownEntryAfter && OwnEntry(c) && shortest.Some? then Ranked(c, shortest.value, 1)
    else Ranked(c, c.best.Depth(), Standing(s, c))
  }

  datatype Shortest = Shortest(matchedLen: nat, steps: int, depth: nat)

  predicate Matches(entry: Shortest, c: Candidate) {
    entry.matchedLen == c.best.matchedLen && entry.steps == c.best.steps
  }

  // find_if over the list of shortest confirmed terms
  method FindShortest(list: seq<Shortest>, c: Candidate) returns (at: Option<nat>)
    ensures at.Some? ==> at.value < |list| && Matches(list[at.value], c)
    ensures at.None? ==> forall i :: 0 <= i < |list| ==> !Matches(list[i], c)
  {
    for i := 0 to |list|
      invariant forall j :: 0 <= j < i ==> !Matches(list[j], c)
    {
      if Matches(list[i], c) { return Some(i); }
    }
    return None;
  }

  // The list has one entry per matched length and steps of a confirmed term: its shortest trace.
  ghost predicate Lists(list: seq<Shortest>, cs: seq<Candidate>) {
    && (forall i :: 0 <= i < |list| ==> ShortestConfirmed(cs, list[i].matchedLen, list[i].steps) == Some(list[i].depth))
    && (forall len: nat, steps: int :: ShortestConfirmed(cs, len, steps).Some? ==> Listed(list, len, steps))
  }

  predicate Listed(list: seq<Shortest>, matchedLen: nat, steps: int) {
    exists i :: 0 <= i < |list| && list[i].matchedLen == matchedLen && list[i].steps == steps
  }

  lemma {:induction false} ShortestAppend(cs: seq<Candidate>, c: Candidate, len: nat, steps: int)
    ensures var before := ShortestConfirmed(cs, len, steps);
            ShortestConfirmed(cs + [c], len, steps) ==
            if !ConfirmedLike(c, len, steps) || (before.Some? && before.value < c.best.Depth()) then before
            else Some(c.best.Depth())
  {
    assert (cs + [c])[..|cs|] == cs;
  }

  lemma ListedAppend(list: seq<Shortest>, entry: Shortest, len: nat, steps: int)
    ensures Listed(list + [entry], len, steps) <==>
            Listed(list, len, steps) || (entry.matchedLen == len && entry.steps == steps)
  {
    if Listed(list, len, steps) {
      var i :| 0 <= i < |list| && list[i].matchedLen == len && list[i].steps == steps;
      assert (list + [entry])[i] == list[i];
    }
    assert (list + [entry])[|list|] == entry;
  }

  lemma ListNew(list: seq<Shortest>, cs: seq<Candidate>, c: Candidate)
    requires Lists(list, cs) && HasGlossaries(c) && c.Confirmed()
    requires forall i :: 0 <= i < |list| ==> !Matches(list[i], c)
    ensures Lists(list + [Shortest(c.best.matchedLen, c.best.steps, c.best.Depth())], cs + [c])
  {
    var entry := Shortest(c.best.matchedLen, c.best.steps, c.best.Depth());
    var after := list + [entry];
    assert !Listed(list, entry.matchedLen, entry.steps);
    assert ShortestConfirmed(cs, entry.matchedLen, entry.steps).None?;
    forall len: nat, steps: int | ShortestConfirmed(cs + [c], len, steps).Some? ensures Listed(after, len, steps) {
      ShortestAppend(cs, c, len, steps);
      ListedAppend(list, entry, len, steps);
    }
    forall i | 0 <= i < |after|
      ensures ShortestConfirmed(cs + [c], after[i].matchedLen, after[i].steps) == Some(after[i].depth)
    {
      ShortestAppend(cs, c, after[i].matchedLen, after[i].steps);
      if i < |list| { assert !Matches(list[i], c); }
    }
  }

  lemma ListLower(list: seq<Shortest>, cs: seq<Candidate>, c: Candidate, at: nat)
    requires Lists(list, cs) && HasGlossaries(c) && c.Confirmed() && at < |list| && Matches(list[at], c)
    requires forall i, j :: 0 <= i < j < |list| ==> list[i].(depth := 0) != list[j].(depth := 0)
    ensures var depth := if c.best.Depth() < list[at].depth then c.best.Depth() else list[at].depth;
            Lists(list[at := list[at].(depth := depth)], cs + [c])
  {
    var depth := if c.best.Depth() < list[at].depth then c.best.Depth() else list[at].depth;
    var after := list[at := list[at].(depth := depth)];
    forall len: nat, steps: int | ShortestConfirmed(cs + [c], len, steps).Some? ensures Listed(after, len, steps) {
      ShortestAppend(cs, c, len, steps);
      assert Listed(list, len, steps) by {
        if ConfirmedLike(c, len, steps) { assert list[at].matchedLen == len && list[at].steps == steps; }
      }
      var i :| 0 <= i < |list| && list[i].matchedLen == len && list[i].steps == steps;
      assert after[i].matchedLen == len && after[i].steps == steps;
    }
    forall i | 0 <= i < |after|
      ensures ShortestConfirmed(cs + [c], after[i].matchedLen, after[i].steps) == Some(after[i].depth)
    {
      ShortestAppend(cs, c, list[i].matchedLen, list[i].steps);
      if i < at { assert list[i].(depth := 0) != list[at].(depth := 0); }
      if at < i { assert list[at].(depth := 0) != list[i].(depth := 0); }
    }
  }

  lemma ListSkip(list: seq<Shortest>, cs: seq<Candidate>, c: Candidate)
    requires Lists(list, cs) && !(HasGlossaries(c) && c.Confirmed())
    ensures Lists(list, cs + [c])
  {
    forall len: nat, steps: int ensures ShortestConfirmed(cs + [c], len, steps) == ShortestConfirmed(cs, len, steps) {
      ShortestAppend(cs, c, len, steps);
    }
  }

  method CollectShortest(cs: seq<Candidate>) returns (list: seq<Shortest>)
    ensures Lists(list, cs)
    ensures forall i, j :: 0 <= i < j < |list| ==> list[i].(depth := 0) != list[j].(depth := 0)
  {
    hide Lists, Matches;
    list := [];
    assert cs[..0] == [];
    NothingListed();
    for k := 0 to |cs|
      invariant Lists(list, cs[..k])
      invariant forall i, j :: 0 <= i < j < |list| ==> list[i].(depth := 0) != list[j].(depth := 0)
    {
      var c := cs[k];
      assert cs[..k + 1] == cs[..k] + [c];
      if !HasGlossaries(c) || !c.Confirmed() {
        ListSkip(list, cs[..k], c);
        continue;
      }
      var at := FindShortest(list, c);
      if at.None? {
        ListNew(list, cs[..k], c);
        NewDiffers(list, c);
        list := list + [Shortest(c.best.matchedLen, c.best.steps, c.best.Depth())];
      } else {
        var depth := if c.best.Depth() < list[at.value].depth then c.best.Depth() else list[at.value].depth;
        ListLower(list, cs[..k], c, at.value);
        list := list[at.value := list[at.value].(depth := depth)];
      }
    }
    assert cs[..|cs|] == cs;
  }

  lemma NothingListed()
    ensures Lists([], [])
  {
  }

  lemma NewDiffers(list: seq<Shortest>, c: Candidate)
    requires forall i :: 0 <= i < |list| ==> !Matches(list[i], c)
    ensures forall i :: 0 <= i < |list| ==>
              list[i].(depth := 0) != Shortest(c.best.matchedLen, c.best.steps, c.best.Depth()).(depth := 0)
  {
    forall i | 0 <= i < |list|
      ensures list[i].(depth := 0) != Shortest(c.best.matchedLen, c.best.steps, c.best.Depth()).(depth := 0)
    {
      assert !Matches(list[i], c);
    }
  }

  // The loops before the sort.
  method Settle(s: Settings, cs: seq<Candidate>) returns (ranked: seq<Ranked>)
    ensures |ranked| == |cs| && forall i :: 0 <= i < |cs| ==> ranked[i] == RankedOf(s, cs, cs[i])
  {
    hide ShortestConfirmed;
    var list := [];
    if s.follow && s.ownEntryAfter { list := CollectShortest(cs); }
    ranked := [];
    for k := 0 to |cs|
      invariant |ranked| == k && forall i :: 0 <= i < k ==> ranked[i] == RankedOf(s, cs, cs[i])
    {
      var c := cs[k];
      var r := Ranked(c, c.best.Depth(), Standing(s, c));
      if s.follow && s.ownEntryAfter && OwnEntry(c) {
        var at := FindShortest(list, c);
        if at.Some? {
          r := Ranked(c, list[at.value].depth, 1);
        } else {
          NotListed(list, cs, c);
        }
      }
      ranked := ranked + [r];
    }
  }

  lemma {:induction false} NotListed(list: seq<Shortest>, cs: seq<Candidate>, c: Candidate)
    requires Lists(list, cs) && forall i :: 0 <= i < |list| ==> !Matches(list[i], c)
    ensures ShortestConfirmed(cs, c.best.matchedLen, c.best.steps).None?
  {
  }

  // ---- The comparator

  predicate Primary(s: Settings, r: Ranked) { r.c.best.term.key.reading == s.primary }

  predicate WrittenSo(r: Ranked) { r.c.best.term.key.expression == r.c.best.form }

  predicate ReadAsWritten(r: Ranked) { r.c.best.term.key.expression == r.c.best.term.reading }

  // less; ia and ib are the places of a and b among the candidates.
  predicate Less(s: Settings, a: Ranked, ia: nat, b: Ranked, ib: nat) {
    if s.primary != "" && Primary(s, a) != Primary(s, b) then Primary(s, a)
    else if a.c.best.matchedLen != b.c.best.matchedLen then a.c.best.matchedLen > b.c.best.matchedLen
    else if a.c.best.steps != b.c.best.steps then a.c.best.steps < b.c.best.steps
    else if a.rankDepth != b.rankDepth then a.rankDepth < b.rankDepth
    else if a.standing != b.standing then a.standing > b.standing
    else if WrittenSo(a) != WrittenSo(b) then WrittenSo(a)
    else LessByDictionaries(s, a, ia, b, ib)
  }

  predicate LessByDictionaries(s: Settings, a: Ranked, ia: nat, b: Ranked, ib: nat) {
    var fa, fb := a.c.best.term.frequency, b.c.best.term.frequency;
    if s.byFrequency && fa.Some? != fb.Some? then fa.Some?
    else if s.byFrequency && fa.Some? && fa.value != fb.value then
      if s.descending then fa.value > fb.value else fa.value < fb.value
    else if DictRank(a.c) != DictRank(b.c) then DictRank(a.c) < DictRank(b.c)
    else if a.c.best.term.score != b.c.best.term.score then a.c.best.term.score > b.c.best.term.score
    else if s.readingsRequired && ReadAsWritten(a) != ReadAsWritten(b) then ReadAsWritten(a)
    else if s.follow && s.confirmedByReference && a.c.Confirmed() && b.c.Confirmed()
            && a.c.confirmedRank != b.c.confirmedRank then
      a.c.confirmedRank < b.c.confirmedRank
    else s.follow && ia < ib
  }

  // Among terms that follow references, the standing tells which are confirmed.
  predicate Settled(s: Settings, r: Ranked) {
    s.follow ==> (r.c.Confirmed() <==> r.standing == 2 || r.standing == 4)
  }

  // The comparator as a list of numbers, smaller first.
  function Flag(b: bool): real { if b then 0.0 else 1.0 }

  function Keys(s: Settings, r: Ranked): (k: seq<real>)
    ensures |k| == 6
  {
    var best := r.c.best;
    [if s.primary == "" then 0.0 else Flag(Primary(s, r)), -(best.matchedLen as real), best.steps as real,
     r.rankDepth as real, -(r.standing as real), Flag(WrittenSo(r))]
  }

  function DictionaryKeys(s: Settings, r: Ranked, i: nat): (k: seq<real>)
    ensures |k| == 7
  {
    var term := r.c.best.term;
    var f := term.frequency;
    [if s.byFrequency then Flag(f.Some?) else 0.0,
     if s.byFrequency && f.Some? then (if s.descending then -(f.value as real) else f.value as real) else 0.0,
     DictRank(r.c) as real, -term.score, if s.readingsRequired then Flag(ReadAsWritten(r)) else 0.0,
     if s.follow && s.confirmedByReference && r.c.Confirmed() then r.c.confirmedRank as real else 0.0,
     if s.follow then i as real else 0.0]
  }

  function AllKeys(s: Settings, r: Ranked, i: nat): (k: seq<real>)
    ensures |k| == 13
  {
    Keys(s, r) + DictionaryKeys(s, r, i)
  }

  // Lexicographic order, from place k on.
  predicate LexLess(a: seq<real>, b: seq<real>, k: nat)
    requires |a| == |b| && k <= |a|
    decreases |a| - k
  {
    k < |a| && (a[k] < b[k] || (a[k] == b[k] && LexLess(a, b, k + 1)))
  }

  lemma {:induction false} LexIrreflexive(a: seq<real>, k: nat)
    requires k <= |a|
    ensures !LexLess(a, a, k)
    decreases |a| - k
  {
    if k < |a| { LexIrreflexive(a, k + 1); }
  }

  lemma {:induction false} LexTransitive(a: seq<real>, b: seq<real>, c: seq<real>, k: nat)
    requires |a| == |b| == |c| && k <= |a| && LexLess(a, b, k) && LexLess(b, c, k)
    ensures LexLess(a, c, k)
    decreases |a| - k
  {
    if a[k] == b[k] == c[k] { LexTransitive(a, b, c, k + 1); }
  }

  // Two lists neither of which is before the other are the same from there on.
  lemma {:induction false} LexTies(a: seq<real>, b: seq<real>, k: nat)
    requires |a| == |b| && k <= |a| && !LexLess(a, b, k) && !LexLess(b, a, k)
    ensures a[k..] == b[k..]
    decreases |a| - k
  {
    if k < |a| {
      LexTies(a, b, k + 1);
      assert a[k..] == [a[k]] + a[k + 1..] && b[k..] == [b[k]] + b[k + 1..];
    }
  }

  lemma {:induction false} LexShift(a: seq<real>, b: seq<real>, c: seq<real>, d: seq<real>, k: nat)
    requires |a| == |b| && |c| == |d| && k <= |c|
    ensures LexLess(a + c, b + d, |a| + k) == LexLess(c, d, k)
    decreases |c| - k
  {
    if k < |c| {
      LexShift(a, b, c, d, k + 1);
      assert (a + c)[|a| + k] == c[k] && (b + d)[|a| + k] == d[k];
    }
  }

  lemma DictionariesAreLex(s: Settings, a: Ranked, ia: nat, b: Ranked, ib: nat)
    requires s.follow ==> (a.c.Confirmed() <==> b.c.Confirmed())
    ensures LessByDictionaries(s, a, ia, b, ib) ==
            LexLess(DictionaryKeys(s, a, ia), DictionaryKeys(s, b, ib), 0)
  {
    hide DictRank, ReadAsWritten;
    var k, l := DictionaryKeys(s, a, ia), DictionaryKeys(s, b, ib);
    assert LexLess(k, l, 6) == (k[6] < l[6]);
    assert LexLess(k, l, 5) == (k[5] < l[5] || (k[5] == l[5] && LexLess(k, l, 6)));
    assert LexLess(k, l, 4) == (k[4] < l[4] || (k[4] == l[4] && LexLess(k, l, 5)));
    assert LexLess(k, l, 3) == (k[3] < l[3] || (k[3] == l[3] && LexLess(k, l, 4)));
    assert LexLess(k, l, 2) == (k[2] < l[2] || (k[2] == l[2] && LexLess(k, l, 3)));
    assert LexLess(k, l, 1) == (k[1] < l[1] || (k[1] == l[1] && LexLess(k, l, 2)));
  }

  // The comparator is the lexicographic order of its keys as long as the standing tells the confirmed.
  lemma LessIsLex(s: Settings, a: Ranked, ia: nat, b: Ranked, ib: nat)
    requires Settled(s, a) && Settled(s, b)
    ensures Less(s, a, ia, b, ib) == LexLess(AllKeys(s, a, ia), AllKeys(s, b, ib), 0)
  {
    hide WrittenSo, Primary, LessByDictionaries, DictionaryKeys;
    var k, l := AllKeys(s, a, ia), AllKeys(s, b, ib);
    LexShift(Keys(s, a), Keys(s, b), DictionaryKeys(s, a, ia), DictionaryKeys(s, b, ib), 0);
    assert LexLess(k, l, 5) == (k[5] < l[5] || (k[5] == l[5] && LexLess(k, l, 6)));
    assert LexLess(k, l, 4) == (k[4] < l[4] || (k[4] == l[4] && LexLess(k, l, 5)));
    assert LexLess(k, l, 3) == (k[3] < l[3] || (k[3] == l[3] && LexLess(k, l, 4)));
    assert LexLess(k, l, 2) == (k[2] < l[2] || (k[2] == l[2] && LexLess(k, l, 3)));
    assert LexLess(k, l, 1) == (k[1] < l[1] || (k[1] == l[1] && LexLess(k, l, 2)));
    if a.standing == b.standing { DictionariesAreLex(s, a, ia, b, ib); }
  }

  // ---- A strict weak order

  predicate AllSettled(s: Settings, ranked: seq<Ranked>) {
    forall i :: 0 <= i < |ranked| ==> Settled(s, ranked[i])
  }

  predicate LessAt(s: Settings, ranked: seq<Ranked>, i: nat, j: nat)
    requires i < |ranked| && j < |ranked|
  {
    Less(s, ranked[i], i, ranked[j], j)
  }

  predicate Tied(s: Settings, ranked: seq<Ranked>, i: nat, j: nat)
    requires i < |ranked| && j < |ranked|
  {
    !LessAt(s, ranked, i, j) && !LessAt(s, ranked, j, i)
  }

  // Irreflexive and transitive, ties transitive too; and total for a pack that follows references.
  lemma StrictWeakOrder(s: Settings, ranked: seq<Ranked>, i: nat, j: nat, k: nat)
    requires AllSettled(s, ranked) && i < |ranked| && j < |ranked| && k < |ranked|
    ensures !LessAt(s, ranked, i, i)
    ensures LessAt(s, ranked, i, j) && LessAt(s, ranked, j, k) ==> LessAt(s, ranked, i, k)
    ensures Tied(s, ranked, i, j) && Tied(s, ranked, j, k) ==> Tied(s, ranked, i, k)
    ensures s.follow && i != j ==> LessAt(s, ranked, i, j) || LessAt(s, ranked, j, i)
  {
    hide Less, AllKeys, LexLess;
    var a, b, c := AllKeys(s, ranked[i], i), AllKeys(s, ranked[j], j), AllKeys(s, ranked[k], k);
    LessIsLex(s, ranked[i], i, ranked[i], i);
    LessIsLex(s, ranked[i], i, ranked[j], j);
    LessIsLex(s, ranked[j], j, ranked[i], i);
    LessIsLex(s, ranked[j], j, ranked[k], k);
    LessIsLex(s, ranked[k], k, ranked[j], j);
    LessIsLex(s, ranked[i], i, ranked[k], k);
    LessIsLex(s, ranked[k], k, ranked[i], i);
    LexIrreflexive(a, 0);
    if LexLess(a, b, 0) && LexLess(b, c, 0) { LexTransitive(a, b, c, 0); }
    if Tied(s, ranked, i, j) {
      LexTies(a, b, 0);
      assert a == a[0..] == b[0..] == b;
      if s.follow { PlacesTell(s, ranked[i], i, ranked[j], j); }
    }
    if Tied(s, ranked, j, k) {
      LexTies(b, c, 0);
      assert b == b[0..] == c[0..] == c;
    }
  }

  lemma PlacesTell(s: Settings, a: Ranked, i: nat, b: Ranked, j: nat)
    requires s.follow && AllKeys(s, a, i) == AllKeys(s, b, j)
    ensures i == j
  {
    assert AllKeys(s, a, i)[12] == i as real && AllKeys(s, b, j)[12] == j as real;
  }

  // Every set of candidates that add_terms can build is settled: lengths are never 0, and a term that
  // is only metadata is reached by no reference.
  lemma ReachableIsSettled(s: Settings, shortest: bool, hits: seq<Hit>, candidates: seq<Candidate>, i: nat)
    requires Merged(shortest, hits, candidates) && Proper(hits) && i < |candidates|
    requires Apart(hits)
    ensures Settled(s, RankedOf(s, candidates, candidates[i]))
  {
    var c := candidates[i];
    var own := OfKey(hits, c.best.term.key);
    OfKeyHas(hits, c.best.term.key);
    forall j | 0 <= j < |own| ensures own[j].matchedLen > 0 { assert own[j] in hits; }
    ConfirmedMeans(shortest, own);
    var best := BestIsHit(shortest, hits, c);
    if !HasGlossaries(c) {
      forall j | 0 <= j < |own| ensures !own[j].Confirms() {
        assert own[j] in hits;
        var k :| 0 <= k < |hits| && hits[k] == own[j];
        assert hits[k].term.key == hits[best].term.key;
      }
    }
    hide ShortestConfirmed, Summary, OfKey;
  }

  // ---- From the terms of the queries to the order

  // The terms of one query, and how they were reached.
  datatype Batch = Batch(terms: seq<RawTerm>, hit: Hit)

  // The passes over the text add terms that have glossaries.
  predicate Defining(b: Batch) { b.hit.matchedLen > 0 && AllWithGlossaries(b.terms) }

  function BatchHits(batches: seq<Batch>): seq<Hit> {
    if batches == [] then []
    else
      var n := |batches| - 1;
      BatchHits(batches[..n]) + HitsOf(batches[n].terms, batches[n].hit)
  }

  // The metadata-only terms whose key no term with glossaries has.
  function Undefined(hits: seq<Hit>, metadata: seq<Hit>): seq<Hit> {
    if metadata == [] then []
    else
      var n := |metadata| - 1;
      Undefined(hits, metadata[..n]) + if DefinedAs(hits, metadata[n].term.key) then [] else [metadata[n]]
  }

  lemma {:induction false} BatchStep(batches: seq<Batch>, n: nat)
    requires n < |batches|
    ensures BatchHits(batches[..n + 1]) == BatchHits(batches[..n]) + HitsOf(batches[n].terms, batches[n].hit)
  {
    assert batches[..n + 1][..n] == batches[..n];
  }

  // Metadata-only terms define nothing.
  lemma {:induction false} UndefinedStep(hits: seq<Hit>, metadata: seq<Hit>, n: nat, key: Key)
    requires n <= |metadata| && forall j :: 0 <= j < |metadata| ==> MetadataOnly(metadata[j])
    ensures DefinedAs(hits + Undefined(hits, metadata[..n]), key) <==> DefinedAs(hits, key)
    ensures n < |metadata| ==>
              Undefined(hits, metadata[..n + 1]) ==
              Undefined(hits, metadata[..n]) + if DefinedAs(hits, metadata[n].term.key) then [] else [metadata[n]]
  {
    if n < |metadata| { assert metadata[..n + 1][..n] == metadata[..n]; }
    if n > 0 {
      UndefinedStep(hits, metadata, n - 1, key);
      assert metadata[..n][..n - 1] == metadata[..n - 1];
      var before := Undefined(hits, metadata[..n - 1]);
      hide Undefined;
      if !DefinedAs(hits, metadata[n - 1].term.key) {
        assert hits + (before + [metadata[n - 1]]) == hits + before + [metadata[n - 1]];
        DefinedAppend(hits + before, metadata[n - 1], key);
      } else {
        assert before + [] == before;
      }
    } else {
      assert metadata[..0] == [] && hits + [] == hits;
    }
  }

  lemma DefinedAppend(hits: seq<Hit>, h: Hit, key: Key)
    ensures DefinedAs(hits + [h], key) <==> DefinedAs(hits, key) || (h.term.hasGlossaries && h.term.key == key)
  {
    if j :| 0 <= j < |hits| && hits[j].term.key == key && hits[j].term.hasGlossaries {
      assert (hits + [h])[j] == hits[j];
    }
    assert (hits + [h])[|hits|] == h;
  }

  // The comparator orders the list: strictly, with transitive ties, and totally for a pack that follows
  // references.
  ghost predicate Ordered(s: Settings, ranked: seq<Ranked>) {
    && (forall i :: 0 <= i < |ranked| ==> !LessAt(s, ranked, i, i))
    && (forall i, j, k | 0 <= i < |ranked| && 0 <= j < |ranked| && 0 <= k < |ranked| ::
          LessAt(s, ranked, i, j) && LessAt(s, ranked, j, k) ==> LessAt(s, ranked, i, k))
    && (forall i, j, k | 0 <= i < |ranked| && 0 <= j < |ranked| && 0 <= k < |ranked| ::
          Tied(s, ranked, i, j) && Tied(s, ranked, j, k) ==> Tied(s, ranked, i, k))
    && (s.follow ==> forall i, j :: 0 <= i < j < |ranked| ==> LessAt(s, ranked, i, j) || LessAt(s, ranked, j, i))
  }

  lemma SettledIsOrdered(s: Settings, ranked: seq<Ranked>)
    requires AllSettled(s, ranked)
    ensures Ordered(s, ranked)
  {
    hide LessAt, Tied, AllSettled;
    forall i, j, k | 0 <= i < |ranked| && 0 <= j < |ranked| && 0 <= k < |ranked|
      ensures !LessAt(s, ranked, i, i)
      ensures LessAt(s, ranked, i, j) && LessAt(s, ranked, j, k) ==> LessAt(s, ranked, i, k)
      ensures Tied(s, ranked, i, j) && Tied(s, ranked, j, k) ==> Tied(s, ranked, i, k)
      ensures s.follow && i != j ==> LessAt(s, ranked, i, j) || LessAt(s, ranked, j, i)
    {
      StrictWeakOrder(s, ranked, i, j, k);
    }
    forall i | 0 <= i < |ranked| ensures !LessAt(s, ranked, i, i) { StrictWeakOrder(s, ranked, i, i, i); }
    if s.follow {
      forall i, j | 0 <= i < j < |ranked| ensures LessAt(s, ranked, i, j) || LessAt(s, ranked, j, i) {
        StrictWeakOrder(s, ranked, i, j, j);
      }
    }
  }

  // The passes over the text: every query's terms.
  method AddBatches(terms: CandidateSet, batches: seq<Batch>)
    requires terms.Valid() && terms.hits == []
    requires forall i :: 0 <= i < |batches| ==> Defining(batches[i])
    modifies terms
    ensures terms.Valid() && terms.hits == BatchHits(batches) && Apart(terms.hits)
  {
    hide Merged;
    assert batches[..0] == [] && batches[..|batches|] == batches;
    for i := 0 to |batches|
      invariant terms.Valid() && terms.hits == BatchHits(batches[..i]) && AllDefined(terms.hits)
    {
      BatchStep(batches, i);
      terms.AddTerms(batches[i].terms, batches[i].hit);
    }
  }

  // The metadata-only pass behind them.
  method AddAllMetadata(terms: CandidateSet, metadata: seq<Hit>)
    requires terms.Valid() && Apart(terms.hits)
    requires forall j :: 0 <= j < |metadata| ==> MetadataOnly(metadata[j])
    modifies terms
    ensures terms.Valid() && Apart(terms.hits)
    ensures terms.hits == old(terms.hits) + Undefined(old(terms.hits), metadata)
  {
    hide Merged, Apart, DefinedAs, Undefined;
    ghost var before := terms.hits;
    NoneUndefined(before);
    assert metadata[..0] == [] && metadata[..|metadata|] == metadata;
    for i := 0 to |metadata|
      invariant terms.Valid() && Apart(terms.hits) && terms.hits == before + Undefined(before, metadata[..i])
    {
      UndefinedStep(before, metadata, i, metadata[i].term.key);
      terms.AddMetadata(metadata[i]);
    }
  }

  lemma {:induction false} NoneUndefined(hits: seq<Hit>)
    ensures Undefined(hits, []) == []
  {
  }

  // Whatever the passes find: one candidate per key of the terms with glossaries and of the other terms
  // whose key none of those has, each the summary of its hits; and on these candidates the comparator is
  // a strict weak order.
  method RankTerms(s: Settings, hash: Key -> nat, shortest: bool, batches: seq<Batch>, metadata: seq<Hit>)
    returns (candidates: seq<Candidate>, ranked: seq<Ranked>)
    requires forall i :: 0 <= i < |batches| ==> Defining(batches[i])
    requires forall j :: 0 <= j < |metadata| ==> MetadataOnly(metadata[j])
    ensures var defined := BatchHits(batches);
            Merged(shortest, defined + Undefined(defined, metadata), candidates)
    ensures |ranked| == |candidates|
    ensures forall i :: 0 <= i < |ranked| ==> ranked[i] == RankedOf(s, candidates, candidates[i])
    ensures AllSettled(s, ranked) && Ordered(s, ranked)
  {
    hide Merged, Apart, Undefined, BatchHits, RankedOf, Settled, Ordered;
    var terms := new CandidateSet(hash, shortest);
    AddBatches(terms, batches);
    AddAllMetadata(terms, metadata);
    candidates := terms.candidates;
    ranked := Settle(s, candidates);
    forall i | 0 <= i < |ranked| ensures Settled(s, ranked[i]) {
      ReachableIsSettled(s, shortest, terms.hits, candidates, i);
    }
    SettledIsOrdered(s, ranked);
  }

  // Without a standing that tells the confirmed, the comparator can go in a circle: of three terms that
  // tie on every other key, the first and the last are confirmed and the middle one is not.
  lemma StandingIsNeeded(a: Ranked, b: Ranked, c: Ranked, s: Settings)
    requires s == Settings(true, false, true, false, "", false, false)
    requires a == Ranked(Example(5, 9), 0, 2) && b == Ranked(Example(0, 0), 0, 2) && c == Ranked(Example(5, 1), 0, 2)
    ensures Less(s, a, 0, b, 1) && Less(s, b, 1, c, 2) && Less(s, c, 2, a, 0)
  {
  }

  function Example(confirmedLen: nat, confirmedRank: nat): Candidate {
    var term := RawTerm(Candidates.Key("a", "a"), "a", 0.0, None, true, 0);
    Candidate(Hit(term, 5, "a", 0, 0, None, false, 0), 0, confirmedLen, confirmedRank, 0)
  }

  // ---- The merge of the metadata-only terms

  // by_length: the comparator's first two keys.
  predicate ByLength(s: Settings, a: Ranked, b: Ranked) {
    if s.primary != "" && Primary(s, a) != Primary(s, b) then Primary(s, a)
    else a.c.best.matchedLen > b.c.best.matchedLen
  }

  // A merge that takes from the second list only what belongs before the head of the first.
  function Merge(s: Settings, a: seq<Ranked>, m: seq<Ranked>): (r: seq<Ranked>)
    ensures |r| == |a| + |m|
    decreases |a| + |m|
  {
    if m == [] then a
    else if a == [] then m
    else if ByLength(s, m[0], a[0]) then [m[0]] + Merge(s, a, m[1..])
    else [a[0]] + Merge(s, a[1..], m)
  }

  function Take(n: nat, r: seq<Ranked>): seq<Ranked> {
    if n < |r| then r[..n] else r
  }

  // Cutting the terms with glossaries to the result limit before the merge loses nothing: cut, merge,
  // cut gives what cutting the whole merge gives.
  lemma {:induction false} CutMergeCut(s: Settings, a: seq<Ranked>, m: seq<Ranked>, kept: nat, limit: nat)
    requires limit <= kept
    ensures Take(limit, Merge(s, Take(kept, a), m)) == Take(limit, Merge(s, a, m))
    decreases |a| + |m|
  {
    hide ByLength;
    var cut := Take(kept, a);
    if limit > 0 && m != [] && a != [] {
      if ByLength(s, m[0], a[0]) {
        CutMergeCut(s, a, m[1..], kept, limit - 1);
        assert cut != [] && cut[0] == a[0];
        hide Take;
        TakeMore(limit, m[0], Merge(s, cut, m[1..]));
        TakeMore(limit, m[0], Merge(s, a, m[1..]));
      } else {
        CutMergeCut(s, a[1..], m, kept - 1, limit - 1);
        assert cut != [] && cut[0] == a[0] && cut[1..] == Take(kept - 1, a[1..]);
        hide Take;
        TakeMore(limit, a[0], Merge(s, cut[1..], m));
        TakeMore(limit, a[0], Merge(s, a[1..], m));
      }
    }
  }

  lemma TakeMore(limit: nat, head: Ranked, rest: seq<Ranked>)
    requires limit > 0
    ensures Take(limit, [head] + rest) == [head] + Take(limit - 1, rest)
  {
  }

  function Only(glossaries: bool, r: seq<Ranked>): seq<Ranked> {
    if r == [] then []
    else (if HasGlossaries(r[0].c) == glossaries then [r[0]] else []) + Only(glossaries, r[1..])
  }

  predicate AllOf(glossaries: bool, r: seq<Ranked>) {
    forall i :: 0 <= i < |r| ==> HasGlossaries(r[i].c) == glossaries
  }

  lemma {:induction false} OnlyAll(glossaries: bool, r: seq<Ranked>)
    requires AllOf(glossaries, r)
    ensures Only(glossaries, r) == r && Only(!glossaries, r) == []
  {
    if r != [] { OnlyAll(glossaries, r[1..]); }
  }

  lemma {:induction false} OnlyMore(glossaries: bool, head: Ranked, rest: seq<Ranked>)
    ensures Only(glossaries, [head] + rest) ==
            (if HasGlossaries(head.c) == glossaries then [head] else []) + Only(glossaries, rest)
  {
    assert ([head] + rest)[1..] == rest;
  }

  // The merge keeps both lists' orders: the terms with glossaries stand as they do without the others.
  lemma {:induction false} MergeKeepsOrders(s: Settings, a: seq<Ranked>, m: seq<Ranked>)
    requires AllOf(true, a) && AllOf(false, m)
    ensures Only(true, Merge(s, a, m)) == a && Only(false, Merge(s, a, m)) == m
    decreases |a| + |m|
  {
    hide ByLength, HasGlossaries;
    if m == [] {
      OnlyAll(true, a);
    } else if a == [] {
      OnlyAll(false, m);
    } else if ByLength(s, m[0], a[0]) {
      MergeKeepsOrders(s, a, m[1..]);
      OnlyMore(true, m[0], Merge(s, a, m[1..]));
      OnlyMore(false, m[0], Merge(s, a, m[1..]));
    } else {
      MergeKeepsOrders(s, a[1..], m);
      OnlyMore(true, a[0], Merge(s, a[1..], m));
      OnlyMore(false, a[0], Merge(s, a[1..], m));
    }
  }

  // Sorted by the first two keys, as lists sorted by all the keys are.
  predicate LengthSorted(s: Settings, r: seq<Ranked>) {
    forall i, j :: 0 <= i < j < |r| ==> !ByLength(s, r[j], r[i])
  }

  lemma ByLengthIsWeak(s: Settings, a: Ranked, b: Ranked, c: Ranked)
    ensures ByLength(s, a, c) ==> ByLength(s, a, b) || ByLength(s, b, c)
    ensures !ByLength(s, a, a)
  {
    hide Primary;
  }

  lemma LessSortsLengths(s: Settings, a: Ranked, ia: nat, b: Ranked, ib: nat)
    ensures ByLength(s, a, b) ==> Less(s, a, ia, b, ib)
  {
    hide Primary;
  }

  // A metadata-only term stands before exactly the terms with glossaries that read less far (or lack
  // the primary reading it has).
  ghost predicate Placed(s: Settings, r: seq<Ranked>) {
    forall p, q :: 0 <= p < q < |r| && HasGlossaries(r[p].c) != HasGlossaries(r[q].c) ==>
      if HasGlossaries(r[p].c) then !ByLength(s, r[q], r[p]) else ByLength(s, r[p], r[q])
  }

  lemma {:induction false} MergeMembers(s: Settings, a: seq<Ranked>, m: seq<Ranked>, r: Ranked)
    requires r in Merge(s, a, m)
    ensures r in a || r in m
    decreases |a| + |m|
  {
    hide ByLength;
    if m != [] && a != [] {
      if ByLength(s, m[0], a[0]) {
        if r != m[0] { MergeMembers(s, a, m[1..], r); }
      } else if r != a[0] {
        MergeMembers(s, a[1..], m, r);
      }
    }
  }

  lemma PlacedMore(s: Settings, head: Ranked, rest: seq<Ranked>)
    requires Placed(s, rest)
    requires forall q :: 0 <= q < |rest| && HasGlossaries(head.c) != HasGlossaries(rest[q].c) ==>
               if HasGlossaries(head.c) then !ByLength(s, rest[q], head) else ByLength(s, head, rest[q])
    ensures Placed(s, [head] + rest)
  {
    hide ByLength, HasGlossaries;
    var r := [head] + rest;
    forall p, q | 0 <= p < q < |r| && HasGlossaries(r[p].c) != HasGlossaries(r[q].c)
      ensures if HasGlossaries(r[p].c) then !ByLength(s, r[q], r[p]) else ByLength(s, r[p], r[q])
    {
      assert r[q] == rest[q - 1];
      if p > 0 { assert r[p] == rest[p - 1]; }
    }
  }

  lemma {:induction false} MergePlaces(s: Settings, a: seq<Ranked>, m: seq<Ranked>)
    requires AllOf(true, a) && AllOf(false, m) && LengthSorted(s, a) && LengthSorted(s, m)
    ensures Placed(s, Merge(s, a, m))
    decreases |a| + |m|
  {
    hide ByLength, HasGlossaries;
    if m != [] && a != [] {
      if ByLength(s, m[0], a[0]) {
        MergePlaces(s, a, m[1..]);
        var rest := Merge(s, a, m[1..]);
        forall q | 0 <= q < |rest| && HasGlossaries(rest[q].c) ensures ByLength(s, m[0], rest[q]) {
          MergeMembers(s, a, m[1..], rest[q]);
          var i :| 0 <= i < |a| && a[i] == rest[q];
          ByLengthIsWeak(s, m[0], a[i], a[0]);
        }
        PlacedMore(s, m[0], rest);
      } else {
        MergePlaces(s, a[1..], m);
        var rest := Merge(s, a[1..], m);
        forall q | 0 <= q < |rest| && !HasGlossaries(rest[q].c) ensures !ByLength(s, rest[q], a[0]) {
          MergeMembers(s, a[1..], m, rest[q]);
          var j :| 0 <= j < |m| && m[j] == rest[q];
          ByLengthIsWeak(s, m[j], m[0], a[0]);
        }
        PlacedMore(s, a[0], rest);
      }
    }
  }
}
