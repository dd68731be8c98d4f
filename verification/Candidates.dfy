// add_terms (src/lookup.cpp): merging the terms of every deinflection into the candidates, each kept
// with the best of the forms that reached it.
module Candidates {
  import opened Options

  type Text = string

  // What a candidate is known by: its expression, and its reading (the normalized one of a pack with a
  // reading normalizer).
  datatype Key = Key(expression: Text, reading: Text)

  // A term of a query: `frequency` is its value in the sort dictionary, `dictRank` the best rank of the
  // dictionaries its glossaries come from.
  datatype RawTerm = RawTerm(
    key: Key, reading: Text, score: real, frequency: Option<int>, hasGlossaries: bool, dictRank: nat)

  // The form-of reference that reached a term.
  datatype Reference = Reference(ruleCount: nat, sequence: nat, confirms: bool)

  // A term reached by a form of the text: its matched length in bytes, the processors' steps, the
  // deinflection's depth, whether its trace starts with a whole-word rule, and the dictionary rank a new
  // candidate starts with.
  datatype Hit = Hit(
    term: RawTerm, matchedLen: nat, form: Text, steps: int, deinflections: nat, reference: Option<Reference>,
    wholeWord: bool, rank: nat)
  {
    // How many rules led to the term: those applied to the form, then those the reference names.
    function Depth(): nat {
      deinflections + if reference.Some? then reference.value.ruleCount else 0
    }

    predicate Confirms() {
      reference.Some? && reference.value.confirms
    }
  }

  const UINT32_MAX := 0xFFFF_FFFF

  // `best` is the hit whose form and trace the candidate keeps.
  datatype Candidate = Candidate(
    best: Hit, rank: nat, confirmedLen: nat, confirmedRank: nat, wholeWordLen: nat)
  {
    predicate Confirmed() { confirmedLen == best.matchedLen }

    predicate WholeWord() { wholeWordLen == best.matchedLen }
  }

  function NewCandidate(h: Hit): Candidate {
    Candidate(h, h.rank, if h.Confirms() then h.matchedLen else 0,
              if h.Confirms() then h.reference.value.sequence else UINT32_MAX,
              if h.wholeWord then h.matchedLen else 0)
  }

  predicate Better(shortest: bool, h: Hit, than: Hit) {
    || h.matchedLen > than.matchedLen
    || (shortest && h.matchedLen == than.matchedLen
        && (h.steps < than.steps || (h.steps == than.steps && h.Depth() < than.Depth())))
  }

  function Max(a: nat, b: nat): nat { if a < b then b else a }

  // One more hit of a candidate's term.
  function Updated(shortest: bool, c: Candidate, h: Hit): Candidate {
    var confirmedLen := if h.Confirms() then Max(c.confirmedLen, h.matchedLen) else c.confirmedLen;
    var confirmedRank :=
      if !h.Confirms() || h.matchedLen < c.confirmedLen then c.confirmedRank
      else if h.matchedLen > c.confirmedLen || h.reference.value.sequence < c.confirmedRank then
        h.reference.value.sequence
      else c.confirmedRank;
    Candidate(if Better(shortest, h, c.best) then h else c.best, c.rank, confirmedLen, confirmedRank,
              if h.wholeWord then Max(c.wholeWordLen, h.matchedLen) else c.wholeWordLen)
  }

  // The candidate all these hits make.
  function Summary(shortest: bool, hits: seq<Hit>): Candidate
    requires hits != []
  {
    var n := |hits| - 1;
    if n == 0 then NewCandidate(hits[0]) else Updated(shortest, Summary(shortest, hits[..n]), hits[n])
  }

  // ---- What the summary of a term's hits says, whatever their order

  // The longest hit, with `shortest` the one with fewest steps and then the shortest trace among the
  // longest, and the first of these.
  ghost predicate IsBest(shortest: bool, hits: seq<Hit>, k: nat) {
    && k < |hits|
    && (forall j :: 0 <= j < |hits| ==> !Better(shortest, hits[j], hits[k]))
    && (forall j :: 0 <= j < k ==> Better(shortest, hits[k], hits[j]))
  }

  // The longest of the hits of a kind, 0 when there is none.
  ghost predicate IsLongest(hits: seq<Hit>, kind: Hit -> bool, length: nat) {
    && (forall j :: 0 <= j < |hits| && kind(hits[j]) ==> hits[j].matchedLen <= length)
    && (length > 0 ==> exists j :: 0 <= j < |hits| && kind(hits[j]) && hits[j].matchedLen == length)
  }

  // The first reference, in the order they were noted, that confirms the term at the longest length.
  ghost predicate IsFirstConfirming(hits: seq<Hit>, length: nat, rank: nat) {
    && (forall j :: 0 <= j < |hits| && hits[j].Confirms() && hits[j].matchedLen == length ==>
          rank <= hits[j].reference.value.sequence)
    && (length > 0 ==>
          exists j :: 0 <= j < |hits| && hits[j].Confirms() && hits[j].matchedLen == length
                      && hits[j].reference.value.sequence == rank)
  }

  const CONFIRMING: Hit -> bool := (h: Hit) => h.Confirms()
  const WHOLE: Hit -> bool := (h: Hit) => h.wholeWord

  // A length is never 0: a prefix of the text has at least a character.
  predicate Proper(hits: seq<Hit>) {
    forall j :: 0 <= j < |hits| ==> hits[j].matchedLen > 0
  }

  lemma {:induction false} SummaryKeepsBest(shortest: bool, hits: seq<Hit>) returns (k: nat)
    requires hits != []
    ensures IsBest(shortest, hits, k) && Summary(shortest, hits).best == hits[k]
  {
    var n := |hits| - 1;
    if n == 0 {
      k := 0;
    } else {
      k := SummaryKeepsBest(shortest, hits[..n]);
      var was := hits[k];
      hide Better, Summary;
      assert forall j :: 0 <= j < n ==> hits[..n][j] == hits[j];
      if Better(shortest, hits[n], was) {
        forall j | 0 <= j < n ensures Better(shortest, hits[n], hits[j]) && !Better(shortest, hits[j], hits[n]) {
          BetterThanAll(shortest, hits[n], was, hits[j]);
        }
        k := n;
      }
    }
  }

  lemma BetterThanAll(shortest: bool, h: Hit, was: Hit, other: Hit)
    requires Better(shortest, h, was) && !Better(shortest, other, was)
    ensures Better(shortest, h, other) && !Better(shortest, other, h)
    ensures !Better(shortest, h, h)
  {
  }

  lemma {:induction false} SummaryLengths(shortest: bool, hits: seq<Hit>)
    requires hits != [] && Proper(hits)
    ensures var c := Summary(shortest, hits);
            && IsLongest(hits, CONFIRMING, c.confirmedLen) && IsLongest(hits, WHOLE, c.wholeWordLen)
            && IsFirstConfirming(hits, c.confirmedLen, c.confirmedRank)
  {
    var n := |hits| - 1;
    var c := Summary(shortest, hits);
    if n == 0 {
      assert CONFIRMING(hits[0]) == hits[0].Confirms() && WHOLE(hits[0]) == hits[0].wholeWord;
    } else {
      SummaryLengths(shortest, hits[..n]);
      var before := Summary(shortest, hits[..n]);
      assert forall j :: 0 <= j < n ==> hits[..n][j] == hits[j];
      OneMoreLength(hits, CONFIRMING, before.confirmedLen, c.confirmedLen);
      OneMoreLength(hits, WHOLE, before.wholeWordLen, c.wholeWordLen);
      OneMoreRank(hits, before.confirmedLen, before.confirmedRank, c.confirmedLen, c.confirmedRank);
    }
  }

  lemma OneMoreLength(hits: seq<Hit>, kind: Hit -> bool, before: nat, after: nat)
    requires hits != [] && IsLongest(hits[..|hits| - 1], kind, before)
    requires after == if kind(hits[|hits| - 1]) then Max(before, hits[|hits| - 1].matchedLen) else before
    ensures IsLongest(hits, kind, after)
  {
    var n := |hits| - 1;
    assert forall j :: 0 <= j < n ==> hits[..n][j] == hits[j];
    if after > 0 {
      if kind(hits[n]) && hits[n].matchedLen == after {
      } else {
        var j :| 0 <= j < n && kind(hits[..n][j]) && hits[..n][j].matchedLen == before;
        assert kind(hits[j]) && hits[j].matchedLen == after;
      }
    }
  }

  lemma OneMoreRank(hits: seq<Hit>, len: nat, rank: nat, len': nat, rank': nat)
    requires hits != [] && Proper(hits)
    requires var n := |hits| - 1;
             && IsLongest(hits[..n], CONFIRMING, len) && IsFirstConfirming(hits[..n], len, rank)
             && len' == (if hits[n].Confirms() then Max(len, hits[n].matchedLen) else len)
             && rank' == (if !hits[n].Confirms() || hits[n].matchedLen < len then rank
                          else if hits[n].matchedLen > len || hits[n].reference.value.sequence < rank
                          then hits[n].reference.value.sequence
                          else rank)
    ensures IsFirstConfirming(hits, len', rank')
  {
    var n := |hits| - 1;
    forall j | 0 <= j < n ensures hits[..n][j] == hits[j] && CONFIRMING(hits[j]) == hits[j].Confirms() { }
    if len' > 0 {
      if hits[n].Confirms() && hits[n].matchedLen == len' && hits[n].reference.value.sequence == rank' {
      } else {
        var j :| 0 <= j < n && hits[..n][j].Confirms() && hits[..n][j].matchedLen == len
                 && hits[..n][j].reference.value.sequence == rank;
        assert hits[j] == hits[..n][j];
      }
    }
  }

  // A candidate is confirmed, or reached by a whole-word trace, exactly when a hit at its matched length
  // says so; never at a length above it.
  lemma {:induction false} ConfirmedMeans(shortest: bool, hits: seq<Hit>)
    requires hits != [] && Proper(hits)
    ensures var c := Summary(shortest, hits);
            && c.confirmedLen <= c.best.matchedLen && c.wholeWordLen <= c.best.matchedLen && c.best.matchedLen > 0
            && (forall j :: 0 <= j < |hits| ==> hits[j].matchedLen <= c.best.matchedLen)
            && (c.Confirmed() <==>
                  exists j :: 0 <= j < |hits| && hits[j].Confirms() && hits[j].matchedLen == c.best.matchedLen)
            && (c.WholeWord() <==>
                  exists j :: 0 <= j < |hits| && hits[j].wholeWord && hits[j].matchedLen == c.best.matchedLen)
  {
    var k := SummaryKeepsBest(shortest, hits);
    SummaryLengths(shortest, hits);
    hide Summary;
    forall j | 0 <= j < |hits|
      ensures hits[j].matchedLen <= hits[k].matchedLen
      ensures CONFIRMING(hits[j]) == hits[j].Confirms() && WHOLE(hits[j]) == hits[j].wholeWord
    {
      assert !Better(shortest, hits[j], hits[k]);
    }
  }

  // ---- The candidates of all the hits so far

  function OfKey(hits: seq<Hit>, key: Key): seq<Hit> {
    if hits == [] then []
    else
      var n := |hits| - 1;
      OfKey(hits[..n], key) + if hits[n].term.key == key then [hits[n]] else []
  }

  predicate Holds(keys: seq<Key>, key: Key) {
    exists i :: 0 <= i < |keys| && keys[i] == key
  }

  // The keys in the order they were first found.
  function FirstKeys(hits: seq<Hit>): seq<Key> {
    if hits == [] then []
    else
      var before, key := FirstKeys(hits[..|hits| - 1]), hits[|hits| - 1].term.key;
      if Holds(before, key) then before else before + [key]
  }

  function KeysOf(candidates: seq<Candidate>): (r: seq<Key>)
    ensures |r| == |candidates| && forall i :: 0 <= i < |r| ==> r[i] == candidates[i].best.term.key
  {
    seq(|candidates|, i requires 0 <= i < |candidates| => candidates[i].best.term.key)
  }

  ghost predicate Summarises(shortest: bool, hits: seq<Hit>, c: Candidate) {
    var own := OfKey(hits, c.best.term.key);
    own != [] && c == Summary(shortest, own)
  }

  // One candidate per key, in the order the keys were found, each the summary of its key's hits.
  ghost predicate Merged(shortest: bool, hits: seq<Hit>, candidates: seq<Candidate>) {
    && KeysOf(candidates) == FirstKeys(hits)
    && forall i :: 0 <= i < |candidates| ==> Summarises(shortest, hits, candidates[i])
  }

  lemma {:induction false} OfKeyAppend(hits: seq<Hit>, h: Hit, key: Key)
    ensures OfKey(hits + [h], key) == OfKey(hits, key) + if h.term.key == key then [h] else []
    ensures FirstKeys(hits + [h]) ==
            if Holds(FirstKeys(hits), h.term.key) then FirstKeys(hits) else FirstKeys(hits) + [h.term.key]
  {
    assert (hits + [h])[..|hits|] == hits;
  }

  lemma {:induction false} OfKeyHas(hits: seq<Hit>, key: Key)
    ensures forall j :: 0 <= j < |OfKey(hits, key)| ==>
              OfKey(hits, key)[j].term.key == key && OfKey(hits, key)[j] in hits
  {
    if hits != [] { OfKeyHas(hits[..|hits| - 1], key); }
  }

  lemma {:induction false} KeyFound(hits: seq<Hit>, key: Key)
    ensures OfKey(hits, key) == [] <==> !Holds(FirstKeys(hits), key)
  {
    if hits != [] {
      var n := |hits| - 1;
      KeyFound(hits[..n], key);
      HoldsAppend(FirstKeys(hits[..n]), hits[n].term.key, key);
      hide Holds;
    }
  }

  lemma HoldsAppend(keys: seq<Key>, more: Key, key: Key)
    ensures Holds(keys + [more], key) <==> Holds(keys, key) || more == key
    ensures !Holds([], key)
  {
    if Holds(keys, key) {
      var i :| 0 <= i < |keys| && keys[i] == key;
      assert (keys + [more])[i] == key;
    }
    assert (keys + [more])[|keys|] == more;
  }

  lemma {:induction false} KeysDiffer(hits: seq<Hit>)
    ensures forall i, j :: 0 <= i < j < |FirstKeys(hits)| ==> FirstKeys(hits)[i] != FirstKeys(hits)[j]
  {
    if hits != [] { KeysDiffer(hits[..|hits| - 1]); }
  }

  lemma OthersKeep(shortest: bool, hits: seq<Hit>, c: Candidate, h: Hit)
    requires Summarises(shortest, hits, c) && c.best.term.key != h.term.key
    ensures Summarises(shortest, hits + [h], c)
  {
    hide Summary, OfKey;
    OfKeyAppend(hits, h, c.best.term.key);
    assert OfKey(hits, c.best.term.key) + [] == OfKey(hits, c.best.term.key);
  }

  lemma OwnUpdates(shortest: bool, hits: seq<Hit>, c: Candidate, h: Hit)
    requires Summarises(shortest, hits, c) && c.best.term.key == h.term.key
    ensures Summarises(shortest, hits + [h], Updated(shortest, c, h))
    ensures Updated(shortest, c, h).best.term.key == h.term.key
  {
    hide Summary, OfKey;
    OfKeyAppend(hits, h, h.term.key);
    SummaryStep(shortest, OfKey(hits, h.term.key), h);
  }

  lemma {:induction false} SummaryStep(shortest: bool, own: seq<Hit>, h: Hit)
    requires own != []
    ensures Summary(shortest, own + [h]) == Updated(shortest, Summary(shortest, own), h)
  {
    hide Updated;
    assert (own + [h])[..|own|] == own;
  }

  lemma {:induction false} NewSummarises(shortest: bool, hits: seq<Hit>, h: Hit)
    requires OfKey(hits, h.term.key) == []
    ensures Summarises(shortest, hits + [h], NewCandidate(h))
  {
    OfKeyAppend(hits, h, h.term.key);
    assert [] + [h] == [h];
    FirstSummary(shortest, h);
    hide Summary, OfKey;
  }

  lemma OneOfKey(shortest: bool, hits: seq<Hit>, candidates: seq<Candidate>, at: nat)
    requires Merged(shortest, hits, candidates) && at < |candidates|
    ensures forall i :: 0 <= i < |candidates| && candidates[i].best.term.key == candidates[at].best.term.key ==> i == at
  {
    KeysDiffer(hits);
    var keys := KeysOf(candidates);
    forall i | 0 <= i < |candidates| && candidates[i].best.term.key == candidates[at].best.term.key ensures i == at {
      assert keys[i] == keys[at];
    }
  }

  // Where the candidate of a hit's key is updated.
  lemma MergeInto(shortest: bool, hits: seq<Hit>, candidates: seq<Candidate>, h: Hit, at: nat)
    requires Merged(shortest, hits, candidates) && at < |candidates| && candidates[at].best.term.key == h.term.key
    ensures Merged(shortest, hits + [h], candidates[at := Updated(shortest, candidates[at], h)])
    ensures KeysOf(candidates[at := Updated(shortest, candidates[at], h)]) == KeysOf(candidates)
  {
    hide Summarises, Updated, FirstKeys, OfKey;
    var after := candidates[at := Updated(shortest, candidates[at], h)];
    KeysDiffer(hits);
    OfKeyAppend(hits, h, h.term.key);
    OwnUpdates(shortest, hits, candidates[at], h);
    var keys := KeysOf(candidates);
    assert keys[at] == h.term.key;
    forall i | 0 <= i < |after| && i != at ensures Summarises(shortest, hits + [h], after[i]) {
      assert keys[i] == candidates[i].best.term.key;
      if i < at { assert keys[i] != keys[at]; } else { assert keys[at] != keys[i]; }
      OthersKeep(shortest, hits, candidates[i], h);
    }
    assert KeysOf(after) == keys;
  }

  lemma MergeNew(shortest: bool, hits: seq<Hit>, candidates: seq<Candidate>, h: Hit)
    requires Merged(shortest, hits, candidates)
    requires forall i :: 0 <= i < |candidates| ==> candidates[i].best.term.key != h.term.key
    ensures Merged(shortest, hits + [h], candidates + [NewCandidate(h)])
  {
    hide Summarises, FirstKeys, OfKey;
    var after := candidates + [NewCandidate(h)];
    forall i | 0 <= i < |KeysOf(candidates)| ensures KeysOf(candidates)[i] != h.term.key { }
    KeyFound(hits, h.term.key);
    OfKeyAppend(hits, h, h.term.key);
    NewSummarises(shortest, hits, h);
    forall i | 0 <= i < |candidates| ensures Summarises(shortest, hits + [h], after[i]) {
      OthersKeep(shortest, hits, candidates[i], h);
    }
    assert KeysOf(after) == KeysOf(candidates) + [h.term.key];
  }

  lemma {:induction false} FirstSummary(shortest: bool, h: Hit)
    ensures Summary(shortest, [h]) == NewCandidate(h)
  {
  }

  // The hits the terms of one query make.
  function HitsOf(terms: seq<RawTerm>, hit: Hit): (r: seq<Hit>)
    ensures |r| == |terms| && forall i :: 0 <= i < |r| ==> r[i] == hit.(term := terms[i])
  {
    seq(|terms|, i requires 0 <= i < |terms| => hit.(term := terms[i]))
  }

  class CandidateSet {
    var candidates: seq<Candidate>
    var index: map<nat, nat>
    const hash: Key -> nat
    const shortest: bool
    ghost var hits: seq<Hit>

    ghost predicate Valid()
      reads this
    {
      && Merged(shortest, hits, candidates) && Proper(hits)
      && (forall i :: 0 <= i < |candidates| ==> hash(candidates[i].best.term.key) in index)
      && (forall h :: h in index ==> index[h] < |candidates|)
    }

    constructor (hash: Key -> nat, shortest: bool)
      ensures Valid() && hits == [] && this.shortest == shortest
    {
      this.hash, this.shortest := hash, shortest;
      candidates, index, hits := [], map[], [];
    }

    // find_candidate: the index knows the first candidate of a hash; the others of that hash are looked for.
    method Find(key: Key) returns (at: Option<nat>)
      requires Valid()
      ensures at.Some? ==> at.value < |candidates| && candidates[at.value].best.term.key == key
      ensures at.None? ==> forall i :: 0 <= i < |candidates| ==> candidates[i].best.term.key != key
    {
      var h := hash(key);
      if h !in index { return None; }
      if candidates[index[h]].best.term.key == key { return Some(index[h]); }
      for i := 0 to |candidates|
        invariant forall j :: 0 <= j < i ==> candidates[j].best.term.key != key
      {
        if candidates[i].best.term.key == key { return Some(i); }
      }
      return None;
    }

    // One term of add_terms' loop.
    method AddTerm(h: Hit)
      requires Valid() && h.matchedLen > 0
      modifies this
      ensures Valid() && hits == old(hits) + [h]
    {
      hide Merged, Updated, NewCandidate;
      var found := Find(h.term.key);
      if found.Some? {
        var at := found.value;
        MergeInto(shortest, hits, candidates, h, at);
        SameKeys(candidates, candidates[at := Updated(shortest, candidates[at], h)]);
        candidates := candidates[at := Updated(shortest, candidates[at], h)];
      } else {
        MergeNew(shortest, hits, candidates, h);
        NewKey(h);
        if hash(h.term.key) !in index {
          index := index[hash(h.term.key) := |candidates|];
        }
        candidates := candidates + [NewCandidate(h)];
      }
      hits := hits + [h];
    }

    // One term of the metadata-only pass, which comes last: it is left out when a term with glossaries
    // is that text with that reading.
    method AddMetadata(h: Hit)
      requires Valid() && Apart(hits) && MetadataOnly(h)
      modifies this
      ensures Valid() && Apart(hits)
      ensures hits == old(hits) + if DefinedAs(old(hits), h.term.key) then [] else [h]
      ensures DefinedAs(old(hits), h.term.key) ==> candidates == old(candidates)
    {
      hide Merged, Apart, DefinedAs;
      var at := Find(h.term.key);
      if at.Some? { OneOfKey(shortest, hits, candidates, at.value); }
      DefinedCandidate(shortest, hits, candidates, h.term.key);
      if at.Some? && candidates[at.value].best.term.hasGlossaries { return; }
      MetadataApart(hits, h);
      AddTerm(h);
    }

    // add_terms: `hit` says how the query's terms were reached.
    method AddTerms(terms: seq<RawTerm>, hit: Hit)
      requires Valid() && hit.matchedLen > 0
      modifies this
      ensures Valid() && hits == old(hits) + HitsOf(terms, hit)
      ensures AllDefined(old(hits)) && AllWithGlossaries(terms) ==> AllDefined(hits) && Apart(hits)
    {
      hide Merged;
      for i := 0 to |terms|
        invariant Valid() && hits == old(hits) + HitsOf(terms, hit)[..i]
      {
        AddTerm(hit.(term := terms[i]));
      }
      assert HitsOf(terms, hit)[..|terms|] == HitsOf(terms, hit);
    }
  }

  // Terms with glossaries and metadata-only terms never share a key, and no reference reaches the latter.
  ghost predicate Apart(hits: seq<Hit>) {
    && (forall j :: 0 <= j < |hits| && !hits[j].term.hasGlossaries ==> hits[j].reference.None?)
    && (forall j, k :: 0 <= j < |hits| && 0 <= k < |hits| && hits[j].term.key == hits[k].term.key ==>
          hits[j].term.hasGlossaries == hits[k].term.hasGlossaries)
  }

  predicate AllWithGlossaries(terms: seq<RawTerm>) {
    forall i :: 0 <= i < |terms| ==> terms[i].hasGlossaries
  }

  predicate AllDefined(hits: seq<Hit>) {
    forall j :: 0 <= j < |hits| ==> hits[j].term.hasGlossaries
  }

  // What the metadata-only pass may add.
  predicate MetadataOnly(h: Hit) {
    h.matchedLen > 0 && !h.term.hasGlossaries && h.reference.None?
  }

  // A term with glossaries has this key.
  predicate DefinedAs(hits: seq<Hit>, key: Key) {
    exists j :: 0 <= j < |hits| && hits[j].term.key == key && hits[j].term.hasGlossaries
  }

  // The candidate's best hit is one of the hits.
  lemma BestIsHit(shortest: bool, hits: seq<Hit>, c: Candidate) returns (k: nat)
    requires Summarises(shortest, hits, c)
    ensures k < |hits| && hits[k] == c.best
  {
    var own := OfKey(hits, c.best.term.key);
    var j := SummaryKeepsBest(shortest, own);
    OfKeyHas(hits, c.best.term.key);
    assert own[j] in hits;
    k :| k < |hits| && hits[k] == own[j];
  }

  // The candidate of a key tells whether a term with glossaries has it.
  lemma DefinedCandidate(shortest: bool, hits: seq<Hit>, candidates: seq<Candidate>, key: Key)
    requires Merged(shortest, hits, candidates) && Apart(hits)
    ensures DefinedAs(hits, key) <==>
            exists i :: 0 <= i < |candidates| && candidates[i].best.term.key == key
                        && candidates[i].best.term.hasGlossaries
  {
    hide Summarises, FirstKeys, OfKey;
    if j :| 0 <= j < |hits| && hits[j].term.key == key && hits[j].term.hasGlossaries {
      HitHasKey(hits, j, |hits|);
      assert hits[..|hits|] == hits;
      var i :| 0 <= i < |KeysOf(candidates)| && KeysOf(candidates)[i] == key;
      var k := BestIsHit(shortest, hits, candidates[i]);
      assert hits[k].term.key == hits[j].term.key;
    }
    if i :| 0 <= i < |candidates| && candidates[i].best.term.key == key && candidates[i].best.term.hasGlossaries {
      var k := BestIsHit(shortest, hits, candidates[i]);
    }
  }

  lemma MetadataApart(hits: seq<Hit>, h: Hit)
    requires Apart(hits) && MetadataOnly(h) && !DefinedAs(hits, h.term.key)
    ensures Apart(hits + [h])
  {
  }

  lemma {:induction false} HitHasKey(hits: seq<Hit>, j: nat, n: nat)
    requires j < n <= |hits|
    ensures Holds(FirstKeys(hits[..n]), hits[j].term.key)
    decreases n
  {
    var before := FirstKeys(hits[..n - 1]);
    assert hits[..n][..n - 1] == hits[..n - 1];
    HoldsAppend(before, hits[n - 1].term.key, hits[j].term.key);
    if j < n - 1 { HitHasKey(hits, j, n - 1); }
    hide Holds;
  }

  lemma NewKey(h: Hit)
    ensures NewCandidate(h).best.term.key == h.term.key
  {
  }

  lemma SameKeys(before: seq<Candidate>, after: seq<Candidate>)
    requires KeysOf(after) == KeysOf(before)
    ensures |after| == |before|
    ensures forall i :: 0 <= i < |after| ==> after[i].best.term.key == before[i].best.term.key
  {
    forall i | 0 <= i < |after| ensures after[i].best.term.key == before[i].best.term.key {
      assert KeysOf(after)[i] == KeysOf(before)[i];
    }
  }
}
