// query_raw (src/query.cpp), for one dictionary: from a key to its term records, and why these are
// the records a scan of the whole file would find.
module Query {
  import opened Options
  import opened Bytes
  import opened Entries
  import opened Records
  import opened TermBank
  import opened TermWriter
  import opened TermStore
  import opened OffsetIndex
  import opened DictionaryIndex

  // A record of the key: a term record (0), with the key as its expression or its reading.
  function Visit(f: seq<byte>, offset: nat, key: seq<byte>): Option<seq<Row>> {
    if offset >= |f| then None
    else if f[offset] != 0 then Some([])
    else
      var head :- ReadHead(f, offset + 1);
      if head.expression != key && head.reading != key then Some([])
      else
        var row :- ReadRest(f, head);
        Some([row])
  }

  function VisitAll(f: seq<byte>, offsets: seq<nat>, key: seq<byte>): Option<seq<Row>> {
    if offsets == [] then Some([])
    else
      var before :- VisitAll(f, offsets[..|offsets| - 1], key);
      var last :- Visit(f, offsets[|offsets| - 1], key);
      Some(before + last)
  }

  lemma {:induction false} VisitStep(f: seq<byte>, offsets: seq<nat>, key: seq<byte>, n: nat)
    requires n < |offsets|
    ensures VisitAll(f, offsets[..n + 1], key) ==
            (var before :- VisitAll(f, offsets[..n], key);
             var last :- Visit(f, offsets[n], key);
             Some(before + last))
  {
    hide Visit;
    assert offsets[..n + 1][..n] == offsets[..n];
  }

  lemma {:induction false} VisitStops(f: seq<byte>, offsets: seq<nat>, key: seq<byte>, n: nat)
    requires n <= |offsets| && VisitAll(f, offsets[..n], key).None?
    ensures VisitAll(f, offsets, key).None?
    decreases |offsets| - n
  {
    hide Visit, VisitAll;
    if n < |offsets| {
      VisitStep(f, offsets, key, n);
      VisitStops(f, offsets, key, n + 1);
    } else {
      assert offsets[..n] == offsets;
    }
  }

  // Each offset of a group stands behind its count.
  lemma {:induction false} OffsetAt(f: seq<byte>, p: nat, count: nat, i: nat)
    requires ReadOffsets(f, p, count).Some? && i < count
    ensures ReadLe(f, p + 8 * i, 8) == Some(ReadOffsets(f, p, count).value[i])
  {
    hide ReadLe;
    if i < count - 1 { OffsetAt(f, p, count - 1, i); }
  }

  method WalkRecord(f: seq<byte>, offset: nat, key: seq<byte>) returns (r: Option<seq<Row>>)
    ensures r == Visit(f, offset, key)
  {
    hide ReadHead, ReadRest;
    if offset >= |f| { return None; }
    if f[offset] != 0 { return Some([]); }
    var head := ReadHead(f, offset + 1);
    if head.None? { return None; }
    if head.value.expression != key && head.value.reading != key { return Some([]); }
    var row := WalkRest(f, head.value);
    if row.None? { return None; }
    return Some([row.value]);
  }

  // What a record of the group adds; None when a read leaves the file.
  method QueryDictionary(hash: seq<byte> -> nat, index: Index, key: seq<byte>, ghost entries: seq<Entry>)
    returns (rows: Option<seq<Row>>)
    requires index.Valid(entries) && hash(key) != 0
    requires |entries| < 0x1_0000_0000 && forall i :: 0 <= i < |entries| ==> entries[i].offset < 0x1_0000_0000_0000_0000
    ensures rows == VisitAll(index.blobs, Select(entries, hash(key)), key)
  {
    hide At, PutGroup, Visit, VisitAll, ReadOffsets, ReadLe, Pow256, Select;
    ghost var offsets := Select(entries, hash(key));
    var address := index.Find(hash(key), entries);
    if address == 0 {
      SelectNone(entries, hash(key));
      assert VisitAll(index.blobs, [], key) == Some([]) by { NothingToVisit(index.blobs, key); }
      return Some([]);
    }
    SelectedSmall(entries, hash(key));
    Widths();
    GroupReadsBack(index.blobs, address, offsets);
    var count := ReadLe(index.blobs, address, 4).value;
    var found := [];
    NothingToVisit(index.blobs, key);
    assert offsets[..0] == [];
    for i := 0 to count
      invariant VisitAll(index.blobs, offsets[..i], key) == Some(found)
    {
      OffsetAt(index.blobs, address + 4, count, i);
      var offset := ReadLe(index.blobs, address + 4 + 8 * i, 8).value;
      VisitStep(index.blobs, offsets, key, i);
      var some := WalkRecord(index.blobs, offset, key);
      if some.None? {
        VisitStops(index.blobs, offsets, key, i + 1);
        return None;
      }
      found := found + some.value;
    }
    assert offsets[..count] == offsets;
    return Some(found);
  }

  lemma {:induction false} NothingToVisit(f: seq<byte>, key: seq<byte>)
    ensures VisitAll(f, [], key) == Some([])
  {
  }

  lemma {:induction false} SelectedSmall(entries: seq<Entry>, hash: nat)
    requires forall i :: 0 <= i < |entries| ==> entries[i].offset < 0x1_0000_0000_0000_0000
    ensures |Select(entries, hash)| <= |entries|
    ensures forall i :: 0 <= i < |Select(entries, hash)| ==> Select(entries, hash)[i] < 0x1_0000_0000_0000_0000
  {
    if entries != [] { SelectedSmall(entries[..|entries| - 1], hash); }
  }

  // ---- The linear scan

  predicate Answers(t: Term, key: seq<byte>) {
    t.expression == key || ReadingOf(t) == key
  }

  function RowFor(c: Codec, s: Store, t: Term): Row {
    RowOf(t, if c.hash(t.glossary) in s.table then s.table[c.hash(t.glossary)] else 0,
          |c.compress(t.glossary)|, c.kind(t.glossary))
  }

  // The rows of a scan over all the terms, in import order.
  function LinearScan(c: Codec, s: Store, terms: seq<Term>, key: seq<byte>): seq<Row> {
    if terms == [] then []
    else
      var n := |terms| - 1;
      LinearScan(c, s, terms[..n], key) + if Answers(terms[n], key) then [RowFor(c, s, terms[n])] else []
  }

  // A term whose expression and reading are two texts of one hash is listed twice under it.
  predicate Colliding(c: Codec, t: Term) {
    ReadingOf(t) != t.expression && c.hash(ReadingOf(t)) == c.hash(t.expression)
  }

  // What the index finds: each term of the key, a colliding one twice.
  function RowsOf(c: Codec, s: Store, t: Term, key: seq<byte>): seq<Row> {
    var row := RowFor(c, s, t);
    if !Answers(t, key) then [] else if Colliding(c, t) then [row, row] else [row]
  }

  function IndexScan(c: Codec, s: Store, terms: seq<Term>, key: seq<byte>): seq<Row> {
    if terms == [] then []
    else
      var n := |terms| - 1;
      IndexScan(c, s, terms[..n], key) + RowsOf(c, s, terms[n], key)
  }

  // A term of the key's group: one of its texts hashes as the key.
  predicate InGroup(c: Codec, t: Term, key: seq<byte>) {
    c.hash(t.expression) == c.hash(key) || c.hash(ReadingOf(t)) == c.hash(key)
  }

  ghost predicate HasRoom(c: Codec, s: Store, t: Term) {
    c.hash(t.glossary) in s.table ==> Fits(t, s.table[c.hash(t.glossary)], |c.compress(t.glossary)|)
  }

  // Every field of every record of the key's group has room.
  ghost predicate Roomy(c: Codec, s: Store, key: seq<byte>) {
    forall i :: 0 <= i < |s.terms| && InGroup(c, s.terms[i], key) ==> HasRoom(c, s, s.terms[i])
  }

  lemma RowRead(f: seq<byte>, p: nat, key: seq<byte>, row: Row)
    requires p < |f| && f[p] == 0 && ReadRow(f, p) == Some(row)
    ensures Visit(f, p, key) == Some(if row.expression == key || row.reading == key then [row] else [])
  {
    RowKeepsHead(f, p);
    hide ReadHead, ReadRest;
  }

  // Where a term's record stands.
  lemma TermStands(c: Codec, s: Store, f: seq<byte>, i: nat)
    requires Sound(c, s) && s.file <= f && i < |s.terms|
    ensures |s.starts| == |s.terms| && c.hash(s.terms[i].glossary) in s.table
    ensures var t := s.terms[i];
            At(f, s.starts[i], Encode(t, s.table[c.hash(t.glossary)], |c.compress(t.glossary)|, c.kind(t.glossary)))
  {
    hide RecordOf, At, Encode, EntriesOf, Packed, Fresh, DataSize, UsesHash, TermStore.Ascending;
    var t, p := s.terms[i], s.starts[i];
    assert Stands(c, s, t, p);
    var g := s.table[c.hash(t.glossary)];
    AtFirst(s.file, f[|s.file|..], p, RecordOf(c, t, g));
    assert f == s.file + f[|s.file|..];
    EncodeIsRecord(c, t, g);
  }

  // Visiting a term's record gives its row when it is the key's, and nothing otherwise.
  lemma VisitTerm(c: Codec, s: Store, f: seq<byte>, i: nat, key: seq<byte>)
    requires Sound(c, s) && s.file <= f && i < |s.terms| && HasRoom(c, s, s.terms[i])
    ensures |s.starts| == |s.terms|
    ensures Visit(f, s.starts[i], key) == Some(if Answers(s.terms[i], key) then [RowFor(c, s, s.terms[i])] else [])
  {
    hide Encode, ReadRow, Visit, Fits, At, Sound;
    TermStands(c, s, f, i);
    var t, p := s.terms[i], s.starts[i];
    var g := s.table[c.hash(t.glossary)];
    RecordReadsBack(f, p, t, g, |c.compress(t.glossary)|, c.kind(t.glossary));
    RecordInside(f, p, t, g, |c.compress(t.glossary)|, c.kind(t.glossary));
    RowRead(f, p, key, RowFor(c, s, t));
  }

  // It gives that row only when the record has room.
  lemma RowNeedsRoom(c: Codec, s: Store, f: seq<byte>, i: nat, key: seq<byte>)
    requires Sound(c, s) && s.file <= f && i < |s.terms| && |s.starts| == |s.terms|
    requires Visit(f, s.starts[i], key) == Some([RowFor(c, s, s.terms[i])])
    ensures HasRoom(c, s, s.terms[i])
  {
    hide Encode, Fits, At, Sound, ReadHead, ReadRest;
    TermStands(c, s, f, i);
    var t, p := s.terms[i], s.starts[i];
    var g := s.table[c.hash(t.glossary)];
    RecordReadsBack(f, p, t, g, |c.compress(t.glossary)|, c.kind(t.glossary));
  }

  lemma RecordInside(f: seq<byte>, p: nat, t: Term, g: nat, size: nat, kind: FormOfKind)
    requires At(f, p, Encode(t, g, size, kind))
    ensures p < |f|
  {
  }

  lemma EncodeIsRecord(c: Codec, t: Term, g: nat)
    ensures RecordOf(c, t, g) == Encode(t, g, |c.compress(t.glossary)|, c.kind(t.glossary))
  {
  }

  lemma {:induction false} SelectOne(c: Codec, t: Term, start: nat, hash: nat)
    ensures Select(EntriesFor(c, t, start), hash) ==
            (if c.hash(t.expression) == hash then [start] else [])
            + if ReadingOf(t) != t.expression && c.hash(ReadingOf(t)) == hash then [start] else []
  {
    var first := [Entry(c.hash(t.expression), start)];
    assert Select(first, hash) == if c.hash(t.expression) == hash then [start] else [] by {
      assert first[..0] == [];
    }
    if ReadingOf(t) != t.expression {
      var second := [Entry(c.hash(ReadingOf(t)), start)];
      assert Select(second, hash) == if c.hash(ReadingOf(t)) == hash then [start] else [] by {
        assert second[..0] == [];
      }
      SelectSplits(first, second, hash);
    } else {
      assert first + [] == first;
    }
  }

  lemma {:induction false} VisitSplits(f: seq<byte>, a: seq<nat>, b: seq<nat>, key: seq<byte>, n: nat)
    requires n <= |b|
    ensures VisitAll(f, a + b[..n], key) ==
            (var first :- VisitAll(f, a, key);
             var second :- VisitAll(f, b[..n], key);
             Some(first + second))
  {
    hide Visit, VisitAll;
    if n == 0 {
      assert a + b[..n] == a && b[..n] == [];
      NothingToVisit(f, key);
      if VisitAll(f, a, key).Some? { assert VisitAll(f, a, key).value + [] == VisitAll(f, a, key).value; }
    } else {
      VisitSplits(f, a, b, key, n - 1);
      VisitStep(f, b, key, n - 1);
      var all := a + b[..n];
      VisitStep(f, all, key, |a| + n - 1);
      assert all[..|a| + n] == all && all[..|a| + n - 1] == a + b[..n - 1];
      var first, second, last := VisitAll(f, a, key), VisitAll(f, b[..n - 1], key), Visit(f, b[n - 1], key);
      if first.Some? && second.Some? && last.Some? {
        assert first.value + second.value + last.value == first.value + (second.value + last.value);
      }
    }
  }

  lemma {:induction false} VisitOne(f: seq<byte>, p: nat, key: seq<byte>)
    ensures VisitAll(f, [p], key) == Visit(f, p, key)
    ensures Visit(f, p, key).Some? ==> VisitAll(f, [p, p], key) == Some(Visit(f, p, key).value + Visit(f, p, key).value)
  {
    hide Visit;
    assert [p][..0] == [] && [p, p][..1] == [p];
    NothingToVisit(f, key);
    if Visit(f, p, key).Some? { assert [] + Visit(f, p, key).value == Visit(f, p, key).value; }
  }

  // What visiting a record once, twice or not at all gives.
  lemma {:induction false} VisitTimes(f: seq<byte>, p: nat, key: seq<byte>, rows: seq<Row>)
    requires Visit(f, p, key) == Some(rows)
    ensures VisitAll(f, [], key) == Some([]) && VisitAll(f, [p], key) == Some(rows)
    ensures VisitAll(f, [p, p], key) == Some(rows + rows)
  {
    NothingToVisit(f, key);
    VisitOne(f, p, key);
  }

  // Where the entries of one term lead: to its record, twice for a colliding term of the group.
  lemma EntriesLead(c: Codec, t: Term, start: nat, key: seq<byte>)
    ensures Select(EntriesFor(c, t, start), c.hash(key)) ==
            if !InGroup(c, t, key) then [] else if Colliding(c, t) then [start, start] else [start]
  {
    hide Select, EntriesFor;
    SelectOne(c, t, start, c.hash(key));
  }

  lemma GroupAnswers(c: Codec, s: Store, t: Term, key: seq<byte>)
    ensures !InGroup(c, t, key) ==> RowsOf(c, s, t, key) == []
    ensures var rows := if Answers(t, key) then [RowFor(c, s, t)] else [];
            RowsOf(c, s, t, key) == if Colliding(c, t) then rows + rows else rows
  {
  }

  lemma OneRoomy(c: Codec, s: Store, key: seq<byte>, i: nat)
    requires Roomy(c, s, key) && i < |s.terms| && InGroup(c, s.terms[i], key)
    ensures HasRoom(c, s, s.terms[i])
  {
  }

  // What the entries of one term lead to.
  lemma {:induction false} VisitEntries(c: Codec, s: Store, f: seq<byte>, i: nat, key: seq<byte>)
    requires Sound(c, s) && Roomy(c, s, key) && s.file <= f && i < |s.terms|
    ensures |s.starts| == |s.terms|
    ensures VisitAll(f, Select(EntriesFor(c, s.terms[i], s.starts[i]), c.hash(key)), key)
         == Some(RowsOf(c, s, s.terms[i], key))
  {
    hide *;
    StartsMatch(c, s);
    var t, start := s.terms[i], s.starts[i];
    EntriesLead(c, t, start, key);
    GroupAnswers(c, s, t, key);
    if InGroup(c, t, key) {
      assert HasRoom(c, s, t) by { OneRoomy(c, s, key, i); }
      VisitTerm(c, s, f, i, key);
      VisitTimes(f, start, key, if Answers(t, key) then [RowFor(c, s, t)] else []);
    } else {
      NothingToVisit(f, key);
    }
  }

  lemma {:induction false} ScanStep(c: Codec, s: Store, key: seq<byte>, n: nat)
    requires n < |s.terms|
    ensures IndexScan(c, s, s.terms[..n + 1], key) ==
            IndexScan(c, s, s.terms[..n], key) + RowsOf(c, s, s.terms[n], key)
  {
    hide RowsOf;
    assert s.terms[..n + 1][..n] == s.terms[..n];
  }

  lemma StartsMatch(c: Codec, s: Store)
    requires Sound(c, s)
    ensures |s.starts| == |s.terms|
  {
  }

  lemma {:induction false} NoTermsFound(c: Codec, s: Store, f: seq<byte>, key: seq<byte>)
    ensures VisitAll(f, Select(EntriesOf(c, [], []), c.hash(key)), key) == Some(IndexScan(c, s, [], key))
  {
  }

  // What two lists of entries lead to, one after the other.
  lemma {:induction false} VisitBoth(f: seq<byte>, key: seq<byte>, hash: nat, a: seq<Entry>, b: seq<Entry>,
                                     x: seq<Row>, y: seq<Row>)
    requires VisitAll(f, Select(a, hash), key) == Some(x) && VisitAll(f, Select(b, hash), key) == Some(y)
    ensures VisitAll(f, Select(a + b, hash), key) == Some(x + y)
  {
    hide VisitAll, Select, Visit;
    SelectSplits(a, b, hash);
    var some := Select(b, hash);
    VisitSplits(f, Select(a, hash), some, key, |some|);
    assert some[..|some|] == some;
  }

  lemma {:induction false} TermsFound(c: Codec, s: Store, f: seq<byte>, key: seq<byte>, n: nat)
    requires Sound(c, s) && Roomy(c, s, key) && s.file <= f && n <= |s.terms| == |s.starts|
    ensures VisitAll(f, Select(EntriesOf(c, s.terms[..n], s.starts[..n]), c.hash(key)), key)
         == Some(IndexScan(c, s, s.terms[..n], key))
  {
    hide *;
    if n == 0 {
      assert s.terms[..n] == [] && s.starts[..n] == [];
      NoTermsFound(c, s, f, key);
    } else {
      TermsFound(c, s, f, key, n - 1);
      EntryStep(c, s.terms, s.starts, n - 1);
      VisitEntries(c, s, f, n - 1, key);
      ScanStep(c, s, key, n - 1);
      VisitBoth(f, key, c.hash(key), EntriesOf(c, s.terms[..n - 1], s.starts[..n - 1]),
                EntriesFor(c, s.terms[n - 1], s.starts[n - 1]), IndexScan(c, s, s.terms[..n - 1], key),
                RowsOf(c, s, s.terms[n - 1], key));
    }
  }

  lemma {:induction false} AllTermsFound(c: Codec, s: Store, f: seq<byte>, key: seq<byte>)
    requires Sound(c, s) && Roomy(c, s, key) && s.file <= f
    ensures VisitAll(f, Select(s.offsets, c.hash(key)), key) == Some(IndexScan(c, s, s.terms, key))
  {
    hide VisitAll, Select, IndexScan, EntriesOf, Roomy, Stands, Packed, Fresh, DataSize, UsesHash;
    StartsMatch(c, s);
    var n := |s.terms|;
    assert s.terms[..n] == s.terms && s.starts[..n] == s.starts;
    TermsFound(c, s, f, key, n);
  }

  // Entries of records of other kinds: meta rows and kanji, whose first byte is not 0.
  ghost predicate OfOtherKinds(f: seq<byte>, others: seq<Entry>) {
    forall i :: 0 <= i < |others| ==> others[i].offset < |f| && f[others[i].offset] != 0
  }

  lemma {:induction false} OthersSkipped(f: seq<byte>, others: seq<Entry>, hash: nat, key: seq<byte>, n: nat)
    requires OfOtherKinds(f, others) && n <= |others|
    ensures VisitAll(f, Select(others[..n], hash), key) == Some([])
  {
    if n == 0 {
      NothingToVisit(f, key);
    } else {
      OthersSkipped(f, others, hash, key, n - 1);
      var before, p := Select(others[..n - 1], hash), others[n - 1].offset;
      SelectLast(others, hash, n - 1);
      OtherSkipped(f, p, key);
      hide *;
      VisitOne(f, p, key);
      VisitSplits(f, before, [p], key, 1);
      assert [p][..1] == [p] && before + [] == before;
    }
  }

  lemma {:induction false} SelectLast(entries: seq<Entry>, hash: nat, n: nat)
    requires n < |entries|
    ensures Select(entries[..n + 1], hash) ==
            Select(entries[..n], hash) + if entries[n].hash == hash then [entries[n].offset] else []
  {
    assert entries[..n + 1][..n] == entries[..n];
  }

  lemma OtherSkipped(f: seq<byte>, p: nat, key: seq<byte>)
    requires p < |f| && f[p] != 0
    ensures Visit(f, p, key) == Some([])
  {
  }

  // The index of a dictionary finds, for every key, the term records of the key in import order: for
  // any number of records of other kinds behind the terms, and whatever hashes collide.
  lemma {:induction false} QueryIsIndexScan(c: Codec, s: Store, f: seq<byte>, others: seq<Entry>, key: seq<byte>)
    requires Sound(c, s) && Roomy(c, s, key) && s.file <= f && OfOtherKinds(f, others)
    ensures VisitAll(f, Select(s.offsets + others, c.hash(key)), key) == Some(IndexScan(c, s, s.terms, key))
  {
    hide *;
    AllTermsFound(c, s, f, key);
    OthersSkipped(f, others, c.hash(key), key, |others|);
    assert others[..|others|] == others;
    VisitBoth(f, key, c.hash(key), s.offsets, others, IndexScan(c, s, s.terms, key), []);
    assert IndexScan(c, s, s.terms, key) + [] == IndexScan(c, s, s.terms, key);
  }

  // It is exactly the linear scan unless a term of the key has two texts of one hash.
  lemma {:induction false} IndexIsExact(c: Codec, s: Store, terms: seq<Term>, key: seq<byte>)
    ensures IndexScan(c, s, terms, key) == LinearScan(c, s, terms, key) <==>
            forall i :: 0 <= i < |terms| && Answers(terms[i], key) ==> !Colliding(c, terms[i])
  {
    SizesCompare(c, s, terms, key);
    if forall i :: 0 <= i < |terms| && Answers(terms[i], key) ==> !Colliding(c, terms[i]) {
      ScansCompare(c, s, terms, key);
    }
  }

  lemma {:induction false} SizesCompare(c: Codec, s: Store, terms: seq<Term>, key: seq<byte>)
    ensures |IndexScan(c, s, terms, key)| >= |LinearScan(c, s, terms, key)|
    ensures (exists i :: 0 <= i < |terms| && Answers(terms[i], key) && Colliding(c, terms[i])) ==>
              |IndexScan(c, s, terms, key)| > |LinearScan(c, s, terms, key)|
  {
    if terms != [] {
      var n := |terms| - 1;
      SizesCompare(c, s, terms[..n], key);
      hide RowFor, Answers, Colliding;
      if i :| 0 <= i < |terms| && Answers(terms[i], key) && Colliding(c, terms[i]) {
        if i < n { assert terms[..n][i] == terms[i]; }
      }
    }
  }

  lemma {:induction false} ScansCompare(c: Codec, s: Store, terms: seq<Term>, key: seq<byte>)
    requires forall i :: 0 <= i < |terms| && Answers(terms[i], key) ==> !Colliding(c, terms[i])
    ensures IndexScan(c, s, terms, key) == LinearScan(c, s, terms, key)
  {
    if terms != [] {
      var n := |terms| - 1;
      hide RowFor, Answers, Colliding;
      forall i | 0 <= i < n && Answers(terms[..n][i], key) ensures !Colliding(c, terms[..n][i]) {
        assert terms[..n][i] == terms[i];
      }
      ScansCompare(c, s, terms[..n], key);
    }
  }

  // ---- Exactly when the rows are right

  // No other text of the dictionary hashes as the key.
  predicate Unshared(c: Codec, terms: seq<Term>, key: seq<byte>) {
    forall i :: 0 <= i < |terms| && InGroup(c, terms[i], key) ==> Answers(terms[i], key)
  }

  // What the entries of a term lead to, whether or not its record has room.
  lemma {:induction false} EntriesAtMost(c: Codec, s: Store, f: seq<byte>, i: nat, key: seq<byte>, rows: seq<Row>)
    requires Sound(c, s) && s.file <= f && i < |s.terms| && |s.starts| == |s.terms|
    requires InGroup(c, s.terms[i], key) ==> Answers(s.terms[i], key)
    requires VisitAll(f, Select(EntriesFor(c, s.terms[i], s.starts[i]), c.hash(key)), key) == Some(rows)
    ensures |rows| <= |RowsOf(c, s, s.terms[i], key)|
    ensures rows == RowsOf(c, s, s.terms[i], key) && InGroup(c, s.terms[i], key) ==> HasRoom(c, s, s.terms[i])
  {
    hide Sound, VisitAll, Select, EntriesFor, RowFor, HasRoom;
    var t, start := s.terms[i], s.starts[i];
    EntriesLead(c, t, start, key);
    NothingToVisit(f, key);
    if InGroup(c, t, key) {
      VisitOne(f, start, key);
      VisitTwice(f, start, key);
      VisitAtMostOne(f, start, key);
      hide Visit, InGroup, Colliding;
      var seen := Visit(f, start, key).value;
      if rows == RowsOf(c, s, t, key) {
        assert seen == [rows[0]];
        RowNeedsRoom(c, s, f, i, key);
      }
    }
  }

  lemma {:induction false} VisitTwice(f: seq<byte>, p: nat, key: seq<byte>)
    ensures VisitAll(f, [p, p], key).Some? ==> Visit(f, p, key).Some?
  {
    assert [p, p][..1] == [p] && [p][..0] == [];
  }

  lemma VisitAtMostOne(f: seq<byte>, p: nat, key: seq<byte>)
    ensures Visit(f, p, key).Some? ==> |Visit(f, p, key).value| <= 1
  {
  }

  lemma VisitParts(f: seq<byte>, key: seq<byte>, hash: nat, a: seq<Entry>, b: seq<Entry>, rows: seq<Row>)
    returns (x: seq<Row>, y: seq<Row>)
    requires VisitAll(f, Select(a + b, hash), key) == Some(rows)
    ensures VisitAll(f, Select(a, hash), key) == Some(x) && VisitAll(f, Select(b, hash), key) == Some(y)
    ensures rows == x + y
  {
    hide VisitAll, Select, Visit;
    SelectSplits(a, b, hash);
    var some := Select(b, hash);
    VisitSplits(f, Select(a, hash), some, key, |some|);
    assert some[..|some|] == some;
    x, y := VisitAll(f, Select(a, hash), key).value, VisitAll(f, some, key).value;
  }

  lemma {:induction false} RightNeedsRoom(c: Codec, s: Store, f: seq<byte>, key: seq<byte>, n: nat, rows: seq<Row>)
    requires Sound(c, s) && Unshared(c, s.terms, key) && s.file <= f && n <= |s.terms| == |s.starts|
    requires VisitAll(f, Select(EntriesOf(c, s.terms[..n], s.starts[..n]), c.hash(key)), key) == Some(rows)
    ensures |rows| <= |IndexScan(c, s, s.terms[..n], key)|
    ensures rows == IndexScan(c, s, s.terms[..n], key) ==>
              forall i :: 0 <= i < n && InGroup(c, s.terms[i], key) ==> HasRoom(c, s, s.terms[i])
  {
    hide *;
    if n == 0 {
      assert s.terms[..n] == [] && s.starts[..n] == [];
      NoTermsFound(c, s, f, key);
    } else {
      var t := s.terms[n - 1];
      EntryStep(c, s.terms, s.starts, n - 1);
      ScanStep(c, s, key, n - 1);
      var x, y := VisitParts(f, key, c.hash(key), EntriesOf(c, s.terms[..n - 1], s.starts[..n - 1]),
                             EntriesFor(c, t, s.starts[n - 1]), rows);
      RightNeedsRoom(c, s, f, key, n - 1, x);
      assert InGroup(c, t, key) ==> Answers(t, key) by { OneUnshared(c, s.terms, key, n - 1); }
      EntriesAtMost(c, s, f, n - 1, key, y);
      if rows == IndexScan(c, s, s.terms[..n], key) {
        SameParts(x, y, IndexScan(c, s, s.terms[..n - 1], key), RowsOf(c, s, t, key));
      }
    }
  }

  lemma OneUnshared(c: Codec, terms: seq<Term>, key: seq<byte>, i: nat)
    requires Unshared(c, terms, key) && i < |terms|
    ensures InGroup(c, terms[i], key) ==> Answers(terms[i], key)
  {
  }

  lemma SameParts(x: seq<Row>, y: seq<Row>, x': seq<Row>, y': seq<Row>)
    requires x + y == x' + y' && |x| <= |x'| && |y| <= |y'|
    ensures x == x' && y == y'
  {
    assert x == (x + y)[..|x|] && x' == (x' + y')[..|x'|];
    assert y == (x + y)[|x|..] && y' == (x' + y')[|x'|..];
  }

  // For a key whose hash no other text has, the rows are those of its terms if and only if every field
  // of the records has room.
  lemma {:induction false} RightExactly(c: Codec, s: Store, f: seq<byte>, others: seq<Entry>, key: seq<byte>)
    requires Sound(c, s) && s.file <= f && OfOtherKinds(f, others) && Unshared(c, s.terms, key)
    ensures VisitAll(f, Select(s.offsets + others, c.hash(key)), key) == Some(IndexScan(c, s, s.terms, key))
            <==> Roomy(c, s, key)
  {
    hide *;
    var n, rows := |s.terms|, IndexScan(c, s, s.terms, key);
    if VisitAll(f, Select(s.offsets + others, c.hash(key)), key) == Some(rows) {
      var x, y := VisitParts(f, key, c.hash(key), s.offsets, others, rows);
      OthersSkipped(f, others, c.hash(key), key, |others|);
      assert others[..|others|] == others && x + [] == x;
      StartsMatch(c, s);
      OffsetsAre(c, s);
      assert s.terms[..n] == s.terms && s.starts[..n] == s.starts;
      RightNeedsRoom(c, s, f, key, n, x);
      AllRoomy(c, s, key);
    }
    if Roomy(c, s, key) { QueryIsIndexScan(c, s, f, others, key); }
  }

  lemma AllRoomy(c: Codec, s: Store, key: seq<byte>)
    requires forall i :: 0 <= i < |s.terms| && InGroup(c, s.terms[i], key) ==> HasRoom(c, s, s.terms[i])
    ensures Roomy(c, s, key)
  {
  }

  lemma {:induction false} OffsetsAre(c: Codec, s: Store)
    requires Sound(c, s)
    ensures |s.starts| == |s.terms| && s.offsets == EntriesOf(c, s.terms, s.starts)
  {
  }

  lemma TermOffsetsSmall(c: Codec, s: Store, others: seq<Entry>, limit: nat)
    requires Sound(c, s) && |s.file| <= limit && forall i :: 0 <= i < |others| ==> others[i].offset < limit
    ensures forall i :: 0 <= i < |s.offsets + others| ==> (s.offsets + others)[i].offset < limit
  {
    OffsetsNeverDecrease(c, s);
    hide Sound;
  }

  // From the store of an import and the index over it, a query answers with the terms of the key: all
  // of them, in import order, as a linear scan would.
  method FindTerms(c: Codec, index: Index, key: seq<byte>, ghost s: Store, ghost others: seq<Entry>)
    returns (rows: Option<seq<Row>>)
    requires index.Valid(s.offsets + others) && c.hash(key) != 0 && |s.offsets + others| < 0x1_0000_0000
    requires Sound(c, s) && s.file <= index.blobs && OfOtherKinds(index.blobs, others)
    requires |index.blobs| < 0x1_0000_0000_0000_0000
    ensures Roomy(c, s, key) ==> rows == Some(IndexScan(c, s, s.terms, key))
    ensures Unshared(c, s.terms, key) ==> (rows == Some(IndexScan(c, s, s.terms, key)) <==> Roomy(c, s, key))
    ensures Roomy(c, s, key) ==>
              (rows == Some(LinearScan(c, s, s.terms, key)) <==>
                 forall i :: 0 <= i < |s.terms| && Answers(s.terms[i], key) ==> !Colliding(c, s.terms[i]))
  {
    TermOffsetsSmall(c, s, others, |index.blobs|);
    if Roomy(c, s, key) { QueryIsIndexScan(c, s, index.blobs, others, key); }
    if Unshared(c, s.terms, key) { RightExactly(c, s, index.blobs, others, key); }
    IndexIsExact(c, s, s.terms, key);
    hide *;
    rows := QueryDictionary(c.hash, index, key, s.offsets + others);
  }
}
