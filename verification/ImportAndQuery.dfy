// A dictionary from end to end: term banks are imported (src/importer.cpp), the index is built over what
// was written, and a key is looked up (src/query.cpp). However the rows are spread over banks, the answer
// is what a scan over all the rows gives.
module ImportAndQuery {
  import opened Options
  import opened Bytes
  import opened Entries
  import opened Radix
  import opened Records
  import opened TermBank
  import opened TermWriter
  import opened TermStore
  import opened HashTable
  import opened DictionaryIndex
  import opened Query
  import opened BankWriting

  // ---- What the index asks of the entries

  // A hash that a slot can hold: of 64 bits, and not the mark of an empty one.
  predicate GoodHash(hash: nat) { 0 < hash < KEY_RANGE }

  predicate GoodEntries(entries: seq<Entry>) {
    forall i :: 0 <= i < |entries| ==> GoodHash(entries[i].hash)
  }

  predicate GoodKeys(c: Codec, terms: seq<Term>) {
    forall i :: 0 <= i < |terms| ==> GoodHash(c.hash(terms[i].expression)) && GoodHash(c.hash(ReadingOf(terms[i])))
  }

  lemma {:induction false} EntriesAreGood(c: Codec, terms: seq<Term>, starts: seq<nat>, n: nat)
    requires |starts| == |terms| && n <= |terms| && GoodKeys(c, terms)
    ensures GoodEntries(EntriesOf(c, terms[..n], starts[..n]))
  {
    if n > 0 {
      EntriesAreGood(c, terms, starts, n - 1);
      hide EntriesOf;
      EntryStep(c, terms, starts, n - 1);
    }
  }

  lemma StoreEntriesGood(c: Codec, s: Store)
    requires Sound(c, s) && GoodKeys(c, s.terms)
    ensures GoodEntries(s.offsets)
  {
    hide *;
    OffsetsAre(c, s);
    var n := |s.terms|;
    assert s.terms[..n] == s.terms && s.starts[..n] == s.starts;
    EntriesAreGood(c, s.terms, s.starts, n);
  }

  // ---- What the records ask of the rows

  // The fields of a row fit the widths of a record.
  predicate Narrow(c: Codec, t: Term) {
    && |t.expression| < 0x1_0000 && |ReadingOf(t)| < 0x1_0000 && TagsFit(t)
    && |c.compress(t.glossary)| < 0x1_0000_0000
  }

  // In a file of less than 2^64 bytes that is all a record needs.
  lemma NarrowHasRoom(c: Codec, s: Store, i: nat)
    requires Sound(c, s) && |s.file| < 0x1_0000_0000_0000_0000 && i < |s.terms|
    ensures HasRoom(c, s, s.terms[i]) <==> Narrow(c, s.terms[i])
  {
    hide RecordOf, At, EntriesOf, Packed, Fresh, DataSize, UsesHash, TagsFit, TermStore.Ascending;
    var t := s.terms[i];
    assert Stands(c, s, t, s.starts[i]);
    AtFits(s.file, s.table[c.hash(t.glossary)], c.compress(t.glossary));
  }

  predicate NarrowGroup(c: Codec, terms: seq<Term>, key: seq<byte>) {
    forall i :: 0 <= i < |terms| && InGroup(c, terms[i], key) ==> Narrow(c, terms[i])
  }

  lemma NarrowIsRoomy(c: Codec, s: Store, key: seq<byte>)
    requires Sound(c, s) && |s.file| < 0x1_0000_0000_0000_0000
    ensures Roomy(c, s, key) <==> NarrowGroup(c, s.terms, key)
  {
    hide Sound, HasRoom, Narrow, InGroup;
    forall i | 0 <= i < |s.terms| ensures HasRoom(c, s, s.terms[i]) <==> Narrow(c, s.terms[i]) {
      NarrowHasRoom(c, s, i);
    }
  }

  // ---- From banks to answers

  // What an import can hold: `more` are the records of other kinds behind the terms, `others` their entries.
  ghost predicate Importable(c: Codec, banks: seq<seq<Term>>, more: seq<byte>, others: seq<Entry>) {
    var s := WriteAll(c, banks);
    && Identified(c, Rows(banks)) && GoodKeys(c, Rows(banks)) && GoodEntries(others)
    && OfOtherKinds(s.file + more, others)
    && Capacity(|s.offsets + others|) < UINT32_RANGE
    && |s.file + more| + 12 * |s.offsets + others| < 0x1_0000_0000_0000_0000
  }

  lemma {:induction false} ImportIsIndexable(c: Codec, banks: seq<seq<Term>>, more: seq<byte>, others: seq<Entry>)
    requires Importable(c, banks, more, others)
    ensures var s := WriteAll(c, banks);
            && Sound(c, s) && s.terms == Rows(banks)
            && Indexable(s.offsets + others) && (s.offsets + others != [] ==> s.file + more != [])
            && |s.offsets + others| < 0x1_0000_0000 && Identified(c, Rows(banks)) && OfOtherKinds(s.file + more, others)
            && |s.file + more| + 12 * |s.offsets + others| < 0x1_0000_0000_0000_0000
  {
    var s := WriteAll(c, banks);
    RunsAreSound(c, banks);
    hide WriteAll, Rows, Sound, GoodKeys, Identified, Capacity, GoodEntries, Indexable;
    StoreEntriesGood(c, s);
    GoodIsIndexable(s.offsets, others);
    hide OfOtherKinds;
    if s.offsets + others != [] { FileNotEmpty(c, s, more, others); }
  }

  lemma GoodIsIndexable(a: seq<Entry>, b: seq<Entry>)
    requires GoodEntries(a) && GoodEntries(b) && Capacity(|a + b|) < UINT32_RANGE
    ensures Indexable(a + b) && |a + b| < 0x1_0000_0000
  {
  }

  lemma FileNotEmpty(c: Codec, s: Store, more: seq<byte>, others: seq<Entry>)
    requires Sound(c, s) && OfOtherKinds(s.file + more, others) && s.offsets + others != []
    ensures s.file + more != []
  {
    OffsetsNeverDecrease(c, s);
    hide Sound;
    if s.offsets != [] {
      assert s.offsets[0].offset < |s.file|;
    } else {
      assert others[0].offset < |s.file + more|;
    }
  }

  // For every key, whatever banks were imported, however their workers interleaved: the query answers with
  // the terms of the key in import order, exactly as a linear scan over all the rows when none of them
  // has two texts of one hash. Only a row of the key's group that is too wide for its record can spoil
  // the answer, and where no other text has the key's hash it does.
  method ImportThenQuery(c: Codec, banks: seq<seq<Term>>, more: seq<byte>, others: seq<Entry>, how: Schedule,
                         maxThreads: nat, ranges: nat, key: seq<byte>)
    returns (rows: Option<seq<Row>>)
    requires Importable(c, banks, more, others) && Completes(how, banks) && ranges >= 1 && c.hash(key) != 0
    ensures var s, terms := WriteAll(c, banks), Rows(banks);
            && (NarrowGroup(c, terms, key) ==> rows == Some(IndexScan(c, s, terms, key)))
            && (NarrowGroup(c, terms, key) ==>
                  (rows == Some(LinearScan(c, s, terms, key)) <==>
                     forall i :: 0 <= i < |terms| && Answers(terms[i], key) ==> !Colliding(c, terms[i])))
            && (Unshared(c, terms, key) ==>
                  (rows == Some(IndexScan(c, s, terms, key)) <==> NarrowGroup(c, terms, key)))
  {
    ghost var s := WriteAll(c, banks);
    ImportIsIndexable(c, banks, more, others);
    NarrowIsRoomy(c, s, key);
    hide *;
    rows := QueryStore(c, banks, more, others, how, maxThreads, ranges, key, s);
  }

  // The index over a list of entries.
  method IndexEntries(records: seq<byte>, entries: seq<Entry>, maxThreads: nat, ranges: nat) returns (index: Index)
    requires Indexable(entries) && ranges >= 1 && (entries != [] ==> records != [])
    ensures fresh(index) && index.Valid(entries)
    ensures records <= index.blobs && |index.blobs| <= |records| + 12 * |entries|
  {
    hide *;
    var offsets := new Entry[|entries|](i requires 0 <= i < |entries| => entries[i]);
    assert offsets[..] == entries;
    index := BuildIndex(records, offsets, maxThreads, ranges);
  }

  // The banks written: the file, and the entries for the index.
  method WriteTerms(c: Codec, banks: seq<seq<Term>>, how: Schedule, ghost s: Store)
    returns (file: seq<byte>, offsets: seq<Entry>)
    requires Completes(how, banks) && Identified(c, Rows(banks)) && s == WriteAll(c, banks)
    ensures file == s.file && offsets == s.offsets
  {
    hide *;
    var writer := WriteTermBanks(c, banks, how);
    ContentsAre(writer, s);
    return writer.file, writer.offsets;
  }

  lemma ContentsAre(writer: Writer, s: Store)
    requires writer.Contents() == s
    ensures writer.file == s.file && writer.offsets == s.offsets
  {
  }

  // Writing, indexing and looking up, from a store that is known to be sound.
  method QueryStore(c: Codec, banks: seq<seq<Term>>, more: seq<byte>, others: seq<Entry>, how: Schedule,
                    maxThreads: nat, ranges: nat, key: seq<byte>, ghost s: Store)
    returns (rows: Option<seq<Row>>)
    requires Identified(c, Rows(banks)) && s == WriteAll(c, banks) && Sound(c, s)
    requires Indexable(s.offsets + others) && (s.offsets + others != [] ==> s.file + more != [])
    requires |s.offsets + others| < 0x1_0000_0000 && OfOtherKinds(s.file + more, others)
    requires |s.file + more| + 12 * |s.offsets + others| < 0x1_0000_0000_0000_0000
    requires Completes(how, banks) && ranges >= 1 && c.hash(key) != 0
    ensures Roomy(c, s, key) ==> rows == Some(IndexScan(c, s, s.terms, key))
    ensures Roomy(c, s, key) ==>
              (rows == Some(LinearScan(c, s, s.terms, key)) <==>
                 forall i :: 0 <= i < |s.terms| && Answers(s.terms[i], key) ==> !Colliding(c, s.terms[i]))
    ensures Unshared(c, s.terms, key) ==> (rows == Some(IndexScan(c, s, s.terms, key)) <==> Roomy(c, s, key))
  {
    hide *;
    var file, offsets := WriteTerms(c, banks, how, s);
    var index := IndexEntries(file + more, offsets + others, maxThreads, ranges);
    assert s.file <= s.file + more <= index.blobs;
    OthersStay(s.file + more, index.blobs, others);
    rows := FindTerms(c, index, key, s, others);
  }

  lemma OthersStay(f: seq<byte>, f': seq<byte>, others: seq<Entry>)
    requires OfOtherKinds(f, others) && f <= f'
    ensures OfOtherKinds(f', others)
  {
  }
}
