// The writer of term banks (write_processed in src/importer.cpp): it appends each bank's new
// glossaries and its records to blobs.bin, and fills in where the glossaries went.
module TermWriter {
  import opened Bytes
  import opened Entries
  import opened Records
  import opened TermBank

  // The glossaries whose hashes are not known.
  function Kept(c: Codec, glossaries: seq<seq<byte>>, known: set<nat>): (r: seq<seq<byte>>)
    ensures |r| <= |glossaries|
  {
    if glossaries == [] then []
    else
      var n := |glossaries| - 1;
      Kept(c, glossaries[..n], known) + if c.hash(glossaries[n]) in known then [] else [glossaries[n]]
  }

  predicate DistinctHashes(c: Codec, glossaries: seq<seq<byte>>) {
    forall i, j :: 0 <= i < j < |glossaries| ==> c.hash(glossaries[i]) != c.hash(glossaries[j])
  }

  lemma {:induction false} KeptHashes(c: Codec, glossaries: seq<seq<byte>>, known: set<nat>, hash: nat)
    ensures Hashed(c, Kept(c, glossaries, known), hash) <==> Hashed(c, glossaries, hash) && hash !in known
  {
    if glossaries != [] {
      var n := |glossaries| - 1;
      var before := Kept(c, glossaries[..n], known);
      KeptHashes(c, glossaries[..n], known, hash);
      HashedAppend(c, glossaries[..n], glossaries[n], hash);
      assert glossaries[..n] + [glossaries[n]] == glossaries;
      HashedAppend(c, before, glossaries[n], hash);
      assert before + [] == before;
    }
  }

  lemma HashedAppend(c: Codec, glossaries: seq<seq<byte>>, g: seq<byte>, hash: nat)
    ensures Hashed(c, glossaries + [g], hash) <==> Hashed(c, glossaries, hash) || c.hash(g) == hash
  {
    var more := glossaries + [g];
    if Hashed(c, glossaries, hash) {
      var i :| 0 <= i < |glossaries| && c.hash(glossaries[i]) == hash;
      assert more[i] == glossaries[i];
    }
    assert more[|glossaries|] == g;
  }

  lemma {:induction false} FreshIsKept(c: Codec, rows: seq<Term>, known: set<nat>)
    ensures Fresh(c, rows, known) == Kept(c, Fresh(c, rows, {}), known)
  {
    if rows != [] {
      var n := |rows| - 1;
      var g := rows[n].glossary;
      var all := Fresh(c, rows[..n], {});
      FreshIsKept(c, rows[..n], known);
      KeptHashes(c, all, known, c.hash(g));
      assert (all + [g])[..|all|] == all;
      hide Hashed;
    }
  }

  lemma {:induction false} FreshDiffer(c: Codec, rows: seq<Term>)
    ensures DistinctHashes(c, Fresh(c, rows, {}))
  {
    if rows != [] {
      var n := |rows| - 1;
      FreshDiffer(c, rows[..n]);
      NewHash(c, Fresh(c, rows[..n], {}), rows[n].glossary);
      hide Hashed, DistinctHashes;
    }
  }

  lemma NewHash(c: Codec, glossaries: seq<seq<byte>>, g: seq<byte>)
    requires DistinctHashes(c, glossaries)
    ensures !Hashed(c, glossaries, c.hash(g)) ==> DistinctHashes(c, glossaries + [g])
  {
  }

  // The map once these glossaries stand back to back from `at` on.
  function Placed(c: Codec, table: map<nat, nat>, glossaries: seq<seq<byte>>, at: nat): map<nat, nat> {
    if glossaries == [] then table
    else
      var before := glossaries[..|glossaries| - 1];
      Placed(c, table, before, at)[c.hash(glossaries[|glossaries| - 1]) := at + |Packed(c, before)|]
  }

  lemma {:induction false} PlacedKeys(c: Codec, table: map<nat, nat>, glossaries: seq<seq<byte>>, at: nat, hash: nat)
    ensures hash in Placed(c, table, glossaries, at) <==> hash in table || Hashed(c, glossaries, hash)
    ensures !Hashed(c, glossaries, hash) && hash in table ==> Placed(c, table, glossaries, at)[hash] == table[hash]
  {
    if glossaries != [] {
      var n := |glossaries| - 1;
      PlacedKeys(c, table, glossaries[..n], at, hash);
      HashedAppend(c, glossaries[..n], glossaries[n], hash);
      assert glossaries[..n] + [glossaries[n]] == glossaries;
    }
  }

  // The records' glossary offsets; a hash the map lacks would get 0.
  function Named(c: Codec, rows: seq<Term>, table: map<nat, nat>): (r: seq<nat>)
    ensures |r| == |rows|
    ensures forall i :: 0 <= i < |rows| && c.hash(rows[i].glossary) in table ==> r[i] == table[c.hash(rows[i].glossary)]
  {
    seq(|rows|, i requires 0 <= i < |rows| =>
      if c.hash(rows[i].glossary) in table then table[c.hash(rows[i].glossary)] else 0)
  }

  // What the writer has written, and the index entries and the map that go with it.
  datatype Store = Store(
    file: seq<byte>, offsets: seq<Entry>, table: map<nat, nat>, terms: seq<Term>, starts: seq<nat>)

  // The store with one bank more.
  function Written(c: Codec, s: Store, rows: seq<Term>): Store {
    var added := Fresh(c, rows, s.table.Keys);
    var table := Placed(c, s.table, added, |s.file|);
    var starts := Starts(c, rows, |s.file| + |Packed(c, added)|);
    Store(s.file + Packed(c, added) + Image(c, rows, Named(c, rows, table)), s.offsets + EntriesOf(c, rows, starts),
          table, s.terms + rows, s.starts + starts)
  }

  // ---- The spans tile the blob

  lemma {:induction false} SpanAt(c: Codec, glossaries: seq<seq<byte>>, i: nat)
    requires i < |glossaries|
    ensures Spans(c, glossaries)[i] == SpanOf(c, glossaries[i], |Packed(c, glossaries[..i])|)
  {
    var n := |glossaries| - 1;
    if i < n {
      SpanAt(c, glossaries[..n], i);
      assert glossaries[..n][..i] == glossaries[..i];
    }
  }

  lemma {:induction false} PackedStarts(c: Codec, glossaries: seq<seq<byte>>, i: nat)
    requires i <= |glossaries|
    ensures |Packed(c, glossaries[..i])| <= |Packed(c, glossaries)|
    ensures Packed(c, glossaries)[..|Packed(c, glossaries[..i])|] == Packed(c, glossaries[..i])
  {
    var n := |glossaries| - 1;
    if i <= n {
      PackedStarts(c, glossaries[..n], i);
      assert glossaries[..n][..i] == glossaries[..i];
    } else {
      assert glossaries[..i] == glossaries;
    }
  }

  // One span further: where it stands in the blob.
  lemma NextSpan(c: Codec, glossaries: seq<seq<byte>>, i: nat)
    requires i < |glossaries|
    ensures var span, blob := Spans(c, glossaries)[i], Packed(c, glossaries);
            && span.hash == c.hash(glossaries[i])
            && span.offset == |Packed(c, glossaries[..i])|
            && span.offset + span.size == |Packed(c, glossaries[..i + 1])| <= |blob|
            && blob[span.offset..span.offset + span.size] == c.compress(glossaries[i])
  {
    SpanAt(c, glossaries, i);
    PackedStarts(c, glossaries, i + 1);
    assert glossaries[..i + 1][..i] == glossaries[..i];
    var blob := Packed(c, glossaries);
    assert blob[..|Packed(c, glossaries[..i + 1])|] == Packed(c, glossaries[..i]) + c.compress(glossaries[i]);
  }

  // Where the copy loop stands after i spans.
  ghost predicate Copied(c: Codec, s: Store, glossaries: seq<seq<byte>>, i: nat,
                         file: seq<byte>, table: map<nat, nat>, runStart: nat, skipped: nat)
  {
    && i <= |glossaries|
    && var kept := Kept(c, glossaries[..i], s.table.Keys);
       var blob := Packed(c, glossaries);
       var end := |Packed(c, glossaries[..i])|;
       && runStart <= end <= |blob|
       && file + blob[runStart..end] == s.file + Packed(c, kept)
       && end - skipped == |Packed(c, kept)|
       && table == Placed(c, s.table, kept, |s.file|)
  }

  lemma CopyStarts(c: Codec, s: Store, glossaries: seq<seq<byte>>)
    ensures Copied(c, s, glossaries, 0, s.file, s.table, 0, 0)
  {
    assert glossaries[..0] == [];
    assert Packed(c, glossaries)[0..0] == [];
  }

  // The map has the next glossary's hash exactly when an earlier bank brought it.
  lemma {:induction false} KnownBefore(c: Codec, s: Store, glossaries: seq<seq<byte>>, i: nat)
    requires i < |glossaries| && DistinctHashes(c, glossaries)
    ensures c.hash(glossaries[i]) in Placed(c, s.table, Kept(c, glossaries[..i], s.table.Keys), |s.file|) <==>
            c.hash(glossaries[i]) in s.table
  {
    var hash := c.hash(glossaries[i]);
    PlacedKeys(c, s.table, Kept(c, glossaries[..i], s.table.Keys), |s.file|, hash);
    KeptHashes(c, glossaries[..i], s.table.Keys, hash);
  }

  lemma KnownSoFar(c: Codec, s: Store, glossaries: seq<seq<byte>>, i: nat,
                   file: seq<byte>, table: map<nat, nat>, runStart: nat, skipped: nat)
    requires i < |glossaries| && DistinctHashes(c, glossaries)
    requires Copied(c, s, glossaries, i, file, table, runStart, skipped)
    ensures c.hash(glossaries[i]) in table <==> c.hash(glossaries[i]) in s.table
  {
    hide Packed, Kept, Placed, DistinctHashes;
    KnownBefore(c, s, glossaries, i);
  }

  // At the end only the last run is left to copy.
  lemma {:induction false} CopyEnds(c: Codec, s: Store, glossaries: seq<seq<byte>>,
                 file: seq<byte>, table: map<nat, nat>, runStart: nat, skipped: nat)
    requires Copied(c, s, glossaries, |glossaries|, file, table, runStart, skipped)
    ensures var kept, blob := Kept(c, glossaries, s.table.Keys), Packed(c, glossaries);
            && runStart <= |blob| && file + blob[runStart..] == s.file + Packed(c, kept)
            && |blob| - skipped == |Packed(c, kept)| && table == Placed(c, s.table, kept, |s.file|)
  {
    hide Packed, Kept, Placed;
    assert glossaries[..|glossaries|] == glossaries;
    var blob := Packed(c, glossaries);
    assert blob[runStart..|blob|] == blob[runStart..];
  }

  lemma RunGrows(file: seq<byte>, blob: seq<byte>, base: seq<byte>, from: nat, to: nat, end: nat)
    requires from <= to <= end <= |blob| && file + blob[from..to] == base
    ensures file + blob[from..end] == base + blob[to..end]
  {
    assert blob[from..end] == blob[from..to] + blob[to..end];
  }

  lemma RunFlushed(file: seq<byte>, blob: seq<byte>, base: seq<byte>, from: nat, to: nat, end: nat)
    requires from <= to <= end <= |blob| && file + blob[from..to] == base
    ensures file + blob[from..to] + blob[end..end] == base
  {
  }

  lemma {:induction false} KeptNext(c: Codec, s: Store, glossaries: seq<seq<byte>>, i: nat)
    requires i < |glossaries|
    ensures var kept, kept' := Kept(c, glossaries[..i], s.table.Keys), Kept(c, glossaries[..i + 1], s.table.Keys);
            if c.hash(glossaries[i]) in s.table then kept' == kept
            else
              && Packed(c, kept') == Packed(c, kept) + c.compress(glossaries[i])
              && Placed(c, s.table, kept', |s.file|) ==
                 Placed(c, s.table, kept, |s.file|)[c.hash(glossaries[i]) := |s.file| + |Packed(c, kept)|]
  {
    assert glossaries[..i + 1][..i] == glossaries[..i];
    var kept := Kept(c, glossaries[..i], s.table.Keys);
    assert (kept + [glossaries[i]])[..|kept|] == kept;
  }

  lemma {:induction false} TakeRun(c: Codec, s: Store, glossaries: seq<seq<byte>>, i: nat,
                                   file: seq<byte>, table: map<nat, nat>, runStart: nat, skipped: nat)
    requires i < |glossaries| && Copied(c, s, glossaries, i, file, table, runStart, skipped)
    requires c.hash(glossaries[i]) !in s.table
    ensures var span := Spans(c, glossaries)[i];
            && skipped <= span.offset
            && Copied(c, s, glossaries, i + 1, file,
                      table[span.hash := |s.file| + span.offset - skipped], runStart, skipped)
  {
    hide Kept, Packed, Placed, Spans, SpanOf;
    NextSpan(c, glossaries, i);
    KeptNext(c, s, glossaries, i);
    var span := Spans(c, glossaries)[i];
    var kept := Kept(c, glossaries[..i], s.table.Keys);
    assert s.file + Packed(c, kept) + c.compress(glossaries[i])
        == s.file + (Packed(c, kept) + c.compress(glossaries[i]));
    RunGrows(file, Packed(c, glossaries), s.file + Packed(c, kept), runStart, span.offset, span.offset + span.size);
  }

  lemma {:induction false} SkipRun(c: Codec, s: Store, glossaries: seq<seq<byte>>, i: nat,
                                   file: seq<byte>, table: map<nat, nat>, runStart: nat, skipped: nat)
    requires i < |glossaries| && Copied(c, s, glossaries, i, file, table, runStart, skipped)
    requires c.hash(glossaries[i]) in s.table
    ensures var span := Spans(c, glossaries)[i];
            var blob := Packed(c, glossaries);
            && runStart <= span.offset <= |blob|
            && Copied(c, s, glossaries, i + 1, file + blob[runStart..span.offset], table, span.offset + span.size,
                      skipped + span.size)
  {
    hide Kept, Packed, Placed, Spans;
    NextSpan(c, glossaries, i);
    KeptNext(c, s, glossaries, i);
    var span := Spans(c, glossaries)[i];
    var kept := Kept(c, glossaries[..i], s.table.Keys);
    RunFlushed(file, Packed(c, glossaries), s.file + Packed(c, kept), runStart, span.offset, span.offset + span.size);
  }

  // ---- Filling in where the glossaries went

  function Overwrite(s: seq<byte>, p: nat, bytes: seq<byte>): (r: seq<byte>)
    requires p + |bytes| <= |s|
    ensures |r| == |s|
  {
    s[..p] + bytes + s[p + |bytes|..]
  }

  // One record more in front of a list.
  lemma {:induction false} DataStep(c: Codec, rows: seq<Term>, n: nat)
    requires n < |rows|
    ensures DataSize(c, rows[..n + 1]) == DataSize(c, rows[..n]) + |RecordOf(c, rows[n], 0)|
  {
    hide RecordOf;
    assert rows[..n + 1][..n] == rows[..n];
  }

  lemma {:induction false} PointerStep(c: Codec, rows: seq<Term>, n: nat)
    requires n < |rows|
    ensures PointersOf(c, rows[..n + 1]) == PointersOf(c, rows[..n]) + [PointerOf(c, rows[n], DataSize(c, rows[..n]))]
  {
    hide PointerOf, DataSize;
    assert rows[..n + 1][..n] == rows[..n];
  }

  lemma {:induction false} ImageStep(c: Codec, rows: seq<Term>, named: seq<nat>, n: nat)
    requires n < |rows| == |named|
    ensures Image(c, rows[..n + 1], named[..n + 1]) == Image(c, rows[..n], named[..n]) + RecordOf(c, rows[n], named[n])
  {
    hide RecordOf;
    assert rows[..n + 1][..n] == rows[..n] && named[..n + 1][..n] == named[..n];
  }

  lemma {:induction false} PointerAt(c: Codec, rows: seq<Term>, i: nat, n: nat)
    requires i < n <= |rows|
    ensures PointersOf(c, rows[..n])[i] == PointerOf(c, rows[i], DataSize(c, rows[..i]))
    decreases n
  {
    hide PointersOf, PointerOf, DataSize;
    PointerStep(c, rows, n - 1);
    if i < n - 1 { PointerAt(c, rows, i, n - 1); }
  }

  // Where record i's open place lies.
  function OpenPlace(c: Codec, rows: seq<Term>, i: nat): nat
    requires i < |rows|
  {
    DataSize(c, rows[..i]) + |Head(rows[i])|
  }

  lemma {:induction false} PlaceInside(c: Codec, rows: seq<Term>, i: nat, n: nat)
    requires i < n <= |rows|
    ensures OpenPlace(c, rows, i) + 8 <= DataSize(c, rows[..n])
    decreases n
  {
    hide DataSize, Head, Tail;
    DataStep(c, rows, n - 1);
    if i < n - 1 { PlaceInside(c, rows, i, n - 1); }
  }

  // Overwriting one record's open place names one glossary more.
  lemma {:induction false} PatchOne(c: Codec, rows: seq<Term>, named: seq<nat>, i: nat, v: nat, n: nat)
    requires i < n <= |rows| == |named|
    ensures OpenPlace(c, rows, i) + 8 <= DataSize(c, rows[..n])
    ensures Overwrite(Image(c, rows[..n], named[..n]), OpenPlace(c, rows, i), Le(8, v))
         == Image(c, rows[..n], named[i := v][..n])
    decreases n
  {
    hide Image, DataSize, RecordOf, Overwrite, Head, Le;
    PlaceInside(c, rows, i, n);
    ImageStep(c, rows, named, n - 1);
    ImageStep(c, rows, named[i := v], n - 1);
    var before := Image(c, rows[..n - 1], named[..n - 1]);
    var last := RecordOf(c, rows[n - 1], named[n - 1]);
    if i < n - 1 {
      PatchOne(c, rows, named, i, v, n - 1);
      OverwriteFirst(before, last, OpenPlace(c, rows, i), Le(8, v));
    } else {
      assert named[i := v][..i] == named[..i];
      PatchRecord(c, rows[i], named[i], v);
      OverwriteSecond(before, last, |Head(rows[i])|, Le(8, v));
    }
  }

  lemma {:induction false} PatchRecord(c: Codec, t: Term, was: nat, v: nat)
    ensures Overwrite(RecordOf(c, t, was), |Head(t)|, Le(8, v)) == RecordOf(c, t, v)
  {
    hide Head, Tail, Le;
  }

  lemma OverwriteFirst(a: seq<byte>, b: seq<byte>, p: nat, bytes: seq<byte>)
    requires p + |bytes| <= |a|
    ensures Overwrite(a + b, p, bytes) == Overwrite(a, p, bytes) + b
  {
  }

  lemma OverwriteSecond(a: seq<byte>, b: seq<byte>, p: nat, bytes: seq<byte>)
    requires p + |bytes| <= |b|
    ensures Overwrite(a + b, |a| + p, bytes) == a + Overwrite(b, p, bytes)
  {
  }

  lemma NamedStep(c: Codec, rows: seq<Term>, table: map<nat, nat>, i: nat)
    requires i < |rows| && c.hash(rows[i].glossary) in table
    ensures (Named(c, rows, table)[..i] + Zeros(|rows| - i))[i := table[c.hash(rows[i].glossary)]]
         == Named(c, rows, table)[..i + 1] + Zeros(|rows| - i - 1)
  {
  }

  // The memcpy loop over a bank's records.
  method FillIn(c: Codec, bank: Bank, ghost rows: seq<Term>, table: map<nat, nat>) returns (data: seq<byte>)
    requires IsBank(c, rows, bank)
    requires forall i :: 0 <= i < |rows| ==> c.hash(rows[i].glossary) in table
    ensures data == Image(c, rows, Named(c, rows, table))
  {
    hide Image, PointersOf, Spans, Packed, Fresh, EntriesOf, Starts, Named, DataSize, Le, Head;
    data := bank.data;
    ghost var names := Named(c, rows, table);
    assert names[..0] + Zeros(|rows|) == Zeros(|rows|);
    assert rows[..|rows|] == rows;
    for i := 0 to |bank.pointers|
      invariant data == Image(c, rows, names[..i] + Zeros(|rows| - i))
    {
      PointerAt(c, rows, i, |rows|);
      assert bank.pointers[i].place == OpenPlace(c, rows, i);
      var pointer := bank.pointers[i];
      ghost var open := names[..i] + Zeros(|rows| - i);
      NamedStep(c, rows, table, i);
      PatchOne(c, rows, open, i, table[pointer.hash], |rows|);
      assert open[..|rows|] == open && open[i := table[pointer.hash]][..|rows|] == open[i := table[pointer.hash]];
      data := Overwrite(data, pointer.place, Le(8, table[pointer.hash]));
    }
    assert names[..|rows|] + Zeros(0) == names;
  }

  // write_terms' state between two banks.
  lemma {:induction false} LastRun(c: Codec, s: Store, rows: seq<Term>, file: seq<byte>, table: map<nat, nat>,
                                   runStart: nat, skipped: nat)
    requires var all := Fresh(c, rows, {}); Copied(c, s, all, |all|, file, table, runStart, skipped)
    ensures var blob, added := Packed(c, Fresh(c, rows, {})), Fresh(c, rows, s.table.Keys);
            && runStart <= |blob| && file + blob[runStart..|blob|] == s.file + Packed(c, added)
            && |s.file| + |blob| - skipped == |s.file + Packed(c, added)|
            && table == Placed(c, s.table, added, |s.file|)
  {
    hide *;
    FreshIsKept(c, rows, s.table.Keys);
    CopyEnds(c, s, Fresh(c, rows, {}), file, table, runStart, skipped);
    var blob := Packed(c, Fresh(c, rows, {}));
    assert blob[runStart..] == blob[runStart..|blob|];
  }

  class Writer {
    var file: seq<byte>
    var writeOffset: nat
    var offsets: seq<Entry>
    var glossaries: map<nat, nat>
    var total: nat
    ghost var terms: seq<Term>
    ghost var starts: seq<nat>

    ghost predicate Valid()
      reads this
    {
      writeOffset == |file| && total == |terms|
    }

    ghost function Contents(): Store
      reads this
    {
      Store(file, offsets, glossaries, terms, starts)
    }

    constructor ()
      ensures Valid() && Contents() == Store([], [], map[], [], [])
    {
      file, writeOffset, offsets, glossaries, total := [], 0, [], map[], 0;
      terms, starts := [], [];
    }

    // A run of the blob is written, unless it is empty.
    method CopyRun(blob: seq<byte>, begin: nat, end: nat)
      requires begin <= end <= |blob|
      modifies this`file
      ensures file == old(file) + blob[begin..end]
    {
      if end > begin { file := file + blob[begin..end]; }
    }

    // One glossary of the blob: the first bank that has it has it copied with the run it stands in; a known
    // one ends the run before it.
    method CopySpan(c: Codec, blob: seq<byte>, span: Span, ghost s: Store, ghost all: seq<seq<byte>>, ghost i: nat,
                    runStart: nat, skipped: nat)
      returns (runStart': nat, skipped': nat)
      requires i < |all| && span == Spans(c, all)[i] && blob == Packed(c, all) && DistinctHashes(c, all)
      requires Copied(c, s, all, i, file, glossaries, runStart, skipped) && writeOffset == |s.file|
      modifies this`file, this`glossaries
      ensures Copied(c, s, all, i + 1, file, glossaries, runStart', skipped')
    {
      hide *;
      KnownSoFar(c, s, all, i, file, glossaries, runStart, skipped);
      NextSpan(c, all, i);
      runStart', skipped' := runStart, skipped;
      if span.hash !in glossaries {
        TakeRun(c, s, all, i, file, glossaries, runStart, skipped);
        glossaries := glossaries[span.hash := writeOffset + span.offset - skipped];
      } else {
        SkipRun(c, s, all, i, file, glossaries, runStart, skipped);
        CopyRun(blob, runStart, span.offset);
        runStart', skipped' := span.offset + span.size, skipped + span.size;
      }
    }

    // The copy loop.
    method CopySpans(c: Codec, bank: Bank, ghost s: Store, ghost all: seq<seq<byte>>)
      returns (runStart: nat, skipped: nat)
      requires bank.glossaries == Spans(c, all) && bank.blob == Packed(c, all) && DistinctHashes(c, all)
      requires s.file == file && s.table == glossaries && writeOffset == |file|
      modifies this`file, this`glossaries
      ensures Copied(c, s, all, |all|, file, glossaries, runStart, skipped)
    {
      hide *;
      runStart, skipped := 0, 0;
      CopyStarts(c, s, all);
      for i := 0 to |bank.glossaries|
        invariant writeOffset == |s.file| && Copied(c, s, all, i, file, glossaries, runStart, skipped)
      {
        runStart, skipped := CopySpan(c, bank.blob, bank.glossaries[i], s, all, i, runStart, skipped);
      }
    }

    // The blob is copied without the glossaries an earlier bank already wrote.
    method CopyGlossaries(c: Codec, bank: Bank, ghost rows: seq<Term>)
      requires Valid() && IsBank(c, rows, bank)
      modifies this`file, this`glossaries, this`writeOffset
      ensures var added := Fresh(c, rows, old(glossaries).Keys);
              && file == old(file) + Packed(c, added) && writeOffset == |file|
              && glossaries == Placed(c, old(glossaries), added, |old(file)|)
    {
      ghost var all, s := Fresh(c, rows, {}), Contents();
      assert bank.blob == Packed(c, all) && bank.glossaries == Spans(c, all);
      assert s.file == file && s.table == glossaries && writeOffset == |file|;
      hide *;
      FreshDiffer(c, rows);
      var runStart, skipped := CopySpans(c, bank, s, all);
      LastRun(c, s, rows, file, glossaries, runStart, skipped);
      CopyRun(bank.blob, runStart, |bank.blob|);
      writeOffset := writeOffset + |bank.blob| - skipped;
    }

    // write_processed
    method WriteProcessed(c: Codec, bank: Bank, ghost rows: seq<Term>)
      requires Valid() && IsBank(c, rows, bank)
      modifies this
      ensures Valid() && Contents() == Written(c, old(Contents()), rows)
    {
      hide Image, EntriesOf, PointersOf, Starts, Packed, Spans, Fresh, Kept, Placed, Zeros, Named, Written, IsBank;
      ghost var was := Contents();
      WrittenParts(c, was, rows, bank);
      if bank.data == [] {
        NoRows(c, was, rows);
        return;
      }
      CopyGlossaries(c, bank, rows);
      AllPlaced(c, was, rows);
      var data := FillIn(c, bank, rows, glossaries);
      file := file + data;
      ghost var placed := Starts(c, rows, writeOffset);
      var moved := MoveEntries(c, bank.offsets, writeOffset, rows);
      offsets := offsets + moved;
      writeOffset := writeOffset + |data|;
      total := total + bank.count;
      terms, starts := terms + rows, starts + placed;
    }
  }

  lemma {:induction false} WrittenParts(c: Codec, s: Store, rows: seq<Term>, bank: Bank)
    requires IsBank(c, rows, bank)
    ensures bank.data == Image(c, rows, Zeros(|rows|)) && bank.count == |rows|
    ensures bank.offsets == EntriesOf(c, rows, Starts(c, rows, 0))
    ensures var added, w := Fresh(c, rows, s.table.Keys), Written(c, s, rows);
            var base := |s.file + Packed(c, added)|;
            && w.file == s.file + Packed(c, added) + Image(c, rows, Named(c, rows, w.table))
            && w.offsets == s.offsets + EntriesOf(c, rows, Starts(c, rows, base))
            && w.table == Placed(c, s.table, added, |s.file|)
            && w.terms == s.terms + rows && w.starts == s.starts + Starts(c, rows, base)
  {
    hide Image, EntriesOf, PointersOf, Starts, Packed, Spans, Fresh, Placed, Zeros, Named;
  }

  // A bank without records changes nothing.
  lemma {:induction false} NoRows(c: Codec, s: Store, rows: seq<Term>)
    requires Image(c, rows, Zeros(|rows|)) == []
    ensures rows == [] && Written(c, s, rows) == s
  {
  }

  lemma {:induction false} AllHashed(c: Codec, rows: seq<Term>, known: set<nat>, i: nat)
    requires i < |rows|
    ensures c.hash(rows[i].glossary) in known || Hashed(c, Fresh(c, rows, known), c.hash(rows[i].glossary))
  {
    var n := |rows| - 1;
    var before := Fresh(c, rows[..n], known);
    HashedAppend(c, before, rows[n].glossary, c.hash(rows[i].glossary));
    if i < n { AllHashed(c, rows[..n], known, i); }
  }

  // Every record of the bank finds its glossary in the map.
  lemma AllPlaced(c: Codec, s: Store, rows: seq<Term>)
    ensures forall i :: 0 <= i < |rows| ==> c.hash(rows[i].glossary) in Written(c, s, rows).table
  {
    hide Fresh, Placed, Image, Packed, EntriesOf, Starts;
    forall i | 0 <= i < |rows| ensures c.hash(rows[i].glossary) in Written(c, s, rows).table {
      AllHashed(c, rows, s.table.Keys, i);
      PlacedKeys(c, s.table, Fresh(c, rows, s.table.Keys), |s.file|, c.hash(rows[i].glossary));
    }
  }

  function Shifted(entries: seq<Entry>, base: nat): (r: seq<Entry>)
    ensures |r| == |entries| && forall i :: 0 <= i < |r| ==> r[i] == Entry(entries[i].hash, entries[i].offset + base)
  {
    seq(|entries|, i requires 0 <= i < |entries| => Entry(entries[i].hash, entries[i].offset + base))
  }

  lemma {:induction false} StartStep(c: Codec, rows: seq<Term>, base: nat, n: nat)
    requires n < |rows|
    ensures Starts(c, rows[..n + 1], base) == Starts(c, rows[..n], base) + [base + DataSize(c, rows[..n])]
  {
    hide DataSize;
    assert rows[..n + 1][..n] == rows[..n];
  }

  lemma {:induction false} EntryStep(c: Codec, rows: seq<Term>, starts: seq<nat>, n: nat)
    requires n < |rows| == |starts|
    ensures EntriesOf(c, rows[..n + 1], starts[..n + 1]) ==
            EntriesOf(c, rows[..n], starts[..n]) + EntriesFor(c, rows[n], starts[n])
  {
    hide EntriesFor;
    assert rows[..n + 1][..n] == rows[..n] && starts[..n + 1][..n] == starts[..n];
  }

  // The entries with one record more, the records back to back from `base` on.
  lemma {:induction false} PlacedEntryStep(c: Codec, rows: seq<Term>, base: nat, n: nat)
    requires n < |rows|
    ensures EntriesOf(c, rows[..n + 1], Starts(c, rows[..n + 1], base)) ==
            EntriesOf(c, rows[..n], Starts(c, rows[..n], base)) + EntriesFor(c, rows[n], base + DataSize(c, rows[..n]))
  {
    hide EntriesFor, DataSize, EntriesOf, Starts;
    StartStep(c, rows, base, n);
    var some, starts := rows[..n + 1], Starts(c, rows[..n + 1], base);
    EntryStep(c, some, starts, n);
    assert some[..n] == rows[..n] && some[..n + 1] == some && starts[..n + 1] == starts;
    assert starts[..n] == Starts(c, rows[..n], base);
  }

  lemma {:induction false} EntriesShift(c: Codec, rows: seq<Term>, base: nat, n: nat)
    requires n <= |rows|
    ensures Shifted(EntriesOf(c, rows[..n], Starts(c, rows[..n], 0)), base)
         == EntriesOf(c, rows[..n], Starts(c, rows[..n], base))
  {
    hide Shifted, DataSize, EntriesOf, Starts, EntriesFor;
    if n == 0 {
      assert rows[..n] == [];
      NoEntries(c, base);
    } else {
      var start := DataSize(c, rows[..n - 1]);
      EntriesShift(c, rows, base, n - 1);
      PlacedEntryStep(c, rows, 0, n - 1);
      PlacedEntryStep(c, rows, base, n - 1);
      ShiftedParts(EntriesOf(c, rows[..n - 1], Starts(c, rows[..n - 1], 0)), EntriesFor(c, rows[n - 1], start), base);
      ShiftedEntry(c, rows[n - 1], start, base);
    }
  }

  lemma {:induction false} NoEntries(c: Codec, base: nat)
    ensures EntriesOf(c, [], Starts(c, [], base)) == [] && Shifted([], base) == []
  {
  }

  lemma ShiftedEntry(c: Codec, t: Term, start: nat, base: nat)
    ensures Shifted(EntriesFor(c, t, start), base) == EntriesFor(c, t, base + start)
  {
  }

  lemma ShiftedParts(a: seq<Entry>, b: seq<Entry>, base: nat)
    ensures Shifted(a + b, base) == Shifted(a, base) + Shifted(b, base)
  {
  }

  method MoveEntries(c: Codec, entries: seq<Entry>, base: nat, ghost rows: seq<Term>) returns (moved: seq<Entry>)
    requires entries == EntriesOf(c, rows, Starts(c, rows, 0))
    ensures moved == EntriesOf(c, rows, Starts(c, rows, base))
  {
    hide EntriesOf, Starts;
    moved := [];
    for i := 0 to |entries|
      invariant moved == Shifted(entries[..i], base)
    {
      moved := moved + [Entry(entries[i].hash, entries[i].offset + base)];
    }
    assert entries[..|entries|] == entries;
    EntriesShift(c, rows, base, |rows|);
    assert rows[..|rows|] == rows;
  }
}
