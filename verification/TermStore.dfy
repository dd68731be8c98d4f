// What every run of the term writer keeps: each record stands in the file with the address of its own
// compressed glossary in it, and each distinct glossary is stored once.
module TermStore {
  import opened Bytes
  import opened Entries
  import opened Records
  import opened TermBank
  import opened TermWriter

  predicate UsesHash(c: Codec, terms: seq<Term>, hash: nat) {
    exists i :: 0 <= i < |terms| && c.hash(terms[i].glossary) == hash
  }

  // A record at its start, and the glossary it names where it says.
  ghost predicate Stands(c: Codec, s: Store, t: Term, start: nat) {
    var hash := c.hash(t.glossary);
    && hash in s.table
    && At(s.file, s.table[hash], c.compress(t.glossary))
    && At(s.file, start, RecordOf(c, t, s.table[hash]))
  }

  predicate Ascending(starts: seq<nat>) {
    forall i, j :: 0 <= i < j < |starts| ==> starts[i] < starts[j]
  }

  ghost predicate Sound(c: Codec, s: Store) {
    && |s.starts| == |s.terms|
    && (forall hash :: hash in s.table <==> UsesHash(c, s.terms, hash))
    && s.offsets == EntriesOf(c, s.terms, s.starts)
    && (forall i :: 0 <= i < |s.terms| ==> Stands(c, s, s.terms[i], s.starts[i]))
    && Ascending(s.starts) && (forall i :: 0 <= i < |s.starts| ==> s.starts[i] < |s.file|)
    && |s.file| == |Packed(c, Fresh(c, s.terms, {}))| + DataSize(c, s.terms)
  }

  const NOTHING_WRITTEN := Store([], [], map[], [], [])

  lemma StartsSound(c: Codec)
    ensures Sound(c, NOTHING_WRITTEN)
  {
  }

  // ---- Where things stand in what a bank adds

  lemma {:induction false} PackedAt(c: Codec, glossaries: seq<seq<byte>>, i: nat, n: nat)
    requires i < n <= |glossaries|
    ensures At(Packed(c, glossaries[..n]), |Packed(c, glossaries[..i])|, c.compress(glossaries[i]))
    decreases n
  {
    hide Packed, At;
    PackedStep(c, glossaries, n - 1);
    var before, last := Packed(c, glossaries[..n - 1]), c.compress(glossaries[n - 1]);
    if i < n - 1 {
      PackedAt(c, glossaries, i, n - 1);
      AtFirst(before, last, |Packed(c, glossaries[..i])|, c.compress(glossaries[i]));
    } else {
      AtEnd(before, last);
    }
  }

  lemma {:induction false} PackedStep(c: Codec, glossaries: seq<seq<byte>>, n: nat)
    requires n < |glossaries|
    ensures Packed(c, glossaries[..n + 1]) == Packed(c, glossaries[..n]) + c.compress(glossaries[n])
  {
    assert glossaries[..n + 1][..n] == glossaries[..n];
  }

  lemma {:induction false} PlacedStep(c: Codec, table: map<nat, nat>, glossaries: seq<seq<byte>>, at: nat, n: nat)
    requires n < |glossaries|
    ensures Placed(c, table, glossaries[..n + 1], at)
         == Placed(c, table, glossaries[..n], at)[c.hash(glossaries[n]) := at + |Packed(c, glossaries[..n])|]
  {
    hide Packed;
    assert glossaries[..n + 1][..n] == glossaries[..n];
  }

  lemma {:induction false} PlacedAt(c: Codec, table: map<nat, nat>, glossaries: seq<seq<byte>>, at: nat, i: nat, n: nat)
    requires i < n <= |glossaries| && DistinctHashes(c, glossaries)
    ensures c.hash(glossaries[i]) in Placed(c, table, glossaries[..n], at)
    ensures Placed(c, table, glossaries[..n], at)[c.hash(glossaries[i])] == at + |Packed(c, glossaries[..i])|
    decreases n
  {
    hide Packed, Placed;
    PlacedStep(c, table, glossaries, at, n - 1);
    if i < n - 1 { PlacedAt(c, table, glossaries, at, i, n - 1); }
  }

  lemma {:induction false} ImageAt(c: Codec, rows: seq<Term>, named: seq<nat>, i: nat, n: nat)
    requires i < n <= |rows| == |named|
    ensures At(Image(c, rows[..n], named[..n]), DataSize(c, rows[..i]), RecordOf(c, rows[i], named[i]))
    decreases n
  {
    hide Image, At, RecordOf, DataSize;
    ImageStep(c, rows, named, n - 1);
    var before, last := Image(c, rows[..n - 1], named[..n - 1]), RecordOf(c, rows[n - 1], named[n - 1]);
    if i < n - 1 {
      ImageAt(c, rows, named, i, n - 1);
      AtFirst(before, last, DataSize(c, rows[..i]), RecordOf(c, rows[i], named[i]));
    } else {
      AtEnd(before, last);
    }
  }

  lemma {:induction false} StartAt(c: Codec, rows: seq<Term>, base: nat, i: nat, n: nat)
    requires i < n <= |rows|
    ensures Starts(c, rows[..n], base)[i] == base + DataSize(c, rows[..i])
    decreases n
  {
    hide Starts, DataSize;
    StartStep(c, rows, base, n - 1);
    if i < n - 1 { StartAt(c, rows, base, i, n - 1); }
  }

  lemma {:induction false} DataGrows(c: Codec, rows: seq<Term>, i: nat, n: nat)
    requires i < n <= |rows|
    ensures DataSize(c, rows[..i]) < DataSize(c, rows[..n])
    decreases n
  {
    hide DataSize, Head, Tail;
    DataStep(c, rows, n - 1);
    if i < n - 1 { DataGrows(c, rows, i, n - 1); }
  }

  // ---- What a bank adds to what was there

  lemma {:induction false} EntriesAppend(c: Codec, a: seq<Term>, b: seq<Term>, sa: seq<nat>, sb: seq<nat>, n: nat)
    requires |a| == |sa| && |b| == |sb| && n <= |b|
    ensures EntriesOf(c, a + b[..n], sa + sb[..n]) == EntriesOf(c, a, sa) + EntriesOf(c, b[..n], sb[..n])
  {
    hide EntriesOf, EntriesFor;
    if n == 0 {
      assert a + b[..n] == a && sa + sb[..n] == sa;
      NoneAt(c);
    } else {
      EntriesAppend(c, a, b, sa, sb, n - 1);
      EntryStep(c, b, sb, n - 1);
      EntryStep(c, a + b[..n], sa + sb[..n], |a| + n - 1);
      var all, starts := a + b[..n], sa + sb[..n];
      assert all[..|a| + n] == all && all[..|a| + n - 1] == a + b[..n - 1];
      assert starts[..|a| + n] == starts && starts[..|a| + n - 1] == sa + sb[..n - 1];
    }
  }

  lemma {:induction false} NoneAt(c: Codec)
    ensures EntriesOf(c, [], []) == [] && Packed(c, []) == [] && DataSize(c, []) == 0
  {
  }

  lemma {:induction false} DataAppend(c: Codec, a: seq<Term>, b: seq<Term>, n: nat)
    requires n <= |b|
    ensures DataSize(c, a + b[..n]) == DataSize(c, a) + DataSize(c, b[..n])
  {
    hide DataSize, RecordOf;
    if n == 0 {
      assert a + b[..n] == a && b[..n] == [];
      NoneAt(c);
    } else {
      DataAppend(c, a, b, n - 1);
      DataStep(c, b, n - 1);
      var all := a + b[..n];
      DataStep(c, all, |a| + n - 1);
      assert all[..|a| + n] == all && all[..|a| + n - 1] == a + b[..n - 1];
    }
  }

  lemma {:induction false} PackedAppend(c: Codec, a: seq<seq<byte>>, b: seq<seq<byte>>, n: nat)
    requires n <= |b|
    ensures Packed(c, a + b[..n]) == Packed(c, a) + Packed(c, b[..n])
  {
    hide Packed;
    if n == 0 {
      assert a + b[..n] == a && b[..n] == [];
      NoneAt(c);
    } else {
      PackedAppend(c, a, b, n - 1);
      PackedStep(c, b, n - 1);
      var all := a + b[..n];
      PackedStep(c, all, |a| + n - 1);
      assert all[..|a| + n] == all && all[..|a| + n - 1] == a + b[..n - 1];
    }
  }

  lemma {:induction false} FreshStep(c: Codec, rows: seq<Term>, known: set<nat>, n: nat)
    requires n < |rows|
    ensures var before, g := Fresh(c, rows[..n], known), rows[n].glossary;
            Fresh(c, rows[..n + 1], known) ==
            if c.hash(g) in known || Hashed(c, before, c.hash(g)) then before else before + [g]
  {
    assert rows[..n + 1][..n] == rows[..n];
  }

  // The glossaries of two lists of rows: the first list's, then the second's that it does not have.
  lemma {:induction false} FreshAppend(c: Codec, a: seq<Term>, b: seq<Term>, known: set<nat>, n: nat)
    requires n <= |b| && forall hash :: hash in known <==> UsesHash(c, a, hash)
    ensures Fresh(c, a + b[..n], {}) == Fresh(c, a, {}) + Fresh(c, b[..n], known)
  {
    hide Fresh;
    var first := Fresh(c, a, {});
    if n == 0 {
      assert a + b[..n] == a;
      assert Fresh(c, b[..n], known) == [] by { NothingFresh(c, known); }
    } else {
      FreshAppend(c, a, b, known, n - 1);
      FreshStep(c, b, known, n - 1);
      var all := a + b[..n];
      FreshStep(c, all, {}, |a| + n - 1);
      assert all[..|a| + n] == all && all[..|a| + n - 1] == a + b[..n - 1];
      var added, hash := Fresh(c, b[..n - 1], known), c.hash(b[n - 1].glossary);
      HashedParts(c, first, added, hash);
      FreshHashes(c, a, hash, |a|);
      assert a[..|a|] == a;
      assert first + (added + [b[n - 1].glossary]) == first + added + [b[n - 1].glossary];
    }
  }

  lemma {:induction false} NothingFresh(c: Codec, known: set<nat>)
    ensures Fresh(c, [], known) == []
  {
  }

  lemma HashedParts(c: Codec, a: seq<seq<byte>>, b: seq<seq<byte>>, hash: nat)
    ensures Hashed(c, a + b, hash) <==> Hashed(c, a, hash) || Hashed(c, b, hash)
  {
    if Hashed(c, a, hash) {
      var i :| 0 <= i < |a| && c.hash(a[i]) == hash;
      assert (a + b)[i] == a[i];
    }
    if Hashed(c, b, hash) {
      var i :| 0 <= i < |b| && c.hash(b[i]) == hash;
      assert (a + b)[|a| + i] == b[i];
    }
  }

  // The hashes of the distinct glossaries are those of all the rows.
  lemma {:induction false} FreshHashes(c: Codec, rows: seq<Term>, hash: nat, n: nat)
    requires n <= |rows|
    ensures Hashed(c, Fresh(c, rows[..n], {}), hash) <==> UsesHash(c, rows[..n], hash)
  {
    if n > 0 {
      hide Hashed, UsesHash;
      FreshHashes(c, rows, hash, n - 1);
      FreshStep(c, rows, {}, n - 1);
      hide Fresh;
      var before, g := Fresh(c, rows[..n - 1], {}), rows[n - 1].glossary;
      HashedAppend(c, before, g, hash);
      UsesAppend(c, rows[..n - 1], rows[n - 1], hash);
      assert rows[..n - 1] + [rows[n - 1]] == rows[..n];
    } else {
      NothingFresh(c, {});
      assert rows[..n] == [];
    }
  }

  lemma UsesAppend(c: Codec, rows: seq<Term>, t: Term, hash: nat)
    ensures UsesHash(c, rows + [t], hash) <==> UsesHash(c, rows, hash) || c.hash(t.glossary) == hash
  {
    var more := rows + [t];
    if UsesHash(c, rows, hash) {
      var i :| 0 <= i < |rows| && c.hash(rows[i].glossary) == hash;
      assert more[i] == rows[i];
    }
    assert more[|rows|] == t;
  }

  // ---- Writing a bank keeps the store sound

  lemma {:induction false} AddedAreNew(c: Codec, rows: seq<Term>, known: set<nat>, hash: nat)
    ensures Hashed(c, Fresh(c, rows, known), hash) ==> hash !in known
    ensures DistinctHashes(c, Fresh(c, rows, known))
  {
    FreshIsKept(c, rows, known);
    FreshDiffer(c, rows);
    KeptHashes(c, Fresh(c, rows, {}), known, hash);
    KeptDistinct(c, Fresh(c, rows, {}), known, |Fresh(c, rows, {})|);
    assert Fresh(c, rows, {})[..|Fresh(c, rows, {})|] == Fresh(c, rows, {});
  }

  lemma {:induction false} KeptDistinct(c: Codec, glossaries: seq<seq<byte>>, known: set<nat>, n: nat)
    requires n <= |glossaries| && DistinctHashes(c, glossaries)
    ensures DistinctHashes(c, Kept(c, glossaries[..n], known))
  {
    if n > 0 {
      KeptDistinct(c, glossaries, known, n - 1);
      assert glossaries[..n][..n - 1] == glossaries[..n - 1];
      var before, g := Kept(c, glossaries[..n - 1], known), glossaries[n - 1];
      KeptHashes(c, glossaries[..n - 1], known, c.hash(g));
      hide Kept;
      forall i | 0 <= i < |before| ensures c.hash(before[i]) != c.hash(g) { }
    }
  }

  // A record that stood before stands after.
  lemma OldStands(c: Codec, s: Store, rows: seq<Term>, t: Term, start: nat)
    requires Stands(c, s, t, start)
    ensures Stands(c, Written(c, s, rows), t, start)
  {
    hide Fresh, Packed, Placed, Image, Named, Starts, EntriesOf, RecordOf, At;
    var added := Fresh(c, rows, s.table.Keys);
    AddedAreNew(c, rows, s.table.Keys, c.hash(t.glossary));
    PlacedKeys(c, s.table, added, |s.file|, c.hash(t.glossary));
    var s' := Written(c, s, rows);
    var more := Packed(c, added) + Image(c, rows, Named(c, rows, s'.table));
    assert s'.file == s.file + more;
    AtFirst(s.file, more, s.table[c.hash(t.glossary)], c.compress(t.glossary));
    AtFirst(s.file, more, start, RecordOf(c, t, s.table[c.hash(t.glossary)]));
  }

  // A new record's glossary that an earlier bank brought.
  lemma KnownStands(c: Codec, s: Store, rows: seq<Term>, g: seq<byte>)
    requires Sound(c, s) && c.hash(g) in s.table
    requires forall k :: 0 <= k < |s.terms| && c.hash(s.terms[k].glossary) == c.hash(g) ==> s.terms[k].glossary == g
    ensures var s' := Written(c, s, rows); c.hash(g) in s'.table && At(s'.file, s'.table[c.hash(g)], c.compress(g))
  {
    hide Written, EntriesOf, RecordOf, Packed, Fresh, DataSize, At, Ascending;
    assert UsesHash(c, s.terms, c.hash(g));
    var k :| 0 <= k < |s.terms| && c.hash(s.terms[k].glossary) == c.hash(g);
    OldStands(c, s, rows, s.terms[k], s.starts[k]);
  }

  // One that this bank brings.
  lemma {:induction false} AddedStands(c: Codec, s: Store, rows: seq<Term>, g: seq<byte>, k: nat)
    requires k < |Fresh(c, rows, s.table.Keys)| && Fresh(c, rows, s.table.Keys)[k] == g
    ensures var s' := Written(c, s, rows); c.hash(g) in s'.table && At(s'.file, s'.table[c.hash(g)], c.compress(g))
  {
    hide Image, Named, Starts, EntriesOf, Packed, Fresh, Placed, At, DistinctHashes;
    var added := Fresh(c, rows, s.table.Keys);
    AddedAreNew(c, rows, s.table.Keys, c.hash(g));
    assert added[..|added|] == added;
    PlacedAt(c, s.table, added, |s.file|, k, |added|);
    PackedAt(c, added, k, |added|);
    var table := Placed(c, s.table, added, |s.file|);
    AtSecond(s.file, Packed(c, added), |Packed(c, added[..k])|, c.compress(g));
    AtFirst(s.file + Packed(c, added), Image(c, rows, Named(c, rows, table)), table[c.hash(g)], c.compress(g));
  }

  lemma IdentifiedWith(c: Codec, a: seq<Term>, b: seq<Term>, i: nat)
    requires Identified(c, a + b) && i < |b|
    ensures forall k :: 0 <= k < |a| && c.hash(a[k].glossary) == c.hash(b[i].glossary) ==>
              a[k].glossary == b[i].glossary
    ensures forall k :: 0 <= k < |b| && c.hash(b[k].glossary) == c.hash(b[i].glossary) ==>
              b[k].glossary == b[i].glossary
  {
    assert (a + b)[|a| + i] == b[i];
    forall k | 0 <= k < |a| ensures (a + b)[k] == a[k] { }
    forall k | 0 <= k < |b| ensures (a + b)[|a| + k] == b[k] { }
  }

  // A new record's glossary stands in the file, whoever brought it.
  lemma GlossaryStands(c: Codec, s: Store, rows: seq<Term>, i: nat)
    requires Sound(c, s) && i < |rows| && Identified(c, s.terms + rows)
    ensures var s', g := Written(c, s, rows), rows[i].glossary;
            c.hash(g) in s'.table && At(s'.file, s'.table[c.hash(g)], c.compress(g))
  {
    var g := rows[i].glossary;
    IdentifiedWith(c, s.terms, rows, i);
    hide Sound, Identified, Written, Fresh, At;
    if c.hash(g) in s.table {
      KnownStands(c, s, rows, g);
    } else {
      AllHashed(c, rows, s.table.Keys, i);
      var k :| 0 <= k < |Fresh(c, rows, s.table.Keys)| && c.hash(Fresh(c, rows, s.table.Keys)[k]) == c.hash(g);
      FreshAreGlossaries(c, rows, s.table.Keys);
      var j :| 0 <= j < |rows| && rows[j].glossary == Fresh(c, rows, s.table.Keys)[k];
      AddedStands(c, s, rows, g, k);
    }
  }

  lemma {:induction false} NewStands(c: Codec, s: Store, rows: seq<Term>, i: nat)
    requires Sound(c, s) && i < |rows| && Identified(c, s.terms + rows)
    ensures var s' := Written(c, s, rows);
            && |s'.starts| == |s.starts| + |rows|
            && Stands(c, s', rows[i], s'.starts[|s.starts| + i])
            && s'.starts[|s.starts| + i]
               == |s.file| + |Packed(c, Fresh(c, rows, s.table.Keys))| + DataSize(c, rows[..i])
  {
    hide Image, Named, Starts, EntriesOf, RecordOf, Packed, Fresh, Placed, DataSize, Sound;
    var s' := Written(c, s, rows);
    GlossaryStands(c, s, rows, i);
    var front := s.file + Packed(c, Fresh(c, rows, s.table.Keys));
    var named := Named(c, rows, s'.table);
    assert rows[..|rows|] == rows && named[..|rows|] == named;
    StartAt(c, rows, |front|, i, |rows|);
    ImageAt(c, rows, named, i, |rows|);
    AtSecond(front, Image(c, rows, named), DataSize(c, rows[..i]), RecordOf(c, rows[i], named[i]));
  }

  lemma AscendingAppend(a: seq<nat>, b: seq<nat>, base: nat)
    requires Ascending(a) && (forall i :: 0 <= i < |a| ==> a[i] < base)
    requires Ascending(b) && (forall i :: 0 <= i < |b| ==> base <= b[i])
    ensures Ascending(a + b)
  {
  }

  lemma {:induction false} NewStarts(c: Codec, rows: seq<Term>, base: nat)
    ensures var starts := Starts(c, rows, base);
            Ascending(starts) && forall i :: 0 <= i < |starts| ==> base <= starts[i] < base + DataSize(c, rows)
  {
    hide Starts, DataSize;
    var starts := Starts(c, rows, base);
    assert rows[..|rows|] == rows;
    forall i | 0 <= i < |starts| ensures base <= starts[i] < base + DataSize(c, rows) {
      StartAt(c, rows, base, i, |rows|);
      DataGrows(c, rows, i, |rows|);
    }
    forall i, j | 0 <= i < j < |starts| ensures starts[i] < starts[j] {
      StartAt(c, rows, base, i, |rows|);
      StartAt(c, rows, base, j, |rows|);
      DataGrows(c, rows, i, j);
    }
  }

  lemma KeysAfter(c: Codec, s: Store, rows: seq<Term>, hash: nat)
    requires forall h :: h in s.table <==> UsesHash(c, s.terms, h)
    ensures hash in Written(c, s, rows).table <==> UsesHash(c, s.terms + rows, hash)
  {
    hide Image, Named, Starts, EntriesOf, RecordOf, Packed, Fresh, Placed;
    var added := Fresh(c, rows, s.table.Keys);
    PlacedKeys(c, s.table, added, |s.file|, hash);
    FreshAppend(c, s.terms, rows, s.table.Keys, |rows|);
    assert rows[..|rows|] == rows;
    var first := Fresh(c, s.terms, {});
    HashedParts(c, first, added, hash);
    var all := s.terms + rows;
    FreshHashes(c, s.terms, hash, |s.terms|);
    FreshHashes(c, all, hash, |all|);
    assert s.terms[..|s.terms|] == s.terms && all[..|all|] == all;
  }

  lemma {:induction false} SizesAdd(c: Codec, s: Store, rows: seq<Term>)
    requires Sound(c, s)
    ensures var s' := Written(c, s, rows);
            && |s'.file| == |Packed(c, Fresh(c, s'.terms, {}))| + DataSize(c, s'.terms)
            && s'.offsets == EntriesOf(c, s'.terms, s'.starts)
  {
    hide Image, Named, Starts, EntriesOf, RecordOf, Packed, Fresh, Placed, DataSize, Stands;
    var added, first := Fresh(c, rows, s.table.Keys), Fresh(c, s.terms, {});
    var starts := Starts(c, rows, |s.file| + |Packed(c, added)|);
    FreshAppend(c, s.terms, rows, s.table.Keys, |rows|);
    PackedAppend(c, first, added, |added|);
    DataAppend(c, s.terms, rows, |rows|);
    EntriesAppend(c, s.terms, rows, s.starts, starts, |rows|);
    assert rows[..|rows|] == rows && added[..|added|] == added && starts[..|rows|] == starts;
  }

  lemma AllStand(c: Codec, s: Store, rows: seq<Term>)
    requires Sound(c, s) && Identified(c, s.terms + rows)
    ensures var s' := Written(c, s, rows);
            && s'.terms == s.terms + rows && |s'.starts| == |s'.terms|
            && forall i :: 0 <= i < |s'.terms| ==> Stands(c, s', s'.terms[i], s'.starts[i])
  {
    hide Image, Named, Starts, EntriesOf, RecordOf, Packed, Fresh, Placed, DataSize, Stands, UsesHash, Ascending,
      Identified;
    var s' := Written(c, s, rows);
    forall i | 0 <= i < |s'.terms| ensures Stands(c, s', s'.terms[i], s'.starts[i]) {
      if i < |s.terms| {
        OldStands(c, s, rows, s.terms[i], s.starts[i]);
      } else {
        NewStands(c, s, rows, i - |s.terms|);
      }
    }
  }

  lemma StartsAscend(c: Codec, s: Store, rows: seq<Term>)
    requires Sound(c, s)
    ensures var s' := Written(c, s, rows);
            Ascending(s'.starts) && forall i :: 0 <= i < |s'.starts| ==> s'.starts[i] < |s'.file|
  {
    hide Named, Starts, EntriesOf, Packed, Fresh, Placed, DataSize, Stands, UsesHash;
    var base := |s.file| + |Packed(c, Fresh(c, rows, s.table.Keys))|;
    NewStarts(c, rows, base);
    AscendingAppend(s.starts, Starts(c, rows, base), base);
    hide Ascending, Image;
  }

  // Any bank may follow, as long as glossary hashes identify glossaries.
  lemma WriteKeepsSound(c: Codec, s: Store, rows: seq<Term>)
    requires Sound(c, s) && Identified(c, s.terms + rows)
    ensures Sound(c, Written(c, s, rows))
  {
    hide Written, EntriesOf, Packed, Fresh, DataSize, Stands, UsesHash, Ascending, Identified;
    var s' := Written(c, s, rows);
    SizesAdd(c, s, rows);
    forall hash ensures hash in s'.table <==> UsesHash(c, s.terms + rows, hash) { KeysAfter(c, s, rows, hash); }
    StartsAscend(c, s, rows);
    AllStand(c, s, rows);
  }

  // ---- Whole runs

  function WriteAll(c: Codec, banks: seq<seq<Term>>): Store {
    if banks == [] then NOTHING_WRITTEN
    else Written(c, WriteAll(c, banks[..|banks| - 1]), banks[|banks| - 1])
  }

  function Rows(banks: seq<seq<Term>>): seq<Term> {
    if banks == [] then [] else Rows(banks[..|banks| - 1]) + banks[|banks| - 1]
  }

  lemma IdentifiedPart(c: Codec, a: seq<Term>, b: seq<Term>)
    requires Identified(c, a + b)
    ensures Identified(c, a)
  {
    forall i, j | 0 <= i < |a| && 0 <= j < |a| && c.hash(a[i].glossary) == c.hash(a[j].glossary)
      ensures a[i].glossary == a[j].glossary
    {
      assert (a + b)[i] == a[i] && (a + b)[j] == a[j];
    }
  }

  // However the rows are spread over banks, the store is sound and holds them in order.
  lemma {:induction false} RunsAreSound(c: Codec, banks: seq<seq<Term>>)
    requires Identified(c, Rows(banks))
    ensures Sound(c, WriteAll(c, banks)) && WriteAll(c, banks).terms == Rows(banks)
  {
    hide Sound, Written;
    if banks == [] {
      StartsSound(c);
    } else {
      var before := banks[..|banks| - 1];
      IdentifiedPart(c, Rows(before), banks[|banks| - 1]);
      RunsAreSound(c, before);
      WriteKeepsSound(c, WriteAll(c, before), banks[|banks| - 1]);
      assert WriteAll(c, banks).terms == Rows(banks) by { WrittenTerms(c, WriteAll(c, before), banks[|banks| - 1]); }
    }
  }

  lemma WrittenTerms(c: Codec, s: Store, rows: seq<Term>)
    ensures Written(c, s, rows).terms == s.terms + rows
  {
  }

  // Offsets that never decrease and stay below a limit.
  predicate NeverDecrease(entries: seq<Entry>, limit: nat) {
    && (forall i, j :: 0 <= i < j < |entries| ==> entries[i].offset <= entries[j].offset)
    && (forall i :: 0 <= i < |entries| ==> entries[i].offset < limit)
  }

  lemma NeverDecreaseAppend(a: seq<Entry>, b: seq<Entry>, limit: nat, start: nat, limit': nat)
    requires NeverDecrease(a, limit) && limit <= start < limit'
    requires forall i :: 0 <= i < |b| ==> b[i].offset == start
    ensures NeverDecrease(a + b, limit')
  {
  }

  lemma EntriesStart(c: Codec, t: Term, start: nat)
    ensures forall i :: 0 <= i < |EntriesFor(c, t, start)| ==> EntriesFor(c, t, start)[i].offset == start
  {
  }

  lemma {:induction false} OffsetsAscend(c: Codec, terms: seq<Term>, starts: seq<nat>, limit: nat, n: nat)
    requires |starts| == |terms| && Ascending(starts) && n <= |terms|
    requires forall i :: 0 <= i < n ==> starts[i] < limit
    ensures NeverDecrease(EntriesOf(c, terms[..n], starts[..n]), limit)
    decreases n
  {
    if n > 0 {
      hide EntriesOf, EntriesFor, NeverDecrease;
      OffsetsAscend(c, terms, starts, starts[n - 1], n - 1);
      EntryStep(c, terms, starts, n - 1);
      EntriesStart(c, terms[n - 1], starts[n - 1]);
      NeverDecreaseAppend(EntriesOf(c, terms[..n - 1], starts[..n - 1]), EntriesFor(c, terms[n - 1], starts[n - 1]),
                          starts[n - 1], starts[n - 1], limit);
    }
  }

  // The offsets the writer hands to the sort never decrease.
  lemma OffsetsNeverDecrease(c: Codec, s: Store)
    requires Sound(c, s)
    ensures NeverDecrease(s.offsets, |s.file|)
  {
    hide Stands, Packed, Fresh, DataSize, UsesHash, NeverDecrease, Ascending;
    var n := |s.terms|;
    assert s.terms[..n] == s.terms && s.starts[..n] == s.starts;
    OffsetsAscend(c, s.terms, s.starts, |s.file|, n);
  }
}
