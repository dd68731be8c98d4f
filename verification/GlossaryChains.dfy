// Grouping the rows of a query by term (query_raw, src/query.cpp): the terms in the order they are
// first found, and each term's glossaries as a list linked through the rows.
module GlossaryChains {
  import opened Options
  import opened Bytes
  import opened Records

  // What rows are grouped by: the expression, and the reading after a reading normalizer.
  datatype TermKey = TermKey(expression: seq<byte>, reading: seq<byte>)

  datatype RawGlossary = RawGlossary(row: Row, next: Option<nat>)

  // `readings` are the readings merged into the term, which the source keeps where a normalizer can merge
  // different ones.
  datatype RawTerm = RawTerm(
    key: TermKey, reading: seq<byte>, readings: seq<seq<byte>>, score: real, first: nat, last: nat)

  // The reading normalizer (the identity without one), and the number a score's bytes stand for.
  datatype Reader = Reader(normalize: seq<byte> -> seq<byte>, value: seq<byte> -> real)

  function KeyOf(reader: Reader, row: Row): TermKey {
    TermKey(row.expression, reader.normalize(row.reading))
  }

  function KeysOf(reader: Reader, rows: seq<Row>): (r: seq<TermKey>)
    ensures |r| == |rows| && forall i :: 0 <= i < |r| ==> r[i] == KeyOf(reader, rows[i])
  {
    seq(|rows|, i requires 0 <= i < |rows| => KeyOf(reader, rows[i]))
  }

  // ---- What the links should be

  // The places of a key from `from` on.
  function Places(keys: seq<TermKey>, key: TermKey, from: nat): seq<nat>
    requires from <= |keys|
    decreases |keys| - from
  {
    if from == |keys| then []
    else (if keys[from] == key then [from] else []) + Places(keys, key, from + 1)
  }

  lemma {:induction false} PlacesAre(keys: seq<TermKey>, key: TermKey, from: nat)
    requires from <= |keys|
    ensures forall i: nat :: i in Places(keys, key, from) <==> from <= i < |keys| && keys[i] == key
    ensures forall i, j :: 0 <= i < j < |Places(keys, key, from)| ==>
              Places(keys, key, from)[i] < Places(keys, key, from)[j]
    decreases |keys| - from
  {
    if from < |keys| {
      var rest := Places(keys, key, from + 1);
      PlacesAre(keys, key, from + 1);
      forall j | 0 <= j < |rest| ensures from < rest[j] { assert rest[j] in rest; }
    }
  }

  ghost predicate NextIs(keys: seq<TermKey>, i: nat, next: Option<nat>)
    requires i < |keys|
  {
    if next.None? then forall j :: i < j < |keys| ==> keys[j] != keys[i]
    else
      && i < next.value < |keys| && keys[next.value] == keys[i]
      && forall j :: i < j < next.value ==> keys[j] != keys[i]
  }

  ghost predicate Linked(keys: seq<TermKey>, glossaries: seq<RawGlossary>) {
    |glossaries| == |keys| && forall i :: 0 <= i < |keys| ==> NextIs(keys, i, glossaries[i].next)
  }

  // The list from a glossary on.
  function Chain(keys: seq<TermKey>, glossaries: seq<RawGlossary>, i: nat): seq<nat>
    requires Linked(keys, glossaries) && i < |keys|
    decreases |keys| - i
  {
    assert NextIs(keys, i, glossaries[i].next);
    [i] + if glossaries[i].next.None? then [] else Chain(keys, glossaries, glossaries[i].next.value)
  }

  lemma {:induction false} PlacesSkip(keys: seq<TermKey>, key: TermKey, from: nat, to: nat)
    requires from <= to <= |keys| && forall j :: from <= j < to ==> keys[j] != key
    ensures Places(keys, key, from) == Places(keys, key, to)
    decreases |keys| - from
  {
    if from < to { PlacesSkip(keys, key, from + 1, to); }
  }

  // The list from a glossary on is all the later rows of its key, in order.
  lemma {:induction false} ChainIsPlaces(keys: seq<TermKey>, glossaries: seq<RawGlossary>, i: nat)
    requires Linked(keys, glossaries) && i < |keys|
    ensures Chain(keys, glossaries, i) == Places(keys, keys[i], i)
    decreases |keys| - i
  {
    assert NextIs(keys, i, glossaries[i].next);
    match glossaries[i].next
    case None =>
      PlacesSkip(keys, keys[i], i + 1, |keys|);
    case Some(next) =>
      PlacesSkip(keys, keys[i], i + 1, next);
      ChainIsPlaces(keys, glossaries, next);
  }

  // The best score of the rows of a key.
  ghost predicate IsBest(reader: Reader, rows: seq<Row>, key: TermKey, score: real) {
    && (exists i :: 0 <= i < |rows| && KeyOf(reader, rows[i]) == key && reader.value(rows[i].score) == score)
    && (forall i :: 0 <= i < |rows| && KeyOf(reader, rows[i]) == key ==> reader.value(rows[i].score) <= score)
  }

  function WithReading(readings: seq<seq<byte>>, reading: seq<byte>): seq<seq<byte>> {
    if reading in readings then readings else readings + [reading]
  }

  // The readings of the rows of a key, by first use.
  function Readings(reader: Reader, rows: seq<Row>, key: TermKey): seq<seq<byte>> {
    if rows == [] then []
    else
      var n := |rows| - 1;
      var before := Readings(reader, rows[..n], key);
      if KeyOf(reader, rows[n]) == key then WithReading(before, rows[n].reading) else before
  }

  // Each reading of the key's rows is listed, once, and nothing else.
  lemma {:induction false} ReadingsAre(reader: Reader, rows: seq<Row>, key: TermKey, reading: seq<byte>)
    ensures reading in Readings(reader, rows, key) <==>
            exists i :: 0 <= i < |rows| && KeyOf(reader, rows[i]) == key && rows[i].reading == reading
    ensures forall i, j :: 0 <= i < j < |Readings(reader, rows, key)| ==>
              Readings(reader, rows, key)[i] != Readings(reader, rows, key)[j]
  {
    if rows != [] {
      var n := |rows| - 1;
      ReadingsAre(reader, rows[..n], key, reading);
      if i :| 0 <= i < |rows| && KeyOf(reader, rows[i]) == key && rows[i].reading == reading {
        if i < n { assert rows[..n][i] == rows[i]; }
      }
    }
  }

  lemma {:induction false} NoReadings(reader: Reader, rows: seq<Row>, key: TermKey)
    requires forall i :: 0 <= i < |rows| ==> KeyOf(reader, rows[i]) != key
    ensures Readings(reader, rows, key) == []
  {
    if rows != [] { NoReadings(reader, rows[..|rows| - 1], key); }
  }

  ghost predicate TermIs(reader: Reader, rows: seq<Row>, t: RawTerm) {
    var keys := KeysOf(reader, rows);
    && t.first <= t.last < |rows| && keys[t.first] == t.key && keys[t.last] == t.key
    && (forall i :: 0 <= i < t.first ==> keys[i] != t.key)
    && (forall i :: t.last < i < |keys| ==> keys[i] != t.key)
    && t.reading == rows[t.first].reading && t.readings == Readings(reader, rows, t.key)
    && IsBest(reader, rows, t.key, t.score)
  }

  // One term per key, in the order the keys were first found.
  ghost predicate Grouped(reader: Reader, rows: seq<Row>, terms: seq<RawTerm>) {
    && (forall k :: 0 <= k < |terms| ==> TermIs(reader, rows, terms[k]))
    && (forall k, l :: 0 <= k < l < |terms| ==> terms[k].first < terms[l].first)
    && (forall i :: 0 <= i < |rows| ==> HasTerm(terms, KeyOf(reader, rows[i])))
  }

  predicate HasTerm(terms: seq<RawTerm>, key: TermKey) {
    exists k :: 0 <= k < |terms| && terms[k].key == key
  }

  // A term's glossaries, read along its list, are the rows of its key in the order they came.
  lemma {:induction false} TermChain(reader: Reader, rows: seq<Row>, glossaries: seq<RawGlossary>, t: RawTerm)
    requires Linked(KeysOf(reader, rows), glossaries) && TermIs(reader, rows, t)
    ensures Chain(KeysOf(reader, rows), glossaries, t.first) == Places(KeysOf(reader, rows), t.key, 0)
  {
    var keys := KeysOf(reader, rows);
    ChainIsPlaces(keys, glossaries, t.first);
    PlacesSkip(keys, t.key, 0, t.first);
  }

  // ---- One row more

  function Higher(a: real, b: real): real { if a < b then b else a }

  // A term with the row at this place more.
  function Grown(reader: Reader, t: RawTerm, row: Row, place: nat): RawTerm {
    t.(last := place, score := Higher(t.score, reader.value(row.score)),
       readings := WithReading(t.readings, row.reading))
  }

  // A term of this row.
  function Fresh(reader: Reader, row: Row, place: nat): RawTerm {
    RawTerm(KeyOf(reader, row), row.reading, [row.reading], reader.value(row.score), place, place)
  }

  lemma LinkMore(keys: seq<TermKey>, glossaries: seq<RawGlossary>, key: TermKey, row: Row, last: Option<nat>)
    requires Linked(keys, glossaries)
    requires last.None? ==> forall i :: 0 <= i < |keys| ==> keys[i] != key
    requires last.Some? ==> last.value < |keys| && keys[last.value] == key
                            && forall i :: last.value < i < |keys| ==> keys[i] != key
    ensures var linked := if last.None? then glossaries
                          else glossaries[last.value := glossaries[last.value].(next := Some(|keys|))];
            Linked(keys + [key], linked + [RawGlossary(row, None)])
  {
    var linked := if last.None? then glossaries
                  else glossaries[last.value := glossaries[last.value].(next := Some(|keys|))];
    var keys', all := keys + [key], linked + [RawGlossary(row, None)];
    forall i | 0 <= i < |keys'| ensures NextIs(keys', i, all[i].next) {
      if i < |keys| { assert NextIs(keys, i, glossaries[i].next); }
    }
  }

  lemma OtherTermStays(reader: Reader, rows: seq<Row>, row: Row, t: RawTerm)
    requires TermIs(reader, rows, t) && KeyOf(reader, row) != t.key
    ensures TermIs(reader, rows + [row], t)
  {
    var more := rows + [row];
    assert more[..|rows|] == rows;
    assert forall i :: 0 <= i < |rows| ==> KeysOf(reader, more)[i] == KeysOf(reader, rows)[i];
    var i :| 0 <= i < |rows| && KeyOf(reader, rows[i]) == t.key && reader.value(rows[i].score) == t.score;
    assert more[i] == rows[i];
  }

  lemma OwnTermGrows(reader: Reader, rows: seq<Row>, row: Row, t: RawTerm)
    requires TermIs(reader, rows, t) && KeyOf(reader, row) == t.key
    ensures TermIs(reader, rows + [row], Grown(reader, t, row, |rows|))
  {
    var more := rows + [row];
    assert more[..|rows|] == rows;
    var score := Higher(t.score, reader.value(row.score));
    assert forall i :: 0 <= i < |rows| ==> KeysOf(reader, more)[i] == KeysOf(reader, rows)[i];
    var i :| 0 <= i < |rows| && KeyOf(reader, rows[i]) == t.key && reader.value(rows[i].score) == t.score;
    assert more[i] == rows[i] && more[|rows|] == row;
    var best := if score == t.score then i else |rows|;
    assert KeyOf(reader, more[best]) == t.key && reader.value(more[best].score) == score;
  }

  lemma NewTerm(reader: Reader, rows: seq<Row>, row: Row)
    requires forall i :: 0 <= i < |rows| ==> KeyOf(reader, rows[i]) != KeyOf(reader, row)
    ensures TermIs(reader, rows + [row], Fresh(reader, row, |rows|))
  {
    var more := rows + [row];
    assert more[..|rows|] == rows;
    NoReadings(reader, rows, KeyOf(reader, row));
    assert more[|rows|] == row;
    forall i | 0 <= i < |rows| ensures KeysOf(reader, more)[i] != KeyOf(reader, row) { assert more[i] == rows[i]; }
  }

  // Distinct terms have distinct keys: each is the first of its key.
  lemma KeysDiffer(reader: Reader, rows: seq<Row>, terms: seq<RawTerm>, k: nat, l: nat)
    requires Grouped(reader, rows, terms) && k < l < |terms|
    ensures terms[k].key != terms[l].key
  {
    assert TermIs(reader, rows, terms[k]) && TermIs(reader, rows, terms[l]);
  }

  lemma GroupInto(reader: Reader, rows: seq<Row>, terms: seq<RawTerm>, row: Row, at: nat)
    requires Grouped(reader, rows, terms) && at < |terms| && terms[at].key == KeyOf(reader, row)
    ensures Grouped(reader, rows + [row], terms[at := Grown(reader, terms[at], row, |rows|)])
  {
    hide TermIs;
    var after := terms[at := Grown(reader, terms[at], row, |rows|)];
    forall k | 0 <= k < |after| ensures TermIs(reader, rows + [row], after[k]) {
      if k == at {
        OwnTermGrows(reader, rows, row, terms[at]);
      } else {
        if k < at { KeysDiffer(reader, rows, terms, k, at); } else { KeysDiffer(reader, rows, terms, at, k); }
        OtherTermStays(reader, rows, row, terms[k]);
      }
    }
    forall i | 0 <= i < |rows| + 1 ensures HasTerm(after, KeyOf(reader, (rows + [row])[i])) {
      if i < |rows| {
        assert HasTerm(terms, KeyOf(reader, rows[i]));
        var k :| 0 <= k < |terms| && terms[k].key == KeyOf(reader, rows[i]);
        assert after[k].key == terms[k].key;
      } else {
        assert after[at].key == KeyOf(reader, row);
      }
    }
  }

  lemma GroupNew(reader: Reader, rows: seq<Row>, terms: seq<RawTerm>, row: Row)
    requires Grouped(reader, rows, terms) && !HasTerm(terms, KeyOf(reader, row))
    ensures forall i :: 0 <= i < |rows| ==> KeyOf(reader, rows[i]) != KeyOf(reader, row)
    ensures Grouped(reader, rows + [row], terms + [Fresh(reader, row, |rows|)])
  {
    var after := terms + [Fresh(reader, row, |rows|)];
    NewTerm(reader, rows, row);
    forall k | 0 <= k < |terms| ensures TermIs(reader, rows + [row], terms[k]) && terms[k].first < |rows| {
      assert TermIs(reader, rows, terms[k]);
      OtherTermStays(reader, rows, row, terms[k]);
    }
    hide TermIs;
    forall i | 0 <= i < |rows| + 1 ensures HasTerm(after, KeyOf(reader, (rows + [row])[i])) {
      if i < |rows| {
        assert HasTerm(terms, KeyOf(reader, rows[i]));
        var k :| 0 <= k < |terms| && terms[k].key == KeyOf(reader, rows[i]);
        assert after[k].key == terms[k].key;
      } else {
        assert after[|terms|].key == KeyOf(reader, row);
      }
    }
  }

  // ---- RawTerms

  class RawTerms {
    const reader: Reader
    var terms: seq<RawTerm>
    var glossaries: seq<RawGlossary>
    var formOfRows: seq<Row>
    ghost var rows: seq<Row>

    ghost predicate Valid()
      reads this
    {
      && Linked(KeysOf(reader, rows), glossaries) && Grouped(reader, rows, terms)
      && forall i :: 0 <= i < |rows| ==> glossaries[i].row == rows[i]
    }

    constructor (reader: Reader)
      ensures Valid() && rows == [] && formOfRows == []
    {
      this.reader := reader;
      terms, glossaries, formOfRows, rows := [], [], [], [];
    }

    // find_term
    method FindTerm(key: TermKey) returns (at: Option<nat>)
      ensures at.Some? ==> at.value < |terms| && terms[at.value].key == key
      ensures at.None? ==> !HasTerm(terms, key)
    {
      for k := 0 to |terms|
        invariant forall j :: 0 <= j < k ==> terms[j].key != key
      {
        if terms[k].key == key { return Some(k); }
      }
      return None;
    }

    // One matching row: noted when it has form-of references that are followed, and a glossary of its
    // term unless it has nothing else.
    method Add(row: Row, follow: bool)
      requires Valid()
      modifies this
      ensures Valid()
      ensures formOfRows == old(formOfRows) + if follow && row.formOf then [row] else []
      ensures rows == old(rows) + if follow && row.formOf && row.onlyReferences then [] else [row]
    {
      hide Linked, Grouped;
      if follow && row.formOf {
        formOfRows := formOfRows + [row];
        if row.onlyReferences { return; }
      }
      var key := KeyOf(reader, row);
      var at := FindTerm(key);
      ghost var keys := KeysOf(reader, rows);
      assert KeysOf(reader, rows + [row]) == keys + [key];
      LinkedSize(keys, glossaries);
      if at.None? {
        GroupNew(reader, rows, terms, row);
        LinkMore(keys, glossaries, key, row, None);
        terms := terms + [Fresh(reader, row, |glossaries|)];
      } else {
        var t := terms[at.value];
        TermAt(reader, rows, terms, at.value);
        GroupInto(reader, rows, terms, row, at.value);
        LinkMore(keys, glossaries, key, row, Some(t.last));
        glossaries := glossaries[t.last := glossaries[t.last].(next := Some(|glossaries|))];
        terms := terms[at.value := Grown(reader, t, row, |glossaries|)];
      }
      glossaries := glossaries + [RawGlossary(row, None)];
      rows := rows + [row];
    }
  }

  lemma LinkedSize(keys: seq<TermKey>, glossaries: seq<RawGlossary>)
    requires Linked(keys, glossaries)
    ensures |glossaries| == |keys|
  {
  }

  lemma TermAt(reader: Reader, rows: seq<Row>, terms: seq<RawTerm>, k: nat)
    requires Grouped(reader, rows, terms) && k < |terms|
    ensures var keys, t := KeysOf(reader, rows), terms[k];
            t.last < |keys| && keys[t.last] == t.key && forall i :: t.last < i < |keys| ==> keys[i] != t.key
  {
    assert TermIs(reader, rows, terms[k]);
  }
}
