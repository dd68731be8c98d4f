// Term banks (src/importer.cpp): a worker turns a bank's rows into records and a blob of compressed
// glossaries, with the glossaries' offsets left open.
module TermBank {
  import opened Options
  import opened Bytes
  import opened Entries
  import opened Records

  // What the import takes from elsewhere: the hash, the compressor, and what a glossary's
  // definitions say about form-of references.
  datatype Codec = Codec(
    hash: seq<byte> -> nat, compress: seq<byte> -> seq<byte>, kind: seq<byte> -> FormOfKind)

  // A compressed glossary inside the blob.
  datatype Span = Span(hash: nat, offset: nat, size: nat, kind: FormOfKind)

  // A record's glossary hash, and the place of the offset left open.
  datatype Pointer = Pointer(hash: nat, place: nat)

  // ProcessedFile. The spans are in the order in which they entered the map.
  datatype Bank = Bank(
    data: seq<byte>, offsets: seq<Entry>, blob: seq<byte>, glossaries: seq<Span>, pointers: seq<Pointer>,
    count: nat)

  // Glossary hashes identify glossaries.
  ghost predicate Identified(c: Codec, terms: seq<Term>) {
    forall i, j :: 0 <= i < |terms| && 0 <= j < |terms| && c.hash(terms[i].glossary) == c.hash(terms[j].glossary) ==>
      terms[i].glossary == terms[j].glossary
  }

  // ---- The glossaries

  predicate Hashed(c: Codec, glossaries: seq<seq<byte>>, hash: nat) {
    exists i :: 0 <= i < |glossaries| && c.hash(glossaries[i]) == hash
  }

  // The glossaries of the rows whose hashes are not known yet, by first use, each once.
  function Fresh(c: Codec, terms: seq<Term>, known: set<nat>): seq<seq<byte>> {
    if terms == [] then []
    else
      var before := Fresh(c, terms[..|terms| - 1], known);
      var g := terms[|terms| - 1].glossary;
      if c.hash(g) in known || Hashed(c, before, c.hash(g)) then before else before + [g]
  }

  // Compressed back to back.
  function Packed(c: Codec, glossaries: seq<seq<byte>>): seq<byte> {
    if glossaries == [] then []
    else Packed(c, glossaries[..|glossaries| - 1]) + c.compress(glossaries[|glossaries| - 1])
  }

  function SpanOf(c: Codec, glossary: seq<byte>, offset: nat): Span {
    Span(c.hash(glossary), offset, |c.compress(glossary)|, c.kind(glossary))
  }

  function Spans(c: Codec, glossaries: seq<seq<byte>>): (r: seq<Span>)
    ensures |r| == |glossaries|
    ensures forall i :: 0 <= i < |r| ==> r[i].hash == c.hash(glossaries[i])
  {
    if glossaries == [] then []
    else
      var before := glossaries[..|glossaries| - 1];
      Spans(c, before) + [SpanOf(c, glossaries[|glossaries| - 1], |Packed(c, before)|)]
  }

  // The map's entry of a hash.
  function Lookup(spans: seq<Span>, hash: nat): (r: Option<Span>)
    ensures r.Some? ==> r.value in spans && r.value.hash == hash
    ensures r.None? ==> forall i :: 0 <= i < |spans| ==> spans[i].hash != hash
  {
    if spans == [] then None
    else if spans[|spans| - 1].hash == hash then Some(spans[|spans| - 1])
    else Lookup(spans[..|spans| - 1], hash)
  }

  // ---- The records

  function RecordOf(c: Codec, t: Term, glossaryOffset: nat): (r: seq<byte>)
    ensures |r| == |Head(t)| + 8 + |Tail(t, |c.compress(t.glossary)|, c.kind(t.glossary))|
  {
    Encode(t, glossaryOffset, |c.compress(t.glossary)|, c.kind(t.glossary))
  }

  function DataSize(c: Codec, terms: seq<Term>): nat {
    if terms == [] then 0
    else DataSize(c, terms[..|terms| - 1]) + |RecordOf(c, terms[|terms| - 1], 0)|
  }

  // The records back to back, with these offsets for their glossaries.
  function Image(c: Codec, terms: seq<Term>, named: seq<nat>): (r: seq<byte>)
    requires |named| == |terms|
    ensures |r| == DataSize(c, terms)
  {
    if terms == [] then []
    else
      var n := |terms| - 1;
      Image(c, terms[..n], named[..n]) + RecordOf(c, terms[n], named[n])
  }

  function Zeros(n: nat): (r: seq<nat>)
    ensures |r| == n && forall i :: 0 <= i < n ==> r[i] == 0
  {
    seq(n, _ => 0)
  }

  // Where the records start, the first one at `base`.
  function Starts(c: Codec, terms: seq<Term>, base: nat): (r: seq<nat>)
    ensures |r| == |terms|
  {
    if terms == [] then []
    else
      var before := terms[..|terms| - 1];
      Starts(c, before, base) + [base + DataSize(c, before)]
  }

  // The index entries of a record: its expression's, and its reading's when that is another text.
  function EntriesFor(c: Codec, t: Term, start: nat): seq<Entry> {
    [Entry(c.hash(t.expression), start)]
    + if ReadingOf(t) != t.expression then [Entry(c.hash(ReadingOf(t)), start)] else []
  }

  function EntriesOf(c: Codec, terms: seq<Term>, starts: seq<nat>): seq<Entry>
    requires |starts| == |terms|
  {
    if terms == [] then []
    else
      var n := |terms| - 1;
      EntriesOf(c, terms[..n], starts[..n]) + EntriesFor(c, terms[n], starts[n])
  }

  function PointerOf(c: Codec, t: Term, start: nat): Pointer {
    Pointer(c.hash(t.glossary), start + |Head(t)|)
  }

  function PointersOf(c: Codec, terms: seq<Term>): (r: seq<Pointer>)
    ensures |r| == |terms|
  {
    if terms == [] then []
    else
      var n := |terms| - 1;
      PointersOf(c, terms[..n]) + [PointerOf(c, terms[n], DataSize(c, terms[..n]))]
  }

  // What a worker hands to the writer for these rows.
  ghost predicate IsBank(c: Codec, terms: seq<Term>, bank: Bank) {
    var glossaries := Fresh(c, terms, {});
    && bank.blob == Packed(c, glossaries) && bank.glossaries == Spans(c, glossaries)
    && bank.data == Image(c, terms, Zeros(|terms|))
    && bank.offsets == EntriesOf(c, terms, Starts(c, terms, 0))
    && bank.pointers == PointersOf(c, terms)
    && bank.count == |terms|
  }

  lemma {:induction false} SpanFound(c: Codec, glossaries: seq<seq<byte>>, g: seq<byte>)
    requires Hashed(c, glossaries, c.hash(g))
    requires forall i :: 0 <= i < |glossaries| && c.hash(glossaries[i]) == c.hash(g) ==> glossaries[i] == g
    ensures Lookup(Spans(c, glossaries), c.hash(g)).Some?
    ensures var span := Lookup(Spans(c, glossaries), c.hash(g)).value;
            span.size == |c.compress(g)| && span.kind == c.kind(g)
  {
    var n := |glossaries| - 1;
    var spans := Spans(c, glossaries);
    assert spans[..n] == Spans(c, glossaries[..n]);
    if c.hash(glossaries[n]) != c.hash(g) {
      var i :| 0 <= i < |glossaries| && c.hash(glossaries[i]) == c.hash(g);
      assert glossaries[..n][i] == glossaries[i];
      SpanFound(c, glossaries[..n], g);
    }
  }

  lemma {:induction false} SpanMissing(c: Codec, glossaries: seq<seq<byte>>, hash: nat)
    requires !Hashed(c, glossaries, hash)
    ensures Lookup(Spans(c, glossaries), hash).None?
  {
  }

  predicate Occurs(terms: seq<Term>, glossary: seq<byte>) {
    exists i :: 0 <= i < |terms| && terms[i].glossary == glossary
  }

  lemma {:induction false} FreshAreGlossaries(c: Codec, terms: seq<Term>, known: set<nat>)
    ensures forall k :: 0 <= k < |Fresh(c, terms, known)| ==> Occurs(terms, Fresh(c, terms, known)[k])
  {
    if terms != [] {
      var n := |terms| - 1;
      FreshAreGlossaries(c, terms[..n], known);
      forall g | Occurs(terms[..n], g) ensures Occurs(terms, g) {
        var i :| 0 <= i < n && terms[..n][i].glossary == g;
        assert terms[i].glossary == g;
      }
      assert Occurs(terms, terms[n].glossary);
    }
  }

  // The bank's glossaries with one row more.
  lemma {:induction false} GlossaryEnters(c: Codec, terms: seq<Term>, t: Term)
    requires Identified(c, terms + [t])
    ensures var before, after := Fresh(c, terms, {}), Fresh(c, terms + [t], {});
            var found := Lookup(Spans(c, before), c.hash(t.glossary));
            if found.Some? then
              && after == before
              && found.value.size == |c.compress(t.glossary)| && found.value.kind == c.kind(t.glossary)
            else
              && Packed(c, after) == Packed(c, before) + c.compress(t.glossary)
              && Spans(c, after) == Spans(c, before) + [SpanOf(c, t.glossary, |Packed(c, before)|)]
  {
    var before, after := Fresh(c, terms, {}), Fresh(c, terms + [t], {});
    var rows := terms + [t];
    assert rows[..|terms|] == terms;
    if Hashed(c, before, c.hash(t.glossary)) {
      FreshAreGlossaries(c, terms, {});
      forall k | 0 <= k < |before| && c.hash(before[k]) == c.hash(t.glossary) ensures before[k] == t.glossary {
        var i :| 0 <= i < |terms| && terms[i].glossary == before[k];
        assert rows[i].glossary == before[k] && rows[|terms|] == t;
      }
      SpanFound(c, before, t.glossary);
    } else {
      SpanMissing(c, before, c.hash(t.glossary));
      assert after == before + [t.glossary] && after[..|before|] == before;
    }
  }

  // The bank's records with one row more.
  lemma {:induction false} RecordEnters(c: Codec, terms: seq<Term>, t: Term)
    ensures Image(c, terms + [t], Zeros(|terms| + 1)) == Image(c, terms, Zeros(|terms|)) + RecordOf(c, t, 0)
  {
    hide RecordOf;
    assert (terms + [t])[..|terms|] == terms && Zeros(|terms| + 1)[..|terms|] == Zeros(|terms|);
  }

  lemma {:induction false} EntriesEnter(c: Codec, terms: seq<Term>, t: Term)
    ensures EntriesOf(c, terms + [t], Starts(c, terms + [t], 0)) ==
            EntriesOf(c, terms, Starts(c, terms, 0)) + EntriesFor(c, t, DataSize(c, terms))
  {
    hide EntriesFor, DataSize;
    assert (terms + [t])[..|terms|] == terms;
    assert Starts(c, terms + [t], 0)[..|terms|] == Starts(c, terms, 0);
  }

  lemma {:induction false} PointerEnters(c: Codec, terms: seq<Term>, t: Term)
    ensures PointersOf(c, terms + [t]) == PointersOf(c, terms) + [PointerOf(c, t, DataSize(c, terms))]
  {
    hide DataSize, PointerOf;
    assert (terms + [t])[..|terms|] == terms;
  }

  // One row more in a worker's bank.
  method AddRow(c: Codec, bank: Bank, ghost terms: seq<Term>, t: Term) returns (bank': Bank)
    requires IsBank(c, terms, bank) && Identified(c, terms + [t])
    ensures IsBank(c, terms + [t], bank')
  {
    hide Image, EntriesOf, PointersOf, Starts, Packed, Spans, Fresh, Lookup, Identified, DataSize, EntriesFor,
      PointerOf, Encode;
    var hash := c.hash(t.glossary);
    var found := Lookup(bank.glossaries, hash);
    var span := if found.Some? then found.value else SpanOf(c, t.glossary, |bank.blob|);
    GlossaryEnters(c, terms, t);
    var blob := if found.Some? then bank.blob else bank.blob + c.compress(t.glossary);
    var spans := if found.Some? then bank.glossaries else bank.glossaries + [span];
    var offset := |bank.data|;
    var record := Encode(t, 0, span.size, span.kind);
    RecordEnters(c, terms, t);
    EntriesEnter(c, terms, t);
    PointerEnters(c, terms, t);
    bank' := Bank(bank.data + record, bank.offsets + EntriesFor(c, t, offset), blob, spans,
                  bank.pointers + [PointerOf(c, t, offset)], bank.count + 1);
  }

  const EMPTY_BANK := Bank([], [], [], [], [], 0)

  lemma NoRowsYet(c: Codec)
    ensures IsBank(c, [], EMPTY_BANK)
  {
  }

  // process_term_bank, for the rows the parser found in the bank (none when it fails).
  method ProcessTermBank(c: Codec, terms: seq<Term>) returns (bank: Bank)
    requires Identified(c, terms)
    ensures IsBank(c, terms, bank)
  {
    hide IsBank;
    bank := EMPTY_BANK;
    NoRowsYet(c);
    assert terms[..0] == [];
    for i := 0 to |terms|
      invariant IsBank(c, terms[..i], bank)
    {
      assert terms[..i + 1] == terms[..i] + [terms[i]];
      bank := AddRow(c, bank, terms[..i], terms[i]);
    }
    assert terms[..|terms|] == terms;
  }
}
