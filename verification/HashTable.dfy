// hash::linear (src/hash/hash.cpp): an open-addressing table from hashes to file offsets.
// A slot with hash 0 is empty.
module HashTable {
  import opened Arithmetic
  import opened Entries

  const EMPTY := Entry(0, 0)

  const UINT32_RANGE := 0x1_0000_0000

  function Capacity(entries: nat): (r: nat)
    ensures r > entries && r >= 16
  {
    var wanted := entries * 10 / 7;
    if wanted < 16 then 16 else wanted
  }

  // The slot k probes after a hash's own.
  function Probe(capacity: nat, hash: nat, k: nat): (p: nat)
    requires capacity > 0
    ensures p < capacity
  {
    (hash % capacity + k) % capacity
  }

  lemma ProbeNext(capacity: nat, hash: nat, k: nat)
    requires capacity > 0
    ensures var p := Probe(capacity, hash, k);
            Probe(capacity, hash, k + 1) == if p + 1 == capacity then 0 else p + 1
  {
    WrapNext(capacity, hash % capacity + k);
    assert hash % capacity + k + 1 == hash % capacity + (k + 1);
  }

  lemma ProbeStart(capacity: nat, hash: nat)
    requires capacity > 0
    ensures hash % capacity < capacity && Probe(capacity, hash, 0) == hash % capacity
  {
    Remainder(hash % capacity, capacity, 0, hash % capacity);
  }

  lemma StepWraps(capacity: nat, pos: nat)
    requires pos < capacity
    ensures (pos + 1) % capacity == if pos + 1 == capacity then 0 else pos + 1
  {
    if pos + 1 == capacity { Remainder(pos + 1, capacity, 1, 0); } else { Remainder(pos + 1, capacity, 0, pos + 1); }
  }

  // Probing visits every slot within one round.
  lemma ProbesReach(capacity: nat, hash: nat, p: nat) returns (k: nat)
    requires p < capacity
    ensures k < capacity && Probe(capacity, hash, k) == p
  {
    var start := hash % capacity;
    if start <= p {
      k := p - start;
      Remainder(start + k, capacity, 0, p);
    } else {
      k := p + capacity - start;
      Remainder(start + k, capacity, 1, p);
    }
  }

  // The entry is found k probes from its own slot, over occupied slots.
  ghost predicate FoundAt(table: seq<Entry>, e: Entry, k: nat) {
    && k < |table|
    && table[Probe(|table|, e.hash, k)] == e
    && forall j :: 0 <= j < k ==> table[Probe(|table|, e.hash, j)].hash != 0
  }

  ghost predicate Findable(table: seq<Entry>, e: Entry) { exists k :: FoundAt(table, e, k) }

  ghost predicate Holds(table: seq<Entry>, entries: seq<Entry>) {
    && (forall e :: e in entries ==> Findable(table, e))
    && (forall p :: 0 <= p < |table| && table[p].hash != 0 ==> table[p] in entries)
  }

  function Occupied(table: seq<Entry>): (n: nat)
    ensures n <= |table|
  {
    if table == [] then 0
    else Occupied(table[..|table| - 1]) + if table[|table| - 1].hash != 0 then 1 else 0
  }

  lemma {:induction false} SomeEmpty(table: seq<Entry>) returns (p: nat)
    requires Occupied(table) < |table|
    ensures p < |table| && table[p].hash == 0
  {
    var n := |table| - 1;
    if table[n].hash == 0 { p := n; } else { p := SomeEmpty(table[..n]); }
  }

  lemma {:induction false} OccupyOne(table: seq<Entry>, p: nat, s: Entry)
    requires p < |table| && table[p].hash == 0 && s.hash != 0
    ensures Occupied(table[p := s]) == Occupied(table) + 1
  {
    var n := |table| - 1;
    if p < n {
      assert table[p := s][..n] == table[..n][p := s];
      OccupyOne(table[..n], p, s);
    } else {
      assert table[p := s][..n] == table[..n];
    }
  }

  lemma {:induction false} AllEmpty(table: seq<Entry>)
    requires forall p :: 0 <= p < |table| ==> table[p] == EMPTY
    ensures Occupied(table) == 0
  {
    if table != [] { AllEmpty(table[..|table| - 1]); }
  }

  // What the importer hands over: one entry per hash, none 0, few enough for a uint32_t capacity.
  predicate Buildable(entries: seq<Entry>) {
    && (forall i :: 0 <= i < |entries| ==> entries[i].hash != 0)
    && (forall i, j :: 0 <= i < j < |entries| ==> entries[i].hash != entries[j].hash)
    && Capacity(|entries|) < UINT32_RANGE
  }

  lemma InsertKeepsFindable(table: seq<Entry>, x: Entry, p: nat, s: Entry)
    requires Findable(table, x) && x.hash != 0 && p < |table| && table[p].hash == 0 && s.hash != 0
    ensures Findable(table[p := s], x)
  {
    var j :| FoundAt(table, x, j);
    assert FoundAt(table[p := s], x, j);
  }

  lemma InsertKeepsHolds(table: seq<Entry>, entries: seq<Entry>, e: Entry, k: nat)
    requires Holds(table, entries) && e.hash != 0 && forall x :: x in entries ==> x.hash != 0
    requires k < |table| && table[Probe(|table|, e.hash, k)].hash == 0
    requires forall j :: 0 <= j < k ==> table[Probe(|table|, e.hash, j)].hash != 0
    ensures Holds(table[Probe(|table|, e.hash, k) := e], entries + [e])
  {
    var p := Probe(|table|, e.hash, k);
    var t' := table[p := e];
    assert FoundAt(t', e, k);
    hide Probe;
    forall x | x in entries + [e] ensures Findable(t', x) {
      if x in entries { InsertKeepsFindable(table, x, p, e); }
    }
    forall q | 0 <= q < |t'| && t'[q].hash != 0 ensures t'[q] in entries + [e] {
      if q != p { assert t'[q] == table[q]; }
    }
  }

  // build_to_file
  method Build(entries: seq<Entry>) returns (table: array<Entry>)
    requires Buildable(entries)
    ensures fresh(table) && table.Length == Capacity(|entries|)
    ensures Holds(table[..], entries) && Occupied(table[..]) == |entries|
  {
    var capacity := Capacity(|entries|);
    table := new Entry[capacity](_ => EMPTY);
    AllEmpty(table[..]);
    for i := 0 to |entries|
      invariant fresh(table) && table.Length == capacity
      invariant Holds(table[..], entries[..i]) && Occupied(table[..]) == i
    {
      Insert(table, entries[i], entries[..i]);
      assert entries[..i + 1] == entries[..i] + [entries[i]];
    }
    assert entries[..|entries|] == entries;
  }

  // One entry: the first empty slot from its own on.
  method Insert(table: array<Entry>, e: Entry, ghost entries: seq<Entry>)
    requires table.Length > 0 && e.hash != 0 && forall x :: x in entries ==> x.hash != 0
    requires Holds(table[..], entries) && Occupied(table[..]) == |entries| < table.Length
    modifies table
    ensures Holds(table[..], entries + [e]) && Occupied(table[..]) == |entries| + 1
  {
    var capacity := table.Length;
    ghost var free := SomeEmpty(table[..]);
    ghost var bound := ProbesReach(capacity, e.hash, free);
    var pos := e.hash % capacity;
    ghost var k := 0;
    ProbeStart(capacity, e.hash);
    hide Probe, Holds, Occupied;
    while table[pos].hash != 0
      invariant table[..] == old(table[..])
      invariant k <= bound && pos == Probe(capacity, e.hash, k) && pos < capacity
      invariant forall j :: 0 <= j < k ==> table[Probe(capacity, e.hash, j)].hash != 0
      decreases bound - k
    {
      ProbeNext(capacity, e.hash, k);
      StepWraps(capacity, pos);
      pos := (pos + 1) % capacity;
      k := k + 1;
    }
    InsertKeepsHolds(table[..], entries, e, k);
    OccupyOne(table[..], pos, e);
    ghost var was := table[..];
    table[pos] := e;
    assert table[..] == was[pos := e];
  }

  datatype Lookup = Offset(offset: nat) | NoEmptySlot

  // linear::operator() behind the Bloom filter: the entry's offset, 0 for a hash without one; the
  // exception is out of reach of a table that was built from fewer entries than it has slots.
  method Find(table: array<Entry>, hash: nat, ghost entries: seq<Entry>) returns (r: Lookup)
    requires table.Length > 0 && Holds(table[..], entries) && Occupied(table[..]) < table.Length
    ensures r.Offset?
    ensures hash != 0 && (exists e :: e in entries && e.hash == hash) ==> Entry(hash, r.offset) in entries
    ensures hash == 0 || (forall e :: e in entries ==> e.hash != hash) ==> r.offset == 0
  {
    var capacity := table.Length;
    ghost var free := SomeEmpty(table[..]);
    ghost var bound := ProbesReach(capacity, hash, free);
    var pos := hash % capacity;
    ProbeStart(capacity, hash);
    hide Probe, Findable, Occupied;
    for probes := 0 to capacity
      invariant pos == Probe(capacity, hash, probes) && probes <= bound
      invariant forall j :: 0 <= j < probes ==>
                  table[Probe(capacity, hash, j)].hash != 0 && table[Probe(capacity, hash, j)].hash != hash
    {
      var value := table[pos];
      if value.hash == 0 {
        forall e | e in entries && hash != 0 ensures e.hash != hash {
          NotFoundBefore(table[..], e, hash, probes);
        }
        return Offset(0);
      }
      if value.hash == hash {
        assert table[..][pos] in entries;
        return Offset(value.offset);
      }
      ProbeNext(capacity, hash, probes);
      pos := if pos + 1 == capacity then 0 else pos + 1;
    }
    assert false;
    return NoEmptySlot;
  }

  // A hash not met on occupied slots up to an empty one is nobody's.
  lemma NotFoundBefore(table: seq<Entry>, e: Entry, hash: nat, probes: nat)
    requires |table| > 0 && Findable(table, e) && hash != 0
    requires table[Probe(|table|, hash, probes)].hash == 0
    requires forall j :: 0 <= j < probes ==> table[Probe(|table|, hash, j)].hash != hash
    ensures e.hash != hash
  {
    hide Probe;
    var k :| FoundAt(table, e, k);
  }
}
