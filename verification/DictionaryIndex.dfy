// A dictionary's index: the sorted offsets grouped behind the records of blobs.bin, the hash table
// and the Bloom filter over the groups, and looking a hash up in them.
module DictionaryIndex {
  import opened Bytes
  import opened Entries
  import opened Sequences
  import opened Word64
  import opened Radix
  import opened OffsetIndex
  import opened HashTable
  import opened Bloom

  // ---- Sorting keeps each hash's offsets in order

  // The places of the entries with a hash.
  function Picks(s: seq<Entry>, hash: nat): seq<nat> {
    if s == [] then []
    else
      var n := |s| - 1;
      Picks(s[..n], hash) + if s[n].hash == hash then [n] else []
  }

  predicate Increasing(a: seq<nat>) {
    forall i, j :: 0 <= i < j < |a| ==> a[i] < a[j]
  }

  lemma {:induction false} PicksAre(s: seq<Entry>, hash: nat)
    ensures Increasing(Picks(s, hash))
    ensures forall i: nat :: i in Picks(s, hash) <==> i < |s| && s[i].hash == hash
  {
    if s != [] {
      var n := |s| - 1;
      var before := Picks(s[..n], hash);
      PicksAre(s[..n], hash);
      forall i | 0 <= i < |before| ensures before[i] < n { assert before[i] in before; }
    }
  }

  function OffsetsAt(s: seq<Entry>, places: seq<nat>): (r: seq<nat>)
    requires forall i :: 0 <= i < |places| ==> places[i] < |s|
    ensures |r| == |places| && forall i :: 0 <= i < |r| ==> r[i] == s[places[i]].offset
  {
    seq(|places|, i requires 0 <= i < |places| => s[places[i]].offset)
  }

  lemma {:induction false} PickInside(s: seq<Entry>, hash: nat, i: nat)
    requires i < |Picks(s, hash)|
    ensures Picks(s, hash)[i] < |s| && s[Picks(s, hash)[i]].hash == hash
  {
    PicksAre(s, hash);
    assert Picks(s, hash)[i] in Picks(s, hash);
  }

  lemma {:induction false} SelectIsPicked(s: seq<Entry>, hash: nat)
    ensures forall i :: 0 <= i < |Picks(s, hash)| ==> Picks(s, hash)[i] < |s|
    ensures Select(s, hash) == OffsetsAt(s, Picks(s, hash))
  {
    forall i | 0 <= i < |Picks(s, hash)| ensures Picks(s, hash)[i] < |s| { PickInside(s, hash, i); }
    if s != [] {
      var n := |s| - 1;
      SelectIsPicked(s[..n], hash);
      assert OffsetsAt(s[..n], Picks(s[..n], hash)) == OffsetsAt(s, Picks(s[..n], hash));
    }
  }

  // An increasing list is fixed by its members.
  lemma {:induction false} IncreasingIsUnique(a: seq<nat>, b: seq<nat>)
    requires Increasing(a) && Increasing(b) && forall x: nat :: x in a <==> x in b
    ensures a == b
  {
    if a == [] {
      assert forall i :: 0 <= i < |b| ==> b[i] in a;
    } else {
      assert a[0] in b;
      var m, n := |a| - 1, |b| - 1;
      assert a[m] in b && b[n] in a;
      assert a[m] == b[n];
      forall x: nat ensures x in a[..m] <==> x in b[..n] {
        if x in a[..m] { assert x in a && x != a[m]; }
        if x in b[..n] { assert x in b && x != b[n]; }
      }
      IncreasingIsUnique(a[..m], b[..n]);
      assert a == a[..m] + [a[m]] && b == b[..n] + [b[n]];
    }
  }

  function Through(order: seq<nat>, places: seq<nat>): (r: seq<nat>)
    requires forall i :: 0 <= i < |places| ==> places[i] < |order|
    ensures |r| == |places| && forall i :: 0 <= i < |r| ==> r[i] == order[places[i]]
  {
    seq(|places|, i requires 0 <= i < |places| => order[places[i]])
  }

  predicate SmallHashes(s: seq<Entry>) {
    forall i :: 0 <= i < |s| ==> s[i].hash < KEY_RANGE
  }

  lemma {:induction false} PicksInside(s: seq<Entry>, hash: nat)
    ensures forall i :: 0 <= i < |Picks(s, hash)| ==> Picks(s, hash)[i] < |s| && s[Picks(s, hash)[i]].hash == hash
  {
    hide Picks;
    forall i | 0 <= i < |Picks(s, hash)| ensures Picks(s, hash)[i] < |s| && s[Picks(s, hash)[i]].hash == hash {
      PickInside(s, hash, i);
    }
  }

  lemma {:induction false} MovedIncrease(s: seq<Entry>, t: seq<Entry>, order: seq<nat>, hash: nat)
    requires StableBy(s, KEY_RANGE, t, order)
    requires forall i :: 0 <= i < |Picks(t, hash)| ==> Picks(t, hash)[i] < |order|
    ensures Increasing(Through(order, Picks(t, hash)))
  {
    PicksInside(t, hash);
    PicksAre(t, hash);
    hide Picks;
    var picked := Picks(t, hash);
    var moved := Through(order, picked);
    forall i, j | 0 <= i < j < |moved| ensures moved[i] < moved[j] {
      var k, l := picked[i], picked[j];
      assert Ordered(t[k].hash % KEY_RANGE, order[k], t[l].hash % KEY_RANGE, order[l]);
    }
  }

  lemma {:induction false} MovedIsPick(s: seq<Entry>, t: seq<Entry>, order: seq<nat>, hash: nat, i: nat)
    requires StableBy(s, KEY_RANGE, t, order) && i < |Picks(t, hash)|
    ensures Picks(t, hash)[i] < |order| && order[Picks(t, hash)[i]] in Picks(s, hash)
  {
    PickInside(t, hash, i);
    PicksAre(s, hash);
    hide Picks;
    var k := Picks(t, hash)[i];
    assert t[k] == s[order[k]];
  }

  lemma PickIsMoved(s: seq<Entry>, t: seq<Entry>, order: seq<nat>, hash: nat, x: nat) returns (i: nat)
    requires StableBy(s, KEY_RANGE, t, order) && x in Picks(s, hash)
    ensures i < |Picks(t, hash)| && Picks(t, hash)[i] < |order| && order[Picks(t, hash)[i]] == x
  {
    PicksAre(s, hash);
    PicksAre(t, hash);
    hide Picks;
    var k := PlaceOf(order, x);
    assert t[k] == s[x] && k in Picks(t, hash);
    i :| 0 <= i < |Picks(t, hash)| && Picks(t, hash)[i] == k;
  }

  // The picks of the sorted list are the picks of the old one, in the same order.
  lemma {:induction false} PicksKeepOrder(s: seq<Entry>, t: seq<Entry>, order: seq<nat>, hash: nat)
    requires StableBy(s, KEY_RANGE, t, order)
    ensures forall i :: 0 <= i < |Picks(t, hash)| ==> Picks(t, hash)[i] < |order|
    ensures Through(order, Picks(t, hash)) == Picks(s, hash)
  {
    PicksInside(t, hash);
    MovedIncrease(s, t, order, hash);
    PicksAre(s, hash);
    hide Picks, StableBy, Increasing;
    var moved := Through(order, Picks(t, hash));
    forall x: nat ensures x in moved <==> x in Picks(s, hash) {
      if x in moved {
        var i :| 0 <= i < |moved| && moved[i] == x;
        MovedIsPick(s, t, order, hash, i);
      }
      if x in Picks(s, hash) {
        var i := PickIsMoved(s, t, order, hash, x);
        assert moved[i] == x;
      }
    }
    IncreasingIsUnique(moved, Picks(s, hash));
  }

  lemma {:induction false} SortKeepsSelection(s: seq<Entry>, t: seq<Entry>, hash: nat)
    requires StablySorted(s, t) && SmallHashes(s)
    ensures Select(t, hash) == Select(s, hash)
  {
    var order :| StableBy(s, KEY_RANGE, t, order);
    PicksKeepOrder(s, t, order, hash);
    SelectIsPicked(t, hash);
    SelectIsPicked(s, hash);
    hide Picks, Select;
    forall i | 0 <= i < |Picks(t, hash)| ensures t[Picks(t, hash)[i]].offset == s[Picks(s, hash)[i]].offset {
      assert Through(order, Picks(t, hash))[i] == order[Picks(t, hash)[i]];
    }
    assert OffsetsAt(t, Picks(t, hash)) == OffsetsAt(s, Picks(s, hash));
  }

  lemma SortedHashes(s: seq<Entry>, t: seq<Entry>)
    requires StablySorted(s, t) && SmallHashes(s)
    ensures SortedByHash(t) && |t| == |s| && forall i :: 0 <= i < |t| ==> t[i] in s
    ensures forall i :: 0 <= i < |s| ==> s[i] in t
  {
    var order :| StableBy(s, KEY_RANGE, t, order);
    forall i, j | 0 <= i < j < |t| ensures t[i].hash <= t[j].hash {
      assert Ordered(t[i].hash % KEY_RANGE, order[i], t[j].hash % KEY_RANGE, order[j]);
      assert t[i] == s[order[i]] && t[j] == s[order[j]];
    }
    forall i | 0 <= i < |t| ensures t[i] in s { assert t[i] == s[order[i]]; }
    forall i | 0 <= i < |s| ensures s[i] in t { assert t[PlaceOf(order, i)] == s[i]; }
  }

  // ---- The index over a list of entries

  // What an import may hand over: hashes of 64 bits that are not 0, few enough for a uint32_t capacity.
  predicate Indexable(entries: seq<Entry>) {
    && SmallHashes(entries) && (forall i :: 0 <= i < |entries| ==> entries[i].hash != 0)
    && Capacity(|entries|) < UINT32_RANGE
  }

  lemma CapacityGrows(m: nat, n: nat)
    requires m <= n
    ensures Capacity(m) <= Capacity(n)
  {
  }

  function HashesOf(entries: seq<Entry>): (r: seq<nat>)
    ensures |r| == |entries| && forall i :: 0 <= i < |r| ==> r[i] == entries[i].hash
  {
    seq(|entries|, i requires 0 <= i < |entries| => entries[i].hash)
  }

  // The hash table's entry of a hash leads to the group of all its offsets, in the order of the list.
  ghost predicate Leads(entries: seq<Entry>, blobs: seq<byte>, e: Entry) {
    e.offset > 0 && HasHash(entries, e.hash) && At(blobs, e.offset, PutGroup(Select(entries, e.hash)))
  }

  class Index {
    var blobs: seq<byte>
    var table: array<Entry>
    var filter: array<Word>
    ghost var groups: seq<Entry>

    ghost predicate Valid(entries: seq<Entry>)
      reads this, table, filter
    {
      && (forall e :: e in groups ==> Leads(entries, blobs, e))
      && (forall i :: 0 <= i < |entries| ==> HasHash(groups, entries[i].hash))
      && table.Length > 0 && Holds(table[..], groups) && Occupied(table[..]) < table.Length
      && filter.Length > 0 && Filled(filter[..], HashesOf(groups), 0, filter.Length)
    }

    constructor (blobs: seq<byte>, table: array<Entry>, filter: array<Word>, ghost groups: seq<Entry>)
      ensures this.blobs == blobs && this.table == table && this.filter == filter && this.groups == groups
    {
      this.blobs, this.table, this.filter, this.groups := blobs, table, filter, groups;
    }

    // linear::operator(): the filter, then the table. The exception for a table without an empty slot
    // is out of reach.
    method Find(hash: nat, ghost entries: seq<Entry>) returns (address: nat)
      requires Valid(entries) && hash != 0
      ensures HasHash(entries, hash) ==> address > 0 && At(blobs, address, PutGroup(Select(entries, hash)))
      ensures !HasHash(entries, hash) ==> address == 0
    {
      hide Holds, Occupied, Filled, At, PutGroup, Select;
      AbsentHash(entries, groups, hash);
      var maybe := Contains(filter, hash);
      if !maybe {
        if HasHash(entries, hash) {
          PresentHash(entries, groups, hash);
          NoFalseNegative(filter[..], HashesOf(groups), hash);
        }
        return 0;
      }
      if HasHash(entries, hash) { PresentHash(entries, groups, hash); }
      var found := HashTable.Find(table, hash, groups);
      address := found.offset;
    }
  }

  lemma PresentHash(entries: seq<Entry>, groups: seq<Entry>, hash: nat)
    requires HasHash(entries, hash) && forall i :: 0 <= i < |entries| ==> HasHash(groups, entries[i].hash)
    ensures hash in HashesOf(groups) && exists e :: e in groups && e.hash == hash
  {
    var i :| 0 <= i < |entries| && entries[i].hash == hash;
    var k :| 0 <= k < |groups| && groups[k].hash == hash;
    assert HashesOf(groups)[k] == hash;
    assert groups[k] in groups;
  }

  lemma AbsentHash(entries: seq<Entry>, groups: seq<Entry>, hash: nat)
    requires forall e :: e in groups ==> HasHash(entries, e.hash)
    ensures !HasHash(entries, hash) ==> forall e :: e in groups ==> e.hash != hash
  {
  }

  // The groups of the sorted list, as the index over the list itself.
  lemma GroupsLead(s: seq<Entry>, t: seq<Entry>, blobs: seq<byte>, at: nat, groups: seq<Entry>)
    requires StablySorted(s, t) && SmallHashes(s) && (s != [] ==> at > 0) && Indexed(t, blobs, at, groups)
    ensures |groups| <= |s|
    ensures forall e :: e in groups ==> Leads(s, blobs, e)
    ensures forall i :: 0 <= i < |s| ==> HasHash(groups, s[i].hash)
  {
    hide StablySorted, Select, At, PutGroup, SmallHashes;
    SortedHashes(s, t);
    forall e | e in groups ensures Leads(s, blobs, e) {
      assert Listed(t, blobs, at, e);
      SortKeepsSelection(s, t, e.hash);
      var i :| 0 <= i < |t| && t[i].hash == e.hash;
      assert t[i] in s;
      var j :| 0 <= j < |s| && s[j] == t[i];
      assert s[j].hash == e.hash;
    }
    forall i | 0 <= i < |s| ensures HasHash(groups, s[i].hash) {
      assert s[i] in t;
      var j :| 0 <= j < |t| && t[j] == s[i];
    }
  }

  lemma GroupsBuildable(s: seq<Entry>, blobs: seq<byte>, groups: seq<Entry>)
    requires Indexable(s) && |groups| <= |s| && OffsetIndex.Ascending(groups)
    requires forall e :: e in groups ==> Leads(s, blobs, e)
    ensures Buildable(groups)
  {
    CapacityGrows(|groups|, |s|);
    forall i | 0 <= i < |groups| ensures groups[i].hash != 0 {
      assert groups[i] in groups;
      var j :| 0 <= j < |s| && s[j].hash == groups[i].hash;
    }
  }

  // build_offset_index behind the records, then the table and the filter over its groups.
  method BuildIndex(records: seq<byte>, offsets: array<Entry>, maxThreads: nat, ranges: nat) returns (index: Index)
    requires Indexable(offsets[..]) && ranges >= 1 && (offsets.Length > 0 ==> records != [])
    modifies offsets
    ensures fresh(index) && index.Valid(old(offsets[..]))
    ensures records <= index.blobs && |index.blobs| <= |records| + 12 * offsets.Length
  {
    hide Indexed, Holds, Occupied, Filled, StablySorted, Groups, Leads, Buildable, Capacity;
    ghost var entries := offsets[..];
    RadixSort(offsets, maxThreads);
    ghost var sorted := offsets[..];
    SortedHashes(entries, sorted);
    var buffer, groups, end := BuildOffsetIndex(offsets[..], |records|);
    var blobs := records + buffer;
    AtEnd(records, buffer);
    GroupsSize(sorted);
    GroupsAreComplete(sorted, |records|, blobs);
    GroupsLead(entries, sorted, blobs, |records|, groups);
    IndexedAscends(sorted, blobs, |records|, groups);
    GroupsBuildable(entries, blobs, groups);
    var table := Build(groups);
    CapacityAbove(|groups|);
    var filter := BuildFilter(HashesOf(groups), ranges);
    index := new Index(blobs, table, filter, groups);
  }

  lemma CapacityAbove(n: nat)
    ensures n < Capacity(n)
  {
  }

  lemma IndexedAscends(s: seq<Entry>, f: seq<byte>, at: nat, groups: seq<Entry>)
    requires Indexed(s, f, at, groups)
    ensures OffsetIndex.Ascending(groups)
  {
  }
}
