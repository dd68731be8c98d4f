// build_offset_index (src/importer.cpp): the sorted (hash, offset) pairs grouped by hash, each group
// written as a count and its offsets, and reading a group back.
module OffsetIndex {
  import opened Options
  import opened Bytes
  import opened Entries

  // The offsets of the first run of entries with one hash.
  function RunLength(s: seq<Entry>): (n: nat)
    requires s != []
    ensures 1 <= n <= |s|
    ensures forall i :: 0 <= i < n ==> s[i].hash == s[0].hash
    ensures n < |s| ==> s[n].hash != s[0].hash
  {
    if |s| == 1 || s[1].hash != s[0].hash then 1 else 1 + RunLength(s[1..])
  }

  function OffsetsOf(s: seq<Entry>): (r: seq<nat>)
    ensures |r| == |s| && forall i :: 0 <= i < |s| ==> r[i] == s[i].offset
  {
    seq(|s|, i requires 0 <= i < |s| => s[i].offset)
  }

  function PutOffsets(offsets: seq<nat>): (r: seq<byte>)
    ensures |r| == 8 * |offsets|
  {
    if offsets == [] then [] else PutOffsets(offsets[..|offsets| - 1]) + Le(8, offsets[|offsets| - 1])
  }

  function PutGroup(offsets: seq<nat>): (r: seq<byte>)
    ensures |r| == 4 + 8 * |offsets|
  {
    Le(4, |offsets|) + PutOffsets(offsets)
  }

  // The buffer and the hash table's entries, for groups that start at `at` in the file.
  function Groups(s: seq<Entry>): (r: seq<byte>)
    decreases |s|
  {
    if s == [] then []
    else
      var n := RunLength(s);
      PutGroup(OffsetsOf(s[..n])) + Groups(s[n..])
  }

  function HashEntries(s: seq<Entry>, at: nat): (r: seq<Entry>)
    decreases |s|
  {
    if s == [] then []
    else
      var n := RunLength(s);
      [Entry(s[0].hash, at)] + HashEntries(s[n..], at + 4 + 8 * n)
  }

  // Each entry takes its offset and at most one count.
  lemma {:induction false} GroupsSize(s: seq<Entry>)
    ensures |Groups(s)| <= 12 * |s|
    decreases |s|
  {
    if s != [] { GroupsSize(s[RunLength(s)..]); }
  }

  // The group of the entries i..j-1.
  method WriteGroup(offsets: seq<Entry>, i: nat, j: nat) returns (bytes: seq<byte>)
    requires i <= j <= |offsets|
    ensures bytes == PutGroup(OffsetsOf(offsets[i..j]))
  {
    hide Le;
    var count := j - i;
    bytes := Le(4, count);
    for k := i to j
      invariant bytes == Le(4, count) + PutOffsets(OffsetsOf(offsets[i..k]))
    {
      assert OffsetsOf(offsets[i..k + 1])[..k - i] == OffsetsOf(offsets[i..k]);
      bytes := bytes + Le(8, offsets[k].offset);
    }
  }

  // The group that ends a run, split off the rest.
  lemma RunSplitsOff(offsets: seq<Entry>, i: nat, j: nat, at: nat)
    requires i < j <= |offsets| && (forall k :: i <= k < j ==> offsets[k].hash == offsets[i].hash)
    requires j < |offsets| ==> offsets[j].hash != offsets[i].hash
    ensures Groups(offsets[i..]) == PutGroup(OffsetsOf(offsets[i..j])) + Groups(offsets[j..])
    ensures HashEntries(offsets[i..], at) ==
            [Entry(offsets[i].hash, at)] + HashEntries(offsets[j..], at + 4 + 8 * (j - i))
  {
    hide *;
    var rest := offsets[i..];
    RunIs(rest, j - i);
    RunSplits(rest, at);
    assert rest[..j - i] == offsets[i..j] && rest[j - i..] == offsets[j..];
  }

  lemma RunSplits(s: seq<Entry>, at: nat)
    requires s != []
    ensures var n := RunLength(s);
            && Groups(s) == PutGroup(OffsetsOf(s[..n])) + Groups(s[n..])
            && HashEntries(s, at) == [Entry(s[0].hash, at)] + HashEntries(s[n..], at + 4 + 8 * n)
  {
    hide PutGroup, OffsetsOf, RunLength;
  }

  method BuildOffsetIndex(offsets: seq<Entry>, writeOffset: nat)
    returns (buffer: seq<byte>, hashEntries: seq<Entry>, writeOffset': nat)
    ensures buffer == Groups(offsets) && hashEntries == HashEntries(offsets, writeOffset)
    ensures writeOffset' == writeOffset + |buffer|
  {
    hide PutGroup, Groups, HashEntries;
    buffer, hashEntries, writeOffset' := [], [], writeOffset;
    var i := 0;
    assert offsets[0..] == offsets;
    while i < |offsets|
      invariant i <= |offsets| && writeOffset' == writeOffset + |buffer|
      invariant buffer + Groups(offsets[i..]) == Groups(offsets)
      invariant hashEntries + HashEntries(offsets[i..], writeOffset') == HashEntries(offsets, writeOffset)
    {
      var j := i + 1;
      while j < |offsets| && offsets[j].hash == offsets[i].hash
        invariant i < j <= |offsets|
        invariant forall k :: i <= k < j ==> offsets[k].hash == offsets[i].hash
      {
        j := j + 1;
      }
      RunSplitsOff(offsets, i, j, writeOffset');
      var bytes := WriteGroup(offsets, i, j);
      hashEntries := hashEntries + [Entry(offsets[i].hash, writeOffset')];
      buffer := buffer + bytes;
      writeOffset' := writeOffset' + 4 + (j - i) * 8;
      i := j;
    }
    NothingLeft(offsets, writeOffset');
  }

  lemma {:induction false} NothingLeft(offsets: seq<Entry>, at: nat)
    ensures Groups(offsets[|offsets|..]) == [] && HashEntries(offsets[|offsets|..], at) == []
  {
  }

  lemma {:induction false} RunIs(s: seq<Entry>, n: nat)
    requires 1 <= n <= |s| && forall k :: 0 <= k < n ==> s[k].hash == s[0].hash
    requires n < |s| ==> s[n].hash != s[0].hash
    ensures RunLength(s) == n
  {
    if n > 1 { RunIs(s[1..], n - 1); }
  }

  predicate SortedByHash(s: seq<Entry>) {
    forall i, j :: 0 <= i < j < |s| ==> s[i].hash <= s[j].hash
  }

  // The offsets listed for a hash, in list order.
  function Select(s: seq<Entry>, hash: nat): seq<nat> {
    if s == [] then []
    else
      Select(s[..|s| - 1], hash) + if s[|s| - 1].hash == hash then [s[|s| - 1].offset] else []
  }

  lemma {:induction false} SelectSplits(s: seq<Entry>, t: seq<Entry>, hash: nat)
    ensures Select(s + t, hash) == Select(s, hash) + Select(t, hash)
  {
    if t == [] {
      assert s + t == s;
    } else {
      var n := |t| - 1;
      assert (s + t)[..|s + t| - 1] == s + t[..n];
      SelectSplits(s, t[..n], hash);
    }
  }

  lemma {:induction false} SelectAll(s: seq<Entry>, hash: nat)
    requires forall i :: 0 <= i < |s| ==> s[i].hash == hash
    ensures Select(s, hash) == OffsetsOf(s)
  {
    if s != [] {
      SelectAll(s[..|s| - 1], hash);
      assert OffsetsOf(s)[..|s| - 1] == OffsetsOf(s[..|s| - 1]);
      assert OffsetsOf(s) == OffsetsOf(s)[..|s| - 1] + [s[|s| - 1].offset];
    }
  }

  lemma {:induction false} SelectNone(s: seq<Entry>, hash: nat)
    requires forall i :: 0 <= i < |s| ==> s[i].hash != hash
    ensures Select(s, hash) == []
  {
    if s != [] { SelectNone(s[..|s| - 1], hash); }
  }

  predicate HasHash(s: seq<Entry>, hash: nat) {
    exists i :: 0 <= i < |s| && s[i].hash == hash
  }

  predicate Ascending(entries: seq<Entry>) {
    forall i, j :: 0 <= i < j < |entries| ==> entries[i].hash < entries[j].hash
  }

  // The entry's hash is listed, and its address is the group of all its offsets.
  ghost predicate Listed(s: seq<Entry>, f: seq<byte>, at: nat, e: Entry) {
    && e.offset >= at && HasHash(s, e.hash)
    && At(f, e.offset, PutGroup(Select(s, e.hash)))
  }

  lemma LaterListed(run: seq<Entry>, rest: seq<Entry>, f: seq<byte>, at: nat, at': nat, e: Entry)
    requires run != [] && (forall i :: 0 <= i < |run| ==> run[i].hash == run[0].hash)
    requires (forall i :: 0 <= i < |rest| ==> rest[i].hash > run[0].hash) && at <= at' && Listed(rest, f, at', e)
    ensures Listed(run + rest, f, at, e) && e.hash > run[0].hash
  {
    var i :| 0 <= i < |rest| && rest[i].hash == e.hash;
    assert (run + rest)[|run| + i] == rest[i];
    SelectSplits(run, rest, e.hash);
    SelectNone(run, e.hash);
    assert [] + Select(rest, e.hash) == Select(rest, e.hash);
  }

  lemma FirstListed(run: seq<Entry>, rest: seq<Entry>, f: seq<byte>, at: nat)
    requires run != [] && (forall i :: 0 <= i < |run| ==> run[i].hash == run[0].hash)
    requires (forall i :: 0 <= i < |rest| ==> rest[i].hash > run[0].hash) && At(f, at, PutGroup(OffsetsOf(run)))
    ensures Listed(run + rest, f, at, Entry(run[0].hash, at))
  {
    SelectSplits(run, rest, run[0].hash);
    SelectAll(run, run[0].hash);
    SelectNone(rest, run[0].hash);
    assert OffsetsOf(run) + [] == OffsetsOf(run);
    assert (run + rest)[0].hash == run[0].hash;
  }

  // One hash table entry per hash, at the group that lists all its offsets.
  ghost predicate Indexed(s: seq<Entry>, f: seq<byte>, at: nat, entries: seq<Entry>) {
    && |entries| <= |s| && Ascending(entries)
    && (forall i :: 0 <= i < |s| ==> HasHash(entries, s[i].hash))
    && (forall e :: e in entries ==> Listed(s, f, at, e))
  }

  // A run in front of an indexed list.
  lemma PrependRun(run: seq<Entry>, rest: seq<Entry>, f: seq<byte>, at: nat, at': nat, later: seq<Entry>)
    requires run != [] && (forall i :: 0 <= i < |run| ==> run[i].hash == run[0].hash)
    requires (forall i :: 0 <= i < |rest| ==> rest[i].hash > run[0].hash) && at <= at'
    requires At(f, at, PutGroup(OffsetsOf(run))) && Indexed(rest, f, at', later)
    ensures Indexed(run + rest, f, at, [Entry(run[0].hash, at)] + later)
  {
    hide Listed, At, PutGroup, OffsetsOf;
    var s, first := run + rest, Entry(run[0].hash, at);
    var entries := [first] + later;
    FirstListed(run, rest, f, at);
    forall e | e in later ensures Listed(s, f, at, e) && e.hash > run[0].hash { LaterListed(run, rest, f, at, at', e); }
    forall i, j | 0 <= i < j < |entries| ensures entries[i].hash < entries[j].hash {
      assert entries[j] == later[j - 1] && later[j - 1] in later;
      if i > 0 { assert entries[i] == later[i - 1]; }
    }
    forall i | 0 <= i < |s| ensures HasHash(entries, s[i].hash) {
      if i < |run| {
        assert entries[0].hash == s[i].hash;
      } else {
        assert s[i] == rest[i - |run|] && HasHash(later, s[i].hash);
        var k :| 0 <= k < |later| && later[k].hash == s[i].hash;
        assert entries[k + 1] == later[k];
      }
    }
  }

  lemma {:induction false} GroupsAreComplete(s: seq<Entry>, at: nat, f: seq<byte>)
    requires SortedByHash(s) && At(f, at, Groups(s))
    ensures Indexed(s, f, at, HashEntries(s, at))
    decreases |s|
  {
    hide *;
    if s == [] {
      EmptyIndexed(f, at);
    } else {
      var n := RunLength(s);
      RunBelowRest(s);
      FirstGroup(s, at);
      var run, rest := s[..n], s[n..];
      AtParts(f, at, PutGroup(OffsetsOf(run)), Groups(rest));
      GroupsAreComplete(rest, at + 4 + 8 * n, f);
      PrependRun(run, rest, f, at, at + 4 + 8 * n, HashEntries(rest, at + 4 + 8 * n));
    }
  }

  lemma FirstGroup(s: seq<Entry>, at: nat)
    requires s != []
    ensures var n := RunLength(s);
            var run, rest := s[..n], s[n..];
            && s == run + rest && |PutGroup(OffsetsOf(run))| == 4 + 8 * n
            && Groups(s) == PutGroup(OffsetsOf(run)) + Groups(rest)
            && HashEntries(s, at) == [Entry(run[0].hash, at)] + HashEntries(rest, at + 4 + 8 * n)
  {
    hide PutGroup, OffsetsOf, Groups, HashEntries, RunLength;
    RunSplits(s, at);
    assert s == s[..RunLength(s)] + s[RunLength(s)..];
  }

  lemma {:induction false} RunBelowRest(s: seq<Entry>)
    requires SortedByHash(s) && s != []
    ensures var n := RunLength(s);
            && (forall i :: 0 <= i < n ==> s[..n][i].hash == s[..n][0].hash)
            && SortedByHash(s[n..]) && (forall i :: 0 <= i < |s| - n ==> s[n..][i].hash > s[..n][0].hash)
  {
    var n := RunLength(s);
    forall i | 0 <= i < |s| - n ensures s[n..][i].hash > s[0].hash {
      assert s[n].hash > s[0].hash;
    }
  }

  lemma {:induction false} EmptyIndexed(f: seq<byte>, at: nat)
    ensures Indexed([], f, at, HashEntries([], at))
  {
  }

  // Reading a group at an address: its count, then as many offsets.
  function ReadOffsets(f: seq<byte>, p: nat, count: nat): (r: Option<seq<nat>>)
    ensures r.Some? ==> |r.value| == count
  {
    if count == 0 then Some([])
    else
      match ReadOffsets(f, p, count - 1)
      case None => None
      case Some(first) =>
        match ReadLe(f, p + 8 * (count - 1), 8)
        case None => None
        case Some(offset) => Some(first + [offset])
  }

  function ReadGroup(f: seq<byte>, p: nat): Option<seq<nat>> {
    match ReadLe(f, p, 4)
    case None => None
    case Some(count) => ReadOffsets(f, p + 4, count)
  }

  lemma {:induction false} LastOffset(offsets: seq<nat>)
    requires offsets != []
    ensures PutOffsets(offsets) == PutOffsets(offsets[..|offsets| - 1]) + Le(8, offsets[|offsets| - 1])
  {
    hide Le;
  }

  lemma {:induction false} OffsetsReadBack(f: seq<byte>, p: nat, offsets: seq<nat>)
    requires At(f, p, PutOffsets(offsets)) && forall i :: 0 <= i < |offsets| ==> offsets[i] < Pow256(8)
    ensures ReadOffsets(f, p, |offsets|) == Some(offsets)
  {
    hide PutOffsets, Le, Pow256, ReadLe, At;
    if offsets != [] {
      var n := |offsets| - 1;
      LastOffset(offsets);
      AtParts(f, p, PutOffsets(offsets[..n]), Le(8, offsets[n]));
      OffsetsReadBack(f, p, offsets[..n]);
      ReadsBack(f, p + 8 * n, 8, offsets[n]);
      assert offsets[..n] + [offsets[n]] == offsets;
    }
  }

  // What is written for a hash is what is read for it.
  lemma GroupReadsBack(f: seq<byte>, p: nat, offsets: seq<nat>)
    requires At(f, p, PutGroup(offsets)) && |offsets| < Pow256(4)
    requires forall i :: 0 <= i < |offsets| ==> offsets[i] < Pow256(8)
    ensures ReadGroup(f, p) == Some(offsets)
  {
    AtParts(f, p, Le(4, |offsets|), PutOffsets(offsets));
    ReadsBack(f, p, 4, |offsets|);
    OffsetsReadBack(f, p + 4, offsets);
  }
}
