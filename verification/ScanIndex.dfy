// The long-key scan index (src/scan_index.hpp, src/importer.cpp, src/query.cpp): which keys are longer
// than the ordinary scan, recognised by the hash of their first eight code points.
module ScanIndex {
  import opened Options
  import opened Bytes

  const LONG_KEY_MIN_CODEPOINTS := 16
  const LONG_KEY_PREFIX_CODEPOINTS := 8
  const INFLECTION_SLACK_CODEPOINTS := 8

  const MAGIC := 0x49534448
  const VERSION := 1
  const HEADER_BYTES := 16

  // ---- Code points of UTF-8 text

  predicate Leads(b: byte) { b / 64 != 2 }

  function CodePoints(utf8: seq<byte>): (n: nat)
    ensures n <= |utf8|
  {
    if utf8 == [] then 0 else CodePoints(utf8[..|utf8| - 1]) + if Leads(utf8[|utf8| - 1]) then 1 else 0
  }

  lemma CodePointStep(utf8: seq<byte>, n: nat)
    requires n < |utf8|
    ensures CodePoints(utf8[..n + 1]) == CodePoints(utf8[..n]) + if Leads(utf8[n]) then 1 else 0
  {
    assert utf8[..n + 1][..n] == utf8[..n];
  }

  // codepoint_length
  method CodepointLength(utf8: seq<byte>) returns (n: nat)
    ensures n == CodePoints(utf8)
  {
    n := 0;
    for i := 0 to |utf8|
      invariant n == CodePoints(utf8[..i])
    {
      CodePointStep(utf8, i);
      if Leads(utf8[i]) { n := n + 1; }
    }
    assert utf8[..|utf8|] == utf8;
  }

  // Where the first `codepoints` code points end: at the lead byte of the next one, or at the end.
  ghost predicate EndsAt(utf8: seq<byte>, codepoints: nat, end: nat) {
    && end <= |utf8| && CodePoints(utf8[..end]) == codepoints
    && (end < |utf8| ==> Leads(utf8[end]))
  }

  lemma {:induction false} MoreCodePoints(utf8: seq<byte>, a: nat, b: nat)
    requires a <= b <= |utf8|
    ensures CodePoints(utf8[..a]) <= CodePoints(utf8[..b])
    ensures a < b && Leads(utf8[a]) ==> CodePoints(utf8[..a]) < CodePoints(utf8[..b])
    decreases b
  {
    if a < b {
      CodePointStep(utf8, b - 1);
      MoreCodePoints(utf8, a, b - 1);
    }
  }

  lemma EndIsUnique(utf8: seq<byte>, codepoints: nat, a: nat, b: nat)
    requires EndsAt(utf8, codepoints, a) && EndsAt(utf8, codepoints, b)
    ensures a == b
  {
    if a < b { MoreCodePoints(utf8, a, b); }
    if b < a { MoreCodePoints(utf8, b, a); }
  }

  // prefix_bytes
  method PrefixBytes(utf8: seq<byte>, codepoints: nat) returns (bytes: Option<nat>)
    ensures bytes.Some? ==> EndsAt(utf8, codepoints, bytes.value)
    ensures bytes.None? <==> CodePoints(utf8) < codepoints
  {
    var seen := 0;
    for i := 0 to |utf8|
      invariant seen == CodePoints(utf8[..i]) <= codepoints
    {
      CodePointStep(utf8, i);
      if Leads(utf8[i]) {
        if seen == codepoints {
          MoreCodePoints(utf8, i, |utf8|);
          assert utf8[..|utf8|] == utf8;
          return Some(i);
        }
        seen := seen + 1;
      }
    }
    assert utf8[..|utf8|] == utf8;
    return if seen == codepoints then Some(|utf8|) else None;
  }

  // ---- The long keys an import notes

  datatype LongKey = LongKey(hash: nat, length: nat)

  // The key is noted under this hash, with its length.
  ghost predicate NotedAs(hash: seq<byte> -> nat, key: seq<byte>, note: LongKey) {
    && CodePoints(key) > LONG_KEY_MIN_CODEPOINTS
    && (exists end: nat :: EndsAt(key, LONG_KEY_PREFIX_CODEPOINTS, end) && note.hash == hash(key[..end]))
    && note.length == CodePoints(key) % 0x1_0000
  }

  ghost predicate IsNoted(hash: seq<byte> -> nat, key: seq<byte>, noted: seq<LongKey>) {
    exists i :: 0 <= i < |noted| && NotedAs(hash, key, noted[i])
  }

  // note_long_key: a key longer than the ordinary scan is noted, another one is not.
  method NoteLongKey(hash: seq<byte> -> nat, noted: seq<LongKey>, key: seq<byte>) returns (noted': seq<LongKey>)
    ensures if CodePoints(key) > LONG_KEY_MIN_CODEPOINTS then
              |noted'| == |noted| + 1 && noted'[..|noted|] == noted && NotedAs(hash, key, noted'[|noted|])
            else noted' == noted
  {
    var length := CodepointLength(key);
    if length <= LONG_KEY_MIN_CODEPOINTS { return noted; }
    var bytes := PrefixBytes(key, LONG_KEY_PREFIX_CODEPOINTS);
    noted' := noted + [LongKey(hash(key[..bytes.value]), length % 0x1_0000)];
  }

  // The longest key noted under a hash, 0 for none.
  function Longest(noted: seq<LongKey>, hash: nat): nat {
    if noted == [] then 0
    else
      var n := |noted| - 1;
      var before := Longest(noted[..n], hash);
      if noted[n].hash == hash && noted[n].length > before then noted[n].length else before
  }

  predicate Under(noted: seq<LongKey>, hash: nat) {
    exists i :: 0 <= i < |noted| && noted[i].hash == hash
  }

  lemma {:induction false} NotedStep(noted: seq<LongKey>, n: nat, hash: nat)
    requires n < |noted|
    ensures Under(noted[..n + 1], hash) <==> Under(noted[..n], hash) || noted[n].hash == hash
    ensures Longest(noted[..n + 1], hash) ==
            if noted[n].hash == hash && noted[n].length > Longest(noted[..n], hash) then noted[n].length
            else Longest(noted[..n], hash)
  {
    var more := noted[..n + 1];
    assert more[..n] == noted[..n];
    if Under(noted[..n], hash) {
      var i :| 0 <= i < n && noted[..n][i].hash == hash;
      assert more[i].hash == hash;
    }
    assert more[n] == noted[n];
  }

  lemma {:induction false} LongestIsMaximum(noted: seq<LongKey>, hash: nat, i: nat, n: nat)
    requires i < n <= |noted| && noted[i].hash == hash
    ensures noted[i].length <= Longest(noted[..n], hash)
    decreases n
  {
    NotedStep(noted, n - 1, hash);
    if i < n - 1 { LongestIsMaximum(noted, hash, i, n - 1); }
  }

  ghost predicate HoldsFor(index: map<nat, nat>, noted: seq<LongKey>, hash: nat) {
    (hash in index <==> Under(noted, hash)) && (hash in index ==> index[hash] == Longest(noted, hash))
  }

  // The map holds the longest length of every hash noted.
  ghost predicate Holds(index: map<nat, nat>, noted: seq<LongKey>) {
    forall hash :: HoldsFor(index, noted, hash)
  }

  lemma {:induction false} FirstIsLongest(noted: seq<LongKey>, hash: nat)
    ensures !Under(noted, hash) ==> Longest(noted, hash) == 0
  {
    if noted != [] {
      var n := |noted| - 1;
      FirstIsLongest(noted[..n], hash);
      NotedStep(noted, n, hash);
      assert noted[..n + 1] == noted;
    }
  }

  function Emplaced(index: map<nat, nat>, note: LongKey): map<nat, nat> {
    if note.hash !in index || index[note.hash] < note.length then index[note.hash := note.length] else index
  }

  lemma EmplaceHolds(index: map<nat, nat>, noted: seq<LongKey>, n: nat)
    requires n < |noted| && Holds(index, noted[..n])
    ensures Holds(Emplaced(index, noted[n]), noted[..n + 1])
  {
    hide Under, Longest;
    var index', more := Emplaced(index, noted[n]), noted[..n + 1];
    forall hash ensures HoldsFor(index', more, hash) {
      assert HoldsFor(index, noted[..n], hash);
      NotedStep(noted, n, hash);
      FirstIsLongest(noted[..n], hash);
    }
  }

  // The writer's loop over a bank's long keys.
  method MergeLongKeys(index: map<nat, nat>, ghost before: seq<LongKey>, bank: seq<LongKey>)
    returns (index': map<nat, nat>)
    requires Holds(index, before)
    ensures Holds(index', before + bank)
  {
    hide Holds;
    index' := index;
    ghost var all := before + bank;
    assert all[..|before|] == before;
    for i := 0 to |bank|
      invariant Holds(index', all[..|before| + i])
    {
      var note := bank[i];
      EmplaceHolds(index', all, |before| + i);
      if note.hash !in index' || index'[note.hash] < note.length {
        index' := index'[note.hash := note.length];
      }
    }
    assert all[..|before| + |bank|] == all;
  }

  // ---- scan.idx

  function PutAll(width: nat, values: seq<nat>): (r: seq<byte>)
    ensures |r| == width * |values|
  {
    if values == [] then []
    else
      var n := |values| - 1;
      assert width * |values| == width * n + width;
      PutAll(width, values[..n]) + Le(width, values[n])
  }

  lemma {:induction false} PutStep(width: nat, values: seq<nat>, n: nat)
    requires n < |values|
    ensures PutAll(width, values[..n + 1]) == PutAll(width, values[..n]) + Le(width, values[n])
  {
    hide Le;
    assert values[..n + 1][..n] == values[..n];
  }

  lemma {:induction false} NumberAt(f: seq<byte>, p: nat, width: nat, values: seq<nat>, i: nat, n: nat)
    requires i < n <= |values| && At(f, p, PutAll(width, values[..n])) && values[i] < Pow256(width)
    ensures ReadLe(f, p + width * i, width) == Some(values[i])
    decreases n
  {
    hide PutAll, Le, At, ReadLe, Pow256;
    PutStep(width, values, n - 1);
    AtParts(f, p, PutAll(width, values[..n - 1]), Le(width, values[n - 1]));
    if i < n - 1 { NumberAt(f, p, width, values, i, n - 1); } else { ReadsBack(f, p + width * i, width, values[i]); }
  }

  function Hashes(entries: seq<LongKey>): (r: seq<nat>)
    ensures |r| == |entries| && forall i :: 0 <= i < |r| ==> r[i] == entries[i].hash
  {
    seq(|entries|, i requires 0 <= i < |entries| => entries[i].hash)
  }

  function Lengths(entries: seq<LongKey>): (r: seq<nat>)
    ensures |r| == |entries| && forall i :: 0 <= i < |r| ==> r[i] == entries[i].length
  {
    seq(|entries|, i requires 0 <= i < |entries| => entries[i].length)
  }

  function Header(count: nat, maxLength: nat): (r: seq<byte>)
    ensures |r| == HEADER_BYTES
  {
    Le(4, MAGIC) + (Le(4, VERSION) + (Le(4, count) + (Le(2, maxLength) + Le(2, 0))))
  }

  // The map's entries sorted by hash.
  ghost predicate SortedFrom(index: map<nat, nat>, entries: seq<LongKey>) {
    && HashesAscend(entries)
    && (forall i :: 0 <= i < |entries| ==> entries[i].hash in index && index[entries[i].hash] == entries[i].length)
    && (forall hash :: hash in index ==> exists i :: 0 <= i < |entries| && entries[i].hash == hash)
  }

  function MaxLength(entries: seq<LongKey>): nat {
    if entries == [] then 0
    else
      var n := |entries| - 1;
      if entries[n].length > MaxLength(entries[..n]) then entries[n].length else MaxLength(entries[..n])
  }

  function FileOf(entries: seq<LongKey>): seq<byte> {
    Header(|entries|, MaxLength(entries)) + (PutAll(8, Hashes(entries)) + PutAll(2, Lengths(entries)))
  }

  // write_scan_index, from the sorted entries on (no file for none)
  method WriteScanIndex(entries: seq<LongKey>) returns (file: Option<seq<byte>>)
    ensures file == if entries == [] then None else Some(FileOf(entries))
  {
    if entries == [] { return None; }
    hide Le;
    var maxLength := 0;
    var hashes, lengths := [], [];
    for i := 0 to |entries|
      invariant maxLength == MaxLength(entries[..i])
      invariant hashes == PutAll(8, Hashes(entries)[..i]) && lengths == PutAll(2, Lengths(entries)[..i])
    {
      assert entries[..i + 1][..i] == entries[..i];
      PutStep(8, Hashes(entries), i);
      PutStep(2, Lengths(entries), i);
      if entries[i].length > maxLength { maxLength := entries[i].length; }
      hashes := hashes + Le(8, entries[i].hash);
      lengths := lengths + Le(2, entries[i].length);
    }
    assert entries[..|entries|] == entries;
    assert Hashes(entries)[..|entries|] == Hashes(entries) && Lengths(entries)[..|entries|] == Lengths(entries);
    hide PutAll;
    return Some(Header(|entries|, maxLength) + (hashes + lengths));
  }

  // scan_index_view: nothing for a file of another kind, version or size.
  function ViewCount(file: seq<byte>): nat {
    if |file| < HEADER_BYTES then 0
    else if ReadLe(file, 0, 4) != Some(MAGIC) || ReadLe(file, 4, 4) != Some(VERSION) then 0
    else
      match ReadLe(file, 8, 4)
      case None => 0
      case Some(count) => if |file| != HEADER_BYTES + count * 10 then 0 else count
  }

  predicate InRange(e: LongKey) { e.hash < 0x1_0000_0000_0000_0000 && e.length < 0x1_0000 }

  // The file of these entries (none for none), and the numbers it can hold.
  ghost predicate IsIndexFile(file: seq<byte>, entries: seq<LongKey>) {
    && ((file == [] && entries == []) || file == FileOf(entries))
    && |entries| < 0x1_0000_0000 && (forall i :: 0 <= i < |entries| ==> InRange(entries[i]))
  }

  predicate HashesAscend(entries: seq<LongKey>) {
    forall i, j :: 0 <= i < j < |entries| ==> entries[i].hash < entries[j].hash
  }

  // DictionaryData::long_key_length: the binary search over the file, 0 for a hash without an entry (and
  // without a file).
  method LongKeyLength(file: seq<byte>, hash: nat, ghost entries: seq<LongKey>) returns (length: nat)
    requires IsIndexFile(file, entries) && HashesAscend(entries)
    ensures length == 0 || LongKey(hash, length) in entries
    ensures forall i :: 0 <= i < |entries| && entries[i].hash == hash ==> length == entries[i].length
  {
    hide IsIndexFile, ViewCount, ReadLe;
    ViewIs(file, entries);
    var count := ViewCount(file);
    var lo, hi := 0, count;
    while lo < hi
      invariant 0 <= lo <= hi <= count
      invariant forall i :: 0 <= i < lo ==> entries[i].hash < hash
      invariant forall i :: hi <= i < count ==> entries[i].hash > hash
    {
      var mid := lo + (hi - lo) / 2;
      EntryAt(file, entries, mid);
      var at := ReadLe(file, HEADER_BYTES + 8 * mid, 8).value;
      if at < hash {
        lo := mid + 1;
      } else if at > hash {
        hi := mid;
      } else {
        length := ReadLe(file, HEADER_BYTES + 8 * count + 2 * mid, 2).value;
        assert entries[mid] == LongKey(hash, length);
        return;
      }
    }
    return 0;
  }

  lemma HeaderReads(f: seq<byte>, count: nat, maxLength: nat)
    requires At(f, 0, Header(count, maxLength)) && count < 0x1_0000_0000
    ensures ReadLe(f, 0, 4) == Some(MAGIC) && ReadLe(f, 4, 4) == Some(VERSION) && ReadLe(f, 8, 4) == Some(count)
  {
    Widths();
    var tail := Le(2, maxLength) + Le(2, 0);
    AtParts(f, 0, Le(4, MAGIC), Le(4, VERSION) + (Le(4, count) + tail));
    AtParts(f, 4, Le(4, VERSION), Le(4, count) + tail);
    AtParts(f, 8, Le(4, count), tail);
    ReadsBack(f, 0, 4, MAGIC);
    ReadsBack(f, 4, 4, VERSION);
    ReadsBack(f, 8, 4, count);
    hide At, Le, ReadLe, Pow256;
  }

  lemma ViewIs(file: seq<byte>, entries: seq<LongKey>)
    requires IsIndexFile(file, entries)
    ensures ViewCount(file) == |entries|
  {
    if file != [] {
      hide Header, PutAll, ReadLe;
      assert At(file, 0, Header(|entries|, MaxLength(entries)));
      HeaderReads(file, |entries|, MaxLength(entries));
    }
  }

  lemma FileParts(entries: seq<LongKey>)
    ensures At(FileOf(entries), HEADER_BYTES, PutAll(8, Hashes(entries)))
    ensures At(FileOf(entries), HEADER_BYTES + 8 * |entries|, PutAll(2, Lengths(entries)))
  {
    hide PutAll, Header, MaxLength, At;
    PartsStand(Header(|entries|, MaxLength(entries)), PutAll(8, Hashes(entries)), PutAll(2, Lengths(entries)));
  }

  lemma EntryAt(file: seq<byte>, entries: seq<LongKey>, i: nat)
    requires IsIndexFile(file, entries) && i < |entries|
    ensures ReadLe(file, HEADER_BYTES + 8 * i, 8) == Some(entries[i].hash)
    ensures ReadLe(file, HEADER_BYTES + 8 * |entries| + 2 * i, 2) == Some(entries[i].length)
  {
    Widths();
    hide At, PutAll, ReadLe, FileOf, Pow256;
    FileParts(entries);
    var hashes, lengths := Hashes(entries), Lengths(entries);
    assert hashes[..|entries|] == hashes && lengths[..|entries|] == lengths;
    NumberAt(file, HEADER_BYTES, 8, hashes, i, |entries|);
    NumberAt(file, HEADER_BYTES + 8 * |entries|, 2, lengths, i, |entries|);
  }

  lemma PartsStand(a: seq<byte>, b: seq<byte>, c: seq<byte>)
    ensures At(a + (b + c), |a|, b) && At(a + (b + c), |a| + |b|, c)
  {
  }
}
