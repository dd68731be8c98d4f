// The prefix scan of a lookup (src/lookup.cpp, character resolution) with the long-key extension: with a
// scan of at least sixteen code points no prefix that is a dictionary key is passed over.
module LongKeys {
  import opened Bytes
  import opened ScanIndex

  // The bytes of one code point.
  predicate IsChar(s: seq<byte>) {
    s != [] && Leads(s[0]) && forall i :: 1 <= i < |s| ==> !Leads(s[i])
  }

  type Char = s: seq<byte> | IsChar(s) witness [97]

  function Flat(chars: seq<Char>): seq<byte> {
    if chars == [] then [] else Flat(chars[..|chars| - 1]) + chars[|chars| - 1]
  }

  lemma FlatStep(chars: seq<Char>, n: nat)
    requires n < |chars|
    ensures Flat(chars[..n + 1]) == Flat(chars[..n]) + chars[n]
  {
    assert chars[..n + 1][..n] == chars[..n];
  }

  lemma {:induction false} CodePointsAppend(a: seq<byte>, b: seq<byte>, n: nat)
    requires n <= |b|
    ensures CodePoints(a + b[..n]) == CodePoints(a) + CodePoints(b[..n])
  {
    if n == 0 {
      assert a + b[..n] == a;
    } else {
      hide CodePoints;
      CodePointsAppend(a, b, n - 1);
      CodePointStep(b, n - 1);
      var all := a + b[..n];
      CodePointStep(all, |a| + n - 1);
      assert all[..|a| + n] == all && all[..|a| + n - 1] == a + b[..n - 1];
    }
  }

  lemma {:induction false} CharIsOne(c: Char, n: nat)
    requires 1 <= n <= |c|
    ensures CodePoints(c[..n]) == 1
  {
    CodePointStep(c, n - 1);
    if n > 1 { CharIsOne(c, n - 1); } else { assert c[..0] == []; }
  }

  lemma {:induction false} FlatCodePoints(chars: seq<Char>, n: nat)
    requires n <= |chars|
    ensures CodePoints(Flat(chars[..n])) == n
  {
    if n > 0 {
      FlatCodePoints(chars, n - 1);
      FlatStep(chars, n - 1);
      var c := chars[n - 1];
      CharIsOne(c, |c|);
      assert c[..|c|] == c;
      CodePointsAppend(Flat(chars[..n - 1]), c, |c|);
    }
  }

  // The first k characters are a prefix of any more of them, and end at a character's end.
  lemma {:induction false} FlatPrefix(chars: seq<Char>, k: nat, n: nat)
    requires k <= n <= |chars|
    ensures |Flat(chars[..k])| <= |Flat(chars[..n])|
    ensures Flat(chars[..n])[..|Flat(chars[..k])|] == Flat(chars[..k])
    ensures k < n ==> |Flat(chars[..k])| < |Flat(chars[..n])| && Leads(Flat(chars[..n])[|Flat(chars[..k])|])
    decreases n
  {
    hide Flat, Leads;
    if k < n {
      FlatStep(chars, n - 1);
      FlatPrefix(chars, k, n - 1);
      var before, c := Flat(chars[..n - 1]), chars[n - 1];
      assert Flat(chars[..n])[..|Flat(chars[..k])|] == before[..|Flat(chars[..k])|];
      if k == n - 1 { assert Flat(chars[..n])[|before|] == c[0] && IsChar(c); }
    }
  }

  lemma PrefixEnds(chars: seq<Char>, k: nat, n: nat)
    requires k <= n <= |chars|
    ensures EndsAt(Flat(chars[..n]), k, |Flat(chars[..k])|)
  {
    FlatPrefix(chars, k, n);
    FlatCodePoints(chars, k);
  }

  // ---- A dictionary's keys and its scan index

  datatype Dictionary = Dictionary(keys: seq<seq<byte>>, noted: seq<LongKey>, entries: seq<LongKey>, file: seq<byte>)

  // As the importer builds it; the keys' lengths fit their uint16_t prefixes.
  ghost predicate Built(hash: seq<byte> -> nat, d: Dictionary) {
    && (forall i :: 0 <= i < |d.keys| ==> |d.keys[i]| < 0x1_0000)
    && (forall i :: 0 <= i < |d.keys| && CodePoints(d.keys[i]) > LONG_KEY_MIN_CODEPOINTS ==>
          IsNoted(hash, d.keys[i], d.noted))
    && (exists index :: Holds(index, d.noted) && SortedFrom(index, d.entries))
    && IsIndexFile(d.file, d.entries)
  }

  lemma NotedMore(hash: seq<byte> -> nat, key: seq<byte>, noted: seq<LongKey>, noted': seq<LongKey>)
    requires IsNoted(hash, key, noted) && noted <= noted'
    ensures IsNoted(hash, key, noted')
  {
    hide NotedAs;
    var i :| 0 <= i < |noted| && NotedAs(hash, key, noted[i]);
    assert noted'[i] == noted[i];
  }

  // The importer's notes of all the keys of a dictionary.
  method NoteAll(hash: seq<byte> -> nat, keys: seq<seq<byte>>) returns (noted: seq<LongKey>)
    ensures forall i :: 0 <= i < |keys| && CodePoints(keys[i]) > LONG_KEY_MIN_CODEPOINTS ==>
              IsNoted(hash, keys[i], noted)
  {
    hide NotedAs, IsNoted, CodePoints;
    noted := [];
    for k := 0 to |keys|
      invariant forall i :: 0 <= i < k && CodePoints(keys[i]) > LONG_KEY_MIN_CODEPOINTS ==>
                  IsNoted(hash, keys[i], noted)
    {
      var was := noted;
      noted := NoteLongKey(hash, noted, keys[k]);
      if CodePoints(keys[k]) > LONG_KEY_MIN_CODEPOINTS { LastNoted(hash, keys[k], noted); }
      forall i | 0 <= i < k && CodePoints(keys[i]) > LONG_KEY_MIN_CODEPOINTS ensures IsNoted(hash, keys[i], noted) {
        NotedMore(hash, keys[i], was, noted);
      }
    }
  }

  lemma LastNoted(hash: seq<byte> -> nat, key: seq<byte>, noted: seq<LongKey>)
    requires noted != [] && NotedAs(hash, key, noted[|noted| - 1])
    ensures IsNoted(hash, key, noted)
  {
  }

  // A key longer than the ordinary scan is noted under the hash of the text's first characters.
  lemma KeyNoted(hash: seq<byte> -> nat, chars: seq<Char>, n: nat, noted: seq<LongKey>) returns (i: nat)
    requires LONG_KEY_MIN_CODEPOINTS < n <= |chars| && |Flat(chars[..n])| < 0x1_0000
    requires CodePoints(Flat(chars[..n])) > LONG_KEY_MIN_CODEPOINTS ==> IsNoted(hash, Flat(chars[..n]), noted)
    ensures i < |noted| && noted[i] == LongKey(hash(Flat(chars[..LONG_KEY_PREFIX_CODEPOINTS])), n)
  {
    var key, first := Flat(chars[..n]), Flat(chars[..LONG_KEY_PREFIX_CODEPOINTS]);
    FlatCodePoints(chars, n);
    PrefixEnds(chars, LONG_KEY_PREFIX_CODEPOINTS, n);
    FlatPrefix(chars, LONG_KEY_PREFIX_CODEPOINTS, n);
    hide Flat, EndsAt;
    i :| 0 <= i < |noted| && NotedAs(hash, key, noted[i]);
    var end: nat :| EndsAt(key, LONG_KEY_PREFIX_CODEPOINTS, end) && noted[i].hash == hash(key[..end]);
    EndIsUnique(key, LONG_KEY_PREFIX_CODEPOINTS, end, |first|);
  }

  // What the index has for a hash is at least as long as every key noted under it.
  lemma IndexCovers(index: map<nat, nat>, noted: seq<LongKey>, entries: seq<LongKey>, i: nat) returns (k: nat)
    requires Holds(index, noted) && SortedFrom(index, entries) && i < |noted|
    ensures k < |entries| && entries[k].hash == noted[i].hash && entries[k].length >= noted[i].length
  {
    hide Longest;
    var hash := noted[i].hash;
    assert Under(noted, hash) && HoldsFor(index, noted, hash);
    LongestIsMaximum(noted, hash, i, |noted|);
    assert noted[..|noted|] == noted;
    k :| 0 <= k < |entries| && entries[k].hash == hash;
  }

  // What a lookup in the index gives for a prefix: at least the length of every key that starts with it.
  lemma KeyIsCovered(hash: seq<byte> -> nat, d: Dictionary, chars: seq<Char>, n: nat, longest: nat)
    requires Built(hash, d) && LONG_KEY_MIN_CODEPOINTS < n <= |chars| && Flat(chars[..n]) in d.keys
    requires AtLeast(d.entries, hash(Flat(chars[..LONG_KEY_PREFIX_CODEPOINTS])), longest)
    ensures n <= longest
  {
    hide Flat, CodePoints, Holds, SortedFrom, IsNoted;
    var at :| 0 <= at < |d.keys| && d.keys[at] == Flat(chars[..n]);
    var i := KeyNoted(hash, chars, n, d.noted);
    var index :| Holds(index, d.noted) && SortedFrom(index, d.entries);
    var k := IndexCovers(index, d.noted, d.entries, i);
  }

  // ---- The scan

  // high, high - 1, ..., low + 1
  function Down(high: nat, low: nat): (r: seq<nat>)
    ensures forall i: nat :: i in r <==> low < i <= high
  {
    if high <= low then [] else [high] + Down(high - 1, low)
  }

  function Least(a: nat, b: nat): nat { if a < b then a else b }

  // How far the long keys extend the scan.
  function Extended(longKey: nat, textLength: nat): nat {
    Least(longKey + INFLECTION_SLACK_CODEPOINTS, textLength)
  }

  predicate AtLeast(entries: seq<LongKey>, hash: nat, longest: nat) {
    forall i :: 0 <= i < |entries| && entries[i].hash == hash ==> entries[i].length <= longest
  }

  predicate InSome(dictionaries: seq<Dictionary>, note: LongKey) {
    exists k :: 0 <= k < |dictionaries| && note in dictionaries[k].entries
  }

  // The longest key of the dictionaries that starts like the text.
  method LongestKey(hash: seq<byte> -> nat, dictionaries: seq<Dictionary>, prefix: seq<byte>) returns (longest: nat)
    requires forall k :: 0 <= k < |dictionaries| ==> Built(hash, dictionaries[k])
    ensures forall k :: 0 <= k < |dictionaries| ==> AtLeast(dictionaries[k].entries, hash(prefix), longest)
    ensures longest == 0 || InSome(dictionaries, LongKey(hash(prefix), longest))
  {
    hide Built;
    longest := 0;
    for k := 0 to |dictionaries|
      invariant forall j :: 0 <= j < k ==> AtLeast(dictionaries[j].entries, hash(prefix), longest)
      invariant longest == 0 || InSome(dictionaries, LongKey(hash(prefix), longest))
    {
      var d := dictionaries[k];
      BuiltSearchable(hash, d);
      var length := LongKeyLength(d.file, hash(prefix), d.entries);
      if length > longest { longest := length; }
    }
  }

  lemma BuiltSearchable(hash: seq<byte> -> nat, d: Dictionary)
    requires Built(hash, d)
    ensures IsIndexFile(d.file, d.entries) && HashesAscend(d.entries)
  {
    hide IsIndexFile;
  }

  // The lengths of the prefixes read, longest first.
  function Visited(scanLength: nat, textLength: nat, longKey: nat): seq<nat> {
    Down(Least(scanLength, textLength), 0)
    + if longKey > scanLength then Down(Extended(longKey, textLength), scanLength) else []
  }

  // The bounded scan, and the variants of the text's first eight code points: with identity processing,
  // these code points.
  method ScanBounded(chars: seq<Char>, scanLength: nat) returns (visited: seq<nat>, variants: seq<seq<byte>>)
    ensures visited == Down(Least(scanLength, |chars|), 0)
    ensures variants == if LONG_KEY_PREFIX_CODEPOINTS <= Least(scanLength, |chars|)
                        then [Flat(chars[..LONG_KEY_PREFIX_CODEPOINTS])] else []
  {
    hide Flat;
    var start := Least(scanLength, |chars|);
    visited, variants := [], [];
    var i: nat := start;
    while i > 0
      invariant i <= start && visited + Down(i, 0) == Down(start, 0)
      invariant variants == if i < LONG_KEY_PREFIX_CODEPOINTS <= start
                            then [Flat(chars[..LONG_KEY_PREFIX_CODEPOINTS])] else []
    {
      visited := visited + [i];
      if i == LONG_KEY_PREFIX_CODEPOINTS { variants := variants + [Flat(chars[..i])]; }
      i := i - 1;
    }
  }

  method ScanExtended(visited: seq<nat>, extended: nat, scanLength: nat) returns (visited': seq<nat>)
    ensures visited' == visited + Down(extended, scanLength)
  {
    visited' := visited;
    var i: nat := extended;
    while i > scanLength
      invariant visited' + Down(i, scanLength) == visited + Down(extended, scanLength)
    {
      visited' := visited' + [i];
      i := i - 1;
    }
  }

  ghost predicate AllBuilt(hash: seq<byte> -> nat, dictionaries: seq<Dictionary>) {
    forall k :: 0 <= k < |dictionaries| ==> Built(hash, dictionaries[k])
  }

  // What a scan takes for the text's long key: the longest that starts with its first eight code points,
  // where the scan has come to these and not to the end of the text.
  predicate IsLongKey(hash: seq<byte> -> nat, dictionaries: seq<Dictionary>, chars: seq<Char>, scanLength: nat,
                      longKey: nat)
  {
    if LONG_KEY_PREFIX_CODEPOINTS <= scanLength < |chars| then
      var prefix := hash(Flat(chars[..LONG_KEY_PREFIX_CODEPOINTS]));
      && (forall k :: 0 <= k < |dictionaries| ==> AtLeast(dictionaries[k].entries, prefix, longKey))
      && (longKey == 0 || InSome(dictionaries, LongKey(prefix, longKey)))
    else longKey == 0
  }

  // The scan of a text, with the long keys of these dictionaries.
  method Scan(hash: seq<byte> -> nat, dictionaries: seq<Dictionary>, chars: seq<Char>, scanLength: nat)
    returns (visited: seq<nat>, longKey: nat)
    requires AllBuilt(hash, dictionaries)
    ensures visited == Visited(scanLength, |chars|, longKey)
    ensures IsLongKey(hash, dictionaries, chars, scanLength, longKey)
  {
    hide Built, Flat, Down, InSome, AtLeast;
    var variants;
    visited, variants := ScanBounded(chars, scanLength);
    longKey := 0;
    if variants != [] && |chars| > scanLength {
      longKey := LongestKey(hash, dictionaries, variants[0]);
      if longKey > scanLength {
        visited := ScanExtended(visited, Extended(longKey, |chars|), scanLength);
      }
    }
  }

  // Every prefix that is a key is read, when the scan has at least sixteen code points.
  lemma ScanIsComplete(hash: seq<byte> -> nat, chars: seq<Char>, scanLength: nat, longKey: nat, d: Dictionary, n: nat)
    requires scanLength >= LONG_KEY_MIN_CODEPOINTS && Built(hash, d)
    requires scanLength < |chars| ==> AtLeast(d.entries, hash(Flat(chars[..LONG_KEY_PREFIX_CODEPOINTS])), longKey)
    requires 1 <= n <= |chars| && Flat(chars[..n]) in d.keys
    ensures n in Visited(scanLength, |chars|, longKey)
  {
    if n > scanLength { KeyIsCovered(hash, d, chars, n, longKey); }
    hide Built;
  }

  predicate HasKey(dictionaries: seq<Dictionary>, key: seq<byte>) {
    exists k :: 0 <= k < |dictionaries| && key in dictionaries[k].keys
  }

  // A scan, and a prefix of its text that is a key.
  ghost predicate ScanWithKey(hash: seq<byte> -> nat, dictionaries: seq<Dictionary>, chars: seq<Char>, scanLength: nat,
                        longKey: nat, n: nat)
  {
    && AllBuilt(hash, dictionaries) && IsLongKey(hash, dictionaries, chars, scanLength, longKey)
    && 1 <= n <= |chars| && HasKey(dictionaries, Flat(chars[..n]))
  }

  // Whatever the dictionaries and the text, the scan reads every prefix that is a key.
  ghost predicate ReadsEveryKey(hash: seq<byte> -> nat, scanLength: nat) {
    forall dictionaries, chars, longKey, n :: ScanWithKey(hash, dictionaries, chars, scanLength, longKey, n) ==>
      n in Visited(scanLength, |chars|, longKey)
  }

  // A shorter scan can miss a key: one code point longer than the scan, too short for the index.
  lemma ShortScanMisses(hash: seq<byte> -> nat, scanLength: nat) returns (d: Dictionary, chars: seq<Char>)
    requires scanLength < LONG_KEY_MIN_CODEPOINTS
    ensures Built(hash, d) && |chars| == scanLength + 1 && Flat(chars) in d.keys
    ensures d.entries == [] && scanLength + 1 !in Visited(scanLength, |chars|, 0)
  {
    chars := seq(scanLength + 1, _ => [97]);
    d := Dictionary([Flat(chars)], [], [], []);
    assert chars[..scanLength + 1] == chars;
    FlatCodePoints(chars, scanLength + 1);
    ShortFlat(chars, scanLength + 1);
    var index: map<nat, nat> := map[];
    assert Holds(index, []) && SortedFrom(index, []);
    assert d.keys[0] in d.keys;
  }

  // Sixteen code points is exactly where a scan starts to be complete.
  lemma CompleteExactly(hash: seq<byte> -> nat, scanLength: nat)
    ensures ReadsEveryKey(hash, scanLength) <==> scanLength >= LONG_KEY_MIN_CODEPOINTS
  {
    hide Built, Flat, Visited;
    if scanLength >= LONG_KEY_MIN_CODEPOINTS {
      forall dictionaries: seq<Dictionary>, chars: seq<Char>, longKey: nat, n: nat
        | ScanWithKey(hash, dictionaries, chars, scanLength, longKey, n)
        ensures n in Visited(scanLength, |chars|, longKey)
      {
        var k :| 0 <= k < |dictionaries| && Flat(chars[..n]) in dictionaries[k].keys;
        ScanIsComplete(hash, chars, scanLength, longKey, dictionaries[k], n);
      }
    } else {
      var d, chars := ShortScanMisses(hash, scanLength);
      assert chars[..scanLength + 1] == chars;
      assert [d][0].keys == d.keys && AtLeast([d][0].entries, 0, 0);
      assert ScanWithKey(hash, [d], chars, scanLength, 0, scanLength + 1);
    }
  }

  lemma {:induction false} ShortFlat(chars: seq<Char>, n: nat)
    requires n <= |chars| && forall i :: 0 <= i < |chars| ==> |chars[i]| == 1
    ensures |Flat(chars[..n])| == n
  {
    if n > 0 {
      ShortFlat(chars, n - 1);
      FlatStep(chars, n - 1);
    }
  }
}
