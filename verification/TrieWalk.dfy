// Listing the rules a text matches (TransformSet::push_frame, src/languages/transforms.cpp): one walk
// through the trie of reversed suffixes (or of prefixes) finds every affix the text ends (begins) with.
module TrieWalk {
  import opened Options
  import opened TrieBuilding
  import opened Trie

  const MAX_MATCHES := 64

  // A node the walk met, and how many of the text's code points it spells.
  datatype Match = Match(node: nat, length: nat)

  // ---- What the walk should find

  predicate IsKey(keys: seq<Key>, key: Key) {
    exists k :: 0 <= k < |keys| && keys[k] == key
  }

  // The lengths of the nonempty keys the letters begin with, up to n, longest first.
  function KeyLengths(keys: seq<Key>, letters: Key, n: nat): (r: seq<nat>)
    requires n <= |letters|
    ensures |r| <= n
  {
    if n == 0 then [] else (if IsKey(keys, letters[..n]) then [n] else []) + KeyLengths(keys, letters, n - 1)
  }

  // The rules of a key, in file order.
  function RulesFor(keys: seq<Key>, rules: seq<nat>, key: Key): seq<nat>
    requires |keys| == |rules|
  {
    if keys == [] then []
    else
      var n := |keys| - 1;
      RulesFor(keys[..n], rules[..n], key) + if keys[n] == key then [rules[n]] else []
  }

  function RuleNumbers(pending: seq<Pending>): (r: seq<nat>)
    ensures |r| == |pending| && forall k :: 0 <= k < |r| ==> r[k] == pending[k].rule
  {
    seq(|pending|, k requires 0 <= k < |pending| => pending[k].rule)
  }

  lemma {:induction false} NodeRulesAre(labels: seq<Key>, pending: seq<Pending>, keys: seq<Key>, node: nat, n: nat)
    requires Spelled(labels, pending, keys) && node < |labels| && n <= |keys|
    requires AllDiffer(labels)
    ensures RulesOf(pending[..n], node) == RulesFor(keys[..n], RuleNumbers(pending)[..n], labels[node])
    ensures CountOf(pending[..n], node) > 0 <==> IsKey(keys[..n], labels[node])
  {
    hide CountOf, RulesOf, RulesFor, IsKey;
    var rules := RuleNumbers(pending);
    if n == 0 {
      assert pending[..0] == [] && keys[..0] == [] && rules[..0] == [];
      NoRules(node, labels[node]);
    } else {
      NodeRulesAre(labels, pending, keys, node, n - 1);
      CountStep(pending, n - 1, node);
      RulesForStep(keys, rules, labels[node], n - 1);
      assert (pending[n - 1].node == node) == (keys[n - 1] == labels[node]);
    }
  }

  lemma {:induction false} NoRules(node: nat, key: Key)
    ensures RulesOf([], node) == RulesFor([], [], key) && CountOf([], node) == 0 && !IsKey([], key)
  {
  }

  lemma {:induction false} RulesForStep(keys: seq<Key>, rules: seq<nat>, key: Key, n: nat)
    requires n < |keys| == |rules|
    ensures RulesFor(keys[..n + 1], rules[..n + 1], key) ==
            RulesFor(keys[..n], rules[..n], key) + if keys[n] == key then [rules[n]] else []
    ensures IsKey(keys[..n + 1], key) <==> IsKey(keys[..n], key) || keys[n] == key
  {
    assert keys[..n + 1][..n] == keys[..n] && rules[..n + 1][..n] == rules[..n];
    if IsKey(keys[..n], key) {
      var k :| 0 <= k < n && keys[..n][k] == key;
      assert keys[..n + 1][k] == key;
    }
    assert keys[..n + 1][n] == keys[n];
  }

  // ---- The tree holds every beginning of every key

  predicate IsSpelled(labels: seq<Key>, key: Key) {
    exists m :: 0 <= m < |labels| && labels[m] == key
  }

  lemma BeginningSpelled(labels: seq<Key>, parents: seq<nat>, edges: seq<BuildEdge>, key: Key)
    requires Tree(labels, parents, edges) && IsSpelled(labels, key) && key != []
    ensures IsSpelled(labels, key[..|key| - 1])
  {
    hide LastFrom;
    var m :| 0 <= m < |labels| && labels[m] == key;
    assert m > 0;
    assert SpellsOn(labels, parents, edges, m - 1);
    assert labels[parents[m - 1]] == key[..|key| - 1];
  }

  lemma {:induction false} BeginningsSpelled(labels: seq<Key>, parents: seq<nat>, edges: seq<BuildEdge>, key: Key,
                                             n: nat)
    requires Tree(labels, parents, edges) && IsSpelled(labels, key) && n <= |key|
    ensures IsSpelled(labels, key[..n])
    decreases |key| - n
  {
    hide Tree, IsSpelled;
    if n < |key| {
      BeginningsSpelled(labels, parents, edges, key, n + 1);
      BeginningSpelled(labels, parents, edges, key[..n + 1]);
      assert key[..n + 1][..n] == key[..n];
    } else {
      assert key[..n] == key;
    }
  }

  lemma KeySpelled(labels: seq<Key>, pending: seq<Pending>, keys: seq<Key>, key: Key)
    requires Spelled(labels, pending, keys) && IsKey(keys, key)
    ensures IsSpelled(labels, key)
  {
    var k :| 0 <= k < |keys| && keys[k] == key;
    assert labels[pending[k].node] == key;
  }

  lemma LongerSpells(labels: seq<Key>, parents: seq<nat>, edges: seq<BuildEdge>, pending: seq<Pending>,
                     keys: seq<Key>, letters: Key, n: nat, m: nat)
    requires Tree(labels, parents, edges) && Spelled(labels, pending, keys)
    requires n <= m <= |letters| && IsKey(keys, letters[..m])
    ensures IsSpelled(labels, letters[..n])
  {
    KeySpelled(labels, pending, keys, letters[..m]);
    BeginningsSpelled(labels, parents, edges, letters[..m], n);
    assert letters[..m][..n] == letters[..n];
  }

  // Where no node spells one letter more, no longer key begins the letters.
  lemma {:induction false} NothingLonger(labels: seq<Key>, parents: seq<nat>, edges: seq<BuildEdge>,
                                         pending: seq<Pending>, keys: seq<Key>, letters: Key, n: nat, m: nat)
    requires Tree(labels, parents, edges) && Spelled(labels, pending, keys) && n < |letters| && n <= m <= |letters|
    requires !IsSpelled(labels, letters[..n + 1])
    ensures KeyLengths(keys, letters, m) == KeyLengths(keys, letters, n)
    decreases m
  {
    hide Tree, Spelled, IsSpelled, IsKey;
    if m > n {
      NothingLonger(labels, parents, edges, pending, keys, letters, n, m - 1);
      if IsKey(keys, letters[..m]) {
        LongerSpells(labels, parents, edges, pending, keys, letters, n + 1, m);
      }
    }
  }

  // Below the root a node spells exactly what a key begins with.
  lemma SpelledBegins(b: Built, beginning: Key)
    requires Stands(b) && beginning != []
    ensures IsSpelled(b.labels, beginning) <==> Begins(b.keys, beginning)
  {
    hide Spelled;
    if m :| 0 <= m < |b.labels| && b.labels[m] == beginning { assert m > 0; }
    if k :| 0 <= k < |b.keys| && beginning <= b.keys[k] {
      KeySpelled(b.labels, b.pending, b.keys, b.keys[k]);
      hide Tree, IsSpelled;
      BeginningsSpelled(b.labels, b.parents, b.edges, b.keys[k], |beginning|);
      assert b.keys[k][..|beginning|] == beginning;
    }
  }

  // How many letters a walk reads from n on, with `found` keys behind it: up to the first that no key goes
  // on with, and no more after the limit.
  function Reads(keys: seq<Key>, letters: Key, n: nat, found: nat): nat
    requires n <= |letters|
    decreases |letters| - n
  {
    if n == |letters| || found >= MAX_MATCHES then 0
    else if !Begins(keys, letters[..n + 1]) then 1
    else 1 + Reads(keys, letters, n + 1, if IsKey(keys, letters[..n + 1]) then found + 1 else found)
  }

  // The lengths up to n end the lengths up to any more.
  lemma {:induction false} LengthsEnd(keys: seq<Key>, letters: Key, n: nat, m: nat)
    requires n <= m <= |letters|
    ensures |KeyLengths(keys, letters, n)| <= |KeyLengths(keys, letters, m)|
    ensures KeyLengths(keys, letters, m)[|KeyLengths(keys, letters, m)| - |KeyLengths(keys, letters, n)|..]
         == KeyLengths(keys, letters, n)
    decreases m
  {
    hide IsKey;
    if m > n { LengthsEnd(keys, letters, n, m - 1); }
  }

  // The last `limit` of a list.
  function Ending(s: seq<nat>, limit: nat): seq<nat> {
    if |s| > limit then s[|s| - limit..] else s
  }

  // ---- The walk

  function LengthsOf(matches: seq<Match>): (r: seq<nat>)
    ensures |r| == |matches| && forall i :: 0 <= i < |r| ==> r[i] == matches[i].length
  {
    seq(|matches|, i requires 0 <= i < |matches| => matches[i].length)
  }

  ghost predicate AtNodes(labels: seq<Key>, letters: Key, matches: seq<Match>) {
    forall i :: 0 <= i < |matches| ==>
      matches[i].node < |labels| && matches[i].length <= |letters|
      && labels[matches[i].node] == letters[..matches[i].length]
  }

  function Reversed(matches: seq<Match>): (r: seq<Match>)
    ensures |r| == |matches|
  {
    if matches == [] then [] else [matches[|matches| - 1]] + Reversed(matches[..|matches| - 1])
  }

  lemma {:induction false} ReversedNodes(labels: seq<Key>, letters: Key, matches: seq<Match>)
    requires AtNodes(labels, letters, matches)
    ensures AtNodes(labels, letters, Reversed(matches))
  {
    if matches != [] { ReversedNodes(labels, letters, matches[..|matches| - 1]); }
  }

  lemma {:induction false} ReversedStep(matches: seq<Match>, m: Match)
    ensures Reversed(matches + [m]) == [m] + Reversed(matches)
    ensures LengthsOf([m] + Reversed(matches)) == [m.length] + LengthsOf(Reversed(matches))
  {
    assert (matches + [m])[..|matches|] == matches;
  }

  // The node the walk has come to: what it spells, and whether it has rules.
  ghost predicate Came(labels: seq<Key>, letters: Key, node: nat, n: nat) {
    n <= |letters| && node < |labels| && labels[node] == letters[..n]
  }

  lemma RulesTell(labels: seq<Key>, pending: seq<Pending>, keys: seq<Key>, trie: Trie, letters: Key, node: nat, n: nat)
    requires Finished(labels, pending, trie) && Spelled(labels, pending, keys) && Came(labels, letters, node, n)
    requires AllDiffer(labels)
    ensures node < |trie.rules|
    ensures trie.rules[node].begin != trie.rules[node].end <==> IsKey(keys, letters[..n])
  {
    NodeRulesAre(labels, pending, keys, node, |keys|);
    assert keys[..|keys|] == keys && pending[..|keys|] == pending;
    assert NodePlaced(pending, trie.rules[node].begin, trie.rules[node].end, trie.nodeRules, node);
    hide CountOf, RulesOf, RulesFor, IsKey;
  }

  // Where the walk stands behind n letters: at the node that spells them, with a match for each key.
  ghost predicate Walked(labels: seq<Key>, keys: seq<Key>, letters: Key, node: nat, n: nat, matches: seq<Match>) {
    && Came(labels, letters, node, n) && AtNodes(labels, letters, matches)
    && LengthsOf(Reversed(matches)) == KeyLengths(keys, letters, n)
  }

  lemma WalkStarts(labels: seq<Key>, keys: seq<Key>, letters: Key)
    requires |labels| > 0 && labels[0] == []
    ensures Walked(labels, keys, letters, 0, 0, []) && MAX_MATCHES > 0
  {
    assert letters[..0] == [];
  }

  // One letter further, with a match when a key ends there.
  lemma WalkOn(labels: seq<Key>, keys: seq<Key>, letters: Key, node: nat, n: nat, matches: seq<Match>, child: nat)
    requires Walked(labels, keys, letters, node, n, matches) && n < |letters|
    requires child < |labels| && labels[child] == labels[node] + [letters[n]]
    ensures Came(labels, letters, child, n + 1)
    ensures Walked(labels, keys, letters, child, n + 1,
                   if IsKey(keys, letters[..n + 1]) then matches + [Match(child, n + 1)] else matches)
  {
    hide IsKey, Reversed;
    assert letters[..n + 1] == letters[..n] + [letters[n]];
    ReversedStep(matches, Match(child, n + 1));
  }

  lemma {:induction false} WalkStops(labels: seq<Key>, parents: seq<nat>, edges: seq<BuildEdge>, pending: seq<Pending>,
                                     keys: seq<Key>, letters: Key, node: nat, n: nat, matches: seq<Match>)
    requires Tree(labels, parents, edges) && Spelled(labels, pending, keys)
    requires Walked(labels, keys, letters, node, n, matches) && n < |letters| && |matches| <= MAX_MATCHES
    requires forall m :: 0 <= m < |labels| ==> labels[m] != labels[node] + [letters[n]]
    ensures LengthsOf(Reversed(matches)) == Ending(KeyLengths(keys, letters, |letters|), MAX_MATCHES)
  {
    hide Tree, Linked, Spelled, KeyLengths, Ending, Reversed, AtNodes;
    NotReached(labels, letters, node, n);
    NothingLonger(labels, parents, edges, pending, keys, letters, n, |letters|);
    WithinLimit(KeyLengths(keys, letters, |letters|));
  }

  lemma NotReached(labels: seq<Key>, letters: Key, node: nat, n: nat)
    requires Came(labels, letters, node, n) && n < |letters|
    requires forall m :: 0 <= m < |labels| ==> labels[m] != labels[node] + [letters[n]]
    ensures !IsSpelled(labels, letters[..n + 1])
  {
    assert letters[..n + 1] == letters[..n] + [letters[n]];
  }

  lemma {:induction false} WalkEnds(labels: seq<Key>, keys: seq<Key>, letters: Key, node: nat, n: nat,
                                    matches: seq<Match>)
    requires Walked(labels, keys, letters, node, n, matches) && |matches| <= MAX_MATCHES
    requires n == |letters| || |matches| == MAX_MATCHES
    ensures LengthsOf(Reversed(matches)) == Ending(KeyLengths(keys, letters, |letters|), MAX_MATCHES)
  {
    hide KeyLengths, Ending, Reversed, AtNodes;
    LengthsEnd(keys, letters, n, |letters|);
    LimitEnds(KeyLengths(keys, letters, |letters|), KeyLengths(keys, letters, n), n == |letters|);
  }

  // The trie of what was built.
  ghost predicate Serves(b: Built, trie: Trie) {
    Stands(b) && Finished(b.labels, b.pending, trie)
  }

  // Whether the walk goes on tells whether a key does.
  lemma StepTells(b: Built, letters: Key, node: nat, n: nat, child: Option<nat>)
    requires Stands(b) && Came(b.labels, letters, node, n) && node < |b.labels| && n < |letters|
    requires child.Some? ==> child.value < |b.labels| && b.labels[child.value] == b.labels[node] + [letters[n]]
    requires child.None? ==> forall m :: 0 <= m < |b.labels| ==> b.labels[m] != b.labels[node] + [letters[n]]
    ensures Begins(b.keys, letters[..n + 1]) <==> child.Some?
  {
    hide *;
    SpelledBegins(b, letters[..n + 1]);
    if child.Some? {
      Reaches(b.labels, letters, node, n, child.value);
    } else {
      NotReached(b.labels, letters, node, n);
    }
  }

  lemma Reaches(labels: seq<Key>, letters: Key, node: nat, n: nat, child: nat)
    requires Came(labels, letters, node, n) && n < |letters|
    requires child < |labels| && labels[child] == labels[node] + [letters[n]]
    ensures IsSpelled(labels, letters[..n + 1])
  {
    assert letters[..n + 1] == letters[..n] + [letters[n]];
  }

  lemma ServesParts(b: Built, trie: Trie)
    requires Serves(b, trie)
    ensures Tree(b.labels, b.parents, b.edges) && Spelled(b.labels, b.pending, b.keys) && Stands(b)
    ensures Finished(b.labels, b.pending, trie) && AllDiffer(b.labels) && |b.pending| == |b.keys|
    ensures |trie.children| == |b.labels| && HasChildren(b.labels, trie.children, trie.edges, |b.labels|)
    ensures |b.labels| > 0 && b.labels[0] == [] && |trie.rules| == |b.labels| && |trie.nodeRules| == |b.keys|
  {
  }

  // The loop over the letters: the matches, shortest first, as far as the limit allows, and how many
  // letters it read.
  method WalkLetters(ghost b: Built, trie: Trie, letters: Key) returns (matches: seq<Match>, read: nat)
    requires Serves(b, trie)
    ensures AtNodes(b.labels, letters, matches)
    ensures LengthsOf(Reversed(matches)) == Ending(KeyLengths(b.keys, letters, |letters|), MAX_MATCHES)
    ensures read == Reads(b.keys, letters, 0, 0)
  {
    hide *;
    ServesParts(b, trie);
    matches := [];
    var node: nat, n: nat := 0, 0;
    WalkStarts(b.labels, b.keys, letters);
    while n < |letters| && |matches| < MAX_MATCHES
      invariant n <= |letters| && node < |b.labels| && |matches| <= MAX_MATCHES
      invariant Walked(b.labels, b.keys, letters, node, n, matches)
      invariant n + Reads(b.keys, letters, n, |matches|) == Reads(b.keys, letters, 0, 0)
    {
      WalkIsAt(b.labels, b.keys, letters, node, n, matches);
      var child := Child(b.labels, trie, node, letters[n]);
      StepTells(b, letters, node, n, child);
      ReadsStep(b.keys, letters, n, |matches|);
      if child.None? {
        WalkStops(b.labels, b.parents, b.edges, b.pending, b.keys, letters, node, n, matches);
        return matches, n + 1;
      }
      WalkOn(b.labels, b.keys, letters, node, n, matches, child.value);
      node := child.value;
      n := n + 1;
      RulesTell(b.labels, b.pending, b.keys, trie, letters, node, n);
      if trie.rules[node].begin != trie.rules[node].end {
        matches := matches + [Match(node, n)];
      }
    }
    WalkEnds(b.labels, b.keys, letters, node, n, matches);
    WalkIsAt(b.labels, b.keys, letters, node, n, matches);
    ReadsEnd(b.keys, letters, n, |matches|);
    read := n;
  }

  lemma WalkIsAt(labels: seq<Key>, keys: seq<Key>, letters: Key, node: nat, n: nat, matches: seq<Match>)
    requires Walked(labels, keys, letters, node, n, matches)
    ensures Came(labels, letters, node, n) && node < |labels| && AtNodes(labels, letters, matches)
  {
  }

  lemma {:induction false} ReadsStep(keys: seq<Key>, letters: Key, n: nat, found: nat)
    requires n < |letters| && found < MAX_MATCHES
    ensures Reads(keys, letters, n, found) ==
            if !Begins(keys, letters[..n + 1]) then 1
            else 1 + Reads(keys, letters, n + 1, if IsKey(keys, letters[..n + 1]) then found + 1 else found)
  {
  }

  lemma {:induction false} ReadsEnd(keys: seq<Key>, letters: Key, n: nat, found: nat)
    requires n == |letters| || (n < |letters| && found >= MAX_MATCHES)
    ensures Reads(keys, letters, n, found) == 0
  {
  }

  lemma WithinLimit(all: seq<nat>)
    requires |all| <= MAX_MATCHES
    ensures Ending(all, MAX_MATCHES) == all
  {
  }

  lemma LimitEnds(all: seq<nat>, some: seq<nat>, whole: bool)
    requires |some| <= |all| && all[|all| - |some|..] == some && |some| <= MAX_MATCHES
    requires if whole then all == some else |some| == MAX_MATCHES
    ensures Ending(all, MAX_MATCHES) == some
  {
  }

  // The matches of push_frame for one trie: longest first, the empty key's at last.
  method Walk(ghost b: Built, trie: Trie, letters: Key) returns (matches: seq<Match>, read: nat)
    requires Serves(b, trie)
    ensures AtNodes(b.labels, letters, matches) && LengthsOf(matches) == AllLengths(b.keys, letters)
    ensures read == Reads(b.keys, letters, 0, 0)
  {
    var found;
    found, read := WalkLetters(b, trie, letters);
    ReversedNodes(b.labels, letters, found);
    matches := Reversed(found);
    ServesParts(b, trie);
    hide Stands, Tree, Spelled, IsKey, Finished, HasChildren, Ending, KeyLengths, Reversed, AtNodes, Reads;
    assert letters[..0] == [];
    RulesTell(b.labels, b.pending, b.keys, trie, letters, 0, 0);
    RootMatch(b.labels, letters, matches);
    if trie.rules[0].begin != trie.rules[0].end {
      matches := matches + [Match(0, 0)];
    }
  }

  lemma RootMatch(labels: seq<Key>, letters: Key, matches: seq<Match>)
    requires AtNodes(labels, letters, matches) && |labels| > 0 && labels[0] == []
    ensures AtNodes(labels, letters, matches + [Match(0, 0)])
    ensures LengthsOf(matches + [Match(0, 0)]) == LengthsOf(matches) + [0]
    ensures LengthsOf(matches) + [] == LengthsOf(matches)
  {
    assert letters[..0] == [];
  }

  // The limit drops nothing from keys of at most 64 code points.
  lemma {:induction false} LimitSuffices(keys: seq<Key>, letters: Key, n: nat)
    requires n <= |letters| && forall k :: 0 <= k < |keys| ==> |keys[k]| <= MAX_MATCHES
    ensures |KeyLengths(keys, letters, n)| <= MAX_MATCHES
    ensures n > MAX_MATCHES ==> KeyLengths(keys, letters, n) == KeyLengths(keys, letters, MAX_MATCHES)
  {
    if n > MAX_MATCHES { LimitSuffices(keys, letters, n - 1); }
  }

  // The rules of a match, as the search reads them: all the rules of its key, in file order.
  lemma {:induction false} MatchRules(b: Built, trie: Trie, letters: Key, matches: seq<Match>, i: nat)
    requires Serves(b, trie) && AtNodes(b.labels, letters, matches) && i < |matches|
    ensures |b.pending| == |b.keys| && matches[i].length <= |letters|
    ensures var m := matches[i];
            && m.node < |trie.rules| && trie.rules[m.node].begin <= trie.rules[m.node].end <= |trie.nodeRules|
            && trie.nodeRules[trie.rules[m.node].begin..trie.rules[m.node].end] ==
               RulesFor(b.keys, RuleNumbers(b.pending), letters[..m.length])
  {
    ServesParts(b, trie);
    var m := matches[i];
    NodeRulesAre(b.labels, b.pending, b.keys, m.node, |b.keys|);
    var all := |b.keys|;
    assert b.keys[..all] == b.keys && b.pending[..all] == b.pending;
    assert RuleNumbers(b.pending)[..all] == RuleNumbers(b.pending);
    assert NodePlaced(b.pending, trie.rules[m.node].begin, trie.rules[m.node].end, trie.nodeRules, m.node);
    hide CountOf, RulesOf, RulesFor, IsKey, Stands;
  }

  // ---- Suffixes: the letters are the text's, backwards

  function Backwards(text: Key): (r: Key)
    ensures |r| == |text| && forall i :: 0 <= i < |r| ==> r[i] == text[|text| - 1 - i]
  {
    seq(|text|, i requires 0 <= i < |text| => text[|text| - 1 - i])
  }

  // A reversed affix begins the reversed text exactly when the affix ends the text.
  lemma SuffixBackwards(text: Key, affix: Key)
    ensures |affix| <= |text| ==>
              (Backwards(text)[..|affix|] == Backwards(affix) <==> text[|text| - |affix|..] == affix)
  {
    if |affix| <= |text| {
      var end := text[|text| - |affix|..];
      assert Backwards(end) == Backwards(text)[..|affix|];
      if Backwards(end) == Backwards(affix) {
        forall i | 0 <= i < |affix| ensures end[i] == affix[i] {
          assert Backwards(end)[|affix| - 1 - i] == Backwards(affix)[|affix| - 1 - i];
        }
      }
    }
  }

  // ---- The rules listed

  // The rules of the keys of these lengths, key by key.
  function NodesListed(keys: seq<Key>, rules: seq<nat>, letters: Key, lengths: seq<nat>): (r: seq<seq<nat>>)
    requires |keys| == |rules| && forall i :: 0 <= i < |lengths| ==> lengths[i] <= |letters|
    ensures |r| == |lengths| && forall i :: 0 <= i < |r| ==> r[i] == RulesFor(keys, rules, letters[..lengths[i]])
  {
    seq(|lengths|, i requires 0 <= i < |lengths| => RulesFor(keys, rules, letters[..lengths[i]]))
  }

  // The lengths of all the keys the letters begin with, longest first.
  function AllLengths(keys: seq<Key>, letters: Key): (r: seq<nat>)
    ensures forall i :: 0 <= i < |r| ==> r[i] <= |letters|
  {
    LengthsInside(keys, letters, |letters|);
    Ending(KeyLengths(keys, letters, |letters|), MAX_MATCHES) + if IsKey(keys, []) then [0] else []
  }

  // The rules of every key the letters begin with, longest key first.
  function Listed(keys: seq<Key>, rules: seq<nat>, letters: Key): seq<seq<nat>>
    requires |keys| == |rules|
  {
    NodesListed(keys, rules, letters, AllLengths(keys, letters))
  }

  lemma {:induction false} LengthsInside(keys: seq<Key>, letters: Key, n: nat)
    requires n <= |letters|
    ensures forall i :: 0 <= i < |KeyLengths(keys, letters, n)| ==> 0 < KeyLengths(keys, letters, n)[i] <= n
    ensures forall m: nat :: m in KeyLengths(keys, letters, n) <==> 0 < m <= n && IsKey(keys, letters[..m])
  {
    hide IsKey;
    if n > 0 { LengthsInside(keys, letters, n - 1); }
  }

  // Longest first, each length once.
  lemma {:induction false} LongestFirst(keys: seq<Key>, letters: Key, n: nat)
    requires n <= |letters|
    ensures forall i, j :: 0 <= i < j < |KeyLengths(keys, letters, n)| ==>
              KeyLengths(keys, letters, n)[i] > KeyLengths(keys, letters, n)[j]
  {
    hide IsKey;
    if n > 0 {
      LongestFirst(keys, letters, n - 1);
      LengthsInside(keys, letters, n - 1);
    }
  }

  lemma AllLongestFirst(keys: seq<Key>, letters: Key)
    ensures var lengths := AllLengths(keys, letters);
            && (forall i, j :: 0 <= i < j < |lengths| ==> lengths[i] > lengths[j])
            && (forall i :: 0 <= i < |lengths| ==> IsKey(keys, letters[..lengths[i]]))
  {
    LongestFirst(keys, letters, |letters|);
    LengthsInside(keys, letters, |letters|);
    hide KeyLengths, IsKey, Ending;
    var all := KeyLengths(keys, letters, |letters|);
    var kept := Ending(all, MAX_MATCHES);
    EndingKeeps(all, MAX_MATCHES);
    forall i | 0 <= i < |kept| ensures kept[i] > 0 && IsKey(keys, letters[..kept[i]]) { assert kept[i] in all; }
    assert letters[..0] == [];
  }

  lemma EndingKeeps(all: seq<nat>, limit: nat)
    ensures |Ending(all, limit)| <= |all|
    ensures forall i :: 0 <= i < |Ending(all, limit)| ==>
              Ending(all, limit)[i] == all[|all| - |Ending(all, limit)| + i]
  {
  }

  // A trie that holds these rules under these keys, in file order.
  ghost predicate Holds(trie: Trie, keys: seq<Key>, rules: seq<nat>) {
    exists b: Built :: Serves(b, trie) && b.keys == keys && RuleNumbers(b.pending) == rules
  }

  // What the search reads through the matches of one trie: the rules of each, and how many letters it read.
  method ListRules(trie: Trie, ghost keys: seq<Key>, ghost rules: seq<nat>, letters: Key)
    returns (nodes: seq<seq<nat>>, read: nat)
    requires Holds(trie, keys, rules) && |keys| == |rules|
    ensures nodes == Listed(keys, rules, letters) && read == Reads(keys, letters, 0, 0)
  {
    ghost var b: Built :| Serves(b, trie) && b.keys == keys && RuleNumbers(b.pending) == rules;
    hide *;
    var matches;
    matches, read := Walk(b, trie, letters);
    nodes := [];
    ListedStarts(keys, rules, letters);
    for i := 0 to |matches|
      invariant ListedSoFar(keys, rules, letters, nodes, i)
    {
      var m := matches[i];
      MatchRules(b, trie, letters, matches, i);
      ListedOn(keys, rules, letters, matches, nodes, i);
      nodes := nodes + [trie.nodeRules[trie.rules[m.node].begin..trie.rules[m.node].end]];
    }
    ListedIs(keys, rules, letters, nodes);
  }

  // The rules of the first n keys.
  ghost predicate ListedSoFar(keys: seq<Key>, rules: seq<nat>, letters: Key, nodes: seq<seq<nat>>, n: nat)
    requires |keys| == |rules|
  {
    var all := Listed(keys, rules, letters);
    n <= |all| && nodes == all[..n]
  }

  lemma ListedStarts(keys: seq<Key>, rules: seq<nat>, letters: Key)
    requires |keys| == |rules|
    ensures ListedSoFar(keys, rules, letters, [], 0)
  {
  }

  lemma {:induction false} ListedOn(keys: seq<Key>, rules: seq<nat>, letters: Key, matches: seq<Match>,
                                    nodes: seq<seq<nat>>, n: nat)
    requires |keys| == |rules| && ListedSoFar(keys, rules, letters, nodes, n)
    requires LengthsOf(matches) == AllLengths(keys, letters) && n < |matches|
    ensures matches[n].length <= |letters|
    ensures ListedSoFar(keys, rules, letters, nodes + [RulesFor(keys, rules, letters[..matches[n].length])], n + 1)
  {
    hide AllLengths, RulesFor;
    assert LengthsOf(matches)[n] == matches[n].length;
    var all := Listed(keys, rules, letters);
    assert all[..n + 1] == all[..n] + [all[n]];
  }

  lemma ListedIs(keys: seq<Key>, rules: seq<nat>, letters: Key, nodes: seq<seq<nat>>)
    requires |keys| == |rules| && ListedSoFar(keys, rules, letters, nodes, |AllLengths(keys, letters)|)
    ensures nodes == Listed(keys, rules, letters)
  {
    hide AllLengths, RulesFor;
  }

  // A rule of the key.
  predicate HasRule(keys: seq<Key>, rules: seq<nat>, key: Key, rule: nat)
    requires |keys| == |rules|
  {
    exists k :: 0 <= k < |keys| && keys[k] == key && rules[k] == rule
  }

  predicate Rising(rules: seq<nat>) {
    forall i, j :: 0 <= i < j < |rules| ==> rules[i] < rules[j]
  }

  lemma HasRuleStep(keys: seq<Key>, rules: seq<nat>, key: Key, rule: nat, n: nat)
    requires n < |keys| == |rules|
    ensures HasRule(keys[..n + 1], rules[..n + 1], key, rule) <==>
            HasRule(keys[..n], rules[..n], key, rule) || (keys[n] == key && rules[n] == rule)
  {
    if k :| 0 <= k < n && keys[..n][k] == key && rules[..n][k] == rule {
      assert keys[..n + 1][k] == key && rules[..n + 1][k] == rule;
    }
    if HasRule(keys[..n + 1], rules[..n + 1], key, rule) {
      var k :| 0 <= k <= n && keys[..n + 1][k] == key && rules[..n + 1][k] == rule;
      if k < n { assert keys[..n][k] == key && rules[..n][k] == rule; }
    }
    assert keys[..n + 1][n] == keys[n] && rules[..n + 1][n] == rules[n];
  }

  // A key's rules, in file order.
  lemma {:induction false} RulesForHas(keys: seq<Key>, rules: seq<nat>, key: Key, n: nat)
    requires n <= |keys| == |rules|
    ensures forall rule :: rule in RulesFor(keys[..n], rules[..n], key) <==> HasRule(keys[..n], rules[..n], key, rule)
    ensures Rising(rules) ==> Rising(RulesFor(keys[..n], rules[..n], key))
  {
    if n > 0 {
      RulesForHas(keys, rules, key, n - 1);
      RulesForStep(keys, rules, key, n - 1);
      var before, after := RulesFor(keys[..n - 1], rules[..n - 1], key), RulesFor(keys[..n], rules[..n], key);
      hide RulesFor, HasRule;
      forall rule ensures rule in after <==> HasRule(keys[..n], rules[..n], key, rule) {
        HasRuleStep(keys, rules, key, rule, n - 1);
      }
      if Rising(rules) {
        forall i | 0 <= i < |before| ensures before[i] < rules[n - 1] {
          HasEarlier(keys, rules, key, before[i], n - 1);
        }
      }
    }
  }

  lemma HasEarlier(keys: seq<Key>, rules: seq<nat>, key: Key, rule: nat, n: nat)
    requires n < |keys| == |rules| && Rising(rules) && HasRule(keys[..n], rules[..n], key, rule)
    ensures rule < rules[n]
  {
    var k :| 0 <= k < n && keys[..n][k] == key && rules[..n][k] == rule;
    assert rules[k] == rule;
  }

  // The keys the letters begin with are no more than the limit.
  predicate WithinReach(keys: seq<Key>, letters: Key) {
    |KeyLengths(keys, letters, |letters|)| <= MAX_MATCHES
  }

  lemma LengthsAreKeys(keys: seq<Key>, letters: Key, n: nat)
    requires n <= |letters| && WithinReach(keys, letters)
    ensures n in AllLengths(keys, letters) <==> IsKey(keys, letters[..n])
  {
    WithinLimit(KeyLengths(keys, letters, |letters|));
    LengthsInside(keys, letters, |letters|);
    hide KeyLengths, Ending, IsKey;
    assert letters[..0] == [];
  }

  // The longest key is dropped when there are more.
  lemma {:induction false} LongestDropped(keys: seq<Key>, letters: Key) returns (n: nat)
    requires !WithinReach(keys, letters)
    ensures n <= |letters| && IsKey(keys, letters[..n]) && n !in AllLengths(keys, letters)
  {
    LengthsInside(keys, letters, |letters|);
    LongestFirst(keys, letters, |letters|);
    var all := KeyLengths(keys, letters, |letters|);
    n := all[0];
    assert n in all;
    hide KeyLengths, IsKey;
    var kept := Ending(all, MAX_MATCHES);
    assert forall i :: 0 <= i < |kept| ==> kept[i] == all[|all| - MAX_MATCHES + i];
  }

  // The rule of a key the letters begin with.
  predicate Applies(keys: seq<Key>, rules: seq<nat>, letters: Key, rule: nat)
    requires |keys| == |rules|
  {
    exists k :: 0 <= k < |keys| && rules[k] == rule && keys[k] <= letters
  }

  predicate InNodes(nodes: seq<seq<nat>>, rule: nat) {
    exists i :: 0 <= i < |nodes| && rule in nodes[i]
  }

  // Every rule listed is one of a key the letters begin with.
  lemma ListedFit(keys: seq<Key>, rules: seq<nat>, letters: Key, rule: nat)
    requires |keys| == |rules| && InNodes(Listed(keys, rules, letters), rule)
    ensures Applies(keys, rules, letters, rule)
  {
    hide AllLengths, RulesFor;
    var lengths, nodes := AllLengths(keys, letters), Listed(keys, rules, letters);
    var i :| 0 <= i < |nodes| && rule in nodes[i];
    RulesForHas(keys, rules, letters[..lengths[i]], |keys|);
    assert keys[..|keys|] == keys && rules[..|keys|] == rules;
    var k :| 0 <= k < |keys| && keys[k] == letters[..lengths[i]] && rules[k] == rule;
  }

  lemma FitListed(keys: seq<Key>, rules: seq<nat>, letters: Key, rule: nat)
    requires |keys| == |rules| && WithinReach(keys, letters) && Applies(keys, rules, letters, rule)
    ensures InNodes(Listed(keys, rules, letters), rule)
  {
    hide AllLengths, RulesFor, WithinReach;
    var lengths, nodes := AllLengths(keys, letters), Listed(keys, rules, letters);
    var k :| 0 <= k < |keys| && rules[k] == rule && keys[k] <= letters;
    LengthsAreKeys(keys, letters, |keys[k]|);
    assert letters[..|keys[k]|] == keys[k];
    var i :| 0 <= i < |lengths| && lengths[i] == |keys[k]|;
    RulesForHas(keys, rules, keys[k], |keys|);
    assert keys[..|keys|] == keys && rules[..|keys|] == rules;
    assert HasRule(keys, rules, keys[k], rule);
    assert rule in nodes[i];
  }

  lemma {:induction false} DroppedIsUnlisted(keys: seq<Key>, rules: seq<nat>, letters: Key) returns (rule: nat)
    requires |keys| == |rules| && Rising(rules) && !WithinReach(keys, letters)
    ensures Applies(keys, rules, letters, rule) && !InNodes(Listed(keys, rules, letters), rule)
  {
    var n := LongestDropped(keys, letters);
    hide AllLengths, RulesFor, WithinReach;
    var k :| 0 <= k < |keys| && keys[k] == letters[..n];
    rule := rules[k];
    var lengths, nodes := AllLengths(keys, letters), Listed(keys, rules, letters);
    forall i | 0 <= i < |nodes| ensures rule !in nodes[i] {
      assert lengths[i] != n;
      RulesForHas(keys, rules, letters[..lengths[i]], |keys|);
      assert keys[..|keys|] == keys && rules[..|keys|] == rules;
    }
  }

  // The rules listed are exactly those whose key the letters begin with (for suffixes, those whose affix
  // ends the text) if and only if these keys are no more than the limit.
  lemma ListedExactly(keys: seq<Key>, rules: seq<nat>, letters: Key)
    requires |keys| == |rules| && Rising(rules)
    ensures (forall rule :: InNodes(Listed(keys, rules, letters), rule) <==> Applies(keys, rules, letters, rule))
            <==> WithinReach(keys, letters)
  {
    hide Listed, WithinReach, Applies, InNodes;
    if WithinReach(keys, letters) {
      forall rule: nat
        ensures InNodes(Listed(keys, rules, letters), rule) <==> Applies(keys, rules, letters, rule)
      {
        if InNodes(Listed(keys, rules, letters), rule) { ListedFit(keys, rules, letters, rule); }
        if Applies(keys, rules, letters, rule) { FitListed(keys, rules, letters, rule); }
      }
    } else {
      var rule := DroppedIsUnlisted(keys, rules, letters);
    }
  }

  // Keys of at most 64 code points are never more.
  lemma ShortKeysWithinReach(keys: seq<Key>, letters: Key)
    requires forall k :: 0 <= k < |keys| ==> |keys[k]| <= MAX_MATCHES
    ensures WithinReach(keys, letters)
  {
    LimitSuffices(keys, letters, |letters|);
  }
}
