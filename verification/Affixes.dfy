// Which rules a text is tried with (TransformSet::index and push_frame, src/languages/transforms.cpp): the
// rules are indexed by their affixes in three tries, and listed by walking these with the text.
module Affixes {
  import opened Options
  import opened TrieBuilding
  import opened Trie
  import opened TrieWalk

  // ---- The rules' affixes

  datatype RuleType = Suffix | Prefix | WholeWord | Circumfix | Replace | Phrasal | InterposedObject | Pattern

  // What a rule is indexed by: the affix `a` (`c` the suffix of a circumfix, whose `a` is its prefix), a
  // pattern by its anchor.
  datatype Form = Form(kind: RuleType, a: Key, c: Key, anchorPrefix: bool)

  datatype Place = Suffixes | Prefixes | FirstWords | Unindexed

  function PlaceOf(f: Form): Place {
    match f.kind
    case Suffix => Suffixes
    case WholeWord => Suffixes
    case Circumfix => Suffixes
    case Pattern => if f.anchorPrefix then Prefixes else Suffixes
    case Prefix => Prefixes
    case Phrasal => FirstWords
    case Replace => Unindexed
    case InterposedObject => Unindexed
  }

  function AffixOf(f: Form): Key { if f.kind == Circumfix then f.c else f.a }

  // A trie of suffixes spells them backwards.
  function KeyOf(f: Form): Key {
    if PlaceOf(f) == Prefixes then AffixOf(f) else Backwards(AffixOf(f))
  }

  // The keys at a place, and the rules they belong to, in file order.
  function KeysAt(forms: seq<Form>, place: Place): seq<Key> {
    if forms == [] then []
    else
      var n := |forms| - 1;
      KeysAt(forms[..n], place) + if PlaceOf(forms[n]) == place then [KeyOf(forms[n])] else []
  }

  function RulesAt(forms: seq<Form>, place: Place): (r: seq<nat>)
    ensures |r| == |KeysAt(forms, place)|
  {
    if forms == [] then []
    else
      var n := |forms| - 1;
      RulesAt(forms[..n], place) + if PlaceOf(forms[n]) == place then [n] else []
  }

  lemma {:induction false} AtStep(forms: seq<Form>, place: Place, n: nat)
    requires n < |forms|
    ensures KeysAt(forms[..n + 1], place) ==
            KeysAt(forms[..n], place) + if PlaceOf(forms[n]) == place then [KeyOf(forms[n])] else []
    ensures RulesAt(forms[..n + 1], place) ==
            RulesAt(forms[..n], place) + if PlaceOf(forms[n]) == place then [n] else []
  {
    assert forms[..n + 1][..n] == forms[..n];
  }

  lemma {:induction false} NoneAt(place: Place)
    ensures KeysAt([], place) == [] && RulesAt([], place) == []
  {
  }

  // ---- What each trie is walked with

  const SPACE := 0x20

  // The first space at or behind n.
  function SpaceFrom(text: Key, n: nat): (at: nat)
    requires n <= |text|
    ensures n <= at <= |text| && (at < |text| ==> text[at] == SPACE)
    ensures forall i :: n <= i < at ==> text[i] != SPACE
    decreases |text| - n
  {
    if n == |text| || text[n] == SPACE then n else SpaceFrom(text, n + 1)
  }

  // all_words
  predicate AllWords(s: Key, word: nat -> bool) {
    s != [] && forall i :: 0 <= i < |s| ==> word(s[i])
  }

  // The first word of a text whose first two words are words of the language.
  function FirstWord(text: Key, word: nat -> bool): Option<Key> {
    var space := SpaceFrom(text, 0);
    if space == |text| then None
    else
      var next := SpaceFrom(text, space + 1);
      if AllWords(text[..space], word) && AllWords(text[space + 1..next], word) then Some(text[..space]) else None
  }

  // The letters a trie is walked with, if it is walked.
  function LettersAt(forms: seq<Form>, place: Place, text: Key, word: nat -> bool): Option<Key> {
    match place
    case Suffixes => Some(Backwards(text))
    case Prefixes => if KeysAt(forms, Prefixes) == [] then None else Some(text)
    case FirstWords =>
      if KeysAt(forms, FirstWords) == [] then None
      else
        (match FirstWord(text, word)
         case None => None
         case Some(first) => Some(Backwards(first)))
    case Unindexed => None
  }

  // The rules of the matches of one trie, per match.
  function NodesAt(forms: seq<Form>, place: Place, text: Key, word: nat -> bool): seq<seq<nat>> {
    match LettersAt(forms, place, text, word)
    case None => []
    case Some(letters) => Listed(KeysAt(forms, place), RulesAt(forms, place), letters)
  }

  function ReadAt(forms: seq<Form>, place: Place, text: Key, word: nat -> bool): nat {
    match LettersAt(forms, place, text, word)
    case None => 0
    case Some(letters) => Reads(KeysAt(forms, place), letters, 0, 0)
  }

  // The matches of a text: those of suffixes, then of prefixes, then of the first word's endings.
  function MatchesOf(forms: seq<Form>, text: Key, word: nat -> bool): seq<seq<nat>> {
    NodesAt(forms, Suffixes, text, word) + NodesAt(forms, Prefixes, text, word) + NodesAt(forms, FirstWords, text, word)
  }

  // The code points the walks read.
  function ReadOf(forms: seq<Form>, text: Key, word: nat -> bool): nat {
    ReadAt(forms, Suffixes, text, word) + ReadAt(forms, Prefixes, text, word) + ReadAt(forms, FirstWords, text, word)
  }

  function Flatten(nodes: seq<seq<nat>>): seq<nat> {
    if nodes == [] then [] else nodes[0] + Flatten(nodes[1..])
  }

  // The rules a text is tried with, in order.
  function RulesTried(forms: seq<Form>, text: Key, word: nat -> bool): seq<nat> {
    Flatten(MatchesOf(forms, text, word)) + RulesAt(forms, Unindexed)
  }

  // ---- The tries

  datatype Tries = Tries(suffixes: Trie, prefixes: Trie, firstWords: Trie, unindexed: seq<nat>)

  ghost predicate Indexes(t: Tries, forms: seq<Form>) {
    && Holds(t.suffixes, KeysAt(forms, Suffixes), RulesAt(forms, Suffixes))
    && Holds(t.prefixes, KeysAt(forms, Prefixes), RulesAt(forms, Prefixes))
    && Holds(t.firstWords, KeysAt(forms, FirstWords), RulesAt(forms, FirstWords))
    && t.unindexed == RulesAt(forms, Unindexed)
  }

  // A builder that holds the rules of a place.
  ghost predicate Building(builder: TrieBuilder, forms: seq<Form>, place: Place)
    reads builder
  {
    && builder.Valid() && Reached(builder.labels, builder.keys)
    && builder.keys == KeysAt(forms, place) && RuleNumbers(builder.pending) == RulesAt(forms, place)
  }

  lemma NothingBuilt(builder: TrieBuilder, place: Place)
    requires builder.Valid() && Reached(builder.labels, builder.keys) && builder.pending == [] && builder.keys == []
    ensures Building(builder, [], place)
  {
    NoneAt(place);
  }

  lemma OthersBuilt(builder: TrieBuilder, forms: seq<Form>, n: nat, place: Place)
    requires n < |forms| && Building(builder, forms[..n], place) && PlaceOf(forms[n]) != place
    ensures Building(builder, forms[..n + 1], place)
  {
    AtStep(forms, place, n);
    hide KeysAt, RulesAt;
    assert KeysAt(forms[..n], place) + [] == KeysAt(forms[..n], place);
    assert RulesAt(forms[..n], place) + [] == RulesAt(forms[..n], place);
  }

  // The rule is inserted under its key.
  method InsertRule(builder: TrieBuilder, forms: seq<Form>, n: nat, ghost place: Place)
    requires n < |forms| && PlaceOf(forms[n]) == place && Building(builder, forms[..n], place)
    modifies builder
    ensures Building(builder, forms[..n + 1], place)
  {
    ghost var was := builder.pending;
    AtStep(forms, place, n);
    builder.Insert(KeyOf(forms[n]), n);
    builder.Parts();
    hide *;
    MoreNumbers(was, builder.pending, n);
    BuiltMore(builder, forms, n, place);
  }

  lemma MoreNumbers(was: seq<Pending>, now: seq<Pending>, n: nat)
    requires |now| > 0 && now[..|now| - 1] == was && now[|now| - 1].rule == n
    ensures RuleNumbers(now) == RuleNumbers(was) + [n]
  {
    forall k | 0 <= k < |was| ensures RuleNumbers(now)[k] == RuleNumbers(was)[k] {
      assert now[..|now| - 1][k] == was[k];
    }
  }

  lemma BuiltMore(builder: TrieBuilder, forms: seq<Form>, n: nat, place: Place)
    requires builder.Valid() && Reached(builder.labels, builder.keys) && n < |forms|
    requires builder.keys == KeysAt(forms[..n + 1], place)
    requires RuleNumbers(builder.pending) == RulesAt(forms[..n + 1], place)
    ensures Building(builder, forms[..n + 1], place)
  {
  }

  method FinishPlace(builder: TrieBuilder, forms: seq<Form>, ghost place: Place) returns (trie: Trie)
    requires Building(builder, forms, place)
    ensures Holds(trie, KeysAt(forms, place), RulesAt(forms, place))
  {
    hide Tree, Linked, Spelled, Reached, Finished;
    trie := Finish(builder);
    assert Serves(builder.Made(), trie);
  }

  // index
  method IndexRules(forms: seq<Form>) returns (t: Tries)
    ensures Indexes(t, forms)
  {
    hide Building;
    var suffixes := new TrieBuilder();
    var prefixes := new TrieBuilder();
    var firstWords := new TrieBuilder();
    NothingBuilt(suffixes, Suffixes);
    NothingBuilt(prefixes, Prefixes);
    NothingBuilt(firstWords, FirstWords);
    var unindexed := [];
    NoneAt(Unindexed);
    hide KeysAt, RulesAt;
    assert forms[..0] == [] && forms[..|forms|] == forms;
    for n := 0 to |forms|
      invariant fresh(suffixes) && fresh(prefixes) && fresh(firstWords)
      invariant suffixes != prefixes && suffixes != firstWords && prefixes != firstWords
      invariant Building(suffixes, forms[..n], Suffixes) && Building(prefixes, forms[..n], Prefixes)
      invariant Building(firstWords, forms[..n], FirstWords) && unindexed == RulesAt(forms[..n], Unindexed)
    {
      var place := PlaceOf(forms[n]);
      AtStep(forms, Unindexed, n);
      if place == Suffixes {
        InsertRule(suffixes, forms, n, place);
      } else {
        OthersBuilt(suffixes, forms, n, Suffixes);
      }
      if place == Prefixes {
        InsertRule(prefixes, forms, n, place);
      } else {
        OthersBuilt(prefixes, forms, n, Prefixes);
      }
      if place == FirstWords {
        InsertRule(firstWords, forms, n, place);
      } else {
        OthersBuilt(firstWords, forms, n, FirstWords);
      }
      if place == Unindexed { unindexed := unindexed + [n]; }
    }
    var s := FinishPlace(suffixes, forms, Suffixes);
    var p := FinishPlace(prefixes, forms, Prefixes);
    var w := FinishPlace(firstWords, forms, FirstWords);
    t := Tries(s, p, w, unindexed);
  }

  lemma EmptyTrie(trie: Trie, keys: seq<Key>, rules: seq<nat>)
    requires Holds(trie, keys, rules)
    ensures trie.nodeRules == [] <==> keys == []
  {
    var b: Built :| Serves(b, trie) && b.keys == keys && RuleNumbers(b.pending) == rules;
    ServesParts(b, trie);
    hide *;
  }

  // The walks of push_frame: the rules of the text's matches, and the code points they read.
  method ListMatches(t: Tries, ghost forms: seq<Form>, text: Key, word: nat -> bool)
    returns (matches: seq<seq<nat>>, walked: nat)
    requires Indexes(t, forms)
    ensures matches == MatchesOf(forms, text, word) && walked == ReadOf(forms, text, word)
  {
    hide Holds, KeysAt, RulesAt, FirstWord, Listed, Reads;
    var nodes, read := ListRules(t.suffixes, KeysAt(forms, Suffixes), RulesAt(forms, Suffixes), Backwards(text));
    matches, walked := nodes, read;
    EmptyTrie(t.prefixes, KeysAt(forms, Prefixes), RulesAt(forms, Prefixes));
    if t.prefixes.nodeRules != [] {
      nodes, read := ListRules(t.prefixes, KeysAt(forms, Prefixes), RulesAt(forms, Prefixes), text);
      matches, walked := matches + nodes, walked + read;
    }
    EmptyTrie(t.firstWords, KeysAt(forms, FirstWords), RulesAt(forms, FirstWords));
    if t.firstWords.nodeRules != [] {
      var first := FirstWord(text, word);
      if first.Some? {
        nodes, read := ListRules(t.firstWords, KeysAt(forms, FirstWords), RulesAt(forms, FirstWords),
                                 Backwards(first.value));
        matches, walked := matches + nodes, walked + read;
      }
    }
  }

  // ---- Exactly the rules whose affix the text has

  predicate EndsWith(text: Key, affix: Key) {
    |affix| <= |text| && text[|text| - |affix|..] == affix
  }

  // The text has the rule's affix; unindexed rules are tried on every text.
  predicate Fits(f: Form, text: Key, word: nat -> bool) {
    match PlaceOf(f)
    case Suffixes => EndsWith(text, AffixOf(f))
    case Prefixes => AffixOf(f) <= text
    case FirstWords => FirstWord(text, word).Some? && EndsWith(FirstWord(text, word).value, AffixOf(f))
    case Unindexed => true
  }

  // No walk comes to more keys than its limit.
  predicate InReachAt(forms: seq<Form>, place: Place, text: Key, word: nat -> bool) {
    match LettersAt(forms, place, text, word)
    case None => true
    case Some(letters) => WithinReach(KeysAt(forms, place), letters)
  }

  predicate InReach(forms: seq<Form>, text: Key, word: nat -> bool) {
    InReachAt(forms, Suffixes, text, word) && InReachAt(forms, Prefixes, text, word)
    && InReachAt(forms, FirstWords, text, word)
  }

  predicate IsAt(forms: seq<Form>, place: Place, rule: nat) {
    rule < |forms| && PlaceOf(forms[rule]) == place
  }

  // Entry k of a place is a rule there, with its key.
  lemma {:induction false} EntriesAt(forms: seq<Form>, place: Place, n: nat)
    requires n <= |forms|
    ensures var keys, rules := KeysAt(forms[..n], place), RulesAt(forms[..n], place);
            && (forall k :: 0 <= k < |rules| ==>
                  rules[k] < n && IsAt(forms, place, rules[k]) && keys[k] == KeyOf(forms[rules[k]]))
            && Rising(rules)
  {
    if n > 0 {
      EntriesAt(forms, place, n - 1);
      AtStep(forms, place, n - 1);
      hide KeysAt, RulesAt, KeyOf, PlaceOf;
    }
  }

  lemma {:induction false} IsEntry(forms: seq<Form>, place: Place, rule: nat, n: nat)
    requires n <= |forms| && rule < n && IsAt(forms, place, rule)
    ensures rule in RulesAt(forms[..n], place)
  {
    AtStep(forms, place, n - 1);
    if rule < n - 1 { IsEntry(forms, place, rule, n - 1); }
    hide KeysAt, RulesAt;
  }

  lemma {:induction false} AppliesAt(forms: seq<Form>, place: Place, letters: Key, rule: nat)
    ensures Applies(KeysAt(forms, place), RulesAt(forms, place), letters, rule) <==>
            IsAt(forms, place, rule) && KeyOf(forms[rule]) <= letters
  {
    EntriesAt(forms, place, |forms|);
    assert forms[..|forms|] == forms;
    if IsAt(forms, place, rule) { IsEntry(forms, place, rule, |forms|); }
    hide KeysAt, RulesAt, KeyOf, PlaceOf;
    var keys, rules := KeysAt(forms, place), RulesAt(forms, place);
    if IsAt(forms, place, rule) && KeyOf(forms[rule]) <= letters {
      var k :| 0 <= k < |rules| && rules[k] == rule;
      assert keys[k] <= letters;
    }
  }

  // A rule at this place whose affix the text has.
  predicate FitsAt(forms: seq<Form>, place: Place, text: Key, word: nat -> bool, rule: nat) {
    IsAt(forms, place, rule) && Fits(forms[rule], text, word)
  }

  // A rule's key begins the letters exactly when the text has its affix.
  lemma {:induction false} KeyFits(forms: seq<Form>, place: Place, text: Key, word: nat -> bool, rule: nat)
    requires place != Unindexed
    ensures var letters := LettersAt(forms, place, text, word);
            FitsAt(forms, place, text, word, rule) <==>
            letters.Some? && Applies(KeysAt(forms, place), RulesAt(forms, place), letters.value, rule)
  {
    var letters := LettersAt(forms, place, text, word);
    hide KeysAt, RulesAt, FirstWord, Applies, AffixOf;
    if letters.Some? { AppliesAt(forms, place, letters.value, rule); }
    if IsAt(forms, place, rule) {
      var f := forms[rule];
      HasKeys(forms, place, rule);
      if place == Suffixes {
        KeyEnds(f, text);
      } else if place == FirstWords && FirstWord(text, word).Some? {
        KeyEnds(f, FirstWord(text, word).value);
      }
    }
  }

  lemma {:induction false} HasKeys(forms: seq<Form>, place: Place, rule: nat)
    requires IsAt(forms, place, rule)
    ensures KeysAt(forms, place) != []
  {
    IsEntry(forms, place, rule, |forms|);
    assert forms[..|forms|] == forms;
    hide KeysAt, RulesAt;
  }

  lemma KeyEnds(f: Form, text: Key)
    requires PlaceOf(f) != Prefixes
    ensures EndsWith(text, AffixOf(f)) <==> KeyOf(f) <= Backwards(text)
  {
    hide AffixOf, PlaceOf;
    var affix := AffixOf(f);
    SuffixBackwards(text, affix);
    assert KeyOf(f) == Backwards(affix) && |KeyOf(f)| == |affix| && |Backwards(text)| == |text|;
    hide *;
    if |affix| <= |text| {
      PrefixMeans(Backwards(affix), Backwards(text));
    }
  }

  lemma PrefixMeans(a: Key, b: Key)
    requires |a| <= |b|
    ensures a <= b <==> b[..|a|] == a
  {
  }

  // The rules listed at a place are those there whose affix the text has, unless there are too many keys.
  lemma NodesAtExactly(forms: seq<Form>, place: Place, text: Key, word: nat -> bool)
    requires place != Unindexed
    ensures forall rule: nat :: InNodes(NodesAt(forms, place, text, word), rule) ==>
                                  FitsAt(forms, place, text, word, rule)
    ensures (forall rule: nat :: FitsAt(forms, place, text, word, rule) ==>
                                   InNodes(NodesAt(forms, place, text, word), rule))
            <==> InReachAt(forms, place, text, word)
  {
    EntriesAt(forms, place, |forms|);
    assert forms[..|forms|] == forms;
    hide LettersAt, FitsAt, KeysAt, RulesAt, Listed, WithinReach, Applies, IsAt, InNodes;
    var keys, rules, letters := KeysAt(forms, place), RulesAt(forms, place), LettersAt(forms, place, text, word);
    var nodes := NodesAt(forms, place, text, word);
    forall rule: nat | InNodes(nodes, rule) ensures FitsAt(forms, place, text, word, rule) {
      KeyFits(forms, place, text, word, rule);
      if letters.Some? { ListedFit(keys, rules, letters.value, rule); } else { NoNodes(rule); }
    }
    if InReachAt(forms, place, text, word) {
      forall rule: nat | FitsAt(forms, place, text, word, rule) ensures InNodes(nodes, rule) {
        KeyFits(forms, place, text, word, rule);
        FitListed(keys, rules, letters.value, rule);
      }
    } else {
      var rule := DroppedIsUnlisted(keys, rules, letters.value);
      KeyFits(forms, place, text, word, rule);
    }
  }

  lemma NoNodes(rule: nat)
    ensures !InNodes([], rule)
  {
  }

  lemma {:induction false} FlattenHas(nodes: seq<seq<nat>>, rule: nat)
    ensures rule in Flatten(nodes) <==> InNodes(nodes, rule)
  {
    if nodes != [] {
      FlattenHas(nodes[1..], rule);
      hide Flatten;
      if InNodes(nodes, rule) {
        var i :| 0 <= i < |nodes| && rule in nodes[i];
        if i > 0 { assert rule in nodes[1..][i - 1]; }
      }
      if InNodes(nodes[1..], rule) {
        var i :| 0 <= i < |nodes[1..]| && rule in nodes[1..][i];
        assert rule in nodes[i + 1];
      }
    }
  }

  lemma InNodesConcat(a: seq<seq<nat>>, b: seq<seq<nat>>, rule: nat)
    ensures InNodes(a + b, rule) <==> InNodes(a, rule) || InNodes(b, rule)
  {
    if InNodes(a, rule) {
      var i :| 0 <= i < |a| && rule in a[i];
      assert rule in (a + b)[i];
    }
    if InNodes(b, rule) {
      var i :| 0 <= i < |b| && rule in b[i];
      assert rule in (a + b)[|a| + i];
    }
  }

  lemma TriedHas(forms: seq<Form>, text: Key, word: nat -> bool, rule: nat)
    ensures rule in RulesTried(forms, text, word) <==>
            || InNodes(NodesAt(forms, Suffixes, text, word), rule)
            || InNodes(NodesAt(forms, Prefixes, text, word), rule)
            || InNodes(NodesAt(forms, FirstWords, text, word), rule)
            || IsAt(forms, Unindexed, rule)
  {
    FlattenHas(MatchesOf(forms, text, word), rule);
    var s, p := NodesAt(forms, Suffixes, text, word), NodesAt(forms, Prefixes, text, word);
    InNodesConcat(s, p, rule);
    InNodesConcat(s + p, NodesAt(forms, FirstWords, text, word), rule);
    EntriesAt(forms, Unindexed, |forms|);
    assert forms[..|forms|] == forms;
    if IsAt(forms, Unindexed, rule) { IsEntry(forms, Unindexed, rule, |forms|); }
    hide NodesAt, Flatten, InNodes, RulesAt, IsAt;
  }

  // Every rule tried has its affix in the text; and every rule that has it is tried if and only if no walk
  // comes to more keys than its limit.
  lemma TriedExactly(forms: seq<Form>, text: Key, word: nat -> bool)
    ensures forall rule: nat | rule in RulesTried(forms, text, word) ::
              rule < |forms| && Fits(forms[rule], text, word)
    ensures (forall rule: nat | rule < |forms| && Fits(forms[rule], text, word) ::
               rule in RulesTried(forms, text, word))
            <==> InReach(forms, text, word)
  {
    NodesAtExactly(forms, Suffixes, text, word);
    NodesAtExactly(forms, Prefixes, text, word);
    NodesAtExactly(forms, FirstWords, text, word);
    hide RulesTried, NodesAt, InReachAt, InNodes;
    forall rule: nat | rule in RulesTried(forms, text, word) ensures rule < |forms| && Fits(forms[rule], text, word) {
      TriedHas(forms, text, word, rule);
      hide Fits;
    }
    if InReach(forms, text, word) {
      forall rule: nat | rule < |forms| && Fits(forms[rule], text, word) ensures rule in RulesTried(forms, text, word) {
        TriedHas(forms, text, word, rule);
        assert FitsAt(forms, PlaceOf(forms[rule]), text, word, rule);
      }
    } else {
      var rule := NotTried(forms, text, word);
    }
  }

  lemma NotTried(forms: seq<Form>, text: Key, word: nat -> bool) returns (rule: nat)
    requires !InReach(forms, text, word)
    ensures rule < |forms| && Fits(forms[rule], text, word) && rule !in RulesTried(forms, text, word)
  {
    NodesAtExactly(forms, Suffixes, text, word);
    NodesAtExactly(forms, Prefixes, text, word);
    NodesAtExactly(forms, FirstWords, text, word);
    hide RulesTried, NodesAt, InReachAt, InNodes, Fits;
    var place := if !InReachAt(forms, Suffixes, text, word) then Suffixes
                 else if !InReachAt(forms, Prefixes, text, word) then Prefixes else FirstWords;
    rule :| FitsAt(forms, place, text, word, rule) && !InNodes(NodesAt(forms, place, text, word), rule);
    TriedHas(forms, text, word, rule);
  }

  // Affixes of at most 64 code points are always in reach.
  lemma ShortAffixesInReach(forms: seq<Form>, text: Key, word: nat -> bool)
    requires forall rule :: 0 <= rule < |forms| ==> |AffixOf(forms[rule])| <= MAX_MATCHES
    ensures InReach(forms, text, word)
  {
    forall place, letters ensures WithinReach(KeysAt(forms, place), letters) {
      EntriesAt(forms, place, |forms|);
      assert forms[..|forms|] == forms;
      hide KeysAt, RulesAt;
      var keys, rules := KeysAt(forms, place), RulesAt(forms, place);
      forall k | 0 <= k < |keys| ensures |keys[k]| <= MAX_MATCHES {
        assert keys[k] == KeyOf(forms[rules[k]]) && |KeyOf(forms[rules[k]])| == |AffixOf(forms[rules[k]])|;
      }
      ShortKeysWithinReach(keys, letters);
    }
  }

  // ---- The order of section 7.4 of docs/languages.md

  function Rank(place: Place): nat {
    match place
    case Suffixes => 0
    case Prefixes => 1
    case FirstWords => 2
    case Unindexed => 3
  }

  // Suffixes, prefixes, first words, then the unindexed; the longer affix first; then file order.
  predicate Precedes(forms: seq<Form>, a: nat, b: nat)
    requires a < |forms| && b < |forms|
  {
    var p, q := PlaceOf(forms[a]), PlaceOf(forms[b]);
    if p != q then Rank(p) < Rank(q)
    else if p != Unindexed && |AffixOf(forms[a])| != |AffixOf(forms[b])| then
      |AffixOf(forms[a])| > |AffixOf(forms[b])|
    else a < b
  }

  predicate Known(forms: seq<Form>, rules: seq<nat>) {
    forall i :: 0 <= i < |rules| ==> rules[i] < |forms|
  }

  predicate InOrder(forms: seq<Form>, rules: seq<nat>)
    requires Known(forms, rules)
  {
    forall i, j :: 0 <= i < j < |rules| ==> Precedes(forms, rules[i], rules[j])
  }

  predicate AllPrecede(forms: seq<Form>, a: seq<nat>, b: seq<nat>)
    requires Known(forms, a) && Known(forms, b)
  {
    forall i, j :: 0 <= i < |a| && 0 <= j < |b| ==> Precedes(forms, a[i], b[j])
  }

  lemma InOrderConcat(forms: seq<Form>, a: seq<nat>, b: seq<nat>)
    requires Known(forms, a) && Known(forms, b) && InOrder(forms, a) && InOrder(forms, b) && AllPrecede(forms, a, b)
    ensures Known(forms, a + b) && InOrder(forms, a + b)
  {
    hide Precedes;
  }

  // All these rules are at the place, with an affix of at most n code points.
  predicate Below(forms: seq<Form>, place: Place, rules: seq<nat>, n: int) {
    forall i :: 0 <= i < |rules| ==> IsAt(forms, place, rules[i]) && |AffixOf(forms[rules[i]])| <= n
  }

  // The rules of a match: one place, one length, in file order.
  lemma {:induction false} NodeInOrder(forms: seq<Form>, place: Place, letters: Key, n: nat)
    requires place != Unindexed && n <= |letters|
    ensures var node := RulesFor(KeysAt(forms, place), RulesAt(forms, place), letters[..n]);
            && Below(forms, place, node, n) && Known(forms, node) && InOrder(forms, node)
            && forall i :: 0 <= i < |node| ==> |AffixOf(forms[node[i]])| == n
  {
    var keys, rules := KeysAt(forms, place), RulesAt(forms, place);
    EntriesAt(forms, place, |forms|);
    assert forms[..|forms|] == forms;
    RulesForHas(keys, rules, letters[..n], |keys|);
    assert keys[..|keys|] == keys && rules[..|keys|] == rules;
    var node := RulesFor(keys, rules, letters[..n]);
    hide *;
    forall i | 0 <= i < |node| ensures IsAt(forms, place, node[i]) && AffixLength(forms, node[i]) == n {
      assert node[i] in node;
      OfLength(forms, place, letters[..n], node[i]);
    }
    OneLengthInOrder(forms, place, node, n);
  }

  function AffixLength(forms: seq<Form>, rule: nat): nat {
    if rule < |forms| then |AffixOf(forms[rule])| else 0
  }

  lemma {:induction false} OfLength(forms: seq<Form>, place: Place, key: Key, rule: nat)
    requires HasRule(KeysAt(forms, place), RulesAt(forms, place), key, rule)
    ensures IsAt(forms, place, rule) && AffixLength(forms, rule) == |key|
  {
    EntriesAt(forms, place, |forms|);
    assert forms[..|forms|] == forms;
    hide KeysAt, RulesAt;
    assert |KeyOf(forms[rule])| == |AffixOf(forms[rule])|;
  }

  lemma OneLengthInOrder(forms: seq<Form>, place: Place, node: seq<nat>, n: nat)
    requires Rising(node)
    requires forall i :: 0 <= i < |node| ==> IsAt(forms, place, node[i]) && AffixLength(forms, node[i]) == n
    ensures Below(forms, place, node, n) && Known(forms, node) && InOrder(forms, node)
    ensures forall i :: 0 <= i < |node| ==> |AffixOf(forms[node[i]])| == n
  {
    hide PlaceOf, AffixOf;
  }

  lemma {:induction false} NodesInOrder(forms: seq<Form>, place: Place, letters: Key, lengths: seq<nat>, i: nat)
    requires place != Unindexed && i <= |lengths|
    requires forall k :: 0 <= k < |lengths| ==> lengths[k] <= |letters|
    requires forall j, k :: 0 <= j < k < |lengths| ==> lengths[j] > lengths[k]
    ensures var nodes := NodesListed(KeysAt(forms, place), RulesAt(forms, place), letters, lengths);
            && Below(forms, place, Flatten(nodes[i..]), if i < |lengths| then lengths[i] else -1)
            && Known(forms, Flatten(nodes[i..])) && InOrder(forms, Flatten(nodes[i..]))
    decreases |lengths| - i
  {
    var nodes := NodesListed(KeysAt(forms, place), RulesAt(forms, place), letters, lengths);
    if i < |lengths| {
      NodesInOrder(forms, place, letters, lengths, i + 1);
      NodeInOrder(forms, place, letters, lengths[i]);
      assert nodes[i..][1..] == nodes[i + 1..];
      hide KeysAt, RulesAt, RulesFor, AffixOf;
      var rest := Flatten(nodes[i + 1..]);
      assert Flatten(nodes[i..]) == nodes[i] + rest;
      hide *;
      LongerFirst(forms, place, nodes[i], rest, lengths[i], if i + 1 < |lengths| then lengths[i + 1] else -1);
    }
  }

  lemma LongerFirst(forms: seq<Form>, place: Place, a: seq<nat>, b: seq<nat>, n: nat, m: int)
    requires place != Unindexed && m < n
    requires Known(forms, a) && InOrder(forms, a) && Below(forms, place, a, n)
    requires forall i :: 0 <= i < |a| ==> |AffixOf(forms[a[i]])| == n
    requires Known(forms, b) && InOrder(forms, b) && Below(forms, place, b, m)
    ensures Known(forms, a + b) && InOrder(forms, a + b) && Below(forms, place, a + b, n)
  {
    hide InOrder, AffixOf, PlaceOf;
    assert AllPrecede(forms, a, b);
    InOrderConcat(forms, a, b);
  }

  lemma PlaceInOrder(forms: seq<Form>, place: Place, text: Key, word: nat -> bool)
    requires place != Unindexed
    ensures var rules := Flatten(NodesAt(forms, place, text, word));
            && Known(forms, rules) && InOrder(forms, rules)
            && forall i :: 0 <= i < |rules| ==> IsAt(forms, place, rules[i])
  {
    hide KeysAt, RulesAt, FirstWord, InOrder, AllLengths;
    var letters := LettersAt(forms, place, text, word);
    if letters.Some? {
      var lengths := AllLengths(KeysAt(forms, place), letters.value);
      AllLongestFirst(KeysAt(forms, place), letters.value);
      NodesInOrder(forms, place, letters.value, lengths, 0);
      var nodes := NodesListed(KeysAt(forms, place), RulesAt(forms, place), letters.value, lengths);
      assert nodes[0..] == nodes;
    } else {
      Nothing(forms);
    }
  }

  lemma Nothing(forms: seq<Form>)
    ensures Flatten([]) == [] && InOrder(forms, [])
  {
  }

  lemma {:induction false} FlattenConcat(a: seq<seq<nat>>, b: seq<seq<nat>>)
    ensures Flatten(a + b) == Flatten(a) + Flatten(b)
  {
    if a == [] {
      assert a + b == b;
    } else {
      FlattenConcat(a[1..], b);
      assert (a + b)[1..] == a[1..] + b && (a + b)[0] == a[0];
      var x, y := Flatten(a[1..]), Flatten(b);
      assert Flatten(a + b) == a[0] + (x + y) && Flatten(a) == a[0] + x;
      hide *;
      assert a[0] + (x + y) == a[0] + x + y;
    }
  }

  // In order, and of the places before this rank.
  predicate OrderedBelow(forms: seq<Form>, rules: seq<nat>, rank: nat) {
    && Known(forms, rules) && InOrder(forms, rules)
    && forall i :: 0 <= i < |rules| ==> Rank(PlaceOf(forms[rules[i]])) < rank
  }

  lemma OrderedConcat(forms: seq<Form>, a: seq<nat>, b: seq<nat>, place: Place)
    requires OrderedBelow(forms, a, Rank(place)) && Known(forms, b) && InOrder(forms, b)
    requires forall i :: 0 <= i < |b| ==> IsAt(forms, place, b[i])
    ensures OrderedBelow(forms, a + b, Rank(place) + 1)
  {
    hide InOrder, PlaceOf, AffixOf;
    assert AllPrecede(forms, a, b);
    InOrderConcat(forms, a, b);
  }

  lemma {:induction false} TriedInParts(forms: seq<Form>, text: Key, word: nat -> bool)
    ensures RulesTried(forms, text, word) ==
            Flatten(NodesAt(forms, Suffixes, text, word)) + Flatten(NodesAt(forms, Prefixes, text, word))
            + Flatten(NodesAt(forms, FirstWords, text, word)) + RulesAt(forms, Unindexed)
  {
    var s, p := NodesAt(forms, Suffixes, text, word), NodesAt(forms, Prefixes, text, word);
    hide NodesAt, Flatten, RulesAt;
    FlattenConcat(s, p);
    FlattenConcat(s + p, NodesAt(forms, FirstWords, text, word));
  }

  lemma {:induction false} RisingInOrder(forms: seq<Form>)
    ensures Known(forms, RulesAt(forms, Unindexed)) && InOrder(forms, RulesAt(forms, Unindexed))
    ensures forall i :: 0 <= i < |RulesAt(forms, Unindexed)| ==> IsAt(forms, Unindexed, RulesAt(forms, Unindexed)[i])
  {
    EntriesAt(forms, Unindexed, |forms|);
    assert forms[..|forms|] == forms;
    hide RulesAt, KeysAt;
  }

  // The rules are tried in the order the documentation gives, each once.
  lemma TriedInOrder(forms: seq<Form>, text: Key, word: nat -> bool)
    ensures Known(forms, RulesTried(forms, text, word)) && InOrder(forms, RulesTried(forms, text, word))
  {
    hide *;
    var s := Flatten(NodesAt(forms, Suffixes, text, word));
    var p := Flatten(NodesAt(forms, Prefixes, text, word));
    var w, u := Flatten(NodesAt(forms, FirstWords, text, word)), RulesAt(forms, Unindexed);
    PlaceInOrder(forms, Suffixes, text, word);
    PlaceInOrder(forms, Prefixes, text, word);
    PlaceInOrder(forms, FirstWords, text, word);
    RisingInOrder(forms);
    Ranks(forms);
    OrderedConcat(forms, [], s, Suffixes);
    assert [] + s == s;
    OrderedConcat(forms, s, p, Prefixes);
    OrderedConcat(forms, s + p, w, FirstWords);
    OrderedConcat(forms, s + p + w, u, Unindexed);
    TriedInParts(forms, text, word);
    OrderedIs(forms, s + p + w + u, 4);
  }

  lemma Ranks(forms: seq<Form>)
    ensures Rank(Suffixes) == 0 && Rank(Prefixes) == 1 && Rank(FirstWords) == 2 && Rank(Unindexed) == 3
    ensures OrderedBelow(forms, [], 0)
  {
  }

  lemma OrderedIs(forms: seq<Form>, rules: seq<nat>, rank: nat)
    requires OrderedBelow(forms, rules, rank)
    ensures Known(forms, rules) && InOrder(forms, rules)
  {
  }

  // An order and its members determine a list.
  lemma {:induction false} InOrderIsUnique(forms: seq<Form>, a: seq<nat>, b: seq<nat>)
    requires Known(forms, a) && Known(forms, b) && InOrder(forms, a) && InOrder(forms, b)
    requires forall rule :: rule in a <==> rule in b
    ensures a == b
  {
    assert b == [] || b[0] in b;
    if a != [] {
      assert a[0] in b && b[0] in a;
      assert a[0] == b[0];
      forall rule ensures rule in a[1..] <==> rule in b[1..] {
        Rest(forms, a, rule);
        Rest(forms, b, rule);
      }
      InOrderIsUnique(forms, a[1..], b[1..]);
      assert a == [a[0]] + a[1..] && b == [b[0]] + b[1..];
    }
  }

  lemma Rest(forms: seq<Form>, a: seq<nat>, rule: nat)
    requires a != [] && Known(forms, a) && InOrder(forms, a)
    ensures rule in a[1..] <==> rule in a && rule != a[0]
  {
    if rule in a[1..] {
      var i :| 0 <= i < |a[1..]| && a[1..][i] == rule;
      assert a[i + 1] == rule && Precedes(forms, a[0], a[i + 1]);
    }
    if rule in a && rule != a[0] {
      var i :| 0 <= i < |a| && a[i] == rule;
      assert a[1..][i - 1] == rule;
    }
  }

  // So they are the one list of the documentation: the rules whose affix the text has, in its order.
  lemma TriedAre(forms: seq<Form>, text: Key, word: nat -> bool, list: seq<nat>)
    requires InReach(forms, text, word) && Known(forms, list) && InOrder(forms, list)
    requires forall rule: nat :: rule in list <==> rule < |forms| && Fits(forms[rule], text, word)
    ensures RulesTried(forms, text, word) == list
  {
    TriedExactly(forms, text, word);
    TriedInOrder(forms, text, word);
    hide RulesTried, Fits, InOrder, InReach;
    InOrderIsUnique(forms, RulesTried(forms, text, word), list);
  }
}
