// What the deinflection search promises over whole runs: every result is sound and within the
// bounds, nothing admissible is missing, a larger budget only adds results, and chains are finite.
module DeinflectLaws {
  import opened Arithmetic
  import opened Options
  import opened Budget
  import opened Deinflect
  import Affixes

  // ---- A larger budget

  lemma {:induction false} NextOutputWithMore(g: Grammar, b: nat, b': nat, s: Search, index: nat, rules: seq<Rule>)
    requires b <= b' && index < |s.out|
    ensures var n, n' := NextOutput(g, b, s, index, rules), NextOutput(g, b', s, index, rules);
            n == n' || (n.Stopped? && n.after.status == OutOfWork)
    decreases |rules|
  {
    if rules != [] && s.status == Running {
      match Try(g, b, s, index, rules[0])
      case Passed(s1) => NextOutputWithMore(g, b, b', s1, index, rules[1..]);
      case OutOf(_) =>
      case Applied(_, _) =>
    }
  }

  lemma {:induction false} ExpandWithMore(g: Grammar, b: nat, b': nat, root: nat, s: Search, index: nat,
                                          rules: seq<Rule>, level: nat)
    requires b <= b'
    requires Wellformed(s.out) && index < |s.out| && root < |s.out| <= root + MAX_RESULTS
    ensures var r, r' := Expand(g, b, root, s, index, rules, level), Expand(g, b', root, s, index, rules, level);
            r == r' || (r.status == OutOfWork && r.out <= r'.out)
    decreases root + MAX_RESULTS - |s.out|, |rules|
  {
    hide NextOutput, Judge;
    NextOutputWithMore(g, b, b', s, index, rules);
    var n := NextOutput(g, b, s, index, rules);
    if n.Made? {
      match Judge(g, root, n.after, index, n.output, n.rule, level)
      case Dropped(s2) => ExpandWithMore(g, b, b', root, s2, index, n.rest, level);
      case Recorded(s2, child) =>
        ExpandWithMore(g, b, b', root, s2, child, RulesFor(g, n.output), level + 1);
        var s3 := Expand(g, b, root, s2, child, RulesFor(g, n.output), level + 1);
        if s3.status != OutOfWork { ExpandWithMore(g, b, b', root, s3, index, n.rest, level); }
    }
  }

  // A search with a smaller budget gives a prefix of what it gives with a larger one, and the same
  // list and charges unless the smaller budget ran out.
  lemma LargerBudgetOnlyAdds(g: Grammar, b: nat, b': nat, s: Search, first: Deinflection)
    requires b <= b' && Wellformed(s.out) && first.parent == None && s.status == Running
    ensures var r, r' := Deinflections(g, b, s, first), Deinflections(g, b', s, first);
            && r.out <= r'.out
            && (r.status != OutOfWork ==> r == r')
  {
    var s1 := s.(out := s.out + [first]);
    if first.text != [] { SearchWithMore(g, b, b', |s.out|, s1); }
    hide SearchFrom;
  }

  lemma SearchWithMore(g: Grammar, b: nat, b': nat, root: nat, s: Search)
    requires b <= b' && Wellformed(s.out) && |s.out| == root + 1
    ensures var r, r' := SearchFrom(g, b, root, s), SearchFrom(g, b', root, s);
            && r.out <= r'.out
            && (r.status != OutOfWork ==> r == r')
  {
    hide Expand, RulesFor;
    if !Spent(b, s) {
      assert !Spent(b', s);
      hide Left, Spent;
      var text := s.out[root].text;
      ExpandWithMore(g, b, b', root, s.(ops := s.ops + Walked(g, text)), root, RulesFor(g, text), 1);
    }
  }

  // ---- Soundness and bounds

  lemma {:induction false} MadeByRule(g: Grammar, work: nat, s: Search, index: nat, rules: seq<Rule>) returns (k: nat)
    requires index < |s.out| && NextOutput(g, work, s, index, rules).Made?
    ensures var n := NextOutput(g, work, s, index, rules);
            && k < |rules| && n.rule == rules[k] && n.rest == rules[k + 1..]
            && Allowed(g, s.out[index].conditions, n.rule)
            && g.apply(s.out[index].text, n.rule).made && n.output == g.apply(s.out[index].text, n.rule).output
            && forall j :: 0 <= j < k ==>
                 !(Allowed(g, s.out[index].conditions, rules[j]) && g.apply(s.out[index].text, rules[j]).made)
    decreases |rules|
  {
    match Try(g, work, s, index, rules[0])
    case Passed(s1) =>
      var k' := MadeByRule(g, work, s1, index, rules[1..]);
      k := k' + 1;
      forall j | 0 <= j < k
        ensures !(Allowed(g, s.out[index].conditions, rules[j]) && g.apply(s.out[index].text, rules[j]).made)
      {
        if j > 0 { assert rules[j] == rules[1..][j - 1]; }
      }
    case OutOf(_) => assert false;
    case Applied(_, _) => k := 0;
  }

  lemma {:induction false} CycleIsLocal(out: seq<Deinflection>, longer: seq<Deinflection>, n: nat, rule: Rule,
                                        text: Text)
    requires Wellformed(out) && Wellformed(longer) && out <= longer && n < |out|
    ensures CycleSearch(longer, n, rule, text) == CycleSearch(out, n, rule, text)
    decreases n
  {
    assert longer[n] == out[n];
    if out[n].parent.Some? {
      assert longer[out[n].parent.value] == out[out[n].parent.value];
      CycleIsLocal(out, longer, out[n].parent.value, rule, text);
    }
  }

  // What the rule makes of the deinflection at p would be kept by every bound but the number of results.
  ghost predicate Admissible(g: Grammar, root: nat, out: seq<Deinflection>, p: nat, rule: Rule)
    requires Wellformed(out) && root < |out| && p < |out|
  {
    var d, a := out[p], g.apply(out[p].text, rule);
    && Allowed(g, d.conditions, rule) && a.made && a.output != []
    && !(Bytes(a.output) >= Bytes(d.text) && CycleSearch(out, p, rule, d.text).0)
    && |a.output| <= |out[root].text| + MAX_GROWTH
    && d.depth - out[root].depth < MAX_DEPTH
  }

  // Result i of a search is an admissible rule applied to an earlier result of the same search.
  ghost predicate SoundAt(g: Grammar, root: nat, out: seq<Deinflection>, i: nat)
    requires Wellformed(out) && root < i < |out|
  {
    var d := out[i];
    && d.parent.Some? && root <= d.parent.value && d.via.ByRule?
    && var p, rule := d.parent.value, d.via.rule;
       && rule in RulesFor(g, out[p].text) && Admissible(g, root, out, p, rule)
       && d == Deinflection(g.apply(out[p].text, rule).output, g.conditionsOut(rule), Some(p), ByRule(rule),
                            out[p].depth + 1)
  }

  ghost predicate Sound(g: Grammar, root: nat, out: seq<Deinflection>)
    requires Wellformed(out)
  {
    root < |out| && forall i :: root < i < |out| ==> SoundAt(g, root, out, i)
  }

  lemma SoundIsLocal(g: Grammar, root: nat, out: seq<Deinflection>, longer: seq<Deinflection>, i: nat)
    requires Wellformed(out) && Wellformed(longer) && out <= longer && root < i < |out| && SoundAt(g, root, out, i)
    ensures SoundAt(g, root, longer, i)
  {
    var p, rule := out[i].parent.value, out[i].via.rule;
    assert longer[i] == out[i] && longer[p] == out[p] && longer[root] == out[root];
    CycleIsLocal(out, longer, p, rule, out[p].text);
  }

  // The bounds keep exactly what is admissible, until the results are full.
  lemma ScreenIsAdmissible(g: Grammar, root: nat, s: Search, index: nat, rule: Rule, level: nat)
    requires Wellformed(s.out) && index < |s.out| && root < |s.out| <= root + MAX_RESULTS && s.status == Running
    requires Allowed(g, s.out[index].conditions, rule) && g.apply(s.out[index].text, rule).made
    requires level == s.out[index].depth - s.out[root].depth + 1
    ensures var (s1, kept) := Screen(root, s, index, g.apply(s.out[index].text, rule).output, rule, level);
            && (kept ==> Admissible(g, root, s.out, index, rule))
            && (!kept && s1.status == Running ==> !Admissible(g, root, s.out, index, rule))
  {
    hide Bytes, CycleSearch, Allowed;
  }

  lemma AppendIsSound(g: Grammar, root: nat, s: Search, index: nat, rule: Rule)
    requires Wellformed(s.out) && root <= index < |s.out| && Sound(g, root, s.out)
    requires rule in RulesFor(g, s.out[index].text) && Admissible(g, root, s.out, index, rule)
    ensures var r := Append(g, s, index, g.apply(s.out[index].text, rule).output, rule);
            Wellformed(r.out) && Sound(g, root, r.out)
  {
    var longer := Append(g, s, index, g.apply(s.out[index].text, rule).output, rule).out;
    forall i | root < i < |longer| ensures SoundAt(g, root, longer, i) {
      if i < |s.out| {
        SoundIsLocal(g, root, s.out, longer, i);
      } else {
        assert longer[index] == s.out[index] && longer[root] == s.out[root];
        CycleIsLocal(s.out, longer, index, rule, s.out[index].text);
      }
    }
  }

  // ---- Completeness

  ghost predicate HasChild(g: Grammar, out: seq<Deinflection>, p: nat, rule: Rule)
    requires p < |out|
  {
    exists i :: p < i < |out| && out[i].parent == Some(p) && out[i].via == ByRule(rule)
                && out[i].text == g.apply(out[p].text, rule).output
  }

  // Every admissible application of the rules to the deinflection at p is among the results.
  ghost predicate ClosedAt(g: Grammar, root: nat, out: seq<Deinflection>, p: nat, rules: seq<Rule>)
    requires Wellformed(out) && root < |out| && p < |out|
  {
    forall k :: 0 <= k < |rules| && Admissible(g, root, out, p, rules[k]) ==> HasChild(g, out, p, rules[k])
  }

  lemma ClosedIsLocal(g: Grammar, root: nat, out: seq<Deinflection>, longer: seq<Deinflection>, p: nat,
                      rules: seq<Rule>)
    requires Wellformed(out) && Wellformed(longer) && out <= longer && root < |out| && p < |out|
    requires ClosedAt(g, root, out, p, rules)
    ensures ClosedAt(g, root, longer, p, rules)
  {
    forall k | 0 <= k < |rules| && Admissible(g, root, longer, p, rules[k]) ensures HasChild(g, longer, p, rules[k]) {
      assert longer[p] == out[p] && longer[root] == out[root];
      CycleIsLocal(out, longer, p, rules[k], out[p].text);
      assert Admissible(g, root, out, p, rules[k]);
      var i :| p < i < |out| && out[i].parent == Some(p) && out[i].via == ByRule(rules[k])
               && out[i].text == g.apply(out[p].text, rules[k]).output;
      assert longer[i] == out[i];
    }
  }

  ghost predicate Expanded(g: Grammar, root: nat, r: Search, from: nat, index: nat, rules: seq<Rule>)
    requires Wellformed(r.out) && root < |r.out| && index < |r.out|
  {
    && Sound(g, root, r.out)
    && (r.status == Running ==>
          && ClosedAt(g, root, r.out, index, rules)
          && forall i :: from <= i < |r.out| ==> ClosedAt(g, root, r.out, i, RulesFor(g, r.out[i].text)))
  }

  // Rules before k make nothing, rule k was handled, and the rest is closed: all is closed.
  lemma ClosedByParts(g: Grammar, root: nat, out: seq<Deinflection>, p: nat, rules: seq<Rule>, k: nat)
    requires Wellformed(out) && root < |out| && p < |out| && k < |rules|
    requires forall j :: 0 <= j < k ==>
               !(Allowed(g, out[p].conditions, rules[j]) && g.apply(out[p].text, rules[j]).made)
    requires Admissible(g, root, out, p, rules[k]) ==> HasChild(g, out, p, rules[k])
    requires ClosedAt(g, root, out, p, rules[k + 1..])
    ensures ClosedAt(g, root, out, p, rules)
  {
    forall j | 0 <= j < |rules| && Admissible(g, root, out, p, rules[j]) ensures HasChild(g, out, p, rules[j]) {
      if j > k { assert rules[j] == rules[k + 1..][j - k - 1]; }
    }
  }

  lemma {:induction false} NothingMade(g: Grammar, work: nat, s: Search, index: nat, rules: seq<Rule>)
    requires index < |s.out| && NextOutput(g, work, s, index, rules).Exhausted? && s.status == Running
    ensures forall j :: 0 <= j < |rules| ==>
              !(Allowed(g, s.out[index].conditions, rules[j]) && g.apply(s.out[index].text, rules[j]).made)
    decreases |rules|
  {
    if rules != [] {
      match Try(g, work, s, index, rules[0])
      case Passed(s1) =>
        NothingMade(g, work, s1, index, rules[1..]);
        forall j | 0 <= j < |rules|
          ensures !(Allowed(g, s.out[index].conditions, rules[j]) && g.apply(s.out[index].text, rules[j]).made)
        {
          if j > 0 { assert rules[j] == rules[1..][j - 1]; }
        }
      case OutOf(_) => assert false;
      case Applied(_, _) => assert false;
    }
  }

  lemma {:induction false} ExpandIsExact(g: Grammar, work: nat, root: nat, s: Search, index: nat, rules: seq<Rule>,
                                         level: nat)
    requires Wellformed(s.out) && root <= index < |s.out| && root < |s.out| <= root + MAX_RESULTS
    requires Sound(g, root, s.out) && s.status == Running
    requires forall rule :: rule in rules ==> rule in RulesFor(g, s.out[index].text)
    requires level == s.out[index].depth - s.out[root].depth + 1
    ensures Expanded(g, root, Expand(g, work, root, s, index, rules, level), |s.out|, index, rules)
    decreases root + MAX_RESULTS - |s.out|, |rules|
  {
    hide NextOutput, Screen, Sound, ClosedAt, RulesFor, Admissible;
    var r := Expand(g, work, root, s, index, rules, level);
    var n := NextOutput(g, work, s, index, rules);
    assert r.out[index] == s.out[index] && r.out[root] == s.out[root];
    match n
    case Stopped(_) =>
    case Exhausted(_) =>
      NothingMade(g, work, s, index, rules);
      NothingIsClosed(g, root, r.out, index, rules);
    case Made(s1, output, rule, rest) =>
      var k := MadeByRule(g, work, s, index, rules);
      assert rule in rules;
      assert forall x :: x in rest ==> x in rules;
      ScreenIsAdmissible(g, root, s1, index, rule, level);
      match Judge(g, root, s1, index, output, rule, level) {
        case Dropped(s2) =>
          if s2.status == Running {
            ExpandIsExact(g, work, root, s2, index, rest, level);
            if r.status == Running {
              InadmissibleIsLocal(g, root, s.out, r.out, index, rule);
              ClosedByParts(g, root, r.out, index, rules, k);
            }
          }
        case Recorded(s2, child) =>
          AppendIsSound(g, root, s1, index, rule);
          assert s2.out[child].text == output && s2.out[index] == s.out[index] && s2.out[root] == s.out[root];
          ExpandIsExact(g, work, root, s2, child, RulesFor(g, output), level + 1);
          var s3 := Expand(g, work, root, s2, child, RulesFor(g, output), level + 1);
          assert s3.out[index] == s.out[index] && s3.out[root] == s.out[root] && s3.out[child] == s2.out[child];
          if s3.status == Running {
            ExpandIsExact(g, work, root, s3, index, rest, level);
            assert r.out[child] == s2.out[child];
            if r.status == Running {
              assert HasChild(g, r.out, index, rule);
              ClosedByParts(g, root, r.out, index, rules, k);
              LaterStayClosed(g, root, s3, r, |s.out|, child);
            }
          }
      }
  }

  lemma NothingIsClosed(g: Grammar, root: nat, out: seq<Deinflection>, p: nat, rules: seq<Rule>)
    requires Wellformed(out) && root < |out| && p < |out|
    requires forall j :: 0 <= j < |rules| ==>
               !(Allowed(g, out[p].conditions, rules[j]) && g.apply(out[p].text, rules[j]).made)
    ensures ClosedAt(g, root, out, p, rules)
  {
  }

  lemma InadmissibleIsLocal(g: Grammar, root: nat, out: seq<Deinflection>, longer: seq<Deinflection>, p: nat,
                            rule: Rule)
    requires Wellformed(out) && Wellformed(longer) && out <= longer && root < |out| && p < |out|
    requires !Admissible(g, root, out, p, rule)
    ensures !Admissible(g, root, longer, p, rule)
  {
    assert longer[p] == out[p] && longer[root] == out[root];
    CycleIsLocal(out, longer, p, rule, out[p].text);
  }

  // The child's subtree, closed when it was done, is still closed at the end; so is what came after it.
  lemma LaterStayClosed(g: Grammar, root: nat, s3: Search, r: Search, from: nat, child: nat)
    requires Wellformed(s3.out) && Wellformed(r.out) && s3.out <= r.out && root < |s3.out| && child == from < |s3.out|
    requires ClosedAt(g, root, s3.out, child, RulesFor(g, s3.out[child].text))
    requires forall i :: from + 1 <= i < |s3.out| ==> ClosedAt(g, root, s3.out, i, RulesFor(g, s3.out[i].text))
    requires forall i :: |s3.out| <= i < |r.out| ==> ClosedAt(g, root, r.out, i, RulesFor(g, r.out[i].text))
    ensures forall i :: from <= i < |r.out| ==> ClosedAt(g, root, r.out, i, RulesFor(g, r.out[i].text))
  {
    forall i | from <= i < |r.out| ensures ClosedAt(g, root, r.out, i, RulesFor(g, r.out[i].text)) {
      if i < |s3.out| {
        assert r.out[i] == s3.out[i];
        ClosedIsLocal(g, root, s3.out, r.out, i, RulesFor(g, s3.out[i].text));
      }
    }
  }

  // A search lists the text itself, then only admissible applications of the rules to what it lists,
  // and, when no budget or result bound stopped it, all of them.
  lemma SearchIsExact(g: Grammar, work: nat, s: Search, first: Deinflection)
    requires Wellformed(s.out) && first.parent == None && s.status == Running && first.text != []
    ensures var r := Deinflections(g, work, s, first);
            && r.out[|s.out|] == first && Sound(g, |s.out|, r.out)
            && (r.status == Running ==>
                  forall i :: |s.out| <= i < |r.out| ==> ClosedAt(g, |s.out|, r.out, i, RulesFor(g, r.out[i].text)))
  {
    RunIsExact(g, work, |s.out|, s.(out := s.out + [first]));
    hide SearchFrom, Sound, ClosedAt, RulesFor;
  }

  lemma RunIsExact(g: Grammar, work: nat, root: nat, s: Search)
    requires Wellformed(s.out) && |s.out| == root + 1 && s.status == Running
    ensures var r := SearchFrom(g, work, root, s);
            && Sound(g, root, r.out)
            && (r.status == Running ==>
                  forall i :: root <= i < |r.out| ==> ClosedAt(g, root, r.out, i, RulesFor(g, r.out[i].text)))
  {
    hide Expand, RulesFor, Left, ClosedAt;
    var text := s.out[root].text;
    if !Spent(work, s) {
      var r := SearchFrom(g, work, root, s);
      ExpandIsExact(g, work, root, s.(ops := s.ops + Walked(g, text)), root, RulesFor(g, text), 1);
      assert r.out[root] == s.out[root];
    }
  }

  // The text has the rule's affix.
  predicate FitsText(g: Grammar, rule: Rule, text: Text) {
    rule < |g.forms| && Affixes.Fits(g.forms[rule], text, g.word)
  }

  // Seen through the rules' affixes: every result comes of a rule whose affix the earlier text has, and of
  // the rules whose affix a text in reach of the walks has, none that is admissible was passed over.
  lemma SearchGoesByAffixes(g: Grammar, work: nat, s: Search, first: Deinflection)
    requires Wellformed(s.out) && first.parent == None && s.status == Running && first.text != []
    ensures var r, root := Deinflections(g, work, s, first), |s.out|;
            && (forall i | root < i < |r.out| ::
                  && r.out[i].parent.Some? && r.out[i].via.ByRule?
                  && FitsText(g, r.out[i].via.rule, r.out[r.out[i].parent.value].text))
            && (r.status == Running ==>
                  forall i, rule: nat | root <= i < |r.out| && Affixes.InReach(g.forms, r.out[i].text, g.word) ::
                    FitsText(g, rule, r.out[i].text) && Admissible(g, root, r.out, i, rule) ==>
                      HasChild(g, r.out, i, rule))
  {
    SearchIsExact(g, work, s, first);
    hide Deinflections, RulesFor, Admissible, HasChild, FitsText, Affixes.InReach;
    var r, root := Deinflections(g, work, s, first), |s.out|;
    forall i | root < i < |r.out|
      ensures r.out[i].parent.Some? && r.out[i].via.ByRule?
      ensures FitsText(g, r.out[i].via.rule, r.out[r.out[i].parent.value].text)
    {
      assert SoundAt(g, root, r.out, i);
      TriedFits(g, r.out[i].via.rule, r.out[r.out[i].parent.value].text);
    }
    if r.status == Running {
      forall i, rule: nat | root <= i < |r.out| && Affixes.InReach(g.forms, r.out[i].text, g.word)
                            && FitsText(g, rule, r.out[i].text) && Admissible(g, root, r.out, i, rule)
        ensures HasChild(g, r.out, i, rule)
      {
        TriedFits(g, rule, r.out[i].text);
        assert ClosedAt(g, root, r.out, i, RulesFor(g, r.out[i].text));
      }
    }
  }

  lemma TriedFits(g: Grammar, rule: Rule, text: Text)
    ensures rule in RulesFor(g, text) ==> FitsText(g, rule, text)
    ensures FitsText(g, rule, text) && Affixes.InReach(g.forms, text, g.word) ==> rule in RulesFor(g, text)
  {
    Affixes.TriedExactly(g.forms, text, g.word);
    hide Affixes.RulesTried, Affixes.Fits, Affixes.InReach;
  }

  // Every result is at most 128 rules from the text, at most 32 code points longer, and not empty.
  lemma {:induction false} ResultBounds(g: Grammar, root: nat, out: seq<Deinflection>, i: nat)
    requires Wellformed(out) && Sound(g, root, out) && root < i < |out|
    ensures out[i].text != [] && |out[i].text| <= |out[root].text| + MAX_GROWTH
    ensures out[root].depth < out[i].depth <= out[root].depth + MAX_DEPTH
  {
    hide RulesFor, CycleSearch, Bytes, Allowed;
    assert SoundAt(g, root, out, i);
    var p := out[i].parent.value;
    if p > root { ResultBounds(g, root, out, p); }
  }

  // ---- Chains

  // A derivation: texts[k + 1] came from texts[k] by rules[k].
  datatype Chain = Chain(texts: seq<Text>, rules: seq<Rule>)

  ghost predicate IsChain(c: Chain) { |c.texts| == |c.rules| + 1 }

  ghost predicate Lengthens(c: Chain, k: nat)
    requires IsChain(c) && k < |c.rules|
  {
    Bytes(c.texts[k + 1]) >= Bytes(c.texts[k])
  }

  // No rule whose output was not shorter had already been applied to the same text in the chain.
  ghost predicate NoRepeat(c: Chain)
    requires IsChain(c)
  {
    forall j, k :: 0 <= j < k < |c.rules| && Lengthens(c, k) ==> (c.texts[j], c.rules[j]) != (c.texts[k], c.rules[k])
  }

  // The chain from the root to result i.
  ghost function ChainTo(g: Grammar, root: nat, out: seq<Deinflection>, i: nat): (c: Chain)
    requires Wellformed(out) && Sound(g, root, out) && root <= i < |out|
    ensures IsChain(c) && c.texts[|c.rules|] == out[i].text
  {
    if i == root then Chain([out[i].text], [])
    else
      assert SoundAt(g, root, out, i);
      var c := ChainTo(g, root, out, out[i].parent.value);
      Chain(c.texts + [out[i].text], c.rules + [out[i].via.rule])
  }

  // A chain's step is found by the cycle check of any later result of the chain.
  lemma {:induction false} CycleFinds(g: Grammar, root: nat, out: seq<Deinflection>, i: nat, j: nat)
    requires Wellformed(out) && Sound(g, root, out) && root <= i < |out| && out[root].parent == None
    requires j < |ChainTo(g, root, out, i).rules|
    ensures var c := ChainTo(g, root, out, i); CycleSearch(out, i, c.rules[j], c.texts[j]).0
    decreases i
  {
    assert SoundAt(g, root, out, i);
    var p := out[i].parent.value;
    var c, above := ChainTo(g, root, out, i), ChainTo(g, root, out, p);
    if j < |above.rules| {
      assert c.rules[j] == above.rules[j] && c.texts[j] == above.texts[j];
      CycleFinds(g, root, out, p, j);
    } else {
      assert c.texts[j] == above.texts[j] == out[p].text;
    }
  }

  lemma {:induction false} ChainsDoNotRepeat(g: Grammar, root: nat, out: seq<Deinflection>, i: nat)
    requires Wellformed(out) && Sound(g, root, out) && root <= i < |out| && out[root].parent == None
    ensures NoRepeat(ChainTo(g, root, out, i))
    decreases i
  {
    if i > root {
      assert SoundAt(g, root, out, i);
      var p, rule := out[i].parent.value, out[i].via.rule;
      ChainsDoNotRepeat(g, root, out, p);
      var c, above := ChainTo(g, root, out, i), ChainTo(g, root, out, p);
      forall j, k | 0 <= j < k < |c.rules| && Lengthens(c, k)
        ensures (c.texts[j], c.rules[j]) != (c.texts[k], c.rules[k])
      {
        assert c.texts[j] == above.texts[j] && c.texts[k] == above.texts[k] && c.rules[j] == above.rules[j];
        if k < |above.rules| {
          assert c.rules[k] == above.rules[k] && c.texts[k + 1] == above.texts[k + 1];
          assert Lengthens(above, k);
        } else {
          CycleFinds(g, root, out, p, j);
        }
      }
    }
  }

  predicate IsCodePoint(n: int) { 0 <= n < 0x11_0000 }

  // All texts of at most n code points.
  ghost function AllTexts(n: nat): set<Text> {
    if n == 0 then {[]}
    else
      AllTexts(n - 1) +
      (set t, c: CodePoint | t in AllTexts(n - 1) && 0 <= c < 0x11_0000 && IsCodePoint(c) :: t + [c])
  }

  lemma {:induction false} AllTextsHasAll(t: Text, n: nat)
    requires |t| <= n
    ensures t in AllTexts(n)
    decreases n
  {
    if |t| == n > 0 {
      AllTextsHasAll(t[..n - 1], n - 1);
      assert t == t[..n - 1] + [t[n - 1]] && IsCodePoint(t[n - 1]);
    } else if n > 0 {
      AllTextsHasAll(t, n - 1);
    }
  }

  ghost function AllPairs(length: nat, rules: set<Rule>): set<(Text, Rule)> {
    set t, r | t in AllTexts(length) && r in rules :: (t, r)
  }

  // The distinct applications among the first n steps that did not shorten the text.
  ghost function LongSteps(c: Chain, n: nat): set<(Text, Rule)>
    requires IsChain(c) && n <= |c.rules|
  {
    if n == 0 then {}
    else LongSteps(c, n - 1) + if Lengthens(c, n - 1) then {(c.texts[n - 1], c.rules[n - 1])} else {}
  }

  lemma {:induction false} LongStepsAreEarlier(c: Chain, n: nat, x: (Text, Rule))
    requires IsChain(c) && n <= |c.rules| && x in LongSteps(c, n)
    ensures exists j :: 0 <= j < n && x == (c.texts[j], c.rules[j])
  {
    if n > 0 && x in LongSteps(c, n - 1) { LongStepsAreEarlier(c, n - 1, x); }
  }

  // Between two steps that do not shorten, at most as many steps as the text has bytes.
  lemma {:induction false} StepsAreCounted(c: Chain, length: nat, rules: set<Rule>, n: nat)
    requires IsChain(c) && NoRepeat(c) && n <= |c.rules|
    requires forall k :: 0 <= k < |c.texts| ==> |c.texts[k]| <= length
    requires forall k :: 0 <= k < |c.rules| ==> c.rules[k] in rules
    ensures LongSteps(c, n) <= AllPairs(length, rules)
    ensures n + Bytes(c.texts[n]) <= |LongSteps(c, n)| + 4 * length * (|LongSteps(c, n)| + 1)
    decreases n
  {
    if n > 0 {
      StepsAreCounted(c, length, rules, n - 1);
      hide AllPairs, Bytes;
      OneStepCounted(c, length, rules, n);
    }
  }

  lemma {:induction false} OneStepCounted(c: Chain, length: nat, rules: set<Rule>, n: nat)
    requires IsChain(c) && NoRepeat(c) && 0 < n <= |c.rules|
    requires |c.texts[n - 1]| <= length && |c.texts[n]| <= length && c.rules[n - 1] in rules
    requires LongSteps(c, n - 1) <= AllPairs(length, rules)
    requires var long := |LongSteps(c, n - 1)|; n - 1 + Bytes(c.texts[n - 1]) <= long + 4 * length * (long + 1)
    ensures LongSteps(c, n) <= AllPairs(length, rules)
    ensures n + Bytes(c.texts[n]) <= |LongSteps(c, n)| + 4 * length * (|LongSteps(c, n)| + 1)
  {
    var before := |LongSteps(c, n - 1)|;
    if Lengthens(c, n - 1) {
      LongStepIsNew(c, length, rules, n);
      TimesGrows(4, |c.texts[n]|, length);
      hide *;
      OneMoreLong(n - 1, Bytes(c.texts[n - 1]), Bytes(c.texts[n]), before, length);
    } else {
      hide AllPairs, NoRepeat, Bytes;
      assert LongSteps(c, n) == LongSteps(c, n - 1);
    }
  }

  // A step that does not shorten is one application more: none occurs twice.
  lemma LongStepIsNew(c: Chain, length: nat, rules: set<Rule>, n: nat)
    requires IsChain(c) && NoRepeat(c) && 0 < n <= |c.rules| && Lengthens(c, n - 1)
    requires |c.texts[n - 1]| <= length && c.rules[n - 1] in rules && LongSteps(c, n - 1) <= AllPairs(length, rules)
    ensures LongSteps(c, n) <= AllPairs(length, rules) && |LongSteps(c, n)| == |LongSteps(c, n - 1)| + 1
  {
    hide AllTexts, Bytes;
    var x := (c.texts[n - 1], c.rules[n - 1]);
    AllTextsHasAll(c.texts[n - 1], length);
    if x in LongSteps(c, n - 1) { LongStepsAreEarlier(c, n - 1, x); }
  }

  lemma OneMoreLong(n: nat, bytes: nat, bytes': nat, long: nat, length: nat)
    requires n + bytes <= long + 4 * length * (long + 1) && bytes' <= 4 * length
    ensures n + 1 + bytes' <= long + 1 + 4 * length * (long + 2)
  {
    assert 4 * length * (long + 2) == 4 * length * (long + 1) + 4 * length;
  }

  // The cycle check and the growth bound alone make every chain finite.
  lemma ChainsAreFinite(c: Chain, length: nat, rules: set<Rule>)
    requires IsChain(c) && NoRepeat(c)
    requires forall k :: 0 <= k < |c.texts| ==> |c.texts[k]| <= length
    requires forall k :: 0 <= k < |c.rules| ==> c.rules[k] in rules
    ensures var pairs := |AllPairs(length, rules)|;
            |c.rules| <= pairs + 4 * length * (pairs + 1)
  {
    StepsAreCounted(c, length, rules, |c.rules|);
    var long, pairs := LongSteps(c, |c.rules|), AllPairs(length, rules);
    SubsetSize(long, pairs);
    TimesGrows(4 * length, |long| + 1, |pairs| + 1);
  }

  lemma {:induction false} SubsetSize<T>(a: set<T>, b: set<T>)
    requires a <= b
    ensures |a| <= |b|
  {
    if a != {} {
      var x :| x in a;
      SubsetSize(a - {x}, b - {x});
    }
  }
}
