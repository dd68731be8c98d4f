// The deinflection search (src/languages/transforms.cpp): what it is meant to append, as a recursion.
// A rule's application is any function of the text; texts are code points with their UTF-8 lengths.
module Deinflect {
  import opened Options
  import opened Budget
  import Affixes

  type CodePoint = c: nat | c < 0x11_0000
  type Text = seq<CodePoint>

  function Utf8Length(c: CodePoint): (n: nat)
    ensures 1 <= n <= 4
  {
    if c < 0x80 then 1 else if c < 0x800 then 2 else if c < 0x10000 then 3 else 4
  }

  // text.size()
  function Bytes(t: Text): (n: nat)
    ensures |t| <= n <= 4 * |t|
  {
    if t == [] then 0 else Bytes(t[..|t| - 1]) + Utf8Length(t[|t| - 1])
  }

  type Rule = nat

  datatype Via = NoRule | ByRule(rule: Rule) | PassStep(step: nat)

  datatype Deinflection = Deinflection(text: Text, conditions: bv32, parent: Option<nat>, via: Via, depth: nat)

  // What one attempt to apply a rule gives and costs (section 7.4 of docs/languages.md).
  datatype Attempt = Attempt(made: bool, output: Text, thenWritten: nat, regexRead: nat, ruleOps: nat)

  // A pack's rules, as the search sees them.
  datatype Grammar = Grammar(
    forms: seq<Affixes.Form>,  // the rules' affixes, in file order
    word: nat -> bool,         // the characters words are made of
    conditionsIn: Rule -> bv32,
    conditionsOut: Rule -> bv32,
    enabled: Rule -> bool,     // not optional, or turned on by the request
    apply: (Text, Rule) -> Attempt)

  // The rules tried on a text, in order: those whose affix it has, then the unindexed ones.
  function RulesFor(g: Grammar, text: Text): seq<Rule> {
    Affixes.RulesTried(g.forms, text, g.word)
  }

  // The code points the trie walks over a text read.
  function Walked(g: Grammar, text: Text): nat {
    Affixes.ReadOf(g.forms, text, g.word)
  }

  function Allowed(g: Grammar, conditions: bv32, rule: Rule): bool {
    (conditions == 0 || conditions & g.conditionsIn(rule) != 0) && g.enabled(rule)
  }

  // Parents come before their children.
  predicate Wellformed(out: seq<Deinflection>) {
    forall i :: 0 <= i < |out| ==> out[i].parent.Some? ==> out[i].parent.value < i
  }

  // is_cycle: a step of the chain above `index` applied the rule to the same text; with the
  // number of steps looked at.
  function CycleSearch(out: seq<Deinflection>, n: nat, rule: Rule, text: Text): (r: (bool, nat))
    requires Wellformed(out) && n < |out|
    decreases n
  {
    match out[n].parent
    case None => (false, 0)
    case Some(p) =>
      if out[n].via == ByRule(rule) && out[p].text == text then (true, 1)
      else
        var (cycle, steps) := CycleSearch(out, p, rule, text);
        (cycle, steps + 1)
  }

  datatype Status = Running | OutOfWork | OutOfResults

  // The list so far and everything charged so far.
  datatype Search = Search(out: seq<Deinflection>, units: nat, ops: nat, status: Status)

  predicate Spent(work: nat, s: Search) { Left(work, s.units, s.ops) == 0 }

  // One rule of a frame: passed over, with nothing made; the end of the search; or an output.
  datatype Tried = Passed(after: Search) | OutOf(after: Search) | Applied(after: Search, output: Text)

  // What an attempt costs: a unit, a unit per 256 bytes written, a unit per code point read, and
  // its operations.
  function Charge(s: Search, a: Attempt): Search {
    s.(units := s.units + 1 + (Bytes(a.output) + 4 * a.thenWritten) / WORK_BYTES + a.regexRead,
       ops := s.ops + a.ruleOps)
  }

  // A rule its conditions or options skip is an operation; one that is tried needs a budget.
  function Try(g: Grammar, work: nat, s: Search, index: nat, rule: Rule): (r: Tried)
    requires index < |s.out| && s.status == Running
    ensures r.after.out == s.out
    ensures r.OutOf? <==> r.after.status != Running
  {
    var d := s.out[index];
    if !Allowed(g, d.conditions, rule) then
      var s1 := s.(ops := s.ops + 1);
      if Spent(work, s1) then OutOf(s1.(status := OutOfWork)) else Passed(s1)
    else if Spent(work, s) then OutOf(s.(status := OutOfWork))
    else
      var a := g.apply(d.text, rule);
      if a.made then Applied(Charge(s, a), a.output) else Passed(Charge(s, a))
  }

  // The next rule that makes an output.
  datatype Next =
    | Exhausted(after: Search)
    | Stopped(after: Search)
    | Made(after: Search, output: Text, rule: Rule, rest: seq<Rule>)

  // next_output
  function NextOutput(g: Grammar, work: nat, s: Search, index: nat, rules: seq<Rule>): (r: Next)
    requires index < |s.out|
    ensures r.after.out == s.out
    ensures r.Stopped? ==> r.after.status != Running
    ensures r.Exhausted? ==> r.after.status == s.status
    ensures r.Made? ==> r.after.status == Running && s.status == Running
    ensures s.status != Running ==> r.after == s
    ensures r.Made? ==> |r.rest| < |rules|
    decreases |rules|
  {
    if rules == [] then Exhausted(s)
    else if s.status != Running then Stopped(s)
    else
      match Try(g, work, s, index, rules[0])
      case Passed(s1) => NextOutput(g, work, s1, index, rules[1..])
      case OutOf(s1) => Stopped(s1)
      case Applied(s1, output) => Made(s1, output, rules[0], rules[1..])
  }

  // The search's bounds on an output of the deinflection at `index`, which would be rule `level` of
  // its chain: whether it is kept.
  function Screen(root: nat, s: Search, index: nat, output: Text, rule: Rule, level: nat): (r: (Search, bool))
    requires Wellformed(s.out) && index < |s.out| && root < |s.out| <= root + MAX_RESULTS
    requires s.status == Running
    ensures r.0.out == s.out && r.0.units == s.units && r.0.status != OutOfWork
    ensures r.1 ==> r.0.status == Running && |s.out| < root + MAX_RESULTS
  {
    var text := s.out[index].text;
    if output == [] then (s, false)
    else
      var looked := Bytes(output) >= Bytes(text);
      var (cycle, steps) := if looked then CycleSearch(s.out, index, rule, text) else (false, 0);
      var s1 := s.(ops := s.ops + steps);
      if cycle then (s1, false)
      else if |output| > |s.out[root].text| + MAX_GROWTH then (s1, false)
      else if level > MAX_DEPTH then (s1, false)
      else if |s.out| - root >= MAX_RESULTS then (s1.(status := OutOfResults), false)
      else (s1, true)
  }

  // The output's deinflection appended, its frame's trie walks charged.
  function Append(g: Grammar, s: Search, index: nat, output: Text, rule: Rule): Search
    requires index < |s.out|
  {
    var child := Deinflection(output, g.conditionsOut(rule), Some(index), ByRule(rule), s.out[index].depth + 1);
    s.(out := s.out + [child], ops := s.ops + Walked(g, output))
  }

  datatype Verdict = Dropped(after: Search) | Recorded(after: Search, child: nat)

  function Judge(g: Grammar, root: nat, s: Search, index: nat, output: Text, rule: Rule, level: nat): (r: Verdict)
    requires Wellformed(s.out) && index < |s.out| && root < |s.out| <= root + MAX_RESULTS
    requires s.status == Running
    ensures Wellformed(r.after.out)
    ensures r.Recorded? ==>
      && r.after.status == Running && r.child == |s.out| && |r.after.out| == |s.out| + 1 <= root + MAX_RESULTS
      && s.out <= r.after.out && r.after.out[r.child].text == output
    ensures r.Dropped? ==> r.after.out == s.out && r.after.status != OutOfWork
  {
    var (s1, kept) := Screen(root, s, index, output, rule, level);
    if kept then Recorded(Append(g, s1, index, output, rule), |s.out|) else Dropped(s1)
  }

  // The recursion of section 7.4 of docs/languages.md: each output is recorded and expanded fully
  // before the next rule applies to its parent.
  function Expand(g: Grammar, work: nat, root: nat, s: Search, index: nat, rules: seq<Rule>, level: nat): (r: Search)
    requires Wellformed(s.out) && index < |s.out| && root < |s.out| <= root + MAX_RESULTS
    ensures Wellformed(r.out) && s.out <= r.out && |r.out| <= root + MAX_RESULTS
    ensures s.status != Running ==> r == s
    decreases root + MAX_RESULTS - |s.out|, |rules|
  {
    match NextOutput(g, work, s, index, rules)
    case Exhausted(s1) => s1
    case Stopped(s1) => s1
    case Made(s1, output, rule, rest) =>
      match Judge(g, root, s1, index, output, rule, level)
      case Dropped(s2) => Expand(g, work, root, s2, index, rest, level)
      case Recorded(s2, child) =>
        var s3 := Expand(g, work, root, s2, child, RulesFor(g, output), level + 1);
        Expand(g, work, root, s3, index, rest, level)
  }

  // The search from a deinflection just appended, which a spent budget stops at once.
  function SearchFrom(g: Grammar, work: nat, root: nat, s: Search): (r: Search)
    requires Wellformed(s.out) && |s.out| == root + 1
    ensures Wellformed(r.out) && s.out <= r.out && |r.out| <= root + MAX_RESULTS
  {
    if Spent(work, s) then s.(status := OutOfWork)
    else
      var text := s.out[root].text;
      Expand(g, work, root, s.(ops := s.ops + Walked(g, text)), root, RulesFor(g, text), 1)
  }

  // deinflect: the text itself, then, unless it is empty, everything the rules make of it.
  function Deinflections(g: Grammar, work: nat, s: Search, first: Deinflection): (r: Search)
    requires Wellformed(s.out) && first.parent == None
    ensures s.out + [first] <= r.out && |r.out| <= |s.out| + MAX_RESULTS && Wellformed(r.out)
  {
    var s1 := s.(out := s.out + [first]);
    if first.text == [] then s1 else SearchFrom(g, work, |s.out|, s1)
  }
}
