// TransformSet::search (src/languages/transforms.cpp): the depth-first search on an explicit stack,
// proved to append what the recursion appends and to charge what it charges.
module DeinflectSearch {
  import opened Options
  import opened Budget
  import opened Deinflect
  import Affixes

  // A deinflection being expanded: its matches are matches[first..end], `next` the one being applied
  // (or end), `rule` the next rule of it, or of the unindexed rules.
  datatype Frame = Frame(index: nat, first: nat, next: nat, end: nat, rule: nat)

  type Match = seq<Rule>

  function Unindexed(g: Grammar): seq<Rule> { Affixes.RulesAt(g.forms, Affixes.Unindexed) }

  ghost predicate FrameFits(f: Frame, matches: seq<Match>) {
    && f.first <= f.next <= f.end <= |matches|
    && (f.next < f.end ==> f.rule <= |matches[f.next]|)
  }

  // The rules a frame has still to try.
  ghost function Remaining(g: Grammar, f: Frame, matches: seq<Match>): seq<Rule>
    requires FrameFits(f, matches)
  {
    if f.next < f.end then
      matches[f.next][f.rule..] + Affixes.Flatten(matches[f.next + 1..f.end]) + Unindexed(g)
    else if f.rule <= |Unindexed(g)| then Unindexed(g)[f.rule..]
    else []
  }

  // The frames of a stack share its matches: each frame's begin where the one below it ends.
  ghost predicate StackFits(frames: seq<Frame>, matches: seq<Match>, size: nat) {
    && (forall k :: 0 <= k < |frames| ==> FrameFits(frames[k], matches) && frames[k].index < size)
    && (forall k :: 0 < k < |frames| ==> frames[k - 1].end == frames[k].first)
    && (|frames| > 0 ==> frames[0].first == 0)
    && |matches| == (if |frames| > 0 then frames[|frames| - 1].end else 0)
  }

  // A stack as the work it stands for.
  datatype Pending = Pending(index: nat, rules: seq<Rule>)

  ghost function Abstract(g: Grammar, frames: seq<Frame>, matches: seq<Match>, size: nat): (r: seq<Pending>)
    requires StackFits(frames, matches, size)
    ensures |r| == |frames|
  {
    seq(|frames|, k requires 0 <= k < |frames| => Pending(frames[k].index, Remaining(g, frames[k], matches)))
  }

  // The recursion resumed from a stack: the top frame's rules, then the rest of the stack.
  ghost function Unwind(g: Grammar, work: nat, root: nat, s: Search, stack: seq<Pending>): (r: Search)
    requires Wellformed(s.out) && root < |s.out| <= root + MAX_RESULTS
    requires forall k :: 0 <= k < |stack| ==> stack[k].index < |s.out|
    decreases |stack|
  {
    if stack == [] then s
    else
      var top := stack[|stack| - 1];
      Unwind(g, work, root, Expand(g, work, root, s, top.index, top.rules, |stack|), stack[..|stack| - 1])
  }

  lemma {:induction false} UnwindOne(g: Grammar, work: nat, root: nat, s: Search, stack: seq<Pending>)
    requires Wellformed(s.out) && root < |s.out| <= root + MAX_RESULTS && |stack| == 1 && stack[0].index < |s.out|
    ensures Unwind(g, work, root, s, stack) == Expand(g, work, root, s, stack[0].index, stack[0].rules, 1)
  {
    hide Expand;
  }

  lemma {:induction false} UnwindStopped(g: Grammar, work: nat, root: nat, s: Search, stack: seq<Pending>)
    requires Wellformed(s.out) && root < |s.out| <= root + MAX_RESULTS && s.status != Running
    requires forall k :: 0 <= k < |stack| ==> stack[k].index < |s.out|
    ensures Unwind(g, work, root, s, stack) == s
    decreases |stack|
  {
    if stack != [] {
      UnwindStopped(g, work, root, s, stack[..|stack| - 1]);
    }
  }

  // One turn of the recursion, seen on the stack.
  ghost function AfterTurn(g: Grammar, work: nat, root: nat, s: Search, stack: seq<Pending>)
    : (r: (Search, seq<Pending>))
    requires Wellformed(s.out) && root < |s.out| <= root + MAX_RESULTS && stack != []
    requires forall k :: 0 <= k < |stack| ==> stack[k].index < |s.out|
    ensures Wellformed(r.0.out) && root < |r.0.out| <= root + MAX_RESULTS
    ensures forall k :: 0 <= k < |r.1| ==> r.1[k].index < |r.0.out|
  {
    var top := stack[|stack| - 1];
    match NextOutput(g, work, s, top.index, top.rules)
    case Exhausted(s1) => (s1, stack[..|stack| - 1])
    case Stopped(s1) => (s1, stack)
    case Made(s1, output, rule, rest) =>
      var stack1 := stack[|stack| - 1 := Pending(top.index, rest)];
      match Judge(g, root, s1, top.index, output, rule, |stack|)
      case Dropped(s2) => (s2, stack1)
      case Recorded(s2, child) => (s2, stack1 + [Pending(child, RulesFor(g, output))])
  }

  // A turn changes nothing in what the stack will come to.
  lemma {:induction false} TurnKeepsUnwind(g: Grammar, work: nat, root: nat, s: Search, stack: seq<Pending>)
    requires Wellformed(s.out) && root < |s.out| <= root + MAX_RESULTS && stack != []
    requires forall k :: 0 <= k < |stack| ==> stack[k].index < |s.out|
    ensures var (s', stack') := AfterTurn(g, work, root, s, stack);
            Unwind(g, work, root, s', stack') == Unwind(g, work, root, s, stack)
  {
    hide Screen, Append, Try, RulesFor, NextOutput, Judge;
    var n := |stack| - 1;
    var top, below := stack[n], stack[..n];
    var (s', stack') := AfterTurn(g, work, root, s, stack);
    var next := NextOutput(g, work, s, top.index, top.rules);
    if next.Stopped? {
      UnwindStopped(g, work, root, s', stack');
      UnwindStopped(g, work, root, s', below);
    } else if next.Made? {
      var stack1 := stack[n := Pending(top.index, next.rest)];
      assert stack1[..n] == below;
      match Judge(g, root, next.after, top.index, next.output, next.rule, |stack|)
      case Dropped(s2) =>
      case Recorded(s2, child) => assert stack'[..|stack'| - 1] == stack1;
    }
  }

  lemma PoppedFits(g: Grammar, frames: seq<Frame>, matches: seq<Match>, size: nat)
    requires StackFits(frames, matches, size) && frames != []
    ensures var n := |frames| - 1;
            && StackFits(frames[..n], matches[..frames[n].first], size)
            && Abstract(g, frames[..n], matches[..frames[n].first], size) == Abstract(g, frames, matches, size)[..n]
  {
    var n := |frames| - 1;
    var less := matches[..frames[n].first];
    forall k | 0 <= k < n
      ensures FrameFits(frames[k], less) && Remaining(g, frames[k], less) == Remaining(g, frames[k], matches)
    {
      EndsAscend(frames, matches, size, k, n - 1);
      if frames[k].next < frames[k].end {
        assert less[frames[k].next + 1..frames[k].end] == matches[frames[k].next + 1..frames[k].end];
      }
    }
  }

  lemma {:induction false} EndsAscend(frames: seq<Frame>, matches: seq<Match>, size: nat, k: nat, n: nat)
    requires StackFits(frames, matches, size) && k <= n < |frames|
    ensures frames[k].end <= frames[n].end
  {
    if k < n { EndsAscend(frames, matches, size, k, n - 1); }
  }

  // The measure of the main loop: rules left on the stack, with its frames.
  ghost function Weight(stack: seq<Pending>): nat {
    if stack == [] then 0 else Weight(stack[..|stack| - 1]) + |stack[|stack| - 1].rules| + 1
  }

  // Every turn that goes on leaves fewer results to record, or fewer rules on the stack.
  lemma {:induction false} TurnWeighs(g: Grammar, work: nat, root: nat, s: Search, stack: seq<Pending>)
    requires Wellformed(s.out) && root < |s.out| <= root + MAX_RESULTS && stack != [] && s.status == Running
    requires forall k :: 0 <= k < |stack| ==> stack[k].index < |s.out|
    ensures var (s', stack') := AfterTurn(g, work, root, s, stack);
            s'.status == Running ==>
              |s'.out| > |s.out| || (|s'.out| == |s.out| && Weight(stack') < Weight(stack))
  {
    var top := stack[|stack| - 1];
    var next := NextOutput(g, work, s, top.index, top.rules);
    if next.Made? {
      var stack1 := stack[|stack| - 1 := Pending(top.index, next.rest)];
      assert stack1[..|stack| - 1] == stack[..|stack| - 1];
    }
  }

  lemma {:induction false} FlattenStep(nodes: seq<Match>, from: nat, to: nat)
    requires from < to <= |nodes|
    ensures Affixes.Flatten(nodes[from..to]) == nodes[from] + Affixes.Flatten(nodes[from + 1..to])
  {
    assert nodes[from..to][1..] == nodes[from + 1..to];
  }

  // A frame just pushed has all rules of its text to try.
  lemma FreshFrame(g: Grammar, text: Text, was: seq<Match>, index: nat)
    ensures var matches := was + Affixes.MatchesOf(g.forms, text, g.word);
            Remaining(g, Frame(index, |was|, |was|, |matches|, 0), matches) == RulesFor(g, text)
  {
    var found := Affixes.MatchesOf(g.forms, text, g.word);
    var matches := was + found;
    assert matches[|was|..|matches|] == found;
    if found != [] {
      FlattenStep(matches, |was|, |matches|);
      assert matches[|was|][0..] == matches[|was|];
    } else {
      assert [] + Unindexed(g) == Unindexed(g);
      assert Unindexed(g)[0..] == Unindexed(g);
    }
  }

  lemma FrameBelow(g: Grammar, f: Frame, was: seq<Match>, found: seq<Match>)
    requires FrameFits(f, was)
    ensures FrameFits(f, was + found) && Remaining(g, f, was + found) == Remaining(g, f, was)
  {
    if f.next < f.end {
      assert (was + found)[f.next + 1..f.end] == was[f.next + 1..f.end];
      assert (was + found)[f.next] == was[f.next];
    }
  }

  // Pushing matches on top changes nothing for the frames below.
  lemma FramesBelow(g: Grammar, frames: seq<Frame>, was: seq<Match>, found: seq<Match>, size: nat, frame: Frame)
    requires StackFits(frames, was, size) && frame.index < size
    requires frame.first == frame.next == |was| && frame.end == |was + found| && frame.rule == 0
    ensures StackFits(frames + [frame], was + found, size)
    ensures Abstract(g, frames + [frame], was + found, size) ==
            Abstract(g, frames, was, size) + [Pending(frame.index, Remaining(g, frame, was + found))]
  {
    forall k | 0 <= k < |frames|
      ensures FrameFits(frames[k], was + found) && Remaining(g, frames[k], was + found) == Remaining(g, frames[k], was)
    {
      FrameBelow(g, frames[k], was, found);
    }
    hide Remaining;
    assert (frames + [frame])[|frames|] == frame;
  }

  // A text's matches with a frame for them on top.
  lemma PushedOn(g: Grammar, frames: seq<Frame>, was: seq<Match>, index: nat, size: nat, text: Text)
    requires StackFits(frames, was, size) && index < size
    ensures Walked(g, text) == Affixes.ReadOf(g.forms, text, g.word)
    ensures var matches := was + Affixes.MatchesOf(g.forms, text, g.word);
            var more := frames + [Frame(index, |was|, |was|, |matches|, 0)];
            && StackFits(more, matches, size)
            && Abstract(g, more, matches, size) == Abstract(g, frames, was, size) + [Pending(index, RulesFor(g, text))]
  {
    var found := Affixes.MatchesOf(g.forms, text, g.word);
    hide StackFits, Abstract, RulesFor, Affixes.MatchesOf, Remaining;
    FreshFrame(g, text, was, index);
    FramesBelow(g, frames, was, found, size, Frame(index, |was|, |was|, |was + found|, 0));
  }

  // Moving a frame's cursor over the rule it points at, to its next match, or to the unindexed rules.

  lemma TakeMatched(g: Grammar, f: Frame, matches: seq<Match>)
    requires FrameFits(f, matches) && f.next < f.end && f.rule < |matches[f.next]|
    ensures FrameFits(f.(rule := f.rule + 1), matches)
    ensures Remaining(g, f, matches) == [matches[f.next][f.rule]] + Remaining(g, f.(rule := f.rule + 1), matches)
  {
  }

  lemma NextMatch(g: Grammar, f: Frame, matches: seq<Match>)
    requires FrameFits(f, matches) && f.next < f.end && f.rule == |matches[f.next]|
    ensures var f' := f.(next := f.next + 1, rule := 0);
            FrameFits(f', matches) && Remaining(g, f', matches) == Remaining(g, f, matches)
  {
    if f.next + 1 < f.end {
      FlattenStep(matches, f.next + 1, f.end);
      assert matches[f.next + 1][0..] == matches[f.next + 1];
    } else {
      assert matches[f.next + 1..f.end] == [];
      assert Unindexed(g)[0..] == Unindexed(g);
    }
    assert matches[f.next][f.rule..] == [];
  }

  lemma TakeUnindexed(g: Grammar, f: Frame, matches: seq<Match>)
    requires FrameFits(f, matches) && f.next == f.end && f.rule < |Unindexed(g)|
    ensures Remaining(g, f, matches) == [Unindexed(g)[f.rule]] + Remaining(g, f.(rule := f.rule + 1), matches)
  {
  }

  lemma TopFits(g: Grammar, frames: seq<Frame>, matches: seq<Match>, size: nat)
    requires StackFits(frames, matches, size) && frames != []
    ensures var top := frames[|frames| - 1];
            && FrameFits(top, matches) && top.index < size
            && Abstract(g, frames, matches, size)[|frames| - 1] == Pending(top.index, Remaining(g, top, matches))
  {
    hide Remaining;
  }

  // A longer list is as good a list for the frames.
  lemma SizeGrows(g: Grammar, frames: seq<Frame>, matches: seq<Match>, size: nat)
    requires StackFits(frames, matches, size)
    ensures StackFits(frames, matches, size + 1)
    ensures Abstract(g, frames, matches, size + 1) == Abstract(g, frames, matches, size)
  {
    hide Remaining;
  }

  lemma {:induction false} SearchRuns(g: Grammar, work: nat, root: nat, s: Search)
    requires Wellformed(s.out) && |s.out| == root + 1
    ensures SearchFrom(g, work, root, s) ==
            if Spent(work, s) then s.(status := OutOfWork)
            else
              var text := s.out[root].text;
              Expand(g, work, root, s.(ops := s.ops + Walked(g, text)), root, RulesFor(g, text), 1)
  {
    hide Expand;
  }

  // Only the top frame of a stack changes.
  lemma TopChanges(g: Grammar, frames: seq<Frame>, matches: seq<Match>, size: nat, f: Frame)
    requires StackFits(frames, matches, size) && frames != []
    requires var top := frames[|frames| - 1];
             f.index == top.index && f.first == top.first && f.end == top.end && FrameFits(f, matches)
    ensures StackFits(frames[|frames| - 1 := f], matches, size)
    ensures Abstract(g, frames[|frames| - 1 := f], matches, size) ==
            Abstract(g, frames, matches, size)[|frames| - 1 := Pending(f.index, Remaining(g, f, matches))]
  {
  }

  // Bytes bound the code points from above, four times the code points the bytes: so until an output
  // passes a quarter of the root's bytes plus the margin, the root needs no counting.
  lemma {:induction false} CheapLimitSuffices(root: Text, output: Text)
    requires Bytes(output) <= Bytes(root) / 4 + MAX_GROWTH
    ensures |output| <= |root| + MAX_GROWTH
  {
  }

  class TransformSearch {
    const g: Grammar
    const tries: Affixes.Tries
    const budget: SearchBudget
    const root: nat
    var out: seq<Deinflection>
    var frames: seq<Frame>
    var matches: seq<Match>
    // The longest output allowed, and whether the root's code points were counted for it.
    var maxLength: nat
    var counted: bool
    var outOfWork: bool
    var outOfResults: bool

    constructor (grammar: Grammar, index: Affixes.Tries, shared: SearchBudget, list: seq<Deinflection>)
      requires |list| > 0
      ensures g == grammar && tries == index && budget == shared && out == list && root == |list| - 1
      ensures frames == [] && matches == [] && !counted && !outOfWork && !outOfResults
      ensures maxLength == Bytes(list[|list| - 1].text) / 4 + MAX_GROWTH
    {
      g, tries, budget, root, out := grammar, index, shared, |list| - 1, list;
      frames, matches := [], [];
      maxLength, counted := Bytes(list[|list| - 1].text) / 4 + MAX_GROWTH, false;
      outOfWork, outOfResults := false, false;
    }

    ghost predicate Valid()
      reads this, budget
    {
      && budget.Valid() && Affixes.Indexes(tries, g.forms)
      && Wellformed(out) && root < |out| <= root + MAX_RESULTS
      && StackFits(frames, matches, |out|)
      && maxLength == (if counted then |out[root].text| else Bytes(out[root].text) / 4) + MAX_GROWTH
      && !(outOfWork && outOfResults)
    }

    ghost function State(): Search
      reads this, budget
    {
      Search(out, budget.units, budget.counted,
             if outOfWork then OutOfWork else if outOfResults then OutOfResults else Running)
    }

    ghost function Stack(): seq<Pending>
      reads this, budget
      requires Valid()
    {
      Abstract(g, frames, matches, |out|)
    }

    // push_frame
    method PushFrame(index: nat)
      requires Valid() && index < |out|
      modifies this`frames, this`matches, budget
      ensures Valid()
      ensures State() == old(State()).(ops := old(State()).ops + Walked(g, out[index].text))
      ensures Stack() == old(Stack()) + [Pending(index, RulesFor(g, out[index].text))]
    {
      hide Abstract, StackFits, FrameFits, Remaining, RulesFor, Walked, Wellformed, Bytes, Affixes.Indexes,
           Affixes.MatchesOf, Affixes.ReadOf;
      var text := out[index].text;
      var found, walked := Affixes.ListMatches(tries, g.forms, text, g.word);
      PushedOn(g, frames, matches, index, |out|, text);
      frames := frames + [Frame(index, |matches|, |matches|, |matches| + |found|, 0)];
      matches := matches + found;
      var _ := budget.AddOps(walked);
    }

    // What next_output does with one rule: skipped, not tried for want of work, or applied.
    method TryRule(index: nat, rule: Rule) returns (made: bool, output: Text)
      requires budget.Valid() && index < |out| && State().status == Running
      modifies this`outOfWork, budget
      ensures budget.Valid() && !(outOfWork && made)
      ensures Try(g, budget.total, old(State()), index, rule) ==
              if outOfWork then OutOf(State()) else if made then Applied(State(), output) else Passed(State())
    {
      var d := out[index];
      output := [];
      if !Allowed(g, d.conditions, rule) {
        var _ := budget.AddOps(1);
        outOfWork := budget.Spent();
        return false, output;
      }
      if budget.Spent() {
        outOfWork := true;
        return false, output;
      }
      budget.Spend(1);
      var a := g.apply(d.text, rule);
      budget.Spend((Bytes(a.output) + 4 * a.thenWritten) / WORK_BYTES + a.regexRead);
      var _ := budget.AddOps(a.ruleOps);
      return a.made, a.output;
    }

    // The loops of next_output, on the top frame.
    method AdvanceFrame(top: Frame) returns (made: bool, output: Text, rule: Rule, frame: Frame)
      requires budget.Valid() && Affixes.Indexes(tries, g.forms)
      requires top.index < |out| && State().status == Running && FrameFits(top, matches)
      modifies this`outOfWork, budget
      ensures budget.Valid() && !(made && outOfWork)
      ensures frame.index == top.index && frame.first == top.first && frame.end == top.end && FrameFits(frame, matches)
      ensures NextOutput(g, budget.total, old(State()), top.index, Remaining(g, top, matches)) ==
              if made then Made(State(), output, rule, Remaining(g, frame, matches))
              else if outOfWork then Stopped(State())
              else Exhausted(State())
    {
      assert tries.unindexed == Unindexed(g);
      hide Affixes.Indexes, Unindexed;
      frame := top;
      made, rule, output := false, 0, [];
      while frame.next < frame.end || frame.rule < |tries.unindexed|
        invariant budget.Valid() && State().status == Running && out == old(out) && !made
        invariant FrameFits(frame, matches) && frame.index == top.index
        invariant frame.first == top.first && frame.end == top.end
        invariant NextOutput(g, budget.total, State(), top.index, Remaining(g, frame, matches)) ==
                  old(NextOutput(g, budget.total, State(), top.index, Remaining(g, top, matches)))
        decreases frame.end - frame.next, if frame.next < frame.end then |matches[frame.next]| - frame.rule
                                          else |tries.unindexed| - frame.rule
      {
        if frame.next < frame.end && frame.rule == |matches[frame.next]| {
          NextMatch(g, frame, matches);
          frame := frame.(next := frame.next + 1, rule := 0);
        } else {
          if frame.next < frame.end {
            TakeMatched(g, frame, matches);
            rule := matches[frame.next][frame.rule];
          } else {
            TakeUnindexed(g, frame, matches);
            rule := tries.unindexed[frame.rule];
          }
          ghost var rules := Remaining(g, frame, matches);
          frame := frame.(rule := frame.rule + 1);
          assert rules[0] == rule && rules[1..] == Remaining(g, frame, matches);
          hide Remaining, Try;
          made, output := TryRule(frame.index, rule);
          if outOfWork || made { return; }
        }
      }
      assert Remaining(g, frame, matches) == [];
    }

    // next_output
    method NextRule() returns (made: bool, output: Text, rule: Rule, ghost rest: seq<Rule>)
      requires Valid() && |frames| > 0 && State().status == Running
      modifies this`frames, this`outOfWork, budget
      ensures Valid() && !(made && outOfWork)
      ensures var top := old(Stack()[|frames| - 1]);
              NextOutput(g, budget.total, old(State()), top.index, top.rules) ==
              if made then Made(State(), output, rule, rest)
              else if outOfWork then Stopped(State())
              else Exhausted(State())
      ensures |frames| == old(|frames|)
      ensures Stack() == old(Stack())[|frames| - 1 := Pending(old(frames[|frames| - 1].index), rest)]
    {
      hide NextOutput, Remaining, Abstract, StackFits, Wellformed, Bytes, Affixes.Indexes;
      TopFits(g, frames, matches, |out|);
      var frame;
      made, output, rule, frame := AdvanceFrame(frames[|frames| - 1]);
      rest := Remaining(g, frame, matches);
      TopChanges(g, frames, matches, |out|, frame);
      frames := frames[|frames| - 1 := frame];
    }

    // root_length() and the growth limit: the root is counted once, when an output is long enough to need it.
    method Grown(output: Text) returns (grown: bool)
      requires root < |out|
      requires maxLength == (if counted then |out[root].text| else Bytes(out[root].text) / 4) + MAX_GROWTH
      modifies this`maxLength, this`counted
      ensures maxLength == (if counted then |out[root].text| else Bytes(out[root].text) / 4) + MAX_GROWTH
      ensures grown <==> |output| > |out[root].text| + MAX_GROWTH
    {
      if Bytes(output) > maxLength && !counted {
        maxLength := |out[root].text| + MAX_GROWTH;
        counted := true;
      }
      if !counted { CheapLimitSuffices(out[root].text, output); }
      grown := Bytes(output) > maxLength && |output| > maxLength;
    }

    // is_cycle
    method IsCycle(index: nat, rule: Rule) returns (cycle: bool)
      requires Wellformed(out) && index < |out| && budget.Valid()
      modifies budget
      ensures budget.Valid()
      ensures var (found, steps) := CycleSearch(out, index, rule, out[index].text);
              cycle == found && State() == old(State()).(ops := old(State()).ops + steps)
    {
      var text, n: nat, steps: nat := out[index].text, index, 0;
      cycle := false;
      while !cycle && out[n].parent.Some?
        invariant n < |out| && out == old(out)
        invariant var (found, all) := CycleSearch(out, index, rule, text);
                  if cycle then found && all == steps
                  else CycleSearch(out, n, rule, text) == (found, all - steps)
        decreases if cycle then 0 else 1, n
      {
        steps := steps + 1;
        if out[n].via == ByRule(rule) && out[out[n].parent.value].text == text {
          cycle := true;
        } else {
          n := out[n].parent.value;
        }
      }
      var _ := budget.AddOps(steps);
    }

    // The tests of the main loop on an output.
    method Keeps(index: nat, output: Text, rule: Rule) returns (kept: bool)
      requires Valid() && index < |out| && State().status == Running
      modifies this`maxLength, this`counted, this`outOfResults, budget
      ensures Valid() && Stack() == old(Stack())
      ensures (State(), kept) == Screen(root, old(State()), index, output, rule, |frames|)
    {
      hide StackFits, Abstract, CycleSearch, Bytes, Affixes.Indexes;
      if output == [] { return false; }
      if Bytes(output) >= Bytes(out[index].text) {
        var cycle := IsCycle(index, rule);
        if cycle { return false; }
      }
      var grown := Grown(output);
      if grown || |frames| > MAX_DEPTH { return false; }
      if |out| - root >= MAX_RESULTS {
        outOfResults := true;
        return false;
      }
      return true;
    }

    // An output no bound drops.
    method Record(index: nat, output: Text, rule: Rule)
      requires Valid() && index < |out| < root + MAX_RESULTS
      modifies this`out, this`frames, this`matches, budget
      ensures Valid()
      ensures State() == Append(g, old(State()), index, output, rule)
      ensures Stack() == old(Stack()) + [Pending(old(|out|), RulesFor(g, output))]
    {
      hide Abstract, StackFits, Bytes, RulesFor, Walked, Affixes.Indexes;
      SizeGrows(g, frames, matches, |out|);
      out := out + [Deinflection(output, g.conditionsOut(rule), Some(index), ByRule(rule), out[index].depth + 1)];
      PushFrame(|out| - 1);
    }

    method PopFrame()
      requires Valid() && frames != []
      modifies this`frames, this`matches
      ensures Valid() && State() == old(State())
      ensures Stack() == old(Stack()[..|frames| - 1])
    {
      PoppedFits(g, frames, matches, |out|);
      matches := matches[..frames[|frames| - 1].first];
      frames := frames[..|frames| - 1];
    }

    // One turn of the main loop.
    method Turn()
      requires Valid() && frames != [] && State().status == Running
      modifies this, budget
      ensures Valid()
      ensures var (after, stack) := AfterTurn(g, budget.total, root, old(State()), old(Stack()));
              State() == after && (!outOfWork ==> Stack() == stack)
    {
      ghost var below := Stack()[..|frames| - 1];
      var index := frames[|frames| - 1].index;
      assert Stack()[|frames| - 1].index == index < |out|;
      hide NextOutput, Screen, Append, Abstract, StackFits, CycleSearch;
      var made, output, rule, rest := NextRule();
      if made {
        var kept := Keeps(index, output, rule);
        if kept { Record(index, output, rule); }
      } else if !outOfWork {
        assert Stack()[..|frames| - 1] == below;
        PopFrame();
      }
    }

    // A turn keeps what the whole loop comes to, and takes from what is left to do.
    method DrainOne()
      requires Valid() && frames != [] && State().status == Running
      modifies this, budget
      ensures Valid()
      ensures Unwind(g, budget.total, root, State(), Stack()) ==
              Unwind(g, budget.total, root, old(State()), old(Stack()))
      ensures State().status == Running ==>
                || root + MAX_RESULTS - |out| < root + MAX_RESULTS - old(|out|)
                || (|out| == old(|out|) && Weight(Stack()) < old(Weight(Stack())))
    {
      hide Unwind, Weight;
      TurnKeepsUnwind(g, budget.total, root, State(), Stack());
      TurnWeighs(g, budget.total, root, State(), Stack());
      ghost var (after, stack) := AfterTurn(g, budget.total, root, State(), Stack());
      Turn();
      if outOfWork {
        UnwindStopped(g, budget.total, root, after, stack);
        UnwindStopped(g, budget.total, root, after, Stack());
      }
    }

    // The main loop.
    method Drain()
      requires Valid() && State().status == Running
      modifies this, budget
      ensures Valid()
      ensures State() == Unwind(g, budget.total, root, old(State()), old(Stack()))
    {
      hide Weight;
      while frames != [] && !outOfWork && !outOfResults
        invariant Valid()
        invariant Unwind(g, budget.total, root, State(), Stack()) ==
                  Unwind(g, budget.total, root, old(State()), old(Stack()))
        decreases if State().status == Running then 1 else 0, root + MAX_RESULTS - |out|, Weight(Stack())
      {
        DrainOne();
      }
      if outOfWork || outOfResults {
        UnwindStopped(g, budget.total, root, State(), Stack());
      }
    }

    // search
    method Run()
      requires Valid() && frames == [] && |out| == root + 1 && State().status == Running
      modifies this, budget
      ensures Valid()
      ensures State() == SearchFrom(g, budget.total, root, old(State()))
    {
      hide StackFits, Abstract, Unwind, Expand, SearchFrom, Bytes, RulesFor, Walked, Wellformed, Affixes.Indexes;
      SearchRuns(g, budget.total, root, State());
      if budget.Spent() {
        outOfWork := true;
        return;
      }
      PushFrame(root);
      UnwindOne(g, budget.total, root, State(), Stack());
      Drain();
    }
  }

  // deinflect, on a list that may hold other searches' results and a budget others may have used.
  method RunDeinflect(g: Grammar, tries: Affixes.Tries, text: Text, out: seq<Deinflection>, budget: SearchBudget)
    returns (r: seq<Deinflection>, status: Status)
    requires budget.Valid() && Wellformed(out) && Affixes.Indexes(tries, g.forms)
    modifies budget
    ensures budget.Valid()
    ensures Search(r, budget.units, budget.counted, status) ==
            Deinflections(g, budget.total, Search(out, old(budget.units), old(budget.counted), Running),
                          Deinflection(text, 0, None, NoRule, 0))
  {
    r, status := out + [Deinflection(text, 0, None, NoRule, 0)], Running;
    if text == [] { return; }
    var search := new TransformSearch(g, tries, budget, r);
    search.Run();
    r := search.out;
    status := if search.outOfWork then OutOfWork else if search.outOfResults then OutOfResults else Running;
  }

  // deinflect_from_step: a variant pass's text, whose trace starts with the pass; nothing for an empty one.
  method RunDeinflectFromStep(g: Grammar, tries: Affixes.Tries, text: Text, step: nat, out: seq<Deinflection>,
                              budget: SearchBudget)
    returns (r: seq<Deinflection>, status: Status)
    requires budget.Valid() && Wellformed(out) && Affixes.Indexes(tries, g.forms)
    modifies budget
    ensures budget.Valid()
    ensures Search(r, budget.units, budget.counted, status) ==
            if text == [] then Search(out, old(budget.units), old(budget.counted), Running)
            else Deinflections(g, budget.total, Search(out, old(budget.units), old(budget.counted), Running),
                               Deinflection(text, 0, None, PassStep(step), 1))
  {
    r, status := out, Running;
    if text == [] { return; }
    r := out + [Deinflection(text, 0, None, PassStep(step), 1)];
    var search := new TransformSearch(g, tries, budget, r);
    search.Run();
    r := search.out;
    status := if search.outOfWork then OutOfWork else if search.outOfResults then OutOfResults else Running;
  }
}
