// run_processors (src/languages/steps.cpp), without a budget: the variants of a text after a list of
// processors, each text once with the fewest processors that changed it.
module Variants {
  import opened Options

  type Text = seq<nat>  // code points

  // A text on its way through the processors; `steps` counts those that made another text of it.
  datatype Variant = Variant(text: Text, steps: nat)

  // A list of steps: a single builtin, or any other list, which is given the limit on the code points
  // it may make and may have several outputs.
  datatype StepList = Builtin(f: Text -> Text) | Steps(apply: (Text, nat) -> seq<Text>)

  datatype Processor = Processor(id: string, optional: bool, keepInput: bool, lists: seq<StepList>)

  const MAX_TEXT_VARIANTS := 4096
  const INDEX_FROM := 32

  function StepLimit(n: nat): nat { 16 * (n + 32) }

  // ---- What a processor makes of a text

  function ListOutputs(list: StepList, limit: nat, t: Text): seq<Text> {
    match list
    case Builtin(f) => [f(t)]
    case Steps(apply) => apply(t, limit)
  }

  function Outputs(lists: seq<StepList>, limit: nat, t: Text): seq<Text> {
    if lists == [] then []
    else Outputs(lists[..|lists| - 1], limit, t) + ListOutputs(lists[|lists| - 1], limit, t)
  }

  // An output costs a processor unless it is the text itself.
  function StepsTo(v: Variant, output: Text): nat { if output == v.text then v.steps else v.steps + 1 }

  // What a processor keeps of these outputs of a variant, in order: one that is the text itself is
  // left out when the input is kept anyway.
  function Kept(keepInput: bool, v: Variant, outputs: seq<Text>): seq<Variant> {
    if outputs == [] then []
    else
      var n := |outputs| - 1;
      Kept(keepInput, v, outputs[..n])
      + if outputs[n] == v.text && keepInput then [] else [Variant(outputs[n], StepsTo(v, outputs[n]))]
  }

  function Emitted(p: Processor, limit: nat, v: Variant): seq<Variant> {
    Kept(p.keepInput, v, Outputs(p.lists, limit, v.text)) + if p.keepInput then [v] else []
  }

  function EmittedAll(p: Processor, limit: nat, vs: seq<Variant>): seq<Variant> {
    if vs == [] then [] else EmittedAll(p, limit, vs[..|vs| - 1]) + Emitted(p, limit, vs[|vs| - 1])
  }

  lemma {:induction false} KeptStep(keepInput: bool, v: Variant, outputs: seq<Text>, n: nat)
    requires n < |outputs|
    ensures Kept(keepInput, v, outputs[..n + 1]) ==
            Kept(keepInput, v, outputs[..n])
            + if outputs[n] == v.text && keepInput then [] else [Variant(outputs[n], StepsTo(v, outputs[n]))]
  {
    assert outputs[..n + 1][..n] == outputs[..n];
  }

  lemma {:induction false} NothingKept(keepInput: bool, v: Variant)
    ensures Kept(keepInput, v, []) == []
  {
  }

  lemma {:induction false} KeptAppend(keepInput: bool, v: Variant, a: seq<Text>, b: seq<Text>, n: nat)
    requires n <= |b|
    ensures Kept(keepInput, v, a + b[..n]) == Kept(keepInput, v, a) + Kept(keepInput, v, b[..n])
  {
    hide Kept, StepsTo;
    if n == 0 {
      assert a + b[..n] == a && b[..n] == [];
      NothingKept(keepInput, v);
    } else {
      KeptAppend(keepInput, v, a, b, n - 1);
      KeptStep(keepInput, v, b, n - 1);
      var all := a + b[..n];
      KeptStep(keepInput, v, all, |a| + n - 1);
      assert all[..|a| + n] == all && all[..|a| + n - 1] == a + b[..n - 1];
    }
  }

  lemma {:induction false} OutputsStep(lists: seq<StepList>, limit: nat, t: Text, n: nat)
    requires n < |lists|
    ensures Outputs(lists[..n + 1], limit, t) == Outputs(lists[..n], limit, t) + ListOutputs(lists[n], limit, t)
  {
    assert lists[..n + 1][..n] == lists[..n];
  }

  // ---- Keeping each text once, with the fewest steps

  predicate DistinctTexts(vs: seq<Variant>) {
    forall i, j :: 0 <= i < j < |vs| ==> vs[i].text != vs[j].text
  }

  // The kept variants are among those added.
  predicate FromAdded(added: seq<Variant>, vs: seq<Variant>) {
    forall i :: 0 <= i < |vs| ==> vs[i] in added
  }

  // Every variant added is kept, with at most its steps.
  predicate Covers(vs: seq<Variant>, v: Variant) {
    exists i :: 0 <= i < |vs| && vs[i].text == v.text && vs[i].steps <= v.steps
  }

  predicate AllCovered(added: seq<Variant>, vs: seq<Variant>) {
    forall k :: 0 <= k < |added| ==> Covers(vs, added[k])
  }

  function WithMore(vs: seq<Variant>, at: Option<nat>, v: Variant): seq<Variant>
    requires at.Some? ==> at.value < |vs|
  {
    if at.None? then vs + [v]
    else if v.steps < vs[at.value].steps then vs[at.value := vs[at.value].(steps := v.steps)]
    else vs
  }

  lemma MoreCovers(vs: seq<Variant>, at: Option<nat>, v: Variant, other: Variant)
    requires at.Some? ==> at.value < |vs| && vs[at.value].text == v.text
    ensures Covers(WithMore(vs, at, v), v)
    ensures Covers(vs, other) ==> Covers(WithMore(vs, at, v), other)
  {
    var after := WithMore(vs, at, v);
    if Covers(vs, other) {
      var i :| 0 <= i < |vs| && vs[i].text == other.text && vs[i].steps <= other.steps;
      assert after[i].text == other.text && after[i].steps <= other.steps;
    }
    var k := if at.None? then |vs| else at.value;
    assert after[k].text == v.text && after[k].steps <= v.steps;
  }

  lemma AddMore(added: seq<Variant>, vs: seq<Variant>, at: Option<nat>, v: Variant)
    requires at.Some? ==> at.value < |vs| && vs[at.value].text == v.text
    requires at.None? ==> forall i :: 0 <= i < |vs| ==> vs[i].text != v.text
    requires DistinctTexts(vs) && FromAdded(added, vs)
    ensures DistinctTexts(WithMore(vs, at, v)) && FromAdded(added + [v], WithMore(vs, at, v))
    ensures AllCovered(added, vs) ==> AllCovered(added + [v], WithMore(vs, at, v))
  {
    hide Covers;
    var after, more := WithMore(vs, at, v), added + [v];
    forall i | 0 <= i < |after| ensures after[i] in more {
      if i < |vs| && after[i] == vs[i] { assert vs[i] in added; } else { assert after[i] == v && v == more[|added|]; }
    }
    if AllCovered(added, vs) {
      forall k | 0 <= k < |more| ensures Covers(after, more[k]) {
        if k < |added| { MoreCovers(vs, at, v, added[k]); } else { MoreCovers(vs, at, v, v); }
      }
    }
  }

  // What is kept of the variants added: each text once and, below the limit, with its fewest steps.
  predicate KeptOf(added: seq<Variant>, vs: seq<Variant>, limitReached: bool) {
    DistinctTexts(vs) && FromAdded(added, vs) && (!limitReached ==> AllCovered(added, vs))
  }

  lemma KeptMore(added: seq<Variant>, vs: seq<Variant>, limitReached: bool, at: Option<nat>, v: Variant)
    requires at.Some? ==> at.value < |vs| && vs[at.value].text == v.text
    requires at.None? ==> forall i :: 0 <= i < |vs| ==> vs[i].text != v.text
    requires KeptOf(added, vs, limitReached)
    ensures KeptOf(added + [v], WithMore(vs, at, v), limitReached)
    ensures KeptOf(added + [v], WithMore(vs, at, v), true)
    ensures KeptOf(added + [v], vs, true)
  {
    AddMore(added, vs, at, v);
    hide DistinctTexts, AllCovered, WithMore;
  }

  // Where each kept text stands.
  ghost predicate PositionsOf(positions: map<Text, nat>, vs: seq<Variant>) {
    && (forall t :: t in positions ==> positions[t] < |vs| && vs[positions[t]].text == t)
    && (forall k :: 0 <= k < |vs| ==> vs[k].text in positions)
  }

  lemma PositionsMore(positions: map<Text, nat>, vs: seq<Variant>, v: Variant)
    requires PositionsOf(positions, vs) && forall i :: 0 <= i < |vs| ==> vs[i].text != v.text
    ensures PositionsOf(positions[v.text := |vs|], vs + [v])
  {
  }

  lemma PositionsStay(positions: map<Text, nat>, vs: seq<Variant>, at: nat, steps: nat)
    requires PositionsOf(positions, vs) && at < |vs|
    ensures PositionsOf(positions, vs[at := vs[at].(steps := steps)])
  {
  }

  // The variants a processor has produced so far: the first `count` of `items`, whose rest is left over
  // from earlier processors, and their positions once there are many.
  class NextVariants {
    var items: seq<Variant>
    var count: nat
    var positions: Option<map<Text, nat>>
    var limitReached: bool
    ghost const before: bool  // whether an earlier processor reached the limit
    ghost var added: seq<Variant>

    ghost predicate Valid()
      reads this
    {
      && count <= |items| && KeptOf(added, items[..count], limitReached)
      && count <= MAX_TEXT_VARIANTS && (limitReached <==> before || count == MAX_TEXT_VARIANTS)
      && (positions.Some? ==> PositionsOf(positions.value, items[..count]))
    }

    constructor (items: seq<Variant>, limitReached: bool)
      ensures Valid() && count == 0 && positions == None && added == []
      ensures this.items == items && before == limitReached
    {
      this.items, count, positions, this.limitReached, before, added := items, 0, None, limitReached, limitReached, [];
    }

    // The search of the small path: a loop over the kept variants.
    method FindByText(text: Text) returns (at: Option<nat>)
      requires Valid()
      ensures at.Some? ==> at.value < count && items[at.value].text == text
      ensures at.None? ==> forall i :: 0 <= i < count ==> items[i].text != text
    {
      for k := 0 to count
        invariant forall i :: 0 <= i < k ==> items[i].text != text
      {
        if items[k].text == text { return Some(k); }
      }
      return None;
    }

    // find: by the positions once there are any
    method Find(text: Text) returns (at: Option<nat>)
      requires Valid()
      ensures at.Some? ==> at.value < count && items[at.value].text == text
      ensures at.None? ==> forall i :: 0 <= i < count ==> items[i].text != text
    {
      if positions.Some? {
        return if text in positions.value then Some(positions.value[text]) else None;
      }
      at := FindByText(text);
    }

    // Writes behind the kept variants: over a leftover, or at the end.
    method Append(v: Variant)
      requires count <= |items|
      modifies this`items, this`count
      ensures count == old(count) + 1 <= |items| && items[..count] == old(items[..count]) + [v]
    {
      if count < |items| {
        items := items[count := v];
      } else {
        items := items + [v];
      }
      count := count + 1;
    }

    // A text that is there keeps the smaller steps.
    method Lower(at: nat, v: Variant)
      requires at < count <= |items| && (positions.Some? ==> PositionsOf(positions.value, items[..count]))
      modifies this`items
      ensures count <= |items|
      ensures items[..count] ==
              if v.steps < old(items)[at].steps then old(items[..count])[at := old(items)[at].(steps := v.steps)]
              else old(items[..count])
      ensures positions.Some? ==> PositionsOf(positions.value, items[..count])
    {
      if v.steps < items[at].steps {
        if positions.Some? { PositionsStay(positions.value, items[..count], at, v.steps); }
        ghost var was := items[..count];
        items := items[at := items[at].(steps := v.steps)];
        assert items[..count] == was[at := was[at].(steps := v.steps)];
      }
    }

    // The small path keeps a variant without an index and without a limit.
    method AddSmall(v: Variant)
      requires Valid() && positions.None? && count + 1 < MAX_TEXT_VARIANTS
      modifies this
      ensures Valid() && added == old(added) + [v] && positions.None?
      ensures count <= old(count) + 1
    {
      var at := FindByText(v.text);
      KeptMore(added, items[..count], limitReached, at, v);
      hide KeptOf;
      if at.Some? {
        Lower(at.value, v);
      } else {
        Append(v);
      }
      added := added + [v];
    }

    // add_variant
    method Add(v: Variant)
      requires Valid()
      modifies this
      ensures Valid() && added == old(added) + [v]
    {
      var at := Find(v.text);
      KeptMore(added, items[..count], limitReached, at, v);
      hide KeptOf, PositionsOf;
      added := added + [v];
      if at.Some? {
        Lower(at.value, v);
      } else if count >= MAX_TEXT_VARIANTS {
        limitReached := true;
      } else {
        AddNew(v);
        if count == MAX_TEXT_VARIANTS { limitReached := true; }
      }
    }

    // A new text: kept, and indexed.
    method AddNew(v: Variant)
      requires count <= |items| && (positions.Some? ==> PositionsOf(positions.value, items[..count]))
      requires forall i :: 0 <= i < count ==> items[i].text != v.text
      modifies this`items, this`count, this`positions
      ensures count == old(count) + 1 <= |items| && items[..count] == old(items[..count]) + [v]
      ensures positions.Some? ==> PositionsOf(positions.value, items[..count])
    {
      if positions.Some? { PositionsMore(positions.value, items[..count], v); }
      Append(v);
      if positions.Some? {
        positions := Some(positions.value[v.text := count - 1]);
      } else if count > INDEX_FROM {
        var index := IndexAll();
        positions := Some(index);
      }
    }

    // The positions of all the kept variants.
    method IndexAll() returns (index: map<Text, nat>)
      requires count <= |items|
      ensures PositionsOf(index, items[..count])
    {
      index := map[];
      for k := 0 to count
        invariant PositionsOf(index, items[..k])
      {
        index := index[items[k].text := k];
      }
    }
  }
}
