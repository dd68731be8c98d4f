// What run_processors computes (src/languages/steps.cpp): every text the processors can reach, once,
// sorted, with the fewest text-changing processors over all ways to reach it.
module VariantSearch {
  import opened Arithmetic
  import opened Options
  import opened Variants

  // ---- Sorting by code points

  predicate TextLess(a: Text, b: Text) {
    b != [] && (a == [] || a[0] < b[0] || (a[0] == b[0] && TextLess(a[1..], b[1..])))
  }

  lemma {:induction false} TextLessTransitive(a: Text, b: Text, c: Text)
    requires TextLess(a, b) && TextLess(b, c)
    ensures TextLess(a, c)
  {
    if a != [] && a[0] == b[0] == c[0] { TextLessTransitive(a[1..], b[1..], c[1..]); }
  }

  lemma {:induction false} TextLessTotal(a: Text, b: Text)
    ensures a == b || TextLess(a, b) || TextLess(b, a)
    ensures !TextLess(a, a)
  {
    if a != [] && b != [] {
      TextLessTotal(a[1..], b[1..]);
      assert a == [a[0]] + a[1..] && b == [b[0]] + b[1..];
    } else if a != [] {
      TextLessTotal(a[1..], []);
    }
  }

  predicate Sorted(vs: seq<Variant>) {
    forall i, j :: 0 <= i < j < |vs| ==> TextLess(vs[i].text, vs[j].text)
  }

  function Insert(v: Variant, vs: seq<Variant>): seq<Variant> {
    if vs == [] || TextLess(v.text, vs[0].text) then [v] + vs else [vs[0]] + Insert(v, vs[1..])
  }

  // std::sort over variants of distinct texts
  function SortByText(vs: seq<Variant>): seq<Variant> {
    if vs == [] then [] else Insert(vs[0], SortByText(vs[1..]))
  }

  lemma {:induction false} InsertHas(v: Variant, vs: seq<Variant>)
    ensures |Insert(v, vs)| == |vs| + 1
    ensures forall x :: x in Insert(v, vs) <==> x == v || x in vs
  {
    hide TextLess;
    if vs != [] {
      InsertHas(v, vs[1..]);
      assert vs == [vs[0]] + vs[1..];
    }
  }

  lemma {:induction false} InsertSorts(v: Variant, vs: seq<Variant>)
    requires Sorted(vs) && forall i :: 0 <= i < |vs| ==> vs[i].text != v.text
    ensures Sorted(Insert(v, vs))
  {
    hide TextLess;
    if vs != [] {
      TextLessTotal(v.text, vs[0].text);
      if TextLess(v.text, vs[0].text) {
        forall j | 0 < j < |vs| ensures TextLess(v.text, vs[j].text) {
          TextLessTransitive(v.text, vs[0].text, vs[j].text);
        }
      } else {
        InsertSorts(v, vs[1..]);
        InsertHas(v, vs[1..]);
        var rest := Insert(v, vs[1..]);
        forall j | 0 <= j < |rest| ensures TextLess(vs[0].text, rest[j].text) { assert rest[j] in rest; }
      }
    }
  }

  lemma {:induction false} SortSorts(vs: seq<Variant>)
    requires DistinctTexts(vs)
    ensures |SortByText(vs)| == |vs| && Sorted(SortByText(vs))
    ensures forall x :: x in SortByText(vs) <==> x in vs
  {
    hide Insert;
    if vs != [] {
      var rest := SortByText(vs[1..]);
      SortSorts(vs[1..]);
      forall i | 0 <= i < |rest| ensures rest[i].text != vs[0].text {
        assert rest[i] in rest;
        var j :| 0 <= j < |vs[1..]| && vs[1..][j] == rest[i];
        assert vs[j + 1] == rest[i];
      }
      InsertSorts(vs[0], rest);
      InsertHas(vs[0], rest);
      assert vs == [vs[0]] + vs[1..];
    }
  }

  lemma SortedDistinct(vs: seq<Variant>)
    requires Sorted(vs)
    ensures DistinctTexts(vs)
  {
    hide TextLess;
    forall i, j | 0 <= i < j < |vs| ensures vs[i].text != vs[j].text {
      TextLessTotal(vs[i].text, vs[j].text);
    }
  }

  // A strictly sorted list is fixed by its members: whatever path produced them.
  lemma {:induction false} SortedIsUnique(a: seq<Variant>, b: seq<Variant>)
    requires Sorted(a) && Sorted(b) && forall x :: x in a <==> x in b
    ensures a == b
  {
    hide TextLess;
    if a == [] {
      assert forall i :: 0 <= i < |b| ==> b[i] in a;
    } else {
      assert a[0] in b;
      SortedDistinct(a);
      SortedDistinct(b);
      FirstIsLeast(a, b[0]);
      FirstIsLeast(b, a[0]);
      if a[0] != b[0] { TextLessTransitive(a[0].text, b[0].text, a[0].text); TextLessTotal(a[0].text, a[0].text); }
      forall x ensures x in a[1..] <==> x in b[1..] {
        if x in a[1..] { assert x in a; RestDiffers(a, x); }
        if x in b[1..] { assert x in b; RestDiffers(b, x); }
        assert a == [a[0]] + a[1..] && b == [b[0]] + b[1..];
      }
      SortedIsUnique(a[1..], b[1..]);
      assert a == [a[0]] + a[1..] && b == [b[0]] + b[1..];
    }
  }

  lemma FirstIsLeast(a: seq<Variant>, x: Variant)
    requires Sorted(a) && x in a
    ensures x == a[0] || TextLess(a[0].text, x.text)
  {
  }

  lemma RestDiffers(a: seq<Variant>, x: Variant)
    requires a != [] && DistinctTexts(a) && x in a[1..]
    ensures x != a[0]
  {
    var i :| 0 <= i < |a[1..]| && a[1..][i] == x;
    assert a[i + 1] == x;
  }

  // ---- Ways through the processors

  predicate Skipped(p: Processor, enabled: set<string>) {
    p.optional && p.id !in enabled
  }

  // A processor can make `to` of `from`.
  predicate Makes(p: Processor, enabled: set<string>, limit: nat, from: Text, to: Text) {
    if Skipped(p, enabled) then to == from
    else to in Outputs(p.lists, limit, from) || (p.keepInput && to == from)
  }

  predicate Way(ps: seq<Processor>, enabled: set<string>, limit: nat, texts: seq<Text>) {
    && |texts| == |ps| + 1
    && forall i :: 0 <= i < |ps| ==> Makes(ps[i], enabled, limit, texts[i], texts[i + 1])
  }

  // How many processors changed the text on the way.
  function Changes(texts: seq<Text>): nat {
    if |texts| < 2 then 0
    else
      var n := |texts| - 1;
      Changes(texts[..n]) + if texts[n] == texts[n - 1] then 0 else 1
  }

  // A way from the input to the variant's text with its number of changes.
  ghost predicate Reached(ps: seq<Processor>, enabled: set<string>, limit: nat, input: Text, v: Variant) {
    exists texts :: IsWayTo(ps, enabled, limit, input, v, texts)
  }

  ghost predicate IsWayTo(ps: seq<Processor>, enabled: set<string>, limit: nat, input: Text, v: Variant,
                          texts: seq<Text>)
  {
    Way(ps, enabled, limit, texts) && texts[0] == input && texts[|ps|] == v.text && Changes(texts) == v.steps
  }

  // Every variant is reached with its number of changes; none is reached with fewer, and none is
  // missing, unless the limit on variants was reached.
  ghost predicate Found(ps: seq<Processor>, enabled: set<string>, limit: nat, input: Text, vs: seq<Variant>,
                        limitReached: bool)
  {
    && Sorted(vs)
    && (forall k :: 0 <= k < |vs| ==> Reached(ps, enabled, limit, input, vs[k]))
    && (!limitReached ==> forall v :: Reached(ps, enabled, limit, input, v) ==> Covers(vs, v))
  }

  lemma {:induction false} KeptIs(keepInput: bool, v: Variant, outputs: seq<Text>, w: Variant)
    ensures w in Kept(keepInput, v, outputs) <==>
            w.text in outputs && w.steps == StepsTo(v, w.text) && !(w.text == v.text && keepInput)
  {
    if outputs != [] {
      var n := |outputs| - 1;
      KeptIs(keepInput, v, outputs[..n], w);
      assert outputs == outputs[..n] + [outputs[n]];
    }
  }

  lemma EmittedIs(p: Processor, enabled: set<string>, limit: nat, v: Variant, w: Variant)
    requires !Skipped(p, enabled)
    ensures w in Emitted(p, limit, v) <==> Makes(p, enabled, limit, v.text, w.text) && w.steps == StepsTo(v, w.text)
  {
    KeptIs(p.keepInput, v, Outputs(p.lists, limit, v.text), w);
  }

  lemma {:induction false} EmittedAllIs(p: Processor, limit: nat, vs: seq<Variant>, w: Variant)
    ensures w in EmittedAll(p, limit, vs) <==> exists k :: 0 <= k < |vs| && w in Emitted(p, limit, vs[k])
  {
    if vs != [] {
      var n := |vs| - 1;
      EmittedAllIs(p, limit, vs[..n], w);
      assert EmittedAll(p, limit, vs) == EmittedAll(p, limit, vs[..n]) + Emitted(p, limit, vs[n]);
      hide Emitted, EmittedAll;
      if k :| 0 <= k < |vs| && w in Emitted(p, limit, vs[k]) {
        if k < n { assert vs[..n][k] == vs[k]; }
      }
    }
  }

  lemma ChangesStep(texts: seq<Text>, n: nat)
    requires 0 < n < |texts|
    ensures Changes(texts[..n + 1]) == Changes(texts[..n]) + if texts[n] == texts[n - 1] then 0 else 1
  {
    assert texts[..n + 1][..n] == texts[..n];
  }

  // A way one processor further.
  lemma WayOn(ps: seq<Processor>, enabled: set<string>, limit: nat, input: Text, v: Variant, texts: seq<Text>,
              w: Variant)
    requires ps != []
    requires IsWayTo(ps[..|ps| - 1], enabled, limit, input, v, texts)
    requires Makes(ps[|ps| - 1], enabled, limit, v.text, w.text) && w.steps == StepsTo(v, w.text)
    ensures IsWayTo(ps, enabled, limit, input, w, texts + [w.text])
  {
    hide Makes;
    var n := |ps| - 1;
    var more := texts + [w.text];
    forall i | 0 <= i < |ps| ensures Makes(ps[i], enabled, limit, more[i], more[i + 1]) {
      if i < n { assert Makes(ps[..n][i], enabled, limit, texts[i], texts[i + 1]); }
    }
    ChangesStep(more, n + 1);
    assert more[..n + 1] == texts && more[..n + 2] == more;
  }

  // A way without its last processor.
  lemma WayBack(ps: seq<Processor>, enabled: set<string>, limit: nat, input: Text, w: Variant, texts: seq<Text>)
    returns (v: Variant)
    requires ps != [] && IsWayTo(ps, enabled, limit, input, w, texts)
    ensures Reached(ps[..|ps| - 1], enabled, limit, input, v)
    ensures Makes(ps[|ps| - 1], enabled, limit, v.text, w.text) && w.steps == StepsTo(v, w.text)
  {
    hide Makes;
    var n := |ps| - 1;
    var less := texts[..n + 1];
    ChangesStep(texts, n + 1);
    assert texts[..n + 2] == texts;
    v := Variant(texts[n], Changes(less));
    forall i | 0 <= i < n ensures Makes(ps[..n][i], enabled, limit, less[i], less[i + 1]) {
      assert Makes(ps[i], enabled, limit, texts[i], texts[i + 1]);
    }
    assert IsWayTo(ps[..n], enabled, limit, input, v, less);
  }

  // A processor that is not run leaves what was found.
  lemma SkipKeepsFound(ps: seq<Processor>, enabled: set<string>, limit: nat, input: Text, vs: seq<Variant>,
                       reached: bool)
    requires ps != [] && Skipped(ps[|ps| - 1], enabled)
    requires Found(ps[..|ps| - 1], enabled, limit, input, vs, reached)
    ensures Found(ps, enabled, limit, input, vs, reached)
  {
    hide Way, Sorted, IsWayTo;
    var before := ps[..|ps| - 1];
    forall k | 0 <= k < |vs| ensures Reached(ps, enabled, limit, input, vs[k]) {
      var texts :| IsWayTo(before, enabled, limit, input, vs[k], texts);
      WayOn(ps, enabled, limit, input, vs[k], texts, vs[k]);
    }
    forall w | Reached(ps, enabled, limit, input, w) ensures Reached(before, enabled, limit, input, w) {
      var texts :| IsWayTo(ps, enabled, limit, input, w, texts);
      var v := WayBack(ps, enabled, limit, input, w, texts);
      assert v == w;
    }
  }

  // Keeping what a processor emits, each text once with its fewest steps, keeps what the processors up
  // to it reach.
  lemma StepKeepsFound(ps: seq<Processor>, enabled: set<string>, limit: nat, input: Text, vs: seq<Variant>,
                       reached: bool, kept: seq<Variant>, reached': bool)
    requires ps != [] && !Skipped(ps[|ps| - 1], enabled) && (reached ==> reached')
    requires Found(ps[..|ps| - 1], enabled, limit, input, vs, reached)
    requires KeptOf(EmittedAll(ps[|ps| - 1], limit, vs), kept, reached')
    ensures Found(ps, enabled, limit, input, SortByText(kept), reached')
  {
    hide Way, Sorted, IsWayTo, Emitted, EmittedAll, Makes, SortByText;
    SortSorts(kept);
    var sorted := SortByText(kept);
    forall k | 0 <= k < |sorted| ensures Reached(ps, enabled, limit, input, sorted[k]) {
      assert sorted[k] in sorted;
      KeptReached(ps, enabled, limit, input, vs, kept, sorted[k]);
    }
    if !reached' {
      forall w | Reached(ps, enabled, limit, input, w) ensures Covers(sorted, w) {
        WayCovered(ps, enabled, limit, input, vs, kept, w);
        var i :| 0 <= i < |kept| && kept[i].text == w.text && kept[i].steps <= w.steps;
        assert kept[i] in sorted;
      }
    }
  }

  lemma {:induction false} KeptReached(ps: seq<Processor>, enabled: set<string>, limit: nat, input: Text,
                                       vs: seq<Variant>,
                                       kept: seq<Variant>, w: Variant)
    requires ps != [] && !Skipped(ps[|ps| - 1], enabled) && w in kept
    requires forall k :: 0 <= k < |vs| ==> Reached(ps[..|ps| - 1], enabled, limit, input, vs[k])
    requires FromAdded(EmittedAll(ps[|ps| - 1], limit, vs), kept)
    ensures Reached(ps, enabled, limit, input, w)
  {
    hide IsWayTo, Emitted, EmittedAll, Makes;
    var p := ps[|ps| - 1];
    EmittedAllIs(p, limit, vs, w);
    var k :| 0 <= k < |vs| && w in Emitted(p, limit, vs[k]);
    EmittedIs(p, enabled, limit, vs[k], w);
    var texts :| IsWayTo(ps[..|ps| - 1], enabled, limit, input, vs[k], texts);
    WayOn(ps, enabled, limit, input, vs[k], texts, w);
  }

  lemma WayCovered(ps: seq<Processor>, enabled: set<string>, limit: nat, input: Text, vs: seq<Variant>,
                   kept: seq<Variant>, w: Variant)
    requires ps != [] && !Skipped(ps[|ps| - 1], enabled) && Reached(ps, enabled, limit, input, w)
    requires forall v :: Reached(ps[..|ps| - 1], enabled, limit, input, v) ==> Covers(vs, v)
    requires AllCovered(EmittedAll(ps[|ps| - 1], limit, vs), kept)
    ensures Covers(kept, w)
  {
    hide IsWayTo, Emitted, EmittedAll, Makes;
    var p := ps[|ps| - 1];
    var texts :| IsWayTo(ps, enabled, limit, input, w, texts);
    var v := WayBack(ps, enabled, limit, input, w, texts);
    assert Covers(vs, v);
    var i :| 0 <= i < |vs| && vs[i].text == v.text && vs[i].steps <= v.steps;
    var e := Variant(w.text, StepsTo(vs[i], w.text));
    EmittedIs(p, enabled, limit, vs[i], e);
    EmittedAllIs(p, limit, vs, e);
    var k :| 0 <= k < |EmittedAll(p, limit, vs)| && EmittedAll(p, limit, vs)[k] == e;
    assert Covers(kept, e);
  }

  // ---- The processors

  // finish(): the builtins of a processor all of whose lists are single builtins; none otherwise.
  ghost predicate BuiltinsOf(lists: seq<StepList>, builtins: seq<Text -> Text>) {
    && |builtins| == |lists|
    && forall i :: 0 <= i < |lists| ==> lists[i].Builtin? && lists[i].f == builtins[i]
  }

  method Finish(lists: seq<StepList>) returns (builtins: seq<Text -> Text>)
    ensures builtins == [] || BuiltinsOf(lists, builtins)
    ensures (forall i :: 0 <= i < |lists| ==> lists[i].Builtin?) ==> BuiltinsOf(lists, builtins)
  {
    builtins := [];
    for k := 0 to |lists|
      invariant |builtins| == k && forall i :: 0 <= i < k ==> lists[i].Builtin? && lists[i].f == builtins[i]
    {
      match lists[k]
      case Builtin(f) => builtins := builtins + [f];
      case Steps(_) => return [];
    }
  }

  // One more output of a variant: left out when it is the input and that is kept anyway.
  lemma {:induction false} OutputEmits(p: Processor, v: Variant, outputs: seq<Text>, output: Text)
    ensures Kept(p.keepInput, v, outputs + [output]) ==
            Kept(p.keepInput, v, outputs)
            + if output == v.text && p.keepInput then [] else [Variant(output, StepsTo(v, output))]
  {
    KeptStep(p.keepInput, v, outputs + [output], |outputs|);
    assert (outputs + [output])[..|outputs| + 1] == outputs + [output] && (outputs + [output])[..|outputs|] == outputs;
  }

  lemma StepsMore(v: Variant, output: Text)
    ensures Variant(output, StepsTo(v, output)) == if output == v.text then v else Variant(output, v.steps + 1)
  {
  }

  // The builtins of one variant, on the small path.
  method SmallVariant(p: Processor, builtins: seq<Text -> Text>, limit: nat, v: Variant, next: NextVariants)
    requires next.Valid() && next.positions.None? && BuiltinsOf(p.lists, builtins)
    requires next.count + |builtins| + 1 < MAX_TEXT_VARIANTS
    modifies next
    ensures next.Valid() && next.positions.None?
    ensures next.added == old(next.added) + Emitted(p, limit, v)
    ensures next.count <= old(next.count) + |builtins| + 1
  {
    hide Kept, Outputs, KeptOf, PositionsOf;
    ghost var outputs := [];
    NothingKept(p.keepInput, v);
    NoOutputs(limit, v.text);
    assert p.lists[..0] == [];
    for k := 0 to |builtins|
      invariant next.Valid() && next.positions.None?
      invariant next.count <= old(next.count) + k && outputs == Outputs(p.lists[..k], limit, v.text)
      invariant next.added == old(next.added) + Kept(p.keepInput, v, outputs)
    {
      var scratch := builtins[k](v.text);
      OutputsStep(p.lists, limit, v.text, k);
      OutputEmits(p, v, outputs, scratch);
      outputs := outputs + [scratch];
      var same := scratch == v.text;
      if same && p.keepInput { continue; }
      next.AddSmall(Variant(scratch, if same then v.steps else v.steps + 1));
    }
    assert p.lists[..|builtins|] == p.lists;
    if p.keepInput { next.AddSmall(v); }
  }

  // The builtins of one variant, on the indexed path.
  method IndexedVariant(p: Processor, builtins: seq<Text -> Text>, limit: nat, v: Variant, next: NextVariants)
    requires next.Valid() && BuiltinsOf(p.lists, builtins)
    modifies next
    ensures next.Valid()
    ensures next.added == old(next.added) + Emitted(p, limit, v)
  {
    hide Kept, Outputs, KeptOf, PositionsOf;
    ghost var outputs := [];
    NothingKept(p.keepInput, v);
    NoOutputs(limit, v.text);
    assert p.lists[..0] == [];
    for k := 0 to |builtins|
      invariant next.Valid()
      invariant outputs == Outputs(p.lists[..k], limit, v.text)
      invariant next.added == old(next.added) + Kept(p.keepInput, v, outputs)
    {
      var scratch := builtins[k](v.text);
      OutputsStep(p.lists, limit, v.text, k);
      OutputEmits(p, v, outputs, scratch);
      outputs := outputs + [scratch];
      if scratch == v.text {
        if !p.keepInput { next.Add(v); }
      } else {
        next.Add(Variant(scratch, v.steps + 1));
      }
    }
    assert p.lists[..|builtins|] == p.lists;
    if p.keepInput { next.Add(v); }
  }

  // The outputs of one step list of a variant.
  method AddOutputs(p: Processor, v: Variant, some: seq<Text>, next: NextVariants, ghost outputs: seq<Text>,
                    ghost base: seq<Variant>)
    requires next.Valid() && next.added == base + Kept(p.keepInput, v, outputs)
    modifies next
    ensures next.Valid()
    ensures next.added == base + Kept(p.keepInput, v, outputs + some)
  {
    hide *;
    assert outputs + some[..0] == outputs;
    for k := 0 to |some|
      invariant next.Valid()
      invariant next.added == base + Kept(p.keepInput, v, outputs + some[..k])
    {
      OutputEmits(p, v, outputs + some[..k], some[k]);
      StepsMore(v, some[k]);
      assert outputs + some[..k] + [some[k]] == outputs + some[..k + 1];
      if some[k] == v.text {
        if !p.keepInput { next.Add(v); }
      } else {
        next.Add(Variant(some[k], v.steps + 1));
      }
    }
    assert some[..|some|] == some;
  }

  // The step lists of one variant.
  method ListsVariant(p: Processor, limit: nat, v: Variant, next: NextVariants)
    requires next.Valid()
    modifies next
    ensures next.Valid()
    ensures next.added == old(next.added) + Emitted(p, limit, v)
  {
    hide Kept, Outputs, KeptOf, PositionsOf;
    ghost var base := next.added;
    NothingKept(p.keepInput, v);
    NoOutputs(limit, v.text);
    assert p.lists[..0] == [];
    for k := 0 to |p.lists|
      invariant next.Valid()
      invariant next.added == base + Kept(p.keepInput, v, Outputs(p.lists[..k], limit, v.text))
    {
      OutputsStep(p.lists, limit, v.text, k);
      match p.lists[k]
      case Builtin(f) => AddOutputs(p, v, [f(v.text)], next, Outputs(p.lists[..k], limit, v.text), base);
      case Steps(apply) => AddOutputs(p, v, apply(v.text, limit), next, Outputs(p.lists[..k], limit, v.text), base);
    }
    assert p.lists[..|p.lists|] == p.lists;
    if p.keepInput { next.Add(v); }
  }

  lemma {:induction false} NoOutputs(limit: nat, t: Text)
    ensures Outputs([], limit, t) == []
  {
  }

  lemma {:induction false} EmittedStep(p: Processor, limit: nat, vs: seq<Variant>, n: nat)
    requires n < |vs|
    ensures EmittedAll(p, limit, vs[..n + 1]) == EmittedAll(p, limit, vs[..n]) + Emitted(p, limit, vs[n])
    ensures EmittedAll(p, limit, []) == []
  {
    hide Emitted;
    assert vs[..n + 1][..n] == vs[..n];
  }

  // Whichever of its three paths it takes, a processor adds the same variants in the same order.
  method RunProcessor(p: Processor, limit: nat, variants: seq<Variant>, count: nat, leftover: seq<Variant>,
                      limitReached: bool)
    returns (next: NextVariants)
    requires count <= |variants|
    ensures fresh(next) && next.Valid() && next.before == limitReached
    ensures next.added == EmittedAll(p, limit, variants[..count])
  {
    hide Emitted, EmittedAll;
    var builtins := Finish(p.lists);
    next := new NextVariants(leftover, limitReached);
    ghost var vs := variants[..count];
    assert vs[..0] == [];
    NothingEmitted(p, limit);
    var small := builtins != [] && count * (|builtins| + 1) <= INDEX_FROM;
    for vi := 0 to count
      invariant fresh(next) && next.Valid() && next.before == limitReached
      invariant small ==> next.positions.None? && next.count <= vi * (|builtins| + 1)
      invariant next.added == EmittedAll(p, limit, vs[..vi])
    {
      EmittedStep(p, limit, vs, vi);
      assert (vi + 1) * (|builtins| + 1) == vi * (|builtins| + 1) + |builtins| + 1;
      if small {
        TimesGrows(|builtins| + 1, vi + 1, count);
        SmallVariant(p, builtins, limit, variants[vi], next);
      } else if builtins != [] {
        IndexedVariant(p, builtins, limit, variants[vi], next);
      } else {
        ListsVariant(p, limit, variants[vi], next);
      }
    }
    assert vs[..count] == vs;
    assert small ==> next.count <= INDEX_FROM;
  }

  lemma {:induction false} NothingEmitted(p: Processor, limit: nat)
    ensures EmittedAll(p, limit, []) == []
  {
  }

  // ---- The limit on variants

  ghost predicate ManyReached(ps: seq<Processor>, enabled: set<string>, limit: nat, input: Text, vs: seq<Variant>) {
    && |vs| == MAX_TEXT_VARIANTS && DistinctTexts(vs)
    && forall k :: 0 <= k < |vs| ==> Reached(ps, enabled, limit, input, vs[k])
  }

  // These processors reach as many texts as are kept, or more.
  ghost predicate Crowded(ps: seq<Processor>, enabled: set<string>, limit: nat, input: Text) {
    exists vs :: ManyReached(ps, enabled, limit, input, vs)
  }

  // The first n processors do, or fewer of them.
  ghost predicate EverCrowded(ps: seq<Processor>, enabled: set<string>, limit: nat, input: Text, n: nat)
    requires n <= |ps|
  {
    exists m :: 0 <= m <= n && Crowded(ps[..m], enabled, limit, input)
  }

  // Distinct texts from a set are no more than it has.
  lemma {:induction false} DistinctFit(vs: seq<Variant>, texts: set<Text>)
    requires DistinctTexts(vs) && forall k :: 0 <= k < |vs| ==> vs[k].text in texts
    ensures |vs| <= |texts|
  {
    if vs != [] {
      var n := |vs| - 1;
      DistinctFit(vs[..n], texts - {vs[n].text});
    }
  }

  ghost function TextsOf(vs: seq<Variant>): (r: set<Text>)
    ensures |r| <= |vs|
    ensures forall k :: 0 <= k < |vs| ==> vs[k].text in r
  {
    if vs == [] then {}
    else
      var rest := TextsOf(vs[..|vs| - 1]);
      assert forall k :: 0 <= k < |vs| - 1 ==> vs[k] == vs[..|vs| - 1][k];
      rest + {vs[|vs| - 1].text}
  }

  // When fewer than the limit are found and none is missing, no more than these can be reached.
  lemma NotCrowded(ps: seq<Processor>, enabled: set<string>, limit: nat, input: Text, vs: seq<Variant>)
    requires Found(ps, enabled, limit, input, vs, false) && |vs| < MAX_TEXT_VARIANTS
    ensures !Crowded(ps, enabled, limit, input)
  {
    hide Reached, DistinctTexts;
    forall many: seq<Variant> | ManyReached(ps, enabled, limit, input, many) ensures false {
      forall k | 0 <= k < |many| ensures many[k].text in TextsOf(vs) { assert Covers(vs, many[k]); }
      DistinctFit(many, TextsOf(vs));
    }
  }

  lemma FullIsCrowded(ps: seq<Processor>, enabled: set<string>, limit: nat, input: Text, vs: seq<Variant>,
                      reached: bool)
    requires Found(ps, enabled, limit, input, vs, reached) && |vs| == MAX_TEXT_VARIANTS
    ensures Crowded(ps, enabled, limit, input)
  {
    hide Reached;
    SortedDistinct(vs);
    assert ManyReached(ps, enabled, limit, input, vs);
  }

  // The limit, one processor further.
  lemma CrowdedNext(ps: seq<Processor>, enabled: set<string>, limit: nat, input: Text, n: nat, vs: seq<Variant>,
                    before: bool, reached: bool)
    requires n < |ps| && (before <==> EverCrowded(ps, enabled, limit, input, n))
    requires Found(ps[..n + 1], enabled, limit, input, vs, reached) && |vs| <= MAX_TEXT_VARIANTS
    requires reached <==> before || |vs| == MAX_TEXT_VARIANTS
    ensures reached <==> EverCrowded(ps, enabled, limit, input, n + 1)
  {
    hide Found, Crowded;
    if before {
      var m :| 0 <= m <= n && Crowded(ps[..m], enabled, limit, input);
    } else if reached {
      FullIsCrowded(ps[..n + 1], enabled, limit, input, vs, reached);
    } else {
      NotCrowded(ps[..n + 1], enabled, limit, input, vs);
    }
  }

  // run_processors: every text the processors reach, once, sorted, with the fewest that changed it; and
  // whether some processor came to the limit, which is when the ones up to it reach that many texts.
  method RunProcessors(processors: seq<Processor>, enabled: set<string>, input: Text)
    returns (result: seq<Variant>, limitReached: bool)
    ensures Found(processors, enabled, StepLimit(|input|), input, result, limitReached)
    ensures |result| <= MAX_TEXT_VARIANTS
    ensures limitReached <==> EverCrowded(processors, enabled, StepLimit(|input|), input, |processors|)
  {
    hide Found, EmittedAll, KeptOf, Crowded;
    var limit := StepLimit(|input|);
    var variants, count, nextItems: seq<Variant> := [Variant(input, 0)], 1, [];
    limitReached := false;
    InputFound(enabled, limit, input);
    NotCrowded([], enabled, limit, input, variants);
    assert processors[..0] == [] && variants[..1] == variants;
    for n := 0 to |processors|
      invariant count <= |variants|
      invariant Found(processors[..n], enabled, limit, input, variants[..count], limitReached)
      invariant count <= MAX_TEXT_VARIANTS && (count == MAX_TEXT_VARIANTS ==> limitReached)
      invariant limitReached <==> EverCrowded(processors, enabled, limit, input, n)
    {
      var p := processors[n];
      assert processors[..n + 1][..n] == processors[..n];
      if Skipped(p, enabled) {
        SkipKeepsFound(processors[..n + 1], enabled, limit, input, variants[..count], limitReached);
        CrowdedNext(processors, enabled, limit, input, n, variants[..count], limitReached, limitReached);
        continue;
      }
      var next := RunProcessor(p, limit, variants, count, nextItems, limitReached);
      var kept := next.items[..next.count];
      StepKeepsFound(processors[..n + 1], enabled, limit, input, variants[..count], limitReached, kept,
                     next.limitReached);
      KeptDistinct(next.added, kept, next.limitReached);
      SortSorts(kept);
      CrowdedNext(processors, enabled, limit, input, n, SortByText(kept), limitReached, next.limitReached);
      nextItems := variants;
      variants := SortByText(kept) + next.items[next.count..];
      count, limitReached := next.count, next.limitReached;
      assert variants[..count] == SortByText(kept);
    }
    assert processors[..|processors|] == processors;
    result := variants[..count];
  }

  lemma KeptDistinct(added: seq<Variant>, vs: seq<Variant>, limitReached: bool)
    requires KeptOf(added, vs, limitReached)
    ensures DistinctTexts(vs)
  {
  }

  lemma InputFound(enabled: set<string>, limit: nat, input: Text)
    ensures Found([], enabled, limit, input, [Variant(input, 0)], false)
  {
    var only := [Variant(input, 0)];
    assert IsWayTo([], enabled, limit, input, only[0], [input]);
    forall v | Reached([], enabled, limit, input, v) ensures Covers(only, v) {
      var texts :| IsWayTo([], enabled, limit, input, v, texts);
      assert only[0].text == v.text && only[0].steps <= v.steps;
    }
  }

  // Below the limit on variants each variant has the fewest changes of any way to its text, and no text
  // that can be reached is missing.
  lemma {:induction false} FewestChanges(ps: seq<Processor>, enabled: set<string>, limit: nat, input: Text,
                                         vs: seq<Variant>,
                                         texts: seq<Text>)
    requires Found(ps, enabled, limit, input, vs, false) && Way(ps, enabled, limit, texts) && texts[0] == input
    ensures exists k :: 0 <= k < |vs| && vs[k].text == texts[|ps|]
    ensures forall k :: 0 <= k < |vs| && vs[k].text == texts[|ps|] ==> vs[k].steps <= Changes(texts)
  {
    var v := Variant(texts[|ps|], Changes(texts));
    assert IsWayTo(ps, enabled, limit, input, v, texts);
    assert Covers(vs, v);
    SortedDistinct(vs);
  }

  lemma SameVariant(vs: seq<Variant>, x: Variant, y: Variant)
    requires Sorted(vs) && x in vs && y in vs && x.text == y.text
    ensures x == y
  {
    SortedDistinct(vs);
  }

  // What one result has, another has with no more steps.
  lemma FoundCovers(ps: seq<Processor>, enabled: set<string>, limit: nat, input: Text, a: seq<Variant>,
                    b: seq<Variant>, x: Variant) returns (y: Variant)
    requires Found(ps, enabled, limit, input, a, false) && Found(ps, enabled, limit, input, b, false) && x in a
    ensures y in b && y.text == x.text && y.steps <= x.steps
  {
    hide Sorted, Reached;
    var k :| 0 <= k < |a| && a[k] == x;
    assert Reached(ps, enabled, limit, input, a[k]);
    assert Covers(b, x);
    var i :| 0 <= i < |b| && b[i].text == x.text && b[i].steps <= x.steps;
    y := b[i];
  }

  lemma FoundIncludes(ps: seq<Processor>, enabled: set<string>, limit: nat, input: Text, a: seq<Variant>,
                      b: seq<Variant>, x: Variant)
    requires Found(ps, enabled, limit, input, a, false) && Found(ps, enabled, limit, input, b, false) && x in a
    ensures x in b
  {
    var y := FoundCovers(ps, enabled, limit, input, a, b, x);
    var z := FoundCovers(ps, enabled, limit, input, b, a, y);
    hide Sorted, Reached, Covers;
    SameVariant(a, x, z);
  }

  // So the result is fixed: whatever paths the processors took, two runs below the limit agree.
  lemma FoundIsUnique(ps: seq<Processor>, enabled: set<string>, limit: nat, input: Text, a: seq<Variant>,
                      b: seq<Variant>)
    requires Found(ps, enabled, limit, input, a, false) && Found(ps, enabled, limit, input, b, false)
    ensures a == b
  {
    forall x ensures x in a <==> x in b {
      if x in a { FoundIncludes(ps, enabled, limit, input, a, b, x); }
      if x in b { FoundIncludes(ps, enabled, limit, input, b, a, x); }
    }
    SortedIsUnique(a, b);
  }
}
