// The finished tries (TransformSet::finish, Trie::child, src/languages/transforms.cpp and
// transforms.hpp): each node's edges contiguous and sorted, each node's rules contiguous in file order.
module Trie {
  import opened Options
  import opened TrieBuilding

  datatype Edge = Edge(c: nat, child: nat)

  datatype Span = Span(begin: nat, end: nat)

  datatype Trie = Trie(children: seq<Span>, edges: seq<Edge>, rules: seq<Span>, nodeRules: seq<nat>)

  // ---- The edges of a node

  predicate Ascending(edges: seq<Edge>) {
    forall i, j :: 0 <= i < j < |edges| ==> edges[i].c < edges[j].c
  }

  function InsertEdge(x: Edge, edges: seq<Edge>): seq<Edge> {
    if edges == [] || x.c < edges[0].c then [x] + edges else [edges[0]] + InsertEdge(x, edges[1..])
  }

  // std::sort by code point
  function SortEdges(edges: seq<Edge>): seq<Edge> {
    if edges == [] then [] else InsertEdge(edges[0], SortEdges(edges[1..]))
  }

  lemma {:induction false} InsertEdgeHas(x: Edge, edges: seq<Edge>)
    ensures |InsertEdge(x, edges)| == |edges| + 1
    ensures forall y :: y in InsertEdge(x, edges) <==> y == x || y in edges
  {
    if edges != [] {
      InsertEdgeHas(x, edges[1..]);
      assert edges == [edges[0]] + edges[1..];
    }
  }

  lemma {:induction false} InsertEdgeSorts(x: Edge, edges: seq<Edge>)
    requires Ascending(edges) && forall i :: 0 <= i < |edges| ==> edges[i].c != x.c
    ensures Ascending(InsertEdge(x, edges))
  {
    if edges != [] && x.c > edges[0].c {
      InsertEdgeSorts(x, edges[1..]);
      InsertEdgeHas(x, edges[1..]);
      var rest := InsertEdge(x, edges[1..]);
      forall j | 0 <= j < |rest| ensures edges[0].c < rest[j].c {
        assert rest[j] in rest;
        if rest[j] != x {
          var k :| 0 <= k < |edges[1..]| && edges[1..][k] == rest[j];
          assert edges[k + 1] == rest[j];
        }
      }
    }
  }

  predicate DistinctCodes(edges: seq<Edge>) {
    forall i, j :: 0 <= i < j < |edges| ==> edges[i].c != edges[j].c
  }

  lemma {:induction false} SortEdgesSorts(edges: seq<Edge>)
    requires DistinctCodes(edges)
    ensures |SortEdges(edges)| == |edges| && Ascending(SortEdges(edges))
    ensures forall y :: y in SortEdges(edges) <==> y in edges
  {
    hide InsertEdge;
    if edges != [] {
      var rest := SortEdges(edges[1..]);
      SortEdgesSorts(edges[1..]);
      InsertEdgeHas(edges[0], rest);
      forall i | 0 <= i < |rest| ensures rest[i].c != edges[0].c {
        assert rest[i] in rest;
        var j :| 0 <= j < |edges[1..]| && edges[1..][j] == rest[i];
        assert edges[j + 1] == rest[i];
      }
      InsertEdgeSorts(edges[0], rest);
      assert edges == [edges[0]] + edges[1..];
    }
  }

  // The edges of a node among those from place `from` on.
  ghost predicate EdgesOf(parents: seq<nat>, edges: seq<BuildEdge>, node: nat, from: nat, list: seq<Edge>)
    requires |parents| == |edges|
  {
    && (forall i :: 0 <= i < |list| ==> IsEdge(parents, edges, node, from, list[i]))
    && (forall k :: from <= k < |edges| && parents[k] == node ==> Edge(edges[k].c, edges[k].child) in list)
  }

  ghost predicate IsEdge(parents: seq<nat>, edges: seq<BuildEdge>, node: nat, from: nat, x: Edge)
    requires |parents| == |edges|
  {
    exists k :: from <= k < |edges| && parents[k] == node && x == Edge(edges[k].c, edges[k].child)
  }

  lemma EdgesMore(parents: seq<nat>, edges: seq<BuildEdge>, node: nat, from: nat, e: nat, list: seq<Edge>)
    requires |parents| == |edges| && e < from <= |edges| && parents[e] == node
    requires forall k :: e < k < from ==> parents[k] != node
    requires EdgesOf(parents, edges, node, from, list)
    ensures EdgesOf(parents, edges, node, e, [Edge(edges[e].c, edges[e].child)] + list)
  {
    var more := [Edge(edges[e].c, edges[e].child)] + list;
    forall i | 0 <= i < |more| ensures IsEdge(parents, edges, node, e, more[i]) {
      if i > 0 {
        assert more[i] == list[i - 1];
        var k :| from <= k < |edges| && parents[k] == node && more[i] == Edge(edges[k].c, edges[k].child);
      }
    }
  }

  // Two edges of a node have different code points: no two nodes spell the same.
  lemma CodesDiffer(labels: seq<Key>, parents: seq<nat>, edges: seq<BuildEdge>, k: nat, l: nat)
    requires Tree(labels, parents, edges) && k < l < |edges| && parents[k] == parents[l]
    ensures edges[k].c != edges[l].c
  {
    hide LastFrom;
    assert SpellsOn(labels, parents, edges, k) && SpellsOn(labels, parents, edges, l);
    assert labels[k + 1] != labels[l + 1];
  }

  lemma NewDiffers(labels: seq<Key>, parents: seq<nat>, edges: seq<BuildEdge>, node: nat, from: nat, e: nat,
                   list: seq<Edge>)
    requires Tree(labels, parents, edges) && e < from && e < |edges| && parents[e] == node
    requires EdgesOf(parents, edges, node, from, list) && DistinctCodes(list)
    ensures DistinctCodes([Edge(edges[e].c, edges[e].child)] + list)
  {
    forall i | 0 <= i < |list| ensures list[i].c != edges[e].c {
      assert IsEdge(parents, edges, node, from, list[i]);
      var k :| from <= k < |edges| && parents[k] == node && list[i] == Edge(edges[k].c, edges[k].child);
      CodesDiffer(labels, parents, edges, e, k);
    }
  }

  // A node's children: an edge for each node that spells one code point more, sorted.
  ghost predicate Children(labels: seq<Key>, node: nat, list: seq<Edge>)
    requires node < |labels|
  {
    && Ascending(list)
    && (forall i :: 0 <= i < |list| ==>
          list[i].child < |labels| && labels[list[i].child] == labels[node] + [list[i].c])
    && (forall m, c :: 0 <= m < |labels| && labels[m] == labels[node] + [c] ==> Edge(c, m) in list)
  }

  lemma {:induction false} SortedChildren(labels: seq<Key>, parents: seq<nat>, edges: seq<BuildEdge>, node: nat,
                                          list: seq<Edge>)
    requires Tree(labels, parents, edges) && node < |labels|
    requires EdgesOf(parents, edges, node, 0, list) && DistinctCodes(list)
    ensures Children(labels, node, SortEdges(list))
  {
    hide LastFrom, SortEdges;
    SortEdgesSorts(list);
    var sorted := SortEdges(list);
    forall i | 0 <= i < |sorted|
      ensures sorted[i].child < |labels| && labels[sorted[i].child] == labels[node] + [sorted[i].c]
    {
      assert sorted[i] in sorted;
      var j :| 0 <= j < |list| && list[j] == sorted[i];
      assert IsEdge(parents, edges, node, 0, list[j]);
      var k :| 0 <= k < |edges| && parents[k] == node && list[j] == Edge(edges[k].c, edges[k].child);
      assert SpellsOn(labels, parents, edges, k);
    }
    forall m, c | 0 <= m < |labels| && labels[m] == labels[node] + [c] ensures Edge(c, m) in sorted {
      assert m > 0;
      assert SpellsOn(labels, parents, edges, m - 1);
      SameStem(labels[parents[m - 1]], edges[m - 1].c, labels[node], c);
      SameNode(labels, parents[m - 1], node);
      assert Edge(edges[m - 1].c, edges[m - 1].child) in list;
    }
  }

  lemma SameNode(labels: seq<Key>, a: nat, b: nat)
    requires a < |labels| && b < |labels| && labels[a] == labels[b]
    requires AllDiffer(labels)
    ensures a == b
  {
  }

  // The loop over a node's list.
  method CollectEdges(builder: TrieBuilder, node: nat) returns (list: seq<Edge>)
    requires builder.Valid() && node < |builder.labels|
    ensures Children(builder.labels, node, list)
  {
    hide Tree, Children, EdgesOf, DistinctCodes;
    ghost var labels, parents, edges := builder.labels, builder.parents, builder.edges;
    builder.SameLengths();
    list := [];
    var e := builder.firstEdge[node];
    ghost var limit: nat := |edges|;
    NoEdges(parents, edges, node);
    while e.Some?
      invariant limit <= |edges| == |parents| && e == LastFrom(parents, node, limit)
      invariant EdgesOf(parents, edges, node, limit, list) && DistinctCodes(list)
      decreases limit
    {
      builder.NextOf(e.value);
      NewDiffers(labels, parents, edges, node, limit, e.value, list);
      EdgesMore(parents, edges, node, limit, e.value, list);
      limit := e.value;
      list := [Edge(builder.edges[e.value].c, builder.edges[e.value].child)] + list;
      e := builder.edges[e.value].next;
    }
    AllEdges(parents, edges, node, limit, list);
    SortedChildren(labels, parents, edges, node, list);
    list := SortEdges(list);
  }

  lemma NoEdges(parents: seq<nat>, edges: seq<BuildEdge>, node: nat)
    requires |parents| == |edges|
    ensures EdgesOf(parents, edges, node, |edges|, []) && DistinctCodes([])
  {
  }

  lemma {:induction false} AllEdges(parents: seq<nat>, edges: seq<BuildEdge>, node: nat, limit: nat, list: seq<Edge>)
    requires |parents| == |edges| && limit <= |edges| && LastFrom(parents, node, limit).None?
    requires EdgesOf(parents, edges, node, limit, list)
    ensures EdgesOf(parents, edges, node, 0, list)
  {
    forall i | 0 <= i < |list| ensures IsEdge(parents, edges, node, 0, list[i]) {
      assert IsEdge(parents, edges, node, limit, list[i]);
    }
  }

  // ---- All the edges

  ghost predicate HasChildren(labels: seq<Key>, children: seq<Span>, edges: seq<Edge>, nodes: nat) {
    && nodes <= |children| && nodes <= |labels|
    && forall n :: 0 <= n < nodes ==>
         children[n].begin <= children[n].end <= |edges|
         && Children(labels, n, edges[children[n].begin..children[n].end])
  }

  lemma ChildrenStay(labels: seq<Key>, children: seq<Span>, edges: seq<Edge>, more: seq<Edge>)
    requires HasChildren(labels, children, edges, |children|) && |children| < |labels|
    requires Children(labels, |children|, more)
    ensures HasChildren(labels, children + [Span(|edges|, |edges| + |more|)], edges + more, |children| + 1)
  {
    hide Children;
    var children', edges' := children + [Span(|edges|, |edges| + |more|)], edges + more;
    forall n | 0 <= n < |children'|
      ensures Children(labels, n, edges'[children'[n].begin..children'[n].end])
    {
      if n < |children| {
        assert edges'[children[n].begin..children[n].end] == edges[children[n].begin..children[n].end];
      } else {
        assert edges'[|edges|..|edges| + |more|] == more;
      }
    }
  }

  method PlaceEdges(builder: TrieBuilder) returns (children: seq<Span>, edges: seq<Edge>)
    requires builder.Valid()
    ensures |children| == |builder.labels| && HasChildren(builder.labels, children, edges, |children|)
  {
    hide HasChildren, Children, Tree;
    children, edges := [], [];
    builder.SameLengths();
    NoChildren(builder.labels);
    for n := 0 to |builder.firstEdge|
      invariant |children| == n && HasChildren(builder.labels, children, edges, n)
    {
      var list := CollectEdges(builder, n);
      ChildrenStay(builder.labels, children, edges, list);
      children := children + [Span(|edges|, |edges| + |list|)];
      edges := edges + list;
    }
  }

  lemma NoChildren(labels: seq<Key>)
    ensures HasChildren(labels, [], [], 0)
  {
  }

  // The edge on c among a node's: a binary search down to eight edges, then a loop over them.
  method FindEdge(edges: seq<Edge>, begin: nat, end: nat, c: nat) returns (at: Option<nat>)
    requires begin <= end <= |edges| && forall i, j :: begin <= i < j < end ==> edges[i].c < edges[j].c
    ensures at.Some? ==> begin <= at.value < end && edges[at.value].c == c
    ensures at.None? ==> forall i :: begin <= i < end ==> edges[i].c != c
  {
    var lo, hi := begin, end;
    while hi - lo > 8
      invariant begin <= lo <= hi <= end
      invariant forall i :: begin <= i < lo ==> edges[i].c < c
      invariant forall i :: hi <= i < end ==> edges[i].c > c
    {
      var mid := lo + (hi - lo) / 2;
      if edges[mid].c < c {
        lo := mid + 1;
      } else if edges[mid].c > c {
        hi := mid;
      } else {
        return Some(mid);
      }
    }
    for e := lo to hi
      invariant forall i :: lo <= i < e ==> edges[i].c != c
    {
      if edges[e].c == c { return Some(e); }
    }
    return None;
  }

  // Trie::child
  method Child(ghost labels: seq<Key>, trie: Trie, node: nat, c: nat) returns (child: Option<nat>)
    requires |trie.children| == |labels| && HasChildren(labels, trie.children, trie.edges, |labels|) && node < |labels|
    ensures child.Some? ==> child.value < |labels| && labels[child.value] == labels[node] + [c]
    ensures child.None? ==> forall m :: 0 <= m < |labels| ==> labels[m] != labels[node] + [c]
  {
    var span := trie.children[node];
    ghost var list := trie.edges[span.begin..span.end];
    assert Children(labels, node, list);
    forall i, j | span.begin <= i < j < span.end ensures trie.edges[i].c < trie.edges[j].c {
      assert list[i - span.begin].c < list[j - span.begin].c;
    }
    var at := FindEdge(trie.edges, span.begin, span.end, c);
    if at.Some? {
      assert trie.edges[at.value] == list[at.value - span.begin];
      return Some(trie.edges[at.value].child);
    }
    forall i | 0 <= i < |list| ensures list[i].c != c { assert list[i] == trie.edges[span.begin + i]; }
    Childless(labels, node, list, c);
    return None;
  }

  lemma Childless(labels: seq<Key>, node: nat, list: seq<Edge>, c: nat)
    requires node < |labels| && Children(labels, node, list) && forall i :: 0 <= i < |list| ==> list[i].c != c
    ensures forall m :: 0 <= m < |labels| ==> labels[m] != labels[node] + [c]
  {
    forall m | 0 <= m < |labels| ensures labels[m] != labels[node] + [c] {
      assert Edge(c, m) !in list;
    }
  }

  // ---- The rules of the nodes, placed by a counting pass

  function CountOf(pending: seq<Pending>, node: nat): nat {
    if pending == [] then 0
    else CountOf(pending[..|pending| - 1], node) + if pending[|pending| - 1].node == node then 1 else 0
  }

  // How many rules stand before a node's.
  function StartOf(pending: seq<Pending>, node: nat): nat {
    if node == 0 then 0 else StartOf(pending, node - 1) + CountOf(pending, node - 1)
  }

  // A node's rules, in the order they were inserted.
  function RulesOf(pending: seq<Pending>, node: nat): (r: seq<nat>)
    ensures |r| == CountOf(pending, node)
  {
    if pending == [] then []
    else
      var n := |pending| - 1;
      RulesOf(pending[..n], node) + if pending[n].node == node then [pending[n].rule] else []
  }

  lemma {:induction false} CountStep(pending: seq<Pending>, n: nat, node: nat)
    requires n < |pending|
    ensures CountOf(pending[..n + 1], node) == CountOf(pending[..n], node) + if pending[n].node == node then 1 else 0
    ensures RulesOf(pending[..n + 1], node) ==
            RulesOf(pending[..n], node) + if pending[n].node == node then [pending[n].rule] else []
  {
    assert pending[..n + 1][..n] == pending[..n];
  }

  lemma {:induction false} CountGrows(pending: seq<Pending>, m: nat, n: nat, node: nat)
    requires m <= n <= |pending|
    ensures CountOf(pending[..m], node) <= CountOf(pending[..n], node)
    ensures m < n && pending[m].node == node ==> CountOf(pending[..m], node) < CountOf(pending[..n], node)
    decreases n
  {
    if m < n {
      CountStep(pending, n - 1, node);
      CountGrows(pending, m, n - 1, node);
    }
  }

  lemma {:induction false} StartsAscend(pending: seq<Pending>, a: nat, b: nat)
    requires a < b
    ensures StartOf(pending, a) + CountOf(pending, a) <= StartOf(pending, b)
    decreases b
  {
    if a < b - 1 { StartsAscend(pending, a, b - 1); }
  }

  lemma {:induction false} StartStep(pending: seq<Pending>, n: nat, node: nat)
    requires n < |pending|
    ensures StartOf(pending[..n + 1], node) == StartOf(pending[..n], node) + if pending[n].node < node then 1 else 0
  {
    if node > 0 {
      StartStep(pending, n, node - 1);
      CountStep(pending, n, node - 1);
    }
  }

  // All the rules stand before the end.
  lemma {:induction false} StartsEnd(pending: seq<Pending>, n: nat, nodes: nat)
    requires n <= |pending| && forall k :: 0 <= k < |pending| ==> pending[k].node < nodes
    ensures StartOf(pending[..n], nodes) == n
  {
    if n > 0 {
      StartsEnd(pending, n - 1, nodes);
      StartStep(pending, n - 1, nodes);
    } else {
      NothingBefore(nodes);
    }
  }

  lemma {:induction false} NothingBefore(nodes: nat)
    ensures StartOf([], nodes) == 0
  {
    if nodes > 0 { NothingBefore(nodes - 1); }
  }

  // The counts of the first k rules, each a place behind its node.
  ghost predicate Counted(pending: seq<Pending>, start: seq<nat>, nodes: nat, k: nat) {
    && k <= |pending| && |start| == nodes + 1 && start[0] == 0
    && forall m :: 1 <= m <= nodes ==> start[m] == CountOf(pending[..k], m - 1)
  }

  lemma CountOne(pending: seq<Pending>, start: seq<nat>, nodes: nat, k: nat)
    requires Counted(pending, start, nodes, k) && k < |pending| && pending[k].node < nodes
    ensures var at := pending[k].node + 1; Counted(pending, start[at := start[at] + 1], nodes, k + 1)
  {
    hide CountOf;
    var at := pending[k].node + 1;
    var start' := start[at := start[at] + 1];
    forall m | 1 <= m <= nodes ensures start'[m] == CountOf(pending[..k + 1], m - 1) { CountStep(pending, k, m - 1); }
  }

  method CountNodes(pending: seq<Pending>, nodes: nat) returns (start: seq<nat>)
    requires forall k :: 0 <= k < |pending| ==> pending[k].node < nodes
    ensures Counted(pending, start, nodes, |pending|)
  {
    start := seq(nodes + 1, _ => 0);
    assert pending[..0] == [];
    for k := 0 to |pending|
      invariant |start| == nodes + 1 && Counted(pending, start, nodes, k)
    {
      CountOne(pending, start, nodes, k);
      hide Counted;
      var at := pending[k].node + 1;
      start := start[at := start[at] + 1];
    }
  }

  // The counting loop and the prefix sums.
  method CountStarts(pending: seq<Pending>, nodes: nat) returns (start: seq<nat>)
    requires forall k :: 0 <= k < |pending| ==> pending[k].node < nodes
    ensures |start| == nodes + 1 && forall n :: 0 <= n <= nodes ==> start[n] == StartOf(pending, n)
  {
    start := CountNodes(pending, nodes);
    SumStarts(pending, start, nodes);
    hide *;
    for n := 0 to nodes
      invariant Summed(pending, start, nodes, n)
    {
      SumOne(pending, start, nodes, n);
      start := start[n + 1 := start[n + 1] + start[n]];
    }
    AllSummed(pending, start, nodes);
  }

  ghost predicate Summed(pending: seq<Pending>, start: seq<nat>, nodes: nat, n: nat) {
    && n <= nodes && |start| == nodes + 1
    && (forall m :: 0 <= m <= n ==> start[m] == StartOf(pending, m))
    && (forall m :: n < m <= nodes ==> start[m] == CountOf(pending, m - 1))
  }

  lemma SumStarts(pending: seq<Pending>, start: seq<nat>, nodes: nat)
    requires Counted(pending, start, nodes, |pending|)
    ensures Summed(pending, start, nodes, 0)
  {
    hide CountOf;
    assert pending[..|pending|] == pending;
  }

  lemma SumOne(pending: seq<Pending>, start: seq<nat>, nodes: nat, n: nat)
    requires Summed(pending, start, nodes, n) && n < nodes
    ensures |start| == nodes + 1 && Summed(pending, start[n + 1 := start[n + 1] + start[n]], nodes, n + 1)
  {
    assert StartOf(pending, n + 1) == StartOf(pending, n) + CountOf(pending, n);
    hide CountOf, StartOf;
  }

  lemma {:induction false} AllSummed(pending: seq<Pending>, start: seq<nat>, nodes: nat)
    requires Summed(pending, start, nodes, nodes)
    ensures |start| == nodes + 1 && forall n :: 0 <= n <= nodes ==> start[n] == StartOf(pending, n)
  {
  }

  // What is placed after n of the rules: each node's first ones, from its start on.
  ghost predicate PlacedSo(pending: seq<Pending>, start: seq<nat>, ends: seq<nat>, nodeRules: seq<nat>, n: nat) {
    && n <= |pending| && |nodeRules| == |pending| && |start| == |ends| + 1
    && forall m :: 0 <= m < |ends| ==> NodePlaced(pending[..n], start[m], ends[m], nodeRules, m)
  }

  ghost predicate NodePlaced(some: seq<Pending>, start: nat, end: nat, nodeRules: seq<nat>, node: nat) {
    && end == start + CountOf(some, node) <= |nodeRules|
    && nodeRules[start..end] == RulesOf(some, node)
  }

  lemma {:induction false} PlaceOne(pending: seq<Pending>, start: seq<nat>, ends: seq<nat>, nodeRules: seq<nat>, n: nat)
    requires PlacedSo(pending, start, ends, nodeRules, n) && n < |pending| && pending[n].node < |ends|
    requires forall m :: 0 <= m < |start| ==> start[m] == StartOf(pending, m)
    requires start[|ends|] == |pending|
    ensures var node := pending[n].node;
            && ends[node] < |nodeRules|
            && PlacedSo(pending, start, ends[node := ends[node] + 1], nodeRules[ends[node] := pending[n].rule], n + 1)
  {
    hide StartOf, CountOf, RulesOf, NodePlaced;
    var node := pending[n].node;
    var at := ends[node];
    PlaceOwn(pending, start, at, nodeRules, n, |ends|);
    var nodeRules', ends' := nodeRules[at := pending[n].rule], ends[node := at + 1];
    forall m | 0 <= m < |ends| ensures NodePlaced(pending[..n + 1], start[m], ends'[m], nodeRules', m) {
      if m != node { PlaceOther(pending, start, ends[m], at, nodeRules, n, m); }
    }
  }

  // The rule's own node gets it behind the ones it has.
  lemma {:induction false} PlaceOwn(pending: seq<Pending>, start: seq<nat>, at: nat, nodeRules: seq<nat>, n: nat,
                                    nodes: nat)
    requires n < |pending| == |nodeRules| && pending[n].node < nodes
    requires |start| == nodes + 1 && start[nodes] == |pending|
    requires forall m :: 0 <= m < |start| ==> start[m] == StartOf(pending, m)
    requires NodePlaced(pending[..n], start[pending[n].node], at, nodeRules, pending[n].node)
    ensures at < |nodeRules|
    ensures NodePlaced(pending[..n + 1], start[pending[n].node], at + 1, nodeRules[at := pending[n].rule],
                       pending[n].node)
  {
    hide StartOf, CountOf, RulesOf;
    var node := pending[n].node;
    CountGrows(pending, n, |pending|, node);
    assert pending[..|pending|] == pending;
    EndsInside(pending, start, node, nodes);
    CountStep(pending, n, node);
    var first := start[node];
    assert nodeRules[at := pending[n].rule][first..at + 1] == nodeRules[first..at] + [pending[n].rule];
  }

  // The other nodes keep what they have.
  lemma {:induction false} PlaceOther(pending: seq<Pending>, start: seq<nat>, end: nat, at: nat, nodeRules: seq<nat>,
                                      n: nat, m: nat)
    requires n < |pending| == |nodeRules| && m != pending[n].node && m < |start| && pending[n].node < |start|
    requires forall k :: 0 <= k < |start| ==> start[k] == StartOf(pending, k)
    requires NodePlaced(pending[..n], start[m], end, nodeRules, m)
    requires NodePlaced(pending[..n], start[pending[n].node], at, nodeRules, pending[n].node) && at < |nodeRules|
    ensures NodePlaced(pending[..n + 1], start[m], end, nodeRules[at := pending[n].rule], m)
  {
    hide StartOf, CountOf, RulesOf;
    var node := pending[n].node;
    CountStep(pending, n, m);
    CountGrows(pending, n, |pending|, m);
    CountGrows(pending, n, |pending|, node);
    assert pending[..|pending|] == pending;
    if m < node { StartsAscend(pending, m, node); } else { StartsAscend(pending, node, m); }
    assert nodeRules[at := pending[n].rule][start[m]..end] == nodeRules[start[m]..end];
  }

  lemma {:induction false} EndsInside(pending: seq<Pending>, start: seq<nat>, node: nat, nodes: nat)
    requires node < nodes && |start| == nodes + 1 && start[nodes] == |pending|
    requires forall m :: 0 <= m < |start| ==> start[m] == StartOf(pending, m)
    ensures start[node] + CountOf(pending, node) <= |pending|
  {
    StartsAscend(pending, node, nodes);
  }

  method PlaceRules(pending: seq<Pending>, nodes: nat) returns (rules: seq<Span>, nodeRules: seq<nat>)
    requires forall k :: 0 <= k < |pending| ==> pending[k].node < nodes
    ensures |rules| == nodes && |nodeRules| == |pending|
    ensures forall n :: 0 <= n < nodes ==> NodePlaced(pending, rules[n].begin, rules[n].end, nodeRules, n)
  {
    hide *;
    var start := CountStarts(pending, nodes);
    StartsEnd(pending, |pending|, nodes);
    assert pending[..|pending|] == pending;
    var ends := start[..nodes];
    nodeRules := seq(|pending|, _ => 0);
    NothingPlaced(pending, start, nodeRules);
    for k := 0 to |pending|
      invariant |ends| == nodes && |nodeRules| == |pending| && PlacedSo(pending, start, ends, nodeRules, k)
    {
      PlaceOne(pending, start, ends, nodeRules, k);
      var at := ends[pending[k].node];
      nodeRules := nodeRules[at := pending[k].rule];
      ends := ends[pending[k].node := at + 1];
    }
    rules := seq(nodes, n requires 0 <= n < nodes => Span(start[n], ends[n]));
    AllPlaced(pending, start, ends, nodeRules);
  }

  lemma AllPlaced(pending: seq<Pending>, start: seq<nat>, ends: seq<nat>, nodeRules: seq<nat>)
    requires PlacedSo(pending, start, ends, nodeRules, |pending|) && |start| == |ends| + 1
    ensures forall n :: 0 <= n < |ends| ==> NodePlaced(pending, start[n], ends[n], nodeRules, n)
  {
    hide NodePlaced;
    assert pending[..|pending|] == pending;
  }

  lemma {:induction false} NothingPlaced(pending: seq<Pending>, start: seq<nat>, nodeRules: seq<nat>)
    requires |start| > 0 && |nodeRules| == |pending| == start[|start| - 1]
    requires forall m :: 0 <= m < |start| ==> start[m] == StartOf(pending, m)
    ensures PlacedSo(pending, start, start[..|start| - 1], nodeRules, 0)
  {
    hide StartOf;
    assert pending[..0] == [];
    forall m | 0 <= m < |start| - 1 ensures NodePlaced(pending[..0], start[m], start[m], nodeRules, m) {
      EndsInside(pending, start, m, |start| - 1);
    }
  }

  // The trie of a builder: its nodes spell what the builder's did.
  ghost predicate Finished(labels: seq<Key>, pending: seq<Pending>, trie: Trie) {
    && |trie.children| == |trie.rules| == |labels| && HasChildren(labels, trie.children, trie.edges, |labels|)
    && |trie.nodeRules| == |pending|
    && forall n :: 0 <= n < |labels| ==>
         NodePlaced(pending, trie.rules[n].begin, trie.rules[n].end, trie.nodeRules, n)
  }

  // finish
  method Finish(builder: TrieBuilder) returns (trie: Trie)
    requires builder.Valid()
    ensures Finished(builder.labels, builder.pending, trie)
  {
    builder.SameLengths();
    var children, edges := PlaceEdges(builder);
    var rules, nodeRules := PlaceRules(builder.pending, |builder.firstEdge|);
    hide HasChildren, NodePlaced;
    trie := Trie(children, edges, rules, nodeRules);
  }
}
