// The tries of the deinflection rules while they are built (TransformSet::insert, src/languages/transforms.cpp):
// each node's edges are a list linked through the edges.
module TrieBuilding {
  import opened Options

  type Key = seq<nat>  // code points

  datatype BuildEdge = BuildEdge(c: nat, child: nat, next: Option<nat>)

  datatype Pending = Pending(node: nat, rule: nat)

  // The last of the first `limit` edges that leave a node.
  function LastFrom(parents: seq<nat>, node: nat, limit: nat): (e: Option<nat>)
    requires limit <= |parents|
    ensures e.Some? ==> e.value < limit && parents[e.value] == node
    ensures e.Some? ==> forall k :: e.value < k < limit ==> parents[k] != node
    ensures e.None? ==> forall k :: 0 <= k < limit ==> parents[k] != node
  {
    if limit == 0 then None
    else if parents[limit - 1] == node then Some(limit - 1)
    else LastFrom(parents, node, limit - 1)
  }

  lemma {:induction false} LastFromAll(parents: seq<nat>, node: nat, limit: nat, more: nat)
    requires limit <= |parents|
    ensures LastFrom(parents + [more], node, limit) == LastFrom(parents, node, limit)
  {
    if limit > 0 { LastFromAll(parents, node, limit - 1, more); }
  }

  // The tree of the keys inserted so far: what each node spells, and which node each edge leaves. Edge e
  // leads to node e + 1.
  ghost predicate Tree(labels: seq<Key>, parents: seq<nat>, edges: seq<BuildEdge>) {
    && |labels| == |edges| + 1 && |parents| == |edges| && labels[0] == []
    && (forall e :: 0 <= e < |edges| ==> SpellsOn(labels, parents, edges, e))
    && AllDiffer(labels)
  }

  predicate AllDiffer(labels: seq<Key>) {
    forall i, j :: 0 <= i < j < |labels| ==> labels[i] != labels[j]
  }

  lemma DifferMore(labels: seq<Key>, spelling: Key)
    requires AllDiffer(labels) && forall j :: 0 <= j < |labels| ==> labels[j] != spelling
    ensures AllDiffer(labels + [spelling])
  {
  }

  ghost predicate SpellsOn(labels: seq<Key>, parents: seq<nat>, edges: seq<BuildEdge>, e: nat)
    requires |labels| == |edges| + 1 && |parents| == |edges| && e < |edges|
  {
    && edges[e].child == e + 1 && parents[e] <= e
    && labels[e + 1] == labels[parents[e]] + [edges[e].c]
    && edges[e].next == LastFrom(parents, parents[e], e)
  }

  ghost predicate Linked(firstEdge: seq<Option<nat>>, parents: seq<nat>) {
    forall n :: 0 <= n < |firstEdge| ==> firstEdge[n] == LastFrom(parents, n, |parents|)
  }

  ghost predicate Spelled(labels: seq<Key>, pending: seq<Pending>, keys: seq<Key>) {
    && |pending| == |keys|
    && forall k :: 0 <= k < |pending| ==> pending[k].node < |labels| && labels[pending[k].node] == keys[k]
  }

  // A key begins with this.
  predicate Begins(keys: seq<Key>, beginning: Key) {
    exists k :: 0 <= k < |keys| && beginning <= keys[k]
  }

  // Every node below the root is on the way to a key.
  ghost predicate Reached(labels: seq<Key>, keys: seq<Key>) {
    forall m :: 0 < m < |labels| ==> Begins(keys, labels[m])
  }

  lemma BeginsMore(keys: seq<Key>, more: Key, beginning: Key)
    ensures Begins(keys + [more], beginning) <==> Begins(keys, beginning) || beginning <= more
  {
    if k :| 0 <= k < |keys| && beginning <= keys[k] { assert (keys + [more])[k] == keys[k]; }
    assert (keys + [more])[|keys|] == more;
  }

  lemma ReachedWith(labels: seq<Key>, keys: seq<Key>, more: Key)
    requires Reached(labels, keys)
    ensures Reached(labels, keys + [more])
  {
    hide Begins;
    forall m | 0 < m < |labels| ensures Begins(keys + [more], labels[m]) { BeginsMore(keys, more, labels[m]); }
  }

  lemma ReachedOn(labels: seq<Key>, keys: seq<Key>, key: Key, n: nat)
    requires Reached(labels, keys + [key]) && n <= |key|
    ensures Reached(labels + [key[..n]], keys + [key])
  {
    hide Begins;
    BeginsMore(keys, key, key[..n]);
  }

  // All a builder knows: what its nodes spell, their parents and edges, and the rules with their keys.
  datatype Built = Built(
    labels: seq<Key>, parents: seq<nat>, edges: seq<BuildEdge>, pending: seq<Pending>, keys: seq<Key>)

  ghost predicate Stands(b: Built) {
    && Tree(b.labels, b.parents, b.edges) && Spelled(b.labels, b.pending, b.keys) && Reached(b.labels, b.keys)
  }

  lemma SpellsStays(labels: seq<Key>, parents: seq<nat>, edges: seq<BuildEdge>, e: nat,
                    spelling: Key, node: nat, edge: BuildEdge)
    requires |labels| == |edges| + 1 && |parents| == |edges| && e < |edges| && SpellsOn(labels, parents, edges, e)
    ensures SpellsOn(labels + [spelling], parents + [node], edges + [edge], e)
  {
    LastFromAll(parents, parents[e], e, node);
    hide LastFrom;
  }

  // No node spells what a missing edge would lead to.
  lemma NotSpelled(labels: seq<Key>, parents: seq<nat>, edges: seq<BuildEdge>, node: nat, c: nat, j: nat)
    requires Tree(labels, parents, edges) && node < |labels| && j < |labels|
    requires forall e :: 0 <= e < |edges| && parents[e] == node ==> edges[e].c != c
    ensures labels[j] != labels[node] + [c]
  {
    hide LastFrom;
    if j > 0 && labels[j] == labels[node] + [c] {
      assert SpellsOn(labels, parents, edges, j - 1);
      SameStem(labels[parents[j - 1]], edges[j - 1].c, labels[node], c);
    }
  }

  // A new child of a node without an edge on c.
  lemma {:induction false} TreeGrows(labels: seq<Key>, parents: seq<nat>, edges: seq<BuildEdge>, node: nat, c: nat)
    requires Tree(labels, parents, edges) && node < |labels|
    requires forall e :: 0 <= e < |edges| && parents[e] == node ==> edges[e].c != c
    ensures Tree(labels + [labels[node] + [c]], parents + [node],
                 edges + [BuildEdge(c, |labels|, LastFrom(parents, node, |parents|))])
  {
    hide SpellsOn, AllDiffer, LastFrom;
    NoneSpells(labels, parents, edges, node, c);
    AllSpell(labels, parents, edges, node, c);
  }

  lemma NoneSpells(labels: seq<Key>, parents: seq<nat>, edges: seq<BuildEdge>, node: nat, c: nat)
    requires Tree(labels, parents, edges) && node < |labels|
    requires forall e :: 0 <= e < |edges| && parents[e] == node ==> edges[e].c != c
    ensures AllDiffer(labels + [labels[node] + [c]])
  {
    hide SpellsOn, AllDiffer;
    var spelling := labels[node] + [c];
    forall j | 0 <= j < |labels| ensures labels[j] != spelling { NotSpelled(labels, parents, edges, node, c, j); }
    DifferMore(labels, spelling);
  }

  lemma {:induction false} AllSpell(labels: seq<Key>, parents: seq<nat>, edges: seq<BuildEdge>, node: nat, c: nat)
    requires Tree(labels, parents, edges) && node < |labels|
    ensures var edge := BuildEdge(c, |labels|, LastFrom(parents, node, |parents|));
            forall e :: 0 <= e < |edges| + 1 ==>
              SpellsOn(labels + [labels[node] + [c]], parents + [node], edges + [edge], e)
  {
    var edge := BuildEdge(c, |labels|, LastFrom(parents, node, |parents|));
    var spelling := labels[node] + [c];
    LastFromAll(parents, node, |parents|, node);
    assert SpellsOn(labels + [spelling], parents + [node], edges + [edge], |edges|);
    hide SpellsOn, AllDiffer, LastFrom;
    forall e | 0 <= e < |edges| ensures SpellsOn(labels + [spelling], parents + [node], edges + [edge], e) {
      SpellsStays(labels, parents, edges, e, spelling, node, edge);
    }
  }

  lemma SameStem(a: Key, c: nat, b: Key, d: nat)
    requires a + [c] == b + [d]
    ensures a == b && c == d
  {
    assert a == (a + [c])[..|a|] && b == (b + [d])[..|b|];
    assert (a + [c])[|a|] == c && (b + [d])[|b|] == d;
  }

  lemma LinkGrows(firstEdge: seq<Option<nat>>, parents: seq<nat>, node: nat)
    requires Linked(firstEdge, parents) && node < |firstEdge|
    requires forall e :: 0 <= e < |parents| ==> parents[e] < |firstEdge|
    ensures Linked((firstEdge + [None])[node := Some(|parents|)], parents + [node])
  {
    var after := (firstEdge + [None])[node := Some(|parents|)];
    forall n | 0 <= n < |after| ensures after[n] == LastFrom(parents + [node], n, |parents| + 1) {
      LastFromAll(parents, n, |parents|, node);
    }
  }

  class TrieBuilder {
    var firstEdge: seq<Option<nat>>
    var edges: seq<BuildEdge>
    var pending: seq<Pending>
    ghost var labels: seq<Key>
    ghost var parents: seq<nat>
    ghost var keys: seq<Key>

    ghost predicate Valid()
      reads this
    {
      && |firstEdge| == |labels| && Tree(labels, parents, edges) && Linked(firstEdge, parents)
      && Spelled(labels, pending, keys)
    }

    ghost function Made(): Built
      reads this
    {
      Built(labels, parents, edges, pending, keys)
    }

    constructor ()
      ensures Valid() && pending == [] && keys == [] && Reached(labels, keys)
    {
      firstEdge, edges, pending := [None], [], [];
      labels, parents, keys := [[]], [], [];
    }

    // The edge of a node on c, along the node's list.
    method FindEdge(node: nat, c: nat) returns (e: Option<nat>)
      requires Valid() && node < |firstEdge|
      ensures e.Some? ==> e.value < |edges| && parents[e.value] == node && edges[e.value].c == c
      ensures e.None? ==> forall k :: 0 <= k < |edges| && parents[k] == node ==> edges[k].c != c
    {
      e := firstEdge[node];
      ghost var limit: nat := |edges|;
      while e.Some? && edges[e.value].c != c
        invariant limit <= |edges| && e == LastFrom(parents, node, limit)
        invariant forall k :: limit <= k < |edges| && parents[k] == node ==> edges[k].c != c
        decreases limit
      {
        assert SpellsOn(labels, parents, edges, e.value);
        limit := e.value;
        e := edges[e.value].next;
      }
    }

    // A new child.
    method AddChild(node: nat, c: nat) returns (child: nat)
      requires Valid() && node < |firstEdge|
      requires forall k :: 0 <= k < |edges| && parents[k] == node ==> edges[k].c != c
      modifies this`firstEdge, this`edges, this`labels, this`parents
      ensures Valid() && child < |labels| && labels[child] == old(labels)[node] + [c]
      ensures labels == old(labels) + [old(labels)[node] + [c]]
    {
      TreeGrows(labels, parents, edges, node, c);
      forall e | 0 <= e < |parents| ensures parents[e] < |firstEdge| { assert SpellsOn(labels, parents, edges, e); }
      LinkGrows(firstEdge, parents, node);
      child := |firstEdge|;
      firstEdge := firstEdge + [None];
      edges := edges + [BuildEdge(c, child, firstEdge[node])];
      firstEdge := firstEdge[node := Some(|edges| - 1)];
      labels, parents := labels + [labels[node] + [c]], parents + [node];
      hide Tree;
    }

    // insert: the rule is kept at the node that spells its key.
    method Insert(key: Key, rule: nat)
      requires Valid() && Reached(labels, keys)
      modifies this
      ensures Valid() && keys == old(keys) + [key] && Reached(labels, keys)
      ensures |pending| == |keys| && pending[..|pending| - 1] == old(pending) && pending[|pending| - 1].rule == rule
    {
      hide Tree, Linked, SpellsOn, Reached;
      var node: nat := 0;
      RootSpells();
      ReachedWith(labels, keys, key);
      for i := 0 to |key|
        invariant Valid() && pending == old(pending) && keys == old(keys)
        invariant node < |labels| && labels[node] == key[..i] && Reached(labels, keys + [key])
      {
        var c := key[i];
        assert key[..i + 1] == key[..i] + [c];
        var e := FindEdge(node, c);
        if e.None? {
          ReachedOn(labels, keys, key, i + 1);
          node := AddChild(node, c);
        } else {
          EdgeSpells(e.value);
          node := edges[e.value].child;
        }
      }
      assert key[..|key|] == key;
      pending := pending + [Pending(node, rule)];
      keys := keys + [key];
    }

    lemma SameLengths()
      requires Valid()
      ensures |firstEdge| == |labels| == |edges| + 1 && |parents| == |edges|
      ensures forall n :: 0 <= n < |labels| ==> firstEdge[n] == LastFrom(parents, n, |parents|)
    {
    }

    lemma {:induction false} NextOf(e: nat)
      requires Valid() && e < |edges|
      ensures |parents| == |edges| && edges[e].next == LastFrom(parents, parents[e], e)
    {
      assert SpellsOn(labels, parents, edges, e);
    }

    lemma Parts()
      requires Valid()
      ensures Tree(labels, parents, edges) && Spelled(labels, pending, keys)
    {
    }

    lemma RootSpells()
      requires Valid()
      ensures |labels| > 0 && labels[0] == []
    {
    }

    lemma EdgeSpells(e: nat)
      requires Valid() && e < |edges|
      ensures e < |parents| && parents[e] < |labels| && edges[e].child < |labels|
      ensures labels[edges[e].child] == labels[parents[e]] + [edges[e].c]
    {
      assert SpellsOn(labels, parents, edges, e);
    }
  }
}
