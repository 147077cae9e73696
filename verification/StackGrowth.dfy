/** What merging may add to the graph, and where it can run out of room. */
module StackGrowth {
  import opened StackGraphs
  import opened StackHistories

  // ----- no room -------------------------------------------------------------------------------

  /** Some node that `n` leads to, or `n` itself, has no room for another link. */
  ghost predicate FullBelow(g: Graph, n: NodeId) {
    exists path, m: NodeId :: Leads(g, n, path, m) && IsNode(g, m) && |g[m].links| >= MAX_LINK_COUNT
  }

  lemma FullNode(g: Graph, n: NodeId)
    requires IsNode(g, n) && |g[n].links| >= MAX_LINK_COUNT
    ensures FullBelow(g, n)
  {
    assert Leads(g, n, [], n);
  }

  lemma FullThrough(g: Graph, n: NodeId, i: nat)
    requires IsNode(g, n) && i < |g[n].links| && FullBelow(g, g[n].links[i].node)
    ensures FullBelow(g, n)
  {
    hide Leads;
    var path, m: NodeId :| Leads(g, g[n].links[i].node, path, m) && IsNode(g, m) && |g[m].links| >= MAX_LINK_COUNT;
    LeadsThrough(g, n, i, path, m);
  }

  lemma LeadsThrough(g: Graph, n: NodeId, i: nat, path: seq<nat>, m: NodeId)
    requires IsNode(g, n) && i < |g[n].links| && Leads(g, g[n].links[i].node, path, m)
    ensures Leads(g, n, [i] + path, m)
  {
    assert ([i] + path)[1..] == path;
  }

  lemma {:induction false} GrownLeads(g: Graph, u: Graph, n: NodeId, path: seq<nat>, m: NodeId)
    requires Grown(g, u) && Leads(g, n, path, m)
    ensures Leads(u, n, path, m)
    decreases |path|
  {
    if path != [] {
      GrownLeads(g, u, g[n].links[path[0]].node, path[1..], m);
    }
  }

  /** Room that is missing stays missing when the graph grows. */
  lemma GrownFull(g: Graph, u: Graph, n: NodeId)
    requires Grown(g, u)
    ensures FullBelow(g, n) ==> FullBelow(u, n)
  {
    hide Leads;
    if FullBelow(g, n) {
      var path, m: NodeId :| Leads(g, n, path, m) && IsNode(g, m) && |g[m].links| >= MAX_LINK_COUNT;
      GrownLeads(g, u, n, path, m);
    }
  }

  lemma {:induction false} ShrunkLeads(level: Key -> nat, g: Graph, u: Graph, n: NodeId, path: seq<nat>, m: NodeId)
    requires Shrunk(g, u) && GraphOk(level, u) && IsNode(u, n) && Leads(g, n, path, m)
    ensures Leads(u, n, path, m) && IsNode(u, m)
    decreases |path|
  {
    if path != [] {
      assert NodeOk(level, u, n);
      ShrunkLeads(level, g, u, g[n].links[path[0]].node, path[1..], m);
    }
  }

  /** What a remaining node leads to remains, and so does room that is missing there. */
  lemma ShrunkFull(level: Key -> nat, g: Graph, u: Graph, n: NodeId)
    requires Shrunk(g, u) && GraphOk(level, u) && IsNode(u, n)
    ensures FullBelow(g, n) ==> FullBelow(u, n)
  {
    hide Leads;
    if FullBelow(g, n) {
      var path, m: NodeId :| Leads(g, n, path, m) && IsNode(g, m) && |g[m].links| >= MAX_LINK_COUNT;
      ShrunkLeads(level, g, u, n, path, m);
    }
  }

  // ----- nothing invented ----------------------------------------------------------------------

  ghost predicate HasLink(g: Graph, n: NodeId, i: nat, a: Key, b: Key) {
    && IsNode(g, n) && i < |g[n].links| && IsNode(g, g[n].links[i].node)
    && KeyOf(g, n) == a && KeyOf(g, g[n].links[i].node) == b
  }

  /** Some node with key `a` has a link to one with key `b`. */
  ghost predicate KeyLinked(g: Graph, a: Key, b: Key) {
    exists n: NodeId, i: nat :: HasLink(g, n, i, a, b)
  }

  /** Nodes are linked only where nodes with the same keys were before, or along the given link. */
  ghost predicate OnlyLinks(g: Graph, u: Graph, extra: set<(Key, Key)>) {
    forall a: Key, b: Key :: KeyLinked(u, a, b) ==> KeyLinked(g, a, b) || (a, b) in extra
  }

  /** `u` has no nodes but those of `g`; all but `self` link where they did, and `self` may have one link more. */
  ghost predicate MoreAt(g: Graph, u: Graph, self: NodeId) {
    forall n: NodeId :: IsNode(u, n) ==>
      && IsNode(g, n) && KeyOf(u, n) == KeyOf(g, n)
      && |u[n].links| <= |g[n].links| + (if n == self then 1 else 0)
      && forall i :: 0 <= i < |g[n].links| && i < |u[n].links| ==> u[n].links[i].node == g[n].links[i].node
  }

  lemma OneMoreLink(g: Graph, u: Graph, self: NodeId, a: Key, b: Key)
    requires MoreAt(g, u, self)
    requires IsNode(g, self) && IsNode(u, self)
    requires |u[self].links| > |g[self].links| ==> HasLink(u, self, |g[self].links|, a, b)
    ensures OnlyLinks(g, u, {(a, b)})
    ensures |u[self].links| <= |g[self].links| ==> OnlyLinks(g, u, {})
  {
    forall x: Key, y: Key | KeyLinked(u, x, y)
      ensures KeyLinked(g, x, y) || ((x, y) == (a, b) && |u[self].links| > |g[self].links|)
    {
      var n: NodeId, i: nat :| HasLink(u, n, i, x, y);
      if i < |g[n].links| {
        assert HasLink(g, n, i, x, y);
      }
    }
  }

  lemma OnlyOld(g: Graph)
    ensures OnlyLinks(g, g, {})
  {
  }

  lemma OnlyMore(g: Graph, u: Graph, few: set<(Key, Key)>, more: set<(Key, Key)>)
    requires OnlyLinks(g, u, few) && few <= more
    ensures OnlyLinks(g, u, more)
  {
  }

  lemma OnlyThrough(g: Graph, u: Graph, v: Graph, extra: set<(Key, Key)>)
    requires OnlyLinks(g, u, {}) && OnlyLinks(u, v, extra)
    requires forall a: Key, b: Key :: (a, b) in extra ==> KeyLinked(u, a, b)
    ensures OnlyLinks(g, v, {})
  {
  }

  lemma OnlyKept(g: Graph, u: Graph, v: Graph, extra: set<(Key, Key)>)
    requires OnlyLinks(g, u, extra) && OnlyLinks(u, v, {})
    ensures OnlyLinks(g, v, extra)
  {
  }

  lemma ShrunkLinks(g: Graph, u: Graph)
    requires Shrunk(g, u)
    ensures OnlyLinks(g, u, {})
  {
    forall a: Key, b: Key | KeyLinked(u, a, b) ensures KeyLinked(g, a, b) {
      var n: NodeId, i: nat :| HasLink(u, n, i, a, b);
      assert HasLink(g, n, i, a, b);
    }
  }

  /** What can be read after such a change goes along links between keys that were linked before. */
  lemma {:induction false} ReadsOldLinks(level: Key -> nat, g: Graph, u: Graph, m: Memory, n: NodeId, ks: seq<Mark>, k: nat)
    requires OnlyLinks(g, u, {}) && GraphOk(level, u) && Reads(u, m, n, ks) && k + 1 < |ks|
    ensures KeyLinked(g, ks[k].key, ks[k + 1].key)
    decreases |ks|
  {
    hide OnlyLinks, KeyLinked, LabelOf;
    assert ReadsBelow(u, m, n, ks[1..]);
    var i :| 0 <= i < |u[n].links| && ReadsOver(u, m, u[n].links[i], ks[1..]);
    if k == 0 {
      ReadLink(level, g, u, m, n, i, ks);
    } else {
      ReadsOldLinks(level, g, u, m, u[n].links[i].node, ks[1..], k - 1);
    }
  }

  lemma ReadLink(level: Key -> nat, g: Graph, u: Graph, m: Memory, n: NodeId, i: nat, ks: seq<Mark>)
    requires OnlyLinks(g, u, {}) && GraphOk(level, u) && Reads(u, m, n, ks) && |ks| > 1
    requires i < |u[n].links| && ReadsOver(u, m, u[n].links[i], ks[1..])
    ensures KeyLinked(g, ks[0].key, ks[1].key)
  {
    hide LabelOf;
    assert NodeOk(level, u, n);
    assert Reads(u, m, u[n].links[i].node, ks[1..]);
    assert HasLink(u, n, i, ks[0].key, ks[1].key);
    assert KeyLinked(u, ks[0].key, ks[1].key);
  }
}
