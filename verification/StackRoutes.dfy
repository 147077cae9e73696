/** How many ways lead down from a node: with fewer than the limit on iterators, a pop follows them all. */
module StackRoutes {
  import opened Subtrees
  import opened SubtreePools
  import opened StackGraphs
  import opened Stacks
  import opened StackPops

  /** The number of ways from a node down to one without links. */
  ghost function Routes(level: Key -> nat, g: Graph, n: NodeId): nat
    requires GraphOk(level, g) && IsNode(g, n)
    decreases level(KeyOf(g, n)), MAX_LINK_COUNT + 1
  {
    assert NodeOk(level, g, n);
    if g[n].links == [] then 1 else LinkRoutes(level, g, n, |g[n].links|)
  }

  /** Those over the first `k` links. */
  ghost function LinkRoutes(level: Key -> nat, g: Graph, n: NodeId, k: nat): nat
    requires GraphOk(level, g) && IsNode(g, n) && k <= |g[n].links|
    decreases level(KeyOf(g, n)), k
  {
    assert NodeOk(level, g, n);
    if k == 0 then 0 else LinkRoutes(level, g, n, k - 1) + Routes(level, g, g[n].links[k - 1].node)
  }

  /** A route takes existing links only. */
  predicate IsRoute(g: Graph, n: NodeId, path: seq<nat>)
    decreases |path|
  {
    path == [] || (IsNode(g, n) && path[0] < |g[n].links| && IsRoute(g, g[n].links[path[0]].node, path[1..]))
  }

  predicate Unrelated(p: seq<nat>, q: seq<nat>) { !(p <= q) && !(q <= p) }

  /** None of the paths leads through another. */
  predicate Separate(tips: seq<seq<nat>>) {
    forall i, j :: 0 <= i < j < |tips| ==> Unrelated(tips[i], tips[j])
  }

  /** What is left of the paths that begin with link `k`. */
  function Tails(tips: seq<seq<nat>>, k: nat): seq<seq<nat>> {
    if tips == [] then []
    else
      var last := tips[|tips| - 1];
      Tails(tips[..|tips| - 1], k) + if last != [] && last[0] == k then [last[1..]] else []
  }

  /** The paths that do not begin with link `k`. */
  function Others(tips: seq<seq<nat>>, k: nat): seq<seq<nat>> {
    if tips == [] then []
    else
      var last := tips[|tips| - 1];
      Others(tips[..|tips| - 1], k) + if last != [] && last[0] == k then [] else [last]
  }

  lemma {:induction false} Split(tips: seq<seq<nat>>, k: nat)
    ensures |Tails(tips, k)| + |Others(tips, k)| == |tips|
    ensures forall p :: p in Tails(tips, k) ==> [k] + p in tips
    ensures forall p :: p in Others(tips, k) ==> p in tips && (p == [] || p[0] != k)
    ensures Separate(tips) ==> Separate(Tails(tips, k)) && Separate(Others(tips, k))
    decreases |tips|
  {
    if tips != [] {
      var n := |tips| - 1;
      var front, last := tips[..n], tips[n];
      Split(front, k);
      assert tips == front + [last];
      if last != [] && last[0] == k {
        assert last == [k] + last[1..];
      }
      if Separate(tips) {
        assert Separate(front);
        hide Tails, Others;
        forall p | p in Tails(front, k) && last != [] && last[0] == k ensures Unrelated(p, last[1..]) {
          var i :| 0 <= i < n && front[i] == [k] + p;
          assert Unrelated(tips[i], tips[n]);
          TailsUnrelated(k, p, last[1..]);
        }
        forall p | p in Others(front, k) ensures Unrelated(p, last) {
          var i :| 0 <= i < n && front[i] == p;
          assert Unrelated(tips[i], tips[n]);
        }
      }
    }
  }

  lemma TailsUnrelated(k: nat, p: seq<nat>, q: seq<nat>)
    requires Unrelated([k] + p, [k] + q)
    ensures Unrelated(p, q)
  {
  }

  lemma {:induction false} SomeRoute(level: Key -> nat, g: Graph, n: NodeId)
    requires GraphOk(level, g) && IsNode(g, n)
    ensures Routes(level, g, n) >= 1
    decreases level(KeyOf(g, n))
  {
    assert NodeOk(level, g, n);
    if g[n].links != [] {
      SomeRoute(level, g, g[n].links[|g[n].links| - 1].node);
    }
  }

  /** There are no more separate paths than ways down. */
  lemma {:induction false} RoutesBound(level: Key -> nat, g: Graph, n: NodeId, tips: seq<seq<nat>>)
    requires GraphOk(level, g) && IsNode(g, n) && Separate(tips)
    requires forall p :: p in tips ==> IsRoute(g, n, p)
    ensures |tips| <= Routes(level, g, n)
    decreases level(KeyOf(g, n)), MAX_LINK_COUNT + 1
  {
    SomeRoute(level, g, n);
    if |tips| > 1 {
      forall p | p in tips ensures p != [] {
        var i :| 0 <= i < |tips| && tips[i] == p;
        assert Unrelated(tips[0], tips[if i == 0 then 1 else i]);
      }
      assert IsRoute(g, n, tips[0]) && tips[0] in tips;
      assert NodeOk(level, g, n);
      LinksBound(level, g, n, |g[n].links|, tips);
    }
  }

  lemma {:induction false} LinksBound(level: Key -> nat, g: Graph, n: NodeId, k: nat, tips: seq<seq<nat>>)
    requires GraphOk(level, g) && IsNode(g, n) && Separate(tips) && k <= |g[n].links|
    requires forall p :: p in tips ==> p != [] && p[0] < k && IsRoute(g, n, p)
    ensures |tips| <= LinkRoutes(level, g, n, k)
    decreases level(KeyOf(g, n)), k
  {
    if k == 0 {
      NoneFirst(tips);
    } else {
      assert NodeOk(level, g, n);
      Split(tips, k - 1);
      var m := g[n].links[k - 1].node;
      forall p | p in Tails(tips, k - 1) ensures IsRoute(g, m, p) {
        assert IsRoute(g, n, [k - 1] + p) && ([k - 1] + p)[1..] == p;
      }
      RoutesBound(level, g, m, Tails(tips, k - 1));
      LinksBound(level, g, n, k - 1, Others(tips, k - 1));
    }
  }

  lemma NoneFirst(tips: seq<seq<nat>>)
    ensures (forall p :: p in tips ==> p != [] && p[0] < 0) ==> tips == []
  {
    assert tips == [] || tips[0] in tips;
  }

  lemma {:induction false} LeadsToNode(g: Graph, n: NodeId, path: seq<nat>, m: NodeId)
    requires Leads(g, n, path, m)
    ensures IsNode(g, m) && IsRoute(g, n, path)
    decreases |path|
  {
    if path != [] {
      LeadsToNode(g, g[n].links[path[0]].node, path[1..], m);
    }
  }

  /** With fewer ways down than iterators, a pop is never crowded, whatever it pops. */
  lemma FewRoutes(level: Key -> nat, g: Graph, s: Store, n: NodeId, callback: Callback)
    requires GraphOk(level, g) && IsNode(g, n) && Routes(level, g, n) < MAX_ITERATOR_COUNT
    ensures !Crowded(g, s, n, callback)
  {
    hide WalkTo, Routes, GraphOk;
    forall tips: seq<seq<nat>> | Crowd(g, s, n, callback, tips) ensures |tips| < MAX_ITERATOR_COUNT {
      forall p | p in tips ensures IsRoute(g, n, p) {
        assert Taken(g, s, n, callback, p);
        WalkFollows(level, g, s, n, p);
        LeadsToNode(g, n, p, WalkTo(g, s, n, p).it.node);
      }
      RoutesBound(level, g, n, tips);
    }
  }
}
