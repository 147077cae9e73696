/** Which nodes of the stack are alive: those that some handle leads to, and no others. */
module StackReach {
  import opened SubtreePools
  import opened Subtrees
  import opened Gathering
  import opened StackGraphs

  /** A chain of links from a held node to `n`. */
  ghost predicate Chain(g: Graph, held: multiset<NodeId>, path: seq<NodeId>, n: NodeId) {
    && path != [] && path[0] in held && path[|path| - 1] == n
    && (forall i :: 0 <= i < |path| ==> IsNode(g, path[i]))
    && forall i :: 0 < i < |path| ==> LinksTo(g, path[i - 1], path[i])
  }

  predicate LinksTo(g: Graph, n: NodeId, m: NodeId)
    requires IsNode(g, n)
  {
    exists i :: 0 <= i < |g[n].links| && g[n].links[i].node == m
  }

  ghost predicate Reached(g: Graph, held: multiset<NodeId>, n: NodeId) {
    exists path :: Chain(g, held, path, n)
  }

  function MaxLevel(level: Key -> nat, g: Graph): (top: nat)
    ensures forall n: NodeId :: IsNode(g, n) ==> level(KeyOf(g, n)) <= top
  {
    if g == [] then 0
    else
      var rest := MaxLevel(level, g[..|g| - 1]);
      assert forall n: NodeId :: IsNode(g, n) && n < |g| - 1 ==> IsNode(g[..|g| - 1], n);
      if IsNode(g, |g| - 1) && level(KeyOf(g, |g| - 1)) > rest then level(KeyOf(g, |g| - 1)) else rest
  }

  /** With exact, positive counts some handle leads to every node. */
  lemma {:induction false} LiveIsReached(level: Key -> nat, g: Graph, held: multiset<NodeId>, n: NodeId)
    requires GraphOk(level, g) && NodesCounted(g, held) && IsNode(g, n)
    ensures Reached(g, held, n)
    decreases MaxLevel(level, g) - level(KeyOf(g, n))
  {
    hide Targets;
    if n in held {
      assert Chain(g, held, [n], n);
    } else {
      var p, i := CountedLink(g, n);
      assert NodeOk(level, g, p);
      LiveIsReached(level, g, held, p);
      var path :| Chain(g, held, path, p);
      assert LinksTo(g, p, n);
      assert Chain(g, held, path + [n], n);
    }
  }

  lemma {:induction false} ReachedSurvives(level: Key -> nat, g: Graph, u: Graph, held: multiset<NodeId>, path: seq<NodeId>, n: NodeId)
    requires GraphOk(level, u) && Shrunk(g, u) && Chain(g, held, path, n)
    requires forall m :: m in held ==> IsNode(u, m)
    ensures IsNode(u, n)
    decreases |path|
  {
    var k := |path| - 1;
    if k > 0 {
      assert Chain(g, held, path[..k], path[k - 1]);
      ReachedSurvives(level, g, u, held, path[..k], path[k - 1]);
      assert LinksTo(g, path[k - 1], path[k]);
      assert NodeOk(level, u, path[k - 1]);
    }
  }

  /** What a release frees is exactly what the remaining handles no longer lead to. */
  lemma FreedExactly(level: Key -> nat, g: Graph, u: Graph, held: multiset<NodeId>)
    requires GraphOk(level, u) && NodesCounted(u, held) && Shrunk(g, u)
    ensures forall n: NodeId :: IsNode(u, n) <==> Reached(g, held, n)
  {
    hide Targets;
    forall n: NodeId ensures IsNode(u, n) <==> Reached(g, held, n) {
      if IsNode(u, n) {
        LiveIsReached(level, u, held, n);
        var path :| Chain(u, held, path, n);
        forall i | 0 < i < |path| ensures LinksTo(g, path[i - 1], path[i]) {
          assert LinksTo(u, path[i - 1], path[i]);
        }
        assert Chain(g, held, path, n);
      } else if Reached(g, held, n) {
        var path :| Chain(g, held, path, n);
        ReachedSurvives(level, g, u, held, path, n);
      }
    }
  }

  lemma NothingHeldNothingLives(level: Key -> nat, g: Graph)
    requires GraphOk(level, g) && NodesCounted(g, multiset{})
    ensures forall n: NodeId :: !IsNode(g, n)
  {
    hide Targets;
    forall n: NodeId ensures !IsNode(g, n) {
      if IsNode(g, n) {
        LiveIsReached(level, g, multiset{}, n);
      }
    }
  }

  lemma {:induction false} EmptyGraph(g: Graph)
    requires forall n: NodeId :: !IsNode(g, n)
    ensures Trees(g) == multiset{}
  {
    if g != [] {
      var n := |g| - 1;
      assert !IsNode(g, n);
      forall m: NodeId ensures !IsNode(g[..n], m) {
        assert !IsNode(g, m);
      }
      EmptyGraph(g[..n]);
    }
  }
}
