/** What lies on a path down the stack: its links, the subtrees on them, and how many of these count. */
module StackPaths {
  import opened Subtrees
  import opened SubtreePools
  import opened StackGraphs

  /** A discontinuity counts, and so does every subtree that is not an extra. */
  predicate IsCounted(s: Store, link: Link) {
    match link.subtree
    case NullTree => true
    case Some(r) => !(ValidRef(s, r) && RefData(s, r).extra)
  }

  /** The links that a path goes over, from the top down. */
  function LinksOn(g: Graph, n: NodeId, path: seq<nat>): seq<Link>
    decreases |path|
  {
    if path == [] || !IsNode(g, n) || path[0] >= |g[n].links| then []
    else [g[n].links[path[0]]] + LinksOn(g, g[n].links[path[0]].node, path[1..])
  }

  function CountOn(s: Store, links: seq<Link>): nat {
    if links == [] then 0 else (if IsCounted(s, links[0]) then 1 else 0) + CountOn(s, links[1..])
  }

  function TreesOn(links: seq<Link>): seq<Ref> {
    if links == [] then []
    else (if links[0].subtree.Some? then [links[0].subtree.ref] else []) + TreesOn(links[1..])
  }

  /** All that counts is a subtree that was pushed as pending. */
  predicate AllPending(s: Store, links: seq<Link>) {
    forall i :: 0 <= i < |links| && IsCounted(s, links[i]) ==> links[i].subtree.Some? && links[i].isPending
  }

  lemma {:induction false} LinkJoins(s: Store, links: seq<Link>, link: Link)
    ensures CountOn(s, links + [link]) == CountOn(s, links) + if IsCounted(s, link) then 1 else 0
    ensures TreesOn(links + [link]) == TreesOn(links) + if link.subtree.Some? then [link.subtree.ref] else []
    ensures AllPending(s, links + [link]) <==>
              AllPending(s, links) && (IsCounted(s, link) ==> link.subtree.Some? && link.isPending)
  {
    hide IsCounted;
    if links == [] {
      assert links + [link] == [link] && [link][1..] == [];
    } else {
      assert (links + [link])[1..] == links[1..] + [link];
      LinkJoins(s, links[1..], link);
      assert forall i :: 0 <= i < |links| ==> (links + [link])[i] == links[i];
      assert (links + [link])[|links|] == link;
    }
  }

  /** A path goes on over a link of the node that it leads to. */
  lemma {:induction false} PathExtends(g: Graph, n: NodeId, path: seq<nat>, m: NodeId, k: nat)
    requires Leads(g, n, path, m) && IsNode(g, m) && k < |g[m].links|
    ensures LinksOn(g, n, path + [k]) == LinksOn(g, n, path) + [g[m].links[k]]
    ensures IsNode(g, g[m].links[k].node) ==> Leads(g, n, path + [k], g[m].links[k].node)
    decreases |path|
  {
    if path == [] {
      assert [k][1..] == [];
    } else {
      assert (path + [k])[1..] == path[1..] + [k];
      PathExtends(g, g[n].links[path[0]].node, path[1..], m, k);
    }
  }

  /** It leads to one node, and its beginnings lead somewhere as well. */
  lemma {:induction false} PathBegins(g: Graph, n: NodeId, path: seq<nat>, m: NodeId, k: nat) returns (x: NodeId)
    requires Leads(g, n, path, m) && k <= |path|
    ensures Leads(g, n, path[..k], x) && IsNode(g, x) && IsNode(g, m)
    ensures k < |path| ==> path[k] < |g[x].links|
    ensures forall y: NodeId :: Leads(g, n, path[..k], y) ==> y == x
    decreases |path|
  {
    if k == 0 {
      x := n;
      if path != [] {
        var y := PathBegins(g, g[n].links[path[0]].node, path[1..], m, 0);
      }
    } else {
      assert path[..k][1..] == path[1..][..k - 1];
      x := PathBegins(g, g[n].links[path[0]].node, path[1..], m, k - 1);
    }
  }
}
