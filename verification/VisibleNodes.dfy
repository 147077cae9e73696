/**
 * The nodes of a tree that its users see, in document order, as the paths to them: what cursors
 * and child lookups, which skip over hidden nodes by their cached counts, have to agree with.
 */
module VisibleNodes {
  import opened Lengths
  import opened Subtrees
  import opened Summaries
  import opened Places

  type Path = seq<nat>

  /** The paths, from the parent of the place `prefix` leads to. */
  function Under(prefix: Path, paths: seq<Path>): (r: seq<Path>)
    ensures |r| == |paths| && forall k :: 0 <= k < |r| ==> r[k] == prefix + paths[k]
  {
    seq(|paths|, k requires 0 <= k < |paths| => prefix + paths[k])
  }

  /** The alias a production gives to its parent's child number `i`; extras never have one. */
  function AliasOf(lang: Language, t: Tree, i: nat): Symbol
    requires i < |t.children|
  {
    if t.children[i].data.extra then 0
    else AliasAt(lang, t.data.productionId, StructuralIndex(Datas(t.children)[..i]))
  }

  predicate Shows(lang: Language, t: Tree, i: nat)
    requires i < |t.children|
  {
    t.children[i].data.visible || AliasOf(lang, t, i) != 0
  }

  // ----- all visible nodes, in preorder --------------------------------------------------------

  function Visible(lang: Language, t: Tree, shown: bool): seq<Path>
    decreases t, |t.children| + 1
  {
    (if shown then [[]] else []) + Below(lang, t, |t.children|)
  }

  /** Those in the first `n` children. */
  function Below(lang: Language, t: Tree, n: nat): seq<Path>
    requires n <= |t.children|
    decreases t, n
  {
    if n == 0 then []
    else Below(lang, t, n - 1) + Under([n - 1], Visible(lang, t.children[n - 1], Shows(lang, t, n - 1)))
  }

  /** The place at `path` is a visible node. */
  predicate ShownAt(lang: Language, t: Tree, path: Path, shown: bool)
    decreases path
  {
    if path == [] then shown
    else path[0] < |t.children| && ShownAt(lang, t.children[path[0]], path[1..], Shows(lang, t, path[0]))
  }

  lemma UnderMembers(i: nat, paths: seq<Path>, path: Path)
    ensures path in Under([i], paths) <==> path != [] && path[0] == i && path[1..] in paths
  {
    if path in Under([i], paths) {
      var k :| 0 <= k < |paths| && path == [i] + paths[k];
      assert path[1..] == paths[k];
    }
    if path != [] && path[0] == i && path[1..] in paths {
      var k :| 0 <= k < |paths| && path[1..] == paths[k];
      assert path == [i] + paths[k] == Under([i], paths)[k];
    }
  }

  /** The list holds exactly the visible nodes. */
  lemma {:induction false} VisibleMembers(lang: Language, t: Tree, shown: bool, path: Path)
    ensures path in Visible(lang, t, shown) <==> ShownAt(lang, t, path, shown)
    decreases t, |t.children| + 1
  {
    BelowMembers(lang, t, |t.children|, path);
  }

  lemma {:induction false} BelowMembers(lang: Language, t: Tree, n: nat, path: Path)
    requires n <= |t.children|
    ensures path in Below(lang, t, n) <==>
            path != [] && path[0] < n && ShownAt(lang, t.children[path[0]], path[1..], Shows(lang, t, path[0]))
    decreases t, n
  {
    if n > 0 {
      BelowMembers(lang, t, n - 1, path);
      var inside := Visible(lang, t.children[n - 1], Shows(lang, t, n - 1));
      UnderMembers(n - 1, inside, path);
      if path != [] {
        VisibleMembers(lang, t.children[n - 1], Shows(lang, t, n - 1), path[1..]);
      }
    }
  }

  lemma {:induction false} BelowPrefix(lang: Language, t: Tree, m: nat, n: nat)
    requires m <= n <= |t.children|
    ensures Below(lang, t, m) <= Below(lang, t, n)
    decreases n
  {
    if m < n {
      BelowPrefix(lang, t, m, n - 1);
    }
  }

  /** Where the visible nodes of one child are among those of its parent. */
  lemma InsideChild(lang: Language, t: Tree, shown: bool, i: nat, j: nat)
    requires i < |t.children| && j < |Visible(lang, t.children[i], Shows(lang, t, i))|
    ensures var at := (if shown then 1 else 0) + |Below(lang, t, i)| + j;
            && at < |Visible(lang, t, shown)|
            && Visible(lang, t, shown)[at] == [i] + Visible(lang, t.children[i], Shows(lang, t, i))[j]
  {
    VisibleParts(lang, t, shown, i);
    BelowPrefix(lang, t, i + 1, |t.children|);
    hide Below, Visible, Shows;
    Nested(if shown then [[]] else [], Below(lang, t, |t.children|), Below(lang, t, i), i,
           Visible(lang, t.children[i], Shows(lang, t, i)), j);
  }

  lemma Nested(self: seq<Path>, all: seq<Path>, front: seq<Path>, i: nat, inside: seq<Path>, j: nat)
    requires front + Under([i], inside) <= all && j < |inside|
    ensures |self| + |front| + j < |self + all| && (self + all)[|self| + |front| + j] == [i] + inside[j]
  {
    assert (front + Under([i], inside))[|front| + j] == Under([i], inside)[j];
  }

  lemma VisibleParts(lang: Language, t: Tree, shown: bool, i: nat)
    requires i < |t.children|
    ensures Visible(lang, t, shown) == (if shown then [[]] else []) + Below(lang, t, |t.children|)
    ensures Below(lang, t, i + 1) == Below(lang, t, i) + Under([i], Visible(lang, t.children[i], Shows(lang, t, i)))
  {
  }

  /** The number of visible nodes before the place in preorder. */
  function Rank(lang: Language, t: Tree, path: Path, shown: bool): nat
    requires HasPath(t, path)
    decreases path
  {
    if path == [] then 0
    else (if shown then 1 else 0) + |Below(lang, t, path[0])|
         + Rank(lang, t.children[path[0]], path[1..], Shows(lang, t, path[0]))
  }

  /** The rank counts the visible nodes that precede the place, and finds it if it is one. */
  lemma {:induction false} RankCounts(lang: Language, t: Tree, path: Path, shown: bool)
    requires HasPath(t, path)
    ensures var all, rank := Visible(lang, t, shown), Rank(lang, t, path, shown);
            && rank <= |all|
            && (forall j :: 0 <= j < |all| ==> (j < rank <==> Precedes(all[j], path)))
            && (ShownAt(lang, t, path, shown) ==> rank < |all| && all[rank] == path)
    decreases path
  {
    hide Below, Visible, Rank, ShownAt, Precedes, Shows;
    var all, rank := Visible(lang, t, shown), Rank(lang, t, path, shown);
    if path == [] {
      NoneBeforeRoot(lang, t, shown);
    } else {
      var child, childShown := t.children[path[0]], Shows(lang, t, path[0]);
      RankInside(lang, t, path, shown);
      RankCounts(lang, child, path[1..], childShown);
      forall j | 0 <= j < |all| ensures j < rank <==> Precedes(all[j], path) {
        RankCountsOne(lang, t, path, shown, j);
      }
      if ShownAt(lang, t, path, shown) {
        ShownInside(lang, t, path, shown);
        InsideChild(lang, t, shown, path[0], Rank(lang, child, path[1..], childShown));
        assert path == [path[0]] + path[1..];
      }
    }
  }

  lemma NoneBeforeRoot(lang: Language, t: Tree, shown: bool)
    ensures Rank(lang, t, [], shown) == 0
    ensures var all := Visible(lang, t, shown); forall j :: 0 <= j < |all| ==> !Precedes(all[j], [])
    ensures var all := Visible(lang, t, shown); ShownAt(lang, t, [], shown) ==> 0 < |all| && all[0] == []
  {
    hide Below;
  }

  lemma RankInside(lang: Language, t: Tree, path: Path, shown: bool)
    requires HasPath(t, path) && path != []
    ensures var i, child := path[0], t.children[path[0]];
            var start := (if shown then 1 else 0) + |Below(lang, t, i)|;
            && Rank(lang, t, path, shown) == start + Rank(lang, child, path[1..], Shows(lang, t, i))
            && start + |Visible(lang, child, Shows(lang, t, i))| <= |Visible(lang, t, shown)|
  {
    hide Below, Visible, Shows, Rank;
    RankStep(lang, t, path, shown);
    VisibleParts(lang, t, shown, path[0]);
    BelowPrefix(lang, t, path[0] + 1, |t.children|);
  }

  lemma RankStep(lang: Language, t: Tree, path: Path, shown: bool)
    requires HasPath(t, path) && path != []
    ensures Rank(lang, t, path, shown)
         == (if shown then 1 else 0) + |Below(lang, t, path[0])| + Rank(lang, t.children[path[0]], path[1..], Shows(lang, t, path[0]))
  {
    hide Below;
  }

  lemma RankCountsOne(lang: Language, t: Tree, path: Path, shown: bool, j: nat)
    requires HasPath(t, path) && path != [] && j < |Visible(lang, t, shown)|
    requires var child, childShown := t.children[path[0]], Shows(lang, t, path[0]);
             var rank, inside := Rank(lang, child, path[1..], childShown), Visible(lang, child, childShown);
             rank <= |inside| && forall k :: 0 <= k < |inside| ==> (k < rank <==> Precedes(inside[k], path[1..]))
    ensures j < Rank(lang, t, path, shown) <==> Precedes(Visible(lang, t, shown)[j], path)
  {
    hide Below, Visible, Rank, ShownAt, Precedes, Shows;
    var i := path[0];
    var start := (if shown then 1 else 0) + |Below(lang, t, i)|;
    var inside := Visible(lang, t.children[i], Shows(lang, t, i));
    RankInside(lang, t, path, shown);
    VisibleParts(lang, t, shown, i);
    if j < start {
      EarlierChild(lang, t, shown, i, j, path);
    } else if j < start + |inside| {
      InsideChild(lang, t, shown, i, j - start);
      PrecedesInside(i, inside[j - start], path);
    } else {
      LaterChild(lang, t, shown, i, j, path);
    }
  }

  lemma ShownInside(lang: Language, t: Tree, path: Path, shown: bool)
    requires path != [] && ShownAt(lang, t, path, shown)
    ensures path[0] < |t.children| && ShownAt(lang, t.children[path[0]], path[1..], Shows(lang, t, path[0]))
  {
  }

  lemma PrecedesInside(i: nat, p: Path, path: Path)
    requires path != [] && path[0] == i
    ensures Precedes([i] + p, path) <==> Precedes(p, path[1..])
  {
    assert ([i] + p)[1..] == p;
  }

  lemma EarlierChild(lang: Language, t: Tree, shown: bool, i: nat, j: nat, path: Path)
    requires i < |t.children| && path != [] && path[0] == i
    requires j < (if shown then 1 else 0) + |Below(lang, t, i)|
    ensures j < |Visible(lang, t, shown)| && Precedes(Visible(lang, t, shown)[j], path)
  {
    BelowPrefix(lang, t, i, |t.children|);
    if j >= if shown then 1 else 0 {
      var p := Visible(lang, t, shown)[j];
      assert p == Below(lang, t, i)[j - if shown then 1 else 0];
      BelowMembers(lang, t, i, p);
    }
  }

  lemma LaterChild(lang: Language, t: Tree, shown: bool, i: nat, j: nat, path: Path)
    requires i < |t.children| && path != [] && path[0] == i
    requires (if shown then 1 else 0) + |Below(lang, t, i + 1)| <= j < |Visible(lang, t, shown)|
    ensures !Precedes(Visible(lang, t, shown)[j], path)
  {
    hide Below;
    var front := if shown then 1 else 0;
    BelowFrom(lang, t, i + 1, |t.children|, j - front);
    assert Visible(lang, t, shown)[j] == Below(lang, t, |t.children|)[j - front];
  }

  lemma {:induction false} BelowFrom(lang: Language, t: Tree, m: nat, n: nat, j: nat)
    requires m <= n <= |t.children| && |Below(lang, t, m)| <= j < |Below(lang, t, n)|
    ensures Below(lang, t, n)[j] != [] && Below(lang, t, n)[j][0] >= m
    decreases n
  {
    hide Below;
    if m < n {
      BelowAt(lang, t, n - 1, j);
      if j < |Below(lang, t, n - 1)| {
        BelowFrom(lang, t, m, n - 1, j);
      }
    }
  }

  lemma BelowAt(lang: Language, t: Tree, n: nat, j: nat)
    requires n < |t.children| && j < |Below(lang, t, n + 1)|
    ensures var path := Below(lang, t, n + 1)[j];
            if j < |Below(lang, t, n)| then path == Below(lang, t, n)[j] else path != [] && path[0] == n
  {
    BelowStep(lang, t, n);
    hide Below, Visible, Shows;
    var inside := Visible(lang, t.children[n], Shows(lang, t, n));
    if j >= |Below(lang, t, n)| {
      assert Below(lang, t, n + 1)[j] == [n] + inside[j - |Below(lang, t, n)|];
    }
  }

  lemma BelowStep(lang: Language, t: Tree, n: nat)
    requires n < |t.children|
    ensures Below(lang, t, n + 1) == Below(lang, t, n) + Under([n], Visible(lang, t.children[n], Shows(lang, t, n)))
  {
  }

  lemma {:induction false} RankOfChild(lang: Language, t: Tree, path: Path, shown: bool, i: nat)
    requires HasPath(t, path) && i < |NodeAt(t, path).children|
    ensures HasPath(t, path + [i])
    ensures var self := if ShownAt(lang, t, path, shown) then 1 else 0;
            Rank(lang, t, path + [i], shown) == Rank(lang, t, path, shown) + self + |Below(lang, NodeAt(t, path), i)|
    ensures ShownAt(lang, t, path + [i], shown) == Shows(lang, NodeAt(t, path), i)
    decreases path
  {
    if path == [] {
      assert [i][1..] == [];
    } else {
      assert (path + [i])[1..] == path[1..] + [i];
      RankOfChild(lang, t.children[path[0]], path[1..], Shows(lang, t, path[0]), i);
    }
  }

  // ----- the visible children of a node --------------------------------------------------------

  /** Those among the first `n` children, or inside them if they are hidden. */
  function Kids(lang: Language, t: Tree, n: nat): seq<Path>
    requires n <= |t.children|
    decreases t, n
  {
    if n == 0 then [] else Kids(lang, t, n - 1) + Under([n - 1], KidsIn(lang, t, n - 1))
  }

  /** What child number `i` contributes: itself, or its own visible children if it is hidden. */
  function KidsIn(lang: Language, t: Tree, i: nat): seq<Path>
    requires i < |t.children|
    decreases t, i
  {
    if Shows(lang, t, i) then [[]] else AllKids(lang, t.children[i])
  }

  function AllKids(lang: Language, t: Tree): seq<Path>
    decreases t, |t.children| + 1
  {
    Kids(lang, t, |t.children|)
  }

  /** A path through hidden nodes to a visible one. */
  predicate LeadsToKid(lang: Language, t: Tree, path: Path)
    decreases path
  {
    path != [] && path[0] < |t.children| &&
    if Shows(lang, t, path[0]) then |path| == 1 else LeadsToKid(lang, t.children[path[0]], path[1..])
  }

  /** The list holds exactly the visible nodes without a visible node in between. */
  lemma {:induction false} KidMembers(lang: Language, t: Tree, path: Path)
    ensures path in AllKids(lang, t) <==> LeadsToKid(lang, t, path)
    decreases t, |t.children| + 1
  {
    KidMembersFirst(lang, t, |t.children|, path);
  }

  lemma {:induction false} KidMembersFirst(lang: Language, t: Tree, n: nat, path: Path)
    requires n <= |t.children|
    ensures path in Kids(lang, t, n) <==> path != [] && path[0] < n && LeadsToKid(lang, t, path)
    decreases t, n
  {
    if n > 0 {
      KidMembersFirst(lang, t, n - 1, path);
      UnderMembers(n - 1, KidsIn(lang, t, n - 1), path);
      if path != [] {
        if Shows(lang, t, n - 1) {
          assert path[1..] in [[]] <==> path[1..] == [];
        } else {
          KidMembers(lang, t.children[n - 1], path[1..]);
        }
      }
    }
  }

  lemma {:induction false} KidsPrefix(lang: Language, t: Tree, m: nat, n: nat)
    requires m <= n <= |t.children|
    ensures Kids(lang, t, m) <= Kids(lang, t, n)
    decreases n
  {
    if m < n {
      KidsPrefix(lang, t, m, n - 1);
    }
  }

  /** The visible children after child number `i`. */
  function KidsAfter(lang: Language, t: Tree, i: nat): seq<Path>
    requires i < |t.children|
  {
    KidsPrefix(lang, t, i + 1, |t.children|);
    AllKids(lang, t)[|Kids(lang, t, i + 1)|..]
  }

  lemma KidsSplit(lang: Language, t: Tree, i: nat)
    requires i < |t.children|
    ensures AllKids(lang, t) == Kids(lang, t, i) + Under([i], KidsIn(lang, t, i)) + KidsAfter(lang, t, i)
  {
    hide Kids, KidsIn;
    KidsOneMore(lang, t, i);
    KidsPrefix(lang, t, i + 1, |t.children|);
    PrefixAndRest(Kids(lang, t, i + 1), AllKids(lang, t));
  }

  lemma PrefixAndRest<T>(xs: seq<T>, ys: seq<T>)
    requires xs <= ys
    ensures ys == xs + ys[|xs|..]
  {
  }

  lemma KidsOneMore(lang: Language, t: Tree, i: nat)
    requires i < |t.children|
    ensures Kids(lang, t, i + 1) == Kids(lang, t, i) + Under([i], KidsIn(lang, t, i))
  {
  }

  /** Where the visible children inside one child are. */
  lemma KidInside(lang: Language, t: Tree, i: nat, j: nat)
    requires i < |t.children| && j < |KidsIn(lang, t, i)|
    ensures |Kids(lang, t, i)| + j < |AllKids(lang, t)|
    ensures AllKids(lang, t)[|Kids(lang, t, i)| + j] == [i] + KidsIn(lang, t, i)[j]
  {
    KidsSplit(lang, t, i);
  }

  /** The visible children of the node that come after the place at `path`, and are not inside it. */
  function Rest(lang: Language, t: Tree, path: Path): seq<Path>
    requires HasPath(t, path)
    decreases path
  {
    if path == [] then []
    else Under([path[0]], Rest(lang, t.children[path[0]], path[1..])) + KidsAfter(lang, t, path[0])
  }

  /** After one visible child come the later ones. */
  lemma {:induction false} RestOfKid(lang: Language, t: Tree, j: nat)
    requires j < |AllKids(lang, t)|
    ensures HasPath(t, AllKids(lang, t)[j]) && Rest(lang, t, AllKids(lang, t)[j]) == AllKids(lang, t)[j + 1..]
    decreases t
  {
    hide Kids, KidsIn, AllKids, KidsAfter, Rest, Shows, HasPath;
    AllKidsIs(lang, t);
    var all := AllKids(lang, t);
    var i := ChildOfKid(lang, t, |t.children|, j);
    KidsSplit(lang, t, i);
    var k, inside := j - |Kids(lang, t, i)|, KidsIn(lang, t, i);
    if Shows(lang, t, i) {
      KidIsSelf(lang, t, i);
      RestOfSelf(lang, t.children[i]);
    } else {
      KidsOfHidden(lang, t, i);
      RestOfKid(lang, t.children[i], k);
    }
    RestInside(lang, t, i, inside[k]);
    SuffixUnder(Kids(lang, t, i), [i], inside, KidsAfter(lang, t, i), k);
  }

  lemma RestOfSelf(lang: Language, t: Tree)
    ensures HasPath(t, []) && Rest(lang, t, []) == []
  {
  }

  lemma RestInside(lang: Language, t: Tree, i: nat, path: Path)
    requires i < |t.children| && HasPath(t.children[i], path)
    ensures HasPath(t, [i] + path)
    ensures Rest(lang, t, [i] + path) == Under([i], Rest(lang, t.children[i], path)) + KidsAfter(lang, t, i)
  {
    assert ([i] + path)[1..] == path;
  }

  lemma SuffixUnder(front: seq<Path>, prefix: Path, inside: seq<Path>, back: seq<Path>, k: nat)
    requires k < |inside|
    ensures (front + Under(prefix, inside) + back)[|front| + k + 1..] == Under(prefix, inside[k + 1..]) + back
  {
    assert Under(prefix, inside)[k + 1..] == Under(prefix, inside[k + 1..]);
    assert front + Under(prefix, inside) + back == front + (Under(prefix, inside) + back);
  }

  lemma {:induction false} ChildOfKid(lang: Language, t: Tree, n: nat, j: nat) returns (i: nat)
    requires n <= |t.children| && j < |Kids(lang, t, n)|
    ensures i < n && |Kids(lang, t, i)| <= j < |Kids(lang, t, i)| + |KidsIn(lang, t, i)|
    decreases n
  {
    if j < |Kids(lang, t, n - 1)| {
      i := ChildOfKid(lang, t, n - 1, j);
    } else {
      i := n - 1;
    }
  }

  lemma UnderUnder(p: Path, q: Path, paths: seq<Path>, more: seq<Path>)
    ensures Under(p, Under(q, paths)) == Under(p + q, paths)
    ensures Under(p, paths + more) == Under(p, paths) + Under(p, more)
    ensures Under([], paths) == paths
  {
    forall k | 0 <= k < |paths| ensures p + (q + paths[k]) == (p + q) + paths[k] && [] + paths[k] == paths[k] {
    }
  }

  lemma {:induction false} RestOfChild(lang: Language, t: Tree, path: Path, i: nat)
    requires HasPath(t, path) && i < |NodeAt(t, path).children|
    ensures HasPath(t, path + [i])
    ensures Rest(lang, t, path + [i]) == Under(path, KidsAfter(lang, NodeAt(t, path), i)) + Rest(lang, t, path)
    decreases path
  {
    hide Kids, KidsIn, AllKids, KidsAfter;
    if path == [] {
      assert [i][1..] == [];
      assert Under([i], []) == [];
      UnderUnder([], [], KidsAfter(lang, t, i), []);
    } else {
      var child, rest, after := t.children[path[0]], path[1..], KidsAfter(lang, NodeAt(t, path), i);
      assert (path + [i])[1..] == rest + [i];
      RestOfChild(lang, child, rest, i);
      hide NodeAt;
      UnderUnder([path[0]], rest, after, []);
      UnderUnder([path[0]], [], Under(rest, after), Rest(lang, child, rest));
      assert [path[0]] + rest == path;
    }
  }

  // ----- cached counts -------------------------------------------------------------------------

  /** Every node has counted its visible children and descendants. */
  predicate Counted(lang: Language, t: Tree) {
    && |t.children| == t.data.childCount
    && t.data.VisibleDescendants() == |Below(lang, t, |t.children|)|
    && t.data.VisibleChildren() == |AllKids(lang, t)|
    && forall i :: 0 <= i < |t.children| ==> Counted(lang, t.children[i])
  }

  /** No production has an alias for the end of the document. */
  predicate EndUnaliased(lang: Language, t: Tree) {
    forall i :: 0 <= i < |t.children| ==>
      && (t.children[i].data.symbol == SYM_END ==> AliasOf(lang, t, i) == 0)
      && EndUnaliased(lang, t.children[i])
  }

  /** A summary counts the visible nodes. */
  lemma {:induction false} SummarizedIsCounted(lang: Language, t: Tree)
    requires Summarized(lang, t) && EndUnaliased(lang, t)
    ensures Counted(lang, t)
    decreases t
  {
    SumOfNone(lang, t, false);
    hide Sum, Below, Kids, KidsIn, Visible, SizeOf, AnyError, AnyOnFirstRow, AliasOf;
    forall i | 0 <= i < |t.children| ensures Counted(lang, t.children[i]) {
      SummarizedIsCounted(lang, t.children[i]);
    }
    if t.children != [] {
      var ds := Datas(t.children);
      assert AgreesWith(lang, t.data, ds);
      SumCounts(lang, t, ChargesExtent(t.data.symbol), |ds|);
      assert ds[..|ds|] == ds;
      KeptCounts(t.data, Summarize(lang, t.data, ds));
    }
  }

  lemma KeptCounts(x: Data, y: Data)
    requires Kept(x) == Kept(y)
    ensures x.visibleDescendantCount == y.visibleDescendantCount && x.visibleChildCount == y.visibleChildCount
    ensures x.namedChildCount == y.namedChildCount
    ensures x.padding == y.padding && x.size == y.size
  {
    KeptFields(x, y);
  }

  lemma {:induction false} SumCounts(lang: Language, t: Tree, inError: bool, n: nat)
    requires n <= |t.children| && EndUnaliased(lang, t)
    requires forall i :: 0 <= i < |t.children| ==> Counted(lang, t.children[i])
    ensures var s := Sum(lang, inError, t.data.productionId, Datas(t.children)[..n]);
            s.visibleDescendants == |Below(lang, t, n)| && s.visibleChildren == |Kids(lang, t, n)|
    decreases n
  {
    hide Sum, One, Visible, KidsIn, Counted, EndUnaliased, Shows, Below, Kids, AliasAt, StructuralIndex, Add, Max;
    if n == 0 {
      SumOfNone(lang, t, inError);
    } else {
      KidsAndBelow(lang, t, n - 1);
      SumOneMore(lang, inError, t.data.productionId, Datas(t.children), n - 1);
      SumCounts(lang, t, inError, n - 1);
      assert Counted(lang, t.children[n - 1]);
      OneCounts(lang, t, n - 1, inError, AliasAt(lang, t.data.productionId, StructuralIndex(Datas(t.children)[..n - 1])));
    }
  }

  lemma SumOfNone(lang: Language, t: Tree, inError: bool)
    ensures Sum(lang, inError, t.data.productionId, Datas(t.children)[..0]) == NOTHING
    ensures Below(lang, t, 0) == [] && Kids(lang, t, 0) == []
  {
  }

  lemma SumOneMore(lang: Language, inError: bool, p: nat, ds: seq<Data>, n: nat)
    requires n < |ds|
    ensures Sum(lang, inError, p, ds[..n + 1])
         == Combine(Sum(lang, inError, p, ds[..n]), One(lang, inError, AliasAt(lang, p, StructuralIndex(ds[..n])), ds[n]))
  {
    assert ds[..n + 1][..n] == ds[..n];
  }

  lemma KidsAndBelow(lang: Language, t: Tree, i: nat)
    requires i < |t.children|
    ensures |Below(lang, t, i + 1)| == |Below(lang, t, i)| + |Visible(lang, t.children[i], Shows(lang, t, i))|
    ensures |Kids(lang, t, i + 1)| == |Kids(lang, t, i)| + |KidsIn(lang, t, i)|
  {
  }

  lemma OneCounts(lang: Language, t: Tree, i: nat, inError: bool, alias: Symbol)
    requires i < |t.children| && EndUnaliased(lang, t) && Counted(lang, t.children[i])
    requires alias == AliasAt(lang, t.data.productionId, StructuralIndex(Datas(t.children)[..i]))
    ensures var one := One(lang, inError, alias, t.children[i].data);
            && one.visibleDescendants == |Visible(lang, t.children[i], Shows(lang, t, i))|
            && one.visibleChildren == |KidsIn(lang, t, i)|
  {
    hide Below, Kids, Charge;
    assert EffectiveAlias(alias, t.children[i].data) == AliasOf(lang, t, i);
  }

  /** The node that the path leads to has a name of its own, or is given one by an alias. */
  predicate NamedAt(lang: Language, t: Tree, path: Path)
    decreases path
  {
    path != [] && path[0] < |t.children| &&
    if |path| > 1 then NamedAt(lang, t.children[path[0]], path[1..])
    else if AliasOf(lang, t, path[0]) != 0 then lang.isNamed(AliasOf(lang, t, path[0]))
    else t.children[path[0]].data.named
  }

  function NamedAmong(lang: Language, t: Tree, paths: seq<Path>): nat {
    if paths == [] then 0 else (if NamedAt(lang, t, paths[0]) then 1 else 0) + NamedAmong(lang, t, paths[1..])
  }

  lemma {:induction false} NamedJoin(lang: Language, t: Tree, xs: seq<Path>, ys: seq<Path>)
    ensures NamedAmong(lang, t, xs + ys) == NamedAmong(lang, t, xs) + NamedAmong(lang, t, ys)
  {
    hide NamedAt;
    if xs == [] {
      assert xs + ys == ys;
    } else {
      assert (xs + ys)[1..] == xs[1..] + ys;
      NamedJoin(lang, t, xs[1..], ys);
    }
  }

  lemma {:induction false} NamedUnder(lang: Language, t: Tree, i: nat, paths: seq<Path>)
    requires i < |t.children| && forall k :: 0 <= k < |paths| ==> paths[k] != []
    ensures NamedAmong(lang, t, Under([i], paths)) == NamedAmong(lang, t.children[i], paths)
  {
    if paths != [] {
      assert Under([i], paths)[1..] == Under([i], paths[1..]) && ([i] + paths[0])[1..] == paths[0];
      NamedUnder(lang, t, i, paths[1..]);
    }
  }

  /** What one child adds to the count of named children: itself if it is shown, or its own. */
  lemma NamedInside(lang: Language, t: Tree, i: nat, inError: bool, alias: Symbol)
    requires i < |t.children| && EndUnaliased(lang, t)
    requires t.children[i].data.NamedChildren() == NamedAmong(lang, t.children[i], AllKids(lang, t.children[i]))
    requires alias == AliasAt(lang, t.data.productionId, StructuralIndex(Datas(t.children)[..i]))
    ensures One(lang, inError, alias, t.children[i].data).namedChildren == NamedAmong(lang, t, Under([i], KidsIn(lang, t, i)))
  {
    hide Kids, Charge, AliasAt, StructuralIndex;
    assert EffectiveAlias(alias, t.children[i].data) == AliasOf(lang, t, i);
    if Shows(lang, t, i) {
      var at: Path := [i];
      assert Under(at, KidsIn(lang, t, i)) == [at] by { assert at + [] == at; }
      assert [at][1..] == [];
    } else {
      forall k | 0 <= k < |AllKids(lang, t.children[i])| ensures AllKids(lang, t.children[i])[k] != [] {
        KidMembers(lang, t.children[i], AllKids(lang, t.children[i])[k]);
      }
      NamedUnder(lang, t, i, AllKids(lang, t.children[i]));
    }
  }

  lemma {:induction false} SumNamed(lang: Language, t: Tree, inError: bool, n: nat)
    requires n <= |t.children| && EndUnaliased(lang, t)
    requires forall i :: 0 <= i < |t.children| ==>
               t.children[i].data.NamedChildren() == NamedAmong(lang, t.children[i], AllKids(lang, t.children[i]))
    ensures Sum(lang, inError, t.data.productionId, Datas(t.children)[..n]).namedChildren == NamedAmong(lang, t, Kids(lang, t, n))
    decreases n
  {
    hide Sum, One, KidsIn, EndUnaliased, Kids, AliasAt, StructuralIndex, Add, Max, AllKids;
    if n == 0 {
      SumOfNone(lang, t, inError);
    } else {
      KidsOneMore(lang, t, n - 1);
      NamedJoin(lang, t, Kids(lang, t, n - 1), Under([n - 1], KidsIn(lang, t, n - 1)));
      SumOneMore(lang, inError, t.data.productionId, Datas(t.children), n - 1);
      SumNamed(lang, t, inError, n - 1);
      NamedInside(lang, t, n - 1, inError, AliasAt(lang, t.data.productionId, StructuralIndex(Datas(t.children)[..n - 1])));
    }
  }

  /** A summary counts which of the visible children are named. */
  lemma {:induction false} SummarizedCountsNamed(lang: Language, t: Tree)
    requires Summarized(lang, t) && EndUnaliased(lang, t)
    ensures t.data.NamedChildren() == NamedAmong(lang, t, AllKids(lang, t))
    decreases t
  {
    SumOfNone(lang, t, false);
    AllKidsIs(lang, t);
    hide Sum, Kids, SizeOf, AnyError, AnyOnFirstRow, AliasOf, NamedAt, AllKids;
    forall i | 0 <= i < |t.children|
      ensures t.children[i].data.NamedChildren() == NamedAmong(lang, t.children[i], AllKids(lang, t.children[i]))
    {
      SummarizedCountsNamed(lang, t.children[i]);
    }
    if t.children != [] {
      var ds := Datas(t.children);
      assert AgreesWith(lang, t.data, ds);
      SumNamed(lang, t, ChargesExtent(t.data.symbol), |ds|);
      assert ds[..|ds|] == ds;
      KeptCounts(t.data, Summarize(lang, t.data, ds));
    }
  }

  lemma NoKidsYet(lang: Language, t: Tree)
    ensures Kids(lang, t, 0) == []
  {
  }

  lemma AllKidsIs(lang: Language, t: Tree)
    ensures Kids(lang, t, |t.children|) == AllKids(lang, t)
  {
  }

  lemma KidsStep(lang: Language, t: Tree, i: nat)
    requires i < |t.children| && Counted(lang, t.children[i])
    ensures Kids(lang, t, i + 1) == Kids(lang, t, i) + Under([i], KidsIn(lang, t, i))
    ensures KidsIn(lang, t, i) != [] <==> Shows(lang, t, i) || t.children[i].data.VisibleChildren() > 0
    ensures |KidsIn(lang, t, i)| == if Shows(lang, t, i) then 1 else t.children[i].data.VisibleChildren()
  {
  }

  lemma FirstKid(lang: Language, t: Tree, i: nat)
    requires i < |t.children| && Kids(lang, t, i) == [] && KidsIn(lang, t, i) != []
    ensures AllKids(lang, t) != [] && AllKids(lang, t)[0] == [i] + KidsIn(lang, t, i)[0]
  {
    KidInside(lang, t, i, 0);
  }

  lemma KidIsSelf(lang: Language, t: Tree, i: nat)
    requires i < |t.children| && Shows(lang, t, i)
    ensures KidsIn(lang, t, i) == [[]]
  {
  }

  lemma KidsOfHidden(lang: Language, t: Tree, i: nat)
    requires i < |t.children| && !Shows(lang, t, i)
    ensures KidsIn(lang, t, i) == AllKids(lang, t.children[i])
  {
  }

  lemma NoneAfter(lang: Language, t: Tree, i: nat)
    requires i < |t.children| && Kids(lang, t, |t.children|) == Kids(lang, t, i + 1)
    ensures KidsAfter(lang, t, i) == []
  {
  }

  lemma LastKid(lang: Language, t: Tree, i: nat)
    requires i < |t.children| && KidsAfter(lang, t, i) == [] && KidsIn(lang, t, i) != []
    ensures var all, inside := AllKids(lang, t), KidsIn(lang, t, i);
            all != [] && all[|all| - 1] == [i] + inside[|inside| - 1]
  {
    hide AllKids, Kids, KidsIn, KidsAfter;
    KidsSplit(lang, t, i);
    KidInside(lang, t, i, |KidsIn(lang, t, i)| - 1);
  }

  lemma FirstAfter(lang: Language, t: Tree, i: nat, c: nat)
    requires i < c < |t.children| && Kids(lang, t, c) == Kids(lang, t, i + 1) && KidsIn(lang, t, c) != []
    ensures KidsAfter(lang, t, i) != [] && KidsAfter(lang, t, i)[0] == [c] + KidsIn(lang, t, c)[0]
  {
    KidInside(lang, t, c, 0);
  }

  // ----- positions -----------------------------------------------------------------------------

  /** Where child number `i` starts if its parent, without its padding, starts at `pos`. */
  function ChildStart(t: Tree, pos: Length, i: nat): Length
    requires i < |t.children|
  {
    if i == 0 then pos
    else Add(Add(ChildStart(t, pos, i - 1), t.children[i - 1].data.size), t.children[i].data.padding)
  }

  function StartAt(t: Tree, pos: Length, path: Path): Length
    requires HasPath(t, path)
    decreases path
  {
    if path == [] then pos else StartAt(t.children[path[0]], ChildStart(t, pos, path[0]), path[1..])
  }

  function EndAt(t: Tree, pos: Length, path: Path): Length
    requires HasPath(t, path)
  {
    Add(StartAt(t, pos, path), NodeAt(t, path).data.size)
  }

  /** Every inner node is padded like its first child and as large as its children together. */
  predicate Spanning(t: Tree) {
    && (t.children != [] ==>
          t.data.padding == t.children[0].data.padding && t.data.size == SizeOf(Datas(t.children)))
    && forall i :: 0 <= i < |t.children| ==> Spanning(t.children[i])
  }

  lemma {:induction false} SummarizedIsSpanning(lang: Language, t: Tree)
    requires Summarized(lang, t)
    ensures Spanning(t)
    decreases t
  {
    forall i | 0 <= i < |t.children| ensures Spanning(t.children[i]) {
      SummarizedIsSpanning(lang, t.children[i]);
    }
    if t.children != [] {
      var ds := Datas(t.children);
      assert AgreesWith(lang, t.data, ds);
      KeptCounts(t.data, Summarize(lang, t.data, ds));
    }
  }

  function LengthOf(leaves: seq<Data>): Length {
    if leaves == [] then ZERO else Add(LengthOf(leaves[..|leaves| - 1]), leaves[|leaves| - 1].Total())
  }

  lemma {:induction false} LengthAppend(xs: seq<Data>, ys: seq<Data>)
    ensures LengthOf(xs + ys) == Add(LengthOf(xs), LengthOf(ys))
    decreases |ys|
  {
    if ys == [] {
      assert xs + ys == xs;
      LengthMonoid(LengthOf(xs), ZERO, ZERO);
    } else {
      assert (xs + ys)[..|xs + ys| - 1] == xs + ys[..|ys| - 1];
      LengthAppend(xs, ys[..|ys| - 1]);
      hide Add;
      LengthMonoid(LengthOf(xs), LengthOf(ys[..|ys| - 1]), ys[|ys| - 1].Total());
    }
  }

  lemma {:induction false} LeavesLength(t: Tree)
    requires Spanning(t)
    ensures LengthOf(Leaves(t)) == t.data.Total()
    decreases t, |t.children| + 1
  {
    if t.children == [] {
      assert [t.data][..0] == [];
      LengthMonoid(t.data.Total(), ZERO, ZERO);
    } else {
      FirstLeavesLength(t, |t.children|);
      assert t.children[..|t.children|] == t.children && Datas(t.children)[..|t.children|] == Datas(t.children);
    }
  }

  lemma NoLeaves()
    ensures ListLeaves([]) == [] && LengthOf([]) == ZERO
  {
  }

  lemma {:induction false} FirstLeavesLength(t: Tree, n: nat)
    requires Spanning(t) && n <= |t.children|
    ensures LengthOf(ListLeaves(t.children[..n]))
         == if n == 0 then ZERO else Add(t.data.padding, SizeOf(Datas(t.children)[..n]))
    decreases t, n
  {
    hide Leaves, ListLeaves, LengthOf;
    NoLeaves();
    if n > 0 {
      FirstLeavesLength(t, n - 1);
      ListLeavesMore(t.children, n - 1);
      LeavesLength(t.children[n - 1]);
      LengthAppend(ListLeaves(t.children[..n - 1]), Leaves(t.children[n - 1]));
      var ds := Datas(t.children);
      assert ds[..n][..n - 1] == ds[..n - 1];
      LengthMonoid(t.data.padding, if n > 1 then SizeOf(ds[..n - 1]) else ZERO, t.children[n - 1].data.Total());
    }
  }

  /** A child ends where the children up to it do. */
  lemma {:induction false} ChildEnd(t: Tree, pos: Length, i: nat)
    requires i < |t.children|
    ensures Add(ChildStart(t, pos, i), t.children[i].data.size) == Add(pos, SizeOf(Datas(t.children)[..i + 1]))
    decreases i
  {
    var ds := Datas(t.children);
    if i > 0 {
      ChildEnd(t, pos, i - 1);
      assert ds[..i + 1][..i] == ds[..i];
      LengthMonoid(Add(pos, SizeOf(ds[..i])), ds[i].padding, ds[i].size);
      LengthMonoid(pos, SizeOf(ds[..i]), ds[i].Total());
    }
  }

  lemma FirstPadding(t: Tree)
    requires Spanning(t) && t.children != []
    ensures t.data.padding == t.children[0].data.padding
  {
  }

  /** A child starts after the leaves of the children before it, and its own padding. */
  lemma ChildStartIsPrefix(t: Tree, origin: Length, i: nat)
    requires Spanning(t) && i < |t.children|
    ensures ChildStart(t, Add(origin, t.data.padding), i)
         == Add(Add(origin, LengthOf(ListLeaves(t.children[..i]))), t.children[i].data.padding)
  {
    hide LengthOf, ListLeaves, SizeOf, Add, Spanning, ChildStart;
    var pos := Add(origin, t.data.padding);
    FirstLeavesLength(t, i);
    ChildStartStep(t, pos, i);
    if i == 0 {
      FirstPadding(t);
      LengthMonoid(origin, ZERO, ZERO);
    } else {
      ChildEnd(t, pos, i - 1);
      LengthMonoid(origin, t.data.padding, SizeOf(Datas(t.children)[..i]));
    }
  }

  lemma ChildStartStep(t: Tree, pos: Length, i: nat)
    requires i < |t.children|
    ensures ChildStart(t, pos, i)
         == if i == 0 then pos else Add(Add(ChildStart(t, pos, i - 1), t.children[i - 1].data.size), t.children[i].data.padding)
  {
  }

  /** A place starts after the leaves before it and its own padding. */
  lemma {:induction false} StartIsPrefixSum(t: Tree, origin: Length, path: Path)
    requires Spanning(t) && HasPath(t, path)
    ensures StartAt(t, Add(origin, t.data.padding), path)
         == Add(Add(origin, LengthOf(LeavesBefore(t, path))), NodeAt(t, path).data.padding)
    decreases path
  {
    if path == [] {
      LengthMonoid(origin, ZERO, ZERO);
    } else {
      var i, child := path[0], t.children[path[0]];
      var before := LengthOf(ListLeaves(t.children[..i]));
      ChildStartIsPrefix(t, origin, i);
      StartIsPrefixSum(child, Add(origin, before), path[1..]);
      LengthAppend(ListLeaves(t.children[..i]), LeavesBefore(child, path[1..]));
      LengthMonoid(origin, before, LengthOf(LeavesBefore(child, path[1..])));
    }
  }

  lemma {:induction false} StartOfChild(t: Tree, pos: Length, path: Path, i: nat)
    requires HasPath(t, path) && i < |NodeAt(t, path).children|
    ensures HasPath(t, path + [i])
    ensures StartAt(t, pos, path + [i]) == ChildStart(NodeAt(t, path), StartAt(t, pos, path), i)
    decreases path
  {
    if path == [] {
      assert [i][1..] == [];
    } else {
      assert (path + [i])[1..] == path[1..] + [i];
      StartOfChild(t.children[path[0]], ChildStart(t, pos, path[0]), path[1..], i);
    }
  }

  predicate Lte(a: Length, b: Length) { a.bytes <= b.bytes && PointLte(a.extent, b.extent) }

  lemma {:induction false} SizesGrow(ds: seq<Data>, m: nat, n: nat)
    requires 0 < m <= n <= |ds|
    ensures Lte(SizeOf(ds[..m]), SizeOf(ds[..n]))
    decreases n
  {
    if m < n {
      SizesGrow(ds, m, n - 1);
      assert ds[..n][..n - 1] == ds[..n - 1];
    }
  }

  /** A place lies within the node. */
  lemma {:induction false} Within(t: Tree, pos: Length, path: Path)
    requires Spanning(t) && HasPath(t, path)
    ensures Lte(pos, StartAt(t, pos, path)) && Lte(EndAt(t, pos, path), Add(pos, t.data.size))
    decreases path
  {
    if path != [] {
      var i, ds := path[0], Datas(t.children);
      Within(t.children[i], ChildStart(t, pos, i), path[1..]);
      ChildEnd(t, pos, i);
      SizesGrow(ds, i + 1, |ds|);
      assert ds[..|ds|] == ds;
      ChildStartsLater(t, pos, 0, i);
    }
  }

  lemma {:induction false} ChildStartsLater(t: Tree, pos: Length, i: nat, j: nat)
    requires i <= j < |t.children|
    ensures Lte(ChildStart(t, pos, i), ChildStart(t, pos, j))
    ensures i < j ==> Lte(Add(ChildStart(t, pos, i), t.children[i].data.size), ChildStart(t, pos, j))
    decreases j
  {
    if i < j {
      ChildStartsLater(t, pos, i, j - 1);
    }
  }
}
