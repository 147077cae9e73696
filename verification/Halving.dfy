/** What a row of rotations makes of a repetition, and how much shorter its left edge becomes. */
module Halvings {
  import opened Subtrees
  import opened SubtreePools
  import opened Ownership
  import opened Rotations

  /** `count` rotations, each one link further down the left edge, as far as they are possible. */
  function Turned(s: Store, t: Addr, count: nat, symbol: Symbol): Store
    decreases count
  {
    if count == 0 || !Rotatable(s, t, symbol) then s
    else
      var c := Child(s, t);
      var g := Child(s, c);
      if t == c || c == g || t == g then s else Turned(Rotate(s, t, c, g), g, count - 1, symbol)
  }

  /** Rows of `i`, `i / 2`, `i / 4` ... rotations from `t` down. */
  function Halved(s: Store, t: Addr, i: nat, symbol: Symbol): Store
    decreases i
  {
    if i == 0 then s else Halved(Turned(s, t, i, symbol), t, i / 2, symbol)
  }

  /** How much deeper the left side of a repetition is than the right one, by what its children cache. */
  function Excess(s: Store, t: Addr): int
    requires IsLive(s, t)
  {
    if s[t].children == [] then 0
    else DepthAt(s, s[t].children[0]) - DepthAt(s, s[t].children[|s[t].children| - 1])
  }

  /** What balancing makes of one node of a tree. */
  function Evened(s: Store, t: Addr): Store
    requires IsLive(s, t)
  {
    if s[t].data.repeatDepth > 0 && Excess(s, t) > 0 then Halved(s, t, Excess(s, t) / 2, s[t].data.symbol) else s
  }

  lemma TurnDone(s: Store, t: Addr, count: nat, symbol: Symbol)
    requires count == 0 || !Rotatable(s, t, symbol)
    ensures Turned(s, t, count, symbol) == s
  {
  }

  lemma TurnOnce(s: Store, t: Addr, count: nat, symbol: Symbol)
    requires count > 0 && Rotatable(s, t, symbol)
    requires t != Child(s, t) && Child(s, t) != Child(s, Child(s, t)) && t != Child(s, Child(s, t))
    ensures Turned(s, t, count, symbol) == Turned(Rotate(s, t, Child(s, t), Child(s, Child(s, t))), Child(s, Child(s, t)), count - 1, symbol)
  {
  }

  lemma HalveOnce(s: Store, t: Addr, i: nat, symbol: Symbol)
    ensures Halved(s, t, i, symbol) == if i == 0 then s else Halved(Turned(s, t, i, symbol), t, i / 2, symbol)
  {
  }

  // ----- the left edge -------------------------------------------------------------------------

  /** The left edge from `t` has at least `n` links of the repetition below it. */
  predicate Edge(s: Store, t: Addr, n: nat, symbol: Symbol)
    decreases n
  {
    && IsLink(s, Ptr(t), symbol)
    && (n > 0 ==> s[t].children[0].Ptr? && Edge(s, s[t].children[0].addr, n - 1, symbol))
  }

  /** What is known of the pool whenever a repetition is rotated. */
  ghost predicate InUse(s: Store, rank: seq<nat>, handles: multiset<Ref>) {
    Linked(s, rank) && Counted(s, handles, multiset{}) && NoneDead(s)
  }

  /** Cells that are the same in both stores, below a rank. */
  ghost predicate SameUpTo(s: Store, rank: seq<nat>, u: Store, top: nat) {
    |rank| == |s| == |u| && forall a: Addr :: a < |s| && rank[a] < top ==> u[a] == s[a]
  }

  lemma {:induction false} SameEdge(s: Store, rank: seq<nat>, u: Store, a: Addr, n: nat, symbol: Symbol)
    requires Linked(s, rank) && SameUpTo(s, rank, u, if IsLive(s, a) then rank[a] + 1 else 0) && IsLive(s, a)
    ensures Edge(s, a, n, symbol) <==> Edge(u, a, n, symbol)
    decreases n
  {
    hide Linked;
    if n > 0 && IsLink(s, Ptr(a), symbol) && s[a].children[0].Ptr? {
      LinkedAt(s, rank, a);
      SameEdge(s, rank, u, s[a].children[0].addr, n - 1, symbol);
    }
  }

  lemma EdgeIsRotatable(s: Store, t: Addr, n: nat, symbol: Symbol)
    requires Edge(s, t, n, symbol) && n >= 2
    ensures Rotatable(s, t, symbol) && Edge(s, Child(s, Child(s, t)), n - 2, symbol)
    ensures forall m: nat :: m >= 2 ==> (Edge(s, t, m, symbol) <==> Edge(s, Child(s, Child(s, t)), m - 2, symbol))
  {
    var c := s[t].children[0].addr;
    assert Edge(s, c, n - 1, symbol) && Edge(s, s[c].children[0].addr, n - 2, symbol);
    forall m: nat | m >= 2 ensures Edge(s, t, m, symbol) <==> Edge(s, Child(s, Child(s, t)), m - 2, symbol) {
      assert Edge(s, t, m, symbol) <==> Edge(s, c, m - 1, symbol);
    }
  }

  lemma RotatablePivot(s: Store, rank: seq<nat>, handles: multiset<Ref>, t: Addr, symbol: Symbol)
    requires InUse(s, rank, handles) && Rotatable(s, t, symbol)
    ensures var c := Child(s, t); var g := Child(s, c); Pivot(s, rank, handles, t, c, g)
  {
    hide Linked, Counted;
  }

  /** After a rotation the edge goes straight on from `t` to `g`, and below `g` nothing has changed. */
  lemma RotatedEdge(s: Store, rank: seq<nat>, handles: multiset<Ref>, t: Addr, c: Addr, g: Addr, symbol: Symbol)
    requires Pivot(s, rank, handles, t, c, g) && NoneDead(s) && Rotatable(s, t, symbol)
    ensures t != c && c != g && t != g && |rank| == |s| && rank[c] > 0
    ensures var u := Rotate(s, t, c, g);
            && InUse(u, Reranked(rank, c, g), handles) && IsLive(u, g) && IsLink(u, Ptr(t), symbol) && u[t].children[0] == Ptr(g)
            && forall n: nat :: Edge(u, g, n, symbol) <==> Edge(s, g, n, symbol)
  {
    hide Linked, Counted, NoneDead, Pivot, Rotate, Edge;
    PivotOrder(s, rank, handles, t, c, g);
    RotationLinked(s, rank, handles, t, c, g);
    RotationCounted(s, rank, handles, t, c, g);
    RotatedCells(s, rank, handles, t, c, g);
    PivotLive(s, rank, handles, t, c, g);
    var u := Rotate(s, t, c, g);
    forall n: nat ensures Edge(u, g, n, symbol) <==> Edge(s, g, n, symbol) {
      EdgeBelow(s, rank, u, g, n, symbol);
    }
  }

  /** An edge whose first link keeps its first child, and whose other links stay as they are. */
  lemma EdgeBelow(s: Store, rank: seq<nat>, u: Store, g: Addr, n: nat, symbol: Symbol)
    requires Linked(s, rank) && IsLive(s, g) && |rank| == |s| && SameUpTo(s, rank, u, rank[g])
    requires IsLive(u, g) && (IsLink(u, Ptr(g), symbol) <==> IsLink(s, Ptr(g), symbol)) && |s[g].children| >= 2 && |u[g].children| >= 2
    requires u[g].children[0] == s[g].children[0]
    ensures Edge(u, g, n, symbol) <==> Edge(s, g, n, symbol)
  {
    hide Linked;
    LinkedAt(s, rank, g);
    if n > 0 && s[g].children[0].Ptr? {
      SameEdge(s, rank, u, s[g].children[0].addr, n - 1, symbol);
    }
  }

  /** Rotations from `t` down touch no cell above it. */
  lemma {:induction false} TurnedKeepsAbove(s: Store, rank: seq<nat>, handles: multiset<Ref>, t: Addr, count: nat, symbol: Symbol, x: Addr)
    requires InUse(s, rank, handles) && IsLive(s, t) && x < |s| == |rank| && rank[x] > rank[t]
    ensures x < |Turned(s, t, count, symbol)| && Turned(s, t, count, symbol)[x] == s[x]
    decreases count
  {
    hide InUse, Turned, Rotatable, Rotate, Pivot, Edge;
    if count == 0 || !Rotatable(s, t, symbol) {
      TurnDone(s, t, count, symbol);
    } else {
      TurnsBelow(s, rank, handles, t, symbol);
      var c := Child(s, t);
      var g := Child(s, c);
      TurnOnce(s, t, count, symbol);
      TurnedKeepsAbove(Rotate(s, t, c, g), Reranked(rank, c, g), handles, g, count - 1, symbol, x);
    }
  }

  /** One rotation, and the ranks around it. */
  lemma TurnsBelow(s: Store, rank: seq<nat>, handles: multiset<Ref>, t: Addr, symbol: Symbol)
    requires InUse(s, rank, handles) && Rotatable(s, t, symbol)
    ensures |rank| == |s| && IsLive(s, t) && s[t].children != [] && s[t].children[0].Ptr?
    ensures var c := Child(s, t);
            && IsLive(s, c) && s[c].children != [] && s[c].children[0].Ptr?
            && var g := Child(s, c);
            && IsLive(s, g) && s[g].children != [] && t != c && c != g && t != g && c < |rank| && g < |rank| && rank[c] > 0
            && var u, rank' := Rotate(s, t, c, g), Reranked(rank, c, g);
            && InUse(u, rank', handles) && IsLive(u, g) && |u| == |s|
            && IsLink(u, Ptr(t), symbol) && u[t].children[0] == Ptr(g) && rank'[g] < rank'[t]
            && (forall x: Addr :: x < |s| && rank[x] > rank[t] ==> u[x] == s[x] && rank'[x] > rank'[t])
            && forall n: nat :: Edge(u, g, n, symbol) <==> Edge(s, g, n, symbol)
  {
    hide Linked, Counted, NoneDead, Pivot, Rotate, Edge;
    RotatablePivot(s, rank, handles, t, symbol);
    var c := Child(s, t);
    var g := Child(s, c);
    PivotOrder(s, rank, handles, t, c, g);
    RotatedEdge(s, rank, handles, t, c, g, symbol);
    RotatedCells(s, rank, handles, t, c, g);
  }

  /** Where the edge is long enough, every one of the rotations makes it one link shorter. */
  lemma {:induction false} TurnedEdge(s: Store, rank: seq<nat>, handles: multiset<Ref>, t: Addr, count: nat, symbol: Symbol, m: nat)
    requires InUse(s, rank, handles) && Edge(s, t, 2 * count, symbol) && m >= count
    ensures Edge(Turned(s, t, count, symbol), t, m, symbol) <==> Edge(s, t, m + count, symbol)
    decreases count
  {
    hide InUse, Turned, Rotatable, Rotate, Edge, IsLink;
    if count == 0 {
      TurnDone(s, t, count, symbol);
    } else {
      EdgeIsRotatable(s, t, 2 * count, symbol);
      TurnsBelow(s, rank, handles, t, symbol);
      var c := Child(s, t);
      var g := Child(s, c);
      var u, rank' := Rotate(s, t, c, g), Reranked(rank, c, g);
      TurnOnce(s, t, count, symbol);
      TurnedEdge(u, rank', handles, g, count - 1, symbol, m - 1);
      TurnedKeepsAbove(u, rank', handles, g, count - 1, symbol, t);
      EdgeStep(u, Turned(u, g, count - 1, symbol), t, m, symbol);
    }
  }

  lemma EdgeStep(u: Store, w: Store, t: Addr, m: nat, symbol: Symbol)
    requires t < |u| && t < |w| && w[t] == u[t] && IsLink(u, Ptr(t), symbol) && u[t].children[0].Ptr? && m > 0
    ensures Edge(w, t, m, symbol) <==> Edge(w, u[t].children[0].addr, m - 1, symbol)
  {
  }

  lemma {:induction false} TurnedInUse(s: Store, rank: seq<nat>, handles: multiset<Ref>, t: Addr, count: nat, symbol: Symbol)
    returns (rank': seq<nat>)
    requires InUse(s, rank, handles)
    ensures InUse(Turned(s, t, count, symbol), rank', handles)
    decreases count
  {
    hide InUse, Turned, Rotatable, Rotate, Edge;
    if count == 0 || !Rotatable(s, t, symbol) {
      TurnDone(s, t, count, symbol);
      rank' := rank;
    } else {
      TurnsBelow(s, rank, handles, t, symbol);
      var c := Child(s, t);
      var g := Child(s, c);
      TurnOnce(s, t, count, symbol);
      rank' := TurnedInUse(Rotate(s, t, c, g), Reranked(rank, c, g), handles, g, count - 1, symbol);
    }
  }

  // ----- halving -------------------------------------------------------------------------------

  /** How many ones the binary representation has. */
  function Ones(n: nat): nat { if n == 0 then 0 else n % 2 + Ones(n / 2) }

  function Power(n: nat): nat { if n == 0 then 1 else 2 * Power(n - 1) }

  lemma {:induction false} OnesAreFew(n: nat)
    ensures Power(Ones(n)) <= n + 1
  {
    if n > 0 {
      OnesAreFew(n / 2);
    }
  }

  lemma EdgeIsLong(s: Store, t: Addr, n: nat, m: nat, symbol: Symbol)
    requires Edge(s, t, n, symbol) && m <= n
    ensures Edge(s, t, m, symbol)
    decreases n
  {
    if m > 0 {
      EdgeIsLong(s, s[t].children[0].addr, n - 1, m - 1, symbol);
    }
  }

  /** Half of `n` rotations, half of those, and so on: all but as many as `n` has ones in binary. */
  lemma {:induction false} HalvedEdge(s: Store, rank: seq<nat>, handles: multiset<Ref>, t: Addr, i: nat, symbol: Symbol, m: nat)
    requires InUse(s, rank, handles) && Edge(s, t, 2 * i, symbol) && m >= Ones(i)
    ensures Edge(Halved(s, t, i, symbol), t, m, symbol) <==> Edge(s, t, m + (2 * i - Ones(i)), symbol)
    decreases i
  {
    hide InUse, Turned, Halved, Edge;
    HalveOnce(s, t, i, symbol);
    if i > 0 {
      var u := Turned(s, t, i, symbol);
      var rank' := TurnedInUse(s, rank, handles, t, i, symbol);
      TurnedEdge(s, rank, handles, t, i, symbol, i);
      EdgeIsLong(u, t, i, 2 * (i / 2), symbol);
      OnesOfHalf(i);
      HalvedEdge(u, rank', handles, t, i / 2, symbol, m);
      TurnedEdge(s, rank, handles, t, i, symbol, m + (2 * (i / 2) - Ones(i / 2)));
    }
  }

  lemma OnesOfHalf(i: nat)
    requires i > 0
    ensures Ones(i) == i % 2 + Ones(i / 2) && 2 * (i / 2) - Ones(i / 2) == i - Ones(i)
  {
  }

  /** The excess that balancing acts on. */
  function Leaning(s: Store, t: Addr): nat
    requires IsLive(s, t)
  {
    if s[t].data.repeatDepth > 0 && Excess(s, t) > 0 then Excess(s, t) else 0
  }

  /**
   * Of the `n` links of the left edge, balancing takes away the excess but for as many as it has ones
   * in binary, wherever the edge is long enough for that.
   */
  lemma EveningShortens(s: Store, rank: seq<nat>, handles: multiset<Ref>, t: Addr, n: nat, symbol: Symbol)
    requires InUse(s, rank, handles) && Edge(s, t, n, symbol) && !Edge(s, t, n + 1, symbol)
    requires IsLive(s, t) && s[t].data.symbol == symbol && 2 * (Leaning(s, t) / 2) <= n
    ensures var left := n - Leaning(s, t) + Ones(Leaning(s, t));
            left >= 0 && Edge(Evened(s, t), t, left, symbol) && !Edge(Evened(s, t), t, left + 1, symbol)
    ensures Power(Ones(Leaning(s, t))) <= Leaning(s, t) + 1
  {
    hide InUse, Halved, Edge, Excess;
    var e := Leaning(s, t);
    OnesAreFew(e);
    if e > 0 {
      EdgeIsLong(s, t, n, 2 * (e / 2), symbol);
      OnesOfHalf(e);
      var left := n - e + Ones(e);
      HalvedEdge(s, rank, handles, t, e / 2, symbol, left);
      HalvedEdge(s, rank, handles, t, e / 2, symbol, left + 1);
    }
  }

  /** A singly owned, hidden repetition of `n` links on its left edge with nothing deep beside it, and true depths. */
  predicate Straight(s: Store, t: Addr, n: nat, symbol: Symbol)
    decreases n
  {
    && IsLive(s, t) && s[t].refCount == 1 && |s[t].children| >= 2 && s[t].data.symbol == symbol
    && !s[t].data.visible && !s[t].data.named && DepthTrue(s, t)
    && DepthAt(s, s[t].children[|s[t].children| - 1]) == 0
    && if n == 0 then !HasSymbol(s, s[t].children[0], symbol)
       else s[t].children[0].Ptr? && Straight(s, s[t].children[0].addr, n - 1, symbol)
  }

  lemma {:induction false} StraightDepth(s: Store, rank: seq<nat>, t: Addr, n: nat, symbol: Symbol)
    requires Linked(s, rank) && Straight(s, t, n, symbol)
    ensures s[t].data.repeatDepth == n && Edge(s, t, n, symbol) && !Edge(s, t, n + 1, symbol)
    decreases n
  {
    LinkedAt(s, rank, t);
    hide Linked;
    if n > 0 {
      var c := s[t].children[0].addr;
      StraightDepth(s, rank, c, n - 1, symbol);
      LinkedAt(s, rank, c);
    }
  }

  /** Such a repetition is found to lean by all but one of its links, and is left with as many as that has ones, and one. */
  lemma EveningStraight(s: Store, rank: seq<nat>, handles: multiset<Ref>, t: Addr, n: nat, symbol: Symbol)
    requires InUse(s, rank, handles) && Straight(s, t, n, symbol) && n > 0
    ensures Excess(s, t) == n - 1
    ensures Edge(Evened(s, t), t, Ones(n - 1) + 1, symbol) && !Edge(Evened(s, t), t, Ones(n - 1) + 2, symbol)
  {
    hide Counted, NoneDead, Evened, Linked;
    StraightDepth(s, rank, t, n, symbol);
    var c := s[t].children[0].addr;
    StraightDepth(s, rank, c, n - 1, symbol);
    LinkedAt(s, rank, c);
    EveningShortens(s, rank, handles, t, n, symbol);
  }
}
