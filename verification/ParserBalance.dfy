/**
 * The last phase of a parse: visiting the finished tree and compressing its repetitions. It can be
 * cancelled at any check of progress and resumed by the next call.
 */
module ParserBalancing {
  import opened Lengths
  import opened Subtrees
  import opened Summaries
  import opened SubtreePools
  import opened Ownership
  import opened Meanings
  import opened Rotations
  import opened Balancing
  import opened Halvings
  import opened Compressing
  import opened Depths

  const OP_COUNT_PER_PARSER_CALLBACK_CHECK: nat := 100

  function ToSet(stack: seq<Addr>): set<Addr> { set a | a in stack }

  /** A node with children and a single owner: one that may be changed in place. */
  predicate IsInner(s: Store, r: Ref) {
    r.Ptr? && IsLive(s, r.addr) && s[r.addr].refCount == 1 && s[r.addr].children != []
  }

  /** The cells still to be visited: each once, and none of them visited before. */
  ghost predicate Visiting(s: Store, stack: seq<Addr>, owned: set<Addr>, done: set<Addr>) {
    && (forall i :: 0 <= i < |stack| ==> stack[i] in owned && stack[i] !in done && IsInner(s, Ptr(stack[i])))
    && (forall i, j :: 0 <= i < j < |stack| ==> stack[i] != stack[j])
    && done <= LiveSet(s)
  }

  ghost predicate KidVisited(s: Store, seen: set<Addr>, r: Ref) {
    IsInner(s, r) ==> r.addr in seen
  }

  /** The inner children of visited cells have been seen: visited or noted for a visit. */
  ghost predicate KidsVisited(s: Store, done: set<Addr>, seen: set<Addr>) {
    forall p: Addr, r: Ref :: IsLive(s, p) && p in done && r in s[p].children ==> KidVisited(s, seen, r)
  }

  /** What holds whenever balancing is interrupted, `s0` being the store it was started on. */
  ghost predicate InProgress(lang: Language, zone: set<Addr>, s0: Store, rank0: seq<nat>, s: Store, rank: seq<nat>, free: seq<Addr>,
                             stack: seq<Addr>, owned: set<Addr>, keep: multiset<Ref>, root: Ref, done: set<Addr>)
  {
    && Linked(s0, rank0) && Linked(s, rank) && FreeListOk(s, free)
    && Ready(lang, zone, s, rank, owned, keep, root, ToSet(stack), done) && AllClean(lang, zone, s, rank, {})
    && Visiting(s, stack, owned, done) && KidsVisited(s, done, ToSet(stack) + done)
    && KidVisited(s, ToSet(stack) + done, root)
    && ValidRef(s0, root) && ValidRef(s, root)
    && MeaningAt(lang, s, rank, root) == MeaningAt(lang, s0, rank0, root)
    && SameNodes(s0, s) && AgreeOutside(s0, s, owned) && AgreeOutside(s, s0, owned)
  }

  lemma SameNodesSameLive(s: Store, u: Store)
    requires SameNodes(s, u)
    ensures LiveSet(u) == LiveSet(s)
    ensures forall r :: IsInner(s, r) <==> IsInner(u, r)
  {
    forall r ensures IsInner(s, r) <==> IsInner(u, r) {
      if r.Ptr? && r.addr < |s| && s[r.addr].Live? {
        assert |s[r.addr].children| == |u[r.addr].children|;
      }
    }
  }

  /** Compressing below a cell that is still to be visited keeps everything. */
  lemma CompressKeeps(lang: Language, zone: set<Addr>, s0: Store, rank0: seq<nat>, s: Store, rank: seq<nat>, free: seq<Addr>,
                      stack: seq<Addr>, owned: set<Addr>, keep: multiset<Ref>, root: Ref, done: set<Addr>,
                      u: Store, rank': seq<nat>, free': seq<Addr>, owned': set<Addr>)
    requires InProgress(lang, zone, s0, rank0, s, rank, free, stack, owned, keep, root, done)
    requires Linked(u, rank') && FreeListOk(u, free') && owned <= owned'
    requires Ready(lang, zone, u, rank', owned', keep, root, ToSet(stack), done) && AllClean(lang, zone, u, rank', {})
    requires ValidRef(u, root) && MeaningAt(lang, u, rank', root) == MeaningAt(lang, s, rank, root)
    requires SameNodes(s, u) && KidsKept(s, u, done)
    requires AgreeOutside(s, u, owned') && AgreeOutside(u, s, owned')
    ensures InProgress(lang, zone, s0, rank0, u, rank', free', stack, owned', keep, root, done)
    ensures LiveSet(u) == LiveSet(s)
  {
    hide Linked, FreeListOk, Ready, AllClean, MeaningAt, AgreeOutside, SameNodes, LiveSet, IsInner;
    SameNodesTransitive(s0, s, u);
    AgreeGrows(s0, s, u, owned, owned');
    SameNodesSameLive(s, u);
    forall p: Addr, r: Ref | IsLive(u, p) && p in done && r in u[p].children
      ensures KidVisited(u, ToSet(stack) + done, r)
    {
      NodeStays(s, u, p);
      assert KidVisited(s, ToSet(stack) + done, r);
    }
  }

  lemma NodeStays(s: Store, u: Store, p: Addr)
    requires SameNodes(s, u) && IsLive(u, p)
    ensures IsLive(s, p)
  {
  }

  // ----- visiting the children of a node -------------------------------------------------------

  /** Cell `t` has been visited and the inner ones among its first `n` children are on the stack. */
  ghost predicate Expanding(lang: Language, zone: set<Addr>, s: Store, rank: seq<nat>, stack: seq<Addr>, owned: set<Addr>,
                            keep: multiset<Ref>, root: Ref, done: set<Addr>, t: Addr, n: nat)
  {
    && IsLive(s, t) && n <= |s[t].children| && t in done && t in owned
    && Ready(lang, zone, s, rank, owned, keep, root, ToSet(stack), done)
    && Visiting(s, stack, owned, done) && KidsVisited(s, done - {t}, ToSet(stack) + done)
    && KidVisited(s, ToSet(stack) + done, root)
    && (forall i :: 0 <= i < n ==> KidVisited(s, ToSet(stack) + done, s[t].children[i]))
    && (forall i :: n <= i < |s[t].children| && s[t].children[i].Ptr? ==>
          s[t].children[i].addr !in ToSet(stack) + done)
  }

  lemma ToSetOfMore(stack: seq<Addr>, a: Addr)
    ensures ToSet(stack + [a]) == ToSet(stack) + {a}
  {
  }

  lemma StartExpanding(lang: Language, zone: set<Addr>, s: Store, rank: seq<nat>, rest: seq<Addr>, t: Addr, owned: set<Addr>,
                       keep: multiset<Ref>, root: Ref, done: set<Addr>)
    requires Ready(lang, zone, s, rank, owned, keep, root, ToSet(rest + [t]), done)
    requires Visiting(s, rest + [t], owned, done) && KidsVisited(s, done, ToSet(rest + [t]) + done)
    requires KidVisited(s, ToSet(rest + [t]) + done, root)
    ensures Expanding(lang, zone, s, rank, rest, owned, keep, root, done + {t}, t, 0) && t !in done
    ensures t in LiveSet(s)
  {
    hide Linked, Counted, NoneDead, NodesOk, Owned;
    ToSetOfMore(rest, t);
    var stack := rest + [t];
    assert stack[|rest|] == t && forall i :: 0 <= i < |rest| ==> stack[i] == rest[i];
    assert Visiting(s, rest, owned, done + {t}) by {
      forall i | 0 <= i < |rest| ensures rest[i] in owned && rest[i] !in done + {t} && IsInner(s, Ptr(rest[i])) {
        assert stack[i] == rest[i];
      }
    }
    LinkedAt(s, rank, t);
    forall i | 0 <= i < |s[t].children| && s[t].children[i].Ptr?
      ensures s[t].children[i].addr !in ToSet(rest) + (done + {t})
    {
      assert s[t].children[i] in s[t].children;
    }
    assert done + {t} - {t} == done;
    forall p: Addr, r: Ref | IsLive(s, p) && p in done && r in s[p].children ensures KidVisited(s, ToSet(rest) + (done + {t}), r) {
      assert KidVisited(s, ToSet(stack) + done, r);
    }
  }

  /** A child that is not inner is passed over. */
  lemma PassKid(lang: Language, zone: set<Addr>, s: Store, rank: seq<nat>, stack: seq<Addr>, owned: set<Addr>, keep: multiset<Ref>,
                root: Ref, done: set<Addr>, t: Addr, n: nat)
    requires Expanding(lang, zone, s, rank, stack, owned, keep, root, done, t, n)
    requires n < |s[t].children| && !IsInner(s, s[t].children[n])
    ensures Expanding(lang, zone, s, rank, stack, owned, keep, root, done, t, n + 1)
  {
    hide Ready, Visiting, KidsVisited;
  }

  lemma MoreSeen(s: Store, parents: set<Addr>, seen: set<Addr>, more: set<Addr>)
    requires seen <= more
    ensures KidsVisited(s, parents, seen) ==> KidsVisited(s, parents, more)
    ensures forall r :: KidVisited(s, seen, r) ==> KidVisited(s, more, r)
  {
    if KidsVisited(s, parents, seen) {
      forall p: Addr, r: Ref | IsLive(s, p) && p in parents && r in s[p].children ensures KidVisited(s, more, r) {
        assert KidVisited(s, seen, r);
      }
    }
  }

  lemma PushExplored(s: Store, handles: multiset<Ref>, front: set<Addr>, done: set<Addr>, t: Addr, n: nat)
    requires Counted(s, handles, multiset{}) && Explored(s, front, done) && t in done
    requires IsLive(s, t) && n < |s[t].children| && IsInner(s, s[t].children[n])
    ensures Explored(s, front + {s[t].children[n].addr}, done)
  {
    hide Counted;
    SoleSlot(s, handles, t, n);
    var x := s[t].children[n].addr;
    forall p: Addr, y: Addr | IsLive(s, p) && y in front + {x} + done && Ptr(y) in s[p].children ensures p in done {
      if y == x {
        var j :| 0 <= j < |s[p].children| && s[p].children[j] == Ptr(y);
      }
    }
  }

  /** An inner child joins the stack. */
  lemma PushKid(lang: Language, zone: set<Addr>, s: Store, rank: seq<nat>, stack: seq<Addr>, owned: set<Addr>, keep: multiset<Ref>,
                root: Ref, done: set<Addr>, t: Addr, n: nat)
    requires Expanding(lang, zone, s, rank, stack, owned, keep, root, done, t, n)
    requires n < |s[t].children| && IsInner(s, s[t].children[n])
    ensures var x := s[t].children[n].addr;
            Expanding(lang, zone, s, rank, stack + [x], owned + {x}, keep, root, done, t, n + 1)
  {
    hide Linked, Counted, NoneDead, NodesOk, Owned, Explored, KidsVisited, LiveSet, KidVisited;
    var x := s[t].children[n].addr;
    var stack' := stack + [x];
    ToSetOfMore(stack, x);
    GrowOwned(s, owned, keep, root, t, n);
    KidsInZone(lang, zone, s, t);
    PushExplored(s, keep + multiset{root}, ToSet(stack), done, t, n);
    SoleSlot(s, keep + multiset{root}, t, n);
    MoreSeen(s, done - {t}, ToSet(stack) + done, ToSet(stack') + done);
    assert KidVisited(s, ToSet(stack') + done, s[t].children[n]) by {
      SeenKid(s, ToSet(stack') + done, s[t].children[n]);
    }
    assert x !in stack;
    assert Visiting(s, stack', owned + {x}, done);
    forall i | n + 1 <= i < |s[t].children| && s[t].children[i].Ptr?
      ensures s[t].children[i].addr !in ToSet(stack') + done
    {
      assert s[t].children[i] != s[t].children[n];
    }
  }

  lemma SeenKid(s: Store, seen: set<Addr>, r: Ref)
    requires r.Ptr? && r.addr in seen
    ensures KidVisited(s, seen, r)
  {
  }

  /** With all its children dealt with, the visit of `t` is over. */
  lemma EndExpanding(lang: Language, zone: set<Addr>, s: Store, rank: seq<nat>, stack: seq<Addr>, owned: set<Addr>, keep: multiset<Ref>,
                     root: Ref, done: set<Addr>, t: Addr)
    requires IsLive(s, t) && Expanding(lang, zone, s, rank, stack, owned, keep, root, done, t, |s[t].children|)
    ensures Ready(lang, zone, s, rank, owned, keep, root, ToSet(stack), done) && Visiting(s, stack, owned, done)
    ensures KidsVisited(s, done, ToSet(stack) + done) && KidVisited(s, ToSet(stack) + done, root)
  {
    hide Ready, Visiting, KidVisited;
    forall p: Addr, r: Ref | IsLive(s, p) && p in done && r in s[p].children
      ensures KidVisited(s, ToSet(stack) + done, r)
    {
      if p == t {
        var i :| 0 <= i < |s[t].children| && s[t].children[i] == r;
      }
    }
  }

  // ----- starting --------------------------------------------------------------------------------

  lemma BalanceStarts(lang: Language, zone: set<Addr>, s: Store, rank: seq<nat>, free: seq<Addr>, keep: multiset<Ref>, root: Ref)
    requires Linked(s, rank) && FreeListOk(s, free) && Counted(s, keep + multiset{root}, multiset{}) && NoneDead(s)
    requires NodesOk(lang, zone, s) && AllClean(lang, zone, s, rank, {}) && (root.Ptr? ==> root.addr in zone)
    ensures var stack := if IsInner(s, root) then [root.addr] else [];
            InProgress(lang, zone, s, rank, s, rank, free, stack, ToSet(stack), keep, root, {})
  {
    hide Linked, FreeListOk, NoneDead, NodesOk, AllClean, MeaningAt, EdgesBelow;
    var stack := if IsInner(s, root) then [root.addr] else [];
    assert root in keep + multiset{root};
    if IsInner(s, root) {
      SoleHandle(s, keep, root);
    }
    hide Counted;
    forall a: Addr | IsLive(s, a) && a !in ToSet(stack) ensures NoKidIn(s, a, ToSet(stack)) {
      forall i | 0 <= i < |s[a].children| ensures !InSet(s[a].children[i], ToSet(stack)) {
        assert s[a].children[i] in s[a].children;
      }
    }
    assert Owned(s, ToSet(stack), keep);
  }

  /** The cells of one tree. */
  ghost function CellsUnder(s: Store, root: Ref): set<Addr> {
    set a: Addr | a < |s| && Reachable(s, multiset{root}, a)
  }

  lemma RootIsUnder(s: Store, root: Ref)
    requires ValidRef(s, root)
    ensures root.Ptr? ==> root.addr in CellsUnder(s, root)
  {
    if root.Ptr? {
      assert LeadsTo(s, multiset{root}, [root.addr], root.addr);
    }
  }

  class Parser {
    const language: Language
    const treePool: SubtreePool
    const progressCallback: nat -> bool
    var finishedTree: Ref
    var canceledBalancing: bool
    var operationCount: nat
    var callbackCount: nat
    ghost var keep: multiset<Ref>
    ghost var owned: set<Addr>
    ghost var done: set<Addr>
    ghost var evened: set<Addr>
    ghost var store0: Store
    ghost var rank0: seq<nat>
    ghost var zone: set<Addr>

    constructor (language: Language, treePool: SubtreePool, progressCallback: nat -> bool, finishedTree: Ref,
                 ghost keep: multiset<Ref>)
      ensures this.language == language && this.treePool == treePool && this.progressCallback == progressCallback
      ensures this.finishedTree == finishedTree && this.keep == keep && !canceledBalancing
    {
      this.language, this.treePool, this.progressCallback := language, treePool, progressCallback;
      this.finishedTree, this.canceledBalancing, this.operationCount, this.callbackCount := finishedTree, false, 0, 0;
      this.keep, this.owned, this.done, this.evened, this.store0, this.rank0, this.zone := keep, {}, {}, {}, [], [], {};
    }

    /**
     * Balancing has begun on `store0` and may stop or go on here. Nodes are left only once they are evened
     * out, and where all depths were true in the beginning, those of the nodes still to be visited are.
     */
    ghost predicate Interrupted()
      reads this, treePool
    {
      && done <= evened && (DepthsTrue(store0, zone, {}) ==> DepthsTrue(treePool.store, zone, done))
      && InProgress(language, zone, store0, rank0, treePool.store, treePool.rank, treePool.freeTrees, treePool.treeStack, owned,
                    keep, finishedTree, done)
    }

    /** A finished tree whose own nodes are summarised, in a pool with exact counts. */
    ghost predicate Finished()
      reads this, treePool
    {
      && treePool.Valid(keep + multiset{finishedTree})
      && NodesOk(language, CellsUnder(treePool.store, finishedTree), treePool.store)
      && AllClean(language, CellsUnder(treePool.store, finishedTree), treePool.store, treePool.rank, {})
    }

    /** Count operations, and now and then ask the callback whether to stop. */
    method CheckProgress(operations: nat) returns (ok: bool)
      modifies this`operationCount, this`callbackCount
      ensures var n := old(operationCount) + operations;
        if n >= OP_COUNT_PER_PARSER_CALLBACK_CHECK || n == 0
        then operationCount == 0 && callbackCount == old(callbackCount) + 1 && ok == !progressCallback(old(callbackCount))
        else operationCount == n && callbackCount == old(callbackCount) && ok
    {
      operationCount := operationCount + operations;
      if operationCount >= OP_COUNT_PER_PARSER_CALLBACK_CHECK {
        operationCount := 0;
      }
      ok := true;
      if operationCount == 0 {
        callbackCount := callbackCount + 1;
        ok := !progressCallback(callbackCount - 1);
      }
    }

    /** Even out the repetition at `tree`: halving steps of rotations while its left side is deeper. */
    method CompressNode(tree: Addr) returns (ok: bool)
      requires Interrupted() && treePool.treeStack != []
      requires tree == treePool.treeStack[|treePool.treeStack| - 1] && IsLive(treePool.store, tree)
      modifies this`operationCount, this`callbackCount, this`owned, this`evened, treePool
      ensures Interrupted() && treePool.treeStack == old(treePool.treeStack)
      ensures evened == if ok then old(evened) + {tree} else old(evened)
      ensures LiveSet(treePool.store) == old(LiveSet(treePool.store)) && IsLive(treePool.store, tree)
      ensures ok ==> Relabelled(old(Evened(treePool.store, tree)), treePool.store)
      ensures DepthsTrue(store0, zone, {}) ==> old(LeansByHeight(treePool.store, treePool.rank, tree))
      ensures ok || exists n :: progressCallback(n)
    {
      hide InProgress, Linked, Ready, AllClean, Visiting, NodesOk, DepthsTrue, LeansByHeight, LiveSet, MeaningAt, SameNodes,
           AgreeOutside, KidsKept, SpineOk, FreeListOk, Relabelled, Halved, Turned;
      ghost var even := treePool.store;
      RelabelledTransitive(even, even, even);
      ok := true;
      TopIsInner(language, zone, store0, rank0, treePool.store, treePool.rank, treePool.freeTrees, treePool.treeStack, owned,
                 keep, finishedTree, done);
      if DepthsTrue(store0, zone, {}) {
        LeansTruly(language, zone, treePool.store, treePool.rank, owned, keep, finishedTree, ToSet(treePool.treeStack), done,
                   tree);
      }
      if treePool.store[tree].data.repeatDepth > 0 {
        var children := treePool.store[tree].children;
        var child1, child2 := children[0], children[|children| - 1];
        var repeatDelta := RefData(treePool.store, child1).RepeatDepth() - RefData(treePool.store, child2).RepeatDepth();
        if repeatDelta > 0 {
          var n := repeatDelta;
          var i := n / 2;
          ghost var symbol := treePool.store[tree].data.symbol;
          while i > 0
            invariant Interrupted() && treePool.treeStack == old(treePool.treeStack) && n >= 2 * i >= 0
            invariant evened == old(evened)
            invariant IsLive(treePool.store, tree) && LiveSet(treePool.store) == old(LiveSet(treePool.store))
            invariant treePool.store[tree].data.symbol == symbol && !language.isVisible(symbol) && !language.isNamed(symbol)
            invariant Relabelled(even, treePool.store) && old(Evened(treePool.store, tree)) == Halved(even, tree, i, symbol)
            decreases i
          {
            ghost var s, r, f := treePool.store, treePool.rank, treePool.freeTrees;
            TopIsInner(language, zone, store0, rank0, s, r, f, treePool.treeStack, owned, keep, finishedTree, done);
            ghost var more, spine, cs :=
              Compress(treePool, language, zone, tree, i, owned, keep, finishedTree, ToSet(treePool.treeStack), done);
            CompressKeeps(language, zone, store0, rank0, s, r, f, treePool.treeStack, owned, keep, finishedTree, done,
                          treePool.store, treePool.rank, treePool.freeTrees, more);
            SameSymbol(s, treePool.store, tree);
            EvenedOnce(even, s, treePool.store, tree, i, symbol);
            even := Turned(even, tree, i, symbol);
            owned := more;
            n := n - i;
            var operations := (if i / 16 > 0 then i / 16 else 1) % 256;
            ok := CheckProgress(operations);
            if !ok { return; }
            i := i / 2;
          }
          HalveOnce(even, tree, 0, symbol);
        }
      }
      evened := evened + {tree};
    }

    /** Leave `tree`, which is evened out, and note its inner children for a visit. */
    method VisitChildren(tree: Addr)
      requires Interrupted() && treePool.treeStack != [] && IsLive(treePool.store, tree) && tree in evened
      requires tree == treePool.treeStack[|treePool.treeStack| - 1]
      modifies this`owned, this`done, treePool`treeStack
      ensures Interrupted() && done == old(done) + {tree} && tree !in old(done) && tree in LiveSet(treePool.store)
    {
      hide InProgress, Linked, Ready, AllClean, Visiting, KidsVisited, KidVisited, NodesOk, LiveSet, MeaningAt,
           SameNodes, AgreeOutside, FreeListOk, Expanding, IsInner, DepthTrue;
      ghost var s, rank, owned0 := treePool.store, treePool.rank, owned;
      ghost var rest := treePool.treeStack[..|treePool.treeStack| - 1];
      assert treePool.treeStack == rest + [tree];
      ProgressFacts(language, zone, store0, rank0, s, rank, treePool.freeTrees, treePool.treeStack, owned, keep, finishedTree, done);
      StartExpanding(language, zone, s, rank, rest, tree, owned, keep, finishedTree, done);
      treePool.treeStack := treePool.treeStack[..|treePool.treeStack| - 1];
      done := done + {tree};
      var children := treePool.store[tree].children;
      for i := 0 to |children|
        invariant Expanding(language, zone, s, rank, treePool.treeStack, owned, keep, finishedTree, done, tree, i)
        invariant owned0 <= owned && done == old(done) + {tree}
      {
        if IsInner(treePool.store, children[i]) {
          PushKid(language, zone, s, rank, treePool.treeStack, owned, keep, finishedTree, done, tree, i);
          InnerIsCell(s, children[i]);
          treePool.treeStack := treePool.treeStack + [children[i].addr];
          owned := owned + {children[i].addr};
        } else {
          PassKid(language, zone, s, rank, treePool.treeStack, owned, keep, finishedTree, done, tree, i);
        }
      }
      EndExpanding(language, zone, s, rank, treePool.treeStack, owned, keep, finishedTree, done, tree);
      AgreeWithMore(language, store0, s, owned0, owned);
      ProgressFrom(language, zone, store0, rank0, s, rank, treePool.freeTrees, treePool.treeStack, owned, keep, finishedTree, done);
    }

    /** From here on, everything is compared with the finished tree as it is now. */
    ghost method NoteStart()
      requires Finished() && ValidRef(treePool.store, finishedTree)
      requires treePool.treeStack == if IsInner(treePool.store, finishedTree) then [finishedTree.addr] else []
      modifies this`owned, this`done, this`evened, this`store0, this`rank0, this`zone
      ensures Interrupted()
      ensures store0 == treePool.store && rank0 == treePool.rank && zone == CellsUnder(store0, finishedTree)
    {
      hide InProgress, Linked, Counted, NoneDead, Ready, AllClean, NodesOk, FreeListOk, IsInner, ToSet, CellsUnder, Reachable;
      zone := CellsUnder(treePool.store, finishedTree);
      RootIsUnder(treePool.store, finishedTree);
      BalanceStarts(language, zone, treePool.store, treePool.rank, treePool.freeTrees, keep, finishedTree);
      store0, rank0, done, evened := treePool.store, treePool.rank, {}, {};
      owned := ToSet(treePool.treeStack);
    }

    /** Note the finished tree's root for a visit. */
    method StartBalancing()
      requires Finished()
      modifies this`owned, this`done, this`evened, this`store0, this`rank0, this`zone, treePool`treeStack
      ensures Interrupted()
      ensures store0 == treePool.store && rank0 == treePool.rank && zone == CellsUnder(store0, finishedTree)
    {
      hide InProgress, Linked, Counted, NoneDead, Ready, AllClean, NodesOk, LiveSet, FreeListOk, IsInner, ToSet, CellsUnder,
           Reachable, Edges;
      FinishedIsValid(treePool.store, keep, finishedTree);
      treePool.treeStack := [];
      if IsInner(treePool.store, finishedTree) {
        InnerIsCell(treePool.store, finishedTree);
        treePool.treeStack := treePool.treeStack + [finishedTree.addr];
      }
      NoteStart();
    }

    /**
     * Balance the finished tree, or go on balancing it after a cancellation. However often it is
     * cancelled, the invariant of `InProgress` holds with respect to the store it started on, and it
     * is cancelled only by the callback.
     */
    method BalanceSubtree() returns (finished: bool)
      requires if canceledBalancing then Interrupted() else Finished()
      modifies this`operationCount, this`callbackCount, this`owned, this`done, this`evened, this`store0, this`rank0, this`zone,
               treePool
      ensures Interrupted() && (finished ==> treePool.treeStack == [])
      ensures if canceledBalancing then store0 == old(store0) && rank0 == old(rank0) && zone == old(zone)
              else store0 == old(treePool.store) && rank0 == old(treePool.rank) && zone == CellsUnder(store0, finishedTree)
      ensures finished || exists n :: progressCallback(n)
    {
      hide InProgress, Linked, Counted, NoneDead, Ready, AllClean, NodesOk, LiveSet, FreeListOk, IsInner, ToSet, CellsUnder,
           Reachable, Edges;
      if !canceledBalancing {
        StartBalancing();
      }
      while |treePool.treeStack| > 0
        invariant Interrupted()
        invariant if canceledBalancing then store0 == old(store0) && rank0 == old(rank0) && zone == old(zone)
                  else store0 == old(treePool.store) && rank0 == old(treePool.rank) && zone == CellsUnder(store0, finishedTree)
        decreases LiveSet(treePool.store) - done
      {
        finished := CheckProgress(1);
        if !finished { return; }
        var tree := treePool.treeStack[|treePool.treeStack| - 1];
        TopIsInner(language, zone, store0, rank0, treePool.store, treePool.rank, treePool.freeTrees, treePool.treeStack, owned,
                   keep, finishedTree, done);
        InnerIsCell(treePool.store, Ptr(tree));
        finished := CompressNode(tree);
        if !finished { return; }
        VisitChildren(tree);
      }
      finished := true;
    }

    /** The end of a parse: balance, remembering whether to resume with that. */
    method FinishParse() returns (finished: bool)
      requires if canceledBalancing then Interrupted() else Finished()
      modifies this, treePool
      ensures Interrupted() && canceledBalancing == !finished && (finished ==> treePool.treeStack == [])
      ensures if old(canceledBalancing) then store0 == old(store0) && rank0 == old(rank0) && zone == old(zone)
              else store0 == old(treePool.store) && rank0 == old(treePool.rank) && zone == CellsUnder(store0, finishedTree)
      ensures finishedTree == old(finishedTree) && keep == old(keep)
      ensures finished || exists n :: progressCallback(n)
    {
      hide InProgress, NodesOk, AllClean, CellsUnder, Linked, Counted, NoneDead;
      finished := BalanceSubtree();
      canceledBalancing := !finished;
    }
  }

  lemma FinishedIsValid(s: Store, keep: multiset<Ref>, root: Ref)
    requires Counted(s, keep + multiset{root}, multiset{})
    ensures ValidRef(s, root)
  {
    assert root in keep + multiset{root};
  }

  lemma InnerIsCell(s: Store, r: Ref)
    requires IsInner(s, r)
    ensures r.Ptr? && IsLive(s, r.addr)
  {
  }

  lemma AgreeWithMore(lang: Language, s0: Store, s: Store, owned: set<Addr>, owned': set<Addr>)
    requires owned <= owned'
    ensures AgreeOutside(s0, s, owned) ==> AgreeOutside(s0, s, owned')
    ensures AgreeOutside(s, s0, owned) ==> AgreeOutside(s, s0, owned')
  {
  }

  lemma ProgressFacts(lang: Language, zone: set<Addr>, s0: Store, rank0: seq<nat>, s: Store, rank: seq<nat>, free: seq<Addr>,
                      stack: seq<Addr>, owned: set<Addr>, keep: multiset<Ref>, root: Ref, done: set<Addr>)
    requires InProgress(lang, zone, s0, rank0, s, rank, free, stack, owned, keep, root, done)
    ensures Ready(lang, zone, s, rank, owned, keep, root, ToSet(stack), done) && Visiting(s, stack, owned, done)
    ensures KidsVisited(s, done, ToSet(stack) + done) && KidVisited(s, ToSet(stack) + done, root)
    ensures Linked(s0, rank0) && Linked(s, rank) && FreeListOk(s, free) && AllClean(lang, zone, s, rank, {})
    ensures ValidRef(s0, root) && ValidRef(s, root)
    ensures MeaningAt(lang, s, rank, root) == MeaningAt(lang, s0, rank0, root)
    ensures SameNodes(s0, s) && AgreeOutside(s0, s, owned) && AgreeOutside(s, s0, owned)
  {
    hide Linked, Ready, AllClean, MeaningAt, SameNodes, AgreeOutside, FreeListOk;
  }

  lemma ProgressFrom(lang: Language, zone: set<Addr>, s0: Store, rank0: seq<nat>, s: Store, rank: seq<nat>, free: seq<Addr>,
                     stack: seq<Addr>, owned: set<Addr>, keep: multiset<Ref>, root: Ref, done: set<Addr>)
    requires Ready(lang, zone, s, rank, owned, keep, root, ToSet(stack), done) && Visiting(s, stack, owned, done)
    requires KidsVisited(s, done, ToSet(stack) + done) && KidVisited(s, ToSet(stack) + done, root)
    requires Linked(s0, rank0) && Linked(s, rank) && FreeListOk(s, free) && AllClean(lang, zone, s, rank, {})
    requires ValidRef(s0, root) && ValidRef(s, root)
    requires MeaningAt(lang, s, rank, root) == MeaningAt(lang, s0, rank0, root)
    requires SameNodes(s0, s) && AgreeOutside(s0, s, owned) && AgreeOutside(s, s0, owned)
    ensures InProgress(lang, zone, s0, rank0, s, rank, free, stack, owned, keep, root, done)
  {
    hide Linked, Ready, AllClean, MeaningAt, SameNodes, AgreeOutside, FreeListOk;
  }

  /** One more row of rotations, in a store that differs only in what its nodes cache. */
  lemma EvenedOnce(even: Store, s: Store, u: Store, t: Addr, i: nat, symbol: Symbol)
    requires Relabelled(even, s) && Relabelled(Turned(s, t, i, symbol), u) && i > 0
    ensures Relabelled(Turned(even, t, i, symbol), u)
    ensures Halved(even, t, i, symbol) == Halved(Turned(even, t, i, symbol), t, i / 2, symbol)
  {
    hide Relabelled, Turned;
    RelabelledTurned(even, s, t, i, symbol);
    RelabelledTransitive(Turned(even, t, i, symbol), Turned(s, t, i, symbol), u);
    HalveOnce(even, t, i, symbol);
  }

  lemma SameSymbol(s: Store, u: Store, t: Addr)
    requires SameNodes(s, u) && IsLive(s, t)
    ensures IsLive(u, t) && u[t].data.symbol == s[t].data.symbol
  {
  }

  lemma TopIsInner(lang: Language, zone: set<Addr>, s0: Store, rank0: seq<nat>, s: Store, rank: seq<nat>, free: seq<Addr>,
                   stack: seq<Addr>, owned: set<Addr>, keep: multiset<Ref>, root: Ref, done: set<Addr>)
    requires InProgress(lang, zone, s0, rank0, s, rank, free, stack, owned, keep, root, done) && stack != []
    ensures Linked(s, rank) && FreeListOk(s, free) && AllClean(lang, zone, s, rank, {})
    ensures Ready(lang, zone, s, rank, owned, keep, root, ToSet(stack), done)
    ensures var t := stack[|stack| - 1];
            && t in owned && t !in done && IsInner(s, Ptr(t))
            && (s[t].data.repeatDepth > 0 ==> !lang.isVisible(s[t].data.symbol) && !lang.isNamed(s[t].data.symbol))
            && forall i :: 0 <= i < |s[t].children| ==> ValidRef(s, s[t].children[i])
  {
    hide Linked, Counted, NoneDead, Owned, Explored, AllClean, MeaningAt, SameNodes, AgreeOutside, FreeListOk;
    var t := stack[|stack| - 1];
    LinkedAt(s, rank, t);
    assert NodeOk(lang, s[t].data);
  }

  // ----- what a caller sees ----------------------------------------------------------------------

  /** Every node of the zone agrees with its children, as nodes do when they are made. */
  ghost predicate CellsAgree(lang: Language, zone: set<Addr>, s: Store, rank: seq<nat>)
    requires Linked(s, rank)
  {
    forall a: Addr :: a in zone ==>
      && IsLive(s, a) && CellLinked(s, rank, a) && KidsWithin(s, a, zone)
      && AgreesWith(lang, s[a].data, RefDatas(s, s[a].children))
  }

  lemma {:induction false} AgreeingIsSummarized(lang: Language, zone: set<Addr>, s: Store, rank: seq<nat>, r: Ref)
    requires Linked(s, rank) && CellsAgree(lang, zone, s, rank) && ValidRef(s, r)
    requires r.Ptr? ==> r.addr in zone
    ensures Summarized(lang, View(s, rank, r))
    decreases RankOf(rank, r)
  {
    hide Linked, AgreesWith, View;
    if r.Ptr? {
      ViewIs(s, rank, r.addr);
      LinkedAt(s, rank, r.addr);
      var ts := ViewAll(s, rank, s[r.addr].children);
      forall i | 0 <= i < |ts| ensures Summarized(lang, ts[i]) {
        assert s[r.addr].children[i] in s[r.addr].children;
        AgreeingIsSummarized(lang, zone, s, rank, s[r.addr].children[i]);
      }
      forall i | 0 <= i < |ts| ensures Datas(ts)[i] == RefDatas(s, s[r.addr].children)[i] {
        ViewData(s, rank, s[r.addr].children[i]);
      }
      assert Datas(ts) == RefDatas(s, s[r.addr].children);
    } else {
      InlineView(s, rank, r);
      InlineAgrees(lang, r.data);
    }
  }

  lemma InlineAgrees(lang: Language, d: Data)
    requires InlineOk(d)
    ensures AgreesWith(lang, d, Datas([]))
  {
  }

  /** Balancing may start on a tree whose nodes are as they were made. */
  lemma AgreeingIsClean(lang: Language, zone: set<Addr>, s: Store, rank: seq<nat>)
    requires Linked(s, rank) && CellsAgree(lang, zone, s, rank)
    ensures AllClean(lang, zone, s, rank, {})
  {
    hide Linked, CellsAgree, Kept, Summarized, View;
    forall a: Addr | IsLive(s, a) && a in zone ensures CleanAt(lang, s, rank, a) {
      AgreeingIsSummarized(lang, zone, s, rank, Ptr(a));
      SummarizedIsTrue(lang, View(s, rank, Ptr(a)));
      ViewData(s, rank, Ptr(a));
    }
  }

  /**
   * Wherever balancing stops, the finished tree has the leaves and the summary it had and shows the
   * same visible nodes with the same aliases, counts are exact, shared cells and those of other trees are
   * untouched, and other handles see the trees they saw. Only the finished tree's own nodes need to agree with their children.
   */
  lemma BalancingIsInvisible(lang: Language, zone: set<Addr>, s0: Store, rank0: seq<nat>, s: Store, rank: seq<nat>, free: seq<Addr>,
                             stack: seq<Addr>, owned: set<Addr>, keep: multiset<Ref>, root: Ref, done: set<Addr>)
    requires InProgress(lang, zone, s0, rank0, s, rank, free, stack, owned, keep, root, done) && CellsAgree(lang, zone, s0, rank0)
    ensures ValidRef(s0, root) && ValidRef(s, root)
    ensures Leaves(View(s, rank, root)) == Leaves(View(s0, rank0, root))
    ensures Shows(lang, 0, View(s, rank, root)) == Shows(lang, 0, View(s0, rank0, root))
    ensures Kept(RefData(s, root)) == Kept(RefData(s0, root))
    ensures forall a: Addr :: IsLive(s0, a) ==> IsLive(s, a) && (Fixed(s0[a]) ==> s[a].data == s0[a].data)
    ensures forall a: Addr :: IsLive(s0, a) && (s0[a].refCount > 1 || a !in zone) ==> s[a] == s0[a]
    ensures Counted(s, keep + multiset{root}, multiset{}) && NoneDead(s)
    ensures forall q :: q in keep ==> ValidRef(s0, q) && ValidRef(s, q) && View(s, rank, q) == View(s0, rank0, q)
  {
    hide Linked, Explored, NodesOk, Visiting, KidsVisited, KidVisited, FreeListOk, View, CellsAgree, Kept, Meaning, Shows;
    AgreeingIsClean(lang, zone, s0, rank0);
    ViewData(s, rank, root);
    ViewData(s0, rank0, root);
    assert Kept(RefData(s, root)) == Kept(RefData(s0, root)) by {
      RefIsClean(lang, zone, s, rank, root);
      RefIsClean(lang, zone, s0, rank0, root);
    }
    MeaningLeaves(lang, View(s, rank, root), View(s0, rank0, root));
    SameShows(lang, 0, View(s, rank, root), View(s0, rank0, root));
    forall q | q in keep ensures ValidRef(s0, q) && ValidRef(s, q) && View(s, rank, q) == View(s0, rank0, q) {
      KeepIsUntouched(s, rank, s0, rank0, owned, keep, root, q);
    }
  }

  lemma RefIsClean(lang: Language, zone: set<Addr>, s: Store, rank: seq<nat>, r: Ref)
    requires Linked(s, rank) && ValidRef(s, r) && AllClean(lang, zone, s, rank, {}) && (r.Ptr? ==> r.addr in zone)
    ensures Kept(RefData(s, r)) == MeaningAt(lang, s, rank, r).1
  {
    hide Linked, Kept, MeaningAt;
    if r.Inline? {
      InlineMeaning(lang, s, rank, r);
    } else {
      assert CleanAt(lang, s, rank, r.addr);
    }
  }

  lemma MeaningLeaves(lang: Language, t: Tree, u: Tree)
    requires Meaning(lang, t) == Meaning(lang, u)
    ensures Leaves(t) == Leaves(u)
  {
  }

  lemma KeepIsUntouched(s: Store, rank: seq<nat>, s0: Store, rank0: seq<nat>, owned: set<Addr>, keep: multiset<Ref>,
                        root: Ref, q: Ref)
    requires Linked(s, rank) && Linked(s0, rank0) && Counted(s, keep + multiset{root}, multiset{})
    requires Owned(s, owned, keep) && AgreeOutside(s, s0, owned) && q in keep
    ensures ValidRef(s0, q) && ValidRef(s, q) && View(s, rank, q) == View(s0, rank0, q)
  {
    hide Linked;
    assert q in keep + multiset{root};
    UnownedView(s, rank, s0, rank0, owned, q);
  }

  /** A chain from the root of nodes that have children and are counted once. */
  ghost predicate InnerChain(s: Store, root: Ref, path: seq<Addr>) {
    && path != [] && root == Ptr(path[0])
    && (forall i :: 0 <= i < |path| ==> IsLive(s, path[i]) && s[path[i]].refCount == 1 && s[path[i]].children != [])
    && forall i :: 0 < i < |path| ==> Ptr(path[i]) in s[path[i - 1]].children
  }

  /** When balancing is over, every node that could be changed in place has been visited. */
  lemma {:induction false} EveryInnerNodeIsVisited(lang: Language, zone: set<Addr>, s0: Store, rank0: seq<nat>, s: Store, rank: seq<nat>,
                                                  free: seq<Addr>, owned: set<Addr>, keep: multiset<Ref>, root: Ref,
                                                  done: set<Addr>, path: seq<Addr>)
    requires InProgress(lang, zone, s0, rank0, s, rank, free, [], owned, keep, root, done) && InnerChain(s, root, path)
    ensures path[|path| - 1] in done
    decreases |path|
  {
    hide Linked, Ready, Visiting, AllClean, MeaningAt, SameNodes, AgreeOutside, FreeListOk;
    var n := |path| - 1;
    assert ToSet([]) + done == done;
    if n > 0 {
      assert InnerChain(s, root, path[..n]);
      EveryInnerNodeIsVisited(lang, zone, s0, rank0, s, rank, free, owned, keep, root, done, path[..n]);
      assert path[..n][n - 1] == path[n - 1];
      assert KidVisited(s, ToSet([]) + done, Ptr(path[n]));
    }
  }
}
