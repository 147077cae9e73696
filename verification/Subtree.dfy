/**
 * Syntax trees as values: the data every node carries, how a parent's data is summarised from
 * its children, and what that summary means.
 */
module Subtrees {
  import opened Lengths

  type Symbol = nat

  const SYM_END: Symbol := 0
  const SYM_ERROR: Symbol := 0xFFFF
  const SYM_ERROR_REPEAT: Symbol := 0xFFFE
  const STATE_NONE: nat := 0xFFFF

  const COST_PER_RECOVERY: nat := 500
  const COST_PER_MISSING_TREE: nat := 110
  const COST_PER_SKIPPED_TREE: nat := 100
  const COST_PER_SKIPPED_LINE: nat := 30
  const COST_PER_SKIPPED_CHAR: nat := 1

  /** The generated tables of a language, as far as trees depend on them. */
  datatype Language = Language(
    aliasSequence: (nat, nat) -> Symbol, isVisible: Symbol -> bool, isNamed: Symbol -> bool)

  function AliasAt(lang: Language, productionId: nat, index: nat): Symbol {
    if productionId == 0 then 0 else lang.aliasSequence(productionId, index)
  }

  /** Everything a node stores besides its reference count and its children. */
  datatype Data = Data(
    inline: bool, symbol: Symbol, parseState: nat,
    padding: Length, size: Length, lookaheadBytes: nat, errorCost: nat,
    visible: bool, named: bool, extra: bool, hasChanges: bool,
    hasExternalTokens: bool, dependsOnColumn: bool, isMissing: bool,
    childCount: nat, visibleChildCount: nat, namedChildCount: nat, visibleDescendantCount: nat,
    dynamicPrecedence: int, repeatDepth: nat, productionId: nat,
    firstLeafSymbol: Symbol, firstLeafState: nat)
  {
    function Total(): Length { Add(padding, size) }

    function ErrorCost(): nat {
      if isMissing then COST_PER_MISSING_TREE + COST_PER_RECOVERY else if inline then 0 else errorCost
    }

    function DynamicPrecedence(): int { if childCount == 0 then 0 else dynamicPrecedence }

    function VisibleDescendants(): nat { if childCount == 0 then 0 else visibleDescendantCount }

    function VisibleChildren(): nat { if childCount == 0 then 0 else visibleChildCount }

    function NamedChildren(): nat { if childCount == 0 then 0 else namedChildCount }

    function RepeatDepth(): nat { if inline then 0 else repeatDepth }

    function LeafSymbol(): Symbol { if childCount == 0 then symbol else firstLeafSymbol }

    function LeafState(): nat { if childCount == 0 then parseState else firstLeafState }

    function HasExternalTokens(): bool { !inline && hasExternalTokens }

    function DependsOnColumn(): bool { !inline && dependsOnColumn }

    predicate IsError() { symbol == SYM_ERROR }
  }

  datatype Tree = Tree(data: Data, children: seq<Tree>)

  function Datas(ts: seq<Tree>): (ds: seq<Data>)
    ensures |ds| == |ts| && forall i :: 0 <= i < |ts| ==> ds[i] == ts[i].data
  {
    seq(|ts|, i requires 0 <= i < |ts| => ts[i].data)
  }

  // ----- summaries ---------------------------------------------------------------------------

  /** Symbols whose own extent is charged as an error. */
  predicate ChargesExtent(symbol: Symbol) { symbol == SYM_ERROR || symbol == SYM_ERROR_REPEAT }

  function ExtentCost(size: Length): nat {
    COST_PER_RECOVERY + COST_PER_SKIPPED_CHAR * size.bytes + COST_PER_SKIPPED_LINE * size.extent.row
  }

  /** What a list of adjacent siblings adds to its parent. */
  datatype Totals = Totals(
    total: Length, lookaheadEnd: nat, errorCost: nat, dynamicPrecedence: int,
    visibleDescendants: nat, visibleChildren: nat, namedChildren: nat,
    externalTokens: bool)

  const NOTHING: Totals := Totals(ZERO, 0, 0, 0, 0, 0, 0, false)

  function Max(a: nat, b: nat): nat { if a > b then a else b }

  function Combine(a: Totals, b: Totals): Totals {
    Totals(
      Add(a.total, b.total),
      Max(a.lookaheadEnd, a.total.bytes + b.lookaheadEnd),
      a.errorCost + b.errorCost,
      a.dynamicPrecedence + b.dynamicPrecedence,
      a.visibleDescendants + b.visibleDescendants,
      a.visibleChildren + b.visibleChildren,
      a.namedChildren + b.namedChildren,
      a.externalTokens || b.externalTokens)
  }

  /** The cost a child adds to a parent, which charges skipped trees if it is an error. */
  function Charge(inError: bool, d: Data): nat {
    if d.symbol == SYM_ERROR_REPEAT then
      if d.ErrorCost() >= ExtentCost(d.size) then d.ErrorCost() - ExtentCost(d.size) else 0
    else
      d.ErrorCost() +
      if !inError || d.extra || (d.IsError() && d.childCount == 0) then 0
      else if d.visible then COST_PER_SKIPPED_TREE
      else COST_PER_SKIPPED_TREE * d.VisibleChildren()
  }

  /** The alias that replaces a child's symbol, or zero. */
  function EffectiveAlias(alias: Symbol, d: Data): Symbol {
    if d.extra || d.symbol == SYM_END then 0 else alias
  }

  function One(lang: Language, inError: bool, alias: Symbol, d: Data): Totals {
    var a := EffectiveAlias(alias, d);
    var shown := a != 0 || d.visible;
    Totals(
      d.Total(), d.Total().bytes + d.lookaheadBytes, Charge(inError, d), d.DynamicPrecedence(),
      d.VisibleDescendants() + if shown then 1 else 0,
      if shown then 1 else d.VisibleChildren(),
      if a != 0 then (if lang.isNamed(a) then 1 else 0)
      else if d.visible then (if d.named then 1 else 0)
      else d.NamedChildren(),
      d.HasExternalTokens())
  }

  /** The number of children that take part in the production, which aliases are indexed by. */
  function StructuralIndex(ds: seq<Data>): nat {
    if ds == [] then 0
    else StructuralIndex(ds[..|ds| - 1]) + if ds[|ds| - 1].extra then 0 else 1
  }

  function Sum(lang: Language, inError: bool, productionId: nat, ds: seq<Data>): Totals {
    if ds == [] then NOTHING
    else
      var front := ds[..|ds| - 1];
      var alias := AliasAt(lang, productionId, StructuralIndex(front));
      Combine(Sum(lang, inError, productionId, front), One(lang, inError, alias, ds[|ds| - 1]))
  }

  /** The size of a node with these children: the first child's padding is not part of it. */
  function SizeOf(ds: seq<Data>): Length
    requires ds != []
  {
    if |ds| == 1 then ds[0].size else Add(SizeOf(ds[..|ds| - 1]), ds[|ds| - 1].Total())
  }

  function MaxRepeatDepth(first: Data, last: Data): nat { Max(first.RepeatDepth(), last.RepeatDepth()) }

  predicate AnyOnFirstRow(oldSize: Length, ds: seq<Data>) {
    ds != [] &&
    ((ds[|ds| - 1].DependsOnColumn() &&
      (if |ds| == 1 then oldSize else SizeOf(ds[..|ds| - 1])).extent.row == 0) ||
     AnyOnFirstRow(oldSize, ds[..|ds| - 1]))
  }

  predicate AnyError(ds: seq<Data>) {
    ds != [] && (ds[|ds| - 1].IsError() || AnyError(ds[..|ds| - 1]))
  }

  /** A parent's data, from its own identity, its first and last child and its children's totals. */
  function Assign(d: Data, first: Data, last: Data, size: Length, parseState: nat, dependsOnColumn: bool, s: Totals): Data {
    d.(padding := first.padding,
       size := size,
       lookaheadBytes := if s.lookaheadEnd >= s.total.bytes then s.lookaheadEnd - s.total.bytes else 0,
       errorCost := s.errorCost + if ChargesExtent(d.symbol) then ExtentCost(size) else 0,
       parseState := parseState,
       hasExternalTokens := s.externalTokens,
       dependsOnColumn := dependsOnColumn,
       visibleChildCount := s.visibleChildren,
       namedChildCount := s.namedChildren,
       visibleDescendantCount := s.visibleDescendants,
       dynamicPrecedence := s.dynamicPrecedence,
       firstLeafSymbol := first.LeafSymbol(),
       firstLeafState := first.LeafState(),
       repeatDepth :=
         if d.childCount >= 2 && !d.visible && !d.named && first.symbol == d.symbol
         then MaxRepeatDepth(first, last) + 1
         else 0)
  }

  /** A node's data once it has been summarised from its children's data. */
  function Summarize(lang: Language, d: Data, ds: seq<Data>): Data
    requires ds != []
  {
    Assign(d, ds[0], ds[|ds| - 1], SizeOf(ds),
           if AnyError(ds) then STATE_NONE else d.parseState,
           AnyOnFirstRow(d.size, ds),
           Sum(lang, ChargesExtent(d.symbol), d.productionId, ds))
  }

  /**
   * The part of a node's data that its own parent's summary can see and that summarising twice
   * reproduces: everything but the repeat depth, the column dependency, an inner parse state, and
   * the dynamic precedence, to which a reduction adds that of its production.
   */
  function Kept(d: Data): Data {
    d.(repeatDepth := 0, dependsOnColumn := false, dynamicPrecedence := 0,
       parseState := if d.childCount == 0 then d.parseState else 0)
  }

  /** `d` agrees with what its children say about it. */
  predicate AgreesWith(lang: Language, d: Data, ds: seq<Data>) {
    && |ds| == d.childCount
    && (ds != [] ==> !d.inline && Kept(d) == Kept(Summarize(lang, d, ds)))
  }

  /** Every node of the tree agrees with its children. */
  predicate Summarized(lang: Language, t: Tree) {
    && AgreesWith(lang, t.data, Datas(t.children))
    && forall i :: 0 <= i < |t.children| ==> Summarized(lang, t.children[i])
  }

  lemma {:induction false} SumTotals(lang: Language, inError: bool, productionId: nat, ds: seq<Data>)
    ensures var s := Sum(lang, inError, productionId, ds);
            && s.lookaheadEnd >= s.total.bytes
            && (ds != [] ==> s.total == Add(ds[0].padding, SizeOf(ds)))
    decreases |ds|
  {
    if |ds| > 1 {
      var front := ds[..|ds| - 1];
      SumTotals(lang, inError, productionId, front);
      LengthMonoid(front[0].padding, SizeOf(front), ds[|ds| - 1].Total());
    }
  }
}
