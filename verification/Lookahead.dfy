/** The compressed parse table: looking a symbol up, and listing the symbols that have a value. */
module Lookaheads {
  datatype Entry = Entry(symbol: nat, value: nat)

  /**
   * The parse table of a language. States below `largeStateCount` have a row of values; the others
   * have a list of groups, each a value with the symbols that have it.
   */
  datatype ParseTable = ParseTable(
    symbolCount: nat, tokenCount: nat, largeStateCount: nat,
    parseTable: seq<nat>, smallParseTableMap: seq<nat>, smallParseTable: seq<nat>)

  /** `count` groups are encoded from `at` on. */
  predicate Encoded(data: seq<nat>, at: nat, count: nat)
    decreases count
  {
    count == 0 ||
    (at + 2 <= |data| && at + 2 + data[at + 1] <= |data| && Encoded(data, at + 2 + data[at + 1], count - 1))
  }

  function Pairs(symbols: seq<nat>, value: nat): (es: seq<Entry>)
    ensures |es| == |symbols| && forall i :: 0 <= i < |es| ==> es[i] == Entry(symbols[i], value)
  {
    seq(|symbols|, i requires 0 <= i < |symbols| => Entry(symbols[i], value))
  }

  /** The symbols listed in the groups, with their values. */
  function GroupEntries(data: seq<nat>, at: nat, count: nat): seq<Entry>
    requires Encoded(data, at, count)
    decreases count
  {
    if count == 0 then []
    else
      var next := at + 2 + data[at + 1];
      Pairs(data[at + 2..next], data[at]) + GroupEntries(data, next, count - 1)
  }

  /** The value of the first group that lists the symbol. */
  function GroupLookup(data: seq<nat>, at: nat, count: nat, symbol: nat): nat
    requires Encoded(data, at, count)
    decreases count
  {
    if count == 0 then 0
    else
      var next := at + 2 + data[at + 1];
      if symbol in data[at + 2..next] then data[at] else GroupLookup(data, next, count - 1, symbol)
  }

  /** The rest of a group, and the groups after it. */
  function Ahead(data: seq<nat>, from: nat, end: nat, count: nat, value: nat): seq<Entry>
    requires from <= end <= |data| && Encoded(data, end, count)
  {
    Pairs(data[from..end], value) + GroupEntries(data, end, count)
  }

  predicate Lists(es: seq<Entry>, symbol: nat) { exists i :: 0 <= i < |es| && es[i].symbol == symbol }

  /** No symbol is listed twice, groups are not empty, have a value and hold tokens only or no tokens. */
  predicate GroupsOk(data: seq<nat>, at: nat, count: nat, tokenCount: nat)
    requires Encoded(data, at, count)
    decreases count
  {
    count == 0 ||
    (var next := at + 2 + data[at + 1];
     var symbols := data[at + 2..next];
     && symbols != [] && data[at] != 0
     && (forall i, j :: 0 <= i < j < |symbols| ==> symbols[i] != symbols[j])
     && (forall i :: 0 <= i < |symbols| ==> !Lists(GroupEntries(data, next, count - 1), symbols[i]))
     && (forall i :: 0 <= i < |symbols| ==> (symbols[i] < tokenCount <==> symbols[0] < tokenCount))
     && GroupsOk(data, next, count - 1, tokenCount))
  }

  lemma NotListed(es: seq<Entry>, symbol: nat, value: nat)
    ensures Entry(symbol, value) in es ==> Lists(es, symbol)
  {
    if Entry(symbol, value) in es {
      var i :| 0 <= i < |es| && es[i] == Entry(symbol, value);
      assert es[i].symbol == symbol;
    }
  }

  predicate Once(es: seq<Entry>) { forall i, j :: 0 <= i < j < |es| ==> es[i].symbol != es[j].symbol }

  /** What is listed by a group that shares no symbol with the groups after it, and by those. */
  lemma GroupThenRest(symbols: seq<nat>, value: nat, rest: seq<Entry>, s: nat, v: nat)
    requires forall i :: 0 <= i < |symbols| ==> !Lists(rest, symbols[i])
    ensures Entry(s, v) in Pairs(symbols, value) + rest <==> if s in symbols then v == value else Entry(s, v) in rest
  {
    var first := Pairs(symbols, value);
    NotListed(rest, s, v);
    hide Lists;
    if s in symbols {
      var i :| 0 <= i < |symbols| && symbols[i] == s;
      assert first[i] == Entry(s, value);
    }
    if Entry(s, v) in first {
      var k :| 0 <= k < |first| && first[k] == Entry(s, v);
      assert symbols[k] == s;
    }
  }

  lemma GroupThenRestOnce(symbols: seq<nat>, value: nat, rest: seq<Entry>)
    requires forall i :: 0 <= i < |symbols| ==> !Lists(rest, symbols[i])
    requires Once(rest) && forall i, j :: 0 <= i < j < |symbols| ==> symbols[i] != symbols[j]
    ensures Once(Pairs(symbols, value) + rest)
  {
    var es := Pairs(symbols, value) + rest;
    forall i, j | 0 <= i < j < |es| ensures es[i].symbol != es[j].symbol {
      if i < |symbols| <= j {
        assert !Lists(rest, symbols[i]) && rest[j - |symbols|] == es[j];
      }
    }
  }

  /** The listed entries are exactly the symbols that have a value, each once. */
  lemma {:induction false} EntryIsLookup(data: seq<nat>, at: nat, count: nat, tokenCount: nat, s: nat, v: nat)
    requires Encoded(data, at, count) && GroupsOk(data, at, count, tokenCount)
    ensures Entry(s, v) in GroupEntries(data, at, count) <==> v != 0 && GroupLookup(data, at, count, s) == v
    decreases count
  {
    if count > 0 {
      var next := at + 2 + data[at + 1];
      EntryIsLookup(data, next, count - 1, tokenCount, s, v);
      hide Lists;
      GroupThenRest(data[at + 2..next], data[at], GroupEntries(data, next, count - 1), s, v);
    }
  }

  lemma {:induction false} EntriesOnce(data: seq<nat>, at: nat, count: nat, tokenCount: nat)
    requires Encoded(data, at, count) && GroupsOk(data, at, count, tokenCount)
    ensures Once(GroupEntries(data, at, count))
    decreases count
  {
    if count > 0 {
      var next := at + 2 + data[at + 1];
      EntriesOnce(data, next, count - 1, tokenCount);
      hide Once, Lists;
      GroupThenRestOnce(data[at + 2..next], data[at], GroupEntries(data, next, count - 1));
    }
  }

  /** What the groups list is exactly what a lookup in them finds, each symbol once. */
  lemma EntriesAreLookups(data: seq<nat>, at: nat, count: nat, tokenCount: nat)
    requires Encoded(data, at, count) && GroupsOk(data, at, count, tokenCount)
    ensures forall s: nat, v: nat :: Entry(s, v) in GroupEntries(data, at, count) <==> v != 0 && GroupLookup(data, at, count, s) == v
    ensures Once(GroupEntries(data, at, count))
  {
    hide Encoded, GroupsOk, GroupEntries, GroupLookup, Once;
    EntriesOnce(data, at, count, tokenCount);
    forall s: nat, v: nat
      ensures Entry(s, v) in GroupEntries(data, at, count) <==> v != 0 && GroupLookup(data, at, count, s) == v
    {
      EntryIsLookup(data, at, count, tokenCount, s, v);
    }
  }

  // ----- rows ----------------------------------------------------------------------------------

  /** The symbols from `from` on that have a value in a row. */
  function RowEntries(row: seq<nat>, from: nat): seq<Entry>
    decreases |row| - from
  {
    if from >= |row| then []
    else (if row[from] != 0 then [Entry(from, row[from])] else []) + RowEntries(row, from + 1)
  }

  lemma RowStep(row: seq<nat>, from: nat)
    ensures RowEntries(row, from)
         == if from >= |row| then []
            else if row[from] != 0 then [Entry(from, row[from])] + RowEntries(row, from + 1)
            else RowEntries(row, from + 1)
  {
  }

  lemma {:induction false} RowEntryIsLookup(row: seq<nat>, from: nat, s: nat, v: nat)
    ensures Entry(s, v) in RowEntries(row, from) <==> from <= s < |row| && v != 0 && row[s] == v
    decreases |row| - from
  {
    if from < |row| {
      RowEntryIsLookup(row, from + 1, s, v);
      RowStep(row, from);
    }
  }

  lemma {:induction false} RowEntriesOnce(row: seq<nat>, from: nat)
    ensures Once(RowEntries(row, from))
    decreases |row| - from
  {
    if from < |row| {
      RowEntriesOnce(row, from + 1);
      RowStep(row, from);
      hide RowEntries;
      var rest := RowEntries(row, from + 1);
      forall i | 0 <= i < |rest| ensures rest[i].symbol > from {
        RowEntryIsLookup(row, from + 1, rest[i].symbol, rest[i].value);
      }
    }
  }

  lemma RowEntriesAreLookups(row: seq<nat>, from: nat)
    ensures var es := RowEntries(row, from);
            && (forall s: nat, v: nat :: Entry(s, v) in es <==> from <= s < |row| && v != 0 && row[s] == v)
            && Once(es)
  {
    RowEntriesOnce(row, from);
    forall s: nat, v: nat ensures Entry(s, v) in RowEntries(row, from) <==> from <= s < |row| && v != 0 && row[s] == v {
      RowEntryIsLookup(row, from, s, v);
    }
  }

  // ----- the table -----------------------------------------------------------------------------

  predicate TableOk(t: ParseTable) {
    && |t.parseTable| == t.largeStateCount * t.symbolCount
    && forall i :: 0 <= i < |t.smallParseTableMap| ==> GroupRowOk(t, t.smallParseTableMap[i])
  }

  predicate GroupRowOk(t: ParseTable, index: nat) {
    && index < |t.smallParseTable|
    && Encoded(t.smallParseTable, index + 1, t.smallParseTable[index])
    && GroupsOk(t.smallParseTable, index + 1, t.smallParseTable[index], t.tokenCount)
    && var es := GroupEntries(t.smallParseTable, index + 1, t.smallParseTable[index]);
       forall i :: 0 <= i < |es| ==> es[i].symbol < t.symbolCount
  }

  predicate IsState(t: ParseTable, state: nat) { state < t.largeStateCount + |t.smallParseTableMap| }

  lemma RowInside(t: ParseTable, state: nat)
    requires TableOk(t) && state < t.largeStateCount
    ensures state * t.symbolCount + t.symbolCount <= |t.parseTable|
  {
    hide GroupRowOk;
    RowFits(state, t.largeStateCount, t.symbolCount);
  }

  lemma {:induction false} RowFits(state: nat, count: nat, size: nat)
    requires state < count
    ensures state * size + size <= count * size
    decreases count
  {
    assert count * size == (count - 1) * size + size;
    if state < count - 1 {
      RowFits(state, count - 1, size);
    }
  }

  function Row(t: ParseTable, state: nat): (row: seq<nat>)
    requires TableOk(t) && state < t.largeStateCount
    ensures |row| == t.symbolCount
  {
    RowInside(t, state);
    t.parseTable[state * t.symbolCount..state * t.symbolCount + t.symbolCount]
  }

  function ValueOf(t: ParseTable, state: nat, symbol: nat): nat
    requires TableOk(t) && IsState(t, state) && symbol < t.symbolCount
  {
    if state >= t.largeStateCount then
      var index := t.smallParseTableMap[state - t.largeStateCount];
      assert GroupRowOk(t, index);
      GroupLookup(t.smallParseTable, index + 1, t.smallParseTable[index], symbol)
    else
      hide Row;
      Row(t, state)[symbol]
  }

  function EntriesOf(t: ParseTable, state: nat): seq<Entry>
    requires TableOk(t) && IsState(t, state)
  {
    if state >= t.largeStateCount then
      var index := t.smallParseTableMap[state - t.largeStateCount];
      assert GroupRowOk(t, index);
      GroupEntries(t.smallParseTable, index + 1, t.smallParseTable[index])
    else
      RowEntries(Row(t, state), 0)
  }

  /** In either encoding, what there is to list is exactly what a lookup finds, each symbol once. */
  lemma ListedIsFound(t: ParseTable, state: nat)
    requires TableOk(t) && IsState(t, state)
    ensures forall s: nat, v: nat :: Entry(s, v) in EntriesOf(t, state) <==> s < t.symbolCount && v != 0 && ValueOf(t, state, s) == v
    ensures Once(EntriesOf(t, state))
  {
    hide Once, GroupRowOk;
    if state >= t.largeStateCount {
      GroupsListed(t, state);
    } else {
      var row := Row(t, state);
      RowEntriesAreLookups(row, 0);
      assert EntriesOf(t, state) == RowEntries(row, 0) && forall s: nat :: s < t.symbolCount ==> ValueOf(t, state, s) == row[s];
    }
  }

  lemma GroupsListed(t: ParseTable, state: nat)
    requires TableOk(t) && IsState(t, state) && state >= t.largeStateCount
    ensures forall s: nat, v: nat :: Entry(s, v) in EntriesOf(t, state) <==> s < t.symbolCount && v != 0 && ValueOf(t, state, s) == v
    ensures Once(EntriesOf(t, state))
  {
    hide GroupRowOk, Encoded, GroupEntries, GroupLookup, Once;
    var index := t.smallParseTableMap[state - t.largeStateCount];
    assert GroupRowOk(t, index);
    GroupRowListed(t, index);
  }

  lemma GroupRowListed(t: ParseTable, index: nat)
    requires GroupRowOk(t, index)
    ensures var es := GroupEntries(t.smallParseTable, index + 1, t.smallParseTable[index]);
            && Once(es)
            && forall s: nat, v: nat :: Entry(s, v) in es <==>
                 s < t.symbolCount && v != 0 && GroupLookup(t.smallParseTable, index + 1, t.smallParseTable[index], s) == v
  {
    var es := GroupEntries(t.smallParseTable, index + 1, t.smallParseTable[index]);
    EntriesAreLookups(t.smallParseTable, index + 1, t.smallParseTable[index], t.tokenCount);
    hide GroupsOk, Encoded, GroupEntries, GroupLookup, Once;
    forall s: nat, v: nat | Entry(s, v) in es ensures s < t.symbolCount {
      var i :| 0 <= i < |es| && es[i] == Entry(s, v);
    }
  }

  lemma LookupStep(data: seq<nat>, at: nat, count: nat, symbol: nat)
    requires Encoded(data, at, count)
    ensures count == 0 ==> GroupLookup(data, at, count, symbol) == 0
    ensures count > 0 ==>
      at + 2 <= |data| && at + 2 + data[at + 1] <= |data| && Encoded(data, at + 2 + data[at + 1], count - 1)
      && var next := at + 2 + data[at + 1];
         GroupLookup(data, at, count, symbol)
         == if symbol in data[at + 2..next] then data[at] else GroupLookup(data, next, count - 1, symbol)
  {
  }

  /** Scan the groups for a symbol. */
  method LookupGroups(table: seq<nat>, index: nat, symbol: nat) returns (value: nat)
    requires index < |table| && Encoded(table, index + 1, table[index])
    ensures value == GroupLookup(table, index + 1, table[index], symbol)
  {
    hide Encoded, GroupLookup;
    var groupCount := table[index];
    var data := index + 1;
    for i := 0 to groupCount
      invariant Encoded(table, data, groupCount - i)
      invariant GroupLookup(table, index + 1, groupCount, symbol) == GroupLookup(table, data, groupCount - i, symbol)
    {
      LookupStep(table, data, groupCount - i, symbol);
      var sectionValue, symbolCount := table[data], table[data + 1];
      ghost var first := data + 2;
      data := data + 2;
      for j := 0 to symbolCount
        invariant data == first + j && symbol !in table[first..data]
      {
        if table[data] == symbol {
          assert table[first..first + symbolCount][j] == symbol;
          return sectionValue;
        }
        assert table[first..data + 1] == table[first..data] + [table[data]];
        data := data + 1;
      }
    }
    LookupStep(table, data, 0, symbol);
    return 0;
  }

  /** The value of a symbol in a state: scanning the groups, or straight from the row. */
  method Lookup(t: ParseTable, state: nat, symbol: nat) returns (value: nat)
    requires TableOk(t) && IsState(t, state) && symbol < t.symbolCount
    ensures value == ValueOf(t, state, symbol)
  {
    hide Encoded, GroupsOk, GroupEntries, GroupLookup;
    if state >= t.largeStateCount {
      var index := t.smallParseTableMap[state - t.largeStateCount];
      assert GroupRowOk(t, index);
      value := LookupGroups(t.smallParseTable, index, symbol);
    } else {
      RowInside(t, state);
      value := t.parseTable[state * t.symbolCount + symbol];
    }
  }

  datatype Phase = Fresh | Positioned | Done

  class LookaheadIterator {
    const table: ParseTable
    const isSmallState: bool
    var data: nat
    var groupEnd: nat
    var groupCount: nat
    var phase: Phase
    var symbol: nat
    var tableValue: nat
    var nextState: nat

    /** Where the iterator is in the table, whatever the next state is. */
    ghost predicate Placed()
      reads this`data, this`groupEnd, this`groupCount, this`phase, this`symbol
    {
      && (!isSmallState ==>
            && data + table.symbolCount <= |table.parseTable|
            && (phase.Positioned? ==> symbol < table.symbolCount))
      && (isSmallState && !phase.Done? ==>
            && data < groupEnd <= |table.smallParseTable|
            && Encoded(table.smallParseTable, groupEnd, groupCount)
            && GroupsOk(table.smallParseTable, groupEnd, groupCount, table.tokenCount)
            && (forall k :: data < k < groupEnd ==>
                  (table.smallParseTable[k] < table.tokenCount <==> symbol < table.tokenCount)
                  && phase.Positioned?))
    }

    ghost predicate Valid()
      reads this
    {
      Placed() && (isSmallState && phase.Positioned? ==> nextState == NextState(table, symbol, tableValue))
    }

    /** The entries that have not been visited. */
    ghost function Remaining(): (es: seq<Entry>)
      requires Placed()
      ensures phase.Done? ==> es == []
      reads this`data, this`groupEnd, this`groupCount, this`phase, this`symbol, this`tableValue
    {
      if phase.Done? then []
      else if isSmallState then
        Ahead(table.smallParseTable, data + 1, groupEnd, groupCount, tableValue)
      else
        RowEntries(table.parseTable[data..data + table.symbolCount], if phase.Fresh? then 0 else symbol + 1)
    }

    constructor (table: ParseTable, state: nat)
      requires TableOk(table) && IsState(table, state)
      ensures Valid() && Remaining() == EntriesOf(table, state) && this.table == table && phase.Fresh?
    {
      hide Encoded, GroupsOk, GroupEntries, RowEntries, Ahead;
      this.table := table;
      isSmallState := state >= table.largeStateCount;
      groupEnd, groupCount := 0, 0;
      if state >= table.largeStateCount {
        var index := table.smallParseTableMap[state - table.largeStateCount];
        assert GroupRowOk(table, index);
        data := index;
        groupEnd := index + 1;
        groupCount := table.smallParseTable[index];
      } else {
        RowInside(table, state);
        data := state * table.symbolCount;
      }
      phase, symbol, tableValue, nextState := Fresh, 0xFFFF, 0, 0;
      new;
      if isSmallState {
        GroupIsOver(table.smallParseTable, groupEnd, groupCount, tableValue);
      }
    }

    /** Move to the next symbol that has a value; once there is none, there is none ever after. */
    method Next() returns (more: bool)
      requires Valid()
      modifies this
      ensures Valid() && more == (old(Remaining()) != [])
      ensures more ==> old(Remaining()) == [Entry(symbol, tableValue)] + Remaining() && phase.Positioned?
      ensures more ==> nextState == if symbol < table.tokenCount then 0 else tableValue
      ensures !more ==> phase.Done? && Remaining() == []
    {
      hide Placed, Remaining;
      if phase.Done? { return false; }
      if isSmallState {
        if data + 1 < groupEnd {
          NextInGroup();
          return true;
        }
        more := NextGroup();
      } else {
        more := NextInRow();
      }
      if !more { return; }
      if symbol < table.tokenCount {
        nextState := 0;
      } else {
        nextState := tableValue;
      }
    }

    /** The next symbol of the same group, which has the same value. */
    method NextInGroup()
      requires Valid() && isSmallState && !phase.Done? && data + 1 < groupEnd
      modifies this`data, this`symbol, this`phase
      ensures Valid() && old(Remaining()) == [Entry(symbol, tableValue)] + Remaining() && phase.Positioned?
      ensures nextState == NextState(table, symbol, tableValue)
    {
      hide GroupEntries, GroupsOk, Encoded, Ahead;
      AheadStep(table.smallParseTable, data + 1, groupEnd, groupCount, tableValue);
      data := data + 1;
      symbol := table.smallParseTable[data];
      phase := Positioned;
    }

    /** The first symbol of the next group. */
    method NextGroup() returns (more: bool)
      requires Valid() && isSmallState && !phase.Done? && data + 1 >= groupEnd
      modifies this`data, this`groupEnd, this`groupCount, this`symbol, this`tableValue, this`phase
      ensures Placed() && more == (old(Remaining()) != [])
      ensures more ==> old(Remaining()) == [Entry(symbol, tableValue)] + Remaining() && phase.Positioned?
      ensures !more ==> phase.Done?
    {
      hide GroupEntries, GroupsOk, Encoded, Ahead;
      GroupIsOver(table.smallParseTable, groupEnd, groupCount, tableValue);
      data := data + 1;
      if groupCount == 0 {
        phase := Done;
        return false;
      }
      GroupParts(table.smallParseTable, groupEnd, groupCount, table.tokenCount);
      groupCount := groupCount - 1;
      tableValue := table.smallParseTable[data];
      var symbolCount := table.smallParseTable[data + 1];
      data := data + 2;
      groupEnd := data + symbolCount;
      symbol := table.smallParseTable[data];
      phase := Positioned;
      more := true;
    }

    /** The next symbol of the row that has a value. */
    method NextInRow() returns (more: bool)
      requires Valid() && !isSmallState && !phase.Done?
      modifies this`symbol, this`tableValue, this`phase
      ensures Placed() && more == (old(Remaining()) != [])
      ensures more ==> old(Remaining()) == [Entry(symbol, tableValue)] + Remaining() && phase.Positioned?
      ensures !more ==> phase.Done?
    {
      hide RowEntries, Encoded, GroupsOk, Ahead;
      var row := table.parseTable[data..data + table.symbolCount];
      var next := FirstInRow(row, if phase.Fresh? then 0 else symbol + 1);
      RowStep(row, next);
      if next >= table.symbolCount {
        phase := Done;
        return false;
      }
      symbol := next;
      tableValue := row[next];
      phase := Positioned;
      more := true;
    }
  }

  /** The first symbol from `from` on that has a value, or the length of the row. */
  method FirstInRow(row: seq<nat>, from: nat) returns (next: nat)
    requires from <= |row|
    ensures from <= next <= |row| && RowEntries(row, from) == RowEntries(row, next) && (next < |row| ==> row[next] != 0)
  {
    hide RowEntries;
    next := from;
    while next < |row| && row[next] == 0
      invariant from <= next <= |row| && RowEntries(row, from) == RowEntries(row, next)
    {
      RowStep(row, next);
      next := next + 1;
    }
  }

  lemma AheadStep(data: seq<nat>, from: nat, end: nat, count: nat, value: nat)
    requires from < end <= |data| && Encoded(data, end, count)
    ensures Ahead(data, from, end, count, value) == [Entry(data[from], value)] + Ahead(data, from + 1, end, count, value)
  {
    hide GroupEntries;
    assert data[from..end] == [data[from]] + data[from + 1..end];
    assert Pairs(data[from..end], value) == [Entry(data[from], value)] + Pairs(data[from + 1..end], value);
  }

  lemma GroupIsOver(data: seq<nat>, at: nat, count: nat, value: nat)
    requires at <= |data| && Encoded(data, at, count)
    ensures Ahead(data, at, at, count, value) == GroupEntries(data, at, count)
    ensures count == 0 ==> GroupEntries(data, at, count) == []
  {
    assert Pairs(data[at..at], value) == [];
  }

  /** The first of some groups is not empty, and is all tokens or no tokens. */
  lemma FirstGroup(data: seq<nat>, at: nat, count: nat, tokenCount: nat)
    requires Encoded(data, at, count) && GroupsOk(data, at, count, tokenCount) && count > 0
    ensures at + 2 < at + 2 + data[at + 1] <= |data| && Encoded(data, at + 2 + data[at + 1], count - 1)
    ensures GroupsOk(data, at + 2 + data[at + 1], count - 1, tokenCount)
    ensures var symbols := data[at + 2..at + 2 + data[at + 1]];
            forall i :: 0 <= i < |symbols| ==> (symbols[i] < tokenCount <==> symbols[0] < tokenCount)
  {
    hide GroupEntries, Lists;
  }

  /** What is known of the first of some groups. */
  lemma GroupParts(data: seq<nat>, at: nat, count: nat, tokenCount: nat)
    requires Encoded(data, at, count) && GroupsOk(data, at, count, tokenCount) && count > 0
    ensures at + 2 < at + 2 + data[at + 1] <= |data| && Encoded(data, at + 2 + data[at + 1], count - 1)
    ensures GroupsOk(data, at + 2 + data[at + 1], count - 1, tokenCount)
    ensures var next := at + 2 + data[at + 1];
            GroupEntries(data, at, count)
            == [Entry(data[at + 2], data[at])] + Ahead(data, at + 3, next, count - 1, data[at])
    ensures forall k :: at + 2 <= k < at + 2 + data[at + 1] ==> (data[k] < tokenCount <==> data[at + 2] < tokenCount)
  {
    FirstIsAhead(data, at, count);
    hide Encoded, GroupsOk, GroupEntries, Ahead;
    FirstGroup(data, at, count, tokenCount);
    AheadStep(data, at + 2, at + 2 + data[at + 1], count - 1, data[at]);
    SameKind(data, at + 2, at + 2 + data[at + 1], tokenCount);
  }

  lemma SameKind(data: seq<nat>, from: nat, end: nat, tokenCount: nat)
    requires from < end <= |data|
    requires var symbols := data[from..end]; forall i :: 0 <= i < |symbols| ==> (symbols[i] < tokenCount <==> symbols[0] < tokenCount)
    ensures forall k :: from <= k < end ==> (data[k] < tokenCount <==> data[from] < tokenCount)
  {
    var symbols := data[from..end];
    assert symbols[0] == data[from];
    forall k | from <= k < end ensures data[k] < tokenCount <==> data[from] < tokenCount {
      assert symbols[k - from] == data[k];
    }
  }

  lemma FirstIsAhead(data: seq<nat>, at: nat, count: nat)
    requires Encoded(data, at, count) && count > 0
    ensures var next := at + 2 + data[at + 1];
            next <= |data| && Encoded(data, next, count - 1)
            && GroupEntries(data, at, count) == Ahead(data, at + 2, next, count - 1, data[at])
  {
  }

  /** A symbol that is no token leads to a state; a token has actions instead. */
  function NextState(t: ParseTable, symbol: nat, value: nat): nat { if symbol < t.tokenCount then 0 else value }
}
