/**
 The automaton object: it stores the rule number, the number of cells and the
 initial configuration, derives the lookup table from the rule number, and
 computes the spacetime field by repeated synchronous updates. The random
 draws that fill the initial configuration are a parameter of the
 constructor.
 */
module CellularAutomaton {
  import opened Base3
  import opened RuleTable
  import opened Evolution

  class Automaton {
    var ruleNumber: nat
    var length: int
    var initialCondition: seq<int>

    /** The documented state: a positive number of cells, each in {0, 1, 2}. */
    ghost predicate Valid()
      reads this
    {
      0 < length == |initialCondition| && ValidRow(initialCondition)
    }

    /** Stores the rule number and the length, and fills the initial
        configuration cell by cell from `draws`, the values the random source
        yields. */
    constructor (leng: int, rulenum: nat, draws: seq<int>)
      requires 0 < leng && rulenum < Pow3(9)
      requires |draws| == leng && ValidRow(draws)
      ensures Valid()
      ensures ruleNumber == rulenum && length == leng && initialCondition == draws
    {
      ruleNumber := rulenum;
      length := leng;
      var conditions: seq<int> := [];
      for i := 0 to leng
        invariant conditions == draws[..i]
      {
        conditions := conditions + [draws[i]];
      }
      initialCondition := conditions;
    }

    /** Derives the table digit by digit from a local copy of the rule
        number; the stored rule number is left as it is. */
    method GetLookupTable() returns (table: Table)
      ensures table == LookupTable(ruleNumber)
      ensures Complete(table)
      ensures forall i :: 0 <= i < |Neighbourhoods| ==>
        Neighbourhoods[i] in table && table[Neighbourhoods[i]] == (ruleNumber / Pow3(i)) % 3
    {
      var neighbourhoods := Neighbourhoods;
      table := map[];
      var rule := ruleNumber;
      for i := 0 to 9
        invariant rule == ruleNumber / Pow3(i)
        invariant table == TablePrefix(ruleNumber, i)
      {
        var key := neighbourhoods[i];
        var val := rule % 3;
        DivPow3Succ(ruleNumber, i);
        rule := rule / 3;
        TablePrefixSucc(ruleNumber, i);
        table := table[key := val];
      }
      LookupTableShape(ruleNumber);
      forall i | 0 <= i < |Neighbourhoods| {
        LookupTableEntry(ruleNumber, i);
      }
    }

    /** The rows after 0, 1, ..., time synchronous updates, starting from the
        initial configuration, which is not modified. */
    method GetSpacetimeField(time: nat) returns (field: seq<seq<int>>)
      requires Valid()
      ensures Complete(LookupTable(ruleNumber))
      ensures field == SpacetimeField(LookupTable(ruleNumber), initialCondition, time)
      ensures |field| == time + 1 && field[0] == initialCondition
    {
      var lookupTable := GetLookupTable();
      field := [initialCondition];
      var current := initialCondition;
      for t := 0 to time
        invariant field == SpacetimeField(lookupTable, initialCondition, t)
        invariant current == Iterate(lookupTable, initialCondition, t)
      {
        var newConfiguration := NextConfiguration(lookupTable, current);
        IterateSucc(lookupTable, initialCondition, t);
        SpacetimeFieldSucc(lookupTable, initialCondition, t);
        current := newConfiguration;
        field := field + [newConfiguration];
      }
    }
  }

  /** The inner loop of the evolution: looks every cell's neighbourhood up in
      the table, reading the left neighbour with Python's index i - 1. */
  method NextConfiguration(lookupTable: Table, current: seq<int>) returns (newConfiguration: seq<int>)
    requires Complete(lookupTable) && ValidRow(current)
    ensures newConfiguration == Step(lookupTable, current)
  {
    newConfiguration := [];
    for i := 0 to |current|
      invariant |newConfiguration| == i
      invariant forall j :: 0 <= j < i ==>
        newConfiguration[j] == lookupTable[(current[j], PyIndex(current, j - 1))]
    {
      var neighbourhood := (current[i], PyIndex(current, i - 1));
      newConfiguration := newConfiguration + [lookupTable[neighbourhood]];
    }
  }

  /** Two queries on the same automaton agree: neither query changes the
      stored rule number or initial configuration. */
  method RepeatedQueries(a: Automaton, time: nat)
    returns (table1: Table, table2: Table, field1: seq<seq<int>>, field2: seq<seq<int>>)
    requires a.Valid()
    ensures table1 == table2 && field1 == field2
  {
    table1 := a.GetLookupTable();
    field1 := a.GetSpacetimeField(time);
    table2 := a.GetLookupTable();
    field2 := a.GetSpacetimeField(time);
  }

  /** `test_get_lookup_table0`: 100 cells, rule 0, whatever the draws. */
  method TestGetLookupTable0(draws: seq<int>) returns (table: Table)
    requires |draws| == 100 && ValidRow(draws)
    ensures table == map[
      (0, 0) := 0, (0, 1) := 0, (1, 0) := 0, (2, 1) := 0, (2, 2) := 0,
      (0, 2) := 0, (2, 0) := 0, (1, 2) := 0, (1, 1) := 0]
  {
    var tst := new Automaton(100, 0, draws);
    table := tst.GetLookupTable();
    Rule0Table();
  }

  /** `test_get_lookup_table3`: 100 cells, rule 3, whatever the draws. */
  method TestGetLookupTable3(draws: seq<int>) returns (table: Table)
    requires |draws| == 100 && ValidRow(draws)
    ensures table == map[
      (0, 0) := 0, (0, 1) := 1, (1, 0) := 0, (2, 1) := 0, (2, 2) := 0,
      (0, 2) := 0, (2, 0) := 0, (1, 2) := 0, (1, 1) := 0]
  {
    var tst := new Automaton(100, 3, draws);
    table := tst.GetLookupTable();
    Rule3Table();
  }
}
