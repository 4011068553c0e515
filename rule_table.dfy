/**
 The transition table of the three-state automaton. A neighbourhood is the
 pair (value of the cell, value of its left neighbour); the table maps each of
 the nine neighbourhoods to the cell's next value. The rule number fixes the
 table: the i-th neighbourhood of `Neighbourhoods` receives the base-3 digit of
 weight 3^i of the rule number.
 */
module RuleTable {
  import opened Base3

  /** (current cell, left neighbour). */
  type Neighbourhood = (int, int)

  /** The lookup table, a dictionary keyed by neighbourhoods. */
  type Table = map<Neighbourhood, int>

  /** The fixed order in which the digits of the rule number are assigned. */
  const Neighbourhoods: seq<Neighbourhood> :=
    [(0, 0), (0, 1), (1, 0), (2, 1), (2, 2), (0, 2), (2, 0), (1, 2), (1, 1)]

  /** A cell holds one of the three states 0, 1 and 2. */
  predicate IsCell(v: int) {
    0 <= v <= 2
  }

  /** Where a neighbourhood of two cells stands in `Neighbourhoods`. */
  function Position(n: Neighbourhood): (i: nat)
    requires IsCell(n.0) && IsCell(n.1)
    ensures i < |Neighbourhoods| && Neighbourhoods[i] == n
  {
    match n
    case (0, 0) => 0
    case (0, 1) => 1
    case (1, 0) => 2
    case (2, 1) => 3
    case (2, 2) => 4
    case (0, 2) => 5
    case (2, 0) => 6
    case (1, 2) => 7
    case (1, 1) => 8
  }

  /** The nine neighbourhoods are distinct and consist of two cells each. */
  lemma NeighbourhoodsDistinct(i: nat, j: nat)
    requires i < |Neighbourhoods| && j < |Neighbourhoods|
    ensures IsCell(Neighbourhoods[i].0) && IsCell(Neighbourhoods[i].1)
    ensures Neighbourhoods[i] == Neighbourhoods[j] ==> i == j
  {
    assert IsCell(Neighbourhoods[i].0) && IsCell(Neighbourhoods[i].1);
    assert IsCell(Neighbourhoods[j].0) && IsCell(Neighbourhoods[j].1);
    if Neighbourhoods[i] == Neighbourhoods[j] {
      assert Position(Neighbourhoods[i]) == i;
    }
  }

  /** The table the first k digits of `rule` define. */
  function TablePrefix(rule: nat, k: nat): Table
    requires k <= |Neighbourhoods|
  {
    map i | 0 <= i < k :: Neighbourhoods[i] := Digit(rule, i)
  }

  /** The lookup table of `rule`: digit i of the rule for neighbourhood i. */
  function LookupTable(rule: nat): Table {
    TablePrefix(rule, |Neighbourhoods|)
  }

  /** The nine pairs of cells. */
  const CellPairs: set<Neighbourhood> :=
    {(0, 0), (0, 1), (1, 0), (2, 1), (2, 2), (0, 2), (2, 0), (1, 2), (1, 1)}

  lemma CellPairsShape()
    ensures forall n: Neighbourhood :: n in CellPairs <==> IsCell(n.0) && IsCell(n.1)
    ensures |CellPairs| == 9
  {
  }

  /** Every neighbourhood of two cells has an entry, and every entry is a cell. */
  ghost predicate Complete(t: Table) {
    forall a, b :: IsCell(a) && IsCell(b) ==> (a, b) in t && IsCell(t[(a, b)])
  }

  /** In the table of the first k digits, the i-th neighbourhood (i < k) maps
      to the i-th digit. */
  lemma TablePrefixEntries(rule: nat, k: nat, i: nat)
    requires k <= |Neighbourhoods| && i < k
    ensures Neighbourhoods[i] in TablePrefix(rule, k)
    ensures TablePrefix(rule, k)[Neighbourhoods[i]] == Digit(rule, i)
  {
    var t := TablePrefix(rule, k);
    assert Neighbourhoods[i] in t;
    var j :| 0 <= j < k && Neighbourhoods[j] == Neighbourhoods[i] && t[Neighbourhoods[i]] == Digit(rule, j);
    NeighbourhoodsDistinct(i, j);
  }

  /** Inserting the next digit extends the prefix table by one entry. */
  lemma TablePrefixSucc(rule: nat, k: nat)
    requires k < |Neighbourhoods|
    ensures TablePrefix(rule, k + 1) == TablePrefix(rule, k)[Neighbourhoods[k] := Digit(rule, k)]
  {
    var before, after := TablePrefix(rule, k), TablePrefix(rule, k + 1);
    var grown := before[Neighbourhoods[k] := Digit(rule, k)];
    forall n | n in after
      ensures n in grown && after[n] == grown[n]
    {
      var i :| 0 <= i < k + 1 && Neighbourhoods[i] == n;
      TablePrefixEntries(rule, k + 1, i);
      if i < k {
        TablePrefixEntries(rule, k, i);
        NeighbourhoodsDistinct(i, k);
      }
    }
    forall n | n in grown
      ensures n in after
    {
      if n != Neighbourhoods[k] {
        var i :| 0 <= i < k && Neighbourhoods[i] == n;
        TablePrefixEntries(rule, k + 1, i);
      } else {
        TablePrefixEntries(rule, k + 1, k);
      }
    }
  }

  /** Entry i of the lookup table is (rule / 3^i) % 3. */
  lemma LookupTableEntry(rule: nat, i: nat)
    requires i < |Neighbourhoods|
    ensures Neighbourhoods[i] in LookupTable(rule)
    ensures LookupTable(rule)[Neighbourhoods[i]] == (rule / Pow3(i)) % 3
  {
    TablePrefixEntries(rule, |Neighbourhoods|, i);
  }

  /** The lookup table has exactly the nine neighbourhoods of two cells as
      keys, and every value it holds is a cell. */
  lemma LookupTableShape(rule: nat)
    ensures forall n: Neighbourhood :: n in LookupTable(rule) <==> IsCell(n.0) && IsCell(n.1)
    ensures |LookupTable(rule)| == 9
    ensures Complete(LookupTable(rule))
  {
    var t := LookupTable(rule);
    forall n: Neighbourhood | IsCell(n.0) && IsCell(n.1)
      ensures n in t && IsCell(t[n])
    {
      TablePrefixEntries(rule, |Neighbourhoods|, Position(n));
    }
    forall n: Neighbourhood | n in t
      ensures IsCell(n.0) && IsCell(n.1)
    {
      var i :| 0 <= i < |Neighbourhoods| && Neighbourhoods[i] == n;
      NeighbourhoodsDistinct(i, i);
    }
    CellPairsShape();
    assert t.Keys == CellPairs;
  }

  /** Sum of t[Neighbourhoods[i]] * 3^i over i < k: the number whose base-3
      digits the table lists. */
  function Reconstruct(t: Table, k: nat): int
    requires k <= |Neighbourhoods|
    requires forall i :: 0 <= i < k ==> Neighbourhoods[i] in t
  {
    if k == 0 then 0 else Reconstruct(t, k - 1) + t[Neighbourhoods[k - 1]] * Pow3(k - 1)
  }

  lemma {:induction false} ReconstructPrefix(rule: nat, k: nat)
    requires k <= |Neighbourhoods|
    ensures forall i :: 0 <= i < k ==> Neighbourhoods[i] in LookupTable(rule)
    ensures Reconstruct(LookupTable(rule), k) == rule % Pow3(k)
  {
    forall i | 0 <= i < k
      ensures Neighbourhoods[i] in LookupTable(rule)
    {
      LookupTableEntry(rule, i);
    }
    if k > 0 {
      ReconstructPrefix(rule, k - 1);
      LookupTableEntry(rule, k - 1);
      ModPow3Succ(rule, k - 1);
    }
  }

  /** The nine table entries are the base-3 expansion of the rule number
      modulo 3^9; below 3^9 they give back the rule number itself. */
  lemma ReconstructLookupTable(rule: nat)
    ensures forall i :: 0 <= i < |Neighbourhoods| ==> Neighbourhoods[i] in LookupTable(rule)
    ensures Reconstruct(LookupTable(rule), |Neighbourhoods|) == rule % Pow3(9)
    ensures rule < Pow3(9) ==> Reconstruct(LookupTable(rule), |Neighbourhoods|) == rule
  {
    ReconstructPrefix(rule, |Neighbourhoods|);
  }

  /** Distinct rule numbers below 3^9 have distinct lookup tables. */
  lemma LookupTableInjective(rule1: nat, rule2: nat)
    requires rule1 < Pow3(9) && rule2 < Pow3(9)
    requires LookupTable(rule1) == LookupTable(rule2)
    ensures rule1 == rule2
  {
    ReconstructLookupTable(rule1);
    ReconstructLookupTable(rule2);
  }

  /** The lookup table written out as a dictionary display, in the fixed order. */
  lemma LookupTableDisplay(rule: nat)
    ensures LookupTable(rule) == map[
      (0, 0) := Digit(rule, 0), (0, 1) := Digit(rule, 1), (1, 0) := Digit(rule, 2),
      (2, 1) := Digit(rule, 3), (2, 2) := Digit(rule, 4), (0, 2) := Digit(rule, 5),
      (2, 0) := Digit(rule, 6), (1, 2) := Digit(rule, 7), (1, 1) := Digit(rule, 8)]
  {
    LookupTableShape(rule);
    forall i | 0 <= i < |Neighbourhoods| {
      LookupTableEntry(rule, i);
    }
  }

  /** Rule 0 sends every neighbourhood to 0. */
  lemma Rule0Table()
    ensures LookupTable(0) == map[
      (0, 0) := 0, (0, 1) := 0, (1, 0) := 0, (2, 1) := 0, (2, 2) := 0,
      (0, 2) := 0, (2, 0) := 0, (1, 2) := 0, (1, 1) := 0]
  {
    LookupTableDisplay(0);
  }

  /** Rule 3 = 1 * 3^1 sends (0, 1) to 1 and the other eight neighbourhoods to 0. */
  lemma Rule3Table()
    ensures LookupTable(3) == map[
      (0, 0) := 0, (0, 1) := 1, (1, 0) := 0, (2, 1) := 0, (2, 2) := 0,
      (0, 2) := 0, (2, 0) := 0, (1, 2) := 0, (1, 1) := 0]
  {
    LookupTableDisplay(3);
    assert Digit(3, 1) == 1;
    forall i | 2 <= i < |Neighbourhoods|
      ensures Digit(3, i) == 0
    {
      SmallDigit(3, 2, i);
    }
  }
}
