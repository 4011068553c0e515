# Three-state cellular automaton in Dafny

A model of `cellularAutomata3State`, a one-dimensional cellular automaton whose
cells hold 0, 1 or 2. A rule number in [0, 3^9) is expanded in base 3, least
significant digit first, and digit i becomes the next value of a cell whose
neighbourhood (cell, left neighbour) is the i-th pair of the fixed order
(0,0), (0,1), (1,0), (2,1), (2,2), (0,2), (2,0), (1,2), (1,1). The spacetime
field for `time` steps is the initial row followed by `time` rows, each
obtained from the previous one by looking every cell up in that table. The
left neighbour of cell 0 is the last cell (Python's index -1), so the row is a
ring.

Files:

- `base3.dfy` (module `Base3`): powers of three, base-3 digits and the
  division facts behind "take `rule % 3`, then `rule //= 3`".
- `rule_table.dfy` (module `RuleTable`): the neighbourhood order, the lookup
  table of a rule number as a specification function, and its properties.
- `evolution.dfy` (module `Evolution`): Python-style negative indexing, one
  synchronous step, its iteration and the spacetime field, and the lemmas
  relating consecutive rows.
- `automaton.dfy` (module `CellularAutomaton`): the class `Automaton` with the
  fields `ruleNumber`, `length` and `initialCondition`, its constructor and the
  two queries written as loops. It also holds the inner loop of the evolution
  as `NextConfiguration`, a client showing that repeated queries agree, and
  the tests of the lookup table.

The queries `GetLookupTable` and `GetSpacetimeField` have no `modifies`
clause: Dafny then guarantees that they leave the stored rule number and
initial configuration unchanged. This is how the model states that the loop
works on a local copy of the rule and that evolution works on a copy of the
initial row.
Python's `%` and `//` agree with Dafny's `%` and `/` on the values used here:
the rule number is a natural number and the divisor is 3. The expression
`current[i-1]` is modelled by `PyIndex`, which maps a negative index to the
matching position from the end of the row.

## Model

| member | source | states |
|---|---|---|
| `CellularAutomaton.Automaton.constructor` | cellularAutomata3State.py:10-28 | stores the rule number and length and copies the supplied draws, one by one, into the initial configuration; the object is then valid (positive length equal to the row's length, every cell in {0,1,2}) |
| `CellularAutomaton.Automaton.GetLookupTable` | cellularAutomata3State.py:31-48 | the 9-step loop on a local copy of the rule yields exactly the specification table; entry i is `(ruleNumber / 3^i) % 3`; every pair of cells has an entry and every entry is a cell; the stored rule number is not modified |
| `CellularAutomaton.Automaton.GetSpacetimeField` | cellularAutomata3State.py:50-77 | the nested loops return exactly the specification field for the stored rule and initial row: `time + 1` rows, the first being the initial configuration; the stored state is not modified |
| `CellularAutomaton.NextConfiguration` | cellularAutomata3State.py:69-72 | building the new row by appending `table[(current[i], current[i-1])]` for every cell gives the synchronous step `Step` |
| `CellularAutomaton.RepeatedQueries` | cellularAutomata3State.py:42-48 | two table derivations on one object return the same table, and two evolutions for the same time return the same field |
| `CellularAutomaton.TestGetLookupTable0` | cellularAutomata3State.py:94-100 | an automaton of 100 cells with rule 0, whatever its random draws, derives the all-zero table |
| `CellularAutomaton.TestGetLookupTable3` | cellularAutomata3State.py:103-109 | an automaton of 100 cells with rule 3, whatever its random draws, derives the table that sends (0,1) to 1 and everything else to 0 |
| `Base3.DivPow3Succ` | cellularAutomata3State.py:46 | after dividing by 3 the local rule is the rule number divided by the next power of three |
| `Base3.ModPow3Succ` | cellularAutomata3State.py:45-46 | the remainder modulo 3^(i+1) is the remainder modulo 3^i plus digit i times 3^i |
| `RuleTable.Position` | cellularAutomata3State.py:40 | every pair of cells occurs in the neighbourhood list, at the returned position |
| `RuleTable.NeighbourhoodsDistinct` | cellularAutomata3State.py:40 | the nine neighbourhoods are pairwise distinct pairs of cells |
| `RuleTable.TablePrefixEntries` | cellularAutomata3State.py:43-47 | after k insertions, each of the first k neighbourhoods maps to its own digit |
| `RuleTable.TablePrefixSucc` | cellularAutomata3State.py:47 | inserting digit k under the k-th neighbourhood extends the table of the first k digits to that of the first k+1 |
| `RuleTable.LookupTableEntry` | cellularAutomata3State.py:42-47 | the entry for the i-th neighbourhood is `(rule / 3^i) % 3` |
| `RuleTable.LookupTableShape` | cellularAutomata3State.py:40-48 | the keys are exactly the nine pairs of cells, the table has 9 entries, and every value is in {0,1,2} |
| `RuleTable.ReconstructPrefix` | cellularAutomata3State.py:43-47 | the first k entries, weighted by 3^i, sum to `rule mod 3^k` |
| `RuleTable.ReconstructLookupTable` | cellularAutomata3State.py:43-47 | the nine entries weighted by 3^i sum to `rule mod 3^9`, which is the rule number itself when it is below 3^9 |
| `RuleTable.LookupTableInjective` | cellularAutomata3State.py:17 | two rule numbers in the documented range with the same table are equal |
| `RuleTable.LookupTableDisplay` | cellularAutomata3State.py:40-48 | the table equals the dictionary display that lists the nine neighbourhoods in the fixed order with digits 0 to 8 |
| `RuleTable.Rule0Table` | cellularAutomata3State.py:99-100 | rule 0 maps all nine neighbourhoods to 0 |
| `RuleTable.Rule3Table` | cellularAutomata3State.py:108-109 | rule 3 maps (0,1) to 1 and the other eight neighbourhoods to 0 |
| `Evolution.LeftIsPeriodic` | cellularAutomata3State.py:71 | the left neighbour `current[i-1]` is cell `(i-1) mod L`: the last cell for i = 0, cell i-1 otherwise, and the cell itself when L = 1 |
| `Evolution.Step` | cellularAutomata3State.py:69-72 | the new row has the same length, holds only cells, and cell i is `table[(row[i], row[(i-1) mod L])]` |
| `Evolution.Iterate` | cellularAutomata3State.py:68-75 | after any number of steps the row keeps its length and holds only cells |
| `Evolution.IterateSucc` | cellularAutomata3State.py:74 | the row after n+1 steps is one step applied to the row after n steps |
| `Evolution.SpacetimeFieldSucc` | cellularAutomata3State.py:75 | one more time step appends exactly one row, the row after that many steps |
| `Evolution.SpacetimeFieldShape` | cellularAutomata3State.py:65-75 | the field has `time + 1` rows, row 0 is the initial configuration, and every row has the initial length and holds only cells |
| `Evolution.SpacetimeFieldZero` | cellularAutomata3State.py:65-68 | for `time = 0` the field is `[initial_condition]` |
| `Evolution.StepRelation` | cellularAutomata3State.py:70-72 | `field[k+1][i] == table[(field[k][i], field[k][(i-1) mod L])]` for every k < time and cell i |
| `Evolution.ValuesFromTable` | cellularAutomata3State.py:72 | every value in rows 1..time is a value of the table |
| `Evolution.SpacetimeFieldPrefix` | cellularAutomata3State.py:65-75 | the field for `time` is the prefix of `time + 1` rows of the field for any later `time'` |

## Left out

- The random initial condition (`random.randint`, cellularAutomata3State.py:26-27): the constructor takes the draws as a parameter `draws`, each required to be in {0,1,2}.
- `plot_spacetime_field` (cellularAutomata3State.py:79-92): it only renders through matplotlib.
- The `print` calls of the two tests: console output.
- Input validation: the source performs none, so the documented ranges (a positive length, a rule number in [0, 3^9), a non-negative time) are preconditions or `nat` types, not error results.
- The class-level default attributes (cellularAutomata3State.py:6-8): the three values are per-instance fields set by the constructor.
- The `int(...)` cast at cellularAutomata3State.py:72: it does nothing on integers.
- The aliasing between `spacetime_field[0]` and `self.initial_condition`: rows are Dafny sequences, which are values.
