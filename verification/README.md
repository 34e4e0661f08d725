# A verified model of iou's debt graph

This project models `DebtGraph` from iou in Dafny. iou is a small tool for keeping track of who owes whom. A debt graph maps each creditor to the debts owed to them, `creditor -> {debtor -> amount}`. The class edits single debts, adds and removes people, and offers two whole-graph simplifications:

- `cancel` nets out every pair of people who owe each other;
- `collapse` replaces the graph with a small one that gives every person the same net flow.

The model is functional. A graph is an immutable `map<string, map<string, real>>`, and every operation is a function or method that returns a new graph. Operations that raise `KeyError` (or divide by zero) in the source return an `Err` carrying the reason. Amounts are exact reals, so the exact `==`, `<` and `>` comparisons in `collapse` mean what they say.

Files and modules:

- `graph.dfy` (`Graphs`): the graph type, errors, edge lookup. It also defines `Credit`, the one mutation every `add` path performs, and the well-formedness and iteration-order predicates.
- `edits.dfy` (`Edits`): the constructor from a list of names, `remove`, `forgive`, the single-debtor and the split `add`, `add_person`, `remove_person` and `rename_person`. It also holds the laws relating them: undoing an `add`, undoing `add_person`, and renaming back.
- `flow.dfy` (`Flows`): a person's net flow, i.e. what they are owed minus what they owe. It proves that the flows of all people sum to zero and what changing one debt does to every flow.
- `edit_flows.dfy` (`EditFlows`): how `add`, `remove` and `forgive` move net flow.
- `cancel.dfy` (`Cancellation`):
  - `cancel` as the source's nested loops (`Cancel`);
  - a closed-form reference `Cancelled`, which gives each edge after cancellation;
  - the proof that the two agree.
- `settle.dfy` (`Settlement`): the greedy settlement loop of `collapse` over two lists of `[person, flow]` entries, and the sort by magnitude.
- `collapse.dfy` (`Collapsing`):
  - `__get_nodes` as its loops (`NodeFlows`);
  - `collapse` as the source runs it (`Collapse`, `SettleInto`) and as a function (`Collapsed`);
  - `cleanup`;
  - the properties of the collapsed graph.
- `scenarios.dfy` (`Scenarios`): the repository's test cases as lemmas about the model.

Python's dictionary iteration order is not specified, so it is a parameter. `order` lists every person exactly once (`IsOrder`) and is the order in which `cancel` and `collapse` visit creditors. The debtors of one creditor are visited in any order: the loops pick them from a set with `:|`. Every result is proved for every such choice. `cancel` depends on `order` only through ties, and `collapse` depends on it only through the order of equal magnitudes.

The code's behaviour is followed where its docstrings or a reader's expectations differ:

- `remove` deletes a debt only when the remainder is below zero. An exact zero keeps a debt of zero.
- In `cancel`, an exact tie deletes the visited creditor's edge and leaves a zero edge in the other direction. The creditor visited first loses the edge (`CancelTie`).
- The single-debtor `add` has no guard against `debtor == creditor`. Only the split skips the creditor.
- `add_person` on an existing person empties their row of receivables.
- `rename_person` onto another existing name overwrites that person's row.

`cancel` reads `graph[person2]` and `__get_nodes` updates `nodeflows[person2]` for every debtor `person2`, so both raise `KeyError` for a debtor that is not a node. The model requires a well-formed graph (every debtor is a node) for `cancel`, `collapse` and `cleanup`.

## Model

| member | source | states |
|---|---|---|
| `Graphs.Credit` | debtgraph.py:96-99 | The debt `d` owes `c` becomes the old amount plus `a`, or `a` when there was none. No other debt and no node changes, and a well-formed graph stays well formed when `d` is a node. |
| `Edits.FromNames` | debtgraph.py:22-23 | The nodes are exactly the listed names, nobody owes anything, and the graph is well formed. |
| `Edits.Remove` | debtgraph.py:49-59 | Fails with `DebtNotFound` exactly when there is no debt `d -> c`. Otherwise that debt drops by `x` and is deleted only when the result is below zero, so an exact zero keeps a zero debt. Every other debt and every node is unchanged. |
| `Edits.Forgive` | debtgraph.py:61-66 | Fails with `DebtNotFound` exactly when there is no debt `d -> c`. Otherwise only that debt is deleted. |
| `Edits.AddSingle` | debtgraph.py:92-99 | An unknown debtor fails first with `DebtorNotFound(d)`, then an unknown creditor with `CreditorNotFound`. It succeeds exactly when both are nodes. Then `c -> d` becomes the old amount plus `x` (also for `c == d`), and nothing else changes. |
| `Edits.FirstUnknown` | debtgraph.py:75-77 | Finds nothing exactly when every listed debtor is a node. A name it reports is not a node and is the first such name in the list: every name before it is a node. |
| `Edits.SharesProduct` | debtgraph.py:79-91 | Adding a share `n` times, as the split loop does once per listing, adds `n * share`. |
| `Edits.SplitInto` | debtgraph.py:80-91 | Every `y != c` owes `c` one more share for each time `y` is listed. The debt `c -> c` and every other creditor's row are unchanged. `c`'s debtors are the old ones plus the listed names other than `c`. |
| `Edits.AddSplit` | debtgraph.py:73-91 | Succeeds exactly when the list is non-empty and the creditor and every listed debtor are nodes. Any unknown listed name is always reported, as `DebtorNotFound` of the first such name. With every listed name known, an empty list fails with `EmptyDebtors` and an unknown creditor with `CreditorNotFound`. On success each listed `y != c` gains `x / |ds|` per listing, where the divisor counts `c` if listed. `c`'s debtors become the old ones plus the listed names other than `c`. The debt `c -> c` and every other creditor's row are unchanged. |
| `Edits.AddPerson` | debtgraph.py:201-203 | The nodes gain `p`, and `p`'s receivables are emptied even if `p` was there. All other debts are kept. |
| `Edits.RemovePerson` | debtgraph.py:205-213 | Fails with `PersonNotFound` exactly when `p` is unknown. Otherwise `p` is removed with every debt owed to or by `p`, and every other debt is kept. |
| `Edits.RenamePersonAsWritten` | debtgraph.py:215-225 | The three steps of `rename_person` as written. Fails exactly when `from` is unknown; for distinct names the nodes become `g - {from} + {to}` and the result is exactly that of `RenamePerson`, so its edge mapping and well-formedness carry over. |
| `Edits.RenameToSelfRemoves` | debtgraph.py:215-225 | Renaming a person to their own name, as written, is `remove_person`: the person disappears together with every debt owed to them and every debt they owe. |
| `Edits.RenamedEdges` | debtgraph.py:218-223 | With a fresh `to` and a well-formed graph, the nodes become `g - {from} + {to}`, the result is well formed, and every debt of `g` appears with `from` renamed at either end. Since every node and debtor of the result is a renamed node of `g`, these are all its debts. |
| `Edits.RenamePerson` | debtgraph.py:215-225 | Fails exactly when `from` is unknown. Renaming to one's own name changes nothing. Otherwise the nodes are `g - {from} + {to}`; with a fresh `to`, every debt keeps its amount with `from` renamed, and well-formedness is kept. |
| `Edits.RemoveUndoesAdd` | debtgraph.py:49-59 | Removing `x` from a non-negative debt that `x` was just added to gives back the original graph. |
| `Edits.RemoveAfterFreshAdd` | debtgraph.py:55-57 | Removing `x` right after creating a debt of `x` leaves a zero debt, not the original graph. Forgiving that debt gives the original back. |
| `Edits.ForgiveUndoesFreshAdd` | debtgraph.py:61-66 | Forgiving a debt just created by `add` gives back the original graph. |
| `Edits.RemovePersonUndoesAddPerson` | debtgraph.py:201-213 | Removing a person just added to a well-formed graph gives back the original graph. |
| `Edits.RenameRoundTrip` | debtgraph.py:215-225 | Renaming a person to a fresh name and back gives back the original graph. |
| `Flows.FlowsSumToZero` | debtgraph.py:123-130 | The net flows of all people add up to zero. |
| `Flows.FlowOneEdge` | debtgraph.py:126-129 | Changing the single debt `d -> c` by `delta` adds `delta` to `c`'s flow and takes it from `d`'s. Every other flow is unchanged. |
| `EditFlows.AddSingleFlow` | debtgraph.py:92-99 | `add(c, d, x)` moves `x` of flow from `d` to `c` and leaves everyone else's flow alone. A self-debt moves nothing. |
| `EditFlows.RemoveFlow` | debtgraph.py:49-59 | `remove` moves `x`, or the whole debt when `x` is larger, from `c`'s flow back to `d`'s. |
| `EditFlows.ForgiveFlow` | debtgraph.py:61-66 | `forgive` moves the whole debt from `c`'s flow back to `d`'s. |
| `Cancellation.CancelPair` | debtgraph.py:111-121 | For a pair who owe each other positive amounts, the larger debt keeps the difference and the smaller is deleted. On a tie the visiting creditor's debt goes and the other is left at zero. Any other pair is untouched. |
| `Cancellation.Cancelled` | debtgraph.py:103-121 | Same nodes, and every edge as the per-pair reference gives it. No pair owes each other positive amounts afterwards. Every pairwise net amount is unchanged, edges without a positive reverse edge are untouched, and well-formedness is kept. |
| `Cancellation.CancelTie` | debtgraph.py:119-121 | On an exact tie the creditor visited first loses the debt and the other keeps a zero debt. |
| `Cancellation.CancelIdempotent` | debtgraph.py:103-121 | Cancelling a cancelled graph changes nothing. |
| `Cancellation.CancelKeepsFlow` | debtgraph.py:114-121 | Cancelling changes nobody's net flow. |
| `Cancellation.Cancel` | debtgraph.py:103-121 | The nested loops, visiting creditors in `order` and each snapshot of debtors in any order, produce exactly `Cancelled`. Every flow is preserved. |
| `Collapsing.NodeFlows` | debtgraph.py:123-130 | The loops of `__get_nodes` give every node its net flow, owed minus owes. |
| `Collapsing.WithSign` | debtgraph.py:171-172 | The entries are a subsequence of the list in list order (`InOrder`), each carrying the person's flow, and all have the given sign. A person appears exactly when listed with a flow of that sign, holding exactly that flow. |
| `Collapsing.SignedCount` | debtgraph.py:171-172 | The positive and negative lists together have one entry per person with a nonzero flow. |
| `Collapsing.SignedTotals` | debtgraph.py:171-172 | The totals of the positive and negative lists add up to the sum of all flows. |
| `Settlement.SortByMagnitude` | debtgraph.py:173-174 | The result is a permutation of the entries with magnitudes in non-increasing order. |
| `Settlement.SortKeepsHeld` | debtgraph.py:173-174 | Sorting keeps what every person holds and the total. |
| `Settlement.SortKeepsEntries` | debtgraph.py:173-174 | Sorting keeps the set of names and the sign of every entry. |
| `Collapsing.Sorted` | debtgraph.py:171-174 | `pos_flows` and `neg_flows` after sorting: the right sign, non-increasing magnitude, the same names, totals and holdings as before sorting. |
| `Settlement.Settle` | debtgraph.py:177-194 | The loop stops with one list empty, and each debt runs from a listed creditor to a listed debtor. It makes fewer debts than there are entries. With positive creditors and negative debtors, every debt is positive and the leftovers keep their signs. |
| `Settlement.SettleHead` | debtgraph.py:177-194 | When the head creditor's flow is positive, the first debt runs from the head debtor to the head creditor and carries the smaller of the two magnitudes. |
| `Settlement.SettleExhausts` | debtgraph.py:177-194 | When the creditors' total matches the debtors', both lists run out. |
| `Settlement.SettleKeepsFlow` | debtgraph.py:177-194 | For every person, the debts made plus what is left in the lists equal what the lists held at the start. |
| `Collapsing.Settled` | debtgraph.py:171-194 | Each debt of the settlement is positive and runs between people in `order`, from a positive flow to a negative one. |
| `Collapsing.Build` | debtgraph.py:176-192 | Adding the settlement's debts to the graph of names keeps the nodes and well-formedness. |
| `Collapsing.BuildLinks` | debtgraph.py:184-192 | Each debt of the built graph was already there or is one of the added debts. |
| `Collapsing.BuildPositive` | debtgraph.py:184-192 | Adding positive debts to a graph of positive debts leaves only positive debts. |
| `Collapsing.BuildFlow` | debtgraph.py:184-192 | The added debts change each person's flow by exactly what those debts give them. |
| `Collapsing.BuildCount` | debtgraph.py:184-192 | Adding `n` debts creates at most `n` debts. |
| `Collapsing.Collapsed` | debtgraph.py:162-194 | Collapsing keeps exactly the same people and gives a well-formed graph. |
| `Collapsing.SettledExhausts` | debtgraph.py:177-194 | Because flows sum to zero, `collapse`'s loop ends with both lists empty. |
| `Collapsing.CollapseKeepsFlow` | debtgraph.py:162-194 | Collapsing changes nobody's net flow. |
| `Collapsing.CollapseEdges` | debtgraph.py:162-194 | Every debt of the collapsed graph is positive and owed by someone with a negative flow to someone with a positive flow. People with a zero flow owe and are owed nothing. |
| `Collapsing.CollapseEdgeCount` | debtgraph.py:162-194 | With `k` people of nonzero flow the collapsed graph has at most `k - 1` debts, and none when `k` is zero. |
| `Collapsing.CollapsedByFlows` | debtgraph.py:169-194 | Two graphs with the same people and the same flows collapse to the same graph. |
| `Collapsing.CollapseIdempotent` | debtgraph.py:162-194 | Collapsing a collapsed graph changes nothing. |
| `Collapsing.CollapseAfterCancel` | debtgraph.py:196-199 | Cancelling before collapsing does not change the result, so `cleanup` equals `collapse`. |
| `Collapsing.SettleStep` | debtgraph.py:178-194 | One turn of the loop shortens the lists and adds the settlement's first debt with a single-debtor `add`, so the rest of the loop completes the same graph. |
| `Collapsing.SettleInto` | debtgraph.py:177-194 | The `while` loop adds exactly the settlement's debts, in order. |
| `Collapsing.Collapse` | debtgraph.py:162-194 | `collapse` as the source runs it equals `Collapsed`, keeps the people and keeps every flow. |
| `Collapsing.Cleanup` | debtgraph.py:196-199 | `cancel` then `collapse` equals collapsing the original graph, keeps the people and keeps every flow. |
| `Scenarios.ConstructFromNames` | test/test_debtgraph.py:6-9 | Names `a`, `b`, `c` give three people with no debts. |
| `Scenarios.RemovePartly` | test/test_debtgraph.py:28-33 | Removing 5 of bob's 20 to alice leaves 15. |
| `Scenarios.RemoveTooMuch` | test/test_debtgraph.py:35-40 | Removing 25 of bob's 20 deletes the debt. |
| `Scenarios.RemoveMissing` | test/test_debtgraph.py:42-45 | Removing a debt that does not exist fails. |
| `Scenarios.ForgiveDebt` | test/test_debtgraph.py:49-54 | Forgiving alice's debt to bob deletes exactly that debt. |
| `Scenarios.ForgiveMissing` | test/test_debtgraph.py:56-59 | Forgiving a debt that does not exist fails. |
| `Scenarios.AddToDebt` | test/test_debtgraph.py:63-68 | Adding 5 to bob's debt of 20 to alice gives 25. |
| `Scenarios.AddSplitTwo` | test/test_debtgraph.py:70-75 | Splitting 10 for charlie over alice and bob charges each 5. |
| `Scenarios.AddSplitWithCreditor` | test/test_debtgraph.py:77-83 | Splitting 15 over charlie, alice and bob charges alice and bob 5 each and charlie nothing. |
| `Scenarios.CancelExample` | debtgraph.py:104-107 | If A owes B 10 and B owes A 3, cancelling leaves A owing B 7. |

## Left out

- The file constructor, `serialize` and `deserialize` (JSON file I/O) are not modelled. Neither is the dict constructor, whose `init.copy()` is the identity on a value.
- `__repr__` is not modelled.
- The `TypeError` dispatch on the argument kinds is not modelled. The single-name and list forms of `add` are the two functions `AddSingle` and `AddSplit`. Names are strings only; Python 2 `unicode` and `int` debtors are not modelled.
- `__subgraphs` and `find_subgraphs` are not modelled. They are exploratory code that does not run as intended (a `print` statement, `list.extend` used for its value, a list indexed as a dictionary), so they state no behaviour.
- Floating point is not modelled. Amounts, `float(amount)` and the division of a split are exact reals.
- Mutation in place is not modelled. A failing call returns `Err` and the caller keeps its graph, so "a failing operation changes nothing" holds by construction. The message strings of the `KeyError`s are not modelled.
- `Cancellation.Cancel` requires a well-formed graph. The `KeyError` that `cancel` raises at `graph[person2]` for a debtor who is not a node, possibly after part of the graph has changed, is not modelled.
- `Collapsing.NodeFlows` requires a well-formed graph. The `KeyError` that `__get_nodes` raises at `nodeflows[person2]` for a debtor who is not a node is not modelled.
- `Collapsing.Collapse` requires a well-formed graph, for the same `KeyError` in `__get_nodes`.
- `Collapsing.Cleanup` requires a well-formed graph, for the same `KeyError` in `cancel`.
- `Collapsing.Collapse` iterates the flow dictionary in the same `order` as the graph. The source builds it as a new dictionary with the same keys, whose iteration order Python does not tie to the graph's.
- `Settlement.SortByMagnitude`: stability is not stated as a contract. Entries of equal magnitude keep their list order, as Python's `sort` does, by construction of `Insert`.
- `Edits.RenamePerson` and `Edits.RenamedEdges` state the edge mapping only for a fresh new name. Renaming onto another existing person replaces that person's receivables. In every row where both owe, their debt is also overwritten by the renamed one's. That case is modelled (it is `Renamed`), but no contract describes it.
- `Edits.AddSplit` states each debtor's increase as the repeated sum `Shares`. `Edits.SharesProduct` equates that sum with a product; the two are not combined into a single contract.

## Findings

| source | as written | input that shows it | evidently intended | confidence | as-written member | corrected member |
|---|---|---|---|---|---|---|
| debtgraph.py:215-225 | `rename_person(p, p)` copies `p`'s row onto itself, deletes `p` from every row and then deletes `p`. The person is lost together with every debt owed to them and every debt they owe. | any graph with person `p`, renamed to `p` | renaming a person to their own name changes nothing | high; not executed | `Edits.RenameToSelfRemoves` | `Edits.RenamePerson` |
