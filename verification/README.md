# matera_transform in Dafny

A model of the batch transform that turns a movements export (one row per
transaction, with a debit account, a credit account, a date and an amount)
into the ledger import file of the Matera accounting system. The transform
has four stages, and each one is modelled here:

1. **Account-table normalisation** (`tweak_accounts`, module `Accounts`). It
   keeps the columns "Cód Conta" (the legacy Sinqia code) and "PLANO2025" (the
   target Matera code) and reads both as nullable integers. It renames them to
   `conta_sinqia`/`conta_matera` (the two fields of `AccountRow`) and sorts the
   rows by legacy code, with nulls last.
2. **Movement join** (`transform_movements`, module `Join`). It runs two pandas
   left merges against the mapping: the first on the debit account, the second
   on the credit account. It then keeps the two mapped codes, the date and the
   amount. The model computes the merges as pandas does:
   - a key contributes one row for each mapping row that matches it;
   - a key with no match contributes one row with a null target;
   - a null key matches null legacy codes.

   A reference lookup (`Lookup`, first match or null) is proved equal to this
   computation whenever legacy codes are unique.
3. **Split and sort** (`prepare_transaction_dataframe`, module `Ledger`).
   Each joined row becomes a `D` line carrying its debit target and a `C` line
   carrying its credit target. The lines are sorted by amount ascending and
   then by `lcto` descending.
4. **Projection** (`add_and_populate_columns` and `result_columns`, module
   `Projection`). The requested columns are assigned one at a time: a mapped
   column copies its source column if the frame has one, and every other
   column is set to null. The requested columns are then selected in order.
   The model runs the same loop over a column map. It proves the result equal
   to a closed form (`ExpectedColumn`), which also covers requested names that
   coincide with a source column. For the fixed 26-column layout it proves that
   each output record is the per-line reference projection (`ProjectLine`).

Module `Pipeline` composes stages 2–4 as `main` does. `tweak_accounts` is a
separate function whose output type is the mapping type, so it composes in
front of the pipeline when wanted. In `main` that call is commented out.

Representation choices:
- A frame is its height plus a map from column name to cells.
- A cell is null, an integer, a date or a text.
- Amounts are integer cents.
- Account codes are `Option<int>`.
- `Sorting.InsertionSort` stands for every `sort_values` call. It is stable,
  but its contract promises only what the sort key determines: the result is
  sorted, and it is a permutation of the input.

**Entry order among equal amounts.** `prepare_transaction_dataframe` sorts
`lcto` with `ascending=False`, and `"D"` sorts after `"C"`, so among equal
amounts every debit line comes before every credit line
(matera_transform.py:80-81). `Ledger.PrepareTransactions` states this.
`Pipeline.ExampleTwoLines` shows it for the mapping 100→5001, 200→5002: the
debit line on 5001 comes before the credit line on 5002.

## Model

| member | source | states |
|---|---|---|
| Accounts.TweakAccounts | matera_transform.py:34-48 | Selecting an absent "Cód Conta" or "PLANO2025" column fails and names exactly the missing columns. A cell that is neither an integer nor null fails the conversion. Otherwise there is one row per sheet row, the rows are sorted by legacy code with nulls last, and they are a permutation of the sheet's (legacy, target) pairs. |
| Accounts.TweakAccountsKeepsRows | matera_transform.py:36-46 | Every sheet row's pair of codes appears in the normalised table, and every row of the table is the pair of some sheet row. |
| Join.Matches | matera_transform.py:54-57 | The merge matches for a key are exactly the targets of the mapping rows whose legacy code equals the key. A null key matches null legacy codes. With no matching row there are none. |
| Join.LeftTargets | matera_transform.py:54-57 | A left merge contributes at least one row per key. When no mapping row matches it contributes a single null target. When some rows match it contributes exactly the merge matches, so a target appears iff some mapping row with that legacy code carries it. |
| Join.MergeDebit | matera_transform.py:54-56 | The debit merge has at least as many rows as its input. |
| Join.MergeDebitRows | matera_transform.py:54-56 | Every pair of an input movement with one of its debit-side left-merge targets is a row of the debit merge, and every row is such a pair. |
| Join.MergeCredit | matera_transform.py:57-60 | The credit merge has at least as many rows as its input. |
| Join.MergeCreditRows | matera_transform.py:57-60 | Each debit-merged row, paired with each of its credit-side left-merge targets, appears with its debit target, date and amount kept. Every output row is such a pairing. |
| Join.TransformMovements | matera_transform.py:51-63 | Whatever the mapping, the join has at least as many rows as there are movements. |
| Join.TransformMovementsRows | matera_transform.py:51-63 | Whatever the mapping, every combination of a movement with one of its debit targets and one of its credit targets is a joined row with the movement's date and amount. Every joined row is such a combination. |
| Join.Lookup | matera_transform.py:54-58 | Lookup-or-null: a key with no mapping row gives null. Otherwise the result is the target of the first mapping row with that legacy code. |
| Join.UniqueLeftTargets | matera_transform.py:54-57 | With unique legacy codes a left merge contributes exactly one row, holding the looked-up target. |
| Join.TransformMovementsUnique | matera_transform.py:53-61 | With unique legacy codes the join keeps row count and row order. Row i holds the looked-up debit target and credit target of movement i, each looked up independently, and its date and amount are unchanged. |
| Ledger.PrepareTransactions | matera_transform.py:66-84 | The output has exactly 2·n lines and is a permutation of the debit lines followed by the credit lines. Amounts never decrease. Among equal amounts every debit line precedes every credit line. |
| Ledger.PrepareHasBothHalves | matera_transform.py:68-80 | For every joined row, its debit line (debit target, date, amount, D) and its credit line (credit target, date, amount, C) are both in the output. |
| Ledger.PrepareOnlyHalves | matera_transform.py:68-80 | Every output line is the debit line or the credit line of some joined row. |
| Sorting.InsertionSort | matera_transform.py:80-82 | Sorting by a total preorder yields a sorted permutation of the input. |
| Projection.AddAndPopulateColumns | matera_transform.py:87-106 | The header is exactly the requested names in order, and the row count is kept. Each cell equals the closed-form expected column: a copy of the mapped source column when the source exists and no requested name has overwritten it first, and null otherwise. |
| Projection.ResultColumnsLayout | matera_transform.py:5-32 | The layout has 26 distinct names. COD_CONTA_CONTABIL, DT_LANC_CONTABIL, TIPO_LANC and VLR sit at positions 5, 8, 9 and 13. No layout name is a ledger-frame column name. |
| Projection.ProjectLedgerFrame | matera_transform.py:90-104 | On the ledger frame and the fixed layout, each output cell equals the reference record of its line. The four mapped columns carry the account, the date, the one-letter entry type and the amount, and every other column is null. |
| Pipeline.RunPipeline | matera_transform.py:118-122 | The output header is the fixed layout, and each record is the projection of one sorted ledger line. With unique legacy codes there are exactly 2·n records. Each movement's debit half and credit half appear among them, with the looked-up target codes. |
| Pipeline.SingleMovementLines | matera_transform.py:66-84 | A single joined movement becomes its debit line followed by its credit line. |
| Pipeline.ExampleTwoLines | matera_transform.py:118-120 | Mapping 100→5001 and 200→5002, one movement of 250.00 from 100 to 200 gives the D line on 5001, then the C line on 5002. |

## Left out

- File input and output: `read_csv`, `read_excel`, `to_csv` and their fixed paths. The pipeline takes the movements and the mapping as values and returns the output table.
- Command-line argument checking and the usage exit.
- Schema checks on the movements sheet. `Movement` assumes its four columns are present, and any other movement columns, which the join's final selection drops, are not represented.
- Extra columns in the mapping table beyond the two codes, including the `_x`/`_y` suffixing pandas would apply to them on the second merge. The join's final selection discards them.
- Accounts.TweakAccounts: the nullable-integer conversion is modelled only by cell kind. Integer and null cells pass and every other cell fails. Parsing numeric text and integral floats is not modelled. When both columns hold bad cells, the error names the legacy column.
- Join.TransformMovements: with duplicate legacy codes, the body multiplies rows as pandas does, in mapping order. Without unique codes, only membership is promised, in both directions (`Join.TransformMovementsRows`), together with a lower bound on the row count. Exact count, multiplicity and order are stated only under unique legacy codes.
- Ledger.PrepareTransactions: the order of two lines with equal amount and equal entry type is not promised. The model's sort is stable, and so is pandas' multi-key sort, but the source does not rely on it.
- Accounts.TweakAccounts: the order of rows with equal legacy codes is not promised, because pandas' single-key sort is not stable.
- Null amounts and their placement in the sort. Amounts are always present integer cents. Floating-point amounts are not modelled.
- The in-place mutation of the caller's frame by `add_and_populate_columns`. The caller never reads that frame again.
- Determinism across runs holds because every member is a pure function or a method with no state. It is not stated as a separate lemma.
