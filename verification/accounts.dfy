/**
 * Account-table normalisation (`tweak_accounts`): keep the legacy-code and
 * target-code columns of a raw account sheet, read them as nullable integers,
 * and sort the rows by legacy code, nulls last.
 */
module Accounts {
  import opened Wrappers
  import opened Frames
  import opened Sorting

  /** Source-sheet name of the legacy (Sinqia) account code column. */
  const LegacyColumn: string := "Cód Conta"
  /** Source-sheet name of the target (Matera 2025 plan) account code column. */
  const TargetColumn: string := "PLANO2025"
  /** The two columns the normalisation keeps, in the order it selects them. */
  const AccountColumns: seq<string> := [LegacyColumn, TargetColumn]

  /** One mapping row, after renaming: `conta_sinqia` (legacy) and `conta_matera` (target). */
  datatype AccountRow = AccountRow(legacy: Option<int>, target: Option<int>)

  datatype SchemaError =
    | MissingColumns(names: seq<string>)   // the selection of a column that is absent
    | NotAnInteger(column: string)         // the nullable-integer conversion of a non-integer cell

  /** A cell the nullable-integer conversion accepts. */
  predicate IsCode(c: Cell) {
    c.Int? || c.Null?
  }

  function CodeOf(c: Cell): Option<int>
    requires IsCode(c)
  {
    if c.Int? then Some(c.value) else None
  }

  predicate AllCodes(col: seq<Cell>) {
    forall i :: 0 <= i < |col| ==> IsCode(col[i])
  }

  /** The requested columns the sheet lacks, in request order. */
  function Missing(df: Frame, wanted: seq<string>): (r: seq<string>)
    ensures forall c :: c in r <==> c in wanted && c !in df.cols
  {
    if wanted == [] then []
    else (if wanted[0] in df.cols then [] else [wanted[0]]) + Missing(df, wanted[1..])
  }

  /** Sort key of the normalised table: legacy code ascending, null codes last. */
  predicate LegacyLeq(a: AccountRow, b: AccountRow) {
    match (a.legacy, b.legacy)
    case (Some(x), Some(y)) => x <= y
    case (_, None) => true
    case (None, Some(_)) => false
  }

  lemma LegacyLeqIsTotalPreorder()
    ensures TotalPreorder(LegacyLeq)
  {
  }

  /** The selected rows in sheet order, before the sort. */
  function SheetRows(df: Frame): (r: seq<AccountRow>)
    requires df.Valid()
    requires LegacyColumn in df.cols && TargetColumn in df.cols
    requires AllCodes(df.cols[LegacyColumn]) && AllCodes(df.cols[TargetColumn])
    ensures |r| == df.height
  {
    seq(df.height, i requires 0 <= i < df.height =>
      AccountRow(CodeOf(df.cols[LegacyColumn][i]), CodeOf(df.cols[TargetColumn][i])))
  }

  /**
   * `tweak_accounts`. Selecting an absent column fails, converting a cell that
   * is neither an integer nor null fails; otherwise the result has one row per
   * sheet row, holding that row's two codes, sorted by legacy code.
   */
  function TweakAccounts(df: Frame): (r: Result<seq<AccountRow>, SchemaError>)
    requires df.Valid()
    ensures r.Failure? && r.error.MissingColumns? <==> LegacyColumn !in df.cols || TargetColumn !in df.cols
    ensures r.Failure? && r.error.MissingColumns? ==>
      forall c :: c in r.error.names <==> c in AccountColumns && c !in df.cols
    ensures r.Success? <==>
      && LegacyColumn in df.cols && TargetColumn in df.cols
      && AllCodes(df.cols[LegacyColumn]) && AllCodes(df.cols[TargetColumn])
    ensures r.Success? ==>
      && |r.value| == df.height
      && SortedBy(r.value, LegacyLeq)
      && multiset(r.value) == multiset(SheetRows(df))
  {
    var missing := Missing(df, AccountColumns);
    if missing != [] then
      assert missing[0] in missing;
      Failure(MissingColumns(missing))
    else if !AllCodes(df.cols[LegacyColumn]) then
      assert LegacyColumn !in missing;
      Failure(NotAnInteger(LegacyColumn))
    else if !AllCodes(df.cols[TargetColumn]) then
      Failure(NotAnInteger(TargetColumn))
    else
      LegacyLeqIsTotalPreorder();
      Success(InsertionSort(SheetRows(df), LegacyLeq))
  }

  /** Each sheet row turns up in the normalised table with its own two codes, and the table holds nothing else. */
  lemma TweakAccountsKeepsRows(df: Frame, i: nat)
    requires df.Valid()
    requires TweakAccounts(df).Success?
    requires i < df.height
    ensures AccountRow(CodeOf(df.cols[LegacyColumn][i]), CodeOf(df.cols[TargetColumn][i])) in TweakAccounts(df).value
    ensures forall row :: row in TweakAccounts(df).value ==> exists k :: 0 <= k < df.height && row == SheetRows(df)[k]
  {
    var rows := SheetRows(df);
    var out := TweakAccounts(df).value;
    assert rows[i] in multiset(rows);
    forall row | row in out
      ensures exists k :: 0 <= k < df.height && row == rows[k]
    {
      assert row in multiset(out);
      var k :| 0 <= k < |rows| && rows[k] == row;
    }
  }
}
