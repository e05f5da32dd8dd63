/**
 * The transform end to end: join the movements against the account mapping,
 * split and sort the ledger lines, project them onto the import layout.
 * Reading the input files and writing the CSV are left to the caller.
 */
module Pipeline {
  import opened Wrappers
  import opened Frames
  import opened Accounts
  import opened Join
  import opened Ledger
  import opened Projection

  /** The output record a movement's debit half (or credit half) should become. */
  function HalfRecord(m: Movement, accounts: seq<AccountRow>, e: EntryType): seq<Cell> {
    match e
    case Debit => ProjectLine(DebitLine(JoinRow(m, accounts)))
    case Credit => ProjectLine(CreditLine(JoinRow(m, accounts)))
  }

  /**
   * The body of `main` between reading the inputs and writing the output.
   * The output has the import layout's header; each record is the projection
   * of one sorted ledger line; with unique legacy codes there are exactly two
   * records per movement, among them the projection of its debit half and of
   * its credit half, each carrying the looked-up target code.
   */
  method RunPipeline(movements: seq<Movement>, accounts: seq<AccountRow>) returns (t: Table)
    ensures t.header == ResultColumns
    ensures var lines := PrepareTransactions(TransformMovements(movements, accounts));
      && |t.rows| == |lines|
      && forall r :: 0 <= r < |lines| ==> t.rows[r] == ProjectLine(lines[r])
    ensures UniqueLegacy(accounts) ==> |t.rows| == 2 * |movements|
    ensures UniqueLegacy(accounts) ==> forall i, e :: 0 <= i < |movements| ==>
      HalfRecord(movements[i], accounts, e) in t.rows
  {
    var joined := TransformMovements(movements, accounts);
    var lines := PrepareTransactions(joined);
    t := AddAndPopulateColumns(LedgerFrame(lines), ResultColumns);
    ProjectLedgerFrame(lines);
    forall r | 0 <= r < |lines|
      ensures t.rows[r] == ProjectLine(lines[r])
    {
    }
    if UniqueLegacy(accounts) {
      UniqueHalves(movements, accounts, t.rows);
    }
  }

  /**
   * With unique legacy codes, records that project the sorted ledger lines one
   * by one number two per movement and include both halves of every movement.
   */
  lemma UniqueHalves(movements: seq<Movement>, accounts: seq<AccountRow>, rows: seq<seq<Cell>>)
    requires UniqueLegacy(accounts)
    requires var lines := PrepareTransactions(TransformMovements(movements, accounts));
      && |rows| == |lines|
      && forall r :: 0 <= r < |lines| ==> rows[r] == ProjectLine(lines[r])
    ensures |rows| == 2 * |movements|
    ensures forall i, e :: 0 <= i < |movements| ==> HalfRecord(movements[i], accounts, e) in rows
  {
    TransformMovementsUnique(movements, accounts);
    forall i, e | 0 <= i < |movements|
      ensures HalfRecord(movements[i], accounts, e) in rows
    {
      var r := HalfLineIndex(movements, accounts, i, e);
      assert rows[r] == HalfRecord(movements[i], accounts, e);
    }
  }

  /** With unique legacy codes, each half of movement `i` is some sorted ledger line. */
  lemma HalfLineIndex(movements: seq<Movement>, accounts: seq<AccountRow>, i: int, e: EntryType) returns (r: nat)
    requires UniqueLegacy(accounts)
    requires 0 <= i < |movements|
    ensures var lines := PrepareTransactions(TransformMovements(movements, accounts));
      r < |lines| && ProjectLine(lines[r]) == HalfRecord(movements[i], accounts, e)
  {
    var joined := TransformMovements(movements, accounts);
    var lines := PrepareTransactions(joined);
    TransformMovementsUnique(movements, accounts);
    assert joined[i] == JoinRow(movements[i], accounts);
    PrepareHasBothHalves(joined, i);
    var half := if e == Debit then DebitLine(joined[i]) else CreditLine(joined[i]);
    r :| 0 <= r < |lines| && lines[r] == half;
  }

  /** A two-element sequence holding exactly `a` and `b` is one of their two orders. */
  lemma TwoElements<T>(s: seq<T>, a: T, b: T)
    requires |s| == 2
    requires multiset(s) == multiset{a, b}
    ensures s == [a, b] || s == [b, a]
  {
    assert s == [s[0], s[1]];
    assert s[0] in multiset(s) && s[1] in multiset(s);
    if s[0] == a {
      assert multiset{s[1]} == multiset{b};
    } else {
      assert multiset{s[1]} == multiset{a};
    }
  }

  /** A single joined movement splits into its debit line followed by its credit line. */
  lemma SingleMovementLines(j: JoinedMovement)
    ensures PrepareTransactions([j]) == [DebitLine(j), CreditLine(j)]
  {
    var lines := PrepareTransactions([j]);
    var dl, cl := DebitLine(j), CreditLine(j);
    assert multiset(lines) == multiset{dl, cl} by {
      assert DebitLines([j]) + CreditLines([j]) == [dl, cl];
    }
    TwoElements(lines, dl, cl);
    assert lines != [cl, dl] by {
      assert lines[1].entry == Debit ==> lines[0].entry == Debit;
    }
  }

  /** Worked example, join stage: legacy codes 100 and 200 map to 5001 and 5002. */
  lemma ExampleJoin()
    ensures var d := Date(2024, 1, 15);
      var accounts := [AccountRow(Some(100), Some(5001)), AccountRow(Some(200), Some(5002))];
      TransformMovements([Movement(Some(100), Some(200), d, 25000)], accounts)
        == [JoinedMovement(Some(5001), Some(5002), d, 25000)]
  {
    var d := Date(2024, 1, 15);
    var accounts := [AccountRow(Some(100), Some(5001)), AccountRow(Some(200), Some(5002))];
    var m := Movement(Some(100), Some(200), d, 25000);
    assert Lookup(accounts, Some(100)) == Some(5001);
    assert Lookup(accounts, Some(200)) == Some(5002);
    TransformMovementsUnique([m], accounts);
  }

  /**
   * Worked example: legacy codes 100 and 200 map to 5001 and 5002; one
   * movement of 250.00 from 100 to 200 gives the debit line on 5001 followed
   * by the credit line on 5002.
   */
  lemma ExampleTwoLines()
    ensures var d := Date(2024, 1, 15);
      var accounts := [AccountRow(Some(100), Some(5001)), AccountRow(Some(200), Some(5002))];
      var movements := [Movement(Some(100), Some(200), d, 25000)];
      PrepareTransactions(TransformMovements(movements, accounts))
        == [LedgerLine(Some(5001), d, 25000, Debit), LedgerLine(Some(5002), d, 25000, Credit)]
  {
    ExampleJoin();
    SingleMovementLines(JoinedMovement(Some(5001), Some(5002), Date(2024, 1, 15), 25000));
  }
}
