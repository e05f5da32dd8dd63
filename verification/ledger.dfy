/**
 * The ledger splitter (`prepare_transaction_dataframe`): every joined
 * movement becomes a debit line and a credit line, and all lines are sorted
 * by amount ascending and then by entry type descending.
 */
module Ledger {
  import opened Wrappers
  import opened Frames
  import opened Sorting
  import opened Join

  /** The `lcto` column: which half of a movement a line is. */
  datatype EntryType = Debit | Credit

  /** The one-letter text `lcto` holds; one-letter texts compare as their letters. */
  function Letter(e: EntryType): char {
    match e
    case Debit => 'D'
    case Credit => 'C'
  }

  /** A ledger line: "cta", "Data  de movimento", "Vlr. lança.", "lcto". */
  datatype LedgerLine = LedgerLine(account: Option<int>, date: Date, amount: int, entry: EntryType)

  function DebitLine(j: JoinedMovement): LedgerLine {
    LedgerLine(j.debitTarget, j.date, j.amount, Debit)
  }

  function CreditLine(j: JoinedMovement): LedgerLine {
    LedgerLine(j.creditTarget, j.date, j.amount, Credit)
  }

  /** The debit frame, one line per joined row, in row order. */
  function DebitLines(js: seq<JoinedMovement>): (r: seq<LedgerLine>)
    ensures |r| == |js|
  {
    seq(|js|, i requires 0 <= i < |js| => DebitLine(js[i]))
  }

  /** The credit frame, one line per joined row, in row order. */
  function CreditLines(js: seq<JoinedMovement>): (r: seq<LedgerLine>)
    ensures |r| == |js|
  {
    seq(|js|, i requires 0 <= i < |js| => CreditLine(js[i]))
  }

  /** Sort key: amount ascending, then `lcto` descending. */
  predicate LineLeq(a: LedgerLine, b: LedgerLine) {
    a.amount < b.amount || (a.amount == b.amount && Letter(a.entry) >= Letter(b.entry))
  }

  lemma LineLeqIsTotalPreorder()
    ensures TotalPreorder(LineLeq)
  {
  }

  /**
   * `prepare_transaction_dataframe`: the concatenation of the debit and the
   * credit lines, reordered so that amounts never decrease and, among equal
   * amounts, every debit line comes before every credit line ("D" sorts
   * after "C", and the entry column is sorted descending).
   */
  function PrepareTransactions(js: seq<JoinedMovement>): (r: seq<LedgerLine>)
    ensures |r| == 2 * |js|
    ensures multiset(r) == multiset(DebitLines(js) + CreditLines(js))
    ensures forall i, j :: 0 <= i < j < |r| ==> r[i].amount <= r[j].amount
    ensures forall i, j :: 0 <= i < j < |r| && r[i].amount == r[j].amount && r[j].entry == Debit ==> r[i].entry == Debit
  {
    LineLeqIsTotalPreorder();
    var r := InsertionSort(DebitLines(js) + CreditLines(js), LineLeq);
    assert forall i, j :: 0 <= i < j < |r| ==> LineLeq(r[i], r[j]);
    r
  }

  /** Two sequences with the same multiset have the same members. */
  lemma SameMembers<T>(a: seq<T>, b: seq<T>)
    requires multiset(a) == multiset(b)
    ensures forall x :: x in a <==> x in b
  {
    assert forall x :: x in a <==> x in multiset(a);
    assert forall x :: x in b <==> x in multiset(b);
  }

  /** Both halves of every joined row are in the split output. */
  lemma PrepareHasBothHalves(js: seq<JoinedMovement>, i: nat)
    requires i < |js|
    ensures DebitLine(js[i]) in PrepareTransactions(js)
    ensures CreditLine(js[i]) in PrepareTransactions(js)
  {
    var both := DebitLines(js) + CreditLines(js);
    SameMembers(PrepareTransactions(js), both);
    assert both[i] == DebitLine(js[i]);
    assert both[|js| + i] == CreditLine(js[i]);
  }

  /** Every line of the split output is a half of some joined row. */
  lemma PrepareOnlyHalves(js: seq<JoinedMovement>, l: LedgerLine)
    requires l in PrepareTransactions(js)
    ensures exists i :: 0 <= i < |js| && (l == DebitLine(js[i]) || l == CreditLine(js[i]))
  {
    SameMembers(PrepareTransactions(js), DebitLines(js) + CreditLines(js));
    SplitOnlyHalves(js, l);
  }

  lemma SplitOnlyHalves(js: seq<JoinedMovement>, l: LedgerLine)
    requires l in DebitLines(js) + CreditLines(js)
    ensures exists i :: 0 <= i < |js| && (l == DebitLine(js[i]) || l == CreditLine(js[i]))
  {
  }
}
