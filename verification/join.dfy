/**
 * The movement joiner (`transform_movements`): two left merges of the
 * movements against the account mapping, one keyed on the debit account and
 * one on the credit account, keeping only the two mapped codes, the date and
 * the amount.
 */
module Join {
  import opened Wrappers
  import opened Frames
  import opened Accounts

  /** A movement row: "Cta. débito", "Cta. crédito", "Data  de movimento", "Vlr. lança." (amount in cents). */
  datatype Movement = Movement(debit: Option<int>, credit: Option<int>, date: Date, amount: int)

  /** A joined row: "Cta. Débito Matera", "Cta. Crédito Matera", the date and the amount. */
  datatype JoinedMovement = JoinedMovement(debitTarget: Option<int>, creditTarget: Option<int>, date: Date, amount: int)

  /**
   * The target codes of the mapping rows whose legacy code equals `key`, in
   * mapping order. A null key matches null legacy codes, as in a pandas merge.
   */
  function Matches(accounts: seq<AccountRow>, key: Option<int>): (r: seq<Option<int>>)
    ensures |r| <= |accounts|
    ensures (forall i :: 0 <= i < |accounts| ==> accounts[i].legacy != key) ==> r == []
    ensures forall t :: t in r <==> exists i :: 0 <= i < |accounts| && accounts[i].legacy == key && accounts[i].target == t
  {
    if accounts == [] then []
    else
      var rest := Matches(accounts[1..], key);
      assert forall i :: 1 <= i < |accounts| ==> accounts[i] == accounts[1..][i - 1];
      (if accounts[0].legacy == key then [accounts[0].target] else []) + rest
  }

  /** What a left merge contributes for one key: every match, or a single null when nothing matches. */
  function LeftTargets(accounts: seq<AccountRow>, key: Option<int>): (r: seq<Option<int>>)
    ensures |r| >= 1
    ensures (forall i :: 0 <= i < |accounts| ==> accounts[i].legacy != key) ==> r == [None]
    ensures (exists i :: 0 <= i < |accounts| && accounts[i].legacy == key) ==>
      r == Matches(accounts, key) &&
      forall t :: t in r <==> exists i :: 0 <= i < |accounts| && accounts[i].legacy == key && accounts[i].target == t
  {
    var m := Matches(accounts, key);
    assert forall i :: 0 <= i < |accounts| && accounts[i].legacy == key ==> accounts[i].target in m;
    if m == [] then [None]
    else
      assert m[0] in m;
      m
  }

  /** The rows one movement contributes to the debit merge. */
  function DebitBlock(m: Movement, accounts: seq<AccountRow>): (b: seq<(Movement, Option<int>)>)
    ensures |b| >= 1
    ensures forall p :: p in b <==> p.0 == m && p.1 in LeftTargets(accounts, m.debit)
  {
    var ts := LeftTargets(accounts, m.debit);
    var b := seq(|ts|, k requires 0 <= k < |ts| => (m, ts[k]));
    assert forall k :: 0 <= k < |ts| ==> b[k] == (m, ts[k]);
    b
  }

  /** First merge, on the debit account: each movement paired with each debit target it gets. */
  function MergeDebit(ms: seq<Movement>, accounts: seq<AccountRow>): (r: seq<(Movement, Option<int>)>)
    ensures |r| >= |ms|
  {
    if ms == [] then []
    else DebitBlock(ms[0], accounts) + MergeDebit(ms[1..], accounts)
  }

  /** The rows one debit-merged row contributes to the credit merge, already reduced to the four kept columns. */
  function CreditBlock(d: (Movement, Option<int>), accounts: seq<AccountRow>): (b: seq<JoinedMovement>)
    ensures |b| >= 1
    ensures forall j :: j in b <==>
      j == JoinedMovement(d.1, j.creditTarget, d.0.date, d.0.amount) && j.creditTarget in LeftTargets(accounts, d.0.credit)
  {
    var ts := LeftTargets(accounts, d.0.credit);
    var b := seq(|ts|, k requires 0 <= k < |ts| => JoinedMovement(d.1, ts[k], d.0.date, d.0.amount));
    assert forall k :: 0 <= k < |ts| ==> b[k] == JoinedMovement(d.1, ts[k], d.0.date, d.0.amount);
    b
  }

  /** Second merge, on the credit account, followed by the selection of the four kept columns. */
  function MergeCredit(ds: seq<(Movement, Option<int>)>, accounts: seq<AccountRow>): (r: seq<JoinedMovement>)
    ensures |r| >= |ds|
  {
    if ds == [] then []
    else CreditBlock(ds[0], accounts) + MergeCredit(ds[1..], accounts)
  }

  /** `transform_movements`, exactly as the two pandas merges compute it. */
  function TransformMovements(ms: seq<Movement>, accounts: seq<AccountRow>): (r: seq<JoinedMovement>)
    ensures |r| >= |ms|
  {
    MergeCredit(MergeDebit(ms, accounts), accounts)
  }

  /**
   * The debit merge's rows are exactly the pairs of an input movement with one
   * of its debit-side left-merge targets: no movement is dropped, nothing else
   * is produced.
   */
  lemma {:induction false} MergeDebitRows(ms: seq<Movement>, accounts: seq<AccountRow>)
    ensures forall m, t :: m in ms && t in LeftTargets(accounts, m.debit) ==> (m, t) in MergeDebit(ms, accounts)
    ensures forall p :: p in MergeDebit(ms, accounts) ==> p.0 in ms && p.1 in LeftTargets(accounts, p.0.debit)
  {
    if ms != [] {
      MergeDebitRows(ms[1..], accounts);
      assert ms == [ms[0]] + ms[1..];
    }
  }

  /**
   * The credit merge keeps every row's debit target, date and amount and
   * pairs them with each of its credit-side left-merge targets; every output
   * row is such a pairing.
   */
  lemma {:induction false} MergeCreditRows(ds: seq<(Movement, Option<int>)>, accounts: seq<AccountRow>)
    ensures forall d, t :: d in ds && t in LeftTargets(accounts, d.0.credit) ==>
      JoinedMovement(d.1, t, d.0.date, d.0.amount) in MergeCredit(ds, accounts)
    ensures forall j :: j in MergeCredit(ds, accounts) ==> exists d :: (d in ds &&
      j == JoinedMovement(d.1, j.creditTarget, d.0.date, d.0.amount) && j.creditTarget in LeftTargets(accounts, d.0.credit))
  {
    if ds != [] {
      MergeCreditRows(ds[1..], accounts);
      assert ds == [ds[0]] + ds[1..];
    }
  }

  /** Joined row `j` is movement `m` with one of its debit-side and one of its credit-side left-merge targets. */
  ghost predicate JoinedFrom(j: JoinedMovement, m: Movement, accounts: seq<AccountRow>) {
    && j.date == m.date
    && j.amount == m.amount
    && j.debitTarget in LeftTargets(accounts, m.debit)
    && j.creditTarget in LeftTargets(accounts, m.credit)
  }

  /**
   * Whatever the mapping, every combination of a movement with one of its
   * debit-side and one of its credit-side targets is a joined row carrying
   * the movement's date and amount, and every joined row is such a
   * combination. In particular no movement is dropped.
   */
  lemma TransformMovementsRows(ms: seq<Movement>, accounts: seq<AccountRow>)
    ensures forall m, dt, ct :: m in ms && dt in LeftTargets(accounts, m.debit) && ct in LeftTargets(accounts, m.credit) ==>
      JoinedMovement(dt, ct, m.date, m.amount) in TransformMovements(ms, accounts)
    ensures forall j :: j in TransformMovements(ms, accounts) ==> exists m :: m in ms && JoinedFrom(j, m, accounts)
  {
    var ds := MergeDebit(ms, accounts);
    MergeDebitRows(ms, accounts);
    MergeCreditRows(ds, accounts);
    forall j | j in TransformMovements(ms, accounts)
      ensures exists m :: m in ms && JoinedFrom(j, m, accounts)
    {
      var d :| d in ds && j == JoinedMovement(d.1, j.creditTarget, d.0.date, d.0.amount)
        && j.creditTarget in LeftTargets(accounts, d.0.credit);
      assert JoinedFrom(j, d.0, accounts);
    }
  }

  /** No two mapping rows share a legacy code. */
  ghost predicate UniqueLegacy(accounts: seq<AccountRow>) {
    forall i, j :: 0 <= i < j < |accounts| ==> accounts[i].legacy != accounts[j].legacy
  }

  /**
   * Reference lookup: the target of the first mapping row with legacy code
   * `key`, or null when there is none.
   */
  function Lookup(accounts: seq<AccountRow>, key: Option<int>): (r: Option<int>)
    ensures (forall i :: 0 <= i < |accounts| ==> accounts[i].legacy != key) ==> r == None
    ensures forall i :: 0 <= i < |accounts| && accounts[i].legacy == key ==>
      (forall j :: 0 <= j < i ==> accounts[j].legacy != key) ==> r == accounts[i].target
  {
    if accounts == [] then None
    else if accounts[0].legacy == key then accounts[0].target
    else
      var tail := accounts[1..];
      var r := Lookup(tail, key);
      assert forall i :: 1 <= i < |accounts| ==> accounts[i] == tail[i - 1];
      assert forall i :: 0 <= i < |accounts| && accounts[i].legacy == key ==> 1 <= i;
      r
  }

  /** The joined row a movement should give: each side looked up on its own. */
  function JoinRow(m: Movement, accounts: seq<AccountRow>): JoinedMovement {
    JoinedMovement(Lookup(accounts, m.debit), Lookup(accounts, m.credit), m.date, m.amount)
  }

  /** With unique legacy codes a left merge contributes exactly the looked-up target. */
  lemma {:induction false} UniqueLeftTargets(accounts: seq<AccountRow>, key: Option<int>)
    requires UniqueLegacy(accounts)
    ensures LeftTargets(accounts, key) == [Lookup(accounts, key)]
  {
    var m := Matches(accounts, key);
    if m != [] {
      UniqueMatchesAtMostOne(accounts, key);
      assert m == [m[0]];
      assert m[0] in m;
      var i :| 0 <= i < |accounts| && accounts[i].legacy == key && accounts[i].target == m[0];
      assert forall j :: 0 <= j < i ==> accounts[j].legacy != key;
    } else {
      assert forall i :: 0 <= i < |accounts| && accounts[i].legacy == key ==> accounts[i].target in m;
    }
  }

  lemma {:induction false} UniqueMatchesAtMostOne(accounts: seq<AccountRow>, key: Option<int>)
    requires UniqueLegacy(accounts)
    ensures |Matches(accounts, key)| <= 1
  {
    if accounts != [] {
      UniqueMatchesAtMostOne(accounts[1..], key);
      if accounts[0].legacy == key {
        var tail := accounts[1..];
        assert forall i :: 0 <= i < |tail| ==> tail[i] == accounts[i + 1];
        assert forall i :: 0 <= i < |tail| ==> tail[i].legacy != key;
      }
    }
  }

  lemma {:induction false} MergeDebitUnique(ms: seq<Movement>, accounts: seq<AccountRow>)
    requires UniqueLegacy(accounts)
    ensures MergeDebit(ms, accounts) == seq(|ms|, i requires 0 <= i < |ms| => (ms[i], Lookup(accounts, ms[i].debit)))
  {
    if ms != [] {
      UniqueLeftTargets(accounts, ms[0].debit);
      MergeDebitUnique(ms[1..], accounts);
    }
  }

  lemma {:induction false} MergeCreditUnique(ds: seq<(Movement, Option<int>)>, accounts: seq<AccountRow>)
    requires UniqueLegacy(accounts)
    ensures MergeCredit(ds, accounts) == seq(|ds|, i requires 0 <= i < |ds| =>
      JoinedMovement(ds[i].1, Lookup(accounts, ds[i].0.credit), ds[i].0.date, ds[i].0.amount))
  {
    if ds != [] {
      UniqueLeftTargets(accounts, ds[0].0.credit);
      MergeCreditUnique(ds[1..], accounts);
    }
  }

  /**
   * With unique legacy codes the join keeps row count and row order, and row
   * `i` holds the looked-up targets of movement `i`'s two accounts together
   * with its unchanged date and amount.
   */
  lemma TransformMovementsUnique(ms: seq<Movement>, accounts: seq<AccountRow>)
    requires UniqueLegacy(accounts)
    ensures |TransformMovements(ms, accounts)| == |ms|
    ensures forall i :: 0 <= i < |ms| ==> TransformMovements(ms, accounts)[i] == JoinRow(ms[i], accounts)
  {
    MergeDebitUnique(ms, accounts);
    MergeCreditUnique(MergeDebit(ms, accounts), accounts);
  }
}
