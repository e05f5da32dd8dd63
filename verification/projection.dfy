/**
 * The projector (`add_and_populate_columns`) and the fixed 26-column layout
 * of the ledger import file (`result_columns`).
 */
module Projection {
  import opened Wrappers
  import opened Frames
  import opened Ledger

  /** The ledger frame's own column names. */
  const AccountField: string := "cta"
  const DateField: string := "Data  de movimento"
  const AmountField: string := "Vlr. lança."
  const EntryField: string := "lcto"

  /** The output columns filled from a ledger-frame column, and that column's name. */
  const ColumnMapping: map<string, string> := map[
    "COD_CONTA_CONTABIL" := AccountField,
    "DT_LANC_CONTABIL" := DateField,
    "TIPO_LANC" := EntryField,
    "VLR" := AmountField
  ]

  /** `result_columns`: the ledger import layout, in file order. */
  const ResultColumns: seq<string> := [
    "COD_EMPRESA", "COD_TIPO_CONTABIL", "NUM_GUIA", "COD_SIS", "COD_FILIAL",
    "COD_CONTA_CONTABIL", "ID_CENTRO_CUSTO", "COD_PROJETO", "DT_LANC_CONTABIL",
    "TIPO_LANC", "COD_HIST_PADRAO", "REFERENCIA", "DT_CONVERSAO", "VLR",
    "COMPLEMENTO", "HIST", "COD_CONTA_CONTRA", "ID_CCUSTO_CONTRA",
    "COD_CENTRO_CUSTO", "COD_CENTRO_CUSTO_CONTRA", "COD_CONTA_REDUZIDA",
    "COD_CONTA_REDUZIDA_CONTRA", "GRUPO_LANC", "CONTRAPARTE",
    "DT_LANC_EXTEMPORANEO", "RATEIOS"
  ]

  /** A nullable account code as a cell. */
  function CodeCell(o: Option<int>): Cell {
    match o
    case Some(v) => Int(v)
    case None => Null
  }

  /** The frame `prepare_transaction_dataframe` returns, column by column. */
  function LedgerFrame(lines: seq<LedgerLine>): (f: Frame)
    ensures f.Valid()
    ensures f.height == |lines|
    ensures f.cols.Keys == {AccountField, DateField, AmountField, EntryField}
    ensures forall r :: 0 <= r < |lines| ==>
      && f.cols[AccountField][r] == CodeCell(lines[r].account)
      && f.cols[DateField][r] == Day(lines[r].date)
      && f.cols[AmountField][r] == Int(lines[r].amount)
      && f.cols[EntryField][r] == Text([Letter(lines[r].entry)])
  {
    Frame(|lines|, map[
      AccountField := seq(|lines|, r requires 0 <= r < |lines| => CodeCell(lines[r].account)),
      DateField := seq(|lines|, r requires 0 <= r < |lines| => Day(lines[r].date)),
      AmountField := seq(|lines|, r requires 0 <= r < |lines| => Int(lines[r].amount)),
      EntryField := seq(|lines|, r requires 0 <= r < |lines| => Text([Letter(lines[r].entry)]))
    ])
  }

  /**
   * The source column `src` of output column `c` is overwritten with nulls
   * before `c` is filled: `src` is itself a requested name (no source name is
   * a mapped name, so it gets nulls) and is requested before some occurrence
   * of `c`.
   */
  ghost predicate Clobbered(names: seq<string>, c: string, src: string) {
    exists k, j :: 0 <= k < j < |names| && names[k] == src && names[j] == c
  }

  /**
   * The column that ends up under name `c` once `names` have been processed:
   * a copy of `c`'s source column when `c` is mapped, its source exists and
   * was not clobbered first; nulls otherwise.
   */
  ghost function ExpectedColumn(df: Frame, names: seq<string>, c: string): seq<Cell> {
    if c in ColumnMapping && ColumnMapping[c] in df.cols && !Clobbered(names, c, ColumnMapping[c]) then
      df.cols[ColumnMapping[c]]
    else
      Nulls(df.height)
  }

  lemma {:induction false} ClobberedStep(p: seq<string>, x: string, c: string, src: string)
    ensures Clobbered(p + [x], c, src) <==> Clobbered(p, c, src) || (x == c && src in p)
  {
    var q := p + [x];
    if Clobbered(q, c, src) {
      var k, j :| 0 <= k < j < |q| && q[k] == src && q[j] == c;
      if j < |p| {
        assert p[k] == src && p[j] == c;
      } else {
        assert p[k] == src;
      }
    }
    if src in p && x == c {
      var k :| 0 <= k < |p| && p[k] == src;
      assert q[k] == src && q[|p|] == c;
    }
    if Clobbered(p, c, src) {
      var k, j :| 0 <= k < j < |p| && p[k] == src && p[j] == c;
      assert q[k] == src && q[j] == c;
    }
  }

  /** No source column name is itself a mapped output name. */
  lemma SourcesAreUnmapped()
    ensures forall c :: c in ColumnMapping ==> ColumnMapping[c] !in ColumnMapping
  {
  }

  /** One step of the loop: `df[c] = df[source]` if `c` is mapped and the source exists, `df[c] = pd.NA` otherwise. */
  function Assign(cols: map<string, seq<Cell>>, c: string, height: nat): map<string, seq<Cell>> {
    if c in ColumnMapping then
      var src := ColumnMapping[c];
      cols[c := if src in cols then cols[src] else Nulls(height)]
    else
      cols[c := Nulls(height)]
  }

  /** The columns after the names `p` have been assigned, in terms of the original frame. */
  ghost predicate Populated(df: Frame, p: seq<string>, cols: map<string, seq<Cell>>) {
    && (forall c :: c in cols ==> |cols[c]| == df.height)
    && (forall c :: c !in p ==> (c in cols <==> c in df.cols))
    && (forall c :: c !in p && c in cols ==> cols[c] == df.cols[c])
    && (forall c :: c in p ==> c in cols && cols[c] == ExpectedColumn(df, p, c))
  }

  /** Assigning `x` leaves the expected column of every other name as it was. */
  lemma ExpectedOther(df: Frame, p: seq<string>, x: string, d: string)
    requires d != x
    ensures ExpectedColumn(df, p + [x], d) == ExpectedColumn(df, p, d)
  {
    if d in ColumnMapping {
      ClobberedStep(p, x, d, ColumnMapping[d]);
    }
  }

  /** Assigning `c` gives it exactly its expected column. */
  lemma ExpectedAssigned(df: Frame, p: seq<string>, cols: map<string, seq<Cell>>, c: string)
    requires df.Valid()
    requires Populated(df, p, cols)
    ensures Assign(cols, c, df.height)[c] == ExpectedColumn(df, p + [c], c)
  {
    if c in ColumnMapping {
      var src := ColumnMapping[c];
      ClobberedStep(p, c, c, src);
      SourcesAreUnmapped();
      if src in p {
        assert cols[src] == ExpectedColumn(df, p, src);
      }
    }
  }

  lemma AssignStep(df: Frame, p: seq<string>, cols: map<string, seq<Cell>>, c: string)
    requires df.Valid()
    requires Populated(df, p, cols)
    ensures Populated(df, p + [c], Assign(cols, c, df.height))
  {
    var cols' := Assign(cols, c, df.height);
    ExpectedAssigned(df, p, cols, c);
    forall d | d in p + [c]
      ensures d in cols' && cols'[d] == ExpectedColumn(df, p + [c], d)
    {
      if d != c {
        ExpectedOther(df, p, c, d);
      }
    }
  }

  /** `df.loc[:, names]`: the named columns, in the order named, as rows. */
  function Select(cols: map<string, seq<Cell>>, names: seq<string>, height: nat): (t: Table)
    requires forall i :: 0 <= i < |names| ==> names[i] in cols && |cols[names[i]]| == height
    ensures t.header == names
    ensures |t.rows| == height
    ensures forall r :: 0 <= r < height ==> |t.rows[r]| == |names|
    ensures forall r, i :: 0 <= r < height && 0 <= i < |names| ==> t.rows[r][i] == cols[names[i]][r]
  {
    Table(names, seq(height, r requires 0 <= r < height =>
      seq(|names|, i requires 0 <= i < |names| => cols[names[i]][r])))
  }

  /**
   * `add_and_populate_columns`: assigns each requested column in turn (a copy
   * of its mapped source column if the frame has one, nulls otherwise), then
   * selects the requested columns in the requested order.
   */
  method AddAndPopulateColumns(df: Frame, names: seq<string>) returns (t: Table)
    requires df.Valid()
    ensures t.header == names
    ensures |t.rows| == df.height
    ensures forall r :: 0 <= r < |t.rows| ==> |t.rows[r]| == |names|
    ensures forall r, i :: 0 <= r < |t.rows| && 0 <= i < |names| ==>
      t.rows[r][i] == ExpectedColumn(df, names, names[i])[r]
  {
    var cols := df.cols;
    var k := 0;
    while k < |names|
      invariant 0 <= k <= |names|
      invariant Populated(df, names[..k], cols)
    {
      var c := names[k];
      assert names[..k + 1] == names[..k] + [c];
      AssignStep(df, names[..k], cols, c);
      cols := Assign(cols, c, df.height);
      k := k + 1;
    }
    assert names[..|names|] == names;
    t := Select(cols, names, df.height);
    forall r, i | 0 <= r < |t.rows| && 0 <= i < |names|
      ensures t.rows[r][i] == ExpectedColumn(df, names, names[i])[r]
    {
      assert names[i] in names;
    }
  }

  /** The value a ledger line puts under output column `name`: one of its four fields, or null. */
  function FieldCell(l: LedgerLine, name: string): Cell {
    if name == "COD_CONTA_CONTABIL" then CodeCell(l.account)
    else if name == "DT_LANC_CONTABIL" then Day(l.date)
    else if name == "TIPO_LANC" then Text([Letter(l.entry)])
    else if name == "VLR" then Int(l.amount)
    else Null
  }

  /** Reference definition of one output record, built from a single ledger line. */
  function ProjectLine(l: LedgerLine): (r: seq<Cell>)
    ensures |r| == |ResultColumns|
  {
    seq(|ResultColumns|, i requires 0 <= i < |ResultColumns| => FieldCell(l, ResultColumns[i]))
  }

  /**
   * The output layout: 26 distinct names, the four mapped ones at positions
   * 5, 8, 9 and 13, and none of them a ledger-frame column name.
   */
  lemma ResultColumnsLayout()
    ensures |ResultColumns| == 26
    ensures forall i, j :: 0 <= i < j < |ResultColumns| ==> ResultColumns[i] != ResultColumns[j]
    ensures ResultColumns[5] == "COD_CONTA_CONTABIL" && ResultColumns[8] == "DT_LANC_CONTABIL"
    ensures ResultColumns[9] == "TIPO_LANC" && ResultColumns[13] == "VLR"
    ensures forall i :: 0 <= i < |ResultColumns| ==> ResultColumns[i] !in ColumnMapping.Values
  {
  }

  /**
   * Projecting the ledger frame onto the output layout gives, row by row,
   * the reference record of that row's ledger line.
   */
  lemma ProjectLedgerFrame(lines: seq<LedgerLine>)
    ensures forall r, i :: 0 <= r < |lines| && 0 <= i < |ResultColumns| ==>
      ExpectedColumn(LedgerFrame(lines), ResultColumns, ResultColumns[i])[r] == ProjectLine(lines[r])[i]
  {
    ResultColumnsLayout();
    forall c | c in ColumnMapping
      ensures !Clobbered(ResultColumns, c, ColumnMapping[c])
    {
      assert ColumnMapping[c] in ColumnMapping.Values;
    }
  }
}
