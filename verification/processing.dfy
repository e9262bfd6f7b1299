/** `clean_and_process_csv`: the bank export, as `pandas.read_csv(skiprows=2)` reads it,
    turned row by row into the transactions the rest of the program stores. A frame is
    a column count and rectangular rows of cells, each a text or missing (pandas' NaN);
    `pd.to_numeric(errors="coerce")` is an oracle, `numeric`. */
module Processing {
  import opened Wrappers
  import opened Text
  import opened Digits
  import opened Selection

  /** `iloc[:, 2:]` must leave exactly the four columns that are then named. */
  const NamedColumns: nat := 4
  const ExpectedColumns: nat := 2 + NamedColumns
  const PaymentText := "PAYMENT RECEIVED - THANK YOU"

  /** A cell as `read_csv` leaves it: its text, or `None` for a missing value. */
  type Field = Option<string>
  type Row = seq<Field>
  type NumericParser = string -> Option<real>

  /** Why the function raises instead of returning a frame. */
  datatype ProcessError =
    | ColumnCountMismatch(remaining: nat)   // assigning four names to `remaining` columns
    | UnparseableDate(text: string)         // `to_datetime(format="%Y%m%d")` rejects `text`

  datatype Result<T> = Ok(value: T) | Err(error: ProcessError)

  datatype Date = Date(year: nat, month: nat, day: nat)

  /** A numeric cell after `to_numeric(errors="coerce")`: a number or NaN. */
  datatype Amount = Num(value: real) | NaN

  datatype TxKind = Income | Expense

  /** One output row: the two dates as `YYYY-MM-DD` text (`None` for NaT), the amount,
      the description, the type tag and `month_year` as `YYYY-MM` text. */
  datatype Transaction = Transaction(date: Option<string>, postingDate: Option<string>, amount: Amount,
                                     description: Field, kind: TxKind, monthYear: Option<string>)

  // ---------------------------------------------------------------- dates

  predicate IsLeapYear(y: nat) {
    y % 4 == 0 && (y % 100 != 0 || y % 400 == 0)
  }

  function DaysInMonth(y: nat, m: nat): (r: nat)
    requires 1 <= m <= 12
    ensures 28 <= r <= 31
  {
    if m == 2 then (if IsLeapYear(y) then 29 else 28)
    else if m in {4, 6, 9, 11} then 30
    else 31
  }

  predicate DateLeq(a: Date, b: Date) {
    a.year < b.year || (a.year == b.year && (a.month < b.month || (a.month == b.month && a.day <= b.day)))
  }

  /** The first and last days whose midnight a pandas `Timestamp` can hold
      (its range runs from 1677-09-21 00:12:43 to 2262-04-11 23:47:16). */
  const FirstTimestampDay := Date(1677, 9, 22)
  const LastTimestampDay := Date(2262, 4, 11)

  /** A day `to_datetime` accepts: a real calendar day within the `Timestamp` range. */
  predicate IsConvertible(d: Date) {
    && 1 <= d.month <= 12 && 1 <= d.day <= DaysInMonth(d.year, d.month)
    && DateLeq(FirstTimestampDay, d) && DateLeq(d, LastTimestampDay)
  }

  /** The date written as `%Y%m%d`. */
  function Compact(d: Date): (r: string)
    ensures |r| == 8 && AllDigits(r)
  {
    Pad(d.year, 4) + Pad(d.month, 2) + Pad(d.day, 2)
  }

  /** The date written as `%Y-%m-%d`. */
  function Iso(d: Date): (r: string)
    ensures |r| == 10
  {
    Pad(d.year, 4) + "-" + Pad(d.month, 2) + "-" + Pad(d.day, 2)
  }

  /** The date written as `%Y-%m`. */
  function MonthYear(d: Date): (r: string)
    ensures |r| == 7
  {
    Pad(d.year, 4) + "-" + Pad(d.month, 2)
  }

  /** `pd.to_datetime(text, format="%Y%m%d")`: eight digits spelling a convertible day. */
  function ParseCompact(s: string): (r: Option<Date>)
    ensures r.Some? ==> IsConvertible(r.value) && Compact(r.value) == s
  {
    if |s| == 8 && AllDigits(s) then
      var d := Date(Value(s[..4]), Value(s[4..6]), Value(s[6..]));
      if IsConvertible(d) then
        PadOfValue(s[..4]);
        PadOfValue(s[4..6]);
        PadOfValue(s[6..]);
        assert s == s[..4] + s[4..6] + s[6..];
        Some(d)
      else None
    else None
  }

  /** Parsing is the inverse of writing: every convertible day is read back from its
      `%Y%m%d` text. */
  lemma ParseCompactOfCompact(d: Date)
    requires IsConvertible(d)
    ensures ParseCompact(Compact(d)) == Some(d)
  {
    var s := Compact(d);
    assert s[..4] == Pad(d.year, 4);
    assert s[4..6] == Pad(d.month, 2);
    assert s[6..] == Pad(d.day, 2);
    ValueOfPad(d.year, 4);
    ValueOfPad(d.month, 2);
    ValueOfPad(d.day, 2);
  }

  /** Rewriting a date only inserts the two dashes: `YYYYMMDD` becomes `YYYY-MM-DD`. */
  lemma IsoInsertsDashes(s: string, d: Date)
    requires ParseCompact(s) == Some(d)
    ensures Iso(d) == s[..4] + "-" + s[4..6] + "-" + s[6..]
  {
    var c := Compact(d);
    assert c[..4] == Pad(d.year, 4) && c[4..6] == Pad(d.month, 2) && c[6..] == Pad(d.day, 2);
  }

  /** `month_year` is the first seven characters of the rewritten date. */
  lemma MonthYearIsPrefix(d: Date)
    ensures MonthYear(d) == Iso(d)[..7]
  {
    assert Iso(d) == MonthYear(d) + "-" + Pad(d.day, 2);
  }

  /** A date cell after conversion: `None` for NaT, from a missing cell. */
  function ConvertDate(c: Field): (r: Result<Option<Date>>)
    ensures r.Err? <==> c.Some? && ParseCompact(c.value).None?
    ensures r.Err? ==> r.error == UnparseableDate(c.value)
    ensures r.Ok? && r.value.Some? ==> c.Some? && Compact(r.value.value) == c.value
    ensures r.Ok? && r.value.None? ==> c.None?
  {
    match c
    case None => Ok(None)
    case Some(t) =>
      match ParseCompact(t)
      case None => Err(UnparseableDate(t))
      case Some(d) => Ok(Some(d))
  }

  /** The text of the first cell in a date column that does not convert, if any: the
      value whose conversion raises for the column as a whole. */
  function FirstBadDate(cells: seq<Field>): (r: Option<string>)
    ensures r.None? <==> forall i :: 0 <= i < |cells| ==> ConvertDate(cells[i]).Ok?
    ensures r.Some? ==> exists i :: 0 <= i < |cells| && ConvertDate(cells[i]) == Err(UnparseableDate(r.value))
                                    && forall k :: 0 <= k < i ==> ConvertDate(cells[k]).Ok?
  {
    if |cells| == 0 then None
    else match ConvertDate(cells[0])
      case Err(_) =>
        assert ConvertDate(cells[0]) == Err(UnparseableDate(cells[0].value));
        Some(cells[0].value)
      case Ok(_) =>
        var rest := FirstBadDate(cells[1..]);
        if rest.Some? then
          var i :| 0 <= i < |cells[1..]| && ConvertDate(cells[1..][i]) == Err(UnparseableDate(rest.value))
                   && forall k :: 0 <= k < i ==> ConvertDate(cells[1..][k]).Ok?;
          assert ConvertDate(cells[i + 1]) == Err(UnparseableDate(rest.value));
          assert forall k :: 0 <= k < i + 1 ==> ConvertDate(cells[k]).Ok? by {
            forall k | 0 <= k < i + 1 ensures ConvertDate(cells[k]).Ok? {
              if k > 0 { assert cells[k] == cells[1..][k - 1]; }
            }
          }
          rest
        else
          assert forall i :: 0 <= i < |cells| ==> ConvertDate(cells[i]).Ok? by {
            forall i | 0 <= i < |cells| ensures ConvertDate(cells[i]).Ok? {
              if i > 0 { assert cells[i] == cells[1..][i - 1]; }
            }
          }
          rest
  }

  /** `strftime("%Y-%m-%d")`, with NaT staying missing. */
  function IsoOf(d: Option<Date>): Option<string> {
    match d
    case None => None
    case Some(v) => Some(Iso(v))
  }

  /** `strftime("%Y-%m")` of the rewritten date read back, with NaT staying missing. */
  function MonthYearOf(d: Option<Date>): Option<string> {
    match d
    case None => None
    case Some(v) => Some(MonthYear(v))
  }

  /** A converted date cell, rewritten: dashes inserted, missing kept missing, and its
      `month_year` the rewritten text's first seven characters. */
  lemma RewrittenCell(c: Field)
    requires ConvertDate(c).Ok?
    ensures var d := ConvertDate(c).value;
            && (IsoOf(d).Some? <==> c.Some?)
            && (IsoOf(d).Some? ==> |c.value| == 8 && IsoOf(d).value == c.value[..4] + "-" + c.value[4..6] + "-" + c.value[6..])
            && (MonthYearOf(d).Some? <==> IsoOf(d).Some?)
            && (MonthYearOf(d).Some? ==> MonthYearOf(d).value == IsoOf(d).value[..7])
  {
    var d := ConvertDate(c).value;
    if d.Some? {
      IsoInsertsDashes(c.value, d.value);
      MonthYearIsPrefix(d.value);
    }
  }

  // ---------------------------------------------------------------- amounts

  /** `pd.to_numeric(cell, errors="coerce")`: a missing cell or an unparseable text is NaN. */
  function ToNumeric(c: Field, numeric: NumericParser): (r: Amount)
    ensures r.Num? <==> c.Some? && numeric(c.value).Some?
    ensures r.Num? ==> r.value == numeric(c.value).value
  {
    match c
    case None => NaN
    case Some(t) =>
      match numeric(t)
      case None => NaN
      case Some(x) => Num(x)
  }

  /** `'Income' if x < 0 else 'Expense'`: NaN compares false, so it is an expense. */
  function KindOf(a: Amount): (k: TxKind)
    ensures k == Income <==> a.Num? && a.value < 0.0
  {
    if a.Num? && a.value < 0.0 then Income else Expense
  }

  /** `abs()`: NaN stays NaN. */
  function AbsAmount(a: Amount): (r: Amount)
    ensures r.Num? <==> a.Num?
    ensures r.Num? ==> r.value >= 0.0 && (r.value == a.value || r.value == -a.value)
  {
    match a
    case NaN => NaN
    case Num(x) => Num(if x < 0.0 then -x else x)
  }

  /** The sign lives on only in the tag: the original amount is the stored one, negated
      for income. */
  lemma SignKeptInKind(a: Amount)
    requires a.Num?
    ensures a.value == if KindOf(a) == Income then -AbsAmount(a).value else AbsAmount(a).value
  {
  }

  // ---------------------------------------------------------------- rows

  /** The conditions under which `clean_and_process_csv` returns instead of raising. */
  predicate Convertible(row: Row) {
    |row| == ExpectedColumns && ConvertDate(row[2]).Ok? && ConvertDate(row[3]).Ok?
  }

  /** One input row after the column selection, date rewriting, tagging and `abs()`. */
  function Normalize(row: Row, numeric: NumericParser): (t: Transaction)
    requires Convertible(row)
    ensures t.description == row[5]
    ensures t.date.Some? <==> row[2].Some?
    ensures t.date.Some? ==> |row[2].value| == 8 && t.date.value == row[2].value[..4] + "-" + row[2].value[4..6] + "-" + row[2].value[6..]
    ensures t.postingDate.Some? <==> row[3].Some?
    ensures t.postingDate.Some? ==> |row[3].value| == 8 && t.postingDate.value == row[3].value[..4] + "-" + row[3].value[4..6] + "-" + row[3].value[6..]
    ensures t.kind == Income <==> ToNumeric(row[4], numeric).Num? && ToNumeric(row[4], numeric).value < 0.0
    ensures t.amount.Num? <==> row[4].Some? && numeric(row[4].value).Some?
    ensures t.amount.Num? ==> var x := numeric(row[4].value).value;
                              t.amount.value == if x < 0.0 then -x else x
    ensures t.monthYear.Some? <==> t.date.Some?
    ensures t.monthYear.Some? ==> t.monthYear.value == t.date.value[..7]
  {
    RewrittenCell(row[2]);
    RewrittenCell(row[3]);
    var date := ConvertDate(row[2]).value;
    var posting := ConvertDate(row[3]).value;
    var amount := ToNumeric(row[4], numeric);
    Transaction(IsoOf(date), IsoOf(posting), AbsAmount(amount), row[5], KindOf(amount), MonthYearOf(date))
  }

  /** The description contains the card-payment text, ignoring case; a missing
      description does not (`na=False`). */
  predicate IsPaymentReceived(description: Field) {
    description.Some? && ContainsIgnoreCase(description.value, PaymentText)
  }

  /** The row survives the filter unless it is income described as a card payment. */
  predicate Keep(t: Transaction) {
    !(IsPaymentReceived(t.description) && t.kind == Income)
  }

  /** `df[~(payment & income)]`: the rows that are kept, in their order. */
  function Filter(ts: seq<Transaction>): (r: seq<Transaction>)
    ensures |r| <= |ts|
    ensures forall t :: t in r ==> Keep(t)
  {
    Select(ts, Keep)
  }

  /** A row is in the filtered frame exactly when it was in the frame and is kept. */
  lemma FilterMembers(ts: seq<Transaction>, t: Transaction)
    ensures t in Filter(ts) <==> t in ts && Keep(t)
  {
    SelectMembers(ts, Keep, t);
  }

  /** Expenses are never removed, whatever their description says. */
  lemma ExpensesSurvive(ts: seq<Transaction>)
    requires forall i :: 0 <= i < |ts| ==> ts[i].kind == Expense
    ensures Filter(ts) == ts
  {
    SelectAll(ts, Keep);
  }

  /** The filter a row at a time. */
  method FilterRows(ts: seq<Transaction>) returns (kept: seq<Transaction>)
    ensures kept == Filter(ts)
  {
    kept := [];
    for i := 0 to |ts|
      invariant kept == Filter(ts[..i])
    {
      SelectSnoc(ts, Keep, i);
      if Keep(ts[i]) {
        kept := kept + [ts[i]];
      }
    }
    assert ts[..|ts|] == ts;
  }

  // ---------------------------------------------------------------- the whole frame

  /** The cells of column `k`. */
  function Column(rows: seq<Row>, k: nat): (r: seq<Field>)
    requires forall i :: 0 <= i < |rows| ==> k < |rows[i]|
    ensures |r| == |rows|
    ensures forall i :: 0 <= i < |rows| ==> r[i] == rows[i][k]
  {
    seq(|rows|, i requires 0 <= i < |rows| => rows[i][k])
  }

  /** What `iloc[:, 2:]` leaves of `width` columns. */
  function Remaining(width: nat): nat {
    if width >= 2 then width - 2 else 0
  }

  /** Every row keeps both its dates convertible. */
  predicate AllConvertible(rows: seq<Row>) {
    forall i :: 0 <= i < |rows| ==> Convertible(rows[i])
  }

  /** A date column with no unconvertible cell means every row's cell converts. */
  lemma NoBadDateInColumn(rows: seq<Row>, k: nat)
    requires k < ExpectedColumns && forall i :: 0 <= i < |rows| ==> |rows[i]| == ExpectedColumns
    ensures FirstBadDate(Column(rows, k)).None? <==> forall i :: 0 <= i < |rows| ==> ConvertDate(rows[i][k]).Ok?
  {
    var col := Column(rows, k);
    assert forall i :: 0 <= i < |rows| ==> col[i] == rows[i][k];
  }

  /** Every row normalised, in order. */
  function NormalizeAll(rows: seq<Row>, numeric: NumericParser): (ts: seq<Transaction>)
    requires AllConvertible(rows)
    ensures |ts| == |rows|
    ensures forall i :: 0 <= i < |rows| ==> ts[i] == Normalize(rows[i], numeric)
  {
    seq(|rows|, i requires 0 <= i < |rows| && Convertible(rows[i]) => Normalize(rows[i], numeric))
  }

  /** `clean_and_process_csv` on a frame of `width` columns: the column count is checked
      when the four names are assigned, then the `date` column and the `posting_date`
      column are converted as wholes, then every row is normalised and filtered. */
  function CleanAndProcess(width: nat, rows: seq<Row>, numeric: NumericParser): (r: Result<seq<Transaction>>)
    requires forall i :: 0 <= i < |rows| ==> |rows[i]| == width
    ensures r.Ok? <==> width == ExpectedColumns && AllConvertible(rows)
    ensures width != ExpectedColumns ==> r == Err(ColumnCountMismatch(Remaining(width)))
    ensures r.Ok? ==> |r.value| <= |rows|
    ensures r.Ok? ==> r.value == Filter(NormalizeAll(rows, numeric))
  {
    if width != ExpectedColumns then Err(ColumnCountMismatch(Remaining(width)))
    else
      NoBadDateInColumn(rows, 2);
      NoBadDateInColumn(rows, 3);
      match FirstBadDate(Column(rows, 2))
      case Some(text) => Err(UnparseableDate(text))
      case None =>
        match FirstBadDate(Column(rows, 3))
        case Some(text) => Err(UnparseableDate(text))
        case None => Ok(Filter(NormalizeAll(rows, numeric)))
  }

  /** A frame that converts yields exactly its normalised rows that are kept. */
  lemma ProcessedRows(rows: seq<Row>, numeric: NumericParser, t: Transaction)
    requires forall i :: 0 <= i < |rows| ==> |rows[i]| == ExpectedColumns
    requires AllConvertible(rows)
    ensures CleanAndProcess(ExpectedColumns, rows, numeric).Ok?
    ensures t in CleanAndProcess(ExpectedColumns, rows, numeric).value <==>
              (exists i :: 0 <= i < |rows| && t == Normalize(rows[i], numeric)) && Keep(t)
  {
    var ts := NormalizeAll(rows, numeric);
    FilterMembers(ts, t);
    assert t in ts <==> exists i :: 0 <= i < |rows| && t == Normalize(rows[i], numeric);
  }

  /** The frame keeps its rows in input order, once per occurrence: entry `k` of the
      result is the normalised input row at the `k`-th position the mask keeps. Two
      identical purchases stay two rows. */
  lemma ProcessedInOrder(rows: seq<Row>, numeric: NumericParser)
    requires forall i :: 0 <= i < |rows| ==> |rows[i]| == ExpectedColumns
    requires AllConvertible(rows)
    ensures var r := CleanAndProcess(ExpectedColumns, rows, numeric);
            var ps := KeptPositions(NormalizeAll(rows, numeric), Keep);
            && r.Ok? && |r.value| == |ps|
            && forall k :: 0 <= k < |ps| ==> ps[k] < |rows| && r.value[k] == Normalize(rows[ps[k]], numeric)
  {
    SelectAtPositions(NormalizeAll(rows, numeric), Keep);
  }

  /** A date that does not convert makes the whole call raise, naming the first such
      cell of the `date` column, or else of the `posting_date` column. */
  lemma BadDateRaises(rows: seq<Row>, numeric: NumericParser, i: nat, k: nat)
    requires forall j :: 0 <= j < |rows| ==> |rows[j]| == ExpectedColumns
    requires i < |rows| && k in {2, 3} && ConvertDate(rows[i][k]).Err?
    ensures var r := CleanAndProcess(ExpectedColumns, rows, numeric);
            r.Err? && r.error.UnparseableDate?
            && exists j, c :: 0 <= j < |rows| && c in {2, 3} && ConvertDate(rows[j][c]) == Err(r.error)
    ensures var r := CleanAndProcess(ExpectedColumns, rows, numeric);
            var first := FirstBadDate(Column(rows, 2));
            && (first.Some? ==> r == Err(UnparseableDate(first.value)))
            && (first.None? ==> FirstBadDate(Column(rows, 3)).Some?
                                && r == Err(UnparseableDate(FirstBadDate(Column(rows, 3)).value)))
  {
    var r := CleanAndProcess(ExpectedColumns, rows, numeric);
    var c: nat := 2;
    if FirstBadDate(Column(rows, 2)).None? {
      NoBadDateInColumn(rows, 2);
      NoBadDateInColumn(rows, 3);
      c := 3;
    }
    var j := BadDateInColumn(rows, c);
    assert ConvertDate(rows[j][c]) == Err(r.error);
  }

  /** The text `FirstBadDate` reports for a column is that of one of its cells. */
  lemma BadDateInColumn(rows: seq<Row>, c: nat) returns (j: nat)
    requires c < ExpectedColumns && forall i :: 0 <= i < |rows| ==> |rows[i]| == ExpectedColumns
    requires FirstBadDate(Column(rows, c)).Some?
    ensures j < |rows| && ConvertDate(rows[j][c]) == Err(UnparseableDate(FirstBadDate(Column(rows, c)).value))
  {
    var col := Column(rows, c);
    j :| 0 <= j < |col| && ConvertDate(col[j]) == Err(UnparseableDate(FirstBadDate(col).value));
  }
}
