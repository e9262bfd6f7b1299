/** Result sets as the database driver hands them back: column names and rows of values. */
module Results {

  /** The Python type of a value in a result row. */
  datatype Kind = IntValue | FloatValue | BoolValue | DecimalValue | TextValue | DateValue | NullValue

  /** One value of a result row: its Python type and its `str()` rendering. */
  datatype Cell = Cell(kind: Kind, text: string)

  /** `(column_names, rows)` of one successful `execute_sql` call. */
  datatype Table = Table(columns: seq<string>, rows: seq<seq<Cell>>)

  /** `isinstance(v, (int, float))`; `bool` is a subclass of `int`, and a MySQL DECIMAL
      (a `decimal.Decimal`) is neither. */
  predicate IsIntOrFloat(c: Cell) {
    c.kind == IntValue || c.kind == FloatValue || c.kind == BoolValue
  }

  /** `map(str, row)`. */
  function Texts(row: seq<Cell>): (r: seq<string>)
    ensures |r| == |row|
    ensures forall i :: 0 <= i < |row| ==> r[i] == row[i].text
  {
    seq(|row|, i requires 0 <= i < |row| => row[i].text)
  }
}
