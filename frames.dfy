/** The reference tables as pandas holds them after `pd.read_csv`: a header of
    column names and rows of cells. A cell is a number, a piece of text that
    pandas could not read as a number, or NaN (an empty field). */
module Frames {
  import opened Wrappers
  import opened Numeric

  datatype Cell = Num(x: real) | Text(s: string) | NaN

  /** `pd.to_numeric(cell, errors="coerce")`: numbers stay, readable text becomes
      its number, anything else becomes NaN. */
  function ToNumeric(c: Cell): (r: Cell)
    ensures r.Num? || r.NaN?
    ensures c.Text? ==> (r.Num? <==> ParseNumber(c.s).Some?)
  {
    match c
    case Num(_) => c
    case NaN => NaN
    case Text(s) =>
      match ParseNumber(s)
      case Some(x) => Num(x)
      case None => NaN
  }

  /** `float(cell)` on an L, M or S cell; None where Python raises (unreadable
      text) or where the value is NaN. */
  function CellValue(c: Cell): Option<real>
  {
    match c
    case Num(x) => Some(x)
    case Text(s) => ParseNumber(s)
    case NaN => None
  }

  /** `column == key` on one cell: only a number equal to the key matches; NaN
      and text never do. */
  predicate Matches(c: Cell, key: real)
  {
    c.Num? && c.x == key
  }

  /** Coercion is idempotent and does not change the value `float()` reads. */
  lemma {:induction false} CoercionStable(c: Cell)
    ensures ToNumeric(ToNumeric(c)) == ToNumeric(c)
    ensures CellValue(ToNumeric(c)) == CellValue(c)
  {
  }

  /** A key cell whose text is not a number is NaN after coercion and matches no query. */
  lemma {:induction false} UnreadableKeyNeverMatches(s: string, key: real)
    requires ParseNumber(s).None?
    ensures ToNumeric(Text(s)) == NaN && !Matches(ToNumeric(Text(s)), key)
  {
  }

  /** A key cell holding the text of a month count matches that count after coercion. */
  lemma {:induction false} MonthTextMatches(n: int)
    ensures Matches(ToNumeric(Text(ShowInt(n))), n as real)
  {
    ParseShowInt(n);
  }

  /** A key cell holding a length written "<whole>.<digit>" (as in "65.0") matches
      the length whole + digit/10 after coercion. */
  lemma {:induction false} LengthTextMatches(whole: nat, d: nat)
    requires d < 10
    ensures Matches(ToNumeric(Text(ShowNat(whole) + "." + [DigitChar(d)])), whole as real + d as real / 10.0)
  {
    var frac := [DigitChar(d)];
    ParseShowDecimal(whole, frac);
    assert DigitsValue(frac) == d by {
      assert frac[..0] == [];
    }
    assert Pow10(|frac|) == 10;
  }

  /** A table's header and rows, as values. */
  datatype TableData = TableData(columns: seq<string>, rows: seq<seq<Cell>>)

  /** What `read_csv` guarantees: at least one column, and every row as wide as the header. */
  predicate WellFormed(t: TableData)
  {
    && |t.columns| >= 1
    && forall i :: 0 <= i < |t.rows| ==> |t.rows[i]| == |t.columns|
  }

  predicate HasColumn(rows: seq<seq<Cell>>, c: nat)
  {
    forall i :: 0 <= i < |rows| ==> c < |rows[i]|
  }

  /** The rows after `df[col] = pd.to_numeric(df[col], errors="coerce")` with col at index c. */
  function CoerceRows(rows: seq<seq<Cell>>, c: nat): (r: seq<seq<Cell>>)
    requires HasColumn(rows, c)
    ensures |r| == |rows| && forall i :: 0 <= i < |rows| ==> |r[i]| == |rows[i]|
  {
    seq(|rows|, i requires 0 <= i < |rows| => rows[i][c := ToNumeric(rows[i][c])])
  }

  /** Coercion changes the key column only: every other cell stays, and each key
      cell becomes its numeric reading. */
  lemma {:induction false} CoerceOnlyKeyColumn(rows: seq<seq<Cell>>, c: nat)
    requires HasColumn(rows, c)
    ensures forall i, j :: 0 <= i < |rows| && 0 <= j < |rows[i]| && j != c ==> CoerceRows(rows, c)[i][j] == rows[i][j]
    ensures forall i :: 0 <= i < |rows| ==> CoerceRows(rows, c)[i][c] == ToNumeric(rows[i][c])
  {
  }

  /** Coercing a column twice is the same as coercing it once. */
  lemma {:induction false} CoerceIdempotent(rows: seq<seq<Cell>>, c: nat)
    requires HasColumn(rows, c)
    ensures HasColumn(CoerceRows(rows, c), c)
    ensures CoerceRows(CoerceRows(rows, c), c) == CoerceRows(rows, c)
  {
    var once := CoerceRows(rows, c);
    forall i | 0 <= i < |rows| ensures CoerceRows(once, c)[i] == once[i] {
      CoercionStable(rows[i][c]);
      assert once[i][c := ToNumeric(once[i][c])] == once[i];
    }
  }

  /** `df.loc[df[col] == key]` followed by `.values[0]`: the index of the first
      row whose key cell matches, or None when the selection is empty. */
  function FirstMatch(rows: seq<seq<Cell>>, c: nat, key: real): (r: Option<nat>)
    requires HasColumn(rows, c)
    ensures r.Some? ==> r.value < |rows| && Matches(rows[r.value][c], key)
    ensures r.Some? ==> forall j :: 0 <= j < r.value ==> !Matches(rows[j][c], key)
    ensures r.None? <==> forall j :: 0 <= j < |rows| ==> !Matches(rows[j][c], key)
  {
    if |rows| == 0 then None
    else if Matches(rows[0][c], key) then Some(0)
    else
      match FirstMatch(rows[1..], c, key)
      case None => None
      case Some(i) => Some(i + 1)
  }

  /** Row i is the first row whose key cell in column c matches key: the row
      `df.loc[df[col] == key]` puts first. */
  predicate IsFirstMatch(rows: seq<seq<Cell>>, c: nat, key: real, i: nat)
    requires HasColumn(rows, c)
  {
    i < |rows| && Matches(rows[i][c], key) && forall j :: 0 <= j < i ==> !Matches(rows[j][c], key)
  }

  /** The lookup finds the first matching row whenever there is one. */
  lemma {:induction false} FirstMatchFinds(rows: seq<seq<Cell>>, c: nat, key: real, i: nat)
    requires HasColumn(rows, c) && IsFirstMatch(rows, c, key, i)
    ensures FirstMatch(rows, c, key) == Some(i)
  {
  }

  /** Position of a column name in the header (pandas column names are unique,
      so this is the column `df[name]` selects). */
  function IndexOf(columns: seq<string>, name: string): (i: nat)
    requires name in columns
    ensures i < |columns| && columns[i] == name
    ensures forall j :: 0 <= j < i ==> columns[j] != name
  {
    if columns[0] == name then 0 else 1 + IndexOf(columns[1..], name)
  }

  /** One loaded reference table. Its column header is fixed; its cells are
      shared by all requests and updated in place when the key column is coerced. */
  class Frame {
    const columns: seq<string>
    const rows: array<seq<Cell>>

    function Data(): TableData
      reads rows
    {
      TableData(columns, rows[..])
    }

    ghost predicate Valid()
      reads rows
    {
      WellFormed(Data())
    }

    constructor (columns: seq<string>, cells: seq<seq<Cell>>)
      requires WellFormed(TableData(columns, cells))
      ensures Valid() && fresh(rows)
      ensures Data() == TableData(columns, cells)
    {
      this.columns := columns;
      this.rows := new seq<Cell>[|cells|](i requires 0 <= i < |cells| => cells[i]);
    }

    /** `df[col] = pd.to_numeric(df[col], errors="coerce")` for the column at index c. */
    method CoerceColumn(c: nat)
      requires Valid() && c < |columns|
      modifies rows
      ensures Valid()
      ensures HasColumn(old(rows[..]), c)
      ensures Data() == TableData(columns, CoerceRows(old(rows[..]), c))
    {
      for i := 0 to rows.Length
        invariant forall j :: 0 <= j < i ==> rows[j] == old(rows[j])[c := ToNumeric(old(rows[j])[c])]
        invariant forall j :: i <= j < rows.Length ==> rows[j] == old(rows[j])
      {
        rows[i] := rows[i][c := ToNumeric(rows[i][c])];
      }
    }
  }
}
