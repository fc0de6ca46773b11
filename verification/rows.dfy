/**
 * Spreadsheet rows as the normalisers receive them (`row.to_dict()` of a
 * pandas frame): column names mapped to cells, where a blank cell arrives as
 * a NaN float. The helpers of backend/app/parser.py:12-24 read them.
 */
module Rows {
  import opened Options

  /** A cell value: Python `None`, a NaN float, or a text. */
  datatype Cell = Null | NaN | Text(text: string)

  /** A row in column order; a column name is looked up at its first position. */
  type Row = seq<(string, Cell)>

  /** `d.get(key)`: the cell stored under `key`, if the row has that column. */
  function Lookup(row: Row, key: string): (r: Option<Cell>)
    ensures r.None? <==> forall i :: 0 <= i < |row| ==> row[i].0 != key
    ensures r.Some? ==> exists i :: 0 <= i < |row| && row[i] == (key, r.value)
  {
    if row == [] then None
    else if row[0].0 == key then Some(row[0].1)
    else
      var r := Lookup(row[1..], key);
      assert forall i :: 1 <= i < |row| ==> row[i] == row[1..][i - 1];
      r
  }

  /** `_is_nan` (backend/app/parser.py:12-13). */
  predicate IsNan(c: Cell) { c.NaN? }

  /** `safe_str` (backend/app/parser.py:15-20): `None` and NaN give nothing, a text gives itself. */
  function SafeStr(v: Option<Cell>): (r: Option<string>)
    ensures r.Some? <==> v.Some? && v.value.Text?
    ensures r.Some? ==> v.value == Text(r.value)
  {
    match v
    case Some(Text(s)) => Some(s)
    case _ => None
  }

  /** `safe_get_str` (backend/app/parser.py:22-24): the text under `key`, if any. */
  function SafeGetStr(row: Row, key: string): (r: Option<string>)
    ensures r.Some? ==> exists i :: 0 <= i < |row| && row[i] == (key, Text(r.value))
  {
    SafeStr(Lookup(row, key))
  }

  /** A text in the first column named `key` is what `safe_get_str` returns. */
  lemma SafeGetStrFirst(row: Row, key: string, i: nat)
    requires i < |row| && row[i].0 == key && row[i].1.Text?
    requires forall j :: 0 <= j < i ==> row[j].0 != key
    ensures SafeGetStr(row, key) == Some(row[i].1.text)
  {
    FirstColumn(row, key);
  }

  /** The lookup result is the cell at the first column named `key`. */
  lemma {:induction false} FirstColumn(row: Row, key: string)
    ensures forall i :: 0 <= i < |row| && row[i].0 == key && (forall j :: 0 <= j < i ==> row[j].0 != key) ==>
      Lookup(row, key) == Some(row[i].1)
  {
    if row != [] && row[0].0 != key {
      FirstColumn(row[1..], key);
      forall i | 0 <= i < |row| && row[i].0 == key && (forall j :: 0 <= j < i ==> row[j].0 != key)
        ensures Lookup(row, key) == Some(row[i].1)
      {
        assert i > 0;
        assert row[1..][i - 1] == row[i];
        assert forall j :: 0 <= j < i - 1 ==> row[1..][j].0 != key by {
          forall j | 0 <= j < i - 1 ensures row[1..][j].0 != key {
            assert row[1..][j] == row[j + 1];
          }
        }
      }
    }
  }
}
