/** backend/fix_nan.py: a one-level sweep over the records of a JSON list. */
module FixNan {
  import opened Json
  import FullRunner

  /** `clean_value` (backend/fix_nan.py:8-12): NaN and infinities become `None`; every other value is kept. */
  function CleanValue(v: Value): (r: Value)
    ensures !NonFinite(r)
    ensures NonFinite(v) ==> r == Null
    ensures !NonFinite(v) ==> r == v
  {
    if NonFinite(v) then Null else v
  }

  /** On anything but a list or a dictionary, `clean_value` agrees with `safe_convert`. */
  lemma CleanValueIsSafeConvert(v: Value)
    requires !v.Arr? && !v.Obj?
    ensures CleanValue(v) == FullRunner.SafeConvert(v)
  {
  }

  /**
   * `clean_row` (backend/fix_nan.py:14-15): the same keys in the same order,
   * each value cleaned one level deep.
   */
  function CleanRow(row: seq<Field>): (r: seq<Field>)
    ensures Keys(r) == Keys(row) && |r| == |row|
    ensures forall i :: 0 <= i < |row| ==> r[i] == (row[i].0, CleanValue(row[i].1))
    ensures forall i :: 0 <= i < |row| ==> !NonFinite(r[i].1)
    ensures forall i :: 0 <= i < |row| ==> r[i].1 != row[i].1 ==> NonFinite(row[i].1) && r[i].1 == Null
  {
    seq(|row|, i requires 0 <= i < |row| => (row[i].0, CleanValue(row[i].1)))
  }

  /** Nested lists and dictionaries are not traversed: a NaN inside one survives. */
  lemma NestedNotTraversed(row: seq<Field>, i: nat)
    requires i < |row| && (row[i].1.Arr? || row[i].1.Obj?)
    ensures CleanRow(row)[i] == row[i]
  {
  }

  lemma NestedNaNSurvives()
    ensures CleanRow([("x", Arr([NaN]))]) == [("x", Arr([NaN]))]
  {
    NestedNotTraversed([("x", Arr([NaN]))], 0);
  }

  /** A second sweep changes nothing. */
  lemma CleanRowIdempotent(row: seq<Field>)
    ensures CleanRow(CleanRow(row)) == CleanRow(row)
  {
  }

  /** `main` (backend/fix_nan.py:21): the records keep their number and order, each cleaned. */
  function CleanData(rows: seq<seq<Field>>): (r: seq<seq<Field>>)
    ensures |r| == |rows|
    ensures forall i :: 0 <= i < |rows| ==> r[i] == CleanRow(rows[i])
    ensures forall i :: 0 <= i < |rows| ==> Keys(r[i]) == Keys(rows[i])
  {
    seq(|rows|, i requires 0 <= i < |rows| => CleanRow(rows[i]))
  }
}
