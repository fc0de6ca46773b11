/** backend/full_runner.py: the sweep applied to every parsed record before it is written out. */
module FullRunner {
  import opened Json

  /**
   * `safe_convert` (backend/full_runner.py:11-21): a NaN or an infinity
   * becomes `None`, lists and dictionaries keep their shape and keys with
   * every element converted, and anything else, a tuple included, is kept.
   * Nothing non-finite is left reachable through lists and dictionaries.
   */
  function SafeConvert(v: Value): (r: Value)
    ensures AllFinite(r)
    ensures NonFinite(v) ==> r == Null
    ensures v.Arr? ==> r.Arr? && |r.items| == |v.items|
    ensures v.Arr? ==> forall i :: 0 <= i < |v.items| ==> r.items[i] == SafeConvert(v.items[i])
    ensures v.Obj? ==> r.Obj? && Keys(r.fields) == Keys(v.fields)
    ensures v.Obj? ==> forall i :: 0 <= i < |v.fields| ==> r.fields[i].1 == SafeConvert(v.fields[i].1)
    ensures !v.Arr? && !v.Obj? && !NonFinite(v) ==> r == v
  {
    match v
    case NaN => Null
    case Inf(_) => Null
    case Arr(xs) => Arr(seq(|xs|, i requires 0 <= i < |xs| => SafeConvert(xs[i])))
    case Obj(fs) => Obj(seq(|fs|, i requires 0 <= i < |fs| => (fs[i].0, SafeConvert(fs[i].1))))
    case _ => v
  }

  /** A value is left as it is exactly when nothing non-finite is reachable in it. */
  lemma {:induction false} SafeConvertFixed(v: Value)
    ensures SafeConvert(v) == v <==> AllFinite(v)
  {
    match v
    case Arr(xs) =>
      if AllFinite(v) {
        forall i | 0 <= i < |xs| ensures SafeConvert(xs[i]) == xs[i] {
          SafeConvertFixed(xs[i]);
        }
        assert SafeConvert(v).items == xs;
      }
    case Obj(fs) =>
      if AllFinite(v) {
        forall i | 0 <= i < |fs| ensures (fs[i].0, SafeConvert(fs[i].1)) == fs[i] {
          SafeConvertFixed(fs[i].1);
        }
        assert SafeConvert(v).fields == fs;
      }
    case _ =>
  }

  /** A second pass changes nothing. */
  lemma SafeConvertIdempotent(v: Value)
    ensures SafeConvert(SafeConvert(v)) == SafeConvert(v)
  {
    SafeConvertFixed(SafeConvert(v));
  }

  /** A tuple is not descended into: a NaN inside it survives. */
  lemma TupleKept()
    ensures SafeConvert(Tuple([NaN])) == Tuple([NaN])
  {
  }
}
