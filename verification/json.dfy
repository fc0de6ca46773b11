/**
 * The values the clean-up scripts pass around: what `json.load` produces,
 * plus the floats `normalize_row` can leave behind. Floats are split into the
 * finite ones (exact reals) and the non-finite ones, and `Tuple` stands for a
 * container none of the scripts descends into.
 */
module Json {

  datatype Value =
    | Null
    | Bool(b: bool)
    | Int(i: int)
    | Float(x: real)
    | NaN
    | Inf(negative: bool)
    | Str(s: string)
    | Arr(items: seq<Value>)
    | Obj(fields: seq<Field>)
    | Tuple(elems: seq<Value>)

  /** A dictionary entry, in insertion order. */
  type Field = (string, Value)

  /** `math.isnan(v) or math.isinf(v)` on a float. */
  predicate NonFinite(v: Value) { v.NaN? || v.Inf? }

  /** The keys of a dictionary, in order. */
  function Keys(fs: seq<Field>): (ks: seq<string>)
    ensures |ks| == |fs| && forall i :: 0 <= i < |fs| ==> ks[i] == fs[i].0
  {
    seq(|fs|, i requires 0 <= i < |fs| => fs[i].0)
  }

  /** No NaN or infinity reachable through lists and dictionaries. */
  predicate AllFinite(v: Value) {
    match v
    case NaN => false
    case Inf(_) => false
    case Arr(xs) => forall i :: 0 <= i < |xs| ==> AllFinite(xs[i])
    case Obj(fs) => forall i :: 0 <= i < |fs| ==> AllFinite(fs[i].1)
    case _ => true
  }
}
