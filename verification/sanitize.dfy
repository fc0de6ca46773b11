/**
 * `clean_obj` (backend/sanitize_json.py:10-17) and `clean_for_json`
 * (backend/import_to_api.py:7-14), which are the same function: dictionary
 * entries holding `None` or NaN are dropped, a NaN elsewhere becomes `None`,
 * and infinities are kept.
 */
module Sanitize {
  import opened Json

  /** The entries a dictionary comprehension of the two scripts leaves out: `None` or a NaN float. */
  predicate Dropped(v: Value) { v.Null? || v.NaN? }

  /** The entries that are kept, in order. */
  function Kept(fs: seq<Field>): (ks: seq<Field>)
    ensures |ks| <= |fs|
    ensures forall i :: 0 <= i < |ks| ==> ks[i] in fs && !Dropped(ks[i].1)
    ensures forall i :: 0 <= i < |fs| && !Dropped(fs[i].1) ==> fs[i] in ks
    ensures (forall i :: 0 <= i < |fs| ==> !Dropped(fs[i].1)) ==> ks == fs
  {
    if fs == [] then [] else (if Dropped(fs[0].1) then [] else [fs[0]]) + Kept(fs[1..])
  }

  /**
   * Filtering keeps the order of the entries: the kept entries of two lists
   * one after the other are the kept entries of the first, then of the second.
   */
  lemma {:induction false} KeptAppend(a: seq<Field>, b: seq<Field>)
    ensures Kept(a + b) == Kept(a) + Kept(b)
    decreases |a|
  {
    if a == [] {
      assert a + b == b;
    } else {
      assert (a + b)[1..] == a[1..] + b;
      KeptAppend(a[1..], b);
    }
  }

  /** A single entry is kept exactly when it holds neither `None` nor NaN. */
  lemma KeptOne(f: Field)
    ensures Kept([f]) == if Dropped(f.1) then [] else [f]
  {
  }

  /**
   * What the scripts produce: no NaN reachable through lists and
   * dictionaries, and no dictionary entry holding `None`.
   */
  predicate Clean(v: Value) {
    match v
    case NaN => false
    case Arr(xs) => forall i :: 0 <= i < |xs| ==> Clean(xs[i])
    case Obj(fs) => forall i :: 0 <= i < |fs| ==> !Dropped(fs[i].1) && Clean(fs[i].1)
    case _ => true
  }

  /**
   * `clean_obj`: a dictionary keeps the entries whose value is neither `None`
   * nor NaN, each cleaned; a list keeps its length, each element cleaned (a
   * NaN element becomes `None`, it is not removed); a NaN becomes `None`;
   * anything else, infinities and tuples included, is kept.
   */
  function CleanObj(v: Value): (r: Value)
    ensures Clean(r)
    ensures !Dropped(v) ==> !Dropped(r)
    ensures v.NaN? ==> r == Null
    ensures v.Arr? ==> r.Arr? && |r.items| == |v.items|
    ensures v.Arr? ==> forall i :: 0 <= i < |v.items| ==> r.items[i] == CleanObj(v.items[i])
    ensures v.Obj? ==> r.Obj? && Keys(r.fields) == Keys(Kept(v.fields))
    ensures v.Obj? ==> forall i :: 0 <= i < |r.fields| ==> r.fields[i].1 == CleanObj(Kept(v.fields)[i].1)
    ensures !v.Arr? && !v.Obj? && !v.NaN? ==> r == v
  {
    match v
    case Obj(fs) =>
      var ks := Kept(fs);
      Obj(seq(|ks|, i requires 0 <= i < |ks| => (ks[i].0, CleanObj(ks[i].1))))
    case Arr(xs) => Arr(seq(|xs|, i requires 0 <= i < |xs| => CleanObj(xs[i])))
    case NaN => Null
    case _ => v
  }

  /** A value is left as it is exactly when it is already clean. */
  lemma {:induction false} CleanObjFixed(v: Value)
    ensures CleanObj(v) == v <==> Clean(v)
  {
    match v
    case Arr(xs) =>
      if Clean(v) {
        forall i | 0 <= i < |xs| ensures CleanObj(xs[i]) == xs[i] {
          CleanObjFixed(xs[i]);
        }
        assert CleanObj(v).items == xs;
      }
    case Obj(fs) =>
      if Clean(v) {
        assert Kept(fs) == fs;
        forall i | 0 <= i < |fs| ensures (fs[i].0, CleanObj(fs[i].1)) == fs[i] {
          CleanObjFixed(fs[i].1);
        }
        assert CleanObj(v).fields == fs;
      }
    case _ =>
  }

  /** A second pass changes nothing. */
  lemma CleanObjIdempotent(v: Value)
    ensures CleanObj(CleanObj(v)) == CleanObj(v)
  {
    CleanObjFixed(CleanObj(v));
  }

  /** Infinities pass through, unlike in `safe_convert`. */
  lemma InfinityKept(negative: bool)
    ensures CleanObj(Obj([("x", Inf(negative))])) == Obj([("x", Inf(negative))])
  {
    CleanObjFixed(Obj([("x", Inf(negative))]));
  }

  /** In a list, a NaN is replaced by `None`; in a dictionary, its entry is removed. */
  lemma NaNInListAndDict()
    ensures CleanObj(Arr([NaN])) == Arr([Null])
    ensures CleanObj(Obj([("x", NaN)])) == Obj([])
  {
    assert Kept([("x", NaN)]) == [];
  }
}
