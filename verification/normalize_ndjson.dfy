/**
 * data/normalize_ndjson.py: every parsed record gets the newlines in the
 * texts of its `raw_payload` written as the two characters `\n`. Reading and
 * writing the NDJSON lines is left out; a record is its list of entries.
 */
module NormalizeNdjson {
  import opened Options
  import opened Strings
  import opened Json

  /** `v.replace("\n", "\\n")`. */
  function Escape(s: string): string {
    ReplaceChar(s, '\n', "\\n")
  }

  /** No newline is left after escaping. */
  lemma {:induction false} EscapeNoNewline(s: string)
    ensures '\n' !in Escape(s)
  {
    if s != [] {
      EscapeNoNewline(s[1..]);
      var head := if s[0] == '\n' then "\\n" else [s[0]];
      assert Escape(s) == head + Escape(s[1..]);
    }
  }

  /** Escaping changes a text exactly when it holds a newline. */
  lemma EscapeFixed(s: string)
    ensures Escape(s) == s <==> '\n' !in s
  {
    EscapeNoNewline(s);
  }

  /**
   * What `escape_text` makes of one value: a text is escaped, a dictionary
   * is escaped entry by entry, and anything else, lists included, is kept.
   */
  function Escaped(v: Value): (r: Value)
    ensures v.Obj? ==> r.Obj? && Keys(r.fields) == Keys(v.fields)
    ensures v.Str? ==> r == Str(Escape(v.s))
    ensures !v.Str? && !v.Obj? ==> r == v
    decreases v, 1
  {
    match v
    case Str(s) => Str(Escape(s))
    case Obj(fs) => Obj(EscapedFields(fs))
    case _ => v
  }

  function EscapedFields(fs: seq<Field>): (r: seq<Field>)
    ensures Keys(r) == Keys(fs)
    ensures |r| == |fs| && forall i :: 0 <= i < |fs| ==> r[i].1 == Escaped(fs[i].1)
    decreases Obj(fs), 0
  {
    seq(|fs|, i requires 0 <= i < |fs| => (fs[i].0, Escaped(fs[i].1)))
  }

  /** No newline in a text reachable through dictionaries. */
  predicate NoNewline(v: Value) {
    match v
    case Str(s) => '\n' !in s
    case Obj(fs) => forall i :: 0 <= i < |fs| ==> NoNewline(fs[i].1)
    case _ => true
  }

  /** After escaping, no text reachable through dictionaries holds a newline. */
  lemma {:induction false} EscapedNoNewline(v: Value)
    ensures NoNewline(Escaped(v))
  {
    match v
    case Str(s) => EscapeNoNewline(s);
    case Obj(fs) =>
      forall i | 0 <= i < |fs| ensures NoNewline(EscapedFields(fs)[i].1) {
        EscapedNoNewline(fs[i].1);
      }
    case _ =>
  }

  /** A value is left as it is exactly when no text reachable through dictionaries holds a newline. */
  lemma {:induction false} EscapedFixed(v: Value)
    ensures Escaped(v) == v <==> NoNewline(v)
  {
    match v
    case Str(s) => EscapeFixed(s);
    case Obj(fs) =>
      if NoNewline(v) {
        forall i | 0 <= i < |fs| ensures (fs[i].0, Escaped(fs[i].1)) == fs[i] {
          EscapedFixed(fs[i].1);
        }
        assert EscapedFields(fs) == fs;
      } else {
        var i :| 0 <= i < |fs| && !NoNewline(fs[i].1);
        EscapedFixed(fs[i].1);
        EscapedNoNewline(fs[i].1);
        assert Escaped(v).fields[i].1 != fs[i].1;
      }
    case _ =>
  }

  /** Escaping twice is escaping once. */
  lemma EscapedIdempotent(v: Value)
    ensures Escaped(Escaped(v)) == Escaped(v)
  {
    EscapedNoNewline(v);
    EscapedFixed(Escaped(v));
  }

  /**
   * `escape_text(d)` (data/normalize_ndjson.py:12-18): walks the entries,
   * rewriting each text and descending into each nested dictionary, and
   * returns the dictionary it rewrote.
   */
  method EscapeText(d: seq<Field>) returns (r: seq<Field>)
    ensures r == EscapedFields(d)
    decreases Obj(d)
  {
    r := d;
    var i := 0;
    while i < |r|
      invariant i <= |r| == |d|
      invariant forall j :: 0 <= j < i ==> r[j] == EscapedFields(d)[j]
      invariant forall j :: i <= j < |r| ==> r[j] == d[j]
    {
      var (k, v) := r[i];
      assert r[i] == d[i];
      if v.Str? {
        r := r[i := (k, Str(Escape(v.s)))];
      } else if v.Obj? {
        assert d[i] in d;
        var inner := EscapeText(v.fields);
        r := r[i := (k, Obj(inner))];
      }
      i := i + 1;
    }
  }

  /** Index of the first entry with key `key`. */
  function Find(fs: seq<Field>, key: string): (r: Option<nat>)
    ensures r.None? <==> key !in Keys(fs)
    ensures r.Some? ==> r.value < |fs| && fs[r.value].0 == key && forall j :: 0 <= j < r.value ==> fs[j].0 != key
  {
    if fs == [] then None
    else if fs[0].0 == key then Some(0)
    else match Find(fs[1..], key)
      case None => None
      case Some(j) => Some(j + 1)
  }

  const RawPayload := "raw_payload"

  /**
   * `obj['raw_payload'] = escape_text(obj.get('raw_payload', {}))`
   * (data/normalize_ndjson.py:19): a dictionary there is escaped in place; a
   * missing one is added, empty, at the end; anything else makes
   * `escape_text` fail (`None` here).
   */
  function NormalizeSpec(obj: seq<Field>): (r: Option<seq<Field>>)
    ensures r.None? <==> Find(obj, RawPayload).Some? && !obj[Find(obj, RawPayload).value].1.Obj?
    ensures r.Some? && Find(obj, RawPayload).Some? ==> |r.value| == |obj| && Keys(r.value) == Keys(obj)
    ensures r.Some? && Find(obj, RawPayload).None? ==> r.value == obj + [(RawPayload, Obj([]))]
  {
    match Find(obj, RawPayload)
    case None => Some(obj + [(RawPayload, Obj([]))])
    case Some(i) =>
      var v := obj[i].1;
      if v.Obj? then Some(obj[i := (RawPayload, Obj(EscapedFields(v.fields)))]) else None
  }

  /** Only `raw_payload` changes, and afterwards it holds no newline reachable through dictionaries. */
  lemma NormalizeTouchesOnlyPayload(obj: seq<Field>)
    ensures var r := NormalizeSpec(obj);
      r.Some? ==>
        && Find(r.value, RawPayload).Some?
        && NoNewline(r.value[Find(r.value, RawPayload).value].1)
        && forall j :: 0 <= j < |obj| && obj[j].0 != RawPayload ==> r.value[j] == obj[j]
  {
    var r := NormalizeSpec(obj);
    if r.Some? {
      match Find(obj, RawPayload)
      case None =>
        assert Keys(r.value)[|obj|] == RawPayload;
        assert Find(r.value, RawPayload).Some?;
      case Some(i) =>
        EscapedNoNewline(obj[i].1);
        assert Keys(r.value) == Keys(obj);
    }
  }

  /** Normalising a normalised record changes nothing. */
  lemma NormalizeIdempotent(obj: seq<Field>)
    requires NormalizeSpec(obj).Some?
    ensures NormalizeSpec(NormalizeSpec(obj).value) == NormalizeSpec(obj)
  {
    var r := NormalizeSpec(obj).value;
    NormalizeTouchesOnlyPayload(obj);
    var k := Find(r, RawPayload).value;
    EscapedFixed(r[k].1);
    assert r[k := (RawPayload, Escaped(r[k].1))] == r;
  }

  /** One record of the loop. */
  method NormalizeRecord(obj: seq<Field>) returns (r: Option<seq<Field>>)
    ensures r == NormalizeSpec(obj)
  {
    var at := Find(obj, RawPayload);
    if at.None? {
      var empty := EscapeText([]);
      return Some(obj + [(RawPayload, Obj(empty))]);
    }
    var v := obj[at.value].1;
    if !v.Obj? {
      return None;
    }
    var escaped := EscapeText(v.fields);
    return Some(obj[at.value := (RawPayload, Obj(escaped))]);
  }
}
