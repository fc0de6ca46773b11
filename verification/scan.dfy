/**
 * Leftmost search and `findall` over a matcher. A matcher looks at one start
 * position of a text and says whether its pattern matches there, where the
 * match ends and what it captured; each pattern of the normaliser is written
 * as such a matcher, and `re.search` / `re.finditer` become the two scans below.
 */
module Scan {
  import opened Options
  import opened Strings

  /** A match found by a matcher at some start position: its end and its captured value. */
  datatype Span<T> = Span(end: nat, value: T)

  /** A match found by a scan: where it starts, where it ends, what it captured. */
  datatype Hit<T> = Hit(start: nat, end: nat, value: T)

  type Matcher<T> = (string, nat) -> Option<Span<T>>

  /** `\b` at index `i` of `s`, with `\w` over ASCII. */
  predicate Boundary(s: string, i: nat) {
    (0 < i <= |s| && IsWord(s[i - 1])) != (i < |s| && IsWord(s[i]))
  }

  /** `s[i..]` starts with the literal `lit`. */
  predicate At(s: string, i: nat, lit: string)
    decreases lit
  {
    lit == [] || (i < |s| && s[i] == lit[0] && At(s, i + 1, lit[1..]))
  }

  /** Where neither of the first two characters of `lit` lines up, `lit` does not start. */
  lemma NotAtBefore(s: string, lit: string, n: nat)
    requires |lit| >= 2 && n < |s|
    requires forall q :: 0 <= q < n ==> s[q] != lit[0] || s[q + 1] != lit[1]
    ensures forall q :: 0 <= q < n ==> !At(s, q, lit)
  {
    forall q | 0 <= q < n ensures !At(s, q, lit) {
      assert lit[1..][0] == lit[1];
    }
  }

  /** A literal found at `i` occupies `s[i..i + |lit|]` character by character. */
  lemma {:induction false} AtChars(s: string, i: nat, lit: string)
    requires i <= |s|
    decreases lit
    ensures At(s, i, lit) <==> i + |lit| <= |s| && forall k :: 0 <= k < |lit| ==> s[i + k] == lit[k]
  {
    if lit != [] {
      var tail := lit[1..];
      if i < |s| {
        AtChars(s, i + 1, tail);
      }
      var chars := i + |lit| <= |s| && forall k :: 0 <= k < |lit| ==> s[i + k] == lit[k];
      if chars {
        forall k | 0 <= k < |tail| ensures s[i + 1 + k] == tail[k] {
          assert s[i + (k + 1)] == lit[k + 1];
        }
        assert At(s, i + 1, tail);
      }
      if At(s, i, lit) {
        forall k | 0 <= k < |lit| ensures s[i + k] == lit[k] {
          if k > 0 {
            assert s[i + 1 + (k - 1)] == tail[k - 1];
          }
        }
      }
    }
  }

  /** `re.search`: the match at the leftmost start position at or after `from`. */
  function Search<T>(s: string, from: nat, m: Matcher<T>): (r: Option<Hit<T>>)
    decreases |s| + 1 - from
    ensures r.Some? ==> from <= r.value.start <= |s|
    ensures r.Some? ==> m(s, r.value.start) == Some(Span(r.value.end, r.value.value))
    ensures r.Some? ==> forall q :: from <= q < r.value.start ==> m(s, q).None?
    ensures r.None? ==> forall q :: from <= q <= |s| ==> m(s, q).None?
  {
    if from > |s| then None
    else match m(s, from)
      case Some(sp) => Some(Hit(from, sp.end, sp.value))
      case None => Search(s, from + 1, m)
  }

  /** `re.finditer` / `re.findall`: successive leftmost matches, each search resuming where the last match ended. */
  function FindAll<T>(s: string, from: nat, m: Matcher<T>): (hs: seq<Hit<T>>)
    decreases |s| + 1 - from
    ensures forall k :: 0 <= k < |hs| ==> from <= hs[k].start <= |s|
    ensures forall k :: 0 <= k < |hs| ==> m(s, hs[k].start) == Some(Span(hs[k].end, hs[k].value))
    ensures hs == [] <==> Search(s, from, m).None?
    ensures hs != [] ==> Search(s, from, m) == Some(hs[0])
  {
    match Search(s, from, m)
    case None => []
    case Some(h) => [h] + FindAll(s, if h.end > h.start then h.end else h.start + 1, m)
  }

  /** The match at `p` is the one `re.search` returns when no earlier start position matches. */
  lemma SearchFinds<T>(s: string, from: nat, m: Matcher<T>, p: nat)
    requires from <= p <= |s| && m(s, p).Some?
    requires forall q :: from <= q < p ==> m(s, q).None?
    ensures Search(s, from, m) == Some(Hit(p, m(s, p).value.end, m(s, p).value.value))
  {
  }
}
