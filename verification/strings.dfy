/**
 * Characters and strings as Python's `str` methods and the `re` character
 * classes see them. Letters, digits and word characters are ASCII; `\s` is the
 * set of characters `str.isspace()` accepts.
 */
module Strings {

  predicate IsDigit(c: char) { '0' <= c <= '9' }
  predicate IsUpper(c: char) { 'A' <= c <= 'Z' }
  predicate IsLower(c: char) { 'a' <= c <= 'z' }
  predicate IsLetter(c: char) { IsUpper(c) || IsLower(c) }

  /** `\w` over ASCII: `[A-Za-z0-9_]`. */
  predicate IsWord(c: char) { IsLetter(c) || IsDigit(c) || c == '_' }

  /** `\s`, the characters `str.isspace()` and `str.strip()` treat as white space. */
  predicate IsSpace(c: char) {
    c in {' ', '\t', '\n', '\r', '\U{0B}', '\U{0C}', '\U{1C}', '\U{1D}', '\U{1E}', '\U{1F}',
          '\U{85}', '\U{A0}', '\U{1680}', '\U{2028}', '\U{2029}', '\U{202F}', '\U{205F}', '\U{3000}'}
    || '\U{2000}' <= c <= '\U{200A}'
  }

  predicate AllDigits(s: string) { forall i :: 0 <= i < |s| ==> IsDigit(s[i]) }

  /** `str.isdigit()` over ASCII digits: non-empty and all digits. */
  predicate IsDigitString(s: string) { |s| > 0 && AllDigits(s) }

  function UpperChar(c: char): (u: char)
    ensures !IsLower(u)
    ensures IsLower(c) ==> IsUpper(u)
    ensures !IsLower(c) ==> u == c
    ensures IsDigit(u) <==> IsDigit(c)
    ensures IsWord(u) <==> IsWord(c)
    ensures IsSpace(u) <==> IsSpace(c)
  {
    if IsLower(c) then (c as int - 32) as char else c
  }

  function LowerChar(c: char): (l: char)
    ensures !IsUpper(l)
  {
    if IsUpper(c) then (c as int + 32) as char else c
  }

  /** `str.upper()` restricted to ASCII letters. */
  function Upper(s: string): (u: string)
    ensures |u| == |s|
    ensures forall i :: 0 <= i < |s| ==> u[i] == UpperChar(s[i])
    ensures (forall i :: 0 <= i < |s| ==> !IsLower(s[i])) ==> u == s
  {
    seq(|s|, i requires 0 <= i < |s| => UpperChar(s[i]))
  }

  /** `str.lower()` restricted to ASCII letters. */
  function Lower(s: string): (l: string)
    ensures |l| == |s|
    ensures forall i :: 0 <= i < |s| ==> l[i] == LowerChar(s[i])
  {
    seq(|s|, i requires 0 <= i < |s| => LowerChar(s[i]))
  }

  /** `str.lstrip()`. */
  function LStrip(s: string): (r: string)
    ensures |r| <= |s| && r == s[|s| - |r|..]
    ensures r == [] || !IsSpace(r[0])
  {
    if |s| > 0 && IsSpace(s[0]) then LStrip(s[1..]) else s
  }

  /** `str.rstrip()`. */
  function RStrip(s: string): (r: string)
    ensures |r| <= |s| && r == s[..|r|]
    ensures r == [] || !IsSpace(r[|r| - 1])
  {
    if |s| > 0 && IsSpace(s[|s| - 1]) then RStrip(s[..|s| - 1]) else s
  }

  /** `str.strip()`: a slice of `s` with no surrounding white space; text without white space is kept whole. */
  function Strip(s: string): (r: string)
    ensures r == [] || (!IsSpace(r[0]) && !IsSpace(r[|r| - 1]))
    ensures Within(r, s)
    ensures (forall i :: 0 <= i < |s| ==> !IsSpace(s[i])) ==> r == s
  {
    var l := LStrip(s);
    var r := RStrip(l);
    assert r == Piece(s, |s| - |l|, |r|);
    r
  }

  /** The `n` characters of `s` from index `i`. */
  function Piece(s: string, i: nat, n: nat): (p: string)
    requires i + n <= |s|
    ensures |p| == n
  {
    s[i..i + n]
  }

  /** `v` occurs in `s` as a contiguous piece. */
  predicate Within(v: string, s: string) {
    exists i: nat :: i + |v| <= |s| && Piece(s, i, |v|) == v
  }

  /** A slice of `s` is a piece of `s`. */
  lemma SliceWithin(s: string, i: nat, j: nat)
    requires i <= j <= |s|
    ensures Within(s[i..j], s)
  {
    assert Piece(s, i, j - i) == s[i..j];
  }

  /** A piece of a piece of `c` is a piece of `c`. */
  lemma WithinTrans(a: string, b: string, c: string)
    requires Within(a, b) && Within(b, c)
    ensures Within(a, c)
  {
    var i: nat :| i + |a| <= |b| && Piece(b, i, |a|) == a;
    var j: nat :| j + |b| <= |c| && Piece(c, j, |b|) == b;
    assert Piece(c, j + i, |a|) == a by {
      forall k | 0 <= k < |a| ensures c[j + i + k] == a[k] {
        assert a[k] == b[i + k] == c[j + i + k];
      }
    }
  }

  /** The characters of `s` that satisfy `keep`, in order: `re.sub(r'[^...]', '', s)`. */
  function Keep(s: string, keep: char -> bool): (r: string)
    ensures |r| <= |s|
    ensures forall i :: 0 <= i < |r| ==> keep(r[i])
    ensures (forall i :: 0 <= i < |s| ==> keep(s[i])) ==> r == s
  {
    if s == [] then [] else (if keep(s[0]) then [s[0]] else []) + Keep(s[1..], keep)
  }

  /** `s.replace(from, to)` for a single character `from`. */
  function ReplaceChar(s: string, from: char, to: string): (r: string)
    ensures from !in s ==> r == s
  {
    if s == [] then [] else (if s[0] == from then to else [s[0]]) + ReplaceChar(s[1..], from, to)
  }

  /** The text before the first character satisfying `sep` (all of `s` when there is none). */
  function Before(s: string, sep: char -> bool): (r: string)
    ensures |r| <= |s| && r == s[..|r|] && Within(r, s)
    ensures forall i :: 0 <= i < |r| ==> !sep(r[i])
    ensures |r| < |s| ==> sep(s[|r|])
  {
    var r := if s == [] || sep(s[0]) then [] else [s[0]] + Before(s[1..], sep);
    assert Piece(s, 0, |r|) == r;
    r
  }

  /** The text before the first separator, when that separator sits at index `n`. */
  lemma BeforeAt(s: string, sep: char -> bool, n: nat)
    requires n < |s| && sep(s[n]) && forall i :: 0 <= i < n ==> !sep(s[i])
    ensures Before(s, sep) == s[..n]
  {
  }

  /** Length of the longest run of characters satisfying `cls` starting at index `i`. */
  function Run(s: string, i: nat, cls: char -> bool): (n: nat)
    decreases |s| - i
    ensures i + n <= |s| || n == 0
    ensures forall k :: i <= k < i + n ==> k < |s| && cls(s[k])
    ensures i + n < |s| ==> !cls(s[i + n])
  {
    if i < |s| && cls(s[i]) then 1 + Run(s, i + 1, cls) else 0
  }

  /** A run of exactly `n` characters of `cls` at `i`, followed by the end or a character outside `cls`, is the longest run. */
  /** The characters of a run, taken as a slice, all satisfy the class. */
  lemma RunSlice(s: string, i: nat, n: nat, v: string, cls: char -> bool)
    requires n == Run(s, i, cls) > 0 && i + n <= |s| && v == s[i..i + n]
    ensures forall k :: 0 <= k < |v| ==> cls(v[k])
  {
    forall k | 0 <= k < |v| ensures cls(v[k]) {
      assert v[k] == s[i + k];
    }
  }

  lemma {:induction false} RunIs(s: string, i: nat, n: nat, cls: char -> bool)
    requires i + n <= |s|
    requires forall k :: i <= k < i + n ==> cls(s[k])
    requires i + n == |s| || !cls(s[i + n])
    ensures Run(s, i, cls) == n
    decreases n
  {
    if n > 0 {
      RunIs(s, i + 1, n - 1, cls);
    }
  }

  /** The digits of `s[i..j]` are digits of `s`. */
  predicate DigitsBetween(s: string, i: nat, j: nat) {
    i <= j <= |s| && forall k :: i <= k < j ==> IsDigit(s[k])
  }

  lemma DigitsSlice(s: string, i: nat, j: nat)
    requires DigitsBetween(s, i, j)
    ensures AllDigits(s[i..j])
  {
  }

  /** Number of digits at the start of `s[i..]`. */
  function DigitRun(s: string, i: nat): (n: nat)
    ensures i + n <= |s| || n == 0
    ensures forall k :: i <= k < i + n ==> k < |s| && IsDigit(s[k])
    ensures i + n < |s| ==> !IsDigit(s[i + n])
  {
    Run(s, i, IsDigit)
  }

  function DigitValue(c: char): (d: nat)
    requires IsDigit(c)
    ensures d < 10
  {
    c as int - '0' as int
  }

  function DigitChar(d: nat): (c: char)
    requires d < 10
    ensures IsDigit(c) && DigitValue(c) == d
  {
    ('0' as int + d) as char
  }

  /** `int(s)` on a string of decimal digits (leading zeros allowed). */
  function NumberOf(s: string): (n: nat)
    requires AllDigits(s)
  {
    if s == [] then 0 else NumberOf(s[..|s| - 1]) * 10 + DigitValue(s[|s| - 1])
  }

  function Pow10(k: nat): (p: nat)
    ensures p >= 1
  {
    if k == 0 then 1 else 10 * Pow10(k - 1)
  }

  /** A digit string of length `k` stands for a number below `10^k`. */
  lemma {:induction false} NumberOfBound(s: string)
    requires AllDigits(s)
    ensures NumberOf(s) < Pow10(|s|)
  {
    if s != [] {
      NumberOfBound(s[..|s| - 1]);
    }
  }

  lemma {:induction false} NumberOfSnoc(a: string, c: char)
    requires AllDigits(a) && IsDigit(c)
    ensures AllDigits(a + [c]) && NumberOf(a + [c]) == NumberOf(a) * 10 + DigitValue(c)
  {
    assert (a + [c])[..|a|] == a;
  }

  /** The value of a concatenation of digit strings: `int(a + b) == int(a) * 10**len(b) + int(b)`. */
  lemma {:induction false} NumberOfConcat(a: string, b: string)
    requires AllDigits(a) && AllDigits(b)
    ensures AllDigits(a + b) && NumberOf(a + b) == NumberOf(a) * Pow10(|b|) + NumberOf(b)
    decreases |b|
  {
    if b == [] {
      assert a + b == a;
    } else {
      var b' := b[..|b| - 1];
      var c := b[|b| - 1];
      assert a + b == (a + b') + [c];
      assert b == b' + [c];
      NumberOfConcat(a, b');
      NumberOfSnoc(a + b', c);
      NumberOfSnoc(b', c);
      ShiftDigit(NumberOf(a), Pow10(|b'|), NumberOf(b'), DigitValue(c));
    }
  }

  /** Appending a digit shifts both parts of `x * p + y` one place. */
  lemma ShiftDigit(x: int, p: int, y: int, d: int)
    ensures (x * p + y) * 10 + d == x * (10 * p) + (y * 10 + d)
  {
  }

  /** `f"{n:02d}"` for `n < 100`. */
  function Pad2(n: nat): (s: string)
    requires n < 100
    ensures |s| == 2 && AllDigits(s) && NumberOf(s) == n
  {
    var s := [DigitChar(n / 10)] + [DigitChar(n % 10)];
    NumberOfSnoc([], DigitChar(n / 10));
    NumberOfSnoc([DigitChar(n / 10)], DigitChar(n % 10));
    s
  }

  /** Three digits for `n < 1000`, zero-padded. */
  function Pad3(n: nat): (s: string)
    requires n < 1000
    ensures |s| == 3 && AllDigits(s) && NumberOf(s) == n
  {
    var s := [DigitChar(n / 100)] + Pad2(n % 100);
    NumberOfSnoc([], DigitChar(n / 100));
    NumberOfConcat([DigitChar(n / 100)], Pad2(n % 100));
    s
  }

  /** `f"{n:04d}"` for `n < 10000`. */
  function Pad4(n: nat): (s: string)
    requires n < 10000
    ensures |s| == 4 && AllDigits(s) && NumberOf(s) == n
  {
    var s := Pad2(n / 100) + Pad2(n % 100);
    NumberOfConcat(Pad2(n / 100), Pad2(n % 100));
    s
  }

  /** `Pad2` reads back: two digits are the zero-padded text of their value. */
  lemma Pad2Of(x: string)
    requires |x| == 2 && AllDigits(x)
    ensures NumberOf(x) < 100 && Pad2(NumberOf(x)) == x
  {
    var a, b := DigitValue(x[0]), DigitValue(x[1]);
    NumberOfSnoc([], x[0]);
    NumberOfSnoc([x[0]], x[1]);
    assert [x[0]] + [x[1]] == x;
    var n := NumberOf(x);
    assert n == a * 10 + b;
    assert n / 10 == a && n % 10 == b;
    DigitCharOf(x[0]);
    DigitCharOf(x[1]);
  }

  lemma DigitCharOf(c: char)
    requires IsDigit(c)
    ensures DigitChar(DigitValue(c)) == c
  {
  }

  /** `Pad4` reads back: four digits are the zero-padded text of their value. */
  lemma Pad4Of(x: string)
    requires |x| == 4 && AllDigits(x)
    ensures NumberOf(x) < 10000 && Pad4(NumberOf(x)) == x
  {
    var hi, lo := x[..2], x[2..];
    Pad2Of(hi);
    Pad2Of(lo);
    NumberOfConcat(hi, lo);
    assert hi + lo == x;
    assert Pow10(|lo|) == 100;
    SplitHundreds(NumberOf(hi), NumberOf(lo));
  }

  /** `h * 100 + l` splits back into `h` and `l` for `l < 100`. */
  lemma SplitHundreds(h: nat, l: nat)
    requires l < 100
    ensures (h * 100 + l) / 100 == h && (h * 100 + l) % 100 == l
  {
  }

  /** Decimal text of a natural number, without leading zeros (`str(n)`). */
  function NatText(n: nat): (s: string)
    decreases n
    ensures |s| > 0 && AllDigits(s)
  {
    if n < 10 then [DigitChar(n)] else NatText(n / 10) + [DigitChar(n % 10)]
  }

  /** `int(str(n)) == n`. */
  lemma {:induction false} NatTextNumber(n: nat)
    ensures NumberOf(NatText(n)) == n
    decreases n
  {
    if n < 10 {
      assert NatText(n)[..0] == [];
    } else {
      NatTextNumber(n / 10);
      NumberOfSnoc(NatText(n / 10), DigitChar(n % 10));
    }
  }

  /** Index of the first `sep` in `s`, or `|s|` when there is none. */
  function UpTo(s: string, sep: char): (n: nat)
    ensures n <= |s|
    ensures forall i :: 0 <= i < n ==> s[i] != sep
    ensures n < |s| ==> s[n] == sep
  {
    if s == [] || s[0] == sep then 0 else 1 + UpTo(s[1..], sep)
  }

  /** `str.split(sep)`: the pieces between separators, at least one. */
  function Split(s: string, sep: char): (parts: seq<string>)
    decreases |s|
    ensures |parts| >= 1
    ensures sep !in s ==> parts == [s]
  {
    var n := UpTo(s, sep);
    if n == |s| then [s] else [s[..n]] + Split(s[n + 1..], sep)
  }

  /** Joining the pieces of a split with the separator gives the text back. */
  lemma {:induction false} SplitJoin(s: string, sep: char)
    decreases |s|
    ensures Join(Split(s, sep), sep) == s
  {
    var n := UpTo(s, sep);
    if n < |s| {
      var rest := s[n + 1..];
      SplitStep(s, sep);
      JoinCons(s[..n], Split(rest, sep), sep);
      SplitJoin(rest, sep);
    }
  }

  lemma SplitStep(s: string, sep: char)
    requires UpTo(s, sep) < |s|
    ensures var n := UpTo(s, sep);
      Split(s, sep) == [s[..n]] + Split(s[n + 1..], sep) && s == s[..n] + [sep] + s[n + 1..]
  {
    var n := UpTo(s, sep);
    Around(s, n);
  }

  lemma Around(s: string, n: nat)
    requires n < |s|
    ensures s == s[..n] + [s[n]] + s[n + 1..]
  {
    assert [s[n]] + s[n + 1..] == s[n..];
  }

  lemma JoinCons(a: string, tail: seq<string>, sep: char)
    requires |tail| >= 1
    ensures Join([a] + tail, sep) == a + [sep] + Join(tail, sep)
  {
    assert ([a] + tail)[1..] == tail;
  }

  /** `sep.join(parts)`. */
  function Join(parts: seq<string>, sep: char): string
    requires |parts| >= 1
  {
    if |parts| == 1 then parts[0] else parts[0] + [sep] + Join(parts[1..], sep)
  }

  /** A piece free of the separator, followed by the separator, is split off whole. */
  lemma SplitCons(a: string, sep: char, rest: string)
    requires sep !in a
    ensures Split(a + [sep] + rest, sep) == [a] + Split(rest, sep)
  {
    var s := a + [sep] + rest;
    assert s[..|a|] == a && s[|a|] == sep;
    assert UpTo(s, sep) == |a|;
    assert s[|a| + 1..] == rest;
  }

  /** Splitting the join of separator-free pieces gives the pieces back. */
  lemma {:induction false} SplitOfJoin(parts: seq<string>, sep: char)
    requires |parts| >= 1 && forall i :: 0 <= i < |parts| ==> sep !in parts[i]
    decreases |parts|
    ensures Split(Join(parts, sep), sep) == parts
  {
    if |parts| > 1 {
      var tail := parts[1..];
      assert forall i :: 0 <= i < |tail| ==> tail[i] == parts[i + 1];
      SplitOfJoin(tail, sep);
      SplitCons(parts[0], sep, Join(tail, sep));
      assert [parts[0]] + tail == parts;
    }
  }
}
