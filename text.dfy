/** String primitives the converter relies on: Python's whitespace test and `str.strip`,
    substring search, ASCII decimal digits, and the `str(n)` / `f"{n:02d}"` renderings. */
module Text {
  import opened Wrappers

  /** `str.isspace` for one character (also what `\s` matches in a `str` pattern). */
  predicate IsSpace(c: char) {
    c == ' ' || c == '\t' || c == '\n' || c == '\r' || c == '\U{B}' || c == '\U{C}'
    || ('\U{1C}' <= c <= '\U{1F}') || c == '\U{85}' || c == '\U{A0}' || c == '\U{1680}'
    || ('\U{2000}' <= c <= '\U{200A}') || c == '\U{2028}' || c == '\U{2029}'
    || c == '\U{202F}' || c == '\U{205F}' || c == '\U{3000}'
  }

  predicate AllSpaces(w: string) {
    forall k :: 0 <= k < |w| ==> IsSpace(w[k])
  }

  predicate IsDigit(c: char) {
    '0' <= c <= '9'
  }

  predicate AllDigits(s: string) {
    forall i :: 0 <= i < |s| ==> IsDigit(s[i])
  }

  /** `pat` occurs in `s` starting at index `i`. */
  predicate IsAt(s: string, i: nat, pat: string) {
    i + |pat| <= |s| && s[i..i + |pat|] == pat
  }

  predicate StartsWith(s: string, prefix: string) {
    IsAt(s, 0, prefix)
  }

  predicate EndsWith(s: string, suffix: string) {
    |suffix| <= |s| && s[|s| - |suffix|..] == suffix
  }

  /** `pat` occurs nowhere in `s`. */
  predicate Free(s: string, pat: string) {
    forall k :: 0 <= k <= |s| ==> !IsAt(s, k, pat)
  }

  /** The first occurrence of `pat` at or after `from` (`str.find(pat, from)`). */
  function FindFrom(s: string, pat: string, from: nat): (r: Option<nat>)
    decreases |s| - from
    ensures r.Some? ==> from <= r.value && IsAt(s, r.value, pat)
    ensures r.Some? ==> forall k :: from <= k < r.value ==> !IsAt(s, k, pat)
    ensures r.None? ==> forall k :: from <= k ==> !IsAt(s, k, pat)
  {
    if from + |pat| > |s| then None
    else if IsAt(s, from, pat) then Some(from)
    else FindFrom(s, pat, from + 1)
  }

  /** The first `c` at or after `from`. */
  function FindChar(s: string, c: char, from: nat): (r: Option<nat>)
    decreases |s| - from
    ensures r.Some? ==> from <= r.value < |s| && s[r.value] == c
    ensures r.Some? ==> forall k :: from <= k < r.value ==> s[k] != c
    ensures r.None? ==> forall k :: from <= k < |s| ==> s[k] != c
  {
    if from >= |s| then None
    else if s[from] == c then Some(from)
    else FindChar(s, c, from + 1)
  }

  /** `c` does not occur in `s`. */
  predicate NoChar(s: string, c: char) {
    forall i :: 0 <= i < |s| ==> s[i] != c
  }

  /** An occurrence inside a slice is an occurrence in the whole string. */
  lemma IsAtSlice(s: string, a: nat, b: nat, k: nat, pat: string)
    requires a <= b <= |s|
    requires IsAt(s[a..b], k, pat)
    ensures IsAt(s, a + k, pat)
  {
    var t := s[a..b];
    assert k + |pat| <= |t|;
    assert forall i | k <= i < k + |pat| :: t[i] == s[a + i];
    assert s[a + k..a + k + |pat|] == t[k..k + |pat|];
  }

  /** The characterisation of `FindFrom` determines it: the first occurrence is the answer. */
  lemma FindFromIs(s: string, pat: string, from: nat, p: nat)
    requires from <= p && IsAt(s, p, pat)
    requires forall k :: from <= k < p ==> !IsAt(s, k, pat)
    ensures FindFrom(s, pat, from) == Some(p)
  {
  }

  /** Likewise for `FindChar`. */
  lemma FindCharIs(s: string, c: char, from: nat, p: nat)
    requires from <= p < |s| && s[p] == c
    requires forall k :: from <= k < p ==> s[k] != c
    ensures FindChar(s, c, from) == Some(p)
  {
  }

  /** End of the maximal run of whitespace that starts at `i` (the greedy `\s*`). */
  function SpanSpaces(s: string, i: nat): (j: nat)
    requires i <= |s|
    decreases |s| - i
    ensures i <= j <= |s|
    ensures forall k :: i <= k < j ==> IsSpace(s[k])
    ensures j == |s| || !IsSpace(s[j])
  {
    if i < |s| && IsSpace(s[i]) then SpanSpaces(s, i + 1) else i
  }

  /** End of the maximal run of decimal digits that starts at `i` (the greedy `\d*`). */
  function SpanDigits(s: string, i: nat): (j: nat)
    requires i <= |s|
    decreases |s| - i
    ensures i <= j <= |s|
    ensures forall k :: i <= k < j ==> IsDigit(s[k])
    ensures j == |s| || !IsDigit(s[j])
  {
    if i < |s| && IsDigit(s[i]) then SpanDigits(s, i + 1) else i
  }

  /** The characterisation of `SpanSpaces` determines it. */
  lemma SpanSpacesIs(s: string, i: nat, j: nat)
    requires i <= j <= |s|
    requires forall k :: i <= k < j ==> IsSpace(s[k])
    requires j == |s| || !IsSpace(s[j])
    ensures SpanSpaces(s, i) == j
  {
  }

  /** The characterisation of `SpanDigits` determines it. */
  lemma SpanDigitsIs(s: string, i: nat, j: nat)
    requires i <= j <= |s|
    requires forall k :: i <= k < j ==> IsDigit(s[k])
    requires j == |s| || !IsDigit(s[j])
    ensures SpanDigits(s, i) == j
  {
  }

  /** Regrouping a concatenation of four. */
  lemma Regroup(x: string, y: string, z: string, w: string)
    ensures x + y + z + w == x + (y + z + w)
  {
  }

  /** The outer parts of a concatenation of three, recovered by slicing. */
  lemma Slices3(a: string, b: string, c: string)
    ensures |a + b + c| == |a| + |b| + |c|
    ensures (a + b + c)[..|a|] == a && (a + b + c)[|a| + |b|..] == c
  {
  }

  /** A whitespace run `w` between `u` and a text `v` that does not start with whitespace is
      exactly what `SpanSpaces` skips. */
  lemma SpanSpacesOver(u: string, w: string, v: string)
    requires AllSpaces(w)
    requires v == [] || !IsSpace(v[0])
    ensures SpanSpaces(u + w + v, |u|) == |u| + |w|
  {
    var s := u + w + v;
    assert forall k :: |u| <= k < |u| + |w| ==> s[k] == w[k - |u|];
    assert |u| + |w| < |s| ==> s[|u| + |w|] == v[0];
    SpanSpacesIs(s, |u|, |u| + |w|);
  }

  /** A whitespace run `w` found at `a`, followed by something else, is what `SpanSpaces`
      skips from `a`. */
  lemma SpacesAt(s: string, a: nat, w: string)
    requires a + |w| <= |s| && s[a..a + |w|] == w && AllSpaces(w)
    requires a + |w| == |s| || !IsSpace(s[a + |w|])
    ensures SpanSpaces(s, a) == a + |w|
  {
    forall k | a <= k < a + |w| ensures IsSpace(s[k]) {
      assert s[k] == s[a..a + |w|][k - a];
    }
    SpanSpacesIs(s, a, a + |w|);
  }

  /** Likewise for a run of digits and `SpanDigits`. */
  lemma SpanDigitsOver(u: string, w: string, v: string)
    requires AllDigits(w)
    requires v == [] || !IsDigit(v[0])
    ensures SpanDigits(u + w + v, |u|) == |u| + |w|
  {
    var s := u + w + v;
    assert forall k :: |u| <= k < |u| + |w| ==> s[k] == w[k - |u|];
    assert |u| + |w| < |s| ==> s[|u| + |w|] == v[0];
    SpanDigitsIs(s, |u|, |u| + |w|);
  }

  /** A stretch of `s` in which no occurrence of `pat` starts is free of it. */
  lemma FreeBetween(s: string, pat: string, a: nat, b: nat)
    requires a <= b <= |s| && |pat| > 0
    requires forall k :: a <= k < b ==> !IsAt(s, k, pat)
    ensures Free(s[a..b], pat)
  {
    forall k | 0 <= k <= b - a ensures !IsAt(s[a..b], k, pat) {
      if k + |pat| <= b - a {
        assert !IsAt(s, a + k, pat);
        var t := s[a..b];
        assert forall i | k <= i < k + |pat| :: t[i] == s[a + i];
        assert t[k..k + |pat|] == s[a + k..a + k + |pat|];
      }
    }
  }

  /** An occurrence inside a stretch of `s` is an occurrence in that slice. */
  lemma IsAtInSlice(s: string, a: nat, b: nat, k: nat, pat: string)
    requires a <= k && k + |pat| <= b <= |s|
    ensures IsAt(s, k, pat) ==> IsAt(s[a..b], k - a, pat)
  {
    var t := s[a..b];
    assert forall i | k - a <= i < k - a + |pat| :: t[i] == s[a + i];
    assert t[k - a..k - a + |pat|] == s[k..k + |pat|];
  }

  /** When the first character of `pat` does not recur in it, an occurrence at `c` after a
      stretch free of `pat` is the first one from the stretch's start. */
  lemma FindAfterFree(s: string, pat: string, a: nat, c: nat)
    requires a <= c && IsAt(s, c, pat) && Free(s[a..c], pat)
    requires forall j :: 0 < j < |pat| ==> pat[j] != pat[0]
    ensures FindFrom(s, pat, a) == Some(c)
  {
    forall k | a <= k < c ensures !IsAt(s, k, pat) {
      if k + |pat| <= c {
        IsAtInSlice(s, a, c, k, pat);
      } else if k + |pat| <= |s| {
        assert s[c] == s[c..c + |pat|][0];
        assert s[k..k + |pat|][c - k] == s[c];
      }
    }
    FindFromIs(s, pat, a, c);
  }

  /** A string free of `pat` has no occurrence in any slice either. */
  lemma FreeSlice(s: string, a: nat, b: nat, pat: string)
    requires a <= b <= |s| && Free(s, pat)
    ensures Free(s[a..b], pat)
  {
    forall k | 0 <= k <= b - a ensures !IsAt(s[a..b], k, pat) {
      if IsAt(s[a..b], k, pat) {
        IsAtSlice(s, a, b, k, pat);
        assert false;
      }
    }
  }

  /** Start of the maximal run of whitespace that ends at `j`, going back no further than `lo`. */
  function SpanSpacesBack(s: string, j: nat, lo: nat): (i: nat)
    requires lo <= j <= |s|
    decreases j
    ensures lo <= i <= j
    ensures forall k :: i <= k < j ==> IsSpace(s[k])
    ensures i == lo || !IsSpace(s[i - 1])
  {
    if j > lo && IsSpace(s[j - 1]) then SpanSpacesBack(s, j - 1, lo) else j
  }

  /** Neither end of `s` is whitespace. */
  predicate IsStripped(s: string) {
    s == [] || (!IsSpace(s[0]) && !IsSpace(s[|s| - 1]))
  }

  /** `s.strip()`: `s` with every leading and trailing whitespace character removed. */
  function Strip(s: string): (r: string)
    ensures IsStripped(r)
    ensures IsStripped(s) ==> r == s
    ensures exists a, b :: 0 <= a <= b <= |s| && r == s[a..b] && AllSpaces(s[..a]) && AllSpaces(s[b..])
  {
    var a := SpanSpaces(s, 0);
    var b := SpanSpacesBack(s, |s|, a);
    assert IsStripped(s) && s != [] ==> a == 0 && b == |s|;
    assert AllSpaces(s[..a]) && AllSpaces(s[b..]);
    s[a..b]
  }

  /** Stripping leaves nothing exactly when the text is all whitespace. */
  lemma StripEmpty(s: string)
    ensures Strip(s) == [] <==> AllSpaces(s)
  {
    var a := SpanSpaces(s, 0);
    if AllSpaces(s) {
      assert a == |s|;
    }
  }

  /** Whitespace before a stripped, non-empty text is all that stripping removes. */
  lemma StripSpacesBefore(w: string, t: string)
    requires AllSpaces(w)
    requires t != [] && IsStripped(t)
    ensures Strip(w + t) == t
  {
    var s := w + t;
    SpanSpacesOver([], w, t);
    assert [] + w == w;
    Halves(w, t);
    StripBetween(s, |w|, |s|);
  }

  /** The two halves of a concatenation, and its last character. */
  lemma Halves(w: string, t: string)
    requires t != []
    ensures (w + t)[|w|..] == t && (w + t)[|w + t| - 1] == t[|t| - 1]
  {
  }

  /** `Strip` from where its two runs of whitespace end. */
  lemma StripBetween(s: string, a: nat, b: nat)
    requires a < b == |s| && SpanSpaces(s, 0) == a && !IsSpace(s[b - 1])
    ensures Strip(s) == s[a..]
  {
    assert SpanSpacesBack(s, b, a) == b;
  }

  /** Stripping never introduces an occurrence of `pat` or of `c`. */
  lemma StripKeepsAbsence(s: string, pat: string, c: char)
    ensures Free(s, pat) ==> Free(Strip(s), pat)
    ensures NoChar(s, c) ==> NoChar(Strip(s), c)
  {
    var a := SpanSpaces(s, 0);
    var b := SpanSpacesBack(s, |s|, a);
    if Free(s, pat) {
      FreeSlice(s, a, b, pat);
    }
  }

  function DigitChar(d: nat): char
    requires d < 10
  {
    ('0' as int + d) as char
  }

  function DigitValue(c: char): nat
    requires IsDigit(c)
  {
    c as int - '0' as int
  }

  /** `int(s)` for a run of ASCII decimal digits (leading zeros allowed). */
  function ParseNat(s: string): nat
    requires AllDigits(s)
  {
    if s == [] then 0 else 10 * ParseNat(s[..|s| - 1]) + DigitValue(s[|s| - 1])
  }

  /** `int(m.group(1))` for `re.match(r'^(\d+)', s)`: the number the leading digits spell,
      or nothing when `s` does not start with a digit. */
  function LeadingNumber(s: string): (r: Option<nat>)
    ensures r.Some? <==> s != [] && IsDigit(s[0])
  {
    var j := SpanDigits(s, 0);
    if j == 0 then None else Some(ParseNat(s[..j]))
  }

  /** A text made of digits and then something that does not start with a digit leads with
      the number those digits spell. */
  lemma LeadingNumberOf(s: string, d: string, rest: string)
    requires s == d + rest && d != [] && AllDigits(d)
    requires rest == [] || !IsDigit(rest[0])
    ensures LeadingNumber(s) == Some(ParseNat(d))
  {
    SpanDigitsOver([], d, rest);
    assert [] + d + rest == s;
    assert s[..|d|] == d;
  }

  /** Decimal digits of `n` without leading zeros (`str(n)` for `n >= 0`). */
  function Digits(n: nat): (r: string)
    ensures |r| >= 1 && AllDigits(r)
    ensures r[0] == '0' ==> n == 0
    ensures ParseNat(r) == n
    ensures n < 10 <==> |r| == 1
    ensures 10 <= n < 100 <==> |r| == 2
  {
    if n < 10 then [DigitChar(n)]
    else
      var r := Digits(n / 10) + [DigitChar(n % 10)];
      assert r[..|r| - 1] == Digits(n / 10);
      r
  }

  /** `str(n)`. */
  function IntToString(n: int): string {
    if n < 0 then "-" + Digits(-n) else Digits(n)
  }

  /** `f"{n:02d}"`: at least two characters, zero-padded on the left, never truncated. */
  function Pad2(n: int): (r: string)
    ensures n >= 0 ==> AllDigits(r) && ParseNat(r) == n
    ensures n >= 0 ==> |r| == if |Digits(n)| < 2 then 2 else |Digits(n)|
    ensures n >= 0 ==> (r[0] == '0' <==> n < 10)
    ensures n < 0 ==> r == "-" + Digits(-n)
  {
    if n < 0 then "-" + Digits(-n)
    else if n < 10 then
      var r := "0" + Digits(n);
      assert r[..1] == "0";
      r
    else Digits(n)
  }

  /** `sep.join(parts)`. */
  function Join(parts: seq<string>, sep: string): string {
    if parts == [] then ""
    else if |parts| == 1 then parts[0]
    else parts[0] + sep + Join(parts[1..], sep)
  }

  /** Joining a first part onto the rest. */
  lemma JoinCons(head: string, rest: seq<string>, sep: string)
    requires rest != []
    ensures Join([head] + rest, sep) == head + sep + Join(rest, sep)
  {
    assert ([head] + rest)[1..] == rest;
  }

  /** A string is what comes before an occurrence of `pat`, `pat`, and what follows. */
  lemma CutAt(s: string, p: nat, pat: string)
    requires IsAt(s, p, pat)
    ensures s[..p] + pat + s[p + |pat|..] == s
  {
  }

  /** Python's `<` on `str`: code-point lexicographic order, a proper prefix first. */
  predicate StrLess(a: string, b: string) {
    if a == [] then b != []
    else if b == [] then false
    else if a[0] != b[0] then a[0] < b[0]
    else StrLess(a[1..], b[1..])
  }

  lemma {:induction false} StrLessIrreflexive(a: string)
    ensures !StrLess(a, a)
  {
    if a != [] {
      StrLessIrreflexive(a[1..]);
    }
  }

  lemma {:induction false} StrLessAsymmetric(a: string, b: string)
    requires StrLess(a, b)
    ensures !StrLess(b, a)
  {
    if a != [] && b != [] && a[0] == b[0] {
      StrLessAsymmetric(a[1..], b[1..]);
    }
  }

  lemma {:induction false} StrLessTransitive(a: string, b: string, c: string)
    requires StrLess(a, b) && StrLess(b, c)
    ensures StrLess(a, c)
  {
    if a != [] && b != [] && c != [] && a[0] == b[0] && b[0] == c[0] {
      StrLessTransitive(a[1..], b[1..], c[1..]);
    }
  }

  /** Any two different strings are ordered one way or the other. */
  lemma {:induction false} StrLessTotal(a: string, b: string)
    requires a != b
    ensures StrLess(a, b) || StrLess(b, a)
  {
    if a != [] && b != [] && a[0] == b[0] {
      assert a == [a[0]] + a[1..] && b == [b[0]] + b[1..];
      StrLessTotal(a[1..], b[1..]);
    }
  }

  /** Comparing two strings that start with the same text compares what follows it. */
  lemma {:induction false} StrLessCommonPrefix(x: string, y: string, z: string)
    ensures StrLess(x + y, x + z) == StrLess(y, z)
  {
    if x != [] {
      assert (x + y)[1..] == x[1..] + y && (x + z)[1..] == x[1..] + z;
      StrLessCommonPrefix(x[1..], y, z);
    } else {
      assert x + y == y && x + z == z;
    }
  }

  /** Between different texts of the same length, what follows does not matter. */
  lemma {:induction false} StrLessSameLength(x: string, x': string, y: string, y': string)
    requires |x| == |x'| && x != x'
    ensures StrLess(x + y, x' + y') == StrLess(x, x')
  {
    assert x != [] && x' != [];
    assert (x + y)[0] == x[0] && (x' + y')[0] == x'[0];
    if x[0] == x'[0] {
      assert x == [x[0]] + x[1..] && x' == [x'[0]] + x'[1..];
      assert (x + y)[1..] == x[1..] + y && (x' + y')[1..] == x'[1..] + y';
      StrLessSameLength(x[1..], x'[1..], y, y');
    }
  }
}
