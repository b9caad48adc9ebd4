/** The branch-name slug `re.sub(r'[^a-z0-9]+', '-', s.lower()).strip('-')`. */
module Slug {
  import opened Text

  /** The characters the pattern `[a-z0-9]` keeps. */
  predicate SlugChar(c: char) {
    'a' <= c <= 'z' || '0' <= c <= '9'
  }

  /** `str.lower` on one character, as far as a slug can tell. ASCII capitals become small
      letters, KELVIN SIGN becomes `k` and LATIN CAPITAL LETTER I WITH DOT ABOVE becomes `i`
      followed by COMBINING DOT ABOVE; these are the only characters whose lower-case form
      holds an ASCII letter or digit, so every other character is kept as it is (whatever its
      lower-case form, it falls into a run that becomes `-`). */
  function LowerChar(c: char): string {
    if 'A' <= c <= 'Z' then [(c as int + 32) as char]
    else if c == '\U{212A}' then "k"
    else if c == '\U{130}' then "i\U{307}"
    else [c]
  }

  /** `s.lower()`, character by character. */
  function Lower(s: string): string {
    if s == [] then [] else Lower(s[..|s| - 1]) + LowerChar(s[|s| - 1])
  }

  /** `re.sub(r'[^a-z0-9]+', '-', t)`: every maximal run of other characters becomes one `-`.
      The text so far ends in `-` exactly when its last character was outside the class. */
  function Hyphenate(t: string): (r: string)
    ensures |r| <= |t|
    ensures r == [] <==> t == []
    ensures r != [] ==> (r[|r| - 1] == '-' <==> !SlugChar(t[|t| - 1]))
  {
    if t == [] then []
    else
      var h := Hyphenate(t[..|t| - 1]);
      var c := t[|t| - 1];
      if SlugChar(c) then h + [c]
      else if h != [] && h[|h| - 1] == '-' then h
      else h + ['-']
  }

  /** The index of the first character at or after `i` that is not `-`. */
  function SkipHyphens(t: string, i: nat): (j: nat)
    requires i <= |t|
    decreases |t| - i
    ensures i <= j <= |t|
    ensures forall k :: i <= k < j ==> t[k] == '-'
    ensures j == |t| || t[j] != '-'
  {
    if i < |t| && t[i] == '-' then SkipHyphens(t, i + 1) else i
  }

  /** The index just past the last character before `j`, and not before `lo`, that is not `-`. */
  function SkipHyphensBack(t: string, j: nat, lo: nat): (i: nat)
    requires lo <= j <= |t|
    decreases j
    ensures lo <= i <= j
    ensures forall k :: i <= k < j ==> t[k] == '-'
    ensures i == lo || t[i - 1] != '-'
  {
    if j > lo && t[j - 1] == '-' then SkipHyphensBack(t, j - 1, lo) else j
  }

  /** Every character of `t` is `-`. */
  predicate AllHyphens(t: string) {
    forall k :: 0 <= k < |t| ==> t[k] == '-'
  }

  /** `t.strip('-')`: `t` with the runs of `-` at both ends removed, and nothing else. */
  function StripHyphens(t: string): (r: string)
    ensures r == [] || (r[0] != '-' && r[|r| - 1] != '-')
    ensures exists a, b :: 0 <= a <= b <= |t| && r == t[a..b] && AllHyphens(t[..a]) && AllHyphens(t[b..])
  {
    var a := SkipHyphens(t, 0);
    var b := SkipHyphensBack(t, |t|, a);
    assert AllHyphens(t[..a]) && AllHyphens(t[b..]);
    t[a..b]
  }

  /** The slug rule; what it produces is a slug (`IsSlug`, below). */
  function Slugify(s: string): (r: string)
    ensures IsSlug(r)
  {
    var h := Hyphenate(Lower(s));
    HyphenateShape(Lower(s));
    var a := SkipHyphens(h, 0);
    ShapeSlice(h, a, SkipHyphensBack(h, |h|, a));
    StripHyphens(h)
  }

  /** Characters from `[a-z0-9-]` only. */
  predicate SlugAlphabet(t: string) {
    forall k :: 0 <= k < |t| ==> SlugChar(t[k]) || t[k] == '-'
  }

  /** No two `-` next to each other. */
  predicate SingleHyphens(t: string) {
    forall k :: 0 <= k < |t| - 1 ==> t[k] != '-' || t[k + 1] != '-'
  }

  /** A slug: `[a-z0-9-]` only, no `-` at either end, none doubled. */
  predicate IsSlug(t: string) {
    SlugAlphabet(t) && SingleHyphens(t) && (t == [] || (t[0] != '-' && t[|t| - 1] != '-'))
  }

  /** The letters and digits of `t`, in order. */
  function Letters(t: string): string {
    if t == [] then [] else Letters(t[..|t| - 1]) + (if SlugChar(t[|t| - 1]) then [t[|t| - 1]] else [])
  }

  // ---------------------------------------------------------------------------------------
  // The shape of a slug

  /** `Hyphenate` writes only `[a-z0-9-]` and never two `-` in a row. */
  lemma {:induction false} HyphenateShape(t: string)
    ensures SlugAlphabet(Hyphenate(t)) && SingleHyphens(Hyphenate(t))
  {
    if t != [] {
      HyphenateShape(t[..|t| - 1]);
    }
  }

  /** A stretch of a text of that shape keeps the shape. */
  lemma ShapeSlice(t: string, a: nat, b: nat)
    requires a <= b <= |t| && SlugAlphabet(t) && SingleHyphens(t)
    ensures SlugAlphabet(t[a..b]) && SingleHyphens(t[a..b])
  {
    var r := t[a..b];
    assert forall k :: 0 <= k < |r| ==> r[k] == t[a + k];
  }

  /** What the slug rule produces is a slug. */
  lemma SlugifyIsSlug(s: string)
    ensures IsSlug(Slugify(s))
  {
  }

  // ---------------------------------------------------------------------------------------
  // A slug is left as it is

  /** A text is what comes before its last character, then that character. */
  lemma Snoc(t: string)
    requires t != []
    ensures t == t[..|t| - 1] + [t[|t| - 1]]
  {
  }

  lemma AlphabetInit(t: string)
    requires t != [] && SlugAlphabet(t)
    ensures SlugAlphabet(t[..|t| - 1]) && (SlugChar(t[|t| - 1]) || t[|t| - 1] == '-')
  {
    var i := t[..|t| - 1];
    assert forall k :: 0 <= k < |i| ==> i[k] == t[k];
  }

  /** Lower-casing leaves `[a-z0-9-]` alone. */
  lemma {:induction false} LowerKeepsSlugAlphabet(t: string)
    requires SlugAlphabet(t)
    ensures Lower(t) == t
  {
    if t != [] {
      var i := t[..|t| - 1];
      AlphabetInit(t);
      LowerKeepsSlugAlphabet(i);
      Snoc(t);
    }
  }

  /** Hyphenating a text with single `-` and no other characters outside the class keeps it:
      each `-` is a run of its own. */
  lemma {:induction false} HyphenateKeepsSingleHyphens(t: string)
    requires SlugAlphabet(t) && SingleHyphens(t)
    ensures Hyphenate(t) == t
  {
    if t != [] {
      var i := t[..|t| - 1];
      ShapeSlice(t, 0, |t| - 1);
      HyphenateKeepsSingleHyphens(i);
      Snoc(t);
    }
  }

  /** Stripping `-` from a text that neither starts nor ends with one keeps it. */
  lemma StripHyphensKeeps(t: string)
    requires t == [] || (t[0] != '-' && t[|t| - 1] != '-')
    ensures StripHyphens(t) == t
  {
    if t != [] {
      assert SkipHyphens(t, 0) == 0;
      assert SkipHyphensBack(t, |t|, 0) == |t|;
    }
  }

  /** A slug is its own slug. */
  lemma SlugifyKeepsSlug(t: string)
    requires IsSlug(t)
    ensures Slugify(t) == t
  {
    LowerKeepsSlugAlphabet(t);
    HyphenateKeepsSingleHyphens(t);
    StripHyphensKeeps(t);
  }

  /** Slugging is idempotent. */
  lemma SlugifyIdempotent(s: string)
    ensures Slugify(Slugify(s)) == Slugify(s)
  {
    SlugifyIsSlug(s);
    SlugifyKeepsSlug(Slugify(s));
  }

  // ---------------------------------------------------------------------------------------
  // The letters and digits survive, in order

  /** The last character of a concatenation, and what comes before it. */
  lemma CutLast(u: string, v: string)
    requires v != []
    ensures (u + v)[..|u + v| - 1] == u + v[..|v| - 1]
    ensures (u + v)[|u + v| - 1] == v[|v| - 1]
  {
  }

  /** A text cut in three. */
  lemma Thirds(t: string, a: nat, b: nat)
    requires a <= b <= |t|
    ensures t == t[..a] + t[a..b] + t[b..]
  {
  }

  /** `Letters` of a concatenation. */
  lemma {:induction false} LettersAppend(u: string, v: string)
    ensures Letters(u + v) == Letters(u) + Letters(v)
  {
    if v != [] {
      var i := v[..|v| - 1];
      CutLast(u, v);
      LettersAppend(u, i);
    } else {
      assert u + v == u;
    }
  }

  /** Hyphenating drops only characters outside the class. */
  lemma {:induction false} HyphenateKeepsLetters(t: string)
    ensures Letters(Hyphenate(t)) == Letters(t)
  {
    if t != [] {
      var i := t[..|t| - 1];
      var c := t[|t| - 1];
      HyphenateKeepsLetters(i);
      var h := Hyphenate(i);
      if SlugChar(c) {
        LettersAppend(h, [c]);
      } else if !(h != [] && h[|h| - 1] == '-') {
        LettersAppend(h, ['-']);
      }
    }
  }

  /** A run of `-` holds no letter. */
  lemma {:induction false} LettersOfHyphens(t: string)
    requires forall k :: 0 <= k < |t| ==> t[k] == '-'
    ensures Letters(t) == []
  {
    if t != [] {
      LettersOfHyphens(t[..|t| - 1]);
    }
  }

  /** A stretch of `-` holds no letter. */
  lemma LettersOfHyphenRun(t: string, lo: nat, hi: nat)
    requires lo <= hi <= |t| && forall k :: lo <= k < hi ==> t[k] == '-'
    ensures Letters(t[lo..hi]) == []
  {
    var r := t[lo..hi];
    assert forall k :: 0 <= k < |r| ==> r[k] == t[lo + k];
    LettersOfHyphens(r);
  }

  /** Letters of a text between two runs of `-`. */
  lemma LettersBetween(x: string, y: string, z: string)
    requires Letters(x) == [] && Letters(z) == []
    ensures Letters(x + y + z) == Letters(y)
  {
    LettersAppend(x + y, z);
    LettersAppend(x, y);
  }

  /** Stripping `-` drops no letter. */
  lemma StripHyphensKeepsLetters(t: string)
    ensures Letters(StripHyphens(t)) == Letters(t)
  {
    var a := SkipHyphens(t, 0);
    var b := SkipHyphensBack(t, |t|, a);
    LettersOfHyphenRun(t, 0, a);
    LettersOfHyphenRun(t, b, |t|);
    assert t[0..a] == t[..a] && t[b..|t|] == t[b..];
    Thirds(t, a, b);
    LettersBetween(t[..a], t[a..b], t[b..]);
  }

  /** The slug holds the letters and digits of the lower-cased text, in order, and nothing but
      them and single `-`. */
  lemma SlugifyKeepsLetters(s: string)
    ensures Letters(Slugify(s)) == Letters(Lower(s))
  {
    HyphenateKeepsLetters(Lower(s));
    StripHyphensKeepsLetters(Hyphenate(Lower(s)));
  }

  // ---------------------------------------------------------------------------------------
  // Where the `-` go

  /** `Lower` of a concatenation. */
  lemma {:induction false} LowerAppend(u: string, v: string)
    ensures Lower(u + v) == Lower(u) + Lower(v)
  {
    if v != [] {
      var i := v[..|v| - 1];
      CutLast(u, v);
      LowerAppend(u, i);
    } else {
      assert u + v == u;
    }
  }

  /** A text that starts with a letter or digit is hyphenated on its own: no run crosses into it. */
  lemma {:induction false} HyphenateAppend(p: string, v: string)
    requires v != [] && SlugChar(v[0])
    ensures Hyphenate(p + v) == Hyphenate(p) + Hyphenate(v)
  {
    var i := v[..|v| - 1];
    CutLast(p, v);
    if i != [] {
      HyphenateAppend(p, i);
    }
  }

  /** No letter or digit in `g`. */
  predicate NoLetters(g: string) {
    forall k :: 0 <= k < |g| ==> !SlugChar(g[k])
  }

  /** A non-empty run of other characters after a letter (or at the start) becomes one `-`. */
  lemma {:induction false} HyphenateGap(p: string, g: string)
    requires g != [] && NoLetters(g)
    requires p == [] || SlugChar(p[|p| - 1])
    ensures Hyphenate(p + g) == Hyphenate(p) + "-"
  {
    var i := g[..|g| - 1];
    CutLast(p, g);
    if i != [] {
      HyphenateGap(p, i);
    }
  }

  /** Two slugs with a gap of other characters between them give the two joined by one `-`. */
  lemma SlugifyJoin(s: string, u: string, w: string, v: string)
    requires s == u + w + v
    requires IsSlug(u) && u != [] && IsSlug(v) && v != []
    requires w != [] && NoLetters(Lower(w))
    ensures Slugify(s) == u + "-" + v
  {
    LowerAppend(u + w, v);
    LowerAppend(u, w);
    LowerKeepsSlugAlphabet(u);
    LowerKeepsSlugAlphabet(v);
    var g := Lower(w);
    assert g != [] by {
      LowerNonEmpty(w);
    }
    HyphenateAppend(u + g, v);
    HyphenateGap(u, g);
    HyphenateKeepsSingleHyphens(u);
    HyphenateKeepsSingleHyphens(v);
    StripHyphensKeeps(u + "-" + v);
  }

  /** Lower-casing never empties a text. */
  lemma LowerNonEmpty(w: string)
    requires w != []
    ensures Lower(w) != []
  {
  }
}
