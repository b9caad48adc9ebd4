/** The project's name and description, read from `PROJECT.md`. The name is the group of
    `^#\s+(?:Project:\s*)?(.+)$` (multi-line mode: `^` at every line start, `.` never a
    newline); the description is the group of `^#.*?\n\n(.+?)(?:\n\n|$)` (`.` also a
    newline). Both searches are written out as the backtracking the regular-expression engine
    does. */
module ProjectInfo {
  import opened Wrappers
  import opened Text

  const UnnamedProject := "Unnamed Project"
  /** The description when there is no `PROJECT.md` at all. */
  const NoProjectFile := "No description available"
  /** The description when `PROJECT.md` has no paragraph after its heading. */
  const NoParagraph := "No description"

  // ---------------------------------------------------------------------------------------
  // The heading

  /** Where the line holding index `u` ends: the next newline, or the end of the text. */
  function LineEnd(s: string, u: nat): (e: nat)
    requires u <= |s|
    ensures u <= e <= |s| && (e == |s| || s[e] == '\n')
    ensures forall k :: u <= k < e ==> s[k] != '\n'
  {
    match FindChar(s, '\n', u)
    case Some(k) => k
    case None => |s|
  }

  /** `(.+)$` matches at `u` exactly when a character other than a newline is there; the
      greedy group then takes the rest of the line, and `$` holds before the newline. */
  predicate LineRestAt(s: string, u: nat) {
    u < |s| && s[u] != '\n'
  }

  /** After `Project:`, the greedy `\s*` gives back one character at a time, from `u` down to
      `lo`, until `(.+)$` can match. */
  function ProjectDown(s: string, lo: nat, u: nat): (r: Option<nat>)
    requires lo <= u <= |s|
    decreases u
    ensures r.Some? ==> lo <= r.value <= u && LineRestAt(s, r.value)
  {
    if LineRestAt(s, u) then Some(u)
    else if u == lo then None
    else ProjectDown(s, lo, u - 1)
  }

  /** `(?:Project:\s*)?(.+)$` at `r`: the optional group is tried first, then left out. */
  function AfterGap(s: string, r: nat): (g: Option<nat>)
    requires r <= |s|
    ensures g.Some? ==> r <= g.value && LineRestAt(s, g.value)
  {
    var viaProject := if IsAt(s, r, "Project:") then ProjectDown(s, r + 8, SpanSpaces(s, r + 8)) else None;
    if viaProject.Some? then viaProject
    else if LineRestAt(s, r) then Some(r)
    else None
  }

  /** The greedy `\s+` gives back one character at a time, from `r` down to `lo`. */
  function HeadingDown(s: string, lo: nat, r: nat): (g: Option<nat>)
    requires lo <= r <= |s|
    decreases r
    ensures g.Some? ==> lo <= g.value && LineRestAt(s, g.value)
  {
    var m := AfterGap(s, r);
    if m.Some? then m
    else if r == lo then None
    else HeadingDown(s, lo, r - 1)
  }

  /** The whole pattern at a line start `p`: where its group starts, if it matches. */
  function HeadingAt(s: string, p: nat): (g: Option<nat>)
    requires p <= |s|
    ensures g.Some? ==> p < g.value && LineRestAt(s, g.value)
  {
    if p + 1 < |s| && s[p] == '#' && IsSpace(s[p + 1]) then HeadingDown(s, p + 2, SpanSpaces(s, p + 1))
    else None
  }

  /** `re.search` in multi-line mode: the line starts from `p` on, in order. */
  function HeadingFrom(s: string, p: nat): (g: Option<nat>)
    requires p <= |s|
    decreases |s| - p
    ensures g.Some? ==> p < g.value && LineRestAt(s, g.value)
  {
    var m := HeadingAt(s, p);
    if m.Some? then m
    else
      match FindChar(s, '\n', p)
      case None => None
      case Some(k) => HeadingFrom(s, k + 1)
  }

  /** The group of the heading pattern: the rest of a line, never empty. */
  function HeadingGroup(s: string): (r: Option<string>)
    ensures r.Some? ==> r.value != [] && NoChar(r.value, '\n')
  {
    match HeadingFrom(s, 0)
    case None => None
    case Some(u) => Some(s[u..LineEnd(s, u)])
  }

  // ---------------------------------------------------------------------------------------
  // The first paragraph

  /** `(?:\n\n|$)` holds at `j` (without multi-line mode `$` is the end, or just before a
      final newline). */
  predicate ParagraphStop(s: string, j: nat) {
    IsAt(s, j, "\n\n") || j == |s| || (j + 1 == |s| && s[j] == '\n')
  }

  /** The lazy `(.+?)` stops at the first place from `j` on where the stop holds. */
  function ParagraphEnd(s: string, j: nat): (e: nat)
    requires j <= |s|
    decreases |s| - j
    ensures j <= e <= |s| && ParagraphStop(s, e)
    ensures forall k :: j <= k < e ==> !ParagraphStop(s, k)
  {
    if ParagraphStop(s, j) then j else ParagraphEnd(s, j + 1)
  }

  /** The group of the paragraph pattern. The text must start with `#`; the lazy `.*?` stops
      at the first blank line from index 1 on, and the group needs at least one character
      after it (with none, no later blank line could do better, so there is no match). */
  function ParagraphGroup(s: string): (r: Option<string>)
    ensures r.Some? ==> r.value != []
    ensures r.Some? ==> s != [] && s[0] == '#'
  {
    if s == [] || s[0] != '#' then None
    else
      match FindFrom(s, "\n\n", 1)
      case None => None
      case Some(i) => if i + 2 < |s| then Some(s[i + 2..ParagraphEnd(s, i + 3)]) else None
  }

  /** `extract_project_info`; `None` stands for a missing `PROJECT.md`. */
  function ExtractProjectInfo(projectFile: Option<string>): (info: (string, string))
    ensures projectFile.None? ==> info == (UnnamedProject, NoProjectFile)
    ensures projectFile.Some? && HeadingGroup(projectFile.value).None? ==> info.0 == UnnamedProject
    ensures projectFile.Some? && ParagraphGroup(projectFile.value).None? ==> info.1 == NoParagraph
    ensures IsStripped(info.0) && IsStripped(info.1)
  {
    match projectFile
    case None => (UnnamedProject, NoProjectFile)
    case Some(content) =>
      var name := match HeadingGroup(content) case Some(g) => Strip(g) case None => UnnamedProject;
      var description := match ParagraphGroup(content) case Some(g) => Strip(g) case None => NoParagraph;
      (name, description)
  }

  // ---------------------------------------------------------------------------------------
  // What a usual PROJECT.md gives

  /** A heading line `# <name>` gives `<name>`, also when the whitespace after `#` runs over
      line breaks (`\s` matches a newline too). */
  lemma HeadingOfTitle(s: string, gap: string, name: string, tail: string)
    requires s == "#" + gap + name + tail
    requires gap != [] && AllSpaces(gap)
    requires name != [] && !IsSpace(name[0]) && NoChar(name, '\n') && !StartsWith(name, "Project:")
    requires tail == [] || tail[0] == '\n'
    ensures HeadingGroup(s) == Some(name)
  {
    var q := 1 + |gap|;
    TitleLayout(s, gap, name, tail);
    NotProjectAt(s, q, name);
    NameAt(s, q, name);
    assert AfterGap(s, q) == Some(q);
    assert HeadingAt(s, 0) == Some(q);
  }

  /** Where the parts of a heading line sit. */
  lemma TitleLayout(s: string, gap: string, name: string, tail: string)
    requires s == "#" + gap + name + tail
    requires gap != [] && AllSpaces(gap)
    requires name != [] && !IsSpace(name[0])
    requires tail == [] || tail[0] == '\n'
    ensures |s| == 1 + |gap| + |name| + |tail|
    ensures s[0] == '#' && IsSpace(s[1]) && SpanSpaces(s, 1) == 1 + |gap|
    ensures s[1 + |gap|..1 + |gap| + |name|] == name
    ensures 1 + |gap| + |name| == |s| || s[1 + |gap| + |name|] == '\n'
  {
    SpanSpacesOver("#", gap, name + tail);
    Regroup("#", gap, name, tail);
    Middle("#", gap, name + tail);
    assert s[1] == gap[0];
    Middle("#" + gap, name, tail);
    if tail != [] {
      assert s[1 + |gap| + |name|] == tail[0];
    }
  }

  /** `Project:` is not at `q` when a line not starting with it is there. */
  lemma NotProjectAt(s: string, q: nat, name: string)
    requires q + |name| <= |s| && s[q..q + |name|] == name && !StartsWith(name, "Project:")
    requires q + |name| == |s| || s[q + |name|] == '\n'
    ensures !IsAt(s, q, "Project:")
  {
    if q + 8 <= |s| {
      if |name| >= 8 {
        assert s[q..q + 8] == name[..8];
      } else {
        assert s[q..q + 8][|name|] == s[q + |name|];
      }
    }
  }

  /** A line's rest `name` at `u` is what the group `(.+)$` takes there. */
  lemma NameAt(s: string, u: nat, name: string)
    requires u + |name| <= |s| && s[u..u + |name|] == name && name != [] && NoChar(name, '\n')
    requires u + |name| == |s| || s[u + |name|] == '\n'
    ensures LineRestAt(s, u) && LineEnd(s, u) == u + |name| && s[u..LineEnd(s, u)] == name
  {
    NoNewlineIn(s, u, name);
    assert s[u] == name[0];
    LineEndIs(s, u, u + |name|);
  }

  /** The characterisation of `LineEnd` determines it. */
  lemma LineEndIs(s: string, u: nat, e: nat)
    requires u <= e <= |s| && (e == |s| || s[e] == '\n')
    requires forall k :: u <= k < e ==> s[k] != '\n'
    ensures LineEnd(s, u) == e
  {
    if e < |s| {
      FindCharIs(s, '\n', u, e);
    }
  }

  /** A heading line `# Project: <name>` gives `<name>`. */
  lemma HeadingOfProjectTitle(s: string, gap: string, gap': string, name: string, tail: string)
    requires s == "#" + gap + "Project:" + gap' + name + tail
    requires gap != [] && AllSpaces(gap) && AllSpaces(gap')
    requires name != [] && !IsSpace(name[0]) && NoChar(name, '\n')
    requires tail == [] || tail[0] == '\n'
    ensures HeadingGroup(s) == Some(name)
  {
    var q := 1 + |gap|;
    var t := q + 8 + |gap'|;
    ProjectTitleSlices(s, gap, gap', name, tail);
    ProjectTitleSpans(s, gap, gap', name);
    ProjectTitleName(s, gap, gap', name, tail);
    NameAt(s, t, name);
    assert ProjectDown(s, q + 8, t) == Some(t);
    assert AfterGap(s, q) == Some(t);
    assert HeadingAt(s, 0) == Some(t);
  }

  /** Where the whitespace runs of a `Project:` heading line end. */
  lemma ProjectTitleSpans(s: string, gap: string, gap': string, name: string)
    requires 9 + |gap| + |gap'| + |name| <= |s|
    requires s[1..1 + |gap|] == gap && s[1 + |gap|..9 + |gap|] == "Project:"
    requires s[9 + |gap|..9 + |gap| + |gap'|] == gap'
    requires s[9 + |gap| + |gap'|..9 + |gap| + |gap'| + |name|] == name
    requires gap != [] && AllSpaces(gap) && AllSpaces(gap')
    requires name != [] && !IsSpace(name[0])
    ensures IsSpace(s[1]) && SpanSpaces(s, 1) == 1 + |gap|
    ensures IsAt(s, 1 + |gap|, "Project:") && SpanSpaces(s, 9 + |gap|) == 9 + |gap| + |gap'|
  {
    var q := 1 + |gap|;
    assert s[q] == s[q..q + 8][0];
    RunBefore(s, 1, gap, 'P');
    RunBefore(s, q + 8, gap', name[0]);
  }

  /** A whitespace run `w` at `a`, followed by the non-space `c`. */
  lemma RunBefore(s: string, a: nat, w: string, c: char)
    requires a + |w| < |s| && s[a..a + |w|] == w && AllSpaces(w) && s[a + |w|] == c && !IsSpace(c)
    ensures SpanSpaces(s, a) == a + |w| && (w != [] ==> IsSpace(s[a]))
  {
    if w != [] {
      assert s[a] == s[a..a + |w|][0];
    }
    SpacesAt(s, a, w);
  }

  /** The pieces of a `Project:` heading line, as slices. */
  lemma ProjectTitleSlices(s: string, gap: string, gap': string, name: string, tail: string)
    requires s == "#" + gap + "Project:" + gap' + name + tail
    ensures |s| == 9 + |gap| + |gap'| + |name| + |tail|
    ensures s[0] == '#' && s[1..1 + |gap|] == gap && s[1 + |gap|..9 + |gap|] == "Project:"
    ensures s[9 + |gap|..9 + |gap| + |gap'|] == gap'
    ensures s[9 + |gap| + |gap'|..9 + |gap| + |gap'| + |name|] == name
    ensures s[9 + |gap| + |gap'| + |name|..] == tail
  {
  }

  /** Where the name of a `Project:` heading line sits. */
  lemma ProjectTitleName(s: string, gap: string, gap': string, name: string, tail: string)
    requires s == "#" + gap + "Project:" + gap' + name + tail
    requires tail == [] || tail[0] == '\n'
    ensures |s| == 9 + |gap| + |gap'| + |name| + |tail|
    ensures s[9 + |gap| + |gap'|..9 + |gap| + |gap'| + |name|] == name
    ensures 9 + |gap| + |gap'| + |name| == |s| || s[9 + |gap| + |gap'| + |name|] == '\n'
  {
    var v := "#" + gap + "Project:" + gap';
    ProjectTitleParts(s, gap, gap', name, tail);
    Middle(v, name, tail);
    if tail != [] {
      assert s[|v| + |name|] == tail[0];
    }
  }

  /** The groupings of a `Project:` heading line. */
  lemma ProjectTitleParts(s: string, gap: string, gap': string, name: string, tail: string)
    requires s == "#" + gap + "Project:" + gap' + name + tail
    ensures s == "#" + gap + ("Project:" + gap' + name + tail)
    ensures s == "#" + gap + "Project:" + gap' + (name + tail)
    ensures s == "#" + gap + "Project:" + (gap' + name + tail)
    ensures s == ("#" + gap + "Project:" + gap') + name + tail
    ensures |"#" + gap + "Project:"| == 9 + |gap|
  {
  }

  /** The middle of a concatenation of three, and its ends. */
  lemma Middle(a: string, b: string, c: string)
    ensures |a + b + c| == |a| + |b| + |c|
    ensures (a + b + c)[..|a|] == a && (a + b + c)[|a|..|a| + |b|] == b && (a + b + c)[|a| + |b|..] == c
  {
  }

  /** A stretch of `s` equal to a text without newlines holds none. */
  lemma NoNewlineIn(s: string, a: nat, t: string)
    requires a + |t| <= |s| && s[a..a + |t|] == t && NoChar(t, '\n')
    ensures forall k :: a <= k < a + |t| ==> s[k] != '\n'
  {
    forall k | a <= k < a + |t| ensures s[k] != '\n' {
      assert s[k] == s[a..a + |t|][k - a];
    }
  }

  /** The characterisation of `ParagraphEnd` determines it. */
  lemma ParagraphEndIs(s: string, j: nat, e: nat)
    requires j <= e <= |s| && ParagraphStop(s, e)
    requires forall k :: j <= k < e ==> !ParagraphStop(s, k)
    ensures ParagraphEnd(s, j) == e
  {
  }

  /** A heading, a blank line and a paragraph give that paragraph: the first blank line ends
      the heading and the next one, or the end, ends the paragraph. */
  lemma ParagraphOf(s: string, title: string, para: string, tail: string)
    requires s == "#" + title + "\n\n" + para + tail
    requires Free(title, "\n\n") && (title == [] || title[|title| - 1] != '\n')
    requires para != [] && Free(para, "\n\n") && para[|para| - 1] != '\n'
    requires tail == [] || tail == "\n" || StartsWith(tail, "\n\n")
    ensures ParagraphGroup(s) == Some(para)
  {
    var i := 1 + |title|;
    var e := i + 2 + |para|;
    ParagraphLayout(s, title, para, tail);
    FirstBlankAfter(s, title);
    ParagraphRuns(s, i + 2, para);
    TailStops(s, e, tail);
    ParagraphEndIs(s, i + 3, e);
  }

  /** The first blank line after `#` is the one right after the title. */
  lemma FirstBlankAfter(s: string, title: string)
    requires 3 + |title| <= |s| && s[1..1 + |title|] == title && IsAt(s, 1 + |title|, "\n\n")
    requires Free(title, "\n\n") && (title == [] || title[|title| - 1] != '\n')
    ensures FindFrom(s, "\n\n", 1) == Some(1 + |title|)
  {
    var i := 1 + |title|;
    forall k | 1 <= k < i ensures !IsAt(s, k, "\n\n") {
      if k + 2 <= i {
        IsAtInSlice(s, 1, i, k, "\n\n");
      } else {
        assert s[k] == s[1..1 + |title|][k - 1] == title[|title| - 1];
        assert s[k..k + 2][0] == s[k] != '\n';
      }
    }
    FindFromIs(s, "\n\n", 1, i);
  }

  /** Inside a paragraph without blank lines and not ending in a newline, nothing stops it. */
  lemma ParagraphRuns(s: string, a: nat, para: string)
    requires a + |para| <= |s| && s[a..a + |para|] == para
    requires para != [] && Free(para, "\n\n") && para[|para| - 1] != '\n'
    ensures forall k :: a < k < a + |para| ==> !ParagraphStop(s, k)
  {
    var e := a + |para|;
    forall k | a < k < e ensures !ParagraphStop(s, k) {
      if k + 2 <= e {
        IsAtInSlice(s, a, e, k, "\n\n");
      } else {
        assert s[k] == s[a..a + |para|][|para| - 1];
      }
    }
  }

  /** Where the parts of a headed paragraph sit. */
  lemma ParagraphLayout(s: string, title: string, para: string, tail: string)
    requires s == "#" + title + "\n\n" + para + tail
    requires para != []
    ensures |s| == 3 + |title| + |para| + |tail| && s[0] == '#'
    ensures s[1..1 + |title|] == title && IsAt(s, 1 + |title|, "\n\n")
    ensures s[3 + |title|..3 + |title| + |para|] == para
    ensures s[3 + |title| + |para|..] == tail
  {
    var t := s[1..1 + |title|];
    assert t == title;
    var b := s[1 + |title|..3 + |title|];
    assert b == "\n\n";
    var p := s[3 + |title|..3 + |title| + |para|];
    assert p == para;
  }

  /** Each allowed tail makes the paragraph stop where it starts. */
  lemma TailStops(s: string, e: nat, tail: string)
    requires e <= |s| && s[e..] == tail
    requires tail == [] || tail == "\n" || StartsWith(tail, "\n\n")
    ensures ParagraphStop(s, e)
  {
    if tail != [] && tail != "\n" {
      assert s[e..e + 2] == tail[..2];
    } else if tail == "\n" {
      assert s[e] == tail[0];
    }
  }

  /** A `PROJECT.md` that opens `# <name>`, a blank line and a paragraph gives that name and
      that paragraph, both stripped. */
  lemma ProjectInfoOf(s: string, name: string, para: string, tail: string)
    requires s == "# " + name + "\n\n" + para + tail
    requires name != [] && !IsSpace(name[0]) && NoChar(name, '\n') && !StartsWith(name, "Project:")
    requires para != [] && Free(para, "\n\n") && para[|para| - 1] != '\n'
    requires tail == [] || tail == "\n" || StartsWith(tail, "\n\n")
    ensures ExtractProjectInfo(Some(s)) == (Strip(name), Strip(para))
  {
    ProjectFileParts(s, name, para, tail);
    HeadingOfTitle(s, " ", name, "\n\n" + para + tail);
    SpaceBeforeLine(name);
    FreeOfLine(" " + name);
    ParagraphOf(s, " " + name, para, tail);
  }

  /** The groupings of a `PROJECT.md` that opens with a heading and a paragraph. */
  lemma ProjectFileParts(s: string, name: string, para: string, tail: string)
    requires s == "# " + name + "\n\n" + para + tail
    ensures s == "#" + " " + name + ("\n\n" + para + tail)
    ensures s == "#" + (" " + name) + "\n\n" + para + tail
  {
  }

  /** A text without newlines has no blank line. */
  lemma FreeOfLine(t: string)
    requires NoChar(t, '\n')
    ensures Free(t, "\n\n") && (t == [] || t[|t| - 1] != '\n')
  {
    forall k | 0 <= k <= |t| ensures !IsAt(t, k, "\n\n") {
      if k + 2 <= |t| {
        assert t[k..k + 2][0] == t[k];
      }
    }
  }

  /** A space before a text without newlines adds none. */
  lemma SpaceBeforeLine(name: string)
    requires NoChar(name, '\n')
    ensures NoChar(" " + name, '\n')
  {
    var t := " " + name;
    assert forall k :: 1 <= k < |t| ==> t[k] == name[k - 1];
  }
}
