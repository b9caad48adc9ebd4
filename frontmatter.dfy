/** Splitting a plan document into its YAML metadata block and its body
    (`parse_frontmatter`). The YAML decoder itself is a parameter. */
module Frontmatter {
  import opened Wrappers
  import opened Text

  /** The plan-level hints; `None` stands for a key that is absent or whose value is not a list. */
  datatype MustHaves = MustHaves(truths: Option<seq<string>>, artifacts: Option<seq<string>>)

  /** The metadata keys the converter reads; `None` is an absent key. */
  datatype Meta = Meta(phase: Option<string>, plan: Option<int>, wave: Option<int>, mustHaves: Option<MustHaves>)

  /** The empty mapping `{}`. */
  const EmptyMeta: Meta := Meta(None, None, None, None)

  /** What decoding the metadata text gives: a decode error, or a document, `None` when it is
      falsy (an empty or null document, which the converter replaces by `{}`). */
  datatype YamlResult = YamlError | Loaded(doc: Option<Meta>)

  /** `s.split(sep, maxsplit)`: at most `maxsplit` cuts at the leftmost occurrences of `sep`. */
  function Split(s: string, sep: string, maxsplit: nat): (parts: seq<string>)
    requires |sep| > 0
    decreases maxsplit
    ensures 1 <= |parts| <= maxsplit + 1
    ensures Join(parts, sep) == s
    ensures forall j :: 0 <= j < |parts| - 1 ==> Free(parts[j], sep)
    ensures |parts| <= maxsplit ==> Free(parts[|parts| - 1], sep)
  {
    if maxsplit == 0 then [s]
    else match FindFrom(s, sep, 0)
      case None => [s]
      case Some(p) =>
        var rest := Split(s[p + |sep|..], sep, maxsplit - 1);
        FreeBetween(s, sep, 0, p);
        assert s[0..p] == s[..p];
        SplitCut(s, sep, maxsplit, p, rest);
        [s[..p]] + rest
  }

  /** The text before the first cut, put in front of the split remainder, satisfies what
      `Split` promises. */
  lemma SplitCut(s: string, sep: string, maxsplit: nat, p: nat, rest: seq<string>)
    requires |sep| > 0 && maxsplit > 0 && IsAt(s, p, sep) && Free(s[..p], sep)
    requires 1 <= |rest| <= maxsplit && Join(rest, sep) == s[p + |sep|..]
    requires forall j :: 0 <= j < |rest| - 1 ==> Free(rest[j], sep)
    requires |rest| <= maxsplit - 1 ==> Free(rest[|rest| - 1], sep)
    ensures var parts := [s[..p]] + rest;
      && 1 <= |parts| <= maxsplit + 1
      && Join(parts, sep) == s
      && (forall j :: 0 <= j < |parts| - 1 ==> Free(parts[j], sep))
      && (|parts| <= maxsplit ==> Free(parts[|parts| - 1], sep))
  {
    var parts := [s[..p]] + rest;
    CutAt(s, p, sep);
    JoinCons(s[..p], rest, sep);
    assert forall j :: 1 <= j < |parts| ==> parts[j] == rest[j - 1];
  }

  /** `parse_frontmatter(content)`, with `yaml` in the place of `yaml.safe_load`. */
  function ParseFrontmatter(content: string, yaml: string -> YamlResult): (r: (Meta, string))
    ensures r.1 == content || (StartsWith(content, "---") && IsStripped(r.1))
    ensures r.0 != EmptyMeta ==> StartsWith(content, "---")
  {
    if !StartsWith(content, "---") then (EmptyMeta, content)
    else
      var parts := Split(content, "---", 2);
      if |parts| < 3 then (EmptyMeta, content)
      else match yaml(parts[1])
        case YamlError => (EmptyMeta, content)
        case Loaded(doc) => (doc.GetOr(EmptyMeta), Strip(parts[2]))
  }

  /** A document that does not open with `---` has no metadata and is its own body. */
  lemma NoDelimiter(content: string, yaml: string -> YamlResult)
    requires !StartsWith(content, "---")
    ensures ParseFrontmatter(content, yaml) == (EmptyMeta, content)
  {
  }

  /** An opening `---` that is never closed leaves the document untouched. */
  lemma UnclosedBlock(content: string, yaml: string -> YamlResult)
    requires StartsWith(content, "---") && Free(content[3..], "---")
    ensures ParseFrontmatter(content, yaml) == (EmptyMeta, content)
  {
    assert FindFrom(content, "---", 0) == Some(0);
    var parts := Split(content, "---", 2);
    assert content[3..] == content[0 + 3..];
    assert FindFrom(content[3..], "---", 0).None?;
  }

  /** One cut at the first occurrence `p` of `sep`. */
  lemma SplitOnce(s: string, sep: string, maxsplit: nat, p: nat)
    requires |sep| > 0 && maxsplit > 0
    requires FindFrom(s, sep, 0) == Some(p)
    ensures p + |sep| <= |s|
    ensures Split(s, sep, maxsplit) == [s[..p]] + Split(s[p + |sep|..], sep, maxsplit - 1)
  {
  }

  /** In `head + "---" + body`, the first `---` is the one after `head` when `head` holds no
      `---` and does not end in `-`. */
  lemma FirstDelimiterAfter(head: string, body: string)
    requires Free(head, "---") && !EndsWith(head, "-")
    ensures FindFrom(head + "---" + body, "---", 0) == Some(|head|)
  {
    var tail := head + "---" + body;
    forall k | 0 <= k < |head| ensures !IsAt(tail, k, "---") {
      if k + 3 <= |head| {
        assert !IsAt(head, k, "---");
        assert head[k..k + 3] == tail[k..k + 3];
      } else {
        assert head[|head| - 1..] != "-";
        assert tail[|head| - 1] != '-';
        assert tail[k..k + 3][|head| - 1 - k] == tail[|head| - 1];
      }
    }
    assert tail[|head|..|head| + 3] == "---";
    FindFromIs(tail, "---", 0, |head|);
  }

  /** The metadata text `head` of `"---" + head + "---" + body` is the part between the
      first two delimiters when it holds no `---` and does not end in `-`. */
  lemma HeadDelimited(head: string, body: string)
    requires Free(head, "---") && !EndsWith(head, "-")
    ensures Split("---" + head + "---" + body, "---", 2) == ["", head, body]
  {
    var tail := head + "---" + body;
    assert "---" + head + "---" + body == "---" + tail;
    OpeningDelimiter("---" + tail, tail);
    ClosingDelimiter(head, body);
  }

  /** A text opening with `---` is cut there first. */
  lemma OpeningDelimiter(content: string, tail: string)
    requires content == "---" + tail
    ensures Split(content, "---", 2) == [""] + Split(tail, "---", 1)
  {
    assert content[..3] == "---";
    FindFromIs(content, "---", 0, 0);
    SplitOnce(content, "---", 2, 0);
    assert content[3..] == tail;
  }

  /** The second cut falls after `head`, and what follows it is left whole. */
  lemma ClosingDelimiter(head: string, body: string)
    requires Free(head, "---") && !EndsWith(head, "-")
    ensures Split(head + "---" + body, "---", 1) == [head, body]
  {
    var tail := head + "---" + body;
    FirstDelimiterAfter(head, body);
    SplitOnce(tail, "---", 1, |head|);
    assert tail[..|head|] == head;
    assert tail[|head| + 3..] == body;
  }

  /** Round trip: a closed metadata block that the decoder accepts gives the decoded document
      (or `{}` for a falsy one) and the stripped body. */
  lemma ClosedBlockDecoded(head: string, body: string, yaml: string -> YamlResult)
    requires Free(head, "---") && !EndsWith(head, "-")
    requires yaml(head).Loaded?
    ensures ParseFrontmatter("---" + head + "---" + body, yaml)
         == (yaml(head).doc.GetOr(EmptyMeta), Strip(body))
  {
    HeadDelimited(head, body);
  }

  /** A decode error yields no metadata and the unchanged document. */
  lemma ClosedBlockRejected(head: string, body: string, yaml: string -> YamlResult)
    requires Free(head, "---") && !EndsWith(head, "-")
    requires yaml(head).YamlError?
    ensures ParseFrontmatter("---" + head + "---" + body, yaml) == (EmptyMeta, "---" + head + "---" + body)
  {
    HeadDelimited(head, body);
  }
}
