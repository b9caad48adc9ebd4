/** Extraction of task records from the body of a plan document (`parse_xml_tasks`).

    The block pattern `<task[^>]*type="([^"]*)"[^>]*>(.*?)</task>` (DOTALL, `findall`) is
    written out as a scanner that follows the regex engine's backtracking order: at a start
    position holding `<task`, the greedy `[^>]*` reaches the first `>` after `<task`, so the
    `type="` candidates are tried from the rightmost one that ends before that `>` leftwards;
    for a candidate, the value runs to the next `"`, the tag to the next `>`, and the lazy
    body to the next `</task>`. A start position with no successful candidate is skipped. */
module TaskBlocks {
  import opened Wrappers
  import opened Text

  /** One match: the `type` attribute, the block's inner text, and the index just past `</task>`. */
  datatype TaskMatch = TaskMatch(kind: string, inner: string, end: nat)

  /** A task record is the source's dictionary: `"type"` plus the sub-elements found. */
  type TaskRecord = map<string, string>

  /** The sub-elements looked up in every block, in lookup order. */
  const FieldNames: seq<string> := ["name", "files", "action", "verify", "done"]

  /** What a match delivers: a `type` value without `"` and an inner text without `</task>`. */
  predicate WellFormedMatch(m: TaskMatch) {
    NoChar(m.kind, '"') && Free(m.inner, "</task>")
  }

  /** The pattern after `type="`, with the attribute value starting at `v`. */
  function MatchAfterType(s: string, v: nat): (r: Option<TaskMatch>)
    ensures r.Some? ==> v < r.value.end <= |s| && WellFormedMatch(r.value)
  {
    match FindChar(s, '"', v)
    case None => None
    case Some(e) =>
      match FindChar(s, '>', e + 1)
      case None => None
      case Some(h) =>
        match FindFrom(s, "</task>", h + 1)
        case None => None
        case Some(c) =>
          FreeBetween(s, "</task>", h + 1, c);
          Some(TaskMatch(s[v..e], s[h + 1..c], c + 7))
  }

  /** Backtracking over the first `[^>]*`: the `type="` candidates at `k`, `k - 1`, ..., 5. */
  function MatchTypeDown(s: string, k: nat): (r: Option<TaskMatch>)
    requires 5 <= k && k + 6 <= |s|
    decreases k
    ensures r.Some? ==> 5 < r.value.end <= |s| && WellFormedMatch(r.value)
  {
    var here := if IsAt(s, k, "type=\"") then MatchAfterType(s, k + 6) else None;
    if here.Some? || k == 5 then here else MatchTypeDown(s, k - 1)
  }

  /** The block pattern tried at the start of `s`. */
  function MatchAt(s: string): (r: Option<TaskMatch>)
    ensures r.Some? ==> 0 < r.value.end <= |s| && WellFormedMatch(r.value)
  {
    if !StartsWith(s, "<task") then None
    else
      var g := match FindChar(s, '>', 5) case Some(p) => p case None => |s|;
      if g < 11 then None else MatchTypeDown(s, g - 6)
  }

  /** `re.findall` of the block pattern: leftmost matches, each search resuming after the last. */
  function TaskMatches(s: string): (r: seq<TaskMatch>)
    decreases |s|
    ensures forall j :: 0 <= j < |r| ==> WellFormedMatch(r[j])
  {
    if s == [] then []
    else match MatchAt(s)
      case Some(m) => [m] + TaskMatches(s[m.end..])
      case None => TaskMatches(s[1..])
  }

  /** The tag `<field>` that opens a sub-element. */
  function OpenTag(field: string): string {
    "<" + field + ">"
  }

  /** The tag `</field>` that closes it. */
  function CloseTag(field: string): string {
    "</" + field + ">"
  }

  /** The text between the first `open` and the first `close` after it (the lazy group of
      `open(.*?)close` under DOTALL). Only the first `open` matters: when no `close` follows
      it, none follows a later one. */
  function Between(inner: string, open: string, close: string): (r: Option<string>)
    ensures Free(inner, open) ==> r.None?
  {
    match FindFrom(inner, open, 0)
    case None => None
    case Some(o) =>
      match FindFrom(inner, close, o + |open|)
      case None => None
      case Some(c) => Some(inner[o + |open|..c])
  }

  /** `re.search(rf'<{field}>(.*?)</{field}>', inner, re.DOTALL)`, its group stripped. */
  function FieldValue(inner: string, field: string): (r: Option<string>)
    ensures r.Some? ==> IsStripped(r.value)
    ensures Free(inner, OpenTag(field)) ==> r.None?
  {
    match Between(inner, OpenTag(field), CloseTag(field))
    case None => None
    case Some(t) => Some(Strip(t))
  }

  /** A pattern whose first character does not occur again in it cannot overlap the end of the
      text before it: an occurrence at `|pre|`, with none wholly inside `pre[from..]`, is the
      first one from `from`. */
  lemma FirstOccurrence(s: string, pre: string, pat: string, post: string, from: nat)
    requires s == pre + pat + post && from <= |pre|
    requires pat != [] && forall j :: 0 < j < |pat| ==> pat[j] != pat[0]
    requires Free(pre[from..], pat)
    ensures FindFrom(s, pat, from) == Some(|pre|)
  {
    forall k | from <= k < |pre| ensures !IsAt(s, k, pat) {
      if k + |pat| <= |pre| {
        assert pre[from..][k - from..k - from + |pat|] == s[k..k + |pat|];
        assert !IsAt(pre[from..], k - from, pat);
      } else {
        NoStraddle(s, pre, pat, post, k);
      }
    }
    assert s[|pre|..|pre| + |pat|] == pat;
    FindFromIs(s, pat, from, |pre|);
  }

  /** Such a pattern does not occur across the boundary between `pre` and itself. */
  lemma NoStraddle(s: string, pre: string, pat: string, post: string, k: nat)
    requires s == pre + pat + post && k < |pre| < k + |pat|
    requires forall j :: 0 < j < |pat| ==> pat[j] != pat[0]
    ensures !IsAt(s, k, pat)
  {
    var j := |pre| - k;
    assert s[|pre|] == pat[0];
    if k + |pat| <= |s| {
      assert s[k..k + |pat|][j] == pat[0] != pat[j];
    }
  }

  /** The tags `<field>` and `</field>` start with the only `<` they hold. */
  lemma TagsStartOnce(field: string)
    requires NoChar(field, '<')
    ensures var open := OpenTag(field);
      forall j :: 0 < j < |open| ==> open[j] != open[0]
    ensures var close := CloseTag(field);
      forall j :: 0 < j < |close| ==> close[j] != close[0]
  {
    var open := OpenTag(field);
    var close := CloseTag(field);
    forall j | 0 < j < |open| ensures open[j] != open[0] {
      if j <= |field| {
        assert open[j] == field[j - 1];
      }
    }
    forall j | 0 < j < |close| ensures close[j] != close[0] {
      if 1 < j <= |field| + 1 {
        assert close[j] == field[j - 2];
      }
    }
  }

  /** The two tags around `v`, each found first where it stands. */
  lemma TagsAround(inner: string, open: string, close: string, u: string, v: string, w: string)
    requires open != [] && forall j :: 0 < j < |open| ==> open[j] != open[0]
    requires close != [] && forall j :: 0 < j < |close| ==> close[j] != close[0]
    requires inner == u + open + v + close + w
    requires Free(u, open) && Free(v, close)
    ensures Between(inner, open, close) == Some(v)
  {
    assert u[0..] == u;
    FirstOccurrence(inner, u, open, v + close + w, 0);
    var pre := u + open + v;
    assert pre[|u| + |open|..] == v;
    FirstOccurrence(inner, pre, close, w, |u| + |open|);
    MiddleOf(inner, u + open, v, close + w);
  }

  /** Where the middle part of a three-part concatenation sits. */
  lemma MiddleOf(s: string, x: string, v: string, y: string)
    requires s == x + v + y
    ensures s[|x|..|x| + |v|] == v
  {
  }

  /** A sub-element `<field>v</field>`, with no `<field>` before it and no `</field>` inside
      it, is found, and its value is `v` stripped. */
  lemma FieldFound(inner: string, field: string, u: string, v: string, w: string)
    requires NoChar(field, '<')
    requires inner == u + OpenTag(field) + v + CloseTag(field) + w
    requires Free(u, OpenTag(field)) && Free(v, CloseTag(field))
    ensures FieldValue(inner, field) == Some(Strip(v))
  {
    TagsStartOnce(field);
    TagsAround(inner, OpenTag(field), CloseTag(field), u, v, w);
  }

  /** A block holding none of the five opening tags gives the record `{"type": kind}`. */
  lemma BareRecord(m: TaskMatch)
    requires forall i :: 0 <= i < |FieldNames| ==> Free(m.inner, OpenTag(FieldNames[i]))
    ensures RecordOf(m) == map["type" := m.kind]
  {
    RecordOfFields(m);
    assert RecordOf(m).Keys == {"type"};
  }

  /** The five sub-element names are distinct from each other and from `"type"`. */
  lemma FieldNamesDistinct()
    ensures forall i, j :: 0 <= i < j < |FieldNames| ==> FieldNames[i] != FieldNames[j]
    ensures forall i :: 0 <= i < |FieldNames| ==> FieldNames[i] != "type"
  {
    assert FieldNames[0][0] == 'n' && FieldNames[1][0] == 'f' && FieldNames[2][0] == 'a';
    assert FieldNames[3][0] == 'v' && FieldNames[4][0] == 'd' && "type"[0] == 't';
  }

  /** The looked-up value of every sub-element, in the order of `FieldNames`. */
  function FieldValues(inner: string): (r: seq<Option<string>>)
    ensures |r| == |FieldNames|
    ensures forall i :: 0 <= i < |r| ==> r[i] == FieldValue(inner, FieldNames[i])
  {
    seq(|FieldNames|, i requires 0 <= i < |FieldNames| => FieldValue(inner, FieldNames[i]))
  }

  /** The record holding `type` and, for each of the first `|values|` names, its value when
      one was found (`RecordContents` states its keys and values). */
  function Record(kind: string, values: seq<Option<string>>): TaskRecord
    requires |values| <= |FieldNames|
  {
    if values == [] then map["type" := kind]
    else
      var q := |values| - 1;
      if values[q].Some? then Record(kind, values[..q])[FieldNames[q] := values[q].value]
      else Record(kind, values[..q])
  }

  /** One more name: its value is added when it was found. */
  lemma RecordStep(kind: string, values: seq<Option<string>>, q: nat)
    requires q < |values| <= |FieldNames|
    ensures Record(kind, values[..q + 1])
         == if values[q].Some? then Record(kind, values[..q])[FieldNames[q] := values[q].value]
            else Record(kind, values[..q])
  {
    assert values[..q + 1][..q] == values[..q];
  }

  /** `t` holds `type` and, for each of the first `|values|` names, its value when one was
      found, and nothing else. */
  predicate HoldsValues(t: TaskRecord, kind: string, values: seq<Option<string>>)
    requires |values| <= |FieldNames|
  {
    && "type" in t && t["type"] == kind
    && (forall key :: key in t ==> key == "type" || key in FieldNames[..|values|])
    && (forall i :: 0 <= i < |values| ==> (FieldNames[i] in t <==> values[i].Some?))
    && (forall i :: 0 <= i < |values| && values[i].Some? ==> t[FieldNames[i]] == values[i].value)
  }

  /** The keys of `Record(kind, values)` are `type` and the names whose value was found,
      each mapped to that value. */
  lemma {:induction false} RecordContents(kind: string, values: seq<Option<string>>)
    requires |values| <= |FieldNames|
    ensures HoldsValues(Record(kind, values), kind, values)
  {
    if values != [] {
      var q := |values| - 1;
      RecordContents(kind, values[..q]);
      RecordAdds(Record(kind, values[..q]), kind, values);
    }
  }

  /** Adding the last name's value (when found) to a record holding the earlier ones. */
  lemma RecordAdds(t: TaskRecord, kind: string, values: seq<Option<string>>)
    requires 0 < |values| <= |FieldNames|
    requires HoldsValues(t, kind, values[..|values| - 1])
    ensures var q := |values| - 1;
      HoldsValues(if values[q].Some? then t[FieldNames[q] := values[q].value] else t, kind, values)
  {
    var q := |values| - 1;
    FieldNamesDistinct();
    assert FieldNames[..q + 1] == FieldNames[..q] + [FieldNames[q]];
  }

  /** The record built from one match: `type`, then every sub-element that was found. */
  function RecordOf(m: TaskMatch): TaskRecord {
    Record(m.kind, FieldValues(m.inner))
  }

  /** `RecordOf(m)` maps `type` to the block's type and each sub-element name to its stripped
      text exactly when the block holds that sub-element; nothing else is a key. */
  lemma RecordOfFields(m: TaskMatch)
    ensures var t := RecordOf(m);
      && "type" in t && t["type"] == m.kind
      && (forall key :: key in t ==> key == "type" || key in FieldNames)
      && (forall i :: 0 <= i < |FieldNames| ==> (FieldNames[i] in t <==> FieldValue(m.inner, FieldNames[i]).Some?))
      && (forall i :: 0 <= i < |FieldNames| && FieldNames[i] in t ==> t[FieldNames[i]] == FieldValue(m.inner, FieldNames[i]).value)
  {
    RecordContents(m.kind, FieldValues(m.inner));
    assert FieldNames[..|FieldNames|] == FieldNames;
  }

  /** `parse_xml_tasks(content)`: one record per block, in the order the blocks appear. */
  method ParseXmlTasks(content: string) returns (tasks: seq<TaskRecord>)
    ensures |tasks| == |TaskMatches(content)|
    ensures forall j :: 0 <= j < |tasks| ==> tasks[j] == RecordOf(TaskMatches(content)[j])
  {
    var matches := TaskMatches(content);
    tasks := [];
    for j := 0 to |matches|
      invariant |tasks| == j
      invariant forall i :: 0 <= i < j ==> tasks[i] == RecordOf(matches[i])
    {
      var task := ReadFields(matches[j]);
      tasks := tasks + [task];
    }
  }

  /** The inner loop of `parse_xml_tasks`: `type`, then each sub-element that is found. */
  method ReadFields(m: TaskMatch) returns (task: TaskRecord)
    ensures task == RecordOf(m)
  {
    ghost var values := FieldValues(m.inner);
    task := map["type" := m.kind];
    for q := 0 to |FieldNames|
      invariant task == Record(m.kind, values[..q])
    {
      var field := FieldNames[q];
      var found := FieldValue(m.inner, field);
      RecordStep(m.kind, values, q);
      if found.Some? {
        task := task[field := found.value];
      }
    }
    assert values[..|FieldNames|] == values;
  }

  // ---------------------------------------------------------------------------------------
  // Round trip: rendering blocks and scanning them gives the blocks back.

  /** `<task type="kind">inner</task>`. */
  function Block(kind: string, inner: string): string {
    "<task type=\"" + kind + "\">" + inner + "</task>"
  }

  /** What a block needs for its text to be read back as written. */
  predicate Renderable(kind: string, inner: string) {
    NoChar(kind, '"') && NoChar(kind, '>') && !EndsWith(kind, "type=") && Free(inner, "</task>")
  }

  function Render(blocks: seq<(string, string)>): string {
    if blocks == [] then "" else Block(blocks[0].0, blocks[0].1) + Render(blocks[1..])
  }

  /** No `type="` candidate in `(lo, k]`: backtracking falls through to `lo`. */
  lemma TypeDownSkips(s: string, k: nat, lo: nat)
    requires 5 <= lo <= k && k + 6 <= |s|
    requires forall j :: lo < j <= k ==> !IsAt(s, j, "type=\"")
    ensures MatchTypeDown(s, k) == MatchTypeDown(s, lo)
  {
    var i := k;
    while i > lo
      invariant lo <= i <= k
      invariant MatchTypeDown(s, k) == MatchTypeDown(s, i)
    {
      TypeDownStep(s, i);
      i := i - 1;
    }
  }

  /** Without a candidate at `k`, backtracking moves on to `k - 1`. */
  lemma TypeDownStep(s: string, k: nat)
    requires 5 < k && k + 6 <= |s| && !IsAt(s, k, "type=\"")
    ensures MatchTypeDown(s, k) == MatchTypeDown(s, k - 1)
  {
  }

  /** The layout of a rendered block followed by anything. */
  lemma BlockLayout(kind: string, inner: string, rest: string)
    ensures var s := Block(kind, inner) + rest;
      && |s| == 21 + |kind| + |inner| + |rest|
      && s[..5] == "<task" && s[5] == ' ' && s[6..12] == "type=\""
      && s[11] == '"'
      && (forall i :: 0 <= i < |kind| ==> s[12 + i] == kind[i])
      && s[12..12 + |kind|] == kind
      && s[12 + |kind|] == '"' && s[13 + |kind|] == '>'
      && s[14 + |kind|..14 + |kind| + |inner|] == inner
      && s[14 + |kind| + |inner|..21 + |kind| + |inner|] == "</task>"
      && s[21 + |kind| + |inner|..] == rest
  {
    var s := Block(kind, inner) + rest;
    assert s == "<task type=\"" + kind + "\">" + inner + "</task>" + rest;
  }

  /** In a rendered block the first `>` after `<task` is the one closing the opening tag. */
  lemma BlockTagEnd(kind: string, inner: string, rest: string)
    requires Renderable(kind, inner)
    ensures FindChar(Block(kind, inner) + rest, '>', 5) == Some(13 + |kind|)
  {
    var s := Block(kind, inner) + rest;
    var K := |kind|;
    BlockLayout(kind, inner, rest);
    forall k | 5 <= k < 13 + K ensures s[k] != '>' {
      if 12 <= k < 12 + K {
        assert s[k] == kind[k - 12];
      } else if 5 < k < 12 {
        assert s[k] == s[6..12][k - 6];
      }
    }
    FindCharIs(s, '>', 5, 13 + K);
  }

  /** In a rendered block the only `type="` before the end of the opening tag is the real one. */
  lemma BlockSingleCandidate(kind: string, inner: string, rest: string)
    requires Renderable(kind, inner)
    ensures forall j :: 6 < j <= 7 + |kind| ==> !IsAt(Block(kind, inner) + rest, j, "type=\"")
    ensures IsAt(Block(kind, inner) + rest, 6, "type=\"")
  {
    var s := Block(kind, inner) + rest;
    var K := |kind|;
    BlockLayout(kind, inner, rest);
    forall j | 6 < j <= 7 + K ensures !IsAt(s, j, "type=\"") {
      if j < 7 + K {
        assert s[j + 5] == kind[j + 5 - 12];
        assert s[j..j + 6][5] == s[j + 5];
      } else if K >= 5 {
        assert s[j..j + 5] == kind[K - 5..];
        assert s[j..j + 6][..5] == s[j..j + 5];
      } else {
        assert s[j..j + 6][11 - j] == s[11];
      }
    }
  }

  /** In a rendered block the value, the tag and the body end where they were written. */
  lemma BlockRest(kind: string, inner: string, rest: string)
    requires Renderable(kind, inner)
    ensures MatchAfterType(Block(kind, inner) + rest, 12) == Some(TaskMatch(kind, inner, |Block(kind, inner)|))
  {
    var s := Block(kind, inner) + rest;
    var K, I := |kind|, |inner|;
    BlockValueEnd(kind, inner, rest);
    BlockBodyEnd(kind, inner, rest);
    BlockFields(kind, inner, rest);
    MatchAfterTypeIs(s, 12, 12 + K, 13 + K, 14 + K + I);
  }

  /** Where the value and the body of a rendered block sit. */
  lemma BlockFields(kind: string, inner: string, rest: string)
    ensures var s := Block(kind, inner) + rest;
      && FindChar(s, '>', 13 + |kind|) == Some(13 + |kind|)
      && s[12..12 + |kind|] == kind
      && s[14 + |kind|..14 + |kind| + |inner|] == inner
      && |Block(kind, inner)| == 21 + |kind| + |inner|
  {
    var s := Block(kind, inner) + rest;
    BlockLayout(kind, inner, rest);
    FindCharIs(s, '>', 13 + |kind|, 13 + |kind|);
  }

  /** The value of a rendered block ends at the quote written after it. */
  lemma BlockValueEnd(kind: string, inner: string, rest: string)
    requires Renderable(kind, inner)
    ensures FindChar(Block(kind, inner) + rest, '"', 12) == Some(12 + |kind|)
  {
    var s := Block(kind, inner) + rest;
    BlockLayout(kind, inner, rest);
    forall k | 12 <= k < 12 + |kind| ensures s[k] != '"' {
      assert s[k] == kind[k - 12];
    }
    FindCharIs(s, '"', 12, 12 + |kind|);
  }

  /** The body of a rendered block ends at the `</task>` written after it. */
  lemma BlockBodyEnd(kind: string, inner: string, rest: string)
    requires Renderable(kind, inner)
    ensures FindFrom(Block(kind, inner) + rest, "</task>", 14 + |kind|) == Some(14 + |kind| + |inner|)
  {
    BlockLayout(kind, inner, rest);
    CloseTagHead();
    FindAfterFree(Block(kind, inner) + rest, "</task>", 14 + |kind|, 14 + |kind| + |inner|);
  }

  /** The `<` opening `</task>` does not recur in it. */
  lemma CloseTagHead()
    ensures forall j :: 0 < j < |"</task>"| ==> "</task>"[j] != "</task>"[0]
  {
  }

  /** The match after the `type="` opening, from its three search results. */
  lemma MatchAfterTypeIs(s: string, v: nat, e: nat, h: nat, c: nat)
    requires FindChar(s, '"', v) == Some(e) && FindChar(s, '>', e + 1) == Some(h)
    requires FindFrom(s, "</task>", h + 1) == Some(c)
    ensures MatchAfterType(s, v) == Some(TaskMatch(s[v..e], s[h + 1..c], c + 7))
  {
    var m := MatchAfterType(s, v);
    assert m.Some?;
  }

  /** A rendered block is matched at its start, with its own `type` and inner text. */
  lemma MatchAtBlock(kind: string, inner: string, rest: string)
    requires Renderable(kind, inner)
    ensures MatchAt(Block(kind, inner) + rest) == Some(TaskMatch(kind, inner, |Block(kind, inner)|))
  {
    var s := Block(kind, inner) + rest;
    BlockLayout(kind, inner, rest);
    assert StartsWith(s, "<task");
    BlockTagEnd(kind, inner, rest);
    BlockSingleCandidate(kind, inner, rest);
    TypeDownSkips(s, 7 + |kind|, 6);
    BlockRest(kind, inner, rest);
  }

  /** Scanning rendered blocks finds exactly those blocks, in order. */
  lemma {:induction false} ScanRendered(blocks: seq<(string, string)>)
    requires forall j :: 0 <= j < |blocks| ==> Renderable(blocks[j].0, blocks[j].1)
    ensures |TaskMatches(Render(blocks))| == |blocks|
    ensures forall j :: 0 <= j < |blocks| ==>
      TaskMatches(Render(blocks))[j].kind == blocks[j].0 && TaskMatches(Render(blocks))[j].inner == blocks[j].1
  {
    if blocks != [] {
      var b := Block(blocks[0].0, blocks[0].1);
      var rest := Render(blocks[1..]);
      MatchAtBlock(blocks[0].0, blocks[0].1, rest);
      BlockLayout(blocks[0].0, blocks[0].1, rest);
      assert (b + rest)[|b|..] == rest;
      ScanRendered(blocks[1..]);
      assert TaskMatches(b + rest) == [TaskMatch(blocks[0].0, blocks[0].1, |b|)] + TaskMatches(rest);
    }
  }
}
