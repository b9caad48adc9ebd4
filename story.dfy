/** Turning one task record and its plan's context into one user story (`convert_task_to_story`). */
module StorySynthesis {
  import opened Wrappers
  import opened Text
  import opened Frontmatter
  import opened TaskBlocks

  /** The work item written to the output document. */
  datatype UserStory = UserStory(
    id: string,
    title: string,
    priority: int,
    description: string,
    acceptanceCriteria: seq<string>,
    tests: seq<string>,
    passes: bool,
    blocked: bool,
    blockedReason: string,
    notes: string)

  /** `task.get(key, default)`. */
  function Get(task: TaskRecord, key: string, default: string): string {
    if key in task then task[key] else default
  }

  /** `task.get(key)` is truthy: present and not the empty string. */
  predicate Truthy(task: TaskRecord, key: string) {
    key in task && task[key] != ""
  }

  // ---------------------------------------------------------------------------------------
  // Story ID: f"US-{phase:02d}{plan:02d}-{task:02d}"

  function StoryId(phaseNum: int, planNum: int, taskNum: int): (r: string)
    ensures StartsWith(r, "US-") && EndsWith(r, "-" + Pad2(taskNum))
  {
    IdEnds(Pad2(phaseNum), Pad2(planNum), Pad2(taskNum));
    "US-" + Pad2(phaseNum) + Pad2(planNum) + "-" + Pad2(taskNum)
  }

  /** An ID starts with `US-` and ends with `-` and the task's field. */
  lemma IdEnds(x: string, y: string, z: string)
    ensures StartsWith("US-" + x + y + "-" + z, "US-") && EndsWith("US-" + x + y + "-" + z, "-" + z)
  {
    var head := "US-" + x + y;
    assert head[..3] == "US-";
    assert (head + "-" + z)[..3] == head[..3];
    assert head + "-" + z == head + ("-" + z);
  }

  /** Below 100 the padded number is exactly its two decimal digits. */
  lemma Pad2TwoDigits(n: int)
    requires 0 <= n < 100
    ensures Pad2(n) == [DigitChar(n / 10), DigitChar(n % 10)]
  {
    if n >= 10 {
      assert Digits(n) == Digits(n / 10) + [DigitChar(n % 10)];
    }
  }

  /** For numbers below 100 the ID has ten characters and each number can be read back from
      its own two-character slot. */
  lemma StoryIdFields(phaseNum: int, planNum: int, taskNum: int)
    requires 0 <= phaseNum < 100 && 0 <= planNum < 100 && 0 <= taskNum < 100
    ensures var id := StoryId(phaseNum, planNum, taskNum);
      && |id| == 10 && id[..3] == "US-" && id[7] == '-'
      && AllDigits(id[3..5]) && ParseNat(id[3..5]) == phaseNum
      && AllDigits(id[5..7]) && ParseNat(id[5..7]) == planNum
      && AllDigits(id[8..10]) && ParseNat(id[8..10]) == taskNum
  {
    Pad2TwoDigits(phaseNum);
    Pad2TwoDigits(planNum);
    Pad2TwoDigits(taskNum);
    IdSlots(Pad2(phaseNum), Pad2(planNum), Pad2(taskNum));
  }

  /** Where the three two-character slots of an ID sit. */
  lemma IdSlots(x: string, y: string, z: string)
    requires |x| == 2 && |y| == 2 && |z| == 2
    ensures var id := "US-" + x + y + "-" + z;
      && |id| == 10 && id[..3] == "US-" && id[7] == '-'
      && id[3..5] == x && id[5..7] == y && id[8..10] == z
  {
  }

  /** For numbers below 100, different (phase, plan, task) triples get different IDs. */
  lemma StoryIdInjective(a: int, b: int, c: int, a': int, b': int, c': int)
    requires 0 <= a < 100 && 0 <= b < 100 && 0 <= c < 100
    requires 0 <= a' < 100 && 0 <= b' < 100 && 0 <= c' < 100
    requires StoryId(a, b, c) == StoryId(a', b', c')
    ensures a == a' && b == b' && c == c'
  {
    StoryIdFields(a, b, c);
    StoryIdFields(a', b', c');
  }

  /** The padding does not cap widths, so from 100 on two triples can share an ID. */
  lemma StoryIdCollision()
    ensures StoryId(10, 111, 1) == StoryId(101, 11, 1) == "US-10111-01"
  {
    assert Digits(1) == "1" && Digits(10) == "10" && Digits(11) == "11";
    assert Digits(101) == Digits(10) + "1" == "101";
    assert Digits(111) == Digits(11) + "1" == "111";
  }

  lemma TwoDigitOrder(n: int, n': int)
    requires 0 <= n < 100 && 0 <= n' < 100
    ensures StrLess(Pad2(n), Pad2(n')) <==> n < n'
    ensures Pad2(n) == Pad2(n') <==> n == n'
  {
    Pad2TwoDigits(n);
    Pad2TwoDigits(n');
    var hi, lo, hi', lo' := n / 10, n % 10, n' / 10, n' % 10;
    assert n == 10 * hi + lo && n' == 10 * hi' + lo';
    var x, x' := [DigitChar(hi), DigitChar(lo)], [DigitChar(hi'), DigitChar(lo')];
    assert x[1..] == [DigitChar(lo)] && x'[1..] == [DigitChar(lo')];
    assert StrLess([DigitChar(lo)], [DigitChar(lo')]) <==> lo < lo' by {
      assert [DigitChar(lo)][1..] == [] && [DigitChar(lo')][1..] == [];
    }
    if hi == hi' {
      assert StrLess(x, x') == StrLess([DigitChar(lo)], [DigitChar(lo')]);
    } else {
      assert StrLess(x, x') == (hi < hi');
    }
  }

  /** IDs built from fixed-width fields compare field by field. */
  lemma FieldwiseOrder(x: string, y: string, z: string, x': string, y': string, z': string)
    requires |x| == |x'| && |y| == |y'|
    ensures StrLess("US-" + x + y + "-" + z, "US-" + x' + y' + "-" + z')
        <==> (if x != x' then StrLess(x, x') else if y != y' then StrLess(y, y') else StrLess(z, z'))
  {
    var r, r' := y + "-" + z, y' + "-" + z';
    assert "US-" + x + y + "-" + z == "US-" + (x + r);
    assert "US-" + x' + y' + "-" + z' == "US-" + (x' + r');
    StrLessCommonPrefix("US-", x + r, x' + r');
    if x != x' {
      StrLessSameLength(x, x', r, r');
    } else {
      StrLessCommonPrefix(x, r, r');
      assert r == y + ("-" + z) && r' == y' + ("-" + z');
      if y != y' {
        StrLessSameLength(y, y', "-" + z, "-" + z');
      } else {
        assert r == (y + "-") + z && r' == (y + "-") + z';
        StrLessCommonPrefix(y + "-", z, z');
      }
    }
  }

  /** For numbers below 100 the string order of IDs is the order of (phase, plan, task). */
  lemma StoryIdOrder(a: int, b: int, c: int, a': int, b': int, c': int)
    requires 0 <= a < 100 && 0 <= b < 100 && 0 <= c < 100
    requires 0 <= a' < 100 && 0 <= b' < 100 && 0 <= c' < 100
    ensures StrLess(StoryId(a, b, c), StoryId(a', b', c'))
        <==> (a < a' || (a == a' && (b < b' || (b == b' && c < c'))))
  {
    TwoDigitOrder(a, a');
    TwoDigitOrder(b, b');
    TwoDigitOrder(c, c');
    Pad2TwoDigits(a);
    Pad2TwoDigits(a');
    Pad2TwoDigits(b);
    Pad2TwoDigits(b');
    FieldwiseOrder(Pad2(a), Pad2(b), Pad2(c), Pad2(a'), Pad2(b'), Pad2(c'));
  }

  /** From 100 on the string order departs from the numeric one: plan 100 sorts before plan 20. */
  lemma StoryIdOrderBreaks()
    ensures StrLess(StoryId(1, 100, 1), StoryId(1, 20, 1))
  {
    assert Digits(100) == Digits(10) + "0" == "100";
    assert Digits(20) == "20";
    assert StoryId(1, 100, 1) == "US-01" + "100-01";
    assert StoryId(1, 20, 1) == "US-01" + "20-01";
    StrLessCommonPrefix("US-01", "100-01", "20-01");
  }

  // ---------------------------------------------------------------------------------------
  // Title: re.sub(r'^Task\s+\d+:\s*', '', task.get('name', 'Unnamed Task'))

  /** The end of a leading `Task\s+\d+:\s*` in `name`, when `name` has one. The classes `\s` and
      `\d` are disjoint and exclude `:`, so each greedy run is the only one that can match. */
  function TaskPrefixEnd(name: string): (r: Option<nat>)
    ensures r.Some? ==> 6 < r.value <= |name| && StartsWith(name, "Task") && IsSpace(name[4])
  {
    if !StartsWith(name, "Task") then None
    else
      var a := SpanSpaces(name, 4);
      var b := SpanDigits(name, a);
      if a == 4 || b == a || b == |name| || name[b] != ':' then None
      else Some(SpanSpaces(name, b + 1))
  }

  /** `name` with at most one leading `Task N:` label removed. */
  function StripTaskPrefix(name: string): (r: string)
    ensures |r| <= |name| && r == name[|name| - |r|..]
    ensures !StartsWith(name, "Task") ==> r == name
  {
    match TaskPrefixEnd(name)
    case None => name
    case Some(e) => name[e..]
  }

  /** `name` starts with `Task`, a run of whitespace `name[4..a]`, a run of digits `name[a..b]`
      and `:`: the part of the label the pattern needs (the trailing `\s*` may be empty). */
  predicate LabelRuns(name: string, a: nat, b: nat) {
    && 4 < a < b < |name| && StartsWith(name, "Task")
    && AllSpaces(name[4..a]) && AllDigits(name[a..b]) && name[b] == ':'
  }

  /** `name` begins with a `Task N:` label. */
  predicate HasTaskLabel(name: string) {
    exists a: nat, b: nat | a < b < |name| :: LabelRuns(name, a, b)
  }

  /** The title is the name unchanged exactly when the name does not begin with a `Task N:`
      label; so `Task force` or `Task 1 Build` are kept as they are. */
  lemma StripTaskPrefixUnchanged(name: string)
    ensures StripTaskPrefix(name) == name <==> !HasTaskLabel(name)
  {
    if TaskPrefixEnd(name).Some? {
      var a := SpanSpaces(name, 4);
      var b := SpanDigits(name, a);
      assert AllSpaces(name[4..a]) && AllDigits(name[a..b]);
      assert LabelRuns(name, a, b);
    }
    if HasTaskLabel(name) {
      var a: nat, b: nat :| a < b < |name| && LabelRuns(name, a, b);
      assert forall k :: 4 <= k < a ==> name[4..a][k - 4] == name[k];
      assert forall k :: a <= k < b ==> name[a..b][k - a] == name[k];
      SpanSpacesIs(name, 4, a);
      SpanDigitsIs(name, a, b);
      assert TaskPrefixEnd(name).Some?;
    }
  }

  /** `re.sub(r'^Task\s+\d+:\s*', '', task.get('name', 'Unnamed Task'))`. */
  function Title(task: TaskRecord): (r: string)
    ensures "name" !in task ==> r == "Unnamed Task"
    ensures "name" in task ==> |r| <= |task["name"]| && r == task["name"][|task["name"]| - |r|..]
    ensures "name" in task ==> (r == task["name"] <==> !HasTaskLabel(task["name"]))
  {
    var name := Get(task, "name", "Unnamed Task");
    assert "Unnamed Task"[0] != "Task"[0];
    StripTaskPrefixUnchanged(name);
    StripTaskPrefix(name)
  }

  /** A task without a `name` is titled "Unnamed Task". */
  lemma TitleWithoutName(task: TaskRecord)
    requires "name" !in task
    ensures Title(task) == "Unnamed Task"
  {
    assert "Unnamed Task"[0] != "Task"[0];
  }

  /** The label `Task <digits>:` with its surrounding whitespace is removed, and only it. */
  lemma TitleLabelRemoved(gap: string, digits: string, gap': string, rest: string)
    requires gap != [] && AllSpaces(gap)
    requires digits != [] && AllDigits(digits)
    requires AllSpaces(gap')
    requires rest == [] || !IsSpace(rest[0])
    ensures StripTaskPrefix("Task" + gap + digits + ":" + gap' + rest) == rest
  {
    var name := "Task" + gap + digits + ":" + gap' + rest;
    var u := "Task" + gap + digits + ":";
    var v := digits + ":" + gap' + rest;
    LabelParts(gap, digits, gap', rest);
    assert v[0] == digits[0];
    SpanSpacesOver("Task", gap, v);
    SpanDigitsOver("Task" + gap, digits, ":" + gap' + rest);
    SpanSpacesOver(u, gap', rest);
    Slices3(u, gap', rest);
    LabelSpans(name, 4 + |gap|, 4 + |gap| + |digits|, |u| + |gap'|, rest);
  }

  /** `Task<gap><digits>:<gap'><rest>`, grouped as each run of the pattern reads it. */
  lemma LabelParts(gap: string, digits: string, gap': string, rest: string)
    ensures var name := "Task" + gap + digits + ":" + gap' + rest;
      && name == "Task" + gap + (digits + ":" + gap' + rest)
      && name == "Task" + gap + digits + (":" + gap' + rest)
      && name[..4] == "Task"
      && name[4 + |gap| + |digits|] == ':'
      && |"Task" + gap + digits + ":"| == 4 + |gap| + |digits| + 1
  {
    var name := "Task" + gap + digits + ":" + gap' + rest;
    assert name[4 + |gap| + |digits|] == (":" + gap' + rest)[0];
  }

  /** The label pattern over a name whose runs are known. */
  lemma LabelSpans(name: string, a: nat, b: nat, e: nat, rest: string)
    requires StartsWith(name, "Task") && 4 < a && SpanSpaces(name, 4) == a
    requires a < b < |name| && SpanDigits(name, a) == b && name[b] == ':'
    requires SpanSpaces(name, b + 1) == e && name[e..] == rest
    ensures StripTaskPrefix(name) == rest
  {
    LabelEnd(name, a, b, e);
  }

  /** Where the label pattern's match ends, from its runs. */
  lemma LabelEnd(name: string, a: nat, b: nat, e: nat)
    requires StartsWith(name, "Task") && 4 < a && SpanSpaces(name, 4) == a
    requires a < b < |name| && SpanDigits(name, a) == b && name[b] == ':'
    requires SpanSpaces(name, b + 1) == e
    ensures TaskPrefixEnd(name) == Some(e)
  {
  }

  // ---------------------------------------------------------------------------------------
  // Description: '\n'.join([action] + ([f"\nFiles: {files}"] if files else [])).strip()

  function Description(task: TaskRecord): (r: string)
    ensures IsStripped(r)
  {
    var action := Get(task, "action", "");
    Strip(if Truthy(task, "files") then action + "\n" + "\nFiles: " + task["files"] else action)
  }

  /** For stripped field values (as extraction delivers them) the description is the action,
      followed by a blank line and a `Files:` line when `files` is given. */
  lemma DescriptionLayout(task: TaskRecord)
    requires "action" in task ==> IsStripped(task["action"])
    requires "files" in task ==> IsStripped(task["files"])
    ensures !Truthy(task, "files") ==> Description(task) == Get(task, "action", "")
    ensures Truthy(task, "files") && Get(task, "action", "") != "" ==>
      Description(task) == task["action"] + "\n\nFiles: " + task["files"]
    ensures Truthy(task, "files") && Get(task, "action", "") == "" ==>
      Description(task) == "Files: " + task["files"]
  {
    if Truthy(task, "files") {
      FilesLine(Get(task, "action", ""), task["files"]);
    }
  }

  /** The text `action + "\n" + "\nFiles: " + files` once stripped. */
  lemma FilesLine(action: string, files: string)
    requires IsStripped(action) && IsStripped(files) && files != ""
    ensures action != "" ==> Strip(action + "\n" + "\nFiles: " + files) == action + "\n\nFiles: " + files
    ensures action == "" ==> Strip(action + "\n" + "\nFiles: " + files) == "Files: " + files
  {
    var line := "Files: " + files;
    var text := action + "\n" + "\nFiles: " + files;
    assert text == action + "\n\n" + line;
    assert line[|line| - 1] == files[|files| - 1];
    if action != "" {
      assert text[0] == action[0] && text[|text| - 1] == files[|files| - 1];
      assert IsStripped(text);
    } else {
      assert text == "\n\n" + line;
      assert line[0] == 'F';
      assert IsStripped(line);
      StripSpacesBefore("\n\n", line);
    }
  }

  // ---------------------------------------------------------------------------------------
  // Acceptance criteria: done, then the plan's truths, then one check per artifact

  function DoneCriterion(task: TaskRecord): seq<string> {
    if Truthy(task, "done") then [task["done"]] else []
  }

  /** `[f"File exists: {a}" for a in artifacts]`. */
  function FileChecks(artifacts: seq<string>): (r: seq<string>)
    ensures |r| == |artifacts|
    ensures forall k :: 0 <= k < |r| ==> r[k] == "File exists: " + artifacts[k]
  {
    if artifacts == [] then []
    else FileChecks(artifacts[..|artifacts| - 1]) + ["File exists: " + artifacts[|artifacts| - 1]]
  }

  lemma FileChecksStep(artifacts: seq<string>, k: nat)
    requires k < |artifacts|
    ensures FileChecks(artifacts[..k + 1]) == FileChecks(artifacts[..k]) + ["File exists: " + artifacts[k]]
  {
    assert artifacts[..k + 1][..k] == artifacts[..k];
  }

  function Criteria(task: TaskRecord, mustHaves: MustHaves): (r: seq<string>)
    ensures |r| == (if Truthy(task, "done") then 1 else 0) + |mustHaves.truths.GetOr([])| + |mustHaves.artifacts.GetOr([])|
  {
    DoneCriterion(task) + mustHaves.truths.GetOr([]) + FileChecks(mustHaves.artifacts.GetOr([]))
  }

  /** The criteria list in order: the `done` text when present and non-empty, every truth in
      order, then `File exists: a` for every artifact `a` in order; nothing else. */
  lemma CriteriaLayout(task: TaskRecord, mustHaves: MustHaves)
    ensures var c := Criteria(task, mustHaves);
      var truths := mustHaves.truths.GetOr([]);
      var artifacts := mustHaves.artifacts.GetOr([]);
      var d := if Truthy(task, "done") then 1 else 0;
      && |c| == d + |truths| + |artifacts|
      && (Truthy(task, "done") ==> c[0] == task["done"])
      && (forall i :: 0 <= i < |truths| ==> c[d + i] == truths[i])
      && (forall k :: 0 <= k < |artifacts| ==> c[d + |truths| + k] == "File exists: " + artifacts[k])
  {
  }

  // ---------------------------------------------------------------------------------------
  // Tests: re.split(r'\s*&&\s*|\s*;\s*', verify), each piece stripped, empty pieces dropped

  /** The operator the separator pattern finds at `j`: its width, 2 for `&&`, 1 for `;`, and
      0 when there is none. */
  function OperatorWidth(s: string, j: nat): nat
    requires j <= |s|
  {
    if j + 1 < |s| && s[j] == '&' && s[j + 1] == '&' then 2
    else if j < |s| && s[j] == ';' then 1
    else 0
  }

  /** The separator pattern tried at `i`: the end of its match, if it matches there. Both
      alternatives open with the greedy `\s*`, which is followed by a non-space, so only the
      maximal run can be followed by `&&` or `;`. */
  function SeparatorEnd(s: string, i: nat): (r: Option<nat>)
    requires i <= |s|
    ensures r.Some? ==> i < r.value <= |s|
  {
    var j := SpanSpaces(s, i);
    var w := OperatorWidth(s, j);
    if w == 0 then None else Some(SpanSpaces(s, j + w))
  }

  /** The leftmost separator match at or after `i`: its start and its end. */
  function FirstSeparator(s: string, i: nat): (r: Option<(nat, nat)>)
    requires i <= |s|
    decreases |s| - i
    ensures r.Some? ==> i <= r.value.0 < r.value.1 <= |s|
  {
    if i == |s| then None
    else match SeparatorEnd(s, i)
      case Some(e) => Some((i, e))
      case None => FirstSeparator(s, i + 1)
  }

  /** `FirstSeparator` finds a match, and no match starts before it; or there is none. */
  lemma FirstSeparatorSpec(s: string, i: nat)
    requires i <= |s|
    ensures var r := FirstSeparator(s, i);
      && (r.Some? ==> SeparatorEnd(s, r.value.0) == Some(r.value.1))
      && (r.Some? ==> forall q :: i <= q < r.value.0 ==> SeparatorEnd(s, q).None?)
      && (r.None? ==> forall q :: i <= q < |s| ==> SeparatorEnd(s, q).None?)
  {
    if FirstSeparator(s, i).Some? {
      FirstSeparatorFound(s, i);
    } else {
      FirstSeparatorAbsent(s, i);
    }
  }

  /** A match `FirstSeparator` finds is one, and none starts before it. */
  lemma {:induction false} FirstSeparatorFound(s: string, i: nat)
    requires i <= |s| && FirstSeparator(s, i).Some?
    decreases |s| - i
    ensures SeparatorEnd(s, FirstSeparator(s, i).value.0) == Some(FirstSeparator(s, i).value.1)
    ensures forall q :: i <= q < FirstSeparator(s, i).value.0 ==> SeparatorEnd(s, q).None?
  {
    if SeparatorEnd(s, i).None? {
      FirstSeparatorFound(s, i + 1);
    }
  }

  /** Where `FirstSeparator` finds nothing, no match starts. */
  lemma {:induction false} FirstSeparatorAbsent(s: string, i: nat)
    requires i <= |s| && FirstSeparator(s, i).None?
    decreases |s| - i
    ensures forall q :: i <= q < |s| ==> SeparatorEnd(s, q).None?
  {
    if i < |s| {
      FirstSeparatorAbsent(s, i + 1);
    }
  }

  /** The leftmost separator match answers `FirstSeparator`. */
  lemma FirstSeparatorIs(s: string, i: nat, p: nat, e: nat)
    requires i <= p < |s| && SeparatorEnd(s, p) == Some(e)
    requires forall q :: i <= q < p ==> SeparatorEnd(s, q).None?
    decreases p - i
    ensures FirstSeparator(s, i) == Some((p, e))
  {
    if i < p {
      FirstSeparatorIs(s, i + 1, p, e);
      FirstSeparatorSkip(s, i);
    }
  }

  /** Where no match starts at or after `i`, `FirstSeparator` finds none. */
  lemma FirstSeparatorNone(s: string, i: nat)
    requires i <= |s|
    requires forall q :: i <= q < |s| ==> SeparatorEnd(s, q).None?
    ensures FirstSeparator(s, i).None?
  {
    var q := |s|;
    while q > i
      invariant i <= q <= |s|
      invariant FirstSeparator(s, q).None?
    {
      q := q - 1;
      FirstSeparatorSkip(s, q);
    }
  }

  /** No match at `q`: the search moves on. */
  lemma FirstSeparatorSkip(s: string, q: nat)
    requires q < |s| && SeparatorEnd(s, q).None?
    ensures FirstSeparator(s, q) == FirstSeparator(s, q + 1)
  {
  }

  /** Where the separator pattern does not match, there is neither a `;` nor an `&&`. */
  lemma NoSeparatorAt(s: string, q: nat)
    requires q < |s| && SeparatorEnd(s, q).None?
    ensures s[q] != ';' && !(q + 1 < |s| && s[q] == '&' && s[q + 1] == '&')
  {
    if !IsSpace(s[q]) {
      SpanSpacesIs(s, q, q);
    }
  }

  /** A text before the first separator match holds no `;` and no `&&`. */
  lemma NoSeparatorBefore(s: string, p: nat)
    requires p <= |s|
    requires forall q :: 0 <= q < p ==> SeparatorEnd(s, q).None?
    ensures SeparatorFree(s[..p])
  {
    var t := s[..p];
    forall q | 0 <= q < p ensures t[q] != ';' && !(q + 1 < p && t[q] == '&' && t[q + 1] == '&') {
      NoSeparatorAt(s, q);
    }
    forall k | 0 <= k <= p ensures !IsAt(t, k, "&&") {
      if k + 2 <= p {
        assert t[k..k + 2][0] == t[k] && t[k..k + 2][1] == t[k + 1];
      }
    }
  }

  /** A text holding neither `;` nor `&&`. */
  predicate SeparatorFree(c: string) {
    NoChar(c, ';') && Free(c, "&&")
  }

  /** `re.split` with the separator pattern (which never matches the empty string). */
  function SplitCommands(s: string): (pieces: seq<string>)
    decreases |s|
    ensures |pieces| >= 1
    ensures forall k :: 0 <= k < |pieces| ==> SeparatorFree(pieces[k])
  {
    FirstSeparatorSpec(s, 0);
    match FirstSeparator(s, 0)
    case None =>
      NoSeparatorBefore(s, |s|);
      assert s[..|s|] == s;
      [s]
    case Some((p, e)) =>
      NoSeparatorBefore(s, p);
      [s[..p]] + SplitCommands(s[e..])
  }

  /** `[cmd.strip() for cmd in pieces[:n] if cmd.strip()]`. */
  function KeptUpTo(pieces: seq<string>, n: nat): seq<string>
    requires n <= |pieces|
  {
    if n == 0 then []
    else
      var c := Strip(pieces[n - 1]);
      KeptUpTo(pieces, n - 1) + (if c != "" then [c] else [])
  }

  /** `[cmd.strip() for cmd in pieces if cmd.strip()]`. */
  function Kept(pieces: seq<string>): seq<string> {
    KeptUpTo(pieces, |pieces|)
  }

  /** A kept text comes from the pieces before `n`, or is the stripped piece `n - 1`. */
  lemma KeptLast(pieces: seq<string>, n: nat, k: nat)
    requires 0 < n <= |pieces| && k < |KeptUpTo(pieces, n)|
    ensures if k < |KeptUpTo(pieces, n - 1)| then KeptUpTo(pieces, n)[k] == KeptUpTo(pieces, n - 1)[k]
      else KeptUpTo(pieces, n)[k] == Strip(pieces[n - 1]) != ""
  {
  }

  /** What is kept is stripped and not empty. */
  lemma KeptStripped(pieces: seq<string>)
    ensures forall k :: 0 <= k < |Kept(pieces)| ==> Kept(pieces)[k] != "" && IsStripped(Kept(pieces)[k])
  {
    for n := 0 to |pieces|
      invariant forall k :: 0 <= k < |KeptUpTo(pieces, n)| ==> KeptUpTo(pieces, n)[k] != "" && IsStripped(KeptUpTo(pieces, n)[k])
    {
      ghost var next := KeptUpTo(pieces, n + 1);
      forall k | 0 <= k < |next| ensures next[k] != "" && IsStripped(next[k]) {
        KeptLast(pieces, n + 1, k);
      }
    }
  }

  /** Stripping and dropping pieces adds no separator. */
  lemma KeptSeparatorFree(pieces: seq<string>)
    requires forall k :: 0 <= k < |pieces| ==> SeparatorFree(pieces[k])
    ensures forall k :: 0 <= k < |Kept(pieces)| ==> SeparatorFree(Kept(pieces)[k])
  {
    for n := 0 to |pieces|
      invariant forall k :: 0 <= k < |KeptUpTo(pieces, n)| ==> SeparatorFree(KeptUpTo(pieces, n)[k])
    {
      StripKeepsAbsence(pieces[n], "&&", ';');
      ghost var next := KeptUpTo(pieces, n + 1);
      forall k | 0 <= k < |next| ensures SeparatorFree(next[k]) {
        KeptLast(pieces, n + 1, k);
      }
    }
  }

  /** The commands of a `verify` text: non-empty, stripped, and free of the separators. */
  function Commands(verify: string): (r: seq<string>)
    ensures forall k :: 0 <= k < |r| ==> r[k] != "" && IsStripped(r[k])
    ensures forall k :: 0 <= k < |r| ==> SeparatorFree(r[k])
  {
    KeptSeparatorFree(SplitCommands(verify));
    KeptStripped(SplitCommands(verify));
    Kept(SplitCommands(verify))
  }

  function Tests(task: TaskRecord): (r: seq<string>)
    ensures !Truthy(task, "verify") ==> r == []
    ensures forall k :: 0 <= k < |r| ==> r[k] != "" && IsStripped(r[k]) && SeparatorFree(r[k])
  {
    if Truthy(task, "verify") then Commands(task["verify"]) else []
  }

  /** A command that survives being joined and split: non-empty, stripped, no `&` and no `;`. */
  predicate PlainCommand(c: string) {
    c != "" && IsStripped(c) && NoChar(c, '&') && NoChar(c, ';')
  }

  /** A separator as the pattern spells it: optional whitespace, `&&` or `;`, optional
      whitespace. */
  datatype Separator = Separator(before: string, op: string, after: string)

  predicate ValidSeparator(sp: Separator) {
    AllSpaces(sp.before) && AllSpaces(sp.after) && (sp.op == "&&" || sp.op == ";")
  }

  function SeparatorText(sp: Separator): string {
    sp.before + sp.op + sp.after
  }

  /** `cs[0] + sep(0) + cs[1] + ... + cs[n]`. */
  function Interleave(cs: seq<string>, seps: seq<Separator>): string
    requires |cs| == |seps| + 1
  {
    if seps == [] then cs[0] else cs[0] + SeparatorText(seps[0]) + Interleave(cs[1..], seps[1..])
  }

  /** Where the leftmost separator match runs from `p` to `e`, the text before it is the first
      piece and the splitting goes on after it. */
  lemma SplitAt(s: string, p: nat, e: nat, head: string, tail: string)
    requires p < |s| && SeparatorEnd(s, p) == Some(e)
    requires forall q :: 0 <= q < p ==> SeparatorEnd(s, q).None?
    requires s[..p] == head && s[e..] == tail
    ensures SplitCommands(s) == [head] + SplitCommands(tail)
  {
    FirstSeparatorIs(s, 0, p, e);
  }

  /** No separator match starts inside a plain command, whatever follows it. */
  lemma NoSeparatorInCommandText(c: string, x: string, rest: string)
    requires PlainCommand(c)
    ensures forall q :: 0 <= q < |c| ==> SeparatorEnd(c + x + rest, q).None?
  {
    var s := c + x + rest;
    assert s == c + (x + rest);
    forall q | 0 <= q < |c| ensures SeparatorEnd(s, q).None? {
      NoSeparatorInCommand(c, x + rest, q);
    }
  }

  /** No separator match starts at a position `q` inside a plain command. */
  lemma NoSeparatorInCommand(c: string, t: string, q: nat)
    requires PlainCommand(c) && q < |c|
    ensures SeparatorEnd(c + t, q).None?
  {
    var s := c + t;
    var j := SpanSpaces(s, q);
    assert s[|c| - 1] == c[|c| - 1] && !IsSpace(s[|c| - 1]);
    assert j < |c|;
    assert s[j] == c[j];
  }

  /** The pattern matches a whole separator, followed by a non-space (or nothing), exactly
      where it stands. */
  lemma SeparatorInContext(s: string, u: string, sp: Separator, v: string)
    requires ValidSeparator(sp)
    requires v == [] || !IsSpace(v[0])
    requires s == u + SeparatorText(sp) + v
    ensures |u| + |SeparatorText(sp)| <= |s|
    ensures SeparatorEnd(s, |u|) == Some(|u| + |SeparatorText(sp)|)
  {
    var j := |u| + |sp.before|;
    SeparatorParts(u, sp, v);
    SeparatorLead(s, u, sp, v);
    SeparatorOperator(s, u, sp, v);
    SeparatorTrail(s, u, sp, v);
    SeparatorEndIs(s, |u|, j, |sp.op|, j + |sp.op| + |sp.after|);
  }

  /** The whitespace before the operator is what the leading `\s*` takes. */
  lemma SeparatorLead(s: string, u: string, sp: Separator, v: string)
    requires ValidSeparator(sp)
    requires s == u + sp.before + sp.op + sp.after + v
    ensures SpanSpaces(s, |u|) == |u| + |sp.before|
  {
    Regroup(u + sp.before, sp.op, sp.after, v);
    assert (sp.op + sp.after + v)[0] == sp.op[0];
    SpanSpacesOver(u, sp.before, sp.op + sp.after + v);
  }

  /** The operator stands after the leading whitespace. */
  lemma SeparatorOperator(s: string, u: string, sp: Separator, v: string)
    requires ValidSeparator(sp)
    requires s == u + sp.before + sp.op + sp.after + v
    ensures |u| + |sp.before| + |sp.op| <= |s|
    ensures OperatorWidth(s, |u| + |sp.before|) == |sp.op|
  {
    var j := |u| + |sp.before|;
    Slices3(u + sp.before, sp.op, sp.after + v);
    Regroup(u + sp.before, sp.op, sp.after, v);
    assert s[j] == sp.op[0];
    if sp.op == "&&" {
      assert s[j + 1] == sp.op[1];
    }
  }

  /** The whitespace after the operator, up to a non-space, is what the trailing `\s*` takes. */
  lemma SeparatorTrail(s: string, u: string, sp: Separator, v: string)
    requires ValidSeparator(sp)
    requires v == [] || !IsSpace(v[0])
    requires s == u + sp.before + sp.op + sp.after + v
    ensures SpanSpaces(s, |u| + |sp.before| + |sp.op|) == |u| + |sp.before| + |sp.op| + |sp.after|
  {
    SpanSpacesOver(u + sp.before + sp.op, sp.after, v);
  }

  /** A separator text in context, written out part by part. */
  lemma SeparatorParts(u: string, sp: Separator, v: string)
    ensures u + SeparatorText(sp) + v == u + sp.before + sp.op + sp.after + v
    ensures |SeparatorText(sp)| == |sp.before| + |sp.op| + |sp.after|
  {
  }

  /** The separator match at `n`, from its parts. */
  lemma SeparatorEndIs(s: string, n: nat, j: nat, w: nat, e: nat)
    requires n <= |s| && SpanSpaces(s, n) == j
    requires j + w <= |s| && OperatorWidth(s, j) == w > 0
    requires SpanSpaces(s, j + w) == e
    ensures SeparatorEnd(s, n) == Some(e)
  {
  }

  /** A valid separator on its own is matched as a whole. */
  lemma SeparatorMatchesWhole(sp: Separator)
    requires ValidSeparator(sp)
    ensures SeparatorEnd(SeparatorText(sp), 0) == Some(|SeparatorText(sp)|)
  {
    Slices3([], SeparatorText(sp), []);
    SeparatorInContext(SeparatorText(sp), [], sp, []);
  }

  /** Splitting plain commands joined by separator texts gives the commands back. */
  lemma {:induction false} SplitInterleaved(cs: seq<string>, seps: seq<Separator>)
    requires |cs| == |seps| + 1
    requires forall k :: 0 <= k < |cs| ==> PlainCommand(cs[k])
    requires forall k :: 0 <= k < |seps| ==> ValidSeparator(seps[k])
    ensures SplitCommands(Interleave(cs, seps)) == cs
  {
    if seps == [] {
      SplitPlain(cs[0]);
    } else {
      var rest := Interleave(cs[1..], seps[1..]);
      InterleaveStart(cs[1..], seps[1..]);
      SplitStep(Interleave(cs, seps), cs[0], seps[0], rest);
      SplitInterleaved(cs[1..], seps[1..]);
      assert cs == [cs[0]] + cs[1..];
    }
  }

  /** A joined text starts with the first character of its first command. */
  lemma InterleaveStart(cs: seq<string>, seps: seq<Separator>)
    requires |cs| == |seps| + 1 && cs[0] != []
    ensures Interleave(cs, seps) != [] && Interleave(cs, seps)[0] == cs[0][0]
  {
  }

  /** A plain command on its own is not split. */
  lemma SplitPlain(c: string)
    requires PlainCommand(c)
    ensures SplitCommands(c) == [c]
  {
    forall q | 0 <= q < |c| ensures SeparatorEnd(c, q).None? {
      NoSeparatorInCommand(c, "", q);
      assert c + "" == c;
    }
    FirstSeparatorNone(c, 0);
    assert c[..|c|] == c;
  }

  /** A plain command followed by a separator text is split off as the first piece. */
  lemma SplitStep(s: string, c: string, sp: Separator, rest: string)
    requires PlainCommand(c) && ValidSeparator(sp)
    requires rest == [] || !IsSpace(rest[0])
    requires s == c + SeparatorText(sp) + rest
    ensures SplitCommands(s) == [c] + SplitCommands(rest)
  {
    var n := |c| + |SeparatorText(sp)|;
    SeparatorAfterCommand(s, c, sp, rest);
    SplitAt(s, |c|, n, c, rest);
  }

  /** The first separator match after a plain command, and the parts around it. */
  lemma SeparatorAfterCommand(s: string, c: string, sp: Separator, rest: string)
    requires PlainCommand(c) && ValidSeparator(sp)
    requires rest == [] || !IsSpace(rest[0])
    requires s == c + SeparatorText(sp) + rest
    ensures |c| < |s| && SeparatorEnd(s, |c|) == Some(|c| + |SeparatorText(sp)|)
    ensures forall q :: 0 <= q < |c| ==> SeparatorEnd(s, q).None?
    ensures s[..|c|] == c && s[|c| + |SeparatorText(sp)|..] == rest
  {
    NoSeparatorInCommandText(c, SeparatorText(sp), rest);
    SeparatorInContext(s, c, sp, rest);
    Slices3(c, SeparatorText(sp), rest);
  }

  /** Keeping the stripped non-empty pieces of plain commands keeps them all. */
  lemma KeptPlain(cs: seq<string>)
    requires forall k :: 0 <= k < |cs| ==> PlainCommand(cs[k])
    ensures Kept(cs) == cs
  {
    for n := 0 to |cs|
      invariant KeptUpTo(cs, n) == cs[..n]
    {
      KeptPlainStep(cs, n);
    }
    assert cs[..|cs|] == cs;
  }

  /** A plain command after pieces kept as they stand is kept as well. */
  lemma KeptPlainStep(cs: seq<string>, n: nat)
    requires n < |cs| && PlainCommand(cs[n]) && KeptUpTo(cs, n) == cs[..n]
    ensures KeptUpTo(cs, n + 1) == cs[..n + 1]
  {
    var c := Strip(cs[n]);
    assert c == cs[n] != "";
    assert KeptUpTo(cs, n + 1) == KeptUpTo(cs, n) + [c];
    assert cs[..n + 1] == cs[..n] + [cs[n]];
  }

  /** Round trip: joining plain commands with `&&` / `;` separators and deriving the tests
      gives the commands back, in order. */
  lemma CommandsRoundTrip(cs: seq<string>, seps: seq<Separator>)
    requires |cs| == |seps| + 1
    requires forall k :: 0 <= k < |cs| ==> PlainCommand(cs[k])
    requires forall k :: 0 <= k < |seps| ==> ValidSeparator(seps[k])
    ensures Commands(Interleave(cs, seps)) == cs
  {
    SplitInterleaved(cs, seps);
    KeptPlain(cs);
  }

  /** `"a && b; c"` gives `["a", "b", "c"]`. */
  lemma CommandsExample()
    ensures Commands("a && b; c") == ["a", "b", "c"]
  {
    var and, semi := Separator(" ", "&&", " "), Separator("", ";", " ");
    var cs := ["a", "b", "c"];
    forall k | 0 <= k < 3 ensures PlainCommand(cs[k]) {
    }
    assert Interleave(cs[2..], []) == "c";
    assert Interleave(cs[1..], [semi]) == "b" + "; " + "c";
    assert Interleave(cs, [and, semi]) == "a" + " && " + ("b" + "; " + "c");
    assert "a" + " && " + ("b" + "; " + "c") == "a && b; c";
    CommandsRoundTrip(cs, [and, semi]);
  }

  // ---------------------------------------------------------------------------------------
  // The story

  /** The story `convert_task_to_story` builds; its priority is the plan's wave until the
      assembler renumbers it. */
  function StoryOf(task: TaskRecord, phaseNum: int, planNum: int, taskNum: int, wave: int, mustHaves: MustHaves)
    : (r: UserStory)
    ensures !r.passes && !r.blocked && r.blockedReason == "" && r.notes == ""
  {
    UserStory(StoryId(phaseNum, planNum, taskNum), Title(task), wave, Description(task),
              Criteria(task, mustHaves), Tests(task), false, false, "", "")
  }

  /** A story's ID comes from its numbers, and its priority is its plan's wave. */
  lemma StoryOfKey(task: TaskRecord, phaseNum: int, planNum: int, taskNum: int, wave: int, mustHaves: MustHaves)
    ensures StoryOf(task, phaseNum, planNum, taskNum, wave, mustHaves).id == StoryId(phaseNum, planNum, taskNum)
    ensures StoryOf(task, phaseNum, planNum, taskNum, wave, mustHaves).priority == wave
  {
  }

  /** `convert_task_to_story`. */
  method ConvertTaskToStory(task: TaskRecord, phaseNum: int, planNum: int, taskNum: int, wave: int, mustHaves: MustHaves)
    returns (story: UserStory)
    ensures story == StoryOf(task, phaseNum, planNum, taskNum, wave, mustHaves)
  {
    var id := StoryId(phaseNum, planNum, taskNum);
    var title := Title(task);
    var description := Description(task);
    var criteria := BuildCriteria(task, mustHaves);
    var tests := BuildTests(task);
    story := UserStory(id, title, wave, description, criteria, tests, false, false, "", "");
  }

  /** The criteria list of `convert_task_to_story`, built by appending. */
  method BuildCriteria(task: TaskRecord, mustHaves: MustHaves) returns (criteria: seq<string>)
    ensures criteria == Criteria(task, mustHaves)
  {
    criteria := [];
    if Truthy(task, "done") {
      criteria := criteria + [task["done"]];
    }
    var truths := mustHaves.truths.GetOr([]);
    criteria := criteria + truths;
    ghost var before := criteria;
    var artifacts := mustHaves.artifacts.GetOr([]);
    for k := 0 to |artifacts|
      invariant criteria == before + FileChecks(artifacts[..k])
    {
      FileChecksStep(artifacts, k);
      criteria := criteria + ["File exists: " + artifacts[k]];
    }
    assert artifacts[..|artifacts|] == artifacts;
  }

  /** The tests list of `convert_task_to_story`: each split command, stripped, unless empty. */
  method BuildTests(task: TaskRecord) returns (tests: seq<string>)
    ensures tests == Tests(task)
  {
    tests := [];
    if Truthy(task, "verify") {
      tests := KeepCommands(SplitCommands(task["verify"]));
    }
  }

  /** The comprehension over the split pieces: each stripped, the empty ones dropped. */
  method KeepCommands(pieces: seq<string>) returns (tests: seq<string>)
    ensures tests == Kept(pieces)
  {
    tests := [];
    for k := 0 to |pieces|
      invariant tests == KeptUpTo(pieces, k)
    {
      var cmd := Strip(pieces[k]);
      if cmd != "" {
        tests := tests + [cmd];
      }
    }
  }

  /** A record with only a `type` gives the title "Unnamed Task", an empty description, no
      tests, and only the plan's criteria. */
  lemma BareTaskStory(task: TaskRecord, phaseNum: int, planNum: int, taskNum: int, wave: int, mustHaves: MustHaves)
    requires task.Keys == {"type"}
    ensures var s := StoryOf(task, phaseNum, planNum, taskNum, wave, mustHaves);
      && s.title == "Unnamed Task" && s.description == "" && s.tests == []
      && s.acceptanceCriteria == mustHaves.truths.GetOr([]) + FileChecks(mustHaves.artifacts.GetOr([]))
  {
    OnlyType(task);
    TitleWithoutName(task);
    AbsentFields(task);
    var truths := mustHaves.truths.GetOr([]);
    var checks := FileChecks(mustHaves.artifacts.GetOr([]));
    assert Criteria(task, mustHaves) == [] + truths + checks;
    assert [] + truths + checks == truths + checks;
  }

  lemma OnlyType(task: TaskRecord)
    requires task.Keys == {"type"}
    ensures "name" !in task && "done" !in task && "files" !in task && "verify" !in task && "action" !in task
  {
    assert "name"[0] != "type"[0] && "done"[0] != "type"[0] && "files"[0] != "type"[0];
    assert "verify"[0] != "type"[0] && "action"[0] != "type"[0];
  }

  lemma AbsentFields(task: TaskRecord)
    requires "done" !in task && "files" !in task && "verify" !in task && "action" !in task
    ensures Description(task) == "" && Tests(task) == [] && DoneCriterion(task) == []
  {
  }
}
