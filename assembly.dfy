/** From plan documents to the work-item document: `convert_plan_file` and `generate_prd`. */
module Assembly {
  import opened Wrappers
  import opened Text
  import opened Frontmatter
  import opened TaskBlocks
  import opened StorySynthesis
  import opened Discovery
  import opened ProjectInfo
  import opened Slug
  import opened StoryOrder
  import opened Sequences

  /** The output document: a title, a branch name, a description and the ordered stories. */
  datatype Prd = Prd(project: string, branchName: string, description: string, userStories: seq<UserStory>)

  /** What a plan's metadata contributes to each of its stories. */
  datatype PlanContext = PlanContext(phaseNum: int, planNum: int, wave: int, mustHaves: MustHaves)

  /** The phase used when the metadata names none. */
  const DefaultPhase := "01-unknown"

  // ---------------------------------------------------------------------------------------
  // One plan file

  /** The phase number of a plan: the digits its phase starts with, or 1 when there are none. */
  function PhaseNumber(phase: string): (n: nat)
    ensures (phase == [] || !IsDigit(phase[0])) ==> n == 1
  {
    match LeadingNumber(phase)
    case Some(v) => v
    case None => 1
  }

  /** A phase that starts with a digit run is numbered by that run. */
  lemma PhaseNumberDigits(phase: string, digits: string, rest: string)
    requires phase == digits + rest && digits != [] && AllDigits(digits)
    requires rest == [] || !IsDigit(rest[0])
    ensures PhaseNumber(phase) == ParseNat(digits)
  {
    LeadingNumberOf(phase, digits, rest);
  }

  /** Without a phase in the metadata, the plan's stories belong to phase 1. */
  lemma DefaultPhaseIsOne(phase: string)
    requires phase == DefaultPhase
    ensures PhaseNumber(phase) == 1
  {
    assert phase == "01" + "-unknown";
    PhaseNumberDigits(phase, "01", "-unknown");
    assert ParseNat("01") == 1 by {
      assert "01"[..1] == "0";
    }
  }

  /** The metadata with its defaults filled in: phase "01-unknown", plan 1, wave 1, no must-haves. */
  function ContextOf(meta: Meta): (c: PlanContext)
    ensures meta.plan.None? ==> c.planNum == 1
    ensures meta.wave.None? ==> c.wave == 1
    ensures meta.mustHaves.None? ==> c.mustHaves == MustHaves(None, None)
    ensures meta.phase.Some? ==> c.phaseNum == PhaseNumber(meta.phase.value)
    ensures meta.phase.None? ==> c.phaseNum == 1
    ensures meta.plan.Some? ==> c.planNum == meta.plan.value
    ensures meta.wave.Some? ==> c.wave == meta.wave.value
    ensures meta.mustHaves.Some? ==> c.mustHaves == meta.mustHaves.value
  {
    DefaultPhaseIsOne(DefaultPhase);
    PlanContext(PhaseNumber(meta.phase.GetOr(DefaultPhase)), meta.plan.GetOr(1), meta.wave.GetOr(1),
                meta.mustHaves.GetOr(MustHaves(None, None)))
  }

  /** A plan without metadata gives phase 1, plan 1, wave 1 and no must-haves. */
  lemma EmptyMetaContext()
    ensures ContextOf(EmptyMeta) == PlanContext(1, 1, 1, MustHaves(None, None))
  {
    DefaultPhaseIsOne(DefaultPhase);
  }

  /** The context of a plan document. */
  function PlanContextOf(content: string, yaml: string -> YamlResult): PlanContext {
    ContextOf(ParseFrontmatter(content, yaml).0)
  }

  /** The task records of a plan document's body, in order. */
  function PlanRecords(content: string, yaml: string -> YamlResult): (r: seq<TaskRecord>)
    ensures |r| == |TaskMatches(ParseFrontmatter(content, yaml).1)|
  {
    var ms := TaskMatches(ParseFrontmatter(content, yaml).1);
    seq(|ms|, i requires 0 <= i < |ms| => RecordOf(ms[i]))
  }

  /** The story the task numbered `n` of a plan becomes. */
  function MakeStory(c: PlanContext): (TaskRecord, nat) -> UserStory {
    (t: TaskRecord, n: nat) => StoryOf(t, c.phaseNum, c.planNum, n, c.wave, c.mustHaves)
  }

  /** The stories of a plan's tasks: one per task, in order, numbered from 1. */
  function StoriesOf(tasks: seq<TaskRecord>, c: PlanContext): seq<UserStory> {
    Numbered(tasks, MakeStory(c))
  }

  /** The story of the task at index `i` is numbered `i + 1` and carries its plan's wave. */
  lemma StoriesOfKeys(tasks: seq<TaskRecord>, c: PlanContext, i: nat)
    requires i < |tasks|
    ensures |StoriesOf(tasks, c)| == |tasks|
    ensures StoriesOf(tasks, c)[i] == StoryOf(tasks[i], c.phaseNum, c.planNum, i + 1, c.wave, c.mustHaves)
    ensures StoriesOf(tasks, c)[i].id == StoryId(c.phaseNum, c.planNum, i + 1)
    ensures StoriesOf(tasks, c)[i].priority == c.wave
  {
    NumberedAt(tasks, MakeStory(c), i);
    StoryOfKey(tasks[i], c.phaseNum, c.planNum, i + 1, c.wave, c.mustHaves);
  }

  /** The stories of one plan document. */
  function PlanStories(content: string, yaml: string -> YamlResult): (r: seq<UserStory>)
    ensures |r| == |TaskMatches(ParseFrontmatter(content, yaml).1)|
  {
    NumberedLength(PlanRecords(content, yaml), MakeStory(PlanContextOf(content, yaml)));
    StoriesOf(PlanRecords(content, yaml), PlanContextOf(content, yaml))
  }

  /** `convert_plan_file`, on the text of the plan. */
  method ConvertPlanFile(content: string, yaml: string -> YamlResult) returns (stories: seq<UserStory>)
    ensures stories == PlanStories(content, yaml)
  {
    var parsed := ParseFrontmatter(content, yaml);
    var c := ContextOf(parsed.0);
    var tasks := ParseXmlTasks(parsed.1);
    RecordsAre(content, yaml, tasks);
    stories := ConvertTasks(tasks, c);
  }

  /** The loop of `convert_plan_file` over `enumerate(tasks, 1)`. */
  method ConvertTasks(tasks: seq<TaskRecord>, c: PlanContext) returns (stories: seq<UserStory>)
    ensures stories == StoriesOf(tasks, c)
  {
    stories := [];
    var taskNum := 1;
    for i := 0 to |tasks|
      invariant taskNum == i + 1
      invariant stories == StoriesOf(tasks[..i], c)
    {
      var story := ConvertTaskToStory(tasks[i], c.phaseNum, c.planNum, taskNum, c.wave, c.mustHaves);
      NumberedSnoc(tasks, MakeStory(c), i);
      stories := stories + [story];
      taskNum := taskNum + 1;
    }
    assert tasks[..|tasks|] == tasks;
  }

  /** The records `parse_xml_tasks` returns are the plan's records. */
  lemma RecordsAre(content: string, yaml: string -> YamlResult, tasks: seq<TaskRecord>)
    requires var ms := TaskMatches(ParseFrontmatter(content, yaml).1);
      |tasks| == |ms| && forall j :: 0 <= j < |tasks| ==> tasks[j] == RecordOf(ms[j])
    ensures tasks == PlanRecords(content, yaml)
  {
  }

  /** Within one plan whose phase and plan numbers are below 100 and which has fewer than 100
      tasks, no two stories share an ID. */
  lemma PlanStoryIdsDistinct(content: string, yaml: string -> YamlResult, i: nat, j: nat)
    requires var c := PlanContextOf(content, yaml); 0 <= c.phaseNum < 100 && 0 <= c.planNum < 100
    requires i < j < |PlanStories(content, yaml)| < 100
    ensures PlanStories(content, yaml)[i].id != PlanStories(content, yaml)[j].id
  {
    var c := PlanContextOf(content, yaml);
    var tasks := PlanRecords(content, yaml);
    NumberedLength(tasks, MakeStory(c));
    StoriesOfKeys(tasks, c, i);
    StoriesOfKeys(tasks, c, j);
    if StoriesOf(tasks, c)[i].id == StoriesOf(tasks, c)[j].id {
      StoryIdInjective(c.phaseNum, c.planNum, i + 1, c.phaseNum, c.planNum, j + 1);
    }
  }

  // ---------------------------------------------------------------------------------------
  // All plans

  /** The stories of the plan file `p`. */
  function ReadPlan(read: PlanPath -> string, yaml: string -> YamlResult): PlanPath -> seq<UserStory> {
    (p: PlanPath) => PlanStories(read(p), yaml)
  }

  /** The stories of all plans, plan after plan in discovery order. */
  function AllStories(plans: seq<PlanPath>, read: PlanPath -> string, yaml: string -> YamlResult): (r: seq<UserStory>)
    ensures plans == [] ==> r == []
    ensures |plans| == 1 ==> r == PlanStories(read(plans[0]), yaml)
  {
    FlattenOne(plans, ReadPlan(read, yaml));
    Flatten(plans, ReadPlan(read, yaml))
  }

  /** The stories of a run of plans are the stories of its parts, in order. */
  lemma AllStoriesAppend(xs: seq<PlanPath>, ys: seq<PlanPath>, read: PlanPath -> string, yaml: string -> YamlResult)
    ensures AllStories(xs + ys, read, yaml) == AllStories(xs, read, yaml) + AllStories(ys, read, yaml)
  {
    FlattenAppend(xs, ys, ReadPlan(read, yaml));
  }

  /** A story is collected exactly when it is one of the stories of some plan found. */
  lemma AllStoriesMember(plans: seq<PlanPath>, read: PlanPath -> string, yaml: string -> YamlResult, s: UserStory)
    ensures s in AllStories(plans, read, yaml) <==> exists i :: 0 <= i < |plans| && s in PlanStories(read(plans[i]), yaml)
  {
    FlattenMember(plans, ReadPlan(read, yaml), s);
  }

  // ---------------------------------------------------------------------------------------
  // Branch name and title

  /** `if phase_num:`: a phase was asked for and it is not 0. */
  predicate PhaseGiven(phaseNum: Option<int>) {
    phaseNum.Some? && phaseNum.value != 0
  }

  /** The branch the work goes on. */
  function BranchName(projectName: string, phaseNum: Option<int>, phaseName: string): (r: string)
    ensures StartsWith(r, "ralph/")
  {
    if PhaseGiven(phaseNum) then "ralph/phase-" + Pad2(phaseNum.value) + "-" + Slugify(phaseName)
    else "ralph/" + Slugify(projectName)
  }

  /** Without a phase, the branch is `ralph/` and the project's slug. */
  lemma BranchOfProject(projectName: string, phaseNum: Option<int>, phaseName: string)
    requires !PhaseGiven(phaseNum)
    ensures var b := BranchName(projectName, phaseNum, phaseName);
      IsSlug(b[6..]) && Letters(b[6..]) == Letters(Lower(projectName))
  {
    var b := BranchName(projectName, phaseNum, phaseName);
    assert b[6..] == Slugify(projectName);
    SlugifyIsSlug(projectName);
    SlugifyKeepsLetters(projectName);
  }

  /** With a phase from 1 to 99, the branch is `ralph/phase-`, the phase's two digits, `-` and
      the phase name's slug. */
  lemma BranchOfPhase(projectName: string, n: int, phaseName: string)
    requires 0 < n < 100
    ensures var b := BranchName(projectName, Some(n), phaseName);
      && |b| >= 15 && b[..12] == "ralph/phase-" && AllDigits(b[12..14]) && ParseNat(b[12..14]) == n
      && b[14] == '-' && IsSlug(b[15..]) && Letters(b[15..]) == Letters(Lower(phaseName))
  {
    var p := Pad2(n);
    assert |p| == 2 by {
      Pad2TwoDigits(n);
    }
    Parts4(BranchName(projectName, Some(n), phaseName), "ralph/phase-", p, "-", Slugify(phaseName));
    SlugifyIsSlug(phaseName);
    SlugifyKeepsLetters(phaseName);
  }

  /** Where the four parts of a concatenation sit. */
  lemma Parts4(b: string, u: string, v: string, w: string, x: string)
    requires b == u + v + w + x
    ensures b[..|u|] == u && b[|u|..|u| + |v|] == v
    ensures b[|u| + |v|..|u| + |v| + |w|] == w && b[|u| + |v| + |w|..] == x
  {
  }

  /** The document's title: the project name, followed by the phase when one is asked for. */
  function ProjectTitle(projectName: string, phaseNum: Option<int>, phaseName: string): (r: string)
    ensures StartsWith(r, projectName)
    ensures !PhaseGiven(phaseNum) ==> r == projectName
    ensures PhaseGiven(phaseNum) ==> EndsWith(r, phaseName + ")")
    ensures PhaseGiven(phaseNum) ==>
      r == projectName + " (Phase " + IntToString(phaseNum.value) + ": " + phaseName + ")"
  {
    if PhaseGiven(phaseNum) then
      var r := projectName + " (Phase " + IntToString(phaseNum.value) + ": " + phaseName + ")";
      assert r[..|projectName|] == projectName;
      assert r[|r| - |phaseName + ")"|..] == phaseName + ")";
      r
    else projectName
  }

  // ---------------------------------------------------------------------------------------
  // The document

  /** The error raised when no plan is found; a missing phase prints as `None`. */
  function NoPlansMessage(phaseNum: Option<int>): (r: string)
    ensures StartsWith(r, "No PLAN.md files found for phase ")
    ensures phaseNum.None? ==> r == "No PLAN.md files found for phase None"
    ensures phaseNum.Some? ==> r == "No PLAN.md files found for phase " + IntToString(phaseNum.value)
  {
    "No PLAN.md files found for phase " + (match phaseNum case None => "None" case Some(n) => IntToString(n))
  }

  /** The plans found, a missing phases directory finding none. */
  function PlanList(phases: Option<seq<PhaseEntry>>, phaseNum: Option<int>): seq<PlanPath> {
    if phases.None? then [] else Plans(phases.value, phaseNum)
  }

  /** The document `generate_prd` builds, or its error. */
  function PrdOf(projectFile: Option<string>, phases: Option<seq<PhaseEntry>>, read: PlanPath -> string,
                 yaml: string -> YamlResult, phaseNum: Option<int>, phaseInfo: (string, seq<string>))
    : (r: Result<Prd, string>)
    ensures r.Failure? <==> PlanList(phases, phaseNum) == []
    ensures r.Failure? ==> r.error == NoPlansMessage(phaseNum)
    ensures r.Success? ==> r.value.description == ExtractProjectInfo(projectFile).1
  {
    var plans := PlanList(phases, phaseNum);
    if plans == [] then Failure(NoPlansMessage(phaseNum))
    else
      var info := ExtractProjectInfo(projectFile);
      var all := AllStories(plans, read, yaml);
      Success(Prd(ProjectTitle(info.0, phaseNum, phaseInfo.0), BranchName(info.0, phaseNum, phaseInfo.0),
                  info.1, Renumbered(SortStories(all))))
  }

  /** The stories of the document are the stories of all plans, ordered by (wave, ID) with
      ties kept in discovery order, and then given priorities 1, 2, ... in that order. */
  lemma PrdStories(projectFile: Option<string>, phases: Option<seq<PhaseEntry>>, read: PlanPath -> string,
                   yaml: string -> YamlResult, phaseNum: Option<int>, phaseInfo: (string, seq<string>))
    requires PrdOf(projectFile, phases, read, yaml, phaseNum, phaseInfo).Success?
    ensures var all := AllStories(PlanList(phases, phaseNum), read, yaml);
      var stories := PrdOf(projectFile, phases, read, yaml, phaseNum, phaseInfo).value.userStories;
      exists sorted: seq<UserStory> ::
        && Sorted(sorted) && multiset(sorted) == multiset(all) && |sorted| == |all|
        && (forall k :: WithKey(sorted, k) == WithKey(all, k))
        && |stories| == |sorted|
        && (forall i :: 0 <= i < |sorted| ==> stories[i] == sorted[i].(priority := i + 1))
  {
    var all := AllStories(PlanList(phases, phaseNum), read, yaml);
    var sorted := SortStories(all);
    SortSorted(all);
    SortPermutes(all);
    assert |sorted| == |multiset(sorted)| == |all|;
    forall k {
      SortStable(all, k);
    }
  }

  /** `generate_prd`, with the file system replaced by its inputs: the project file's text if
      there is one, the phases directory if there is one, the text of each plan file, the YAML
      decoder, and the phase name that `extract_phase_info` finds. */
  method GeneratePrd(projectFile: Option<string>, phases: Option<seq<PhaseEntry>>, read: PlanPath -> string,
                     yaml: string -> YamlResult, phaseNum: Option<int>, phaseInfo: (string, seq<string>))
    returns (r: Result<Prd, string>)
    ensures r == PrdOf(projectFile, phases, read, yaml, phaseNum, phaseInfo)
  {
    var info := ExtractProjectInfo(projectFile);
    var plans := FindPlanFiles(phases, phaseNum);
    if plans == [] {
      return Failure(NoPlansMessage(phaseNum));
    }
    var all := CollectStories(plans, read, yaml);
    var stories := RankStories(all);
    var branch := BranchName(info.0, phaseNum, phaseInfo.0);
    var title := ProjectTitle(info.0, phaseNum, phaseInfo.0);
    r := Success(Prd(title, branch, info.1, stories));
  }

  /** The loop over the plan files, extending the story list plan by plan. */
  method CollectStories(plans: seq<PlanPath>, read: PlanPath -> string, yaml: string -> YamlResult)
    returns (all: seq<UserStory>)
    ensures all == AllStories(plans, read, yaml)
  {
    all := [];
    for k := 0 to |plans|
      invariant all == AllStories(plans[..k], read, yaml)
    {
      var stories := ConvertPlanFile(read(plans[k]), yaml);
      FlattenSnoc(plans, ReadPlan(read, yaml), k);
      all := all + stories;
    }
    assert plans[..|plans|] == plans;
  }

  /** The stories sorted in place by (priority, ID) and then given priorities 1, 2, ... */
  method RankStories(all: seq<UserStory>) returns (stories: seq<UserStory>)
    ensures stories == Renumbered(SortStories(all))
  {
    var a := new UserStory[|all|](i requires 0 <= i < |all| => all[i]);
    assert a[..] == all;
    SortByKey(a);
    Renumber(a);
    stories := a[..];
  }
}
