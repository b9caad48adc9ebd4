# gsd-to-ralph converter, modelled in Dafny

The converter reads a planning directory written in the GSD ("Get Shit Done") layout and
produces the two files an autonomous coding loop ("Ralph") starts from:

- `prd.json`, a product requirements document (PRD): a title, a git branch name, a
  description and an ordered list of user stories;
- `progress.txt`, the initial progress log.

The planning directory holds three kinds of input:

- `PROJECT.md`, whose first heading names the project and whose first paragraph describes it;
- `phases/<NN-name>/*PLAN.md`, the plan documents;
- `ROADMAP.md`, which names each phase and lists its success criteria.

A plan document starts with a YAML front-matter block between `---` lines. The block holds
`phase`, `plan`, `wave` and `must_haves` (truths and artifacts). After it come XML-like
`<task type="…">` blocks. Their `<name>`, `<files>`, `<action>`, `<verify>` and `<done>`
children become the fields of a task. Each task becomes one user story:

- its id is `US-PPNN-TT` (phase, plan and task number, each written with at least two digits);
- its title is the task name with a leading `Task N:` label removed;
- its description is the action followed by the files;
- its acceptance criteria are the done text, then the truths, then one `File exists:` line per
  artifact;
- its tests are the verify text split at `&&` and `;`;
- its priority is the plan's wave.

All stories of the selected plans are then:

1. sorted stably by (wave, id);
2. renumbered 1, 2, 3, … in that order.

The branch name is `ralph/phase-NN-<slug of the phase name>` when a phase is selected, and
otherwise `ralph/<slug of the project name>`.

The model has one module per part of `skills/gsd-to-ralph/convert.py`:

| file | module | models |
|---|---|---|
| `wrappers.dfy` | `Wrappers` | `Option` and `Result` |
| `text.dfy` | `Text` | string search, `str.strip`, `\d+` and `int()`, `%02d`, `'\n'.join`, Python string order |
| `frontmatter.dfy` | `Frontmatter` | `parse_frontmatter` and `str.split(sep, maxsplit)` |
| `tasks.dfy` | `TaskBlocks` | `parse_xml_tasks`: the task-block regex and the field regexes |
| `story.dfy` | `StorySynthesis` | `convert_task_to_story` and the `UserStory` record |
| `discovery.dfy` | `Discovery` | `find_plan_files` |
| `project.dfy` | `ProjectInfo` | `extract_project_info`: the heading regex and the paragraph regex |
| `slug.dfy` | `Slug` | the branch slug `re.sub(r'[^a-z0-9]+', '-', s.lower()).strip('-')` |
| `ordering.dfy` | `StoryOrder` | the stable sort by (priority, id) and the renumbering, in place on an array |
| `sequences.dfy` | `Sequences` | `enumerate(xs, 1)` and `list.extend` in a loop, for any element type |
| `assembly.dfy` | `Assembly` | `convert_plan_file`, `generate_prd` and the `PRD` record |
| `progress.dfy` | `Progress` | `generate_progress_txt` |

Some operations are loops that build a list step by step: `find_plan_files`, `parse_xml_tasks`,
`convert_task_to_story`, `convert_plan_file`, `generate_prd` and `generate_progress_txt`. Each of
these is a `method` with a loop. Its `ensures` ties the result to a specification function, and
the lemmas state what that function promises. The in-place `list.sort` and the renumbering loop
work on an `array<UserStory>`. Regular expressions, string splitting and stripping are
functions.

## Model

| member | source | states |
|---|---|---|
| `Frontmatter.Split` | skills/gsd-to-ralph/convert.py:44-45 | `str.split(sep, maxsplit)`: at most maxsplit+1 parts; joining them with the separator gives the input back; every part except possibly the last is free of the separator, and the last is too when fewer than maxsplit+1 parts arise |
| `Frontmatter.ParseFrontmatter` | skills/gsd-to-ralph/convert.py:39-53 | the body is either the whole content or, for content starting with `---`, a stripped text; metadata other than empty appears only when the content starts with `---` |
| `Frontmatter.NoDelimiter` | skills/gsd-to-ralph/convert.py:41-42 | content not starting with `---` gives empty metadata and the content unchanged |
| `Frontmatter.UnclosedBlock` | skills/gsd-to-ralph/convert.py:44-46 | an opening `---` with no second `---` gives empty metadata and the content unchanged |
| `Frontmatter.ClosedBlockDecoded` | skills/gsd-to-ralph/convert.py:48-51 | a block `---head---body` that the YAML loader accepts gives the decoded metadata (empty for an empty document) and the stripped body |
| `Frontmatter.ClosedBlockRejected` | skills/gsd-to-ralph/convert.py:52-53 | when the YAML loader rejects the block, the result is empty metadata and the content unchanged |
| `TaskBlocks.MatchAt` | skills/gsd-to-ralph/convert.py:61 | a task-block match at the start of a text ends inside the text; its type holds no `"` and its inner text no `</task>` |
| `TaskBlocks.TaskMatches` | skills/gsd-to-ralph/convert.py:61-62 | `re.findall` of the task pattern: every match is well formed |
| `TaskBlocks.MatchAtBlock` | skills/gsd-to-ralph/convert.py:61 | a rendered block `<task type="T">I</task>` followed by anything matches with type T, inner text I, and ends after the block |
| `TaskBlocks.ScanRendered` | skills/gsd-to-ralph/convert.py:61-64 | a text made of rendered blocks yields one match per block, in order, with that block's type and inner text |
| `TaskBlocks.Between` | skills/gsd-to-ralph/convert.py:69-70 | no text is found between an opening and a closing tag when the opening tag does not occur |
| `TaskBlocks.FieldValue` | skills/gsd-to-ralph/convert.py:69-72 | the value found for a field is stripped, and nothing is found when the text holds no `<field>` tag |
| `TaskBlocks.FieldFound` | skills/gsd-to-ralph/convert.py:69-72 | in `u<field>v</field>w`, where `u` holds no `<field>` and `v` no `</field>`, the lookup finds `v` stripped |
| `TaskBlocks.BareRecord` | skills/gsd-to-ralph/convert.py:64-74 | a block whose inner text holds none of the five field tags gives the record holding only its `type` |
| `TaskBlocks.RecordOfFields` | skills/gsd-to-ralph/convert.py:64-74 | a task record maps `type` to the block's type; its other keys are field names; a field is present exactly when its element is found, and then it holds the found value |
| `TaskBlocks.ParseXmlTasks` | skills/gsd-to-ralph/convert.py:56-76 | one task record per match, in order, each the record of its match |
| `TaskBlocks.ReadFields` | skills/gsd-to-ralph/convert.py:65-72 | the field loop builds the record of the match |
| `StorySynthesis.StoryId` | skills/gsd-to-ralph/convert.py:163 | every id starts with `US-` and ends with `-` and the padded task number |
| `StorySynthesis.StoryIdFields` | skills/gsd-to-ralph/convert.py:163 | for numbers below 100 the id is 10 characters: `US-`, two digits spelling the phase, two spelling the plan, `-`, two spelling the task |
| `StorySynthesis.StoryIdInjective` | skills/gsd-to-ralph/convert.py:163 | for numbers below 100, equal ids imply equal phase, plan and task numbers |
| `StorySynthesis.StoryIdCollision` | skills/gsd-to-ralph/convert.py:163 | beyond two digits ids collide: phase 10 plan 111 and phase 101 plan 11 both give `US-10111-01` |
| `StorySynthesis.StoryIdOrder` | skills/gsd-to-ralph/convert.py:163 | for numbers below 100, string order of ids is the lexicographic order of (phase, plan, task) |
| `StorySynthesis.StoryIdOrderBreaks` | skills/gsd-to-ralph/convert.py:163 | beyond two digits it is not: plan 100 sorts before plan 20 |
| `StorySynthesis.StripTaskPrefix` | skills/gsd-to-ralph/convert.py:167 | the title is a suffix of the name, and a name not starting with `Task` is unchanged |
| `StorySynthesis.StripTaskPrefixUnchanged` | skills/gsd-to-ralph/convert.py:167 | a name is left unchanged exactly when it does not start with a full label `Task`, whitespace, digits, `:` |
| `StorySynthesis.Title` | skills/gsd-to-ralph/convert.py:166-167 | without a name the title is `Unnamed Task`; otherwise it is a suffix of the name, equal to the name exactly when the name has no `Task N:` label |
| `StorySynthesis.TitleWithoutName` | skills/gsd-to-ralph/convert.py:166 | a task without a name is titled `Unnamed Task` |
| `StorySynthesis.TitleLabelRemoved` | skills/gsd-to-ralph/convert.py:167 | `Task`, whitespace, digits, `:` and whitespace are removed, leaving the rest of the name |
| `StorySynthesis.Description` | skills/gsd-to-ralph/convert.py:170-173 | the description is stripped |
| `StorySynthesis.DescriptionLayout` | skills/gsd-to-ralph/convert.py:170-173 | without files the description is the action; with files it is the action, a blank line and `Files: …`, or only `Files: …` when there is no action |
| `StorySynthesis.FileChecks` | skills/gsd-to-ralph/convert.py:186-189 | one `File exists: <artifact>` line per artifact, in order |
| `StorySynthesis.Criteria` | skills/gsd-to-ralph/convert.py:176-189 | there is one criterion for a non-empty done text, plus one per truth, plus one per artifact |
| `StorySynthesis.CriteriaLayout` | skills/gsd-to-ralph/convert.py:176-189 | the criteria are the done text (when non-empty), then the truths, then the artifact checks, and nothing else |
| `StorySynthesis.FirstSeparator` | skills/gsd-to-ralph/convert.py:195 | the leftmost separator match found lies inside the text |
| `StorySynthesis.SplitCommands` | skills/gsd-to-ralph/convert.py:195 | `re.split` on the separators gives at least one piece, and no piece contains a separator |
| `StorySynthesis.KeptStripped` | skills/gsd-to-ralph/convert.py:196 | every kept command is stripped and non-empty |
| `StorySynthesis.KeptSeparatorFree` | skills/gsd-to-ralph/convert.py:196 | stripping and dropping pieces keeps them free of separators |
| `StorySynthesis.Commands` | skills/gsd-to-ralph/convert.py:193-196 | the tests of a verify text are non-empty, stripped, and contain no `&&` or `;` separator |
| `StorySynthesis.CommandsRoundTrip` | skills/gsd-to-ralph/convert.py:195-196 | commands joined by separators (any whitespace around `&&` or `;`) split back into exactly those commands |
| `StorySynthesis.CommandsExample` | skills/gsd-to-ralph/convert.py:195-196 | `a && b; c` gives the tests `a`, `b`, `c` |
| `StorySynthesis.Tests` | skills/gsd-to-ralph/convert.py:192-196 | no tests without a verify text; every test is non-empty, stripped and free of separators |
| `StorySynthesis.StoryOf` | skills/gsd-to-ralph/convert.py:152-208 | a new story has not passed, is not blocked, and has empty blocked reason and notes |
| `StorySynthesis.StoryOfKey` | skills/gsd-to-ralph/convert.py:163-199 | a story's id is built from its phase, plan and task numbers, and its priority is the wave |
| `StorySynthesis.ConvertTaskToStory` | skills/gsd-to-ralph/convert.py:152-208 | the method builds the story the specification function describes |
| `StorySynthesis.BuildCriteria` | skills/gsd-to-ralph/convert.py:176-189 | the criteria loop builds the criteria of the specification |
| `StorySynthesis.BuildTests` | skills/gsd-to-ralph/convert.py:192-196 | the tests are the kept pieces of the split verify text, and none without a verify text |
| `StorySynthesis.KeepCommands` | skills/gsd-to-ralph/convert.py:196 | the comprehension keeps the stripped non-empty pieces, in order |
| `StorySynthesis.BareTaskStory` | skills/gsd-to-ralph/convert.py:166-196 | a task with only a type gives the title `Unnamed Task`, an empty description, no tests, and the truths and artifact checks as criteria |
| `StorySynthesis.AbsentFields` | skills/gsd-to-ralph/convert.py:170-196 | without action, files, verify and done the description is empty and there are no tests and no done criterion |
| `Discovery.FindPlanFiles` | skills/gsd-to-ralph/convert.py:126-149 | no plans without a phases directory; otherwise the plans of the searched directories, directory by directory |
| `Discovery.Plans` | skills/gsd-to-ralph/convert.py:135-147 | every plan found has a `*PLAN.md` name and lies in a directory entry that is searched, and there are no more plans than children |
| `Discovery.PlanSearched` | skills/gsd-to-ralph/convert.py:135-147 | a plan in the list has a `*PLAN.md` name and lies in a searched directory |
| `Discovery.PlansUpToMember` | skills/gsd-to-ralph/convert.py:146-147 | a plan is listed for a directory exactly when it is a child of that directory whose name ends in `PLAN.md` |
| `Discovery.PlansMember` | skills/gsd-to-ralph/convert.py:135-147 | a plan is found exactly when it is a `*PLAN.md` child of a directory entry that is searched: every directory when no phase is given, and otherwise a directory whose leading number equals the phase |
| `Discovery.PlansAppend` | skills/gsd-to-ralph/convert.py:135-147 | the plans of consecutive entries are listed in entry order |
| `Discovery.PhasePlansAmongAll` | skills/gsd-to-ralph/convert.py:140-143 | asking for a phase only narrows the search |
| `Discovery.PhasePlansNumbered` | skills/gsd-to-ralph/convert.py:140-143 | every plan found for phase n lies in a directory whose name starts with digits spelling n |
| `ProjectInfo.HeadingGroup` | skills/gsd-to-ralph/convert.py:89 | the captured name is non-empty and on one line |
| `ProjectInfo.ParagraphGroup` | skills/gsd-to-ralph/convert.py:93 | a paragraph is found only in a text starting with `#`, and it is non-empty |
| `ProjectInfo.ExtractProjectInfo` | skills/gsd-to-ralph/convert.py:79-96 | a missing file gives `Unnamed Project` and `No description available`; a missing heading gives `Unnamed Project`; a missing paragraph gives `No description`; both results are stripped |
| `ProjectInfo.HeadingOfTitle` | skills/gsd-to-ralph/convert.py:89 | a first line `#`, whitespace, then a name gives that name |
| `ProjectInfo.HeadingOfProjectTitle` | skills/gsd-to-ralph/convert.py:89 | in `# Project: name` the optional `Project:` label is skipped |
| `ProjectInfo.ParagraphOf` | skills/gsd-to-ralph/convert.py:93 | the text after the first blank line following a `#` heading, up to the next blank line or the end, is the paragraph |
| `ProjectInfo.ProjectInfoOf` | skills/gsd-to-ralph/convert.py:86-96 | a file `# name`, a blank line and a paragraph gives the stripped name and the stripped paragraph |
| `Slug.Hyphenate` | skills/gsd-to-ralph/convert.py:275 | replacing each run of non-slug characters by one hyphen: the result is empty only for empty input, and ends in a hyphen exactly when the input ends in a non-slug character |
| `Slug.StripHyphens` | skills/gsd-to-ralph/convert.py:275 | `strip('-')` leaves no hyphen at either end and removes only hyphens, from the two ends |
| `Slug.StripHyphensKeeps` | skills/gsd-to-ralph/convert.py:275 | a text without a hyphen at either end is unchanged |
| `Slug.Slugify` | skills/gsd-to-ralph/convert.py:275 | the result is a slug |
| `Slug.SlugifyIsSlug` | skills/gsd-to-ralph/convert.py:275 | a slug holds only `a-z`, `0-9` and single hyphens, with none at either end |
| `Slug.SlugifyKeepsSlug` | skills/gsd-to-ralph/convert.py:275 | a slug is its own slug |
| `Slug.SlugifyIdempotent` | skills/gsd-to-ralph/convert.py:275 | slugifying twice is slugifying once |
| `Slug.SlugifyKeepsLetters` | skills/gsd-to-ralph/convert.py:275 | the letters and digits of the slug are exactly those of the lower-cased input, in order |
| `Slug.SlugifyJoin` | skills/gsd-to-ralph/convert.py:275 | two slugs separated by a run without letters or digits become the two slugs joined by one hyphen |
| `StoryOrder.KeyLess` | skills/gsd-to-ralph/convert.py:266 | a story ordered before another has a priority no greater |
| `StoryOrder.KeyLessIrreflexive` | skills/gsd-to-ralph/convert.py:266 | the (priority, id) order is irreflexive |
| `StoryOrder.KeyLessAsymmetric` | skills/gsd-to-ralph/convert.py:266 | the (priority, id) order is asymmetric |
| `StoryOrder.KeyLessTransitive` | skills/gsd-to-ralph/convert.py:266 | the (priority, id) order is transitive |
| `StoryOrder.KeyLessTotal` | skills/gsd-to-ralph/convert.py:266 | stories with different keys are ordered one way or the other |
| `StoryOrder.InsertPermutes` | skills/gsd-to-ralph/convert.py:266 | inserting a story adds exactly that story |
| `StoryOrder.InsertSorted` | skills/gsd-to-ralph/convert.py:266 | inserting into a sorted list keeps it sorted |
| `StoryOrder.SortStories` | skills/gsd-to-ralph/convert.py:266 | sorting keeps the number of stories |
| `StoryOrder.SortSorted` | skills/gsd-to-ralph/convert.py:266 | the sorted stories are in (priority, id) order |
| `StoryOrder.SortPermutes` | skills/gsd-to-ralph/convert.py:266 | the sorted stories are a permutation of the input |
| `StoryOrder.InsertStable` | skills/gsd-to-ralph/convert.py:266 | inserting keeps the stories of each key in their order, with the new one last |
| `StoryOrder.SortStable` | skills/gsd-to-ralph/convert.py:266 | the sort is stable: the stories of each key keep their input order |
| `StoryOrder.SortByKey` | skills/gsd-to-ralph/convert.py:266 | sorting the array in place leaves it holding the sorted stories |
| `StoryOrder.InsertInPlace` | skills/gsd-to-ralph/convert.py:266 | one insertion step: the first i+1 slots hold the insertion of slot i into the sorted first i, and the rest of the array is unchanged |
| `StoryOrder.Renumbered` | skills/gsd-to-ralph/convert.py:269-270 | the k-th story keeps all its fields except the priority, which becomes k+1 |
| `StoryOrder.RenumberedKeeps` | skills/gsd-to-ralph/convert.py:269-270 | the renumbered story at k has priority k+1 and differs from the original only in its priority |
| `StoryOrder.RenumberedSorted` | skills/gsd-to-ralph/convert.py:266-270 | the renumbered stories are still in (priority, id) order |
| `StoryOrder.Renumber` | skills/gsd-to-ralph/convert.py:269-270 | the loop renumbers the array in place |
| `Text.FindFrom` | skills/gsd-to-ralph/convert.py:44 | the position found is the first occurrence at or after the start, and none is found only when there is none |
| `Text.Strip` | skills/gsd-to-ralph/convert.py:50 | `str.strip()` leaves no whitespace at either end, removes only whitespace, from the two ends, and keeps a stripped text unchanged |
| `Text.LeadingNumber` | skills/gsd-to-ralph/convert.py:141 | `^(\d+)` matches exactly when the text starts with a digit |
| `Text.LeadingNumberOf` | skills/gsd-to-ralph/convert.py:141-142 | a text that starts with a digit run is numbered by the value of that run |
| `Text.Digits` | skills/gsd-to-ralph/convert.py:277 | the decimal digits of n spell n, with no leading zero, one digit below 10 and two below 100 |
| `Text.Pad2` | skills/gsd-to-ralph/convert.py:163 | `%02d`: digits spelling n, padded to at least two, starting with `0` exactly when n < 10; a negative n is `-` and its digits |
| `Text.JoinCons` | skills/gsd-to-ralph/convert.py:329 | `'\n'.join` puts the separator after the first line |
| `Text.StrLessIrreflexive` | skills/gsd-to-ralph/convert.py:266 | the string order used for ids is irreflexive |
| `Text.StrLessTransitive` | skills/gsd-to-ralph/convert.py:266 | the string order used for ids is transitive |
| `Text.StrLessTotal` | skills/gsd-to-ralph/convert.py:266 | different strings are ordered one way or the other |
| `Sequences.NumberedAt` | skills/gsd-to-ralph/convert.py:230 | `enumerate(xs, 1)` gives the item at index i the number i+1 |
| `Sequences.FlattenAppend` | skills/gsd-to-ralph/convert.py:261-263 | extending by the parts of a run of items is extending by the parts of its pieces in order |
| `Sequences.FlattenMember` | skills/gsd-to-ralph/convert.py:261-263 | an element is in the extended list exactly when it is in the part of some item |
| `Assembly.PhaseNumber` | skills/gsd-to-ralph/convert.py:218-219 | a phase that does not start with a digit is numbered 1 |
| `Assembly.PhaseNumberDigits` | skills/gsd-to-ralph/convert.py:218-219 | a phase starting with a digit run is numbered by that run |
| `Assembly.DefaultPhaseIsOne` | skills/gsd-to-ralph/convert.py:217-219 | the default phase `01-unknown` is numbered 1 |
| `Assembly.ContextOf` | skills/gsd-to-ralph/convert.py:217-223 | given plan, wave and must-haves are used as they are, and otherwise plan and wave are 1 and must-haves none; a missing phase is numbered 1 and a given one by its leading digits |
| `Assembly.EmptyMetaContext` | skills/gsd-to-ralph/convert.py:217-223 | a plan without metadata gives phase 1, plan 1, wave 1 and no must-haves |
| `Assembly.PlanRecords` | skills/gsd-to-ralph/convert.py:226 | one task record per task block of the body |
| `Assembly.StoriesOfKeys` | skills/gsd-to-ralph/convert.py:230-239 | the i-th story of a plan is the story of its i-th task numbered i+1: its id is built from the plan's phase, its plan and i+1, and its priority is the plan's wave |
| `Assembly.PlanStories` | skills/gsd-to-ralph/convert.py:211-241 | a plan document gives one story per task block of its body |
| `Assembly.ConvertPlanFile` | skills/gsd-to-ralph/convert.py:211-241 | the method returns the stories of the plan document the specification describes |
| `Assembly.ConvertTasks` | skills/gsd-to-ralph/convert.py:229-241 | the enumerate loop builds one story per task, numbered from 1 |
| `Assembly.PlanStoryIdsDistinct` | skills/gsd-to-ralph/convert.py:230-239 | with phase and plan below 100 and fewer than 100 tasks, the stories of one plan have pairwise distinct ids |
| `Assembly.AllStories` | skills/gsd-to-ralph/convert.py:260-263 | no plans give no stories, and one plan gives that plan's stories |
| `Assembly.AllStoriesAppend` | skills/gsd-to-ralph/convert.py:260-263 | the stories of a run of plans are those of its pieces, in order |
| `Assembly.AllStoriesMember` | skills/gsd-to-ralph/convert.py:260-263 | a story is collected exactly when it is a story of one of the plans |
| `Assembly.BranchName` | skills/gsd-to-ralph/convert.py:273-279 | every branch name starts with `ralph/` |
| `Assembly.BranchOfProject` | skills/gsd-to-ralph/convert.py:279 | without a phase the branch is `ralph/` followed by a slug holding the letters and digits of the lower-cased project name |
| `Assembly.BranchOfPhase` | skills/gsd-to-ralph/convert.py:273-276 | with phase 0 < n < 100 the branch is `ralph/phase-`, two digits spelling n, `-`, and a slug holding the letters and digits of the lower-cased phase name |
| `Assembly.NoPlansMessage` | skills/gsd-to-ralph/convert.py:256-257 | the error text is `No PLAN.md files found for phase ` followed by the phase number, or by `None` when no phase is asked for |
| `Assembly.ProjectTitle` | skills/gsd-to-ralph/convert.py:273-280 | without a phase (or with phase 0) the title is the project name; with a non-zero phase n it is `<project> (Phase <n>: <phase name>)` |
| `Assembly.PrdOf` | skills/gsd-to-ralph/convert.py:244-287 | the PRD fails exactly when no plan file is found, with the message `No PLAN.md files found for phase …`; otherwise its description is the project description |
| `Assembly.PrdStories` | skills/gsd-to-ralph/convert.py:260-270 | the stories of a PRD are the collected stories, sorted by (priority, id), stable and a permutation, then renumbered 1, 2, … |
| `Assembly.GeneratePrd` | skills/gsd-to-ralph/convert.py:244-287 | the method returns the PRD, or the error, of the specification |
| `Assembly.CollectStories` | skills/gsd-to-ralph/convert.py:260-263 | the extend loop collects the stories of every plan, in plan order |
| `Assembly.RankStories` | skills/gsd-to-ralph/convert.py:266-270 | sorting and renumbering the collected stories gives the renumbered sorted stories |
| `Progress.HeaderLines` | skills/gsd-to-ralph/convert.py:292-301 | the header is eight lines: `# Ralph Progress Log`, `# Branch: <branch>`, `# Started: (pending)`, a blank line, `## Codebase Patterns`, a blank line, the patterns placeholder, a blank line |
| `Progress.ContextLines` | skills/gsd-to-ralph/convert.py:306-312 | the project context is five lines: `## GSD Project Context`, a blank line, `Project: <name>`, `Description: <description>`, a blank line |
| `Progress.Bullets` | skills/gsd-to-ralph/convert.py:321-322 | one line `- <criterion>` per criterion, in order |
| `Progress.PhaseLines` | skills/gsd-to-ralph/convert.py:316-323 | the phase section has four lines more than it has criteria |
| `Progress.ProgressLines` | skills/gsd-to-ralph/convert.py:290-329 | the log has 10 lines, 5 more with a project file, and 4 more plus one per criterion with a phase; it starts with the header and ends with `---` and an empty line |
| `Progress.GenerateProgressTxt` | skills/gsd-to-ralph/convert.py:290-330 | the method returns the log lines joined by line breaks |
| `Progress.AppendPhase` | skills/gsd-to-ralph/convert.py:314-323 | the append loop adds exactly the phase section |
| `Progress.ContextSection` | skills/gsd-to-ralph/convert.py:304-312 | with a project file, lines 8 to 12 are the project context |
| `Progress.PhaseSection` | skills/gsd-to-ralph/convert.py:314-323 | with a phase, the phase section follows the header and the context |
| `Progress.PhaseLinesParts` | skills/gsd-to-ralph/convert.py:316-323 | the phase section is its heading, a blank line and `Success Criteria:`, then one bullet per criterion, then a blank line |
| `Progress.NoPhaseSection` | skills/gsd-to-ralph/convert.py:314-327 | without a phase, the footer follows the header and context directly |
| `Progress.JoinAppend` | skills/gsd-to-ralph/convert.py:329 | joining two runs of lines puts one line break between them |
| `Progress.TextStart` | skills/gsd-to-ralph/convert.py:292-301 | the text begins with `# Ralph Progress Log`, a line break, `# Branch: <branch>`, a line break |
| `Progress.TextEnd` | skills/gsd-to-ralph/convert.py:324-329 | the text ends with a line break, `---` and a line break |

## Left out

- `main` (argument parsing, writing `prd.json` and `progress.txt`, printing) is not modelled: it
  is command-line I/O.
- The file system is input data. `PROJECT.md` is an `Option<string>` (its content, or `None`
  when missing). The phases directory is an `Option<seq<PhaseEntry>>`. A plan file is read by
  a function parameter `read`. Whether `PROJECT.md` exists is a boolean for the progress log.
- The phases directory listing and each directory's listing are given already in sorted
  order. `sorted()` over paths is left to the caller.
- The glob `*PLAN.md` is modelled as "the name ends in `PLAN.md`". All children that match are
  listed, whether they are files or directories, as the glob does.
- `yaml.safe_load` is a function parameter `yaml`. It returns either a YAML error or a decoded
  document with typed fields: `phase` a string, `plan` and `wave` the integers `int()` makes of
  them (`int()` also accepts strings such as `"08"`, floats such as `2.5` and booleans), and
  `must_haves` a record of string lists. The typed document leaves out these source behaviours:
  - a `plan` or `wave` that `int()` rejects (a list, a mapping, a non-numeric string), or a
    `phase` that is not a string, makes the source raise;
  - a document that is truthy but not a mapping (a list, or a bare string such as `hello`) passes
    `frontmatter or {}` and makes `frontmatter.get` raise at convert.py:217;
  - a `must_haves` that is not a mapping (left empty, a list, a string) makes
    `must_haves.get` raise at convert.py:181 on the plan's first task, while a plan without
    tasks does not raise;
  - `truths` elements that are not strings enter the criteria unchanged (an integer stays an
    integer), and artifacts that are not strings are written through `str()` in their
    `File exists:` line; the model holds both as strings.
- `must_haves` entries that are not lists: the source skips them with `isinstance`. The model
  types them as optional lists, so this case is absent rather than skipped.
- `extract_phase_info` (reading `ROADMAP.md` for the phase name and success criteria) is not
  modelled. Its result is the input `phaseInfo`.
- `str.lower` is modelled on ASCII letters plus the two non-ASCII characters whose lower case
  holds an ASCII letter (U+212A KELVIN SIGN and U+0130). This is as much as the slug can see.
  Other characters are left unchanged by `Slug.Lower`.
- `\d` and `int()` are modelled on ASCII digits only. Other Unicode decimal digits are left out.
- `\s` and `str.strip()` use the whitespace set of `str.isspace`.
- Python's Timsort is modelled as insertion sort. Both are stable sorts, so the result is the
  same list.
- The stories are modelled as values held in an array. Each story object is referenced once in
  the source, so mutating it in place cannot be observed through another reference.
- `Assembly.PrdOf`: its contract states the error case and the description. The order and
  numbering of the stories are stated by `Assembly.PrdStories`, and the branch and title by
  `Assembly.BranchName`, `Assembly.BranchOfProject`, `Assembly.BranchOfPhase` and
  `Assembly.ProjectTitle`.
- `StorySynthesis.StoryIdFields`, `StorySynthesis.StoryIdInjective` and `StorySynthesis.StoryIdOrder`
  are stated for phase, plan and task numbers from 0 to 99 only. Beyond that `%02d` writes more
  digits and ids can collide or sort out of numeric order, as `StorySynthesis.StoryIdCollision` and
  `StorySynthesis.StoryIdOrderBreaks` show.
- `Assembly.PlanStoryIdsDistinct` is stated for one plan with phase and plan below 100 and fewer
  than 100 tasks, for the same reason. Two plans with the same phase and plan number give
  colliding ids, and the model does not exclude that.
- `Assembly.BranchOfPhase` states the branch layout for phases 1 to 99 only. Larger phases get more
  than two digits, negative phases a `-` sign, and phase 0 is treated as no phase.
- `StorySynthesis.DescriptionLayout` is stated for stripped `action` and `files` values, which is what
  `parse_xml_tasks` produces. For other values only the defining function `Description` applies.
- JSON serialisation (`asdict`, `json.dumps`) is not modelled: it is part of `main`.
