/** The initial progress log (`generate_progress_txt`): a fixed header, the project context
    when the project file exists, the phase and its success criteria when a phase is given,
    and a closing rule. */
module Progress {
  import opened Wrappers
  import opened Text
  import opened Assembly
  import opened Sequences

  // The fixed lines and labels of the log.
  const LogTitle: string := "# Ralph Progress Log"
  const BranchLabel: string := "# Branch: "
  const StartedLine: string := "# Started: (pending)"
  const PatternsHeading: string := "## Codebase Patterns"
  const PatternsNote: string := "(Patterns discovered during implementation will be added here)"
  const ContextHeading: string := "## GSD Project Context"
  const ProjectLabel: string := "Project: "
  const DescriptionLabel: string := "Description: "
  const PhaseLabel: string := "## Phase "
  const CriteriaHeading: string := "Success Criteria:"
  const Bullet: string := "- "
  const Rule: string := "---"

  /** The header every log starts with. */
  function HeaderLines(branch: string): (r: seq<string>)
    ensures |r| == 8
    ensures r[0] == LogTitle && r[1] == BranchLabel + branch && r[2] == StartedLine
    ensures r[4] == PatternsHeading && r[6] == PatternsNote
    ensures r[3] == "" && r[5] == "" && r[7] == ""
  {
    [LogTitle, BranchLabel + branch, StartedLine, "", PatternsHeading, "", PatternsNote, ""]
  }

  /** The project context, written when the project file exists. */
  function ContextLines(prd: Prd): (r: seq<string>)
    ensures |r| == 5
    ensures r[0] == ContextHeading && r[1] == "" && r[4] == ""
    ensures r[2] == ProjectLabel + prd.project && r[3] == DescriptionLabel + prd.description
  {
    [ContextHeading, "", ProjectLabel + prd.project, DescriptionLabel + prd.description, ""]
  }

  /** One bullet per success criterion, in order. */
  function Bullets(criteria: seq<string>): (r: seq<string>)
    ensures |r| == |criteria|
    ensures forall i :: 0 <= i < |r| ==> r[i] == Bullet + criteria[i]
  {
    if criteria == [] then []
    else Bullets(criteria[..|criteria| - 1]) + [Bullet + criteria[|criteria| - 1]]
  }

  /** The phase section: its heading, a blank line, the criteria heading, the bullets and a
      blank line. */
  function PhaseLines(n: int, phaseName: string, criteria: seq<string>): (r: seq<string>)
    ensures |r| == 4 + |criteria|
  {
    [PhaseLabel + IntToString(n) + ": " + phaseName, "", CriteriaHeading] + Bullets(criteria) + [""]
  }

  /** The closing rule and the empty last line. */
  const Footer: seq<string> := [Rule, ""]

  /** The lines of the log. `phaseInfo` is the phase name and its success criteria. */
  function ProgressLines(prd: Prd, projectFileExists: bool, phaseNum: Option<int>, phaseInfo: (string, seq<string>))
    : (r: seq<string>)
    ensures |r| == 10 + (if projectFileExists then 5 else 0) + (if PhaseGiven(phaseNum) then 4 + |phaseInfo.1| else 0)
    ensures r[..8] == HeaderLines(prd.branchName)
    ensures r[|r| - 2..] == Footer
  {
    var context := if projectFileExists then ContextLines(prd) else [];
    var phase := if PhaseGiven(phaseNum) then PhaseLines(phaseNum.value, phaseInfo.0, phaseInfo.1) else [];
    var header := HeaderLines(prd.branchName);
    var r := header + context + phase + Footer;
    Assoc(header, context, phase);
    Assoc(header, context + phase, Footer);
    Ends(header, context + phase + Footer);
    Ends(header + context + phase, Footer);
    r
  }

  /** `generate_progress_txt`, with the existence of the project file and the phase information
      given as inputs. */
  method GenerateProgressTxt(prd: Prd, projectFileExists: bool, phaseNum: Option<int>, phaseInfo: (string, seq<string>))
    returns (text: string)
    ensures text == Join(ProgressLines(prd, projectFileExists, phaseNum, phaseInfo), "\n")
  {
    var lines := HeaderLines(prd.branchName);
    ghost var context: seq<string> := [];
    if projectFileExists {
      context := ContextLines(prd);
      lines := lines + ContextLines(prd);
    }
    assert lines == HeaderLines(prd.branchName) + context;
    ghost var phase: seq<string> := [];
    if PhaseGiven(phaseNum) {
      phase := PhaseLines(phaseNum.value, phaseInfo.0, phaseInfo.1);
      lines := AppendPhase(lines, phaseNum.value, phaseInfo.0, phaseInfo.1);
    }
    assert lines == HeaderLines(prd.branchName) + context + phase;
    lines := lines + Footer;
    text := Join(lines, "\n");
  }

  /** The phase section appended line by line, one bullet per criterion. */
  method AppendPhase(lines: seq<string>, n: int, phaseName: string, criteria: seq<string>) returns (out: seq<string>)
    ensures out == lines + PhaseLines(n, phaseName, criteria)
  {
    var section := [PhaseLabel + IntToString(n) + ": " + phaseName, "", CriteriaHeading];
    var front := lines + section;
    out := front;
    for k := 0 to |criteria|
      invariant out == front + Bullets(criteria[..k])
    {
      BulletsSnoc(criteria, k);
      Assoc(front, Bullets(criteria[..k]), [Bullet + criteria[k]]);
      out := out + [Bullet + criteria[k]];
    }
    assert criteria[..|criteria|] == criteria;
    Assoc(front, Bullets(criteria), [""]);
    Assoc(lines, section, Bullets(criteria));
    Assoc(lines, section + Bullets(criteria), [""]);
    out := out + [""];
  }

  /** One more criterion adds its bullet at the end. */
  lemma BulletsSnoc(criteria: seq<string>, k: nat)
    requires k < |criteria|
    ensures Bullets(criteria[..k + 1]) == Bullets(criteria[..k]) + [Bullet + criteria[k]]
  {
    assert criteria[..k + 1][..k] == criteria[..k];
  }

  // ---------------------------------------------------------------------------------------
  // Where the sections sit

  /** Line number of the section after the header and, if present, the project context. */
  function PhaseStart(projectFileExists: bool): nat {
    if projectFileExists then 13 else 8
  }

  /** With the project file, its context follows the header directly. */
  lemma ContextSection(prd: Prd, phaseNum: Option<int>, phaseInfo: (string, seq<string>))
    ensures ProgressLines(prd, true, phaseNum, phaseInfo)[8..13] == ContextLines(prd)
  {
    var phase := if PhaseGiven(phaseNum) then PhaseLines(phaseNum.value, phaseInfo.0, phaseInfo.1) else [];
    Assoc(HeaderLines(prd.branchName) + ContextLines(prd), phase, Footer);
    Middle3(HeaderLines(prd.branchName), ContextLines(prd), phase + Footer);
  }

  /** With a phase, the phase section comes next. */
  lemma PhaseSection(prd: Prd, projectFileExists: bool, n: int, phaseInfo: (string, seq<string>))
    requires n != 0
    ensures var r := ProgressLines(prd, projectFileExists, Some(n), phaseInfo);
      var p := PhaseStart(projectFileExists);
      r[p..p + 4 + |phaseInfo.1|] == PhaseLines(n, phaseInfo.0, phaseInfo.1)
  {
    var context := if projectFileExists then ContextLines(prd) else [];
    var front := HeaderLines(prd.branchName) + context;
    assert |front| == PhaseStart(projectFileExists);
    Middle3(front, PhaseLines(n, phaseInfo.0, phaseInfo.1), Footer);
  }

  /** The phase section's heading lines, its bullets and its closing blank line. */
  lemma PhaseLinesParts(n: int, phaseName: string, criteria: seq<string>)
    ensures var r := PhaseLines(n, phaseName, criteria);
      && r[..3] == [PhaseLabel + IntToString(n) + ": " + phaseName, "", CriteriaHeading]
      && (forall i :: 0 <= i < |criteria| ==> r[3 + i] == Bullet + criteria[i])
      && r[3 + |criteria|] == ""
  {
    var section := [PhaseLabel + IntToString(n) + ": " + phaseName, "", CriteriaHeading];
    Middle3(section, Bullets(criteria), [""]);
    assert (section + Bullets(criteria) + [""])[..3] == section;
  }

  /** The elements of the middle of a three-part concatenation. */
  lemma Middle3(u: seq<string>, v: seq<string>, w: seq<string>)
    ensures (u + v + w)[|u|..|u| + |v|] == v
    ensures forall j :: 0 <= j < |v| ==> (u + v + w)[|u| + j] == v[j]
  {
  }

  /** Without a phase, the closing rule follows the header and the project context. */
  lemma NoPhaseSection(prd: Prd, projectFileExists: bool, phaseNum: Option<int>, phaseInfo: (string, seq<string>))
    requires !PhaseGiven(phaseNum)
    ensures |ProgressLines(prd, projectFileExists, phaseNum, phaseInfo)| == PhaseStart(projectFileExists) + 2
  {
  }

  // ---------------------------------------------------------------------------------------
  // The text

  /** Joining two non-empty runs of lines puts one separator between them. */
  lemma {:induction false} JoinAppend(xs: seq<string>, ys: seq<string>, sep: string)
    requires xs != [] && ys != []
    ensures Join(xs + ys, sep) == Join(xs, sep) + sep + Join(ys, sep)
  {
    if |xs| == 1 {
      JoinCons(xs[0], ys, sep);
      assert xs + ys == [xs[0]] + ys;
    } else {
      JoinAppend(xs[1..], ys, sep);
      assert (xs + ys)[1..] == xs[1..] + ys;
      JoinCons(xs[0], xs[1..] + ys, sep);
      JoinCons(xs[0], xs[1..], sep);
      assert [xs[0]] + xs[1..] == xs;
      assert [xs[0]] + (xs[1..] + ys) == xs + ys;
    }
  }

  /** The log begins with its title line and the branch line. */
  lemma TextStart(prd: Prd, projectFileExists: bool, phaseNum: Option<int>, phaseInfo: (string, seq<string>))
    ensures StartsWith(Join(ProgressLines(prd, projectFileExists, phaseNum, phaseInfo), "\n"),
                       LogTitle + "\n" + BranchLabel + prd.branchName + "\n")
  {
    var r := ProgressLines(prd, projectFileExists, phaseNum, phaseInfo);
    assert r[0] == r[..8][0] && r[1] == r[..8][1];
    JoinStarts(r, LogTitle, BranchLabel + prd.branchName);
  }

  /** Lines that start with `a` and `b` join into a text starting with those two lines. */
  lemma JoinStarts(r: seq<string>, a: string, b: string)
    requires |r| >= 3 && r[0] == a && r[1] == b
    ensures StartsWith(Join(r, "\n"), a + "\n" + b + "\n")
  {
    assert [r[0]] + r[1..] == r;
    JoinCons(r[0], r[1..], "\n");
    assert [r[1]] + r[2..] == r[1..];
    JoinCons(r[1], r[2..], "\n");
    var t := Join(r[2..], "\n");
    assert Join(r, "\n") == (a + "\n" + b + "\n") + t;
    PrefixOf(a + "\n" + b + "\n", t);
  }

  /** The log ends with the closing rule and a line break. */
  lemma TextEnd(prd: Prd, projectFileExists: bool, phaseNum: Option<int>, phaseInfo: (string, seq<string>))
    ensures EndsWith(Join(ProgressLines(prd, projectFileExists, phaseNum, phaseInfo), "\n"), "\n---\n")
  {
    var r := ProgressLines(prd, projectFileExists, phaseNum, phaseInfo);
    Ends(r[..|r| - 2], r[|r| - 2..]);
    assert r == r[..|r| - 2] + Footer;
    JoinFooter(r[..|r| - 2]);
  }

  /** Lines closed by the footer join into a text ending in the rule and a line break. */
  lemma JoinFooter(init: seq<string>)
    requires init != []
    ensures EndsWith(Join(init + Footer, "\n"), "\n---\n")
  {
    JoinAppend(init, Footer, "\n");
    JoinCons(Rule, [""], "\n");
    assert Join(Footer, "\n") == "---\n";
    SuffixOf(Join(init, "\n"), "\n---\n");
  }

  lemma PrefixOf(p: string, t: string)
    ensures StartsWith(p + t, p)
  {
    assert (p + t)[..|p|] == p;
  }

  lemma SuffixOf(t: string, p: string)
    ensures EndsWith(t + p, p)
  {
    assert (t + p)[|t|..] == p;
  }
}
