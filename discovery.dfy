/** Finding the plan files: the phase directories under `.planning/phases`, in sorted order,
    and inside each the files matching `*PLAN.md`, in sorted order. */
module Discovery {
  import opened Wrappers
  import opened Text

  /** One entry of the phases directory: its name, whether it is a directory, and the names
      of the entries inside it, already in sorted order. */
  datatype PhaseEntry = PhaseEntry(name: string, isDir: bool, children: seq<string>)

  /** A plan file, named by its phase directory and its own name. */
  datatype PlanPath = PlanPath(phaseDir: string, file: string)

  /** The glob `*PLAN.md`: any name that ends in `PLAN.md`. */
  predicate IsPlanName(name: string) {
    EndsWith(name, "PLAN.md")
  }

  /** A directory is searched when no phase was asked for, or when its name starts with
      digits that spell the phase asked for. */
  predicate PhaseWanted(e: PhaseEntry, phaseNum: Option<int>) {
    && e.isDir
    && (phaseNum.Some? ==> LeadingNumber(e.name).Some? && LeadingNumber(e.name).value == phaseNum.value)
  }

  /** The plan files among the first `n` children of a phase directory. */
  function PlansUpTo(e: PhaseEntry, n: nat): (r: seq<PlanPath>)
    requires n <= |e.children|
    ensures |r| <= n
    ensures forall i :: 0 <= i < |r| ==> r[i].phaseDir == e.name && IsPlanName(r[i].file)
  {
    if n == 0 then []
    else PlansUpTo(e, n - 1) + (if IsPlanName(e.children[n - 1]) then [PlanPath(e.name, e.children[n - 1])] else [])
  }

  /** The plan files of a phase directory. */
  function PlansIn(e: PhaseEntry): seq<PlanPath> {
    PlansUpTo(e, |e.children|)
  }

  /** The number of entries inside the phase directories. */
  function Children(entries: seq<PhaseEntry>): nat {
    if entries == [] then 0 else Children(entries[..|entries| - 1]) + |entries[|entries| - 1].children|
  }

  /** The plan files of the phase directories that are searched, directory by directory. */
  function Plans(entries: seq<PhaseEntry>, phaseNum: Option<int>): (r: seq<PlanPath>)
    ensures |r| <= Children(entries)
    ensures forall i :: 0 <= i < |r| ==> IsPlanName(r[i].file) && Searched(entries, phaseNum, r[i].phaseDir)
  {
    if entries == [] then []
    else
      var q := |entries| - 1;
      var e := entries[q];
      var init := Plans(entries[..q], phaseNum);
      var last := if PhaseWanted(e, phaseNum) then PlansIn(e) else [];
      SearchedExtends(entries, phaseNum);
      assert forall i :: 0 <= i < |last| ==> Searched(entries, phaseNum, last[i].phaseDir);
      init + last
  }

  /** Some directory named `dir` among `entries` is searched. */
  predicate Searched(entries: seq<PhaseEntry>, phaseNum: Option<int>, dir: string) {
    exists k :: 0 <= k < |entries| && PhaseWanted(entries[k], phaseNum) && entries[k].name == dir
  }

  /** A directory searched among the first entries is searched among all of them. */
  lemma SearchedExtends(entries: seq<PhaseEntry>, phaseNum: Option<int>)
    requires entries != []
    ensures forall dir :: Searched(entries[..|entries| - 1], phaseNum, dir) ==> Searched(entries, phaseNum, dir)
    ensures PhaseWanted(entries[|entries| - 1], phaseNum) ==> Searched(entries, phaseNum, entries[|entries| - 1].name)
  {
    forall dir | Searched(entries[..|entries| - 1], phaseNum, dir)
      ensures Searched(entries, phaseNum, dir)
    {
      var k :| 0 <= k < |entries| - 1 && PhaseWanted(entries[..|entries| - 1][k], phaseNum)
        && entries[..|entries| - 1][k].name == dir;
      assert entries[..|entries| - 1][k] == entries[k];
    }
  }

  /** `find_plan_files`; `None` stands for a missing phases directory. */
  method FindPlanFiles(phases: Option<seq<PhaseEntry>>, phaseNum: Option<int>) returns (plans: seq<PlanPath>)
    ensures plans == if phases.None? then [] else Plans(phases.value, phaseNum)
  {
    if phases.None? {
      return [];
    }
    var entries := phases.value;
    plans := [];
    for i := 0 to |entries|
      invariant plans == Plans(entries[..i], phaseNum)
    {
      var e := entries[i];
      assert entries[..i + 1][..i] == entries[..i];
      var wanted := e.isDir;
      if wanted && phaseNum.Some? {
        var m := LeadingNumber(e.name);
        wanted := m.Some? && m.value == phaseNum.value;
      }
      if wanted {
        for j := 0 to |e.children|
          invariant plans == Plans(entries[..i], phaseNum) + PlansUpTo(e, j)
        {
          if IsPlanName(e.children[j]) {
            plans := plans + [PlanPath(e.name, e.children[j])];
          }
        }
      }
    }
    assert entries[..|entries|] == entries;
  }

  // ---------------------------------------------------------------------------------------
  // What is found

  /** The plan files of one directory are its children that match the glob, in its order. */
  lemma {:induction false} PlansUpToMember(e: PhaseEntry, n: nat, p: PlanPath)
    requires n <= |e.children|
    ensures p in PlansUpTo(e, n) <==> p.phaseDir == e.name && IsPlanName(p.file) && p.file in e.children[..n]
  {
    if n > 0 {
      PlansUpToMember(e, n - 1, p);
      assert e.children[..n] == e.children[..n - 1] + [e.children[n - 1]];
    }
  }

  /** A plan is found exactly when it matches the glob inside a directory that is searched. */
  lemma {:induction false} PlansMember(entries: seq<PhaseEntry>, phaseNum: Option<int>, p: PlanPath)
    ensures p in Plans(entries, phaseNum) <==>
      exists i :: 0 <= i < |entries| && PhaseWanted(entries[i], phaseNum)
        && p.phaseDir == entries[i].name && IsPlanName(p.file) && p.file in entries[i].children
  {
    if entries != [] {
      var q := |entries| - 1;
      var init := entries[..q];
      PlansMember(init, phaseNum, p);
      PlansUpToMember(entries[q], |entries[q].children|, p);
      assert entries[q].children[..|entries[q].children|] == entries[q].children;
      assert forall i :: 0 <= i < q ==> init[i] == entries[i];
    }
  }

  /** The directories are searched in order: the plans of earlier directories come first. */
  lemma {:induction false} PlansAppend(xs: seq<PhaseEntry>, ys: seq<PhaseEntry>, phaseNum: Option<int>)
    ensures Plans(xs + ys, phaseNum) == Plans(xs, phaseNum) + Plans(ys, phaseNum)
  {
    if ys == [] {
      assert xs + ys == xs;
    } else {
      var q := |ys| - 1;
      assert (xs + ys)[..|xs + ys| - 1] == xs + ys[..q];
      assert (xs + ys)[|xs + ys| - 1] == ys[q];
      PlansAppend(xs, ys[..q], phaseNum);
    }
  }

  /** Asking for one phase finds some of the plans found when asking for none. */
  lemma PhasePlansAmongAll(entries: seq<PhaseEntry>, n: int, p: PlanPath)
    requires p in Plans(entries, Some(n))
    ensures p in Plans(entries, None)
  {
    PlansMember(entries, Some(n), p);
    PlansMember(entries, None, p);
  }

  /** Every plan found for a phase sits in a directory whose leading number is that phase. */
  lemma PhasePlansNumbered(entries: seq<PhaseEntry>, n: int, p: PlanPath)
    requires p in Plans(entries, Some(n))
    ensures exists i :: 0 <= i < |entries| && entries[i].name == p.phaseDir && entries[i].isDir
                        && LeadingNumber(entries[i].name).Some? && LeadingNumber(entries[i].name).value == n
  {
    PlanSearched(entries, Some(n), p);
  }

  /** A plan found matches the glob and lies in a directory that is searched. */
  lemma PlanSearched(entries: seq<PhaseEntry>, phaseNum: Option<int>, p: PlanPath)
    requires p in Plans(entries, phaseNum)
    ensures IsPlanName(p.file) && Searched(entries, phaseNum, p.phaseDir)
  {
  }
}
