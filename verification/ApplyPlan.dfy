/**
 Writing the files of a plan: each is staged beside its target, the stages then
 replace the targets one by one, and a failure at any step rolls everything back.
 */
module ApplyPlan {

  datatype Path = Path(dir: string, name: string)

  type Files = map<Path, string>

  datatype Write = Write(path: Path, text: string)

  const SUFFIX := ".ops_split.tmp"

  /** The stage file beside a target. */
  function Stage(path: Path): Path { Path(path.dir, "." + path.name + SUFFIX) }

  /** The stage paths of a plan. */
  function Stages(plan: seq<Write>): set<Path> { set w | w in plan :: Stage(w.path) }

  /**
   Where a run fails: while reading the originals, on opening stage `k`, after part
   of stage `k` was written, before replacing target `k`, or right after it.
   */
  datatype Fault = NoFault | AtRead | AtOpen(k: nat) | InWrite(k: nat, partial: string) | BeforeReplace(k: nat) | AfterReplace(k: nat)

  /** The failure happens in a plan of `n` files. */
  predicate Strikes(fault: Fault, n: nat) {
    match fault
    case NoFault => false
    case AtRead => true
    case _ => fault.k < n
  }

  /** How many stages were begun when the run ended. */
  function Begun(fault: Fault, n: nat): nat {
    if fault.AtRead? then 0
    else if (fault.AtOpen? || fault.InWrite?) && fault.k < n then fault.k + 1
    else n
  }

  /** The file map with every target of the plan holding its new text. */
  function Overlay(files: Files, plan: seq<Write>): Files {
    if plan == [] then files
    else Overlay(files, plan[..|plan| - 1])[plan[|plan| - 1].path := plan[|plan| - 1].text]
  }

  ghost predicate DistinctTargets(plan: seq<Write>) {
    forall i, j :: 0 <= i < j < |plan| ==> plan[i].path != plan[j].path
  }

  /** No stage file is the target of another write. */
  ghost predicate StagesApart(plan: seq<Write>) {
    forall i :: 0 <= i < |plan| ==> plan[i].path !in Stages(plan)
  }

  /** What a run leaves: the new files or the old ones, less the stage paths it began. */
  function After(files: Files, plan: seq<Write>, fault: Fault): Files {
    (if Strikes(fault, |plan|) then files else Overlay(files, plan)) - Stages(plan[..Begun(fault, |plan|)])
  }

  lemma StageInjective(a: Path, b: Path)
    requires Stage(a) == Stage(b)
    ensures a == b
  {
    assert |a.name| == |b.name|;
    assert forall i :: 0 <= i < |a.name| ==> a.name[i] == Stage(a).name[i + 1] == b.name[i];
  }

  lemma StagesPrefix(plan: seq<Write>, n: nat)
    requires n < |plan|
    ensures Stages(plan[..n + 1]) == Stages(plan[..n]) + {Stage(plan[n].path)}
    ensures Stages(plan[..n]) <= Stages(plan)
  {
    assert plan[..n + 1] == plan[..n] + [plan[n]];
  }

  lemma StageIn(plan: seq<Write>, i: nat, n: nat)
    requires i < n <= |plan|
    ensures Stage(plan[i].path) in Stages(plan[..n]) && Stage(plan[i].path) in Stages(plan)
  {
    assert plan[..n][i] == plan[i];
  }

  lemma StageOut(plan: seq<Write>, i: nat, n: nat)
    requires DistinctTargets(plan) && n <= i < |plan|
    ensures Stage(plan[i].path) !in Stages(plan[..n])
  {
    forall j | 0 <= j < n ensures Stage(plan[j].path) != Stage(plan[i].path) {
      if Stage(plan[j].path) == Stage(plan[i].path) {
        StageInjective(plan[j].path, plan[i].path);
      }
    }
  }

  lemma {:induction false} OverlayAt(files: Files, plan: seq<Write>, p: Path)
    requires DistinctTargets(plan)
    ensures forall i :: 0 <= i < |plan| ==> plan[i].path in Overlay(files, plan) && Overlay(files, plan)[plan[i].path] == plan[i].text
    ensures (forall i :: 0 <= i < |plan| ==> plan[i].path != p) ==>
      (p in Overlay(files, plan) <==> p in files) && (p in files ==> Overlay(files, plan)[p] == files[p])
  {
    if plan != [] {
      OverlayAt(files, plan[..|plan| - 1], p);
    }
  }

  /** The two maps say the same about `p`. */
  ghost predicate SameAt(a: Files, b: Files, p: Path) {
    (p in a <==> p in b) && (p in a ==> a[p] == b[p])
  }

  lemma LessStages(a: Files, b: Files, stages: set<Path>)
    requires forall p :: p !in stages ==> SameAt(a, b, p)
    ensures a - stages == b - stages
  {
    forall p ensures SameAt(a - stages, b - stages, p) {
    }
  }

  lemma NothingBegun(files: Files, plan: seq<Write>)
    ensures After(files, plan, AtRead) == files
  {
    assert plan[..0] == [];
  }

  class Tree {
    var files: Files

    /** The first `n` stages hold their text; every other path is as it was. */
    ghost predicate StagedUpTo(before: Files, plan: seq<Write>, n: nat)
      requires n <= |plan|
      reads this
    {
      (forall i :: 0 <= i < n ==> Stage(plan[i].path) in files && files[Stage(plan[i].path)] == plan[i].text)
      && (forall p :: p !in Stages(plan[..n]) ==> SameAt(files, before, p))
    }

    /** Stages the files in turn. `begun` counts the stages whose path was recorded. */
    method StageAll(plan: seq<Write>, fault: Fault) returns (failed: bool, begun: nat)
      requires DistinctTargets(plan)
      modifies this
      ensures failed <==> (fault.AtOpen? || fault.InWrite?) && fault.k < |plan|
      ensures begun == if failed then fault.k + 1 else |plan|
      ensures !failed ==> StagedUpTo(old(files), plan, |plan|)
      ensures forall p :: p !in Stages(plan[..begun]) ==> SameAt(files, old(files), p)
    {
      ghost var before := files;
      begun := 0;
      while begun < |plan|
        invariant begun <= |plan|
        invariant (fault.AtOpen? || fault.InWrite?) ==> begun <= fault.k || fault.k >= |plan|
        invariant StagedUpTo(before, plan, begun)
      {
        var tmp := Stage(plan[begun].path);
        StagesPrefix(plan, begun);
        StageOut(plan, begun, begun);
        ghost var k := begun;
        forall i | 0 <= i < k ensures Stage(plan[i].path) != tmp {
          StageIn(plan, i, k);
        }
        begun := begun + 1;
        if fault == AtOpen(begun - 1) {
          return true, begun;
        }
        if fault.InWrite? && fault.k == begun - 1 {
          files := files[tmp := fault.partial];
          return true, begun;
        }
        files := files[tmp := plan[begun - 1].text];
      }
      failed := false;
    }

    /** Targets below `n` are replaced and their stages gone; the rest is staged. */
    ghost predicate ReplacedUpTo(before: Files, plan: seq<Write>, n: nat)
      requires n <= |plan|
      reads this
    {
      (forall i :: 0 <= i < n ==>
         plan[i].path in files && files[plan[i].path] == plan[i].text && Stage(plan[i].path) !in files)
      && (forall i :: n <= i < |plan| ==> Stage(plan[i].path) in files && files[Stage(plan[i].path)] == plan[i].text)
      && (forall i :: n <= i < |plan| ==> SameAt(files, before, plan[i].path))
      && (forall p :: p !in Stages(plan) && (forall i :: 0 <= i < |plan| ==> plan[i].path != p) ==> SameAt(files, before, p))
    }

    /** Replaces the targets in turn. A target is recorded before it is replaced. */
    method ReplaceAll(ghost before: Files, plan: seq<Write>, fault: Fault) returns (failed: bool, recorded: nat, ghost done: nat)
      requires DistinctTargets(plan) && StagesApart(plan) && StagedUpTo(before, plan, |plan|)
      modifies this
      ensures failed <==> (fault.BeforeReplace? || fault.AfterReplace?) && fault.k < |plan|
      ensures recorded <= |plan| && done <= recorded <= done + 1 && (!failed ==> done == |plan|)
      ensures ReplacedUpTo(before, plan, done)
    {
      assert plan[..|plan|] == plan;
      recorded, done := 0, 0;
      while recorded < |plan|
        invariant done == recorded <= |plan|
        invariant (fault.BeforeReplace? || fault.AfterReplace?) ==> recorded <= fault.k || fault.k >= |plan|
        invariant ReplacedUpTo(before, plan, done)
      {
        recorded := recorded + 1;
        if fault == BeforeReplace(recorded - 1) {
          return true, recorded, done;
        }
        ReplaceStep(before, plan, recorded - 1);
        done := recorded;
        if fault == AfterReplace(recorded - 1) {
          return true, recorded, done;
        }
      }
      failed := false;
    }

    /** `os.replace`: the stage becomes the target. */
    method ReplaceStep(ghost before: Files, plan: seq<Write>, n: nat)
      requires DistinctTargets(plan) && StagesApart(plan) && n < |plan| && ReplacedUpTo(before, plan, n)
      modifies this
      ensures ReplacedUpTo(before, plan, n + 1)
    {
      var tmp := Stage(plan[n].path);
      forall i | 0 <= i < |plan| ensures i != n ==> Stage(plan[i].path) != tmp {
        if Stage(plan[i].path) == tmp {
          StageInjective(plan[i].path, plan[n].path);
        }
      }
      forall i | 0 <= i < |plan| ensures Stage(plan[i].path) in Stages(plan) {
        StageIn(plan, i, |plan|);
      }
      files := files[plan[n].path := files[tmp]] - {tmp};
    }

    /** What holds while targets below `r` have been looked at. */
    ghost predicate RestoredUpTo(originals: Files, plan: seq<Write>, r: nat, done: nat)
      reads this
    {
      (forall i :: 0 <= i < |plan| && (i < r || i >= done) ==> SameAt(files, originals, plan[i].path))
      && (forall i :: 0 <= i < |plan| ==> (Stage(plan[i].path) in files <==> i >= done))
      && (forall p :: p !in Stages(plan) && (forall i :: 0 <= i < |plan| ==> plan[i].path != p) ==> SameAt(files, originals, p))
    }

    /** A target whose stage still exists was never replaced. */
    method RestoreOne(originals: Files, plan: seq<Write>, r: nat, ghost done: nat)
      requires DistinctTargets(plan) && StagesApart(plan) && r < |plan| && RestoredUpTo(originals, plan, r, done)
      modifies this
      ensures RestoredUpTo(originals, plan, r + 1, done)
    {
      var path := plan[r].path;
      forall i | 0 <= i < |plan| ensures Stage(plan[i].path) != path {
        StageIn(plan, i, |plan|);
      }
      hide Stage, Stages;
      if Stage(path) !in files {
        files := if path in originals then files[path := originals[path]] else files - {path};
      }
    }

    /** Gives every recorded target whose stage was consumed its original content back. */
    method Rollback(originals: Files, plan: seq<Write>, recorded: nat, ghost done: nat)
      requires DistinctTargets(plan) && StagesApart(plan)
      requires recorded <= |plan| && done <= recorded <= done + 1 && ReplacedUpTo(originals, plan, done)
      modifies this
      ensures forall p :: p !in Stages(plan) ==> SameAt(files, originals, p)
    {
      var r := 0;
      while r < recorded
        invariant r <= recorded && RestoredUpTo(originals, plan, r, done)
      {
        RestoreOne(originals, plan, r, done);
        r := r + 1;
      }
    }

    /** Deletes the stage files that were begun. */
    method Cleanup(plan: seq<Write>, begun: nat)
      requires begun <= |plan|
      modifies this
      ensures files == old(files) - Stages(plan[..begun])
    {
      ghost var start := files;
      var n := 0;
      while n < begun
        invariant n <= begun && files == start - Stages(plan[..n])
      {
        StagesPrefix(plan, n);
        files := files - {Stage(plan[n].path)};
        n := n + 1;
      }
    }

    /** Once every target is replaced, the tree is the overlay, stage paths aside. */
    lemma AllReplaced(before: Files, plan: seq<Write>)
      requires DistinctTargets(plan) && StagesApart(plan) && ReplacedUpTo(before, plan, |plan|)
      ensures files - Stages(plan) == Overlay(before, plan) - Stages(plan)
    {
      forall p ensures p !in Stages(plan) ==> SameAt(files, Overlay(before, plan), p) {
        OverlayAt(before, plan, p);
      }
      LessStages(files, Overlay(before, plan), Stages(plan));
    }

    /** Writes every file of the plan or none of them. */
    method Apply(plan: seq<Write>, fault: Fault) returns (ok: bool)
      requires DistinctTargets(plan) && StagesApart(plan)
      modifies this
      ensures ok <==> !Strikes(fault, |plan|)
      ensures files == After(old(files), plan, fault)
    {
      hide Overlay, Stages, DistinctTargets, StagesApart, StagedUpTo, ReplacedUpTo, SameAt;
      ghost var before := files;
      if fault.AtRead? {
        NothingBegun(files, plan);
        return false;
      }
      var originals := files;
      var failed, begun := StageAll(plan, fault);
      if failed {
        LessStages(files, before, Stages(plan[..begun]));
        Cleanup(plan, begun);
        return false;
      }
      assert plan[..|plan|] == plan;
      var raised, recorded: nat;
      ghost var done: nat;
      raised, recorded, done := ReplaceAll(before, plan, fault);
      if raised {
        Rollback(originals, plan, recorded, done);
        LessStages(files, before, Stages(plan));
        Cleanup(plan, begun);
        return false;
      }
      AllReplaced(before, plan);
      Cleanup(plan, begun);
      ok := true;
    }
  }

  /** No stage file of the plan is there beforehand. */
  ghost predicate Fresh(files: Files, plan: seq<Write>) {
    forall p :: p in Stages(plan) ==> p !in files
  }

  /**
   All or nothing: for every failure the file map is the initial one, and without a
   failure it is the initial one overlaid with the plan, if and only if none of the
   stage files was there to begin with.
   */
  lemma AllOrNothing(files: Files, plan: seq<Write>)
    requires DistinctTargets(plan) && StagesApart(plan)
    ensures (forall fault :: After(files, plan, fault) == if Strikes(fault, |plan|) then files else Overlay(files, plan))
            <==> Fresh(files, plan)
  {
    assert plan[..|plan|] == plan;
    forall p | p in Stages(plan) ensures p in Overlay(files, plan) <==> p in files {
      OverlayAt(files, plan, p);
    }
    if Fresh(files, plan) {
      forall fault ensures After(files, plan, fault) == if Strikes(fault, |plan|) then files else Overlay(files, plan) {
        assert Stages(plan[..Begun(fault, |plan|)]) <= Stages(plan);
      }
    } else {
      var p :| p in Stages(plan) && p in files;
      assert p !in After(files, plan, NoFault);
    }
  }

  /** The run does not get through: it fails at the start, or at one of the files. */
  ghost predicate Fails(fault: Fault, n: nat) {
    fault == AtRead || (!fault.NoFault? && !fault.AtRead? && fault.k < n)
  }

  /** The stage of a file is opened, unless the run fails at the start or at the stage of an earlier file. */
  ghost predicate Opens(plan: seq<Write>, fault: Fault, p: Path) {
    !fault.AtRead?
    && exists i :: 0 <= i < |plan| && p == Stage(plan[i].path) && ((fault.AtOpen? || fault.InWrite?) ==> i <= fault.k)
  }

  lemma OpenedStages(plan: seq<Write>, fault: Fault, p: Path)
    ensures p in Stages(plan[..Begun(fault, |plan|)]) <==> Opens(plan, fault, p)
  {
    hide Stage;
    var n := Begun(fault, |plan|);
    var begun := plan[..n];
    if p in Stages(begun) {
      var i :| 0 <= i < n && p == Stage(begun[i].path);
      assert p == Stage(plan[i].path);
    }
    if Opens(plan, fault, p) {
      var i :| 0 <= i < |plan| && p == Stage(plan[i].path) && ((fault.AtOpen? || fault.InWrite?) ==> i <= fault.k);
      assert begun[i] == plan[i] && begun[i] in begun;
    }
  }

  /** What a run leaves at a path: nothing at a stage it opened, else the new text if it got through, else the old one. */
  lemma RunExactly(files: Files, plan: seq<Write>, fault: Fault, p: Path)
    requires DistinctTargets(plan)
    ensures var after, targeted := After(files, plan, fault), !Fails(fault, |plan|) && exists i :: 0 <= i < |plan| && plan[i].path == p;
      (p in after <==> !Opens(plan, fault, p) && (targeted || p in files))
      && (p in after && targeted ==> exists i :: 0 <= i < |plan| && plan[i].path == p && after[p] == plan[i].text)
      && (p in after && !targeted ==> after[p] == files[p])
  {
    OpenedStages(plan, fault, p);
    OverlayAt(files, plan, p);
    hide Overlay, Stages, Begun, Opens;
  }

  /** Stage names start with a dot, so plans whose target names do not are apart from their stages. */
  lemma VisibleTargetsApart(plan: seq<Write>)
    requires forall i :: 0 <= i < |plan| ==> plan[i].path.name != "" && plan[i].path.name[0] != '.'
    ensures StagesApart(plan)
  {
    forall p | p in Stages(plan) ensures p.name[0] == '.' {
    }
  }
}
