/**
 handleRename's loop: each selected photo is renamed, within its own
 directory, to its taken-time name.

 The loop is stated for any way of deriving the new path from the operations
 issued so far; RenameTarget is the one getPhotoTakenTime and getNewImagePath
 make, so every lemma here holds of handleRename in particular.
 */
module Renaming {
  import opened Wrappers
  import opened Paths
  import opened Timestamps
  import opened Oracle
  import opened Config
  import opened Naming
  import opened Executor

  /** Where a file is to be renamed, read after the operations already issued, or why that could not be read. */
  type Renamer = (History, FilePath) -> Result<FilePath, ExtractError>

  /** getPhotoTakenTime, read again in the current state of the filesystem, and then getNewImagePath. */
  function RenameTarget(w: World): Renamer {
    (h: History, p: FilePath) =>
      match PhotoTakenTime(w, h, p)
      case Failure(e) => Failure(e)
      case Success(t) => Success(NewImagePath(p, t))
  }

  /** What RenameTarget yields: the taken-time name, plus lower-cased extension, in the file's own directory. */
  lemma RenameTargetShape(w: World, h: History, p: FilePath)
    ensures RenameTarget(w)(h, p).Failure? <==> PhotoTakenTime(w, h, p).Failure?
    ensures RenameTarget(w)(h, p).Success? ==>
      var q := RenameTarget(w)(h, p).value;
      && q == NewImagePath(p, PhotoTakenTime(w, h, p).value)
      && Dir(q) == Dir(p)
      && Base(q) == FormatName(PhotoTakenTime(w, h, p).value) + LowerCaseExt(p)
  {
  }

  /**
   One iteration: derive the new path (reading the taken-time again), skip a
   file already carrying it, report on a dry run, otherwise rename.
   */
  function RenameStep(w: World, target: Renamer, dryRun: bool, st: State, p: FilePath): Run {
    match target(st.ops, p)
    case Failure(e) => Stopped(st, ExtractFailed(e))
    case Success(q) =>
      if p == q then Running(Say(st, SkippedSamePath(p)))
      else Transfer(w, dryRun, st, p, q)
  }

  function RenameStepper(w: World, target: Renamer, dryRun: bool): Step {
    (st: State, p: FilePath) => RenameStep(w, target, dryRun, st, p)
  }

  /** handleRename's loop over the selected paths. */
  function RenameRun(w: World, dryRun: bool, ps: seq<FilePath>): Run {
    Fold(RenameStepper(w, RenameTarget(w), dryRun), Start, ps)
  }

  /**
   The i-th operation issued is a rename of one of ps to where target sent it
   after the operations before it, and never onto itself.
   */
  predicate PlannedRename(target: Renamer, ps: seq<FilePath>, ops: History, i: nat)
    requires i < |ops|
  {
    && ops[i].Rename?
    && ops[i].src in ps
    && ops[i].src != ops[i].dst
    && target(ops[..i], ops[i].src) == Success(ops[i].dst)
  }

  /** Every operation in ops is planned in that sense. */
  predicate AllPlanned(target: Renamer, ps: seq<FilePath>, ops: History) {
    forall i :: 0 <= i < |ops| ==> PlannedRename(target, ps, ops, i)
  }

  /** One iteration issues nothing, or (only when not a dry run) one rename of p to its derived path. */
  lemma RenameStepIssues(w: World, target: Renamer, dryRun: bool, st: State, p: FilePath)
    ensures var r := RenameStep(w, target, dryRun, st, p);
      || r.st.ops == st.ops
      || (&& !dryRun
          && target(st.ops, p).Success?
          && target(st.ops, p).value != p
          && r.st.ops == st.ops + [Rename(p, target(st.ops, p).value)])
  {
  }

  /** One iteration that carries on writes exactly one line, about p. */
  lemma RenameStepReports(w: World, target: Renamer, dryRun: bool, st: State, p: FilePath)
    ensures var r := RenameStep(w, target, dryRun, st, p);
      r.Running? ==> Subjects(r.st.log) == Subjects(st.log) + [p]
  {
    match target(st.ops, p)
    case Failure(e) =>
    case Success(q) =>
      var l := if p == q then SkippedSamePath(p) else if dryRun then SkippedDryRun(p, q) else Renamed(p, q);
      var r := RenameStep(w, target, dryRun, st, p);
      if r.Running? {
        assert r.st.log == st.log + [l];
        SubjectsAppend(st.log, l);
      }
  }

  /**
   One iteration stops only when the new path cannot be derived, or (not on a
   dry run) the rename fails; and it does stop then.
   */
  lemma RenameStepStops(w: World, target: Renamer, dryRun: bool, st: State, p: FilePath)
    ensures var r := RenameStep(w, target, dryRun, st, p);
      r.Stopped? ==>
        || (target(st.ops, p).Failure? && r.error == ExtractFailed(target(st.ops, p).error))
        || (!dryRun && r.error.RenameFailed?)
    ensures target(st.ops, p).Failure? ==>
      RenameStep(w, target, dryRun, st, p) == Stopped(st, ExtractFailed(target(st.ops, p).error))
    ensures target(st.ops, p).Success? && (dryRun || target(st.ops, p).value == p) ==>
      RenameStep(w, target, dryRun, st, p).Running?
    ensures target(st.ops, p).Success? && !dryRun && target(st.ops, p).value != p ==>
      (RenameStep(w, target, dryRun, st, p).Stopped? <==> w.perform(st.ops, Rename(p, target(st.ops, p).value)).Some?)
  {
  }

  /** A file that already carries its new name is skipped with the "old and new path match" line, and nothing else happens. */
  lemma RenameSamePathSkipped(w: World, target: Renamer, dryRun: bool, st: State, p: FilePath)
    requires target(st.ops, p) == Success(p)
    ensures RenameStep(w, target, dryRun, st, p) == Running(Say(st, SkippedSamePath(p)))
  {
  }

  /** One iteration keeps every operation issued planned. */
  lemma RenameStepPlanned(w: World, target: Renamer, dryRun: bool, ps: seq<FilePath>, st: State, p: FilePath)
    requires p in ps && AllPlanned(target, ps, st.ops)
    ensures AllPlanned(target, ps, RenameStep(w, target, dryRun, st, p).st.ops)
  {
    RenameStepIssues(w, target, dryRun, st, p);
    var ops := RenameStep(w, target, dryRun, st, p).st.ops;
    if ops != st.ops {
      forall i | 0 <= i < |ops| ensures PlannedRename(target, ps, ops, i) {
        if i < |st.ops| {
          assert ops[..i] == st.ops[..i] && ops[i] == st.ops[i];
          assert PlannedRename(target, ps, st.ops, i);
        } else {
          assert ops[..i] == st.ops;
        }
      }
    }
  }

  /** Every step is honest after a successful history. */
  lemma RenameStepHonest(w: World, target: Renamer, dryRun: bool, st: State, p: FilePath)
    requires Succeeded(w, st.ops)
    ensures Honest(w, RenameStep(w, target, dryRun, st, p))
  {
    match target(st.ops, p)
    case Failure(e) =>
    case Success(q) =>
      if p != q && !dryRun {
        TryRenameHonest(w, st, p, q);
      }
  }

  /** The loop reports the filesystem truthfully: see Executor.Honest. */
  lemma RenameHonest(w: World, target: Renamer, dryRun: bool, ps: seq<FilePath>)
    ensures Honest(w, Fold(RenameStepper(w, target, dryRun), Start, ps))
  {
    forall s: State, p | p in ps && Succeeded(w, s.ops)
      ensures Honest(w, RenameStepper(w, target, dryRun)(s, p))
    {
      RenameStepHonest(w, target, dryRun, s, p);
    }
    FoldHonest(w, RenameStepper(w, target, dryRun), Start, ps);
  }

  /** A dry run issues no filesystem operation at all, however it ends. */
  lemma DryRunRenameIssuesNothing(w: World, target: Renamer, ps: seq<FilePath>)
    ensures Fold(RenameStepper(w, target, true), Start, ps).st.ops == []
  {
    var inv := (s: State) => s.ops == [];
    forall s: State, p | p in ps && inv(s) ensures inv(RenameStepper(w, target, true)(s, p).st) {
      RenameStepIssues(w, target, true, s, p);
    }
    FoldKeeps(RenameStepper(w, target, true), inv, Start, ps);
  }

  /**
   Every operation the loop issues is a rename of one of the selected files
   to the path derived for it just before it was issued, never onto itself.
   */
  lemma RenamesArePlanned(w: World, target: Renamer, dryRun: bool, ps: seq<FilePath>)
    ensures AllPlanned(target, ps, Fold(RenameStepper(w, target, dryRun), Start, ps).st.ops)
  {
    var inv := (s: State) => AllPlanned(target, ps, s.ops);
    forall s: State, p | p in ps && inv(s) ensures inv(RenameStepper(w, target, dryRun)(s, p).st) {
      RenameStepPlanned(w, target, dryRun, ps, s, p);
    }
    FoldKeeps(RenameStepper(w, target, dryRun), inv, Start, ps);
  }

  /** A run that ends without error has written exactly one line per selected file, about that file, in order. */
  lemma RenameReportsEveryPath(w: World, target: Renamer, dryRun: bool, ps: seq<FilePath>)
    ensures var r := Fold(RenameStepper(w, target, dryRun), Start, ps);
      r.Running? ==> Subjects(r.st.log) == ps
  {
    forall s: State, p | p in ps && RenameStepper(w, target, dryRun)(s, p).Running?
      ensures Subjects(RenameStepper(w, target, dryRun)(s, p).st.log) == Subjects(s.log) + [p]
    {
      RenameStepReports(w, target, dryRun, s, p);
    }
    FoldReports(RenameStepper(w, target, dryRun), Subjects, Start, ps);
  }

  /** The derived path of each of ps is the same whatever operations were issued before it is read. */
  ghost predicate Settled(target: Renamer, ps: seq<FilePath>) {
    forall h, p :: p in ps ==> target(h, p) == target([], p)
  }

  /** The rename due for one file, derived before the run: none if it already carries its name. */
  function RenameDue(target: Renamer, p: FilePath): seq<Op> {
    match target([], p)
    case Failure(_) => []
    case Success(q) => if q == p then [] else [Rename(p, q)]
  }

  /** The renames due for ps, in order. */
  function RenamePlan(target: Renamer, ps: seq<FilePath>): seq<Op> {
    Collect((p: FilePath) => RenameDue(target, p), ps)
  }

  /** With a settled derivation, an iteration that carries on issues exactly the rename due. */
  lemma RenameStepDue(w: World, target: Renamer, st: State, p: FilePath)
    requires target(st.ops, p) == target([], p)
    ensures var r := RenameStep(w, target, false, st, p);
      r.Running? ==> r.st.ops == st.ops + RenameDue(target, p)
  {
  }

  /** When renaming does not change what is derived, a run that ends without error has issued exactly the planned renames, in order. */
  lemma RenamePlanOnSuccess(w: World, target: Renamer, ps: seq<FilePath>)
    requires Settled(target, ps)
    ensures var r := Fold(RenameStepper(w, target, false), Start, ps);
      r.Running? ==> r.st.ops == RenamePlan(target, ps)
  {
    var due := (p: FilePath) => RenameDue(target, p);
    forall s: State, p | p in ps && RenameStepper(w, target, false)(s, p).Running?
      ensures RenameStepper(w, target, false)(s, p).st.ops == s.ops + due(p)
    {
      assert target(s.ops, p) == target([], p);
      RenameStepDue(w, target, s, p);
    }
    FoldIssues(RenameStepper(w, target, false), due, Start, ps);
  }

  /**
   The second read of the taken-time is expected to succeed: when every
   file's new path could be derived before the run and renaming does not
   change it, the only way the loop can stop is a failed rename.
   */
  lemma SettledRunStopsOnlyOnRename(w: World, target: Renamer, dryRun: bool, ps: seq<FilePath>)
    requires Settled(target, ps)
    requires forall p :: p in ps ==> target([], p).Success?
    ensures var r := Fold(RenameStepper(w, target, dryRun), Start, ps);
      r.Stopped? ==> !dryRun && r.error.RenameFailed?
  {
    var r := Fold(RenameStepper(w, target, dryRun), Start, ps);
    if r.Stopped? {
      var k := StopsAtFirstFailure(RenameStepper(w, target, dryRun), Start, ps);
      var s := Fold(RenameStepper(w, target, dryRun), Start, ps[..k]).st;
      assert ps[k] in ps;
      assert target(s.ops, ps[k]) == target([], ps[k]);
      RenameStepStops(w, target, dryRun, s, ps[k]);
    }
  }

  /** The taken-time of every file reads the same whatever operations were issued before. */
  ghost predicate TakenTimesSettled(w: World, ps: seq<FilePath>) {
    forall h, p :: p in ps ==> PhotoTakenTime(w, h, p) == PhotoTakenTime(w, [], p)
  }

  /** Settled taken-times give a settled derivation. */
  lemma TakenTimesSettleTarget(w: World, ps: seq<FilePath>)
    requires TakenTimesSettled(w, ps)
    ensures Settled(RenameTarget(w), ps)
  {
    forall h, p | p in ps ensures RenameTarget(w)(h, p) == RenameTarget(w)([], p) {
      assert PhotoTakenTime(w, h, p) == PhotoTakenTime(w, [], p);
    }
  }
}
