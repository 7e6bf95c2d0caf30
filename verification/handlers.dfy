/**
 The three sub-commands, on already expanded absolute paths: select, then
 list (query), rename in place (rename), or move into the target (move).
 */
module Handlers {
  import opened Wrappers
  import opened Paths
  import opened Oracle
  import opened Config
  import opened Selection
  import opened Executor
  import opened Renaming
  import opened Moving

  /** A handler's for-loop over the selected paths, returning on the first error. */
  method Execute(step: Step, paths: seq<FilePath>) returns (r: Run)
    ensures r == Fold(step, Start, paths)
  {
    var st := Start;
    var i := 0;
    while i < |paths|
      invariant 0 <= i <= |paths|
      invariant Fold(step, Start, paths) == Fold(step, st, paths[i..])
    {
      assert paths[i..][1..] == paths[i + 1..];
      var next := step(st, paths[i]);
      if next.Stopped? {
        return next;
      }
      st := next.st;
      i := i + 1;
    }
    return Running(st);
  }

  /** handleQuery's loop: one listing line per path, in order. */
  method ListAll(kept: seq<FilePath>) returns (lines: seq<Line>)
    ensures Subjects(lines) == kept
    ensures forall l :: l in lines ==> l.Listed?
  {
    lines := [];
    var i := 0;
    while i < |kept|
      invariant 0 <= i <= |kept|
      invariant Subjects(lines) == kept[..i]
      invariant forall l :: l in lines ==> l.Listed?
    {
      SubjectsAppend(lines, Listed(kept[i]));
      assert kept[..i + 1] == kept[..i] + [kept[i]];
      lines := lines + [Listed(kept[i])];
      i := i + 1;
    }
    assert kept[..i] == kept;
  }

  /** handleQuery: one line per selected path, in order, or the selection's error. */
  method HandleQuery(w: World, opts: Options, paths: seq<AbsPath>) returns (r: Result<seq<Line>, Error>)
    ensures r.Success? <==> AllExamined(w, opts, paths)
    ensures r.Success? ==> Subjects(r.value) == Kept(w, opts, paths)
    ensures r.Success? ==> forall l :: l in r.value ==> l.Listed?
    ensures r.Failure? ==> FailsFirstWith(w, opts, paths, r.error)
  {
    var selected := GetImageFilePaths(w, opts, paths);
    if selected.Failure? {
      return Failure(selected.error);
    }
    var lines := ListAll(selected.value);
    return Success(lines);
  }

  /**
   handleRename: select, then rename each selected file in place. A dry run
   issues nothing; the run is honest; every operation is a rename of a
   selected file to its taken-time path; a run that ends without error
   reported every selected file once, in order.
   */
  method HandleRename(w: World, opts: Options, paths: seq<AbsPath>) returns (r: Run)
    ensures !AllExamined(w, opts, paths) ==> r.Stopped? && r.st == Start && FailsFirstWith(w, opts, paths, r.error)
    ensures AllExamined(w, opts, paths) ==> r == RenameRun(w, opts.dryRun, Kept(w, opts, paths))
    ensures opts.dryRun ==> r.st.ops == []
    ensures Honest(w, r)
    ensures AllPlanned(RenameTarget(w), Kept(w, opts, paths), r.st.ops)
    ensures r.Running? ==> Subjects(r.st.log) == Kept(w, opts, paths)
  {
    var selected := GetImageFilePaths(w, opts, paths);
    if selected.Failure? {
      return Stopped(Start, selected.error);
    }
    var kept := selected.value;
    var target := RenameTarget(w);
    r := Execute(RenameStepper(w, target, opts.dryRun), kept);
    if opts.dryRun {
      DryRunRenameIssuesNothing(w, target, kept);
    }
    RenameHonest(w, target, opts.dryRun, kept);
    RenamesArePlanned(w, target, opts.dryRun, kept);
    RenameReportsEveryPath(w, target, opts.dryRun, kept);
  }

  /**
   handleMove: select, then move each selected file into the target. A dry
   run issues nothing; the run is honest; MkdirAll of the target comes first
   if at all, followed by renames of selected files to their destinations;
   a run that ends without error issued MkdirAll exactly when some file had
   to move, then exactly the due renames, and reported every selected file
   once, in order.
   */
  method HandleMove(w: World, opts: Options, paths: seq<AbsPath>) returns (r: Run)
    requires CleanAbs(opts.target)
    ensures !AllExamined(w, opts, paths) ==> r.Stopped? && r.st == Start && FailsFirstWith(w, opts, paths, r.error)
    ensures AllExamined(w, opts, paths) ==> r == MoveRun(w, opts.dryRun, opts.target, Kept(w, opts, paths))
    ensures opts.dryRun ==> r.st.ops == []
    ensures Honest(w, r)
    ensures |r.st.ops| > 0 ==> r.st.ops[0] == MkdirAll(opts.target)
    ensures forall i :: 1 <= i < |r.st.ops| ==> PlannedMove(Destinations(opts.target), Kept(w, opts, paths), r.st.ops[i])
    ensures r.Running? && !opts.dryRun ==>
      var plan := MovePlan(Destinations(opts.target), Kept(w, opts, paths));
      r.st.ops == (if plan == [] then [] else [MkdirAll(opts.target)]) + plan
    ensures r.Running? ==> Reported(r.st.log) == Kept(w, opts, paths)
    ensures !opts.dryRun ==> NoMkdirLine(r.st.log)
    ensures AllExamined(w, opts, paths) && opts.dryRun ==>
      r.Running? && AnnouncedOnce(opts.target, MovePlan(Destinations(opts.target), Kept(w, opts, paths)) != [], r.st.log)
  {
    var selected := GetImageFilePaths(w, opts, paths);
    if selected.Failure? {
      return Stopped(Start, selected.error);
    }
    var kept := selected.value;
    var target: AbsPath := opts.target;
    var dest := Destinations(target);
    r := Execute(MoveStepper(w, target, dest, opts.dryRun), kept);
    if opts.dryRun {
      DryRunMoveIssuesNothing(w, target, dest, kept);
      DryRunAnnouncesOnce(w, target, dest, kept);
    } else {
      MovePlanOnSuccess(w, target, dest, kept);
      MoveAnnouncesNothing(w, target, dest, kept);
    }
    MoveHonest(w, target, dest, opts.dryRun, kept);
    MoveOpsShape(w, target, dest, opts.dryRun, kept);
    MoveReportsEveryPath(w, target, dest, opts.dryRun, kept);
  }
}
