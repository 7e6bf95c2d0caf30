/**
 handleMove's loop: each selected photo is moved, under its own base name,
 into the target directory, which is created (with its parents) just before
 the first file that actually moves.

 As for renaming, the loop is stated for any destination function;
 MoveDestination is the one handleMove uses.
 */
module Moving {
  import opened Wrappers
  import opened Paths
  import opened Oracle
  import opened Config
  import opened Executor

  /** filepath.Join(target, filepath.Base(p)). */
  function MoveDestination(target: AbsPath, p: FilePath): (q: FilePath)
    ensures Dir(q) == target
    ensures Base(q) == Base(p)
  {
    JoinDirBase(p);
    Join(target, Base(p))
  }

  /** A file is already in place exactly when it lies directly in the target directory. */
  lemma MoveDestinationIsSelf(target: AbsPath, p: FilePath)
    ensures MoveDestination(target, p) == p <==> Dir(p) == target
  {
    JoinDirBase(p);
  }

  /** Where each file goes. */
  type Mover = FilePath -> FilePath

  function Destinations(target: AbsPath): Mover {
    (p: FilePath) => MoveDestination(target, p)
  }

  /** The seenFirstFile block: on the first file that moves, create dir (or, on a dry run, say it would be created). */
  function Prepare(w: World, dir: Path, dryRun: bool, st: State): Run {
    if st.seenFirstFile then Running(st)
    else
      var s := st.(seenFirstFile := true);
      if dryRun then Running(Say(s, SkippedMkdir(dir)))
      else
        var done := s.(ops := s.ops + [MkdirAll(dir)]);
        match w.perform(s.ops, MkdirAll(dir))
        case Some(e) => Stopped(done, MkdirFailed(dir, e))
        case None => Running(done)
  }

  /** One iteration: skip a file already in place; otherwise prepare the directory, then report or rename. */
  function MoveStep(w: World, dir: Path, dest: Mover, dryRun: bool, st: State, p: FilePath): Run {
    var q := dest(p);
    if p == q then Running(Say(st, SkippedSamePath(p)))
    else
      match Prepare(w, dir, dryRun, st)
      case Stopped(s, e) => Stopped(s, e)
      case Running(s) => Transfer(w, dryRun, s, p, q)
  }

  function MoveStepper(w: World, dir: Path, dest: Mover, dryRun: bool): Step {
    (st: State, p: FilePath) => MoveStep(w, dir, dest, dryRun, st, p)
  }

  /** handleMove's loop over the selected paths, towards a clean absolute target. */
  function MoveRun(w: World, dryRun: bool, target: AbsPath, ps: seq<FilePath>): Run {
    Fold(MoveStepper(w, target, Destinations(target), dryRun), Start, ps)
  }

  /** A rename the move loop may issue: of one of ps, to its destination, which differs from it. */
  predicate PlannedMove(dest: Mover, ps: seq<FilePath>, op: Op) {
    op.Rename? && op.src in ps && op.dst == dest(op.src) && op.src != op.dst
  }

  /** The flag is set once some file has moved, or would have on a dry run. */
  lemma MoveStepFlag(w: World, dir: Path, dest: Mover, dryRun: bool, st: State, p: FilePath)
    ensures var r := MoveStep(w, dir, dest, dryRun, st, p);
      r.st.seenFirstFile == (st.seenFirstFile || dest(p) != p)
  {
  }

  /**
   What one iteration issues: nothing for a file in place or on a dry run;
   otherwise MkdirAll(dir) first if no file has moved before, then the rename
   (unless MkdirAll failed).
   */
  lemma MoveStepIssues(w: World, dir: Path, dest: Mover, dryRun: bool, st: State, p: FilePath)
    ensures var r := MoveStep(w, dir, dest, dryRun, st, p);
      var mkdir := if !st.seenFirstFile && dest(p) != p then [MkdirAll(dir)] else [];
      var move := if dest(p) != p then [Rename(p, dest(p))] else [];
      if dryRun then r.st.ops == st.ops
      else
        || r.st.ops == st.ops + mkdir + move
        || (r.Stopped? && r.error.MkdirFailed? && r.st.ops == st.ops + mkdir && mkdir != [])
  {
    var q := dest(p);
    if p != q && !dryRun {
      match Prepare(w, dir, dryRun, st)
      case Stopped(s, e) =>
      case Running(s) =>
        var r := TryRename(w, s, p, q);
        assert r.st.ops == s.ops + [Rename(p, q)];
    }
  }

  /** A file already in the target is skipped with the "old and new path match" line, and nothing else happens. */
  lemma MoveSamePathSkipped(w: World, dir: Path, dest: Mover, dryRun: bool, st: State, p: FilePath)
    requires dest(p) == p
    ensures MoveStep(w, dir, dest, dryRun, st, p) == Running(Say(st, SkippedSamePath(p)))
  {
  }

  /** One iteration stops only on a failed MkdirAll or a failed rename, and never on a dry run. */
  lemma MoveStepStops(w: World, dir: Path, dest: Mover, dryRun: bool, st: State, p: FilePath)
    ensures var r := MoveStep(w, dir, dest, dryRun, st, p);
      r.Stopped? ==> !dryRun && (r.error == MkdirFailed(dir, r.error.cause) || r.error.RenameFailed?)
  {
  }

  /** No line of log is about the target directory. */
  predicate NoMkdirLine(log: seq<Line>) {
    forall i :: 0 <= i < |log| ==> !log[i].SkippedMkdir?
  }

  lemma NoMkdirLineAppend(log: seq<Line>, l: Line)
    requires NoMkdirLine(log) && !l.SkippedMkdir?
    ensures NoMkdirLine(log + [l])
  {
    assert forall i :: 0 <= i < |log| ==> (log + [l])[i] == log[i];
  }

  /** The seenFirstFile block writes no line about a file. */
  lemma PrepareReportsNothing(w: World, dir: Path, dryRun: bool, st: State)
    ensures Reported(Prepare(w, dir, dryRun, st).st.log) == Reported(st.log)
  {
    if !st.seenFirstFile && dryRun {
      ReportedAppend(st.log, SkippedMkdir(dir));
    }
  }

  /**
   One iteration that carries on writes one line about p; on a dry run, the
   first file to move is preceded by the line about the target directory.
   */
  lemma MoveStepReports(w: World, dir: Path, dest: Mover, dryRun: bool, st: State, p: FilePath)
    ensures var r := MoveStep(w, dir, dest, dryRun, st, p);
      r.Running? ==> Reported(r.st.log) == Reported(st.log) + [p]
  {
    var q := dest(p);
    if p == q {
      ReportedAppend(st.log, SkippedSamePath(p));
    } else {
      var pre := Prepare(w, dir, dryRun, st);
      if pre.Running? {
        var s := pre.st;
        PrepareReportsNothing(w, dir, dryRun, st);
        var r := Transfer(w, dryRun, s, p, q);
        assert MoveStep(w, dir, dest, dryRun, st, p) == r;
        if r.Running? {
          var l := if dryRun then SkippedDryRun(p, q) else Renamed(p, q);
          assert r.st.log == s.log + [l];
          ReportedAppend(s.log, l);
        }
      }
    }
  }

  /** Only a dry run writes the line about the target directory. */
  lemma MoveStepNoMkdirLine(w: World, dir: Path, dest: Mover, st: State, p: FilePath)
    requires NoMkdirLine(st.log)
    ensures NoMkdirLine(MoveStep(w, dir, dest, false, st, p).st.log)
  {
    var q := dest(p);
    if p == q {
      NoMkdirLineAppend(st.log, SkippedSamePath(p));
    } else {
      var pre := Prepare(w, dir, false, st);
      assert pre.st.log == st.log;
      if pre.Running? {
        var r := Transfer(w, false, pre.st, p, q);
        if r.Running? {
          assert r.st.log == st.log + [Renamed(p, q)];
          NoMkdirLineAppend(st.log, Renamed(p, q));
        } else {
          assert r.st.log == st.log;
        }
      }
    }
  }

  /** Every step is honest after a successful history. */
  lemma MoveStepHonest(w: World, dir: Path, dest: Mover, dryRun: bool, st: State, p: FilePath)
    requires Succeeded(w, st.ops)
    ensures Honest(w, MoveStep(w, dir, dest, dryRun, st, p))
  {
    var q := dest(p);
    if p != q {
      var pre := Prepare(w, dir, dryRun, st);
      if !st.seenFirstFile && !dryRun {
        var s := st.(seenFirstFile := true);
        assert pre.st.ops == s.ops + [MkdirAll(dir)];
        assert pre.st.ops[..|pre.st.ops| - 1] == st.ops;
        if pre.Running? {
          SucceededAppend(w, st.ops, MkdirAll(dir));
        }
      }
      if pre.Running? && !dryRun {
        TryRenameHonest(w, pre.st, p, q);
      }
    }
  }

  /** The move loop reports the filesystem truthfully: see Executor.Honest. */
  lemma MoveHonest(w: World, dir: Path, dest: Mover, dryRun: bool, ps: seq<FilePath>)
    ensures Honest(w, Fold(MoveStepper(w, dir, dest, dryRun), Start, ps))
  {
    forall s: State, p | p in ps && Succeeded(w, s.ops)
      ensures Honest(w, MoveStepper(w, dir, dest, dryRun)(s, p))
    {
      MoveStepHonest(w, dir, dest, dryRun, s, p);
    }
    FoldHonest(w, MoveStepper(w, dir, dest, dryRun), Start, ps);
  }

  /**
   A move run that ends without error has written one line per selected file,
   about that file, in order, besides (on a dry run) the line about the target
   directory.
   */
  lemma MoveReportsEveryPath(w: World, dir: Path, dest: Mover, dryRun: bool, ps: seq<FilePath>)
    ensures var r := Fold(MoveStepper(w, dir, dest, dryRun), Start, ps);
      r.Running? ==> Reported(r.st.log) == ps
  {
    var step := MoveStepper(w, dir, dest, dryRun);
    forall s: State, p | p in ps && step(s, p).Running?
      ensures Reported(step(s, p).st.log) == Reported(s.log) + [p]
    {
      MoveStepReports(w, dir, dest, dryRun, s, p);
    }
    FoldReports(step, Reported, Start, ps);
  }

  /** A move run that is not a dry run never writes the line about the target directory. */
  lemma MoveAnnouncesNothing(w: World, dir: Path, dest: Mover, ps: seq<FilePath>)
    ensures NoMkdirLine(Fold(MoveStepper(w, dir, dest, false), Start, ps).st.log)
  {
    var step := MoveStepper(w, dir, dest, false);
    var inv := (s: State) => NoMkdirLine(s.log);
    forall s: State, p | p in ps && inv(s) ensures inv(step(s, p).st) {
      MoveStepNoMkdirLine(w, dir, dest, s, p);
    }
    FoldKeeps(step, inv, Start, ps);
  }

  /** How many lines of log announce a directory to be made. */
  function MkdirLines(log: seq<Line>): nat
    decreases |log|
  {
    if log == [] then 0
    else MkdirLines(log[..|log| - 1]) + (if log[|log| - 1].SkippedMkdir? then 1 else 0)
  }

  lemma MkdirLinesAppend(log: seq<Line>, l: Line)
    ensures MkdirLines(log + [l]) == MkdirLines(log) + (if l.SkippedMkdir? then 1 else 0)
  {
    assert (log + [l])[..|log|] == log;
  }

  /** Every line of log that announces a directory announces dir. */
  predicate AnnouncesOnly(dir: Path, log: seq<Line>) {
    forall i :: 0 <= i < |log| ==> log[i].SkippedMkdir? ==> log[i].dir == dir
  }

  lemma AnnouncesOnlyAppend(dir: Path, log: seq<Line>, l: Line)
    requires AnnouncesOnly(dir, log) && (l.SkippedMkdir? ==> l.dir == dir)
    ensures AnnouncesOnly(dir, log + [l])
  {
    assert forall i :: 0 <= i < |log| ==> (log + [l])[i] == log[i];
  }

  /** log announces dir once when due, not at all otherwise, and no other directory ever. */
  predicate AnnouncedOnce(dir: Path, due: bool, log: seq<Line>) {
    MkdirLines(log) == (if due then 1 else 0) && AnnouncesOnly(dir, log)
  }

  /** A dry-run iteration carries on; it announces dir once, before the first file that has to move, and nothing else. */
  lemma DryRunStepAnnounces(w: World, dir: Path, dest: Mover, st: State, p: FilePath)
    requires AnnouncesOnly(dir, st.log)
    ensures var r := MoveStep(w, dir, dest, true, st, p);
      && r.Running?
      && r.st.seenFirstFile == (st.seenFirstFile || dest(p) != p)
      && MkdirLines(r.st.log) == MkdirLines(st.log) + (if !st.seenFirstFile && dest(p) != p then 1 else 0)
      && AnnouncesOnly(dir, r.st.log)
  {
    var q := dest(p);
    if p == q {
      MkdirLinesAppend(st.log, SkippedSamePath(p));
      AnnouncesOnlyAppend(dir, st.log, SkippedSamePath(p));
    } else {
      var s := Prepare(w, dir, true, st).st;
      if !st.seenFirstFile {
        assert s.log == st.log + [SkippedMkdir(dir)];
        MkdirLinesAppend(st.log, SkippedMkdir(dir));
        AnnouncesOnlyAppend(dir, st.log, SkippedMkdir(dir));
      } else {
        assert s.log == st.log;
      }
      assert MoveStep(w, dir, dest, true, st, p) == Running(Say(s, SkippedDryRun(p, q)));
      MkdirLinesAppend(s.log, SkippedDryRun(p, q));
      AnnouncesOnlyAppend(dir, s.log, SkippedDryRun(p, q));
    }
  }

  /** A dry run from any state carries on to the end, and has seen a file that moves exactly when one had to. */
  lemma {:induction false} DryRunFlag(w: World, dir: Path, dest: Mover, st: State, ps: seq<FilePath>)
    ensures Fold(MoveStepper(w, dir, dest, true), st, ps).Running?
    ensures Fold(MoveStepper(w, dir, dest, true), st, ps).st.seenFirstFile == (st.seenFirstFile || MovePlan(dest, ps) != [])
    decreases |ps|
  {
    if ps != [] {
      var p := ps[0];
      assert MovePlan(dest, ps) == MoveDue(dest, p) + MovePlan(dest, ps[1..]);
      var s := MoveStep(w, dir, dest, true, st, p);
      assert s.Running? && s.st.seenFirstFile == (st.seenFirstFile || dest(p) != p) by {
        if p == dest(p) {
        } else {
          assert s == Transfer(w, true, Prepare(w, dir, true, st).st, p, dest(p));
        }
      }
      DryRunFlag(w, dir, dest, s.st, ps[1..]);
    }
  }

  /**
   A dry run carries on to the end and announces the target directory once
   if some file had to move, and not at all otherwise; it announces no other
   directory.
   */
  lemma DryRunAnnouncesOnce(w: World, dir: Path, dest: Mover, ps: seq<FilePath>)
    ensures var r := Fold(MoveStepper(w, dir, dest, true), Start, ps);
      && r.Running?
      && r.st.seenFirstFile == (MovePlan(dest, ps) != [])
      && AnnouncedOnce(dir, MovePlan(dest, ps) != [], r.st.log)
  {
    var step := MoveStepper(w, dir, dest, true);
    var inv := (s: State) => AnnouncedOnce(dir, s.seenFirstFile, s.log);
    forall s: State, p | p in ps && inv(s) ensures inv(step(s, p).st) {
      DryRunStepAnnounces(w, dir, dest, s, p);
    }
    FoldKeeps(step, inv, Start, ps);
    DryRunFlag(w, dir, dest, Start, ps);
  }

  /** A dry run issues no filesystem operation at all, not even MkdirAll, however it ends. */
  lemma DryRunMoveIssuesNothing(w: World, dir: Path, dest: Mover, ps: seq<FilePath>)
    ensures Fold(MoveStepper(w, dir, dest, true), Start, ps).st.ops == []
  {
    var inv := (s: State) => s.ops == [];
    forall s: State, p | p in ps && inv(s) ensures inv(MoveStepper(w, dir, dest, true)(s, p).st) {
      MoveStepIssues(w, dir, dest, true, s, p);
    }
    FoldKeeps(MoveStepper(w, dir, dest, true), inv, Start, ps);
  }

  /** The shape of the operations issued so far: at most one MkdirAll(dir), first, then planned moves only. */
  predicate MoveShaped(dir: Path, dest: Mover, ps: seq<FilePath>, dryRun: bool, s: State) {
    && (!s.seenFirstFile ==> s.ops == [])
    && (dryRun ==> s.ops == [])
    && (s.seenFirstFile && !dryRun ==> |s.ops| > 0)
    && (|s.ops| > 0 ==> s.ops[0] == MkdirAll(dir))
    && forall i :: 1 <= i < |s.ops| ==> PlannedMove(dest, ps, s.ops[i])
  }

  lemma MoveStepShaped(w: World, dir: Path, dest: Mover, dryRun: bool, ps: seq<FilePath>, st: State, p: FilePath)
    requires p in ps && MoveShaped(dir, dest, ps, dryRun, st)
    ensures MoveShaped(dir, dest, ps, dryRun, MoveStep(w, dir, dest, dryRun, st, p).st)
  {
    MoveStepFlag(w, dir, dest, dryRun, st, p);
    MoveStepIssues(w, dir, dest, dryRun, st, p);
    var r := MoveStep(w, dir, dest, dryRun, st, p);
    if !dryRun && dest(p) != p {
      if st.seenFirstFile {
        assert r.st.ops == st.ops || r.st.ops == st.ops + [Rename(p, dest(p))];
      } else {
        assert r.st.ops == [MkdirAll(dir)] || r.st.ops == [MkdirAll(dir), Rename(p, dest(p))];
      }
    }
  }

  /**
   However the move loop ends, it has issued at most one MkdirAll, of the
   target, before any rename, and every rename moves one of the selected
   files, not already in place, to its destination.
   */
  lemma MoveOpsShape(w: World, dir: Path, dest: Mover, dryRun: bool, ps: seq<FilePath>)
    ensures var ops := Fold(MoveStepper(w, dir, dest, dryRun), Start, ps).st.ops;
      && (|ops| > 0 ==> ops[0] == MkdirAll(dir))
      && forall i :: 1 <= i < |ops| ==> PlannedMove(dest, ps, ops[i])
  {
    var inv := (s: State) => MoveShaped(dir, dest, ps, dryRun, s);
    forall s: State, p | p in ps && inv(s) ensures inv(MoveStepper(w, dir, dest, dryRun)(s, p).st) {
      MoveStepShaped(w, dir, dest, dryRun, ps, s, p);
    }
    FoldKeeps(MoveStepper(w, dir, dest, dryRun), inv, Start, ps);
  }

  /** The move due for one file: none if it is already in place. */
  function MoveDue(dest: Mover, p: FilePath): seq<Op> {
    if dest(p) == p then [] else [Rename(p, dest(p))]
  }

  /** The moves due, in order: one rename per file not already in place. */
  function MovePlan(dest: Mover, ps: seq<FilePath>): seq<Op> {
    Collect((p: FilePath) => MoveDue(dest, p), ps)
  }

  /** The MkdirAll(dir) issued ahead of the moves due, when no file has moved before and some has to. */
  function FirstMkdir(dir: Path, seen: bool, due: seq<Op>): seq<Op> {
    if !seen && due != [] then [MkdirAll(dir)] else []
  }

  lemma {:induction false} MovePlanEmpty(dest: Mover, ps: seq<FilePath>)
    ensures MovePlan(dest, ps) == [] <==> forall p :: p in ps ==> dest(p) == p
    decreases |ps|
  {
    if ps != [] {
      var p := ps[0];
      var due := MoveDue(dest, p);
      assert MovePlan(dest, ps) == due + MovePlan(dest, ps[1..]);
      MovePlanEmpty(dest, ps[1..]);
      assert ps == [p] + ps[1..];
    }
  }

  /** An iteration that carries on issues its due move, preceded by MkdirAll(dir) when it is the first to move. */
  lemma MoveStepPlan(w: World, dir: Path, dest: Mover, st: State, p: FilePath)
    ensures var r := MoveStep(w, dir, dest, false, st, p);
      r.Running? ==>
        && r.st.seenFirstFile == (st.seenFirstFile || MoveDue(dest, p) != [])
        && r.st.ops == st.ops + FirstMkdir(dir, st.seenFirstFile, MoveDue(dest, p)) + MoveDue(dest, p)
  {
    MoveStepFlag(w, dir, dest, false, st, p);
    MoveStepIssues(w, dir, dest, false, st, p);
  }

  /** A step that carries on issues what is due for p, preceded by MkdirAll(dir) if it is the first with something due. */
  predicate IssuesDueAfterMkdir(step: Step, dir: Path, due: FilePath -> seq<Op>, s: State, p: FilePath) {
    step(s, p).Running? ==>
      && step(s, p).st.seenFirstFile == (s.seenFirstFile || due(p) != [])
      && step(s, p).st.ops == s.ops + FirstMkdir(dir, s.seenFirstFile, due(p)) + due(p)
  }

  /** One step followed by the rest of the run issues one MkdirAll at most, ahead of everything due. */
  lemma FirstMkdirAppend(ops: History, dir: Path, seen: bool, d: seq<Op>, rest: seq<Op>, mid: State, last: History)
    requires mid.seenFirstFile == (seen || d != [])
    requires mid.ops == ops + FirstMkdir(dir, seen, d) + d
    requires last == mid.ops + FirstMkdir(dir, mid.seenFirstFile, rest) + rest
    ensures last == ops + FirstMkdir(dir, seen, d + rest) + (d + rest)
  {
    if d == [] {
      assert d + rest == rest;
      assert mid.ops == ops;
    } else {
      assert FirstMkdir(dir, mid.seenFirstFile, rest) == [];
      assert FirstMkdir(dir, seen, d + rest) == FirstMkdir(dir, seen, d);
      assert ops + FirstMkdir(dir, seen, d) + d + rest == ops + FirstMkdir(dir, seen, d) + (d + rest);
    }
  }

  /**
   For any loop whose steps that carry on each issue the operations due for
   their path, preceded by MkdirAll(dir) for the first path with something due,
   a run that carries on to the end issues one MkdirAll(dir) if anything was
   due at all, then everything due, in order.
   */
  lemma {:induction false} FoldPlanFrom(step: Step, dir: Path, due: FilePath -> seq<Op>, st: State, ps: seq<FilePath>)
    requires forall s: State, p :: p in ps ==> IssuesDueAfterMkdir(step, dir, due, s, p)
    ensures var r := Fold(step, st, ps);
      var plan := Collect(due, ps);
      r.Running? ==> r.st.ops == st.ops + FirstMkdir(dir, st.seenFirstFile, plan) + plan
    decreases |ps|
  {
    if ps != [] {
      var p := ps[0];
      assert IssuesDueAfterMkdir(step, dir, due, st, p);
      match step(st, p)
      case Stopped(_, _) =>
      case Running(s) =>
        assert forall q :: q in ps[1..] ==> q in ps;
        FoldPlanFrom(step, dir, due, s, ps[1..]);
        var rest := Collect(due, ps[1..]);
        assert Collect(due, ps) == due(p) + rest;
        var r := Fold(step, s, ps[1..]);
        assert Fold(step, st, ps) == r;
        if r.Running? {
          FirstMkdirAppend(st.ops, dir, st.seenFirstFile, due(p), rest, s, r.st.ops);
        }
    }
  }

  /**
   A move run that carries on to the end, from any state, issues MkdirAll(dir)
   if no file has moved before and some file has to, then the due moves.
   */
  lemma MovePlanFrom(w: World, dir: Path, dest: Mover, st: State, ps: seq<FilePath>)
    ensures var r := Fold(MoveStepper(w, dir, dest, false), st, ps);
      var plan := MovePlan(dest, ps);
      r.Running? ==> r.st.ops == st.ops + FirstMkdir(dir, st.seenFirstFile, plan) + plan
  {
    var step := MoveStepper(w, dir, dest, false);
    var due := (p: FilePath) => MoveDue(dest, p);
    forall s: State, p | p in ps ensures IssuesDueAfterMkdir(step, dir, due, s, p) {
      MoveStepPlan(w, dir, dest, s, p);
    }
    FoldPlanFrom(step, dir, due, st, ps);
  }

  /**
   A move run that ends without error has issued exactly MkdirAll of the
   target, if and only if some file had to move, followed by the due renames
   in order.
   */
  lemma MovePlanOnSuccess(w: World, dir: Path, dest: Mover, ps: seq<FilePath>)
    ensures var r := Fold(MoveStepper(w, dir, dest, false), Start, ps);
      var plan := MovePlan(dest, ps);
      r.Running? ==> r.st.ops == (if plan == [] then [] else [MkdirAll(dir)]) + plan
  {
    MovePlanFrom(w, dir, dest, Start, ps);
  }

  /** When every file is already in place the loop carries on to the end and issues nothing, not even MkdirAll. */
  lemma {:induction false} AllInPlaceIssuesNothing(w: World, dir: Path, dest: Mover, dryRun: bool, st: State, ps: seq<FilePath>)
    requires forall p :: p in ps ==> dest(p) == p
    ensures Fold(MoveStepper(w, dir, dest, dryRun), st, ps).Running?
    ensures Fold(MoveStepper(w, dir, dest, dryRun), st, ps).st.ops == st.ops
    ensures Fold(MoveStepper(w, dir, dest, dryRun), st, ps).st.seenFirstFile == st.seenFirstFile
    decreases |ps|
  {
    if ps != [] {
      assert ps[0] in ps;
      assert forall p :: p in ps[1..] ==> p in ps;
      AllInPlaceIssuesNothing(w, dir, dest, dryRun, Say(st, SkippedSamePath(ps[0])), ps[1..]);
    }
  }
}
