/**
 The shape the rename and move handlers share: walk the selected paths in
 order, let each one log a line and perhaps issue a filesystem operation, and
 return at once on the first error.
 */
module Executor {
  import opened Wrappers
  import opened Paths
  import opened Oracle
  import opened Config

  /** One line a handler writes to standard output. */
  datatype Line =
    | Listed(path: Path)                  // handleQuery: a selected path
    | SkippedSamePath(path: Path)         // "skipping: <path> (old and new path match)"
    | SkippedDryRun(src: Path, dst: Path) // "skipping: <src> -> <dst> (dry run)"
    | SkippedMkdir(dir: Path)             // "skipping: make directory(s) <dir> (dry run)"
    | Renamed(src: Path, dst: Path)       // "<src> -> <dst>", after a successful rename

  /** The path a line is about. */
  function Subject(l: Line): Path {
    match l
    case Listed(p) => p
    case SkippedSamePath(p) => p
    case SkippedDryRun(src, _) => src
    case SkippedMkdir(dir) => dir
    case Renamed(src, _) => src
  }

  /** What a handler has done so far: operations issued, lines written, and handleMove's seenFirstFile flag. */
  datatype State = State(ops: History, log: seq<Line>, seenFirstFile: bool)

  /** Nothing issued, nothing written. */
  const Start: State := State([], [], false)

  /** A handler either carries on or has returned an error. */
  datatype Run = Running(st: State) | Stopped(st: State, error: Error)

  /** One iteration of a handler loop. */
  type Step = (State, FilePath) -> Run

  /** The handler loop: apply step to each path in order, returning on the first error. */
  function Fold(step: Step, st: State, ps: seq<FilePath>): Run
    decreases |ps|
  {
    if ps == [] then Running(st)
    else
      match step(st, ps[0])
      case Stopped(s, e) => Stopped(s, e)
      case Running(s) => Fold(step, s, ps[1..])
  }

  /** Log a line. */
  function Say(st: State, l: Line): State {
    st.(log := st.log + [l])
  }

  /** os.Rename(src, dst): recorded whatever its outcome; on success the rename message is printed. */
  function TryRename(w: World, st: State, src: Path, dst: Path): (r: Run)
    ensures r.st.ops == st.ops + [Rename(src, dst)]
    ensures r.Stopped? <==> w.perform(st.ops, Rename(src, dst)).Some?
    ensures r.Stopped? ==> r.error == RenameFailed(src, dst, w.perform(st.ops, Rename(src, dst)).value)
    ensures r.Running? ==> r.st.log == st.log + [Renamed(src, dst)]
    ensures r.st.seenFirstFile == st.seenFirstFile
  {
    var done := st.(ops := st.ops + [Rename(src, dst)]);
    match w.perform(st.ops, Rename(src, dst))
    case Some(e) => Stopped(done, RenameFailed(src, dst, e))
    case None => Running(Say(done, Renamed(src, dst)))
  }

  /** The tail both handlers share: on a dry run report the rename, otherwise perform it. */
  function Transfer(w: World, dryRun: bool, st: State, src: Path, dst: Path): (r: Run)
    ensures dryRun ==> r.Running? && r.st.ops == st.ops
    ensures !dryRun ==> r.st.ops == st.ops + [Rename(src, dst)]
    ensures r.Stopped? ==> !dryRun && r.error.RenameFailed? && r.error.src == src && r.error.dst == dst
    ensures r.Running? ==> r.st.log == st.log + [if dryRun then SkippedDryRun(src, dst) else Renamed(src, dst)]
    ensures r.st.seenFirstFile == st.seenFirstFile
  {
    if dryRun then Running(Say(st, SkippedDryRun(src, dst)))
    else TryRename(w, st, src, dst)
  }

  /** The loop over a concatenation runs the first part, then (unless it stopped) the second from where it left off. */
  lemma {:induction false} FoldAppend(step: Step, st: State, xs: seq<FilePath>, ys: seq<FilePath>)
    ensures Fold(step, st, xs + ys) ==
      match Fold(step, st, xs)
      case Stopped(s, e) => Stopped(s, e)
      case Running(s) => Fold(step, s, ys)
    decreases |xs|
  {
    if xs == [] {
      assert xs + ys == ys;
    } else {
      assert (xs + ys)[0] == xs[0];
      assert (xs + ys)[1..] == xs[1..] + ys;
      match step(st, xs[0])
      case Stopped(s, e) =>
      case Running(s) => FoldAppend(step, s, xs[1..], ys);
    }
  }

  /**
   Fail fast: a stopped loop stopped at some path k, every path before it
   having carried on; the result is that path's error, and the loop over the
   paths up to k alone ends the same way.
   */
  lemma {:induction false} StopsAtFirstFailure(step: Step, st: State, ps: seq<FilePath>) returns (k: int)
    requires Fold(step, st, ps).Stopped?
    ensures 0 <= k < |ps|
    ensures Fold(step, st, ps[..k]).Running?
    ensures step(Fold(step, st, ps[..k]).st, ps[k]) == Fold(step, st, ps)
    ensures Fold(step, st, ps[..k + 1]) == Fold(step, st, ps)
    decreases |ps|
  {
    assert ps != [];
    match step(st, ps[0])
    case Stopped(s, e) =>
      k := 0;
      assert ps[..0] == [];
      assert ps[..1][0] == ps[0];
    case Running(s) =>
      var j := StopsAtFirstFailure(step, s, ps[1..]);
      k := j + 1;
      assert ps[..k] == [ps[0]] + ps[1..][..j];
      FoldAppend(step, st, [ps[0]], ps[1..][..j]);
      assert Fold(step, st, [ps[0]]) == Fold(step, s, []);
      assert ps[k] == ps[1..][j];
      assert ps[..k + 1] == [ps[0]] + ps[1..][..j + 1];
      FoldAppend(step, st, [ps[0]], ps[1..][..j + 1]);
  }

  /** A property of states that every step keeps, for the paths at hand, holds of the state the loop ends in. */
  lemma {:induction false} FoldKeeps(step: Step, inv: State -> bool, st: State, ps: seq<FilePath>)
    requires inv(st)
    requires forall s: State, p :: p in ps && inv(s) ==> inv(step(s, p).st)
    ensures inv(Fold(step, st, ps).st)
    decreases |ps|
  {
    if ps != [] {
      assert ps[0] in ps;
      match step(st, ps[0])
      case Stopped(s, e) =>
      case Running(s) =>
        assert forall p :: p in ps[1..] ==> p in ps;
        FoldKeeps(step, inv, s, ps[1..]);
    }
  }

  /** The operation an error reports as failed, with the OS's cause. */
  function FailedOp(e: Error): Option<(Op, OsError)> {
    match e
    case MkdirFailed(dir, cause) => Some((MkdirAll(dir), cause))
    case RenameFailed(src, dst, cause) => Some((Rename(src, dst), cause))
    case _ => None
  }

  /**
   A run tells the truth about the filesystem: every operation it issued
   succeeded, except that a run that stopped on a failed operation issued that
   operation last, and it is the one the error names, with the OS's own cause.
   */
  predicate Honest(w: World, r: Run) {
    match r
    case Running(s) => Succeeded(w, s.ops)
    case Stopped(s, e) =>
      match FailedOp(e)
      case None => Succeeded(w, s.ops)
      case Some(fc) =>
        && |s.ops| > 0
        && Succeeded(w, s.ops[..|s.ops| - 1])
        && s.ops[|s.ops| - 1] == fc.0
        && w.perform(s.ops[..|s.ops| - 1], fc.0) == Some(fc.1)
  }

  /** A successful operation extends a successful history. */
  lemma SucceededAppend(w: World, ops: History, op: Op)
    requires Succeeded(w, ops) && w.perform(ops, op).None?
    ensures Succeeded(w, ops + [op])
  {
    assert (ops + [op])[..|ops|] == ops;
    forall i | 0 <= i < |ops| ensures (ops + [op])[..i] == ops[..i] {
    }
  }

  /** A rename attempted after a successful history leaves an honest run. */
  lemma TryRenameHonest(w: World, st: State, src: Path, dst: Path)
    requires Succeeded(w, st.ops)
    ensures Honest(w, TryRename(w, st, src, dst))
  {
    var r := TryRename(w, st, src, dst);
    assert r.st.ops[..|r.st.ops| - 1] == st.ops;
    if r.Running? {
      SucceededAppend(w, st.ops, Rename(src, dst));
    }
  }

  /** If every step is honest after a successful history, so is the whole loop. */
  lemma {:induction false} FoldHonest(w: World, step: Step, st: State, ps: seq<FilePath>)
    requires Succeeded(w, st.ops)
    requires forall s: State, p :: p in ps && Succeeded(w, s.ops) ==> Honest(w, step(s, p))
    ensures Honest(w, Fold(step, st, ps))
    decreases |ps|
  {
    if ps != [] {
      assert ps[0] in ps;
      match step(st, ps[0])
      case Stopped(s, e) =>
      case Running(s) =>
        assert forall p :: p in ps[1..] ==> p in ps;
        FoldHonest(w, step, s, ps[1..]);
    }
  }

  /** The paths a log is about, line by line. */
  function Subjects(log: seq<Line>): seq<Path>
    decreases |log|
  {
    if log == [] then [] else Subjects(log[..|log| - 1]) + [Subject(log[|log| - 1])]
  }

  lemma SubjectsAppend(log: seq<Line>, l: Line)
    ensures Subjects(log + [l]) == Subjects(log) + [Subject(l)]
  {
    assert (log + [l])[..|log|] == log;
  }

  /** The paths the lines are about, leaving out the lines about the target directory. */
  function Reported(log: seq<Line>): seq<Path>
    decreases |log|
  {
    if log == [] then []
    else
      var l := log[|log| - 1];
      Reported(log[..|log| - 1]) + (if l.SkippedMkdir? then [] else [Subject(l)])
  }

  lemma ReportedAppend(log: seq<Line>, l: Line)
    ensures Reported(log + [l]) == Reported(log) + (if l.SkippedMkdir? then [] else [Subject(l)])
  {
    assert (log + [l])[..|log|] == log;
  }

  /**
   When each step that carries on reports its own path, as seen through view,
   a loop that carries on to the end has reported every path, in order.
   */
  lemma {:induction false} FoldReports(step: Step, view: seq<Line> -> seq<Path>, st: State, ps: seq<FilePath>)
    requires forall s: State, p :: p in ps && step(s, p).Running? ==> view(step(s, p).st.log) == view(s.log) + [p]
    ensures Fold(step, st, ps).Running? ==> view(Fold(step, st, ps).st.log) == view(st.log) + ps
    decreases |ps|
  {
    if ps != [] {
      assert ps[0] in ps;
      match step(st, ps[0])
      case Stopped(_, _) =>
      case Running(s) =>
        assert forall p :: p in ps[1..] ==> p in ps;
        FoldReports(step, view, s, ps[1..]);
        assert view(st.log) + [ps[0]] + ps[1..] == view(st.log) + ps;
    }
  }

  /** The operations due for each path, concatenated in path order. */
  function Collect(due: FilePath -> seq<Op>, ps: seq<FilePath>): seq<Op>
    decreases |ps|
  {
    if ps == [] then [] else due(ps[0]) + Collect(due, ps[1..])
  }

  /** When each step that carries on issues exactly the operations due for its path, so does the loop. */
  lemma {:induction false} FoldIssues(step: Step, due: FilePath -> seq<Op>, st: State, ps: seq<FilePath>)
    requires forall s: State, p :: p in ps && step(s, p).Running? ==> step(s, p).st.ops == s.ops + due(p)
    ensures Fold(step, st, ps).Running? ==> Fold(step, st, ps).st.ops == st.ops + Collect(due, ps)
    decreases |ps|
  {
    if ps != [] {
      assert ps[0] in ps;
      match step(st, ps[0])
      case Stopped(_, _) =>
      case Running(s) =>
        assert forall p :: p in ps[1..] ==> p in ps;
        assert s.ops == st.ops + due(ps[0]);
        FoldIssues(step, due, s, ps[1..]);
        assert Collect(due, ps) == due(ps[0]) + Collect(due, ps[1..]);
        assert s.ops + Collect(due, ps[1..]) == st.ops + Collect(due, ps);
    }
  }
}
