/**
 getImageFilePaths after glob expansion: walk the expanded paths in order,
 keep the photos taken inside the time window, and give up on the first
 path that cannot be examined.
 */
module Selection {
  import opened Wrappers
  import opened Paths
  import opened Timestamps
  import opened Classifier
  import opened Oracle
  import opened Config
  import opened Seqs

  /** The fate of one expanded path in the selection loop. */
  datatype Verdict = Keep | Skip | Fail(error: Error)

  /** A path is selected when it is an image file whose taken-time lies inside the window. */
  predicate Passes(w: World, opts: Options, p: Path) {
    && w.stat([], p).Success?
    && IsImageFile(p, w.stat([], p).value)
    && PhotoTakenTime(w, [], p).Success?
    && InRange(PhotoTakenTime(w, [], p).value, opts.from, opts.to)
  }

  /** One iteration of the selection loop: stat, classify, extract, then the two bound checks. */
  function Examine(w: World, opts: Options, p: Path): (v: Verdict)
    ensures v.Fail? && v.error.TakenTimeFailed? ==>
      w.stat([], p).Success? && IsImageFile(p, w.stat([], p).value)
  {
    match w.stat([], p)
    case Failure(e) => Fail(StatFailed(p, e))
    case Success(kind) =>
      if !IsImageFile(p, kind) then Skip
      else
        match PhotoTakenTime(w, [], p)
        case Failure(e) => Fail(TakenTimeFailed(p, e))
        case Success(t) =>
          if opts.from.Some? && Before(t, opts.from.value) then Skip
          else if opts.to.Some? && After(t, opts.to.value) then Skip
          else Keep
  }

  /** The loop keeps a path exactly when it passes both the classifier and the time window. */
  lemma ExamineKeepsPassing(w: World, opts: Options, p: Path)
    ensures Examine(w, opts, p) == Keep <==> Passes(w, opts, p)
  {
  }

  /**
   The loop gives up on a path exactly when it cannot be stat-ed, or when it
   is an image whose taken-time cannot be read; each with its own error.
   */
  lemma ExamineFails(w: World, opts: Options, p: Path)
    ensures Examine(w, opts, p).Fail? <==>
      || w.stat([], p).Failure?
      || (IsImageFile(p, w.stat([], p).value) && PhotoTakenTime(w, [], p).Failure?)
    ensures w.stat([], p).Failure? ==> Examine(w, opts, p) == Fail(StatFailed(p, w.stat([], p).error))
    ensures w.stat([], p).Success? && IsImageFile(p, w.stat([], p).value) && PhotoTakenTime(w, [], p).Failure? ==>
      Examine(w, opts, p) == Fail(TakenTimeFailed(p, PhotoTakenTime(w, [], p).error))
  {
  }

  /** Only images are kept, so no kept path is the root. */
  lemma KeptIsNotRoot(w: World, opts: Options, p: Path)
    requires Examine(w, opts, p) == Keep
    ensures p != "/"
  {
    ImageHasExtension(p, w.stat([], p).value);
  }

  /** One loop iteration as a function value, so that the loop never unfolds it. */
  function Examiner(w: World, opts: Options): AbsPath -> Verdict {
    (p: AbsPath) => Examine(w, opts, p)
  }

  /** The keep test belonging to a verdict function. */
  function Keeps(examine: AbsPath -> Verdict): AbsPath -> bool {
    (p: AbsPath) => examine(p) == Keep
  }

  /** The selection test as a function value, so that one filter serves every use. */
  function Keeper(w: World, opts: Options): AbsPath -> bool {
    Keeps(Examiner(w, opts))
  }

  /** The paths the loop keeps when nothing fails, in input order. */
  function Kept(w: World, opts: Options, ps: seq<AbsPath>): (r: seq<FilePath>)
    ensures |r| <= |ps|
    ensures forall j :: 0 <= j < |r| ==> Passes(w, opts, r[j])
  {
    var f := Filter(ps, Keeper(w, opts));
    FilterKeeps(ps, Keeper(w, opts));
    assert forall j :: 0 <= j < |f| ==> f[j] != "/" && Passes(w, opts, f[j]) by {
      forall j | 0 <= j < |f| ensures f[j] != "/" && Passes(w, opts, f[j]) {
        KeptIsNotRoot(w, opts, f[j]);
        ExamineKeepsPassing(w, opts, f[j]);
      }
    }
    f
  }

  /**
   The selection is a filtered subsequence: exactly the passing inputs, in input
   order, witnessed by the strictly increasing positions they came from.
   */
  lemma KeptIsFilter(w: World, opts: Options, ps: seq<AbsPath>) returns (idx: seq<int>)
    ensures |idx| == |Kept(w, opts, ps)|
    ensures forall j :: 0 <= j < |idx| ==> 0 <= idx[j] < |ps| && Kept(w, opts, ps)[j] == ps[idx[j]]
    ensures forall j, k :: 0 <= j < k < |idx| ==> idx[j] < idx[k]
    ensures forall i :: 0 <= i < |ps| ==> (Passes(w, opts, ps[i]) <==> i in idx)
  {
    idx := FilterIsSubsequence(ps, Keeper(w, opts));
    forall p | p in ps {
      ExamineKeepsPassing(w, opts, p);
    }
  }

  /** Every selected path is an input path that passes, and every passing input path is selected. */
  lemma KeptMembership(w: World, opts: Options, ps: seq<AbsPath>, p: AbsPath)
    ensures p in Kept(w, opts, ps) <==> p in ps && Passes(w, opts, p)
  {
    FilterMembership(ps, Keeper(w, opts), p);
    ExamineKeepsPassing(w, opts, p);
  }

  /** No path among ps[..n] fails. */
  predicate NoFailureBefore(examine: AbsPath -> Verdict, ps: seq<AbsPath>, n: int)
    requires 0 <= n <= |ps|
  {
    forall j :: 0 <= j < n ==> !examine(ps[j]).Fail?
  }

  /**
   The selection loop for any verdict function: the kept paths in order, or
   the error of the first failing path, and then nothing kept at all.
   */
  method Scan(examine: AbsPath -> Verdict, paths: seq<AbsPath>)
    returns (r: Result<seq<AbsPath>, Error>)
    ensures r.Success? <==> NoFailureBefore(examine, paths, |paths|)
    ensures r.Success? ==> r.value == Filter(paths, Keeps(examine))
    ensures r.Failure? ==> exists k :: 0 <= k < |paths| && NoFailureBefore(examine, paths, k)
                                     && examine(paths[k]) == Fail(r.error)
  {
    var selected: seq<AbsPath> := [];
    var keep := Keeps(examine);
    var i := 0;
    while i < |paths|
      invariant 0 <= i <= |paths|
      invariant NoFailureBefore(examine, paths, i)
      invariant selected == Filter(paths[..i], keep)
    {
      var path := paths[i];
      assert paths[..i + 1][..i] == paths[..i];
      var verdict := examine(path);
      if verdict.Fail? {
        return Failure(verdict.error);
      }
      if verdict == Keep {
        selected := selected + [path];
      }
      i := i + 1;
    }
    assert paths[..i] == paths;
    return Success(selected);
  }

  /** Every expanded path could be examined. */
  predicate AllExamined(w: World, opts: Options, paths: seq<AbsPath>) {
    forall j :: 0 <= j < |paths| ==> !Examine(w, opts, paths[j]).Fail?
  }

  /** e is the error of the first expanded path that could not be examined. */
  ghost predicate FailsFirstWith(w: World, opts: Options, paths: seq<AbsPath>, e: Error) {
    exists k :: 0 <= k < |paths|
      && (forall j :: 0 <= j < k ==> !Examine(w, opts, paths[j]).Fail?)
      && Examine(w, opts, paths[k]) == Fail(e)
  }

  /**
   getImageFilePaths on already expanded absolute paths: the passing paths in
   order, or the error of the first path that could not be stat-ed or whose
   taken-time could not be read, and then no paths at all.
   */
  method GetImageFilePaths(w: World, opts: Options, paths: seq<AbsPath>)
    returns (r: Result<seq<FilePath>, Error>)
    ensures r.Success? <==> AllExamined(w, opts, paths)
    ensures r.Success? ==> r.value == Kept(w, opts, paths)
    ensures r.Failure? ==> FailsFirstWith(w, opts, paths, r.error)
  {
    var s := Scan(Examiner(w, opts), paths);
    if s.Failure? {
      return Failure(s.error);
    }
    var kept: seq<FilePath> := Kept(w, opts, paths);
    assert s.value == kept;
    return Success(s.value);
  }
}
