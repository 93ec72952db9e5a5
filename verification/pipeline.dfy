/** `generate_video` (app.py:133-179) as a whole: the outline is requested,
    the chapters are processed one after the other, each appending at most
    one clip path to `video_files`, and the clips are assembled. An
    exception from an agent call is not caught anywhere in the function
    and ends the run; everything else a chapter can go through is caught
    and only skips that chapter.

    `ProcessChapters` and `Run` state the run in closed form; the method
    `GenerateVideo` is the `for` loop of the source, proved to reach the
    same result. */
module Pipeline {
  import opened Results
  import opened Seqs
  import opened Services
  import Render
  import opened Retry
  import opened Assembly

  /** What `generate_video` ends in: the final video's path, `None`, or an
      exception that escapes it. */
  datatype RunResult = Produced(path: string) | NothingProduced | Raised(reason: string)

  /** The state after some chapters: `video_files`, how each finished
      chapter ended, every render attempt so far, the tracked paths, and
      the exception that ended the run early, if any. */
  datatype Progress = Progress(
    videoFiles: seq<string>,
    results: seq<Status>,
    attempts: seq<Attempt>,
    files: set<string>,
    crash: Option<string>)

  /** A whole run: its result, the state the chapters left behind and the
      clips handed to concatenation. */
  datatype RunTrace = RunTrace(
    result: RunResult,
    videoFiles: seq<string>,
    results: seq<Status>,
    attempts: seq<Attempt>,
    files: set<string>,
    concatenated: seq<string>)

  /** How chapter `i` ends; by `StatusIgnoresFiles` it does not depend on
      the tracked set of temporary files. */
  function ChapterStatus(o: Oracles, i: nat, ch: Chapter): Status {
    ChapterSpec(o, i, ch, {}).status
  }

  /** How each of the first `n` chapters ends on its own, in chapter order. */
  function Statuses(o: Oracles, chapters: seq<Chapter>, n: nat): (r: seq<Status>)
    requires n <= |chapters|
    ensures |r| == n
    decreases n
  {
    if n == 0 then [] else Statuses(o, chapters, n - 1) + [ChapterStatus(o, n - 1, chapters[n - 1])]
  }

  /** The `k`-th entry of `Statuses` is how chapter `k` ends. */
  lemma {:induction false} StatusesAt(o: Oracles, chapters: seq<Chapter>, n: nat, k: nat)
    requires k < n <= |chapters|
    ensures Statuses(o, chapters, n)[k] == ChapterStatus(o, k, chapters[k])
    decreases n
  {
    if k < n - 1 {
      StatusesAt(o, chapters, n - 1, k);
    }
  }

  /** The clip paths of the chapters that succeeded, in chapter order. */
  function RenderedPaths(results: seq<Status>): (r: seq<string>)
    ensures |r| <= |results|
    ensures forall k :: 0 <= k < |r| ==> exists j :: 0 <= j < |results| && results[j] == Succeeded(r[k])
    ensures forall j :: 0 <= j < |results| && results[j].Succeeded? ==> results[j].path in r
    decreases |results|
  {
    if |results| == 0 then []
    else
      var prefix := results[..|results| - 1];
      var rest := RenderedPaths(prefix);
      assert forall j :: 0 <= j < |prefix| ==> prefix[j] == results[j];
      match results[|results| - 1]
      case Succeeded(p) => rest + [p]
      case _ => rest
  }

  /** Chapters are collected independently and in order: the paths of a
      concatenation of chapter results are those of the parts, one after
      the other, so no chapter's clip is moved past another's. */
  lemma {:induction false} RenderedPathsConcat(a: seq<Status>, b: seq<Status>)
    ensures RenderedPaths(a + b) == RenderedPaths(a) + RenderedPaths(b)
    decreases |b|
  {
    if |b| == 0 {
      assert a + b == a;
    } else {
      var b' := b[..|b| - 1];
      assert (a + b)[..|a + b| - 1] == a + b';
      RenderedPathsConcat(a, b');
    }
  }

  /** If every chapter was skipped there is no clip to assemble. */
  lemma {:induction false} AllSkippedNoPaths(results: seq<Status>)
    requires forall k :: 0 <= k < |results| ==> results[k].Skipped?
    ensures RenderedPaths(results) == []
    decreases |results|
  {
    if |results| > 0 {
      AllSkippedNoPaths(results[..|results| - 1]);
    }
  }

  /** Chapters A, B, C where B fails: the clips are A's then C's. */
  lemma MiddleChapterSkipped(a: string, e: Render.RenderError, c: string)
    ensures RenderedPaths([Succeeded(a), Skipped(e), Succeeded(c)]) == [a, c]
  {
    var rs := [Succeeded(a), Skipped(e), Succeeded(c)];
    assert rs[..2][..1] == [Succeeded(a)];
    assert rs[..2] == [Succeeded(a), Skipped(e)];
    assert RenderedPaths([Succeeded(a)]) == [a] by {
      assert [Succeeded(a)][..0] == [];
    }
  }

  /** One more iteration of the `for` loop: chapter `i` is processed after
      the state `prev`, in which no exception has escaped yet. */
  function Advance(o: Oracles, i: nat, ch: Chapter, prev: Progress): Progress {
    Record(prev, ChapterSpec(o, i, ch, prev.files))
  }

  /** The loop body's bookkeeping after one chapter ended as `run`. */
  function Record(prev: Progress, run: ChapterRun): Progress {
    var attempts := prev.attempts + run.attempts;
    match run.status
    case Aborted(reason) => Progress(prev.videoFiles, prev.results, attempts, run.files, Some(reason))
    case Succeeded(path) => Progress(prev.videoFiles + [path], prev.results + [run.status], attempts, run.files, None)
    case Skipped(_) => Progress(prev.videoFiles, prev.results + [run.status], attempts, run.files, None)
  }

  /** The first `n` chapters of the `for` loop (app.py:137-158), started
      with the paths `files` existing. */
  function ProcessChapters(o: Oracles, chapters: seq<Chapter>, n: nat, files: set<string>): (p: Progress)
    requires n <= |chapters|
    ensures |p.results| <= n
    decreases n
  {
    if n == 0 then Progress([], [], [], files, None)
    else
      var prev := ProcessChapters(o, chapters, n - 1, files);
      if prev.crash.Some? then prev else Advance(o, n - 1, chapters[n - 1], prev)
  }

  /** What the state after the first `n` chapters, started with `files`,
      says about them: one result per finished chapter, equal to how that
      chapter ends on its own; an early stop is at the first chapter whose
      agent call raised; `video_files` holds the succeeded chapters' paths
      in order; no path appeared in the tracked set and no temporary file used
      so far is in it. */
  ghost predicate Consistent(o: Oracles, chapters: seq<Chapter>, n: nat, files: set<string>, p: Progress)
    requires n <= |chapters|
  {
    && |p.results| <= n
    && (p.crash.None? ==> |p.results| == n)
    && (p.crash.Some? ==> |p.results| < n && ChapterStatus(o, |p.results|, chapters[|p.results|]) == Aborted(p.crash.value))
    && p.results == Statuses(o, chapters, |p.results|)
    && (forall k :: 0 <= k < |p.results| ==> !p.results[k].Aborted?)
    && p.videoFiles == RenderedPaths(p.results)
    && p.files <= files
    && (forall k :: 0 <= k < |p.attempts| ==> p.attempts[k].tmp !in p.files)
  }

  /** One iteration keeps the state consistent with the chapters processed. */
  lemma AdvanceKeepsConsistent(o: Oracles, chapters: seq<Chapter>, n: nat, files: set<string>, prev: Progress)
    requires n < |chapters| && prev.crash.None?
    requires Consistent(o, chapters, n, files, prev)
    ensures Consistent(o, chapters, n + 1, files, Advance(o, n, chapters[n], prev))
  {
    var run := ChapterSpec(o, n, chapters[n], prev.files);
    StatusIgnoresFiles(o, n, chapters[n], prev.files, {});
    ChapterRemovesOnlyItsTemps(o, n, chapters[n], prev.files);
    TempsOfContains(run.attempts);
    var results := prev.results + [run.status];
    assert results[..|results| - 1] == prev.results;
  }

  /** The loop keeps its state consistent with the chapters processed. */
  lemma {:induction false} ProcessChaptersSpec(o: Oracles, chapters: seq<Chapter>, n: nat, files: set<string>)
    requires n <= |chapters|
    ensures Consistent(o, chapters, n, files, ProcessChapters(o, chapters, n, files))
    decreases n
  {
    if n > 0 {
      ProcessChaptersSpec(o, chapters, n - 1, files);
      var prev := ProcessChapters(o, chapters, n - 1, files);
      if prev.crash.None? {
        AdvanceKeepsConsistent(o, chapters, n - 1, files, prev);
      }
    }
  }

  /** `video_files` gets at most one path per chapter. */
  lemma AtMostOneClipPerChapter(o: Oracles, chapters: seq<Chapter>, files: set<string>)
    ensures |ProcessChapters(o, chapters, |chapters|, files).videoFiles| <= |chapters|
  {
    ProcessChaptersSpec(o, chapters, |chapters|, files);
  }

  /** Once an exception has ended the run, later chapters change nothing. */
  lemma {:induction false} CrashIsFinal(o: Oracles, chapters: seq<Chapter>, n: nat, m: nat, files: set<string>)
    requires n <= m <= |chapters|
    requires ProcessChapters(o, chapters, n, files).crash.Some?
    ensures ProcessChapters(o, chapters, m, files) == ProcessChapters(o, chapters, n, files)
    decreases m - n
  {
    if n < m {
      CrashIsFinal(o, chapters, n, m - 1, files);
      var prev := ProcessChapters(o, chapters, m - 1, files);
      assert prev.crash.Some?;
      assert ProcessChapters(o, chapters, m, files) == prev;
    }
  }

  /** One pass of the loop body extends the closed form by one chapter. */
  lemma NextChapter(o: Oracles, chapters: seq<Chapter>, k: nat, files: set<string>, prev: Progress, run: ChapterRun)
    requires k < |chapters|
    requires prev == ProcessChapters(o, chapters, k, files) && prev.crash.None?
    requires run == ChapterSpec(o, k, chapters[k], prev.files)
    ensures ProcessChapters(o, chapters, k + 1, files) == Record(prev, run)
  {
  }

  /** `generate_video(concept)` in closed form. */
  function Run(concept: string, o: Oracles, files: set<string>): (r: RunTrace)
    ensures o.outline(concept).Failure? ==> r.result == Raised(o.outline(concept).error)
    ensures r.result.Produced? ==> r.result.path == FinalVideo
    ensures r.result.Produced? ==> r.concatenated == Filter(r.videoFiles, o.media.onDisk) && r.concatenated != []
  {
    match o.outline(concept)
    case Failure(reason) => RunTrace(Raised(reason), [], [], [], files, [])
    case Success(outline) =>
      var chapters := outline.chapters;
      var p := ProcessChapters(o, chapters, |chapters|, files);
      if p.crash.Some? then
        RunTrace(Raised(p.crash.value), p.videoFiles, p.results, p.attempts, p.files, [])
      else
        var assembled := Assemble(p.videoFiles, o.media);
        var result := if assembled.result.Some? then Produced(assembled.result.value) else NothingProduced;
        RunTrace(result, p.videoFiles, p.results, p.attempts, p.files, assembled.concatenated)
  }

  /** What a run with an outline does with its chapters: it raises exactly
      when some chapter's agent call raises; otherwise every chapter has a
      result, and each result is how that chapter ends on its own;
      `video_files` is the succeeded chapters' paths in chapter order, at
      most one per chapter. */
  lemma RunChapters(concept: string, o: Oracles, files: set<string>)
    requires o.outline(concept).Success?
    ensures var chapters, r := o.outline(concept).value.chapters, Run(concept, o, files);
      && |r.results| <= |chapters|
      && (!r.result.Raised? ==> |r.results| == |chapters|)
      && (forall k :: 0 <= k < |r.results| ==> r.results[k] == ChapterStatus(o, k, chapters[k]))
      && (r.result.Raised? <==> exists k :: 0 <= k < |chapters| && ChapterStatus(o, k, chapters[k]).Aborted?)
      && r.videoFiles == RenderedPaths(r.results)
      && |r.videoFiles| <= |chapters|
  {
    var chapters, r := o.outline(concept).value.chapters, Run(concept, o, files);
    ProcessChaptersSpec(o, chapters, |chapters|, files);
    forall k | 0 <= k < |r.results|
      ensures r.results[k] == ChapterStatus(o, k, chapters[k])
    {
      StatusesAt(o, chapters, |r.results|, k);
    }
    if r.result.Raised? {
      assert ChapterStatus(o, |r.results|, chapters[|r.results|]).Aborted?;
    } else {
      forall k | 0 <= k < |chapters|
        ensures !ChapterStatus(o, k, chapters[k]).Aborted?
      {
        assert !r.results[k].Aborted?;
      }
    }
  }

  /** No temporary file survives a run, and no path appears. */
  lemma RunCleansUp(concept: string, o: Oracles, files: set<string>)
    ensures var r := Run(concept, o, files);
      && r.files <= files
      && (forall k :: 0 <= k < |r.attempts| ==> r.attempts[k].tmp !in r.files)
  {
    if o.outline(concept).Success? {
      var chapters := o.outline(concept).value.chapters;
      ProcessChaptersSpec(o, chapters, |chapters|, files);
    }
  }

  /** With an outline and no agent exception, the run produces the final
      video exactly when some collected clip still exists and every such
      clip opens and the combined video is written; otherwise it returns
      `None`. */
  lemma RunProducedIff(concept: string, o: Oracles, files: set<string>)
    requires o.outline(concept).Success?
    requires var chapters := o.outline(concept).value.chapters;
      forall k :: 0 <= k < |chapters| ==> !ChapterStatus(o, k, chapters[k]).Aborted?
    ensures var r := Run(concept, o, files);
      && !r.result.Raised?
      && (r.result.Produced? <==>
            && |Filter(r.videoFiles, o.media.onDisk)| > 0
            && AllOpen(Filter(r.videoFiles, o.media.onDisk), o.media)
            && o.media.writes(Filter(r.videoFiles, o.media.onDisk)))
  {
    RunChapters(concept, o, files);
  }

  /** When every chapter is skipped, nothing is concatenated and the run
      returns `None` rather than failing in assembly. */
  lemma AllSkippedNothingProduced(concept: string, o: Oracles, files: set<string>)
    requires o.outline(concept).Success?
    requires var chapters := o.outline(concept).value.chapters;
      forall k :: 0 <= k < |chapters| ==> ChapterStatus(o, k, chapters[k]).Skipped?
    ensures Run(concept, o, files).result == NothingProduced
    ensures Run(concept, o, files).videoFiles == []
    ensures Run(concept, o, files).concatenated == []
  {
    var r := Run(concept, o, files);
    RunChapters(concept, o, files);
    assert !r.result.Raised?;
    AllSkippedNoPaths(r.results);
  }

  /** The `for` loop of `generate_video` (app.py:133-179). */
  method GenerateVideo(concept: string, o: Oracles, files: set<string>) returns (r: RunTrace)
    ensures r == Run(concept, o, files)
  {
    var outlined := o.outline(concept);
    if outlined.Failure? {
      return RunTrace(Raised(outlined.error), [], [], [], files, []);
    }
    var chapters := outlined.value.chapters;
    var videoFiles: seq<string> := [];
    var results: seq<Status> := [];
    var attempts: seq<Attempt> := [];
    var fs := files;
    for k := 0 to |chapters|
      invariant Progress(videoFiles, results, attempts, fs, None) == ProcessChapters(o, chapters, k, files)
    {
      var run := RunChapter(o, k, chapters[k], fs);
      NextChapter(o, chapters, k, files, Progress(videoFiles, results, attempts, fs, None), run);
      attempts := attempts + run.attempts;
      fs := run.files;
      match run.status {
        case Aborted(reason) =>
          CrashIsFinal(o, chapters, k + 1, |chapters|, files);
          return RunTrace(Raised(reason), videoFiles, results, attempts, fs, []);
        case Succeeded(path) =>
          videoFiles := videoFiles + [path];
          results := results + [run.status];
        case Skipped(_) =>
          results := results + [run.status];
      }
    }
    var assembled := Assemble(videoFiles, o.media);
    var result := if assembled.result.Some? then Produced(assembled.result.value) else NothingProduced;
    r := RunTrace(result, videoFiles, results, attempts, fs, assembled.concatenated);
  }
}
