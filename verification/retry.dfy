/** The per-chapter part of `generate_video` (app.py): generate the scene
    code, render it, and on the first failure ask the fixer for a
    replacement and render that once more. At most two renders and one
    fix happen per chapter.

    `ChapterSpec` states the outcome of one chapter in closed form;
    `RunChapter` is the `while attempts < 2 and not success` loop of the
    source, proved to reach the same outcome. */
module Retry {
  import opened Results
  import SceneName
  import Render
  import opened Services

  /** The bound on render attempts per chapter (`while attempts < 2`). */
  const MaxAttempts: nat := 2

  /** One attempt of the `try` block: a clip path that exists, or the
      exception caught by `except Exception`. */
  datatype RenderOutcome = Rendered(path: string) | Failed(error: Render.RenderError)

  /** The code rendered in one attempt, the temporary file it used, and how it ended. */
  datatype Attempt = Attempt(code: string, tmp: string, outcome: RenderOutcome)

  /** An attempt together with the tracked set of paths after it. */
  datatype Step = Step(attempt: Attempt, files: set<string>)

  /** How a chapter ends: its clip is appended, it is skipped after its
      attempts, or an agent call raised and ended the whole run. */
  datatype Status = Succeeded(path: string) | Skipped(error: Render.RenderError) | Aborted(reason: string)

  /** The attempts of one chapter, the number of fixer calls, the ending,
      and the tracked set of paths afterwards. */
  datatype ChapterRun = ChapterRun(attempts: seq<Attempt>, fixes: nat, status: Status, files: set<string>)

  /** The temporary files a sequence of attempts used. */
  function TempsOf(attempts: seq<Attempt>): set<string> {
    if |attempts| == 0 then {} else TempsOf(attempts[..|attempts| - 1]) + {attempts[|attempts| - 1].tmp}
  }

  /** Every attempt's temporary file is among the temporary files of the attempts. */
  lemma TempsOfContains(attempts: seq<Attempt>)
    ensures forall k :: 0 <= k < |attempts| ==> attempts[k].tmp in TempsOf(attempts)
    decreases |attempts|
  {
    if |attempts| > 0 {
      var prefix := attempts[..|attempts| - 1];
      TempsOfContains(prefix);
      assert forall k :: 0 <= k < |prefix| ==> prefix[k] == attempts[k];
    }
  }

  /** Attempt `a` of chapter `i` (app.py:144-149): `create_video_from_code`
      followed by the check that the returned path exists. */
  function RenderOnce(o: Oracles, i: nat, a: nat, code: string, files: set<string>): (r: Step)
    ensures r.attempt.code == code && r.attempt.tmp == o.tempName(i, a)
    ensures r.files == files - {o.tempName(i, a)}
  {
    var tmp := o.tempName(i, a);
    var call := Render.CreateVideoFromCode(code, tmp, files, o.process(i, a, code));
    var outcome :=
      match call.result
      case Failure(e) => Failed(e)
      case Success(p) => if o.present(i, a, p) then Rendered(p) else Failed(Render.VideoMissing);
    Step(Attempt(code, tmp, outcome), call.files)
  }

  /** An attempt yields a clip exactly when Manim exited with status 0, a
      scene class was found, and the path composed from it exists; the clip
      is then that path. An existing path is never reported missing. */
  lemma RenderOnceOutcome(o: Oracles, i: nat, a: nat, code: string, files: set<string>)
    ensures var out := RenderOnce(o, i, a, code, files).attempt.outcome;
      && (out.Rendered? <==>
            && Render.ProcessError(o.process(i, a, code)).None?
            && SceneName.ExtractClassName(code).Success?
            && o.present(i, a, Render.VideoPath(SceneName.ExtractClassName(code).value)))
      && (out.Rendered? ==> out.path == Render.VideoPath(SceneName.ExtractClassName(code).value))
      && (out.Rendered? ==> Render.IsVideoPath(out.path))
      && (out == Failed(Render.VideoMissing) <==>
            && Render.ProcessError(o.process(i, a, code)).None?
            && SceneName.ExtractClassName(code).Success?
            && !o.present(i, a, Render.VideoPath(SceneName.ExtractClassName(code).value)))
  {
    var call := Render.CreateVideoFromCode(code, o.tempName(i, a), files, o.process(i, a, code));
    if call.result.Success? {
      Render.VideoPathIsConcatenation(SceneName.ExtractClassName(code).value);
    }
  }

  /** One chapter of `generate_video` (app.py:138-154), in closed form.
      The lemmas below state what the source promises about it. */
  function ChapterSpec(o: Oracles, i: nat, ch: Chapter, files: set<string>): (r: ChapterRun)
    ensures |r.attempts| <= MaxAttempts && r.fixes <= 1
    ensures forall k :: 0 <= k < |r.attempts| ==> r.attempts[k].tmp == o.tempName(i, k)
  {
    match o.generate(i, ch)
    case Failure(reason) => ChapterRun([], 0, Aborted(reason), files)
    case Success(code) =>
      var first := RenderOnce(o, i, 0, code, files);
      match first.attempt.outcome
      case Rendered(p) => ChapterRun([first.attempt], 0, Succeeded(p), first.files)
      case Failed(e) =>
        match o.fix(i, e, code)
        case Failure(reason) => ChapterRun([first.attempt], 1, Aborted(reason), first.files)
        case Success(fixed) =>
          var second := RenderOnce(o, i, 1, fixed, first.files);
          var attempts := [first.attempt, second.attempt];
          match second.attempt.outcome
          case Rendered(p) => ChapterRun(attempts, 1, Succeeded(p), second.files)
          case Failed(e2) => ChapterRun(attempts, 1, Skipped(e2), second.files)
  }

  /** The first render uses the generated code; if generating it raised,
      nothing is rendered and the run ends with that exception. */
  lemma FirstRenderUsesGeneratedCode(o: Oracles, i: nat, ch: Chapter, files: set<string>)
    ensures var r := ChapterSpec(o, i, ch, files);
      && (|r.attempts| == 0 <==> o.generate(i, ch).Failure?)
      && (o.generate(i, ch).Failure? ==> r.status == Aborted(o.generate(i, ch).error) && r.fixes == 0)
      && (|r.attempts| > 0 ==> r.attempts[0].code == o.generate(i, ch).value)
  {
  }

  /** The fixer is called exactly when the first render fails, with that
      failure and the code that failed; the second render, if any, uses the
      fixer's output; a first render that succeeds is the only one. */
  lemma FixerCalledOnlyAfterFirstFailure(o: Oracles, i: nat, ch: Chapter, files: set<string>)
    ensures var r := ChapterSpec(o, i, ch, files);
      && (r.fixes == 1 <==> |r.attempts| > 0 && r.attempts[0].outcome.Failed?)
      && (|r.attempts| > 0 && r.attempts[0].outcome.Rendered? ==> |r.attempts| == 1 && r.fixes == 0)
      && (|r.attempts| == 2 ==>
            && o.fix(i, r.attempts[0].outcome.error, r.attempts[0].code).Success?
            && r.attempts[1].code == o.fix(i, r.attempts[0].outcome.error, r.attempts[0].code).value)
  {
  }

  /** A fixer that raises ends the run right after the single failed render,
      and the run carries the fixer's exception. */
  lemma FixerFailureAborts(o: Oracles, i: nat, ch: Chapter, files: set<string>)
    ensures var r := ChapterSpec(o, i, ch, files);
      r.fixes == 1 && |r.attempts| == 1 <==> r.status.Aborted? && o.generate(i, ch).Success?
    ensures var r := ChapterSpec(o, i, ch, files);
      r.fixes == 1 && |r.attempts| == 1 ==>
        && r.attempts[0].outcome.Failed?
        && o.fix(i, r.attempts[0].outcome.error, r.attempts[0].code).Failure?
        && r.status == Aborted(o.fix(i, r.attempts[0].outcome.error, r.attempts[0].code).error)
  {
  }

  /** A chapter succeeds exactly when its last attempt produced a clip, and
      its path is that clip; a skipped chapter failed both attempts and
      keeps the last error. */
  lemma StatusFollowsLastAttempt(o: Oracles, i: nat, ch: Chapter, files: set<string>)
    ensures var r := ChapterSpec(o, i, ch, files);
      && (r.status.Succeeded? <==> |r.attempts| > 0 && r.attempts[|r.attempts| - 1].outcome.Rendered?)
      && (r.status.Succeeded? ==> r.status.path == r.attempts[|r.attempts| - 1].outcome.path)
      && (r.status.Skipped? ==>
            && |r.attempts| == 2
            && r.attempts[0].outcome.Failed?
            && r.attempts[1].outcome == Failed(r.status.error))
  {
  }

  /** Every temporary file a chapter used is gone afterwards, and no other
      path was removed. */
  lemma ChapterRemovesOnlyItsTemps(o: Oracles, i: nat, ch: Chapter, files: set<string>)
    ensures var r := ChapterSpec(o, i, ch, files);
      r.files == files - TempsOf(r.attempts)
  {
    var r := ChapterSpec(o, i, ch, files);
    if |r.attempts| >= 1 {
      var first := RenderOnce(o, i, 0, o.generate(i, ch).value, files);
      assert r.attempts[..1] == [first.attempt] && [first.attempt][..0] == [];
      assert TempsOf(r.attempts[..1]) == {first.attempt.tmp};
      if |r.attempts| == 2 {
        assert r.files == files - {first.attempt.tmp, r.attempts[1].tmp};
      }
    }
  }

  /** A chapter that succeeds contributes a clip path composed from a scene class name. */
  lemma SucceededPathIsVideoPath(o: Oracles, i: nat, ch: Chapter, files: set<string>)
    ensures var r := ChapterSpec(o, i, ch, files);
      r.status.Succeeded? ==> Render.IsVideoPath(r.status.path)
  {
    var r := ChapterSpec(o, i, ch, files);
    if r.status.Succeeded? {
      StatusFollowsLastAttempt(o, i, ch, files);
      var last := |r.attempts| - 1;
      var fs := if last == 0 then files else RenderOnce(o, i, 0, r.attempts[0].code, files).files;
      RenderOnceOutcome(o, i, last, r.attempts[last].code, fs);
    }
  }

  /** The tracked set of temporary files does not influence how a chapter
      ends: only the bookkeeping of that set depends on it. Whether a clip
      exists on disk is the `present` oracle's, not this set's. */
  lemma StatusIgnoresFiles(o: Oracles, i: nat, ch: Chapter, f1: set<string>, f2: set<string>)
    ensures ChapterSpec(o, i, ch, f1).status == ChapterSpec(o, i, ch, f2).status
    ensures ChapterSpec(o, i, ch, f1).attempts == ChapterSpec(o, i, ch, f2).attempts
  {
    if o.generate(i, ch).Success? {
      var code := o.generate(i, ch).value;
      var first1 := RenderOnce(o, i, 0, code, f1);
      var first2 := RenderOnce(o, i, 0, code, f2);
      AttemptIgnoresFiles(o, i, 0, code, f1, f2);
      if first1.attempt.outcome.Failed? && o.fix(i, first1.attempt.outcome.error, code).Success? {
        var fixed := o.fix(i, first1.attempt.outcome.error, code).value;
        AttemptIgnoresFiles(o, i, 1, fixed, first1.files, first2.files);
      }
    }
  }

  lemma AttemptIgnoresFiles(o: Oracles, i: nat, a: nat, code: string, f1: set<string>, f2: set<string>)
    ensures RenderOnce(o, i, a, code, f1).attempt == RenderOnce(o, i, a, code, f2).attempt
  {
  }

  /** With a renderer that never produces a clip and a fixer that answers,
      a chapter makes exactly two attempts and one fix, then is skipped. */
  lemma AlwaysFailingRenderer(o: Oracles, i: nat, ch: Chapter, files: set<string>)
    requires o.generate(i, ch).Success?
    requires forall a: nat, code: string :: o.process(i, a, code).Timeout?
    requires forall e: Render.RenderError, code: string :: o.fix(i, e, code).Success?
    ensures |ChapterSpec(o, i, ch, files).attempts| == 2
    ensures ChapterSpec(o, i, ch, files).fixes == 1
    ensures ChapterSpec(o, i, ch, files).status == Skipped(Render.TimedOut)
  {
  }

  /** A first render that fails and a second that succeeds take exactly one fix. */
  lemma SecondAttemptSucceeds(o: Oracles, i: nat, ch: Chapter, files: set<string>)
    requires o.generate(i, ch).Success?
    requires RenderOnce(o, i, 0, o.generate(i, ch).value, files).attempt.outcome.Failed?
    requires var e := RenderOnce(o, i, 0, o.generate(i, ch).value, files).attempt.outcome.error;
      && o.fix(i, e, o.generate(i, ch).value).Success?
      && RenderOnce(o, i, 1, o.fix(i, e, o.generate(i, ch).value).value, files).attempt.outcome.Rendered?
    ensures ChapterSpec(o, i, ch, files).fixes == 1
    ensures ChapterSpec(o, i, ch, files).status.Succeeded?
  {
  }

  /** The retry loop of app.py:138-154, with its `attempts` counter and
      `success` flag. An exception from the code generator or the fixer
      leaves the loop as an `Aborted` run. */
  method RunChapter(o: Oracles, i: nat, ch: Chapter, files: set<string>) returns (run: ChapterRun)
    ensures run == ChapterSpec(o, i, ch, files)
  {
    var generated := o.generate(i, ch);
    if generated.Failure? {
      return ChapterRun([], 0, Aborted(generated.error), files);
    }
    var code0 := generated.value;
    ghost var first := RenderOnce(o, i, 0, code0, files);
    var code := code0;
    var attempts: nat := 0;
    var success := false;
    var trace: seq<Attempt> := [];
    var fixes: nat := 0;
    var fs := files;
    var path := "";
    while attempts < MaxAttempts && !success
      invariant attempts <= MaxAttempts
      invariant |trace| == attempts
      invariant attempts == 0 ==> !success && code == code0 && fs == files && fixes == 0
      invariant attempts >= 1 ==> trace[0] == first.attempt
      invariant attempts == 1 ==> (success <==> first.attempt.outcome.Rendered?)
      invariant attempts == 1 && success ==> fixes == 0 && fs == first.files && path == first.attempt.outcome.path
      invariant attempts == 1 && !success ==>
        && fixes == 1 && fs == first.files
        && o.fix(i, first.attempt.outcome.error, code0) == Success(code)
      invariant attempts == 2 ==>
        && first.attempt.outcome.Failed? && fixes == 1
        && o.fix(i, first.attempt.outcome.error, code0).Success?
        && trace[1] == RenderOnce(o, i, 1, o.fix(i, first.attempt.outcome.error, code0).value, first.files).attempt
        && fs == RenderOnce(o, i, 1, o.fix(i, first.attempt.outcome.error, code0).value, first.files).files
        && (success <==> trace[1].outcome.Rendered?)
        && (success ==> path == trace[1].outcome.path)
      decreases MaxAttempts - attempts
    {
      var step := RenderOnce(o, i, attempts, code, fs);
      trace := trace + [step.attempt];
      fs := step.files;
      match step.attempt.outcome {
        case Rendered(p) =>
          path := p;
          success := true;
        case Failed(e) =>
          if attempts == 0 {
            var fixed := o.fix(i, e, code);
            fixes := fixes + 1;
            if fixed.Failure? {
              return ChapterRun(trace, fixes, Aborted(fixed.error), fs);
            }
            code := fixed.value;
          }
      }
      attempts := attempts + 1;
    }
    if success {
      run := ChapterRun(trace, fixes, Succeeded(path), fs);
    } else {
      run := ChapterRun(trace, fixes, Skipped(trace[1].outcome.error), fs);
    }
  }
}
