/** One call of `create_video_from_code` (app.py): the scene source is
    written to a temporary file, Manim is run on it, the temporary file is
    deleted whatever the process did, and the path of the clip is composed
    from the scene's class name. A failure while writing the file, before
    the `try` block, is not modelled.

    The Manim process is not modelled; its observable result is a
    parameter (`ProcessResult`). The file system is modelled only as a
    tracked set of paths, which is where the temporary file appears and
    disappears; the files Manim writes are not tracked. */
module Render {
  import opened Results
  import SceneName

  /** What running `manim <tmp> -ql --disable_caching` can end in. */
  datatype ProcessResult =
    | Exited(code: int, stderr: string)   // `communicate` returned
    | Timeout                              // `communicate(timeout=60)` expired
    | NotInstalled                         // `Popen` raised FileNotFoundError

  /** The exceptions one rendering attempt can raise, as seen by the retry loop. */
  datatype RenderError =
    | NonZeroExit(code: int, stderr: string)   // subprocess.CalledProcessError
    | TimedOut                                  // subprocess.TimeoutExpired, re-raised after kill
    | ManimMissing                              // FileNotFoundError("Manim is not installed ...")
    | NoSceneClass                              // ValueError from extract_class_name
    | VideoMissing                              // FileNotFoundError("Video file not created.")

  /** Where `manim -ql` is expected to have put the clip (480p, 15 fps). */
  const OutputDir: string := "./media/videos/temp/480p15/"
  const VideoExtension: string := ".mp4"

  /** `os.path.join` on POSIX with two arguments: an absolute second part
      replaces the first, otherwise the parts are joined with one `/`. */
  function PathJoin(dir: string, file: string): string {
    if |file| > 0 && file[0] == '/' then file
    else if |dir| == 0 || dir[|dir| - 1] == '/' then dir + file
    else dir + "/" + file
  }

  /** The clip path composed for a scene class. */
  function VideoPath(name: string): string {
    PathJoin(OutputDir, name + VideoExtension)
  }

  /** `p` is the clip path of some possible scene class name. */
  predicate IsVideoPath(p: string) {
    && |p| > |OutputDir| + |VideoExtension|
    && p[..|OutputDir|] == OutputDir
    && p[|p| - |VideoExtension|..] == VideoExtension
    && SceneName.IsName(p[|OutputDir|..|p| - |VideoExtension|])
  }

  /** The scene class name a clip path was composed from. */
  function SceneOfPath(p: string): (name: string)
    requires IsVideoPath(p)
    ensures SceneName.IsName(name)
    ensures VideoPath(name) == p
  {
    var name := p[|OutputDir|..|p| - |VideoExtension|];
    assert p == p[..|OutputDir|] + name + p[|p| - |VideoExtension|..];
    VideoPathIsConcatenation(name);
    name
  }

  /** For a class name the join is plain concatenation: the name is made of
      word characters, so it never starts with `/`. */
  lemma VideoPathIsConcatenation(name: string)
    requires SceneName.IsName(name)
    ensures VideoPath(name) == OutputDir + name + VideoExtension
  {
    assert SceneName.IsWordChar(name[0]);
    assert (name + VideoExtension)[0] == name[0];
  }

  /** Composing a path and reading the name back gives the name again. */
  lemma VideoPathRoundTrip(name: string)
    requires SceneName.IsName(name)
    ensures IsVideoPath(VideoPath(name))
    ensures SceneOfPath(VideoPath(name)) == name
  {
    VideoPathIsConcatenation(name);
    var p := VideoPath(name);
    assert p[..|OutputDir|] == OutputDir;
    assert p[|p| - |VideoExtension|..] == VideoExtension;
    assert p[|OutputDir|..|p| - |VideoExtension|] == name;
  }

  /** Distinct scene classes get distinct clip paths. */
  lemma VideoPathInjective(n1: string, n2: string)
    requires SceneName.IsName(n1) && SceneName.IsName(n2)
    requires VideoPath(n1) == VideoPath(n2)
    ensures n1 == n2
  {
    VideoPathRoundTrip(n1);
    VideoPathRoundTrip(n2);
  }

  /** The exception the `try` block raises for a process result, if any:
      a non-zero exit code becomes CalledProcessError, an expired timeout
      is re-raised after the process is killed, and a missing executable
      becomes a FileNotFoundError with its own message. */
  function ProcessError(proc: ProcessResult): (e: Option<RenderError>)
    ensures e.None? <==> proc.Exited? && proc.code == 0
    ensures e.Some? && proc.Exited? ==> e.value == NonZeroExit(proc.code, proc.stderr)
    ensures proc.Timeout? ==> e == Some(TimedOut)
    ensures proc.NotInstalled? ==> e == Some(ManimMissing)
  {
    match proc
    case Exited(code, stderr) => if code != 0 then Some(NonZeroExit(code, stderr)) else None
    case Timeout => Some(TimedOut)
    case NotInstalled => Some(ManimMissing)
  }

  /** The outcome of one call and the tracked set of paths after it. */
  datatype RenderCall = RenderCall(result: Result<string, RenderError>, files: set<string>)

  /** `create_video_from_code(code, ...)`, with `tmp` the name the temporary
      file gets, `files` the paths existing before the call and `proc` what
      the Manim process ends in. */
  function CreateVideoFromCode(code: string, tmp: string, files: set<string>, proc: ProcessResult): (r: RenderCall)
    ensures tmp !in r.files
    ensures r.files == files - {tmp}
    ensures r.result.Success? <==> proc.Exited? && proc.code == 0 && SceneName.ExtractClassName(code).Success?
    ensures r.result.Success? ==> r.result.value == OutputDir + SceneName.ExtractClassName(code).value + VideoExtension
    ensures r.result.Success? ==> IsVideoPath(r.result.value)
    ensures r.result.Success? ==> SceneName.LeftmostDeclaration(code, SceneOfPath(r.result.value))
    ensures r.result.Failure? && ProcessError(proc).Some? ==> r.result.error == ProcessError(proc).value
    ensures r.result.Failure? && ProcessError(proc).None? ==> r.result.error == NoSceneClass
  {
    var written := files + {tmp};
    var raised := ProcessError(proc);
    var cleaned := if tmp in written then written - {tmp} else written;
    match raised
    case Some(e) => RenderCall(Failure(e), cleaned)
    case None =>
      match SceneName.ExtractClassName(code)
      case Failure(_) => RenderCall(Failure(NoSceneClass), cleaned)
      case Success(name) =>
        VideoPathRoundTrip(name);
        VideoPathIsConcatenation(name);
        RenderCall(Success(VideoPath(name)), cleaned)
  }

  /** A timed-out render yields an error and still removes the temporary file. */
  lemma TimeoutCleansUp(code: string, tmp: string, files: set<string>)
    ensures CreateVideoFromCode(code, tmp, files, Timeout) == RenderCall(Failure(TimedOut), files - {tmp})
  {
  }
}
