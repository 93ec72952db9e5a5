/** The collaborators of the pipeline that are not modelled: the three
    language-model agents, the temporary-file naming, the Manim process,
    the file-existence checks and the moviepy calls. Each is a total
    function supplied by the caller. Calls that may happen more than once
    receive the chapter index and attempt number, so two calls with the
    same text need not answer alike. */
module Services {
  import opened Results
  import Render

  /** `ChapterDescription`. */
  datatype Chapter = Chapter(title: string, explanation: string)

  /** `VideoOutline`: the chapters in the order the outline gives them. */
  datatype Outline = Outline(title: string, chapters: seq<Chapter>)

  /** The moviepy side of assembly: whether a path exists when the clips are
      collected, whether `VideoFileClip` opens it, and whether concatenating,
      writing and closing the given clips completes without raising. */
  datatype Media = Media(
    onDisk: string -> bool,
    opens: string -> bool,
    writes: seq<string> -> bool)

  /** Everything outside the orchestration. The agents are indexed by
      chapter; the temporary-file name, the Manim process and the existence
      check are indexed by chapter and attempt.
      A `Failure` from `outline`, `generate` or `fix` is the exception the
      agent call raises. */
  datatype Oracles = Oracles(
    outline: string -> Result<Outline, string>,
    generate: (nat, Chapter) -> Result<string, string>,
    fix: (nat, Render.RenderError, string) -> Result<string, string>,
    tempName: (nat, nat) -> string,
    process: (nat, nat, string) -> Render.ProcessResult,
    present: (nat, nat, string) -> bool,
    media: Media)
}
