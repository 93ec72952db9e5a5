# Explanatory video generator: orchestration model

A Dafny model of the orchestration core of the explanatory video generator.
The program asks a language model for an outline of chapters. For each chapter
it asks for Manim scene code, renders that code with the `manim` command, and
on the first failure asks a second agent to fix the code and renders once more.
It then concatenates the files at the collected clip paths into
`final_video.mp4`.

Everything the program calls is a parameter of the model (`Services.Oracles`).
This covers the three agents, the temporary-file name, the Manim process, the
file-existence checks and the moviepy calls. What is modelled and proved is the
control flow in `app.py` that turns those answers into an ordered list of clip
paths and a final result:

- `SceneName` models `extract_class_name`, the regular expression
  `class\s+(\w+)\s*\(\s*\w*Scene\s*\):`, in two forms:
  - a deterministic scanner;
  - a declarative "the text splits into the pieces the pattern names".

  The two are proved equivalent. `ExtractClassName` is specified on the
  declarative side: it returns the group of the leftmost match, and it fails
  exactly when there is no match.
- `Render` models `create_video_from_code`. The process result is abstract:
  `Exited(code, stderr)`, `Timeout` or `NotInstalled`. The temporary file is
  one member of a tracked set of paths. It is added when written and, once
  written, removed by the `finally` on every path.
- `Retry` models the per-chapter `while attempts < 2 and not success` loop
  (`RunChapter`). It is proved equal to a closed-form description
  (`ChapterSpec`), and the lemmas state the retry policy.
- `Assembly` models the existence filter and the combining branch.
- `Pipeline` models the whole `generate_video` (`GenerateVideo`, a `for` loop).
  It is proved equal to the closed form `Run`.
- `Seqs` holds the order-preserving filter. `Results` holds `Option`/`Result`.

Facts about the code that the model keeps:

- The code does not catch an exception from the code generator (app.py:138)
  or from the fixer (app.py:153). It escapes `generate_video` (`Raised`)
  instead of skipping the chapter.
- The fixer receives `str(e)`. For a non-zero exit this is the text of
  `CalledProcessError`, which does not contain the captured stderr. For a
  non-zero exit and a timeout it does contain the command, and with it the
  name of the attempt's temporary file (app.py:102, 112-116). The model
  passes the structured `RenderError`; together with the first attempt's
  temporary-file name `tempName(i, 0)`, which the chapter-indexed `fix`
  oracle can recover, it determines `str(e)`.
- The code never checks the outline's chapter count. Zero chapters give
  `None`, and no bound of three is enforced.
- The code catches a failure while opening, combining or writing clips. The
  run then returns `None`, the same value as when there is nothing to
  combine. Clips are closed only on the success path.
- The code keeps no per-chapter "skipped" record. `Status` in the model is a
  trace of what each chapter went through.

## Model

| member | source | states |
|---|---|---|
| SceneName.SkipSpaces | app.py:89 | `\s*` reads the maximal whitespace run: everything before the result is whitespace, the character at it is not |
| SceneName.SkipWord | app.py:89 | `\w+` and `\w*` read the maximal word-character run |
| SceneName.MatchAtSound | app.py:89 | a group the scanner returns at a position is a match of the pattern there, with that group |
| SceneName.MatchAtIsName | app.py:89 | a group the scanner returns is a non-empty run of word characters |
| SceneName.MatchAtComplete | app.py:89 | every match of the pattern at a position is found by the scanner with the same group (backtracking cannot give another) |
| SceneName.DeclarationIsDeterministic | app.py:89 | at a given position the pattern captures at most one name |
| SceneName.LeftmostIsUnique | app.py:89-91 | the leftmost match determines the captured name uniquely |
| SceneName.Search | app.py:89 | the scan of `re.search` from a position `i`: the result is the first position from `i` up to and including the end of the code where the scanner matches, with its group; no result means the scanner matches at no such position |
| SceneName.Find | app.py:89 | `re.search`: the result is a position where the scanner matches and no earlier position matches; no result means no position matches |
| SceneName.FoundIsLeftmost | app.py:89-91 | the first scanner match is the leftmost match of the pattern |
| SceneName.NotFoundIsNoDeclaration | app.py:89-93 | if the scanner matches nowhere, the pattern matches nowhere |
| SceneName.ExtractClassName | app.py:88-93 | the result is the non-empty word captured by the leftmost `class <Name>(<...>Scene):`; it fails with the ValueError message exactly when the code has no such declaration |
| SceneName.ExtractedNameFollowsKeyword | app.py:89-91 | the extracted name occurs in the code right after `class` and at least one whitespace character |
| SceneName.ExtractsFirstScanned | app.py:89-91 | the group at the first scanner match is what extraction returns |
| SceneName.DeclarationShape | app.py:89 | every match contains, after its keyword, a `Scene` followed by optional whitespace, `)` and `:`; so code with a match contains an `S` and a `)` immediately followed by `:` |
| SceneName.RejectsWithoutSceneBase | app.py:89-93 | code in which no `Scene` is followed by optional whitespace, `)` and `:` (so no base class can end in `Scene`) makes extraction fail |
| SceneName.RejectsWithoutAdjacentParenColon | app.py:89-93 | code with a space (or anything) between `)` and `:` everywhere makes extraction fail |
| SceneName.DeclarationLineDeclares | app.py:89 | a line `class <Name>(<Base>):` with a word name and a word base ending in `Scene` matches at its start wherever it stands in the code, capturing the name |
| SceneName.ExtractsLeadingDeclaration | app.py:88-93 | code that opens with such a line yields exactly its name: the declaration form the code generator is asked for is read back |
| SceneName.ExtractsDeclarationAtStart | app.py:88-93 | a match at the very start of the code is what extraction returns |
| SceneName.ExampleSceneDeclaration | temp.py:5 | the declaration `class ExampleCalculation(Scene):` yields `ExampleCalculation` |
| SceneName.ExampleNoWordBoundary | app.py:89 | `subclass Intro(ThreeDScene):` yields `Intro`: there is no word boundary before `class` |
| SceneName.ExampleWrongBase | app.py:89-93 | `class Intro(Animation):` is rejected |
| SceneName.ExampleSpaceBeforeColon | app.py:89-93 | `class Intro(Scene) :` is rejected |
| Render.SceneOfPath | app.py:130 | a composed clip path determines a scene class name that composes back to it |
| Render.VideoPathIsConcatenation | app.py:130 | for a class name, `os.path.join` of the output directory and `<name>.mp4` is plain concatenation |
| Render.VideoPathRoundTrip | app.py:130 | reading the class name back from its composed path gives the name again |
| Render.VideoPathInjective | app.py:130 | distinct class names give distinct clip paths |
| Render.ProcessError | app.py:109-124 | the try block raises nothing exactly when the process exited with 0; a non-zero exit, a timeout and a missing `manim` each raise their own error |
| Render.CreateVideoFromCode | app.py:95-131 | afterwards the temporary file is absent and no other path in the tracked set changed; a path is returned exactly when the process exited with 0 and a class name was extracted, and it is `./media/videos/temp/480p15/<name>.mp4` for the leftmost declared scene; otherwise the error of the process or of extraction |
| Render.TimeoutCleansUp | app.py:119-127 | a timed-out render is an error and still removes the temporary file |
| Retry.RenderOnce | app.py:144-149 | one attempt renders the given code with that attempt's temporary file, which is gone afterwards |
| Retry.RenderOnceOutcome | app.py:144-149 | an attempt yields a clip exactly when Manim exited with 0, a class was found and its composed path exists; the clip is that path; exit 0 with a missing path is reported as a missing video |
| Retry.ChapterSpec | app.py:139-154 | at most two render attempts and at most one fixer call per chapter |
| Retry.FirstRenderUsesGeneratedCode | app.py:138-144 | the first render uses the generated code; if generation raised there is no render and the run ends with that exception |
| Retry.FixerCalledOnlyAfterFirstFailure | app.py:150-154 | the fixer is called exactly when the first render fails; a first render that succeeds is the only one; the second render uses the fixer's output for the first failure |
| Retry.FixerFailureAborts | app.py:150-153 | a fixer that raises ends the run right after the one failed render, and this is the only way to stop after one failed render; the run then carries the fixer's exception for that failure and code |
| Retry.StatusFollowsLastAttempt | app.py:142-158 | a chapter succeeds exactly when its last attempt produced a clip, with that clip's path; a skipped chapter failed both attempts |
| Retry.ChapterRemovesOnlyItsTemps | app.py:125-127 | after a chapter the tracked paths are those before minus the temporary files its attempts used |
| Retry.SucceededPathIsVideoPath | app.py:129-131 | a successful chapter's path is a composed clip path of a scene class name |
| Retry.StatusIgnoresFiles | app.py:139-154 | how a chapter ends does not depend on the tracked set of temporary files |
| Retry.AlwaysFailingRenderer | app.py:142-154 | with a renderer that always times out and a fixer that answers: exactly two attempts, one fix, then skipped |
| Retry.SecondAttemptSucceeds | app.py:142-154 | a failing first render followed by a successful second one takes exactly one fix and succeeds |
| Retry.RunChapter | app.py:138-154 | the `attempts`/`success` loop ends exactly as the closed form `ChapterSpec` says |
| Seqs.Filter | app.py:162 | the filtered list is no longer than the input, holds only kept elements, and holds exactly the kept members of the input |
| Seqs.FilterConcat | app.py:162 | filtering distributes over concatenation, so the kept clips stay in their relative order |
| Seqs.FilterKeepsAll | app.py:162 | when every clip still exists the list passes unchanged |
| Seqs.FilterEmpty | app.py:162-164 | the filtered list is empty exactly when no element is kept |
| Assembly.Assemble | app.py:160-179 | nothing is attempted for an empty `video_files`; what is concatenated is the existing clips in order; the result is `final_video.mp4` exactly when some clip exists and opening, combining and writing succeed, otherwise `None` |
| Assembly.AssembleAllPresent | app.py:162-171 | when all clips exist, open and write, the final video is made of all of them in order |
| Assembly.AssembleNothingOnDisk | app.py:162-173 | when no clip exists any more nothing is concatenated and the result is `None` |
| Pipeline.RenderedPaths | app.py:145-147 | the collected paths are at most one per chapter, each is the path of a succeeded chapter, and every succeeded chapter's path is among them |
| Pipeline.RenderedPathsConcat | app.py:137-147 | collection of paths distributes over concatenation of chapter sequences: no chapter's path is reordered past another's |
| Pipeline.AllSkippedNoPaths | app.py:156-160 | if every chapter was skipped there is nothing to assemble |
| Pipeline.MiddleChapterSkipped | app.py:137-147 | for chapters A, B, C with B failing, the paths are A's then C's |
| Pipeline.StatusesAt | app.py:137-158 | the k-th status is how chapter k ends when run on its own |
| Pipeline.ProcessChapters | app.py:137-158 | after the first n chapters there is at most one result per chapter |
| Pipeline.AdvanceKeepsConsistent | app.py:138-158 | one more chapter keeps the loop state consistent: one result is appended, which is how that chapter ends on its own; a path is appended exactly when it succeeded; an agent exception stops the loop at this chapter; its temporary files are gone |
| Pipeline.ProcessChaptersSpec | app.py:137-158 | after the first n chapters: one result per finished chapter, equal to how that chapter ends on its own and never an exception; `video_files` is the succeeded chapters' paths in order; an early stop is at the first chapter whose agent call raised; no path appeared in the tracked set and no temporary file used so far is in it |
| Pipeline.AtMostOneClipPerChapter | app.py:137-147 | `video_files` is no longer than the chapter list |
| Pipeline.CrashIsFinal | app.py:138-153 | once an agent exception ended the run, later chapters change nothing |
| Pipeline.Run | app.py:133-179 | an outline failure raises with its exception; a produced video is `final_video.mp4`, made from the clips of `video_files` that still exist, in order, and at least one of them |
| Pipeline.RunChapters | app.py:137-160 | with an outline the run raises exactly when some chapter's agent call raises; otherwise every chapter has a result; each result is how that chapter ends on its own; `video_files` is the succeeded chapters' paths in chapter order, at most one per chapter |
| Pipeline.RunCleansUp | app.py:125-127 | after a run no temporary file any attempt used exists, and no path appeared in the tracked set |
| Pipeline.RunProducedIff | app.py:160-179 | with an outline and no agent exception the run does not raise, and it produces the final video exactly when some collected clip still exists, every such clip opens and the combined video is written; otherwise `None` |
| Pipeline.AllSkippedNothingProduced | app.py:156-179 | when every chapter is skipped `video_files` is empty, so assembly is never attempted, nothing is concatenated and the run returns `None` rather than failing |
| Pipeline.GenerateVideo | app.py:133-179 | the `for` loop over chapters followed by assembly ends exactly as the closed form `Run` says |

## Left out

- The Streamlit interface (`main` and every `st.*` call) is presentation only.
- Environment and credential loading, logging, and the construction of the
  Gemini model and agents are configuration. The three agent calls
  (`generate_video_outline`, `generate_manim_code`, `fix_manim_code`) are
  oracles in `Services.Oracles`. The code generator and the fixer are indexed by
  chapter (the fixer also takes the error and the failed code), because a
  language model need not answer the same question the same way twice. The
  temporary-file name, the Manim process and the existence check
  (`tempName`, `process`, `present`) are indexed by chapter and attempt.
- The real `subprocess.Popen`/`communicate` call, its 60-second timeout and
  `process.kill()` are reduced to the abstract `ProcessResult`. Other `OSError`s
  from `Popen` are not modelled. Only the missing-executable case is.
- moviepy's opening, concatenation, encoding and closing are oracles (`Media`).
  Closing clips happens only on the success path and is not claimed otherwise.
- The `asyncio` wrapper is left out. `generate_video` awaits nothing, so it is
  sequential code.
- temp.py as a whole is an animation scene. Only its line 5 is used, as an
  input to class-name extraction.
- SceneName.IsWordChar: Python's `\w` is Unicode-aware; the model accepts only
  ASCII letters, digits and `_`. A class name with non-ASCII letters is
  therefore read differently. `\s` is modelled exactly, as the characters
  `str.isspace` accepts.
- Render.CreateVideoFromCode: the composed path names the directory `temp`.
  Manim's default layout puts a clip under the stem of the rendered script,
  and the script here is a randomly named temporary file. This probably means
  the existence check succeeds only for clips left behind by earlier runs of a
  file called `temp.py`. Manim's layout is not part of this model, so the model
  leaves existence to the `present` oracle and claims nothing about it.
- Render.CreateVideoFromCode: a failure while creating or writing the
  temporary file (app.py:97-99), such as an `OSError` for a full disk or a
  `UnicodeEncodeError` for code the locale cannot encode, is not modelled.
  It happens before the `try` block, so the file stays on disk, and the
  retry loop's `except Exception` (app.py:150) treats it as a failed render
  and calls the fixer. The cleanup contracts (`CreateVideoFromCode`,
  `Retry.ChapterRemovesOnlyItsTemps`, `Pipeline.RunCleansUp`) hold only for
  attempts whose file was written.
- Retry.ChapterRemovesOnlyItsTemps: assumes every attempt's temporary file
  was written; a failed write would leave that file on disk.
- Pipeline.RunCleansUp: assumes every attempt's temporary file was written;
  a failed write would leave that file on disk.
- Pipeline.RenderedPaths: a clip is identified by its path alone, and the
  path depends only on the scene's class name (app.py:129-130). Two chapters
  whose scenes share a class name collect the same path twice, and assembly
  opens the one file at that path twice. The order facts (`RenderedPaths`,
  `RenderedPathsConcat`, `MiddleChapterSkipped`) are about paths, not about
  the contents of the clips.
- Pipeline.Run: the run-level file set tracks only temporary files. The clips
  and the final video that Manim and moviepy write are not added to it.
