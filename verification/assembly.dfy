/** The final step of `generate_video` (app.py:160-179): the clips of the
    rendered chapters that still exist are concatenated, in chapter order,
    into `final_video.mp4`. Any exception while opening, concatenating or
    writing is caught and the run returns `None`, as it does when there is
    nothing to combine. */
module Assembly {
  import opened Results
  import opened Seqs
  import opened Services

  const FinalVideo: string := "final_video.mp4"

  /** What assembly returns, and the clips handed to `concatenate_videoclips`
      (empty when it was not reached). */
  datatype Assembled = Assembled(result: Option<string>, concatenated: seq<string>)

  /** Every clip can be opened with `VideoFileClip`. */
  predicate AllOpen(clips: seq<string>, m: Media) {
    forall k :: 0 <= k < |clips| ==> m.opens(clips[k])
  }

  /** app.py:160-179. */
  function Assemble(videoFiles: seq<string>, m: Media): (r: Assembled)
    // not attempted at all when no chapter produced a clip
    ensures |videoFiles| == 0 ==> r == Assembled(None, [])
    // what is concatenated is exactly the clips still on disk, in their order
    ensures r.concatenated != [] ==> r.concatenated == Filter(videoFiles, m.onDisk)
    ensures r.result.Some? ==> r.result.value == FinalVideo && r.concatenated != []
    ensures r.result.Some? <==>
      && |Filter(videoFiles, m.onDisk)| > 0
      && AllOpen(Filter(videoFiles, m.onDisk), m)
      && m.writes(Filter(videoFiles, m.onDisk))
  {
    if |videoFiles| == 0 then Assembled(None, [])
    else
      var clips := Filter(videoFiles, m.onDisk);
      if !AllOpen(clips, m) then Assembled(None, [])
      else if |clips| == 0 then Assembled(None, [])
      else if !m.writes(clips) then Assembled(None, clips)
      else Assembled(Some(FinalVideo), clips)
  }

  /** When every clip is still on disk, opens and writes, the final video is
      produced from all of them in the given order. */
  lemma AssembleAllPresent(videoFiles: seq<string>, m: Media)
    requires |videoFiles| > 0
    requires forall k :: 0 <= k < |videoFiles| ==> m.onDisk(videoFiles[k]) && m.opens(videoFiles[k])
    requires m.writes(videoFiles)
    ensures Assemble(videoFiles, m) == Assembled(Some(FinalVideo), videoFiles)
  {
    FilterKeepsAll(videoFiles, m.onDisk);
  }

  /** When none of the clips is on disk any more, nothing is concatenated
      and no video is produced. */
  lemma AssembleNothingOnDisk(videoFiles: seq<string>, m: Media)
    requires forall k :: 0 <= k < |videoFiles| ==> !m.onDisk(videoFiles[k])
    ensures Assemble(videoFiles, m) == Assembled(None, [])
  {
    FilterEmpty(videoFiles, m.onDisk);
  }
}
