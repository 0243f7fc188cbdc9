/** The download-and-upload task (`DownloadUploadTask.run`): for each
    requested episode, download it, take a thumbnail, upload it to the vault
    channel, record it in the ledger and clean up, reporting progress through
    status messages.

    What the downloader, the media tools, the uploader and the file system
    do for one episode is an input (`EpisodeWorld`); what the task does is a
    trace of `Event`s. */
module Tasks {
  import opened Common
  import opened Text
  import opened Constants
  import opened Downloader

  /** The task's constructor arguments. */
  datatype Task = Task(
    title: string, slug: string, episodes: seq<Episode>,
    chatId: int, uploaderId: int, quality: string, audio: string)

  /** The settings the task reads. */
  datatype Settings = Settings(downloadDir: string, vaultChannel: int, deleteAfterUpload: bool)

  /** The uploaded message: its chat and its id. */
  datatype Message = Message(chatId: int, id: int)

  /** What the outside world does while one episode is processed. */
  datatype EpisodeWorld = EpisodeWorld(
    download: Option<DownloadResult>,  // download_episode's return value
    metadata: Call<Option<int>>,       // hachoir: the duration in seconds, if the metadata has one
    thumb: Option<string>,             // take_screen_shot: the image path, or None
    upload: Call<Message>,             // uploader.upload_file
    fileSize: Option<int>,             // os.path.getsize, None when the file is gone
    mediaExists: bool)                 // os.path.exists(res.filepath) after the upload

  /** The status messages, before they are rendered as text. */
  datatype Status =
    | Starting(title: string, numbers: seq<string>)
    | Preparing(n: int)
    | DownloadFailed(n: int, reason: Option<string>)
    | Uploading(n: int, fileName: string)
    | Uploaded(n: int)
    | UploadFailed(n: int, error: string)
    | Finished

  /** What the task does, in order. `Say` is a call of the status callback,
      whose exceptions are swallowed. */
  datatype Event =
    | Say(status: Status)
    | Fetch(title: string, slug: string, session: string, n: int, quality: string, audio: string)
    | Screenshot(file: string, dir: string, at: real)
    | Upload(dest: int, file: string, caption: Caption, thumb: Option<string>)
    | Record(title: string, n: int, chatId: int, uploaderId: int, lang: string, qual: Option<int>,
             messageId: int, fileName: string, fileSize: Option<int>)
    | RemoveThumb(image: Option<string>)
    | RemoveMedia(path: string)
    | Pause

  /** The text handed to the status callback. The episode list prints as a
      Python list of numbers. */
  function StatusText(s: Status): string
  {
    match s
    case Starting(title, numbers) => "Starting task: " + title + " episodes [" + JoinWith(numbers, ", ") + "]"
    case Preparing(n) => "Preparing to download ep " + IntText(n) + " ..."
    case DownloadFailed(n, reason) => "Download failed ep " + IntText(n) + ": " + OptionText(reason)
    case Uploading(n, name) => "Uploading ep " + IntText(n) + " (" + name + ") ..."
    case Uploaded(n) => "Uploaded ep " + IntText(n) + " successfully."
    case UploadFailed(n, e) => "Upload failed for ep " + IntText(n) + ": " + e
    case Finished => "Task finished."
  }

  /** The caption of an uploaded episode, before it is rendered as text. */
  datatype Caption = Caption(title: string, n: int, chatId: int)

  function CaptionText(c: Caption): string
  {
    c.title + " - Episode " + IntText(c.n) + "\n\nUploaded by: " + IntText(c.chatId)
  }

  function EpisodeNumbers(eps: seq<Episode>): (r: seq<string>)
    ensures |r| == |eps|
    ensures forall k :: 0 <= k < |eps| ==> r[k] == eps[k].number
  {
    seq(|eps|, k requires 0 <= k < |eps| => eps[k].number)
  }

  /** The events of some episodes, and whether an exception escaped. */
  datatype Progress = Progress(events: seq<Event>, aborted: bool)

  /** The upload attempt inside the `try` block, for a downloaded file. */
  function UploadSteps(t: Task, s: Settings, n: int, res: DownloadResult, path: string, w: EpisodeWorld): seq<Event>
  {
    var name := BaseName(path);
    [Say(Uploading(n, name)), Upload(s.vaultChannel, path, Caption(t.title, n, t.chatId), w.thumb)] +
    match w.upload
    case Raises(e) => [Say(UploadFailed(n, e))]
    case Returns(msg) =>
      [Record(t.title, n, msg.chatId, t.uploaderId, res.lang, res.qual, msg.id, name, w.fileSize),
       Say(Uploaded(n))]
  }

  /** One pass of the episode loop. An episode number that is not an
      integer raises out of `run`. */
  function EpisodeSteps(t: Task, s: Settings, ep: Episode, w: EpisodeWorld): Progress
  {
    match PyInt(ep.number)
    case None => Progress([], true)
    case Some(n) => Steps(t, s, ep.session, n, w)
  }

  /** The pass for episode `n`: a missing download result and a metadata
      failure raise out of `run`; a failed download is reported and
      skipped. */
  function Steps(t: Task, s: Settings, session: string, n: int, w: EpisodeWorld): Progress
  {
    var head := [Say(Preparing(n)), Fetch(t.title, t.slug, session, n, t.quality, t.audio)];
    match w.download
    case None => Progress(head, true)
    case Some(res) =>
      if !res.success then Progress(head + [Say(DownloadFailed(n, res.reason)), Pause], false)
      // createParser of a missing path raises, as does the metadata extraction
      else if res.filepath.None? || w.metadata.Raises? then Progress(head, true)
      else
        var path := res.filepath.value;
        Progress(head + [Screenshot(path, s.downloadDir, HalfDuration(w.metadata.value))]
                 + UploadSteps(t, s, n, res, path, w) + [RemoveThumb(w.thumb)] + MediaRemoval(s, path, w) + [Pause], false)
  }

  /** `duration / 2`, the duration being 0 when the metadata has none. */
  function HalfDuration(duration: Option<int>): real
  {
    match duration
    case None => 0.0
    case Some(d) => d as real / 2.0
  }

  /** The deletion of the media file, when it is configured and the file
      is still there. */
  function MediaRemoval(s: Settings, path: string, w: EpisodeWorld): seq<Event>
  {
    if s.deleteAfterUpload && path != "" && w.mediaExists then [RemoveMedia(path)] else []
  }

  /** The episode loop over `eps`, stopping at the first escaping exception. */
  function EpisodesRun(t: Task, s: Settings, eps: seq<Episode>, ws: seq<EpisodeWorld>): Progress
    requires |ws| == |eps|
  {
    if eps == [] then Progress([], false)
    else
      var before := EpisodesRun(t, s, eps[..|eps| - 1], ws[..|ws| - 1]);
      if before.aborted then before
      else
        var step := EpisodeSteps(t, s, eps[|eps| - 1], ws[|ws| - 1]);
        Progress(before.events + step.events, step.aborted)
  }

  /** The whole run: the starting message, the episodes, and the closing
      message unless an exception escaped. */
  function RunTrace(t: Task, s: Settings, ws: seq<EpisodeWorld>): Progress
    requires |ws| == |t.episodes|
  {
    var body := EpisodesRun(t, s, t.episodes, ws);
    Progress([Say(Starting(t.title, EpisodeNumbers(t.episodes)))] + body.events
             + (if body.aborted then [] else [Say(Finished)]), body.aborted)
  }

  /** `DownloadUploadTask.run`, with `ws[k]` the world seen by the k-th
      episode. */
  method Run(t: Task, s: Settings, ws: seq<EpisodeWorld>) returns (events: seq<Event>, finished: bool)
    requires |ws| == |t.episodes|
    ensures events == RunTrace(t, s, ws).events
    ensures finished <==> !RunTrace(t, s, ws).aborted
  {
    var eps := t.episodes;
    var body: seq<Event> := [];
    var k := 0;
    while k < |eps|
      invariant 0 <= k <= |eps|
      invariant EpisodesRun(t, s, eps[..k], ws[..k]) == Progress(body, false)
    {
      var step := EpisodeSteps(t, s, eps[k], ws[k]);
      RunStep(t, s, eps, ws, k);
      body := body + step.events;
      if step.aborted {
        AbortedStays(t, s, eps, ws, k + 1);
        RunWhole(eps, ws);
        return [Say(Starting(t.title, EpisodeNumbers(eps)))] + body, false;
      }
      k := k + 1;
    }
    RunWhole(eps, ws);
    return [Say(Starting(t.title, EpisodeNumbers(eps)))] + body + [Say(Finished)], true;
  }

  /** One more pass of the episode loop, after passes that raised nothing. */
  lemma RunStep(t: Task, s: Settings, eps: seq<Episode>, ws: seq<EpisodeWorld>, k: nat)
    requires |ws| == |eps| && k < |eps|
    requires !EpisodesRun(t, s, eps[..k], ws[..k]).aborted
    ensures EpisodesRun(t, s, eps[..k + 1], ws[..k + 1])
         == Progress(EpisodesRun(t, s, eps[..k], ws[..k]).events + EpisodeSteps(t, s, eps[k], ws[k]).events,
                     EpisodeSteps(t, s, eps[k], ws[k]).aborted)
  {
    assert eps[..k + 1][..k] == eps[..k] && ws[..k + 1][..k] == ws[..k];
  }

  lemma RunWhole(eps: seq<Episode>, ws: seq<EpisodeWorld>)
    ensures eps[..|eps|] == eps && ws[..|ws|] == ws
  {
  }

  /** Once an exception escapes, later episodes add nothing. */
  lemma {:induction false} AbortedStays(t: Task, s: Settings, eps: seq<Episode>, ws: seq<EpisodeWorld>, k: nat)
    requires |ws| == |eps| && k <= |eps|
    requires EpisodesRun(t, s, eps[..k], ws[..k]).aborted
    ensures EpisodesRun(t, s, eps, ws) == EpisodesRun(t, s, eps[..k], ws[..k])
    decreases |eps| - k
  {
    if k < |eps| {
      assert eps[..k + 1][..k] == eps[..k] && ws[..k + 1][..k] == ws[..k];
      AbortedStays(t, s, eps, ws, k + 1);
    } else {
      assert eps[..k] == eps && ws[..k] == ws;
    }
  }

  // ------------------------------------------------------------ properties

  /** An upload verdict: `Uploaded` or `UploadFailed`. */
  predicate IsVerdict(e: Event)
  {
    e.Say? && (e.status.Uploaded? || e.status.UploadFailed?)
  }

  /** The number of upload verdicts in a trace. */
  function Verdicts(events: seq<Event>): nat
  {
    if events == [] then 0 else (if IsVerdict(events[0]) then 1 else 0) + Verdicts(events[1..])
  }

  lemma {:induction false} VerdictsAppend(a: seq<Event>, b: seq<Event>)
    ensures Verdicts(a + b) == Verdicts(a) + Verdicts(b)
    decreases |a|
  {
    if a == [] {
      assert a + b == b;
    } else {
      assert (a + b)[1..] == a[1..] + b;
      VerdictsAppend(a[1..], b);
    }
  }

  lemma {:induction false} VerdictsNone(a: seq<Event>)
    requires forall k :: 0 <= k < |a| ==> !IsVerdict(a[k])
    ensures Verdicts(a) == 0
    decreases |a|
  {
    if a != [] {
      VerdictsNone(a[1..]);
    }
  }

  /** The upload attempt holds exactly one verdict: `Uploaded` when the
      upload returned, `UploadFailed` with its error otherwise. */
  lemma UploadVerdict(t: Task, s: Settings, n: int, res: DownloadResult, path: string, w: EpisodeWorld)
    ensures Verdicts(UploadSteps(t, s, n, res, path, w)) == 1
    ensures Say(Uploaded(n)) in UploadSteps(t, s, n, res, path, w) <==> w.upload.Returns?
  {
    var pre := [Say(Uploading(n, BaseName(path))), Upload(s.vaultChannel, path, Caption(t.title, n, t.chatId), w.thumb)];
    var post := UploadSteps(t, s, n, res, path, w)[2..];
    assert UploadSteps(t, s, n, res, path, w) == pre + post;
    VerdictsNone(pre);
    VerdictsAppend(pre, post);
    match w.upload
    case Raises(e) =>
      assert post == [Say(UploadFailed(n, e))] + [];
      VerdictsAppend([Say(UploadFailed(n, e))], []);
    case Returns(msg) =>
      var rec := Record(t.title, n, msg.chatId, t.uploaderId, res.lang, res.qual, msg.id, BaseName(path), w.fileSize);
      assert post == [rec] + [Say(Uploaded(n))];
      VerdictsAppend([rec], [Say(Uploaded(n))]);
  }

  /** The thumbnail is taken at half the duration (0 without one). */
  lemma ScreenshotAtHalfDuration(t: Task, s: Settings, session: string, n: int, w: EpisodeWorld)
    requires w.download.Some? && w.download.value.success
    requires w.download.value.filepath.Some? && w.metadata.Returns?
    ensures var d := if w.metadata.value.Some? then w.metadata.value.value else 0;
      Steps(t, s, session, n, w).events[2] == Screenshot(w.download.value.filepath.value, s.downloadDir, d as real / 2.0)
  {
  }

  /** A failed download is reported, then skipped after the pause: nothing
      is uploaded, recorded or deleted for it, and the run goes on. */
  lemma DownloadFailureIsolated(t: Task, s: Settings, session: string, n: int, w: EpisodeWorld)
    requires w.download.Some? && !w.download.value.success
    ensures !Steps(t, s, session, n, w).aborted
    ensures Steps(t, s, session, n, w).events ==
      [Say(Preparing(n)), Fetch(t.title, t.slug, session, n, t.quality, t.audio),
       Say(DownloadFailed(n, w.download.value.reason)), Pause]
    ensures forall e :: e in Steps(t, s, session, n, w).events ==>
      !e.Upload? && !e.Record? && !e.RemoveMedia? && !e.RemoveThumb?
  {
  }

  /** A downloaded episode whose metadata could be read gets exactly one
      verdict, whatever the ledger insert does. */
  lemma ExactlyOneVerdict(t: Task, s: Settings, session: string, n: int, w: EpisodeWorld)
    requires w.download.Some? && w.download.value.success
    requires w.download.value.filepath.Some? && w.metadata.Returns?
    ensures !Steps(t, s, session, n, w).aborted
    ensures Verdicts(Steps(t, s, session, n, w).events) == 1
    ensures Say(Uploaded(n)) in Steps(t, s, session, n, w).events <==> w.upload.Returns?
  {
    var res := w.download.value;
    var path := res.filepath.value;
    var before := [Say(Preparing(n)), Fetch(t.title, t.slug, session, n, t.quality, t.audio),
                   Screenshot(path, s.downloadDir, HalfDuration(w.metadata.value))];
    var up := UploadSteps(t, s, n, res, path, w);
    var after := [RemoveThumb(w.thumb)] + MediaRemoval(s, path, w) + [Pause];
    assert Steps(t, s, session, n, w).events == before + up + after;
    VerdictsNone(before);
    VerdictsNone(after);
    UploadVerdict(t, s, n, res, path, w);
    VerdictsAppend(before, up);
    VerdictsAppend(before + up, after);
  }

  /** After the upload attempt the thumbnail is always removed, and the
      media file exactly when deletion is configured and the file is still
      there. */
  lemma CleanupAfterUpload(t: Task, s: Settings, session: string, n: int, w: EpisodeWorld)
    requires w.download.Some? && w.download.value.success
    requires w.download.value.filepath.Some? && w.metadata.Returns?
    ensures var path := w.download.value.filepath.value;
      && RemoveThumb(w.thumb) in Steps(t, s, session, n, w).events
      && (RemoveMedia(path) in Steps(t, s, session, n, w).events <==>
            s.deleteAfterUpload && path != "" && w.mediaExists)
  {
    var res := w.download.value;
    var path := res.filepath.value;
    var up := UploadSteps(t, s, n, res, path, w);
    assert forall e :: e in up ==> !e.RemoveMedia?;
  }

  /** Every upload goes to the vault channel with the episode's caption and
      the thumbnail taken for it. */
  lemma UploadTarget(t: Task, s: Settings, session: string, n: int, w: EpisodeWorld)
    ensures forall e :: e in Steps(t, s, session, n, w).events && e.Upload? ==>
      && e.dest == s.vaultChannel
      && e.caption == Caption(t.title, n, t.chatId)
      && e.thumb == w.thumb
  {
  }

  /** The run opens with the starting message; it closes with "Task
      finished." exactly when no exception escaped; and an episode whose
      number is not an integer ends the run. */
  lemma RunFrame(t: Task, s: Settings, ws: seq<EpisodeWorld>)
    requires |ws| == |t.episodes|
    ensures RunTrace(t, s, ws).events[0] == Say(Starting(t.title, EpisodeNumbers(t.episodes)))
    ensures !RunTrace(t, s, ws).aborted ==> RunTrace(t, s, ws).events[|RunTrace(t, s, ws).events| - 1] == Say(Finished)
    ensures RunTrace(t, s, ws).aborted ==> Say(Finished) !in RunTrace(t, s, ws).events
  {
    NoFinishedInBody(t, s, t.episodes, ws);
  }

  lemma {:induction false} NoFinishedInBody(t: Task, s: Settings, eps: seq<Episode>, ws: seq<EpisodeWorld>)
    requires |ws| == |eps|
    ensures Say(Finished) !in EpisodesRun(t, s, eps, ws).events
  {
    if eps != [] {
      NoFinishedInBody(t, s, eps[..|eps| - 1], ws[..|ws| - 1]);
      NoFinishedInStep(t, s, eps[|eps| - 1], ws[|ws| - 1]);
    }
  }

  lemma NoFinishedInStep(t: Task, s: Settings, ep: Episode, w: EpisodeWorld)
    ensures Say(Finished) !in EpisodeSteps(t, s, ep, w).events
  {
    match PyInt(ep.number)
    case None =>
    case Some(n) => NoFinishedInSteps(t, s, ep.session, n, w);
  }

  lemma NoFinishedInSteps(t: Task, s: Settings, session: string, n: int, w: EpisodeWorld)
    ensures Say(Finished) !in Steps(t, s, session, n, w).events
  {
  }

  /** The events of each episode, in list order. */
  function Blocks(t: Task, s: Settings, eps: seq<Episode>, ws: seq<EpisodeWorld>): (r: seq<seq<Event>>)
    requires |ws| == |eps|
    ensures |r| == |eps|
  {
    if eps == [] then []
    else Blocks(t, s, eps[..|eps| - 1], ws[..|ws| - 1]) + [EpisodeSteps(t, s, eps[|eps| - 1], ws[|ws| - 1]).events]
  }

  function Flatten(bs: seq<seq<Event>>): seq<Event>
  {
    if bs == [] then [] else Flatten(bs[..|bs| - 1]) + bs[|bs| - 1]
  }

  /** In a run with no escaping exception the episodes are processed in list
      order, one block each. */
  lemma {:induction false} EpisodesInOrder(t: Task, s: Settings, eps: seq<Episode>, ws: seq<EpisodeWorld>)
    requires |ws| == |eps|
    requires !EpisodesRun(t, s, eps, ws).aborted
    ensures EpisodesRun(t, s, eps, ws).events == Flatten(Blocks(t, s, eps, ws))
  {
    if eps != [] {
      var init, winit := eps[..|eps| - 1], ws[..|ws| - 1];
      EpisodesInOrder(t, s, init, winit);
      var bs := Blocks(t, s, eps, ws);
      assert bs[..|bs| - 1] == Blocks(t, s, init, winit);
    }
  }

  /** ... and no episode of it raised. */
  lemma {:induction false} NoEpisodeRaised(t: Task, s: Settings, eps: seq<Episode>, ws: seq<EpisodeWorld>, k: nat)
    requires |ws| == |eps| && k < |eps|
    requires !EpisodesRun(t, s, eps, ws).aborted
    ensures !EpisodeSteps(t, s, eps[k], ws[k]).aborted
  {
    if k < |eps| - 1 {
      var init, winit := eps[..|eps| - 1], ws[..|ws| - 1];
      NoEpisodeRaised(t, s, init, winit, k);
      assert init[k] == eps[k] && winit[k] == ws[k];
    }
  }

  /** Every episode that does not raise opens its block with "Preparing to
      download ep N ..." for its own number. */
  lemma EpisodeOpens(t: Task, s: Settings, ep: Episode, w: EpisodeWorld)
    requires !EpisodeSteps(t, s, ep, w).aborted
    ensures PyInt(ep.number).Some?
    ensures |EpisodeSteps(t, s, ep, w).events| >= 2
    ensures EpisodeSteps(t, s, ep, w).events[0] == Say(Preparing(PyInt(ep.number).value))
    ensures EpisodeSteps(t, s, ep, w).events[1] == Fetch(t.title, t.slug, ep.session, PyInt(ep.number).value, t.quality, t.audio)
  {
  }

  // ------------------------------------------------------- progress debounce

  /** `int(current / total * 100)` in integer arithmetic, 0 when `total`
      is 0. */
  function Percent(current: nat, total: nat): (r: nat)
  {
    if total == 0 then 0 else current * 100 / total
  }

  /** A fraction of the file gives a percentage between 0 and 100 that is
      100 exactly when the whole file has gone. */
  lemma PercentBounds(current: nat, total: nat)
    requires current <= total
    ensures Percent(current, total) <= 100
    ensures total > 0 ==> (Percent(current, total) == 100 <==> current == total)
  {
    if total > 0 {
      var x := current * 100;
      var q := x / total;
      assert x == total * q + x % total;
      MulMonotone(100, current, total);
      assert x <= total * 100;
      MulMonotone(total, 101, q);
      assert total * 101 == total * 100 + total;
      MulMonotone(total, q, 99);
      assert total * 99 == total * 100 - total;
      MulMonotone(100, current + 1, total);
      assert 100 * (current + 1) == x + 100;
    }
  }

  lemma MulMonotone(b: nat, c: nat, q: nat)
    ensures q >= c ==> b * q >= b * c
  {
    if q >= c {
      assert b * q == b * c + b * (q - c);
    }
  }

  /** Whether a progress report fires: enough time and enough progress
      since the last one, or the upload is complete. */
  predicate Fires(lastTime: int, lastPercent: int, now: int, percent: int)
  {
    (now - lastTime >= PROGRESS_UPDATE_INTERVAL && percent - lastPercent >= 5) || percent == 100
  }

  /** The `last_update` record `progress_cb` keeps between calls. The
      status message it then sends is not awaited, so nothing reaches the
      chat; only this record changes. */
  class ProgressMeter {
    var lastTime: int
    var lastPercent: int

    constructor ()
      ensures lastTime == 0 && lastPercent == 0
    {
      lastTime := 0;
      lastPercent := 0;
    }

    /** One `progress_cb(current, total, start)` call at time `now`. */
    method Tick(current: nat, total: nat, now: int) returns (fired: bool)
      modifies this
      ensures fired <==> Fires(old(lastTime), old(lastPercent), now, Percent(current, total))
      ensures fired ==> lastTime == now && lastPercent == Percent(current, total)
      ensures !fired ==> lastTime == old(lastTime) && lastPercent == old(lastPercent)
    {
      var percent := Percent(current, total);
      fired := Fires(lastTime, lastPercent, now, percent);
      if fired {
        lastTime := now;
        lastPercent := percent;
      }
    }
  }

  /** Completion always fires, and a report never fires twice within the
      interval unless the upload is complete. */
  lemma DebounceMeaning(lastTime: int, lastPercent: int, now: int, current: nat, total: nat)
    requires current <= total
    ensures total > 0 && current == total ==> Fires(lastTime, lastPercent, now, Percent(current, total))
    ensures now - lastTime < PROGRESS_UPDATE_INTERVAL && current < total ==>
      !Fires(lastTime, lastPercent, now, Percent(current, total))
  {
    PercentBounds(current, total);
  }
}
