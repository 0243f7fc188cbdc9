/** The episode downloader: stream negotiation (`get_stream_qualities`, the
    audio filter and the quality choice) and the staged download of
    `download_episode`. Every call into the provider, the temporary
    directory and the file system is an input: the value it returned or the
    message of the exception it raised. */
module Downloader {
  import opened Common
  import opened Text
  import opened Sorting

  // ------------------------------------------------------------- streams

  /** One `<button>` of the episode page: its `data-resolution`,
      `data-audio` and `data-src` attributes. */
  datatype Button = Button(resolution: Option<string>, audio: Option<string>, src: Option<string>)

  /** A stream dict: `quality` (text, "0" when missing), `audio` and `url`
      (`None` when missing or empty) and the integer `quality_val`. */
  datatype Stream = Stream(quality: string, audio: Option<string>, url: Option<string>, qualityVal: int)

  /** `x or None` for an optional attribute. */
  function OrNone(s: Option<string>): (r: Option<string>)
    ensures r.Some? <==> Truthy(s)
    ensures r.Some? ==> r == s
  {
    if Truthy(s) then s else None
  }

  /** The dict built for one button, before `quality_val` is added. */
  function RawStream(b: Button): (r: Stream)
    ensures r.quality == (if Truthy(b.resolution) then b.resolution.value else "0")
    ensures r.qualityVal == 0
  {
    Stream(if Truthy(b.resolution) then b.resolution.value else "0", OrNone(b.audio), OrNone(b.src), 0)
  }

  /** `int(q_raw)`, or 0 when it raises `ValueError`. */
  function QualityValue(q: string): int
  {
    match PyInt(q)
    case Some(v) => v
    case None => 0
  }

  /** The stream built for one button, `quality_val` included. */
  function ParseButton(b: Button): Stream
  {
    WithQuality(RawStream(b))
  }

  /** The second pass: `quality_val` from the dict's `quality`. */
  function WithQuality(s: Stream): Stream
  {
    s.(qualityVal := QualityValue(s.quality))
  }

  function ParseButtons(bs: seq<Button>): (r: seq<Stream>)
    ensures |r| == |bs|
    ensures forall k :: 0 <= k < |bs| ==> r[k] == ParseButton(bs[k])
  {
    seq(|bs|, k requires 0 <= k < |bs| => ParseButton(bs[k]))
  }

  /** The sort key: `quality_val`. */
  function QualityOf(s: Stream): int
  {
    s.qualityVal
  }

  /** The parse and sort of `get_stream_qualities`. `response` is `None` for
      a falsy page response, otherwise the buttons found on the page. No
      page and no buttons give `None`; otherwise one stream per button,
      `quality_val` from `int(quality)` (0 when that raises), stably sorted
      ascending by `quality_val`. */
  method GetStreamQualities(response: Option<seq<Button>>) returns (r: Option<seq<Stream>>)
    ensures r.None? <==> response.None? || response.value == []
    ensures r.Some? ==> r.value == SortBy(ParseButtons(response.value), QualityOf)
  {
    if response.None? {
      return None;
    }
    var streams := ParseAll(response.value);
    if streams == [] {
      return None;
    }
    var a := new Stream[|streams|](j requires 0 <= j < |streams| => streams[j]);
    assert a[..] == streams;
    SortInPlace(a, QualityOf);
    return Some(a[..]);
  }

  /** The two loops of `get_stream_qualities`: one dict per button, then
      `quality_val` added to each. */
  method ParseAll(buttons: seq<Button>) returns (streams: seq<Stream>)
    ensures streams == ParseButtons(buttons)
  {
    var raw := RawStreams(buttons);
    streams := AddQualities(raw);
    assert |streams| == |buttons|;
    assert forall j :: 0 <= j < |buttons| ==> streams[j] == ParseButton(buttons[j]);
  }

  method RawStreams(buttons: seq<Button>) returns (raw: seq<Stream>)
    ensures |raw| == |buttons|
    ensures forall j :: 0 <= j < |buttons| ==> raw[j] == RawStream(buttons[j])
  {
    raw := [];
    for k := 0 to |buttons|
      invariant |raw| == k
      invariant forall j :: 0 <= j < k ==> raw[j] == RawStream(buttons[j])
    {
      raw := raw + [RawStream(buttons[k])];
    }
  }

  /** `WithQuality` on every stream, in order. */
  function WithQualities(raw: seq<Stream>): (r: seq<Stream>)
    ensures |r| == |raw|
  {
    if raw == [] then [] else WithQualities(raw[..|raw| - 1]) + [WithQuality(raw[|raw| - 1])]
  }

  lemma {:induction false} WithQualitiesAt(raw: seq<Stream>, j: nat)
    requires j < |raw|
    ensures WithQualities(raw)[j] == WithQuality(raw[j])
    decreases |raw|
  {
    if j < |raw| - 1 {
      WithQualitiesAt(raw[..|raw| - 1], j);
    }
  }

  method AddQualities(raw: seq<Stream>) returns (streams: seq<Stream>)
    ensures |streams| == |raw|
    ensures forall j :: 0 <= j < |raw| ==> streams[j] == WithQuality(raw[j])
  {
    streams := [];
    for k := 0 to |raw|
      invariant streams == WithQualities(raw[..k])
    {
      assert raw[..k + 1][..k] == raw[..k];
      streams := streams + [WithQuality(raw[k])];
    }
    assert raw[..|raw|] == raw;
    forall j | 0 <= j < |raw|
      ensures streams[j] == WithQuality(raw[j])
    {
      WithQualitiesAt(raw, j);
    }
  }

  /** The streams come out ascending by `quality_val`, as a permutation of
      the parsed buttons, with equal qualities in page order. */
  lemma StreamsSorted(bs: seq<Button>, k: int)
    ensures SortedBy(SortBy(ParseButtons(bs), QualityOf), QualityOf)
    ensures multiset(SortBy(ParseButtons(bs), QualityOf)) == multiset(ParseButtons(bs))
    ensures WithKey(SortBy(ParseButtons(bs), QualityOf), QualityOf, k) == WithKey(ParseButtons(bs), QualityOf, k)
  {
    SortByIsSortedPermutation(ParseButtons(bs), QualityOf);
    SortByIsStable(ParseButtons(bs), QualityOf, k);
  }

  /** A resolution that is not an integer sorts as quality 0. */
  lemma UnparsedQualityIsZero(b: Button)
    requires Truthy(b.resolution) && PyInt(b.resolution.value).None?
    ensures ParseButton(b).qualityVal == 0 && ParseButton(b).quality == b.resolution.value
  {
  }

  // ----------------------------------------------------------- selection

  /** `[s for s in streams if s.get("audio") == audio]` */
  function WithAudio(streams: seq<Stream>, audio: string): (r: seq<Stream>)
    ensures forall s :: s in r <==> s in streams && s.audio == Some(audio)
    ensures (forall s :: s in streams ==> s.audio != Some(audio)) ==> r == []
  {
    if streams == [] then []
    else (if streams[0].audio == Some(audio) then [streams[0]] else []) + WithAudio(streams[1..], audio)
  }

  /** The soft audio filter: the streams in the requested language, or all
      of them when there are none. */
  function Candidates(streams: seq<Stream>, audio: string): seq<Stream>
  {
    var matching := WithAudio(streams, audio);
    if matching == [] then streams else matching
  }

  /** The audio filter never empties a non-empty pool and never invents a
      stream; it keeps exactly the requested language when that is on offer
      and everything otherwise. */
  lemma CandidatesMeaning(streams: seq<Stream>, audio: string)
    ensures forall s :: s in Candidates(streams, audio) ==> s in streams
    ensures streams != [] ==> Candidates(streams, audio) != []
    ensures (exists s :: s in streams && s.audio == Some(audio)) ==>
      forall s :: s in Candidates(streams, audio) <==> s in streams && s.audio == Some(audio)
    ensures (forall s :: s in streams ==> s.audio != Some(audio)) ==> Candidates(streams, audio) == streams
  {
    var matching := WithAudio(streams, audio);
    if exists s :: s in streams && s.audio == Some(audio) {
      var s :| s in streams && s.audio == Some(audio);
      assert s in matching;
    }
  }

  /** A lower bound on the qualities of a pool bounds the filtered pool. */
  lemma {:induction false} WithAudioAbove(streams: seq<Stream>, audio: string, b: int)
    requires forall k :: 0 <= k < |streams| ==> b <= streams[k].qualityVal
    ensures forall k :: 0 <= k < |WithAudio(streams, audio)| ==> b <= WithAudio(streams, audio)[k].qualityVal
    decreases |streams|
  {
    if streams != [] {
      WithAudioAbove(streams[1..], audio, b);
    }
  }

  /** The tail of a pool in quality order is in quality order and no
      cheaper than the head. */
  lemma SortedTail(streams: seq<Stream>)
    requires streams != [] && SortedBy(streams, QualityOf)
    ensures SortedBy(streams[1..], QualityOf)
    ensures forall k :: 0 <= k < |streams| - 1 ==> streams[0].qualityVal <= streams[1..][k].qualityVal
  {
    var rest := streams[1..];
    forall k | 0 <= k < |rest| ensures streams[0].qualityVal <= rest[k].qualityVal {
      assert QualityOf(streams[0]) <= QualityOf(streams[k + 1]);
    }
    forall i, j | 0 <= i < j < |rest| ensures QualityOf(rest[i]) <= QualityOf(rest[j]) {
      assert QualityOf(streams[i + 1]) <= QualityOf(streams[j + 1]);
    }
  }

  /** A stream no dearer than a pool in quality order heads it in order. */
  lemma SortedCons(h: Stream, tail: seq<Stream>)
    requires SortedBy(tail, QualityOf)
    requires forall k :: 0 <= k < |tail| ==> h.qualityVal <= tail[k].qualityVal
    ensures SortedBy([h] + tail, QualityOf)
  {
    var r := [h] + tail;
    forall i, j | 0 <= i < j < |r| ensures QualityOf(r[i]) <= QualityOf(r[j]) {
      assert r[j] == tail[j - 1];
      if i > 0 {
        assert r[i] == tail[i - 1];
      }
    }
  }

  /** Filtering by audio keeps the quality order. */
  lemma {:induction false} WithAudioSorted(streams: seq<Stream>, audio: string)
    requires SortedBy(streams, QualityOf)
    ensures SortedBy(WithAudio(streams, audio), QualityOf)
    decreases |streams|
  {
    if streams != [] {
      var h, rest := streams[0], streams[1..];
      SortedTail(streams);
      WithAudioAbove(rest, audio, h.qualityVal);
      WithAudioSorted(rest, audio);
      if h.audio == Some(audio) {
        SortedCons(h, WithAudio(rest, audio));
      }
    }
  }

  /** So does the soft audio filter. */
  lemma CandidatesSorted(streams: seq<Stream>, audio: string)
    requires SortedBy(streams, QualityOf)
    ensures SortedBy(Candidates(streams, audio), QualityOf)
  {
    WithAudioSorted(streams, audio);
  }

  /** The outcome of the quality choice for a target that parsed: a stream
      with the quality and language that are recorded for it, or none. */
  datatype Selection =
    | NoStream
    | Chosen(stream: Stream, qual: Option<int>, lang: Option<string>)

  /** The first index whose `quality_val` reaches `target`. */
  function FirstAtLeast(cands: seq<Stream>, target: int): (r: Option<nat>)
    ensures r.Some? ==> r.value < |cands| && cands[r.value].qualityVal >= target
    ensures r.Some? ==> forall j :: 0 <= j < r.value ==> cands[j].qualityVal < target
    ensures r.None? ==> forall j :: 0 <= j < |cands| ==> cands[j].qualityVal < target
  {
    if cands == [] then None
    else if cands[0].qualityVal >= target then Some(0)
    else match FirstAtLeast(cands[1..], target)
      case None => None
      case Some(i) => Some(i + 1)
  }

  /** The choice the loop makes: the first candidate at or above the target
      with its quality and language; failing that, the last candidate with
      neither recorded. */
  function Choose(cands: seq<Stream>, target: int): Selection
  {
    match FirstAtLeast(cands, target)
    case Some(i) => Chosen(cands[i], Some(cands[i].qualityVal), cands[i].audio)
    case None => if cands == [] then NoStream else Chosen(cands[|cands| - 1], None, None)
  }

  /** The quality-selection loop of `download_episode`, after `int(quality)`. */
  method SelectStream(cands: seq<Stream>, target: int) returns (sel: Selection)
    ensures sel == Choose(cands, target)
  {
    for k := 0 to |cands|
      invariant forall j :: 0 <= j < k ==> cands[j].qualityVal < target
    {
      if cands[k].qualityVal >= target {
        FirstAtLeastIs(cands, target, k);
        return Chosen(cands[k], Some(cands[k].qualityVal), cands[k].audio);
      }
    }
    FirstAtLeastNone(cands, target);
    if cands != [] {
      return Chosen(cands[|cands| - 1], None, None);
    }
    return NoStream;
  }

  lemma {:induction false} FirstAtLeastNone(cands: seq<Stream>, target: int)
    requires forall j :: 0 <= j < |cands| ==> cands[j].qualityVal < target
    ensures FirstAtLeast(cands, target) == None
  {
    if cands != [] {
      FirstAtLeastNone(cands[1..], target);
    }
  }

  lemma {:induction false} FirstAtLeastIs(cands: seq<Stream>, target: int, k: nat)
    requires k < |cands| && cands[k].qualityVal >= target
    requires forall j :: 0 <= j < k ==> cands[j].qualityVal < target
    ensures FirstAtLeast(cands, target) == Some(k)
  {
    if k > 0 {
      FirstAtLeastIs(cands[1..], target, k - 1);
    }
  }

  /** What the selection promises by position: a parseable target always
      yields a stream when there is one; the chosen stream is the first
      candidate at or above the target, and only then are its quality and
      language recorded; otherwise it is the last candidate. */
  lemma ChooseMeaning(cands: seq<Stream>, target: int)
    ensures Choose(cands, target) == NoStream <==> cands == []
    ensures Choose(cands, target).Chosen? ==> Choose(cands, target).stream in cands
    ensures Choose(cands, target).Chosen? && Choose(cands, target).qual.Some? ==>
      var sel := Choose(cands, target);
      && sel.qual.value == sel.stream.qualityVal >= target
      && sel.lang == sel.stream.audio
      && exists i :: 0 <= i < |cands| && cands[i] == sel.stream
           && forall j :: 0 <= j < i ==> cands[j].qualityVal < target
    ensures cands != [] && (forall j :: 0 <= j < |cands| ==> cands[j].qualityVal < target) ==>
      Choose(cands, target) == Chosen(cands[|cands| - 1], None, None)
    ensures (exists j :: 0 <= j < |cands| && cands[j].qualityVal >= target) ==>
      Choose(cands, target).qual.Some?
  {
  }

  /** On candidates in ascending quality order (`CandidatesSorted`), the
      first at or above the target is the cheapest such, and the fall-back
      last one is the best on offer. */
  lemma ChooseCheapest(cands: seq<Stream>, target: int)
    requires SortedBy(cands, QualityOf)
    ensures var sel := Choose(cands, target);
      sel.Chosen? && sel.qual.Some? ==>
        forall s :: s in cands && s.qualityVal >= target ==> sel.stream.qualityVal <= s.qualityVal
    ensures var sel := Choose(cands, target);
      sel.Chosen? && sel.qual.None? ==>
        forall s :: s in cands ==> s.qualityVal <= sel.stream.qualityVal
  {
  }

  // ------------------------------------------------------------ download

  /** `EpisodeDownloadResult`. `qual` is `None` where the source stores
      `None` (a stream chosen below the target). */
  datatype DownloadResult = DownloadResult(
    episode: int, qual: Option<int>, lang: string, filepath: Option<string>, success: bool, reason: Option<string>)

  function Failure(episode: int, lang: string, reason: string): DownloadResult
  {
    DownloadResult(episode, Some(0), lang, None, false, Some(reason))
  }

  /** What the provider and the file system do, stage by stage. */
  datatype Provider = Provider(
    page: Call<Option<seq<Button>>>,      // the episode page: None when falsy, else its stream buttons
    playlistUrl: Call<Option<string>>,    // get_playlist_url
    tempDir: Call<string>,                // tempfile.mkdtemp
    playlistPath: Call<Option<string>>,   // download_playlist
    segments: Call<bool>,                 // download_from_playlist
    compiled: Call<bool>,                 // compile_video
    listing: Call<seq<string>>,           // os.listdir(tmpdir)
    moved: Call<()>)                      // shutil.move

  /** The effects on the file system, in order. */
  datatype FsEffect = MadeTempDir(dir: string) | MovedToOutput(from: string, to: string) | RemovedTempDir(dir: string)

  const NO_STREAM_URL := "No stream URL"
  const NO_PLAYLIST_URL := "No playlist URL"
  const FETCH_FAILED := "Failed to fetch playlist"
  const SEGMENTS_FAILED := "Failed to download segments"
  const COMPILE_FAILED := "Failed to compile video"
  /** `str(exc)` of the `TypeError` raised by iterating over `None`. */
  const NONE_NOT_ITERABLE := "'NoneType' object is not iterable"

  /** `stream_lang or ""` */
  function LangText(lang: Option<string>): string
  {
    if Truthy(lang) then lang.value else ""
  }

  /** `f"{anime_title.replace('/', '_')}_ep{episode_number}.mp4"` */
  function OutFileName(title: string, episode: int): string
  {
    ReplaceChar(title, '/', '_') + "_ep" + IntText(episode) + ".mp4"
  }

  function OutputPath(downloadDir: string, title: string, episode: int): string
  {
    PathJoin(downloadDir, OutFileName(title, episode))
  }

  /** The output file is named after the title with every '/' replaced, so
      it lands directly in the download directory. */
  lemma OutputPathInDownloadDir(downloadDir: string, title: string, episode: int)
    ensures var name := OutFileName(title, episode);
      && '/' !in name[..|title|]
      && OutputPath(downloadDir, title, episode) ==
           (if downloadDir == [] || downloadDir[|downloadDir| - 1] == '/' then downloadDir + name
            else downloadDir + "/" + name)
  {
    var name := OutFileName(title, episode);
    var safe := ReplaceChar(title, '/', '_');
    assert name[..|title|] == safe;
    if |title| > 0 {
      assert name[0] == safe[0];
    } else {
      assert name[0] == '_';
    }
  }

  predicate IsVideo(f: string)
  {
    EndsWith(f, ".mp4") || EndsWith(f, ".mkv")
  }

  /** `[os.path.join(tmpdir, f) for f in os.listdir(tmpdir) if f.endswith((".mp4", ".mkv"))]` */
  function Videos(dir: string, names: seq<string>): seq<string>
  {
    if names == [] then []
    else (if IsVideo(names[0]) then [PathJoin(dir, names[0])] else []) + Videos(dir, names[1..])
  }

  /** The fall-back finds a file exactly when the listing holds a name
      ending in ".mp4" or ".mkv". */
  lemma {:induction false} VideosFound(dir: string, names: seq<string>)
    ensures (exists f :: f in names && IsVideo(f)) <==> Videos(dir, names) != []
  {
    if names != [] {
      VideosFound(dir, names[1..]);
      if exists f :: f in names && IsVideo(f) {
        var f :| f in names && IsVideo(f);
        if f != names[0] {
          assert f in names[1..];
        }
      }
    }
  }

  /** The file it moves is the first such name, joined to the directory. */
  lemma {:induction false} VideosFirst(dir: string, names: seq<string>, i: nat)
    requires i < |names| && IsVideo(names[i])
    requires forall j :: 0 <= j < i ==> !IsVideo(names[j])
    ensures Videos(dir, names) != [] && Videos(dir, names)[0] == PathJoin(dir, names[i])
  {
    if i > 0 {
      VideosFirst(dir, names[1..], i - 1);
    }
  }

  /** What `get_stream_qualities` returns for a page that was fetched. */
  function StreamsOf(p: Provider): Option<seq<Stream>>
    requires p.page.Returns?
  {
    if p.page.value.None? || p.page.value.value == [] then None
    else Some(SortBy(ParseButtons(p.page.value.value), QualityOf))
  }

  /** `get_stream_qualities` returned a stream list (not `None`). */
  predicate StreamsListed(p: Provider)
  {
    p.page.Returns? && StreamsOf(p).Some?
  }

  /** The selection made from the provider's streams for a parsed target. */
  function SelectionOf(p: Provider, audio: string, target: int): Selection
    requires StreamsListed(p)
  {
    Choose(Candidates(StreamsOf(p).value, audio), target)
  }

  /** The stream `download_episode` picks from what `get_stream_qualities`
      returned is one of the page's streams: the cheapest in the filtered
      pool at or above the target, or, when none reaches it, the best of the
      pool with no quality recorded. */
  lemma SelectionCheapest(p: Provider, audio: string, target: int)
    requires StreamsListed(p)
    ensures var pool := Candidates(StreamsOf(p).value, audio);
            var sel := SelectionOf(p, audio, target);
            && sel.Chosen?
            && sel.stream in ParseButtons(p.page.value.value)
            && (sel.qual.Some? ==> sel.stream.qualityVal >= target)
            && (sel.qual.Some? ==> forall s :: s in pool && s.qualityVal >= target ==> sel.stream.qualityVal <= s.qualityVal)
            && (sel.qual.None? ==> forall s :: s in pool ==> s.qualityVal < target && s.qualityVal <= sel.stream.qualityVal)
  {
    var bs := p.page.value.value;
    var streams := StreamsOf(p).value;
    SortByIsSortedPermutation(ParseButtons(bs), QualityOf);
    CandidatesSorted(streams, audio);
    CandidatesMeaning(streams, audio);
    ChooseMeaning(Candidates(streams, audio), target);
    ChooseCheapest(Candidates(streams, audio), target);
    var sel := SelectionOf(p, audio, target);
    assert sel.stream in multiset(streams);
  }

  /** The outcome of the steps before the temporary directory: `None` when
      they all pass, otherwise the value `download_episode` returns. */
  method Prelude(episode: int, quality: string, audio: string, p: Provider)
    returns (early: Option<Option<DownloadResult>>, sel: Selection)
    ensures p.page.Raises? ==> early == Some(Some(Failure(episode, "", p.page.message)))
    ensures p.page.Returns? && StreamsOf(p).None? ==> early == Some(Some(Failure(episode, "", NONE_NOT_ITERABLE)))
    ensures StreamsListed(p) && PyInt(quality).None? ==> early == Some(None)
    ensures StreamsListed(p) && PyInt(quality).Some? ==>
      && sel == SelectionOf(p, audio, PyInt(quality).value)
      && (sel == NoStream ==> early == Some(Some(Failure(episode, "", NO_STREAM_URL))))
      && (sel.Chosen? && p.playlistUrl.Raises? ==> early == Some(Some(Failure(episode, "", p.playlistUrl.message))))
      && (sel.Chosen? && p.playlistUrl.Returns? && !Truthy(p.playlistUrl.value) ==>
            early == Some(Some(Failure(episode, LangText(sel.lang), NO_PLAYLIST_URL))))
      && (sel.Chosen? && p.playlistUrl.Returns? && Truthy(p.playlistUrl.value) ==> early.None?)
    ensures early.None? ==> StreamsListed(p) && PyInt(quality).Some? && sel.Chosen?
  {
    sel := NoStream;
    // streams = await self.get_stream_qualities(...)
    if p.page.Raises? {
      return Some(Some(Failure(episode, "", p.page.message))), sel;
    }
    var streams := GetStreamQualities(p.page.value);
    if streams.None? {
      return Some(Some(Failure(episode, "", NONE_NOT_ITERABLE))), sel;
    }
    var cands := Candidates(streams.value, audio);
    var target := PyInt(quality);
    if target.None? {
      return Some(None), sel;
    }
    sel := SelectStream(cands, target.value);
    if sel == NoStream {
      return Some(Some(Failure(episode, "", NO_STREAM_URL))), sel;
    }
    if p.playlistUrl.Raises? {
      return Some(Some(Failure(episode, "", p.playlistUrl.message))), sel;
    }
    if !Truthy(p.playlistUrl.value) {
      return Some(Some(Failure(episode, LangText(sel.lang), NO_PLAYLIST_URL))), sel;
    }
    return None, sel;
  }

  /** The selection, when every step before the temporary directory
      passes: a stream list, a numeric quality, a chosen stream and a
      playlist URL. */
  function Admitted(p: Provider, quality: string, audio: string): (r: Option<Selection>)
    ensures r.Some? ==> r.value.Chosen?
  {
    if StreamsListed(p) && PyInt(quality).Some? then
      var sel := SelectionOf(p, audio, PyInt(quality).value);
      if sel.Chosen? && p.playlistUrl.Returns? && Truthy(p.playlistUrl.value) then Some(sel) else None
    else None
  }

  /** `download_episode(...)`. `None` is the function's own `return None`
      for a quality that is not a number. */
  method DownloadEpisode(title: string, episode: int, quality: string, audio: string, downloadDir: string, p: Provider)
    returns (r: Option<DownloadResult>, fx: seq<FsEffect>)
    // streams unavailable: the exception, or iterating over `None`
    ensures p.page.Raises? ==> r == Some(Failure(episode, "", p.page.message)) && fx == []
    ensures p.page.Returns? && StreamsOf(p).None? ==> r == Some(Failure(episode, "", NONE_NOT_ITERABLE)) && fx == []
    // a quality that is not a number
    ensures r.None? <==> StreamsListed(p) && PyInt(quality).None?
    ensures r.None? ==> fx == []
    // the stages before the temporary directory
    ensures StreamsListed(p) && PyInt(quality).Some? ==>
      var sel := SelectionOf(p, audio, PyInt(quality).value);
      && (sel == NoStream ==> r == Some(Failure(episode, "", NO_STREAM_URL)) && fx == [])
      && (sel.Chosen? && p.playlistUrl.Raises? ==> r == Some(Failure(episode, "", p.playlistUrl.message)) && fx == [])
      && (sel.Chosen? && p.playlistUrl.Returns? && !Truthy(p.playlistUrl.value) ==>
            r == Some(Failure(episode, LangText(sel.lang), NO_PLAYLIST_URL)) && fx == [])
    ensures Admitted(p, quality, audio).Some? && p.tempDir.Raises? ==>
      r == Some(Failure(episode, "", p.tempDir.message)) && fx == []
    // from the temporary directory on
    ensures Admitted(p, quality, audio).Some? && p.tempDir.Returns? ==>
      var sel := Admitted(p, quality, audio).value;
      && r.Some?
      && StagedOutcome(episode, sel.qual, LangText(sel.lang), OutputPath(downloadDir, title, episode), p.tempDir.value, p, r.value, fx)
  {
    fx := [];
    var early, sel := Prelude(episode, quality, audio, p);
    if early.Some? {
      return early.value, fx;
    }
    if p.tempDir.Raises? {
      return Some(Failure(episode, "", p.tempDir.message)), fx;
    }
    var tmp := p.tempDir.value;
    var result;
    result, fx := InTempDir(episode, sel.qual, LangText(sel.lang), OutputPath(downloadDir, title, episode), tmp, p);
    r := Some(result);
  }

  /** The outcome of the body of the inner `try`, from the playlist
      download to the result, with its `finally`: the temporary directory
      `tmp`, made just before, is removed on every path out, and the result
      is the first failing stage's, or a success carrying the recorded
      quality `qual`, the language `lang` and the output path `out`. An
      exception raised by a stage becomes the outer handler's failure. */
  predicate StagedOutcome(episode: int, qual: Option<int>, lang: string, out: string, tmp: string, p: Provider,
                          r: DownloadResult, fx: seq<FsEffect>)
  {
    && |fx| >= 2 && fx[0] == MadeTempDir(tmp) && fx[|fx| - 1] == RemovedTempDir(tmp)
    && (!r.success ==> fx == [MadeTempDir(tmp), RemovedTempDir(tmp)])
    && (p.playlistPath.Raises? ==> r == Failure(episode, "", p.playlistPath.message))
    && (p.playlistPath.Returns? && !Truthy(p.playlistPath.value) ==> r == Failure(episode, lang, FETCH_FAILED))
    && (p.playlistPath.Returns? && Truthy(p.playlistPath.value) ==>
      && (p.segments.Raises? ==> r == Failure(episode, "", p.segments.message))
      && (p.segments == Returns(false) ==> r == Failure(episode, lang, SEGMENTS_FAILED))
      && (p.segments == Returns(true) ==>
        var success := DownloadResult(episode, qual, lang, Some(out), true, None);
        && (p.compiled.Raises? ==> r == Failure(episode, "", p.compiled.message))
        && (p.compiled == Returns(true) ==> r == success && fx == [MadeTempDir(tmp), RemovedTempDir(tmp)])
        && (p.compiled == Returns(false) && p.listing.Raises? ==> r == Failure(episode, "", p.listing.message))
        && (p.compiled == Returns(false) && p.listing.Returns? && Videos(tmp, p.listing.value) == [] ==>
              r == Failure(episode, lang, COMPILE_FAILED))
        && (p.compiled == Returns(false) && p.listing.Returns? && Videos(tmp, p.listing.value) != [] ==>
              && (p.moved.Raises? ==> r == Failure(episode, "", p.moved.message))
              && (p.moved.Returns? ==>
                    && r == success
                    && fx == [MadeTempDir(tmp), MovedToOutput(Videos(tmp, p.listing.value)[0], out), RemovedTempDir(tmp)]))))
  }

  /** The inner `try ... finally` of `download_episode`. */
  method InTempDir(episode: int, qual: Option<int>, lang: string, out: string, tmp: string, p: Provider)
    returns (r: DownloadResult, fx: seq<FsEffect>)
    ensures StagedOutcome(episode, qual, lang, out, tmp, p, r, fx)
  {
    var made := [MadeTempDir(tmp)];
    var removed := [RemovedTempDir(tmp)];
    if p.playlistPath.Raises? {
      return Failure(episode, "", p.playlistPath.message), made + removed;
    }
    if !Truthy(p.playlistPath.value) {
      return Failure(episode, lang, FETCH_FAILED), made + removed;
    }
    if p.segments.Raises? {
      return Failure(episode, "", p.segments.message), made + removed;
    }
    if !p.segments.value {
      return Failure(episode, lang, SEGMENTS_FAILED), made + removed;
    }
    if p.compiled.Raises? {
      return Failure(episode, "", p.compiled.message), made + removed;
    }
    var compiled := p.compiled.value;
    var moves: seq<FsEffect> := [];
    if !compiled {
      if p.listing.Raises? {
        return Failure(episode, "", p.listing.message), made + removed;
      }
      var videos := Videos(tmp, p.listing.value);
      if videos != [] {
        if p.moved.Raises? {
          return Failure(episode, "", p.moved.message), made + removed;
        }
        moves := [MovedToOutput(videos[0], out)];
        compiled := true;
      }
    }
    if !compiled {
      return Failure(episode, lang, COMPILE_FAILED), made + removed;
    }
    return DownloadResult(episode, qual, lang, Some(out), true, None), made + moves + removed;
  }

  /** A successful download always names the output path, the recorded
      quality and language and no reason, and it happens only once the
      playlist, the segments and either the compiler or the fall-back move
      worked; every failure leaves the temporary directory made and removed
      with nothing moved. */
  lemma StagedSuccess(episode: int, qual: Option<int>, lang: string, out: string, tmp: string, p: Provider,
                      r: DownloadResult, fx: seq<FsEffect>)
    requires StagedOutcome(episode, qual, lang, out, tmp, p, r, fx)
    ensures r.success ==> r == DownloadResult(episode, qual, lang, Some(out), true, None)
    ensures r.success ==> p.playlistPath.Returns? && Truthy(p.playlistPath.value) && p.segments == Returns(true)
    ensures r.success ==> p.compiled == Returns(true) || (p.compiled == Returns(false) && p.moved.Returns?)
    ensures !r.success ==> r.filepath.None? && r.qual == Some(0) && r.reason.Some?
  {
    if p.playlistPath.Raises? || !Truthy(p.playlistPath.value) {
    } else if p.segments.Raises? || !p.segments.value {
    } else if p.compiled.Raises? || p.compiled.value {
    } else if p.listing.Raises? || Videos(tmp, p.listing.value) == [] {
    } else if p.moved.Raises? {
    } else {
    }
  }
}
