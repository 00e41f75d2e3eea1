/**
 * The per-link decisions of `downloadVideo` (poliwebex.js lines 138-248), the
 * two download routines `directDownload` (319-342) and `segmentedDownload`
 * (344-424) with their bounded retry loops, and the module-level list
 * `notDownloaded` (line 108) of links that could not be downloaded.
 *
 * Everything the downloader asks of the outside world is an input:
 * `World` answers `new URL(...)`, every HTTP request, `JSON.parse` of the
 * recording-stream answer and the XML manifest lookup; `Item` lists, for
 * one link, the outcomes of the successive runs of `aria2c` and whether
 * `ffmpeg` succeeds.
 */
module Downloads {
  import opened Wrappers
  import opened Strings
  import opened VideoId
  import opened Title
  import opened Locators
  import opened Playlist
  import opened Redirect

  /** `times` in both download routines. */
  const MaxAttempts := 5

  /** The local directory the segments are downloaded into, the prefix of `video_tmp.m3u8`. */
  const SegmentsDir := "video_segments/"

  /** Run `k` (from 0) of the external download command succeeds. The outcome list
      gives the runs in order; a run past its end fails. */
  predicate Succeeds(outcomes: seq<bool>, k: nat) {
    k < |outcomes| && outcomes[k]
  }

  /** All of the allowed runs fail. */
  predicate GivesUp(outcomes: seq<bool>) {
    forall k :: 0 <= k < MaxAttempts ==> !Succeeds(outcomes, k)
  }

  /** The `while (count < times)` loop shared by both routines: the command is run
      until it succeeds, at most `MaxAttempts` times; `count` is the number of failed
      runs, and it reaches `MaxAttempts` exactly when every run failed. */
  method RetryLoop(outcomes: seq<bool>) returns (count: nat)
    ensures count <= MaxAttempts
    ensures forall k :: 0 <= k < count ==> !Succeeds(outcomes, k)
    ensures count < MaxAttempts ==> Succeeds(outcomes, count)
    ensures count == MaxAttempts <==> GivesUp(outcomes)
  {
    var times := MaxAttempts;
    count := 0;
    while count < times
      invariant count <= times
      invariant forall k :: 0 <= k < count ==> !Succeeds(outcomes, k)
    {
      if !Succeeds(outcomes, count) {
        count := count + 1;
        continue;
      }
      break;
    }
    assert count < MaxAttempts ==> Succeeds(outcomes, count);
  }

  /** Only the first `MaxAttempts` outcomes matter. */
  lemma GivesUpOnFirstRuns(outcomes: seq<bool>, later: seq<bool>)
    requires |outcomes| >= MaxAttempts
    ensures GivesUp(outcomes + later) == GivesUp(outcomes[..MaxAttempts])
  {
    forall k | 0 <= k < MaxAttempts
      ensures Succeeds(outcomes + later, k) == Succeeds(outcomes[..MaxAttempts], k)
    {
      assert (outcomes + later)[k] == outcomes[..MaxAttempts][k];
    }
  }

  /** What `new URL(u)` yields, as far as the downloader looks at it: the path, and
      whether the query has an `RCID` parameter (`extractRCID(u) != null`). */
  datatype Url = Url(pathname: string, hasRcid: bool)

  /** The fields of the recording-stream answer the downloader reads; `None` where
      the field is missing, which makes the property access at line 181 or 203 throw. */
  datatype RecordingInfo = RecordingInfo(recordName: Option<string>, createTime: CreateTime,
                                         stream: Option<StreamOption>)

  /** The status and body of an HTTP answer. */
  datatype HttpReply = HttpReply(status: int, body: string)

  /** The outside world. `parseUrl` is `new URL(...)` (None: it throws); `fetch` is
      the HTTP request to an address (None: no answer at all); `parseJson` is
      `JSON.parse` of the stream answer (None: it throws); `parseManifest` is the file
      name at `HTML5Pipeline.RecordingXML[0].Screen[0].Sequence[0]._` of the XML
      manifest (None: the XML is malformed or the path is missing). */
  datatype World = World(
    parseUrl: string -> Option<Url>,
    fetch: string -> Option<HttpReply>,
    parseJson: string -> Option<RecordingInfo>,
    parseManifest: string -> Option<string>)

  /** `doRequest` (lines 505-515): the body of the answer when there is one and its
      status is 200 or 403; None (the promise is rejected) otherwise. */
  function DoRequest(w: World, url: string): (r: Option<string>)
    ensures r.Some? <==> w.fetch(url).Some? && (w.fetch(url).value.status == 200 || w.fetch(url).value.status == 403)
    ensures r.Some? ==> r.value == w.fetch(url).value.body
  {
    match w.fetch(url)
    case None => None
    case Some(reply) => if reply.status == 200 || reply.status == 403 then Some(reply.body) else None
  }

  /** One link, with the outcomes of the runs of `aria2c` for it and of `ffmpeg`. */
  datatype Item = Item(url: string, downloads: seq<bool>, remuxOk: bool)

  /** Everything known about a link once its manifest has been read. */
  datatype Located = Located(videoUrl: string, videoId: string, title: string,
                             stream: StreamOption, filename: string)

  /** How the handling of a link before the download ends: skipped (empty link),
      recorded as not downloaded, stopped by an uncaught exception, or located. */
  datatype Lookup = Skipped | Failed(reported: string) | Crashed | Found(located: Located)

  /** The link after the redirect step (lines 144-153): unchanged when it has no
      `RCID`, else the address the page redirects to. None when an exception reaches
      the handler at line 167: `new URL` throws, the request fails, or the page has
      no redirect. */
  function Redirected(url: string, w: World): (r: Option<string>)
    ensures w.parseUrl(url).None? ==> r.None?
    ensures w.parseUrl(url).Some? && !w.parseUrl(url).value.hasRcid ==> r == Some(url)
    ensures w.parseUrl(url).Some? && w.parseUrl(url).value.hasRcid ==>
              (r.Some? <==> DoRequest(w, url).Some? && GetRedirectUrl(DoRequest(w, url).value).Some?)
    ensures w.parseUrl(url).Some? && w.parseUrl(url).value.hasRcid && r.Some? ==>
              r == GetRedirectUrl(DoRequest(w, url).value)
    ensures r.Some? && r.value != url ==> exists body :: DoRequest(w, url) == Some(body) && GetRedirectUrl(body) == r
  {
    match w.parseUrl(url)
    case None => None
    case Some(u) =>
      if !u.hasRcid then Some(url)
      else
        match DoRequest(w, url)
        case None => None
        case Some(body) => GetRedirectUrl(body)
  }

  /** `extractVideoID(videoUrl)`, None both when `new URL` throws and when no segment
      qualifies (both end with the link recorded). */
  function VideoIdOf(videoUrl: string, w: World): (r: Option<string>)
    ensures w.parseUrl(videoUrl).None? ==> r.None?
    ensures w.parseUrl(videoUrl).Some? ==> r == ExtractVideoId(w.parseUrl(videoUrl).value.pathname)
    ensures r.Some? ==> |r.value| == IdLength
  {
    match w.parseUrl(videoUrl)
    case None => None
    case Some(u) => ExtractVideoId(u.pathname)
  }

  /** A link as the main loop handles it up to the manifest's file name (lines
      139-222): the empty link is skipped, and a link whose redirect step fails is
      recorded as given. */
  function Locate(url: string, w: World): (r: Lookup)
    ensures r.Skipped? <==> url == ""
    ensures r.Failed? ==> r.reported == url || Redirected(url, w) == Some(r.reported)
    ensures r.Found? ==> Redirected(url, w) == Some(r.located.videoUrl)
    ensures r.Found? ==> VideoIdOf(r.located.videoUrl, w) == Some(r.located.videoId)
    ensures r.Found? ==> NoIllegal(r.located.title)
  {
    if url == "" then Skipped
    else
      match Redirected(url, w)
      case None => Failed(url)
      case Some(videoUrl) => LocateVideo(videoUrl, w)
  }

  /** The (redirected) link from its video id to the parsed answer of the
      recording-stream API (lines 155-178): a failure here records the link. */
  function LocateVideo(videoUrl: string, w: World): (r: Lookup)
    ensures !r.Skipped?
    ensures r.Failed? ==> r.reported == videoUrl
    ensures r.Found? ==> r.located.videoUrl == videoUrl
    ensures r.Found? ==> VideoIdOf(videoUrl, w) == Some(r.located.videoId)
    ensures r.Found? ==> NoIllegal(r.located.title)
  {
    match VideoIdOf(videoUrl, w)
    case None => Failed(videoUrl)
    case Some(videoId) =>
      match DoRequest(w, RecordingApiUrl(videoId))
      case None => Failed(videoUrl)
      case Some(response) =>
        match w.parseJson(response)
        case None => Failed(videoUrl)
        case Some(info) => LocateRecording(videoUrl, videoId, info, w)
  }

  /** The answer's fields, the title and the manifest (lines 181-222): a missing
      `recordName` or `mp4StreamOption` and an unreadable manifest throw, a failing
      manifest request records the link. */
  function LocateRecording(videoUrl: string, videoId: string, info: RecordingInfo, w: World): (r: Lookup)
    ensures !r.Skipped?
    ensures r.Crashed? <==> info.recordName.None? || info.stream.None? ||
                            (DoRequest(w, Html5ApiUrl(info.stream.value)).Some? &&
                             w.parseManifest(DoRequest(w, Html5ApiUrl(info.stream.value)).value).None?)
    ensures r.Failed? ==> r.reported == videoUrl
    ensures r.Found? ==> r.located.videoUrl == videoUrl && r.located.videoId == videoId
    ensures r.Found? ==> NoIllegal(r.located.title)
  {
    if info.recordName.None? || info.stream.None? then Crashed
    else
      var title := BuildTitle(info.recordName.value, info.createTime);
      match DoRequest(w, Html5ApiUrl(info.stream.value))
      case None => Failed(videoUrl)
      case Some(xml) =>
        match w.parseManifest(xml)
        case None => Crashed
        case Some(filename) => Found(Located(videoUrl, videoId, title, info.stream.value, filename))
  }

  /** The `.mp4` gate of line 224 applied to a located link: only a manifest file name
      ending in `.mp4` goes on to a download routine; any other is recorded under
      the (possibly redirected) link. */
  function ResolveItem(url: string, w: World): (r: Lookup)
    ensures r.Found? ==> r == Locate(url, w) && PassesMp4Gate(r.located.filename)
    ensures Locate(url, w).Found? && !PassesMp4Gate(Locate(url, w).located.filename) ==>
              r == Failed(Locate(url, w).located.videoUrl)
    ensures Locate(url, w).Found? && PassesMp4Gate(Locate(url, w).located.filename) ==> r == Locate(url, w)
    ensures !Locate(url, w).Found? ==> r == Locate(url, w)
  {
    match Locate(url, w)
    case Found(l) => if PassesMp4Gate(l.filename) then Found(l) else Failed(l.videoUrl)
    case other => other
  }

  datatype DirectParams = DirectParams(mp4DirectDownloadUrl: string, title: string, videoUrl: string)
  datatype SegmentedParams = SegmentedParams(src: string, title: string, videoUrl: string, videoId: string)

  /** The `params` handed to one of the two routines (lines 230-247). */
  datatype Plan = Direct(direct: DirectParams) | Segmented(segmented: SegmentedParams)

  /** The download parameters of a located link: the direct routine unless the
      segmented mode is on, the address ending in the manifest's file name. */
  function PlanFor(l: Located, segmented: bool): (p: Plan)
    ensures p.Direct? <==> !segmented
    ensures p.Direct? ==> StartsWith(p.direct.mp4DirectDownloadUrl, DirectPrefix) &&
                          EndsWith(p.direct.mp4DirectDownloadUrl, "&fileName=" + l.filename) &&
                          p.direct.title == l.title && p.direct.videoUrl == l.videoUrl
    ensures p.Direct? ==> p.direct.mp4DirectDownloadUrl == DirectDownloadUrl(l.stream, l.filename)
    ensures p.Segmented? ==> StartsWith(p.segmented.src, HlsPrefix) &&
                             EndsWith(p.segmented.src, "/fileName/" + l.filename + ".m3u8") &&
                             p.segmented.title == l.title && p.segmented.videoUrl == l.videoUrl &&
                             p.segmented.videoId == l.videoId
    ensures p.Segmented? ==> p.segmented.src == SegmentedSrc(l.stream, l.filename)
  {
    if !segmented then Direct(DirectParams(DirectDownloadUrl(l.stream, l.filename), l.title, l.videoUrl))
    else Segmented(SegmentedParams(SegmentedSrc(l.stream, l.filename), l.title, l.videoUrl, l.videoId))
  }

  /** What handling a link does to `notDownloaded` (the entries appended) and
      whether an uncaught exception ends the loop. */
  datatype Effect = Effect(appended: seq<string>, halted: bool)

  /** The effect of a download routine. Direct: the link is recorded when all runs of
      `aria2c` fail. Segmented: it is recorded when the playlist cannot be fetched or
      all runs fail; a failing `ffmpeg` throws out of the loop. */
  function DownloadEffect(p: Plan, w: World, downloads: seq<bool>, remuxOk: bool): (e: Effect)
    ensures |e.appended| <= 1 && (e.halted ==> e.appended == [])
    ensures p.Direct? ==> !e.halted && (e.appended != [] <==> GivesUp(downloads))
    ensures p.Direct? && e.appended != [] ==> e.appended == [p.direct.videoUrl]
    ensures p.Segmented? ==> (e.appended != [] <==> DoRequest(w, p.segmented.src).None? || GivesUp(downloads))
    ensures p.Segmented? ==> (e.halted <==> DoRequest(w, p.segmented.src).Some? && !GivesUp(downloads) && !remuxOk)
    ensures p.Segmented? && e.appended != [] ==> e.appended == [p.segmented.videoUrl]
  {
    match p
    case Direct(d) => Effect(if GivesUp(downloads) then [d.videoUrl] else [], false)
    case Segmented(s) =>
      if DoRequest(w, s.src).None? || GivesUp(downloads) then Effect([s.videoUrl], false)
      else Effect([], !remuxOk)
  }

  /** What handling one link does, start to end. */
  function ItemEffect(item: Item, w: World, segmented: bool): (e: Effect)
    ensures item.url == "" ==> e == Effect([], false)
    ensures |e.appended| <= 1 && (e.halted ==> e.appended == [])
  {
    match ResolveItem(item.url, w)
    case Skipped => Effect([], false)
    case Failed(u) => Effect([u], false)
    case Crashed => Effect([], true)
    case Found(l) => DownloadEffect(PlanFor(l, segmented), w, item.downloads, item.remuxOk)
  }

  /** One link adds at most one entry, an empty link none, a link that stops the
      loop none; the entry is the link or the address it redirects to. */
  lemma ItemEffectShape(item: Item, w: World, segmented: bool)
    ensures var e := ItemEffect(item, w, segmented);
      (item.url == "" ==> e == Effect([], false)) &&
      |e.appended| <= 1 && (e.halted ==> e.appended == []) &&
      (e.appended != [] ==> Reportable(item.url, w, e.appended[0]))
  {
    match ResolveItem(item.url, w)
    case Found(l) =>
      var p := PlanFor(l, segmented);
      assert p.Direct? ==> p.direct.videoUrl == l.videoUrl;
    case _ =>
  }

  /** A located link whose manifest file name does not end in `.mp4` is recorded,
      under the address it was located at, and never downloaded. */
  lemma NonMp4Recorded(item: Item, w: World, segmented: bool)
    ensures Locate(item.url, w).Found? && !PassesMp4Gate(Locate(item.url, w).located.filename) ==>
              ItemEffect(item, w, segmented) == Effect([Locate(item.url, w).located.videoUrl], false)
  {
  }

  /** A located `.mp4` link in direct mode is recorded exactly when every run of the
      download fails. */
  lemma DirectOutcome(item: Item, w: World)
    ensures Locate(item.url, w).Found? && PassesMp4Gate(Locate(item.url, w).located.filename) ==>
              (ItemEffect(item, w, false) ==
               Effect(if GivesUp(item.downloads) then [Locate(item.url, w).located.videoUrl] else [], false))
  {
  }

  /** A located `.mp4` link in segmented mode is recorded exactly when its playlist
      cannot be fetched or every run of the download fails, and it stops the loop
      exactly when the segments were downloaded but `ffmpeg` fails. */
  lemma SegmentedOutcome(item: Item, w: World)
    ensures Locate(item.url, w).Found? && PassesMp4Gate(Locate(item.url, w).located.filename) ==>
              var l := Locate(item.url, w).located;
              var src := SegmentedSrc(l.stream, l.filename);
              var e := ItemEffect(item, w, true);
              (e.appended != [] <==> DoRequest(w, src).None? || GivesUp(item.downloads)) &&
              (e.appended != [] ==> e.appended == [l.videoUrl]) &&
              (e.halted <==> DoRequest(w, src).Some? && !GivesUp(item.downloads) && !item.remuxOk)
  {
  }

  /** Where the handling of a non-empty link goes wrong before the recording is
      looked up: a failing redirect step records the link as given, a missing video
      id records the (redirected) link. */
  lemma LinkRecordedOnFailure(item: Item, w: World, segmented: bool)
    ensures item.url != "" && Redirected(item.url, w).None? ==>
              ItemEffect(item, w, segmented) == Effect([item.url], false)
    ensures item.url != "" && Redirected(item.url, w).Some? &&
            VideoIdOf(Redirected(item.url, w).value, w).None? ==>
              ItemEffect(item, w, segmented) == Effect([Redirected(item.url, w).value], false)
  {
    if item.url != "" && Redirected(item.url, w).None? {
      assert Locate(item.url, w) == Failed(item.url);
    }
  }

  /** A failing request to the recording-stream API, or an answer `JSON.parse`
      rejects, records the (redirected) link. */
  lemma LinkRecordedOnBadAnswer(item: Item, w: World, segmented: bool, v: string, id: string)
    requires item.url != "" && Redirected(item.url, w) == Some(v) && VideoIdOf(v, w) == Some(id)
    ensures DoRequest(w, RecordingApiUrl(id)).None? ==> ItemEffect(item, w, segmented) == Effect([v], false)
    ensures DoRequest(w, RecordingApiUrl(id)).Some? && w.parseJson(DoRequest(w, RecordingApiUrl(id)).value).None? ==>
              ItemEffect(item, w, segmented) == Effect([v], false)
  {
  }

  /** Once the answer is read, a missing `recordName` or `mp4StreamOption` throws out
      of the loop and records nothing. */
  lemma LinkHaltsOnMissingField(item: Item, w: World, segmented: bool, v: string, id: string, info: RecordingInfo)
    requires item.url != "" && Redirected(item.url, w) == Some(v) && VideoIdOf(v, w) == Some(id)
    requires DoRequest(w, RecordingApiUrl(id)).Some? && w.parseJson(DoRequest(w, RecordingApiUrl(id)).value) == Some(info)
    ensures info.recordName.None? || info.stream.None? ==> ItemEffect(item, w, segmented) == Effect([], true)
  {
    if info.recordName.None? || info.stream.None? {
      assert Locate(item.url, w) == Crashed;
    }
  }

  /** A failing manifest request records the (redirected) link. */
  lemma LinkRecordedOnManifestFailure(item: Item, w: World, segmented: bool, v: string, id: string, info: RecordingInfo)
    requires item.url != "" && Redirected(item.url, w) == Some(v) && VideoIdOf(v, w) == Some(id)
    requires DoRequest(w, RecordingApiUrl(id)).Some? && w.parseJson(DoRequest(w, RecordingApiUrl(id)).value) == Some(info)
    ensures info.recordName.Some? && info.stream.Some? && DoRequest(w, Html5ApiUrl(info.stream.value)).None? ==>
              ItemEffect(item, w, segmented) == Effect([v], false)
  {
    if info.recordName.Some? && info.stream.Some? && DoRequest(w, Html5ApiUrl(info.stream.value)).None? {
      assert Locate(item.url, w) == Failed(v);
    }
  }

  /** An unreadable manifest throws out of the loop and records nothing. */
  lemma LinkHaltsOnBadManifest(item: Item, w: World, segmented: bool, v: string, id: string, info: RecordingInfo)
    requires item.url != "" && Redirected(item.url, w) == Some(v) && VideoIdOf(v, w) == Some(id)
    requires DoRequest(w, RecordingApiUrl(id)).Some? && w.parseJson(DoRequest(w, RecordingApiUrl(id)).value) == Some(info)
    ensures info.recordName.Some? && info.stream.Some? && DoRequest(w, Html5ApiUrl(info.stream.value)).Some? &&
            w.parseManifest(DoRequest(w, Html5ApiUrl(info.stream.value)).value).None? ==>
              ItemEffect(item, w, segmented) == Effect([], true)
  {
    if info.recordName.Some? && info.stream.Some? && DoRequest(w, Html5ApiUrl(info.stream.value)).Some? &&
       w.parseManifest(DoRequest(w, Html5ApiUrl(info.stream.value)).value).None? {
      assert Locate(item.url, w) == Crashed;
    }
  }

  /** A non-empty link whose every step succeeds is located, with the redirect
      target, its video id, the title built from the answer, the answer's stream
      triple and the manifest's file name; when that name ends in `.mp4`, the link is
      handed to the download routine its mode selects, and otherwise it is recorded. */
  lemma LinkLocated(item: Item, w: World, segmented: bool, v: string, id: string, info: RecordingInfo, f: string)
    requires item.url != "" && Redirected(item.url, w) == Some(v) && VideoIdOf(v, w) == Some(id)
    requires DoRequest(w, RecordingApiUrl(id)).Some? && w.parseJson(DoRequest(w, RecordingApiUrl(id)).value) == Some(info)
    requires info.recordName.Some? && info.stream.Some?
    requires DoRequest(w, Html5ApiUrl(info.stream.value)).Some?
    requires w.parseManifest(DoRequest(w, Html5ApiUrl(info.stream.value)).value) == Some(f)
    ensures Locate(item.url, w) ==
              Found(Located(v, id, BuildTitle(info.recordName.value, info.createTime), info.stream.value, f))
    ensures PassesMp4Gate(f) ==>
              ItemEffect(item, w, segmented) ==
              DownloadEffect(PlanFor(Located(v, id, BuildTitle(info.recordName.value, info.createTime), info.stream.value, f), segmented),
                             w, item.downloads, item.remuxOk)
    ensures !PassesMp4Gate(f) ==> ItemEffect(item, w, segmented) == Effect([v], false)
  {
    var l := Located(v, id, BuildTitle(info.recordName.value, info.createTime), info.stream.value, f);
    StepsSucceed(item.url, w, v, id, info, f);
    FoundHandedOn(item, w, segmented, l);
  }

  /** The steps of `LinkLocated`, stage by stage. */
  lemma StepsSucceed(url: string, w: World, v: string, id: string, info: RecordingInfo, f: string)
    requires url != "" && Redirected(url, w) == Some(v) && VideoIdOf(v, w) == Some(id)
    requires DoRequest(w, RecordingApiUrl(id)).Some? && w.parseJson(DoRequest(w, RecordingApiUrl(id)).value) == Some(info)
    requires info.recordName.Some? && info.stream.Some?
    requires DoRequest(w, Html5ApiUrl(info.stream.value)).Some?
    requires w.parseManifest(DoRequest(w, Html5ApiUrl(info.stream.value)).value) == Some(f)
    ensures Locate(url, w) ==
              Found(Located(v, id, BuildTitle(info.recordName.value, info.createTime), info.stream.value, f))
  {
    RedirectStage(url, w, v);
    VideoStage(v, w, id, info);
    RecordingStage(v, id, info, w, f);
  }

  lemma RedirectStage(url: string, w: World, v: string)
    requires url != "" && Redirected(url, w) == Some(v)
    ensures Locate(url, w) == LocateVideo(v, w)
  {
  }

  lemma VideoStage(v: string, w: World, id: string, info: RecordingInfo)
    requires VideoIdOf(v, w) == Some(id)
    requires DoRequest(w, RecordingApiUrl(id)).Some? && w.parseJson(DoRequest(w, RecordingApiUrl(id)).value) == Some(info)
    ensures LocateVideo(v, w) == LocateRecording(v, id, info, w)
  {
  }

  lemma RecordingStage(v: string, id: string, info: RecordingInfo, w: World, f: string)
    requires info.recordName.Some? && info.stream.Some?
    requires DoRequest(w, Html5ApiUrl(info.stream.value)).Some?
    requires w.parseManifest(DoRequest(w, Html5ApiUrl(info.stream.value)).value) == Some(f)
    ensures LocateRecording(v, id, info, w) ==
              Found(Located(v, id, BuildTitle(info.recordName.value, info.createTime), info.stream.value, f))
  {
  }

  /** A located link goes to the download routine of its mode when its file name ends
      in `.mp4`, and is recorded under its address otherwise. */
  lemma FoundHandedOn(item: Item, w: World, segmented: bool, l: Located)
    requires Locate(item.url, w) == Found(l)
    ensures PassesMp4Gate(l.filename) ==>
              ItemEffect(item, w, segmented) == DownloadEffect(PlanFor(l, segmented), w, item.downloads, item.remuxOk)
    ensures !PassesMp4Gate(l.filename) ==> ItemEffect(item, w, segmented) == Effect([l.videoUrl], false)
  {
  }

  /** What a located link carries: the title built from the recording's name and
      creation time, the stream triple of the answer, and the file name the
      manifest of that triple names. */
  lemma LocatedLink(url: string, w: World)
    ensures Locate(url, w).Found? ==>
              var l := Locate(url, w).located;
              var api := DoRequest(w, RecordingApiUrl(l.videoId));
              api.Some? && w.parseJson(api.value).Some? &&
              var info := w.parseJson(api.value).value;
              info.recordName.Some? && info.stream == Some(l.stream) &&
              l.title == BuildTitle(info.recordName.value, info.createTime) &&
              DoRequest(w, Html5ApiUrl(l.stream)).Some? &&
              w.parseManifest(DoRequest(w, Html5ApiUrl(l.stream)).value) == Some(l.filename)
  {
  }

  /** An entry of `notDownloaded` for a link: the link itself, or the address it
      redirects to. */
  predicate Reportable(url: string, w: World, u: string) {
    u == url || Redirected(url, w) == Some(u)
  }

  /** One more link after `before`: nothing happens once the loop has stopped. */
  function Step(before: Effect, e: Effect): Effect {
    if before.halted then before else Effect(before.appended + e.appended, e.halted)
  }

  /** The effect of the main loop over `items`: the entries of every link, in order,
      up to the first uncaught exception, after which nothing more happens. */
  function RunEffect(items: seq<Item>, w: World, segmented: bool): Effect
    decreases |items|
  {
    if |items| == 0 then Effect([], false)
    else Step(RunEffect(items[..|items| - 1], w, segmented), ItemEffect(items[|items| - 1], w, segmented))
  }

  lemma RunEffectPrefix(items: seq<Item>, i: nat, w: World, segmented: bool)
    requires i < |items|
    ensures RunEffect(items[..i + 1], w, segmented)
         == Step(RunEffect(items[..i], w, segmented), ItemEffect(items[i], w, segmented))
  {
    assert items[..i + 1][..i] == items[..i];
  }

  /** One more link while the loop is still running: its entries follow the
      earlier ones, and it alone decides whether the loop stops. */
  lemma RunEffectStep(items: seq<Item>, i: nat, w: World, segmented: bool)
    requires i < |items| && !RunEffect(items[..i], w, segmented).halted
    ensures RunEffect(items[..i + 1], w, segmented).appended
         == RunEffect(items[..i], w, segmented).appended + ItemEffect(items[i], w, segmented).appended
    ensures RunEffect(items[..i + 1], w, segmented).halted == ItemEffect(items[i], w, segmented).halted
  {
    RunEffectPrefix(items, i, w, segmented);
  }

  /** The main loop's step as the list it updates sees it: a list that held the
      earlier links' entries and then received this link's holds the entries of
      the first i + 1 links. */
  lemma LoopAdvance(items: seq<Item>, i: nat, w: World, segmented: bool, start: seq<string>, now: seq<string>)
    requires i < |items| && !RunEffect(items[..i], w, segmented).halted
    requires now == start + RunEffect(items[..i], w, segmented).appended + ItemEffect(items[i], w, segmented).appended
    ensures now == start + RunEffect(items[..i + 1], w, segmented).appended
    ensures RunEffect(items[..i + 1], w, segmented).halted == ItemEffect(items[i], w, segmented).halted
  {
    RunEffectStep(items, i, w, segmented);
    AppendGrouped(start, RunEffect(items[..i], w, segmented).appended, ItemEffect(items[i], w, segmented).appended);
  }

  lemma AppendGrouped(start: seq<string>, done: seq<string>, more: seq<string>)
    ensures start + done + more == start + (done + more)
  {
  }

  /** The number of non-empty links. */
  function NonEmptyCount(items: seq<Item>): nat
    decreases |items|
  {
    if |items| == 0 then 0
    else NonEmptyCount(items[..|items| - 1]) + (if items[|items| - 1].url == "" then 0 else 1)
  }

  /** The links without the empty ones, in order. */
  function DropEmpty(items: seq<Item>): (r: seq<Item>)
    ensures |r| == NonEmptyCount(items)
    ensures forall i :: 0 <= i < |r| ==> r[i].url != ""
    decreases |items|
  {
    if |items| == 0 then []
    else if items[|items| - 1].url == "" then DropEmpty(items[..|items| - 1])
    else DropEmpty(items[..|items| - 1]) + [items[|items| - 1]]
  }

  /** The links kept are exactly the non-empty ones. */
  lemma {:induction false} DropEmptyMembers(items: seq<Item>)
    ensures forall it :: it in DropEmpty(items) <==> it in items && it.url != ""
    decreases |items|
  {
    if |items| > 0 {
      var init := items[..|items| - 1];
      var last := items[|items| - 1];
      DropEmptyMembers(init);
      assert items == init + [last];
    }
  }

  /** Adding one link at the end keeps it exactly when it is non-empty. */
  lemma DropEmptySnoc(s: seq<Item>, x: Item)
    ensures DropEmpty(s + [x]) == DropEmpty(s) + (if x.url == "" then [] else [x])
  {
    var sx := s + [x];
    assert sx[..|sx| - 1] == s && sx[|sx| - 1] == x;
  }

  /** Dropping the empty links keeps the order: it works piece by piece. */
  lemma {:induction false} DropEmptyAppend(a: seq<Item>, b: seq<Item>)
    ensures DropEmpty(a + b) == DropEmpty(a) + DropEmpty(b)
    decreases |b|
  {
    if |b| == 0 {
      assert a + b == a;
    } else {
      var init := b[..|b| - 1];
      var last := b[|b| - 1];
      assert b == init + [last];
      assert a + b == (a + init) + [last];
      DropEmptySnoc(init, last);
      DropEmptySnoc(a + init, last);
      DropEmptyAppend(a, init);
    }
  }

  /** Once the loop has been stopped, later links change nothing. */
  lemma {:induction false} HaltedStaysHalted(items: seq<Item>, i: nat, w: World, segmented: bool)
    requires i <= |items|
    requires RunEffect(items[..i], w, segmented).halted
    ensures RunEffect(items, w, segmented) == RunEffect(items[..i], w, segmented)
    decreases |items| - i
  {
    if i < |items| {
      assert items[..|items| - 1][..i] == items[..i];
      HaltedStaysHalted(items[..|items| - 1], i, w, segmented);
    } else {
      assert items[..i] == items;
    }
  }

  /** Where the main loop leaves off, at the end of the links or after an uncaught
      exception, the effect is that of the whole list. */
  lemma LoopExit(items: seq<Item>, i: nat, w: World, segmented: bool)
    requires i <= |items|
    requires i == |items| || RunEffect(items[..i], w, segmented).halted
    ensures RunEffect(items[..i], w, segmented) == RunEffect(items, w, segmented)
  {
    if i < |items| {
      HaltedStaysHalted(items, i, w, segmented);
    } else {
      assert items[..i] == items;
    }
  }

  /** At most one entry per non-empty link. */
  lemma {:induction false} AppendedBound(items: seq<Item>, w: World, segmented: bool)
    ensures |RunEffect(items, w, segmented).appended| <= NonEmptyCount(items)
    decreases |items|
  {
    if |items| > 0 {
      var init := items[..|items| - 1];
      var last := items[|items| - 1];
      AppendedBound(init, w, segmented);
      ItemEffectShape(last, w, segmented);
      assert RunEffect(items, w, segmented) == Step(RunEffect(init, w, segmented), ItemEffect(last, w, segmented));
      assert NonEmptyCount(items) == NonEmptyCount(init) + (if last.url == "" then 0 else 1);
    }
  }

  /** Every entry is one of the links, or the address one of them redirects to. */
  lemma {:induction false} AppendedAreReportable(items: seq<Item>, w: World, segmented: bool)
    ensures forall k :: 0 <= k < |RunEffect(items, w, segmented).appended| ==>
              exists i :: 0 <= i < |items| && Reportable(items[i].url, w, RunEffect(items, w, segmented).appended[k])
    decreases |items|
  {
    if |items| > 0 {
      var init := items[..|items| - 1];
      AppendedAreReportable(init, w, segmented);
      var before := RunEffect(init, w, segmented);
      var e := ItemEffect(items[|items| - 1], w, segmented);
      assert RunEffect(items, w, segmented) == Step(before, e);
      ItemEffectShape(items[|items| - 1], w, segmented);
      var all := RunEffect(items, w, segmented).appended;
      forall k | 0 <= k < |all|
        ensures exists i :: 0 <= i < |items| && Reportable(items[i].url, w, all[k])
      {
        if k < |before.appended| {
          assert all[k] == before.appended[k];
          var i :| 0 <= i < |init| && Reportable(init[i].url, w, before.appended[k]);
          assert items[i] == init[i];
        } else {
          assert all == before.appended + e.appended;
          assert all[k] == e.appended[0];
          assert Reportable(items[|items| - 1].url, w, all[k]);
        }
      }
    } else {
      assert RunEffect(items, w, segmented).appended == [];
    }
  }

  /** Empty links are skipped without a trace: dropping them changes nothing. */
  lemma {:induction false} EmptyLinksIgnored(items: seq<Item>, w: World, segmented: bool)
    ensures RunEffect(DropEmpty(items), w, segmented) == RunEffect(items, w, segmented)
    decreases |items|
  {
    if |items| > 0 {
      var init := items[..|items| - 1];
      var last := items[|items| - 1];
      EmptyLinksIgnored(init, w, segmented);
      if last.url != "" {
        var d := DropEmpty(init) + [last];
        assert d[..|d| - 1] == DropEmpty(init) && d[|d| - 1] == last;
      } else {
        ItemEffectShape(last, w, segmented);
        assert RunEffect(init, w, segmented).appended + [] == RunEffect(init, w, segmented).appended;
      }
    }
  }

  /** The contents of `video_full.m3u8` and `video_tmp.m3u8`. */
  datatype Rewritten = Rewritten(full: string, tmp: string)

  /** The state the downloader keeps across links: `notDownloaded`. */
  class Session {
    var notDownloaded: seq<string>

    constructor()
      ensures notDownloaded == []
    {
      notDownloaded := [];
    }

    /** `directDownload`: the link is recorded once when every run fails, and
        `notDownloaded` is left alone otherwise. */
    method DirectDownload(params: DirectParams, downloads: seq<bool>)
      modifies this
      ensures notDownloaded == old(notDownloaded) + (if GivesUp(downloads) then [params.videoUrl] else [])
    {
      var count := RetryLoop(downloads);
      if count == MaxAttempts {
        notDownloaded := notDownloaded + [params.videoUrl];
      }
    }

    /** `segmentedDownload`: fetch the playlist, write its two rewrites, run
        `aria2c` until it succeeds, then `ffmpeg`. Returns whether `ffmpeg` threw and
        the two rewritten playlists when the playlist was fetched. */
    method SegmentedDownload(params: SegmentedParams, w: World, downloads: seq<bool>, remuxOk: bool)
      returns (crashed: bool, playlists: Option<Rewritten>)
      modifies this
      ensures var e := DownloadEffect(Segmented(params), w, downloads, remuxOk);
        notDownloaded == old(notDownloaded) + e.appended && crashed == e.halted
      ensures DoRequest(w, params.src).None? ==> playlists.None?
      ensures DoRequest(w, params.src).Some? ==>
        playlists == Some(Rewritten(ReplaceSegments(DoRequest(w, params.src).value, BaseUri(params.src)),
                                    ReplaceSegments(DoRequest(w, params.src).value, SegmentsDir)))
    {
      crashed := false;
      var response := DoRequest(w, params.src);
      if response.None? {
        notDownloaded := notDownloaded + [params.videoUrl];
        playlists := None;
        return;
      }
      var baseUri := BaseUri(params.src);
      var videoFull := ReplaceSegments(response.value, baseUri);
      var videoTmp := ReplaceSegments(response.value, SegmentsDir);
      playlists := Some(Rewritten(videoFull, videoTmp));
      var count := RetryLoop(downloads);
      if count == MaxAttempts {
        notDownloaded := notDownloaded + [params.videoUrl];
        return;
      }
      crashed := !remuxOk;
    }

    /** The body of the main loop for one link. */
    method DownloadItem(item: Item, w: World, segmented: bool) returns (crashed: bool)
      modifies this
      ensures notDownloaded == old(notDownloaded) + ItemEffect(item, w, segmented).appended
      ensures crashed == ItemEffect(item, w, segmented).halted
    {
      crashed := false;
      match ResolveItem(item.url, w)
      case Skipped =>
      case Failed(u) =>
        notDownloaded := notDownloaded + [u];
      case Crashed =>
        crashed := true;
      case Found(l) =>
        var plan := PlanFor(l, segmented);
        match plan
        case Direct(d) =>
          DirectDownload(d, item.downloads);
        case Segmented(s) =>
          var playlists;
          crashed, playlists := SegmentedDownload(s, w, item.downloads, item.remuxOk);
    }

    /** `for (let videoUrl of videoUrls)` in `downloadVideo`: `notDownloaded` only
        grows, by the entries of each link in turn, and an uncaught exception ends
        the loop. */
    method DownloadVideo(items: seq<Item>, w: World, segmented: bool) returns (crashed: bool)
      modifies this
      ensures notDownloaded == old(notDownloaded) + RunEffect(items, w, segmented).appended
      ensures crashed == RunEffect(items, w, segmented).halted
    {
      crashed := false;
      var i := 0;
      while i < |items| && !crashed
        invariant 0 <= i <= |items|
        invariant notDownloaded == old(notDownloaded) + RunEffect(items[..i], w, segmented).appended
        invariant crashed == RunEffect(items[..i], w, segmented).halted
      {
        crashed := DownloadItem(items[i], w, segmented);
        LoopAdvance(items, i, w, segmented, old(notDownloaded), notDownloaded);
        i := i + 1;
      }
      LoopExit(items, i, w, segmented);
    }
  }
}
