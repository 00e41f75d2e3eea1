/**
 * The locators the downloader derives for a recording (poliwebex.js lines
 * 203-247): from the `mp4StreamOption` triple (recordingDir, timestamp, token), the
 * address of the XML manifest, the direct MP4 download address and the HLS
 * playlist address. All of them are plain string concatenations; the
 * fields enter as the strings JavaScript's `+` turns them into.
 */
module Locators {
  import opened Strings

  /** `obj.mp4StreamOption` of the recording-stream API's answer. */
  datatype StreamOption = StreamOption(recordingDir: string, timestamp: string, token: string)

  /** The Webex media host the recording files are served from. */
  const WebexHost := "https://nfg1vss.webex.com/"
  const DirectPrefix := WebexHost + "apis/download.do?recordingDir="
  const Html5Prefix := WebexHost + "apis/html5-pipeline.do?recordingDir="
  const HlsPrefix := "https://nfg1vss.webex.com/hls-vod/recordingDir/"

  const ApiPrefix := "https://politecnicomilano.webex.com/webappng/api/v1/recordings/"
  const ApiSuffix := "/stream?siteurl=politecnicomilano"

  /** The recording-stream API address of a video (line 163): the id sits between a
      fixed prefix and a fixed suffix. */
  function RecordingApiUrl(videoId: string): (url: string)
    ensures |url| == |ApiPrefix| + |videoId| + |ApiSuffix|
    ensures url[..|ApiPrefix|] == ApiPrefix
    ensures url[|ApiPrefix|..|ApiPrefix| + |videoId|] == videoId
    ensures url[|ApiPrefix| + |videoId|..] == ApiSuffix
  {
    ApiPrefix + videoId + ApiSuffix
  }

  /** Different ids are looked up at different addresses. */
  lemma RecordingApiUrlInjective(a: string, b: string)
    requires RecordingApiUrl(a) == RecordingApiUrl(b)
    ensures a == b
  {
    assert |a| == |b|;
  }

  /** `html5ApiUrl` (line 207): where the XML manifest of the recording is fetched. The
      address lies on the Webex media host, starts with the recording directory and
      always asks for `recording.xml`. */
  function Html5ApiUrl(o: StreamOption): (url: string)
    ensures StartsWith(url, Html5Prefix + o.recordingDir + "&timestamp=")
    ensures EndsWith(url, "&xmlName=recording.xml")
  {
    var head := Html5Prefix + o.recordingDir + "&timestamp=";
    var url := head + o.timestamp + "&token=" + o.token + "&xmlName=recording.xml";
    assert url == head + (o.timestamp + "&token=" + o.token + "&xmlName=recording.xml");
    assert url == (head + o.timestamp + "&token=" + o.token) + "&xmlName=recording.xml";
    url
  }

  /** `mp4DirectDownloadUrl` (line 231). */
  function DirectDownloadUrl(o: StreamOption, filename: string): (url: string)
    ensures StartsWith(url, DirectPrefix)
    ensures EndsWith(url, "&fileName=" + filename)
  {
    var url := DirectPrefix + o.recordingDir + "&timestamp=" + o.timestamp + "&token=" + o.token + "&fileName=" + filename;
    assert url == (DirectPrefix + o.recordingDir + "&timestamp=" + o.timestamp + "&token=" + o.token) + ("&fileName=" + filename);
    url
  }

  /** `src` of the segmented download (line 239): the HLS playlist of the recording. */
  function SegmentedSrc(o: StreamOption, filename: string): (src: string)
    ensures StartsWith(src, HlsPrefix)
    ensures EndsWith(src, "/fileName/" + filename + ".m3u8")
  {
    var src := HlsPrefix + o.recordingDir + "/timestamp/" + o.timestamp + "/token/" + o.token + "/fileName/" + filename + ".m3u8";
    assert src == (HlsPrefix + o.recordingDir + "/timestamp/" + o.timestamp + "/token/" + o.token) + ("/fileName/" + filename + ".m3u8");
    src
  }

  /** The gate of line 224: only a manifest whose file name ends with `.mp4` is downloaded. */
  predicate PassesMp4Gate(filename: string): (b: bool)
    ensures b <==> exists stem :: filename == stem + ".mp4"
  {
    if EndsWith(filename, ".mp4") then
      assert filename == filename[..|filename| - 4] + ".mp4";
      true
    else
      false
  }

  /** A query `<head>=<v1>&timestamp=<v2>&token=<v3>&<last>` regrouped one separator at a time. */
  lemma QueryNested(head: string, rd: string, ts: string, tok: string, last: string)
    ensures head + rd + "&timestamp=" + ts + "&token=" + tok + "&" + last
         == (head + rd) + "&" + (("timestamp=" + ts) + "&" + (("token=" + tok) + "&" + last))
  {
  }

  /** Splitting such a query at '&' gives back its four fields, in order, when no value
      holds an '&'. */
  lemma QueryFields(head: string, rd: string, ts: string, tok: string, last: string)
    requires '&' !in head && '&' !in rd && '&' !in ts && '&' !in tok && '&' !in last
    ensures Split(head + rd + "&timestamp=" + ts + "&token=" + tok + "&" + last, '&')
         == [head + rd, "timestamp=" + ts, "token=" + tok, last]
  {
    var q3 := [last];
    var q2 := ["token=" + tok] + q3;
    var q1 := ["timestamp=" + ts] + q2;
    var q0 := [head + rd] + q1;
    assert q2[1..] == q3 && q1[1..] == q2 && q0[1..] == q1;
    assert Join(q2, '&') == ("token=" + tok) + "&" + last;
    assert Join(q1, '&') == ("timestamp=" + ts) + "&" + Join(q2, '&');
    assert Join(q0, '&') == (head + rd) + "&" + Join(q1, '&');
    QueryNested(head, rd, ts, tok, last);
    assert q0 == [head + rd, "timestamp=" + ts, "token=" + tok, last];
    SplitJoin(q0, '&');
  }

  lemma HostHasNoAmpersand()
    ensures '&' !in WebexHost
  {
  }

  lemma DirectPrefixHasNoAmpersand()
    ensures '&' !in DirectPrefix
  {
    HostHasNoAmpersand();
    assert "apis/download.do?recordingDir=" == "apis/download.do?" + "recordingDir=";
    assert '&' !in "apis/download.do?";
    assert '&' !in "recordingDir=";
  }

  lemma Html5PrefixHasNoAmpersand()
    ensures '&' !in Html5Prefix
  {
    HostHasNoAmpersand();
    assert "apis/html5-pipeline.do?recordingDir=" == "apis/html5-" + "pipeline.do?" + "recordingDir=";
    assert '&' !in "apis/html5-";
    assert '&' !in "pipeline.do?";
    assert '&' !in "recordingDir=";
  }

  lemma DirectDownloadUrlGrouped(o: StreamOption, filename: string)
    ensures DirectDownloadUrl(o, filename)
         == DirectPrefix + o.recordingDir + "&timestamp=" + o.timestamp + "&token=" + o.token + "&" + ("fileName=" + filename)
  {
  }

  lemma Html5ApiUrlGrouped(o: StreamOption)
    ensures Html5ApiUrl(o)
         == Html5Prefix + o.recordingDir + "&timestamp=" + o.timestamp + "&token=" + o.token + "&" + "xmlName=recording.xml"
  {
  }

  /** The direct download address carries recordingDir, timestamp, token and fileName as
      its four query fields, and the last one is exactly the manifest's file name. */
  lemma DirectDownloadUrlFields(o: StreamOption, filename: string)
    requires '&' !in o.recordingDir && '&' !in o.timestamp && '&' !in o.token && '&' !in filename
    ensures Split(DirectDownloadUrl(o, filename), '&')
         == [DirectPrefix + o.recordingDir, "timestamp=" + o.timestamp, "token=" + o.token, "fileName=" + filename]
  {
    DirectDownloadUrlGrouped(o, filename);
    DirectPrefixHasNoAmpersand();
    assert '&' !in "fileName=" + filename;
    QueryFields(DirectPrefix, o.recordingDir, o.timestamp, o.token, "fileName=" + filename);
  }

  /** The manifest address carries the same recordingDir, timestamp and token, and asks
      for `recording.xml`. */
  lemma Html5ApiUrlFields(o: StreamOption)
    requires '&' !in o.recordingDir && '&' !in o.timestamp && '&' !in o.token
    ensures Split(Html5ApiUrl(o), '&')
         == [Html5Prefix + o.recordingDir, "timestamp=" + o.timestamp, "token=" + o.token, "xmlName=recording.xml"]
  {
    Html5ApiUrlGrouped(o);
    Html5PrefixHasNoAmpersand();
    assert '&' !in "xmlName=recording.xml";
    QueryFields(Html5Prefix, o.recordingDir, o.timestamp, o.token, "xmlName=recording.xml");
  }
}
