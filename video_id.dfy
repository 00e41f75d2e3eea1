/**
 * Video-ID extraction (`extractVideoID`): the recording API is keyed by a
 * 32-character identifier taken from the path of the playback URL. The path
 * is split at '/' and scanned left to right; the first segment that
 * qualifies decides. The WHATWG URL parser that produces the path is not
 * modelled: the pathname is the input.
 */
module VideoId {
  import opened Wrappers
  import opened Strings

  const IdLength := 32

  /** A character matched by `[a-z0-9]` under the `i` flag. */
  predicate IsAsciiAlnum(c: char) {
    'a' <= c <= 'z' || 'A' <= c <= 'Z' || '0' <= c <= '9'
  }

  /** `s.match(/^[a-z0-9]+$/i)` succeeds. */
  predicate AllAsciiAlnum(s: string) {
    |s| > 0 && forall i :: 0 <= i < |s| ==> IsAsciiAlnum(s[i])
  }

  /** What one path segment contributes: itself when it is exactly 32 characters long
      (whatever they are), its first 32 characters when it is longer and those are
      all ASCII letters or digits, and nothing otherwise. */
  function Candidate(part: string): (r: Option<string>)
    ensures r.Some? ==> |part| >= IdLength && r.value == part[..IdLength]
    ensures r.Some? <==> |part| == IdLength || (|part| > IdLength && AllAsciiAlnum(part[..IdLength]))
  {
    if |part| == IdLength then Some(part)
    else if |part| > IdLength && AllAsciiAlnum(part[..IdLength]) then Some(part[..IdLength])
    else None
  }

  /** The `for (let part of pathnameArray)` scan with its early return. */
  function FirstVideoId(parts: seq<string>): (r: Option<string>)
    ensures r.Some? ==> |r.value| == IdLength
    ensures r.None? <==> forall k :: 0 <= k < |parts| ==> Candidate(parts[k]).None?
    ensures r.Some? ==> exists k :: 0 <= k < |parts| && Candidate(parts[k]) == r &&
                         forall j :: 0 <= j < k ==> Candidate(parts[j]).None?
    decreases |parts|
  {
    if |parts| == 0 then None
    else
      match Candidate(parts[0])
      case Some(id) => Some(id)
      case None =>
        var r := FirstVideoId(parts[1..]);
        assert forall k :: 1 <= k < |parts| ==> parts[k] == parts[1..][k - 1];
        if r.Some? then
          var k' :| 0 <= k' < |parts[1..]| && Candidate(parts[1..][k']) == r &&
                    forall j :: 0 <= j < k' ==> Candidate(parts[1..][j]).None?;
          assert Candidate(parts[k' + 1]) == r;
          r
        else r
  }

  /** `extractVideoID` applied to a URL whose pathname is `pathname`. */
  function ExtractVideoId(pathname: string): (r: Option<string>)
    ensures r == FirstVideoId(Split(pathname, '/'))
    ensures r.Some? ==> |r.value| == IdLength && '/' !in r.value
  {
    var parts := Split(pathname, '/');
    var r := FirstVideoId(parts);
    if r.None? then r
    else
      assert exists k :: 0 <= k < |parts| && Candidate(parts[k]) == r;
      var k :| 0 <= k < |parts| && Candidate(parts[k]) == r;
      assert '/' !in parts[k];
      assert r.value == parts[k] || r.value == parts[k][..IdLength];
      r
  }

  /** A playback path `/recordingservice/sites/<site>/recording/playback/<id>` whose site
      name is short yields the 32-character id at its end, whatever characters it holds. */
  lemma PlaybackPathYieldsId(site: string, id: string)
    requires |site| < IdLength && '/' !in site
    requires |id| == IdLength && '/' !in id
    ensures ExtractVideoId("/recordingservice/sites/" + site + "/recording/playback/" + id) == Some(id)
  {
    var parts := ["", "recordingservice", "sites", site, "recording", "playback", id];
    PlaybackPathSplit(site, id);
    assert parts == parts[..6] + [id] + [];
    assert forall k :: 0 <= k < 6 ==> |parts[k]| < IdLength;
    FirstQualifyingSegmentDecides(parts[..6], id, []);
  }

  /** The playback path written with one concatenation per separator. */
  lemma PlaybackPathNested(site: string, id: string)
    ensures "/recordingservice/sites/" + site + "/recording/playback/" + id
         == "" + "/" + ("recordingservice" + "/" + ("sites" + "/" + (site + "/" + ("recording" + "/" + ("playback" + "/" + id)))))
  {
    PlaybackHeadPieces();
    PlaybackTailPieces();
  }

  lemma PlaybackHeadPieces()
    ensures "/recordingservice/sites/" == "" + "/" + "recordingservice" + "/" + "sites" + "/"
  {
  }

  lemma PlaybackTailPieces()
    ensures "/recording/playback/" == "/" + "recording" + "/" + "playback" + "/"
  {
  }

  /** The segments of a playback path. */
  lemma PlaybackPathSplit(site: string, id: string)
    requires '/' !in site && '/' !in id
    ensures Split("/recordingservice/sites/" + site + "/recording/playback/" + id, '/')
         == ["", "recordingservice", "sites", site, "recording", "playback", id]
  {
    var parts := ["", "recordingservice", "sites", site, "recording", "playback", id];
    PlaybackPartsJoin(site, id);
    PlaybackPathNested(site, id);
    SplitJoin(parts, '/');
  }

  /** Joining the segments of a playback path, one separator at a time. */
  lemma PlaybackPartsJoin(site: string, id: string)
    ensures Join(["", "recordingservice", "sites", site, "recording", "playback", id], '/')
         == "" + "/" + ("recordingservice" + "/" + ("sites" + "/" + (site + "/" + ("recording" + "/" + ("playback" + "/" + id)))))
  {
    var p6 := [id];
    var p5 := ["playback"] + p6;
    var p4 := ["recording"] + p5;
    var p3 := [site] + p4;
    var p2 := ["sites"] + p3;
    var p1 := ["recordingservice"] + p2;
    var p0 := [""] + p1;
    assert p5[1..] == p6 && p4[1..] == p5 && p3[1..] == p4 && p2[1..] == p3 && p1[1..] == p2 && p0[1..] == p1;
    assert Join(p5, '/') == "playback" + "/" + id;
    assert Join(p4, '/') == "recording" + "/" + Join(p5, '/');
    assert Join(p3, '/') == site + "/" + Join(p4, '/');
    assert Join(p2, '/') == "sites" + "/" + Join(p3, '/');
    assert Join(p1, '/') == "recordingservice" + "/" + Join(p2, '/');
    assert Join(p0, '/') == "" + "/" + Join(p1, '/');
    assert p0 == ["", "recordingservice", "sites", site, "recording", "playback", id];
  }

  /** The first segment that qualifies decides, whatever follows it. */
  lemma {:induction false} FirstQualifyingSegmentDecides(before: seq<string>, part: string, after: seq<string>)
    requires forall k :: 0 <= k < |before| ==> Candidate(before[k]).None?
    requires Candidate(part).Some?
    ensures FirstVideoId(before + [part] + after) == Candidate(part)
    decreases |before|
  {
    var parts := before + [part] + after;
    if |before| == 0 {
      assert parts[0] == part;
    } else {
      assert parts[0] == before[0];
      assert parts[1..] == before[1..] + [part] + after;
      FirstQualifyingSegmentDecides(before[1..], part, after);
    }
  }

  /** A segment longer than 32 characters with a character other than an ASCII letter or
      digit among its first 32 contributes nothing, so the scan goes on past it. */
  lemma NonAlnumLongSegmentSkipped(part: string, rest: seq<string>)
    requires |part| > IdLength
    requires exists i :: 0 <= i < IdLength && !IsAsciiAlnum(part[i])
    ensures FirstVideoId([part] + rest) == FirstVideoId(rest)
  {
    var i :| 0 <= i < IdLength && !IsAsciiAlnum(part[i]);
    assert !IsAsciiAlnum(part[..IdLength][i]);
    assert ([part] + rest)[1..] == rest;
  }
}
