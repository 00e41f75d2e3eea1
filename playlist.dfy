/**
 * The two rewrites of the HLS playlist in the segmented download
 * (poliwebex.js lines 366-368): every match of the regular expression
 * `(.*.ts)` with the global flag is replaced by a prefix followed by the
 * match. For `video_full.m3u8` the prefix is the directory part of the
 * playlist's address, so that the segment names become absolute addresses;
 * for `video_tmp.m3u8` it is `video_segments/`, the local directory the
 * segments are downloaded into.
 *
 * `ReplaceSegments` follows the regular-expression engine: a match is tried
 * at each position in turn, `.` never crosses a line terminator, and `.*`
 * is greedy. `RewriteByLines` states the same thing line by line, and
 * `ReplaceSegmentsByLines` proves the two agree.
 */
module Playlist {
  import opened Wrappers
  import opened Strings
  import opened Locators

  /** "ts" starts at index `k` of `s`. */
  predicate TsAt(s: string, k: int) {
    0 <= k && k + 2 <= |s| && s[k] == 't' && s[k + 1] == 's'
  }

  /** The last index `k` with `lo <= k` and `k + 2 <= hi` at which "ts" starts. */
  function LastTs(s: string, lo: nat, hi: nat): (r: Option<nat>)
    requires hi <= |s|
    ensures r.Some? ==> lo <= r.value && r.value + 2 <= hi && TsAt(s, r.value)
    ensures r.Some? ==> forall k :: r.value < k && k + 2 <= hi ==> !TsAt(s, k)
    ensures r.None? ==> forall k :: lo <= k && k + 2 <= hi ==> !TsAt(s, k)
    decreases hi
  {
    if hi < lo + 2 then None
    else if TsAt(s, hi - 2) then Some(hi - 2)
    else LastTs(s, lo, hi - 1)
  }

  /** `s.replace(new RegExp('(.*\.ts)', 'g'), prefix + '$1')`. In the JavaScript
      string literal `\.` is a plain `.`, so the pattern is `(.*.ts)`. Tried at the
      start of `s`, it matches when "ts" starts at index 1 or later of the first line,
      and, `.*` being greedy, the match runs to the end of the last such "ts". The
      scan then goes on right after the match; where nothing matches, one character
      is copied and the scan moves on by one. */
  function ReplaceSegments(s: string, prefix: string): (r: string)
    ensures |s| <= |r|
    decreases |s|
  {
    if |s| == 0 then []
    else
      match LastTs(s, 1, LineEnd(s))
      case Some(j) => prefix + s[..j + 2] + ReplaceSegments(s[j + 2..], prefix)
      case None => [s[0]] + ReplaceSegments(s[1..], prefix)
  }

  /** A line the pattern matches: it holds "ts" somewhere after its first character. */
  predicate NamesSegment(line: string) {
    exists k :: 1 <= k < |line| && TsAt(line, k)
  }

  /** One line of the rewritten playlist: the whole line behind the prefix when it
      names a segment, the line unchanged otherwise. */
  function RewriteLine(line: string, prefix: string): (r: string)
    ensures NamesSegment(line) ==> r == prefix + line
    ensures !NamesSegment(line) ==> r == line
  {
    if NamesSegment(line) then prefix + line else line
  }

  /** The rewrite stated line by line: each line rewritten on its own, the line
      terminators kept as they are. */
  function RewriteByLines(s: string, prefix: string): string
    decreases |s|
  {
    var e := LineEnd(s);
    if e == |s| then RewriteLine(s, prefix)
    else RewriteLine(s[..e], prefix) + [s[e]] + RewriteByLines(s[e + 1..], prefix)
  }

  /** The scan where nothing matches at the start: one character copied. */
  lemma ReplaceUnmatched(s: string, prefix: string)
    requires |s| > 0 && LastTs(s, 1, LineEnd(s)).None?
    ensures ReplaceSegments(s, prefix) == [s[0]] + ReplaceSegments(s[1..], prefix)
  {
  }

  /** The scan where a match ends at `j + 2`: the prefix, then the match. */
  lemma ReplaceMatched(s: string, prefix: string, j: nat)
    requires |s| > 0 && LastTs(s, 1, LineEnd(s)) == Some(j)
    ensures j + 2 <= |s|
    ensures ReplaceSegments(s, prefix) == prefix + s[..j + 2] + ReplaceSegments(s[j + 2..], prefix)
  {
    var e := LineEnd(s);
    assert j + 2 <= e <= |s|;
    var after := s[j + 2..];
    assert ReplaceSegments(s, prefix) == prefix + s[..j + 2] + ReplaceSegments(after, prefix);
  }

  lemma SliceJoin(s: string, m: nat, e: nat)
    requires m <= e <= |s|
    ensures s[..m] + s[m..e] == s[..e]
    ensures s[m..][..e - m] == s[m..e] && s[m..][e - m..] == s[e..]
    ensures s[..m] + s[m..] == s
  {
  }

  /** The first line of `s` holds no "ts" after its first character. */
  predicate FirstLineUnmatched(s: string) {
    forall k :: 1 <= k && k + 2 <= LineEnd(s) ==> !TsAt(s, k)
  }

  /** Where the first line holds no "ts" after its first character, the scan copies
      the whole line and carries on at its terminator. */
  lemma {:induction false} UnmatchedLine(s: string, prefix: string)
    requires FirstLineUnmatched(s)
    ensures ReplaceSegments(s, prefix) == s[..LineEnd(s)] + ReplaceSegments(s[LineEnd(s)..], prefix)
    decreases |s|
  {
    if LineEnd(s) > 0 {
      UnmatchedShift(s);
      UnmatchedLine(s[1..], prefix);
      UnmatchedStep(s, prefix);
    } else {
      assert s[..0] == [] && s[0..] == s;
    }
  }

  /** One step of `UnmatchedLine`: the first character is copied, and the rest of
      the line is copied as the scan of the rest of the text already copies it. */
  lemma UnmatchedStep(s: string, prefix: string)
    requires LineEnd(s) > 0
    requires LastTs(s, 1, LineEnd(s)).None?
    requires ReplaceSegments(s[1..], prefix) ==
               s[1..][..LineEnd(s) - 1] + ReplaceSegments(s[1..][LineEnd(s) - 1..], prefix)
    ensures ReplaceSegments(s, prefix) == s[..LineEnd(s)] + ReplaceSegments(s[LineEnd(s)..], prefix)
  {
    var e := LineEnd(s);
    ReplaceUnmatched(s, prefix);
    ConsSlices(s, e);
    Reassemble(s, e, ReplaceSegments(s, prefix), ReplaceSegments(s[1..], prefix), ReplaceSegments(s[e..], prefix));
  }

  /** A first character, then a line's remainder, then what follows: the whole line,
      then what follows. */
  lemma Reassemble(s: string, e: nat, whole: string, afterFirst: string, rest: string)
    requires 0 < e <= |s|
    requires whole == [s[0]] + afterFirst
    requires afterFirst == s[1..][..e - 1] + rest
    ensures whole == s[..e] + rest
  {
    ConsSlices(s, e);
  }

  /** Without "ts" in a range there is no last "ts" in it. */
  lemma NoTsNoLast(s: string, lo: nat, hi: nat)
    requires hi <= |s|
    requires forall k :: lo <= k && k + 2 <= hi ==> !TsAt(s, k)
    ensures LastTs(s, lo, hi).None?
  {
  }

  lemma ConsSlices(s: string, e: nat)
    requires 0 < e <= |s|
    ensures s[1..][e - 1..] == s[e..] && [s[0]] + s[1..][..e - 1] == s[..e]
  {
  }

  /** Dropping the first character of a line without "ts" after its first
      character leaves a line without "ts" after its first character. */
  lemma UnmatchedShift(s: string)
    requires LineEnd(s) > 0
    requires FirstLineUnmatched(s)
    ensures LineEnd(s[1..]) == LineEnd(s) - 1
    ensures FirstLineUnmatched(s[1..])
    ensures LastTs(s, 1, LineEnd(s)).None?
  {
    NoTsNoLast(s, 1, LineEnd(s));
    var t := s[1..];
    LineEndDrop(s, 1);
    forall k | 1 <= k && k + 2 <= LineEnd(t)
      ensures !TsAt(t, k)
    {
      assert TsAt(t, k) ==> TsAt(s, k + 1);
    }
  }

  /** After the last "ts" of the first line nothing more matches on that line. */
  lemma AfterLastTs(s: string, prefix: string, j: nat)
    requires LastTs(s, 1, LineEnd(s)) == Some(j)
    ensures ReplaceSegments(s[j + 2..], prefix) == s[j + 2..LineEnd(s)] + ReplaceSegments(s[LineEnd(s)..], prefix)
  {
    var e := LineEnd(s);
    var t := s[j + 2..];
    LineEndDrop(s, j + 2);
    forall i | 1 <= i && i + 2 <= LineEnd(t)
      ensures !TsAt(t, i)
    {
      assert TsAt(t, i) ==> TsAt(s, i + j + 2);
    }
    UnmatchedLine(t, prefix);
    SliceJoin(s, j + 2, e);
  }

  /** Where the first line holds "ts" after its first character, one match covers the
      whole of it, and the scan carries on at its terminator. */
  lemma MatchedLine(s: string, prefix: string)
    requires NamesSegment(s[..LineEnd(s)])
    ensures ReplaceSegments(s, prefix) == prefix + s[..LineEnd(s)] + ReplaceSegments(s[LineEnd(s)..], prefix)
  {
    var e := LineEnd(s);
    var k :| 1 <= k < e && TsAt(s[..e], k);
    assert TsAt(s, k);
    var j := LastTs(s, 1, e).value;
    ReplaceMatched(s, prefix, j);
    AfterLastTs(s, prefix, j);
    SliceJoin(s, j + 2, e);
    Regroup(prefix, s[..j + 2], s[j + 2..e], ReplaceSegments(s[e..], prefix));
  }

  lemma Regroup(a: string, b: string, c: string, d: string)
    ensures a + b + (c + d) == a + (b + c) + d
  {
  }

  /** The first line, rewritten as the scan does it: the prefix goes in front of the
      whole line when it names a segment, and the scan resumes at the terminator. */
  lemma FirstLineRewritten(s: string, prefix: string)
    ensures ReplaceSegments(s, prefix)
         == RewriteLine(s[..LineEnd(s)], prefix) + ReplaceSegments(s[LineEnd(s)..], prefix)
  {
    var e := LineEnd(s);
    var line := s[..e];
    if NamesSegment(line) {
      MatchedLine(s, prefix);
    } else {
      forall k | 1 <= k && k + 2 <= e
        ensures !TsAt(s, k)
      {
        assert TsAt(s, k) ==> TsAt(line, k);
      }
      UnmatchedLine(s, prefix);
    }
  }

  /** The scan of the regular-expression engine and the line-by-line rule agree on
      every text: a line holding "ts" after its first character gets the prefix in
      front, every other line and every line terminator is kept. */
  lemma {:induction false} ReplaceSegmentsByLines(s: string, prefix: string)
    ensures ReplaceSegments(s, prefix) == RewriteByLines(s, prefix)
    decreases |s|
  {
    var e := LineEnd(s);
    if e == |s| {
      LastLineRewritten(s, prefix);
    } else {
      ReplaceSegmentsByLines(s[e + 1..], prefix);
      FirstLineThenRest(s, prefix);
    }
  }

  /** Where the scan and the line rule agree after the first terminator, they agree
      on the whole text. */
  lemma FirstLineThenRest(s: string, prefix: string)
    requires LineEnd(s) < |s|
    requires ReplaceSegments(s[LineEnd(s) + 1..], prefix) == RewriteByLines(s[LineEnd(s) + 1..], prefix)
    ensures ReplaceSegments(s, prefix) == RewriteByLines(s, prefix)
  {
    var e := LineEnd(s);
    FirstLineRewritten(s, prefix);
    TerminatorCopied(s, prefix);
    RewriteByLinesStep(s, prefix);
    Chain(ReplaceSegments(s, prefix), RewriteLine(s[..e], prefix), ReplaceSegments(s[e..], prefix),
          s[e], ReplaceSegments(s[e + 1..], prefix), RewriteByLines(s[e + 1..], prefix));
  }

  /** A text without a line terminator is one line, rewritten by the line rule. */
  lemma LastLineRewritten(s: string, prefix: string)
    requires LineEnd(s) == |s|
    ensures ReplaceSegments(s, prefix) == RewriteByLines(s, prefix)
  {
    FirstLineRewritten(s, prefix);
    assert s[..|s|] == s;
    assert s[|s|..] == [];
  }

  /** The line rule on a text with a terminator: the first line, the terminator, the rest. */
  lemma RewriteByLinesStep(s: string, prefix: string)
    requires LineEnd(s) < |s|
    ensures RewriteByLines(s, prefix)
         == RewriteLine(s[..LineEnd(s)], prefix) + [s[LineEnd(s)]] + RewriteByLines(s[LineEnd(s) + 1..], prefix)
  {
  }

  /** A line, then a terminator, then the rest, where the rest is already known. */
  lemma Chain(whole: string, line: string, afterLine: string, t: char, rest: string, restLines: string)
    requires whole == line + afterLine
    requires afterLine == [t] + rest
    requires rest == restLines
    ensures whole == line + [t] + restLines
  {
  }

  /** A line terminator is copied as it is, and the scan moves past it. */
  lemma TerminatorCopied(s: string, prefix: string)
    requires LineEnd(s) < |s|
    ensures ReplaceSegments(s[LineEnd(s)..], prefix) == [s[LineEnd(s)]] + ReplaceSegments(s[LineEnd(s) + 1..], prefix)
  {
    var e := LineEnd(s);
    var u := s[e..];
    assert LineEnd(u) == 0;
    assert u[1..] == s[e + 1..];
  }

  /** A playlist made of a line, a terminator and the rest is rewritten as that line
      followed by the terminator and the rewritten rest. */
  lemma LinesRewrittenIndependently(line: string, t: char, rest: string, prefix: string)
    requires forall k :: 0 <= k < |line| ==> !IsLineTerminator(line[k])
    requires IsLineTerminator(t)
    ensures ReplaceSegments(line + [t] + rest, prefix)
         == RewriteLine(line, prefix) + [t] + ReplaceSegments(rest, prefix)
  {
    var s := line + [t] + rest;
    LineEndUnique(s, |line|);
    assert s[..|line|] == line && s[|line| + 1..] == rest;
    ReplaceSegmentsByLines(s, prefix);
    ReplaceSegmentsByLines(rest, prefix);
  }

  /** A segment line `<name>.ts` gets the prefix in front of it, whatever `<name>` is
      (even empty: the "ts" of ".ts" is at index 1 or later). */
  lemma SegmentLinePrefixed(name: string, t: char, rest: string, prefix: string)
    requires forall k :: 0 <= k < |name| ==> !IsLineTerminator(name[k])
    requires IsLineTerminator(t)
    ensures ReplaceSegments(name + ".ts" + [t] + rest, prefix)
         == prefix + name + ".ts" + [t] + ReplaceSegments(rest, prefix)
  {
    var line := name + ".ts";
    forall k | 0 <= k < |line|
      ensures !IsLineTerminator(line[k])
    {
      if k < |name| {
        assert line[k] == name[k];
      }
    }
    assert TsAt(line, |name| + 1);
    assert RewriteLine(line, prefix) == prefix + line;
    LinesRewrittenIndependently(line, t, rest, prefix);
    assert prefix + line == prefix + name + ".ts";
  }

  /** With an empty prefix the rewrite changes nothing. */
  lemma {:induction false} EmptyPrefixKeepsPlaylist(s: string)
    ensures ReplaceSegments(s, "") == s
    decreases |s|
  {
    if |s| > 0 {
      var m := LastTs(s, 1, LineEnd(s));
      if m.Some? {
        ReplaceMatched(s, "", m.value);
        EmptyPrefixKeepsPlaylist(s[m.value + 2..]);
        RejoinMatched(s, m.value + 2, ReplaceSegments(s, ""), ReplaceSegments(s[m.value + 2..], ""));
      } else {
        ReplaceUnmatched(s, "");
        EmptyPrefixKeepsPlaylist(s[1..]);
        RejoinUnmatched(s, ReplaceSegments(s, ""), ReplaceSegments(s[1..], ""));
      }
    }
  }

  /** A match copied behind an empty prefix, followed by the rest unchanged. */
  lemma RejoinMatched(s: string, n: nat, r: string, rest: string)
    requires n <= |s| && rest == s[n..] && r == "" + s[..n] + rest
    ensures r == s
  {
    assert "" + s[..n] == s[..n];
    assert s[..n] + s[n..] == s;
  }

  /** One character copied, followed by the rest unchanged. */
  lemma RejoinUnmatched(s: string, r: string, rest: string)
    requires |s| > 0 && rest == s[1..] && r == [s[0]] + rest
    ensures r == s
  {
    assert s[..1] == [s[0]];
    assert s[..1] + s[1..] == s;
  }

  /** `s.lastIndexOf(c)`: the last index holding `c`, or -1. */
  function LastIndexOf(s: string, c: char): (r: int)
    ensures -1 <= r < |s|
    ensures r >= 0 ==> s[r] == c
    ensures forall k :: r < k < |s| ==> s[k] != c
    decreases |s|
  {
    if |s| == 0 then -1
    else if s[|s| - 1] == c then |s| - 1
    else LastIndexOf(s[..|s| - 1], c)
  }

  /** `src.substring(0, src.lastIndexOf("/") + 1)`: everything up to and including the
      last '/', or the empty string when there is none. */
  function BaseUri(src: string): (b: string)
    ensures |b| <= |src| && b == src[..|b|]
    ensures b == [] || b[|b| - 1] == '/'
    ensures '/' !in src[|b|..]
    ensures b == [] <==> '/' !in src
  {
    var b := src[..LastIndexOf(src, '/') + 1];
    assert forall k :: 0 <= k < |src| - |b| ==> src[|b|..][k] == src[|b| + k];
    b
  }

  /** Appending a piece without '/' to an address ending in '/' leaves its base alone. */
  lemma BaseUriOfAppend(dir: string, name: string)
    requires |dir| > 0 && dir[|dir| - 1] == '/'
    requires '/' !in name
    ensures BaseUri(dir + name) == dir
  {
    var s := dir + name;
    assert s[|dir| - 1] == '/';
    assert forall k :: |dir| <= k < |s| ==> s[k] == name[k - |dir|];
    var r := LastIndexOf(s, '/');
    assert r == |dir| - 1;
  }

  /** The directory of the HLS playlist: the segments are fetched from
      `.../recordingDir/<dir>/timestamp/<ts>/token/<tok>/fileName/`. */
  lemma SegmentedBase(o: StreamOption, filename: string)
    requires '/' !in filename
    ensures BaseUri(SegmentedSrc(o, filename))
         == HlsPrefix + o.recordingDir + "/timestamp/" + o.timestamp + "/token/" + o.token + "/fileName/"
  {
    var dir := HlsPrefix + o.recordingDir + "/timestamp/" + o.timestamp + "/token/" + o.token + "/fileName/";
    assert SegmentedSrc(o, filename) == dir + (filename + ".m3u8");
    assert dir[|dir| - 1] == '/';
    assert '/' !in filename + ".m3u8";
    BaseUriOfAppend(dir, filename + ".m3u8");
  }
}
