/**
 * `getRedirectUrl` (poliwebex.js lines 549-552): the page behind a new-style
 * `ldr.php?RCID=...` link sends the browser on with a script line
 * `location.href='<address>';`. The downloader takes the first match of
 * `/location\.href='(.*?)';/` in the page and keeps the captured address.
 * Without a match, reading group 1 of `null` throws; the caller
 * (lines 142-171) then records the link as not downloaded.
 */
module Redirect {
  import opened Wrappers
  import opened Strings

  /** The literal text before the address: `location\.href='` with the dot escaped. */
  const Opening := "location.href='"

  /** `';` starts at index `k` of `s`. */
  predicate CloseAt(s: string, k: int) {
    0 <= k && k + 2 <= |s| && s[k] == '\'' && s[k + 1] == ';'
  }

  predicate NoLineTerminator(s: string) {
    forall k :: 0 <= k < |s| ==> !IsLineTerminator(s[k])
  }

  predicate NoClose(s: string) {
    forall k :: 0 <= k < |s| ==> !CloseAt(s, k)
  }

  /** `(.*?)';` tried at the start of `s`: the lazy group grows one character at a
      time, never over a line terminator, until `';` follows it. The result is the
      length of the shortest such group. */
  function CaptureLength(s: string): (r: Option<nat>)
    ensures r.Some? ==> r.value + 2 <= LineEnd(s) && CloseAt(s, r.value)
    ensures r.Some? ==> forall k :: 0 <= k < r.value ==> !CloseAt(s, k)
    ensures r.None? ==> forall k :: 0 <= k && k + 2 <= LineEnd(s) ==> !CloseAt(s, k)
    decreases |s|
  {
    if |s| < 2 then None
    else if CloseAt(s, 0) then Some(0)
    else if IsLineTerminator(s[0]) then None
    else
      var t := s[1..];
      assert forall k :: CloseAt(t, k) ==> CloseAt(s, k + 1);
      assert forall k :: 1 <= k && CloseAt(s, k) ==> CloseAt(t, k - 1);
      assert LineEnd(s) == 1 + LineEnd(t);
      match CaptureLength(t)
      case None => None
      case Some(n) => Some(n + 1)
  }

  /** The literal `location.href='` starts at index `p` of `body`. */
  predicate OpeningAt(body: string, p: int) {
    0 <= p && p + |Opening| <= |body| && body[p..p + |Opening|] == Opening
  }

  /** The whole pattern matches at index `p` of `body`. */
  predicate MatchAt(body: string, p: int) {
    OpeningAt(body, p) && CaptureLength(body[p + |Opening|..]).Some?
  }

  /** The first index at or after `p` where the pattern matches. */
  function FindFrom(body: string, p: nat): (r: Option<nat>)
    ensures r.Some? ==> p <= r.value && MatchAt(body, r.value)
    ensures r.Some? ==> forall q :: p <= q < r.value ==> !MatchAt(body, q)
    ensures r.None? ==> forall q :: p <= q ==> !MatchAt(body, q)
    decreases |body| - p
  {
    if p + |Opening| > |body| then None
    else if MatchAt(body, p) then Some(p)
    else FindFrom(body, p + 1)
  }

  /** `u` sits in `body` at index `p` between `location.href='` and `';`. */
  predicate Surrounds(body: string, p: int, u: string) {
    0 <= p && p + |Opening| + |u| + 2 <= |body| &&
    body[p..p + |Opening|] == Opening &&
    body[p + |Opening|..p + |Opening| + |u|] == u &&
    body[p + |Opening| + |u|..p + |Opening| + |u| + 2] == "';"
  }

  /** `body.match(/location\.href='(.*?)';/)[1]`, with None for the `null` match.
      There is no result exactly when the pattern matches nowhere; otherwise the
      result is the address of the leftmost match, the text right after a
      `location.href='` and right before a `';`, holding neither a line terminator
      nor a `';` of its own. */
  function GetRedirectUrl(body: string): (r: Option<string>)
    ensures r.None? <==> forall p :: 0 <= p ==> !MatchAt(body, p)
    ensures r.Some? ==> exists p :: Surrounds(body, p, r.value) && forall q :: 0 <= q < p ==> !MatchAt(body, q)
    ensures r.Some? ==> NoLineTerminator(r.value) && NoClose(r.value)
  {
    match FindFrom(body, 0)
    case None => None
    case Some(p) =>
      var s := body[p + |Opening|..];
      var u := s[..CaptureLength(s).value];
      CaptureSurrounded(body, p);
      Some(u)
  }

  /** The group of a match at `p` sits between the opening and `';`, on one line. */
  lemma CaptureSurrounded(body: string, p: nat)
    requires MatchAt(body, p)
    ensures var s := body[p + |Opening|..];
      var u := s[..CaptureLength(s).value];
      Surrounds(body, p, u) && NoLineTerminator(u) && NoClose(u)
  {
    var s := body[p + |Opening|..];
    var n := CaptureLength(s).value;
    var u := s[..n];
    CaptureClean(s, n);
    assert body[p + |Opening|..p + |Opening| + n] == u;
    assert s[n] == '\'' && s[n + 1] == ';';
    assert body[p + |Opening| + n..p + |Opening| + n + 2] == s[n..n + 2] == "';";
  }

  /** The text before the first `';` of a line holds neither a line terminator nor a `';`. */
  lemma CaptureClean(s: string, n: nat)
    requires n + 2 <= LineEnd(s)
    requires forall k :: 0 <= k < n ==> !CloseAt(s, k)
    ensures NoLineTerminator(s[..n]) && NoClose(s[..n])
  {
    var u := s[..n];
    forall k | 0 <= k < |u|
      ensures !IsLineTerminator(u[k]) && !CloseAt(u, k)
    {
      assert u[k] == s[k];
      assert !CloseAt(s, k);
      if k + 1 < n {
        assert u[k + 1] == s[k + 1];
      }
    }
  }

  /** The capture of `u';...` is `u` when `u` stays on one line and holds no `';`. */
  lemma CaptureOf(u: string, rest: string)
    requires NoLineTerminator(u) && NoClose(u)
    ensures CaptureLength(u + "';" + rest) == Some(|u|)
  {
    var s := u + "';" + rest;
    assert CloseAt(s, |u|);
    assert forall k :: 0 <= k < |u| + 2 ==> !IsLineTerminator(s[k]);
    assert LineEnd(s) >= |u| + 2;
    forall k | 0 <= k < |u|
      ensures !CloseAt(s, k)
    {
      if k + 1 < |u| {
        assert s[k] == u[k] && s[k + 1] == u[k + 1];
        assert !CloseAt(u, k);
      } else {
        assert s[k + 1] == '\'';
      }
    }
  }

  /** Reading the address back: a page whose first `location.href='` is followed by
      a one-line address without `';`, then by `';`, redirects to exactly that address. */
  lemma RedirectRoundTrip(before: string, u: string, after: string)
    requires forall p :: 0 <= p < |before| ==> !OpeningAt(before + Opening, p)
    requires NoLineTerminator(u) && NoClose(u)
    ensures GetRedirectUrl(before + Opening + u + "';" + after) == Some(u)
  {
    var head := before + Opening;
    var tail := u + "';" + after;
    var body := before + Opening + u + "';" + after;
    assert body == head + tail;
    NoOpeningBefore(head, tail, |before|);
    assert body[|before| + |Opening|..] == tail;
    FirstMatchCaptures(body, |before|, u, after);
  }

  /** An opening that does not fit in `head` cannot start in `head + tail` either
      before index `p`, as long as the opening found there ends inside `head`. */
  lemma NoOpeningBefore(head: string, tail: string, p: nat)
    requires p + |Opening| <= |head|
    requires forall q :: 0 <= q < p ==> !OpeningAt(head, q)
    ensures forall q :: 0 <= q < p ==> !OpeningAt(head + tail, q)
  {
    forall q | 0 <= q < p
      ensures !OpeningAt(head + tail, q)
    {
      assert !OpeningAt(head, q);
      assert (head + tail)[q..q + |Opening|] == head[q..q + |Opening|];
    }
  }

  /** The first opening, followed by a one-line `u` without `';` and then `';`,
      gives `u` as the redirect. */
  lemma FirstMatchCaptures(body: string, p: nat, u: string, after: string)
    requires forall q :: 0 <= q < p ==> !OpeningAt(body, q)
    requires OpeningAt(body, p)
    requires body[p + |Opening|..] == u + "';" + after
    requires NoLineTerminator(u) && NoClose(u)
    ensures GetRedirectUrl(body) == Some(u)
  {
    CaptureOf(u, after);
    assert CaptureLength(body[p + |Opening|..]) == Some(|u|);
    assert MatchAt(body, p);
    FindFromFirst(body, p);
    assert (u + "';" + after)[..|u|] == u;
  }

  /** A match with no opening before it is the first match. */
  lemma FindFromFirst(body: string, p: nat)
    requires MatchAt(body, p)
    requires forall q :: 0 <= q < p ==> !OpeningAt(body, q)
    ensures FindFrom(body, 0) == Some(p)
  {
    assert forall q :: 0 <= q < p ==> !MatchAt(body, q);
  }
}
