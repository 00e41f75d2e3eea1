/**
 * `extractCookies` (poliwebex.js lines 626-639): after login the downloader
 * reads the browser's cookies for `https://.webex.com`, takes the first one
 * named `ticket` and sends `ticket=<value>` with every API request. When
 * there is none it waits and reads the cookies a second time; without a
 * ticket the process exits with code 88.
 *
 * The two cookie jars are inputs: `jar` is the first read and `retryJar`
 * the read after the wait (the browser and the five-second wait are not
 * modelled).
 */
module Cookies {
  import opened Wrappers

  datatype Cookie = Cookie(name: string, value: string)

  /** What the function ends in: the request header, or `process.exit(code)`. */
  datatype CookieOutcome = Header(header: string) | Exit(code: int)

  const TicketName := "ticket"
  const MissingTicketExit := 88

  /** `jar.filter(c => c.name === 'ticket')[0]`: the first ticket cookie, if any. */
  function FirstTicket(jar: seq<Cookie>): (r: Option<Cookie>)
    ensures r.None? <==> forall i :: 0 <= i < |jar| ==> jar[i].name != TicketName
    ensures r.Some? ==> exists i :: 0 <= i < |jar| && jar[i] == r.value &&
                          jar[i].name == TicketName &&
                          forall j :: 0 <= j < i ==> jar[j].name != TicketName
    decreases |jar|
  {
    if |jar| == 0 then None
    else if jar[0].name == TicketName then Some(jar[0])
    else
      var r := FirstTicket(jar[1..]);
      assert forall i :: 1 <= i < |jar| ==> jar[i] == jar[1..][i - 1];
      if r.Some? then
        var i :| 0 <= i < |jar[1..]| && jar[1..][i] == r.value && jar[1..][i].name == TicketName &&
                 forall j :: 0 <= j < i ==> jar[1..][j].name != TicketName;
        assert jar[i + 1] == r.value;
        r
      else r
  }

  /** `` `ticket=${ticketCookie.value}` ``: the value can be read back after the
      `ticket=` that names it. */
  function TicketHeader(c: Cookie): (h: string)
    ensures |h| == |TicketName| + 1 + |c.value|
    ensures h[..|TicketName| + 1] == "ticket="
    ensures h[|TicketName| + 1..] == c.value
  {
    TicketName + "=" + c.value
  }

  /** `extractCookies` as written: the second read is stored in `tiketCookie`, a
      misspelling of `ticketCookie`, so the second jar never reaches the test at
      line 634 and the first jar alone decides. */
  function ExtractCookies(jar: seq<Cookie>, retryJar: seq<Cookie>): (r: CookieOutcome)
    ensures r.Exit? <==> FirstTicket(jar).None?
    ensures r.Exit? ==> r.code == MissingTicketExit
    ensures r.Header? ==> r.header == TicketHeader(FirstTicket(jar).value)
  {
    var ticketCookie := FirstTicket(jar);
    if ticketCookie.None? then
      var tiketCookie := FirstTicket(retryJar);
      Exit(MissingTicketExit)
    else Header(TicketHeader(ticketCookie.value))
  }

  /** `extractCookies` as evidently intended: the second read replaces the first. */
  function ExtractCookiesIntended(jar: seq<Cookie>, retryJar: seq<Cookie>): (r: CookieOutcome)
    ensures r.Exit? <==> FirstTicket(jar).None? && FirstTicket(retryJar).None?
    ensures r.Exit? ==> r.code == MissingTicketExit
  {
    var first := FirstTicket(jar);
    var ticketCookie := if first.None? then FirstTicket(retryJar) else first;
    if ticketCookie.None? then Exit(MissingTicketExit)
    else Header(TicketHeader(ticketCookie.value))
  }

  /** The header carries the value of the first ticket cookie of the first jar and
      nothing else: `ticket=` followed by that value. */
  lemma HeaderIsFirstTicket(jar: seq<Cookie>, retryJar: seq<Cookie>, i: nat)
    requires i < |jar| && jar[i].name == TicketName
    requires forall j :: 0 <= j < i ==> jar[j].name != TicketName
    ensures ExtractCookies(jar, retryJar) == Header("ticket=" + jar[i].value)
  {
    var r := FirstTicket(jar);
    var k :| 0 <= k < |jar| && jar[k] == r.value && jar[k].name == TicketName &&
             forall j :: 0 <= j < k ==> jar[j].name != TicketName;
    assert k == i;
  }

  /** As written, the second read never changes the outcome. */
  lemma RetryJarIgnored(jar: seq<Cookie>, retryJar1: seq<Cookie>, retryJar2: seq<Cookie>)
    ensures ExtractCookies(jar, retryJar1) == ExtractCookies(jar, retryJar2)
  {
  }

  /** A ticket that only shows up on the second read: the code as written exits with
      88, the intended code sends it. */
  lemma LateTicketLost()
    ensures ExtractCookies([], [Cookie("ticket", "abc")]) == Exit(88)
    ensures ExtractCookiesIntended([], [Cookie("ticket", "abc")]) == Header("ticket=abc")
  {
    assert FirstTicket([Cookie("ticket", "abc")]) == Some(Cookie("ticket", "abc"));
  }

  /** The intended code agrees with the code as written whenever the first read
      already holds a ticket, and otherwise takes the ticket of the second read. */
  lemma IntendedFallsBackOnRetry(jar: seq<Cookie>, retryJar: seq<Cookie>)
    ensures FirstTicket(jar).Some? ==> ExtractCookiesIntended(jar, retryJar) == ExtractCookies(jar, retryJar)
    ensures FirstTicket(jar).None? && FirstTicket(retryJar).Some? ==>
              ExtractCookiesIntended(jar, retryJar) == Header(TicketHeader(FirstTicket(retryJar).value))
  {
  }
}
