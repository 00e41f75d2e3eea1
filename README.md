# PoliWebex download rules, modelled in Dafny

PoliWebex downloads recorded Politecnico di Milano lectures from Webex. Its script
(`poliwebex.js`) logs in with a headless browser and reads the `ticket` cookie. Then,
for every link it is given, it:

- follows an `ldr.php?RCID=...` page to the playback address;
- takes the 32-character video id from the address;
- asks the recording-stream API for the recording;
- builds a file name from the recording's name and date;
- reads the XML manifest;
- downloads the MP4 directly or as HLS segments, retrying the external downloader up
  to five times.

A link that fails along the way is recorded in the list `notDownloaded`, unless the
failure is an exception that nothing catches: that ends the loop (see below).

This project models the decision and string rules of that script:

- `strings.dfy` (`Strings`): JavaScript's `split` on one character and its inverse,
  `endsWith`, the decimal rendering of numbers, and the lines of a text (ECMAScript line
  terminators).
- `video_id.dfy` (`VideoId`): `extractVideoID`.
- `title.dfy` (`Title`): trimming, replacing illegal characters, and the
  `Lesson YYYY_MM_DD - ` prefix.
- `locators.dfy` (`Locators`): the recording-stream API address, the XML manifest
  address, the direct MP4 address, the HLS playlist address, and the `.mp4` test.
- `playlist.dfy` (`Playlist`): the two rewrites of the HLS playlist with the regular
  expression `(.*.ts)`, and the playlist's base address.
- `redirect.dfy` (`Redirect`): `getRedirectUrl`, the lazy `location.href='...';` match.
- `cookies.dfy` (`Cookies`): `extractCookies`, as written and as intended.
- `downloads.dfy` (`Downloads`): covers four things.
  - The per-link decisions of the main loop of `downloadVideo`.
  - The bounded retry loop of `directDownload` and `segmentedDownload`.
  - The class `Session`, whose field `notDownloaded` the download methods append to.
  - The effect of the whole loop, stated as a function of the links and the answers
    of the outside world.

The outside world is an input. `World` gives:

- the result of `new URL(...)`: the path, and whether an `RCID` is present;
- the status and body of every HTTP request;
- the fields of the recording-stream JSON;
- the file name found in the XML manifest.

`Item` gives, for one link, the outcomes of the successive `aria2c` runs and whether
`ffmpeg` succeeds. An exception that nothing catches ends the loop. Four such exceptions
are modelled:

- a missing `recordName`;
- a missing `mp4StreamOption`;
- a malformed manifest;
- a failing `ffmpeg`.

The model records this as `halted`.

## Model

| member | source | states |
|---|---|---|
| Strings.Split | poliwebex.js:530 | `split('/')`: there is always at least one part, and no part holds the separator |
| Strings.JoinSplit | poliwebex.js:530 | joining the parts of a split with the separator gives back the string |
| Strings.SplitJoin | poliwebex.js:530 | splitting a join of separator-free parts gives back the parts |
| Strings.SplitAtFirstSep | poliwebex.js:530 | a split cuts exactly at the first separator |
| Strings.NatToString | poliwebex.js:197 | the decimal text of a number is non-empty, made of digits, with no leading zero |
| Strings.ParseNatToString | poliwebex.js:197 | reading back the decimal text of a number gives the number |
| Strings.NatToStringLength | poliwebex.js:191-197 | numbers below 10, 100, 1000 and 10000 have 1, 2, 3 and 4 digits |
| Strings.IntToString | poliwebex.js:197 | the text of an integer is made of digits and `-`; it starts with `-` exactly when the number is negative; the digits (after the `-`, if any) read back as the number's magnitude |
| Strings.LineEnd | poliwebex.js:367 | the first line of a text runs up to its first line terminator, which is the only index with that property (`LineEndUnique`) |
| VideoId.Candidate | poliwebex.js:532-539 | what one path segment offers: a segment of exactly 32 characters, or a longer one whose first 32 are ASCII letters and digits, offers its first 32 characters; any other segment offers nothing |
| VideoId.FirstVideoId | poliwebex.js:531-541 | the result is the candidate of the first qualifying segment, scanning left to right; the result is null exactly when no segment qualifies; any result has 32 characters |
| VideoId.ExtractVideoId | poliwebex.js:528-542 | the id is what the left-to-right scan finds among the `/`-separated segments of the path (null when it finds nothing); an id has 32 characters and no `/` |
| VideoId.FirstQualifyingSegmentDecides | poliwebex.js:531-540 | the first qualifying segment decides, whatever segments follow it |
| VideoId.NonAlnumLongSegmentSkipped | poliwebex.js:535-538 | a segment longer than 32 characters with a non-alphanumeric character among its first 32 is passed over |
| VideoId.PlaybackPathSplit | poliwebex.js:530 | a `/recordingservice/sites/<site>/recording/playback/<id>` path splits into its seven segments |
| VideoId.PlaybackPathYieldsId | poliwebex.js:528-542 | such a path with a site name shorter than 32 characters yields the 32-character id at its end, whatever characters it holds |
| Title.TrimStart | poliwebex.js:181 | it removes exactly the leading whitespace and line terminators |
| Title.TrimEnd | poliwebex.js:181 | it removes exactly the trailing whitespace and line terminators |
| Title.Trim | poliwebex.js:181 | the result is a middle slice of the name; everything cut off on either side is trimmable; the result neither starts nor ends with a trimmable character |
| Title.TrimIdempotent | poliwebex.js:181 | trimming twice is trimming once |
| Title.Sanitize | poliwebex.js:183 | the length is kept; each of `/ \ ? % * : ; \| " < >` becomes `-`; every other character is kept; no illegal character is left |
| Title.SanitizeIdempotent | poliwebex.js:183 | sanitising twice is sanitising once |
| Title.Pad2 | poliwebex.js:191-196 | a month or day below 100 becomes two digits that read back as its value |
| Title.BuildTitle | poliwebex.js:181-199 | the title holds no illegal character and ends with the trimmed, sanitised name; without a creation time it is exactly that name |
| Title.DatePrefix | poliwebex.js:186-198 | the prefix opens with `Lesson `, closes with ` - `, and is 16 characters longer than the year's text (two-digit month and day, two `_`) |
| Title.DatePrefixLegal | poliwebex.js:197-198 | the date prefix holds no illegal character |
| Title.DatePrefixLayout | poliwebex.js:186-198 | for a four-digit year the prefix is `Lesson `, the year, `_`, the two-digit month, `_`, the two-digit day, ` - ` (20 characters) |
| Title.TitleLayout | poliwebex.js:184-199 | the year, month and day can be read back from fixed positions of the title, and the sanitised name follows from character 20 on |
| Locators.RecordingApiUrl | poliwebex.js:163 | the id sits between the fixed API prefix and the suffix `/stream?siteurl=politecnicomilano` |
| Locators.RecordingApiUrlInjective | poliwebex.js:163 | different ids give different API addresses |
| Locators.QueryFields | poliwebex.js:207 | a `recordingDir=..&timestamp=..&token=..&..` query splits at `&` into its four fields when no value holds `&` |
| Locators.Html5ApiUrl | poliwebex.js:207 | the manifest address starts with the media host's `html5-pipeline.do?recordingDir=` + recordingDir + `&timestamp=` and ends with `&xmlName=recording.xml` |
| Locators.Html5ApiUrlFields | poliwebex.js:207 | the manifest address carries recordingDir, timestamp and token, and asks for `recording.xml` |
| Locators.DirectDownloadUrl | poliwebex.js:231 | the direct address starts with the download endpoint and ends with `&fileName=` + file name |
| Locators.DirectDownloadUrlFields | poliwebex.js:231 | the direct address splits into the recordingDir, timestamp, token and fileName fields |
| Locators.SegmentedSrc | poliwebex.js:239 | the playlist address starts with the HLS endpoint and ends with `/fileName/` + file name + `.m3u8` |
| Locators.PassesMp4Gate | poliwebex.js:224 | a file name passes the test exactly when it is some stem followed by `.mp4` |
| Playlist.ReplaceSegments | poliwebex.js:367-368 | the scan of `replace(/(.*.ts)/g, prefix + '$1')` never shortens the text; `ReplaceSegmentsByLines` and `EmptyPrefixKeepsPlaylist` state what it produces |
| Playlist.LastTs | poliwebex.js:367 | it finds the last `ts` in a range, or reports that there is none |
| Playlist.RewriteLine | poliwebex.js:367-368 | a line with `ts` after its first character gets the prefix; any other line is unchanged |
| Playlist.UnmatchedLine | poliwebex.js:367 | a line without `ts` after its first character is copied unchanged by the scan |
| Playlist.MatchedLine | poliwebex.js:367 | a line with `ts` after its first character is covered by one greedy match, the prefix goes in front of it, and the scan resumes at its end |
| Playlist.FirstLineRewritten | poliwebex.js:367-368 | the scan rewrites the first line by the line rule and carries on at its terminator |
| Playlist.ReplaceSegmentsByLines | poliwebex.js:367-368 | the regular-expression scan and the line-by-line rule agree on every text |
| Playlist.LinesRewrittenIndependently | poliwebex.js:367-368 | each line is rewritten on its own, and its terminator is kept |
| Playlist.SegmentLinePrefixed | poliwebex.js:367-368 | a segment line `<name>.ts` becomes prefix + `<name>.ts` |
| Playlist.EmptyPrefixKeepsPlaylist | poliwebex.js:367 | with an empty prefix the rewrite is the identity |
| Playlist.LastIndexOf | poliwebex.js:366 | `lastIndexOf`: the last index holding the character, or -1 |
| Playlist.BaseUri | poliwebex.js:366 | the base is a prefix of the address that is empty or ends with `/`; no `/` follows it; it is empty exactly when the address has no `/` |
| Playlist.BaseUriOfAppend | poliwebex.js:366 | appending a `/`-free name to a directory ending in `/` gives that directory back as the base |
| Playlist.SegmentedBase | poliwebex.js:366 | the base of a playlist address is `.../recordingDir/<dir>/timestamp/<ts>/token/<tok>/fileName/` |
| Redirect.CaptureLength | poliwebex.js:551 | the lazy group ends at the first `';` on the current line, or there is no match |
| Redirect.FindFrom | poliwebex.js:551 | the match is found at the leftmost index where the whole pattern matches |
| Redirect.GetRedirectUrl | poliwebex.js:549-552 | there is no result exactly when nothing matches; a result follows a `location.href='` and precedes a `';`, with no earlier match; it holds no line terminator and no `';` |
| Redirect.CaptureOf | poliwebex.js:551 | the capture of `u';...` is exactly `u` for a one-line `u` without `';` |
| Redirect.RedirectRoundTrip | poliwebex.js:549-552 | a page with `location.href='u';` as its first opening redirects to exactly `u` |
| Cookies.FirstTicket | poliwebex.js:628 | the result is the first cookie named `ticket`, or none exactly when no cookie has that name |
| Cookies.ExtractCookies | poliwebex.js:626-639 | as written: exit 88 exactly when the first jar has no ticket; otherwise `ticket=` + the value of that jar's ticket |
| Cookies.TicketHeader | poliwebex.js:638 | the header is `ticket=` followed by the cookie's value, which can be read back from character 7 on |
| Cookies.HeaderIsFirstTicket | poliwebex.js:628-638 | the header is `ticket=` + the value of the first ticket cookie |
| Cookies.RetryJarIgnored | poliwebex.js:631-634 | as written, the second cookie read never changes the outcome |
| Cookies.LateTicketLost | poliwebex.js:629-637 | a ticket present only in the second read: exit 88 as written, sent as intended |
| Cookies.ExtractCookiesIntended | poliwebex.js:626-639 | as intended: exit 88 exactly when neither read has a ticket |
| Cookies.IntendedFallsBackOnRetry | poliwebex.js:629-638 | the intended version agrees with the written one when the first read has a ticket, and otherwise uses the second read |
| Downloads.RetryLoop | poliwebex.js:320-335 | at most five runs, stopping at the first success; the count of failures reaches five exactly when every run failed |
| Downloads.GivesUpOnFirstRuns | poliwebex.js:322 | only the first five outcomes matter |
| Downloads.DoRequest | poliwebex.js:505-515 | a request yields its body exactly when there is an answer with status 200 or 403 |
| Downloads.Redirected | poliwebex.js:144-153 | a link `new URL` rejects fails; a link without `RCID` is kept; a link with `RCID` gives an address exactly when its page is fetched and holds a `location.href='...';` match, and the address is that match's capture |
| Downloads.VideoIdOf | poliwebex.js:155 | an address `new URL` rejects has no id; otherwise the id is `extractVideoID` of the address's path; an id found has 32 characters |
| Downloads.Locate | poliwebex.js:139-222 | an empty link is skipped, and only an empty link; a failure is reported under the link or its redirect target; a located link has the redirect target, its video id and a legal title |
| Downloads.LocateVideo | poliwebex.js:155-179 | from the redirect target on: a failure is reported under the target; a located link keeps the target, carries the target's video id and a legal title |
| Downloads.LocateRecording | poliwebex.js:181-222 | from the parsed API answer on: the loop ends exactly when `recordName` or `mp4StreamOption` is missing or a fetched manifest has no file name; a failure is reported under the target; a located link keeps the target and the video id |
| Downloads.ResolveItem | poliwebex.js:224-228 | only a manifest file name ending in `.mp4` goes on to a download; otherwise the link is recorded |
| Downloads.PlanFor | poliwebex.js:230-247 | direct mode exactly when segmented mode is off; the direct address is `DirectDownloadUrl` and the playlist address `SegmentedSrc` of the stream triple and the manifest's file name; the title and link (and, segmented, the id) are passed on |
| Downloads.DownloadEffect | poliwebex.js:319-424 | a download routine records at most one entry, its link; a direct download records it exactly when every run fails and never ends the loop; a segmented download records it exactly when the playlist fetch fails or every run fails, and ends the loop exactly when neither happens and `ffmpeg` fails |
| Downloads.ItemEffect | poliwebex.js:138-248 | the effect of one pass of the loop body: an empty link does nothing; at most one entry is added; a link that ends the loop adds none |
| Downloads.ItemEffectShape | poliwebex.js:138-248 | one link adds at most one entry; an empty link adds none; a link that stops the loop adds none; the entry is the link or its redirect target |
| Downloads.NonMp4Recorded | poliwebex.js:224-228 | a located non-`.mp4` link is recorded and not downloaded |
| Downloads.SegmentedOutcome | poliwebex.js:344-424 | a located `.mp4` link in segmented mode is recorded exactly when the playlist fetch fails or every run fails, and ends the loop exactly when neither happens and `ffmpeg` fails |
| Downloads.LinkRecordedOnFailure | poliwebex.js:144-171 | a link whose redirect step fails is recorded as given; a link without a video id is recorded under its redirect target |
| Downloads.LinkRecordedOnBadAnswer | poliwebex.js:162-178 | a failing request to the recording-stream API, or an answer `JSON.parse` rejects, records the link under its redirect target |
| Downloads.LinkHaltsOnMissingField | poliwebex.js:181-205 | a missing `recordName` or `mp4StreamOption` ends the loop and records nothing |
| Downloads.LinkRecordedOnManifestFailure | poliwebex.js:207-217 | a failing manifest request records the link under its redirect target |
| Downloads.LinkHaltsOnBadManifest | poliwebex.js:220-222 | a manifest without a file name ends the loop and records nothing |
| Downloads.LocatedLink | poliwebex.js:162-222 | a located link carries the title built from the answer's name and creation time, the answer's stream triple, and the manifest's file name |
| Downloads.LinkLocated | poliwebex.js:138-247 | a link whose every step succeeds is located with the redirect target, its id, the built title, the answer's stream triple and the manifest's file name; with an `.mp4` file name its effect is that of the download routine the mode selects for that link, and otherwise the target is recorded |
| Downloads.FoundHandedOn | poliwebex.js:224-247 | a located link with an `.mp4` file name has the effect of the download routine for its plan; any other located link records its target |
| Downloads.DirectOutcome | poliwebex.js:230-237 | a located `.mp4` link in direct mode is recorded exactly when every run fails |
| Downloads.DropEmpty | poliwebex.js:139 | the links without the empty ones: one per non-empty link, none empty |
| Downloads.DropEmptyMembers | poliwebex.js:139 | the links kept are exactly the non-empty ones |
| Downloads.DropEmptySnoc | poliwebex.js:138-139 | a link added at the end is kept, at the end, exactly when it is non-empty |
| Downloads.DropEmptyAppend | poliwebex.js:138-139 | dropping the empty links works piece by piece, so the kept links stay in their order |
| Downloads.RunEffect | poliwebex.js:138-248 | the effect of the loop over a list: the entries of each link in order, up to the first uncaught exception; it carries no contract of its own, and `HaltedStaysHalted`, `AppendedBound`, `AppendedAreReportable` and `Session.DownloadVideo` state its properties |
| Downloads.HaltedStaysHalted | poliwebex.js:138-248 | after an uncaught exception later links change nothing |
| Downloads.AppendedBound | poliwebex.js:138-248 | `notDownloaded` grows by at most one entry per non-empty link |
| Downloads.AppendedAreReportable | poliwebex.js:138-248 | every entry is one of the links or the address one of them redirects to |
| Downloads.EmptyLinksIgnored | poliwebex.js:139 | dropping the empty links changes nothing |
| Downloads.Session.constructor | poliwebex.js:108 | `notDownloaded` starts empty |
| Downloads.Session.DirectDownload | poliwebex.js:319-342 | the link is appended once when every run fails; otherwise the list is unchanged |
| Downloads.Session.SegmentedDownload | poliwebex.js:344-424 | the link is appended when the playlist fetch fails or every run fails; a failing `ffmpeg` ends the loop; the two playlists written are the base-address and `video_segments/` rewrites of the fetched text |
| Downloads.Session.DownloadItem | poliwebex.js:138-248 | one link appends exactly its effect's entries to `notDownloaded` |
| Downloads.Session.DownloadVideo | poliwebex.js:138-248 | `notDownloaded` is only appended to, by the entries of the links in order up to the first uncaught exception |

## Left out

- Login through the browser, the five-second waits and the timeout scaling: these are UI automation and wall-clock waits.
- Credentials, `config.json`, the keyring, prompts and the desktop notification: these are interactive and operating-system I/O.
- The HTTP client, `JSON.parse` and `xml2js`: their results are the fields of `World`. Request headers (cookie, `accessPwd`) do not enter the model.
- `aria2c`, `ffmpeg`, directory creation, `rmDir` and file writes: only success or failure of the download runs and of `ffmpeg` is kept. A failing `mkdirSync`/`writeFileSync` outside the retry loop is not modelled.
- `new URL(...)` and `searchParams.get("RCID")`: the WHATWG URL parser is abstract (`World.parseUrl`). An empty `RCID` value counts as present, as the `!= null` test does.
- `new Date(createTime)`: the date enters as year, month 1-12 and day 1-31. A `createTime` that is `undefined` or not a date (which would print `NaN`) is not modelled.
- `World.fetch` gives one fixed answer per address, so the model cannot show the network answering differently when the same address is requested twice (a link repeated in the list, say).
- `parseVideoUrls` and `readFileToArray`: reading the link list from a file is I/O.
- Title.TitleLayout: it states the layout only for four-digit years. For other years the contracts of `BuildTitle` state only that the title holds no illegal character and ends with the sanitised name.
- Playlist.ReplaceSegments: the replacement string is taken literally. `$` patterns other than `$1` in the base address (`$&`, `$$`, ...) are not interpreted.
- Downloads.Session.SegmentedDownload: three things are not modelled.
  - The `-<timestamp>` suffix added when the output file already exists.
  - The Windows-specific `ffmpeg` working directory.
  - The number of the run that succeeded.
- Downloads.RetryLoop: the outcomes of the download runs are a list. A run past the end of the list counts as a failure.
- Exit code 88 is modelled as the outcome `Exit(88)`. The process ending with it is not modelled.
- A fast/slow address fallback, API error codes and link listing: this code has none of these.

## Findings

| source | as written | input that shows it | evidently intended | confidence | as-written member | corrected member |
|---|---|---|---|---|---|---|
| poliwebex.js:631-632 | the second cookie read is stored in `tiketCookie`, so the test at line 634 looks only at the first read | first read without a `ticket` cookie, second read with `ticket=abc`: the program exits with 88 | after the wait, the second read replaces the first, and its ticket is sent | high (the variable is never read again); not executed | Cookies.ExtractCookies, Cookies.LateTicketLost | Cookies.ExtractCookiesIntended, Cookies.IntendedFallsBackOnRetry |
