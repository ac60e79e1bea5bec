# Video downloader: verified model of the core

The system is a WeChat mini-program for downloading videos from Chinese and
international platforms, with a Python back end built around yt-dlp. This project
models, in Dafny, the logic that the repository itself owns:

- **Platform resolution.** The back end keeps an ordered table of nine domain
  substrings and their display names. `VideoDownloader._detect_platform` takes the
  URL's network location, lower-cases it, drops a leading `www.`, and returns the
  first entry whose domain occurs in it. The client's `getPlatformName` looks the
  same table up on the WHATWG host name instead. Its authority also ends at `\`,
  and the host name leaves out user information and port, so the two sides can
  name different platforms for one URL. Modules `Platforms` and `App`.
- **File names.** `_generate_filename` replaces the reserved characters and
  collapses whitespace runs in the title. It then appends the first eight hex
  digits of the URL's MD5 digest and the Unix second. When something raises, it
  falls back to `video_<seconds>`. Module `FilenamePolicy`.
- **Download orchestration.** `download_video` checks the URL shape, then the
  platform, and only then runs the two-phase engine (`extract_info`, then
  `download`); `_download_with_ytdlp` builds its options on a copy of the shared
  options. An engine error reaches the caller prefixed with `视频下载失败: ` twice,
  once in `_download_with_ytdlp` and once in `download_video`. Class
  `Downloader.VideoDownloader`, with the engine as a parameter.
- **Retention sweep.** `cleanup_downloads` deletes, in listing order, the regular
  files older than the limit; the first exception ends the sweep. It is the method
  `VideoDownloader.CleanupDownloads` over a `Directory` object, specified by the
  function `Retention.Swept`.
- **Client page state.** The index page's input validation, the request it sends,
  the history capped at twenty items, the result modal, the error-message choice,
  and the duration and time formatting. Module `IndexPage` with class `Page`, and
  module `TimeFormat` for the `formatTime` helper.
  `formatTime` is the same in `WebUi/app.js` (298-306) and
  `WebUi/pages/index/index.js` (525-533).

Supporting modules: `Wrappers` (Option, Result), `Text` (substrings, ASCII lower
case, decimal numerals, `padStart`, `trim`) and `Values` (the Python values found in
the engine's metadata dictionary, with Python truthiness).

Foreign and non-deterministic inputs are parameters:
- the MD5 hex digest (`digest`, None when hashing raises);
- the two clock readings (`now`, and `later` for the fallback, which reads the clock again);
- the engine (`Downloader.Engine`, two functions from URL and options to a result);
- whether `new URL` accepts a text (`accepts`);
- the JavaScript `Date` fields and `Date.now()`.

## Model

| member | source | states |
|---|---|---|
| Platforms.FirstMatchIndex | Back/app/video_downloader.py:93-99 | the index found is the first table entry whose domain occurs in the host; no earlier entry's domain occurs; the table length means none matches |
| Platforms.LookupSpec | Back/app/video_downloader.py:93-99 | the lookup is None exactly when no domain occurs in the host; otherwise it is the name of a matching entry that no earlier entry precedes |
| Platforms.LookupRespectsContains | Back/app/video_downloader.py:93-96 | two hosts containing the same table domains get the same answer |
| Platforms.Netloc | Back/app/video_downloader.py:85-86 | without `//` after the scheme the network location is empty; otherwise it is the text after `//` up to the end or the first `/`, `?` or `#`, and holds none of them |
| Platforms.DetectPlatform | Back/app/video_downloader.py:73-103 | None when the network location has a lone bracket (urlsplit raises and the handler returns None); otherwise the table lookup of the lower-cased network location without its leading `www.` |
| Platforms.HttpNetloc | Back/app/video_downloader.py:85-86 | for an `http://` URL the network location is the text after `//` up to the first `/`, `?` or `#` |
| Platforms.HttpsNetloc | Back/app/video_downloader.py:85-86 | the same for `https://` |
| Platforms.NetlocOnly | Back/app/video_downloader.py:85-103 | only the network location decides: any path, query or fragment after the host leaves the verdict unchanged; a host with one bracket only (urlsplit raises) gives None |
| Platforms.ContainsAfterWww | Back/app/video_downloader.py:89-90 | a domain that cannot straddle `www.` occurs in `www.`+h exactly when it occurs in h |
| Platforms.WwwStripIrrelevant | Back/app/video_downloader.py:85-99 | for the registry, stripping `www.` never changes the platform found |
| Platforms.WwwHostExample | Back/app/video_downloader.py:40-50 | `www.douyin.com` is 抖音 |
| Platforms.SubdomainExample | Back/app/video_downloader.py:93-99 | `m.douyin.com` is 抖音 (substring matching) |
| Platforms.LookalikeExample | Back/app/video_downloader.py:93-99 | `douyin.com.cn` is 抖音 too |
| Platforms.UnknownHostExample | Back/app/video_downloader.py:98-99 | `example.org` matches no entry, so a URL with a registered domain only in its path is not recognised |
| Platforms.NoDomainWithoutC | Back/app/video_downloader.py:40-50 | a host without the letter c matches no registered domain |
| Platforms.DomainColumnMatches | WebUi/pages/index/index.js:209-216 | a domain list equal to the table's domain column finds a match exactly when the table lookup does |
| FilenamePolicy.ReplaceReserved | Back/app/video_downloader.py:124 | same length; each reserved character becomes `_`, every other character stays in place |
| FilenamePolicy.CollapseChars | Back/app/video_downloader.py:125 | the collapsed text holds no whitespace and nothing but the input's characters and `_` |
| FilenamePolicy.CollapseMatchesScan | Back/app/video_downloader.py:125 | collapsing equals a left-to-right scan that writes one `_` at the start of each whitespace run |
| FilenamePolicy.CollapseWithoutSpace | Back/app/video_downloader.py:125 | a text without whitespace is unchanged |
| FilenamePolicy.CollapseRunOfTwo | Back/app/video_downloader.py:125 | two whitespace characters between two others become one `_` |
| FilenamePolicy.Sanitize | Back/app/video_downloader.py:122-125 | the sanitised title is never longer than the title, and is non-empty for a non-empty title |
| FilenamePolicy.SanitizeIsSafe | Back/app/video_downloader.py:122-125 | the sanitised title has no reserved character and no whitespace, and is non-empty for a non-empty title |
| FilenamePolicy.SanitizeIdempotent | Back/app/video_downloader.py:122-125 | sanitising twice is sanitising once |
| FilenamePolicy.ReservedExample | Back/app/video_downloader.py:124 | `My:Video*Clip` becomes `My_Video_Clip` |
| FilenamePolicy.SpaceRunExample | Back/app/video_downloader.py:125 | `a  b` becomes `a_b` |
| FilenamePolicy.Hash8 | Back/app/video_downloader.py:119 | the first eight characters of the digest (all of it when shorter) |
| FilenamePolicy.GenerateFilename | Back/app/video_downloader.py:116-135 | fallback (no digest, or a truthy non-string title) is `video_` + the later second; otherwise the name is exactly the sanitised title (a truthy title) or `video` (a falsy one), then `_`+hash8+`_`+second: it starts with the one, ends with the other, and is as long as both together |
| FilenamePolicy.FilenameIsSafe | Back/app/video_downloader.py:116-135 | with a hex digest the name is never empty and holds no reserved character and no whitespace |
| FilenamePolicy.DistinctSeconds | Back/app/video_downloader.py:118-126 | the same title and URL in two different seconds give two different names |
| Retention.Swept | Back/app/video_downloader.py:356-374 | the sweep never leaves more entries than the listing had |
| Retention.FreshMembers | Back/app/video_downloader.py:365-369 | the reference filter keeps exactly the entries that are not regular files older than the limit |
| Retention.SweptKeepsFresh | Back/app/video_downloader.py:361-370 | the sweep never removes a directory or a file within the limit, and adds nothing |
| Retention.SweptWhenAllRemovable | Back/app/video_downloader.py:361-371 | when every deletion succeeds the sweep removes exactly the expired regular files, keeping order |
| Retention.SweptStopsAtFailure | Back/app/video_downloader.py:356-373 | the first failing deletion ends the sweep: entries before it are filtered, it and all later entries stay |
| Retention.ZeroLimitKeepsOnlyNonFiles | Back/app/video_downloader.py:358-370 | with a limit of zero hours, deletions that succeed and every modification time before now, only directories stay |
| Downloader.BaseOptions | Back/app/video_downloader.py:53-69 | the shared options have an output template and no post-processing entry |
| Downloader.WatermarkOptions | Back/app/video_downloader.py:150-157 | without watermark removal the options are the shared ones; with it `postprocessors` is the one-step conversion list; every other key keeps its shared value |
| Downloader.WatermarkOptionsSpec | Back/app/video_downloader.py:150-157 | the copy gains the FFmpegVideoConvertor/mp4 step exactly when the watermark is to be removed; every other key keeps its shared value |
| Downloader.OutputTemplate | Back/app/video_downloader.py:167 | the template is `<dir>/<name>` followed by `.%(ext)s` |
| Downloader.DownloadOptions | Back/app/video_downloader.py:150-167 | `outtmpl` is the template for the directory and the generated name; the conversion step is present on request; every other key keeps its value |
| Downloader.DownloadOptionsSpec | Back/app/video_downloader.py:150-167 | the download phase has the shared keys plus the step on request, the template for the generated name, and every other shared value unchanged |
| Downloader.ReportedFilename | Back/app/video_downloader.py:177 | the reported file name is the generated name, a dot and the extension: the metadata's `ext` as Python's `str` renders it, or `mp4` when there is none |
| Downloader.TemplateNamesReportedFile | Back/app/video_downloader.py:167-177 | expanding the template with the extension the metadata gives (default `mp4`) names `<dir>/` followed by the reported file name |
| Downloader.ResultDict | Back/app/video_downloader.py:175-182 | the result maps the URL, file name, title (default 未知标题), duration, thumbnail, platform and size to their sources |
| Downloader.Marked | Back/app/video_downloader.py:330-331 | the result gains `processed = True` and `remove_watermark` as passed, and every other key keeps its value; no other key appears |
| Downloader.TableMap | Back/app/video_downloader.py:39-50 | the dictionary's keys are exactly the table's domains |
| Downloader.TableMapNames | Back/app/video_downloader.py:39-50 | with distinct domains each domain maps to its own display name |
| Downloader.RegistryDistinct | Back/app/video_downloader.py:39-50 | no two registry entries share a domain |
| Downloader.RegistryMap | Back/app/video_downloader.py:39-50 | in the registry's dictionary every domain maps to its own display name |
| Downloader.VideoDownloader.constructor | Back/app/video_downloader.py:27-69 | directory `downloads`, the registry, and the shared options for that directory |
| Downloader.VideoDownloader.DownloadWithEngine | Back/app/video_downloader.py:148-182 | first `extract_info` with the watermark options; its failure gives the prefixed error and no further call; otherwise `download` with the template for the generated name, then the prefixed error or the result dictionary; no field changes |
| Downloader.VideoDownloader.DownloadVideo | Back/app/video_downloader.py:316-338 | a bad URL shape, then an unknown platform, is refused before any engine call; the engine runs exactly when both pass; when the engine ran, the verdict is its run as `_download_with_ytdlp` makes it: an engine failure arrives with `视频下载失败: ` added a second time, and a success is the engine's result dictionary (file name, title and all) with the two flags added; a success also carries the URL and the known platform |
| Downloader.VideoDownloader.GetSupportedPlatforms | Back/app/video_downloader.py:340-347 | a dictionary whose keys are exactly the table's domains, each mapped to its display name when the domains are distinct |
| Downloader.VideoDownloader.CleanupDownloads | Back/app/video_downloader.py:349-374 | the directory afterwards is the sweep of the listing with limit hours*3600, or unchanged when listing raises |
| App.PlatformNameOfHost | WebUi/app.js:333-339 | 未知平台 exactly when no table domain occurs in the lower-cased host name; otherwise the first match's name |
| App.GetPlatformName | WebUi/app.js:319-343 | 未知平台 when parsing throws; otherwise the name for the URL's host name |
| App.CaseInsensitive | WebUi/app.js:333 | the host name's letter case does not matter |
| App.PathIgnored | WebUi/app.js:333 | only the host is examined: a path, query or fragment after it changes nothing |
| App.AgreesWithBackend | WebUi/app.js:319-343 | when the network location is a plain host name (ASCII letters, digits, `.` and `-`), the client's name is the back end's platform, or 未知平台 where the back end finds none |
| App.HostOfAuthority | WebUi/app.js:333 | the host of an authority is the text after its last `@` up to the first `:` after that, or to the end |
| App.ClientAuthority | WebUi/app.js:333 | the client's authority is the back end's network location up to its first `\`, or all of it |
| App.Hostname | WebUi/app.js:333 | the client's host name is the client's authority after its last `@`, up to the first `:` after that; it holds no `@`, `:` or `\` |
| App.PortIgnored | WebUi/app.js:333 | a port is not part of the host name: `https://` + host + `:` + digits + a path, query or fragment has the plain host name itself |
| App.UserinfoDiverges | WebUi/app.js:333 | with `user@host` the back end can match the user part while the client, looking at the host only, says 未知平台 |
| App.BackslashDiverges | WebUi/app.js:333 | for a host that matches no entry, then `\` and a text that matches one, the back end finds a platform while the client, whose host ends at `\`, says 未知平台 |
| App.BackslashExample | WebUi/app.js:333 | `https://example.org\douyin.com`: the back end finds a platform, the client says 未知平台 |
| TimeFormat.FormatTime | WebUi/app.js:298-306 | the stamp starts with the unpadded year and `-` |
| TimeFormat.PaddedField | WebUi/app.js:300-304 | a number below 100 is padded to two digits that read back as the number |
| TimeFormat.FormatTimeLayout | WebUi/app.js:298-306 | for in-range fields the stamp is the unpadded year then twelve characters, with `-`, `-`, space and `:` in place |
| TimeFormat.FormatTimeDateFields | WebUi/app.js:300-301 | the month field reads back as the month counted from 1, the day field as the day |
| TimeFormat.FormatTimeClockFields | WebUi/app.js:302-303 | the hour and minute fields read back as the hour and the minute |
| IndexPage.OrDefault | WebUi/pages/index/index.js:377-378 | JavaScript `||`: the value when present and non-empty, the default otherwise |
| IndexPage.QualityValue | WebUi/pages/index/index.js:220-227 | 1 is high, 2 is medium, every other index best |
| IndexPage.SupportedDomainsAreRegistry | WebUi/pages/index/index.js:209-213 | the page's list is the back end's domain column in the same order |
| IndexPage.IsSupportedPlatformAsWritten | WebUi/pages/index/index.js:208-217 | as written the platform check holds for every URL |
| IndexPage.IsSupportedPlatform | WebUi/pages/index/index.js:208-217 | the intended check: holds exactly when the registry finds a platform for the lower-cased host name |
| IndexPage.ShadowedCheckExample | WebUi/pages/index/index.js:208-217 | `https://example.org/` passes the check as written and fails the intended one |
| IndexPage.UnsupportedWithoutC | WebUi/pages/index/index.js:215-216 | the intended check refuses a host name without the letter c |
| IndexPage.SupportedIffNamed | WebUi/pages/index/index.js:208-217 | the intended check holds exactly when the client's platform name is known |
| IndexPage.ValidateInputAsWritten | WebUi/pages/index/index.js:173-195 | validation as written: the empty toast exactly for an empty trimmed text, the invalid toast exactly for a non-empty one that does not parse, never the unsupported toast; accepted only for a non-empty trimmed text that parses |
| IndexPage.AsWrittenSkipsPlatform | WebUi/pages/index/index.js:173-195 | as written validation accepts exactly the non-empty parseable texts; the empty and invalid toasts each show exactly in their case and the unsupported toast never; it equals the intended validation with its unsupported verdict turned into acceptance |
| IndexPage.ValidateInput | WebUi/pages/index/index.js:173-195 | validation with the intended platform check: accepted only for a non-empty trimmed text that parses and names a supported platform; every rejection carries one of the three toasts |
| IndexPage.ValidateInputSpec | WebUi/pages/index/index.js:173-195 | validation with the intended platform check: empty, then unparseable, then unknown platform, each toast exactly in its case; accepted exactly when the trimmed text is non-empty and names a platform |
| IndexPage.ErrorMessage | WebUi/pages/index/index.js:287-301 | one of the three messages; the network message when there is no `errMsg` |
| IndexPage.ErrorMessageSpec | WebUi/pages/index/index.js:287-301 | timeout message when `errMsg` contains `timeout`; connection message when it contains `fail` but not `timeout`; network message otherwise, a missing `errMsg` included |
| IndexPage.HistoryEntry | WebUi/pages/index/index.js:375-384 | `id` and `time` as given; title is the file name, or 未知标题 when it is missing or empty; platform likewise with 未知平台; success, URL, size and duration are copied |
| IndexPage.Prepended | WebUi/pages/index/index.js:387-392 | the new item first, then the previous items in order, min(old+1, 20) items in all |
| IndexPage.FormatDuration | WebUi/pages/index/index.js:547-554 | 未知 exactly for a missing or zero duration |
| IndexPage.FormatDurationReadBack | WebUi/pages/index/index.js:550-553 | for a positive duration the text is the minutes `s / 60` without leading zeros, a colon, and two digits reading back as `s % 60` |
| IndexPage.DurationExample | WebUi/pages/index/index.js:547-554 | 65 seconds is `1:05` |
| IndexPage.Page.constructor | WebUi/pages/index/index.js:10-42 | the page's initial data |
| IndexPage.Page.StartDownload | WebUi/pages/index/index.js:144-170 | with validation as written: a rejected input gives its toast, no request and no state change; an accepted one marks the page busy and sends the untrimmed URL, the flag and the quality; a request goes out exactly when the trimmed text is non-empty and parses, whatever its platform |
| IndexPage.Page.CompleteRequest | WebUi/pages/index/index.js:253-261 | the page is no longer busy |
| IndexPage.Page.ShowResultModal | WebUi/pages/index/index.js:304-313 | the modal is shown with the given title, message and outcome |
| IndexPage.Page.CloseResultModal | WebUi/pages/index/index.js:316-320 | only the visibility flag is cleared |
| IndexPage.Page.AddToHistory | WebUi/pages/index/index.js:371-397 | the history becomes the new item followed by the old history, capped at twenty |
| IndexPage.Page.HandleDownloadSuccess | WebUi/pages/index/index.js:266-284 | a successful reply is stored, recorded in the history and announced; any other reply leaves both alone and shows its message or the retry text |
| IndexPage.Page.HandleDownloadError | WebUi/pages/index/index.js:287-301 | the failure modal with the message chosen from `errMsg` |

## Left out

- The yt-dlp library and FFmpeg: the engine is a parameter of the download methods, so what it writes to disk is not modelled.
- The result dictionary's pass-through keys (`format`, `uploader` and about a hundred more, Back/app/video_downloader.py:183-293): each is a plain copy from the metadata. Only the seven keys before them are modelled.
- `hashlib.md5` and `time.time()`: both are parameters. The digest is assumed to be the lower-case hex string that `hexdigest()` returns (`FilenamePolicy.FilenameIsSafe` requires it).
- Floating-point time: clock readings, modification times and durations are integers. `Math.floor(seconds % 60)` is therefore the remainder itself.
- The full `urllib.parse.urlsplit` and WHATWG URL grammars. The back end's network location is the text between `//` and the first `/`, `?` or `#`. The client's authority also ends at `\`, and its host name drops user information and port. Not modelled: IPv6 literals, and the `ValueError` that newer urlsplit versions (Python 3.11.4 on) raise for balanced brackets around a host that is not an IP address, as in `https://[douyin.com]/`, where the source gives None and the model 抖音; tab and newline stripping, percent-decoding, IDNA, non-special schemes, and how WHATWG reads a special-scheme URL with missing, extra or backslashed slashes after the scheme (`https:host`, `https:///host`, `https:\\host`). The model reads those as urlsplit does. Whether `new URL` throws is the parameter `accepts`.
- App.AgreesWithBackend: agreement is claimed only when the network location is a plain ASCII host name. User information, a port and a backslash are where the two sides part (`App.UserinfoDiverges`, `App.BackslashDiverges`), and the slash variants above are not modelled.
- Python's Unicode `\s`, `str.lower`, JavaScript's `toLowerCase` and `trim` are modelled on ASCII only.
- Directory creation in the constructor, logging, `asyncio`, and the `Directory` listing's path joins.
- Downloader.BaseOptions and Downloader.OutputTemplate: paths are joined with the POSIX separator `/`. `os.path.join` (Back/app/video_downloader.py:56 and :167) uses the platform's own separator, so on Windows the template would hold `\` instead.
- Retention.DirEntry: a file whose modification time cannot be read also ends the sweep in the source, even when it is not expired. The model folds that failure into `removable`, which only expired files consult.
- The FastAPI routes, CORS and HTTP status mapping (Back/main.py), the server launcher (Back/start_server.py) and the request and response declarations (Back/app/models.py). They are not part of this model.
- All `wx.*` calls: the request itself, `downloadFile`, saving to the album, storage, toasts, loading indicators and network listeners. The toasts are returned as values instead.
- `formatFileSize`: it works on floating point (`Math.log`, `Math.pow`, `toFixed`).
- The history viewers, `clearHistory`, `loadDownloadHistory` and `saveDownloadHistory`: they are storage and navigation plumbing.
- IndexPage.QualityValue: the picker index is an integer. The JavaScript object lookup would also accept the strings `"1"` and `"2"`.

## Findings

| source | as written | input that shows it | evidently intended | confidence | as-written member | corrected member |
|---|---|---|---|---|---|---|
| WebUi/pages/index/index.js:216 | the callback's parameter `domain` hides the host name, so each listed domain is compared with itself and every parseable URL passes as supported | `https://example.org/` | the lower-cased host name contains one of the listed domains | not executed | IndexPage.ShadowedCheckExample | IndexPage.SupportedIffNamed |
