/**
 * The mini-program's index page: input validation, the request it sends, the
 * result modal, the capped download history and the display helpers.
 */
module IndexPage {
  import opened Wrappers
  import opened Text
  import opened Platforms
  import opened App
  import opened TimeFormat

  const MaxHistory: nat := 20

  const EmptyUrlToast: string := "请输入视频链接"
  const InvalidUrlToast: string := "请输入有效的视频链接"
  const UnsupportedToast: string := "暂不支持该平台的视频下载"
  const SuccessTitle: string := "下载成功"
  const SuccessMessage: string := "视频已成功下载，是否保存到相册？"
  const FailureTitle: string := "下载失败"
  const RetryMessage: string := "下载失败，请重试"
  const NetworkMessage: string := "网络错误，请检查网络连接"
  const TimeoutMessage: string := "请求超时，请重试"
  const ConnectionMessage: string := "网络连接失败，请检查网络设置"
  const UnknownTitle: string := "未知标题"
  const UnknownDuration: string := "未知"

  datatype Modal = Modal(title: string, message: string, success: bool)

  /** The back end's JSON reply; an absent or null field is None. */
  datatype Response = Response(success: bool, message: Option<string>, videoUrl: Option<string>,
                               filename: Option<string>, platform: Option<string>,
                               fileSize: Option<int>, duration: Option<int>)

  datatype HistoryItem = HistoryItem(id: int, title: string, platform: string, time: string, success: bool,
                                     url: Option<string>, fileSize: Option<int>, duration: Option<int>)

  /** The body of the download request. */
  datatype Request = Request(url: string, removeWatermark: bool, quality: string)

  datatype Verdict = Accept | Reject(toast: string)

  /** The error object of a failed `wx.request`. */
  datatype WxError = WxError(errMsg: Option<string>)

  /** JavaScript `s || fallback` for a string that may be missing: the empty string is falsy too. */
  function OrDefault(s: Option<string>, fallback: string): (r: string)
    ensures s.Some? && s.value != "" ==> r == s.value
    ensures s.None? || s.value == "" ==> r == fallback
  {
    if s.Some? && s.value != "" then s.value else fallback
  }

  // ----- getQualityValue -----

  /** `getQualityValue`: the picker index to the quality the back end understands. */
  function QualityValue(index: int): (q: string)
    ensures q == "best" || q == "high" || q == "medium"
    ensures q == "high" <==> index == 1
    ensures q == "medium" <==> index == 2
  {
    if index == 1 then "high" else if index == 2 then "medium" else "best"
  }

  // ----- isSupportedPlatform -----

  /** The page's own copy of the domain list. */
  const SupportedDomains: seq<string> := [
    "douyin.com", "kuaishou.com", "weibo.com", "bilibili.com",
    "youtube.com", "instagram.com", "tiktok.com", "xiaohongshu.com",
    "ixigua.com"
  ]

  /** The page's list is the registry's domain column, in the same order. */
  lemma SupportedDomainsAreRegistry()
    ensures |SupportedDomains| == |Registry|
    ensures forall i :: 0 <= i < |Registry| ==> SupportedDomains[i] == Registry[i].domain
  {
  }

  /**
   * `isSupportedPlatform` as written: the callback's parameter `domain` hides the
   * host name, so each domain is compared with itself.
   */
  predicate IsSupportedPlatformAsWritten(url: string)
    ensures IsSupportedPlatformAsWritten(url)
  {
    assert Contains(SupportedDomains[0], SupportedDomains[0]) by {
      assert IsPrefix(SupportedDomains[0], SupportedDomains[0]);
    }
    exists i :: 0 <= i < |SupportedDomains| && Contains(SupportedDomains[i], SupportedDomains[i])
  }

  /**
   * The check as intended: some listed domain occurs in the lower-cased host name,
   * which is when the registry knows the host.
   */
  predicate IsSupportedPlatform(url: string)
    ensures IsSupportedPlatform(url) <==> Lookup(Registry, Lower(Hostname(url))).Some?
  {
    SupportedDomainsAreRegistry();
    DomainColumnMatches(SupportedDomains, Registry, Lower(Hostname(url)));
    exists i :: 0 <= i < |SupportedDomains| && Contains(Lower(Hostname(url)), SupportedDomains[i])
  }

  lemma DomainsContainC()
    ensures forall i :: 0 <= i < |SupportedDomains| ==> 'c' in SupportedDomains[i]
  {
  }

  /** A host name without the letter c matches no listed domain (each ends in ".com"). */
  lemma UnsupportedWithoutC(url: string)
    requires 'c' !in Lower(Hostname(url))
    ensures !IsSupportedPlatform(url)
  {
    DomainsContainC();
    forall i | 0 <= i < |SupportedDomains| ensures !Contains(Lower(Hostname(url)), SupportedDomains[i]) {
      MissingChar(Lower(Hostname(url)), SupportedDomains[i], 'c');
    }
  }

  /** A plain lower-case host name without the letter c is refused by the intended check. */
  lemma PlainHostWithoutC(host: string)
    requires forall j :: 0 <= j < |host| ==> !IsNetlocEnd(host[j]) && host[j] != '@' && host[j] != ':' && host[j] != '\\' && !IsUpper(host[j])
    requires 'c' !in host
    ensures !IsSupportedPlatform("https://" + host + "/")
  {
    assert '@' !in host && ':' !in host && '\\' !in host;
    PathIgnored(host, "/");
    LowerOfLowercase(host);
    UnsupportedWithoutC("https://" + host + "/");
  }

  /** An unlisted host shows the difference: accepted as written, refused as intended. */
  lemma ShadowedCheckExample(host: string)
    requires host == "example.org"
    ensures IsSupportedPlatformAsWritten("https://" + host + "/")
    ensures !IsSupportedPlatform("https://" + host + "/")
  {
    assert forall j :: 0 <= j < |host| ==> !IsNetlocEnd(host[j]) && host[j] != '@' && host[j] != ':' && host[j] != '\\' && !IsUpper(host[j]);
    assert 'c' !in host;
    PlainHostWithoutC(host);
  }

  /** The intended check agrees with the client's platform name: supported exactly when it is known. */
  lemma SupportedIffNamed(url: string, accepts: string -> bool)
    requires accepts(url)
    ensures IsSupportedPlatform(url) <==> GetPlatformName(url, accepts) != UnknownPlatform
  {
    SupportedDomainsAreRegistry();
    DomainColumnMatches(SupportedDomains, Registry, Lower(Hostname(url)));
  }

  // ----- validateInput -----

  /** `validateInput` as written, with the always-true platform check. `accepts` says whether `new URL` parses. */
  function ValidateInputAsWritten(videoUrl: string, accepts: string -> bool): (v: Verdict)
    ensures v == Accept ==> Trim(videoUrl) != "" && accepts(Trim(videoUrl))
    ensures v == Reject(EmptyUrlToast) <==> Trim(videoUrl) == ""
    ensures v == Reject(InvalidUrlToast) <==> Trim(videoUrl) != "" && !accepts(Trim(videoUrl))
    ensures v != Reject(UnsupportedToast)
  {
    var url := Trim(videoUrl);
    if url == "" then Reject(EmptyUrlToast)
    else if !accepts(url) then Reject(InvalidUrlToast)
    else if !IsSupportedPlatformAsWritten(url) then Reject(UnsupportedToast)
    else Accept
  }

  /**
   * As written, validation is only "non-empty after trimming, then parseable", each
   * failure with its own toast; the unsupported toast never shows. It is the intended
   * validation with its unsupported verdict turned into acceptance.
   */
  lemma AsWrittenSkipsPlatform(videoUrl: string, accepts: string -> bool)
    ensures ValidateInputAsWritten(videoUrl, accepts) == Accept <==> Trim(videoUrl) != "" && accepts(Trim(videoUrl))
    ensures ValidateInputAsWritten(videoUrl, accepts) == Reject(EmptyUrlToast) <==> Trim(videoUrl) == ""
    ensures ValidateInputAsWritten(videoUrl, accepts) == Reject(InvalidUrlToast) <==>
              Trim(videoUrl) != "" && !accepts(Trim(videoUrl))
    ensures ValidateInputAsWritten(videoUrl, accepts) != Reject(UnsupportedToast)
    ensures ValidateInputAsWritten(videoUrl, accepts) ==
              if ValidateInput(videoUrl, accepts) == Reject(UnsupportedToast) then Accept else ValidateInput(videoUrl, accepts)
  {
  }

  /** `validateInput` with the intended platform check: empty, then unparseable, then unsupported. */
  function ValidateInput(videoUrl: string, accepts: string -> bool): (v: Verdict)
    ensures v == Accept ==> Trim(videoUrl) != "" && accepts(Trim(videoUrl)) && IsSupportedPlatform(Trim(videoUrl))
    ensures v.Reject? ==> v.toast == EmptyUrlToast || v.toast == InvalidUrlToast || v.toast == UnsupportedToast
  {
    var url := Trim(videoUrl);
    if url == "" then Reject(EmptyUrlToast)
    else if !accepts(url) then Reject(InvalidUrlToast)
    else if !IsSupportedPlatform(url) then Reject(UnsupportedToast)
    else Accept
  }

  /** The verdict in the client's own terms: accepted exactly when the trimmed text parses and names a platform. */
  lemma ValidateInputSpec(videoUrl: string, accepts: string -> bool)
    ensures var url := Trim(videoUrl);
      (ValidateInput(videoUrl, accepts) == Accept <==> GetPlatformName(url, accepts) != UnknownPlatform && url != "")
      && (ValidateInput(videoUrl, accepts) == Reject(EmptyUrlToast) <==> url == "")
      && (ValidateInput(videoUrl, accepts) == Reject(InvalidUrlToast) <==> url != "" && !accepts(url))
      && (ValidateInput(videoUrl, accepts) == Reject(UnsupportedToast) <==>
            url != "" && accepts(url) && GetPlatformName(url, accepts) == UnknownPlatform)
  {
    var url := Trim(videoUrl);
    if accepts(url) {
      SupportedIffNamed(url, accepts);
    }
  }

  // ----- handleDownloadError -----

  /** The message `handleDownloadError` shows for a failed request. */
  function ErrorMessage(err: WxError): (m: string)
    ensures m == TimeoutMessage || m == ConnectionMessage || m == NetworkMessage
    ensures err.errMsg.None? ==> m == NetworkMessage
  {
    if err.errMsg.Some? && err.errMsg.value != "" then
      if Contains(err.errMsg.value, "timeout") then TimeoutMessage
      else if Contains(err.errMsg.value, "fail") then ConnectionMessage
      else NetworkMessage
    else NetworkMessage
  }

  /** Timeout wins over failure, and anything else (no message at all included) is a network error. */
  lemma ErrorMessageSpec(err: WxError)
    ensures ErrorMessage(err) == TimeoutMessage <==> err.errMsg.Some? && Contains(err.errMsg.value, "timeout")
    ensures ErrorMessage(err) == ConnectionMessage <==>
              err.errMsg.Some? && !Contains(err.errMsg.value, "timeout") && Contains(err.errMsg.value, "fail")
    ensures ErrorMessage(err) == NetworkMessage <==>
              err.errMsg.None? || (!Contains(err.errMsg.value, "timeout") && !Contains(err.errMsg.value, "fail"))
  {
    if err.errMsg.Some? && err.errMsg.value == "" {
      assert !Contains(err.errMsg.value, "timeout");
      assert !Contains(err.errMsg.value, "fail");
    }
  }

  // ----- history -----

  /** The history item made from a reply; `time` is the formatted clock reading and `id` the millisecond clock. */
  function HistoryEntry(data: Response, id: int, time: string): (item: HistoryItem)
    ensures item.id == id && item.time == time
    ensures item.title != "" && item.platform != ""
    ensures (data.filename.None? || data.filename.value == "") ==> item.title == UnknownTitle
    ensures (data.platform.None? || data.platform.value == "") ==> item.platform == UnknownPlatform
    ensures data.filename.Some? && data.filename.value != "" ==> item.title == data.filename.value
    ensures data.platform.Some? && data.platform.value != "" ==> item.platform == data.platform.value
    ensures item.success == data.success && item.url == data.videoUrl
    ensures item.fileSize == data.fileSize && item.duration == data.duration
  {
    HistoryItem(id, OrDefault(data.filename, UnknownTitle), OrDefault(data.platform, UnknownPlatform), time,
                data.success, data.videoUrl, data.fileSize, data.duration)
  }

  /** The history after adding `item`: it comes first, then the previous items in order, at most 20 in all. */
  function Prepended(history: seq<HistoryItem>, item: HistoryItem): (r: seq<HistoryItem>)
    ensures |r| == if |history| + 1 < MaxHistory then |history| + 1 else MaxHistory
    ensures r[0] == item
    ensures forall i :: 1 <= i < |r| ==> r[i] == history[i - 1]
  {
    if |history| < MaxHistory then [item] + history else [item] + history[..MaxHistory - 1]
  }

  // ----- formatDuration -----

  /** JavaScript `a % b`: the remainder takes the sign of the dividend. */
  function JsRem(a: int, b: int): int
    requires b > 0
  {
    if a >= 0 then a % b else -((-a) % b)
  }

  /** `formatDuration(seconds)`: `未知` for a missing or zero duration, otherwise minutes, a colon and padded seconds. */
  function FormatDuration(seconds: Option<int>): (r: string)
    ensures (seconds.None? || seconds.value == 0) <==> r == UnknownDuration
  {
    if seconds.None? || seconds.value == 0 then UnknownDuration
    else
      var s := seconds.value;
      var text := IntToDecimal(s / 60) + ":" + PadStart2(IntToDecimal(JsRem(s, 60)));
      assert text[|IntToDecimal(s / 60)|] == ':';
      assert ':' !in UnknownDuration;
      text
  }

  /** Where the minutes and the seconds sit in `m:ss`. */
  lemma DurationParts(m: string, sec: string)
    requires |sec| == 2
    ensures var r := m + ":" + sec;
      |r| == |m| + 3 && r[|m|] == ':' && r[..|m|] == m && r[|m| + 1..] == sec
  {
  }

  /** For a positive duration the text reads back: minutes times sixty plus the two-digit seconds. */
  lemma FormatDurationReadBack(s: int)
    requires s > 0
    ensures var r := FormatDuration(Some(s)); var k := |r| - 3;
      k >= 1 && r[k] == ':' && AllDigits(r[..k]) && AllDigits(r[k + 1..])
      && DecimalValue(r[..k]) == s / 60 && DecimalValue(r[k + 1..]) == s % 60
      && (k == 1 || r[0] != '0')
      && DecimalValue(r[..k]) * 60 + DecimalValue(r[k + 1..]) == s
  {
    var m := IntToDecimal(s / 60);
    var sec := PadStart2(IntToDecimal(JsRem(s, 60)));
    assert JsRem(s, 60) == s % 60;
    TwoDigits(s % 60);
    DecimalRoundTrip(s / 60);
    assert m == NatToDecimal(s / 60);
    DurationParts(m, sec);
    assert FormatDuration(Some(s)) == m + ":" + sec;
  }

  /** A minute and five seconds is written `1:05`. */
  lemma DurationExample(s: int)
    requires s == 65
    ensures FormatDuration(Some(s)) == "1:05"
  {
    assert JsRem(s, 60) == 5 && s / 60 == 1;
    assert IntToDecimal(1) == "1" && IntToDecimal(5) == "5";
    assert PadStart2("5") == "05";
  }

  // ----- the page -----

  class Page {
    var videoUrl: string
    var removeWatermark: bool
    var qualityIndex: int
    var isDownloading: bool
    var downloadHistory: seq<HistoryItem>
    var showResultModal: bool
    var resultModal: Modal
    var currentDownloadResult: Option<Response>

    /** The page's initial data. */
    constructor()
      ensures videoUrl == "" && !removeWatermark && qualityIndex == 0 && !isDownloading
      ensures downloadHistory == [] && !showResultModal && resultModal == Modal("", "", false)
      ensures currentDownloadResult == None
    {
      videoUrl := "";
      removeWatermark := false;
      qualityIndex := 0;
      isDownloading := false;
      downloadHistory := [];
      showResultModal := false;
      resultModal := Modal("", "", false);
      currentDownloadResult := None;
    }

    /**
     * `startDownload`, with validation as written: on a rejected input shows the
     * toast and does nothing else; otherwise marks the page busy and returns the
     * request, whose URL is the text as typed, not the trimmed one. Since the
     * platform check always holds, a request goes out exactly when the trimmed text
     * is non-empty and parses.
     */
    method StartDownload(removeWatermark: bool, accepts: string -> bool) returns (request: Option<Request>, toast: Option<string>)
      modifies this`isDownloading
      ensures ValidateInputAsWritten(videoUrl, accepts).Reject? ==>
                request == None && toast == Some(ValidateInputAsWritten(videoUrl, accepts).toast)
                && isDownloading == old(isDownloading)
      ensures ValidateInputAsWritten(videoUrl, accepts) == Accept ==>
                request == Some(Request(videoUrl, removeWatermark, QualityValue(qualityIndex)))
                && toast == None && isDownloading
      ensures request.Some? <==> Trim(videoUrl) != "" && accepts(Trim(videoUrl))
    {
      var verdict := ValidateInputAsWritten(videoUrl, accepts);
      if verdict.Reject? {
        return None, Some(verdict.toast);
      }
      isDownloading := true;
      request := Some(Request(videoUrl, removeWatermark, QualityValue(qualityIndex)));
      toast := None;
    }

    /** The `complete` callback of the request: the page is no longer busy. */
    method CompleteRequest()
      modifies this`isDownloading
      ensures !isDownloading
    {
      isDownloading := false;
    }

    method ShowResultModal(title: string, message: string, success: bool)
      modifies this`showResultModal, this`resultModal
      ensures showResultModal && resultModal == Modal(title, message, success)
    {
      showResultModal := true;
      resultModal := Modal(title, message, success);
    }

    /** Hides the modal; its contents stay. */
    method CloseResultModal()
      modifies this`showResultModal
      ensures !showResultModal
    {
      showResultModal := false;
    }

    /** `addToHistory`: put the new item first and cut the list to twenty. */
    method AddToHistory(data: Response, id: int, time: string)
      modifies this`downloadHistory
      ensures downloadHistory == Prepended(old(downloadHistory), HistoryEntry(data, id, time))
    {
      var history := downloadHistory;
      var item := HistoryEntry(data, id, time);
      history := [item] + history;
      if |history| > MaxHistory {
        history := history[..MaxHistory];
      }
      downloadHistory := history;
    }

    /** `handleDownloadSuccess`: a successful reply is kept, recorded and announced; any other shows its message. */
    method HandleDownloadSuccess(data: Response, id: int, now: Date)
      modifies this`currentDownloadResult, this`downloadHistory, this`showResultModal, this`resultModal
      ensures data.success ==>
                currentDownloadResult == Some(data)
                && downloadHistory == Prepended(old(downloadHistory), HistoryEntry(data, id, FormatTime(now)))
                && showResultModal && resultModal == Modal(SuccessTitle, SuccessMessage, true)
      ensures !data.success ==>
                currentDownloadResult == old(currentDownloadResult) && downloadHistory == old(downloadHistory)
                && showResultModal && resultModal == Modal(FailureTitle, OrDefault(data.message, RetryMessage), false)
    {
      if data.success {
        currentDownloadResult := Some(data);
        AddToHistory(data, id, FormatTime(now));
        ShowResultModal(SuccessTitle, SuccessMessage, true);
      } else {
        ShowResultModal(FailureTitle, OrDefault(data.message, RetryMessage), false);
      }
    }

    /** `handleDownloadError`: the failure modal with the message chosen from `errMsg`. */
    method HandleDownloadError(err: WxError)
      modifies this`showResultModal, this`resultModal
      ensures showResultModal && resultModal == Modal(FailureTitle, ErrorMessage(err), false)
    {
      ShowResultModal(FailureTitle, ErrorMessage(err), false);
    }
  }
}
