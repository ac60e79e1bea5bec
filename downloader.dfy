/**
 * The back end's `VideoDownloader`: its fixed configuration, the orchestration of
 * one download around an abstract extraction engine, and the retention sweep of
 * the download directory.
 */
module Downloader {
  import opened Wrappers
  import opened Text
  import opened Values
  import opened Platforms
  import opened FilenamePolicy
  import opened Retention

  /** A post-processing step handed to the engine. */
  datatype PostProcessor = PostProcessor(key: string, preferedformat: string)

  /** The values that occur in the engine's option dictionary. */
  datatype OptValue = OStr(s: string) | OBool(b: bool) | OProcessors(steps: seq<PostProcessor>)

  type Options = map<string, OptValue>

  /** The shared engine options, for output under directory `dir`. */
  function BaseOptions(dir: string): (o: Options)
    ensures "postprocessors" !in o && "outtmpl" in o
  {
    map[
      "format" := OStr("best"),
      "outtmpl" := OStr(dir + "/%(title)s.%(ext)s"),
      "quiet" := OBool(true),
      "no_warnings" := OBool(true),
      "extract_flat" := OBool(false),
      "write_thumbnail" := OBool(true),
      "writethumbnail" := OBool(true),
      "writeinfojson" := OBool(true),
      "writesubtitles" := OBool(false),
      "writeautomaticsub" := OBool(false),
      "ignoreerrors" := OBool(false),
      "no_color" := OBool(true),
      "geo_bypass" := OBool(true),
      "geo_bypass_country" := OStr("CN"),
      "geo_bypass_ip_block" := OBool(true)
    ]
  }

  const ErrorPrefix: string := "视频下载失败: "
  const InvalidUrlMessage: string := "无效的视频链接"
  const UnsupportedMessage: string := "不支持的视频平台"
  const UnknownTitle: string := "未知标题"

  /** The step added when the watermark is to be removed: transcode to MP4. */
  const WatermarkStep: PostProcessor := PostProcessor("FFmpegVideoConvertor", "mp4")

  /** The options for the metadata phase: a copy of `opts`, plus the transcoding step on request. */
  function WatermarkOptions(opts: Options, removeWatermark: bool): (o: Options)
    ensures !removeWatermark ==> o == opts
    ensures removeWatermark ==> "postprocessors" in o && o["postprocessors"] == OProcessors([WatermarkStep])
    ensures forall k :: k in opts && k != "postprocessors" ==> k in o && o[k] == opts[k]
  {
    if removeWatermark then opts["postprocessors" := OProcessors([WatermarkStep])] else opts
  }

  /** The copy gains a post-processing entry exactly when the watermark is to be removed,
      and every other key keeps its shared value. */
  lemma WatermarkOptionsSpec(opts: Options, removeWatermark: bool)
    requires "postprocessors" !in opts
    ensures "postprocessors" in WatermarkOptions(opts, removeWatermark) <==> removeWatermark
    ensures removeWatermark ==> WatermarkOptions(opts, removeWatermark)["postprocessors"] == OProcessors([WatermarkStep])
    ensures WatermarkOptions(opts, removeWatermark).Keys - {"postprocessors"} == opts.Keys
    ensures forall k :: k in opts ==> WatermarkOptions(opts, removeWatermark)[k] == opts[k]
  {
  }

  /** The output template of the download phase: `<dir>/<name>.%(ext)s`. */
  function OutputTemplate(dir: string, name: string): (t: string)
    ensures IsPrefix(dir + "/" + name, t) && IsSuffix(".%(ext)s", t)
  {
    dir + "/" + name + ".%(ext)s"
  }

  /** The options for the download phase: the metadata-phase options with the output template set. */
  function DownloadOptions(opts: Options, removeWatermark: bool, dir: string, name: string): (o: Options)
    ensures "outtmpl" in o && o["outtmpl"] == OStr(OutputTemplate(dir, name))
    ensures removeWatermark ==> "postprocessors" in o && o["postprocessors"] == OProcessors([WatermarkStep])
    ensures forall k :: k in opts && k != "outtmpl" && k != "postprocessors" ==> k in o && o[k] == opts[k]
  {
    WatermarkOptions(opts, removeWatermark)["outtmpl" := OStr(OutputTemplate(dir, name))]
  }

  /** The download phase sees the shared options except for the post-processing step and the template. */
  lemma DownloadOptionsSpec(opts: Options, removeWatermark: bool, dir: string, name: string)
    requires "postprocessors" !in opts && "outtmpl" in opts
    ensures DownloadOptions(opts, removeWatermark, dir, name).Keys == opts.Keys + (if removeWatermark then {"postprocessors"} else {})
    ensures DownloadOptions(opts, removeWatermark, dir, name)["outtmpl"] == OStr(OutputTemplate(dir, name))
    ensures forall k :: k in opts && k != "outtmpl" ==> DownloadOptions(opts, removeWatermark, dir, name)[k] == opts[k]
  {
  }

  /** `%(ext)s` in the template replaced by the extension the engine picks. */
  function ExpandExt(template: string, ext: string): string
    requires IsSuffix("%(ext)s", template)
  {
    template[..|template| - 7] + ext
  }

  /** The file the engine writes is `<dir>/` followed by the file name reported to the caller. */
  lemma TemplateNamesReportedFile(dir: string, name: string, info: Dict)
    ensures ExpandExt(OutputTemplate(dir, name), Render(GetOr(info, "ext", VStr("mp4")))) == dir + "/" + ReportedFilename(name, info)
  {
    var t := OutputTemplate(dir, name);
    assert t[..|t| - 7] == dir + "/" + name + ".";
  }

  /** One invocation of the engine, with the options it was given. */
  datatype Call = ExtractInfo(url: string, opts: Options) | Download(url: string, opts: Options)

  /**
   * The extraction engine as two functions of the URL and the options: the
   * metadata phase returns the metadata dictionary or an error text, the download
   * phase returns None on success or an error text.
   */
  datatype Engine = Engine(extractInfo: (string, Options) -> Result<Dict>, download: (string, Options) -> Option<string>)

  /** The URL shape the entry point accepts: non-empty and starting with `http://` or `https://`. */
  predicate HasWebScheme(url: string) {
    url != [] && (IsPrefix("http://", url) || IsPrefix("https://", url))
  }

  function PlatformValue(p: Option<string>): Value {
    match p
    case Some(name) => VStr(name)
    case None => VNone
  }

  /** The file name reported for a download: generated name, a dot, and the extension (default `mp4`). */
  function ReportedFilename(name: string, info: Dict): (f: string)
    ensures IsPrefix(name + ".", f)
    ensures "ext" !in info ==> f == name + ".mp4"
    ensures "ext" in info ==> f == name + "." + Render(info["ext"])
  {
    name + "." + Render(GetOr(info, "ext", VStr("mp4")))
  }

  /** The first-class keys of the result dictionary. */
  function ResultDict(url: string, filename: string, info: Dict, platform: Option<string>): (d: Dict)
    ensures Maps(d, "video_url", VStr(url))
    ensures Maps(d, "filename", VStr(filename))
    ensures Maps(d, "title", GetOr(info, "title", VStr(UnknownTitle)))
    ensures Maps(d, "duration", Get(info, "duration"))
    ensures Maps(d, "thumbnail_url", Get(info, "thumbnail"))
    ensures Maps(d, "platform", PlatformValue(platform))
    ensures Maps(d, "file_size", Get(info, "filesize"))
  {
    map[
      "video_url" := VStr(url),
      "filename" := VStr(filename),
      "title" := GetOr(info, "title", VStr(UnknownTitle)),
      "duration" := Get(info, "duration"),
      "thumbnail_url" := Get(info, "thumbnail"),
      "platform" := PlatformValue(platform),
      "file_size" := Get(info, "filesize")
    ]
  }

  /** The result dictionary with the two flags `download_video` adds; every other key keeps its value. */
  function Marked(d: Dict, removeWatermark: bool): (m: Dict)
    ensures Maps(m, "processed", VBool(true)) && Maps(m, "remove_watermark", VBool(removeWatermark))
    ensures forall k :: k in d && k != "processed" && k != "remove_watermark" ==> Maps(m, k, d[k])
    ensures m.Keys == d.Keys + {"processed", "remove_watermark"}
  {
    d["processed" := VBool(true)]["remove_watermark" := VBool(removeWatermark)]
  }

  /** The keys the caller relies on are not the two flags. */
  lemma MarkedKeeps(d: Dict, removeWatermark: bool)
    ensures forall k :: k in d && (k == "video_url" || k == "platform" || k == "filename" || k == "title") ==>
              Maps(Marked(d, removeWatermark), k, d[k])
  {
    assert "video_url" != "processed" && "video_url" != "remove_watermark";
    assert "platform" != "processed" && "platform" != "remove_watermark";
    assert "filename" != "processed" && "filename" != "remove_watermark";
    assert "title" != "processed" && "title" != "remove_watermark";
  }

  /**
   * What the two-phase engine run returns and which calls it makes: first
   * `extract_info` with the watermark options; on failure the prefixed error; on
   * success `download` with the output template for the generated name, and then
   * either the prefixed error or the result dictionary.
   */
  ghost predicate EngineRunAsSpecified(url: string, removeWatermark: bool, engine: Engine,
                                       digest: Option<string>, now: nat, later: nat,
                                       base: Options, dir: string, table: seq<Entry>,
                                       r: Result<Dict>, calls: seq<Call>)
  {
    var info := engine.extractInfo(url, WatermarkOptions(base, removeWatermark));
    (info.Failure? ==> |calls| == 1 && r == Failure(ErrorPrefix + info.error))
    && (info.Success? ==>
          var name := GenerateFilename(Get(info.value, "title"), digest, now, later);
          var opts := DownloadOptions(base, removeWatermark, dir, name);
          var failure := engine.download(url, opts);
          |calls| == 2 && calls[1] == Download(url, opts)
          && (failure.Some? ==> r == Failure(ErrorPrefix + failure.value))
          && (failure.None? ==>
                r == Success(ResultDict(url, ReportedFilename(name, info.value), info.value,
                                        DetectPlatform(table, url)))))
  }

  /** A directory listing that the sweep works on. `listable` is false when listing raises. */
  class Directory {
    var entries: seq<DirEntry>
    var listable: bool

    constructor(entries: seq<DirEntry>, listable: bool)
      ensures this.entries == entries && this.listable == listable
    {
      this.entries := entries;
      this.listable := listable;
    }
  }

  class VideoDownloader {
    var downloadDir: string
    var supportedPlatforms: seq<Entry>
    var ydlOpts: Options

    constructor()
      ensures downloadDir == "downloads"
      ensures supportedPlatforms == Registry
      ensures ydlOpts == BaseOptions("downloads")
    {
      downloadDir := "downloads";
      supportedPlatforms := Registry;
      ydlOpts := BaseOptions("downloads");
    }

    /**
     * The two-phase engine run. `digest` is the URL's hex MD5 (None when hashing
     * fails); `now` and `later` are the clock readings used by the name. Both
     * engine failures come back as `视频下载失败: <error>`. The method changes no
     * field, so the shared options stay as they are.
     */
    method DownloadWithEngine(url: string, removeWatermark: bool, engine: Engine,
                              digest: Option<string>, now: nat, later: nat)
      returns (r: Result<Dict>, calls: seq<Call>)
      ensures 1 <= |calls| <= 2 && calls[0] == ExtractInfo(url, WatermarkOptions(ydlOpts, removeWatermark))
      ensures EngineRunAsSpecified(url, removeWatermark, engine, digest, now, later, ydlOpts, downloadDir,
                                   supportedPlatforms, r, calls)
      ensures r.Failure? ==> IsPrefix(ErrorPrefix, r.error)
      ensures r.Success? ==> Maps(r.value, "video_url", VStr(url))
                             && Maps(r.value, "platform", PlatformValue(DetectPlatform(supportedPlatforms, url)))
                             && "filename" in r.value && "title" in r.value
    {
      var tempOpts := ydlOpts;
      if removeWatermark {
        tempOpts := tempOpts["postprocessors" := OProcessors([WatermarkStep])];
      }
      assert tempOpts == WatermarkOptions(ydlOpts, removeWatermark);
      calls := [ExtractInfo(url, tempOpts)];
      var info := engine.extractInfo(url, tempOpts);
      if info.Failure? {
        return Failure(ErrorPrefix + info.error), calls;
      }
      var name := GenerateFilename(Get(info.value, "title"), digest, now, later);
      tempOpts := tempOpts["outtmpl" := OStr(OutputTemplate(downloadDir, name))];
      assert tempOpts == DownloadOptions(ydlOpts, removeWatermark, downloadDir, name);
      calls := calls + [Download(url, tempOpts)];
      var failure := engine.download(url, tempOpts);
      if failure.Some? {
        return Failure(ErrorPrefix + failure.value), calls;
      }
      var result := ResultDict(url, ReportedFilename(name, info.value), info.value, DetectPlatform(supportedPlatforms, url));
      r := Success(result);
    }

    /**
     * The entry point: the URL shape is checked first, then the platform, and only
     * then is the engine run; every failure is wrapped once more in `视频下载失败: `.
     */
    method DownloadVideo(url: string, removeWatermark: bool, engine: Engine,
                         digest: Option<string>, now: nat, later: nat)
      returns (r: Result<Dict>, calls: seq<Call>, ghost inner: Result<Dict>)
      ensures !HasWebScheme(url) ==> calls == [] && r == Failure(ErrorPrefix + InvalidUrlMessage)
      ensures HasWebScheme(url) && DetectPlatform(supportedPlatforms, url).None? ==>
                calls == [] && r == Failure(ErrorPrefix + UnsupportedMessage)
      ensures calls != [] <==> HasWebScheme(url) && DetectPlatform(supportedPlatforms, url).Some?
      ensures calls != [] ==> calls[0] == ExtractInfo(url, WatermarkOptions(ydlOpts, removeWatermark))
      ensures calls != [] && r.Failure? ==> IsPrefix(ErrorPrefix + ErrorPrefix, r.error)
      ensures r.Success? ==>
                Maps(r.value, "processed", VBool(true))
                && Maps(r.value, "remove_watermark", VBool(removeWatermark))
                && Maps(r.value, "video_url", VStr(url))
                && Maps(r.value, "platform", PlatformValue(DetectPlatform(supportedPlatforms, url)))
                && DetectPlatform(supportedPlatforms, url).Some?
                && "filename" in r.value && "title" in r.value
      ensures calls != [] ==>
                EngineRunAsSpecified(url, removeWatermark, engine, digest, now, later, ydlOpts, downloadDir,
                                     supportedPlatforms, inner, calls)
                && r == (if inner.Failure? then Failure(ErrorPrefix + inner.error)
                         else Success(Marked(inner.value, removeWatermark)))
    {
      inner := Failure("");
      if url == [] || !(IsPrefix("http://", url) || IsPrefix("https://", url)) {
        return Failure(ErrorPrefix + InvalidUrlMessage), [], inner;
      }
      var platform := DetectPlatform(supportedPlatforms, url);
      if platform.None? {
        return Failure(ErrorPrefix + UnsupportedMessage), [], inner;
      }
      var run;
      run, calls := DownloadWithEngine(url, removeWatermark, engine, digest, now, later);
      inner := run;
      if run.Failure? {
        PrefixExtend(ErrorPrefix, ErrorPrefix, run.error);
        return Failure(ErrorPrefix + run.error), calls, inner;
      }
      MarkedKeeps(run.value, removeWatermark);
      r := Success(Marked(run.value, removeWatermark));
    }

    /** A copy of the platform table, as a dictionary from domain to display name. */
    function GetSupportedPlatforms(): (d: map<string, string>)
      reads this
      ensures d.Keys == set i | 0 <= i < |supportedPlatforms| :: supportedPlatforms[i].domain
      ensures DistinctDomains(supportedPlatforms) ==>
                forall i :: 0 <= i < |supportedPlatforms| ==> d[supportedPlatforms[i].domain] == supportedPlatforms[i].name
    {
      TableMapNames(supportedPlatforms);
      TableMap(supportedPlatforms)
    }

    /**
     * Deletes, in listing order, every regular file older than `maxAgeHours`
     * hours; the first deletion that raises ends the sweep, and a listing that
     * raises leaves the directory alone. Returns nothing.
     */
    method CleanupDownloads(dir: Directory, now: int, maxAgeHours: int := 24)
      modifies dir`entries
      ensures dir.entries == (if dir.listable then Swept(old(dir.entries), now, maxAgeHours * 3600) else old(dir.entries))
    {
      if !dir.listable {
        return;
      }
      var maxAgeSeconds := maxAgeHours * 3600;
      var listing := dir.entries;
      var kept: seq<DirEntry> := [];
      var i := 0;
      while i < |listing|
        invariant 0 <= i <= |listing|
        invariant dir.entries == kept + listing[i..]
        invariant kept + Swept(listing[i..], now, maxAgeSeconds) == Swept(listing, now, maxAgeSeconds)
      {
        var e := listing[i];
        var rest := listing[i + 1..];
        assert listing[i..] == [e] + rest;
        SweptStep(listing[i..], now, maxAgeSeconds);
        if e.isFile && now - e.mtime > maxAgeSeconds {
          if !e.removable {
            return;
          }
          dir.entries := kept + rest;
        } else {
          assert kept + Swept(listing[i..], now, maxAgeSeconds) == (kept + [e]) + Swept(rest, now, maxAgeSeconds);
          assert dir.entries == (kept + [e]) + rest;
          kept := kept + [e];
        }
        i := i + 1;
      }
    }
  }

  /** The table as a dictionary; a later duplicate key would overwrite an earlier one. */
  function TableMap(table: seq<Entry>): (d: map<string, string>)
    ensures d.Keys == set i | 0 <= i < |table| :: table[i].domain
  {
    if table == [] then map[]
    else
      var d := TableMap(table[..|table| - 1]);
      assert forall i :: 0 <= i < |table| - 1 ==> table[..|table| - 1][i] == table[i];
      d[table[|table| - 1].domain := table[|table| - 1].name]
  }

  predicate DistinctDomains(table: seq<Entry>) {
    forall i, j :: 0 <= i < j < |table| ==> table[i].domain != table[j].domain
  }

  /** The entry at index i survives the later overwrites when domains are distinct. */
  lemma {:induction false} TableMapName(table: seq<Entry>, i: nat)
    requires DistinctDomains(table) && i < |table|
    ensures table[i].domain in TableMap(table) && TableMap(table)[table[i].domain] == table[i].name
    decreases |table|
  {
    var n := |table| - 1;
    if i < n {
      var init := table[..n];
      assert DistinctDomains(init) by {
        forall a, b | 0 <= a < b < n ensures init[a].domain != init[b].domain {
          assert init[a] == table[a] && init[b] == table[b];
        }
      }
      TableMapName(init, i);
      assert init[i] == table[i];
      assert table[i].domain != table[n].domain;
    }
  }

  /** With distinct domains the dictionary maps each domain to its own display name. */
  lemma TableMapNames(table: seq<Entry>)
    ensures DistinctDomains(table) ==>
              forall i :: 0 <= i < |table| ==> TableMap(table)[table[i].domain] == table[i].name
  {
    if DistinctDomains(table) {
      forall i | 0 <= i < |table| ensures TableMap(table)[table[i].domain] == table[i].name {
        TableMapName(table, i);
      }
    }
  }

  /** No domain occurs twice in the registry. */
  lemma RegistryDistinct()
    ensures DistinctDomains(Registry)
  {
  }

  /** The registry as a dictionary: every domain maps to its own display name. */
  lemma RegistryMap()
    ensures forall i :: 0 <= i < |Registry| ==> TableMap(Registry)[Registry[i].domain] == Registry[i].name
  {
    RegistryDistinct();
    TableMapNames(Registry);
  }
}
