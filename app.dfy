/**
 * The mini-program's shared helper that names the platform of a URL on the
 * client side.
 */
module App {
  import opened Wrappers
  import opened Text
  import opened Platforms

  const UnknownPlatform: string := "未知平台"

  /** Position of the last c in s, or -1. */
  function LastIndexOf(s: string, c: char): (i: int)
    ensures -1 <= i < |s|
    ensures i >= 0 ==> s[i] == c
    ensures forall j :: i < j < |s| ==> s[j] != c
  {
    if s == [] then -1
    else if s[|s| - 1] == c then |s| - 1
    else LastIndexOf(s[..|s| - 1], c)
  }

  /** The host part of an authority: after the last '@' (the user information) and before ':' (the port). */
  function HostOfAuthority(authority: string): (h: string)
    ensures '@' !in h && ':' !in h
    ensures var rest := authority[LastIndexOf(authority, '@') + 1..];
      IsPrefix(h, rest) && (|h| == |rest| || rest[|h|] == ':')
  {
    var host := authority[LastIndexOf(authority, '@') + 1..];
    host[..IndexOf(host, ':')]
  }

  /**
   * The authority as the WHATWG parser reads it for a web URL: the network location
   * up to the first `\`, which that parser treats like `/` (the back end does not).
   */
  function ClientAuthority(url: string): (a: string)
    ensures '\\' !in a
    ensures IsPrefix(a, Netloc(url))
    ensures |a| == |Netloc(url)| || Netloc(url)[|a|] == '\\'
  {
    var n := Netloc(url);
    n[..IndexOf(n, '\\')]
  }

  /** `new URL(url).hostname` for a web URL the parser accepts. */
  function Hostname(url: string): (h: string)
    ensures '@' !in h && ':' !in h && '\\' !in h
    ensures var a := ClientAuthority(url); var rest := a[LastIndexOf(a, '@') + 1..];
      IsPrefix(h, rest) && (|h| == |rest| || rest[|h|] == ':')
  {
    var a := ClientAuthority(url);
    var host := a[LastIndexOf(a, '@') + 1..];
    assert forall c :: c in host ==> c in a;
    HostOfAuthority(a)
  }

  /** The name for a host name: the first table entry contained in its lower-cased form. */
  function PlatformNameOfHost(hostname: string): (name: string)
    ensures name == UnknownPlatform <==> Lookup(Registry, Lower(hostname)).None?
    ensures name != UnknownPlatform ==> Lookup(Registry, Lower(hostname)) == Some(name)
  {
    assert forall i :: 0 <= i < |Registry| ==> Registry[i].name != UnknownPlatform;
    Lookup(Registry, Lower(hostname)).GetOr(UnknownPlatform)
  }

  /**
   * `getPlatformName(url)`. `accepts` says whether `new URL` parses the text;
   * when it throws the answer is `未知平台`.
   */
  function GetPlatformName(url: string, accepts: string -> bool): (name: string)
    ensures !accepts(url) ==> name == UnknownPlatform
    ensures accepts(url) ==> name == PlatformNameOfHost(Hostname(url))
  {
    if accepts(url) then PlatformNameOfHost(Hostname(url)) else UnknownPlatform
  }

  /** Matching ignores the case of the host name. */
  lemma CaseInsensitive(hostname: string)
    ensures PlatformNameOfHost(Lower(hostname)) == PlatformNameOfHost(hostname)
  {
    LowerIdempotent(hostname);
  }

  /** Only the host is examined: a path, query or fragment after it changes nothing. */
  lemma PathIgnored(host: string, tail: string)
    requires forall j :: 0 <= j < |host| ==> !IsNetlocEnd(host[j])
    requires tail == [] || IsNetlocEnd(tail[0])
    ensures Hostname("https://" + host + tail) == HostOfAuthority(host[..IndexOf(host, '\\')])
    ensures '@' !in host && ':' !in host && '\\' !in host ==> Hostname("https://" + host + tail) == host
  {
    HttpsNetlocOf(host, tail);
    if '@' !in host && ':' !in host && '\\' !in host {
      ClientSeesAll("https://" + host + tail, host);
      BareAuthority(host);
    }
  }

  /** An authority without user information or port is its own host. */
  lemma BareAuthority(authority: string)
    requires '@' !in authority && ':' !in authority
    ensures HostOfAuthority(authority) == authority
  {
    assert LastIndexOf(authority, '@') == -1;
    assert authority[0..] == authority;
    assert IndexOf(authority, ':') == |authority|;
    assert authority[..|authority|] == authority;
  }

  /** A port after the host name is not part of it: `https://douyin.com:8080/x` has host name `douyin.com`. */
  lemma PortIgnored(host: string, port: string, tail: string)
    requires IsHostName(host)
    requires forall j :: 0 <= j < |port| ==> '0' <= port[j] <= '9'
    requires tail == [] || IsNetlocEnd(tail[0])
    ensures Hostname("https://" + host + ":" + port + tail) == host
  {
    var authority := host + ":" + port;
    assert "https://" + host + ":" + port + tail == "https://" + authority + tail;
    HostPortChars(host, port);
    HttpsNetlocOf(authority, tail);
    ClientSeesAll("https://" + authority + tail, authority);
    PortDropped(host, port);
  }

  lemma HostPortChars(host: string, port: string)
    requires IsHostName(host)
    requires forall j :: 0 <= j < |port| ==> '0' <= port[j] <= '9'
    ensures forall j :: 0 <= j < |host + ":" + port| ==>
              !IsNetlocEnd((host + ":" + port)[j]) && (host + ":" + port)[j] != '\\' && (host + ":" + port)[j] != '@'
  {
    var authority := host + ":" + port;
    assert forall j :: 0 <= j < |host| ==> authority[j] == host[j];
    assert forall j :: |host| < j < |authority| ==> authority[j] == port[j - |host| - 1];
  }

  /** Without user information the host of `host:port` is `host`. */
  lemma PortDropped(host: string, port: string)
    requires IsHostName(host)
    requires '@' !in host + ":" + port
    ensures HostOfAuthority(host + ":" + port) == host
  {
    var authority := host + ":" + port;
    assert LastIndexOf(authority, '@') == -1;
    assert authority[0..] == authority;
    assert IndexOf(authority, ':') == |host| by {
      assert authority[|host|] == ':';
      assert forall j :: 0 <= j < |host| ==> authority[j] == host[j] && host[j] != ':';
    }
    assert authority[..|host|] == host;
  }

  /** A plain ASCII host name: letters, digits, dots and hyphens, at least one character. */
  predicate IsHostName(n: string) {
    n != [] && forall j :: 0 <= j < |n| ==> IsAsciiLetter(n[j]) || '0' <= n[j] <= '9' || n[j] == '.' || n[j] == '-'
  }

  /**
   * For a network location that is a plain host name the client and the back end
   * agree: the client's name is the back end's, or `未知平台` where the back end
   * finds nothing.
   */
  lemma AgreesWithBackend(url: string, accepts: string -> bool)
    requires accepts(url)
    requires IsHostName(Netloc(url))
    ensures GetPlatformName(url, accepts) == DetectPlatform(Registry, url).GetOr(UnknownPlatform)
  {
    var n := Netloc(url);
    assert '@' !in n && ':' !in n && '\\' !in n && '[' !in n && ']' !in n;
    assert IndexOf(n, '\\') == |n|;
    assert n[..|n|] == n;
    assert ClientAuthority(url) == n;
    assert LastIndexOf(n, '@') == -1;
    assert n[0..] == n;
    assert IndexOf(n, ':') == |n|;
    assert Hostname(url) == n;
    WwwStripIrrelevant(url);
  }

  /**
   * User information is where the two sides part: the back end matches the whole
   * network location `user@host`, the client only `host`.
   */
  lemma UserinfoDiverges(user: string, host: string, accepts: string -> bool)
    requires forall j :: 0 <= j < |user| ==> !IsNetlocEnd(user[j]) && !IsUpper(user[j]) && user[j] != '[' && user[j] != ']' && user[j] != '\\'
    requires forall j :: 0 <= j < |host| ==>
               !IsNetlocEnd(host[j]) && !IsUpper(host[j]) && host[j] != '[' && host[j] != ']' && host[j] != '@' && host[j] != ':'
               && host[j] != '\\'
    requires !IsPrefix("www.", user)
    requires Lookup(Registry, host).None? && Lookup(Registry, user).Some?
    requires accepts("https://" + user + "@" + host)
    ensures DetectPlatform(Registry, "https://" + user + "@" + host).Some?
    ensures GetPlatformName("https://" + user + "@" + host, accepts) == UnknownPlatform
  {
    UserinfoSplit(Registry, user, host);
    assert Lower(host) == host by { LowerOfLowercase(host); }
  }

  lemma UserinfoSplit(table: seq<Entry>, user: string, host: string)
    requires forall j :: 0 <= j < |user| ==> !IsNetlocEnd(user[j]) && !IsUpper(user[j]) && user[j] != '[' && user[j] != ']' && user[j] != '\\'
    requires forall j :: 0 <= j < |host| ==>
               !IsNetlocEnd(host[j]) && !IsUpper(host[j]) && host[j] != '[' && host[j] != ']' && host[j] != '@' && host[j] != ':'
               && host[j] != '\\'
    requires !IsPrefix("www.", user)
    requires Lookup(table, user).Some?
    ensures Hostname("https://" + user + "@" + host) == host
    ensures DetectPlatform(table, "https://" + user + "@" + host).Some?
  {
    var authority := user + "@" + host;
    var url := "https://" + user + "@" + host;
    assert url == "https://" + authority + [];
    assert forall j :: 0 <= j < |authority| ==>
             !IsNetlocEnd(authority[j]) && authority[j] != '[' && authority[j] != ']' && authority[j] != '\\' by {
      assert forall j :: 0 <= j < |user| ==> authority[j] == user[j];
      assert forall j :: |user| < j < |authority| ==> authority[j] == host[j - |user| - 1];
    }
    assert '[' !in authority && ']' !in authority && '\\' !in authority;
    NetlocOnly(table, authority, []);
    ClientSeesAll(url, authority);
    assert '@' !in host && ':' !in host;
    HostAfterUserinfo(user, host);
    BackendSeesUser(table, user, host);
  }

  /**
   * A backslash is the other place where the two sides part: the client's host
   * name stops at it, the back end's network location runs on to the next `/`.
   */
  lemma BackslashDiverges(host: string, path: string, accepts: string -> bool)
    requires forall j :: 0 <= j < |host| ==>
               !IsNetlocEnd(host[j]) && !IsUpper(host[j]) && host[j] != '[' && host[j] != ']' && host[j] != '@' && host[j] != ':'
               && host[j] != '\\'
    requires forall j :: 0 <= j < |path| ==> !IsNetlocEnd(path[j]) && !IsUpper(path[j]) && path[j] != '[' && path[j] != ']'
    requires Lookup(Registry, host).None? && Lookup(Registry, path).Some?
    requires accepts("https://" + host + "\\" + path)
    ensures DetectPlatform(Registry, "https://" + host + "\\" + path).Some?
    ensures GetPlatformName("https://" + host + "\\" + path, accepts) == UnknownPlatform
  {
    var authority := host + "\\" + path;
    BackslashNetloc(host, path);
    BackendSeesPath(host, path);
    WwwStripIrrelevant("https://" + host + "\\" + path);
    ClientStopsAtBackslash(host, path);
    LowerOfLowercase(host);
  }

  /** The back end's network location of `https://host\\path` is `host\\path`, without brackets or capitals. */
  lemma BackslashNetloc(host: string, path: string)
    requires forall j :: 0 <= j < |host| ==> !IsNetlocEnd(host[j]) && !IsUpper(host[j]) && host[j] != '[' && host[j] != ']'
    requires forall j :: 0 <= j < |path| ==> !IsNetlocEnd(path[j]) && !IsUpper(path[j]) && path[j] != '[' && path[j] != ']'
    ensures Netloc("https://" + host + "\\" + path) == host + "\\" + path
    ensures !UnbalancedBrackets(host + "\\" + path)
    ensures forall j :: 0 <= j < |host + "\\" + path| ==> !IsUpper((host + "\\" + path)[j])
  {
    var authority := host + "\\" + path;
    assert "https://" + host + "\\" + path == "https://" + authority + [];
    assert forall j :: 0 <= j < |authority| ==>
             !IsNetlocEnd(authority[j]) && !IsUpper(authority[j]) && authority[j] != '[' && authority[j] != ']' by {
      assert forall j :: 0 <= j < |host| ==> authority[j] == host[j];
      assert forall j :: |host| < j < |authority| ==> authority[j] == path[j - |host| - 1];
    }
    assert '[' !in authority && ']' !in authority;
    HttpsNetlocOf(authority, []);
  }

  /** The client's host name of `https://host\\path` is `host`. */
  lemma ClientStopsAtBackslash(host: string, path: string)
    requires forall j :: 0 <= j < |host| ==> !IsNetlocEnd(host[j]) && host[j] != '@' && host[j] != ':' && host[j] != '\\'
    requires Netloc("https://" + host + "\\" + path) == host + "\\" + path
    ensures Hostname("https://" + host + "\\" + path) == host
  {
    assert '@' !in host && ':' !in host && '\\' !in host;
    FirstAfter(host, '\\', path);
    assert (host + "\\" + path)[..|host|] == host;
    assert IndexOf(host, ':') == |host|;
    assert LastIndexOf(host, '@') == -1;
    assert host[0..] == host && host[..|host|] == host;
  }

  /** In a + [c] + b, with no c in a, the first c is the one after a. */
  lemma FirstAfter(a: string, c: char, b: string)
    requires c !in a
    ensures IndexOf(a + [c] + b, c) == |a|
  {
    var s := a + [c] + b;
    assert s[|a|] == c;
    assert forall j :: 0 <= j < |a| ==> s[j] == a[j];
  }

  /** The back end's lookup of `host\\path` finds the path's domain. */
  lemma BackendSeesPath(host: string, path: string)
    requires forall j :: 0 <= j < |host + "\\" + path| ==> !IsUpper((host + "\\" + path)[j])
    requires Lookup(Registry, path).Some?
    ensures Lookup(Registry, Lower(host + "\\" + path)).Some?
  {
    var authority := host + "\\" + path;
    LowerOfLowercase(authority);
    var k := FirstMatchIndex(Registry, path);
    ContainsInfix(host + "\\", path, [], Registry[k].domain);
    assert host + "\\" + path + [] == authority;
  }

  /** The divergence for plain lower-case host and path texts, the host without the letter c. */
  lemma BackslashPlain(host: string, path: string, accepts: string -> bool)
    requires IsPlainHost(host) && IsPlainHost(path) && 'c' !in host
    requires Lookup(Registry, path).Some?
    requires accepts("https://" + host + "\\" + path)
    ensures DetectPlatform(Registry, "https://" + host + "\\" + path).Some?
    ensures GetPlatformName("https://" + host + "\\" + path, accepts) == UnknownPlatform
  {
    PlainHostChars(host);
    PlainHostChars(path);
    RegistryDomainsContainC();
    NoDomainWithoutC(Registry, host);
    BackslashDiverges(host, path, accepts);
  }

  /** `https://example.org\\douyin.com`: 抖音 for the back end, `未知平台` for the client. */
  lemma BackslashExample(host: string, path: string, accepts: string -> bool)
    requires host == "example.org" && path == "douyin.com"
    requires accepts("https://" + host + "\\" + path)
    ensures DetectPlatform(Registry, "https://" + host + "\\" + path).Some?
    ensures GetPlatformName("https://" + host + "\\" + path, accepts) == UnknownPlatform
  {
    assert IsPlainHost(host) && IsPlainHost(path) && 'c' !in host;
    assert IsPrefix(path, path);
    LookupHead(Registry, path);
    BackslashPlain(host, path, accepts);
  }

  /** A network location without `\\` is the client's authority as a whole. */
  lemma ClientSeesAll(url: string, authority: string)
    requires Netloc(url) == authority && '\\' !in authority
    ensures ClientAuthority(url) == authority
  {
    assert IndexOf(authority, '\\') == |authority|;
    assert authority[..|authority|] == authority;
  }

  /** The client's host name of `user@host` is `host`. */
  lemma HostAfterUserinfo(user: string, host: string)
    requires '@' !in host && ':' !in host
    ensures HostOfAuthority(user + "@" + host) == host
  {
    var authority := user + "@" + host;
    assert LastIndexOf(authority, '@') == |user| by {
      assert authority[|user|] == '@';
      assert forall j :: |user| < j < |authority| ==> authority[j] == host[j - |user| - 1];
    }
    assert authority[|user| + 1..] == host;
  }

  /** The back end's lookup of `user@host` finds the user's domain. */
  lemma BackendSeesUser(table: seq<Entry>, user: string, host: string)
    requires forall j :: 0 <= j < |user| ==> !IsUpper(user[j])
    requires forall j :: 0 <= j < |host| ==> !IsUpper(host[j])
    requires !IsPrefix("www.", user)
    requires Lookup(table, user).Some?
    ensures Lookup(table, StripWww(Lower(user + "@" + host))).Some?
  {
    var authority := user + "@" + host;
    assert Lower(authority) == authority by {
      assert forall j :: 0 <= j < |authority| ==> !IsUpper(authority[j]) by {
        assert forall j :: 0 <= j < |user| ==> authority[j] == user[j];
        assert forall j :: |user| < j < |authority| ==> authority[j] == host[j - |user| - 1];
      }
      LowerOfLowercase(authority);
    }
    if |user| >= 4 {
      assert authority[..4] == user[..4];
    } else {
      assert authority[|user|] == '@';
    }
    assert !IsPrefix("www.", authority);
    var k := FirstMatchIndex(table, user);
    assert Contains(authority, table[k].domain) by {
      ContainsInfix([], user, "@" + host, table[k].domain);
      assert [] + user + ("@" + host) == authority;
    }
  }

  lemma PlainHostChars(h: string)
    requires IsPlainHost(h)
    ensures forall j :: 0 <= j < |h| ==>
              !IsNetlocEnd(h[j]) && !IsUpper(h[j]) && h[j] != '[' && h[j] != ']' && h[j] != '@' && h[j] != ':' && h[j] != '\\'
  {
  }
}
