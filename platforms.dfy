/**
 * Platform resolution: the ordered table of recognised domains and the back end's
 * `_detect_platform`, which looks for the first table domain contained in the URL's
 * network location.
 */
module Platforms {
  import opened Wrappers
  import opened Text

  /** One row of the table: a domain substring and the name shown to users. */
  datatype Entry = Entry(domain: string, name: string)

  /** The registry, in the order the lookup scans it. */
  const Registry: seq<Entry> := [
    Entry("douyin.com", "抖音"),
    Entry("kuaishou.com", "快手"),
    Entry("weibo.com", "微博"),
    Entry("bilibili.com", "B站"),
    Entry("youtube.com", "YouTube"),
    Entry("instagram.com", "Instagram"),
    Entry("tiktok.com", "TikTok"),
    Entry("xiaohongshu.com", "小红书"),
    Entry("ixigua.com", "西瓜视频")
  ]

  /** Index of the first entry whose domain occurs in host; |table| when there is none. */
  function FirstMatchIndex(table: seq<Entry>, host: string): (k: nat)
    ensures k <= |table|
    ensures forall j :: 0 <= j < k ==> !Contains(host, table[j].domain)
    ensures k < |table| ==> Contains(host, table[k].domain)
  {
    if table == [] then 0
    else if Contains(host, table[0].domain) then 0
    else 1 + FirstMatchIndex(table[1..], host)
  }

  /** The name of the first entry whose domain occurs in host, scanning in table order. */
  function Lookup(table: seq<Entry>, host: string): Option<string> {
    var k := FirstMatchIndex(table, host);
    if k < |table| then Some(table[k].name) else None
  }

  /** Lookup finds nothing exactly when no domain occurs in host, and otherwise returns the
      name of an entry whose domain occurs in host while no earlier entry's does. */
  lemma LookupSpec(table: seq<Entry>, host: string)
    ensures Lookup(table, host).None? <==> forall j :: 0 <= j < |table| ==> !Contains(host, table[j].domain)
    ensures Lookup(table, host).Some? ==>
              exists k :: 0 <= k < |table| && Lookup(table, host).value == table[k].name
                          && Contains(host, table[k].domain)
                          && forall j :: 0 <= j < k ==> !Contains(host, table[j].domain)
  {
  }

  /** A list of domains that is the table's domain column finds a match exactly when the lookup does. */
  lemma DomainColumnMatches(domains: seq<string>, table: seq<Entry>, host: string)
    requires |domains| == |table| && forall i :: 0 <= i < |table| ==> domains[i] == table[i].domain
    ensures (exists i :: 0 <= i < |domains| && Contains(host, domains[i])) <==> Lookup(table, host).Some?
  {
    var k := FirstMatchIndex(table, host);
    if k < |table| {
      assert Contains(host, domains[k]);
    }
  }

  /** Two hosts that contain the same table domains are looked up alike. */
  lemma {:induction false} LookupRespectsContains(table: seq<Entry>, a: string, b: string)
    requires forall j :: 0 <= j < |table| ==> (Contains(a, table[j].domain) <==> Contains(b, table[j].domain))
    ensures FirstMatchIndex(table, a) == FirstMatchIndex(table, b)
    ensures Lookup(table, a) == Lookup(table, b)
  {
    if table != [] {
      LookupRespectsContains(table[1..], a, b);
    }
  }

  // ----- the part of urllib.parse.urlsplit that yields the network location -----

  predicate IsAsciiLetter(c: char) {
    'a' <= c <= 'z' || 'A' <= c <= 'Z'
  }

  predicate IsSchemeChar(c: char) {
    IsAsciiLetter(c) || '0' <= c <= '9' || c == '+' || c == '-' || c == '.'
  }

  /** Position of the first c in s, or |s|. */
  function IndexOf(s: string, c: char): (i: nat)
    ensures i <= |s|
    ensures i < |s| ==> s[i] == c
    ensures forall j :: 0 <= j < i ==> s[j] != c
  {
    if s == [] then 0 else if s[0] == c then 0 else 1 + IndexOf(s[1..], c)
  }

  predicate IsNetlocEnd(c: char) {
    c == '/' || c == '?' || c == '#'
  }

  /** Position of the first '/', '?' or '#' in s, or |s|. */
  function NetlocEnd(s: string): (i: nat)
    ensures i <= |s|
    ensures i < |s| ==> IsNetlocEnd(s[i])
    ensures forall j :: 0 <= j < i ==> !IsNetlocEnd(s[j])
  {
    if s == [] then 0 else if IsNetlocEnd(s[0]) then 0 else 1 + NetlocEnd(s[1..])
  }

  /** A leading "scheme:" is split off when the text before the first ':' starts with a letter
      and consists of scheme characters. */
  predicate HasScheme(url: string) {
    var i := IndexOf(url, ':');
    0 < i < |url| && IsAsciiLetter(url[0]) && forall j :: 0 <= j < i ==> IsSchemeChar(url[j])
  }

  function AfterScheme(url: string): string {
    if HasScheme(url) then url[IndexOf(url, ':') + 1..] else url
  }

  /** `urlparse(url).netloc`: after "//", up to the first '/', '?' or '#'; empty without "//". */
  function Netloc(url: string): (n: string)
    ensures forall j :: 0 <= j < |n| ==> !IsNetlocEnd(n[j])
    ensures !IsPrefix("//", AfterScheme(url)) ==> n == ""
    ensures IsPrefix("//", AfterScheme(url)) ==>
              IsPrefix(n, AfterScheme(url)[2..])
              && (|n| + 2 == |AfterScheme(url)| || IsNetlocEnd(AfterScheme(url)[|n| + 2]))
  {
    var rest := AfterScheme(url);
    if IsPrefix("//", rest) then rest[2..][..NetlocEnd(rest[2..])] else ""
  }

  /** urlsplit raises ValueError("Invalid IPv6 URL") for a network location with one bracket only. */
  predicate UnbalancedBrackets(netloc: string) {
    ('[' in netloc) != (']' in netloc)
  }

  function StripWww(host: string): string {
    if IsPrefix("www.", host) then host[4..] else host
  }

  /**
   * `VideoDownloader._detect_platform`: lower-case the network location, drop a leading
   * "www.", and return the first matching entry's name; None when nothing matches and
   * when parsing raises (the except branch).
   */
  function DetectPlatform(table: seq<Entry>, url: string): (r: Option<string>)
    ensures UnbalancedBrackets(Netloc(url)) ==> r == None
    ensures !UnbalancedBrackets(Netloc(url)) ==> r == Lookup(table, StripWww(Lower(Netloc(url))))
  {
    var netloc := Netloc(url);
    if UnbalancedBrackets(netloc) then None else Lookup(table, StripWww(Lower(netloc)))
  }

  // ----- properties -----

  /** For `http://` the network location is the text after "//" up to a delimiter. */
  lemma HttpNetloc(url: string)
    requires IsPrefix("http://", url)
    ensures Netloc(url) == url[7..][..NetlocEnd(url[7..])]
  {
    assert url[..7] == "http://";
    assert url[0] == url[..7][0] == 'h' && url[1] == url[..7][1] == 't' && url[2] == url[..7][2] == 't';
    assert url[3] == url[..7][3] == 'p' && url[4] == url[..7][4] == ':';
    assert url[5] == url[..7][5] == '/' && url[6] == url[..7][6] == '/';
    assert IndexOf(url, ':') == 4 by {
      assert forall j :: 0 <= j < 4 ==> url[j] != ':';
    }
    assert HasScheme(url);
    var rest := AfterScheme(url);
    assert rest == url[5..];
    assert rest[..2] == "//";
    assert rest[2..] == url[7..];
  }

  /** For `https://` the network location is the text after "//" up to a delimiter. */
  lemma HttpsNetloc(url: string)
    requires IsPrefix("https://", url)
    ensures Netloc(url) == url[8..][..NetlocEnd(url[8..])]
  {
    assert url[..8] == "https://";
    assert url[0] == url[..8][0] == 'h' && url[1] == url[..8][1] == 't' && url[2] == url[..8][2] == 't';
    assert url[3] == url[..8][3] == 'p' && url[4] == url[..8][4] == 's' && url[5] == url[..8][5] == ':';
    assert url[6] == url[..8][6] == '/' && url[7] == url[..8][7] == '/';
    assert IndexOf(url, ':') == 5 by {
      assert forall j :: 0 <= j < 5 ==> url[j] != ':';
    }
    assert HasScheme(url);
    var rest := AfterScheme(url);
    assert rest == url[6..];
    assert rest[..2] == "//";
    assert rest[2..] == url[8..];
  }

  /** Only the network location is examined: whatever follows the host (a path, a query, a
      fragment) cannot change the verdict. */
  lemma NetlocOnly(table: seq<Entry>, host: string, tail: string)
    requires forall j :: 0 <= j < |host| ==> !IsNetlocEnd(host[j])
    requires tail == [] || IsNetlocEnd(tail[0])
    ensures Netloc("https://" + host + tail) == host
    ensures UnbalancedBrackets(host) ==> DetectPlatform(table, "https://" + host + tail) == None
    ensures !UnbalancedBrackets(host) ==>
              DetectPlatform(table, "https://" + host + tail) == Lookup(table, StripWww(Lower(host)))
  {
    HttpsNetlocOf(host, tail);
    DetectByNetloc(table, "https://" + host + tail, host);
  }

  lemma HttpsNetlocOf(host: string, tail: string)
    requires forall j :: 0 <= j < |host| ==> !IsNetlocEnd(host[j])
    requires tail == [] || IsNetlocEnd(tail[0])
    ensures Netloc("https://" + host + tail) == host
  {
    var url := "https://" + host + tail;
    var rest := host + tail;
    assert url == "https://" + rest;
    assert url[..8] == "https://";
    assert url[8..] == rest;
    HttpsNetloc(url);
    NetlocEndAt(host, tail);
  }

  lemma DetectByNetloc(table: seq<Entry>, url: string, host: string)
    requires Netloc(url) == host
    ensures UnbalancedBrackets(host) ==> DetectPlatform(table, url) == None
    ensures !UnbalancedBrackets(host) ==> DetectPlatform(table, url) == Lookup(table, StripWww(Lower(host)))
  {
  }

  lemma {:induction false} NetlocEndAt(host: string, tail: string)
    requires forall j :: 0 <= j < |host| ==> !IsNetlocEnd(host[j])
    requires tail == [] || IsNetlocEnd(tail[0])
    ensures NetlocEnd(host + tail) == |host|
    ensures (host + tail)[..|host|] == host
  {
    if host != [] {
      assert (host + tail)[1..] == host[1..] + tail;
      NetlocEndAt(host[1..], tail);
    }
  }

  /** No registered domain can straddle a "www." prefix: it occurs in "www." + h exactly when
      it occurs in h. */
  lemma ContainsAfterWww(h: string, d: string)
    requires |d| >= 2 && d[0] != '.' && (d[0] == 'w' ==> d[1] != 'w' && d[1] != '.')
    ensures Contains("www." + h, d) <==> Contains(h, d)
  {
    var s := "www." + h;
    assert s[1..] == "ww." + h;
    assert s[1..][1..] == "w." + h;
    assert s[1..][1..][1..] == "." + h;
    assert s[1..][1..][1..][1..] == h;
    assert s[0] == 'w' && s[1] == 'w' && s[2] == 'w' && s[3] == '.';
    assert !IsPrefix(d, s);
    assert !IsPrefix(d, s[1..]);
    assert !IsPrefix(d, s[1..][1..]);
    assert !IsPrefix(d, s[1..][1..][1..]);
    calc {
      Contains(s, d);
      Contains("ww." + h, d);
      Contains("w." + h, d);
      Contains("." + h, d);
      Contains(h, d);
    }
  }

  /** Stripping a leading "www." never changes which platform is found: for the registry,
      detection equals a lookup of the lower-cased network location as it stands. */
  lemma WwwStripIrrelevant(url: string)
    ensures !UnbalancedBrackets(Netloc(url)) ==>
              DetectPlatform(Registry, url) == Lookup(Registry, Lower(Netloc(url)))
  {
    var h := Lower(Netloc(url));
    if IsPrefix("www.", h) {
      var rest := h[4..];
      assert h == "www." + rest;
      forall j | 0 <= j < |Registry|
        ensures Contains(h, Registry[j].domain) <==> Contains(rest, Registry[j].domain)
      {
        ContainsAfterWww(rest, Registry[j].domain);
      }
      LookupRespectsContains(Registry, h, rest);
    }
  }

  // ----- examples (by NetlocOnly, these are the verdicts for "https://" + host + any path) -----

  /** A host containing the first entry's domain is looked up as the first entry. */
  lemma LookupHead(table: seq<Entry>, host: string)
    requires table != [] && Contains(host, table[0].domain)
    ensures Lookup(table, host) == Some(table[0].name)
  {
  }

  /** A host in which some domain occurs at position i contains that domain. */
  lemma ContainsFrom(host: string, i: nat, d: string)
    requires i <= |host| && IsPrefix(d, host[i..])
    ensures Contains(host, d)
  {
    ContainsAt(host, d);
  }

  /** A host name made of lower-case letters and dots only. */
  predicate IsPlainHost(h: string) {
    forall i :: 0 <= i < |h| ==> 'a' <= h[i] <= 'z' || h[i] == '.'
  }

  lemma PlainHostFacts(h: string)
    requires IsPlainHost(h)
    ensures Lower(h) == h
    ensures !UnbalancedBrackets(h)
    ensures forall j :: 0 <= j < |h| ==> !IsNetlocEnd(h[j])
  {
    LowerOfLowercase(h);
  }

  /** The usual form: "www." is removed and the exact domain matches. */
  lemma WwwHostExample(host: string)
    requires host == "www.douyin.com"
    ensures !UnbalancedBrackets(host)
    ensures Lookup(Registry, StripWww(Lower(host))) == Some("抖音")
  {
    assert IsPlainHost(host);
    PlainHostFacts(host);
    var rest := host[4..];
    assert StripWww(host) == rest by { assert host[..4] == "www."; }
    assert rest == Registry[0].domain;
    assert IsPrefix(rest, rest);
    LookupHead(Registry, rest);
  }

  /** Substring matching: a sub-domain of a registered domain is recognised. */
  lemma SubdomainExample(host: string)
    requires host == "m.douyin.com"
    ensures !UnbalancedBrackets(host)
    ensures Lookup(Registry, StripWww(Lower(host))) == Some("抖音")
  {
    assert IsPlainHost(host);
    PlainHostFacts(host);
    assert StripWww(host) == host by { assert host[0] == 'm'; }
    assert host[2..] == Registry[0].domain;
    ContainsFrom(host, 2, Registry[0].domain);
    LookupHead(Registry, host);
  }

  /** Substring matching: a host that merely begins with a registered domain is recognised too. */
  lemma LookalikeExample(host: string)
    requires host == "douyin.com.cn"
    ensures !UnbalancedBrackets(host)
    ensures Lookup(Registry, StripWww(Lower(host))) == Some("抖音")
  {
    assert IsPlainHost(host);
    PlainHostFacts(host);
    assert StripWww(host) == host by { assert host[0] == 'd'; }
    var d := Registry[0].domain;
    assert host == d + ".cn";
    assert IsPrefix(d, d);
    ContainsInfix([], d, ".cn", d);
    assert [] + d + ".cn" == host;
    LookupHead(Registry, host);
  }

  lemma RegistryDomainsContainC()
    ensures forall j :: 0 <= j < |Registry| ==> 'c' in Registry[j].domain
  {
  }

  /** A host of no registered platform. With NetlocOnly: "https://example.org/douyin.com" is
      not recognised, since the domain appears only in the path. */
  lemma UnknownHostExample(host: string)
    requires host == "example.org"
    ensures !UnbalancedBrackets(host)
    ensures Lookup(Registry, StripWww(Lower(host))) == None
  {
    assert 'c' !in host;
    assert IsPlainHost(host);
    PlainHostFacts(host);
    assert StripWww(host) == host by { assert host[0] == 'e'; }
    RegistryDomainsContainC();
    NoDomainWithoutC(Registry, host);
  }

  /** No table whose domains all contain 'c' matches a host without 'c'. */
  lemma NoDomainWithoutC(table: seq<Entry>, host: string)
    requires forall j :: 0 <= j < |table| ==> 'c' in table[j].domain
    requires 'c' !in host
    ensures Lookup(table, host) == None
  {
    forall j | 0 <= j < |table| ensures !Contains(host, table[j].domain) {
      MissingChar(host, table[j].domain, 'c');
    }
  }

  /** A host lacking some character of a domain cannot contain the domain. */
  lemma {:induction false} MissingChar(h: string, d: string, c: char)
    requires c in d && c !in h
    ensures !Contains(h, d)
    decreases |h|
  {
    if |d| <= |h| {
      var k :| 0 <= k < |d| && d[k] == c;
      assert h[..|d|][k] != d[k];
    }
    if h != [] {
      MissingChar(h[1..], d, c);
    }
  }
}
