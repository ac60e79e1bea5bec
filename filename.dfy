/**
 * The file name a download is saved under: the title with the characters that
 * are not allowed in file names replaced, whitespace runs collapsed, then the
 * first eight hex digits of the URL's MD5 digest and the current Unix second.
 */
module FilenamePolicy {
  import opened Wrappers
  import opened Text
  import opened Values

  /** The characters the title pattern `[<>:"/\\|?*]` replaces. */
  predicate IsReserved(c: char) {
    c == '<' || c == '>' || c == ':' || c == '"' || c == '/' || c == '\\' || c == '|' || c == '?' || c == '*'
  }

  /** The ASCII part of Python's `\s`: space, tab to carriage return, and the four separators 0x1C-0x1F. */
  predicate IsSpace(c: char) {
    c == ' ' || ('\t' <= c <= '\r') || ('\U{1C}' <= c <= '\U{1F}')
  }

  /** A string that can stand in a file name: no reserved character and no whitespace. */
  predicate IsSafe(s: string) {
    forall c :: c in s ==> !IsReserved(c) && !IsSpace(c)
  }

  /** Every reserved character becomes `_`; nothing else moves. */
  function ReplaceReserved(s: string): (r: string)
    ensures |r| == |s|
    ensures forall i :: 0 <= i < |s| ==> r[i] == (if IsReserved(s[i]) then '_' else s[i])
  {
    if s == [] then [] else [if IsReserved(s[0]) then '_' else s[0]] + ReplaceReserved(s[1..])
  }

  /** The whitespace at the front of a string removed. */
  function DropSpaces(s: string): (r: string)
    ensures |r| <= |s| && r == s[|s| - |r|..]
    ensures r == [] || !IsSpace(r[0])
  {
    if s != [] && IsSpace(s[0]) then DropSpaces(s[1..]) else s
  }

  /** `re.sub(r'\s+', '_', s)`: every maximal run of whitespace becomes one `_`. */
  function CollapseWhitespace(s: string): (r: string)
    ensures |r| <= |s|
    ensures s != [] ==> r != []
    decreases |s|
  {
    if s == [] then []
    else if IsSpace(s[0]) then "_" + CollapseWhitespace(DropSpaces(s[1..]))
    else [s[0]] + CollapseWhitespace(s[1..])
  }

  /** The collapsed string holds no whitespace and no character the input did not have, except `_`. */
  lemma {:induction false} CollapseChars(s: string)
    ensures forall c :: c in CollapseWhitespace(s) ==> c == '_' || (c in s && !IsSpace(c))
    decreases |s|
  {
    if s != [] {
      if IsSpace(s[0]) {
        var d := DropSpaces(s[1..]);
        CollapseChars(d);
        assert forall c :: c in d ==> c in s by {
          forall c | c in d ensures c in s {
            var i :| 0 <= i < |d| && d[i] == c;
            assert s[|s| - |d| + i] == c;
          }
        }
      } else {
        CollapseChars(s[1..]);
        assert forall c :: c in s[1..] ==> c in s;
      }
    }
  }

  /**
   * A reference reading of the same substitution as a scan with one bit of state:
   * whether the previous character was whitespace.
   */
  function CollapseScan(s: string, inRun: bool): string {
    if s == [] then []
    else if IsSpace(s[0]) then (if inRun then [] else "_") + CollapseScan(s[1..], true)
    else [s[0]] + CollapseScan(s[1..], false)
  }

  lemma {:induction false} ScanAfterRun(s: string)
    ensures CollapseScan(s, true) == CollapseScan(DropSpaces(s), false)
    decreases |s|
  {
    if s != [] {
      if IsSpace(s[0]) {
        ScanAfterRun(s[1..]);
      }
    }
  }

  /** The recursive definition and the scan agree on every input. */
  lemma {:induction false} CollapseMatchesScan(s: string)
    ensures CollapseWhitespace(s) == CollapseScan(s, false)
    decreases |s|
  {
    if s != [] {
      if IsSpace(s[0]) {
        ScanAfterRun(s[1..]);
        CollapseMatchesScan(DropSpaces(s[1..]));
      } else {
        CollapseMatchesScan(s[1..]);
      }
    }
  }

  /** A string without whitespace is left alone. */
  lemma {:induction false} CollapseWithoutSpace(s: string)
    requires forall c :: c in s ==> !IsSpace(c)
    ensures CollapseWhitespace(s) == s
    decreases |s|
  {
    if s != [] {
      assert s[0] in s;
      assert forall c :: c in s[1..] ==> c in s;
      CollapseWithoutSpace(s[1..]);
    }
  }

  /** The title part of the name. */
  function Sanitize(title: string): (r: string)
    ensures |r| <= |title|
    ensures title != [] ==> r != []
  {
    CollapseWhitespace(ReplaceReserved(title))
  }

  lemma SanitizeIsSafe(title: string)
    ensures IsSafe(Sanitize(title))
    ensures title != [] ==> Sanitize(title) != []
  {
    var t := ReplaceReserved(title);
    CollapseChars(t);
    forall c | c in Sanitize(title)
      ensures !IsReserved(c) && !IsSpace(c)
    {
      if c != '_' {
        var i :| 0 <= i < |t| && t[i] == c;
      }
    }
  }

  lemma SanitizeIdempotent(title: string)
    ensures Sanitize(Sanitize(title)) == Sanitize(title)
  {
    var s := Sanitize(title);
    SanitizeIsSafe(title);
    assert ReplaceReserved(s) == s;
    CollapseWithoutSpace(s);
  }

  /** `hexdigest()[:8]`: the first eight characters of the hex digest. */
  function Hash8(digest: string): (h: string)
    ensures |h| == if |digest| < 8 then |digest| else 8
    ensures IsPrefix(h, digest)
  {
    if |digest| < 8 then digest else digest[..8]
  }

  predicate IsLowerHex(s: string) {
    forall c :: c in s ==> ('0' <= c <= '9') || ('a' <= c <= 'f')
  }

  /**
   * Whether the name falls back to `video_<seconds>`: the digest could not be
   * computed or the title is truthy but not a string (the substitution raises).
   */
  predicate UsesFallback(title: Value, digest: Option<string>) {
    digest.None? || (Truthy(title) && !title.VStr?)
  }

  /** The part every hashed name ends with: `_`, the digest's first eight characters, `_`, the seconds. */
  function Stamp(hex: string, now: nat): (t: string)
    ensures |t| > 0 && t[0] == '_'
  {
    "_" + Hash8(hex) + "_" + NatToDecimal(now)
  }

  /**
   * The name without extension. `now` is the clock reading taken at the start,
   * `later` the one taken in the exception handler; `digest` is the hex MD5 of the
   * URL, or None when hashing fails.
   */
  function GenerateFilename(title: Value, digest: Option<string>, now: nat, later: nat): (name: string)
    ensures UsesFallback(title, digest) ==> name == "video_" + NatToDecimal(later)
    ensures !UsesFallback(title, digest) ==> IsSuffix(Stamp(digest.value, now), name)
    ensures !UsesFallback(title, digest) && !Truthy(title) ==> IsPrefix("video_", name)
    ensures !UsesFallback(title, digest) && Truthy(title) ==> IsPrefix(Sanitize(title.s), name)
    ensures !UsesFallback(title, digest) ==>
              |name| == (if Truthy(title) then |Sanitize(title.s)| else 5) + |Stamp(digest.value, now)|
  {
    match digest
    case None => "video_" + NatToDecimal(later)
    case Some(hex) =>
      if !Truthy(title) then "video" + Stamp(hex, now)
      else if title.VStr? then Sanitize(title.s) + Stamp(hex, now)
      else "video_" + NatToDecimal(later)
  }

  lemma SafeParts(a: string, b: string)
    requires IsSafe(a) && IsSafe(b)
    ensures IsSafe(a + b)
  {
    forall c | c in a + b ensures !IsReserved(c) && !IsSpace(c) {
      var i :| 0 <= i < |a + b| && (a + b)[i] == c;
      if i < |a| { assert a[i] == c; } else { assert b[i - |a|] == c; }
    }
  }

  lemma DecimalIsSafe(n: nat)
    ensures IsSafe(NatToDecimal(n))
  {
    var r := NatToDecimal(n);
    forall c | c in r ensures !IsReserved(c) && !IsSpace(c) {
      var i :| 0 <= i < |r| && r[i] == c;
      assert IsDigit(r[i]);
    }
  }

  lemma StampIsSafe(hex: string, now: nat)
    requires IsLowerHex(hex)
    ensures IsSafe(Stamp(hex, now))
  {
    var h := Hash8(hex);
    assert IsSafe(h) by {
      forall c | c in h ensures !IsReserved(c) && !IsSpace(c) {
        var i :| 0 <= i < |h| && h[i] == c;
        assert hex[..|h|] == h;
        assert hex[i] in hex;
      }
    }
    DecimalIsSafe(now);
    assert IsSafe("_");
    SafeParts("_", h);
    SafeParts("_" + h, "_");
    SafeParts("_" + h + "_", NatToDecimal(now));
  }

  /** With a hex digest, whatever the title, the name is a non-empty, safe file name. */
  lemma FilenameIsSafe(title: Value, digest: Option<string>, now: nat, later: nat)
    requires digest.Some? ==> IsLowerHex(digest.value)
    ensures GenerateFilename(title, digest, now, later) != []
    ensures IsSafe(GenerateFilename(title, digest, now, later))
  {
    DecimalIsSafe(later);
    assert IsSafe("video_");
    assert IsSafe("video");
    SafeParts("video_", NatToDecimal(later));
    if !UsesFallback(title, digest) {
      var t := Stamp(digest.value, now);
      StampIsSafe(digest.value, now);
      if Truthy(title) {
        SanitizeIsSafe(title.s);
        SafeParts(Sanitize(title.s), t);
      } else {
        SafeParts("video", t);
      }
    }
  }

  /** Two downloads of the same title and URL in different seconds get different names. */
  lemma DistinctSeconds(title: Value, digest: Option<string>, now1: nat, now2: nat, later: nat)
    requires !UsesFallback(title, digest)
    requires now1 != now2
    ensures GenerateFilename(title, digest, now1, later) != GenerateFilename(title, digest, now2, later)
  {
    var stem := if Truthy(title) then Sanitize(title.s) else "video";
    var t1, t2 := Stamp(digest.value, now1), Stamp(digest.value, now2);
    assert GenerateFilename(title, digest, now1, later) == stem + t1;
    assert GenerateFilename(title, digest, now2, later) == stem + t2;
    if stem + t1 == stem + t2 {
      assert (stem + t1)[|stem|..] == t1;
      assert (stem + t2)[|stem|..] == t2;
      var q := "_" + Hash8(digest.value) + "_";
      assert t1 == q + NatToDecimal(now1) && t2 == q + NatToDecimal(now2);
      assert t1[|q|..] == NatToDecimal(now1);
      assert t2[|q|..] == NatToDecimal(now2);
      NatToDecimalInjective(now1, now2);
    }
  }

  /** Reserved characters become underscores. */
  lemma ReservedExample(title: string)
    requires title == "My:Video*Clip"
    ensures Sanitize(title) == "My_Video_Clip"
  {
    var r, want := ReplaceReserved(title), "My_Video_Clip";
    forall i | 0 <= i < |want| ensures r[i] == want[i] {
      assert IsReserved(title[i]) <==> i == 2 || i == 8;
    }
    assert r == want;
    assert forall c :: c in want ==> !IsSpace(c);
    CollapseWithoutSpace(want);
  }

  lemma CollapseKeeps(c: char, s: string)
    requires !IsSpace(c)
    ensures CollapseWhitespace([c] + s) == [c] + CollapseWhitespace(s)
  {
    assert ([c] + s)[1..] == s;
  }

  lemma CollapseStartsRun(c: char, s: string)
    requires IsSpace(c)
    ensures CollapseWhitespace([c] + s) == "_" + CollapseWhitespace(DropSpaces(s))
  {
    assert ([c] + s)[1..] == s;
  }

  lemma CollapseSingle(b: char)
    requires !IsSpace(b)
    ensures CollapseWhitespace([b]) == [b]
  {
    CollapseKeeps(b, []);
    assert [b] + [] == [b];
  }

  lemma DropOneSpace(y: char, b: char)
    requires IsSpace(y) && !IsSpace(b)
    ensures DropSpaces([y, b]) == [b]
  {
    var s := [y, b];
    assert s[0] == y && s[1..] == [b];
    assert DropSpaces(s) == DropSpaces([b]);
    assert DropSpaces([b]) == [b] by {
      assert [b][0] == b;
    }
  }

  lemma RunEnd(y: char, b: char)
    requires IsSpace(y) && !IsSpace(b)
    ensures CollapseWhitespace(DropSpaces([y, b])) == [b]
  {
    DropOneSpace(y, b);
    CollapseSingle(b);
  }

  lemma RunOfTwo(x: char, y: char, b: char)
    requires IsSpace(x) && IsSpace(y) && !IsSpace(b)
    ensures CollapseWhitespace([x, y, b]) == ['_', b]
  {
    RunEnd(y, b);
    CollapseStartsRun(x, [y, b]);
    assert [x] + [y, b] == [x, y, b];
  }

  /** Two whitespace characters between two other characters become one `_`. */
  lemma CollapseRunOfTwo(a: char, x: char, y: char, b: char)
    requires !IsSpace(a) && IsSpace(x) && IsSpace(y) && !IsSpace(b)
    ensures CollapseWhitespace([a, x, y, b]) == [a, '_', b]
  {
    RunOfTwo(x, y, b);
    CollapseKeeps(a, [x, y, b]);
    assert [a] + [x, y, b] == [a, x, y, b];
  }

  /** A run of spaces becomes a single underscore. */
  lemma SpaceRunExample(title: string)
    requires title == "a  b"
    ensures Sanitize(title) == "a_b"
  {
    assert ReplaceReserved(title) == title;
    assert title == ['a', ' ', ' ', 'b'];
    CollapseRunOfTwo('a', ' ', ' ', 'b');
  }
}
