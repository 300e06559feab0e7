/**
 * The helpers of `usd_rerun_logger.util` that decide something: which
 * recording stream the loggers write to, whether a texture path is a web
 * URL, and the extension the downloaded file keeps in the cache.
 */
module Util {
  import opened Viewer

  // ----- get_recording_stream -----

  /** A recording stream: one that already exists, or a new one saving to a file. */
  datatype Stream = Existing(handle: nat) | Saving(applicationId: string, path: string)

  const DefaultApplicationId: string := "usd_rerun_logger"

  /**
   * The given stream, or else the global one; a save path replaces either
   * with a new stream saving there; with none of the three it is an error.
   */
  function GetRecordingStream(given: Option<Stream>, global: Option<Stream>, savePath: Option<string>,
                              applicationId: Option<string>): (r: Result<Stream>)
    ensures r.Err? <==> savePath.None? && given.None? && global.None?
    ensures savePath.Some? ==>
              r == Ok(Saving(if applicationId.Some? then applicationId.value else DefaultApplicationId, savePath.value))
    ensures savePath.None? && given.Some? ==> r == Ok(given.value)
    ensures savePath.None? && given.None? && global.Some? ==> r == Ok(global.value)
  {
    var found := if given.Some? then given else global;
    var stream := if savePath.Some? then
                    var app := if applicationId.None? then DefaultApplicationId else applicationId.value;
                    Some(Saving(app, savePath.value))
                  else found;
    if stream.None? then
      Err("No Rerun recording stream is set. Please provide either a recording stream, "
          + "a save path, or start a global recording stream (e.g., via `rerun.init()`).")
    else Ok(stream.value)
  }

  // ----- is_url: the scheme part of Python's URL splitting -----

  predicate IsAsciiLetter(c: char) {
    'a' <= c <= 'z' || 'A' <= c <= 'Z'
  }

  predicate IsSchemeChar(c: char) {
    IsAsciiLetter(c) || '0' <= c <= '9' || c == '+' || c == '-' || c == '.'
  }

  function LowerChar(c: char): char {
    if 'A' <= c <= 'Z' then (c as int + 32) as char else c
  }

  function Lower(s: string): (t: string)
    ensures |t| == |s| && forall i :: 0 <= i < |s| ==> t[i] == LowerChar(s[i])
  {
    if s == [] then [] else [LowerChar(s[0])] + Lower(s[1..])
  }

  /** Leading C0 control characters and spaces are dropped. */
  function StripLeading(s: string): (t: string)
    ensures |t| <= |s| && t == s[|s| - |t|..]
    ensures t != [] ==> t[0] > ' '
  {
    if s != [] && s[0] <= ' ' then StripLeading(s[1..]) else s
  }

  /** Tabs, carriage returns and line feeds are removed everywhere. */
  function RemoveUnsafe(s: string): (t: string)
    ensures |t| <= |s|
    ensures forall i :: 0 <= i < |t| ==> t[i] != '\t' && t[i] != '\r' && t[i] != '\n'
  {
    if s == [] then []
    else (if s[0] == '\t' || s[0] == '\r' || s[0] == '\n' then [] else [s[0]]) + RemoveUnsafe(s[1..])
  }

  /** The first index of c in s. */
  function Find(s: string, c: char): (r: Option<nat>)
    ensures r.Some? ==> r.value < |s| && s[r.value] == c && forall j :: 0 <= j < r.value ==> s[j] != c
    ensures r.None? ==> forall j :: 0 <= j < |s| ==> s[j] != c
  {
    if s == [] then None
    else if s[0] == c then Some(0)
    else var r := Find(s[1..], c); if r.None? then None else Some(r.value + 1)
  }

  /** The first index of '/', '?' or '#', or the length when there is none. */
  function NetlocEnd(s: string): (n: nat)
    ensures n <= |s|
    ensures forall j :: 0 <= j < n ==> s[j] != '/' && s[j] != '?' && s[j] != '#'
    ensures n < |s| ==> s[n] == '/' || s[n] == '?' || s[n] == '#'
  {
    if s == [] || s[0] == '/' || s[0] == '?' || s[0] == '#' then 0 else NetlocEnd(s[1..]) + 1
  }

  /** The scheme (lower-cased) and what follows its colon; no scheme leaves the text whole. */
  datatype Split = Split(scheme: string, rest: string)

  function SplitScheme(url: string): Split {
    var i := Find(url, ':');
    if i.Some? && i.value > 0 && IsAsciiLetter(url[0]) && forall j :: 0 <= j < i.value ==> IsSchemeChar(url[j])
    then Split(Lower(url[..i.value]), url[i.value + 1..])
    else Split("", url)
  }

  /** The network location after "//", when there is one. */
  function Netloc(rest: string): Option<string> {
    if |rest| >= 2 && rest[..2] == "//" then Some(rest[2..][..NetlocEnd(rest[2..])]) else None
  }

  /** A network location with one square bracket but not the other makes the split raise ValueError. */
  predicate UnbalancedBrackets(netloc: string) {
    ('[' in netloc) != (']' in netloc)
  }

  /** `is_url`: the scheme is http or https; a split that raises counts as not a URL. */
  function IsUrl(path: string): bool {
    var url := RemoveUnsafe(StripLeading(path));
    var split := SplitScheme(url);
    var netloc := Netloc(split.rest);
    if netloc.Some? && UnbalancedBrackets(netloc.value) then false
    else split.scheme == "http" || split.scheme == "https"
  }

  /** A well-formed scheme followed by a colon is split off, lower-cased. */
  lemma SchemeSplitsOff(scheme: string, rest: string)
    requires scheme != [] && IsAsciiLetter(scheme[0]) && forall j :: 0 <= j < |scheme| ==> IsSchemeChar(scheme[j])
    ensures SplitScheme(scheme + ":" + rest) == Split(Lower(scheme), rest)
  {
    var url := scheme + ":" + rest;
    assert url[|scheme|] == ':';
    forall j | 0 <= j < |scheme| ensures url[j] == scheme[j] && url[j] != ':' {
      assert IsSchemeChar(scheme[j]);
    }
    var i := Find(url, ':');
    assert i.Some? && i.value == |scheme|;
    assert url[..|scheme|] == scheme;
    assert url[|scheme| + 1..] == rest;
    assert IsAsciiLetter(url[0]) && forall j :: 0 <= j < i.value ==> IsSchemeChar(url[j]);
  }

  /** The stripping and the removal leave an http(s) URL without tabs or line breaks as it is. */
  lemma WebUrlIsClean(scheme: string, rest: string)
    requires Lower(scheme) == "http" || Lower(scheme) == "https"
    requires rest == RemoveUnsafe(rest)
    ensures scheme != [] && IsAsciiLetter(scheme[0]) && forall j :: 0 <= j < |scheme| ==> IsSchemeChar(scheme[j])
    ensures RemoveUnsafe(StripLeading(scheme + ":" + rest)) == scheme + ":" + rest
  {
    var url := scheme + ":" + rest;
    assert |scheme| == 4 || |scheme| == 5;
    forall j | 0 <= j < |scheme| ensures IsAsciiLetter(scheme[j]) {
      assert LowerChar(scheme[j]) == Lower(scheme)[j];
    }
    assert StripLeading(url) == url by {
      assert LowerChar(url[0]) == 'h';
    }
    RemoveUnsafeKeeps(scheme + ":", rest);
  }

  /**
   * "http:" or "https:" in any letter case makes a URL, unless the network
   * location has a lone bracket. The network location is ASCII: a non-ASCII
   * one goes through a Unicode normalisation check that this model does not
   * follow.
   */
  lemma WebSchemesAreUrls(scheme: string, rest: string)
    requires Lower(scheme) == "http" || Lower(scheme) == "https"
    requires rest == RemoveUnsafe(rest)
    requires Netloc(rest).Some? ==> !UnbalancedBrackets(Netloc(rest).value)
    requires Netloc(rest).Some? ==> forall j :: 0 <= j < |Netloc(rest).value| ==> Netloc(rest).value[j] < 128 as char
    ensures IsUrl(scheme + ":" + rest)
  {
    WebUrlIsClean(scheme, rest);
    SchemeSplitsOff(scheme, rest);
  }

  /** Text without tabs or line breaks passes through the removal unchanged. */
  lemma {:induction false} RemoveUnsafeKeeps(clean: string, rest: string)
    requires forall i :: 0 <= i < |clean| ==> clean[i] != '\t' && clean[i] != '\r' && clean[i] != '\n'
    requires rest == RemoveUnsafe(rest)
    ensures RemoveUnsafe(clean + rest) == clean + rest
  {
    if clean != [] {
      assert (clean + rest)[1..] == clean[1..] + rest;
      RemoveUnsafeKeeps(clean[1..], rest);
    } else {
      assert clean + rest == rest;
    }
  }

  /** Local file paths (absolute or relative) are not URLs. */
  lemma FilePathsAreNotUrls(path: string)
    requires path != [] && (path[0] == '/' || path[0] == '.')
    ensures !IsUrl(path)
  {
    var url := RemoveUnsafe(StripLeading(path));
    assert StripLeading(path) == path;
    assert url[0] == path[0];
  }

  /** The network location ends at the first '/', '?' or '#'. */
  lemma {:induction false} NetlocEndAfter(netloc: string, tail: string)
    requires forall j :: 0 <= j < |netloc| ==> netloc[j] != '/' && netloc[j] != '?' && netloc[j] != '#'
    requires tail == [] || tail[0] == '/' || tail[0] == '?' || tail[0] == '#'
    ensures NetlocEnd(netloc + tail) == |netloc|
  {
    if netloc != [] {
      assert (netloc + tail)[1..] == netloc[1..] + tail;
      NetlocEndAfter(netloc[1..], tail);
    } else {
      assert netloc + tail == tail;
    }
  }

  /**
   * A host with an opening bracket and no closing one makes the split
   * raise, which the helper reports as not a URL, even under an http scheme.
   */
  lemma LoneBracketIsNotUrl(scheme: string, netloc: string, tail: string)
    requires Lower(scheme) == "http" || Lower(scheme) == "https"
    requires forall j :: 0 <= j < |netloc| ==> netloc[j] != '/' && netloc[j] != '?' && netloc[j] != '#'
    requires forall j :: 0 <= j < |netloc| ==> netloc[j] != '\t' && netloc[j] != '\r' && netloc[j] != '\n'
    requires '[' in netloc && ']' !in netloc
    requires tail == [] || tail[0] == '/' || tail[0] == '?' || tail[0] == '#'
    requires tail == RemoveUnsafe(tail)
    ensures !IsUrl(scheme + "://" + netloc + tail)
  {
    var rest := "//" + netloc + tail;
    var url := scheme + ":" + rest;
    assert url == scheme + "://" + netloc + tail;
    CleanRest(netloc, tail);
    assert RemoveUnsafe(StripLeading(url)) == url && SplitScheme(url).rest == rest by {
      WebUrlIsClean(scheme, rest);
      SchemeSplitsOff(scheme, rest);
    }
    assert Netloc(rest) == Some(netloc) by {
      NetlocOf(netloc, tail);
    }
    assert UnbalancedBrackets(netloc);
  }

  lemma CleanRest(netloc: string, tail: string)
    requires forall j :: 0 <= j < |netloc| ==> netloc[j] != '\t' && netloc[j] != '\r' && netloc[j] != '\n'
    requires tail == RemoveUnsafe(tail)
    ensures "//" + netloc + tail == RemoveUnsafe("//" + netloc + tail)
  {
    var head := "//" + netloc;
    forall j | 0 <= j < |head| ensures head[j] != '\t' && head[j] != '\r' && head[j] != '\n' {
      if j >= 2 {
        assert head[j] == netloc[j - 2];
      }
    }
    RemoveUnsafeKeeps(head, tail);
  }

  lemma NetlocOf(netloc: string, tail: string)
    requires forall j :: 0 <= j < |netloc| ==> netloc[j] != '/' && netloc[j] != '?' && netloc[j] != '#'
    requires tail == [] || tail[0] == '/' || tail[0] == '?' || tail[0] == '#'
    ensures Netloc("//" + netloc + tail) == Some(netloc)
  {
    var rest := "//" + netloc + tail;
    assert rest[..2] == "//";
    assert rest[2..] == netloc + tail;
    NetlocEndAfter(netloc, tail);
    assert (netloc + tail)[..|netloc|] == netloc;
  }

  // ----- The extension a downloaded texture keeps -----

  /** The last index of c in s. */
  function LastIndex(s: string, c: char): (r: Option<nat>)
    ensures r.Some? ==> r.value < |s| && s[r.value] == c && forall j :: r.value < j < |s| ==> s[j] != c
    ensures r.None? ==> forall j :: 0 <= j < |s| ==> s[j] != c
  {
    if s == [] then None
    else if s[|s| - 1] == c then Some(|s| - 1)
    else LastIndex(s[..|s| - 1], c)
  }

  /** `"." + path.rsplit(".", 1)[1]`, or "" without a dot: everything from the last dot on. */
  function ExtensionAsWritten(urlPath: string): (ext: string)
    ensures ext == [] || (ext[0] == '.' && forall j :: 1 <= j < |ext| ==> ext[j] != '.')
    ensures |ext| <= |urlPath| && ext == urlPath[|urlPath| - |ext|..]
  {
    var dot := LastIndex(urlPath, '.');
    if dot.None? then [] else urlPath[dot.value..]
  }

  predicate NoDot(s: string) {
    forall j :: 0 <= j < |s| ==> s[j] != '.'
  }

  /** No dot follows the last '/' (or, without a '/', no dot at all). */
  predicate LastSegmentHasNoDot(s: string) {
    forall j :: 0 <= j < |s| && s[j] == '.' ==> !InLastSegment(s, j)
  }

  /** Position j lies in the last path segment: no '/' follows it. */
  predicate InLastSegment(s: string, j: nat) {
    forall k :: j < k < |s| ==> s[k] != '/'
  }

  /** Where the last path segment begins: just after the last '/', or at 0 without one. */
  function SegmentStart(urlPath: string): (start: nat)
    ensures start <= |urlPath|
    ensures forall k :: start <= k < |urlPath| ==> urlPath[k] != '/'
    ensures start > 0 ==> urlPath[start - 1] == '/'
  {
    var slash := LastIndex(urlPath, '/');
    if slash.None? then 0 else slash.value + 1
  }

  /** The extension of the last path segment only: a dot in a directory name is ignored. */
  function Extension(urlPath: string): (ext: string)
    ensures ext == [] || (ext[0] == '.' && forall j :: 1 <= j < |ext| ==> ext[j] != '.')
    ensures forall j :: 0 <= j < |ext| ==> ext[j] != '/'
    ensures |ext| <= |urlPath| && ext == urlPath[|urlPath| - |ext|..]
  {
    var name := urlPath[SegmentStart(urlPath)..];
    assert forall j :: 0 <= j < |name| ==> name[j] != '/';
    ExtensionAsWritten(name)
  }

  /** `rsplit(".", 1)` gives no extension exactly when the path has no dot at all. */
  lemma ExtensionAsWrittenEmptyIffNoDot(urlPath: string)
    ensures ExtensionAsWritten(urlPath) == [] <==> NoDot(urlPath)
  {
    var dot := LastIndex(urlPath, '.');
    if dot.Some? {
      assert urlPath[dot.value..][0] == '.';
    }
  }

  /** The corrected rule gives no extension exactly when no dot follows the last '/'. */
  lemma ExtensionEmptyIffNoDotInLastSegment(urlPath: string)
    ensures Extension(urlPath) == [] <==> LastSegmentHasNoDot(urlPath)
  {
    var start := SegmentStart(urlPath);
    ExtensionAsWrittenEmptyIffNoDot(urlPath[start..]);
    LastSegmentDots(urlPath, start);
  }

  /** With start just after the last '/', the text from start on holds a dot iff the last segment does. */
  lemma LastSegmentDots(urlPath: string, start: nat)
    requires start <= |urlPath|
    requires forall k :: start <= k < |urlPath| ==> urlPath[k] != '/'
    requires start > 0 ==> urlPath[start - 1] == '/'
    ensures NoDot(urlPath[start..]) <==> LastSegmentHasNoDot(urlPath)
  {
    var name := urlPath[start..];
    if NoDot(name) {
      forall j | 0 <= j < |urlPath| && urlPath[j] == '.'
        ensures !InLastSegment(urlPath, j)
      {
        if j < start {
          assert urlPath[start - 1] == '/';
        }
      }
    } else {
      var i :| 0 <= i < |name| && name[i] == '.';
      assert urlPath[start + i] == '.' && InLastSegment(urlPath, start + i);
    }
  }

  /** The cache file name: the hash of the URL followed by the extension. */
  function CachedFileName(urlHash: string, urlPath: string): string {
    urlHash + Extension(urlPath)
  }

  /** A hash without separators gives a file directly inside the cache directory. */
  lemma CachedFileStaysInCache(urlHash: string, urlPath: string)
    requires forall j :: 0 <= j < |urlHash| ==> urlHash[j] != '/'
    ensures forall j :: 0 <= j < |CachedFileName(urlHash, urlPath)| ==> CachedFileName(urlHash, urlPath)[j] != '/'
  {
    var ext := Extension(urlPath);
    forall j | 0 <= j < |urlHash + ext| ensures (urlHash + ext)[j] != '/' {
      if j >= |urlHash| {
        assert (urlHash + ext)[j] == ext[j - |urlHash|];
      }
    }
  }

  /** When the last dot lies in the last segment, both rules give the same extension. */
  lemma ExtensionAgreesInLastSegment(urlPath: string)
    requires LastIndex(urlPath, '/').Some? && LastIndex(urlPath, '.').Some? ==>
               LastIndex(urlPath, '/').value < LastIndex(urlPath, '.').value
    ensures Extension(urlPath) == ExtensionAsWritten(urlPath)
  {
    var slash := LastIndex(urlPath, '/');
    var dot := LastIndex(urlPath, '.');
    if slash.Some? {
      var start := slash.value + 1;
      assert Extension(urlPath) == ExtensionAsWritten(urlPath[start..]);
      if dot.Some? {
        DotInLastSegment(urlPath, start, dot.value);
      } else {
        NoDotInLastSegment(urlPath, start);
      }
    }
  }

  lemma DotInLastSegment(urlPath: string, start: nat, dot: nat)
    requires start <= dot < |urlPath| && LastIndex(urlPath, '.') == Some(dot)
    ensures ExtensionAsWritten(urlPath[start..]) == ExtensionAsWritten(urlPath)
  {
    var name := urlPath[start..];
    var d := dot - start;
    assert name[d] == '.';
    forall j | d < j < |name| ensures name[j] != '.' {
      assert name[j] == urlPath[start + j];
    }
    ExtensionFromDot(name, d);
    ExtensionFromDot(urlPath, dot);
    SuffixOfSuffix(urlPath, start, d);
  }

  lemma ExtensionFromDot(s: string, d: nat)
    requires d < |s| && s[d] == '.' && forall j :: d < j < |s| ==> s[j] != '.'
    ensures ExtensionAsWritten(s) == s[d..]
  {
    LastIndexFromEnd(s, '.', d);
  }

  lemma NoDotInLastSegment(urlPath: string, start: nat)
    requires start <= |urlPath| && LastIndex(urlPath, '.').None?
    ensures ExtensionAsWritten(urlPath[start..]) == ExtensionAsWritten(urlPath)
  {
    var name := urlPath[start..];
    forall j | 0 <= j < |name| ensures name[j] != '.' {
      assert name[j] == urlPath[start + j];
    }
    LastIndexAbsent(name, '.');
  }

  lemma SuffixOfSuffix(s: string, a: nat, b: nat)
    requires a + b <= |s|
    ensures s[a..][b..] == s[a + b..]
  {
  }

  lemma {:induction false} LastIndexFromEnd(s: string, c: char, d: nat)
    requires d < |s| && s[d] == c && forall j :: d < j < |s| ==> s[j] != c
    ensures LastIndex(s, c) == Some(d)
  {
    if d < |s| - 1 {
      LastIndexFromEnd(s[..|s| - 1], c, d);
    }
  }

  lemma {:induction false} LastIndexAbsent(s: string, c: char)
    requires forall j :: 0 <= j < |s| ==> s[j] != c
    ensures LastIndex(s, c).None?
  {
    if s != [] {
      LastIndexAbsent(s[..|s| - 1], c);
    }
  }

  /**
   * A dot in a directory name puts a slash into the as-written extension,
   * so the cache file would sit in a directory that does not exist; the
   * corrected rule keeps only the last segment's (here empty) extension.
   */
  lemma DottedDirectoryLeaksSlash()
    ensures ExtensionAsWritten("/v1.2/texture") == ".2/texture"
    ensures Extension("/v1.2/texture") == ""
  {
    var p := "/v1.2/texture";
    LastIndexFromEnd(p, '.', 3);
    LastIndexFromEnd(p, '/', 5);
    var name := p[6..];
    assert name == "texture";
    assert name[0] != '.' && name[1] != '.' && name[2] != '.' && name[3] != '.';
    assert name[4] != '.' && name[5] != '.' && name[6] != '.';
    LastIndexAbsent(name, '.');
  }
}
