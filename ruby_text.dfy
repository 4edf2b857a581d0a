/** The pieces of Ruby and ActiveSupport string handling that the label
    rules rely on: `blank?`/`present?`, `File.basename` and the path
    component of a URI. */
module RubyText {
  import opened Wrappers

  /** Ruby's ASCII `[[:space:]]`: space, \t, \n, \v, \f, \r. */
  predicate IsSpace(c: char) {
    c == ' ' || c == '\t' || c == '\n' || c == '\U{B}' || c == '\U{C}' || c == '\r'
  }

  /** `String#blank?`: empty or only white space. */
  predicate BlankString(s: string) {
    forall i :: 0 <= i < |s| ==> IsSpace(s[i])
  }

  /** `present?` on a value that may be nil. */
  predicate Present(o: Option<string>) {
    o.Some? && !BlankString(o.value)
  }

  /** `path` with every trailing '/' removed. */
  function StripTrailingSlashes(path: string): (r: string)
    ensures r <= path
    ensures r == [] || r[|r| - 1] != '/'
    ensures forall i :: |r| <= i < |path| ==> path[i] == '/'
  {
    if path != [] && path[|path| - 1] == '/' then StripTrailingSlashes(path[..|path| - 1]) else path
  }

  /** The characters after the last '/' of `s` (all of `s` if it has none). */
  function LastSegment(s: string): (r: string)
    ensures '/' !in r
    ensures |r| <= |s| && r == s[|s| - |r|..]
    ensures |r| < |s| ==> s[|s| - |r| - 1] == '/'
  {
    if s == [] || s[|s| - 1] == '/' then [] else LastSegment(s[..|s| - 1]) + [s[|s| - 1]]
  }

  /** `File.basename(path)` on a Unix system: the last path component,
      ignoring trailing slashes; "/" for a path made only of slashes. */
  function Basename(path: string): (r: string)
  {
    var t := StripTrailingSlashes(path);
    if path == [] then [] else if t == [] then "/" else LastSegment(t)
  }

  /** A file name as `File.basename` returns it: the root "/" or a string without '/'. */
  predicate IsBasename(s: string) {
    s == "/" || '/' !in s
  }

  /** `File.basename` yields a single component, empty only for the empty path. */
  lemma BasenameShape(path: string)
    ensures IsBasename(Basename(path))
    ensures Basename(path) == [] <==> path == []
  {
    var t := StripTrailingSlashes(path);
    if path != [] && t != [] {
      assert LastSegment(t) != [];
    }
  }

  /** A component appended to a directory is what `File.basename` gives back. */
  lemma {:induction false} BasenameOfJoin(dir: string, name: string)
    requires name != [] && '/' !in name
    ensures Basename(dir + "/" + name) == name
  {
    var p := dir + "/" + name;
    assert p[|p| - 1] == name[|name| - 1];
    assert StripTrailingSlashes(p) == p;
    LastSegmentIsSuffix(dir + "/", name);
  }

  /** The last segment of `prefix + name` is `name` when `prefix` ends in '/'. */
  lemma {:induction false} LastSegmentIsSuffix(prefix: string, name: string)
    requires prefix != [] && prefix[|prefix| - 1] == '/'
    requires '/' !in name
    ensures LastSegment(prefix + name) == name
    decreases |name|
  {
    if name == [] {
      assert prefix + name == prefix;
    } else {
      var p := prefix + name;
      assert p[..|p| - 1] == prefix + name[..|name| - 1];
      assert name[..|name| - 1] + [name[|name| - 1]] == name;
      LastSegmentIsSuffix(prefix, name[..|name| - 1]);
    }
  }

  /** The prefix of `s` before the first occurrence of `c` (all of `s` if none). */
  function UpTo(s: string, c: char): (r: string)
    ensures r <= s && c !in r
    ensures |r| < |s| ==> s[|r|] == c
  {
    if s == [] || s[0] == c then [] else [s[0]] + UpTo(s[1..], c)
  }

  /** The suffix of `s` from the first occurrence of `c` on ("" if none). */
  function FromFirst(s: string, c: char): (r: string)
    ensures |r| <= |s| && r == s[|s| - |r|..]
    ensures r != [] ==> r[0] == c
    ensures c !in s[..|s| - |r|]
  {
    if s == [] then [] else if s[0] == c then s else FromFirst(s[1..], c)
  }

  predicate IsSchemeChar(c: char) {
    'a' <= c <= 'z' || 'A' <= c <= 'Z' || '0' <= c <= '9' || c == '+' || c == '-' || c == '.'
  }

  /** The length of the leading run of scheme characters of `s`. */
  function SchemeRun(s: string): (k: nat)
    ensures k <= |s|
    ensures forall i :: 0 <= i < k ==> IsSchemeChar(s[i])
    ensures k < |s| ==> !IsSchemeChar(s[k])
  {
    if s != [] && IsSchemeChar(s[0]) then 1 + SchemeRun(s[1..]) else 0
  }

  /** A URI reference without its fragment and its query. */
  function DropQuery(url: string): (u: string)
    ensures '?' !in u && '#' !in u
  {
    UpTo(UpTo(url, '#'), '?')
  }

  /** A URI reference without its leading "scheme:", if it has one. */
  function DropScheme(u: string): (rest: string)
    ensures |rest| <= |u| && rest == u[|u| - |rest|..]
  {
    var k := SchemeRun(u);
    if u != [] && ('a' <= u[0] <= 'z' || 'A' <= u[0] <= 'Z') && k < |u| && u[k] == ':'
    then u[k + 1..] else u
  }

  /** A hierarchical part without its leading "//authority", if it has one. */
  function DropAuthority(rest: string): (path: string)
    ensures |path| <= |rest| && path == rest[|rest| - |path|..]
  {
    if |rest| >= 2 && rest[0] == '/' && rest[1] == '/' then FromFirst(rest[2..], '/') else rest
  }

  /** The path component of a URI reference, as `Addressable::URI.parse(url).path`
      gives it: the fragment, the query, a leading "scheme:" and an
      "//authority" are removed. */
  function UriPath(url: string): (path: string)
    ensures '?' !in path && '#' !in path
  {
    var u := DropQuery(url);
    var path := DropAuthority(DropScheme(u));
    assert forall c :: c in path ==> c in u;
    path
  }

  lemma {:induction false} UpToWhole(s: string, c: char)
    requires c !in s
    ensures UpTo(s, c) == s
    decreases |s|
  {
    if s != [] {
      UpToWhole(s[1..], c);
      assert [s[0]] + s[1..] == s;
    }
  }

  lemma {:induction false} UpToStopsAt(s: string, t: string, c: char)
    requires c !in s && t != [] && t[0] == c
    ensures UpTo(s + t, c) == s
    decreases |s|
  {
    if s != [] {
      assert (s + t)[1..] == s[1..] + t;
      UpToStopsAt(s[1..], t, c);
      assert [s[0]] + s[1..] == s;
    }
  }

  lemma {:induction false} FromFirstAfter(s: string, t: string, c: char)
    requires c !in s && t != [] && t[0] == c
    ensures FromFirst(s + t, c) == t
    decreases |s|
  {
    if s != [] {
      assert (s + t)[1..] == s[1..] + t;
      FromFirstAfter(s[1..], t, c);
    }
  }

  /** The "?query" part of a URL, empty when the URL has no query. */
  function QuerySuffix(query: Option<string>): (suffix: string) {
    if query.Some? then "?" + query.value else ""
  }

  lemma DropQueryOf(front: string, query: Option<string>)
    requires '?' !in front && '#' !in front
    requires query.Some? ==> '#' !in query.value
    ensures DropQuery(front + QuerySuffix(query)) == front
  {
    var url := front + QuerySuffix(query);
    if query.Some? {
      UpToWhole(url, '#');
      assert url == front + ("?" + query.value);
      UpToStopsAt(front, "?" + query.value, '?');
    } else {
      assert url == front;
      UpToWhole(front, '#');
      UpToWhole(front, '?');
    }
  }

  lemma DropSchemeHttps(rest: string)
    ensures DropScheme("https:" + rest) == rest
  {
    var u := "https:" + rest;
    SchemeRunOfHttpsColon(rest);
    assert u[6..] == rest;
  }

  lemma DropAuthorityOf(host: string, path: string)
    requires '/' !in host && path != [] && path[0] == '/'
    ensures DropAuthority("//" + host + path) == path
  {
    assert ("//" + host + path)[2..] == host + path;
    FromFirstAfter(host, path, '/');
  }

  /** For an https URL, the path is what lies between the host and the
      query, if there is a query. */
  lemma UriPathOfHttpsUrl(host: string, path: string, query: Option<string>)
    requires '/' !in host && '?' !in host && '#' !in host
    requires path != [] && path[0] == '/' && '?' !in path && '#' !in path
    requires query.Some? ==> '#' !in query.value
    ensures UriPath("https://" + host + path + QuerySuffix(query)) == path
  {
    var hier := "//" + host + path;
    var front := "https:" + hier;
    assert "https://" + host + path + QuerySuffix(query) == front + QuerySuffix(query);
    DropQueryOf(front, query);
    DropSchemeHttps(hier);
    DropAuthorityOf(host, path);
  }

  /** For a URL that is an absolute path with no scheme and no authority,
      such as "/uploads/file.pdf", the path is the URL without its query. */
  lemma UriPathOfAbsolutePath(path: string, query: Option<string>)
    requires path != [] && path[0] == '/' && (|path| == 1 || path[1] != '/')
    requires '?' !in path && '#' !in path
    requires query.Some? ==> '#' !in query.value
    ensures UriPath(path + QuerySuffix(query)) == path
  {
    DropQueryOf(path, query);
  }

  lemma SchemeRunOfHttpsColon(rest: string)
    ensures SchemeRun("https:" + rest) == 5
  {
    var s := "https:" + rest;
    assert s[5..][0] == ':';
    assert s[4..][1..] == s[5..];
    assert s[3..][1..] == s[4..];
    assert s[2..][1..] == s[3..];
    assert s[1..][1..] == s[2..];
  }
}
