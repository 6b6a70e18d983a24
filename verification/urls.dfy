/**
 * The pieces of Python's `urllib.parse` that the video model relies on to
 * find a YouTube id: `urlparse` (built on `urlsplit`) and `parse_qs` with
 * its percent-decoding. The behaviour follows CPython 3.12.
 */
module Urls {
  import opened Wrappers
  import opened Text

  // ---------------------------------------------------------------------------
  // Splitting at one character
  // ---------------------------------------------------------------------------

  /** The two halves of `s.split(c, 1)` (or `partition`), with `found` telling which case applied. */
  datatype Cut = Cut(before: string, after: string, found: bool)

  /** Cutting at the first `c`: `s.split(c, 1)` when `c in s`, else the whole string and "". */
  function CutFirst(s: string, c: char): (r: Cut)
    ensures r.found ==> s == r.before + [c] + r.after
    ensures !r.found ==> r.before == s && r.after == ""
    ensures r.found <==> c in s
    ensures c !in r.before
    ensures r.before <= s
    ensures r.found ==> |r.before| == Find(s, c)
  {
    var i := Find(s, c);
    if i < 0 then Cut(s, "", false)
    else
      assert s == s[..i] + [c] + s[i + 1..];
      Cut(s[..i], s[i + 1..], true)
  }

  // ---------------------------------------------------------------------------
  // urlsplit
  // ---------------------------------------------------------------------------

  /** The characters stripped from the front of a URL: C0 controls and space. */
  predicate IsC0OrSpace(c: char) {
    c <= ' '
  }

  /** Tab, carriage return and line feed, which are removed everywhere. */
  predicate IsUnsafe(c: char) {
    c == '\t' || c == '\r' || c == '\n'
  }

  function StripControls(s: string): (r: string)
    ensures |r| <= |s| && r == s[|s| - |r|..]
    ensures |r| > 0 ==> !IsC0OrSpace(r[0])
    ensures forall i :: 0 <= i < |s| - |r| ==> IsC0OrSpace(s[i])
  {
    if |s| > 0 && IsC0OrSpace(s[0]) then StripControls(s[1..]) else s
  }

  /** `s` with every tab, carriage return and line feed removed. */
  function RemoveUnsafe(s: string): (r: string)
    ensures forall i :: 0 <= i < |r| ==> !IsUnsafe(r[i])
    ensures |r| <= |s|
  {
    if |s| == 0 then ""
    else (if IsUnsafe(s[0]) then "" else [s[0]]) + RemoveUnsafe(s[1..])
  }

  /** A string without tabs or newlines is left as it is. */
  lemma {:induction false} RemoveUnsafeKeeps(s: string)
    requires forall i :: 0 <= i < |s| ==> !IsUnsafe(s[i])
    ensures RemoveUnsafe(s) == s
    decreases |s|
  {
    if |s| > 0 {
      assert forall i :: 0 <= i < |s[1..]| ==> s[1..][i] == s[i + 1];
      RemoveUnsafeKeeps(s[1..]);
      assert s == [s[0]] + s[1..];
    }
  }

  /** The URL `urlsplit` works on: leading controls stripped, then every tab and newline removed. */
  function Sanitize(url: string): (r: string)
    ensures forall i :: 0 <= i < |r| ==> !IsUnsafe(r[i])
    ensures |r| <= |url|
  {
    RemoveUnsafe(StripControls(url))
  }

  predicate IsSchemeChar(c: char) {
    IsAsciiLetter(c) || IsDigit(c) || c == '+' || c == '-' || c == '.'
  }

  predicate AllSchemeChars(s: string) {
    forall i :: 0 <= i < |s| ==> IsSchemeChar(s[i])
  }

  /**
   * The index of the colon that ends a scheme, or -1: the first colon must
   * come after an ASCII letter and only scheme characters may precede it.
   */
  function SchemeEnd(url: string): (k: int)
    ensures k < 0 || (0 < k < |url| && url[k] == ':' && ':' !in url[..k])
    ensures k > 0 <==> 0 < Find(url, ':') && IsAsciiLetter(url[0]) && AllSchemeChars(url[..Find(url, ':')])
  {
    var i := Find(url, ':');
    if i > 0 && IsAsciiLetter(url[0]) && AllSchemeChars(url[..i]) then i else -1
  }

  predicate IsNetlocEnd(c: char) {
    c == '/' || c == '?' || c == '#'
  }

  /** `_splitnetloc`: the first of '/', '?', '#' at or after `start`, or the end of the string. */
  function NetlocEnd(s: string, start: nat): (i: nat)
    requires start <= |s|
    ensures start <= i <= |s|
    ensures forall j :: start <= j < i ==> !IsNetlocEnd(s[j])
    ensures i < |s| ==> IsNetlocEnd(s[i])
    decreases |s| - start
  {
    if start == |s| then start
    else if IsNetlocEnd(s[start]) then start
    else NetlocEnd(s, start + 1)
  }

  /** The result of `urlsplit`. */
  datatype SplitResult = SplitResult(scheme: string, netloc: string, path: string, query: string, fragment: string)

  /** A netloc with an opening bracket and no closing one, or the reverse. */
  predicate UnbalancedBrackets(netloc: string) {
    ('[' in netloc) != (']' in netloc)
  }

  /** The netloc and the remainder of a URL whose scheme has been taken off. */
  function SplitNetloc(rest: string): (r: Cut)
    ensures r.found <==> |rest| >= 2 && rest[..2] == "//"
    ensures r.found ==> rest == "//" + r.before + r.after
    ensures !r.found ==> r.before == "" && r.after == rest
    ensures forall j :: 0 <= j < |r.before| ==> !IsNetlocEnd(r.before[j])
  {
    if |rest| >= 2 && rest[..2] == "//" then
      var d := NetlocEnd(rest, 2);
      assert rest == rest[..2] + rest[2..d] + rest[d..];
      Cut(rest[2..d], rest[d..], true)
    else Cut("", rest, false)
  }

  /** No character of `s` is one of `cs`. */
  predicate NoneOf(s: string, cs: string) {
    forall j :: 0 <= j < |s| ==> s[j] !in cs
  }

  /** The path, query and fragment of what follows the netloc: cut at the first '#', then at the first '?'. */
  function SplitTail(tail: string): (r: SplitResult)
    ensures '#' !in r.path && '?' !in r.path && '#' !in r.query
    ensures r.scheme == "" && r.netloc == ""
  {
    var f := CutFirst(tail, '#');
    var q := CutFirst(f.before, '?');
    assert '#' !in q.before by {
      assert forall j :: 0 <= j < |q.before| ==> q.before[j] == f.before[j];
    }
    SplitResult("", "", q.before, q.after, f.after)
  }

  /** The first `c` is where it is: a string built around one `c` with none before it cuts back into its parts. */
  lemma {:induction false} CutFirstOf(x: string, c: char, y: string)
    requires c !in x
    ensures CutFirst(x + [c] + y, c) == Cut(x, y, true)
  {
    var s := x + [c] + y;
    var r := CutFirst(s, c);
    assert s[|x|] == c;
    assert s[|r.before|] == c;
    assert |r.before| >= |x| by {
      assert forall j :: 0 <= j < |x| ==> s[j] == x[j];
    }
    assert |r.before| <= |x| by {
      assert forall j :: 0 <= j < |r.before| ==> s[j] == r.before[j];
    }
    assert r.before == s[..|x|] == x;
    assert r.after == s[|x| + 1..] == y;
  }

  /** A tail with a query and no fragment splits into that path and query. */
  lemma SplitTailQuery(path: string, query: string)
    requires '#' !in path && '#' !in query && '?' !in path
    ensures SplitTail(path + "?" + query) == SplitResult("", "", path, query, "")
  {
    var t := path + "?" + query;
    assert '#' !in t by {
      forall j | 0 <= j < |t| ensures t[j] != '#' {
        if j > |path| { assert t[j] == query[j - |path| - 1]; }
      }
    }
    CutFirstOf(path, '?', query);
  }

  /** A tail with neither query nor fragment is all path. */
  lemma SplitTailPlain(path: string)
    requires '#' !in path && '?' !in path
    ensures SplitTail(path) == SplitResult("", "", path, "", "")
  {
  }

  /** `urlsplit(url)`, with None for the `ValueError` it raises on unbalanced brackets. */
  function UrlSplit(url: string): (r: Option<SplitResult>)
    ensures r.None? <==> UnbalancedBrackets(SplitNetloc(Rest(Sanitize(url))).before)
    ensures r.Some? && SchemeEnd(Sanitize(url)) <= 0 ==> r.value.scheme == ""
  {
    var u := Sanitize(url);
    var n := SplitNetloc(Rest(u));
    if UnbalancedBrackets(n.before) then None
    else
      var t := SplitTail(n.after);
      Some(t.(scheme := SchemeOf(u), netloc := n.before))
  }

  /** The scheme, lower-cased, or "" when the URL has none. */
  function SchemeOf(u: string): (scheme: string)
    ensures SchemeEnd(u) <= 0 ==> scheme == ""
    ensures SchemeEnd(u) > 0 ==> |scheme| == SchemeEnd(u)
  {
    var k := SchemeEnd(u);
    if k > 0 then Lower(u[..k]) else ""
  }

  /** `urlsplit` assembled from its steps. */
  lemma UrlSplitFromParts(u: string, scheme: string, rest: string, host: string, tail: string)
    requires Sanitize(u) == u
    requires SchemeOf(u) == scheme && Rest(u) == rest
    requires SplitNetloc(rest) == Cut(host, tail, true)
    requires !UnbalancedBrackets(host)
    ensures UrlSplit(u) == Some(SplitTail(tail).(scheme := scheme, netloc := host))
  {
  }

  /** What follows the scheme and its colon (the whole URL when there is no scheme). */
  function Rest(u: string): (r: string)
    ensures SchemeEnd(u) > 0 ==> u == u[..SchemeEnd(u)] + ":" + r
    ensures SchemeEnd(u) <= 0 ==> r == u
  {
    var k := SchemeEnd(u);
    if k > 0 then
      assert u == u[..k] + [u[k]] + u[k + 1..];
      u[k + 1..]
    else u
  }

  // ---------------------------------------------------------------------------
  // urlparse
  // ---------------------------------------------------------------------------

  /** The schemes whose paths may carry `;params`. */
  const UsesParams: seq<string> :=
    ["", "ftp", "hdl", "prospero", "http", "imap", "https", "shttp", "rtsp", "rtsps", "rtspu",
     "sip", "sips", "mms", "sftp", "tel"]

  /** The path up to and including its last '/', and the part after it. */
  function AfterLastSlash(path: string): (r: Cut)
    ensures path == r.before + r.after
    ensures '/' !in r.after
    ensures r.after == path[RFind(path, '/') + 1..]
  {
    var s := RFind(path, '/');
    NothingAfterLast(path, '/');
    assert path == path[..s + 1] + path[s + 1..];
    Cut(path[..s + 1], path[s + 1..], s >= 0)
  }

  /** Nothing after the last `c` is a `c`. */
  lemma NothingAfterLast(s: string, c: char)
    ensures c !in s[RFind(s, c) + 1..]
  {
    var k := RFind(s, c);
    var after := s[k + 1..];
    forall j | 0 <= j < |after| ensures after[j] != c {
      assert after[j] == s[k + 1 + j];
    }
  }

  lemma ReglueAt(s: string, head: string, tail: string, x: string, y: string, c: char)
    requires s == head + tail && tail == x + [c] + y
    ensures s == (head + x) + [c] + y
  {
  }

  /** `_splitparams`: the path is cut at the first ';' after its last '/'. */
  function SplitParams(path: string): (r: Cut)
    ensures r.found ==> path == r.before + ";" + r.after
    ensures !r.found ==> r.before == path && r.after == ""
    ensures '/' !in r.after
    ensures r.found <==> ';' in path[RFind(path, '/') + 1..]
    ensures r.found ==> |r.before| == RFind(path, '/') + 1 + Find(path[RFind(path, '/') + 1..], ';')
  {
    var a := AfterLastSlash(path);
    var c := CutFirst(a.after, ';');
    if c.found then
      ReglueAt(path, a.before, a.after, c.before, c.after, ';');
      Cut(a.before + c.before, c.after, true)
    else Cut(path, "", false)
  }

  /** The result of `urlparse`. */
  datatype ParseResult = ParseResult(scheme: string, netloc: string, path: string, params: string, query: string, fragment: string)

  /** `urlparse(url)`, with None for the `ValueError` of `urlsplit`. */
  function UrlParse(url: string): (r: Option<ParseResult>)
    ensures r.Some? <==> UrlSplit(url).Some?
    ensures r.Some? ==> r.value.query == UrlSplit(url).value.query
    ensures r.Some? ==> r.value.path <= UrlSplit(url).value.path
    ensures r.Some? ==> r.value.scheme == UrlSplit(url).value.scheme && r.value.netloc == UrlSplit(url).value.netloc
                        && r.value.fragment == UrlSplit(url).value.fragment
    ensures r.Some? && (UrlSplit(url).value.scheme !in UsesParams || ';' !in UrlSplit(url).value.path) ==>
              r.value.path == UrlSplit(url).value.path && r.value.params == ""
    ensures r.Some? && UrlSplit(url).value.scheme in UsesParams ==>
              var path := UrlSplit(url).value.path;
              var segment := RFind(path, '/') + 1;
              && (';' in path[segment..] ==>
                    path == r.value.path + ";" + r.value.params
                    && |r.value.path| == segment + Find(path[segment..], ';'))
              && (';' !in path[segment..] ==> r.value.path == path && r.value.params == "")
  {
    match UrlSplit(url)
    case None => None
    case Some(s) =>
      if s.scheme in UsesParams && ';' in s.path then
        var p := SplitParams(s.path);
        Some(ParseResult(s.scheme, s.netloc, p.before, p.after, s.query, s.fragment))
      else Some(ParseResult(s.scheme, s.netloc, s.path, "", s.query, s.fragment))
  }

  /** Without a ';' in its path, `urlparse` is `urlsplit` with empty params. */
  lemma UrlParseWithoutParams(url: string, s: SplitResult)
    requires UrlSplit(url) == Some(s)
    requires ';' !in s.path
    ensures UrlParse(url) == Some(ParseResult(s.scheme, s.netloc, s.path, "", s.query, s.fragment))
  {
  }

  // ---------------------------------------------------------------------------
  // parse_qs
  // ---------------------------------------------------------------------------

  predicate IsHexDigit(c: char) {
    IsDigit(c) || 'a' <= c <= 'f' || 'A' <= c <= 'F'
  }

  function HexValue(c: char): (v: nat)
    requires IsHexDigit(c)
    ensures v < 16
  {
    if IsDigit(c) then DigitValue(c)
    else if 'a' <= c <= 'f' then (c as int) - ('a' as int) + 10
    else (c as int) - ('A' as int) + 10
  }

  /** A `%XX` escape for an ASCII character starts at the front of `s`. */
  predicate AsciiEscapeAt(s: string) {
    |s| >= 3 && s[0] == '%' && IsHexDigit(s[1]) && IsHexDigit(s[2]) && HexValue(s[1]) * 16 + HexValue(s[2]) < 128
  }

  /** `unquote(s)`: each `%XX` escape of an ASCII character becomes that character. */
  function Unquote(s: string): (r: string)
    ensures |r| <= |s|
    ensures |s| > 0 ==> |r| > 0
    decreases |s|
  {
    if |s| == 0 then ""
    else if AsciiEscapeAt(s) then [(HexValue(s[1]) * 16 + HexValue(s[2])) as char] + Unquote(s[3..])
    else [s[0]] + Unquote(s[1..])
  }

  /** A string without '%' is left as it is. */
  lemma {:induction false} UnquotePlain(s: string)
    requires '%' !in s
    ensures Unquote(s) == s
    decreases |s|
  {
    if |s| > 0 {
      assert s[0] in s;
      assert forall i :: 0 <= i < |s[1..]| ==> s[1..][i] == s[i + 1];
      UnquotePlain(s[1..]);
      assert s == [s[0]] + s[1..];
    }
  }

  /** `s.replace('+', ' ')`. */
  function PlusToSpace(s: string): (r: string)
    ensures |r| == |s|
    ensures forall i :: 0 <= i < |r| ==> r[i] == (if s[i] == '+' then ' ' else s[i])
  {
    seq(|s|, i requires 0 <= i < |s| => if s[i] == '+' then ' ' else s[i])
  }

  /** One decoded `name=value` field. */
  datatype Pair = Pair(name: string, value: string)

  /** How `parse_qsl` reads one `&`-separated field, or None when it skips it. */
  function FieldPair(field: string): (r: Option<Pair>)
    ensures r.None? <==> '=' !in field || Find(field, '=') == |field| - 1
    ensures r.Some? ==> r.value.value != ""
  {
    var eq := Find(field, '=');
    if eq < 0 || eq == |field| - 1 then None
    else Some(Pair(Unquote(PlusToSpace(field[..eq])), Unquote(PlusToSpace(field[eq + 1..]))))
  }

  function FieldPairs(fields: seq<string>): (r: seq<Pair>)
    ensures |r| <= |fields|
    ensures forall i :: 0 <= i < |r| ==> r[i].value != ""
  {
    if |fields| == 0 then []
    else
      var rest := FieldPairs(fields[1..]);
      match FieldPair(fields[0])
      case None => rest
      case Some(p) => [p] + rest
  }

  /** `parse_qsl(qs)` with blank values dropped, as `parse_qs` calls it. */
  function ParseQsl(qs: string): (r: seq<Pair>)
    ensures qs == "" ==> r == []
    ensures forall i :: 0 <= i < |r| ==> r[i].value != ""
  {
    FieldPairs(Split(qs, '&'))
  }

  /** `parse_qs(qs).get(name)[0]`: the first value given for `name`, or None. */
  function FirstValue(pairs: seq<Pair>, name: string): (r: Option<string>)
    ensures r.Some? <==> exists i :: 0 <= i < |pairs| && pairs[i].name == name
    ensures r.Some? ==> exists i :: 0 <= i < |pairs| && pairs[i].name == name && pairs[i].value == r.value
                                    && forall j :: 0 <= j < i ==> pairs[j].name != name
  {
    if |pairs| == 0 then None
    else if pairs[0].name == name then Some(pairs[0].value)
    else
      var r := FirstValue(pairs[1..], name);
      assert forall i :: 1 <= i < |pairs| ==> pairs[i] == pairs[1..][i - 1];
      if r.Some? then
        var i :| 0 <= i < |pairs[1..]| && pairs[1..][i].name == name && pairs[1..][i].value == r.value
                 && forall j :: 0 <= j < i ==> pairs[1..][j].name != name;
        assert pairs[i + 1].name == name;
        r
      else r
  }

  /** A string without '+' is left as it is by the '+' replacement. */
  lemma PlusToSpacePlain(s: string)
    requires '+' !in s
    ensures PlusToSpace(s) == s
  {
  }

  /** A field `name=value` whose parts need no decoding reads as that pair. */
  lemma FieldPairPlain(name: string, value: string)
    requires value != "" && '=' !in name
    requires '+' !in name && '%' !in name && '+' !in value && '%' !in value
    ensures FieldPair(name + "=" + value) == Some(Pair(name, value))
  {
    var q := name + "=" + value;
    assert q[|name|] == '=';
    assert forall j :: 0 <= j < |name| ==> q[j] == name[j];
    assert Find(q, '=') == |name|;
    assert q[..|name|] == name && q[|name| + 1..] == value;
    PlusToSpacePlain(name);
    PlusToSpacePlain(value);
    UnquotePlain(name);
    UnquotePlain(value);
  }

  /** A query string holding the single field `name=value`, with nothing to decode, reads back as that value. */
  lemma SingleFieldQuery(name: string, value: string)
    requires value != "" && '=' !in name
    requires '&' !in name && '+' !in name && '%' !in name
    requires '&' !in value && '+' !in value && '%' !in value
    ensures FirstValue(ParseQsl(name + "=" + value), name) == Some(value)
  {
    var q := name + "=" + value;
    assert '&' !in q;
    SplitAbsent(q, '&');
    FieldPairPlain(name, value);
    assert [q][1..] == [];
  }
}
