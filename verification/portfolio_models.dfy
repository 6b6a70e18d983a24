/**
 * The portfolio records (portfolio/models.py): shooting types, albums,
 * photos and videos; the upload validators that check a file name's
 * extension; a photo's display name; and the conversion of a YouTube link
 * into an embeddable address.
 */
module PortfolioModels {
  import opened Wrappers
  import opened Text
  import opened Urls
  import Seqs

  // ---------------------------------------------------------------------------
  // Records
  // ---------------------------------------------------------------------------

  datatype ShootingType = ShootingType(id: nat, name: string, slug: string, isActive: bool, order: nat)

  /** An album; `shootingTypes` holds the ids of its tags and `cover` the stored file name ("" for none). */
  datatype Album = Album(
    id: nat, title: string, slug: string, cover: string, shootingTypes: set<nat>,
    isPublished: bool, isFeatured: bool, order: nat, createdAt: nat)

  datatype Photo = Photo(id: nat, albumId: nat, image: string, title: string, order: nat, createdAt: nat)

  /** A video: an uploaded file, a YouTube link, both or neither ("" marks an empty field). */
  datatype Video = Video(
    id: nat, title: string, videoFile: string, youtubeUrl: string, thumbnail: string,
    shootingTypes: set<nat>, isPublished: bool, createdAt: nat)

  // ---------------------------------------------------------------------------
  // os.path.splitext (POSIX)
  // ---------------------------------------------------------------------------

  /** Some character other than '.' lies in `p[from..to]`. */
  predicate HasNonDot(p: string, from: int, to: int)
    requires 0 <= from <= to <= |p|
  {
    exists k :: from <= k < to && p[k] != '.'
  }

  /**
   * The extension `os.path.splitext` reports: from the last '.' on, provided
   * that dot comes after the last '/' and is not part of the leading dots of
   * the final path component; otherwise "".
   */
  function Extension(p: string): (ext: string)
    ensures |ext| <= |p|
    ensures ext == "" || (ext[0] == '.' && ext == p[|p| - |ext|..])
    ensures forall i :: 0 <= i < |ext| ==> ext[i] != '/'
    ensures forall i :: 1 <= i < |ext| ==> ext[i] != '.'
  {
    var sep := RFind(p, '/');
    var dot := RFind(p, '.');
    if dot > sep && HasNonDot(p, sep + 1, dot) then p[dot..] else ""
  }

  /** `os.path.splitext(p)`, written as the library's scanning loop. */
  method SplitExt(p: string) returns (root: string, ext: string)
    ensures root + ext == p
    ensures ext == Extension(p)
  {
    var sepIndex := RFind(p, '/');
    var dotIndex := RFind(p, '.');
    if dotIndex > sepIndex {
      var i := sepIndex + 1;
      while i < dotIndex
        invariant sepIndex + 1 <= i <= dotIndex
        invariant forall k :: sepIndex + 1 <= k < i ==> p[k] == '.'
      {
        if p[i] != '.' {
          assert p == p[..dotIndex] + p[dotIndex..];
          return p[..dotIndex], p[dotIndex..];
        }
        i := i + 1;
      }
    }
    return p, "";
  }

  /** A name made of a stem not ending in '.' or '/' and a suffix '.' + letters and digits has that suffix as its extension. */
  lemma {:induction false} ExtensionOfSuffix(stem: string, suffix: string)
    requires |stem| > 0 && stem[|stem| - 1] != '.' && stem[|stem| - 1] != '/'
    requires |suffix| >= 1 && suffix[0] == '.'
    requires forall i :: 1 <= i < |suffix| ==> IsAsciiLetter(suffix[i]) || IsDigit(suffix[i])
    ensures Extension(stem + suffix) == suffix
  {
    var p := stem + suffix;
    var n := |stem|;
    assert p[n] == '.';
    assert forall j :: n < j < |p| ==> p[j] == suffix[j - n] && p[j] != '.' && p[j] != '/';
    var dot := RFind(p, '.');
    assert dot == n;
    var sep := RFind(p, '/');
    assert sep < n - 1 by {
      assert p[n - 1] == stem[n - 1];
    }
    assert p[n - 1] != '.';
    assert HasNonDot(p, sep + 1, dot);
    assert p[n..] == suffix;
  }

  // ---------------------------------------------------------------------------
  // Upload validators
  // ---------------------------------------------------------------------------

  const ImageExtensions: seq<string> := [".jpg", ".jpeg", ".png", ".webp"]
  const VideoExtensions: seq<string> := [".mp4", ".mov", ".avi", ".webm"]

  datatype FileCheck = FileAccepted | FileRejected(message: string)

  /** `validate_image_extension`. */
  function ValidateImage(name: string): (r: FileCheck)
    ensures r == FileAccepted <==> Lower(Extension(name)) in ImageExtensions
    ensures r.FileRejected? ==> r.message == "Неподдерживаемый формат изображения."
  {
    if Lower(Extension(name)) in ImageExtensions then FileAccepted
    else FileRejected("Неподдерживаемый формат изображения.")
  }

  /** `validate_video_extension`. */
  function ValidateVideo(name: string): (r: FileCheck)
    ensures r == FileAccepted <==> Lower(Extension(name)) in VideoExtensions
    ensures r.FileRejected? ==> r.message == "Неподдерживаемый формат видео."
  {
    if Lower(Extension(name)) in VideoExtensions then FileAccepted
    else FileRejected("Неподдерживаемый формат видео.")
  }

  /** A name without any '.' has no extension, so both validators reject it. */
  lemma NoDotRejected(name: string)
    requires '.' !in name
    ensures ValidateImage(name).FileRejected? && ValidateVideo(name).FileRejected?
  {
    assert Extension(name) == "";
    assert Lower("") == "";
  }

  /** A stem followed by a whitelisted image extension, in any letter case, is accepted. */
  lemma ImageExtensionAccepted(stem: string, suffix: string)
    requires |stem| > 0 && stem[|stem| - 1] != '.' && stem[|stem| - 1] != '/'
    requires |suffix| >= 1 && suffix[0] == '.'
    requires forall i :: 1 <= i < |suffix| ==> IsAsciiLetter(suffix[i]) || IsDigit(suffix[i])
    requires Lower(suffix) in ImageExtensions
    ensures ValidateImage(stem + suffix) == FileAccepted
  {
    ExtensionOfSuffix(stem, suffix);
  }

  /** A stem followed by a whitelisted video extension, in any letter case, is accepted. */
  lemma VideoExtensionAccepted(stem: string, suffix: string)
    requires |stem| > 0 && stem[|stem| - 1] != '.' && stem[|stem| - 1] != '/'
    requires |suffix| >= 1 && suffix[0] == '.'
    requires forall i :: 1 <= i < |suffix| ==> IsAsciiLetter(suffix[i]) || IsDigit(suffix[i])
    requires Lower(suffix) in VideoExtensions
    ensures ValidateVideo(stem + suffix) == FileAccepted
  {
    ExtensionOfSuffix(stem, suffix);
  }

  /** Only the last suffix counts: `a.jpg.exe` is rejected. */
  lemma LastSuffixDecides()
    ensures ValidateImage("a.jpg.exe").FileRejected?
  {
    ExtensionOfSuffix("a.jpg", ".exe");
    assert "a.jpg" + ".exe" == "a.jpg.exe";
    assert Lower(".exe") == ".exe";
  }

  /** Letter case does not matter: any name ending in `.JPEG`, such as `IMG_01.JPEG`, is accepted. */
  lemma UpperCaseExtensionAccepted(stem: string)
    requires |stem| > 0 && stem[|stem| - 1] != '.' && stem[|stem| - 1] != '/'
    ensures ValidateImage(stem + ".JPEG") == FileAccepted
  {
    JpegLowers();
    ImageExtensionAccepted(stem, ".JPEG");
  }

  lemma JpegLowers()
    ensures Lower(".JPEG") in ImageExtensions
    ensures forall i :: 1 <= i < |".JPEG"| ==> IsAsciiLetter(".JPEG"[i])
  {
    var low := Lower(".JPEG");
    assert low[0] == '.' && low[1] == 'j' && low[2] == 'p' && low[3] == 'e' && low[4] == 'g';
    assert low == ImageExtensions[1];
  }

  /** A name that is only a dot and an extension is a hidden file with no extension, so `.jpg` is rejected. */
  lemma HiddenFileRejected()
    ensures ValidateImage(".jpg").FileRejected?
  {
    var h := ".jpg";
    assert h[0] == '.' && h[1] == 'j' && h[2] == 'p' && h[3] == 'g';
    assert RFind(h, '.') == 0;
    assert Extension(h) == "";
    assert Lower("") == "";
  }

  // ---------------------------------------------------------------------------
  // Photo.__str__
  // ---------------------------------------------------------------------------

  /** `str(pk)` of a primary key that may be unset (an unsaved photo). */
  function PkText(pk: Option<nat>): string {
    match pk
    case Some(n) => Decimal(n)
    case None => "None"
  }

  /** A photo's display name: its title, or "Фото " and its primary key when the title is empty. */
  function PhotoLabel(title: string, pk: Option<nat>): (s: string)
    ensures title != "" ==> s == title
    ensures title == "" ==> "Фото " <= s
  {
    if title != "" then title else "Фото " + PkText(pk)
  }

  /** An untitled saved photo's name gives back its primary key. */
  lemma PhotoLabelShowsPk(pk: nat)
    ensures |PhotoLabel("", Some(pk))| > 5
    ensures AllDigits(PhotoLabel("", Some(pk))[5..])
    ensures DigitsValue(PhotoLabel("", Some(pk))[5..]) == pk
  {
    assert PhotoLabel("", Some(pk))[5..] == Decimal(pk);
    DecimalRoundTrip(pk);
  }

  // ---------------------------------------------------------------------------
  // Video.get_embed_url
  // ---------------------------------------------------------------------------

  const EmbedPrefix: string := "https://www.youtube.com/embed/"
  const WatchMarker: string := "youtube.com/watch"
  const ShortMarker: string := "youtu.be"

  /** The first `v` value of a parsed link's query, if any. */
  function WatchId(url: string): Option<string> {
    match UrlParse(url)
    case None => None
    case Some(u) => FirstValue(ParseQsl(u.query), "v")
  }

  /** The path of a parsed link with '/' stripped from both ends, or None when the link does not parse. */
  function ShortId(url: string): Option<string> {
    match UrlParse(url)
    case None => None
    case Some(u) => Some(Strip(u.path, '/'))
  }

  /**
   * `get_embed_url`. A link mentioning `youtube.com/watch` is read only for
   * its first `v` parameter; only a link without that marker is tried as a
   * short `youtu.be` link, whose id is its path. A parse error gives None.
   */
  function EmbedUrl(youtubeUrl: string): (r: Option<string>)
    ensures youtubeUrl == "" ==> r.None?
    ensures r.Some? ==> EmbedPrefix <= r.value && |r.value| > |EmbedPrefix|
    ensures !Contains(youtubeUrl, WatchMarker) && !Contains(youtubeUrl, ShortMarker) ==> r.None?
    ensures Contains(youtubeUrl, WatchMarker) && youtubeUrl != "" ==>
              (r.Some? <==> WatchId(youtubeUrl).Some?)
              && (r.Some? ==> r.value == EmbedPrefix + WatchId(youtubeUrl).value)
    ensures !Contains(youtubeUrl, WatchMarker) && Contains(youtubeUrl, ShortMarker) ==>
              (r.Some? <==> ShortId(youtubeUrl).Some? && ShortId(youtubeUrl).value != "")
              && (r.Some? ==> r.value == EmbedPrefix + ShortId(youtubeUrl).value)
  {
    if youtubeUrl == "" then None
    else if Contains(youtubeUrl, WatchMarker) then
      match WatchId(youtubeUrl)
      case None => None
      case Some(id) => Some(EmbedPrefix + id)
    else if Contains(youtubeUrl, ShortMarker) then
      match ShortId(youtubeUrl)
      case None => None
      case Some(id) => if id == "" then None else Some(EmbedPrefix + id)
    else None
  }

  /** The characters of a YouTube video id. */
  predicate IsVideoIdChar(c: char) {
    IsAsciiLetter(c) || IsDigit(c) || c == '-' || c == '_'
  }

  predicate IsVideoId(id: string) {
    |id| >= 1 && forall i :: 0 <= i < |id| ==> IsVideoIdChar(id[i])
  }

  /** A link starting with a visible character and holding no tab or newline is its own sanitized form. */
  lemma SanitizeKeeps(u: string)
    requires |u| > 0 && !IsC0OrSpace(u[0])
    requires forall i :: 0 <= i < |u| ==> !IsUnsafe(u[i])
    ensures Sanitize(u) == u
  {
    assert StripControls(u) == u;
    RemoveUnsafeKeeps(u);
  }

  /** A link starting `https:` has the scheme `https`. */
  lemma HttpsScheme(rest: string)
    ensures SchemeOf("https:" + rest) == "https" && Rest("https:" + rest) == rest
  {
    var u := "https:" + rest;
    assert u[5] == ':' && u[0] == 'h' && u[1] == 't' && u[2] == 't' && u[3] == 'p' && u[4] == 's';
    assert Find(u, ':') == 5;
    assert u[..5] == "https";
    assert AllSchemeChars(u[..5]);
    assert Lower("https") == "https";
    assert u[6..] == rest;
  }

  /** After "//", the netloc runs up to the delimiter that starts `tail`. */
  lemma NetlocOf(host: string, tail: string)
    requires forall i :: 0 <= i < |host| ==> IsAsciiLetter(host[i]) || host[i] == '.'
    requires |tail| >= 1 && IsNetlocEnd(tail[0])
    ensures SplitNetloc("//" + host + tail) == Cut(host, tail, true)
  {
    var rest := "//" + host + tail;
    var d := 2 + |host|;
    assert rest[..2] == "//";
    assert forall j :: 2 <= j < d ==> rest[j] == host[j - 2];
    assert rest[d] == tail[0];
    assert NetlocEnd(rest, 2) == d;
    assert rest[2..d] == host && rest[d..] == tail;
  }

  /** A host of letters and dots holds no bracket. */
  lemma PlainHostBalanced(host: string)
    requires forall i :: 0 <= i < |host| ==> IsAsciiLetter(host[i]) || host[i] == '.'
    ensures !UnbalancedBrackets(host)
  {
    assert '[' !in host;
  }

  /** An `https` link built from a plain host and a tail without tabs or newlines needs no sanitizing. */
  lemma HttpsLinkSanitized(host: string, tail: string)
    requires forall i :: 0 <= i < |host| ==> IsAsciiLetter(host[i]) || host[i] == '.'
    requires forall i :: 0 <= i < |tail| ==> !IsUnsafe(tail[i])
    ensures Sanitize("https:" + ("//" + host + tail)) == "https:" + ("//" + host + tail)
  {
    var u := "https:" + ("//" + host + tail);
    forall i | 0 <= i < |u|
      ensures !IsUnsafe(u[i])
    {
      if i >= 8 + |host| {
        assert u[i] == tail[i - 8 - |host|];
      } else if i >= 8 {
        assert u[i] == host[i - 8];
      }
    }
    SanitizeKeeps(u);
  }

  /** An `https` link whose host has only letters and dots splits into that host and the path, query and fragment of the rest. */
  lemma HttpsLinkSplits(url: string, host: string, tail: string)
    requires url == "https:" + ("//" + host + tail)
    requires forall i :: 0 <= i < |host| ==> IsAsciiLetter(host[i]) || host[i] == '.'
    requires |tail| >= 1 && tail[0] == '/'
    requires forall i :: 0 <= i < |tail| ==> !IsUnsafe(tail[i])
    ensures UrlSplit(url) == Some(SplitTail(tail).(scheme := "https", netloc := host))
  {
    var rest := "//" + host + tail;
    NetlocOf(host, tail);
    PlainHostBalanced(host);
    HttpsLinkSanitized(host, tail);
    HttpsScheme(rest);
    UrlSplitFromParts("https:" + rest, "https", rest, host, tail);
  }

  /** A video id holds none of the characters the parsers treat specially. */
  lemma VideoIdIsPlain(id: string)
    requires IsVideoId(id)
    ensures forall i :: 0 <= i < |id| ==> !IsUnsafe(id[i]) && !IsNetlocEnd(id[i]) && id[i] !in ";&=+%./"
  {
  }

  /** An `https` link with a plain host, a path and a query parses into exactly those parts. */
  lemma HttpsQueryLinkParses(url: string, host: string, path: string, query: string)
    requires url == "https:" + ("//" + host + (path + "?" + query))
    requires forall i :: 0 <= i < |host| ==> IsAsciiLetter(host[i]) || host[i] == '.'
    requires |path| >= 1 && path[0] == '/'
    requires forall i :: 0 <= i < |path| ==> !IsUnsafe(path[i]) && path[i] !in "#?;"
    requires forall i :: 0 <= i < |query| ==> !IsUnsafe(query[i]) && query[i] != '#'
    ensures UrlParse(url) == Some(ParseResult("https", host, path, "", query, ""))
  {
    var split := SplitResult("https", host, path, query, "");
    assert UrlSplit(url) == Some(split) by {
      var tail := path + "?" + query;
      QueryTailSafe(path, query);
      SplitTailQuery(path, query);
      HttpsLinkSplits(url, host, tail);
    }
    UrlParseWithoutParams(url, split);
  }

  /** A path and a query, each free of unsafe characters, joined by '?' are free of them too. */
  lemma QueryTailSafe(path: string, query: string)
    requires forall i :: 0 <= i < |path| ==> !IsUnsafe(path[i])
    requires forall i :: 0 <= i < |query| ==> !IsUnsafe(query[i])
    ensures forall i :: 0 <= i < |path + "?" + query| ==> !IsUnsafe((path + "?" + query)[i])
  {
    var tail := path + "?" + query;
    forall i | 0 <= i < |tail| ensures !IsUnsafe(tail[i]) {
      if i > |path| { assert tail[i] == query[i - |path| - 1]; }
      else if i < |path| { assert tail[i] == path[i]; }
    }
  }

  /** How the canonical watch link parses: host `www.youtube.com`, path `/watch`, query `v=<id>`. */
  lemma WatchLinkParses(id: string)
    requires IsVideoId(id)
    ensures UrlParse("https://www.youtube.com/watch?v=" + id)
         == Some(ParseResult("https", "www.youtube.com", "/watch", "", "v=" + id, ""))
  {
    var host := "www.youtube.com";
    var path := "/watch";
    var query := "v=" + id;
    WatchLinkPartsPlain(id);
    var url := "https://www.youtube.com/watch?v=" + id;
    assert url == "https:" + ("//" + host + (path + "?" + query)) by {
      WatchLinkPieces(id);
    }
    HttpsQueryLinkParses(url, host, path, query);
  }

  /** The canonical watch link cut into scheme, host, path and query. */
  lemma WatchLinkPieces(id: string)
    ensures "https://www.youtube.com/watch?v=" + id == "https:" + ("//" + "www.youtube.com" + ("/watch" + "?" + ("v=" + id)))
  {
    var prefix := "https:" + ("//" + "www.youtube.com" + ("/watch" + "?" + "v="));
    assert prefix == "https://www.youtube.com/watch?v=";
    assert prefix + id == "https:" + ("//" + "www.youtube.com" + ("/watch" + "?" + ("v=" + id)));
  }

  /** The host, path and query of the canonical watch link carry no character that would split them further. */
  lemma WatchLinkPartsPlain(id: string)
    requires IsVideoId(id)
    ensures forall i :: 0 <= i < |"www.youtube.com"| ==> IsAsciiLetter("www.youtube.com"[i]) || "www.youtube.com"[i] == '.'
    ensures forall i :: 0 <= i < |"/watch"| ==> !IsUnsafe("/watch"[i]) && "/watch"[i] !in "#?;"
    ensures forall i :: 0 <= i < |"v=" + id| ==> !IsUnsafe(("v=" + id)[i]) && ("v=" + id)[i] != '#'
  {
    var query := "v=" + id;
    VideoIdIsPlain(id);
    forall i | 0 <= i < |query| ensures !IsUnsafe(query[i]) && query[i] != '#' {
      if i >= 2 { assert query[i] == id[i - 2]; }
    }
  }

  /** The `v` parameter of the canonical watch link is its id. */
  lemma WatchIdOfLink(id: string)
    requires IsVideoId(id)
    ensures WatchId("https://www.youtube.com/watch?v=" + id) == Some(id)
  {
    assert "v=" + id == "v" + "=" + id;
    VideoIdIsPlain(id);
    SingleFieldQuery("v", id);
    WatchLinkParses(id);
  }

  /** The canonical watch link mentions the watch marker. */
  lemma WatchLinkHasMarker(id: string)
    ensures Contains("https://www.youtube.com/watch?v=" + id, WatchMarker)
  {
    var url := "https://www.youtube.com/watch?v=" + id;
    assert url[12..12 + |WatchMarker|] == WatchMarker;
    ContainsAt(url, WatchMarker, 12);
  }

  /** The canonical watch link gives the embed address of its id. */
  lemma WatchLinkRoundTrip(id: string)
    requires IsVideoId(id)
    ensures EmbedUrl("https://www.youtube.com/watch?v=" + id) == Some(EmbedPrefix + id)
  {
    WatchLinkHasMarker(id);
    WatchIdOfLink(id);
  }

  /** A short link is never taken for a watch link when its id has no '.' or '/'. */
  lemma ShortLinkIsNotWatchLink(id: string)
    requires IsVideoId(id)
    ensures !Contains("https://youtu.be/" + id, WatchMarker)
  {
    var url := "https://youtu.be/" + id;
    if Contains(url, WatchMarker) {
      var i := ContainsWitness(url, WatchMarker);
      NoWatchMarkerAt(id, i);
    }
  }

  /** Position by position, the watch marker cannot be found in a short link. */
  lemma NoWatchMarkerAt(id: string, i: nat)
    requires IsVideoId(id)
    requires i + |WatchMarker| <= |"https://youtu.be/" + id|
    ensures ("https://youtu.be/" + id)[i..i + |WatchMarker|] != WatchMarker
  {
    var url := "https://youtu.be/" + id;
    var w := url[i..i + |WatchMarker|];
    if i + 7 == 13 {
      assert w[11] == id[0];
      assert w[11] != WatchMarker[11];
    } else if i + 7 >= 17 {
      assert w[7] == id[i + 7 - 17];
      assert w[7] != WatchMarker[7];
    } else {
      assert w[7] == url[i + 7];
      assert w[7] != WatchMarker[7];
    }
  }

  /** How the canonical short link parses: host `youtu.be`, path `/<id>`. */
  lemma ShortLinkParses(id: string)
    requires IsVideoId(id)
    ensures UrlParse("https://youtu.be/" + id) == Some(ParseResult("https", "youtu.be", "/" + id, "", "", ""))
  {
    VideoIdIsPlain(id);
    var url := "https://youtu.be/" + id;
    var tail := "/" + id;
    assert url == "https:" + ("//" + "youtu.be" + tail);
    forall i | 0 <= i < |tail|
      ensures !IsUnsafe(tail[i]) && tail[i] != '#' && tail[i] != '?' && tail[i] != ';'
    {
      if i >= 1 { assert tail[i] == id[i - 1]; }
    }
    SplitTailPlain(tail);
    HttpsLinkSplits(url, "youtu.be", tail);
    UrlParseWithoutParams(url, SplitResult("https", "youtu.be", tail, "", ""));
  }

  /** The short-link id is the path with its leading '/' stripped. */
  lemma ShortIdOfLink(id: string)
    requires IsVideoId(id)
    ensures ShortId("https://youtu.be/" + id) == Some(id)
  {
    ShortLinkParses(id);
    SlashIdStrips(id);
  }

  /** Stripping '/' from both ends of `/<id>` leaves the id. */
  lemma SlashIdStrips(id: string)
    requires IsVideoId(id)
    ensures Strip("/" + id, '/') == id
  {
    VideoIdIsPlain(id);
    var tail := "/" + id;
    assert StripLeft(tail, '/') == id by {
      assert tail[1..] == id;
      assert id[0] != '/';
    }
    assert StripRight(id, '/') == id by {
      assert id[|id| - 1] != '/';
    }
  }

  /** The canonical short link mentions the short-link marker. */
  lemma ShortLinkHasMarker(id: string)
    ensures Contains("https://youtu.be/" + id, ShortMarker)
  {
    var url := "https://youtu.be/" + id;
    assert url[8..16] == ShortMarker;
    ContainsAt(url, ShortMarker, 8);
  }

  /** The canonical short link gives the embed address of its id. */
  lemma ShortLinkRoundTrip(id: string)
    requires IsVideoId(id)
    ensures EmbedUrl("https://youtu.be/" + id) == Some(EmbedPrefix + id)
  {
    ShortLinkHasMarker(id);
    ShortLinkIsNotWatchLink(id);
    ShortIdOfLink(id);
  }
}
