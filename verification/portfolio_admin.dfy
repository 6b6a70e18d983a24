/**
 * The portfolio's computed admin columns (portfolio/admin.py): the file
 * previews with their placeholder texts, the list of an album's shooting
 * types, and the two readings of a video's sources — the `video_type`
 * column and the `embed_preview` player.
 */
module PortfolioAdmin {
  import opened Wrappers
  import opened Text
  import opened PortfolioModels
  import Seqs

  /** What a preview cell shows: a picture, an embedded player, a video element, or a placeholder text. */
  datatype Preview = Picture(src: string) | Iframe(src: string) | VideoElement(src: string) | Placeholder(text: string)

  const NoImageText: string := "Нет изображения"
  const NoCoverText: string := "Нет обложки"
  const NoThumbnailText: string := "Нет превью"
  const NoVideoText: string := "Нет видео для предпросмотра"

  /** A picture of a stored file, or the placeholder when the field is empty. */
  function FilePreview(file: string, placeholder: string): (p: Preview)
    ensures p.Placeholder? <==> file == ""
    ensures p.Placeholder? ==> p.text == placeholder
    ensures !p.Placeholder? ==> p == Picture(file)
  {
    if file != "" then Picture(file) else Placeholder(placeholder)
  }

  /** `image_preview` of the photo inline and of the photo list. */
  function ImagePreview(photo: Photo): (p: Preview)
    ensures p == Placeholder(NoImageText) <==> photo.image == ""
    ensures photo.image != "" ==> p == Picture(photo.image)
  {
    FilePreview(photo.image, NoImageText)
  }

  /** `cover_preview` of the album list. */
  function CoverPreview(album: Album): (p: Preview)
    ensures p == Placeholder(NoCoverText) <==> album.cover == ""
    ensures album.cover != "" ==> p == Picture(album.cover)
  {
    FilePreview(album.cover, NoCoverText)
  }

  /** `thumbnail_preview` of the video list. */
  function ThumbnailPreview(video: Video): (p: Preview)
    ensures p == Placeholder(NoThumbnailText) <==> video.thumbnail == ""
    ensures video.thumbnail != "" ==> p == Picture(video.thumbnail)
  {
    FilePreview(video.thumbnail, NoThumbnailText)
  }

  /** A preview shows a picture exactly when it shows no placeholder, whichever placeholder it would use. */
  lemma PreviewPlaceholderIndependent(file: string, a: string, b: string)
    ensures FilePreview(file, a).Picture? == FilePreview(file, b).Picture?
    ensures FilePreview(file, a).Picture? ==> FilePreview(file, a) == FilePreview(file, b)
  {
  }

  // ---------------------------------------------------------------------------
  // Shooting types of an album
  // ---------------------------------------------------------------------------

  /** The query-set condition `album.shooting_types`: the type is one the album is tagged with. */
  function TaggedIn(album: Album): ShootingType -> bool {
    (t: ShootingType) => t.id in album.shootingTypes
  }

  /** The names of the types, in order. */
  function Names(types: seq<ShootingType>): (names: seq<string>)
    ensures |names| == |types| && forall k :: 0 <= k < |types| ==> names[k] == types[k].name
  {
    seq(|types|, k requires 0 <= k < |types| => types[k].name)
  }

  /** The names of the types (taken in their stored order) that the album is tagged with. */
  function TagNames(types: seq<ShootingType>, album: Album): seq<string> {
    Names(Seqs.Filter(types, TaggedIn(album)))
  }

  /** The names are those of the tagged types, at their ascending positions in the stored order. */
  lemma TagNamesInOrder(types: seq<ShootingType>, album: Album)
    ensures var at := Seqs.Matching(types, TaggedIn(album));
            |TagNames(types, album)| == |at|
            && forall k :: 0 <= k < |at| ==> TagNames(types, album)[k] == types[at[k]].name
  {
    Seqs.FilterPicksMatching(types, TaggedIn(album));
  }

  /** Every tagged type's name is listed, and every listed name is that of a tagged type. */
  lemma TagNamesMembers(types: seq<ShootingType>, album: Album)
    ensures forall i :: 0 <= i < |types| && types[i].id in album.shootingTypes ==> types[i].name in TagNames(types, album)
    ensures forall n :: n in TagNames(types, album) ==>
              exists i :: 0 <= i < |types| && types[i].id in album.shootingTypes && types[i].name == n
  {
    var tagged := Seqs.Filter(types, TaggedIn(album));
    var names := TagNames(types, album);
    forall i | 0 <= i < |types| && types[i].id in album.shootingTypes ensures types[i].name in names {
      assert TaggedIn(album)(types[i]);
      var k :| 0 <= k < |tagged| && tagged[k] == types[i];
      assert names[k] == types[i].name;
    }
    forall n | n in names
      ensures exists i :: 0 <= i < |types| && types[i].id in album.shootingTypes && types[i].name == n
    {
      var k :| 0 <= k < |names| && names[k] == n;
      assert TaggedIn(album)(tagged[k]);
      var i :| 0 <= i < |types| && types[i] == tagged[k];
    }
  }

  /** An album with no tagged type has no names. */
  lemma UntaggedHasNoNames(types: seq<ShootingType>, album: Album)
    ensures (forall i :: 0 <= i < |types| ==> types[i].id !in album.shootingTypes) ==> TagNames(types, album) == []
  {
    if forall i :: 0 <= i < |types| ==> types[i].id !in album.shootingTypes {
      Seqs.FilterNone(types, TaggedIn(album));
    }
  }

  /** A type placed last in the stored order adds its name last exactly when the album is tagged with it. */
  lemma TagNamesSnoc(types: seq<ShootingType>, t: ShootingType, album: Album)
    ensures TagNames(types + [t], album) ==
              TagNames(types, album) + if t.id in album.shootingTypes then [t.name] else []
  {
    var p := TaggedIn(album);
    var front := Seqs.Filter(types, p);
    var last := Seqs.Filter([t], p);
    calc {
      TagNames(types + [t], album);
      Names(Seqs.Filter(types + [t], p));
      { Seqs.FilterAppend(types, [t], p); }
      Names(front + last);
      { NamesAppend(front, last); }
      Names(front) + Names(last);
      { Seqs.FilterSingle(t, p); }
      TagNames(types, album) + if t.id in album.shootingTypes then [t.name] else [];
    }
  }

  lemma NamesAppend(a: seq<ShootingType>, b: seq<ShootingType>)
    ensures Names(a + b) == Names(a) + Names(b)
  {
  }

  /** `shooting_types_list`: the names of the album's types joined by ", ". */
  function ShootingTypesList(types: seq<ShootingType>, album: Album): (text: string)
    ensures text == Join(TagNames(types, album), ", ")
    ensures (forall i :: 0 <= i < |types| ==> types[i].id !in album.shootingTypes) ==> text == ""
    ensures forall i :: 0 <= i < |types| && types[i].id in album.shootingTypes ==> Contains(text, types[i].name)
  {
    var names := TagNames(types, album);
    TagNamesMembers(types, album);
    UntaggedHasNoNames(types, album);
    forall i | 0 <= i < |types| && types[i].id in album.shootingTypes
      ensures Contains(Join(names, ", "), types[i].name)
    {
      var k :| 0 <= k < |names| && names[k] == types[i].name;
      JoinContainsEach(names, ", ", k);
    }
    Join(names, ", ")
  }

  /**
   * The column built one type at a time: an untagged type changes nothing, the
   * first tagged one is the whole text, and each later one adds ", " and its name.
   */
  lemma ShootingTypesListSnoc(types: seq<ShootingType>, t: ShootingType, album: Album)
    ensures t.id !in album.shootingTypes ==>
              ShootingTypesList(types + [t], album) == ShootingTypesList(types, album)
    ensures t.id in album.shootingTypes && TagNames(types, album) == [] ==>
              ShootingTypesList(types + [t], album) == t.name
    ensures t.id in album.shootingTypes && TagNames(types, album) != [] ==>
              ShootingTypesList(types + [t], album) == ShootingTypesList(types, album) + ", " + t.name
  {
    TagNamesSnoc(types, t, album);
    var names := TagNames(types, album);
    if t.id in album.shootingTypes {
      if names == [] {
        assert names + [t.name] == [t.name];
      } else {
        JoinSnoc(names, t.name, ", ");
      }
    } else {
      assert names + [] == names;
    }
  }

  /** Every joined item occurs in the joined text. */
  lemma {:induction false} JoinContainsEach(xs: seq<string>, sep: string, k: nat)
    requires k < |xs|
    ensures Contains(Join(xs, sep), xs[k])
    decreases |xs|
  {
    if k > 0 {
      JoinContainsEach(xs[1..], sep, k - 1);
      assert Join(xs, sep) == (xs[0] + sep) + Join(xs[1..], sep);
      ContainsAfter(xs[0] + sep, Join(xs[1..], sep), xs[k]);
    }
  }

  /** Tagging one more type (placed last in the stored order) appends ", " and its name. */
  lemma {:induction false} JoinSnoc(xs: seq<string>, x: string, sep: string)
    requires |xs| >= 1
    ensures Join(xs + [x], sep) == Join(xs, sep) + sep + x
    decreases |xs|
  {
    if |xs| == 1 {
      assert (xs + [x])[1..] == [x];
    } else {
      assert (xs + [x])[1..] == xs[1..] + [x];
      JoinSnoc(xs[1..], x, sep);
    }
  }

  // ---------------------------------------------------------------------------
  // Video columns
  // ---------------------------------------------------------------------------

  const YouTubeKind: string := "YouTube"
  const FileKind: string := "Файл"
  const UnknownKind: string := "Не указано"

  /** `video_type`: a link wins over a file, whether or not the link can be embedded. */
  function VideoType(v: Video): (kind: string)
    ensures kind == YouTubeKind <==> v.youtubeUrl != ""
    ensures kind == FileKind <==> v.youtubeUrl == "" && v.videoFile != ""
    ensures kind == UnknownKind <==> v.youtubeUrl == "" && v.videoFile == ""
  {
    if v.youtubeUrl != "" then YouTubeKind
    else if v.videoFile != "" then FileKind
    else UnknownKind
  }

  /** `embed_preview`: the embedded player when the link converts, else the uploaded file, else a placeholder. */
  function EmbedPreview(v: Video): (p: Preview)
    ensures p.Iframe? <==> EmbedUrl(v.youtubeUrl).Some?
    ensures p.Iframe? ==> p.src == EmbedUrl(v.youtubeUrl).value
    ensures p.VideoElement? <==> EmbedUrl(v.youtubeUrl).None? && v.videoFile != ""
    ensures p.VideoElement? ==> p.src == v.videoFile
    ensures p.Placeholder? <==> EmbedUrl(v.youtubeUrl).None? && v.videoFile == ""
    ensures p.Placeholder? ==> p.text == NoVideoText
    ensures !p.Picture?
  {
    match EmbedUrl(v.youtubeUrl)
    case Some(url) => Iframe(url)
    case None => if v.videoFile != "" then VideoElement(v.videoFile) else Placeholder(NoVideoText)
  }

  /** The two columns agree: a player implies a link, no source at all implies the placeholder, a file alone is played. */
  lemma TypeAndPreviewAgree(v: Video)
    ensures EmbedPreview(v).Iframe? ==> VideoType(v) == YouTubeKind
    ensures VideoType(v) == FileKind ==> EmbedPreview(v) == VideoElement(v.videoFile)
    ensures VideoType(v) == UnknownKind ==> EmbedPreview(v) == Placeholder(NoVideoText)
  {
  }

  /** A link that does not convert leaves the column saying "YouTube" while the preview plays the file. */
  lemma UnconvertibleLinkFallsBackToFile()
    ensures
      var v := Video(1, "", "clip.mp4", "vimeo/1", "", {}, true, 0);
      VideoType(v) == YouTubeKind && EmbedPreview(v) == VideoElement("clip.mp4")
  {
    var v := Video(1, "", "clip.mp4", "vimeo/1", "", {}, true, 0);
    ShorterNotContains(v.youtubeUrl, WatchMarker);
    ShorterNotContains(v.youtubeUrl, ShortMarker);
  }

  /** A text cannot contain a longer one. */
  lemma ShorterNotContains(s: string, t: string)
    requires |s| < |t|
    ensures !Contains(s, t)
  {
    if Contains(s, t) {
      var i := ContainsWitness(s, t);
    }
  }
}
