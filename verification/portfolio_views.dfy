/**
 * The public portfolio pages (portfolio/views.py): the gallery, an album's
 * page, the video list and a shooting type's page. Each page shows only what
 * is published (and, for types, active); anything else is not found.
 */
module PortfolioViews {
  import opened Wrappers
  import opened PortfolioModels
  import Seqs
  import Sorting

  /** The stored records, each collection in the model's default ordering. */
  datatype Portfolio = Portfolio(types: seq<ShootingType>, albums: seq<Album>, photos: seq<Photo>, videos: seq<Video>)

  // ---------------------------------------------------------------------------
  // Gallery (`GalleryView`)
  // ---------------------------------------------------------------------------

  predicate IsPublished(a: Album) {
    a.isPublished
  }

  predicate IsPublishedAndFeatured(a: Album) {
    a.isPublished && a.isFeatured
  }

  /** The gallery's albums: the published ones, in stored order. */
  function GalleryAlbums(p: Portfolio): (r: seq<Album>)
    ensures forall i :: 0 <= i < |r| ==> r[i].isPublished && r[i] in p.albums
    ensures forall i :: 0 <= i < |p.albums| && p.albums[i].isPublished ==> p.albums[i] in r
    ensures multiset(r) <= multiset(p.albums)
  {
    Seqs.Filter(p.albums, IsPublished)
  }

  /** The shooting types offered beside the gallery: the active ones. */
  function ActiveShootingTypes(p: Portfolio): (r: seq<ShootingType>)
    ensures forall i :: 0 <= i < |r| ==> r[i].isActive && r[i] in p.types
    ensures forall i :: 0 <= i < |p.types| && p.types[i].isActive ==> p.types[i] in r
  {
    Seqs.Filter(p.types, (t: ShootingType) => t.isActive)
  }

  /** `featured_count`: albums both published and featured. */
  function FeaturedCount(p: Portfolio): (n: nat)
    ensures n <= |GalleryAlbums(p)|
  {
    Seqs.CountMonotone(p.albums, IsPublishedAndFeatured, IsPublished);
    Seqs.Count(p.albums, IsPublishedAndFeatured)
  }

  /** Featuring an album counts only once it is published too. */
  lemma FeaturedCountSnoc(p: Portfolio, a: Album)
    ensures FeaturedCount(p.(albums := p.albums + [a]))
         == FeaturedCount(p) + if a.isPublished && a.isFeatured then 1 else 0
  {
    Seqs.CountSnoc(p.albums, a, IsPublishedAndFeatured);
  }

  // ---------------------------------------------------------------------------
  // Album page (`AlbumDetailView`)
  // ---------------------------------------------------------------------------

  /** The first published album with the slug, if any. */
  function FindPublished(albums: seq<Album>, slug: string): (r: Option<Album>)
    ensures r.Some? ==> r.value in albums && r.value.isPublished && r.value.slug == slug
    ensures r.None? <==> forall i :: 0 <= i < |albums| ==> !(albums[i].isPublished && albums[i].slug == slug)
  {
    if |albums| == 0 then None
    else if albums[0].isPublished && albums[0].slug == slug then Some(albums[0])
    else
      var r := FindPublished(albums[1..], slug);
      assert forall i :: 1 <= i < |albums| ==> albums[i] == albums[1..][i - 1];
      r
  }

  datatype AlbumPage = AlbumPage(album: Album, photos: seq<Photo>)

  function PhotoOrder(ph: Photo): int {
    ph.order
  }

  /** An album's photos, ordered by `order`. */
  function AlbumPhotos(p: Portfolio, album: Album): (r: seq<Photo>)
    ensures Sorting.SortedBy(r, PhotoOrder)
    ensures forall i :: 0 <= i < |r| ==> r[i].albumId == album.id
    ensures multiset(r) == multiset(Seqs.Filter(p.photos, (ph: Photo) => ph.albumId == album.id))
    ensures forall i :: 0 <= i < |p.photos| && p.photos[i].albumId == album.id ==> p.photos[i] in r
  {
    var own := Seqs.Filter(p.photos, (ph: Photo) => ph.albumId == album.id);
    var r := Sorting.SortBy(own, PhotoOrder);
    forall i | 0 <= i < |r| ensures r[i].albumId == album.id {
      assert r[i] in multiset(own);
    }
    forall i | 0 <= i < |p.photos| && p.photos[i].albumId == album.id ensures p.photos[i] in r {
      assert p.photos[i] in own;
      assert p.photos[i] in multiset(r);
    }
    r
  }

  /** The album page for a slug: found only for a published album. */
  function AlbumDetail(p: Portfolio, slug: string): (r: Option<AlbumPage>)
    ensures r.Some? ==> r.value.album in p.albums && r.value.album.isPublished && r.value.album.slug == slug
    ensures r.None? <==> forall i :: 0 <= i < |p.albums| ==> !(p.albums[i].isPublished && p.albums[i].slug == slug)
    ensures r.Some? ==> r.value.photos == AlbumPhotos(p, r.value.album)
  {
    match FindPublished(p.albums, slug)
    case None => None
    case Some(a) => Some(AlbumPage(a, AlbumPhotos(p, a)))
  }

  /** With unique slugs, every published album is reached through its own slug. */
  lemma PublishedAlbumIsReachable(p: Portfolio, k: nat)
    requires k < |p.albums| && p.albums[k].isPublished
    requires forall i, j :: 0 <= i < j < |p.albums| ==> p.albums[i].slug != p.albums[j].slug
    ensures AlbumDetail(p, p.albums[k].slug) == Some(AlbumPage(p.albums[k], AlbumPhotos(p, p.albums[k])))
  {
    var r := AlbumDetail(p, p.albums[k].slug);
    var j :| 0 <= j < |p.albums| && p.albums[j] == r.value.album;
    assert j == k;
  }

  // ---------------------------------------------------------------------------
  // Video list (`VideoListView`)
  // ---------------------------------------------------------------------------

  function PublishedVideos(p: Portfolio): (r: seq<Video>)
    ensures forall i :: 0 <= i < |r| ==> r[i].isPublished && r[i] in p.videos
    ensures forall i :: 0 <= i < |p.videos| && p.videos[i].isPublished ==> p.videos[i] in r
    ensures multiset(r) <= multiset(p.videos)
  {
    Seqs.Filter(p.videos, (v: Video) => v.isPublished)
  }

  // ---------------------------------------------------------------------------
  // Shooting type page (`ShootingTypeListView`)
  // ---------------------------------------------------------------------------

  /** The first active type with the slug, if any. */
  function FindActiveType(types: seq<ShootingType>, slug: string): (r: Option<ShootingType>)
    ensures r.Some? ==> r.value in types && r.value.isActive && r.value.slug == slug
    ensures r.None? <==> forall i :: 0 <= i < |types| ==> !(types[i].isActive && types[i].slug == slug)
  {
    if |types| == 0 then None
    else if types[0].isActive && types[0].slug == slug then Some(types[0])
    else
      var r := FindActiveType(types[1..], slug);
      assert forall i :: 1 <= i < |types| ==> types[i] == types[1..][i - 1];
      r
  }

  datatype TypePage = TypePage(shootingType: ShootingType, albums: seq<Album>)

  /** The published albums tagged with a type. */
  function TaggedAlbums(p: Portfolio, t: ShootingType): (r: seq<Album>)
    ensures forall i :: 0 <= i < |r| ==> r[i].isPublished && t.id in r[i].shootingTypes && r[i] in p.albums
    ensures forall i :: 0 <= i < |p.albums| && p.albums[i].isPublished && t.id in p.albums[i].shootingTypes ==>
              p.albums[i] in r
  {
    Seqs.Filter(p.albums, (a: Album) => a.isPublished && t.id in a.shootingTypes)
  }

  /** A shooting type's page: found only for an active type, listing its published albums. */
  function ShootingTypePage(p: Portfolio, slug: string): (r: Option<TypePage>)
    ensures r.None? <==> forall i :: 0 <= i < |p.types| ==> !(p.types[i].isActive && p.types[i].slug == slug)
    ensures r.Some? ==> r.value.shootingType in p.types && r.value.shootingType.isActive
                        && r.value.shootingType.slug == slug
    ensures r.Some? ==> r.value.albums == TaggedAlbums(p, r.value.shootingType)
  {
    match FindActiveType(p.types, slug)
    case None => None
    case Some(t) => Some(TypePage(t, TaggedAlbums(p, t)))
  }

  /** A shooting type's page lists only albums the gallery lists too, in the gallery's order. */
  lemma TypePageWithinGallery(p: Portfolio, t: ShootingType)
    ensures TaggedAlbums(p, t)
         == Seqs.Filter(GalleryAlbums(p), (a: Album) => t.id in a.shootingTypes)
  {
    Seqs.FilterFilter(p.albums, IsPublished, (a: Album) => t.id in a.shootingTypes,
                      (a: Album) => a.isPublished && t.id in a.shootingTypes);
  }

  // ---------------------------------------------------------------------------
  // Unpublishing (the album list's editable `is_published` column)
  // ---------------------------------------------------------------------------

  /** The album with the id is marked unpublished; nothing else changes. */
  function Unpublish(p: Portfolio, id: nat): (q: Portfolio)
    ensures q.types == p.types && q.photos == p.photos && q.videos == p.videos
    ensures |q.albums| == |p.albums|
    ensures forall i :: 0 <= i < |q.albums| ==>
              q.albums[i] == if p.albums[i].id == id then p.albums[i].(isPublished := false) else p.albums[i]
  {
    p.(albums := seq(|p.albums|, i requires 0 <= i < |p.albums| =>
      if p.albums[i].id == id then p.albums[i].(isPublished := false) else p.albums[i]))
  }

  /** Once unpublished, an album is on no public page: not in the gallery, not found by slug, not under any type. */
  lemma UnpublishedAlbumDisappears(p: Portfolio, id: nat, slug: string, t: ShootingType)
    ensures forall a :: a in GalleryAlbums(Unpublish(p, id)) ==> a.id != id
    ensures AlbumDetail(Unpublish(p, id), slug).Some? ==> AlbumDetail(Unpublish(p, id), slug).value.album.id != id
    ensures forall a :: a in TaggedAlbums(Unpublish(p, id), t) ==> a.id != id
  {
    var q := Unpublish(p, id);
    forall a | a in GalleryAlbums(q) ensures a.id != id {
      var i :| 0 <= i < |GalleryAlbums(q)| && GalleryAlbums(q)[i] == a;
      var j :| 0 <= j < |q.albums| && q.albums[j] == a;
    }
    forall a | a in TaggedAlbums(q, t) ensures a.id != id {
      var i :| 0 <= i < |TaggedAlbums(q, t)| && TaggedAlbums(q, t)[i] == a;
      var j :| 0 <= j < |q.albums| && q.albums[j] == a;
    }
    var r := AlbumDetail(q, slug);
    if r.Some? {
      var j :| 0 <= j < |q.albums| && q.albums[j] == r.value.album;
    }
  }
}
