/**
 * The photo gallery list (app/photos/page.tsx): the media items typed as a
 * photo gallery, or untyped with pictures and no video URL, by year, with
 * the page's two empty-state messages.
 */
module Photos {
  import opened Wrappers
  import opened Js
  import opened Seqs
  import opened Cms
  import opened Dates
  import opened Media
  import opened Videos

  /** Lines 23-34: an untyped item is a gallery when it has images or a main
      image and no URL; a typed item when its (first) type option has the
      photo id, the photo value, or the id `photo`. */
  predicate IsGallery(m: MediaItem) {
    if !Cms.Truthy(m.itemType) then (m.images > 0 || m.hasMainImage) && !Present(m.url)
    else TypeId(m) == Some(PhotoTypeId) || TypeValue(m) == Some(PhotoValue) || TypeId(m) == Some(PhotoValue)
  }

  /** For an item with a URL whose type is a string (alone or first in an
      array), the video list and the gallery list are complementary: exactly
      one of them accepts it. */
  lemma {:induction false} StringTypeComplement(m: MediaItem, s: string)
    requires Present(m.url)
    requires TypeTarget(m) == Some(Text(s))
    ensures IsVideo(m) <==> !IsGallery(m)
  {
  }

  /** An untyped item with a URL is a video and not a gallery; one without a
      URL is never a video, and a gallery exactly when it has pictures. */
  lemma {:induction false} UntypedSplit(m: MediaItem)
    requires !Cms.Truthy(m.itemType)
    ensures Present(m.url) ==> IsVideo(m) && !IsGallery(m)
    ensures !Present(m.url) ==> !IsVideo(m) && (IsGallery(m) <==> m.images > 0 || m.hasMainImage)
  {
  }

  /** The two lists are not complementary for object types: an object option
      with the id `photo` and another value, on an item with a URL, is
      accepted by both pages. */
  lemma {:induction false} PhotoIdOnBothPages(m: MediaItem, value: Option<string>)
    requires Present(m.url)
    requires m.itemType == One(Obj(Some(PhotoValue), value)) && value != Some(PhotoValue)
    ensures IsVideo(m) && IsGallery(m)
  {
  }

  /** `allGalleries`. */
  function AllGalleries(items: seq<MediaItem>): seq<MediaItem> {
    Filter(items, IsGallery)
  }

  /** What the list area shows: the galleries, or one of the two messages. */
  datatype Listing = Grid(galleries: seq<MediaItem>) | NoneRegistered | NoneForYear(year: string)

  /** Lines 37-47 and 120-124. */
  function GalleryPage(items: seq<MediaItem>, year: Option<string>, currentYear: string): Listing {
    var galleries := AllGalleries(items);
    var years := AllYears(galleries);
    var selected := SelectedYear(year, years, currentYear);
    var shown := YearFiltered(galleries, years, selected);
    if |shown| > 0 then Grid(shown)
    else if |galleries| == 0 then NoneRegistered
    else NoneForYear(selected)
  }

  /** The grid holds exactly the galleries of the selected year (all of them
      when no gallery has a year); "none registered" appears exactly when
      there is no gallery at all, and "none for the year" only for a year
      asked for in the query. */
  lemma {:induction false} GalleryPageSpec(items: seq<MediaItem>, year: Option<string>, currentYear: string, m: MediaItem)
    ensures var galleries := AllGalleries(items);
            var years := AllYears(galleries);
            var p := GalleryPage(items, year, currentYear);
            p.Grid? ==> (m in p.galleries <==> m in items && IsGallery(m) && (|years| > 0 ==> DateHas(m.date, SelectedYear(year, years, currentYear))))
    ensures GalleryPage(items, year, currentYear).NoneRegistered? <==> |AllGalleries(items)| == 0
    ensures GalleryPage(items, year, currentYear).NoneForYear? ==>
              Present(year) && GalleryPage(items, year, currentYear).year == year.value
    ensures SubseqOf(AllGalleries(items), items)
  {
    var galleries := AllGalleries(items);
    var years := AllYears(galleries);
    var selected := SelectedYear(year, years, currentYear);
    YearFilteredSpec(galleries, years, selected, m);
    FilterSubseq(items, IsGallery);
    if !Present(year) && |galleries| > 0 {
      DefaultYearShown(galleries, year, currentYear);
    }
  }
}
