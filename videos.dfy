/**
 * The video list (app/videos/page.tsx): the media items with a YouTube URL
 * whose type does not mark them as a photo gallery, by year.
 */
module Videos {
  import opened Wrappers
  import opened Js
  import opened Seqs
  import opened Cms
  import opened Dates
  import opened Media

  /** Lines 23-38: an item without a URL is never a video, an untyped item
      with one always is, and a typed item with one is unless its (first)
      type option has the photo id or the photo value. */
  predicate IsVideo(m: MediaItem) {
    if !Present(m.url) then false
    else if !Cms.Truthy(m.itemType) then true
    else TypeId(m) != Some(PhotoTypeId) && TypeValue(m) != Some(PhotoValue)
  }

  /** The type tests seen from the CMS field: a plain-string type is
      compared as it stands, an object type by its id and value, and an
      array type by its first option alone. */
  lemma {:induction false} VideoByType(m: MediaItem, s: string, id: Option<string>, value: Option<string>)
    ensures !Present(m.url) ==> !IsVideo(m)
    ensures Present(m.url) && !Cms.Truthy(m.itemType) ==> IsVideo(m)
    ensures Present(m.url) && m.itemType == One(Text(s)) ==>
              (IsVideo(m) <==> s != PhotoTypeId && s != PhotoValue)
    ensures Present(m.url) && m.itemType == One(Obj(id, value)) ==>
              (IsVideo(m) <==> id != Some(PhotoTypeId) && value != Some(PhotoValue))
    ensures Present(m.url) && m.itemType.Many? && |m.itemType.items| > 0 ==>
              (IsVideo(m) <==> IsVideo(m.(itemType := One(m.itemType.items[0]))))
  {
  }

  /** `allVideos`. */
  function AllVideos(items: seq<MediaItem>): seq<MediaItem> {
    Filter(items, IsVideo)
  }

  /** What the page shows for a `year` query. */
  datatype Page = Page(years: seq<string>, selected: string, shown: seq<MediaItem>)

  /** Lines 41-50. */
  function VideoPage(items: seq<MediaItem>, year: Option<string>, currentYear: string): Page {
    var videos := AllVideos(items);
    var years := AllYears(videos);
    var selected := SelectedYear(year, years, currentYear);
    Page(years, selected, YearFiltered(videos, years, selected))
  }

  /** Every video shown has a URL and passes the type test; with years the
      page shows exactly the videos of the selected year, which is the
      latest year without a query; without years it shows every video. */
  lemma {:induction false} VideoPageSpec(items: seq<MediaItem>, year: Option<string>, currentYear: string, m: MediaItem)
    ensures var p := VideoPage(items, year, currentYear);
            m in p.shown <==> m in items && IsVideo(m) && (|p.years| > 0 ==> DateHas(m.date, p.selected))
    ensures var p := VideoPage(items, year, currentYear);
            m in p.shown ==> Present(m.url)
    ensures SubseqOf(VideoPage(items, year, currentYear).shown, AllVideos(items))
    ensures SubseqOf(AllVideos(items), items)
    ensures !Present(year) && |VideoPage(items, year, currentYear).years| > 0 ==>
              VideoPage(items, year, currentYear).selected == VideoPage(items, year, currentYear).years[0]
    ensures !Present(year) && |AllVideos(items)| > 0 ==> |VideoPage(items, year, currentYear).shown| > 0
  {
    var videos := AllVideos(items);
    var years := AllYears(videos);
    var selected := SelectedYear(year, years, currentYear);
    YearFilteredSpec(videos, years, selected, m);
    FilterSubseq(items, IsVideo);
    if !Present(year) && |years| > 0 {
      DefaultIsLatest(videos, year, currentYear);
    }
    if !Present(year) && |videos| > 0 {
      DefaultYearShown(videos, year, currentYear);
    }
  }
}
