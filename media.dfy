/**
 * The items of the CMS `videos` endpoint, which both the video list
 * (app/videos/page.tsx) and the photo gallery list (app/photos/page.tsx)
 * read, and the year navigation the two pages share: the years of the
 * listed items latest first, the year chosen by the query (else the latest
 * year, else the current year), and the items of that year.
 */
module Media {
  import opened Wrappers
  import opened Js
  import opened Seqs
  import opened Sorting
  import opened Cms
  import opened Dates

  /** The fields of a media item the pages read: `images` is the length of
      the `images` list (0 when missing), `hasMainImage` whether
      `main_image` is set. */
  datatype MediaItem = MediaItem(id: string, url: Option<string>, itemType: Field,
                                 date: Option<string>, images: nat, hasMainImage: bool)

  /** The id of the CMS type option that marks a photo gallery. */
  const PhotoTypeId: string := "9pX1xNYa6K"

  /** The value of that option. */
  const PhotoValue: string := "photo"

  /** The option the type tests look at: the first of an array, or the
      single option. */
  function TypeTarget(m: MediaItem): Option<Item> {
    Target(m.itemType)
  }

  /** The id the type tests compare: the string itself or the object's id. */
  function TypeId(m: MediaItem): Option<string> {
    TargetId(TypeTarget(m))
  }

  /** The value the type tests compare: the string itself or the object's
      value. */
  function TypeValue(m: MediaItem): Option<string> {
    TargetValue(TypeTarget(m))
  }

  function DateOf(m: MediaItem): Option<string> {
    m.date
  }

  /** `allYears`: the distinct first four-digit years of the items' dates,
      latest first. */
  function AllYears(items: seq<MediaItem>): seq<string> {
    YearsOf(MapSeq(items, DateOf))
  }

  /** The year buttons: each year once, in descending order, and a year is
      offered exactly when some item's date has it as its first four-digit
      run. */
  lemma {:induction false} AllYearsSpec(items: seq<MediaItem>)
    ensures NoDuplicates(AllYears(items))
    ensures forall i, j :: 0 <= i < j < |AllYears(items)| ==> KeyLe(Codes(AllYears(items)[j]), Codes(AllYears(items)[i]))
    ensures forall y :: y in AllYears(items) <==>
              exists k :: 0 <= k < |items| && FirstYear(items[k].date) == Some(y)
  {
    var ds := MapSeq(items, DateOf);
    YearsOfSpec(ds);
    assert forall k :: 0 <= k < |ds| ==> ds[k] == items[k].date;
  }

  /** `sp.year || allYears[0] || currentYear`; the current year is a
      parameter, since it comes from the clock. */
  function SelectedYear(year: Option<string>, years: seq<string>, currentYear: string): (r: string)
    ensures Present(year) ==> r == year.value
    ensures !Present(year) && |years| > 0 && years[0] != "" ==> r == years[0]
    ensures !Present(year) && (|years| == 0 || years[0] == "") ==> r == currentYear
  {
    if Present(year) then year.value
    else if |years| > 0 && years[0] != "" then years[0]
    else currentYear
  }

  /** `m.date?.includes(year)`. */
  function InYear(year: string): MediaItem -> bool {
    (m: MediaItem) => DateHas(m.date, year)
  }

  /** Every item when there are no years, else those whose date contains the
      selected year. */
  function YearFiltered(items: seq<MediaItem>, years: seq<string>, selected: string): seq<MediaItem> {
    if |years| > 0 then Filter(items, InYear(selected)) else items
  }

  /** The items shown are those of the list whose date contains the chosen
      year, in list order; all of them when no date has a year. */
  lemma {:induction false} YearFilteredSpec(items: seq<MediaItem>, years: seq<string>, selected: string, m: MediaItem)
    ensures m in YearFiltered(items, years, selected) <==>
              m in items && (|years| > 0 ==> DateHas(m.date, selected))
    ensures SubseqOf(YearFiltered(items, years, selected), items)
    ensures |years| == 0 ==> YearFiltered(items, years, selected) == items
  {
    FilterSubseq(items, InYear(selected));
    SubseqOfSelf(items);
  }

  /** Without a query the latest year is selected. */
  lemma {:induction false} DefaultIsLatest(items: seq<MediaItem>, year: Option<string>, currentYear: string)
    requires !Present(year) && |AllYears(items)| > 0
    ensures SelectedYear(year, AllYears(items), currentYear) == AllYears(items)[0]
    ensures forall j :: 0 <= j < |AllYears(items)| ==> KeyLe(Codes(AllYears(items)[j]), Codes(AllYears(items)[0]))
  {
    var years := AllYears(items);
    AllYearsSpec(items);
    var k :| 0 <= k < |items| && FirstYear(items[k].date) == Some(years[0]);
    KeyLeRefl(Codes(years[0]));
  }

  /** Without a query a non-empty list never shows an empty page: the
      latest year is the year of some item, whose date contains it. */
  lemma {:induction false} DefaultYearShown(items: seq<MediaItem>, year: Option<string>, currentYear: string)
    requires !Present(year) && |items| > 0
    ensures var years := AllYears(items);
            |YearFiltered(items, years, SelectedYear(year, years, currentYear))| > 0
  {
    var years := AllYears(items);
    if |years| > 0 {
      DefaultIsLatest(items, year, currentYear);
      AllYearsSpec(items);
      var y := years[0];
      assert y in years;
      var k :| 0 <= k < |items| && FirstYear(items[k].date) == Some(y);
      FirstYearHas(items[k].date, y);
      assert InYear(y)(items[k]);
      assert items[k] in Filter(items, InYear(y));
    }
  }
}
