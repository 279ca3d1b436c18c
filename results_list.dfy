/**
 * The results listing page (app/results/page.tsx): the tournaments whose
 * status says `results`, the years they were held in, the choice of a year,
 * and the list of that year's tournaments sorted latest first in place.
 */
module ResultsList {
  import opened Wrappers
  import opened Js
  import opened Seqs
  import opened Sorting
  import opened Cms
  import opened Dates
  import opened Tournaments

  /** Lines 38-52: a tournament is listed when it has a status (`!t.status`
      rejects the others) and the status says `results`. */
  predicate Listed(t: Tournament) {
    Cms.Truthy(t.status) && Says(t.status, "results")
  }

  /** The guard on a missing status changes nothing: a falsy status never
      says `results`, so the page lists exactly the finished tournaments the
      other pages recognise. */
  lemma {:induction false} ListedIsResults(t: Tournament)
    ensures Listed(t) <==> IsResults(t)
  {
    match t.status
    case Absent =>
    case One(item) =>
      if item.Text? && item.s == "" {
        assert Lower(IdText(item)) == "" && Lower(ValueText(item)) == "";
      }
    case Many(_) =>
  }

  /** `allTournaments`. */
  function Finished(ts: seq<Tournament>): seq<Tournament> {
    Filter(ts, Listed)
  }

  function DateOf(t: Tournament): Option<string> {
    t.date
  }

  /** `allYears` (lines 55-58): the distinct first four-digit years of the
      listed tournaments' dates, latest first. */
  function AllYears(ts: seq<Tournament>): seq<string> {
    YearsOf(MapSeq(Finished(ts), DateOf))
  }

  /** The year buttons: each year once, in descending order, and a year is
      offered exactly when some listed tournament's date has it as its first
      four-digit run. */
  lemma {:induction false} AllYearsSpec(ts: seq<Tournament>)
    ensures NoDuplicates(AllYears(ts))
    ensures forall i, j :: 0 <= i < j < |AllYears(ts)| ==> KeyLe(Codes(AllYears(ts)[j]), Codes(AllYears(ts)[i]))
    ensures forall y :: y in AllYears(ts) <==>
              exists k :: 0 <= k < |Finished(ts)| && FirstYear(Finished(ts)[k].date) == Some(y)
  {
    var ds := MapSeq(Finished(ts), DateOf);
    YearsOfSpec(ds);
    assert forall k :: 0 <= k < |ds| ==> ds[k] == Finished(ts)[k].date;
  }

  /** `sp.year || 'all'`. */
  function SelectedYear(year: Option<string>): (r: string)
    ensures Present(year) ==> r == year.value
    ensures !Present(year) ==> r == "all"
  {
    if Present(year) then year.value else "all"
  }

  /** `t.date?.includes(selectedYear)`. */
  function InYear(year: string): Tournament -> bool {
    (t: Tournament) => DateHas(t.date, year)
  }

  /** Lines 64-66: every listed tournament for `all`, otherwise those whose
      date contains the chosen year. */
  function YearFiltered(ts: seq<Tournament>, selected: string): seq<Tournament> {
    if selected != "all" then Filter(Finished(ts), InYear(selected)) else Finished(ts)
  }

  /** The key the comparator `getDateVal(b.date) - getDateVal(a.date)`
      orders by: the (year, month, day) of the date, latest first. */
  function LatestKey(t: Tournament): Key {
    Latest(DateKey(t.date))
  }

  /** Lines 69-77: the filtered list sorted latest first, in place. */
  method SortLatestFirst(a: array<Tournament>)
    modifies a
    ensures a[..] == SortBy(old(a[..]), LatestKey)
  {
    SortInPlace(a, LatestKey);
  }

  /** The page's list: the tournaments shown for a `year` query. */
  function Shown(ts: seq<Tournament>, year: Option<string>): seq<Tournament> {
    SortBy(YearFiltered(ts, SelectedYear(year)), LatestKey)
  }

  /** The whole computation of the page as it runs: the listed tournaments,
      their years, the selected year, and the filtered list copied into an
      array and sorted there. */
  method ResultsPage(ts: seq<Tournament>, year: Option<string>)
    returns (years: seq<string>, selected: string, shown: seq<Tournament>)
    ensures years == AllYears(ts)
    ensures selected == SelectedYear(year)
    ensures shown == Shown(ts, year)
  {
    var finished := Filter(ts, Listed);
    years := YearsOf(MapSeq(finished, DateOf));
    selected := if Present(year) then year.value else "all";
    var filtered := if selected != "all" then Filter(finished, InYear(selected)) else finished;
    assert filtered == YearFiltered(ts, SelectedYear(year));
    shown := SortedCopy(filtered);
  }

  /** The list copied into an array and sorted there. */
  method SortedCopy(ts: seq<Tournament>) returns (shown: seq<Tournament>)
    ensures shown == SortBy(ts, LatestKey)
  {
    var a := new Tournament[|ts|](i requires 0 <= i < |ts| => ts[i]);
    assert a[..] == ts;
    SortLatestFirst(a);
    shown := a[..];
  }

  /** What the page shows: each finished tournament of the chosen year (of
      every year for `all`) as often as the CMS lists it, and nothing else,
      the latest date first. */
  lemma {:induction false} ShownSpec(ts: seq<Tournament>, year: Option<string>)
    ensures multiset(Shown(ts, year)) == multiset(YearFiltered(ts, SelectedYear(year)))
    ensures forall t :: t in Shown(ts, year) <==>
              t in ts && IsResults(t) && (SelectedYear(year) != "all" ==> DateHas(t.date, SelectedYear(year)))
    ensures forall i, j :: 0 <= i < j < |Shown(ts, year)| ==>
              KeyLe(DateKey(Shown(ts, year)[j].date), DateKey(Shown(ts, year)[i].date))
  {
    var f := YearFiltered(ts, SelectedYear(year));
    var s := Shown(ts, year);
    SortBySorted(f, LatestKey);
    forall i, j | 0 <= i < j < |s|
      ensures KeyLe(DateKey(s[j].date), DateKey(s[i].date))
    {
      LatestReverses(DateKey(s[i].date), DateKey(s[j].date));
    }
    forall t
      ensures t in s <==> t in ts && IsResults(t) && (SelectedYear(year) != "all" ==> DateHas(t.date, SelectedYear(year)))
    {
      ListedIsResults(t);
      SortByMember(f, LatestKey, t);
    }
  }

  /** Tournaments on the same date keep the order the CMS gives them. */
  lemma {:induction false} ShownStable(ts: seq<Tournament>, year: Option<string>, k: Key)
    ensures WithKey(Shown(ts, year), LatestKey, k) == WithKey(YearFiltered(ts, SelectedYear(year)), LatestKey, k)
  {
    SortByStable(YearFiltered(ts, SelectedYear(year)), LatestKey, k);
  }
}
