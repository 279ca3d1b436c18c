/**
 * The entry page (app/entry/page.tsx): the tournaments open for entry, the
 * schedule of all tournaments without published results in date order, and
 * the status badge of each schedule row.
 */
module Entry {
  import opened Wrappers
  import opened Js
  import opened Seqs
  import opened Sorting
  import opened Cms
  import opened Dates
  import opened Tournaments

  /** Lines 22-34: neither finished nor upcoming, and with the entry switched
      on or entry guidelines written. */
  predicate OpenForEntry(t: Tournament) {
    !IsResults(t) && !IsUpcoming(t) && (t.entryActive || Present(t.entryGuidelines))
  }

  /** `entryTournaments`. */
  function EntryList(ts: seq<Tournament>): seq<Tournament> {
    Filter(ts, OpenForEntry)
  }

  /** The entry list is exactly the tournaments open for entry, in CMS
      order. */
  lemma {:induction false} EntryListSpec(ts: seq<Tournament>, t: Tournament)
    ensures t in EntryList(ts) <==> t in ts && OpenForEntry(t)
    ensures SubseqOf(EntryList(ts), ts)
  {
    FilterSubseq(ts, OpenForEntry);
  }

  /** The date the schedule is ordered by, as a (year, month, day) key. */
  function DateOf(t: Tournament): Key {
    DateKey(t.date)
  }

  /** `scheduleTournaments` (lines 37-46): the tournaments without published
      results, earliest first; tournaments on the same date keep their CMS
      order. */
  function Schedule(ts: seq<Tournament>): seq<Tournament> {
    SortBy(Filter(ts, NotResults), DateOf)
  }

  /** The schedule holds every tournament without published results, each as
      often as the CMS lists it, in ascending date order. */
  lemma {:induction false} ScheduleSpec(ts: seq<Tournament>)
    ensures multiset(Schedule(ts)) == multiset(Filter(ts, NotResults))
    ensures forall i :: 0 <= i < |Schedule(ts)| ==> !IsResults(Schedule(ts)[i])
    ensures forall i, j :: 0 <= i < j < |Schedule(ts)| ==> KeyLe(DateOf(Schedule(ts)[i]), DateOf(Schedule(ts)[j]))
  {
    var f := Filter(ts, NotResults);
    SortBySorted(f, DateOf);
    forall i | 0 <= i < |Schedule(ts)|
      ensures !IsResults(Schedule(ts)[i])
    {
      var t := Schedule(ts)[i];
      SortByMember(f, DateOf, t);
    }
  }

  /** The badge of a schedule row. */
  datatype Label = Finished | EntryOpen | Upcoming

  /** `checkResults`: the lower-cased id, or the option itself, is
      `results` (the value of an object is not read). */
  predicate ChecksResults(i: Item) {
    Lower(IdOrSelfText(i)) == "results"
  }

  /** `getStatusLabel` (lines 48-53): finished first, then open for entry,
      then upcoming. */
  function StatusLabel(t: Tournament): (l: Label)
    ensures l == Finished <==> Holds(t.status, ChecksResults)
    ensures l == EntryOpen <==> !Holds(t.status, ChecksResults) && t.entryActive
    ensures l == Upcoming <==> !Holds(t.status, ChecksResults) && !t.entryActive
  {
    if Holds(t.status, ChecksResults) then Finished
    else if t.entryActive then EntryOpen
    else Upcoming
  }

  /** Whatever `checkResults` accepts, `checkMatch(_, 'results')` accepts:
      an object without an id reads as `[object Object]`. */
  lemma {:induction false} ChecksResultsMatches(i: Item)
    ensures ChecksResults(i) ==> MatchesIdOrValue(i, "results")
  {
    if i.Obj? && !Present(i.id) {
      assert |Lower(IdOrSelfText(i))| == |ObjectText| == 15;
    }
  }

  /** The same on a whole status field, single option or array. */
  lemma {:induction false} ChecksResultsSays(f: Field)
    ensures Holds(f, ChecksResults) ==> Says(f, "results")
  {
    match f
    case Absent =>
    case One(item) =>
      ChecksResultsMatches(item);
    case Many(items) =>
      if Holds(f, ChecksResults) {
        var k :| 0 <= k < |items| && ChecksResults(items[k]);
        ChecksResultsMatches(items[k]);
      }
  }

  /** No schedule row is ever labelled FINISHED: the schedule leaves out
      every tournament `checkMatch` finds finished, and `checkResults` finds
      no others. */
  lemma {:induction false} ScheduleNeverFinished(ts: seq<Tournament>, i: int)
    requires 0 <= i < |Schedule(ts)|
    ensures StatusLabel(Schedule(ts)[i]) != Finished
  {
    ScheduleSpec(ts);
    ChecksResultsSays(Schedule(ts)[i].status);
  }

  /** Lines 136 and 164-176: a row links to its entry page unless it is
      labelled UPCOMING. */
  predicate IsLink(t: Tournament) {
    StatusLabel(t) != Upcoming
  }

  /** On the schedule, a row is a link exactly when entry is switched on. */
  lemma {:induction false} ScheduleLinks(ts: seq<Tournament>, i: int)
    requires 0 <= i < |Schedule(ts)|
    ensures IsLink(Schedule(ts)[i]) <==> Schedule(ts)[i].entryActive
  {
    ScheduleNeverFinished(ts, i);
  }
}
