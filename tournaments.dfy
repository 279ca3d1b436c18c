/**
 * A tournament as the CMS gives it to the listing pages, and the status
 * tests the entry, schedule, results, about and spectate pages share: a
 * status says `results` or `upcoming` when the lower-cased id, or the
 * lower-cased value, of some option equals it.
 */
module Tournaments {
  import opened Wrappers
  import opened Js
  import opened Seqs
  import opened Cms

  /** The fields of a CMS tournament the pages read. `tournamentStatus`
      is the fallback status field of the home page, `hasGalleryInfo`
      whether `gallery_page_info` is set. */
  datatype Tournament = Tournament(id: string, status: Field, tournamentStatus: Field,
                                   csvName: Option<string>, date: Option<string>,
                                   entryActive: bool, entryGuidelines: Option<string>,
                                   hasGalleryInfo: bool)

  /** `isResults`: some status option says `results`. */
  predicate IsResults(t: Tournament) {
    Says(t.status, "results")
  }

  /** `isUpcoming`: some status option says `upcoming`. */
  predicate IsUpcoming(t: Tournament) {
    Says(t.status, "upcoming")
  }

  predicate NotResults(t: Tournament) {
    !IsResults(t)
  }

  /** A single status option, a one-option array and the same option in a
      longer array are matched alike: an array matches when any option
      does. */
  lemma {:induction false} ArrayStatusAny(items: seq<Item>, target: string)
    ensures Says(Many(items), target) <==> exists k :: 0 <= k < |items| && MatchesIdOrValue(items[k], target)
    ensures |items| == 1 ==> (Says(Many(items), target) <==> Says(One(items[0]), target))
  {
  }

  /** A plain-string status says a target exactly when its ASCII lower-case
      form is the target: `RESULTS`, `Results` and `results` are one
      status. */
  lemma {:induction false} StatusIgnoresCase(s: string, target: string)
    requires target != ""
    ensures Says(One(Text(s)), target) <==> Lower(s) == target
  {
    assert Lower("") == "";
  }
}
