/**
 * The spectating page (app/spectate/page.tsx): the tournaments with gallery
 * information that are neither finished nor yet to open.
 */
module Spectate {
  import opened Wrappers
  import opened Js
  import opened Seqs
  import opened Cms
  import opened Tournaments

  /** Lines 22-35: `hasInfo && !isResults && !isUpcoming`. */
  predicate Spectatable(t: Tournament) {
    t.hasGalleryInfo && !IsResults(t) && !IsUpcoming(t)
  }

  /** `spectateTournaments`. */
  function SpectateList(ts: seq<Tournament>): seq<Tournament> {
    Filter(ts, Spectatable)
  }

  /** The list keeps exactly the tournaments with gallery information whose
      status says neither `results` nor `upcoming`, in CMS order. */
  lemma {:induction false} SpectateListSpec(ts: seq<Tournament>, t: Tournament)
    ensures t in SpectateList(ts) <==> t in ts && t.hasGalleryInfo && !IsResults(t) && !IsUpcoming(t)
    ensures SubseqOf(SpectateList(ts), ts)
  {
    FilterSubseq(ts, Spectatable);
  }

  /** For a plain-string status the tests ignore ASCII case: a tournament
      with gallery information is listed exactly when its lower-cased status
      is neither `results` nor `upcoming`. */
  lemma {:induction false} StringStatus(ts: seq<Tournament>, t: Tournament, s: string)
    requires t.hasGalleryInfo && t.status == One(Text(s))
    ensures t in SpectateList(ts) <==> t in ts && Lower(s) != "results" && Lower(s) != "upcoming"
  {
    SpectateListSpec(ts, t);
    StatusIgnoresCase(s, "results");
    StatusIgnoresCase(s, "upcoming");
  }

  /** For an array status, one option saying `results` or `upcoming` keeps
      the tournament off the list, whatever the other options say. */
  lemma {:induction false} ArrayStatus(ts: seq<Tournament>, t: Tournament, k: nat)
    requires t.status.Many? && k < |t.status.items|
    requires MatchesIdOrValue(t.status.items[k], "results") || MatchesIdOrValue(t.status.items[k], "upcoming")
    ensures t !in SpectateList(ts)
  {
    SpectateListSpec(ts, t);
    ArrayStatusAny(t.status.items, "results");
    ArrayStatusAny(t.status.items, "upcoming");
  }
}
