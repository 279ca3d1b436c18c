/**
 * The home page (app/page.tsx): the latest tournament with published
 * results (or a result file) is chosen, and the first 25 competitors of its
 * CSV are shown as a short leaderboard with scores to par written `+N`/`E`.
 */
module Home {
  import opened Wrappers
  import opened Js
  import opened Seqs
  import opened Csv
  import opened Cms
  import opened ScoreFormat
  import opened Tournaments

  // ---------------------------------------------------------------------------
  // Choosing the tournament

  /** The home page's `checkMatch(item)`: the lower-cased id, else value,
      else the option itself, is `results` or `結果公開`. */
  predicate Published(i: Item) {
    var v := Lower(IdValueOrSelfText(i));
    v == "results" || v == "結果公開"
  }

  /** Lines 19-30: a tournament qualifies by its status (`status`, else
      `tournament_status`) when it has one, and by having a result file
      when it has none. */
  predicate Qualifies(t: Tournament) {
    var status := Cms.FieldOr(t.status, t.tournamentStatus);
    if !Cms.Truthy(status) then Present(t.csvName) else Holds(status, Published)
  }

  /** The chosen tournament: the first that qualifies, in the order the CMS
      gives (latest first). */
  function Chosen(ts: seq<Tournament>): (r: Option<Tournament>)
    ensures r.Some? ==> exists i :: 0 <= i < |ts| && ts[i] == r.value && Qualifies(ts[i])
                                    && forall j :: 0 <= j < i ==> !Qualifies(ts[j])
    ensures r.None? <==> forall j :: 0 <= j < |ts| ==> !Qualifies(ts[j])
  {
    Find(ts, Qualifies)
  }

  /** A tournament without any status qualifies exactly when it has a result
      file; one with a status array qualifies when any option says it is
      published, whatever else the array holds. */
  lemma {:induction false} QualifiesSpec(t: Tournament)
    ensures !Cms.Truthy(t.status) && !Cms.Truthy(t.tournamentStatus) ==> (Qualifies(t) <==> Present(t.csvName))
    ensures Cms.Truthy(t.status) ==> (Qualifies(t) <==> Holds(t.status, Published))
    ensures t.status.Many? ==>
              (Qualifies(t) <==> exists k :: 0 <= k < |t.status.items| && Published(t.status.items[k]))
  {
  }

  /** `tournament?.csv_name || 'arima.csv'`. */
  function TargetFile(chosen: Option<Tournament>): (r: string)
    ensures chosen.Some? && Present(chosen.value.csvName) ==> r == chosen.value.csvName.value
    ensures chosen.None? || !Present(chosen.value.csvName) ==> r == "arima.csv"
  {
    if chosen.Some? && Present(chosen.value.csvName) then chosen.value.csvName.value else "arima.csv"
  }

  // ---------------------------------------------------------------------------
  // The short leaderboard

  /** `r.rank !== 'PAR' && r.name`. */
  predicate Listed(r: Row) {
    !RankIs(r, "PAR") && Present(Get(r, "name"))
  }

  /** The number of rows shown. */
  const Shown: nat := 25

  /** `data.filter(...).slice(0, 25)`. */
  function ShownRows(data: seq<Row>): seq<Row> {
    var listed := Filter(data, Listed);
    if |listed| <= Shown then listed else listed[..Shown]
  }

  /** At most 25 rows are shown, none a par row or nameless; they are the
      first qualifying rows in file order, and all of them when there are no
      more than 25. */
  lemma {:induction false} ShownRowsSpec(data: seq<Row>)
    ensures |ShownRows(data)| <= Shown
    ensures forall i :: 0 <= i < |ShownRows(data)| ==>
              !RankIs(ShownRows(data)[i], "PAR") && Present(Get(ShownRows(data)[i], "name"))
    ensures ShownRows(data) == Filter(data, Listed)[..|ShownRows(data)|]
    ensures |Filter(data, Listed)| <= Shown ==> ShownRows(data) == Filter(data, Listed)
    ensures |Filter(data, Listed)| > Shown ==> |ShownRows(data)| == Shown
    ensures SubseqOf(Filter(data, Listed), data)
  {
    var listed := Filter(data, Listed);
    FilterSubseq(data, Listed);
    assert listed[..|listed|] == listed;
    forall i | 0 <= i < |ShownRows(data)|
      ensures Listed(ShownRows(data)[i])
    {
      assert ShownRows(data)[i] == listed[i];
    }
  }

  /** `is2Day`: the first record has a `1r` or `1R` column. */
  predicate TwoDay(data: seq<Row>) {
    |data| > 0 && ("1r" in data[0] || "1R" in data[0])
  }

  /** `r.score || r.total || '-'`. */
  function ScoreText(r: Row): (s: string)
    ensures Present(Get(r, "score")) ==> s == r["score"]
    ensures !Present(Get(r, "score")) && Present(Get(r, "total")) ==> s == r["total"]
    ensures !Present(Get(r, "score")) && !Present(Get(r, "total")) ==> s == "-"
  {
    ProbeOr(r, ["score", "total"], "-")
  }

  /** One row of the short leaderboard (lines 44-58). */
  datatype Line = Line(rank: string, name: string, out: string, inCell: string, score: Value, twoDay: bool)

  function LineOf(r: Row, twoDay: bool): Line {
    Line(ProbeOr(r, ["rank"], "-"),
         ProbeOr(r, ["name"], "Unknown"),
         if twoDay then ProbeOr(r, ["1r", "1R"], "-") else ProbeOr(r, ["out"], "-"),
         if twoDay then ProbeOr(r, ["total", "TOTAL", "Total"], "-") else ProbeOr(r, ["in"], "-"),
         FormatScore(Str(ScoreText(r))),
         twoDay)
  }

  /** The score shown is the score (or total) cell through the display rule:
      `+N` for a positive number, `E` for zero, unchanged otherwise, and `-`
      when the row has neither. */
  lemma {:induction false} LineScore(r: Row, twoDay: bool)
    ensures var t := ScoreText(r);
            var v := LineOf(r, twoDay).score;
            (IsNumericScore(t) && NumberOf(t).value > 0 ==> v == Str(RelToPar(NumberOf(t).value)))
            && (IsNumericScore(t) && NumberOf(t).value == 0 ==> v == Str("E"))
            && (!IsNumericScore(t) || NumberOf(t).value < 0 ==> v == Str(t))
            && (!Present(Get(r, "score")) && !Present(Get(r, "total")) ==> v == Str("-"))
  {
  }

  /** A missing rank is shown as `-`, a listed row shows its own name, and
      the round columns follow the two-day layout when the file has one. */
  lemma {:induction false} LineCells(r: Row, twoDay: bool)
    requires Listed(r)
    ensures LineOf(r, twoDay).name == r["name"]
    ensures !Present(Get(r, "rank")) ==> LineOf(r, twoDay).rank == "-"
    ensures Present(Get(r, "rank")) ==> LineOf(r, twoDay).rank == r["rank"]
    ensures twoDay && Present(Get(r, "1r")) ==> LineOf(r, twoDay).out == r["1r"]
    ensures !twoDay && Present(Get(r, "out")) ==> LineOf(r, twoDay).out == r["out"]
  {
    assert ["rank"][0] == "rank" && ["name"][0] == "name" && ["out"][0] == "out";
    assert ["1r", "1R"][0] == "1r";
  }

  /** The leaderboard of a CSV file. */
  function Leaderboard(data: seq<Row>): seq<Line> {
    var rows := ShownRows(data);
    seq(|rows|, i requires 0 <= i < |rows| => LineOf(rows[i], TwoDay(data)))
  }

  /** The winner's name: that of the first line, or `---` for none. */
  function Winner(lines: seq<Line>): string {
    if |lines| > 0 then lines[0].name else "---"
  }

  /** The winner shown is the name of the first competitor of the file,
      `---` when the file lists none. */
  lemma {:induction false} WinnerIsFirst(data: seq<Row>)
    ensures |Filter(data, Listed)| == 0 ==> Winner(Leaderboard(data)) == "---"
    ensures |Filter(data, Listed)| > 0 ==> Winner(Leaderboard(data)) == Filter(data, Listed)[0]["name"]
  {
    var listed := Filter(data, Listed);
    if |listed| > 0 {
      ShownRowsSpec(data);
      var r := ShownRows(data)[0];
      assert r == listed[0];
      LineCells(r, TwoDay(data));
    }
  }
}
