/**
 * What the results page shows for each entry of the board
 * (app/results/ResultDisplay.tsx): the final-result line with its position,
 * name, round columns, total and score, and the hole-by-hole rows with a
 * symbol under every hole. An entry is a merged standing when both rounds
 * were supplied and the raw CSV row otherwise; the page reads both through
 * the same property names.
 */
module ResultRows {
  import opened Wrappers
  import opened Js
  import opened Seqs
  import opened Csv
  import opened ScoreFormat
  import opened ResultDisplay

  /** A row of the players list: a merged standing, or a raw CSV row. */
  datatype Entry = Merged(st: Standing) | Raw(row: Row)

  function CsvRow(e: Entry): Row {
    match e
    case Merged(st) => st.row
    case Raw(row) => row
  }

  /** The properties the merge adds to a row. */
  datatype Computed = R1Score | R2Score | DisplayTotal | DisplayScore | DisplayRank

  function PropertyName(c: Computed): string {
    match c
    case R1Score => "r1Score"
    case R2Score => "r2Score"
    case DisplayTotal => "displayTotal"
    case DisplayScore => "displayScore"
    case DisplayRank => "displayRank"
  }

  /** `row[name]` for a computed property: a merged standing is the CSV row
      spread with its computed fields, which take the place of columns of the
      same name; a raw row has only its columns. */
  function ComputedCell(e: Entry, c: Computed): (v: Value)
    ensures e.Raw? ==> v == OfOption(Get(e.row, PropertyName(c)))
  {
    match e
    case Raw(row) => OfOption(Get(row, PropertyName(c)))
    case Merged(st) =>
      match c
      case R1Score => st.r1Score
      case R2Score => st.r2Score
      case DisplayTotal => st.displayTotal
      case DisplayScore => st.displayScore
      case DisplayRank => st.displayRank
  }

  /** `row[k]` for a CSV column that is not a computed property. */
  function Column(e: Entry, k: string): Value {
    OfOption(Get(CsvRow(e), k))
  }

  /** The score columns of a line, or the message that replaces them. */
  datatype Columns = Message(text: string) | Scores(r1: string, r2: string, total: string, score: string)

  /** One line of the final-result table. */
  datatype Line = Line(pos: string, name: string, amateur: bool, columns: Columns)

  /** The name as shown: amateur marks removed, trimmed. */
  function ShownName(nameStr: string): (r: string)
    ensures forall i :: 0 <= i < |r| ==> !IsAt(r[i])
  {
    var t := Filter(nameStr, NotAt);
    TrimKeeps(t, NotAt);
    Trim(t)
  }

  /** `nameStr.includes('@') || nameStr.includes('＠')`. */
  predicate Amateur(nameStr: string) {
    Contains(nameStr, "@") || Contains(nameStr, "＠")
  }

  /** `row.displayRank || row.rank`. */
  function RankCell(e: Entry): Value {
    Or(ComputedCell(e, DisplayRank), Column(e, "rank"))
  }

  /** `row.r1Score || row.out`. */
  function Round1Cell(e: Entry): Value {
    Or(ComputedCell(e, R1Score), Column(e, "out"))
  }

  /** `row.r2Score || (isTwoDay ? (row.total || row.TOTAL || row.Total || row.in) : row.in)`. */
  function Round2Cell(e: Entry, isTwoDay: bool): Value {
    Or(ComputedCell(e, R2Score),
       if isTwoDay then Or(Column(e, "total"), Or(Column(e, "TOTAL"), Or(Column(e, "Total"), Column(e, "in"))))
       else Column(e, "in"))
  }

  /** `row.displayTotal || row.total`. */
  function TotalCell(e: Entry): Value {
    Or(ComputedCell(e, DisplayTotal), Column(e, "total"))
  }

  /** `row.displayScore || row.score`, through the display rule. */
  function ScoreCell(e: Entry): Value {
    FormatScore(Or(ComputedCell(e, DisplayScore), Column(e, "score")))
  }

  /** The final-result line of an entry (lines 256-310). */
  function LineOf(e: Entry, isTwoDay: bool): (l: Line)
    ensures l.pos == Render(RankCell(e))
    ensures l.name == ShownName(NameOf(CsvRow(e))) && l.amateur == Amateur(NameOf(CsvRow(e)))
    ensures l.columns.Message? <==> RankIs(CsvRow(e), "NR") || RankIs(CsvRow(e), "DNS")
    ensures l.columns.Message? ==> (l.columns.text == "NO RETURN" <==> RankIs(CsvRow(e), "NR"))
    ensures l.columns.Message? ==> (l.columns.text == "DID NOT START" <==> !RankIs(CsvRow(e), "NR"))
    ensures l.columns.Scores? ==>
              l.columns == Scores(Render(Round1Cell(e)), Render(Round2Cell(e, isTwoDay)),
                                  Render(TotalCell(e)), Render(ScoreCell(e)))
  {
    var row := CsvRow(e);
    var nameStr := NameOf(row);
    var columns :=
      if RankIs(row, "NR") then Message("NO RETURN")
      else if RankIs(row, "DNS") then Message("DID NOT START")
      else Scores(Render(Round1Cell(e)), Render(Round2Cell(e, isTwoDay)), Render(TotalCell(e)), Render(ScoreCell(e)));
    Line(Render(RankCell(e)), ShownName(nameStr), Amateur(nameStr), columns)
  }

  /** The entries the page lists for a board. */
  function Entries(b: Board): (es: seq<Entry>)
    ensures b.Rounds? ==> |es| == |b.standings| && forall i :: 0 <= i < |es| ==> es[i] == Merged(b.standings[i])
    ensures b.Single? ==> |es| == |b.rows| && forall i :: 0 <= i < |es| ==> es[i] == Raw(b.rows[i])
  {
    match b
    case Rounds(s) => seq(|s|, i requires 0 <= i < |s| => Merged(s[i]))
    case Single(rows) => seq(|rows|, i requires 0 <= i < |rows| => Raw(rows[i]))
  }

  // ---------------------------------------------------------------------------
  // What a line shows

  /** Every rank the rank pass writes is truthy, so a ranked line shows the
      computed rank, never the CSV's own `rank` cell. */
  lemma {:induction false} RankShown(s: seq<Standing>, j: int)
    requires 0 <= j < |s|
    ensures RankCell(Merged(Ranked(s)[j])) == Label(s, |s|, j)
  {
    LabelTruthy(s, j);
  }

  lemma LabelTruthy(s: seq<Standing>, j: int)
    requires 0 <= j < |s|
    ensures Truthy(Label(s, |s|, j))
  {
    if Special(s[j]) {
      assert Get(s[j].row, "rank").Some? && Get(s[j].row, "rank").value != "";
    }
  }

  /** A recomputed score to par is shown as it was computed. */
  lemma {:induction false} RescoredShown(st: Standing, par: Option<Row>)
    requires ParTotal(par).Some? && st.sortValue < RescoreBelow
    requires st.displayScore == RescoredScore(par, st.sortValue, OfOption(Get(st.row, "score")))
    ensures ScoreCell(Merged(st)) == Str(RelToPar(st.sortValue - 2 * ParTotal(par).value))
  {
    var d := st.sortValue - 2 * ParTotal(par).value;
    RescoredBy(par, st.sortValue, OfOption(Get(st.row, "score")), d);
    ScoreShown(st, d);
  }

  /** The recomputed score is the score to par of `d`. */
  lemma RescoredBy(par: Option<Row>, sortValue: int, score: Value, d: int)
    requires ParTotal(par).Some? && sortValue < RescoreBelow && d == sortValue - 2 * ParTotal(par).value
    ensures RescoredScore(par, sortValue, score) == Str(RelToPar(d))
  {
  }

  /** A computed score to par is the cell of the score column. */
  lemma ScoreShown(st: Standing, d: int)
    requires st.displayScore == Str(RelToPar(d))
    ensures ScoreCell(Merged(st)) == Str(RelToPar(d))
  {
    var c := Str(RelToPar(d));
    assert ComputedCell(Merged(st), DisplayScore) == c;
    assert Or(c, Column(Merged(st), "score")) == c;
    RelToParFormatted(d);
  }

  /** The total column of a matched row whose two totals parse shows their
      sum, unless the sum is zero (not truthy, so the CSV's `total` is
      shown). */
  lemma {:induction false} CombinedShown(st: Standing, n: int)
    requires st.displayTotal == Num(n) && n != 0
    ensures Render(TotalCell(Merged(st))) == IntToString(n)
  {
  }

  /** Without round data a line shows the CSV's own cells: the `out` and
      `in` columns for the rounds (when the file has no columns named after
      the computed properties). */
  lemma {:induction false} RawColumns(row: Row)
    requires forall c :: PropertyName(c) !in row
    ensures Round1Cell(Raw(row)) == OfOption(Get(row, "out"))
    ensures Round2Cell(Raw(row), false) == OfOption(Get(row, "in"))
    ensures TotalCell(Raw(row)) == OfOption(Get(row, "total"))
    ensures ScoreCell(Raw(row)) == FormatScore(OfOption(Get(row, "score")))
    ensures RankCell(Raw(row)) == OfOption(Get(row, "rank"))
  {
    assert PropertyName(R1Score) !in row && PropertyName(R2Score) !in row;
    assert PropertyName(DisplayTotal) !in row && PropertyName(DisplayScore) !in row;
    assert PropertyName(DisplayRank) !in row;
  }

  /** The AM badge is shown exactly for names holding an amateur mark (the
      shown name holds none, by `ShownName`). */
  lemma {:induction false} AmateurBadge(n: string)
    ensures Amateur(n) <==> exists i :: 0 <= i < |n| && IsAt(n[i])
  {
    ContainsIff(n, "@");
    ContainsIff(n, "＠");
    if exists i :: 0 <= i < |n| && IsAt(n[i]) {
      var i :| 0 <= i < |n| && IsAt(n[i]);
      if n[i] == '@' {
        assert OccursAt(n, "@", i);
      } else {
        assert n[i..i + 1] == [n[i]];
        assert OccursAt(n, "＠", i);
      }
    }
    if Contains(n, "@") {
      var i :| OccursAt(n, "@", i);
      assert n[i] == n[i..i + 1][0];
    }
    if Contains(n, "＠") {
      var i :| OccursAt(n, "＠", i);
      assert n[i..i + 1] == "＠";
      assert n[i] == '＠';
    }
  }

  // ---------------------------------------------------------------------------
  // Hole by hole

  /** A round row of the hole-by-hole table and its label. */
  datatype Round = Round(data: Row, roundLabel: string)

  /** `if (r) rounds.push({ ...r, label })`. */
  function Pushed(r: Option<Row>, roundLabel: string): (rs: seq<Round>)
    ensures r.None? ==> rs == []
    ensures r.Some? ==> rs == [Round(r.value, roundLabel)]
  {
    if r.Some? then [Round(r.value, roundLabel)] else []
  }

  /** The rounds shown for a player (lines 377-387): with round data, the
      player's round-1 and round-2 rows found by name, as far as they exist;
      without, the row itself labelled `-`. */
  function RoundsOf(normalize: string -> string, rd1: seq<Row>, rd2: seq<Row>, row: Row): seq<Round> {
    if HasRoundData(rd1, rd2) then
      Pushed(FindByName(normalize, rd1, row), "1R") + Pushed(FindByName(normalize, rd2, row), "2R")
    else [Round(row, "-")]
  }

  /** With round data a player gets a `1R` row exactly when some round-1 row
      has the same name key, and then it is the first round row; a `2R` row
      exactly when some round-2 row does, and then it is the last; every
      round row shown is of the same player. */
  lemma {:induction false} RoundsOfPlayer(normalize: string -> string, rd1: seq<Row>, rd2: seq<Row>, row: Row)
    requires HasRoundData(rd1, rd2)
    ensures var rs := RoundsOf(normalize, rd1, rd2, row);
            var same := SameName(normalize, row);
            |rs| <= 2
            && (forall i :: 0 <= i < |rs| ==> same(rs[i].data))
            && ((exists j :: 0 <= j < |rd1| && same(rd1[j])) <==> |rs| > 0 && rs[0].roundLabel == "1R")
            && ((exists j :: 0 <= j < |rd2| && same(rd2[j])) <==> |rs| > 0 && rs[|rs| - 1].roundLabel == "2R")
            && (|rs| > 0 && rs[0].roundLabel == "1R" ==> rs[0].data in rd1)
            && (|rs| > 0 && rs[|rs| - 1].roundLabel == "2R" ==> rs[|rs| - 1].data in rd2)
  {
    RoundsFound(rd1, rd2, SameName(normalize, row), RoundsOf(normalize, rd1, rd2, row));
  }

  /** `RoundsOfPlayer` for any test the two lookups apply. */
  lemma RoundsFound(rd1: seq<Row>, rd2: seq<Row>, same: Row -> bool, rs: seq<Round>)
    requires rs == Pushed(Find(rd1, same), "1R") + Pushed(Find(rd2, same), "2R")
    ensures |rs| <= 2
            && (forall i :: 0 <= i < |rs| ==> same(rs[i].data))
            && ((exists j :: 0 <= j < |rd1| && same(rd1[j])) <==> |rs| > 0 && rs[0].roundLabel == "1R")
            && ((exists j :: 0 <= j < |rd2| && same(rd2[j])) <==> |rs| > 0 && rs[|rs| - 1].roundLabel == "2R")
            && (|rs| > 0 && rs[0].roundLabel == "1R" ==> rs[0].data in rd1)
            && (|rs| > 0 && rs[|rs| - 1].roundLabel == "2R" ==> rs[|rs| - 1].data in rd2)
  {
    var x := Pushed(Find(rd1, same), "1R");
    var y := Pushed(Find(rd2, same), "2R");
    PushedFind(rd1, same, "1R");
    PushedFind(rd2, same, "2R");
    TwoPushed(x, y);
  }

  /** The part a `find` contributes: one row passing the test when there is
      one, none otherwise. */
  lemma PushedFind(rows: seq<Row>, t: Row -> bool, roundLabel: string)
    ensures var rs := Pushed(Find(rows, t), roundLabel);
            |rs| <= 1
            && (|rs| == 1 <==> exists j :: 0 <= j < |rows| && t(rows[j]))
            && (|rs| == 1 ==> rs[0].data in rows && t(rs[0].data) && rs[0].roundLabel == roundLabel)
  {
  }

  /** A `1R` part and a `2R` part of at most one row each, one after the other. */
  lemma TwoPushed(x: seq<Round>, y: seq<Round>)
    requires |x| <= 1 && |y| <= 1
    requires |x| == 1 ==> x[0].roundLabel == "1R"
    requires |y| == 1 ==> y[0].roundLabel == "2R"
    ensures var rs := x + y;
            |rs| <= 2
            && (|x| == 1 <==> |rs| > 0 && rs[0].roundLabel == "1R")
            && (|y| == 1 <==> |rs| > 0 && rs[|rs| - 1].roundLabel == "2R")
            && (|x| == 1 ==> rs[0] == x[0])
            && (|y| == 1 ==> rs[|rs| - 1] == y[0])
            && forall i :: 0 <= i < |rs| ==> (|x| == 1 && rs[i] == x[0]) || (|y| == 1 && rs[i] == y[0])
  {
    assert "1R" != "2R" by { assert "1R"[0] != "2R"[0]; }
  }

  /** Some row of `rows` has the same name key as `row`. */
  predicate SameKeyIn(normalize: string -> string, rows: seq<Row>, row: Row) {
    exists j :: 0 <= j < |rows| && RowKey(normalize, rows[j]) == RowKey(normalize, row)
  }

  lemma PushedFound(normalize: string -> string, rows: seq<Row>, row: Row, roundLabel: string)
    ensures var rs := Pushed(FindByName(normalize, rows, row), roundLabel);
            |rs| <= 1
            && (|rs| == 1 <==> SameKeyIn(normalize, rows, row))
            && (|rs| == 1 ==> rs[0].data in rows && rs[0].roundLabel == roundLabel
                              && RowKey(normalize, rs[0].data) == RowKey(normalize, row))
  {
  }

  /** Without round data the one round row is the player's own row. */
  lemma {:induction false} RoundsOfSingle(normalize: string -> string, rd1: seq<Row>, rd2: seq<Row>, row: Row)
    requires !HasRoundData(rd1, rd2)
    ensures RoundsOf(normalize, rd1, rd2, row) == [Round(row, "-")]
  {
  }

  /** One hole of a round row: the strokes, the symbol against par, and
      whether the strokes are printed in red. */
  datatype HoleView = HoleView(strokes: string, symbol: string, red: bool)

  /** The symbol is printed in red exactly when it is a birdie or better. */
  predicate Red(symbol: string) {
    symbol == "○" || symbol == "◎"
  }

  /** Hole `i` of a round row (lines 426-438 and 440-452). */
  function HoleViewOf(rData: Row, par: Option<Row>, i: int): HoleView {
    var symbol := HoleSymbol(rData, par, i);
    HoleView(Render(HoleCell(rData, i)), symbol, Red(symbol))
  }

  /** The 18 holes of a round row, hole 1 first. */
  function HoleViews(rData: Row, par: Option<Row>): (r: seq<HoleView>)
    ensures |r| == 18
    ensures forall i :: 0 <= i < 18 ==> r[i] == HoleViewOf(rData, par, i + 1)
  {
    EighteenHoles((i: int) => HoleViewOf(rData, par, i))
  }

  /** One value per hole, hole 1 first. */
  function EighteenHoles<T>(f: int -> T): (r: seq<T>)
    ensures |r| == 18
    ensures forall i :: 0 <= i < 18 ==> r[i] == f(i + 1)
  {
    seq(18, i requires 0 <= i < 18 => f(i + 1))
  }

  /** The hole score is printed in red exactly when the hole was played
      under par. */
  lemma {:induction false} RedUnderPar(x: Value, y: Value, n: int, par: int)
    requires CellNumber(x) == Some(n) && CellNumber(y) == Some(par)
    requires n != 0 && par != 0
    ensures Red(ScoreSymbol(x, y)) <==> n < par
  {
    ScoreSymbolOfNumbers(x, y, n, par);
  }

  /** With no par row there is no symbol, and nothing in red, under any hole. */
  lemma {:induction false} NoParNoSymbols(rData: Row)
    ensures forall i :: 0 <= i < 18 ==> HoleViews(rData, None)[i].symbol == "" && !HoleViews(rData, None)[i].red
  {
  }

  /** The keys the course-par row reads, as written (lines 362 and 364): `h{i}` and
      `H{i}`, without the bare `{i}` the symbols read. */
  function ParKeysAsWritten(i: int): (keys: seq<string>)
    ensures HoleKeys(i) == keys + [HoleKeys(i)[2]]
  {
    ["h" + IntToString(i), "H" + IntToString(i)]
  }

  /** A course-par cell as written. */
  function ParCellAsWritten(par: Option<Row>, i: int): Value {
    if par.Some? then OfOption(Probe(par.value, ParKeysAsWritten(i))) else Undefined
  }

  /** A course-par cell read the way the symbols read the par row:
      `h{i}`, `H{i}` or `{i}`. */
  function ParCell(par: Option<Row>, i: int): Value {
    if par.Some? then HoleCell(par.value, i) else Undefined
  }

  /** The 18 course-par cells, hole 1 first. */
  function CourseParCells(par: Option<Row>): (r: seq<string>)
    ensures |r| == 18
    ensures forall i :: 0 <= i < 18 ==> r[i] == Render(ParCell(par, i + 1))
  {
    seq(18, i requires 0 <= i < 18 => Render(ParCell(par, i + 1)))
  }

  /** As written, a par row that gives hole `i` only under the bare number
      shows an empty course-par cell for it, although symbols are computed
      against that par (and, for hole 1, the table is shown because of it). */
  lemma {:induction false} ParCellMissing(par: Row, rData: Row, i: int, n: int, p: int)
    requires HoleKeys(i)[0] !in par && HoleKeys(i)[1] !in par
    requires CellNumber(OfOption(Get(par, HoleKeys(i)[2]))) == Some(p) && p != 0
    requires CellNumber(HoleCell(rData, i)) == Some(n) && n != 0
    ensures ParCellAsWritten(Some(par), i) == Undefined
    ensures i == 1 ==> HasHoleByHole(Some(par))
    ensures HoleSymbol(rData, Some(par), i) == DiffSymbol(n - p) != ""
  {
    var keys := HoleKeys(i);
    assert Get(par, keys[0]) == None && Get(par, keys[1]) == None;
    ParsedTruthy(OfOption(Get(par, keys[2])));
    ProbeThird(par, keys);
    ScoreSymbolOfNumbers(HoleCell(rData, i), HoleCell(par, i), n, p);
  }

  lemma ProbeThird(row: Row, keys: seq<string>)
    requires |keys| == 3 && keys[0] !in row && keys[1] !in row
    ensures Probe(row, keys) == Get(row, keys[2])
    ensures Probe(row, keys[..2]) == None
  {
    assert keys[1..][1..] == [keys[2]];
    assert keys[..2][1..] == [keys[1]];
  }

  /** A cell that parses to a number is truthy. */
  lemma {:induction false} ParsedTruthy(v: Value)
    ensures CellNumber(v).Some? ==> Truthy(v)
  {
    if !Truthy(v) {
      assert Or(v, Str("")) == Str("");
      assert Trim("") == "" by { TrimNoSpace(""); }
      assert LeadingDigits("") == "";
    }
  }

  /** Read under all three keys, the course-par cell of every hole that gets a
      symbol is shown. */
  lemma {:induction false} ParCellShown(par: Option<Row>, rData: Row, i: int)
    requires HoleSymbol(rData, par, i) != ""
    ensures Truthy(ParCell(par, i))
  {
    ParsedTruthy(ParCell(par, i));
  }
}
