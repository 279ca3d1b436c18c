/**
 * The leaderboard computation of a tournament's results page
 * (app/results/ResultDisplay.tsx). With the CSV rows of both rounds at hand,
 * each final-round row is matched by name with its first-round row, the two
 * totals are added, the score to par is recomputed against twice the course
 * par, rows that did not start, did not return or were disqualified are sent
 * to the bottom, the rows are sorted by combined strokes and ranks are given
 * out in one pass, tied rows sharing a `T`-prefixed rank. Without round data
 * the rows are shown as they come.
 */
module ResultDisplay {
  import opened Wrappers
  import opened Js
  import opened Seqs
  import opened Sorting
  import opened Csv
  import opened ScoreFormat

  // ---------------------------------------------------------------------------
  // Mode

  /** `rd1.length > 0 && rd2.length > 0`: both rounds' rows were supplied. */
  predicate HasRoundData(rd1: seq<Row>, rd2: seq<Row>) {
    |rd1| > 0 && |rd2| > 0
  }

  /** `isTwoDay`: the tournament is the one configured as a two-day event
      (`twoDayId`), or both rounds' rows were supplied. It only chooses the
      column headings and which cells fill the round columns. */
  predicate IsTwoDay(tournamentId: Option<string>, twoDayId: string, rd1: seq<Row>, rd2: seq<Row>) {
    tournamentId == Some(twoDayId) || HasRoundData(rd1, rd2)
  }

  // ---------------------------------------------------------------------------
  // Names

  /** The column names a player's name may come under. */
  const NameKeys: seq<string> := ["name", "Name", "選手名", "氏名", "player", "Player"]

  /** `getNameFromRow`: the first non-empty name column, else `""`. */
  function NameOf(row: Row): (r: string)
    ensures Present(Probe(row, NameKeys)) ==> r == Probe(row, NameKeys).value
    ensures !Present(Probe(row, NameKeys)) ==> r == ""
    ensures r != "" <==> exists i :: 0 <= i < |NameKeys| && Present(Get(row, NameKeys[i]))
  {
    ProbeOr(row, NameKeys, "")
  }

  /** The marks `/[@＠]/g` removes: amateur markers in a name. */
  predicate IsAt(c: char) {
    c == '@' || c == '＠'
  }

  /** What `/[\s　\. \t\r\n]+/g` removes: white space (the ideographic
      space, no-break space, tab and line breaks are all white space) and
      full stops. */
  predicate IsGap(c: char) {
    IsSpace(c) || c == '.'
  }

  predicate NotAt(c: char) {
    !IsAt(c)
  }

  predicate NotGap(c: char) {
    !IsGap(c)
  }

  /** Neither a mark nor a gap. */
  predicate Clean(s: string) {
    forall i :: 0 <= i < |s| ==> NotAt(s[i]) && NotGap(s[i])
  }

  /** A character that is neither a mark nor a gap stays so when lower-cased. */
  lemma LowerCharKept(c: char)
    requires NotAt(c) && NotGap(c)
    ensures NotAt(LowerChar(c)) && NotGap(LowerChar(c))
  {
    if IsUpperAscii(c) {
      assert 'a' <= LowerChar(c) <= 'z';
    }
  }

  lemma StripClean(t: string)
    ensures Clean(Filter(Filter(t, NotAt), NotGap))
  {
    var u := Filter(t, NotAt);
    var v := Filter(u, NotGap);
    forall i | 0 <= i < |v| ensures NotAt(v[i]) && NotGap(v[i]) {
      assert v[i] in u;
    }
  }

  lemma LowerClean(s: string)
    requires Clean(s)
    ensures Clean(Lower(s))
  {
    forall i | 0 <= i < |s| ensures NotAt(Lower(s)[i]) && NotGap(Lower(s)[i]) {
      LowerCharKept(s[i]);
    }
  }

  lemma CleanTrim(s: string)
    requires Clean(s)
    ensures Trim(s) == s
  {
    forall i | 0 <= i < |s| ensures !IsSpace(s[i]) {
      assert NotGap(s[i]);
    }
    TrimNoSpace(s);
  }

  /** The name key after normalisation: marks and gaps removed, lower-cased,
      trimmed. */
  function KeyOfNormalized(t: string): (r: string)
    ensures Clean(r)
    ensures forall i :: 0 <= i < |r| ==> !IsUpperAscii(r[i])
  {
    var stripped := Filter(Filter(t, NotAt), NotGap);
    StripClean(t);
    LowerClean(stripped);
    CleanTrim(Lower(stripped));
    Trim(Lower(stripped))
  }

  /** `getMatchKey`: `""` for anything but a string; otherwise the key of
      its normalised form. Unicode normalisation (NFKC) is the parameter
      `normalize`. */
  function MatchKey(normalize: string -> string, s: Option<string>): (r: string)
    ensures s.None? ==> r == ""
    ensures s.Some? ==> r == KeyOfNormalized(normalize(s.value))
    ensures Clean(r)
    ensures forall i :: 0 <= i < |r| ==> !IsUpperAscii(r[i])
  {
    match s
    case None => ""
    case Some(v) => KeyOfNormalized(normalize(v))
  }

  /** Lower-casing distributes over concatenation. */
  lemma LowerAppend(a: string, b: string)
    ensures Lower(a + b) == Lower(a) + Lower(b)
  {
    var l, m := Lower(a + b), Lower(a) + Lower(b);
    forall i | 0 <= i < |l| ensures l[i] == m[i] {
      if i < |a| {
        assert (a + b)[i] == a[i];
      } else {
        assert (a + b)[i] == b[i - |a|];
      }
    }
    assert l == m;
  }

  /** A mark or gap anywhere in a normalised name does not change its key:
      `"山田 太郎"`, `"山田太郎@"` and `"山田.太郎"` match each other. */
  lemma {:induction false} KeyIgnoresMarks(a: string, c: char, b: string)
    requires IsAt(c) || IsGap(c)
    ensures KeyOfNormalized(a + [c] + b) == KeyOfNormalized(a + b)
  {
    StripIgnoresMark(a, c, b);
  }

  lemma {:induction false} StripIgnoresMark(a: string, c: char, b: string)
    requires IsAt(c) || IsGap(c)
    ensures Filter(Filter(a + [c] + b, NotAt), NotGap) == Filter(Filter(a + b, NotAt), NotGap)
  {
    FilterAppend(a + [c], b, NotAt);
    FilterAppend(a, [c], NotAt);
    FilterAppend(a, b, NotAt);
    var fa, fc, fb := Filter(a, NotAt), Filter([c], NotAt), Filter(b, NotAt);
    assert Filter(a + [c] + b, NotAt) == fa + fc + fb;
    assert Filter(a + b, NotAt) == fa + fb;
    if IsAt(c) {
      assert fc == [];
      assert fa + fc + fb == fa + fb;
    } else {
      assert fc == [c];
      FilterAppend(fa + fc, fb, NotGap);
      FilterAppend(fa, fc, NotGap);
      FilterAppend(fa, fb, NotGap);
      assert Filter(fc, NotGap) == [];
      assert Filter(fa, NotGap) + [] == Filter(fa, NotGap);
    }
  }

  /** The key of a key is itself: keys are already in normal form once
      normalisation leaves them alone. */
  lemma {:induction false} KeyIdempotent(t: string)
    ensures KeyOfNormalized(KeyOfNormalized(t)) == KeyOfNormalized(t)
  {
    KeyOfPlain(KeyOfNormalized(t));
  }

  lemma {:induction false} FilterKeepsAll(s: string, p: char -> bool)
    requires forall i :: 0 <= i < |s| ==> p(s[i])
    ensures Filter(s, p) == s
  {
    if s != [] {
      FilterKeepsAll(s[1..], p);
      assert [s[0]] + s[1..] == s;
    }
  }

  /** `rd1.find(p => getMatchKey(p.name) === getMatchKey(row.name))`, the
      round-1 lookup of the merge as written (line 87): names are read from
      the `name` column only. */
  function FindRound1(normalize: string -> string, rd1: seq<Row>, row: Row): (r: Option<Row>)
    ensures r.Some? ==> exists i :: 0 <= i < |rd1| && rd1[i] == r.value
                                    && MatchKey(normalize, Get(rd1[i], "name")) == MatchKey(normalize, Get(row, "name"))
                                    && forall j :: 0 <= j < i ==>
                                         MatchKey(normalize, Get(rd1[j], "name")) != MatchKey(normalize, Get(row, "name"))
    ensures r.None? <==> forall j :: 0 <= j < |rd1| ==>
                           MatchKey(normalize, Get(rd1[j], "name")) != MatchKey(normalize, Get(row, "name"))
  {
    Find(rd1, (p: Row) => MatchKey(normalize, Get(p, "name")) == MatchKey(normalize, Get(row, "name")))
  }

  /** The match key a row goes by on the board: that of the name
      `getNameFromRow` finds, under whichever name column the file uses. */
  function RowKey(normalize: string -> string, row: Row): string {
    MatchKey(normalize, Some(NameOf(row)))
  }

  /** `rows.find(p => getMatchKey(getNameFromRow(p)) === rowMatchKey)`: the
      first row of a round whose player has the same key as `row`. The
      hole-by-hole table finds its round rows this way; the corrected merge
      uses it for its round-1 lookup too. */
  function FindByName(normalize: string -> string, rows: seq<Row>, row: Row): (r: Option<Row>)
    ensures r.Some? ==> exists i :: 0 <= i < |rows| && rows[i] == r.value
                                    && RowKey(normalize, rows[i]) == RowKey(normalize, row)
                                    && forall j :: 0 <= j < i ==> RowKey(normalize, rows[j]) != RowKey(normalize, row)
    ensures r.None? <==> forall j :: 0 <= j < |rows| ==> RowKey(normalize, rows[j]) != RowKey(normalize, row)
  {
    FindByKey(rows, (p: Row) => RowKey(normalize, p), RowKey(normalize, row), SameName(normalize, row));
    Find(rows, SameName(normalize, row))
  }

  /** The test the lookup applies to each row: same match key as `row`. */
  function SameName(normalize: string -> string, row: Row): Row -> bool {
    (p: Row) => RowKey(normalize, p) == RowKey(normalize, row)
  }

  /** As written, when no row has a `name` column (the players are listed
      under `Name`, `選手名`, `氏名`, `player` or `Player`), every key is
      empty and every final-round row is merged with the first round-1 row. */
  lemma {:induction false} FindRound1WithoutNameColumn(normalize: string -> string, rd1: seq<Row>, row: Row)
    requires |rd1| > 0
    requires "name" !in row && forall i :: 0 <= i < |rd1| ==> "name" !in rd1[i]
    ensures FindRound1(normalize, rd1, row) == Some(rd1[0])
  {
    FindHead(rd1, (p: Row) => MatchKey(normalize, Get(p, "name")) == MatchKey(normalize, Get(row, "name")));
  }

  /** Where every row has a non-empty `name` cell, the lookup by the shown
      name finds what the lookup as written finds. */
  lemma {:induction false} FindByNameAgrees(normalize: string -> string, rd1: seq<Row>, row: Row)
    requires Present(Get(row, "name"))
    requires forall i :: 0 <= i < |rd1| ==> Present(Get(rd1[i], "name"))
    ensures FindByName(normalize, rd1, row) == FindRound1(normalize, rd1, row)
  {
    NameFromNameColumn(row);
    forall i | 0 <= i < |rd1| ensures RowKey(normalize, rd1[i]) == MatchKey(normalize, Get(rd1[i], "name")) {
      NameFromNameColumn(rd1[i]);
    }
    FindSame(rd1, (p: Row) => RowKey(normalize, p) == RowKey(normalize, row),
                  (p: Row) => MatchKey(normalize, Get(p, "name")) == MatchKey(normalize, Get(row, "name")));
  }

  /** A row with a non-empty `name` cell is shown under that name. */
  lemma NameFromNameColumn(row: Row)
    requires Present(Get(row, "name"))
    ensures Some(NameOf(row)) == Get(row, "name")
  {
    assert NameKeys[0] == "name";
  }

  /** Two round-1 rows and a final-round row that name their players under
      `Name`, the final-round player being the second round-1 player (say
      青木 and 馬場, then 馬場): the lookup as written pairs the final-round
      row with the first player's round, the lookup by the shown name with
      the player's own. */
  lemma MismatchExample(normalize: string -> string, a: Row, b: Row, final: Row, na: string, nb: string)
    requires "name" !in a && "name" !in b && "name" !in final
    requires Get(a, "Name") == Some(na) && Get(b, "Name") == Some(nb) && Get(final, "Name") == Some(nb)
    requires na != nb && na != "" && nb != ""
    requires Plain(na) && Plain(nb) && normalize(na) == na && normalize(nb) == nb
    ensures FindRound1(normalize, [a, b], final) == Some(a)
    ensures FindByName(normalize, [a, b], final) == Some(b)
  {
    FindRound1WithoutNameColumn(normalize, [a, b], final);
    PlainKey(normalize, a, na);
    PlainKey(normalize, b, nb);
    PlainKey(normalize, final, nb);
    FindSecond(a, b, (p: Row) => RowKey(normalize, p) == RowKey(normalize, final));
  }

  /** Which round-1 lookup the merge uses: the page's own (line 87, keys of
      the `name` column) or the corrected one (keys of the shown name, as
      the hole-by-hole table at lines 379-381 does). */
  datatype Lookup = AsWritten | ByShownName

  /** The round-1 row the merge pairs a final-round row with. */
  function FindMatch(lookup: Lookup, normalize: string -> string, rd1: seq<Row>, row: Row): (r: Option<Row>)
    ensures lookup == AsWritten ==> r == FindRound1(normalize, rd1, row)
    ensures lookup == ByShownName ==> r == FindByName(normalize, rd1, row)
    ensures r.Some? ==> r.value in rd1
  {
    match lookup
    case AsWritten => FindRound1(normalize, rd1, row)
    case ByShownName => FindByName(normalize, rd1, row)
  }

  /** A name already in key form: no marks, gaps or upper-case letters. */
  predicate Plain(n: string) {
    Clean(n) && forall i :: 0 <= i < |n| ==> !IsUpperAscii(n[i])
  }

  /** The key of a row naming its player under `Name` only, with a name
      that normalisation leaves alone and that is already in key form. */
  lemma PlainKey(normalize: string -> string, row: Row, n: string)
    requires "name" !in row && Get(row, "Name") == Some(n) && n != ""
    requires Plain(n) && normalize(n) == n
    ensures RowKey(normalize, row) == n
  {
    NameFromSecondColumn(row);
    KeyOfPlain(n);
  }

  lemma NameFromSecondColumn(row: Row)
    requires "name" !in row && Present(Get(row, "Name"))
    ensures NameOf(row) == row["Name"]
  {
    var r := Probe(row, NameKeys);
    assert Present(Get(row, NameKeys[1]));
    var i :| 0 <= i < |NameKeys| && r == Get(row, NameKeys[i])
             && forall j :: 0 <= j < i ==> !Present(Get(row, NameKeys[j]));
    assert i == 1;
  }

  /** A name with no marks, gaps or upper-case letters is its own key. */
  lemma KeyOfPlain(t: string)
    requires Plain(t)
    ensures KeyOfNormalized(t) == t
  {
    FilterKeepsAll(t, NotAt);
    FilterKeepsAll(t, NotGap);
    assert Lower(t) == t;
    CleanTrim(t);
  }

  // ---------------------------------------------------------------------------
  // Hole-by-hole cells

  /** `getScoreSymbol` once both cells are known numbers: the classification
      of the difference in strokes against par. */
  function DiffSymbol(d: int): (r: string)
    ensures r != ""
    ensures d <= -2 <==> r == "◎"
    ensures d == -1 <==> r == "○"
    ensures d == 0 <==> r == "－"
    ensures d == 1 <==> r == "△"
    ensures d == 2 <==> r == "□"
    ensures d >= 3 <==> r[0] == '+'
    ensures d >= 3 ==> r == RelToPar(d)
  {
    if d <= -2 then "◎"
    else if d == -1 then "○"
    else if d == 0 then "－"
    else if d == 1 then "△"
    else if d == 2 then "□"
    else RelToPar(d)
  }

  /** `parseInt(String(v || "").trim(), 10)`. */
  function CellNumber(v: Value): Option<int> {
    ParseInt(Trim(ToText(Or(v, Str("")))))
  }

  /** `getScoreSymbol` on the parsed cells: no symbol unless both hold a
      non-zero number, then the classification of their difference. */
  function Symbol(score: Option<int>, par: Option<int>): (r: string)
    ensures Blank(score) || Blank(par) ==> r == ""
    ensures !Blank(score) && !Blank(par) ==> r != "" && r == DiffSymbol(score.value - par.value)
  {
    if Blank(score) || Blank(par) then ""
    else DiffSymbol(score.value - par.value)
  }

  /** `getScoreSymbol(scoreVal, parVal)`. */
  function ScoreSymbol(scoreVal: Value, parVal: Value): string {
    Symbol(CellNumber(scoreVal), CellNumber(parVal))
  }

  /** A cell `getScoreSymbol` gives no symbol for: not a number, or zero
      (both falsy once parsed). */
  predicate Blank(n: Option<int>) {
    n.None? || n.value == 0
  }

  /** A hole score written as a number `d` strokes away from a par written as
      a number gets the symbol of `d`: the classification reads through the
      cells' text. */
  lemma {:induction false} ScoreSymbolOfNumbers(x: Value, y: Value, n: int, par: int)
    requires CellNumber(x) == Some(n) && CellNumber(y) == Some(par)
    requires n != 0 && par != 0
    ensures ScoreSymbol(x, y) == DiffSymbol(n - par)
  {
    ScoreSymbolOfCells(x, y, n, par);
    SymbolOfNumbers(n, par);
  }

  /** Once both cells read as numbers, the symbol is read from the numbers. */
  lemma ScoreSymbolOfCells(x: Value, y: Value, n: int, par: int)
    requires CellNumber(x) == Some(n) && CellNumber(y) == Some(par)
    ensures ScoreSymbol(x, y) == Symbol(Some(n), Some(par))
  {
  }

  lemma SymbolOfNumbers(n: int, par: int)
    requires par != 0 && n != 0
    ensures Symbol(Some(n), Some(par)) == DiffSymbol(n - par)
  {
  }

  /** A cell holding the decimal text of a number reads as that number. */
  lemma CellNumberOfInt(n: int)
    ensures CellNumber(Str(IntToString(n))) == Some(n)
  {
    var s := IntToString(n);
    assert Or(Str(s), Str("")) == Str(s);
    assert ToText(Str(s)) == s;
    TrimNoSpaceDigits(n);
    IntToStringRoundTrip(n);
  }

  lemma TrimNoSpaceDigits(n: int)
    ensures Trim(IntToString(n)) == IntToString(n)
  {
    var s := IntToString(n);
    forall i | 0 <= i < |s| ensures !IsSpace(s[i]) {
      if n < 0 && i > 0 {
        assert s[i] == s[1..][i - 1];
        assert IsDigit(s[1..][i - 1]);
      }
    }
    TrimNoSpace(s);
  }

  /** The keys a hole's cell may come under: `h{i}`, `H{i}`, `{i}`. */
  function HoleKeys(i: int): (keys: seq<string>)
    ensures |keys| == 3
  {
    ["h" + IntToString(i), "H" + IntToString(i), IntToString(i)]
  }

  /** `row[`h${i}`] || row[`H${i}`] || row[`${i}`]`. */
  function HoleCell(row: Row, i: int): Value {
    OfOption(Probe(row, HoleKeys(i)))
  }

  /** The symbol under hole `i` of a round (lines 427-429 and 441-443). */
  function HoleSymbol(rData: Row, par: Option<Row>, i: int): (r: string)
    ensures par.None? ==> r == ""
  {
    ScoreSymbol(HoleCell(rData, i), if par.Some? then HoleCell(par.value, i) else Undefined)
  }

  /** `hasHoleByHole`: the par row has a first-hole cell. */
  predicate HasHoleByHole(par: Option<Row>) {
    par.Some? && Present(Probe(par.value, HoleKeys(1)))
  }

  /** The strokes `sumHoles` counts for hole `i`: the hole's cell, `'0'`
      when empty, read by `parseInt`; nothing when it does not parse. */
  function HoleValue(row: Row, i: int): (v: int)
    ensures !Present(Probe(row, HoleKeys(i))) ==> v == 0
  {
    DigitsRead("0");
    match ParseInt(ProbeOr(row, HoleKeys(i), "0"))
    case Some(v) => v
    case None => 0
  }

  /** `f(start) + … + f(end)`, zero when the range is empty. */
  function Total(f: int -> int, start: int, end: int): int
    decreases end - start + 1
  {
    if end < start then 0 else Total(f, start, end - 1) + f(end)
  }

  /** A sum over a range is the sum over its two halves. */
  lemma {:induction false} TotalSplit(f: int -> int, a: int, b: int, c: int)
    requires a - 1 <= b <= c
    ensures Total(f, a, c) == Total(f, a, b) + Total(f, b + 1, c)
    decreases c - b
  {
    if c > b {
      TotalSplit(f, a, b, c - 1);
    }
  }

  /** The total of holes `start` to `end` inclusive. */
  function HoleSum(row: Row, start: int, end: int): int {
    Total((i: int) => HoleValue(row, i), start, end)
  }

  /** What `sumHoles` returns: the total when positive, `'-'` otherwise. */
  function HolesCell(row: Row, start: int, end: int): (r: Value)
    ensures r.Num? <==> HoleSum(row, start, end) > 0
    ensures r.Num? ==> r.n == HoleSum(row, start, end)
    ensures r.Str? ==> r.s == "-"
  {
    var sum := HoleSum(row, start, end);
    if sum > 0 then Num(sum) else Str("-")
  }

  /** `sumHoles(row, start, end)`, with its accumulating loop. */
  method SumHoles(row: Row, start: int, end: int) returns (r: Value)
    ensures r == HolesCell(row, start, end)
  {
    var sum := 0;
    var i := start;
    while i <= end
      invariant start <= i && (i <= end + 1 || i == start)
      invariant sum == HoleSum(row, start, i - 1)
      decreases end - i + 1
    {
      var v := ParseInt(ProbeOr(row, HoleKeys(i), "0"));
      ghost var before := sum;
      if v.Some? {
        sum := sum + v.value;
      }
      assert sum == before + HoleValue(row, i);
      HoleSumNext(row, start, i);
      i := i + 1;
    }
    assert i - 1 == end || end < start;
    r := if sum > 0 then Num(sum) else Str("-");
  }

  /** One more hole added to the total. */
  lemma HoleSumNext(row: Row, start: int, i: int)
    requires start <= i
    ensures HoleSum(row, start, i) == HoleSum(row, start, i - 1) + HoleValue(row, i)
  {
  }

  /** The holes of a round add up as the two nines do. */
  lemma {:induction false} HoleSumSplit(row: Row, a: int, b: int, c: int)
    requires a - 1 <= b <= c
    ensures HoleSum(row, a, c) == HoleSum(row, a, b) + HoleSum(row, b + 1, c)
  {
    TotalSplit((i: int) => HoleValue(row, i), a, b, c);
  }

  /** A row without any hole cell in the range sums to `'-'`. */
  lemma {:induction false} NoHolesDash(row: Row, start: int, end: int)
    requires forall i :: start <= i <= end ==> !Present(Probe(row, HoleKeys(i)))
    ensures HoleSum(row, start, end) == 0
    ensures HolesCell(row, start, end) == Str("-")
    decreases end - start + 1
  {
    if end >= start {
      NoHolesDash(row, start, end - 1);
    }
  }

  // ---------------------------------------------------------------------------
  // Par row and competitors

  /** The par reference: the supplied par row, else the first row ranked
      `PAR`, else the first row. */
  function ParRow(parRow: Option<Row>, results: seq<Row>): (r: Option<Row>)
    ensures parRow.Some? ==> r == parRow
    ensures parRow.None? ==> (r.None? <==> |results| == 0)
    ensures parRow.None? && r.Some? && RankIs(r.value, "PAR") ==>
              exists i :: 0 <= i < |results| && results[i] == r.value
                          && forall j :: 0 <= j < i ==> !RankIs(results[j], "PAR")
    ensures parRow.None? && r.Some? && !RankIs(r.value, "PAR") ==>
              r.value == results[0] && forall j :: 0 <= j < |results| ==> !RankIs(results[j], "PAR")
  {
    if parRow.Some? then parRow
    else match Find(results, (r: Row) => RankIs(r, "PAR"))
      case Some(p) => Some(p)
      case None => if |results| > 0 then Some(results[0]) else None
  }

  /** `playerResults.filter(r => r && r.rank !== 'PAR')`. */
  function Competitors(results: seq<Row>): seq<Row> {
    Filter(results, (r: Row) => !RankIs(r, "PAR"))
  }

  /** The competitors are the rows not ranked `PAR`, in their order. */
  lemma CompetitorsSpec(results: seq<Row>)
    ensures forall i :: 0 <= i < |Competitors(results)| ==> !RankIs(Competitors(results)[i], "PAR")
    ensures forall i :: 0 <= i < |results| && !RankIs(results[i], "PAR") ==> results[i] in Competitors(results)
    ensures SubseqOf(Competitors(results), results)
  {
    FilterSubseq(results, (r: Row) => !RankIs(r, "PAR"));
  }

  // ---------------------------------------------------------------------------
  // Merging the two rounds

  /** A row of the two-round board: the final-round CSV row with the computed
      fields the page adds to it. */
  datatype Standing = Standing(
    row: Row,
    r1Score: Value,
    r2Score: Value,
    displayTotal: Value,
    displayScore: Value,
    sortValue: int,
    displayRank: Value)

  /** The sort value of a row whose rounds could not be added up. */
  const Unmatched: int := 99999
  /** The sort value of a row that did not start, return or qualify. */
  const AtBottom: int := 999999
  /** Sort values from here on are placeholders, never rescored. */
  const RescoreBelow: int := 9000

  /** The round-2 total columns, in the order the page tries them. */
  const TotalKeys: seq<string> := ["total", "TOTAL", "Total", "in"]

  /** `parseInt(v, 10)` on a cell that may be missing (`undefined` does
      not parse). */
  function Strokes(v: Value): Option<int> {
    ParseInt(ToText(v))
  }

  /** The combined strokes of a final-round row: its round-1 row's total plus
      its own, when a round-1 row matches and both totals parse. */
  function Combined(lookup: Lookup, normalize: string -> string, rd1: seq<Row>, row: Row): (r: Option<int>)
    ensures r.Some? <==> FindMatch(lookup, normalize, rd1, row).Some?
                         && Strokes(OfOption(Get(FindMatch(lookup, normalize, rd1, row).value, "total"))).Some?
                         && Strokes(OfOption(Probe(row, TotalKeys))).Some?
    ensures r.Some? ==> r.value == Strokes(OfOption(Get(FindMatch(lookup, normalize, rd1, row).value, "total"))).value
                                   + Strokes(OfOption(Probe(row, TotalKeys))).value
  {
    CombinedWith(FindMatch(lookup, normalize, rd1, row), row)
  }

  /** The combined strokes of a final-round row paired with round-1 row `m`. */
  function CombinedWith(m: Option<Row>, row: Row): Option<int> {
    match m
    case None => None
    case Some(p) =>
      var v1 := Strokes(OfOption(Get(p, "total")));
      var v2 := Strokes(OfOption(Probe(row, TotalKeys)));
      if v1.Some? && v2.Some? then Some(v1.value + v2.value) else None
  }

  /** `parseInt(par.total, 10)` when the par row has a non-empty total. */
  function ParTotal(par: Option<Row>): Option<int> {
    if par.Some? && Present(Get(par.value, "total")) then ParseInt(Get(par.value, "total").value) else None
  }

  /** The score to par after the merge: recomputed from the sort value against
      twice the course par when the par row has a total that parses and the
      sort value is a real stroke count; the row's own `score` otherwise. */
  function RescoredScore(par: Option<Row>, sortValue: int, score: Value): (r: Value)
    ensures ParTotal(par).Some? && sortValue < RescoreBelow ==>
              var d := sortValue - 2 * ParTotal(par).value;
              r == Str(RelToPar(d))
    ensures ParTotal(par).None? || sortValue >= RescoreBelow ==> r == score
  {
    if par.Some? && Present(Get(par.value, "total")) && sortValue < RescoreBelow then
      var pTotal := ParseInt(Get(par.value, "total").value);
      assert pTotal == ParTotal(par);
      if pTotal.Some? then Str(RelToPar(sortValue - 2 * pTotal.value)) else score
    else score
  }

  /** One final-round row merged with its first round (lines 78-124). */
  function Merge(lookup: Lookup, normalize: string -> string, rd1: seq<Row>, par: Option<Row>, row: Row): (st: Standing)
    ensures st.row == row
    ensures st.r2Score == OfOption(Probe(row, TotalKeys))
    ensures FindMatch(lookup, normalize, rd1, row).Some? ==>
              st.r1Score == OfOption(Get(FindMatch(lookup, normalize, rd1, row).value, "total"))
    ensures FindMatch(lookup, normalize, rd1, row).None? ==> st.r1Score == OfOption(Probe(row, ["out", "OUT"]))
    ensures IsSpecial(row) ==> st.sortValue == AtBottom
    ensures !IsSpecial(row) && Combined(lookup, normalize, rd1, row).Some? ==>
              st.sortValue == Combined(lookup, normalize, rd1, row).value
    ensures !IsSpecial(row) && Combined(lookup, normalize, rd1, row).None? ==> st.sortValue == Unmatched
    ensures Combined(lookup, normalize, rd1, row).Some? ==> st.displayTotal == Num(Combined(lookup, normalize, rd1, row).value)
    ensures Combined(lookup, normalize, rd1, row).None? ==> st.displayTotal == st.r2Score
    ensures st.displayScore == RescoredScore(par, st.sortValue, OfOption(Get(row, "score")))
  {
    MergeWith(FindMatch(lookup, normalize, rd1, row), par, row)
  }

  /** A final-round row merged with round-1 row `m` (none when unmatched). */
  function MergeWith(m: Option<Row>, par: Option<Row>, row: Row): Standing {
    var r2Score := OfOption(Probe(row, TotalKeys));
    var r1Score := if m.Some? then OfOption(Get(m.value, "total")) else OfOption(Probe(row, ["out", "OUT"]));
    var combined := CombinedWith(m, row);
    var displayTotal := if combined.Some? then Num(combined.value) else r2Score;
    var sortValue := if IsSpecial(row) then AtBottom else if combined.Some? then combined.value else Unmatched;
    Standing(row, r1Score, r2Score, displayTotal,
             RescoredScore(par, sortValue, OfOption(Get(row, "score"))),
             sortValue, OfOption(Get(row, "displayRank")))
  }

  /** A special row is never rescored: its sort value is past the limit. */
  lemma SpecialKeepsScore(lookup: Lookup, normalize: string -> string, rd1: seq<Row>, par: Option<Row>, row: Row)
    requires IsSpecial(row)
    ensures Merge(lookup, normalize, rd1, par, row).displayScore == OfOption(Get(row, "score"))
  {
  }

  /** The example of the lookup as written, carried to the board: a
      final-round row for the second of two players listed under `Name` is
      added to the first player's round-1 total by the page, and to its own
      by the corrected lookup. */
  lemma MergeMismatch(normalize: string -> string, par: Option<Row>, a: Row, b: Row, final: Row,
                      na: string, nb: string, ta: int, tb: int, t2: int)
    requires "name" !in a && "name" !in b && "name" !in final
    requires Get(a, "Name") == Some(na) && Get(b, "Name") == Some(nb) && Get(final, "Name") == Some(nb)
    requires na != nb && na != "" && nb != ""
    requires Plain(na) && Plain(nb) && normalize(na) == na && normalize(nb) == nb
    requires !IsSpecial(final)
    requires Strokes(OfOption(Get(a, "total"))) == Some(ta) && Strokes(OfOption(Get(b, "total"))) == Some(tb)
    requires Strokes(OfOption(Probe(final, TotalKeys))) == Some(t2)
    ensures Merge(AsWritten, normalize, [a, b], par, final).sortValue == ta + t2
    ensures Merge(AsWritten, normalize, [a, b], par, final).r1Score == OfOption(Get(a, "total"))
    ensures Merge(ByShownName, normalize, [a, b], par, final).sortValue == tb + t2
    ensures Merge(ByShownName, normalize, [a, b], par, final).r1Score == OfOption(Get(b, "total"))
  {
    MismatchExample(normalize, a, b, final, na, nb);
    MergeFound(AsWritten, normalize, [a, b], par, final, a, ta, t2);
    MergeFound(ByShownName, normalize, [a, b], par, final, b, tb, t2);
  }

  /** A non-special final-round row paired with round-1 row `p`, both totals
      parsing, sorts at their sum and shows `p`'s total as its first round. */
  lemma MergeFound(lookup: Lookup, normalize: string -> string, rd1: seq<Row>, par: Option<Row>, row: Row,
                   p: Row, t1: int, t2: int)
    requires FindMatch(lookup, normalize, rd1, row) == Some(p) && !IsSpecial(row)
    requires Strokes(OfOption(Get(p, "total"))) == Some(t1) && Strokes(OfOption(Probe(row, TotalKeys))) == Some(t2)
    ensures Merge(lookup, normalize, rd1, par, row).sortValue == t1 + t2
    ensures Merge(lookup, normalize, rd1, par, row).r1Score == OfOption(Get(p, "total"))
  {
    assert Combined(lookup, normalize, rd1, row).Some? && Combined(lookup, normalize, rd1, row).value == t1 + t2;
  }

  /** Where every round-1 row and every competitor has a non-empty `name`
      cell, the page as written and the corrected page build the same
      board. */
  lemma {:induction false} BoardsAgree(normalize: string -> string, rd1: seq<Row>, rd2: seq<Row>, parRow: Option<Row>, results: seq<Row>)
    requires forall i :: 0 <= i < |rd1| ==> Present(Get(rd1[i], "name"))
    requires forall i :: 0 <= i < |results| ==> Present(Get(results[i], "name"))
    ensures BoardOf(AsWritten, normalize, rd1, rd2, parRow, results)
            == BoardOf(ByShownName, normalize, rd1, rd2, parRow, results)
  {
    var par := ParRow(parRow, results);
    var players := Competitors(results);
    CompetitorsSpec(results);
    forall i | 0 <= i < |players| ensures Present(Get(players[i], "name")) {
      var k :| 0 <= k < |results| && results[k] == players[i];
    }
    MergedRowsAgree(normalize, rd1, par, players);
  }

  lemma MergedRowsAgree(normalize: string -> string, rd1: seq<Row>, par: Option<Row>, players: seq<Row>)
    requires forall i :: 0 <= i < |rd1| ==> Present(Get(rd1[i], "name"))
    requires forall i :: 0 <= i < |players| ==> Present(Get(players[i], "name"))
    ensures MergedRows(AsWritten, normalize, rd1, par, players) == MergedRows(ByShownName, normalize, rd1, par, players)
  {
    forall i | 0 <= i < |players|
      ensures Merge(AsWritten, normalize, rd1, par, players[i]) == Merge(ByShownName, normalize, rd1, par, players[i])
    {
      FindByNameAgrees(normalize, rd1, players[i]);
      MergeSameMatch(normalize, rd1, par, players[i]);
    }
  }

  /** The merge depends on the lookup only through the row it finds. */
  lemma MergeSameMatch(normalize: string -> string, rd1: seq<Row>, par: Option<Row>, row: Row)
    requires FindRound1(normalize, rd1, row) == FindByName(normalize, rd1, row)
    ensures Merge(AsWritten, normalize, rd1, par, row) == Merge(ByShownName, normalize, rd1, par, row)
  {
    assert FindMatch(AsWritten, normalize, rd1, row) == FindMatch(ByShownName, normalize, rd1, row);
  }

  // ---------------------------------------------------------------------------
  // Ranks

  predicate Special(st: Standing) {
    IsSpecial(st.row)
  }

  /** Row `j` ties with the row before it: neither is special and their sort
      values are equal. */
  predicate Linked(s: seq<Standing>, j: int) {
    0 < j < |s| && !Special(s[j]) && !Special(s[j - 1]) && s[j].sortValue == s[j - 1].sortValue
  }

  /** The first row of the run of tied rows that row `j` belongs to. */
  function RunStart(s: seq<Standing>, j: int): (k: nat)
    requires 0 <= j < |s|
    ensures k <= j && !Linked(s, k)
    ensures forall m :: k < m <= j ==> Linked(s, m)
    decreases j
  {
    if Linked(s, j) then RunStart(s, j - 1) else j
  }

  /** Row `j` is tied with a neighbour among the first `n` rows. */
  predicate InTie(s: seq<Standing>, n: nat, j: int) {
    Linked(s, j) || (j + 1 < n && Linked(s, j + 1))
  }

  /** The rank of row `j` once the first `n` rows are ranked: a special row
      shows its own token, a tied row `T` and the position of its run's
      first row, any other row its position. */
  function Label(s: seq<Standing>, n: nat, j: int): Value
    requires 0 <= j < n <= |s|
  {
    if Special(s[j]) then OfOption(Get(s[j].row, "rank"))
    else if InTie(s, n, j) then Str("T" + IntToString(RunStart(s, j) + 1))
    else Num(j + 1)
  }

  /** Every row with its final rank. */
  function Ranked(s: seq<Standing>): (r: seq<Standing>)
    ensures |r| == |s|
    ensures forall j :: 0 <= j < |s| ==> r[j] == s[j].(displayRank := Label(s, |s|, j))
  {
    seq(|s|, j requires 0 <= j < |s| => s[j].(displayRank := Label(s, |s|, j)))
  }

  lemma NumberTextNotT(n: nat)
    ensures !StartsWith(IntToString(n), "T")
  {
    var t := IntToString(n);
    assert IsDigit(t[0]);
  }

  /** The rank pass (lines 130-156): each row's rank is written in place, and
      a tie rewrites the previous row's rank as well. */
  method AssignRanks(a: array<Standing>)
    modifies a
    ensures a[..] == Ranked(old(a[..]))
  {
    ghost var s := a[..];
    var i := 0;
    while i < a.Length
      invariant 0 <= i <= a.Length
      invariant forall j :: 0 <= j < i ==> a[j] == s[j].(displayRank := Label(s, i, j))
      invariant forall j :: i <= j < a.Length ==> a[j] == s[j]
    {
      var p := a[i];
      if IsSpecial(p.row) {
        LabelsAfterSpecial(s, i);
        RankAlone(a, i, s, OfOption(Get(p.row, "rank")));
      } else if i > 0 && p.sortValue == a[i - 1].sortValue && !IsSpecial(a[i - 1].row) {
        assert Linked(s, i);
        RankTied(a, i, s);
      } else {
        assert !Linked(s, i);
        LabelsAfterSpecial(s, i);
        RankAlone(a, i, s, Num(i + 1));
      }
      i := i + 1;
    }
  }

  /** A row that does not tie with the row before it gets its own rank
      `rank`; the rows before it keep theirs. */
  method RankAlone(a: array<Standing>, i: nat, ghost s: seq<Standing>, rank: Value)
    requires i < a.Length == |s| && !Linked(s, i) && rank == Label(s, i + 1, i)
    requires forall j :: 0 <= j < i ==> a[j] == s[j].(displayRank := Label(s, i, j))
    requires forall j :: i <= j < a.Length ==> a[j] == s[j]
    modifies a
    ensures forall j :: 0 <= j < i + 1 ==> a[j] == s[j].(displayRank := Label(s, i + 1, j))
    ensures forall j :: i + 1 <= j < a.Length ==> a[j] == s[j]
  {
    a[i] := a[i].(displayRank := rank);
    LabelsAfterSpecial(s, i);
  }

  /** Lines 139-150: a row tied with the row before it takes that row's rank,
      which gets a `T` first when it has none yet. */
  method RankTied(a: array<Standing>, i: nat, ghost s: seq<Standing>)
    requires i < a.Length == |s| && Linked(s, i)
    requires forall j :: 0 <= j < i ==> a[j] == s[j].(displayRank := Label(s, i, j))
    requires forall j :: i <= j < a.Length ==> a[j] == s[j]
    modifies a
    ensures forall j :: 0 <= j < i + 1 ==> a[j] == s[j].(displayRank := Label(s, i + 1, j))
    ensures forall j :: i + 1 <= j < a.Length ==> a[j] == s[j]
  {
    var p := a[i];
    var shared := a[i - 1].displayRank;
    var prevText := ToText(shared);
    if !StartsWith(prevText, "T") {
      a[i - 1] := a[i - 1].(displayRank := Str("T" + prevText));
    }
    var currText := ToText(shared);
    var cur := if StartsWith(currText, "T") then shared else Str("T" + currText);
    a[i] := p.(displayRank := cur);
    LabelsAfterTie(s, i);
    if Linked(s, i - 1) {
      assert shared == Str("T" + IntToString(RunStart(s, i - 1) + 1));
    } else {
      assert shared == Num(i);
      NumberTextNotT(i);
    }
  }

  /** When row `i` does not tie with the row before it, ranking it leaves the
      earlier ranks as they were. */
  lemma LabelsAfterSpecial(s: seq<Standing>, i: nat)
    requires i < |s| && !Linked(s, i)
    ensures forall j :: 0 <= j < i ==> Label(s, i + 1, j) == Label(s, i, j)
    ensures !Special(s[i]) ==> Label(s, i + 1, i) == Num(i + 1)
    ensures Special(s[i]) ==> Label(s, i + 1, i) == OfOption(Get(s[i].row, "rank"))
  {
  }

  /** When row `i` ties with the row before it, both carry the run's
      `T`-rank and the rows before them keep theirs. */
  lemma LabelsAfterTie(s: seq<Standing>, i: nat)
    requires i < |s| && Linked(s, i)
    ensures forall j :: 0 <= j < i - 1 ==> Label(s, i + 1, j) == Label(s, i, j)
    ensures Label(s, i + 1, i - 1) == Str("T" + IntToString(RunStart(s, i - 1) + 1))
    ensures Label(s, i + 1, i) == Label(s, i + 1, i - 1)
    ensures Linked(s, i - 1) ==> Label(s, i, i - 1) == Label(s, i + 1, i - 1)
    ensures !Linked(s, i - 1) ==> Label(s, i, i - 1) == Num(i) && RunStart(s, i - 1) == i - 1
  {
  }

  // ---------------------------------------------------------------------------
  // The board

  /** The order `players.sort((a, b) => a.sortValue - b.sortValue)` uses. */
  function SortKey(st: Standing): Key {
    [st.sortValue]
  }

  lemma SortKeyOrder(a: Standing, b: Standing)
    ensures KeyLe(SortKey(a), SortKey(b)) <==> a.sortValue <= b.sortValue
  {
    assert SortKey(a)[1..] == [];
  }

  /** Every competitor merged with its first round. */
  function MergedRows(lookup: Lookup, normalize: string -> string, rd1: seq<Row>, par: Option<Row>, players: seq<Row>): (r: seq<Standing>)
    ensures |r| == |players|
    ensures forall i :: 0 <= i < |players| ==> r[i] == Merge(lookup, normalize, rd1, par, players[i])
  {
    seq(|players|, i requires 0 <= i < |players| => Merge(lookup, normalize, rd1, par, players[i]))
  }

  /** The merged competitors in sort order, before ranking. */
  function Standings(lookup: Lookup, normalize: string -> string, rd1: seq<Row>, parRow: Option<Row>, results: seq<Row>): seq<Standing> {
    SortBy(MergedRows(lookup, normalize, rd1, ParRow(parRow, results), Competitors(results)), SortKey)
  }

  /** The two-round board: merged, sorted and ranked. */
  function Leaderboard(lookup: Lookup, normalize: string -> string, rd1: seq<Row>, parRow: Option<Row>, results: seq<Row>): seq<Standing> {
    Ranked(Standings(lookup, normalize, rd1, parRow, results))
  }

  /** What the page lists: the ranked board with round data, the raw
      competitor rows in their own order without. */
  datatype Board = Rounds(standings: seq<Standing>) | Single(rows: seq<Row>)

  function BoardOf(lookup: Lookup, normalize: string -> string, rd1: seq<Row>, rd2: seq<Row>, parRow: Option<Row>, results: seq<Row>): (b: Board)
    ensures b.Rounds? <==> HasRoundData(rd1, rd2)
    ensures b.Single? ==> b.rows == Competitors(results)
  {
    if HasRoundData(rd1, rd2) then Rounds(Leaderboard(lookup, normalize, rd1, parRow, results))
    else Single(Competitors(results))
  }

  /** Lines 75-157: the players list the page renders, computed with the
      in-place sort and the in-place rank pass. */
  method BuildBoard(lookup: Lookup, normalize: string -> string, rd1: seq<Row>, rd2: seq<Row>, parRow: Option<Row>, results: seq<Row>)
    returns (b: Board)
    ensures b == BoardOf(lookup, normalize, rd1, rd2, parRow, results)
  {
    var players := Competitors(results);
    if HasRoundData(rd1, rd2) {
      var par := ParRow(parRow, results);
      var merged := MergedRows(lookup, normalize, rd1, par, players);
      var a := new Standing[|merged|](i requires 0 <= i < |merged| => merged[i]);
      assert a[..] == merged;
      SortInPlace(a, SortKey);
      AssignRanks(a);
      b := Rounds(a[..]);
    } else {
      b := Single(players);
    }
  }

  // ---------------------------------------------------------------------------
  // What the board guarantees

  function RowOf(st: Standing): Row {
    st.row
  }

  /** The CSV rows under a list of standings. */
  function RowsOf(s: seq<Standing>): seq<Row> {
    MapSeq(s, RowOf)
  }

  /** Every competitor appears on the board exactly as often as in the input
      rows: the board is a rearrangement of the competitors. */
  lemma {:induction false} LeaderboardPermutation(lookup: Lookup, normalize: string -> string, rd1: seq<Row>, parRow: Option<Row>, results: seq<Row>)
    ensures multiset(RowsOf(Leaderboard(lookup, normalize, rd1, parRow, results))) == multiset(Competitors(results))
  {
    var merged := MergedRows(lookup, normalize, rd1, ParRow(parRow, results), Competitors(results));
    var t := Standings(lookup, normalize, rd1, parRow, results);
    SortByMap(merged, SortKey, RowOf);
    RanksKeepRows(t);
    MergeKeepsRows(lookup, normalize, rd1, ParRow(parRow, results), Competitors(results));
  }

  /** Ranking changes no row. */
  lemma RanksKeepRows(t: seq<Standing>)
    ensures RowsOf(Ranked(t)) == RowsOf(t)
  {
    assert forall j :: 0 <= j < |t| ==> RowsOf(Ranked(t))[j] == RowsOf(t)[j];
  }

  /** Merging keeps each CSV row, in its place. */
  lemma MergeKeepsRows(lookup: Lookup, normalize: string -> string, rd1: seq<Row>, par: Option<Row>, players: seq<Row>)
    ensures RowsOf(MergedRows(lookup, normalize, rd1, par, players)) == players
  {
    var m := MergedRows(lookup, normalize, rd1, par, players);
    assert forall j :: 0 <= j < |m| ==> RowsOf(m)[j] == players[j];
  }

  /** After the sort the sort values never decrease down the board. */
  lemma {:induction false} LeaderboardSorted(lookup: Lookup, normalize: string -> string, rd1: seq<Row>, parRow: Option<Row>, results: seq<Row>)
    ensures forall i, j :: 0 <= i < j < |Leaderboard(lookup, normalize, rd1, parRow, results)| ==>
              Leaderboard(lookup, normalize, rd1, parRow, results)[i].sortValue
              <= Leaderboard(lookup, normalize, rd1, parRow, results)[j].sortValue
  {
    var merged := MergedRows(lookup, normalize, rd1, ParRow(parRow, results), Competitors(results));
    var t := SortBy(merged, SortKey);
    SortBySorted(merged, SortKey);
    forall i, j | 0 <= i < j < |t| ensures t[i].sortValue <= t[j].sortValue {
      SortKeyOrder(t[i], t[j]);
    }
  }

  /** Special rows carry the bottom sort value after the sort too. */
  lemma SpecialAtBottom(lookup: Lookup, normalize: string -> string, rd1: seq<Row>, parRow: Option<Row>, results: seq<Row>)
    ensures forall k :: (0 <= k < |Standings(lookup, normalize, rd1, parRow, results)|
                         && Special(Standings(lookup, normalize, rd1, parRow, results)[k])) ==>
              Standings(lookup, normalize, rd1, parRow, results)[k].sortValue == AtBottom
  {
    forall k | 0 <= k < |Standings(lookup, normalize, rd1, parRow, results)| &&
               Special(Standings(lookup, normalize, rd1, parRow, results)[k])
      ensures Standings(lookup, normalize, rd1, parRow, results)[k].sortValue == AtBottom
    {
      var merged := MergedRows(lookup, normalize, rd1, ParRow(parRow, results), Competitors(results));
      SortByOrigin(merged, SortKey, k);
      var i :| 0 <= i < |merged| && Standings(lookup, normalize, rd1, parRow, results)[k] == merged[i];
      assert merged[i] == Merge(lookup, normalize, rd1, ParRow(parRow, results), Competitors(results)[i]);
    }
  }

  /** DNS, NR and DQ rows come after every row with a real or unmatched sort
      value. */
  lemma {:induction false} SpecialRowsLast(lookup: Lookup, normalize: string -> string, rd1: seq<Row>, parRow: Option<Row>, results: seq<Row>)
    ensures forall i, j :: (0 <= i < |Leaderboard(lookup, normalize, rd1, parRow, results)|
                            && 0 <= j < |Leaderboard(lookup, normalize, rd1, parRow, results)|
                            && Special(Leaderboard(lookup, normalize, rd1, parRow, results)[i])
                            && Leaderboard(lookup, normalize, rd1, parRow, results)[j].sortValue < AtBottom) ==> j < i
  {
    var b := Leaderboard(lookup, normalize, rd1, parRow, results);
    LeaderboardSorted(lookup, normalize, rd1, parRow, results);
    SpecialAtBottom(lookup, normalize, rd1, parRow, results);
  }

  /** A tied row's rank is `T` and a number, never `TT`: the text after the
      `T` is the position of the run's first row. */
  lemma {:induction false} TieLabelShape(s: seq<Standing>, j: int)
    requires 0 <= j < |s| && !Special(s[j]) && InTie(s, |s|, j)
    ensures Label(s, |s|, j).Str?
    ensures var t := Label(s, |s|, j).s;
              |t| >= 2 && t[0] == 'T' && t[1] != 'T'
              && NumberOf(t[1..]) == Some(RunStart(s, j) + 1)
  {
    var n := RunStart(s, j) + 1;
    var u := IntToString(n);
    assert Label(s, |s|, j) == Str("T" + u);
    var t := "T" + u;
    assert t[1..] == u && t[1] == u[0];
    assert IsDigit(u[0]);
    IntToStringRoundTrip(n);
  }

  /** Tied rows share one rank, and a run of ties is labelled by its first
      row's position. */
  lemma {:induction false} TiesShareRank(s: seq<Standing>, j: int)
    requires Linked(s, j)
    ensures Label(s, |s|, j) == Label(s, |s|, j - 1)
    ensures Label(s, |s|, j) == Str("T" + IntToString(RunStart(s, j) + 1))
  {
  }

  /** A row tied with nobody has its position as a number. */
  lemma {:induction false} UntiedRank(s: seq<Standing>, j: int)
    requires 0 <= j < |s| && !Special(s[j]) && !InTie(s, |s|, j)
    ensures Label(s, |s|, j) == Num(j + 1)
  {
  }

  /** On a sorted board whose special rows sit at the bottom, the run a
      regular row belongs to starts after exactly the rows with fewer
      strokes: its rank is one more than the number of players ahead. */
  lemma {:induction false} RunStartCountsBetter(s: seq<Standing>, j: int)
    requires forall a, b :: 0 <= a < b < |s| ==> s[a].sortValue <= s[b].sortValue
    requires forall k :: 0 <= k < |s| && Special(s[k]) ==> s[k].sortValue == AtBottom
    requires 0 <= j < |s| && !Special(s[j]) && s[j].sortValue < AtBottom
    ensures forall k :: 0 <= k < |s| ==> (k < RunStart(s, j) <==> s[k].sortValue < s[j].sortValue)
  {
    var r := RunStart(s, j);
    RunEqual(s, j);
    if r > 0 {
      assert !Special(s[r]);
      assert s[r - 1].sortValue < s[r].sortValue;
    }
    forall k | 0 <= k < |s| ensures k < r <==> s[k].sortValue < s[j].sortValue {
      if k < r {
        assert s[k].sortValue <= s[r - 1].sortValue;
      } else if k <= j {
        assert s[k].sortValue == s[j].sortValue;
      } else {
        assert s[j].sortValue <= s[k].sortValue;
      }
    }
  }

  /** The rows of a run share the sort value of its last row, and none of
      them is special. */
  lemma {:induction false} RunEqual(s: seq<Standing>, j: int)
    requires 0 <= j < |s| && !Special(s[j])
    ensures forall k :: RunStart(s, j) <= k <= j ==> s[k].sortValue == s[j].sortValue && !Special(s[k])
    decreases j
  {
    if Linked(s, j) {
      RunEqual(s, j - 1);
    }
  }

  /** The ranks of a sorted board whose special rows sit at the bottom:
      every regular row is ranked one more than the number of players with
      fewer strokes, as a number when nobody shares its score and with a `T`
      when somebody does; special rows show their own token. */
  lemma {:induction false} RanksOfSorted(s: seq<Standing>, j: int)
    requires forall a, b :: 0 <= a < b < |s| ==> s[a].sortValue <= s[b].sortValue
    requires forall k :: 0 <= k < |s| && Special(s[k]) ==> s[k].sortValue == AtBottom
    requires 0 <= j < |s|
    ensures Special(s[j]) ==> Ranked(s)[j].displayRank == OfOption(Get(s[j].row, "rank"))
    ensures !Special(s[j]) && !InTie(s, |s|, j) ==> Ranked(s)[j].displayRank == Num(j + 1)
    ensures !Special(s[j]) && InTie(s, |s|, j) ==>
              Ranked(s)[j].displayRank == Str("T" + IntToString(RunStart(s, j) + 1))
    ensures !Special(s[j]) && s[j].sortValue < AtBottom ==>
              forall k :: 0 <= k < |s| ==> (k < RunStart(s, j) <==> s[k].sortValue < s[j].sortValue)
  {
    var l := Label(s, |s|, j);
    assert Ranked(s)[j].displayRank == l;
    if Special(s[j]) {
      assert l == OfOption(Get(s[j].row, "rank"));
    } else if InTie(s, |s|, j) {
      assert l == Str("T" + IntToString(RunStart(s, j) + 1));
    } else {
      assert l == Num(j + 1);
    }
    if !Special(s[j]) && s[j].sortValue < AtBottom {
      RunStartCountsBetter(s, j);
    }
  }

  /** The standings before ranking are in sort order with the special
      rows at the bottom. */
  lemma {:induction false} StandingsOrdered(lookup: Lookup, normalize: string -> string, rd1: seq<Row>, parRow: Option<Row>, results: seq<Row>)
    ensures var s := Standings(lookup, normalize, rd1, parRow, results);
            (forall a, b :: 0 <= a < b < |s| ==> s[a].sortValue <= s[b].sortValue)
            && (forall k :: 0 <= k < |s| && Special(s[k]) ==> s[k].sortValue == AtBottom)
  {
    var s := Standings(lookup, normalize, rd1, parRow, results);
    LeaderboardSorted(lookup, normalize, rd1, parRow, results);
    assert forall k :: 0 <= k < |s| ==> Leaderboard(lookup, normalize, rd1, parRow, results)[k].sortValue == s[k].sortValue;
    SpecialAtBottom(lookup, normalize, rd1, parRow, results);
  }

  /** The ranks on the leaderboard itself. */
  lemma {:induction false} LeaderboardRanks(lookup: Lookup, normalize: string -> string, rd1: seq<Row>, parRow: Option<Row>, results: seq<Row>, j: int)
    requires 0 <= j < |Standings(lookup, normalize, rd1, parRow, results)|
    ensures var s := Standings(lookup, normalize, rd1, parRow, results);
            (Special(s[j]) ==> Ranked(s)[j].displayRank == OfOption(Get(s[j].row, "rank")))
            && (!Special(s[j]) && !InTie(s, |s|, j) ==> Ranked(s)[j].displayRank == Num(j + 1))
            && (!Special(s[j]) && InTie(s, |s|, j) ==>
                  Ranked(s)[j].displayRank == Str("T" + IntToString(RunStart(s, j) + 1)))
            && (!Special(s[j]) && s[j].sortValue < AtBottom ==>
                  forall k :: 0 <= k < |s| ==> (k < RunStart(s, j) <==> s[k].sortValue < s[j].sortValue))
  {
    StandingsOrdered(lookup, normalize, rd1, parRow, results);
    RanksOfSorted(Standings(lookup, normalize, rd1, parRow, results), j);
  }
}
