/**
 * How a score relative to par is written on the leaderboards: a positive
 * number with an explicit `+`, zero as `E` ("even"), anything else as it
 * stands. The home page applies the rule to a CSV cell (app/page.tsx) and
 * the results page to its recomputed or raw score (ResultDisplay.tsx).
 */
module ScoreFormat {
  import opened Wrappers
  import opened Js

  /** The text is a number `Number()` accepts, and not one of the two
      placeholders the pages exclude (`'-'` and `''`). */
  predicate IsNumericScore(s: string) {
    s != "-" && s != "" && NumberOf(s).Some?
  }

  /** The score-to-par cell written from a difference `d` in strokes:
      `'E'`, `` `+${d}` `` or `` `${d}` ``. */
  function RelToPar(d: int): (r: string)
    ensures |r| > 0
    ensures r == "E" <==> d == 0
    ensures d > 0 ==> r[0] == '+'
    ensures d < 0 ==> r[0] == '-'
  {
    if d == 0 then "E"
    else if d > 0 then "+" + NatToString(d)
    else IntToString(d)
  }

  /** A score-to-par cell reads back, through `Number`, as the difference
      it was written from (`E` reads as `NaN`, the one cell that does not). */
  lemma {:induction false} RelToParReadsBack(d: int)
    ensures d != 0 ==> NumberOf(RelToPar(d)) == Some(d)
    ensures d == 0 ==> NumberOf(RelToPar(d)) == None
  {
    var s := RelToPar(d);
    if d > 0 {
      assert s == "+" + NatToString(d);
      PlusSignRoundTrip(d);
    } else if d < 0 {
      assert s == IntToString(d);
      IntToStringRoundTrip(d);
    } else {
      assert s == "E";
      Untrimmed(s);
      NumberRejects(s);
    }
  }

  /** The display rule: a numeric score that is positive gets a `+`, zero
      becomes `E`; negative numbers and non-numeric text are unchanged. */
  function FormatScore(v: Value): (r: Value)
    ensures v.Str? && IsNumericScore(v.s) && NumberOf(v.s).value > 0 ==>
              r == Str(RelToPar(NumberOf(v.s).value))
    ensures v.Str? && IsNumericScore(v.s) && NumberOf(v.s).value == 0 ==> r == Str("E")
    ensures v.Str? && (!IsNumericScore(v.s) || NumberOf(v.s).value < 0) ==> r == v
    ensures v.Num? && v.n > 0 ==> r == Str(RelToPar(v.n))
    ensures v.Num? && v.n == 0 ==> r == Str("E")
    ensures v.Num? && v.n < 0 ==> r == v
    ensures v.Undefined? ==> r == v
  {
    match v
    case Undefined => v
    case Str(s) =>
      if IsNumericScore(s) then
        var n := NumberOf(s).value;
        if n > 0 then Str(RelToPar(n)) else if n == 0 then Str("E") else v
      else v
    case Num(n) =>
      if n > 0 then Str(RelToPar(n)) else if n == 0 then Str("E") else v
  }

  /** Formatting twice is formatting once: a `+N` or `E` cell is already in
      display form. */
  lemma {:induction false} FormatScoreIdempotent(v: Value)
    ensures FormatScore(FormatScore(v)) == FormatScore(v)
  {
    var r := FormatScore(v);
    if r != v {
      if r == Str("E") {
        RelToParFormatted(0);
      } else if v.Str? {
        RelToParFormatted(NumberOf(v.s).value);
      } else {
        RelToParFormatted(v.n);
      }
    }
  }

  /** A recomputed score-to-par cell is left as it is by the display rule. */
  lemma {:induction false} RelToParFormatted(d: int)
    ensures FormatScore(Str(RelToPar(d))) == Str(RelToPar(d))
  {
    RelToParReadsBack(d);
    if d != 0 {
      assert IsNumericScore(RelToPar(d));
    }
  }
}
