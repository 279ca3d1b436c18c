/**
 * The date handling shared by the listing pages. The CMS gives dates as
 * text such as `2024.05.10`; the pages take the first four-digit run as the
 * year, offer the distinct years latest first, and order tournaments by the
 * (year, month, day) of the first three digit runs.
 */
module Dates {
  import opened Wrappers
  import opened Js
  import opened Seqs
  import opened Sorting

  /** `date?.match(/\d{4}/)` mapped to `m ? m[0] : null`. */
  function FirstYear(date: Option<string>): (r: Option<string>)
    ensures r.Some? ==> |r.value| == 4 && AllDigits(r.value) && date.Some?
                        && exists i :: FourDigitsAt(date.value, i) && r.value == date.value[i..i + 4]
    ensures r.None? <==> date.None? || forall i :: !FourDigitsAt(date.value, i)
  {
    match date
    case None => None
    case Some(s) => FirstFourDigits(s)
  }

  /** A date contains its first four-digit year. */
  lemma FirstYearHas(date: Option<string>, y: string)
    requires FirstYear(date) == Some(y)
    ensures DateHas(date, y)
  {
    var d := date.value;
    var i :| FourDigitsAt(d, i) && y == d[i..i + 4];
    assert OccursAt(d, y, i);
    ContainsIff(d, y);
  }

  /** `.filter(Boolean)` on optional strings: the present, non-empty ones. */
  function Values(xs: seq<Option<string>>): (r: seq<string>)
    ensures forall i :: 0 <= i < |r| ==> Some(r[i]) in xs && r[i] != ""
    ensures forall i :: 0 <= i < |xs| && Present(xs[i]) ==> xs[i].value in r
  {
    if xs == [] then []
    else (if Present(xs[0]) then [xs[0].value] else []) + Values(xs[1..])
  }

  /** The code points of a string: the order `sort()` puts strings in. */
  function Codes(s: string): (k: Key)
    ensures |k| == |s|
    ensures forall i :: 0 <= i < |s| ==> k[i] == s[i] as int
  {
    seq(|s|, i requires 0 <= i < |s| => s[i] as int)
  }

  /** `Array.from(new Set(xs)).sort().reverse()`. */
  function LatestFirst(xs: seq<string>): seq<string>
  {
    Reverse(SortBy(Distinct(xs), Codes))
  }

  /** The year list holds each value once, strictly descending, and exactly
      the values of its input. */
  lemma {:induction false} LatestFirstSpec(xs: seq<string>)
    ensures NoDuplicates(LatestFirst(xs))
    ensures forall i, j :: 0 <= i < j < |LatestFirst(xs)| ==>
              LatestFirst(xs)[i] != LatestFirst(xs)[j]
              && KeyLe(Codes(LatestFirst(xs)[j]), Codes(LatestFirst(xs)[i]))
    ensures forall x :: x in LatestFirst(xs) <==> x in xs
  {
    var d := Distinct(xs);
    var t := SortBy(d, Codes);
    var r := Reverse(t);
    NoDuplicatesPermutation(t, d);
    SortBySorted(d, Codes);
    ReverseDescending(t);
    forall x ensures x in r <==> x in xs {
      ReverseMember(t, x);
      SortByMember(d, Codes, x);
    }
  }

  lemma ReverseDescending(t: seq<string>)
    requires NoDuplicates(t) && SortedBy(t, Codes)
    ensures forall i, j :: 0 <= i < j < |Reverse(t)| ==>
              Reverse(t)[i] != Reverse(t)[j] && KeyLe(Codes(Reverse(t)[j]), Codes(Reverse(t)[i]))
  {
    var r := Reverse(t);
    forall i, j | 0 <= i < j < |r| ensures r[i] != r[j] && KeyLe(Codes(r[j]), Codes(r[i])) {
      assert r[i] == t[|t| - 1 - i] && r[j] == t[|t| - 1 - j];
    }
  }

  lemma ReverseMember<T>(t: seq<T>, x: T)
    ensures x in Reverse(t) <==> x in t
  {
    var r := Reverse(t);
    if x in r {
      var i :| 0 <= i < |r| && r[i] == x;
      assert t[|t| - 1 - i] == x;
    }
    if x in t {
      var i :| 0 <= i < |t| && t[i] == x;
      assert r[|t| - 1 - i] == x;
    }
  }

  /** The years found in a list of dates, latest first (the `allYears`
      computation of the results, video and photo pages). */
  function YearsOf(dates: seq<Option<string>>): (r: seq<string>)
  {
    LatestFirst(Values(seq(|dates|, i requires 0 <= i < |dates| => FirstYear(dates[i]))))
  }

  /** Each listed year is the first year of some date, every date with a
      year contributes it, and the list is duplicate-free and descending. */
  lemma {:induction false} YearsOfSpec(dates: seq<Option<string>>)
    ensures NoDuplicates(YearsOf(dates))
    ensures forall i, j :: 0 <= i < j < |YearsOf(dates)| ==>
              KeyLe(Codes(YearsOf(dates)[j]), Codes(YearsOf(dates)[i]))
              && YearsOf(dates)[i] != YearsOf(dates)[j]
    ensures forall y :: y in YearsOf(dates) <==> exists k :: 0 <= k < |dates| && FirstYear(dates[k]) == Some(y)
  {
    var ys := seq(|dates|, i requires 0 <= i < |dates| => FirstYear(dates[i]));
    var vs := Values(ys);
    LatestFirstSpec(vs);
    forall y ensures y in YearsOf(dates) <==> exists k :: 0 <= k < |dates| && FirstYear(dates[k]) == Some(y) {
      if y in vs {
        var k :| 0 <= k < |ys| && ys[k] == Some(y);
        assert FirstYear(dates[k]) == Some(y);
      }
      if exists k :: 0 <= k < |dates| && FirstYear(dates[k]) == Some(y) {
        var k :| 0 <= k < |dates| && FirstYear(dates[k]) == Some(y);
        assert ys[k] == Some(y) && Present(ys[k]);
      }
    }
  }

  /** `date?.includes(year)`. */
  predicate DateHas(date: Option<string>, year: string) {
    date.Some? && Contains(date.value, year)
  }

  /** The (year, month, day) of the first three digit runs of a date, or
      (0, 0, 0) when the date is missing or has fewer than three runs. */
  function DateKey(date: Option<string>): (k: Key)
    ensures |k| == 3
    ensures !Present(date) ==> k == [0, 0, 0]
    ensures Present(date) && |DigitRuns(date.value)| < 3 ==> k == [0, 0, 0]
    ensures Present(date) && |DigitRuns(date.value)| >= 3 ==>
              forall i :: 0 <= i < 3 ==> k[i] == DigitsValue(DigitRuns(date.value)[i])
  {
    if !Present(date) then [0, 0, 0]
    else
      var runs := DigitRuns(date.value);
      if |runs| < 3 then [0, 0, 0]
      else [DigitsValue(runs[0]), DigitsValue(runs[1]), DigitsValue(runs[2])]
  }

  /** A date written `year.month.day` in digits is keyed by those three
      numbers. */
  lemma DottedDateKey(y: string, m: string, d: string)
    requires y != [] && m != [] && d != [] && AllDigits(y) && AllDigits(m) && AllDigits(d)
    ensures DateKey(Some(y + "." + m + "." + d)) == [DigitsValue(y), DigitsValue(m), DigitsValue(d)]
  {
    DottedRuns(y, m, d);
  }

  /** A date with only a year and a month (`2024.05`) has two digit runs,
      too few for a key: it sorts as the zero key. */
  lemma YearMonthKey(y: string, m: string)
    requires y != [] && m != [] && AllDigits(y) && AllDigits(m)
    ensures DateKey(Some(y + "." + m)) == [0, 0, 0]
  {
    AllDigitsOneRun(y);
    AllDigitsOneRun(m);
    NoDigitsNoRuns(".");
    DigitRunsAppend(y, ".");
    DigitRunsAppend(y + ".", m);
  }

  /** The key that sorts dates latest first. */
  function Latest(k: Key): (r: Key)
    ensures |r| == |k|
    ensures forall i :: 0 <= i < |k| ==> r[i] == -k[i]
  {
    seq(|k|, i requires 0 <= i < |k| => -k[i])
  }

  /** On keys of equal length, `Latest` reverses the order. */
  lemma {:induction false} LatestReverses(a: Key, b: Key)
    requires |a| == |b|
    ensures KeyLe(Latest(a), Latest(b)) <==> KeyLe(b, a)
    decreases |a|
  {
    if a != [] {
      assert Latest(a)[1..] == Latest(a[1..]);
      assert Latest(b)[1..] == Latest(b[1..]);
      LatestReverses(a[1..], b[1..]);
    }
  }
}
