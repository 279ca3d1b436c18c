/**
 * A leaderboard CSV record as the pages receive it from the CSV reader: a
 * dictionary from column name to cell text, where a column the file does not
 * have reads as `undefined`.
 */
module Csv {
  import opened Wrappers
  import opened Js

  type Row = map<string, string>

  /** `row[k]`. */
  function Get(row: Row, k: string): (r: Option<string>)
    ensures r.Some? <==> k in row
    ensures r.Some? ==> r.value == row[k]
  {
    if k in row then Some(row[k]) else None
  }

  /** `row[k1] || row[k2] || … || row[kn]`: the first non-empty cell among the
      keys, and when there is none, whatever the last key holds. */
  function Probe(row: Row, keys: seq<string>): (r: Option<string>)
    ensures Present(r) <==> exists i :: 0 <= i < |keys| && Present(Get(row, keys[i]))
    ensures Present(r) ==> exists i :: 0 <= i < |keys| && r == Get(row, keys[i])
                                       && forall j :: 0 <= j < i ==> !Present(Get(row, keys[j]))
    ensures !Present(r) && |keys| > 0 ==> r == Get(row, keys[|keys| - 1])
    ensures |keys| == 0 ==> r == None
  {
    if |keys| == 0 then None
    else if |keys| == 1 then Get(row, keys[0])
    else
      var rest := Probe(row, keys[1..]);
      assert forall i :: 1 <= i < |keys| ==> keys[i] == keys[1..][i - 1];
      if Present(Get(row, keys[0])) then Get(row, keys[0])
      else
        assert Present(rest) ==> exists i :: 1 <= i < |keys| && rest == Get(row, keys[i])
                                               && forall j :: 0 <= j < i ==> !Present(Get(row, keys[j]));
        rest
  }

  /** `row[k1] || … || row[kn] || fallback`. */
  function ProbeOr(row: Row, keys: seq<string>, fallback: string): (r: string)
    ensures Present(Probe(row, keys)) ==> r == Probe(row, keys).value
    ensures !Present(Probe(row, keys)) ==> r == fallback
  {
    OrElse(Probe(row, keys), Some(fallback)).value
  }

  /** A row's `rank` cell is exactly `token`. */
  predicate RankIs(row: Row, token: string) {
    Get(row, "rank") == Some(token)
  }

  /** `['DNS', 'NR', 'DQ'].includes(row.rank)`: did not start, no return,
      disqualified. */
  predicate IsSpecial(row: Row) {
    RankIs(row, "DNS") || RankIs(row, "NR") || RankIs(row, "DQ")
  }
}
