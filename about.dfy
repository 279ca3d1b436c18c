/**
 * The about page (app/about/page.tsx): the players whose profile records a
 * passed professional test, and the finished tournaments grouped by the
 * year written before the first `.` of their date.
 */
module About {
  import opened Wrappers
  import opened Js
  import opened Seqs
  import opened Sorting
  import opened Dates
  import opened Tournaments
  import opened Players

  // ---------------------------------------------------------------------------
  // Players who passed the professional test

  /** The marker a profile carries once the player has passed the test. */
  const Passed: string := "プロテスト合格"

  /** `p.bio?.includes("プロテスト合格")`. */
  predicate ProPassed(p: Player) {
    p.bio.Some? && Contains(p.bio.value, Passed)
  }

  /** `proPassedPlayers` (line 32). */
  function ProPassedPlayers(ps: seq<Player>): seq<Player> {
    Filter(ps, ProPassed)
  }

  /** Exactly the players whose profile mentions the passed test, in the
      order the CMS gives; a profile mentioning it anywhere qualifies. */
  lemma {:induction false} ProPassedSpec(ps: seq<Player>, p: Player, before: string, after: string)
    ensures p in ProPassedPlayers(ps) <==> p in ps && ProPassed(p)
    ensures SubseqOf(ProPassedPlayers(ps), ps)
    ensures p.bio == Some(before + Passed + after) ==> ProPassed(p)
  {
    FilterSubseq(ps, ProPassed);
    ContainsInfix(before, Passed, after);
  }

  // ---------------------------------------------------------------------------
  // Past tournaments by year

  /** `pastTournaments` (lines 40-47). */
  function Past(ts: seq<Tournament>): seq<Tournament> {
    Filter(ts, IsResults)
  }

  /** The group of tournaments without a year. */
  const Other: string := "OTHER"

  /** `t.date?.split('.')[0] || 'OTHER'`. */
  function YearKey(t: Tournament): (r: string)
    ensures r != ""
    ensures t.date.None? ==> r == Other
  {
    if t.date.None? then Other
    else
      var head := Split(t.date.value, '.')[0];
      if head == "" then Other else head
  }

  /** The year key is the text before the first `.` of the date (all of
      it when there is no `.`), or `OTHER` when that text is empty. */
  lemma YearKeyBeforeDot(t: Tournament, k: nat)
    requires t.date.Some? && k <= |t.date.value|
    requires k == |t.date.value| || t.date.value[k] == '.'
    requires forall i :: 0 <= i < k ==> t.date.value[i] != '.'
    ensures k == 0 ==> YearKey(t) == Other
    ensures k > 0 ==> YearKey(t) == t.date.value[..k]
  {
    SplitHead(t.date.value, '.', k);
  }

  /** `t.date?.split('.')[1] || '--'`: the month shown beside a tournament. */
  function MonthLabel(t: Tournament): (r: string)
    ensures r != ""
    ensures t.date.None? ==> r == "--"
  {
    if t.date.None? then "--"
    else
      var month := Piece(t.date.value, '.', 1);
      if month.None? || month.value == "" then "--" else month.value
  }

  /** Splitting at a separator that is not in the first part peels that part
      off. */
  lemma {:induction false} SplitAfter(a: string, sep: char, b: string)
    requires forall i :: 0 <= i < |a| ==> a[i] != sep
    ensures Split(a + [sep] + b, sep) == [a] + Split(b, sep)
    decreases |a|
  {
    var s := a + [sep] + b;
    if a != [] {
      assert s[1..] == a[1..] + [sep] + b;
      SplitAfter(a[1..], sep, b);
      assert [a[0]] + a[1..] == a;
    } else {
      assert s[1..] == b;
    }
  }

  /** A date written `year.month.day` is filed under its year and shows its
      month. */
  lemma {:induction false} DottedDate(t: Tournament, year: string, month: string, day: string)
    requires year != "" && month != ""
    requires forall i :: 0 <= i < |year| ==> year[i] != '.'
    requires forall i :: 0 <= i < |month| ==> month[i] != '.'
    requires t.date == Some(year + "." + month + "." + day)
    ensures YearKey(t) == year
    ensures MonthLabel(t) == month
  {
    var rest := month + "." + day;
    assert year + "." + month + "." + day == year + ['.'] + rest;
    SplitAfter(year, '.', rest);
    SplitAfter(month, '.', day);
  }

  /** The tournaments filed under year `y`. */
  function InYear(y: string): Tournament -> bool {
    InGroup(YearKey, y)
  }

  /** `Distinct` of a sequence grown by one element. */
  lemma {:induction false} DistinctSnoc<T>(xs: seq<T>, x: T)
    ensures Distinct(xs + [x]) == if x in Distinct(xs) then Distinct(xs) else Distinct(xs) + [x]
  {
    assert (xs + [x])[..|xs|] == xs;
  }

  /** A key none of the elements has yet has an empty group. */
  lemma {:induction false} NewKeyEmpty<T>(xs: seq<T>, key: T -> string, k: string)
    requires k !in Distinct(MapSeq(xs, key))
    ensures Filter(xs, InGroup(key, k)) == []
  {
    forall j | 0 <= j < |xs|
      ensures !InGroup(key, k)(xs[j])
    {
      assert MapSeq(xs, key)[j] == key(xs[j]);
    }
    FilterNoneOf(xs, InGroup(key, k));
  }

  /** The keys after one more element. */
  lemma {:induction false} KeysStep<T>(xs: seq<T>, key: T -> string, i: nat, keys: seq<string>)
    requires i < |xs|
    requires keys == Distinct(MapSeq(xs[..i], key))
    ensures Distinct(MapSeq(xs[..i + 1], key)) == if key(xs[i]) in keys then keys else keys + [key(xs[i])]
  {
    assert MapSeq(xs[..i + 1], key) == MapSeq(xs[..i], key) + [key(xs[i])];
    DistinctSnoc(MapSeq(xs[..i], key), key(xs[i]));
  }

  /** The accumulator loop on any key: each element is appended to the group
      of its key, a group being opened the first time its key is met. */
  method GroupInOrder<T>(xs: seq<T>, key: T -> string) returns (keys: seq<string>, groups: map<string, seq<T>>)
    ensures keys == Distinct(MapSeq(xs, key))
    ensures forall k :: k in groups <==> k in keys
    ensures forall k :: k in groups ==> groups[k] == Filter(xs, InGroup(key, k))
  {
    keys := [];
    groups := map[];
    for i := 0 to |xs|
      invariant keys == Distinct(MapSeq(xs[..i], key))
      invariant forall k :: k in groups <==> k in keys
      invariant forall k :: k in groups ==> groups[k] == Filter(xs[..i], InGroup(key, k))
    {
      var x := xs[i];
      var k := key(x);
      KeysStep(xs, key, i, keys);
      var group := [];
      if k in groups {
        group := groups[k];
      } else {
        NewKeyEmpty(xs[..i], key, k);
        keys := keys + [k];
      }
      GroupsStep(xs, key, i, groups, group);
      groups := groups[k := group + [x]];
    }
    assert xs[..|xs|] == xs;
  }

  /** The `reduce` of lines 50-55: each finished tournament is appended to
      the group of its year; `keys` is the order the groups were opened in. */
  method GroupByYear(past: seq<Tournament>) returns (keys: seq<string>, groups: map<string, seq<Tournament>>)
    ensures keys == Distinct(MapSeq(past, YearKey))
    ensures forall y :: y in groups <==> y in keys
    ensures forall y :: y in groups ==> groups[y] == Filter(past, InYear(y))
  {
    keys, groups := GroupInOrder(past, YearKey);
  }

  /** A year has a group exactly when some finished tournament is filed under
      it, and then the group is not empty. */
  lemma {:induction false} GroupNonEmpty(past: seq<Tournament>, y: string)
    ensures y in Distinct(MapSeq(past, YearKey)) <==> exists k :: 0 <= k < |past| && YearKey(past[k]) == y
    ensures y in Distinct(MapSeq(past, YearKey)) ==> |Filter(past, InYear(y))| > 0
  {
    var ys := MapSeq(past, YearKey);
    if y in Distinct(ys) {
      var k :| 0 <= k < |ys| && ys[k] == y;
      assert past[k] in Filter(past, InYear(y));
    }
    if exists k :: 0 <= k < |past| && YearKey(past[k]) == y {
      var k :| 0 <= k < |past| && YearKey(past[k]) == y;
      assert ys[k] == y;
    }
  }

  /** Every finished tournament is filed under its own year and under no
      other. */
  lemma {:induction false} FiledOnce(past: seq<Tournament>, t: Tournament, y: string)
    requires t in past
    ensures t in Filter(past, InYear(y)) <==> y == YearKey(t)
  {
  }

  /** `years` (line 57): the group keys, latest first. */
  function Years(keys: seq<string>): seq<string> {
    LatestFirst(keys)
  }

  /** Each group is listed once, the years in descending order, and `OTHER`
      among them exactly when some tournament has no usable date. */
  lemma {:induction false} YearsSpec(past: seq<Tournament>)
    ensures NoDuplicates(Years(Distinct(MapSeq(past, YearKey))))
    ensures forall i, j :: 0 <= i < j < |Years(Distinct(MapSeq(past, YearKey)))| ==>
              KeyLe(Codes(Years(Distinct(MapSeq(past, YearKey)))[j]), Codes(Years(Distinct(MapSeq(past, YearKey)))[i]))
    ensures forall y :: y in Years(Distinct(MapSeq(past, YearKey))) <==>
              exists k :: 0 <= k < |past| && YearKey(past[k]) == y
  {
    var keys := Distinct(MapSeq(past, YearKey));
    LatestFirstSpec(keys);
    forall y ensures y in Years(keys) <==> exists k :: 0 <= k < |past| && YearKey(past[k]) == y {
      GroupNonEmpty(past, y);
    }
  }
}
