/**
 * The players list (app/players/page.tsx): every player is filed under the
 * kana row of the first letter of their reading and under the region of
 * their birthplace; the page shows either one filtered group (by region or
 * by kana row) or all players grouped by kana row.
 */
module Players {
  import opened Wrappers
  import opened Js
  import opened Seqs

  /** The fields of a CMS player the page reads. `nameKanaAlt` and
      `birthPlaceAlt` are the snake-case spellings (`name_kana`,
      `birth_place`) used as fallbacks; `bio` is read by the about page. */
  datatype Player = Player(id: string, nameKana: Option<string>, nameKanaAlt: Option<string>,
                           birthPlace: Option<string>, birthPlaceAlt: Option<string>,
                           bio: Option<string>)

  // ---------------------------------------------------------------------------
  // Kana rows

  /** `KANA_ROWS`. */
  const KanaRows: seq<string> := ["あ", "か", "さ", "た", "な", "は", "ま", "や", "ら", "わ"]

  /** The group for readings outside the ten rows. */
  const OtherRow: string := "その他"

  /** The row of one letter: the ten character classes of lines 22-31, each a
      hiragana range and the katakana range of the same row, tested in
      order. */
  function KanaRowOfChar(c: char): (r: string)
    ensures r in KanaRows || r == OtherRow
  {
    if 'あ' <= c <= 'お' || 'ア' <= c <= 'オ' then "あ"
    else if 'か' <= c <= 'ご' || 'カ' <= c <= 'ゴ' then "か"
    else if 'さ' <= c <= 'ぞ' || 'サ' <= c <= 'ゾ' then "さ"
    else if 'た' <= c <= 'ど' || 'タ' <= c <= 'ド' then "た"
    else if 'な' <= c <= 'の' || 'ナ' <= c <= 'ノ' then "な"
    else if 'は' <= c <= 'ぽ' || 'ハ' <= c <= 'ポ' then "は"
    else if 'ま' <= c <= 'も' || 'マ' <= c <= 'モ' then "ま"
    else if 'や' <= c <= 'よ' || 'ヤ' <= c <= 'ヨ' then "や"
    else if 'ら' <= c <= 'ろ' || 'ラ' <= c <= 'ロ' then "ら"
    else if 'わ' <= c <= 'ん' || 'ワ' <= c <= 'ン' then "わ"
    else OtherRow
  }

  predicate NotSpace(c: char) {
    !IsSpace(c)
  }

  /** `getKanaRow(kana)`: the row of the first letter once every white-space
      character (`\s`, which includes the ideographic space) is removed;
      `その他` for a missing or blank reading. */
  function KanaRow(kana: Option<string>): (r: string)
    ensures r in KanaRows || r == OtherRow
  {
    if kana.None? then OtherRow
    else
      var t := Filter(kana.value, NotSpace);
      if t == [] then OtherRow else KanaRowOfChar(t[0])
  }

  /** A reading with no letter besides white space is filed under `その他`. */
  lemma {:induction false} BlankKanaIsOther(s: string)
    requires forall i :: 0 <= i < |s| ==> IsSpace(s[i])
    ensures KanaRow(Some(s)) == OtherRow
  {
    FilterNone(s);
  }

  lemma {:induction false} FilterNone(s: string)
    requires forall i :: 0 <= i < |s| ==> IsSpace(s[i])
    ensures Filter(s, NotSpace) == []
  {
    if s != [] {
      assert forall i :: 0 <= i < |s[1..]| ==> s[1..][i] == s[i + 1];
      FilterNone(s[1..]);
    }
  }

  /** White space in front of a reading does not change its row. */
  lemma {:induction false} LeadingSpaceIgnored(pad: string, s: string)
    requires forall i :: 0 <= i < |pad| ==> IsSpace(pad[i])
    ensures KanaRow(Some(pad + s)) == KanaRow(Some(s))
  {
    FilterAppend(pad, s, NotSpace);
    FilterNone(pad);
  }

  /** The katakana letter of a hiragana letter (the blocks are 0x60 apart). */
  function Katakana(c: char): char
    requires 'あ' <= c <= 'ん'
  {
    (c as int + 0x60) as char
  }

  /** A hiragana letter and its katakana are in the same row. */
  lemma KatakanaSameRow(c: char)
    requires 'あ' <= c <= 'ん'
    ensures KanaRowOfChar(Katakana(c)) == KanaRowOfChar(c)
  {
  }

  /** The row only depends on the first letter: a reading that starts with
      a letter keeps that letter's row whatever follows. */
  lemma {:induction false} FirstLetterDecides(c: char, rest: string)
    requires !IsSpace(c)
    ensures KanaRow(Some([c] + rest)) == KanaRowOfChar(c)
  {
    FilterAppend([c], rest, NotSpace);
    assert Filter([c], NotSpace) == [c] by { assert [c][1..] == []; }
  }

  /** `p.nameKana || p.name_kana`. */
  function KanaOf(p: Player): string {
    KanaRow(OrElse(p.nameKana, p.nameKanaAlt))
  }

  // ---------------------------------------------------------------------------
  // Regions

  /** `REGION_MAP`, in declaration order: a region and its prefectures. */
  const RegionMap: seq<(string, seq<string>)> := [
    ("北海道・東北エリア", ["北海道", "青森", "岩手", "宮城", "秋田", "山形", "福島"]),
    ("関東甲信越エリア", ["茨城", "栃木", "群馬", "埼玉", "千葉", "東京", "神奈川", "山梨", "長野"]),
    ("中部・東海エリア", ["新潟", "富山", "石川", "福井", "岐阜", "静岡", "愛知", "三重"]),
    ("関西エリア", ["滋賀", "京都", "大阪", "兵庫", "奈良", "和歌山"]),
    ("中国エリア", ["鳥取", "島根", "岡山", "広島", "山口"]),
    ("四国エリア", ["徳島", "香川", "愛媛", "高知"]),
    ("九州・沖縄エリア", ["福岡", "佐賀", "長崎", "熊本", "大分", "宮崎", "鹿児島", "沖縄"])
  ]

  /** The region for a missing or unknown birthplace. */
  const Overseas: string := "海外"

  /** `REGION_ORDER`. */
  const RegionOrder: seq<string> := ["北海道・東北エリア", "関東甲信越エリア", "中部・東海エリア", "関西エリア", "中国エリア", "四国エリア", "九州・沖縄エリア", "海外"]

  /** `prefectures.some(pref => birthPlace.includes(pref))`. */
  predicate NamesOne(place: string, prefectures: seq<string>) {
    exists k :: 0 <= k < |prefectures| && Contains(place, prefectures[k])
  }

  /** The first region of `entries` with a prefecture named in `place`. */
  function FirstRegion(place: string, entries: seq<(string, seq<string>)>): (r: string)
    ensures r == Overseas || exists k :: 0 <= k < |entries| && r == entries[k].0
    ensures r != Overseas && (forall k :: 0 <= k < |entries| ==> entries[k].0 != Overseas) ==>
              exists k :: 0 <= k < |entries| && r == entries[k].0 && NamesOne(place, entries[k].1)
                          && forall j :: 0 <= j < k ==> !NamesOne(place, entries[j].1)
    ensures (forall k :: 0 <= k < |entries| ==> !NamesOne(place, entries[k].1)) ==> r == Overseas
  {
    if entries == [] then Overseas
    else if NamesOne(place, entries[0].1) then entries[0].0
    else
      var r := FirstRegion(place, entries[1..]);
      assert forall k :: 0 <= k < |entries[1..]| ==> entries[1..][k] == entries[k + 1];
      r
  }

  /** `getRegionGroup(birthPlace)`, as a value. */
  function RegionOf(birthPlace: Option<string>): string {
    if !Present(birthPlace) then Overseas else FirstRegion(birthPlace.value, RegionMap)
  }

  /** `getRegionGroup`: the search loop with its early return. */
  method RegionGroup(birthPlace: Option<string>) returns (r: string)
    ensures r == RegionOf(birthPlace)
  {
    if !Present(birthPlace) {
      return Overseas;
    }
    r := SearchRegions(birthPlace.value, RegionMap);
  }

  /** The loop over the entries of a region map, returning the first region
      with a prefecture named in `place`. */
  method SearchRegions(place: string, entries: seq<(string, seq<string>)>) returns (r: string)
    ensures r == FirstRegion(place, entries)
  {
    var i := 0;
    while i < |entries|
      invariant 0 <= i <= |entries|
      invariant FirstRegion(place, entries) == FirstRegion(place, entries[i..])
    {
      var (region, prefectures) := entries[i];
      var found := false;
      var k := 0;
      while k < |prefectures| && !found
        invariant 0 <= k <= |prefectures|
        invariant found <==> exists j :: 0 <= j < k && Contains(place, prefectures[j])
      {
        found := Contains(place, prefectures[k]);
        k := k + 1;
      }
      if found {
        return region;
      }
      assert entries[i..][1..] == entries[i + 1..];
      i := i + 1;
    }
    return Overseas;
  }

  /** Every classification is one of the regions of `REGION_ORDER`, the
      overseas group included. */
  lemma RegionInOrder(birthPlace: Option<string>)
    ensures RegionOf(birthPlace) in RegionOrder
  {
    var r := RegionOf(birthPlace);
    if r != Overseas {
      var k :| 0 <= k < |RegionMap| && r == RegionMap[k].0;
      RegionNames();
      assert r == RegionOrder[k];
    }
  }

  /** The regions of `REGION_MAP` are those of `REGION_ORDER`, in order,
      and none is the overseas group. */
  lemma RegionNames()
    ensures |RegionOrder| == |RegionMap| + 1 && RegionOrder[|RegionMap|] == Overseas
    ensures forall k :: 0 <= k < |RegionMap| ==> RegionMap[k].0 == RegionOrder[k] && RegionMap[k].0 != Overseas
  {
  }

  /** A known birthplace goes to the first region, in declaration order,
      with a prefecture it names; a missing one, or one naming none, is
      overseas. */
  lemma {:induction false} RegionIsFirstMatch(birthPlace: Option<string>)
    ensures !Present(birthPlace) ==> RegionOf(birthPlace) == Overseas
    ensures (Present(birthPlace) && forall k :: 0 <= k < |RegionMap| ==> !NamesOne(birthPlace.value, RegionMap[k].1))
            ==> RegionOf(birthPlace) == Overseas
    ensures RegionOf(birthPlace) != Overseas ==>
              exists k :: 0 <= k < |RegionMap| && RegionOf(birthPlace) == RegionMap[k].0
                          && NamesOne(birthPlace.value, RegionMap[k].1)
                          && forall j :: 0 <= j < k ==> !NamesOne(birthPlace.value, RegionMap[j].1)
  {
    RegionNames();
  }

  /** 東京都 is in 関東甲信越エリア, although it also names 京都 of 関西エリア:
      the region listed first wins. */
  lemma TokyoIsKanto()
    ensures Contains("東京都", "京都")
    ensures RegionOf(Some("東京都")) == "関東甲信越エリア"
  {
    var place := "東京都";
    assert StartsWith(place[1..], "京都");
    forall k | 0 <= k < |RegionMap[0].1|
      ensures !Contains(place, RegionMap[0].1[k])
    {
      FirstLetterAbsent(place, RegionMap[0].1[k]);
    }
    assert !NamesOne(place, RegionMap[0].1);
    assert StartsWith(place, "東京");
    assert RegionMap[1].1[5] == "東京";
    assert NamesOne(place, RegionMap[1].1);
  }

  /** A text does not contain a word whose first letter it lacks. */
  lemma FirstLetterAbsent(s: string, sub: string)
    requires |sub| > 0 && forall i :: 0 <= i < |s| ==> s[i] != sub[0]
    ensures !Contains(s, sub)
  {
    ContainsIff(s, sub);
  }

  /** `p.birthPlace || p.birth_place`. */
  function RegionOfPlayer(p: Player): string {
    RegionOf(OrElse(p.birthPlace, p.birthPlaceAlt))
  }

  // ---------------------------------------------------------------------------
  // Groups

  /** The players whose kana row is `k`, in list order. */
  function InRow(k: string): Player -> bool {
    InGroup(KanaOf, k)
  }

  /** The players whose region is `k`, in list order. */
  function InRegion(k: string): Player -> bool {
    (p: Player) => RegionOfPlayer(p) == k
  }

  /** `groupedPlayers`: its keys in insertion order, and the players under
      each key. */
  datatype Groups = Groups(order: seq<string>, members: map<string, seq<Player>>)

  /** The keys of the default grouping: the ten rows, then `その他`. */
  const DefaultOrder: seq<string> := KanaRows + [OtherRow]

  /** Lines 85-90: one empty group per row, then each player pushed onto the
      group of its row. */
  method GroupByKana(players: seq<Player>) returns (members: map<string, seq<Player>>)
    ensures forall k :: k in members <==> k in DefaultOrder
    ensures forall k :: k in members ==> members[k] == Filter(players, InRow(k))
  {
    members := map k | k in DefaultOrder :: [];
    var i := 0;
    while i < |players|
      invariant 0 <= i <= |players|
      invariant forall k :: k in members <==> k in DefaultOrder
      invariant forall k :: k in members ==> members[k] == Filter(players[..i], InRow(k))
    {
      var p := players[i];
      var row := KanaOf(p);
      GroupsStep(players, KanaOf, i, members, members[row]);
      members := members[row := members[row] + [p]];
      i := i + 1;
    }
    assert players[..|players|] == players;
  }

  /** The page's grouping (lines 75-91): the `area` filter when given, else
      the `row` filter, else every kana row. */
  method GroupPlayers(players: seq<Player>, area: Option<string>, row: Option<string>) returns (g: Groups)
    ensures Present(area) ==>
              g.order == [area.value] && g.members == map[area.value := Filter(players, InRegion(area.value))]
    ensures !Present(area) && Present(row) ==>
              g.order == [row.value] && g.members == map[row.value := Filter(players, InRow(row.value))]
    ensures !Present(area) && !Present(row) ==>
              g.order == DefaultOrder
              && (forall k :: k in g.members <==> k in DefaultOrder)
              && forall k :: k in g.members ==> g.members[k] == Filter(players, InRow(k))
  {
    if Present(area) {
      g := Groups([area.value], map[area.value := Filter(players, InRegion(area.value))]);
    } else if Present(row) {
      g := Groups([row.value], map[row.value := Filter(players, InRow(row.value))]);
    } else {
      var members := GroupByKana(players);
      g := Groups(DefaultOrder, members);
    }
  }

  /** In the default grouping every player is in the group of its row and in
      no other, and each group keeps the list order. */
  lemma {:induction false} KanaPartition(players: seq<Player>, p: Player, k: string)
    requires p in players
    ensures p in Filter(players, InRow(k)) <==> KanaOf(p) == k
    ensures KanaOf(p) in DefaultOrder
    ensures SubseqOf(Filter(players, InRow(k)), players)
  {
    FilterSubseq(players, InRow(k));
    var i :| 0 <= i < |players| && players[i] == p;
    assert InRow(k)(players[i]) <==> KanaOf(p) == k;
  }

  /** `key => groupedPlayers[key].length > 0`. */
  function NonEmpty(members: map<string, seq<Player>>): string -> bool {
    (k: string) => k in members && |members[k]| > 0
  }

  /** `activeGroups`: the keys whose group is not empty, in key order. */
  function ActiveGroups(g: Groups): seq<string> {
    Filter(g.order, NonEmpty(g.members))
  }

  /** The active groups are exactly the non-empty groups, in the order of the
      keys. */
  lemma {:induction false} ActiveGroupsSpec(g: Groups, k: string)
    ensures k in ActiveGroups(g) <==> k in g.order && k in g.members && |g.members[k]| > 0
    ensures SubseqOf(ActiveGroups(g), g.order)
  {
    FilterSubseq(g.order, NonEmpty(g.members));
    if k in g.order && k in g.members && |g.members[k]| > 0 {
      var i :| 0 <= i < |g.order| && g.order[i] == k;
      assert NonEmpty(g.members)(g.order[i]);
    }
  }
}
