# Golf association site: leaderboards and listing pages

This project models the computations behind the public pages of a golf
association's site. The site is a Next.js app fed by a headless CMS and by
tournament result CSV files. It proves properties of those computations.

- **Results page leaderboard** (`app/results/ResultDisplay.tsx`).
  - With both rounds' CSV rows at hand, each final-round row is matched by
    name with its first-round row. Matching uses a key that ignores
    amateur marks, white space, dots and ASCII case. As written the page
    reads the name from the `name` column only (see "## Findings"); the
    model gives the merge both this lookup and the corrected one.
  - The two totals are added. The score to par is recomputed against twice
    the course par.
  - DNS, NR and DQ rows are sent to the bottom. The rows are sorted by
    combined strokes.
  - Ranks are given out in one in-place pass. Tied rows share a `T` rank
    named after the first row of their run.
  - The model also covers what each table line shows: the position, the
    name without amateur marks, the AM badge, the round, total and score
    columns, and the NO RETURN / DID NOT START message.
  - For the hole-by-hole table it covers the round rows looked up per
    player, the symbol under each hole (◎ ○ － △ □ +N), the red birdie
    marks, the course-par row, and the `sumHoles` helper.
- **Home page** (`app/page.tsx`).
  - The latest tournament whose status says it is published (or that has
    a result file) is chosen.
  - Its first 25 competitors are shown, with scores written `+N` / `E`.
- **Listing pages.**
  - Players (`app/players/page.tsx`): filed by kana row and by the region
    of their birthplace.
  - Entry (`app/entry/page.tsx`): the tournaments open for entry, the
    schedule and its status badges.
  - Results (`app/results/page.tsx`): finished tournaments by year,
    sorted latest first in place.
  - About (`app/about/page.tsx`): players who passed the professional
    test, and past tournaments grouped by year.
  - Videos and photos (`app/videos/page.tsx`, `app/photos/page.tsx`):
    items split by media type, with shared year navigation.
  - Spectating (`app/spectate/page.tsx`): tournaments open for
    spectating.

Modules:
- Support modules:
  - `Wrappers`: Option.
  - `Js`: the JavaScript string and number primitives the pages use,
    i.e. truthiness, `||`, `toLowerCase`, `trim`, `includes`, `parseInt`,
    `Number` and `split`.
  - `Seqs`: filter and subsequence.
  - `Sorting`: a stable sort by a key, on sequences and in place on arrays.
  - `Csv`: rows as maps from column name to cell.
  - `Cms`: the shapes of a CMS select field and the id/value status test.
  - `Dates`: year and date keys.
  - `ScoreFormat`: the `+N` / `E` rule shared by the home and results pages.
- `ResultDisplay` and `ResultRows`: the results page.
- `Tournaments`: the tournament record and the status tests the listing
  pages share.
- `Media`: media items and the year navigation of the video and photo lists.
- One module per remaining page: `Home`, `Players`, `Entry`,
  `ResultsList`, `About`, `Videos`, `Photos`, `Spectate`.

The code works in two styles:
- Where it changes state step by step, the model is imperative and is
  proved against a specification function:
  - the rank loop, `AssignRanks`, on an array of standings;
  - the in-place sorts;
  - the `sumHoles` loop;
  - the region search loop;
  - the grouping loops of the players and about pages.
- Everything else is a function, with lemmas about it.

## Model

| member | source | states |
|---|---|---|
| ResultDisplay.NameOf | app/results/ResultDisplay.tsx:21-24 | the name is the first non-empty of the six name columns, in their order, and is empty exactly when all six are missing or empty |
| ResultDisplay.MatchKey | app/results/ResultDisplay.tsx:27-30 | a missing name has the empty key; every key is free of amateur marks, white space and dots, and has no upper-case ASCII letter |
| ResultDisplay.KeyIgnoresMarks | app/results/ResultDisplay.tsx:27-30 | in a name already through Unicode normalisation, inserting an amateur mark, a space or a dot anywhere does not change its key |
| ResultDisplay.KeyIdempotent | app/results/ResultDisplay.tsx:27-30 | the key of a normalised text, itself taken as a normalised text, is its own key |
| ResultDisplay.FindRound1 | app/results/ResultDisplay.tsx:87 | the round-1 lookup as written: the first round-1 row whose `name` cell has the same key as the final-round row's `name` cell; none exactly when no row does |
| ResultDisplay.FindByName | app/results/ResultDisplay.tsx:379-381 | the first row whose shown name has the same key as the player's shown name; none exactly when no row does |
| ResultDisplay.FindRound1WithoutNameColumn | app/results/ResultDisplay.tsx:87 | when no row has a `name` column, the lookup as written returns the first round-1 row for every player |
| ResultDisplay.MismatchExample | app/results/ResultDisplay.tsx:87 | for two round-1 players named under `Name`, a final-round row for the second player is paired with the first player's round as written, and with its own round by the shown-name lookup |
| ResultDisplay.FindMatch | app/results/ResultDisplay.tsx:87 | the merge's round-1 lookup, chosen by a parameter: the lookup as written for the page as it is, the shown-name lookup for the corrected page; a row it finds is a round-1 row |
| ResultDisplay.FindByNameAgrees | app/results/ResultDisplay.tsx:87 | where every row has a non-empty `name` cell, the shown-name lookup finds the same row as the lookup as written |
| ResultDisplay.DiffSymbol | app/results/ResultDisplay.tsx:42-50 | each difference to par gets exactly one symbol: ◎ for -2 or better, ○ for -1, － for 0, △ for +1, □ for +2, and `+N` (starting with `+`) for 3 or more; never empty |
| ResultDisplay.Symbol | app/results/ResultDisplay.tsx:37-51 | no symbol when either cell is not a number or is zero; otherwise the symbol of score minus par, which is never empty |
| ResultDisplay.ScoreSymbolOfNumbers | app/results/ResultDisplay.tsx:37-51 | two cells whose text parses to non-zero numbers get the symbol of their difference |
| ResultDisplay.HoleSymbol | app/results/ResultDisplay.tsx:427-429 | without a par row no hole gets a symbol |
| ResultDisplay.HoleValue | app/results/ResultDisplay.tsx:68-69 | a hole with no cell under `h{i}`, `H{i}` or `{i}` counts zero strokes |
| ResultDisplay.HolesCell | app/results/ResultDisplay.tsx:71 | the cell is the number of strokes exactly when the sum is positive, `-` otherwise |
| ResultDisplay.SumHoles | app/results/ResultDisplay.tsx:64-72 | the loop's result is the sum over the hole range of each hole's strokes, turned into a cell |
| ResultDisplay.HoleSumSplit | app/results/ResultDisplay.tsx:64-72 | the strokes of a range are those of its two parts added together (front nine plus back nine) |
| ResultDisplay.NoHolesDash | app/results/ResultDisplay.tsx:64-72 | a row with no hole cell in the range sums to zero and shows `-` |
| ResultDisplay.ParRow | app/results/ResultDisplay.tsx:32 | the supplied par row when there is one; otherwise the first row ranked `PAR`, else the first row, else none (only for no rows at all) |
| ResultDisplay.CompetitorsSpec | app/results/ResultDisplay.tsx:75 | the competitors are exactly the rows not ranked `PAR`, in file order |
| ResultDisplay.Combined | app/results/ResultDisplay.tsx:87-96 | for either lookup (as written, or the corrected lookup): the combined strokes exist exactly when the lookup finds a round-1 row and both totals parse, and then they are the sum of the two totals |
| ResultDisplay.RescoredScore | app/results/ResultDisplay.tsx:105-114 | with a par total that parses and a real stroke count, the score is the difference to twice the par written `E`/`+N`/`-N`; otherwise the row's own score |
| ResultDisplay.Merge | app/results/ResultDisplay.tsx:78-124 | for either lookup (as written, or the corrected lookup): the merged row keeps the CSV row; the round-1 column is the found row's `total`, else the row's own `out`/`OUT`; DNS/NR/DQ rows sort at 999999; matched rows sort by their combined strokes and show them as the total; unmatched rows sort at 99999 and show the round-2 total; the score is rescored as above |
| ResultDisplay.MergeFound | app/results/ResultDisplay.tsx:87-101 | a regular row paired with a round-1 row, both totals parsing, sorts at the sum of the totals and shows the round-1 row's total as its first round |
| ResultDisplay.MergeMismatch | app/results/ResultDisplay.tsx:87-96 | for two players listed under `Name`, the page as written adds the second player's final round to the first player's round-1 total; the corrected lookup adds it to the player's own |
| ResultDisplay.BoardsAgree | app/results/ResultDisplay.tsx:75-157 | when every round-1 row and every competitor has a non-empty `name` cell, the page as written and the corrected page build the same board |
| ResultDisplay.SpecialKeepsScore | app/results/ResultDisplay.tsx:99-114 | a DNS, NR or DQ row is never rescored |
| ResultDisplay.RunStart | app/results/ResultDisplay.tsx:140 | the first row of the run of tied rows that a row belongs to: every later row of the run ties with its predecessor, and the first does not |
| ResultDisplay.Ranked | app/results/ResultDisplay.tsx:130-156 | the reference for the rank pass: special rows keep their token, tied rows get `T` and the run's first position, the others their position |
| ResultDisplay.AssignRanks | app/results/ResultDisplay.tsx:130-156 | the in-place loop, which rewrites the previous row when a tie appears, leaves the array equal to the reference ranking |
| ResultDisplay.LabelsAfterSpecial | app/results/ResultDisplay.tsx:133-135 | a special row takes its own token and leaves earlier ranks alone; a regular row that ties with nobody before it takes its position |
| ResultDisplay.LabelsAfterTie | app/results/ResultDisplay.tsx:140-151 | when row i ties with row i-1, both show `T` and the run's first position, and only row i-1's earlier rank changes |
| ResultDisplay.BoardOf | app/results/ResultDisplay.tsx:75-157 | for either lookup, the board is merged and ranked exactly when both rounds were supplied; otherwise it is the competitors as they come |
| ResultDisplay.BuildBoard | app/results/ResultDisplay.tsx:75-157 | for either lookup, the computation as it runs (merge, sort in place, rank pass) gives the board defined above |
| ResultDisplay.LeaderboardPermutation | app/results/ResultDisplay.tsx:75-127 | every competitor appears on the merged board exactly as often as in the file: the board is a rearrangement of the competitors |
| ResultDisplay.LeaderboardSorted | app/results/ResultDisplay.tsx:127 | sort values never decrease down the board |
| ResultDisplay.SpecialRowsLast | app/results/ResultDisplay.tsx:99-101 | every DNS, NR or DQ row comes after every row whose sort value is below 999999 |
| ResultDisplay.TieLabelShape | app/results/ResultDisplay.tsx:144-151 | a tied rank is `T` followed by a number (never `TT`), and the number is the position of the run's first row |
| ResultDisplay.TiesShareRank | app/results/ResultDisplay.tsx:140-151 | two tied neighbours show the same rank |
| ResultDisplay.UntiedRank | app/results/ResultDisplay.tsx:154 | a regular row tied with nobody shows its position |
| ResultDisplay.RunStartCountsBetter | app/results/ResultDisplay.tsx:127-156 | on a sorted board, a regular row's run starts after exactly the rows with fewer strokes |
| ResultDisplay.RanksOfSorted | app/results/ResultDisplay.tsx:127-156 | on a sorted board with special rows at the bottom, each regular rank is one more than the number of players with fewer strokes; it is a number when untied and `T`-prefixed when tied; special rows show their own token |
| ResultDisplay.LeaderboardRanks | app/results/ResultDisplay.tsx:75-156 | the rank statements above hold on the page's own board |
| ResultRows.ComputedCell | app/results/ResultDisplay.tsx:116-123 | a raw row's computed property is its own column of that name |
| ResultRows.ShownName | app/results/ResultDisplay.tsx:288 | the shown name contains no amateur mark |
| ResultRows.AmateurBadge | app/results/ResultDisplay.tsx:260 | the AM badge is shown exactly when the name contains `@` or `＠` |
| ResultRows.LineOf | app/results/ResultDisplay.tsx:256-310 | a line shows the computed rank (else the CSV rank) and the cleaned name with its badge; NR and DNS rows (and only they) show NO RETURN or DID NOT START instead of the four score cells; other rows show the round, total and formatted score cells |
| ResultRows.Entries | app/results/ResultDisplay.tsx:256 | the table lists the merged standings when both rounds were given, the raw rows otherwise, one line each in board order |
| ResultRows.RankShown | app/results/ResultDisplay.tsx:282 | on a merged board every line shows the rank the rank pass gave it |
| ResultRows.RescoredShown | app/results/ResultDisplay.tsx:272-278 | a rescored score is shown as computed (the display rule leaves it as it is) |
| ResultRows.CombinedShown | app/results/ResultDisplay.tsx:271 | a non-zero combined total is shown as its decimal text |
| ResultRows.RawColumns | app/results/ResultDisplay.tsx:269-278 | without round data a line shows the CSV's own `out`, `in`, `total`, `score` and `rank` cells |
| ResultRows.Pushed | app/results/ResultDisplay.tsx:382-383 | a round row is added exactly when the lookup found one |
| ResultRows.RoundsOfPlayer | app/results/ResultDisplay.tsx:377-383 | with round data a player has at most two round rows, all with the player's key; a `1R` row first exactly when round 1 has the player, a `2R` row last exactly when round 2 has the player |
| ResultRows.RoundsOfSingle | app/results/ResultDisplay.tsx:384-386 | without round data the player's one round row is their own row, labelled `-` |
| ResultRows.HoleViews | app/results/ResultDisplay.tsx:426-452 | eighteen hole cells, cell i showing hole i+1: its strokes, its symbol against par and whether it is red |
| ResultRows.RedUnderPar | app/results/ResultDisplay.tsx:433 | a hole's strokes are red exactly when the hole was played under par |
| ResultRows.NoParNoSymbols | app/results/ResultDisplay.tsx:428-434 | with no par row nothing has a symbol and nothing is red |
| ResultRows.ParKeysAsWritten | app/results/ResultDisplay.tsx:362 | the course-par row reads the symbols' keys without the bare `{i}` |
| ResultRows.ParCellMissing | app/results/ResultDisplay.tsx:362 | as written, a par row keyed by bare hole numbers shows an empty course-par cell, although symbols are computed against it and it switches the table on |
| ResultRows.CourseParCells | app/results/ResultDisplay.tsx:362-364 | eighteen course-par cells, hole 1 first, read under all three keys |
| ResultRows.ParCellShown | app/results/ResultDisplay.tsx:428-434 | read under all three keys, every hole that gets a symbol shows its course-par cell |
| ScoreFormat.RelToPar | app/results/ResultDisplay.tsx:110-112 | the text is `E` exactly for zero, starts with `+` for a positive difference and with `-` for a negative one |
| ScoreFormat.RelToParReadsBack | app/results/ResultDisplay.tsx:110-112 | a non-zero score to par reads back through `Number` as the difference it was written from |
| ScoreFormat.FormatScore | app/page.tsx:45-50 | a positive number becomes `+N`, zero becomes `E`, negative numbers and text stay as they were |
| ScoreFormat.FormatScoreIdempotent | app/results/ResultDisplay.tsx:274-278 | applying the display rule twice is applying it once |
| ScoreFormat.RelToParFormatted | app/results/ResultDisplay.tsx:274-278 | the display rule leaves a recomputed score to par unchanged |
| Home.Chosen | app/page.tsx:19-30 | the chosen tournament is the first in CMS order that qualifies; none exactly when none qualifies |
| Home.QualifiesSpec | app/page.tsx:20-29 | without a status, a tournament qualifies exactly when it has a result file; with a status array, exactly when some option says `results` or `結果公開` |
| Home.TargetFile | app/page.tsx:33 | the chosen tournament's result file, else `arima.csv` |
| Home.ShownRowsSpec | app/page.tsx:41-43 | the shown rows are the first (at most 25) rows in file order that are not the par row and have a name, and all of them when there are no more than 25 |
| Home.ScoreText | app/page.tsx:45 | the score cell, else the total cell, else `-` |
| Home.LineScore | app/page.tsx:45-50 | the score shown is the displayed form of the score (or total) cell, and `-` when the row has neither |
| Home.LineCells | app/page.tsx:52-55 | a listed row shows its own name; a missing rank is `-`; the round column follows the two-day layout |
| Home.WinnerIsFirst | app/page.tsx:165 | the winner is the first listed competitor's name, `---` when there is none |
| Players.KanaRowOfChar | app/players/page.tsx:21-32 | every letter falls in one of the ten rows or in `その他` |
| Players.KanaRow | app/players/page.tsx:19-33 | every reading is filed under one of the ten rows or `その他` |
| Players.BlankKanaIsOther | app/players/page.tsx:20-21 | a reading made only of white space is filed under `その他` |
| Players.LeadingSpaceIgnored | app/players/page.tsx:20 | white space before a reading does not change its row |
| Players.KatakanaSameRow | app/players/page.tsx:22-31 | a hiragana letter and its katakana are in the same row |
| Players.FirstLetterDecides | app/players/page.tsx:20-31 | a reading's row is the row of its first letter, whatever follows |
| Players.FirstRegion | app/players/page.tsx:37-42 | the first region in declaration order with a prefecture the birthplace names, or `海外` when none does |
| Players.SearchRegions | app/players/page.tsx:37-42 | the loop with its early return finds that first region |
| Players.RegionGroup | app/players/page.tsx:35-43 | `getRegionGroup` as it runs gives the region classification |
| Players.RegionInOrder | app/players/page.tsx:45 | every classification is one of the groups of `REGION_ORDER` |
| Players.RegionIsFirstMatch | app/players/page.tsx:35-43 | a missing birthplace, or one naming no prefecture, is `海外`; any other region is the first that names one |
| Players.TokyoIsKanto | app/players/page.tsx:9-11 | `東京都` contains `京都` but is filed under 関東甲信越エリア, which is declared first |
| Players.GroupByKana | app/players/page.tsx:85-90 | the default grouping has a group for each of the ten rows and `その他`, and each group holds exactly that row's players in list order |
| Players.GroupPlayers | app/players/page.tsx:75-91 | an `area` query gives the one group of that region; otherwise a `row` query gives the one group of that row; otherwise all kana groups |
| Players.KanaPartition | app/players/page.tsx:85-90 | in the default grouping every player is in the group of their row and in no other |
| Players.ActiveGroupsSpec | app/players/page.tsx:93 | the groups shown are exactly the non-empty groups, in key order |
| Tournaments.ArrayStatusAny | app/entry/page.tsx:29-30 | an array status says a target exactly when some option does; a one-option array matches like that single option |
| Tournaments.StatusIgnoresCase | app/entry/page.tsx:23-27 | a plain-string status says a target exactly when its lower-case form is the target |
| Entry.EntryListSpec | app/entry/page.tsx:22-34 | the entry list holds exactly the tournaments that are neither finished nor upcoming and have entry switched on or guidelines written, in CMS order |
| Entry.ScheduleSpec | app/entry/page.tsx:37-46 | the schedule holds every tournament without results as often as the CMS lists it, none with results, earliest date first |
| Entry.StatusLabel | app/entry/page.tsx:48-53 | FINISHED exactly when `checkResults` accepts the status; otherwise ENTRY OPEN exactly when entry is switched on, else UPCOMING |
| Entry.ChecksResultsMatches | app/entry/page.tsx:49 | whatever `checkResults` accepts, `checkMatch(_, 'results')` accepts |
| Entry.ChecksResultsSays | app/entry/page.tsx:49-50 | the same for a whole status field, single option or array |
| Entry.ScheduleNeverFinished | app/entry/page.tsx:37-53 | no schedule row is labelled FINISHED |
| Entry.ScheduleLinks | app/entry/page.tsx:136 | a schedule row links to its entry page exactly when entry is switched on |
| ResultsList.ListedIsResults | app/results/page.tsx:38-52 | the missing-status guard changes nothing: a tournament is listed exactly when its status says `results` |
| ResultsList.AllYearsSpec | app/results/page.tsx:55-58 | each year is offered once, in descending order, exactly when some listed tournament's date has it as its first four-digit run |
| ResultsList.SelectedYear | app/results/page.tsx:61 | the query's year, else `all` |
| Dates.DateKey | app/results/page.tsx:70-75 | a missing or empty date, or one with fewer than three digit runs, has the zero key; otherwise the key is the values of its first three digit runs, year first |
| Js.DigitRunsAppend | app/results/page.tsx:72 | the digit runs of two texts that do not join two digits are the runs of the first followed by those of the second; with a text without digits having none and a digit text being one run, this pins the runs down as the maximal runs of digits, left to right |
| Dates.DottedDateKey | app/results/page.tsx:70-75 | a date written `year.month.day` in digits is keyed by those three numbers |
| Dates.YearMonthKey | app/results/page.tsx:72-73 | a date with only a year and a month has too few digit runs and gets the zero key |
| ResultsList.SortLatestFirst | app/results/page.tsx:69-77 | the in-place sort leaves the array sorted, latest date first, stably |
| ResultsList.ResultsPage | app/results/page.tsx:38-77 | the page's computation, with its in-place sort, gives the years, the selected year and the list defined by the specification functions |
| ResultsList.ShownSpec | app/results/page.tsx:64-77 | the list holds each finished tournament of the chosen year (of every year for `all`) as often as the CMS lists it, and nothing else, latest date first |
| ResultsList.ShownStable | app/results/page.tsx:69-77 | tournaments on the same date keep their CMS order |
| About.ProPassedSpec | app/about/page.tsx:32 | exactly the players whose profile mentions `プロテスト合格`, anywhere in it, in CMS order |
| About.YearKey | app/about/page.tsx:51 | the year key is never empty, and is `OTHER` for a missing date |
| About.YearKeyBeforeDot | app/about/page.tsx:51 | the year key is the text before the first `.` of the date (all of it without a `.`), or `OTHER` when that text is empty |
| About.MonthLabel | app/about/page.tsx:194 | the month label is never empty, and is `--` for a missing date |
| About.SplitAfter | app/about/page.tsx:51 | splitting at a separator not in the first part peels that part off |
| About.DottedDate | app/about/page.tsx:51 | a date written year.month.day is filed under its year and shows its month |
| About.GroupInOrder | app/about/page.tsx:50-55 | the accumulator loop gives the keys in the order they are first met, and for each key exactly the elements with that key in list order |
| About.GroupByYear | app/about/page.tsx:50-55 | the same for tournaments grouped by year |
| About.GroupNonEmpty | app/about/page.tsx:50-55 | a year has a group exactly when some finished tournament is filed under it, and then the group is not empty |
| About.YearsSpec | app/about/page.tsx:57 | each year is listed once, in descending order, exactly when some finished tournament is filed under it |
| Media.AllYearsSpec | app/videos/page.tsx:41-44 | each year is offered once, in descending order, exactly when some item's date has it as its first four-digit run |
| Media.SelectedYear | app/videos/page.tsx:47 | the query's year, else the latest year, else the current year |
| Media.YearFilteredSpec | app/videos/page.tsx:48-50 | the items shown are those whose date contains the chosen year, in list order; all items when no date has a year |
| Media.DefaultIsLatest | app/photos/page.tsx:43 | without a query the latest year is selected |
| Media.DefaultYearShown | app/photos/page.tsx:43-47 | without a query a non-empty list never shows an empty page |
| Videos.VideoByType | app/videos/page.tsx:23-38 | no URL means no video; an untyped item with a URL is a video; a string type or an object type is compared by its id and value against the photo id and value; an array type is judged by its first option |
| Videos.VideoPageSpec | app/videos/page.tsx:23-50 | the page shows exactly the videos of the selected year, each with a URL, in list order; without a query the latest year is selected and a non-empty list is never empty |
| Photos.StringTypeComplement | app/photos/page.tsx:29-33 | for an item with a URL and a string type, exactly one of the video and gallery lists takes it |
| Photos.UntypedSplit | app/photos/page.tsx:26 | an untyped item with a URL is a video and not a gallery; one without a URL is a gallery exactly when it has pictures |
| Photos.PhotoIdOnBothPages | app/photos/page.tsx:33 | an object type with the id `photo` and another value, on an item with a URL, is taken by both pages |
| Photos.GalleryPageSpec | app/photos/page.tsx:37-47 | the grid holds exactly the galleries of the selected year; "no gallery registered" appears exactly when there is no gallery; "no gallery for the year" appears only for a year asked for in the query |
| Spectate.SpectateListSpec | app/spectate/page.tsx:22-35 | exactly the tournaments with gallery information whose status says neither `results` nor `upcoming`, in CMS order |
| Spectate.StringStatus | app/spectate/page.tsx:23-27 | for a plain-string status, a tournament with gallery information is listed exactly when its lower-cased status is neither `results` nor `upcoming` |
| Spectate.ArrayStatus | app/spectate/page.tsx:30-31 | one option saying `results` or `upcoming` in an array status keeps the tournament off the list |

## Left out

- Fetching from the CMS and reading files are not modelled. This covers
  pagination, `fs.existsSync`, `getCsvData`, and the `.catch` fallbacks.
  The pages' inputs are parameters: tournament, player and media records,
  and CSV rows as maps from column name to cell text.
- CSV parsing (`lib/csvParser.ts`) is not part of this model.
- NFKC normalisation is a parameter `normalize: string -> string`, since
  Unicode normalisation is not expressible here.
- `toLowerCase` is ASCII-only. This is exact for the status targets the
  pages compare with (`results`, `upcoming`).
- ResultDisplay.KeyIgnoresMarks and ResultDisplay.KeyIdempotent: stated for
  a name after Unicode normalisation, not for the raw name. NFKC runs
  before the marks are removed, so a mark between a letter and a combining
  sound mark (`か@` followed by U+3099) keeps the two from composing, and
  that name's key differs from that of `か` plus U+3099, which becomes `が`.
  Idempotence of the raw key also needs normalisation to leave keys alone.
- ResultDisplay.MatchKey: lower-cases ASCII letters only. JavaScript's
  `toLowerCase` in `getMatchKey` also folds other capitals (such as `É`,
  Greek and Cyrillic letters), so two names differing only in such a
  capital match on the page but not in the model.
- `localeCompare` is modelled as code-point order.
- The current year (`new Date().getFullYear()`) is a parameter.
- The configured two-day tournament id (`brillia2024`) is a parameter of
  `IsTwoDay`.
- Dates are (year, month, day) keys made from the first three digit runs
  of the text. Calendar overflow, two-digit years and timestamps before
  1970 are not modelled. The same key stands in for `new Date(date)` in
  the entry schedule.
- `parseInt(_, 10)` is modelled as the source has it: after optional
  white space and sign, it reads the leading decimal digits and ignores the
  rest (`72.5` reads 72, `0x1A` reads 0).
- `Number` accepts only optional-sign decimal integers. Decimals,
  hexadecimal and exponents are taken as not numbers.
- The player links (`playerInfoMap`), the affiliation label
  and the logo lookup are not modelled. These are lookups into data the
  component is handed.
- Markup, class names, banners, `rowSpan`/`colSpan` and the column headings
  are not modelled.
- `renderSafe` of an object cell is not modelled, because CSV cells are
  always text here.
- Null rows in `playerResults` are not modelled, because every row is a map.
- About.GroupByYear: the accumulator is a map. A year key that names a
  property of `Object.prototype` (such as `constructor`) is not modelled.
  The order of `Object.keys` is not needed, because the keys are sorted
  afterwards.
- Media.MediaItem: `images` is the length of the image list. The images'
  contents are not read by the list pages.
- ResultsList.SortLatestFirst: the sort works on a copy. It does not model
  that, for `all`, `filtered` is the same array as `allTournaments`, which
  the page does not read again.
- ResultDisplay.SumHoles: `sumHoles` is defined but never called by the
  page. The model proves its loop without tying it to a cell of the table.

## Findings

| source | as written | input that shows it | evidently intended | confidence | as-written member | corrected member |
|---|---|---|---|---|---|---|
| app/results/ResultDisplay.tsx:87 | the round-1 row is found by comparing the keys of `p.name` and `row.name` only | CSV files that name players under `Name` (or `選手名`, `氏名`, `player`, `Player`): every key is empty, and every player is merged with the first round-1 player's total | compare the keys of `getNameFromRow`, as the hole-by-hole lookup at lines 379-381 does | not executed | ResultDisplay.MergeMismatch | ResultDisplay.BoardsAgree |
| app/results/ResultDisplay.tsx:362 | the course-par cells read only `h{i}` and `H{i}` | a par row whose hole columns are `1` … `18`: the table is shown (line 35) and symbols are computed against it (line 428), but every course-par cell is empty | read `h{i}`, `H{i}` or `{i}`, like the symbol lookup | not executed | ResultRows.ParCellMissing | ResultRows.ParCellShown |

The model keeps both versions:
- The merge, the board and the rank lemmas take the round-1 lookup as a
  parameter (`Lookup`). `AsWritten` gives the page as it is (`FindRound1`),
  `ByShownName` the corrected page (`FindByName`). `MergeMismatch` shows the
  two boards differ; `BoardsAgree` shows they coincide when every row has a
  `name` cell.
- The course-par row uses `ParCell` and `CourseParCells`.
  `ParCellAsWritten` keeps the cells as written.
