# Leaderboard loader: row normalisation, ranking and display tiers

This project models the logic of the leaderboard dashboard in `App.jsx`.
It has two pure pieces, and proves what each does.

- **The row pipeline of `loadCSV`.** It runs on the rows the CSV reader
  hands back.
  - **Map.** Each row becomes a record `{id, name, score, level, wins}`.
    - Each field comes from the first *truthy* of four alias headers, or
      from a default.
    - The name goes through `toString().trim()`.
    - The score goes through `parseFloat`.
    - The wins go through `parseInt`.
    - The id is the row's index.
  - **Filter.** Records with an empty name are dropped.
  - **Sort.** The rest are sorted with the comparator
    `(a, b) => b.score - a.score`.
- **The tier helpers.** `getMedalColor`, `getRankBadge` and `getRowStyle`
  map a position in the ranked list to its medal colour, badge and row
  style.

Modules, one per file:

- **`JsValues`** (`js_values.dfy`) covers the JavaScript values the
  pipeline handles:
  - the cells the reader's dynamic typing produces: text, an exact decimal
    number, a boolean, or null;
  - truthiness;
  - `String.prototype.trim`;
  - `Number::toString`, in its four layouts: whole, point, leading `0.`,
    and exponent.
- **`JsParse`** (`js_parse.dfy`) covers `parseFloat` and `parseInt`
  (sections 19.2.4 and 19.2.5 of ECMA-262). They act on text, and on a cell
  through its text form.
- **`NumberText`** (`number_text.dfy`) proves that the text a number cell
  converts to reads back, through `parseFloat`, as exactly that number.
  Whole numbers read back through `parseInt` too.
- **`Normalize`** (`normalize.dfy`) covers the alias lookup, the row
  mapping and the name filter.
- **`Ranking`** (`ranking.dfy`) models the comparator and the stable sort.
  - The comparator uses IEEE subtraction on scores.
  - The sort is a stable insertion sort. `Array.prototype.sort` is stable
    when its comparator is consistent (section 23.1.3.30 of ECMA-262),
    which this one is when no score is NaN.
- **`Pipeline`** (`pipeline.dfy`) is the whole map/filter/sort step and
  its properties.
- **`Tiers`** (`tiers.dfy`) covers the three display helpers.
- **`Scenarios`** (`scenarios.dfy`) works through small CSV inputs to
  their exact output.

How the model follows the code:

- **Non-numeric score or wins.** Such text gives NaN, not 0.
  - The code calls `parseFloat` and `parseInt` with no guard against NaN
    (`App.jsx:42`, `App.jsx:44`).
  - Only an absent or falsy field falls back to 0; text that is present
    but not a number is passed to the parser as it is.
  - `Scenarios.TextScoreIsNaN` and `Scenarios.AbcWinsIsNaN` show it.
- **Numeric cells.** They are exact decimals, not just integers.
  - `parseFloat` and `parseInt` first turn a cell into text.
  - The model therefore converts numbers to text and parses that text, as
    JavaScript does.
  - This is how a cell holding 3.7 counts as 3 wins
    (`Scenarios.FractionalWinsTruncate`).

## Model

| member | source | states |
|---|---|---|
| Pipeline.Process | App.jsx:38-47 | The output is a rearrangement of the kept records: the same multiset, and never longer than the parsed rows |
| Pipeline.OutputIsNamedRows | App.jsx:38-47 | A record is in the output exactly when it is the mapped record of the row at its id and its name is non-empty: filtering and sorting change no field |
| Pipeline.RowKeptIffNamed | App.jsx:41-46 | The row at index i reaches the output exactly when its name, after toString and trim, is non-empty: no other field decides it |
| Pipeline.NamesAreTrimmed | App.jsx:41-46 | Every output name is non-empty and already trimmed |
| Pipeline.IdsDistinct | App.jsx:39-47 | No two output records share an id |
| Pipeline.TiesKeepRowOrder | App.jsx:38-47 | When no kept score is NaN, the output keeps the rows' original order among equal scores |
| Pipeline.RankedByScore | App.jsx:42-47 | When no kept score is NaN, the output is sorted by score from highest to lowest |
| Pipeline.ScoresOfKept | App.jsx:42-47 | If no named row has a NaN score, neither the kept records nor the output contain one |
| Pipeline.ProcessIsTheRanking | App.jsx:38-47 | Without NaN scores, the output is the only arrangement of the kept records that is sorted by score with ties in row order |
| Pipeline.RerankingChangesNothing | App.jsx:47 | Without NaN scores, sorting the output again leaves it unchanged |
| Pipeline.OutputIsKept | App.jsx:46-47 | Sorting neither adds nor drops a record: the output holds exactly the named mapped records |
| Pipeline.RecordsByIndex | App.jsx:39-45 | The mapped records are exactly the records built from each row at its own index |
| Normalize.FirstTruthy | App.jsx:41-44 | An `a || b || c || d || fallback` chain yields the cell of the first alias that is present and truthy, and the fallback when none is |
| Normalize.FirstOfFour | App.jsx:41-44 | A four-alias chain equals the nested choice among the four aliases, then the fallback |
| Normalize.AliasPriority | App.jsx:41-44 | The name is read from name, Name, player, Player; the score from score, Score, points, Points; the level from level, Level, rank, Rank; and the wins from wins, Wins, games, Games. In each case a falsy cell falls through to the next alias |
| Normalize.Defaults | App.jsx:41-44 | With no truthy alias, the name is empty, the score and the wins are 0, and the level is "-" |
| Normalize.NameDefault | App.jsx:41 | With no truthy name alias, the name is empty |
| Normalize.ScoreDefault | App.jsx:42 | With no truthy score alias, the score is 0 |
| Normalize.WinsDefault | App.jsx:44 | With no truthy wins alias, the wins are 0 |
| Normalize.ZeroParses | App.jsx:42-44 | The default cell 0 parses as 0 through both parseFloat and parseInt |
| Normalize.ToRecords | App.jsx:38-45 | Each row gives one record, in order, whose id is the row's index |
| Normalize.KeepNamed | App.jsx:46 | The kept records are exactly the input records with a non-empty name |
| Normalize.KeepNamedKeepsOrder | App.jsx:46 | Filtering keeps the relative order of the records it keeps |
| Normalize.KeptExactlyWhenNamed | App.jsx:41-46 | A row's record survives the filter exactly when its name is non-empty. The name is empty exactly when the cell's text is all whitespace |
| JsValues.TruthyNumberIsNonZero | App.jsx:41-44 | A number cell is truthy exactly when its value is non-zero |
| JsValues.Trim | App.jsx:41 | The trimmed text is empty exactly when the input is all whitespace; otherwise it neither starts nor ends with whitespace |
| JsValues.TrimIsMiddle | App.jsx:41 | The trimmed text is a slice of the input with only whitespace on either side |
| JsValues.TrimKeeps | App.jsx:41 | Text that neither starts nor ends with whitespace is left unchanged by trim |
| JsValues.TrimIsIdempotent | App.jsx:41 | Trimming twice is trimming once |
| JsValues.NonTextCellHasText | App.jsx:41 | A truthy number or boolean used as a name gives a non-empty name that trim leaves unchanged |
| JsValues.NumberToString | App.jsx:41-44 | A number's text is non-empty, holds only number characters, and contains no whitespace |
| JsParse.ParseFloatText | App.jsx:42 | parseFloat gives NaN exactly when, after whitespace and a sign, the text starts with neither a decimal literal nor Infinity; it gives an infinity exactly when it starts with Infinity |
| JsParse.UnsignedDecimal | App.jsx:42 | An unsigned decimal prefix is NaN exactly when the text starts with neither a digit nor a point followed by a digit |
| JsParse.ParseIntText | App.jsx:44 | parseInt gives NaN exactly when no integer digits begin the text; otherwise it gives a whole number |
| JsParse.ZeroTextParses | App.jsx:42-44 | The text "0" parses as 0 through both functions |
| NumberText.NumberCellReadsBack | App.jsx:42 | parseFloat reads a number cell back as exactly the value it holds |
| NumberText.LayoutReadsBack | App.jsx:42 | Each of the four text layouts of Number::toString reads back as the value it was written for |
| NumberText.MagnitudeReadsBack | App.jsx:42 | The text of a positive decimal reads back as its value |
| NumberText.WholeCellParsesAsInteger | App.jsx:44 | parseInt reads a whole-number cell below 10^21 in magnitude back as exactly that number |
| NumberText.DigitsParseAsInteger | App.jsx:44 | parseInt reads a run of decimal digits as its decimal value |
| Ranking.BeforeIsHigherScore | App.jsx:47 | The comparator puts a first exactly when a's score is strictly higher and neither score is NaN |
| Ranking.Insert | App.jsx:47 | Insertion adds exactly the one record |
| Ranking.SortByScore | App.jsx:47 | The sort permutes its input |
| Ranking.SortIsSorted | App.jsx:47 | Without NaN, the sort's result never puts a record after one that the comparator would place behind it |
| Ranking.InsertKeepsSorted | App.jsx:47 | Inserting a number-scored record into a sorted sequence keeps it sorted |
| Ranking.SortedIsNonIncreasing | App.jsx:47 | Without NaN, being sorted by the comparator is the same as scores never increasing |
| Ranking.NotBeforeTransitive | App.jsx:47 | Without NaN, "not placed ahead of" is transitive |
| Ranking.SortIsStable | App.jsx:47 | When ids increase along the input, records with equal scores come out in ascending id order |
| Ranking.InsertKeepsTies | App.jsx:47 | Inserting a record with the lowest id keeps ties in ascending id order |
| Ranking.SortOfSorted | App.jsx:47 | Sorting an already sorted sequence changes nothing |
| Ranking.HeadsAgree | App.jsx:47 | Two sorted, tie-ordered arrangements of the same records start with the same record |
| Ranking.RankingIsUnique | App.jsx:47 | Two sorted, tie-ordered arrangements of the same number-scored records are equal |
| Ranking.TailOf | App.jsx:47 | Dropping the first record keeps a sequence sorted, tie-ordered and free of NaN |
| Tiers.MedalColor | App.jsx:80-87 | Indices 3 and up, and only those, get the default grey |
| Tiers.RankBadge | App.jsx:89-102 | Indices below 3, and only those, get a trophy in the medal colour. Every other index shows its 1-based place, which is above 3 |
| Tiers.RowStyle | App.jsx:104-108 | Exactly the indices below 3 are highlighted; every other row has the plain style |
| Tiers.TiersAgree | App.jsx:80-108 | The three helpers agree on which places are the podium |
| Tiers.PodiumIsDistinct | App.jsx:80-96 | The three podium places have pairwise distinct medal colours and rings |
| Tiers.PositionsCount | App.jsx:97-101 | Below the podium, consecutive indices show consecutive place numbers |
| Tiers.PodiumOutscoresField | App.jsx:47-108 | Without NaN, every podium record scores at least as much as every record below the podium |
| Scenarios.TiedScoresKeepFileOrder | App.jsx:38-47 | Rows Ada 100, Lin 250, an unnamed 999 and Bo 250 give Lin, Bo, Ada: the unnamed row is dropped and the tie keeps file order |
| Scenarios.TieRecords | App.jsx:38-46 | Those rows map and filter to Ada, Lin, Bo |
| Scenarios.TextScoreIsNaN | App.jsx:41-47 | A Player/Points row with score text "abc" is kept, with a NaN score, the placeholder level and 0 wins |
| Scenarios.AbcIsNaN | App.jsx:42 | parseFloat of the text "abc" is NaN |
| Scenarios.AbcWinsIsNaN | App.jsx:44 | parseInt of the text "abc" is NaN |
| Scenarios.FractionalWinsTruncate | App.jsx:44 | A wins cell of 3.7 becomes the text "3.7", which parseInt reads as 3 |
| Scenarios.PlayerPointsFields | App.jsx:41-42 | In a row with only Player and Points headers, those supply the name and the score |
| Scenarios.PlayerPointsDefaults | App.jsx:43-44 | Such a row gets the level "-" and the wins cell 0 |
| Scenarios.NameScoreRecord | App.jsx:39-45 | A name/score row with an untrimmable name maps to that name, its score, the level "-" and 0 wins |
| Scenarios.NullNameRecord | App.jsx:41 | A row whose name field is empty gets an empty name |
| Scenarios.NoRowsNoRanking | App.jsx:38-47 | No data rows give an empty ranking |

## Left out

- **Fetching the CSV** (`App.jsx:25-30`): network I/O.
- **CSV parsing by Papa.parse** (`App.jsx:32-35`, `App.jsx:57-60`). This
  covers tokenising, headers, `skipEmptyLines` and dynamic typing. It is a
  third-party library whose source is not part of this model. Its output,
  a sequence of header-to-cell maps, is the model's input.
- **React state, `useEffect` and the auto-refresh timer**
  (`App.jsx:16-22`, `App.jsx:49-55`, `App.jsx:62-78`): UI state and timer
  wiring.
- **The processing-error branch** (`App.jsx:52-55`). Nothing in the
  modelled mapping can throw, because every cell has a text form, so the
  branch is not modelled.
- **JSX markup, CSS classes other than the tier choice, and
  `toLocaleString` / `toLocaleTimeString`** (`App.jsx:110-263`):
  presentation only.
- **Binary64 arithmetic.** Numbers are exact decimals and reals. This has
  three consequences:
  - The rounding of dynamic typing, `parseFloat` and subtraction is not
    modelled.
  - Overflow to an infinity is not modelled.
  - The reader's conversion of very long digit strings is not modelled.
- **Ordering under NaN.** A NaN difference makes the comparator
  inconsistent, and the order an engine then produces is
  implementation-defined.
  - The model reads a NaN difference as a tie in a stable insertion sort.
  - Sortedness (`Ranking.SortIsSorted`, `Pipeline.RankedByScore`) is
    stated only when no kept score is NaN.
  - Tie order (`Pipeline.TiesKeepRowOrder`) is stated only under the same
    condition: with a NaN score the program promises no order at all, ties
    included.
  - Permutation, distinct ids and the filter hold without that condition,
    because they do not depend on the order.
- Ranking.SortIsStable: states the tie order of the model's insertion sort
  for any scores. The program promises a tie order only when no score is
  NaN, so with NaN the lemma describes the model's reading, not the
  program's.
- **Dates.** Cells that dynamic typing turns into dates are not modelled:
  the cell type has text, numbers, booleans and null only.
- NumberText.WholeCellParsesAsInteger: stated only below 10^21 in
  magnitude. From 10^21 up, the text uses exponent notation and parseInt
  stops at the `e`, so it reads only the leading digits.
- **folder_structure.py**: a shell script of `mkdir`, `touch`, `git` and
  `gh` calls, with no logic to model.
