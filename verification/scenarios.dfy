/** Worked examples of the loader on small CSV inputs, as rows after the
    reader's dynamic typing: numeric fields arrive as numbers, empty fields
    as null. */
module Scenarios {
  import opened JsValues
  import opened JsParse
  import opened Normalize
  import opened Ranking
  import opened Pipeline
  import opened NumberText

  /** A row of a `name,score` file whose score field is a whole number. */
  function NameScoreRow(name: Cell, score: int): Row
  {
    map["name" := name, "score" := Num(Decimal(score, 0))]
  }

  lemma AbsentAliases(c: Cell, s: int)
    ensures forall k :: k in NameKeys[1..] + ScoreKeys[1..] + LevelKeys + WinsKeys ==> k !in NameScoreRow(c, s)
  {
    assert NameScoreRow(c, s).Keys == {"name", "score"};
  }

  lemma NameField(c: Cell, s: int)
    ensures NameCell(NameScoreRow(c, s)) == if Truthy(c) then c else Str("")
  {
    AbsentAliases(c, s);
    FirstOfFour(NameScoreRow(c, s), "name", "Name", "player", "Player", Str(""));
  }

  lemma ScoreField(c: Cell, s: int)
    ensures ScoreOf(NameScoreRow(c, s)) == Finite(s as real)
  {
    ScoreCellField(c, s);
    WholeNumberReadsBack(s);
  }

  /** A zero score falls through to the default, which is zero as well. */
  lemma ScoreCellField(c: Cell, s: int)
    ensures ScoreCell(NameScoreRow(c, s)) == Num(Decimal(s, 0))
  {
    AbsentAliases(c, s);
    FirstOfFour(NameScoreRow(c, s), "score", "Score", "points", "Points", Zero);
  }

  lemma WholeNumberReadsBack(n: int)
    ensures ParseFloat(Num(Decimal(n, 0))) == Finite(n as real)
  {
    NumberCellReadsBack(Decimal(n, 0));
    WholeValue(n);
  }

  lemma WholeValue(n: int)
    ensures ValueOf(Decimal(n, 0)) == n as real
  {
    assert Pow10(0) == 1;
  }

  lemma OtherFields(c: Cell, s: int)
    ensures LevelOf(NameScoreRow(c, s)) == Str("-") && WinsOf(NameScoreRow(c, s)) == Finite(0.0)
  {
    AbsentAliases(c, s);
    FirstOfFour(NameScoreRow(c, s), "level", "Level", "rank", "Rank", LevelPlaceholder);
    FirstOfFour(NameScoreRow(c, s), "wins", "Wins", "games", "Games", Zero);
    ZeroParses();
  }

  /** The record of such a row: the name as given, the score as a number,
      the placeholder level and no wins. */
  lemma NameScoreRecord(name: string, score: int, idx: nat)
    requires name != [] && !IsSpace(name[0]) && !IsSpace(name[|name| - 1])
    ensures ToRecord(NameScoreRow(Str(name), score), idx)
            == Record(idx, name, Finite(score as real), Str("-"), Finite(0.0))
  {
    NameField(Str(name), score);
    TrimKeeps(name);
    ScoreField(Str(name), score);
    OtherFields(Str(name), score);
  }

  /** A row whose name field is empty gets an empty name. */
  lemma NullNameRecord(score: int, idx: nat)
    ensures ToRecord(NameScoreRow(Null, score), idx).name == []
  {
    NameField(Null, score);
    assert Trim("") == [];
  }

  lemma FourRecords(rs: seq<Record>, a: Record, b: Record, c: Record, d: Record)
    requires |rs| == 4 && rs[0] == a && rs[1] == b && rs[2] == c && rs[3] == d
    ensures rs == [a, b, c, d]
  {
  }

  lemma RecordsOfFour(rows: seq<Row>)
    requires |rows| == 4
    ensures ToRecords(rows) == [ToRecord(rows[0], 0), ToRecord(rows[1], 1), ToRecord(rows[2], 2), ToRecord(rows[3], 3)]
  {
    FourRecords(ToRecords(rows), ToRecord(rows[0], 0), ToRecord(rows[1], 1), ToRecord(rows[2], 2), ToRecord(rows[3], 3));
  }

  lemma RecordsOfOne(row: Row)
    ensures ToRecords([row]) == [ToRecord(row, 0)]
  {
  }

  /** Filtering four records of which the third has no name. */
  lemma KeepAllButThird(a: Record, b: Record, c: Record, d: Record)
    requires a.name != [] && b.name != [] && c.name == [] && d.name != []
    ensures KeepNamed([a, b, c, d]) == [a, b, d]
  {
    assert [a, b, c, d][1..] == [b, c, d];
    assert [b, c, d][1..] == [c, d];
    assert [c, d][1..] == [d];
    assert [d][1..] == [];
    assert KeepNamed([d]) == [d];
    assert KeepNamed([c, d]) == [d];
    assert KeepNamed([b, c, d]) == [b, d];
    assert KeepNamed([a, b, c, d]) == [a] + [b, d];
  }

  /** Sorting a low score followed by two equal higher ones. */
  lemma SortLowThenTie(a: Record, b: Record, d: Record, low: real, high: real)
    requires a.score == Finite(low) && b.score == Finite(high) && d.score == Finite(high)
    requires low < high
    ensures SortByScore([a, b, d]) == [b, d, a]
  {
    assert [a, b, d][1..] == [b, d];
    SortTie(b, d, high);
    InsertLowest(a, b, d, low, high);
  }

  lemma SortTie(b: Record, d: Record, high: real)
    requires b.score == Finite(high) && d.score == Finite(high)
    ensures SortByScore([b, d]) == [b, d]
  {
    assert [b, d][1..] == [d];
    assert [d][1..] == [];
    assert SortByScore([d]) == Insert(d, []) == [d];
    assert Insert(b, [d]) == [b, d];
  }

  lemma InsertLowest(a: Record, b: Record, d: Record, low: real, high: real)
    requires a.score == Finite(low) && b.score == Finite(high) && d.score == Finite(high)
    requires low < high
    ensures Insert(a, [b, d]) == [b, d, a]
  {
    assert [b, d][1..] == [d];
    assert [d][1..] == [];
    assert Insert(a, []) == [a];
    assert Insert(a, [d]) == [d, a];
    assert Insert(a, [b, d]) == [b] + Insert(a, [d]);
  }

  /** The rows of `name,score` / `Ada,100` / `Lin,250` / `,999` / `Bo,250`. */
  const TieRows: seq<Row> := [NameScoreRow(Str("Ada"), 100), NameScoreRow(Str("Lin"), 250),
                              NameScoreRow(Null, 999), NameScoreRow(Str("Bo"), 250)]
  const Ada: Record := Record(0, "Ada", Finite(100.0), Str("-"), Finite(0.0))
  const Lin: Record := Record(1, "Lin", Finite(250.0), Str("-"), Finite(0.0))
  const Bo: Record := Record(3, "Bo", Finite(250.0), Str("-"), Finite(0.0))

  /** Mapping and filtering four rows of which the third has no name. */
  lemma KeepOfFour(r0: Row, r1: Row, r2: Row, r3: Row, a: Record, b: Record, d: Record)
    requires ToRecord(r0, 0) == a && ToRecord(r1, 1) == b && ToRecord(r3, 3) == d
    requires a.name != [] && b.name != [] && ToRecord(r2, 2).name == [] && d.name != []
    ensures KeepNamed(ToRecords([r0, r1, r2, r3])) == [a, b, d]
  {
    RecordsOfFour([r0, r1, r2, r3]);
    KeepAllButThird(a, b, ToRecord(r2, 2), d);
  }

  lemma AdaRecord()
    ensures ToRecord(NameScoreRow(Str("Ada"), 100), 0) == Ada
  {
    NameScoreRecord("Ada", 100, 0);
  }

  lemma LinRecord()
    ensures ToRecord(NameScoreRow(Str("Lin"), 250), 1) == Lin
  {
    NameScoreRecord("Lin", 250, 1);
  }

  lemma BoRecord()
    ensures ToRecord(NameScoreRow(Str("Bo"), 250), 3) == Bo
  {
    NameScoreRecord("Bo", 250, 3);
  }

  lemma TieRecords()
    ensures KeepNamed(ToRecords(TieRows)) == [Ada, Lin, Bo]
  {
    AdaRecord();
    LinRecord();
    NullNameRecord(999, 2);
    BoRecord();
    KeepOfFour(NameScoreRow(Str("Ada"), 100), NameScoreRow(Str("Lin"), 250),
               NameScoreRow(Null, 999), NameScoreRow(Str("Bo"), 250), Ada, Lin, Bo);
  }

  /** `name,score` / `Ada,100` / `Lin,250` / `,999` / `Bo,250`: the row
      without a name is dropped whatever its score, and the two 250s keep
      their order. */
  lemma TiedScoresKeepFileOrder()
    ensures Process(TieRows) == [Lin, Bo, Ada]
  {
    TieRecords();
    SortLowThenTie(Ada, Lin, Bo, 100.0, 250.0);
  }

  /** The row of a `Player,Points` file. */
  function PlayerPointsRow(player: Cell, points: Cell): Row
  {
    map["Player" := player, "Points" := points]
  }

  lemma PlayerPointsAliases(p: Cell, q: Cell)
    ensures forall k :: k in NameKeys[..3] + ScoreKeys[..3] + LevelKeys + WinsKeys ==> k !in PlayerPointsRow(p, q)
  {
    assert PlayerPointsRow(p, q).Keys == {"Player", "Points"};
  }

  lemma PlayerPointsFields(p: Cell, q: Cell)
    requires Truthy(p) && Truthy(q)
    ensures NameCell(PlayerPointsRow(p, q)) == p && ScoreCell(PlayerPointsRow(p, q)) == q
  {
    PlayerPointsName(p, q);
    PlayerPointsScore(p, q);
  }

  lemma PlayerPointsName(p: Cell, q: Cell)
    requires Truthy(p)
    ensures NameCell(PlayerPointsRow(p, q)) == p
  {
    PlayerPointsAliases(p, q);
    FirstOfFour(PlayerPointsRow(p, q), "name", "Name", "player", "Player", Str(""));
  }

  lemma PlayerPointsScore(p: Cell, q: Cell)
    requires Truthy(q)
    ensures ScoreCell(PlayerPointsRow(p, q)) == q
  {
    PlayerPointsAliases(p, q);
    FirstOfFour(PlayerPointsRow(p, q), "score", "Score", "points", "Points", Zero);
  }

  lemma PlayerPointsDefaults(p: Cell, q: Cell)
    ensures LevelOf(PlayerPointsRow(p, q)) == Str("-") && WinsCell(PlayerPointsRow(p, q)) == Zero
  {
    PlayerPointsAliases(p, q);
    FirstOfFour(PlayerPointsRow(p, q), "level", "Level", "rank", "Rank", LevelPlaceholder);
    FirstOfFour(PlayerPointsRow(p, q), "wins", "Wins", "games", "Games", Zero);
  }

  lemma AbcIsNaN()
    ensures ParseFloat(Str("abc")) == NaN
  {
    assert LeadingSpaces("abc") == 0;
    assert Unsigned("abc") == (false, "abc");
  }

  /** A wins field of text that is not a number gives NaN wins, not 0. */
  lemma AbcWinsIsNaN()
    ensures ParseInt(Str("abc")) == NaN
  {
    assert LeadingSpaces("abc") == 0;
    assert Unsigned("abc") == (false, "abc");
  }

  /** `Player,Points` / `Kim,abc`: the aliases supply the name and the
      score, and a score that is not a number is NaN, not 0. */
  lemma TextScoreIsNaN()
    ensures Process([PlayerPointsRow(Str("Kim"), Str("abc"))])
            == [Record(0, "Kim", NaN, Str("-"), Finite(0.0))]
  {
    var row := PlayerPointsRow(Str("Kim"), Str("abc"));
    var r := Record(0, "Kim", NaN, Str("-"), Finite(0.0));
    KimRecord();
    RecordsOfOne(row);
    assert KeepNamed([r]) == [r];
  }

  lemma KimRecord()
    ensures ToRecord(PlayerPointsRow(Str("Kim"), Str("abc")), 0) == Record(0, "Kim", NaN, Str("-"), Finite(0.0))
  {
    PlayerPointsFields(Str("Kim"), Str("abc"));
    PlayerPointsDefaults(Str("Kim"), Str("abc"));
    TrimKeeps("Kim");
    AbcIsNaN();
    ZeroParses();
  }

  /** A wins field of 3.7 counts as 3 wins: parseInt reads the digits of
      the text "3.7" up to the point. */
  lemma FractionalWinsTruncate()
    ensures ParseInt(Num(Decimal(37, 1))) == Finite(3.0)
  {
    assert ParseInt(Num(Decimal(37, 1))) == ParseIntText(NumberToString(Decimal(37, 1)));
    ThreePointSeven();
    ThreePointSevenParses();
  }

  lemma ThreePointSevenParses()
    ensures ParseIntText("3.7") == Finite(3.0)
  {
    assert LeadingSpaces("3.7") == 0;
    assert Unsigned("3.7") == (false, "3.7");
    assert RadixRun("3.7", 10) == 1;
    assert "3.7"[..1] == "3";
    assert RadixValue("3", 10) == 3;
  }

  lemma ThreePointSeven()
    ensures NumberToString(Decimal(37, 1)) == "3.7"
  {
    assert StripZeros(37) == (37, 0);
    assert DigitsOf(37) == "37";
    assert DigitLayout("37", -1) == "3.7";
  }

  /** A file with a header and no data rows gives an empty ranking. */
  lemma NoRowsNoRanking()
    ensures Process([]) == []
  {
  }
}
