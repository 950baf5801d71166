/** The row mapping and filtering of the leaderboard loader: each parsed CSV
    row becomes a record whose fields are taken from the first truthy of a
    fixed list of alias headers, and records whose trimmed name is empty are
    dropped. */
module Normalize {
  import opened JsValues
  import opened JsParse

  /** A parsed CSV row: header to cell. A header the row lacks reads as
      undefined. */
  type Row = map<string, Cell>

  /** One leaderboard entry. `id` is the row's index in the parsed data. */
  datatype Record = Record(id: nat, name: string, score: JsNumber, level: Cell, wins: JsNumber)

  const NameKeys: seq<string> := ["name", "Name", "player", "Player"]
  const ScoreKeys: seq<string> := ["score", "Score", "points", "Points"]
  const LevelKeys: seq<string> := ["level", "Level", "rank", "Rank"]
  const WinsKeys: seq<string> := ["wins", "Wins", "games", "Games"]

  /** The cell the text of a level takes when no alias holds one. */
  const LevelPlaceholder: Cell := Str("-")
  const Zero: Cell := Num(Decimal(0, 0))

  /** Whether `row[key]` is present and truthy. */
  predicate TruthyAt(row: Row, key: string)
  {
    key in row && Truthy(row[key])
  }

  /** `row[k0] || row[k1] || ... || fallback`: the value of the first key
      whose cell is truthy, or the fallback when there is none. */
  function FirstTruthy(row: Row, keys: seq<string>, fallback: Cell): (c: Cell)
    ensures (forall i :: 0 <= i < |keys| ==> !TruthyAt(row, keys[i])) ==> c == fallback
    ensures forall i :: (0 <= i < |keys| && TruthyAt(row, keys[i])
                         && forall j :: 0 <= j < i ==> !TruthyAt(row, keys[j])) ==> c == row[keys[i]]
  {
    if keys == [] then fallback
    else if TruthyAt(row, keys[0]) then row[keys[0]]
    else
      var c := FirstTruthy(row, keys[1..], fallback);
      assert forall i :: 1 <= i < |keys| ==> keys[i] == keys[1..][i - 1];
      c
  }

  function NameCell(row: Row): Cell { FirstTruthy(row, NameKeys, Str("")) }
  function ScoreCell(row: Row): Cell { FirstTruthy(row, ScoreKeys, Zero) }
  function LevelOf(row: Row): Cell { FirstTruthy(row, LevelKeys, LevelPlaceholder) }
  function WinsCell(row: Row): Cell { FirstTruthy(row, WinsKeys, Zero) }

  /** `(... || '').toString().trim()` */
  function NameOf(row: Row): string { Trim(ToText(NameCell(row))) }
  /** `parseFloat(... || 0)`, with no guard against NaN. */
  function ScoreOf(row: Row): JsNumber { ParseFloat(ScoreCell(row)) }
  /** `parseInt(... || 0)`, with no guard against NaN. */
  function WinsOf(row: Row): JsNumber { ParseInt(WinsCell(row)) }

  /** The record the loader builds from the row at index `idx`. */
  function ToRecord(row: Row, idx: nat): Record
  {
    Record(idx, NameOf(row), ScoreOf(row), LevelOf(row), WinsOf(row))
  }

  /** `rows.map((row, idx) => ...)` */
  function ToRecords(rows: seq<Row>): (rs: seq<Record>)
    ensures |rs| == |rows|
    ensures forall i :: 0 <= i < |rs| ==> rs[i].id == i
    ensures forall i :: 0 <= i < |rs| ==> rs[i] == ToRecord(rows[i], i)
  {
    seq(|rows|, i requires 0 <= i < |rows| => ToRecord(rows[i], i))
  }

  /** `.filter(item => item.name)`: the records whose name is non-empty, in
      their original order. */
  function KeepNamed(rs: seq<Record>): (kept: seq<Record>)
    ensures |kept| <= |rs|
    ensures forall r :: r in kept <==> r in rs && r.name != []
  {
    if rs == [] then []
    else if rs[0].name != [] then [rs[0]] + KeepNamed(rs[1..])
    else KeepNamed(rs[1..])
  }

  /** Ids that increase strictly along the sequence. */
  predicate IdsIncrease(rs: seq<Record>)
  {
    forall i, j :: 0 <= i < j < |rs| ==> rs[i].id < rs[j].id
  }

  /** Filtering keeps the order of what it keeps. */
  lemma {:induction false} KeepNamedKeepsOrder(rs: seq<Record>)
    requires IdsIncrease(rs)
    ensures IdsIncrease(KeepNamed(rs))
  {
    if rs != [] {
      KeepNamedKeepsOrder(rs[1..]);
      var rest := KeepNamed(rs[1..]);
      if rs[0].name != [] {
        var kept := [rs[0]] + rest;
        forall i, j | 0 <= i < j < |kept| ensures kept[i].id < kept[j].id {
          if i == 0 {
            assert kept[j] in rs[1..];
          }
        }
      }
    }
  }

  /** A four-alias chain `row[a] || row[b] || row[c] || row[d] || fallback`. */
  lemma {:induction false} FirstOfFour(row: Row, a: string, b: string, c: string, d: string, fallback: Cell)
    ensures FirstTruthy(row, [a, b, c, d], fallback)
            == if TruthyAt(row, a) then row[a]
               else if TruthyAt(row, b) then row[b]
               else if TruthyAt(row, c) then row[c]
               else if TruthyAt(row, d) then row[d]
               else fallback
  {
    assert [a, b, c, d][1..] == [b, c, d];
    assert [b, c, d][1..] == [c, d];
    assert [c, d][1..] == [d];
    assert [d][1..] == [];
    assert FirstTruthy(row, [d], fallback) == if TruthyAt(row, d) then row[d] else fallback;
    assert FirstTruthy(row, [c, d], fallback)
           == if TruthyAt(row, c) then row[c] else FirstTruthy(row, [d], fallback);
    assert FirstTruthy(row, [b, c, d], fallback)
           == if TruthyAt(row, b) then row[b] else FirstTruthy(row, [c, d], fallback);
  }

  /** Which alias each field is read from: the first truthy one, in the
      order the loader lists them, so a present but falsy cell (empty text,
      zero, false, null) falls through to the next alias, and the default
      applies when none is truthy. */
  lemma AliasPriority(row: Row)
    ensures NameCell(row)
            == if TruthyAt(row, "name") then row["name"]
               else if TruthyAt(row, "Name") then row["Name"]
               else if TruthyAt(row, "player") then row["player"]
               else if TruthyAt(row, "Player") then row["Player"]
               else Str("")
    ensures ScoreCell(row)
            == if TruthyAt(row, "score") then row["score"]
               else if TruthyAt(row, "Score") then row["Score"]
               else if TruthyAt(row, "points") then row["points"]
               else if TruthyAt(row, "Points") then row["Points"]
               else Zero
    ensures LevelOf(row)
            == if TruthyAt(row, "level") then row["level"]
               else if TruthyAt(row, "Level") then row["Level"]
               else if TruthyAt(row, "rank") then row["rank"]
               else if TruthyAt(row, "Rank") then row["Rank"]
               else Str("-")
    ensures WinsCell(row)
            == if TruthyAt(row, "wins") then row["wins"]
               else if TruthyAt(row, "Wins") then row["Wins"]
               else if TruthyAt(row, "games") then row["games"]
               else if TruthyAt(row, "Games") then row["Games"]
               else Zero
  {
    FirstOfFour(row, "name", "Name", "player", "Player", Str(""));
    FirstOfFour(row, "score", "Score", "points", "Points", Zero);
    FirstOfFour(row, "level", "Level", "rank", "Rank", LevelPlaceholder);
    FirstOfFour(row, "wins", "Wins", "games", "Games", Zero);
  }

  /** A field whose aliases are all absent or falsy takes its default: an
      empty name (so the row is dropped), score 0, wins 0, and the
      placeholder level "-". */
  lemma Defaults(row: Row)
    ensures (forall k :: k in NameKeys ==> !TruthyAt(row, k)) ==> NameOf(row) == []
    ensures (forall k :: k in ScoreKeys ==> !TruthyAt(row, k)) ==> ScoreOf(row) == Finite(0.0)
    ensures (forall k :: k in LevelKeys ==> !TruthyAt(row, k)) ==> LevelOf(row) == Str("-")
    ensures (forall k :: k in WinsKeys ==> !TruthyAt(row, k)) ==> WinsOf(row) == Finite(0.0)
  {
    NameDefault(row);
    ScoreDefault(row);
    FirstOfFour(row, "level", "Level", "rank", "Rank", LevelPlaceholder);
    WinsDefault(row);
  }

  lemma NameDefault(row: Row)
    ensures (forall k :: k in NameKeys ==> !TruthyAt(row, k)) ==> NameOf(row) == []
  {
    FirstOfFour(row, "name", "Name", "player", "Player", Str(""));
    assert Trim("") == [];
  }

  lemma ScoreDefault(row: Row)
    ensures (forall k :: k in ScoreKeys ==> !TruthyAt(row, k)) ==> ScoreOf(row) == Finite(0.0)
  {
    FirstOfFour(row, "score", "Score", "points", "Points", Zero);
    ZeroParses();
  }

  lemma WinsDefault(row: Row)
    ensures (forall k :: k in WinsKeys ==> !TruthyAt(row, k)) ==> WinsOf(row) == Finite(0.0)
  {
    FirstOfFour(row, "wins", "Wins", "games", "Games", Zero);
    ZeroParses();
  }

  lemma ZeroParses()
    ensures ParseFloat(Zero) == Finite(0.0)
    ensures ParseInt(Zero) == Finite(0.0)
  {
    assert ToText(Zero) == "0";
    ZeroTextParses();
  }

  /** A row is kept exactly when its name, after trimming, is non-empty:
      a blank or missing name drops it whatever its other fields hold, and
      no other field ever drops it. */
  lemma {:induction false} KeptExactlyWhenNamed(rows: seq<Row>, i: nat)
    requires i < |rows|
    ensures ToRecord(rows[i], i) in KeepNamed(ToRecords(rows)) <==> NameOf(rows[i]) != []
    ensures NameOf(rows[i]) == [] <==> AllSpace(ToText(NameCell(rows[i])))
  {
    assert ToRecords(rows)[i] == ToRecord(rows[i], i);
  }
}
