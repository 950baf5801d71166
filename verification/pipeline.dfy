/** The whole row-processing step of the leaderboard loader: map every
    parsed row to a record, keep the named ones, rank them by score. */
module Pipeline {
  import opened JsValues
  import opened Normalize
  import opened Ranking

  /** `results.data.map(...).filter(...).sort(...)` */
  function Process(rows: seq<Row>): (out: seq<Record>)
    ensures |out| <= |rows|
    ensures multiset(out) == multiset(KeepNamed(ToRecords(rows)))
  {
    SortByScore(KeepNamed(ToRecords(rows)))
  }

  /** Every score among the rows that are kept is a number. */
  predicate NamedScoresAreNumbers(rows: seq<Row>)
  {
    forall i :: 0 <= i < |rows| && NameOf(rows[i]) != [] ==> !ScoreOf(rows[i]).NaN?
  }

  /** The output holds exactly the records of the rows with a non-blank
      name, each as the row mapping built it: filtering and sorting change
      no field, and the id is the row's index in the parsed data. */
  lemma OutputIsNamedRows(rows: seq<Row>)
    ensures forall r :: r in Process(rows) <==> r.id < |rows| && r == ToRecord(rows[r.id], r.id) && r.name != []
  {
    OutputIsKept(rows);
    RecordsByIndex(rows);
  }

  /** Sorting neither adds nor drops a record. */
  lemma OutputIsKept(rows: seq<Row>)
    ensures forall r :: r in Process(rows) <==> r in ToRecords(rows) && r.name != []
  {
    var kept := KeepNamed(ToRecords(rows));
    forall r ensures r in Process(rows) <==> r in kept {
      calc {
        r in Process(rows);
        r in multiset(Process(rows));
        r in multiset(kept);
        r in kept;
      }
    }
  }

  /** The mapped records are the rows' records, each at its own index. */
  lemma RecordsByIndex(rows: seq<Row>)
    ensures forall r :: r in ToRecords(rows) <==> r.id < |rows| && r == ToRecord(rows[r.id], r.id)
  {
    var rs := ToRecords(rows);
    forall r ensures r in rs <==> r.id < |rows| && r == ToRecord(rows[r.id], r.id) {
      if r in rs {
        var i :| 0 <= i < |rs| && rs[i] == r;
        assert r.id == i;
      }
      if r.id < |rows| && r == ToRecord(rows[r.id], r.id) {
        assert rs[r.id] == r;
      }
    }
  }

  /** A row reaches the output exactly when its name, after `toString()` and
      `trim()`, is non-empty: no other field decides it. */
  lemma RowKeptIffNamed(rows: seq<Row>, i: nat)
    requires i < |rows|
    ensures ToRecord(rows[i], i) in Process(rows) <==> NameOf(rows[i]) != []
  {
    OutputIsNamedRows(rows);
  }

  /** Every name in the output is non-empty and already trimmed. */
  lemma NamesAreTrimmed(rows: seq<Row>)
    ensures forall r :: r in Process(rows) ==> r.name != [] && Trim(r.name) == r.name
  {
    OutputIsNamedRows(rows);
    forall r | r in Process(rows) ensures Trim(r.name) == r.name {
      TrimIsIdempotent(ToText(NameCell(rows[r.id])));
    }
  }

  /** When every kept score is a number, the output keeps the rows' original
      order among equal scores. With a NaN score the comparator is
      inconsistent and JavaScript leaves the whole order, ties included, to
      the engine. */
  lemma TiesKeepRowOrder(rows: seq<Row>)
    requires NamedScoresAreNumbers(rows)
    ensures TiesById(Process(rows))
  {
    KeepNamedKeepsOrder(ToRecords(rows));
    SortIsStable(KeepNamed(ToRecords(rows)));
  }

  /** No two output records share an id, so the id identifies a record. */
  lemma IdsDistinct(rows: seq<Row>)
    ensures forall i, j :: 0 <= i < j < |Process(rows)| ==> Process(rows)[i].id != Process(rows)[j].id
  {
    var out := Process(rows);
    OutputIsNamedRows(rows);
    KeepNamedKeepsOrder(ToRecords(rows));
    SortIsStable(KeepNamed(ToRecords(rows)));
    forall i, j | 0 <= i < j < |out| ensures out[i].id != out[j].id {
      assert out[i] in out && out[j] in out;
    }
  }

  /** When every kept score is a number, the output runs from the highest
      score to the lowest. */
  lemma RankedByScore(rows: seq<Row>)
    requires NamedScoresAreNumbers(rows)
    ensures Sorted(Process(rows)) && NonIncreasing(Process(rows))
  {
    ScoresOfKept(rows);
    SortIsSorted(KeepNamed(ToRecords(rows)));
    SortedIsNonIncreasing(Process(rows));
  }

  lemma ScoresOfKept(rows: seq<Row>)
    requires NamedScoresAreNumbers(rows)
    ensures ScoresAreNumbers(KeepNamed(ToRecords(rows)))
    ensures ScoresAreNumbers(Process(rows))
  {
    OutputIsNamedRows(rows);
    var kept := KeepNamed(ToRecords(rows));
    forall r | r in kept ensures !r.score.NaN? {
      assert r in multiset(Process(rows));
    }
  }

  /** The output is the only arrangement of the kept records that is sorted
      by score and keeps ties in row order. */
  lemma ProcessIsTheRanking(rows: seq<Row>, ranking: seq<Record>)
    requires NamedScoresAreNumbers(rows)
    requires multiset(ranking) == multiset(KeepNamed(ToRecords(rows)))
    requires Sorted(ranking) && TiesById(ranking)
    ensures ranking == Process(rows)
  {
    ScoresOfKept(rows);
    RankedByScore(rows);
    TiesKeepRowOrder(rows);
    RankingIsUnique(Process(rows), ranking);
  }

  /** Ranking the output once more changes nothing. */
  lemma RerankingChangesNothing(rows: seq<Row>)
    requires NamedScoresAreNumbers(rows)
    ensures SortByScore(Process(rows)) == Process(rows)
  {
    RankedByScore(rows);
    SortOfSorted(Process(rows));
  }
}
