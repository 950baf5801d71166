/** The ranking step of the leaderboard loader: `.sort((a, b) => b.score -
    a.score)`, modelled as a stable insertion sort driven by that comparator,
    with IEEE subtraction on scores and a NaN comparison counted as a tie. */
module Ranking {
  import opened JsValues
  import opened Normalize

  /** IEEE subtraction on JavaScript numbers (without rounding). */
  function Sub(a: JsNumber, b: JsNumber): JsNumber
  {
    if a.NaN? || b.NaN? then NaN
    else if a.PosInf? then (if b.PosInf? then NaN else PosInf)
    else if a.NegInf? then (if b.NegInf? then NaN else NegInf)
    else if b.PosInf? then NegInf
    else if b.NegInf? then PosInf
    else Finite(a.v - b.v)
  }

  predicate IsNegative(x: JsNumber)
  {
    x.NegInf? || (x.Finite? && x.v < 0.0)
  }

  /** The order of numbers other than NaN, with the infinities at the ends;
      nothing is below or above NaN. */
  predicate Less(x: JsNumber, y: JsNumber)
  {
    || (x.NegInf? && (y.Finite? || y.PosInf?))
    || (x.Finite? && (y.PosInf? || (y.Finite? && x.v < y.v)))
  }

  /** The comparator `(a, b) => b.score - a.score` asks for `a` to be placed
      ahead of `b`: its result is negative. A NaN result is read as zero. */
  predicate Before(a: Record, b: Record)
  {
    IsNegative(Sub(b.score, a.score))
  }

  /** The comparator puts `a` ahead of `b` exactly when `a` has the strictly
      higher score and neither score is NaN. */
  lemma BeforeIsHigherScore(a: Record, b: Record)
    ensures Before(a, b) <==> !a.score.NaN? && !b.score.NaN? && Less(b.score, a.score)
  {
  }

  /** Insert `x` into `t`, after every element the comparator puts ahead of
      it and before the first one it does not. */
  function Insert(x: Record, t: seq<Record>): (r: seq<Record>)
    ensures |r| == |t| + 1
    ensures multiset(r) == multiset(t) + multiset{x}
  {
    if t == [] then [x]
    else if Before(t[0], x) then
      assert t == [t[0]] + t[1..];
      [t[0]] + Insert(x, t[1..])
    else [x] + t
  }

  /** The stable sort of the loader: the earliest element is inserted into
      the sorted rest, ahead of every element that ties with it. */
  function SortByScore(s: seq<Record>): (r: seq<Record>)
    ensures |r| == |s|
    ensures multiset(r) == multiset(s)
  {
    if s == [] then []
    else
      assert s == [s[0]] + s[1..];
      Insert(s[0], SortByScore(s[1..]))
  }

  predicate ScoresAreNumbers(s: seq<Record>)
  {
    forall r :: r in s ==> !r.score.NaN?
  }

  /** No element is one the comparator would have put ahead of an earlier
      one. */
  predicate Sorted(s: seq<Record>)
  {
    forall i, j :: 0 <= i < j < |s| ==> !Before(s[j], s[i])
  }

  /** Scores never increase along the sequence. */
  predicate NonIncreasing(s: seq<Record>)
  {
    forall i, j :: 0 <= i < j < |s| ==> !Less(s[i].score, s[j].score)
  }

  /** Among records with equal scores, ids increase along the sequence. */
  predicate TiesById(s: seq<Record>)
  {
    forall i, j :: 0 <= i < j < |s| && s[i].score == s[j].score ==> s[i].id < s[j].id
  }

  lemma SortedIsNonIncreasing(s: seq<Record>)
    requires ScoresAreNumbers(s)
    ensures Sorted(s) <==> NonIncreasing(s)
  {
    forall i, j | 0 <= i < j < |s| ensures !Before(s[j], s[i]) <==> !Less(s[i].score, s[j].score) {
      assert s[i] in s && s[j] in s;
      BeforeIsHigherScore(s[j], s[i]);
    }
  }

  /** Without NaN, "not placed ahead of" is transitive. */
  lemma NotBeforeTransitive(a: Record, b: Record, c: Record)
    requires !a.score.NaN? && !b.score.NaN? && !c.score.NaN?
    requires !Before(a, b) && !Before(b, c)
    ensures !Before(a, c)
  {
    BeforeIsHigherScore(a, b);
    BeforeIsHigherScore(b, c);
    BeforeIsHigherScore(a, c);
  }

  /** Inserting a number-scored record into a sorted sequence of
      number-scored records keeps it sorted. */
  lemma {:induction false} InsertKeepsSorted(x: Record, t: seq<Record>)
    requires Sorted(t) && ScoresAreNumbers(t) && !x.score.NaN?
    ensures Sorted(Insert(x, t))
  {
    if t == [] {
    } else if Before(t[0], x) {
      var rest := Insert(x, t[1..]);
      InsertKeepsSorted(x, t[1..]);
      var r := [t[0]] + rest;
      forall i, j | 0 <= i < j < |r| ensures !Before(r[j], r[i]) {
        if i == 0 {
          assert r[j] in multiset(rest);
          if r[j] == x {
            BeforeIsHigherScore(t[0], x);
            BeforeIsHigherScore(x, t[0]);
          } else {
            assert r[j] in t[1..];
            var m :| 1 <= m < |t| && t[m] == r[j];
          }
        }
      }
    } else {
      var r := [x] + t;
      forall i, j | 0 <= i < j < |r| ensures !Before(r[j], r[i]) {
        if i == 0 && j > 1 {
          assert t[0] in t && t[j - 1] in t;
          NotBeforeTransitive(t[j - 1], t[0], x);
        }
      }
    }
  }

  /** The sort's result is sorted when no score is NaN. */
  lemma {:induction false} SortIsSorted(s: seq<Record>)
    requires ScoresAreNumbers(s)
    ensures Sorted(SortByScore(s))
  {
    if s != [] {
      SortIsSorted(s[1..]);
      var t := SortByScore(s[1..]);
      assert forall r :: r in t ==> r in multiset(s[1..]);
      InsertKeepsSorted(s[0], t);
    }
  }

  /** Inserting a record whose id is below every id in `t` keeps ties in
      ascending id order: the new record goes ahead of those it ties with. */
  lemma {:induction false} InsertKeepsTies(x: Record, t: seq<Record>)
    requires TiesById(t)
    requires forall y :: y in t ==> x.id < y.id
    ensures TiesById(Insert(x, t))
  {
    if t != [] && Before(t[0], x) {
      var rest := Insert(x, t[1..]);
      InsertKeepsTies(x, t[1..]);
      var r := [t[0]] + rest;
      forall i, j | 0 <= i < j < |r| && r[i].score == r[j].score ensures r[i].id < r[j].id {
        if i == 0 {
          assert r[j] in multiset(rest);
          if r[j] == x {
            BeforeIsHigherScore(t[0], x);
          } else {
            assert r[j] in t[1..];
            var m :| 1 <= m < |t| && t[m] == r[j];
          }
        }
      }
    } else if t != [] {
      var r := [x] + t;
      forall i, j | 0 <= i < j < |r| && r[i].score == r[j].score ensures r[i].id < r[j].id {
        if i == 0 {
          assert r[j] in t;
        }
      }
    }
  }

  /** The sort is stable: when ids increase along the input, records with
      equal scores come out in ascending id order. */
  lemma {:induction false} SortIsStable(s: seq<Record>)
    requires IdsIncrease(s)
    ensures TiesById(SortByScore(s))
  {
    if s != [] {
      SortIsStable(s[1..]);
      var t := SortByScore(s[1..]);
      forall y | y in t ensures s[0].id < y.id {
        assert y in multiset(s[1..]);
        var m :| 0 <= m < |s[1..]| && s[1..][m] == y;
        assert s[m + 1] == y;
      }
      InsertKeepsTies(s[0], t);
    }
  }

  /** Sorting an already sorted sequence changes nothing. */
  lemma {:induction false} SortOfSorted(s: seq<Record>)
    requires Sorted(s)
    ensures SortByScore(s) == s
  {
    if s != [] {
      SortOfSorted(s[1..]);
      assert s == [s[0]] + s[1..];
    }
  }

  /** Two such arrangements of the same records start with the same record. */
  lemma HeadsAgree(a: seq<Record>, b: seq<Record>)
    requires multiset(a) == multiset(b) && a != []
    requires ScoresAreNumbers(a)
    requires Sorted(a) && TiesById(a)
    requires Sorted(b) && TiesById(b)
    ensures b != [] && a[0] == b[0]
  {
    assert |b| == |multiset(b)| == |a|;
    if a[0] != b[0] {
      assert a[0] in multiset(b) && b[0] in multiset(a);
      var k :| 0 <= k < |b| && b[k] == a[0];
      var m :| 0 <= m < |a| && a[m] == b[0];
      assert a[0] in a && a[m] in a;
      BeforeIsHigherScore(b[k], b[0]);
      BeforeIsHigherScore(a[m], a[0]);
      assert false;
    }
  }

  /** There is only one arrangement of a collection of number-scored records
      that is sorted by score with ties in ascending id order. */
  lemma {:induction false} RankingIsUnique(a: seq<Record>, b: seq<Record>)
    requires multiset(a) == multiset(b)
    requires ScoresAreNumbers(a)
    requires Sorted(a) && TiesById(a)
    requires Sorted(b) && TiesById(b)
    ensures a == b
  {
    if a == [] {
      assert |b| == |multiset(b)| == 0;
    } else {
      HeadsAgree(a, b);
      TailOf(a);
      TailOf(b);
      RankingIsUnique(a[1..], b[1..]);
    }
  }

  /** Dropping the first record keeps a sequence sorted, tie-ordered and
      free of NaN, and removes one copy of that record. */
  lemma TailOf(a: seq<Record>)
    requires a != []
    ensures multiset(a[1..]) == multiset(a) - multiset{a[0]}
    ensures Sorted(a) ==> Sorted(a[1..])
    ensures TiesById(a) ==> TiesById(a[1..])
    ensures ScoresAreNumbers(a) ==> ScoresAreNumbers(a[1..])
  {
    assert a == [a[0]] + a[1..];
    TailSorted(a);
    TailTies(a);
    TailNumbers(a);
  }

  lemma TailSorted(a: seq<Record>)
    requires a != []
    ensures Sorted(a) ==> Sorted(a[1..])
  {
    var t := a[1..];
    if Sorted(a) {
      forall i, j | 0 <= i < j < |t| ensures !Before(t[j], t[i]) {
        assert t[i] == a[i + 1] && t[j] == a[j + 1];
      }
    }
  }

  lemma TailTies(a: seq<Record>)
    requires a != []
    ensures TiesById(a) ==> TiesById(a[1..])
  {
    var t := a[1..];
    if TiesById(a) {
      forall i, j | 0 <= i < j < |t| && t[i].score == t[j].score ensures t[i].id < t[j].id {
        assert t[i] == a[i + 1] && t[j] == a[j + 1];
      }
    }
  }

  lemma TailNumbers(a: seq<Record>)
    requires a != []
    ensures ScoresAreNumbers(a) ==> ScoresAreNumbers(a[1..])
  {
    forall r | r in a[1..] ensures r in a {
    }
  }
}
