/** The dashboard's statistics over a player's stored scores: average, best
    and first handicap, each rounded to one decimal, and the number of rounds.

    Stored figures are held here as whole hundredths: the add-score form
    stores two-decimal figures and the live scorecard one-decimal figures, and
    both are whole numbers of hundredths. */
module Dashboard {
  import opened Wrappers
  import opened Rounding
  import opened Handicap

  /** The two handicap columns of one stored score, in hundredths. */
  datatype ScoreRow = ScoreRow(simpleHandicap: Option<int>, scoreDifferential: Option<int>)

  /** The statistics query's result. */
  datatype Stats =
    | NoScores                       // no rows at all: the query yields null
    | NotANumber(totalRounds: nat)   // rows, but no handicap survives: 0/0, Math.min() of nothing, and an undefined first element
    | Summary(avgHandicap: int, bestHandicap: int, latestHandicap: int, totalRounds: nat)  // figures in tenths

  /** The row a stored calculator result becomes, its figures in hundredths. */
  function StoredRow(r: HandicapResult, p: Precision): (row: ScoreRow)
    ensures row.simpleHandicap.Some? == r.simpleHandicap.Some?
    ensures row.scoreDifferential.Some? == r.scoreDifferential.Some?
    ensures r.simpleHandicap.Some? ==> row.simpleHandicap == Some(r.simpleHandicap.value * (100 / p.Scale()))
    ensures r.scoreDifferential.Some? ==> row.scoreDifferential == Some(r.scoreDifferential.value * (100 / p.Scale()))
  {
    var k := if p.Tenths? then 10 else 1;
    ScoreRow(
      if r.simpleHandicap.Some? then Some(r.simpleHandicap.value * k) else None,
      if r.scoreDifferential.Some? then Some(r.scoreDifferential.value * k) else None)
  }

  /** The rows the statistics query fetches: only those whose simple handicap
      is not null, in the order the store returns them. */
  function FetchedRows(rows: seq<ScoreRow>): (r: seq<ScoreRow>)
    ensures |r| <= |rows|
    ensures forall i | 0 <= i < |r| :: r[i].simpleHandicap.Some?
    ensures r == [] <==> forall i | 0 <= i < |rows| :: rows[i].simpleHandicap.None?
  {
    if rows == [] then []
    else if rows[0].simpleHandicap.Some? then [rows[0]] + FetchedRows(rows[1..])
    else FetchedRows(rows[1..])
  }

  /** The query returns exactly the stored rows whose simple handicap is
      not null: each such row is fetched and each fetched row is stored. */
  lemma {:induction false} FetchedRowsMembers(rows: seq<ScoreRow>)
    ensures forall i | 0 <= i < |FetchedRows(rows)| :: FetchedRows(rows)[i] in rows
    ensures forall i | 0 <= i < |rows| :: rows[i].simpleHandicap.Some? ==> rows[i] in FetchedRows(rows)
  {
    if rows != [] {
      var rest := FetchedRows(rows[1..]);
      FetchedRowsMembers(rows[1..]);
      var head := if rows[0].simpleHandicap.Some? then [rows[0]] else [];
      assert FetchedRows(rows) == head + rest;
      forall i | 0 <= i < |rows| && rows[i].simpleHandicap.Some?
        ensures rows[i] in FetchedRows(rows)
      {
        if i > 0 {
          assert rows[i] == rows[1..][i - 1];
          assert rows[i] in rest;
        }
      }
      forall i | 0 <= i < |FetchedRows(rows)|
        ensures FetchedRows(rows)[i] in rows
      {
        if i >= |head| {
          assert FetchedRows(rows)[i] == rest[i - |head|];
          assert rest[i - |head|] in rows[1..];
        }
      }
    }
  }

  /** A row's handicap, `simple_handicap || score_differential`: the simple
      handicap when it is present and not zero, the differential otherwise. */
  function RowHandicap(row: ScoreRow): Option<int> {
    if Truthy(row.simpleHandicap) then row.simpleHandicap else row.scoreDifferential
  }

  /** What `||` means for a row: a row has no handicap exactly when its
      simple handicap is null or 0 and it has no differential; a handicap
      is always one of the row's two figures; and a handicap of 0 can only
      come from the differential, never from a simple handicap of 0. */
  lemma RowHandicapCases(row: ScoreRow)
    ensures RowHandicap(row).None? <==> !Truthy(row.simpleHandicap) && row.scoreDifferential.None?
    ensures RowHandicap(row).Some? ==> RowHandicap(row) == row.simpleHandicap || RowHandicap(row) == row.scoreDifferential
    ensures RowHandicap(row) == Some(0) ==> row.scoreDifferential == Some(0)
    ensures row.simpleHandicap.Some? && row.simpleHandicap.value != 0 ==> RowHandicap(row) == row.simpleHandicap
  {
  }

  /** The handicaps collected from the rows, in row order, nulls dropped. */
  function Handicaps(rows: seq<ScoreRow>): (hs: seq<int>)
    ensures |hs| <= |rows|
    ensures (forall i | 0 <= i < |rows| :: RowHandicap(rows[i]).None?) ==> hs == []
  {
    if rows == [] then []
    else
      match RowHandicap(rows[0])
      case Some(h) => [h] + Handicaps(rows[1..])
      case None => Handicaps(rows[1..])
  }

  /** What one row contributes to the collected handicaps. */
  function RowContribution(row: ScoreRow): seq<int> {
    if RowHandicap(row).Some? then [RowHandicap(row).value] else []
  }

  /** Every non-null row handicap is collected. */
  lemma {:induction false} HandicapsCollectAll(rows: seq<ScoreRow>)
    ensures forall i | 0 <= i < |rows| :: RowHandicap(rows[i]).Some? ==> RowHandicap(rows[i]).value in Handicaps(rows)
  {
    if rows != [] {
      var rest := Handicaps(rows[1..]);
      HandicapsCollectAll(rows[1..]);
      assert Handicaps(rows) == RowContribution(rows[0]) + rest;
      forall i | 0 <= i < |rows| && RowHandicap(rows[i]).Some?
        ensures RowHandicap(rows[i]).value in Handicaps(rows)
      {
        if i > 0 {
          assert rows[i] == rows[1..][i - 1];
          assert RowHandicap(rows[i]).value in rest;
        }
      }
    }
  }

  /** Every collected value is some row's handicap. */
  lemma {:induction false} HandicapsComeFromRows(rows: seq<ScoreRow>)
    ensures forall k | 0 <= k < |Handicaps(rows)| :: exists i | 0 <= i < |rows| :: RowHandicap(rows[i]) == Some(Handicaps(rows)[k])
  {
    if rows != [] {
      var rest := Handicaps(rows[1..]);
      HandicapsComeFromRows(rows[1..]);
      var head := RowContribution(rows[0]);
      assert Handicaps(rows) == head + rest;
      forall k | 0 <= k < |Handicaps(rows)|
        ensures exists i | 0 <= i < |rows| :: RowHandicap(rows[i]) == Some(Handicaps(rows)[k])
      {
        if k < |head| {
          assert RowHandicap(rows[0]) == Some(Handicaps(rows)[k]);
        } else {
          assert Handicaps(rows)[k] == rest[k - |head|];
          var j :| 0 <= j < |rows[1..]| && RowHandicap(rows[1..][j]) == Some(rest[k - |head|]);
          assert RowHandicap(rows[j + 1]) == Some(Handicaps(rows)[k]);
        }
      }
    } else {
      assert |Handicaps(rows)| == 0;
    }
  }

  /** The collection keeps the rows' order and multiplicity: one row gives
      its handicap if it has one, and the handicaps of two runs of rows are
      those of the first followed by those of the second. */
  lemma {:induction false} HandicapsAppend(a: seq<ScoreRow>, b: seq<ScoreRow>)
    ensures |a| == 1 ==> Handicaps(a) == RowContribution(a[0])
    ensures Handicaps(a + b) == Handicaps(a) + Handicaps(b)
  {
    if a == [] {
      assert a + b == b;
    } else {
      var head := RowContribution(a[0]);
      calc {
        Handicaps(a + b);
      == { assert (a + b)[0] == a[0]; assert (a + b)[1..] == a[1..] + b; HandicapsCons(a + b); }
        head + Handicaps(a[1..] + b);
      == { HandicapsAppend(a[1..], b); }
        head + (Handicaps(a[1..]) + Handicaps(b));
      == 
        (head + Handicaps(a[1..])) + Handicaps(b);
      == { HandicapsCons(a); }
        Handicaps(a) + Handicaps(b);
      }
      if |a| == 1 {
        assert a[1..] == [];
        HandicapsCons(a);
      }
    }
  }

  /** One step of the collection: the first row's contribution, then the rest. */
  lemma HandicapsCons(rows: seq<ScoreRow>)
    requires rows != []
    ensures Handicaps(rows) == RowContribution(rows[0]) + Handicaps(rows[1..])
  {
  }

  /** The sum of a list of figures. */
  function Sum(hs: seq<int>): int {
    if hs == [] then 0 else hs[0] + Sum(hs[1..])
  }

  /** Summing is the `reduce((a, b) => a + b, 0)` fold: the empty sum is 0,
      one figure sums to itself, and the sum of two runs is the sum of their
      sums. */
  lemma {:induction false} SumAppend(a: seq<int>, b: seq<int>)
    ensures Sum([]) == 0
    ensures |a| == 1 ==> Sum(a) == a[0]
    ensures Sum(a + b) == Sum(a) + Sum(b)
  {
    if a == [] {
      assert a + b == b;
    } else {
      assert (a + b)[1..] == a[1..] + b;
      SumAppend(a[1..], b);
      if |a| == 1 {
        assert a[1..] == [];
      }
    }
  }

  /** The smallest figure, `Math.min(...hs)`: one of them, and no larger than any. */
  function Min(hs: seq<int>): (m: int)
    requires hs != []
    ensures m in hs
    ensures forall i | 0 <= i < |hs| :: m <= hs[i]
  {
    if |hs| == 1 then hs[0]
    else
      var rest := Min(hs[1..]);
      assert forall i | 1 <= i < |hs| :: hs[i] == hs[1..][i - 1];
      if hs[0] <= rest then hs[0] else rest
  }

  /** The largest figure: one of them, and no smaller than any. */
  function Max(hs: seq<int>): (m: int)
    requires hs != []
    ensures m in hs
    ensures forall i | 0 <= i < |hs| :: hs[i] <= m
  {
    if |hs| == 1 then hs[0]
    else
      var rest := Max(hs[1..]);
      assert forall i | 1 <= i < |hs| :: hs[i] == hs[1..][i - 1];
      if hs[0] >= rest then hs[0] else rest
  }

  /** The statistics: null without rows; not numbers when rows exist but no
      handicap survives; otherwise the average, smallest and first collected
      handicap, each `Math.round(x * 10) / 10`, and the number of rows,
      counting rows whose handicap was dropped. */
  function ComputeStats(rows: seq<ScoreRow>): (r: Stats)
    ensures r.NoScores? <==> rows == []
    ensures !r.NoScores? ==> r.totalRounds == |rows|
    ensures r.NotANumber? <==> rows != [] && Handicaps(rows) == []
    ensures r.Summary? ==>
      var hs := Handicaps(rows);
      && hs != []
      && IsJsRound(Sum(hs) as real / (10 * |hs|) as real, r.avgHandicap)
      && IsJsRound(Min(hs) as real / 10.0, r.bestHandicap)
      && IsJsRound(hs[0] as real / 10.0, r.latestHandicap)
  {
    if rows == [] then NoScores
    else
      var hs := Handicaps(rows);
      if hs == [] then NotANumber(|rows|)
      else Summary(RoundDiv(Sum(hs), 10 * |hs|), RoundDiv(Min(hs), 10), RoundDiv(hs[0], 10), |rows|)
  }

  /** The dashboard as the player sees it: the statistics of the fetched rows. */
  function DashboardStats(stored: seq<ScoreRow>): (r: Stats)
    ensures r.NoScores? <==> forall i | 0 <= i < |stored| :: stored[i].simpleHandicap.None?
  {
    ComputeStats(FetchedRows(stored))
  }

  /** A sum of `n` figures is at least `n` times the smallest. */
  lemma {:induction false} SumAtLeastMin(hs: seq<int>)
    requires hs != []
    ensures |hs| * Min(hs) <= Sum(hs)
  {
    if |hs| > 1 {
      var tail := hs[1..];
      SumAtLeastMin(tail);
      var m, mt := Min(hs), Min(tail);
      assert m <= mt by { assert mt in tail; }
      MulMonotone(|tail|, m, mt);
      MulSucc(|tail|, m);
    }
  }

  /** A sum of `n` figures is at most `n` times the largest. */
  lemma {:induction false} SumAtMostMax(hs: seq<int>)
    requires hs != []
    ensures Sum(hs) <= |hs| * Max(hs)
  {
    if |hs| > 1 {
      var tail := hs[1..];
      SumAtMostMax(tail);
      var m, mt := Max(hs), Max(tail);
      assert mt <= m by { assert mt in tail; }
      MulMonotone(|tail|, mt, m);
      MulSucc(|tail|, m);
    }
  }

  /** Multiplying by a natural number keeps order. */
  lemma MulMonotone(n: nat, a: int, b: int)
    requires a <= b
    ensures n * a <= n * b
  {
  }

  /** One more factor adds one more copy. */
  lemma MulSucc(n: nat, a: int)
    ensures (n + 1) * a == a + n * a
  {
  }

  /** The reported best handicap is the rounding of one collected handicap
      and is at most the rounding of every collected handicap. */
  lemma BestIsLowestRound(rows: seq<ScoreRow>)
    requires ComputeStats(rows).Summary?
    ensures exists k | 0 <= k < |Handicaps(rows)| :: ComputeStats(rows).bestHandicap == RoundDiv(Handicaps(rows)[k], 10)
    ensures forall k | 0 <= k < |Handicaps(rows)| :: ComputeStats(rows).bestHandicap <= RoundDiv(Handicaps(rows)[k], 10)
  {
  }

  /** The reported average lies between the reported best handicap and the
      rounding of the largest collected handicap. */
  lemma AverageBetweenBestAndWorst(rows: seq<ScoreRow>)
    requires ComputeStats(rows).Summary?
    ensures ComputeStats(rows).bestHandicap <= ComputeStats(rows).avgHandicap <= RoundDiv(Max(Handicaps(rows)), 10)
  {
    var hs := Handicaps(rows);
    var r := ComputeStats(rows);
    var n := |hs|;
    SumAtLeastMin(hs);
    SumAtMostMax(hs);
    var avg := Sum(hs) as real / (10 * n) as real;
    MeanWithin(Sum(hs), n, Min(hs), Max(hs));
    JsRoundMonotone(Min(hs) as real / 10.0, avg, r.bestHandicap, r.avgHandicap);
    JsRoundMonotone(avg, Max(hs) as real / 10.0, r.avgHandicap, RoundDiv(Max(hs), 10));
  }

  /** If `n * lo <= sum <= n * hi` then, in tenths, `sum / n` lies between `lo` and `hi`. */
  lemma MeanWithin(sum: int, n: int, lo: int, hi: int)
    requires n > 0 && n * lo <= sum <= n * hi
    ensures lo as real / 10.0 <= sum as real / (10 * n) as real <= hi as real / 10.0
  {
  }

  /** The reported latest handicap is the rounding of the first row's
      handicap that survives, in row order. */
  lemma LatestIsFirstSurviving(rows: seq<ScoreRow>, i: nat)
    requires i < |rows| && RowHandicap(rows[i]).Some?
    requires forall j | 0 <= j < i :: RowHandicap(rows[j]).None?
    ensures ComputeStats(rows).Summary?
    ensures ComputeStats(rows).latestHandicap == RoundDiv(RowHandicap(rows[i]).value, 10)
  {
    FirstSurviving(rows, i);
  }

  lemma {:induction false} FirstSurviving(rows: seq<ScoreRow>, i: nat)
    requires i < |rows| && RowHandicap(rows[i]).Some?
    requires forall j | 0 <= j < i :: RowHandicap(rows[j]).None?
    ensures Handicaps(rows) != [] && Handicaps(rows)[0] == RowHandicap(rows[i]).value
  {
    if i > 0 {
      FirstSurviving(rows[1..], i - 1);
    }
  }

  /** A row whose simple handicap is 0 and which has no differential,
      wherever it stands, contributes no handicap but still counts as a round. */
  lemma ZeroSimpleHandicapDropped(a: seq<ScoreRow>, b: seq<ScoreRow>)
    ensures Handicaps(a + [ScoreRow(Some(0), None)] + b) == Handicaps(a + b)
    ensures ComputeStats(a + [ScoreRow(Some(0), None)] + b).totalRounds == |a| + |b| + 1
    ensures Handicaps(a + b) == [] ==> ComputeStats(a + [ScoreRow(Some(0), None)] + b) == NotANumber(|a| + |b| + 1)
  {
    ZeroRowCollectsNothing(a, b);
    var rows := a + [ScoreRow(Some(0), None)] + b;
    assert rows != [] && |rows| == |a| + |b| + 1;
  }

  lemma ZeroRowCollectsNothing(a: seq<ScoreRow>, b: seq<ScoreRow>)
    ensures Handicaps(a + [ScoreRow(Some(0), None)] + b) == Handicaps(a + b)
  {
    var z := [ScoreRow(Some(0), None)];
    HandicapsAppend(z, []);
    assert Handicaps(z) == [];
    HandicapsAppend(a, z);
    assert Handicaps(a + z) == Handicaps(a);
    HandicapsAppend(a + z, b);
    HandicapsAppend(a, b);
  }

  /** Among fetched rows the differential is only ever used for a row whose
      simple handicap is 0. */
  lemma FetchedRowsUseSimpleHandicap(stored: seq<ScoreRow>)
    ensures forall i | 0 <= i < |FetchedRows(stored)| ::
      var row := FetchedRows(stored)[i];
      RowHandicap(row) == (if row.simpleHandicap.value != 0 then row.simpleHandicap else row.scoreDifferential)
  {
  }

  /** Rounds scored with the score differential never reach the dashboard:
      adding them anywhere in the store changes no statistic, not even the
      count. */
  lemma {:induction false} RatedRoundsInvisible(before: seq<ScoreRow>, rated: seq<ScoreRow>, after: seq<ScoreRow>)
    requires forall i | 0 <= i < |rated| :: rated[i].simpleHandicap.None?
    ensures DashboardStats(before + rated + after) == DashboardStats(before + after)
  {
    FetchedRowsAppend(before, rated);
    FetchedRowsAppend(before + rated, after);
    FetchedRowsAppend(before, after);
    assert FetchedRows(rated) == [];
    assert FetchedRows(before) + [] == FetchedRows(before);
  }

  /** The query keeps the store's order: filtering two runs of rows gives
      the filtered first run followed by the filtered second run. */
  lemma {:induction false} FetchedRowsAppend(a: seq<ScoreRow>, b: seq<ScoreRow>)
    ensures FetchedRows(a + b) == FetchedRows(a) + FetchedRows(b)
  {
    if a == [] {
      assert a + b == b;
    } else {
      var head := if a[0].simpleHandicap.Some? then [a[0]] else [];
      calc {
        FetchedRows(a + b);
      == { assert (a + b)[0] == a[0]; assert (a + b)[1..] == a[1..] + b; FetchedRowsCons(a + b); }
        head + FetchedRows(a[1..] + b);
      == { FetchedRowsAppend(a[1..], b); }
        head + (FetchedRows(a[1..]) + FetchedRows(b));
      ==
        (head + FetchedRows(a[1..])) + FetchedRows(b);
      == { FetchedRowsCons(a); }
        FetchedRows(a) + FetchedRows(b);
      }
    }
  }

  /** One step of the filter: the first row if it is kept, then the rest. */
  lemma FetchedRowsCons(rows: seq<ScoreRow>)
    requires rows != []
    ensures FetchedRows(rows) == (if rows[0].simpleHandicap.Some? then [rows[0]] else []) + FetchedRows(rows[1..])
  {
  }

  /** Whatever precision it was computed with, a result on a rated course is
      stored with a null simple handicap and so is not fetched. */
  lemma RatedResultNotFetched(score: int, c: Course, p: Precision)
    requires Rated(c)
    ensures FetchedRows([StoredRow(Calculate(score, c, p), p)]) == []
  {
  }
}
