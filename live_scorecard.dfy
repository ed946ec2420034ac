/** The live scorecard: a round entered hole by hole on one course, with
    running totals, and saved as a score record once every hole is filled.

    The screen's state is the chosen course id, the chosen course and the list
    of hole entries; choosing a course lays the list out afresh and entering
    strokes replaces one entry. Totals, the save checks and the handicap are
    computed from that state. */
module LiveScorecard {
  import opened Wrappers
  import opened Rounding
  import opened Handicap

  /** One hole of the round; `strokes` is `None` until something is entered. */
  datatype HoleScore = HoleScore(hole: int, par: int, strokes: Option<int>)

  /** Why saving a round was refused. */
  datatype SaveError =
    | MissingData          // no course chosen or no signed-in user
    | NoStrokesEntered     // "enter at least one stroke": no hole is filled
    | HolesMissing(holes: int)  // "you must fill in all N holes", N the course's hole count

  /** The par given to every hole: `Math.round(par / holes)` of the course. */
  function ParPerHole(c: Course): (p: int)
    ensures IsJsRound(c.par as real / c.holes as real, p)
  {
    RoundDiv(c.par, c.holes)
  }

  /** The layout a round on `c` keeps: one entry per hole of the course,
      numbered 1, 2, ... in order, each with the par per hole. */
  ghost predicate LaidOut(hs: seq<HoleScore>, c: Course) {
    && |hs| == c.holes
    && forall i | 0 <= i < |hs| :: hs[i].hole == i + 1 && hs[i].par == ParPerHole(c)
  }

  /** No hole has strokes entered. */
  ghost predicate Blank(hs: seq<HoleScore>) {
    forall i | 0 <= i < |hs| :: hs[i].strokes.None?
  }

  /** The entries a round starts with when course `c` is chosen. */
  function FreshHoles(c: Course): (hs: seq<HoleScore>)
    ensures LaidOut(hs, c) && Blank(hs)
  {
    seq(c.holes, i => HoleScore(i + 1, ParPerHole(c), None))
  }

  /** A hole's strokes as they enter the total: an empty hole counts 0. */
  function StrokesOrZero(h: HoleScore): int {
    if h.strokes.Some? then h.strokes.value else 0
  }

  /** The running total of strokes, empty holes counting 0. */
  function TotalStrokes(hs: seq<HoleScore>): int {
    if hs == [] then 0 else StrokesOrZero(hs[0]) + TotalStrokes(hs[1..])
  }

  /** The sum of the holes' pars. */
  function TotalPar(hs: seq<HoleScore>): int {
    if hs == [] then 0 else hs[0].par + TotalPar(hs[1..])
  }

  /** Strokes over (positive) or under (negative) par so far. */
  function ScoreToPar(hs: seq<HoleScore>): int {
    TotalStrokes(hs) - TotalPar(hs)
  }

  /** The number of holes with strokes entered; a hole with 0 strokes is filled. */
  function FilledHoles(hs: seq<HoleScore>): (n: int)
    ensures 0 <= n <= |hs|
  {
    if hs == [] then 0 else (if hs[0].strokes.Some? then 1 else 0) + FilledHoles(hs[1..])
  }

  /** Saving the round. Refused, in this order, without a course or user,
      when no hole is filled, and when fewer holes are filled than the course
      has; otherwise the record carries the total strokes as the score and
      exactly one handicap figure, rounded to one decimal. */
  function SaveRound(course: Option<Course>, user: Option<string>, hs: seq<HoleScore>, today: Date): (r: Result<ScoreRecord, SaveError>)
    ensures course.None? || user.None? ==> r == Failure(MissingData)
    ensures course.Some? && user.Some? && FilledHoles(hs) == 0 ==> r == Failure(NoStrokesEntered)
    ensures course.Some? && user.Some? && 0 < FilledHoles(hs) < course.value.holes ==> r == Failure(HolesMissing(course.value.holes))
    ensures r.Success? <==> course.Some? && user.Some? && 0 < FilledHoles(hs) && course.value.holes <= FilledHoles(hs)
    ensures r.Success? ==>
      && r.value.userId == user.value
      && r.value.courseId == course.value.id
      && r.value.score == TotalStrokes(hs)
      && r.value.date == today
      && r.value.handicap == Calculate(TotalStrokes(hs), course.value, Tenths)
  {
    if course.None? || user.None? then Failure(MissingData)
    else
      var filled := FilledHoles(hs);
      if filled == 0 then Failure(NoStrokesEntered)
      else if filled < course.value.holes then Failure(HolesMissing(course.value.holes))
      else
        var total := TotalStrokes(hs);
        Success(ScoreRecord(user.value, course.value.id, total, today, Calculate(total, course.value, Tenths)))
  }

  /** The totals are the left-to-right `reduce` from 0: an empty card has
      nothing, and appending a hole adds its strokes (0 when empty) to the
      stroke total, its par to the par total, one filled hole if it has
      strokes, and its strokes minus its par to the score to par. */
  lemma {:induction false} TotalsAppend(hs: seq<HoleScore>, h: HoleScore)
    ensures TotalStrokes([]) == 0 && TotalPar([]) == 0 && FilledHoles([]) == 0 && ScoreToPar([]) == 0
    ensures TotalStrokes(hs + [h]) == TotalStrokes(hs) + StrokesOrZero(h)
    ensures TotalPar(hs + [h]) == TotalPar(hs) + h.par
    ensures FilledHoles(hs + [h]) == FilledHoles(hs) + (if h.strokes.Some? then 1 else 0)
    ensures ScoreToPar(hs + [h]) == ScoreToPar(hs) + StrokesOrZero(h) - h.par
  {
    if hs != [] {
      TotalsAppend(hs[1..], h);
      assert (hs + [h])[1..] == hs[1..] + [h];
    }
  }

  /** Every hole is filled exactly when the filled count reaches the length. */
  lemma {:induction false} FilledHolesAll(hs: seq<HoleScore>)
    ensures FilledHoles(hs) == |hs| <==> forall i | 0 <= i < |hs| :: hs[i].strokes.Some?
  {
    if hs != [] {
      FilledHolesAll(hs[1..]);
      assert forall i | 1 <= i < |hs| :: hs[i] == hs[1..][i - 1];
    }
  }

  /** A blank card has no strokes and no filled holes. */
  lemma {:induction false} BlankTotals(hs: seq<HoleScore>)
    requires Blank(hs)
    ensures TotalStrokes(hs) == 0 && FilledHoles(hs) == 0
  {
    if hs != [] {
      BlankTotals(hs[1..]);
    }
  }

  /** A card whose holes all have par `p` totals `|hs| * p`. */
  lemma {:induction false} UniformParTotal(hs: seq<HoleScore>, p: int)
    requires forall i | 0 <= i < |hs| :: hs[i].par == p
    ensures TotalPar(hs) == |hs| * p
  {
    if hs != [] {
      UniformParTotal(hs[1..], p);
    }
  }

  /** A freshly laid-out round has no strokes, nothing filled, and a total
      par of the hole count times the rounded par per hole, which need not be
      the course's par. */
  lemma FreshRoundTotals(c: Course)
    ensures TotalStrokes(FreshHoles(c)) == 0
    ensures FilledHoles(FreshHoles(c)) == 0
    ensures TotalPar(FreshHoles(c)) == c.holes * ParPerHole(c)
  {
    BlankTotals(FreshHoles(c));
    UniformParTotal(FreshHoles(c), ParPerHole(c));
  }

  /** Par 35 over 9 holes gives 4 per hole and a card par of 36. */
  lemma ParDriftExample()
    ensures TotalPar(FreshHoles(Course("n", "Nine", 9, 35, None, None))) == 36
  {
    var c := Course("n", "Nine", 9, 35, None, None);
    FreshRoundTotals(c);
    assert ParPerHole(c) == 4;
  }

  /** A freshly laid-out round cannot be saved: no hole is filled. */
  lemma FreshRoundRefused(c: Course, user: string, today: Date)
    ensures SaveRound(Some(c), Some(user), FreshHoles(c), today) == Failure(NoStrokesEntered)
  {
    FreshRoundTotals(c);
  }

  /** On a laid-out round, saving succeeds exactly when every hole is filled
      (0 strokes included), and then the score is the sum of all strokes. */
  lemma SaveSucceedsIffComplete(c: Course, user: string, hs: seq<HoleScore>, today: Date)
    requires LaidOut(hs, c)
    ensures SaveRound(Some(c), Some(user), hs, today).Success? <==> forall i | 0 <= i < |hs| :: hs[i].strokes.Some?
  {
    FilledHolesAll(hs);
  }

  /** Replacing one hole's strokes moves the stroke total by the difference,
      moves the filled count by at most one, and leaves the par total alone. */
  lemma {:induction false} ChangeStrokeTotals(hs: seq<HoleScore>, i: nat, s: Option<int>)
    requires i < |hs|
    ensures TotalStrokes(hs[i := hs[i].(strokes := s)])
         == TotalStrokes(hs) - StrokesOrZero(hs[i]) + StrokesOrZero(hs[i].(strokes := s))
    ensures FilledHoles(hs[i := hs[i].(strokes := s)])
         == FilledHoles(hs) - (if hs[i].strokes.Some? then 1 else 0) + (if s.Some? then 1 else 0)
    ensures TotalPar(hs[i := hs[i].(strokes := s)]) == TotalPar(hs)
    ensures ScoreToPar(hs[i := hs[i].(strokes := s)])
         == ScoreToPar(hs) - StrokesOrZero(hs[i]) + StrokesOrZero(hs[i].(strokes := s))
  {
    var hs' := hs[i := hs[i].(strokes := s)];
    if i > 0 {
      ChangeStrokeTotals(hs[1..], i - 1, s);
      assert hs'[1..] == hs[1..][i - 1 := hs[1..][i - 1].(strokes := s)];
    } else {
      assert hs'[1..] == hs[1..];
    }
  }

  /** The live scorecard screen. */
  class Scorecard {
    var selectedCourseId: string
    var selectedCourse: Option<Course>
    var holeScores: seq<HoleScore>

    /** While a course is chosen, the entries are laid out for it. */
    ghost predicate Valid()
      reads this
    {
      selectedCourse.Some? ==> LaidOut(holeScores, selectedCourse.value)
    }

    /** The screen opens with no course and no entries. */
    constructor ()
      ensures Valid()
      ensures selectedCourseId == "" && selectedCourse == None && holeScores == []
    {
      selectedCourseId := "";
      selectedCourse := None;
      holeScores := [];
    }

    /** Choosing a course id: the id is remembered; an id naming one of the
        user's courses selects that course and lays out a blank round for it,
        discarding any strokes entered before; an unknown id changes nothing
        else. */
    method SelectCourse(courses: seq<Course>, courseId: string)
      requires Valid()
      modifies this
      ensures Valid()
      ensures selectedCourseId == courseId
      ensures FindCourse(courses, courseId).None? ==>
        selectedCourse == old(selectedCourse) && holeScores == old(holeScores)
      ensures FindCourse(courses, courseId).Some? ==>
        selectedCourse == FindCourse(courses, courseId) && holeScores == FreshHoles(selectedCourse.value)
    {
      selectedCourseId := courseId;
      var course := FindCourse(courses, courseId);
      if course.Some? {
        selectedCourse := course;
        holeScores := FreshHoles(course.value);
      }
    }

    /** Entering strokes on the hole at `holeIndex` (`None` for an emptied
        field): only that entry's strokes change. */
    method ChangeStroke(holeIndex: nat, strokes: Option<int>)
      requires Valid()
      requires holeIndex < |holeScores|
      modifies this`holeScores
      ensures Valid()
      ensures |holeScores| == |old(holeScores)|
      ensures holeScores[holeIndex] == old(holeScores)[holeIndex].(strokes := strokes)
      ensures forall i | 0 <= i < |holeScores| && i != holeIndex :: holeScores[i] == old(holeScores)[i]
    {
      var updated := holeScores;
      updated := updated[holeIndex := updated[holeIndex].(strokes := strokes)];
      holeScores := updated;
    }

    /** The change-course button: the course is deselected; the id and the
        entries stay as they were. */
    method ClearCourse()
      requires Valid()
      modifies this`selectedCourse
      ensures Valid()
      ensures selectedCourse == None
    {
      selectedCourse := None;
    }

    /** Saving the round on screen for `user`, dated `today`. */
    method Save(user: Option<string>, today: Date) returns (r: Result<ScoreRecord, SaveError>)
      requires Valid()
      ensures r == SaveRound(selectedCourse, user, holeScores, today)
      ensures r.Success? <==> selectedCourse.Some? && user.Some? && forall i | 0 <= i < |holeScores| :: holeScores[i].strokes.Some?
    {
      if selectedCourse.Some? && user.Some? {
        SaveSucceedsIffComplete(selectedCourse.value, user.value, holeScores, today);
      }
      r := SaveRound(selectedCourse, user, holeScores, today);
    }
  }
}
