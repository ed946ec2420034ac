/** The courses a player plays, the score records the tracker stores, and the
    handicap calculator that chooses between the World Handicap System score
    differential and the simple 18-hole scaling. */
module Handicap {
  import opened Wrappers
  import opened Rounding

  /** Number of holes of a course: at least one, since rounds are laid out
      hole by hole and the simple method divides by it. */
  type HoleCount = n: int | 1 <= n witness 1

  /** A calendar date as the tracker stores it (`yyyy-mm-dd`); never inspected. */
  type Date = string

  /** A course as read from the store. The course rating is entered in steps
      of 0.1 and is held here as a whole number of tenths (72.5 is 725). */
  datatype Course = Course(
    id: string,
    name: string,
    holes: HoleCount,
    par: int,
    courseRatingTenths: Option<int>,
    slopeRating: Option<int>)

  /** The precision a figure is rounded to: two decimals on the add-score form,
      one decimal on the live scorecard. */
  datatype Precision = Hundredths | Tenths {
    /** Units per stroke: a figure is kept as `Math.round(x * Scale()) `. */
    function Scale(): (k: int)
      ensures k == 10 || k == 100
    {
      if Hundredths? then 100 else 10
    }
  }

  /** What the calculator returns. Each present figure is a whole number of
      units of 1/Scale() of the precision it was computed with. */
  datatype HandicapResult = HandicapResult(scoreDifferential: Option<int>, simpleHandicap: Option<int>)

  /** A score as inserted into the score store. */
  datatype ScoreRecord = ScoreRecord(
    userId: string,
    courseId: string,
    score: int,
    date: Date,
    handicap: HandicapResult)

  /** JavaScript truthiness of a nullable number: present and not zero. */
  predicate Truthy(x: Option<int>) {
    x.Some? && x.value != 0
  }

  /** The calculator's branch test `course_rating && slope_rating`. */
  predicate Rated(c: Course) {
    Truthy(c.courseRatingTenths) && Truthy(c.slopeRating)
  }

  /** Exactly one of the two figures is present. */
  predicate ExactlyOneFigure(r: HandicapResult) {
    r.scoreDifferential.Some? != r.simpleHandicap.Some?
  }

  /** The score differential of a gross score on a rated course, unrounded:
      `(score - courseRating) * 113 / slopeRating`. */
  ghost function ScoreDifferential(score: int, c: Course): real
    requires Rated(c)
  {
    (score as real - c.courseRatingTenths.value as real / 10.0) * 113.0 / c.slopeRating.value as real
  }

  /** The simple handicap of a score, unrounded: the strokes over par scaled
      to 18 holes, `(score - par) * 18 / holes`. */
  ghost function SimpleHandicap(score: int, c: Course): real {
    ((score - c.par) * 18) as real / c.holes as real
  }

  /** The handicap calculator. A course with a truthy course rating and a
      truthy slope rating gets the rounded score differential and no simple
      handicap; every other course, including one with only one rating or a
      rating of 0, gets the rounded simple handicap and no differential. */
  function Calculate(score: int, course: Course, precision: Precision): (r: HandicapResult)
    ensures ExactlyOneFigure(r)
    ensures Rated(course) ==>
      && r.simpleHandicap == None
      && r.scoreDifferential.Some?
      && IsJsRound(ScoreDifferential(score, course) * precision.Scale() as real, r.scoreDifferential.value)
    ensures !Rated(course) ==>
      && r.scoreDifferential == None
      && r.simpleHandicap.Some?
      && IsJsRound(SimpleHandicap(score, course) * precision.Scale() as real, r.simpleHandicap.value)
  {
    var k := precision.Scale();
    if Rated(course) then
      var cr, sr := course.courseRatingTenths.value, course.slopeRating.value;
      DifferentialScaled(score, cr, sr, k);
      HandicapResult(Some(RoundDiv((10 * score - cr) * 113 * k, 10 * sr)), None)
    else
      SimpleScaled(score, course.par, course.holes, k);
      HandicapResult(None, Some(RoundDiv((score - course.par) * 18 * k, course.holes)))
  }

  /** The integer fraction the calculator rounds equals the scaled differential. */
  lemma DifferentialScaled(score: int, cr: int, sr: int, k: int)
    requires sr != 0
    ensures ((10 * score - cr) * 113 * k) as real / (10 * sr) as real
         == (score as real - cr as real / 10.0) * 113.0 / sr as real * k as real
  {
  }

  /** The integer fraction the calculator rounds equals the scaled simple handicap. */
  lemma SimpleScaled(score: int, par: int, holes: int, k: int)
    requires holes > 0
    ensures ((score - par) * 18 * k) as real / holes as real
         == ((score - par) * 18) as real / holes as real * k as real
  {
  }

  /** The first course with the given id, as `Array.prototype.find` returns it. */
  function FindCourse(courses: seq<Course>, id: string): (r: Option<Course>)
    ensures r.None? <==> forall i | 0 <= i < |courses| :: courses[i].id != id
    ensures r.Some? ==> r.value.id == id && r.value in courses
    ensures r.Some? ==> exists i | 0 <= i < |courses| :: courses[i] == r.value && forall j | 0 <= j < i :: courses[j].id != id
  {
    if courses == [] then None
    else if courses[0].id == id then Some(courses[0])
    else
      var r := FindCourse(courses[1..], id);
      assert r.Some? ==> exists i | 0 <= i < |courses[1..]| :: courses[1..][i] == r.value && forall j | 0 <= j < i :: courses[1..][j].id != id;
      assert r.Some? ==> exists i | 1 <= i < |courses| :: courses[i] == r.value && forall j | 0 <= j < i :: courses[j].id != id;
      r
  }

  /** A course with a missing or zero course rating, or a missing or zero
      slope rating, is scored with the simple method. */
  lemma PartialRatingIsSimple(score: int, c: Course, p: Precision)
    requires c.courseRatingTenths.None? || c.slopeRating.None?
          || c.courseRatingTenths == Some(0) || c.slopeRating == Some(0)
    ensures Calculate(score, c, p).scoreDifferential == None
    ensures Calculate(score, c, p).simpleHandicap.Some?
  {
  }

  /** Worked figures: 85 on an unrated 18-hole par 72 gives 13; 50 on an
      unrated 9-hole par 36 gives 28; 85 on a par 72 course rated 72.5 with
      slope 130 gives a differential of 10.87 at two decimals and 10.9 at one. */
  lemma WorkedExamples()
    ensures Calculate(85, Course("a", "A", 18, 72, None, None), Hundredths) == HandicapResult(None, Some(1300))
    ensures Calculate(50, Course("b", "B", 9, 36, None, None), Hundredths) == HandicapResult(None, Some(2800))
    ensures Calculate(85, Course("c", "C", 18, 72, Some(725), Some(130)), Hundredths) == HandicapResult(Some(1087), None)
    ensures Calculate(85, Course("c", "C", 18, 72, Some(725), Some(130)), Tenths) == HandicapResult(Some(109), None)
  {
  }
}
