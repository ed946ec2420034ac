/** The add-score form: a course, a gross score and a date, checked on submit,
    looked up, scored at two decimals and turned into a score record; plus the
    handicap preview shown while the form is filled in. */
module AddScore {
  import opened Wrappers
  import opened Handicap

  /** The form's fields. An empty score field is `None`; a filled one holds
      the parsed number. An empty course field is the empty string. */
  datatype FormData = FormData(courseId: string, score: Option<int>, date: Date)

  /** Why a submission did not produce a record. */
  datatype AddScoreError =
    | MissingInformation  // no course chosen or no score entered; nothing is sent
    | NotAuthenticated    // no signed-in user when the insert is prepared
    | CourseNotFound      // the chosen id matches none of the user's courses

  /** The insert the form makes once it has passed the submit guard: refused
      without a user or when the course is unknown, otherwise a record with
      the form's course, score and date and exactly the calculator's figures
      at two decimals. */
  function CreateScore(form: FormData, user: Option<string>, courses: seq<Course>): (r: Result<ScoreRecord, AddScoreError>)
    requires form.score.Some?
    ensures user.None? ==> r == Failure(NotAuthenticated)
    ensures user.Some? && (forall i | 0 <= i < |courses| :: courses[i].id != form.courseId) ==> r == Failure(CourseNotFound)
    ensures user.Some? && (exists i | 0 <= i < |courses| :: courses[i].id == form.courseId) ==> r.Success?
    ensures r.Success? ==>
      && user == Some(r.value.userId)
      && r.value.courseId == form.courseId
      && r.value.score == form.score.value
      && r.value.date == form.date
      && ExactlyOneFigure(r.value.handicap)
      && FindCourse(courses, form.courseId).Some?
      && r.value.handicap == Calculate(form.score.value, FindCourse(courses, form.courseId).value, Hundredths)
  {
    if user.None? then Failure(NotAuthenticated)
    else match FindCourse(courses, form.courseId)
      case None => Failure(CourseNotFound)
      case Some(course) =>
        Success(ScoreRecord(user.value, form.courseId, form.score.value, form.date,
                            Calculate(form.score.value, course, Hundredths)))
  }

  /** Submitting the form: refused with nothing inserted when the course or
      the score is empty, otherwise the insert above. */
  function Submit(form: FormData, user: Option<string>, courses: seq<Course>): (r: Result<ScoreRecord, AddScoreError>)
    ensures r == Failure(MissingInformation) <==> form.courseId == "" || form.score.None?
    ensures form.courseId != "" && form.score.Some? ==> r == CreateScore(form, user, courses)
  {
    if form.courseId == "" || form.score.None? then Failure(MissingInformation)
    else CreateScore(form, user, courses)
  }

  /** The handicap preview: shown only when the chosen id names a course and
      a score is entered, and then it is the calculator's two-decimal result. */
  function Preview(form: FormData, courses: seq<Course>): (r: Option<HandicapResult>)
    ensures r.Some? <==> form.score.Some? && exists i | 0 <= i < |courses| :: courses[i].id == form.courseId
    ensures r.Some? ==> ExactlyOneFigure(r.value)
    ensures r.Some? ==> FindCourse(courses, form.courseId).Some? && r.value == Calculate(form.score.value, FindCourse(courses, form.courseId).value, Hundredths)
  {
    match FindCourse(courses, form.courseId)
    case Some(course) =>
      if form.score.Some? then Some(Calculate(form.score.value, course, Hundredths)) else None
    case None => None
  }

  /** For a signed-in user whose courses all have real ids, the preview is
      present exactly when submitting succeeds, and it shows exactly the
      figures that the saved record carries. */
  lemma PreviewIsWhatIsSaved(form: FormData, user: Option<string>, courses: seq<Course>)
    requires user.Some?
    requires forall i | 0 <= i < |courses| :: courses[i].id != ""
    ensures Preview(form, courses).Some? <==> Submit(form, user, courses).Success?
    ensures Preview(form, courses).Some? ==> Submit(form, user, courses).value.handicap == Preview(form, courses).value
  {
  }
}
