/**
 * Quizzes, their results rows and answer log, and who may see a quiz and
 * its questions: `user_can_access_quiz`, the quiz mixins and the detail
 * view's flags.
 */
module Quizzes {
  import opened Wrappers
  import opened Organizations

  type QuestionId = int
  type VariantId = int

  /**
   * The phase `get_quiz_status` reports: 1 not started, 2 running,
   * 3 finished. It is an input of the model, never computed.
   */
  type Status = s: int | 1 <= s <= 3 witness 1

  const NotStarted: Status := 1
  const GoesOn: Status := 2
  const Finished: Status := 3

  /** The quiz fields the views read; times are whole seconds, `duration` is in minutes. */
  datatype Quiz = Quiz(
    organizedBy: OrgId,
    creator: UserId,
    isPrivate: bool,
    isRated: bool,
    isEnded: bool,
    startTime: int,
    duration: int)

  /** One `QuizResults` row: a registered participant's score and place (0 until finalised). */
  datatype ResultRow = ResultRow(user: UserId, ratingBefore: int, ratingAfter: int, solved: nat, place: int)

  /** One `UserAnswer` row. */
  datatype Answer = Answer(user: UserId, question: QuestionId, isCorrect: bool)

  /**
   * Everything a quiz's lifecycle touches: the quiz, the difficulty of each
   * of its questions, the correctness flag of every variant, its results
   * rows in table order, the answer log in insertion order and the users'
   * profile ratings.
   */
  datatype QuizState = QuizState(
    quiz: Quiz,
    questions: map<QuestionId, int>,
    variants: map<VariantId, bool>,
    results: seq<ResultRow>,
    answers: seq<Answer>,
    profiles: map<UserId, int>)

  /** Whether `user` has a results row, i.e. registered for the quiz. */
  predicate Registered(results: seq<ResultRow>, user: UserId) {
    exists i :: 0 <= i < |results| && results[i].user == user
  }

  /** No user holds two results rows. */
  predicate UniqueUsers(results: seq<ResultRow>) {
    forall i, j :: 0 <= i < j < |results| ==> results[i].user != results[j].user
  }

  /**
   * `user_can_access_quiz`: a public quiz is open to everyone, a private
   * one only to members (roles 1 to 3) of the organiser. The organiser is
   * looked up by its key, as the member query intends.
   */
  function UserCanAccessQuiz(d: Directory, q: Quiz, user: UserId): (r: bool)
    ensures r <==> !q.isPrivate || OrganizationMember(d, q.organizedBy, user).Some?
  {
    !q.isPrivate || (q.isPrivate && OrganizationMember(d, q.organizedBy, user).Some?)
  }

  /** Whoever may enter a private quiz also sees its organiser, and is not merely invited. */
  lemma PrivateQuizAccessImpliesOrganizerVisible(d: Directory, q: Quiz, user: UserId)
    requires q.isPrivate && UserCanAccessQuiz(d, q, user)
    ensures q.organizedBy in FilterUserAccess(d, user)
    ensures (q.organizedBy, user) in d.links && d.links[(q.organizedBy, user)] != Invited
  {
  }

  /**
   * The filter of `QuizMixin`: organiser and quiz both public, or the user
   * has a link of any role, an invitation included, to the organiser.
   */
  predicate QuizVisible(d: Directory, q: Quiz, user: UserId) {
    (q.organizedBy in d.orgs && !d.orgs[q.organizedBy].isPrivate && !q.isPrivate)
    || (q.organizedBy, user) in d.links
  }

  /**
   * The status gate shared by `QuizMixin` and `QuizDetailView`: no access
   * before the start, registered users only while the quiz runs, and after
   * the end whoever may access the quiz.
   */
  function QuestionAccess(status: Status, registered: bool, canAccessQuiz: bool): (r: bool)
    ensures status == NotStarted ==> !r
    ensures status == GoesOn ==> (r <==> registered)
    ensures status == Finished ==> (r <==> canAccessQuiz)
  {
    if status == 1 then false
    else if status == 2 then registered
    else canAccessQuiz
  }

  /** Question access never depends on the quiz access check while the quiz runs, nor on registration after it. */
  lemma QuestionAccessNeeds(status: Status, registered: bool, canAccessQuiz: bool)
    ensures QuestionAccess(status, registered, canAccessQuiz) ==> status != NotStarted
    ensures QuestionAccess(status, registered, canAccessQuiz) ==> registered || status == Finished
    ensures QuestionAccess(status, registered, canAccessQuiz) ==> canAccessQuiz || status == GoesOn
  {
  }

  /** Seconds in `minutes` minutes. */
  function Minutes(minutes: int): (r: int)
    ensures minutes >= 0 ==> r >= 0
  {
    60 * minutes
  }

  /** The context `QuizMixin` builds. */
  datatype QuizPage = QuizPage(
    quiz: Quiz,
    canParticipate: bool,
    canAccessQuestions: bool,
    status: Status,
    endTime: int)

  /**
   * `QuizMixin.get_context_data` with the quiz query yielding one row per
   * quiz, as a `.distinct()` query would: 404 unless the quiz passes the
   * filter, else the flags. `QuizMixinAsWritten` below is the query as
   * written.
   */
  function QuizMixin(d: Directory, st: QuizState, status: Status, user: UserId): (r: Result<QuizPage, HttpError>)
    ensures r.Ok? <==> QuizVisible(d, st.quiz, user)
    ensures r.Ok? ==> r.value.canParticipate == Registered(st.results, user)
    ensures r.Ok? ==>
      r.value.canAccessQuestions == QuestionAccess(status, Registered(st.results, user), UserCanAccessQuiz(d, st.quiz, user))
    ensures r.Ok? ==> r.value.endTime - st.quiz.startTime == 60 * st.quiz.duration
  {
    if !QuizVisible(d, st.quiz, user) then Err(NotFound)
    else
      var registered := Registered(st.results, user);
      Ok(QuizPage(
        st.quiz,
        registered,
        QuestionAccess(status, registered, UserCanAccessQuiz(d, st.quiz, user)),
        status,
        st.quiz.startTime + Minutes(st.quiz.duration)))
  }

  /** The organiser's links of any role: the rows the join over `organized_by__users` brings in. */
  function OrganizerLinks(d: Directory, org: OrgId): (r: set<(OrgId, UserId)>)
    ensures forall k :: k in r ==> k in d.links && k.0 == org
  {
    set k | k in d.links && k.0 == org
  }

  /**
   * How many rows the quiz query of `QuizMixin` yields for one quiz. The OR
   * over the multi-valued `organized_by__users` becomes an outer join with
   * one row per link of the organiser (a single row when it has none), and
   * with no `.distinct()` every such row passes the public branch; off that
   * branch only the requester's own link passes.
   */
  function QuizQueryRows(d: Directory, q: Quiz, user: UserId): (n: nat)
    ensures n == 0 <==> !QuizVisible(d, q, user)
  {
    if q.organizedBy in d.orgs && !d.orgs[q.organizedBy].isPrivate && !q.isPrivate then
      var links := |OrganizerLinks(d, q.organizedBy)|;
      if links == 0 then 1 else links
    else if (q.organizedBy, user) in d.links then 1 else 0
  }

  /**
   * `QuizMixin.get_context_data` with its query as written: `get_object_or_404`
   * answers 404 for no row and raises `MultipleObjectsReturned` (HTTP 500)
   * for two or more; with exactly one row it builds the same page as
   * `QuizMixin`.
   */
  function QuizMixinAsWritten(d: Directory, st: QuizState, status: Status, user: UserId): (r: Result<QuizPage, HttpError>)
    ensures r == Err(NotFound) <==> !QuizVisible(d, st.quiz, user)
    ensures r == Err(ServerError) <==> QuizQueryRows(d, st.quiz, user) >= 2
    ensures r.Ok? <==> QuizMixin(d, st, status, user).Ok? && QuizQueryRows(d, st.quiz, user) == 1
    ensures r.Ok? ==> r == QuizMixin(d, st, status, user)
  {
    var n := QuizQueryRows(d, st.quiz, user);
    if n == 0 then Err(NotFound)
    else if n >= 2 then Err(ServerError)
    else QuizMixin(d, st, status, user)
  }

  /** A set holding two distinct elements has at least two. */
  lemma TwoInSet<T>(s: set<T>, x: T, y: T)
    requires x in s && y in s && x != y
    ensures |s| >= 2
  {
    var rest := s - {x};
    assert y in rest;
    assert s == rest + {x};
  }

  /**
   * A public quiz of a public organisation with two linked users fails with
   * HTTP 500 for every requester as written, while the intended
   * one-row-per-quiz query shows it.
   */
  lemma PublicQuizWithTwoLinksFails(d: Directory, st: QuizState, status: Status, user: UserId, u1: UserId, u2: UserId)
    requires st.quiz.organizedBy in d.orgs && !d.orgs[st.quiz.organizedBy].isPrivate && !st.quiz.isPrivate
    requires u1 != u2 && (st.quiz.organizedBy, u1) in d.links && (st.quiz.organizedBy, u2) in d.links
    ensures QuizMixinAsWritten(d, st, status, user) == Err(ServerError)
    ensures QuizMixin(d, st, status, user).Ok?
  {
    var o := st.quiz.organizedBy;
    TwoInSet(OrganizerLinks(d, o), (o, u1), (o, u2));
  }

  /** Without that duplication, as for a private quiz, the written query agrees with the intended one. */
  lemma AsWrittenAgreesOffPublicBranch(d: Directory, st: QuizState, status: Status, user: UserId)
    requires st.quiz.isPrivate
    ensures QuizMixinAsWritten(d, st, status, user) == QuizMixin(d, st, status, user)
  {
  }

  /** `AccessToQuizMixin`: the quiz context, or 404 when the questions are closed to the user. */
  function AccessToQuizMixin(d: Directory, st: QuizState, status: Status, user: UserId): (r: Result<QuizPage, HttpError>)
    ensures r.Ok? <==> QuizMixin(d, st, status, user).Ok? && QuizMixin(d, st, status, user).value.canAccessQuestions
    ensures r.Ok? ==> r == QuizMixin(d, st, status, user)
  {
    match QuizMixin(d, st, status, user)
    case Err(e) => Err(e)
    case Ok(page) => if !page.canAccessQuestions then Err(NotFound) else Ok(page)
  }

  /** Nobody reaches the questions of a quiz that has not started. */
  lemma NoQuestionsBeforeStart(d: Directory, st: QuizState, user: UserId)
    ensures AccessToQuizMixin(d, st, NotStarted, user).Err?
  {
  }

  /** While a quiz runs, exactly its visible, registered participants reach the questions. */
  lemma RunningQuizOpenToParticipants(d: Directory, st: QuizState, user: UserId)
    ensures AccessToQuizMixin(d, st, GoesOn, user).Ok? <==>
      QuizVisible(d, st.quiz, user) && Registered(st.results, user)
  {
  }

  /** The flags of the quiz's detail page. */
  datatype DetailPage = DetailPage(
    canParticipate: bool,
    canAccessQuestions: bool,
    canEnd: bool,
    status: Status,
    endTime: int)

  /**
   * `QuizDetailView.get_context_data`; `visible` is whether the quiz
   * passed the quiz manager's `filter_user_access`, which is not part of
   * this model.
   */
  function QuizDetail(d: Directory, st: QuizState, status: Status, user: UserId, visible: bool): (r: Result<DetailPage, HttpError>)
    ensures r.Ok? <==> visible
    ensures r.Ok? ==> (r.value.canEnd <==> status == Finished && st.quiz.creator == user)
    ensures r.Ok? ==> r.value.endTime - st.quiz.startTime == 60 * st.quiz.duration
  {
    if !visible then Err(NotFound)
    else
      var registered := Registered(st.results, user);
      Ok(DetailPage(
        registered,
        QuestionAccess(status, registered, UserCanAccessQuiz(d, st.quiz, user)),
        status == 3 && st.quiz.creator == user,
        status,
        st.quiz.startTime + Minutes(st.quiz.duration)))
  }

  /** The detail page and the mixin agree on participation, question access and end time. */
  lemma DetailAgreesWithMixin(d: Directory, st: QuizState, status: Status, user: UserId)
    requires QuizVisible(d, st.quiz, user)
    ensures var page := QuizMixin(d, st, status, user).value;
      var detail := QuizDetail(d, st, status, user, true).value;
      page.canParticipate == detail.canParticipate
      && page.canAccessQuestions == detail.canAccessQuestions
      && page.endTime == detail.endTime
  {
  }
}
