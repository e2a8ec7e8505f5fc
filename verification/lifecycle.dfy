/**
 * The life of a quiz as state transitions: registering a participant,
 * submitting an answer, and finalising the results.
 */
module QuizLifecycle {
  import opened Wrappers
  import opened Organizations
  import opened Quizzes
  import opened Ranking

  // ---------------------------------------------------------------------
  // Registration
  // ---------------------------------------------------------------------

  datatype RegisterError =
    | RegisterNotFound
      /** The user has no profile to read a rating from. */
    | NoProfile

  /**
   * `QuizRegistrationView.get`; `visible` is whether the quiz passed the
   * quiz manager's `filter_user_access`. A new row snapshots the profile
   * rating as both `rating_before` and `rating_after`.
   */
  function Register(st: QuizState, user: UserId, visible: bool): (r: Result<QuizState, RegisterError>)
    ensures r.Ok? <==> visible && !Registered(st.results, user) && user in st.profiles
    ensures r.Ok? ==> r.value == st.(results := st.results +
      [ResultRow(user, st.profiles[user], st.profiles[user], 0, 0)])
    ensures visible && Registered(st.results, user) ==> r == Err(RegisterNotFound)
  {
    if !visible || Registered(st.results, user) then Err(RegisterNotFound)
    else if user !in st.profiles then Err(NoProfile)
    else
      var rating := st.profiles[user];
      Ok(st.(results := st.results + [ResultRow(user, rating, rating, 0, 0)]))
  }

  /** A registered user is registered afterwards, and registering again is refused without a new row. */
  lemma RegisterOnce(st: QuizState, user: UserId, visible: bool)
    requires Register(st, user, visible).Ok?
    ensures Registered(Register(st, user, visible).value.results, user)
    ensures Register(Register(st, user, visible).value, user, visible) == Err(RegisterNotFound)
  {
    var rows := Register(st, user, visible).value.results;
    assert rows[|rows| - 1].user == user;
  }

  /** Registration keeps every user to one results row. */
  lemma RegisterKeepsUsersUnique(st: QuizState, user: UserId, visible: bool)
    requires UniqueUsers(st.results)
    requires Register(st, user, visible).Ok?
    ensures UniqueUsers(Register(st, user, visible).value.results)
  {
  }

  // ---------------------------------------------------------------------
  // Answer submission
  // ---------------------------------------------------------------------

  /** Whether `user` has any answer to `question` in the log. */
  predicate Answered(answers: seq<Answer>, user: UserId, question: QuestionId) {
    exists i :: 0 <= i < |answers| && answers[i].user == user && answers[i].question == question
  }

  /** The number of correct answers of `user` to `question` in the log. */
  function CountCorrect(answers: seq<Answer>, user: UserId, question: QuestionId): (n: nat)
    ensures n <= |answers|
    ensures n > 0 ==> Answered(answers, user, question)
  {
    if |answers| == 0 then 0
    else
      var last := answers[|answers| - 1];
      var rest := CountCorrect(answers[..|answers| - 1], user, question);
      if last.user == user && last.question == question && last.isCorrect then rest + 1 else rest
  }

  /** Appending an answer raises the count exactly when it is a correct answer of that user to that question. */
  lemma CountCorrectAppend(answers: seq<Answer>, a: Answer, user: UserId, question: QuestionId)
    ensures CountCorrect(answers + [a], user, question) ==
      CountCorrect(answers, user, question) + (if a.user == user && a.question == question && a.isCorrect then 1 else 0)
  {
    assert (answers + [a])[..|answers|] == answers;
  }

  /** The index of the user's first results row (`.first()`), if any. */
  function FirstRowIndex(results: seq<ResultRow>, user: UserId): (r: Option<nat>)
    ensures r.Some? <==> Registered(results, user)
    ensures r.Some? ==> r.value < |results| && results[r.value].user == user
    ensures r.Some? ==> forall k :: 0 <= k < r.value ==> results[k].user != user
  {
    if |results| == 0 then None
    else if results[0].user == user then Some(0)
    else
      match FirstRowIndex(results[1..], user)
      case None => None
      case Some(i) => Some(i + 1)
  }

  /** Whether correct answers move `rating_after`: the quiz is rated and public. */
  predicate AddsRating(q: Quiz) {
    q.isRated && !q.isPrivate
  }

  /** One more solved question, and its difficulty added to `rating_after` when the quiz rates. */
  function Credit(row: ResultRow, difficulty: int, addRating: bool): (r: ResultRow)
    ensures r.solved == row.solved + 1
    ensures r.ratingAfter == row.ratingAfter + (if addRating then difficulty else 0)
    ensures r.user == row.user && r.ratingBefore == row.ratingBefore && r.place == row.place
  {
    row.(solved := row.solved + 1, ratingAfter := row.ratingAfter + (if addRating then difficulty else 0))
  }

  datatype SubmitError =
    | QuestionNotFound
      /** While the quiz runs the user already answered this question. */
    | AlreadyAnswered

  /**
   * `QuestionDetailView.post`: `variant` is the chosen variant's key. The
   * answer is correct when that variant is flagged correct, whichever
   * question it belongs to.
   */
  function Submit(d: Directory, st: QuizState, status: Status, user: UserId, question: QuestionId, variant: VariantId)
    : (r: Result<QuizState, SubmitError>)
    ensures r == Err(QuestionNotFound) <==> question !in st.questions
    ensures r == Err(AlreadyAnswered) <==>
      question in st.questions && UserCanAccessQuiz(d, st.quiz, user)
      && status == GoesOn && Answered(st.answers, user, question)
    ensures question in st.questions && !UserCanAccessQuiz(d, st.quiz, user) ==> r == Ok(st)
    ensures r.Ok? && UserCanAccessQuiz(d, st.quiz, user) ==>
      r.value.answers == st.answers + [Answer(user, question, variant in st.variants && st.variants[variant])]
    ensures r.Ok? ==> r.value == st.(answers := r.value.answers, results := r.value.results)
    ensures r.Ok? ==> |r.value.results| == |st.results|
  {
    if question !in st.questions then Err(QuestionNotFound)
    else if !UserCanAccessQuiz(d, st.quiz, user) then Ok(st)
    else
      var isCorrect := variant in st.variants && st.variants[variant];
      if status == 2 && Answered(st.answers, user, question) then Err(AlreadyAnswered)
      else
        var answers := st.answers + [Answer(user, question, isCorrect)];
        var row := FirstRowIndex(st.results, user);
        if status == 2 && row.Some? && isCorrect && CountCorrect(answers, user, question) == 1 then
          var i := row.value;
          Ok(st.(answers := answers,
                 results := st.results[i := Credit(st.results[i], st.questions[question], AddsRating(st.quiz))]))
        else
          Ok(st.(answers := answers))
  }

  /**
   * The score changes exactly when the quiz runs, the user is registered,
   * the answer is correct and the user had no correct answer to the
   * question before; then only the user's first row is credited.
   */
  lemma SubmitScoresFirstCorrectAnswer(d: Directory, st: QuizState, status: Status, user: UserId, question: QuestionId, variant: VariantId)
    requires Submit(d, st, status, user, question, variant).Ok?
    requires UserCanAccessQuiz(d, st.quiz, user)
    ensures var results := Submit(d, st, status, user, question, variant).value.results;
      results != st.results <==>
        status == GoesOn && Registered(st.results, user)
        && variant in st.variants && st.variants[variant]
        && CountCorrect(st.answers, user, question) == 0
    ensures var results := Submit(d, st, status, user, question, variant).value.results;
      results != st.results ==>
        var i := FirstRowIndex(st.results, user).value;
        results == st.results[i := Credit(st.results[i], st.questions[question], AddsRating(st.quiz))]
  {
    var isCorrect := variant in st.variants && st.variants[variant];
    CountCorrectAppend(st.answers, Answer(user, question, isCorrect), user, question);
    var row := FirstRowIndex(st.results, user);
    if row.Some? {
      var i := row.value;
      var c := Credit(st.results[i], st.questions[question], AddsRating(st.quiz));
      assert st.results[i := c][i] != st.results[i];
    }
  }

  /** While the quiz runs, the first answer scores exactly when the user is registered and it is correct. */
  lemma RunningAnswerScores(d: Directory, st: QuizState, user: UserId, question: QuestionId, variant: VariantId)
    requires Submit(d, st, GoesOn, user, question, variant).Ok?
    requires UserCanAccessQuiz(d, st.quiz, user)
    ensures Submit(d, st, GoesOn, user, question, variant).value.results != st.results <==>
      Registered(st.results, user) && variant in st.variants && st.variants[variant]
  {
    SubmitScoresFirstCorrectAnswer(d, st, GoesOn, user, question, variant);
  }

  /** Outside the running phase an answer is logged but never scored. */
  lemma LateAnswersDoNotScore(d: Directory, st: QuizState, status: Status, user: UserId, question: QuestionId, variant: VariantId)
    requires status != GoesOn
    requires Submit(d, st, status, user, question, variant).Ok?
    ensures Submit(d, st, status, user, question, variant).value.results == st.results
  {
  }

  /** While the quiz runs, a second answer to the same question is refused, so a question scores at most once. */
  lemma SecondAnswerRefused(d: Directory, st: QuizState, user: UserId, question: QuestionId, v1: VariantId, v2: VariantId)
    requires UserCanAccessQuiz(d, st.quiz, user)
    requires Submit(d, st, GoesOn, user, question, v1).Ok?
    ensures Submit(d, Submit(d, st, GoesOn, user, question, v1).value, GoesOn, user, question, v2) == Err(AlreadyAnswered)
  {
    var st' := Submit(d, st, GoesOn, user, question, v1).value;
    assert st'.answers[|st'.answers| - 1].user == user;
  }

  /** Answering keeps every user to one results row. */
  lemma SubmitKeepsUsersUnique(d: Directory, st: QuizState, status: Status, user: UserId, question: QuestionId, variant: VariantId)
    requires UniqueUsers(st.results)
    requires Submit(d, st, status, user, question, variant).Ok?
    ensures UniqueUsers(Submit(d, st, status, user, question, variant).value.results)
  {
    var results := Submit(d, st, status, user, question, variant).value.results;
    assert forall k :: 0 <= k < |results| ==> results[k].user == st.results[k].user;
  }

  // ---------------------------------------------------------------------
  // Finalisation
  // ---------------------------------------------------------------------

  /** The rows with the given places written in, one per row. */
  function WithPlaces(rows: seq<ResultRow>, places: seq<int>): (r: seq<ResultRow>)
    requires |places| == |rows|
    ensures |r| == |rows|
    ensures forall i :: 0 <= i < |rows| ==> r[i] == rows[i].(place := places[i])
  {
    seq(|rows|, i requires 0 <= i < |rows| => rows[i].(place := places[i]))
  }

  /** A row with its place forgotten: what finalisation must leave alone. */
  function Unplaced(rows: seq<ResultRow>): (r: seq<ResultRow>)
    ensures |r| == |rows|
    ensures forall i :: 0 <= i < |rows| ==> r[i] == rows[i].(place := 0)
  {
    seq(|rows|, i requires 0 <= i < |rows| => rows[i].(place := 0))
  }

  /**
   * The rating commit: each row's user gets its `rating_after`, a
   * per-user update of the profile ratings.
   */
  function CommitRatings(profiles: map<UserId, int>, rows: seq<ResultRow>): (r: map<UserId, int>)
    ensures forall u :: u in r <==> u in profiles || Registered(rows, u)
    ensures forall u :: u in profiles && !Registered(rows, u) ==> r[u] == profiles[u]
    decreases |rows|
  {
    if |rows| == 0 then profiles
    else
      var rest := CommitRatings(profiles[rows[0].user := rows[0].ratingAfter], rows[1..]);
      assert forall u :: Registered(rows, u) <==> u == rows[0].user || Registered(rows[1..], u) by {
        forall u | Registered(rows[1..], u) ensures Registered(rows, u) {
          var k :| 0 <= k < |rows[1..]| && rows[1..][k].user == u;
          assert rows[k + 1].user == u;
        }
        forall u | Registered(rows, u) && u != rows[0].user ensures Registered(rows[1..], u) {
          var k :| 0 <= k < |rows| && rows[k].user == u;
          assert rows[1..][k - 1].user == u;
        }
      }
      rest
  }

  /** With one row per user, every participant's profile takes that row's `rating_after`. */
  lemma {:induction false} CommitRatingsWrites(profiles: map<UserId, int>, rows: seq<ResultRow>, i: nat)
    requires UniqueUsers(rows) && i < |rows|
    ensures CommitRatings(profiles, rows)[rows[i].user] == rows[i].ratingAfter
    decreases |rows|
  {
    var p := profiles[rows[0].user := rows[0].ratingAfter];
    if i == 0 {
      assert !Registered(rows[1..], rows[0].user) by {
        forall k | 0 <= k < |rows[1..]| ensures rows[1..][k].user != rows[0].user {
          assert rows[1..][k] == rows[k + 1];
        }
      }
    } else {
      assert rows[1..][i - 1] == rows[i];
      CommitRatingsWrites(p, rows[1..], i - 1);
    }
  }

  /**
   * `make_quiz_results`: rank the rows by `solved`, hand out dense places,
   * commit the ratings when the quiz rates, and mark the quiz ended.
   */
  function MakeQuizResults(st: QuizState): (r: QuizState)
    ensures r == st.(quiz := r.quiz, results := r.results, profiles := r.profiles)
    ensures r.quiz == st.quiz.(isEnded := true)
    ensures |r.results| == |st.results|
  {
    var sorted := SortBySolved(st.results);
    var places := Places(Scores(sorted));
    st.(quiz := st.quiz.(isEnded := true),
        results := WithPlaces(sorted, places),
        profiles := if AddsRating(st.quiz) then CommitRatings(st.profiles, st.results) else st.profiles)
  }

  datatype FinaliseError = FinaliseNotFound

  /** `MakeQuizResultsView.get`: only the creator, and only once; the phase is not consulted. */
  function Finalise(st: QuizState, requester: UserId): (r: Result<QuizState, FinaliseError>)
    ensures r.Ok? <==> !st.quiz.isEnded && st.quiz.creator == requester
    ensures r.Ok? ==> r.value.quiz.isEnded && r.value.answers == st.answers
  {
    if st.quiz.isEnded then Err(FinaliseNotFound)
    else if st.quiz.creator != requester then Err(FinaliseNotFound)
    else Ok(MakeQuizResults(st))
  }

  /** A second finalisation is refused, whoever asks. */
  lemma FinaliseOnce(st: QuizState, requester: UserId, other: UserId)
    requires Finalise(st, requester).Ok?
    ensures Finalise(Finalise(st, requester).value, other).Err?
  {
  }

  /** Inserting a row adds its unplaced form to the unplaced rows. */
  lemma {:induction false} InsertUnplaced(row: ResultRow, rows: seq<ResultRow>)
    ensures multiset(Unplaced(Insert(row, rows))) == multiset(Unplaced(rows)) + multiset{row.(place := 0)}
  {
    if |rows| > 0 && row.solved < rows[0].solved {
      InsertUnplaced(row, rows[1..]);
      assert Unplaced(Insert(row, rows)) == [rows[0].(place := 0)] + Unplaced(Insert(row, rows[1..]));
      assert Unplaced(rows) == [rows[0].(place := 0)] + Unplaced(rows[1..]);
    } else {
      assert Unplaced(Insert(row, rows)) == [row.(place := 0)] + Unplaced(rows);
    }
  }

  /** Sorting rearranges the rows without changing any of them. */
  lemma {:induction false} SortUnplaced(rows: seq<ResultRow>)
    ensures multiset(Unplaced(SortBySolved(rows))) == multiset(Unplaced(rows))
  {
    if |rows| > 0 {
      SortUnplaced(rows[1..]);
      InsertUnplaced(rows[0], SortBySolved(rows[1..]));
      assert Unplaced(rows) == [rows[0].(place := 0)] + Unplaced(rows[1..]);
    }
  }

  /**
   * Finalisation writes only places: with places forgotten, the rows after
   * are the rows before, each exactly once.
   */
  lemma FinaliseWritesOnlyPlaces(st: QuizState, requester: UserId)
    requires Finalise(st, requester).Ok?
    ensures multiset(Unplaced(Finalise(st, requester).value.results)) == multiset(Unplaced(st.results))
  {
    var sorted := SortBySolved(st.results);
    SortUnplaced(st.results);
    assert Unplaced(Finalise(st, requester).value.results) == Unplaced(sorted);
  }

  /**
   * The finalised rows are in `solved`-descending order with dense places:
   * each place is the number of distinct scores at or above it, starting
   * from 1, tied scores share a place and a lower score has a later one.
   */
  lemma FinaliseRanksDensely(st: QuizState, requester: UserId)
    requires Finalise(st, requester).Ok?
    ensures var rows := Finalise(st, requester).value.results;
      SortedBySolved(rows)
      && (forall i :: 0 <= i < |rows| ==> rows[i].place == |ScoresUpTo(Scores(rows), i + 1)|)
      && (forall i, j :: 0 <= i <= j < |rows| && rows[i].solved == rows[j].solved ==> rows[i].place == rows[j].place)
      && (forall i, j :: 0 <= i < j < |rows| && rows[i].solved != rows[j].solved ==> rows[i].place < rows[j].place)
      && (|rows| > 0 ==> rows[0].place == 1)
  {
    var sorted := SortBySolved(st.results);
    var s := Scores(sorted);
    var rows := Finalise(st, requester).value.results;
    SortedScoresDescend(sorted);
    assert Scores(rows) == s;
    forall i | 0 <= i < |rows| ensures rows[i].place == |ScoresUpTo(Scores(rows), i + 1)| {
      PlacesCountDistinct(s, i);
    }
    forall i, j | 0 <= i <= j < |rows| && rows[i].solved == rows[j].solved ensures rows[i].place == rows[j].place {
      TiesShareAPlace(s, i, j);
    }
    forall i, j | 0 <= i < j < |rows| && rows[i].solved != rows[j].solved ensures rows[i].place < rows[j].place {
      LowerScoreLaterPlace(s, i, j);
    }
    if |rows| > 0 {
      FirstPlaceIsOne(s);
    }
  }

  /**
   * For a rated public quiz every participant's profile rating becomes
   * their `rating_after`; other profiles, and all profiles of any other
   * quiz, are left alone.
   */
  lemma FinaliseCommitsRatings(st: QuizState, requester: UserId)
    requires Finalise(st, requester).Ok?
    requires UniqueUsers(st.results)
    ensures var profiles := Finalise(st, requester).value.profiles;
      if AddsRating(st.quiz) then
        (forall i :: 0 <= i < |st.results| ==> profiles[st.results[i].user] == st.results[i].ratingAfter)
        && (forall u :: u in st.profiles && !Registered(st.results, u) ==> u in profiles && profiles[u] == st.profiles[u])
      else profiles == st.profiles
  {
    if AddsRating(st.quiz) {
      forall i | 0 <= i < |st.results| ensures CommitRatings(st.profiles, st.results)[st.results[i].user] == st.results[i].ratingAfter {
        CommitRatingsWrites(st.profiles, st.results, i);
      }
    }
  }

  /** A quiz without participants still ends, with nothing else written. */
  lemma FinaliseWithoutParticipants(st: QuizState, requester: UserId)
    requires Finalise(st, requester).Ok? && |st.results| == 0
    ensures Finalise(st, requester).value == st.(quiz := st.quiz.(isEnded := true))
  {
  }
}
