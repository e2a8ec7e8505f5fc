/**
 * Quiz creation: the answer lines of each question decoded into variants,
 * behind the administrator check and the two form validations.
 */
module VariantDecoding {
  import opened Wrappers
  import opened Text
  import opened Organizations
  import opened Quizzes
  import opened QuizForms

  /** One answer variant as stored: its text and whether it is correct. */
  datatype Variant = Variant(text: string, isCorrect: bool)

  /**
   * The loop body of `QuizCreateView.post`: a line ending with the marker
   * is correct, and its text is cut at the marker's last occurrence.
   */
  function DecodeVariant(line: string): (v: Variant)
    ensures v.isCorrect <==> MarksCorrect(line)
    ensures v.isCorrect ==> v.text + CorrectMarker == line
    ensures !v.isCorrect ==> v.text == line
  {
    var isCorrect := EndsWith(line, CorrectMarker);
    if isCorrect then
      EndsWithRFind(line, CorrectMarker);
      Variant(line[..RFind(line, CorrectMarker)], true)
    else Variant(line, false)
  }

  /** The line an author writes for a variant. */
  function EncodeVariant(v: Variant): (line: string)
    ensures |line| == |v.text| + (if v.isCorrect then |CorrectMarker| else 0)
  {
    if v.isCorrect then v.text + CorrectMarker else v.text
  }

  /** Decoding then encoding gives back every line. */
  lemma EncodeDecode(line: string)
    ensures EncodeVariant(DecodeVariant(line)) == line
  {
  }

  /**
   * Encoding then decoding gives back every variant whose line cannot be
   * misread: an incorrect variant's text must not itself end with the marker.
   */
  lemma DecodeEncode(v: Variant)
    requires !v.isCorrect ==> !MarksCorrect(v.text)
    ensures DecodeVariant(EncodeVariant(v)) == v
  {
    if v.isCorrect {
      var line := v.text + CorrectMarker;
      assert line[|line| - |CorrectMarker|..] == CorrectMarker;
      assert DecodeVariant(line).text + CorrectMarker == v.text + CorrectMarker;
    }
  }

  /** An incorrect text ending with the marker comes back as a correct variant. */
  lemma MarkedTextMisread(v: Variant)
    requires !v.isCorrect && MarksCorrect(v.text)
    ensures DecodeVariant(EncodeVariant(v)).isCorrect
  {
  }

  /** One variant per line, in order. */
  function DecodeVariants(lines: seq<string>): (vs: seq<Variant>)
    ensures |vs| == |lines|
    ensures forall i :: 0 <= i < |lines| ==> vs[i] == DecodeVariant(lines[i])
  {
    seq(|lines|, i requires 0 <= i < |lines| => DecodeVariant(lines[i]))
  }

  /** The fields of the quiz form, as posted. */
  datatype QuizInput = QuizInput(
    name: string,
    description: string,
    startTime: Option<int>,
    duration: int,
    isRated: bool,
    isPrivate: bool)

  /** One question form, as posted: its name, text, difficulty and the raw variants field. */
  datatype QuestionInput = QuestionInput(name: string, text: string, difficulty: int, variants: string)

  /** A question ready to be stored with its variants. */
  datatype QuestionDraft = QuestionDraft(name: string, text: string, difficulty: int, variants: seq<Variant>)

  /** A quiz ready to be stored with its questions. */
  datatype QuizDraft = QuizDraft(quiz: Quiz, name: string, description: string, questions: seq<QuestionDraft>)

  datatype CreateError =
    | CreateNotFound
      /** A form failed validation; the page is shown again. */
    | InvalidForm

  /**
   * `QuizForm.is_valid()`: the required name (at most 50 characters) and
   * description, then `clean_start_time`.
   */
  predicate QuizFormValid(form: QuizInput, now: int) {
    && TextField(form.name, Some(QuizNameMaxLength)).Ok?
    && TextField(form.description, None).Ok?
    && CleanStartTime(form.startTime, now).Ok?
  }

  /**
   * `QuestionForm.is_valid()`: the required name (at most 100 characters)
   * and text, then the variants field.
   */
  predicate QuestionFormValid(q: QuestionInput) {
    && TextField(q.name, Some(QuestionNameMaxLength)).Ok?
    && TextField(q.text, None).Ok?
    && VariantsField(q.variants).Ok?
  }

  /** `question_formset.is_valid()` over the filled question forms. */
  predicate AllQuestionsValid(questions: seq<QuestionInput>) {
    forall i :: 0 <= i < |questions| ==> QuestionFormValid(questions[i])
  }

  /** The question a valid form saves: its cleaned fields and its decoded lines. */
  function DraftQuestion(q: QuestionInput): (r: QuestionDraft)
    requires QuestionFormValid(q)
    ensures r.name == Strip(q.name) && r.text == Strip(q.text) && r.difficulty == q.difficulty
    ensures r.variants == DecodeVariants(VariantsField(q.variants).value)
  {
    QuestionDraft(Strip(q.name), Strip(q.text), q.difficulty, DecodeVariants(VariantsField(q.variants).value))
  }

  /**
   * `QuizCreateView.post`: 404 unless the user administers the
   * organisation, then both forms are validated and every question's
   * lines are decoded into its own variants. The new quiz is organised
   * by the organisation, created by the user and not ended.
   */
  function CreateQuiz(d: Directory, org: OrgId, actor: UserId, form: QuizInput, questions: seq<QuestionInput>, now: int)
    : (r: Result<QuizDraft, CreateError>)
    ensures r == Err(CreateNotFound) <==> IsAdminMixin(d, org, actor).Err?
    ensures r.Ok? <==>
      IsAdminMixin(d, org, actor).Ok? && QuizFormValid(form, now) && AllQuestionsValid(questions)
    ensures r.Ok? ==> r.value.quiz == Quiz(org, actor, form.isPrivate, form.isRated, false, form.startTime.value, form.duration)
    ensures r.Ok? ==> r.value.name == Strip(form.name) && r.value.description == Strip(form.description)
    ensures r.Ok? ==> |r.value.questions| == |questions|
    ensures r.Ok? ==> forall i :: 0 <= i < |questions| ==> r.value.questions[i] == DraftQuestion(questions[i])
  {
    if IsAdminMixin(d, org, actor).Err? then Err(CreateNotFound)
    else if !QuizFormValid(form, now) || !AllQuestionsValid(questions) then Err(InvalidForm)
    else Ok(SaveQuiz(org, actor, form, questions, now))
  }

  /** What the view saves once both forms are valid. */
  function SaveQuiz(org: OrgId, actor: UserId, form: QuizInput, questions: seq<QuestionInput>, now: int): (draft: QuizDraft)
    requires QuizFormValid(form, now) && AllQuestionsValid(questions)
    ensures draft.quiz == Quiz(org, actor, form.isPrivate, form.isRated, false, form.startTime.value, form.duration)
    ensures draft.name == Strip(form.name) && draft.description == Strip(form.description)
    ensures |draft.questions| == |questions|
    ensures forall i :: 0 <= i < |questions| ==> draft.questions[i] == DraftQuestion(questions[i])
  {
    var start := CleanStartTime(form.startTime, now).value;
    var drafts := seq(|questions|, i requires 0 <= i < |questions| => DraftQuestion(questions[i]));
    QuizDraft(Quiz(org, actor, form.isPrivate, form.isRated, false, start, form.duration),
      Strip(form.name), Strip(form.description), drafts)
  }

  /**
   * A blank or over-long name, a blank description or question text, or a
   * null character in any text field keeps the quiz from being created,
   * however valid everything else is.
   */
  lemma BadTextFieldRefused(d: Directory, org: OrgId, actor: UserId, form: QuizInput, questions: seq<QuestionInput>, now: int, i: nat)
    requires i < |questions|
    requires || |Strip(form.name)| == 0 || |Strip(form.name)| > QuizNameMaxLength
             || |Strip(form.description)| == 0
             || |Strip(questions[i].name)| == 0 || |Strip(questions[i].name)| > QuestionNameMaxLength
             || |Strip(questions[i].text)| == 0
             || NullChar in form.name || NullChar in form.description
             || NullChar in questions[i].name || NullChar in questions[i].text || NullChar in questions[i].variants
    ensures CreateQuiz(d, org, actor, form, questions, now).Err?
  {
    NullSurvivesStrip(form.name);
    NullSurvivesStrip(form.description);
    NullSurvivesStrip(questions[i].name);
    NullSurvivesStrip(questions[i].text);
    NullSurvivesStrip(questions[i].variants);
    assert CreateQuiz(d, org, actor, form, questions, now).Ok? ==> QuestionFormValid(questions[i]);
  }

  /** Every stored name is non-empty, stripped and within its model's length. */
  lemma CreatedNamesFit(d: Directory, org: OrgId, actor: UserId, form: QuizInput, questions: seq<QuestionInput>, now: int, i: nat)
    requires CreateQuiz(d, org, actor, form, questions, now).Ok?
    requires i < |questions|
    ensures var draft := CreateQuiz(d, org, actor, form, questions, now).value;
      && 0 < |draft.name| <= QuizNameMaxLength && IsStripped(draft.name)
      && 0 < |draft.questions[i].name| <= QuestionNameMaxLength && IsStripped(draft.questions[i].name)
      && draft.description != [] && draft.questions[i].text != []
  {
    assert QuestionFormValid(questions[i]);
  }

  /**
   * Every stored question has at least two variants, at least one of them
   * correct, and no variant text longer than the line limit.
   */
  lemma CreatedQuestionsAreAnswerable(d: Directory, org: OrgId, actor: UserId, form: QuizInput, questions: seq<QuestionInput>, now: int, i: nat)
    requires CreateQuiz(d, org, actor, form, questions, now).Ok?
    requires i < |questions|
    ensures var vs := CreateQuiz(d, org, actor, form, questions, now).value.questions[i].variants;
      |vs| >= 2
      && (exists k :: 0 <= k < |vs| && vs[k].isCorrect)
      && (forall k :: 0 <= k < |vs| ==> |vs[k].text| <= MaxVariantLength)
  {
    var lines := VariantsField(questions[i].variants).value;
    assert CreateQuiz(d, org, actor, form, questions, now).value.questions[i].variants == DecodeVariants(lines);
    DecodedAnswerable(lines);
  }

  /** Valid lines decode into an answerable question. */
  lemma DecodedAnswerable(lines: seq<string>)
    requires ValidVariants(lines)
    ensures var vs := DecodeVariants(lines);
      |vs| >= 2
      && (exists k :: 0 <= k < |vs| && vs[k].isCorrect)
      && (forall k :: 0 <= k < |vs| ==> |vs[k].text| <= MaxVariantLength)
  {
    var vs := DecodeVariants(lines);
    var k :| 0 <= k < |lines| && MarksCorrect(lines[k]);
    assert vs[k].isCorrect;
    forall j | 0 <= j < |vs| ensures |vs[j].text| <= MaxVariantLength {
      assert |vs[j].text| <= |lines[j]|;
    }
  }

  /** Only an administrator of a visible organisation creates quizzes. */
  lemma OnlyAdminsCreate(d: Directory, org: OrgId, actor: UserId, form: QuizInput, questions: seq<QuestionInput>, now: int)
    requires CreateQuiz(d, org, actor, form, questions, now).Ok?
    ensures OrganizationAdmin(d, org, actor).Some?
    ensures form.startTime.Some? && form.startTime.value >= now + MinStartLead
  {
  }
}
