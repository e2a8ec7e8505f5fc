/**
 * The quiz-authoring forms: the answer-variant field of a question, one
 * variant per line with a trailing `right` marking a correct one, and the
 * start time of a quiz.
 */
module QuizForms {
  import opened Wrappers
  import opened Text

  /** The marker that ends a correct variant's line. */
  const CorrectMarker: string := "right"

  /** The longest variant line accepted, marker included. */
  const MaxVariantLength: nat := 75

  /** How far ahead of now a quiz must start: five minutes, in seconds. */
  const MinStartLead: int := 5 * 60

  /**
   * The character every form `CharField` refuses, through Django's
   * `ProhibitNullCharactersValidator`.
   */
  const NullChar: char := '\0'

  /** Stripping never removes a null character: the validator sees every one. */
  lemma NullSurvivesStrip(s: string)
    ensures NullChar in s <==> NullChar in Strip(s)
  {
    StripKeeps(s, NullChar);
  }

  /** Why the variants field was rejected, in the order the checks run. */
  datatype VariantsError =
    | Required
    | NullCharacter
    | TooFewVariants
    | NoCorrectVariant
    | VariantTooLong

  /** The field's text cut at each newline, each piece stripped of surrounding whitespace. */
  function StripLines(text: string): (lines: seq<string>)
    ensures |lines| == multiset(text)['\n'] + 1
    ensures forall i :: 0 <= i < |lines| ==> IsStripped(lines[i]) && '\n' !in lines[i]
    ensures |lines| == |Split(text, '\n')|
    ensures forall i :: 0 <= i < |lines| ==> lines[i] == Strip(Split(text, '\n')[i])
  {
    var parts := Split(text, '\n');
    seq(|parts|, i requires 0 <= i < |parts| => StrippedWithout(parts[i], '\n'))
  }

  /** `Strip(s)`, together with the fact that it keeps out a character `s` lacks. */
  function StrippedWithout(s: string, c: char): (r: string)
    requires c !in s
    ensures r == Strip(s) && c !in r
  {
    StripWithin(s, c);
    Strip(s)
  }

  /** A correct variant's line: it ends with the marker. */
  predicate MarksCorrect(line: string) {
    EndsWith(line, CorrectMarker)
  }

  /** What a question's variants must satisfy: two or more, one correct at least, none too long. */
  predicate ValidVariants(lines: seq<string>) {
    |lines| >= 2
    && (exists i :: 0 <= i < |lines| && MarksCorrect(lines[i]))
    && (forall i :: 0 <= i < |lines| ==> |lines[i]| <= MaxVariantLength)
  }

  /**
   * `QuestionForm.clean_variants` on the field's cleaned text: the
   * stripped lines when they are valid, else the first failed check.
   */
  function CleanVariants(text: string): (r: Result<seq<string>, VariantsError>)
    ensures r.Ok? <==> ValidVariants(StripLines(text))
    ensures r.Ok? ==> r.value == StripLines(text)
    ensures r == Err(TooFewVariants) <==> '\n' !in text
    ensures r == Err(NoCorrectVariant) ==>
      '\n' in text && forall i :: 0 <= i < |StripLines(text)| ==> !MarksCorrect(StripLines(text)[i])
    ensures r.Err? ==> r.error != Required && r.error != NullCharacter
  {
    var lines := StripLines(text);
    if |lines| < 2 then Err(TooFewVariants)
    else if !(exists i :: 0 <= i < |lines| && MarksCorrect(lines[i])) then Err(NoCorrectVariant)
    else if exists i :: 0 <= i < |lines| && |lines[i]| > MaxVariantLength then Err(VariantTooLong)
    else Ok(lines)
  }

  /**
   * The whole `variants` field: the form field strips the text, requires it
   * to be non-empty and refuses a null character; then `clean_variants` runs.
   */
  function VariantsField(raw: string): (r: Result<seq<string>, VariantsError>)
    ensures r == Err(Required) <==> |Strip(raw)| == 0
    ensures r == Err(NullCharacter) <==> |Strip(raw)| > 0 && NullChar in Strip(raw)
    ensures r.Ok? ==> NullChar !in Strip(raw)
    ensures r.Ok? ==> ValidVariants(r.value)
    ensures r.Ok? ==> forall i :: 0 <= i < |r.value| ==> IsStripped(r.value[i]) && '\n' !in r.value[i]
  {
    var text := Strip(raw);
    if |text| == 0 then Err(Required)
    else if NullChar in text then Err(NullCharacter)
    else CleanVariants(text)
  }

  /** The accepted lines put back together give the cleaned text exactly when no line lost whitespace. */
  lemma CleanVariantsRoundTrip(text: string)
    requires CleanVariants(text).Ok?
    requires forall i :: 0 <= i < |Split(text, '\n')| ==> IsStripped(Split(text, '\n')[i])
    ensures Join(CleanVariants(text).value, '\n') == text
  {
    var parts := Split(text, '\n');
    assert StripLines(text) == parts;
    JoinSplit(text, '\n');
  }

  /** The `max_length` of `Quiz.name`. */
  const QuizNameMaxLength: nat := 50

  /** The `max_length` of `Question.name`. */
  const QuestionNameMaxLength: nat := 100

  /** Why a plain text field was rejected, in the order the form field checks. */
  datatype TextFieldError = FieldRequired | FieldTooLong | FieldHasNull

  /**
   * The form field a model form derives from a required `CharField` or
   * `TextField`: it strips the text and rejects an empty result; then its
   * validators refuse a result longer than the model's `max_length`, when
   * there is one, and a result holding a null character. Django reports the
   * failures of both validators together; the error here names the first.
   */
  function TextField(raw: string, maxLength: Option<nat>): (r: Result<string, TextFieldError>)
    ensures r == Err(FieldRequired) <==> |Strip(raw)| == 0
    ensures r == Err(FieldTooLong) <==> |Strip(raw)| > 0 && maxLength.Some? && |Strip(raw)| > maxLength.value
    ensures r == Err(FieldHasNull) <==>
      |Strip(raw)| > 0 && (maxLength.Some? ==> |Strip(raw)| <= maxLength.value) && NullChar in Strip(raw)
    ensures r.Ok? ==> r.value == Strip(raw) && r.value != [] && NullChar !in r.value
    ensures r.Ok? ==> maxLength.Some? ==> |r.value| <= maxLength.value
  {
    var text := Strip(raw);
    if |text| == 0 then Err(FieldRequired)
    else if maxLength.Some? && |text| > maxLength.value then Err(FieldTooLong)
    else if NullChar in text then Err(FieldHasNull)
    else Ok(text)
  }

  /** A cleaned value is accepted again unchanged: the field is idempotent. */
  lemma TextFieldIdempotent(raw: string, maxLength: Option<nat>)
    requires TextField(raw, maxLength).Ok?
    ensures TextField(TextField(raw, maxLength).value, maxLength) == TextField(raw, maxLength)
  {
  }

  /** A quiz name of `a` and a null character is refused, though short and non-blank. */
  lemma NullInNameRefused()
    ensures TextField(['a', NullChar], Some(QuizNameMaxLength)) == Err(FieldHasNull)
  {
    assert IsStripped(['a', NullChar]);
  }

  /** Why the start time was rejected. */
  datatype StartTimeError = StartTooSoon

  /**
   * `QuizForm.clean_start_time`: a start time is required and must lie at
   * least five minutes after `now` (both in seconds).
   */
  function CleanStartTime(start: Option<int>, now: int): (r: Result<int, StartTimeError>)
    ensures r.Ok? <==> start.Some? && start.value >= now + MinStartLead
    ensures r.Ok? ==> r.value == start.value
  {
    if start.None? || !(start.value - now >= MinStartLead) then Err(StartTooSoon) else Ok(start.value)
  }

  /** Exactly five minutes ahead is accepted; one second less is not. */
  lemma StartTimeBoundary(now: int)
    ensures CleanStartTime(Some(now + 300), now) == Ok(now + 300)
    ensures CleanStartTime(Some(now + 299), now).Err?
    ensures CleanStartTime(None, now).Err?
  {
  }
}
