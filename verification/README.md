# BrainForces business rules in Dafny

BrainForces is a Django site where organisations run quizzes. Around its ORM,
template and search code sit four small pieces of business logic. This project
models them as pure Dafny functions over immutable records and proves what the
code promises about them:

- **Organisations** (`organization.dfy`, `membership.dfy`). Roles are 0
  invited, 1 member, 2 admin and 3 creator. The model covers:
  - which organisations and posts a user may see;
  - the member and admin lookups, and the flags the mixins derive from them;
  - the rules for removing a user, changing a role, joining and inviting.
- **Quizzes** (`quiz.dfy`, `ranking.dfy`, `lifecycle.dfy`). The model covers:
  - who may open a quiz and its questions, by status code (1 not started,
    2 running, 3 finished);
  - registration;
  - answer submission, with its answer log and first-correct-answer scoring;
  - finalisation, which sorts participants by `solved`, hands out dense
    places and commits ratings.
- **Quiz authoring** (`quiz_forms.dfy`, `variants.dfy`). The model covers:
  - the variants field: one answer per line, a trailing `right` marks a
    correct answer, at least two lines, one correct, at most 75 characters;
  - the start-time check: at least five minutes ahead;
  - the required name and text fields of both forms, with their length limits
    and the refusal of null characters that every Django form text field adds;
  - the decoding of lines into variants in `QuizCreateView.post`.
- **Accounts** (`email.dfy`, `auth.dfy`). The model covers:
  - `normalize_email` and the username-or-email lookup;
  - the login-attempt counter of the email backend, which deactivates an
    account at `LOGIN_ATTEMPTS` failures and sends one reactivation email;
  - the reactivation link.

`text.dfy` models the Python `str` operations the code uses: `strip`,
`split`, `find`, `rfind`, `endswith`, `lower` and `replace`. `wrappers.dfy`
holds `Option` and `Result`.

Modelling choices:
- **Errors and time.** A 404, a validation error or an uncaught exception
  becomes an `Err`. Times are whole seconds.
- **The quiz status is an input.** The phase computation is not part of the
  shown code.
- **The quiz manager's `filter_user_access` is not shown.** Registration and
  the quiz detail page therefore take `visible` as a parameter.
- **Organisation links** are a map from (organisation, user) to a role. That
  is at most one link per pair. The link model shown
  (organization/models.py:31-70) declares no such constraint; the model
  infers it from the invite view's `except IntegrityError`
  (organization/views.py:145-155, the `except` at line 154). `JoinOrganizationView.get` does not catch
  that error, so joining while invited is an uncaught `IntegrityError`, an
  HTTP 500 (`Membership.Join`'s `JoinConflict`).
- **Two lookups are modelled as intended, not as written.**
  - `ActionWithUserView` calls `get_organization_member_or_invited`, which the
    manager does not define. It is modelled as the link of any role in an
    active organisation.
  - `user_can_access_quiz` passes `pk=` where the manager expects `org_pk`. It
    is modelled as the member lookup on the organiser.

Two behaviours of the code a reader may not expect, which the model keeps:
- **No status check on finalisation.** `MakeQuizResultsView.get` does not
  check that the quiz has finished. Its docstring (quiz/views.py:106-111)
  names only the existence check and the creator check, and those plus the
  `is_ended` filter are its only guards (`QuizLifecycle.Finalise`).
- **Correctness from the variant alone.** Submission takes correctness from
  the chosen variant's own flag. It does not check that the variant belongs
  to the question (`QuizLifecycle.Submit`).

Other behaviour of the code that the proofs make visible:
- **Promotion by a plain member.** `UpdateUserOrganizationRoleView` only asks
  that the actor's role exceed the target's. So a plain member (role 1) may
  raise an invited user (role 0) straight to administrator
  (`Membership.MemberMayPromoteInviteeToAdmin`).
- **A login name without `@` also matches the blank email.**
  `normalize_email` turns such a name into `""` (users/managers.py:53-54), and
  the backend looks up `email == ""` or `username == name`
  (users/backends.py:31-34). Blank emails are allowed, and at most one
  account can have one (users/models.py:21-26). Two consequences follow:
  - When some other account has the typed username, two accounts match, `get`
    raises `MultipleObjectsReturned`, and the login fails with an HTTP 500
    (`Authentication.BlankEmailCollides`).
  - A wrong password for a name no account has is charged to the
    blank-email account: its counter rises, and at the limit that account
    is deactivated (`Authentication.BlankEmailAccountTakesStrayFailures`).
- **`normalize_email` is not idempotent.**
  - `". x@gmail.com"` normalises to `" x@gmail.com"`, because the Gmail rule
    drops the dot only after stripping. A second pass gives `"x@gmail.com"`
    (`EmailNormalization.GmailDotExposesSpace`).
  - `create_superuser` normalises twice, so such an address would be stored
    differently from the one its duplicate check looked up.
  - Idempotence is proved for every result that does not begin with
    whitespace.

## Model

| member | source | states |
|---|---|---|
| Organizations.ActiveOrganizations | brainforces/organization/managers.py:7-9 | an organisation is returned exactly when it is active |
| Organizations.ActiveLinks | brainforces/organization/managers.py:70-72 | a link is returned exactly when its organisation is active |
| Organizations.OrganizationMember | brainforces/organization/managers.py:74-83 | a role is found exactly when the organisation is active and the user's link has role 1, 2 or 3, and it is that link's role |
| Organizations.OrganizationAdmin | brainforces/organization/managers.py:85-91 | an admin row is a member row whose role is 2 or 3 |
| Organizations.AdminsAreMembers | brainforces/organization/managers.py:85-91 | the user is an admin exactly when they are a member with role 2 or 3 |
| Organizations.MembersHaveActiveLinks | brainforces/organization/managers.py:70-83 | every membership comes from a link to an active organisation |
| Organizations.FilterUserAccess | brainforces/organization/managers.py:15-31 | only active organisations are returned |
| Organizations.VisibleIffPublicOrMember | brainforces/organization/managers.py:15-31 | an organisation is visible exactly when it is active and either public or the user is a member |
| Organizations.InvitationGrantsNoAccess | brainforces/organization/managers.py:24-28 | an invitation alone neither shows a private organisation nor makes a member |
| Organizations.FilterPostAccess | brainforces/organization/managers.py:49-64 | a post is returned exactly when its organisation is active, either both are public or the user has a link of any role, and it passes the optional organisation narrowing |
| Organizations.FilterPostAccessDistinct | brainforces/organization/managers.py:64 | no post is returned twice |
| Organizations.FilterPostAccessScoped | brainforces/organization/managers.py:62-63 | with an organisation key other than -1, only that organisation's posts are returned |
| Organizations.FilterPostAccessAll | brainforces/organization/managers.py:57-61 | with -1, a post is returned exactly when it is visible |
| Organizations.OrganizationMixin | brainforces/organization/mixins.py:10-21 | 404 unless the organisation passes `filter_user_access`, else that organisation |
| Organizations.MemberMixin | brainforces/organization/mixins.py:27-45 | `is_group_member` holds exactly for a member; `user_is_admin` exactly for an admin; admin implies member |
| Organizations.IsAdminMixin | brainforces/organization/mixins.py:54-58 | 404 exactly unless the organisation is visible and the user is an admin |
| Organizations.AdminsSeeTheirOrganization | brainforces/organization/mixins.py:54-58 | every admin passes the admin mixin, even for a private organisation |
| Organizations.OrganizationMainView | brainforces/organization/views.py:25-50 | the page exists exactly when the organisation is visible |
| Organizations.MainViewAgreesWithMixin | brainforces/organization/views.py:46-49 | the main page derives the same member and admin flags as the member mixin |
| Membership.MemberOrInvited | brainforces/organization/views.py:221-238 | a role is found exactly when the organisation is active and a link of any role exists |
| Membership.RemoveUser | brainforces/organization/views.py:244-269 | removal succeeds exactly when both links exist and either the actor outranks the target without being a plain member or removes themselves; it deletes only the target's link |
| Membership.MemberRemovesOnlySelf | brainforces/organization/views.py:254-261 | a plain member cannot remove anyone else |
| Membership.NoRemovalUpward | brainforces/organization/views.py:254-261 | nobody removes another user of equal or higher role |
| Membership.AnyoneMayLeave | brainforces/organization/views.py:254-263 | every linked user, the creator included, may remove their own link |
| Membership.UpdateRole | brainforces/organization/views.py:275-305 | an update succeeds exactly when the new role is 1 or 2, both links exist, and either the actor outranks the target or a user sets their own link to 1; only the target's role changes |
| Membership.UpdateNeverAssignsInvitedOrCreator | brainforces/organization/views.py:288-299 | a successful update assigns role 1 or 2 and leaves every other creator link alone |
| Membership.SelfUpdateOnlyToParticipant | brainforces/organization/views.py:288-299 | on one's own link, an update succeeds exactly for role 1 on an existing link |
| Membership.MemberMayPromoteInviteeToAdmin | brainforces/organization/views.py:288-299 | a plain member may raise an invited user to admin |
| Membership.Join | brainforces/organization/views.py:172-191 | joining succeeds exactly for a visible public organisation the user has no link to, and adds a role-1 link; an existing invitation is a conflict |
| Membership.JoinMakesMember | brainforces/organization/views.py:176-182 | after joining the user is a member and not an admin |
| Membership.Invite | brainforces/organization/views.py:120-162 | an invitation succeeds exactly for a valid form, an admin actor and an invitee without a link, and adds a role-0 link; a non-admin gets 404 |
| Membership.InviteeCannotSeePrivate | brainforces/organization/views.py:144-150 | a fresh invitation does not show a private organisation to the invitee |
| Membership.AcceptInvitation | brainforces/organization/views.py:288-299 | an invitee may set their own link to 1 and then is a member |
| Quizzes.UserCanAccessQuiz | brainforces/quiz/services.py:6-22 | access holds exactly when the quiz is public or the user is a member of the organiser |
| Quizzes.PrivateQuizAccessImpliesOrganizerVisible | brainforces/quiz/services.py:15-22 | whoever may enter a private quiz sees its organiser and holds more than an invitation |
| Quizzes.QuestionAccess | brainforces/quiz/mixins.py:30-38 | no access before the start; only registered users while running; after the end exactly those with quiz access |
| Quizzes.QuestionAccessNeeds | brainforces/quiz/views.py:83-90 | question access needs a started quiz, registration unless finished, and quiz access unless running |
| Quizzes.QuizMixin | brainforces/quiz/mixins.py:14-45 | with the quiz query giving one row per quiz, as intended: 404 exactly unless organiser and quiz are public or the user has any link to the organiser; `can_participate` is registration; end time is start plus `duration` minutes |
| Quizzes.QuizQueryRows | brainforces/quiz/mixins.py:16-25 | the written query yields no row exactly when the quiz is not visible |
| Quizzes.QuizMixinAsWritten | brainforces/quiz/mixins.py:16-25 | with the query as written: 404 exactly when the quiz is not visible; HTTP 500 exactly when the join yields two or more rows; otherwise the intended page |
| Quizzes.PublicQuizWithTwoLinksFails | brainforces/quiz/mixins.py:16-25 | a public quiz of a public organisation with two linked users fails with HTTP 500 as written, though the intended query shows it |
| Quizzes.AsWrittenAgreesOffPublicBranch | brainforces/quiz/mixins.py:16-25 | for a private quiz the written query and the intended one give the same answer |
| Quizzes.AccessToQuizMixin | brainforces/quiz/mixins.py:51-55 | 404 exactly when the quiz page is missing or its questions are closed |
| Quizzes.NoQuestionsBeforeStart | brainforces/quiz/mixins.py:31-32 | nobody reaches the questions of a quiz that has not started |
| Quizzes.RunningQuizOpenToParticipants | brainforces/quiz/mixins.py:27-34 | while running, exactly the visible, registered users reach the questions |
| Quizzes.QuizDetail | brainforces/quiz/views.py:70-99 | `can_end` holds exactly when the status is 3 and the user is the creator; end time is start plus `duration` minutes |
| Quizzes.DetailAgreesWithMixin | brainforces/quiz/views.py:78-98 | the detail page and the mixin agree on participation, question access and end time |
| Ranking.SortBySolved | brainforces/quiz/services.py:31-35 | the rows are rearranged, none added or lost, into `solved`-descending order |
| Ranking.InsertAddsRow | brainforces/quiz/services.py:31-35 | inserting adds exactly the one row |
| Ranking.InsertKeepsOrder | brainforces/quiz/services.py:31-35 | inserting keeps the rows in `solved`-descending order |
| Ranking.AssignPlaces | brainforces/quiz/services.py:37-54 | the loop hands out exactly the places of the step rule |
| Ranking.FirstPlaceIsOne | brainforces/quiz/services.py:37-53 | the first participant gets place 1 |
| Ranking.PlacesStep | brainforces/quiz/services.py:47-53 | each later place is the previous one, plus one exactly when `solved` differs from the predecessor's |
| Ranking.PlacesMonotone | brainforces/quiz/services.py:47-53 | places never decrease |
| Ranking.PlacesCountDistinct | brainforces/quiz/services.py:47-53 | on sorted scores each place is the number of distinct scores at or above it (dense ranking) |
| Ranking.TiesShareAPlace | brainforces/quiz/services.py:47-53 | equal `solved` gives an equal place |
| Ranking.LowerScoreLaterPlace | brainforces/quiz/services.py:47-53 | a lower `solved` gives a strictly later place |
| Ranking.LastPlaceCountsScores | brainforces/quiz/services.py:47-53 | the last place is the number of distinct `solved` values |
| Ranking.PlacesExampleTie | brainforces/quiz/services.py:47-53 | scores 5, 5, 3, 1 take places 1, 1, 2, 3 |
| QuizLifecycle.Register | brainforces/quiz/views.py:313-341 | registration succeeds exactly for a visible quiz, an unregistered user and an existing profile, and appends one row with both ratings equal to the profile rating; a second registration is a 404 |
| QuizLifecycle.RegisterOnce | brainforces/quiz/views.py:327-341 | after registering, the user is registered and registering again is refused |
| QuizLifecycle.RegisterKeepsUsersUnique | brainforces/quiz/views.py:327-335 | registration keeps one results row per user |
| QuizLifecycle.CountCorrectAppend | brainforces/quiz/views.py:250-255 | a new answer raises the correct-answer count exactly when it is a correct answer of that user to that question |
| QuizLifecycle.FirstRowIndex | brainforces/quiz/views.py:243-245 | the user's first results row is found exactly when the user is registered |
| QuizLifecycle.Credit | brainforces/quiz/views.py:257-259 | one more solved question, and the difficulty added to `rating_after` exactly when the quiz rates |
| QuizLifecycle.Submit | brainforces/quiz/views.py:190-261 | unknown question is a 404; without quiz access nothing changes; while running a repeat answer is refused; otherwise exactly one answer is appended, correct exactly when the variant is flagged correct |
| QuizLifecycle.SubmitScoresFirstCorrectAnswer | brainforces/quiz/views.py:246-260 | results change exactly when the quiz runs, the user is registered, the answer is correct and it is the user's first correct answer to the question; then only the user's first row is credited |
| QuizLifecycle.RunningAnswerScores | brainforces/quiz/views.py:221-260 | while running, an accepted answer scores exactly when the user is registered and it is correct |
| QuizLifecycle.LateAnswersDoNotScore | brainforces/quiz/views.py:246-248 | outside the running phase no answer changes a score |
| QuizLifecycle.SecondAnswerRefused | brainforces/quiz/views.py:222-236 | while running, a second answer to the same question is refused |
| QuizLifecycle.SubmitKeepsUsersUnique | brainforces/quiz/views.py:243-260 | answering keeps one results row per user |
| QuizLifecycle.CommitRatings | brainforces/quiz/services.py:43-46 | exactly the participants gain a profile entry; every non-participant's rating is unchanged |
| QuizLifecycle.CommitRatingsWrites | brainforces/quiz/services.py:43-46 | with one row per user, each participant's rating becomes their `rating_after` |
| QuizLifecycle.MakeQuizResults | brainforces/quiz/services.py:25-60 | the quiz is marked ended, one row per participant remains, answers and questions are untouched |
| QuizLifecycle.Finalise | brainforces/quiz/views.py:105-125 | finalising succeeds exactly for the creator of a quiz not yet ended, whatever its status |
| QuizLifecycle.FinaliseOnce | brainforces/quiz/views.py:114-118 | a second finalisation is refused |
| QuizLifecycle.FinaliseWritesOnlyPlaces | brainforces/quiz/services.py:53-60 | apart from `place`, the rows after are the rows before, each exactly once |
| QuizLifecycle.FinaliseRanksDensely | brainforces/quiz/services.py:31-54 | rows end `solved`-descending with dense places from 1: ties share a place, a lower score has a later one |
| QuizLifecycle.FinaliseCommitsRatings | brainforces/quiz/services.py:36-46 | a rated public quiz sets each participant's rating to their `rating_after` and leaves others alone; otherwise no profile changes |
| QuizLifecycle.FinaliseWithoutParticipants | brainforces/quiz/services.py:55-56 | without participants the quiz still ends and nothing else changes |
| QuizForms.StripLines | brainforces/quiz/forms.py:79-81 | line i is the i-th newline-separated piece of the text, stripped; one line per newline plus one, none holding a newline |
| QuizForms.CleanVariants | brainforces/quiz/forms.py:73-94 | accepted exactly when the stripped lines are at least two, one ends with `right` and none exceeds 75 characters; fewer than two lines exactly when there is no newline |
| QuizForms.VariantsField | brainforces/quiz/forms.py:62-67 | an all-whitespace field is required-missing; otherwise a null character is refused exactly when present, as every Django 3.2 `CharField` does before `clean_variants`; accepted lines are valid, stripped and newline-free |
| QuizForms.CleanVariantsRoundTrip | brainforces/quiz/forms.py:79-81 | accepted lines joined by newlines give back the text when no line carried surrounding whitespace |
| QuizForms.TextField | brainforces/quiz/models.py:20-36 | a required text field rejects a value that strips to nothing, then one longer than its `max_length`, then one holding a null character; otherwise it yields the stripped text, non-empty, null-free and within the limit |
| QuizForms.NullInNameRefused | brainforces/quiz/models.py:20-24 | a two-character quiz name ending in a null character is refused |
| QuizForms.TextFieldIdempotent | brainforces/quiz/models.py:20-36 | a cleaned value is accepted again unchanged |
| QuizForms.CleanStartTime | brainforces/quiz/forms.py:42-56 | a start time is accepted exactly when present and at least five minutes after now |
| QuizForms.StartTimeBoundary | brainforces/quiz/forms.py:48-52 | exactly five minutes ahead is accepted, one second less and a missing time are not |
| VariantDecoding.DecodeVariant | brainforces/organization/views.py:449-458 | a variant is correct exactly when its line ends with `right`; a correct one's text plus `right` is the line; an incorrect one's text is the line |
| VariantDecoding.EncodeDecode | brainforces/organization/views.py:450-453 | decoding then re-encoding gives back every line |
| VariantDecoding.DecodeEncode | brainforces/organization/views.py:450-453 | encoding then decoding gives back every variant whose incorrect text does not end with `right` |
| VariantDecoding.MarkedTextMisread | brainforces/organization/views.py:450-453 | an incorrect text ending with `right` comes back correct |
| VariantDecoding.DecodeVariants | brainforces/organization/views.py:444-459 | one variant per line, in order |
| VariantDecoding.CreateQuiz | brainforces/organization/views.py:414-482 | 404 exactly for a non-admin; success exactly when the quiz name (1 to 50 characters once stripped), the description, the start time and every question's name (1 to 100), text and variants field validate; names and texts are stored stripped; the quiz is organised by the organisation and created by the user; each question gets its own decoded lines |
| VariantDecoding.BadTextFieldRefused | brainforces/quiz/forms.py:24-31 | a blank or over-long quiz or question name, a blank description or question text, or a null character in any text field means no quiz is created |
| VariantDecoding.CreatedNamesFit | brainforces/quiz/models.py:64-73 | every stored quiz and question name is non-empty, stripped and within 50 and 100 characters, and descriptions and texts are non-empty |
| VariantDecoding.CreatedQuestionsAreAnswerable | brainforces/organization/views.py:444-459 | every created question has at least two variants, one correct, none longer than 75 characters |
| VariantDecoding.DecodedAnswerable | brainforces/organization/views.py:449-458 | valid lines decode into an answerable question |
| VariantDecoding.OnlyAdminsCreate | brainforces/organization/views.py:389-391 | a created quiz comes from an admin with a start time at least five minutes ahead |
| EmailNormalization.DropTag | brainforces/users/managers.py:59-60 | the result is the local part up to, not including, its first `+`; a part without `+` is kept |
| EmailNormalization.NormalizeEmail | brainforces/users/managers.py:52-68 | an input without `@` gives the empty string; the unpacking fails only with two or more `@` |
| EmailNormalization.NormalizeEmailShape | brainforces/users/managers.py:55-57 | the result is empty exactly without `@`, fails exactly with several, and is otherwise lower-case with one `@` |
| EmailNormalization.PrepareKeepsAt | brainforces/users/managers.py:57 | lower-casing and stripping keep the number of `@` |
| EmailNormalization.PrepareShape | brainforces/users/managers.py:57 | the prepared address is lower-case and stripped |
| EmailNormalization.CanonicalGmail | brainforces/users/managers.py:65-66 | a Gmail local part loses its tag and all dots |
| EmailNormalization.CanonicalHalves | brainforces/users/managers.py:59-66 | the rebuilt halves are lower-case and free of `@` and `+`, Yandex and Gmail local parts also of dots |
| EmailNormalization.CanonicalIsFixed | brainforces/users/managers.py:52-68 | a canonical address not starting with whitespace normalises to itself |
| EmailNormalization.NormalizeIdempotent | brainforces/users/managers.py:76-83 | normalising twice equals normalising once when the result does not start with whitespace |
| EmailNormalization.GmailDotExposesSpace | brainforces/users/managers.py:65-68 | `". x@gmail.com"` normalises to `" x@gmail.com"`, which normalises to `"x@gmail.com"` |
| EmailNormalization.NormalizeYandexVector | brainforces/users/tests/test_authentication.py:143 | `ABOBA@yA.ru` normalises to `aboba@yandex.ru` |
| EmailNormalization.NormalizeGmailVector | brainforces/users/tests/test_authentication.py:145 | `ABo.ba.+ger@gmail.com` normalises to `aboba@gmail.com` |
| Authentication.FirstMatch | brainforces/users/managers.py:43-50 | the first account whose username or email matches, and none before it |
| Authentication.GetUserByUsernameOrEmail | brainforces/users/managers.py:39-50 | the first account whose username is the input or whose email is the normalised input; none exactly when no account matches |
| Authentication.CountMatches | brainforces/users/backends.py:30-36 | no match exactly when the lookup finds nobody |
| Authentication.MultipleMatches | brainforces/users/backends.py:31-34 | the count exceeds one exactly when two different accounts match, the case where `get` raises |
| Authentication.SingleMatch | brainforces/users/backends.py:30-34 | with one match, the account found is the only matching one |
| Authentication.CheckPassword | brainforces/users/backends.py:37-67 | success clears the counter; failure adds one; the email goes out and the account deactivates exactly at the failure that reaches the limit |
| Authentication.Authenticate | brainforces/users/backends.py:16-68 | several matches is an error; a login happens only with the matched account's password; no account is added or lost |
| Authentication.AuthenticateUniqueMatch | brainforces/users/backends.py:37-67 | with one matching account: the right password logs it in and clears its counter; a wrong one logs nobody in and raises its counter by one; the email goes out exactly at the failure that reaches the limit |
| Authentication.BlankEmailCollides | brainforces/users/backends.py:31-34 | a name without `@` that is some account's username, with another account's email blank, makes the backend fail with `MultipleObjectsReturned` |
| Authentication.BlankEmailAccountTakesStrayFailures | brainforces/users/backends.py:31-67 | a wrong password for an unknown name without `@` logs nobody in and raises the blank-email account's counter by one, deactivating it and sending the email exactly at the limit |
| Authentication.UnknownUserChangesNothing | brainforces/users/backends.py:29-36 | an unknown user gets no login and changes nothing, exactly when the lookup finds nobody |
| Authentication.LookupAgreesWithBackend | brainforces/users/backends.py:29-36 | the account that logs in is the one the lookup returns |
| Authentication.AuthenticateNeverActivates | brainforces/users/backends.py:16-68 | no account becomes active, and no non-matching account changes |
| Authentication.PastLimitOnlyCounts | brainforces/users/backends.py:65-66 | past the limit a failure only counts |
| Authentication.FailRepeatedlyCounts | brainforces/users/backends.py:43-66 | after k failures the counter rose by k; the account is deactivated with exactly one email when the limit was reached on the way, otherwise its activity is unchanged and no email is sent |
| Authentication.LimitFailuresDeactivate | brainforces/users/tests/test_authentication.py:162-180 | from a clean counter, limit failures deactivate the account with one email |
| Authentication.TwoFailuresKeepDefaultAccount | brainforces/brainforces/settings.py:161 | with the default limit of 3, two failures leave the account as active as it was |
| Authentication.Reactivate | brainforces/users/views.py:122-129 | a valid link activates the account with the counter one below the limit; an invalid one changes nothing |
| Authentication.ReactivatedAccountOneFailureFromLockout | brainforces/users/views.py:128 | after reactivation one failure deactivates again and sends an email |
| Authentication.ReactivatedAccountCanLogIn | brainforces/users/views.py:122-129 | after reactivation the right password logs in and clears the counter |
| Text.Strip | brainforces/quiz/forms.py:80 | the result is a slice of the input with only whitespace cut off before and after it, and has no whitespace at either end; a stripped input is kept |
| Text.Split | brainforces/quiz/forms.py:80 | one more piece than separators, none containing the separator |
| Text.JoinSplit | brainforces/quiz/forms.py:80 | joining the pieces with the separator gives back the input |
| Text.SplitJoin | brainforces/users/managers.py:57 | splitting separator-free pieces joined by the separator gives back the pieces |
| Text.RFind | brainforces/organization/views.py:453 | the result is -1 or an occurrence with none later |
| Text.EndsWithRFind | brainforces/organization/views.py:450-453 | for a line ending with the pattern, the last occurrence is that suffix |
| Text.IndexOf | brainforces/users/managers.py:60 | -1 exactly when the character is absent, else its first occurrence |
| Text.Lower | brainforces/users/managers.py:57 | each character is replaced by its lower-case form, so the result has the same length and no capital letter; a lower-case input is kept |
| Text.ReplaceChar | brainforces/users/managers.py:63 | same length, the replaced character gone, an input without it kept |
| Text.RemoveChar | brainforces/users/managers.py:66 | the character gone, an input without it kept |
| Text.RemoveCharKeeps | brainforces/users/managers.py:66 | every other character keeps its count |

## Findings

| source | as written | input that shows it | evidently intended | confidence | as-written member | corrected member |
|---|---|---|---|---|---|---|
| brainforces/quiz/mixins.py:16-25 | The quiz query ORs a condition on the organiser's multi-valued `users` relation and has no `.distinct()`. The join yields one row per link of the organiser, and `get_object_or_404` raises `MultipleObjectsReturned` on more than one row. | A public quiz of a public organisation with two linked users, any requester: two rows, HTTP 500 on every page behind `QuizMixin`. | One row per quiz, as the organisation queries get from `.distinct()` (organization/managers.py:30). The page is shown exactly when the quiz is visible. | high; not executed | Quizzes.QuizMixinAsWritten, Quizzes.PublicQuizWithTwoLinksFails | Quizzes.QuizMixin |

## Left out

- Quiz phase: `get_quiz_status` is not part of the shown code, so the status (1, 2, 3) is an input and no time boundary is modelled.
- `CreateQuiz`: `duration`, `is_rated`, `is_private` and the question's `difficulty` are taken as already parsed values. Their form fields' parsing and validation are not modelled; the quiz and question models shown (quiz/models.py:4-90) do not declare `is_rated`, `is_private` or `difficulty`.
- Rendering and plumbing: templates, redirects, flash messages, pagination, URL configuration, the admin, and the question formset's 50 extra empty forms. `CreateQuiz` takes only the filled question forms.
- Email delivery and tokens: the model records that one reactivation email is sent. The token generator and its HMAC are left out; the reactivation link takes `tokenValid` as input.
- Search: the search vectors, the Elasticsearch documents and the archive views.
- Concurrency: submission and finalisation are modelled as single sequential steps. The code takes no locks, so two concurrent first answers could both score; the model does not cover that.
- Persistence: every model update is one state change. The separate saves and bulk updates, and what a failure between them would leave, are left out.
- The quiz manager's `filter_user_access` is not shown: `Quizzes.QuizDetail` and `QuizLifecycle.Register` take whether the quiz is visible as a parameter.
- QuizLifecycle.Register: a user without a profile gets `NoProfile`. In the code, reading `request.user.profile` raises an error there.
- QuizLifecycle.MakeQuizResults: the code pairs profiles with results by position in an unordered query. The model writes each participant's rating to their own profile, which is what that pairing intends when the positions line up.
- QuizLifecycle.FinaliseCommitsRatings: this assumes one results row per user. In the code that comes from the exists-check of the registration view, and `QuizLifecycle.RegisterKeepsUsersUnique` and `QuizLifecycle.SubmitKeepsUsersUnique` show that registration and submission preserve it. Two concurrent registrations could both pass the check; the model does not cover that.
- Ranking.SortBySolved: the database leaves the order of rows tied on `solved` open. The model keeps them in table order, and no lemma depends on that choice.
- Password hashing: `check_password` is modelled as equality with a stored credential.
- Account activity: `authenticate` does not look at `is_active` on success, and neither does the model. Django's login form rejects inactive users later, and that form is left out.
- `LOGIN_ATTEMPTS` comes from the environment: it is the `limit` parameter, with `Authentication.DefaultLoginAttempts` = 3.
- Text.Strip and Text.Lower: Python strips and lower-cases all of Unicode; the model covers the ASCII range only.
- EmailNormalization.NormalizeIdempotent: the model proves idempotence only when the result does not start with whitespace, because `EmailNormalization.GmailDotExposesSpace` shows the general claim is false.
- The `filter_user_access` queries are modelled as sets and lists over the tables. Column selection (`only`, `select_related`) and ordering are left out.
