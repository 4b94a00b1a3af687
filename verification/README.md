# Job-application lifecycle of the LAVORO recruitment back end

LAVORO is a recruitment platform with three kinds of users:

- **Candidates** apply to job offers.
- **Enterprises** publish job offers and process the applications they receive.
- **Administrators** oversee everything.

This Dafny project models the Java back end's core, plus two helpers from the front end's `src/lib/utils.ts`.

**The Java back end**
- The entities and their timestamps: users with their candidate or enterprise profile, job offers, applications, interviews and notifications.
- The services that create and change them: registration and login, applying to a job, the status and anonymity updates, scheduling interviews, the job catalogue, profile updates, the dashboards and notifications.
- The skill matcher that stamps a fit score (0-100) on every application.
- The response mapping that hides an anonymous candidate from enterprises.
- The bearer-token filter in front of the REST resources.

**The front end helpers**
- The TypeScript copy of the matcher.
- The status colour palette.

## How the model is built

**The store.** The database is one immutable value, `Model.Db`, with one map per table.
- A candidate or enterprise profile belongs to exactly one user, so it is a field of the `User` record. Its own id is the primary key of its table, and `Valid` keeps those ids unique, along with the emails (`Model.UniqueUserKeys`).
- An application refers to its candidate by user id, and a job to its enterprise by user id. Where a query compares profile ids, a lemma shows that in a valid store the user-id selection picks the same rows (`Model.ByCandidateIffUser`).
- Interviews are keyed by the id of their application. This is the unique `application_id` column.

**The invariant.** `Model.Valid` collects the schema's foreign keys and unique columns, plus the score range. Every write operation has a lemma proving that it keeps `Valid`. `updateApplicationStatus` is `updateStatus` once the text is parsed, so `Applications.UpdateStatusValid` covers it.

**Operations.**
- A service call is a function from the store to `Result<Db, Fault>`. The error carries the same HTTP status and message as the `ApiException` the service throws.
- Queries with `ORDER BY` are methods that sort a set of row ids. They use a selection sort in `Ordering`.

**Parameters.** The following become parameters of the operations:
- fresh UUIDs (as fresh `nat` ids, with a freshness `requires`);
- the clock (`now`);
- the JSON decoder;
- the ISO date parser;
- password hashing and checking;
- token validation.

**Timestamps.** `@PreUpdate` is modelled by `Touch*`. The update time moves only when a persisted column actually changed, as with Hibernate's dirty check.

**Behaviour worth noting.**
- `apply` does not check that the job is ACTIVE: it looks the job up with `findByIdWithEnterprise` (`Applications.ApplyIgnoresJobStatus`).
- `updateStatus` has no transition guard: it overwrites any status with any other (`Applications.DecisionsReversible`).
- Moving an application back to PENDING after an interview was scheduled leaves the interview in place. So an interview's application can have any status, and `Valid` says nothing about that status.
- `updateApplicationStatus` upper-cases its text, but `updateJobStatus` does not (`Jobs.UpdateJobStatusCaseSensitive`).
- `getUserDetails` reports the enterprise profile when a user has both kinds of profile.

## Model

| member | source | states |
|---|---|---|
| Text.Trim | job-recruitment-api/src/main/java/com/recruitment/service/MatchingService.java:32-38 | `trim` never lengthens a string, and the result neither starts nor ends with a strippable character |
| Text.TrimIsSlice | job-recruitment-api/src/main/java/com/recruitment/service/MatchingService.java:32-38 | the trimmed string is a contiguous slice of the input, and only strippable characters lie outside that slice |
| Text.TrimIdempotent | job-recruitment-api/src/main/java/com/recruitment/service/MatchingService.java:32-38 | trimming twice gives the same result as trimming once, so normalised skills are stable |
| Text.TrimPadded | job-recruitment-api/src/main/java/com/recruitment/service/MatchingService.java:32-38 | blank padding around a non-blank core is exactly what `trim` removes |
| Text.TrimAround | src/lib/utils.ts:13-14 | padding any string with strippable characters does not change its trimmed form |
| Text.TrimAgree | src/lib/utils.ts:13-14 | two notions of blank that agree on every character of a string trim it alike |
| Text.LowerChar | job-recruitment-api/src/main/java/com/recruitment/service/MatchingService.java:33 | lower-casing one character never leaves an upper-case ASCII letter, maps A-Z to a-z, and fixes every other character |
| Text.UpperChar | job-recruitment-api/src/main/java/com/recruitment/service/ApplicationService.java:145-148 | upper-casing one character never leaves a lower-case ASCII letter, maps a-z to A-Z, and fixes every other character |
| Text.ToLower | job-recruitment-api/src/main/java/com/recruitment/service/MatchingService.java:33 | `toLowerCase` keeps the length and maps every position independently |
| Text.ToLowerAppend | src/lib/utils.ts:13-14 | lower-casing distributes over concatenation |
| Text.ToUpper | job-recruitment-api/src/main/java/com/recruitment/service/JobService.java:51-58 | `toUpperCase` keeps the length and maps every position independently |
| Text.ContainsEmpty | job-recruitment-api/src/main/java/com/recruitment/service/MatchingService.java:41-44 | every string contains the empty string |
| Text.ContainsSelf | src/lib/utils.ts:16-20 | every string contains itself |
| Text.ContainsPiece | job-recruitment-api/src/main/java/com/recruitment/service/ApplicationService.java:75-78 | any piece of a concatenation is contained in it |
| Text.NotContainsLonger | job-recruitment-api/src/main/java/com/recruitment/service/MatchingService.java:41-44 | no string contains a longer one |
| Text.Split | job-recruitment-api/src/main/java/com/recruitment/service/MatchingService.java:59-65 | splitting yields at least one piece, and no piece contains the separator |
| Text.JoinSplit | job-recruitment-api/src/main/java/com/recruitment/service/MatchingService.java:75-78 | splitting loses nothing: re-joining the pieces with the separator rebuilds the input |
| Text.DropTrailingEmpty | job-recruitment-api/src/main/java/com/recruitment/service/MatchingService.java:75 | Java's `split` keeps a prefix of the pieces, removes only empty ones, and never ends on an empty piece |
| Text.NatToString | job-recruitment-api/src/main/java/com/recruitment/service/ApplicationService.java:75-78 | `%.0f` of a whole number is a non-empty run of decimal digits with no leading zero |
| Text.NatToStringValue | job-recruitment-api/src/main/java/com/recruitment/service/ApplicationService.java:75-78 | reading the printed digits back gives the number that was printed |
| Matching.SomeSkillCoversIff | job-recruitment-api/src/main/java/com/recruitment/service/MatchingService.java:41-44 | a requirement is matched exactly when some normalised skill contains it or is contained in it |
| Matching.MatchedCount | job-recruitment-api/src/main/java/com/recruitment/service/MatchingService.java:41-44 | the matched count never exceeds the number of requirements |
| Matching.RoundedPercent | job-recruitment-api/src/main/java/com/recruitment/service/MatchingService.java:46 | `Math.round(m / n * 100)` is a percentage within half a unit of the exact ratio, with halves rounded up |
| Matching.HalfUpBounds | job-recruitment-api/src/main/java/com/recruitment/service/MatchingService.java:46 | the integer half-up quotient is at most 100 and brackets the exact ratio |
| Matching.RoundedPercentEnds | job-recruitment-api/src/main/java/com/recruitment/service/MatchingService.java:46 | full coverage rounds to exactly 100, and no coverage to exactly 0 |
| Matching.ScoreBy | job-recruitment-api/src/main/java/com/recruitment/service/MatchingService.java:23-47 | for any normaliser, the score is between 0 and 100, and it is 0 when there are no requirements |
| Matching.Score | job-recruitment-api/src/main/java/com/recruitment/service/MatchingService.java:27-47 | the Java score of two decoded lists is a percentage, and it is 0 without requirements |
| Matching.MatchedCountAppend | job-recruitment-api/src/main/java/com/recruitment/service/MatchingService.java:41-44 | the count is additive over concatenated requirement lists, so a duplicated requirement counts twice |
| Matching.ScoreAllMatched | job-recruitment-api/src/main/java/com/recruitment/service/MatchingService.java:41-46 | when every requirement is covered, the score is 100 |
| Matching.ScoreNoneMatched | job-recruitment-api/src/main/java/com/recruitment/service/MatchingService.java:41-46 | when no requirement is covered, the score is 0 |
| Matching.ScoreNoSkills | job-recruitment-api/src/main/java/com/recruitment/service/MatchingService.java:41-46 | a candidate without skills scores 0 against any requirement list |
| Matching.BlankSkillCoversAll | job-recruitment-api/src/main/java/com/recruitment/service/MatchingService.java:41-44 | a skill that normalises to the empty string covers every requirement |
| Matching.BlankSkillScoresFull | job-recruitment-api/src/main/java/com/recruitment/service/MatchingService.java:41-46 | a single blank skill lifts any non-empty requirement list to 100 |
| Matching.ScoreAddSkill | job-recruitment-api/src/main/java/com/recruitment/service/MatchingService.java:41-46 | adding a skill never lowers the score |
| Matching.ScoreAgree | job-recruitment-api/src/main/java/com/recruitment/service/MatchingService.java:32-38 | the score depends on the normaliser only through its values on the given strings |
| Matching.ScoreSameForms | job-recruitment-api/src/main/java/com/recruitment/service/MatchingService.java:32-46 | lists that normalise alike, position by position, get the same score |
| Matching.CleanItems | job-recruitment-api/src/main/java/com/recruitment/service/MatchingService.java:61-64 | the trim-and-filter step keeps no blank item and never adds items |
| Matching.Kept | job-recruitment-api/src/main/java/com/recruitment/service/MatchingService.java:62-63 | one item survives the filter at most once, and never as an empty string |
| Matching.CleanItemsTrimmed | job-recruitment-api/src/main/java/com/recruitment/service/MatchingService.java:61-64 | every item that is kept is already trimmed |
| Matching.CleanItemsAppend | job-recruitment-api/src/main/java/com/recruitment/service/MatchingService.java:61-64 | cleaning distributes over concatenation, so the kept items stay in input order |
| Matching.CleanItemsSingle | job-recruitment-api/src/main/java/com/recruitment/service/MatchingService.java:61-64 | an item survives exactly when its trimmed form is non-empty, and it survives as that trimmed form |
| Matching.CleanJavaSplit | job-recruitment-api/src/main/java/com/recruitment/service/MatchingService.java:75-78 | Java's special cases in `split` (no separator, trailing empties) make no difference once blank items are dropped |
| Matching.CommaItems | job-recruitment-api/src/main/java/com/recruitment/service/MatchingService.java:59-65 | the comma fallback is "cut at every comma, trim, drop the blanks" |
| Matching.ParseList | job-recruitment-api/src/main/java/com/recruitment/service/MatchingService.java:52-66 | null, "" and "[]" give the empty list; otherwise the decoder's list is used, or the comma fallback when decoding fails |
| Matching.CalculateMatchingScore | job-recruitment-api/src/main/java/com/recruitment/service/MatchingService.java:23-47 | the score of two stored texts is a percentage, and it is 0 whenever the requirements text yields no items |
| Matching.EncodeList | job-recruitment-api/src/main/java/com/recruitment/service/MatchingService.java:79-80 | the JSON encoding of a list is a bracketed text, and it is "[]" exactly for the empty list |
| Matching.ToJsonArray | job-recruitment-api/src/main/java/com/recruitment/service/MatchingService.java:71-84 | null or "" is stored as "[]"; otherwise the stored text is the JSON of the trimmed, non-blank comma items |
| Matching.RequirementsRoundTrip | job-recruitment-api/src/main/java/com/recruitment/service/MatchingService.java:52-84 | for any decoder that inverts the encoder, `parseJsonArray(toJsonArray(t))` returns the list of items written |
| WebUtils.CalculateMatchingScoreTs | src/lib/utils.ts:7-23 | the browser score is 0 without requirements, and otherwise the half-up percentage of covered requirements |
| WebUtils.NormalizersAgree | src/lib/utils.ts:13-14 | on text whose blanks Java and JavaScript classify alike, the two normal forms coincide |
| WebUtils.TsMatchesJava | src/lib/utils.ts:7-23 | on such text, the front end and the back end compute the same score |
| WebUtils.TsDiffersFromJava | src/lib/utils.ts:13-14 | with a no-break space the two matchers disagree, 100 against 0, so the hypothesis above is needed |
| WebUtils.TsNoRequirements | src/lib/__tests__/utils.test.ts:23-25 | an empty requirement list scores 0 |
| WebUtils.TsAllMatch | src/lib/__tests__/utils.test.ts:27-31 | three skills covering both requirements score 100 |
| WebUtils.HalfCovered | src/lib/__tests__/utils.test.ts:33-37 | two requirements of which only the first is covered score 50 |
| WebUtils.TsIgnoresCase | src/lib/__tests__/utils.test.ts:45-49 | strings equal up to case have the same normal form |
| WebUtils.SameNormalFormCovers | src/lib/__tests__/utils.test.ts:51-55 | a requirement that normalises like some skill is matched |
| WebUtils.TsIgnoresPadding | src/lib/__tests__/utils.test.ts:57-61 | padding a string with white space does not change its normal form |
| WebUtils.TsScoreByForms | src/lib/utils.ts:13-22 | lists that normalise alike get the same browser score, whatever their case and padding |
| WebUtils.ListedRequirements | src/lib/utils.ts:16-20 | two requirements that both appear among the skills score 100 |
| WebUtils.GetStatusColorAsWritten | src/lib/utils.ts:32-45 | an own palette entry gives its class and an unknown name gives the neutral class, but an inherited property name gives no class string at all |
| WebUtils.StatusColorInheritedName | src/lib/utils.ts:44 | "toString" yields a function and "__proto__" yields an object, not a class string |
| WebUtils.GetStatusColor | src/lib/utils.ts:32-45 | every status name gets a class string: its palette entry, or the neutral gray |
| WebUtils.GetStatusColorAgrees | src/lib/utils.ts:44 | the own-entry lookup agrees with the code on every non-inherited name, and always yields one of the five palette classes |
| WebUtils.StatusColorCases | src/lib/__tests__/utils.test.ts:64-103 | the ten palette cases fixed by the front end's unit tests |
| Model.ParseApplicationStatus | job-recruitment-api/src/main/java/com/recruitment/service/ApplicationService.java:145-148 | `valueOf` is the exact inverse of the constant names: it accepts a name exactly when some status has it |
| Model.ParseJobStatus | job-recruitment-api/src/main/java/com/recruitment/service/JobService.java:170-175 | `valueOf` accepts a text exactly when it is a job status name |
| Model.ParseJobType | job-recruitment-api/src/main/java/com/recruitment/service/JobService.java:51-58 | `valueOf` accepts a text exactly when it is a job type name |
| Model.NewApplication | job-recruitment-api/src/main/java/com/recruitment/entity/Application.java:26-63 | a new application is PENDING, has score 0, is not anonymous, and has both timestamps set to the time of persisting |
| Model.NewInterview | job-recruitment-api/src/main/java/com/recruitment/entity/Interview.java:28-57 | a new interview is SCHEDULED with the given date and link, and has both timestamps set to the time of persisting |
| Model.NewJobOffer | job-recruitment-api/src/main/java/com/recruitment/entity/JobOffer.java:40-70 | a new job is ACTIVE, has requirements "[]" and no salary, and has both timestamps set to the time of persisting |
| Model.TouchApplication | job-recruitment-api/src/main/java/com/recruitment/entity/Application.java:51-54 | the update time moves to `now` exactly when some other column changed; otherwise the row is left as it was |
| Model.TouchInterview | job-recruitment-api/src/main/java/com/recruitment/entity/Interview.java:44-47 | the update time moves to `now` exactly when some other column changed |
| Model.TouchJob | job-recruitment-api/src/main/java/com/recruitment/entity/JobOffer.java:62-65 | the update time moves to `now` exactly when some other column changed |
| Model.TouchUser | job-recruitment-api/src/main/java/com/recruitment/entity/User.java:60-63 | a user's update time moves only when a column of the user row itself changed; profile edits do not count |
| Model.RewriteKeepsLinks | job-recruitment-api/src/main/java/com/recruitment/entity/Application.java:11 | rewriting an application without moving its candidate or job keeps the (candidate, job) pairs unique and the links intact |
| Model.InsertKeepsLinks | job-recruitment-api/src/main/java/com/recruitment/entity/Application.java:11 | inserting an application with a new pair, an existing candidate and an existing job keeps pairs unique and links intact |
| Model.JoinsTotal | job-recruitment-api/src/main/java/com/recruitment/repository/JobOfferRepository.java:38-51 | in a valid store, the inner joins of the look-ups never drop a job or an application |
| Model.ByCandidateIffUser | job-recruitment-api/src/main/java/com/recruitment/repository/ApplicationRepository.java:80 | in a valid store an application has a candidate's profile id exactly when it belongs to that candidate's user, since profile ids are primary keys |
| Model.HasAppliedByProfileAgrees | job-recruitment-api/src/main/java/com/recruitment/repository/ApplicationRepository.java:56-69 | looking for an existing application by profile id, as the query does, agrees with looking by user id in a valid store |
| Model.ApplicationOfPair | job-recruitment-api/src/main/java/com/recruitment/entity/Application.java:11 | in a valid store, at most one application links a given candidate to a given job |
| Notifications.UnreadCount | job-recruitment-api/src/main/java/com/recruitment/repository/NotificationRepository.java:56-63 | the unread count is at most the user's total, and it is 0 exactly when all of the user's notifications are read |
| Notifications.CreateNotification | job-recruitment-api/src/main/java/com/recruitment/service/NotificationService.java:32-38 | an unknown user gives 404 and stores nothing; otherwise exactly one unread notification is added and nothing else changes |
| Notifications.CreateNotificationCounts | job-recruitment-api/src/main/java/com/recruitment/service/NotificationService.java:32-38 | notifying a user raises that user's unread count by one and leaves every other user's count alone |
| Notifications.UnreadAfterAdd | job-recruitment-api/src/main/java/com/recruitment/repository/NotificationRepository.java:56-63 | adding one notification changes only its own user's unread set, and only when it is unread |
| Notifications.AddsOneKeepsOwned | job-recruitment-api/src/main/java/com/recruitment/service/NotificationService.java:32-38 | adding a notification for an existing user keeps every notification addressed to an existing user |
| Notifications.CreateNotificationValid | job-recruitment-api/src/main/java/com/recruitment/service/NotificationService.java:32-38 | notifying keeps the store invariant |
| Notifications.MarkAsRead | job-recruitment-api/src/main/java/com/recruitment/repository/NotificationRepository.java:65-70 | only the named notification's read flag changes; an unknown id changes nothing |
| Notifications.MarkAsReadValid | job-recruitment-api/src/main/java/com/recruitment/service/NotificationService.java:61-63 | marking one notification read keeps the invariant and every notification's owner |
| Notifications.MarkAsReadIdempotent | job-recruitment-api/src/main/java/com/recruitment/service/NotificationService.java:61-63 | an unknown id is a no-op, and marking twice gives the same result as marking once |
| Notifications.MarkAsReadCount | job-recruitment-api/src/main/java/com/recruitment/service/NotificationService.java:53-63 | marking one notification read lowers its owner's unread count by one if it was unread, and changes no other count |
| Notifications.MarkAllAsRead | job-recruitment-api/src/main/java/com/recruitment/repository/NotificationRepository.java:72-77 | every notification of the user becomes read, and every other notification is unchanged |
| Notifications.MarkAllAsReadValid | job-recruitment-api/src/main/java/com/recruitment/service/NotificationService.java:69-71 | marking all of a user's notifications read keeps the invariant and every notification's owner |
| Notifications.MarkAllAsReadEffect | job-recruitment-api/src/main/java/com/recruitment/service/NotificationService.java:53-71 | afterwards the user has nothing unread, other users' counts are unchanged, and repeating the call changes nothing |
| Notifications.FindByUserId | job-recruitment-api/src/main/java/com/recruitment/repository/NotificationRepository.java:35-44 | at most `limit` of the user's notifications, each once and newest first; none left out is newer than one returned |
| Notifications.GetNotifications | job-recruitment-api/src/main/java/com/recruitment/service/NotificationService.java:43-48 | the `limit` newest of the user's own notifications (all of them when there are fewer), with their stored content and flag, distinct and newest first; none left out is newer than one shown |
| Ordering.PickMax | job-recruitment-api/src/main/java/com/recruitment/repository/JobOfferRepository.java:93 | the chosen id belongs to the set and has the largest key |
| Ordering.SortDescending | job-recruitment-api/src/main/java/com/recruitment/repository/JobOfferRepository.java:93 | the result lists every id of the set exactly once, largest key first |
| Ordering.Take | job-recruitment-api/src/main/java/com/recruitment/repository/InterviewRepository.java:65 | `setMaxResults` keeps a prefix of length min(n, limit) |
| Ordering.TopByKey | job-recruitment-api/src/main/java/com/recruitment/repository/InterviewRepository.java:51-65 | the first `limit` ids by key, each once, sorted; no id left out has a larger key than one kept |
| Responses.FromEntity | job-recruitment-api/src/main/java/com/recruitment/dto/response/ApplicationResponse.java:43-100 | common fields are always copied; candidate data is hidden (placeholder email, all else null) exactly when masking is asked for and the application is anonymous; job and interview columns follow what was loaded |
| Responses.MaskingKeepsTheRest | job-recruitment-api/src/main/java/com/recruitment/dto/response/ApplicationResponse.java:53-97 | masking changes only the candidate's personal columns; the candidate id, job and interview are unchanged |
| Responses.MaskingNeedsAnonymity | job-recruitment-api/src/main/java/com/recruitment/dto/response/ApplicationResponse.java:56 | for a non-anonymous application, the hide flag has no effect |
| Responses.MaskedRevealsNothing | job-recruitment-api/src/main/java/com/recruitment/dto/response/ApplicationResponse.java:56-64 | two applicants with the same profile id but different personal data give the same masked response |
| Responses.UnmaskedShowsEmail | job-recruitment-api/src/main/java/com/recruitment/dto/response/ApplicationResponse.java:65-76 | unmasked responses of applicants with different emails differ |
| Responses.Load | job-recruitment-api/src/main/java/com/recruitment/entity/Application.java:42 | the fetch joins load the application's own row, candidate and interview; in a valid store every association is present |
| Applications.ApplyScore | job-recruitment-api/src/main/java/com/recruitment/service/ApplicationService.java:66-67 | the stamped score is a percentage |
| Applications.Apply | job-recruitment-api/src/main/java/com/recruitment/service/ApplicationService.java:51-81 | errors come in source order (no candidate profile 404, already applied 400, job not found 404); success adds exactly one PENDING application with the matcher's score plus one notice to the enterprise, and nothing else |
| Applications.InsertKeepsValid | job-recruitment-api/src/main/java/com/recruitment/service/ApplicationService.java:70-78 | inserting a linked application with a new pair and a bounded score, plus a notice, keeps the invariant |
| Applications.ApplyValid | job-recruitment-api/src/main/java/com/recruitment/service/ApplicationService.java:51-81 | applying keeps the store invariant |
| Applications.ApplyTwiceFails | job-recruitment-api/src/main/java/com/recruitment/service/ApplicationService.java:57-59 | a second application to the same job is refused with 400, whatever ids are drawn |
| Applications.ApplyIgnoresJobStatus | job-recruitment-api/src/main/java/com/recruitment/service/ApplicationService.java:62-63 | changing the job's status changes neither whether applying succeeds nor the application written |
| Applications.ApplyMessageMentions | job-recruitment-api/src/main/java/com/recruitment/service/ApplicationService.java:75-78 | the enterprise's notice quotes the job title and states the score as a percentage that reads back as the score |
| Applications.StatusWord | job-recruitment-api/src/main/java/com/recruitment/service/ApplicationService.java:134-138 | the notice says "accepted" exactly for ACCEPTED and "rejected" for every other status |
| Applications.UpdateStatus | job-recruitment-api/src/main/java/com/recruitment/service/ApplicationService.java:126-139 | 404 exactly when the application is not found with its details; otherwise only its status (and update time) changes, and the candidate is notified |
| Applications.UpdateStatusKeepsScore | job-recruitment-api/src/main/java/com/recruitment/service/ApplicationService.java:130-131 | the status update keeps the candidate, job, score, anonymity and creation time |
| Applications.DecisionsReversible | job-recruitment-api/src/main/java/com/recruitment/service/ApplicationService.java:126-139 | any status can be replaced by any other: there is no transition guard |
| Applications.RewriteKeepsValid | job-recruitment-api/src/main/java/com/recruitment/service/ApplicationService.java:130-131 | rewriting an application without moving its candidate, job or score keeps the invariant |
| Applications.UpdateStatusValid | job-recruitment-api/src/main/java/com/recruitment/service/ApplicationService.java:126-139 | the status update keeps the store invariant |
| Applications.UpdateApplicationStatus | job-recruitment-api/src/main/java/com/recruitment/service/ApplicationService.java:145-148 | an unknown name fails before any look-up; a name that upper-cases to a status acts as `updateStatus` with it |
| Applications.UpdateApplicationStatusAnyCase | job-recruitment-api/src/main/java/com/recruitment/service/ApplicationService.java:145-148 | the status text is read case-insensitively |
| Applications.UpdateAnonymity | job-recruitment-api/src/main/java/com/recruitment/service/ApplicationService.java:154-160 | 404 for an unknown id; otherwise only the flag and update time of that row change, and setting the same flag changes nothing |
| Applications.UpdateAnonymityValid | job-recruitment-api/src/main/java/com/recruitment/service/ApplicationService.java:154-160 | the anonymity toggle keeps the store invariant |
| Applications.DeleteApplication | job-recruitment-api/src/main/java/com/recruitment/service/ApplicationService.java:166-171 | 404 for an unknown id; otherwise the application and its interview go, and every other row stays |
| Applications.DeleteApplicationValid | job-recruitment-api/src/main/java/com/recruitment/entity/Application.java:11 | deletion keeps the invariant and frees the (candidate, job) pair for a new application |
| Applications.Render | job-recruitment-api/src/main/java/com/recruitment/service/ApplicationService.java:86-120 | each selected application appears exactly once, rendered by `fromEntity`, newest first |
| Applications.RenderTop | job-recruitment-api/src/main/java/com/recruitment/service/UserService.java:286-290 | the `limit` newest selected applications, rendered and distinct; none left out is newer than one shown |
| Applications.CandidateRowsByProfile | job-recruitment-api/src/main/java/com/recruitment/repository/ApplicationRepository.java:71-82 | in a valid store the candidate's rows selected by profile id are exactly those selected by user id |
| Applications.CandidateApplications | job-recruitment-api/src/main/java/com/recruitment/service/ApplicationService.java:86-93 | 404 without a candidate profile; otherwise each of the candidate's applications exactly once, unmasked, as `fromEntity` renders it, newest first |
| Applications.EnterpriseApplications | job-recruitment-api/src/main/java/com/recruitment/service/ApplicationService.java:98-102 | each application to the enterprise's jobs exactly once, newest first, with anonymous ones masked and the rest shown |
| Applications.JobApplications | job-recruitment-api/src/main/java/com/recruitment/service/ApplicationService.java:107-111 | each application to the job exactly once, newest first, with anonymous ones masked and the rest shown |
| Applications.AllApplications | job-recruitment-api/src/main/java/com/recruitment/service/ApplicationService.java:116-120 | the administrator sees every fully linked application exactly once, unmasked, newest first |
| Interviews.Rescheduled | job-recruitment-api/src/main/java/com/recruitment/service/InterviewService.java:48-59 | an existing interview keeps its id and creation time and takes the new date, link and SCHEDULED; otherwise a new one is created |
| Interviews.ScheduleInterview | job-recruitment-api/src/main/java/com/recruitment/service/InterviewService.java:40-74 | 404 before the date is parsed, then a parse error; on success the application's interview is set, the application becomes INTERVIEW_SCHEDULED and the candidate is notified, and nothing else changes |
| Interviews.ScheduleCount | job-recruitment-api/src/main/java/com/recruitment/entity/Interview.java:18-20 | rescheduling keeps the number of interviews; a first scheduling adds exactly one |
| Interviews.ScheduleIdempotent | job-recruitment-api/src/main/java/com/recruitment/service/InterviewService.java:48-65 | scheduling the same interview twice changes nothing the second time except for one more notice |
| Interviews.RescheduleSameIsNoop | job-recruitment-api/src/main/java/com/recruitment/service/InterviewService.java:48-65 | scheduling an interview that is already scheduled with that date and link only notifies |
| Interviews.SetInterviewKeepsValid | job-recruitment-api/src/main/java/com/recruitment/entity/Interview.java:18-20 | setting an application's interview keeps the invariant when no other interview has the same id |
| Interviews.ScheduleWritesKeepValid | job-recruitment-api/src/main/java/com/recruitment/service/InterviewService.java:61-65 | the two writes of a scheduling keep the invariant |
| Interviews.ScheduleValid | job-recruitment-api/src/main/java/com/recruitment/service/InterviewService.java:40-74 | scheduling keeps the store invariant |
| Interviews.UpdateInterviewStatus | job-recruitment-api/src/main/java/com/recruitment/service/InterviewService.java:99-105 | 404 for an unknown interview id; otherwise only the status of the interview with that id changes |
| Interviews.UpdateInterviewStatusTouchesOne | job-recruitment-api/src/main/java/com/recruitment/service/InterviewService.java:99-105 | the updated interview keeps its date and link, and every other interview is untouched |
| Interviews.RetagKeepsValid | job-recruitment-api/src/main/java/com/recruitment/entity/Interview.java:18-20 | rewriting interviews in place with unchanged ids keeps the invariant |
| Interviews.UpdateInterviewStatusValid | job-recruitment-api/src/main/java/com/recruitment/service/InterviewService.java:99-105 | the interview status update keeps the store invariant |
| Interviews.RenderInterviews | job-recruitment-api/src/main/java/com/recruitment/service/InterviewService.java:79-83 | one interview response per id, in order |
| Interviews.UpcomingRowsByProfile | job-recruitment-api/src/main/java/com/recruitment/repository/InterviewRepository.java:51-65 | in a valid store the candidate's upcoming interviews selected by profile id are exactly those selected by user id |
| Interviews.UpcomingInterviews | job-recruitment-api/src/main/java/com/recruitment/repository/InterviewRepository.java:51-65 | at most `limit` of the candidate's SCHEDULED interviews not before now, each rendered from a distinct stored interview, soonest first; none left out is sooner than one returned |
| Jobs.ResolveType | job-recruitment-api/src/main/java/com/recruitment/service/JobService.java:51-58 | a type filter is set only when the upper-cased text names a type, and then it is that type |
| Jobs.ResolveTypeCases | job-recruitment-api/src/main/java/com/recruitment/service/JobService.java:51-58 | null, "" and "all" mean any type; an unknown name also means any type; any spelling of a type name selects it |
| Jobs.EmptyFilterKeepsActive | job-recruitment-api/src/main/java/com/recruitment/repository/JobOfferRepository.java:80-92 | without filters every active job matches, and an empty location or search term filters nothing |
| Jobs.FindActiveJobs | job-recruitment-api/src/main/java/com/recruitment/repository/JobOfferRepository.java:78-109 | exactly the active jobs that match the filters, each once, newest first |
| Jobs.Listings | job-recruitment-api/src/main/java/com/recruitment/service/JobService.java:69-75 | one listing per job, in order, flagged by membership in the applied set |
| Jobs.GetActiveJobs | job-recruitment-api/src/main/java/com/recruitment/service/JobService.java:50-76 | the search results, each once and newest first; a job is flagged applied exactly when the given candidate has applied to it |
| Jobs.GetJobById | job-recruitment-api/src/main/java/com/recruitment/service/JobService.java:82-86 | a job is found by id exactly when it exists with its enterprise and is ACTIVE |
| Jobs.ClosedJobHidden | job-recruitment-api/src/main/java/com/recruitment/repository/JobOfferRepository.java:53-67 | a closed job cannot be fetched by id |
| Jobs.StatusCountsPartition | job-recruitment-api/src/main/java/com/recruitment/repository/JobOfferRepository.java:129-146 | an enterprise's ACTIVE and CLOSED job counts add up to its total |
| Jobs.GetEnterpriseJobs | job-recruitment-api/src/main/java/com/recruitment/service/JobService.java:102-109 | 404 without an enterprise profile; otherwise exactly its jobs of any status, each once and newest first |
| Jobs.ApplyCountsOnce | job-recruitment-api/src/main/java/com/recruitment/entity/JobOffer.java:169-171 | a successful application raises the applied job's count by one and leaves every other job's count alone |
| Jobs.InsertCounts | job-recruitment-api/src/main/java/com/recruitment/entity/JobOffer.java:169-171 | inserting one application adds it to its job's applications only |
| Jobs.CreateJob | job-recruitment-api/src/main/java/com/recruitment/service/JobService.java:115-131 | 404 without an enterprise profile; otherwise one new ACTIVE job carrying the request's fields and the JSON of its requirements |
| Jobs.CreateJobRequirements | job-recruitment-api/src/main/java/com/recruitment/service/JobService.java:115-131 | the stored requirements read back as the request's trimmed, non-blank items in order, and the invariant is kept |
| Jobs.Edited | job-recruitment-api/src/main/java/com/recruitment/service/JobService.java:137-154 | an edit keeps the owner and creation time, and changes the status only when one is given |
| Jobs.UpdateJob | job-recruitment-api/src/main/java/com/recruitment/service/JobService.java:137-154 | 404 for an unknown job, which may be closed; otherwise only that job changes |
| Jobs.UpdateJobKeepsScores | job-recruitment-api/src/main/java/com/recruitment/service/JobService.java:137-154 | editing a job leaves every application and its stamped score unchanged, and keeps the invariant |
| Jobs.UpdateJobStatus | job-recruitment-api/src/main/java/com/recruitment/service/JobService.java:170-175 | the job is looked up before the text is parsed; success changes only that job's status |
| Jobs.UpdateJobStatusValid | job-recruitment-api/src/main/java/com/recruitment/service/JobService.java:170-175 | a status change keeps the invariant and every application, and the job is then fetchable by id exactly when the new status is ACTIVE |
| Jobs.UpdateJobStatusCaseSensitive | job-recruitment-api/src/main/java/com/recruitment/service/JobService.java:170-175 | "closed" is refused and "CLOSED" is accepted |
| Jobs.DeleteJob | job-recruitment-api/src/main/java/com/recruitment/service/JobService.java:160-164 | 404 for an unknown job; otherwise the job, its applications and their interviews go, and nothing else changes |
| Jobs.DeleteJobValid | job-recruitment-api/src/main/java/com/recruitment/entity/JobOffer.java:53-54 | after deletion no application refers to the job, and the invariant is kept |
| Jobs.RemoveJobKeepsLinks | job-recruitment-api/src/main/java/com/recruitment/entity/JobOffer.java:53-54 | removing a job together with all its applications keeps the remaining rows linked |
| Jobs.RemoveKeepsUnique | job-recruitment-api/src/main/java/com/recruitment/entity/Application.java:42 | removing rows keeps unique columns unique and every remaining interview owned |
| Users.UpdateUserStatus | job-recruitment-api/src/main/java/com/recruitment/service/UserService.java:171-183 | 404 for an unknown user; otherwise only that user's flag and reason change, and the reason is cleared on activation |
| Users.DeactivateThenActivate | job-recruitment-api/src/main/java/com/recruitment/service/UserService.java:171-183 | deactivating then reactivating restores the flag and clears the reason |
| Users.UpdateUserStatusValid | job-recruitment-api/src/main/java/com/recruitment/service/UserService.java:171-183 | activation changes keep the store invariant |
| Users.UsersRewriteKeepsValid | job-recruitment-api/src/main/java/com/recruitment/entity/User.java:20 | rewriting users without changing emails or adding, removing or re-keying profiles keeps the invariant |
| Users.Overwrite | job-recruitment-api/src/main/java/com/recruitment/service/UserService.java:204-207 | a given value replaces the column, and an absent one leaves it |
| Users.UpdateProfile | job-recruitment-api/src/main/java/com/recruitment/service/UserService.java:199-244 | 404 for an unknown user; otherwise only that user changes, keeps email, role, activity and profiles, and takes the photo when one is given |
| Users.UpdateProfileCandidateFields | job-recruitment-api/src/main/java/com/recruitment/service/UserService.java:210-227 | each candidate field becomes the given value, or stays when none is given |
| Users.UpdateProfileEnterpriseFields | job-recruitment-api/src/main/java/com/recruitment/service/UserService.java:230-243 | each enterprise field becomes the given value, or stays when none is given |
| Users.UpdatedUserStable | job-recruitment-api/src/main/java/com/recruitment/service/UserService.java:199-244 | an empty request leaves the row identical, and a repeated request finds nothing to change |
| Users.UpdateProfileIdempotent | job-recruitment-api/src/main/java/com/recruitment/service/UserService.java:199-244 | an empty request changes nothing, not even the update time, and applying a request twice is the same as applying it once |
| Users.UpdateProfileValid | job-recruitment-api/src/main/java/com/recruitment/service/UserService.java:199-244 | profile updates keep the store invariant |
| Users.StatusesPartition | job-recruitment-api/src/main/java/com/recruitment/repository/ApplicationRepository.java:132-165 | the four status counts of a set of applications add up to its size |
| Users.CandidateCountsPartition | job-recruitment-api/src/main/java/com/recruitment/service/UserService.java:253-259 | a candidate's four per-status counts add up to the total |
| Users.EnterpriseCountsPartition | job-recruitment-api/src/main/java/com/recruitment/service/UserService.java:278-284 | an enterprise's four per-status counts add up to the total |
| Users.ReportedSkills | job-recruitment-api/src/main/java/com/recruitment/service/UserService.java:136-141 | skills are reported as stored when non-empty, and as "[]" otherwise |
| Users.GetUserDetails | job-recruitment-api/src/main/java/com/recruitment/service/UserService.java:102-165 | 404 for an unknown user; id, email, role, activity, photo and creation time are the user's; the enterprise profile, when present, is reported field by field, else the candidate profile with its skills as stored ("[]" when missing or empty), else none; the counts are the profile's applications or jobs, else 0 |
| Users.UpdateProfileKeepsCounts | job-recruitment-api/src/main/java/com/recruitment/service/UserService.java:199-244 | a profile update leaves the applications of the user's candidate profile and the jobs of the enterprise profile unchanged |
| Users.DetailsAfterUpdate | job-recruitment-api/src/main/java/com/recruitment/service/UserService.java:102-165 | after a profile update the details show each given field in place of the old one, and every other field and both counts as before |
| Users.AdminDetails | job-recruitment-api/src/main/java/com/recruitment/service/UserService.java:120-122 | a user without a profile is reported with no profile and zero counts |
| Users.GetCandidateDashboard | job-recruitment-api/src/main/java/com/recruitment/service/UserService.java:249-269 | 404 without a candidate profile; the counts are the profile's, the partial counts never exceed the total, and the upcoming interviews are the candidate's five soonest SCHEDULED ones not before now (all of them when fewer), each a distinct stored interview, soonest first, none left out sooner |
| Users.GetEnterpriseDashboard | job-recruitment-api/src/main/java/com/recruitment/service/UserService.java:274-295 | 404 without an enterprise profile; the counts are the profile's, and the recent list holds the five newest applications to its jobs (all when fewer), masked as `fromEntity` renders them, distinct and newest first, none left out newer |
| Auth.NewUser | job-recruitment-api/src/main/java/com/recruitment/service/AuthService.java:42-67 | a registered user is active and has exactly the profile of its role, with skills defaulting to "[]" and the company name to "Company Name" |
| Auth.Register | job-recruitment-api/src/main/java/com/recruitment/service/AuthService.java:35-76 | a taken email gives 400 and stores nothing; otherwise exactly one user is added |
| Auth.RegisterValid | job-recruitment-api/src/main/java/com/recruitment/service/AuthService.java:37-39 | registration with a freshly generated profile id keeps the invariant (emails and profile ids stay unique), and registering the same email again fails |
| Auth.AdminHasNoProfile | job-recruitment-api/src/main/java/com/recruitment/service/AuthService.java:51-67 | an administrator gets no profile |
| Auth.DeactivatedMessage | job-recruitment-api/src/main/java/com/recruitment/service/AuthService.java:92-101 | a deactivated account's message carries its reason, or the default text when the reason is missing or empty |
| Auth.Decide | job-recruitment-api/src/main/java/com/recruitment/service/AuthService.java:87-104 | login succeeds exactly with a correct password on an active account; the password is checked first |
| Auth.Login | job-recruitment-api/src/main/java/com/recruitment/service/AuthService.java:81-107 | an unknown email gives the same 401 as a wrong password; a success is an active account whose password verifies |
| Auth.LoginDecisionOrder | job-recruitment-api/src/main/java/com/recruitment/service/AuthService.java:81-107 | with unique emails the outcome is determined, and deactivation is revealed only to a caller who knows the password |
| Gate.AllowedRoles | job-recruitment-api/src/main/java/com/recruitment/config/JwtAuthenticationFilter.java:107-125 | the method's roles take precedence, and the class's roles apply only when the method names none |
| Gate.TokenOf | job-recruitment-api/src/main/java/com/recruitment/config/JwtAuthenticationFilter.java:55 | the token is what follows the "Bearer " prefix: prefixing it again rebuilds the header |
| Gate.Filter | job-recruitment-api/src/main/java/com/recruitment/config/JwtAuthenticationFilter.java:43-105 | a missing or non-bearer header gives 401, then an invalid token gives 401, then a role outside a non-empty allowed set gives 403; otherwise the request runs as the token's subject |
| Gate.FilterAdmits | job-recruitment-api/src/main/java/com/recruitment/config/JwtAuthenticationFilter.java:43-105 | a request is admitted exactly when its bearer token validates and its role is allowed (an empty set allows all) |
| Gate.BadTokenBeforeRoles | job-recruitment-api/src/main/java/com/recruitment/config/JwtAuthenticationFilter.java:57-73 | an invalid token is refused with 401 whatever roles are allowed |
| Gate.SchemeIsCaseSensitive | job-recruitment-api/src/main/java/com/recruitment/config/JwtAuthenticationFilter.java:45-53 | a lower-case "bearer" scheme is refused as a missing header |

## Left out

- JSON request and response DTOs beyond the application response are left out: getters, setters, `JobResponse` and `UserResponse`. The model states results on rows and on `ApplicationResponse`.
- `UserService.deleteUser`, `getUserById`, `getAllUsers`, `getRecentUsers` and the user counts of the admin statistics are left out. They are plain reads or deletions outside the application lifecycle.
- `JobService.getAllJobs`, `InterviewService.getAllInterviews`, `NotificationRepository.findUnreadByUserId` and `ApplicationService.getApplicationCount` are unordered or unfiltered reads. Their filtered and ordered siblings are modelled.
- Token generation (`JwtTokenService`), BCrypt hashing and JWT signature checking are parameters, not models. `isUserInRole` of the security context is left out.
- ISO date-time parsing, `LocalDateTime.now()`, UUID generation and the JSON decoder are parameters. Fresh ids are `nat` with a freshness `requires`.
- Transactions, rollback on an exception, concurrency and lazy loading are left out. Every modelled call is atomic, and its failure leaves the store unchanged.
- Matching.RoundedPercent: computes `Math.round` of a `double` in exact rational arithmetic. IEEE rounding of `m / n * 100` is not modelled.
- Text.ToLower: maps only the ASCII letters, not the full Unicode case tables of `toLowerCase` and `toUpperCase`.
- Jobs.LikeSubstring: reads the `%` and `_` wildcards inside a search term literally.
- Int-width limits and negative `limit` values of `setMaxResults` are not modelled. The limit is a `nat`.
- A JSON array holding `null` elements, which would make the matcher throw, is not modelled. The decoder returns a list of strings.
- Matching.ParseList: a stored text of `null` cannot be expressed. Jackson decodes it to a null list, and the matcher then throws a `NullPointerException` when it first uses that list. The decoder parameter always yields a list or a failure.
- Interviews.UpcomingInterviews: selects by the candidate's user id where `findUpcomingByCandidateId` compares the profile id. `Interviews.UpcomingRowsByProfile` proves the two selections equal in a valid store, and only there.
- Applications.CandidateApplications: selects by the candidate's user id (`Applications.CandidateRows`) where `findByCandidateId` compares the profile id. `Applications.CandidateRowsByProfile` proves the two selections equal in a valid store, and only there.
- Applications.Apply: its duplicate check `Model.HasApplied` selects by user id where `findByCandidateAndJob` compares the profile id. `Model.HasAppliedByProfileAgrees` proves the two agree in a valid store, and only there.
- The Java `Application.setInterview` back-reference is structural in the model, because interviews are keyed by application id.
- `Valid` does not tie an interview to an INTERVIEW_SCHEDULED application. `updateStatus` can move a scheduled application to any status while its interview stays (see above).

## Findings

| source | as written | input that shows it | evidently intended | confidence | as-written member | corrected member |
|---|---|---|---|---|---|---|
| src/lib/utils.ts:44 | `colors[status]` reads inherited `Object.prototype` members of the palette object, so the `\|\|` default does not apply to them | `getStatusColor("toString")` returns a function, and `getStatusColor("__proto__")` returns an object | only the palette's own entries count, and every other name gets the gray default | not executed | WebUtils.StatusColorInheritedName | WebUtils.GetStatusColorAgrees |
