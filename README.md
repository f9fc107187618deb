# CompileX scoring, gamification and administration core in Dafny

CompileX is a gamified e-learning platform for a compiler-design course. A
Flask service backed by MongoDB stores users, courses, modules, questions,
quiz attempts, contests and a contest leaderboard. A React client shows
modules and quizzes, runs timed contests, and gives administrators a
dashboard for editing content and for generating quiz modules from PDF text.

This project models the logic of that system and proves properties of it:

- **Levels and badges** (`Models`): `level_for_xp` over the threshold table
  0, 100, 200, 350, 500, 700, and the four badge names.
- **Quiz submission** (`QuizRoutes`): grading against the module's question
  map, 5 XP per correct answer, the level, the Perfect Score, Quick Learner
  and Module Master rules, and the completed-modules list at a 70% pass mark.
- **Contests** (`ContestRoutes`, `Ranking`):
  - an idempotent join;
  - scoring with marks per question, a penalty for answered-but-wrong
    answers, and a zero floor;
  - an upserted leaderboard entry;
  - ranks from a stable sort on the truncated score;
  - the Contest Winner badge;
  - the result status;
  - the leaderboard ordering by score, then time.
- **Progress and profile** (`GamificationRoutes`): the profile projection
  and the XP sum over the attempt history.
- **Administration** (`AdminRoutes`):
  - the statistics counts;
  - create, patch and delete for modules, questions and contests, with their
    whitelists, defaults and cascades;
  - PDF upload;
  - generating a module from a PDF: its number, the truncated context, and
    the stored questions.
- **Question generation** (`QuestionService`):
  - sentence splitting;
  - keywords and concepts;
  - the multiple-choice question built from a sentence;
  - the generation loop with its caps.
- **Accounts** (`AuthRoutes`): registration and login validation over the
  users table.
- **Maintenance scripts** (`Seed`, `RemoveDuplicates`): idempotent seeding,
  and the keep-first removal of duplicate modules.
- **Client** (`ContestQuizPage`, `ModulePage`, `AdminDashboard`, `App`,
  `AuthContext`):
  - the contest page's grading, payload, countdown and `m:ss` timer;
  - the YouTube id extractor;
  - the video-link text codec and the dashboard's form state;
  - the route guards;
  - the sign-in state machine.

Collections are `seq` fields of a `Store.Db` object, in insertion order, with
a counter that hands out fresh ids. `Db.Valid()` says that every stored id is
below the counter, in each table whose documents carry an id (quiz attempts
carry none), so `Db.NewId` returns an id no stored document has. Handlers that write the database are
methods with `modifies` clauses on exactly the collections they touch. Their
loops are separate methods, proved against specification functions, and
lemmas state the properties those functions have.

Client components keep their state in a class whose fields are the `useState`
slots. Server replies, clocks, random draws and token decoding are
parameters.

Where the platform's written design description and the code disagree, the
model follows the code. The code and the model use:

- 5 XP per correct answer, with no perfect-score bonus;
- the threshold table for levels, not one level per 100 XP;
- "Quick Learner" at no more than 10 seconds per question;
- Module Master by the best ratio per attempted module, not a count of
  completed modules.

## Model

| member | source | states |
|---|---|---|
| Models.Level | backend/src/models.py:3-9 | the level is between 1 and 6 |
| Models.LevelForXp | backend/src/models.py:3-9 | the threshold loop returns `Level(xp)`, the count of thresholds reached and never below 1 |
| Models.AllReached | backend/src/models.py:4-8 | with ascending thresholds, reaching the last one means every one is reached |
| Models.ReachedMonotone | backend/src/models.py:6-8 | more XP never reaches fewer thresholds |
| Models.ReachedExactly | backend/src/models.py:4-8 | exactly `k` thresholds are reached iff the `k`-th is reached and the next is not |
| Models.LevelBand | backend/src/models.py:3-9 | level `i` holds exactly from threshold `i` (any XP below 100 for level 1) up to threshold `i + 1` |
| Models.LevelMonotone | backend/src/models.py:3-9 | more XP never gives a lower level |
| Models.LevelExtremes | backend/src/models.py:3-9 | XP below 100 (negative included) is level 1; 700 or more is level 6 |
| Models.BadgeNamesDistinct | backend/src/models.py:11-14 | the four badge names are pairwise different |
| AuthRoutes.RoleOf | backend/src/routes/auth_routes.py:14 | the role is lower case, "student" when absent or empty, and otherwise the given role up to case |
| AuthRoutes.FindEmail | backend/src/routes/auth_routes.py:23 | the result is the first user with the email, and none exactly when no user has it |
| AuthRoutes.NewUserOf | backend/src/routes/auth_routes.py:16-37 | missing fields give 400, an admin role while admin registration is off gives 403, a taken email gives 400, in that order; otherwise the new user has XP 0, level 1, no badges and the hashed password, and emails stay unique |
| AuthRoutes.Register | backend/src/routes/auth_routes.py:8-45 | an error changes nothing; success appends the new user and returns a token for its id, role, name and email, with the role |
| AuthRoutes.Login | backend/src/routes/auth_routes.py:48-67 | missing fields give 400; an unknown email or a password that does not verify gives 401; otherwise the token carries the stored user's id, role, name and email |
| AuthRoutes.FindEmailAppended | backend/src/routes/auth_routes.py:23-37 | a user registered with a new email is the one found by that email afterwards |
| AuthRoutes.RegisterThenLogin | backend/src/routes/auth_routes.py:8-67 | logging in with the email and password just registered returns the registration's session |
| GamificationRoutes.StudentProfile | backend/src/routes/gamification_routes.py:8-17 | 404 "User not found" exactly when no user has the id; otherwise the profile of a user with that id |
| GamificationRoutes.ProfileIgnoresPassword | backend/src/routes/gamification_routes.py:13 | the profile does not depend on the password hash |
| GamificationRoutes.TotalXpAppend | backend/src/routes/gamification_routes.py:28-29 | the XP total of two lists of attempts is the sum of their totals |
| GamificationRoutes.TotalXpAfterAttempt | backend/src/routes/gamification_routes.py:25-29 | a new attempt adds its XP to its own student's total and to no one else's |
| GamificationRoutes.TotalXpNonNegative | backend/src/routes/gamification_routes.py:26-29 | with no negative XP per attempt the total is not negative |
| GamificationRoutes.SummarizeAttempts | backend/src/routes/gamification_routes.py:26-42 | the loop returns the XP total, its level, and one row per attempt in order |
| GamificationRoutes.StudentProgress | backend/src/routes/gamification_routes.py:20-42 | progress covers exactly the student's attempts in stored order, with their XP total and its level |
| Seed.FindCourse | backend/src/services/seed.py:7 | the result is the first course with the title, and none exactly when no course has it |
| Seed.SeedModules | backend/src/services/seed.py:33-42 | the checks only append modules, and the next id advances by one per module appended |
| Seed.SeedModulesComplete | backend/src/services/seed.py:33-42 | after the checks every module number up to the bound has a module of the course |
| Seed.SeedModulesNothingMissing | backend/src/services/seed.py:34-35 | when every number already has its module the loop inserts nothing |
| Seed.Seeded | backend/src/services/seed.py:4-42 | only appends; the course is inserted, with modules 1 to 5, exactly when no course has the title |
| Seed.SeededComplete | backend/src/services/seed.py:4-42 | after seeding the course exists and has a module for each of the numbers 1 to 5 |
| Seed.CourseAppended | backend/src/services/seed.py:8-14 | the course inserted under a new title is the one the second `find_one` returns |
| Seed.SeedIdempotent | backend/src/services/seed.py:4-42 | a second run inserts nothing and takes no id |
| Seed.SeedInitialData | backend/src/services/seed.py:4-42 | the tables and the next id become `Seeded` of the old ones |
| Seed.SeedCourse | backend/src/services/seed.py:7-14 | the existing course is used as it is; a missing one is inserted with the next id and found again |
| Seed.SeedLoop | backend/src/services/seed.py:33-42 | the module loop leaves `SeedModules` of the old modules for numbers 1 to 5 |
| Seed.SeedModulesStep | backend/src/services/seed.py:34-42 | one more number inserts its module exactly when none is present |
| Seed.SeedOne | backend/src/services/seed.py:34-42 | a present module leaves the table alone; a missing one is appended with the title, notes and links of its number |
| Seed.HasModuleScan | backend/src/services/seed.py:34 | the scan answers whether a module of the course has the number |
| RemoveDuplicates.KeysOf | backend/remove_duplicates.py:19 | every module's key is among the keys |
| RemoveDuplicates.KeyAbsent | backend/remove_duplicates.py:19 | a key no module has is not among the keys |
| RemoveDuplicates.KeepFirst | backend/remove_duplicates.py:23-31 | what is kept is no longer than the listing and comes from it |
| RemoveDuplicates.IdSet | backend/remove_duplicates.py:28-30 | every module's id is among the ids |
| RemoveDuplicates.GroupingOf | backend/remove_duplicates.py:17-20 | every key listed has a group |
| RemoveDuplicates.Append | backend/remove_duplicates.py:19-20 | appending a module keeps every listed key in the map |
| RemoveDuplicates.GroupingWellFormed | backend/remove_duplicates.py:17-20 | the groups are non-empty, each key is listed once, the keys are those of the listing, one per module kept |
| RemoveDuplicates.AppendWellFormed | backend/remove_duplicates.py:19-20 | appending keeps the grouping well formed, adds the module's key, and adds a group exactly when the key is new |
| RemoveDuplicates.TailIdsGrow | backend/remove_duplicates.py:25-30 | appending to a group that has a first module adds the new module's id to those deleted |
| RemoveDuplicates.TailIdsNewKey | backend/remove_duplicates.py:25-31 | a new group of one module deletes nothing and counts nothing |
| RemoveDuplicates.TailCountGrow | backend/remove_duplicates.py:25-31 | appending to a group listed once adds one deletion |
| RemoveDuplicates.GroupTails | backend/remove_duplicates.py:17-31 | the loop deletes exactly the modules whose key an earlier module has, and counts one per module beyond the first of its key |
| RemoveDuplicates.WithoutAbsent | backend/remove_duplicates.py:30 | deleting an id no module has changes nothing |
| RemoveDuplicates.WithoutDuplicates | backend/remove_duplicates.py:23-31 | deleting the repeated modules leaves the first module of each key, in order |
| RemoveDuplicates.DuplicateIdsBelong | backend/remove_duplicates.py:28-30 | only ids of listed modules are deleted |
| RemoveDuplicates.WithoutNothing | backend/remove_duplicates.py:23-31 | deleting no id leaves the collection whole |
| RemoveDuplicates.WithoutTwice | backend/remove_duplicates.py:28-30 | deleting two sets of ids in turn is deleting their union |
| RemoveDuplicates.WithoutOne | backend/remove_duplicates.py:30 | with unique ids, deleting one module's id removes that module and nothing else |
| RemoveDuplicates.DeleteOneUnique | backend/remove_duplicates.py:30 | with unique ids, `delete_one` by `_id` removes every module with that id |
| RemoveDuplicates.DeleteModule | backend/remove_duplicates.py:30 | one `delete_one` by `_id` on a collection that is the listing with some ids already deleted leaves the listing with that id deleted too |
| RemoveDuplicates.DeleteOneWithout | backend/remove_duplicates.py:28-30 | `delete_one` on what is left is the same as adding the id to those deleted |
| RemoveDuplicates.WithoutUnique | backend/remove_duplicates.py:28-30 | deleting keeps ids unique |
| RemoveDuplicates.WithoutIdAbsent | backend/remove_duplicates.py:28-30 | an id no module has is not the id of a module left |
| RemoveDuplicates.KeepFirstKeysDistinct | backend/remove_duplicates.py:7-31 | after the script no two modules share a key, and every key of the listing is still present |
| RemoveDuplicates.KeepFirstCount | backend/remove_duplicates.py:7-36 | the final count is the number of distinct keys |
| RemoveDuplicates.UniqueKeyKept | backend/remove_duplicates.py:23-31 | a module whose key no other module has is kept |
| RemoveDuplicates.KeepFirstIdempotent | backend/remove_duplicates.py:7-31 | a second run deletes nothing |
| RemoveDuplicates.NoRepeatsKept | backend/remove_duplicates.py:23-31 | a listing without repeated keys is kept whole |
| RemoveDuplicates.LastKeyNew | backend/remove_duplicates.py:17-20 | without repeated keys, the last module's key is new and the rest has no repeats |
| RemoveDuplicates.KeepFirstSnoc | backend/remove_duplicates.py:23-31 | one more module is kept exactly when its key is new |
| RemoveDuplicates.GroupModules | backend/remove_duplicates.py:17-20 | the grouping loop builds `GroupingOf` the listing: groups in listing order and keys in insertion order |
| RemoveDuplicates.DeleteTail | backend/remove_duplicates.py:27-31 | deleting a group's tail removes exactly its ids and counts one per module beyond the first |
| RemoveDuplicates.RemoveDuplicateModules | backend/remove_duplicates.py:7-31 | the collection becomes the first module of each key in its listing order, and the count returned is the number of modules removed |
| QuizRoutes.Score | backend/src/routes/quiz_routes.py:32-39 | the score never exceeds the number of answers |
| QuizRoutes.ScoredIds | backend/src/routes/quiz_routes.py:37-39 | only questions of the module's map can score |
| QuizRoutes.ScoreAtMostTotal | backend/src/routes/quiz_routes.py:32-39 | when no question is answered twice the score is the number of questions answered correctly, so at most the total |
| QuizRoutes.RepeatedAnswerExceedsTotal | backend/src/routes/quiz_routes.py:33-39 | the same correct answer sent twice scores 2 against a total of 1 |
| QuizRoutes.Grade | backend/src/routes/quiz_routes.py:32-39 | the grading loop returns `Score`: answers with an unknown id or a missing option (-1) never score |
| QuizRoutes.RatioMastered | backend/src/routes/quiz_routes.py:69-71 | the ratio reaches 0.8 exactly when the integer test `5*score >= 4*max(total,1)` holds with a non-zero total |
| QuizRoutes.ModuleMasterEarned | backend/src/routes/quiz_routes.py:65-72 | the `by_module` scan grants Module Master exactly when the history is non-empty and every module in it has an attempt at 80% or better |
| QuizRoutes.ExtendBest | backend/src/routes/quiz_routes.py:67-70 | keeping the best ratio per module keeps "best reaches 80%" equal to "some attempt reaches 80%" |
| QuizRoutes.MasterFromBest | backend/src/routes/quiz_routes.py:71-72 | the final test over the best ratios is the Module Master rule |
| QuizRoutes.BadgesAfter | backend/src/routes/quiz_routes.py:58-72 | badges only grow; Perfect Score is added exactly when total > 0 and score == total, Quick Learner exactly when total > 0, time > 0 and time <= 10 * total, Module Master exactly on the verdict |
| QuizRoutes.CompletedAfter | backend/src/routes/quiz_routes.py:75-81 | the module is appended once at a 70% pass mark; the list is otherwise unchanged and stays free of duplicates |
| QuizRoutes.SubmitQuiz | backend/src/routes/quiz_routes.py:18-99 | a student id `ObjectId` rejects gives 500 and changes nothing; a missing one stores the attempt under a fresh id no user has and then gives 500 with the users unchanged; a well-formed one stores the attempt (score, total, XP 5 * score) first, then gives 500 for an unknown student or updates the user's XP, level, badges and completed modules and replies with the new level, the stored previous level and the badges gained |
| QuizRoutes.RecordAttempt | backend/src/routes/quiz_routes.py:43-99 | for a parsed student id: the attempt is appended first; an unknown student then gives 500 with the users unchanged; otherwise exactly that user becomes AfterQuiz and the reply is built from the old and new user |
| QuizRoutes.UpdateStudent | backend/src/routes/quiz_routes.py:56-99 | the user becomes `AfterQuiz` over the history including the new attempt, and the reply is built from it |
| QuestionService.AddToPieces | backend/src/services/question_service.py:6 | a separator starts a new piece, any other character extends the last; there is always a piece |
| QuestionService.Pieces | backend/src/services/question_service.py:6 | cutting the text at separators gives at least one piece |
| QuestionService.PiecesHaveNoSeparator | backend/src/services/question_service.py:6 | no piece holds a separator character |
| QuestionService.AddToPiecesAppend | backend/src/services/question_service.py:6 | one more character only affects the last piece |
| QuestionService.PiecesAtSeparator | backend/src/services/question_service.py:6 | a separator splits the text into two halves that are cut independently |
| QuestionService.PiecesOfPlainText | backend/src/services/question_service.py:6 | text without separators is one piece |
| QuestionService.NoSeparatorInside | backend/src/services/question_service.py:6-7 | a part of a piece has no separator either |
| QuestionService.StripKeepsNoSeparator | backend/src/services/question_service.py:7 | stripping a piece keeps it free of separators |
| QuestionService.LongPieces | backend/src/services/question_service.py:7 | every piece kept is a sentence: more than 20 characters, stripped, without separators |
| QuestionService.SplitSentences | backend/src/services/question_service.py:5-7 | every sentence returned has more than 20 characters, no separator and no surrounding white space |
| QuestionService.OneSentence | backend/src/services/question_service.py:5-7 | a long text without separators is one sentence, stripped |
| QuestionService.AddToRuns | backend/src/services/question_service.py:11 | after a letter there is always a current run |
| QuestionService.Runs | backend/src/services/question_service.py:11 | text ending in a letter has a run |
| QuestionService.AddToRunsLetters | backend/src/services/question_service.py:11 | one more character keeps every run a non-empty run of letters |
| QuestionService.RunsAreLetters | backend/src/services/question_service.py:11 | every run is a non-empty run of ASCII letters |
| QuestionService.AddToRunsAppend | backend/src/services/question_service.py:11 | one more character only affects the last run |
| QuestionService.RunsAtNonLetter | backend/src/services/question_service.py:11 | a non-letter between two texts separates their runs |
| QuestionService.LongRuns | backend/src/services/question_service.py:11 | the kept runs come from the runs and have four or more letters |
| QuestionService.LongRunsAppend | backend/src/services/question_service.py:11 | filtering two lists of runs is filtering each |
| QuestionService.Words | backend/src/services/question_service.py:11 | every word found is four or more ASCII letters |
| QuestionService.WordsAtNonLetter | backend/src/services/question_service.py:11 | the words of two texts joined by a non-letter are the words of each, in order |
| QuestionService.Dedup | backend/src/services/question_service.py:13-17 | the result has no repeats, is no longer than the input, and holds exactly its values |
| QuestionService.DedupPrefix | backend/src/services/question_service.py:13-17 | each value stands where it first occurred: deduplicating a prefix gives a prefix of the result |
| QuestionService.LowerAll | backend/src/services/question_service.py:15 | every word is lower-cased, position by position |
| QuestionService.LowerKeepsLetters | backend/src/services/question_service.py:15 | lower-casing a word of letters gives a lower-case word of letters of the same length |
| QuestionService.Keywords | backend/src/services/question_service.py:10-18 | `_keywords` returns the first five distinct lower-cased words: at most five, all different, each a lower-case word of four or more letters |
| QuestionService.DedupLower | backend/src/services/question_service.py:13-17 | the loop keeps each lower-cased word the first time it is seen |
| QuestionService.KeywordsShape | backend/src/services/question_service.py:10-18 | the keywords are at most five, all different, each four or more lower-case letters |
| QuestionService.UniqueConcepts | backend/src/services/question_service.py:30-36 | the kept candidates have four or more characters, come from the matches, and no two are equal ignoring case |
| QuestionService.LowerSetSnoc | backend/src/services/question_service.py:33-35 | keeping a concept adds its lower-cased form to `seen` |
| QuestionService.UniqueConceptsStep | backend/src/services/question_service.py:32-36 | one more match is kept exactly when it is long enough and new ignoring case |
| QuestionService.ExtractConcepts | backend/src/services/question_service.py:21-38 | at most 50 concepts, each of four or more characters and taken from the matches, no two equal ignoring case |
| QuestionService.ConceptsShape | backend/src/services/question_service.py:30-38 | the cut at 50 keeps the bounds, the origin and the case-insensitive uniqueness |
| QuestionService.Shuffle | backend/src/services/question_service.py:66-72 | every shuffle is a permutation |
| QuestionService.FirstConcept | backend/src/services/question_service.py:47-50 | the first concept whose lower-cased form occurs in the lower-cased sentence, or none when no concept occurs |
| QuestionService.ChosenAnswer | backend/src/services/question_service.py:44-57 | an answer chosen is never empty: a concept found, or else one of the keywords |
| QuestionService.DistractorPool | backend/src/services/question_service.py:65 | the distractors are exactly the words, each once, that differ from the answer ignoring case and have four or more characters |
| QuestionService.Candidates | backend/src/services/question_service.py:65 | the candidates are exactly the words that differ from the answer ignoring case and have four or more characters |
| QuestionService.IndexOf | backend/src/services/question_service.py:73 | the position of the first occurrence |
| QuestionService.Excerpt | backend/src/services/question_service.py:76 | the sentence as it is up to 150 characters; otherwise its first 150 characters and "..." |
| QuestionService.OptionsDistinct | backend/src/services/question_service.py:71 | the answer followed by up to three distractors are all different, and no distractor equals the answer ignoring case |
| QuestionService.ShuffledOptions | backend/src/services/question_service.py:68-72 | the shuffled options are two to four different strings, among them the answer and nothing else equal to it ignoring case |
| QuestionService.QuestionAbout | backend/src/services/question_service.py:65-84 | no question exactly when the text has no distractor for the answer |
| QuestionService.QuestionAboutWellFormed | backend/src/services/question_service.py:65-84 | a question has two to four different options, its correct index points at the answer, no other option equals the answer ignoring case, and the text and difficulty are as built |
| QuestionService.OptionsMakeQuestion | backend/src/services/question_service.py:71-73 | `options.index(answer)` gives a well-formed question whose correct option is the answer |
| QuestionService.QuestionFor | backend/src/services/question_service.py:41-84 | no question exactly when there is no answer or no distractor |
| QuestionService.QuestionForWellFormed | backend/src/services/question_service.py:41-84 | a question made is well formed, of medium difficulty, and its correct option is the chosen answer |
| QuestionService.DistractorsOk | backend/src/services/question_service.py:65-66 | the shuffled distractors are different from each other and from the answer, ignoring case |
| QuestionService.FindConcept | backend/src/services/question_service.py:47-50 | the concept loop finds `FirstConcept` |
| QuestionService.FirstConceptAt | backend/src/services/question_service.py:47-50 | the first occurring concept is the one the loop breaks at |
| QuestionService.FirstConceptNone | backend/src/services/question_service.py:47-52 | with no concept occurring, none is found |
| QuestionService.CreateQuestionFromSentence | backend/src/services/question_service.py:41-84 | `_create_question_from_sentence` returns `QuestionFor` the same sentence, concepts, words and draws |
| QuestionService.Outcomes | backend/src/services/question_service.py:96-106 | one outcome per sentence, in sentence order |
| QuestionService.OutcomesUsable | backend/src/services/question_service.py:104-106 | every question a sentence yields is well formed and of medium difficulty |
| QuestionService.Collected | backend/src/services/question_service.py:104-106 | the questions kept from the first `n` outcomes are at most `n` |
| QuestionService.CollectedPrefix | backend/src/services/question_service.py:96-106 | trying more sentences only appends questions: an earlier list is a prefix of a later one |
| QuestionService.CollectedUsable | backend/src/services/question_service.py:104-106 | collecting from usable outcomes keeps only usable questions |
| QuestionService.StopFrom | backend/src/services/question_service.py:96-102 | the loop stops between the sentences tried so far and the last sentence |
| QuestionService.StopFromStops | backend/src/services/question_service.py:96-102 | the loop stops where it cannot go on (no sentence left, `max_questions` reached, or a try beyond three per question) and went on at every earlier sentence |
| QuestionService.StopFromHere | backend/src/services/question_service.py:97-102 | where the loop cannot go on, it stops |
| QuestionService.StopFromNext | backend/src/services/question_service.py:96-102 | where the loop goes on, it stops where it would stop from the next sentence |
| QuestionService.StopFromBounds | backend/src/services/question_service.py:97-102 | for any outcomes, at most `max_questions` questions come back, from at most three sentences per question |
| QuestionService.CollectQuestions | backend/src/services/question_service.py:93-108 | the loop tries sentences exactly up to StopFrom, where it stops, and returns the questions those sentences yield, in order |
| QuestionService.McqsOutcomes | backend/src/services/question_service.py:89-91 | one outcome per sentence of the text, made from the first 50 unique concepts and the distinct words |
| QuestionService.Mcqs | backend/src/services/question_service.py:87-108 | the questions of the sentences tried before the loop stops; never more than the text has sentences |
| QuestionService.McqsAtMost | backend/src/services/question_service.py:97-102 | at most `max_questions` questions, from at most `3 * max_questions` sentences |
| QuestionService.McqsUsable | backend/src/services/question_service.py:104-106 | every question returned is well formed and of medium difficulty |
| QuestionService.CollectedAllSome | backend/src/services/question_service.py:104-106 | when every sentence yields a question, all of them are kept |
| QuestionService.StopAtCap | backend/src/services/question_service.py:97-98 | when every sentence yields a question and there are enough sentences, the loop stops at exactly `max_questions` |
| QuestionService.GenerateMcqs | backend/src/services/question_service.py:87-108 | the result is exactly Mcqs of the text, the cap and the draws: at most `max_questions` questions, each well formed and of medium difficulty |
| ContestRoutes.Trunc | backend/src/routes/contest_routes.py:130 | `int()` on a float truncates toward zero: within one of the value, never past it away from zero |
| ContestRoutes.TallyOf | backend/src/routes/contest_routes.py:95-113 | one graded record per answer to a question of the map, at most one per answer, marked correct exactly when the option is the question's correct one |
| ContestRoutes.TallyCounts | backend/src/routes/contest_routes.py:89-113 | the counters count the records that are correct, and those answered (option not -1) but wrong |
| ContestRoutes.CountsSnoc | backend/src/routes/contest_routes.py:102-107 | one more record adds one to the correct count or to the wrong count, as its flags say |
| ContestRoutes.MulSucc | backend/src/routes/contest_routes.py:103 | one more correct answer adds the marks once more |
| ContestRoutes.TimesIsProduct | backend/src/routes/contest_routes.py:103-106 | adding a value `n` times gives `n` times the value |
| ContestRoutes.TallyScore | backend/src/routes/contest_routes.py:89-113 | the running score is the marks times the correct count less the penalty times the answered-but-wrong count |
| ContestRoutes.UnknownAnswerIgnored | backend/src/routes/contest_routes.py:99-100 | an answer to a question outside the contest's modules changes nothing |
| ContestRoutes.KnownAnswerRecorded | backend/src/routes/contest_routes.py:100-113 | an answer to a known question adds exactly one record, at the end, with its correctness |
| ContestRoutes.ScoreAnswers | backend/src/routes/contest_routes.py:89-115 | the loop's score is the tally's score floored at zero, and its records are the tally's |
| ContestRoutes.FindEntry | backend/src/routes/contest_routes.py:53-56 | the first entry of the student in the contest, or none exactly when the student has no entry there |
| ContestRoutes.FindEntrySame | backend/src/routes/contest_routes.py:118-121 | rewriting fields other than contest and student does not change which entry is found |
| ContestRoutes.FindEntryAppended | backend/src/routes/contest_routes.py:53-60 | an entry inserted by an upsert is the one found afterwards |
| ContestRoutes.Joined | backend/src/routes/contest_routes.py:53-60 | an existing entry is left as it is; otherwise an entry with score 0, time 0 and no rank is inserted; either way the student then has an entry |
| ContestRoutes.JoinIdempotent | backend/src/routes/contest_routes.py:53-60 | joining twice is joining once |
| ContestRoutes.Submitted | backend/src/routes/contest_routes.py:118-126 | the existing entry gets the score, records, time and submitted flag and keeps everything else; otherwise a new entry has them and no time taken or rank |
| ContestRoutes.SubmittedEntry | backend/src/routes/contest_routes.py:118-126 | after a submission the student's entry holds what was submitted, and its time taken is whatever it was before |
| ContestRoutes.ResubmissionOverwrites | backend/src/routes/contest_routes.py:118-126 | a second submission replaces the first |
| ContestRoutes.ContestPositions | backend/src/routes/contest_routes.py:129 | the positions are exactly those of the contest's entries, in stored order |
| ContestRoutes.RankKeys | backend/src/routes/contest_routes.py:130 | the sort key is the negated truncated score |
| ContestRoutes.RankOrder | backend/src/routes/contest_routes.py:129-130 | the sorted positions are valid, one per entry of the contest |
| ContestRoutes.ApplyRanks | backend/src/routes/contest_routes.py:131-132 | writing ranks changes only ranks |
| ContestRoutes.RanksAssigned | backend/src/routes/contest_routes.py:131-132 | the entry at sorted place `p` gets rank `p + 1`; unlisted entries are unchanged |
| ContestRoutes.ContestPositionsDistinct | backend/src/routes/contest_routes.py:129 | each entry is listed once |
| ContestRoutes.RankOrderIsContest | backend/src/routes/contest_routes.py:129-130 | the sorted positions are exactly the contest's entries, once each |
| ContestRoutes.RankContest | backend/src/routes/contest_routes.py:129-132 | only ranks change, only in the contest, and each of its entries gets a rank from 1 to its number of entries |
| ContestRoutes.RankContestOrdered | backend/src/routes/contest_routes.py:130-132 | a higher truncated score, or an equal one stored earlier (the sort is stable), gets the smaller rank |
| ContestRoutes.AwardWinner | backend/src/routes/contest_routes.py:137 | the user with the id gains the Contest Winner badge and nothing else changes; an unknown id changes nothing |
| ContestRoutes.AwardWinnerIdempotent | backend/src/routes/contest_routes.py:137 | awarding the badge again changes nothing |
| ContestRoutes.JoinContest | backend/src/routes/contest_routes.py:45-61 | a missing or empty student id gives 400 and one `ObjectId` rejects gives 500, both changing nothing; otherwise the leaderboard becomes `Joined` and the reply is "joined" |
| ContestRoutes.WriteRanks | backend/src/routes/contest_routes.py:131-132 | the rank loop gives `ApplyRanks` |
| ContestRoutes.RanksKeepIds | backend/src/routes/contest_routes.py:131-132 | rewriting ranks keeps every entry's id |
| ContestRoutes.RecomputeRanks | backend/src/routes/contest_routes.py:129-132 | the leaderboard becomes `RankContest` of the old one |
| ContestRoutes.UpsertSubmission | backend/src/routes/contest_routes.py:118-126 | the leaderboard becomes `Submitted` of the old one |
| ContestRoutes.AwardWinnerTo | backend/src/routes/contest_routes.py:135-137 | the users become `AwardWinner` of the old ones |
| ContestRoutes.RecordSubmission | backend/src/routes/contest_routes.py:118-137 | the upsert, then the ranks, then the badge for the student of the first sorted entry, when there is one |
| ContestRoutes.SubmitContest | backend/src/routes/contest_routes.py:64-139 | a missing or empty student id gives 400, then an unknown contest 404, then a student id `ObjectId` rejects 500, all changing nothing; otherwise the floored score is returned, and stored with the records, ranks are recomputed and the winner badged |
| ContestRoutes.AnswerIds | backend/src/routes/contest_routes.py:165 | the ids of the stored answers, in order |
| ContestRoutes.ReviewOne | backend/src/routes/contest_routes.py:168-172 | an answer looked up among the questions it names gets the correct option of a question with its id, and none when there is no such question |
| ContestRoutes.ReviewAnswers | backend/src/routes/contest_routes.py:164-172 | one reviewed answer per stored answer, each with its stored grading and the correct option of its question when it exists |
| ContestRoutes.ContestResultOf | backend/src/routes/contest_routes.py:142-174 | "not attempted" exactly when the student has no entry; otherwise the entry's score and rank, its answers as stored when only joined, and reviewed when submitted |
| ContestRoutes.BoardKeys | backend/src/routes/contest_routes.py:186 | the key is (negated truncated score, time taken with 0 when absent) |
| ContestRoutes.BoardPositions | backend/src/routes/contest_routes.py:181-186 | the contest's stored positions, each once, sorted by (-int(score), timeTaken or 0), with entries whose keys tie kept in stored order as the stable sort keeps them |
| ContestRoutes.Leaderboard | backend/src/routes/contest_routes.py:177-187 | the contest's entries, rearranged, with no entry listed above one it ranks below (higher score first, then less time), and exactly the entries at BoardPositions in that order |
| ContestRoutes.RanksBelowPrecedes | backend/src/routes/contest_routes.py:186 | an entry that ranks below another has the later key |
| ContestRoutes.BoardOrder | backend/src/routes/contest_routes.py:186 | sorting by key lists no entry above one it ranks below |
| ContestRoutes.FilterSnoc | backend/src/routes/contest_routes.py:181 | one more entry joins the contest's entries exactly when it belongs to the contest |
| ContestRoutes.ContestEntries | backend/src/routes/contest_routes.py:129 | the entries at the contest's positions are the contest's entries, in order |
| Ranking.Insert | backend/src/routes/contest_routes.py:130 | inserting a position keeps the positions valid and adds it once |
| Ranking.OrderedCons | backend/src/routes/contest_routes.py:130 | a position that precedes the first of a sorted list can lead it |
| Ranking.OrderedConsAll | backend/src/routes/contest_routes.py:130 | a position that precedes all of a sorted list can lead it |
| Ranking.InsertOrdered | backend/src/routes/contest_routes.py:130 | insertion keeps the list sorted by (key, stored position) |
| Ranking.SortPositions | backend/src/routes/contest_routes.py:130 | the sort returns a rearrangement of the positions given |
| Ranking.SortOrdered | backend/src/routes/contest_routes.py:130 | the result is sorted by key, ties in stored order, as Python's stable sort leaves them |
| Ranking.SortOrderedIsIdentity | backend/src/routes/contest_routes.py:130 | sorting an already sorted list leaves it as it is |
| Ranking.SelectInsert | backend/src/routes/contest_routes.py:130 | selecting after an insertion is inserting the selected element |
| Ranking.SelectSort | backend/src/routes/contest_routes.py:130 | the sorted entries are a permutation of the entries |
| Ranking.SortDistinct | backend/src/routes/contest_routes.py:130 | sorting distinct positions keeps them distinct |
| AdminRoutes.CountRole | backend/src/routes/admin_routes.py:21-22 | the users with a role are at most all users, and none exactly when no user has that role |
| AdminRoutes.RoleCountsWithinTotal | backend/src/routes/admin_routes.py:14-22 | the admin and student counts together never exceed the user count |
| AdminRoutes.AdminStats | backend/src/routes/admin_routes.py:9-32 | each total is the size of its collection, and the role counts add up to at most the user total |
| AdminRoutes.NewModuleOf | backend/src/routes/admin_routes.py:39-58 | an error exactly when the course id is missing or malformed, or the number or title is missing or falsy; a malformed id gives "Invalid Course ID format", the rest "Missing fields"; otherwise the module has the body's fields, an empty context and no links by default |
| AdminRoutes.CreateModule | backend/src/routes/admin_routes.py:35-60 | an invalid body changes nothing and returns its error; a valid one appends exactly the new module |
| AdminRoutes.ModuleSetOf | backend/src/routes/admin_routes.py:69-79 | the `$set` holds exactly the body's keys; a malformed course id fails the request |
| AdminRoutes.ModulePatchFields | backend/src/routes/admin_routes.py:84-87 | `$set` overwrites the fields sent, keeps the others and the id, and applying it again changes nothing |
| AdminRoutes.UpdateModule | backend/src/routes/admin_routes.py:63-92 | an empty update is refused unchanged; otherwise the module with the id is patched, 404 when none matches, and the modified count is returned |
| AdminRoutes.ModuleUpdateKeepsIds | backend/src/routes/admin_routes.py:84-87 | an update that keeps every id keeps ids below the id counter |
| AdminRoutes.UpdateModuleTwice | backend/src/routes/admin_routes.py:84-92 | repeating an update matches the same modules and modifies none |
| AdminRoutes.DeleteModule | backend/src/routes/admin_routes.py:95-109 | 404 and no change when no module has the id; otherwise that module is removed and so are all its questions |
| AdminRoutes.CascadeRemovesModuleQuestions | backend/src/routes/admin_routes.py:107 | the questions kept and those removed partition the collection, and none kept belongs to the module |
| AdminRoutes.NewQuestionOf | backend/src/routes/admin_routes.py:116-131 | "Missing fields" exactly when the module, text or options is missing or falsy, or the answer is absent (an answer of 0 is accepted); otherwise a malformed module id is a 500, and a well-formed body gives a manual question with the body's fields and "easy" difficulty by default |
| AdminRoutes.CreateQuestion | backend/src/routes/admin_routes.py:112-133 | an invalid body changes nothing; a valid one appends exactly the new question |
| AdminRoutes.QuestionPatchFields | backend/src/routes/admin_routes.py:155-171 | the patch overwrites the fields sent, keeps the id, owner and origin, and is idempotent |
| AdminRoutes.UpdateQuestion | backend/src/routes/admin_routes.py:149-176 | an empty update is refused unchanged; otherwise the question is patched, 404 when none matches |
| AdminRoutes.QuestionUpdateKeepsIds | backend/src/routes/admin_routes.py:168-171 | an update that keeps every id keeps ids below the id counter |
| AdminRoutes.DeleteQuestion | backend/src/routes/admin_routes.py:179-189 | 404 and no change when no question has the id; otherwise exactly that question is removed |
| AdminRoutes.ParseIds | backend/src/routes/admin_routes.py:281 | the list fails exactly when one of its ids is malformed, and otherwise keeps every id in order |
| AdminRoutes.NewContestOf | backend/src/routes/admin_routes.py:278-301 | module ids are parsed before the title is checked, with their two errors; otherwise the contest has the body's fields with the defaults 30 minutes, 1 mark, no penalty and "time" tie-break |
| AdminRoutes.CustomRecords | backend/src/routes/admin_routes.py:306-317 | one stored question per custom question |
| AdminRoutes.CustomRecord | backend/src/routes/admin_routes.py:309-316 | a custom question belongs to the contest, has origin `custom_contest`, the written text, options and answer, and "medium" difficulty |
| AdminRoutes.CustomRecordsSnoc | backend/src/routes/admin_routes.py:308-317 | one more custom question adds its record at the end with the next id |
| AdminRoutes.InsertCustomQuestion | backend/src/routes/admin_routes.py:309-317 | one custom question is appended with the next id |
| AdminRoutes.InsertCustomQuestions | backend/src/routes/admin_routes.py:306-317 | the custom questions are appended in order, one id each |
| AdminRoutes.CreateContest | backend/src/routes/admin_routes.py:274-319 | an invalid body changes nothing; otherwise the contest is appended under the next id and its custom questions after it |
| AdminRoutes.ContestSetOf | backend/src/routes/admin_routes.py:328-344 | the `$set` holds exactly the body's keys; a malformed module id fails the request |
| AdminRoutes.ContestPatchFields | backend/src/routes/admin_routes.py:349-352 | the patch overwrites the fields sent, keeps the others and the id, and is idempotent |
| AdminRoutes.UpdateContest | backend/src/routes/admin_routes.py:322-357 | an empty update is refused unchanged; otherwise the contest is patched, 404 when none matches |
| AdminRoutes.ContestUpdateKeepsIds | backend/src/routes/admin_routes.py:349-352 | an update that keeps every id keeps ids below the id counter |
| AdminRoutes.DeleteContest | backend/src/routes/admin_routes.py:360-374 | 404 and no change when no contest has the id; otherwise the contest and its leaderboard entries are removed, and its questions are kept |
| AdminRoutes.ContestDeletionKeepsOthers | backend/src/routes/admin_routes.py:372 | removing one contest's entries leaves every other contest's entries as they were |
| AdminRoutes.UploadPdf | backend/src/routes/admin_routes.py:192-201 | 400 exactly when no file is sent; otherwise the first 1000 characters and exactly the questions `generate_mcqs_from_text` makes with a cap of 10: at most 10, all well formed |
| AdminRoutes.MaxModuleNo | backend/src/routes/admin_routes.py:231 | none exactly when the course has no module; otherwise a module number of the course that no other of its modules exceeds |
| AdminRoutes.NextModuleNo | backend/src/routes/admin_routes.py:231-232 | above every module number of the course: 1 for a course without modules, otherwise one more than an existing number |
| AdminRoutes.PdfFormError | backend/src/routes/admin_routes.py:209-231 | the form passes exactly when a file, a well-formed course id and at least 100 characters of text are present; a missing file, a missing course id and short text fail in that order with their 400 messages, and only after those a malformed course id is a 500 with no message |
| AdminRoutes.PdfRecords | backend/src/routes/admin_routes.py:250-261 | one stored question per generated question |
| AdminRoutes.PdfRecord | backend/src/routes/admin_routes.py:252-259 | a generated question is stored under the module, marked as generated from a PDF, with its text, options, answer and difficulty |
| AdminRoutes.PdfRecordsSnoc | backend/src/routes/admin_routes.py:251-261 | one more generated question adds its record at the end with the next id |
| AdminRoutes.PdfRecordsShape | backend/src/routes/admin_routes.py:250-261 | every appended record belongs to the module, comes from a PDF, is of medium difficulty and has two to four distinct options with the answer among them |
| AdminRoutes.UsableRecords | backend/src/routes/admin_routes.py:250-261 | the records of well-formed medium questions are well-formed medium questions of the module, from a PDF |
| AdminRoutes.McqsRecordsShape | backend/src/routes/admin_routes.py:246-261 | every record stored for the questions generated from a text is a well-formed medium question of the module, from a PDF |
| AdminRoutes.PdfModule | backend/src/routes/admin_routes.py:235-242 | the module has the next number, the title, the text's first 2000 characters as context, no links and the generated flag |
| AdminRoutes.InsertPdfQuestion | backend/src/routes/admin_routes.py:252-260 | one generated question is appended with the next id |
| AdminRoutes.InsertPdfQuestions | backend/src/routes/admin_routes.py:250-261 | the generated questions are appended in order and the earlier questions are kept |
| AdminRoutes.InsertPdfModule | backend/src/routes/admin_routes.py:230-244 | the module is appended under the next id with the course's next number |
| AdminRoutes.GenerateQuestionsFor | backend/src/routes/admin_routes.py:246-261 | the questions appended are exactly the records of the generator's output, in its order and under fresh ids; their number is returned and is at most the requested one; all are well formed and of the new module |
| AdminRoutes.CreateGeneratedModule | backend/src/routes/admin_routes.py:230-261 | the module is appended first under the next id, then exactly the records of the generator's output under it, numbered from the id after; the reply reports the module and the number of questions |
| AdminRoutes.GenerateModuleFromPdf | backend/src/routes/admin_routes.py:204-271 | a bad form returns its error and changes nothing; otherwise the module and exactly the generated questions are stored, and the reply gives the id, number, title, `questionsCreated` as the number of generated questions, and the text length |
| AdminDashboard.AddToLines | frontend/src/pages/AdminDashboard.jsx:113-143 | reading one more character keeps at least one line |
| AdminDashboard.SplitLines | frontend/src/pages/AdminDashboard.jsx:113-143 | `split('\n')` always gives at least one line |
| AdminDashboard.LinesHaveNoNewline | frontend/src/pages/AdminDashboard.jsx:113-143 | no line of a split holds a newline |
| AdminDashboard.JoinNewLine | frontend/src/pages/AdminDashboard.jsx:136 | joining with one more empty line adds one newline |
| AdminDashboard.JoinUnfold | frontend/src/pages/AdminDashboard.jsx:136 | the join of two or more lines is the join of all but the last, a newline, then the last |
| AdminDashboard.AppendChar | frontend/src/pages/AdminDashboard.jsx:136 | appending a character after the last newline appends it to the whole text |
| AdminDashboard.JoinExtendLast | frontend/src/pages/AdminDashboard.jsx:136 | lengthening the last line lengthens the joined text the same way |
| AdminDashboard.JoinAddToLines | frontend/src/pages/AdminDashboard.jsx:113-136 | splitting one more character and joining again appends that character |
| AdminDashboard.JoinSplit | frontend/src/pages/AdminDashboard.jsx:113-136 | `split('\n')` then `join('\n')` gives back the text |
| AdminDashboard.AddToLinesAppend | frontend/src/pages/AdminDashboard.jsx:113-143 | splitting works on the last line only: earlier lines are untouched |
| AdminDashboard.SplitAtNewline | frontend/src/pages/AdminDashboard.jsx:113-143 | a text cut at a newline splits into the lines of each side |
| AdminDashboard.SplitPlainLine | frontend/src/pages/AdminDashboard.jsx:113-143 | a text without newline is one line |
| AdminDashboard.SplitJoin | frontend/src/pages/AdminDashboard.jsx:113-136 | `join('\n')` then `split('\n')` gives back lines that hold no newline |
| AdminDashboard.KeepNonBlank | frontend/src/pages/AdminDashboard.jsx:113-143 | the filter keeps at most the lines it is given |
| AdminDashboard.KeptLines | frontend/src/pages/AdminDashboard.jsx:113-143 | every kept line is a non-blank line of the input, kept untrimmed |
| AdminDashboard.AllLinesKept | frontend/src/pages/AdminDashboard.jsx:113-143 | lines that are all non-blank are all kept, in order |
| AdminDashboard.ParseLinks | frontend/src/pages/AdminDashboard.jsx:113-143 | each parsed link is a non-blank line of the box, without newline |
| AdminDashboard.LinksRoundTrip | frontend/src/pages/AdminDashboard.jsx:113-143 | showing a module's links and sending the box back unchanged gives the same links when none is blank or holds a newline |
| AdminDashboard.LinksReformatted | frontend/src/pages/AdminDashboard.jsx:113-136 | a box without blank lines survives parsing and showing again |
| AdminDashboard.ErrorText | frontend/src/pages/AdminDashboard.jsx:213-219 | `a \|\| b` on strings: the server's message when it has one, else the fallback |
| AdminDashboard.OrDefault | frontend/src/pages/AdminDashboard.jsx:243-244 | `x \|\| d` on numbers: `x` unless it is 0, then `d` |
| AdminDashboard.ContestFormOf | frontend/src/pages/AdminDashboard.jsx:236-246 | the edit form copies the contest, with 30 minutes and 1 mark in place of zero, empty times in place of missing ones |
| AdminDashboard.ModulePayload | frontend/src/pages/AdminDashboard.jsx:111-150 | the module body sends the form's course and number and the parsed links of the box |
| AdminDashboard.CreatedQuestion | frontend/src/pages/AdminDashboard.jsx:170-178 | a question sent from the form is stored with its four options in form order, answer and difficulty; it fails only without module, without text, or with a malformed module id |
| AdminDashboard.EditedModuleSavedUnchanged | frontend/src/pages/AdminDashboard.jsx:129-150 | opening a module for editing and saving without changes sends update_module a non-empty patch that writes the module's own fields back over whatever is stored under that id, links included, when no link is blank or holds a newline |
| AdminDashboard.SentForm | frontend/src/pages/AdminDashboard.jsx:200-211 | the form sent carries the file, course, title and count, and never fails the server's first two checks |
| AdminDashboard.Dashboard.constructor | frontend/src/pages/AdminDashboard.jsx:15-65 | the dashboard starts with no dialog, empty forms with their defaults, and a closed snackbar |
| AdminDashboard.Dashboard.CloseDialog | frontend/src/pages/AdminDashboard.jsx:94-105 | closing resets every form, the editing targets, the PDF state and the dialog, and keeps the snackbar |
| AdminDashboard.Dashboard.EditModule | frontend/src/pages/AdminDashboard.jsx:129-139 | the module becomes the editing target, its form is filled from it, and the edit dialog opens |
| AdminDashboard.Dashboard.EditContest | frontend/src/pages/AdminDashboard.jsx:236-248 | the contest becomes the editing target, its form is filled from it, and the edit dialog opens |
| AdminDashboard.Dashboard.UploadPdf | frontend/src/pages/AdminDashboard.jsx:187-198 | nothing is sent without a file; a success stores the reply and shows success; a failure shows the server's error or the fallback |
| AdminDashboard.Dashboard.GenerateFromPdf | frontend/src/pages/AdminDashboard.jsx:200-222 | without file, course or title only the warning is shown; otherwise the form is sent, a success closes the dialog with the server's message, a failure keeps the dialog and shows the error, and the busy flag ends cleared |
| ContestQuizPage.CorrectCountOf | frontend/src/pages/ContestQuizPage.jsx:60-65 | the correct answers are at most the questions |
| ContestQuizPage.CorrectCountExtremes | frontend/src/pages/ContestQuizPage.jsx:60-65 | the count is the number of questions exactly when every answer is right, and zero exactly when none is |
| ContestQuizPage.NoAnswersNoScore | frontend/src/pages/ContestQuizPage.jsx:60-65 | with no answers chosen nothing is correct |
| ContestQuizPage.CountCorrect | frontend/src/pages/ContestQuizPage.jsx:60-65 | the `forEach` loop counts exactly the questions whose chosen option is the correct one |
| ContestQuizPage.ElapsedSeconds | frontend/src/pages/ContestQuizPage.jsx:57 | `Math.floor((now - start) / 1000)`: the whole seconds elapsed, rounded down also before the start |
| ContestQuizPage.MarksOr | frontend/src/pages/ContestQuizPage.jsx:69 | `marksPerQuestion \|\| 1`: the contest's marks, or 1 when they are 0 |
| ContestQuizPage.HandleSubmit | frontend/src/pages/ContestQuizPage.jsx:54-81 | the payload carries the student, correct count times marks, elapsed seconds, penalty and question count; the shown result is the correct count out of the total, between 0 and the total |
| ContestQuizPage.ServerView | frontend/src/pages/ContestQuizPage.jsx:67-73 | what the server reads from the client's payload: the signed-in user's id, which parses, and no answers |
| ContestQuizPage.ClientSubmissionScoresZero | backend/src/routes/contest_routes.py:70-115 | a submission as the page sends it is graded on no answers: score 0, nothing correct, no records |
| ContestQuizPage.ClientSubmissionStored | backend/src/routes/contest_routes.py:118-126 | after such a submission the student's entry holds score 0 and no answers, and the page's time taken is never stored |
| ContestQuizPage.AnswerList | frontend/src/pages/ContestQuizPage.jsx:61-65 | one answer per question, in order, with the chosen option or -1 when none was chosen |
| ContestQuizPage.CorrectedSubmission | frontend/src/pages/ContestQuizPage.jsx:67-73 | the corrected payload carries the student and the answer list |
| ContestQuizPage.CorrectedSubmissionAgrees | backend/src/routes/contest_routes.py:95-113 | when the server's questions agree with the page's, the server's correct count equals the page's |
| ContestQuizPage.TallyCorrectSnoc | backend/src/routes/contest_routes.py:100-107 | one more answer to a known question adds one to the correct count exactly when its option is the correct one |
| ContestQuizPage.CorrectedSubmissionScore | backend/src/routes/contest_routes.py:89-113 | without negative marking the server's score is the page's correct count times the marks |
| ContestQuizPage.TallyWithoutPenalty | backend/src/routes/contest_routes.py:103-107 | with no penalty the score is the correct count times the marks |
| ContestQuizPage.ScoreWithoutPenalty | backend/src/routes/contest_routes.py:103-106 | marks times correct less zero times wrong is the product in integers |
| ContestQuizPage.Step | frontend/src/pages/ContestQuizPage.jsx:37-44 | one firing of the timer: 0 from 1 or less, otherwise one less |
| ContestQuizPage.CountdownReachesZero | frontend/src/pages/ContestQuizPage.jsx:33-48 | from `t` seconds the timer reads `t - n` after `n < t` firings and reaches 0 at firing `t` |
| ContestQuizPage.ContestQuiz.constructor | frontend/src/pages/ContestQuizPage.jsx:15-21 | the page starts with no answers, no timer and no automatic submission |
| ContestQuizPage.ContestQuiz.Load | frontend/src/pages/ContestQuizPage.jsx:24-31 | the timer starts at the contest's minutes times 60 |
| ContestQuizPage.ContestQuiz.HandleChange | frontend/src/pages/ContestQuizPage.jsx:50-52 | the chosen option is recorded for that question and every other answer is kept |
| ContestQuizPage.ContestQuiz.Tick | frontend/src/pages/ContestQuizPage.jsx:33-48 | a stopped timer does nothing; a running one steps, and submits once when it was at 1 or less |
| ContestQuizPage.JsRem | frontend/src/pages/ContestQuizPage.jsx:87 | JavaScript's `%`: the Euclidean remainder for non-negative numbers, and always smaller than the divisor in size |
| ContestQuizPage.PadStart2 | frontend/src/pages/ContestQuizPage.jsx:88 | `padStart(2, '0')`: a text of two or more is kept; a shorter one gets leading zeros up to two characters |
| ContestQuizPage.SecondsField | frontend/src/pages/ContestQuizPage.jsx:88 | the seconds field of a number below 60 is two digits that read back as the number |
| ContestQuizPage.ReadTimeOf | frontend/src/pages/ContestQuizPage.jsx:88 | a minutes field, a colon and a two-digit seconds field read back as minutes times 60 plus seconds |
| ContestQuizPage.ReadTimeParts | frontend/src/pages/ContestQuizPage.jsx:88 | a text cut into those fields reads back the same way |
| ContestQuizPage.FormatTimeOfNat | frontend/src/pages/ContestQuizPage.jsx:85-89 | for non-negative seconds the shown time is the minutes, a colon and the padded seconds |
| ContestQuizPage.FormatTimeRoundTrip | frontend/src/pages/ContestQuizPage.jsx:85-89 | the shown time of non-negative seconds reads back as those seconds, with a seconds field below 60 |
| ModulePage.MarkerLen | frontend/src/pages/ModulePage.jsx:15-29 | a marker found at a position has at least two characters, fits in the text and does not start with a line terminator |
| ModulePage.LineEnd | frontend/src/pages/ModulePage.jsx:15-29 | `.` stops at the first line terminator: the end of the first line |
| ModulePage.LastMarker | frontend/src/pages/ModulePage.jsx:15-29 | the greedy `^.*` settles on the last position before the bound where a marker matches, or none when there is none |
| ModulePage.GroupStart | frontend/src/pages/ModulePage.jsx:15 | the captured id starts after the marker and the optional `?`, `v` and `=` |
| ModulePage.RunEnd | frontend/src/pages/ModulePage.jsx:15-29 | `[^#&?]*` runs to the first `#`, `&` or `?`, or to the end |
| ModulePage.MatchOf | frontend/src/pages/ModulePage.jsx:15-30 | no match exactly when no marker lies on the first line; otherwise the last such marker, with its group running from the group start to the first stop character |
| ModulePage.ExtractYouTubeId | frontend/src/pages/ModulePage.jsx:11-36 | null or empty gives null; an 11-character group of the first expression wins; otherwise the first non-empty group of the short-link or embed expression; null exactly when none of these applies; the id is a stretch of the URL without `#`, `&` or `?` |
| ModulePage.GroupInside | frontend/src/pages/ModulePage.jsx:15-29 | a captured group is a stretch of the text without stop characters |
| ModulePage.FallbackTakesLastMarker | frontend/src/pages/ModulePage.jsx:22-33 | a non-empty fallback id follows the last `youtu.be/` or `/embed/` of the first line |
| ModulePage.LastMarkerAt | frontend/src/pages/ModulePage.jsx:15 | a marker with no later one before the bound is the one the greedy prefix settles on |
| ModulePage.NoGeneralMarker | frontend/src/pages/ModulePage.jsx:15 | a tail without `/`, and without `?` after its first five characters, holds no marker of the first expression |
| ModulePage.WatchLinkId | frontend/src/pages/ModulePage.jsx:14-19 | a `watch?v=` link with an 11-character id gives that id |
| ModulePage.WatchMatch | frontend/src/pages/ModulePage.jsx:15-16 | the first expression on a `watch?v=` link captures exactly the id |
| ModulePage.WatchLineEnd | frontend/src/pages/ModulePage.jsx:15 | a `watch?v=` link without line terminators is one line |
| ModulePage.NoLaterMarker | frontend/src/pages/ModulePage.jsx:15 | no marker starts inside `watch?v=` and an id without `/` or stop characters |
| ModulePage.WatchMarker | frontend/src/pages/ModulePage.jsx:15 | at `watch?v=` the `watch?` alternative matches and the id starts after `v=` |
| App.ProtectedRoute | frontend/src/App.jsx:30-47 | loading shows the loading screen; signed out goes to `/login`; the page shows exactly when signed in and, for admin routes, an admin; the only other redirect is to `/` on admin routes |
| App.PublicRoute | frontend/src/App.jsx:49-65 | loading shows the loading screen; the page shows exactly when signed out; a signed-in user goes to `/` |
| App.RouteAt | frontend/src/App.jsx:75-86 | the route with a path is in the table under that path; none exactly when no route has it |
| App.RouteTableShape | frontend/src/App.jsx:76-85 | only `/admin` is admin-only, only `/login` and `/register` are public, and no path appears twice |
| App.LoadingEverywhere | frontend/src/App.jsx:33-61 | while the session loads every route shows the loading screen |
| App.DashboardOnlyForAdmins | frontend/src/App.jsx:45-85 | the dashboard shows exactly on `/admin` for a signed-in admin once loading is over |
| App.RedirectSettles | frontend/src/App.jsx:44-78 | every redirect leads to a route of the table that shows a page at once: home for a signed-in user, login otherwise |
| AuthContext.Initial | frontend/src/context/AuthContext.jsx:7-11 | signed out, no role, user or id, loading, with the stored token |
| AuthContext.Startup | frontend/src/context/AuthContext.jsx:13-27 | loading ends; no token changes nothing else; a token that does not decode is removed; one that decodes signs in with its uid, role, name and email |
| AuthContext.LoggedIn | frontend/src/context/AuthContext.jsx:29-36 | the token is stored first; a token that decodes signs in with its uid and the role given by the server |
| AuthContext.LoggedOut | frontend/src/context/AuthContext.jsx:38-44 | the token is removed and the state is the signed-out initial one, loading kept |
| AuthContext.LoginThenLogout | frontend/src/context/AuthContext.jsx:29-44 | logging in then out is the same as logging out |
| AuthContext.ReloadRestoresLogin | frontend/src/context/AuthContext.jsx:13-36 | a reload after logging in with the token's own role restores the same signed-in state |
| AuthContext.ServerSessionSignsIn | backend/src/routes/auth_routes.py:48-67 | a token and role the login route returns sign the page in with the token's uid and role |
| AuthContext.AuthProvider.constructor | frontend/src/context/AuthContext.jsx:6-11 | the provider starts in the initial state |
| AuthContext.AuthProvider.Restore | frontend/src/context/AuthContext.jsx:13-27 | the mount effect moves the state as `Startup` says |
| AuthContext.AuthProvider.LoginUser | frontend/src/context/AuthContext.jsx:29-36 | the state moves as `LoggedIn` says; the call succeeds exactly when the token decodes |
| AuthContext.AuthProvider.LogoutUser | frontend/src/context/AuthContext.jsx:38-44 | the state moves as `LoggedOut` says |
| Store.Db.NewId | backend/src/routes/admin_routes.py:243-244 | `insert_one` hands out a fresh id that no stored document has, and the next one after it |
| Store.Find | backend/src/routes/contest_routes.py:76-78 | `find_one` by id: the first document with the id, or none exactly when no document has it |
| Store.Filter | backend/src/routes/admin_routes.py:107 | the documents kept are exactly those of the collection that pass the test |
| Store.FilterAppend | backend/src/routes/admin_routes.py:107 | filtering two parts and joining them is filtering the whole |
| Store.UpdateOne | backend/src/routes/admin_routes.py:84-92 | `update_one` changes only the first document with the id; it matches none exactly when no document has it, and counts a modification exactly when the document changes |
| Store.FindAfterUpdate | backend/src/routes/admin_routes.py:84-87 | an update that keeps ids keeps which document has the id |
| Store.UpdateOneTwice | backend/src/routes/admin_routes.py:84-92 | repeating an idempotent update matches again and modifies nothing |
| Store.DeleteOne | backend/src/routes/admin_routes.py:101-103 | `delete_one`: none exactly when no document has the id; otherwise exactly one document with the id is removed and the rest keep their order |
| Store.QuestionIndex | backend/src/routes/contest_routes.py:84 | the map's keys are exactly the ids of the questions, and each maps to a question with that id |
| Store.BuildQuestionMap | backend/src/routes/contest_routes.py:84 | the dictionary comprehension builds exactly that map |
| Text.Lower | backend/src/services/question_service.py:44-48 | lower-casing keeps the length |
| Text.LowerIsLowerCase | backend/src/services/question_service.py:44-48 | a lower-cased text has no capital letter |
| Text.LowerIdempotent | backend/src/services/question_service.py:48 | lower-casing twice is lower-casing once |
| Text.StripStart | backend/src/services/question_service.py:7 | only leading whitespace is removed, up to the first other character |
| Text.StripEnd | backend/src/services/question_service.py:7 | only trailing whitespace is removed, back to the last other character |
| Text.Strip | backend/src/services/question_service.py:7 | the stripped text is the stretch of the text left after removing whitespace, and only whitespace, from both ends: neither of its ends is whitespace |
| Text.StripEmptyIffBlank | frontend/src/pages/AdminDashboard.jsx:113 | `trim()` gives the empty text exactly when the text is all whitespace |
| Text.NatToString | frontend/src/pages/ContestQuizPage.jsx:86-88 | a number's decimal text is digits only, without a leading zero |
| Text.NatToStringRoundTrip | frontend/src/pages/ContestQuizPage.jsx:86-88 | reading a number's decimal text gives the number back |

## Left out

- MongoDB, Flask and BSON are not modelled as such. Collections are in-memory sequences. A path id is taken as a well-formed id: a malformed `ObjectId` in a URL, which the server turns into a 500, is not modelled. An id sent in a request body is the text sent (`Store.RawId`), so a malformed one gives the 500 the server answers with. A JSON value of the wrong type (a string where an int is expected, and so on) is also left out, because request bodies are typed records whose fields are present or absent.
- `int()`, `float()` and `parseInt` failures are not modelled. Numbers arrive as numbers; `negativeMarking` is a Dafny `real`, without IEEE rounding.
- bcrypt and JWT are foreign libraries. Hashing, password checking and token encoding and decoding are parameters; decoding may fail.
- PDF text extraction (pdfminer) is a foreign library: a PDF file is represented by its extracted text.
- The two concept regular expressions of `_extract_concepts` are not modelled: their matches are an input. `_split_sentences` and `[A-Za-z]{4,}` are modelled exactly.
- `random.choice` and `random.shuffle` are not modelled as random: they are driven by draw parameters, and every shuffle is proved to be a permutation.
- The shuffle of the first distractor list at `backend/src/services/question_service.py:60-61` is dead code, because the list is overwritten on line 65, and is left out.
- The order of `list(set(...))` is taken as first occurrence followed by a shuffle. Python leaves that order unspecified.
- Case folding and whitespace are ASCII only. `Text.Lower` and `Text.Strip` leave non-ASCII letters and Unicode spaces as they are, while Python and JavaScript fold and strip them too. `Text.IsSpace` is the six ASCII whitespace characters that both Python's `str.strip` and JavaScript's `trim` remove. Python also removes the separators `\x1c` to `\x1f`, and the model does not.
- Wall-clock time (`Date.now`, `setInterval`, `datetime.utcnow`) is a parameter. The countdown is one discrete tick at a time.
- The race between concurrent submissions in the rank recomputation at `backend/src/routes/contest_routes.py:129-132` is not modelled: calls are sequential.
- Ranks are written by leaderboard position rather than by `_id`. The two agree when leaderboard `_id`s are unique. MongoDB guarantees that, but `Db.Valid()` does not state it, so the model does not prove it.
- `get_questions` (`backend/src/routes/quiz_routes.py:8-15`), `get_contest_questions` and `list_contests` (`backend/src/routes/contest_routes.py:8-42`), `get_module_questions` (`backend/src/routes/admin_routes.py:136-146`), `course_routes.py` and `api.js` are left out. They are reads that only convert ids to strings.
- Rendering, styling and the pages without logic (home, explore, profile, quiz, contests, login, register, navigation bar) are left out. So are network failures other than an error reply, `db.py`, `app.py`, `migrate_users.py`, `update_video_links.py`, `validate_system.py` and `test_connection.py`.
- The printing and the sorted listing in `backend/remove_duplicates.py` are output only and are left out.
- RemoveDuplicates.RemoveDuplicateModules: requires unique module ids. MongoDB guarantees this for `_id`, and `delete_one({'_id': ...})` relies on it.
- ContestQuizPage.HandleSubmit: the status the server returns is a parameter, and so is the time.
- ContestQuizPage.ContestQuiz.HandleChange: the radio value is taken as already parsed by `parseInt`.

## Findings

| source | as written | input that shows it | evidently intended | confidence | as-written member | corrected member |
|---|---|---|---|---|---|---|
| frontend/src/pages/ContestQuizPage.jsx:67-73 against backend/src/routes/contest_routes.py:70,89-115 | The page sends `score`, `timeTaken`, `negativeMarking` and `totalQuestions` but no `answers`. The server reads `answers` with default `[]`, so every submission is graded on no answers and the stored score is 0. | any contest with one question answered correctly; the entry is stored with score 0 and no answers | The page sends its answers as `{questionId, selectedOption}`, with -1 for a question left unanswered. The server's correct count is then the page's, and without negative marking its score is that count times the marks. | not executed | ContestQuizPage.ClientSubmissionScoresZero, ContestQuizPage.ClientSubmissionStored | ContestQuizPage.CorrectedSubmission, ContestQuizPage.CorrectedSubmissionAgrees, ContestQuizPage.CorrectedSubmissionScore |
