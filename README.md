# DuoTOEIC weekly plan and dashboard, in Dafny

DuoTOEIC is a study tracker for two fixed users, `user1` and `user2`. This
project models two parts of it and proves properties of them.

The weekly "battle plan" ledger:

- Each user sets goals (tasks) for the week.
- The owner marks a task done. Only the partner can verify it.
- A shared penalty text says what the loser pays.
- `WeeklyPlanner.dfy` models the five handlers of the plan screen as functions from the current plan to the plan handed to `onUpdatePlan`. A handler that returns early yields `None`.
- It also models the per-column metrics: the verified count, the progress percentage and the "Potential Penalty!" flag.
- `PlannerView.dfy` models the controls the screen offers as a small state machine over plans. It proves two things about every run of offered actions:
  - every plan reached keeps "verified implies completed" and distinct ids;
  - no offered action removes a task that is verified at that moment. A verified task can still disappear over a run: the partner's "(undo)" clears its verification, and the owner may then delete it.

  Two counterexample lemmas show that the handlers alone do not give these guarantees.

The dashboard:

- `Dashboard.dfy` models the hours-per-skill table. It is built by an in-place loop over a four-row array. The method is proved to compute, for every cell, the hours of that skill and user.
- These totals are proved independent of the order of the logs.
- It also models the selection of the last five scored logs, and the labelled points of the score chart.

`Types.dfy` holds the data model: the two users, the four skills, the study log, the task and the weekly plan.

The handlers guard less than the screen does, and the model keeps the two
layers apart:

- `toggleComplete` (components/WeeklyPlanner.tsx:43-46) does not refuse a verified task; only the checkbox is disabled (:143).
- `toggleComplete` clears `isVerified` on every toggle, in either direction.
- `deleteTask` (:70-76) checks neither ownership nor verification; only the delete button is hidden (:130).
- `toggleVerify` (:57-61) does not require the task to be completed; only the verify controls are hidden (:152-165).

## Model

| member | source | states |
|---|---|---|
| Types.Partner | types.ts:1 | the partner of a user is the other of the two users |
| Types.PartnerInvolution | types.ts:1 | there are exactly two users: the partner's partner is the user, and every user is the user or the partner |
| Types.UserName | types.ts:1 | the wire names are exactly "user1" and "user2", and "user1" names only `User1` |
| Types.SkillName | types.ts:10-15 | every skill has a non-empty string value |
| Types.SkillNameInjective | types.ts:10-15 | distinct skills have distinct string values |
| Types.TaskLists.With | types.ts:53 | replacing one user's list, as `{ ...tasks, [u]: ts }`, sets that list and leaves the partner's list unchanged |
| WeeklyPlanner.Start | components/WeeklyPlanner.tsx:24 | scanning forward from `i`, the first kept index: everything skipped is trimmable, and the index is the end of the text or a non-trimmable character |
| WeeklyPlanner.End | components/WeeklyPlanner.tsx:24 | scanning backward from `j` to `lo`, the end of the kept span: everything skipped is trimmable, and the span is empty or ends with a non-trimmable character |
| WeeklyPlanner.Trim | components/WeeklyPlanner.tsx:24 | `trim()` gives the contiguous slice of the text that starts where the leading run of trimmable characters ends; everything before and after that slice is trimmable, and the slice neither starts nor ends with a trimmable character |
| WeeklyPlanner.TrimEmptyIffBlank | components/WeeklyPlanner.tsx:24 | `trim()` yields the empty string if and only if every character of the text is whitespace or a line terminator |
| WeeklyPlanner.FlipCompletion | components/WeeklyPlanner.tsx:45-47 | the list keeps its length, order, ids and texts; matching tasks get `isCompleted` negated and `isVerified` cleared; every other task is unchanged |
| WeeklyPlanner.FlipVerification | components/WeeklyPlanner.tsx:59-61 | the list keeps its length, order, ids, texts and every `isCompleted`; matching tasks get `isVerified` negated; every other task is unchanged |
| WeeklyPlanner.FlipVerificationTwice | components/WeeklyPlanner.tsx:59-61 | flipping verification twice gives back the original list |
| WeeklyPlanner.RemoveTask | components/WeeklyPlanner.tsx:71 | the result is no longer than the list, and holds only tasks of the list whose id differs from the removed one |
| WeeklyPlanner.RemoveTaskCount | components/WeeklyPlanner.tsx:71 | a task with the removed id occurs 0 times afterwards; every other task occurs exactly as often as before |
| WeeklyPlanner.RemoveTaskAppend | components/WeeklyPlanner.tsx:71 | removal distributes over concatenation, so survivors keep their relative order |
| WeeklyPlanner.RemoveAbsentTask | components/WeeklyPlanner.tsx:71 | removing an id that no task carries leaves the list unchanged |
| WeeklyPlanner.SavePenalty | components/WeeklyPlanner.tsx:17-20 | the penalty becomes the edited text, the empty string included; tasks, id and weekStart are unchanged |
| WeeklyPlanner.PenaltyBanner | components/WeeklyPlanner.tsx:232 | the banner text is never empty, and it is the penalty whenever the penalty is non-empty |
| WeeklyPlanner.SavePenaltyShown | components/WeeklyPlanner.tsx:232 | the banner then shows the saved text, or "No penalty set!" when the saved text is empty |
| WeeklyPlanner.AddTask | components/WeeklyPlanner.tsx:23-39 | no plan is emitted if and only if the text is blank; otherwise exactly one open task with the fresh id and the text as typed is appended to that user's list, and the partner's list, penalty, id and weekStart are unchanged |
| WeeklyPlanner.ToggleComplete | components/WeeklyPlanner.tsx:42-53 | no plan is emitted if and only if the list is not the acting user's; otherwise that list is the flipped-completion list and everything else is unchanged |
| WeeklyPlanner.ToggleVerify | components/WeeklyPlanner.tsx:56-67 | no plan is emitted if and only if the acting user owns the list; otherwise that list is the flipped-verification list and everything else is unchanged |
| WeeklyPlanner.ToggleVerifyTwice | components/WeeklyPlanner.tsx:56-67 | verifying and then undoing restores the original plan exactly |
| WeeklyPlanner.DeleteTask | components/WeeklyPlanner.tsx:70-76 | the tasks with the given id leave that user's list, with no ownership or verification check; the partner's list, penalty, id and weekStart are unchanged |
| WeeklyPlanner.VerifiedCount | components/WeeklyPlanner.tsx:84 | `0 <= completedCount <= totalCount`; it equals the total if and only if every task is verified, and is 0 if and only if none is; a single task counts 1 exactly when it is verified |
| WeeklyPlanner.VerifiedCountAppend | components/WeeklyPlanner.tsx:84 | the count of two lists together is the sum of their counts, so with the single-task case it counts exactly the verified tasks |
| WeeklyPlanner.Progress | components/WeeklyPlanner.tsx:85-86 | progress lies in [0, 100]; it is 0 for an empty list; it is 100 if and only if the list is non-empty and every task is verified |
| WeeklyPlanner.IsFail | components/WeeklyPlanner.tsx:87 | the flag is up if and only if there are tasks and some task is unverified |
| WeeklyPlanner.IsFailIffIncomplete | components/WeeklyPlanner.tsx:84-87 | the flag is up if and only if the list is non-empty and progress is below 100 |
| PlannerView.Offered | components/WeeklyPlanner.tsx:130-206 | the checkbox, delete button and add box are offered only in the acting user's own column and the verify controls only in the partner's; the handler behind an offered checkbox or verify control always emits a plan |
| PlannerView.Step | components/WeeklyPlanner.tsx:17-76 | no action changes the plan's id or week start; only the penalty editor changes the penalty, and it leaves the tasks unchanged |
| PlannerView.OnlyMatch | components/WeeklyPlanner.tsx:45-46 | with distinct ids, a task id picks out exactly one task |
| PlannerView.RemoveTaskKeepsInv | components/WeeklyPlanner.tsx:71 | removal keeps ids distinct and keeps "verified implies completed" |
| PlannerView.RemoveTaskKeeps | components/WeeklyPlanner.tsx:71 | a task whose id is not the removed one is still in the list after removal |
| PlannerView.FlipCompletionKeepsInv | components/WeeklyPlanner.tsx:45-47 | toggling completion keeps ids distinct and keeps "verified implies completed" |
| PlannerView.FlipVerificationKeepsInv | components/WeeklyPlanner.tsx:59-61 | toggling verification of a completed task with a unique id keeps ids distinct and keeps "verified implies completed" |
| PlannerView.AppendKeepsInv | components/WeeklyPlanner.tsx:25-35 | appending an unverified task with a new id keeps both parts of the invariant |
| PlannerView.StepKeepsInv | components/WeeklyPlanner.tsx:130-206 | every action the screen offers keeps distinct ids and "verified implies completed" in both lists, given a fresh id for an added task |
| PlannerView.StepKeepsVerifiedTasks | components/WeeklyPlanner.tsx:130-132 | no offered action removes a task that is verified when the action is taken: its id is still in its owner's list afterwards |
| PlannerView.TogglesKeepIds | components/WeeklyPlanner.tsx:42-67 | the completion and verification toggles keep every task of every list at its place, with its id |
| PlannerView.OthersKeepIds | components/WeeklyPlanner.tsx:17-39 | adding a task, saving the penalty and deleting in another user's list keep every task of a list at its place, with its id |
| PlannerView.KeepsIndex | components/WeeklyPlanner.tsx:42-76 | every action except a delete in a user's own list keeps each of that list's tasks at its place with its id |
| PlannerView.RunKeepsInv | components/WeeklyPlanner.tsx:130-206 | every plan reached through a run of offered actions keeps the invariant |
| PlannerView.InitialPlan | App.tsx:35-48 | the seed plan has two tasks for user1 and one for user2, and satisfies the invariant |
| PlannerView.SeedRunsKeepInv | App.tsx:35-48 | from the seed plan, no run of offered actions ever yields a task that is verified but not completed |
| PlannerView.SeedScenario | components/WeeklyPlanner.tsx:42-67 | on the seed plan, complete, then verify by the partner, then uncheck takes task 101 through (done, unverified), (done, verified), and back to (open, unverified); that third step is the handler's alone, since the checkbox is not offered on a verified task |
| PlannerView.VerifyHandlerAcceptsOpenTask | components/WeeklyPlanner.tsx:56-67 | the verify handler verifies an open task, which the screen never offers |
| PlannerView.DeleteHandlerRemovesVerifiedTask | components/WeeklyPlanner.tsx:70-76 | the delete handler removes a verified task, which the screen never offers |
| Dashboard.RowSkillBijective | components/Dashboard.tsx:12-17 | the four rows correspond one to one to the four skills |
| Dashboard.LogHours | components/Dashboard.tsx:22-23 | a log's hours are its minutes divided by 60, exactly, and are not negative for a non-negative duration |
| Dashboard.ColumnsPartition | components/Dashboard.tsx:22-23 | every log counts in exactly one user's column: a row's two cells add up to all hours of that skill |
| Dashboard.SkillHoursAppend | components/Dashboard.tsx:19-25 | cell totals add up over concatenated log sequences |
| Dashboard.SkillHoursRemoveAt | components/Dashboard.tsx:19-25 | taking one log out of the sequence removes exactly its contribution |
| Dashboard.SkillHoursPermutation | components/Dashboard.tsx:19-25 | the totals of two log sequences that are permutations of each other are equal |
| Dashboard.SkillHoursStep | components/Dashboard.tsx:19-25 | taking one more log into account adds exactly its contribution |
| Dashboard.FindRow | components/Dashboard.tsx:20 | `findIndex` gives -1 if and only if no row has the name, and otherwise the first row with it |
| Dashboard.AddToRow | components/Dashboard.tsx:22-23 | a log adds its hours to the row's total, in the `user1` column when its user's wire name is 'user1' and in the `user2` column otherwise, and never touches the other column |
| Dashboard.FindSkillRow | components/Dashboard.tsx:20 | in the four-row table the lookup by a skill's name finds that skill's row |
| Dashboard.AddLogKeepsTable | components/Dashboard.tsx:20-23 | adding a log to the row its skill's name finds turns the table of the first i logs into the table of the first i + 1 |
| Dashboard.EmptyTable | components/Dashboard.tsx:12-17 | the initial table has the four rows in order, every cell 0 |
| Dashboard.AggregateSkillHours | components/Dashboard.tsx:12-25 | the table has four rows, Listening, Reading, Speaking and Writing in that order, and each cell holds the hours of that skill and user |
| Dashboard.TwoLogExample | components/Dashboard.tsx:19-25 | an hour of Listening by user1 and 45 minutes of Reading by user2 give 1 and 0.75 in those cells and 0 elsewhere |
| Dashboard.ScoredLogs | components/Dashboard.tsx:27 | the filter result is no longer than the logs, and every log in it has a score |
| Dashboard.ScoredLogsMembers | components/Dashboard.tsx:27 | a log is among the scored logs if and only if it is one of the logs and has a score |
| Dashboard.ScoredLogsAppend | components/Dashboard.tsx:27 | filtering distributes over concatenation, so it keeps the logs' order |
| Dashboard.LastN | components/Dashboard.tsx:27 | for a positive n, as `slice(-5)` uses it, `slice(-n)` gives the last min(n, length) elements |
| Dashboard.MockTestLogs | components/Dashboard.tsx:27 | at most five logs, all scored, empty only when no log is scored, and they are exactly the last five scored logs in order |
| Dashboard.AppendLogSlidesWindow | App.tsx:70 | appending a scored log makes it the newest of the five and slides the window; appending an unscored log changes nothing |
| Dashboard.Decimal | components/Dashboard.tsx:29 | the numeral of n is a non-empty string of decimal digits that denotes n, with no leading zero ("0" for 0) |
| Dashboard.ScoreData | components/Dashboard.tsx:28-33 | one point per recent log, in order, labelled "Test i" from 1, with the log's score and user |
| Dashboard.RecentScores | components/Dashboard.tsx:27-33 | the chart has at most five points |
| Dashboard.ScoreLabelsDistinct | components/Dashboard.tsx:29 | the chart's labels are pairwise distinct |
| Dashboard.ShowsScoreChart | components/Dashboard.tsx:63 | the chart is drawn exactly when some log is scored |
| Dashboard.EmptyStateIffNoScore | components/Dashboard.tsx:63-78 | the chart is drawn, rather than the empty-state message, if and only if some log has a score |
| Dashboard.SeedScoredLogs | App.tsx:27-33 | for the seed logs, where only the first and the last are scored, the scored logs are those two |
| Dashboard.SeedScoreChart | App.tsx:27-33 | with the seed's scores, the chart shows "Test 1" at 650 and "Test 2" at 700, both of user1 |

## Left out

- Rendering is not modelled: JSX styling, colours, avatars and the progress bar's width. User profiles and display names are left out too; a chart point keeps the user id instead of the name and colour.
- `Date.now()` ids are a parameter of `AddTask`. Their freshness is the precondition `FreshIdFor` of the reachable-plan lemmas.
- The React draft state (`newTaskText`, `penaltyInput`, `isEditingPenalty`) is not modelled. The draft text is a parameter, and clearing it after a save or an add is not modelled.
- Floating point is not modelled. Hours (`durationMinutes / 60`), the `+=` sums into the table and the progress percentage are exact reals, so JavaScript's rounding of those divisions and sums is not captured.
- Dashboard.SkillHoursPermutation: the totals are order-independent in the exact model; with JavaScript's rounded `+=` sums a different log order can differ in the last bits.
- `durationMinutes` and `score` are `int`. In the source they are `number`s that components/Tracker.tsx fills with `parseInt`, so they can be NaN there; NaN cannot be represented here.
- WeeklyPlanner.Progress: "progress is 100 if and only if every task is verified" is stated with the list non-empty. For an empty list every task is vacuously verified, but the code gives 0.
- Dashboard.AggregateSkillHours: `log.skill` is the skill enumeration, so `findIndex` never yields -1 for a log. The `-1` branch is kept in the loop but never taken. Skill strings outside the enumeration cannot be represented.
- Dashboard.AddToRow: the `if`/`else` over the user at lines 22-23 is a pure function that the loop applies to the found row. The loop therefore writes one array element per log, as the source does.
- Dashboard.ScoreData: the chart's `user` and `color` come from the profile of `log.userId`. The model keeps `log.userId` only.
- The rest of the repository is not part of this model:
  - `components/Tracker.tsx` builds one log from a form;
  - `components/Login.tsx` is profile selection;
  - `components/WritingCoach.tsx` and `components/SpeakingCoach.tsx` call an external generative API and the browser's speech recognition;
  - `services/geminiService.ts` holds network calls and `JSON.parse`.
- Of `App.tsx`, only the seed data and the log append at line 70 are used. The seed logs appear as a lemma over any five logs with the seed's scores and owners, rather than as their literal dates and ids.
