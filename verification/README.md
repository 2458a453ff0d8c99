# Referral bot store, modelled in Dafny

This project models the core of a Telegram referral and reward bot. The bot
keeps three tables:

- users, with a balance, a referral count, a payout number, a conversation
  status, the time of the last bonus and a "has withdrawn" flag;
- tasks, each with a link, a reward, a priority and an optional chat;
- completion records, each a (user, task) pair.

Each update handler reads and writes these tables. The model covers the
following handlers:

- `/start`, which creates the user and credits the inviter on a referral;
- the text handler: the bonus with its two-hour cooldown and countdown, the
  information buttons, the withdrawal request, the offer of tasks, and the
  follow-up that reads a payout number or a withdrawal amount depending on the
  user's status;
- the chat-join-request handler, which records a task completion;
- the callback handler: the membership re-check, the payout-number prompt, and
  the evaluator of task completions behind the "Check" button.

It also models the membership gate `accountValid`. The gate folds over two
fixed channels, starting from `true` and multiplying by one boolean per
channel.

Modules, in dependency order:

- `Wrappers`: `Option`.
- `Entities`: the rows, the replies (abstract tags in place of message text),
  the faults that make a handler throw, and the constants (5500 per referral,
  750 per bonus, a two-hour cooldown, a 40000 minimum, 5 referrals, 2 tasks).
- `Membership`: `accountValid` and its fold, over JavaScript values. The
  result is a number (0 or 1), not a boolean.
- `JsText`: `slice`, `split("_")` and `parseInt` with their ECMAScript
  behaviour. `parseInt` covers leading whitespace, the sign, the `0x` prefix
  and NaN.
- `Callback`: the "Check" button's data (`"task"` followed by `_<id>` per
  task), its decoding, and a task's kind read from characters 2 and 3 of its
  id.
- `TaskQueries`: the database queries as functions over the tables: find by
  id, first task for a chat, a user's completed ids, and the offer (at most
  two tasks not yet completed, highest priority first).
- `Rules`: the bonus rule and countdown, the withdrawal amount parser and
  verdict, and the button captions.
- `Evaluation`: the evaluator of task completions as a specification over the
  first `n` ids. It defines which ids are done, the rewards credited, the
  records written, and the replies.
- `Bot`: the imperative evaluator loop (`RunPress`, one `Visit` per id) proved
  against `Evaluation`, and the class `Store`, whose fields are the three
  tables and whose methods are the handlers. The inputs from outside are the
  current time, the membership statuses Telegram reports, and the random
  reaction index.

The table of tasks is a sequence in storage order rather than a map, because
`findFirst` by chat depends on that order.

The model follows the code where it differs from the bot's stated design:

- The countdown is computed from the same two-hour window as the grant
  (`3600000 * 2`), although the comments speak of three hours.
- A kind "22" task writes a completion record on every successful check, so
  records are not unique per (user, task).
- A kind "11" task is credited on every press that finds its record, not only
  the first time.
- The "Task" caption returns only when the user already has two completion
  records. Otherwise it does not return, so the status follow-up also sees it.
- The offer's done counter is `2 - offered`, while the edited list shows the
  number completed in this press.
- The join-request handler looks the requester up and writes the record
  under the sender of the update. For a join request the framework reports
  the requester as the sender, so both are the same user; the model keeps
  them as two parameters only for generality.
- The evaluator credits a done task with an update of the presser's row. A
  presser without a row reaches the evaluator through an offer, since the
  "Task" caption never reads the user row. Such a press throws at the first
  done id, after writing that id's kind "22" record.

## Model

| member | source | states |
|---|---|---|
| `Membership.AccountValid` | src/utils/checkVerify.js:3-16 | The result is always the number 0 or 1, and it is truthy exactly when the user's status in each of the two fixed channels is neither left nor kicked. |
| `Membership.FoldValue` | src/utils/checkVerify.js:7-13 | A fold over a non-empty channel list is the start value times 1 or 0, the factor being 1 exactly when the user is still in every listed channel. |
| `Membership.LeftOrKickedFails` | src/utils/checkVerify.js:10-12 | Left or kicked in either fixed channel makes the gate return 0. |
| `Membership.FoldOrderIndependent` | src/utils/checkVerify.js:7-13 | The fold from `true` gives the same number for any rearrangement of a non-empty channel list. |
| `JsText.SliceFrom` | src/index.js:32 | `slice(start)` is the suffix from `start`, or empty past the end, with the length that implies. |
| `JsText.Slice` | src/index.js:470 | `slice(start, end)` clamps both bounds to the length; its characters are those of the string from `start`. |
| `JsText.Split` | src/index.js:415 | `split("_")` gives at least one piece, one more piece than there are separators, and no piece contains a separator. |
| `JsText.SplitAppend` | src/index.js:283-285 | Appending `_` and a separator-free piece to a string appends exactly that piece to its split. |
| `JsText.ParseIntShow` | src/index.js:320-321 | `parseInt` reads back the decimal rendering of any integer, also when text follows that neither continues the digits nor, after a lone 0, starts a hex prefix. |
| `JsText.TrimStartSkipsWhitespace` | src/index.js:320 | Leading whitespace never changes what `parseInt` reads. |
| `JsText.NoDigitIsNaN` | src/index.js:320 | Text that, after whitespace, starts with neither a sign nor a digit reads as NaN. |
| `Callback.KindReadsSlice` | src/index.js:470-479 | The kind of an id is "11" or "22" exactly when `id.slice(2, 4)` equals that string, and an id shorter than four characters is never a checked kind. |
| `Callback.CallbackData` | src/index.js:283-285 | The button data always starts with "task". |
| `Callback.TaskIds` | src/index.js:457 | No decoded task id contains the separator. |
| `Callback.SplitCallbackData` | src/index.js:415 | Splitting the data built from separator-free ids gives "task" followed by exactly those ids. |
| `Callback.CallbackRoundTrip` | src/index.js:283-285 | Decoding the data of separator-free ids gives the command "task" and back exactly those ids, in order. |
| `Callback.ReencodeDecoded` | src/index.js:532-534 | Re-encoding ids drawn from a decoded "task" callback gives data that decodes to exactly those ids. |
| `TaskQueries.FindTask` | src/index.js:458-462 | A found task is in the table with the id asked for; none found means no task has that id. |
| `TaskQueries.FirstTaskForChat` | src/index.js:395-402 | The position returned is the first task naming the chat, or the table length when none does. |
| `TaskQueries.CompletedIds` | src/index.js:247-262 | An id is among the user's completed ids exactly when a record for the user and that id exists, and it occurs there as often as such records do, so the list is as long as the user's records. |
| `TaskQueries.Eligible` | src/index.js:264-271 | A task is eligible exactly when it is in the table and its id is not completed; eligible tasks are drawn from the table without repetition. |
| `TaskQueries.InsertKeepsBest` | src/index.js:272-275 | Inserting a candidate into a best-first list of at most two evicts nothing from a shorter list, evicts only a task ranked no higher than any kept one, and turns a candidate away only when a full list's last task is not beaten. |
| `TaskQueries.TopTwo` | src/index.js:272-275 | Taking two by descending priority gives as many tasks as there are, up to two, drawn from the list, highest first, and no task left out outranks one taken. |
| `TaskQueries.TopTwoStep` | src/index.js:272-275 | Inserting the last candidate into the best two of the others gives the best two of the whole list. |
| `TaskQueries.Offer` | src/index.js:264-276 | Two tasks are offered when at least two are in the table and not completed, otherwise all such tasks. The offer is drawn from those tasks without repetition; each offered task is in the table and not completed, they come highest priority first, and no uncompleted task left out outranks an offered one. |
| `TaskQueries.OfferDistinct` | src/index.js:264-276 | With unique task ids, the two offered tasks have different ids, as two distinct rows of the query do. |
| `Rules.BonusDue` | src/index.js:111-117 | A bonus is due exactly when at least two hours (in milliseconds) have passed since the last one. |
| `Rules.Countdown` | src/index.js:143-145 | The hours shown are below 24, and the minutes and seconds below 60. |
| `Rules.CountdownExact` | src/index.js:143-145 | Below a day, hours, minutes and seconds add up to the remaining whole seconds. |
| `Rules.CountdownWithinCooldown` | src/index.js:133-145 | When no bonus is due and the last bonus lies strictly in the past, the remaining time is strictly between zero and two hours, the hours shown are 0 or 1, and the clock adds up to the remaining whole seconds. |
| `Rules.NoSecondImmediateBonus` | src/index.js:117-126 | A bonus claimed at a given time is not due again at that time. |
| `Rules.NewUserBonusDue` | src/index.js:54-60 | A newly created user may claim a bonus at any time from two hours after the sentinel date on. |
| `Rules.AmountEntry` | src/index.js:320-321 | A text is taken as a withdrawal amount exactly when `parseInt` reads a non-zero number from it, and the amount is that number. |
| `Rules.WithdrawalVerdict` | src/index.js:323-341 | The amount is checked against the balance, then the minimum, then the referral count. It is approved exactly when it lies between the minimum and the balance and the user has at least five referrals. |
| `Rules.Withdrawn` | src/index.js:345-356 | An approved withdrawal lowers the balance by exactly the amount, keeps it non-negative, sets the status to idle and marks the user as having withdrawn; no other field changes. |
| `Rules.TaskCaptionsAreNotAmounts` | src/index.js:320 | A task caption falling through to the follow-up never reads as a withdrawal amount. |
| `Evaluation.FirstFault` | src/index.js:457-493 | The evaluation stops at the first id whose task is missing, names no chat to check, or is done by a presser without a user row; every id before it is sound. |
| `Evaluation.EarnedIsGainOfCompleted` | src/index.js:495-507 | The balance grows by the sum of the rewards of the completed ids. |
| `Evaluation.PartitionSizes` | src/index.js:495-510 | The completed and uncompleted lists together are as long as the evaluated ids. |
| `Evaluation.Partition` | src/index.js:495-510 | The completed and uncompleted lists together hold each evaluated id exactly as often as it occurs. |
| `Evaluation.PartitionByDone` | src/index.js:495-510 | Completed ids are evaluated ids found done; uncompleted ids are evaluated ids found not done. |
| `Evaluation.AllDone` | src/index.js:520-526 | When every id is done, the completed list is all of them in order and nothing is left uncompleted. |
| `Evaluation.NothingCompletedNothingRecorded` | src/index.js:485-507 | With nothing completed among the evaluated ids, nothing is recorded or credited for them. |
| `Evaluation.EarnedNonNegative` | src/index.js:498-507 | With non-negative rewards an evaluation never lowers the balance. |
| `Evaluation.UnknownPresserEarnsNothing` | src/index.js:485-507 | For a presser without a user row, nothing before the stop is done, recorded or credited. When no id stops the press, the reply is the "nothing done" alert. |
| `Evaluation.RecordedAreMembershipChecked` | src/index.js:485-492 | Every record an evaluation writes is the presser's and for a kind "22" id. |
| `Evaluation.SelfReportedCreditedAgain` | src/index.js:470-507 | For a presser with a user row, a kind "11" id found done is found done again by a later press that lists it alone, made with the same records or more; that press gets past the id without a fault and credits its reward again. |
| `Evaluation.MembershipCheckedRecordedAgain` | src/index.js:485-491 | A kind "22" task found done writes its record again even when an earlier press wrote it. |
| `Evaluation.FaultAt` | src/index.js:458-480 | The first faulty id decides the reply: the missing-task error, the error of a kind "22" task without a chat, or the failed credit of a presser without a user row. |
| `Evaluation.NoFault` | src/index.js:457-511 | Without a faulty id every id is evaluated. |
| `Evaluation.EditedOutcome` | src/index.js:514-536 | When the list of tasks is edited, no id threw and some but not all ids were done; the edit lists the non-empty remainder and counts the completed ids. |
| `Evaluation.EditedButtonListsRemaining` | src/index.js:532-539 | The edited "Check" button carries the command "task" and decodes to exactly the ids left uncompleted. |
| `Bot.MenuCaptionsDistinct` | src/index.js:109-246 | Each text reaches at most one menu branch, and a task caption is never consumed by an earlier branch. |
| `Bot.OfferedIdsFresh` | src/index.js:264-271 | No offered id contains the separator (when no task id does) or is among the completed ids. |
| `Bot.OfferedButtonRoundTrip` | src/index.js:279-297 | The "Check" button of an offer decodes to exactly the offered ids, none of which the user has a completion record for. |
| `Bot.EffectAt` | src/index.js:457-526 | Stopping at the first faulty id, or after the last id, with the balance and records built so far plus any record written for the stopping id, is the effect of the whole press. |
| `Bot.SelfReportedPressCreditsAgain` | src/index.js:470-507 | Pressing again a button that lists only a kind "11" task already found done raises a known presser's balance by its reward once more, and replies "all done". |
| `Bot.EvaluationKeepsSolvent` | src/index.js:495-507 | With non-negative rewards, an evaluation keeps every balance and referral count non-negative, whether or not the presser has a user row. |
| `Bot.Judge` | src/index.js:468-493 | Kind "11" is done exactly when a record exists, kind "22" exactly when the chat status is neither left nor kicked, and any other kind never. |
| `Bot.Visit` | src/index.js:457-511 | One turn of the loop keeps the loop invariant: the balance, the records and the two id lists are those of the evaluated prefix, one id longer. |
| `Bot.StopAt` | src/index.js:458-480 | Stopping at the first id whose task is missing or names no chat leaves the effect of the ids before it and throws that id's error. |
| `Bot.StopUnknown` | src/index.js:485-507 | Stopping at the first id done by a presser without a user row keeps the records before it plus the kind "22" record just written, changes no balance, and throws the failed credit. |
| `Bot.Finish` | src/index.js:514-545 | After the last id, the reply follows from how many ids were found done. |
| `Bot.RunPress` | src/index.js:452-546 | The loop's tables and reply are exactly the specified effect of the press: the presser's balance, when there is a row, credited by the rewards earned, records appended, and `Outcome`'s reply. |
| `Bot.Store.Start` | src/index.js:20-92 | A known user changes nothing. A new user is created with zero balance and the sentinel bonus date. With a payload, the user whose id is the payload minus its first four characters first gains one referral and 5500, or the handler throws when there is no such user. The gate then decides between the menu and the verify prompt. |
| `Bot.Store.ClaimBonus` | src/index.js:109-160 | A due bonus adds exactly 750 and restarts the cooldown now; otherwise nothing changes and the countdown is shown. A missing user throws. |
| `Bot.Store.RequestWithdrawal` | src/index.js:220-244 | The status becomes withdraw only when the balance is at least 40000 and a payout number is set, checked in that order; on either failure nothing changes. |
| `Bot.Store.FollowStatus` | src/index.js:300-382 | While adding a number the text becomes the payout number and the status returns to idle. While withdrawing, a non-zero amount is judged, and only an approved one changes the row. |
| `Bot.Store.OnText` | src/index.js:99-384 | Bonus, information and withdrawal captions are handled by their branch alone. A task caption from a user with two or more completion records only replies that tasks are unavailable. Otherwise it replies with the offer and then goes through the status follow-up, like any other text. |
| `Bot.Store.OnChatJoinRequest` | src/index.js:386-410 | For a known requester, a record for the first task naming the chat is appended under the reported sender, or the handler throws when no task names it; an unknown requester changes nothing. |
| `Bot.Store.EvaluateTasks` | src/index.js:452-546 | The tables after a press are the specified effect of evaluating its ids, whether or not the presser has a user row. |
| `Bot.Store.AskAccountNumber` | src/index.js:439-450 | The prompt is sent and the status becomes AddingNum; a missing user throws after the prompt. |
| `Bot.Store.OnCallbackQuery` | src/index.js:412-548 | The first piece of the data selects the membership re-check, the number prompt or the evaluator. Any other command changes nothing, and the table stays solvent. |

## Left out

- Message text, language selection, keyboards and the Telegram calls that send, edit or delete messages: replies are abstract tags.
- The `channel` debug command and every `console.log`.
- `getChatMember` is an input function from channel or chat to status. The errors it can raise are not modelled.
- `Math.random` and `setMessageReaction`: the reaction index is a parameter below 4.
- Dates are integer milliseconds with `now` as a parameter. The sentinel date `new Date(2000, 11, 1)` is taken as midnight UTC; the server's time-zone offset is not modelled.
- JavaScript numbers are unbounded integers here. Floating-point rounding of large balances and of `parseInt` results beyond 2^53 is not modelled; the hour division is exact real arithmetic.
- Strings are sequences of code points, while JavaScript indexes UTF-16 units. The two agree on the ASCII ids and payloads that `slice` is applied to.
- Database defaults for a created user are taken to be a zero balance, zero referrals, no payout number, idle status and no withdrawal. The order in which the database breaks priority ties is taken to be storage order.
- Concurrency: updates are handled one at a time, so the race between two withdrawal messages is not modelled.
- The kind "22" record written for a presser without a user row, just before the failed credit, is taken to be stored. Whether the database accepts a record for a user without a row depends on its schema, which is not part of this model.
- Entities.WellFormedTasks: rewards are taken to be non-negative and task ids unique; the source enforces neither. The store invariant `Bot.Store.Valid` (non-negative balances) and `Bot.EvaluationKeepsSolvent` rely on non-negative rewards.
- Rules.Countdown: one `now` stands for the three clock reads of the bonus handler (lines 111, 126 and 134), which in the running bot are apart by the time the database calls take. The same holds for `Bot.Store.ClaimBonus`.
- Bot.Store.OnText: texts starting with "/start" or "/channel" go to the command handlers (lines 20 and 95) before the text handler; the model's text handler does not exclude them.
- Bot.Store.EvaluateTasks: evaluates on copies of the two tables and stores both when the handler ends. It therefore does not show the interleaving of individual writes with the lookups of tasks. The writes kept when an id throws are stated exactly.
- The `availableTasks` list and the rendered task text of the edited message (lines 455, 466 and 528-530) only feed message text and are not modelled.
