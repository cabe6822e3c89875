# TDEECalcSite subscriber lifecycle, in Dafny

This project models the subscription back end of TDEECalcSite. A visitor submits their
measurements and an email address, confirms by a code sent to that address, and then
gets reminders to update their measurements. Each reminder carries an update code.
The visitor can change their measurements, stage a change that must be confirmed,
or unsubscribe; each step is authorised by a one-time code.

The state is the relational store of `SubscriptionService/DBFunc.js`:

- the `subscriber` table, with a unique email;
- `subscriber_measurements`;
- four code tables: `confirmation_code`, `update_code`, `unsubscribe_code` and `pending_update`.
  Each holds at most one row per subscriber and has a unique 8-digit code;
- `scheduled_reminder`;
- the read-only `frequency` table.

`Tables.Db` is that store. No schema ships with the code, so `Db.Valid()` states the
constraints the queries rely on; "## Left out" lists them as assumptions.
`DBFunc.Store` is the store as a mutable object. `Store.nextId` is the subscriber id
sequence, which a rollback does not rewind.

Each state-changing function of DBFunc.js has two forms:

- a pure function in `Transitions`, taking the state before to the state after and
  the return value;
- a `Store` method that runs the statements one by one. Inside BEGIN…COMMIT they act on a
  copy `tx`, which COMMIT publishes and ROLLBACK drops. The method is proved equal to the
  pure function.

The callers are modelled on top of these:

- the validation checks (`Validate`);
- the unit converter (`FormatConverter`);
- the update and unsubscribe controllers;
- the sending, reminder and expiry handlers (`Send`, `Scheduler`, `Delete`);
- the queue-driven `SubscriptionService/SubscriptionAPI.js` (`SubscriptionApi`).

`Lifecycle` proves how the transitions compose.

Conventions:

- `now` stands for the database clock, in whole seconds.
- A `Random` is the stream of values `Math.random()` returns during one call.
- JavaScript's falsy values are `0` and `""`. A JavaScript `null` result is `None`.
- Rows come back from a SELECT in ascending subscriber id. PostgreSQL leaves this order
  unspecified without `ORDER BY`; the model fixes it.

`controller/*` imports `model/DBFunc.js`, which is not part of this model.
`SubscriptionService/DBFunc.js`, which exports the same names, stands in for it.

## Model

| member | source | states |
|---|---|---|
| Tables.KindOfTable | controller/Validate.js:28-43 | the four table names designate their code tables; every other string designates none |
| Tables.SelectSubscriberById | SubscriptionService/DBFunc.js:285-349 | found iff the id is truthy and a subscriber has it; the row returned is that subscriber's |
| Tables.SelectSubscriberByEmail | SubscriptionService/DBFunc.js:285-345 | the id found holds that email; nothing found only for an empty email or one no subscriber holds |
| Tables.SelectSubMeasurements | SubscriptionService/DBFunc.js:425-474 | found iff the id is truthy and has a measurements row; returns that row |
| Tables.SelectOwnerByCode | SubscriptionService/DBFunc.js:630-683 | the subscriber found owns the row holding the code; nothing found iff the code is falsy or no row holds it |
| Tables.SelectCodeBySubId | SubscriptionService/DBFunc.js:749-802 | found iff the id is truthy and has a row in that table; returns that row |
| Tables.SelectPendingUpdateBySubId | SubscriptionService/DBFunc.js:561-582 | found iff the id is truthy and has a staged row; returns it with its measurements |
| Tables.SelectScheduledReminderByDate | SubscriptionService/DBFunc.js:1031-1052 | null iff no reminder falls on the day; otherwise exactly the reminders of that day, each once, ascending |
| Tables.SelectExpiredRecords | SubscriptionService/DBFunc.js:1183-1226 | every returned record is a row whose expiry has passed, with its code; every such row is returned; ascending by sub_id |
| Tables.FreqId | SubscriptionService/DBFunc.js:1137-1157 | the id of a frequency row with that descriptor; null for a falsy or unknown descriptor |
| Tables.FreqNumDays | SubscriptionService/DBFunc.js:1159-1179 | the num_days of a frequency row with that id; null for a falsy or unknown id |
| CodeAuthority.Candidate | SubscriptionService/DBFunc.js:1257 | floor(r·(MAX−MIN+1)+MIN): an 8-digit code within one unit of the scaled draw |
| CodeAuthority.Attempt | SubscriptionService/DBFunc.js:1255-1263 | from the `tries`-th draw: at most MAX_TRIES draws; a code returned is the last draw, unused and 8 digits; none only after MAX_TRIES draws |
| CodeAuthority.AttemptCollided | SubscriptionService/DBFunc.js:1256-1261 | every draw before the last collided with a code in use, all of them when none is returned |
| CodeAuthority.GenerateSound | SubscriptionService/DBFunc.js:1229-1263 | generateCode returns an unused 8-digit code, the first free draw, within MAX_TRIES = 15 draws; it returns null iff all 15 collided |
| CodeAuthority.FreshFirstDraw | SubscriptionService/DBFunc.js:1256-1261 | a free first draw is returned after one draw |
| CodeAuthority.GenerateSucceedsIff | SubscriptionService/DBFunc.js:1255-1263 | generateCode returns a code exactly when one of its MAX_TRIES draws is free |
| CodeAuthority.ExhaustedTableFails | SubscriptionService/DBFunc.js:1256-1263 | with every code in use, generation fails after exactly MAX_TRIES draws |
| CodeAuthority.GenerateCode | SubscriptionService/DBFunc.js:1255-1263 | the do-while loop returns the code and draw count of Generate |
| Transitions.SubscribeSpec | SubscriptionService/DBFunc.js:59-108 | a malformed user is refused with no change; an unknown frequency or a known email fails; past the guard the sequence advances once; a well-formed signup with a known frequency and a new email succeeds iff generateCode returns a code, and that code is the subscriber's; success takes the next id and adds exactly the subscriber, measurements and confirmation-code rows (fresh code, 7-day expiry); a failure changes no table |
| Transitions.ConfirmSubscriberSpec | SubscriptionService/DBFunc.js:112-157 | an unknown or confirmed id is refused with no change; success confirms, drops the confirmation code and schedules a reminder at now + num_days, nothing else |
| Transitions.UpdateConfirmedSubscriberSpec | SubscriptionService/DBFunc.js:160-189 | for an existing subscriber with nothing staged, succeeds iff generateCode returns a code, which becomes the staged row's; success only stages the values under that fresh code expiring in 30 minutes; measurements and every other table untouched; a falsy id, no values, an unknown id, a staged row or failed generation gives false and no change |
| Transitions.UpdatePendingSubscriberSpec | SubscriptionService/DBFunc.js:192-239 | for an existing subscriber, succeeds iff generateCode returns a code; success replaces the measurements (stamped now) and the confirmation code with that fresh one; unknown id or failed generation gives false and changes nothing |
| Transitions.ConfirmPendingUpdateSpec | SubscriptionService/DBFunc.js:242-281 | null iff nothing is staged; otherwise measurements become the staged values stamped now and the staged row goes, nothing else changes |
| Transitions.Merge | SubscriptionService/DBFunc.js:477-558 | each column takes the new value when it is truthy, the stored value otherwise |
| Transitions.UpdateSubMeasurementsSpec | SubscriptionService/DBFunc.js:477-558 | null iff no values or no measurements row; otherwise the merged row stamped now replaces that row only and is returned |
| Transitions.NewUpdateCodeSpec | SubscriptionService/DBFunc.js:711-748 | for an existing subscriber, returns a row iff generateCode returns a code; that code then replaces or becomes the subscriber's single update code, expiring now + 7 days; only update_code changes; a falsy id, an unknown id or failed generation gives null and changes nothing |
| Transitions.InsertUnsubscribeCodeSpec | SubscriptionService/DBFunc.js:851-880 | null, no change, when the subscriber already has an unsubscribe code; for an existing subscriber without one, returns a row iff generateCode returns a code, and then inserts exactly that code expiring in 30 minutes, nothing else changes |
| Transitions.Cascade | SubscriptionService/DBFunc.js:400-421 | removing a subscriber removes it and its rows in measurements, reminders and all four code tables (staged payloads included); every other subscriber and row, and frequency, stay as they were |
| Transitions.DeleteSubscriberByIdSpec | SubscriptionService/DBFunc.js:400-421 | null iff the id is falsy; count 1 iff the subscriber existed, else 0 with no change |
| Transitions.DeleteUpdateCodeBySubIdSpec | SubscriptionService/DBFunc.js:804-825 | null iff the id is falsy; count 1 iff it had an update code, which alone goes |
| Transitions.DeleteByCodeSpec | SubscriptionService/DBFunc.js:606-627 | null iff the code is falsy; count 1 iff a row holds it, and only that row goes; 0 with no change otherwise |
| Transitions.WithoutCode | SubscriptionService/DBFunc.js:826-847 | deleting by code touches only the code table of its kind |
| Transitions.UpdateScheduledReminderSpec | SubscriptionService/DBFunc.js:1054-1082 | moves exactly that reminder to now + num_days and returns the date; null with no change when the subscriber, reminder or frequency is missing |
| DBFunc.MergeColumns | SubscriptionService/DBFunc.js:495-548 | the seven conditional column UPDATEs yield Merge |
| DBFunc.Store.constructor | SubscriptionService/DBFunc.js:15-21 | an empty valid store over a frequency table, the id sequence at 1 |
| DBFunc.Store.Subscribe | SubscriptionService/DBFunc.js:59-108 | the statements of subscribe, inside BEGIN/COMMIT/ROLLBACK, do what SubscribeSpec says, including its success iff generation succeeds; the sequence advances even on rollback |
| DBFunc.Store.ConfirmSubscriber | SubscriptionService/DBFunc.js:112-157 | the transaction does what ConfirmSubscriberSpec says |
| DBFunc.Store.UpdateConfirmedSubscriber | SubscriptionService/DBFunc.js:160-189 | the generation and insert do what UpdateConfirmedSubscriberSpec says, including its success iff generation succeeds |
| DBFunc.Store.UpdatePendingSubscriber | SubscriptionService/DBFunc.js:192-239 | the transaction does what UpdatePendingSubscriberSpec says, including its success iff generation succeeds |
| DBFunc.Store.ConfirmPendingUpdate | SubscriptionService/DBFunc.js:242-281 | the transaction does what ConfirmPendingUpdateSpec says |
| DBFunc.Store.UpdateSubMeasurements | SubscriptionService/DBFunc.js:477-558 | the column-by-column transaction does what UpdateSubMeasurementsSpec says |
| DBFunc.Store.NewUpdateCode | SubscriptionService/DBFunc.js:711-748 | does what NewUpdateCodeSpec says, including its success iff generation succeeds |
| DBFunc.Store.InsertUnsubscribeCode | SubscriptionService/DBFunc.js:851-880 | does what InsertUnsubscribeCodeSpec says, including its success iff generation succeeds |
| DBFunc.Store.DeleteSubscriberById | SubscriptionService/DBFunc.js:400-421 | does what DeleteSubscriberByIdSpec says |
| DBFunc.Store.DeleteUpdateCodeBySubId | SubscriptionService/DBFunc.js:804-825 | does what DeleteUpdateCodeBySubIdSpec says |
| DBFunc.Store.DeleteUpdateCodeByCode | SubscriptionService/DBFunc.js:826-847 | does what DeleteByCodeSpec says for update_code |
| DBFunc.Store.DeleteUnsubscribeCodeByCode | SubscriptionService/DBFunc.js:936-957 | does what DeleteByCodeSpec says for unsubscribe_code |
| DBFunc.Store.DeletePendingUpdateByCode | SubscriptionService/DBFunc.js:606-627 | does what DeleteByCodeSpec says for pending_update |
| DBFunc.Store.UpdateScheduledReminder | SubscriptionService/DBFunc.js:1054-1082 | does what UpdateScheduledReminderSpec says |
| Lifecycle.SubscribeThenConfirm | SubscriptionService/DBFunc.js:59-157 | a new subscriber's confirmation succeeds: confirmed, no confirmation code, a reminder, measurements unchanged |
| Lifecycle.SubscribeSucceedsIff | SubscriptionService/DBFunc.js:59-108 | a well-formed signup with a known frequency and a new email succeeds iff one of the code draws is free; the new subscriber is then the one holding that email |
| Lifecycle.StageSucceedsIff | SubscriptionService/DBFunc.js:160-189 | an existing subscriber with nothing staged gets the values staged iff one of the code draws is free |
| Lifecycle.ResubmitSucceedsIff | SubscriptionService/DBFunc.js:192-239 | an existing subscriber's resubmission succeeds iff one of the code draws is free, and then stores the submitted values |
| Lifecycle.UpdateCodeIssuedIff | SubscriptionService/DBFunc.js:711-748 | an existing subscriber gets a fresh update code iff one of the draws is free, whether or not it had one |
| Lifecycle.UnsubscribeCodeIssuedIff | SubscriptionService/DBFunc.js:851-880 | an existing subscriber without an unsubscribe code gets a fresh one iff one of the draws is free |
| Lifecycle.ConfirmOnlyOnce | SubscriptionService/DBFunc.js:112-157 | a second confirmSubscriber on the same id returns false and changes nothing |
| Lifecycle.ConfirmAppliesStage | SubscriptionService/DBFunc.js:160-281 | staging then confirming yields the original store with exactly the staged measurements, stamped at confirmation |
| Lifecycle.RejectUndoesStage | SubscriptionService/DBFunc.js:160-189 | deleting the staged row by its code restores the store before staging and reports 1 |
| Lifecycle.WithdrawUndoesUnsubscribeCode | SubscriptionService/DBFunc.js:851-880 | deleting a new unsubscribe code by its code restores the store and reports 1 |
| Lifecycle.DeleteOnlyOnce | SubscriptionService/DBFunc.js:400-421 | a second deleteSubscriberById reports 0 (null for a falsy id) and changes nothing |
| Validate.IsValidId | controller/Validate.js:13-19 | false for a falsy id; otherwise true iff a subscriber has the id |
| Validate.OwnerFound | controller/Validate.js:27-45 | the lookup by code finds a row iff some row of the table holds the code |
| Validate.IsValidCode | controller/Validate.js:22-46 | true iff the code is truthy, the table is one of the four and a row of it holds the code |
| Validate.IsValidConfirmationCode | controller/Validate.js:47-50 | isValidCode fixed to confirmation_code |
| Validate.IsValidUnsubCode | controller/Validate.js:51-54 | isValidCode fixed to unsubscribe_code |
| Validate.IsValidUpdateCode | controller/Validate.js:55-58 | isValidCode fixed to update_code |
| Validate.IsValidPendingCode | controller/Validate.js:59-62 | isValidCode fixed to pending_update |
| Validate.CodeBelongsToSubId | controller/Validate.js:65-93 | true iff code and id are truthy, the table is known and the id's row in it holds the code |
| Validate.ConfirmationCodeBelongsToSubId | controller/Validate.js:94-97 | codeBelongsToSubId fixed to confirmation_code |
| Validate.UpdateCodeBelongsToSubId | controller/Validate.js:98-101 | codeBelongsToSubId fixed to update_code |
| Validate.UnsubscribeCodeBelongsToSubId | controller/Validate.js:102-105 | codeBelongsToSubId fixed to unsubscribe_code |
| Validate.PendingCodeBelongsToSubId | controller/Validate.js:106-109 | codeBelongsToSubId fixed to pending_update |
| Validate.BelongsImpliesValid | controller/Validate.js:22-93 | a code that belongs to a subscriber is a valid code of the same table |
| Validate.ValidCodeHasOneOwner | controller/Validate.js:22-93 | a valid code belongs to exactly one subscriber, and that subscriber exists |
| FormatConverter.JsRem | controller/FormatConverter.js:36 | JavaScript `%`: the remainder takes the sign of the dividend |
| FormatConverter.ToDBFormat | controller/FormatConverter.js:5-28 | imperial succeeds iff feet, lbs truthy and inches present (0 allowed), height = feet·12 + inches, weight = lbs; metric iff cm, kg truthy; unknown system fails; other fields copied |
| FormatConverter.ToInputFormat | controller/FormatConverter.js:31-48 | imperial: feet = ⌊h/12⌋, inches = h % 12, lbs = weight; metric: cm, kg; unknown system fails |
| FormatConverter.ToDBFormatAsWritten | controller/FormatConverter.js:5-28 | throws exactly where ToDBFormat fails, otherwise returns the same |
| FormatConverter.ToInputFormatAsWritten | controller/FormatConverter.js:31-48 | throws exactly for an unknown system, otherwise returns the same as ToInputFormat |
| FormatConverter.MissingInchesThrows | controller/FormatConverter.js:10-11 | an imperial form without inches throws |
| FormatConverter.ImperialRoundTrip | controller/FormatConverter.js:9-14 | feet ≥ 1 and 0 ≤ inches < 12 come back unchanged from DB format |
| FormatConverter.MetricRoundTrip | controller/FormatConverter.js:16-21 | cm and kg come back unchanged from DB format |
| FormatConverter.StoredImperialRoundTrip | controller/FormatConverter.js:34-37 | a stored imperial row of at least a foot converts to input and back unchanged |
| FormatConverter.ShortImperialRejected | controller/FormatConverter.js:10-35 | a stored imperial height under a foot does not convert back |
| UpdateController.ConfirmUpdate | controller/UpdateController.js:7-14 | false for a falsy id; otherwise exactly confirmPendingUpdate's result and effect |
| UpdateController.RejectUpdate | controller/UpdateController.js:17-24 | false (as None, the only way None arises) for a falsy code; otherwise deletePendingUpdateByCode's count (0 or 1); measurements untouched |
| UpdateController.RowAsUser | controller/UpdateController.js:28-33 | a stored row viewed as the converters' object keeps its measurements |
| UpdateController.GetPendingMeasurements | controller/UpdateController.js:27-36 | the staged values in the form's units; nothing when none are staged; a staged imperial or metric row always reads back, in its own system |
| UpdateController.GetSubscriberMeasurements | controller/UpdateController.js:39-48 | the stored values in the form's units; nothing when there is no row |
| UpdateController.GetPendingMeasurementsAsWritten | controller/UpdateController.js:27-36 | throws exactly where the corrected getter yields nothing |
| UpdateController.GetSubscriberMeasurementsAsWritten | controller/UpdateController.js:39-48 | throws exactly where the corrected getter yields nothing |
| UpdateController.MissingRowThrows | controller/UpdateController.js:40-42 | an id without measurements throws instead of yielding null |
| UpdateController.StoredMeasurementsReadBack | controller/UpdateController.js:39-48 | a stored imperial or metric row always reads back, in its own system |
| UpdateController.UpdateMeasurements | controller/UpdateController.js:52-65 | false with no change on bad input or failed conversion (with the corrected converter of the first Findings row; as written, line 57 throws there); otherwise update then delete the update code, true iff the update found a row |
| UpdateController.UpdateMeasurementsEffect | controller/UpdateController.js:52-65 | afterwards the update code is gone whatever happened, and the merged values are stored iff the subscriber has measurements; nothing else changes |
| UnsubscribeController.Controller.CreateUnsubscribeRequest | controller/UnsubscribeController.js:18-38 | false, nothing queued, for an unknown or unconfirmed email; false when insertUnsubscribeCode fails; otherwise exactly one request with the new code is queued |
| UnsubscribeController.Controller.Unsubscribe | controller/UnsubscribeController.js:41-48 | false for a falsy id; otherwise true iff deleteSubscriberById removed a subscriber |
| UnsubscribeController.QueuedRequestIsSendable | controller/UnsubscribeController.js:30-35 | a queued request carries the subscriber's live unsubscribe code and passes the sender's checks |
| UnsubscribeController.SecondRequestRefused | controller/UnsubscribeController.js:25-28 | a second request while a code is pending fails with no change |
| Send.Drained | controller/handlers/Send.js:11-19 | at most one email per request |
| Send.RequestQueue.Pop | controller/handlers/Send.js:12 | pop returns the last request and removes it |
| Send.Drain | controller/handlers/Send.js:4-20 | a missing array returns at once; otherwise the array ends empty and the emails sent are Drained's |
| Send.DrainedStep | controller/handlers/Send.js:12-18 | one pop sends the last request's email first when it is well formed |
| Send.SendConfirmationEmail | controller/handlers/Send.js:4-20 | drains with the confirmation category and confirmationCode |
| Send.SendPendingEmail | controller/handlers/Send.js:22-38 | drains with the update-confirmation category and pendingCode |
| Send.SendUnsubscribeEmail | controller/handlers/Send.js:41-57 | drains with the unsubscribe category and unsubscribeCode |
| Send.DrainedLifo | controller/handlers/Send.js:11-12 | the emails of later requests are sent before those of earlier ones |
| Send.DrainedExactly | controller/handlers/Send.js:13-18 | every well-formed request is mailed and every email comes from a well-formed request |
| Send.DrainedCount | controller/handlers/Send.js:11-19 | one email per well-formed request |
| Send.SendableAt | controller/handlers/Send.js:14-16 | the positions of the well-formed requests |
| Scheduler.Issue | controller/handlers/Scheduler.js:33-40 | an existing update code is reused unchanged; without one, the result is exactly newUpdateCode's; none means no change; only that subscriber's update code can change |
| Scheduler.RemindFrame | controller/handlers/Scheduler.js:25-61 | a reminder touches only its own update code and reminder; one skipped before the send changes nothing |
| Scheduler.RemindMail | controller/handlers/Scheduler.js:33-43 | the email goes to the subscriber's address with the update code it holds afterwards: the existing one, else a fresh one |
| Scheduler.NewcomerReminded | controller/handlers/Scheduler.js:25-46 | a subscriber without an update code is emailed its reminder, with the freshly generated code it now holds, whenever one of newUpdateCode's draws is free |
| Scheduler.RescheduleAfterSend | controller/handlers/Scheduler.js:43-50 | the reminder moves only after a successful send, and then to now + num_days |
| Scheduler.Remind | controller/handlers/Scheduler.js:23-61 | the loop body with its continues does what RemindOne says |
| Scheduler.RemindKeepsCode | controller/handlers/Scheduler.js:33-36 | an update code held survives any reminder |
| Scheduler.RunFrame | controller/handlers/Scheduler.js:22-63 | the run changes only update codes and reminders, and reminders not in the run keep their date |
| Scheduler.RunKeepsCode | controller/handlers/Scheduler.js:22-63 | update codes held at the start are unchanged at the end |
| Scheduler.RunMailsLive | controller/handlers/Scheduler.js:22-63 | every reminder email goes to a listed subscriber and carries the code it holds at the end |
| Scheduler.LastHolderReached | controller/handlers/Scheduler.js:22-63 | the last listed code holder gets its reminder whatever happened before |
| Scheduler.RunReachesHolders | controller/handlers/Scheduler.js:22-63 | no failure stops the run: every listed subscriber holding a code gets its reminder with that code |
| Scheduler.RemindEach | controller/handlers/Scheduler.js:22-63 | the for…of loop does what RemindAll says |
| Scheduler.ScheduleReminders | controller/handlers/Scheduler.js:8-64 | nothing happens without reminders today; otherwise today's reminders are handled in order as RemindAll says |
| Delete.ExpiredIds | controller/handlers/Delete.js:17 | the subscribers whose row has expired |
| Delete.ReapOne | controller/handlers/Delete.js:19-20 | a record still present is deleted and reports 1; a signup code takes its subscriber, the others only their row |
| Delete.DeleteRecord | controller/handlers/Delete.js:7-20 | by sub_id on confirmation_code, by code on the others |
| Delete.DeleteEach | controller/handlers/Delete.js:18-24 | every record is attempted and each delete counts |
| Delete.DeleteExpired | controller/handlers/Delete.js:14-24 | numDeleted is the number of expired records; every expired row is gone and no unexpired row touched; an expired signup takes its subscriber and every row referring to it, leaving other subscribers' rows as they were; other kinds change nothing else; frequency never changes |
| SubscriptionApi.Admit | SubscriptionService/SubscriptionAPI.js:30-39 | a user is queued iff it has every required field and converts; the queued user is convertToDBFormat's: height = feet·12 + inches and weight = lbs for imperial, height = cm and weight = kg for metric; nothing else changes |
| SubscriptionApi.AdmittedUserSubscribable | SubscriptionService/SubscriptionAPI.js:30-44 | a queued user with positive feet and nonnegative inches, or truthy cm, passes subscribe's guard |
| SubscriptionApi.NegativeFeetAdmitted | SubscriptionService/SubscriptionAPI.js:32-41 | feet −1, inches 12 is queued yet refused by subscribe |
| SubscriptionApi.HandleOne | SubscriptionService/SubscriptionAPI.js:175-216 | one pass: confirmed subscriber → updateConfirmedSubscriber, pending → updatePendingSubscriber, absent → subscribe |
| SubscriptionApi.HandleOneDispatch | SubscriptionService/SubscriptionAPI.js:178-216 | an email is scheduled iff the store changed; it names the subscriber holding the user's email; it is an update confirmation iff the subscriber was confirmed, whose measurements stay |
| SubscriptionApi.HandleOneKeepsSubscribers | SubscriptionService/SubscriptionAPI.js:178-212 | no pass removes a subscriber or changes its email |
| SubscriptionApi.RunSchedules | SubscriptionService/SubscriptionAPI.js:174-217 | queued emails are kept, at most one is added per user, each for one of the users and naming the subscriber holding its email at the end |
| SubscriptionApi.RunKeepsSubscribers | SubscriptionService/SubscriptionAPI.js:174-217 | a run removes no subscriber and changes no email |
| SubscriptionApi.LastQueuedHandledFirst | SubscriptionService/SubscriptionAPI.js:174-175 | the user queued last is handled first |
| SubscriptionApi.ApiKindOf | SubscriptionService/SubscriptionAPI.js:246-267 | this layer knows the confirmation, unsubscribe and update tables, not pending_update |
| SubscriptionApi.IsValidCode | SubscriptionService/SubscriptionAPI.js:246-267 | true iff the code is truthy, the table is one of the three and a row holds the code |
| SubscriptionApi.CodeBelongsToSubId | SubscriptionService/SubscriptionAPI.js:282-307 | true iff the arguments are truthy, the table is one of the three and the id's row holds the code |
| SubscriptionApi.ChecksAgreeWithValidate | SubscriptionService/SubscriptionAPI.js:246-307 | both checks agree with controller/Validate.js on every table but pending_update |
| SubscriptionApi.SubscriptionService.constructor | SubscriptionService/SubscriptionAPI.js:22-24 | the three queues start empty |
| SubscriptionApi.SubscriptionService.AddUser | SubscriptionService/SubscriptionAPI.js:30-45 | the error message with nothing queued, or exactly one user pushed, converted as Admit states, and the confirmation message |
| SubscriptionApi.SubscriptionService.HandleUser | SubscriptionService/SubscriptionAPI.js:178-212 | the store calls of one pass do what HandleOne says |
| SubscriptionApi.SubscriptionService.HandleNext | SubscriptionService/SubscriptionAPI.js:175-216 | pops the last user and pushes the email HandleOne schedules |
| SubscriptionApi.SubscriptionService.HandleUsers | SubscriptionService/SubscriptionAPI.js:172-218 | the queue ends empty; store and scheduled emails are those of Run |
| SubscriptionApi.SubscriptionService.SendEmails | SubscriptionService/SubscriptionAPI.js:221-233 | the scheduled emails end empty, the other queues untouched |
| SubscriptionApi.SubscriptionService.CreateUnsubscribeRequest | SubscriptionService/SubscriptionAPI.js:61-80 | false, no change, for an unknown or unconfirmed email; otherwise insertUnsubscribeCode's result, queuing one request on success |

## Left out

- HTTP routes, the browser pages, and CalCalc.js's floating-point BMR/TDEE arithmetic are not part of this model.
- Email transport is not modelled. sendEmail is a parameter: `delivered(i)` in the reminder run. The confirmation, pending and unsubscribe senders return the emails they would send.
- `setInterval` timers are not modelled: each handler is one invocation.
- Log writes are not modelled: Delete.js's log line and Scheduler.js's `fs.appendFile`.
- `typeof` checks are not modelled: a non-number id or code is outside the model's types.
- `Math.random` is not modelled: its values are the `Random` parameter of each call.
- Database failures are not modelled: connection errors, query errors, and a null result from the expired-records select (on which the for…of would throw). The pool, `dotenv` and SQL text are left out too.
- Concurrency is not modelled: between addUser and handleUsers, between the pool connection generateCode uses and the transaction, and between handlers. Each call runs alone.
- `Store.nextId` is not rewound by a rollback. The model does not pin down which ids a failed subscribe consumes beyond that.
- SubscriptionAPI.js's `getSubscriberMeasurements`, `updateMeasurements`, `confirmUser`, `unsubscribe` and `isValidId`, and its per-table wrappers, repeat code modelled once in UpdateController, UnsubscribeController and Validate.
- SubscriptionAPI.js's `convertToDBFormat` is the same code as FormatConverter.js's (there ERROR is declared as null), so `SubscriptionApi.Admit` uses `FormatConverter.ToDBFormat`.
- SubscriptionApi.SubscriptionService.SendEmails: sending is unwritten in the source; only the pops are modelled.
- SubscriptionApi.SubscriptionService.HandleUsers: one `now` serves the whole run.
- insertEmailSent, updateSubscriberEmail and updateSubscriberFreq are not modelled: no core caller uses them.
- The exact text of generateCode's floating-point draw is not modelled: `Math.random() * 90000000 + 10000000` is taken in exact real arithmetic.
- Transitions.UpdateScheduledReminderSpec: reschedules to now + num_days, as the SQL does, not to the old date + num_days.
- Row order without ORDER BY is fixed as ascending subscriber id.
- Schema assumptions. No DDL ships with the source; the model assumes the constraints that the queries and the email texts imply:
  - `subscriber.email` is UNIQUE, so subscribe with a known email fails and rolls back (`Transitions.SubscribeSpec`);
  - `subscriber.freq_id` is NOT NULL, so an unknown frequency makes subscribe roll back;
  - every table referring to `subscriber` has a foreign key with ON DELETE CASCADE (`Transitions.Cascade`). Without it, deleteSubscriberById would fail and return null, and an insert for an unknown id would fail;
  - `sub_id` is UNIQUE in each code table, and `code` is UNIQUE in each;
  - `code` is NOT NULL in each code table. updatePendingSubscriber and insertUnsubscribeCode insert the generated code without checking it (DBFunc.js lines 222-227 and 856-862). A null code therefore makes the insert fail: the first rolls back and returns false, the second returns null. Without the constraint they would commit a row with a null code;
  - `date_created` of a code row and `date_last_updated` of a measurements row default to the current time on INSERT; the model stamps them with `now`;
  - `date_expires` defaults to 7 days for confirmation and update codes and to 30 minutes for unsubscribe and pending codes, as the email texts announce; the INSERTs at DBFunc.js lines 93, 175, 224, 725 and 860 do not set it (only the UPDATE of an existing update code at line 731 writes 7 days out).

## Findings

| source | as written | input that shows it | evidently intended | confidence | as-written member | corrected member |
|---|---|---|---|---|---|---|
| controller/FormatConverter.js:11 | every failure path returns `ERROR`, a name the module never declares, so it throws a ReferenceError | an imperial form with feet 5, lbs 150 and no inches | return null, so that updateMeasurements' `if (!dbMeasurements)` returns false | high; not executed | FormatConverter.MissingInchesThrows | FormatConverter.ToDBFormat |
| controller/UpdateController.js:42 | the getters return the undeclared `ERROR` when no row is found, so they throw | getSubscriberMeasurements for an id without a measurements row | return null | high; not executed | UpdateController.MissingRowThrows | UpdateController.GetSubscriberMeasurements |
