# Background automation: a verified model

The program watches connected Google accounts. A worker runs in cycles; in each cycle it starts one goroutine per
active account, gets a valid access token for it, and lets the calendar rules create reminder events. A mail
processor does the same for messages. This project models that engine over its tables and the services it calls
(calendar, mailbox, token endpoint), lets calls fail and users act in between, and proves what holds over whole runs.

How the parts fit together:

- `ReminderModel` is the calendar engine as a state machine over one account's calendar, rules and log. A run is any
  list of worker calls (each going well, failing, or taking effect while reporting an error) and user acts; a set of
  faults says what may happen. `ReminderSeparation`, `ReminderOnce`, `ReminderBound`, `ReminderCycle`, `ReminderSound`
  and `ReminderTime` hold the theorems, `ReminderWitness` the concrete runs that show where they stop.
- `CalendarProcessor` is the processor with its loops, early continues and calls, proved to take only steps of that
  machine and, without faults, to compute exactly the cycle the theorems speak about.
- `WorkerFanout` has all accounts over shared tables, with any schedule of the goroutines and of users' acts.
- `TokenCrypto`, `AccountStore` and `TokenRuns` are the token columns, the store that changes them, and every
  interleaving of logins, refreshes, revocations and deletions. One call for a valid token is the same in all three
  places it occurs: the store's method, the steps of the interleavings, and the first step of a goroutine.
- `Decimal`, `GmailSync`, `GmailCursor`, `GmailTable`, `GmailRules` and `GmailProcessor` are the mail engine: the history
  cursor, the message table, the rules on one message, and the processor that works on them.
- `Addresses`, `Base64`, `MailText` and `MimeTree` are the mail helpers; `Text` and `Wrappers` are shared.

What the code does not keep, with the condition under which it does:

- Two guards keep a reminder from being made twice for one rule and event, and either suffices
  (`ReminderOnce.AtMostOnceExactly`). The log does unless its reads or writes fail, an insertion takes effect but
  reports an error, or a rule is deleted while a running cycle still holds it: deleting a rule sets the `rule_id` of
  its log rows to NULL and makes the foreign key refuse later ones, so its success rows no longer count. The existence
  check does unless it fails, users act (moving the event is enough), or rules ask for reminders that end before they
  start and the calendar accepts those. With a reliable log one insertion too many is also the most there can be
  (`ReminderOnce.AtMostTwice`).
- When users may edit reminders, one can be turned into an event that triggers rules itself
  (`ReminderBound.NoCascadeExactly`), and then the work is not bounded by users' events and rules
  (`ReminderBound.TotalWorkBoundedExactly`).
- A refresh that was under way when the user logged in again may save its own refresh token over the new login's
  (`TokenRuns.LoginKeptExactly`), and a refusal of the old token may mark the new login revoked
  (`TokenRuns.LoginStaysActiveExactly`).
- The body search passes over a part whose data decodes to nothing, which the decoder allows for data made of line
  breaks. A message comes out wrong exactly when its first body is of that kind and the search goes on to one that is
  not (`MimeTree.SearchExactly`).
- The history cursor moves before the messages are handled. A message that cannot be fetched or saved then, or comes
  after one that stops the program, is not asked for again (`GmailTable.PageSavedExactly`).
- Replying to a message without a From header stops the program (`GmailRules.CrashExactly`).
- docs/ARCHITECTURE.md:214 says logs prevent duplicate mail actions. The code has no such check: a rule is carried
  out as often as its message comes in (`GmailTable.ActsExactly`).

Assumptions: a calendar listing is in order of start time, ties in order of insertion; the calendar accepts any
insertion, or refuses it as a failed call (whether it accepts reminders that end before they start is a matter of the
fault set); event ids in one calendar are distinct and, like rule and account ids, never reused; an event's start and
end are present; message payloads are present; opening an AES-GCM ciphertext undoes sealing (section 7 of NIST SP
800-38D). Parameters stored as JSON are decoded values with a malformed case. Integers are seconds or nanoseconds.

## Model

| member | source | states |
|---|---|---|
| ReminderTime.MinutesExactIff | internal/worker/calendar/calendar.go:161-171 | Converting minutes to a 64-bit duration is exact for \|minutes\| up to 153722867 and for no other value |
| ReminderTime.SlotStart | internal/worker/calendar/calendar.go:161-165 | In that range the reminder starts the configured minutes from the event's start, an hour before when none are given, cut to whole seconds |
| ReminderTime.SlotLength | internal/worker/calendar/calendar.go:165-171 | In that range the reminder's start and end, both cut to whole seconds, are exactly the configured minutes apart, five when none are given |
| ReminderTime.SlotWraps | internal/worker/calendar/calendar.go:161-171 | For all offsets and durations, start and end are the configured minutes away as 64-bit nanosecond counts, wrapped around where too large, each rounded down to the second |
| ReminderTime.OwnWindowIff | internal/worker/calendar/calendar.go:275-296 | For a configured duration within that range, positive or negative, the existence check finds the reminder made for the same event and rule if and only if the duration is not negative |
| ReminderModel.ReminderCarriesPrefix | internal/worker/calendar/calendar.go:84-87 | Every reminder the worker makes carries the description prefix by which it is later passed over |
| ReminderModel.Visible | internal/worker/calendar/calendar.go:65-71 | A listing shows exactly the events that overlap the window, both bounds exclusive |
| ReminderSound.ListingShows | internal/worker/calendar/calendar.go:60-71 | The listing shows events between 1970 and 2100 only, in order of start time, and all of them unless there are more than 2500; then none shown starts later than one left out |
| ReminderSound.CalendarStaysSorted | internal/worker/calendar/calendar.go:65-71 | The calendar stays in order of start time over every run |
| ReminderSound.VisitsInOrder | internal/worker/calendar/calendar.go:83-89 | The worker goes through the listed events in order, each with the rules in their order, and passes over reminders |
| ReminderSound.InsertionsWereAskedFor | internal/worker/calendar/calendar.go:83-159 | Over all runs, whatever fails and whatever users do, an insertion is for an event that is no reminder and a rule that was active when read, with decoding parameters and a title, its title and location conditions met |
| ReminderSound.InactiveDoNotMatter | internal/worker/calendar/calendar.go:90-92 | Without all inactive rules a cycle leaves the same calendar, log and insertions |
| ReminderSound.NewRuleActs | internal/store/rule/rule.go:69-90 | A new rule is active at once: the next fault-free cycle deals with every listed event that meets its conditions |
| ReminderSound.SwitchedOff | internal/store/rule/rule.go:185-209 | Switching twice changes nothing; an active rule switched off makes no more insertions |
| ReminderSound.UpdateTakesHold | internal/store/rule/rule.go:167-182 | An update sets name and parameters of its rule, keeps the switch, and leaves other rules alone |
| ReminderSound.LogTellsTheTruth | internal/worker/calendar/calendar.go:175-259 | Over all runs every success row names an insertion made for its event and rule; other rows name none |
| ReminderSound.RowsNameRules | db/migrations/000001_initial_schema.up.sql:72-72 | Over all runs a row names an existing rule or none |
| ReminderSound.EveryInsertionIsLogged | internal/worker/calendar/calendar.go:238-259 | With a reliable log every insertion for a rule that still exists has its success row or is just being logged |
| ReminderSound.OutcomeIsLogged | internal/worker/calendar/calendar.go:175-259 | A visit ends with one row: skipped when an event is in the way, success with the new id when the insertion goes well, failure when it reports an error |
| ReminderOnce.DeletionUnlogs | db/migrations/000001_initial_schema.up.sql:72-72 | After deleting a rule the log search answers yes for exactly the other rules it did before; success rows of the deleted rule count for nothing |
| ReminderSeparation.SeparationStep | internal/worker/calendar/calendar.go:161-216 | Every worker call and user act keeps worker-made reminders of one title a minute apart, and keeps the slot free between the existence check and the insertion |
| ReminderSeparation.SeparationExactly | internal/worker/calendar/calendar.go:175-236 | Over all runs and rules, two worker-made reminders of one title are at least 60 seconds apart, even if every log write fails, if and only if the existence check does not fail and reminders are not edited |
| ReminderSeparation.NoRepeatWithoutLog | internal/worker/calendar/calendar.go:133-200 | With the existence check working and reminders neither edited nor deleted, no reminder of one title and time is inserted twice for a non-negative duration although every success row may be lost |
| ReminderSeparation.NoRepeatWithoutUsers | internal/worker/calendar/calendar.go:161-216 | When users do nothing and the existence check works, rules of non-negative durations lead to one insertion per rule and event at most, whatever happens to the log |
| ReminderWitness.TwinReminders | internal/worker/calendar/calendar.go:285-288 | A run with a failing existence check that makes two reminders of one title at the same time |
| ReminderWitness.RetitledReminder | internal/worker/calendar/calendar.go:290-294 | A run in which a retitled reminder ends up on top of another one |
| ReminderWitness.TwoInsertsOfOnePair | internal/worker/calendar/calendar.go:133-200 | For every fault set under which both guards can be got round, a run that inserts twice for one rule and event; an ordinary five-minute reminder does when users may move the event or the existence check may fail |
| ReminderWitness.CascadeAfterEdit | internal/worker/calendar/calendar.go:84-87 | A run in which a reminder, edited by a user, gets a reminder of its own |
| ReminderOnce.OnceStep | internal/worker/calendar/calendar.go:133-259 | Every worker call and user act keeps the link between insertions made, success rows, and the pairs the cycle still holds |
| ReminderOnce.AtMostTwice | db/migrations/000001_initial_schema.up.sql:69-78 | With a reliable log, at most one insertion per event for a rule that still exists and at most two for a deleted one, whatever users do |
| ReminderOnce.AtMostOnceExactly | internal/worker/calendar/calendar.go:133-216 | At most one insertion per rule and event over all runs if and only if the log can be relied on (its calls do not fail, no insertion takes effect while reporting an error, no rule is deleted while a cycle holds it) or the existence check can (it does not fail, users do not act, no durations are negative or overflow) |
| ReminderBound.OriginsRun | internal/worker/calendar/calendar.go:84-87 | Over any run in which users do not edit reminders, all events in the calendar are users' or marked reminders, and every insertion is for a user's event and rule |
| ReminderBound.NoCascadeExactly | internal/worker/calendar/calendar.go:84-87 | Over all runs, no insertion is made for an event the worker itself created if and only if users do not edit reminders |
| ReminderBound.TotalWorkBoundedExactly | internal/worker/calendar/calendar.go:83-269 | All insertions of a run, however long, are at most (user events) times (user rules), over all runs if and only if one of the two guards can be relied on and users do not edit reminders |
| ReminderCycle.CalmStep | internal/worker/calendar/calendar.go:83-269 | The call-by-call machine and the pair-by-pair account of a fault-free cycle end in the same state |
| ReminderCycle.CycleComplete | internal/worker/calendar/calendar.go:83-269 | After a fault-free cycle every listed event that is no reminder has, for every active rule whose parameters decode, that names a title, and whose title and location conditions it meets, a success row or an event of that title within a minute of the reminder's time; malformed rules stop nothing |
| ReminderCycle.CycleSound | internal/worker/calendar/calendar.go:83-269 | Every insertion of a cycle is for a listed event that is no reminder and an existing active rule whose conditions it meets, none of which was covered before; the calendar then has the reminder, with its title, text and times |
| ReminderCycle.OnlyRemindersAdded | internal/worker/calendar/calendar.go:203-216 | Whatever a cycle adds to the calendar is the reminder of one of its insertions |
| ReminderCycle.InsertPushesOut | internal/worker/calendar/calendar.go:65-71 | Inserting anything can only push other events out of the first n visible ones |
| ReminderCycle.ListingOnlyLoses | internal/worker/calendar/calendar.go:60-71 | After a cycle the listing, cut at 2500, shows no user event it did not show before |
| ReminderCycle.SecondCycleIdle | internal/worker/calendar/calendar.go:60-269 | A second fault-free cycle inserts nothing and adds only skipped rows, also when the listing is cut |
| CalendarProcessor.CalendarProcessor.Guarantees | internal/worker/calendar/calendar.go:36-272 | The separation and insertion-count results hold of the processor object after any use |
| CalendarProcessor.CalendarProcessor.GetRulesForAccount | internal/worker/calendar/calendar.go:42-50 | Any number of user acts and then exactly one step of the machine, returning the rules as they are then, or an error exactly when the read fails |
| CalendarProcessor.CalendarProcessor.ReadListing | internal/worker/calendar/calendar.go:65-71 | The bounded listing loop returns the first 2500 visible events in order |
| CalendarProcessor.CalendarProcessor.ListEvents | internal/worker/calendar/calendar.go:65-79 | Any number of user acts and then exactly one step of the machine, returning the listing as it is then, or an error exactly when the call fails |
| CalendarProcessor.CalendarProcessor.FindLog | internal/store/log/log.go:72-92 | The log search finds a row exactly when a success row for this rule and event exists; failure and skipped rows do not count |
| CalendarProcessor.CalendarProcessor.HasLogForTrigger | internal/worker/calendar/calendar.go:133-140 | One step of the machine; answers yes exactly when the read goes well and a success row is there then, so a failed one counts as not found |
| CalendarProcessor.CalendarProcessor.FindTitle | internal/worker/calendar/calendar.go:290-296 | The title search answers yes exactly when an event of that title lies in the window |
| CalendarProcessor.CalendarProcessor.EventExists | internal/worker/calendar/calendar.go:275-297 | One step of the machine; answers yes exactly when the call goes well and an event of that title lies within a minute to either side, at whole seconds; a failed call counts as not found |
| CalendarProcessor.CalendarProcessor.InsertEvent | internal/worker/calendar/calendar.go:203-236 | One step of the machine; the calendar then has exactly the reminder more unless the call fails, and its id is reported unless an error is |
| CalendarProcessor.CalendarProcessor.CreateAutomationLog | internal/store/log/log.go:51-69 | One step of the machine; the log has the row more unless the write fails or the rule is gone by then |
| CalendarProcessor.CalendarProcessor.MatchTrigger | internal/worker/calendar/calendar.go:100-131 | The match flags and loops decide the declarative trigger: title equal or containing, and location containing regardless of case |
| CalendarProcessor.CalendarProcessor.PlaceReminder | internal/worker/calendar/calendar.go:161-200 | From the time arithmetic on: check, then skip and log or go on, as the machine does |
| CalendarProcessor.CalendarProcessor.CreateReminder | internal/worker/calendar/calendar.go:202-259 | Insert and log success or failure as the machine does |
| CalendarProcessor.CalendarProcessor.VisitPair | internal/worker/calendar/calendar.go:89-260 | One rule on one event goes through exactly the checks of the machine, in order |
| CalendarProcessor.CalendarProcessor.VisitEvent | internal/worker/calendar/calendar.go:83-268 | The inner loop visits the rules of one event in order |
| CalendarProcessor.CalendarProcessor.VisitEvents | internal/worker/calendar/calendar.go:83-269 | The outer loop ends where the machine does |
| CalendarProcessor.CalendarProcessor.ProcessEvents | internal/worker/calendar/calendar.go:36-272 | A whole cycle, with any faults and users in between, is a permitted run; it returns an error exactly when its last call was a failing read of the rules or the events; without faults the state is exactly that of the pair-by-pair cycle |
| WorkerFanout.StepPartitioned | internal/worker/worker.go:105-175 | A step keeps log rows and held rules with their own account |
| WorkerFanout.LogSearchIsLocal | internal/store/log/log.go:72-92 | The shared log, searched by rule id alone, answers as the account's own rows would |
| WorkerFanout.StepIsLocal | internal/worker/worker.go:105-175 | A step of one goroutine, from its token to its stamp, is its local step for that account and invisible to every other |
| WorkerFanout.ActIsLocal | internal/store/rule/rule.go:167-250 | What a user does to events and rules, rule changes and deletions going by id in the shared tables, is a local act for that account and invisible to every other |
| WorkerFanout.ProjectRun | internal/worker/worker.go:90-99 | In any schedule an account ends where its own turns alone would take it |
| WorkerFanout.InterleavingIsSequential | internal/worker/worker.go:78-102 | Any interleaving of goroutine steps and users' acts leaves every account's row (tokens included), rules, log, calendar and goroutine as the run with the accounts one after the other |
| WorkerFanout.FailuresStayLocal | internal/worker/worker.go:105-175 | Whatever goes differently for other accounts does not change an account's outcome |
| WorkerFanout.GoroutineDoes | internal/worker/worker.go:105-175 | A goroutine run to its end, with any answers: without a valid token calendar, log and stamp stay; with one the calendar part is exactly one whole cycle and then the row is stamped unless that fails; if all goes well calendar, log and insertions are those of the fault-free cycle |
| WorkerFanout.CalmWholeCycle | internal/worker/calendar/calendar.go:36-50 | Calls that all go well, from rest to rest, are the fault-free cycle; without rules the worker makes one call only |
| WorkerFanout.StepProgresses | internal/worker/worker.go:93-99 | Every goroutine step uses up some of a bound, so each goroutine finishes |
| WorkerFanout.Worker.CheckAccounts | internal/worker/worker.go:78-102 | A cycle under any scheduler is a legal schedule of active accounts only, ends with every goroutine finished, and keeps the tables partitioned; without a valid token an account keeps calendar, log and stamp; with one and all calls going well they are those of the fault-free cycle, and the row is stamped |
| TokenCrypto.Encrypt | internal/crypto/crypto.go:13-36 | Fills a nonce byte by byte and puts it in front of what is sealed under it; fails on a wrong key size or too little randomness |
| TokenCrypto.DecryptsExactly | internal/crypto/crypto.go:39-68 | A ciphertext is accepted exactly when it is a 12-byte nonce followed by something that opens under it |
| TokenCrypto.DecryptEncrypted | internal/crypto/crypto.go:13-68 | Decryption undoes encryption for every plaintext and nonce, and the nonce in front is the one drawn |
| AccountStore.LoginReadsBack | internal/store/account/account.go:83-153 | What a login saves decrypts to the token given |
| AccountStore.RefreshReadsBack | internal/store/account/account.go:195-236 | What a refresh saves decrypts to the token given, also without a refresh token, whose column is then left alone |
| AccountStore.EncryptTokens | internal/store/account/account.go:87-98 | Both columns are encrypted; an empty refresh token becomes NULL |
| AccountStore.AccountStore.FindByKey | internal/store/account/account.go:107-107 | The conflict search finds the row with the login key, if there is one |
| AccountStore.AccountStore.UpsertConnectedAccount | internal/store/account/account.go:83-153 | Inserts or overwrites the row with the login key, active again, its tokens reading back; no other row changes; fails leaving the table alone |
| AccountStore.AccountStore.UpdateAccountTokens | internal/store/account/account.go:195-236 | Writes access, expiry and, if given, refresh of one row in a single write; fails without a row |
| AccountStore.AccountStore.UpdateAccountStatus | internal/store/account/account.go:384-395 | Sets the status of one row and nothing else |
| AccountStore.ActiveAccounts | internal/store/account/account.go:255-299 | Exactly the active accounts, each once; used by the store and by the worker's cycle |
| AccountStore.AccountStore.GetValidTokenForAccount | internal/store/account/account.go:435-513 | Succeeds exactly when the stored token is usable or a refreshed one could be saved; a usable one is returned as stored; a refreshed one has the issued access part and expiry, and the issued refresh part or else the stored one, and that is what the row then decrypts to; only this row changes, its status exactly on a revoked grant that can be noted |
| TokenRuns.SoundStep | internal/store/account/account.go:195-236 | Every atomic step of login, refresh, revocation and deletion keeps all stored tokens sound |
| TokenRuns.StoredTokensAreSound | internal/store/account/account.go:489-503 | Under any interleaving every stored refresh token is non-empty and was supplied at a login or issued, and each row's access, refresh and expiry come from one single write |
| TokenRuns.IssuedIsStored | internal/store/account/account.go:489-503 | Under any interleaving, once a refresh the provider answered can be saved, the row decrypts to the issued access part and expiry, and to the issued refresh part or else the one read before |
| TokenRuns.CycleTakesActive | internal/store/account/account.go:255-262 | A worker cycle may take up exactly the accounts active when it starts |
| TokenRuns.RevocationSticks | internal/store/account/account.go:468-485 | Once an account is stored as revoked, no worker cycle starting later takes it up until a new login, whatever API calls refresh meanwhile |
| TokenRuns.StaleRefreshOverwrites | internal/store/account/account.go:466-500 | A run in which a refresh begun before a second login replaces that login's refresh token |
| TokenRuns.NewestLoginKeptExactly | internal/api/auth/auth.go:100-143 | Over all runs, stored refresh tokens always stem from the last login if and only if no login is admitted while a call for its account, other than one about to mark it revoked, holds another refresh token |
| TokenRuns.LoginKeptExactly | internal/store/account/account.go:466-500 | For one login in any sound state: all continuations keep its lineage in place if and only if every call under way for the account, other than one about to mark it revoked, holds the login's refresh token |
| TokenRuns.LoginStaysActiveExactly | internal/store/account/account.go:468-485 | For one login in any sound state: until the next one the account is marked revoked only after a refusal of a token stemming from it, in all continuations, if and only if no call under way can bring about a refusal of another token |
| TokenRuns.CallIsSteps | internal/store/account/account.go:435-513 | The steps of the interleavings, taken without anything in between, are one call of the store's method |
| Decimal.PrintParse | internal/worker/gmail/gmail.go:76-97 | A printed history id reads back exactly when it fits in 64 bits; what reads is a printed id exactly without needless zeros |
| Decimal.ValueOfPrint | internal/worker/gmail/gmail.go:97-97 | The decimal form stands for the number printed |
| GmailCursor.CursorInvariant | internal/worker/gmail/gmail.go:73-117 | From an unset cursor, at any time it is the decimal form of the non-zero id stored last and reads back as that id; the fallback for an unreadable id is unreachable |
| GmailCursor.NeverBackExactly | internal/store/gmail/gmail.go:400-444 | The cursor never goes back over a run if and only if the ids stored never decrease |
| GmailCursor.CursorNeverDecreases | internal/worker/gmail/gmail.go:94-117 | With a provider whose ids never decrease the cursor never goes back |
| GmailTable.UpsertFinds | internal/store/gmail/gmail.go:260-296 | An upsert changes the row of its key only: new, or with thread and time kept |
| GmailTable.UpsertKeys | internal/store/gmail/gmail.go:270-271 | Account and message id stay a unique key |
| GmailTable.FindExactly | internal/store/gmail/gmail.go:270-271 | Looking up a key finds the row that has it, if there is one |
| GmailTable.RowSays | internal/worker/gmail/helpers.go:21-70 | A stored row holds the first header of each name, the trimmed address pieces, the marks its labels stand for, the number of files, and the time to the whole second towards zero |
| GmailTable.UpsertsAgree | internal/store/gmail/gmail.go:260-296 | After any list of saves, duplicates included, thread and time are from the first save of a message and the rest from the last |
| GmailTable.TableAgrees | internal/worker/gmail/processing.go:24-28 | Over any run of cycles the table agrees with the messages saved: one row to a key, first and last columns as above, nothing else changed |
| GmailTable.ActionsHaveRows | internal/worker/gmail/processing.go:24-47 | Over any run every action is on a message that has its row at that time, with exactly the snapshot the rule matched |
| GmailTable.BatchIsHandled | internal/worker/gmail/gmail.go:120-125 | A batch stops exactly at a message a rule would reply to without a sender; otherwise every message that can be saved is, and every matching active rule is carried out on it in order, whatever calls fail |
| GmailTable.BatchStops | internal/worker/gmail/gmail.go:120-125 | Where a message stops the program, all before it is done as it should be, that message is saved, and nothing after it is touched |
| GmailTable.BatchLabels | internal/worker/gmail/actions.go:38-174 | Over a batch, a message ends with a label as the last successful action on it touching that label says, and as before if there is none |
| GmailTable.ActsExactly | internal/worker/gmail/processing.go:30-47 | In a batch that does not stop, a rule is carried out on a message exactly as often as the message comes in and matches, times how often the rule is listed |
| GmailTable.PageSavedExactly | internal/worker/gmail/gmail.go:92-125 | As many rows are written as a history page lists messages if and only if all can be fetched and saved and none but the last stops the program; unless one stops it, each that can be saved is, and its active matching rules follow, in order; the cursor moves on either way, to the page's id |
| GmailTable.RecentSavedExactly | internal/worker/gmail/gmail.go:74-117 | The same for the three ways to fall back on recent messages; the cursor moves only when it could not be read, to the profile's id if that is not zero and can be saved |
| GmailTable.NothingToDo | internal/worker/gmail/gmail.go:40-68 | Without a connection, the rules, an active one, or any listing, a cycle changes nothing |
| GmailTable.KeptInOrder | internal/worker/gmail/sync.go:25-33 | The messages kept of a listing are those fetched, in order |
| GmailTable.ActiveInOrder | internal/worker/gmail/gmail.go:57-62 | The rules used are the active ones, in order |
| GmailRules.AttemptsAreApplicable | internal/worker/gmail/processing.go:30-47 | The rules carried out are those that match the fetched snapshot, in order, whatever earlier actions did |
| GmailRules.MatchesExactly | internal/worker/gmail/processing.go:54-97 | A rule applies exactly to new messages, or when the first From or Subject header holds its pattern whatever the case, or when the message carries its label, or the star |
| GmailRules.CrashExactly | internal/worker/gmail/helpers.go:157-170 | The program stops exactly when a matching rule replies to a message without a sender |
| GmailRules.AttemptsIgnoreOrder | internal/worker/gmail/processing.go:30-97 | Which rules are carried out, and how often, does not depend on their order or on the mailbox |
| GmailRules.UntouchedStays | internal/worker/gmail/actions.go:38-174 | A label that no successful rule touches is as before, and other messages keep all labels |
| GmailRules.SucceedsExactly | internal/worker/gmail/actions.go:15-186 | For each action exactly when it succeeds: which calls must work, which label exist, and a sender to reply to; forwarding always does |
| GmailRules.ActionsDeliver | internal/worker/gmail/actions.go:15-174 | A successful action sets or clears exactly the label it is about, or sends one reply on the thread; other labels, messages and label names stay |
| GmailRules.RunLabels | internal/worker/gmail/actions.go:38-174 | After a message's rules, each label of each message is as the successful actions, one after the other, leave it |
| GmailRules.LastWriterDecides | internal/worker/gmail/actions.go:38-174 | The last successful rule touching a label decides whether the message has it in the end |
| GmailRules.LowestPriorityDecides | internal/store/gmail/gmail.go:140-148 | As rules run by descending priority, the touching rule of lowest priority decides |
| GmailRules.PairCommutes | internal/worker/gmail/actions.go:38-174 | Two actions on different labels give the same mailbox and outcomes in either order, also when they create their labels |
| GmailRules.SwapNeighbours | internal/worker/gmail/processing.go:30-47 | Swapping two neighbouring rules on different labels that do not stop the program, anywhere in the list, gives the same mailbox, the same rules tried and actions done, and the same stop or completion |
| GmailProcessor.GetHeaderValue | internal/worker/gmail/helpers.go:73-80 | The first header of that name, by a search loop |
| MailText.HeaderIsFirst | internal/worker/gmail/helpers.go:73-80 | The value found is that of the first header of the name, and none is found exactly when there is no such header |
| GmailProcessor.HasLabel | internal/worker/gmail/helpers.go:95-102 | Whether the label is among the ids |
| GmailProcessor.CheckRuleMatch | internal/worker/gmail/processing.go:54-97 | Decides exactly the declarative match on the fetched message |
| GmailProcessor.ActiveRules | internal/worker/gmail/gmail.go:58-63 | The active rules, in order |
| GmailProcessor.FetchRecentMessages | internal/worker/gmail/sync.go:15-36 | The messages that could be fetched, in the order listed; fails with the listing only |
| GmailProcessor.ProcessHistoryItems | internal/worker/gmail/sync.go:39-57 | The messages of all history items that could be fetched, in order, duplicates kept |
| GmailProcessor.GmailProcessor.UpdateGmailSyncState | internal/store/gmail/gmail.go:400-418 | Both cursor columns are written together or not at all |
| GmailProcessor.GmailProcessor.StoreGmailMessage | internal/store/gmail/gmail.go:260-296 | The in-place search and overwrite is the upsert |
| GmailProcessor.GmailProcessor.StoreMessageInDB | internal/worker/gmail/helpers.go:21-70 | Saves exactly what the message says about itself |
| GmailProcessor.FindLabel | internal/worker/gmail/helpers.go:122-140 | The search loop finds the first label of that name in the list, and misses exactly when there is none |
| GmailProcessor.DirectoryGrows | internal/worker/gmail/helpers.go:134-139 | A label of a new name at the end of the list is found under that name, and all others as before |
| GmailProcessor.GmailProcessor.GetOrCreateLabel | internal/worker/gmail/helpers.go:122-140 | The first label of that name in the list; one is added at the end only when there is none |
| GmailProcessor.GmailProcessor.GetLabelByName | internal/worker/gmail/helpers.go:142-155 | The first label of that name in the list; fails exactly when the list cannot be read or has none |
| GmailProcessor.GmailProcessor.ExecuteAutoReply | internal/worker/gmail/actions.go:15-36 | Sends the reply on the message's thread; labels stay |
| GmailProcessor.GmailProcessor.ExecuteAddLabel | internal/worker/gmail/actions.go:38-63 | Adds the named label; a label created stays even if adding it then fails |
| GmailProcessor.GmailProcessor.ExecuteRemoveLabel | internal/worker/gmail/actions.go:65-90 | Removes the named label, and fails when there is none |
| GmailProcessor.GmailProcessor.ExecuteRuleAction | internal/worker/gmail/processing.go:100-140 | Every action type has the mailbox effect and outcome the label theorems speak about |
| GmailProcessor.GmailProcessor.ApplyRules | internal/worker/gmail/processing.go:29-48 | The rule loop matches, acts and goes on after failures as the model does, and stops where it does |
| GmailProcessor.GmailProcessor.ProcessMessageAgainstRules | internal/worker/gmail/processing.go:17-51 | Save first, then the rules in order: table, mailbox, trace and crash are those of the model |
| GmailProcessor.GmailProcessor.HandleMessages | internal/worker/gmail/gmail.go:120-125 | The message loop handles the whole batch, up to a crash |
| GmailProcessor.GmailProcessor.ProcessMessages | internal/worker/gmail/gmail.go:37-129 | A cycle with any answers takes cursor, table, mailbox and trace exactly to the model's next state; an error return leaves them unchanged |
| Addresses.ParseEmailAddresses | internal/api/common/common.go:114-130 | Returns the non-empty trimmed pieces in order, for every string |
| Addresses.ExtractRecipients | internal/worker/gmail/helpers.go:82-93 | Trims the pieces in place; leaving out the empty ones gives what the address parser returns |
| Addresses.JoinedAddressesReadBack | internal/api/common/common.go:114-130 | Joining and parsing gives the list back if and only if every element is non-empty, trimmed and free of commas |
| Text.JoinSplit | internal/api/common/common.go:121-121 | Splitting loses nothing: the pieces joined again are the string, and none holds the separator |
| Text.TrimCuts | internal/api/common/common.go:124-124 | Trimming cuts white space off both ends, all of it and nothing else |
| Text.ContainsExactly | internal/worker/calendar/calendar.go:105-110 | A part is contained exactly when the string is that part with something before and after it |
| Text.LowerCaseExactly | internal/worker/calendar/calendar.go:121-123 | Lower-casing turns each capital ASCII letter into its small one and leaves other characters |
| Base64.RoundTrip | internal/api/gmail/gmail.go:263-263 | The URL-safe base64 of any bytes decodes to them (section 5 of RFC 4648) |
| Base64.EmptyExactly | internal/api/common/common.go:140-143 | Data decodes to nothing exactly when it consists of line breaks |
| Base64.AlphabetInOrder | internal/api/common/common.go:140-140 | The digits are capitals, small letters, figures, minus and underscore, in this order (table 2 of RFC 4648) |
| Base64.Examples | internal/api/gmail/gmail.go:263-263 | The examples of section 10 of RFC 4648 |
| MailText.PrintReadsBackExactly | internal/api/gmail/gmail.go:249-261 | A printed message parses back to its headers and body (sections 2.1 and 2.2 of RFC 5322), whatever the body, if and only if no header value holds a line break |
| MailText.RawMessageIsPrinted | internal/api/gmail/gmail.go:356-357 | The raw string is the header lines To, Cc and Bcc if any, Subject and Content-Type, an empty line and the body |
| MailText.SendHeadersAre | internal/api/gmail/gmail.go:244-261 | The headers of a sent message are To, Cc and Bcc if given, Subject and the content type, with the request's values |
| MailText.SentMessageReadsBackExactly | internal/api/gmail/gmail.go:244-263 | Recipients, subject, content type and body of a sent message or draft are recovered exactly, also from a body with empty lines, if and only if recipients and subject hold no line break |
| MailText.EncodedMessageReadsBack | internal/api/gmail/gmail.go:359-359 | The same, both ways, through the encoding handed to the provider |
| MailText.ReplyReadsBack | internal/worker/gmail/helpers.go:157-180 | A reply exists exactly when the original names its sender; reading it back recovers every header, the References and In-Reply-To pair included, and the text if and only if sender, subject, id and own address hold no line break |
| MailText.ReplyHeadersAre | internal/worker/gmail/helpers.go:157-180 | The headers of a reply are the sender as To, the own address as From, the subject, the original's id as References and In-Reply-To if it has one, and the content type |
| MailText.ReplySubjectIdempotent | internal/worker/gmail/helpers.go:158-163 | Replying to a reply adds no further prefix; the subject is the original with or without one "Re: " in front, and "Re:" alone when there is none |
| MimeTree.FindsFirstBody | internal/api/common/common.go:133-179 | The search returns the first decodable body in pre-order outside files, the text branches changing nothing, in every message where that body is not blank or there is none |
| MimeTree.FindsSomething | internal/api/common/common.go:146-178 | The search comes back with something if and only if a path leads to a body that is not blank without going below a file or a part that decodes, or past a text part that decodes |
| MimeTree.SearchExactly | internal/api/common/common.go:133-179 | For any decoder and message, the search returns the first body in pre-order if and only if that body is not blank, or there is none, or no body that is not blank can be reached |
| MimeTree.FindsFirstBodyExactly | internal/api/common/common.go:146-176 | A decoder makes the search right on all messages alike if and only if it turns no data into an empty body |
| MimeTree.DecoderInUse | internal/api/common/common.go:140-143 | With the decoder in use blank means made of line breaks; the exact condition per message is as above, there are messages that fail it, and none whose parts are all empty or hold something besides line breaks |
| MimeTree.CountsFiles | internal/worker/gmail/helpers.go:104-119 | The attachment count is the number of places in the tree that hold a file name |

## Left out

- HTTP routing, JSON, sessions and the API handlers around the store: plumbing.
- Real time, the ticker and timeouts: only that cycles of one worker do not overlap is kept. Failing to list active accounts just skips a cycle.
- Mail processing inside the worker's cycle: the accounts the worker loads never have mail sync enabled (internal/store/account/account.go:256-287), so the branch at internal/worker/worker.go:147 is not taken; `GmailProcessor` stands on its own.
- Rows the mail engine writes to the automation log: rule ids of mail rules do not satisfy that table's foreign key, and nothing reads them back.
- Forwarding mail: the program only notes it and reports success, and so does the model.
- A second page of any listing: the program never asks for one. In the existence check a title beyond the first page counts as a check that failed to find it.
- Years beyond 9999 and time zones: times are integers, and the zone copied to a reminder is display only.
- Unicode: lower-casing covers ASCII letters, and byte strings are strings of characters below 256.
- The timeout that decides when a token counts as expired: a parameter. A refresh without a refresh token, which the client library refuses on its own, is one of the answers the token endpoint may give.
- Token writes that go around encryption (internal/store/account/account.go:398-408): nothing calls that method.
- Nonce uniqueness and secrecy: only that opening undoes sealing is used.
- Users changing the mailbox between mail cycles: cursor and table do not depend on it, and the label results start from any mailbox.
- Threads, message status updates and mail listings in the store: single statements without further effect.
- WorkerFanout.Worker.CheckAccounts: users do not act during the cycle it describes, because its goroutines could then be given ever more rules to read before they start; the interleaving results have users acting in between.
- GmailTable.PageSavedExactly: speaks of one page; that a message is not listed again once the cursor is past it is the provider's part and not modelled.
