# CampusHomes: verified protocols and algorithms

A Dafny 4.11 model of the parts of the student-housing marketplace where a mistake is hard to see in one
function: the reminder workers that share one table, the sign-in transactions, session life across tabs and
server, the rate limits, and the grouping and naming algorithms of rooms. Operations that change state in the
program are classes with methods, loops stay loops, and each is proved equal to a function; the promises are
proved about those functions over whole runs.

`dafny verify dfyconfig.toml` checks everything.

## Modules

- `Text`, `Splitting`, `OrderedMap`, `Collections`, `Tally`: strings, `split` and `join`, insertion-ordered maps,
  sets and sequences, counts of timed events. `Text` reads the normal form of room names as their lower-cased words.
- `RoomLabels`, `LabelTitles`, `TwinNames`, `TwinDetails`, `RoomLabelExample`: the spreadsheet names of room types.
- `RoomImport`, `RowVerdicts`: reading the names back and cutting a spreadsheet into batches. Printer and parser are
  proved inverse.
- `Reminders`, `ReminderProtocol`: one reminder worker over any history of ticks, failures, saves and opt-outs;
  then any number of workers, one statement at a time. The claim statement checks the start time, the hand-back
  of a failed delivery does not. The protocol is therefore safe exactly when every hand-back is harmless: the
  event has not moved since the claim, or none of the claim's offsets is marked now. A run without that
  condition that sends one reminder twice is given.
- `Provisioning`, `SignInOutcomes`, `ProvisioningConcurrent`: the users table under one sign-in transaction; then transactions
  that take their advisory locks one at a time, then their rows one at a time by id, and commit. Every
  interleaving is proved equal to a serial order, and sorted locking never to deadlock.
- `Sessions`, `IdleTab`, `IdleProtocol`: the server's session row with every statement and every clock reading of
  `find` and `recordActivity` on its own; the browser hook of one tab; and any number of tabs, a broadcast
  channel that delivers late and in any order, and the server, on one clock.
- `RateLimit`, `OtpQuota`, `ClientKey`, `TrustedProxy`: the clock-aligned limiter, the two-key quota script,
  the /64 client key against every legal spelling of an IPv6 address (section 2.2 of RFC 4291), and the exact
  CIDR overlap test.
- `AuthTransactions`: single-use sign-in transactions under concurrent callbacks.
- `AccessResolver`, `AuthRouting`: what an account may enter and where it is sent.
- `RecentlyViewed`: the list in `localStorage` and its snapshot cache.
- `RoomKeys`, `RoomGroups`, `RowContents`: the text keys of the room rows and the loop that groups units into rows.

## What was found

- `packages/shared/src/room-management.ts:165-166` says that a title only one type uses stays as it is. It does
  not when another type's built name is the same (`RoomLabelExample.UniqueTitleIsNumbered`); a name stays
  exactly when no other type was given the same one (`RoomLabels.LabelKeptIffUnshared`, `LabelTitles.TitleStaysIff`).
- A hand-back after a reschedule can unmark offsets that another worker owns
  (`ReminderProtocol.StaleReleaseSendsTwice`); the exact condition is `ReminderProtocol.Harmless`.
- `validCount` equals the number of batched codes for every real input: it does whenever no room type has a blank
  id (`RoomImport.EveryValidRowIsSent`), which ids from the database never are. For made-up ids the exact condition
  and a failing input are `RoomImport.ValidCountIsBatchTotal` and `RoomImport.BlankIdIsNotImported`.
- `apps/web/src/lib/room-import.ts:71-72` says that a room code is unique within a building. The rule is on a text
  key, and `a|b` in building `c` has the key of `a` in building `b|c` (`RoomImport.DifferentRoomIsRefused`).
  `RoomImport.KeyNamesOneRoomIff` says exactly which keys stand for one room; those without a bar in code or
  building do.
- `apps/api/src/modules/auth/session.store.ts:126-127` says that an idle session cannot be revived. With all clock
  readings in order, an activity that read its clock before the timeout and whose UPDATE comes after a `find` has
  judged the session over revives it (`Sessions.FindBeforeRevival`); and an UPDATE accepted between the SELECT and
  the DELETE of a `find` is followed by that DELETE, which ends a session active a millisecond ago
  (`Sessions.FindEndsLiveSession`). `Sessions.FoundIff`, `Sessions.OwedDeleteEndsLiveIff` and `Sessions.RevivedIff`
  say for every interleaving exactly when a session is found, lost and revived.
- A tab may tick on without a session (`IdleProtocol.TickMayOutliveSession`). While requests arrive and nobody signs
  out, a ticking tab has its session exactly when no activity request of any tab has been refused
  (`IdleProtocol.TickedTabHasSessionIff`).
- `apps/api/src/rate-limit.ts:39` says that an IPv4-mapped address is keyed as its IPv4 address. It is, exactly
  when it is spelled `::ffff:` with two groups or dotted; any other spelling of it lands in the bucket of the
  network `::/64` (`ClientKey.ExpandedMappedIsNetwork`).
- The redirects of a landlord account that is a property team's and still to be onboarded would chase each
  other for ever (`AuthRouting.TornLoops`); no account the API resolves is one
  (`AuthRouting.ResolvedNeverTorn`).

## Assumptions

- Each SQL statement, Redis command or script is one atomic step; a failed transaction rolls back. Row locks of
  `FOR UPDATE` are held to the commit. In `ProvisioningConcurrent` a row that had to be waited for is read again once
  it is locked, and what needs no row lock is read when all rows are; distinct lock keys hash distinctly, and ids
  drawn at random are new.
- Delivery of an email, the role-assignment and invitation services, and which accounts hold a staff role are
  parameters.
- `Sessions`: clock readings do not decrease in the order they are taken. Nothing is assumed of when the statements
  of different calls run.
- `IdleProtocol`: timers fire on time, a tab that was signed out only leaves the page, and a request that does
  not arrive sets the flag `lost`. Its theorems about the session hold while nothing was lost, nobody signed out
  and the seven days are not over.
- `RateLimit` and `OtpQuota`: a counter is evaluated at the request's own clock reading, in seconds. Only requests
  that were counted are counted: those let through during an outage with `failOpen` are not. The clock reads at least
  a minute after its epoch.
- `AuthTransactions`: a sealed value opens only under its own state, digests tell texts apart, and the random
  nonce of every save is new.
- `LabelTitles`: the ids of the room types of one property are distinct, as database keys are.
- Lower case is ASCII only, and a string is a sequence of characters, not of UTF-16 units.

## Model

| member | source | states |
|---|---|---|
| Text.NormalizeIsWords | packages/shared/src/room-management.ts:144-146 | trimming, lower-casing and collapsing yields the lower-cased words one blank apart |
| Text.SameNormalFormIffSameWords | packages/shared/src/room-management.ts:144-146 | two names have one normal form exactly when their words agree up to case, whatever the spacing |
| Text.NormalizeAppendWord | packages/shared/src/room-management.ts:198-200 | appending ` #n` appends one word to the normal form |
| Text.LowerLetters | packages/shared/src/room-management.ts:144-146 | each capital becomes its small letter and nothing else changes |
| Text.SpaceIff | packages/shared/src/room-management.ts:144-146 | the characters that `trim` and `\s` take as white space |
| RoomLabels.CountLabels | packages/shared/src/room-management.ts:192-193 | the counting loop counts every normal form |
| RoomLabels.SkipTaken | packages/shared/src/room-management.ts:197-198 | the search loop ends on the least number whose name is free |
| RoomLabels.RoomTypeImportLabels | packages/shared/src/room-management.ts:170-203 | the two passes compute the names that the lemmas below are about |
| RoomLabels.NumberedKeyInjective | packages/shared/src/room-management.ts:198 | different numbers never give one normal form |
| RoomLabels.FreeNumberSpec | packages/shared/src/room-management.ts:197-198 | the number found is free, and every smaller one is taken |
| RoomLabels.NumberingIsBounded | packages/shared/src/room-management.ts:195-201 | the search looks at no more numbers than there are taken names |
| RoomLabels.NumberSpec | packages/shared/src/room-management.ts:190-202 | after any number of turns the names done are pairwise different and differ from those to come |
| RoomLabels.LabelsAreUnique | packages/shared/src/room-management.ts:165-203 | names are pairwise different in normal form, and exactly the types with a version have one |
| RoomLabels.LabelKeptIffUnshared | packages/shared/src/room-management.ts:190-201 | a name survives the numbering exactly when no other type was given the same one |
| LabelTitles.LabelCarriesTitle | packages/shared/src/room-management.ts:171-188 | a name starts with the title of the pending version, of the approved one where none is pending |
| LabelTitles.TitleStaysIff | packages/shared/src/room-management.ts:165-201 | a type whose title no other type has is named by exactly that title if and only if no other name before numbering comes to the same |
| LabelTitles.NumberIsLeast | packages/shared/src/room-management.ts:195-201 | a name that is shared gets the least number whose name is no first-pass name and none given before |
| LabelTitles.FirstPassEntry | packages/shared/src/room-management.ts:176-189 | with distinct ids every version has its own name, in its place |
| TwinNames.BedsComeFirst | packages/shared/src/room-management.ts:180-186 | with a twin of another capacity the first detail is the beds |
| TwinNames.BathroomComesNext | packages/shared/src/room-management.ts:180-186 | with a twin of another bathroom the bathroom follows the beds, or the title |
| TwinNames.BedsTellTwinsApart | packages/shared/src/room-management.ts:177-189 | types that share a title but not the number of beds have different names before any numbering |
| TwinNames.BathroomTellsTwinsApart | packages/shared/src/room-management.ts:151-156 | so have types that share title and beds but differ in one of the four known bathrooms |
| TwinDetails.ToldIffTwinDiffers | packages/shared/src/room-management.ts:180-187 | beds, bathroom, rent and size are told in this order, each exactly when some twin has another; the description only when none is |
| TwinDetails.RentsTellTwinsApart | packages/shared/src/room-management.ts:184 | types that share title, beds and bathroom and whose rents print differently have different names before numbering |
| TwinDetails.SizesTellTwinsApart | packages/shared/src/room-management.ts:185 | so have types that also share the rent and have different known sizes |
| TwinDetails.DescriptionsTellTwinsApartIff | packages/shared/src/room-management.ts:187 | where nothing else differs, names agree exactly when the first hundred characters of the descriptions do |
| TwinDetails.RentIsRounded | packages/shared/src/room-management.ts:158-163 | a rent is printed in full, in thousands to the nearest tenth, or in millions to the nearest hundredth, without zeros at the end |
| TwinDetails.SameNameIffSameDetails | packages/shared/src/room-management.ts:177-189 | twins' names agree exactly when the words of their details do |
| RoomLabelExample.UniqueTitleIsNumbered | packages/shared/src/room-management.ts:165-169 | a title that only one type uses and that is nevertheless numbered |
| RoomImport.FilterCounts | apps/web/src/lib/room-import.ts:43-54 | a filter has one result exactly when one position fits, and none when none does |
| RoomImport.MatchIff | apps/web/src/lib/room-import.ts:34-57 | a text names a type exactly by its template name, else by a title only it has, else by a category only it has |
| RoomImport.TemplateRoundTrip | apps/web/src/lib/room-import.ts:38-41 | a template name in any case or spacing is read back as its own type |
| RoomImport.ValidRowsAreNewRooms | apps/web/src/lib/room-import.ts:61-82 | valid rows have pairwise different room keys, none an existing room's, lengths within limits, and the type their text names |
| RoomImport.RepeatIsAnError | apps/web/src/lib/room-import.ts:75-81 | the later of two rows with one key is always an error |
| RowVerdicts.ValidIff | apps/web/src/lib/room-import.ts:61-82 | a row is accepted exactly with texts of legal length, a type its text names, and a key no earlier row and no existing room has |
| RowVerdicts.ErrorIsFirst | apps/web/src/lib/room-import.ts:61-69 | the error is that of the first check that fails |
| RowVerdicts.UnknownTypeSays | apps/web/src/lib/room-import.ts:34-57 | what a text that names no type is refused with: blank, the title of several, the category of several, or nothing |
| RowVerdicts.ChoicesAreNames | apps/web/src/lib/room-import.ts:46 | the choices it lists are the quoted template names |
| RowVerdicts.CodesInFileOrder | apps/web/src/lib/room-import.ts:84-94 | the codes for a type, building and floor are those of the accepted rows that name them, once each in file order |
| RowVerdicts.TitleFitsIff | apps/web/src/lib/room-import.ts:42-43 | a text fits a type by the words of its pending or approved title |
| RowVerdicts.CategoryFitsIff | apps/web/src/lib/room-import.ts:49-53 | or by the words of the label or the key of a category of either version |
| RowVerdicts.SpacedIsJoined | apps/web/src/lib/room-import.ts:51 | the key of a category with its parts set apart by blanks |
| RowVerdicts.CategoryLabels | apps/web/src/lib/format.ts:11-25 | the label of a known category is its name capitalised, of any other the name itself |
| RoomImport.KeyNamesOneRoomIff | apps/web/src/lib/room-import.ts:27-28 | a key stands for one code and building exactly when its only bar without a blank beside it is the one put in |
| RoomImport.PlainKeyNamesOneRoom | apps/web/src/lib/room-import.ts:71-77 | without a bar in code or building, keys are equal exactly for the same code in the same building |
| RoomImport.DifferentRoomIsRefused | apps/web/src/lib/room-import.ts:28 | two rows that name different rooms and share a key: the second is refused as listed twice |
| RoomImport.GroupRows | apps/web/src/lib/room-import.ts:84-94 | the grouping loop gives each key its rows' codes in file order |
| RoomImport.CutGroup | apps/web/src/lib/room-import.ts:95-100 | cutting keeps the codes and their order, in the rounded-up number of batches of 1 to 200 |
| RoomImport.CutBatches | apps/web/src/lib/room-import.ts:95-100 | the batches of every key join up to its group's codes |
| RoomImport.PlanRoomImport | apps/web/src/lib/room-import.ts:73-102 | batches hold exactly the importable rows' codes in file order, 1 to 200 each, as few as that allows; with non-blank type ids `validCount` is the number of batched codes |
| RoomImport.FewestBatches | apps/web/src/lib/room-import.ts:24-25 | no other way to send the same codes within the limit takes fewer batches |
| RoomImport.EveryValidRowIsSent | apps/web/src/lib/room-import.ts:84-102 | with room types whose ids are not blank, exactly the valid rows are batched |
| RoomImport.BlankIdIsAType | apps/web/src/lib/room-import.ts:34-57 | a text is read as a type with a blank id only when there is one |
| RoomImport.ValidCountIsBatchTotal | apps/web/src/lib/room-import.ts:86-102 | for any ids, the batched codes are the valid rows' exactly when no valid row has a type with a blank id |
| RoomImport.BlankIdIsNotImported | apps/web/src/lib/room-import.ts:86 | a valid row that is in no batch |
| Reminders.DueReminderSpec | apps/api/src/modules/calendar/calendar-reminders.ts:17-24 | what is marked is exactly the unsent offsets whose time has come, and the least of them goes out |
| Reminders.WindowKeepsDueEvents | apps/api/src/modules/calendar/calendar-reminders.ts:65-69 | the SELECT window drops no event with a due reminder |
| Reminders.CalendarReminders.RunOne | apps/api/src/modules/calendar/calendar-reminders.ts:74-102 | claim, deliver, and hand back on failure is one tick of the event |
| Reminders.CalendarReminders.Run | apps/api/src/modules/calendar/calendar-reminders.ts:62-105 | every event takes its tick once, and the result counts the deliveries |
| Reminders.CalendarReminders.Update | apps/api/src/modules/calendar/calendar.service.ts:52-82 | a save resets the sent offsets exactly when the start moves |
| Reminders.UndisturbedClaim | apps/api/src/modules/calendar/calendar-reminders.ts:77-88 | an eligible event that nobody else touches wins its claim |
| Reminders.TickDeliversIff | apps/api/src/modules/calendar/calendar-reminders.ts:62-105 | an undisturbed tick delivers an offset exactly when the event is eligible, the email goes out and the offset is the closest due; it marks the due ones then and nothing otherwise |
| Reminders.DueInNumbers | apps/api/src/modules/calendar/calendar-reminders.ts:11-24 | what is due, in minutes before the start |
| Reminders.SentIsClosest | apps/api/src/modules/calendar/calendar-reminders.ts:13-24 | what goes out is unsent, before the start, closer to it than anything sent, and the closest that has come |
| Reminders.ClaimKeepsOrder | apps/api/src/modules/calendar/calendar-reminders.ts:76-101 | claiming and delivering, or claiming and handing back, keeps the sent set upward closed |
| Reminders.TickKeepsOrder | apps/api/src/modules/calendar/calendar-reminders.ts:73-103 | a tick keeps the order and forgets nothing sent |
| Reminders.DeliveriesDecrease | apps/api/src/modules/calendar/calendar-reminders.ts:62-105 | over any ticks, failures, saves and opt-outs the delivered offsets strictly decrease and are at most seven |
| Reminders.MarkedIsReminded | apps/api/src/modules/calendar/calendar-reminders.ts:11-24 | in any history no offset is marked as sent without a reminder going out for it or for a moment closer to the start |
| Reminders.ResavingNeverResends | apps/api/src/modules/calendar/calendar.service.ts:60-70 | inserting a save of the current start anywhere in a history changes nothing of what follows |
| ReminderProtocol.StepKeepsInv | apps/api/src/modules/calendar/calendar-reminders.ts:73-103 | every statement of every worker and every edit keeps claims disjoint and inside the sent set |
| ReminderProtocol.ClaimWonIff | apps/api/src/modules/calendar/calendar-reminders.ts:77-88 | a worker's claim is won exactly when something is due for its row and the event as it stands is eligible, has the picked start and none of the due offsets marked; what it then marks and holds |
| ReminderProtocol.RowsWerePicked | apps/api/src/modules/calendar/calendar-reminders.ts:63-71 | every row a worker holds was the eligible, not yet started event when picked |
| ReminderProtocol.ClaimsWereWon | apps/api/src/modules/calendar/calendar-reminders.ts:62-105 | in any interleaving every claim was won at a step before which the event was eligible, had its start and none of its offsets marked |
| ReminderProtocol.HandBackIsSafeIffHarmless | apps/api/src/modules/calendar/calendar-reminders.ts:92-101 | a hand-back keeps the invariant exactly when the event has not moved or none of its offsets is marked |
| ReminderProtocol.SafeIffAllHarmless | apps/api/src/modules/calendar/calendar-reminders.ts:62-105 | every prefix of a run is safe exactly when all its hand-backs are harmless |
| ReminderProtocol.AtMostOneDeliveryPerOffset | apps/api/src/modules/calendar/calendar-reminders.ts:73-103 | claims and deliveries for one start share no offset, and the sent set is exactly their union |
| ReminderProtocol.ReleaseIsExact | apps/api/src/modules/calendar/calendar-reminders.ts:94-101 | a hand-back removes exactly its own offsets |
| ReminderProtocol.TickIsARun | apps/api/src/modules/calendar/calendar-reminders.ts:73-103 | one worker's undisturbed statements are the sequential tick: the same event, and the offset delivered is the tick's |
| ReminderProtocol.StaleReleaseSendsTwice | apps/api/src/modules/calendar/calendar-reminders.ts:94-101 | a run with a reschedule between claim and hand-back that delivers one offset twice |
| Provisioning.ClaimedEmailIsStored | apps/api/src/modules/auth/provisioning.service.ts:137-150 | a claimed email compares equal to the stored one however it was padded or cased |
| Provisioning.ProvisioningService.ByLogtoId | apps/api/src/modules/auth/provisioning.service.ts:125-131 | finds the account of the subject, or none |
| Provisioning.ProvisioningService.FindAndLinkVerifiedCandidate | apps/api/src/modules/auth/provisioning.service.ts:133-177 | links the one unlinked live account with a verified contact, or throws and changes nothing |
| Provisioning.ProvisioningService.CreateUser | apps/api/src/modules/auth/provisioning.service.ts:179-206 | inserts a linked account, or throws when a contact is in use |
| Provisioning.ProvisioningService.Provision | apps/api/src/modules/auth/provisioning.service.ts:62-112 | the statements with rollback are the transaction that the lemmas are about |
| Provisioning.ProvisionKeepsUnique | apps/api/src/modules/auth/provisioning.service.ts:62-206 | one account per subject and one live account per email and phone, kept by every transaction |
| Provisioning.FailureChangesNothing | apps/api/src/modules/auth/provisioning.service.ts:156-194 | a conflict leaves the table as it was |
| Provisioning.LinkIsForever | apps/api/src/modules/auth/provisioning.service.ts:74-75 | a linked subject keeps its account and signs in to it or to nothing |
| Provisioning.OnlyProvenContactsLink | apps/api/src/modules/auth/provisioning.service.ts:137-177 | an existing account keeps all but its link and verified flags; a link goes only to a live unlinked account with a contact the claims verify |
| Provisioning.StaffNeedsInvitation | apps/api/src/modules/auth/provisioning.service.ts:69-104 | a new account has fresh contacts and a consumer role, or the invited role in the dedicated staff flow |
| Provisioning.SignInIsLinked | apps/api/src/modules/auth/provisioning.service.ts:64-110 | whoever signs in has a live account linked to the subject, which is not a deleted one |
| Provisioning.StoredEmailIs | apps/api/src/modules/auth/provisioning.service.ts:150 | blanks around a stored email and its case do not count, and nothing else is ignored |
| SignInOutcomes.SignInIff | apps/api/src/modules/auth/provisioning.service.ts:62-112 | a transaction that does not fail signs in exactly the live linked account of a subject that is not a deleted one: active or pending for consumers, active with a staff role for staff |
| SignInOutcomes.LinksIff | apps/api/src/modules/auth/provisioning.service.ts:133-177 | an unlinked account gets the subject exactly when the subject has none and the verified contacts name this live account alone, and no flag would become NULL |
| SignInOutcomes.CreatesIff | apps/api/src/modules/auth/provisioning.service.ts:79-104 | an account is made exactly for a subject without one that names none, who may have one, and whose contacts are free |
| SignInOutcomes.CreatedRow | apps/api/src/modules/auth/provisioning.service.ts:185-205 | the whole new account: contacts normalised, blank ones dropped, name or the name of the invitation, active, flags as claimed |
| SignInOutcomes.FailsIff | apps/api/src/modules/auth/provisioning.service.ts:133-194 | exactly when the transaction throws |
| ProvisioningConcurrent.LockKeysAreSorted | apps/api/src/modules/auth/provisioning.service.ts:116-123 | the lock order is the sorted order of the pushed keys |
| ProvisioningConcurrent.CodeLessIff | apps/api/src/modules/auth/provisioning.service.ts:120 | the order of texts: a proper beginning, or less where they first differ |
| ProvisioningConcurrent.CommitIsInvisible | apps/api/src/modules/auth/provisioning.service.ts:114-123 | a commit changes no decision of a transaction that shares no lock key and no locked row with it |
| ProvisioningConcurrent.CommitKeepsTargets | apps/api/src/modules/auth/provisioning.service.ts:145-154 | a commit changes no set of rows that a transaction with other keys is about to lock, even when it writes one of them |
| ProvisioningConcurrent.LockRowKeepsInv | apps/api/src/modules/auth/provisioning.service.ts:125-154 | locking the least missing row keeps every transaction's rows its own and in order |
| ProvisioningConcurrent.StepKeepsInv | apps/api/src/modules/auth/provisioning.service.ts:62-123 | every step of every transaction keeps what was read current and the log serial |
| ProvisioningConcurrent.InterleavingsAreSerial | apps/api/src/modules/auth/provisioning.service.ts:62-123 | table and outcomes are those of running the transactions one at a time in commit order, so the table stays unique |
| ProvisioningConcurrent.SubjectKeepsAccount | apps/api/src/modules/auth/provisioning.service.ts:62-206 | in any interleaving a linked subject always resolves to its account or none |
| ProvisioningConcurrent.HighestCanFetch | apps/api/src/modules/auth/provisioning.service.ts:145-154 | with rows locked one by one in id order, the transaction that wants the highest row gets it |
| ProvisioningConcurrent.SomeoneCanGoOn | apps/api/src/modules/auth/provisioning.service.ts:114-154 | while a transaction is unfinished one of them can take its next advisory lock, its next row, its decision or its commit: no deadlock |
| ProvisioningConcurrent.HighestCanLock | apps/api/src/modules/auth/provisioning.service.ts:115-122 | when all wait for locks the one that wants the highest key gets it |
| Sessions.SessionStore.Create | apps/api/src/modules/auth/session.store.ts:53-72 | a new row with seven days and an activity now |
| Sessions.SessionStore.Find | apps/api/src/modules/auth/session.store.ts:74-124 | found exactly when live and of an active user; deletes an idle row and nothing else |
| Sessions.SessionStore.RecordActivity | apps/api/src/modules/auth/session.store.ts:128-145 | moves the activity of a live row, deletes any other |
| Sessions.SessionStore.Destroy | apps/api/src/modules/auth/session.store.ts:147-150 | removes the token's row only |
| Sessions.StepFollows | apps/api/src/modules/auth/session.store.ts:74-150 | every statement and clock reading keeps the row, what has been read and the DELETEs owed in line with the schedule |
| Sessions.StateFollowsSchedule | apps/api/src/modules/auth/session.store.ts:53-150 | so does every interleaving whose clock readings are in order |
| Sessions.FoundIff | apps/api/src/modules/auth/session.store.ts:74-150 | in any interleaving: found exactly when never signed out, within seven days, under the timeout after the last activity in time, and no owed DELETE crossed an activity |
| Sessions.AnswerIff | apps/api/src/modules/auth/session.store.ts:96-107 | a `find` answers for what came before its SELECT, by its own clock readings |
| Sessions.AcceptedIffInTime | apps/api/src/modules/auth/session.store.ts:131-142 | while the row is there an UPDATE is accepted exactly when it is an activity in time |
| Sessions.OwedDeleteEndsLiveIff | apps/api/src/modules/auth/session.store.ts:103-105 | an owed DELETE ends a session that would be found exactly when an activity was accepted after its call saw the row, and is recent |
| Sessions.RevivedIff | apps/api/src/modules/auth/session.store.ts:126-145 | a session that is not found is found later exactly when an UPDATE in time still brings a clock reading from before |
| Sessions.NeverRevived | apps/api/src/modules/auth/session.store.ts:126-145 | if every later activity has read its clock since, what is not found once is not found again |
| Sessions.FindEndsLiveSession | apps/api/src/modules/auth/session.store.ts:96-105 | a schedule, clock readings in order, in which `find` deletes a session that was active a millisecond ago |
| Sessions.FindBeforeRevival | apps/api/src/modules/auth/session.store.ts:130-139 | a schedule in which a session judged over is found again at the same moment |
| Sessions.UninterruptedFind | apps/api/src/modules/auth/session.store.ts:74-107 | the statements of `find` with nothing between are the method |
| Sessions.UninterruptedActivity | apps/api/src/modules/auth/session.store.ts:128-145 | so are those of `recordActivity` |
| IdleTab.IdleHook.constructor | apps/web/src/lib/idle-timeout.ts:34-101 | mounting is one signal: both times are now, no timer, no warning |
| IdleTab.IdleHook.Expire | apps/web/src/lib/idle-timeout.ts:42-47 | expires once, and posts only then |
| IdleTab.IdleHook.Signal | apps/web/src/lib/idle-timeout.ts:49-58 | clears the timer, sets both times to now, posts and sends |
| IdleTab.IdleHook.OnResponse | apps/web/src/lib/idle-timeout.ts:54-57 | only a 401 ends the session in the tab |
| IdleTab.IdleHook.Tick | apps/web/src/lib/idle-timeout.ts:60-65 | expires at the timeout, warns in the last minute |
| IdleTab.IdleHook.Interact | apps/web/src/lib/idle-timeout.ts:67-74 | signals at once outside the window, else leaves one timer, and nothing during the warning |
| IdleTab.IdleHook.OnMessage | apps/web/src/lib/idle-timeout.ts:76-81 | takes the later time and ticks, or expires without posting |
| IdleTab.IdleHook.Stay | apps/web/src/lib/idle-timeout.ts:88-92 | ends the warning, signals and ticks |
| IdleProtocol.TickIsTheHooks | apps/web/src/lib/idle-timeout.ts:60-65 | the protocol's tick is the hook's |
| IdleProtocol.InteractIsTheHooks | apps/web/src/lib/idle-timeout.ts:67-74 | the protocol's interaction is the hook's |
| IdleProtocol.DeliverIsTheHooks | apps/web/src/lib/idle-timeout.ts:76-81 | the protocol's message is the hook's |
| IdleProtocol.StayIsTheHooks | apps/web/src/lib/idle-timeout.ts:88-92 | the protocol's stay is the hook's |
| IdleProtocol.StepKeepsTabs | apps/web/src/lib/idle-timeout.ts:34-106 | every step keeps each tab's timer no later than 30 s after its first unsignalled interaction |
| IdleProtocol.StepKeepsLead | apps/web/src/lib/idle-timeout.ts:34-106 | every step keeps the server's last activity at or ahead of every tab's |
| IdleProtocol.SignalledInTime | apps/web/src/lib/idle-timeout.ts:67-74 | every accepted interaction is signalled within 30 s |
| IdleProtocol.TouchIsSignalled | apps/web/src/lib/idle-timeout.ts:7-10 | whoever touches a tab that shows no warning is heard: the tab signals within 30 s or is signed out by then |
| IdleProtocol.TickedTabHasSessionIff | apps/web/src/lib/idle-timeout.ts:60-65 | a tab that ticked without expiring has a live session exactly when no activity request has been refused so far, and exactly when its last activity is no later than the server's |
| IdleProtocol.TickedTabHasSession | apps/web/src/lib/idle-timeout.ts:42-47 | it has one whenever no notice of the end is on its way to it |
| IdleProtocol.StepHears | apps/web/src/lib/idle-timeout.ts:67-92 | outside the warning whatever the user does in a tab is counted |
| IdleProtocol.SteadyUserNeverWarned | apps/web/src/lib/idle-timeout.ts:60-74 | a user who opens, touches or answers the tab at least every nine minutes never sees the warning |
| IdleProtocol.TickShows | apps/web/src/lib/idle-timeout.ts:60-65 | after a tick: expired exactly ten minutes after the last activity, else warned exactly from nine minutes on |
| IdleProtocol.DeliverShows | apps/web/src/lib/idle-timeout.ts:76-81 | the same after activity heard of, which counts if later |
| IdleProtocol.StayShows | apps/web/src/lib/idle-timeout.ts:88-92 | staying in ends the warning and makes now the last activity |
| IdleProtocol.InteractShows | apps/web/src/lib/idle-timeout.ts:67-74 | a touch does nothing under the warning, signals exactly when the last signal is 30 s old, and else leaves one timer for then |
| IdleProtocol.WarnedIff | apps/web/src/lib/idle-timeout.ts:60-92 | in any run a signed-in tab shows the warning exactly when it has looked at the clock nine minutes after its last activity |
| IdleProtocol.ExpiresIff | apps/web/src/lib/idle-timeout.ts:42-92 | a tab ends exactly by a look at the clock ten minutes after its last activity, another tab's notice, or a refused request |
| IdleProtocol.SignalsIff | apps/web/src/lib/idle-timeout.ts:49-74 | an action of the user or a timer signals exactly when it posts, and then the tab's activity first |
| IdleProtocol.PollEndsIdle | apps/api/src/modules/auth/session.store.ts:96-107 | a poll ends exactly a session that is idle |
| IdleProtocol.Throttled | apps/web/src/lib/idle-timeout.ts:7-10 | an interaction and its timer never signal within 30 s of the tab's signal before |
| IdleProtocol.TickMayOutliveSession | apps/web/src/lib/idle-timeout.ts:76-81 | a run in which a request was refused and another tab ticks on |
| RateLimit.RateLimiter.constructor | apps/api/src/rate-limit.ts:64-67 | a limiter with no counters and no outage logged |
| RateLimit.RateLimiter.CountInWindow | apps/api/src/rate-limit.ts:8-12 | the script increments the live counter or starts one with an expiry |
| RateLimit.RateLimiter.Handle | apps/api/src/rate-limit.ts:68-94 | passes, refuses or fails by count, outage and exemption; logs a let-through request and moves the time of the last log exactly when that is a minute old |
| RateLimit.RetryAfterIsNextWindow | apps/api/src/rate-limit.ts:71-77 | now plus Retry-After is the start of the next window |
| RateLimit.OutageLoggedOnceAMinute | apps/api/src/rate-limit.ts:83-90 | a request let through during an outage is logged exactly when no log was made in the last minute |
| RateLimit.SameWindow | apps/api/src/rate-limit.ts:71-73 | a moment lies in window k exactly when its quotient is k |
| RateLimit.StepKeepsKey | apps/api/src/rate-limit.ts:68-79 | every request keeps each counter equal to its window's requests and its expiry past the window's end |
| RateLimit.WindowAdmitsLimit | apps/api/src/rate-limit.ts:8-79 | of a client's requests in a window exactly the limit, or all if fewer, are admitted; a counter always has an expiry and outlives its window |
| RateLimit.IntervalAdmitsTwice | apps/api/src/rate-limit.ts:68-79 | any interval as long as a window admits at most twice the limit |
| RateLimit.WaitingIsAdmitted | apps/api/src/rate-limit.ts:72-79 | a client that waits for Retry-After is admitted |
| OtpQuota.OtpCounters.Eval | apps/api/src/modules/auth/otp-delivery.ts:29-35 | allowed exactly below both quotas; then every key is incremented, else nothing changes |
| OtpQuota.ScriptIsTheRun | apps/api/src/modules/auth/otp-delivery.ts:32-34 | the script's loop and the run's counters agree |
| OtpQuota.HitInWindow | apps/api/src/modules/auth/otp-delivery.ts:30-34 | a hit in an open window keeps counter and quotas |
| OtpQuota.HitOpensWindow | apps/api/src/modules/auth/otp-delivery.ts:33 | the first hit of a new window keeps counter and quotas |
| OtpQuota.RunIsOk | apps/api/src/modules/auth/otp-delivery.ts:28-35 | every run in clock order keeps all keys within their quotas |
| OtpQuota.QuotaHolds | apps/api/src/modules/auth/otp-delivery.ts:28-35 | a live counter is the accepted sends since its window opened, at most 5 or 20, and no 900 s accept more than twice that |
| OtpQuota.RefusedIffFull | apps/api/src/modules/auth/otp-delivery.ts:30-35 | a send is refused, and changes nothing, exactly when one of its keys has used up its window |
| ClientKey.GroupsOfWritten | apps/api/src/rate-limit.ts:51-54 | the groups the program reads are the spelled ones with `::` filled in |
| ClientKey.StripIsNumeral | apps/api/src/rate-limit.ts:55 | a group without leading zeros is the numeral of its value |
| ClientKey.KeyOfSpelling | apps/api/src/rate-limit.ts:41-56 | the key of any legal spelling, case and zone: the IPv4 address for `::ffff:h:h`, else the /64 of its top 64 bits |
| ClientKey.LegalIff | apps/api/src/rate-limit.ts:39-56 | the spellings spoken of: eight groups of one to four hexadecimal digits in either case, or fewer with `::` |
| ClientKey.DottedQuadIff | apps/api/src/rate-limit.ts:43 | what is taken for an IPv4 address as it stands: four groups of one to three digits |
| ClientKey.HexPairIff | apps/api/src/rate-limit.ts:45 | what is taken for one in two groups |
| ClientKey.MappedKeyIsDotted | apps/api/src/rate-limit.ts:45-49 | the key of such a spelling is the four bytes of the address, dotted |
| ClientKey.NetworkKeysDiffer | apps/api/src/rate-limit.ts:55 | network keys are equal exactly when the top 64 bits are |
| ClientKey.DottedKeysDiffer | apps/api/src/rate-limit.ts:44-50 | IPv4 keys are pairwise different and never a network's |
| ClientKey.SameBucketIffSameNetwork | apps/api/src/rate-limit.ts:39-56 | two addresses not spelled `::ffff:h:h` share a bucket exactly when they share their top 64 bits |
| ClientKey.MappedSpellingsAgree | apps/api/src/rate-limit.ts:43-50 | plain, dotted and two-group spellings of one IPv4 address have one key |
| ClientKey.ExpandedMappedIsNetwork | apps/api/src/rate-limit.ts:39-55 | a mapped address has its IPv4 key exactly when spelled `::ffff:h:h`, else the key of `::/64` |
| TrustedProxy.NestedOrDisjoint | apps/api/src/config/env.ts:23-27 | two blocks share an address exactly when the wider contains the other's base, and then all of it |
| TrustedProxy.MappedBlock | apps/api/src/config/env.ts:28-29 | ::ffff:0:0/96 is exactly the mapped addresses of IPv4 peers |
| TrustedProxy.MatchesMappedPeerIsExact | apps/api/src/config/env.ts:31-36 | the two probes say exactly whether the block holds a mapped peer, for every address and prefix length |
| TrustedProxy.AcceptedIpv6Entry | apps/api/src/config/env.ts:12-21 | an IPv6 entry is accepted exactly when well formed and applying to no IPv4 peer |
| TrustedProxy.AcceptedIpv4Entry | apps/api/src/config/env.ts:12-21 | any other entry is accepted exactly as an IPv4 address or a block of one from /8 to /32 |
| TrustedProxy.PresetsAreAccepted | apps/api/src/config/env.ts:5-13 | the three presets are accepted as they stand |
| TrustedProxy.PrefixTextIff | apps/api/src/config/env.ts:19 | a prefix is written exactly as the numeral of a positive number |
| TrustedProxy.ContainsIff | apps/api/src/config/env.ts:16 | `includes` finds the part at some position |
| TrustedProxy.EntriesInPlace | apps/api/src/config/env.ts:38 | every part between commas gives its trimmed entry, a blank one none |
| TrustedProxy.ListAcceptedIff | apps/api/src/config/env.ts:38-39 | a list is refused as a whole exactly when one entry is |
| TrustedProxy.AcceptedList | apps/api/src/config/env.ts:38-39 | so is every entry of an accepted list, or it is a preset or an IPv4 block of /8 or narrower |
| AuthTransactions.AuthTransactionStore.Save | apps/api/src/modules/auth/auth-transactions.ts:42-51 | stores for 600 s exactly when the state is free |
| AuthTransactions.AuthTransactionStore.CompareAndDelete | apps/api/src/modules/auth/auth-transactions.ts:72-75 | deletes exactly the value it was given |
| AuthTransactions.AuthTransactionStore.Consume | apps/api/src/modules/auth/auth-transactions.ts:53-77 | returns and deletes the transaction exactly for a live value of this state, browser and time, else changes nothing |
| AuthTransactions.StepKeepsInv | apps/api/src/modules/auth/auth-transactions.ts:42-77 | every step of every callback keeps stored values unconsumed and wins single |
| AuthTransactions.ConsumedIff | apps/api/src/modules/auth/auth-transactions.ts:53-77 | a call gives exactly the live transaction of this state and browser, started no more than 600 s ago or 60 s ahead, and deletes it |
| AuthTransactions.SavedIff | apps/api/src/modules/auth/auth-transactions.ts:42-51 | a save is kept for 600 s unless the state is taken |
| AuthTransactions.SingleUse | apps/api/src/modules/auth/auth-transactions.ts:42-77 | no save is consumed twice, by another browser, under another state, or after 600 s |
| AuthTransactions.WrongBrowserChangesNothing | apps/api/src/modules/auth/auth-transactions.ts:68-75 | only a save over a free state or a checked callback of the right browser changes the store |
| AuthTransactions.LoserHasWinner | apps/api/src/modules/auth/auth-transactions.ts:70-76 | a checked callback that deletes nothing lost to another one or to the clock |
| AuthTransactions.RightBrowserWins | apps/api/src/modules/auth/auth-transactions.ts:53-77 | in any run the browser that started a transaction and comes back in time while its value is stored is given it |
| AuthTransactions.UninterruptedCall | apps/api/src/modules/auth/auth-transactions.ts:53-77 | a callback alone is one call of `Consume` |
| AccessResolver.GrantRoles | apps/api/src/modules/auth/access-resolver.ts:35-42 | the loop adds exactly the legacy consumer roles without history |
| AccessResolver.OpenWorkspaces | apps/api/src/modules/auth/access-resolver.ts:43-49 | the pushes list exactly the workspaces some role opens |
| AccessResolver.ResolveAccess | apps/api/src/modules/auth/access-resolver.ts:35-58 | the whole access value |
| AccessResolver.MappedGrants | apps/api/src/modules/auth/access-resolver.ts:5-17 | searching the mapped roles is searching for the roles that open a workspace |
| AccessResolver.OpenIffGranted | apps/api/src/modules/auth/access-resolver.ts:37-49 | a workspace is open exactly to an active role that opens it or a consumer row without history: no revoked grant returns |
| AccessResolver.AccessInFields | apps/api/src/modules/auth/access-resolver.ts:24-58 | who enters the student and landlord workspaces, who is to be onboarded, and what counts as a second factor, in the fields of the account |
| AccessResolver.StaffNeedActiveRole | apps/api/src/modules/auth/access-resolver.ts:43-49 | the other workspaces take an active role of theirs |
| AccessResolver.AccessKeepsRedirectsSafe | apps/api/src/modules/auth/access-resolver.ts:50-57 | onboarding a landlord implies an owner's role, no workspace is listed twice, and a second factor is dated |
| AuthRouting.SignInSettles | apps/web/src/lib/auth-routing.ts:74-97 | after `authDestination` no guard redirects again |
| AuthRouting.GuardSettles | apps/web/src/lib/auth-routing.ts:88-97 | what a guard redirects to is accepted: at most one hop |
| AuthRouting.NoRedirectLoopsIff | apps/web/src/lib/auth-routing.ts:63-97 | every redirect settles exactly when the account is not a property team's with owner onboarding |
| AuthRouting.TornLoops | apps/web/src/lib/auth-routing.ts:68-70 | for such an account the two landlord pages redirect to each other |
| AuthRouting.ResolvedNeverTorn | apps/api/src/modules/auth/access-resolver.ts:35-58 | no resolved account is one |
| AuthRouting.RendersIff | apps/web/src/lib/auth-routing.ts:63-97 | a page renders exactly for a signed-in, active account with the workspace, the second factor, and the page its role is kept to |
| AuthRouting.RefusedGoesTo | apps/web/src/lib/auth-routing.ts:63-97 | where each refused visitor goes, exactly: sign-in and second factor keep the page asked for |
| AuthRouting.InWorkspaceIff | apps/web/src/lib/auth-routing.ts:17-28 | a path lies in a workspace exactly when it is one of its roots or goes on from one with a slash |
| AuthRouting.AdminHomeIsFirstDesk | apps/web/src/lib/auth-routing.ts:43-53 | an administrator starts at the first desk one of the roles fits |
| AuthRouting.HomesAre | apps/web/src/lib/auth-routing.ts:43-53 | the other homes, and that of an administrator without a desk |
| AuthRouting.PendingIff | apps/web/src/lib/auth-routing.ts:74-75 | sign-in sends to the pending notice exactly who is not active |
| AuthRouting.SignInReachesPage | apps/web/src/lib/auth-routing.ts:74-81 | a workspace page asked for at sign-in is reached exactly when it would render |
| AuthRouting.PublicPagesAreForEveryone | apps/web/src/lib/auth-routing.ts:30-41 | a page asked for at sign-in is reached by every active account exactly when it is public |
| AuthRouting.SignInFallback | apps/web/src/lib/auth-routing.ts:82-85 | otherwise: a choice exactly among several workspaces, the only one by way of the second factor exactly where staff lack it, or the notice that there is none |
| AuthRouting.SignInStaysInGrants | apps/web/src/lib/auth-routing.ts:30-86 | no `next` leads into a workspace that was not granted, or into a staff one without a second factor |
| RecentlyViewed.Tab.constructor | apps/web/src/lib/recently-viewed.ts:34-35 | an empty cache |
| RecentlyViewed.Tab.GetRecentlyViewed | apps/web/src/lib/recently-viewed.ts:37-54 | agrees with freshly parsing the storage, and is the identical array as long as the text is |
| RecentlyViewed.Tab.AddRecentlyViewed | apps/web/src/lib/recently-viewed.ts:56-65 | stores the entry before the others of the current list, or nothing when storage refuses |
| RecentlyViewed.Tab.ClearRecentlyViewed | apps/web/src/lib/recently-viewed.ts:67-74 | empties the storage, or nothing when storage refuses |
| RecentlyViewed.ParsedAreUuids | apps/web/src/lib/recently-viewed.ts:16-28 | only entries with a UUID leave the module, whatever was stored |
| RecentlyViewed.UuidIff | apps/web/src/lib/recently-viewed.ts:16 | a UUID is five groups of hexadecimal digits of either case with dashes between |
| RecentlyViewed.ShownInPlace | apps/web/src/lib/recently-viewed.ts:21-49 | every stored element is judged on its own: shown in its place exactly when an entry with a UUID |
| RecentlyViewed.WellFormedOfList | apps/web/src/lib/recently-viewed.ts:21-28 | a list with well-formed ids is read back as written |
| RecentlyViewed.StoredIsRecentHistory | apps/web/src/lib/recently-viewed.ts:34-65 | after any adds the list is the last view of each of the ten listings viewed last, latest first |
| RecentlyViewed.AddPutsFirst | apps/web/src/lib/recently-viewed.ts:56-65 | whatever was stored, an add leaves at most ten, the new one first and alone of its listing |
| RoomKeys.KeyInjective | apps/web/src/components/room-category-list.tsx:121 | the text key tells different terms apart, negative numbers and dashes in the category included |
| RoomKeys.TypeKeyInjective | apps/web/src/components/room-category-list.tsx:155-158 | so does the key of a room type |
| RoomGroups.IndexPhotos | apps/web/src/components/room-category-list.tsx:112-117 | each unit's photos in order |
| RoomGroups.GroupUnits | apps/web/src/components/room-category-list.tsx:119-149 | the loop over units computes the naive partition, row by row |
| RoomGroups.HeldByType | apps/web/src/components/room-category-list.tsx:150-156 | the map holds what the last unit with a held bed says |
| RoomGroups.KeepFirst | apps/web/src/components/room-category-list.tsx:160-163 | first occurrences only |
| RoomGroups.GroupByCategory | apps/web/src/components/room-category-list.tsx:104-166 | the whole function is the finished naive partition, sorted |
| RoomGroups.RowsPartitionUnits | apps/web/src/components/room-category-list.tsx:119-149 | every row reports exactly the units of its terms, its first free bed in input order or none when none is free, and every unit has its row |
| RowContents.RowCountsFreeBeds | apps/web/src/components/room-category-list.tsx:119-149 | a row counts the available beds of the units with its terms and the rooms that have one, and offers the first of them |
| RowContents.RowIsMarkedByHeldBed | apps/web/src/components/room-category-list.tsx:150-158 | a row is marked with the student's first bed in the last unit of its type where there is one, and not without |
| RowContents.RowShowsPhotosInOrder | apps/web/src/lib/room-type-photos.ts:13-23 | a row shows the inspection photos that fit its type, by their room category or else as its bedroom, and by the bathroom where known; then the photos of its units, each once |
| RowContents.RowShowsItsAmenities | apps/web/src/components/room-category-list.tsx:163 | and the amenities of its units, each once |
| RoomGroups.KeysAreUnique | apps/web/src/components/room-category-list.tsx:119-149 | two rows never share a key |
| RoomGroups.BedsAreConserved | apps/web/src/components/room-category-list.tsx:126-148 | free beds and rooms with a free bed add up over the rows to those of the units |
| RoomGroups.HeldMarksEveryPrice | apps/web/src/components/room-category-list.tsx:150-158 | a held bed marks every price row of its type alike, with what the last such unit says |
| RoomGroups.RowShowsItsPhotos | apps/web/src/components/room-category-list.tsx:159-162 | a row shows exactly the inspection photos of its type and the landlord's photos of its units, each once |
| RoomGroups.OutputOrder | apps/web/src/components/room-category-list.tsx:165 | rows with a free bed first, then by price, equal ones in the order their units came |

## Left out

- Rendering, email texts, controllers and DTO classes, network clients, Logto, payments, maps: no state worth proving.
- `startsInLabel`, `idleSignInUrl`, `useIdleDraft`, `workspaceLabel`, `roomDisplayLabel` and the other label helpers: they would only add easy members.
- `safeAuthDestination`: destinations are taken as already normalised, on which it is the identity.
- `normalizeRoomAmenities`: the amenities of a unit are taken as texts.
- `isIP` and `BlockList`: an address is a number and a block the addresses that agree on its prefix.
- Invitations, role assignment, deletion of accounts by an administrator and `hasActiveStaffRole`: parameters of a transaction or not part of this model.
- Missing configuration (no Redis, no secret) and the 1.5 s timeout of `countInWindow`: both are an unavailable store.
- RoomLabels.RoomTypeImportLabels: rents and sizes are natural numbers, and a rent is rounded from its exact quotient, where the program rounds a binary fraction; only ties can differ.
- RoomGroups.GroupByCategory: the records the loop updates are values in the map; they are made in the function and shared with nobody.
- RecentlyViewed.Tab.GetRecentlyViewed: JSON is an injective encoding, and calls during server rendering are left out.
- AccessResolver.ResolveAccess: roles are a set; the program sorts them, and only searches them.
- ProvisioningConcurrent.InterleavingsAreSerial: the look-ups of deleted subjects, invitations and contacts in use are one step with the decision, because all of them run under the advisory locks.
- IdleProtocol.TickedTabHasSession: a request takes no time once it arrives; late requests are the flag `lost`.
