# Verification of the vCenter event assistant's core protocols

This project models the parts of the monitoring service whose correctness rests on order: on
which statement of which request comes first, on what a crash leaves behind, on how far a window
reaches. It is written in Dafny 4.11; `dafny verify dfyconfig.toml` checks all of it.

Each database `UPDATE` or `DELETE ... WHERE` is one atomic step on a map of rows, and other requests
may move wherever the code awaits. Protocols of several parties are state machines: a step that is
not possible in a state changes nothing, a run is any sequence of steps, and the main results speak
about every run. Code that one party runs on its own objects is a class with methods, or a method
with loops, proved against a function or stated outright. History that only the properties need
(which password a client typed, which calls were admitted) is kept in extra fields that no step reads
to decide what it does, except where a value must be new (row ids, session ids, password generations).

| file | what it models |
|---|---|
| Accounts, LoginProtocol, CredentialSafety, Lockout, SessionLifetime | local login, password change, session lookup, lockout and timeouts, interleaved statement by statement |
| Logins, Beginnings | what a whole login or password change comes to, stated from the request to its end: alone, and over every run |
| Statements, AuthDatabase | what a task does when nobody comes between its statements, and the same statements as methods on the tables |
| Administration | what the steps of administration do to every row, and what unlocking means |
| AdminGuard | changes of users and directories under the administrator lock |
| LogExport, LogDownload | keyset paging of the log export over a changing table, its re-chunking into bytes, and the whole download with the real printer |
| Gregorian, WallClock | the calendar, and the search for the instant that a wall clock reading names |
| Decimal, Csv, CsvPrinters | numerals, a reader for section 2 of RFC 4180, and the three CSV printers |
| SkillAliases | planning, applying and rolling back the skill aliases |
| WorkerPipe | the line protocol with a collector's worker process, and the worker's loop |
| Backups, StartupMigration | the migration at start of several processes on one SQLite file, and its backups |
| Ingestion | cursor-based collection of events with overlapping windows |
| RateLimiter, BodyLimit | the sliding-window limiter and the request body limit |
| ChatPanelStorage | the chat panel's snapshot and its scopes |
| PluginRegistry, CollectorJobs | the registry of collectors and the jobs that follow it |
| NotableScores, EventRates | scores by representative, and event counts in time buckets |
| Options | the optional value |

## Where the code falls short of its intent

Each point has a lemma with a concrete or general failing case and the condition under which the
code does what it is meant to.

- A wall clock time in the years 1 to 99 is never found although it exists (`EarlyYearsNeverShown`,
  `NothingIsWrongExactlyForEarlyYears`), and a found instant before year 1000 is not formatted back as
  typed (`FormattingGivesBackInput`).
- The touch of a foreground request carries the time at which the request started, is left out within
  the touch interval, and comes late if the request is slow. So requests that start close enough
  together can still lose the session (`SlowRequestLosesSession`). What counts is when the latest
  finished request started: at most the idle timeout less the touch interval ago is enough, over whole
  runs (`SpacedSessionLives`), and one microsecond more is not (`SpacingIsExact`).
- A line that a plugin writes to the pipe and that is not rejected by the JSON decoder is not followed
  by a kill: later requests take the responses to earlier ones, or the line itself
  (`NoObjectMispairs`, `ObjectMispairs`, `PairsStayRightExactly`).
- A rescheduled collector job keeps its old misfire grace, and its old settings object
  (`RescheduledJobKeepsItsGrace`, `EqualsFreshSetUpExactly`).
- Event collection can stop for good when a full cap of events, keyed or not, may come between one second
  before the cursor and the first later event with a key (`BurstStopsCollection`, `StuckForever`,
  `KeyedFetchAdvancesExactly`, `EveryFetchAdvancesExactly`).
- Event counts before 1970 can land in the wrong bucket (`SqlBucketIsRightExactly`,
  `CountsAreOfIntervals`, `BrowserAgreesExactly`), and those put past the last bucket are missed
  (`EarlyEventsCanBeMissed`, `InSeriesExactly`). The sum is still right for every period that ends in
  1970 or later, and exactly when nothing at the end is missed (`CountsSumToTheEvents`).
- The rate limiter reads the clock before it takes its lock, so its bound needs calls to get the lock
  in time order (`LateLockBreaksTheLimit`, `WindowsHoldAtMostLimit`); with calls up to d late it holds
  for intervals shorter by d, and for longer ones only with a limit of one, which is kept in any order
  (`LateWindowsHoldAtMostLimit`, `LimitOneNeedsNoOrder`, `LateBoundIsExact`).
- Unlocking writes only the columns that differed when it read the row, so a lock or failures that came
  in between, where it had seen none, stay (`UnlockClearsWhatItSaw`, `UnlockAlone`).
- A collector's time-out may be configured as NaN, which passes the check
  (`AcceptedTimeoutIsPositiveExactly`).
- A worker whose plugin returns what JSON cannot encode ends without an answer (`Serve`).

## Model

| member | source | states |
|---|---|---|
| CredentialSafety.AcceptedSessionsKnowCurrentPassword | src/vcenter_event_assistant/auth/sessions.py:92-145 | In every interleaving of logins, rehashes, password changes, resets, unlocks, lookups and administration, a session that a lookup accepts for a local user was opened or re-stamped by a client that typed the password of the user's current generation |
| CredentialSafety.StoredHashFollowsGeneration | src/vcenter_event_assistant/auth/users.py:281-321 | The stored hash of a local user always verifies exactly the password that the row's current generation set; a late rehash never brings an older password back |
| CredentialSafety.RunKeeps | src/vcenter_event_assistant/auth/service.py:242-286 | The invariant behind both, over every run: each waiting login, change and lookup knows only what its generation entitles it to |
| CredentialSafety.LoginRehashGood | src/vcenter_event_assistant/auth/service.py:319-334 | The compare-and-set rehash keeps the invariant even when a password change was stored while the new hash was computed |
| CredentialSafety.ChangeWriteGood | src/vcenter_event_assistant/auth/users.py:299-312 | The conditional password write keeps the invariant while logins, lookups and other changes wait between their statements |
| Lockout.CounterBelowMaximum | src/vcenter_event_assistant/auth/service.py:294-316 | The failure counter is below the maximum whenever no failed login of the user stands between its counting and its locking statement |
| Lockout.LocksFollowFailures | src/vcenter_event_assistant/auth/service.py:294-316 | Every lock comes after at least the maximum number of failures since the last reset, and the stored counter is exactly that number, so parallel failures are never lost |
| Lockout.NoLoginWhileLocked | src/vcenter_event_assistant/auth/service.py:337-348 | No login succeeds while a lock that the history shows is still running at the login's own time |
| Lockout.RunKeeps | src/vcenter_event_assistant/auth/service.py:294-348 | The lockout invariant holds over every run |
| Logins.LoginAlone | src/vcenter_event_assistant/auth/service.py:242-348 | A local login that nobody disturbs, from its request to its end, for any tables: a wrong password is one failure more (and locks at the maximum) and makes no session; the right one gives an active user exactly one session with the current marker, clears failures and lock and leaves a hash of the same password with the current cost; a locked, missing or directory user and a disabled one change nothing |
| Logins.OwnChangeAlone | src/vcenter_event_assistant/api/routes/auth.py:216-259 | An own password change from its request to its end: the new password is the only one that verifies and only the kept session is left, with the new marker, exactly if the current password is typed and the new one differs; otherwise users and sessions are as before |
| Logins.ResetAlone | src/vcenter_event_assistant/auth/users.py:281-321 | An administrator's reset from its request to its end replaces a local user's password in the same way, whatever it was |
| Beginnings.WrongPasswordsAreCounted | src/vcenter_event_assistant/auth/service.py:242-316 | In every run, as long as the user's row is there: the logins that began with a password the stored hash was not made from are exactly the failures in the history and the logins still under way to be counted |
| Beginnings.PasswordChangesAreEntitled | src/vcenter_event_assistant/api/routes/auth.py:225-245 | In every run, a step that changes which password verifies for a user carries out a reset, or an own change whose typed current password verified against the very hash that is replaced; the new password is the one typed with the request |
| Beginnings.SessionsComeFromLogins | src/vcenter_event_assistant/auth/sessions.py:57-83 | In every run, a session that is new, or has another user or marker than before, comes from a directory login, from a local login for its user, or from a password change of its user that keeps it |
| Beginnings.HistoryWasTyped | src/vcenter_event_assistant/auth/service.py:242-286 | Every password that the history records for a generation or a session was typed in a request for that user |
| Beginnings.RunServes | src/vcenter_event_assistant/auth/service.py:242-286 | In every run each waiting task carries the user, the passwords and the kept session of the request that began it |
| SessionLifetime.LastSeenNeverDecreases | src/vcenter_event_assistant/auth/sessions.py:188-203 | However requests on one session overlap, `last_seen_at` never goes back |
| SessionLifetime.LookupsRespectExpiry | src/vcenter_event_assistant/auth/sessions.py:107-125 | A lookup returns only rows unexpired at its own time, and the expiry path deletes only rows expired at its own time |
| SessionLifetime.TouchedRowGoesOn | src/vcenter_event_assistant/auth/sessions.py:104-125 | A lookup that meant to delete its row as expired but finds it touched meanwhile goes on with the row as it is then; if the row is gone it ends |
| SessionLifetime.EverySessionHasItsUser | src/vcenter_event_assistant/auth/sessions.py:57-83 | In every run the user of a session exists: deleting a user takes the sessions along, and a login that is overtaken by that makes none |
| SessionLifetime.SeenNeverDecreases | src/vcenter_event_assistant/auth/sessions.py:134-145 | In every run the start reading of the latest finished foreground request never goes back |
| SessionLifetime.SpacedRequestsSurvivePurge | src/vcenter_event_assistant/auth/sessions.py:225-240 | While the latest-starting finished foreground request on a session started, by its own clock reading, at most idle timeout less touch interval ago, no purge deletes the session before the absolute limit |
| SessionLifetime.SpacedRequestsSurviveLookups | src/vcenter_event_assistant/auth/sessions.py:163-185 | ... in such a state no overlapping lookup deletes it as expired, however old that lookup's own reading of the clock is |
| SessionLifetime.SpacedRequestsFindSession | src/vcenter_event_assistant/auth/sessions.py:86-111 | ... and a lookup that begins in such a state finds the row unexpired |
| SessionLifetime.SpacedSessionLives | src/vcenter_event_assistant/auth/sessions.py:86-240 | Over a whole run: an undisputed session whose requests keep that spacing at every point, and which no step revokes, whose user no step deletes, deactivates or gives another password, and whose directory stays usable, is there at the end and usable, whatever else overlaps |
| SessionLifetime.NewSessionIsUndisputed | src/vcenter_event_assistant/auth/sessions.py:57-83 | A session just made for a user who may use it, of a usable directory if any, can begin such a run: no lookup stands against it |
| SessionLifetime.TouchIntervalExactly | src/vcenter_event_assistant/auth/sessions.py:26-36 | The touch interval is a minute, or half the idle timeout if that is shorter, half a microsecond rounded to even |
| SessionLifetime.SpacingIsExact | src/vcenter_event_assistant/auth/sessions.py:26-36 | For every policy that spacing is the largest that is enough: one microsecond more and some run loses a session to a purge, unless the absolute limit is no longer than the idle timeout |
| SessionLifetime.SlowRequestLosesSession | src/vcenter_event_assistant/auth/sessions.py:142-145 | A request that started in time but has not finished does not count: a concrete run in which a slow request loses the session |
| SessionLifetime.RunKeeps | src/vcenter_event_assistant/auth/sessions.py:92-203 | The lifetime invariant holds over every run |
| AuthDatabase.Database.RecordFailure | src/vcenter_event_assistant/auth/service.py:294-316 | The two updates in place: counts one failure; locks and clears the count exactly when the maximum is reached; no other row changes; equal to the two steps of the protocol |
| AuthDatabase.Database.RecordSuccess | src/vcenter_event_assistant/auth/service.py:337-348 | Does what the protocol's success step does, and lets the login go on exactly when that step does: afterwards the user is locked at no time, with no failures counted; passwords and other rows stay |
| Statements.LockTakesAllAttempts | src/vcenter_event_assistant/auth/service.py:294-316 | After a success (or any cleared counter) it takes the maximum number of failures to lock, and the last of them locks from its own time |
| AuthDatabase.Database.Rehash | src/vcenter_event_assistant/auth/service.py:319-334 | Replaces only the verified hash, as the protocol's step does; afterwards every user is verified by the same passwords as before |
| AuthDatabase.Database.RevokeAllForUser | src/vcenter_event_assistant/auth/sessions.py:212-222 | Exactly the other users' sessions and the excepted one stay, unchanged, as after the protocol's step |
| AuthDatabase.Database.SetLocalPassword | src/vcenter_event_assistant/auth/users.py:281-321 | Either nothing changes, or the new password is the only one that verifies, the lock is gone, all other sessions of the user are gone and the kept one carries the new generation; equal to the protocol's three steps of a password change taken alone |
| AuthDatabase.Database.Touch | src/vcenter_event_assistant/auth/sessions.py:188-203 | The row is seen at the later of its own and the given time, as after the protocol's step; nothing else changes |
| AuthDatabase.Database.ResolveSession | src/vcenter_event_assistant/auth/sessions.py:92-160 | Returns a session exactly when it is unexpired, its user usable and, for a directory user, the directory enabled and allowed; otherwise its row is gone; a foreground lookup leaves it seen within one touch interval; equal to the statements of a lookup taken alone, which accepts in the same cases |
| Statements.ResolvingSteps | src/vcenter_event_assistant/auth/sessions.py:92-160 | Taken alone, the statements of a lookup accept in exactly those cases, delete the row in all others, and touch it exactly when it is due |
| AuthDatabase.Database.PurgeExpired | src/vcenter_event_assistant/auth/sessions.py:225-240 | What stays is exactly the unexpired sessions, and the count adds up; equal to the protocol's purge |
| Administration.UnlockAlone | src/vcenter_event_assistant/api/routes/auth_users.py:246-257 | Unlocking clears the failures and the lock of the user and nothing else |
| Administration.UnlockClearsWhatItSaw | src/vcenter_event_assistant/api/routes/auth_users.py:252-255 | In between other requests it clears what it saw: failures or a lock that came after it had seen none stay |
| Administration.UserIsMade | src/vcenter_event_assistant/auth/users.py:239-278 | A new user is active, without failures or lock; a local one has exactly the given password, of the current time; no row is made twice |
| Administration.UserIsSwitched | src/vcenter_event_assistant/api/routes/auth_users.py:153-163 | Disabling or enabling a user changes only that column of that row |
| Administration.UserIsDeleted | src/vcenter_event_assistant/api/routes/auth_users.py:194-203 | Deleting a user takes along exactly the row and the sessions of that user |
| Administration.SessionsEnd | src/vcenter_event_assistant/auth/sessions.py:206-240 | Which sessions a revocation or a purge ends, and that all others stay as they are |
| Administration.SessionBegins | src/vcenter_event_assistant/auth/sessions.py:57-83 | A directory login of an active directory user makes one session, as long as the policy allows; any other makes none |
| Administration.DirectoriesAndTime | src/vcenter_event_assistant/api/routes/auth_directories.py:477-489 | Enabling or disabling a directory, and the passing of time, touch no user and no session |
| AdminGuard.AdministratorsRemain | src/vcenter_event_assistant/auth/users.py:84-105 | In every run of guarded and unguarded changes there is always a way to log in as administrator |
| AdminGuard.PermittedChangeIsSafe | src/vcenter_event_assistant/auth/users.py:143-169 | A change that passes its checks leaves a local administrator who can log in, or a usable directory with an administrator mapping |
| AdminGuard.PermittedExactly | src/vcenter_event_assistant/api/routes/auth_users.py:143-203 | For every change, exactly when it is permitted: for a local user or a directory if it leaves a way to log in as administrator (a directory must stay allowed), for the deletion of a directory if that is disabled; the role of a directory user never changes |
| AdminGuard.ChangedRows | src/vcenter_event_assistant/api/routes/auth_users.py:143-203 | What a permitted change does to every row: the requested columns of the named row, with a deleted directory its users, and nothing else |
| AdminGuard.UndisturbedChange | src/vcenter_event_assistant/auth/users.py:84-105 | A request that nothing disturbs makes its change and releases the lock if it is permitted, and otherwise changes nothing |
| AdminGuard.AbandonReleases | src/vcenter_event_assistant/auth/users.py:84-105 | A request that ends with an error under the lock releases it and changes no row |
| AdminGuard.RefusedExactlyForTheLast | src/vcenter_event_assistant/auth/users.py:155-158 | For a local user the check refuses exactly when the removal would leave no way to log in as administrator |
| AdminGuard.RefusedExactlyInTheLastDirectory | src/vcenter_event_assistant/auth/users.py:159-169 | For a directory administrator it refuses exactly when that directory is the only source of administrators |
| AdminGuard.UnguardedStepAdds | src/vcenter_event_assistant/auth/cli.py:92-100 | The changes that take no guard (creating users and directories, activating, directory logins) only add sources, also to what a checked change will leave |
| AdminGuard.UnguardedRows | src/vcenter_event_assistant/auth/cli.py:92-100 | What they do to every row: nothing that exists is overwritten by creating, activating only activates, a directory login refreshes only a user of its own directory and activates none |
| AdminGuard.DirectoryUpdateIsSafe | src/vcenter_event_assistant/api/routes/auth_directories.py:477-489 | Disabling a directory or dropping its administrator mapping is permitted only if another source remains |
| AdminGuard.ChecksAloneAreNotEnough | src/vcenter_event_assistant/auth/users.py:84-92 | Without the lock two deletions that both pass their checks leave no administrator |
| LogExport.ExportIsOrdered | src/vcenter_event_assistant/services/log_export.py:60-81 | With any inserts and deletes between pages, the exported rows are strictly descending in (effective_at, id), and each was in the table, matched and was within upper_id when the page that holds it was read |
| LogExport.ExportIsComplete | src/vcenter_event_assistant/services/log_export.py:124-160 | Every matching row within upper_id that is present throughout is exported |
| LogExport.ExportedExactlyOnce | src/vcenter_event_assistant/services/log_export.py:124-160 | ... and it appears exactly once |
| LogExport.ExportedIdsAreDistinct | src/vcenter_event_assistant/services/log_export.py:66-71 | When row ids are not used again, no id appears twice |
| LogExport.ExportRefinesSorting | src/vcenter_event_assistant/services/log_export.py:60-81 | On a quiet table paging equals sorting all selected rows at once |
| LogExport.StreamLogCsv | src/vcenter_event_assistant/services/log_export.py:124-160 | For any printer the chunks add up to the header and the printed export wherever the chunk boundaries fall; if the client leaves, to a prefix; every chunk after the header is non-empty and would be under 64 KiB without the row that filled it |
| LogExport.StreamBatch | src/vcenter_event_assistant/services/log_export.py:143-153 | Re-chunking one page neither loses, repeats nor reorders a byte; every chunk of it but the last has at least 65,536 bytes, and without the row that filled it fewer |
| LogDownload.DownloadLog | src/vcenter_event_assistant/services/log_export.py:95-160 | The same with the real printer: the bytes are those of a byte order mark and a text that a reader by RFC 4180 takes apart into the header and one record per exported row, with the right column under each of the fifteen names |
| LogDownload.LogTableColumns | src/vcenter_event_assistant/services/log_export.py:22-38 | Under every header name stands, in every row, the column of that name, the names written out |
| LogDownload.DownloadIsTable | src/vcenter_event_assistant/services/log_export.py:95-121 | Header bytes and printed rows are together the encoding of one printed table, however long the messages are |
| LogDownload.EncodeIsInjective | src/vcenter_event_assistant/services/log_export.py:118-121 | An encoding in which no character's bytes begin another's, such as UTF-8, loses nothing |
| LogExport.PrepareLogExport | src/vcenter_event_assistant/services/log_export.py:84-92 | The bound is the highest id before the first page, and the first page is that of the bounded query |
| CsvPrinters.CsvRowReadsBack | src/vcenter_event_assistant/services/log_export.py:95-121 | Reading a printed log line by RFC 4180 gives exactly the neutralised fields |
| CsvPrinters.LogColumns | src/vcenter_event_assistant/services/log_export.py:95-121 | Each of the fifteen fields of a row stands under its own header name; the vCenter id stands in for a missing name |
| CsvPrinters.OffsetReadsBack | src/vcenter_event_assistant/services/log_export.py:109-114 | The printed UTC offset, seconds included, denotes the offset for every offset under a day |
| CsvPrinters.LogTextIsHarmless | src/vcenter_event_assistant/services/log_export.py:40-57 | No text column that a reader gets starts with a formula character |
| WallClock.FindInstant | frontend/src/datetime/zonedLocalDateTime.ts:141-157 | For any zone whose offset stays within three days: from year 100 on the earliest whole-minute instant of our era that shows the wanted fields, and nothing exactly when no such instant exists; for the years 0 to 99 always nothing |
| WallClock.ZonedLocalDateTimeToUtc | frontend/src/datetime/zonedLocalDateTime.ts:131-158 | The same for typed text; unreadable text or an unknown zone gives nothing |
| WallClock.WindowIsWideEnough | frontend/src/datetime/zonedLocalDateTime.ts:141-143 | Every instant of our era that shows the fields lies inside the six days that are scanned |
| WallClock.WindowInCommonEra | frontend/src/datetime/zonedLocalDateTime.ts:141-143 | From year 100 on the scan never meets an instant before year 1, whose era year could look like the typed one |
| WallClock.EarlyYearsNeverShown | frontend/src/datetime/zonedLocalDateTime.ts:141-157 | The years 0 to 99 are never found, because `Date.UTC` puts the scanned window into the 20th century |
| WallClock.NothingIsWrongExactlyForEarlyYears | frontend/src/datetime/zonedLocalDateTime.ts:131-158 | In UTC the answer "no such instant" is wrong exactly for real dates of the years 1 to 99; there is no year 0 |
| WallClock.UnrealDatesNeverShown | frontend/src/datetime/zonedLocalDateTime.ts:141-157 | A date that does not exist, such as 31 February, is shown at no instant of our era in any zone |
| WallClock.RealDatesAreShownInUtc | frontend/src/datetime/zonedLocalDateTime.ts:99-125 | Every real date and time from year 1 on is shown at some whole minute in UTC |
| WallClock.FormattingGivesBackInput | frontend/src/datetime/zonedLocalDateTime.ts:177-186 | Formatting the found instant gives the typed text back exactly from year 1000 on; earlier years come out with fewer than four digits |
| WallClock.ParsedExactlyFromItsText | frontend/src/datetime/zonedLocalDateTime.ts:20-49 | A text is accepted with certain fields exactly if they are in their ranges and the text is their `YYYY-MM-DDTHH:mm` with white space around it |
| Gregorian.DayNumbersAreUnique | frontend/src/datetime/zonedLocalDateTime.ts:141-141 | Two real dates with one day number are the same date |
| Gregorian.DateOfDayOf | frontend/src/datetime/zonedLocalDateTime.ts:99-125 | Day numbers and real dates invert each other over all years |
| CsvPrinters.MetricPointsToCsv | frontend/src/metrics/metricCsv.ts:50-80 | Whatever the texts hold (quotes, commas, CR, LF), a reader of the file gets the header and one record per point, each field under its name, the three overlay columns included exactly when width, counts and an event type are given |
| CsvPrinters.MetricColumns | frontend/src/metrics/metricCsv.ts:22-80 | The six fields of a point and the overlay of its bucket stand under their own names |
| CsvPrinters.EventRowsToCsv | frontend/src/events/eventCsv.ts:46-67 | The same for event rows and their twelve names |
| CsvPrinters.EventColumns | frontend/src/events/eventCsv.ts:24-67 | The twelve fields of an event stand under their own names |
| CsvPrinters.MetricTextIsHarmless | frontend/src/metrics/metricCsv.ts:61-76 | No text field of a metric row that is read back starts with a formula character, the overlay event type included |
| CsvPrinters.EventTextIsHarmless | frontend/src/events/eventCsv.ts:49-63 | No text field of an event row that is read back starts with a formula character |
| Csv.PrintedRecordsReadBack | frontend/src/metrics/metricCsv.ts:14-20 | Printing any non-empty records with the two printers' quoting and reading them by section 2 of RFC 4180 gives the records back |
| Csv.NeutralizedIsHarmless | frontend/src/metrics/metricCsv.ts:9-11 | Neutralising leaves text alone unless it starts with one of the eleven formula characters, which are written out, and makes that harmless by one leading apostrophe |
| SkillAliases.AliasTree.ApplyPlan | scripts/link_skills.py:202-242 | Either every plan is applied, or the tree is as before (same entries, same raw link texts) except for the aliases reported as stuck; one failing file operation alone leaves nothing stuck |
| SkillAliases.AliasTree.ApplyOne | scripts/link_skills.py:206-228 | A failing alias is undone at once: published, as before, or reported |
| SkillAliases.AliasTree.UndoAll | scripts/link_skills.py:229-235 | Undoing the applied plans last first restores every alias it does not report and touches nothing else |
| SkillAliases.AliasTree.Synchronize | scripts/link_skills.py:263-286 | Exit code 0 says that every alias ends at its skill; with nothing stuck the tree is as it was or everything is published and every path still resolves as before, the latter with code 1 only after a failing look. Without failures the code is 0 exactly if there are skills and each alias is absent, leads to its skill or is spelled as the legacy link; then aliases that led home stay, the others become direct links, and nothing else changes |
| SkillAliases.SecondRunChangesNothing | scripts/link_skills.py:263-286 | After a completed run, even one planned under failing looks, a re-built plan exists, keeps every alias, and applying it changes nothing |
| SkillAliases.PublishedResolves | scripts/link_skills.py:202-228 | A completed run publishes every alias, and every path that resolved before still resolves to the same place, even if failing looks made it replace working legacy links |
| SkillAliases.ChangedAliasesLeadToTheirSkill | scripts/link_skills.py:101-127 | Whatever looks failed, an alias that is to be created or migrated leads nowhere, or to its own skill already |
| SkillAliases.ChangedAliasesLeadNowhere | scripts/link_skills.py:101-127 | When no alias is in conflict and no look fails, an alias that is to be created or migrated lies on no chain of links that leads anywhere |
| SkillAliases.ResolvesExactlyAlongChains | scripts/link_skills.py:59-64 | Strict resolution with loop detection finds a place exactly when some number of links leads there |
| SkillAliases.AliasTree.BuildPlan | scripts/link_skills.py:130-143 | Every alias is classified before anything changes, and one conflict refuses the whole plan; without failing looks there is a plan exactly if each alias is absent, leads to its skill or is spelled as the legacy link; a failing look at most refuses it too or migrates a legacy link |
| SkillAliases.ConflictsByEntries | scripts/link_skills.py:101-127 | In terms of entries alone: there is a conflict exactly if some alias is neither absent, nor leads to its skill, nor is spelled as the legacy link |
| SkillAliases.PlanUpdates | scripts/link_skills.py:202-228 | A whole plan makes the aliases that did not lead home direct links to their skills and changes nothing else |
| SkillAliases.PublishedIsAllKeep | scripts/link_skills.py:101-127 | A tree classifies as all-keep exactly when every alias ends at its skill |
| SkillAliases.AliasTree.Verify | scripts/link_skills.py:245-260 | The final check accepts only published trees, and every published tree unless a look fails |
| WorkerPipe.ResponsesAnswerTheirRequests | src/vcenter_event_assistant/plugins/remote.py:116-158 | In every run of requests, replies, time-outs, pipe errors, crashes and restarts, responses are taken in the order of sending; and as long as the decoder rejects every stray line that is read, a response that is taken is the worker's response to that very request although ids are never compared |
| WorkerPipe.PipesAreEmptyBetweenRequests | src/vcenter_event_assistant/plugins/remote.py:95-170 | As long as the decoder rejects every stray line that is read: whenever the lock is free, both pipes of the current worker are empty and it is doing nothing |
| WorkerPipe.ReadingDecides | src/vcenter_event_assistant/plugins/remote.py:143-158 | A line read from a live worker leaves the pipes fit for the next request exactly if it is a response or one that the JSON decoder rejects |
| WorkerPipe.NoObjectMispairs | src/vcenter_event_assistant/plugins/remote.py:147-152 | Concrete run: after a stray line that is JSON but no object, the second request takes the response to the first |
| WorkerPipe.ObjectMispairs | src/vcenter_event_assistant/plugins/remote.py:152-158 | Concrete run: a stray JSON object is itself taken as the answer |
| WorkerPipe.PairsStayRightExactly | src/vcenter_event_assistant/plugins/remote.py:147-158 | Over all runs: requests and responses pair right exactly if every kind of stray line that may be read is one that the decoder rejects |
| WorkerPipe.RequestsAreHandledAtMostOnce | src/vcenter_event_assistant/plugins/remote.py:127-142 | No request is handled twice, not even by a worker that survived being killed |
| WorkerPipe.RunKeeps | src/vcenter_event_assistant/plugins/remote.py:95-170 | The invariant behind these, over every run: lock, order of answers, and, while only rejected stray lines were read, the pairing |
| WorkerPipe.UndisturbedExchange | src/vcenter_event_assistant/plugins/remote.py:123-158 | After any run without unrejected stray lines, an undisturbed exchange completes, gives the worker's answer and leaves the worker in place with empty pipes |
| WorkerPipe.FailedExchangeDropsWorker | src/vcenter_event_assistant/plugins/remote.py:127-170 | A time-out, a closed pipe or a line that is rejected drops the worker, which is dead from then on unless it survives the signal; no other worker or task is touched |
| WorkerPipe.LeavingFreesTheLock | src/vcenter_event_assistant/plugins/remote.py:116-142 | Leaving after a failure, or before anything was sent, frees the lock and touches no worker |
| WorkerPipe.NextTaskGetsFreshWorker | src/vcenter_event_assistant/plugins/remote.py:95-122 | The next task after a failed exchange gets the lock and a new worker with empty pipes |
| WorkerPipe.WorkerSteps | src/vcenter_event_assistant/plugins/worker.py:263-302 | Dead workers do nothing, a busy one takes no further request, one that dies leaves at most a torn line |
| WorkerPipe.StaleResponseWouldBeTaken | src/vcenter_event_assistant/plugins/remote.py:148-158 | A reader that met an older response in the pipe would take it: nothing but the empty pipe keeps pairs right |
| WorkerPipe.CancelledReaderLeavesBehind | src/vcenter_event_assistant/plugins/remote.py:123-149 | Leaving the lock while reading without giving the worker up leads to just that |
| WorkerPipe.Serve | src/vcenter_event_assistant/plugins/worker.py:263-302 | The worker's loop writes one response for each well-formed line and none for others, in order, each for its own request, up to the first line on which it ends: JSON that is no object, or a result that JSON cannot encode; a success carries the result and is within the size limit |
| WorkerPipe.OneLineOutPerLineIn | src/vcenter_event_assistant/plugins/worker.py:263-302 | The lines that the specification writes have that property; an answer of more than 8,388,608 bytes is replaced by an error |
| WorkerPipe.AskedIsInOrder | src/vcenter_event_assistant/plugins/worker.py:263-302 | The answered lines are all the well-formed ones, in their order |
| StartupMigration.OneMigratesAndAllReturnAtHead | src/vcenter_event_assistant/db/startup_migration.py:50-73 | For any number of processes that fail or are killed anywhere: locked sections never overlap, at most one upgrade completes, and whoever returned normally left the head revision |
| StartupMigration.WritesFollowBackups | src/vcenter_event_assistant/db/startup_migration.py:193-203 | Every stamp and every part of an upgrade of a database with tables came after a complete backup of exactly what was there, and only processes with automatic migration write; the stamp comes first, exactly if the database had no revision and its tables are known, and writes just their revision; each later write starts from where the one before ended |
| StartupMigration.UpgradeStartsFromStamp | src/vcenter_event_assistant/db/startup_migration.py:193-203 | In every run, while an upgrade has written nothing yet the database is exactly what was read, with the revision of its tables if it was stamped |
| StartupMigration.WithoutAutoNothingIsWritten | src/vcenter_event_assistant/db/startup_migration.py:238-243 | In every run without automatic migration nothing is written and no backup is made; where there is no file none appears and every process fails |
| StartupMigration.UndisturbedCheckOnly | src/vcenter_event_assistant/db/startup_migration.py:175-182 | Such a process returns from an existing file exactly if it is at the head |
| StartupMigration.DisturbingSteps | src/vcenter_event_assistant/db/startup_migration.py:216-260 | Giving up, failing, being killed and partial upgrades: what is released, and that only a failed copy removes its own backup |
| StartupMigration.FirstDatabaseIsRecoverable | src/vcenter_event_assistant/db/startup_migration.py:193-213 | Until the head is reached the database of before the run is still there or in a complete backup, whoever crashed where; with 0 generations for good |
| StartupMigration.HeadIsFinal | src/vcenter_event_assistant/db/startup_migration.py:175-178 | Once at the head, no migration writes again |
| StartupMigration.RunKeeps | src/vcenter_event_assistant/db/startup_migration.py:160-213 | The invariant behind these, over every run |
| StartupMigration.UndisturbedProcessCompletes | src/vcenter_event_assistant/db/startup_migration.py:150-247 | For any database, backups and number of generations: an undisturbed process completes exactly if the revision is the head or known, or there is none and the tables are not ambiguous; it then leaves the head, after stamping where needed, adds a backup of what was there and prunes all but the newest; otherwise it fails and changes nothing stored |
| StartupMigration.UndisturbedIsRun | src/vcenter_event_assistant/db/startup_migration.py:160-213 | The statements of that process, in this order, are a run of the state machine |
| Backups.PruningKeepsTheNewest | src/vcenter_event_assistant/db/startup_migration.py:135-147 | Pruning to N generations keeps every foreign file and exactly the newest N own backups |
| Backups.BackupFolder.Prune | src/vcenter_event_assistant/db/startup_migration.py:135-147 | Removes exactly the superfluous own files; if a removal fails, nothing else than superfluous files is gone |
| Backups.PositionIsAge | src/vcenter_event_assistant/db/startup_migration.py:142-146 | In newest-first order the position of a file is the number of newer ones |
| Ingestion.MissingEventsAreInTheNextWindow | src/vcenter_event_assistant/services/ingestion.py:62-67 | Once the cursor came from an event, every visible keyed event that is not stored lies in the next window, also after a fetch that hit the cap, as long as new events are at most a second older than the latest |
| Ingestion.NothingIsStoredTwice | src/vcenter_event_assistant/services/ingestion.py:32-48 | No (vCenter, collector, key) is stored twice, and the row of a key holds the event with that key |
| Ingestion.UncappedFetchStoresEverything | src/vcenter_event_assistant/services/ingestion.py:89-117 | A fetch below the cap stores everything that was missing up to its end |
| Ingestion.FetchReaches | src/vcenter_event_assistant/collectors/events.py:67-73 | What a fetch below the cap of 50,000 events shows: with a cursor everything from one second before it on, without one the last 86,400 seconds |
| Ingestion.OutsideSteps | src/vcenter_event_assistant/services/ingestion.py:32-48 | Events appear and are forgotten one by one; rows of others are stored unless their key is there |
| Ingestion.CursorAdvances | src/vcenter_event_assistant/collectors/events.py:78-102 | A fetch reaches a later event if the window up to it is within the cap |
| Ingestion.FullSecondStopsTheCursor | src/vcenter_event_assistant/collectors/events.py:78-102 | With a full cap of events in the second up to the cursor no fetch moves the cursor forward |
| Ingestion.KeyedFetchAdvancesExactly | src/vcenter_event_assistant/collectors/events.py:78-102 | When every event has a key: a fetch with a later event before its end moves the cursor forward exactly if the second up to the cursor holds fewer events than the cap |
| Ingestion.EveryFetchAdvancesExactly | src/vcenter_event_assistant/collectors/events.py:78-102 | For any events: every fetch moves the cursor forward exactly if fewer events than the cap, those without a key included, may come before the first later event with a key |
| Ingestion.BurstStopsCollection | src/vcenter_event_assistant/collectors/events.py:78-88 | Concrete run: after 50,000 events at one moment a later event is never stored, however often collection runs and whatever else appears, as long as the server forgets nothing |
| Ingestion.StuckForever | src/vcenter_event_assistant/services/ingestion.py:119-127 | In general: once the second up to some time fills the cap and the cursor is not past it, the cursor stays behind in every run in which the server forgets nothing, and no later event is stored any more, new ones included |
| Ingestion.StuckFetchesChangeNothing | src/vcenter_event_assistant/services/ingestion.py:119-127 | If everything up to that time is stored, fetching alone changes no row |
| Ingestion.StoringIsExact | src/vcenter_event_assistant/services/ingestion.py:90-117 | Storing appends rows, never a key twice; it holds every event given, and whatever is new is one of them |
| Ingestion.EventTable.IngestEvents | src/vcenter_event_assistant/services/ingestion.py:51-129 | One ingestion in place: the stored rows, the number of new ones and the cursor; other vCenters' cursors stay |
| Ingestion.FetchEvents | src/vcenter_event_assistant/collectors/events.py:75-102 | Pages up to the cap, the events with a key, and the latest of their times |
| Ingestion.LatestIsMaximum | src/vcenter_event_assistant/collectors/events.py:92-102 | `max_ts` is the maximum of the fetched times, and absent exactly for an empty batch |
| RateLimiter.WindowsHoldAtMostLimit | src/vcenter_event_assistant/rate_limit.py:17-26 | With one limit and window per key and times that do not go back, no half-open interval of the window's length holds more than `limit` admitted calls |
| RateLimiter.LateWindowsHoldAtMostLimit | src/vcenter_event_assistant/rate_limit.py:17-26 | With calls that get the lock at most d out of time order, no half-open interval of length window less d holds more than `limit` admitted calls |
| RateLimiter.LimitOneNeedsNoOrder | src/vcenter_event_assistant/rate_limit.py:17-26 | In whatever order calls get the lock, a limit of one is kept in every half-open interval of the window's length |
| RateLimiter.LateBoundIsExact | src/vcenter_event_assistant/rate_limit.py:17-26 | For every limit, window and d: intervals of some length never hold more than the limit exactly if that is no longer than window less d, or than the window for a limit of one |
| RateLimiter.RefusedExactlyWhenFull | src/vcenter_event_assistant/rate_limit.py:17-26 | A call is refused exactly when `limit` admitted calls lie in the window that ends with it, although old hits are forgotten |
| RateLimiter.KeysAreIndependent | src/vcenter_event_assistant/rate_limit.py:19-25 | What happens to a key depends on its own calls only |
| RateLimiter.LateLockBreaksTheLimit | src/vcenter_event_assistant/rate_limit.py:18-19 | The clock is read before the lock is taken; calls that get the lock out of time order can exceed the limit |
| RateLimiter.InMemoryRateLimiter.Allow | src/vcenter_event_assistant/rate_limit.py:17-26 | Each call extends the history; it is admitted or not exactly as reported, and other keys' hits stay |
| BodyLimit.RejectsExactlyLargerNumbers | src/vcenter_event_assistant/api/request_body_limit.py:66-83 | The Content-Length test rejects exactly the values that are an ASCII numeral of a number above the limit, leading zeros included, with white space (twelve characters, written out) around it |
| BodyLimit.NumeralOrder | src/vcenter_event_assistant/api/request_body_limit.py:72-78 | On numerals without leading zeros, length and then lexicographic order is the order of the numbers |
| BodyLimit.LimitedReceive.Receive | src/vcenter_event_assistant/api/request_body_limit.py:90-102 | However the body is cut into chunks the application never gets more than `limit` bytes, and gets every message until more have arrived |
| BodyLimit.Serve | src/vcenter_event_assistant/api/request_body_limit.py:61-104 | A larger announced length is rejected before anything is read; a served request was seen whole; for body-carrying methods at most `limit` bytes are seen; a rejection has one of the two reasons |
| ChatPanelStorage.ChatStorage.Read | frontend/src/preferences/chatPanelStorage.ts:115-133 | Gives only the latest successful write of the scope's owner with no sign-out, switch or clearing since, trimmed; a stale handle gets nothing and changes nothing |
| ChatPanelStorage.ChatStorage.Write | frontend/src/preferences/chatPanelStorage.ts:140-155 | Only the active handle writes; a failed write changes nothing; a successful one is what the next read gives |
| ChatPanelStorage.ChatStorage.Activate | frontend/src/preferences/chatPanelStorage.ts:64-85 | Signing out or switching owner ends the use of the stored data even if it cannot be removed; a reload by the same owner reads again what was kept for it; no stale handle ever becomes active again |
| ChatPanelStorage.ChatStorage.Clear | frontend/src/preferences/chatPanelStorage.ts:158-162 | Ends the use of the data through the active handle; a stale handle clears nothing |
| ChatPanelStorage.ChatStorage.Release | frontend/src/preferences/chatPanelStorage.ts:19-22 | Afterwards the handle is stale and reads nothing, every other handle is active exactly if it was, and what the tab keeps for each owner stays for a reload |
| ChatPanelStorage.TrimTwice | frontend/src/preferences/chatPanelStorage.ts:90-101 | Trimming on write and again on read keeps the newest messages, as many as both allow |
| ChatPanelStorage.TrimKeepsTheNewest | frontend/src/preferences/chatPanelStorage.ts:90-101 | A positive maximum keeps that many of the newest messages, or all there are; any other keeps none |
| PluginRegistry.BuildRegistry | src/vcenter_event_assistant/plugins/registry.py:169-280 | Enabled plugins have distinct ids, an interval of at least 10 seconds and no metric key in common; each candidate ends as failed exactly if it cannot be read, is invalid, shares its id, has a bad configuration, or is enabled with a key that an earlier candidate claimed or that it names twice, and otherwise as configured; every candidate and configured id is registered |
| PluginRegistry.RegisterOne | src/vcenter_event_assistant/plugins/registry.py:217-270 | One candidate: every key of an enabled plugin belongs to it, other registrations stay; it is registered as configured exactly if nothing opposes it, and fails otherwise |
| PluginRegistry.ClaimKeys | src/vcenter_event_assistant/plugins/registry.py:260-265 | Claims clash exactly when a key has an owner or is named twice; the keys before that are claimed, and claims never change an owner |
| PluginRegistry.FlawlessDoesNotFail | src/vcenter_event_assistant/plugins/registry.py:217-280 | A candidate with nothing wrong, whose id and keys nobody else wants, does not fail |
| PluginRegistry.AcceptedTimeoutIsPositiveExactly | src/vcenter_event_assistant/plugins/registry.py:246-254 | An accepted time-out is positive exactly if it is a number: the check lets NaN pass |
| PluginRegistry.NaNTimeoutIsAccepted | src/vcenter_event_assistant/plugins/registry.py:246-254 | Concrete: an otherwise good configuration with NaN is accepted |
| CollectorJobs.JobIdsAreDistinct | src/vcenter_event_assistant/jobs/scheduler.py:81-99 | Different plugins have different job ids, legacy names included, and all are recognised as collector jobs |
| CollectorJobs.JobIdsAreNamed | src/vcenter_event_assistant/jobs/scheduler.py:81-99 | The two legacy ids belong to exactly the two built-in plugins; every other id is the prefixed plugin id |
| CollectorJobs.ReconcileCollectorJobs | src/vcenter_event_assistant/jobs/scheduler.py:333-380 | The jobs after reconciling, for every job id; the reported changes are exactly the additions, removals and new intervals, nothing else and none twice, and none is reported exactly when nothing changed |
| CollectorJobs.SetUpCollectorJobs | src/vcenter_event_assistant/jobs/scheduler.py:282-292 | A set-up creates exactly the wanted collector jobs |
| CollectorJobs.FreshJobs | src/vcenter_event_assistant/jobs/scheduler.py:267-292 | After a set-up every enabled plugin has a job with its interval, the current settings and a misfire grace of half the interval |
| CollectorJobs.ReconciledRunsTheWantedJobs | src/vcenter_event_assistant/jobs/scheduler.py:347-380 | Reconciling any scheduler leaves exactly the wanted collector jobs, each with its plugin and interval, and all other jobs |
| CollectorJobs.EnabledPlugins | src/vcenter_event_assistant/jobs/scheduler.py:347-351 | The wanted jobs name each enabled plugin of a registry once, with the interval of its configuration |
| CollectorJobs.ReconciledFollowsRegistry | src/vcenter_event_assistant/jobs/scheduler.py:333-380 | Reconciling any scheduler with any built registry leaves a job for exactly the enabled plugins, with their configured interval of at least ten seconds |
| CollectorJobs.SecondReconcileChangesNothing | src/vcenter_event_assistant/jobs/scheduler.py:347-380 | A second reconciliation changes nothing |
| CollectorJobs.EqualsFreshSetUpExactly | src/vcenter_event_assistant/jobs/scheduler.py:362-378 | The result equals a fresh set-up exactly if every wanted job that existed already had the settings and misfire grace of a fresh one |
| CollectorJobs.RescheduledJobKeepsItsGrace | src/vcenter_event_assistant/jobs/scheduler.py:376-378 | A collector moved from 60 to 600 seconds keeps a grace of 30 seconds where a fresh job has 300 |
| NotableScores.QueryTopEventTypeBuckets | src/vcenter_event_assistant/services/metric_ranking.py:93-154 | The maximum over one representative per (type, severity, has-keyword) is the maximum final score over all events of the type, with the type's count |
| NotableScores.RepresentativeScoresAlike | src/vcenter_event_assistant/services/metric_ranking.py:135-143 | A group's representative scores like every event of the group, for every delta |
| NotableScores.ScoreEvent | src/vcenter_event_assistant/rules/notable.py:46-87 | The score is 40 for an error or 20 for a warning, and 35 and 10 more for a high-risk type and an alert keyword; each of the four tags is there exactly for its reason, no other tag, and none twice |
| NotableScores.HighAttentionTypes | src/vcenter_event_assistant/rules/notable.py:13-22 | The high-risk types are exactly the six that are written out |
| NotableScores.Keywords | src/vcenter_event_assistant/rules/notable.py:24-25 | A message alerts exactly if its lower-cased text contains one of the five words |
| NotableScores.ContainsExactly | src/vcenter_event_assistant/rules/notable.py:76-79 | Containing a word means being some text, the word, and some text |
| NotableScores.PatternExactly | src/vcenter_event_assistant/rules/notable.py:43-46 | A pattern with a star at its end matches exactly what begins like it, any other only itself |
| NotableScores.CountOfType | src/vcenter_event_assistant/services/metric_ranking.py:107-115 | The count of a type is the number of its events |
| NotableScores.MaxScoreIsMaximum | src/vcenter_event_assistant/services/metric_ranking.py:144-145 | The specification is a maximum that some event of the type attains |
| EventRates.GetEventRateSeries | src/vcenter_event_assistant/services/event_repository.py:67-93 | As many contiguous buckets as announced, each with its start and the number of events the database puts there; together they count the events of the period that are not missed |
| EventRates.InSeriesExactly | src/vcenter_event_assistant/services/event_repository.py:67-93 | An event of the period is in some bucket of the series exactly if it is not missed: it is missed if it lies before the epoch, off a boundary, in the last bucket, or, with buckets of one second, before the rounded start |
| EventRates.CountsSumToTheEvents | src/vcenter_event_assistant/services/event_repository.py:67-93 | For any period and width: the counts sum to the number of events in the period, whatever the events are, exactly if nothing at its end (for one-second buckets, at its start) is missed |
| EventRates.LatePeriodsLoseNothing | src/vcenter_event_assistant/services/event_repository.py:67-93 | So with buckets of two seconds or more every period that ends at the epoch or later loses nothing |
| EventRates.CountsAreOfIntervals | src/vcenter_event_assistant/services/sql_time.py:28-34 | Each bucket counts just the events in its interval, fractions of a second included and whatever the events are, exactly if the period starts at the epoch or later, or lies in one boundary second, or the buckets are one second wide |
| EventRates.SqlBucketIsRightExactly | src/vcenter_event_assistant/services/event_repository.py:69-70 | The database's bucket is the right one exactly for seconds from the epoch on and for seconds on a bucket boundary |
| EventRates.EarlyEventsCanBeMissed | src/vcenter_event_assistant/services/event_repository.py:67-93 | A period that loses an event: a concrete series of ten seconds before the epoch |
| EventRates.BucketsFit | src/vcenter_event_assistant/services/event_repository.py:18-30 | The bucket count covers the period without gap or excess |
| EventRates.BrowserAgreesExactly | frontend/src/metrics/metricCsv.ts:38-41 | The browser names the same bucket as the server exactly for times from the epoch on and for times in the first second of a bucket |

## Left out

- The password policy (a minimum length) and the refusal of a change by a user without a password of their own: requests that it lets through are the ones modelled.
- Combined requests: changing a role or disabling a user also revokes the sessions, and the command line's unlock of a disabled user revokes and activates; here these are separate steps. The refusal to delete oneself.
- Password hashing and tokens: a hash verifies exactly its own password, and session ids are never drawn twice.
- Two password changes of one user at the same microsecond: the time is the generation, and such a step is not taken.
- Directory login itself (LDAP), its realms and role mapping: only its effect on rows is a step. Whether a directory is enabled and whether the connection policy allows it are one flag, which a deleted directory does not have; the directory of a user never changes.
- SQL text, the ORM and dialect differences, and transaction isolation beyond atomic statements.
- The verification of new directory settings by a trial login: it only refuses more changes than the model does.
- Locking of the administrator guard between processes: the guard is one lock.
- LogExport: the outer join with vCenter names (a row is one value), the table of UTF-8 itself (any encoding, with one more promise if it is prefix-free), and errors of the database during a download.
- WallClock: the text form of instants, which are milliseconds here, the end of the browser's range of dates, and the spelling "hour 24" of some browsers, with the guess that tells its two meanings apart.
- Csv: the reader takes every character outside quotes, comma, CR and LF as text, where RFC 4180 lists printable ASCII only.
- CsvPrinters: numbers are any text without special characters, `JSON.stringify` and the display of times are given as text, and downloads are not modelled.
- SkillAliases: parent directories, Windows junctions, the listing of the skills, and failures to see whether an entry exists or is a link at all; resolving a link may fail at any time.
- WorkerPipe: cancellation of a request and a shutdown that races with one; the code does not guard against them, and two lemmas show what the first would do. A plugin may write lines of any kind past the protocol while it handles a request, but not at other times.
- WorkerPipe: what a request does inside a plugin, and the plugin cache.
- StartupMigration: PostgreSQL and in-memory databases, the polling of the lock, the inside of Alembic (an upgrade is any change that ends at the head or fails part way), and writers that take no part in the protocol. Revisions that old databases are stamped with are older than the head.
- Backups: file permissions and the order of names that are not the migration's own.
- Ingestion: the gap after an empty first fetch, whose cursor is wall time taken after the fetch; the claim starts with the first cursor taken from an event. Events without a creation time, scoring, and the mock collector.
- Ingestion: the server shows the events of a window in time order; with equal times any order.
- BodyLimit: the choice of the limit by path, and the form of the refusal (multipart or not).
- ChatPanelStorage: the schema (a stored text passes it or not), legacy keys, and other tabs.
- PluginRegistry.ConfigOf: does not promise a positive time-out, because the code accepts NaN.
- PluginRegistry: reading the configuration, discovery, and starting and stopping plugins. Messages of failures. A configured interval of infinity, on which the building of the registry ends with an error.
- CollectorJobs: running jobs, and the jobs that are not collectors beyond that they stay.
- NotableScores: the database answers grouping and top-N queries correctly, and lower-cases like the application.
- EventRates: other filters than type and period, and calendar dates outside the range of the database.
- Routes, middleware, pyVmomi, SMTP, chat and digest generation, plugin installation, settings, React hooks and the activity timer: plumbing, or defined by libraries.
- `wire.py`, hash routing, clamps and storage preferences: true but easy.
