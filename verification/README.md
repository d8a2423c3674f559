# Stack Manager core: a verified model

Stack Manager runs Docker Compose projects: it schedules actions, tracks jobs, checks
registries for updates, applies catalog templates and follows logs. This project models
the algorithms and small protocols inside its Go core and proves what they guarantee, for
every input, every interleaving and every cut-off run.

| module | models |
|---|---|
| `Calendar`, `Cadence` | Gregorian day arithmetic and the next run of interval, daily, weekly and monthly schedules |
| `Dispatch` | the dispatcher over the schedule tables, one tick, and a schedule row under the ticker and concurrent manual runs |
| `JobRace` | a job goroutine racing with the dispatcher that records it |
| `Text`, `EnvMerge`, `SettingsFile` | line-based files: the template `.env` merge and the settings `.env` update |
| `MountScan`, `ComposeLayout`, `ComposeStyles`, `Provenance` | the compose mount guard, what it understands, and catalog-managed projects whose operations may be cut off between two writes |
| `VerifyUpdate`, `UpdatePipeline` | post-update container verification, and the two update pipelines around it |
| `UpdateChecks` | one project's registry scan, keeping earlier results, the fleet scan and its cooldown |
| `Watch` | the live-session maps under concurrent starts and exits, and log streaming |

`Basics` holds shared types. `dafny verify dfyconfig.toml` checks everything.

## Conventions

- Instants are nanoseconds since Go's zero time; a zone is any fixed offset from UTC.
- Texts are sequences of Unicode scalar values, so byte-level invalid UTF-8 is outside the model.
- Docker, git, HTTP, hooks, clocks, random ids and the database connection are parameters:
  each call receives their answers. Maps are walked in any order.
- Concurrent code is a state machine whose events are the critical sections and shared
  reads of the source; a run is any sequence of events, and an event that is not enabled
  changes nothing. Where the source mutates an object or loops, a class or a method does
  the same and is proved against the function the theorems are about.
- The run tables follow the SQL of `storage`: completing a run touches only rows whose
  status differs.

## Findings

Properties that the code, its comments or its documentation suggest but that do not hold as
stated; each has a lemma at a failing input and the exact condition under which it does hold.

- A manual run can make the ticker fire one occurrence twice, whatever the cadence
  (`StraddlingFiresTwice`): exactly when the time it writes does not follow the last
  dispatch and the ticker lists that time (`SpacedExactly`, `RunNowThenTick`).
- A failed job's end time and duration can be lost from its run row
  (`FailedTimingCanBeLost`): exactly when the dispatcher settles the row from a look between
  the failure mark and the deferred update (`TimingExactly`).
- "At most one live session per project" fails when two starts overlap (`OverlapHappens`):
  exactly when a start registers while another session of the project runs (`EnterDoubles`,
  `OneSessionPerProject`); not every overlap does (`OverlapCanBeHarmless`).
- The mount guard is documented to fail closed on any layout it cannot read
  (server/internal/core/template_update.go:107-109), and does not. In every indentation other
  than 2, 4 and at least 6 spaces it sees no mount (`MountsVanish`, `RemountUnseen`), and a
  comment or anchor behind a service name hides that service (`LayoutScans`,
  `ServicesVanish`); `UnderstoodExactly` says that nothing else does, over files in short
  syntax. Inline volumes count only at indentation 4 (`InlineVolumesExactly`), and
  `KnownExactly` says which lines make the guard give up.
- A template apply cut off after the compose file was written leaves a project that reads
  as locally changed (`InterruptedApply`), and no apply, release or `.env` edit mends that
  (`InterruptedForGood`).
- Backups carry second-grained timestamps, and two applies in one second can lose a text
  (`SharedStampLosesBackup`): exactly when the second backs up a different text
  (`ApplyKeepsBackups`, `BackupsKeptExactly`).
- A rate limit that comes after an ordinary error in the same project is masked: the fleet
  scan goes on, and earlier notices of images the scan did not reach are lost
  (`MaskedLimitLosesNotice`). `LimitShownUnlessMasked`, `StopIsTheChecks` and
  `NoticesKeptExactly` say exactly when.
- The two update pipelines can disagree on success (`InconsistentPreflight`);
  `UpdatesAgreeExactly` says exactly when.
- An `.env` merge is a textual fixed point only from its second application on
  (`MergeStabilises`, `IndentedSettingUnstable`; `FirstMergeStable` says exactly when the
  first one is).
- Normalising a compose text, meant to remove noise only, can change its scan when it opens
  with an indented `services:` (`IndentedHeadDiffers`); `NormalizeChanges` says exactly when.

## Model

| member | source | states |
|---|---|---|
| Calendar.DaysInMonthIsTable | server/internal/core/scheduler.go:505-507 | "day 0 of the next month" yields the RFC 3339 month-length table for every year, negative ones included |
| Calendar.CivilRoundTrip | server/internal/core/scheduler.go:497-503 | reading back the day number of any valid date gives that date; both directions of the calendar are inverse |
| Calendar.DateOf | server/internal/core/scheduler.go:454-455 | the date computed for any day number is a valid Gregorian date with exactly that day number |
| Calendar.YearSpan | server/internal/core/scheduler.go:505-507 | consecutive years are 365 days apart, 366 exactly for leap years |
| Calendar.MonthStartStep | server/internal/core/scheduler.go:484-493 | consecutive months start one table month apart, also across the end of a year |
| Calendar.WeekdayIsDayOfWeek | server/internal/core/scheduler.go:467 | the weekday of every valid date is that of the formula of appendix B of RFC 3339, computed from year, month and day alone |
| Calendar.Epochs | server/internal/core/scheduler.go:454-455 | day numbers start at Go's zero time, a Monday, and put the Unix epoch, a Thursday, at day 719162 |
| Cadence.AddDaysIs | server/internal/core/scheduler.go:457-473 | AddDate by n days moves an instant by exactly n days, through month and year ends |
| Cadence.DailyLeast | server/internal/core/scheduler.go:452-460 | the daily rule returns the least instant after `after` with the wanted clock time, at most one day later |
| Cadence.WeeklyLeast | server/internal/core/scheduler.go:462-476 | the weekly rule returns the least instant after `after` on the wanted weekday, by that formula, and at the wanted time, at most seven days later |
| Cadence.MonthlyLeast | server/internal/core/scheduler.go:478-503 | the monthly rule returns the least instant after `after` on the wanted day, clamped to the length of its own month, for every day of month, time and offset |
| Cadence.MonthlyNoDrift | server/internal/core/scheduler.go:478-503 | iterating the monthly rule hits every following month once, on the day clamped to that month alone (31, then 28 or 29, then 31 again) |
| Cadence.IntervalNext | server/internal/core/scheduler.go:421-434 | the interval rule always moves strictly past `after`, 64-bit wrap-around of the step included |
| Cadence.IntervalStep | server/internal/core/scheduler.go:421-425 | the effective step is positive, and is the wanted number of minutes up to the int64 limit |
| Cadence.NextScheduleRunLeast | server/internal/core/scheduler.go:407-419 | every cadence moves strictly forward; calendar cadences land on their least following occurrence |
| Cadence.ReplanIsStable | server/internal/core/scheduler.go:407-434 | planning again before the planned time gives the planned time, for all cadences, so a manual run ahead of time leaves NextRunAt alone |
| Cadence.ParseTimeOfDay | server/internal/core/scheduler.go:436-450 | any text whatsoever yields an hour in 0..23 and a minute in 0..59 |
| Cadence.UnparsableTimes | server/internal/core/scheduler.go:436-450 | a text without a colon means midnight; otherwise each field on its own counts as zero when it is no number in range |
| Cadence.AtoiExactly | server/internal/handlers/schedules.go:465-471 | an optional sign and decimal digits are read as their number, cut off at the int64 range |
| Cadence.ValidTimingExactly | server/internal/handlers/schedules.go:428-458 | exactly which timings pass validation: intervals from five minutes on, and calendar cadences with two numbers in range around a colon, on a weekday or a day of the month |
| Cadence.ValidatedTimeIsKept | server/internal/handlers/schedules.go:460-474 | a time of day that passed validation is used unclamped |
| Cadence.ValidatedScheduleRuns | server/internal/handlers/schedules.go:413-458 | a schedule that passed validation runs as written: at the validated clock time on its least following occurrence; an interval keeps a pending run, and otherwise waits the wanted minutes exactly when they fit int64 nanoseconds |
| Cadence.HoursMinutesRoundTrip | server/internal/handlers/schedules.go:460-474 | every HH:MM text is accepted and read back as the time it writes |
| Dispatch.ScheduleStore.MarkScheduleDispatched | server/internal/storage/store.go:1106-1135 | moves one schedule on and adds its run row together, or changes nothing when the schedule is gone |
| Dispatch.ScheduleStore.CompleteScheduleRun | server/internal/storage/schedule_runs.go:82-121 | settles status, output and error of the job's run rows whose status differs; exactly when there is one, every schedule still naming the job takes over status and error, and no other schedule changes |
| Dispatch.ScheduleStore.DisableSchedule | server/internal/storage/store.go:1054-1069 | switches off one schedule and no other |
| Dispatch.ScheduleStore.RunSchedule | server/internal/core/scheduler.go:123-222 | every path adds exactly one run row and moves the schedule past the clock reading; run row, last job, status and error are those the schedule's fields and the environment's answers call for, or those of a job that answered with a final state; the schedule is disabled exactly when its project is missing, no other schedule is rescheduled |
| Dispatch.DecidesExactly | server/internal/core/scheduler.go:131-212 | the verdict, exactly: which start is launched and whether it is reconciled, when a dispatch is skipped, which error each failure records, and that only a missing local project disables |
| Dispatch.DecisionIsSafe | server/internal/core/scheduler.go:131-212 | nothing is launched locally for a missing or update-excluded project, nor a check of an inactive one or the controller; skips happen only for those; only a missing project disables |
| Dispatch.Tick | server/internal/core/scheduler.go:110-121 | after a tick no listed schedule is due, each has exactly one new run row, and the others kept their time |
| Dispatch.StepKeepsInv | server/internal/core/scheduler.go:123-155 | every step of the ticker or of a manual run keeps the invariant of a schedule row |
| Dispatch.TickerFiresOnce | server/internal/core/scheduler.go:106-222 | over every interleaving in which the ticker lists no time that a manual run wrote behind the last dispatch, it answers strictly increasing due times, all occurrences of the cadence, and interval dispatches stay an interval apart |
| Dispatch.SpacedExactly | server/internal/core/scheduler.go:106-222 | that condition is exact over every run; a stored time is stale exactly when it does not follow the last dispatch, and only the write of a manual run makes it so |
| Dispatch.RunNowThenTick | server/internal/core/scheduler.go:106-124 | one manual write and the next tick: dispatches stay spaced if and only if the time written follows the last dispatch |
| Dispatch.LateReadingIsSafe | server/internal/core/scheduler.go:123-124 | a manual run that read its clock after the last dispatch writes a time that follows it, if and only if the cadence is a calendar one, its snapshot is due, or the pending time it keeps follows |
| Dispatch.StraddlingFiresTwice | server/internal/core/scheduler.go:106-124 | for every occurrence of every calendar cadence, and every due time of an interval, a manual run computed before the dispatch and written after it makes the ticker fire twice |
| JobRace.ActionJob.AppendJobOutput | server/internal/core/jobs.go:493-502 | the job keeps the last mebibyte of old output plus new text, and nothing else of it changes |
| JobRace.ActionJob.CopyJobOutput | server/internal/core/jobs.go:479-491 | however a stream is chunked, the job ends up with the tail of the whole stream |
| JobRace.TailAbsorbs | server/internal/core/jobs.go:497-501 | truncating after each append is the same as truncating once at the end |
| JobRace.StepKeepsInv | server/internal/core/jobs.go:225-293 | every step of the goroutine, the hooks and the dispatcher keeps the race invariant |
| JobRace.RowIsFinal | server/internal/core/scheduler.go:209-222 | in every interleaving, once both sides are through, the run row carries the job's final status, output and error, and so do the schedule's columns unless another dispatch replaced them |
| JobRace.OursUntilOther | server/internal/core/scheduler.go:209-222 | the schedule's columns name the job from its dispatch on, until another dispatch |
| JobRace.JobOutcome | server/internal/core/jobs.go:225-293 | in every interleaving a job completes if and only if the last result reported before the verdict was a success; exit code, error and output are the last ones reported, end time and duration those of the first deferred update |
| JobRace.PruneOutcome | server/internal/core/jobs.go:106-128 | a prune ends with the status, exit code, output, error and timing of its own report |
| JobRace.TimingExactly | server/internal/core/jobs.go:106-128 | in every interleaving, end time and duration in the row are the job's, except exactly when the dispatcher settled the row from a look between the failure mark and the deferred update; then they are its clock and empty; completed jobs and prunes are never affected |
| JobRace.FailedTimingCanBeLost | server/internal/core/jobs.go:225-233 | a dispatcher that looks between the failure mark and the deferred update leaves the store's clock and no duration in the row, whatever follows |
| JobRace.SettledRowForever | server/internal/storage/schedule_runs.go:95-107 | the first completion that reaches a run row is the last |
| JobRace.StatusSettlesOnce | server/internal/core/jobs.go:225-293 | after any run, no continuation changes status, success, output or error of a job that left running |
| JobRace.HandlersSeeFinalJob | server/internal/core/jobs.go:234-240 | handlers are told once each, with the final and saved job; completed means success; the output is the tail of everything appended |
| Text.SplitJoin | server/internal/core/template_update.go:233-256 | splitting joined lines gives the lines back |
| Text.JoinSplit | server/internal/handlers/env_settings.go:282-304 | joining a split text gives the text back |
| EnvMerge.ParseEnvMap | server/internal/core/template_update.go:194-205 | the loop computes the meaning of the text, last definition of a key winning |
| EnvMerge.LineSays | server/internal/core/template_update.go:183-205 | with any white space around it (a carriage return included) and before its `=`, a line means its key and value |
| EnvMerge.LineSaysNothing | server/internal/core/template_update.go:183-192 | comments, blank lines and lines without `=` mean nothing |
| EnvMerge.NewEnvKeys | server/internal/core/template_update.go:209-224 | exactly the keys the template defines and the project lacks, each once, in the order of their first definition |
| EnvMerge.MergeEnvKeepingValues | server/internal/core/template_update.go:229-257 | the loops compute the merge function the theorems are about |
| EnvMerge.MergeLayout | server/internal/core/template_update.go:233-256 | line by line: comments, blanks and new settings of the template stay as they stand, the user's settings carry the user's value, and the rest follows behind a blank line and a marker |
| EnvMerge.ExtrasAre | server/internal/core/template_update.go:244-255 | the lines behind the marker are exactly the existing ones whose key the template does not define, in order |
| EnvMerge.MergeMeansOverride | server/internal/core/template_update.go:226-257 | for all texts, the merged file means the template overridden by everything the user had |
| EnvMerge.NothingNewAfterMerge | server/internal/core/template_update.go:207-224 | after a merge the template introduces no further key, and no user value is lost |
| EnvMerge.RewrittenLine | server/internal/core/template_update.go:183-205 | a line written as KEY=value reads back as that key and value |
| EnvMerge.MergeStabilises | server/internal/core/template_update.go:229-257 | the second merge with the same template is a textual fixed point |
| EnvMerge.FirstMergeStable | server/internal/core/template_update.go:229-257 | the first merge is one exactly when every template line the user does not override is written KEY=value with its final value |
| EnvMerge.IndentedSettingUnstable | server/internal/core/template_update.go:229-257 | for every key and value, a template setting behind a blank is changed by the second merge |
| SettingsFile.ReadEnvFile | server/internal/handlers/env_settings.go:256-275 | the loop computes the settings of the text |
| SettingsFile.UpdateEnvFile | server/internal/handlers/env_settings.go:277-305 | under every map order, unrelated lines stay in place, updated ones are rewritten in place, exactly the keys not found are appended once each, and reading back gives old settings overridden by the updates if and only if keys are identifiers and values are one-line without trailing white space |
| SettingsFile.WrittenSetting | server/internal/handlers/env_settings.go:256-275 | a written setting reads back as itself |
| SettingsFile.BlanksAroundSetting | server/internal/handlers/env_settings.go:263-270 | white space around a line changes nothing |
| SettingsFile.IdentExactly | server/internal/handlers/env_settings.go:254 | keys are ASCII letters, underscores and digits, not starting with a digit |
| SettingsFile.ReadIsStorable | server/internal/handlers/env_settings.go:258-275 | whatever can be read is storable |
| MountScan.ComposeServiceMounts | server/internal/core/template_update.go:110-160 | the loop computes the scan the theorems are about |
| MountScan.PersistentMountsChanged | server/internal/core/template_update.go:162-180 | reports no change if and only if both texts are understood, agree on having volumes and have equal mounts service by service |
| MountScan.SameMountsEquivalence | server/internal/core/template_update.go:162-180 | the verdict is symmetric and transitive, and reflexive exactly on understood texts |
| ComposeLayout.LayoutScans | server/internal/core/template_update.go:107-160 | any Compose file with names at 2 spaces, keys at 4 and mounts at 6 or more, whatever its other keys, other sections and texts behind its names: it counts as known, and mounts are seen under the last recognised name before them; with a text behind `services:` nothing is seen |
| ComposeLayout.ConventionalScans | server/internal/core/template_update.go:107-160 | with nothing behind the names such a file scans back as exactly its services and mounts; keys before and after the volumes, lists in them included, add nothing |
| ComposeLayout.ConventionalGuard | server/internal/core/template_update.go:162-180 | between such files the guard sees exactly a change of mounts |
| ComposeStyles.UnderstoodExactly | server/internal/core/template_update.go:107-180 | over all indentations YAML allows, with or without texts behind names: the guard judges every two files by their mounts if and only if the indentation is 2, 4 and at least 6 and nothing stands behind a name or behind `services:`; in every other style it lets a change of mounts through |
| ComposeStyles.MountsVanish | server/internal/core/template_update.go:129-158 | in every other indentation, such as list dashes in the column of `volumes:`, every file, whatever its other keys, counts as known and shows no mount (in column 2, unless a mount ends in a colon); with plain names at 2 spaces it shows exactly the names |
| ComposeStyles.RemountUnseen | server/internal/core/template_update.go:162-180 | there, with the same proviso, the guard reports no change between any two files that differ only in their mounts |
| ComposeStyles.ServicesVanish | server/internal/core/template_update.go:129-138 | with names not at 2 spaces, such as a file indented by fours, or with a comment behind every name, a file, whatever its other keys, counts as known and shows no service; keys in column 2 under names in column 1 are covered by MountsVanish |
| MountScan.KnownExactly | server/internal/core/template_update.go:143-157 | for every text, the scanner gives up if and only if some line, under a recognised service, is `volumes:` with more on its line at indentation 4 or a listed long-syntax mount at 6 or more |
| ComposeLayout.InlineVolumesFailClosed | server/internal/core/template_update.go:143-147 | inline volume syntax at indentation 4 under a recognised service makes the whole file unknown, whatever follows |
| ComposeLayout.InlineVolumesExactly | server/internal/core/template_update.go:139-150 | at any other indentation below the service the same line is not noticed, whatever it says |
| ComposeLayout.LongMountFailsClosed | server/internal/core/template_update.go:151-157 | so does a long-syntax mount listed at indentation 6 or more |
| MountScan.NoiseIgnored | server/internal/core/template_update.go:115-120 | blank and comment lines may be inserted anywhere without changing the scan |
| MountScan.NoiseExactly | server/internal/core/template_update.go:115-120 | a line is skipped exactly when it is blank or a '#' comes first |
| MountScan.TrailingBlanksNormalize | server/internal/core/template_update.go:96-105 | texts whose lines differ in trailing spaces, tabs and carriage returns have one normal form |
| MountScan.NormalizeScan | server/internal/core/template_update.go:96-105 | for every text, normalising changes the scan only through the indentation of its first line that is not blank |
| MountScan.NormalizeChanges | server/internal/core/template_update.go:96-105 | for every text, exactly when normalising changes the scan result: only with an indented `services:` head, and then unless the sections after the block under it name its services again, have volumes if it has, and are unknown if it is |
| MountScan.SectionsOverlay | server/internal/core/template_update.go:121-138 | top-level sections are scanned independently, later findings laid over earlier ones |
| ComposeLayout.IndentedHeadDiffers | server/internal/core/template_update.go:96-105 | an indented `services:` followed by a service scans as empty, and as that service once normalised |
| ComposeLayout.IndentedHeadHarmless | server/internal/core/template_update.go:96-105 | followed by an unindented line it scans alike |
| MountScan.SameNormalSameMounts | server/internal/core/template_update.go:266-273 | texts with one normal form scan alike when both or neither open with an indented `services:`; when one does, exactly if the normal form scans alike pushed one column to the right |
| Provenance.ProjectDir.ApplyTemplateUpdate | server/internal/core/template_update.go:289-335 | performs its writes in order; when one fails, exactly a prefix has happened |
| Provenance.CreateEffects | server/internal/core/create.go:46-96 | any prefix of a create keeps the compose and .env backups, and a record it writes has the catalog's hash |
| Provenance.CreateRefused | server/internal/core/create.go:46-50 | a create touches nothing exactly for a blank compose text, an unknown template, or an existing project without overwrite |
| Provenance.CompletedCreate | server/internal/core/create.go:53-88 | a completed create or overwrite writes the compose and .env texts of the request and the template's record, ends an old management on a generic overwrite, and is managed exactly when it named a template and its text is that template's word for word |
| Provenance.ApplyPrefix | server/internal/core/template_update.go:289-325 | the exact disk after any number of writes of an apply |
| Provenance.OnlyCatalogTextIsReplaced | server/internal/core/template_update.go:67-94 | after any history of creates, overwrites, edits, catalog releases and cut-off applies, an apply replaces a compose text only if it matches the record and is verbatim a shipped catalog text; a locally changed file is left alone |
| Provenance.ApplyGoesAhead | server/internal/core/template_update.go:67-94 | an apply goes ahead exactly for an unchanged deployment of a known template whose mounts the guard reads and finds the same; otherwise it touches nothing |
| Provenance.ApplyKeepsMounts | server/internal/core/template_update.go:296-298 | wherever it is cut off, an apply never changes what the guard reads of the mounts |
| Provenance.NothingLostByApply | server/internal/core/template_update.go:299-322 | wherever an apply is cut off, the compose and .env texts it started from are in place or in its backup |
| Provenance.BackupsKeptExactly | server/internal/core/template_update.go:294-322 | over whole runs, every backup ever made of the compose file is still there under its timestamp if and only if no apply overwrote one with a different text; the same for the .env file |
| Provenance.ReplacedTextsKept | server/internal/core/template_update.go:294-322 | then every compose or .env text an apply replaced is in a backup |
| Provenance.ApplyKeepsBackups | server/internal/core/template_update.go:294-322 | one apply cut off after n writes keeps all earlier backups if and only if it had nothing to back up yet, or its timestamp was free or held the same text; for both files |
| Provenance.SharedStampLosesBackup | server/internal/core/template_update.go:294-307 | from an empty directory: create, release, and two applies with one timestamp lose the first text, for any two texts with equal mounts |
| Provenance.CompletedApply | server/internal/core/template_update.go:289-335 | a completed apply installs the template, keeps every user setting, and leaves the project managed and applicable again |
| Provenance.ReapplyStabilises | server/internal/core/template_update.go:289-335 | applying an unchanged catalog again leaves compose file and record from the first apply on, and the .env file from the second; only backups are added |
| Provenance.InterruptedApply | server/internal/core/template_update.go:303-325 | cut off before its last write, an apply leaves the project managed exactly when the compose file still has its old text |
| Provenance.InterruptedForGood | server/internal/core/template_update.go:303-325 | from an empty directory: create, release, apply cut off behind the compose file; no later apply, release or .env edit makes the project managed again, under any catalog |
| VerifyUpdate.StableIsNoFailure | server/internal/core/update_verify.go:61-89 | no failure is listed exactly when the containers are the same, none restarted more, and each is a finished one-shot or running and neither unhealthy nor starting |
| VerifyUpdate.JudgesExactly | server/internal/core/update_verify.go:61-89 | kind and payload of every failure, exactly, from the two states of a container: changed, restarted so many times, state, health, gone |
| VerifyUpdate.UnstableUpdateServices | server/internal/core/update_verify.go:61-89 | one line for every failing container, sorted, in any map order |
| VerifyUpdate.FailureListUnique | server/internal/core/update_verify.go:87-88 | the listed texts and their order do not depend on how the maps are walked |
| VerifyUpdate.LeqIsFirstDifference | server/internal/core/update_verify.go:87 | lines are sorted by their first difference, a prefix first |
| VerifyUpdate.StartingEnding | server/internal/core/update_verify.go:103-113 | for every container name, "name: word" ends in ": starting" exactly when the word is "starting" or ends so itself |
| VerifyUpdate.SuffixMeansStarting | server/internal/core/update_verify.go:103-113 | the suffix test on a failure text agrees with the typed test, except for a container state that itself reads like one |
| VerifyUpdate.TextsMeanStarting | server/internal/core/update_verify.go:103-113 | so with Docker's states the loop goes on exactly while the containers are the same, some are running with a health check still starting, and all others are fine |
| VerifyUpdate.OnlyHealthStarting | server/internal/core/update_verify.go:103-113 | true exactly for a non-empty list of texts with that ending |
| VerifyUpdate.DoomedListsFailure | server/internal/core/update_verify.go:119-128 | the early exit always has a failure to list |
| VerifyUpdate.DoomedExactly | server/internal/core/update_verify.go:122-128 | the early exit is taken exactly for a container restarting, dead, paused, or exited with an error |
| VerifyUpdate.VerifyUpdateServices | server/internal/core/update_verify.go:115-162 | against any environment at most 27 extra polls and five minutes; it stops at the first sample that is not merely starting, succeeds exactly when that sample is stable, and otherwise lists its failures |
| VerifyUpdate.StopsExactly | server/internal/core/update_verify.go:138-142 | the sample at which the loop stops, said over the samples themselves |
| UpdatePipeline.EngineUpdate | server/internal/core/engine.go:92-144 | runs the stages in order, stops at the first failure, and its last result is that of the last stage run |
| UpdatePipeline.RunUpdateJob | server/internal/core/jobs.go:333-382 | the same for the tracked job |
| UpdatePipeline.RunsExactly | server/internal/core/engine.go:111-144 | which stages run, in both forms and in which order: the project comes up only after a successful pull and is verified only after it came up; the result is that of the first failure or of the verification |
| UpdatePipeline.SuccessNeedsAll | server/internal/core/engine.go:111-144 | success holds exactly when every stage succeeded |
| UpdatePipeline.UpdatesAgree | server/internal/core/engine.go:111-144 | both forms agree on success and exit code when the repeated identity check passes |
| UpdatePipeline.UpdatesAgreeExactly | server/internal/core/engine.go:92-144 | they agree on success if and only if there is a hook, that check passes, or another stage fails anyway |
| UpdatePipeline.InconsistentPreflight | server/internal/core/engine.go:92-97 | when only that repeated check fails they disagree |
| UpdateChecks.CheckProjectUpdates | server/internal/core/update_checks.go:51-74 | the images are the comparisons of the registry sources in order, up to the first rate-limited one or all; counts match them and the error is the first of theirs |
| UpdateChecks.ChecksAre | server/internal/core/update_checks.go:51-61 | the sources compared are exactly those with a registry image, in order |
| UpdateChecks.RateLimitedExactly | server/internal/core/update_checks.go:78-86 | a message is a rate limit exactly when one of six markers stands in it, at any place and in any letter case |
| UpdateChecks.LimitShownUnlessMasked | server/internal/core/update_checks.go:63-68 | a scan that hit a rate limit reports it exactly when no ordinary error came first |
| UpdateChecks.MaskedLimitLosesNotice | server/internal/core/update_manager.go:194-220 | a limit behind an ordinary error: the earlier notice of an image the scan did not reach is lost, and the status that decides the fleet scan does not report the limit |
| UpdateChecks.PreservePreviousUpdateResults | server/internal/core/update_manager.go:177-233 | the loops compute the merge function the theorems are about |
| UpdateChecks.NoticesKeptExactly | server/internal/core/update_manager.go:177-220 | after any scan with an error, an image known before is still listed, with its earlier finding or a fresh success, if and only if the scan listed nothing, reports a rate limit, or listed that image |
| UpdateChecks.NoLostNotices | server/internal/core/update_manager.go:194-220 | so when the scan reports a rate limit, every image known before is still listed, under its own service and image name as long as service names hold no NUL |
| UpdateChecks.FailedKeepsFinding | server/internal/core/update_manager.go:194-210 | under any error, a failed check shows the earlier finding of its image with the new error beside it |
| UpdateChecks.PreservedKeepsFresh | server/internal/core/update_manager.go:194-232 | fresh successes are never overwritten, every failure stays visible beside its image, the error is kept, and the counters match the images |
| UpdateChecks.PreservedRest | server/internal/core/update_manager.go:185-221 | with nothing listed the earlier images come back with the scan's error on the first; images not reached carry no error; the source counts are the earlier ones exactly when nothing was listed or the limit is reported |
| UpdateChecks.PreservedIdempotent | server/internal/core/update_manager.go:177-233 | merging again with the same earlier results changes nothing, for any error |
| UpdateChecks.SummaryAddsUp | server/internal/core/update_manager.go:157-175 | totals are sums, images the concatenation, availability that of any contribution, the error the first one, the time the latest and one of theirs |
| UpdateChecks.UpdateCheckManager.Scan | server/internal/core/update_manager.go:65-103 | the fleet stops at the first project asked whose check reports a rate limit; a project's status becomes its check's, or keeps its earlier notices exactly as far as a failed check leaves them, and is shown in the summary; the controller's is cleared, every other one stays, stored statuses behind the stop are shown |
| UpdateChecks.ScanIsKept | server/internal/core/update_manager.go:65-103 | the same of the functions the coverage theorems are about |
| UpdateChecks.UpdateCheckManager.ScanStored | server/internal/core/update_manager.go:86-97 | the tail loop selects exactly the eligible projects and causes no registry check |
| UpdateChecks.AskedExactly | server/internal/core/update_manager.go:65-103 | the registry is asked about exactly the eligible projects up to the stop, once each, in order |
| UpdateChecks.CoverageOnce | server/internal/core/update_manager.go:65-103 | the contributions are those of certain projects, in order and once each: exactly the eligible ones that were asked about or have a stored status; an eligible one behind the stop without stored status contributes nothing |
| UpdateChecks.StopIsTheChecks | server/internal/core/update_manager.go:77-85 | the fleet stops at a project exactly when that project's own scan reports the limit |
| UpdateChecks.UpdateCheckManager.Run | server/internal/core/update_manager.go:37-147 | while cooling down the remembered result and no state change, a retry time of 1 to 300 seconds that always suffices and is the least; otherwise the scan, notices kept as it keeps them, is remembered |
| UpdateChecks.ScansAreSpaced | server/internal/core/update_manager.go:128-147 | over any sequence of runs on a monotone clock, each scan starts at least five minutes after every earlier one completed |
| Watch.WatchManager.KillPriorSession | server/internal/core/watch.go:140-150 | drops exactly the project's active session from both maps and cancels it when it runs |
| Watch.StepKeepsInv | server/internal/core/watch.go:140-206 | every critical section of starts and exits keeps the map invariant |
| Watch.MapsAgree | server/internal/core/watch.go:140-206 | in every interleaving the active session is running, and an exited one is in neither map |
| Watch.FailedStart | server/internal/core/watch.go:150-176 | a start that fails changes no map and never registers |
| Watch.EnterDoubles | server/internal/core/watch.go:177-180 | in every run, registering a session leaves the project with two exactly when it already runs one; only overlapping starts get there, and until it first happens the active map tells |
| Watch.OneSessionPerProject | server/internal/core/watch.go:37-48 | a project never has two running sessions in a whole run if and only if no start of it registered beside a running one, which takes an overlap |
| Watch.OverlapRunsTwo | server/internal/core/watch.go:140-180 | in every world, two starts between their sections leave two sessions running when both enter, and only the later one is active |
| Watch.OrphanRunsOn | server/internal/core/watch.go:140-206 | in every continuation the other one runs on until its own follower exits: no start stops it |
| Watch.OverlapHappens | server/internal/core/watch.go:140-180 | from an empty manager, for every project and two ids: two starts that both pass their first section before either enters its second leave both sessions running, and the next start stops one only |
| Watch.OverlapCanBeHarmless | server/internal/core/watch.go:140-180 | an overlap in which one start fails leaves a single session |
| Watch.StreamIsFaithful | server/internal/core/watch.go:302-377 | a subscriber always holds a gap-free prefix of the log, and the whole log when the stream ends because the session's own follower exited |
| Watch.RoundCatchesUp | server/internal/core/watch.go:333-350 | one round of the tail loop sends everything logged by then, and goes on exactly while the session is listed |

## Left out

- Time zones with daylight saving: offsets are fixed, since Go leaves gaps and overlaps of local time unspecified.
- Cadence.WeeklyLeast: states minimality for weekdays 0 to 6 only, which is what validation admits.
- Cadence.ValidatedTimeIsKept: case folding and trimming of the request happen before; the texts here are already normalised.
- Dispatch.TickerFiresOnce: schedule edits while dispatches are in flight are not part of a run.
- Dispatch.ScheduleStore.RunSchedule: agent and peer HTTP calls and the texts of their errors are answers of the environment; the action text is already trimmed and lower-cased.
- Polling of remote agent jobs (watchAgentJob) and the callback command queue: a sequence of HTTP answers and one write.
- JobRace.RowIsFinal: one job and its row; runs are keyed by random job ids, so jobs do not touch each other's rows.
- UpdateChecks.CheckProjectUpdates: git-based projects, which compare commits instead of images, are left out, and so is the classification of one image's digests.
- UpdateChecks.NoLostNotices: lower-casing in the rate-limit test is modelled for ASCII letters.
- ComposeStyles.UnderstoodExactly: files in short syntax; text behind `volumes:` and long-syntax mounts are the subject of the lemmas on giving up, and a comment behind a mount counts as part of its text.
- Provenance.OnlyCatalogTextIsReplaced: a directory holds one compose file, single file writes are atomic, and hand edits happen between operations, not inside them.
- UpdatePipeline.UpdatesAgree: the controller project, which only the engine form refuses, and the hook timeout of the job form.
- Watch.StreamIsFaithful: line buffering is any chunking of the log; session rotation on disk and listing past sessions are left out.
- Parsing of Docker's inspect output, image references and registry hosts, run-user keys added to a new project's .env: straight-line text handling.
- The preview of a template update, which only reads what an apply would do.
- Stop and Shutdown of log sessions: they cancel processes and wait, and change no map.
- Authentication, proxies, firewall, self-update, metrics, backups and the web interface.
