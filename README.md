# TimeVerification: a Dafny model

This project models the TimeVerification plugin for Unreal Engine. It is a trial-expiry guard that runs once, when a game instance starts (`UTimeVerificationSubsystem::Initialize`). If the plugin is enabled, two checks run in order:

1. **Clock-integrity scan** (`CheckSystemTimeIntegrity`). It picks a scan directory: `TEMP`, else `TMPDIR`, else the project's saved directory. It looks at up to 300 regular files in that directory, without recursing. If any of them has a last-modified time strictly later than a single UTC "now", the clock was probably turned back and the scan fails. If no directory can be picked, the scan passes.
2. **Date gate** (`IsBeforeVerificationDate`). The configured (Year, Month, Day) must be a real calendar date; if not, the gate denies. Otherwise today's local date, with the time of day dropped, must be no later than that cutoff. The cutoff day itself is allowed.

If either check fails, `ExitGame` arms a one-shot hook on the engine's post-world-initialization event. The first world that finishes initializing always disarms the hook. Only a non-null `Game` world then gets a blocking dialog and a quit scheduled for the next tick.

Modules, one per part of the subsystem:

- `TimeVerificationConfig` (config.dfy): the configuration record. It has `bEnableTimeVerification` and three `int32` cutoff fields. The config may also be missing.
- `ClockIntegrity` (clock_integrity.dfy): the directory fallback chain, the capped scan loop as a method, and the specification functions it is proved against.
- `Calendar` (calendar.dfy): FDateTime's date rules. This covers the validity rule, leap years, days per month, and the day count behind FDateTime's ticks.
- `DateGate` (date_gate.dfy): the gate as a pure function, with its calendar meaning proved.
- `Termination` (termination.dfy): the hook as a class. It has an `armed` flag, the pending next-tick quits, and a log of effects.
- `Subsystem` (subsystem.dfy): `Initialize` as a decision function and as a method that drives the hook. It also has a whole session of host events, proved to quit at most once.

Environment variables, the saved directory, directory listings, file timestamps and both clocks are all parameters. A directory listing is a sequence of `(isDirectory, timestamp)` entries, looked up by path. A path with no listing enumerates nothing. Instants are integers, in UTC ticks. The local clock is a date-time record that is always valid, because FDateTime cannot hold an invalid date.

**Assumption about FDateTime.** `FDateTime::Validate`, `IsLeapYear`, `DaysInMonth` and the date constructor are Unreal Engine code called at Source/TimeVerification/Private/TimeVerificationSubsystem.cpp:87, 94 and 96. That code is not among the plugin's files; the model assumes the engine's rule (`Calendar.Validate`, `Calendar.DayNumber`, `Calendar.MidnightTicks`):

- the year is 1 to 9999;
- the month is 1 to 12;
- the day is 1 to the days in that month, where February has 29 days in Gregorian leap years;
- the date constructor counts days from 0001-01-01 using the cumulative month table `DaysToMonth`, and multiplies by `TicksPerDay`.

`Calendar.DayNumberOrder` proves that this day count orders valid dates exactly as the calendar does. `Calendar.DayNumberNextDay` proves that it goes up by one from each day to the next.

**Two details of the source worth knowing:**

- `MaxCheckCount` is 300, but `CheckedCount` is incremented before the cap test (Source/TimeVerification/Private/TimeVerificationSubsystem.cpp:139-140). Enumeration therefore stops only at the 301st regular file, which is not examined, and `CheckedCount` ends at min(#files, 301). `ScanDirectory` states both facts.
- Only an `EWorldType::Game` world goes on past the filter (Source/TimeVerification/Private/TimeVerificationSubsystem.cpp:51). A Play-In-Editor world, like any other, disarms the hook with no dialog and no quit.

## Model

| member | source | states |
|---|---|---|
| `ClockIntegrity.ResolveScanPath` | Source/TimeVerification/Private/TimeVerificationSubsystem.cpp:108-116 | the reassignment chain yields the first non-empty of `TEMP`, `TMPDIR`, the project's saved directory |
| `ClockIntegrity.FirstNonEmptyIsFirst` | Source/TimeVerification/Private/TimeVerificationSubsystem.cpp:108-121 | the chosen path is empty exactly when all three candidates are; otherwise it is a candidate preceded only by empty ones |
| `ClockIntegrity.Files` | Source/TimeVerification/Private/TimeVerificationSubsystem.cpp:132-137 | the entries the visitor does not skip as directories, in listing order, never more than the listing |
| `ClockIntegrity.FilesAreRegularEntries` | Source/TimeVerification/Private/TimeVerificationSubsystem.cpp:134-137 | an entry is among the counted files exactly when it is in the listing and is not a directory |
| `ClockIntegrity.CountFuture` | Source/TimeVerification/Private/TimeVerificationSubsystem.cpp:148-152 | the number of files dated strictly after now, at most the number of files |
| `ClockIntegrity.CountFuturePositive` | Source/TimeVerification/Private/TimeVerificationSubsystem.cpp:125-126 | the future-file count is positive exactly when some file lies strictly in the future, so `bHasFutureFile` agrees with `FutureFileCount > 0` |
| `ClockIntegrity.ScanDirectory` | Source/TimeVerification/Private/TimeVerificationSubsystem.cpp:123-155 | the loop's `CheckedCount` ends at min(#files, 301); `FutureFileCount` counts the future files among the first min(300, #files) regular files; `bHasFutureFile` holds iff that count is positive iff the scan fails; enumeration runs to the end with at most 300 files, and otherwise stops exactly at the 301st regular file |
| `ClockIntegrity.CheckSystemTimeIntegrity` | Source/TimeVerification/Private/TimeVerificationSubsystem.cpp:104-159 | the verdict is true when no directory can be chosen, and otherwise true exactly when the chosen listing's scan finds no future-dated examined file |
| `ClockIntegrity.UnresolvablePathPasses` | Source/TimeVerification/Private/TimeVerificationSubsystem.cpp:117-121 | with `TEMP`, `TMPDIR` and the saved directory all empty the integrity check passes, whatever the file system holds |
| `ClockIntegrity.ScanFailsIff` | Source/TimeVerification/Private/TimeVerificationSubsystem.cpp:139-158 | a listing fails exactly when one of its first min(300, #files) regular files has a timestamp strictly later than now |
| `ClockIntegrity.ExaminedIsCappedPrefix` | Source/TimeVerification/Private/TimeVerificationSubsystem.cpp:123-143 | exactly min(300, #files) files are examined, and they are the first ones in listing order |
| `ClockIntegrity.DirectoriesIgnored` | Source/TimeVerification/Private/TimeVerificationSubsystem.cpp:134-137 | inserting a directory entry anywhere, with any timestamp, changes neither the counted files nor the verdict |
| `ClockIntegrity.FilesBeyondCapIgnored` | Source/TimeVerification/Private/TimeVerificationSubsystem.cpp:139-143 | once 300 regular files have been listed, whatever follows changes neither the examined files nor the verdict |
| `ClockIntegrity.NoFutureFilePasses` | Source/TimeVerification/Private/TimeVerificationSubsystem.cpp:148-158 | a listing whose files are all dated at or before now, including an empty listing, passes; a timestamp equal to now is not evidence |
| `ClockIntegrity.FutureFileWithinCapFails` | Source/TimeVerification/Private/TimeVerificationSubsystem.cpp:148-158 | a future-dated file among the first 300 regular files fails the scan and is counted |
| `Calendar.NextDay` | Source/TimeVerification/Private/TimeVerificationSubsystem.cpp:95-97 | the day after a valid date is strictly later in calendar order |
| `Calendar.DaysBeforeNextYear` | Source/TimeVerification/Private/TimeVerificationSubsystem.cpp:94-96 | the day count at the start of a year grows by 366 after a leap year and by 365 otherwise |
| `Calendar.DaysBeforeNextMonth` | Source/TimeVerification/Private/TimeVerificationSubsystem.cpp:94-96 | the month table advances by the days of each month, and December ends the year |
| `Calendar.DayNumberNextDay` | Source/TimeVerification/Private/TimeVerificationSubsystem.cpp:94-97 | from any valid date to the next, the day count behind the ticks grows by exactly one |
| `Calendar.MonthsOrdered` | Source/TimeVerification/Private/TimeVerificationSubsystem.cpp:94-96 | every earlier month of a year ends no later than a later month begins |
| `Calendar.YearsOrdered` | Source/TimeVerification/Private/TimeVerificationSubsystem.cpp:94-96 | every earlier year ends no later than a later year begins |
| `Calendar.DayWithinYear` | Source/TimeVerification/Private/TimeVerificationSubsystem.cpp:94-96 | a valid date's day count lies within its own year |
| `Calendar.DayNumberStrictlyMonotone` | Source/TimeVerification/Private/TimeVerificationSubsystem.cpp:94-97 | a date strictly earlier in the calendar has a strictly smaller day count |
| `Calendar.DayNumberOrder` | Source/TimeVerification/Private/TimeVerificationSubsystem.cpp:94-97 | on valid dates, comparing day counts is exactly comparing dates by year, month and day |
| `Calendar.MidnightTicksOrder` | Source/TimeVerification/Private/TimeVerificationSubsystem.cpp:96-97 | comparing the ticks of two midnights is comparing their day counts |
| `DateGate.DateOnly` | Source/TimeVerification/Private/TimeVerificationSubsystem.cpp:96 | dropping the time of day from a clock reading leaves a valid date |
| `DateGate.IsBeforeVerificationDate` | Source/TimeVerification/Private/TimeVerificationSubsystem.cpp:74-102 | a missing configuration denies; an allowed session always has a valid cutoff date (fail closed) |
| `DateGate.InvalidCutoffDenied` | Source/TimeVerification/Private/TimeVerificationSubsystem.cpp:87-92 | a cutoff that is not a calendar date (month 13, day 32, February 30) denies every clock reading |
| `DateGate.GateIsCalendarOrder` | Source/TimeVerification/Private/TimeVerificationSubsystem.cpp:94-101 | with a valid cutoff, the gate allows exactly when today's date is on or before the cutoff in calendar order |
| `DateGate.TimeOfDayIgnored` | Source/TimeVerification/Private/TimeVerificationSubsystem.cpp:95-97 | two readings on the same date always get the same answer |
| `DateGate.CutoffDayAllowed` | Source/TimeVerification/Private/TimeVerificationSubsystem.cpp:95-97 | the cutoff day itself is allowed at any time of day |
| `DateGate.DayAfterCutoffDenied` | Source/TimeVerification/Private/TimeVerificationSubsystem.cpp:95-97 | the day after the cutoff is denied at any time of day |
| `Termination.TerminationHook.constructor` | Source/TimeVerification/Private/TimeVerificationSubsystem.cpp:41-45 | a new hook is unarmed, has no pending quit and has done nothing |
| `Termination.TerminationHook.ExitGame` | Source/TimeVerification/Private/TimeVerificationSubsystem.cpp:41-45 | arming subscribes the handler and logs just that |
| `Termination.TerminationHook.OnPostWorldInitialization` | Source/TimeVerification/Private/TimeVerificationSubsystem.cpp:47-72 | unarmed, nothing happens; armed, the hook disarms first, and then only a game world gets the dialog and one quit scheduled for the next tick, never run inline; every other world only disarms; the hook invariant (at most one scheduled quit per subscription, each directly after its dialog and unsubscription) is kept |
| `Termination.TerminationHook.Tick` | Source/TimeVerification/Private/TimeVerificationSubsystem.cpp:61-70 | the next tick runs every quit set for it, and nothing else changes |
| `Subsystem.InitializeOutcome` | Source/TimeVerification/Private/TimeVerificationSubsystem.cpp:11-34 | no check runs when the configuration is missing or disabled; the gate runs only after a passing scan; termination is armed exactly when enabled and the scan fails or the gate denies |
| `Subsystem.CutoffScenarios` | Source/TimeVerification/Private/TimeVerificationSubsystem.cpp:21-33 | with a clean scan and a cutoff of 2025-01-10, the session passes on 2025-01-10 and is set to end on 2025-01-11 |
| `Subsystem.Initialize` | Source/TimeVerification/Private/TimeVerificationSubsystem.cpp:11-34 | the hook is armed, by exactly one `ExitGame`, exactly when the decision says so, and is otherwise untouched |
| `Subsystem.RunSession` | Source/TimeVerification/Private/TimeVerificationSubsystem.cpp:11-72 | over any sequence of world and tick events after `Initialize`: at most one subscription, dialog, scheduled quit and executed quit; nothing at all happens unless a check failed; ticks before the first world event change nothing, and with no world event the hook stays subscribed; if the first world event is a non-game world, the session only subscribes and unsubscribes; if it is a game world, the session subscribes, unsubscribes, shows the dialog and schedules the quit, and runs the quit once a later tick comes |

## Left out

- I/O and clocks are parameters. This covers `FPlatformMisc::GetEnvironmentVariable`, `FPaths::ProjectSavedDir`, `IFileManager::IterateDirectory`, `GetTimeStamp`, `FDateTime::UtcNow` and `FDateTime::Now`. A timestamp is whatever the listing reports. A file that vanished mid-scan would report as not found, and that case is not modelled separately.
- `UE_LOG` diagnostics and the text of the dialog are left out, because neither affects a result.
- FDateTime's tick encoding of times of day and `ToString` are left out. Only midnight ticks are compared.
- The scan's UTC "now" and the gate's local "now" are two independent inputs. The time that passes between the two readings is not modelled.
- `Termination.TerminationHook.ExitGame`: binding twice collapses to one `armed` flag. The engine's multicast delegate would hold two bindings. `Initialize` calls `ExitGame` at most once, so this never arises in the subsystem.
- The player controller and the arguments passed to `QuitGame` are left out. The quit is an abstract effect.
- `Deinitialize` only calls the base class, so it is left out.
- The module startup and shutdown code and the editor settings registration in Source/TimeVerification/Private/TimeVerification.cpp are left out. They are host plumbing.
- `int32` overflow of `CheckedCount` and `FutureFileCount` cannot happen, since they stay at most 301. `ScanResult` holds them as `int32`.
- `FDateTime::Validate` and the date constructor follow Unreal's rule as stated above. That code is an assumption of the model, not something checked against source.
