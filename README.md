# Pomodoro timer — a Dafny model

This project models the core of the Lifeforge Pomodoro-timer module. A
*session* has a name, a work duration, short and long break durations (in
minutes), a cycle length `session_until_long_break` (n) and a status
(new, active or completed). Its time is spent in *sub-sessions*: work,
short break or long break segments, each with the seconds elapsed, a
completion flag and an end stamp. After every work segment the timer counts
one more pomodoro and takes a long break when the count is a multiple of n,
a short break otherwise; after any break it goes back to work.

The model covers:

- **The record store** (`server/routes/sessions.ts`,
  `server/routes/subSessions.ts`, `server/schema.ts`): the sessions and
  sub-sessions collections as a class over two sequences kept in creation
  order, every route as a method or function, the cascading delete, and the
  `sessions_aggregated` SQL view as a pure count and sum over a session's
  completed work sub-sessions (modules `Schema`, `Store`).
- **The settings record** (`server/utils/fetchOrUpdateSettings.ts`): one
  optional record, created from the defaults merged with an overwrite,
  returned as it is for an empty overwrite, partially updated otherwise
  (module `Settings`).
- **The shared transition rule** and its cycle structure (module
  `Transition`).
- **The offline timer** (`client/src/providers/PomodoroProvider.tsx`), which
  keeps the finished segments in a local list, snapshots itself to a
  one-slot local storage (`client/src/utils/localStorage.ts`) and sends the
  whole list once, when the session ends (modules `BatchTimer`,
  `LocalStorage`).
- **The incremental timer** of the TimePage
  (`client/src/pages/TimePage/providers/PomodoroProvider.tsx`), which calls
  `completeAndStartNew` on every transition, and its session provider
  (`.../CurrentSessionProvider.tsx`), which resumes a session with the type
  the rule would have chosen (modules `LiveTimer`, `CurrentSession`).
- **The display arithmetic**: cycle grouping and break totals of the
  session summary (`SessionEndedModal.tsx`, `SessionEndedScreen.tsx`), the
  progress bars, cycle number and messages (`ProgressBars.tsx`,
  `StatusSection.tsx`, `TimePage/index.tsx`) (modules `Cycles`, `Display`,
  `TimePage`).

Modelling choices:

- Record ids come from one increasing counter and double as the `created`
  stamp, so "newest" is "last in the sequence" and the `created` range
  filter of `subSessions.list` compares ids. The batch path of
  `changeStatus` creates its rows back to back, so in the store several of
  them can share one `created` millisecond and `sort(['-created'])` leaves
  their order open; the model breaks such ties as "last created wins". ISO timestamps (`ended`,
  `currentSubSessionStarted`) are opaque string inputs (`now`).
- Durations and elapsed seconds are integers. The zod validators accept
  fractional numbers (`z.number().min(1)`); the model does not.
- The browser interval becomes an explicit `Tick` method (one call per
  second while running); whether a local-storage write succeeds is an input.
- A route's existence check becomes an `Err(NotFound)` result that leaves
  the store untouched; the create bounds become `Err(Invalid)`.
- JavaScript's `%` on a non-negative count equals Dafny's Euclidean `%` for
  any non-zero divisor; `Math.floor(a / b)` is written out (`FloorDiv`); a
  division by 0 (no session in `StatusSection`) gives `None`, standing for
  the non-finite number JavaScript produces.
- `server/index.ts` mounts only the `settings` and `sessions` routers: the
  `subSessions` router, on which the incremental timer relies, is not
  mounted there. The model still gives its routes, as the client code calls
  them.
- `getById`, `list` and `changeStatus` answer with the view's
  `pomodoro_count` and `total_time_elapsed`, not with the columns the batch
  path of `changeStatus` writes; the model keeps both and proves what a
  caller reads back (`Store.BatchCountReadBack`,
  `BatchTimer.EndSessionCountAgrees`).
- Statuses can be changed in any direction: the route writes whatever
  status it is given, and so does the model.

## Model

| member | source | states |
|---|---|---|
| Schema.Joined | server/schema.ts:534-535 | the rows the view's LEFT JOIN attaches to a session are rows of that session that are completed work |
| Schema.View | server/schema.ts:534-535 | exactly one view row per session row, in order, each the aggregate of that session |
| Schema.CountIsCompletedWork | server/schema.ts:534-535 | the view's `pomodoro_count` is the number of the session's sub-sessions with type work and is_completed true |
| Schema.AggregateAppend | server/schema.ts:534-535 | appending rows changes the count and the sum by exactly the appended rows that join; breaks, incomplete work and other sessions' rows add nothing |
| Schema.NothingJoinedGivesZero | server/schema.ts:534-535 | a session none of whose sub-sessions joins still has a row, with count 0 and a NULL total |
| Schema.TotalAbsentIffNoCount | server/schema.ts:400 | `total_time_elapsed` is NULL exactly when the count is 0, and otherwise the sum of the joined rows' elapsed seconds |
| Schema.ViewCopiesSessionColumns | server/schema.ts:391-399 | the view row carries the session's id, name, durations, cycle length and status unchanged |
| Schema.JoinedUpdate | server/schema.ts:534-535 | replacing one row changes the joined count by what the old and new row each contribute |
| Schema.Where | server/routes/sessions.ts:248-253 | a filter keeps exactly the rows satisfying it |
| Schema.WhereKeepsOrder | server/routes/sessions.ts:248-253 | a filter keeps creation order |
| Schema.WithoutSession | server/schema.ts:352-358 | the cascading delete removes exactly the sub-sessions pointing to the session |
| Store.FindSession | server/routes/sessions.ts:112-114 | a session position is found exactly when the id exists |
| Store.Newest | server/routes/subSessions.ts:51-59 | the newest matching row: it matches and nothing after it does; none when nothing matches |
| Store.GetById | server/routes/sessions.ts:5-36 | unknown id fails; otherwise the session's view row and the type of its most recently created sub-session, 'short_break' when it has none |
| Store.ListSessions | server/routes/sessions.ts:38-52 | every view row, newest session first |
| Store.ListSubSessionsOf | server/routes/sessions.ts:232-254 | unknown id fails; otherwise exactly the session's sub-sessions, oldest first |
| Store.GetCurrent | server/routes/subSessions.ts:34-62 | unknown id fails; otherwise null exactly when nothing is open, else the newest open sub-session |
| Store.ListSubSessions | server/routes/subSessions.ts:149-177 | all sub-sessions newest first; restricted to the inclusive created range only when both bounds are given |
| Store.JoinedBatch | server/routes/sessions.ts:165-176 | the batch rows that join the view are the batch's completed work records |
| Store.BatchCountReadBack | server/routes/sessions.ts:185-208 | after the batch path the count read back is the old view count plus the batch's completed work, whatever `pomodoroCount` was sent |
| Store.SessionsWithoutKeepsOrder | server/routes/sessions.ts:228-230 | deleting a session keeps the others in creation order |
| Store.WellFormedAfterRemove | server/schema.ts:352-358 | deleting a session and its sub-sessions keeps the store invariant and leaves no row pointing to it |
| Store.RecordStore.constructor | server/schema.ts:150-158 | the empty store satisfies the invariant |
| Store.RecordStore.CreateSession | server/routes/sessions.ts:54-94 | a duration or cycle length outside its bounds fails with no write; otherwise exactly the given configuration is appended with status 'new' |
| Store.RecordStore.UpdateSession | server/routes/sessions.ts:96-123 | unknown id fails with no write; otherwise only the name changes |
| Store.RecordStore.AppendBatch | server/routes/sessions.ts:165-176 | one row per batch element, in order, linked to the session, copying type, elapsed, ended and completion |
| Store.RecordStore.ChangeStatus | server/routes/sessions.ts:125-210 | completed with a non-empty batch: the batch rows, then status, summed elapsed and `pomodoroCount ?? 0`; every other call writes the status alone; answers the view row |
| Store.RecordStore.RemoveSession | server/routes/sessions.ts:212-230 | unknown id fails; otherwise the session and every sub-session of it are gone and nothing else |
| Store.RecordStore.CreateSubSession | server/routes/subSessions.ts:5-32 | unknown session fails; otherwise appends an incomplete sub-session with 0 elapsed |
| Store.RecordStore.UpdateSubSession | server/routes/subSessions.ts:64-91 | unknown id fails; otherwise only the given fields of that record change |
| Store.RecordStore.CompleteAndStartNew | server/routes/subSessions.ts:93-147 | fails with no write when nothing is open; otherwise completes exactly the newest open sub-session and appends an open one of the next type carrying the ended stamp |
| Store.OneOpenAfterCompleteAndStartNew | server/routes/subSessions.ts:113-146 | exactly one open sub-session before means exactly one after: the new one |
| Settings.MergeNeutralAndIdempotent | server/utils/fetchOrUpdateSettings.ts:45-65 | an empty overwrite changes nothing; applying an overwrite twice is the same as once |
| Settings.MergeKeepsAbsentFields | server/utils/fetchOrUpdateSettings.ts:59-65 | a field absent from the overwrite keeps its stored value; defaults are not re-applied |
| Settings.SettingsStore.FetchOrUpdate | server/utils/fetchOrUpdateSettings.ts:26-66 | no record: creates one from the defaults merged with the overwrite; empty overwrite: returns the record, no write; otherwise updates only the given fields |
| Settings.FetchTwice | server/utils/fetchOrUpdateSettings.ts:40-57 | two fetches without overwrite create at most one record and return the same record |
| Transition.NextAlternates | client/src/providers/PomodoroProvider.tsx:197-214 | the rule alternates work and break; only leaving work changes the count, by one; long break exactly when the new count is a multiple of n |
| Transition.WithinCycle | client/src/providers/PomodoroProvider.tsx:197-214 | from a multiple of n, the 2m-th segment is work with m more pomodoros and the next is the long break only after the n-th |
| Transition.CycleShape | client/src/providers/PomodoroProvider.tsx:197-214 | a cycle is 2n segments, breaks at odd positions, the long break last, then work with n more pomodoros |
| LocalStorage.InitializeLocalTimerState | client/src/utils/localStorage.ts:52-71 | the given session id and count, a full paused work segment, nothing recorded, key 0 |
| LocalStorage.Slot.Get | client/src/utils/localStorage.ts:23-33 | a snapshot only when one is held; nothing when empty or unparseable |
| LocalStorage.Slot.Save | client/src/utils/localStorage.ts:35-42 | a successful save replaces whatever was held; a failed one changes nothing |
| LocalStorage.Slot.Clear | client/src/utils/localStorage.ts:44-50 | a successful clear empties the slot; a failed one changes nothing |
| LocalStorage.SaveGetClear | client/src/utils/localStorage.ts:23-50 | a saved snapshot is read back exactly; after a clear nothing is read |
| BatchTimer.InitialState | client/src/providers/PomodoroProvider.tsx:57-100 | always paused; without a session all zeros (no time, work, count 0, key 0, no records); the snapshot only when it is this session's; otherwise a full work segment with the session's count |
| BatchTimer.RestoreSnapshot | client/src/providers/PomodoroProvider.tsx:57-132 | restoring this session's snapshot gives back the persisted state, paused |
| BatchTimer.ForeignSnapshotIgnored | client/src/providers/PomodoroProvider.tsx:70-99 | another session's snapshot is ignored |
| BatchTimer.Transitioned | client/src/providers/PomodoroProvider.tsx:164-238 | one record appended for the segment left, with elapsed full or full minus time left; next type by the rule at full duration; autoStart; key + 1 |
| BatchTimer.Ticked | client/src/providers/PomodoroProvider.tsx:304-344 | paused: nothing; above zero: one second less; at zero: exactly the finished transition, with the full duration recorded and the auto-start of the next kind |
| BatchTimer.Skipped | client/src/providers/PomodoroProvider.tsx:240-263 | refused while running, at zero or during work; otherwise exactly the unfinished transition back to work: full minus time left recorded, the same count, full work duration, key + 1 |
| BatchTimer.FinalRecords | client/src/providers/PomodoroProvider.tsx:265-292 | the records so far plus one record of the current type, unfinished, ended now, with full minus time left elapsed; completed work unchanged |
| BatchTimer.FreshStateInv | client/src/providers/PomodoroProvider.tsx:86-99 | a fresh start satisfies the timer invariant |
| BatchTimer.TransitionKeepsInv | client/src/providers/PomodoroProvider.tsx:164-238 | every transition keeps the count equal to the base plus recorded completed work, and the other invariant parts |
| BatchTimer.TickKeepsInv | client/src/providers/PomodoroProvider.tsx:304-344 | every tick keeps the invariant |
| BatchTimer.SkipKeepsInv | client/src/providers/PomodoroProvider.tsx:240-263 | every skip keeps the invariant |
| BatchTimer.FinalRecordsBounded | client/src/providers/PomodoroProvider.tsx:265-292 | every elapsed time sent at the end lies within its segment |
| BatchTimer.EndSessionCountAgrees | client/src/providers/PomodoroProvider.tsx:294-297 | after the end the count read back from the view equals the `pomodoroCount` sent |
| BatchTimer.Timer.constructor | client/src/providers/PomodoroProvider.tsx:57-102 | the timer starts in the state derived from the slot |
| BatchTimer.Timer.Persist | client/src/providers/PomodoroProvider.tsx:116-132 | with a session, the slot holds the current state tagged with the session id |
| BatchTimer.Timer.Start | client/src/providers/PomodoroProvider.tsx:134-137 | only `isRunning` becomes true |
| BatchTimer.Timer.Pause | client/src/providers/PomodoroProvider.tsx:139-145 | only `isRunning` becomes false |
| BatchTimer.Timer.Reset | client/src/providers/PomodoroProvider.tsx:147-162 | no-op while running; otherwise the current segment's full duration, nothing else changes |
| BatchTimer.Timer.Skip | client/src/providers/PomodoroProvider.tsx:240-263 | the new state is the skipped state |
| BatchTimer.Timer.Tick | client/src/providers/PomodoroProvider.tsx:304-344 | the new state is the ticked state |
| BatchTimer.Timer.EndSession | client/src/providers/PomodoroProvider.tsx:265-301 | sends the final records and the count through the batch path; clears the slot only after an accepted request |
| CurrentSession.ResumeType | client/src/pages/TimePage/providers/CurrentSessionProvider.tsx:166-173 | after work: long break iff the count is a multiple of n, else short break; after anything else: work |
| CurrentSession.ResumeAgreesWithNext | client/src/pages/TimePage/providers/CurrentSessionProvider.tsx:166-173 | the resumed type is the one the transition rule would have produced |
| CurrentSession.FreshSessionStartsWithWork | server/routes/sessions.ts:22-30 | a session without sub-sessions resumes with work |
| CurrentSession.Dispatch | client/src/pages/TimePage/providers/CurrentSessionProvider.tsx:189-220 | new: new-session screen; completed: ended screen; timer only when active with a sub-session adopted |
| CurrentSession.Provider.constructor | client/src/pages/TimePage/providers/CurrentSessionProvider.tsx:37-41 | first load, no sub-session adopted |
| CurrentSession.Provider.Forget | client/src/pages/TimePage/providers/CurrentSessionProvider.tsx:44-48 | back to first load with no sub-session |
| CurrentSession.Provider.SetSubSession | client/src/pages/TimePage/providers/CurrentSessionProvider.tsx:150-157 | adopts the given row |
| CurrentSession.Provider.OnQueries | client/src/pages/TimePage/providers/CurrentSessionProvider.tsx:140-179 | an open sub-session is adopted; one of the resume type is created exactly when loaded, not new, nothing open and first load |
| CurrentSession.Provider.HandleChangeStatus | client/src/pages/TimePage/providers/CurrentSessionProvider.tsx:103-138 | other statuses are sent alone; completion is sent only with session, sub-session and time left, carrying full minus time left |
| LiveTimer.InitialLiveState | client/src/pages/TimePage/providers/PomodoroProvider.tsx:54-71 | the open sub-session's type, its full duration minus what it used, the view count, paused |
| LiveTimer.ElapsedSent | client/src/pages/TimePage/providers/PomodoroProvider.tsx:150-164 | full duration when finished, otherwise full minus time left; within the segment |
| LiveTimer.Advanced | client/src/pages/TimePage/providers/PomodoroProvider.tsx:130-186 | next type by the rule (work after a break; after work a long break exactly when the new count is a multiple of n) at full duration, count + 1 after work, autoStart, key + 1 |
| LiveTimer.SyncedAfterComplete | client/src/pages/TimePage/providers/PomodoroProvider.tsx:119-189 | completing the open sub-session and opening the next type keeps timer and store in step: one open row of the timer's type and view count equal to the timer's |
| LiveTimer.SyncedAtMount | client/src/pages/TimePage/providers/PomodoroProvider.tsx:54-71 | mounting on the session's only open sub-session, with the view row's count, starts the timer in step with the store |
| LiveTimer.Timer.constructor | client/src/pages/TimePage/providers/PomodoroProvider.tsx:54-71 | the timer starts in the initial live state |
| LiveTimer.Timer.Start | client/src/pages/TimePage/providers/PomodoroProvider.tsx:85-89 | only `isRunning` becomes true |
| LiveTimer.Timer.Pause | client/src/pages/TimePage/providers/PomodoroProvider.tsx:91-98 | only `isRunning` becomes false |
| LiveTimer.Timer.Reset | client/src/pages/TimePage/providers/PomodoroProvider.tsx:100-117 | no-op while running; otherwise the full duration of the current type |
| LiveTimer.Timer.NextSession | client/src/pages/TimePage/providers/PomodoroProvider.tsx:119-189 | the server completes and opens; only on success the provider adopts the new row and the timer advances; a synced timer stays synced |
| LiveTimer.Timer.Skip | client/src/pages/TimePage/providers/PomodoroProvider.tsx:191-210 | refused while running, at zero or during work; otherwise the server completes the open sub-session with full minus time left and opens work, and only on success the timer advances and adopts the new row; a rejected call changes nothing |
| LiveTimer.Timer.Tick | client/src/pages/TimePage/providers/PomodoroProvider.tsx:213-254 | one second less while running above zero; at zero the server completes the open sub-session with its full duration and opens the next type, and only on success the timer advances with the auto-start of the next kind |
| Cycles.GroupCycles | client/src/modal/SessionEndedModal.tsx:49-75 | the cycles concatenated give the list back; cycles are numbered 1..k, non-empty, a long break only last, all but the last closed by one |
| Cycles.ModalCycles | client/src/modal/SessionEndedModal.tsx:49-75 | no data gives no cycles; otherwise the loaded list grouped |
| Cycles.ScreenCycles | client/src/pages/SessionEndedScreen.tsx:30-56 | no session gives no cycles; otherwise the timer's records grouped |
| Cycles.BreakTime | client/src/modal/SessionEndedModal.tsx:77-83 | the break time is non-negative for non-negative elapsed times and 0 when everything is work |
| Cycles.BreakAndWorkMakeTotal | client/src/pages/SessionEndedScreen.tsx:58-62 | break time plus work time is the total the batch path stores |
| Cycles.CycleBreakTimesSum | client/src/pages/SessionEndedScreen.tsx:58-62 | summing break time cycle by cycle gives the whole list's break time |
| Display.FloorDiv | client/src/pages/Timer/components/StatusSection.tsx:37-41 | the floor of the quotient, for either sign of the divisor |
| Display.CurrentBar | client/src/pages/Timer/components/ProgressBars.tsx:19-83 | the highlighted bar lies in the row and is a work bar exactly during work |
| Display.Bars | client/src/pages/Timer/components/ProgressBars.tsx:19-101 | 2n bars, work at even positions, index i/2, only the last break bar long, exactly one current bar |
| Display.ProgressRow | client/src/pages/Timer/components/ProgressBars.tsx:23-25 | nothing without a session |
| Display.FilledUpToCurrent | client/src/pages/Timer/components/ProgressBars.tsx:40-83 | in a state the rule produces, the bars before the current one are full and the others not |
| Display.LastBarIsLongBreak | client/src/pages/Timer/components/ProgressBars.tsx:66-83 | the long-break bar is current exactly during the long break |
| Display.HighlightAdvances | client/src/pages/Timer/components/ProgressBars.tsx:71-83 | each transition moves the highlight one bar on, wrapping after the long break; the cycle number rises exactly when a long break ends |
| Display.DisplayAfter | client/src/pages/Timer/components/StatusSection.tsx:35-42 | i transitions into a cycle the highlight is bar i mod 2n and the cycle shown counts whole cycles gone by |
| Display.Label | client/src/pages/Timer/components/ProgressBars.tsx:103-111 | during work "k+1 of n" with k+1 in 1..n; the break text otherwise |
| Display.CycleNumber | client/src/pages/Timer/components/StatusSection.tsx:35-42 | undefined exactly when n is 0 |
| Display.CycleAtLeastOne | client/src/pages/Timer/components/StatusSection.tsx:35-42 | at least 1 unless in a long break at count 0; during the long break after m·n pomodoros it shows m |
| Display.StatusCycle | client/src/pages/Timer/components/StatusSection.tsx:17-19 | no session gives no finite cycle number |
| Display.StatusMessage | client/src/pages/Timer/components/StatusSection.tsx:21-30 | the paused message is never chosen; take a break exactly during breaks; stay focused exactly while working and running |
| Display.TimePageControls | client/src/pages/TimePage/index.tsx:276-314 | start when paused, pause when running; reset and End Session disabled while running; skip only during breaks and disabled while running |
| TimePage.Page | client/src/pages/TimePage/index.tsx:48-272 | 2n bars with exactly one current, caption in 1..n during work, never the paused message, skip only when paused in a break |
| TimePage.PageAdvances | client/src/pages/TimePage/index.tsx:111-118 | after the timer moves on the page highlights the next bar and shows the next cycle exactly after a long break |
| TimePage.StopSession | client/src/pages/TimePage/index.tsx:64-74 | End Session sends completion with full minus the timer's time left |

## Left out

- JSX, styles, colours, icons, translations and the session-type badge: presentation only.
- The interval itself (its 10 ms and 1000 ms periods, clearing, React effect ordering and stale closures): the tick is an explicit method, and overlapping ticks during a pending server call are not modelled.
- Audio playback of the notification sound: a foreign call whose failures are swallowed.
- Progress percentages: real division with no zero guard.
- dayjs formatting, zod parsing, PocketBase query builders, routing and media upload of the sound file; the settings record keeps the sound as a file name.
- JSON serialisation of the local snapshot; the slot holds the value itself, and an unparseable entry is a separate slot state.
- Clock readings: every ISO timestamp is an input string.
- The `?? 4` default of the TimePage cycle length: the column is a number in every stored row, so the fallback never applies; `TimePage.Page` uses the stored value.
- The `subSessionId`, `subSessionEndedTimestamp` and `subSessionDurationElapsed` fields that the TimePage provider sends to `changeStatus`: the route's input schema has no such fields, so the server performs a plain status change; `CurrentSession.Provider.HandleChangeStatus` records them in its request value and calls `ChangeStatus` with the status alone.
- The thin query forwarders (`ActiveSessionProvider`, the other `CurrentSessionProvider`, `PomodoroSettingsProvider`, `SessionValidityProvider`, `StatisticsModal`) and the `validateId` and `stats` endpoints they call, which are not part of this model.
- Concurrent requests to the store: each route runs to completion before the next.
- Fractional durations and elapsed times: modelled as integers.
