# Exam collection of the lab-details page

This project models the one piece of the lab dashboard that has checkable
behaviour: the list of exams a lab-details page keeps for one lab, and the
rules that change it. The repository has two versions of that page. The
router serves `src/pages/LabDetailsPage.jsx`. `src/pages/dummy.jsx` is a
fuller draft of the same page.

- **Auto-status resolver** (`StatusResolver`). Once a second the page maps
  its exam list to a new one. An exam in auto mode with both time fields
  non-empty becomes `Ongoing` when the current time lies in its window,
  both ends included. Outside the window an `Ongoing` exam becomes
  `Stopped`. Every other exam is returned as it was.
- **List maintenance by exam id** (`ExamList`). This covers removal by
  `filter`, appending a created exam, merging a server answer with
  `{...e, ...updated}`, `find`, normalising `_id` to `id` on fetch, the
  status toggle and the timer update.
- **Validation gates** (`Validation`). A name or URL that is empty after
  `trim()` is refused before any request is sent.
- **The two pages** (`LabDetailsPage.Page`, `DraftLabDetailsPage.Page`).
  Each is a class whose `exams` field every handler replaces. Each handler
  is proved against the pure functions above.

Modelling choices:

- Time is an integer count of milliseconds on the local wall clock. The
  tick's `now` is a parameter.
- A time field is a `Stamp`, which has three cases:
  - `Unset`: an empty string. It is falsy, so the tick skips the exam.
  - `Unparsable`: non-empty text that gives an invalid date. Every
    comparison with it is false.
  - `At(ms)`: a parsed instant.
- Ids are strings. A record's id is an `Option`, where `None` is an
  `undefined` id. Handlers take the `exam.id` the UI passes them, so two
  missing ids compare equal, as with `===`.
- Each server answer is a parameter of the handler. `None`, or
  `deleted == false`, is a failed request, and the list is then left
  unchanged. Each confirmation prompt is a boolean parameter.

Behaviour worth noting, where the code differs from what the UI suggests
(the model follows the code):

- An empty time string makes the tick skip the exam, so an `Ongoing`
  exam stays `Ongoing`. Only a non-empty unparsable time falls through to
  the revert-from-`Ongoing` branch.
- The served page's `toggleAutoMode` empties both times whether it
  enables or disables auto mode. The draft empties them only when it
  disables.
- Manual toggles are allowed while auto mode is on.

## Model

| member | source | states |
|---|---|---|
| Validation.SkipSpaceFrom | src/pages/LabDetailsPage.jsx:89 | the first position not holding white space; everything skipped is white space |
| Validation.SkipSpaceBack | src/pages/LabDetailsPage.jsx:89 | the end of a range once trailing white space is dropped; everything dropped is white space |
| Validation.Trim | src/pages/LabDetailsPage.jsx:89 | `trim()` gives a slice of the input whose dropped prefix and suffix are all white space, and which neither starts nor ends with white space |
| Validation.TrimEmptyIffBlank | src/pages/LabDetailsPage.jsx:89 | `!s.trim()` holds exactly when every character of `s` is white space |
| Validation.TrimIdempotent | src/pages/LabDetailsPage.jsx:94-95 | trimming an already trimmed name or URL changes nothing |
| Validation.NewExamRequestFor | src/pages/LabDetailsPage.jsx:89-101 | no request for a blank name or URL; otherwise a stopped, manual exam with trimmed name and URL, empty times and the lab's id |
| Validation.EditRequestFor | src/pages/dummy.jsx:143-151 | no request for a blank edited name or URL; otherwise a body carrying exactly the trimmed name and URL |
| StatusResolver.Resolve | src/pages/LabDetailsPage.jsx:71-81 | the per-exam rule changes no field but `status` |
| StatusResolver.Tick | src/pages/LabDetailsPage.jsx:70-82 | the tick keeps the list's length and applies the rule to each exam in place |
| StatusResolver.TickEntersWindow | src/pages/LabDetailsPage.jsx:72-76 | a governed exam with `start <= now <= end` is `Ongoing` after the tick, both ends inclusive |
| StatusResolver.TickOutsideWindow | src/pages/LabDetailsPage.jsx:77-81 | outside its window a governed `Ongoing` exam becomes `Stopped`; a `Running` or `Stopped` one is left unchanged |
| StatusResolver.TickIgnoresUngoverned | src/pages/LabDetailsPage.jsx:72-81 | an exam not in auto mode, or with an empty on or off time, is returned unchanged |
| StatusResolver.TickUnparsableNeverOngoing | src/pages/LabDetailsPage.jsx:73-79 | a governed exam with an unparsable time is never `Ongoing` after a tick |
| StatusResolver.TickOnlyStatus | src/pages/LabDetailsPage.jsx:70-82 | the tick keeps length and order and changes no field but `status` |
| StatusResolver.TickSettles | src/pages/LabDetailsPage.jsx:70-82 | after a tick every governed exam is `Ongoing` exactly when `now` lies in its window |
| StatusResolver.TickFixedPointIffSettled | src/pages/LabDetailsPage.jsx:70-82 | a tick changes nothing if and only if every exam is already settled |
| StatusResolver.TickIdempotent | src/pages/LabDetailsPage.jsx:70-82 | ticking twice at the same time gives the same list as ticking once |
| StatusResolver.TickAll | src/pages/LabDetailsPage.jsx:67-86 | a run of ticks keeps the list's length, and after at least one tick every exam is settled at the last tick's time |
| StatusResolver.TickAllIgnoresUngoverned | src/pages/LabDetailsPage.jsx:67-86 | after any number of ticks an ungoverned exam is exactly as it was |
| StatusResolver.WindowScenario | src/pages/LabDetailsPage.jsx:72-79 | a stopped exam with window 10:00-11:00 is `Ongoing` after a tick at 10:30 and `Stopped` after a tick at 11:01 |
| ExamList.MapMatching | src/pages/LabDetailsPage.jsx:172-174 | `map` with an id test changes exactly the exams whose id matches |
| ExamList.MapMatchingAbsent | src/pages/LabDetailsPage.jsx:172-174 | an id no exam carries leaves the list unchanged |
| ExamList.RemoveById | src/pages/LabDetailsPage.jsx:132 | the filtered list holds exactly the exams whose id differs, and no exam with the given id |
| ExamList.RemoveByIdConcat | src/pages/LabDetailsPage.jsx:132 | filtering works piecewise, so the kept exams stay in their original order |
| ExamList.RemoveByIdAbsent | src/pages/LabDetailsPage.jsx:132 | removing an id no exam carries changes nothing |
| ExamList.RemoveByIdIdempotent | src/pages/LabDetailsPage.jsx:132 | removing the same id twice is the same as removing it once |
| ExamList.CreatedRecord | src/pages/LabDetailsPage.jsx:108-116 | the appended record takes its id from `_id` and copies name, URL, status, auto mode and times from the created exam |
| ExamList.AppendCreated | src/pages/LabDetailsPage.jsx:106-117 | appending adds exactly one exam, at the end, and leaves the earlier exams unchanged |
| ExamList.AppendThenRemove | src/pages/LabDetailsPage.jsx:106-132 | removing a newly created exam by its fresh id gives back the list from before the add |
| ExamList.AppendKeepsUnique | src/pages/LabDetailsPage.jsx:106-117 | appending an exam with a fresh id keeps ids unique |
| ExamList.FindIndex | src/pages/dummy.jsx:178 | `find` stops at the first exam with the id; no earlier exam carries it |
| ExamList.Find | src/pages/dummy.jsx:178-179 | `find` returns nothing exactly when no exam carries the id; otherwise the first exam of the list with that id |
| ExamList.FindUnique | src/pages/dummy.jsx:178 | with unique ids, `find` returns the one exam carrying the id |
| ExamList.Merge | src/pages/dummy.jsx:154 | every field the response carries overrides the record's, and every field the response lacks keeps the record's value |
| ExamList.MergeAgrees | src/pages/dummy.jsx:154 | after a merge the record agrees with every field of the response; a merge changes a record exactly when it does not already agree |
| ExamList.MergeIdempotent | src/pages/dummy.jsx:154 | merging a response twice is merging it once; an empty response changes nothing |
| ExamList.MergeById | src/pages/dummy.jsx:153-155 | only records whose id matches change; each of them becomes its merge with the response, so it agrees with the response and keeps the fields the response lacks |
| ExamList.Normalise | src/pages/dummy.jsx:56-59 | an own `id` is kept; otherwise a non-empty `_id` becomes the id; all other fields are copied |
| ExamList.NormaliseAll | src/pages/dummy.jsx:56-60 | every fetched record is normalised, in order |
| ExamList.NormaliseAllKeys | src/pages/dummy.jsx:56-59 | records keyed by distinct `_id`s get unique, defined ids equal to their `_id`s |
| ExamList.Toggled | src/pages/LabDetailsPage.jsx:146-148 | `Running` and `Ongoing` map to `Stopped`; exactly `Stopped` maps to `Running` |
| ExamList.ToggledTwice | src/pages/LabDetailsPage.jsx:146-148 | toggling twice restores a manual status; an `Ongoing` exam comes back `Running` |
| ExamList.ToggleStatusById | src/pages/LabDetailsPage.jsx:139-153 | only exams with the given id get the toggled status; all other exams are unchanged |
| ExamList.SetTimer | src/pages/LabDetailsPage.jsx:173 | `{...exam, [type]: value}` sets exactly the named timer field |
| ExamList.UpdateTimerById | src/pages/LabDetailsPage.jsx:170-176 | only exams with the given id have the timer set; all other exams are unchanged |
| ExamList.UpdateTimerOnlyField | src/pages/LabDetailsPage.jsx:170-176 | the update changes only the named timer of the matching exam; the other timer and all other fields are kept |
| LabDetailsPage.ToggleAutoModeById | src/pages/LabDetailsPage.jsx:155-168 | the matching exam has `autoMode` negated and both times emptied; nothing else changes |
| LabDetailsPage.ToggleAutoModeThenTick | src/pages/LabDetailsPage.jsx:155-168 | after an auto-mode toggle the next tick leaves that exam's status untouched, at any time |
| LabDetailsPage.LoadAsWritten | src/pages/LabDetailsPage.jsx:40 | the served fetch stores records as returned: each exam's id is its own `id` property |
| LabDetailsPage.AsWrittenToggleHitsAll | src/pages/LabDetailsPage.jsx:40 | with records keyed by `_id`, toggling any exam loaded as written toggles every exam |
| LabDetailsPage.AsWrittenToggleWitness | src/pages/LabDetailsPage.jsx:39-40 | two stopped exams with `_id`s "a" and "b": starting the first also starts the second |
| LabDetailsPage.NormalisedToggleHitsOne | src/pages/dummy.jsx:56-60 | with normalised ids, toggling one exam changes that exam and no other |
| LabDetailsPage.Page.constructor | src/pages/LabDetailsPage.jsx:22-32 | the page starts with no exams and an empty, closed add-exam form |
| LabDetailsPage.Page.Load | src/pages/LabDetailsPage.jsx:35-46 | a successful fetch replaces the list with the records as returned, each exam's id being its own `id` property |
| LabDetailsPage.Page.Tick | src/pages/LabDetailsPage.jsx:67-86 | each interval tick replaces the list with the resolver's result |
| LabDetailsPage.Page.AddExam | src/pages/LabDetailsPage.jsx:88-127 | a blank name or URL sends nothing and changes nothing; a success appends the created exam and clears and closes the form; a failure keeps list and form |
| LabDetailsPage.Page.RemoveExam | src/pages/LabDetailsPage.jsx:129-137 | after a confirmed delete the list is filtered by id; otherwise it is unchanged |
| LabDetailsPage.Page.ToggleStatus | src/pages/LabDetailsPage.jsx:139-153 | the list becomes the status-toggled list |
| LabDetailsPage.Page.ToggleAutoMode | src/pages/LabDetailsPage.jsx:155-168 | the list becomes the auto-mode-toggled list with times emptied |
| LabDetailsPage.Page.UpdateTimer | src/pages/LabDetailsPage.jsx:170-176 | the list becomes the list with the one timer field set |
| DraftLabDetailsPage.StatusRequest | src/pages/dummy.jsx:191-193 | the status request carries only the new status |
| DraftLabDetailsPage.AutoModeRequest | src/pages/dummy.jsx:210-222 | the request flips `autoMode`; disabling sends empty times, enabling sends the exam's own times |
| DraftLabDetailsPage.SaveAutoModeRequest | src/pages/dummy.jsx:270-274 | the request turns auto mode on with the exam's current times |
| DraftLabDetailsPage.MinuteFloor | src/pages/dummy.jsx:237 | slicing at the minutes gives the largest whole minute not after the instant |
| DraftLabDetailsPage.MinuteFloorShift | src/pages/dummy.jsx:237-238 | adding whole minutes before the cut is the same as adding them after it |
| DraftLabDetailsPage.AutoStartWindow | src/pages/dummy.jsx:237-248 | the auto-start window opens at the current minute, holds the current time, and its off time is one hour after its on time |
| DraftLabDetailsPage.AutoStartWindowAsWritten | src/pages/dummy.jsx:237-248 | as written, the on time is the UTC wall clock cut to the minute, and the off time is one hour after it |
| DraftLabDetailsPage.AsWrittenAutoStartMissesNow | src/pages/dummy.jsx:237-248 | as written, in a zone west of UTC or more than an hour east of it, the window misses the current time |
| DraftLabDetailsPage.AsWrittenAutoStartMissesLater | src/pages/dummy.jsx:237-248 | as written, in a zone an hour or more east of UTC, every tick after the setting instant misses the window |
| DraftLabDetailsPage.AsWrittenAutoStartWitness | src/pages/dummy.jsx:237-248 | at UTC+05:30 an auto-started stopped exam is still `Stopped` after the next tick |
| DraftLabDetailsPage.EnableAutoStartById | src/pages/dummy.jsx:241-254 | only the matching exam gets auto mode on and the window; all other exams are unchanged |
| DraftLabDetailsPage.EnableAutoStartThenTick | src/pages/dummy.jsx:236-255 | an auto-started exam has its off time one hour after its on time and is `Ongoing` after a tick at the same time |
| DraftLabDetailsPage.ToggleStatusEchoMatchesLocal | src/pages/dummy.jsx:176-203 | if the server echoes the requested status, the draft's toggle leaves the same list as the served page's local toggle |
| DraftLabDetailsPage.ToggleAutoModeEcho | src/pages/dummy.jsx:205-234 | if the server echoes the request, disabling empties both times and enabling keeps them; the status is untouched |
| DraftLabDetailsPage.Page.constructor | src/pages/dummy.jsx:25-49 | the page starts with no exams, no editor open and empty forms |
| DraftLabDetailsPage.Page.Load | src/pages/dummy.jsx:52-66 | a successful fetch replaces the list with the normalised records |
| DraftLabDetailsPage.Page.Tick | src/pages/dummy.jsx:86-105 | each interval tick replaces the list with the resolver's result |
| DraftLabDetailsPage.Page.StartEditingExam | src/pages/dummy.jsx:132-136 | the editor opens on the exam's id, name and URL |
| DraftLabDetailsPage.Page.CancelEditingExam | src/pages/dummy.jsx:138-140 | the editor closes |
| DraftLabDetailsPage.Page.SaveExamEdits | src/pages/dummy.jsx:142-161 | a blank name or URL sends nothing and changes nothing; a success merges the answer into the matching exam and closes the editor |
| DraftLabDetailsPage.Page.RemoveExam | src/pages/dummy.jsx:164-174 | nothing is sent unless confirmed; after a confirmed, successful delete the list is filtered by id |
| DraftLabDetailsPage.Page.ToggleStatus | src/pages/dummy.jsx:176-203 | a missing id or a declined prompt sends nothing; otherwise the toggled status is requested and the answer merged into the matching exam |
| DraftLabDetailsPage.Page.ToggleAutoMode | src/pages/dummy.jsx:205-234 | a missing id or a declined prompt sends nothing; otherwise the auto-mode request is sent and the answer merged |
| DraftLabDetailsPage.Page.EnableAutoStart | src/pages/dummy.jsx:236-255 | the list becomes the list with the matching exam auto-started |
| DraftLabDetailsPage.Page.UpdateTimer | src/pages/dummy.jsx:257-263 | the list becomes the list with the one timer field set |
| DraftLabDetailsPage.Page.SaveAutoMode | src/pages/dummy.jsx:265-285 | a missing id sends nothing; otherwise auto mode with the current times is requested and the answer merged |
| DraftLabDetailsPage.Page.AddExam | src/pages/dummy.jsx:287-327 | a blank name or URL sends nothing and changes nothing; a success appends the created exam and clears and closes the form |

## Findings

| source | as written | input that shows it | evidently intended | confidence | as-written member | corrected member |
|---|---|---|---|---|---|---|
| src/pages/LabDetailsPage.jsx:40 | fetched exams are stored as returned, so an exam keyed by `_id` has no `id`; every handler matches `exam.id === examId` with both sides `undefined` | two fetched exams with `_id` "a" and "b", both `Stopped`: starting the first also starts the second | copy `_id` into `id` on fetch, as `addExam` (line 109) and the draft page (dummy.jsx:56-59) do | medium: depends on the service returning `_id` and no `id`, as line 109 indicates; not executed | LabDetailsPage.AsWrittenToggleHitsAll | LabDetailsPage.NormalisedToggleHitsOne |
| src/pages/dummy.jsx:237-238 | the auto-start window is written with `toISOString()`, which is UTC, into fields that `new Date(...)` parses as local time | a browser at UTC+05:30: the window ends 4.5 hours before now, and the next tick leaves the exam `Stopped` | a window from the local current minute to one hour later, so the next tick makes the exam `Ongoing` | high for zones west of UTC or more than an hour east of it, where even the setting instant misses the window; at exactly UTC+01:00 every later tick misses it (`AsWrittenAutoStartMissesLater`); not executed | DraftLabDetailsPage.AsWrittenAutoStartMissesNow | DraftLabDetailsPage.EnableAutoStartThenTick |

## Left out

- HTTP calls to the exam service are not modelled as requests. Each handler
  returns the request body it would send and takes the answer as a
  parameter. Error `alert`s and console logging are not modelled.
- `window.confirm` prompts are modelled as a `confirmed` parameter.
- `setInterval`/`clearInterval` and the `useEffect` lifecycle are not
  modelled. One tick is one call with `now` passed in.
- React's state scheduling is not modelled. Handlers that read the
  render-time `exams` instead of the latest state (stale closures) are
  modelled as reading the current list.
- `new Date(...)` parsing is not modelled. It is abstracted into `Stamp`.
- Time zones are not modelled, except for the UTC offset in the
  auto-start finding. Daylight-saving changes are not modelled either.
- DraftLabDetailsPage.AutoStartWindow, DraftLabDetailsPage.EnableAutoStartById
  and DraftLabDetailsPage.Page.EnableAutoStart model the corrected,
  local-time window. They match dummy.jsx:237-238 as written only when local
  time is UTC; `AutoStartWindowAsWritten` models the code for any offset.
- LabDetailsPage.Page.Load stores the fetched records as LabDetailsPage.jsx:40
  does, without the `_id`-to-`id` copy, so the served page's class carries
  the first finding. The normalised fetch is the draft page's `Load` and
  `NormalisedToggleHitsOne`.
- `enableAutoStart` reads the clock twice (`new Date()` and
  `Date.now()`). The model uses one `now` for both.
- `enableAutoStart` also sets `_autoOnTimeTemp` and `_autoOffTimeTemp`
  (dummy.jsx:249-250). Nothing reads these fields, so they are not
  modelled.
- Exam records have only the seven fields the page uses. The `_id`,
  `labId` and other server properties that a merge spreads into a record
  are not modelled.
- Status strings other than `Stopped`, `Running` and `Ongoing` are not
  modelled. The toggle would map such a status to `Running`.
- The `editingAutoId` state and its buttons (dummy.jsx:49, 549-597) only
  decide what is rendered, so they are not modelled.
- Lab editing (`startEditingLab`, `saveLabEdits`, dummy.jsx:107-129) is
  not modelled. It is a lab record, not the exam list.
- The devices tab, the tabs, the add-exam modal's opening and all
  rendering are not modelled.
- src/pages/LabPage.jsx, src/App.jsx and src/components/Navbar.jsx are
  not part of this model. They hold a hard-coded lab list, routing and
  links.
