# Run calculator: a verified model of its core

The run calculator is a browser page. It holds several named *runs*; each run is a list of
*intervals*, and each interval has a name, a duration typed as `"mm:ss"` and a speed. The page
shows each run's total time. It keeps the runs in local storage and can import runs from a
share link. This project models the plain-data core of `run-calculator/run-calculator.js`:

- the number and time normalisation (`sanitizeNumber`, `parseTimeInput`, `formatTime`,
  with `Number.parseFloat`, `trim`, `split`, `String(n)` and `padStart` spelled out);
- the run collection (`runs`, `activeRunId`) and the handlers that change it: add, remove,
  select, rename, reset, editing the rows, `persistActiveRun` and `setActiveRun`;
- the start-up controller `loadIntervals`, with the shape check of `decodeIntervals`. It
  restores a stored snapshot and merges the runs of a share link into it.

Files:

- `text.dfy` (module `Text`): white space, `trim`, `split`, decimal digit strings, `String(n)` and
  `padStart(2, "0")`.
- `numbers.dfy` (module `Numbers`): `parseFloat` on decimal notation, `sanitizeNumber`,
  `Math.round` and `Math.floor`.
- `time.dfy` (module `TimeText`): `parseTimeInput` and `formatTime`, with the read-back
  functions used to state round trips.
- `runs.dfy` (module `Runs`): intervals, runs, the lookup by id, the default rows, the
  remove-run rule, and the seconds total with its loop.
- `load.dfy` (module `Load`): snapshot and token shapes, the restore step and the merge of
  shared runs, with the merge loop proved against the merge function.
- `runbook.dfy` (module `Calculator`): the class `RunBook`. Its fields are `runs`,
  `activeRunId`, the rows on screen (`draft`) and the last snapshot saved. Its methods are
  the handlers.
- `wrappers.dfy`: `Option`.

Two browser calls are oracles:
- `crypto.randomUUID` is a function `uuid: nat -> Id`, read at consecutive positions.
- `window.confirm` is a function `confirm: nat -> bool`, asked about the shared run at
  position `j`.

Local storage is the `saved` field, which holds the last snapshot handed to `storage.save`. The
stored snapshot and the share token are inputs in their post-`JSON.parse` shape.

The class invariant `RunBook.Valid()` says four things:
- there is at least one run;
- every id is non-empty;
- `activeRunId` names a run;
- the rows on screen are that run's intervals.

Every handler requires and ensures it. Start-up establishes it whenever the id oracle never
yields an empty id.

Two behaviours of the code are worth stating outright:

- `sanitizeNumber` does not always return a value in `[min, max]`. It returns 0 for
  non-numeric text whatever `min` is, and it returns `max` when `min > max`.
  `Numbers.SanitizeNumber` states both cases.
- After the merge, `loadIntervals` activates the first shared run, even when the user declined
  to replace the run that carried its id. The active id still cannot dangle:
  - `Load.MergeContainsShared` shows that every shared id is present after the merge, whatever
    the answers.
  - A declined run's id is still held by the run that stayed, so that existing run is the one
    activated.

## Model

| member | source | states |
|---|---|---|
| Text.TrimProperties | run-calculator/run-calculator.js:115-116 | `trim` yields empty exactly when the text is all white space; otherwise both ends of the result are non-space |
| Text.TrimIdentity | run-calculator/run-calculator.js:115-116 | text with no white space at either end trims to itself |
| Text.Trim | run-calculator/run-calculator.js:115 | `String.prototype.trim`; its properties are stated by Text.TrimProperties and Text.TrimIdentity |
| Text.Split | run-calculator/run-calculator.js:119 | `split(":")`, always at least one piece; pinned down by Text.SplitPair, Text.SplitAt and Text.SplitNoSeparator |
| Text.NatToDecimal | run-calculator/run-calculator.js:124 | `String(n)` is a digit string, without a leading zero, whose value is `n`; it has at most two digits below 100 |
| Text.Pad2 | run-calculator/run-calculator.js:124 | `padStart(2, "0")` has length max(2, length), ends with the input and is zeros before it |
| Text.PaddedDecimal | run-calculator/run-calculator.js:124 | a padded `String(n)` is all digits with value `n`, at least two long, exactly two below 100 |
| Text.SplitPair | run-calculator/run-calculator.js:119 | `split(":")` of `a:b`, where neither part has a colon, is exactly `[a, b]` |
| Numbers.ParseFloatDigits | run-calculator/run-calculator.js:107 | `parseFloat` of a non-empty digit string is its decimal value |
| Numbers.ParseFloat | run-calculator/run-calculator.js:107 | `Number.parseFloat` on decimal notation; stated by Numbers.ParseFloatDigits, Numbers.ParseFloatNoDigits and Numbers.ParseFloatNegative |
| Numbers.ParseFloatNoDigits | run-calculator/run-calculator.js:107-110 | text without a digit parses to NaN |
| Numbers.ParseFloatNegative | run-calculator/run-calculator.js:107 | a leading minus negates the value of a digit string |
| Numbers.SanitizeNumber | run-calculator/run-calculator.js:106-112 | NaN gives 0; otherwise, when min <= max, the result lies in [min, max]: it is the parsed value when inside, min when below and max when above; when min > max it is max |
| Numbers.SanitizeNoDigits | run-calculator/run-calculator.js:106-108 | text without a digit sanitises to 0, whatever the bounds |
| Numbers.SanitizeNegative | run-calculator/run-calculator.js:106-112 | a negative number with lower bound 0 and no upper bound sanitises to 0 |
| Numbers.SanitizeAboveMax | run-calculator/run-calculator.js:106-112 | a number above the upper bound sanitises to that bound |
| Numbers.FloorNat | run-calculator/run-calculator.js:120-121 | `Math.floor` of a non-negative number is the natural n with n <= x < n + 1 |
| Numbers.Round | run-calculator/run-calculator.js:95 | `Math.round` lies within half a unit of x, and a half rounds up |
| TimeText.SecondsField | run-calculator/run-calculator.js:121 | the seconds field is never above 59 |
| TimeText.MinutesFieldValue | run-calculator/run-calculator.js:120 | the minutes field is the floor of the parsed first part when it is a non-negative number, else 0 |
| TimeText.SecondsFieldValue | run-calculator/run-calculator.js:121 | the seconds field is 59 from 59 up, the floor of the parsed second part from 0 to 59, else 0 (NaN, negative or missing) |
| TimeText.ParseTimeInputBlank | run-calculator/run-calculator.js:115-118 | empty or all-white-space input gives 0 seconds and `"00:00"` |
| TimeText.ParseTimeInput | run-calculator/run-calculator.js:114-125 | `parseTimeInput`; stated by TimeText.ParseTimeInputBlank, TimeText.ParseTimeInputFields, TimeText.ParseTimeInputCanonical and TimeText.ParseTimeInputIdempotent |
| TimeText.ParseTimeInputFields | run-calculator/run-calculator.js:119-124 | for other input: minutes are the floor of `parseFloat` of the first part, or 0 when NaN or negative; seconds are the floor of the second part clamped to [0, 59], or 0 when missing; the total is minutes * 60 + seconds and the text is both fields zero-padded around a colon |
| TimeText.ParseTimeInputCanonical | run-calculator/run-calculator.js:119-124 | the normalised text splits into two digit fields: the first at least two long, the second exactly two with value below 60; the total is their value as minutes and seconds |
| TimeText.ParseDigitPair | run-calculator/run-calculator.js:119-123 | `a:b` with digit strings a and b reads as minutes a and seconds min(b, 59), so `99:99` is 99 minutes 59 seconds |
| TimeText.MinSecFields | run-calculator/run-calculator.js:124 | the `MM:SS` text of m and s splits into two digit fields with values m and s |
| TimeText.ParseMinSec | run-calculator/run-calculator.js:114-124 | reading back a normalised `MM:SS` gives the same minutes and seconds |
| TimeText.ParseTimeInputIdempotent | run-calculator/run-calculator.js:114-124 | normalising a normalised text changes nothing |
| TimeText.ClockFields | run-calculator/run-calculator.js:96-101 | the `HH:MM:SS` text splits at its colons into exactly the three padded fields |
| TimeText.ClockShape | run-calculator/run-calculator.js:96-101 | each field of the `HH:MM:SS` text is a digit string with the value of its count; hours take at least two digits and minutes and seconds below 100 exactly two |
| TimeText.ClockArithmetic | run-calculator/run-calculator.js:96-98 | the hours, minutes and seconds of a count recombine to it, minutes and seconds below 60 |
| TimeText.SecondsClock | run-calculator/run-calculator.js:96-101 | a non-negative whole count formats as `HH:MM:SS` digit fields, MM and SS two digits below 60, reading back as that count |
| TimeText.FormatTimeRoundTrip | run-calculator/run-calculator.js:94-102 | the output is `HH:MM:SS`: HH has at least two digits, MM and SS exactly two with values below 60, and HH*3600 + MM*60 + SS = max(0, round(total)) |
| TimeText.FormatTimeNegative | run-calculator/run-calculator.js:95-101 | a negative total formats as `00:00:00` |
| TimeText.FormatTime | run-calculator/run-calculator.js:94-102 | `formatTime`; stated by TimeText.FormatTimeRoundTrip and TimeText.FormatTimeNegative |
| Runs.IndexOf | run-calculator/run-calculator.js:138 | the lookup by id finds the first run with the id, and finds none exactly when no run has it |
| Runs.Shown | run-calculator/run-calculator.js:181 | a run with intervals shows them; an empty run shows a non-empty default list |
| Runs.DefaultIntervals | run-calculator/run-calculator.js:133-136 | `defaultIntervals()`, the two rows "Interval 1" and "Interval 2" at 00:00 and speed 0; Runs.Shown states that they are what an empty run shows |
| Runs.CreateRun | run-calculator/run-calculator.js:127-131 | `createRun` with the fresh id passed in; Calculator.RunBook.AddRun and Load.RestoreLegacy state the runs it builds |
| Runs.WithActiveIntervals | run-calculator/run-calculator.js:140-146 | `persistActiveRun` on values; stated by Runs.WithActiveIntervalsAt |
| Runs.Activated | run-calculator/run-calculator.js:174-183 | the write-back `setActiveRun` does on the run it finds; stated by Runs.ActivatedKeepsIds and Calculator.ActivatedConsistent |
| Runs.ActiveIndex | run-calculator/run-calculator.js:138 | in a consistent collection the active run is found, at an index holding the active id |
| Runs.ReplaceActive | run-calculator/run-calculator.js:140-146 | replacing the active run with a run under the same id keeps the collection consistent and the active index where it was |
| Runs.ActivatedKeepsIds | run-calculator/run-calculator.js:174-183 | activating a run keeps every id in place and changes only the run found, which then has intervals |
| Runs.AppendFreshIndex | run-calculator/run-calculator.js:561-566 | a run appended under an id no run has is found at the last position |
| Runs.AppendFreshActivated | run-calculator/run-calculator.js:561-568 | activating a freshly appended run with intervals changes nothing |
| Runs.AppendFreshConsistent | run-calculator/run-calculator.js:561-568 | appending a run under a fresh non-empty id keeps the collection consistent, the new run active at the last position |
| Runs.RemoveAt | run-calculator/run-calculator.js:578 | removing position i keeps the runs before it and shifts the ones after it down by one |
| Runs.NeighbourIndex | run-calculator/run-calculator.js:579 | the neighbour is the same index when it still exists, else the previous one, and is always in range |
| Runs.RemoveAtNeighbour | run-calculator/run-calculator.js:572-585 | after removing the active run the run chosen is its successor, or its predecessor when it was last; the multiset of runs loses exactly the removed one |
| Runs.RemoveAtConsistent | run-calculator/run-calculator.js:572-585 | with two or more runs, removal plus the neighbour choice leaves a consistent collection |
| Runs.FilterOut | run-calculator/run-calculator.js:578 | filtering by id leaves no run with that id and never grows the list; what it keeps is stated by Runs.FilterOutAppend, Runs.FilterOutSingle and Runs.FilterOutCounts |
| Runs.FilterOutAppend | run-calculator/run-calculator.js:578 | the filter distributes over concatenation, so the runs it keeps stay in order |
| Runs.FilterOutSingle | run-calculator/run-calculator.js:578 | on one run the filter keeps it exactly when its id is another one |
| Runs.FilterOutCounts | run-calculator/run-calculator.js:578 | every run with another id is kept as often as it occurs, and no run with the id |
| Runs.RemoveByFilter | run-calculator/run-calculator.js:572-585 | the remove-run handler as written; Runs.RemoveByFilterEmpties and Runs.RemoveByFilterAgrees state where it goes wrong and where it agrees with removal by position |
| Runs.FilterOutAbsent | run-calculator/run-calculator.js:578 | filtering out an id no run has leaves the runs unchanged |
| Runs.RemoveByFilterEmpties | run-calculator/run-calculator.js:572-585 | the handler as written, on two runs sharing the active id, empties the collection and leaves no active run |
| Runs.FilterOutDistinct | run-calculator/run-calculator.js:578 | with distinct ids, filtering out a run's id removes exactly that run |
| Runs.RemoveByFilterAgrees | run-calculator/run-calculator.js:577-580 | with distinct ids, the handler as written computes the same runs and the same new active id as removal at the active position |
| Runs.SumSecondsAppend | run-calculator/run-calculator.js:307-326 | the run total splits over any cut of the rows |
| Runs.SumSecondsPermutation | run-calculator/run-calculator.js:302-326 | the run total is the same for any reordering of the rows |
| Runs.TotalSeconds | run-calculator/run-calculator.js:304-326 | the accumulation loop returns the in-order sum of every row's seconds; `updateTotals` passes each row's `parseTimeInput` seconds |
| Runs.WithActiveIntervalsAt | run-calculator/run-calculator.js:140-146 | in a consistent collection, persisting writes the rows into the active run and changes nothing else |
| Load.DecodeIntervals | run-calculator/run-calculator.js:82-88 | a bare array becomes one run "Run 1" under a fresh id with no active id; an object with a `runs` array is passed through; anything else is rejected |
| Load.NormalizeRun | run-calculator/run-calculator.js:385-389 | a present id, name or interval array is kept; a missing id takes the fresh id; a missing name becomes the label followed by the 1-based position in decimal; non-array intervals become none |
| Load.NormalizeRuns | run-calculator/run-calculator.js:396-400 | each run is normalised at its own position, and the k-th run without an id takes the k-th fresh id |
| Load.NormalizeRunsIds | run-calculator/run-calculator.js:386 | normalised runs all have non-empty ids when fresh ids are non-empty |
| Load.RestoreLegacy | run-calculator/run-calculator.js:380-383 | a legacy bare-array snapshot becomes a single active run "Run 1" with the same intervals |
| Load.RestoreActive | run-calculator/run-calculator.js:384-392 | the stored active id is kept exactly when it is non-empty and names a run, else the first run becomes active; the result is consistent |
| Load.RestoreConsistent | run-calculator/run-calculator.js:379-393 | a restore yields either nothing or a consistent collection |
| Load.Restore | run-calculator/run-calculator.js:379-393 | the restore step of `loadIntervals`; stated by Load.RestoreLegacy, Load.RestoreActive and Load.RestoreConsistent |
| Load.MergeStep | run-calculator/run-calculator.js:403-417 | one step of the merge `forEach`; stated by Load.MergeStepIds, Load.MergeStepIdsSeq and Load.MergeStepDistinct |
| Load.MergeAll | run-calculator/run-calculator.js:401-418 | the whole merge `forEach` as a fold in token order; stated by the Load.Merge lemmas below |
| Load.MergeStepIdsSeq | run-calculator/run-calculator.js:403-417 | a step keeps the ids in place when the shared id is taken, replaced or not, and otherwise appends the shared id |
| Load.MergeStepIds | run-calculator/run-calculator.js:403-417 | one merge step keeps every existing id at its index, grows by at most one, and leaves the shared id present |
| Load.MergeKeepsIds | run-calculator/run-calculator.js:401-418 | the merge keeps every existing run's id at its index; each run of the result is either the one that was there or a shared run |
| Load.MergeContainsShared | run-calculator/run-calculator.js:402-420 | whatever the confirm answers, every shared run's id is present after the merge |
| Load.MergeAppends | run-calculator/run-calculator.js:414-417 | shared runs with new, distinct, non-empty ids are appended in token order; the first becomes active when no run was |
| Load.AppendedIds | run-calculator/run-calculator.js:401-418 | the ids the merge appends are at most as many as the shared runs; Load.MergeAppendedIds states that they are what the merge adds |
| Load.MergeAppendedIds | run-calculator/run-calculator.js:401-418 | whatever the answers and collisions, the merge keeps the start's ids in place and appends, in token order, the ids of the shared runs that neither the start nor an earlier shared run carried |
| Load.MergeStepDistinct | run-calculator/run-calculator.js:403-417 | one merge step never gives two runs the same id |
| Load.MergeKeepsDistinct | run-calculator/run-calculator.js:401-418 | a share link cannot create a duplicate id: distinct ids stay distinct through the merge |
| Load.MergeCollision | run-calculator/run-calculator.js:403-412 | a colliding shared run replaces the existing run at the same index and becomes active when confirmed; when declined nothing changes |
| Load.MergeShared | run-calculator/run-calculator.js:401-418 | the replace-or-push loop computes the merge fold over the shared runs in token order |
| Load.SharedRunsIds | run-calculator/run-calculator.js:395-400 | shared runs carry non-empty ids when fresh ids are non-empty |
| Load.SharedRuns | run-calculator/run-calculator.js:395-400 | the token's runs normalised with the "Shared run" prefix; stated by Load.NormalizeRuns and Load.SharedRunsIds |
| Load.MergedConsistent | run-calculator/run-calculator.js:401-420 | merging shared runs into an empty or consistent collection and activating the first shared run gives a consistent collection |
| Load.LoadRuns | run-calculator/run-calculator.js:375-421 | restoring the snapshot and then merging the token's runs step by step yields exactly the loaded collection and active id |
| Load.Loaded | run-calculator/run-calculator.js:375-424 | the runs and active id `loadIntervals` holds before activating; stated by Load.LoadedConsistent, Load.LoadedActivatesShared and Load.LoadedWithoutToken |
| Load.LoadedConsistent | run-calculator/run-calculator.js:375-428 | after loading, the collection is empty or consistent: at least one run, non-empty ids, an active id that names a run |
| Load.LoadedActivatesShared | run-calculator/run-calculator.js:419-420 | after a merge with shared runs, the active id is the first shared run's id, and a run with it is present |
| Load.LoadedWithoutToken | run-calculator/run-calculator.js:378-393 | with no share token, what loads is the restored snapshot |
| Calculator.StartId | run-calculator/run-calculator.js:430 | the run activated at start is the active id when it is truthy, else the first run's |
| Calculator.ActivatedConsistent | run-calculator/run-calculator.js:174-183 | activating a present run leaves a consistent collection whose active run holds what was shown |
| Calculator.LoadedValid | run-calculator/run-calculator.js:426-431 | when loading brought runs, activating the start run gives a consistent state whose active run holds the rows shown |
| Calculator.RunBook.Start | run-calculator/run-calculator.js:659-666 | start-up loads and activates the start run; when nothing loads it seeds one run "Run 1" with the default rows; the invariant holds and the state is saved |
| Calculator.RunBook.Save | run-calculator/run-calculator.js:335 | the snapshot saved is the current runs and active id, which it leaves unchanged |
| Calculator.RunBook.PersistActiveRun | run-calculator/run-calculator.js:140-146 | the first run with the active id takes the rows on screen; nothing else changes |
| Calculator.RunBook.UpdateTotals | run-calculator/run-calculator.js:302-337 | it returns the rows' total seconds, persists the rows into the active run and saves |
| Calculator.RunBook.RenderRunIntervals | run-calculator/run-calculator.js:164-172 | the given rows go on screen and are persisted into the active run and saved |
| Calculator.RunBook.SetActiveRun | run-calculator/run-calculator.js:174-183 | the id becomes active; a run found shows its intervals, or the default rows when it has none, and keeps them, and the state is saved; with no run found nothing else changes |
| Calculator.RunBook.LoadIntervals | run-calculator/run-calculator.js:375-433 | it reports whether anything loaded; when something did, the loaded runs with the start run activated are the state, it is saved, and the invariant holds |
| Calculator.RunBook.EditRows | run-calculator/run-calculator.js:302-337 | the new rows replace the active run's intervals and no other run changes; it returns their total seconds and keeps the invariant |
| Calculator.RunBook.ResetIntervals | run-calculator/run-calculator.js:365-373 | the active run, and the screen, go back to the two default rows; the other runs and the active id stay the same |
| Calculator.RunBook.AddRun | run-calculator/run-calculator.js:561-570 | exactly one run "Run n+1" with the default rows is appended under the fresh id and made active; earlier runs keep their order and ids |
| Calculator.RunBook.RemoveRun | run-calculator/run-calculator.js:572-585 | with one run nothing changes; otherwise exactly the active run goes, the others keep their order, its successor (or else its predecessor) becomes active, and the invariant holds |
| Calculator.RunBook.SelectRun | run-calculator/run-calculator.js:587-595 | the chosen run becomes active and is shown, with defaults written into it when it is empty; the invariant holds |
| Calculator.RunBook.FinishRename | run-calculator/run-calculator.js:608-620 | text that trims to empty leaves the name unchanged; otherwise the active run's name becomes the trimmed text; no other run changes |

## Left out

- Calculator.RunBook.RemoveRun: removes the active run by its position, which is the corrected behaviour. The handler as written filters by id; it is modelled as `Runs.RemoveByFilter` (see Findings).
- Calculator.RunBook.SelectRun: requires the chosen id to name a run, because the select's options are the run ids.
- Calculator.RunBook.AddRun: requires the fresh id to be non-empty and unused, which is what `crypto.randomUUID` provides.
- Calculator.RunBook.Start: establishes the invariant only when the id oracle never yields an empty id.
- Calculator.RunBook.LoadIntervals: establishes the invariant only when the id oracle never yields an empty id. It assumes the initial empty state, its only caller's.
- Calculator.RunBook.ResetIntervals: requires the invariant. Under it the active run always exists, so the source's early return for a missing active run is not modelled.
- Calculator.RunBook.FinishRename: requires the invariant. Under it the active run always exists, so the source's early return for a missing active run is not modelled.
- Calculator.RunBook.EditRows: stands for the input, drop, row-removal, duplicate-row and add-row handlers. It takes the new rows as given; building them in the page is not modelled.
- Rendering is not modelled: `buildRow`, `updateRowLabels` (which renumbers "Interval n" names), `updateRunSelect`, the rename field and the status messages. The rows on screen are the `draft` field.
- The speed re-sanitisation in `updateTotals` and `collectIntervals` is not modelled; rows are stored as given.
- Distances (`(seconds / 3600) * speed`, `toFixed(2)`) are not modelled, because they are floating-point presentation.
- Numbers are exact reals. Floating-point rounding is not modelled, and neither is `parseFloat("Infinity")` or the exponent notation `String(n)` uses from 1e21 upward.
- `localStorage`, `JSON.parse`/`stringify`, `atob`/`btoa` and URI coding are not modelled. Inputs are taken after parsing; a failed parse is `None`. The share button (`encodeIntervals`, the clipboard) and the URL clean-up after import are not modelled either.
- Parsed JSON is limited to the shapes the code distinguishes. Entries that are not objects are not modelled (a `null` run entry throws in the code). Non-string ids and names are taken as strings, with every falsy value as "".
- Run objects are values. The sharing of run objects between the old and new `runs` arrays is not observable in the handlers and is not modelled.

## Findings

| source | as written | input that shows it | evidently intended | confidence | as-written member | corrected member |
|---|---|---|---|---|---|---|
| run-calculator/run-calculator.js:577-580 | the remove-run handler drops every run whose id equals the active id, then picks a neighbour by the old index | a stored snapshot with two runs that share one id, the active one among them: both go, `runs` becomes empty and `activeRunId` null, breaking the at-least-one-run rule | remove exactly the active run, at the index found, so at least one run remains and the neighbour is chosen among the others | medium; not executed; needs duplicate ids, which only a stored snapshot can hold (Load.MergeKeepsDistinct) | Runs.RemoveByFilterEmpties | Calculator.RunBook.RemoveRun |
