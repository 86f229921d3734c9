# Progress dashboard state model

A Dafny model of the state handling of a two-person progress dashboard
(`src/app/page.tsx`). The page keeps a list of `progress` rows, one per person,
each holding three counters (movies, workouts, smash sets). It loads the rows
once, replaces a row whenever an UPDATE event for its `id` arrives, and turns
each +/- button press into a single-field write. The write is clamped at zero
and targeted by `person`. Local state changes only when the event for that
write comes back. Each progress bar shows `min(100, round(current / goal * 100))`
against a fixed goal of 100.

Modules, one per concept:

- `Wrappers`: the `Option` type.
- `Progress`: the `PersonData` row, the `Counter` selector, the goals, and field access.
- `Sync`: event reconciliation, the initial load, the first-match lookup, the clamp, and write planning. It also defines `ApplyWrite`, the meaning of a write request on a table. `ApplyWrite` is used to state the round trip of a button press.
- `Display`: exact-integer rounding, the percentage, and the label threshold.
- `Dashboard`: the component as a state machine (`Step`, `Run`) over loads, events and presses.

## Model

| member | source | states |
|---|---|---|
| Progress.Goal | src/app/page.tsx:14-18 | every counter's goal is positive, so every percentage is defined |
| Progress.Get | src/app/page.tsx:62 | the value of the selected counter of a record, as `personStats[category]` reads it |
| Progress.Set | src/app/page.tsx:67 | a single-field update sets exactly the named counter and keeps `id`, `person` and the other two counters |
| Sync.ApplyEvent | src/app/page.tsx:36-40 | the result has the same length; records whose `id` differs from the event's are unchanged; records whose `id` matches equal the event row |
| Sync.ApplyEventPreservesIds | src/app/page.tsx:36-40 | the sequence of ids is the same before and after an event |
| Sync.ApplyEventUnchangedIff | src/app/page.tsx:37-39 | an event leaves the list unchanged if and only if every record it matches already equals the event row; in particular, an event with no matching `id` changes nothing |
| Sync.ApplyEventLastWins | src/app/page.tsx:36-40 | of two events for the same `id`, the later one determines the record |
| Sync.ApplyEventCommutes | src/app/page.tsx:36-40 | events for different ids give the same state in either order |
| Sync.ApplyEventPreservesIdOrder | src/app/page.tsx:36-40 | unique ids stay unique and ascending ids stay ascending after an event |
| Sync.Load | src/app/page.tsx:50-53 | a present fetch result becomes the state; an absent one leaves the state as it was |
| Sync.FirstMatch | src/app/page.tsx:57-58 | returns the position of the first record with that `person` (none before it matches); returns nothing exactly when no record matches |
| Sync.ClampedAdd | src/app/page.tsx:62 | the new value is `current + change` when that is non-negative, and 0 otherwise; never negative |
| Sync.IncrementDecrement | src/app/page.tsx:62 | + then - restores any non-negative counter; - then + at zero ends at 1 |
| Sync.PlanUpdate | src/app/page.tsx:55-69 | no write exactly when no local record has that person; otherwise one write for that person and field, with the clamped value computed from the first matching record |
| Sync.PlanUpdateReadsOwnRecord | src/app/page.tsx:57-62 | with one record per person, the write's value comes from that person's record, wherever it is in the list |
| Sync.ApplyWrite | src/app/page.tsx:65-68 | a write sets the field on every row of that person and leaves every other row as it was |
| Sync.EchoConverges | src/app/page.tsx:36-40 | when local state equals the table and ids and names are unique, applying the echoed row image of a write makes local state equal to the written table, and the counter equals the planned value |
| Sync.PlanUpdateExamples | src/app/page.tsx:57-68 | +1 on 10 writes 11; -1 on 0 writes 0; an unknown name writes nothing |
| Display.RoundHalfUp | src/app/page.tsx:120 | the result is within one half of `n / d`, with halves rounded upward, as `Math.round` does |
| Display.RoundHalfUpUnique | src/app/page.tsx:120 | that rounding has exactly one answer |
| Display.Percentage | src/app/page.tsx:120 | at most 100; below 100 it is `100 * current / goal` rounded half up; it is 100 exactly when that ratio reaches 99.5 |
| Display.PercentageBounds | src/app/page.tsx:120 | for a non-negative counter the percentage is in [0, 100]; it is 0 at zero and 100 from the goal on |
| Display.PercentageMonotone | src/app/page.tsx:120 | a larger counter never shows a smaller percentage |
| Display.PercentageOfHundred | src/app/page.tsx:14-18 | with the goal of 100 that the page uses, the percentage equals the counter, capped at 100 |
| Display.ShowsLabel | src/app/page.tsx:134 | the in-bar label is drawn from 5% on |
| Display.ShowsLabelIff | src/app/page.tsx:134 | the in-bar label appears if and only if the counter is at least 4.5% of the goal |
| Display.CounterPercentage | src/app/page.tsx:83-110 | a bar's percentage for a non-negative counter is in [0, 100] |
| Display.CounterLabelFromFive | src/app/page.tsx:134 | on the page's goals, a counter's label appears if and only if the counter is at least 5 |
| Dashboard.Step | src/app/page.tsx:33-69 | only a press produces a write, and its value is non-negative; a press never changes local state; events keep the ids |
| Dashboard.PressBeforeLoadWritesNothing | src/app/page.tsx:21 | presses before the initial load send nothing |
| Dashboard.Run | src/app/page.tsx:20-69 | over any series of actions, every write carries a non-negative value; there is at most one write per press; without a load the ids and their order are kept |
| Dashboard.PressesKeepState | src/app/page.tsx:55-69 | any number of presses alone leave local state as it was |
| Dashboard.FailedLoadIsNoOp | src/app/page.tsx:51-52 | a fetch with no result has no effect on anything that follows |
| Dashboard.LoadDiscardsHistory | src/app/page.tsx:51-52 | after a successful fetch, the state depends only on the fetched rows and on later actions |

## Left out

- The hosted database client (`select`/`order`, `update`/`eq`, `channel`/`on`/`subscribe`/`removeChannel`) is a foreign network library. A fetch result appears only as an `Option` of rows, an event only as its new row image, and a write request only as the `Write` value.
- `ApplyWrite` states what a write request means on a table. The model uses it only to state the round trip. Storage's own ordering of concurrent writes is not modelled.
- The effect's subscribe/unsubscribe lifecycle, `async`/`await` ordering, and races between in-flight writes are not modelled. They are concurrency and remote ordering, which this code does not decide. `Run` handles actions one at a time in the order given.
- The ascending-`id` order of the initial query is the database's job. `Load` takes the rows as returned.
- JSX rendering, colours, labels, bar widths and the logged event are left out.
- `src/app/layout.tsx` is left out. It holds only page metadata, a font and the HTML shell.
- Display.Percentage: uses exact rational arithmetic, not IEEE doubles. With the page's goal of 100, the double `current / 100 * 100` is not always the integer itself (7 gives 7.000000000000001, 29 gives 28.999999999999996), but rounding it gives back `current`, so on the page's goals the model and the page agree; this agreement is not proved here. For other goals the two can differ at exact halves: for `current` 57 and goal 200 the double is 28.499999999999996 and the page would show 28, while the model gives 29. The model requires `goal > 0`. The page passes only the constant 100, so a zero goal (which would give `Infinity` or `NaN`) never arises.
- Sync.PlanUpdate: `category` is typed `keyof PersonData` in the page, which would also admit `id` and `person`. The page passes only the three counters, so the model's `Counter` has just those three. `change` is any integer, though the buttons pass only +1 and -1.
- Counters are unbounded integers. JavaScript numbers are doubles, and the values here never get near 2^53.
