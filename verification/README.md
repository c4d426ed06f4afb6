# CalendarSyncBridge reconciliation, modelled in Dafny

CalendarSyncBridge keeps a Yandex calendar (CalDAV) and a Google calendar in
step. Each run fetches both calendars inside a rolling window of days around
today and keys every event by its name and UTC start. It merges the two maps,
with Google winning on a shared key. Every key Google has and Yandex lacks is
then created on Yandex. Every key Yandex has and Google lacks is offered to
Google, which creates it only if its start lies inside the window.

This project models that reconciliation core of `main.py`:

- `wrappers.dfy`, module `Wrappers`: `Option` and `Result`.
- `clock.dfy`, module `Clock`: dates as Python `date` ordinals and instants as
  integer microseconds. Also the sync window (`time.min` of
  `today - past_days` to `time.max` of `today + future_days`), including
  Python's `OverflowError` when a date leaves years 1..9999. Also the
  second-resolution bounds sent to the Google listing.
- `events.dfy`, module `Events`: raw times (naive or with a UTC offset), the
  conversion to UTC, the canonical event, its identity key, and the
  fetch loop that builds a key-to-event map (a later record replaces an
  earlier one with the same key).
- `reconcile.dfy`, module `Reconcile`: the merge `{**yandex, **google}`, the
  two missing sets, the printed counts, the two providers' append steps
  (Yandex unconditional, Google window-guarded), the state of each side after
  one pass, and idempotence.
- `sync.dfy`, module `Sync`: the write pass as two loops over the missing
  sets, taken in arbitrary order as Python iterates a set. Each loop logs
  every attempt. Also the merge built by insertion, and a whole run from
  fetched records to final states.

Backends are modelled by the map their fetch returned. Creating an event puts
it under its own key; the model takes this as what the next fetch would show,
which the source does not always guarantee (see `Reconcile.SyncIdempotent`
under "Left out"). `today` and the fetched records are parameters.

## Model

| member | source | states |
|---|---|---|
| Clock.ComputeWindow | main.py:196-202 | The window is defined exactly when both `today - past_days` and `today + future_days` are representable dates. Its floor is midnight of the first day and its ceiling is one microsecond before midnight after the last day; otherwise the result is the overflow error |
| Clock.TimeBounds | main.py:197-202 | `time.min` is midnight and `time.max` (23:59:59.999999) is one microsecond short of a whole day |
| Clock.WindowNonEmpty | main.py:196-202 | floor <= ceiling exactly when `past_days + future_days >= 0`, so non-negative offsets always give a non-empty window |
| Clock.WindowIsWholeDays | main.py:196-202 | An instant is inside the window exactly when its UTC date is one of the days `today - past_days ..= today + future_days` |
| Clock.SingleDayWindow | main.py:196-202 | With both offsets 0 the window is today, exactly one day of microseconds long |
| Clock.DefaultWindowExample | main.py:34-35 | The default 7/30 offsets on 2024-06-15 give 2024-06-08T00:00:00 to 2024-07-15T23:59:59.999999 UTC |
| Clock.TruncateToSecond | main.py:147-148 | `isoformat(timespec="seconds")` yields a whole second no later than the instant and less than a second before it |
| Clock.GoogleQueryBounds | main.py:147-148 | The Google listing's lower bound equals the window floor; its upper bound is 23:59:59 of the last day, not the window ceiling |
| Events.ToUtc | main.py:79-86 | The result is an aware UTC time denoting the same instant; a naive time is read as UTC |
| Events.ToUtcSameInstant | main.py:79-86 | Two raw times convert to the same UTC time exactly when they denote the same instant, whether written naive or with an offset |
| Events.ToUtcIdempotent | main.py:79-86 | Converting an already converted time changes nothing |
| Events.Normalize | main.py:74-93 | The record keeps the summary as name and both times as UTC instants; a missing description becomes the empty text |
| Events.KeyText | main.py:157 | The text key is the name, a `/`, then the start stamp, each part at a fixed position |
| Events.SameInstantSameKey | main.py:79-88 | Two records with the same summary get the same key exactly when their starts denote the same instant, whatever zones they were written in |
| Events.IdentityIgnoresEndAndDescription | main.py:87-93 | The key `KeyOf` gives two events is equal exactly when their names and UTC starts are equal; end and description play no part in identity |
| Events.KeyTextInjective | main.py:88 | The text key `name/start` identifies name and start when the start stamp contains no `/`, even when the name does |
| Events.KeyTextCollision | main.py:88 | Without that restriction two different name/start pairs share one text key |
| Events.Collect | main.py:68-94 | The fetch map is keyed by each stored record's own key. Its keys are exactly the keys of the fetched records. Each value is a fetched record, and the last record with a given key is the one kept |
| Events.CollectStep | main.py:88-93 | One assignment of the fetch loop keeps all of the properties listed for `Events.Collect` |
| Events.Fetch | main.py:142-163 | Every fetched record's key is in the map, the map is keyed by its records' keys, and every value normalises some fetched record |
| Events.IdentityCollapse | main.py:88-93 | Two records with equal name and start but different end or description produce a single entry, the later record |
| Reconcile.Merge | main.py:211 | The union's keys are the keys of both sides; on a shared key it holds the Google record, on a Yandex-only key the Yandex record |
| Reconcile.MergeWellKeyed | main.py:211 | Merging two maps keyed by their records' keys gives such a map |
| Reconcile.YandexMissing | main.py:218 | The keys missing on Yandex are exactly the Google keys Yandex lacks, and none is a Yandex key |
| Reconcile.GoogleMissing | main.py:219 | The keys missing on Google are exactly the Yandex keys Google lacks, and none is a Google key |
| Reconcile.MissingSetsPartition | main.py:218-219 | The two missing sets are disjoint, and each side's keys plus its missing set are the union's keys |
| Reconcile.MissingRecordsComeFromTheOtherSide | main.py:222-228 | The record sent for a missing key is the other side's record |
| Reconcile.MakeReport | main.py:213-219 | The printed total counts a shared key once. Each side's count plus its missing count equals the total. The missing sets are the two set differences |
| Reconcile.CardinalityOfMerge | main.py:211-214 | The union has `|yandex| + |google| - |shared|` keys |
| Reconcile.Append | main.py:96-111 | A Yandex append puts the event under its key with no check and leaves every other entry unchanged |
| Reconcile.GoogleAdd | main.py:165-183 | A Google add creates the event exactly when its start is within the window, bounds included; a skipped event leaves the state unchanged |
| Reconcile.LastSecondNotListed | main.py:147-169 | An event starting at the window ceiling is created on Google, yet its start lies past the whole-second upper bound of the next Google listing |
| Reconcile.GoogleAddBoundsInclusive | main.py:169 | An event starting exactly at the floor or the ceiling is created |
| Reconcile.YandexAfter | main.py:221-224 | After its pass Yandex holds `{**google, **yandex}`: every key of either side, its own record winning |
| Reconcile.Skipped | main.py:226-229 | The skipped keys are exactly the Yandex-only keys whose record starts outside the window |
| Reconcile.GoogleAfter | main.py:226-229 | After its pass Google holds its own entries plus exactly the non-skipped Yandex-only keys, each with the Yandex record and an in-window start |
| Reconcile.AfterWellKeyed | main.py:221-229 | Both sides remain keyed by their records' keys after the pass |
| Reconcile.SyncIdempotent | main.py:211-229 | After one pass nothing is missing on Yandex, and exactly the skipped keys are missing on Google. A second pass writes nothing and skips the same keys |
| Reconcile.SkippedStable | main.py:226-229 | A second pass skips exactly the keys the first one skipped |
| Reconcile.GoogleAfterStable | main.py:226-229 | A second Google pass leaves Google unchanged |
| Reconcile.ConvergesWhenAllInWindow | main.py:221-229 | If every Yandex record starts inside the window, nothing is skipped and one pass leaves both sides with the same keys |
| Reconcile.OnlyGoogleWritesAreFiltered | main.py:221-229 | A Google-only key always reaches Yandex; a Yandex-only key starting outside the window never reaches Google |
| Reconcile.OneSidedEventScenario | main.py:221-229 | An in-window event only Yandex holds is created on Google, and afterwards nothing is missing on either side |
| Sync.KeysWrittenSnoc | main.py:222-229 | Logging one more attempt adds exactly its key to that side's attempted keys |
| Sync.LogLength | main.py:222-229 | A one-sided log without repeated keys is as long as its set of keys |
| Sync.YandexPass | main.py:222-224 | The Yandex loop stores the merged record of every missing key and logs each key once, all on Yandex |
| Sync.GooglePass | main.py:227-229 | The Google loop offers every missing key once and stores exactly those whose record starts inside the window |
| Sync.PassesMatchReference | main.py:221-229 | The states the two loops leave are the states described by `Reconcile.YandexAfter` and `Reconcile.GoogleAfter` |
| Sync.ConcatIsWriteLog | main.py:221-229 | The Yandex log followed by the Google log attempts each missing key exactly once on its side, Yandex first |
| Sync.WritePass | main.py:217-229 | Exactly-once appends. Each Yandex-missing key is appended to Yandex once with the merged record. Each Google-missing key is offered to Google once. No other key is written, and all Yandex writes precede all Google writes. The only attempts that create nothing are on skipped keys. The final states are the reference ones |
| Sync.MergeByInsertion | main.py:211 | Storing every Yandex entry and then every Google entry yields the merge with Google precedence |
| Sync.RunOutcome | main.py:207-229 | The reference after-states of the fetched maps hold every fetched event on Yandex, and on Google every Google event plus every in-window Yandex event, nothing else outside the window |
| Sync.Sync | main.py:204-229 | A run prints the report of the two fetched maps, leaves both sides in the reference after-states (so `Reconcile.SyncIdempotent` applies to it), and logs each missing key exactly once on its side, Yandex first. Yandex then holds every fetched event; Google holds its own plus every in-window Yandex event |

## Left out

- Provider I/O is not modelled. This covers the CalDAV connection and calendar lookup (main.py:45-64), iCalendar parsing and serialisation, the Google `events().list` and `events().insert` calls, OAuth and the pickled token (main.py:122-140), and configuration loading (main.py:21-39). Runs take fetched records and return map states and a log.
- `datetime.now` is a parameter (`today`). `uuid.uuid4` identifiers and the console output are not modelled, except the counts, which `Reconcile.MakeReport` models.
- Failures are not modelled. A missing calendar, a network error, or an append that raises all abort the Python run. In the model every fetch and every append succeeds.
- The textual key is not modelled. The model keys events by the pair (name, UTC instant) rather than by the text `name/isoformat(start)`. `Events.KeyTextInjective` shows the two agree as long as the rendering is injective and has no `/`. The Yandex side renders starts with `isoformat()`, the Google side with `convert_iso_timezone`. The model assumes both render one instant the same way. If they do not, the source keys one event differently on each side and copies it again on every run; that case is not modelled.
- `convert_iso_timezone` (functions.py) is not part of this model. Google times are normalised with the same rule as Yandex times: naive means UTC, aware is shifted by its offset.
- All-day events are not modelled. Their start is a `date`, not a `datetime`, and the Yandex fetch fails on them (a `date` has no `tzinfo`); on Google it depends on `convert_iso_timezone`. Events without a summary or start are not modelled either. Every raw record here carries a summary and two date-times.
- UTC offsets are not checked to be under 24 hours. Conversions that would leave years 1..9999 are not modelled.
- Which events a fetch returns for the window is the server's choice. Both servers return events that overlap the window, so starts before the floor can appear. The model takes the fetched records as given. Events that exist on a backend but were not fetched are not modelled.
- The `.encode("utf-8").decode("utf-8")` round trips are the identity on Python strings. Names and descriptions are opaque strings.
- Reconcile.SyncIdempotent: assumes the next fetch returns every event the pass created. The source breaks this in two ways. The Google listing's upper bound is truncated to whole seconds while the write guard admits starts up to 23:59:59.999999 (`Reconcile.LastSecondNotListed`). The Google listing reads only the first page of results (main.py:151), with no page-token loop. An event hit by either is created again by every run while it stays outside the listing (for the whole-second gap, the runs whose window ends on the event's day).
- Events.Fetch: states membership and provenance of entries only; the "last record wins" detail is stated on `Events.Collect`, which it calls.

On these points the model follows `main.py`:

- The window is inclusive at both ends, with the ceiling at 23:59:59.999999.
- Instants keep microseconds.
- Only the Google append checks the window; the Yandex append (main.py:96-111) checks nothing.
- The offsets are plain integers, not required to be non-negative.
