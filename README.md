# Interval timer: timer store, theme store and countdown display

A model of the core of a React Native interval-timer app. A user keeps a list of
presets. Each preset is an ordered list of timed segments plus a `loop` flag. The
timer store runs a countdown through the active preset. A clock calls `tick` once a
second. In the model:

- `TimerTypes` holds the data model: `Segment`, `Preset`, `PresetDraft`, `TimerState`, `TimerStatus`.
- `TimerEngine` holds the store's countdown transitions as functions on `TimerState`
  values (`Activate`, `Reset`, `Start`, `Pause`, `Step`). It also holds lemmas about
  running `Step` many times: how long a segment lasts, when a non-looping preset
  completes, and the period of a looping one.
- `PresetList` holds the list edits `filter` and `map` by id, with their properties.
- `TimerStore.Store` is the store as a class. It has the five fields the program
  updates with `set`, plus a reference to the shared key-value storage. Each method
  is tied to its `TimerEngine` or `PresetList` function and keeps the invariant `Valid()`.
- `Storage.KeyValueStore` is the device storage as a synchronous map from keys to
  abstract values.
- `ThemeStore` holds the theme catalog (id, name and dark flag only), the lookup by id that
  falls back to the first theme, and a class for the selected theme, its persistence
  and the start-up restore.
- `TimerDisplay` holds the `mm:ss` text: minute/second split, `String(n)`, `padStart`.
  A reader function proves that the text gives the number back. It also holds the
  play/pause choice of the main button.

Durations are whole minutes (`int`). They become seconds only when a segment is
entered (`* 60`). Reaching 0 and leaving a segment are separate ticks, so a segment of
`d` minutes takes `d * 60 + 1` running ticks (`SegmentTicks`). A non-looping preset
therefore stops after the sum of `d * 60 + 1` over its segments (`CycleTicks`). It
stops on its last segment with 0 seconds left. A looping preset returns to its start
after exactly that many ticks.

Behaviour of the code worth knowing:
- `startTimer` sets `isRunning` even when no preset is active. A tick then still does
  nothing.
- A one-minute non-looping preset is still running at 0 seconds after 60 ticks. It
  stops at the 61st tick (`OneMinuteRun`).
- Two looping one-minute segments are at segment 1 with 0 seconds after 121 ticks.
  They are back at segment 0 with 60 seconds after 122 (`TwoMinuteLoopRun`).
- Completion leaves the index on the last segment.
- Removing or updating the active preset leaves `activePreset` unchanged.
- The preset list is written to storage but never read back.

## Model

| member | source | states |
|---|---|---|
| TimerTypes.WithId | store/timerStore.ts:25-28 | the new preset carries the given id and exactly the draft's name, segments and loop flag |
| TimerEngine.InitialInv | store/timerStore.ts:18-22 | the initial store state is stopped, has no preset and satisfies the invariant |
| TimerEngine.Activate | store/timerStore.ts:49-56 | setActivePreset: preset bound, index 0, stopped, seconds = first segment's minutes * 60 (0 with none); establishes the invariant |
| TimerEngine.Reset | store/timerStore.ts:61-70 | resetTimer is a no-op without a preset, and otherwise equals setActivePreset of the same preset; keeps the invariant |
| TimerEngine.Start | store/timerStore.ts:58 | startTimer sets isRunning and changes nothing else |
| TimerEngine.Pause | store/timerStore.ts:59 | pauseTimer clears isRunning and changes nothing else |
| TimerEngine.Step | store/timerStore.ts:72-94 | a tick keeps the index inside the active preset's segments, keeps the countdown non-negative given non-negative durations, and never changes the active preset |
| TimerEngine.Run | store/timerStore.ts:72-94 | any number of ticks keeps the invariant and the active preset |
| TimerEngine.SegmentTicks | store/timerStore.ts:76-92 | ticks from entering segment i to the end: at least one per remaining segment, and more than the segment's seconds |
| TimerEngine.CycleTicks | store/timerStore.ts:76-92 | a whole run of a preset takes at least one tick per segment |
| TimerEngine.Started | store/timerStore.ts:49-58 | activate then start: running at segment 0 with its full duration in seconds |
| TimerEngine.RunAdd | store/timerStore.ts:72-94 | a + b ticks are a ticks followed by b ticks |
| TimerEngine.StoppedStaysPut | store/timerStore.ts:73-74 | a stopped timer, or one without a preset, is unchanged by any number of ticks |
| TimerEngine.Countdown | store/timerStore.ts:76-77 | while k seconds remain, k ticks take exactly k seconds off and change nothing else |
| TimerEngine.FromSegment | store/timerStore.ts:76-92 | from entering segment i, SegmentTicks ticks later a looping preset is at the start of segment 0 and a non-looping one is stopped on the last segment at 0 seconds |
| TimerEngine.RunningWithinSegments | store/timerStore.ts:76-92 | before those ticks are used up the timer is still running |
| TimerEngine.RunToCompletion | store/timerStore.ts:76-92 | a started non-looping preset runs for exactly CycleTicks ticks, then is stopped on its last segment at 0 seconds, and later ticks leave it there |
| TimerEngine.LoopNeverStops | store/timerStore.ts:85-89 | a running looping preset is still running after any number of ticks |
| TimerEngine.LoopCycle | store/timerStore.ts:79-89 | a started looping preset is back at its start after exactly CycleTicks ticks |
| TimerEngine.RunPeriodic | store/timerStore.ts:72-94 | a state that c ticks bring back to itself is, after any whole number of c-tick cycles plus j ticks, where j ticks bring it |
| TimerEngine.RunModulo | store/timerStore.ts:72-94 | for such a state, n ticks give the same state as n mod c ticks |
| TimerEngine.LoopPeriodic | store/timerStore.ts:79-89 | a started looping preset is back at its start after every whole number of cycles, so k cycles plus j ticks equal j ticks |
| TimerEngine.LoopPosition | store/timerStore.ts:79-89 | the state of a looping preset after n ticks is its state after n mod CycleTicks ticks |
| TimerEngine.OneMinuteRun | store/timerStore.ts:72-94 | one 1-minute segment, no loop: 1 s left after 59 ticks, running at 0 after 60, stopped after 61, unchanged after 62 |
| TimerEngine.TwoMinuteLoopRun | store/timerStore.ts:72-94 | two 1-minute segments, looping: segment 1 at 0 s after 121 ticks, back at the start after 122 |
| PresetList.WithoutId | store/timerStore.ts:37 | removePreset's filter: the result holds exactly the presets whose id differs, and is no longer than the input |
| PresetList.WithoutIdConcat | store/timerStore.ts:37 | the filter works piecewise on a concatenation, so relative order is kept |
| PresetList.WithoutUnknownId | store/timerStore.ts:37 | removing an id no preset carries leaves the list unchanged |
| PresetList.WithoutIdLength | store/timerStore.ts:37 | the filter shortens the list by exactly the number of presets carrying the id |
| PresetList.Replaced | store/timerStore.ts:44 | updatePreset's map: same length, and each position holds the new preset when ids match and the old entry otherwise |
| PresetList.ReplacedUnknownId | store/timerStore.ts:44 | updating an id no preset carries leaves the list unchanged |
| PresetList.AddThenUpdate | store/timerStore.ts:24-47 | adding under a fresh id and then updating that id gives the old list followed by the updated preset |
| TimerStore.Store.constructor | store/timerStore.ts:17-22 | the store starts stopped, at index 0 with 0 seconds, no active preset and no presets |
| TimerStore.Store.AddPreset | store/timerStore.ts:24-33 | appends exactly the new preset at the end, writes the whole list under 'presets', leaves the countdown fields alone |
| TimerStore.Store.RemovePreset | store/timerStore.ts:35-40 | the list becomes the filter by id (unchanged for an unknown id), is written under 'presets', and the countdown fields and active preset are untouched |
| TimerStore.Store.UpdatePreset | store/timerStore.ts:42-47 | the list becomes the map by id, is written under 'presets', and the countdown fields and active preset are untouched |
| TimerStore.Store.SetActivePreset | store/timerStore.ts:49-56 | the state becomes Activate(preset) whatever it was before; requires the preset to have a segment |
| TimerStore.Store.StartTimer | store/timerStore.ts:58 | the state becomes Start of the old state |
| TimerStore.Store.PauseTimer | store/timerStore.ts:59 | the state becomes Pause of the old state |
| TimerStore.Store.ResetTimer | store/timerStore.ts:61-70 | the state becomes Reset of the old state |
| TimerStore.Store.Tick | store/timerStore.ts:72-94 | the state becomes Step of the old one, case by case: no-op when stopped or without a preset, one second less, enter the next segment, wrap to segment 0, or only stop; presets and storage untouched |
| TimerStore.RunPresetToEnd | store/timerStore.ts:49-94 | driving the store once a second as the timer screen does, a started non-looping preset is stopped on its last segment at 0 seconds after CycleTicks ticks, and the preset list is unchanged |
| Storage.KeyValueStore.SetItem | store/timerStore.ts:32 | the key now holds the value and every other key is unchanged |
| Storage.KeyValueStore.GetItem | store/themeStore.ts:20 | returns the stored value, or none exactly when the key is missing |
| ThemeStore.CatalogShape | types/theme.ts:26-176 | the catalog has five themes with distinct ids |
| ThemeStore.FindIndex | store/themeStore.ts:13 | find: the index of the first theme with the id, or none when no theme has it |
| ThemeStore.FindOrDefault | store/themeStore.ts:13 | find-or-first: the first theme with the id when one exists, otherwise the catalog's first theme |
| ThemeStore.SelectById | store/themeStore.ts:13 | with distinct ids, looking up a catalog theme's id gives that theme |
| ThemeStore.UnknownIdDiverges | store/themeStore.ts:13-15 | an unknown id selects the first theme, whose id differs from the id that is stored |
| ThemeStore.Store.constructor | store/themeStore.ts:11 | the current theme starts as the catalog's first theme |
| ThemeStore.Store.SetTheme | store/themeStore.ts:12-16 | the current theme becomes find-or-first of the id, and the id is written verbatim under 'theme' |
| ThemeStore.Store.Restore | store/themeStore.ts:20-24 | setTheme runs exactly when a non-empty text is stored under 'theme'; otherwise the theme is unchanged; storage ends as it was |
| TimerDisplay.SplitTime | components/Timer/TimerDisplay.tsx:28-29 | minutes * 60 + seconds equals the input, and seconds are below 60 |
| TimerDisplay.DecimalString | components/Timer/TimerDisplay.tsx:39 | String(n): at least one digit, no leading zero, one digit exactly below 10, at most two exactly below 100 |
| TimerDisplay.DecimalRoundTrip | components/Timer/TimerDisplay.tsx:39 | the digits of String(n) denote n |
| TimerDisplay.PadStart | components/Timer/TimerDisplay.tsx:39 | padStart: length max(width, length), original text as the suffix, only fill characters in front |
| TimerDisplay.Field | components/Timer/TimerDisplay.tsx:39 | a padded field is all digits, at least 2 long, exactly 2 below 100, plain String(n) from 100, and denotes n |
| TimerDisplay.FormatTime | components/Timer/TimerDisplay.tsx:28-39 | the countdown text is at least 5 long with ':' third from the end, and exactly 5 long below 6000 seconds |
| TimerDisplay.ClockRoundTrip | components/Timer/TimerDisplay.tsx:28-39 | reading the text back gives exactly the minutes and seconds SplitTime made it from |
| TimerDisplay.FormatInjective | components/Timer/TimerDisplay.tsx:28-39 | different numbers of seconds give different texts |
| TimerDisplay.MainButtonFor | components/Timer/TimerDisplay.tsx:47-56 | pause icon exactly when running, and the press calls onPause exactly when running, otherwise play and onStart |
| TimerDisplay.MainButtonToggles | components/Timer/TimerDisplay.tsx:47-52 | while a preset is active, with onStart wired to startTimer and onPause to pauseTimer, a press flips isRunning and changes nothing else |

## Left out

- The storage is asynchronous on the device. The model writes synchronously and leaves out completion order and write failures.
- The preset list is stored as an abstract value, not as `JSON.stringify` text.
- `Date.now().toString()` id generation is replaced by an `id` parameter of `AddPreset`. Uniqueness relies on the wall clock and is not modelled.
- The state container (`create`/`set`/`get`), React hooks, the reanimated background colour, styles and icons are left out.
- Colours are left out: the theme palette fields and the segment colour are kept as strings or dropped.
- `ThemeSelector.tsx`, the presets and settings screens, and `duplicatePreset` are UI code and are not part of this model. `duplicatePreset` calls `addPreset`.
- TimerStore.Store.SetActivePreset: requires a given preset to have at least one segment. The program reads `segments[0]` and would throw on an empty list.
- TimerEngine.Step: the invariant needs non-negative durations to keep `timeRemaining >= 0`. The editing screen's `parseInt` can produce a negative duration, and then the countdown can go negative. Index bounds hold regardless.
- TimerDisplay.FormatTime: covers `timeRemaining >= 0` only, since JavaScript's floor and `%` differ from Dafny's on negatives. Negative values are unreachable with non-negative durations.
- ThemeStore.Store.Restore: treats a stored preset-list value under 'theme' as absent. The app never writes one there.
- Numbers are unbounded integers. JavaScript doubles lose precision only above 2^53 seconds, which is far beyond any timer.
- `TimerStatus` is declared as a datatype but not derived from the state. No modelled code produces it.
