/** The timer store: the countdown fields, the preset list, and the writes of that list
    to storage. Each method updates the fields the way the program's `set` calls do. */
module TimerStore {
  import opened Options
  import opened TimerTypes
  import opened TimerEngine
  import opened PresetList
  import opened Storage

  /** The storage key the preset list is written under. */
  const PresetsKey := "presets"

  class Store {
    var isRunning: bool
    var currentSegmentIndex: int
    var timeRemaining: int
    var activePreset: Option<Preset>
    var presets: seq<Preset>
    const storage: KeyValueStore

    /** The four countdown fields as one value. */
    function State(): (s: TimerState)
      reads this
    {
      TimerState(isRunning, currentSegmentIndex, timeRemaining, activePreset)
    }

    predicate Valid()
      reads this
    {
      Consistent(State())
    }

    constructor (storage: KeyValueStore)
      ensures Valid() && State() == Initial && Inv(State())
      ensures presets == [] && this.storage == storage
    {
      isRunning, currentSegmentIndex, timeRemaining, activePreset := false, 0, 0, None;
      presets := [];
      this.storage := storage;
    }

    /** `addPreset`: append the draft under the given id and persist the whole list. */
    method AddPreset(draft: PresetDraft, id: string)
      requires Valid()
      modifies this, storage
      ensures Valid() && State() == old(State())
      ensures presets == old(presets) + [WithId(draft, id)]
      ensures storage.entries == old(storage.entries)[PresetsKey := Presets(presets)]
    {
      presets := presets + [WithId(draft, id)];
      storage.SetItem(PresetsKey, Presets(presets));
    }

    /** `removePreset`: drop every preset with this id and persist the list. The active
        preset is left alone even when it is the one removed. */
    method RemovePreset(id: string)
      requires Valid()
      modifies this, storage
      ensures Valid() && State() == old(State())
      ensures presets == WithoutId(old(presets), id)
      ensures !HasId(old(presets), id) ==> presets == old(presets)
      ensures storage.entries == old(storage.entries)[PresetsKey := Presets(presets)]
    {
      if !HasId(presets, id) {
        WithoutUnknownId(presets, id);
      }
      presets := WithoutId(presets, id);
      storage.SetItem(PresetsKey, Presets(presets));
    }

    /** `updatePreset`: replace every preset carrying `preset.id` and persist the list.
        The active preset keeps its old copy. */
    method UpdatePreset(preset: Preset)
      requires Valid()
      modifies this, storage
      ensures Valid() && State() == old(State())
      ensures presets == Replaced(old(presets), preset)
      ensures storage.entries == old(storage.entries)[PresetsKey := Presets(presets)]
    {
      presets := Replaced(presets, preset);
      storage.SetItem(PresetsKey, Presets(presets));
    }

    /** `setActivePreset`: bind the preset (or none) and reset the countdown to its start.
        The program reads `segments[0]` of a given preset, so it must have one. */
    method SetActivePreset(preset: Option<Preset>)
      requires Valid()
      requires preset.Some? ==> |preset.value.segments| > 0
      modifies this
      ensures Valid() && State() == Activate(preset) && presets == old(presets)
      ensures preset.None? || NonNegativeDurations(preset.value) ==> Inv(State())
    {
      activePreset := preset;
      currentSegmentIndex := 0;
      timeRemaining := if preset.Some? then preset.value.segments[0].duration * 60 else 0;
      isRunning := false;
    }

    /** `startTimer`. */
    method StartTimer()
      requires Valid()
      modifies this
      ensures Valid() && State() == Start(old(State())) && presets == old(presets)
      ensures Inv(old(State())) ==> Inv(State())
    {
      isRunning := true;
    }

    /** `pauseTimer`. */
    method PauseTimer()
      requires Valid()
      modifies this
      ensures Valid() && State() == Pause(old(State())) && presets == old(presets)
      ensures Inv(old(State())) ==> Inv(State())
    {
      isRunning := false;
    }

    /** `resetTimer`: with an active preset, back to the start of its first segment and
        stopped, keeping the preset; without one, nothing happens. */
    method ResetTimer()
      requires Valid()
      modifies this
      ensures Valid() && State() == Reset(old(State())) && presets == old(presets)
      ensures Inv(old(State())) ==> Inv(State())
    {
      var preset := activePreset;
      if preset.Some? {
        isRunning := false;
        currentSegmentIndex := 0;
        timeRemaining := preset.value.segments[0].duration * 60;
      }
    }

    /** `tick`: one second of the countdown, case by case. */
    method Tick()
      requires Valid()
      modifies this
      ensures Valid() && State() == Step(old(State())) && presets == old(presets)
      ensures Inv(old(State())) ==> Inv(State())
      ensures activePreset == old(activePreset)
      // stopped, or no preset: nothing changes
      ensures !old(isRunning) || old(activePreset).None? ==> State() == old(State())
      // seconds remain: one fewer, nothing else changes
      ensures old(isRunning) && old(activePreset).Some? && old(timeRemaining) > 0 ==>
        State() == old(State()).(timeRemaining := old(timeRemaining) - 1)
      // segment expired, a next one exists: enter it with its full duration
      ensures old(isRunning) && old(activePreset).Some? && old(timeRemaining) <= 0 &&
              old(currentSegmentIndex) + 1 < |old(activePreset).value.segments| ==>
        isRunning && currentSegmentIndex == old(currentSegmentIndex) + 1 &&
        timeRemaining == old(activePreset).value.segments[currentSegmentIndex].duration * 60
      // last segment expired, looping: back to segment 0 with its full duration
      ensures old(isRunning) && old(activePreset).Some? && old(timeRemaining) <= 0 &&
              old(currentSegmentIndex) + 1 >= |old(activePreset).value.segments| &&
              old(activePreset).value.loop ==>
        isRunning && currentSegmentIndex == 0 &&
        timeRemaining == old(activePreset).value.segments[0].duration * 60
      // last segment expired, not looping: only isRunning changes, to false
      ensures old(isRunning) && old(activePreset).Some? && old(timeRemaining) <= 0 &&
              old(currentSegmentIndex) + 1 >= |old(activePreset).value.segments| &&
              !old(activePreset).value.loop ==>
        State() == old(State()).(isRunning := false)
    {
      var remaining, index, preset, running := timeRemaining, currentSegmentIndex, activePreset, isRunning;
      if !running || preset.None? {
        return;
      }
      if remaining > 0 {
        timeRemaining := remaining - 1;
      } else {
        var next := index + 1;
        if next < |preset.value.segments| {
          currentSegmentIndex := next;
          timeRemaining := preset.value.segments[next].duration * 60;
        } else if preset.value.loop {
          currentSegmentIndex := 0;
          timeRemaining := preset.value.segments[0].duration * 60;
        } else {
          isRunning := false;
        }
      }
    }
  }

  /** Running a whole non-looping preset through the store: activate, start, and tick
      `CycleTicks(p)` times; the timer ends stopped on the last segment at 0 seconds, and
      the preset list and storage are untouched by the countdown. */
  method RunPresetToEnd(store: Store, p: Preset)
    requires store.Valid()
    requires |p.segments| > 0 && NonNegativeDurations(p) && !p.loop
    modifies store
    ensures store.Valid() && store.presets == old(store.presets)
    ensures store.State() == TimerState(false, |p.segments| - 1, 0, Some(p))
  {
    store.SetActivePreset(Some(p));
    store.StartTimer();
    var n := 0;
    while n < CycleTicks(p)
      invariant 0 <= n <= CycleTicks(p)
      invariant store.Valid() && store.presets == old(store.presets)
      invariant store.State() == Run(Started(p), n)
    {
      RunAdd(Started(p), n, 1);
      store.Tick();
      n := n + 1;
    }
    RunToCompletion(p, 0);
  }
}
