/** Data model of the interval timer: segments, presets and the countdown state. */
module TimerTypes {
  import opened Options

  /** One timed phase of a preset. `duration` is in whole minutes: a JavaScript number
      that is an integer literal for new segments and comes from `parseInt` when edited,
      so an integer, possibly negative. */
  datatype Segment = Segment(id: string, name: string, duration: int, color: string)

  /** A named plan: the segments in playback order and whether to restart after the last. */
  datatype Preset = Preset(id: string, name: string, segments: seq<Segment>, loop: bool)

  /** A preset without its id, as handed to `addPreset` (`Omit<TimerPreset, 'id'>`). */
  datatype PresetDraft = PresetDraft(name: string, segments: seq<Segment>, loop: bool)

  /** The four countdown fields of the timer store. */
  datatype TimerState = TimerState(
    isRunning: bool,
    currentSegmentIndex: int,
    timeRemaining: int,
    activePreset: Option<Preset>)

  /** The status names the program declares; none of the modelled code produces them. */
  datatype TimerStatus = Idle | Running | Paused | Completed

  /** The preset `addPreset` builds: the draft's fields plus the given id. */
  function WithId(draft: PresetDraft, id: string): (p: Preset)
    ensures p.id == id
    ensures PresetDraft(p.name, p.segments, p.loop) == draft
  {
    Preset(id, draft.name, draft.segments, draft.loop)
  }
}
