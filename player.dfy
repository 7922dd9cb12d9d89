/**
 The flags of the floating music player (`themePlayer` in js/main.js).

 Volumes are integer percents 0..100, the value of the volume slider:
 `audio.volume` v is modelled as 100·v, so the source's 0.5 threshold is 50
 and its 0.7 fallback is 70. The asynchronous play path is not modelled;
 `paused` is the audio element's own flag, read by the mouse-leave guard.
 */
module Player {

  /** The volume button's glyph: 🔊, 🔉 and 🔇. */
  datatype VolumeIcon = Loud | Low | Silent

  /**
   The play button's glyph: ♫, ⏸, 🔇 and ❌. Only the play, autoplay and
   error paths, which are not modelled, set the last three; they are kept
   because `pause` starts from whatever glyph those paths left.
   */
  datatype PlayerIcon = Note | PauseSign | MutedSign | ErrorSign

  /** `lastVolume`: undefined until the first mute, then the volume saved by it. */
  datatype LastVolume = Unset | Saved(percent: int)

  /** The volume unmuting falls back to when nothing non-zero was saved. */
  const FallbackVolume: int := 70

  /** The player's state as its handlers see it. */
  datatype Player = Player(
    isExpanded: bool,
    expandedClass: bool,      // the "expanded" class on the player element
    isMuted: bool,
    audioMuted: bool,         // `audio.muted`
    volume: int,              // `audio.volume`, as a percent
    slider: int,              // `volumeSlider.value`
    lastVolume: LastVolume,
    volumeIcon: VolumeIcon,
    paused: bool,             // `audio.paused`
    playingClass: bool,       // the "playing" class on the toggle button
    mutedPlayingClass: bool,  // the "muted-playing" class on the player element
    playerIcon: PlayerIcon)

  /** `updateVolumeIcon`: three bands split at 50% and 0%. */
  function IconFor(volume: int): (icon: VolumeIcon)
    ensures icon == Loud <==> volume > 50
    ensures icon == Low <==> 0 < volume <= 50
    ensures icon == Silent <==> volume <= 0
  {
    if volume > 50 then Loud else if volume > 0 then Low else Silent
  }

  /** `this.lastVolume || 0.7`: an unset or zero saved volume counts as false. */
  function Restored(last: LastVolume): (v: int)
    ensures last.Saved? && last.percent != 0 ==> v == last.percent
    ensures last.Unset? || last.percent == 0 ==> v == FallbackVolume
  {
    match last
    case Saved(percent) => if percent != 0 then percent else FallbackVolume
    case Unset => FallbackVolume
  }

  /** `init` with `setInitialVolume`: collapsed, unmuted, volume taken from the slider. */
  function Start(slider: int): Player
  {
    Player(false, false, false, false, slider, slider, Unset, IconFor(slider), true, false, false, Note)
  }

  function ExpandResult(p: Player): Player
  {
    if p.isExpanded then p else p.(expandedClass := true, isExpanded := true)
  }

  function CollapseResult(p: Player): Player
  {
    if !p.isExpanded then p else p.(expandedClass := false, isExpanded := false)
  }

  /** Leaving the player collapses it, unless the audio is playing. */
  function MouseLeaveResult(p: Player): Player
  {
    if !p.paused then p else CollapseResult(p)
  }

  function ToggleMuteResult(p: Player): Player
  {
    var muted := !p.isMuted;
    var q := p.(isMuted := muted, audioMuted := muted);
    if muted then
      q.(volumeIcon := Silent, lastVolume := Saved(p.volume), slider := 0)
    else
      var v := Restored(p.lastVolume);
      q.(volumeIcon := IconFor(v), volume := v, slider := v)
  }

  /** The slider's "input" handler, after the user has moved it to `value`. */
  function SliderResult(p: Player, value: int): Player
  {
    var q := p.(slider := value, volume := value, volumeIcon := IconFor(value));
    if value > 0 then q.(isMuted := false, audioMuted := false) else q
  }

  /** `pause`: stops the audio and resets the play button. */
  function PauseResult(p: Player): Player
  {
    p.(paused := true, playingClass := false, playerIcon := Note, mutedPlayingClass := false)
  }

  /** The user events the modelled handlers answer. */
  datatype Event =
    | MouseEnter
    | MouseLeft
    | VolumeToggleClick
    | SliderMoved(value: int)
    | PauseClick

  function Step(p: Player, e: Event): Player
  {
    match e
    case MouseEnter => ExpandResult(p)
    case MouseLeft => MouseLeaveResult(p)
    case VolumeToggleClick => ToggleMuteResult(p)
    case SliderMoved(value) => SliderResult(p, value)
    case PauseClick => PauseResult(p)
  }

  function Run(p: Player, events: seq<Event>): Player
    decreases |events|
  {
    if events == [] then p else Run(Step(p, events[0]), events[1..])
  }

  /** A slider position a range input from 0 to 100 can report. */
  predicate SliderValue(value: int)
  {
    0 <= value <= 100
  }

  predicate SliderEvents(events: seq<Event>)
  {
    forall i :: 0 <= i < |events| ==> (events[i].SliderMoved? ==> SliderValue(events[i].value))
  }

  /**
   What every modelled handler keeps: the expanded flag matches the class,
   the mute flag matches `audio.muted`, a muted player's slider reads 0, an
   unmuted one's slider reads the volume, and the icon follows the slider.
   */
  predicate Consistent(p: Player)
  {
    && p.isExpanded == p.expandedClass
    && p.isMuted == p.audioMuted
    && SliderValue(p.volume)
    && SliderValue(p.slider)
    && (p.isMuted ==> p.slider == 0)
    && (!p.isMuted ==> p.volume == p.slider)
    && p.volumeIcon == IconFor(p.slider)
    && (p.lastVolume.Saved? ==> SliderValue(p.lastVolume.percent))
  }

  lemma StartConsistent(slider: int)
    requires SliderValue(slider)
    ensures Consistent(Start(slider))
    ensures !Start(slider).isExpanded && !Start(slider).isMuted
    ensures Start(slider).volume == slider
  {
  }

  lemma StepKeepsConsistent(p: Player, e: Event)
    requires Consistent(p)
    requires e.SliderMoved? ==> SliderValue(e.value)
    ensures Consistent(Step(p, e))
  {
  }

  /** Any sequence of these events keeps the player consistent. */
  lemma {:induction false} RunKeepsConsistent(p: Player, events: seq<Event>)
    requires Consistent(p) && SliderEvents(events)
    ensures Consistent(Run(p, events))
    decreases |events|
  {
    if events != [] {
      StepKeepsConsistent(p, events[0]);
      assert SliderEvents(events[1..]) by {
        forall i | 0 <= i < |events| - 1
          ensures events[1..][i].SliderMoved? ==> SliderValue(events[1..][i].value)
        {
          assert events[1..][i] == events[i + 1];
        }
      }
      RunKeepsConsistent(Step(p, events[0]), events[1..]);
    }
  }

  /** Expanding and collapsing are idempotent and set the flag and the class together. */
  lemma ExpandCollapseIdempotent(p: Player)
    requires p.isExpanded == p.expandedClass
    ensures ExpandResult(ExpandResult(p)) == ExpandResult(p) && CollapseResult(CollapseResult(p)) == CollapseResult(p)
    ensures ExpandResult(p).isExpanded && ExpandResult(p).expandedClass
    ensures !CollapseResult(p).isExpanded && !CollapseResult(p).expandedClass
  {
  }

  /** Mouse-leave collapses only a paused player; a playing one is left untouched. */
  lemma MouseLeaveGuard(p: Player)
    ensures !p.paused ==> MouseLeaveResult(p) == p
    ensures p.paused ==> !MouseLeaveResult(p).isExpanded
  {
  }

  /** Muting keeps the audio volume, saves it and zeroes the slider; unmuting restores the saved one. */
  lemma ToggleMuteEffect(p: Player)
    ensures ToggleMuteResult(p).isMuted == !p.isMuted == ToggleMuteResult(p).audioMuted
    ensures !p.isMuted ==>
      && ToggleMuteResult(p).volume == p.volume
      && ToggleMuteResult(p).lastVolume == Saved(p.volume)
      && ToggleMuteResult(p).slider == 0
      && ToggleMuteResult(p).volumeIcon == Silent
    ensures p.isMuted ==>
      && ToggleMuteResult(p).volume == ToggleMuteResult(p).slider == Restored(p.lastVolume)
      && ToggleMuteResult(p).volumeIcon == IconFor(Restored(p.lastVolume))
  {
  }

  /** Mute then unmute gives back the same player when the volume was not zero. */
  lemma MuteRoundTrip(p: Player)
    requires Consistent(p) && !p.isMuted && p.volume > 0
    ensures ToggleMuteResult(ToggleMuteResult(p)) == p.(lastVolume := Saved(p.volume))
  {
  }

  /** Mute then unmute from a silent slider lands on the 70% fallback, not on 0. */
  lemma MuteRoundTripFromSilence(p: Player)
    requires Consistent(p) && !p.isMuted && p.volume == 0
    ensures ToggleMuteResult(ToggleMuteResult(p)).volume == FallbackVolume
    ensures ToggleMuteResult(ToggleMuteResult(p)).slider == FallbackVolume
    ensures ToggleMuteResult(ToggleMuteResult(p)).volumeIcon == Loud
    ensures !ToggleMuteResult(ToggleMuteResult(p)).isMuted
  {
  }

  /** Moving the slider sets the volume and icon; only a non-zero value clears the mute. */
  lemma SliderEffect(p: Player, value: int)
    ensures SliderResult(p, value).volume == SliderResult(p, value).slider == value
    ensures SliderResult(p, value).volumeIcon == IconFor(value)
    ensures value > 0 ==> !SliderResult(p, value).isMuted && !SliderResult(p, value).audioMuted
    ensures value <= 0 ==>
      && SliderResult(p, value).isMuted == p.isMuted
      && SliderResult(p, value).audioMuted == p.audioMuted
  {
  }

  /** The player controller, with the fields its handlers update in place. */
  class ThemePlayer {
    var isExpanded: bool
    var expandedClass: bool
    var isMuted: bool
    var audioMuted: bool
    var volume: int
    var slider: int
    var lastVolume: LastVolume
    var volumeIcon: VolumeIcon
    var paused: bool
    var playingClass: bool
    var mutedPlayingClass: bool
    var playerIcon: PlayerIcon

    function State(): Player
      reads this
    {
      Player(isExpanded, expandedClass, isMuted, audioMuted, volume, slider,
             lastVolume, volumeIcon, paused, playingClass, mutedPlayingClass, playerIcon)
    }

    /** `init` with all elements present, then `setInitialVolume`. */
    constructor Init(sliderValue: int)
      requires SliderValue(sliderValue)
      ensures State() == Start(sliderValue) && Consistent(State())
    {
      isExpanded := false;
      expandedClass := false;
      isMuted := false;
      audioMuted := false;
      paused := true;
      playingClass := false;
      mutedPlayingClass := false;
      playerIcon := Note;
      lastVolume := Unset;
      slider := sliderValue;
      volume := sliderValue;
      volumeIcon := IconFor(sliderValue);
    }

    method Expand()
      modifies this
      ensures State() == ExpandResult(old(State()))
    {
      if isExpanded {
        return;
      }
      expandedClass := true;
      isExpanded := true;
    }

    method Collapse()
      modifies this
      ensures State() == CollapseResult(old(State()))
    {
      if !isExpanded {
        return;
      }
      expandedClass := false;
      isExpanded := false;
    }

    /** The player's "mouseleave" handler. */
    method OnMouseLeave()
      modifies this
      ensures State() == MouseLeaveResult(old(State()))
    {
      if !paused {
        return;
      }
      Collapse();
    }

    method UpdateVolumeIcon(percent: int)
      modifies this
      ensures State() == old(State()).(volumeIcon := IconFor(percent))
    {
      if percent > 50 {
        volumeIcon := Loud;
      } else if percent > 0 {
        volumeIcon := Low;
      } else {
        volumeIcon := Silent;
      }
    }

    method ToggleMute()
      modifies this
      ensures State() == ToggleMuteResult(old(State()))
    {
      isMuted := !isMuted;
      audioMuted := isMuted;
      if isMuted {
        volumeIcon := Silent;
        lastVolume := Saved(volume);
        slider := 0;
      } else {
        UpdateVolumeIcon(Restored(lastVolume));
        volume := Restored(lastVolume);
        slider := Restored(lastVolume);
      }
    }

    /** The slider's "input" handler; `value` is where the user left the slider. */
    method OnVolumeInput(value: int)
      modifies this
      ensures State() == SliderResult(old(State()), value)
    {
      slider := value;
      volume := value;
      UpdateVolumeIcon(value);
      if value > 0 {
        isMuted := false;
        audioMuted := false;
      }
    }

    method Pause()
      modifies this
      ensures State() == PauseResult(old(State()))
    {
      paused := true;
      playingClass := false;
      playerIcon := Note;
      mutedPlayingClass := false;
    }
  }
}
