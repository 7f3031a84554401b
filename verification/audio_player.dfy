/**
 * The recording player of the call table, reduced to whether it plays and
 * which recording it holds.  The audio element itself is left out.
 */
module AudioPlayer {
  import opened Wrappers

  datatype AudioState = AudioState(isPlaying: bool, currentUrl: Option<string>)

  /** Nothing loaded, nothing playing. */
  const InitialAudio: AudioState := AudioState(false, None)

  /**
   * `handlePlayPause(url)`: an empty url is ignored; the loaded recording
   * toggles between playing and paused; any other recording replaces it and
   * starts playing.
   */
  function PlayPause(s: AudioState, url: string): (r: AudioState)
    ensures url == "" ==> r == s
    ensures url != "" && s.currentUrl == Some(url) ==>
              r.currentUrl == s.currentUrl && r.isPlaying == !s.isPlaying
    ensures url != "" && s.currentUrl != Some(url) ==> r == AudioState(true, Some(url))
  {
    if url == "" then s
    else if s.currentUrl == Some(url) then s.(isPlaying := !s.isPlaying)
    else AudioState(true, Some(url))
  }

  /** The `ended` listener: playback stops, the recording stays loaded. */
  function Ended(s: AudioState): (r: AudioState)
    ensures !r.isPlaying
    ensures r.currentUrl == s.currentUrl
  {
    s.(isPlaying := false)
  }

  /** A row's button shows "pause" when its recording is the one playing. */
  predicate ShowsPause(s: AudioState, url: string) {
    s.currentUrl == Some(url) && s.isPlaying
  }

  /** The player never holds an empty url. */
  predicate Valid(s: AudioState) {
    s.currentUrl != Some("")
  }

  lemma InitialValid()
    ensures Valid(InitialAudio)
    ensures forall url :: !ShowsPause(InitialAudio, url)
  {
  }

  lemma PlayPauseKeepsValid(s: AudioState, url: string)
    requires Valid(s)
    ensures Valid(PlayPause(s, url))
    ensures Valid(Ended(s))
  {
  }

  /**
   * Pressing a row's button flips that row between play and pause, and
   * leaves every other row showing play.
   */
  lemma ButtonToggles(s: AudioState, url: string)
    requires url != ""
    ensures ShowsPause(PlayPause(s, url), url) <==> !ShowsPause(s, url)
    ensures forall other :: other != url ==> !ShowsPause(PlayPause(s, url), other)
  {
  }

  /**
   * Pressing the same button twice restores the state when that recording
   * was loaded, and otherwise leaves it loaded and paused.
   */
  lemma PressTwice(s: AudioState, url: string)
    requires url != ""
    ensures PlayPause(PlayPause(s, url), url)
            == if s.currentUrl == Some(url) then s else AudioState(false, Some(url))
  {
  }

  /** After the recording ends no row shows pause, and its button plays it again. */
  lemma EndedThenPress(s: AudioState)
    requires s.currentUrl.Some? && s.currentUrl.value != ""
    ensures forall url :: !ShowsPause(Ended(s), url)
    ensures ShowsPause(PlayPause(Ended(s), s.currentUrl.value), s.currentUrl.value)
  {
  }
}
