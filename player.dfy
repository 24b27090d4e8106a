/**
 * The state of the old web player (client/pages/index.tsx): `appReducer`, which moves between
 * loading, playing and paused, and the guard a station button applies before asking to start.
 */
module Player {
  import opened Wrappers

  datatype Station = Station(name: string, url: string)

  /** `AppState`; `station` is None where the source leaves it `undefined`. */
  datatype AppState = AppState(isPlaying: bool, isLoading: bool, station: Option<Station>)

  /** `action.type`: the three declared tags, and any other string, which the `default` branch handles. */
  datatype ActionType = Start | Paused | Playing | Other(tag: string)

  datatype Action = Action(kind: ActionType, payload: Option<Station>)

  /** The state the `default` branch returns, which is also the reducer's initial state. */
  const Idle := AppState(false, false, None)

  /**
   * `appReducer(state, action)`: the three declared actions set both flags and take the station
   * from the payload; any other action resets everything.
   */
  function AppReducer(state: AppState, action: Action): (next: AppState)
    ensures !(next.isPlaying && next.isLoading)
    ensures next.isPlaying <==> action.kind == Playing
    ensures next.isLoading <==> action.kind == Start
    ensures next.station == if action.kind.Other? then None else action.payload
  {
    match action.kind
    case Playing => state.(isPlaying := true, isLoading := false, station := action.payload)
    case Paused => state.(isPlaying := false, isLoading := false, station := action.payload)
    case Start => state.(isPlaying := false, isLoading := true, station := action.payload)
    case Other(_) => Idle
  }

  /** Every field is overwritten, so the next state depends on the action alone. */
  lemma ReducerForgetsState(s: AppState, t: AppState, action: Action)
    ensures AppReducer(s, action) == AppReducer(t, action)
  {
  }

  /** `name === state.station?.name`: whether the button's station is the current one. */
  predicate IsActive(name: string, state: AppState) {
    state.station.Some? && state.station.value.name == name
  }

  /** `playStation()`: the action the button dispatches, if any; only an inactive station asks to start. */
  function PlayStation(name: string, url: string, state: AppState): (a: Option<Action>)
    ensures a.Some? <==> !IsActive(name, state)
    ensures a.Some? ==> a.value == Action(Start, Some(Station(name, url)))
  {
    if !IsActive(name, state) then Some(Action(Start, Some(Station(name, url)))) else None
  }

  /** After a click has been dispatched, a second click on the same button dispatches nothing. */
  lemma SecondClickDoesNothing(name: string, url: string, state: AppState)
    requires PlayStation(name, url, state).Some?
    ensures PlayStation(name, url, AppReducer(state, PlayStation(name, url, state).value)).None?
  {
  }

  /** A click leaves the player loading the clicked station, whatever it was doing before. */
  lemma ClickStartsLoading(name: string, url: string, state: AppState)
    requires !IsActive(name, state)
    ensures AppReducer(state, PlayStation(name, url, state).value) == AppState(false, true, Some(Station(name, url)))
  {
  }
}
