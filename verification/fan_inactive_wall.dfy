/** The fan wall's waiting screen (app/wall/components/wall/layouts/InactiveWall.tsx):
    the state it loads from the wall row, the realtime broadcasts it accepts, the 100 ms
    debounce in front of its state updates and the title it shows. The debounce timer
    is an explicit `Fire` event. */
module FanInactiveWall {
  import opened JsCore
  import Countdown

  const DefaultBackground: string := "linear-gradient(to bottom right,#1b2735,#090a0f)"
  const DefaultTitle: string := "Fan Zone Wall"

  /** `wallState`: what the countdown and the heading read. */
  datatype WallState = WallState(countdown: string, countdownActive: bool, title: string)

  /** The object handed to `scheduleUpdate`: the fields it sets. */
  datatype Patch = Patch(countdown: Option<string>, countdownActive: Option<bool>, title: Option<string>)

  const Nothing: Patch := Patch(None, None, None)

  /** `{ ...prev, ...data }`. */
  function Apply(st: WallState, d: Patch): (r: WallState)
    ensures d == Nothing ==> r == st
    ensures r.countdown == d.countdown.GetOr(st.countdown) && r.title == d.title.GetOr(st.title)
    ensures r.countdownActive == d.countdownActive.GetOr(st.countdownActive)
  {
    WallState(d.countdown.GetOr(st.countdown), d.countdownActive.GetOr(st.countdownActive), d.title.GetOr(st.title))
  }

  /** One patch holding both: the later one's fields win. */
  function Merge(a: Patch, b: Patch): (r: Patch)
    ensures forall st :: Apply(st, r) == Apply(Apply(st, a), b)
    ensures a == Nothing ==> r == b
  {
    Patch(if b.countdown.Some? then b.countdown else a.countdown,
          if b.countdownActive.Some? then b.countdownActive else a.countdownActive,
          if b.title.Some? then b.title else a.title)
  }

  /** The screen: its state, the patch waiting for the debounce timer (if one is set), the
      CSS background and the brightness (`None` is a `null` column). */
  datatype Screen = Screen(state: WallState, pending: Option<Patch>, background: string, brightness: Option<int>)

  /** The `fan_walls` columns the screen reads. */
  datatype WallRow = WallRow(
    countdown: Option<string>,
    countdownActive: Option<bool>,
    title: Option<string>,
    backgroundType: Option<string>,
    backgroundValue: Option<string>,
    backgroundBrightness: Option<int>)

  function ImageCss(url: string): string {
    "url(" + url + ") center/cover no-repeat"
  }

  /** The effect run when the wall arrives. A row always has the brightness column, so
      its value (even `null`) replaces the initial `|| 100`. A missing image URL prints as
      `null`. */
  function Load(w: WallRow): (s: Screen)
    ensures s.state.countdown == StrOrDefault(w.countdown, "")
    ensures s.state.countdownActive == BoolOf(w.countdownActive)
    ensures s.state.title == StrOrDefault(w.title, "")
    ensures w.backgroundType == Some("image") ==> s.background == ImageCss(w.backgroundValue.GetOr("null"))
    ensures w.backgroundType != Some("image") ==> s.background == StrOrDefault(w.backgroundValue, DefaultBackground)
    ensures s.pending.None? && s.brightness == w.backgroundBrightness
  {
    var bg := if w.backgroundType == Some("image") then ImageCss(w.backgroundValue.GetOr("null"))
              else StrOrDefault(w.backgroundValue, DefaultBackground);
    Screen(WallState(StrOrDefault(w.countdown, ""), BoolOf(w.countdownActive), StrOrDefault(w.title, "")),
           None, bg, w.backgroundBrightness)
  }

  /** A broadcast payload, as far as the screen reads it (`None` is an absent field). */
  datatype Payload = Payload(
    id: Option<string>,
    title: Option<string>,
    countdown: Option<string>,
    countdownActive: Option<bool>,
    backgroundType: Option<string>,
    backgroundValue: Option<string>,
    backgroundBrightness: Option<int>)

  /** Broadcasts are for this wall only when the payload carries its id. */
  predicate ForWall(wallId: string, p: Payload) {
    StrTruthy(p.id) && p.id.value == wallId
  }

  /** `scheduleUpdate` as written: the pending timer is cleared and a new one set for the
      new data alone, so a patch still waiting is dropped. */
  function QueueAsWritten(pending: Option<Patch>, data: Patch): (r: Option<Patch>)
    ensures r == Some(data)
  {
    Some(data)
  }

  /** `scheduleUpdate` keeping what is still waiting: the new data is merged over it. */
  function Queue(pending: Option<Patch>, data: Patch): (r: Option<Patch>)
    ensures r.Some?
    ensures forall st :: Apply(st, r.value) == Apply(Apply(st, pending.GetOr(Nothing)), data)
  {
    Some(Merge(pending.GetOr(Nothing), data))
  }

  function Put(pending: Option<Patch>, data: Patch, merging: bool): Option<Patch> {
    if merging then Queue(pending, data) else QueueAsWritten(pending, data)
  }

  /** The broadcast listener. `wall_updated` sets the background and brightness at once
      and schedules the title and the countdown when they are non-empty;
      `wall_status_changed` schedules the active flag when the payload has one;
      `countdown_finished` schedules it off. `merging` chooses between the two
      `scheduleUpdate`s. */
  function Handle(s: Screen, wallId: string, event: string, p: Payload, merging: bool): (r: Screen)
    ensures !ForWall(wallId, p) ==> r == s
    ensures r.state == s.state
  {
    if !ForWall(wallId, p) then s
    else if event == "wall_updated" then
      var bg := if !StrTruthy(p.backgroundValue) then s.background
                else if p.backgroundType == Some("image") then ImageCss(p.backgroundValue.value)
                else p.backgroundValue.value;
      var bright := if p.backgroundBrightness.Some? then p.backgroundBrightness else s.brightness;
      var q1 := if StrTruthy(p.title) then Put(s.pending, Patch(None, None, p.title), merging) else s.pending;
      var q2 := if StrTruthy(p.countdown) then Put(q1, Patch(p.countdown, None, None), merging) else q1;
      Screen(s.state, q2, bg, bright)
    else if event == "wall_status_changed" then
      if p.countdownActive.Some? then s.(pending := Put(s.pending, Patch(None, p.countdownActive, None), merging))
      else s
    else if event == "countdown_finished" then
      s.(pending := Put(s.pending, Patch(None, Some(false), None), merging))
    else s
  }

  /** The listener as written. */
  function ReceiveAsWritten(s: Screen, wallId: string, event: string, p: Payload): (r: Screen)
    ensures !ForWall(wallId, p) ==> r == s
    ensures r.state == s.state
  {
    Handle(s, wallId, event, p, false)
  }

  /** The listener with a merging debounce. */
  function Receive(s: Screen, wallId: string, event: string, p: Payload): (r: Screen)
    ensures !ForWall(wallId, p) ==> r == s
    ensures r.state == s.state
    ensures event == "wall_status_changed" && p.countdownActive.None? ==> r == s
    ensures ForWall(wallId, p) && event == "countdown_finished"
      ==> r.pending.Some? && r.pending.value.countdownActive == Some(false)
    ensures ForWall(wallId, p) && event == "wall_status_changed" && p.countdownActive.Some?
      ==> r.pending.Some? && r.pending.value.countdownActive == p.countdownActive
  {
    Handle(s, wallId, event, p, true)
  }

  /** The debounce timer fires: the waiting patch is applied. */
  function Fire(s: Screen): (r: Screen)
    ensures r.pending.None?
    ensures s.pending.None? ==> r == s
    ensures s.pending.Some? ==> r == s.(state := Apply(s.state, s.pending.value), pending := None)
  {
    match s.pending
    case None => s
    case Some(d) => s.(state := Apply(s.state, d), pending := None)
  }

  /** The heading: the title, or `Fan Zone Wall` when it is empty. */
  function Heading(st: WallState): (r: string)
    ensures r != ""
    ensures st.title != "" ==> r == st.title
  {
    if st.title != "" then st.title else DefaultTitle
  }

  /** A settings broadcast with both a title and a countdown shows both once the timer
      fires. */
  lemma UpdateShowsBoth(s: Screen, wallId: string, p: Payload)
    requires ForWall(wallId, p) && StrTruthy(p.title) && StrTruthy(p.countdown)
    ensures Fire(Receive(s, wallId, "wall_updated", p)).state.title == p.title.value
    ensures Fire(Receive(s, wallId, "wall_updated", p)).state.countdown == p.countdown.value
  {
    var t := Patch(None, None, p.title);
    var q1 := Queue(s.pending, t);
    var q2 := Queue(q1, Patch(p.countdown, None, None));
    assert Receive(s, wallId, "wall_updated", p).pending == q2;
    assert Apply(s.state, q1.value).title == p.title.value;
  }

  /** As written, the countdown's `scheduleUpdate` cancels the title's: the countdown
      arrives but the old title stays. */
  lemma UpdateLosesTitleAsWritten(s: Screen, wallId: string, p: Payload)
    requires ForWall(wallId, p) && StrTruthy(p.title) && StrTruthy(p.countdown)
    ensures Fire(ReceiveAsWritten(s, wallId, "wall_updated", p)).state.title == s.state.title
    ensures Fire(ReceiveAsWritten(s, wallId, "wall_updated", p)).state.countdown == p.countdown.value
    ensures s.state.title != p.title.value ==>
      Fire(ReceiveAsWritten(s, wallId, "wall_updated", p)) != Fire(Receive(s, wallId, "wall_updated", p))
  {
    assert ReceiveAsWritten(s, wallId, "wall_updated", p).pending == Some(Patch(p.countdown, None, None));
    UpdateShowsBoth(s, wallId, p);
  }

  /** `countdown_finished` for this wall stops the countdown once the timer fires, and the
      clock, restarted by the changed flag, stays put from then on. */
  lemma FinishedStopsClock(s: Screen, wallId: string, p: Payload, c: Countdown.Clock, k: nat)
    requires ForWall(wallId, p) && s.pending.None? && s.state.countdown != ""
    ensures !Fire(Receive(s, wallId, "countdown_finished", p)).state.countdownActive
    ensures var st := Fire(Receive(s, wallId, "countdown_finished", p)).state;
      var c' := Countdown.Reset(c, st.countdown, st.countdownActive);
      Countdown.Ticks(c', k) == c'
  {
    var st := Fire(Receive(s, wallId, "countdown_finished", p)).state;
    assert st.countdown == s.state.countdown;
    Countdown.TicksInactive(Countdown.Reset(c, st.countdown, st.countdownActive), k);
  }
}
