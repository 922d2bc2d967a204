/** The prize wheel's waiting screen (app/prizewheel/components/wall/InactiveWall.tsx):
    its countdown, which on reaching zero stops itself and sets the wheel live, the
    broadcasts it accepts and the title it shows. Seconds, debounce timer and props
    changes are explicit events. */
module WheelInactiveWall {
  import opened JsCore
  import opened Countdown

  const DefaultTitle: string := "Prize Wheel"

  /** The update written to `prize_wheels` when the countdown reaches zero. */
  datatype WheelUpdate = WheelUpdate(countdownActive: bool, countdown: string, status: string)

  const GoLive: WheelUpdate := WheelUpdate(false, "none", "live")

  /** A clock after an event, with the update it wrote, if any. */
  datatype Stepped = Stepped(clock: Clock, update: Option<WheelUpdate>)

  /** A settled clock is never active at zero: the zero effect has already run. */
  predicate Settled(c: Clock) {
    !(c.timeLeft == Int(0) && c.active)
  }

  /** The zero effect: an active clock at 0 turns itself off and writes `GoLive` once. */
  function Settle(c: Clock): (r: Stepped)
    ensures Settled(r.clock)
    ensures r.update.Some? <==> c.timeLeft == Int(0) && c.active
    ensures r.update.Some? ==> r.update.value == GoLive && r.clock == c.(active := false)
    ensures r.update.None? ==> r.clock == c
  {
    if c.timeLeft == Int(0) && c.active then Stepped(c.(active := false), Some(GoLive)) else Stepped(c, None)
  }

  datatype Event = Props(countdown: string, countdownActive: bool) | Second

  /** One event: a props change reruns the label effect, a second ticks the interval;
      either way the zero effect follows. */
  function Step(c: Clock, e: Event): (r: Stepped)
    ensures Settled(r.clock)
    ensures Settled(c) && e == Second && !Running(c) ==> r == Stepped(c, None)
  {
    match e
    case Props(countdown, countdownActive) => Settle(Reset(c, countdown, countdownActive))
    case Second => Settle(Tick(c))
  }

  /** `k` seconds with no other event: the clock and how many updates it wrote. */
  function RunSeconds(c: Clock, k: nat): (r: (Clock, nat))
    decreases k
  {
    if k == 0 then (c, 0)
    else
      var s := Step(c, Second);
      var rest := RunSeconds(s.clock, k - 1);
      (rest.0, rest.1 + if s.update.Some? then 1 else 0)
  }

  /** Counting down from `t > 0` seconds writes exactly one `GoLive`, at second `t`,
      and the clock is off from then on. */
  lemma {:induction false} CountdownGoesLiveOnce(t: nat, k: nat)
    requires t > 0
    ensures RunSeconds(Clock(Int(t), true), k).1 == if k >= t then 1 else 0
    ensures RunSeconds(Clock(Int(t), true), k).0 == Clock(Int(if k <= t then t - k else 0), k < t)
    decreases k
  {
    if k > 0 {
      var c := Clock(Int(t), true);
      if t == 1 {
        assert Step(c, Second) == Stepped(Clock(Int(0), false), Some(GoLive));
        StoppedStays(Clock(Int(0), false), k - 1);
      } else {
        assert Step(c, Second) == Stepped(Clock(Int(t - 1), true), None);
        CountdownGoesLiveOnce(t - 1, k - 1);
      }
    }
  }

  /** A stopped clock writes nothing and does not move. */
  lemma {:induction false} StoppedStays(c: Clock, k: nat)
    requires !c.active
    ensures RunSeconds(c, k) == (c, 0)
    decreases k
  {
    if k > 0 {
      assert Step(c, Second) == Stepped(c, None);
      StoppedStays(c, k - 1);
    }
  }

  /** The heading: `title || host_title || 'Prize Wheel'`. */
  function Heading(title: Option<string>, hostTitle: Option<string>): (r: string)
    ensures r != ""
    ensures StrTruthy(title) ==> r == title.value
    ensures !StrTruthy(title) && StrTruthy(hostTitle) ==> r == hostTitle.value
    ensures !StrTruthy(title) && !StrTruthy(hostTitle) ==> r == DefaultTitle
  {
    StrOrDefault(StrOr(title, hostTitle), DefaultTitle)
  }

  /** `wallState` of this screen. */
  datatype WallState = WallState(countdown: string, countdownActive: bool)

  datatype Patch = Patch(countdown: Option<string>, countdownActive: Option<bool>)

  /** The screen: its state, the patch waiting for the 100 ms timer, the CSS background and
      the brightness. */
  datatype Screen = Screen(state: WallState, pending: Option<Patch>, background: string, brightness: Option<int>)

  /** The `prize_wheels` columns the screen reads (`None` is a `null` column). */
  datatype WheelRow = WheelRow(
    countdown: Option<string>,
    countdownActive: Option<bool>,
    backgroundType: Option<string>,
    backgroundValue: Option<string>,
    backgroundBrightness: Option<int>)

  const DefaultBackground: string := "linear-gradient(to bottom right,#1b2735,#090a0f)"

  /** The effect run when the wheel arrives. The brightness column is always present, so
      its value (even `null`) replaces the initial `|| 100`; a missing image URL prints as
      `null`. */
  function Load(w: WheelRow): (s: Screen)
    ensures s.state.countdown == StrOrDefault(w.countdown, "")
    ensures s.state.countdownActive == BoolOf(w.countdownActive)
    ensures w.backgroundType == Some("image") ==> s.background == "url(" + w.backgroundValue.GetOr("null") + ") center/cover no-repeat"
    ensures w.backgroundType != Some("image") ==> s.background == StrOrDefault(w.backgroundValue, DefaultBackground)
    ensures s.pending.None? && s.brightness == w.backgroundBrightness
  {
    var bg := if w.backgroundType == Some("image") then "url(" + w.backgroundValue.GetOr("null") + ") center/cover no-repeat"
              else StrOrDefault(w.backgroundValue, DefaultBackground);
    Screen(WallState(StrOrDefault(w.countdown, ""), BoolOf(w.countdownActive)), None, bg, w.backgroundBrightness)
  }

  /** A broadcast payload, as far as the screen reads it (`None` is an absent field). */
  datatype Payload = Payload(
    id: Option<string>,
    countdown: Option<string>,
    countdownActive: Option<bool>,
    backgroundType: Option<string>,
    backgroundValue: Option<string>,
    backgroundBrightness: Option<int>)

  predicate ForWheel(wheelId: string, p: Payload) {
    StrTruthy(p.id) && p.id.value == wheelId
  }

  /** The broadcast listener. Each event schedules at most one patch, which replaces any
      patch still waiting. */
  function Receive(s: Screen, wheelId: string, event: string, p: Payload): (r: Screen)
    ensures !ForWheel(wheelId, p) ==> r == s
    ensures r.state == s.state
    ensures ForWheel(wheelId, p) && event == "prizewheel_countdown_finished"
      ==> r.pending == Some(Patch(None, Some(false)))
    ensures ForWheel(wheelId, p) && event == "prizewheel_status"
      ==> r.pending == if p.countdownActive.Some? then Some(Patch(None, p.countdownActive)) else s.pending
    ensures ForWheel(wheelId, p) && event == "prizewheel_update"
      ==> r.pending == if StrTruthy(p.countdown) then Some(Patch(p.countdown, None)) else s.pending
    ensures event != "prizewheel_update" ==> r.background == s.background && r.brightness == s.brightness
  {
    if !ForWheel(wheelId, p) then s
    else if event == "prizewheel_update" then
      var bg := if !StrTruthy(p.backgroundValue) then s.background
                else if p.backgroundType == Some("image") then "url(" + p.backgroundValue.value + ") center/cover no-repeat"
                else p.backgroundValue.value;
      var bright := if p.backgroundBrightness.Some? then p.backgroundBrightness else s.brightness;
      Screen(s.state, if StrTruthy(p.countdown) then Some(Patch(p.countdown, None)) else s.pending, bg, bright)
    else if event == "prizewheel_status" then
      if p.countdownActive.Some? then s.(pending := Some(Patch(None, p.countdownActive))) else s
    else if event == "prizewheel_countdown_finished" then
      s.(pending := Some(Patch(None, Some(false))))
    else s
  }

  /** The debounce timer fires: `{ ...prev, ...data }`. */
  function Fire(s: Screen): (r: Screen)
    ensures r.pending.None?
    ensures s.pending.None? ==> r == s
    ensures s.pending.Some? ==> r.state.countdown == s.pending.value.countdown.GetOr(s.state.countdown)
    ensures s.pending.Some? ==> r.state.countdownActive == s.pending.value.countdownActive.GetOr(s.state.countdownActive)
  {
    match s.pending
    case None => s
    case Some(d) =>
      s.(state := WallState(d.countdown.GetOr(s.state.countdown), d.countdownActive.GetOr(s.state.countdownActive)),
         pending := None)
  }

  /** `prizewheel_countdown_finished` for this wheel turns the countdown off once the timer
      fires, and a settled clock fed the new props stops and writes nothing. */
  lemma FinishedStopsClock(s: Screen, wheelId: string, p: Payload, c: Clock, k: nat)
    requires ForWheel(wheelId, p)
    requires Settled(c) && (s.state.countdown != "" || !c.active)
    ensures !Fire(Receive(s, wheelId, "prizewheel_countdown_finished", p)).state.countdownActive
    ensures var st := Fire(Receive(s, wheelId, "prizewheel_countdown_finished", p)).state;
      var r := Step(c, Props(st.countdown, st.countdownActive));
      r.update.None? && !r.clock.active && RunSeconds(r.clock, k) == (r.clock, 0)
  {
    var st := Fire(Receive(s, wheelId, "prizewheel_countdown_finished", p)).state;
    assert st.countdown == s.state.countdown;
    var r := Step(c, Props(st.countdown, st.countdownActive));
    StoppedStays(r.clock, k);
  }
}
