/** The ad injector hook of the wall displays (hooks/useAdInjector.ts): one pool of
    corporate and local ads, three timing modes, and the show/hide state the wall renders.
    Timers are events here: `IntervalFired` for the repeating mode timer and
    `HideTimerFired` for a one-shot hide. React re-runs the two mode effects whenever
    mode, enabled flag, pool length or interval change; `CommitAsWritten` models that
    for the effects as they are written, `Commit` for the effects with the corrected
    slideshow guard. */
module AdInjector {
  import opened JsCore
  import opened SlideAds
  import StableSort

  /* ------------------------------------------------------------------ pool merge */

  /** Corporate ads rank first, then `order_index ?? 9999`. */
  function InjectorRank(a: SlideAd): StableSort.Rank {
    (if HasMaster(a) then 0 else 1, OrderKey(a))
  }

  /** The comparator handed to `sort` when the two lists are merged. */
  function CompareAds(a: SlideAd, b: SlideAd): int {
    if HasMaster(a) && !HasMaster(b) then -1
    else if !HasMaster(a) && HasMaster(b) then 1
    else OrderKey(a) - OrderKey(b)
  }

  /** The comparator orders ads exactly as their ranks do, so sorting with it is
      sorting by rank. */
  lemma CompareAgreesWithRank(a: SlideAd, b: SlideAd)
    ensures CompareAds(a, b) <= 0 <==> StableSort.RankLe(InjectorRank(a), InjectorRank(b))
    ensures CompareAds(a, b) == 0 <==> InjectorRank(a) == InjectorRank(b)
  {
  }

  /** Corporate ads are marked `locked` for the UI. */
  function Lock(ads: seq<SlideAd>): (r: seq<SlideAd>)
    ensures |r| == |ads|
    ensures forall i :: 0 <= i < |ads| ==> r[i] == ads[i].(locked := true)
  {
    if |ads| == 0 then [] else [ads[0].(locked := true)] + Lock(ads[1..])
  }

  /** The merged pool: locked corporate ads then local ads, stably sorted. */
  function MergePool(corporate: seq<SlideAd>, local: seq<SlideAd>): (pool: seq<SlideAd>)
    ensures multiset(pool) == multiset(Lock(corporate)) + multiset(local)
    ensures forall i, j :: 0 <= i < j < |pool| && HasMaster(pool[j]) ==> HasMaster(pool[i])
    ensures forall i, j :: 0 <= i < j < |pool| && HasMaster(pool[i]) == HasMaster(pool[j])
              ==> OrderKey(pool[i]) <= OrderKey(pool[j])
  {
    var pool := StableSort.Sort(Lock(corporate) + local, InjectorRank);
    assert forall i, j :: 0 <= i < j < |pool| ==>
      StableSort.RankLe(InjectorRank(pool[i]), InjectorRank(pool[j]));
    pool
  }

  /** Ads that tie (same tier, same order key) keep the order in which they were fetched:
      corporate ads in query order, then local ads in query order. */
  lemma MergeKeepsFetchOrder(corporate: seq<SlideAd>, local: seq<SlideAd>, k: StableSort.Rank)
    ensures StableSort.Tie(MergePool(corporate, local), InjectorRank, k)
         == StableSort.Tie(Lock(corporate) + local, InjectorRank, k)
  {
    StableSort.SortStable(Lock(corporate) + local, InjectorRank, k);
  }

  /** With no corporate list the pool is the local ads; if they already arrive in
      `order_index` order (no master ids), the pool is exactly the local list. */
  lemma MergeLocalOnly(local: seq<SlideAd>)
    requires forall i :: 0 <= i < |local| ==> !HasMaster(local[i])
    requires forall i, j :: 0 <= i < j < |local| ==> OrderKey(local[i]) <= OrderKey(local[j])
    ensures MergePool([], local) == local
  {
    assert Lock([]) + local == local;
    StableSort.SortOfSorted(local, InjectorRank);
  }

  /* ------------------------------------------------------------------ state */

  datatype Mode = Rotation | Slideshow | Takeover | OtherMode(name: string)

  /** `injector_mode || 'rotation'`, read as one of the three modes. */
  function ModeOf(m: Option<string>): (r: Mode)
    ensures !StrTruthy(m) ==> r == Rotation
    ensures r == Rotation <==> !StrTruthy(m) || m.value == "rotation"
    ensures r == Slideshow <==> m == Some("slideshow")
    ensures r == Takeover <==> m == Some("takeover")
    ensures r.OtherMode? ==> StrTruthy(m) && r.name == m.value
  {
    var s := StrOrDefault(m, "rotation");
    if s == "rotation" then Rotation
    else if s == "slideshow" then Slideshow
    else if s == "takeover" then Takeover
    else OtherMode(s)
  }

  /** The one repeating timer (`intervalRef`) and what it does when it fires. */
  datatype Interval = NoInterval | TakeoverTimer | SlideshowTimer

  /** The fixed delay of every hide timer, in milliseconds. */
  const HideDelayMs: nat := 8000

  /** `hosts` row fields the injector reads; `triggerInterval` is `Number(trigger_interval)`. */
  datatype HostRow = HostRow(
    injectorEnabled: Option<bool>,
    triggerInterval: Num,
    injectorMode: Option<string>,
    masterId: Option<string>)

  /** `pendingHides` lists the delays of the hide timers still to fire. */
  datatype State = State(
    ads: seq<SlideAd>,
    showAd: bool,
    current: nat,
    enabled: bool,
    triggerInterval: int,
    mode: Mode,
    masterId: Option<string>,
    rotation: nat,
    interval: Interval,
    pendingHides: seq<nat>)

  /** The hook's initial state: disabled, interval 8, rotation mode, empty pool. */
  function Init(): (s: State)
    ensures !s.enabled && s.triggerInterval == 8 && s.mode == Rotation
    ensures s.ads == [] && !s.showAd && s.current == 0 && s.rotation == 0
    ensures s.interval == NoInterval && s.pendingHides == []
  {
    State([], false, 0, false, 8, Rotation, None, 0, NoInterval, [])
  }

  /** The ad the wall renders: `ads[current] || null`. */
  function CurrentAd(s: State): (r: Option<SlideAd>)
    ensures r.None? <==> s.current >= |s.ads|
    ensures r.Some? ==> r.value == s.ads[s.current]
  {
    AdAt(s.ads, s.current)
  }

  /* ------------------------------------------------------------------ events */

  /** The settings part of a load: a missing row changes nothing; otherwise
      `!!injector_enabled`, `Number(trigger_interval) || 8`, `injector_mode || 'rotation'`
      and `master_id || null`. */
  function SettingsLoaded(s: State, host: Option<HostRow>): (r: State)
    ensures host.None? ==> r == s
    ensures host.Some? ==> r.enabled == (host.value.injectorEnabled == Some(true))
    ensures host.Some? && NumTruthy(host.value.triggerInterval) ==> r.triggerInterval == host.value.triggerInterval.i
    ensures host.Some? && !NumTruthy(host.value.triggerInterval) ==> r.triggerInterval == 8
    ensures host.Some? && !StrTruthy(host.value.injectorMode) ==> r.mode == Rotation
    ensures host.Some? && StrTruthy(host.value.injectorMode) ==> r.mode == ModeOf(host.value.injectorMode)
    ensures host.Some? ==> r.masterId == if StrTruthy(host.value.masterId) then host.value.masterId else None
    ensures r == s.(enabled := r.enabled, triggerInterval := r.triggerInterval, mode := r.mode, masterId := r.masterId)
  {
    match host
    case None => s
    case Some(h) =>
      s.(enabled := BoolOf(h.injectorEnabled),
         triggerInterval := NumOr(h.triggerInterval, 8),
         mode := ModeOf(h.injectorMode),
         masterId := if StrTruthy(h.masterId) then h.masterId else None)
  }

  /** The pool part of a load. A failed fetch counts as an empty list (`|| []`), and the
      corporate list is only used when the host has a master id. */
  function PoolLoaded(s: State, local: Option<seq<SlideAd>>, corp: Option<seq<SlideAd>>): (r: State)
    ensures s.masterId.None? ==> r.ads == MergePool([], local.GetOr([]))
    ensures s.masterId.Some? ==> r.ads == MergePool(corp.GetOr([]), local.GetOr([]))
    ensures r == s.(ads := r.ads)
  {
    var corporate := if s.masterId.Some? then corp.GetOr([]) else [];
    s.(ads := MergePool(corporate, local.GetOr([])))
  }

  /** Advance the index, then show. */
  function ShowNextAd(s: State): (r: State)
    ensures (!s.enabled || |s.ads| == 0) ==> r == s
    ensures s.enabled && |s.ads| > 0 ==>
      r == s.(current := (s.current + 1) % |s.ads|, showAd := true) && r.current < |r.ads|
  {
    if !s.enabled || |s.ads| == 0 then s
    else s.(current := (s.current + 1) % |s.ads|, showAd := true)
  }

  /** A wall-driven tick (one rendered submission). */
  function Tick(s: State): (r: State)
    ensures s.mode != Rotation || !s.enabled || |s.ads| == 0 || s.showAd ==> r == s
    ensures s.mode == Rotation && s.enabled && |s.ads| > 0 && !s.showAd ==>
      if s.rotation + 1 >= s.triggerInterval then
        r == s.(rotation := 0, current := (s.current + 1) % |s.ads|, showAd := true,
                pendingHides := s.pendingHides + [HideDelayMs])
      else r == s.(rotation := s.rotation + 1)
  {
    if s.mode != Rotation then s
    else if !s.enabled || |s.ads| == 0 then s
    else if s.showAd then s
    else
      var c := s.rotation + 1;
      if c >= s.triggerInterval then
        var t := ShowNextAd(s.(rotation := 0));
        t.(pendingHides := t.pendingHides + [HideDelayMs])
      else s.(rotation := c)
  }

  /** The repeating mode timer fires: takeover advances, slideshow advances and
      schedules a hide. */
  function IntervalFired(s: State): (r: State)
    ensures s.interval == NoInterval ==> r == s
    ensures s.interval == TakeoverTimer ==> r == ShowNextAd(s)
    ensures s.interval == SlideshowTimer ==>
      r == ShowNextAd(s).(pendingHides := s.pendingHides + [HideDelayMs])
  {
    match s.interval
    case NoInterval => s
    case TakeoverTimer => ShowNextAd(s)
    case SlideshowTimer =>
      var t := ShowNextAd(s);
      t.(pendingHides := t.pendingHides + [HideDelayMs])
  }

  /** The oldest pending hide timer fires and hides the ad. */
  function HideTimerFired(s: State): (r: State)
    ensures s.pendingHides == [] ==> r == s
    ensures s.pendingHides != [] ==> r == s.(showAd := false, pendingHides := s.pendingHides[1..])
  {
    if s.pendingHides == [] then s else s.(showAd := false, pendingHides := s.pendingHides[1..])
  }

  /* ------------------------------------------------------------------ effects */

  /** `hideAndClear`: hide and stop the repeating timer. */
  function HideAndClear(s: State): State {
    s.(showAd := false, interval := NoInterval)
  }

  predicate Armed(s: State) {
    s.enabled && |s.ads| > 0
  }

  /** The takeover effect: show permanently and start the advancing timer, or hide. */
  function TakeoverEffect(s: State): State {
    if s.mode != Takeover || !Armed(s) then HideAndClear(s)
    else s.(showAd := true, interval := TakeoverTimer)
  }

  /** The slideshow effect as written: any mode other than slideshow hides and clears,
      including takeover, whose effect ran just before. */
  function SlideshowEffectAsWritten(s: State): State {
    if s.mode != Slideshow || !Armed(s) then HideAndClear(s)
    else s.(interval := SlideshowTimer)
  }

  /** Both effects in declaration order, as written. */
  function EffectsAsWritten(s: State): State {
    SlideshowEffectAsWritten(TakeoverEffect(s))
  }

  /** In takeover mode the effects as written end with the ad hidden and no timer. */
  lemma TakeoverNeverShowsAsWritten(s: State)
    requires s.mode == Takeover && Armed(s)
    ensures !EffectsAsWritten(s).showAd && EffectsAsWritten(s).interval == NoInterval
  {
  }

  /** The slideshow effect with the guard the takeover comment intends: outside
      slideshow mode it leaves the state to the takeover effect. */
  function SlideshowEffect(s: State): State {
    if s.mode != Slideshow then s
    else if !Armed(s) then HideAndClear(s)
    else s.(interval := SlideshowTimer)
  }

  /** Both effects in declaration order, with the corrected slideshow effect. */
  function Effects(s: State): (r: State)
    ensures s.mode == Takeover && Armed(s) ==> r.showAd && r.interval == TakeoverTimer
    ensures s.mode == Slideshow && Armed(s) ==> !r.showAd && r.interval == SlideshowTimer
    ensures !(s.mode in {Takeover, Slideshow} && Armed(s)) ==> !r.showAd && r.interval == NoInterval
    ensures r == s.(showAd := r.showAd, interval := r.interval)
  {
    SlideshowEffect(TakeoverEffect(s))
  }

  /** The correction changes nothing outside an armed takeover. */
  lemma EffectsAgreeOutsideTakeover(s: State)
    requires !(s.mode == Takeover && Armed(s))
    ensures Effects(s) == EffectsAsWritten(s)
  {
  }

  /** What the effects depend on. */
  function Deps(s: State): (Mode, bool, nat, int) {
    (s.mode, s.enabled, |s.ads|, s.triggerInterval)
  }

  /** After an event, the effects as written re-run when a dependency changed. */
  function CommitAsWritten(before: State, after: State): State {
    if Deps(before) != Deps(after) then EffectsAsWritten(after) else after
  }

  /** After an event, the corrected effects re-run when a dependency changed. */
  function Commit(before: State, after: State): State {
    if Deps(before) != Deps(after) then Effects(after) else after
  }

  datatype Event =
    | SettingsLoad(host: Option<HostRow>)
    | PoolLoad(local: Option<seq<SlideAd>>, corp: Option<seq<SlideAd>>)
    | TickEvent
    | IntervalFire
    | HideFire

  /** The state an event leaves before any effect re-runs. */
  function Handle(s: State, e: Event): State {
    match e
    case SettingsLoad(h) => SettingsLoaded(s, h)
    case PoolLoad(l, c) => PoolLoaded(s, l, c)
    case TickEvent => Tick(s)
    case IntervalFire => IntervalFired(s)
    case HideFire => HideTimerFired(s)
  }

  /** One event of the hook as written. */
  function StepAsWritten(s: State, e: Event): State {
    CommitAsWritten(s, Handle(s, e))
  }

  /** One event of the hook with the corrected slideshow effect. */
  function Step(s: State, e: Event): State {
    Commit(s, Handle(s, e))
  }

  /* ------------------------------------------------------------------ properties */

  /** Ticks never touch the effect dependencies, so a tick is exactly `Tick`. */
  lemma TickStep(s: State)
    ensures StepAsWritten(s, TickEvent) == Tick(s)
    ensures Step(s, TickEvent) == Tick(s)
  {
  }

  /** Ticks while an ad is showing are dropped: nothing changes, the counter included. */
  lemma TicksWhileShowingDropped(s: State)
    requires s.showAd
    ensures StepAsWritten(s, TickEvent) == s
    ensures Step(s, TickEvent) == s
  {
  }

  function Ticks(s: State, n: nat): State
    decreases n
  {
    if n == 0 then s else Ticks(Tick(s), n - 1)
  }

  /** Counting in rotation mode: from a reset counter with interval k >= 1, the first
      k - 1 ticks only count, and the k-th tick resets the counter and shows the next ad. */
  lemma {:induction false} RotationCounting(s: State, n: nat)
    requires s.mode == Rotation && Armed(s) && !s.showAd
    requires s.rotation + n < s.triggerInterval
    ensures Ticks(s, n) == s.(rotation := s.rotation + n)
    decreases n
  {
    if n > 0 {
      RotationCounting(Tick(s), n - 1);
    }
  }

  lemma RotationTriggersOnKthTick(s: State)
    requires s.mode == Rotation && Armed(s) && !s.showAd
    requires s.rotation == 0 && s.triggerInterval >= 1
    ensures Ticks(s, s.triggerInterval as nat) ==
      s.(rotation := 0, current := (s.current + 1) % |s.ads|, showAd := true,
         pendingHides := s.pendingHides + [HideDelayMs])
  {
    var k := s.triggerInterval as nat;
    RotationCounting(s, k - 1);
    TicksSplit(s, k - 1, 1);
  }

  lemma {:induction false} TicksSplit(s: State, a: nat, b: nat)
    ensures Ticks(s, a + b) == Ticks(Ticks(s, a), b)
    decreases a
  {
    if a > 0 {
      TicksSplit(Tick(s), a - 1, b);
    }
  }

  /** Every scheduled hide timer waits the fixed 8000 ms. */
  ghost predicate HidesAreFixed(s: State) {
    forall i :: 0 <= i < |s.pendingHides| ==> s.pendingHides[i] == HideDelayMs
  }

  /** Re-running the effects never touches the hide timers. */
  lemma CommitKeepsHides(before: State, after: State)
    ensures Commit(before, after).pendingHides == after.pendingHides
  {
    if Deps(before) != Deps(after) {
      assert Effects(after) == after.(showAd := Effects(after).showAd, interval := Effects(after).interval);
    }
  }

  lemma {:induction false} StepKeepsFixedHides(s: State, e: Event)
    requires HidesAreFixed(s)
    ensures HidesAreFixed(Step(s, e))
  {
    var t := Handle(s, e);
    assert t.pendingHides == s.pendingHides || t.pendingHides == s.pendingHides + [HideDelayMs]
        || (|s.pendingHides| > 0 && t.pendingHides == s.pendingHides[1..]);
    CommitKeepsHides(s, t);
  }

  /** Once armed in takeover with no hide pending, the ad stays up through ticks, timer
      firings and hide events, and each timer firing moves to the next ad. */
  lemma TakeoverKeepsShowing(s: State, e: Event)
    requires s.mode == Takeover && Armed(s) && s.showAd && s.interval == TakeoverTimer
    requires s.pendingHides == []
    requires e in {TickEvent, IntervalFire, HideFire}
    ensures Step(s, e).showAd && Step(s, e).interval == TakeoverTimer
    ensures e == IntervalFire ==> Step(s, e).current == (s.current + 1) % |s.ads|
    ensures e != IntervalFire ==> Step(s, e) == s
  {
  }

  /** As written, a settings load that arms takeover over a non-empty pool ends with
      the ad hidden and no timer running. */
  lemma TakeoverHiddenOnLoadAsWritten(s: State, h: HostRow)
    requires |s.ads| > 0 && s.mode != Takeover
    requires h.injectorEnabled == Some(true) && h.injectorMode == Some("takeover")
    ensures !StepAsWritten(s, SettingsLoad(Some(h))).showAd
    ensures StepAsWritten(s, SettingsLoad(Some(h))).interval == NoInterval
  {
    var t := SettingsLoaded(s, Some(h));
    assert t.mode == Takeover && Armed(t);
    TakeoverNeverShowsAsWritten(t);
  }

  /** Corrected: the same load shows the ad at once and starts the advancing timer. */
  lemma TakeoverArmsOnLoad(s: State, h: HostRow)
    requires |s.ads| > 0 && s.mode != Takeover
    requires h.injectorEnabled == Some(true) && h.injectorMode == Some("takeover")
    ensures Step(s, SettingsLoad(Some(h))).showAd
    ensures Step(s, SettingsLoad(Some(h))).interval == TakeoverTimer
  {
  }

  /** Turning the injector off hides the ad and stops the timer, in every mode, as
      written and corrected. */
  lemma DisableHides(s: State, h: HostRow)
    requires s.enabled && h.injectorEnabled != Some(true)
    ensures !StepAsWritten(s, SettingsLoad(Some(h))).showAd
    ensures StepAsWritten(s, SettingsLoad(Some(h))).interval == NoInterval
    ensures !Step(s, SettingsLoad(Some(h))).showAd
    ensures Step(s, SettingsLoad(Some(h))).interval == NoInterval
  {
  }

  /** Loading the same host row again changes nothing, as written and corrected: the
      settings already hold its values, so no effect re-runs. */
  lemma SettingsReloadIsNoOp(s: State, h: Option<HostRow>)
    ensures var r := StepAsWritten(s, SettingsLoad(h)); StepAsWritten(r, SettingsLoad(h)) == r
    ensures var r := Step(s, SettingsLoad(h)); Step(r, SettingsLoad(h)) == r
  {
    var t := SettingsLoaded(s, h);
    assert SettingsLoaded(t, h) == t;
    var r1 := StepAsWritten(s, SettingsLoad(h));
    assert r1 == t.(showAd := r1.showAd, interval := r1.interval);
    assert SettingsLoaded(r1, h) == r1;
    var r2 := Step(s, SettingsLoad(h));
    assert r2 == t.(showAd := r2.showAd, interval := r2.interval);
    assert SettingsLoaded(r2, h) == r2;
  }

  /** The first ad shown after the initial load is at index 1 (mod the pool length). */
  lemma FirstShownIsIndexOne(s: State)
    requires s.current == 0 && Armed(s)
    ensures ShowNextAd(s).current == 1 % |s.ads|
    ensures CurrentAd(ShowNextAd(s)) == Some(s.ads[1 % |s.ads|])
  {
  }
}
