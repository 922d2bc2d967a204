/** The overlayer hook of the fan wall (app/wall/hooks/useAdOverlayer.ts): after every
    `ad_every_x_submissions` displayed submissions it shows the next ad for
    `ad_duration_seconds`, pausing the count meanwhile. The end of the display is a
    timer; here it is the `DisplayEnded` event. */
module AdOverlayer {
  import opened JsCore
  import opened SlideAds
  import StableSort

  datatype Settings = Settings(everyX: int, durationSeconds: int, enabled: bool, transition: string)

  /** The settings before any host row has been read. */
  const DefaultSettings := Settings(8, 8, false, "Fade In / Fade Out")

  /** The `hosts` columns the hook selects. */
  datatype HostRow = HostRow(
    adEveryXSubmissions: Option<int>,
    adDurationSeconds: Option<int>,
    injectorEnabled: Option<bool>,
    adOverlayTransition: Option<string>,
    masterId: Option<string>)

  /** Each setting falls back to its default with `??`: only a missing value is replaced. */
  function SettingsOf(h: HostRow): Settings {
    Settings(h.adEveryXSubmissions.GetOr(8), h.adDurationSeconds.GetOr(8),
             h.injectorEnabled.GetOr(false), h.adOverlayTransition.GetOr("Fade In / Fade Out"))
  }

  /** Unlike `||`, the `??` defaults keep explicit zeros and `false`, and only an
      all-missing row reproduces the initial settings. */
  lemma SettingsOfKeepsZeros(h: HostRow)
    ensures h.adEveryXSubmissions == Some(0) ==> SettingsOf(h).everyX == 0
    ensures h.adDurationSeconds == Some(0) ==> SettingsOf(h).durationSeconds == 0
    ensures SettingsOf(h) == DefaultSettings <==>
      (h.adEveryXSubmissions.GetOr(8) == 8 && h.adDurationSeconds.GetOr(8) == 8 &&
       h.injectorEnabled.GetOr(false) == false &&
       h.adOverlayTransition.GetOr("Fade In / Fade Out") == "Fade In / Fade Out")
  {
  }

  /** The rows the `.or(filter).eq("active", true)` query selects: active ads of this host,
      plus the corporate ads of its master, or the ads without a master when it has none. */
  predicate Selected(a: SlideAd, hostId: string, masterId: Option<string>) {
    a.active &&
    (a.hostProfileId == Some(hostId) ||
     (if StrTruthy(masterId) then a.masterId == masterId else a.masterId.None?))
  }

  function Query(table: seq<SlideAd>, hostId: string, masterId: Option<string>): (rows: seq<SlideAd>)
    ensures forall i :: 0 <= i < |rows| ==> Selected(rows[i], hostId, masterId)
    ensures forall a :: a in table && Selected(a, hostId, masterId) ==> a in rows
    ensures multiset(rows) <= multiset(table)
  {
    if |table| == 0 then []
    else
      assert table == [table[0]] + table[1..];
      (if Selected(table[0], hostId, masterId) then [table[0]] else []) + Query(table[1..], hostId, masterId)
  }

  function GlobalRank(a: SlideAd): StableSort.Rank {
    (0, GlobalKey(a))
  }

  /** Sort by `global_order_index ?? 9999`. */
  function SortByGlobal(rows: seq<SlideAd>): (r: seq<SlideAd>)
    ensures multiset(r) == multiset(rows)
    ensures forall i, j :: 0 <= i < j < |r| ==> GlobalKey(r[i]) <= GlobalKey(r[j])
  {
    var r := StableSort.Sort(rows, GlobalRank);
    assert forall i, j :: 0 <= i < j < |r| ==> StableSort.RankLe(GlobalRank(r[i]), GlobalRank(r[j]));
    r
  }

  /** `pendingEnd` is the delay (ms) of the display timer still to fire, if any. */
  datatype State = State(
    hostId: string,
    settings: Settings,
    masterId: Option<string>,
    ads: seq<SlideAd>,
    showAd: bool,
    index: nat,
    count: nat,
    paused: bool,
    pendingEnd: Option<int>)

  function Init(hostId: string): (s: State)
    ensures s.settings.everyX == 8 && s.settings.durationSeconds == 8 && !s.settings.enabled
    ensures s.ads == [] && !s.showAd && s.index == 0 && s.count == 0 && !s.paused
  {
    State(hostId, DefaultSettings, None, [], false, 0, 0, false, None)
  }

  /** `loadAds`: a failed query keeps the current pool. */
  function LoadAds(s: State, table: Option<seq<SlideAd>>): (r: State)
    ensures table.None? ==> r == s
    ensures table.Some? ==> r == s.(ads := SortByGlobal(Query(table.value, s.hostId, s.masterId)))
  {
    match table
    case None => s
    case Some(t) => s.(ads := SortByGlobal(Query(t, s.hostId, s.masterId)))
  }

  /** `loadHostSettings` followed by `loadAds`; an error row stops both. Without a host id
      nothing is loaded. `masterId` is the raw `master_id`, so `""` counts as no master
      in the query. */
  function HostLoaded(s: State, row: Option<HostRow>, table: Option<seq<SlideAd>>): (r: State)
    ensures s.hostId == "" || row.None? ==> r == s
    ensures s.hostId != "" && row.Some? ==>
      r.settings == SettingsOf(row.value) && r.masterId == row.value.masterId
    ensures s.hostId != "" && row.Some? && table.None? ==> r.ads == s.ads
    ensures s.hostId != "" && row.Some? && table.Some? ==>
      r.ads == SortByGlobal(Query(table.value, s.hostId, row.value.masterId))
    ensures r.showAd == s.showAd && r.index == s.index && r.count == s.count
    ensures r.paused == s.paused && r.pendingEnd == s.pendingEnd
  {
    if s.hostId == "" then s
    else match row
      case None => s
      case Some(h) => LoadAds(s.(settings := SettingsOf(h), masterId := h.masterId), table)
  }

  /** `triggerAdOverlay`: pause, show, advance, and schedule the end of the display. */
  function Trigger(s: State): (r: State)
    requires |s.ads| > 0
    ensures r.paused && r.showAd && r.index < |r.ads|
    ensures r.index == (s.index + 1) % |s.ads|
    ensures r.pendingEnd == Some(s.settings.durationSeconds * 1000)
    ensures r == s.(paused := true, showAd := true, index := r.index, pendingEnd := r.pendingEnd)
  {
    s.(paused := true, showAd := true, index := (s.index + 1) % |s.ads|,
       pendingEnd := Some(s.settings.durationSeconds * 1000))
  }

  /** `tickSubmissionDisplayed`. */
  function Tick(s: State): (r: State)
    ensures !s.settings.enabled || |s.ads| == 0 || s.paused ==> r == s
    ensures s.settings.enabled && |s.ads| > 0 && !s.paused && s.count + 1 < s.settings.everyX ==>
      r == s.(count := s.count + 1)
    ensures s.settings.enabled && |s.ads| > 0 && !s.paused && s.count + 1 >= s.settings.everyX ==>
      r == Trigger(s.(count := 0))
  {
    if !s.settings.enabled then s
    else if |s.ads| == 0 then s
    else if s.paused then s
    else if s.count + 1 >= s.settings.everyX then Trigger(s.(count := 0))
    else s.(count := s.count + 1)
  }

  /** The display timer fires: hide and resume counting. */
  function DisplayEnded(s: State): (r: State)
    ensures s.pendingEnd.None? ==> r == s
    ensures s.pendingEnd.Some? ==> !r.showAd && !r.paused && r.pendingEnd.None?
    ensures r == s.(showAd := r.showAd, paused := r.paused, pendingEnd := r.pendingEnd)
  {
    if s.pendingEnd.None? then s else s.(showAd := false, paused := false, pendingEnd := None)
  }

  /** `ads[currentIndex] ?? null`. */
  function CurrentAd(s: State): (r: Option<SlideAd>)
    ensures r.Some? <==> s.index < |s.ads|
    ensures r.Some? ==> r.value == s.ads[s.index]
  {
    AdAt(s.ads, s.index)
  }

  datatype Event =
    | HostLoad(row: Option<HostRow>, table: Option<seq<SlideAd>>)
    | AdsChange(table: Option<seq<SlideAd>>)
    | TickEvent
    | DisplayEnd

  function Step(s: State, e: Event): State {
    match e
    case HostLoad(row, table) => HostLoaded(s, row, table)
    case AdsChange(table) => if s.hostId == "" then s else LoadAds(s, table)
    case TickEvent => Tick(s)
    case DisplayEnd => DisplayEnded(s)
  }

  /** The ad is on screen exactly while counting is paused and its display timer is
      pending. */
  ghost predicate Inv(s: State) {
    s.showAd == s.paused && s.paused == s.pendingEnd.Some?
  }

  lemma InitInv(hostId: string)
    ensures Inv(Init(hostId))
  {
  }

  lemma {:induction false} StepInv(s: State, e: Event)
    requires Inv(s)
    ensures Inv(Step(s, e))
  {
    match e
    case HostLoad(row, table) =>
    case AdsChange(table) =>
    case TickEvent =>
    case DisplayEnd =>
  }

  /** While an ad is showing, ticks are not counted. */
  lemma TicksWhilePausedIgnored(s: State)
    requires s.paused
    ensures Step(s, TickEvent) == s
  {
  }

  function Ticks(s: State, n: nat): State
    decreases n
  {
    if n == 0 then s else Ticks(Tick(s), n - 1)
  }

  /** Counting: below the threshold, n ticks only add n to the count. */
  lemma {:induction false} Counting(s: State, n: nat)
    requires s.settings.enabled && |s.ads| > 0 && !s.paused
    requires s.count + n < s.settings.everyX
    ensures Ticks(s, n) == s.(count := s.count + n)
    decreases n
  {
    if n > 0 {
      Counting(Tick(s), n - 1);
    }
  }

  lemma {:induction false} TicksSplit(s: State, a: nat, b: nat)
    ensures Ticks(s, a + b) == Ticks(Ticks(s, a), b)
    decreases a
  {
    if a > 0 {
      TicksSplit(Tick(s), a - 1, b);
    }
  }

  /** From a zero count, the `ad_every_x_submissions`-th displayed submission triggers
      the next ad. */
  lemma TriggersOnKthTick(s: State)
    requires s.settings.enabled && |s.ads| > 0 && !s.paused && s.count == 0
    requires s.settings.everyX >= 1
    ensures Ticks(s, s.settings.everyX as nat) == Trigger(s)
  {
    var k := s.settings.everyX as nat;
    Counting(s, k - 1);
    TicksSplit(s, k - 1, 1);
  }

  /** One display cycle: `ad_every_x_submissions` ticks, then the end of the display. */
  function Cycle(s: State): State
    requires s.settings.everyX >= 0
  {
    DisplayEnded(Ticks(s, s.settings.everyX as nat))
  }

  /** `k` display cycles in a row. */
  function Cycles(s: State, k: nat): (r: State)
    requires s.settings.everyX >= 0
    ensures r.settings == s.settings
    decreases k
  {
    if k == 0 then s
    else
      var t := Cycles(s, k - 1);
      TicksKeepSettings(t, t.settings.everyX as nat);
      Cycle(t)
  }

  lemma {:induction false} TicksKeepSettings(s: State, n: nat)
    ensures Ticks(s, n).settings == s.settings
    decreases n
  {
    if n > 0 {
      TicksKeepSettings(Tick(s), n - 1);
    }
  }

  /** From a zero count with no ad showing, each display cycle moves the overlay on by
      one ad: after `k` cycles it is back to counting at ad `(i + k) % |ads|`, with
      nothing else changed. */
  lemma {:induction false} CyclesVisit(s: State, k: nat)
    requires s.settings.enabled && |s.ads| > 0 && s.settings.everyX >= 1
    requires !s.paused && !s.showAd && s.count == 0 && s.pendingEnd.None? && s.index < |s.ads|
    ensures Cycles(s, k) == s.(index := (s.index + k) % |s.ads|)
    decreases k
  {
    if k > 0 {
      CyclesVisit(s, k - 1);
      var t := s.(index := (s.index + (k - 1)) % |s.ads|);
      TriggersOnKthTick(t);
      NextIndex(s.index + (k - 1), |s.ads|);
      assert Cycle(t) == s.(index := (s.index + k) % |s.ads|);
    } else {
      assert s.index % |s.ads| == s.index;
    }
  }

  /** A threshold of 0 or 1 (kept by `??`) makes every counted submission trigger. */
  lemma SmallThresholdTriggersEveryTick(s: State)
    requires s.settings.enabled && |s.ads| > 0 && !s.paused && s.settings.everyX <= 1
    ensures Tick(s).showAd && Tick(s).count == 0
  {
  }

  /** After a load, the pool is exactly the selected rows of the table, in
      `global_order_index` order. */
  lemma LoadedPoolIsSelection(s: State, table: seq<SlideAd>)
    requires s.hostId != ""
    ensures var r := Step(s, AdsChange(Some(table)));
      (forall i :: 0 <= i < |r.ads| ==> Selected(r.ads[i], s.hostId, s.masterId)) &&
      (forall a :: a in table && Selected(a, s.hostId, s.masterId) ==> a in r.ads) &&
      (forall i, j :: 0 <= i < j < |r.ads| ==> GlobalKey(r.ads[i]) <= GlobalKey(r.ads[j]))
  {
    var r := Step(s, AdsChange(Some(table)));
    var q := Query(table, s.hostId, s.masterId);
    assert multiset(r.ads) == multiset(q);
    forall i | 0 <= i < |r.ads| ensures Selected(r.ads[i], s.hostId, s.masterId) {
      assert r.ads[i] in multiset(q);
    }
    forall a | a in table && Selected(a, s.hostId, s.masterId) ensures a in r.ads {
      assert a in multiset(r.ads);
    }
  }

  /** With a master, a corporate ad of another master is never shown; without one, no
      corporate ad is shown except the host's own. */
  lemma ForeignCorporateExcluded(a: SlideAd, hostId: string, masterId: Option<string>)
    requires a.hostProfileId != Some(hostId)
    requires a.masterId.Some? && a.masterId != masterId
    ensures !Selected(a, hostId, masterId)
  {
  }
}
