/** The older ad overlay component (app/wall/components/AdOverlay.tsx): it polls the ads
    and the injector flag every 8 seconds, interleaves corporate and host ads, and
    rotates through them with one timer per ad.

    Time is explicit: `Wait(ms)` lets `ms` milliseconds pass and fires the rotation timer
    when it is due; a poll is `Wait(8000)` followed by the two fetch results. Both the
    component as written and a corrected version are modelled (`Version`); they differ
    in two places, each shown below by a lemma. */
module AdOverlay {
  import opened JsCore
  import opened SlideAds
  import Lists

  /* ------------------------------------------------------------------ interleave */

  /** Master, host, master, host, ...; the longer list's tail follows. */
  function Interleave<T>(m: seq<T>, h: seq<T>): (r: seq<T>)
    ensures |r| == |m| + |h|
  {
    if |m| == 0 then h
    else if |h| == 0 then m
    else [m[0], h[0]] + Interleave(m[1..], h[1..])
  }

  /** Interleaving loses and adds nothing. */
  lemma {:induction false} InterleavePermutes<T>(m: seq<T>, h: seq<T>)
    ensures multiset(Interleave(m, h)) == multiset(m) + multiset(h)
  {
    if |m| > 0 && |h| > 0 {
      var t := Interleave(m[1..], h[1..]);
      calc {
        multiset(Interleave(m, h));
        multiset([m[0], h[0]] + t);
        multiset([m[0], h[0]]) + multiset(t);
        { InterleavePermutes(m[1..], h[1..]); }
        multiset{m[0], h[0]} + multiset(m[1..]) + multiset(h[1..]);
        { HeadMultiset(m); HeadMultiset(h); }
        multiset(m) + multiset(h);
      }
    }
  }

  lemma HeadMultiset<T>(s: seq<T>)
    requires |s| > 0
    ensures multiset(s) == multiset{s[0]} + multiset(s[1..])
  {
    assert s == [s[0]] + s[1..];
  }

  /** Position `2i` holds `m[i]` and `2i + 1` holds `h[i]` while both lists last. */
  lemma {:induction false} InterleavePairs<T>(m: seq<T>, h: seq<T>, i: nat)
    requires i < |m| && i < |h|
    ensures Interleave(m, h)[2 * i] == m[i] && Interleave(m, h)[2 * i + 1] == h[i]
    decreases i
  {
    if i > 0 {
      InterleavePairs(m[1..], h[1..], i - 1);
    }
  }

  /** After the shorter list runs out, the rest of the longer one follows in order. */
  lemma {:induction false} InterleaveTail<T>(m: seq<T>, h: seq<T>)
    ensures |m| >= |h| ==> Interleave(m, h)[2 * |h|..] == m[|h|..]
    ensures |h| >= |m| ==> Interleave(m, h)[2 * |m|..] == h[|m|..]
  {
    if |m| > 0 && |h| > 0 {
      InterleaveTail(m[1..], h[1..]);
      var t := Interleave(m[1..], h[1..]);
      assert Interleave(m, h) == [m[0], h[0]] + t;
      if |m| >= |h| {
        assert Interleave(m, h)[2 * |h|..] == t[2 * (|h| - 1)..];
        assert m[|h|..] == m[1..][|h| - 1..];
      }
      if |h| >= |m| {
        assert Interleave(m, h)[2 * |m|..] == t[2 * (|m| - 1)..];
        assert h[|m|..] == h[1..][|m| - 1..];
      }
    }
  }

  /** `s[i..]`, or nothing once `i` is past the end. */
  function Drop<T>(s: seq<T>, i: nat): seq<T> {
    if i <= |s| then s[i..] else []
  }

  /** One round of the loop: `masters[i]` if there is one, then `hosts[i]` if there is
      one, and the rest interleaved. */
  lemma InterleaveStep<T>(m: seq<T>, h: seq<T>, i: nat)
    requires i < |m| || i < |h|
    ensures Interleave(Drop(m, i), Drop(h, i)) == Round(m, h, i) + Interleave(Drop(m, i + 1), Drop(h, i + 1))
  {
    var dm, dh := Drop(m, i), Drop(h, i);
    if i < |m| && i < |h| {
      assert dm[0] == m[i] && dm[1..] == Drop(m, i + 1);
      assert dh[0] == h[i] && dh[1..] == Drop(h, i + 1);
    } else if i < |m| {
      assert dh == [] && Drop(h, i + 1) == [];
      assert dm == [m[i]] + Drop(m, i + 1);
    } else {
      assert dm == [] && Drop(m, i + 1) == [];
      assert dh == [h[i]] + Drop(h, i + 1);
    }
  }

  /** `if (i < s.length) out.push(s[i])`. */
  function Push<T>(out: seq<T>, s: seq<T>, i: nat): seq<T> {
    if i < |s| then out + [s[i]] else out
  }

  /** What one round of the loop pushes. */
  function Round<T>(m: seq<T>, h: seq<T>, i: nat): seq<T> {
    (if i < |m| then [m[i]] else []) + (if i < |h| then [h[i]] else [])
  }

  lemma PushRound<T>(out: seq<T>, m: seq<T>, h: seq<T>, i: nat)
    ensures Push(Push(out, m, i), h, i) == out + Round(m, h, i)
  {
  }

  lemma Assoc<T>(a: seq<T>, b: seq<T>, c: seq<T>)
    ensures (a + b) + c == a + (b + c)
  {
  }

  /** One round of the loop keeps "output so far, then the rest interleaved" equal to
      the whole interleaving. */
  lemma LoopRound<T>(m: seq<T>, h: seq<T>, i: nat, out: seq<T>)
    requires i < |m| || i < |h|
    requires out + Interleave(Drop(m, i), Drop(h, i)) == Interleave(m, h)
    ensures Push(Push(out, m, i), h, i) + Interleave(Drop(m, i + 1), Drop(h, i + 1)) == Interleave(m, h)
  {
    var rest := Interleave(Drop(m, i + 1), Drop(h, i + 1));
    var head := Round(m, h, i);
    calc {
      Push(Push(out, m, i), h, i) + rest;
      { PushRound(out, m, h, i); }
      (out + head) + rest;
      { Assoc(out, head, rest); }
      out + (head + rest);
      { InterleaveStep(m, h, i); }
      out + Interleave(Drop(m, i), Drop(h, i));
    }
  }

  /** The `for` loop of `fetchAds`, which pushes `masters[i]` then `hosts[i]` for each
      `i` below the longer length, computes `Interleave`. */
  method InterleaveLoop<T>(masters: seq<T>, hosts: seq<T>) returns (r: seq<T>)
    ensures r == Interleave(masters, hosts)
  {
    r := [];
    var max := if |masters| > |hosts| then |masters| else |hosts|;
    var i := 0;
    assert Drop(masters, 0) == masters && Drop(hosts, 0) == hosts;
    while i < max
      invariant 0 <= i <= max
      invariant r + Interleave(Drop(masters, i), Drop(hosts, i)) == Interleave(masters, hosts)
    {
      LoopRound(masters, hosts, i, r);
      r := Push(r, masters, i);
      r := Push(r, hosts, i);
      i := i + 1;
    }
    assert Drop(masters, i) == [] && Drop(hosts, i) == [];
  }

  function IsMaster(a: SlideAd): bool { a.isMasterAd }

  function IsHost(a: SlideAd): bool { a.isHostAd }

  /** The pool built from one fetch: rows flagged `is_master_ad` interleaved with rows
      flagged `is_host_ad`. A row with both flags appears twice, one with neither is
      dropped. */
  function Arrange(data: seq<SlideAd>): (pool: seq<SlideAd>)
    ensures |pool| == |Lists.Filter(data, IsMaster)| + |Lists.Filter(data, IsHost)|
    ensures forall a :: a in pool <==> a in data && (a.isMasterAd || a.isHostAd)
  {
    var m, h := Lists.Filter(data, IsMaster), Lists.Filter(data, IsHost);
    var pool := Interleave(m, h);
    InterleavePermutes(m, h);
    assert forall a :: a in pool <==> a in multiset(m) + multiset(h);
    pool
  }

  /* ------------------------------------------------------------------ state */

  /** A timer delay in milliseconds. Delays below 1 ms are taken as 1 ms. */
  type Delay = d: int | d >= 1 witness 1

  /** A pool length captured by the timer's closure; it is at least 1 because the timer
      is only armed when the pool is non-empty. */
  type Length = n: int | n >= 1 witness 1

  /** The pending rotation timer: time left and the `ads.length` its callback saw. */
  datatype Timer = Timer(remaining: Delay, len: Length)

  datatype Version = AsWritten | Corrected

  /** `rotations` counts how often the rotation timer has fired; it is an observation
      of the model, not a field of the component. `crashed` records an uncaught
      `TypeError`, after which the component is gone. */
  datatype State = State(
    ads: seq<SlideAd>,
    enabled: bool,
    index: nat,
    timer: Option<Timer>,
    rotations: nat,
    crashed: bool)

  /** The component mounts enabled, with an empty pool. */
  function Init(): (s: State)
    ensures s.enabled && s.ads == [] && s.index == 0 && s.timer.None? && !s.crashed
  {
    State([], true, 0, None, 0, false)
  }

  /** `Number(duration_seconds) || 8` seconds, in milliseconds. */
  function DelayMs(a: SlideAd): (d: Delay)
    ensures NumTruthy(a.durationSeconds) && a.durationSeconds.i >= 1 ==> d == a.durationSeconds.i * 1000
    ensures !NumTruthy(a.durationSeconds) ==> d == 8000
  {
    var ms := NumOr(a.durationSeconds, 8) * 1000;
    if ms < 1 then 1 else ms
  }

  /** Rendering or `rotate()` dereferences `ads[currentIndex]`: with the overlay enabled
      and a non-empty pool, an index past the end is a `TypeError`. */
  predicate Crashes(s: State) {
    s.enabled && |s.ads| > 0 && s.index >= |s.ads|
  }

  /** `rotate()`: replace the timer by one for the current ad's duration. */
  function Rotate(s: State): (r: State)
    ensures !s.enabled || |s.ads| == 0 ==> r == s
    ensures s.enabled && 0 <= s.index < |s.ads| ==>
      r == s.(timer := Some(Timer(DelayMs(s.ads[s.index]), |s.ads|)))
  {
    if !s.enabled || |s.ads| == 0 then s
    else if s.index >= |s.ads| then s.(crashed := true)
    else s.(timer := Some(Timer(DelayMs(s.ads[s.index]), |s.ads|)))
  }

  /** After a state change: render (which may crash), then re-run the rotate effect if
      one of its dependencies changed. As written, `ads` is a dependency by reference,
      so every fetch that returned data counts as a change; corrected, only a pool with
      different contents does. */
  function Commit(v: Version, before: State, after: State, adsReplaced: bool): State {
    var adsChanged := if v == AsWritten then adsReplaced else before.ads != after.ads;
    if Crashes(after) then after.(crashed := true)
    else if before.index != after.index || before.enabled != after.enabled || adsChanged then Rotate(after)
    else after
  }

  /** `fetchAds` returned: no data keeps the pool. The corrected version moves an index
      that is now past the end back to the first ad. */
  function AdsFetched(v: Version, s: State, data: Option<seq<SlideAd>>): (r: State)
    ensures s.crashed || data.None? ==> r == s
    ensures !s.crashed && data.Some? && !r.crashed ==> r.ads == Arrange(data.value)
    ensures r.rotations == s.rotations
  {
    if s.crashed then s
    else match data
      case None => s
      case Some(d) =>
        var pool := Arrange(d);
        var index := if v == Corrected && s.index >= |pool| then 0 else s.index;
        Commit(v, s, s.(ads := pool, index := index), true)
  }

  /** The `injector_enabled` column of the host row. */
  datatype InjectorRow = InjectorRow(injectorEnabled: Option<bool>)

  /** `fetchInjector` returned: only a row changes the flag. */
  function InjectorFetched(v: Version, s: State, row: Option<InjectorRow>): (r: State)
    ensures s.crashed || row.None? ==> r == s
    ensures !s.crashed && row.Some? ==> r.enabled == BoolOf(row.value.injectorEnabled)
    ensures r.ads == s.ads && r.rotations == s.rotations
  {
    if s.crashed then s
    else match row
      case None => s
      case Some(h) => Commit(v, s, s.(enabled := BoolOf(h.injectorEnabled)), false)
  }

  /** The rotation timer fires: move to the next ad. As written, modulo the length the
      callback captured; corrected, modulo the current length. */
  function Fire(v: Version, s: State, len: Length): (r: State)
    ensures v == AsWritten ==> r.index == (s.index + 1) % len
    ensures v == Corrected && |s.ads| > 0 ==> r.index == (s.index + 1) % |s.ads|
    ensures v == Corrected && |s.ads| == 0 ==> r.index == 0
    ensures r.ads == s.ads && r.enabled == s.enabled && r.rotations == s.rotations + 1
    ensures r.crashed <==> s.crashed || Crashes(s.(index := r.index))
    ensures !r.crashed && s.enabled && |s.ads| > 0 && r.index != s.index ==>
      r.index < |s.ads| && r.timer == Some(Timer(DelayMs(s.ads[r.index]), |s.ads|))
  {
    var next := if v == AsWritten then (s.index + 1) % len
                else if |s.ads| > 0 then (s.index + 1) % |s.ads| else 0;
    Commit(v, s, s.(index := next, rotations := s.rotations + 1), false)
  }

  /** Let `ms` milliseconds pass, firing the rotation timer each time it comes due. */
  function Wait(v: Version, s: State, ms: nat): (r: State)
    ensures r.rotations >= s.rotations
    ensures r.ads == s.ads
    decreases ms
  {
    if s.crashed then s
    else match s.timer
      case None => s
      case Some(t) =>
        if t.remaining > ms then s.(timer := Some(t.(remaining := t.remaining - ms)))
        else Wait(v, Fire(v, s.(timer := None), t.len), ms - t.remaining)
  }

  /** One 8-second poll: time passes, then both fetches come back. */
  function Poll(v: Version, s: State, data: Option<seq<SlideAd>>, row: Option<InjectorRow>): (r: State)
    ensures r.rotations >= s.rotations
  {
    InjectorFetched(v, AdsFetched(v, Wait(v, s, 8000), data), row)
  }

  function Polls(v: Version, s: State, data: Option<seq<SlideAd>>, row: Option<InjectorRow>, n: nat): (r: State)
    ensures r.rotations >= s.rotations
    decreases n
  {
    if n == 0 then s else Polls(v, Poll(v, s, data, row), data, row, n - 1)
  }

  /** `k` firings of the rotation timer, each with the length `len` its closure saw. */
  function Fires(v: Version, s: State, len: Length, k: nat): (r: State)
    ensures r.ads == s.ads
    decreases k
  {
    if k == 0 then s else Fire(v, Fires(v, s, len, k - 1), len)
  }

  /** `k` firings from a position on the pool move `k` ads on: modulo the captured
      length as written, modulo the pool's length corrected. */
  lemma {:induction false} FiresVisit(v: Version, s: State, len: Length, k: nat)
    requires v == Corrected ==> |s.ads| > 0
    requires s.index < (if v == AsWritten then len else |s.ads|)
    ensures Fires(v, s, len, k).index == (s.index + k) % (if v == AsWritten then len else |s.ads|)
    decreases k
  {
    var n := if v == AsWritten then len else |s.ads|;
    if k > 0 {
      FiresVisit(v, s, len, k - 1);
      NextIndex(s.index + (k - 1), n);
    } else {
      DivModUnique(s.index, n, 0, s.index);
    }
  }

  datatype View = Hidden | Showing(ad: SlideAd) | Crash

  /** What the component renders. */
  function Render(s: State): (view: View)
    ensures view == Crash <==> s.crashed || Crashes(s)
    ensures view.Showing? ==> s.enabled && s.index < |s.ads| && view == Showing(s.ads[s.index])
    ensures !s.crashed && s.enabled && s.index < |s.ads| ==> view == Showing(s.ads[s.index])
    ensures view == Hidden <==> !s.crashed && (!s.enabled || |s.ads| == 0)
  {
    if s.crashed then Crash
    else if !s.enabled || |s.ads| == 0 then Hidden
    else if s.index < |s.ads| then Showing(s.ads[s.index])
    else Crash
  }

  /* ------------------------------------------------------------------ findings */

  function SampleAd(id: string, master: bool): SlideAd {
    SlideAd(id, None, None, master, !master, None, None, NaN, Image, "", "", true, false)
  }

  /** As written: showing the third of three ads, a poll that returns two ads makes the
      component dereference a missing ad. */
  lemma ShrinkingPoolCrashesAsWritten()
    ensures var s := State([SampleAd("a", true), SampleAd("b", false), SampleAd("c", true)],
                           true, 2, None, 0, false);
            Render(AdsFetched(AsWritten, s, Some([SampleAd("x", true), SampleAd("y", false)]))) == Crash
  {
    var d := [SampleAd("x", true), SampleAd("y", false)];
    assert Lists.Filter(d, IsMaster) == [d[0]] by {
      assert d[1..] == [d[1]];
    }
    assert Lists.Filter(d, IsHost) == [d[1]] by {
      assert d[1..] == [d[1]];
    }
  }

  /** The index is always on the pool, or 0. */
  ghost predicate IndexOk(s: State) {
    !s.crashed && (s.index < |s.ads| || s.index == 0)
  }

  lemma CommitKeeps(before: State, after: State, adsReplaced: bool)
    requires IndexOk(after)
    ensures IndexOk(Commit(Corrected, before, after, adsReplaced))
  {
  }

  lemma {:induction false} WaitKeeps(s: State, ms: nat)
    requires IndexOk(s)
    ensures IndexOk(Wait(Corrected, s, ms))
    decreases ms
  {
    match s.timer
    case None =>
    case Some(t) =>
      if t.remaining <= ms {
        var f := Fire(Corrected, s.(timer := None), t.len);
        CommitKeeps(s.(timer := None), s.(timer := None).(index := f.index, rotations := f.rotations), false);
        WaitKeeps(f, ms - t.remaining);
      }
  }

  /** Corrected: whatever the polls return, the component never crashes. */
  lemma {:induction false} CorrectedNeverCrashes(s: State, data: Option<seq<SlideAd>>, row: Option<InjectorRow>)
    requires IndexOk(s)
    ensures IndexOk(Poll(Corrected, s, data, row))
    ensures Render(Poll(Corrected, s, data, row)) != Crash
  {
    WaitKeeps(s, 8000);
    var w := Wait(Corrected, s, 8000);
    FetchesKeep(w, data, row);
  }

  /** Both corrected fetch results keep the index on the pool. */
  lemma FetchesKeep(s: State, data: Option<seq<SlideAd>>, row: Option<InjectorRow>)
    requires IndexOk(s)
    ensures IndexOk(InjectorFetched(Corrected, AdsFetched(Corrected, s, data), row))
  {
    var a := AdsFetched(Corrected, s, data);
    if data.Some? {
      var pool := Arrange(data.value);
      var index := if s.index >= |pool| then 0 else s.index;
      CommitKeeps(s, s.(ads := pool, index := index), true);
    }
    if row.Some? {
      CommitKeeps(a, a.(enabled := BoolOf(row.value.injectorEnabled)), false);
    }
  }

  /** A steady poll: the same data and an enabled host row. */
  predicate Steady(s: State, data: seq<SlideAd>, row: InjectorRow) {
    !s.crashed && s.enabled && row.injectorEnabled == Some(true)
    && s.ads == Arrange(data) && s.index < |s.ads|
  }

  /** As written: when the current ad lasts longer than 8 seconds and the polls keep
      returning the same ads, every poll re-arms the timer before it fires, so the
      overlay never moves on. */
  lemma {:induction false} LongAdStuckAsWritten(s: State, data: seq<SlideAd>, row: InjectorRow, n: nat)
    requires Steady(s, data, row)
    requires DelayMs(s.ads[s.index]) > 8000
    requires s.timer == Some(Timer(DelayMs(s.ads[s.index]), |s.ads|))
    ensures Polls(AsWritten, s, Some(data), Some(row), n) == s
    decreases n
  {
    if n > 0 {
      assert Poll(AsWritten, s, Some(data), Some(row)) == s;
      LongAdStuckAsWritten(s, data, row, n - 1);
    }
  }

  /** Corrected: a steady poll leaves a timer with more than 8 seconds to run untouched
      except for the time that passed. */
  lemma SteadyPollCountsDown(s: State, data: seq<SlideAd>, row: InjectorRow)
    requires Steady(s, data, row)
    requires s.timer.Some? && s.timer.value.remaining > 8000
    ensures Poll(Corrected, s, Some(data), Some(row)) ==
      s.(timer := Some(s.timer.value.(remaining := s.timer.value.remaining - 8000)))
  {
  }

  /** Corrected: with steady polls, a pending timer fires within `n` polls once `n`
      polls cover its remaining time, whatever the ad's duration. */
  lemma {:induction false} CorrectedRotates(s: State, data: seq<SlideAd>, row: InjectorRow, n: nat)
    requires Steady(s, data, row)
    requires s.timer.Some? && s.timer.value.remaining <= 8000 * n
    ensures Polls(Corrected, s, Some(data), Some(row), n).rotations > s.rotations
    decreases n
  {
    var t := s.timer.value;
    if t.remaining > 8000 {
      SteadyPollCountsDown(s, data, row);
      CorrectedRotates(Poll(Corrected, s, Some(data), Some(row)), data, row, n - 1);
    } else {
      var f := Fire(Corrected, s.(timer := None), t.len);
      assert Wait(Corrected, s, 8000) == Wait(Corrected, f, 8000 - t.remaining);
      assert Wait(Corrected, s, 8000).rotations > s.rotations;
    }
  }
}
