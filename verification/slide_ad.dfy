/** A row of the `slide_ads` table, as the three ad engines and the ad manager read it. */
module SlideAds {
  import opened JsCore

  datatype MediaType = Image | Video

  /** `master_id` set means the ad is corporate (tenant-wide); `host_profile_id` set means
      it belongs to one host. `is_master_ad`/`is_host_ad` are the flags the older
      overlay and the manager read. `durationSeconds` is `Number(duration_seconds)`.
      `locked` is the UI mark the injector adds to corporate ads. */
  datatype SlideAd = SlideAd(
    id: string,
    masterId: Option<string>,
    hostProfileId: Option<string>,
    isMasterAd: bool,
    isHostAd: bool,
    orderIndex: Option<int>,
    globalOrderIndex: Option<int>,
    durationSeconds: Num,
    mediaType: MediaType,
    url: string,
    storagePath: string,
    active: bool,
    locked: bool)

  /** `a.master_id` is truthy. */
  predicate HasMaster(a: SlideAd) {
    StrTruthy(a.masterId)
  }

  /** `a.order_index ?? 9999`. */
  function OrderKey(a: SlideAd): int {
    a.orderIndex.GetOr(9999)
  }

  /** `a.global_order_index ?? 9999`. */
  function GlobalKey(a: SlideAd): int {
    a.globalOrderIndex.GetOr(9999)
  }

  /** `ads[i] ?? null` / `ads[i] || null`: the ad at an index, or nothing when out of range. */
  function AdAt(ads: seq<SlideAd>, i: nat): (r: Option<SlideAd>)
    ensures r.Some? <==> i < |ads|
    ensures r.Some? ==> r.value == ads[i]
  {
    if i < |ads| then Some(ads[i]) else None
  }

  lemma MulBounds(d: int, n: int)
    requires n > 0
    ensures d >= 1 ==> d * n >= n
    ensures d <= -1 ==> d * n <= -n
  {
  }

  /** Quotient and remainder are unique: `x == q * n + r` with `0 <= r < n` fixes both. */
  lemma DivModUnique(x: int, n: int, q: int, r: int)
    requires n > 0 && 0 <= r < n && x == q * n + r
    ensures x % n == r && x / n == q
  {
    var q2, r2 := x / n, x % n;
    assert (q - q2) * n == r2 - r;
    MulBounds(q - q2, n);
  }

  /** Moving one step on from an index already reduced modulo `n` is moving one step
      on from the unreduced index: advancing `k` times from `i` lands on `(i + k) % n`. */
  lemma NextIndex(a: nat, n: nat)
    requires n > 0
    ensures (a % n + 1) % n == (a + 1) % n
  {
    var q, r := a / n, a % n;
    if r + 1 < n {
      DivModUnique(a + 1, n, q, r + 1);
      DivModUnique(r + 1, n, 0, r + 1);
    } else {
      DivModUnique(a + 1, n, q + 1, 0);
      DivModUnique(r + 1, n, 1, 0);
    }
  }
}
