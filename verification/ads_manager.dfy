/** The ad manager dialog (components/AdsManagerModal.tsx): reordering by drag and
    drop, saving the order, deleting, uploading, and the host's injector settings.
    A corporate (master) user may do everything; a host may not move, reorder or
    delete corporate ads, and may not drag a host ad above a corporate one. */
module AdsManager {
  import opened JsCore
  import opened SlideAds
  import JsText

  /* ------------------------------------------------------------------ arrayMove */

  function RemoveAt<T>(s: seq<T>, i: nat): (r: seq<T>)
    requires i < |s|
    ensures |r| == |s| - 1
    ensures forall k :: 0 <= k < |r| ==> r[k] == if k < i then s[k] else s[k + 1]
  {
    s[..i] + s[i + 1..]
  }

  function InsertAt<T>(s: seq<T>, i: nat, x: T): (r: seq<T>)
    requires i <= |s|
    ensures |r| == |s| + 1 && r[i] == x
    ensures forall k :: 0 <= k < |r| && k != i ==> r[k] == if k < i then s[k] else s[k - 1]
  {
    s[..i] + [x] + s[i..]
  }

  /** `arrayMove(arr, from, to)`: take the item out at `from` and put it back so that it
      ends up at `to`. Both indices are rows of the rendered list. */
  function ArrayMove<T>(arr: seq<T>, from: nat, to: nat): (r: seq<T>)
    requires from < |arr| && to < |arr|
    ensures |r| == |arr| && r[to] == arr[from]
    ensures RemoveAt(r, to) == RemoveAt(arr, from)
    ensures multiset(r) == multiset(arr)
  {
    var item := arr[from];
    var clone := RemoveAt(arr, from);
    var r := InsertAt(clone, to, item);
    assert RemoveAt(r, to) == clone;
    assert arr == arr[..from] + [item] + arr[from + 1..];
    assert r == clone[..to] + [item] + clone[to..];
    assert clone == arr[..from] + arr[from + 1..];
    assert multiset(clone) + multiset{item} == multiset(arr);
    assert multiset(r) == multiset(clone[..to]) + multiset{item} + multiset(clone[to..]) by {
      assert clone == clone[..to] + clone[to..];
    }
    r
  }

  /** Where each row ends up: rows between the two positions shift by one, the rest
      stay. */
  lemma ArrayMoveShifts<T>(arr: seq<T>, from: nat, to: nat, k: nat)
    requires from < |arr| && to < |arr| && k < |arr|
    ensures var r := ArrayMove(arr, from, to);
      (k == to ==> r[k] == arr[from]) &&
      (k != to && ((k < from && k < to) || (k > from && k > to)) ==> r[k] == arr[k]) &&
      (from < to && from <= k < to ==> r[k] == arr[k + 1]) &&
      (to < from && to < k <= from ==> r[k] == arr[k - 1])
  {
    var clone := RemoveAt(arr, from);
    var r := ArrayMove(arr, from, to);
    assert r == InsertAt(clone, to, arr[from]);
    if k < to {
      assert r[k] == clone[k];
    } else if k > to {
      assert r[k] == clone[k - 1];
    }
  }

  /** Moving back undoes a move. */
  lemma ArrayMoveBack<T>(arr: seq<T>, from: nat, to: nat)
    requires from < |arr| && to < |arr|
    ensures ArrayMove(ArrayMove(arr, from, to), to, from) == arr
  {
    var r := ArrayMove(arr, from, to);
    var b := ArrayMove(r, to, from);
    assert RemoveAt(b, from) == RemoveAt(r, to) == RemoveAt(arr, from);
    forall k | 0 <= k < |arr| ensures b[k] == arr[k] {
      if k < from {
        assert b[k] == RemoveAt(b, from)[k];
      } else if k > from {
        assert b[k] == RemoveAt(b, from)[k - 1];
      }
    }
  }

  /** Dropping a row on itself changes nothing. */
  lemma ArrayMoveSame<T>(arr: seq<T>, i: nat)
    requires i < |arr|
    ensures ArrayMove(arr, i, i) == arr
  {
    var r := ArrayMove(arr, i, i);
    forall k | 0 <= k < |arr| ensures r[k] == arr[k] {
      ArrayMoveShifts(arr, i, i, k);
    }
  }

  /* ------------------------------------------------------------------ dialog state */

  /** `isMaster` is `host.role === "master"`; `dragFrom` is the index a drag started at. */
  datatype State = State(ads: seq<SlideAd>, isMaster: bool, reorderMode: bool, dragFrom: Option<nat>)

  /** The lock badge: a corporate ad seen by a host. */
  predicate Locked(a: SlideAd, isMaster: bool) {
    a.isMasterAd && !isMaster
  }

  /** `handleDragStart`: outside reorder mode, or on a locked row, nothing starts. */
  function DragStart(s: State, index: nat): (r: State)
    requires index < |s.ads|
    ensures !s.reorderMode || Locked(s.ads[index], s.isMaster) ==> r == s
    ensures s.reorderMode && !Locked(s.ads[index], s.isMaster) ==> r == s.(dragFrom := Some(index))
  {
    if !s.reorderMode then s
    else if !s.isMaster && Locked(s.ads[index], s.isMaster) then s
    else s.(dragFrom := Some(index))
  }

  /** The snap-back rule: a host dropping a host ad on a corporate row above it. */
  predicate SnapsBack(s: State, from: nat, to: nat)
    requires from < |s.ads| && to < |s.ads|
  {
    !s.isMaster && s.ads[from].isHostAd && s.ads[to].isMasterAd && to < from
  }

  /** `handleDrop`. */
  function Drop(s: State, to: nat): (r: State)
    requires to < |s.ads|
    requires s.dragFrom.Some? ==> s.dragFrom.value < |s.ads|
    ensures !s.reorderMode || s.dragFrom.None? ==> r == s
    ensures s.reorderMode && s.dragFrom.Some? ==> r.dragFrom.None? && r.isMaster == s.isMaster
    ensures s.reorderMode && s.dragFrom.Some? && SnapsBack(s, s.dragFrom.value, to) ==> r.ads == s.ads
    ensures s.reorderMode && s.dragFrom.Some? && !SnapsBack(s, s.dragFrom.value, to) ==>
      r.ads == ArrayMove(s.ads, s.dragFrom.value, to)
  {
    if !s.reorderMode then s
    else match s.dragFrom
      case None => s
      case Some(from) =>
        if SnapsBack(s, from, to) then s.(dragFrom := None)
        else s.(ads := ArrayMove(s.ads, from, to), dragFrom := None)
  }

  /** Corporate ads first: no corporate ad below a non-corporate one. */
  ghost predicate CorporateFirst(ads: seq<SlideAd>) {
    forall i, j :: 0 <= i < j < |ads| && ads[j].isMasterAd ==> ads[i].isMasterAd
  }

  /** A host can only start dragging a non-corporate ad. */
  lemma HostDragsOwnAdsOnly(s: State, index: nat)
    requires index < |s.ads| && !s.isMaster
    requires DragStart(s, index).dragFrom == Some(index) && s.dragFrom != Some(index)
    ensures !s.ads[index].isMasterAd
  {
  }

  /** When a host drags a host ad, the drop keeps corporate ads on top. */
  lemma HostDropKeepsCorporateFirst(s: State, to: nat)
    requires to < |s.ads| && !s.isMaster && s.reorderMode
    requires s.dragFrom.Some? && s.dragFrom.value < |s.ads|
    requires !s.ads[s.dragFrom.value].isMasterAd && s.ads[s.dragFrom.value].isHostAd
    requires CorporateFirst(s.ads)
    ensures CorporateFirst(Drop(s, to).ads)
  {
    var from := s.dragFrom.value;
    if !SnapsBack(s, from, to) {
      var r := ArrayMove(s.ads, from, to);
      assert !s.ads[to].isMasterAd || to >= from;
      forall i, j | 0 <= i < j < |r| && r[j].isMasterAd ensures r[i].isMasterAd {
        ArrayMoveShifts(s.ads, from, to, i);
        ArrayMoveShifts(s.ads, from, to, j);
      }
    }
  }

  /* ------------------------------------------------------------------ saving */

  /** A host's save skips corporate rows. */
  predicate MayWrite(a: SlideAd, isMaster: bool) {
    isMaster || !a.isMasterAd
  }

  /** One `update({ order_index })` request. */
  datatype OrderUpdate = OrderUpdate(id: string, orderIndex: nat)

  /** The requests `saveOrder` sends for the rows from `start` on: each writable row gets
      its list position. */
  function OrderUpdates(ads: seq<SlideAd>, isMaster: bool, start: nat): (u: seq<OrderUpdate>)
    requires start <= |ads|
    ensures forall k :: 0 <= k < |u| ==>
      start <= u[k].orderIndex < |ads| && u[k].id == ads[u[k].orderIndex].id &&
      MayWrite(ads[u[k].orderIndex], isMaster)
    ensures forall k, l :: 0 <= k < l < |u| ==> u[k].orderIndex < u[l].orderIndex
    decreases |ads| - start
  {
    if start == |ads| then []
    else
      var rest := OrderUpdates(ads, isMaster, start + 1);
      if MayWrite(ads[start], isMaster) then [OrderUpdate(ads[start].id, start)] + rest
      else rest
  }

  /** Every writable row from `start` on gets a request. */
  lemma {:induction false} OrderUpdatesComplete(ads: seq<SlideAd>, isMaster: bool, start: nat, i: nat)
    requires start <= i < |ads| && MayWrite(ads[i], isMaster)
    ensures exists k :: (0 <= k < |OrderUpdates(ads, isMaster, start)| &&
                         OrderUpdates(ads, isMaster, start)[k].orderIndex == i)
    decreases |ads| - start
  {
    var u := OrderUpdates(ads, isMaster, start);
    if i == start {
      assert u[0].orderIndex == i;
    } else {
      OrderUpdatesComplete(ads, isMaster, start + 1, i);
      var rest := OrderUpdates(ads, isMaster, start + 1);
      var k :| 0 <= k < |rest| && rest[k].orderIndex == i;
      if MayWrite(ads[start], isMaster) {
        assert u[k + 1] == rest[k];
      }
    }
  }

  /** What `saveOrder` sends: every writable row, numbered by its position. */
  function SaveOrder(s: State): (u: seq<OrderUpdate>) {
    OrderUpdates(s.ads, s.isMaster, 0)
  }

  /** A corporate user's save numbers every row by its position. */
  lemma {:induction false} MasterRenumbersAll(ads: seq<SlideAd>, start: nat)
    requires start <= |ads|
    ensures |OrderUpdates(ads, true, start)| == |ads| - start
    ensures forall k :: 0 <= k < |ads| - start ==>
      OrderUpdates(ads, true, start)[k] == OrderUpdate(ads[start + k].id, start + k)
    decreases |ads| - start
  {
    if start < |ads| {
      MasterRenumbersAll(ads, start + 1);
      var rest := OrderUpdates(ads, true, start + 1);
      assert OrderUpdates(ads, true, start) == [OrderUpdate(ads[start].id, start)] + rest;
      forall k | 0 < k < |ads| - start
        ensures OrderUpdates(ads, true, start)[k] == OrderUpdate(ads[start + k].id, start + k)
      {
        assert OrderUpdates(ads, true, start)[k] == rest[k - 1];
      }
    }
  }

  /** A corporate user renumbers every row; a host's requests never touch a corporate ad. */
  lemma SaveOrderScope(s: State)
    ensures s.isMaster ==> (|SaveOrder(s)| == |s.ads| &&
      forall k :: 0 <= k < |s.ads| ==> SaveOrder(s)[k] == OrderUpdate(s.ads[k].id, k))
    ensures !s.isMaster ==> forall k :: 0 <= k < |SaveOrder(s)| ==>
      !s.ads[SaveOrder(s)[k].orderIndex].isMasterAd
  {
    if s.isMaster {
      MasterRenumbersAll(s.ads, 0);
    }
  }

  /* ------------------------------------------------------------------ delete, upload */

  /** The requests `deleteAd` makes: the row, and the stored file when it has a path. */
  datatype Deletion = Deletion(rowId: string, file: Option<string>)

  function DeleteAd(a: SlideAd, isMaster: bool): (d: Option<Deletion>)
    ensures d.Some? <==> MayWrite(a, isMaster)
    ensures d.Some? ==> d.value.rowId == a.id
    ensures d.Some? ==> (d.value.file.Some? <==> a.storagePath != "")
  {
    if !isMaster && a.isMasterAd then None
    else Some(Deletion(a.id, if a.storagePath != "" then Some(a.storagePath) else None))
  }

  /** The row `handleFileUpload` inserts. */
  datatype NewAd = NewAd(
    hostProfileId: Option<string>,
    masterId: Option<string>,
    url: string,
    mediaType: MediaType,
    storagePath: string,
    orderIndex: nat)

  /** `file.name.split('.').pop()`: the text after the last dot, or the whole name. */
  function Extension(fileName: string): (ext: string)
    ensures forall i :: 0 <= i < |ext| ==> ext[i] != '.'
    ensures |ext| <= |fileName| && fileName[|fileName| - |ext|..] == ext
    ensures |ext| < |fileName| ==> fileName[|fileName| - |ext| - 1] == '.'
  {
    JsText.LastPiece(fileName, '.');
    var parts := JsText.SplitOn(fileName, '.');
    parts[|parts| - 1]
  }

  /** A name with a dot: the extension is what follows the last dot. */
  lemma ExtensionAfterDot(stem: string, ext: string)
    requires forall i :: 0 <= i < |ext| ==> ext[i] != '.'
    ensures Extension(stem + "." + ext) == ext
  {
    var e := Extension(stem + "." + ext);
    var s := stem + "." + ext;
    assert s[|s| - |ext|..] == ext && s[|s| - |ext| - 1] == '.';
    assert forall k :: |s| - |e| <= k < |s| ==> s[k] != '.' by {
      forall k | |s| - |e| <= k < |s| ensures s[k] != '.' {
        assert s[k] == e[k - (|s| - |e|)];
      }
    }
    assert forall k :: |s| - |ext| <= k < |s| ==> s[k] != '.' by {
      forall k | |s| - |ext| <= k < |s| ensures s[k] != '.' {
        assert s[k] == ext[k - (|s| - |ext|)];
      }
    }
    assert |e| <= |ext|;
    assert |e| >= |ext|;
  }

  /** A name without a dot is its own extension. */
  lemma {:induction false} ExtensionNoDot(fileName: string)
    requires forall i :: 0 <= i < |fileName| ==> fileName[i] != '.'
    ensures Extension(fileName) == fileName
  {
    JsText.NoSeparatorSplit(fileName, '.');
  }

  /** `${host.id}/${uuid}.${ext}`. */
  function UploadPath(hostId: string, uuid: string, fileName: string): string {
    hostId + "/" + uuid + "." + Extension(fileName)
  }

  /** An upload: no file or a failed storage upload inserts nothing. A corporate user's
      ad belongs to the tenant, a host's to the host; a MIME type starting with `video` makes a video; the
      new ad goes after the current list. */
  function Upload(hostId: string, isMaster: bool, adsCount: nat, file: Option<(string, string)>,
                  uuid: string, uploaded: bool, publicUrl: string): (row: Option<NewAd>)
    ensures file.None? || !uploaded ==> row.None?
    ensures row.Some? ==> (row.value.hostProfileId.Some? != row.value.masterId.Some?)
    ensures row.Some? ==> (if isMaster then row.value.masterId else row.value.hostProfileId) == Some(hostId)
    ensures row.Some? ==> (row.value.mediaType == Video <==> JsText.StartsWith(file.value.1, "video"))
    ensures row.Some? ==> row.value.orderIndex == adsCount
  {
    match file
    case None => None
    case Some(f) =>
      var (name, mime) := f;
      if !uploaded then None
      else Some(NewAd(
        if isMaster then None else Some(hostId),
        if isMaster then Some(hostId) else None,
        publicUrl,
        if JsText.StartsWith(mime, "video") then Video else Image,
        UploadPath(hostId, uuid, name),
        adsCount))
  }

  /* ------------------------------------------------------------------ settings */

  /** The raw `trigger_interval` column: missing, or a value `Number` turns into `n`. */
  function IntervalOf(column: Option<Num>): (k: int)
    ensures k != 0
    ensures column.Some? && NumTruthy(column.value) ==> k == column.value.i
    ensures column.None? || !NumTruthy(column.value) ==> k == 8
  {
    NumOr(column.GetOr(Int(8)), 8)
  }

  /** `Number(null)` is `0`: the manager's `Number(x ?? 8) || 8` and the injector's
      `Number(x) || 8` read the same interval from the same row. */
  lemma IntervalAgreesWithInjector(column: Option<Num>)
    ensures IntervalOf(column) == NumOr(if column.Some? then column.value else Int(0), 8)
  {
  }

  /** The host settings the dialog shows: unchanged without a row. */
  datatype Settings = Settings(injectorEnabled: bool, triggerInterval: int, continuousMode: bool)

  datatype SettingsRow = SettingsRow(injectorEnabled: Option<bool>, triggerInterval: Option<Num>, continuousMode: Option<bool>)

  function LoadSettings(current: Settings, row: Option<SettingsRow>): (r: Settings)
    ensures row.None? ==> r == current
    ensures row.Some? ==> (r.injectorEnabled == BoolOf(row.value.injectorEnabled)
      && r.triggerInterval == IntervalOf(row.value.triggerInterval)
      && r.continuousMode == BoolOf(row.value.continuousMode))
  {
    match row
    case None => current
    case Some(d) => Settings(BoolOf(d.injectorEnabled), IntervalOf(d.triggerInterval), BoolOf(d.continuousMode))
  }
}
