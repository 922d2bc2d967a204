/** The fan wall actions (lib/actions/fan_walls.ts): the broadcast envelope, the wall
    created by `createFanWall`, the cleaning of a settings update and the broadcasts that
    follow it, and the live/inactive toggle. The database result of each call is an input:
    `dbError` says whether the query reported an error. */
module FanWallActions {
  import opened JsCore
  import opened JsText

  /** A field value as the actions see it at run time. */
  datatype Value = Undefined | Null | Str(s: string) | Bool(b: bool)

  /** The column names the actions and their broadcasts use. */
  datatype Key = Id | HostId | Title | HostTitle | Status | LayoutType | TransitionSpeed | PostTransition
               | Countdown | CountdownActive | BackgroundType | BackgroundValue | CreatedAt | UpdatedAt

  /** A plain object: an absent key and a key holding `undefined` are different. */
  type Object = map<Key, Value>

  predicate Truthy(v: Value) {
    match v
    case Str(s) => s != ""
    case Bool(b) => b
    case _ => false
  }

  /** `o.key`: an absent key reads as `undefined`. */
  function Get(o: Object, key: Key): (v: Value)
    ensures key in o ==> v == o[key]
    ensures key !in o ==> v == Undefined
  {
    if key in o then o[key] else Undefined
  }

  /** `String(v)`. */
  function ToText(v: Value): string {
    match v
    case Undefined => "undefined"
    case Null => "null"
    case Str(s) => s
    case Bool(b) => if b then "true" else "false"
  }

  /** `{ ...under, ...over }`: the keys of both, `over` winning. */
  function Spread(under: Object, over: Object): (r: Object)
    ensures forall k :: k in r <==> k in under || k in over
    ensures forall k :: k in over ==> r[k] == over[k]
    ensures forall k :: k in under && k !in over ==> r[k] == under[k]
  {
    map k | k in under.Keys + over.Keys :: if k in over then over[k] else under[k]
  }

  datatype Message = Message(event: string, payload: Object)

  /** `broadcast(event, payload)`: the payload goes out with its `id` replaced by
      `String(id).trim()`; a missing id is sent as `"undefined"`. */
  function Broadcast(event: string, payload: Object): (m: Message)
    ensures m.event == event
    ensures Id in m.payload && forall k :: k in m.payload <==> k in payload || k == Id
    ensures m.payload[Id] == Str(Trim(ToText(Get(payload, Id))))
    ensures forall k :: k in payload && k != Id ==> m.payload[k] == payload[k]
  {
    Message(event, payload[Id := Str(Trim(ToText(Get(payload, Id))))])
  }

  /** Re-sending a broadcast payload sends it unchanged: the id is already trimmed. */
  lemma BroadcastStable(event: string, payload: Object)
    ensures Broadcast(event, Broadcast(event, payload).payload) == Broadcast(event, payload)
  {
    var t := Trim(ToText(Get(payload, Id)));
    var p := payload[Id := Str(t)];
    assert Get(p, Id) == Str(t) && ToText(Str(t)) == t;
    TrimIdempotent(ToText(Get(payload, Id)));
    assert p[Id := Str(t)] == p;
  }

  /* ------------------------------------------------------------------ createFanWall */

  const DefaultTitle: string := "Untitled Fan Zone Wall"
  const DefaultBackground: string := "linear-gradient(135deg,#0d47a1,#1976d2)"

  /** The row `createFanWall` inserts; the two timestamps are the clock reading `now`. */
  datatype NewWall = NewWall(
    hostId: string,
    title: string,
    status: string,
    layoutType: string,
    transitionSpeed: string,
    postTransition: string,
    countdown: Option<string>,
    countdownActive: bool,
    backgroundType: string,
    backgroundValue: string,
    createdAt: string,
    updatedAt: string)

  /** `title || 'Untitled Fan Zone Wall'`, an inactive single-highlight wall with the
      default gradient and no countdown. */
  function NewWallFor(hostId: string, title: Option<string>, now: string): (w: NewWall)
    ensures StrTruthy(title) ==> w.title == title.value
    ensures !StrTruthy(title) ==> w.title == DefaultTitle
    ensures w.hostId == hostId && w.status == "inactive" && w.layoutType == "singleHighlight"
    ensures w.countdown.None? && !w.countdownActive
    ensures w.backgroundType == "gradient" && w.backgroundValue == DefaultBackground
  {
    NewWall(hostId, StrOrDefault(title, DefaultTitle), "inactive", "singleHighlight", "Medium",
            "Fade In / Fade Out", None, false, "gradient", DefaultBackground, now, now)
  }

  /** The wall as the object spread into the `wall_created` payload; it has no `id`. */
  function WallObject(w: NewWall): (o: Object)
    ensures Id !in o && Title in o && o[Title] == Str(w.title)
  {
    map[
      HostId := Str(w.hostId), Title := Str(w.title), Status := Str(w.status),
      LayoutType := Str(w.layoutType), TransitionSpeed := Str(w.transitionSpeed),
      PostTransition := Str(w.postTransition),
      Countdown := (if w.countdown.Some? then Str(w.countdown.value) else Null),
      CountdownActive := Bool(w.countdownActive), BackgroundType := Str(w.backgroundType),
      BackgroundValue := Str(w.backgroundValue), CreatedAt := Str(w.createdAt),
      UpdatedAt := Str(w.updatedAt)]
  }

  datatype CreateResult = CreateFailed | Created(row: Object, message: Message)

  /** `createFanWall`: an insert error or a missing row throws; otherwise the inserted
      row is returned and `wall_created` is broadcast with the new row's id. */
  function CreateFanWall(hostId: string, title: Option<string>, now: string, dbError: bool, inserted: Option<Object>)
    : (r: CreateResult)
    ensures r.CreateFailed? <==> dbError || inserted.None?
    ensures r.Created? ==> r.row == inserted.value
    ensures r.Created? ==> r.message.event == "wall_created"
    ensures r.Created? ==> Id in r.message.payload && Title in r.message.payload
    ensures r.Created? ==>
      r.message.payload[Id] == Str(Trim(ToText(Get(inserted.value, Id))))
    ensures r.Created? ==>
      r.message.payload[Title] == Str(NewWallFor(hostId, title, now).title)
  {
    if dbError || inserted.None? then CreateFailed
    else
      var w := NewWallFor(hostId, title, now);
      Created(inserted.value, Broadcast("wall_created", WallObject(w)[Id := Get(inserted.value, Id)]))
  }

  /* ------------------------------------------------------------------ updateFanWallSettings */

  /** The filter of `cleanFields`: `undefined`, `null` and `''` are dropped. */
  predicate Kept(v: Value) {
    v != Undefined && v != Null && v != Str("")
  }

  /** The map of `cleanFields`: a `none` countdown becomes `null`, a nullish
      `countdown_active` becomes `false` (it cannot be nullish after the filter). */
  function CleanValue(key: Key, v: Value): Value {
    if key == Countdown then (if v == Str("none") then Null else v)
    else if key == CountdownActive then (if v == Null || v == Undefined then Bool(false) else v)
    else v
  }

  /** `cleanFields`: the kept entries, a `none` countdown as `null`, nothing added. */
  function CleanFields(fields: Object): (r: Object)
    ensures forall k :: k in r <==> k in fields && Kept(fields[k])
    ensures forall k :: k in r ==> (r[k] == Null <==> k == Countdown && fields[k] == Str("none"))
    ensures forall k :: k in r && r[k] != Null ==> r[k] == fields[k]
  {
    map k | k in fields && Kept(fields[k]) :: CleanValue(k, fields[k])
  }

  /** Cleaning the cleaned fields again drops exactly the `null` left by a `none`
      countdown. */
  lemma CleanTwice(fields: Object)
    ensures Get(fields, Countdown) == Str("none") ==>
      CleanFields(CleanFields(fields)) == CleanFields(fields) - {Countdown}
    ensures Get(fields, Countdown) != Str("none") ==>
      CleanFields(CleanFields(fields)) == CleanFields(fields)
  {
    var c := CleanFields(fields);
    var cc := CleanFields(c);
    if Get(fields, Countdown) == Str("none") {
      assert cc.Keys == (c - {Countdown}).Keys;
      assert cc == c - {Countdown};
    } else {
      assert forall k :: k in c ==> Kept(c[k]);
      assert cc.Keys == c.Keys;
      assert cc == c;
    }
  }

  /** `{ id, countdown, countdown_active: true }`. */
  function StartedPayload(id: string, countdown: Value): (q: Object)
    ensures Id in q && q[Id] == Str(id)
    ensures Countdown in q && q[Countdown] == countdown
    ensures CountdownActive in q && q[CountdownActive] == Bool(true)
  {
    map[Id := Str(id), Countdown := countdown, CountdownActive := Bool(true)]
  }

  /** With no `id` among the fields, the spread keeps the wall's own id. */
  lemma IdSurvives(id: string, fields: Object)
    ensures Id !in fields ==> Get(Spread(map[Id := Str(id)], CleanFields(fields)), Id) == Str(id)
  {
    if Id !in fields {
      assert Id !in CleanFields(fields);
    }
  }

  datatype UpdateResult = UpdateFailed | Updated(update: Object, messages: seq<Message>)

  /** `updateFanWallSettings`: on success the cleaned fields are written (the
      `updated_at` clock value is left out), `wall_updated` is broadcast with them and,
      when the cleaned `countdown_active` and `countdown` are both truthy,
      `countdown_started` follows. A query error throws before any broadcast. */
  function UpdateSettings(id: string, fields: Object, dbError: bool): (r: UpdateResult)
    ensures r.UpdateFailed? <==> dbError
    ensures r.Updated? ==> r.update == CleanFields(fields)
    ensures r.Updated? ==> 1 <= |r.messages| <= 2 && r.messages[0].event == "wall_updated"
    ensures r.Updated? ==> forall k :: k in r.messages[0].payload <==> k in CleanFields(fields) || k == Id
    ensures r.Updated? && Id !in fields ==> r.messages[0].payload[Id] == Str(Trim(id))
    ensures r.Updated? && |r.messages| == 2 ==>
      r.messages[1].event == "countdown_started" && CountdownActive in r.messages[1].payload &&
      r.messages[1].payload[CountdownActive] == Bool(true) && Countdown in r.messages[1].payload &&
      r.messages[1].payload[Countdown] == Get(CleanFields(fields), Countdown)
  {
    if dbError then UpdateFailed
    else
      var clean := CleanFields(fields);
      var sp := Spread(map[Id := Str(id)], clean);
      IdSurvives(id, fields);
      var updated := Broadcast("wall_updated", sp);
      if Truthy(Get(clean, CountdownActive)) && Truthy(Get(clean, Countdown)) then
        var started := Broadcast("countdown_started", StartedPayload(id, Get(clean, Countdown)));
        Updated(clean, [updated, started])
      else
        Updated(clean, [updated])
  }

  /** After cleaning, `countdown_active` is as truthy as before, and the countdown is
      truthy when it was and was not `none`. */
  lemma CleanedTruthy(fields: Object)
    ensures Truthy(Get(CleanFields(fields), CountdownActive)) <==> Truthy(Get(fields, CountdownActive))
    ensures Truthy(Get(CleanFields(fields), Countdown)) <==>
      Truthy(Get(fields, Countdown)) && Get(fields, Countdown) != Str("none")
  {
    var clean := CleanFields(fields);
    if CountdownActive in fields && Kept(fields[CountdownActive]) {
      assert CountdownActive in clean;
    }
    if Countdown in fields && Kept(fields[Countdown]) {
      assert Countdown in clean;
    }
  }

  /** `countdown_started` is broadcast exactly when the update carries a truthy
      `countdown_active` and a countdown other than `none`. */
  lemma CountdownStartedIff(id: string, fields: Object)
    ensures |UpdateSettings(id, fields, false).messages| == 2 <==>
      Truthy(Get(fields, CountdownActive)) && Truthy(Get(fields, Countdown)) &&
      Get(fields, Countdown) != Str("none")
  {
    CleanedTruthy(fields);
  }

  /** `countdown_started` carries the countdown of the update. */
  lemma CountdownStartedCarries(id: string, fields: Object)
    requires |UpdateSettings(id, fields, false).messages| == 2
    ensures Countdown in fields && Countdown in UpdateSettings(id, fields, false).messages[1].payload
    ensures UpdateSettings(id, fields, false).messages[1].payload[Countdown] == fields[Countdown]
  {
    CleanedTruthy(fields);
  }

  /* ------------------------------------------------------------------ toggleFanWallStatus */

  /** `{ id, status }`. */
  function StatusPayload(id: string, status: string): (q: Object)
    ensures Id in q && q[Id] == Str(id)
    ensures Status in q && q[Status] == Str(status)
  {
    map[Id := Str(id), Status := Str(status)]
  }

  datatype Toggle = Toggle(status: string, messages: seq<Message>)

  /** `toggleFanWallStatus`: the status written is `live` or `inactive`; a query error is
      caught and nothing is broadcast; otherwise `wall_status_changed` is broadcast,
      followed by `countdown_finished` when going live. */
  function ToggleStatus(id: string, makeLive: bool, dbError: bool): (r: Toggle)
    ensures r.status == (if makeLive then "live" else "inactive")
    ensures dbError ==> r.messages == []
    ensures !dbError ==> |r.messages| >= 1 && r.messages[0] == Broadcast("wall_status_changed", StatusPayload(id, r.status))
  {
    var status := if makeLive then "live" else "inactive";
    if dbError then Toggle(status, [])
    else
      var changed := Broadcast("wall_status_changed", StatusPayload(id, status));
      if makeLive then
        Toggle(status, [changed, Broadcast("countdown_finished", StatusPayload(id, "live"))])
      else
        Toggle(status, [changed])
  }

  /** `countdown_finished` is sent exactly when a wall goes live without an error. */
  lemma CountdownFinishedIff(id: string, makeLive: bool, dbError: bool)
    ensures (exists m :: m in ToggleStatus(id, makeLive, dbError).messages && m.event == "countdown_finished")
        <==> makeLive && !dbError
  {
    var r := ToggleStatus(id, makeLive, dbError);
    if makeLive && !dbError {
      assert r.messages[1] in r.messages;
    }
  }

  /** `deleteFanWall`: `wall_deleted` is broadcast unless the delete reports an error. */
  function DeleteFanWall(id: string, dbError: bool): (messages: seq<Message>)
    ensures dbError <==> messages == []
    ensures !dbError ==> messages == [Broadcast("wall_deleted", map[Id := Str(id)])]
  {
    if dbError then [] else [Broadcast("wall_deleted", map[Id := Str(id)])]
  }
}
