/** The prize wheel's tiles (app/prizewheel/components/wall/ActiveWallbackup.tsx): the
    approved entries it keeps, the random selection of at most 16 it makes once per
    session, what each tile shows and the A/B tile colours. `Math.random` is the
    `draw` parameter; the 3-D scene and the spin are not part of this model. */
module WheelTiles {
  import opened JsCore
  import opened JsText
  import Lists

  const TileCount: nat := 16
  const MaxSelected: nat := 16

  datatype Guest = Guest(firstName: Option<string>, lastName: Option<string>)

  /** A `wheel_entries` row with its joined guest profile. */
  datatype RawEntry = RawEntry(
    status: Option<string>,
    photoUrl: Option<string>,
    firstName: Option<string>,
    lastName: Option<string>,
    guest: Option<Guest>)

  /** An entry as the tiles use it; every present field is non-empty. */
  datatype Entry = Entry(photo: Option<string>, first: Option<string>, last: Option<string>)

  predicate Approved(e: RawEntry) {
    e.status == Some("approved")
  }

  /** `x || null` on an optional string. */
  function Truthy(x: Option<string>): (r: Option<string>)
    ensures r.Some? <==> StrTruthy(x)
    ensures r.Some? ==> r == x
  {
    if StrTruthy(x) then x else None
  }

  function GuestFirst(e: RawEntry): Option<string> {
    if e.guest.Some? then e.guest.value.firstName else None
  }

  function GuestLast(e: RawEntry): Option<string> {
    if e.guest.Some? then e.guest.value.lastName else None
  }

  /** One approved entry: a photo URL only when it is not blank (kept untrimmed), names
      from the entry, else from the guest profile, else `null`. */
  function Clean(e: RawEntry): (r: Entry)
    ensures r.photo.Some? <==> e.photoUrl.Some? && Trim(e.photoUrl.value) != ""
    ensures r.photo.Some? ==> r.photo == e.photoUrl
    ensures StrTruthy(e.firstName) ==> r.first == e.firstName
    ensures !StrTruthy(e.firstName) ==> r.first == Truthy(GuestFirst(e))
    ensures StrTruthy(e.lastName) ==> r.last == e.lastName
    ensures !StrTruthy(e.lastName) ==> r.last == Truthy(GuestLast(e))
    ensures r.first.Some? ==> r.first.value != "" && (r.last.Some? ==> r.last.value != "")
  {
    Entry(if e.photoUrl.Some? && Trim(e.photoUrl.value) != "" then e.photoUrl else None,
          Truthy(StrOr(e.firstName, GuestFirst(e))),
          Truthy(StrOr(e.lastName, GuestLast(e))))
  }

  /** `normalizeEntries`: `[]` for a list that is not an array, else the approved
      entries, cleaned, in order. */
  function Normalize(list: Option<seq<RawEntry>>): (r: seq<Entry>)
    ensures list.None? ==> r == []
    ensures list.Some? ==> |r| <= |list.value|
    ensures forall x :: x in r ==> exists e :: e in list.GetOr([]) && Approved(e) && x == Clean(e)
  {
    match list
    case None => []
    case Some(s) =>
      var kept := Lists.Filter(s, Approved);
      var r := Lists.Map(kept, Clean);
      assert forall x :: x in r ==> exists e :: e in s && Approved(e) && x == Clean(e) by {
        forall x | x in r ensures exists e :: e in s && Approved(e) && x == Clean(e) {
          var k :| 0 <= k < |r| && r[k] == x;
          assert kept[k] in kept;
        }
      }
      r
  }

  /** Normalizing a list normalizes each part in turn. */
  lemma NormalizeConcat(a: seq<RawEntry>, b: seq<RawEntry>)
    ensures Normalize(Some(a + b)) == Normalize(Some(a)) + Normalize(Some(b))
  {
    Lists.FilterConcat(a, b, Approved);
    Lists.MapConcat(Lists.Filter(a, Approved), Lists.Filter(b, Approved), Clean);
  }

  /** A single entry is kept, cleaned, exactly when it is approved. */
  lemma NormalizeOne(e: RawEntry)
    ensures Normalize(Some([e])) == if Approved(e) then [Clean(e)] else []
  {
    Lists.FilterOne(e, Approved);
  }

  /** `shuffleArray`: a Fisher-Yates shuffle of a copy, position `i` swapping with
      `draw(i) % (i + 1)`. */
  method Shuffle<T>(arr: seq<T>, draw: nat -> nat) returns (r: seq<T>)
    ensures |r| == |arr| && multiset(r) == multiset(arr)
  {
    r := arr;
    var i: int := |r| - 1;
    while i > 0
      invariant -1 <= i < |r| && |r| == |arr|
      invariant multiset(r) == multiset(arr)
      decreases i
    {
      var j := draw(i) % (i + 1);
      r := r[i := r[j]][j := r[i]];
      i := i - 1;
    }
  }

  /** What one tile shows: its image holder's CSS background and text, and its name. */
  datatype Face = Face(imageCss: string, imageText: string, name: string)

  /** `first L.` with the last name's first letter in upper case, `first .` without a last
      name, and nothing without a first name. */
  function NameLabel(first: Option<string>, last: Option<string>): (r: string)
    ensures r == "" <==> !StrTruthy(first)
    ensures StrTruthy(first) ==> StartsWith(r, first.value) && |r| >= |first.value| + 2
    ensures StrTruthy(first) ==> r[|first.value|] == ' ' && r[|r| - 1] == '.'
    ensures StrTruthy(first) && StrTruthy(last) ==> |r| == |first.value| + 3 && r[|first.value| + 1] == Upper(last.value[0])
    ensures StrTruthy(first) && !StrTruthy(last) ==> |r| == |first.value| + 2
  {
    if !StrTruthy(first) then ""
    else
      var ln := if StrTruthy(last) then [Upper(last.value[0])] else "";
      first.value + " " + ln + "."
  }

  function FaceOf(e: Entry): (f: Face)
    ensures e.photo.Some? ==> f.imageText == "" && f.imageCss == "url(" + e.photo.value + ") center/cover no-repeat"
    ensures e.photo.None? ==> f.imageText == "IMG" && f.imageCss == "rgba(0,0,0,0.25)"
    ensures f.name == NameLabel(e.first, e.last)
  {
    if e.photo.Some? then Face("url(" + e.photo.value + ") center/cover no-repeat", "", NameLabel(e.first, e.last))
    else Face("rgba(0,0,0,0.25)", "IMG", NameLabel(e.first, e.last))
  }

  /** Tile `i` shows `selected[i % |selected|]`. */
  function TileFaces(selected: seq<Entry>, count: nat): (r: seq<Face>)
    requires |selected| > 0
    ensures |r| == count && forall i :: 0 <= i < count ==> r[i] == FaceOf(selected[i % |selected|])
  {
    seq(count, i requires 0 <= i < count => FaceOf(selected[i % |selected|]))
  }

  /** `assignEntriesToTiles` on `tiles` tiles. No entries: nothing happens. Otherwise the
      session's selection is made if there is none yet (the first 16 of a shuffle) and
      reused if there is, and every tile is filled from it. */
  method Assign(selected: Option<seq<Entry>>, normalized: seq<Entry>, tiles: nat, draw: nat -> nat)
    returns (sel: Option<seq<Entry>>, faces: Option<seq<Face>>)
    requires selected.Some? ==> 0 < |selected.value| <= MaxSelected
    ensures normalized == [] ==> sel == selected && faces.None?
    ensures normalized != [] ==> sel.Some? && 0 < |sel.value| <= MaxSelected
    ensures normalized != [] ==> faces == Some(TileFaces(sel.value, tiles))
    ensures normalized != [] && selected.Some? ==> sel == selected
    ensures normalized != [] && selected.None? ==>
      |sel.value| == (if |normalized| < MaxSelected then |normalized| else MaxSelected) &&
      multiset(sel.value) <= multiset(normalized)
  {
    if normalized == [] {
      return selected, None;
    }
    sel := selected;
    if sel.None? {
      var shuffled := Shuffle(normalized, draw);
      var n := if |shuffled| < MaxSelected then |shuffled| else MaxSelected;
      assert shuffled == shuffled[..n] + shuffled[n..];
      sel := Some(shuffled[..n]);
    }
    faces := Some(TileFaces(sel.value, tiles));
  }

  /** A first selection holds only approved entries of the list. */
  lemma SelectedApproved(list: Option<seq<RawEntry>>, sel: seq<Entry>)
    requires multiset(sel) <= multiset(Normalize(list))
    ensures forall x :: x in sel ==> exists e :: e in list.GetOr([]) && Approved(e) && x == Clean(e)
  {
    forall x | x in sel ensures exists e :: e in list.GetOr([]) && Approved(e) && x == Clean(e) {
      assert x in multiset(Normalize(list));
    }
  }

  /** The tile colours and brightness the wheel chose: `|| '#ffffff'` and `?? 100`. */
  datatype Palette = Palette(colorA: string, colorB: string, brightA: int, brightB: int)

  function PaletteFor(colorA: Option<string>, colorB: Option<string>, brightA: Option<int>, brightB: Option<int>)
    : (p: Palette)
    ensures p.colorA == StrOrDefault(colorA, "#ffffff") && p.colorB == StrOrDefault(colorB, "#ffffff")
    ensures p.brightA == brightA.GetOr(100) && p.brightB == brightB.GetOr(100)
  {
    Palette(StrOrDefault(colorA, "#ffffff"), StrOrDefault(colorB, "#ffffff"), brightA.GetOr(100), brightB.GetOr(100))
  }

  datatype Card = Card(color: string, brightness: int)

  /** Even tiles take colour and brightness A, odd tiles B. */
  function CardFor(i: nat, p: Palette): (c: Card)
    ensures i % 2 == 0 ==> c == Card(p.colorA, p.brightA)
    ensures i % 2 == 1 ==> c == Card(p.colorB, p.brightB)
  {
    if i % 2 == 0 then Card(p.colorA, p.brightA) else Card(p.colorB, p.brightB)
  }
}
