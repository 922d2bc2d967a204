/** The prize wheel shown in the dashboard (components/PrizeWheelModal.tsx): sixteen
    tiles filled from the entry list in order, A/B tile colours, and a photo or the
    entrant's initials on each. The 3-D scene and the spin are not part of this model. */
module WheelModal {
  import opened JsCore
  import opened JsText
  import WheelTiles

  const TileCount: nat := 16

  /** An entry as this component reads it. */
  datatype ModalEntry = ModalEntry(photoUrl: Option<string>, fullName: Option<string>)

  datatype Content = Photo(url: string) | Initials(text: string)

  /** `.map(c => c[0]).join('')`: the first character of every piece; an empty piece
      adds nothing. */
  function Heads(words: seq<string>): (r: string)
    ensures |r| <= |words|
  {
    if |words| == 0 then ""
    else (if |words[0]| > 0 then [words[0][0]] else "") + Heads(words[1..])
  }

  /** The initials: the upper-cased first letters of the space-separated words, or `--`
      when there are none (also when there is no name). */
  function InitialsOf(fullName: Option<string>): (r: string)
    ensures r != ""
    ensures fullName.None? ==> r == "--"
    ensures fullName.Some? && Heads(SplitOn(fullName.value, ' ')) == "" ==> r == "--"
    ensures fullName.Some? && Heads(SplitOn(fullName.value, ' ')) != "" ==>
      r == ToUpper(Heads(SplitOn(fullName.value, ' ')))
  {
    match fullName
    case None => "--"
    case Some(n) =>
      var h := ToUpper(Heads(SplitOn(n, ' ')));
      if h == "" then "--" else h
  }

  /** Words without spaces joined by single spaces give back the upper-cased first letter
      of each word, in order. */
  lemma InitialsOfWords(words: seq<string>)
    requires |words| >= 1
    requires forall k :: 0 <= k < |words| ==> |words[k]| > 0
    requires forall k, i :: 0 <= k < |words| && 0 <= i < |words[k]| ==> words[k][i] != ' '
    ensures |InitialsOf(Some(Join(words, ' ')))| == |words|
    ensures forall k :: 0 <= k < |words| ==> InitialsOf(Some(Join(words, ' ')))[k] == Upper(words[k][0])
  {
    SplitOfJoin(words, ' ');
    HeadsOfWords(words);
  }

  lemma {:induction false} HeadsOfWords(words: seq<string>)
    requires forall k :: 0 <= k < |words| ==> |words[k]| > 0
    ensures |Heads(words)| == |words| && forall k :: 0 <= k < |words| ==> Heads(words)[k] == words[k][0]
    decreases |words|
  {
    if |words| > 0 {
      HeadsOfWords(words[1..]);
    }
  }

  /** A photo when the entry has a non-empty URL, initials otherwise; a missing entry
      shows `--`. */
  function ContentFor(e: Option<ModalEntry>): (c: Content)
    ensures e.Some? && StrTruthy(e.value.photoUrl) ==> c == Photo(e.value.photoUrl.value)
    ensures e.None? ==> c == Initials("--")
    ensures e.Some? && !StrTruthy(e.value.photoUrl) ==> c == Initials(InitialsOf(e.value.fullName))
  {
    match e
    case None => Initials("--")
    case Some(x) => if StrTruthy(x.photoUrl) then Photo(x.photoUrl.value) else Initials(InitialsOf(x.fullName))
  }

  datatype Tile = Tile(card: WheelTiles.Card, content: Content)

  /** The sixteen tiles: tile `i` takes entry `i` when there is one (a list that is not an
      array counts as empty, entries past sixteen are not shown) and the A/B card of its
      position. */
  function Tiles(entries: Option<seq<ModalEntry>>, p: WheelTiles.Palette): (r: seq<Tile>)
    ensures |r| == TileCount
    ensures forall i :: 0 <= i < TileCount ==> r[i].card == WheelTiles.CardFor(i, p)
    ensures forall i :: 0 <= i < TileCount && i < |entries.GetOr([])| ==>
      r[i].content == ContentFor(Some(entries.GetOr([])[i]))
    ensures forall i :: 0 <= i < TileCount && i >= |entries.GetOr([])| ==> r[i].content == Initials("--")
  {
    var safe := entries.GetOr([]);
    seq(TileCount, i requires 0 <= i < TileCount =>
      Tile(WheelTiles.CardFor(i, p), ContentFor(if i < |safe| then Some(safe[i]) else None)))
  }
}
