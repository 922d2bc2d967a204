/** The fan wall options dialog (components/OptionsModalFanWall.tsx): the layout name
    canonicalisation, the dialog's initial values from the stored wall, and the update
    it saves. */
module FanWallOptions {
  import opened JsCore
  import opened JsText
  import Gradient
  import Backdrop

  datatype Layout = SingleHighlight | Grid2x2 | Grid4x2

  function LayoutName(l: Layout): string {
    match l
    case SingleHighlight => "singleHighlight"
    case Grid2x2 => "grid2x2"
    case Grid4x2 => "grid4x2"
  }

  /** `canonicalLayout`: a case-insensitive `2x2` wins over `4x2`; anything else,
      missing or empty included, is the single-highlight layout. */
  function CanonicalLayout(input: Option<string>): (r: Layout)
    ensures !StrTruthy(input) ==> r == SingleHighlight
    ensures StrTruthy(input) ==> (r == Grid2x2 <==> Contains(ToLower(input.value), "2x2"))
    ensures StrTruthy(input) ==>
      (r == Grid4x2 <==> !Contains(ToLower(input.value), "2x2") && Contains(ToLower(input.value), "4x2"))
  {
    if !StrTruthy(input) then SingleHighlight
    else
      var v := ToLower(input.value);
      if Contains(v, "2x2") then Grid2x2
      else if Contains(v, "4x2") then Grid4x2
      else SingleHighlight
  }

  /** A string without the character `t[k]` does not contain `t`. */
  lemma MissingChar(s: string, t: string, k: nat)
    requires k < |t| && forall i :: 0 <= i < |s| ==> s[i] != t[k]
    ensures !Contains(s, t)
  {
    if Contains(s, t) {
      var i := ContainsWitness(s, t);
      assert false;
    }
  }

  /** A string in which `c1` is never followed by `c2` does not contain `t` starting
      with them. */
  lemma {:induction false} MissingPair(s: string, t: string)
    requires |t| >= 2 && forall i :: 0 <= i < |s| - 1 ==> !(s[i] == t[0] && s[i + 1] == t[1])
    ensures !Contains(s, t)
    decreases |s|
  {
    assert !StartsWith(s, t) by {
      if |t| <= |s| {
        assert s[..|t|][0] == s[0] && s[..|t|][1] == s[1];
      }
    }
    if |s| > 0 {
      MissingPair(s[1..], t);
    }
  }

  /** Each canonical name reads back as its own layout. */
  lemma CanonicalOfName(l: Layout)
    ensures CanonicalLayout(Some(LayoutName(l))) == l
  {
    var n := LayoutName(l);
    var v := ToLower(n);
    assert |v| == |n|;
    match l
    case SingleHighlight =>
      assert forall i :: 0 <= i < |n| ==> n[i] != 'x' && n[i] != 'X';
      MissingChar(v, "2x2", 1);
      MissingChar(v, "4x2", 1);
    case Grid2x2 =>
      assert v[4] == '2' && v[5] == 'x' && v[6] == '2';
      assert v[4..7] == "2x2";
      ContainsAt(v, "2x2", 4);
    case Grid4x2 =>
      assert v[4] == '4' && v[5] == 'x' && v[6] == '2';
      assert v[4..7] == "4x2";
      ContainsAt(v, "4x2", 4);
      assert forall i :: 0 <= i < |v| ==> v[i] == Lower(n[i]);
      assert forall i :: 0 <= i < |v| - 1 ==> !(v[i] == '2' && v[i + 1] == 'x');
      MissingPair(v, "2x2");
  }

  /** Canonicalising twice is canonicalising once. */
  lemma CanonicalIdempotent(input: Option<string>)
    ensures CanonicalLayout(Some(LayoutName(CanonicalLayout(input)))) == CanonicalLayout(input)
  {
    CanonicalOfName(CanonicalLayout(input));
  }

  lemma LowerOfUpper(s: string)
    ensures ToLower(ToUpper(s)) == ToLower(s)
  {
    assert forall i :: 0 <= i < |s| ==> Lower(Upper(s[i])) == Lower(s[i]);
  }

  /** The layout name is read without regard to case. */
  lemma CanonicalIgnoresCase(s: string)
    ensures CanonicalLayout(Some(ToUpper(s))) == CanonicalLayout(Some(s))
  {
    LowerOfUpper(s);
  }

  /** The `fan_walls` columns the dialog reads. */
  datatype WallRow = WallRow(
    title: Option<string>,
    hostTitle: Option<string>,
    colorStart: Option<string>,
    colorEnd: Option<string>,
    gradientPos: Option<int>,
    backgroundBrightness: Option<int>,
    backgroundType: Option<string>,
    backgroundValue: Option<string>,
    postTransition: Option<string>,
    transitionSpeed: Option<string>,
    autoDeleteMinutes: Option<int>,
    countdown: Option<string>,
    layoutType: Option<string>)

  /** The dialog's local copy of the wall; the position and brightness sliders live in
      the backdrop. */
  datatype Local = Local(
    title: Option<string>,
    hostTitle: Option<string>,
    layoutType: string,
    postTransition: string,
    transitionSpeed: string,
    autoDeleteMinutes: int,
    countdown: string,
    backdrop: Backdrop.Backdrop)

  /** The initial local copy. The position falls back with `||` (a stored 0 becomes 60),
      the brightness and auto-delete minutes with `??` (a stored 0 stays). */
  function InitialLocal(w: WallRow): (l: Local)
    ensures l.backdrop.pos == IntOr(w.gradientPos, 60)
    ensures w.gradientPos == Some(0) ==> l.backdrop.pos == 60
    ensures l.backdrop.brightness == w.backgroundBrightness.GetOr(100)
    ensures w.backgroundBrightness == Some(0) ==> l.backdrop.brightness == 0
    ensures l.backdrop.colorStart == StrOrDefault(w.colorStart, "#0d47a1")
    ensures l.backdrop.colorEnd == StrOrDefault(w.colorEnd, "#1976d2")
    ensures l.backdrop.kind == StrOrDefault(w.backgroundType, "gradient")
    ensures !StrTruthy(w.backgroundValue) && !StrTruthy(w.backgroundType) ==> Backdrop.Previewed(l.backdrop)
    ensures StrTruthy(w.backgroundValue) ==> l.backdrop.value == w.backgroundValue.value
    ensures l.countdown == StrOrDefault(w.countdown, "none") && l.countdown != ""
    ensures l.autoDeleteMinutes == w.autoDeleteMinutes.GetOr(0)
    ensures l.layoutType == LayoutName(CanonicalLayout(w.layoutType))
  {
    var start := StrOrDefault(w.colorStart, "#0d47a1");
    var end := StrOrDefault(w.colorEnd, "#1976d2");
    var pos := IntOr(w.gradientPos, 60);
    var bright := w.backgroundBrightness.GetOr(100);
    var g := Gradient.BuildGradient(start, end, pos, bright);
    Local(w.title, w.hostTitle, LayoutName(CanonicalLayout(w.layoutType)),
          StrOrDefault(w.postTransition, "Fade In / Fade Out"), StrOrDefault(w.transitionSpeed, "Medium"),
          w.autoDeleteMinutes.GetOr(0), StrOrDefault(w.countdown, "none"),
          Backdrop.Backdrop(StrOrDefault(w.backgroundType, "gradient"), StrOrDefault(w.backgroundValue, g),
                            start, end, pos, bright))
  }

  /** The update written to `fan_walls` (the `updated_at` clock value is left out). */
  datatype Updates = Updates(
    title: Option<string>,
    hostTitle: Option<string>,
    layoutType: string,
    postTransition: string,
    transitionSpeed: string,
    countdown: Option<string>,
    countdownActive: bool,
    autoDeleteMinutes: int,
    backgroundType: string,
    backgroundValue: string,
    colorStart: string,
    colorEnd: string,
    gradientPos: int,
    backgroundBrightness: int)

  function Payload(l: Local, background: string): (u: Updates)
    ensures u.title == TrimOrNull(l.title) && u.hostTitle == TrimOrNull(l.hostTitle)
    ensures u.countdown.None? <==> l.countdown == "none"
    ensures u.countdown.Some? ==> u.countdown.value == l.countdown
    ensures !u.countdownActive
    ensures u.layoutType == LayoutName(CanonicalLayout(Some(l.layoutType)))
    ensures u.backgroundValue == background
    ensures u.gradientPos == l.backdrop.pos && u.backgroundBrightness == l.backdrop.brightness
  {
    Updates(TrimOrNull(l.title), TrimOrNull(l.hostTitle), LayoutName(CanonicalLayout(Some(l.layoutType))),
            l.postTransition, l.transitionSpeed, NoneToNull(l.countdown), false, l.autoDeleteMinutes,
            l.backdrop.kind, background, l.backdrop.colorStart, l.backdrop.colorEnd,
            l.backdrop.pos, l.backdrop.brightness)
  }

  /** `handleSave` as written: a gradient is rebuilt and brightened a second time. */
  function SaveAsWritten(l: Local): (u: Updates)
    ensures u.backgroundValue == Backdrop.FanWallSavedAsWritten(l.backdrop)
    ensures l.backdrop.kind != "gradient" ==> u.backgroundValue == l.backdrop.value
  {
    Payload(l, Backdrop.FanWallSavedAsWritten(l.backdrop))
  }

  /** `handleSave` with the gradient built once, as the preview shows it. */
  function Save(l: Local): (u: Updates)
    ensures l.backdrop.kind == "gradient" ==>
      u.backgroundValue == Gradient.BuildGradient(l.backdrop.colorStart, l.backdrop.colorEnd, l.backdrop.pos, l.backdrop.brightness)
    ensures l.backdrop.kind != "gradient" ==> u.backgroundValue == l.backdrop.value
  {
    Payload(l, Backdrop.FanWallSaved(l.backdrop))
  }

  /** Opening the dialog and saving without changes writes the canonical layout of the
      stored name and `null` for a missing countdown. */
  lemma SaveUnchanged(w: WallRow)
    ensures Save(InitialLocal(w)).layoutType == LayoutName(CanonicalLayout(w.layoutType))
    ensures !StrTruthy(w.countdown) ==> Save(InitialLocal(w)).countdown.None?
  {
    CanonicalIdempotent(w.layoutType);
  }
}
