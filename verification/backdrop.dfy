/** The background section the fan wall, prize wheel and poll option dialogs share: a
    background type (`gradient` or `image`), the value shown in the preview, the two
    gradient colours, the position of the middle stop and the brightness. In the fan
    wall and prize wheel dialogs every colour, position or brightness control switches
    to a gradient and rebuilds the previewed value with `buildGradient`; the poll
    dialog's brightness slider rebuilds it only when the type already is `gradient`. */
module Backdrop {
  import opened Gradient

  datatype Backdrop = Backdrop(kind: string, value: string, colorStart: string, colorEnd: string, pos: int, brightness: int)

  /** A change made with one of the gradient controls. */
  datatype Edit = SetStart(colour: string) | SetEnd(colour: string) | SetPos(p: int) | SetBrightness(b: int)

  /** The preview shows the gradient the current controls build. */
  predicate Previewed(d: Backdrop) {
    d.kind == "gradient" && d.value == BuildGradient(d.colorStart, d.colorEnd, d.pos, d.brightness)
  }

  /** A control changes its own field, switches to a gradient and rebuilds the preview. */
  function ApplyEdit(d: Backdrop, e: Edit): (r: Backdrop)
    ensures Previewed(r)
    ensures r.colorStart == (if e.SetStart? then e.colour else d.colorStart)
    ensures r.colorEnd == (if e.SetEnd? then e.colour else d.colorEnd)
    ensures r.pos == (if e.SetPos? then e.p else d.pos)
    ensures r.brightness == (if e.SetBrightness? then e.b else d.brightness)
  {
    var d1 := match e
      case SetStart(c) => d.(colorStart := c)
      case SetEnd(c) => d.(colorEnd := c)
      case SetPos(p) => d.(pos := p)
      case SetBrightness(b) => d.(brightness := b);
    d1.(kind := "gradient", value := BuildGradient(d1.colorStart, d1.colorEnd, d1.pos, d1.brightness))
  }

  /** The poll dialog's controls: the colour and position controls behave as above, but
      a brightness change on an image background only records the brightness. */
  function PollApplyEdit(d: Backdrop, e: Edit): (r: Backdrop)
    ensures e.SetBrightness? && d.kind != "gradient" ==> r == d.(brightness := e.b)
    ensures !(e.SetBrightness? && d.kind != "gradient") ==> r == ApplyEdit(d, e)
  {
    if e.SetBrightness? && d.kind != "gradient" then d.(brightness := e.b) else ApplyEdit(d, e)
  }

  /** In the poll dialog a brightness change keeps an image background and its value,
      while on a gradient it rebuilds the preview as the other dialogs do; either way
      the corrected save stores what the preview shows. */
  lemma PollBrightnessKeepsImage(d: Backdrop, b: int)
    ensures d.kind != "gradient" ==>
      PollApplyEdit(d, SetBrightness(b)).kind == d.kind && PollApplyEdit(d, SetBrightness(b)).value == d.value
    ensures d.kind == "gradient" ==> Previewed(PollApplyEdit(d, SetBrightness(b)))
    ensures Saved(PollApplyEdit(d, SetBrightness(b))) == PollApplyEdit(d, SetBrightness(b)).value
  {
  }

  /** What the prize wheel and poll dialogs save as written: the brightness is applied to
      the previewed value once more. */
  function SavedAsWritten(d: Backdrop): (r: string)
    ensures d.kind != "gradient" ==> r == d.value
  {
    if d.kind == "gradient" then ApplyBrightness(d.value, d.brightness) else d.value
  }

  /** What the fan wall dialog saves as written: the gradient is rebuilt with the
      brightness, and the brightness is applied to the result again. */
  function FanWallSavedAsWritten(d: Backdrop): (r: string)
    ensures d.kind != "gradient" ==> r == d.value
  {
    if d.kind == "gradient" then ApplyBrightness(BuildGradient(d.colorStart, d.colorEnd, d.pos, d.brightness), d.brightness)
    else d.value
  }

  /** The corrected save of the prize wheel and poll dialogs: the previewed value. */
  function Saved(d: Backdrop): (r: string)
    ensures Previewed(d) ==> r == BuildGradient(d.colorStart, d.colorEnd, d.pos, d.brightness)
    ensures d.kind != "gradient" ==> r == d.value
  {
    d.value
  }

  /** The corrected save of the fan wall dialog: the gradient built once. */
  function FanWallSaved(d: Backdrop): (r: string)
    ensures d.kind == "gradient" ==> r == BuildGradient(d.colorStart, d.colorEnd, d.pos, d.brightness)
    ensures d.kind != "gradient" ==> r == d.value
  {
    if d.kind == "gradient" then BuildGradient(d.colorStart, d.colorEnd, d.pos, d.brightness) else d.value
  }

  /** After any gradient control, both corrected saves store exactly the preview. */
  lemma SavedMatchesPreview(d: Backdrop, e: Edit)
    ensures Saved(ApplyEdit(d, e)) == ApplyEdit(d, e).value
    ensures FanWallSaved(ApplyEdit(d, e)) == ApplyEdit(d, e).value
  {
  }

  /** As written, an edited gradient is saved with both alpha stops scaled twice. */
  lemma SavedAsWrittenScalesTwice(d: Backdrop, e: Edit)
    requires var r := ApplyEdit(d, e); ColourLike(r.colorStart) && ColourLike(r.colorEnd)
    ensures var r := ApplyEdit(d, e); var b := r.brightness;
      SavedAsWritten(r) == FanWallSavedAsWritten(r) &&
      SavedAsWritten(r)
        == SpacedJoin(Tokens(r.colorStart, r.colorEnd, r.pos, Hex2(Scale(Scale(204, b), b)), Hex2(Scale(Scale(153, b), b))))
  {
    var r := ApplyEdit(d, e);
    ApplyTwice(r.colorStart, r.colorEnd, r.pos, r.brightness);
  }

  /** As written, whenever a second scaling changes the first stop's alpha, the
      stored background is not the one previewed. */
  lemma SavedAsWrittenDiffers(d: Backdrop, e: Edit)
    requires var r := ApplyEdit(d, e); ColourLike(r.colorStart) && ColourLike(r.colorEnd)
    requires var b := ApplyEdit(d, e).brightness; Scale(Scale(204, b), b) != Scale(204, b)
    ensures SavedAsWritten(ApplyEdit(d, e)) != ApplyEdit(d, e).value
    ensures FanWallSavedAsWritten(ApplyEdit(d, e)) != ApplyEdit(d, e).value
  {
    var r := ApplyEdit(d, e);
    var b := r.brightness;
    SavedAsWrittenScalesTwice(d, e);
    BuildGradientShape(r.colorStart, r.colorEnd, r.pos, b);
    HexRoundTrip(Scale(Scale(204, b), b));
    HexRoundTrip(Scale(204, b));
    TokensDiffer(r.colorStart, r.colorEnd, r.pos, Hex2(Scale(Scale(204, b), b)), Hex2(Scale(Scale(153, b), b)),
                 Hex2(Scale(204, b)), Hex2(Scale(153, b)));
  }

  /** At half brightness the preview's first middle stop has alpha 102 (`66`) and the
      saved one 51 (`33`), for every pair of picker colours and every position. */
  lemma HalfBrightnessSavedDarker(d: Backdrop)
    requires ColourLike(d.colorStart) && ColourLike(d.colorEnd)
    ensures SavedAsWritten(ApplyEdit(d, SetBrightness(50))) != ApplyEdit(d, SetBrightness(50)).value
  {
    assert Scale(204, 50) == 102 && Scale(102, 50) == 51;
    SavedAsWrittenDiffers(d, SetBrightness(50));
  }
}
