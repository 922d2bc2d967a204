/** The prize wheel options dialog (components/OptionsModalPrizeWheel.tsx): the dialog's
    initial values from the stored wheel, the update it saves, the background image
    upload check and the image removal. */
module WheelOptions {
  import opened JsCore
  import opened JsText
  import Gradient
  import Backdrop

  /** The background a removed image falls back to. */
  const DefaultGradient: string := "linear-gradient(135deg,#0d47a1,#1976d2)"

  /** The `prize_wheels` columns the dialog reads. */
  datatype WheelRow = WheelRow(
    title: Option<string>,
    hostTitle: Option<string>,
    visibility: Option<string>,
    passphrase: Option<string>,
    colorStart: Option<string>,
    colorEnd: Option<string>,
    gradientPos: Option<int>,
    backgroundBrightness: Option<int>,
    backgroundType: Option<string>,
    backgroundValue: Option<string>,
    tileGlowColor: Option<string>,
    tileColorA: Option<string>,
    tileColorB: Option<string>,
    tileBrightnessA: Option<int>,
    tileBrightnessB: Option<int>,
    remoteSpinEnabled: Option<bool>,
    countdown: Option<string>)

  datatype Local = Local(
    title: Option<string>,
    hostTitle: Option<string>,
    visibility: Option<string>,
    passphrase: Option<string>,
    tileGlowColor: string,
    tileColorA: string,
    tileColorB: string,
    tileBrightnessA: int,
    tileBrightnessB: int,
    remoteSpin: bool,
    countdown: string,
    backdrop: Backdrop.Backdrop)

  /** The local copy made when the dialog opens. Unlike the fan wall dialog, the position
      falls back with `??`, so a stored 0 stays 0. */
  function Load(w: WheelRow): (l: Local)
    ensures l.backdrop.colorStart == StrOrDefault(w.colorStart, "#0d47a1")
    ensures l.backdrop.colorEnd == StrOrDefault(w.colorEnd, "#1976d2")
    ensures l.backdrop.pos == w.gradientPos.GetOr(60) && l.backdrop.brightness == w.backgroundBrightness.GetOr(100)
    ensures w.gradientPos == Some(0) ==> l.backdrop.pos == 0
    ensures l.backdrop.kind == StrOrDefault(w.backgroundType, "gradient")
    ensures !StrTruthy(w.backgroundValue) && !StrTruthy(w.backgroundType) ==> Backdrop.Previewed(l.backdrop)
    ensures l.tileGlowColor == StrOrDefault(w.tileGlowColor, "#ffffff")
    ensures l.tileColorA == StrOrDefault(w.tileColorA, "#ffffff") && l.tileColorB == StrOrDefault(w.tileColorB, "#ffffff")
    ensures l.tileBrightnessA == w.tileBrightnessA.GetOr(100) && l.tileBrightnessB == w.tileBrightnessB.GetOr(100)
    ensures l.remoteSpin == w.remoteSpinEnabled.GetOr(false)
    ensures l.countdown == StrOrDefault(w.countdown, "none") && l.countdown != ""
  {
    var start := StrOrDefault(w.colorStart, "#0d47a1");
    var end := StrOrDefault(w.colorEnd, "#1976d2");
    var pos := w.gradientPos.GetOr(60);
    var bright := w.backgroundBrightness.GetOr(100);
    var g := Gradient.BuildGradient(start, end, pos, bright);
    Local(w.title, w.hostTitle, w.visibility, w.passphrase,
          StrOrDefault(w.tileGlowColor, "#ffffff"), StrOrDefault(w.tileColorA, "#ffffff"),
          StrOrDefault(w.tileColorB, "#ffffff"), w.tileBrightnessA.GetOr(100), w.tileBrightnessB.GetOr(100),
          w.remoteSpinEnabled.GetOr(false), StrOrDefault(w.countdown, "none"),
          Backdrop.Backdrop(StrOrDefault(w.backgroundType, "gradient"), StrOrDefault(w.backgroundValue, g),
                            start, end, pos, bright))
  }

  /** The update written to `prize_wheels` (the `updated_at` clock value is left out). */
  datatype Updates = Updates(
    title: Option<string>,
    hostTitle: Option<string>,
    visibility: Option<string>,
    passphrase: Option<string>,
    remoteSpinEnabled: bool,
    countdown: Option<string>,
    countdownActive: bool,
    backgroundType: string,
    backgroundValue: string,
    colorStart: string,
    colorEnd: string,
    gradientPos: int,
    backgroundBrightness: int,
    tileGlowColor: string,
    tileColorA: string,
    tileColorB: string,
    tileBrightnessA: int,
    tileBrightnessB: int)

  /** Titles trimmed or `null`; a passphrase only for a private wheel, and never empty;
      countdown `none` as `null`; the countdown never starts on save. */
  function Payload(l: Local, background: string): (u: Updates)
    ensures u.title == TrimOrNull(l.title) && u.hostTitle == TrimOrNull(l.hostTitle)
    ensures u.visibility == l.visibility
    ensures l.visibility != Some("private") ==> u.passphrase.None?
    ensures l.visibility == Some("private") ==> (u.passphrase.Some? <==> StrTruthy(l.passphrase))
    ensures u.passphrase.Some? ==> u.passphrase == l.passphrase
    ensures u.countdown.None? <==> l.countdown == "none"
    ensures u.countdown.Some? ==> u.countdown.value == l.countdown
    ensures !u.countdownActive && u.remoteSpinEnabled == l.remoteSpin
    ensures u.backgroundType == l.backdrop.kind && u.backgroundValue == background
  {
    var passphrase := if l.visibility == Some("private") && StrTruthy(l.passphrase) then l.passphrase else None;
    Updates(TrimOrNull(l.title), TrimOrNull(l.hostTitle), l.visibility, passphrase, l.remoteSpin,
            NoneToNull(l.countdown), false, l.backdrop.kind, background, l.backdrop.colorStart,
            l.backdrop.colorEnd, l.backdrop.pos, l.backdrop.brightness, l.tileGlowColor, l.tileColorA,
            l.tileColorB, l.tileBrightnessA, l.tileBrightnessB)
  }

  /** `handleSave` as written: the previewed gradient is brightened once more. */
  function SaveAsWritten(l: Local): (u: Updates)
    ensures u.backgroundValue == Backdrop.SavedAsWritten(l.backdrop)
  {
    Payload(l, Backdrop.SavedAsWritten(l.backdrop))
  }

  /** `handleSave` storing the previewed background. */
  function Save(l: Local): (u: Updates)
    ensures u.backgroundValue == l.backdrop.value
  {
    Payload(l, Backdrop.Saved(l.backdrop))
  }

  /** The image types the upload accepts. */
  predicate AcceptedImage(mime: string) {
    mime == "image/jpeg" || mime == "image/png" || mime == "image/webp"
  }

  datatype UploadResult = NoFile | Rejected | Uploaded(path: string, wheel: Local)

  /** `handleImageUpload`: no file does nothing, another type is refused; otherwise the
      compressed file goes to `host_<host>/prizewheel_<wheel>/background-<time>.<ext>`,
      `ext` being what follows `/` in the MIME type, and the wheel shows the public URL. */
  function UploadImage(l: Local, hostId: string, wheelId: string, mime: Option<string>, now: string, publicUrl: string)
    : (r: UploadResult)
    ensures r.NoFile? <==> mime.None?
    ensures r.Rejected? <==> mime.Some? && !AcceptedImage(mime.value)
    ensures r.Uploaded? ==> r.wheel == l.(backdrop := l.backdrop.(kind := "image", value := publicUrl))
  {
    match mime
    case None => NoFile
    case Some(m) =>
      if !AcceptedImage(m) then Rejected
      else
        var parts := SplitOn(m, '/');
        var ext := if |parts| > 1 then parts[1] else "undefined";
        Uploaded("host_" + hostId + "/prizewheel_" + wheelId + "/background-" + now + "." + ext,
                 l.(backdrop := l.backdrop.(kind := "image", value := publicUrl)))
  }

  /** An accepted upload is stored under the MIME subtype as its extension. */
  lemma UploadExtension(l: Local, hostId: string, wheelId: string, sub: string, now: string, publicUrl: string)
    requires sub == "jpeg" || sub == "png" || sub == "webp"
    ensures UploadImage(l, hostId, wheelId, Some("image/" + sub), now, publicUrl)
         == Uploaded("host_" + hostId + "/prizewheel_" + wheelId + "/background-" + now + "." + sub,
                     l.(backdrop := l.backdrop.(kind := "image", value := publicUrl)))
  {
    assert "image/" + sub == "image" + ['/'] + sub;
    SplitFirst("image", '/', sub);
    NoSeparatorSplit(sub, '/');
  }

  /** `handleDeleteImage`: back to the default gradient, nothing else changes. */
  function DeleteImage(l: Local): (r: Local)
    ensures r.backdrop.kind == "gradient" && r.backdrop.value == DefaultGradient
    ensures r == l.(backdrop := r.backdrop)
    ensures r.backdrop == l.backdrop.(kind := "gradient", value := DefaultGradient)
  {
    l.(backdrop := l.backdrop.(kind := "gradient", value := DefaultGradient))
  }

  /** The default gradient has no eight-digit colours, so the brightness cannot change
      it: after removing the image, both saves store it as it is. */
  lemma DeletedImageSavedAsDefault(l: Local)
    ensures SaveAsWritten(DeleteImage(l)).backgroundValue == DefaultGradient
    ensures Save(DeleteImage(l)).backgroundValue == DefaultGradient
  {
    var b := l.backdrop.brightness;
    var p, t, r := "linear-gradient(135deg,", "#0d47a1,", "#1976d2)";
    assert DefaultGradient == p + (t + r);
    assert Gradient.NoHash(p);
    assert Gradient.NoHash(t[1..]);
    assert p[..15] == "linear-gradient";
    ContainsAt(DefaultGradient, "linear-gradient", 0);
    Gradient.RewriteNoHash(p, t + r, b);
    Gradient.RewriteOneToken(t, r, b);
  }
}
