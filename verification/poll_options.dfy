/** The poll options dialog (components/OptionsModalPoll.tsx): the duration labels, the
    option list editor, loading the stored poll, and the save with its validation, the
    poll update, the broadcast and the rewritten option rows. */
module PollOptions {
  import opened JsCore
  import opened JsText
  import Lists
  import Backdrop

  const PresetColors: seq<string> :=
    ["#FF0000", "#FFA500", "#FFFF00", "#008000", "#0000FF", "#4B0082", "#EE82EE", "#A0522D"]

  const DefaultGradient: string := "linear-gradient(135deg,#0d47a1,#1976d2)"

  const DurationLabels: seq<string> :=
    ["none", "5 min", "10 min", "15 min", "20 min", "30 min", "45 min", "60 min"]

  /** The minutes that have a label of their own. */
  const LabelledMinutes: seq<nat> := [5, 10, 15, 20, 30, 45, 60]

  /* ------------------------------------------------------------------ durations */

  /** `labelToMinutes`: `none` in any case is no limit; otherwise the digits of the
      label are read, and a label without digits means 5. */
  function LabelToMinutes(name: string): (r: Option<int>)
    ensures r.None? <==> ToLower(name) == "none"
    ensures r.Some? && KeepDigits(name) == "" ==> r.value == 5
    ensures r.Some? && KeepDigits(name) != "" ==> r.value == DecValue(KeepDigits(name))
  {
    ParseDigits(KeepDigits(name));
    if ToLower(name) == "none" then None
    else match ParseIntJs(KeepDigits(name))
      case NaN => Some(5)
      case Int(m) => Some(m)
  }

  /** `minutesToLabel`: no value is `none`, a minute count without a label is `5 min`. */
  function MinutesToLabel(mins: Option<int>): (r: string)
    ensures r in DurationLabels
    ensures mins.None? <==> r == "none"
    ensures mins.Some? && mins.value !in LabelledMinutes ==> r == "5 min"
  {
    if mins.None? then "none"
    else match mins.value
      case 5 => "5 min"
      case 10 => "10 min"
      case 15 => "15 min"
      case 20 => "20 min"
      case 30 => "30 min"
      case 45 => "45 min"
      case 60 => "60 min"
      case _ => "5 min"
  }

  /** The numeral of a labelled minute count, followed by ` min`. */
  lemma MinuteLabel(i: nat)
    requires i < 7
    ensures DurationLabels[i + 1] == NatToString(LabelledMinutes[i]) + " min"
  {
    if i == 0 {
      assert NatToString(5) == "5";
    } else if i == 1 {
      assert NatToString(10) == NatToString(1) + [DigitChar(0)];
    } else if i == 2 {
      assert NatToString(15) == NatToString(1) + [DigitChar(5)];
    } else if i == 3 {
      assert NatToString(20) == NatToString(2) + [DigitChar(0)];
    } else if i == 4 {
      assert NatToString(30) == NatToString(3) + [DigitChar(0)];
    } else if i == 5 {
      assert NatToString(45) == NatToString(4) + [DigitChar(5)];
    } else {
      assert NatToString(60) == NatToString(6) + [DigitChar(0)];
    }
  }

  lemma MinutesOfLabel(i: nat)
    requires i < 7
    ensures LabelToMinutes(DurationLabels[i + 1]) == Some(LabelledMinutes[i] as int)
  {
    var m := LabelledMinutes[i];
    var d := NatToString(m);
    MinuteLabel(i);
    KeepDigitsConcat(d, " min");
    KeepDigitsAll(d);
    NoDigitsKept(" min");
    assert KeepDigits(d + " min") == d;
    DecRoundTrip(m);
    assert |ToLower(d + " min")| != |"none"|;
  }

  lemma LabelOfMinutes(i: nat)
    requires i < 7
    ensures MinutesToLabel(Some(LabelledMinutes[i] as int)) == DurationLabels[i + 1]
  {
    if i == 0 {
    } else if i == 1 {
    } else if i == 2 {
    } else if i == 3 {
    } else if i == 4 {
    } else if i == 5 {
    } else {
    }
  }

  lemma NoneIsNone(s: string)
    requires s == "none"
    ensures LabelToMinutes(s) == None
  {
    LowerNoUpper(s);
  }

  /** Every label of the picker survives the trip to minutes and back. */
  lemma LabelRoundTrip(i: nat)
    requires i < |DurationLabels|
    ensures MinutesToLabel(LabelToMinutes(DurationLabels[i])) == DurationLabels[i]
  {
    var n := DurationLabels[i];
    if i == 0 {
      NoneIsNone(n);
      assert MinutesToLabel(LabelToMinutes(n)) == n;
    } else {
      MinutesOfLabel(i - 1);
      LabelOfMinutes(i - 1);
      assert MinutesToLabel(LabelToMinutes(n)) == n;
    }
  }

  /** Every labelled minute count survives the trip to a label and back; no limit stays
      no limit. */
  lemma MinutesRoundTrip(mins: Option<int>)
    requires mins.None? || mins.value in LabelledMinutes
    ensures LabelToMinutes(MinutesToLabel(mins)) == mins
  {
    if mins.None? {
      NoneIsNone(DurationLabels[0]);
    } else {
      var i :| 0 <= i < 7 && LabelledMinutes[i] == mins.value;
      LabelOfMinutes(i);
      MinutesOfLabel(i);
    }
  }

  /* ------------------------------------------------------------------ option editor */

  /** The option texts and their bar colours, index by index. */
  datatype Editor = Editor(options: seq<string>, colors: seq<string>)

  predicate Aligned(e: Editor) {
    |e.options| == |e.colors|
  }

  /** `prev.map((x, idx) => idx === i ? v : x)`. */
  function SetAt(s: seq<string>, i: int, v: string): (r: seq<string>)
    ensures |r| == |s| && forall j :: 0 <= j < |s| ==> r[j] == (if j == i then v else s[j])
  {
    seq(|s|, j requires 0 <= j < |s| => if j == i then v else s[j])
  }

  /** `prev.filter((_, idx) => idx !== i)`. */
  function RemoveIndex(s: seq<string>, i: int): (r: seq<string>)
    ensures 0 <= i < |s| ==> r == s[..i] + s[i + 1..]
    ensures !(0 <= i < |s|) ==> r == s
  {
    if 0 <= i < |s| then s[..i] + s[i + 1..] else s
  }

  datatype Change = UpdateOption(i: int, text: string) | UpdateColor(i: int, colour: string) | AddOption | RemoveOption(i: int)

  /** One edit of the option list. An option is added only below 8, with the preset
      colour that follows the current colours; one is removed only above 2, from both
      lists. */
  function Apply(e: Editor, c: Change): (r: Editor)
    ensures c.UpdateOption? ==> r == e.(options := SetAt(e.options, c.i, c.text))
    ensures c.UpdateColor? ==> r == e.(colors := SetAt(e.colors, c.i, c.colour))
    ensures c.AddOption? && |e.options| >= 8 ==> r == e
    ensures c.AddOption? && |e.options| < 8 ==>
      r.options == e.options + [""] && r.colors == e.colors + [PresetColors[|e.colors| % 8]]
    ensures c.RemoveOption? && |e.options| <= 2 ==> r == e
    ensures c.RemoveOption? && |e.options| > 2 ==>
      r.options == RemoveIndex(e.options, c.i) && r.colors == RemoveIndex(e.colors, c.i)
  {
    match c
    case UpdateOption(i, t) => e.(options := SetAt(e.options, i, t))
    case UpdateColor(i, col) => e.(colors := SetAt(e.colors, i, col))
    case AddOption =>
      if |e.options| >= 8 then e
      else Editor(e.options + [""], e.colors + [PresetColors[|e.colors| % 8]])
    case RemoveOption(i) =>
      if |e.options| <= 2 then e
      else Editor(RemoveIndex(e.options, i), RemoveIndex(e.colors, i))
  }

  /** Every edit keeps one colour per option, never grows the list past 8, and never
      shrinks it below 2. */
  lemma ApplyKeepsShape(e: Editor, c: Change)
    ensures Aligned(e) ==> Aligned(Apply(e, c))
    ensures |e.options| <= 8 ==> |Apply(e, c).options| <= 8
    ensures |e.options| >= 2 ==> |Apply(e, c).options| >= 2
  {
  }

  /** A stored `poll_options` row. */
  datatype OptionRow = OptionRow(optionText: string, barColor: Option<string>)

  /** The editor after loading the stored options; a failed query gives none. */
  function LoadEditor(opts: Option<seq<OptionRow>>): (e: Editor)
    ensures Aligned(e)
    ensures opts.None? ==> e.options == []
    ensures opts.Some? ==> (|e.options| == |opts.value| &&
      forall i :: 0 <= i < |e.options| ==>
        e.options[i] == opts.value[i].optionText &&
        e.colors[i] == StrOrDefault(opts.value[i].barColor, PresetColors[0]))
  {
    match opts
    case None => Editor([], [])
    case Some(rows) =>
      Editor(seq(|rows|, i requires 0 <= i < |rows| => rows[i].optionText),
             seq(|rows|, i requires 0 <= i < |rows| => StrOrDefault(rows[i].barColor, PresetColors[0])))
  }

  /* ------------------------------------------------------------------ dialog */

  datatype Dialog = Dialog(
    question: string,
    privateTitle: string,
    editor: Editor,
    backdrop: Backdrop.Backdrop,
    countdown: string,
    duration: string)

  /** The state before anything is loaded. */
  function Initial(): (d: Dialog)
    ensures d.question == "" && d.editor == Editor([], [])
    ensures d.backdrop == Backdrop.Backdrop("gradient", DefaultGradient, "#0d47a1", "#1976d2", 60, 100)
    ensures d.countdown == "none" && d.duration == "5 min"
  {
    Dialog("", "", Editor([], []), Backdrop.Backdrop("gradient", DefaultGradient, "#0d47a1", "#1976d2", 60, 100),
           "none", "5 min")
  }

  /** The `polls` columns the dialog reads. */
  datatype PollRow = PollRow(
    backgroundType: Option<string>,
    backgroundValue: Option<string>,
    colorStart: Option<string>,
    colorEnd: Option<string>,
    gradientPos: Option<int>,
    backgroundBrightness: Option<int>,
    countdown: Option<string>,
    durationMinutes: Option<int>)

  /** `loadPoll`: texts from the poll passed in and its options; the background,
      countdown and duration only when the poll row was found. */
  function LoadPoll(d: Dialog, question: Option<string>, hostTitle: Option<string>,
                    opts: Option<seq<OptionRow>>, row: Option<PollRow>): (r: Dialog)
    ensures r.question == StrOrDefault(question, "") && r.privateTitle == StrOrDefault(hostTitle, "")
    ensures r.editor == LoadEditor(opts)
    ensures row.None? ==> r.backdrop == d.backdrop && r.countdown == d.countdown && r.duration == d.duration
    ensures row.Some? ==>
      r.backdrop.pos == IntOr(row.value.gradientPos, 60) &&
      r.backdrop.brightness == row.value.backgroundBrightness.GetOr(100) &&
      r.backdrop.value == StrOrDefault(row.value.backgroundValue, DefaultGradient) &&
      r.countdown == StrOrDefault(row.value.countdown, "none") &&
      r.duration == MinutesToLabel(row.value.durationMinutes)
  {
    var d1 := d.(question := StrOrDefault(question, ""), privateTitle := StrOrDefault(hostTitle, ""),
                 editor := LoadEditor(opts));
    match row
    case None => d1
    case Some(p) =>
      d1.(backdrop := Backdrop.Backdrop(StrOrDefault(p.backgroundType, "gradient"),
                                        StrOrDefault(p.backgroundValue, DefaultGradient),
                                        StrOrDefault(p.colorStart, "#0d47a1"), StrOrDefault(p.colorEnd, "#1976d2"),
                                        IntOr(p.gradientPos, 60), p.backgroundBrightness.GetOr(100)),
          countdown := StrOrDefault(p.countdown, "none"),
          duration := MinutesToLabel(p.durationMinutes))
  }

  /* ------------------------------------------------------------------ save */

  predicate NonEmpty(s: string) {
    s != ""
  }

  /** `options.map(o => o.trim()).filter(Boolean)`. */
  function Filled(options: seq<string>): (r: seq<string>)
    ensures |r| <= |options| && forall k :: 0 <= k < |r| ==> r[k] != ""
  {
    Lists.Filter(Lists.Map(options, Trim), NonEmpty)
  }

  datatype Row = Row(optionText: string, barColor: string, voteCount: int)

  function RowText(r: Row): string {
    r.optionText
  }

  /** `colors[i] || PRESET_COLORS[i % 8]`. */
  function ColourFor(colors: seq<string>, i: nat): (c: string)
    ensures i < |colors| && colors[i] != "" ==> c == colors[i]
    ensures !(i < |colors| && colors[i] != "") ==> c == PresetColors[i % 8]
  {
    if i < |colors| && colors[i] != "" then colors[i] else PresetColors[i % 8]
  }

  /** The rows as written: the k-th filled option gets the k-th colour, whatever its
      position in the editor was. */
  function RowsAsWritten(options: seq<string>, colors: seq<string>): (rows: seq<Row>)
    ensures |rows| == |Filled(options)|
    ensures forall k :: 0 <= k < |rows| ==> rows[k] == Row(Filled(options)[k], ColourFor(colors, k), 0)
  {
    var filled := Filled(options);
    seq(|filled|, k requires 0 <= k < |filled| => Row(filled[k], ColourFor(colors, k), 0))
  }

  /** One row per option, index by index, with the colour shown beside it. */
  function Tagged(options: seq<string>, colors: seq<string>): (rows: seq<Row>)
    ensures |rows| == |options|
    ensures forall j :: 0 <= j < |options| ==> rows[j] == Row(Trim(options[j]), ColourFor(colors, j), 0)
  {
    seq(|options|, j requires 0 <= j < |options| => Row(Trim(options[j]), ColourFor(colors, j), 0))
  }

  predicate FilledRow(r: Row) {
    r.optionText != ""
  }

  /** The corrected rows: each non-blank option keeps its own colour. */
  function Rows(options: seq<string>, colors: seq<string>): (rows: seq<Row>)
    ensures forall k :: 0 <= k < |rows| ==> rows[k].optionText != ""
  {
    Lists.Filter(Tagged(options, colors), FilledRow)
  }

  /** Every filled option is saved with its own colour. */
  lemma RowsKeepColours(options: seq<string>, colors: seq<string>, j: nat)
    requires j < |options| && Trim(options[j]) != ""
    ensures Row(Trim(options[j]), ColourFor(colors, j), 0) in Rows(options, colors)
  {
    var tagged := Tagged(options, colors);
    assert tagged[j] in tagged && FilledRow(tagged[j]);
  }

  /** Both versions save the same texts, in order: the filled options. */
  lemma RowTexts(options: seq<string>, colors: seq<string>)
    ensures Lists.Map(Rows(options, colors), RowText) == Filled(options)
    ensures Lists.Map(RowsAsWritten(options, colors), RowText) == Filled(options)
  {
    var tagged := Tagged(options, colors);
    Lists.MapFilter(tagged, FilledRow, RowText, NonEmpty);
    assert Lists.Map(tagged, RowText) == Lists.Map(options, Trim);
  }

  /** Without blank options, both versions save the same rows. */
  lemma RowsAgreeWithoutBlanks(options: seq<string>, colors: seq<string>)
    requires forall j :: 0 <= j < |options| ==> Trim(options[j]) != ""
    ensures Rows(options, colors) == RowsAsWritten(options, colors)
  {
    var tagged := Tagged(options, colors);
    Lists.FilterAll(tagged, FilledRow);
    Lists.FilterAll(Lists.Map(options, Trim), NonEmpty);
  }

  /** Filtering drops the middle one of three elements when only it fails. */
  lemma FilterMiddle<T>(x: T, y: T, z: T, p: T -> bool)
    requires p(x) && !p(y) && p(z)
    ensures Lists.Filter([x, y, z], p) == [x, z]
  {
    assert [x, y, z] == [x] + ([y] + [z]);
    Lists.FilterConcat([x], [y] + [z], p);
    Lists.FilterConcat([y], [z], p);
    Lists.FilterOne(x, p);
    Lists.FilterOne(y, p);
    Lists.FilterOne(z, p);
    assert [x] + ([] + [z]) == [x, z];
  }

  lemma FilledSkipsBlank(a: string, e: string, c: string)
    requires Trim(a) != "" && Trim(e) == "" && Trim(c) != ""
    ensures Filled([a, e, c]) == [Trim(a), Trim(c)]
  {
    var m := Lists.Map([a, e, c], Trim);
    assert m == [Trim(a), Trim(e), Trim(c)];
    FilterMiddle(Trim(a), Trim(e), Trim(c), NonEmpty);
  }

  lemma AsWrittenShifts(a: string, e: string, c: string, colors: seq<string>)
    requires Trim(a) != "" && Trim(e) == "" && Trim(c) != ""
    ensures |RowsAsWritten([a, e, c], colors)| == 2
    ensures RowsAsWritten([a, e, c], colors)[1] == Row(Trim(c), ColourFor(colors, 1), 0)
  {
    FilledSkipsBlank(a, e, c);
  }

  lemma ThreeElems<T>(s: seq<T>)
    requires |s| == 3
    ensures s == [s[0], s[1], s[2]]
  {
  }

  lemma RowsSkipBlank(a: string, e: string, c: string, colors: seq<string>)
    requires Trim(a) != "" && Trim(e) == "" && Trim(c) != ""
    ensures Rows([a, e, c], colors) == [Row(Trim(a), ColourFor(colors, 0), 0), Row(Trim(c), ColourFor(colors, 2), 0)]
  {
    var tagged := Tagged([a, e, c], colors);
    ThreeElems(tagged);
    FilterMiddle(tagged[0], tagged[1], tagged[2], FilledRow);
  }

  /** A blank option in the middle shifts the colours as written: with options
      `a`, a blank and `c`, and three colours, `c` is saved with the blank option's
      colour instead of its own. */
  lemma BlankOptionShiftsColours(a: string, e: string, c: string, c0: string, c1: string, c2: string)
    requires Trim(a) != "" && Trim(e) == "" && Trim(c) != ""
    requires c0 != "" && c1 != "" && c2 != "" && c1 != c2
    ensures |RowsAsWritten([a, e, c], [c0, c1, c2])| == 2
    ensures RowsAsWritten([a, e, c], [c0, c1, c2])[1] == Row(Trim(c), c1, 0)
    ensures Rows([a, e, c], [c0, c1, c2]) == [Row(Trim(a), c0, 0), Row(Trim(c), c2, 0)]
    ensures RowsAsWritten([a, e, c], [c0, c1, c2]) != Rows([a, e, c], [c0, c1, c2])
  {
    var colors := [c0, c1, c2];
    AsWrittenShifts(a, e, c, colors);
    RowsSkipBlank(a, e, c, colors);
    assert ColourFor(colors, 0) == c0 && ColourFor(colors, 1) == c1 && ColourFor(colors, 2) == c2;
    assert Rows([a, e, c], colors)[1] == Row(Trim(c), c2, 0);
  }

  /** The `polls` update. */
  datatype PollUpdate = PollUpdate(
    question: string,
    hostTitle: string,
    backgroundType: string,
    backgroundValue: string,
    colorStart: string,
    colorEnd: string,
    gradientPos: int,
    backgroundBrightness: int,
    countdown: string,
    countdownActive: bool,
    status: string,
    durationMinutes: Option<int>)

  /** The `poll_update` broadcast. */
  datatype Broadcast = Broadcast(id: string, countdown: string, countdownActive: bool, status: string)

  datatype SaveResult =
    | QuestionRequired
    | TooFewOptions
    | Saved(update: PollUpdate, broadcast: Broadcast, rows: seq<Row>)

  function SaveWith(d: Dialog, pollId: string, background: string, rows: seq<Row>): (r: SaveResult)
    ensures r.QuestionRequired? <==> AllSpace(d.question)
    ensures r.TooFewOptions? <==> !AllSpace(d.question) && |Filled(d.editor.options)| < 2
    ensures r.Saved? ==>
      r.update.question == d.question && r.update.backgroundValue == background &&
      !r.update.countdownActive && r.update.status == "inactive" &&
      r.update.durationMinutes == LabelToMinutes(d.duration) &&
      r.broadcast == Broadcast(pollId, d.countdown, d.countdown != "none", "inactive") &&
      r.rows == rows
  {
    TrimEmptyIff(d.question);
    if Trim(d.question) == "" then QuestionRequired
    else if |Filled(d.editor.options)| < 2 then TooFewOptions
    else
      Saved(PollUpdate(d.question, d.privateTitle, d.backdrop.kind, background, d.backdrop.colorStart,
                       d.backdrop.colorEnd, d.backdrop.pos, d.backdrop.brightness, d.countdown, false,
                       "inactive", LabelToMinutes(d.duration)),
            Broadcast(pollId, d.countdown, d.countdown != "none", "inactive"),
            rows)
  }

  /** `handleSave` as written: the previewed gradient is brightened again and the
      colours are taken by position in the filled list. */
  function SaveAsWritten(d: Dialog, pollId: string): (r: SaveResult)
    ensures r.Saved? ==> r.update.backgroundValue == Backdrop.SavedAsWritten(d.backdrop)
    ensures r.Saved? ==> r.rows == RowsAsWritten(d.editor.options, d.editor.colors)
  {
    SaveWith(d, pollId, Backdrop.SavedAsWritten(d.backdrop), RowsAsWritten(d.editor.options, d.editor.colors))
  }

  /** `handleSave` storing the previewed background and each option's own colour. */
  function Save(d: Dialog, pollId: string): (r: SaveResult)
    ensures r.Saved? ==> r.update.backgroundValue == d.backdrop.value
    ensures r.Saved? ==> r.rows == Rows(d.editor.options, d.editor.colors)
  {
    SaveWith(d, pollId, Backdrop.Saved(d.backdrop), Rows(d.editor.options, d.editor.colors))
  }

  /** A save goes through exactly when the question is not blank and at least two
      options are filled, and then writes at least two option rows. */
  lemma SaveAccepts(d: Dialog, pollId: string)
    ensures Save(d, pollId).Saved? <==> !AllSpace(d.question) && |Filled(d.editor.options)| >= 2
    ensures Save(d, pollId).Saved? ==> |Save(d, pollId).rows| >= 2
  {
    RowTexts(d.editor.options, d.editor.colors);
  }
}
