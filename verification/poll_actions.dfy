/** `createPoll` (lib/actions/polls.ts): the poll row it inserts, the QR link it then
    stores, the option rows it inserts and the row it returns. The results of the three
    queries are inputs: `created` is the inserted row (`None` for an error or no row),
    `updated` the row after the QR update (`None` for an error or no row). */
module PollActions {
  import opened JsCore
  import opened JsText
  import Lists
  import PollOptions

  const DefaultQuestion: string := "Untitled Poll"
  const DefaultBackground: string := "linear-gradient(135deg,#0d47a1,#1976d2)"
  const QrBase: string := "https://faninteract.vercel.app/polls/"

  /** The row inserted into `polls`; both timestamps are the clock reading `now`. */
  datatype NewPoll = NewPoll(
    hostId: string,
    question: string,
    status: string,
    backgroundType: string,
    backgroundValue: string,
    layout: string,
    createdAt: string,
    updatedAt: string)

  /** A stored poll as the queries return it; only the id matters here. */
  datatype PollRecord = PollRecord(id: string, question: string, qrUrl: Option<string>)

  datatype OptionRow = OptionRow(pollId: string, optionText: string, voteCount: int)

  /** `question || 'Untitled Poll'`, an inactive horizontal poll on the default gradient. */
  function NewPollFor(hostId: string, question: Option<string>, now: string): (p: NewPoll)
    ensures StrTruthy(question) ==> p.question == question.value
    ensures !StrTruthy(question) ==> p.question == DefaultQuestion
    ensures p.hostId == hostId && p.status == "inactive" && p.layout == "horizontal"
    ensures p.backgroundType == "gradient" && p.backgroundValue == DefaultBackground
  {
    NewPoll(hostId, StrOrDefault(question, DefaultQuestion), "inactive", "gradient", DefaultBackground,
            "horizontal", now, now)
  }

  function RowFor(pollId: string, text: string): OptionRow {
    OptionRow(pollId, text, 0)
  }

  function OptionText(r: OptionRow): string {
    r.optionText
  }

  /** One row per trimmed, non-blank option, in order, with no votes. */
  function OptionRows(pollId: string, options: seq<string>): (rows: seq<OptionRow>)
    ensures |rows| == |PollOptions.Filled(options)|
    ensures forall k :: 0 <= k < |rows| ==>
      rows[k].pollId == pollId && rows[k].voteCount == 0 && rows[k].optionText == PollOptions.Filled(options)[k]
  {
    var filled := PollOptions.Filled(options);
    seq(|filled|, k requires 0 <= k < |filled| => RowFor(pollId, filled[k]))
  }

  datatype Outcome = Outcome(
    inserted: NewPoll,
    qrUpdate: Option<string>,
    optionRows: seq<OptionRow>,
    returned: Option<PollRecord>)

  /** `createPoll`: a failed insert returns `null` and does nothing else; otherwise the
      QR link is stored, the option rows are inserted when at least two remain, and the
      updated row is returned when there is one, else the created row. A failed QR update
      or option insert is only logged. */
  function CreatePoll(hostId: string, question: Option<string>, options: Option<seq<string>>, now: string,
                      created: Option<PollRecord>, updated: Option<PollRecord>): (r: Outcome)
    ensures r.inserted == NewPollFor(hostId, question, now)
    ensures created.None? ==> r.qrUpdate.None? && r.optionRows == [] && r.returned.None?
    ensures created.Some? ==> r.qrUpdate == Some(QrBase + created.value.id)
    ensures created.Some? ==> r.returned == (if updated.Some? then updated else created)
    ensures r.optionRows != [] <==>
      created.Some? && |PollOptions.Filled(options.GetOr([]))| >= 2
    ensures r.optionRows != [] ==> r.optionRows == OptionRows(created.value.id, options.GetOr([]))
  {
    var poll := NewPollFor(hostId, question, now);
    match created
    case None => Outcome(poll, None, [], None)
    case Some(c) =>
      var opts := options.GetOr([]);
      var rows := if |opts| > 0 then OptionRows(c.id, opts) else [];
      var insertedRows := if |rows| >= 2 then rows else [];
      Outcome(poll, Some(QrBase + c.id), insertedRows, if updated.Some? then updated else created)
  }

  /** Every filled option is trimmed and not blank. */
  lemma FilledTrimmed(options: seq<string>)
    ensures forall k :: 0 <= k < |PollOptions.Filled(options)| ==>
      PollOptions.Filled(options)[k] != "" && Trim(PollOptions.Filled(options)[k]) == PollOptions.Filled(options)[k]
  {
    var m := Lists.Map(options, Trim);
    var f := PollOptions.Filled(options);
    forall k | 0 <= k < |f| ensures Trim(f[k]) == f[k] {
      assert f[k] in m;
      var j :| 0 <= j < |m| && m[j] == f[k];
      TrimIdempotent(options[j]);
    }
  }

  /** The inserted option texts are the dialog's filled options: trimmed, not blank, in
      order. */
  lemma InsertedTexts(pollId: string, options: seq<string>)
    ensures Lists.Map(OptionRows(pollId, options), OptionText) == PollOptions.Filled(options)
    ensures forall k :: 0 <= k < |OptionRows(pollId, options)| ==>
      OptionRows(pollId, options)[k].optionText != "" &&
      Trim(OptionRows(pollId, options)[k].optionText) == OptionRows(pollId, options)[k].optionText
  {
    FilledTrimmed(options);
  }
}
