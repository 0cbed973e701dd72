/**
 * The birthday bot's input conversation as a step function: after
 * `/enter_reminder` the next five messages of the chat are the name, the date
 * (`DD-MM-YYYY`, asked again until it parses), the lead in days, the gifts and
 * a note. Each step fills one field of the pending record; the note completes
 * it. `BirthdayBot` runs this conversation on mutable objects; this module is
 * its specification.
 */
module BirthdayConversation {
  import opened Wrappers
  import opened Calendar
  import opened Strptime

  /** The fields of a `Birthday` object; `None` is Python's `None`, a field not set yet. */
  datatype BirthdayRecord = BirthdayRecord(
    name: Option<string>,
    birthdayDate: Option<Date>,
    reminderDays: Option<string>,
    gifts: Option<string>,
    note: Option<string>)

  /** A freshly constructed `Birthday()`. */
  const Blank := BirthdayRecord(None, None, None, None, None)

  /** The step the chat is at, with the record filled in so far. */
  datatype Phase =
    | AskedName
    | AskedDate(record: BirthdayRecord)
    | AskedLeadDays(record: BirthdayRecord)
    | AskedGifts(record: BirthdayRecord)
    | AskedNote(record: BirthdayRecord)

  /** What the bot answers: the next prompt, the date-format error, or the summary of the added birthday. */
  datatype Reply = AskName | AskDate | WrongDateFormat | AskLeadDays | AskGifts | AskNote | Added(record: BirthdayRecord)

  /** One message's effect: the next phase (`None`: the conversation is over), the answer, and the record it completes. */
  datatype Transition = Transition(next: Option<Phase>, reply: Reply, completed: Option<BirthdayRecord>)

  /** How many answers the phase already holds. */
  function Rank(p: Phase): nat {
    match p
    case AskedName => 0
    case AskedDate(_) => 1
    case AskedLeadDays(_) => 2
    case AskedGifts(_) => 3
    case AskedNote(_) => 4
  }

  /** The record so far; before the name step there is no object yet. */
  function RecordOf(p: Phase): BirthdayRecord {
    if p.AskedName? then Blank else p.record
  }

  /** The fields a phase has filled are set and the ones it has not are still `None`. */
  predicate Shaped(p: Phase) {
    var r := RecordOf(p);
    && (r.name.Some? <==> Rank(p) >= 1)
    && (r.birthdayDate.Some? <==> Rank(p) >= 2)
    && (r.birthdayDate.Some? ==> ValidDate(r.birthdayDate.value))
    && (r.reminderDays.Some? <==> Rank(p) >= 3)
    && (r.gifts.Some? <==> Rank(p) >= 4)
    && r.note.None?
  }

  /** A record as it is appended to the database: every field set and the date a real one. */
  predicate Complete(r: BirthdayRecord) {
    && r.name.Some? && r.birthdayDate.Some? && ValidDate(r.birthdayDate.value)
    && r.reminderDays.Some? && r.gifts.Some? && r.note.Some?
  }

  /** The record a transition leaves behind: the next phase's, or the completed one. */
  function After(t: Transition): BirthdayRecord {
    if t.next.Some? then RecordOf(t.next.value) else if t.completed.Some? then t.completed.value else Blank
  }

  /**
   * One message at phase `p`. The name, lead, gifts and note are the text
   * verbatim; the date is `strptime(text, "%d-%m-%Y")`, and text that does not
   * parse keeps the phase, record included, as it was.
   */
  function Advance(p: Phase, text: string): (t: Transition)
    ensures t.next == Some(p) <==> p.AskedDate? && ParseDayMonthYear(text).None?
    ensures t.next.Some? && t.next != Some(p) ==> Rank(t.next.value) == Rank(p) + 1
    ensures t.next.None? <==> p.AskedNote?
    ensures t.completed.Some? <==> t.next.None?
    ensures t.completed.Some? ==> t.reply == Added(t.completed.value)
    ensures Shaped(p) && t.next.Some? ==> Shaped(t.next.value)
    ensures Shaped(p) && t.completed.Some? ==> Complete(t.completed.value)
    ensures p.AskedName? ==> After(t) == Blank.(name := Some(text))
    ensures p.AskedDate? ==> After(t) == if ParseDayMonthYear(text).Some? then RecordOf(p).(birthdayDate := ParseDayMonthYear(text)) else RecordOf(p)
    ensures p.AskedLeadDays? ==> After(t) == RecordOf(p).(reminderDays := Some(text))
    ensures p.AskedGifts? ==> After(t) == RecordOf(p).(gifts := Some(text))
    ensures p.AskedNote? ==> After(t) == RecordOf(p).(note := Some(text))
  {
    match p
    case AskedName => Transition(Some(AskedDate(Blank.(name := Some(text)))), AskDate, None)
    case AskedDate(r) =>
      (match ParseDayMonthYear(text)
       case None => Transition(Some(AskedDate(r)), WrongDateFormat, None)
       case Some(d) => Transition(Some(AskedLeadDays(r.(birthdayDate := Some(d)))), AskLeadDays, None))
    case AskedLeadDays(r) => Transition(Some(AskedGifts(r.(reminderDays := Some(text)))), AskGifts, None)
    case AskedGifts(r) => Transition(Some(AskedNote(r.(gifts := Some(text)))), AskNote, None)
    case AskedNote(r) =>
      var done := r.(note := Some(text));
      Transition(None, Added(done), Some(done))
  }

  /** The effect of a run of messages: where the conversation stands, the answers, and the records completed. */
  datatype Outcome = Outcome(phase: Option<Phase>, replies: seq<Reply>, completed: seq<BirthdayRecord>)

  /** A way to take one message: `Advance`, or any other. */
  type Stepper = (Phase, string) -> Transition

  /**
   * The messages of one chat from phase `p` on, each taken by `step`, until
   * the conversation is over; the messages after that are no longer part of it.
   */
  function RunBy(step: Stepper, p: Phase, texts: seq<string>): (o: Outcome)
    ensures |o.replies| <= |texts| && |o.completed| <= 1
    ensures o.phase.Some? ==> |o.replies| == |texts| && o.completed == []
    decreases |texts|
  {
    if texts == [] then Outcome(Some(p), [], [])
    else
      var t := step(p, texts[0]);
      if t.next.None? then Outcome(None, [t.reply], if t.completed.Some? then [t.completed.value] else [])
      else
        var rest := RunBy(step, t.next.value, texts[1..]);
        Outcome(rest.phase, [t.reply] + rest.replies, rest.completed)
  }

  /** The bot's conversation: each message taken by `Advance`. */
  function Run(p: Phase, texts: seq<string>): (o: Outcome)
    ensures |o.completed| <= 1
    ensures o.phase.Some? ==> |o.replies| == |texts| && o.completed == []
  {
    RunBy(Advance, p, texts)
  }

  function Repeat(r: Reply, n: nat): (s: seq<Reply>)
    ensures |s| == n && forall i | 0 <= i < n :: s[i] == r
  {
    if n == 0 then [] else [r] + Repeat(r, n - 1)
  }

  predicate AllUnparsable(texts: seq<string>) {
    forall i | 0 <= i < |texts| :: ParseDayMonthYear(texts[i]).None?
  }

  /** Any number of dates that do not parse leaves the conversation at the date step with the same record, asking again each time. */
  lemma {:induction false} RetriesKeepRecord(r: BirthdayRecord, texts: seq<string>)
    requires AllUnparsable(texts)
    ensures Run(AskedDate(r), texts) == Outcome(Some(AskedDate(r)), Repeat(WrongDateFormat, |texts|), [])
    decreases |texts|
  {
    if texts != [] {
      assert ParseDayMonthYear(texts[0]).None?;
      assert AllUnparsable(texts[1..]) by {
        forall i | 0 <= i < |texts[1..]| ensures ParseDayMonthYear(texts[1..][i]).None? {
          assert texts[1..][i] == texts[i + 1];
        }
      }
      RetriesKeepRecord(r, texts[1..]);
    }
  }

  /** Messages split anywhere before the end of the conversation: the run continues from where the first part left it. */
  lemma {:induction false} RunByAppend(step: Stepper, p: Phase, a: seq<string>, b: seq<string>)
    requires RunBy(step, p, a).phase.Some?
    ensures var first := RunBy(step, p, a);
      var second := RunBy(step, first.phase.value, b);
      RunBy(step, p, a + b) == Outcome(second.phase, first.replies + second.replies, first.completed + second.completed)
    decreases |a|
  {
    if a == [] {
      assert a + b == b;
    } else {
      var t := step(p, a[0]);
      assert (a + b)[0] == a[0] && (a + b)[1..] == a[1..] + b;
      var q := t.next.value;
      RunByAppend(step, q, a[1..], b);
      var (rest, second) := (RunBy(step, q, a[1..]), RunBy(step, RunBy(step, q, a[1..]).phase.value, b));
      assert [t.reply] + (rest.replies + second.replies) == [t.reply] + rest.replies + second.replies;
    }
  }

  /** A single message that does not end the conversation. */
  lemma RunByOne(step: Stepper, p: Phase, text: string)
    requires step(p, text).next.Some?
    ensures RunBy(step, p, [text]) == Outcome(step(p, text).next, [step(p, text).reply], [])
  {
    assert [text][1..] == [];
  }

  /** The same for the bot's own conversation. */
  lemma RunAppend(p: Phase, a: seq<string>, b: seq<string>)
    requires Run(p, a).phase.Some?
    ensures var first := Run(p, a);
      var second := Run(first.phase.value, b);
      Run(p, a + b) == Outcome(second.phase, first.replies + second.replies, first.completed + second.completed)
  {
    RunByAppend(Advance, p, a, b);
  }

  /** From the date step on, a date that parses and three more answers complete the record. */
  lemma FinalSteps(r: BirthdayRecord, date: string, lead: string, gifts: string, note: string)
    requires ParseDayMonthYear(date).Some?
    ensures var done := r.(birthdayDate := ParseDayMonthYear(date), reminderDays := Some(lead), gifts := Some(gifts), note := Some(note));
      Run(AskedDate(r), [date, lead, gifts, note]) == Outcome(None, [AskLeadDays, AskGifts, AskNote, Added(done)], [done])
  {
    var dated := r.(birthdayDate := ParseDayMonthYear(date));
    var led := dated.(reminderDays := Some(lead));
    var gifted := led.(gifts := Some(gifts));
    var done := gifted.(note := Some(note));
    var texts := [date, lead, gifts, note];
    assert texts[1..] == [lead, gifts, note];
    assert texts[1..][1..] == [gifts, note];
    assert texts[1..][1..][1..] == [note];
    assert Run(AskedNote(gifted), [note]) == Outcome(None, [Added(done)], [done]);
    assert Run(AskedGifts(led), [gifts, note]) == Outcome(None, [AskNote, Added(done)], [done]);
    assert Run(AskedLeadDays(dated), [lead, gifts, note]) == Outcome(None, [AskGifts, AskNote, Added(done)], [done]);
  }

  /**
   * The whole conversation: a name, any number of unparsable dates, a date
   * that parses, a lead, gifts and a note add exactly the record made of those
   * answers, and the conversation is over.
   */
  lemma ConversationCompletes(name: string, retries: seq<string>, date: string, lead: string, gifts: string, note: string)
    requires AllUnparsable(retries) && ParseDayMonthYear(date).Some?
    ensures var record := BirthdayRecord(Some(name), ParseDayMonthYear(date), Some(lead), Some(gifts), Some(note));
      && Complete(record)
      && Run(AskedName, [name] + retries + [date, lead, gifts, note]) ==
         Outcome(None, [AskDate] + Repeat(WrongDateFormat, |retries|) + [AskLeadDays, AskGifts, AskNote, Added(record)], [record])
  {
    var named := Blank.(name := Some(name));
    var tail := [date, lead, gifts, note];
    RunByOne(Advance, AskedName, name);
    RetriesKeepRecord(named, retries);
    RunAppend(AskedName, [name], retries);
    RunAppend(AskedName, [name] + retries, tail);
    FinalSteps(named, date, lead, gifts, note);
  }

  /** A valid date typed as `DD-MM-YYYY` is accepted unchanged at the date step. */
  lemma DateStepAcceptsFormatted(r: BirthdayRecord, d: Date)
    requires ValidDate(d)
    ensures Advance(AskedDate(r), FormatDayMonthYear(d)) == Transition(Some(AskedLeadDays(r.(birthdayDate := Some(d)))), AskLeadDays, None)
  {
    ParseFormattedDate(d);
  }
}
