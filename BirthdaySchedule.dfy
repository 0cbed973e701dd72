/**
 * The birthday bot's reminder sweep: every stored birthday, chat by chat in
 * the order the chats were first seen, is due when the floored number of days
 * from the current instant to the midnight starting its date equals its lead,
 * `int(reminder_days)`. The clock is read once per entry.
 *
 * `DueNotices` is the sweep as evidently intended; `SweepAsWritten` and
 * `SweepStrictLead` are the two ways the code as written departs from it.
 */
module BirthdaySchedule {
  import opened Wrappers
  import opened PyText
  import opened Calendar
  import opened BirthdayConversation

  type ChatId = int

  /** One stored birthday, with the chat it belongs to. */
  datatype Entry = Entry(chat: ChatId, record: BirthdayRecord)

  /** A reminder message for a chat. */
  datatype Notice = Notice(chat: ChatId, record: BirthdayRecord)

  /** How a sweep ends: having sent `sent`, either normally or by an exception that leaves the loop. */
  datatype SweepOutcome = Finished(sent: seq<Notice>) | Raised(sent: seq<Notice>)

  /** `int(birthday.reminder_days)`; `None` where it raises. */
  function LeadDays(r: BirthdayRecord): (lead: Option<int>)
    ensures r.reminderDays.None? ==> lead.None?
    ensures lead.Some? ==> var t := Strip(IntWhitespace, r.reminderDays.value); t != [] && IsDigit(t[|t| - 1])
  {
    if r.reminderDays.Some? then PyInt(r.reminderDays.value) else None
  }

  /** The matching rule: `(target - now).days == int(reminder_days)`, with the target the midnight that starts the birthday date. */
  predicate IsDue(r: BirthdayRecord, now: DateTime): (due: bool)
    ensures due <==>
      && r.birthdayDate.Some? && LeadDays(r).Some?
      && var (lead, x) := (LeadDays(r).value, Micros(Midnight(r.birthdayDate.value)) - Micros(now));
         lead * MicrosPerDay <= x < lead * MicrosPerDay + MicrosPerDay
  {
    && r.birthdayDate.Some?
    && LeadDays(r).Some?
    && var x := Micros(Midnight(r.birthdayDate.value)) - Micros(now);
       FloorDays(x, LeadDays(r).value);
       DaysBetween(Midnight(r.birthdayDate.value), now) == LeadDays(r).value
  }

  /** The entries of one chat's list, in list order. */
  function ChatEntries(chat: ChatId, records: seq<BirthdayRecord>): (r: seq<Entry>)
    ensures |r| == |records|
    ensures forall i | 0 <= i < |r| :: r[i] == Entry(chat, records[i])
  {
    if records == [] then [] else ChatEntries(chat, records[..|records| - 1]) + [Entry(chat, records[|records| - 1])]
  }

  /** All entries in the order of the nested loop: chats in `order`, each chat's list in order. */
  function SweepOrder(order: seq<ChatId>, db: map<ChatId, seq<BirthdayRecord>>): seq<Entry> {
    if order == [] then []
    else
      var c := order[|order| - 1];
      SweepOrder(order[..|order| - 1], db) + if c in db then ChatEntries(c, db[c]) else []
  }

  /** A matching rule: whether a stored birthday is due at an instant. */
  type Rule = (BirthdayRecord, DateTime) -> bool

  /** The readings of `datetime.now()`: `clock(k)` is the instant the `k`-th reading returns. */
  type Clock = nat -> DateTime

  /** What one entry contributes to a sweep by rule `due` at instant `now`. */
  function NoticeFor(e: Entry, now: DateTime, due: Rule): seq<Notice> {
    if due(e.record, now) then [Notice(e.chat, e.record)] else []
  }

  /** The notices of the entries that match `due`, in entry order; entry `i` is judged at reading `from + i`. */
  function Notices(entries: seq<Entry>, clock: Clock, from: nat, due: Rule): seq<Notice> {
    if entries == [] then []
    else NoticeFor(entries[0], clock(from), due) + Notices(entries[1..], clock, from + 1, due)
  }

  /** The sweep as evidently intended: the notices of the entries that are due, entry `i` judged at reading `i`. */
  function DueNotices(entries: seq<Entry>, clock: Clock): (sent: seq<Notice>)
    ensures |sent| <= |entries|
  {
    NoticesBounded(entries, clock, 0, IsDue);
    Notices(entries, clock, 0, IsDue)
  }

  /** Sweeping two runs of entries one after the other: the second run takes the readings after the first's. */
  lemma {:induction false} NoticesAppend(a: seq<Entry>, b: seq<Entry>, clock: Clock, from: nat, due: Rule)
    ensures Notices(a + b, clock, from, due) == Notices(a, clock, from, due) + Notices(b, clock, from + |a|, due)
    decreases |a|
  {
    if a == [] {
      assert a + b == b;
    } else {
      assert (a + b)[0] == a[0] && (a + b)[1..] == a[1..] + b;
      NoticesAppend(a[1..], b, clock, from + 1, due);
      var (first, middle, last) := (NoticeFor(a[0], clock(from), due), Notices(a[1..], clock, from + 1, due), Notices(b, clock, from + |a|, due));
      assert first + (middle + last) == first + middle + last;
    }
  }

  /** One more entry after a run adds its own notice, if any, judged at the next reading. */
  lemma NoticesSnoc(e: seq<Entry>, x: Entry, clock: Clock, from: nat, due: Rule)
    ensures Notices(e + [x], clock, from, due) == Notices(e, clock, from, due) + NoticeFor(x, clock(from + |e|), due)
  {
    NoticesAppend(e, [x], clock, from, due);
    assert [x][1..] == [];
  }

  /** Entry `i` matches `due` at its reading of the clock, and `notice` is the message for it. */
  predicate Matches(entries: seq<Entry>, clock: Clock, from: nat, i: int, notice: Notice, due: Rule) {
    0 <= i < |entries| && entries[i] == Entry(notice.chat, notice.record) && due(entries[i].record, clock(from + i))
  }

  lemma {:induction false} SentOnlyWhenMatched(entries: seq<Entry>, clock: Clock, from: nat, notice: Notice, due: Rule) returns (i: int)
    requires notice in Notices(entries, clock, from, due)
    ensures Matches(entries, clock, from, i, notice, due)
    decreases |entries|
  {
    if notice in NoticeFor(entries[0], clock(from), due) {
      i := 0;
    } else {
      var j := SentOnlyWhenMatched(entries[1..], clock, from + 1, notice, due);
      assert entries[1..][j] == entries[j + 1];
      i := j + 1;
    }
  }

  lemma {:induction false} SentWhenMatched(entries: seq<Entry>, clock: Clock, from: nat, i: int, notice: Notice, due: Rule)
    requires Matches(entries, clock, from, i, notice, due)
    ensures notice in Notices(entries, clock, from, due)
    decreases |entries|
  {
    if i == 0 {
      assert NoticeFor(entries[0], clock(from), due) == [notice];
    } else {
      assert entries[1..][i - 1] == entries[i];
      SentWhenMatched(entries[1..], clock, from + 1, i - 1, notice, due);
    }
  }

  /** A notice is sent for an entry exactly when that entry is due at its reading of the clock; nothing else is sent. */
  lemma DueNoticesExactly(entries: seq<Entry>, clock: Clock, notice: Notice)
    ensures notice in DueNotices(entries, clock) <==>
      exists i :: 0 <= i < |entries| && entries[i] == Entry(notice.chat, notice.record) && IsDue(entries[i].record, clock(i))
  {
    if notice in DueNotices(entries, clock) {
      var i := SentOnlyWhenMatched(entries, clock, 0, notice, IsDue);
    }
    if exists i :: 0 <= i < |entries| && entries[i] == Entry(notice.chat, notice.record) && IsDue(entries[i].record, clock(i)) {
      var i :| 0 <= i < |entries| && entries[i] == Entry(notice.chat, notice.record) && IsDue(entries[i].record, clock(i));
      assert Matches(entries, clock, 0, i, notice, IsDue);
      SentWhenMatched(entries, clock, 0, i, notice, IsDue);
    }
  }

  /**
   * A birthday `n` calendar days after the current instant's day, with the
   * lead typed as the decimal `lead`, is due exactly when `lead` is `n` (the
   * instant is a midnight) or `n - 1` (any later moment of the day): one
   * day more or less is never due.
   */
  lemma DueExactlyAtLead(d: Date, lead: int, r: BirthdayRecord, now: DateTime, n: int)
    requires ValidDateTime(now) && Ordinal(d) == Ordinal(now.date) + n
    requires r.birthdayDate == Some(d) && r.reminderDays == Some(Decimal(lead))
    ensures IsDue(r, now) <==> lead == if TimeOfDay(now) == 0 then n else n - 1
  {
    PyIntOfDecimal(lead, "", "");
    assert "" + Decimal(lead) + "" == Decimal(lead);
    assert LeadDays(r) == Some(lead);
    DaysToMidnight(d, now, n);
    assert IsDue(r, now) <==> DaysBetween(Midnight(d), now) == lead;
  }

  /** Never more notices than entries. */
  lemma {:induction false} NoticesBounded(entries: seq<Entry>, clock: Clock, from: nat, due: Rule)
    ensures |Notices(entries, clock, from, due)| <= |entries|
    decreases |entries|
  {
    if entries != [] {
      NoticesBounded(entries[1..], clock, from + 1, due);
    }
  }

  /** The first chats' entries come first: one more chat appends its entries to the sweep. */
  lemma SweepOrderStep(order: seq<ChatId>, db: map<ChatId, seq<BirthdayRecord>>, i: nat)
    requires i < |order|
    ensures SweepOrder(order[..i + 1], db) == SweepOrder(order[..i], db) + if order[i] in db then ChatEntries(order[i], db[order[i]]) else []
  {
    assert order[..i + 1][..i] == order[..i];
  }

  /**
   * Line 111 as written: `strptime` is given the stored value, a `date`
   * object, not a string, and raises TypeError. Nothing is caught, so the
   * first entry reached ends the sweep before anything is sent.
   */
  function SweepAsWritten(entries: seq<Entry>, clock: Clock): (o: SweepOutcome)
    ensures o.sent == []
    ensures o.Raised? <==> entries != []
  {
    if entries == [] then Finished([]) else Raised([])
  }

  /** A birthday five days ahead, lead "5", at midnight. */
  function ExampleRecord(): BirthdayRecord {
    BirthdayRecord(Some("Alice"), Some(Date(2030, 5, 6)), Some("5"), Some("Book"), Some("Call in the morning"))
  }

  function ExampleNow(): DateTime {
    DateTime(Date(2030, 5, 1), 0, 0, 0, 0)
  }

  /** A clock standing still at `ExampleNow()`. */
  function ExampleClock(): Clock {
    _ => ExampleNow()
  }

  lemma ExampleLead()
    ensures LeadDays(ExampleRecord()) == Some(5)
  {
    PyIntOfDecimal(5, "", "");
    assert "" + Decimal(5) + "" == "5";
  }

  lemma ExampleIsDue()
    ensures IsDue(ExampleRecord(), ExampleNow())
  {
    ExampleLead();
    assert Ordinal(Date(2030, 5, 6)) == Ordinal(Date(2030, 5, 1)) + 5;
    DaysToMidnight(Date(2030, 5, 6), ExampleNow(), 5);
  }

  /** The entry the intended sweep reminds about is not reminded about as written. */
  lemma SweepAsWrittenMissesDueEntry()
    ensures DueNotices([Entry(1, ExampleRecord())], ExampleClock()) == [Notice(1, ExampleRecord())]
    ensures SweepAsWritten([Entry(1, ExampleRecord())], ExampleClock()) == Raised([])
  {
    ExampleIsDue();
    assert [Entry(1, ExampleRecord())][1..] == [];
  }

  /**
   * Line 113 with line 111 mended: `int()` of the lead text, which was stored
   * unchecked, raises ValueError for text such as "five", and the exception
   * ends the whole sweep, so the entries after it are never looked at. The
   * rule `due` decides the entries whose lead converts; the clock is read for
   * each entry reached, the first one at reading `from`.
   */
  function SweepStrict(entries: seq<Entry>, clock: Clock, from: nat, due: Rule): (o: SweepOutcome)
    ensures o.Finished? <==> forall i | 0 <= i < |entries| :: LeadDays(entries[i].record).Some?
    ensures |o.sent| <= |entries|
    decreases |entries|
  {
    if entries == [] then Finished([])
    else if LeadDays(entries[0].record).None? then Raised([])
    else
      var first := NoticeFor(entries[0], clock(from), due);
      var rest := SweepStrict(entries[1..], clock, from + 1, due);
      assert forall i | 0 < i < |entries| :: entries[i] == entries[1..][i - 1];
      if rest.Raised? then Raised(first + rest.sent) else Finished(first + rest.sent)
  }

  /** The strict sweep with the bot's own matching rule. */
  function SweepStrictLead(entries: seq<Entry>, clock: Clock): (o: SweepOutcome)
    ensures o.Finished? <==> forall i | 0 <= i < |entries| :: LeadDays(entries[i].record).Some?
  {
    SweepStrict(entries, clock, 0, IsDue)
  }

  /** When every lead converts, the strict sweep is the sweep that skips nobody. */
  lemma {:induction false} StrictAgrees(entries: seq<Entry>, clock: Clock, from: nat, due: Rule)
    requires forall i | 0 <= i < |entries| :: LeadDays(entries[i].record).Some?
    ensures SweepStrict(entries, clock, from, due) == Finished(Notices(entries, clock, from, due))
    decreases |entries|
  {
    if entries != [] {
      assert LeadDays(entries[0].record).Some?;
      assert forall i | 0 <= i < |entries| - 1 :: entries[1..][i] == entries[i + 1];
      StrictAgrees(entries[1..], clock, from + 1, due);
    }
  }

  /** When every lead converts, the strict sweep is the intended one. */
  lemma StrictLeadAgrees(entries: seq<Entry>, clock: Clock)
    requires forall i | 0 <= i < |entries| :: LeadDays(entries[i].record).Some?
    ensures SweepStrictLead(entries, clock) == Finished(DueNotices(entries, clock))
  {
    StrictAgrees(entries, clock, 0, IsDue);
  }

  /**
   * The first lead that does not convert ends the strict sweep there: what
   * was sent is the notices of the entries before it, whatever comes after it.
   */
  lemma {:induction false} StrictRaisesAt(before: seq<Entry>, bad: Entry, after: seq<Entry>, clock: Clock, from: nat, due: Rule)
    requires forall j | 0 <= j < |before| :: LeadDays(before[j].record).Some?
    requires LeadDays(bad.record).None?
    ensures SweepStrict(before + [bad] + after, clock, from, due) == Raised(Notices(before, clock, from, due))
    decreases |before|
  {
    var entries := before + [bad] + after;
    if before == [] {
      assert entries[0] == bad;
    } else {
      var tail := before[1..];
      assert entries[0] == before[0];
      assert entries[1..] == tail + [bad] + after;
      assert forall j | 0 <= j < |tail| :: tail[j] == before[j + 1];
      StrictRaisesAt(tail, bad, after, clock, from + 1, due);
    }
  }

  /** A sweep of two entries: the first judged at reading `from`, the second at the next. */
  lemma TwoEntries(e: Entry, x: Entry, clock: Clock, from: nat, due: Rule)
    ensures Notices([e, x], clock, from, due) == NoticeFor(e, clock(from), due) + NoticeFor(x, clock(from + 1), due)
  {
    assert [e, x][1..] == [x] && [x][1..] == [];
    var last := NoticeFor(x, clock(from + 1), due);
    assert Notices([x], clock, from + 1, due) == last + [];
    assert last + [] == last;
  }

  /** A lead typed in words does not convert. */
  lemma FiveDoesNotConvert()
    ensures LeadDays(ExampleRecord().(reminderDays := Some("five"))).None?
  {
    PyIntNeedsADigit("five");
  }

  /** "five" as a lead ends the strict sweep before the due birthday stored after it. */
  lemma StrictLeadAborts()
    ensures var entries := [Entry(1, ExampleRecord().(reminderDays := Some("five"))), Entry(1, ExampleRecord())];
      && SweepStrictLead(entries, ExampleClock()) == Raised([])
      && DueNotices(entries, ExampleClock()) == [Notice(1, ExampleRecord())]
  {
    var bad := Entry(1, ExampleRecord().(reminderDays := Some("five")));
    var good := Entry(1, ExampleRecord());
    FiveDoesNotConvert();
    StrictRaisesAt([], bad, [good], ExampleClock(), 0, IsDue);
    assert [] + [bad] + [good] == [bad, good];
    ExampleIsDue();
    TwoEntries(bad, good, ExampleClock(), 0, IsDue);
    assert NoticeFor(bad, ExampleClock()(0), IsDue) == [];
    assert NoticeFor(good, ExampleClock()(1), IsDue) == [Notice(1, ExampleRecord())];
  }
}
