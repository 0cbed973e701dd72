/**
 * The reminder bot: a two-step conversation (`/enter_reminder`, then the
 * reminder text, then its date and time) over two SQLite tables, `users` and
 * `reminders`, and an in-memory map `temp_reminders` of pending input.
 *
 * The bot library routes the next message of a chat to the handler a previous
 * handler registered for that chat, removing the registration first; a handler
 * that wants another message registers again. `steps` is that registry, keyed
 * by chat. The pending input is keyed by the sending user.
 */
module ReminderBot {
  import opened Wrappers
  import opened PyText
  import opened Calendar
  import opened Strptime

  type UserId = int
  type ChatId = int

  /** The parts of an incoming text message the handlers read. */
  datatype Message = Message(chat: ChatId, user: UserId, username: Option<string>, text: string)

  /** A row of `users`; `id` is the table's primary key. */
  datatype UserRow = UserRow(id: UserId, username: Option<string>)

  /** A row of `reminders` (its autoincrement key is the row's position). */
  datatype ReminderRow = ReminderRow(user: UserId, text: string, time: DateTime)

  /** `temp_reminders[user_id]`: the text, and the time once one has been accepted. */
  datatype Pending = Pending(text: string, time: Option<DateTime>)

  /** The handler registered for a chat's next message. */
  datatype Step = AwaitingText | AwaitingTime

  /** What the bot answers; the wording lives outside the core. */
  datatype Reply =
    | AskText
    | AskTime
    | Saved(text: string, time: DateTime)
    | WrongTimeFormat
    | HandlerFailed   // the handler raised an exception the bot library only logs

  predicate UniqueIds(users: seq<UserRow>) {
    forall i, j | 0 <= i < j < |users| :: users[i].id != users[j].id
  }

  predicate HasUser(users: seq<UserRow>, id: UserId) {
    exists i | 0 <= i < |users| :: users[i].id == id
  }

  /**
   * The `users` table after the check-then-insert of `/enter_reminder`: one
   * row is added exactly when no row has the id, so ids stay unique.
   */
  function Registered(users: seq<UserRow>, id: UserId, username: Option<string>): (r: seq<UserRow>)
    ensures HasUser(r, id)
    ensures UniqueIds(users) ==> UniqueIds(r)
    ensures HasUser(users, id) ==> r == users
    ensures !HasUser(users, id) ==> r == users + [UserRow(id, username)]
  {
    if HasUser(users, id) then users
    else
      var r := users + [UserRow(id, username)];
      assert r[|users|].id == id;
      r
  }

  /** Repeating `/enter_reminder` never adds a second row: registering is idempotent, whatever username comes the second time. */
  lemma RegisteredIdempotent(users: seq<UserRow>, id: UserId, first: Option<string>, second: Option<string>)
    ensures Registered(Registered(users, id, first), id, second) == Registered(users, id, first)
  {
  }

  /** Every time a pending entry holds is a real instant. */
  predicate PendingTimesValid(pending: map<UserId, Pending>) {
    forall u | u in pending && pending[u].time.Some? :: ValidDateTime(pending[u].time.value)
  }

  /** A fresh text without a time keeps the pending times real. */
  lemma PendingTextKeepsTimes(pending: map<UserId, Pending>, u: UserId, text: string)
    requires PendingTimesValid(pending)
    ensures PendingTimesValid(pending[u := Pending(text, None)])
  {
  }

  class Bot {
    var users: seq<UserRow>
    var reminders: seq<ReminderRow>
    var pending: map<UserId, Pending>
    var steps: map<ChatId, Step>

    ghost predicate Valid()
      reads this
    {
      && UniqueIds(users)
      && (forall i | 0 <= i < |reminders| :: ValidDateTime(reminders[i].time))
      && PendingTimesValid(pending)
    }

    /**
     * The bot starting on a database file that already holds these rows:
     * the tables survive a restart, the in-memory state does not.
     */
    constructor (storedUsers: seq<UserRow>, storedReminders: seq<ReminderRow>)
      requires UniqueIds(storedUsers)
      requires forall i | 0 <= i < |storedReminders| :: ValidDateTime(storedReminders[i].time)
      ensures Valid()
      ensures users == storedUsers && reminders == storedReminders
      ensures pending == map[] && steps == map[]
    {
      users, reminders := storedUsers, storedReminders;
      pending, steps := map[], map[];
    }

    /**
     * `/enter_reminder`: record the user if the table does not know the id
     * yet, then ask for the text. A command reaches its handler only when no
     * step is registered for the chat (otherwise `Deliver` takes it).
     */
    method EnterReminder(m: Message) returns (reply: Reply)
      requires Valid() && m.chat !in steps
      modifies this
      ensures Valid()
      ensures users == Registered(old(users), m.user, m.username)
      ensures reminders == old(reminders) && pending == old(pending)
      ensures steps == old(steps)[m.chat := AwaitingText]
      ensures reply == AskText
    {
      if !HasUser(users, m.user) {
        users := users + [UserRow(m.user, m.username)];
      }
      steps := steps[m.chat := AwaitingText];
      reply := AskText;
    }

    /** The text step: the stripped text replaces whatever the user had pending. */
    method ProcessReminderText(m: Message) returns (reply: Reply)
      requires Valid()
      modifies this
      ensures Valid()
      ensures pending == old(pending)[m.user := Pending(Strip(StrWhitespace, m.text), None)]
      ensures users == old(users) && reminders == old(reminders)
      ensures steps == old(steps)[m.chat := AwaitingTime]
      ensures reply == AskTime
    {
      var text := Strip(StrWhitespace, m.text);
      PendingTextKeepsTimes(pending, m.user, text);
      pending := pending[m.user := Pending(text, None)];
      steps := steps[m.chat := AwaitingTime];
      reply := AskTime;
    }

    /**
     * The time step. Text that does not parse re-registers the step and
     * changes nothing else. A parsed time is added to the user's pending entry
     * (which stays in the map) and one row is appended; when the user has no
     * pending entry (in a group chat another member may answer) the lookup
     * raises, nothing is written and no step is registered again.
     */
    method ProcessReminderTime(m: Message) returns (reply: Reply)
      requires Valid()
      modifies this
      ensures Valid()
      ensures users == old(users)
      ensures var parsed := ParseDateTime(Strip(StrWhitespace, m.text));
        if parsed.None? then
          && reminders == old(reminders) && pending == old(pending)
          && steps == old(steps)[m.chat := AwaitingTime]
          && reply == WrongTimeFormat
        else if m.user in old(pending) then
          var text := old(pending)[m.user].text;
          && reminders == old(reminders) + [ReminderRow(m.user, text, parsed.value)]
          && pending == old(pending)[m.user := Pending(text, parsed)]
          && steps == old(steps)
          && reply == Saved(text, parsed.value)
        else
          && reminders == old(reminders) && pending == old(pending)
          && steps == old(steps)
          && reply == HandlerFailed
    {
      reply := CommitTime(m, ParseDateTime(Strip(StrWhitespace, m.text)));
    }

    /** The time step once the text has been through `strptime`. */
    method CommitTime(m: Message, parsed: Option<DateTime>) returns (reply: Reply)
      requires Valid() && (parsed.Some? ==> ValidDateTime(parsed.value))
      modifies this
      ensures Valid()
      ensures users == old(users)
      ensures if parsed.None? then
          && reminders == old(reminders) && pending == old(pending)
          && steps == old(steps)[m.chat := AwaitingTime]
          && reply == WrongTimeFormat
        else if m.user in old(pending) then
          var text := old(pending)[m.user].text;
          && reminders == old(reminders) + [ReminderRow(m.user, text, parsed.value)]
          && pending == old(pending)[m.user := Pending(text, parsed)]
          && steps == old(steps)
          && reply == Saved(text, parsed.value)
        else
          && reminders == old(reminders) && pending == old(pending)
          && steps == old(steps)
          && reply == HandlerFailed
    {
      if parsed.None? {
        steps := steps[m.chat := AwaitingTime];
        reply := WrongTimeFormat;
      } else if m.user in pending {
        var text := pending[m.user].text;
        pending := pending[m.user := Pending(text, parsed)];
        reminders := reminders + [ReminderRow(m.user, text, parsed.value)];
        reply := Saved(text, parsed.value);
      } else {
        reply := HandlerFailed;
      }
    }

    /**
     * An incoming text message: a chat with a registered step has that step
     * removed and its handler run; any other message is for the command
     * handlers, outside this model.
     */
    method Deliver(m: Message) returns (reply: Option<Reply>)
      requires Valid()
      modifies this
      ensures Valid()
      ensures m.chat !in old(steps) ==> reply == None && unchanged(this)
      ensures m.chat in old(steps) ==> users == old(users)
      ensures m.chat in old(steps) && old(steps)[m.chat] == AwaitingText ==>
        && pending == old(pending)[m.user := Pending(Strip(StrWhitespace, m.text), None)]
        && reminders == old(reminders) && steps == old(steps)[m.chat := AwaitingTime]
        && reply == Some(AskTime)
      ensures m.chat in old(steps) && old(steps)[m.chat] == AwaitingTime ==>
        var parsed := ParseDateTime(Strip(StrWhitespace, m.text));
        if parsed.None? then
          && reminders == old(reminders) && pending == old(pending)
          && steps == old(steps)
          && reply == Some(WrongTimeFormat)
        else if m.user in old(pending) then
          var text := old(pending)[m.user].text;
          && reminders == old(reminders) + [ReminderRow(m.user, text, parsed.value)]
          && pending == old(pending)[m.user := Pending(text, parsed)]
          && steps == old(steps) - {m.chat}
          && reply == Some(Saved(text, parsed.value))
        else
          && reminders == old(reminders) && pending == old(pending)
          && steps == old(steps) - {m.chat}
          && reply == Some(HandlerFailed)
    {
      if m.chat !in steps {
        reply := None;
      } else {
        var step := steps[m.chat];
        steps := steps - {m.chat};
        var r: Reply;
        if step == AwaitingText {
          r := ProcessReminderText(m);
        } else {
          r := ProcessReminderTime(m);
        }
        reply := Some(r);
      }
    }

    /**
     * `/get_reminders`: the user's reminders numbered from 1, or the "no
     * reminders" answer. The query has no ORDER BY, so only the numbering and
     * the multiset of (text, time) pairs are promised, not their order.
     */
    method GetReminders(user: UserId) returns (listing: Listing)
      ensures listing.NoReminders? <==> UserReminders(reminders, user) == []
      ensures listing.Reminders? ==>
        && |listing.items| == |UserReminders(reminders, user)|
        && (forall k | 0 <= k < |listing.items| :: listing.items[k].number == k + 1)
        && multiset(Contents(listing.items)) == multiset(UserReminders(reminders, user))
    {
      var items: seq<ListedReminder> := [];
      var i := 0;
      while i < |reminders|
        invariant 0 <= i <= |reminders|
        invariant Contents(items) == UserReminders(reminders[..i], user)
        invariant forall k | 0 <= k < |items| :: items[k].number == k + 1
      {
        var row := reminders[i];
        assert reminders[..i + 1][..i] == reminders[..i];
        if row.user == user {
          items := items + [ListedReminder(|items| + 1, row.text, row.time)];
        }
        i := i + 1;
      }
      assert reminders[..i] == reminders;
      if items == [] {
        listing := NoReminders;
      } else {
        listing := Reminders(items);
      }
    }
  }

  datatype ListedReminder = ListedReminder(number: nat, text: string, time: DateTime)

  datatype Listing = NoReminders | Reminders(items: seq<ListedReminder>)

  /** The (text, time) pairs of `user`'s rows, in row order. */
  function UserReminders(rows: seq<ReminderRow>, user: UserId): seq<(string, DateTime)> {
    if rows == [] then []
    else
      var last := rows[|rows| - 1];
      UserReminders(rows[..|rows| - 1], user) + if last.user == user then [(last.text, last.time)] else []
  }

  function Contents(items: seq<ListedReminder>): (r: seq<(string, DateTime)>)
    ensures |r| == |items|
  {
    if items == [] then [] else Contents(items[..|items| - 1]) + [(items[|items| - 1].text, items[|items| - 1].time)]
  }
}

/**
 * The admin report: the rows of `users LEFT JOIN reminders ORDER BY username,
 * reminder_time`, turned into lines. A user header is written whenever a
 * row's username differs from the one in the current header, which starts as
 * `None`; each row then gives a reminder line, or a "no reminders" line for
 * the NULL text and time of a user without reminders.
 */
module AdminReport {
  import opened Wrappers
  import opened Calendar

  datatype JoinRow = JoinRow(username: Option<string>, text: Option<string>, time: Option<DateTime>)

  datatype AdminLine = UserHeader(username: Option<string>) | ReminderLine(text: string, time: DateTime) | NoRemindersLine

  datatype Report = NoUsers | Lines(lines: seq<AdminLine>)

  /** `if reminder_text and reminder_time`: NULL and the empty text are both false. */
  function EntryLine(row: JoinRow): (line: AdminLine)
    ensures !line.UserHeader?
    ensures line.ReminderLine? ==> row.text == Some(line.text) && line.text != "" && row.time == Some(line.time)
    ensures line.NoRemindersLine? ==> row.text.None? || row.text == Some("") || row.time.None?
  {
    if row.text.Some? && row.text.value != "" && row.time.Some? then ReminderLine(row.text.value, row.time.value)
    else NoRemindersLine
  }

  /** What one row adds when the loop holds `current` as `current_user`: a header when the row's username differs, then its entry. */
  function RowLines(current: Option<string>, row: JoinRow): seq<AdminLine> {
    (if current != row.username then [UserHeader(row.username)] else []) + [EntryLine(row)]
  }

  /** The lines the loop writes for `rows` when it reaches them holding `current`. */
  function ReportFrom(current: Option<string>, rows: seq<JoinRow>): (lines: seq<AdminLine>)
    ensures |rows| <= |lines| <= 2 * |rows|
    decreases |rows|
  {
    if rows == [] then [] else RowLines(current, rows[0]) + ReportFrom(rows[0].username, rows[1..])
  }

  /** The whole report: `current_user` starts as `None`. */
  function ReportLines(rows: seq<JoinRow>): (lines: seq<AdminLine>)
    ensures |rows| <= |lines| <= 2 * |rows|
  {
    ReportFrom(None, rows)
  }

  /** `/admin`: the report, or the "no users" answer when the query returns nothing. */
  method AdminListing(rows: seq<JoinRow>) returns (report: Report)
    ensures report.NoUsers? <==> rows == []
    ensures report.Lines? ==> report.lines == ReportLines(rows)
  {
    if rows == [] {
      return NoUsers;
    }
    var lines: seq<AdminLine> := [];
    var current: Option<string> := None;
    var i := 0;
    while i < |rows|
      invariant 0 <= i <= |rows|
      invariant lines + ReportFrom(current, rows[i..]) == ReportLines(rows)
    {
      var row := rows[i];
      ReportStep(lines, current, rows, i);
      ghost var (before, was) := (lines, current);
      if current != row.username {
        lines := lines + [UserHeader(row.username)];
        current := row.username;
      }
      lines := lines + [EntryLine(row)];
      assert lines == before + RowLines(was, row);
      i := i + 1;
    }
    assert lines + [] == lines;
    report := Lines(lines);
  }

  /** One row of the loop: the lines written so far, then that row's, then the rest of the report. */
  lemma ReportStep(lines: seq<AdminLine>, current: Option<string>, rows: seq<JoinRow>, i: nat)
    requires i < |rows|
    ensures lines + ReportFrom(current, rows[i..]) == (lines + RowLines(current, rows[i])) + ReportFrom(rows[i].username, rows[i + 1..])
  {
    assert rows[i..][0] == rows[i] && rows[i..][1..] == rows[i + 1..];
  }

  /** The lines that are not headers. */
  function Entries(lines: seq<AdminLine>): seq<AdminLine>
    decreases |lines|
  {
    if lines == [] then []
    else (if lines[0].UserHeader? then [] else [lines[0]]) + Entries(lines[1..])
  }

  lemma {:induction false} EntriesAppend(a: seq<AdminLine>, b: seq<AdminLine>)
    ensures Entries(a + b) == Entries(a) + Entries(b)
    decreases |a|
  {
    if a == [] {
      assert a + b == b;
    } else {
      assert (a + b)[0] == a[0] && (a + b)[1..] == a[1..] + b;
      EntriesAppend(a[1..], b);
      var first := if a[0].UserHeader? then [] else [a[0]];
      assert first + (Entries(a[1..]) + Entries(b)) == first + Entries(a[1..]) + Entries(b);
    }
  }

  /** A row's lines hold exactly one entry, its own. */
  lemma RowEntries(current: Option<string>, row: JoinRow)
    ensures Entries(RowLines(current, row)) == [EntryLine(row)]
  {
    var single := [EntryLine(row)];
    assert single[1..] == [];
    assert Entries(single) == [EntryLine(row)] + [];
    if current != row.username {
      assert RowLines(current, row)[1..] == single;
    } else {
      assert RowLines(current, row) == single;
    }
  }

  /** From any current user on, the report has one entry line per row, in row order. */
  lemma {:induction false} EntriesFrom(current: Option<string>, rows: seq<JoinRow>)
    ensures |Entries(ReportFrom(current, rows))| == |rows|
    ensures forall i | 0 <= i < |rows| :: Entries(ReportFrom(current, rows))[i] == EntryLine(rows[i])
    decreases |rows|
  {
    if rows != [] {
      var rest := rows[1..];
      EntriesFrom(rows[0].username, rest);
      EntriesAppend(RowLines(current, rows[0]), ReportFrom(rows[0].username, rest));
      RowEntries(current, rows[0]);
      var e := Entries(ReportFrom(current, rows));
      var tail := Entries(ReportFrom(rows[0].username, rest));
      assert e == [EntryLine(rows[0])] + tail;
      forall i | 0 <= i < |rows| ensures e[i] == EntryLine(rows[i]) {
        if i > 0 {
          assert e[i] == tail[i - 1] && rest[i - 1] == rows[i];
        }
      }
    }
  }

  /** The report has one entry line per row, in row order: a user without reminders is listed too. */
  lemma OneEntryPerRow(rows: seq<JoinRow>)
    ensures |Entries(ReportLines(rows))| == |rows|
    ensures forall i | 0 <= i < |rows| :: Entries(ReportLines(rows))[i] == EntryLine(rows[i])
  {
    EntriesFrom(None, rows);
  }

  /**
   * Each entry line paired with the header in force when it is printed,
   * `header` before the first header of `lines`; `None` stands for no header.
   */
  function AttributedFrom(header: Option<Option<string>>, lines: seq<AdminLine>): seq<(Option<Option<string>>, AdminLine)>
    decreases |lines|
  {
    if lines == [] then []
    else if lines[0].UserHeader? then AttributedFrom(Some(lines[0].username), lines[1..])
    else [(header, lines[0])] + AttributedFrom(header, lines[1..])
  }

  /** Each entry line of a report paired with the header it is printed under. */
  function Attributed(lines: seq<AdminLine>): seq<(Option<Option<string>>, AdminLine)> {
    AttributedFrom(None, lines)
  }

  /** Some row has a username. */
  predicate NamedSeen(rows: seq<JoinRow>) {
    exists j | 0 <= j < |rows| :: rows[j].username.Some?
  }

  /** The user a row's entry is printed under: its own, unless no row up to it has a username. */
  function Owner(rows: seq<JoinRow>, i: nat): Option<Option<string>>
    requires i < |rows|
  {
    if NamedSeen(rows[..i + 1]) then Some(rows[i].username) else None
  }

  /** One row's lines: its entry goes under its own header if it wrote one, else under the header in force. */
  lemma AttributedRow(header: Option<Option<string>>, current: Option<string>, row: JoinRow, rest: seq<AdminLine>)
    ensures var after := if current != row.username then Some(row.username) else header;
      AttributedFrom(header, RowLines(current, row) + rest) == [(after, EntryLine(row))] + AttributedFrom(after, rest)
  {
    var entry := [EntryLine(row)] + rest;
    assert entry[0] == EntryLine(row) && entry[1..] == rest;
    if current != row.username {
      var lines := RowLines(current, row) + rest;
      assert lines[0] == UserHeader(row.username) && lines[1..] == entry;
    } else {
      assert RowLines(current, row) + rest == entry;
    }
  }

  /** A row after the first has a username before it or at it exactly when the first row has one or a later row up to it has. */
  lemma NamedSeenStep(rows: seq<JoinRow>, i: nat)
    requires 0 < i < |rows|
    ensures NamedSeen(rows[..i + 1]) <==> rows[0].username.Some? || NamedSeen(rows[1..][..i])
  {
    var (all, rest) := (rows[..i + 1], rows[1..][..i]);
    assert forall j | 0 <= j < i :: rest[j] == all[j + 1];
    if NamedSeen(all) {
      var j :| 0 <= j < |all| && all[j].username.Some?;
      if j > 0 { assert rest[j - 1].username.Some?; }
    }
  }

  /**
   * The header an entry goes under, from a point where the header in force is
   * `Some(current)`, or no header with `current` still `None`: the entry's own
   * user, except that while no row so far has a username there is no header.
   */
  lemma {:induction false} AttributedFromOwner(header: Option<Option<string>>, current: Option<string>, rows: seq<JoinRow>)
    requires header == Some(current) || (header == None && current == None)
    ensures |AttributedFrom(header, ReportFrom(current, rows))| == |rows|
    ensures forall i | 0 <= i < |rows| ::
      AttributedFrom(header, ReportFrom(current, rows))[i] == (if header.Some? then Some(rows[i].username) else Owner(rows, i), EntryLine(rows[i]))
    decreases |rows|
  {
    if rows != [] {
      var (row, rest) := (rows[0], rows[1..]);
      var after := if current != row.username then Some(row.username) else header;
      AttributedRow(header, current, row, ReportFrom(row.username, rest));
      AttributedFromOwner(after, row.username, rest);
      var a := AttributedFrom(header, ReportFrom(current, rows));
      assert a == [(after, EntryLine(row))] + AttributedFrom(after, ReportFrom(row.username, rest));
      assert a[0].0 == if header.Some? then Some(row.username) else Owner(rows, 0) by {
        assert rows[..1] == [row];
        if row.username.Some? { assert rows[..1][0].username.Some?; }
      }
      forall i | 1 <= i < |rows|
        ensures a[i] == (if header.Some? then Some(rows[i].username) else Owner(rows, i), EntryLine(rows[i]))
      {
        assert rest[i - 1] == rows[i];
        if header.None? {
          NamedSeenStep(rows, i);
          if row.username.Some? {
            assert after == Some(row.username);
          } else {
            assert after == None && Owner(rest, i - 1) == Owner(rows, i);
          }
        }
      }
    }
  }

  /**
   * Every entry line is printed under the header of its own row's user. The
   * one exception: rows at the start whose username is NULL get no header at
   * all, because the loop's "current user" starts as `None` too.
   */
  lemma EntriesUnderOwnHeader(rows: seq<JoinRow>)
    ensures |Attributed(ReportLines(rows))| == |rows|
    ensures forall i | 0 <= i < |rows| :: Attributed(ReportLines(rows))[i] == (Owner(rows, i), EntryLine(rows[i]))
  {
    AttributedFromOwner(None, None, rows);
  }
}
