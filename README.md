# Two Telegram bots, modelled in Dafny

The repository holds two small chat bots with the same shape: a command starts
a multi-turn conversation, each answer fills one field of a pending record,
and the last answer commits the record to a store.

- **The reminder bot** (`src/telegram_bot_reminder/api/telegram.py`) asks for
  a reminder's text and then its date and time (`YYYY-MM-DD HH:MM`). It keeps
  two SQLite tables, `users` and `reminders`, plus an in-memory map
  `temp_reminders` of pending input keyed by user. It can list one user's
  reminders. An `/admin` listing groups every user's reminders under a header
  per user.
- **The birthday bot** (`src/telegram_bot_birthday/api/telegram.py`) asks for
  a name, a `DD-MM-YYYY` date (asked again until it parses), a lead in days,
  gifts and a note. It fills one mutable `Birthday` object along the way and
  appends that object to the chat's list in the in-memory dict `database`. It
  can list a chat's birthdays. Its reminder sweep `send_birthday_reminder`
  walks every stored birthday and is meant to send a reminder when the
  floored day count to the birthday equals the lead; as written it raises at
  the first stored birthday (see "## Findings").

The modules:

| module | file | what it holds |
|---|---|---|
| `Wrappers` | `Wrappers.dfy` | `Option` |
| `PyText` | `PyText.dfy` | Python's `str.strip()` and `int()` on text |
| `Calendar` | `Calendar.dfy` | proleptic Gregorian dates, instants in microseconds, `timedelta.days` as a floor |
| `Strptime` | `Strptime.dfy` | the two `strptime` formats the bots use, and their inverse formatting |
| `ReminderBot` | `ReminderBot.dfy` | class `Bot`: tables as sequences, `temp_reminders` as a map, the registered step per chat |
| `AdminReport` | `ReminderBot.dfy` | the `/admin` grouping loop over the rows of the join |
| `BirthdayConversation` | `BirthdayConversation.dfy` | the birthday conversation as a step function `Advance`, and runs of it |
| `BirthdaySchedule` | `BirthdaySchedule.dfy` | the due rule, the sweep as intended, and the sweep as written |
| `BirthdayBot` | `BirthdayBot.dfy` | classes `Birthday` (fields set in place) and `Bot` (the `database` dict, the registered handlers, the sweep's nested loops) |

The bot library routes a chat's next message to the handler registered for
that chat. It removes the registration first. A handler that wants another
message registers again. Both `Bot` classes model that registry as `steps`,
a map keyed by chat id. A command therefore reaches its handler only when no
step is registered for the chat. `Deliver` is the entry point for any other
text message.

The birthday `Bot` methods are proved against `BirthdayConversation.Advance`.
Each method changes the chat's phase and stored records as `Advance` says.
The properties of the conversation are lemmas about `Advance` and `Run`.
`Bot.Sweep` is proved equal to `BirthdaySchedule.DueNotices`, and the sweep's
properties are lemmas about that function.

The model follows the code's due rule, not the calendar intuition. One might
expect a birthday five days ahead with lead 5 to be due. With the code's floored
day count that holds only when the sweep runs exactly at midnight. At any later
moment of that day the count is 4. `Calendar.DaysToMidnight` and
`BirthdaySchedule.DueExactlyAtLead` state the rule as the code computes it.

## Model

| member | source | states |
|---|---|---|
| PyText.Strip | src/telegram_bot_reminder/api/telegram.py:61 | `str.strip()` leaves no whitespace at either end and never lengthens the text |
| PyText.StripOfPadded | src/telegram_bot_reminder/api/telegram.py:61 | stripping whitespace around an already trimmed text gives back exactly that text |
| PyText.StripIdempotent | src/telegram_bot_reminder/api/telegram.py:61 | stripping twice is stripping once |
| PyText.PyInt | src/telegram_bot_birthday/api/telegram.py:113 | `int()` of text: the whitespace `int()` skips stripped (the `str.isspace` set without the separators U+001C to U+001F, which `int()` rejects), an optional sign, digits with single underscores between them; any text it accepts ends, once stripped, in a digit |
| PyText.PyIntOfDecimal | src/telegram_bot_birthday/api/telegram.py:113 | `int()` of the decimal writing of any integer, with any whitespace `int()` skips around it, is that integer |
| PyText.PyIntNeedsSignOrDigitFirst | src/telegram_bot_birthday/api/telegram.py:113 | `int()` raises on a text whose first character is neither whitespace `int()` skips, nor a sign, nor a digit |
| PyText.PyIntNeedsDigitLast | src/telegram_bot_birthday/api/telegram.py:113 | `int()` raises on a text whose last character is neither whitespace `int()` skips nor a digit |
| PyText.PyIntRejectsSeparators | src/telegram_bot_birthday/api/telegram.py:113 | a text that ends, or starts, with an information separator (U+001C to U+001F) makes `int()` raise, although `str.strip()` removes one in front of a text |
| PyText.PyIntNeedsADigit | src/telegram_bot_birthday/api/telegram.py:113 | `int()` raises on any text that has no decimal digit |
| Calendar.OrdinalOfNextDay | src/telegram_bot_birthday/api/telegram.py:112 | the day after a valid date is valid and exactly one day later on the day count the subtraction uses |
| Calendar.Midnight | src/telegram_bot_birthday/api/telegram.py:111 | the target instant, with line 111 mended: the start of the birthday's day, a valid instant exactly a whole number of days into the calendar |
| Calendar.DaysBetween | src/telegram_bot_birthday/api/telegram.py:112 | `(target - now).days` is the floor of the difference: the difference lies at or after that many whole days and before one more |
| Calendar.DaysToMidnight | src/telegram_bot_birthday/api/telegram.py:112 | `(target - now).days`, for a target n calendar days ahead, is n at midnight and n - 1 at any later moment of the day |
| Strptime.ParseDayMonthYear | src/telegram_bot_birthday/api/telegram.py:59 | every text `%d-%m-%Y` accepts yields a real calendar date (month lengths, leap years) |
| Strptime.ParseDateTime | src/telegram_bot_reminder/api/telegram.py:73 | every text `%Y-%m-%d %H:%M` accepts yields a real instant with zero seconds and microseconds |
| Strptime.ParseFormattedDate | src/telegram_bot_birthday/api/telegram.py:59 | every valid date written as `DD-MM-YYYY` parses back to itself |
| Strptime.ParseFormattedDateTime | src/telegram_bot_reminder/api/telegram.py:73 | every valid minute-precision instant written as `YYYY-MM-DD HH:MM` parses back to itself |
| BirthdayConversation.Advance | src/telegram_bot_birthday/api/telegram.py:51-88 | one answer: name, lead, gifts and note are kept verbatim and each moves one step on; a date that parses moves on, any other keeps the step and the record; the note ends the conversation with a complete record |
| BirthdayConversation.Run | src/telegram_bot_birthday/api/telegram.py:49-88 | the handler chain over a chat's messages: while the conversation lasts each message gets exactly one answer and nothing is completed; at most one record is completed |
| BirthdayConversation.RetriesKeepRecord | src/telegram_bot_birthday/api/telegram.py:57-65 | any number of unparsable dates keeps the conversation at the date step with the same record, answering the format error each time |
| BirthdayConversation.RunAppend | src/telegram_bot_birthday/api/telegram.py:49-88 | a conversation split between two runs of messages continues from where the first run left it |
| BirthdayConversation.ConversationCompletes | src/telegram_bot_birthday/api/telegram.py:45-88 | a name, any unparsable dates, a parsable date, a lead, gifts and a note complete exactly the record of those answers, with the prompts in order |
| BirthdayConversation.DateStepAcceptsFormatted | src/telegram_bot_birthday/api/telegram.py:57-62 | every valid date, typed as `DD-MM-YYYY`, is stored as that date and moves to the lead step |
| BirthdaySchedule.LeadDays | src/telegram_bot_birthday/api/telegram.py:113 | `int(birthday.reminder_days)`: an unset lead never converts, and a lead that converts was typed ending, once stripped, in a digit |
| BirthdaySchedule.IsDue | src/telegram_bot_birthday/api/telegram.py:112-113 | due exactly when the date is set, the lead converts, and the time from now to the birthday's midnight is at least `lead` days and less than `lead + 1` days |
| BirthdaySchedule.DueNotices | src/telegram_bot_birthday/api/telegram.py:107-121 | the sweep as intended: the notices of the due entries in loop order, at most one per stored birthday |
| BirthdaySchedule.SweepAsWritten | src/telegram_bot_birthday/api/telegram.py:111 | the sweep as written: nothing is ever sent, and it raises exactly when some birthday is stored |
| BirthdaySchedule.SweepStrict | src/telegram_bot_birthday/api/telegram.py:113 | the sweep with line 111 mended and `int()` raising: it finishes exactly when every lead reached converts, and sends at most one reminder per entry |
| BirthdaySchedule.SweepStrictLead | src/telegram_bot_birthday/api/telegram.py:113 | the same sweep with the bot's own due rule from the first clock reading: it finishes exactly when every stored lead converts |
| BirthdaySchedule.DueExactlyAtLead | src/telegram_bot_birthday/api/telegram.py:110-113 | a birthday n days ahead is due exactly when the lead is n (at midnight) or n - 1 (later that day); a lead one more or one less is not due |
| BirthdaySchedule.DueNoticesExactly | src/telegram_bot_birthday/api/telegram.py:107-121 | the sweep sends a reminder for an entry exactly when that entry is due at its own reading of the clock, and sends nothing else |
| BirthdaySchedule.NoticesAppend | src/telegram_bot_birthday/api/telegram.py:108-121 | sweeping two runs of entries sends the first run's reminders, then the second's, judged at the readings after the first run's |
| BirthdaySchedule.NoticesBounded | src/telegram_bot_birthday/api/telegram.py:108-121 | a sweep sends at most one reminder per stored birthday |
| BirthdaySchedule.SweepAsWrittenMissesDueEntry | src/telegram_bot_birthday/api/telegram.py:111 | a due birthday gets no reminder as written: the sweep raises before sending |
| BirthdaySchedule.StrictLeadAgrees | src/telegram_bot_birthday/api/telegram.py:113 | when every lead converts, the sweep with `int()` raising finishes and sends exactly the intended reminders |
| BirthdaySchedule.StrictRaisesAt | src/telegram_bot_birthday/api/telegram.py:113 | the first lead that does not convert ends the sweep: only the reminders for the entries before it are sent, whatever follows |
| BirthdaySchedule.StrictLeadAborts | src/telegram_bot_birthday/api/telegram.py:113 | a lead "five" stored before a due birthday stops that birthday's reminder |
| BirthdayBot.Birthday.constructor | src/telegram_bot_birthday/api/telegram.py:30-36 | a new object has every field `None` |
| BirthdayBot.Bot.constructor | src/telegram_bot_birthday/api/telegram.py:28 | the bot starts with an empty `database` and no registered handler |
| BirthdayBot.Bot.HandleBirthday | src/telegram_bot_birthday/api/telegram.py:45-49 | the chat's list becomes empty, discarding earlier birthdays; other chats are unchanged; the chat waits for a name |
| BirthdayBot.Bot.ProcessNameStep | src/telegram_bot_birthday/api/telegram.py:51-55 | a fresh object with only the name set, verbatim, is bound to the date step; the store is unchanged |
| BirthdayBot.Bot.ProcessDateStep | src/telegram_bot_birthday/api/telegram.py:57-65 | the object and the chat's phase change as `Advance` says for the date step; the same object stays bound, to the lead step when the date parses and to the date step again otherwise |
| BirthdayBot.Bot.ProcessReminderDaysStep | src/telegram_bot_birthday/api/telegram.py:68-71 | the lead text is set verbatim on the same object and the gifts step is registered |
| BirthdayBot.Bot.ProcessGiftsStep | src/telegram_bot_birthday/api/telegram.py:73-76 | the gifts text is set verbatim on the same object and the note step is registered |
| BirthdayBot.Bot.ProcessNoteStep | src/telegram_bot_birthday/api/telegram.py:78-88 | the note is set and exactly that object is appended to the end of the chat's list; other chats and earlier entries are unchanged |
| BirthdayBot.Bot.Unregister | src/telegram_bot_birthday/api/telegram.py:49 | the registered handler is removed before it runs, and nothing else changes |
| BirthdayBot.Bot.RunHandler | src/telegram_bot_birthday/api/telegram.py:51-88 | running the handler bound to a step changes the bot as `Advance` says for that step |
| BirthdayBot.Bot.Deliver | src/telegram_bot_birthday/api/telegram.py:49-88 | a message for a chat in a conversation advances it as `Advance` says; a message for any other chat changes nothing |
| BirthdayBot.Bot.ListBirthdays | src/telegram_bot_birthday/api/telegram.py:90-105 | "no reminders" exactly when the chat is absent or its list is empty; otherwise every stored birthday, complete, in insertion order |
| BirthdayBot.Bot.Sweep | src/telegram_bot_birthday/api/telegram.py:107-121 | the nested loop sends exactly the intended reminders, chat by chat in the order the chats were first seen |
| BirthdayBot.SweepBy | src/telegram_bot_birthday/api/telegram.py:108-121 | the outer loop over chats sends the reminders of the entries in loop order that match the rule, entry k judged at the k-th clock reading |
| BirthdayBot.SweepChat | src/telegram_bot_birthday/api/telegram.py:109-121 | the inner loop over one chat's list sends the matching entries' reminders in list order |
| ReminderBot.Registered | src/telegram_bot_reminder/api/telegram.py:49-53 | a user row is added exactly when no row has the id, so the id is then present and ids stay unique |
| ReminderBot.RegisteredIdempotent | src/telegram_bot_reminder/api/telegram.py:49-53 | starting an entry twice never creates a second row for the same id |
| ReminderBot.Bot.constructor | src/telegram_bot_reminder/api/telegram.py:20-40 | the tables keep their rows across a restart; the pending map and the registered steps start empty |
| ReminderBot.Bot.EnterReminder | src/telegram_bot_reminder/api/telegram.py:43-56 | the user is registered only if absent; reminders and pending input are unchanged; the chat waits for the text |
| ReminderBot.Bot.ProcessReminderText | src/telegram_bot_reminder/api/telegram.py:59-67 | the stripped text replaces any earlier pending input of the user, with no time; the tables are unchanged; the chat waits for the time |
| ReminderBot.Bot.ProcessReminderTime | src/telegram_bot_reminder/api/telegram.py:70-89 | an unparsable time changes nothing and asks again; a parsed time appends exactly one row with the pending text and keeps the pending entry, with the time added; a user without pending input raises and nothing is written |
| ReminderBot.Bot.CommitTime | src/telegram_bot_reminder/api/telegram.py:74-89 | the same three outcomes, once the text has been parsed |
| ReminderBot.Bot.Deliver | src/telegram_bot_reminder/api/telegram.py:56-89 | a message for a chat with a registered step runs that step once, unregistered first; any other message changes nothing |
| ReminderBot.Bot.GetReminders | src/telegram_bot_reminder/api/telegram.py:93-107 | "no reminders" exactly when the user has no row; otherwise one item per row, numbered 1, 2, … and holding the same (text, time) pairs |
| AdminReport.AdminListing | src/telegram_bot_reminder/api/telegram.py:115-135 | "no users" exactly when the join returns no row; otherwise the lines of the grouping loop |
| AdminReport.EntryLine | src/telegram_bot_reminder/api/telegram.py:130-133 | a reminder line, carrying the row's own text and time, exactly when both are set and the text is not empty; otherwise the "no reminders" line, never a header |
| AdminReport.ReportLines | src/telegram_bot_reminder/api/telegram.py:125-133 | the loop's lines: each row writes its entry and at most one header, so between one and two lines per row |
| AdminReport.OneEntryPerRow | src/telegram_bot_reminder/api/telegram.py:126-133 | the report has one entry line per row, in row order: a reminder, or "no reminders" for a user without one |
| AdminReport.EntriesUnderOwnHeader | src/telegram_bot_reminder/api/telegram.py:125-129 | each entry is printed under its own user's header, except leading rows with no username, which get no header |

## Findings

| source | as written | input that shows it | evidently intended | confidence | as-written member | corrected member |
|---|---|---|---|---|---|---|
| src/telegram_bot_birthday/api/telegram.py:111 | the sweep passes the stored birthday date to `strptime`; line 60 stores a `date` object, not a string, so the call raises TypeError at the first stored birthday and no reminder is ever sent | one chat holding a birthday on 6 May 2030 with lead "5", swept at midnight on 1 May 2030 | compare against the midnight that starts the stored date | not executed | BirthdaySchedule.SweepAsWrittenMissesDueEntry | BirthdayBot.Bot.Sweep |
| src/telegram_bot_birthday/api/telegram.py:113 | the lead text is stored unchecked (line 69), and `int()` of it raises ValueError; nothing catches it, so the whole sweep ends there | a birthday with lead "five" stored before a due birthday (the one above) | skip the entry whose lead is not a number, or reject it at line 69 | not executed | BirthdaySchedule.StrictLeadAborts | BirthdayBot.Bot.Sweep |

## Left out

- The Telegram API (`reply_to`, `send_message`, polling). Replies are tags (`Reply`, `Listing`, `Report`). The message wording and the configuration it comes from are not modelled.
- `register_next_step_handler` appends to a list of handlers per chat. The model keeps at most one. A second one can be registered only by a command, and a command never reaches its handler while a step is registered.
- The SQLite connection, DDL and commits. `users` and `reminders` are sequences of rows, and a row's autoincrement key is its position.
- ReminderBot.Bot.GetReminders: does not promise an order of the items, because the SELECT has no ORDER BY. The items match the rows as a multiset.
- The `/admin` query: the model takes the rows of the join as input, already ordered. The LEFT JOIN itself, SQL's NULL-first ordering and the `str()` rendering of stored times are not modelled.
- The `if admin_id:` access check of `/admin`: a placeholder that any real user id passes.
- `load_config`, `.env` and `BOT_TOKEN` handling, logging, `handle_help`, `start_bot` and polling: start-up and I/O.
- Only ASCII decimal digits are modelled, in `int()` (PyText.PyInt) and in `strptime` (Strptime.ParseDayMonthYear, Strptime.ParseDateTime); Python also accepts other Unicode decimal digits there. Whitespace is modelled in full, as two sets: `PyText.IsSpace` is the whole set `str.isspace` accepts, used by `str.strip()` and by `\s` in `strptime`; `PyText.IsIntSpace` is the set `int()` skips around a number, the same without U+001C to U+001F.
- CPython's limit of 4300 digits for `int()` of a string is not modelled: a Telegram message holds at most 4096 characters, so the limit cannot be reached.
- `datetime.now()` is a parameter: a clock function giving the instant of each reading. Time zones and clock changes are not modelled. Nothing in the repository schedules `send_birthday_reminder`, so when it runs is not modelled.
- The note step's `database[message.chat.id]` lookup cannot fail. `/enter_reminder` sets the key before any step is registered, and keys are never removed. The bot's invariant states this, so the KeyError path is not modelled.
- A message without text (a photo, a sticker) is not modelled. `message.text` would be `None` there.
- Concurrency: the handlers are modelled as running one at a time.
