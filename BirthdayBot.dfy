/**
 * The birthday bot's state: the in-memory dict `database` from chat id to the
 * list of completed `Birthday` objects, and the next-step handler registered
 * for each chat, which carries the `Birthday` object being filled in. The
 * handlers set that object's fields one at a time and finally append the
 * object itself to the chat's list.
 */
module BirthdayBot {
  import opened Wrappers
  import opened Calendar
  import opened Strptime
  import opened BirthdayConversation
  import opened BirthdaySchedule

  /** The mutable record the conversation fills in. */
  class Birthday {
    var name: Option<string>
    var birthdayDate: Option<Date>
    var reminderDays: Option<string>
    var gifts: Option<string>
    var note: Option<string>

    /** Every field starts as `None`. */
    constructor ()
      ensures Record() == Blank
    {
      name, birthdayDate, reminderDays, gifts, note := None, None, None, None, None;
    }

    function Record(): BirthdayRecord
      reads this
    {
      BirthdayRecord(name, birthdayDate, reminderDays, gifts, note)
    }
  }

  /** The handler registered for a chat's next message, with the object bound to it. */
  datatype Step =
    | AwaitingName
    | AwaitingDate(entry: Birthday)
    | AwaitingLeadDays(entry: Birthday)
    | AwaitingGifts(entry: Birthday)
    | AwaitingNote(entry: Birthday)

  /** The conversation phase a registered handler stands for, with the current contents of its object. */
  function PhaseOf(s: Step): Phase
    reads if s.AwaitingName? then {} else {s.entry}
  {
    match s
    case AwaitingName => AskedName
    case AwaitingDate(b) => AskedDate(b.Record())
    case AwaitingLeadDays(b) => AskedLeadDays(b.Record())
    case AwaitingGifts(b) => AskedGifts(b.Record())
    case AwaitingNote(b) => AskedNote(b.Record())
  }

  /** The current contents of a list of objects. */
  function Records(s: seq<Birthday>): (r: seq<BirthdayRecord>)
    reads set b | b in s
    ensures |r| == |s| && forall i | 0 <= i < |s| :: r[i] == s[i].Record()
  {
    if s == [] then [] else Records(s[..|s| - 1]) + [s[|s| - 1].Record()]
  }

  /** Objects whose fields kept their values have the same contents. */
  twostate lemma {:induction false} RecordsUnchanged(s: seq<Birthday>)
    requires forall i | 0 <= i < |s| :: old(s[i].Record()) == s[i].Record()
    ensures old(Records(s)) == Records(s)
  {
    if s != [] {
      RecordsUnchanged(s[..|s| - 1]);
    }
  }

  /** The result of `/get_reminders`. */
  datatype Listing = NoBirthdays | Birthdays(records: seq<BirthdayRecord>)

  /**
   * How one message changes the values the bot holds: the chat's phase moves
   * on as `t` says, or the conversation ends, and a completed record is
   * appended to the chat's list.
   */
  predicate Applied(t: Transition, c: ChatId,
                    phases0: map<ChatId, Phase>, stored0: map<ChatId, seq<BirthdayRecord>>,
                    phases1: map<ChatId, Phase>, stored1: map<ChatId, seq<BirthdayRecord>>)
  {
    && phases1 == (if t.next.Some? then phases0[c := t.next.value] else phases0 - {c})
    && stored1 == (if t.completed.Some? && c in stored0 then stored0[c := stored0[c] + [t.completed.value]] else stored0)
  }

  /** A handler's effect, computed after its registration was removed, is its effect on the phases from before. */
  lemma AppliedAfterUnregister(t: Transition, c: ChatId,
                               phases0: map<ChatId, Phase>, stored0: map<ChatId, seq<BirthdayRecord>>,
                               phases1: map<ChatId, Phase>, stored1: map<ChatId, seq<BirthdayRecord>>)
    requires c in phases0 && Applied(t, c, phases0 - {c}, stored0, phases1, stored1)
    ensures Applied(t, c, phases0, stored0, phases1, stored1)
  {
    if t.next.Some? {
      assert (phases0 - {c})[c := t.next.value] == phases0[c := t.next.value];
    } else {
      assert (phases0 - {c}) - {c} == phases0 - {c};
    }
  }

  class Bot {
    var database: map<ChatId, seq<Birthday>>
    /** The keys of `database` in insertion order, the order `for chat_id in database` visits them. */
    var chats: seq<ChatId>
    var steps: map<ChatId, Step>
    ghost var Repr: set<Birthday>

    /** Every object the bot holds, stored or bound to a handler, is in `Repr`. */
    ghost predicate Framed()
      reads this
    {
      && (forall c, b | c in database && b in database[c] :: b in Repr)
      && (forall c | c in steps && !steps[c].AwaitingName? :: steps[c].entry in Repr)
    }

    /** `chats` lists the keys of `database` once each; a handler is only registered for a chat with a list. */
    ghost predicate Keyed()
      reads this
    {
      && (forall c | c in database :: c in chats)
      && (forall i | 0 <= i < |chats| :: chats[i] in database)
      && (forall i, j | 0 <= i < j < |chats| :: chats[i] != chats[j])
      && steps.Keys <= database.Keys
    }

    /** An object is bound to at most one handler and is not also stored. */
    ghost predicate Separate()
      reads this
    {
      && (forall c, d | c in steps && d in steps && c != d && !steps[c].AwaitingName? && !steps[d].AwaitingName? ::
            steps[c].entry != steps[d].entry)
      && (forall c, d | c in steps && !steps[c].AwaitingName? && d in database :: steps[c].entry !in database[d])
    }

    ghost predicate Valid()
      reads this, Repr
    {
      && Framed() && Keyed() && Separate()
      && (forall c, b | c in database && b in database[c] :: Complete(b.Record()))
      && (forall c | c in steps :: Shaped(PhaseOf(steps[c])))
    }

    /** The stored lists as values. */
    ghost function Stored(): map<ChatId, seq<BirthdayRecord>>
      requires Framed()
      reads this, Repr
    {
      map c | c in database :: Records(database[c])
    }

    /** Each chat's conversation phase as a value. */
    ghost function Phases(): map<ChatId, Phase>
      requires Framed()
      reads this, Repr
    {
      map c | c in steps :: PhaseOf(steps[c])
    }

    /** An object no handler holds and no list contains: the one a handler has just been given. */
    ghost predicate Detached(b: Birthday)
      reads this
    {
      && (forall c | c in steps && !steps[c].AwaitingName? :: steps[c].entry != b)
      && (forall d | d in database :: b !in database[d])
    }

    /** The stored lists keep their contents when no stored object has changed. */
    twostate lemma StoredSame()
      requires old(Framed()) && Framed() && database == old(database)
      requires forall d, o | d in old(database) && o in old(database)[d] :: old(o.Record()) == o.Record()
      ensures Stored() == old(Stored())
    {
      forall d | d in database ensures Records(database[d]) == old(Records(database[d])) {
        RecordsUnchanged(database[d]);
      }
    }

    /** Registering a handler for `c` changes that chat's phase and, when no other handler's object changed, no other. */
    twostate lemma PhasesSet(c: ChatId)
      requires old(Framed()) && Framed() && c in steps && steps - {c} == old(steps) - {c}
      requires forall d | d in old(steps) && d != c && !old(steps)[d].AwaitingName? ::
        var e := old(steps)[d].entry; old(e.Record()) == e.Record()
      ensures Phases() == old(Phases())[c := PhaseOf(steps[c])]
    {
      var now := Phases();
      var expected := old(Phases())[c := PhaseOf(steps[c])];
      forall d | d in steps && d != c
        ensures d in old(steps) && var s := old(steps)[d]; steps[d] == s && PhaseOf(s) == old(PhaseOf(s))
      {
        assert d in (steps - {c});
      }
      assert steps.Keys == old(steps).Keys + {c} by {
        forall d | d in old(steps) && d != c ensures d in steps {
          assert d in old(steps) - {c};
        }
      }
      assert now.Keys == expected.Keys;
      forall d | d in now ensures now[d] == expected[d] {
        if d != c {
          var s := old(steps)[d];
          assert old(Phases())[d] == old(PhaseOf(s));
        }
      }
    }

    /** Appending `b` to the list of `c`, when no stored object has changed, appends its contents. */
    twostate lemma StoredAppended(c: ChatId, new b: Birthday)
      requires old(Framed()) && Framed() && c in old(database)
      requires database == old(database)[c := old(database)[c] + [b]]
      requires forall d, o | d in old(database) && o in old(database)[d] :: old(o.Record()) == o.Record()
      ensures Stored() == old(Stored())[c := old(Stored())[c] + [b.Record()]]
    {
      forall d | d in old(database) ensures var l := old(database)[d]; Records(l) == old(Records(l)) {
        RecordsUnchanged(old(database)[d]);
      }
      var list := old(database)[c];
      assert (list + [b])[..|list|] == list;
      assert Records(database[c]) == Records(list) + [b.Record()];
    }

    /** The phases keep their values when the handlers and their objects are as they were. */
    twostate lemma PhasesSame()
      requires old(Framed()) && Framed() && steps == old(steps)
      requires forall d | d in old(steps) && !old(steps)[d].AwaitingName? ::
        var e := old(steps)[d].entry; old(e.Record()) == e.Record()
      ensures Phases() == old(Phases())
    {
      forall d | d in steps ensures var s := old(steps)[d]; PhaseOf(s) == old(PhaseOf(s)) {
      }
    }

    /** Storing the object the note step completed keeps the invariant. */
    twostate lemma NoteKeepsValid(c: ChatId, new b: Birthday)
      requires old(Valid()) && c in old(database) && c !in old(steps) && b in old(Repr)
      requires old(Detached(b)) && Complete(b.Record())
      requires database == old(database)[c := old(database)[c] + [b]]
      requires steps == old(steps) && chats == old(chats) && Repr == old(Repr)
      requires forall o | o in old(Repr) && o != b :: old(o.Record()) == o.Record()
      ensures Valid()
    {
      assert Framed() by {
        forall d, o | d in database && o in database[d] ensures o in Repr {
          if d == c && o != b {
            assert o in old(database)[c];
          }
        }
      }
      assert Separate() by {
        forall e, d | e in steps && !steps[e].AwaitingName? && d in database ensures steps[e].entry !in database[d] {
          if d == c {
            assert steps[e].entry !in old(database)[c];
          }
        }
      }
      forall d, o | d in database && o in database[d] ensures Complete(o.Record()) {
        if o != b {
          assert o in old(database)[d];
        }
      }
      forall d | d in steps ensures Shaped(PhaseOf(steps[d])) {
        var s := old(steps)[d];
        assert Shaped(old(PhaseOf(s)));
      }
    }

    /** Emptying the list of `c` and asking it for a name keeps the invariant. */
    twostate lemma ResetKeepsValid(c: ChatId)
      requires old(Valid()) && Repr == old(Repr)
      requires database == old(database)[c := []] && steps == old(steps)[c := AwaitingName]
      requires chats == if c in old(database) then old(chats) else old(chats) + [c]
      requires forall o | o in old(Repr) :: old(o.Record()) == o.Record()
      ensures Valid()
    {
      assert Framed() by {
        forall d, o | d in database && o in database[d] ensures o in Repr {
          assert o in old(database)[d];
        }
      }
      assert Keyed() by {
        assert forall i | 0 <= i < |old(chats)| :: old(chats)[i] != c || c in old(database);
      }
      assert Separate() by {
        forall e, d | e in steps && !steps[e].AwaitingName? && d in database ensures steps[e].entry !in database[d] {
          assert e in old(steps) && steps[e] == old(steps)[e];
        }
      }
      forall d, o | d in database && o in database[d] ensures Complete(o.Record()) {
        assert o in old(database)[d];
      }
      forall d | d in steps ensures Shaped(PhaseOf(steps[d])) {
        if d != c {
          var s := old(steps)[d];
          assert Shaped(old(PhaseOf(s)));
        }
      }
    }

    /** The list of `c` replaced by an empty one, with no stored object changed. */
    twostate lemma StoredReset(c: ChatId)
      requires old(Framed()) && Framed() && database == old(database)[c := []]
      requires forall d, o | d in old(database) && o in old(database)[d] :: old(o.Record()) == o.Record()
      ensures Stored() == old(Stored())[c := []]
    {
      forall d | d in old(database) && d != c ensures Records(database[d]) == old(Records(database[d])) {
        RecordsUnchanged(database[d]);
      }
    }

    /** Binding `b` to the handler of `c`, with no other object changed, keeps the invariant. */
    twostate lemma RegisterKeepsValid(c: ChatId, new b: Birthday)
      requires old(Valid()) && c in old(database)
      requires database == old(database) && chats == old(chats) && Repr == old(Repr) + {b}
      requires c in steps && !steps[c].AwaitingName? && steps[c].entry == b
      requires steps == old(steps)[c := steps[c]]
      requires forall d | d in old(steps) && d != c && !old(steps)[d].AwaitingName? :: old(steps)[d].entry != b
      requires forall d | d in old(database) :: b !in old(database)[d]
      requires forall o | o in old(Repr) && o != b :: old(o.Record()) == o.Record()
      requires Shaped(PhaseOf(steps[c]))
      ensures Valid()
    {
      assert Separate() by {
        forall e, d | e in steps && d in steps && e != d && !steps[e].AwaitingName? && !steps[d].AwaitingName?
          ensures steps[e].entry != steps[d].entry
        {
          if e != c && d != c {
            assert steps[e] == old(steps)[e] && steps[d] == old(steps)[d];
          }
        }
        forall e, d | e in steps && !steps[e].AwaitingName? && d in database ensures steps[e].entry !in database[d] {
          if e != c {
            assert steps[e] == old(steps)[e];
          }
        }
      }
      forall d, o | d in database && o in database[d] ensures Complete(o.Record()) {
        assert o != b;
      }
      forall d | d in steps ensures Shaped(PhaseOf(steps[d])) {
        if d != c {
          var s := old(steps)[d];
          assert Shaped(old(PhaseOf(s)));
        }
      }
    }

    /** The bot at start-up: the dict is empty and no handler is registered. */
    constructor ()
      ensures Valid() && Stored() == map[] && Phases() == map[] && chats == []
    {
      database, chats, steps := map[], [], map[];
      Repr := {};
    }

    /**
     * `/enter_reminder`: the chat's list becomes empty, dropping its earlier
     * birthdays, and the name is asked for. A command reaches its handler only
     * when no step is registered for the chat (otherwise `Deliver` takes it).
     */
    method HandleBirthday(c: ChatId) returns (reply: Reply)
      requires Valid() && c !in steps
      modifies this
      ensures Valid()
      ensures Stored() == old(Stored())[c := []]
      ensures Phases() == old(Phases())[c := AskedName]
      ensures chats == if c in old(database) then old(chats) else old(chats) + [c]
      ensures Repr == old(Repr)
      ensures reply == AskName
    {
      if c !in database {
        chats := chats + [c];
      }
      database := database[c := []];
      steps := steps[c := AwaitingName];
      reply := AskName;
      ResetKeepsValid(c);
      StoredReset(c);
      PhasesSet(c);
    }

    /** The name step: a fresh object whose only field set is the name, the text verbatim. */
    method ProcessNameStep(c: ChatId, text: string) returns (reply: Reply)
      requires Valid() && c in database
      modifies this
      ensures Valid()
      ensures Applied(Advance(AskedName, text), c, old(Phases()), old(Stored()), Phases(), Stored())
      ensures reply == Advance(AskedName, text).reply
      ensures database == old(database) && chats == old(chats)
      ensures c in steps && steps[c].AwaitingDate? && fresh(steps[c].entry)
    {
      var b := new Birthday();
      b.name := Some(text);
      Repr := Repr + {b};
      steps := steps[c := AwaitingDate(b)];
      reply := AskDate;
      RegisterKeepsValid(c, b);
      StoredSame();
      PhasesSet(c);
    }

    /** The date step: a text that parses sets the date and moves on; any other text asks again with the same object. */
    method ProcessDateStep(c: ChatId, b: Birthday, text: string) returns (reply: Reply)
      requires Valid() && c in database && b in Repr && Detached(b) && Shaped(AskedDate(b.Record()))
      modifies this, b
      ensures Valid()
      ensures Applied(Advance(AskedDate(old(b.Record())), text), c, old(Phases()), old(Stored()), Phases(), Stored())
      ensures reply == Advance(AskedDate(old(b.Record())), text).reply
      ensures database == old(database) && chats == old(chats)
      ensures c in steps && steps[c] == if ParseDayMonthYear(text).Some? then AwaitingLeadDays(b) else AwaitingDate(b)
    {
      var parsed := ParseDayMonthYear(text);
      if parsed.Some? {
        b.birthdayDate := parsed;
        steps := steps[c := AwaitingLeadDays(b)];
        reply := AskLeadDays;
      } else {
        steps := steps[c := AwaitingDate(b)];
        reply := WrongDateFormat;
      }
      RegisterKeepsValid(c, b);
      StoredSame();
      PhasesSet(c);
    }

    /** The lead step: the text is kept verbatim, unchecked. */
    method ProcessReminderDaysStep(c: ChatId, b: Birthday, text: string) returns (reply: Reply)
      requires Valid() && c in database && b in Repr && Detached(b) && Shaped(AskedLeadDays(b.Record()))
      modifies this, b
      ensures Valid()
      ensures Applied(Advance(AskedLeadDays(old(b.Record())), text), c, old(Phases()), old(Stored()), Phases(), Stored())
      ensures reply == Advance(AskedLeadDays(old(b.Record())), text).reply
      ensures database == old(database) && chats == old(chats)
      ensures c in steps && steps[c] == AwaitingGifts(b)
    {
      b.reminderDays := Some(text);
      steps := steps[c := AwaitingGifts(b)];
      reply := AskGifts;
      RegisterKeepsValid(c, b);
      StoredSame();
      PhasesSet(c);
    }

    /** The gifts step: the text verbatim. */
    method ProcessGiftsStep(c: ChatId, b: Birthday, text: string) returns (reply: Reply)
      requires Valid() && c in database && b in Repr && Detached(b) && Shaped(AskedGifts(b.Record()))
      modifies this, b
      ensures Valid()
      ensures Applied(Advance(AskedGifts(old(b.Record())), text), c, old(Phases()), old(Stored()), Phases(), Stored())
      ensures reply == Advance(AskedGifts(old(b.Record())), text).reply
      ensures database == old(database) && chats == old(chats)
      ensures c in steps && steps[c] == AwaitingNote(b)
    {
      b.gifts := Some(text);
      steps := steps[c := AwaitingNote(b)];
      reply := AskNote;
      RegisterKeepsValid(c, b);
      StoredSame();
      PhasesSet(c);
    }

    /** The note step: the text verbatim, then the object itself is appended to the chat's list. */
    method ProcessNoteStep(c: ChatId, b: Birthday, text: string) returns (reply: Reply)
      requires Valid() && c in database && c !in steps && b in Repr && Detached(b) && Shaped(AskedNote(b.Record()))
      modifies this, b
      ensures Valid()
      ensures Applied(Advance(AskedNote(old(b.Record())), text), c, old(Phases()), old(Stored()), Phases(), Stored())
      ensures reply == Advance(AskedNote(old(b.Record())), text).reply
      ensures database == old(database)[c := old(database)[c] + [b]] && chats == old(chats)
    {
      b.note := Some(text);
      database := database[c := database[c] + [b]];
      reply := Added(b.Record());
      NoteKeepsValid(c, b);
      StoredAppended(c, b);
      PhasesSame();
    }

    /** The bot library removes a chat's registered handler before it runs it. */
    method Unregister(c: ChatId) returns (step: Step)
      requires Valid() && c in steps
      modifies this
      ensures Valid()
      ensures step == old(steps)[c] && steps == old(steps) - {c}
      ensures database == old(database) && chats == old(chats) && Repr == old(Repr)
      ensures Phases() == old(Phases()) - {c} && Stored() == old(Stored())
      ensures !step.AwaitingName? ==> step.entry in Repr && Detached(step.entry)
      ensures Shaped(PhaseOf(step)) && PhaseOf(step) == old(Phases())[c]
    {
      step := steps[c];
      steps := steps - {c};
      assert Phases() == old(Phases()) - {c} by {
        forall d | d in steps ensures PhaseOf(steps[d]) == old(Phases())[d] {
          assert steps[d] == old(steps)[d];
        }
      }
    }

    /** Runs the handler `step` stands for, once it has been removed. */
    method RunHandler(c: ChatId, step: Step, text: string) returns (reply: Reply)
      requires Valid() && c in database && c !in steps && Shaped(PhaseOf(step))
      requires !step.AwaitingName? ==> step.entry in Repr && Detached(step.entry)
      modifies this, Repr
      ensures Valid()
      ensures var t := Advance(old(PhaseOf(step)), text);
        reply == t.reply && Applied(t, c, old(Phases()), old(Stored()), Phases(), Stored())
      ensures chats == old(chats)
    {
      match step {
        case AwaitingName => reply := ProcessNameStep(c, text);
        case AwaitingDate(b) => reply := ProcessDateStep(c, b, text);
        case AwaitingLeadDays(b) => reply := ProcessReminderDaysStep(c, b, text);
        case AwaitingGifts(b) => reply := ProcessGiftsStep(c, b, text);
        case AwaitingNote(b) => reply := ProcessNoteStep(c, b, text);
      }
    }

    /**
     * A text message: a chat with a registered handler has it removed and
     * run, and the values the bot holds change as `Advance` says; any other
     * message is for the command handlers.
     */
    method Deliver(c: ChatId, text: string) returns (reply: Option<Reply>)
      requires Valid()
      modifies this, Repr
      ensures Valid()
      ensures c !in old(steps) ==> reply == None && Stored() == old(Stored()) && Phases() == old(Phases())
      ensures c in old(steps) ==>
        var t := Advance(old(Phases())[c], text);
        && reply == Some(t.reply)
        && Applied(t, c, old(Phases()), old(Stored()), Phases(), Stored())
      ensures chats == old(chats)
    {
      if c !in steps {
        return None;
      }
      ghost var phases0 := Phases();
      ghost var stored0 := Stored();
      var step := Unregister(c);
      ghost var phase := PhaseOf(step);
      assert phase == phases0[c];
      var r := RunHandler(c, step, text);
      ghost var t := Advance(phase, text);
      assert Applied(t, c, phases0 - {c}, stored0, Phases(), Stored());
      AppliedAfterUnregister(t, c, phases0, stored0, Phases(), Stored());
      reply := Some(r);
    }

    /** `/get_reminders`: the chat's birthdays in the order they were added, or the "no reminders" answer. */
    method ListBirthdays(c: ChatId) returns (listing: Listing)
      requires Valid()
      ensures listing.NoBirthdays? <==> c !in Stored() || Stored()[c] == []
      ensures listing.Birthdays? ==> listing.records == Stored()[c]
      ensures listing.Birthdays? ==> forall i | 0 <= i < |listing.records| :: Complete(listing.records[i])
    {
      if c !in database || database[c] == [] {
        return NoBirthdays;
      }
      var list := database[c];
      var records: seq<BirthdayRecord> := [];
      var i := 0;
      while i < |list|
        invariant 0 <= i <= |list|
        invariant records == Records(list[..i])
      {
        assert list[..i + 1][..i] == list[..i];
        records := records + [list[i].Record()];
        i := i + 1;
      }
      assert list[..i] == list;
      listing := Birthdays(records);
    }

    /**
     * The reminder sweep, as evidently intended: every stored birthday in
     * loop order, judged at its own reading of the clock, yields a notice
     * exactly when it is due.
     */
    method Sweep(clock: Clock) returns (sent: seq<Notice>)
      requires Valid()
      ensures sent == DueNotices(SweepOrder(chats, Stored()), clock)
    {
      ghost var stored := Stored();
      ListsStored(stored);
      sent := SweepBy(chats, database, stored, clock, IsDue);
    }

    /** Every chat of the loop order has a list, and its records are the stored ones. */
    lemma ListsStored(stored: map<ChatId, seq<BirthdayRecord>>)
      requires Framed() && Keyed() && stored == Stored()
      ensures forall i | 0 <= i < |chats| :: chats[i] in database && chats[i] in stored && stored[chats[i]] == Records(database[chats[i]])
    {
    }
  }

  /**
   * The two nested loops of the sweep, for any matching rule `due`: the chats
   * in `order`, each chat's list in order, the `k`-th birthday overall judged
   * at the `k`-th reading of the clock.
   */
  method SweepBy(order: seq<ChatId>, database: map<ChatId, seq<Birthday>>, ghost stored: map<ChatId, seq<BirthdayRecord>>,
                 clock: Clock, due: Rule) returns (sent: seq<Notice>)
    requires forall i | 0 <= i < |order| :: order[i] in database && order[i] in stored && stored[order[i]] == Records(database[order[i]])
    ensures sent == Notices(SweepOrder(order, stored), clock, 0, due)
  {
    sent := [];
    var k := 0;
    for i := 0 to |order|
      invariant k == |SweepOrder(order[..i], stored)|
      invariant sent == Notices(SweepOrder(order[..i], stored), clock, 0, due)
    {
      var c := order[i];
      NextChat(order, stored, clock, i, k, due);
      var more := SweepChat(c, database[c], stored[c], clock, k, due);
      sent := sent + more;
      k := k + |database[c]|;
    }
    assert order[..|order|] == order;
  }

  /**
   * The inner loop of the sweep: one chat's birthdays in the order they were
   * added, the `j`-th judged at reading `k + j` of the clock.
   */
  method SweepChat(c: ChatId, list: seq<Birthday>, ghost records: seq<BirthdayRecord>, clock: Clock, k: nat, due: Rule)
    returns (sent: seq<Notice>)
    requires records == Records(list)
    ensures sent == Notices(ChatEntries(c, records), clock, k, due)
  {
    ghost var entries := ChatEntries(c, records);
    sent := [];
    var j := 0;
    while j < |list|
      invariant 0 <= j <= |list|
      invariant sent == Notices(entries[..j], clock, k, due)
    {
      NoticesPrefixStep(entries, clock, k, j, due);
      var now := clock(k + j);
      sent := sent + NoticeFor(Entry(c, list[j].Record()), now, due);
      j := j + 1;
    }
    assert entries[..j] == entries;
  }

  /** One more entry of a run appends its own notice, if any. */
  lemma NoticesPrefixStep(entries: seq<Entry>, clock: Clock, from: nat, j: nat, due: Rule)
    requires j < |entries|
    ensures Notices(entries[..j + 1], clock, from, due) == Notices(entries[..j], clock, from, due) + NoticeFor(entries[j], clock(from + j), due)
  {
    assert entries[..j + 1] == entries[..j] + [entries[j]];
    NoticesSnoc(entries[..j], entries[j], clock, from, due);
  }

  /** The sweep of the first `i + 1` chats is that of the first `i` followed by chat `order[i]`'s, at the readings after theirs. */
  lemma NextChat(order: seq<ChatId>, stored: map<ChatId, seq<BirthdayRecord>>, clock: Clock, i: nat, k: nat, due: Rule)
    requires i < |order| && order[i] in stored && k == |SweepOrder(order[..i], stored)|
    ensures |SweepOrder(order[..i + 1], stored)| == k + |stored[order[i]]|
    ensures Notices(SweepOrder(order[..i + 1], stored), clock, 0, due) ==
      Notices(SweepOrder(order[..i], stored), clock, 0, due) + Notices(ChatEntries(order[i], stored[order[i]]), clock, k, due)
  {
    SweepOrderStep(order, stored, i);
    NoticesAppend(SweepOrder(order[..i], stored), ChatEntries(order[i], stored[order[i]]), clock, 0, due);
  }
}
