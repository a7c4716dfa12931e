/** Small concrete runs, the counterexamples the exact conditions rest on. */
module ReminderWitness {
  import opened Wrappers
  import opened ReminderModel

  const MEETING := Item(0, "s", "", "", 3600, 7200, Some(3600 * NANOS_PER_SECOND))

  /** The same event some hours later. */
  const MOVED := Item(0, "s", "", "", 36000, 39600, Some(36000 * NANOS_PER_SECOND))

  predicate SampleEvent(m: Item) {
    m in {MEETING, MOVED, MOVED.(id := 1)}
  }

  function SampleRule(id: RuleId, title: string, duration: int): Rule {
    Rule(id, "", true, Some(Trigger("s", [], [])), Some(Action(-60, title, duration)))
  }

  function Start(rules: seq<Rule>): State {
    State([MEETING], 1, rules, |rules|, [], [], Idle)
  }

  lemma ReachesSelf(allowed: set<Fault>, s: State)
    ensures Reaches(allowed, s, s)
  {
    assert Legal(allowed, s, []) && Exec(s, []) == s;
  }

  lemma ReachesNext(allowed: set<Fault>, s0: State, s: State, move: Move)
    requires Reaches(allowed, s0, s) && Permits(allowed, s, move)
    ensures Reaches(allowed, s0, Do(s, move))
  {
    var run :| Legal(allowed, s0, run) && Exec(s0, run) == s;
    assert (run + [move])[..|run|] == run;
    assert Legal(allowed, s0, run + [move]) && Exec(s0, run + [move]) == Do(s, move);
  }

  /** Where a sample pair's reminder lands. */
  lemma SampleSlot(m: Item, rule: Rule, title: string, duration: int)
    requires SampleEvent(m) && rule == SampleRule(rule.id, title, duration) && title != "" && duration in {-1, 5}
    ensures Ready(Pair(m, rule)) && Fires(Pair(m, rule))
    ensures SlotOf(Pair(m, rule)) == Slot(title, m.start - 3600, m.start - 3600 + 60 * duration)
  {
    assert WrapInt64(-60 * NANOS_PER_MINUTE) == -60 * NANOS_PER_MINUTE;
    assert WrapInt64(5 * NANOS_PER_MINUTE) == 5 * NANOS_PER_MINUTE;
    assert WrapInt64(-1 * NANOS_PER_MINUTE) == -1 * NANOS_PER_MINUTE;
  }

  /** A calendar holding one event of a user and, at most, one earlier reminder. */
  predicate SampleCalendar(cal: seq<Item>, m: Item) {
    SampleEvent(m) && (cal == [m] || (|cal| == 2 && IsReminder(cal[0]) && cal[1] == m))
  }

  lemma SampleListing(cal: seq<Item>, m: Item, rules: seq<Rule>)
    requires SampleCalendar(cal, m)
    ensures Worklist(Listing(cal), rules) == PairsOf(m, rules)
  {
    hide PairsOf;
    assert !IsReminder(m) && InWindow(m, LISTING_MIN, LISTING_MAX);
    assert Visible([m]) == [m];
    assert Worklist([m], rules) == PairsOf(m, rules) + [] == PairsOf(m, rules);
    if cal != [m] {
      assert cal[1..] == [m];
      if InWindow(cal[0], LISTING_MIN, LISTING_MAX) {
        assert Visible(cal) == [cal[0], m];
        assert [cal[0], m][1..] == [m];
      }
    }
  }

  /** The start of a cycle: both reads succeed and the first pair is about to be checked. */
  lemma Begin(allowed: set<Fault>, s0: State, s: State, m: Item) returns (t: State)
    requires Reaches(allowed, s0, s)
    requires s.pc == Idle && s.rules != [] && SampleCalendar(s.cal, m)
    ensures Reaches(allowed, s0, t)
    ensures t == s.(pc := Settle(PairsOf(m, s.rules)))
  {
    ReachesNext(allowed, s0, s, Work(Good));
    var u := Do(s, Work(Good));
    assert u == s.(pc := Fetched(s.rules));
    ReachesNext(allowed, s0, u, Work(Good));
    t := Do(u, Work(Good));
    SampleListing(s.cal, m, s.rules);
  }

  /** The four calls of a visit that ends in an insertion, one lemma each. */
  lemma PassLog(s: State, luck: Luck)
    requires s.pc.Visit? && s.pc.stage == CheckLog && Ready(s.pc.cur)
    requires luck.Good? ==> !HasLog(s.log, s.pc.cur.rule.id, s.pc.cur.item.id)
    ensures Do(s, Work(luck)) == s.(pc := Visit(CheckExists, s.pc.cur, s.pc.rest))
  {
  }

  lemma PassExists(s: State, luck: Luck)
    requires s.pc.Visit? && s.pc.stage == CheckExists
    requires luck.Good? ==> !Clash(s.cal, SlotOf(s.pc.cur))
    ensures Do(s, Work(luck)) == s.(pc := Visit(Inserting, s.pc.cur, s.pc.rest))
  {
  }

  lemma PassInsert(s: State, luck: Luck)
    requires s.pc.Visit? && s.pc.stage == Inserting && !luck.Bad?
    ensures Do(s, Work(luck)) ==
            AddReminder(s, s.pc.cur).(pc := Visit(Outcome(luck, s.next), s.pc.cur, s.pc.rest))
  {
  }

  function Outcome(luck: Luck, id: EventId): Stage {
    if luck.Good? then Logging(Success, Some(id)) else Logging(Failure, None)
  }

  function OutcomeRow(luck: Luck, p: Pair, id: EventId): LogRow {
    LogRow(Some(p.rule.id), Outcome(luck, id).status, p.item.id, Outcome(luck, id).created)
  }

  lemma PassWrite(s: State, luck: Luck)
    requires s.pc.Visit? && s.pc.stage.Logging?
    ensures var row := LogRow(Some(s.pc.cur.rule.id), s.pc.stage.status, s.pc.cur.item.id, s.pc.stage.created);
            Do(s, Work(luck)) == s.(pc := Settle(s.pc.rest),
                                    log := if luck.Bad? then s.log else AppendLog(s.log, s.rules, row))
  {
  }

  /** Visiting the current pair: both checks let it through, the insert happens, and the write goes as told. */
  lemma InsertCurrent(allowed: set<Fault>, s0: State, s: State, onLog: Luck, onExists: Luck, onInsert: Luck,
      onWrite: Luck)
    returns (t: State)
    requires Reaches(allowed, s0, s)
    requires s.pc.Visit? && s.pc.stage == CheckLog && Ready(s.pc.cur)
    requires if onLog.Good? then !HasLog(s.log, s.pc.cur.rule.id, s.pc.cur.item.id) else LogReadFails in allowed
    requires if onExists.Good? then !Clash(s.cal, SlotOf(s.pc.cur)) else ExistsReadFails in allowed
    requires !onInsert.Bad? && (onInsert.Good? || InsertLost in allowed)
    requires onWrite.Good? || LogWriteFails in allowed
    ensures Reaches(allowed, s0, t)
    ensures t == AddReminder(s, s.pc.cur).(pc := Settle(s.pc.rest),
                  log := if onWrite.Bad? then s.log
                         else AppendLog(s.log, s.rules, OutcomeRow(onInsert, s.pc.cur, s.next)))
  {
    hide Reaches, Legal, Exec;
    PassLog(s, onLog);
    ReachesNext(allowed, s0, s, Work(onLog));
    var s1 := s.(pc := Visit(CheckExists, s.pc.cur, s.pc.rest));
    PassExists(s1, onExists);
    ReachesNext(allowed, s0, s1, Work(onExists));
    var s2 := s.(pc := Visit(Inserting, s.pc.cur, s.pc.rest));
    PassInsert(s2, onInsert);
    ReachesNext(allowed, s0, s2, Work(onInsert));
    var s3 := AddReminder(s2, s.pc.cur).(pc := Visit(Outcome(onInsert, s.next), s.pc.cur, s.pc.rest));
    PassWrite(s3, onWrite);
    ReachesNext(allowed, s0, s3, Work(onWrite));
    t := Do(s3, Work(onWrite));
  }

  // ---------- Separation breaks ----------

  /** Two worker-made reminders with the same title and the same five minutes. */
  ghost predicate Twins(s: State, x: Item, y: Item) {
    && x in s.cal && y in s.cal && IsMade(s, x.id) && IsMade(s, y.id) && x.id != y.id
    && x.summary == y.summary && x.start == y.start && x.end == y.end == x.start + 300
  }

  lemma InsertedFirst(p: Pair)
    requires p.item == MEETING && ReminderItem(1, p).start < MEETING.start
    ensures InsertSorted([MEETING], ReminderItem(1, p)) == [ReminderItem(1, p), MEETING]
  {
  }

  lemma FirstOfTwo(p: Pair, q: Pair)
    requires p.item == q.item == MEETING && Fires(p) && Fires(q)
    ensures Settle(PairsOf(MEETING, [p.rule, q.rule])) == Visit(CheckLog, p, [q])
    ensures Settle([q]) == Visit(CheckLog, q, [])
  {
    hide Fires;
    assert [p.rule, q.rule][1..] == [q.rule] && PairsOf(MEETING, [q.rule]) == [q];
    assert [p, q][1..] == [q];
  }

  /** The first of two rules inserts its reminder; the second one is next. */
  lemma FirstInsert(allowed: set<Fault>, other: string, p: Pair, q: Pair) returns (s0: State, t: State)
    requires other in {"t", "u"}
    requires p == Pair(MEETING, SampleRule(0, "t", 5)) && q == Pair(MEETING, SampleRule(1, other, 5))
    ensures Initial(s0) && Reaches(allowed, s0, t)
    ensures t.pc == Visit(CheckLog, q, []) && t.made == [Made(1, p)] && t.next == 2
    ensures t.cal == [ReminderItem(1, p), MEETING]
    ensures forall row :: row in t.log ==> row.rule == Some(0)
  {
    hide Reaches, Legal, Exec, SlotOf, Fires, Ready, Do, WorkerStep, Serve, Resume, Visible, Worklist, InsertSorted;
    SampleSlot(MEETING, p.rule, "t", 5);
    SampleSlot(MEETING, q.rule, other, 5);
    assert ReminderItem(1, p).start == 0;
    InsertedFirst(p);
    s0 := Start([p.rule, q.rule]);
    ReachesSelf(allowed, s0);
    var s1 := Begin(allowed, s0, s0, MEETING);
    FirstOfTwo(p, q);
    t := InsertCurrent(allowed, s0, s1, Good, Good, Good, Good);
  }

  /** Both of two rules insert for the meeting in one cycle. */
  lemma TwoInserts(allowed: set<Fault>, other: string, onExists: Luck) returns (s0: State, t: State)
    requires other in {"t", "u"}
    requires if onExists.Good? then other == "u" else ExistsReadFails in allowed
    ensures Initial(s0) && Reaches(allowed, s0, t)
    ensures var p, q := Pair(MEETING, SampleRule(0, "t", 5)), Pair(MEETING, SampleRule(1, other, 5));
            && t.made == [Made(1, p), Made(2, q)]
            && ReminderItem(1, p) in t.cal && ReminderItem(2, q) in t.cal
  {
    hide Reaches, Legal, Exec, SlotOf, Fires, Ready, Do, WorkerStep, Serve, Resume;
    var p, q := Pair(MEETING, SampleRule(0, "t", 5)), Pair(MEETING, SampleRule(1, other, 5));
    SampleSlot(MEETING, p.rule, "t", 5);
    SampleSlot(MEETING, q.rule, other, 5);
    var s;
    s0, s := FirstInsert(allowed, other, p, q);
    t := InsertCurrent(allowed, s0, s, Good, onExists, Good, Good);
  }

  /** When the existence check may fail, two rules asking for the same reminder both get it. */
  lemma TwinReminders(allowed: set<Fault>) returns (s0: State, t: State, x: Item, y: Item)
    requires ExistsReadFails in allowed
    ensures Initial(s0) && Reaches(allowed, s0, t) && Twins(t, x, y)
  {
    s0, t := TwoInserts(allowed, "t", Bad);
    x, y := ReminderItem(1, t.made[0].pair), ReminderItem(2, t.made[1].pair);
    SampleSlot(MEETING, t.made[0].pair.rule, "t", 5);
    SampleSlot(MEETING, t.made[1].pair.rule, "t", 5);
    assert t.made[0] in t.made && t.made[1] in t.made;
  }

  /** When users may edit reminders, one can be turned into a copy of another. */
  lemma RetitledReminder(allowed: set<Fault>) returns (s0: State, t: State, x: Item, y: Item)
    requires UsersAct in allowed && RemindersEdited in allowed
    ensures Initial(s0) && Reaches(allowed, s0, t) && Twins(t, x, y)
  {
    var s;
    s0, s := TwoInserts(allowed, "u", Good);
    SampleSlot(MEETING, s.made[0].pair.rule, "t", 5);
    x := ReminderItem(1, s.made[0].pair);
    y := x.(id := 2);
    assert HasId(s.cal, 2);
    ReachesNext(allowed, s0, s, User(EditEvent(2, x)));
    t := Do(s, User(EditEvent(2, x)));
    assert t.made[0] in t.made && t.made[1] in t.made;
  }

  // ---------- A pair is inserted twice ----------

  /** A rule and an event have led to two insertions; users have added nothing. */
  ghost predicate InsertedTwice(s0: State, t: State) {
    && |t.made| == 2
    && t.made[0].pair.rule.id == t.made[1].pair.rule.id && t.made[0].pair.item.id == t.made[1].pair.item.id
    && |s0.cal| == |s0.rules| == 1 && t.next == s0.next + 2 && t.nextRule == s0.nextRule
  }

  /** One cycle for a single rule. */
  lemma FirstCycle(allowed: set<Fault>, p: Pair, duration: int, onInsert: Luck, onWrite: Luck)
      returns (s0: State, t: State)
    requires duration in {-1, 5} && p == Pair(MEETING, SampleRule(0, "t", duration)) &&
             (duration == 5 || OddDurations in allowed)
    requires !onInsert.Bad? && (onInsert.Good? || InsertLost in allowed)
    requires !onWrite.Lost? && (onWrite.Good? || LogWriteFails in allowed)
    ensures Starts(allowed, s0) && Reaches(allowed, s0, t) && s0 == Start([p.rule])
    ensures AfterFirst(p, t)
    ensures !onInsert.Good? || !onWrite.Good? ==> !HasLog(t.log, 0, 0)
    ensures forall row :: row in t.log ==> row.event == 0
  {
    hide Reaches, Legal, Exec, SlotOf, Fires, Ready, Do, WorkerStep, Serve, Resume, Visible, Worklist, InsertSorted;
    SampleSlot(MEETING, p.rule, "t", duration);
    assert ReminderItem(1, p).start == 0;
    InsertedFirst(p);
    s0 := Start([p.rule]);
    ReachesSelf(allowed, s0);
    var s1 := Begin(allowed, s0, s0, MEETING);
    FirstOfOne(p);
    t := InsertCurrent(allowed, s0, s1, Good, Good, onInsert, onWrite);
  }

  ghost predicate AfterFirst(p: Pair, s: State) {
    && s.cal == [ReminderItem(1, p), MEETING] && s.rules == [p.rule] && s.made == [Made(1, p)] && s.pc == Idle
    && s.next == 2 && s.nextRule == 1
  }

  lemma FirstOfOne(p: Pair)
    requires Fires(p)
    ensures Settle(PairsOf(p.item, [p.rule])) == Visit(CheckLog, p, [])
    ensures Settle([]) == Idle
  {
    hide Fires;
    assert PairsOf(p.item, [p.rule]) == [p] && [p][1..] == [];
  }

  /** The next cycle inserts again once neither log nor existence check stops it. */
  lemma SecondCycle(allowed: set<Fault>, p: Pair, s0: State, s: State, m: Item, duration: int, deleteRule: bool,
                    onLog: Luck, onExists: Luck)
    returns (t: State)
    requires duration in {-1, 5} && p.rule == SampleRule(0, "t", duration) && Reaches(allowed, s0, s)
    requires SampleCalendar(s.cal, m) && s.rules == [p.rule] && s.made == [Made(1, p)] && s.pc == Idle
    requires deleteRule ==> UsersAct in allowed && RulesDeletedInFlight in allowed
    requires if onLog.Good? then deleteRule || !HasLog(s.log, 0, m.id) else LogReadFails in allowed
    requires if onExists.Good? then !Clash(s.cal, SlotOf(Pair(m, p.rule))) else ExistsReadFails in allowed
    ensures Reaches(allowed, s0, t)
    ensures t.made == [Made(1, p), Made(s.next, Pair(m, p.rule))]
    ensures t.next == s.next + 1 && t.nextRule == s.nextRule
  {
    hide Reaches, Legal, Exec, SlotOf, Fires, Ready, Do, WorkerStep, Serve, Resume, Worklist, Clash, SampleCalendar;
    assert SampleEvent(m) by {
      SampleIsEvent(s.cal, m);
    }
    SampleSlot(m, p.rule, "t", duration);
    var s1 := Begin(allowed, s0, s, m);
    FirstOfOne(Pair(m, p.rule));
    var s2 := s1;
    if deleteRule {
      s2 := DeleteInFlight(allowed, s0, s1, m.id);
    }
    t := InsertCurrent(allowed, s0, s2, onLog, onExists, Good, Good);
  }

  lemma SampleIsEvent(cal: seq<Item>, m: Item)
    requires SampleCalendar(cal, m)
    ensures SampleEvent(m)
  {
  }

  /** Deleting a rule nulls its log rows, also while a cycle still holds it. */
  lemma DeleteInFlight(allowed: set<Fault>, s0: State, s: State, event: EventId) returns (t: State)
    requires Reaches(allowed, s0, s) && UsersAct in allowed && RulesDeletedInFlight in allowed
    ensures Reaches(allowed, s0, t)
    ensures t == s.(rules := t.rules, log := t.log) && !HasLog(t.log, 0, event)
  {
    ReachesNext(allowed, s0, s, User(DeleteRule(0)));
    t := Do(s, User(DeleteRule(0)));
  }

  lemma WithoutMeeting(r: Item)
    requires r.id != 0
    ensures Without([r, MEETING], 0) == [r]
  {
    assert Without([MEETING], 0) == [] && [r, MEETING][1..] == [MEETING];
  }

  /** The user moves the meeting of the first cycle. */
  lemma MoveMeeting(allowed: set<Fault>, p: Pair, s0: State, s: State) returns (t: State)
    requires Reaches(allowed, s0, s) && UsersAct in allowed && AfterFirst(p, s)
    requires p == Pair(MEETING, SampleRule(0, "t", 5))
    ensures Reaches(allowed, s0, t)
    ensures t == s.(cal := [ReminderItem(1, p), MOVED])
    ensures SampleCalendar(t.cal, MOVED) && !Clash(t.cal, SlotOf(Pair(MOVED, p.rule)))
  {
    SampleSlot(MEETING, p.rule, "t", 5);
    SampleSlot(MOVED, p.rule, "t", 5);
    ReminderCarriesPrefix(1, p);
    hide SlotOf;
    var r := ReminderItem(1, p);
    assert !IsMade(s, 0) && HasId(s.cal, 0) by {
      assert s.cal[1] in s.cal;
    }
    WithoutMeeting(r);
    assert InsertSorted([r], MOVED) == [r, MOVED] by {
      assert [r][1..] == [];
    }
    ReachesNext(allowed, s0, s, User(EditEvent(0, MOVED)));
    t := Do(s, User(EditEvent(0, MOVED)));
  }

  /** Where the log can be got round, and the existence check too. */
  predicate CanRepeat(allowed: set<Fault>) {
    && (LogReadFails in allowed || LogWriteFails in allowed || InsertLost in allowed ||
        (UsersAct in allowed && RulesDeletedInFlight in allowed))
    && (UsersAct in allowed || ExistsReadFails in allowed || OddDurations in allowed)
  }

  lemma TwoInsertsOfOnePair(allowed: set<Fault>) returns (s0: State, t: State)
    requires CanRepeat(allowed)
    ensures Starts(allowed, s0) && Reaches(allowed, s0, t) && InsertedTwice(s0, t)
  {
    hide Reaches, Starts, SlotOf, HasLog;
    var duration := if UsersAct in allowed || ExistsReadFails in allowed then 5 else -1;
    var p := Pair(MEETING, SampleRule(0, "t", duration));
    var s;
    s0, s := FirstCycle(allowed, p, duration, if InsertLost in allowed then Lost else Good,
                        if LogWriteFails in allowed then Bad else Good);
    var m, onExists := MEETING, if UsersAct in allowed || duration == -1 then Good else Bad;
    assert SampleCalendar(s.cal, MEETING) by {
      ReminderCarriesPrefix(1, p);
    }
    if UsersAct in allowed {
      m := MOVED;
      s := MoveMeeting(allowed, p, s0, s);
    } else if duration == -1 {
      NotInOwnWindow(p, s.cal);
    }
    if InsertLost in allowed || LogWriteFails in allowed {
      t := SecondCycle(allowed, p, s0, s, m, duration, false, Good, onExists);
    } else if LogReadFails in allowed {
      t := SecondCycle(allowed, p, s0, s, m, duration, false, Bad, onExists);
    } else {
      t := SecondCycle(allowed, p, s0, s, m, duration, true, Good, onExists);
    }
  }

  /** A reminder that ends a minute before it starts does not lie in its own window. */
  lemma NotInOwnWindow(p: Pair, cal: seq<Item>)
    requires p == Pair(MEETING, SampleRule(0, "t", -1)) && cal == [ReminderItem(1, p), MEETING]
    ensures !Clash(cal, SlotOf(p))
  {
    SampleSlot(MEETING, p.rule, "t", -1);
  }

  // ---------- A reminder triggers a rule ----------

  /** A user turns the reminder into an event of their own, and the next cycle makes a reminder for it. */
  lemma CascadeAfterEdit(allowed: set<Fault>) returns (s0: State, t: State)
    requires UsersAct in allowed && RemindersEdited in allowed
    ensures Starts(allowed, s0) && Reaches(allowed, s0, t)
    ensures |t.made| == 2 && t.made[1].pair.item.id == t.made[0].id
    ensures |s0.cal| == |s0.rules| == 1 && t.next == s0.next + 2 && t.nextRule == s0.nextRule
  {
    hide Reaches, Starts, SlotOf, HasLog;
    var p := Pair(MEETING, SampleRule(0, "t", 5));
    var s;
    s0, s := FirstCycle(allowed, p, 5, Good, Good);
    var u := TakeOverReminder(allowed, p, s0, s);
    NotLogged(u.log);
    t := SecondCycle(allowed, p, s0, u, MOVED.(id := 1), 5, false, Good, Good);
  }

  lemma NotLogged(log: seq<LogRow>)
    requires forall row :: row in log ==> row.event == 0
    ensures !HasLog(log, 0, 1)
  {
  }

  lemma TakeOverReminder(allowed: set<Fault>, p: Pair, s0: State, s: State) returns (t: State)
    requires Reaches(allowed, s0, s) && UsersAct in allowed && RemindersEdited in allowed && AfterFirst(p, s)
    requires p == Pair(MEETING, SampleRule(0, "t", 5))
    ensures Reaches(allowed, s0, t)
    ensures t == s.(cal := [MOVED.(id := 1)])
    ensures SampleCalendar(t.cal, MOVED.(id := 1)) && !Clash(t.cal, SlotOf(Pair(MOVED.(id := 1), p.rule)))
  {
    hide Reaches, SlotOf, Permits, Apply, AfterFirst, Clash, SampleCalendar, InsertSorted;
    var y := MOVED.(id := 1);
    EditsTaken(p, s);
    UserMay(allowed, s, DeleteEvent(0));
    ReachesNext(allowed, s0, s, User(DeleteEvent(0)));
    var u := Do(s, User(DeleteEvent(0)));
    UserMay(allowed, u, EditEvent(1, y));
    ReachesNext(allowed, s0, u, User(EditEvent(1, y)));
    t := Do(u, User(EditEvent(1, y)));
    ClearOfReminder(p.rule);
  }

  lemma UserMay(allowed: set<Fault>, s: State, act: UserAct)
    requires UsersAct in allowed && (act == DeleteEvent(0) || (act.EditEvent? && RemindersEdited in allowed))
    requires act.DeleteEvent? ==> !IsMade(s, 0)
    ensures Permits(allowed, s, User(act))
  {
  }

  lemma IdOf(cal: seq<Item>, x: Item)
    requires x in cal
    ensures HasId(cal, x.id)
  {
  }

  lemma EditsTaken(p: Pair, s: State)
    requires AfterFirst(p, s)
    ensures var y, u := MOVED.(id := 1), Apply(s, DeleteEvent(0));
            && !IsMade(s, 0) && u.cal == [ReminderItem(1, p)] && u == s.(cal := u.cal)
            && Apply(u, EditEvent(1, y)) == s.(cal := [y])
  {
    hide SlotOf;
    var r := ReminderItem(1, p);
    WithoutMeeting(r);
    assert r.id == 1 && r in [r] && [r][1..] == [];
    assert Without([r], 1) == [];
    IdOf([r], r);
  }

  lemma ClearOfReminder(rule: Rule)
    requires rule == SampleRule(0, "t", 5)
    ensures var y := MOVED.(id := 1);
            SampleCalendar([y], y) && !Clash([y], SlotOf(Pair(y, rule)))
  {
    SampleSlot(MOVED.(id := 1), rule, "t", 5);
  }
}
