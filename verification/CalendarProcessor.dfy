/** The calendar processor as it runs: loops over events and rules, calls that may fail, users acting between
    any two calls. Every execution is a run of the model, and one without faults is the calm cycle. */
module CalendarProcessor {
  import opened Text
  import opened Wrappers
  import opened ReminderModel
  import opened ReminderTime
  import opened ReminderCycle
  import opened ReminderSeparation
  import opened ReminderOnce

  class CalendarProcessor {
    const allowed: set<Fault>
    var cal: seq<Item>
    var next: EventId
    var rules: seq<Rule>
    var nextRule: RuleId
    var log: seq<LogRow>
    var made: seq<Made>
    var pc: Pc
    ghost const start: State
    ghost var run: seq<Move>

    function S(): State
      reads this
    {
      State(cal, next, rules, nextRule, log, made, pc)
    }

    /** All that has happened is a permitted run from the start. */
    ghost predicate Valid()
      reads this
    {
      Legal(allowed, start, run) && Exec(start, run) == S()
    }

    constructor (allowed: set<Fault>, cal: seq<Item>, next: EventId, rules: seq<Rule>, nextRule: RuleId)
      ensures Valid() && run == [] && this.allowed == allowed
      ensures S() == start == State(cal, next, rules, nextRule, [], [], Idle)
    {
      this.allowed, this.cal, this.next, this.rules, this.nextRule := allowed, cal, next, rules, nextRule;
      log, made, pc := [], [], Idle;
      start, run := State(cal, next, rules, nextRule, [], [], Idle), [];
    }

    /** What the run theorems say of the processor, whatever it has been through. */
    lemma Guarantees()
      requires Valid() && Initial(start)
      ensures KeepsSeparation(allowed) ==> Separated(S())
      ensures LogsReliable(allowed) ==>
                forall rule, event :: Times(made, rule, event) <= (if Strict(allowed) then 1 else 2)
      ensures Starts(allowed, start) && OneGuardHolds(allowed) ==> forall rule, event :: Times(made, rule, event) <= 1
    {
      if KeepsSeparation(allowed) {
        SeparationRun(allowed, start, run);
      }
      if LogsReliable(allowed) {
        OnceRun(allowed, start, run);
      }
      if Starts(allowed, start) && OneGuardHolds(allowed) {
        assert Reaches(allowed, start, S());
        forall rule, event ensures Times(made, rule, event) <= 1 {
          OnceUnderGuard(allowed, start, S(), rule, event);
        }
      }
    }

    /** Since `before` there have been any number of user acts and then one call, going as `luck` says. */
    ghost predicate OneCall(before: seq<Move>, luck: Luck)
      reads this
    {
      && |before| < |run| && before <= run && run[|run| - 1] == Work(luck)
      && forall k :: |before| <= k < |run| - 1 ==> run[k].User?
    }

    /** What the last move found. */
    ghost function AtLast(): State
      requires run != []
      reads this
    {
      Exec(start, run[..|run| - 1])
    }

    /** The last thing that happened is a failing read of the rules or the events. */
    ghost predicate Aborted()
      reads this
    {
      && run != [] && run[|run| - 1].Work? && !run[|run| - 1].luck.Good?
      && Ask(AtLast().pc) in {FetchRules, Query.ListEvents}
    }

    /** Put a new state in place, as the result of one more move. */
    method Become(t: State, ghost move: Move)
      requires Valid() && Permits(allowed, S(), move) && t == Do(S(), move)
      modifies this
      ensures Valid() && S() == t && run == old(run) + [move] && AtLast() == old(S())
    {
      cal, next, rules, nextRule, log, made, pc := t.cal, t.next, t.rules, t.nextRule, t.log, t.made, t.pc;
      ghost var before := run;
      run := run + [move];
      assert run[..|run| - 1] == before;
    }

    /** Users act any number of times. */
    method Interference()
      requires Valid()
      modifies this
      ensures Valid() && old(run) <= run && pc == old(pc)
      ensures forall k :: |old(run)| <= k < |run| ==> run[k].User?
      ensures UsersAct !in allowed ==> S() == old(S())
    {
      var n: nat := *;
      while n > 0
        invariant Valid() && old(run) <= run && pc == old(pc)
        invariant forall k :: |old(run)| <= k < |run| ==> run[k].User?
        invariant UsersAct !in allowed ==> S() == old(S())
      {
        var act: UserAct := *;
        if Permits(allowed, S(), User(act)) {
          Become(Apply(S(), act), User(act));
        }
        n := n - 1;
      }
    }

    method Chance(query: Query) returns (luck: Luck)
      ensures luck.Good? || FaultOf(query, luck) in allowed
    {
      luck := *;
      if !luck.Good? && FaultOf(query, luck) !in allowed {
        luck := Good;
      }
    }

    /** One call to a service by the worker. */
    method Call() returns (luck: Luck, ghost before: State)
      requires Valid()
      modifies this
      ensures Valid() && old(run) <= run && before.pc == old(pc) == pc && before == S()
      ensures forall k :: |old(run)| <= k < |run| ==> run[k].User?
      ensures luck.Good? || FaultOf(Ask(pc), luck) in allowed
      ensures allowed == {} ==> luck.Good? && S() == old(S())
    {
      Interference();
      luck := Chance(Ask(pc));
      before := S();
    }

    method GetRulesForAccount() returns (ok: bool, found: seq<Rule>, ghost luck: Luck)
      requires Valid() && pc == Idle
      modifies this
      ensures Valid() && old(run) <= run && OneCall(old(run), luck)
      ensures pc == Resume(Idle, if ok then GotRules(found) else Failed)
      ensures ok == luck.Good? && found == AtLast().rules && S() == WorkerStep(AtLast(), luck)
      ensures Aborted() <==> !ok
      ensures allowed == {} ==> ok && S() == WorkerStep(old(S()), Good)
    {
      var going, before := Call();
      luck := going;
      ok, found := going.Good?, rules;
      Become(S().(pc := Resume(Idle, if ok then GotRules(found) else Failed)), Work(going));
    }

    /** The provider's listing: what lies in the window, in order, up to the page size. */
    static method ReadListing(cal: seq<Item>) returns (items: seq<Item>)
      ensures items == Listing(cal)
    {
      hide InWindow;
      items := [];
      var i := 0;
      while i < |cal| && |items| < LISTING_SIZE
        invariant 0 <= i <= |cal| && |items| <= LISTING_SIZE
        invariant items + Take(Visible(cal[i..]), LISTING_SIZE - |items|) == Listing(cal)
      {
        assert cal[i..][1..] == cal[i + 1..];
        if InWindow(cal[i], LISTING_MIN, LISTING_MAX) {
          TakeCons(cal[i], Visible(cal[i + 1..]), LISTING_SIZE - |items|);
          items := items + [cal[i]];
        }
        i := i + 1;
      }
    }

    method ListEvents() returns (ok: bool, items: seq<Item>, ghost luck: Luck)
      requires Valid() && pc.Fetched?
      modifies this
      ensures Valid() && old(run) <= run && OneCall(old(run), luck)
      ensures pc == Resume(old(pc), if ok then GotEvents(items) else Failed)
      ensures ok == luck.Good? && items == Listing(AtLast().cal) && S() == WorkerStep(AtLast(), luck)
      ensures Aborted() <==> !ok
      ensures allowed == {} ==> ok && S() == WorkerStep(old(S()), Good)
    {
      var going, before := Call();
      luck := going;
      items := ReadListing(cal);
      ok := going.Good?;
      Become(S().(pc := Resume(pc, if ok then GotEvents(items) else Failed)), Work(going));
    }

    static method FindLog(log: seq<LogRow>, rule: RuleId, event: EventId) returns (found: bool)
      ensures found <==> HasLog(log, rule, event)
    {
      var i := 0;
      while i < |log|
        invariant 0 <= i <= |log|
        invariant forall k :: 0 <= k < i ==>
                    !(log[k].rule == Some(rule) && log[k].status == Success && log[k].event == event)
      {
        if log[i].rule == Some(rule) && log[i].status == Success && log[i].event == event {
          return true;
        }
        i := i + 1;
      }
      return false;
    }

    /** A failing query reads as "no row". */
    method HasLogForTrigger(rule: RuleId, event: EventId) returns (found: bool, ghost luck: Luck)
      requires Valid() && Ask(pc) == AskLog(rule, event)
      modifies this
      ensures Valid() && old(run) <= run && OneCall(old(run), luck) && !Aborted() && pc == Resume(old(pc), Found(found))
      ensures found <==> luck.Good? && HasLog(AtLast().log, rule, event)
      ensures S() == WorkerStep(AtLast(), luck)
      ensures allowed == {} ==> S() == WorkerStep(old(S()), Good)
    {
      var going, before := Call();
      luck := going;
      found := false;
      if going.Good? {
        found := FindLog(log, rule, event);
      }
      Become(S().(pc := Resume(pc, Found(found))), Work(going));
    }

    static method FindTitle(cal: seq<Item>, timeMin: int, timeMax: int, title: string) returns (found: bool)
      ensures found <==> exists x | x in cal :: InWindow(x, timeMin, timeMax) && x.summary == title
    {
      var i := 0;
      while i < |cal|
        invariant 0 <= i <= |cal|
        invariant forall k :: 0 <= k < i ==> !(InWindow(cal[k], timeMin, timeMax) && cal[k].summary == title)
      {
        if InWindow(cal[i], timeMin, timeMax) && cal[i].summary == title {
          return true;
        }
        i := i + 1;
      }
      return false;
    }

    /** Is there an event with this title that overlaps the reminder, give or take a minute? */
    method EventExists(reminder: int, end: int, title: string) returns (found: bool, ghost luck: Luck)
      requires Valid() && Ask(pc) == AskExists(Slot(title, FloorSeconds(reminder), FloorSeconds(end)))
      modifies this
      ensures Valid() && old(run) <= run && OneCall(old(run), luck) && !Aborted() && pc == Resume(old(pc), Found(found))
      ensures found <==> luck.Good? && exists x | x in AtLast().cal ::
                           InWindow(x, FloorSeconds(reminder) - 60, FloorSeconds(end) + 60) && x.summary == title
      ensures S() == WorkerStep(AtLast(), luck)
      ensures allowed == {} ==> S() == WorkerStep(old(S()), Good)
    {
      var going, before := Call();
      luck := going;
      var timeMin := FloorSeconds(reminder - NANOS_PER_MINUTE);
      var timeMax := FloorSeconds(end + NANOS_PER_MINUTE);
      FloorShift(reminder, -60);
      FloorShift(end, 60);
      found := false;
      if going.Good? {
        found := FindTitle(cal, timeMin, timeMax, title);
        assert found <==> Clash(cal, Slot(title, FloorSeconds(reminder), FloorSeconds(end)));
      }
      Become(S().(pc := Resume(pc, Found(found))), Work(going));
    }

    method InsertEvent(item: Item, ghost p: Pair) returns (created: Option<EventId>, ghost luck: Luck)
      requires Valid() && Ask(pc) == Insert(p) && item == ReminderItem(item.id, p)
      modifies this
      ensures Valid() && old(run) <= run && OneCall(old(run), luck) && !Aborted()
      ensures created == if luck.Good? then Some(AtLast().next) else None
      ensures cal == if luck.Bad? then AtLast().cal else InsertSorted(AtLast().cal, item.(id := AtLast().next))
      ensures S() == WorkerStep(AtLast(), luck)
      ensures pc == Resume(old(pc), if created.Some? then Reply.Created(created.value) else Failed)
      ensures allowed == {} ==> S() == WorkerStep(old(S()), Good)
    {
      var going, before := Call();
      luck := going;
      created := if going.Good? then Some(next) else None;
      var t := S().(pc := Resume(pc, if going.Good? then Reply.Created(next) else Failed));
      if !going.Bad? {
        t := t.(cal := InsertSorted(cal, item.(id := next)), next := next + 1, made := made + [Made(next, pc.cur)]);
      }
      Become(t, Work(going));
    }

    method CreateAutomationLog(row: LogRow) returns (ghost luck: Luck)
      requires Valid() && Ask(pc) == WriteLog(row)
      modifies this
      ensures Valid() && old(run) <= run && OneCall(old(run), luck) && !Aborted() && pc == Settle(old(pc).rest)
      ensures log == AtLast().log +
                     if luck.Bad? || (row.rule.Some? && !RuleExists(AtLast().rules, row.rule.value)) then [] else [row]
      ensures S() == WorkerStep(AtLast(), luck)
      ensures allowed == {} ==> S() == WorkerStep(old(S()), Good)
    {
      var going, before := Call();
      luck := going;
      var t := S().(pc := Resume(pc, Written));
      if !going.Bad? && (row.rule.None? || RuleExists(rules, row.rule.value)) {
        t := t.(log := log + [row]);
      }
      Become(t, Work(going));
    }

    static method MatchTrigger(item: Item, trigger: Trigger) returns (matches: bool)
      ensures matches <==> SummaryMatches(item.summary, trigger) && LocationMatches(item.location, trigger)
    {
      var summaryMatch := trigger.summaryEquals != "" && item.summary == trigger.summaryEquals;
      var i := 0;
      while !summaryMatch && i < |trigger.summaryContains|
        invariant 0 <= i <= |trigger.summaryContains|
        invariant summaryMatch ==> SummaryMatches(item.summary, trigger)
        invariant !summaryMatch ==> !(trigger.summaryEquals != "" && item.summary == trigger.summaryEquals)
        invariant !summaryMatch ==> forall k :: 0 <= k < i ==> !Contains(item.summary, trigger.summaryContains[k])
      {
        summaryMatch := Contains(item.summary, trigger.summaryContains[i]);
        i := i + 1;
      }
      if !summaryMatch {
        return false;
      }
      var locationMatch := trigger.locationContains == [];
      i := 0;
      while !locationMatch && i < |trigger.locationContains|
        invariant 0 <= i <= |trigger.locationContains|
        invariant locationMatch ==> LocationMatches(item.location, trigger)
        invariant !locationMatch ==> trigger.locationContains != []
        invariant !locationMatch ==>
          forall k :: 0 <= k < i ==> !Contains(ToLower(item.location), ToLower(trigger.locationContains[k]))
      {
        locationMatch := Contains(ToLower(item.location), ToLower(trigger.locationContains[i]));
        i := i + 1;
      }
      return locationMatch;
    }

    /** One rule against one event; `rest` is the work after it. */
    method VisitPair(item: Item, rule: Rule, ghost rest: seq<Pair>)
      requires Valid() && !Aborted() && pc == Settle([Pair(item, rule)] + rest)
      modifies this
      ensures Valid() && !Aborted() && old(run) <= run && pc == Settle(rest)
      ensures allowed == {} && Settled(old(pc)) ==> Settled(pc) && CalmFinish(S()) == CalmFinish(old(S()))
    {
      hide Legal, Exec, CalmAll, Aborted, OneCall, AtLast, HasLog;
      ghost var p := Pair(item, rule);
      assert ([p] + rest)[1..] == rest;
      ghost var s0 := S();
      if !rule.active || rule.trigger.None? {
        SettleSkips(s0, rest);
        return;
      }
      var matches := MatchTrigger(item, rule.trigger.value);
      if !matches {
        SettleSkips(s0, rest);
        return;
      }
      assert Fires(p);
      CalmStep(s0);
      var logged, _ := HasLogForTrigger(rule.id, item.id);
      if logged || rule.action.None? || rule.action.value.newEventTitle == "" || item.startTime.None? {
        return;
      }
      PlaceReminder(item, rule, rest);
    }

    /** The pair matches and is not logged: insert its reminder unless there is one already, and log the outcome. */
    method PlaceReminder(item: Item, rule: Rule, ghost rest: seq<Pair>)
      requires Valid() && Ready(Pair(item, rule)) && pc == Visit(CheckExists, Pair(item, rule), rest)
      modifies this
      ensures Valid() && !Aborted() && old(run) <= run && pc == Settle(rest)
      ensures allowed == {} ==> Settled(pc) && CalmFinish(S()) == CalmFinish(old(S()))
    {
      hide Legal, Exec, CalmAll, CalmFinish, Aborted, OneCall, AtLast, InWindow, WorkerStep, RuleExists;
      ghost var p := Pair(item, rule);
      var action, startTime := rule.action.value, item.startTime.value;
      var offset := if action.offsetMinutes == 0 then -60 else action.offsetMinutes;
      var reminder := startTime + MinutesToNanos(offset);
      var duration := if action.durationMin == 0 then 5 else action.durationMin;
      var end := reminder + MinutesToNanos(duration);
      var title := action.newEventTitle;
      assert SlotOf(p) == Slot(title, FloorSeconds(reminder), FloorSeconds(end));
      CalmStep(S());
      var found, _ := EventExists(reminder, end, title);
      CalmStep(S());
      if found {
        var _ := CreateAutomationLog(LogRow(Some(rule.id), Skipped, item.id, None));
      } else {
        CreateReminder(item, rule, title, reminder, end, rest);
      }
    }

    /** Nothing is in the way: insert the reminder and log how that went. */
    method CreateReminder(item: Item, rule: Rule, title: string, reminder: int, end: int, ghost rest: seq<Pair>)
      requires Valid() && pc == Visit(Inserting, Pair(item, rule), rest)
      requires SlotOf(Pair(item, rule)) == Slot(title, FloorSeconds(reminder), FloorSeconds(end))
      modifies this
      ensures Valid() && !Aborted() && old(run) <= run && pc == Settle(rest)
      ensures allowed == {} ==> Settled(pc) && CalmFinish(S()) == CalmFinish(old(S()))
    {
      hide Legal, Exec, CalmAll, CalmFinish, Aborted, OneCall, AtLast, InsertSorted, WorkerStep, RuleExists;
      ghost var p := Pair(item, rule);
      CalmStep(S());
      var description := "Automatische reminder voor: " + item.summary + "\nGemaakt door regel: " + rule.name;
      var newEvent := Item(0, title, description, "", FloorSeconds(reminder), FloorSeconds(end),
                           Some(FloorSeconds(reminder) * NANOS_PER_SECOND));
      assert newEvent == ReminderItem(0, p) by {
        assert "Automatische reminder voor: " == REMINDER_PREFIX + " ";
      }
      var created, _ := InsertEvent(newEvent, p);
      CalmStep(S());
      var _ := CreateAutomationLog(LogRow(Some(rule.id), if created.None? then Failure else Success, item.id, created));
    }

    /** All rules against one event; `later` is the work for the events after it. */
    method VisitEvent(item: Item, rs: seq<Rule>, ghost later: seq<Pair>)
      requires Valid() && !Aborted() && pc == Settle((if IsReminder(item) then [] else PairsOf(item, rs)) + later)
      modifies this
      ensures Valid() && !Aborted() && old(run) <= run && pc == Settle(later)
      ensures allowed == {} && Settled(old(pc)) ==> Settled(pc) && CalmFinish(S()) == CalmFinish(old(S()))
    {
      hide Legal, Exec, CalmFinish, Settle, Worklist, Aborted, Settled, PairsOf;
      PairsEnd(item, later);
      if REMINDER_PREFIX <= item.description {
        return;
      }
      var j := 0;
      assert rs[0..] == rs;
      while j < |rs|
        invariant 0 <= j <= |rs|
        invariant Valid() && !Aborted() && old(run) <= run && pc == Settle(PairsOf(item, rs[j..]) + later)
        invariant allowed == {} && Settled(old(pc)) ==> Settled(pc) && CalmFinish(S()) == CalmFinish(old(S()))
      {
        ghost var rest := PairsOf(item, rs[j + 1..]) + later;
        PairsSplit(item, rs, j, later);
        VisitPair(item, rs[j], rest);
        j := j + 1;
      }
      assert rs[j..] == [];
    }

    /** The events of a listing, one after the other. */
    method VisitEvents(items: seq<Item>, rs: seq<Rule>)
      requires Valid() && !Aborted() && pc == Settle(Worklist(items, rs))
      modifies this
      ensures Valid() && !Aborted() && old(run) <= run && pc == Idle
      ensures allowed == {} && Settled(old(pc)) ==> CalmFinish(S()) == CalmFinish(old(S()))
    {
      hide Legal, Exec, CalmFinish, Aborted;
      var i := 0;
      assert items[0..] == items;
      while i < |items|
        invariant 0 <= i <= |items|
        invariant Valid() && !Aborted() && old(run) <= run && pc == Settle(Worklist(items[i..], rs))
        invariant allowed == {} && Settled(old(pc)) ==> Settled(pc) && CalmFinish(S()) == CalmFinish(old(S()))
      {
        assert items[i..][1..] == items[i + 1..];
        VisitEvent(items[i], rs, Worklist(items[i + 1..], rs));
        i := i + 1;
      }
    }

    /** A whole cycle for the account. It reports an error exactly when its last call was a failing read of the rules or
        the events; whatever else fails does not. */
    method ProcessEvents() returns (ok: bool)
      requires Valid() && pc == Idle
      modifies this
      ensures Valid() && old(run) <= run && pc == Idle
      ensures ok <==> !Aborted()
      ensures allowed == {} ==> ok && S() == CalmCycle(old(S()))
    {
      hide Legal, Exec, Aborted, OneCall, AtLast;
      var gotRules, rs, _ := GetRulesForAccount();
      if !gotRules {
        return false;
      }
      if rs == [] {
        NoRulesNoWork(Listing(old(S()).cal));
        return true;
      }
      CalmStep(S());
      var gotItems, items, _ := ListEvents();
      if !gotItems {
        return false;
      }
      if items == [] {
        return true;
      }
      VisitEvents(items, rs);
      return true;
    }
  }

  lemma PairsSplit(item: Item, rs: seq<Rule>, j: nat, later: seq<Pair>)
    requires j < |rs|
    ensures PairsOf(item, rs[j..]) + later == [Pair(item, rs[j])] + (PairsOf(item, rs[j + 1..]) + later)
  {
    assert rs[j..][0] == rs[j] && rs[j..][1..] == rs[j + 1..];
  }

  lemma PairsEnd(item: Item, later: seq<Pair>)
    ensures [] + later == PairsOf(item, []) + later == later
  {
  }

  lemma NoRulesNoWork(items: seq<Item>)
    ensures Worklist(items, []) == []
  {
  }
}
