/** A cycle in which every call succeeds and nobody interferes: what it achieves, and why the next one is idle. */
module ReminderCycle {
  import opened Text
  import opened Wrappers
  import opened ReminderModel

  // ---------- The cycle, pair by pair ----------

  function Logged(s: State, p: Pair, status: Status, created: Option<EventId>): State {
    s.(log := AppendLog(s.log, s.rules, LogRow(Some(p.rule.id), status, p.item.id, created)))
  }

  function CalmInsert(s: State, p: Pair): State {
    Logged(AddReminder(s, p), p, Success, Some(s.next))
  }

  function CalmExists(s: State, p: Pair): State {
    if Clash(s.cal, SlotOf(p)) then Logged(s, p, Skipped, None) else CalmInsert(s, p)
  }

  function CalmVisit(s: State, p: Pair): State {
    if !Fires(p) || HasLog(s.log, p.rule.id, p.item.id) || !Ready(p) then s else CalmExists(s, p)
  }

  function CalmAll(s: State, work: seq<Pair>): State
    decreases work
  {
    if work == [] then s else CalmAll(CalmVisit(s, work[0]), work[1..])
  }

  function CalmCycle(s: State): State {
    CalmAll(s, Worklist(Listing(s.cal), s.rules))
  }

  /** What a cycle already under way leads to if all goes well from here. */
  function CalmFinish(s: State): State {
    var t := s.(pc := Idle);
    match s.pc
    case Idle => t
    case Fetched(rules) => CalmAll(t, Worklist(Listing(s.cal), rules))
    case Visit(stage, p, rest) =>
      var u := match stage
               case CheckLog => CalmVisit(t, p)
               case CheckExists => CalmExists(t, p)
               case Inserting => CalmInsert(t, p)
               case Logging(status, created) => Logged(t, p, status, created);
      CalmAll(u, rest)
  }

  lemma {:induction false} SettleSkips(s: State, work: seq<Pair>)
    ensures CalmFinish(s.(pc := Settle(work))) == CalmAll(s.(pc := Idle), work)
    ensures Settle(work).Visit? ==> Settle(work).stage == CheckLog && Fires(Settle(work).cur)
  {
    if work != [] && !Fires(work[0]) {
      SettleSkips(s, work[1..]);
    }
  }

  /** The pair under visit at the log check always fires, as settling passes over the others. */
  predicate Settled(pc: Pc) {
    pc.Visit? && pc.stage == CheckLog ==> Fires(pc.cur)
  }

  /** The small steps of the worker and the pair-by-pair account agree: a step that goes well changes nothing
      about where the cycle ends. */
  lemma CalmStep(s: State)
    requires s.pc != Idle && Settled(s.pc)
    ensures CalmFinish(WorkerStep(s, Good)) == CalmFinish(s)
    ensures Settled(WorkerStep(s, Good).pc)
  {
    hide CalmFinish, WorkerStep, Settled;
    match s.pc
    case Fetched(rules) => CalmAtListing(s);
    case Visit(stage, _, _) =>
      match stage {
        case CheckLog => CalmAtLog(s);
        case CheckExists => CalmAtExists(s);
        case Inserting => CalmAtInsert(s);
        case Logging(_, _) => CalmAtWrite(s);
      }
  }

  lemma CalmAtListing(s: State)
    requires s.pc.Fetched?
    ensures CalmFinish(WorkerStep(s, Good)) == CalmFinish(s) && Settled(WorkerStep(s, Good).pc)
  {
    hide SlotOf, Fires, Listing, Worklist, Settle;
    SettleSkips(s, Worklist(Listing(s.cal), s.pc.rules));
  }

  lemma CalmAtLog(s: State)
    requires s.pc.Visit? && s.pc.stage == CheckLog && Settled(s.pc)
    ensures CalmFinish(WorkerStep(s, Good)) == CalmFinish(s) && Settled(WorkerStep(s, Good).pc)
  {
    hide SlotOf, Fires, Ready, HasLog, Settle, Clash, CalmAll;
    SettleSkips(s, s.pc.rest);
  }

  lemma CalmAtExists(s: State)
    requires s.pc.Visit? && s.pc.stage == CheckExists
    ensures CalmFinish(WorkerStep(s, Good)) == CalmFinish(s) && Settled(WorkerStep(s, Good).pc)
  {
    hide SlotOf, Clash, CalmAll;
  }

  lemma CalmAtInsert(s: State)
    requires s.pc.Visit? && s.pc.stage == Inserting
    ensures CalmFinish(WorkerStep(s, Good)) == CalmFinish(s) && Settled(WorkerStep(s, Good).pc)
  {
    hide SlotOf, CalmAll;
  }

  lemma CalmAtWrite(s: State)
    requires s.pc.Visit? && s.pc.stage.Logging?
    ensures CalmFinish(WorkerStep(s, Good)) == CalmFinish(s) && Settled(WorkerStep(s, Good).pc)
  {
    hide SlotOf, Fires, Settle, CalmAll, AppendLog;
    SettleSkips(WorkerStep(s, Good), s.pc.rest);
  }

  // ---------- What a cycle only adds ----------

  ghost predicate Grows(s: State, t: State) {
    && t.rules == s.rules && t.nextRule == s.nextRule && t.pc == s.pc
    && s.made <= t.made && s.log <= t.log
    && (forall x :: x in s.cal ==> x in t.cal)
  }

  lemma {:induction false} CalmAllGrows(s: State, work: seq<Pair>)
    ensures Grows(s, CalmAll(s, work))
    decreases work
  {
    if work != [] {
      CalmAllGrows(CalmVisit(s, work[0]), work[1..]);
    }
  }

  lemma {:induction false} CalmAllAppend(s: State, a: seq<Pair>, b: seq<Pair>)
    ensures CalmAll(s, a + b) == CalmAll(CalmAll(s, a), b)
    decreases a
  {
    if a == [] {
      assert a + b == b;
    } else {
      assert (a + b)[1..] == a[1..] + b;
      CalmAllAppend(CalmVisit(s, a[0]), a[1..], b);
    }
  }

  /** The state in which a cycle reaches its k-th pair. */
  function At(s: State, work: seq<Pair>, k: nat): State
    requires k <= |work|
  {
    CalmAll(s, work[..k])
  }

  lemma Reached(s: State, work: seq<Pair>, k: nat)
    requires k < |work|
    ensures Grows(s, At(s, work, k))
    ensures CalmAll(s, work) == CalmAll(CalmVisit(At(s, work, k), work[k]), work[k + 1..])
    ensures Grows(CalmVisit(At(s, work, k), work[k]), CalmAll(s, work))
  {
    assert work == work[..k] + work[k..];
    CalmAllAppend(s, work[..k], work[k..]);
    assert work[k..][1..] == work[k + 1..];
    CalmAllGrows(s, work[..k]);
    CalmAllGrows(CalmVisit(At(s, work, k), work[k]), work[k + 1..]);
  }

  // ---------- Completeness and soundness ----------

  /** The pair is dealt with: a success row, or an event with the reminder's title near its slot. */
  ghost predicate Covered(s: State, p: Pair) {
    HasLog(s.log, p.rule.id, p.item.id) || Clash(s.cal, SlotOf(p))
  }

  lemma CoveredGrows(s: State, t: State, p: Pair)
    requires Grows(s, t) && Covered(s, p)
    ensures Covered(t, p)
  {
  }

  lemma CoveredAfterwards(s: State, item: Item, rule: Rule)
    requires item in Listing(s.cal) && !IsReminder(item) && rule in s.rules
    requires Fires(Pair(item, rule)) && Ready(Pair(item, rule))
    ensures Covered(CalmCycle(s), Pair(item, rule))
  {
    var p, work := Pair(item, rule), Worklist(Listing(s.cal), s.rules);
    assert p in work;
    var k :| 0 <= k < |work| && work[k] == p;
    Reached(s, work, k);
    var u := At(s, work, k);
    var v := CalmVisit(u, p);
    if !Covered(u, p) {
      assert v == CalmInsert(u, p);
      assert LogRow(Some(rule.id), Success, item.id, Some(u.next)) in v.log;
    } else {
      CoveredGrows(u, v, p);
    }
    CoveredGrows(v, CalmAll(s, work), p);
  }

  /** A cycle deals with every event the listing shows that is no reminder, and every active rule whose parameters
      decode, that names a title for the reminder, and whose title and location conditions the event meets: when it ends
      there is a success row for them, or an event of that title within a minute of the reminder's time. What other
      rules and events look like stops nothing. */
  lemma CycleComplete(s: State, item: Item, rule: Rule)
    requires item in Listing(s.cal) && !("Automatische reminder voor:" <= item.description) && item.startTime.Some?
    requires rule in s.rules && rule.active && rule.trigger.Some? && rule.action.Some?
    requires rule.action.value.newEventTitle != ""
    requires (rule.trigger.value.summaryEquals != "" && item.summary == rule.trigger.value.summaryEquals)
             || exists part | part in rule.trigger.value.summaryContains :: Contains(item.summary, part)
    requires rule.trigger.value.locationContains == []
             || exists part | part in rule.trigger.value.locationContains ::
                  Contains(ToLower(item.location), ToLower(part))
    ensures var t, slot := CalmCycle(s), SlotAt(item.startTime.value, rule.action.value);
            || (exists row | row in t.log :: row.rule == Some(rule.id) && row.event == item.id && row.status == Success)
            || (exists x | x in t.cal ::
                  x.summary == rule.action.value.newEventTitle && x.end > slot.lo - 60 && x.start < slot.hi + 60)
  {
    hide SlotAt, Contains, ToLower, Listing, CalmCycle;
    CoveredAfterwards(s, item, rule);
    CoveredExactly(CalmCycle(s), Pair(item, rule));
  }

  lemma CoveredExactly(s: State, p: Pair)
    requires Ready(p)
    ensures Covered(s, p) <==>
            var slot := SlotAt(p.item.startTime.value, p.rule.action.value);
            || (exists row | row in s.log ::
                  row.rule == Some(p.rule.id) && row.event == p.item.id && row.status == Success)
            || (exists x | x in s.cal ::
                  x.summary == p.rule.action.value.newEventTitle && x.end > slot.lo - 60 && x.start < slot.hi + 60)
  {
    hide FloorSeconds, MinutesToNanos;
  }

  /** The insertion happened for good reason, seen from the start of the cycle. */
  ghost predicate Justified(s: State, m: Made) {
    && m.pair.item in Listing(s.cal) && !IsReminder(m.pair.item) && m.pair.rule in s.rules
    && Fires(m.pair) && Ready(m.pair) && !Covered(s, m.pair)
  }

  lemma {:induction false} InsertionsJustified(s: State, work: seq<Pair>, i: nat)
    requires |s.made| <= i < |CalmAll(s, work).made|
    ensures var m := CalmAll(s, work).made[i];
            m.pair in work && Fires(m.pair) && Ready(m.pair) && !Covered(s, m.pair)
    ensures ReminderItem(CalmAll(s, work).made[i].id, CalmAll(s, work).made[i].pair) in CalmAll(s, work).cal
    decreases work
  {
    var u := CalmVisit(s, work[0]);
    CalmAllGrows(u, work[1..]);
    if i < |u.made| {
      assert u.made[i] == CalmAll(s, work).made[i];
    } else {
      InsertionsJustified(u, work[1..], i);
    }
  }

  lemma InsertedFor(s: State, i: nat)
    requires |s.made| <= i < |CalmCycle(s).made|
    ensures Justified(s, CalmCycle(s).made[i])
    ensures ReminderItem(CalmCycle(s).made[i].id, CalmCycle(s).made[i].pair) in CalmCycle(s).cal
  {
    InsertionsJustified(s, Worklist(Listing(s.cal), s.rules), i);
  }

  /** Every insertion of a cycle is for a listed event that is no reminder, and an existing active rule whose parameters
      decode, that names a title, and whose title and location conditions the event meets; no success row and no such
      event were there at the start; and the calendar then has the reminder, as the rule asks for it. */
  lemma CycleSound(s: State, i: nat)
    requires |s.made| <= i < |CalmCycle(s).made|
    ensures var t := CalmCycle(s);
            var Made(id, Pair(item, rule)) := t.made[i];
            && item in Listing(s.cal) && !("Automatische reminder voor:" <= item.description) && item.startTime.Some?
            && rule in s.rules && rule.active && rule.trigger.Some? && rule.action.Some?
            && ((rule.trigger.value.summaryEquals != "" && item.summary == rule.trigger.value.summaryEquals)
                || exists part | part in rule.trigger.value.summaryContains :: Contains(item.summary, part))
            && (rule.trigger.value.locationContains == []
                || exists part | part in rule.trigger.value.locationContains ::
                     Contains(ToLower(item.location), ToLower(part)))
            && rule.action.value.newEventTitle != ""
            && (forall row :: row in s.log ==>
                  !(row.rule == Some(rule.id) && row.event == item.id && row.status == Success))
            && var slot := SlotAt(item.startTime.value, rule.action.value);
            && (forall x :: x in s.cal ==>
                  !(x.summary == rule.action.value.newEventTitle && x.end > slot.lo - 60 && x.start < slot.hi + 60))
            && Item(id, rule.action.value.newEventTitle,
                    "Automatische reminder voor: " + item.summary + "\nGemaakt door regel: " + rule.name,
                    "", slot.lo, slot.hi, Some(slot.lo * 1_000_000_000)) in t.cal
  {
    hide SlotAt, Contains, ToLower, Listing, CalmCycle, HasLog, Clash;
    InsertedFor(s, i);
    var m := CalmCycle(s).made[i];
    CoveredExactly(s, m.pair);
    ReminderSays(m.id, m.pair);
  }

  lemma ReminderSays(id: EventId, p: Pair)
    requires Ready(p)
    ensures var slot := SlotAt(p.item.startTime.value, p.rule.action.value);
            ReminderItem(id, p) ==
            Item(id, p.rule.action.value.newEventTitle,
                 "Automatische reminder voor: " + p.item.summary + "\nGemaakt door regel: " + p.rule.name,
                 "", slot.lo, slot.hi, Some(slot.lo * 1_000_000_000))
  {
    hide FloorSeconds, MinutesToNanos;
    assert REMINDER_PREFIX + " " == "Automatische reminder voor: ";
  }

  lemma {:induction false} OnlyRemindersAdded(s: State, work: seq<Pair>, x: Item)
    requires x in CalmAll(s, work).cal && x !in s.cal
    ensures exists i :: |s.made| <= i < |CalmAll(s, work).made| &&
                        x == ReminderItem(CalmAll(s, work).made[i].id, CalmAll(s, work).made[i].pair)
    decreases work
  {
    var u := CalmVisit(s, work[0]);
    CalmAllGrows(u, work[1..]);
    if x in u.cal {
      var i := |s.made|;
      assert u.made == s.made + [Made(s.next, work[0])];
      assert CalmAll(s, work).made[i] == u.made[i];
    } else {
      OnlyRemindersAdded(u, work[1..], x);
    }
  }

  // ---------- The fixpoint ----------

  /** Inserting anything into the calendar can only push events out of the first `n` visible ones. */
  lemma {:induction false} InsertPushesOut(cal: seq<Item>, x: Item, n: nat)
    ensures forall y :: y in Take(Visible(InsertSorted(cal, x)), n) ==> y == x || y in Take(Visible(cal), n)
  {
    hide InWindow;
    if cal == [] || x.start < cal[0].start {
      var a, b := Visible([x] + cal), Visible(cal);
      assert ([x] + cal)[1..] == cal;
      if a != b {
        assert a == [x] + b;
        FirstPushesOut(x, b, n);
      }
    } else {
      var rest := InsertSorted(cal[1..], x);
      assert InsertSorted(cal, x) == [cal[0]] + rest && ([cal[0]] + rest)[1..] == rest;
      if InWindow(cal[0], LISTING_MIN, LISTING_MAX) {
        if n > 0 {
          InsertPushesOut(cal[1..], x, n - 1);
          TakeCons(cal[0], Visible(rest), n);
          TakeCons(cal[0], Visible(cal[1..]), n);
        }
      } else {
        InsertPushesOut(cal[1..], x, n);
      }
    }
  }

  lemma FirstPushesOut<T>(x: T, xs: seq<T>, n: nat)
    ensures forall y :: y in Take([x] + xs, n) ==> y == x || y in Take(xs, n)
  {
    forall y | y in Take([x] + xs, n) ensures y == x || y in Take(xs, n) {
      var i :| 0 <= i < |[x] + xs| && i < n && ([x] + xs)[i] == y;
      if i > 0 {
        assert Take(xs, n)[i - 1] == y;
      }
    }
  }

  lemma TakeCons<T>(x: T, xs: seq<T>, n: nat)
    requires n > 0
    ensures Take([x] + xs, n) == [x] + Take(xs, n - 1)
  {
  }

  lemma {:induction false} ListingOnlyLoses(s: State, work: seq<Pair>, y: Item)
    requires y in Listing(CalmAll(s, work).cal) && !IsReminder(y)
    ensures y in Listing(s.cal)
    decreases work
  {
    if work != [] {
      var u := CalmVisit(s, work[0]);
      ListingOnlyLoses(u, work[1..], y);
      VisitInsertsReminder(s, work[0]);
      if u.cal != s.cal {
        InsertPushesOut(s.cal, ReminderItem(s.next, work[0]), LISTING_SIZE);
      }
    }
  }

  lemma VisitInsertsReminder(s: State, p: Pair)
    ensures CalmVisit(s, p).cal == s.cal || CalmVisit(s, p).cal == InsertSorted(s.cal, ReminderItem(s.next, p))
    ensures IsReminder(ReminderItem(s.next, p))
  {
    ReminderCarriesPrefix(s.next, p);
  }

  /** A cycle over pairs that are all covered, or never act, adds skipped rows and nothing else. */
  lemma {:induction false} CoveredWorkIsIdle(s: State, work: seq<Pair>)
    requires forall p :: p in work ==> Fires(p) && Ready(p) ==> Covered(s, p)
    ensures var t := CalmAll(s, work);
            t == s.(log := t.log) && s.log <= t.log
            && forall i :: |s.log| <= i < |t.log| ==> t.log[i].status == Skipped
    decreases work
  {
    if work != [] {
      var u := CalmVisit(s, work[0]);
      forall p | p in work[1..] && Fires(p) && Ready(p) ensures Covered(u, p) {
        CoveredGrows(s, u, p);
      }
      CoveredWorkIsIdle(u, work[1..]);
    }
  }

  /** Right after a cycle in which all went well, another one inserts nothing and only logs skips, even though
      the listing stops at 2500 events. */
  lemma SecondCycleIdle(s: State)
    ensures var t := CalmCycle(s);
            var u := CalmCycle(t);
            u == t.(log := u.log) && t.log <= u.log
            && forall i :: |t.log| <= i < |u.log| ==> u.log[i].status == Skipped
  {
    var t := CalmCycle(s);
    CalmAllGrows(s, Worklist(Listing(s.cal), s.rules));
    var work := Worklist(Listing(t.cal), t.rules);
    forall p | p in work && Fires(p) && Ready(p) ensures Covered(t, p) {
      ListingOnlyLoses(s, Worklist(Listing(s.cal), s.rules), p.item);
      CoveredAfterwards(s, p.item, p.rule);
      assert p == Pair(p.item, p.rule);
    }
    CoveredWorkIsIdle(t, work);
  }
}
