/** How often one event and rule can lead to an insertion: once, exactly when one of the two guards, the log or the
    existence check, can be relied on. */
module ReminderOnce {
  import opened Wrappers
  import opened ReminderModel
  import opened ReminderSeparation
  import opened ReminderWitness

  predicate Is(p: Pair, rule: RuleId, event: EventId) {
    p.rule.id == rule && p.item.id == event
  }

  /** How many insertions were made for a rule and an event. */
  function Times(made: seq<Made>, rule: RuleId, event: EventId): nat {
    if made == [] then 0
    else Times(made[..|made| - 1], rule, event) + if Is(made[|made| - 1].pair, rule, event) then 1 else 0
  }

  lemma TimesSnoc(made: seq<Made>, m: Made, rule: RuleId, event: EventId)
    ensures Times(made + [m], rule, event) == Times(made, rule, event) + if Is(m.pair, rule, event) then 1 else 0
  {
    assert (made + [m])[..|made|] == made;
  }

  lemma {:induction false} TimesNone(made: seq<Made>, rule: RuleId, event: EventId)
    requires forall m :: m in made ==> !Is(m.pair, rule, event)
    ensures Times(made, rule, event) == 0
  {
    if made != [] {
      TimesNone(made[..|made| - 1], rule, event);
    }
  }

  // ---------- No pair twice in one cycle ----------

  ghost predicate DistinctWork(work: seq<Pair>) {
    forall i, j :: 0 <= i < j < |work| ==> !Is(work[i], work[j].rule.id, work[j].item.id)
  }

  lemma ConsDistinct(x: Item, rest: seq<Item>)
    requires DistinctItems(rest) && forall y :: y in rest ==> y.id != x.id
    ensures DistinctItems([x] + rest)
  {
  }

  lemma {:induction false} InsertSortedDistinct(cal: seq<Item>, x: Item)
    requires DistinctItems(cal) && forall y :: y in cal ==> y.id != x.id
    ensures DistinctItems(InsertSorted(cal, x))
  {
    if cal == [] {
    } else if x.start < cal[0].start {
      ConsDistinct(x, cal);
    } else {
      InsertSortedDistinct(cal[1..], x);
      ConsDistinct(cal[0], InsertSorted(cal[1..], x));
    }
  }

  lemma {:induction false} WithoutDistinct(cal: seq<Item>, id: EventId)
    requires DistinctItems(cal)
    ensures DistinctItems(Without(cal, id))
  {
    if cal != [] {
      WithoutDistinct(cal[1..], id);
      ConsDistinct(cal[0], Without(cal[1..], id));
    }
  }

  lemma {:induction false} VisibleDistinct(cal: seq<Item>)
    requires DistinctItems(cal)
    ensures DistinctItems(Visible(cal))
  {
    if cal != [] {
      VisibleDistinct(cal[1..]);
      ConsDistinct(cal[0], Visible(cal[1..]));
    }
  }

  lemma {:induction false} PairsOfDistinct(item: Item, rules: seq<Rule>)
    requires DistinctRules(rules)
    ensures DistinctWork(PairsOf(item, rules))
  {
    if rules != [] {
      PairsOfDistinct(item, rules[1..]);
      var r := PairsOf(item, rules[1..]);
      assert forall p :: p in r ==> p.rule in rules[1..];
    }
  }

  lemma {:induction false} WorklistDistinct(items: seq<Item>, rules: seq<Rule>)
    requires DistinctItems(items) && DistinctRules(rules)
    ensures DistinctWork(Worklist(items, rules))
  {
    if items != [] {
      WorklistDistinct(items[1..], rules);
      var rest := Worklist(items[1..], rules);
      assert forall p :: p in rest ==> p.item in items[1..];
      if !IsReminder(items[0]) {
        PairsOfDistinct(items[0], rules);
        var first := PairsOf(items[0], rules);
        forall i, j | 0 <= i < |first| && 0 <= j < |rest|
          ensures !Is(first[i], rest[j].rule.id, rest[j].item.id)
        {
          assert first[i] in first && rest[j] in rest;
        }
      }
    }
  }

  lemma RestDistinct(cur: Pair, rest: seq<Pair>)
    requires DistinctWork([cur] + rest)
    ensures DistinctWork(rest)
    ensures forall q :: q in rest ==> !Is(cur, q.rule.id, q.item.id)
  {
    var work := [cur] + rest;
    forall i | 0 <= i < |rest| ensures rest[i] == work[i + 1] && !Is(cur, rest[i].rule.id, rest[i].item.id) {
      assert work[0] == cur;
    }
    forall i, j | 0 <= i < j < |rest| ensures !Is(rest[i], rest[j].rule.id, rest[j].item.id) {
      assert rest[i] == work[i + 1] && rest[j] == work[j + 1];
    }
  }

  /** Settling keeps a suffix of the work. */
  lemma SettleSuffix(work: seq<Pair>) returns (k: nat)
    ensures k <= |work|
    ensures Settle(work) == if k == |work| then Idle else Visit(CheckLog, work[k], work[k + 1..])
  {
    if work == [] {
      k := 0;
    } else if Fires(work[0]) {
      k := 0;
    } else {
      k := SettleSuffix(work[1..]);
      k := k + 1;
    }
  }

  // ---------- The invariant ----------

  /** `strict`: rules are not deleted while the running cycle holds them. */
  ghost predicate Tables(s: State) {
    && DistinctItems(s.cal) && DistinctRules(s.rules)
    && (forall x :: x in s.cal ==> x.id < s.next)
    && (forall r :: r in s.rules ==> r.id < s.nextRule)
    && (forall m :: m in s.made ==> m.pair.rule.id < s.nextRule)
  }

  ghost predicate Awaiting(pc: Pc, rule: RuleId, event: EventId) {
    pc.Visit? && pc.stage.Logging? && pc.stage.status == Success && Is(pc.cur, rule, event)
  }

  ghost predicate Counted(s: State, strict: bool) {
    forall rule, event ::
      && Times(s.made, rule, event) <= (if strict then 1 else 2)
      && (RuleExists(s.rules, rule) ==>
            && Times(s.made, rule, event) <= 1
            && (Times(s.made, rule, event) == 1 ==> HasLog(s.log, rule, event) || Awaiting(s.pc, rule, event)))
  }

  ghost predicate CycleOk(s: State, strict: bool) {
    match s.pc
    case Idle => true
    case Fetched(rules) =>
      && DistinctRules(rules)
      && (forall r :: r in rules ==> r.id < s.nextRule && (strict ==> RuleExists(s.rules, r.id)))
      && (forall r, event :: r in rules ==> Times(s.made, r.id, event) <= 1)
    case Visit(stage, cur, rest) =>
      && DistinctWork([cur] + rest)
      && (forall p :: p in [cur] + rest ==> p.rule.id < s.nextRule && (strict ==> RuleExists(s.rules, p.rule.id)))
      && (forall p :: p in rest ==> Times(s.made, p.rule.id, p.item.id) <= 1)
      && (!stage.Logging? ==> Times(s.made, cur.rule.id, cur.item.id) <= 1)
      && (stage in {CheckExists, Inserting} && RuleExists(s.rules, cur.rule.id) ==>
            Times(s.made, cur.rule.id, cur.item.id) == 0)
  }

  ghost predicate OnceInv(s: State, strict: bool) {
    Tables(s) && Counted(s, strict) && CycleOk(s, strict)
  }

  predicate LogsReliable(allowed: set<Fault>) {
    LogReadFails !in allowed && LogWriteFails !in allowed && InsertLost !in allowed
  }

  predicate Strict(allowed: set<Fault>) {
    !(UsersAct in allowed && RulesDeletedInFlight in allowed)
  }

  /** Going on with a suffix of the work. */
  lemma SettleKeeps(s: State, work: seq<Pair>, strict: bool)
    requires DistinctWork(work)
    requires forall p :: p in work ==> p.rule.id < s.nextRule && (strict ==> RuleExists(s.rules, p.rule.id))
    requires forall p :: p in work ==> Times(s.made, p.rule.id, p.item.id) <= 1
    ensures CycleOk(s.(pc := Settle(work)), strict)
  {
    var k := SettleSuffix(work);
    if k < |work| {
      assert [work[k]] + work[k + 1..] == work[k..];
    }
  }

  lemma OnceAtListing(s: State, luck: Luck, strict: bool)
    requires OnceInv(s, strict) && s.pc.Fetched?
    ensures OnceInv(WorkerStep(s, luck), strict)
  {
    if luck.Good? {
      var items, rules := Listing(s.cal), s.pc.rules;
      VisibleDistinct(s.cal);
      WorklistDistinct(items, rules);
      SettleKeeps(s, Worklist(items, rules), strict);
    }
  }

  lemma OnceAtCheck(s: State, luck: Luck, strict: bool)
    requires OnceInv(s, strict) && s.pc.Visit? && s.pc.stage in {CheckLog, CheckExists}
    requires s.pc.stage == CheckLog ==> luck.Good?
    ensures OnceInv(WorkerStep(s, luck), strict)
  {
    RestDistinct(s.pc.cur, s.pc.rest);
    SettleKeeps(s, s.pc.rest, strict);
  }

  /** The reminder of the current pair is in the calendar; the log row is to follow. */
  function Inserted(s: State): State
    requires s.pc.Visit?
  {
    AddReminder(s, s.pc.cur).(pc := Visit(Logging(Success, Some(s.next)), s.pc.cur, s.pc.rest))
  }

  lemma OnceInserted(s: State, strict: bool)
    requires OnceInv(s, strict) && s.pc.Visit? && s.pc.stage == Inserting
    ensures OnceInv(Inserted(s), strict)
  {
    hide Times, RuleExists, HasLog, SlotOf;
    var t, p := Inserted(s), s.pc.cur;
    forall rule, event
      ensures Times(t.made, rule, event) == Times(s.made, rule, event) + if Is(p, rule, event) then 1 else 0
    {
      TimesSnoc(s.made, Made(s.next, p), rule, event);
    }
    InsertSortedDistinct(s.cal, ReminderItem(s.next, p));
    assert Tables(t);
    assert Counted(t, strict);
    RestDistinct(p, s.pc.rest);
    assert CycleOk(t, strict);
  }

  lemma OnceAtInsert(s: State, luck: Luck, strict: bool)
    requires OnceInv(s, strict) && s.pc.Visit? && s.pc.stage == Inserting && !luck.Lost?
    ensures OnceInv(WorkerStep(s, luck), strict)
  {
    if luck.Good? {
      hide OnceInv;
      OnceInserted(s, strict);
      assert WorkerStep(s, luck) == Inserted(s);
    } else {
      hide Times, RuleExists, HasLog;
      assert WorkerStep(s, luck) == s.(pc := Visit(Logging(Failure, None), s.pc.cur, s.pc.rest));
    }
  }

  lemma OnceAtWrite(s: State, luck: Luck, strict: bool)
    requires OnceInv(s, strict) && s.pc.Visit? && s.pc.stage.Logging? && !luck.Bad?
    ensures OnceInv(WorkerStep(s, luck), strict)
  {
    var t, p := WorkerStep(s, luck), s.pc.cur;
    RestDistinct(p, s.pc.rest);
    SettleKeeps(t, s.pc.rest, strict);
    forall rule: RuleId, event: EventId | RuleExists(s.rules, rule)
      ensures HasLog(s.log, rule, event) || Awaiting(s.pc, rule, event) ==> HasLog(t.log, rule, event)
    {
      if Awaiting(s.pc, rule, event) {
        var row := LogRow(Some(rule), Success, event, s.pc.stage.created);
        assert row in t.log;
      } else if HasLog(s.log, rule, event) {
        var row :| row in s.log && row.rule == Some(rule) && row.status == Success && row.event == event;
        assert row in t.log;
      }
    }
  }

  /** Deleting a rule makes its success rows, and no others, count for nothing. */
  lemma DeletionUnlogs(log: seq<LogRow>, id: RuleId, rule: RuleId, event: EventId)
    ensures HasLog(ForgetRule(log, id), rule, event) <==> rule != id && HasLog(log, rule, event)
  {
    var after := ForgetRule(log, id);
    if rule != id && HasLog(log, rule, event) {
      var i :| 0 <= i < |log| && log[i].rule == Some(rule) && log[i].status == Success && log[i].event == event;
      assert after[i] == log[i];
    }
    if HasLog(after, rule, event) {
      var i :| 0 <= i < |after| && after[i].rule == Some(rule) && after[i].status == Success && after[i].event == event;
      assert log[i] == after[i];
    }
  }

  /** Moving events about does not matter, as long as ids stay distinct. */
  lemma OnceUnderCalendarEdit(s: State, cal: seq<Item>, next: EventId, strict: bool)
    requires OnceInv(s, strict) && DistinctItems(cal)
    requires next >= s.next && forall x :: x in cal ==> x.id < next
    ensures OnceInv(s.(cal := cal, next := next), strict)
  {
    hide Times, RuleExists, HasLog, DistinctItems, DistinctRules, DistinctWork, Awaiting;
  }

  /** Nor does changing rules, as long as they stay the same rules by id. */
  lemma OnceUnderRuleEdit(s: State, rules: seq<Rule>, strict: bool)
    requires OnceInv(s, strict) && DistinctRules(rules)
    requires forall id :: RuleExists(rules, id) <==> RuleExists(s.rules, id)
    ensures OnceInv(s.(rules := rules), strict)
  {
    hide Times, HasLog, DistinctItems, DistinctRules, DistinctWork, Awaiting;
    forall r | r in rules ensures r.id < s.nextRule {
      assert RuleExists(s.rules, r.id);
    }
    hide RuleExists;
  }

  lemma OnceUnderAddRule(s: State, rule: Rule, strict: bool)
    requires OnceInv(s, strict)
    ensures OnceInv(Apply(s, AddRule(rule)), strict)
  {
    var t := Apply(s, AddRule(rule));
    forall event {
      TimesNone(s.made, s.nextRule, event);
    }
    assert forall id :: RuleExists(t.rules, id) <==> id == s.nextRule || RuleExists(s.rules, id);
    assert DistinctRules(t.rules);
    hide Times, HasLog, RuleExists, DistinctItems, DistinctRules, DistinctWork, Awaiting;
  }

  lemma OnceUnderDeleteRule(s: State, id: RuleId, strict: bool)
    requires OnceInv(s, strict) && (strict ==> !InFlight(s.pc, id))
    ensures OnceInv(Apply(s, DeleteRule(id)), strict)
  {
    var t := Apply(s, DeleteRule(id));
    DropRuleDistinct(s.rules, id);
    forall rule, event ensures HasLog(t.log, rule, event) <==> rule != id && HasLog(s.log, rule, event) {
      DeletionUnlogs(s.log, id, rule, event);
    }
    assert forall other :: RuleExists(t.rules, other) <==> other != id && RuleExists(s.rules, other);
    if strict {
      assert s.pc.Visit? ==> s.pc.cur.rule.id != id && forall p :: p in s.pc.rest ==> p.rule.id != id;
      assert s.pc.Fetched? ==> forall r :: r in s.pc.rules ==> r.id != id;
    }
    hide Times, HasLog, RuleExists, DistinctItems, DistinctRules, DistinctWork, Awaiting, InFlight, ForgetRule;
  }

  lemma OnceUnderUsers(s: State, act: UserAct, strict: bool)
    requires OnceInv(s, strict)
    requires strict && act.DeleteRule? ==> !InFlight(s.pc, act.ruleId)
    ensures OnceInv(Apply(s, act), strict)
  {
    hide Counted, CycleOk, Times;
    var t := Apply(s, act);
    match act
    case AddEvent(item) =>
      InsertSortedDistinct(s.cal, item.(id := s.next));
      OnceUnderCalendarEdit(s, t.cal, t.next, strict);
    case EditEvent(id, item) =>
      WithoutDistinct(s.cal, id);
      if HasId(s.cal, id) {
        InsertSortedDistinct(Without(s.cal, id), item.(id := id));
        OnceUnderCalendarEdit(s, t.cal, t.next, strict);
      }
    case DeleteEvent(id) =>
      WithoutDistinct(s.cal, id);
      OnceUnderCalendarEdit(s, t.cal, t.next, strict);
    case AddRule(rule) =>
      OnceUnderAddRule(s, rule, strict);
    case UpdateRule(_, _, _, _) =>
      SameRuleIds(s.rules, t.rules);
      OnceUnderRuleEdit(s, t.rules, strict);
    case ToggleRule(_) =>
      SameRuleIds(s.rules, t.rules);
      OnceUnderRuleEdit(s, t.rules, strict);
    case DeleteRule(id) =>
      OnceUnderDeleteRule(s, id, strict);
  }

  lemma SameRuleIds(a: seq<Rule>, b: seq<Rule>)
    requires |a| == |b| && forall i :: 0 <= i < |a| ==> b[i].id == a[i].id
    requires DistinctRules(a)
    ensures DistinctRules(b)
    ensures forall id :: RuleExists(a, id) <==> RuleExists(b, id)
  {
    forall id | RuleExists(a, id) || RuleExists(b, id) ensures RuleExists(a, id) && RuleExists(b, id) {
      var i :| 0 <= i < |a| && (a[i].id == id || b[i].id == id);
      assert a[i] in a && b[i] in b;
    }
  }

  lemma {:induction false} DropRuleDistinct(rules: seq<Rule>, id: RuleId)
    requires DistinctRules(rules)
    ensures DistinctRules(DropRule(rules, id))
  {
    if rules != [] {
      DropRuleDistinct(rules[1..], id);
      assert forall r :: r in DropRule(rules[1..], id) ==> r in rules[1..];
    }
  }

  lemma OnceStep(allowed: set<Fault>, s: State, move: Move)
    requires LogsReliable(allowed) && OnceInv(s, Strict(allowed)) && Permits(allowed, s, move)
    ensures OnceInv(Do(s, move), Strict(allowed))
  {
    match move
    case Work(luck) =>
      match s.pc {
        case Idle =>
        case Fetched(_) => OnceAtListing(s, luck, Strict(allowed));
        case Visit(stage, _, _) =>
          match stage {
            case CheckLog => OnceAtCheck(s, luck, Strict(allowed));
            case CheckExists => OnceAtCheck(s, luck, Strict(allowed));
            case Inserting => OnceAtInsert(s, luck, Strict(allowed));
            case Logging(_, _) => OnceAtWrite(s, luck, Strict(allowed));
          }
      }
    case User(act) => OnceUnderUsers(s, act, Strict(allowed));
  }

  lemma {:induction false} OnceRun(allowed: set<Fault>, s: State, run: seq<Move>)
    requires Initial(s) && LogsReliable(allowed) && Legal(allowed, s, run)
    ensures OnceInv(Exec(s, run), Strict(allowed))
  {
    if run != [] {
      var before := run[..|run| - 1];
      OnceRun(allowed, s, before);
      OnceStep(allowed, Exec(s, before), run[|run| - 1]);
    }
  }

  // ---------- Results ----------

  /** With a reliable log, and whatever users do to events, reminders and rules: a rule that still exists has
      led to at most one insertion per event, and a deleted one to at most two. */
  lemma AtMostTwice(allowed: set<Fault>, s0: State, t: State, rule: RuleId, event: EventId)
    requires Initial(s0) && LogsReliable(allowed) && Reaches(allowed, s0, t)
    ensures Times(t.made, rule, event) <= 2
    ensures RuleExists(t.rules, rule) ==> Times(t.made, rule, event) <= 1
  {
    var run :| Legal(allowed, s0, run) && Exec(s0, run) == t;
    OnceRun(allowed, s0, run);
  }

  lemma OnceReached(allowed: set<Fault>, s0: State, t: State, rule: RuleId, event: EventId)
    requires Initial(s0) && LogsReliable(allowed) && Strict(allowed) && Reaches(allowed, s0, t)
    ensures Times(t.made, rule, event) <= 1
  {
    var run :| Legal(allowed, s0, run) && Exec(s0, run) == t;
    OnceRun(allowed, s0, run);
  }

  lemma TimesTwo(a: Made, b: Made)
    requires Is(b.pair, a.pair.rule.id, a.pair.item.id)
    ensures Times([a, b], a.pair.rule.id, a.pair.item.id) == 2
  {
    assert [a, b] == [] + [a] + [b];
    TimesSnoc([], a, a.pair.rule.id, a.pair.item.id);
    TimesSnoc([] + [a], b, a.pair.rule.id, a.pair.item.id);
  }

  lemma {:induction false} TimesAtMostOne(made: seq<Made>, rule: RuleId, event: EventId)
    requires forall i, j :: 0 <= i < j < |made| ==> !Is(made[j].pair, made[i].pair.rule.id, made[i].pair.item.id)
    ensures Times(made, rule, event) <= 1
  {
    if made != [] {
      var before := made[..|made| - 1];
      if Is(made[|made| - 1].pair, rule, event) {
        forall m | m in before ensures !Is(m.pair, rule, event) {
          var i :| 0 <= i < |before| && before[i] == m;
          assert made[i] == m;
        }
        TimesNone(before, rule, event);
      } else {
        TimesAtMostOne(before, rule, event);
      }
    }
  }

  lemma OnceWithoutUsers(allowed: set<Fault>, s0: State, t: State, rule: RuleId, event: EventId)
    requires Starts(allowed, s0) && Reaches(allowed, s0, t)
    requires UsersAct !in allowed && ExistsReadFails !in allowed && OddDurations !in allowed
    ensures Times(t.made, rule, event) <= 1
  {
    hide Starts, Reaches;
    forall i, j | 0 <= i < j < |t.made| ensures !Is(t.made[j].pair, t.made[i].pair.rule.id, t.made[i].pair.item.id) {
      NoRepeatWithoutUsers(allowed, s0, t, i, j);
    }
    TimesAtMostOne(t.made, rule, event);
  }

  /** Either guard suffices. The log does when its calls do not fail, no insertion takes effect while reporting an
      error, and users do not delete a rule that the running cycle still holds. The existence check does when it
      does not fail, users do nothing, and reminders do not end before they start. */
  predicate OneGuardHolds(allowed: set<Fault>) {
    || (LogsReliable(allowed) && Strict(allowed))
    || (UsersAct !in allowed && ExistsReadFails !in allowed && OddDurations !in allowed)
  }

  lemma OnceUnderGuard(allowed: set<Fault>, s0: State, t: State, rule: RuleId, event: EventId)
    requires OneGuardHolds(allowed) && Starts(allowed, s0) && Reaches(allowed, s0, t)
    ensures Times(t.made, rule, event) <= 1
  {
    hide Times, Reaches, Initial;
    if LogsReliable(allowed) && Strict(allowed) {
      OnceReached(allowed, s0, t, rule, event);
    } else {
      OnceWithoutUsers(allowed, s0, t, rule, event);
    }
  }

  /** At most one insertion per rule and event, in every run from every start: exactly when one of the two guards can be
      relied on. */
  lemma AtMostOnceExactly(allowed: set<Fault>)
    ensures OneGuardHolds(allowed) <==>
            forall s0, t, rule, event :: Starts(allowed, s0) && Reaches(allowed, s0, t) ==>
                Times(t.made, rule, event) <= 1
  {
    hide Times, Starts, Reaches, InsertedTwice;
    if OneGuardHolds(allowed) {
      forall s0, t, rule, event | Starts(allowed, s0) && Reaches(allowed, s0, t)
        ensures Times(t.made, rule, event) <= 1
      {
        OnceUnderGuard(allowed, s0, t, rule, event);
      }
    } else {
      var s0, t := TwoInsertsOfOnePair(allowed);
      var rule, event := CountedTwice(s0, t);
      assert Times(t.made, rule, event) == 2;
    }
  }

  lemma CountedTwice(s0: State, t: State) returns (rule: RuleId, event: EventId)
    requires InsertedTwice(s0, t)
    ensures Times(t.made, rule, event) == 2
  {
    rule, event := t.made[0].pair.rule.id, t.made[0].pair.item.id;
    TimesTwo(t.made[0], t.made[1]);
    assert t.made == [t.made[0], t.made[1]];
  }
}
