/** What insertions and log rows mean, over whole runs: every insertion answers to an active rule that asked for it, and
    every row tells what happened. */
module ReminderSound {
  import opened Text
  import opened Wrappers
  import opened ReminderModel
  import opened ReminderCycle
  import opened ReminderOnce
  import opened ReminderBound

  // ---------- The listing ----------

  ghost predicate Sorted(cal: seq<Item>) {
    forall i, j :: 0 <= i < j < |cal| ==> cal[i].start <= cal[j].start
  }

  lemma {:induction false} InsertStaysSorted(cal: seq<Item>, x: Item)
    requires Sorted(cal)
    ensures Sorted(InsertSorted(cal, x))
  {
    if cal != [] && cal[0].start <= x.start {
      var rest := InsertSorted(cal[1..], x);
      InsertStaysSorted(cal[1..], x);
      forall y | y in rest ensures cal[0].start <= y.start {
      }
    } else {
      forall y | y in cal ensures x.start <= y.start {
      }
    }
  }

  lemma {:induction false} WithoutStaysSorted(cal: seq<Item>, id: EventId)
    requires Sorted(cal)
    ensures Sorted(Without(cal, id))
  {
    if cal != [] {
      WithoutStaysSorted(cal[1..], id);
      forall y | y in Without(cal[1..], id) ensures cal[0].start <= y.start {
      }
    }
  }

  /** The calendar stays in order of start time over every run. */
  lemma {:induction false} CalendarStaysSorted(s0: State, run: seq<Move>)
    requires Sorted(s0.cal)
    ensures Sorted(Exec(s0, run).cal)
  {
    if run != [] {
      var s, last := Exec(s0, run[..|run| - 1]), run[|run| - 1];
      CalendarStaysSorted(s0, run[..|run| - 1]);
      match last
      case Work(luck) =>
        if s.pc.Visit? && s.pc.stage == Inserting {
          InsertStaysSorted(s.cal, ReminderItem(s.next, s.pc.cur));
        }
      case User(AddEvent(item)) => InsertStaysSorted(s.cal, item.(id := s.next));
      case User(EditEvent(id, item)) =>
        WithoutStaysSorted(s.cal, id);
        InsertStaysSorted(Without(s.cal, id), item.(id := id));
      case User(DeleteEvent(id)) => WithoutStaysSorted(s.cal, id);
      case User(_) =>
    }
  }

  lemma {:induction false} VisibleSorted(cal: seq<Item>)
    requires Sorted(cal)
    ensures Sorted(Visible(cal))
  {
    if cal != [] {
      VisibleSorted(cal[1..]);
      forall y | y in Visible(cal[1..]) ensures cal[0].start <= y.start {
      }
    }
  }

  /** The listing shows events between 1970 and 2100 only, and all of them unless there are more than 2500; then it
      shows 2500, none of which starts later than one left out. */
  lemma ListingShows(cal: seq<Item>)
    ensures |Listing(cal)| <= 2500
    ensures forall x :: x in Listing(cal) ==> x in cal && x.end > 0 && x.start < 4_102_444_800
    ensures |Listing(cal)| == 2500 || forall x :: x in cal && x.end > 0 && x.start < 4_102_444_800 ==> x in Listing(cal)
    ensures Sorted(cal) ==> Sorted(Listing(cal))
    ensures Sorted(cal) ==>
              forall x, y ::
                x in Listing(cal) && y in cal && y.end > 0 && y.start < 4_102_444_800 && y !in Listing(cal) ==>
                  x.start <= y.start
  {
    var all := Visible(cal);
    assert forall x :: x in Listing(cal) ==> x in all;
    if Sorted(cal) {
      VisibleSorted(cal);
      TakeSorted(all, 2500);
    }
  }

  lemma TakeSorted(all: seq<Item>, n: nat)
    requires Sorted(all)
    ensures Sorted(Take(all, n))
    ensures forall x, y :: x in Take(all, n) && y in all && y !in Take(all, n) ==> x.start <= y.start
  {
    forall x, y | x in Take(all, n) && y in all && y !in Take(all, n) ensures x.start <= y.start {
      var i :| 0 <= i < |Take(all, n)| && Take(all, n)[i] == x;
      var j :| 0 <= j < |all| && all[j] == y;
      assert forall k :: 0 <= k < |Take(all, n)| ==> all[k] == Take(all, n)[k] && all[k] in Take(all, n);
    }
  }

  lemma {:induction false} WorklistAppend(a: seq<Item>, b: seq<Item>, rules: seq<Rule>)
    ensures Worklist(a + b, rules) == Worklist(a, rules) + Worklist(b, rules)
  {
    if a == [] {
      assert a + b == b;
    } else {
      hide IsReminder, PairsOf;
      assert (a + b)[1..] == a[1..] + b;
      WorklistAppend(a[1..], b, rules);
    }
  }

  lemma WorklistOfOne(item: Item, rules: seq<Rule>)
    ensures Worklist([item], rules) ==
            if "Automatische reminder voor:" <= item.description then [] else PairsOf(item, rules)
  {
    var mine := if IsReminder(item) then [] else PairsOf(item, rules);
    assert [item][1..] == [] && mine + [] == mine;
  }

  /** A cycle visits the listed events one after the other, each with the rules in their order; reminders are passed
      over. The event is the one between `before` and `after`. */
  lemma VisitsInOrder(before: seq<Item>, item: Item, after: seq<Item>, rules: seq<Rule>)
    ensures var mine := if "Automatische reminder voor:" <= item.description then [] else PairsOf(item, rules);
            Worklist(before + [item] + after, rules) == Worklist(before, rules) + mine + Worklist(after, rules)
    ensures |PairsOf(item, rules)| == |rules|
    ensures forall j :: 0 <= j < |rules| ==> PairsOf(item, rules)[j] == Pair(item, rules[j])
  {
    PairsInOrder(item, rules);
    WorklistOfOne(item, rules);
    hide Worklist, PairsOf;
    WorklistAppend(before, [item], rules);
    WorklistAppend(before + [item], after, rules);
  }

  lemma {:induction false} PairsInOrder(item: Item, rules: seq<Rule>)
    ensures |PairsOf(item, rules)| == |rules|
    ensures forall j :: 0 <= j < |rules| ==> PairsOf(item, rules)[j] == Pair(item, rules[j])
  {
    if rules != [] {
      PairsInOrder(item, rules[1..]);
    }
  }

  // ---------- Insertions ----------

  ghost predicate AskedFor(p: Pair) {
    Fires(p) && Ready(p) && !IsReminder(p.item)
  }

  ghost predicate Asked(s: State) {
    && (forall m :: m in s.made ==> AskedFor(m.pair))
    && (s.pc.Visit? ==>
          && Fires(s.pc.cur) && !IsReminder(s.pc.cur.item) && (s.pc.stage != CheckLog ==> Ready(s.pc.cur))
          && forall p :: p in s.pc.rest ==> !IsReminder(p.item))
  }

  lemma {:induction false} SettleAsks(work: seq<Pair>)
    requires forall p :: p in work ==> !IsReminder(p.item)
    ensures !Settle(work).Fetched?
    ensures Settle(work).Visit? ==>
              && Fires(Settle(work).cur) && !IsReminder(Settle(work).cur.item) && Settle(work).stage == CheckLog
              && forall p :: p in Settle(work).rest ==> !IsReminder(p.item)
  {
    if work != [] && !Fires(work[0]) {
      SettleAsks(work[1..]);
    }
  }

  lemma AskedStep(s: State, move: Move)
    requires Asked(s)
    ensures Asked(Do(s, move))
  {
    hide Fires, Ready, IsReminder, SlotOf;
    match move
    case Work(luck) =>
      match s.pc {
        case Idle =>
        case Fetched(rules) =>
          forall p | p in Worklist(Listing(s.cal), rules) ensures !IsReminder(p.item) {
          }
          SettleAsks(Worklist(Listing(s.cal), rules));
        case Visit(_, p, rest) => SettleAsks(rest);
      }
    case User(act) =>
  }

  lemma {:induction false} AskedRun(s0: State, run: seq<Move>)
    requires Initial(s0)
    ensures Asked(Exec(s0, run))
  {
    if run != [] {
      AskedRun(s0, run[..|run| - 1]);
      AskedStep(Exec(s0, run[..|run| - 1]), run[|run| - 1]);
    }
  }

  /** Over every run, whatever fails and whatever users do: an insertion is for an event that is no reminder and has
      a start time, and for a rule as it was when the cycle read it: active, its parameters decoding, naming a
      title, its title and location conditions met. */
  lemma InsertionsWereAskedFor(allowed: set<Fault>, s0: State, t: State, m: Made)
    requires Initial(s0) && Reaches(allowed, s0, t) && m in t.made
    ensures var Pair(item, rule) := m.pair;
            && !("Automatische reminder voor:" <= item.description) && item.startTime.Some?
            && rule.active && rule.trigger.Some? && rule.action.Some? && rule.action.value.newEventTitle != ""
            && ((rule.trigger.value.summaryEquals != "" && item.summary == rule.trigger.value.summaryEquals)
                || exists part | part in rule.trigger.value.summaryContains :: Contains(item.summary, part))
            && (rule.trigger.value.locationContains == []
                || exists part | part in rule.trigger.value.locationContains ::
                     Contains(ToLower(item.location), ToLower(part)))
  {
    hide Contains, ToLower;
    var run :| Legal(allowed, s0, run) && Exec(s0, run) == t;
    AskedRun(s0, run);
    assert AskedFor(m.pair);
  }

  // ---------- Inactive rules ----------

  function OnlyActive(rules: seq<Rule>): (r: seq<Rule>)
    ensures forall x :: x in r <==> x in rules && x.active
  {
    if rules == [] then [] else (if rules[0].active then [rules[0]] else []) + OnlyActive(rules[1..])
  }

  function ActivePairs(work: seq<Pair>): (r: seq<Pair>)
    ensures forall p :: p in r <==> p in work && p.rule.active
  {
    if work == [] then [] else (if work[0].rule.active then [work[0]] else []) + ActivePairs(work[1..])
  }

  lemma {:induction false} ActivePairsAppend(a: seq<Pair>, b: seq<Pair>)
    ensures ActivePairs(a + b) == ActivePairs(a) + ActivePairs(b)
  {
    if a == [] {
      assert a + b == b;
    } else {
      assert (a + b)[1..] == a[1..] + b;
      ActivePairsAppend(a[1..], b);
    }
  }

  lemma {:induction false} ActivePairsOf(item: Item, rules: seq<Rule>)
    ensures PairsOf(item, OnlyActive(rules)) == ActivePairs(PairsOf(item, rules))
  {
    if rules != [] {
      ActivePairsOf(item, rules[1..]);
      var rest := OnlyActive(rules[1..]);
      assert PairsOf(item, rules)[1..] == PairsOf(item, rules[1..]);
      assert ([rules[0]] + rest)[1..] == rest && [] + rest == rest;
      assert [] + ActivePairs(PairsOf(item, rules[1..])) == ActivePairs(PairsOf(item, rules[1..]));
    }
  }

  lemma {:induction false} ActiveWorklist(items: seq<Item>, rules: seq<Rule>)
    ensures Worklist(items, OnlyActive(rules)) == ActivePairs(Worklist(items, rules))
  {
    if items != [] {
      ActiveWorklist(items[1..], rules);
      ActivePairsOf(items[0], rules);
      var mine := if IsReminder(items[0]) then [] else PairsOf(items[0], rules);
      assert Worklist(items, rules) == mine + Worklist(items[1..], rules);
      ActivePairsAppend(mine, Worklist(items[1..], rules));
    }
  }

  lemma {:induction false} InactiveAreSkipped(s: State, work: seq<Pair>)
    ensures CalmAll(s, work) == CalmAll(s, ActivePairs(work))
    decreases work
  {
    if work != [] {
      var rest := ActivePairs(work[1..]);
      InactiveAreSkipped(CalmVisit(s, work[0]), work[1..]);
      assert ([work[0]] + rest)[1..] == rest && [] + rest == rest;
    }
  }

  /** Which other rules there are does not matter to a list of visits. */
  lemma {:induction false} OtherRulesDoNotMatter(s: State, rules: seq<Rule>, work: seq<Pair>)
    requires forall p :: p in work ==> p.rule in rules && p.rule in s.rules
    ensures CalmAll(s.(rules := rules), work) == CalmAll(s, work).(rules := rules)
    decreases work
  {
    if work != [] {
      VisitWithRules(s, rules, work[0]);
      OtherRulesDoNotMatter(CalmVisit(s, work[0]), rules, work[1..]);
    }
  }

  lemma VisitWithRules(s: State, rules: seq<Rule>, p: Pair)
    requires p.rule in rules && p.rule in s.rules
    ensures CalmVisit(s.(rules := rules), p) == CalmVisit(s, p).(rules := rules)
    ensures CalmVisit(s, p).rules == s.rules
  {
    hide SlotOf, Fires, Ready, HasLog, Clash;
  }

  /** A rule that is switched off is as good as not there: without all inactive rules a cycle leaves the same calendar,
      log and insertions. */
  lemma InactiveDoNotMatter(s: State)
    ensures CalmCycle(s.(rules := OnlyActive(s.rules))) == CalmCycle(s).(rules := OnlyActive(s.rules))
  {
    var active := OnlyActive(s.rules);
    ActiveWorklist(Listing(s.cal), s.rules);
    InactiveAreSkipped(s, Worklist(Listing(s.cal), s.rules));
    OtherRulesDoNotMatter(s, active, Worklist(Listing(s.cal), active));
  }

  // ---------- Changing rules ----------

  /** A new rule is active from the start, whatever was asked for: the next cycle deals with every listed event that
      meets its conditions. */
  lemma NewRuleActs(s: State, rule: Rule, item: Item)
    requires item in Listing(s.cal) && !("Automatische reminder voor:" <= item.description) && item.startTime.Some?
    requires rule.trigger.Some? && rule.action.Some? && rule.action.value.newEventTitle != ""
    requires (rule.trigger.value.summaryEquals != "" && item.summary == rule.trigger.value.summaryEquals)
             || exists part | part in rule.trigger.value.summaryContains :: Contains(item.summary, part)
    requires rule.trigger.value.locationContains == []
             || exists part | part in rule.trigger.value.locationContains ::
                  Contains(ToLower(item.location), ToLower(part))
    ensures var t, slot := CalmCycle(Apply(s, AddRule(rule))), SlotAt(item.startTime.value, rule.action.value);
            || (exists row | row in t.log ::
                  row.rule == Some(s.nextRule) && row.event == item.id && row.status == Success)
            || (exists x | x in t.cal ::
                  x.summary == rule.action.value.newEventTitle && x.end > slot.lo - 60 && x.start < slot.hi + 60)
  {
    hide SlotAt, CalmCycle, Listing, Contains, ToLower;
    CycleComplete(Apply(s, AddRule(rule)), item, rule.(id := s.nextRule, active := true));
  }

  /** Switching a rule over twice changes nothing; once, it changes the switch of that rule only; and an active rule so
      switched off makes no more insertions. */
  lemma SwitchedOff(s: State, id: RuleId, i: nat)
    requires forall r :: r in s.rules && r.id == id ==> r.active
    ensures var t := Apply(s, ToggleRule(id));
            && Apply(t, ToggleRule(id)) == s
            && t == s.(rules := t.rules)
            && (|s.made| <= i < |CalmCycle(t).made| ==> CalmCycle(t).made[i].pair.rule.id != id)
  {
    var t := Apply(s, ToggleRule(id));
    ToggleTwice(s.rules, id);
    if |s.made| <= i < |CalmCycle(t).made| {
      CycleSound(t, i);
      var rule := CalmCycle(t).made[i].pair.rule;
      if rule.id == id {
        ToggledRule(s.rules, id, rule);
      }
    }
  }

  lemma {:induction false} ToggleTwice(rules: seq<Rule>, id: RuleId)
    ensures ChangeRule(ChangeRule(rules, ToggleRule(id)), ToggleRule(id)) == rules
  {
    if rules != [] {
      var once := ChangeRule(rules, ToggleRule(id));
      assert once[1..] == ChangeRule(rules[1..], ToggleRule(id));
      ToggleTwice(rules[1..], id);
    }
  }

  lemma {:induction false} ToggledRule(rules: seq<Rule>, id: RuleId, rule: Rule)
    requires rule in ChangeRule(rules, ToggleRule(id))
    ensures rule.id == id ==> rule.(active := !rule.active) in rules
    ensures rule.id != id ==> rule in rules
  {
    var changed := ChangeRule(rules, ToggleRule(id));
    if rule != changed[0] {
      assert changed[1..] == ChangeRule(rules[1..], ToggleRule(id));
      ToggledRule(rules[1..], id, rule);
    }
  }

  /** An update gives the rule its new name and parameters, keeps its switch, and leaves the other rules alone. */
  lemma {:induction false} UpdateTakesHold(rules: seq<Rule>, id: RuleId, name: string, trigger: Option<Trigger>,
                                           action: Option<Action>, i: nat)
    requires i < |rules|
    ensures var r := ChangeRule(rules, UpdateRule(id, name, trigger, action))[i];
            && r.id == rules[i].id && r.active == rules[i].active
            && (r.id == id ==> r.name == name && r.trigger == trigger && r.action == action)
            && (r.id != id ==> r == rules[i])
  {
    if i > 0 {
      UpdateTakesHold(rules[1..], id, name, trigger, action, i - 1);
    }
  }

  // ---------- Log rows ----------

  ghost predicate TellsOf(made: seq<Made>, row: LogRow) {
    if row.status == Success then
      exists m :: m in made && row.created == Some(m.id) && m.pair.item.id == row.event &&
                  (row.rule.None? || row.rule == Some(m.pair.rule.id))
    else row.created.None?
  }

  ghost predicate Truthful(s: State) {
    && (forall row :: row in s.log ==> TellsOf(s.made, row))
    && (s.pc.Visit? && s.pc.stage.Logging? ==>
          TellsOf(s.made, LogRow(Some(s.pc.cur.rule.id), s.pc.stage.status, s.pc.cur.item.id, s.pc.stage.created)))
  }

  lemma StillTells(made: seq<Made>, more: seq<Made>, row: LogRow)
    requires TellsOf(made, row) && forall m :: m in made ==> m in more
    ensures TellsOf(more, row)
  {
  }

  lemma TruthfulStep(s: State, move: Move)
    requires Truthful(s)
    ensures Truthful(Do(s, move))
  {
    hide Fires, Ready, SlotOf, TellsOf;
    var t := Do(s, move);
    forall row | row in s.log ensures TellsOf(t.made, row) {
      StillTells(s.made, t.made, row);
    }
    match move
    case Work(luck) =>
      if s.pc.Visit? {
        LoggingTells(s, luck);
        SettleNotLogging(s.pc.rest);
      } else if s.pc.Fetched? {
        SettleNotLogging(Worklist(Listing(s.cal), s.pc.rules));
      }
    case User(DeleteRule(id)) =>
      forall row | row in t.log ensures TellsOf(t.made, row) {
        var i :| 0 <= i < |t.log| && t.log[i] == row;
        ForgottenTells(s.made, s.log[i], id);
      }
    case User(_) =>
  }

  lemma SettleNotLogging(work: seq<Pair>)
    ensures Settle(work).Visit? ==> !Settle(work).stage.Logging?
    ensures !Settle(work).Fetched?
  {
  }

  lemma ForgottenTells(made: seq<Made>, row: LogRow, id: RuleId)
    requires TellsOf(made, row)
    ensures TellsOf(made, if row.rule == Some(id) then row.(rule := None) else row)
  {
  }

  lemma LoggingTells(s: State, luck: Luck)
    requires Truthful(s) && s.pc.Visit?
    ensures var t := WorkerStep(s, luck);
            t.pc.Visit? && t.pc.stage.Logging? && !s.pc.stage.Logging? ==>
              TellsOf(t.made, LogRow(Some(t.pc.cur.rule.id), t.pc.stage.status, t.pc.cur.item.id, t.pc.stage.created))
  {
    hide Fires, Ready, SlotOf;
    SettleNotLogging(s.pc.rest);
    if s.pc.stage == Inserting && luck.Good? {
      assert Made(s.next, s.pc.cur) in WorkerStep(s, luck).made;
    }
  }

  lemma {:induction false} TruthfulRun(s0: State, run: seq<Move>)
    requires Initial(s0)
    ensures Truthful(Exec(s0, run))
  {
    if run != [] {
      TruthfulRun(s0, run[..|run| - 1]);
      TruthfulStep(Exec(s0, run[..|run| - 1]), run[|run| - 1]);
    }
  }

  /** Over every run: a success row names an insertion that was made, for its event and (unless deleted since) its rule;
      rows of other kinds name none. */
  lemma LogTellsTheTruth(allowed: set<Fault>, s0: State, t: State, row: LogRow)
    requires Initial(s0) && Reaches(allowed, s0, t) && row in t.log
    ensures row.status == Success ==>
              exists m :: m in t.made && row.created == Some(m.id) && m.pair.item.id == row.event &&
                          (row.rule.None? || row.rule == Some(m.pair.rule.id))
    ensures row.status != Success ==> row.created.None?
  {
    var run :| Legal(allowed, s0, run) && Exec(s0, run) == t;
    TruthfulRun(s0, run);
    assert TellsOf(t.made, row);
  }

  ghost predicate NamesRules(s: State) {
    forall row :: row in s.log && row.rule.Some? ==> RuleExists(s.rules, row.rule.value)
  }

  lemma NamesRulesStep(s: State, move: Move)
    requires NamesRules(s)
    ensures NamesRules(Do(s, move))
  {
    hide Fires, Ready, SlotOf, Listing, Clash, HasLog;
    match move
    case User(AddRule(rule)) =>
      assert forall r :: r in s.rules ==> r in Apply(s, AddRule(rule)).rules;
    case User(UpdateRule(_, _, _, _)) => ChangeKeepsIds(s.rules, move.act);
    case User(ToggleRule(_)) => ChangeKeepsIds(s.rules, move.act);
    case User(DeleteRule(id)) => DropKeepsOthers(s.rules, id);
    case _ =>
  }

  lemma ChangeKeepsIds(rules: seq<Rule>, act: UserAct)
    requires act.UpdateRule? || act.ToggleRule?
    ensures forall id :: RuleExists(rules, id) ==> RuleExists(ChangeRule(rules, act), id)
  {
    forall id | RuleExists(rules, id) ensures RuleExists(ChangeRule(rules, act), id) {
      var i :| 0 <= i < |rules| && rules[i].id == id;
      assert ChangeRule(rules, act)[i] in ChangeRule(rules, act);
    }
  }

  lemma DropKeepsOthers(rules: seq<Rule>, id: RuleId)
    ensures forall other :: other != id && RuleExists(rules, other) ==> RuleExists(DropRule(rules, id), other)
  {
  }

  /** Over every run: a row names a rule that exists, or none. */
  lemma {:induction false} RowsNameRules(s0: State, run: seq<Move>)
    requires Initial(s0)
    ensures forall row :: row in Exec(s0, run).log && row.rule.Some? ==>
              exists r :: r in Exec(s0, run).rules && r.id == row.rule.value
  {
    if run != [] {
      RowsNameRules(s0, run[..|run| - 1]);
      assert NamesRules(Exec(s0, run[..|run| - 1]));
      NamesRulesStep(Exec(s0, run[..|run| - 1]), run[|run| - 1]);
    }
    assert NamesRules(Exec(s0, run));
  }

  /** With a reliable log every insertion for a rule that still exists has its success row, or is just being logged. */
  lemma EveryInsertionIsLogged(allowed: set<Fault>, s0: State, t: State, m: Made)
    requires Initial(s0) && LogsReliable(allowed) && Reaches(allowed, s0, t) && m in t.made
    requires exists r :: r in t.rules && r.id == m.pair.rule.id
    ensures || (exists row :: row in t.log && row.rule == Some(m.pair.rule.id) && row.event == m.pair.item.id
                              && row.status == Success)
            || (t.pc.Visit? && t.pc.stage.Logging? && t.pc.stage.status == Success
                && t.pc.cur.rule.id == m.pair.rule.id && t.pc.cur.item.id == m.pair.item.id)
  {
    var run :| Legal(allowed, s0, run) && Exec(s0, run) == t;
    OnceRun(allowed, s0, run);
    var i :| 0 <= i < |t.made| && t.made[i] == m;
    TimesSome(t.made, i);
    assert RuleExists(t.rules, m.pair.rule.id);
    assert Times(t.made, m.pair.rule.id, m.pair.item.id) == 1;
  }

  /** How a visit ends. When the existence check finds an event, a skipped row is written and nothing inserted. When
      it does not, the insertion is tried, and a row with the new id written if it went well, a failure row if it
      reported an error, in each case once and for this rule and event. */
  lemma OutcomeIsLogged(s: State, p: Pair, rest: seq<Pair>, onInsert: Luck)
    requires Ready(p) && exists r :: r in s.rules && r.id == p.rule.id
    ensures var slot := SlotAt(p.item.startTime.value, p.rule.action.value);
            var title := p.rule.action.value.newEventTitle;
            var found := exists x | x in s.cal ::
                           x.summary == title && x.end > slot.lo - 60 && x.start < slot.hi + 60;
            var t := WorkerStep(s.(pc := Visit(CheckExists, p, rest)), Good);
            if found then
              var u := WorkerStep(t, Good);
              u.cal == s.cal && u.made == s.made && u.log == s.log + [LogRow(Some(p.rule.id), Skipped, p.item.id, None)]
            else
              var u := WorkerStep(WorkerStep(t, onInsert), Good);
              && u.made == s.made + (if onInsert.Bad? then [] else [Made(s.next, p)])
              && u.log == s.log + [if onInsert.Good? then LogRow(Some(p.rule.id), Success, p.item.id, Some(s.next))
                                   else LogRow(Some(p.rule.id), Failure, p.item.id, None)]
  {
    hide FloorSeconds, MinutesToNanos, InsertSorted;
    CoveredExactly(s, p);
    assert RuleExists(s.rules, p.rule.id);
  }
}
