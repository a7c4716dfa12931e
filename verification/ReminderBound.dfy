/** No cascade, and a bound on all the work any run can do. */
module ReminderBound {
  import opened ReminderModel
  import opened ReminderOnce
  import opened ReminderWitness

  // ---------- Who owns an event ----------

  /** The events users have put in the calendar, from the start or during the run. */
  function UserEvents(s0: State, run: seq<Move>): set<EventId> {
    if run == [] then set x | x in s0.cal :: x.id
    else
      var before, last := run[..|run| - 1], run[|run| - 1];
      UserEvents(s0, before) + if last.User? && last.act.AddEvent? then {Exec(s0, before).next} else {}
  }

  /** The rules users have created, from the start or during the run. */
  function UserRules(s0: State, run: seq<Move>): set<RuleId> {
    if run == [] then set r | r in s0.rules :: r.id
    else
      var before, last := run[..|run| - 1], run[|run| - 1];
      UserRules(s0, before) + if last.User? && last.act.AddRule? then {Exec(s0, before).nextRule} else {}
  }

  predicate RemindersUnedited(allowed: set<Fault>) {
    !(UsersAct in allowed && RemindersEdited in allowed)
  }

  ghost predicate PairFrom(p: Pair, events: set<EventId>, rules: set<RuleId>) {
    p.item.id in events && p.rule.id in rules
  }

  ghost predicate Origins(s: State, events: set<EventId>, rules: set<RuleId>) {
    && (forall e :: e in events ==> e < s.next)
    && (forall m :: m in s.made ==> m.id < s.next && m.id !in events && PairFrom(m.pair, events, rules))
    && (forall x :: x in s.cal ==> x.id in events || (IsMade(s, x.id) && IsReminder(x)))
    && (forall r :: r in s.rules ==> r.id in rules)
    && match s.pc {
         case Idle => true
         case Fetched(rs) => forall r :: r in rs ==> r.id in rules
         case Visit(_, cur, rest) =>
           PairFrom(cur, events, rules) && forall p :: p in rest ==> PairFrom(p, events, rules)
       }
  }

  lemma SettleOrigins(work: seq<Pair>, events: set<EventId>, rules: set<RuleId>)
    requires forall p :: p in work ==> PairFrom(p, events, rules)
    ensures !Settle(work).Fetched?
    ensures Settle(work).Visit? ==>
              PairFrom(Settle(work).cur, events, rules) &&
              forall p :: p in Settle(work).rest ==> PairFrom(p, events, rules)
  {
  }

  lemma OriginsWork(s: State, luck: Luck, events: set<EventId>, rules: set<RuleId>)
    requires Origins(s, events, rules)
    ensures Origins(WorkerStep(s, luck), events, rules)
  {
    var t := WorkerStep(s, luck);
    match s.pc
    case Idle =>
    case Fetched(rs) =>
      if luck.Good? {
        SettleOrigins(Worklist(Listing(s.cal), rs), events, rules);
      }
    case Visit(stage, p, rest) =>
      SettleOrigins(rest, events, rules);
      if stage == Inserting && !luck.Bad? {
        ReminderCarriesPrefix(s.next, p);
        assert t.made == s.made + [Made(s.next, p)];
        assert Made(s.next, p) in t.made;
      }
  }

  lemma ChangedRuleIds(rules: seq<Rule>, act: UserAct, ids: set<RuleId>)
    requires act.UpdateRule? || act.ToggleRule?
    requires forall r :: r in rules ==> r.id in ids
    ensures forall r :: r in ChangeRule(rules, act) ==> r.id in ids
  {
    var rs := ChangeRule(rules, act);
    forall r | r in rs ensures r.id in ids {
      var i :| 0 <= i < |rs| && rs[i] == r;
      assert rules[i] in rules;
    }
  }

  lemma OriginsUnderUsers(s: State, act: UserAct, events: set<EventId>, rules: set<RuleId>)
    requires Origins(s, events, rules) && !(act.EditEvent? && IsMade(s, act.id))
    ensures Origins(Apply(s, act), events + (if act.AddEvent? then {s.next} else {}),
                    rules + (if act.AddRule? then {s.nextRule} else {}))
  {
    hide IsReminder;
    if act.UpdateRule? || act.ToggleRule? {
      ChangedRuleIds(s.rules, act, rules);
    }
  }

  lemma OriginsStep(allowed: set<Fault>, s: State, move: Move, events: set<EventId>, rules: set<RuleId>)
    requires Origins(s, events, rules) && Permits(allowed, s, move) && RemindersUnedited(allowed)
    ensures Origins(Do(s, move),
                    events + (if move.User? && move.act.AddEvent? then {s.next} else {}),
                    rules + (if move.User? && move.act.AddRule? then {s.nextRule} else {}))
  {
    hide Origins, Apply, WorkerStep;
    match move
    case Work(luck) =>
      assert events + {} == events && rules + {} == rules;
      OriginsWork(s, luck, events, rules);
    case User(act) =>
      OriginsUnderUsers(s, act, events, rules);
  }

  lemma {:induction false} OriginsRun(allowed: set<Fault>, s0: State, run: seq<Move>)
    requires Initial(s0) && Legal(allowed, s0, run) && RemindersUnedited(allowed)
    ensures Origins(Exec(s0, run), UserEvents(s0, run), UserRules(s0, run))
  {
    if run != [] {
      var before, last := run[..|run| - 1], run[|run| - 1];
      OriginsRun(allowed, s0, before);
      OriginsStep(allowed, Exec(s0, before), last, UserEvents(s0, before), UserRules(s0, before));
      assert UserEvents(s0, run) == UserEvents(s0, before) +
             (if last.User? && last.act.AddEvent? then {Exec(s0, before).next} else {});
      assert UserRules(s0, run) == UserRules(s0, before) +
             (if last.User? && last.act.AddRule? then {Exec(s0, before).nextRule} else {});
    }
  }

  // ---------- Counting ----------

  function Keys(made: seq<Made>): (r: seq<(RuleId, EventId)>)
    ensures |r| == |made| && forall i :: 0 <= i < |r| ==> r[i] == (made[i].pair.rule.id, made[i].pair.item.id)
  {
    seq(|made|, i requires 0 <= i < |made| => (made[i].pair.rule.id, made[i].pair.item.id))
  }

  lemma {:induction false} TimesSome(made: seq<Made>, i: nat)
    requires i < |made|
    ensures Times(made, made[i].pair.rule.id, made[i].pair.item.id) >= 1
  {
    if i < |made| - 1 {
      TimesSome(made[..|made| - 1], i);
    }
  }

  lemma {:induction false} OnceMeansDistinct(made: seq<Made>, i: nat, j: nat)
    requires forall rule, event :: Times(made, rule, event) <= 1
    requires i < j < |made|
    ensures Keys(made)[i] != Keys(made)[j]
  {
    var before := made[..|made| - 1];
    assert made == before + [made[|made| - 1]];
    forall rule, event ensures Times(before, rule, event) <= Times(made, rule, event) {
      TimesSnoc(before, made[|made| - 1], rule, event);
    }
    if j == |made| - 1 {
      TimesSome(before, i);
      TimesSnoc(before, made[j], made[i].pair.rule.id, made[i].pair.item.id);
    } else {
      OnceMeansDistinct(before, i, j);
    }
  }

  lemma {:induction false} DistinctWithin<T>(xs: seq<T>, all: set<T>)
    requires forall i, j :: 0 <= i < j < |xs| ==> xs[i] != xs[j]
    requires forall x :: x in xs ==> x in all
    ensures |xs| <= |all|
  {
    if xs != [] {
      var last := xs[|xs| - 1];
      DistinctWithin(xs[..|xs| - 1], all - {last});
    }
  }

  function Product(rules: set<RuleId>, events: set<EventId>): set<(RuleId, EventId)> {
    set r, e | r in rules && e in events :: (r, e)
  }

  lemma {:induction false} RowSize(rule: RuleId, events: set<EventId>)
    ensures |Product({rule}, events)| == |events|
  {
    if events == {} {
      assert Product({rule}, events) == {};
    } else {
      var e :| e in events;
      RowSize(rule, events - {e});
      assert Product({rule}, events) == Product({rule}, events - {e}) + {(rule, e)};
    }
  }

  lemma ProductWithout(rules: set<RuleId>, r: RuleId, events: set<EventId>)
    requires r in rules
    ensures |Product(rules, events)| == |Product(rules - {r}, events)| + |events|
  {
    var others, row := Product(rules - {r}, events), Product({r}, events);
    RowSize(r, events);
    assert Product(rules, events) == others + row && others !! row;
  }

  lemma {:induction false} ProductSize(rules: set<RuleId>, events: set<EventId>)
    ensures |Product(rules, events)| == |rules| * |events|
  {
    if rules == {} {
      assert Product(rules, events) == {};
    } else {
      hide Product;
      var r :| r in rules;
      var others, k := rules - {r}, |events|;
      ProductSize(others, events);
      ProductWithout(rules, r, events);
      assert rules == others + {r};
      assert |others| * k + k == (|others| + 1) * k;
    }
  }

  // ---------- Results ----------

  /** While reminders are not edited, no insertion is made for an event the worker itself created. */
  lemma NoCascade(allowed: set<Fault>, s0: State, t: State, m: Made, n: Made)
    requires Initial(s0) && Reaches(allowed, s0, t) && RemindersUnedited(allowed)
    requires m in t.made && n in t.made
    ensures m.pair.item.id != n.id
  {
    var run :| Legal(allowed, s0, run) && Exec(s0, run) == t;
    OriginsRun(allowed, s0, run);
  }

  /** No insertion is made for an event the worker itself created, in every run from every start: exactly when users do
      not edit reminders. */
  lemma NoCascadeExactly(allowed: set<Fault>)
    ensures RemindersUnedited(allowed) <==>
            forall s0, t, m, n :: Initial(s0) && Reaches(allowed, s0, t) && m in t.made && n in t.made ==>
                m.pair.item.id != n.id
  {
    hide Reaches, Initial;
    if RemindersUnedited(allowed) {
      forall s0, t, m, n | Initial(s0) && Reaches(allowed, s0, t) && m in t.made && n in t.made
        ensures m.pair.item.id != n.id
      {
        NoCascade(allowed, s0, t, m, n);
      }
    } else {
      var s0, t := CascadeAfterEdit(allowed);
      assert Initial(s0) && t.made[0] in t.made && t.made[1] in t.made;
    }
  }

  /** All insertions of a run, however long, are at most one per user event and user rule. */
  lemma TotalWorkBounded(allowed: set<Fault>, s0: State, run: seq<Move>)
    requires Starts(allowed, s0) && Legal(allowed, s0, run)
    requires OneGuardHolds(allowed) && RemindersUnedited(allowed)
    ensures |Exec(s0, run).made| <= |UserRules(s0, run)| * |UserEvents(s0, run)|
  {
    hide Times, Legal, Exec, UserRules, UserEvents;
    var t, rules, events := Exec(s0, run), UserRules(s0, run), UserEvents(s0, run);
    OriginsRun(allowed, s0, run);
    assert Reaches(allowed, s0, t);
    forall rule, event ensures Times(t.made, rule, event) <= 1 {
      OnceUnderGuard(allowed, s0, t, rule, event);
    }
    var keys := Keys(t.made);
    forall i, j | 0 <= i < j < |keys| ensures keys[i] != keys[j] {
      OnceMeansDistinct(t.made, i, j);
    }
    forall k | k in keys ensures k in Product(rules, events) {
      var i :| 0 <= i < |keys| && keys[i] == k;
      assert t.made[i] in t.made;
    }
    DistinctWithin(keys, Product(rules, events));
    ProductSize(rules, events);
  }

  /** Ids are given out to what is added and inserted; when no more have been given out than there are insertions,
      users have added nothing. */
  lemma {:induction false} NothingAdded(s0: State, run: seq<Move>)
    requires s0.made == []
    ensures var t := Exec(s0, run);
            && t.next >= s0.next + |t.made| && t.nextRule >= s0.nextRule
            && (t.next == s0.next + |t.made| ==> UserEvents(s0, run) == UserEvents(s0, []))
            && (t.nextRule == s0.nextRule ==> UserRules(s0, run) == UserRules(s0, []))
  {
    if run != [] {
      var before, last := run[..|run| - 1], run[|run| - 1];
      NothingAdded(s0, before);
      MoveGivesIds(Exec(s0, before), last);
    }
  }

  lemma MoveGivesIds(s: State, move: Move)
    ensures var t := Do(s, move);
            && t.next - |t.made| == s.next - |s.made| + (if move.User? && move.act.AddEvent? then 1 else 0)
            && t.nextRule == s.nextRule + (if move.User? && move.act.AddRule? then 1 else 0)
  {
    hide SlotOf, Worklist, Settle, InFlight;
  }

  lemma OneEach(s0: State)
    requires |s0.cal| == |s0.rules| == 1
    ensures |UserRules(s0, [])| * |UserEvents(s0, [])| == 1
  {
    assert UserEvents(s0, []) == {s0.cal[0].id} && UserRules(s0, []) == {s0.rules[0].id};
  }

  /** The bound holds in every run from every start exactly when one of the two guards can be relied on and users do not
      edit reminders. */
  lemma TotalWorkBoundedExactly(allowed: set<Fault>)
    ensures OneGuardHolds(allowed) && RemindersUnedited(allowed) <==>
            forall s0, run :: Starts(allowed, s0) && Legal(allowed, s0, run) ==>
              |Exec(s0, run).made| <= |UserRules(s0, run)| * |UserEvents(s0, run)|
  {
    hide Legal, Exec, UserRules, UserEvents;
    if OneGuardHolds(allowed) && RemindersUnedited(allowed) {
      forall s0, run | Starts(allowed, s0) && Legal(allowed, s0, run)
        ensures |Exec(s0, run).made| <= |UserRules(s0, run)| * |UserEvents(s0, run)|
      {
        TotalWorkBounded(allowed, s0, run);
      }
    } else {
      var s0, t;
      if RemindersUnedited(allowed) {
        s0, t := TwoInsertsOfOnePair(allowed);
      } else {
        s0, t := CascadeAfterEdit(allowed);
      }
      var run :| Legal(allowed, s0, run) && Exec(s0, run) == t;
      NothingAdded(s0, run);
      OneEach(s0);
    }
  }
}
