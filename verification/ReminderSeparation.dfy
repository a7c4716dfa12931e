/** Worker-made reminders of one title never come close: over every run, and for exactly which faults. */
module ReminderSeparation {
  import opened Wrappers
  import opened ReminderModel
  import opened ReminderTime
  import opened ReminderWitness

  predicate Apart(a: Item, b: Item) {
    a.end + 60 <= b.start || b.end + 60 <= a.start
  }

  ghost predicate Separated(s: State) {
    forall x, y ::
      x in s.cal && y in s.cal && IsMade(s, x.id) && IsMade(s, y.id) && x.id != y.id && x.summary == y.summary ==>
        Apart(x, y)
  }

  ghost predicate FreshIds(s: State) {
    && (forall x :: x in s.cal ==> x.id < s.next)
    && (forall m :: m in s.made ==> m.id < s.next)
  }

  /** Once the existence check has said no, no worker-made reminder is near the slot. */
  ghost predicate Room(s: State) {
    s.pc.Visit? && s.pc.stage == Inserting ==>
      forall x :: x in s.cal && IsMade(s, x.id) ==> !Clashes(x, SlotOf(s.pc.cur))
  }

  ghost predicate SeparationInv(s: State) {
    FreshIds(s) && Separated(s) && Room(s)
  }

  /** The faults under which the two claims of separation hold. */
  predicate KeepsSeparation(allowed: set<Fault>) {
    ExistsReadFails !in allowed && !(UsersAct in allowed && RemindersEdited in allowed)
  }

  lemma SettleStage(work: seq<Pair>)
    ensures Settle(work).Visit? ==> Settle(work).stage == CheckLog
  {
  }

  lemma InsertSeparates(s: State, p: Pair)
    requires FreshIds(s) && Separated(s)
    requires forall x :: x in s.cal && IsMade(s, x.id) ==> !Clashes(x, SlotOf(p))
    ensures Separated(AddReminder(s, p)) && FreshIds(AddReminder(s, p))
  {
    var t := AddReminder(s, p);
    assert t.made == s.made + [Made(s.next, p)];
    forall x | x in t.cal ensures IsMade(t, x.id) <==> x.id == s.next || IsMade(s, x.id) {
      assert Made(s.next, p) in t.made;
    }
    forall x | x in s.cal && IsMade(s, x.id) && x.summary == SlotOf(p).title
      ensures Apart(x, ReminderItem(s.next, p))
    {
    }
  }

  lemma SeparationUnderUsers(s: State, act: UserAct)
    requires SeparationInv(s) && !(act.EditEvent? && IsMade(s, act.id))
    ensures SeparationInv(Apply(s, act))
  {
    hide SlotOf;
    assert Apply(s, act).made == s.made && Apply(s, act).pc == s.pc;
  }

  lemma SeparationStep(allowed: set<Fault>, s: State, move: Move)
    requires SeparationInv(s) && KeepsSeparation(allowed) && Permits(allowed, s, move)
    ensures SeparationInv(Do(s, move))
  {
    hide SlotOf, AddReminder;
    match move
    case Work(luck) =>
      match s.pc {
        case Idle =>
        case Fetched(rules) =>
          if luck.Good? {
            SettleStage(Worklist(Listing(s.cal), rules));
          }
        case Visit(stage, p, rest) =>
          SettleStage(rest);
          if stage == Inserting {
            InsertSeparates(s, p);
          }
      }
    case User(act) =>
      SeparationUnderUsers(s, act);
  }

  lemma {:induction false} SeparationRun(allowed: set<Fault>, s: State, run: seq<Move>)
    requires Initial(s) && KeepsSeparation(allowed) && Legal(allowed, s, run)
    ensures SeparationInv(Exec(s, run))
  {
    if run != [] {
      var before := run[..|run| - 1];
      SeparationRun(allowed, s, before);
      SeparationStep(allowed, Exec(s, before), run[|run| - 1]);
    }
  }

  /** Exactly when the existence check never fails and reminders are not edited, every run from every start
      keeps worker-made reminders of one title a minute apart; nothing else that may go wrong matters. */
  lemma SeparationExactly(allowed: set<Fault>)
    ensures KeepsSeparation(allowed) <==>
            forall s0, t :: Initial(s0) && Reaches(allowed, s0, t) ==> Separated(t)
  {
    if KeepsSeparation(allowed) {
      forall s0, t | Initial(s0) && Reaches(allowed, s0, t) ensures Separated(t) {
        var run :| Legal(allowed, s0, run) && Exec(s0, run) == t;
        SeparationRun(allowed, s0, run);
      }
    } else if ExistsReadFails in allowed {
      var s0, t, x, y := TwinReminders(allowed);
      assert !Apart(x, y);
    } else {
      var s0, t, x, y := RetitledReminder(allowed);
      assert !Apart(x, y);
    }
  }

  // ---------- The existence check alone prevents repeats ----------

  predicate RemindersStay(allowed: set<Fault>) {
    !(UsersAct in allowed && (RemindersEdited in allowed || RemindersDeleted in allowed))
  }

  ghost predicate Kept(s: State) {
    && (forall m :: m in s.made ==> ReminderItem(m.id, m.pair) in s.cal)
    && (forall i, j :: 0 <= i < j < |s.made| ==> s.made[i].id < s.made[j].id)
  }

  lemma KeptUnderUsers(s: State, act: UserAct)
    requires Kept(s) && !((act.EditEvent? || act.DeleteEvent?) && IsMade(s, act.id))
    ensures Kept(Apply(s, act))
  {
    hide SlotOf;
    forall m | m in s.made ensures ReminderItem(m.id, m.pair) in Apply(s, act).cal {
      assert IsMade(s, m.id);
    }
  }

  lemma KeptStep(allowed: set<Fault>, s: State, move: Move)
    requires FreshIds(s) && Kept(s) && Permits(allowed, s, move) && RemindersStay(allowed)
    ensures Kept(Do(s, move))
  {
    hide SlotOf, Apply, IsMade;
    match move
    case Work(luck) =>
      var t := WorkerStep(s, luck);
      if s.pc.Visit? && s.pc.stage == Inserting && !luck.Bad? {
        assert t.made == s.made + [Made(s.next, s.pc.cur)];
      } else {
        assert t.made == s.made && t.cal == s.cal;
      }
    case User(act) =>
      KeptUnderUsers(s, act);
  }

  lemma {:induction false} KeptRun(allowed: set<Fault>, s: State, run: seq<Move>)
    requires Initial(s) && KeepsSeparation(allowed) && Legal(allowed, s, run) && RemindersStay(allowed)
    ensures Kept(Exec(s, run))
  {
    if run != [] {
      var before := run[..|run| - 1];
      KeptRun(allowed, s, before);
      SeparationRun(allowed, s, before);
      KeptStep(allowed, Exec(s, before), run[|run| - 1]);
    }
  }

  lemma KeptReached(allowed: set<Fault>, s0: State, t: State)
    requires Initial(s0) && KeepsSeparation(allowed) && Reaches(allowed, s0, t) && RemindersStay(allowed)
    ensures SeparationInv(t) && Kept(t)
  {
    var run :| Legal(allowed, s0, run) && Exec(s0, run) == t;
    SeparationRun(allowed, s0, run);
    KeptRun(allowed, s0, run);
  }

  /** While reminders stay in place, no reminder is made twice, whatever happens to the log: two insertions
      with the same slot are impossible unless the rule's duration is negative (or overflows). In particular
      an unchanged event and rule get one reminder even if every success row is lost. */
  lemma NoRepeatWithoutLog(allowed: set<Fault>, s0: State, t: State, i: nat, j: nat)
    requires Initial(s0) && KeepsSeparation(allowed) && Reaches(allowed, s0, t) && RemindersStay(allowed)
    requires i < j < |t.made| && SlotOf(t.made[i].pair) == SlotOf(t.made[j].pair)
    ensures SlotOf(t.made[i].pair).hi <= SlotOf(t.made[i].pair).lo - 60
    ensures forall a :: t.made[i].pair.rule.action == Some(a) && Ready(t.made[i].pair) ==>
              !(0 <= a.durationMin <= MAX_MINUTES)
  {
    KeptReached(allowed, s0, t);
    var m, n := t.made[i], t.made[j];
    var x, y := ReminderItem(m.id, m.pair), ReminderItem(n.id, n.pair);
    assert m in t.made && n in t.made;
    assert IsMade(t, x.id) && IsMade(t, y.id);
    assert Apart(x, y);
    if Ready(m.pair) && 0 <= m.pair.rule.action.value.durationMin <= MAX_MINUTES {
      SlotLength(m.pair.item.startTime.value, m.pair.rule.action.value);
    }
  }

  // ---------- Nobody acts ----------

  /** Without users, rules and events stay what they were at the start. */
  ghost predicate FromStart(s0: State, p: Pair) {
    p.item in s0.cal && p.rule in s0.rules
  }

  ghost predicate Still(s0: State, s: State) {
    && s.rules == s0.rules
    && (forall x :: x in s.cal ==> x in s0.cal || IsReminder(x))
    && (forall m :: m in s.made ==> FromStart(s0, m.pair))
    && match s.pc {
         case Idle => true
         case Fetched(rules) => rules == s0.rules
         case Visit(_, cur, rest) => FromStart(s0, cur) && forall p :: p in rest ==> FromStart(s0, p)
       }
  }

  lemma SettleFromStart(s0: State, work: seq<Pair>)
    requires forall p :: p in work ==> FromStart(s0, p)
    ensures !Settle(work).Fetched?
    ensures Settle(work).Visit? ==>
              FromStart(s0, Settle(work).cur) && forall p :: p in Settle(work).rest ==> FromStart(s0, p)
  {
  }

  lemma StillStep(s0: State, s: State, luck: Luck)
    requires Still(s0, s)
    ensures Still(s0, WorkerStep(s, luck))
  {
    hide SlotOf, Fires, FromStart, IsReminder;
    match s.pc
    case Idle =>
    case Fetched(rules) =>
      forall p | p in Worklist(Listing(s.cal), rules) ensures FromStart(s0, p) {
        assert p.item in s.cal && !IsReminder(p.item) && p.rule in rules;
        StartedWith(s0, p);
      }
      SettleFromStart(s0, Worklist(Listing(s.cal), rules));
    case Visit(stage, p, rest) =>
      SettleFromStart(s0, rest);
      if stage == Inserting {
        ReminderCarriesPrefix(s.next, p);
      }
  }

  lemma StartedWith(s0: State, p: Pair)
    requires p.item in s0.cal && p.rule in s0.rules
    ensures FromStart(s0, p)
  {
  }

  lemma {:induction false} StillRun(allowed: set<Fault>, s0: State, run: seq<Move>)
    requires Initial(s0) && UsersAct !in allowed && Legal(allowed, s0, run)
    ensures Still(s0, Exec(s0, run))
  {
    if run != [] {
      var before, last := run[..|run| - 1], run[|run| - 1];
      StillRun(allowed, s0, before);
      StillStep(s0, Exec(s0, before), last.luck);
    }
  }

  lemma StillReached(allowed: set<Fault>, s0: State, t: State)
    requires Initial(s0) && UsersAct !in allowed && Reaches(allowed, s0, t)
    ensures Still(s0, t)
  {
    var run :| Legal(allowed, s0, run) && Exec(s0, run) == t;
    StillRun(allowed, s0, run);
  }

  lemma OrdinarySlot(p: Pair)
    requires OrdinaryAction(p.rule.action)
    ensures SlotOf(p).lo <= SlotOf(p).hi
  {
    if Ready(p) {
      SlotLength(p.item.startTime.value, p.rule.action.value);
    }
  }

  /** When users do nothing and the existence check never fails, ordinary rules lead to one insertion per rule and
      event at most, whatever happens to the log. */
  lemma NoRepeatWithoutUsers(allowed: set<Fault>, s0: State, t: State, i: nat, j: nat)
    requires Starts(allowed, s0) && Reaches(allowed, s0, t)
    requires UsersAct !in allowed && ExistsReadFails !in allowed && OddDurations !in allowed
    requires i < j < |t.made|
    ensures !(t.made[i].pair.rule.id == t.made[j].pair.rule.id && t.made[i].pair.item.id == t.made[j].pair.item.id)
  {
    hide SlotOf, Ready, Reaches;
    StillReached(allowed, s0, t);
    var a, b := t.made[i].pair, t.made[j].pair;
    assert t.made[i] in t.made && t.made[j] in t.made;
    if a.rule.id == b.rule.id && a.item.id == b.item.id {
      assert a.rule == b.rule && a.item == b.item;
      NoRepeatWithoutLog(allowed, s0, t, i, j);
      OrdinarySlot(a);
    }
  }
}
