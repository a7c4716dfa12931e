/** One goroutine per active account over shared tables, users acting in between: whatever the interleaving, each
    account ends as if the accounts had been taken one after the other, and every goroutine finishes. */
module WorkerFanout {
  import opened Wrappers
  import opened ReminderModel
  import opened ReminderCycle
  import Accounts = AccountStore

  type AccId = Accounts.AccId

  // ---------- Shared tables ----------

  datatype Owned<T> = Owned(acc: AccId, value: T)

  /** An account's calendar at the provider, with the insertions made in it. */
  datatype Calendar = Calendar(items: seq<Item>, next: EventId, made: seq<Made>)

  /** How far the goroutine of an account is: token, calendar rules, last-checked stamp. */
  datatype Proc = NeedToken | InCalendar(pc: Pc) | Stamping | Finished

  datatype World = World(config: Accounts.Config, accounts: map<AccId, Accounts.Row>, rules: seq<Owned<Rule>>,
                         log: seq<Owned<LogRow>>, calendars: map<AccId, Calendar>, procs: map<AccId, Proc>)

  /** What the outside answers to one step of a goroutine. */
  datatype Response = Response(luck: Luck, call: Accounts.TokenCall, now: int)

  function OwnedBy<T(!new)>(xs: seq<Owned<T>>, a: AccId): (r: seq<T>)
    ensures forall x :: x in r <==> Owned(a, x) in xs
  {
    if xs == [] then []
    else (if xs[0].acc == a then [xs[0].value] else []) + OwnedBy(xs[1..], a)
  }

  predicate Present(w: World, a: AccId) {
    a in w.accounts && a in w.calendars && a in w.procs
  }

  // ---------- The goroutine of one account ----------

  /** The goroutine goes on with a valid token, and stops for this cycle without one. */
  function AfterToken(config: Accounts.Config, row: Accounts.Row, call: Accounts.TokenCall): (Accounts.Row, Proc) {
    var (row', answer) := Accounts.ValidToken(config, row, call);
    (row', if answer.Ok? then InCalendar(Idle) else Finished)
  }

  /** The calendar part ends when the automaton is back at rest; an error in it does not skip the stamp. */
  function AfterCalendar(pc: Pc): Proc {
    if pc == Idle then Stamping else InCalendar(pc)
  }

  predicate LoggedShared(log: seq<Owned<LogRow>>, rule: RuleId, event: EventId) {
    exists row | row in log ::
      row.value.rule == Some(rule) && row.value.status == Success && row.value.event == event
  }

  /** The services, answering from the shared tables. The log is searched by rule id alone. */
  function ServeShared(w: World, a: AccId, q: Query, luck: Luck): (World, Reply)
    requires Present(w, a)
  {
    var c := w.calendars[a];
    match q
    case FetchRules => (w, if luck.Good? then GotRules(OwnedBy(w.rules, a)) else Failed)
    case ListEvents => (w, if luck.Good? then GotEvents(Listing(c.items)) else Failed)
    case AskLog(rule, event) =>
      (w, if luck.Good? then
            Found(LoggedShared(w.log, rule, event))
          else Failed)
    case AskExists(slot) => (w, if luck.Good? then Found(Clash(c.items, slot)) else Failed)
    case Insert(p) =>
      (if luck.Bad? then w
       else w.(calendars := w.calendars[a := Calendar(InsertSorted(c.items, ReminderItem(c.next, p)), c.next + 1,
                                                      c.made + [Made(c.next, p)])]),
       if luck.Good? then Created(c.next) else Failed)
    case WriteLog(row) =>
      (if luck.Bad? || (row.rule.Some? && !exists r | r in w.rules :: r.value.id == row.rule.value) then w
       else w.(log := w.log + [Owned(a, row)]),
       if luck.Good? then Written else Failed)
  }

  /** One step of the goroutine of account `a`. */
  function WorldStep(w: World, a: AccId, resp: Response): (r: World)
    requires Present(w, a)
    ensures forall b :: Present(r, b) <==> Present(w, b)
  {
    match w.procs[a]
    case NeedToken =>
      var (account, proc) := AfterToken(w.config, w.accounts[a], resp.call);
      w.(accounts := w.accounts[a := account], procs := w.procs[a := proc])
    case InCalendar(pc) =>
      var (w', reply) := ServeShared(w, a, Ask(pc), resp.luck);
      w'.(procs := w'.procs[a := AfterCalendar(Resume(pc, reply))])
    case Stamping =>
      var account := if resp.luck.Bad? then w.accounts[a] else w.accounts[a].(lastChecked := Some(resp.now));
      w.(accounts := w.accounts[a := account], procs := w.procs[a := Finished])
    case Finished => w
  }

  // ---------- One account on its own ----------

  /** Everything that belongs to one account. */
  datatype View = View(config: Accounts.Config, account: Accounts.Row, state: State, proc: Proc)

  function ViewOf(w: World, a: AccId): View
    requires Present(w, a)
  {
    var c := w.calendars[a];
    View(w.config, w.accounts[a], State(c.items, c.next, OwnedBy(w.rules, a), 0, OwnedBy(w.log, a), c.made, Idle),
        w.procs[a])
  }

  function LocalStep(v: View, resp: Response): View {
    match v.proc
    case NeedToken =>
      var (account, proc) := AfterToken(v.config, v.account, resp.call);
      v.(account := account, proc := proc)
    case InCalendar(pc) =>
      var (s, reply) := Serve(v.state, Ask(pc), resp.luck);
      v.(state := s, proc := AfterCalendar(Resume(pc, reply)))
    case Stamping =>
      v.(account := if resp.luck.Bad? then v.account else v.account.(lastChecked := Some(resp.now)), proc := Finished)
    case Finished => v
  }

  // ---------- Users ----------

  /** Changing a rule by its id, in the shared table. */
  function ChangeShared(rules: seq<Owned<Rule>>, act: UserAct): (r: seq<Owned<Rule>>)
    requires act.UpdateRule? || act.ToggleRule?
    ensures |r| == |rules| && forall i :: 0 <= i < |r| ==>
            r[i].acc == rules[i].acc && r[i].value.id == rules[i].value.id
  {
    if rules == [] then []
    else [Owned(rules[0].acc, ChangeRule([rules[0].value], act)[0])] + ChangeShared(rules[1..], act)
  }

  function DropShared(rules: seq<Owned<Rule>>, id: RuleId): (r: seq<Owned<Rule>>)
    ensures forall x :: x in r <==> x in rules && x.value.id != id
  {
    if rules == [] then [] else (if rules[0].value.id == id then [] else [rules[0]]) + DropShared(rules[1..], id)
  }

  function ForgetShared(log: seq<Owned<LogRow>>, id: RuleId): (r: seq<Owned<LogRow>>)
    ensures |r| == |log|
    ensures forall i :: 0 <= i < |r| ==>
              r[i].acc == log[i].acc && (r[i].value.rule.Some? ==> r[i].value.rule == log[i].value.rule)
  {
    if log == [] then [] else [Owned(log[0].acc, ForgetRule([log[0].value], id)[0])] + ForgetShared(log[1..], id)
  }

  /** What a user does to the shared tables; a new rule comes with the id it is given. */
  function UserStep(w: World, a: AccId, act: UserAct): (r: World)
    requires Present(w, a)
    ensures forall b :: Present(r, b) <==> Present(w, b)
  {
    match act
    case AddRule(rule) => w.(rules := [Owned(a, rule.(active := true))] + w.rules)
    case UpdateRule(_, _, _, _) => w.(rules := ChangeShared(w.rules, act))
    case ToggleRule(_) => w.(rules := ChangeShared(w.rules, act))
    case DeleteRule(id) => w.(rules := DropShared(w.rules, id), log := ForgetShared(w.log, id))
    case _ =>
      var c, s := w.calendars[a], Apply(ViewOf(w, a).state, act);
      w.(calendars := w.calendars[a := Calendar(s.cal, s.next, c.made)])
  }

  /** The same on the account's own part. */
  function LocalAct(v: View, act: UserAct): View {
    if act.AddRule? then v.(state := v.state.(rules := Apply(v.state.(nextRule := act.rule.id), act).rules))
    else v.(state := Apply(v.state, act))
  }

  // ---------- Schedules ----------

  /** A step of the account's goroutine, or an act of the account's user. */
  datatype Event = Answered(resp: Response) | Acted(act: UserAct)

  datatype Turn = Turn(acc: AccId, event: Event)

  function TurnStep(w: World, t: Turn): (r: World)
    requires Present(w, t.acc)
    ensures forall b :: Present(r, b) <==> Present(w, b)
  {
    match t.event
    case Answered(resp) => WorldStep(w, t.acc, resp)
    case Acted(act) => UserStep(w, t.acc, act)
  }

  function LocalTurn(v: View, event: Event): View {
    match event
    case Answered(resp) => LocalStep(v, resp)
    case Acted(act) => LocalAct(v, act)
  }

  /** To whom a rule id is given, now or later. */
  type Owner = RuleId -> AccId

  /** Users act on rules of their own only. */
  predicate Own(owner: Owner, t: Turn) {
    match t.event
    case Answered(_) => true
    case Acted(AddRule(rule)) => owner(rule.id) == t.acc
    case Acted(UpdateRule(id, _, _, _)) => owner(id) == t.acc
    case Acted(ToggleRule(id)) => owner(id) == t.acc
    case Acted(DeleteRule(id)) => owner(id) == t.acc
    case Acted(_) => true
  }

  predicate Schedules(owner: Owner, w: World, turns: seq<Turn>) {
    forall t :: t in turns ==> Present(w, t.acc) && Own(owner, t)
  }

  function RunWorld(owner: Owner, w: World, turns: seq<Turn>): (r: World)
    requires Schedules(owner, w, turns)
    ensures forall a :: Present(r, a) <==> Present(w, a)
    decreases turns
  {
    if turns == [] then w
    else
      var w' := TurnStep(w, turns[0]);
      RunWorld(owner, w', turns[1..])
  }

  function RunLocal(v: View, events: seq<Event>): View
    decreases events
  {
    if events == [] then v else RunLocal(LocalTurn(v, events[0]), events[1..])
  }

  function Only(turns: seq<Turn>, a: AccId): seq<Event> {
    if turns == [] then []
    else (if turns[0].acc == a then [turns[0].event] else []) + Only(turns[1..], a)
  }

  // ---------- Ownership ----------

  ghost predicate OwnsPc(owner: Owner, a: AccId, pc: Pc) {
    match pc
    case Idle => true
    case Fetched(rs) => forall r :: r in rs ==> owner(r.id) == a
    case Visit(_, cur, rest) => owner(cur.rule.id) == a && forall p :: p in rest ==> owner(p.rule.id) == a
  }

  /** Rules, log rows and goroutines have only rule ids of their own account. */
  ghost predicate Partitioned(owner: Owner, w: World) {
    && (forall r :: r in w.rules ==> owner(r.value.id) == r.acc)
    && (forall row :: row in w.log && row.value.rule.Some? ==> owner(row.value.rule.value) == row.acc)
    && (forall a :: a in w.procs && w.procs[a].InCalendar? ==> OwnsPc(owner, a, w.procs[a].pc))
  }

  lemma {:induction false} OwnedBySnoc<T(!new)>(xs: seq<Owned<T>>, x: Owned<T>, a: AccId)
    ensures OwnedBy(xs + [x], a) == OwnedBy(xs, a) + if x.acc == a then [x.value] else []
  {
    if xs == [] {
      assert [] + [x] == [x];
    } else {
      assert (xs + [x])[1..] == xs[1..] + [x];
      OwnedBySnoc(xs[1..], x, a);
    }
  }

  lemma SettleOwns(owner: Owner, a: AccId, work: seq<Pair>)
    requires forall p :: p in work ==> owner(p.rule.id) == a
    ensures OwnsPc(owner, a, Settle(work))
  {
  }

  lemma ResumeOwns(owner: Owner, a: AccId, pc: Pc, reply: Reply)
    requires OwnsPc(owner, a, pc)
    requires reply.GotRules? ==> forall r :: r in reply.rules ==> owner(r.id) == a
    ensures OwnsPc(owner, a, Resume(pc, reply))
  {
    if pc.Fetched? && reply.GotEvents? {
      SettleOwns(owner, a, Worklist(reply.items, pc.rules));
    } else if pc.Visit? {
      SettleOwns(owner, a, pc.rest);
    }
  }

  lemma ServePartitioned(owner: Owner, w: World, a: AccId, q: Query, luck: Luck)
    requires Present(w, a) && Partitioned(owner, w) && MayAsk(owner, a, q)
    ensures var (u, reply) := ServeShared(w, a, q, luck);
            && u.rules == w.rules && u.procs == w.procs && Partitioned(owner, u)
            && (reply.GotRules? ==> forall r :: r in reply.rules ==> owner(r.id) == a)
  {
    hide Listing, Clash, InsertSorted, ReminderItem;
    var (u, reply) := ServeShared(w, a, q, luck);
    if reply.GotRules? {
      forall r | r in reply.rules ensures owner(r.id) == a {
        assert Owned(a, r) in w.rules;
      }
    }
  }

  lemma StepPartitioned(owner: Owner, w: World, a: AccId, resp: Response)
    requires Present(w, a) && Partitioned(owner, w)
    ensures Partitioned(owner, WorldStep(w, a, resp))
  {
    hide ServeShared, Resume;
    if w.procs[a].InCalendar? {
      var pc := w.procs[a].pc;
      var (u, reply) := ServeShared(w, a, Ask(pc), resp.luck);
      ServePartitioned(owner, w, a, Ask(pc), resp.luck);
      ResumeOwns(owner, a, pc, reply);
    }
  }

  /** The shared log, searched by rule id alone, answers as the account's own rows would. */
  lemma LogSearchIsLocal(owner: Owner, w: World, a: AccId, rule: RuleId, event: EventId)
    requires Present(w, a) && Partitioned(owner, w) && owner(rule) == a
    ensures LoggedShared(w.log, rule, event) <==> HasLog(OwnedBy(w.log, a), rule, event)
  {
    forall row | row in w.log && row.value.rule == Some(rule)
      ensures row.acc == a && row.value in OwnedBy(w.log, a)
    {
      assert row == Owned(a, row.value);
    }
    forall row | row in OwnedBy(w.log, a) ensures Owned(a, row) in w.log {
    }
  }

  ghost predicate MayAsk(owner: Owner, a: AccId, q: Query) {
    match q
    case AskLog(rule, _) => owner(rule) == a
    case WriteLog(row) => row.rule.Some? && owner(row.rule.value) == a
    case _ => true
  }

  lemma WriteIsLocal(owner: Owner, w: World, a: AccId, row: LogRow, luck: Luck, b: AccId)
    requires Present(w, a) && Present(w, b) && Partitioned(owner, w) && MayAsk(owner, a, WriteLog(row))
    ensures var (t, reply) := ServeShared(w, a, WriteLog(row), luck);
            var (s, answer) := Serve(ViewOf(w, a).state, WriteLog(row), luck);
            reply == answer && ViewOf(t, b) == if a == b then ViewOf(w, b).(state := s) else ViewOf(w, b)
  {
    OwnedBySnoc(w.log, Owned(a, row), b);
    RuleExistsShared(owner, w, a, row.rule.value);
  }

  /** The foreign key asks for the rule's id alone; that it exists at all means it exists among the account's own. */
  lemma RuleExistsShared(owner: Owner, w: World, a: AccId, id: RuleId)
    requires Partitioned(owner, w) && owner(id) == a
    ensures (exists r | r in w.rules :: r.value.id == id) <==> RuleExists(OwnedBy(w.rules, a), id)
  {
    forall r | r in w.rules && r.value.id == id ensures r.value in OwnedBy(w.rules, a) {
      assert r == Owned(a, r.value);
    }
    forall r | r in OwnedBy(w.rules, a) ensures Owned(a, r) in w.rules {
    }
  }

  /** A call answered from the shared tables is answered as from the account's own part, and touches only that. */
  lemma ServeIsLocal(owner: Owner, w: World, a: AccId, q: Query, luck: Luck, b: AccId)
    requires Present(w, a) && Present(w, b) && Partitioned(owner, w) && MayAsk(owner, a, q)
    ensures var (t, reply) := ServeShared(w, a, q, luck);
            var (s, answer) := Serve(ViewOf(w, a).state, q, luck);
            && reply == answer && t.accounts == w.accounts && t.procs == w.procs && t.rules == w.rules
            && t.calendars.Keys == w.calendars.Keys
            && ViewOf(t, b) == if a == b then ViewOf(w, b).(state := s) else ViewOf(w, b)
  {
    match q
    case AskLog(rule, event) => LogSearchIsLocal(owner, w, a, rule, event);
    case WriteLog(row) => WriteIsLocal(owner, w, a, row, luck, b);
    case _ =>
  }

  /** A step of one goroutine is a step on its own part of the tables, and no other account's part changes. */
  lemma StepIsLocal(owner: Owner, w: World, a: AccId, resp: Response, b: AccId)
    requires Present(w, a) && Present(w, b) && Partitioned(owner, w)
    ensures ViewOf(WorldStep(w, a, resp), b) == if a == b then LocalStep(ViewOf(w, a), resp) else ViewOf(w, b)
  {
    if w.procs[a].InCalendar? {
      hide ServeShared, Serve, Resume;
      ServeIsLocal(owner, w, a, Ask(w.procs[a].pc), resp.luck, b);
    }
  }

  // ---------- Users act locally ----------

  lemma OwnedByCons<T(!new)>(x: Owned<T>, xs: seq<Owned<T>>, a: AccId)
    ensures OwnedBy([x] + xs, a) == (if x.acc == a then [x.value] else []) + OwnedBy(xs, a)
  {
    assert ([x] + xs)[1..] == xs;
  }

  lemma ChangeRuleCons(r: Rule, rules: seq<Rule>, act: UserAct)
    requires act.UpdateRule? || act.ToggleRule?
    ensures ChangeRule([r] + rules, act) == [ChangeRule([r], act)[0]] + ChangeRule(rules, act)
    ensures r.id != act.ruleId ==> ChangeRule([r], act)[0] == r
  {
    assert ([r] + rules)[1..] == rules;
  }

  lemma DropRuleCons(r: Rule, rules: seq<Rule>, id: RuleId)
    ensures DropRule([r] + rules, id) == (if r.id == id then [] else [r]) + DropRule(rules, id)
  {
    assert ([r] + rules)[1..] == rules;
  }

  lemma {:induction false} ChangeIsLocal(owner: Owner, rules: seq<Owned<Rule>>, act: UserAct, b: AccId)
    requires act.UpdateRule? || act.ToggleRule?
    requires forall r :: r in rules ==> owner(r.value.id) == r.acc
    ensures OwnedBy(ChangeShared(rules, act), b) ==
            if owner(act.ruleId) == b then ChangeRule(OwnedBy(rules, b), act) else OwnedBy(rules, b)
  {
    if rules == [] {
      assert OwnedBy<Rule>([], b) == [] && ChangeRule([], act) == [];
    } else {
      var r, rest := rules[0], rules[1..];
      ChangeIsLocal(owner, rest, act, b);
      ChangeRuleCons(r.value, OwnedBy(rest, b), act);
      OwnedByCons(r, rest, b);
      OwnedByCons(Owned(r.acc, ChangeRule([r.value], act)[0]), ChangeShared(rest, act), b);
      hide ChangeRule, OwnedBy;
      assert r in rules && [r] + rest == rules;
      assert ChangeShared(rules, act) == [Owned(r.acc, ChangeRule([r.value], act)[0])] + ChangeShared(rest, act);
      SamePrepended(r.acc == b, r.value, ChangeRule([r.value], act)[0], OwnedBy(rest, b));
    }
  }

  lemma SamePrepended<T>(mine: bool, x: T, y: T, xs: seq<T>)
    ensures mine ==> [x] + xs == (if mine then [x] else []) + xs
    ensures !mine ==> xs == (if mine then [x] else []) + xs == (if mine then [y] else []) + xs
  {
  }

  lemma {:induction false} DropIsLocal(owner: Owner, rules: seq<Owned<Rule>>, id: RuleId, b: AccId)
    requires forall r :: r in rules ==> owner(r.value.id) == r.acc
    ensures OwnedBy(DropShared(rules, id), b) ==
            if owner(id) == b then DropRule(OwnedBy(rules, b), id) else OwnedBy(rules, b)
  {
    if rules == [] {
      assert OwnedBy<Rule>([], b) == [] && DropRule([], id) == [];
    } else {
      var r, rest := rules[0], rules[1..];
      DropIsLocal(owner, rest, id, b);
      DropRuleCons(r.value, OwnedBy(rest, b), id);
      OwnedByCons(r, rest, b);
      OwnedByCons(r, DropShared(rest, id), b);
      hide DropRule, OwnedBy;
      assert r in rules && [r] + rest == rules;
      assert DropShared(rules, id) == (if r.value.id == id then DropShared(rest, id) else [r] + DropShared(rest, id));
      SamePrepended(r.acc == b, r.value, r.value, OwnedBy(rest, b));
      SamePrepended(r.acc == b, r.value, r.value, OwnedBy(DropShared(rest, id), b));
    }
  }

  lemma {:induction false} ForgetIsLocal(owner: Owner, log: seq<Owned<LogRow>>, id: RuleId, b: AccId)
    requires forall row :: row in log && row.value.rule.Some? ==> owner(row.value.rule.value) == row.acc
    ensures OwnedBy(ForgetShared(log, id), b) ==
            if owner(id) == b then ForgetRule(OwnedBy(log, b), id) else OwnedBy(log, b)
  {
    if log == [] {
      assert OwnedBy<LogRow>([], b) == [] && ForgetRule([], id) == [];
    } else {
      var row, rest := log[0], log[1..];
      ForgetIsLocal(owner, rest, id, b);
      ForgetRuleCons(row.value, OwnedBy(rest, b), id);
      OwnedByCons(row, rest, b);
      OwnedByCons(Owned(row.acc, ForgetRule([row.value], id)[0]), ForgetShared(rest, id), b);
      hide ForgetRule, OwnedBy;
      assert row in log && [row] + rest == log;
      assert ForgetShared(log, id) == [Owned(row.acc, ForgetRule([row.value], id)[0])] + ForgetShared(rest, id);
      SamePrepended(row.acc == b, row.value, ForgetRule([row.value], id)[0], OwnedBy(rest, b));
    }
  }

  lemma ForgetRuleCons(row: LogRow, log: seq<LogRow>, id: RuleId)
    ensures ForgetRule([row] + log, id) == [ForgetRule([row], id)[0]] + ForgetRule(log, id)
    ensures row.rule != Some(id) ==> ForgetRule([row], id)[0] == row
  {
  }

  lemma ActIsLocal(owner: Owner, w: World, a: AccId, act: UserAct, b: AccId)
    requires Present(w, a) && Present(w, b) && Partitioned(owner, w) && Own(owner, Turn(a, Acted(act)))
    ensures ViewOf(UserStep(w, a, act), b) == if a == b then LocalAct(ViewOf(w, a), act) else ViewOf(w, b)
    ensures Partitioned(owner, UserStep(w, a, act))
  {
    hide OwnedBy, ChangeShared, DropShared, ForgetShared, ChangeRule, DropRule, ForgetRule, OwnsPc;
    match act
    case UpdateRule(_, _, _, _) => ChangeIsLocal(owner, w.rules, act, b);
    case ToggleRule(_) => ChangeIsLocal(owner, w.rules, act, b);
    case DeleteRule(id) =>
      DropIsLocal(owner, w.rules, id, b);
      ForgetIsLocal(owner, w.log, id, b);
    case AddRule(rule) =>
      OwnedByCons(Owned(a, rule.(active := true)), w.rules, b);
      assert [] + OwnedBy(w.rules, b) == OwnedBy(w.rules, b);
    case _ =>
  }

  lemma TurnIsLocal(owner: Owner, w: World, t: Turn, b: AccId)
    requires Present(w, t.acc) && Present(w, b) && Partitioned(owner, w) && Own(owner, t)
    ensures ViewOf(TurnStep(w, t), b) == if t.acc == b then LocalTurn(ViewOf(w, b), t.event) else ViewOf(w, b)
    ensures Partitioned(owner, TurnStep(w, t))
  {
    hide WorldStep, UserStep, LocalStep, LocalAct, Partitioned, Own, ViewOf;
    match t.event
    case Answered(resp) =>
      StepIsLocal(owner, w, t.acc, resp, b);
      StepPartitioned(owner, w, t.acc, resp);
    case Acted(act) => ActIsLocal(owner, w, t.acc, act, b);
  }

  // ---------- Results ----------

  /** Whatever the interleaving, what becomes of an account is what its own goroutine and user do on its own part. */
  lemma {:induction false} ProjectRun(owner: Owner, w: World, turns: seq<Turn>, a: AccId)
    requires Schedules(owner, w, turns) && Present(w, a) && Partitioned(owner, w)
    ensures Partitioned(owner, RunWorld(owner, w, turns))
    ensures ViewOf(RunWorld(owner, w, turns), a) == RunLocal(ViewOf(w, a), Only(turns, a))
    decreases turns
  {
    if turns != [] {
      hide TurnStep, LocalTurn, ViewOf, Partitioned, Own;
      var t := turns[0];
      TurnIsLocal(owner, w, t, a);
      ProjectRun(owner, TurnStep(w, t), turns[1..], a);
      if t.acc == a {
        assert Only(turns, a) == [t.event] + Only(turns[1..], a);
        assert ([t.event] + Only(turns[1..], a))[1..] == Only(turns[1..], a);
      } else {
        assert Only(turns, a) == [] + Only(turns[1..], a) == Only(turns[1..], a);
      }
    }
  }

  /** The same turns, regrouped: all of the first account, then all of the second, and so on. */
  function Sequential(turns: seq<Turn>, accs: seq<AccId>): seq<Turn> {
    if accs == [] then []
    else Pick(turns, accs[0]) + Sequential(turns, accs[1..])
  }

  function Pick(turns: seq<Turn>, a: AccId): (r: seq<Turn>)
    ensures forall t :: t in r ==> t in turns && t.acc == a
  {
    if turns == [] then []
    else (if turns[0].acc == a then [turns[0]] else []) + Pick(turns[1..], a)
  }

  lemma {:induction false} OnlyConcat(x: seq<Turn>, y: seq<Turn>, a: AccId)
    ensures Only(x + y, a) == Only(x, a) + Only(y, a)
  {
    if x == [] {
      assert x + y == y;
    } else {
      var head := if x[0].acc == a then [x[0].event] else [];
      assert (x + y)[0] == x[0] && (x + y)[1..] == x[1..] + y;
      OnlyConcat(x[1..], y, a);
      assert Only(x + y, a) == head + (Only(x[1..], a) + Only(y, a)) && Only(x, a) == head + Only(x[1..], a);
    }
  }

  lemma {:induction false} OnlyPick(turns: seq<Turn>, b: AccId, a: AccId)
    ensures Only(Pick(turns, b), a) == if a == b then Only(turns, a) else []
  {
    if turns != [] {
      OnlyPick(turns[1..], b, a);
      OnlyConcat(if turns[0].acc == b then [turns[0]] else [], Pick(turns[1..], b), a);
    }
  }

  lemma {:induction false} OnlySequential(turns: seq<Turn>, accs: seq<AccId>, a: AccId)
    requires forall i, j :: 0 <= i < j < |accs| ==> accs[i] != accs[j]
    ensures Only(Sequential(turns, accs), a) == if a in accs then Only(turns, a) else []
    ensures forall t :: t in Sequential(turns, accs) ==> t in turns
  {
    if accs != [] {
      OnlySequential(turns, accs[1..], a);
      OnlyPick(turns, accs[0], a);
      OnlyConcat(Pick(turns, accs[0]), Sequential(turns, accs[1..]), a);
    }
  }

  /** Every interleaving, of goroutine steps and of users' acts, leaves every account (its row, rules, log rows,
      calendar and goroutine) as the sequential run does in which the accounts take all their turns one after the
      other. */
  lemma InterleavingIsSequential(owner: Owner, w: World, turns: seq<Turn>, accs: seq<AccId>, a: AccId)
    requires Schedules(owner, w, turns) && Partitioned(owner, w) && Present(w, a)
    requires forall i, j :: 0 <= i < j < |accs| ==> accs[i] != accs[j]
    requires forall t :: t in turns ==> t.acc in accs
    ensures Schedules(owner, w, Sequential(turns, accs))
    ensures ViewOf(RunWorld(owner, w, turns), a) == ViewOf(RunWorld(owner, w, Sequential(turns, accs)), a)
  {
    OnlySequential(turns, accs, a);
    NoTurns(turns, accs, a);
    ProjectRun(owner, w, turns, a);
    ProjectRun(owner, w, Sequential(turns, accs), a);
  }

  lemma {:induction false} NoTurns(turns: seq<Turn>, accs: seq<AccId>, a: AccId)
    requires forall t :: t in turns ==> t.acc in accs
    ensures a !in accs ==> Only(turns, a) == []
  {
    if turns != [] {
      NoTurns(turns[1..], accs, a);
    }
  }

  /** Whatever goes differently for other accounts, an account's outcome depends on its own turns only. */
  lemma FailuresStayLocal(owner: Owner, w: World, turns: seq<Turn>, others: seq<Turn>, a: AccId)
    requires Schedules(owner, w, turns) && Schedules(owner, w, others) && Partitioned(owner, w) && Present(w, a)
    requires Only(turns, a) == Only(others, a)
    ensures ViewOf(RunWorld(owner, w, turns), a) == ViewOf(RunWorld(owner, w, others), a)
  {
    ProjectRun(owner, w, turns, a);
    ProjectRun(owner, w, others, a);
  }

  // ---------- What a goroutine achieves ----------

  /** The worker's calls in a row, going as told. */
  function Calls(s: State, lucks: seq<Luck>): State
    decreases lucks
  {
    if lucks == [] then s else Calls(WorkerStep(s, lucks[0]), lucks[1..])
  }

  /** The calls make up one whole cycle: the worker comes to rest after the last of them and not before. */
  ghost predicate WholeCycle(s: State, lucks: seq<Luck>) {
    && s.pc == Idle && lucks != [] && Calls(s, lucks).pc == Idle
    && forall k :: 0 < k < |lucks| ==> Calls(s, lucks[..k]).pc != Idle
  }

  ghost predicate AllAnswered(events: seq<Event>) {
    forall e :: e in events ==> e.Answered?
  }

  function Lucks(events: seq<Event>): (r: seq<Luck>)
    requires forall e :: e in events ==> e.Answered?
    ensures |r| == |events| && forall i :: 0 <= i < |r| ==> r[i] == events[i].resp.luck
  {
    seq(|events|, i requires 0 <= i < |events| => events[i].resp.luck)
  }

  lemma {:induction false} FinishedStays(v: View, events: seq<Event>)
    requires v.proc == Finished && AllAnswered(events)
    ensures RunLocal(v, events) == v
    decreases events
  {
    if events != [] {
      assert events[0] in events;
      FinishedStays(v, events[1..]);
    }
  }

  /** What is left of a goroutine that is amid its calendar: the rest of the cycle, and the stamp. */
  lemma {:induction false} CalendarPart(v: View, pc: Pc, events: seq<Event>) returns (n: nat)
    requires v.proc == InCalendar(pc) && v.state.pc == Idle && AllAnswered(events)
    requires RunLocal(v, events).proc == Finished
    ensures 0 < n < |events|
    ensures var s, lucks, t := v.state.(pc := pc), Lucks(events), RunLocal(v, events);
            && t.state == Calls(s, lucks[..n]) && t.state.pc == Idle
            && (forall k :: 0 < k < n ==> Calls(s, lucks[..k]).pc != Idle)
            && t.account == if lucks[n].Bad? then v.account else v.account.(lastChecked := Some(events[n].resp.now))
    decreases events
  {
    assert events != [] && events[0] in events;
    var s, lucks := v.state.(pc := pc), Lucks(events);
    var v', rest := LocalTurn(v, events[0]), events[1..];
    var s' := WorkerStep(s, lucks[0]);
    LocalIsWorkerStep(v, pc, events[0].resp);
    assert Lucks(rest) == lucks[1..];
    if s'.pc == Idle {
      n := 1;
      assert lucks[..1][1..] == [];
      assert rest != [] && rest[0] in rest && rest[0] == events[1] && lucks[1] == events[1].resp.luck;
      FinishedStays(LocalTurn(v', rest[0]), rest[1..]);
    } else {
      var m := CalendarPart(v', s'.pc, rest);
      n := m + 1;
      assert s' == v'.state.(pc := s'.pc);
      forall k | 0 < k <= n ensures Calls(s, lucks[..k]) == Calls(s', lucks[1..][..k - 1]) {
        assert lucks[..k][1..] == lucks[1..][..k - 1];
      }
      assert lucks[1..][..0] == [];
      forall k | 0 < k < n ensures Calls(s, lucks[..k]).pc != Idle {
      }
    }
  }

  lemma LocalIsWorkerStep(v: View, pc: Pc, resp: Response)
    requires v.proc == InCalendar(pc) && v.state.pc == Idle
    ensures var s', v' := WorkerStep(v.state.(pc := pc), resp.luck), LocalStep(v, resp);
            v' == v.(state := s'.(pc := Idle), proc := if s'.pc == Idle then Stamping else InCalendar(s'.pc))
  {
    hide SlotOf, Listing, HasLog, Clash, Settle, AppendLog, InsertSorted, ReminderItem;
  }

  lemma {:induction false} CalmCalls(s: State, lucks: seq<Luck>)
    requires Settled(s.pc) && Calls(s, lucks).pc == Idle
    requires forall k :: 0 <= k < |lucks| ==> lucks[k].Good? && Calls(s, lucks[..k]).pc != Idle
    ensures Calls(s, lucks) == CalmFinish(s)
    decreases lucks
  {
    if lucks != [] {
      hide WorkerStep, CalmFinish;
      assert lucks[..0] == [] && Calls(s, lucks[..0]) == s;
      CalmStep(s);
      forall k | 0 <= k < |lucks| - 1 ensures Calls(WorkerStep(s, lucks[0]), lucks[1..][..k]).pc != Idle {
        assert lucks[..k + 1][1..] == lucks[1..][..k];
        assert Calls(s, lucks[..k + 1]).pc != Idle;
      }
      CalmCalls(WorkerStep(s, lucks[0]), lucks[1..]);
    }
  }

  /** A whole cycle in which all goes well is the calm cycle; without rules it is over once they are read. */
  lemma CalmWholeCycle(s: State, lucks: seq<Luck>)
    requires WholeCycle(s, lucks) && forall k :: 0 <= k < |lucks| ==> lucks[k].Good?
    ensures Calls(s, lucks) == CalmCycle(s)
    ensures s.rules == [] ==> |lucks| == 1
  {
    var t := WorkerStep(s, Good);
    assert lucks[..1][1..] == [] && Calls(s, lucks[..1]) == t;
    forall k | 0 <= k < |lucks| - 1 ensures Calls(t, lucks[1..][..k]).pc != Idle {
      assert lucks[..k + 1][1..] == lucks[1..][..k];
      assert Calls(s, lucks[..k + 1]).pc != Idle;
    }
    CalmCalls(t, lucks[1..]);
    if s.rules == [] {
      NoRulesNoPairs(Listing(s.cal));
    }
  }

  lemma NoRulesNoPairs(items: seq<Item>)
    ensures Worklist(items, []) == []
  {
  }

  /** What becomes of an account whose goroutine runs from start to finish. Without a valid token nothing happens
      but what asking for one does to the row. With one, the calendar part is one whole cycle, whatever the calls
      answer, and then the row is stamped unless that fails; and if all calls go well, calendar, log and insertions
      are those of the calm cycle. */
  lemma GoroutineDoes(v: View, events: seq<Event>) returns (n: nat)
    requires v.proc == NeedToken && v.state.pc == Idle && AllAnswered(events) && RunLocal(v, events).proc == Finished
    ensures events != []
    ensures var t := RunLocal(v, events);
            var (row, answer) := Accounts.ValidToken(v.config, v.account, events[0].resp.call);
            if answer.Err? then t.state == v.state && t.account == row && t.account.lastChecked == v.account.lastChecked
            else
              && 0 < n < |events| - 1
              && WholeCycle(v.state, Lucks(events[1..])[..n]) && t.state == Calls(v.state, Lucks(events[1..])[..n])
              && t.account == (if events[n + 1].resp.luck.Bad? then row
                               else row.(lastChecked := Some(events[n + 1].resp.now)))
              && ((forall e :: e in events ==> e.resp.luck.Good?) ==> t.state == CalmCycle(v.state))
  {
    assert events[0] in events;
    n := 0;
    var v', rest := LocalTurn(v, events[0]), events[1..];
    var (row, answer) := Accounts.ValidToken(v.config, v.account, events[0].resp.call);
    TokenKeepsStamp(v.config, v.account, events[0].resp.call);
    hide Accounts.ValidToken;
    if answer.Err? {
      FinishedStays(v', rest);
    } else {
      n := CalendarPart(v', Idle, rest);
      var lucks := Lucks(rest)[..n];
      assert v'.state == v.state && v.state.(pc := Idle) == v.state;
      forall k | 0 < k < n ensures Calls(v.state, lucks[..k]).pc != Idle {
        assert lucks[..k] == Lucks(rest)[..k];
      }
      assert rest[n] == events[n + 1] && Lucks(rest)[n] == events[n + 1].resp.luck;
      if forall e :: e in events ==> e.resp.luck.Good? {
        forall k | 0 <= k < n ensures lucks[k].Good? {
          assert rest[k] in events;
        }
        CalmWholeCycle(v.state, lucks);
      }
    }
  }

  lemma TokenKeepsStamp(config: Accounts.Config, row: Accounts.Row, call: Accounts.TokenCall)
    ensures Accounts.ValidToken(config, row, call).0.lastChecked == row.lastChecked
  {
  }

  // ---------- Every goroutine finishes ----------

  const CALLS_PER_PAIR := 4

  /** A bound on the steps a goroutine still has to take. */
  function Budget(v: View): nat {
    match v.proc
    case NeedToken => CALLS_PER_PAIR * LISTING_SIZE * |v.state.rules| + 4
    case InCalendar(Idle) => CALLS_PER_PAIR * LISTING_SIZE * |v.state.rules| + 3
    case InCalendar(Fetched(rs)) => CALLS_PER_PAIR * LISTING_SIZE * |rs| + 2
    case InCalendar(Visit(stage, _, rest)) =>
      CALLS_PER_PAIR * |rest| + 1 +
      (match stage case CheckLog => 4 case CheckExists => 3 case Inserting => 2 case Logging(_, _) => 1)
    case Stamping => 1
    case Finished => 0
  }

  lemma {:induction false} WorklistSize(items: seq<Item>, rules: seq<Rule>)
    ensures |Worklist(items, rules)| <= |items| * |rules|
  {
    if items != [] {
      WorklistSize(items[1..], rules);
      PairsOfSize(items[0], rules);
      MulSucc(|items[1..]|, |rules|);
    }
  }

  lemma MulSucc(n: nat, m: nat)
    ensures (n + 1) * m == n * m + m
  {
  }

  lemma {:induction false} PairsOfSize(item: Item, rules: seq<Rule>)
    ensures |PairsOf(item, rules)| == |rules|
  {
    if rules != [] {
      PairsOfSize(item, rules[1..]);
    }
  }

  lemma {:induction false} SettleShrinks(work: seq<Pair>)
    ensures !Settle(work).Fetched?
    ensures Settle(work).Visit? ==> Settle(work).stage == CheckLog && |Settle(work).rest| < |work|
  {
    if work != [] && !Fires(work[0]) {
      SettleShrinks(work[1..]);
    }
  }

  lemma BudgetAfterSettle(v: View, work: seq<Pair>)
    requires v.proc == AfterCalendar(Settle(work))
    ensures Budget(v) <= CALLS_PER_PAIR * |work| + 1
  {
    SettleShrinks(work);
  }

  lemma ListingProgresses(v: View, resp: Response)
    requires v.proc.InCalendar? && v.proc.pc.Fetched? && resp.luck.Good?
    ensures Budget(LocalStep(v, resp)) < Budget(v)
  {
    var rs, items := v.proc.pc.rules, Listing(v.state.cal);
    WorklistSize(items, rs);
    MulMono(|items|, LISTING_SIZE, |rs|);
    BudgetAfterSettle(LocalStep(v, resp), Worklist(items, rs));
  }

  lemma MulMono(n: nat, k: nat, m: nat)
    requires n <= k
    ensures n * m <= k * m
  {
  }

  lemma VisitProgresses(v: View, resp: Response)
    requires v.proc.InCalendar? && v.proc.pc.Visit?
    ensures Budget(LocalStep(v, resp)) < Budget(v)
  {
    var t := LocalStep(v, resp);
    if t.proc == AfterCalendar(Settle(v.proc.pc.rest)) {
      BudgetAfterSettle(t, v.proc.pc.rest);
    }
  }

  /** Each step uses up some of the budget. */
  lemma StepProgresses(v: View, resp: Response)
    requires v.proc != Finished
    ensures Budget(LocalStep(v, resp)) < Budget(v)
  {
    if v.proc.InCalendar? {
      match v.proc.pc
      case Idle =>
      case Fetched(rs) =>
        if resp.luck.Good? {
          ListingProgresses(v, resp);
        }
      case Visit(_, _, _) =>
        VisitProgresses(v, resp);
    }
  }

  function TotalBudget(w: World, accs: seq<AccId>): nat
    requires forall a :: a in accs ==> Present(w, a)
  {
    if accs == [] then 0 else Budget(ViewOf(w, accs[0])) + TotalBudget(w, accs[1..])
  }

  lemma {:induction false} TotalProgresses(owner: Owner, w: World, accs: seq<AccId>, a: AccId, resp: Response)
    requires Present(w, a) && Partitioned(owner, w) && forall b :: b in accs ==> Present(w, b)
    requires w.procs[a] != Finished
    ensures TotalBudget(WorldStep(w, a, resp), accs) <= TotalBudget(w, accs)
    ensures a in accs ==> TotalBudget(WorldStep(w, a, resp), accs) < TotalBudget(w, accs)
  {
    if accs != [] {
      TotalProgresses(owner, w, accs[1..], a, resp);
      StepIsLocal(owner, w, a, resp, accs[0]);
      StepProgresses(ViewOf(w, a), resp);
    }
  }

  lemma {:induction false} RunSnoc(owner: Owner, w: World, turns: seq<Turn>, t: Turn)
    requires Schedules(owner, w, turns) && Present(w, t.acc) && Own(owner, t)
    ensures Schedules(owner, w, turns + [t])
    ensures RunWorld(owner, w, turns + [t]) == TurnStep(RunWorld(owner, w, turns), t)
    decreases turns
  {
    if turns == [] {
      assert [] + [t] == [t];
    } else {
      assert (turns + [t])[1..] == turns[1..] + [t];
      RunSnoc(owner, TurnStep(w, turns[0]), turns[1..], t);
    }
  }

  lemma RunNone(owner: Owner, w: World)
    ensures RunWorld(owner, w, []) == w
  {
  }

  lemma StepKeepsOthers(w: World, a: AccId, resp: Response)
    requires Present(w, a)
    ensures WorldStep(w, a, resp).procs == w.procs[a := WorldStep(w, a, resp).procs[a]]
  {
  }

  /** The tables with one fresh goroutine for each active account. */
  function Spawned(w: World): World {
    w.(procs := map a | a in w.accounts :: if w.accounts[a].status == Accounts.Active then NeedToken else Finished)
  }

  /** The account's own part of the tables: events, insertions and log. */
  function PartOf(w: World, a: AccId): (Calendar, seq<LogRow>)
    requires a in w.calendars
  {
    (w.calendars[a], OwnedBy(w.log, a))
  }

  /** What a cycle of the worker means for one account. An inactive one is left alone, and so are calendar, log and
      stamp of an active one without a valid token. With a valid token and all calls going well, calendar, log and
      insertions are those of the calm cycle, and the row is stamped. */
  ghost predicate Checked(w: World, u: World, a: AccId, events: seq<Event>)
    requires a in w.accounts && a in w.calendars
  {
    && a in u.accounts && a in u.calendars && AllAnswered(events)
    && if w.accounts[a].status != Accounts.Active then u.accounts[a] == w.accounts[a] && PartOf(u, a) == PartOf(w, a)
       else
         && events != []
         && var (row, answer) := Accounts.ValidToken(w.config, w.accounts[a], events[0].resp.call);
         && (answer.Err? ==>
               u.accounts[a] == row && row.lastChecked == w.accounts[a].lastChecked && PartOf(u, a) == PartOf(w, a))
         && (answer.Ok? && (forall e :: e in events ==> e.resp.luck.Good?) ==>
               var c := w.calendars[a];
               var t := CalmCycle(State(c.items, c.next, OwnedBy(w.rules, a), 0, OwnedBy(w.log, a), c.made, Idle));
               && PartOf(u, a) == (Calendar(t.cal, t.next, t.made), t.log)
               && exists e :: e in events && u.accounts[a] == row.(lastChecked := Some(e.resp.now)))
  }

  lemma AccountChecked(owner: Owner, w: World, turns: seq<Turn>, a: AccId)
    requires Partitioned(owner, Spawned(w)) && w.accounts.Keys <= w.calendars.Keys && a in w.accounts
    requires Schedules(owner, Spawned(w), turns)
    requires forall t :: t in turns ==> t.event.Answered? && w.accounts[t.acc].status == Accounts.Active
    requires var u := RunWorld(owner, Spawned(w), turns);
             a in u.procs && u.procs[a] == Finished
    ensures Checked(w, RunWorld(owner, Spawned(w), turns), a, Only(turns, a))
  {
    var w0, events := Spawned(w), Only(turns, a);
    hide WorldStep, UserStep, Accounts.ValidToken, CalmCycle;
    ProjectRun(owner, w0, turns, a);
    OnlyAnswers(turns, a);
    var v := ViewOf(w0, a);
    if w.accounts[a].status == Accounts.Active {
      var n := GoroutineDoes(v, events);
      TokenKeepsStamp(w.config, w.accounts[a], events[0].resp.call);
      if Accounts.ValidToken(w.config, w.accounts[a], events[0].resp.call).1.Ok? {
        assert events[n + 1] in events;
      }
    } else {
      NoTurnsOf(turns, a);
    }
  }

  lemma {:induction false} OnlyAnswers(turns: seq<Turn>, a: AccId)
    requires forall t :: t in turns ==> t.event.Answered?
    ensures AllAnswered(Only(turns, a))
  {
    if turns != [] {
      OnlyAnswers(turns[1..], a);
    }
  }

  lemma {:induction false} NoTurnsOf(turns: seq<Turn>, a: AccId)
    requires forall t :: t in turns ==> t.acc != a
    ensures Only(turns, a) == []
  {
    if turns != [] {
      NoTurnsOf(turns[1..], a);
    }
  }

  class Worker {
    var w: World

    constructor (w: World)
      ensures this.w == w
    {
      this.w := w;
    }

    /** One cycle: a goroutine per active account, scheduled in any order and answered in any way, then the join. */
    method CheckAccounts(ghost owner: Owner) returns (ghost turns: seq<Turn>)
      requires Partitioned(owner, w) && w.accounts.Keys <= w.calendars.Keys
      modifies this
      ensures Schedules(owner, Spawned(old(w)), turns) && w == RunWorld(owner, Spawned(old(w)), turns)
      ensures forall a :: a in w.procs ==> w.procs[a] == Finished
      ensures forall a :: a in old(w).accounts ==> Checked(old(w), w, a, Only(turns, a))
      ensures forall t :: t in turns ==> t.event.Answered? && old(w).accounts[t.acc].status == Accounts.Active
      ensures Partitioned(owner, w)
    {
      hide WorldStep, RunWorld, Budget, TotalBudget;
      var active := Accounts.ActiveAccounts(w.accounts);
      w := Spawned(w);
      ghost var w0 := w;
      turns := [];
      RunNone(owner, w);
      var waiting: set<AccId> := set a | a in active;
      while waiting != {}
        invariant Schedules(owner, w0, turns) && w == RunWorld(owner, w0, turns) && Partitioned(owner, w)
        invariant forall t :: t in turns ==> t.acc in active && t.event.Answered?
        invariant forall a :: Present(w, a) <==> Present(w0, a)
        invariant w.procs.Keys == w0.procs.Keys
        invariant forall a :: a in w.procs ==> (a in waiting <==> w.procs[a] != Finished)
        invariant forall a :: a in waiting ==> a in active
        decreases TotalBudget(w, active)
      {
        var a :| a in waiting;
        var resp: Response := *;
        TotalProgresses(owner, w, active, a, resp);
        StepPartitioned(owner, w, a, resp);
        StepKeepsOthers(w, a, resp);
        RunSnoc(owner, w0, turns, Turn(a, Answered(resp)));
        turns := turns + [Turn(a, Answered(resp))];
        w := WorldStep(w, a, resp);
        if w.procs[a] == Finished {
          waiting := waiting - {a};
        }
      }
      forall a | a in old(w).accounts ensures Checked(old(w), w, a, Only(turns, a)) {
        AccountChecked(owner, old(w), turns, a);
      }
    }
  }
}
