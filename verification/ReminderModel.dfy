/** The calendar reminder engine: entities, arithmetic, the worker as an automaton that asks one
    question at a time, the services that answer it, and the users that act in between. */
module ReminderModel {
  import opened Text
  import opened Wrappers

  // ---------- Time ----------

  const NANOS_PER_SECOND := 1_000_000_000
  const NANOS_PER_MINUTE := 60 * NANOS_PER_SECOND
  const TWO_63 := 0x8000_0000_0000_0000
  const TWO_64 := 0x1_0000_0000_0000_0000

  // Seconds since the epoch of 1970-01-01 and 2100-01-01, the bounds of the main listing.
  const LISTING_MIN := 0
  const LISTING_MAX := 4_102_444_800
  const LISTING_SIZE := 2500

  /** Printing a time with RFC 3339 drops the fraction of a second; division here rounds down. */
  function FloorSeconds(nanos: int): (seconds: int)
    ensures seconds * 1_000_000_000 <= nanos < (seconds + 1) * 1_000_000_000
  {
    nanos / NANOS_PER_SECOND
  }

  /** The 64-bit integer that differs by a multiple of two to the 64. */
  function WrapInt64(x: int): (r: int)
    ensures -0x8000_0000_0000_0000 <= r < 0x8000_0000_0000_0000 && (x - r) % 0x1_0000_0000_0000_0000 == 0
  {
    (x + TWO_63) % TWO_64 - TWO_63
  }

  /** A minute count as a 64-bit duration in nanoseconds, wrapping around as the product does. */
  function MinutesToNanos(minutes: int): int {
    WrapInt64(minutes * NANOS_PER_MINUTE)
  }

  // ---------- Entities ----------

  type EventId = nat
  type RuleId = nat

  /** A calendar event. `start` and `end` are the seconds by which the provider filters and orders;
      `startTime` is what parsing the start's date-time yields, in nanoseconds (None: all-day or malformed). */
  datatype Item = Item(id: EventId, summary: string, description: string, location: string,
                       start: int, end: int, startTime: Option<int>)

  datatype Trigger = Trigger(summaryEquals: string, summaryContains: seq<string>, locationContains: seq<string>)

  datatype Action = Action(offsetMinutes: int, newEventTitle: string, durationMin: int)

  /** `trigger` and `action` are None when the stored JSON does not decode. */
  datatype Rule = Rule(id: RuleId, name: string, active: bool, trigger: Option<Trigger>, action: Option<Action>)

  datatype Pair = Pair(item: Item, rule: Rule)

  /** The reminder a pair asks for: title, first and last second. */
  datatype Slot = Slot(title: string, lo: int, hi: int)

  datatype Status = Success | Failure | Skipped

  /** A log row; `rule` is None once the rule is deleted (the foreign key is set to null). */
  datatype LogRow = LogRow(rule: Option<RuleId>, status: Status, event: EventId, created: Option<EventId>)

  /** The largest number of minutes whose duration fits in 64-bit nanoseconds. */
  const MAX_MINUTES := 153_722_867

  /** The reminders the action asks for, if it is usable, do not end before they start. */
  predicate OrdinaryAction(action: Option<Action>) {
    action.Some? ==> 0 <= action.value.durationMin <= MAX_MINUTES
  }

  // ---------- Triggers ----------

  predicate SummaryMatches(summary: string, t: Trigger) {
    || (t.summaryEquals != "" && summary == t.summaryEquals)
    || exists part | part in t.summaryContains :: Contains(summary, part)
  }

  predicate LocationMatches(location: string, t: Trigger) {
    || t.locationContains == []
    || exists part | part in t.locationContains :: Contains(ToLower(location), ToLower(part))
  }

  predicate Fires(p: Pair) {
    && p.rule.active
    && p.rule.trigger.Some?
    && SummaryMatches(p.item.summary, p.rule.trigger.value)
    && LocationMatches(p.item.location, p.rule.trigger.value)
  }

  /** The action decodes, has a title, and the event has a start time. */
  predicate Ready(p: Pair) {
    p.rule.action.Some? && p.rule.action.value.newEventTitle != "" && p.item.startTime.Some?
  }

  // ---------- Reminders ----------

  const REMINDER_PREFIX := "Automatische reminder voor:"

  predicate IsReminder(item: Item) {
    REMINDER_PREFIX <= item.description
  }

  function EffectiveOffset(a: Action): int {
    if a.offsetMinutes == 0 then -60 else a.offsetMinutes
  }

  function EffectiveDuration(a: Action): int {
    if a.durationMin == 0 then 5 else a.durationMin
  }

  function SlotAt(start: int, a: Action): Slot {
    var reminder := start + MinutesToNanos(EffectiveOffset(a));
    var end := reminder + MinutesToNanos(EffectiveDuration(a));
    Slot(a.newEventTitle, FloorSeconds(reminder), FloorSeconds(end))
  }

  function SlotOf(p: Pair): Slot {
    if Ready(p) then SlotAt(p.item.startTime.value, p.rule.action.value) else Slot("", 0, 0)
  }

  function ReminderItem(id: EventId, p: Pair): Item {
    var slot := SlotOf(p);
    Item(id, slot.title,
         REMINDER_PREFIX + " " + p.item.summary + "\nGemaakt door regel: " + p.rule.name,
         "", slot.lo, slot.hi, Some(slot.lo * NANOS_PER_SECOND))
  }

  /** Whatever the event and the rule are called, the worker recognises its own reminder. */
  lemma ReminderCarriesPrefix(id: EventId, p: Pair)
    ensures IsReminder(ReminderItem(id, p))
  {
    var d := ReminderItem(id, p).description;
    assert d == REMINDER_PREFIX + (" " + p.item.summary + "\nGemaakt door regel: " + p.rule.name);
  }

  // ---------- The calendar service ----------

  /** The provider's time filter, exclusive at both ends. */
  predicate InWindow(x: Item, timeMin: int, timeMax: int) {
    x.end > timeMin && x.start < timeMax
  }

  predicate Clashes(x: Item, slot: Slot) {
    x.summary == slot.title && InWindow(x, slot.lo - 60, slot.hi + 60)
  }

  predicate Clash(cal: seq<Item>, slot: Slot) {
    exists x | x in cal :: Clashes(x, slot)
  }

  /** The calendar is a sequence in listing order; a new event goes behind those that start no later. */
  function InsertSorted(cal: seq<Item>, x: Item): (r: seq<Item>)
    ensures forall y :: y in r <==> y == x || y in cal
  {
    if cal == [] then [x]
    else if x.start < cal[0].start then [x] + cal
    else [cal[0]] + InsertSorted(cal[1..], x)
  }

  function Without(cal: seq<Item>, id: EventId): (r: seq<Item>)
    ensures forall y :: y in r <==> y in cal && y.id != id
  {
    if cal == [] then []
    else if cal[0].id == id then Without(cal[1..], id)
    else [cal[0]] + Without(cal[1..], id)
  }

  predicate HasId(cal: seq<Item>, id: EventId) {
    exists x | x in cal :: x.id == id
  }

  function Visible(cal: seq<Item>): (r: seq<Item>)
    ensures forall y :: y in r <==> y in cal && InWindow(y, LISTING_MIN, LISTING_MAX)
  {
    if cal == [] then []
    else if InWindow(cal[0], LISTING_MIN, LISTING_MAX) then [cal[0]] + Visible(cal[1..])
    else Visible(cal[1..])
  }

  function Take<T>(xs: seq<T>, n: nat): seq<T> {
    if |xs| <= n then xs else xs[..n]
  }

  function Listing(cal: seq<Item>): seq<Item> {
    Take(Visible(cal), LISTING_SIZE)
  }

  // ---------- The log store ----------

  predicate HasLog(log: seq<LogRow>, rule: RuleId, event: EventId) {
    exists row | row in log :: row.rule == Some(rule) && row.status == Success && row.event == event
  }

  predicate RuleExists(rules: seq<Rule>, id: RuleId) {
    exists r | r in rules :: r.id == id
  }

  /** A row may only name a rule that exists; otherwise the insert is rejected. */
  function AppendLog(log: seq<LogRow>, rules: seq<Rule>, row: LogRow): seq<LogRow> {
    if row.rule.Some? && !RuleExists(rules, row.rule.value) then log else log + [row]
  }

  function ForgetRule(log: seq<LogRow>, id: RuleId): (r: seq<LogRow>)
    ensures |r| == |log|
    ensures forall i :: 0 <= i < |log| ==>
      r[i] == if log[i].rule == Some(id) then log[i].(rule := None) else log[i]
  {
    seq(|log|, i requires 0 <= i < |log| => if log[i].rule == Some(id) then log[i].(rule := None) else log[i])
  }

  // ---------- The worker ----------

  /** What the worker is about to do for the pair it is visiting. */
  datatype Stage = CheckLog | CheckExists | Inserting | Logging(status: Status, created: Option<EventId>)

  datatype Pc =
    | Idle
    | Fetched(rules: seq<Rule>)
    | Visit(stage: Stage, cur: Pair, rest: seq<Pair>)

  function PairsOf(item: Item, rules: seq<Rule>): (r: seq<Pair>)
    ensures forall p :: p in r <==> p.item == item && p.rule in rules
  {
    if rules == [] then [] else [Pair(item, rules[0])] + PairsOf(item, rules[1..])
  }

  /** Events in listing order, each with all rules; the worker's own reminders are passed over. */
  function Worklist(items: seq<Item>, rules: seq<Rule>): (r: seq<Pair>)
    ensures forall p :: p in r <==> p.item in items && !IsReminder(p.item) && p.rule in rules
  {
    if items == [] then []
    else (if IsReminder(items[0]) then [] else PairsOf(items[0], rules)) + Worklist(items[1..], rules)
  }

  /** Pass over the pairs that need no outside call, up to the next one that does. */
  function Settle(work: seq<Pair>): Pc {
    if work == [] then Idle
    else if Fires(work[0]) then Visit(CheckLog, work[0], work[1..])
    else Settle(work[1..])
  }

  datatype Query =
    | FetchRules
    | ListEvents
    | AskLog(rule: RuleId, event: EventId)
    | AskExists(slot: Slot)
    | Insert(pair: Pair)
    | WriteLog(row: LogRow)

  datatype Reply = Failed | GotRules(rules: seq<Rule>) | GotEvents(items: seq<Item>)
                 | Found(yes: bool) | Created(id: EventId) | Written

  function Ask(pc: Pc): Query {
    match pc
    case Idle => FetchRules
    case Fetched(_) => ListEvents
    case Visit(CheckLog, p, _) => AskLog(p.rule.id, p.item.id)
    case Visit(CheckExists, p, _) => AskExists(SlotOf(p))
    case Visit(Inserting, p, _) => Insert(p)
    case Visit(Logging(status, created), p, _) => WriteLog(LogRow(Some(p.rule.id), status, p.item.id, created))
  }

  /** A failed log check or existence check counts as "not found". */
  function Resume(pc: Pc, reply: Reply): Pc {
    match pc
    case Idle => if reply.GotRules? && reply.rules != [] then Fetched(reply.rules) else Idle
    case Fetched(rules) => if reply.GotEvents? then Settle(Worklist(reply.items, rules)) else Idle
    case Visit(CheckLog, p, rest) =>
      if reply == Found(true) || !Ready(p) then Settle(rest) else Visit(CheckExists, p, rest)
    case Visit(CheckExists, p, rest) =>
      if reply == Found(true) then Visit(Logging(Skipped, None), p, rest) else Visit(Inserting, p, rest)
    case Visit(Inserting, p, rest) =>
      if reply.Created? then Visit(Logging(Success, Some(reply.id)), p, rest)
      else Visit(Logging(Failure, None), p, rest)
    case Visit(Logging(_, _), _, rest) => Settle(rest)
  }

  // ---------- The world around one account ----------

  /** One insertion by the worker: the event created and the pair it was created for. */
  datatype Made = Made(id: EventId, pair: Pair)

  /** `made` records every insertion, in order; the program itself keeps no such list. */
  datatype State = State(cal: seq<Item>, next: EventId, rules: seq<Rule>, nextRule: RuleId,
                         log: seq<LogRow>, made: seq<Made>, pc: Pc)

  /** How an outside call goes. `Lost`: it took effect but the caller sees an error. */
  datatype Luck = Good | Bad | Lost

  function AddReminder(s: State, p: Pair): State {
    s.(cal := InsertSorted(s.cal, ReminderItem(s.next, p)), next := s.next + 1, made := s.made + [Made(s.next, p)])
  }

  function Serve(s: State, q: Query, luck: Luck): (State, Reply) {
    match q
    case FetchRules => (s, if luck.Good? then GotRules(s.rules) else Failed)
    case ListEvents => (s, if luck.Good? then GotEvents(Listing(s.cal)) else Failed)
    case AskLog(rule, event) => (s, if luck.Good? then Found(HasLog(s.log, rule, event)) else Failed)
    case AskExists(slot) => (s, if luck.Good? then Found(Clash(s.cal, slot)) else Failed)
    case Insert(p) =>
      (if luck.Bad? then s else AddReminder(s, p), if luck.Good? then Created(s.next) else Failed)
    case WriteLog(row) =>
      (if luck.Bad? then s else s.(log := AppendLog(s.log, s.rules, row)), if luck.Good? then Written else Failed)
  }

  function WorkerStep(s: State, luck: Luck): State {
    var (t, reply) := Serve(s, Ask(s.pc), luck);
    t.(pc := Resume(s.pc, reply))
  }

  // ---------- Users ----------

  datatype UserAct =
    | AddEvent(item: Item)
    | EditEvent(id: EventId, item: Item)
    | DeleteEvent(id: EventId)
    | AddRule(rule: Rule)
    | UpdateRule(ruleId: RuleId, name: string, trigger: Option<Trigger>, action: Option<Action>)
    | ToggleRule(ruleId: RuleId)
    | DeleteRule(ruleId: RuleId)

  function ChangeRule(rules: seq<Rule>, act: UserAct): (r: seq<Rule>)
    requires act.UpdateRule? || act.ToggleRule?
    ensures |r| == |rules| && forall i :: 0 <= i < |r| ==> r[i].id == rules[i].id
  {
    if rules == [] then []
    else
      var r := rules[0];
      [if r.id != act.ruleId then r
       else if act.ToggleRule? then r.(active := !r.active)
       else r.(name := act.name, trigger := act.trigger, action := act.action)] + ChangeRule(rules[1..], act)
  }

  function DropRule(rules: seq<Rule>, id: RuleId): (r: seq<Rule>)
    ensures forall x :: x in r <==> x in rules && x.id != id
  {
    if rules == [] then []
    else (if rules[0].id == id then [] else [rules[0]]) + DropRule(rules[1..], id)
  }

  function Apply(s: State, act: UserAct): State {
    match act
    case AddEvent(item) => s.(cal := InsertSorted(s.cal, item.(id := s.next)), next := s.next + 1)
    case EditEvent(id, item) =>
      if HasId(s.cal, id) then s.(cal := InsertSorted(Without(s.cal, id), item.(id := id))) else s
    case DeleteEvent(id) => s.(cal := Without(s.cal, id))
    case AddRule(rule) => s.(rules := [rule.(id := s.nextRule, active := true)] + s.rules, nextRule := s.nextRule + 1)
    case UpdateRule(_, _, _, _) => s.(rules := ChangeRule(s.rules, act))
    case ToggleRule(_) => s.(rules := ChangeRule(s.rules, act))
    case DeleteRule(id) => s.(rules := DropRule(s.rules, id), log := ForgetRule(s.log, id))
  }

  predicate DistinctItems(cal: seq<Item>) {
    forall i, j :: 0 <= i < j < |cal| ==> cal[i].id != cal[j].id
  }

  predicate DistinctRules(rules: seq<Rule>) {
    forall i, j :: 0 <= i < j < |rules| ==> rules[i].id != rules[j].id
  }

  // ---------- Runs ----------

  /** What may happen in a run besides the worker's calls going well. `OddDurations`: rules may ask for reminders that
      end before they start, and the calendar accepts those. */
  datatype Fault =
    | RulesReadFails | ListingFails | LogReadFails | LogWriteFails | ExistsReadFails | InsertFails | InsertLost
    | UsersAct | RemindersEdited | RemindersDeleted | RulesDeletedInFlight | OddDurations

  datatype Move = Work(luck: Luck) | User(act: UserAct)

  function FaultOf(q: Query, luck: Luck): Fault {
    match q
    case FetchRules => RulesReadFails
    case ListEvents => ListingFails
    case AskLog(_, _) => LogReadFails
    case AskExists(_) => ExistsReadFails
    case Insert(_) => if luck.Lost? then InsertLost else InsertFails
    case WriteLog(_) => LogWriteFails
  }

  predicate IsMade(s: State, id: EventId) {
    exists m | m in s.made :: m.id == id
  }

  /** The running cycle still holds the rule in its snapshot. */
  predicate InFlight(pc: Pc, id: RuleId) {
    match pc
    case Idle => false
    case Fetched(rules) => RuleExists(rules, id)
    case Visit(_, cur, rest) => cur.rule.id == id || exists p | p in rest :: p.rule.id == id
  }

  predicate Permits(allowed: set<Fault>, s: State, move: Move) {
    match move
    case Work(luck) => luck.Good? || FaultOf(Ask(s.pc), luck) in allowed
    case User(act) =>
      && UsersAct in allowed
      && (act.EditEvent? && IsMade(s, act.id) ==> RemindersEdited in allowed)
      && (act.DeleteEvent? && IsMade(s, act.id) ==> RemindersDeleted in allowed)
      && (act.DeleteRule? && InFlight(s.pc, act.ruleId) ==> RulesDeletedInFlight in allowed)
      && (act.AddRule? && !OrdinaryAction(act.rule.action) ==> OddDurations in allowed)
      && (act.UpdateRule? && !OrdinaryAction(act.action) ==> OddDurations in allowed)
  }

  function Do(s: State, move: Move): State {
    match move
    case Work(luck) => WorkerStep(s, luck)
    case User(act) => Apply(s, act)
  }

  function Exec(s: State, run: seq<Move>): State {
    if run == [] then s else Do(Exec(s, run[..|run| - 1]), run[|run| - 1])
  }

  predicate Legal(allowed: set<Fault>, s: State, run: seq<Move>) {
    run == [] || (var before := run[..|run| - 1];
                  Legal(allowed, s, before) && Permits(allowed, Exec(s, before), run[|run| - 1]))
  }

  /** `t` is where some permitted run from `s` ends. */
  ghost predicate Reaches(allowed: set<Fault>, s: State, t: State) {
    exists run :: Legal(allowed, s, run) && Exec(s, run) == t
  }

  /** Where every run starts: any calendar of user events, any rules, an empty log, the worker idle. */
  predicate Initial(s: State) {
    && s.log == [] && s.made == [] && s.pc == Idle
    && (forall x :: x in s.cal ==> x.id < s.next)
    && DistinctItems(s.cal)
    && (forall r :: r in s.rules ==> r.id < s.nextRule)
    && DistinctRules(s.rules)
  }

  /** The rules a run starts with are odd only where odd durations are allowed at all. */
  ghost predicate Starts(allowed: set<Fault>, s: State) {
    Initial(s) && (OddDurations in allowed || forall r :: r in s.rules ==> OrdinaryAction(r.action))
  }
}
