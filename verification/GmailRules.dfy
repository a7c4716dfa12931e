/** The Gmail rule engine on one message: rules are matched against the fetched snapshot, their actions change
    the mailbox, and what a label ends up as. */
module GmailRules {
  import opened Wrappers
  import opened Text
  import opened MailText
  import opened MimeTree

  type RuleId = nat
  type MsgId = string
  type LabelId = string

  /** A message as fetched. `bodySize` is the size of the top part's body, 0 without one. */
  datatype Message = Message(id: MsgId, thread: string, labels: seq<LabelId>, snippet: string, internalDate: int,
                             size: int, headers: seq<Header>, payload: Part, bodySize: int)

  /** Conditions and parameters are None where the stored JSON does not decode. */
  datatype Trigger = NewMessage | SenderMatch(Option<string>) | SubjectMatch(Option<string>)
                   | LabelAdded(Option<string>) | Starred | OtherTrigger

  datatype Action = AutoReply(text: Option<string>) | Forward
                  | AddLabel(name: Option<string>) | RemoveLabel(name: Option<string>)
                  | MarkRead | MarkUnread | Archive | Trash | Star | Unstar | OtherAction

  datatype Rule = Rule(id: RuleId, active: bool, priority: int, trigger: Trigger, action: Action)

  // ---------- Matching ----------

  predicate PatternIn(value: Option<string>, pattern: Option<string>) {
    value.Some? && pattern.Some? && Contains(ToLower(value.value), ToLower(pattern.value))
  }

  /** Whether a rule applies; it looks at the fetched message only. An undecodable condition never applies. */
  predicate Matches(msg: Message, rule: Rule) {
    match rule.trigger
    case NewMessage => true
    case SenderMatch(pattern) => PatternIn(GetHeader(msg.headers, "From"), pattern)
    case SubjectMatch(pattern) => PatternIn(GetHeader(msg.headers, "Subject"), pattern)
    case LabelAdded(name) => name.Some? && name.value in msg.labels
    case Starred => "STARRED" in msg.labels
    case OtherTrigger => false
  }

  /** When a rule applies: always for new messages; when the first From or Subject header holds the pattern,
      whatever the case of the letters; when the message carries the label, or the star. A condition that does not
      decode never does. */
  lemma MatchesExactly(msg: Message, rule: Rule)
    ensures Matches(msg, rule) <==>
            || rule.trigger == NewMessage
            || (exists value, pattern ::
                  FirstValue(msg.headers, "From", value) && rule.trigger == SenderMatch(Some(pattern)) &&
                  Contains(ToLower(value), ToLower(pattern)))
            || (exists value, pattern ::
                  FirstValue(msg.headers, "Subject", value) && rule.trigger == SubjectMatch(Some(pattern)) &&
                  Contains(ToLower(value), ToLower(pattern)))
            || (exists name :: rule.trigger == LabelAdded(Some(name)) && name in msg.labels)
            || (rule.trigger == Starred && "STARRED" in msg.labels)
  {
    hide Contains, ToLower, GetHeader, FirstValue;
    forall value ensures GetHeader(msg.headers, "From") == Some(value) <==> FirstValue(msg.headers, "From", value) {
      HeaderIsFirst(msg.headers, "From", value);
    }
    forall value
      ensures GetHeader(msg.headers, "Subject") == Some(value) <==> FirstValue(msg.headers, "Subject", value)
    {
      HeaderIsFirst(msg.headers, "Subject", value);
    }
  }

  // ---------- Acting ----------

  /** The mailbox: label ids by name, the labels on each message, and the replies sent (thread and text). */
  datatype Mailbox = Mailbox(dir: map<string, LabelId>, labels: map<MsgId, set<LabelId>>,
                             sent: multiset<(string, string)>)

  /** Which of the provider calls an action may need succeed. */
  datatype ActionLuck = ActionLuck(list: bool, create: bool, change: bool, send: bool)

  /** `alloc`: the id the provider gives a new label; `luck`: how the calls for each rule go. */
  datatype Provider = Provider(email: string, alloc: string -> LabelId, luck: RuleId -> ActionLuck)

  datatype Effect = NoLabel | Adds(id: LabelId) | Removes(id: LabelId)

  /** `Crash`: the program stops, as when replying to a message without a sender. */
  datatype Outcome = Success(effect: Effect) | Error | Crash

  function LabelsOf(mb: Mailbox, id: MsgId): set<LabelId> {
    if id in mb.labels then mb.labels[id] else {}
  }

  function Change(labels: set<LabelId>, effect: Effect): set<LabelId> {
    match effect
    case NoLabel => labels
    case Adds(l) => labels + {l}
    case Removes(l) => labels - {l}
  }

  /** What carrying out an action comes to, given the label directory: the directory entry it creates, if any,
      the outcome, and the reply it sends, if any. */
  datatype Plan = Plan(created: map<string, LabelId>, outcome: Outcome, replies: multiset<(string, string)>)

  function ModifyLabels(effect: Effect, ok: bool): Plan {
    Plan(map[], if ok then Success(effect) else Error, multiset{})
  }

  const NOTHING_DONE := Plan(map[], Error, multiset{})

  function PlanFor(dir: map<string, LabelId>, msg: Message, rule: Rule, p: Provider): Plan {
    var luck := p.luck(rule.id);
    match rule.action
    case AutoReply(None) => NOTHING_DONE
    case AutoReply(Some(text)) =>
      (match ReplyRaw(msg.headers, text, p.email)
       case None => Plan(map[], Crash, multiset{})
       case Some(raw) => if luck.send then Plan(map[], Success(NoLabel), multiset{(msg.thread, raw)}) else NOTHING_DONE)
    case Forward => Plan(map[], Success(NoLabel), multiset{})
    case AddLabel(None) => NOTHING_DONE
    case AddLabel(Some(name)) =>
      if !luck.list then NOTHING_DONE
      else if name in dir then ModifyLabels(Adds(dir[name]), luck.change)
      else if !luck.create then NOTHING_DONE
      else ModifyLabels(Adds(p.alloc(name)), luck.change).(created := map[name := p.alloc(name)])
    case RemoveLabel(None) => NOTHING_DONE
    case RemoveLabel(Some(name)) =>
      if !luck.list || name !in dir then NOTHING_DONE else ModifyLabels(Removes(dir[name]), luck.change)
    case MarkRead => ModifyLabels(Removes("UNREAD"), luck.change)
    case MarkUnread => ModifyLabels(Adds("UNREAD"), luck.change)
    case Archive => ModifyLabels(Removes("INBOX"), luck.change)
    case Trash => ModifyLabels(Adds("TRASH"), luck.change)
    case Star => ModifyLabels(Adds("STARRED"), luck.change)
    case Unstar => ModifyLabels(Removes("STARRED"), luck.change)
    case OtherAction => NOTHING_DONE
  }

  function Perform(mb: Mailbox, id: MsgId, plan: Plan): Mailbox {
    Mailbox(mb.dir + plan.created,
            if plan.outcome.Success? && plan.outcome.effect != NoLabel
            then mb.labels[id := Change(LabelsOf(mb, id), plan.outcome.effect)] else mb.labels,
            mb.sent + plan.replies)
  }

  function Act(mb: Mailbox, msg: Message, rule: Rule, p: Provider): (Mailbox, Outcome) {
    var plan := PlanFor(mb.dir, msg, rule, p);
    (Perform(mb, msg.id, plan), plan.outcome)
  }

  predicate Replied(before: Mailbox, after: Mailbox, msg: Message, text: Option<string>, p: Provider) {
    && text.Some? && ReplyRaw(msg.headers, text.value, p.email).Some?
    && after.sent == before.sent + multiset{(msg.thread, ReplyRaw(msg.headers, text.value, p.email).value)}
  }

  /** A successful action has done to the message what its name says: one label set or cleared, or the reply sent
      once, on the message's thread. Other labels, other messages and the labels there were stay. */
  lemma ActionsDeliver(mb: Mailbox, msg: Message, rule: Rule, p: Provider)
    requires Act(mb, msg, rule, p).1.Success?
    ensures var after, action := Act(mb, msg, rule, p).0, rule.action;
            var before, labels := LabelsOf(mb, msg.id), LabelsOf(after, msg.id);
            && (action.MarkRead? ==> labels == before - {"UNREAD"})
            && (action.MarkUnread? ==> labels == before + {"UNREAD"})
            && (action.Archive? ==> labels == before - {"INBOX"})
            && (action.Trash? ==> labels == before + {"TRASH"})
            && (action.Star? ==> labels == before + {"STARRED"})
            && (action.Unstar? ==> labels == before - {"STARRED"})
            && (action.AddLabel? ==>
                  && action.name.Some? && action.name.value in after.dir
                  && labels == before + {after.dir[action.name.value]})
            && (action.RemoveLabel? ==>
                  action.name.Some? && action.name.value in mb.dir && labels == before - {mb.dir[action.name.value]})
            && (action.AutoReply? ==> labels == before && Replied(mb, after, msg, action.text, p))
            && (action.Forward? ==> labels == before)
            && (!action.AutoReply? ==> after.sent == mb.sent)
            && (forall id :: id != msg.id ==> LabelsOf(after, id) == LabelsOf(mb, id))
            && after.dir == (if action.AddLabel? && action.name.Some? && action.name.value !in mb.dir
                             then mb.dir[action.name.value := p.alloc(action.name.value)] else mb.dir)
  {
    hide ReplyRaw, LabelsOf, Perform;
    ActKeepsOthers(mb, msg, rule, p);
    ActKeepsRest(mb, msg, rule, p);
    assert mb.sent + multiset{} == mb.sent;
  }

  lemma ActKeepsRest(mb: Mailbox, msg: Message, rule: Rule, p: Provider)
    ensures var after, plan := Act(mb, msg, rule, p).0, PlanFor(mb.dir, msg, rule, p);
            && after.dir == mb.dir + plan.created && after.sent == mb.sent + plan.replies
            && forall name :: name in plan.created ==> name !in mb.dir
  {
    hide ReplyRaw;
  }

  /** Exactly when an action succeeds, by the calls it makes and what it finds. */
  lemma SucceedsExactly(mb: Mailbox, msg: Message, rule: Rule, p: Provider)
    ensures var luck, action := p.luck(rule.id), rule.action;
            Act(mb, msg, rule, p).1.Success? <==>
            || (action in {MarkRead, MarkUnread, Archive, Trash, Star, Unstar} && luck.change)
            || (exists name ::
                  action == AddLabel(Some(name)) && luck.list && (name in mb.dir || luck.create) && luck.change)
            || (exists name :: action == RemoveLabel(Some(name)) && luck.list && name in mb.dir && luck.change)
            || (exists text, h :: action == AutoReply(Some(text)) && h in msg.headers && h.name == "From" && luck.send)
            || action == Forward
  {
    hide ReplySubject, GetHeader;
    HeaderIsFirst(msg.headers, "From", "");
    match rule.action
    case AutoReply(Some(text)) =>
      assert ReplyRaw(msg.headers, text, p.email).Some? <==> GetHeader(msg.headers, "From").Some?;
    case _ =>
  }

  /** An action that fails changes no label and sends nothing; at most it leaves behind a label it created. */
  lemma FailureChangesLittle(mb: Mailbox, msg: Message, rule: Rule, p: Provider)
    requires !Act(mb, msg, rule, p).1.Success?
    ensures var after := Act(mb, msg, rule, p).0;
            && after.labels == mb.labels && after.sent == mb.sent
            && (after.dir == mb.dir ||
                (rule.action.AddLabel? && rule.action.name.Some? && rule.action.name.value !in mb.dir &&
                 after.dir == mb.dir[rule.action.name.value := p.alloc(rule.action.name.value)]))
  {
    hide ReplyRaw;
    assert mb.sent + multiset{} == mb.sent && mb.dir + map[] == mb.dir;
    if rule.action.AddLabel? && rule.action.name.Some? {
      var name := rule.action.name.value;
      assert mb.dir + map[name := p.alloc(name)] == mb.dir[name := p.alloc(name)];
    }
  }

  /** A rule whose action succeeded, and what that did to the message's labels. */
  datatype Done = Done(rule: Rule, effect: Effect)

  datatype RunResult = RunResult(mb: Mailbox, attempted: seq<Rule>, done: seq<Done>, crashed: bool)

  function RunRules(mb: Mailbox, msg: Message, rules: seq<Rule>, p: Provider): RunResult
    decreases rules
  {
    if rules == [] then RunResult(mb, [], [], false)
    else if !Matches(msg, rules[0]) then RunRules(mb, msg, rules[1..], p)
    else
      var (mb', outcome) := Act(mb, msg, rules[0], p);
      if outcome.Crash? then RunResult(mb', [rules[0]], [], true)
      else
        var rest := RunRules(mb', msg, rules[1..], p);
        RunResult(rest.mb, [rules[0]] + rest.attempted,
                  (if outcome.Success? then [Done(rules[0], outcome.effect)] else []) + rest.done, rest.crashed)
  }

  // ---------- Which rules run ----------

  function Applicable(msg: Message, rules: seq<Rule>): seq<Rule> {
    if rules == [] then [] else (if Matches(msg, rules[0]) then [rules[0]] else []) + Applicable(msg, rules[1..])
  }

  lemma {:induction false} AttemptsAreApplicable(mb: Mailbox, msg: Message, rules: seq<Rule>, p: Provider)
    ensures GetHeader(msg.headers, "From").Some? ==> !RunRules(mb, msg, rules, p).crashed
    ensures !RunRules(mb, msg, rules, p).crashed ==> RunRules(mb, msg, rules, p).attempted == Applicable(msg, rules)
    decreases rules
  {
    if rules != [] {
      assert Act(mb, msg, rules[0], p).1.Crash? ==> GetHeader(msg.headers, "From").None?;
      hide Act, Matches, GetHeader;
      var mb' := if Matches(msg, rules[0]) then Act(mb, msg, rules[0], p).0 else mb;
      AttemptsAreApplicable(mb', msg, rules[1..], p);
      assert [] + Applicable(msg, rules[1..]) == Applicable(msg, rules[1..]);
    }
  }

  /** A reply is wanted to a message that does not name its sender. */
  predicate RepliesToNobody(msg: Message, rule: Rule) {
    GetHeader(msg.headers, "From").None? && rule.action.AutoReply? && rule.action.text.Some?
  }

  ghost predicate Fatal(msg: Message, rules: seq<Rule>) {
    exists r :: r in rules && Matches(msg, r) && RepliesToNobody(msg, r)
  }

  /** The program stops exactly when some matching rule wants to reply to nobody; no failing call stops it. */
  lemma {:induction false} CrashExactly(mb: Mailbox, msg: Message, rules: seq<Rule>, p: Provider)
    ensures RunRules(mb, msg, rules, p).crashed <==> Fatal(msg, rules)
    decreases rules
  {
    if rules != [] {
      assert Act(mb, msg, rules[0], p).1.Crash? <==> RepliesToNobody(msg, rules[0]);
      assert Fatal(msg, rules) <==>
             (Matches(msg, rules[0]) && RepliesToNobody(msg, rules[0])) || Fatal(msg, rules[1..]);
      hide Act, Matches, RepliesToNobody;
      var mb' := if Matches(msg, rules[0]) then Act(mb, msg, rules[0], p).0 else mb;
      CrashExactly(mb', msg, rules[1..], p);
    }
  }

  lemma {:induction false} ApplicableCounts(msg: Message, rules: seq<Rule>, r: Rule)
    ensures multiset(Applicable(msg, rules))[r] == if Matches(msg, r) then multiset(rules)[r] else 0
  {
    if rules != [] {
      ApplicableCounts(msg, rules[1..], r);
      assert rules == [rules[0]] + rules[1..];
    }
  }

  /** Which rules are carried out, and how often, does not depend on their order, nor on what earlier actions did:
      for any reordering, and from any two mailboxes. */
  lemma AttemptsIgnoreOrder(mb: Mailbox, mb': Mailbox, msg: Message, rules: seq<Rule>, rules': seq<Rule>, p: Provider,
      p': Provider)
    requires multiset(rules) == multiset(rules')
    requires !RunRules(mb, msg, rules, p).crashed && !RunRules(mb', msg, rules', p').crashed
    ensures multiset(RunRules(mb, msg, rules, p).attempted) == multiset(RunRules(mb', msg, rules', p').attempted)
  {
    AttemptsAreApplicable(mb, msg, rules, p);
    AttemptsAreApplicable(mb', msg, rules', p');
    var a, b := multiset(Applicable(msg, rules)), multiset(Applicable(msg, rules'));
    forall r: Rule ensures a[r] == b[r] {
      ApplicableCounts(msg, rules, r);
      ApplicableCounts(msg, rules', r);
    }
    assert a == b;
  }

  // ---------- The last writer ----------

  predicate Touches(effect: Effect, l: LabelId) {
    effect == Adds(l) || effect == Removes(l)
  }

  lemma ActKeepsOthers(mb: Mailbox, msg: Message, rule: Rule, p: Provider)
    ensures var (mb', outcome) := Act(mb, msg, rule, p);
            LabelsOf(mb', msg.id) == (if outcome.Success? then Change(LabelsOf(mb, msg.id), outcome.effect)
                                      else LabelsOf(mb, msg.id))
            && forall id :: id != msg.id ==> LabelsOf(mb', id) == LabelsOf(mb, id)
  {
  }

  /** A label no successful rule touched is as before; other messages keep their labels. */
  lemma {:induction false} UntouchedStays(mb: Mailbox, msg: Message, rules: seq<Rule>, p: Provider, l: LabelId)
    requires forall d :: d in RunRules(mb, msg, rules, p).done ==> !Touches(d.effect, l)
    ensures l in LabelsOf(RunRules(mb, msg, rules, p).mb, msg.id) <==> l in LabelsOf(mb, msg.id)
    ensures forall id :: id != msg.id ==> LabelsOf(RunRules(mb, msg, rules, p).mb, id) == LabelsOf(mb, id)
    decreases rules
  {
    if rules != [] {
      if !Matches(msg, rules[0]) {
        UntouchedStays(mb, msg, rules[1..], p, l);
      } else {
        var (mb', outcome) := Act(mb, msg, rules[0], p);
        ActKeepsOthers(mb, msg, rules[0], p);
        if !outcome.Crash? {
          var all, rest := RunRules(mb, msg, rules, p).done, RunRules(mb', msg, rules[1..], p).done;
          if outcome.Success? {
            assert all[0] in all;
          }
          assert forall d :: d in rest ==> d in all;
          UntouchedStays(mb', msg, rules[1..], p, l);
        }
      }
    }
  }

  /** The first rule, and then the others from the mailbox it leaves. */
  lemma FirstThenRest(mb: Mailbox, msg: Message, rules: seq<Rule>, p: Provider)
    requires rules != []
    ensures var all := RunRules(mb, msg, rules, p);
            if !Matches(msg, rules[0]) then all == RunRules(mb, msg, rules[1..], p)
            else
              var (mb', outcome) := Act(mb, msg, rules[0], p);
              var rest := RunRules(mb', msg, rules[1..], p);
              if outcome.Crash? then all == RunResult(mb', [rules[0]], [], true)
              else all.mb == rest.mb &&
                   all.done == if outcome.Success? then [Done(rules[0], outcome.effect)] + rest.done else rest.done
  {
    hide Act, Matches;
    var rest := RunRules(Act(mb, msg, rules[0], p).0, msg, rules[1..], p);
    assert [] + rest.done == rest.done;
  }

  /** The last successful rule that touches a label decides whether the message ends up with it. */
  lemma {:induction false} LastWriterDecides(mb: Mailbox, msg: Message, rules: seq<Rule>, p: Provider, l: LabelId,
      k: nat)
    requires k < |RunRules(mb, msg, rules, p).done| && Touches(RunRules(mb, msg, rules, p).done[k].effect, l)
    requires forall j :: k < j < |RunRules(mb, msg, rules, p).done| ==>
             !Touches(RunRules(mb, msg, rules, p).done[j].effect, l)
    ensures l in LabelsOf(RunRules(mb, msg, rules, p).mb, msg.id) <==>
            RunRules(mb, msg, rules, p).done[k].effect == Adds(l)
    decreases rules
  {
    assert rules != [];
    hide RunRules, Act, Matches, LabelsOf;
    FirstThenRest(mb, msg, rules, p);
    if !Matches(msg, rules[0]) {
      LastWriterDecides(mb, msg, rules[1..], p, l, k);
    } else {
      var (mb', outcome) := Act(mb, msg, rules[0], p);
      ActKeepsOthers(mb, msg, rules[0], p);
      var all, rest := RunRules(mb, msg, rules, p).done, RunRules(mb', msg, rules[1..], p).done;
      if outcome.Error? {
        LastWriterDecides(mb', msg, rules[1..], p, l, k);
      } else {
        assert forall j :: 0 <= j < |rest| ==> rest[j] == all[j + 1];
        if k > 0 {
          LastWriterDecides(mb', msg, rules[1..], p, l, k - 1);
        } else {
          UntouchedStays(mb', msg, rules[1..], p, l);
        }
      }
    }
  }

  // ---------- The fold of last writers ----------

  function EffectsOf(done: seq<Done>): (r: seq<Effect>)
    ensures |r| == |done| && forall i :: 0 <= i < |r| ==> r[i] == done[i].effect
  {
    seq(|done|, i requires 0 <= i < |done| => done[i].effect)
  }

  /** Whether a label is there after these effects, given whether it was before. */
  function Written(before: bool, effects: seq<Effect>, l: LabelId): bool {
    if effects == [] then before
    else
      var last := effects[|effects| - 1];
      if Touches(last, l) then last == Adds(l) else Written(before, effects[..|effects| - 1], l)
  }

  lemma {:induction false} WrittenAppend(before: bool, a: seq<Effect>, b: seq<Effect>, l: LabelId)
    ensures Written(before, a + b, l) == Written(Written(before, a, l), b, l)
    decreases |b|
  {
    if b == [] {
      assert a + b == a;
    } else {
      assert (a + b)[..|a + b| - 1] == a + b[..|b| - 1];
      WrittenAppend(before, a, b[..|b| - 1], l);
    }
  }

  lemma {:induction false} WrittenByNone(before: bool, effects: seq<Effect>, l: LabelId)
    requires forall i :: 0 <= i < |effects| ==> !Touches(effects[i], l)
    ensures Written(before, effects, l) == before
  {
    if effects != [] {
      WrittenByNone(before, effects[..|effects| - 1], l);
    }
  }

  lemma {:induction false} WrittenByLast(before: bool, effects: seq<Effect>, l: LabelId, k: nat)
    requires k < |effects| && Touches(effects[k], l) && forall j :: k < j < |effects| ==> !Touches(effects[j], l)
    ensures Written(before, effects, l) <==> effects[k] == Adds(l)
  {
    if k < |effects| - 1 {
      WrittenByLast(before, effects[..|effects| - 1], l, k);
    }
  }

  /** The labels after going through the rules, on the message and on others. */
  lemma RunLabels(mb: Mailbox, msg: Message, rules: seq<Rule>, p: Provider, id: MsgId, l: LabelId)
    ensures var r := RunRules(mb, msg, rules, p);
            l in LabelsOf(r.mb, id) <==>
            if id == msg.id then Written(l in LabelsOf(mb, id), EffectsOf(r.done), l) else l in LabelsOf(mb, id)
  {
    hide RunRules, LabelsOf;
    var done := RunRules(mb, msg, rules, p).done;
    if id != msg.id {
      OthersUntouched(mb, msg, rules, p, id);
    } else if exists k :: 0 <= k < |done| && Touches(done[k].effect, l) {
      var k := LastTouch(done, l);
      LastWriterDecides(mb, msg, rules, p, l, k);
      WrittenByLast(l in LabelsOf(mb, id), EffectsOf(done), l, k);
    } else {
      UntouchedStays(mb, msg, rules, p, l);
      WrittenByNone(l in LabelsOf(mb, id), EffectsOf(done), l);
    }
  }

  lemma {:induction false} LastTouch(done: seq<Done>, l: LabelId) returns (k: nat)
    requires exists i :: 0 <= i < |done| && Touches(done[i].effect, l)
    ensures k < |done| && Touches(done[k].effect, l) && forall j :: k < j < |done| ==> !Touches(done[j].effect, l)
  {
    k := |done| - 1;
    if !Touches(done[k].effect, l) {
      k := LastTouch(done[..k], l);
    }
  }

  lemma {:induction false} OthersUntouched(mb: Mailbox, msg: Message, rules: seq<Rule>, p: Provider, id: MsgId)
    requires id != msg.id
    ensures LabelsOf(RunRules(mb, msg, rules, p).mb, id) == LabelsOf(mb, id)
    decreases rules
  {
    if rules != [] {
      hide PlanFor, Matches;
      var mb' := if Matches(msg, rules[0]) then Act(mb, msg, rules[0], p).0 else mb;
      ActKeepsOthers(mb, msg, rules[0], p);
      OthersUntouched(mb', msg, rules[1..], p, id);
    }
  }

  /** The order the store returns rules in: highest priority first. */
  ghost predicate ByPriority(rules: seq<Rule>) {
    forall i, j :: 0 <= i < j < |rules| ==> rules[i].priority >= rules[j].priority
  }

  lemma {:induction false} DoneFollowsRules(mb: Mailbox, msg: Message, rules: seq<Rule>, p: Provider)
    requires ByPriority(rules)
    ensures var done := RunRules(mb, msg, rules, p).done;
            && (forall d :: d in done ==> d.rule in rules)
            && forall i, j :: 0 <= i < j < |done| ==> done[i].rule.priority >= done[j].rule.priority
    decreases rules
  {
    if rules != [] {
      var mb' := if Matches(msg, rules[0]) then Act(mb, msg, rules[0], p).0 else mb;
      DoneFollowsRules(mb', msg, rules[1..], p);
    }
  }

  /** As rules run highest priority first, of all successful rules touching a label it is one of the lowest
      priority that decides. */
  lemma LowestPriorityDecides(mb: Mailbox, msg: Message, rules: seq<Rule>, p: Provider, l: LabelId, k: nat)
    requires ByPriority(rules)
    requires k < |RunRules(mb, msg, rules, p).done| && Touches(RunRules(mb, msg, rules, p).done[k].effect, l)
    requires forall j :: 0 <= j < |RunRules(mb, msg, rules, p).done| && j != k ==>
               Touches(RunRules(mb, msg, rules, p).done[j].effect, l) ==>
               RunRules(mb, msg, rules, p).done[k].rule.priority < RunRules(mb, msg, rules, p).done[j].rule.priority
    ensures l in LabelsOf(RunRules(mb, msg, rules, p).mb, msg.id) <==>
            RunRules(mb, msg, rules, p).done[k].effect == Adds(l)
  {
    DoneFollowsRules(mb, msg, rules, p);
    LastWriterDecides(mb, msg, rules, p, l, k);
  }

  // ---------- Swapping neighbours ----------

  /** The label an action would change, if any. */
  function Target(dir: map<string, LabelId>, rule: Rule, p: Provider): Option<LabelId> {
    match rule.action
    case AddLabel(Some(name)) => Some(if name in dir then dir[name] else p.alloc(name))
    case RemoveLabel(Some(name)) => Some(if name in dir then dir[name] else p.alloc(name))
    case MarkRead => Some("UNREAD")
    case MarkUnread => Some("UNREAD")
    case Archive => Some("INBOX")
    case Trash => Some("TRASH")
    case Star => Some("STARRED")
    case Unstar => Some("STARRED")
    case _ => None
  }

  predicate Independent(dir: map<string, LabelId>, a: Rule, b: Rule, p: Provider) {
    Target(dir, a, p).None? || Target(dir, b, p).None? || Target(dir, a, p) != Target(dir, b, p)
  }

  /** A successful action changes its target and nothing else. */
  lemma EffectOnTarget(dir: map<string, LabelId>, msg: Message, rule: Rule, p: Provider)
    ensures var plan := PlanFor(dir, msg, rule, p);
            plan.outcome.Success? && plan.outcome.effect != NoLabel ==>
              Target(dir, rule, p) == Some(plan.outcome.effect.id)
  {
  }

  /** An action on another label leaves the plan as it is, even when it creates its label. */
  lemma PlanUnmoved(dir: map<string, LabelId>, msg: Message, a: Rule, b: Rule, p: Provider)
    requires Independent(dir, a, b, p)
    ensures PlanFor(dir + PlanFor(dir, msg, a, p).created, msg, b, p) == PlanFor(dir, msg, b, p)
    ensures Independent(dir + PlanFor(dir, msg, a, p).created, a, b, p)
  {
  }

  predicate Labelling(o: Outcome) {
    o.Success? && o.effect != NoLabel
  }

  lemma ChangesCommute(labels: set<LabelId>, a: Effect, b: Effect)
    requires a != NoLabel && b != NoLabel ==> a.id != b.id
    ensures Change(Change(labels, a), b) == Change(Change(labels, b), a)
  {
  }

  /** What a plan leaves of the labels on one message. */
  function Relabelled(labels: set<LabelId>, plan: Plan): set<LabelId> {
    if Labelling(plan.outcome) then Change(labels, plan.outcome.effect) else labels
  }

  lemma PerformedLabels(mb: Mailbox, id: MsgId, a: Plan)
    ensures Labelling(a.outcome) ==> Perform(mb, id, a).labels == mb.labels[id := Relabelled(LabelsOf(mb, id), a)]
    ensures !Labelling(a.outcome) ==> Perform(mb, id, a).labels == mb.labels
    ensures LabelsOf(Perform(mb, id, a), id) == Relabelled(LabelsOf(mb, id), a)
  {
  }

  lemma PerformCommutes(mb: Mailbox, id: MsgId, a: Plan, b: Plan)
    requires Labelling(a.outcome) && Labelling(b.outcome) ==> a.outcome.effect.id != b.outcome.effect.id
    requires a.created.Keys !! b.created.Keys
    ensures Perform(Perform(mb, id, a), id, b) == Perform(Perform(mb, id, b), id, a)
  {
    var ma, mb' := Perform(mb, id, a), Perform(mb, id, b);
    var ab, ba := Perform(ma, id, b), Perform(mb', id, a);
    assert ab.labels == ba.labels by {
      hide Perform, LabelsOf;
      PerformedLabels(mb, id, a);
      PerformedLabels(mb, id, b);
      PerformedLabels(ma, id, b);
      PerformedLabels(mb', id, a);
      assert Relabelled(Relabelled(LabelsOf(mb, id), a), b) == Relabelled(Relabelled(LabelsOf(mb, id), b), a) by {
        if Labelling(a.outcome) && Labelling(b.outcome) {
          ChangesCommute(LabelsOf(mb, id), a.outcome.effect, b.outcome.effect);
        }
      }
    }
    hide LabelsOf, Change;
    assert ab.dir == ba.dir by {
      assert (mb.dir + a.created) + b.created == (mb.dir + b.created) + a.created;
    }
    assert ab.sent == ba.sent;
  }

  /** Two neighbouring rules on different labels, or of which at most one is about labels at all, may change places:
      mailbox and outcomes are the same. */
  lemma PairCommutes(mb: Mailbox, msg: Message, a: Rule, b: Rule, p: Provider)
    requires Independent(mb.dir, a, b, p)
    ensures Act(Act(mb, msg, a, p).0, msg, b, p).0 == Act(Act(mb, msg, b, p).0, msg, a, p).0
    ensures Act(Act(mb, msg, a, p).0, msg, b, p).1 == Act(mb, msg, b, p).1
    ensures Act(Act(mb, msg, b, p).0, msg, a, p).1 == Act(mb, msg, a, p).1
  {
    hide PlanFor;
    var x, y := PlanFor(mb.dir, msg, a, p), PlanFor(mb.dir, msg, b, p);
    PlanUnmoved(mb.dir, msg, a, b, p);
    PlanUnmoved(mb.dir, msg, b, a, p);
    EffectOnTarget(mb.dir, msg, a, p);
    EffectOnTarget(mb.dir, msg, b, p);
    CreatedApart(mb.dir, msg, a, b, p);
    PerformCommutes(mb, msg.id, x, y);
  }

  lemma CreatedApart(dir: map<string, LabelId>, msg: Message, a: Rule, b: Rule, p: Provider)
    requires Independent(dir, a, b, p)
    ensures PlanFor(dir, msg, a, p).created.Keys !! PlanFor(dir, msg, b, p).created.Keys
  {
  }

  /** The rule does not stop the program on this message. */
  predicate Safe(msg: Message, rule: Rule) {
    !(Matches(msg, rule) && RepliesToNobody(msg, rule))
  }

  /** Two ways through the rules that come to the same: mailbox, rules tried and actions done, and whether it
      stopped. */
  ghost predicate SameRun(x: RunResult, y: RunResult) {
    && x.mb == y.mb && x.crashed == y.crashed
    && multiset(x.attempted) == multiset(y.attempted) && multiset(x.done) == multiset(y.done)
  }

  /** Swapping two independent neighbours anywhere in the list comes to the same, whatever runs before and after. */
  lemma {:induction false} SwapNeighbours(mb: Mailbox, msg: Message, before: seq<Rule>, a: Rule, b: Rule,
                                          after: seq<Rule>, p: Provider)
    requires Safe(msg, a) && Safe(msg, b)
    requires Independent(RunRules(mb, msg, before, p).mb.dir, a, b, p)
    ensures SameRun(RunRules(mb, msg, before + [a, b] + after, p), RunRules(mb, msg, before + [b, a] + after, p))
    decreases before
  {
    if before == [] {
      SwapFirstTwo(mb, msg, a, b, after, p);
      assert [] + [a, b] + after == [a, b] + after && [] + [b, a] + after == [b, a] + after;
    } else {
      hide Act, Matches, RepliesToNobody, Independent;
      var r, ab, ba := before[0], before + [a, b] + after, before + [b, a] + after;
      assert ab[1..] == before[1..] + [a, b] + after && ba[1..] == before[1..] + [b, a] + after;
      if !Matches(msg, r) {
        SwapNeighbours(mb, msg, before[1..], a, b, after, p);
      } else if !Act(mb, msg, r, p).1.Crash? {
        SwapNeighbours(Act(mb, msg, r, p).0, msg, before[1..], a, b, after, p);
      }
    }
  }

  lemma SafeAct(mb: Mailbox, msg: Message, rule: Rule, p: Provider)
    requires !RepliesToNobody(msg, rule)
    ensures !Act(mb, msg, rule, p).1.Crash?
  {
  }

  function DoneBy(mb: Mailbox, msg: Message, r: Rule, p: Provider): seq<Done> {
    var outcome := Act(mb, msg, r, p).1;
    if Matches(msg, r) && outcome.Success? then [Done(r, outcome.effect)] else []
  }

  /** One safe rule, and then the others. */
  lemma RunFirst(mb: Mailbox, msg: Message, r: Rule, rest: seq<Rule>, p: Provider)
    requires Safe(msg, r)
    ensures var m := After(mb, msg, r, p);
            var all, others := RunRules(mb, msg, [r] + rest, p), RunRules(m, msg, rest, p);
            && all.mb == others.mb && all.crashed == others.crashed
            && all.attempted == (if Matches(msg, r) then [r] else []) + others.attempted
            && all.done == DoneBy(mb, msg, r, p) + others.done
  {
    assert ([r] + rest)[1..] == rest;
    if Matches(msg, r) {
      SafeAct(mb, msg, r, p);
    }
    hide Act, Matches, RepliesToNobody;
    var others := RunRules(mb, msg, rest, p);
    assert [] + others.attempted == others.attempted && [] + others.done == others.done;
  }

  function After(mb: Mailbox, msg: Message, r: Rule, p: Provider): Mailbox {
    if Matches(msg, r) then Act(mb, msg, r, p).0 else mb
  }

  lemma AfterBoth(mb: Mailbox, msg: Message, a: Rule, b: Rule, p: Provider)
    requires Independent(mb.dir, a, b, p)
    ensures After(After(mb, msg, a, p), msg, b, p) == After(After(mb, msg, b, p), msg, a, p)
    ensures DoneBy(After(mb, msg, a, p), msg, b, p) == DoneBy(mb, msg, b, p)
    ensures DoneBy(After(mb, msg, b, p), msg, a, p) == DoneBy(mb, msg, a, p)
  {
    hide Act, Matches, Independent;
    PairCommutes(mb, msg, a, b, p);
  }

  /** Two safe rules, and then the others. */
  lemma RunTwo(mb: Mailbox, msg: Message, a: Rule, b: Rule, after: seq<Rule>, p: Provider)
    requires Safe(msg, a) && Safe(msg, b)
    ensures var both := After(After(mb, msg, a, p), msg, b, p);
            var all, rest := RunRules(mb, msg, [a, b] + after, p), RunRules(both, msg, after, p);
            && all.mb == rest.mb && all.crashed == rest.crashed
            && all.attempted == Applicable(msg, [a]) + (Applicable(msg, [b]) + rest.attempted)
            && all.done == DoneBy(mb, msg, a, p) + (DoneBy(After(mb, msg, a, p), msg, b, p) + rest.done)
  {
    hide Act, Matches, RunRules, Safe, DoneBy;
    RunFirst(mb, msg, a, [b] + after, p);
    RunFirst(After(mb, msg, a, p), msg, b, after, p);
    assert [a] + ([b] + after) == [a, b] + after;
    assert [a][1..] == [] && [b][1..] == [];
    assert Applicable(msg, [a]) == if Matches(msg, a) then [a] else [];
    assert Applicable(msg, [b]) == if Matches(msg, b) then [b] else [];
  }

  lemma SwapFirstTwo(mb: Mailbox, msg: Message, a: Rule, b: Rule, after: seq<Rule>, p: Provider)
    requires Safe(msg, a) && Safe(msg, b) && Independent(mb.dir, a, b, p)
    ensures SameRun(RunRules(mb, msg, [a, b] + after, p), RunRules(mb, msg, [b, a] + after, p))
  {
    hide RunRules, Independent, Safe, DoneBy, After, Applicable;
    RunTwo(mb, msg, a, b, after, p);
    RunTwo(mb, msg, b, a, after, p);
    AfterBoth(mb, msg, a, b, p);
    var rest := RunRules(After(After(mb, msg, a, p), msg, b, p), msg, after, p);
    SwapParts(Applicable(msg, [a]), Applicable(msg, [b]), rest.attempted);
    SwapParts(DoneBy(mb, msg, a, p), DoneBy(mb, msg, b, p), rest.done);
  }

  lemma SwapParts<T>(x: seq<T>, y: seq<T>, z: seq<T>)
    ensures multiset(x + (y + z)) == multiset(y + (x + z))
  {
  }
}
