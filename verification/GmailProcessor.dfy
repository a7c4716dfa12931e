/** The Gmail processor as it runs: columns, table and mailbox updated in place, cycle after cycle. */
module GmailProcessor {
  import opened Wrappers
  import opened Decimal
  import opened Addresses
  import opened MailText
  import opened MimeTree
  import opened GmailRules
  import opened GmailSync
  import GmailTable

  method GetHeaderValue(headers: seq<Header>, name: string) returns (value: Option<string>)
    ensures value == GetHeader(headers, name)
  {
    var i := 0;
    while i < |headers|
      invariant 0 <= i <= |headers|
      invariant GetHeader(headers[i..], name) == GetHeader(headers, name)
    {
      if headers[i].name == name {
        return Some(headers[i].value);
      }
      i := i + 1;
    }
    return None;
  }

  method HasLabel(labels: seq<LabelId>, wanted: LabelId) returns (found: bool)
    ensures found <==> wanted in labels
  {
    var i := 0;
    while i < |labels|
      invariant 0 <= i <= |labels|
      invariant wanted !in labels[..i]
    {
      if labels[i] == wanted {
        return true;
      }
      i := i + 1;
    }
    return false;
  }

  /** Whether a rule applies to a message. */
  method CheckRuleMatch(msg: Message, rule: Rule) returns (matches: bool)
    ensures matches <==> Matches(msg, rule)
  {
    match rule.trigger {
      case NewMessage =>
        return true;
      case SenderMatch(pattern) =>
        var sender := GetHeaderValue(msg.headers, "From");
        return PatternIn(sender, pattern);
      case SubjectMatch(pattern) =>
        var subject := GetHeaderValue(msg.headers, "Subject");
        return PatternIn(subject, pattern);
      case LabelAdded(name) =>
        if name.None? {
          return false;
        }
        matches := HasLabel(msg.labels, name.value);
      case Starred =>
        matches := HasLabel(msg.labels, "STARRED");
      case OtherTrigger =>
        return false;
    }
  }

  method ActiveRules(rules: seq<Rule>) returns (active: seq<Rule>)
    ensures active == Active(rules)
  {
    active := [];
    var i := 0;
    while i < |rules|
      invariant 0 <= i <= |rules|
      invariant active + Active(rules[i..]) == Active(rules)
    {
      if rules[i].active {
        active := active + [rules[i]];
      }
      i := i + 1;
    }
  }

  /** Keep the messages that could be fetched, in the order listed. */
  method FetchRecentMessages(recent: Option<seq<Option<Delivery>>>) returns (messages: Option<seq<Delivery>>)
    ensures messages.Some? <==> recent.Some?
    ensures recent.Some? ==> messages == Some(Kept(recent.value))
  {
    if recent.None? {
      return None;
    }
    var kept := [];
    var i := 0;
    while i < |recent.value|
      invariant 0 <= i <= |recent.value|
      invariant kept + Kept(recent.value[i..]) == Kept(recent.value)
    {
      if recent.value[i].Some? {
        kept := kept + [recent.value[i].value];
      }
      i := i + 1;
    }
    assert recent.value[i..] == [] && kept + [] == kept;
    return Some(kept);
  }

  method ProcessHistoryItems(items: seq<seq<Option<Delivery>>>) returns (messages: seq<Delivery>)
    ensures messages == KeptOfItems(items)
  {
    messages := [];
    var i := 0;
    while i < |items|
      invariant 0 <= i <= |items|
      invariant messages + KeptOfItems(items[i..]) == KeptOfItems(items)
    {
      ghost var start := messages;
      var j := 0;
      while j < |items[i]|
        invariant 0 <= j <= |items[i]|
        invariant messages + Kept(items[i][j..]) == start + Kept(items[i])
      {
        if items[i][j].Some? {
          messages := messages + [items[i][j].value];
        }
        j := j + 1;
      }
      assert messages == start + Kept(items[i]);
      i := i + 1;
    }
  }

  // ---------- The label list ----------

  datatype Label = Label(id: LabelId, name: string)

  /** Which label a name stands for: the first of that name in the provider's list. */
  function Directory(labels: seq<Label>): map<string, LabelId> {
    if labels == [] then map[] else Directory(labels[1..])[labels[0].name := labels[0].id]
  }

  /** A label of a new name, put at the end of the list, is found under that name, and the others as before. */
  lemma {:induction false} DirectoryGrows(labels: seq<Label>, l: Label)
    requires l.name !in Directory(labels)
    ensures Directory(labels + [l]) == Directory(labels)[l.name := l.id]
  {
    if labels == [] {
      assert [] + [l] == [l] && [l][1..] == [];
    } else {
      assert (labels + [l])[1..] == labels[1..] + [l];
      DirectoryGrows(labels[1..], l);
    }
  }

  /** The search for a label by name, one label after the other. */
  method FindLabel(labels: seq<Label>, name: string) returns (found: Option<LabelId>)
    ensures found.Some? ==> exists i | 0 <= i < |labels| ::
                              labels[i] == Label(found.value, name) && forall k | 0 <= k < i :: labels[k].name != name
    ensures found.None? <==> forall l | l in labels :: l.name != name
    ensures name in Directory(labels) <==> found.Some?
    ensures found.Some? ==> Directory(labels)[name] == found.value
  {
    var i := 0;
    while i < |labels|
      invariant 0 <= i <= |labels|
      invariant forall k :: 0 <= k < i ==> labels[k].name != name
      invariant name in Directory(labels[i..]) <==> name in Directory(labels)
      invariant name in Directory(labels) ==> Directory(labels[i..])[name] == Directory(labels)[name]
    {
      assert labels[i..][1..] == labels[i + 1..];
      if labels[i].name == name {
        assert labels[i] in labels;
        return Some(labels[i].id);
      }
      i := i + 1;
    }
    return None;
  }

  lemma NothingPerformed(mb: Mailbox, id: MsgId, outcome: Outcome)
    requires !Labelling(outcome)
    ensures Perform(mb, id, Plan(map[], outcome, multiset{})) == mb
  {
    assert mb.dir + map[] == mb.dir && mb.sent + multiset{} == mb.sent;
  }

  lemma ReplyPerformed(mb: Mailbox, id: MsgId, thread: string, raw: string)
    ensures Perform(mb, id, Plan(map[], Success(NoLabel), multiset{(thread, raw)})) ==
            mb.(sent := mb.sent + multiset{(thread, raw)})
  {
    assert mb.dir + map[] == mb.dir;
  }

  lemma LabelPerformed(mb: Mailbox, id: MsgId, effect: Effect, ok: bool)
    requires effect != NoLabel
    ensures Perform(mb, id, ModifyLabels(effect, ok)) ==
            if ok then mb.(labels := mb.labels[id := Change(LabelsOf(mb, id), effect)]) else mb
  {
    assert mb.dir + map[] == mb.dir && mb.sent + multiset{} == mb.sent;
  }

  lemma CreatedPerformed(mb: Mailbox, id: MsgId, name: string, l: LabelId, effect: Effect, ok: bool)
    ensures Perform(mb, id, ModifyLabels(effect, ok).(created := map[name := l])) ==
            Perform(mb.(dir := mb.dir[name := l]), id, ModifyLabels(effect, ok))
  {
    assert mb.dir[name := l] + map[] == mb.dir + map[name := l];
  }

  class GmailProcessor {
    const account: AccId
    var history: Option<string>
    var lastSync: Option<int>
    var table: seq<StoredMessage>
    var labels: seq<Label>
    var marks: map<MsgId, set<LabelId>>
    var sent: multiset<(string, string)>
    var crashed: bool
    /** What was saved and carried out so far. */
    ghost var log: seq<Event>

    constructor (acc: AccId, rows: seq<StoredMessage>, list: seq<Label>)
      ensures account == acc
      ensures S() == State(SyncState(None, None), Work(rows, Mailbox(Directory(list), map[], multiset{}), [], false))
    {
      account, history, lastSync, table, crashed, log := acc, None, None, rows, false, [];
      labels, marks, sent := list, map[], multiset{};
    }

    /** The mailbox as the rules see it. */
    ghost function Box(): Mailbox
      reads this
    {
      Mailbox(Directory(labels), marks, sent)
    }

    ghost function W(): Work
      reads this
    {
      Work(table, Box(), log, crashed)
    }

    ghost function S(): State
      reads this
    {
      State(SyncState(history, lastSync), W())
    }

    /** A NULL in either column cannot be read. */
    method GetGmailSyncState(readable: bool) returns (cursor: Option<string>)
      ensures cursor == Cursor(SyncState(history, lastSync), readable)
    {
      if !readable || history.None? || lastSync.None? {
        return None;
      }
      return history;
    }

    method UpdateGmailSyncState(id: string, now: int, saves: bool) returns (ok: bool)
      modifies this`history, this`lastSync
      ensures ok == saves
      ensures saves ==> history == Some(id) && lastSync == Some(now)
      ensures !saves ==> history == old(history) && lastSync == old(lastSync)
    {
      if saves {
        history, lastSync := Some(id), Some(now);
      }
      return saves;
    }

    /** Insert the row, or overwrite the one with its key. */
    method StoreGmailMessage(row: StoredMessage)
      modifies this`table
      ensures table == Upsert(old(table), row)
    {
      var i := 0;
      while i < |table|
        invariant 0 <= i <= |table| && table == old(table)
        invariant Upsert(table, row) == table[..i] + Upsert(table[i..], row)
      {
        if SameKey(table[i], row) {
          table := table[i := table[i].(content := row.content)];
          assert table == old(table)[..i] + Upsert(old(table)[i..], row);
          return;
        }
        assert table[i..][1..] == table[i + 1..] && table[..i + 1] == table[..i] + [table[i]];
        i := i + 1;
      }
      assert table[..i] == table;
      table := table + [row];
    }

    /** Save what the message says about itself. */
    method StoreMessageInDB(msg: Message, saves: bool) returns (ok: bool)
      modifies this`table
      ensures ok == saves
      ensures table == if saves then Upsert(old(table), RowOf(account, msg)) else old(table)
    {
      var subject := GetHeaderValue(msg.headers, "Subject");
      var sender := GetHeaderValue(msg.headers, "From");
      var toHeader := GetHeaderValue(msg.headers, "To");
      var ccHeader := GetHeaderValue(msg.headers, "Cc");
      var bccHeader := GetHeaderValue(msg.headers, "Bcc");
      var to := ExtractRecipients(toHeader);
      var cc := ExtractRecipients(ccHeader);
      var bcc := ExtractRecipients(bccHeader);
      var unread := HasLabel(msg.labels, "UNREAD");
      var starred := HasLabel(msg.labels, "STARRED");
      var hasAttachments := |msg.payload.parts| > 1 || (msg.bodySize > 0 && |msg.payload.parts| > 0);
      var content := Content(subject, sender, to, cc, bcc, msg.snippet, unread, starred, hasAttachments,
                             CountAttachments(msg.payload), msg.size, msg.labels);
      assert content == ContentOf(msg);
      if saves {
        StoreGmailMessage(StoredMessage(account, msg.id, msg.thread, Seconds(msg.internalDate), content));
      }
      return saves;
    }

    method GetOrCreateLabel(name: string, p: Provider, luck: ActionLuck) returns (found: Option<LabelId>)
      modifies this`labels
      ensures found == if !luck.list then None
                       else if name in old(Box()).dir then Some(old(Box()).dir[name])
                       else if luck.create then Some(p.alloc(name)) else None
      ensures Box() == old(Box()).(dir := if luck.list && luck.create && name !in old(Box()).dir
                                          then old(Box()).dir[name := p.alloc(name)] else old(Box()).dir)
      ensures labels == if luck.list && luck.create && forall l | l in old(labels) :: l.name != name
                        then old(labels) + [Label(p.alloc(name), name)] else old(labels)
    {
      if !luck.list {
        return None;
      }
      found := FindLabel(labels, name);
      if found.Some? || !luck.create {
        return;
      }
      DirectoryGrows(labels, Label(p.alloc(name), name));
      labels := labels + [Label(p.alloc(name), name)];
      return Some(p.alloc(name));
    }

    method GetLabelByName(name: string, luck: ActionLuck) returns (found: Option<LabelId>)
      ensures found.Some? ==> luck.list && exists i | 0 <= i < |labels| ::
                                labels[i] == Label(found.value, name) && forall k | 0 <= k < i :: labels[k].name != name
      ensures found.None? <==> !luck.list || forall l | l in labels :: l.name != name
      ensures luck.list ==> (name in Box().dir <==> found.Some?)
      ensures found.Some? ==> name in Box().dir && Box().dir[name] == found.value
    {
      if !luck.list {
        return None;
      }
      found := FindLabel(labels, name);
    }

    /** One modify call: add or remove one label. */
    method ModifyMessage(id: MsgId, effect: Effect, ok: bool) returns (outcome: Outcome)
      requires effect != NoLabel
      modifies this`marks
      ensures outcome == if ok then Success(effect) else Error
      ensures Box() == Perform(old(Box()), id, ModifyLabels(effect, ok))
      ensures ok ==> LabelsOf(Box(), id) == Change(LabelsOf(old(Box()), id), effect)
    {
      LabelPerformed(Box(), id, effect, ok);
      if !ok {
        return Error;
      }
      var before := if id in marks then marks[id] else {};
      marks := marks[id := Change(before, effect)];
      return Success(effect);
    }

    method ExecuteAutoReply(msg: Message, rule: Rule, p: Provider) returns (outcome: Outcome)
      requires rule.action.AutoReply?
      modifies this`labels, this`marks, this`sent
      ensures (Box(), outcome) == Act(old(Box()), msg, rule, p)
    {
      hide ReplyRaw, LabelsOf, Change;
      var text := rule.action.text;
      NothingPerformed(Box(), msg.id, Error);
      NothingPerformed(Box(), msg.id, Crash);
      if text.None? {
        return Error;
      }
      var raw := ReplyRaw(msg.headers, text.value, p.email);
      if raw.None? {
        return Crash;
      }
      if !p.luck(rule.id).send {
        return Error;
      }
      ReplyPerformed(Box(), msg.id, msg.thread, raw.value);
      sent := sent + multiset{(msg.thread, raw.value)};
      return Success(NoLabel);
    }

    method ExecuteAddLabel(msg: Message, rule: Rule, p: Provider) returns (outcome: Outcome)
      requires rule.action.AddLabel?
      modifies this`labels, this`marks, this`sent
      ensures (Box(), outcome) == Act(old(Box()), msg, rule, p)
    {
      hide LabelsOf, Change, Perform;
      var luck := p.luck(rule.id);
      NothingPerformed(Box(), msg.id, Error);
      if rule.action.name.None? {
        return Error;
      }
      var name := rule.action.name.value;
      var target := GetOrCreateLabel(name, p, luck);
      if target.None? {
        return Error;
      }
      var effect := Adds(target.value);
      CreatedPerformed(old(Box()), msg.id, name, target.value, effect, luck.change);
      outcome := ModifyMessage(msg.id, effect, luck.change);
    }

    method ExecuteRemoveLabel(msg: Message, rule: Rule, p: Provider) returns (outcome: Outcome)
      requires rule.action.RemoveLabel?
      modifies this`labels, this`marks, this`sent
      ensures (Box(), outcome) == Act(old(Box()), msg, rule, p)
    {
      hide LabelsOf, Change, Perform;
      var luck := p.luck(rule.id);
      NothingPerformed(Box(), msg.id, Error);
      if rule.action.name.None? {
        return Error;
      }
      var target := GetLabelByName(rule.action.name.value, luck);
      if target.None? {
        return Error;
      }
      outcome := ModifyMessage(msg.id, Removes(target.value), luck.change);
    }

    /** Carry out the action of a rule. */
    method ExecuteRuleAction(msg: Message, rule: Rule, p: Provider) returns (outcome: Outcome)
      modifies this`labels, this`marks, this`sent
      ensures (Box(), outcome) == Act(old(Box()), msg, rule, p)
    {
      hide ReplyRaw, LabelsOf, Change, Perform;
      var ok := p.luck(rule.id).change;
      NothingPerformed(Box(), msg.id, Error);
      NothingPerformed(Box(), msg.id, Success(NoLabel));
      match rule.action {
        case AutoReply(_) =>
          outcome := ExecuteAutoReply(msg, rule, p);
        case Forward =>
          outcome := Success(NoLabel);
        case AddLabel(_) =>
          outcome := ExecuteAddLabel(msg, rule, p);
        case RemoveLabel(_) =>
          outcome := ExecuteRemoveLabel(msg, rule, p);
        case MarkRead =>
          outcome := ModifyMessage(msg.id, Removes("UNREAD"), ok);
        case MarkUnread =>
          outcome := ModifyMessage(msg.id, Adds("UNREAD"), ok);
        case Archive =>
          outcome := ModifyMessage(msg.id, Removes("INBOX"), ok);
        case Trash =>
          outcome := ModifyMessage(msg.id, Adds("TRASH"), ok);
        case Star =>
          outcome := ModifyMessage(msg.id, Adds("STARRED"), ok);
        case Unstar =>
          outcome := ModifyMessage(msg.id, Removes("STARRED"), ok);
        case OtherAction =>
          outcome := Error;
      }
    }

    /** Save the message, then go through the rules in order. */
    method ProcessMessageAgainstRules(d: Delivery, rules: seq<Rule>)
      requires !crashed
      modifies this`table, this`labels, this`marks, this`sent, this`crashed, this`log
      ensures W() == Handle(old(W()), account, d, rules)
    {
      hide RunRules, RowOf, Upsert, Directory;
      var saved := StoreMessageInDB(d.msg, d.saves);
      if !saved {
        return;
      }
      log := log + [Saved(d.msg)];
      ApplyRules(d.msg, d.provider, rules);
    }

    /** The rules in order; an action that fails does not hold up the next. */
    method ApplyRules(msg: Message, p: Provider, rules: seq<Rule>)
      requires !crashed
      modifies this`labels, this`marks, this`sent, this`crashed, this`log
      ensures var all := RunRules(old(Box()), msg, rules, p);
              Box() == all.mb && crashed == all.crashed && log == old(log) + ActedAll(msg, all.attempted)
    {
      hide Act, Matches, Directory;
      ghost var tried: seq<Rule> := [];
      ghost var all := RunRules(Box(), msg, rules, p);
      var i := 0;
      while i < |rules|
        invariant 0 <= i <= |rules| && !crashed
        invariant log == old(log) + ActedAll(msg, tried)
        invariant var rest := RunRules(Box(), msg, rules[i..], p);
                  all.mb == rest.mb && all.attempted == tried + rest.attempted && all.crashed == rest.crashed
      {
        assert rules[i..][1..] == rules[i + 1..];
        var matches := CheckRuleMatch(msg, rules[i]);
        if matches {
          log, tried := log + [Acted(msg, rules[i])], tried + [rules[i]];
          var outcome := ExecuteRuleAction(msg, rules[i], p);
          if outcome.Crash? {
            crashed := true;
            return;
          }
        }
        i := i + 1;
      }
      assert rules[i..] == [];
    }

    /** One cycle: find the messages, move the cursor, handle the messages one by one. */
    method ProcessMessages(c: Cycle) returns (ok: bool)
      modifies this
      ensures S() == NextCycle(old(S()), account, c)
      ensures !ok ==> history == old(history) && lastSync == old(lastSync)
      ensures !ok ==> table == old(table) && Box() == old(Box()) && log == old(log)
    {
      hide Handle, Decimal.Print, ParseUint;
      crashed := false;
      if !c.connects {
        return false;
      }
      var cursor := GetGmailSyncState(c.syncReadable);
      if c.rules.None? {
        return false;
      }
      var activeRules := ActiveRules(c.rules.value);
      if |activeRules| == 0 {
        return true;
      }
      var messages;
      if cursor.Some? {
        var n := ParseUint(cursor.value);
        if n.None? {
          var recent := FetchRecentMessages(c.recent);
          if recent.None? {
            return false;
          }
          messages := recent.value;
        } else {
          var page := c.history(n.value);
          if page.None? {
            var recent := FetchRecentMessages(c.recent);
            if recent.None? {
              return false;
            }
            messages := recent.value;
          } else {
            messages := ProcessHistoryItems(page.value.items);
            if page.value.id != 0 {
              var _ := UpdateGmailSyncState(Decimal.Print(page.value.id), c.now, c.syncSaves);
            }
          }
        }
      } else {
        var recent := FetchRecentMessages(c.recent);
        if recent.None? {
          return false;
        }
        messages := recent.value;
        if c.profile.Some? && c.profile.value != 0 {
          var _ := UpdateGmailSyncState(Decimal.Print(c.profile.value), c.now, c.syncSaves);
        }
      }
      HandleMessages(messages, activeRules);
      return true;
    }

    method HandleMessages(messages: seq<Delivery>, rules: seq<Rule>)
      requires !crashed
      modifies this`table, this`labels, this`marks, this`sent, this`crashed, this`log
      ensures W() == HandleAll(old(W()), account, messages, rules)
    {
      hide Handle;
      var i := 0;
      while i < |messages| && !crashed
        invariant 0 <= i <= |messages|
        invariant HandleAll(W(), account, messages[i..], rules) == HandleAll(old(W()), account, messages, rules)
      {
        assert messages[i..][1..] == messages[i + 1..];
        ProcessMessageAgainstRules(messages[i], rules);
        i := i + 1;
      }
      if crashed {
        GmailTable.NothingAfterCrash(W(), account, messages[i..], rules);
      }
    }
  }

}
