/** The message table and the actions over whole runs of Gmail cycles. */
module GmailTable {
  import opened Wrappers
  import opened Addresses
  import opened Decimal
  import opened MailText
  import opened MimeTree
  import opened Text
  import opened GmailRules
  import opened GmailSync

  // ---------- The upsert ----------

  lemma {:induction false} UpsertFinds(table: seq<StoredMessage>, row: StoredMessage, acc: AccId, id: MsgId)
    ensures Find(Upsert(table, row), acc, id) ==
            if acc != row.account || id != row.id then Find(table, acc, id)
            else if Find(table, acc, id).Some? then Some(Find(table, acc, id).value.(content := row.content))
            else Some(row)
  {
    if table != [] && !SameKey(table[0], row) {
      UpsertFinds(table[1..], row, acc, id);
    }
  }

  lemma {:induction false} UpsertKeys(table: seq<StoredMessage>, row: StoredMessage)
    ensures forall r :: r in Upsert(table, row) ==> SameKey(r, row) || r in table
    ensures UniqueKeys(table) ==> UniqueKeys(Upsert(table, row))
  {
    if table != [] {
      UpsertKeys(table[1..], row);
      var more := Upsert(table, row);
      assert forall r :: r in more[1..] ==> SameKey(r, row) || r in table[1..];
      if UniqueKeys(table) {
        assert forall i :: 0 <= i < |table[1..]| ==> table[1..][i] == table[i + 1];
        assert more[1..] == if SameKey(table[0], row) then table[1..] else Upsert(table[1..], row);
        forall i, j | 0 <= i < j < |more| ensures !SameKey(more[i], more[j]) {
          assert more[j] == more[1..][j - 1] && more[j] in more[1..];
          if i > 0 {
            assert more[i] == more[1..][i - 1];
          }
        }
      }
    }
  }

  /** The first and the last place of a message in a list. */
  ghost predicate FirstAndLast(msgs: seq<Message>, id: MsgId, i: nat, j: nat) {
    && i <= j < |msgs| && msgs[i].id == id == msgs[j].id
    && forall k :: 0 <= k < |msgs| && msgs[k].id == id ==> i <= k <= j
  }

  ghost predicate Absent(msgs: seq<Message>, id: MsgId) {
    forall k :: 0 <= k < |msgs| ==> msgs[k].id != id
  }

  /** The row a message should have: thread and time of the row before or else of the first message saved, the
      rest of the last. */
  function Expected(before: Option<StoredMessage>, acc: AccId, first: Message, last: Message): StoredMessage {
    (if before.Some? then before.value else RowOf(acc, first)).(content := ContentOf(last))
  }

  /** After any list of saves there is still one row to a key. */
  lemma {:induction false} UpsertsKeepKeys(table: seq<StoredMessage>, acc: AccId, msgs: seq<Message>)
    requires UniqueKeys(table)
    ensures UniqueKeys(Upserts(table, acc, msgs))
  {
    hide UniqueKeys, Upsert, RowOf;
    if msgs != [] {
      var n := |msgs| - 1;
      UpsertsKeepKeys(table, acc, msgs[..n]);
      UpsertKeys(Upserts(table, acc, msgs[..n]), RowOf(acc, msgs[n]));
    }
  }

  /** After any list of saves: rows of other accounts and of messages not in the list are as before; and the row of
      a message in the list is the one it should have, however often it occurs. */
  lemma {:induction false} UpsertsAgree(table: seq<StoredMessage>, acc: AccId, msgs: seq<Message>, a: AccId, id: MsgId,
      i: nat, j: nat)
    ensures a != acc || Absent(msgs, id) ==> Find(Upserts(table, acc, msgs), a, id) == Find(table, a, id)
    ensures FirstAndLast(msgs, id, i, j) ==>
              Find(Upserts(table, acc, msgs), acc, id) == Some(Expected(Find(table, acc, id), acc, msgs[i], msgs[j]))
  {
    hide ContentOf, Find, Upsert;
    if msgs != [] {
      var n := |msgs| - 1;
      var front, last := msgs[..n], msgs[n];
      UpsertsAgree(table, acc, front, a, id, i, if j < n then j else LastPlace(front, id, i));
      UpsertFinds(Upserts(table, acc, front), RowOf(acc, last), a, id);
      UpsertFinds(Upserts(table, acc, front), RowOf(acc, last), acc, id);
      if FirstAndLast(msgs, id, i, j) && j == n && i == n {
        UpsertsAgree(table, acc, front, acc, id, i, j);
      }
    }
  }

  /** The last place of a message, if it has one from `from` on. */
  function LastPlace(msgs: seq<Message>, id: MsgId, from: nat): (j: nat)
    ensures from < |msgs| && msgs[from].id == id ==>
              from <= j < |msgs| && msgs[j].id == id && forall k :: j < k < |msgs| ==> msgs[k].id != id
    decreases |msgs|
  {
    if msgs == [] || msgs[|msgs| - 1].id == id then (if |msgs| > 0 then |msgs| - 1 else 0)
    else LastPlace(msgs[..|msgs| - 1], id, from)
  }

  // ---------- Runs ----------

  /** The messages saved, from a trace. */
  function SavedMessages(log: seq<Event>): seq<Message> {
    if log == [] then []
    else SavedMessages(log[..|log| - 1]) + if log[|log| - 1].Saved? then [log[|log| - 1].msg] else []
  }

  lemma {:induction false} SavedOfActed(log: seq<Event>, msg: Message, rules: seq<Rule>)
    ensures SavedMessages(log + ActedAll(msg, rules)) == SavedMessages(log)
    decreases |rules|
  {
    var n := |rules|;
    if n == 0 {
      assert log + ActedAll(msg, rules) == log;
    } else {
      var all := log + ActedAll(msg, rules);
      assert all[..|all| - 1] == log + ActedAll(msg, rules[..n - 1]);
      SavedOfActed(log, msg, rules[..n - 1]);
    }
  }

  /** After these events, the message an action is on has its row, holding exactly the snapshot the rule matched. */
  ghost predicate HasRow(table: seq<StoredMessage>, acc: AccId, log: seq<Event>, msg: Message, rule: Rule) {
    var row := Find(Upserts(table, acc, SavedMessages(log)), acc, msg.id);
    row.Some? && row.value.content == ContentOf(msg) && Matches(msg, rule)
  }

  ghost predicate ActsOnRows(table: seq<StoredMessage>, acc: AccId, log: seq<Event>) {
    forall k :: 0 <= k < |log| && log[k].Acted? ==> HasRow(table, acc, log[..k], log[k].msg, log[k].rule)
  }

  /** The work done so far, from a given table on, is what the trace says. */
  ghost predicate Traced(table: seq<StoredMessage>, acc: AccId, w: Work) {
    && w.table == Upserts(table, acc, SavedMessages(w.log))
    && ActsOnRows(table, acc, w.log)
  }

  lemma {:induction false} AttemptsMatch(mb: Mailbox, msg: Message, rules: seq<Rule>, p: Provider)
    ensures forall r :: r in RunRules(mb, msg, rules, p).attempted ==> Matches(msg, r)
    decreases rules
  {
    if rules != [] {
      var mb' := if Matches(msg, rules[0]) then Act(mb, msg, rules[0], p).0 else mb;
      AttemptsMatch(mb', msg, rules[1..], p);
    }
  }

  lemma SavedOfHandled(log: seq<Event>, msg: Message, rules: seq<Rule>)
    ensures SavedMessages(log + [Saved(msg)] + ActedAll(msg, rules)) == SavedMessages(log) + [msg]
  {
    var start := log + [Saved(msg)];
    assert start[..|start| - 1] == log;
    SavedOfActed(start, msg, rules);
  }

  lemma SavedHasRow(table: seq<StoredMessage>, acc: AccId, log: seq<Event>, msg: Message, before: seq<Rule>, rule: Rule)
    requires Matches(msg, rule)
    ensures HasRow(table, acc, log + [Saved(msg)] + ActedAll(msg, before), msg, rule)
  {
    hide ContentOf, Matches, Upsert, Find;
    var saved := SavedMessages(log) + [msg];
    SavedOfHandled(log, msg, before);
    assert saved[..|saved| - 1] == SavedMessages(log);
    UpsertFinds(Upserts(table, acc, SavedMessages(log)), RowOf(acc, msg), acc, msg.id);
  }

  lemma ActsOnRowsGrows(table: seq<StoredMessage>, acc: AccId, log: seq<Event>, msg: Message, rules: seq<Rule>)
    requires ActsOnRows(table, acc, log) && forall r :: r in rules ==> Matches(msg, r)
    ensures ActsOnRows(table, acc, log + [Saved(msg)] + ActedAll(msg, rules))
  {
    hide HasRow, Matches;
    var start := log + [Saved(msg)];
    var all := start + ActedAll(msg, rules);
    forall k | 0 <= k < |all| && all[k].Acted? ensures HasRow(table, acc, all[..k], all[k].msg, all[k].rule) {
      if k < |log| {
        assert all[..k] == log[..k] && all[k] == log[k];
      } else {
        var n := k - |start|;
        assert all[..k] == start + ActedAll(msg, rules[..n]) && all[k] == Acted(msg, rules[n]);
        SavedHasRow(table, acc, log, msg, rules[..n], rules[n]);
      }
    }
  }

  lemma HandleTraced(table: seq<StoredMessage>, w: Work, acc: AccId, d: Delivery, rules: seq<Rule>)
    requires Traced(table, acc, w)
    ensures Traced(table, acc, Handle(w, acc, d, rules))
  {
    hide RunRules, RowOf, ActsOnRows, Upsert;
    if !w.crashed && d.saves {
      var r := RunRules(w.mb, d.msg, rules, d.provider);
      AttemptsMatch(w.mb, d.msg, rules, d.provider);
      ActsOnRowsGrows(table, acc, w.log, d.msg, r.attempted);
      SavedOfHandled(w.log, d.msg, r.attempted);
      var saved := SavedMessages(w.log) + [d.msg];
      assert saved[..|saved| - 1] == SavedMessages(w.log);
    }
  }

  lemma {:induction false} HandleAllTraced(table: seq<StoredMessage>, w: Work, acc: AccId, ds: seq<Delivery>,
      rules: seq<Rule>)
    requires Traced(table, acc, w)
    ensures Traced(table, acc, HandleAll(w, acc, ds, rules))
    decreases ds
  {
    hide Traced, Handle;
    if ds != [] {
      HandleTraced(table, w, acc, ds[0], rules);
      HandleAllTraced(table, Handle(w, acc, ds[0], rules), acc, ds[1..], rules);
    }
  }

  /** A run that starts with an empty trace keeps table and trace in step. */
  lemma {:induction false} RunTraced(s: State, acc: AccId, cycles: seq<Cycle>)
    requires s.work.log == []
    ensures Traced(s.work.table, acc, Run(s, acc, cycles).work)
  {
    hide Fetch, HandleAll, ActsOnRows, Active;
    if cycles == [] {
      assert ActsOnRows(s.work.table, acc, []) by {
        NothingActed(s.work.table, acc);
      }
    } else {
      var n := |cycles| - 1;
      RunTraced(s, acc, cycles[..n]);
      var before := Run(s, acc, cycles[..n]);
      var w, batch := before.work.(crashed := false), BatchOf(before.sync, cycles[n]);
      if batch.Some? {
        HandleAllTraced(s.work.table, w, acc, batch.value.deliveries, Active(cycles[n].rules.value));
      }
    }
  }

  lemma NothingActed(table: seq<StoredMessage>, acc: AccId)
    ensures ActsOnRows(table, acc, [])
  {
  }

  /** Over any run, the table agrees with the messages saved, duplicates included: one row to a key; nothing else
      changes; thread and time stay as first saved, the rest is as last saved. */
  lemma TableAgrees(s: State, acc: AccId, cycles: seq<Cycle>, a: AccId, id: MsgId, i: nat, j: nat)
    requires s.work.log == [] && UniqueKeys(s.work.table)
    ensures var w, before := Run(s, acc, cycles).work, s.work.table;
            var saved := SavedMessages(w.log);
            && UniqueKeys(w.table)
            && (a != acc || Absent(saved, id) ==> Find(w.table, a, id) == Find(before, a, id))
            && (FirstAndLast(saved, id, i, j) ==>
                  Find(w.table, acc, id) == Some(Expected(Find(before, acc, id), acc, saved[i], saved[j])))
  {
    hide Run, Expected, Find;
    RunTraced(s, acc, cycles);
    UpsertsKeepKeys(s.work.table, acc, SavedMessages(Run(s, acc, cycles).work.log));
    UpsertsAgree(s.work.table, acc, SavedMessages(Run(s, acc, cycles).work.log), a, id, i, j);
  }

  /** Over any run, every rule carried out matched the message, and the message had its row at the time, holding
      the very snapshot that was matched. */
  lemma ActionsHaveRows(s: State, acc: AccId, cycles: seq<Cycle>)
    requires s.work.log == []
    ensures ActsOnRows(s.work.table, acc, Run(s, acc, cycles).work.log)
  {
    hide Run, ActsOnRows;
    RunTraced(s, acc, cycles);
  }

  // ---------- What one cycle does ----------

  /** What should happen to a message: if it can be saved it is, and then each active rule that matches is carried
      out once, in order. */
  function ExpectedOf(d: Delivery, rules: seq<Rule>): seq<Event> {
    if d.saves then [Saved(d.msg)] + ActedAll(d.msg, Applicable(d.msg, rules)) else []
  }

  function ExpectedTrace(ds: seq<Delivery>, rules: seq<Rule>): seq<Event> {
    if ds == [] then [] else ExpectedOf(ds[0], rules) + ExpectedTrace(ds[1..], rules)
  }

  ghost predicate Stopping(ds: seq<Delivery>, rules: seq<Rule>) {
    exists i :: 0 <= i < |ds| && ds[i].saves && Fatal(ds[i].msg, rules)
  }

  lemma MessageIsHandled(w: Work, acc: AccId, d: Delivery, rules: seq<Rule>)
    requires !w.crashed
    ensures Handle(w, acc, d, rules).crashed <==> d.saves && Fatal(d.msg, rules)
    ensures !Handle(w, acc, d, rules).crashed ==> Handle(w, acc, d, rules).log == w.log + ExpectedOf(d, rules)
  {
    hide RunRules, Applicable, RowOf, Upsert, Fatal;
    AttemptsAreApplicable(w.mb, d.msg, rules, d.provider);
    CrashExactly(w.mb, d.msg, rules, d.provider);
  }

  lemma {:induction false} NothingAfterCrash(w: Work, acc: AccId, ds: seq<Delivery>, rules: seq<Rule>)
    requires w.crashed
    ensures HandleAll(w, acc, ds, rules) == w
    decreases ds
  {
    if ds != [] {
      NothingAfterCrash(w, acc, ds[1..], rules);
    }
  }

  /** The batch stops exactly at a message that some rule would reply to without a sender; otherwise all messages
      are handled, whatever calls fail. */
  lemma {:induction false} BatchIsHandled(w: Work, acc: AccId, ds: seq<Delivery>, rules: seq<Rule>)
    requires !w.crashed
    ensures HandleAll(w, acc, ds, rules).crashed <==> Stopping(ds, rules)
    ensures !Stopping(ds, rules) ==> HandleAll(w, acc, ds, rules).log == w.log + ExpectedTrace(ds, rules)
    decreases ds
  {
    hide Handle, ExpectedOf, Fatal;
    if ds == [] {
      assert w.log + [] == w.log;
    } else {
      MessageIsHandled(w, acc, ds[0], rules);
      assert Stopping(ds, rules) <==> (ds[0].saves && Fatal(ds[0].msg, rules)) || Stopping(ds[1..], rules) by {
        assert forall i :: 0 < i < |ds| ==> ds[i] == ds[1..][i - 1];
      }
      if Handle(w, acc, ds[0], rules).crashed {
        NothingAfterCrash(Handle(w, acc, ds[0], rules), acc, ds[1..], rules);
      } else {
        BatchIsHandled(Handle(w, acc, ds[0], rules), acc, ds[1..], rules);
      }
    }
  }

  // ---------- How often a rule is carried out ----------

  function Acts(log: seq<Event>, id: MsgId, r: Rule): nat {
    if log == [] then 0
    else (if log[0].Acted? && log[0].msg.id == id && log[0].rule == r then 1 else 0) + Acts(log[1..], id, r)
  }

  /** How often the message comes in, can be saved, and matches the rule as it then is. */
  function Arrivals(ds: seq<Delivery>, id: MsgId, r: Rule): nat {
    if ds == [] then 0
    else (if ds[0].saves && ds[0].msg.id == id && Matches(ds[0].msg, r) then 1 else 0) + Arrivals(ds[1..], id, r)
  }

  lemma {:induction false} ActsAppend(a: seq<Event>, b: seq<Event>, id: MsgId, r: Rule)
    ensures Acts(a + b, id, r) == Acts(a, id, r) + Acts(b, id, r)
  {
    if a == [] {
      assert a + b == b;
    } else {
      assert (a + b)[1..] == a[1..] + b;
      ActsAppend(a[1..], b, id, r);
    }
  }

  lemma {:induction false} ActsOfAll(msg: Message, rules: seq<Rule>, id: MsgId, r: Rule)
    ensures Acts(ActedAll(msg, rules), id, r) == if msg.id == id then multiset(rules)[r] else 0
  {
    if rules != [] {
      ActsOfAll(msg, rules[1..], id, r);
      assert ActedAll(msg, rules)[1..] == ActedAll(msg, rules[1..]);
      assert rules == [rules[0]] + rules[1..];
    }
  }

  lemma {:induction false} ActsExpected(ds: seq<Delivery>, rules: seq<Rule>, id: MsgId, r: Rule)
    ensures Acts(ExpectedTrace(ds, rules), id, r) == Arrivals(ds, id, r) * multiset(rules)[r]
  {
    hide Matches, Applicable, ActedAll;
    if ds != [] {
      var all := Applicable(ds[0].msg, rules);
      ActsExpected(ds[1..], rules, id, r);
      ActsAppend(ExpectedOf(ds[0], rules), ExpectedTrace(ds[1..], rules), id, r);
      ActsAppend([Saved(ds[0].msg)], ActedAll(ds[0].msg, all), id, r);
      ActsOfAll(ds[0].msg, all, id, r);
      ApplicableCounts(ds[0].msg, rules, r);
      OneMore(Arrivals(ds[1..], id, r), multiset(rules)[r]);
      assert Acts([Saved(ds[0].msg)], id, r) == 0 && Acts([], id, r) == 0;
    }
  }

  lemma OneMore(n: nat, k: nat)
    ensures (1 + n) * k == k + n * k
  {
  }

  /** There is no deduplication: in a batch that does not stop, an active rule is carried out on a message exactly
      as often as the message comes in and matches (times the number of times the rule is listed), so more than once
      exactly when it does so more than once. */
  lemma ActsExactly(w: Work, acc: AccId, ds: seq<Delivery>, rules: seq<Rule>, id: MsgId, r: Rule)
    requires !w.crashed && !Stopping(ds, rules)
    ensures Acts(HandleAll(w, acc, ds, rules).log, id, r) ==
            Acts(w.log, id, r) + Arrivals(ds, id, r) * multiset(rules)[r]
  {
    BatchIsHandled(w, acc, ds, rules);
    ActsAppend(w.log, ExpectedTrace(ds, rules), id, r);
    ActsExpected(ds, rules, id, r);
  }

  // ---------- Messages that get lost ----------

  /** How many messages a history page lists. */
  function Listed(items: seq<seq<Option<Delivery>>>): nat {
    if items == [] then 0 else |items[0]| + Listed(items[1..])
  }

  predicate AllFetched(items: seq<seq<Option<Delivery>>>) {
    forall i, j | 0 <= i < |items| && 0 <= j < |items[i]| :: items[i][j].Some?
  }

  /** Every message can be saved, and none but the last stops the program. */
  ghost predicate AllSaved(ds: seq<Delivery>, rules: seq<Rule>) {
    forall i :: 0 <= i < |ds| ==> ds[i].saves && (i < |ds| - 1 ==> !Fatal(ds[i].msg, rules))
  }

  /** What is kept, at each place of a list: what could be fetched, in the order of the list, and nothing else. */
  lemma {:induction false} KeptInOrder(ds: seq<Option<Delivery>>, i: nat)
    requires i < |ds|
    ensures Kept(ds) == Kept(ds[..i]) + (if ds[i].Some? then [ds[i].value] else []) + Kept(ds[i + 1..])
    ensures Kept([]) == []
  {
    if i > 0 {
      KeptInOrder(ds[1..], i - 1);
      assert ds[1..][..i - 1] == ds[..i][1..] && ds[1..][i..] == ds[i + 1..];
    } else {
      assert ds[..0] == [];
    }
  }

  lemma {:induction false} KeptItemsInOrder(items: seq<seq<Option<Delivery>>>, i: nat)
    requires i < |items|
    ensures KeptOfItems(items) == KeptOfItems(items[..i]) + Kept(items[i]) + KeptOfItems(items[i + 1..])
    ensures KeptOfItems([]) == []
  {
    if i > 0 {
      KeptItemsInOrder(items[1..], i - 1);
      assert items[1..][..i - 1] == items[..i][1..] && items[1..][i..] == items[i + 1..];
    } else {
      assert items[..0] == [];
    }
  }

  /** The active rules, at each place of the list, in its order. */
  lemma {:induction false} ActiveInOrder(rules: seq<Rule>, i: nat)
    requires i < |rules|
    ensures Active(rules) == Active(rules[..i]) + (if rules[i].active then [rules[i]] else []) + Active(rules[i + 1..])
    ensures Active([]) == []
  {
    if i > 0 {
      ActiveInOrder(rules[1..], i - 1);
      assert rules[1..][..i - 1] == rules[..i][1..] && rules[1..][i..] == rules[i + 1..];
    } else {
      assert rules[..0] == [];
    }
  }

  lemma {:induction false} SomeActive(rules: seq<Rule>)
    ensures Active(rules) != [] <==> exists r :: r in rules && r.active
  {
    if rules != [] {
      SomeActive(rules[1..]);
      assert rules[0] in rules;
      assert forall r :: r in rules ==> r == rules[0] || r in rules[1..];
    }
  }

  lemma {:induction false} KeptSize(ds: seq<Option<Delivery>>)
    ensures |Kept(ds)| <= |ds|
    ensures |Kept(ds)| == |ds| <==> forall j :: 0 <= j < |ds| ==> ds[j].Some?
  {
    if ds != [] {
      KeptSize(ds[1..]);
      assert forall j :: 0 < j < |ds| ==> ds[j] == ds[1..][j - 1];
    }
  }

  lemma {:induction false} KeptOfItemsSize(items: seq<seq<Option<Delivery>>>)
    ensures |KeptOfItems(items)| <= Listed(items)
    ensures |KeptOfItems(items)| == Listed(items) <==> AllFetched(items)
  {
    if items != [] {
      KeptSize(items[0]);
      KeptOfItemsSize(items[1..]);
      assert forall i :: 0 < i < |items| ==> items[i] == items[1..][i - 1];
      assert AllFetched(items) <==> (forall j :: 0 <= j < |items[0]| ==> items[0][j].Some?) && AllFetched(items[1..]);
    }
  }

  lemma {:induction false} SavedSize(w: Work, acc: AccId, ds: seq<Delivery>, rules: seq<Rule>)
    requires !w.crashed
    ensures var n := |SavedMessages(HandleAll(w, acc, ds, rules).log)| - |SavedMessages(w.log)|;
            0 <= n <= |ds| && (n == |ds| <==> AllSaved(ds, rules))
    decreases ds
  {
    hide Fatal, SavedMessages, RunRules;
    if ds != [] {
      var d, w' := ds[0], Handle(w, acc, ds[0], rules);
      MessageIsHandled(w, acc, d, rules);
      AllSavedFirst(ds, rules);
      if d.saves {
        SavedOfHandled(w.log, d.msg, RunRules(w.mb, d.msg, rules, d.provider).attempted);
      }
      if w'.crashed {
        NothingAfterCrash(w', acc, ds[1..], rules);
      } else {
        SavedSize(w', acc, ds[1..], rules);
      }
    }
  }

  lemma AllSavedFirst(ds: seq<Delivery>, rules: seq<Rule>)
    requires ds != []
    ensures AllSaved(ds, rules) <==>
            ds[0].saves && (|ds| > 1 ==> !Fatal(ds[0].msg, rules)) && AllSaved(ds[1..], rules)
  {
    assert forall i :: 0 < i < |ds| ==> ds[i] == ds[1..][i - 1];
  }

  /** A batch, from the start of a cycle: as many rows are written as there are messages exactly when each can be
      saved and none but the last stops the program; and unless one stops it, each is saved if it can be, and the
      active rules that match are then carried out on it in order. */
  lemma BatchFromStart(w: Work, acc: AccId, ds: seq<Delivery>, rules: seq<Rule>)
    ensures var t := HandleAll(w.(crashed := false), acc, ds, rules);
            && |SavedMessages(w.log)| <= |SavedMessages(t.log)| <= |SavedMessages(w.log)| + |ds|
            && (|SavedMessages(t.log)| == |SavedMessages(w.log)| + |ds| <==> AllSaved(ds, rules))
            && (!Stopping(ds, rules) ==> t.log == w.log + ExpectedTrace(ds, rules))
  {
    hide HandleAll, SavedMessages, AllSaved, Stopping, ExpectedTrace;
    SavedSize(w.(crashed := false), acc, ds, rules);
    BatchIsHandled(w.(crashed := false), acc, ds, rules);
  }

  /** This message is the first to stop the program. */
  ghost predicate StopsAt(ds: seq<Delivery>, rules: seq<Rule>, i: nat) {
    && i < |ds| && ds[i].saves && Fatal(ds[i].msg, rules)
    && forall k :: 0 <= k < i ==> !(ds[k].saves && Fatal(ds[k].msg, rules))
  }

  lemma {:induction false} HandleAllAppend(w: Work, acc: AccId, a: seq<Delivery>, b: seq<Delivery>, rules: seq<Rule>)
    ensures HandleAll(w, acc, a + b, rules) == HandleAll(HandleAll(w, acc, a, rules), acc, b, rules)
    decreases a
  {
    hide Handle;
    if a == [] {
      assert a + b == b;
    } else {
      assert (a + b)[1..] == a[1..] + b;
      HandleAllAppend(Handle(w, acc, a[0], rules), acc, a[1..], b, rules);
    }
  }

  /** Up to the first message that stops the program all is done as it should be; that message is still saved, some
      rules may be carried out on it, and nothing is done about the messages after it. */
  lemma BatchStops(w: Work, acc: AccId, ds: seq<Delivery>, rules: seq<Rule>, i: nat) returns (tried: seq<Rule>)
    requires !w.crashed && StopsAt(ds, rules, i)
    ensures HandleAll(w, acc, ds, rules).crashed
    ensures HandleAll(w, acc, ds, rules).log ==
            w.log + ExpectedTrace(ds[..i], rules) + [Saved(ds[i].msg)] + ActedAll(ds[i].msg, tried)
    ensures forall r :: r in tried ==> Matches(ds[i].msg, r)
  {
    hide Fatal, RunRules, Matches, RowOf, Upsert, ExpectedTrace;
    var before := HandleAll(w, acc, ds[..i], rules);
    assert ds == ds[..i] + ([ds[i]] + ds[i + 1..]);
    assert ([ds[i]] + ds[i + 1..])[1..] == ds[i + 1..];
    HandleAllAppend(w, acc, ds[..i], [ds[i]] + ds[i + 1..], rules);
    BatchIsHandled(w, acc, ds[..i], rules);
    MessageIsHandled(before, acc, ds[i], rules);
    NothingAfterCrash(Handle(before, acc, ds[i], rules), acc, ds[i + 1..], rules);
    tried := RunRules(before.mb, ds[i].msg, rules, ds[i].provider).attempted;
    AttemptsMatch(before.mb, ds[i].msg, rules, ds[i].provider);
  }

  /** The cursor is there, reads as a number, and the provider has a history from there. */
  predicate HistoryAnswers(s: State, c: Cycle) {
    && c.syncReadable && s.sync.history.Some? && s.sync.lastSync.Some?
    && ParseUint(s.sync.history.value).Some? && c.history(ParseUint(s.sync.history.value).value).Some?
  }

  /** A cycle that reads a history page: as many rows are written as the page lists messages exactly when each of
      them can be fetched and saved and none but the last stops the program; unless one stops it, all that can be
      are saved and the active rules that match carried out on each, in order. The cursor moves on in any case, to
      the page's id if that is not zero and can be saved, so what is not saved then is not asked for again. */
  lemma PageSavedExactly(s: State, acc: AccId, c: Cycle, rules: seq<Rule>, page: History)
    requires c.connects && c.rules == Some(rules) && exists r :: r in rules && r.active
    requires HistoryAnswers(s, c) && c.history(ParseUint(s.sync.history.value).value) == Some(page)
    ensures var t, ds, active := NextCycle(s, acc, c), KeptOfItems(page.items), Active(rules);
            && (|SavedMessages(t.work.log)| == |SavedMessages(s.work.log)| + Listed(page.items) <==>
                AllFetched(page.items) && AllSaved(ds, active))
            && (!Stopping(ds, active) ==> t.work.log == s.work.log + ExpectedTrace(ds, active))
            && t.work == HandleAll(s.work.(crashed := false), acc, ds, active)
            && t.sync == if page.id != 0 && c.syncSaves then SyncState(Some(Decimal.Print(page.id)), Some(c.now))
                         else s.sync
  {
    hide HandleAll, SavedMessages, AllSaved, AllFetched, ParseUint, Active, Stopping, ExpectedTrace;
    SomeActive(rules);
    KeptOfItemsSize(page.items);
    BatchFromStart(s.work, acc, KeptOfItems(page.items), Active(rules));
  }

  /** A cycle that falls back on the recent messages, because there is no cursor, or it does not read as a number,
      or there is no history from there: the same for the list of recent messages. The cursor moves only when it
      could not be read at all, to the id of the profile if the provider gives one that is not zero and it can be
      saved. */
  lemma RecentSavedExactly(s: State, acc: AccId, c: Cycle, rules: seq<Rule>, list: seq<Option<Delivery>>)
    requires c.connects && c.rules == Some(rules) && exists r :: r in rules && r.active
    requires !HistoryAnswers(s, c) && c.recent == Some(list)
    ensures var t, ds, active := NextCycle(s, acc, c), Kept(list), Active(rules);
            && (|SavedMessages(t.work.log)| == |SavedMessages(s.work.log)| + |list| <==>
                (forall j :: 0 <= j < |list| ==> list[j].Some?) && AllSaved(ds, active))
            && (!Stopping(ds, active) ==> t.work.log == s.work.log + ExpectedTrace(ds, active))
            && t.work == HandleAll(s.work.(crashed := false), acc, ds, active)
            && var unread := !c.syncReadable || s.sync.history.None? || s.sync.lastSync.None?;
            t.sync == if unread && c.syncSaves && c.profile.Some? && c.profile.value != 0
                      then SyncState(Some(Decimal.Print(c.profile.value)), Some(c.now)) else s.sync
  {
    hide HandleAll, SavedMessages, AllSaved, ParseUint, Active, Stopping, ExpectedTrace, Kept;
    SomeActive(rules);
    KeptSize(list);
    BatchFromStart(s.work, acc, Kept(list), Active(rules));
  }

  /** Without a connection, the rules, an active one among them, or any listing, a cycle changes nothing. */
  lemma NothingToDo(s: State, acc: AccId, c: Cycle)
    requires !c.connects || c.rules.None? || (forall r :: r in c.rules.value ==> !r.active)
             || (!HistoryAnswers(s, c) && c.recent.None?)
    ensures NextCycle(s, acc, c) == s.(work := s.work.(crashed := false))
  {
    hide HandleAll, ParseUint, Active;
    if c.rules.Some? {
      SomeActive(c.rules.value);
    }
  }

  // ---------- Labels over a batch ----------

  /** The actions done on a message over a batch, by their effects, in order. */
  function BatchEffects(w: Work, acc: AccId, ds: seq<Delivery>, rules: seq<Rule>, id: MsgId): seq<Effect>
    decreases ds
  {
    if ds == [] then []
    else
      (if !w.crashed && ds[0].saves && ds[0].msg.id == id
       then EffectsOf(RunRules(w.mb, ds[0].msg, rules, ds[0].provider).done) else [])
      + BatchEffects(Handle(w, acc, ds[0], rules), acc, ds[1..], rules, id)
  }

  /** Whether a message ends a batch with a label: as the last successful action on it that touches the label says,
      and as before if there is none. */
  lemma {:induction false} BatchLabels(w: Work, acc: AccId, ds: seq<Delivery>, rules: seq<Rule>, id: MsgId, l: LabelId)
    ensures l in LabelsOf(HandleAll(w, acc, ds, rules).mb, id) <==>
            Written(l in LabelsOf(w.mb, id), BatchEffects(w, acc, ds, rules, id), l)
    decreases ds
  {
    hide RunRules, LabelsOf, RowOf, Upsert, ActedAll;
    if ds != [] {
      var d, w' := ds[0], Handle(w, acc, ds[0], rules);
      BatchLabels(w', acc, ds[1..], rules, id, l);
      var rest := BatchEffects(w', acc, ds[1..], rules, id);
      if !w.crashed && d.saves {
        RunLabels(w.mb, d.msg, rules, d.provider, id, l);
        if d.msg.id == id {
          var mine := EffectsOf(RunRules(w.mb, d.msg, rules, d.provider).done);
          WrittenAppend(l in LabelsOf(w.mb, id), mine, rest, l);
        } else {
          assert [] + rest == rest;
        }
      } else {
        assert [] + rest == rest;
      }
    }
  }

  // ---------- What a row says ----------

  /** A row holds what the message says: the first header of each name, the pieces of the address headers, the marks its
      labels stand for, the number of files in it, and its time to the whole second towards zero. */
  lemma RowSays(acc: AccId, m: Message, value: string) returns (files: set<Path>)
    ensures var row, c := RowOf(acc, m), RowOf(acc, m).content;
            && row.account == acc && row.id == m.id && row.thread == m.thread
            && -1000 < m.internalDate - 1000 * row.received < 1000
            && (if m.internalDate >= 0 then 0 <= 1000 * row.received <= m.internalDate
                else m.internalDate <= 1000 * row.received <= 0)
            && (c.subject == Some(value) <==> FirstValue(m.headers, "Subject", value))
            && (c.sender == Some(value) <==> FirstValue(m.headers, "From", value))
            && (FirstValue(m.headers, "To", value) ==> PiecesOf(c.to, value))
            && (FirstValue(m.headers, "Cc", value) ==> PiecesOf(c.cc, value))
            && (FirstValue(m.headers, "Bcc", value) ==> PiecesOf(c.bcc, value))
            && ((forall h :: h in m.headers ==> h.name != "To") ==> c.to == [])
            && ((forall h :: h in m.headers ==> h.name != "Cc") ==> c.cc == [])
            && ((forall h :: h in m.headers ==> h.name != "Bcc") ==> c.bcc == [])
            && c.snippet == m.snippet && c.size == m.size && c.labels == m.labels
            && (c.unread <==> "UNREAD" in m.labels) && (c.starred <==> "STARRED" in m.labels)
            && (c.hasAttachments <==> |m.payload.parts| > 1 || (|m.payload.parts| == 1 && m.bodySize > 0))
            && c.attachments == |files|
    ensures forall path :: path in files <==> IsFile(m.payload, path)
  {
    hide GetHeader, FirstValue, CountAttachments, Split, TrimAll;
    files := CountsFiles(m.payload);
    HeaderIsFirst(m.headers, "Subject", value);
    HeaderIsFirst(m.headers, "From", value);
    HeaderIsFirst(m.headers, "To", value);
    HeaderIsFirst(m.headers, "Cc", value);
    HeaderIsFirst(m.headers, "Bcc", value);
  }

  /** The pieces between commas, each trimmed. */
  ghost predicate PiecesOf(pieces: seq<string>, value: string) {
    pieces == TrimAll(Split(value, ','))
  }

  /** Looking up a key finds the row that has it, if there is one. */
  lemma {:induction false} FindExactly(table: seq<StoredMessage>, acc: AccId, id: MsgId, row: StoredMessage)
    requires UniqueKeys(table)
    ensures Find(table, acc, id) == Some(row) <==> row in table && row.account == acc && row.id == id
  {
    if table != [] {
      assert forall i :: 0 <= i < |table[1..]| ==> table[1..][i] == table[i + 1];
      FindExactly(table[1..], acc, id, row);
      assert forall r :: r in table[1..] ==> !SameKey(table[0], r);
      assert forall r :: r in table <==> r == table[0] || r in table[1..];
    }
  }
}
