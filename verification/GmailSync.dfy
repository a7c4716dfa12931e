/** One account's Gmail cycles: the history cursor, the message table, and the trace of what was saved and acted on. */
module GmailSync {
  import opened Wrappers
  import opened Text
  import opened Decimal
  import opened Addresses
  import opened MailText
  import opened MimeTree
  import opened GmailRules

  type AccId = nat
  type HistoryId = n: nat | n < LIMIT

  /** The two cursor columns of the account; None is NULL. */
  datatype SyncState = SyncState(history: Option<string>, lastSync: Option<int>)

  datatype Content = Content(subject: Option<string>, sender: Option<string>,
                             to: seq<string>, cc: seq<string>, bcc: seq<string>, snippet: string,
                             unread: bool, starred: bool, hasAttachments: bool, attachments: nat,
                             size: int, labels: seq<LabelId>)

  /** A row of the message table, unique in account and message id. */
  datatype StoredMessage = StoredMessage(account: AccId, id: MsgId, thread: string, received: int, content: Content)

  /** A fetched message, whether saving it will work, and how the provider will treat the actions on it. */
  datatype Delivery = Delivery(msg: Message, saves: bool, provider: Provider)

  /** A history page: for each message listed, the answer to fetching it. */
  datatype History = History(id: HistoryId, items: seq<seq<Option<Delivery>>>)

  /** What the world answers during one cycle; None is a failed call. */
  datatype Cycle = Cycle(connects: bool, syncReadable: bool, rules: Option<seq<Rule>>,
                         history: HistoryId -> Option<History>,
                         recent: Option<seq<Option<Delivery>>>, profile: Option<HistoryId>, syncSaves: bool, now: int)

  /** The trace: a message row written, a rule carried out on a message as fetched. */
  datatype Event = Saved(msg: Message) | Acted(msg: Message, rule: Rule)

  datatype Work = Work(table: seq<StoredMessage>, mb: Mailbox, log: seq<Event>, crashed: bool)

  datatype State = State(sync: SyncState, work: Work)

  // ---------- The message table ----------

  function Recipients(headers: seq<Header>, name: string): seq<string> {
    match GetHeader(headers, name)
    case None => []
    case Some(value) => TrimAll(Split(value, ','))
  }

  /** Milliseconds to seconds, towards zero. */
  function Seconds(millis: int): int {
    if millis >= 0 then millis / 1000 else -(-millis / 1000)
  }

  function ContentOf(m: Message): Content {
    Content(GetHeader(m.headers, "Subject"), GetHeader(m.headers, "From"),
            Recipients(m.headers, "To"), Recipients(m.headers, "Cc"), Recipients(m.headers, "Bcc"),
            m.snippet, "UNREAD" in m.labels, "STARRED" in m.labels,
            |m.payload.parts| > 1 || (m.bodySize > 0 && |m.payload.parts| > 0), CountAttachments(m.payload),
            m.size, m.labels)
  }

  function RowOf(acc: AccId, m: Message): StoredMessage {
    StoredMessage(acc, m.id, m.thread, Seconds(m.internalDate), ContentOf(m))
  }

  predicate SameKey(a: StoredMessage, b: StoredMessage) {
    a.account == b.account && a.id == b.id
  }

  /** Insert, or on a key already there overwrite all columns but thread and time. */
  function Upsert(table: seq<StoredMessage>, row: StoredMessage): seq<StoredMessage> {
    if table == [] then [row]
    else if SameKey(table[0], row) then [table[0].(content := row.content)] + table[1..]
    else [table[0]] + Upsert(table[1..], row)
  }

  function Upserts(table: seq<StoredMessage>, acc: AccId, msgs: seq<Message>): seq<StoredMessage> {
    if msgs == [] then table else Upsert(Upserts(table, acc, msgs[..|msgs| - 1]), RowOf(acc, msgs[|msgs| - 1]))
  }

  function Find(table: seq<StoredMessage>, acc: AccId, id: MsgId): Option<StoredMessage> {
    if table == [] then None
    else if table[0].account == acc && table[0].id == id then Some(table[0])
    else Find(table[1..], acc, id)
  }

  ghost predicate UniqueKeys(table: seq<StoredMessage>) {
    forall i, j :: 0 <= i < j < |table| ==> !SameKey(table[i], table[j])
  }

  // ---------- Handling messages ----------

  function Active(rules: seq<Rule>): seq<Rule> {
    if rules == [] then [] else (if rules[0].active then [rules[0]] else []) + Active(rules[1..])
  }

  function ActedAll(msg: Message, rules: seq<Rule>): seq<Event> {
    seq(|rules|, i requires 0 <= i < |rules| => Acted(msg, rules[i]))
  }

  /** The message is saved first; without that no rule is looked at. */
  function Handle(w: Work, acc: AccId, d: Delivery, rules: seq<Rule>): Work {
    if w.crashed || !d.saves then w
    else
      var r := RunRules(w.mb, d.msg, rules, d.provider);
      Work(Upsert(w.table, RowOf(acc, d.msg)), r.mb, w.log + [Saved(d.msg)] + ActedAll(d.msg, r.attempted), r.crashed)
  }

  function HandleAll(w: Work, acc: AccId, ds: seq<Delivery>, rules: seq<Rule>): Work
    decreases ds
  {
    if ds == [] then w else HandleAll(Handle(w, acc, ds[0], rules), acc, ds[1..], rules)
  }

  // ---------- One cycle ----------

  /** The messages that could be fetched. */
  function Kept(ds: seq<Option<Delivery>>): seq<Delivery> {
    if ds == [] then [] else (if ds[0].Some? then [ds[0].value] else []) + Kept(ds[1..])
  }

  function KeptOfItems(items: seq<seq<Option<Delivery>>>): seq<Delivery> {
    if items == [] then [] else Kept(items[0]) + KeptOfItems(items[1..])
  }

  /** The cursor as read: not at all unless both columns are there. */
  function Cursor(sync: SyncState, readable: bool): Option<string> {
    if readable && sync.lastSync.Some? then sync.history else None
  }

  /** The messages a cycle gets, and the history id to continue from, if it learns one. */
  datatype Batch = Batch(deliveries: seq<Delivery>, id: Option<HistoryId>)

  function NonZero(id: Option<HistoryId>): Option<HistoryId> {
    if id == Some(0) then None else id
  }

  function FullSync(c: Cycle, id: Option<HistoryId>): Option<Batch> {
    if c.recent.None? then None else Some(Batch(Kept(c.recent.value), id))
  }

  function Fetch(cursor: Option<string>, c: Cycle): Option<Batch> {
    match cursor
    case None => FullSync(c, NonZero(c.profile))
    case Some(h) =>
      match ParseUint(h)
      case None => FullSync(c, None)
      case Some(n) =>
        match c.history(n)
        case None => FullSync(c, None)
        case Some(page) => Some(Batch(KeptOfItems(page.items), NonZero(Some(page.id))))
  }

  /** Nothing is fetched at all without a connection, the rules, or an active one among them. */
  predicate Runs(c: Cycle) {
    c.connects && c.rules.Some? && Active(c.rules.value) != []
  }

  function BatchOf(sync: SyncState, c: Cycle): Option<Batch> {
    if Runs(c) then Fetch(Cursor(sync, c.syncReadable), c) else None
  }

  /** The id this cycle stores, if any. */
  function Stored(sync: SyncState, c: Cycle): Option<HistoryId> {
    var batch := BatchOf(sync, c);
    if batch.Some? && c.syncSaves then batch.value.id else None
  }

  function NextSync(sync: SyncState, c: Cycle): SyncState {
    var id := Stored(sync, c);
    if id.Some? then SyncState(Some(Decimal.Print(id.value)), Some(c.now)) else sync
  }

  /** A cycle after a crash is one of a restarted process. */
  function NextCycle(s: State, acc: AccId, c: Cycle): State {
    var w := s.work.(crashed := false);
    var batch := BatchOf(s.sync, c);
    State(NextSync(s.sync, c),
          if batch.Some? then HandleAll(w, acc, batch.value.deliveries, Active(c.rules.value)) else w)
  }

  function Run(s: State, acc: AccId, cycles: seq<Cycle>): State {
    if cycles == [] then s else NextCycle(Run(s, acc, cycles[..|cycles| - 1]), acc, cycles[|cycles| - 1])
  }
}
