/** The history cursor over whole runs. */
module GmailCursor {
  import opened Wrappers
  import opened Decimal
  import opened GmailSync

  const UNSET := SyncState(None, None)

  /** The ids stored during a run, oldest first. */
  function StoredIds(s: State, acc: AccId, cycles: seq<Cycle>): seq<HistoryId> {
    if cycles == [] then []
    else
      var before := cycles[..|cycles| - 1];
      Snoc(StoredIds(s, acc, before), Stored(Run(s, acc, before).sync, cycles[|cycles| - 1]))
  }

  /** From an unset cursor: at any time it is the decimal form of the id stored last, which is not zero and reads
      back as stored; so the fallback for an unreadable number is never taken. */
  lemma {:induction false} CursorInvariant(s: State, acc: AccId, cycles: seq<Cycle>)
    requires s.sync == UNSET
    ensures var sync, ids := Run(s, acc, cycles).sync, StoredIds(s, acc, cycles);
            && (ids == [] ==> sync == UNSET)
            && (ids != [] ==> sync.history == Some(Print(ids[|ids| - 1])) && sync.lastSync.Some?
                              && ParseUint(sync.history.value) == Some(ids[|ids| - 1]))
            && forall id :: id in ids ==> id != 0
    ensures forall readable, h :: Cursor(Run(s, acc, cycles).sync, readable) == Some(h) ==> ParseUint(h).Some?
  {
    if cycles != [] {
      var before := cycles[..|cycles| - 1];
      CursorInvariant(s, acc, before);
      var id := Stored(Run(s, acc, before).sync, cycles[|cycles| - 1]);
      if id.Some? {
        PrintParse(id.value, id.value, "");
      }
    }
  }

  /** When a cycle moves the cursor at all, it was not on a fallback: either the history call answered with this
      id, or the cursor could not be read and the profile gave it. */
  lemma FallbacksKeepCursor(sync: SyncState, c: Cycle)
    requires NextSync(sync, c) != sync
    ensures Runs(c) && c.syncSaves
    ensures var cursor := Cursor(sync, c.syncReadable);
            if cursor.Some? then
              && ParseUint(cursor.value).Some? && c.history(ParseUint(cursor.value).value).Some?
              && NextSync(sync, c).history == Some(Print(c.history(ParseUint(cursor.value).value).value.id))
            else c.recent.Some? && c.profile.Some? && NextSync(sync, c).history == Some(Print(c.profile.value))
  {
  }

  /** The number the cursor stands for, 0 when unset. */
  function Position(sync: SyncState): nat {
    if sync.history.None? then 0
    else var n := ParseUint(sync.history.value);
         if n.Some? then n.value else 0
  }

  ghost predicate Sorted(ids: seq<HistoryId>) {
    forall i, j :: 0 <= i < j < |ids| ==> ids[i] <= ids[j]
  }

  function Last(ids: seq<HistoryId>): nat {
    if ids == [] then 0 else ids[|ids| - 1]
  }

  function Snoc(ids: seq<HistoryId>, id: Option<HistoryId>): seq<HistoryId> {
    ids + if id.Some? then [id.value] else []
  }

  lemma SortedSnoc(ids: seq<HistoryId>, id: Option<HistoryId>)
    ensures Sorted(Snoc(ids, id)) <==> Sorted(ids) && Last(ids) <= Last(Snoc(ids, id))
  {
    var more := Snoc(ids, id);
    assert forall i :: 0 <= i < |ids| ==> ids[i] == more[i];
  }

  ghost predicate NeverBack(s: State, acc: AccId, cycles: seq<Cycle>) {
    forall i, j :: 0 <= i <= j <= |cycles| ==>
      Position(Run(s, acc, cycles[..i]).sync) <= Position(Run(s, acc, cycles[..j]).sync)
  }

  lemma NeverBackSnoc(s: State, acc: AccId, cycles: seq<Cycle>)
    requires cycles != []
    ensures var before := cycles[..|cycles| - 1];
            NeverBack(s, acc, cycles) <==>
            NeverBack(s, acc, before) && Position(Run(s, acc, before).sync) <= Position(Run(s, acc, cycles).sync)
  {
    hide Run, Position;
    var n := |cycles| - 1;
    var before := cycles[..n];
    assert cycles[..n + 1] == cycles && before[..n] == before;
    assert forall i :: 0 <= i <= n ==> before[..i] == cycles[..i];
    if NeverBack(s, acc, cycles) {
      forall i, j | 0 <= i <= j <= n
        ensures Position(Run(s, acc, before[..i]).sync) <= Position(Run(s, acc, before[..j]).sync)
      {
        assert before[..i] == cycles[..i] && before[..j] == cycles[..j];
      }
    }
    if NeverBack(s, acc, before) && Position(Run(s, acc, before).sync) <= Position(Run(s, acc, cycles).sync) {
      forall i, j | 0 <= i <= j <= n + 1
        ensures Position(Run(s, acc, cycles[..i]).sync) <= Position(Run(s, acc, cycles[..j]).sync)
      {
        assert Position(Run(s, acc, before[..if i <= n then i else n]).sync) <= Position(Run(s, acc, before[..n]).sync);
        assert j <= n ==> before[..i] == cycles[..i] && before[..j] == cycles[..j];
      }
    }
  }

  lemma PositionIsLast(s: State, acc: AccId, cycles: seq<Cycle>)
    requires s.sync == UNSET
    ensures Position(Run(s, acc, cycles).sync) == Last(StoredIds(s, acc, cycles))
  {
    hide Run, StoredIds, ParseUint;
    CursorInvariant(s, acc, cycles);
  }

  lemma StillAtStart(s: State, acc: AccId)
    ensures NeverBack(s, acc, []) && Sorted([])
  {
  }

  /** The cursor never goes back exactly when the ids stored never decrease. */
  lemma {:induction false} NeverBackExactly(s: State, acc: AccId, cycles: seq<Cycle>)
    requires s.sync == UNSET
    ensures NeverBack(s, acc, cycles) <==> Sorted(StoredIds(s, acc, cycles))
  {
    hide Run, Stored, Position, NeverBack, Sorted;
    if cycles == [] {
      StillAtStart(s, acc);
    } else {
      var before := cycles[..|cycles| - 1];
      NeverBackExactly(s, acc, before);
      NeverBackSnoc(s, acc, cycles);
      PositionIsLast(s, acc, before);
      PositionIsLast(s, acc, cycles);
      SortedSnoc(StoredIds(s, acc, before), Stored(Run(s, acc, before).sync, cycles[|cycles| - 1]));
    }
  }

  /** The provider's answers to one cycle, as far as it gives an id, lie between two readings of its counter. */
  ghost predicate AnswersWithin(c: Cycle, low: nat, high: nat) {
    && (forall n: HistoryId :: c.history(n).Some? && c.history(n).value.id != 0 ==>
        low <= c.history(n).value.id <= high)
    && (c.profile.Some? && c.profile.value != 0 ==> low <= c.profile.value <= high)
  }

  /** The provider's counter, read before and after every cycle, never decreases and explains all its answers. */
  ghost predicate Clocked(cycles: seq<Cycle>, clock: nat -> nat) {
    forall k :: 0 <= k < |cycles| ==> clock(k) <= clock(k + 1) && AnswersWithin(cycles[k], clock(k), clock(k + 1))
  }

  lemma StoredWithin(sync: SyncState, c: Cycle, low: nat, high: nat)
    requires AnswersWithin(c, low, high)
    ensures Stored(sync, c).Some? ==> low <= Stored(sync, c).value <= high
  {
    hide Kept, KeptOfItems, Active;
    var cursor := Cursor(sync, c.syncReadable);
    if cursor.Some? && ParseUint(cursor.value).Some? {
      var n: HistoryId := ParseUint(cursor.value).value;
      assert c.history(n).Some? && c.history(n).value.id != 0 ==> low <= c.history(n).value.id <= high;
    }
  }

  lemma {:induction false} ClockOrdersIds(s: State, acc: AccId, cycles: seq<Cycle>, clock: nat -> nat)
    requires Clocked(cycles, clock)
    ensures Sorted(StoredIds(s, acc, cycles))
    ensures forall id :: id in StoredIds(s, acc, cycles) ==> id <= clock(|cycles|)
  {
    hide Stored, Run, AnswersWithin;
    if cycles != [] {
      var n := |cycles| - 1;
      var before := cycles[..n];
      assert forall k :: 0 <= k < n ==> before[k] == cycles[k];
      ClockOrdersIds(s, acc, before, clock);
      StoredWithin(Run(s, acc, before).sync, cycles[n], clock(n), clock(n + 1));
      var ids, id := StoredIds(s, acc, before), Stored(Run(s, acc, before).sync, cycles[n]);
      assert StoredIds(s, acc, cycles) == Snoc(ids, id);
      assert ids != [] ==> Last(ids) in ids;
      SortedSnoc(ids, id);
    }
  }

  /** A provider whose ids never decrease is never asked for a history older than one already read. */
  lemma CursorNeverDecreases(s: State, acc: AccId, cycles: seq<Cycle>, clock: nat -> nat)
    requires s.sync == UNSET && Clocked(cycles, clock)
    ensures NeverBack(s, acc, cycles)
  {
    ClockOrdersIds(s, acc, cycles, clock);
    NeverBackExactly(s, acc, cycles);
  }
}
