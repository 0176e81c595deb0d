/**
 What reopening a journal restores
 (crates/phlo-transform-daemon/src/operations.rs, `OperationStore::open`).

 One reopening restores every operation to its last journalled record, with
 operations still in flight turned into interrupted failures. A later
 reopening need not: `open` appends an interruption for every non-terminal
 line it folds, also for operations that finished further down the file.
 */
module Recovery {
  import opened Wrappers
  import opened Operations

  /** The last record journalled for an operation. */
  function Last(lines: seq<Line>, id: string): Option<Record> {
    if lines == [] then None
    else
      var line := lines[|lines| - 1];
      if line.Parsed? && line.record.id == id then Some(line.record) else Last(lines[..|lines| - 1], id)
  }

  /** The last record that shows an operation still in flight. */
  function LastPending(lines: seq<Line>, id: string): Option<Record> {
    if lines == [] then None
    else
      var line := lines[|lines| - 1];
      if line.Parsed? && line.record.id == id && !line.record.status.Terminal() then Some(line.record)
      else LastPending(lines[..|lines| - 1], id)
  }

  /** The operation that last carried an idempotency key. */
  function KeyOwner(lines: seq<Line>, key: string): Option<string> {
    if lines == [] then None
    else
      var line := lines[|lines| - 1];
      if line.Parsed? && line.record.key == Some(key) then Some(line.record.id) else KeyOwner(lines[..|lines| - 1], key)
  }

  function AsLines(records: seq<Record>): (lines: seq<Line>)
    ensures |lines| == |records|
    ensures forall i :: 0 <= i < |records| ==> lines[i] == Parsed(records[i])
  {
    if records == [] then [] else AsLines(records[..|records| - 1]) + [Parsed(records[|records| - 1])]
  }

  function Always(i: nat): bool {
    true
  }

  // -- The first reopening ----------------------------------------------------

  /** One reopening restores each operation's last record and each key's last owner, and nothing else. */
  lemma {:induction false} OneReopen(lines: seq<Line>, durable: nat -> bool, id: string, key: string)
    ensures var store := Opened(lines, durable);
            && !store.busy
            && (id in store.ops <==> Last(lines, id).Some?)
            && (id in store.ops ==> store.ops[id] == Entry(Restored(Last(lines, id).value), false))
            && (key in store.idempotent <==> KeyOwner(lines, key).Some?)
            && (key in store.idempotent ==> store.idempotent[key] == KeyOwner(lines, key).value)
  {
    if lines != [] {
      OneReopen(lines[..|lines| - 1], durable, id, key);
    }
  }

  // -- Further reopenings -------------------------------------------------------

  lemma {:induction false} LastAcross(lines: seq<Line>, more: seq<Line>, id: string)
    ensures Last(lines + more, id) == if Last(more, id).Some? then Last(more, id) else Last(lines, id)
    ensures LastPending(lines + more, id)
         == if LastPending(more, id).Some? then LastPending(more, id) else LastPending(lines, id)
  {
    if more == [] {
      assert lines + more == lines;
    } else {
      LastAcross(lines, more[..|more| - 1], id);
      assert (lines + more)[..|lines + more| - 1] == lines + more[..|more| - 1];
    }
  }

  lemma {:induction false} DurableNotes(lines: seq<Line>, notes: seq<Record>)
    ensures AppendNotes(lines, notes, Always) == lines + AsLines(notes)
  {
    if notes != [] {
      DurableNotes(lines, notes[..|notes| - 1]);
    }
  }

  /** The appended notes hold, per operation, the interruption of its last in-flight line. */
  lemma {:induction false} LastNote(lines: seq<Line>, id: string)
    ensures var notes := AsLines(Fold(lines).interrupted);
            && LastPending(notes, id) == None
            && Last(notes, id) == match LastPending(lines, id) case None => None case Some(r) => Some(Interrupt(r))
  {
    if lines != [] {
      LastNote(lines[..|lines| - 1], id);
      var before, after := Fold(lines[..|lines| - 1]).interrupted, Fold(lines).interrupted;
      if |after| > |before| {
        assert after[..|after| - 1] == before;
      }
    }
  }

  /** The journal file after a number of reopenings, each of whose notes reached it. */
  function JournalAfter(lines: seq<Line>, reopenings: nat): seq<Line> {
    if reopenings == 0 then lines
    else
      var before := JournalAfter(lines, reopenings - 1);
      AppendNotes(before, Fold(before).interrupted, Always)
  }

  lemma {:induction false} JournalAfterLast(lines: seq<Line>, reopenings: nat, id: string)
    ensures var journal := JournalAfter(lines, reopenings);
            && LastPending(journal, id) == LastPending(lines, id)
            && Last(journal, id)
            == (if reopenings > 0 && LastPending(lines, id).Some?
                then Some(Interrupt(LastPending(lines, id).value))
                else Last(lines, id))
  {
    if reopenings > 0 {
      JournalAfterLast(lines, reopenings - 1, id);
      var before := JournalAfter(lines, reopenings - 1);
      DurableNotes(before, Fold(before).interrupted);
      LastNote(before, id);
      LastAcross(before, AsLines(Fold(before).interrupted), id);
    }
  }

  /**
   From the second reopening on, an operation that was ever seen in flight is
   restored as the interruption of its last in-flight line, whatever came later.
   */
  lemma LaterReopenings(lines: seq<Line>, reopenings: nat, id: string)
    requires reopenings > 0
    requires Last(lines, id).Some?
    ensures var store := Opened(JournalAfter(lines, reopenings), Always);
            && id in store.ops
            && store.ops[id].record
            == (if LastPending(lines, id).Some?
                then Interrupt(LastPending(lines, id).value)
                else Last(lines, id).value)
  {
    JournalAfterLast(lines, reopenings, id);
    PendingIsKnown(lines, id);
    OneReopen(JournalAfter(lines, reopenings), Always, id, "");
  }

  lemma {:induction false} PendingIsKnown(lines: seq<Line>, id: string)
    ensures LastPending(lines, id).Some? ==> Last(lines, id).Some?
    ensures Last(lines, id).Some? && !Last(lines, id).value.status.Terminal() ==>
        LastPending(lines, id) == Last(lines, id)
    ensures LastPending(lines, id).Some? ==> !LastPending(lines, id).value.status.Terminal()
  {
    if lines != [] {
      PendingIsKnown(lines[..|lines| - 1], id);
    }
  }

  /** The journal state, readable before reopening, in which an operation's history is stable. */
  predicate HistoryStable(lines: seq<Line>, id: string) {
    || LastPending(lines, id).None?
    || (Last(lines, id).Some?
        && (|| !Last(lines, id).value.status.Terminal()
            || Last(lines, id).value == Interrupt(LastPending(lines, id).value)))
  }

  /** Every later reopening agrees with the first exactly on the operations whose history is stable. */
  lemma HistorySurvivesExactly(lines: seq<Line>, reopenings: nat, id: string)
    requires reopenings > 0
    requires Last(lines, id).Some?
    ensures id in Opened(lines, Always).ops && id in Opened(JournalAfter(lines, reopenings), Always).ops
    ensures Opened(JournalAfter(lines, reopenings), Always).ops[id] == Opened(lines, Always).ops[id]
       <==> HistoryStable(lines, id)
  {
    OneReopen(lines, Always, id, "");
    OneReopen(JournalAfter(lines, reopenings), Always, id, "");
    LaterReopenings(lines, reopenings, id);
    PendingIsKnown(lines, id);
  }

  /** A run that succeeded and was journalled in full reads as interrupted after two restarts. */
  lemma SecondReopenForgetsSuccess(record: Record)
    requires record.status == Queued
    ensures var done := record.(status := Succeeded);
            var lines := [Parsed(record), Parsed(record.(status := Running)), Parsed(done)];
            && record.id in Opened(lines, Always).ops
            && Opened(lines, Always).ops[record.id].record == done
            && record.id in Opened(JournalAfter(lines, 1), Always).ops
            && Opened(JournalAfter(lines, 1), Always).ops[record.id].record
            == Interrupt(record.(status := Running))
  {
    var running, done := record.(status := Running), record.(status := Succeeded);
    var lines := [Parsed(record), Parsed(running), Parsed(done)];
    assert lines[..2] == [Parsed(record), Parsed(running)] && lines[..2][..1] == [Parsed(record)];
    assert Last(lines, record.id) == Some(done);
    assert LastPending(lines, record.id) == Some(running);
    OneReopen(lines, Always, record.id, "");
    LaterReopenings(lines, 1, record.id);
  }

  // -- Collecting after the fold --------------------------------------------------

  /** The interruptions of those operations whose last line is still in flight. */
  function StillPending(lines: seq<Line>): seq<Record> {
    if lines == [] then []
    else
      var line, rest := lines[0], lines[1..];
      (if line.Parsed? && !line.record.status.Terminal() && Last(rest, line.record.id).None?
       then [Interrupt(line.record)]
       else [])
      + StillPending(rest)
  }

  function AtReopening(durable: (nat, nat) -> bool, reopening: nat): nat -> bool {
    (note: nat) => durable(reopening, note)
  }

  /** Reopenings that collect after the fold; `durable(n, i)` says whether the n-th one's i-th note was written. */
  function CarefulJournal(lines: seq<Line>, reopenings: nat, durable: (nat, nat) -> bool): seq<Line> {
    if reopenings == 0 then lines
    else
      var before := CarefulJournal(lines, reopenings - 1, durable);
      AppendNotes(before, StillPending(before), AtReopening(durable, reopenings))
  }

  lemma {:induction false} StillPendingIsLast(lines: seq<Line>)
    ensures forall note :: note in StillPending(lines) ==>
              && Last(lines, note.id).Some?
              && !Last(lines, note.id).value.status.Terminal()
              && note == Interrupt(Last(lines, note.id).value)
  {
    if lines != [] {
      StillPendingIsLast(lines[1..]);
      forall note | note in StillPending(lines)
        ensures && Last(lines, note.id).Some?
                && !Last(lines, note.id).value.status.Terminal()
                && note == Interrupt(Last(lines, note.id).value)
      {
        assert lines == [lines[0]] + lines[1..];
        LastAcross([lines[0]], lines[1..], note.id);
        assert note in StillPending(lines[1..]) || (lines[0].Parsed? && note == Interrupt(lines[0].record));
      }
    }
  }

  lemma {:induction false} NotesKeepView(lines: seq<Line>, notes: seq<Record>, durable: nat -> bool, id: string)
    requires forall note :: note in notes ==>
               && Last(lines, note.id).Some?
               && !Last(lines, note.id).value.status.Terminal()
               && note == Interrupt(Last(lines, note.id).value)
    ensures var journal := AppendNotes(lines, notes, durable);
            && (Last(journal, id).Some? <==> Last(lines, id).Some?)
            && (Last(lines, id).Some? ==> Restored(Last(journal, id).value) == Restored(Last(lines, id).value))
  {
    if notes != [] {
      NotesKeepView(lines, notes[..|notes| - 1], durable, id);
    }
  }

  lemma {:induction false} CarefulView(lines: seq<Line>, reopenings: nat, durable: (nat, nat) -> bool, id: string)
    ensures var journal := CarefulJournal(lines, reopenings, durable);
            && (Last(journal, id).Some? <==> Last(lines, id).Some?)
            && (Last(lines, id).Some? ==> Restored(Last(journal, id).value) == Restored(Last(lines, id).value))
  {
    if reopenings > 0 {
      CarefulView(lines, reopenings - 1, durable, id);
      var before := CarefulJournal(lines, reopenings - 1, durable);
      StillPendingIsLast(before);
      NotesKeepView(before, StillPending(before), AtReopening(durable, reopenings), id);
    }
  }

  /** Collecting after the fold keeps history through any number of reopenings, even when notes are lost. */
  lemma CarefulReopenings(lines: seq<Line>, reopenings: nat, durable: (nat, nat) -> bool, id: string)
    requires Last(lines, id).Some?
    ensures var folded := Fold(CarefulJournal(lines, reopenings, durable));
            id in folded.ops && folded.ops[id] == Entry(Restored(Last(lines, id).value), false)
  {
    CarefulView(lines, reopenings, durable, id);
    OneReopen(CarefulJournal(lines, reopenings, durable), Always, id, "");
  }
}
