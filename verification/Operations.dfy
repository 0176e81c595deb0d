/**
 The daemon's registry of long-running operations: an in-memory table, an
 idempotency index, a gate for warehouse-mutating work and an append-only
 journal (crates/phlo-transform-daemon/src/operations.rs).

 The first half describes each operation on the store as a function on an
 abstract `Store` value; the class carries them out on mutable fields.
 */
module Operations {
  import opened Wrappers

  datatype Status = Queued | Running | Succeeded | Failed | Cancelled {
    predicate Terminal() {
      Succeeded? || Failed? || Cancelled?
    }
  }

  datatype OperationError = OperationError(code: string, message: string)

  /** A validated submission: the kind and the parameters echoed back. */
  datatype Params = Params(kind: string, echo: string)

  datatype Record = Record(
    id: string,
    kind: string,
    status: Status,
    params: string,
    key: Option<string>,
    requestHash: Option<string>,
    result: Option<string>,
    error: Option<OperationError>)

  /** A record together with its cooperative cancel flag. */
  datatype Entry = Entry(record: Record, cancelled: bool)

  /** One line of the journal file. */
  datatype Line = Parsed(record: Record) | Unreadable

  datatype Store = Store(
    ops: map<string, Entry>,
    idempotent: map<string, string>,
    busy: bool,
    journal: Option<seq<Line>>)

  datatype Outcome =
    | New(record: Record)
    | Replayed(record: Record)
    | Conflict(record: Record)
    | Busy

  predicate Mutating(kind: string) {
    kind in ["run", "resume", "retry_failed", "promote"]
  }

  const INTERRUPTED := OperationError("interrupted", "the daemon restarted while this operation was in flight")

  function Interrupt(record: Record): Record {
    record.(status := Failed, error := Some(INTERRUPTED))
  }

  /** What a reader of the reopened store sees for a journalled record. */
  function Restored(record: Record): Record {
    if record.status.Terminal() then record else Interrupt(record)
  }

  // -- Opening a journal ------------------------------------------------------

  datatype Folded = Folded(ops: map<string, Entry>, idempotent: map<string, string>, interrupted: seq<Record>)

  function FoldLine(acc: Folded, line: Line): Folded {
    match line
    case Unreadable => acc
    case Parsed(record) =>
      Folded(
        acc.ops[record.id := Entry(Restored(record), false)],
        if record.key.Some? then acc.idempotent[record.key.value := record.id] else acc.idempotent,
        if record.status.Terminal() then acc.interrupted else acc.interrupted + [Interrupt(record)])
  }

  function Fold(lines: seq<Line>): Folded {
    if lines == [] then Folded(map[], map[], [])
    else FoldLine(Fold(lines[..|lines| - 1]), lines[|lines| - 1])
  }

  /** The journal after best-effort appends; `durable(i)` says whether append `i` reached the file. */
  function AppendNotes(lines: seq<Line>, notes: seq<Record>, durable: nat -> bool): seq<Line> {
    if notes == [] then lines
    else
      var rest := AppendNotes(lines, notes[..|notes| - 1], durable);
      if durable(|notes| - 1) then rest + [Parsed(notes[|notes| - 1])] else rest
  }

  function Opened(lines: seq<Line>, durable: nat -> bool): Store {
    var folded := Fold(lines);
    Store(folded.ops, folded.idempotent, false, Some(AppendNotes(lines, folded.interrupted, durable)))
  }

  /**
   What a restart starts from: a journal file that cannot be read, because of a
   stray byte for instance, is kept, appended to, and otherwise taken for empty.
   */
  function Reopened(lines: seq<Line>, readable: bool, durable: nat -> bool): Store {
    if readable then Opened(lines, durable) else Store(map[], map[], false, Some(lines))
  }

  // -- Submitting ---------------------------------------------------------------

  function QueuedRecord(id: string, params: Params, key: Option<string>, hash: string): Record {
    Record(id, params.kind, Queued, params.echo, key, Some(hash), None, None)
  }

  function Appended(journal: Option<seq<Line>>, record: Record): Option<seq<Line>> {
    match journal
    case None => None
    case Some(lines) => Some(lines + [Parsed(record)])
  }

  /** The existing record an idempotency key stands for, if any. */
  function Lookup(store: Store, key: string): Option<Record> {
    if key in store.idempotent && store.idempotent[key] in store.ops
    then Some(store.ops[store.idempotent[key]].record)
    else None
  }

  function Answer(existing: Record, hash: string): Outcome {
    if existing.requestHash.None? || existing.requestHash == Some(hash) then Replayed(existing) else Conflict(existing)
  }

  const NOT_DURABLE := OperationError("API011", "could not durably record the operation submission")

  /** Gate, journal, table: the new store and `None` when the gate is held. */
  function Registered(store: Store, id: string, params: Params, key: Option<string>, hash: string, durable: bool)
    : (Store, Result<Option<Record>, OperationError>)
  {
    var record := QueuedRecord(id, params, key, hash);
    if Mutating(params.kind) && store.busy then (store, Ok(None))
    else if store.journal.Some? && !durable then (store, Err(NOT_DURABLE))
    else
      (store.(
       busy := store.busy || Mutating(params.kind),
       journal := Appended(store.journal, record),
       ops := store.ops[id := Entry(record, false)]),
       Ok(Some(record)))
  }

  function Submitted(store: Store, id: string, params: Params, key: Option<string>, hash: string, durable: bool)
    : (Store, Result<Outcome, OperationError>)
  {
    if key.Some? && Lookup(store, key.value).Some? then
      (store, Ok(Answer(Lookup(store, key.value).value, hash)))
    else
      match Registered(store, id, params, key, hash, durable)
      case (after, Err(error)) => (after, Err(error))
      case (after, Ok(None)) => (after, Ok(Busy))
      case (after, Ok(Some(record))) =>
        (if key.Some? then after.(idempotent := after.idempotent[key.value := id]) else after, Ok(New(record)))
  }

  // -- Transitions ----------------------------------------------------------------

  predicate Cancellable(store: Store, id: string) {
    id in store.ops && !store.ops[id].record.status.Terminal()
  }

  function CancelRequested(store: Store, id: string): Store {
    if Cancellable(store, id) then store.(ops := store.ops[id := store.ops[id].(cancelled := true)]) else store
  }

  /** A transition's new record, `None` when the call changes nothing. */
  function StartedRecord(store: Store, id: string): Option<Record> {
    if id in store.ops && store.ops[id].record.status == Queued
    then Some(store.ops[id].record.(status := Running))
    else None
  }

  function FinishedRecord(store: Store, id: string, outcome: Result<string, OperationError>): Option<Record> {
    if id !in store.ops then None
    else
      var entry := store.ops[id];
      match outcome
      case Ok(result) =>
        Some(entry.record.(status := if entry.cancelled then Cancelled else Succeeded, result := Some(result)))
      case Err(error) =>
        Some(if entry.cancelled
             then entry.record.(status := Cancelled, error := Some(error.(code := "cancelled")))
             else entry.record.(status := Failed, error := Some(error)))
  }

  function Updated(store: Store, id: string, change: Option<Record>): Store {
    if change.Some? && id in store.ops
    then store.(ops := store.ops[id := store.ops[id].(record := change.value)])
    else store
  }

  /** A best-effort journal line for a transition. */
  function Journalled(store: Store, change: Option<Record>, durable: bool): Store {
    if change.Some? && durable then store.(journal := Appended(store.journal, change.value)) else store
  }

  function Released(store: Store, kind: string): Store {
    if Mutating(kind) then store.(busy := false) else store
  }

  class OperationStore {
    /** The canonical request fingerprint. */
    const fingerprint: Params -> string
    var ops: map<string, Entry>
    var idempotent: map<string, string>
    var busy: bool
    var journal: Option<seq<Line>>

    ghost function State(): Store
      reads this
    {
      Store(ops, idempotent, busy, journal)
    }

    /** A store without a journal. */
    constructor (fingerprint: Params -> string)
      ensures State() == Store(map[], map[], false, None)
      ensures this.fingerprint == fingerprint
    {
      this.fingerprint := fingerprint;
      ops, idempotent, busy, journal := map[], map[], false, None;
    }

    /** Fold a journal file back in, if it can be read. */
    constructor Open(fingerprint: Params -> string, lines: seq<Line>, readable: bool, durable: nat -> bool)
      ensures State() == Reopened(lines, readable, durable)
      ensures this.fingerprint == fingerprint
    {
      this.fingerprint := fingerprint;
      ops, idempotent, busy, journal := map[], map[], false, Some(lines);
      new;
      if readable {
        var interrupted: seq<Record> := [];
        for i := 0 to |lines|
          invariant Fold(lines[..i]) == Folded(ops, idempotent, interrupted)
          invariant !busy && journal == Some(lines) && this.fingerprint == fingerprint
        {
          assert lines[..i + 1][..i] == lines[..i];
          match lines[i] {
            case Unreadable =>
            case Parsed(parsed) =>
              if parsed.key.Some? {
                idempotent := idempotent[parsed.key.value := parsed.id];
              }
              var record := parsed;
              if !record.status.Terminal() {
                record := Interrupt(record);
                interrupted := interrupted + [record];
              }
              ops := ops[record.id := Entry(record, false)];
          }
        }
        assert lines[..|lines|] == lines;
        for i := 0 to |interrupted|
          invariant journal == Some(AppendNotes(lines, interrupted[..i], durable))
          invariant Fold(lines) == Folded(ops, idempotent, interrupted)
          invariant !busy && this.fingerprint == fingerprint
        {
          assert interrupted[..i + 1][..i] == interrupted[..i];
          JournalNote(interrupted[i], durable(i));
        }
        assert interrupted[..|interrupted|] == interrupted;
      }
    }

    method JournalAppend(record: Record, durable: bool) returns (written: bool)
      modifies this`journal
      ensures written <==> journal.None? || durable
      ensures journal == if durable then Appended(old(journal), record) else old(journal)
    {
      if journal.None? {
        return true;
      }
      if durable {
        journal := Some(journal.value + [Parsed(record)]);
      }
      return durable;
    }

    method JournalNote(record: Record, durable: bool)
      modifies this`journal
      ensures State() == Journalled(old(State()), Some(record), durable)
    {
      var _ := JournalAppend(record, durable);
    }

    method Acquire(kind: string) returns (acquired: Option<bool>)
      modifies this`busy
      ensures acquired == if Mutating(kind) then Some(!old(busy)) else None
      ensures busy == (old(busy) || Mutating(kind))
    {
      if !Mutating(kind) {
        return None;
      }
      var free := !busy;
      if free {
        busy := true;
      }
      return Some(free);
    }

    method Release(kind: string)
      modifies this`busy
      ensures State() == Released(old(State()), kind)
    {
      if Mutating(kind) {
        busy := false;
      }
    }

    method Register(id: string, params: Params, key: Option<string>, hash: string, durable: bool)
      returns (outcome: Result<Option<Record>, OperationError>)
      modifies this`busy, this`journal, this`ops
      ensures (State(), outcome) == Registered(old(State()), id, params, key, hash, durable)
    {
      var acquired := Acquire(params.kind);
      if acquired == Some(false) {
        return Ok(None);
      }
      var record := QueuedRecord(id, params, key, hash);
      var written := JournalAppend(record, durable);
      if !written {
        Release(params.kind);
        return Err(NOT_DURABLE);
      }
      ops := ops[id := Entry(record, false)];
      return Ok(Some(record));
    }

    method Get(id: string) returns (record: Option<Record>)
      ensures record == if id in ops then Some(ops[id].record) else None
    {
      return if id in ops then Some(ops[id].record) else None;
    }

    /** Register a queued operation under a fresh `id`. */
    method Submit(id: string, params: Params, key: Option<string>, durable: bool)
      returns (outcome: Result<Outcome, OperationError>)
      modifies this
      ensures (State(), outcome) == Submitted(old(State()), id, params, key, fingerprint(params), durable)
    {
      var hash := fingerprint(params);
      if key.Some? {
        var existing: Option<Record> := None;
        if key.value in idempotent {
          existing := Get(idempotent[key.value]);
        }
        if existing.Some? {
          if existing.value.requestHash.None? || existing.value.requestHash == Some(hash) {
            return Ok(Replayed(existing.value));
          }
          return Ok(Conflict(existing.value));
        }
        var keyed := Register(id, params, key, hash, durable);
        match keyed {
          case Err(error) =>
            return Err(error);
          case Ok(None) =>
            return Ok(Busy);
          case Ok(Some(record)) =>
            idempotent := idempotent[key.value := record.id];
            return Ok(New(record));
        }
      }
      var unkeyed := Register(id, params, None, hash, durable);
      match unkeyed {
        case Err(error) =>
          return Err(error);
        case Ok(None) =>
          return Ok(Busy);
        case Ok(Some(record)) =>
          return Ok(New(record));
      }
    }

    method Cancel(id: string) returns (signalled: bool)
      modifies this`ops
      ensures signalled <==> Cancellable(old(State()), id)
      ensures State() == CancelRequested(old(State()), id)
    {
      if id in ops && !ops[id].record.status.Terminal() {
        ops := ops[id := ops[id].(cancelled := true)];
        return true;
      }
      return false;
    }

    method MarkRunning(id: string, durable: bool)
      modifies this`ops, this`journal
      ensures var change := StartedRecord(old(State()), id);
              State() == Journalled(Updated(old(State()), id, change), change, durable)
    {
      if id in ops && ops[id].record.status == Queued {
        var record := ops[id].record.(status := Running);
        ops := ops[id := ops[id].(record := record)];
        JournalNote(record, durable);
      }
    }

    method Finish(id: string, outcome: Result<string, OperationError>, durable: bool)
      modifies this`ops, this`journal
      ensures var change := FinishedRecord(old(State()), id, outcome);
              State() == Journalled(Updated(old(State()), id, change), change, durable)
    {
      if id in ops {
        var entry := ops[id];
        var record := entry.record;
        match outcome {
          case Ok(result) =>
            record := record.(status := if entry.cancelled then Cancelled else Succeeded);
            record := record.(result := Some(result));
          case Err(failure) =>
            var error := failure;
            if entry.cancelled {
              record := record.(status := Cancelled);
              error := error.(code := "cancelled");
            } else {
              record := record.(status := Failed);
            }
            record := record.(error := Some(error));
        }
        ops := ops[id := entry.(record := record)];
        JournalNote(record, durable);
      }
    }
  }
}
