/**
 The operation store under concurrency and crashes: submissions and executor
 tasks advance in any interleaving, the daemon may stop between any two steps,
 and every restart reopens the journal, if it can be read
 (crates/phlo-transform-daemon/src/operations.rs; the task's calls are
 crates/phlo-transform-daemon/src/lib.rs:1194-1230).
 */
module Protocol {
  import opened Wrappers
  import opened Operations
  import opened Recovery

  /** Where the task that owns an operation id stands. */
  datatype Phase =
    | Entered    // submission past the idempotency lookup
    | Gated      // gate taken if the kind needs it, queued record not yet durable
    | Reserved   // queued record journalled, not yet in the table
    | Visible    // in the table, idempotency key not yet bound
    | Accepted   // acknowledged; the executor task is about to run
    | Started    // marked running, transition not yet journalled
    | Executing
    | Settled    // finished, transition not yet journalled
    | Noted      // finished, gate not yet released

  datatype Task = Task(params: Params, key: Option<string>, phase: Phase) {
    predicate Submitting() {
      phase.Entered? || phase.Gated? || phase.Reserved? || phase.Visible?
    }

    /** The task owns the gate. */
    predicate HoldsGate() {
      Mutating(params.kind) && !phase.Entered?
    }

    /** The queued record has reached the journal. */
    predicate IsDurable() {
      !phase.Entered? && !phase.Gated?
    }

    predicate InTable() {
      IsDurable() && !phase.Reserved?
    }

    predicate HasRun() {
      phase.Started? || phase.Executing? || phase.Settled? || phase.Noted?
    }
  }

  /** An operation id with the key and the request fingerprint it was submitted under. */
  datatype Owner = Owner(id: string, key: Option<string>, request: Option<string>)

  function OwnerOf(record: Record): Owner {
    Owner(record.id, record.key, record.requestHash)
  }

  /**
   The whole daemon. `lock` is the holder of the idempotency lock; `executions` is
   the history of started work.
   */
  datatype System = System(
    store: Store,
    tasks: map<string, Task>,
    lock: Option<string>,
    executions: seq<Owner>)

  datatype Step =
    | Enter(id: string, params: Params, key: Option<string>)
    | TakeGate(id: string)
    | Reserve(id: string, durable: bool)
    | Publish(id: string)
    | Acknowledge(id: string)
    | MarkRunning(id: string)
    | NoteRunning(id: string, durable: bool)
    | Finish(id: string, outcome: Result<string, OperationError>)
    | NoteFinished(id: string, durable: bool)
    | Release(id: string)
    | Cancel(id: string)
    | Restart(readable: bool, notes: nat -> bool)

  function Lines(s: System): seq<Line> {
    s.store.journal.GetOr([])
  }

  /** The operations the journal knows. */
  function Owners(lines: seq<Line>): (owners: set<Owner>) {
    set i | 0 <= i < |lines| && lines[i].Parsed? :: OwnerOf(lines[i].record)
  }

  /** Ids come from fresh UUIDs: never one seen anywhere before. */
  predicate FreshId(s: System, id: string) {
    && id !in s.tasks && id !in s.store.ops
    && (forall o :: o in Owners(Lines(s)) ==> o.id != id)
    && (forall i :: 0 <= i < |s.executions| ==> s.executions[i].id != id)
  }

  predicate At(s: System, id: string, phase: Phase) {
    id in s.tasks && s.tasks[id].phase == phase
  }

  predicate Enabled(s: System, step: Step) {
    match step
    case Enter(id, params, key) => FreshId(s, id) && (key.Some? ==> s.lock.None?)
    case TakeGate(id) => At(s, id, Entered)
    case Reserve(id, durable) => At(s, id, Gated)
    case Publish(id) => At(s, id, Reserved)
    case Acknowledge(id) => At(s, id, Visible)
    case MarkRunning(id) => At(s, id, Accepted)
    case NoteRunning(id, durable) => At(s, id, Started)
    case Finish(id, outcome) => At(s, id, Executing)
    case NoteFinished(id, durable) => At(s, id, Settled)
    case Release(id) => At(s, id, Noted)
    case Cancel(id) => true
    case Restart(readable, notes) => true
  }

  function Advance(s: System, id: string, phase: Phase): System
    requires id in s.tasks
  {
    s.(tasks := s.tasks[id := s.tasks[id].(phase := phase)])
  }

  /** The submission ends here: its task is gone and its lock, if any, is free. */
  function Leave(s: System, id: string): System
    requires id in s.tasks
  {
    s.(tasks := s.tasks - {id}, lock := if s.tasks[id].key.Some? then None else s.lock)
  }

  function Reservation(s: System, id: string, hash: Params -> string): Record
    requires id in s.tasks
  {
    QueuedRecord(id, s.tasks[id].params, s.tasks[id].key, hash(s.tasks[id].params))
  }

  function Apply(s: System, step: Step, hash: Params -> string): System
    requires Enabled(s, step)
  {
    match step
    case Enter(id, params, key) =>
      if key.Some? && Lookup(s.store, key.value).Some? then s  // answered from the existing record
      else s.(tasks := s.tasks[id := Task(params, key, Entered)], lock := if key.Some? then Some(id) else s.lock)
    case TakeGate(id) =>
      var mutating := Mutating(s.tasks[id].params.kind);
      if mutating && s.store.busy then Leave(s, id)
      else Advance(s, id, Gated).(store := s.store.(busy := s.store.busy || mutating))
    case Reserve(id, durable) =>
      if !durable then Leave(s, id).(store := Released(s.store, s.tasks[id].params.kind))
      else Advance(s, id, Reserved).(store := s.store.(journal := Appended(s.store.journal, Reservation(s, id, hash))))
    case Publish(id) =>
      Advance(s, id, Visible).(store := s.store.(ops := s.store.ops[id := Entry(Reservation(s, id, hash), false)]))
    case Acknowledge(id) =>
      var task := s.tasks[id];
      if task.key.None? then Advance(s, id, Accepted)
      else Advance(s, id, Accepted).(
           store := s.store.(idempotent := s.store.idempotent[task.key.value := id]), lock := None)
    case MarkRunning(id) =>
      Advance(s, id, Started).(
      store := Updated(s.store, id, StartedRecord(s.store, id)),
      executions := s.executions + [OwnerOf(Reservation(s, id, hash))])
    case NoteRunning(id, durable) =>
      Advance(s, id, Executing).(store := NoteTransition(s.store, id, durable))
    case Finish(id, outcome) =>
      Advance(s, id, Settled).(store := Updated(s.store, id, FinishedRecord(s.store, id, outcome)))
    case NoteFinished(id, durable) =>
      Advance(s, id, Noted).(store := NoteTransition(s.store, id, durable))
    case Release(id) =>
      s.(tasks := s.tasks - {id}, store := Released(s.store, s.tasks[id].params.kind))
    case Cancel(id) =>
      s.(store := CancelRequested(s.store, id))
    case Restart(readable, notes) =>
      s.(store := Reopened(Lines(s), readable, notes), tasks := map[], lock := None)
  }

  /** Journal the record the task's own transition left in the table. */
  function NoteTransition(store: Store, id: string, durable: bool): Store {
    Journalled(store, if id in store.ops then Some(store.ops[id].record) else None, durable)
  }

  const Boot := System(Store(map[], map[], false, Some([])), map[], None, [])

  function Run(steps: seq<Step>, hash: Params -> string): Option<System> {
    if steps == [] then Some(Boot)
    else
      match Run(steps[..|steps| - 1], hash)
      case None => None
      case Some(s) =>
        if Enabled(s, steps[|steps| - 1]) then Some(Apply(s, steps[|steps| - 1], hash)) else None
  }

  // -- What every step keeps ------------------------------------------------------

  /** What the table says about an operation while its task is alive, and that only such operations are unfinished. */
  ghost predicate RowFollowsTask(s: System, hash: Params -> string, id: string) {
    && (id in s.tasks ==>
          var task := s.tasks[id];
          && (task.InTable() <==> id in s.store.ops)
          && (id in s.store.ops ==>
                var record := s.store.ops[id].record;
                && record.kind == task.params.kind && OwnerOf(record) == OwnerOf(Reservation(s, id, hash))
                && (task.phase.Visible? || task.phase.Accepted? ==> record.status == Queued)
                && (task.phase.Started? || task.phase.Executing? ==> record.status == Running)
                && (task.phase.Settled? || task.phase.Noted? ==> record.status.Terminal())))
    && (id in s.store.ops ==>
          && s.store.ops[id].record.id == id
          && (!s.store.ops[id].record.status.Terminal() ==> id in s.tasks))
  }

  ghost predicate TableFollowsTasks(s: System, hash: Params -> string) {
    forall id :: RowFollowsTask(s, hash, id)
  }

  function GateHolders(s: System): set<string> {
    set id | id in s.tasks && s.tasks[id].HoldsGate()
  }

  /** The gate is closed exactly while one task holds it. */
  ghost predicate GateFollowsTasks(s: System) {
    && (s.store.busy <==> GateHolders(s) != {})
    && (forall a, b :: a in GateHolders(s) && b in GateHolders(s) ==> a == b)
  }

  ghost predicate LockFollowsTasks(s: System) {
    && (forall id :: id in s.tasks && s.tasks[id].key.Some? && s.tasks[id].Submitting() ==> s.lock == Some(id))
    && (s.lock.Some? ==>
          s.lock.value in s.tasks && s.tasks[s.lock.value].key.Some? && s.tasks[s.lock.value].Submitting())
  }

  /** An operation has one key and one request. */
  ghost predicate IdsOnce(owners: set<Owner>) {
    forall a, b :: a in owners && b in owners && a.id == b.id ==> a == b
  }

  /** The key has one operation. */
  ghost predicate KeyOnce(owners: set<Owner>, key: string) {
    forall a, b :: a in owners && b in owners && a.key == Some(key) && b.key == Some(key) ==> a == b
  }

  /** An operation in the table, and a task from its reservation on, is journalled under its own key. */
  ghost predicate OwnerFollowsTask(s: System, hash: Params -> string, id: string) {
    var owners := Owners(Lines(s));
    && (id in s.store.ops ==> OwnerOf(s.store.ops[id].record) in owners)
    && (id in s.tasks && s.tasks[id].IsDurable() ==> OwnerOf(Reservation(s, id, hash)) in owners)
    && (id in s.tasks && !s.tasks[id].IsDurable() ==> forall o :: o in owners ==> o.id != id)
  }

  ghost predicate OwnersFollowTasks(s: System, hash: Params -> string) {
    s.store.journal.Some? && forall id :: OwnerFollowsTask(s, hash, id)
  }

  /** A binding leads to a known operation that carries the key. */
  ghost predicate BindingKnown(s: System, key: string) {
    key in s.store.idempotent ==>
      && s.store.idempotent[key] in s.store.ops
      && s.store.ops[s.store.idempotent[key]].record.key == Some(key)
  }

  /** A key still being submitted is unbound; an acknowledged one is bound to its operation. */
  ghost predicate KeyFollowsTask(s: System, id: string) {
    id in s.tasks && s.tasks[id].key.Some? ==>
      var key := s.tasks[id].key.value;
      if s.tasks[id].Submitting() then key !in s.store.idempotent
      else key in s.store.idempotent && s.store.idempotent[key] == id
  }

  ghost predicate KeysFollowTasks(s: System) {
    && (forall key :: BindingKnown(s, key))
    && (forall id :: KeyFollowsTask(s, id))
  }

  ghost predicate ExecutionsAreOnce(s: System) {
    && (forall i, j :: 0 <= i < j < |s.executions| ==> s.executions[i].id != s.executions[j].id)
    && (forall i :: 0 <= i < |s.executions| ==> s.executions[i] in Owners(Lines(s)))
    && (forall i :: 0 <= i < |s.executions| && s.executions[i].id in s.tasks ==> s.tasks[s.executions[i].id].HasRun())
  }

  /** Every reachable state. */
  ghost predicate Invariant(s: System, hash: Params -> string) {
    && TableFollowsTasks(s, hash)
    && GateFollowsTasks(s)
    && LockFollowsTasks(s)
    && IdsOnce(Owners(Lines(s)))
    && OwnersFollowTasks(s, hash)
    && KeysFollowTasks(s)
    && ExecutionsAreOnce(s)
  }

  /** A journalled operation is the one its key is bound to, except while its own submission is still under the lock. */
  ghost predicate OwnerBound(s: System, owner: Owner) {
    owner.key.Some? ==>
      || (owner.key.value in s.store.idempotent && s.store.idempotent[owner.key.value] == owner.id)
      || s.lock == Some(owner.id)
  }

  /** Every reachable state, while no restart has failed to read a journal with the key. */
  ghost predicate KeyBound(s: System, key: string) {
    && KeyOnce(Owners(Lines(s)), key)
    && (forall owner :: owner in Owners(Lines(s)) && owner.key == Some(key) ==> OwnerBound(s, owner))
  }

  // -- Preservation by the steps of one daemon life ------------------------------------

  lemma OwnersAppend(lines: seq<Line>, record: Record)
    ensures Owners(lines + [Parsed(record)]) == Owners(lines) + {OwnerOf(record)}
  {
    var more := lines + [Parsed(record)];
    forall o | o in Owners(lines) + {OwnerOf(record)} ensures o in Owners(more) {
      if o in Owners(lines) {
        var i :| 0 <= i < |lines| && lines[i].Parsed? && o == OwnerOf(lines[i].record);
        assert more[i] == lines[i];
      } else {
        assert more[|lines|] == Parsed(record);
      }
    }
  }

  lemma OtherRowKept(s: System, step: Step, hash: Params -> string, id: string)
    requires RowFollowsTask(s, hash, id) && Enabled(s, step) && !step.Restart? && step.id != id
    ensures RowFollowsTask(Apply(s, step, hash), hash, id)
  {
    var s' := Apply(s, step, hash);
    assert id in s'.tasks <==> id in s.tasks;
    assert id in s.tasks ==> s'.tasks[id] == s.tasks[id];
    assert id in s'.store.ops <==> id in s.store.ops;
    assert id in s.store.ops ==> s'.store.ops[id] == s.store.ops[id];
  }

  lemma SubmissionRowKept(s: System, step: Step, hash: Params -> string)
    requires step.Enter? || step.TakeGate? || step.Reserve? || step.Publish? || step.Acknowledge? || step.Cancel?
    requires Enabled(s, step) && RowFollowsTask(s, hash, step.id)
    ensures RowFollowsTask(Apply(s, step, hash), hash, step.id)
  {
  }

  lemma TaskRowKept(s: System, step: Step, hash: Params -> string)
    requires step.MarkRunning? || step.NoteRunning? || step.Finish? || step.NoteFinished? || step.Release?
    requires Enabled(s, step) && RowFollowsTask(s, hash, step.id)
    ensures RowFollowsTask(Apply(s, step, hash), hash, step.id)
  {
  }

  lemma RowKept(s: System, step: Step, hash: Params -> string, id: string)
    requires RowFollowsTask(s, hash, id) && Enabled(s, step) && !step.Restart?
    ensures RowFollowsTask(Apply(s, step, hash), hash, id)
  {
    if step.id != id {
      OtherRowKept(s, step, hash, id);
    } else if step.MarkRunning? || step.NoteRunning? || step.Finish? || step.NoteFinished? || step.Release? {
      TaskRowKept(s, step, hash);
    } else {
      SubmissionRowKept(s, step, hash);
    }
  }

  lemma GateKept(s: System, step: Step, hash: Params -> string)
    requires GateFollowsTasks(s) && Enabled(s, step) && !step.Restart?
    ensures GateFollowsTasks(Apply(s, step, hash))
  {
    var s' := Apply(s, step, hash);
    if step.Cancel? || step.Enter? {
      assert GateHolders(s') == GateHolders(s);
    } else if step.id in GateHolders(s) {
      assert GateHolders(s) == {step.id};
      assert GateHolders(s') == if step.id in s'.tasks then {step.id} else {};
    } else if step.id in GateHolders(s') {
      assert GateHolders(s') == GateHolders(s) + {step.id};
    } else {
      assert GateHolders(s') == GateHolders(s);
    }
  }

  lemma LockKept(s: System, step: Step, hash: Params -> string)
    requires LockFollowsTasks(s) && Enabled(s, step) && !step.Restart?
    ensures LockFollowsTasks(Apply(s, step, hash))
  {
  }

  function NewOwner(s: System, step: Step, hash: Params -> string): set<Owner>
    requires Enabled(s, step)
  {
    match step
    case Reserve(id, durable) => if durable then {OwnerOf(Reservation(s, id, hash))} else {}
    case _ => {}
  }

  lemma OwnersKept(s: System, step: Step, hash: Params -> string)
    requires TableFollowsTasks(s, hash) && OwnersFollowTasks(s, hash) && Enabled(s, step) && !step.Restart?
    ensures Apply(s, step, hash).store.journal.Some?
    ensures Owners(Lines(Apply(s, step, hash))) == Owners(Lines(s)) + NewOwner(s, step, hash)
  {
    if step.Reserve? {
      OwnersAppend(Lines(s), Reservation(s, step.id, hash));
    } else if step.NoteRunning? || step.NoteFinished? {
      assert RowFollowsTask(s, hash, step.id) && OwnerFollowsTask(s, hash, step.id);
      OwnersAppend(Lines(s), s.store.ops[step.id].record);
    }
  }

  lemma OwnerKept(s: System, step: Step, hash: Params -> string, id: string)
    requires TableFollowsTasks(s, hash) && OwnersFollowTasks(s, hash) && Enabled(s, step) && !step.Restart?
    ensures OwnerFollowsTask(Apply(s, step, hash), hash, id)
  {
    OwnersKept(s, step, hash);
    assert OwnerFollowsTask(s, hash, id) && RowFollowsTask(s, hash, id);
    var s' := Apply(s, step, hash);
    if step.id != id {
      assert id in s'.tasks <==> id in s.tasks;
      assert id in s.tasks ==> s'.tasks[id] == s.tasks[id];
      assert id in s'.store.ops <==> id in s.store.ops;
      assert id in s.store.ops ==> s'.store.ops[id] == s.store.ops[id];
    } else {
      RowKept(s, step, hash, id);
      assert id in s'.store.ops && id in s.store.ops ==>
          OwnerOf(s'.store.ops[id].record) == OwnerOf(s.store.ops[id].record);
    }
  }

  lemma IdsOnceKept(s: System, step: Step, hash: Params -> string)
    requires Invariant(s, hash) && Enabled(s, step) && !step.Restart?
    ensures IdsOnce(Owners(Lines(Apply(s, step, hash))))
  {
    OwnersKept(s, step, hash);
    if step.Reserve? {
      assert OwnerFollowsTask(s, hash, step.id);
    }
  }

  lemma KeyOnceKept(s: System, step: Step, hash: Params -> string, key: string)
    requires Invariant(s, hash) && KeyBound(s, key) && Enabled(s, step) && !step.Restart?
    ensures KeyOnce(Owners(Lines(Apply(s, step, hash))), key)
  {
    OwnersKept(s, step, hash);
    if step.Reserve? && step.durable && s.tasks[step.id].key == Some(key) {
      assert OwnerFollowsTask(s, hash, step.id) && KeyFollowsTask(s, step.id);
      forall o | o in Owners(Lines(s)) ensures o.key != Some(key) {
        assert o.key == Some(key) ==> OwnerBound(s, o);
      }
    }
  }

  lemma OwnerBoundKept(s: System, step: Step, hash: Params -> string, owner: Owner)
    requires owner.key.Some? ==> KeyBound(s, owner.key.value)
    requires Invariant(s, hash) && Enabled(s, step) && !step.Restart?
    requires owner in Owners(Lines(Apply(s, step, hash)))
    ensures OwnerBound(Apply(s, step, hash), owner)
  {
    OwnersKept(s, step, hash);
    if owner in Owners(Lines(s)) {
      assert OwnerBound(s, owner);
      assert OwnerFollowsTask(s, hash, owner.id);
      if step.Acknowledge? {
        assert KeyFollowsTask(s, step.id) && OwnerFollowsTask(s, hash, step.id);
      }
    }
  }

  lemma BindingKept(s: System, step: Step, hash: Params -> string, key: string)
    requires Invariant(s, hash) && Enabled(s, step) && !step.Restart?
    ensures BindingKnown(Apply(s, step, hash), key)
  {
    assert BindingKnown(s, key);
    if step.Publish? || step.Acknowledge? || step.MarkRunning? || step.Finish? {
      assert RowFollowsTask(s, hash, step.id);
    }
  }

  lemma OtherKeyKept(s: System, step: Step, hash: Params -> string, id: string)
    requires KeyFollowsTask(s, id) && LockFollowsTasks(s) && Enabled(s, step) && !step.Restart? && step.id != id
    requires KeyFollowsTask(s, step.id)
    ensures KeyFollowsTask(Apply(s, step, hash), id)
  {
    var s' := Apply(s, step, hash);
    assert id in s'.tasks ==> id in s.tasks && s'.tasks[id] == s.tasks[id];
    assert !step.Acknowledge? ==> s'.store.idempotent == s.store.idempotent;
  }

  lemma KeyFollowsTaskKept(s: System, step: Step, hash: Params -> string, id: string)
    requires Invariant(s, hash) && Enabled(s, step) && !step.Restart?
    ensures KeyFollowsTask(Apply(s, step, hash), id)
  {
    assert KeyFollowsTask(s, id) && KeyFollowsTask(s, step.id);
    if step.id != id {
      OtherKeyKept(s, step, hash, id);
    } else if step.Enter? && step.key.Some? {
      assert BindingKnown(s, step.key.value);
    }
  }

  lemma StillHasRun(s: System, step: Step, hash: Params -> string, id: string)
    requires Enabled(s, step) && !step.Restart? && (step.Enter? ==> step.id != id)
    requires id in s.tasks ==> s.tasks[id].HasRun()
    ensures var tasks := Apply(s, step, hash).tasks; id in tasks ==> tasks[id].HasRun()
  {
  }

  lemma FirstExecution(s: System, step: Step, hash: Params -> string)
    requires Invariant(s, hash) && Enabled(s, step) && step.MarkRunning?
    ensures var owner := OwnerOf(Reservation(s, step.id, hash));
            && owner in Owners(Lines(s))
            && Apply(s, step, hash).executions == s.executions + [owner]
            && forall i :: 0 <= i < |s.executions| ==> s.executions[i].id != owner.id
  {
    assert OwnerFollowsTask(s, hash, step.id);
  }

  lemma ExecutionsKept(s: System, step: Step, hash: Params -> string)
    requires Invariant(s, hash) && Enabled(s, step) && !step.Restart?
    ensures ExecutionsAreOnce(Apply(s, step, hash))
  {
    OwnersKept(s, step, hash);
    var s' := Apply(s, step, hash);
    if step.MarkRunning? {
      FirstExecution(s, step, hash);
    } else {
      assert s'.executions == s.executions;
    }
    forall i | 0 <= i < |s'.executions| && s'.executions[i].id in s'.tasks
      ensures s'.tasks[s'.executions[i].id].HasRun() {
      if i < |s.executions| {
        StillHasRun(s, step, hash, s.executions[i].id);
      }
    }
  }

  lemma StepKeeps(s: System, step: Step, hash: Params -> string)
    requires Invariant(s, hash) && Enabled(s, step) && !step.Restart?
    ensures Invariant(Apply(s, step, hash), hash)
  {
    var s' := Apply(s, step, hash);
    forall id ensures RowFollowsTask(s', hash, id) { RowKept(s, step, hash, id); }
    forall id ensures OwnerFollowsTask(s', hash, id) { OwnerKept(s, step, hash, id); }
    forall key ensures BindingKnown(s', key) { BindingKept(s, step, hash, key); }
    forall id ensures KeyFollowsTask(s', id) { KeyFollowsTaskKept(s, step, hash, id); }
    OwnersKept(s, step, hash);
    GateKept(s, step, hash);
    LockKept(s, step, hash);
    IdsOnceKept(s, step, hash);
    ExecutionsKept(s, step, hash);
  }

  lemma StepKeepsBound(s: System, step: Step, hash: Params -> string, key: string)
    requires Invariant(s, hash) && KeyBound(s, key) && Enabled(s, step) && !step.Restart?
    ensures KeyBound(Apply(s, step, hash), key)
  {
    var s' := Apply(s, step, hash);
    forall owner | owner in Owners(Lines(s')) && owner.key == Some(key) ensures OwnerBound(s', owner) {
      OwnerBoundKept(s, step, hash, owner);
    }
    KeyOnceKept(s, step, hash, key);
  }

  // -- Preservation by a restart ----------------------------------------------------------

  lemma {:induction false} LastIsOwned(lines: seq<Line>, id: string)
    ensures Last(lines, id).Some? ==> Last(lines, id).value.id == id && OwnerOf(Last(lines, id).value) in Owners(lines)
    ensures forall o :: o in Owners(lines) && o.id == id ==> Last(lines, id).Some?
  {
    if lines != [] {
      LastIsOwned(lines[..|lines| - 1], id);
      OwnersSplit(lines);
    }
  }

  lemma {:induction false} KeyOwnerIsOwned(lines: seq<Line>, key: string)
    ensures KeyOwner(lines, key).Some? ==>
              exists o :: o in Owners(lines) && o.id == KeyOwner(lines, key).value && o.key == Some(key)
    ensures forall o :: o in Owners(lines) && o.key == Some(key) ==> KeyOwner(lines, key).Some?
  {
    if lines != [] {
      KeyOwnerIsOwned(lines[..|lines| - 1], key);
      OwnersSplit(lines);
    }
  }

  lemma OwnersSplit(lines: seq<Line>)
    requires lines != []
    ensures var line := lines[|lines| - 1];
            Owners(lines) == Owners(lines[..|lines| - 1]) + if line.Parsed? then {OwnerOf(line.record)} else {}
  {
    var before, line := lines[..|lines| - 1], lines[|lines| - 1];
    assert lines == before + [line];
    if line.Parsed? {
      OwnersAppend(before, line.record);
    } else {
      forall o | o in Owners(before) ensures o in Owners(lines) {
        var i :| 0 <= i < |before| && before[i].Parsed? && o == OwnerOf(before[i].record);
        assert lines[i] == before[i];
      }
    }
  }

  lemma {:induction false} InterruptedAreOwned(lines: seq<Line>)
    ensures forall note :: note in Fold(lines).interrupted ==> OwnerOf(note) in Owners(lines)
  {
    if lines != [] {
      InterruptedAreOwned(lines[..|lines| - 1]);
      OwnersSplit(lines);
    }
  }

  lemma {:induction false} NotesAddNoOwner(lines: seq<Line>, notes: seq<Record>, durable: nat -> bool)
    requires forall note :: note in notes ==> OwnerOf(note) in Owners(lines)
    ensures Owners(AppendNotes(lines, notes, durable)) == Owners(lines)
  {
    if notes != [] {
      NotesAddNoOwner(lines, notes[..|notes| - 1], durable);
      OwnersAppend(AppendNotes(lines, notes[..|notes| - 1], durable), notes[|notes| - 1]);
    }
  }

  lemma OwnersReopened(s: System, restart: Step, hash: Params -> string)
    requires restart.Restart?
    ensures Owners(Lines(Apply(s, restart, hash))) == Owners(Lines(s))
  {
    InterruptedAreOwned(Lines(s));
    NotesAddNoOwner(Lines(s), Fold(Lines(s)).interrupted, restart.notes);
  }

  lemma RestartKeeps(s: System, restart: Step, hash: Params -> string)
    requires Invariant(s, hash) && restart.Restart?
    ensures Invariant(Apply(s, restart, hash), hash)
  {
    var s' := Apply(s, restart, hash);
    OwnersReopened(s, restart, hash);
    assert GateHolders(s') == {};
    forall id ensures RowFollowsTask(s', hash, id) && OwnerFollowsTask(s', hash, id) {
      OneReopen(Lines(s), restart.notes, id, "");
      LastIsOwned(Lines(s), id);
    }
    forall key ensures BindingKnown(s', key) {
      RestoredBinding(s, restart, hash, key);
    }
  }

  /** The journal names the key. */
  predicate Named(s: System, key: string) {
    exists owner :: owner in Owners(Lines(s)) && owner.key == Some(key)
  }

  lemma RestartKeepsBound(s: System, restart: Step, hash: Params -> string, key: string)
    requires Invariant(s, hash) && KeyBound(s, key) && restart.Restart?
    requires restart.readable || !Named(s, key)
    ensures KeyBound(Apply(s, restart, hash), key)
  {
    var s' := Apply(s, restart, hash);
    OwnersReopened(s, restart, hash);
    forall owner | owner in Owners(Lines(s')) && owner.key == Some(key) ensures OwnerBound(s', owner) {
      assert Named(s, key);
      KeyOwnerIsOwned(Lines(s), key);
      OneReopen(Lines(s), restart.notes, "", key);
    }
  }

  lemma RestoredBinding(s: System, restart: Step, hash: Params -> string, key: string)
    requires Invariant(s, hash) && restart.Restart?
    ensures BindingKnown(Apply(s, restart, hash), key)
  {
    var lines := Lines(s);
    OneReopen(lines, restart.notes, "", key);
    KeyOwnerIsOwned(lines, key);
    if KeyOwner(lines, key).Some? {
      var owner :| owner in Owners(lines) && owner.id == KeyOwner(lines, key).value && owner.key == Some(key);
      LastIsOwned(lines, owner.id);
      OneReopen(lines, restart.notes, owner.id, key);
    }
  }

  /** Every reachable state, whatever the interleaving, crashes, lost notes and journals that cannot be read. */
  lemma {:induction false} RunInvariant(steps: seq<Step>, hash: Params -> string)
    requires Run(steps, hash).Some?
    ensures Invariant(Run(steps, hash).value, hash)
  {
    if steps == [] {
      assert GateHolders(Boot) == {};
      assert Owners(Lines(Boot)) == {};
    } else {
      RunInvariant(steps[..|steps| - 1], hash);
      var s, step := Run(steps[..|steps| - 1], hash).value, steps[|steps| - 1];
      if step.Restart? {
        RestartKeeps(s, step, hash);
      } else {
        StepKeeps(s, step, hash);
      }
    }
  }

  /** No restart has failed to read a journal that names the key. */
  predicate ReadSinceSubmission(steps: seq<Step>, hash: Params -> string, key: string) {
    steps != [] ==>
      var before, step := steps[..|steps| - 1], steps[|steps| - 1];
      && ReadSinceSubmission(before, hash, key)
      && (step.Restart? && !step.readable && Run(before, hash).Some? ==> !Named(Run(before, hash).value, key))
  }

  lemma {:induction false} RunKeyBound(steps: seq<Step>, hash: Params -> string, key: string)
    requires Run(steps, hash).Some? && ReadSinceSubmission(steps, hash, key)
    ensures KeyBound(Run(steps, hash).value, key)
  {
    if steps == [] {
      assert Owners(Lines(Boot)) == {};
    } else {
      var before, step := steps[..|steps| - 1], steps[|steps| - 1];
      RunKeyBound(before, hash, key);
      RunInvariant(before, hash);
      if step.Restart? {
        RestartKeepsBound(Run(before, hash).value, step, hash, key);
      } else {
        StepKeepsBound(Run(before, hash).value, step, hash, key);
      }
    }
  }

  // -- What clients may rely on ---------------------------------------------------------------

  /** The executions started under a key, by position in the history. */
  function ExecutionsUnder(s: System, key: string): set<nat> {
    set i: nat | i < |s.executions| && s.executions[i].key == Some(key)
  }

  /** Work has started under the key. */
  predicate Spent(s: System, key: string) {
    ExecutionsUnder(s, key) != {}
  }

  /** No restart after the first execution under the key has failed to read the journal. */
  predicate ReadSinceExecution(steps: seq<Step>, hash: Params -> string, key: string) {
    steps != [] ==>
      var before, step := steps[..|steps| - 1], steps[|steps| - 1];
      && ReadSinceExecution(before, hash, key)
      && (step.Restart? && !step.readable && Run(before, hash).Some? ==> !Spent(Run(before, hash).value, key))
  }

  /** A key under which work has started has one execution, is bound, and has no task that could start another. */
  ghost predicate SpentOnce(s: System, key: string) {
    && (forall i, j :: i in ExecutionsUnder(s, key) && j in ExecutionsUnder(s, key) ==> i == j)
    && (Spent(s, key) ==>
          && key in s.store.idempotent
          && (forall id :: id in s.tasks && s.tasks[id].key == Some(key) ==> s.tasks[id].HasRun()))
  }

  lemma FirstUnderKey(s: System, step: Step, hash: Params -> string, key: string)
    requires KeysFollowTasks(s) && SpentOnce(s, key) && Enabled(s, step)
    requires step.MarkRunning? && s.tasks[step.id].key == Some(key)
    ensures SpentOnce(Apply(s, step, hash), key)
  {
    assert ExecutionsUnder(Apply(s, step, hash), key) == {|s.executions|};
    assert KeyFollowsTask(s, step.id);
    forall id | id in s.tasks && s.tasks[id].key == Some(key) ensures id == step.id {
      assert KeyFollowsTask(s, id);
    }
  }

  lemma ExecutionsUnderKept(s: System, step: Step, hash: Params -> string, key: string)
    requires Enabled(s, step) && !(step.MarkRunning? && s.tasks[step.id].key == Some(key))
    ensures ExecutionsUnder(Apply(s, step, hash), key) == ExecutionsUnder(s, key)
  {
  }

  lemma StepKeepsSpentOnce(s: System, step: Step, hash: Params -> string, key: string)
    requires Invariant(s, hash) && SpentOnce(s, key) && Enabled(s, step) && !step.Restart?
    ensures SpentOnce(Apply(s, step, hash), key)
  {
    if step.MarkRunning? && s.tasks[step.id].key == Some(key) {
      FirstUnderKey(s, step, hash, key);
    } else {
      ExecutionsUnderKept(s, step, hash, key);
      assert BindingKnown(s, key);
    }
  }

  lemma RestartKeepsSpentOnce(s: System, restart: Step, hash: Params -> string, key: string)
    requires Invariant(s, hash) && SpentOnce(s, key) && restart.Restart?
    requires restart.readable || !Spent(s, key)
    ensures SpentOnce(Apply(s, restart, hash), key)
  {
    assert ExecutionsUnder(Apply(s, restart, hash), key) == ExecutionsUnder(s, key);
    if Spent(s, key) {
      var i :| i in ExecutionsUnder(s, key);
      KeyOwnerIsOwned(Lines(s), key);
      OneReopen(Lines(s), restart.notes, "", key);
      assert s.executions[i] in Owners(Lines(s));
    }
  }

  lemma {:induction false} RunSpentOnce(steps: seq<Step>, hash: Params -> string, key: string)
    requires Run(steps, hash).Some? && ReadSinceExecution(steps, hash, key)
    ensures SpentOnce(Run(steps, hash).value, key)
  {
    if steps != [] {
      var before, step := steps[..|steps| - 1], steps[|steps| - 1];
      RunSpentOnce(before, hash, key);
      RunInvariant(before, hash);
      if step.Restart? {
        RestartKeepsSpentOnce(Run(before, hash).value, step, hash, key);
      } else {
        StepKeepsSpentOnce(Run(before, hash).value, step, hash, key);
      }
    }
  }

  /**
   However often a key is submitted, at most one execution ever starts under it,
   as long as every restart after it can read the journal.
   */
  lemma KeyExecutesOnce(steps: seq<Step>, hash: Params -> string, key: string)
    requires Run(steps, hash).Some? && ReadSinceExecution(steps, hash, key)
    ensures |ExecutionsUnder(Run(steps, hash).value, key)| <= 1
  {
    RunSpentOnce(steps, hash, key);
    var under := ExecutionsUnder(Run(steps, hash).value, key);
    if under != {} {
      var i :| i in under;
      assert under == {i};
    }
  }

  /**
   All records carrying one key, in the table or the journal, belong to one
   operation and one request, as long as every restart after the first such line
   can read the journal.
   */
  lemma KeyHasOneOwner(steps: seq<Step>, hash: Params -> string, a: Record, b: Record)
    requires Run(steps, hash).Some?
    requires var s := Run(steps, hash).value;
             && (Parsed(a) in Lines(s) || (a.id in s.store.ops && s.store.ops[a.id].record == a))
             && (Parsed(b) in Lines(s) || (b.id in s.store.ops && s.store.ops[b.id].record == b))
    requires a.key.Some? && a.key == b.key && ReadSinceSubmission(steps, hash, a.key.value)
    ensures a.id == b.id && a.requestHash == b.requestHash
  {
    RunInvariant(steps, hash);
    RunKeyBound(steps, hash, a.key.value);
    var s := Run(steps, hash).value;
    assert OwnerFollowsTask(s, hash, a.id) && OwnerFollowsTask(s, hash, b.id);
    assert OwnerOf(a) in Owners(Lines(s)) && OwnerOf(b) in Owners(Lines(s));
  }

  /**
   Once a key is durable and its submission is over, in this daemon life or an
   earlier one, every submission under it is answered from that operation: the
   same request replays it and any other request conflicts, as long as every
   restart after it was journalled can read the journal.
   */
  lemma KeyIsRequestBound(
    steps: seq<Step>, hash: Params -> string, owner: Owner, id: string, params: Params, durable: bool)
    requires Run(steps, hash).Some?
    requires owner.key.Some? && ReadSinceSubmission(steps, hash, owner.key.value)
    requires var s := Run(steps, hash).value;
             owner in s.executions || (owner in Owners(Lines(s)) && s.lock != Some(owner.id))
    ensures var s := Run(steps, hash).value;
            var answer := Submitted(s.store, id, params, owner.key, hash(params), durable);
            && answer.0 == s.store
            && answer.1.Ok?
            && (answer.1.value.Replayed? || answer.1.value.Conflict?)
            && OwnerOf(answer.1.value.record) == owner
            && (answer.1.value.Replayed? <==> owner.request in {None, Some(hash(params))})
  {
    RunInvariant(steps, hash);
    RunKeyBound(steps, hash, owner.key.value);
    var s := Run(steps, hash).value;
    assert owner in Owners(Lines(s)) && OwnerBound(s, owner) && OwnerFollowsTask(s, hash, owner.id);
    assert owner in s.executions && owner.id in s.tasks ==> s.tasks[owner.id].HasRun();
    assert BindingKnown(s, owner.key.value);
    assert OwnerFollowsTask(s, hash, s.store.idempotent[owner.key.value]);
  }

  /** The operations that mutate the warehouse and are not finished: at most one, and only under a closed gate. */
  lemma GateIsExclusive(steps: seq<Step>, hash: Params -> string, a: string, b: string)
    requires Run(steps, hash).Some?
    requires var ops := Run(steps, hash).value.store.ops;
             && a in ops && Mutating(ops[a].record.kind) && !ops[a].record.status.Terminal()
             && b in ops && Mutating(ops[b].record.kind) && !ops[b].record.status.Terminal()
    ensures a == b && Run(steps, hash).value.store.busy
  {
    RunInvariant(steps, hash);
    var s := Run(steps, hash).value;
    assert RowFollowsTask(s, hash, a) && RowFollowsTask(s, hash, b);
    assert a in GateHolders(s) && b in GateHolders(s);
  }

  /** The lifecycle: queued, then running, then one terminal state for good. */
  predicate StatusMoves(before: Status, after: Status) {
    before == after || (before.Queued? && after.Running?) || (before.Running? && after.Terminal())
  }

  /**
   Within one daemon life an operation never leaves the table, its status only
   moves along the lifecycle, a finished record never changes again, and work
   ends cancelled exactly when cancellation was requested before it finished.
   */
  lemma LifecycleIsForward(steps: seq<Step>, hash: Params -> string, step: Step, id: string)
    requires Run(steps, hash).Some?
    requires var s := Run(steps, hash).value; Enabled(s, step) && !step.Restart? && id in s.store.ops
    ensures var before := Run(steps, hash).value.store.ops;
            var after := Apply(Run(steps, hash).value, step, hash).store.ops;
            && id in after
            && StatusMoves(before[id].record.status, after[id].record.status)
            && (before[id].record.status.Terminal() ==> after[id].record == before[id].record)
            && (before[id].cancelled ==> after[id].cancelled)
            && (before[id].record.status.Running? && after[id].record.status.Terminal() ==>
                  (after[id].record.status.Cancelled? <==> before[id].cancelled))
  {
    RunInvariant(steps, hash);
    assert RowFollowsTask(Run(steps, hash).value, hash, id);
  }

  /** The gate is closed to a mutating submission, or its queued record does not reach the journal. */
  predicate Refused(s: System, step: Step)
    requires Enabled(s, step)
  {
    || (step.TakeGate? && Mutating(s.tasks[step.id].params.kind) && s.store.busy)
    || (step.Reserve? && !step.durable)
  }

  /**
   In every reachable interleaving, a refused submission leaves no trace: table,
   keys, journal and history are as they were, its task and lock are gone, and the
   gate is closed exactly if another task holds it.
   */
  lemma RefusalLeavesNoTrace(steps: seq<Step>, hash: Params -> string, step: Step)
    requires Run(steps, hash).Some?
    requires Enabled(Run(steps, hash).value, step) && Refused(Run(steps, hash).value, step)
    ensures var s := Run(steps, hash).value;
            var after := Apply(s, step, hash);
            && after.store.ops == s.store.ops && after.store.idempotent == s.store.idempotent
            && after.store.journal == s.store.journal && after.executions == s.executions
            && after.tasks == s.tasks - {step.id} && after.lock != Some(step.id)
            && (after.store.busy <==> GateHolders(s) - {step.id} != {})
  {
    var s := Run(steps, hash).value;
    var after := Apply(s, step, hash);
    RunInvariant(steps, hash);
    StepKeeps(s, step, hash);
    assert GateHolders(after) == GateHolders(s) - {step.id};
    assert s.tasks[step.id].key.None? ==> s.lock != Some(step.id);
  }

  /** The refused submission has never been in the table or the journal. */
  lemma RefusedIsUnknown(steps: seq<Step>, hash: Params -> string, step: Step)
    requires Run(steps, hash).Some?
    requires Enabled(Run(steps, hash).value, step) && Refused(Run(steps, hash).value, step)
    ensures var after := Apply(Run(steps, hash).value, step, hash);
            step.id !in after.store.ops && forall o :: o in Owners(Lines(after)) ==> o.id != step.id
  {
    var s := Run(steps, hash).value;
    RunInvariant(steps, hash);
    assert RowFollowsTask(s, hash, step.id) && OwnerFollowsTask(s, hash, step.id);
  }

  /** The steps of a submission up to its acknowledgement, taken without interruption. */
  function SubmitSteps(id: string, params: Params, key: Option<string>, durable: bool): seq<Step> {
    [Enter(id, params, key), TakeGate(id), Reserve(id, durable), Publish(id), Acknowledge(id)]
  }

  function ApplyAll(s: System, steps: seq<Step>, hash: Params -> string): Option<System>
    decreases steps
  {
    if steps == [] then Some(s)
    else if Enabled(s, steps[0]) then ApplyAll(Apply(s, steps[0], hash), steps[1..], hash)
    else None
  }

  /** A submission that has reached the journal but not the table. */
  function AtReserve(s: System, id: string, params: Params, key: Option<string>, hash: Params -> string): System {
    s.(tasks := s.tasks[id := Task(params, key, Reserved)],
       lock := if key.Some? then Some(id) else None,
       store := s.store.(
       busy := s.store.busy || Mutating(params.kind),
       journal := Appended(s.store.journal, QueuedRecord(id, params, key, hash(params)))))
  }

  lemma PublishAndAcknowledge(
    s: System, id: string, params: Params, key: Option<string>, hash: Params -> string)
    requires FreshId(s, id) && s.lock.None?
    ensures ApplyAll(AtReserve(s, id, params, key, hash), [Publish(id), Acknowledge(id)], hash)
         == Some(AtReserve(s, id, params, key, hash).(
                 tasks := s.tasks[id := Task(params, key, Accepted)],
                 lock := None,
                 store := AtReserve(s, id, params, key, hash).store.(
                 ops := s.store.ops[id := Entry(QueuedRecord(id, params, key, hash(params)), false)],
                 idempotent := if key.Some? then s.store.idempotent[key.value := id] else s.store.idempotent)))
  {
    var reserved := AtReserve(s, id, params, key, hash);
    var visible := Apply(reserved, Publish(id), hash);
    assert visible.tasks == s.tasks[id := Task(params, key, Visible)];
    var accepted := Apply(visible, Acknowledge(id), hash);
    assert accepted.tasks == s.tasks[id := Task(params, key, Accepted)];
    assert [Publish(id), Acknowledge(id)][1..] == [Acknowledge(id)];
    assert ApplyAll(visible, [Acknowledge(id)], hash) == Some(accepted);
  }

  lemma ApplyThree(s: System, a: Step, b: Step, c: Step, rest: seq<Step>, hash: Params -> string)
    requires Enabled(s, a) && Enabled(Apply(s, a, hash), b) && Enabled(Apply(Apply(s, a, hash), b, hash), c)
    ensures ApplyAll(s, [a, b, c] + rest, hash)
         == ApplyAll(Apply(Apply(Apply(s, a, hash), b, hash), c, hash), rest, hash)
  {
    var steps := [a, b, c] + rest;
    assert steps[1..] == [b, c] + rest && steps[1..][1..] == [c] + rest && steps[1..][1..][1..] == rest;
    assert ApplyAll(Apply(s, a, hash), steps[1..], hash)
        == ApplyAll(Apply(Apply(s, a, hash), b, hash), steps[1..][1..], hash);
  }

  lemma EnterToReserve(
    s: System, id: string, params: Params, key: Option<string>, hash: Params -> string, durable: bool)
    requires FreshId(s, id) && s.lock.None? && s.store.journal.Some?
    requires Submitted(s.store, id, params, key, hash(params), durable).1.Ok?
    requires Submitted(s.store, id, params, key, hash(params), durable).1.value.New?
    ensures ApplyAll(s, SubmitSteps(id, params, key, durable), hash)
         == ApplyAll(AtReserve(s, id, params, key, hash), [Publish(id), Acknowledge(id)], hash)
  {
    var steps := SubmitSteps(id, params, key, durable);
    var entered := Apply(s, Enter(id, params, key), hash);
    assert entered.tasks == s.tasks[id := Task(params, key, Entered)];
    var gated := Apply(entered, TakeGate(id), hash);
    assert gated.tasks == s.tasks[id := Task(params, key, Gated)];
    var reserved := Apply(gated, Reserve(id, durable), hash);
    assert reserved.tasks == s.tasks[id := Task(params, key, Reserved)];
    assert steps == [Enter(id, params, key), TakeGate(id), Reserve(id, durable)] + [Publish(id), Acknowledge(id)];
    ApplyThree(s, Enter(id, params, key), TakeGate(id), Reserve(id, durable), [Publish(id), Acknowledge(id)], hash);
  }

  /** How many of its steps a submission takes before it is answered. */
  function StepsTaken(outcome: Result<Outcome, OperationError>): nat {
    match outcome
    case Err(_) => 3
    case Ok(New(_)) => 5
    case Ok(Busy) => 2
    case Ok(_) => 1
  }

  lemma AnsweredAtOnce(s: System, id: string, params: Params, key: Option<string>, hash: Params -> string)
    requires FreshId(s, id) && s.lock.None? && key.Some? && Lookup(s.store, key.value).Some?
    ensures ApplyAll(s, [Enter(id, params, key)], hash) == Some(s)
  {
    assert [Enter(id, params, key)][1..] == [];
  }

  lemma BusyAtTheGate(s: System, id: string, params: Params, key: Option<string>, hash: Params -> string)
    requires FreshId(s, id) && s.lock.None? && (key.Some? ==> Lookup(s.store, key.value).None?)
    requires Mutating(params.kind) && s.store.busy
    ensures ApplyAll(s, [Enter(id, params, key), TakeGate(id)], hash) == Some(s)
  {
    var steps := [Enter(id, params, key), TakeGate(id)];
    var entered := Apply(s, Enter(id, params, key), hash);
    assert entered.tasks == s.tasks[id := Task(params, key, Entered)];
    var left := Apply(entered, TakeGate(id), hash);
    assert left.tasks == s.tasks;
    assert left == s;
    assert steps[1..] == [TakeGate(id)] && steps[1..][1..] == [];
    assert ApplyAll(entered, [TakeGate(id)], hash) == Some(left);
  }

  lemma LostReservation(s: System, id: string, params: Params, key: Option<string>, hash: Params -> string)
    requires FreshId(s, id) && s.lock.None? && (key.Some? ==> Lookup(s.store, key.value).None?)
    requires !(Mutating(params.kind) && s.store.busy)
    ensures ApplyAll(s, [Enter(id, params, key), TakeGate(id), Reserve(id, false)], hash) == Some(s)
  {
    var steps := [Enter(id, params, key), TakeGate(id), Reserve(id, false)];
    var entered := Apply(s, Enter(id, params, key), hash);
    assert entered.tasks == s.tasks[id := Task(params, key, Entered)];
    var gated := Apply(entered, TakeGate(id), hash);
    assert gated.tasks == s.tasks[id := Task(params, key, Gated)];
    var left := Apply(gated, Reserve(id, false), hash);
    assert left.tasks == s.tasks;
    assert left == s;
    assert steps[1..] == [TakeGate(id), Reserve(id, false)] && steps[1..][1..] == [Reserve(id, false)];
    assert ApplyAll(gated, [Reserve(id, false)], hash) == Some(left);
    assert ApplyAll(entered, steps[1..], hash) == ApplyAll(gated, steps[1..][1..], hash);
  }

  /**
   Taken without interruption, a submission's steps are one call of `submit`,
   however it is answered: replayed or in conflict after the first, busy after the
   second, refused by the journal after the third, registered after the last.
   */
  lemma SubmissionIsAtomicCall(
    s: System, id: string, params: Params, key: Option<string>, hash: Params -> string, durable: bool)
    requires FreshId(s, id) && s.lock.None? && s.store.journal.Some?
    ensures var (store, outcome) := Submitted(s.store, id, params, key, hash(params), durable);
            ApplyAll(s, SubmitSteps(id, params, key, durable)[..StepsTaken(outcome)], hash)
            == Some(if outcome.Ok? && outcome.value.New?
                    then s.(store := store, tasks := s.tasks[id := Task(params, key, Accepted)])
                    else s.(store := store))
  {
    var steps, outcome := SubmitSteps(id, params, key, durable),
        Submitted(s.store, id, params, key, hash(params), durable).1;
    if key.Some? && Lookup(s.store, key.value).Some? {
      AnsweredAtOnce(s, id, params, key, hash);
      assert steps[..1] == [Enter(id, params, key)];
    } else if Mutating(params.kind) && s.store.busy {
      BusyAtTheGate(s, id, params, key, hash);
      assert steps[..2] == [Enter(id, params, key), TakeGate(id)];
    } else if !durable {
      LostReservation(s, id, params, key, hash);
      assert steps[..3] == [Enter(id, params, key), TakeGate(id), Reserve(id, false)];
    } else {
      EnterToReserve(s, id, params, key, hash, durable);
      PublishAndAcknowledge(s, id, params, key, hash);
      assert steps[..5] == steps;
    }
  }

  // -- Restarts that cannot read the journal -------------------------------------------------------

  lemma {:induction false} RunThenApply(steps: seq<Step>, more: seq<Step>, hash: Params -> string)
    requires Run(steps, hash).Some?
    ensures Run(steps + more, hash) == ApplyAll(Run(steps, hash).value, more, hash)
    decreases more
  {
    if more == [] {
      assert steps + more == steps;
    } else {
      var next := steps + [more[0]];
      assert next[..|next| - 1] == steps;
      assert steps + more == next + more[1..];
      if Enabled(Run(steps, hash).value, more[0]) {
        RunThenApply(next, more[1..], hash);
      } else {
        RefusedForGood(next, more[1..], hash);
      }
    }
  }

  lemma {:induction false} RefusedForGood(steps: seq<Step>, more: seq<Step>, hash: Params -> string)
    requires Run(steps, hash).None?
    ensures Run(steps + more, hash).None?
  {
    if more == [] {
      assert steps + more == steps;
    } else {
      RefusedForGood(steps, more[..|more| - 1], hash);
      assert (steps + more)[..|steps + more| - 1] == steps + more[..|more| - 1];
    }
  }

  lemma LongerThanAll(used: set<string>) returns (length: nat)
    ensures forall text :: text in used ==> |text| < length
  {
    if used == {} {
      length := 0;
    } else {
      var text :| text in used;
      var rest := LongerThanAll(used - {text});
      length := rest + |text| + 1;
    }
  }

  lemma FreshIdExists(s: System) returns (id: string)
    ensures FreshId(s, id)
  {
    var length := LongerThanAll(
      s.tasks.Keys + s.store.ops.Keys
      + (set o | o in Owners(Lines(s)) :: o.id)
      + (set i | 0 <= i < |s.executions| :: s.executions[i].id));
    id := seq(length, _ => '0');
  }

  /** The submission of a key and the start of its work, right after a restart that cannot read the journal. */
  function Resubmission(notes: nat -> bool, id: string, params: Params, key: string): seq<Step> {
    [Restart(false, notes)] + SubmitSteps(id, params, Some(key), true) + [MarkRunning(id)]
  }

  lemma ResubmissionExecutes(
    s: System, notes: nat -> bool, id: string, params: Params, key: string, hash: Params -> string)
    requires s.store.journal.Some? && FreshId(s, id)
    ensures var after := ApplyAll(s, Resubmission(notes, id, params, key), hash);
            && after.Some?
            && after.value.executions == s.executions + [Owner(id, Some(key), Some(hash(params)))]
  {
    var restarted := Apply(s, Restart(false, notes), hash);
    var submit, run := SubmitSteps(id, params, Some(key), true), [MarkRunning(id)];
    SubmissionAccepted(restarted, id, params, key, hash);
    ApplyAllAcross(restarted, submit, run, hash);
    ApplyOne(ApplyAll(restarted, submit, hash).value, run[0], hash);
    assert Resubmission(notes, id, params, key)[1..] == submit + run;
  }

  lemma ApplyOne(s: System, step: Step, hash: Params -> string)
    requires Enabled(s, step)
    ensures ApplyAll(s, [step], hash) == Some(Apply(s, step, hash))
  {
    assert [step][1..] == [];
  }

  /** With nothing bound and the gate open, a durable submission is accepted. */
  lemma SubmissionAccepted(s: System, id: string, params: Params, key: string, hash: Params -> string)
    requires FreshId(s, id) && s.lock.None? && s.store.journal.Some? && s.store.idempotent == map[] && !s.store.busy
    ensures var after := ApplyAll(s, SubmitSteps(id, params, Some(key), true), hash);
            && after.Some? && after.value.executions == s.executions
            && after.value.tasks == s.tasks[id := Task(params, Some(key), Accepted)]
  {
    SubmissionIsAtomicCall(s, id, params, Some(key), hash, true);
    assert SubmitSteps(id, params, Some(key), true)[..5] == SubmitSteps(id, params, Some(key), true);
  }

  lemma {:induction false} ApplyAllAcross(s: System, steps: seq<Step>, more: seq<Step>, hash: Params -> string)
    requires ApplyAll(s, steps, hash).Some?
    ensures ApplyAll(s, steps + more, hash) == ApplyAll(ApplyAll(s, steps, hash).value, more, hash)
    decreases steps
  {
    if steps == [] {
      assert steps + more == more;
    } else {
      ApplyAllAcross(Apply(s, steps[0], hash), steps[1..], more, hash);
      assert (steps + more)[1..] == steps[1..] + more;
    }
  }

  /** A run in which work has started under the key more than once. */
  predicate RunsTwice(steps: seq<Step>, hash: Params -> string, key: string) {
    Run(steps, hash).Some? && |ExecutionsUnder(Run(steps, hash).value, key)| > 1
  }

  /**
   From every reachable state in which work has started under a key, a restart
   that cannot read the journal has a continuation that starts work under it again.
   */
  lemma SpentKeyRunsAgain(steps: seq<Step>, hash: Params -> string, key: string, notes: nat -> bool, params: Params)
    requires Run(steps, hash).Some? && Spent(Run(steps, hash).value, key)
    ensures exists id :: RunsTwice(steps + Resubmission(notes, id, params, key), hash, key)
  {
    var s := Run(steps, hash).value;
    RunInvariant(steps, hash);
    var id := FreshIdExists(s);
    ResubmissionExecutes(s, notes, id, params, key, hash);
    RunThenApply(steps, Resubmission(notes, id, params, key), hash);
    var after := Run(steps + Resubmission(notes, id, params, key), hash).value;
    var i :| i in ExecutionsUnder(s, key);
    assert {i, |s.executions|} <= ExecutionsUnder(after, key);
    LargerSet({i, |s.executions|}, ExecutionsUnder(after, key));
  }

  lemma {:induction false} LargerSet(few: set<nat>, many: set<nat>)
    requires few <= many
    ensures |few| <= |many|
  {
    if few != {} {
      var x :| x in few;
      LargerSet(few - {x}, many - {x});
    }
  }

  /** Every restart reads the journal. */
  predicate AllReadable(steps: seq<Step>) {
    forall k :: 0 <= k < |steps| && steps[k].Restart? ==> steps[k].readable
  }

  predicate OnceAfter(steps: seq<Step>, more: seq<Step>, hash: Params -> string, key: string) {
    AllReadable(more) ==> !RunsTwice(steps + more, hash, key)
  }

  lemma {:induction false} ReadAcross(steps: seq<Step>, more: seq<Step>, hash: Params -> string, key: string)
    requires ReadSinceExecution(steps, hash, key) && AllReadable(more)
    ensures ReadSinceExecution(steps + more, hash, key)
  {
    if more == [] {
      assert steps + more == steps;
    } else {
      ReadAcross(steps, more[..|more| - 1], hash, key);
      assert (steps + more)[..|steps + more| - 1] == steps + more[..|more| - 1];
    }
  }

  lemma Regrouped<T>(a: seq<T>, b: seq<T>, c: seq<T>, d: seq<T>)
    ensures a + (b + c + d) == a + b + (c + d)
  {
  }

  lemma SubmissionIsReadable(id: string, params: Params, key: string)
    ensures AllReadable(SubmitSteps(id, params, Some(key), true) + [MarkRunning(id)])
  {
  }

  lemma UnreadableForgets(steps: seq<Step>, hash: Params -> string, key: string, notes: nat -> bool)
    requires Run(steps, hash).Some? && Spent(Run(steps, hash).value, key)
    ensures exists more :: !OnceAfter(steps + [Restart(false, notes)], more, hash, key)
  {
    var params := Params("validate", "");
    SpentKeyRunsAgain(steps, hash, key, notes, params);
    var id :| RunsTwice(steps + Resubmission(notes, id, params, key), hash, key);
    var submit, run := SubmitSteps(id, params, Some(key), true), [MarkRunning(id)];
    Regrouped(steps, [Restart(false, notes)], submit, run);
    SubmissionIsReadable(id, params, key);
    assert !OnceAfter(steps + [Restart(false, notes)], submit + run, hash, key);
  }

  /**
   After a restart, a key executes at most once in every continuation whose own
   restarts read the journal, if and only if this restart read it or no work has
   started under the key.
   */
  lemma RestartKeepsKeysExactly(steps: seq<Step>, hash: Params -> string, key: string, restart: Step)
    requires Run(steps, hash).Some? && ReadSinceExecution(steps, hash, key) && restart.Restart?
    ensures (forall more :: OnceAfter(steps + [restart], more, hash, key))
            <==> restart.readable || !Spent(Run(steps, hash).value, key)
  {
    var after := steps + [restart];
    assert after[..|after| - 1] == steps;
    if restart.readable || !Spent(Run(steps, hash).value, key) {
      forall more ensures OnceAfter(after, more, hash, key) {
        if AllReadable(more) && Run(after + more, hash).Some? {
          ReadAcross(after, more, hash, key);
          KeyExecutesOnce(after + more, hash, key);
        }
      }
    } else {
      UnreadableForgets(steps, hash, key, restart.notes);
    }
  }
}
