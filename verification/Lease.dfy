/**
 The writer-lease protocol: one row per task in a lease table, an append-only event log, and
 operations that are each one transaction over the two.

 The table is described twice. `Db` and the functions on it say what one transaction does to the
 whole state; the class `LeaseStore` performs the same transactions step by step on its fields,
 with a working copy that is committed or dropped.
 */
module Lease {
  import opened Common

  const DEFAULT_LEASE_DURATION: int := 30 * 60 * 1_000_000_000

  datatype Harness = ClaudeCode | Codex | Hermes | Other(name: string)

  datatype SessionIdentity = SessionIdentity(harness: Harness, nativeSessionId: string)

  /** A session as the table stores it: the harness has become a plain string. */
  datatype StoredOwner = StoredOwner(harness: string, session: string)

  datatype WriterLease = WriterLease(
    taskId: Uuid,
    worktreeId: Uuid,
    owner: SessionIdentity,
    acquiredAt: int,
    renewedAt: int,
    expiresAt: int,
    generation: nat)

  datatype LeaseError =
    | AlreadyHeld(owner: SessionIdentity, until: int)
    | WrongOwner
    | GenerationChanged
    | TaskUnavailable
    | InvalidDuration
    | StoreFailed

  datatype Row = Row(
    worktreeId: Uuid,
    owner: StoredOwner,
    acquiredAt: int,
    renewedAt: int,
    expiresAt: int,
    generation: nat)

  datatype Action = Acquired | Renewed | TakenOver | Released | HandedOff

  datatype Event = Event(
    taskId: Uuid,
    worktreeId: Uuid,
    action: Action,
    owner: StoredOwner,
    priorOwner: Option<StoredOwner>,
    generation: nat,
    occurredAt: int)

  datatype Task = Task(worktreeId: Uuid, active: bool)

  datatype Db = Db(tasks: map<Uuid, Task>, rows: map<Uuid, Row>, events: seq<Event>)

  const EMPTY: Db := Db(map[], map[], [])

  // ----- Storing and loading sessions -----

  function HarnessName(harness: Harness): string {
    match harness
    case ClaudeCode => "claude-code"
    case Codex => "codex"
    case Hermes => "hermes"
    case Other(name) => name
  }

  function HarnessOf(value: string): Harness {
    if value == "claude-code" then ClaudeCode
    else if value == "codex" then Codex
    else if value == "hermes" then Hermes
    else Other(value)
  }

  function Stored(owner: SessionIdentity): StoredOwner {
    StoredOwner(HarnessName(owner.harness), owner.nativeSessionId)
  }

  function Loaded(owner: StoredOwner): SessionIdentity {
    SessionIdentity(HarnessOf(owner.harness), owner.session)
  }

  /** A session that does not spell a known harness as a free-form one. */
  predicate Canonical(owner: SessionIdentity) {
    owner.harness.Other? ==> owner.harness.name !in ["claude-code", "codex", "hermes"]
  }

  /** Storing and loading a session gives it back exactly when it is canonical. */
  lemma SessionRoundTrip(owner: SessionIdentity)
    ensures Loaded(Stored(owner)) == owner <==> Canonical(owner)
  {
    match owner.harness {
      case ClaudeCode =>
      case Codex =>
        assert "codex"[1] != "claude-code"[1];
      case Hermes =>
        assert |"hermes"| != |"codex"| && |"hermes"| != |"claude-code"|;
      case Other(name) =>
    }
  }

  function ToRow(lease: WriterLease): Row {
    Row(lease.worktreeId, Stored(lease.owner), lease.acquiredAt, lease.renewedAt, lease.expiresAt, lease.generation)
  }

  function LoadRow(taskId: Uuid, row: Row): WriterLease {
    WriterLease(taskId, row.worktreeId, Loaded(row.owner), row.acquiredAt, row.renewedAt, row.expiresAt, row.generation)
  }

  function SaturatingNext(generation: nat): nat {
    if generation >= U64_MAX then U64_MAX else generation + 1
  }

  // ----- One transaction -----

  /** The constraints the table checks on a row: column ranges, the task key and a unique worktree. */
  predicate Storable(db: Db, lease: WriterLease) {
    && FitsI64(lease.acquiredAt) && FitsI64(lease.renewedAt) && FitsI64(lease.expiresAt)
    && 0 < lease.generation <= I64_MAX
    && lease.taskId in db.tasks
    && forall t :: t in db.rows && t != lease.taskId ==> db.rows[t].worktreeId != lease.worktreeId
  }

  function EventOf(lease: WriterLease, action: Action, prior: Option<StoredOwner>, now: int): Event {
    Event(lease.taskId, lease.worktreeId, action, Stored(lease.owner), prior, lease.generation, now)
  }

  /** Store a lease and log it, or leave the database alone. */
  function Write(db: Db, lease: WriterLease, action: Action, prior: Option<StoredOwner>, now: int)
    : (result: (Db, Result<WriterLease, LeaseError>))
  {
    if Storable(db, lease) && FitsI64(now) then
      (db.(rows := db.rows[lease.taskId := ToRow(lease)],
           events := db.events + [EventOf(lease, action, prior, now)]),
       Ok(lease))
    else
      (db, Err(StoreFailed))
  }

  function FreshLease(taskId: Uuid, worktreeId: Uuid, owner: SessionIdentity, now: int, duration: int, generation: nat)
    : WriterLease
  {
    WriterLease(taskId, worktreeId, owner, now, now, now + duration, generation)
  }

  function Extended(existing: WriterLease, now: int, duration: int): WriterLease {
    var renewedAt := Max(now, existing.renewedAt);
    existing.(renewedAt := renewedAt, expiresAt := renewedAt + duration)
  }

  function DurationOf(duration: Option<int>): int {
    if duration.Some? then duration.value else DEFAULT_LEASE_DURATION
  }

  function Acquire(db: Db, taskId: Uuid, owner: SessionIdentity, now: int, duration: Option<int>)
    : (result: (Db, Result<WriterLease, LeaseError>))
  {
    var d := DurationOf(duration);
    if d <= 0 then (db, Err(InvalidDuration))
    else if taskId !in db.tasks || !db.tasks[taskId].active then (db, Err(TaskUnavailable))
    else
      var worktreeId := db.tasks[taskId].worktreeId;
      if taskId !in db.rows then
        Write(db, FreshLease(taskId, worktreeId, owner, now, d, 1), Acquired, None, now)
      else
        var existing := LoadRow(taskId, db.rows[taskId]);
        if existing.expiresAt > now && existing.owner != owner then
          (db, Err(AlreadyHeld(existing.owner, existing.expiresAt)))
        else if existing.expiresAt > now then
          Write(db, Extended(existing, now, d), Renewed, None, now)
        else
          Write(db, FreshLease(taskId, worktreeId, owner, now, d, SaturatingNext(existing.generation)),
                TakenOver, Some(Stored(existing.owner)), now)
  }

  /** The check that renew, release and handoff share. */
  function Refusal(db: Db, taskId: Uuid, owner: SessionIdentity, generation: nat): Option<LeaseError> {
    if taskId !in db.rows then Some(TaskUnavailable)
    else
      var existing := LoadRow(taskId, db.rows[taskId]);
      if existing.owner != owner then Some(WrongOwner)
      else if existing.generation != generation then Some(GenerationChanged)
      else None
  }

  function Renew(db: Db, taskId: Uuid, owner: SessionIdentity, generation: nat, now: int, duration: Option<int>)
    : (result: (Db, Result<WriterLease, LeaseError>))
  {
    var d := DurationOf(duration);
    if d <= 0 then (db, Err(InvalidDuration))
    else
      var refusal := Refusal(db, taskId, owner, generation);
      if refusal.Some? then (db, Err(refusal.value))
      else Write(db, Extended(LoadRow(taskId, db.rows[taskId]), now, d), Renewed, None, now)
  }

  function Release(db: Db, taskId: Uuid, owner: SessionIdentity, generation: nat, now: int)
    : (result: (Db, Result<(), LeaseError>))
  {
    var refusal := Refusal(db, taskId, owner, generation);
    if refusal.Some? then (db, Err(refusal.value))
    else if generation > I64_MAX || !FitsI64(now) then (db, Err(StoreFailed))
    else
      (db.(rows := db.rows - {taskId},
           events := db.events + [EventOf(LoadRow(taskId, db.rows[taskId]), Released, None, now)]),
       Ok(()))
  }

  function Handoff(db: Db, taskId: Uuid, owner: SessionIdentity, generation: nat, next: SessionIdentity, now: int)
    : (result: (Db, Result<WriterLease, LeaseError>))
  {
    var refusal := Refusal(db, taskId, owner, generation);
    if refusal.Some? then (db, Err(refusal.value))
    else
      var existing := LoadRow(taskId, db.rows[taskId]);
      Write(db, FreshLease(taskId, existing.worktreeId, next, now, DEFAULT_LEASE_DURATION, SaturatingNext(generation)),
            HandedOff, Some(Stored(existing.owner)), now)
  }

  // ----- Runs -----

  /** One call on the store. `now` is the clock reading the caller passes in. */
  datatype Op =
    | CreateTask(id: Uuid, worktreeId: Uuid, active: bool, now: int)
    | CloseTask(id: Uuid, now: int)
    | AcquireLease(id: Uuid, owner: SessionIdentity, duration: Option<int>, now: int)
    | RenewLease(id: Uuid, owner: SessionIdentity, generation: nat, duration: Option<int>, now: int)
    | ReleaseLease(id: Uuid, owner: SessionIdentity, generation: nat, now: int)
    | HandoffLease(id: Uuid, owner: SessionIdentity, generation: nat, next: SessionIdentity, now: int)

  function Step(db: Db, op: Op): Db {
    match op
    case CreateTask(id, worktreeId, active, _) =>
      if id in db.tasks then db else db.(tasks := db.tasks[id := Task(worktreeId, active)])
    case CloseTask(id, _) =>
      if id in db.tasks && db.tasks[id].active then db.(tasks := db.tasks[id := db.tasks[id].(active := false)]) else db
    case AcquireLease(id, owner, duration, now) => Acquire(db, id, owner, now, duration).0
    case RenewLease(id, owner, generation, duration, now) => Renew(db, id, owner, generation, now, duration).0
    case ReleaseLease(id, owner, generation, now) => Release(db, id, owner, generation, now).0
    case HandoffLease(id, owner, generation, next, now) => Handoff(db, id, owner, generation, next, now).0
  }

  function Run(db: Db, ops: seq<Op>): Db
    decreases |ops|
  {
    if ops == [] then db else Run(Step(db, ops[0]), ops[1..])
  }

  // ----- What every reachable table satisfies, whatever the clock does -----

  ghost predicate RowInv(db: Db, t: Uuid)
    requires t in db.rows
  {
    var row := db.rows[t];
    && t in db.tasks && db.tasks[t].worktreeId == row.worktreeId
    && row.acquiredAt <= row.renewedAt < row.expiresAt
    && I64_MIN <= row.acquiredAt && row.expiresAt <= I64_MAX
    && 1 <= row.generation <= I64_MAX
  }

  ghost predicate Inv(db: Db) {
    && (forall t :: t in db.rows ==> RowInv(db, t))
    && (forall t, u :: t in db.rows && u in db.rows && t != u ==> db.rows[t].worktreeId != db.rows[u].worktreeId)
  }

  lemma WriteKeepsInv(db: Db, lease: WriterLease, action: Action, prior: Option<StoredOwner>, now: int)
    requires Inv(db) && lease.acquiredAt <= lease.renewedAt < lease.expiresAt
    requires lease.taskId in db.tasks && lease.worktreeId == db.tasks[lease.taskId].worktreeId
    ensures Inv(Write(db, lease, action, prior, now).0)
  {
  }

  lemma AcquireKeepsInv(db: Db, t: Uuid, owner: SessionIdentity, now: int, duration: Option<int>)
    requires Inv(db)
    ensures Inv(Acquire(db, t, owner, now, duration).0)
  {
    hide Write, Inv, SaturatingNext;
    var d := DurationOf(duration);
    if d > 0 && t in db.tasks && db.tasks[t].active {
      var worktreeId := db.tasks[t].worktreeId;
      WriteKeepsInv(db, FreshLease(t, worktreeId, owner, now, d, 1), Acquired, None, now);
      if t in db.rows {
        var existing := LoadRow(t, db.rows[t]);
        RowIsSound(db, t);
        WriteKeepsInv(db, Extended(existing, now, d), Renewed, None, now);
        WriteKeepsInv(db, FreshLease(t, worktreeId, owner, now, d, SaturatingNext(existing.generation)), TakenOver,
                      Some(Stored(existing.owner)), now);
      }
    }
  }

  lemma RowIsSound(db: Db, t: Uuid)
    requires Inv(db) && t in db.rows
    ensures RowInv(db, t)
  {
  }

  lemma RenewKeepsInv(db: Db, t: Uuid, owner: SessionIdentity, generation: nat, now: int, duration: Option<int>)
    requires Inv(db)
    ensures Inv(Renew(db, t, owner, generation, now, duration).0)
  {
    hide Write, Inv;
    if t in db.rows && DurationOf(duration) > 0 {
      RowIsSound(db, t);
      WriteKeepsInv(db, Extended(LoadRow(t, db.rows[t]), now, DurationOf(duration)), Renewed, None, now);
    }
  }

  lemma HandoffKeepsInv(db: Db, t: Uuid, owner: SessionIdentity, generation: nat, next: SessionIdentity, now: int)
    requires Inv(db)
    ensures Inv(Handoff(db, t, owner, generation, next, now).0)
  {
    hide Write, Inv, SaturatingNext;
    if t in db.rows {
      RowIsSound(db, t);
      var existing := LoadRow(t, db.rows[t]);
      var lease := FreshLease(t, existing.worktreeId, next, now, DEFAULT_LEASE_DURATION, SaturatingNext(generation));
      WriteKeepsInv(db, lease, HandedOff, Some(Stored(existing.owner)), now);
    }
  }

  lemma ReleaseKeepsInv(db: Db, t: Uuid, owner: SessionIdentity, generation: nat, now: int)
    requires Inv(db)
    ensures Inv(Release(db, t, owner, generation, now).0)
  {
  }

  lemma StepKeepsInv(db: Db, op: Op)
    requires Inv(db)
    ensures Inv(Step(db, op))
  {
    hide Acquire, Renew, Release, Handoff;
    match op {
      case CreateTask(_, _, _, _) =>
      case CloseTask(_, _) =>
      case AcquireLease(id, owner, duration, now) => AcquireKeepsInv(db, id, owner, now, duration);
      case RenewLease(id, owner, generation, duration, now) => RenewKeepsInv(db, id, owner, generation, now, duration);
      case ReleaseLease(id, owner, generation, now) => ReleaseKeepsInv(db, id, owner, generation, now);
      case HandoffLease(id, owner, generation, next, now) => HandoffKeepsInv(db, id, owner, generation, next, now);
    }
  }

  /**
   Whatever calls are made and whatever clock they read: every stored row has
   acquired <= renewed < expires and a generation a signed column holds, and no two rows
   share a worktree.
   */
  lemma {:induction false} RunKeepsInv(db: Db, ops: seq<Op>)
    requires Inv(db)
    ensures Inv(Run(db, ops))
    decreases |ops|
  {
    if ops != [] {
      StepKeepsInv(db, ops[0]);
      RunKeepsInv(Step(db, ops[0]), ops[1..]);
    }
  }

  // ----- The log determines the table -----

  /** What a task's events say about who holds it, read in commit order. */
  function Replay(events: seq<Event>, t: Uuid): Option<(StoredOwner, nat)> {
    if events == [] then None
    else
      var last := events[|events| - 1];
      if last.taskId != t then Replay(events[..|events| - 1], t)
      else if last.action.Released? then None
      else Some((last.owner, last.generation))
  }

  /** Whether an event may follow a log that currently reads as `held`. */
  predicate Legal(held: Option<(StoredOwner, nat)>, e: Event) {
    match e.action
    case Acquired => held.None? && e.generation == 1 && e.priorOwner.None?
    case Renewed => held == Some((e.owner, e.generation)) && e.priorOwner.None?
    case Released => held == Some((e.owner, e.generation)) && e.priorOwner.None?
    case TakenOver => held.Some? && e.priorOwner == Some(held.value.0) && e.generation == held.value.1 + 1
    case HandedOff => held.Some? && e.priorOwner == Some(held.value.0) && e.generation == held.value.1 + 1
  }

  /** A task's log is a chain of incarnations: acquired at generation 1, then renewals, changes of
      owner that add one generation each, and a release that ends the incarnation. */
  predicate WellFormedLog(events: seq<Event>, t: Uuid) {
    events == [] ||
    var last := events[|events| - 1];
    var before := events[..|events| - 1];
    && WellFormedLog(before, t)
    && (last.taskId == t ==> Legal(Replay(before, t), last))
  }

  function HeldBy(db: Db, t: Uuid): Option<(StoredOwner, nat)> {
    if t in db.rows then Some((db.rows[t].owner, db.rows[t].generation)) else None
  }

  ghost predicate LogInv(db: Db, t: Uuid) {
    WellFormedLog(db.events, t) && Replay(db.events, t) == HeldBy(db, t)
  }

  /** What an event leaves a task held by. */
  function Outcome(e: Event): Option<(StoredOwner, nat)> {
    if e.action.Released? then None else Some((e.owner, e.generation))
  }

  /** Either nothing was stored or logged, or one legal event was logged and the table follows it. */
  ghost predicate OneEvent(db: Db, after: Db) {
    || (after.events == db.events && after.rows == db.rows)
    || (|after.events| == |db.events| + 1 && after.events[..|db.events|] == db.events &&
        var e := after.events[|db.events|];
        && Legal(HeldBy(db, e.taskId), e)
        && HeldBy(after, e.taskId) == Outcome(e)
        && forall t :: t != e.taskId ==> HeldBy(after, t) == HeldBy(db, t))
  }

  lemma WriteIsOneEvent(db: Db, lease: WriterLease, action: Action, prior: Option<StoredOwner>, now: int)
    requires !action.Released? && Legal(HeldBy(db, lease.taskId), EventOf(lease, action, prior, now))
    ensures OneEvent(db, Write(db, lease, action, prior, now).0)
  {
  }

  lemma NothingLogged(db: Db)
    ensures OneEvent(db, db)
  {
  }

  lemma LoadingKeepsTheName(owner: StoredOwner)
    ensures Stored(Loaded(owner)) == owner
  {
  }

  lemma AcquireIsOneEvent(db: Db, t: Uuid, owner: SessionIdentity, now: int, duration: Option<int>)
    requires Inv(db)
    ensures OneEvent(db, Acquire(db, t, owner, now, duration).0)
  {
    NothingLogged(db);
    hide Write, OneEvent, Stored, Loaded;
    if t in db.tasks && db.tasks[t].active && DurationOf(duration) > 0 {
      var worktreeId, d := db.tasks[t].worktreeId, DurationOf(duration);
      if t !in db.rows {
        WriteIsOneEvent(db, FreshLease(t, worktreeId, owner, now, d, 1), Acquired, None, now);
      } else {
        var existing := LoadRow(t, db.rows[t]);
        LoadingKeepsTheName(db.rows[t].owner);
        WriteIsOneEvent(db, Extended(existing, now, d), Renewed, None, now);
        WriteIsOneEvent(db, FreshLease(t, worktreeId, owner, now, d, SaturatingNext(existing.generation)), TakenOver,
                        Some(Stored(existing.owner)), now);
      }
    }
  }

  lemma RenewIsOneEvent(db: Db, t: Uuid, owner: SessionIdentity, generation: nat, now: int, duration: Option<int>)
    ensures OneEvent(db, Renew(db, t, owner, generation, now, duration).0)
  {
    NothingLogged(db);
    hide Write, OneEvent, Stored, Loaded;
    if t in db.rows {
      LoadingKeepsTheName(db.rows[t].owner);
      WriteIsOneEvent(db, Extended(LoadRow(t, db.rows[t]), now, DurationOf(duration)), Renewed, None, now);
    }
  }

  lemma HandoffIsOneEvent(db: Db, t: Uuid, owner: SessionIdentity, generation: nat, next: SessionIdentity, now: int)
    requires Inv(db)
    ensures OneEvent(db, Handoff(db, t, owner, generation, next, now).0)
  {
    NothingLogged(db);
    hide Write, OneEvent, Stored, Loaded;
    if t in db.rows && Refusal(db, t, owner, generation).None? {
      var existing := LoadRow(t, db.rows[t]);
      LoadingKeepsTheName(db.rows[t].owner);
      var lease := FreshLease(t, existing.worktreeId, next, now, DEFAULT_LEASE_DURATION, SaturatingNext(generation));
      WriteIsOneEvent(db, lease, HandedOff, Some(Stored(existing.owner)), now);
    }
  }

  lemma ReleaseIsOneEvent(db: Db, t: Uuid, owner: SessionIdentity, generation: nat, now: int)
    ensures OneEvent(db, Release(db, t, owner, generation, now).0)
  {
    if t in db.rows {
      LoadingKeepsTheName(db.rows[t].owner);
    }
  }

  lemma StepIsOneEvent(db: Db, op: Op)
    requires Inv(db)
    ensures OneEvent(db, Step(db, op))
  {
    hide Acquire, Renew, Release, Handoff;
    match op {
      case CreateTask(_, _, _, _) =>
      case CloseTask(_, _) =>
      case AcquireLease(id, owner, duration, now) => AcquireIsOneEvent(db, id, owner, now, duration);
      case RenewLease(id, owner, generation, duration, now) => RenewIsOneEvent(db, id, owner, generation, now, duration);
      case ReleaseLease(id, owner, generation, now) => ReleaseIsOneEvent(db, id, owner, generation, now);
      case HandoffLease(id, owner, generation, next, now) => HandoffIsOneEvent(db, id, owner, generation, next, now);
    }
  }

  lemma StepKeepsLog(db: Db, op: Op, t: Uuid)
    requires Inv(db) && LogInv(db, t)
    ensures LogInv(Step(db, op), t)
  {
    StepIsOneEvent(db, op);
    hide Step, Inv, Legal;
  }

  /**
   After every run from the empty store, replaying a task's events in commit order gives exactly
   its current owner and generation, or its absence, and the log is well formed.
   */
  lemma {:induction false} LogRefinesTable(db: Db, ops: seq<Op>, t: Uuid)
    requires Inv(db) && LogInv(db, t)
    ensures LogInv(Run(db, ops), t)
    decreases |ops|
  {
    if ops != [] {
      StepKeepsInv(db, ops[0]);
      StepKeepsLog(db, ops[0], t);
      LogRefinesTable(Step(db, ops[0]), ops[1..], t);
    }
  }

  // ----- Fencing -----

  predicate ChangesOwner(e: Event, t: Uuid) {
    e.taskId == t && (e.action.TakenOver? || e.action.HandedOff?)
  }

  function OwnerChanges(events: seq<Event>, t: Uuid): nat {
    if events == [] then 0
    else (if ChangesOwner(events[0], t) then 1 else 0) + OwnerChanges(events[1..], t)
  }

  predicate NeverReleased(events: seq<Event>, t: Uuid) {
    forall i :: 0 <= i < |events| ==> !(events[i].taskId == t && events[i].action.Released?)
  }

  lemma StepOnlyAppends(db: Db, op: Op)
    ensures db.events <= Step(db, op).events
  {
  }

  lemma {:induction false} EventsOnlyGrow(db: Db, ops: seq<Op>)
    ensures db.events <= Run(db, ops).events
    decreases |ops|
  {
    if ops != [] {
      StepOnlyAppends(db, ops[0]);
      hide Step;
      EventsOnlyGrow(Step(db, ops[0]), ops[1..]);
    }
  }

  /** The events a run adds to a database. */
  function Added(db: Db, ops: seq<Op>): seq<Event> {
    EventsOnlyGrow(db, ops);
    Run(db, ops).events[|db.events|..]
  }

  /** One step adds no event and leaves the table's rows alone, or adds one event that says what it did. */
  /** How one event moves a row: a release removes it, and a change of owner adds one to its generation. */
  ghost predicate Moves(db: Db, after: Db, e: Event, t: Uuid)
    requires t in db.rows
  {
    if e.taskId == t && e.action.Released? then t !in after.rows
    else
      && t in after.rows
      && after.rows[t].generation == db.rows[t].generation + (if ChangesOwner(e, t) then 1 else 0)
      && (!ChangesOwner(e, t) ==> after.rows[t].owner == db.rows[t].owner)
  }

  lemma OneEventMoves(db: Db, after: Db, t: Uuid)
    requires OneEvent(db, after) && t in db.rows
    ensures || (after.events == db.events && after.rows == db.rows)
            || (exists e :: after.events == db.events + [e] && Moves(db, after, e, t))
  {
    if after.events != db.events {
      var e := after.events[|db.events|];
      assert after.events == db.events + [e];
      assert HeldBy(after, t) == if e.taskId == t then Outcome(e) else HeldBy(db, t);
      assert Moves(db, after, e, t);
    }
  }

  lemma StepFollowsItsEvent(db: Db, op: Op, t: Uuid)
    requires Inv(db) && t in db.rows
    ensures var after := Step(db, op);
            || (after.events == db.events && after.rows == db.rows)
            || (exists e :: after.events == db.events + [e] && Moves(db, after, e, t))
  {
    hide *;
    StepIsOneEvent(db, op);
    OneEventMoves(db, Step(db, op), t);
  }

  lemma AddedSplits(db: Db, ops: seq<Op>)
    requires ops != []
    ensures Added(db, ops) == Step(db, ops[0]).events[|db.events|..] + Added(Step(db, ops[0]), ops[1..])
  {
    var mid := Step(db, ops[0]);
    StepOnlyAppends(db, ops[0]);
    hide Step;
    EventsOnlyGrow(mid, ops[1..]);
  }

  /**
   While a task is not released its row survives and its generation is the old one plus the number
   of takeovers and handoffs: it never decreases, and each change of owner adds exactly one.
   */
  lemma {:induction false} GenerationCountsOwnerChanges(db: Db, ops: seq<Op>, t: Uuid)
    requires Inv(db) && t in db.rows
    requires NeverReleased(Added(db, ops), t)
    ensures t in Run(db, ops).rows
    ensures Run(db, ops).rows[t].generation == db.rows[t].generation + OwnerChanges(Added(db, ops), t)
    ensures OwnerChanges(Added(db, ops), t) == 0 ==> Run(db, ops).rows[t].owner == db.rows[t].owner
    decreases |ops|
  {
    if ops == [] {
      assert Added(db, ops) == [];
    } else {
      var mid := Step(db, ops[0]);
      var added, rest := Added(db, ops), Added(mid, ops[1..]);
      StepKeepsInv(db, ops[0]);
      AddedSplits(db, ops);
      StepFollowsItsEvent(db, ops[0], t);
      hide Step, Inv, Added;
      if mid.events == db.events {
        assert added == rest;
      } else {
        var e :| mid.events == db.events + [e];
        assert added == [e] + rest;
        assert added[0] == e && added[1..] == rest;
      }
      forall i | 0 <= i < |rest| ensures !(rest[i].taskId == t && rest[i].action.Released?) {
        assert rest[i] == added[|added| - |rest| + i];
      }
      GenerationCountsOwnerChanges(mid, ops[1..], t);
    }
  }

  /** Whether a (session, generation) token is accepted by renew, release and handoff. */
  predicate TokenAccepted(db: Db, t: Uuid, owner: SessionIdentity, generation: nat) {
    Refusal(db, t, owner, generation).None?
  }

  /**
   Fencing within one incarnation: once a task has changed hands, no token of an earlier generation
   is accepted again before a release, whichever session presents it, and the operation it is
   presented to leaves the database as it was.
   */
  lemma StaleTokenIsFenced(db: Db, ops: seq<Op>, t: Uuid, owner: SessionIdentity, generation: nat, next: SessionIdentity,
                           now: int, duration: Option<int>)
    requires Inv(db) && t in db.rows && generation <= db.rows[t].generation
    requires NeverReleased(Added(db, ops), t) && OwnerChanges(Added(db, ops), t) > 0
    ensures var after := Run(db, ops);
            && !TokenAccepted(after, t, owner, generation)
            && Renew(after, t, owner, generation, now, duration).0 == after
            && Renew(after, t, owner, generation, now, duration).1.Err?
            && Release(after, t, owner, generation, now) == (after, Err(Refusal(after, t, owner, generation).value))
            && Handoff(after, t, owner, generation, next, now) == (after, Err(Refusal(after, t, owner, generation).value))
  {
    GenerationCountsOwnerChanges(db, ops, t);
  }

  /** Whoever is recognised by a stored row is canonical. */
  lemma LoadedIsCanonical(stored: StoredOwner)
    ensures Canonical(Loaded(stored))
  {
  }

  /**
   Fencing ends with the incarnation. A release and a later acquisition by the same session, whatever
   ran in between, whatever the clock and for whatever duration, restart at generation 1, so a token
   from before the release is accepted again exactly when its generation was 1 too.
   */
  lemma TokenAfterReacquisition(db: Db, t: Uuid, owner: SessionIdentity, generation: nat, releasedAt: int, ops: seq<Op>,
                                acquiredAt: int, duration: Option<int>)
    requires TokenAccepted(db, t, owner, generation) && Release(db, t, owner, generation, releasedAt).1.Ok?
    requires var between := Run(Release(db, t, owner, generation, releasedAt).0, ops);
             t !in between.rows && Acquire(between, t, owner, acquiredAt, duration).1.Ok?
    ensures var between := Run(Release(db, t, owner, generation, releasedAt).0, ops);
            var again := Acquire(between, t, owner, acquiredAt, duration);
            && again.1.value.generation == 1
            && (TokenAccepted(again.0, t, owner, generation) <==> generation == 1)
  {
    LoadedIsCanonical(db.rows[t].owner);
    SessionRoundTrip(owner);
    hide Run;
  }

  /**
   A session can use the lease it has just acquired, renewed or taken over exactly when it is
   canonical: a free-form harness that spells a known one is loaded back as the known one, and is
   then refused as a different owner.
   */
  lemma HolderIsRecognised(db: Db, t: Uuid, owner: SessionIdentity, now: int, duration: Option<int>)
    requires Inv(db) && Acquire(db, t, owner, now, duration).1.Ok?
    ensures var result := Acquire(db, t, owner, now, duration);
            TokenAccepted(result.0, t, owner, result.1.value.generation) <==> Canonical(owner)
  {
    SessionRoundTrip(owner);
  }

  /**
   Exactly when an acquisition succeeds. With the duration positive, the task active and the times
   within the column: a held row must be the caller's own, an expired row must leave room for one
   more generation, and an absent row must not leave another task's row on the same worktree.
   */
  lemma AcquireSucceedsIff(db: Db, t: Uuid, owner: SessionIdentity, now: int, duration: Option<int>)
    requires Inv(db)
    ensures Acquire(db, t, owner, now, duration).1.Ok? <==>
            && DurationOf(duration) > 0
            && t in db.tasks && db.tasks[t].active
            && FitsI64(now)
            && if t !in db.rows then
                 && FitsI64(now + DurationOf(duration))
                 && forall u :: u in db.rows ==> db.rows[u].worktreeId != db.tasks[t].worktreeId
               else if db.rows[t].expiresAt > now then
                 && Loaded(db.rows[t].owner) == owner
                 && FitsI64(Max(now, db.rows[t].renewedAt) + DurationOf(duration))
               else
                 && FitsI64(now + DurationOf(duration))
                 && db.rows[t].generation < I64_MAX
  {
  }

  // ----- Exclusion -----

  /**
   A stretch of ownership: it starts when the lease is acquired and ends when its last stored
   expiry passes, or earlier if it is handed off or released.
   */
  datatype Period = Period(
    taskId: Uuid, worktreeId: Uuid, owner: StoredOwner, generation: nat, start: int, end: int)

  /** A database with the periods that have ended so far, in the order they ended. */
  datatype Trace = Trace(db: Db, closed: seq<Period>)

  function PeriodOf(db: Db, t: Uuid, end: int): Period
    requires t in db.rows
  {
    var row := db.rows[t];
    Period(t, row.worktreeId, row.owner, row.generation, row.acquiredAt, end)
  }

  /** A step ends a period when it removes the task's row or gives it a new generation. */
  predicate Ends(db: Db, after: Db, t: Uuid) {
    t in db.rows && (t !in after.rows || after.rows[t].generation != db.rows[t].generation)
  }

  function TraceStep(trace: Trace, op: Op): Trace {
    var after := Step(trace.db, op);
    Trace(after,
          if Ends(trace.db, after, op.id)
          then trace.closed + [PeriodOf(trace.db, op.id, Min(trace.db.rows[op.id].expiresAt, op.now))]
          else trace.closed)
  }

  function TraceRun(trace: Trace, ops: seq<Op>): Trace
    decreases |ops|
  {
    if ops == [] then trace else TraceRun(TraceStep(trace, ops[0]), ops[1..])
  }

  /** The clock never goes back during the run, nor before `clock`. */
  predicate ClockForward(clock: int, ops: seq<Op>)
    decreases |ops|
  {
    ops == [] || (clock <= ops[0].now && ClockForward(ops[0].now, ops[1..]))
  }

  /** What the clock reads when the run is over. */
  function LastReading(clock: int, ops: seq<Op>): int
    decreases |ops|
  {
    if ops == [] then clock else LastReading(ops[0].now, ops[1..])
  }

  /** Every stretch of ownership up to now: those that ended, and the one each row is in. */
  ghost function Periods(trace: Trace): iset<Period> {
    iset p: Period | p in trace.closed || (p.taskId in trace.db.rows && p == PeriodOf(trace.db, p.taskId, trace.db.rows[p.taskId].expiresAt))
  }

  ghost predicate TraceInv(trace: Trace, clock: int) {
    && Inv(trace.db)
    && (forall i :: 0 <= i < |trace.closed| ==> trace.closed[i].start <= trace.closed[i].end <= clock)
    && (forall t :: t in trace.db.rows ==> trace.db.rows[t].acquiredAt <= clock)
    && (forall i, j :: 0 <= i < j < |trace.closed| && trace.closed[i].worktreeId == trace.closed[j].worktreeId ==>
          trace.closed[i].end <= trace.closed[j].start)
    && (forall i, t :: 0 <= i < |trace.closed| && t in trace.db.rows && trace.closed[i].worktreeId == trace.db.rows[t].worktreeId ==>
          trace.closed[i].end <= trace.db.rows[t].acquiredAt)
  }

  /** Only task `t`'s row can change, and it keeps its start and worktree unless its period ended. */
  ghost predicate Local(db: Db, after: Db, t: Uuid, now: int) {
    && (forall u :: u != t ==> ((u in after.rows <==> u in db.rows) && (u in db.rows ==> after.rows[u] == db.rows[u])))
    && (t in after.rows && !(t in db.rows && !Ends(db, after, t)) ==> after.rows[t].acquiredAt == now)
    && (t in db.rows && !Ends(db, after, t) ==> after.rows[t].acquiredAt == db.rows[t].acquiredAt)
    && (t in db.rows && t in after.rows ==> after.rows[t].worktreeId == db.rows[t].worktreeId)
  }

  lemma WriteIsLocal(db: Db, lease: WriterLease, action: Action, prior: Option<StoredOwner>, now: int)
    requires lease.taskId in db.rows ==>
               var row := db.rows[lease.taskId];
               && lease.worktreeId == row.worktreeId
               && (lease.acquiredAt == now || lease.generation == row.generation)
               && (lease.generation == row.generation ==> lease.acquiredAt == row.acquiredAt)
    requires lease.taskId !in db.rows ==> lease.acquiredAt == now
    ensures Local(db, Write(db, lease, action, prior, now).0, lease.taskId, now)
  {
  }

  lemma NothingMoved(db: Db, t: Uuid, now: int)
    ensures Local(db, db, t, now)
  {
  }

  lemma AcquireIsLocal(db: Db, t: Uuid, owner: SessionIdentity, now: int, duration: Option<int>)
    requires Inv(db)
    ensures Local(db, Acquire(db, t, owner, now, duration).0, t, now)
  {
    NothingMoved(db, t, now);
    if t in db.tasks && db.tasks[t].active && DurationOf(duration) > 0 {
      var worktreeId, d := db.tasks[t].worktreeId, DurationOf(duration);
      if t !in db.rows {
        WriteIsLocal(db, FreshLease(t, worktreeId, owner, now, d, 1), Acquired, None, now);
      } else {
        RowIsSound(db, t);
        hide Write, Inv, Stored, Loaded, Local;
        var existing := LoadRow(t, db.rows[t]);
        WriteIsLocal(db, Extended(existing, now, d), Renewed, None, now);
        WriteIsLocal(db, FreshLease(t, worktreeId, owner, now, d, SaturatingNext(existing.generation)), TakenOver,
                     Some(Stored(existing.owner)), now);
      }
    }
  }

  lemma RenewIsLocal(db: Db, t: Uuid, owner: SessionIdentity, generation: nat, now: int, duration: Option<int>)
    ensures Local(db, Renew(db, t, owner, generation, now, duration).0, t, now)
  {
    hide Write, Stored, Loaded;
    if t in db.rows {
      WriteIsLocal(db, Extended(LoadRow(t, db.rows[t]), now, DurationOf(duration)), Renewed, None, now);
    }
  }

  lemma HandoffIsLocal(db: Db, t: Uuid, owner: SessionIdentity, generation: nat, next: SessionIdentity, now: int)
    requires Inv(db)
    ensures Local(db, Handoff(db, t, owner, generation, next, now).0, t, now)
  {
    if t in db.rows && Refusal(db, t, owner, generation).None? {
      RowIsSound(db, t);
      hide Write, Inv, Stored, Loaded;
      var existing := LoadRow(t, db.rows[t]);
      var lease := FreshLease(t, existing.worktreeId, next, now, DEFAULT_LEASE_DURATION, SaturatingNext(generation));
      WriteIsLocal(db, lease, HandedOff, Some(Stored(existing.owner)), now);
    }
  }

  lemma ReleaseIsLocal(db: Db, t: Uuid, owner: SessionIdentity, generation: nat, now: int)
    ensures Local(db, Release(db, t, owner, generation, now).0, t, now)
  {
  }

  lemma StepIsLocal(db: Db, op: Op)
    requires Inv(db)
    ensures Local(db, Step(db, op), op.id, op.now)
  {
    hide Acquire, Renew, Release, Handoff;
    match op {
      case CreateTask(_, _, _, _) =>
      case CloseTask(_, _) =>
      case AcquireLease(id, owner, duration, now) => AcquireIsLocal(db, id, owner, now, duration);
      case RenewLease(id, owner, generation, duration, now) => RenewIsLocal(db, id, owner, generation, now, duration);
      case ReleaseLease(id, owner, generation, now) => ReleaseIsLocal(db, id, owner, generation, now);
      case HandoffLease(id, owner, generation, next, now) => HandoffIsLocal(db, id, owner, generation, next, now);
    }
  }

  /** What ended is added when a task's row was changed locally. */
  lemma TraceMoves(trace: Trace, after: Db, t: Uuid, clock: int, now: int)
    requires TraceInv(trace, clock) && clock <= now && Inv(after) && Local(trace.db, after, t, now)
    ensures Ends(trace.db, after, t) ==>
              TraceInv(Trace(after, trace.closed + [PeriodOf(trace.db, t, Min(trace.db.rows[t].expiresAt, now))]), now)
    ensures !Ends(trace.db, after, t) ==> TraceInv(Trace(after, trace.closed), now)
  {
    RowsAreApart(trace.db);
    hide Inv;
  }

  lemma TraceStepKeepsInv(trace: Trace, op: Op, clock: int)
    requires TraceInv(trace, clock) && clock <= op.now
    ensures TraceInv(TraceStep(trace, op), op.now)
  {
    assert Inv(trace.db);
    StepKeepsInv(trace.db, op);
    StepIsLocal(trace.db, op);
    hide Step, Inv, TraceInv, Local, Ends, PeriodOf;
    TraceMoves(trace, Step(trace.db, op), op.id, clock, op.now);
  }

  lemma RowsAreApart(db: Db)
    requires Inv(db)
    ensures forall t :: t in db.rows ==> db.rows[t].acquiredAt < db.rows[t].expiresAt
    ensures forall t, u :: t in db.rows && u in db.rows && db.rows[t].worktreeId == db.rows[u].worktreeId ==> t == u
  {
  }

  lemma {:induction false} TraceRunKeepsInv(trace: Trace, ops: seq<Op>, clock: int)
    requires TraceInv(trace, clock) && ClockForward(clock, ops)
    ensures TraceInv(TraceRun(trace, ops), LastReading(clock, ops))
    decreases |ops|
  {
    if ops != [] {
      TraceStepKeepsInv(trace, ops[0], clock);
      TraceRunKeepsInv(TraceStep(trace, ops[0]), ops[1..], ops[0].now);
    }
  }

  /**
   Exclusion over whole runs: if the clock never goes back, no two stretches of ownership of a
   worktree share an instant, whatever sessions, tasks and generations they belong to.
   */
  lemma AtMostOneWriter(ops: seq<Op>, clock: int, p: Period, q: Period, instant: int)
    requires ClockForward(clock, ops)
    requires p in Periods(TraceRun(Trace(EMPTY, []), ops)) && q in Periods(TraceRun(Trace(EMPTY, []), ops))
    requires p.worktreeId == q.worktreeId
    requires p.start <= instant < p.end && q.start <= instant < q.end
    ensures p == q
  {
    TraceRunKeepsInv(Trace(EMPTY, []), ops, clock);
    var trace := TraceRun(Trace(EMPTY, []), ops);
    if p in trace.closed && q in trace.closed {
      var i :| 0 <= i < |trace.closed| && trace.closed[i] == p;
      var j :| 0 <= j < |trace.closed| && trace.closed[j] == q;
    }
  }

  // ----- Exclusion, by the calls that start a stretch -----

  /** A call that starts a stretch for its task. */
  predicate Starts(db: Db, after: Db, t: Uuid) {
    t in after.rows && (t !in db.rows || Ends(db, after, t))
  }

  /** If a call starts a stretch, its time is not before the end of any earlier stretch in that worktree that held for an instant. */
  ghost predicate StartsLate(trace: Trace, op: Op) {
    var next := TraceStep(trace, op);
    Starts(trace.db, next.db, op.id) ==>
      forall i :: 0 <= i < |next.closed| ==> EndsBefore(next.closed[i], next.db.rows[op.id].worktreeId, op.now)
  }

  predicate EndsBefore(p: Period, worktreeId: Uuid, now: int) {
    p.worktreeId == worktreeId && p.start < p.end ==> p.end <= now
  }

  ghost predicate AllStartLate(trace: Trace, ops: seq<Op>)
    decreases |ops|
  {
    ops == [] || (StartsLate(trace, ops[0]) && AllStartLate(TraceStep(trace, ops[0]), ops[1..]))
  }

  /** Stretches that held for an instant follow each other. */
  ghost predicate Follows(p: Period, q: Period) {
    p.worktreeId == q.worktreeId && p.start < p.end ==> p.end <= q.start
  }

  ghost predicate LateInv(trace: Trace) {
    && Inv(trace.db)
    && (forall i, j :: 0 <= i < j < |trace.closed| ==> Follows(trace.closed[i], trace.closed[j]))
    && (forall i, t :: 0 <= i < |trace.closed| && t in trace.db.rows ==>
          Follows(trace.closed[i], PeriodOf(trace.db, t, trace.db.rows[t].expiresAt)))
  }

  lemma LateStepKeepsInv(trace: Trace, op: Op)
    requires LateInv(trace) && StartsLate(trace, op)
    ensures LateInv(TraceStep(trace, op))
  {
    StepKeepsInv(trace.db, op);
    StepIsLocal(trace.db, op);
    hide Step;
    var next, t := TraceStep(trace, op), op.id;
    forall i, j | 0 <= i < j < |next.closed| ensures Follows(next.closed[i], next.closed[j]) {
      if j == |trace.closed| {
        assert Follows(trace.closed[i], PeriodOf(trace.db, t, trace.db.rows[t].expiresAt));
      }
    }
    forall i, u | 0 <= i < |next.closed| && u in next.db.rows
      ensures Follows(next.closed[i], PeriodOf(next.db, u, next.db.rows[u].expiresAt))
    {
      if i < |trace.closed| && (u != t || !Starts(trace.db, next.db, t)) {
        assert Follows(trace.closed[i], PeriodOf(trace.db, u, trace.db.rows[u].expiresAt));
      }
    }
  }

  lemma {:induction false} LateRunKeepsInv(trace: Trace, ops: seq<Op>)
    requires LateInv(trace) && AllStartLate(trace, ops)
    ensures LateInv(TraceRun(trace, ops))
    decreases |ops|
  {
    hide LateInv, StartsLate, TraceStep;
    if ops != [] {
      LateStepKeepsInv(trace, ops[0]);
      LateRunKeepsInv(TraceStep(trace, ops[0]), ops[1..]);
    }
  }

  lemma OneAfterTheOther(trace: Trace, p: Period, q: Period)
    requires LateInv(trace) && p in Periods(trace) && q in Periods(trace) && p.worktreeId == q.worktreeId
    ensures p == q || Follows(p, q) || Follows(q, p)
  {
    if p in trace.closed {
      var i :| 0 <= i < |trace.closed| && trace.closed[i] == p;
      if q in trace.closed {
        var j :| 0 <= j < |trace.closed| && trace.closed[j] == q;
        assert i < j ==> Follows(trace.closed[i], trace.closed[j]);
      } else {
        assert Follows(trace.closed[i], PeriodOf(trace.db, q.taskId, trace.db.rows[q.taskId].expiresAt));
      }
    } else if q in trace.closed {
      var j :| 0 <= j < |trace.closed| && trace.closed[j] == q;
      assert Follows(trace.closed[j], PeriodOf(trace.db, p.taskId, trace.db.rows[p.taskId].expiresAt));
    }
  }

  /**
   Exclusion asks nothing of the clock but at the calls that start a stretch. If each of those is not
   before the end of an earlier stretch in its worktree, no two stretches of a worktree share an
   instant, however the clock reads at renewals, releases and refused calls.
   */
  lemma AtMostOneWriterIfStartsAreLate(ops: seq<Op>, p: Period, q: Period, instant: int)
    requires AllStartLate(Trace(EMPTY, []), ops)
    requires p in Periods(TraceRun(Trace(EMPTY, []), ops)) && q in Periods(TraceRun(Trace(EMPTY, []), ops))
    requires p.worktreeId == q.worktreeId
    requires p.start <= instant < p.end && q.start <= instant < q.end
    ensures p == q
  {
    LateRunKeepsInv(Trace(EMPTY, []), ops);
    OneAfterTheOther(TraceRun(Trace(EMPTY, []), ops), p, q);
    hide TraceRun, LateInv, Periods;
  }

  lemma ForwardStepStartsLate(trace: Trace, op: Op, clock: int)
    requires TraceInv(trace, clock) && clock <= op.now
    ensures StartsLate(trace, op)
  {
    hide Step;
  }

  /** A clock that never goes back starts every stretch late. */
  lemma {:induction false} ForwardClockStartsLate(trace: Trace, ops: seq<Op>, clock: int)
    requires TraceInv(trace, clock) && ClockForward(clock, ops)
    ensures AllStartLate(trace, ops)
    decreases |ops|
  {
    hide TraceInv, StartsLate, TraceStep;
    if ops != [] {
      ForwardStepStartsLate(trace, ops[0], clock);
      TraceStepKeepsInv(trace, ops[0], clock);
      ForwardClockStartsLate(TraceStep(trace, ops[0]), ops[1..], ops[0].now);
    }
  }

  /** The trace runs the same database. */
  lemma {:induction false} TraceRunsTheDatabase(trace: Trace, ops: seq<Op>)
    ensures TraceRun(trace, ops).db == Run(trace.db, ops)
    decreases |ops|
  {
    if ops != [] {
      TraceRunsTheDatabase(TraceStep(trace, ops[0]), ops[1..]);
    }
  }

  /**
   Exclusion needs the forward clock. One session takes over a lease at its expiry and hands it on
   with a clock twenty minutes slow: the third session's stretch then overlaps the first one's.
   */
  lemma SlowClockOverlaps(a: SessionIdentity, b: SessionIdentity, c: SessionIdentity)
    requires Canonical(a) && Canonical(b) && Canonical(c)
    ensures var minute := 60 * 1_000_000_000;
            var ops := [CreateTask(0, 7, true, 0), AcquireLease(0, a, None, 0), AcquireLease(0, b, None, 30 * minute),
                        HandoffLease(0, b, 2, c, 10 * minute)];
            exists p, q :: p in Periods(TraceRun(Trace(EMPTY, []), ops)) && q in Periods(TraceRun(Trace(EMPTY, []), ops))
                           && p.generation == 1 && q.generation == 3 && p.worktreeId == q.worktreeId
                           && p.start <= 20 * minute < p.end && q.start <= 20 * minute < q.end
  {
    SessionRoundTrip(a);
    SessionRoundTrip(b);
    SessionRoundTrip(c);
    var minute := 60 * 1_000_000_000;
    var ops := [CreateTask(0, 7, true, 0), AcquireLease(0, a, None, 0), AcquireLease(0, b, None, 30 * minute),
                HandoffLease(0, b, 2, c, 10 * minute)];
    var t0 := Trace(EMPTY, []);
    var t1 := TraceStep(t0, ops[0]);
    var t2 := TraceStep(t1, ops[1]);
    assert t2.db.rows[0] == Row(7, Stored(a), 0, 0, 30 * minute, 1);
    var t3 := TraceStep(t2, ops[2]);
    assert t3.db.rows[0] == Row(7, Stored(b), 30 * minute, 30 * minute, 60 * minute, 2);
    var t4 := TraceStep(t3, ops[3]);
    assert t4.db.rows[0] == Row(7, Stored(c), 10 * minute, 10 * minute, 40 * minute, 3);
    var p := Period(0, 7, Stored(a), 1, 0, 30 * minute);
    var q := Period(0, 7, Stored(c), 3, 10 * minute, 40 * minute);
    assert t3.closed[0] == p && t4.closed[0] == p;
    assert p in Periods(t4) && q in Periods(t4);
    hide TraceStep;
    FourSteps(t0, ops);
  }

  lemma FourSteps(trace: Trace, ops: seq<Op>)
    requires |ops| == 4
    ensures TraceRun(trace, ops) == TraceStep(TraceStep(TraceStep(TraceStep(trace, ops[0]), ops[1]), ops[2]), ops[3])
  {
    hide TraceStep;
    var t1 := TraceStep(trace, ops[0]);
    var t2 := TraceStep(t1, ops[1]);
    var t3 := TraceStep(t2, ops[2]);
    assert ops[1..][1..] == ops[2..] && ops[2..][1..] == ops[3..] && ops[3..][1..] == [];
    assert TraceRun(t3, ops[3..]) == TraceRun(TraceStep(t3, ops[3]), []);
    assert TraceRun(t2, ops[2..]) == TraceRun(t3, ops[3..]);
    assert TraceRun(t1, ops[1..]) == TraceRun(t2, ops[2..]);
  }

  // ----- The store itself -----

  /** The coordination store. Each public method is one transaction. */
  class LeaseStore {
    var tasks: map<Uuid, Task>
    var rows: map<Uuid, Row>
    var events: seq<Event>

    constructor ()
      ensures State() == EMPTY
    {
      tasks, rows, events := map[], map[], [];
    }

    ghost function State(): Db
      reads this
    {
      Db(tasks, rows, events)
    }

    /** Insert or update a row inside a transaction. A failed constraint leaves the rows alone. */
    method StoreLease(lease: WriterLease) returns (stored: bool)
      modifies this`rows
      ensures stored <==> Storable(old(State()), lease)
      ensures rows == if stored then old(rows)[lease.taskId := ToRow(lease)] else old(rows)
    {
      if !FitsI64(lease.acquiredAt) || !FitsI64(lease.renewedAt) || !FitsI64(lease.expiresAt) {
        return false;
      }
      if lease.generation <= 0 || lease.generation > I64_MAX || lease.taskId !in tasks {
        return false;
      }
      if exists t :: t in rows && t != lease.taskId && rows[t].worktreeId == lease.worktreeId {
        return false;
      }
      rows := rows[lease.taskId := ToRow(lease)];
      return true;
    }

    method AppendEvent(action: Action, lease: WriterLease, prior: Option<StoredOwner>, now: int) returns (appended: bool)
      modifies this`events
      ensures appended <==> FitsI64(now) && lease.generation <= I64_MAX
      ensures events == if appended then old(events) + [EventOf(lease, action, prior, now)] else old(events)
    {
      if lease.generation > I64_MAX || !FitsI64(now) {
        return false;
      }
      events := events + [EventOf(lease, action, prior, now)];
      return true;
    }

    /** Store and log inside one transaction; if either fails, drop both. */
    method StoreAndLog(lease: WriterLease, action: Action, prior: Option<StoredOwner>, now: int)
      returns (result: Result<WriterLease, LeaseError>)
      modifies this`rows, this`events
      ensures (State(), result) == Write(old(State()), lease, action, prior, now)
    {
      var savedRows, savedEvents := rows, events;
      var stored := StoreLease(lease);
      var appended := false;
      if stored {
        appended := AppendEvent(action, lease, prior, now);
      }
      if !appended {
        rows, events := savedRows, savedEvents;
        return Err(StoreFailed);
      }
      return Ok(lease);
    }

    method AcquireLease(taskId: Uuid, owner: SessionIdentity, now: int, duration: Option<int>)
      returns (result: Result<WriterLease, LeaseError>)
      modifies this`rows, this`events
      ensures (State(), result) == Acquire(old(State()), taskId, owner, now, duration)
    {
      var d := DurationOf(duration);
      if d <= 0 {
        return Err(InvalidDuration);
      }
      if taskId !in tasks || !tasks[taskId].active {
        return Err(TaskUnavailable);
      }
      var worktreeId := tasks[taskId].worktreeId;
      if taskId !in rows {
        result := StoreAndLog(WriterLease(taskId, worktreeId, owner, now, now, now + d, 1), Acquired, None, now);
        return;
      }
      var existing := LoadRow(taskId, rows[taskId]);
      if existing.expiresAt > now && existing.owner != owner {
        return Err(AlreadyHeld(existing.owner, existing.expiresAt));
      }
      if existing.expiresAt > now {
        var renewedAt := Max(now, existing.renewedAt);
        result := StoreAndLog(existing.(renewedAt := renewedAt, expiresAt := renewedAt + d), Renewed, None, now);
      } else {
        var lease := WriterLease(taskId, worktreeId, owner, now, now, now + d, SaturatingNext(existing.generation));
        result := StoreAndLog(lease, TakenOver, Some(Stored(existing.owner)), now);
      }
    }

    method RenewLease(taskId: Uuid, owner: SessionIdentity, generation: nat, now: int, duration: Option<int>)
      returns (result: Result<WriterLease, LeaseError>)
      modifies this`rows, this`events
      ensures (State(), result) == Renew(old(State()), taskId, owner, generation, now, duration)
    {
      var d := DurationOf(duration);
      if d <= 0 {
        return Err(InvalidDuration);
      }
      if taskId !in rows {
        return Err(TaskUnavailable);
      }
      var existing := LoadRow(taskId, rows[taskId]);
      if existing.owner != owner {
        return Err(WrongOwner);
      }
      if existing.generation != generation {
        return Err(GenerationChanged);
      }
      var renewedAt := Max(now, existing.renewedAt);
      result := StoreAndLog(existing.(renewedAt := renewedAt, expiresAt := renewedAt + d), Renewed, None, now);
    }

    method ReleaseLease(taskId: Uuid, owner: SessionIdentity, generation: nat, now: int)
      returns (result: Result<(), LeaseError>)
      modifies this`rows, this`events
      ensures (State(), result) == Release(old(State()), taskId, owner, generation, now)
    {
      if taskId !in rows {
        return Err(TaskUnavailable);
      }
      var existing := LoadRow(taskId, rows[taskId]);
      if existing.owner != owner {
        return Err(WrongOwner);
      }
      if existing.generation != generation {
        return Err(GenerationChanged);
      }
      if generation > I64_MAX {
        return Err(StoreFailed);
      }
      var savedRows := rows;
      rows := rows - {taskId};
      var appended := AppendEvent(Released, existing, None, now);
      if !appended {
        rows := savedRows;
        return Err(StoreFailed);
      }
      return Ok(());
    }

    method HandoffLease(taskId: Uuid, owner: SessionIdentity, generation: nat, next: SessionIdentity, now: int)
      returns (result: Result<WriterLease, LeaseError>)
      modifies this`rows, this`events
      ensures (State(), result) == Handoff(old(State()), taskId, owner, generation, next, now)
    {
      if taskId !in rows {
        return Err(TaskUnavailable);
      }
      var existing := LoadRow(taskId, rows[taskId]);
      if existing.owner != owner {
        return Err(WrongOwner);
      }
      if existing.generation != generation {
        return Err(GenerationChanged);
      }
      var lease := existing.(
        owner := next, acquiredAt := now, renewedAt := now, expiresAt := now + DEFAULT_LEASE_DURATION,
        generation := SaturatingNext(generation));
      result := StoreAndLog(lease, HandedOff, Some(Stored(existing.owner)), now);
    }
  }
}
