/**
 What each lease call leaves in the table, in the log and with its caller, field by field: when it
 succeeds, what it then writes, and how it is refused.
 */
module LeaseOutcomes {
  import opened Common
  import opened Lease

  /** A session as the table spells it. */
  ghost predicate Spells(stored: StoredOwner, owner: SessionIdentity) {
    && stored.session == owner.nativeSessionId
    && (owner.harness.ClaudeCode? ==> stored.harness == "claude-code")
    && (owner.harness.Codex? ==> stored.harness == "codex")
    && (owner.harness.Hermes? ==> stored.harness == "hermes")
    && (owner.harness.Other? ==> stored.harness == owner.harness.name)
  }

  /** A row was written for a task and reported to the caller; every other row and all tasks are as they were. */
  ghost predicate Stores(db: Db, after: Db, t: Uuid, owner: SessionIdentity, lease: WriterLease) {
    && after.tasks == db.tasks && t in after.rows
    && after.rows.Keys == db.rows.Keys + {t} && (forall u :: u in db.rows && u != t ==> after.rows[u] == db.rows[u])
    && Spells(after.rows[t].owner, owner) && lease.owner == owner
    && lease.taskId == t && lease.worktreeId == after.rows[t].worktreeId
    && lease.acquiredAt == after.rows[t].acquiredAt && lease.renewedAt == after.rows[t].renewedAt
    && lease.expiresAt == after.rows[t].expiresAt && lease.generation == after.rows[t].generation
  }

  /** One event was logged, with these particulars and the owner and generation of a row. */
  ghost predicate Logs(db: Db, after: Db, t: Uuid, row: Row, action: Action, prior: Option<StoredOwner>, now: int) {
    && |after.events| == |db.events| + 1 && after.events[..|db.events|] == db.events
    && var e := after.events[|db.events|];
       && e.taskId == t && e.worktreeId == row.worktreeId && e.action == action && e.owner == row.owner
       && e.priorOwner == prior && e.generation == row.generation && e.occurredAt == now
  }

  const THIRTY_MINUTES: int := 1_800_000_000_000

  lemma StoredSpells(owner: SessionIdentity)
    ensures Spells(Stored(owner), owner)
  {
  }

  lemma LoadedIsStored(stored: StoredOwner)
    ensures Stored(Loaded(stored)) == stored && Spells(stored, Loaded(stored))
  {
  }

  /** A write that the table accepts leaves its row, its event and its lease. */
  lemma WriteMeans(db: Db, lease: WriterLease, action: Action, prior: Option<StoredOwner>, now: int)
    ensures var (after, result) := Write(db, lease, action, prior, now);
            if Storable(db, lease) && FitsI64(now) then
              && result == Ok(lease) && Stores(db, after, lease.taskId, lease.owner, lease)
              && Logs(db, after, lease.taskId, after.rows[lease.taskId], action, prior, now)
            else after == db && result == Err(StoreFailed)
  {
    StoredSpells(lease.owner);
    hide Stored, Storable;
  }

  /**
   A handoff succeeds exactly for the session and generation the table holds, if one more generation
   and the new times fit. It then gives the lease to the next session for thirty minutes, and logs who
   gave it. The next session can use it exactly when it is canonical, and the old token is refused.
   */
  lemma HandoffMeans(db: Db, t: Uuid, owner: SessionIdentity, generation: nat, next: SessionIdentity, now: int)
    requires Inv(db)
    ensures var (after, result) := Handoff(db, t, owner, generation, next, now);
            && (result.Ok? <==>
                  && t in db.rows && Loaded(db.rows[t].owner) == owner && db.rows[t].generation == generation
                  && generation < I64_MAX && I64_MIN <= now && now + THIRTY_MINUTES <= I64_MAX)
            && (result.Ok? ==>
                  && Stores(db, after, t, next, result.value)
                  && var row := after.rows[t];
                     && row.worktreeId == db.rows[t].worktreeId && row.generation == generation + 1
                     && row.acquiredAt == row.renewedAt == now && row.expiresAt == now + THIRTY_MINUTES
                     && Logs(db, after, t, row, HandedOff, Some(db.rows[t].owner), now)
                     && (TokenAccepted(after, t, next, generation + 1) <==> Canonical(next))
                     && !TokenAccepted(after, t, owner, generation))
            && (result.Err? ==>
                  after == db
                  && result.error == if t !in db.rows then TaskUnavailable
                                     else if Loaded(db.rows[t].owner) != owner then WrongOwner
                                     else if db.rows[t].generation != generation then GenerationChanged
                                     else StoreFailed)
  {
    if t in db.rows {
      RowIsSound(db, t);
      LoadedIsStored(db.rows[t].owner);
      SessionRoundTrip(next);
      var lease := FreshLease(t, db.rows[t].worktreeId, next, now, DEFAULT_LEASE_DURATION, SaturatingNext(generation));
      WriteMeans(db, lease, HandedOff, Some(db.rows[t].owner), now);
      hide Write, Stored, Loaded, Canonical;
    }
  }

  /** A renewal: exactly when it succeeds, and that it moves the renewal time, never back, and the expiry, and nothing else. */
  lemma RenewMeans(db: Db, t: Uuid, owner: SessionIdentity, generation: nat, now: int, duration: Option<int>)
    requires Inv(db)
    ensures var d := if duration.Some? then duration.value else THIRTY_MINUTES;
            var (after, result) := Renew(db, t, owner, generation, now, duration);
            && (result.Ok? <==>
                  && d > 0 && t in db.rows && Loaded(db.rows[t].owner) == owner && db.rows[t].generation == generation
                  && FitsI64(now) && Max(now, db.rows[t].renewedAt) + d <= I64_MAX)
            && (result.Ok? ==>
                  && Stores(db, after, t, owner, result.value)
                  && var row := after.rows[t];
                     && row == db.rows[t].(renewedAt := row.renewedAt, expiresAt := row.expiresAt)
                     && row.renewedAt == Max(now, db.rows[t].renewedAt) && row.expiresAt == row.renewedAt + d
                     && Logs(db, after, t, row, Renewed, None, now)
                     && TokenAccepted(after, t, owner, generation))
            && (result.Err? ==>
                  after == db
                  && result.error == if d <= 0 then InvalidDuration
                                     else if t !in db.rows then TaskUnavailable
                                     else if Loaded(db.rows[t].owner) != owner then WrongOwner
                                     else if db.rows[t].generation != generation then GenerationChanged
                                     else StoreFailed)
  {
    if t in db.rows {
      RowIsSound(db, t);
      LoadedIsStored(db.rows[t].owner);
      WriteMeans(db, Extended(LoadRow(t, db.rows[t]), now, DurationOf(duration)), Renewed, None, now);
      hide Write, Stored, Loaded;
    }
  }

  /** A release: exactly when it succeeds, and that it takes the row away, logs it, and leaves every other row. */
  lemma ReleaseMeans(db: Db, t: Uuid, owner: SessionIdentity, generation: nat, now: int)
    requires Inv(db)
    ensures var (after, result) := Release(db, t, owner, generation, now);
            && (result.Ok? <==>
                  t in db.rows && Loaded(db.rows[t].owner) == owner && db.rows[t].generation == generation && FitsI64(now))
            && (result.Ok? ==>
                  && after.tasks == db.tasks && after.rows.Keys == db.rows.Keys - {t}
                  && (forall u :: u in db.rows && u != t ==> after.rows[u] == db.rows[u])
                  && Logs(db, after, t, db.rows[t], Released, None, now)
                  && forall s, g :: !TokenAccepted(after, t, s, g))
            && (result.Err? ==>
                  after == db
                  && result.error == if t !in db.rows then TaskUnavailable
                                     else if Loaded(db.rows[t].owner) != owner then WrongOwner
                                     else if db.rows[t].generation != generation then GenerationChanged
                                     else StoreFailed)
  {
    if t in db.rows {
      RowIsSound(db, t);
      LoadedIsStored(db.rows[t].owner);
      hide Stored, Loaded;
    }
  }

  /**
   What an acquisition gives: a first lease at generation 1, a renewal of the caller's own running
   lease, or a takeover of an expired one at one more generation, which names the session it takes
   over from. And how it is refused.
   */
  lemma AcquireMeans(db: Db, t: Uuid, owner: SessionIdentity, now: int, duration: Option<int>)
    requires Inv(db)
    ensures var d := if duration.Some? then duration.value else THIRTY_MINUTES;
            var (after, result) := Acquire(db, t, owner, now, duration);
            && (result.Ok? ==>
                  && t in db.tasks && Stores(db, after, t, owner, result.value)
                  && var row := after.rows[t];
                     && row.worktreeId == db.tasks[t].worktreeId
                     && row.expiresAt == row.renewedAt + d
                     && (if t in db.rows && db.rows[t].expiresAt > now then
                           && Loaded(db.rows[t].owner) == owner
                           && row == db.rows[t].(renewedAt := row.renewedAt, expiresAt := row.expiresAt)
                           && row.renewedAt == Max(now, db.rows[t].renewedAt)
                           && Logs(db, after, t, row, Renewed, None, now)
                         else
                           && row.acquiredAt == row.renewedAt == now
                           && row.generation == (if t in db.rows then db.rows[t].generation + 1 else 1)
                           && (if t in db.rows then Logs(db, after, t, row, TakenOver, Some(db.rows[t].owner), now)
                               else Logs(db, after, t, row, Acquired, None, now))))
            && (result.Err? ==>
                  after == db
                  && result.error == if d <= 0 then InvalidDuration
                                     else if t !in db.tasks || !db.tasks[t].active then TaskUnavailable
                                     else if t in db.rows && db.rows[t].expiresAt > now && Loaded(db.rows[t].owner) != owner then
                                       AlreadyHeld(Loaded(db.rows[t].owner), db.rows[t].expiresAt)
                                     else StoreFailed)
  {
    var d := DurationOf(duration);
    if t in db.tasks {
      var w := db.tasks[t].worktreeId;
      WriteMeans(db, FreshLease(t, w, owner, now, d, 1), Acquired, None, now);
      if t in db.rows {
        RowIsSound(db, t);
        LoadedIsStored(db.rows[t].owner);
        var existing := LoadRow(t, db.rows[t]);
        WriteMeans(db, Extended(existing, now, d), Renewed, None, now);
        WriteMeans(db, FreshLease(t, w, owner, now, d, SaturatingNext(existing.generation)), TakenOver, Some(db.rows[t].owner), now);
      }
    }
    hide Write, Stored, Loaded;
  }

  /**
   What a stretch of ownership is: when a task's row goes, or gets another generation, the stretch it
   was in ends, at the row's expiry if that has passed and at the time of the call if not.
   */
  lemma EndedStretch(trace: Trace, op: Op)
    ensures var after := TraceStep(trace, op);
            var t := op.id;
            if t in trace.db.rows && (t !in after.db.rows || after.db.rows[t].generation != trace.db.rows[t].generation) then
              var row := trace.db.rows[t];
              && |after.closed| == |trace.closed| + 1 && after.closed[..|trace.closed|] == trace.closed
              && var p := after.closed[|trace.closed|];
                 && p.taskId == t && p.worktreeId == row.worktreeId && p.owner == row.owner && p.generation == row.generation
                 && p.start == row.acquiredAt && p.end == (if row.expiresAt <= op.now then row.expiresAt else op.now)
            else after.closed == trace.closed
  {
    hide Step;
  }

  /** And the stretch a stored row is in, which lasts up to its expiry. */
  lemma RunningStretch(trace: Trace, t: Uuid)
    requires t in trace.db.rows
    ensures var row := trace.db.rows[t];
            Period(t, row.worktreeId, row.owner, row.generation, row.acquiredAt, row.expiresAt) in Periods(trace)
  {
  }
}
