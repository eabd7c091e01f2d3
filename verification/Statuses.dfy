/**
 Statuses over whole runs. Every command of the command line appends; this module puts them together and shows that a
 memory that was once superseded or ruled invalid is never current again.
 */
module Statuses {
  import opened Common
  import opened Text
  import opened Sequences
  import opened Memory
  import opened Supersession
  import opened MemoryLedger
  import opened Merge
  import opened Revise
  import Reconcile
  import Fix = ReconcileFixpoint
  import Theorem = ReconcileTheorem

  // ----- Filing a memory by hand -----

  datatype RememberRequest = RememberRequest(
    kind: MemoryKind, title: string, content: string, evidenceIds: seq<Uuid>, supersedes: seq<Uuid>, confidence: int, now: int)

  datatype RememberError = NoTitle | NoContent | NoEvidence | NothingToSupersede(id: Uuid) | AppendFailed(error: AppendError)

  /** The current versions of the memories to be superseded, or the first that is missing. */
  function VersionsToSupersede(l: Ledger, ids: seq<Uuid>): Result<seq<Uuid>, Uuid> {
    if ids == [] then Ok([])
    else
      var found := CurrentMemory(l, ids[0]);
      if found.None? then Err(ids[0])
      else
        var rest := VersionsToSupersede(l, ids[1..]);
        if rest.Err? then rest else Ok([found.value.versionId] + rest.value)
  }

  function Filed(l: Ledger, request: RememberRequest, supersedes: seq<Uuid>): MemoryRecord {
    var id := FreshId(l.versions);
    MemoryRecord(id, id + 1, Project(l.project), request.kind, Trim(request.title), Trim(request.content), request.now, None,
                 request.now, request.confidence, HumanCorrection, request.evidenceIds, supersedes, Current)
  }

  function Remember(l: Ledger, request: RememberRequest): (Ledger, Result<MemoryRecord, RememberError>) {
    if Trim(request.title) == [] then (l, Err(NoTitle))
    else if Trim(request.content) == [] then (l, Err(NoContent))
    else if request.evidenceIds == [] then (l, Err(NoEvidence))
    else
      var versions := VersionsToSupersede(l, request.supersedes);
      if versions.Err? then (l, Err(NothingToSupersede(versions.error)))
      else
        var record := Filed(l, request, versions.value);
        var (l1, appended) := Append(l, record);
        if appended.Err? then (l1, Err(AppendFailed(appended.error))) else (l1, Ok(record))
  }

  method RememberIn(ledger: EventLedger, request: RememberRequest) returns (result: Result<MemoryRecord, RememberError>)
    modifies ledger`versions
    ensures (ledger.State(), result) == Remember(old(ledger.State()), request)
  {
    hide Append, FreshId, VersionsToSupersede;
    if Trim(request.title) == [] {
      return Err(NoTitle);
    }
    if Trim(request.content) == [] {
      return Err(NoContent);
    }
    if request.evidenceIds == [] {
      return Err(NoEvidence);
    }
    var versions := VersionsToSupersede(ledger.State(), request.supersedes);
    if versions.Err? {
      return Err(NothingToSupersede(versions.error));
    }
    var record := Filed(ledger.State(), request, versions.value);
    var appended := ledger.AppendMemory(record);
    if appended.Err? {
      return Err(AppendFailed(appended.error));
    }
    return Ok(record);
  }

  // ----- Ruling on a proposed memory -----

  datatype RuleError = NoSuchMemory | NotProposed(status: MemoryStatus) | RulingFailed(error: AppendError)

  function Ruled(memory: MemoryRecord, approve: bool, version: Uuid, now: int): MemoryRecord {
    memory.(versionId := version, recordedAt := now, status := if approve then Current else Invalid, supersedes := [])
  }

  function Rule(l: Ledger, id: Uuid, approve: bool, now: int): (Ledger, Result<MemoryRecord, RuleError>) {
    var memory := CurrentMemory(l, id);
    if memory.None? then (l, Err(NoSuchMemory))
    else if memory.value.status != Proposed then (l, Err(NotProposed(memory.value.status)))
    else
      var ruled := Ruled(memory.value, approve, FreshId(l.versions), now);
      var (l1, appended) := Append(l, ruled);
      if appended.Err? then (l1, Err(RulingFailed(appended.error))) else (l1, Ok(ruled))
  }

  method RuleOn(ledger: EventLedger, id: Uuid, approve: bool, now: int) returns (result: Result<MemoryRecord, RuleError>)
    modifies ledger`versions
    ensures (ledger.State(), result) == Rule(old(ledger.State()), id, approve, now)
  {
    hide Append, FreshId, CurrentMemory;
    var memory := CurrentMemory(ledger.State(), id);
    if memory.None? {
      return Err(NoSuchMemory);
    }
    if memory.value.status != Proposed {
      return Err(NotProposed(memory.value.status));
    }
    var ruled := Ruled(memory.value, approve, FreshId(ledger.versions), now);
    var appended := ledger.AppendMemory(ruled);
    if appended.Err? {
      return Err(RulingFailed(appended.error));
    }
    return Ok(ruled);
  }

  lemma RuledIsAcceptable(l: Ledger, memory: MemoryRecord, approve: bool, now: int)
    requires Sound(l) && memory in l.versions
    ensures Acceptable(l, Ruled(memory, approve, FreshId(l.versions), now))
  {
    StoredRecordsAreValid(l, memory);
    FreshVersion(l);
    Fix.NoEdgesAreDistinct();
    Fix.NoEdgesAreKnown(VersionIds(l.versions));
    var ruled := Ruled(memory, approve, FreshId(l.versions), now);
    assert KeepsKind(l.versions, ruled);
    hide Sound, Distinct, Known, KeepsKind;
  }

  /**
   A ruling is possible exactly on a memory that is stored, not withdrawn and proposed; approving it
   adds it to the live memories, rejecting it adds nothing, and neither removes another memory.
   */
  lemma RulingMeans(l: Ledger, id: Uuid, approve: bool, now: int)
    requires Sound(l)
    ensures var memory := CurrentMemory(l, id);
            var (l1, result) := Rule(l, id, approve, now);
            && (result.Ok? <==> memory.Some? && memory.value.status == Proposed)
            && (result.Err? ==> l1 == l)
            && (result.Ok? ==> LiveMemories(l1) == LiveMemories(l) + if approve then [result.value] else [])
  {
    hide *;
    RuleUnfolds(l, id, approve, now);
    if CurrentMemory(l, id).Some? && CurrentMemory(l, id).value.status == Proposed {
      var memory := CurrentMemory(l, id).value;
      var ruled := Ruled(memory, approve, FreshId(l.versions), now);
      CurrentIsStored(l, id);
      RuledIsAcceptable(l, memory, approve, now);
      Fix.AcceptedAppend(l, ruled);
      LiveAfterAppend(l, ruled);
      ProposedIsNotLive(l, memory, ruled, approve, now);
    }
  }

  lemma RuleUnfolds(l: Ledger, id: Uuid, approve: bool, now: int)
    ensures var memory := CurrentMemory(l, id);
            if memory.None? || memory.value.status != Proposed then Rule(l, id, approve, now).0 == l && Rule(l, id, approve, now).1.Err?
            else
              var ruled := Ruled(memory.value, approve, FreshId(l.versions), now);
              var (l1, appended) := Append(l, ruled);
              Rule(l, id, approve, now) == (l1, if appended.Err? then Err(RulingFailed(appended.error)) else Ok(ruled))
  {
    hide CurrentMemory, Append, FreshId, Ruled;
  }

  lemma CurrentIsStored(l: Ledger, id: Uuid)
    requires CurrentMemory(l, id).Some?
    ensures var m := CurrentMemory(l, id).value;
            m in l.versions && m.id == id && Latest(l.versions, id) == Some(m) && id !in l.withdrawn
  {
    LatestIsStored(l.versions, id);
  }

  lemma ProposedIsNotLive(l: Ledger, memory: MemoryRecord, ruled: MemoryRecord, approve: bool, now: int)
    requires CurrentMemory(l, memory.id) == Some(memory) && memory.status == Proposed
    requires ruled == Ruled(memory, approve, FreshId(l.versions), now)
    ensures Filter(LiveMemories(l), Keeps(ruled)) == LiveMemories(l)
    ensures (IsReadable(ruled.status) && ruled.id !in l.withdrawn) == approve
  {
    forall v | v in LiveMemories(l) ensures Keeps(ruled)(v) {
      LiveIsCurrent(l, v);
    }
    hide LiveMemories, Keeps, FreshId;
    FilterAll(LiveMemories(l), Keeps(ruled));
  }

  // ----- Repairing dates -----

  /** A year after the epoch: a claim dated before it was never dated. */
  const EPOCH_ISH: int := 365 * 86_400 * 1_000_000_000

  datatype DateRepairReport = DateRepairReport(repaired: nat, unresolvable: nat)

  predicate Misdated(v: MemoryRecord) {
    v.validFrom < EPOCH_ISH
  }

  function Redated(memory: MemoryRecord, derived: int, version: Uuid, now: int): MemoryRecord {
    memory.(versionId := version, validFrom := derived, recordedAt := now)
  }

  /** `derived` gives, for each version, the latest date among the events it cites, if any resolves. */
  function RepairOne(l: Ledger, report: DateRepairReport, memory: MemoryRecord, derived: map<Uuid, int>, now: int)
    : (Ledger, Result<DateRepairReport, AppendError>)
  {
    if memory.versionId !in derived || derived[memory.versionId] < EPOCH_ISH then
      (l, Ok(report.(unresolvable := report.unresolvable + 1)))
    else
      var (l1, appended) := Append(l, Redated(memory, derived[memory.versionId], FreshId(l.versions), now));
      if appended.Err? then (l1, Err(appended.error)) else (l1, Ok(report.(repaired := report.repaired + 1)))
  }

  function RepairEach(l: Ledger, memories: seq<MemoryRecord>, derived: map<Uuid, int>, now: int)
    : (Ledger, Result<DateRepairReport, AppendError>)
  {
    if memories == [] then (l, Ok(DateRepairReport(0, 0)))
    else
      var (before, result) := RepairEach(l, memories[..|memories| - 1], derived, now);
      if result.Err? then (before, result) else RepairOne(before, result.value, memories[|memories| - 1], derived, now)
  }

  function RepairDates(l: Ledger, derived: map<Uuid, int>, now: int): (Ledger, Result<DateRepairReport, AppendError>) {
    RepairEach(l, Filter(LiveMemories(l), Misdated), derived, now)
  }

  lemma {:induction false} RepairFailureSticks(l: Ledger, memories: seq<MemoryRecord>, i: nat, derived: map<Uuid, int>, now: int)
    requires i <= |memories| && RepairEach(l, memories[..i], derived, now).1.Err?
    ensures RepairEach(l, memories, derived, now) == RepairEach(l, memories[..i], derived, now)
  {
    hide RepairOne;
    if i == |memories| {
      assert memories[..i] == memories;
    } else {
      var front := memories[..|memories| - 1];
      assert front[..i] == memories[..i];
      RepairFailureSticks(l, front, i, derived, now);
    }
  }

  method RepairMemory(ledger: EventLedger, report: DateRepairReport, memory: MemoryRecord, derived: map<Uuid, int>, now: int)
    returns (result: Result<DateRepairReport, AppendError>)
    modifies ledger`versions
    ensures (ledger.State(), result) == RepairOne(old(ledger.State()), report, memory, derived, now)
  {
    hide Append, FreshId;
    if memory.versionId !in derived || derived[memory.versionId] < EPOCH_ISH {
      return Ok(report.(unresolvable := report.unresolvable + 1));
    }
    var appended := ledger.AppendMemory(Redated(memory, derived[memory.versionId], FreshId(ledger.versions), now));
    if appended.Err? {
      return Err(appended.error);
    }
    return Ok(report.(repaired := report.repaired + 1));
  }

  method RepairDatesIn(ledger: EventLedger, derived: map<Uuid, int>, now: int) returns (result: Result<DateRepairReport, AppendError>)
    modifies ledger`versions
    ensures (ledger.State(), result) == RepairDates(old(ledger.State()), derived, now)
  {
    hide RepairOne, LiveMemories, Filter;
    ghost var was := ledger.State();
    var misdated := Filter(LiveMemories(ledger.State()), Misdated);
    var report := DateRepairReport(0, 0);
    var i := 0;
    while i < |misdated|
      invariant 0 <= i <= |misdated|
      invariant (ledger.State(), Ok(report)) == RepairEach(was, misdated[..i], derived, now)
    {
      assert misdated[..i + 1][..i] == misdated[..i];
      result := RepairMemory(ledger, report, misdated[i], derived, now);
      if result.Err? {
        RepairFailureSticks(was, misdated, i + 1, derived, now);
        return;
      }
      report := result.value;
      i := i + 1;
    }
    assert misdated[..|misdated|] == misdated;
    return Ok(report);
  }

  // ----- Runs -----

  datatype Op =
    | FileMemory(request: RememberRequest)
    | RuleMemory(id: Uuid, approve: bool, now: int)
    | ApplyProposals(asOf: int, now: int)
    | ApplySheet(items: seq<ReviewItem>, now: int)
    | ApplyDrafts(drafts: seq<DraftedCandidate>, apply: bool, now: int)
    | RepairTheDates(derived: map<Uuid, int>, now: int)
    | Withdraw(id: Uuid)

  /** What a command leaves in the ledger, whether it succeeded or failed part-way. */
  function Step(l: Ledger, op: Op): Ledger {
    match op
    case FileMemory(request) => Remember(l, request).0
    case RuleMemory(id, approve, now) => Rule(l, id, approve, now).0
    case ApplyProposals(asOf, now) => Reconcile.Apply(l, asOf, now).0
    case ApplySheet(items, now) => ApplyReviewed(l, items, now).0
    case ApplyDrafts(drafts, apply, now) => MergeDrafts(l, drafts, apply, now).0
    case RepairTheDates(derived, now) => RepairDates(l, derived, now).0
    case Withdraw(id) => Forget(l, id).0
  }

  function Run(l: Ledger, ops: seq<Op>): Ledger
    decreases |ops|
  {
    if ops == [] then l else Run(Step(l, ops[0]), ops[1..])
  }

  predicate Terminal(status: MemoryStatus) {
    status.Superseded? || status.Invalid?
  }

  ghost predicate StaysRetired(earlier: MemoryRecord, later: MemoryRecord) {
    earlier.id == later.id && Terminal(earlier.status) ==> Terminal(later.status)
  }

  /** In the order of the log, no memory leaves a terminal status. */
  ghost predicate NeverRevived(versions: seq<MemoryRecord>) {
    forall i, j :: 0 <= i < j < |versions| ==> StaysRetired(versions[i], versions[j])
  }

  ghost predicate Healthy(l: Ledger) {
    Sound(l) && TombstonesKnown(l) && NeverRevived(l.versions)
  }

  /** Whether appending a version would bring a memory back. */
  predicate Harmless(l: Ledger, m: MemoryRecord) {
    var found := Latest(l.versions, m.id);
    found.Some? && Terminal(found.value.status) ==> Terminal(m.status)
  }

  lemma {:induction false} TerminalShowsInLatest(versions: seq<MemoryRecord>, i: nat)
    requires NeverRevived(versions) && i < |versions| && Terminal(versions[i].status)
    ensures var found := Latest(versions, versions[i].id); found.Some? && Terminal(found.value.status)
  {
    var front, n := versions[..|versions| - 1], |versions| - 1;
    if versions[n].id == versions[i].id {
      assert i < n ==> StaysRetired(versions[i], versions[n]);
    } else {
      assert front[i] == versions[i];
      assert NeverRevived(front) by {
        forall a, b | 0 <= a < b < |front| ensures StaysRetired(front[a], front[b]) {
          assert StaysRetired(versions[a], versions[b]);
        }
      }
      TerminalShowsInLatest(front, i);
    }
  }

  lemma HarmlessAppend(l: Ledger, m: MemoryRecord)
    requires NeverRevived(l.versions) && Harmless(l, m)
    ensures NeverRevived(l.versions + [m])
  {
    var more := l.versions + [m];
    forall i, j | 0 <= i < j < |more| ensures StaysRetired(more[i], more[j]) {
      if j < |l.versions| {
        assert StaysRetired(l.versions[i], l.versions[j]);
      } else if Terminal(l.versions[i].status) && l.versions[i].id == m.id {
        TerminalShowsInLatest(l.versions, i);
      }
    }
  }

  lemma AppendKeepsHealthy(l: Ledger, m: MemoryRecord)
    requires Healthy(l) && Harmless(l, m)
    ensures Healthy(Append(l, m).0) && Fix.Extends(l, Append(l, m).0)
  {
    AppendGrowsIff(l, m);
    AppendIsSafe(l, m);
    HarmlessAppend(l, m);
    Fix.AppendExtends(l, m);
    TombstonesStayKnown(l, Append(l, m).0) by {
      hide TombstonesKnown, Sound, Acceptable, Append;
    }
    AppendedVersions(l, m);
    hide Append, Sound, TombstonesKnown, Acceptable, NeverRevived, Harmless;
  }

  lemma FreshIsHarmless(l: Ledger, m: MemoryRecord)
    requires m.id == FreshId(l.versions)
    ensures Harmless(l, m)
  {
    FreshIds(l);
    LatestIsStored(l.versions, m.id);
  }

  // ----- Each command -----

  /** The ledger is still healthy and no version was lost. */
  ghost predicate HealthyStep(l: Ledger, l1: Ledger) {
    Healthy(l1) && l.versions <= l1.versions
  }

  lemma SameLedger(l: Ledger)
    requires Healthy(l)
    ensures HealthyStep(l, l)
  {
  }

  lemma ThenStep(a: Ledger, b: Ledger, c: Ledger)
    requires HealthyStep(a, b) && HealthyStep(b, c)
    ensures HealthyStep(a, c)
  {
    hide Healthy;
  }

  lemma AppendIsHealthy(l: Ledger, m: MemoryRecord)
    requires Healthy(l) && Harmless(l, m)
    ensures HealthyStep(l, Append(l, m).0)
  {
    AppendKeepsHealthy(l, m);
    hide Healthy, Append, Harmless;
  }

  lemma RememberIsHealthy(l: Ledger, request: RememberRequest)
    requires Healthy(l)
    ensures HealthyStep(l, Remember(l, request).0)
  {
    SameLedger(l);
    hide Healthy, Append, HealthyStep, VersionsToSupersede, Trim, FreshId;
    var versions := VersionsToSupersede(l, request.supersedes);
    if versions.Ok? {
      var record := Filed(l, request, versions.value);
      FreshIsHarmless(l, record);
      AppendIsHealthy(l, record);
    }
  }

  lemma RuleIsHealthy(l: Ledger, id: Uuid, approve: bool, now: int)
    requires Healthy(l)
    ensures HealthyStep(l, Rule(l, id, approve, now).0)
  {
    SameLedger(l);
    RuleUnfolds(l, id, approve, now);
    hide Healthy, Append, HealthyStep, FreshId, Latest, Rule;
    var memory := CurrentMemory(l, id);
    if memory.Some? && memory.value.status == Proposed {
      CurrentIsStored(l, id);
      AppendIsHealthy(l, Ruled(memory.value, approve, FreshId(l.versions), now));
    }
  }

  lemma ForgetIsHealthy(l: Ledger, id: Uuid)
    requires Healthy(l)
    ensures HealthyStep(l, Forget(l, id).0)
  {
    ForgetIsSafe(l, id);
    assert Forget(l, id).0.versions == l.versions;
    hide Sound, TombstonesKnown, Forget;
  }

  /** Retiring never revives. */
  lemma {:induction false} RetireIsHealthy(l: Ledger, losers: seq<MemoryRecord>, now: int)
    requires Healthy(l)
    ensures HealthyStep(l, Reconcile.Retire(l, losers, now).0)
  {
    SameLedger(l);
    hide Healthy, Append, HealthyStep, FreshId;
    if losers != [] {
      var front, last := losers[..|losers| - 1], losers[|losers| - 1];
      RetireIsHealthy(l, front, now);
      var before := Reconcile.Retire(l, front, now).0;
      if Reconcile.Retire(l, front, now).1.Ok? {
        var retired := Reconcile.Retired(last, FreshId(before.versions), now);
        assert Harmless(before, retired);
        HealthyNow(l, before);
        AppendIsHealthy(before, retired);
        ThenStep(l, before, Append(before, retired).0);
      }
    }
  }

  lemma HealthyNow(l: Ledger, l1: Ledger)
    requires HealthyStep(l, l1)
    ensures Healthy(l1)
  {
  }

  lemma AppendThenRetire(l: Ledger, m: MemoryRecord, losers: seq<MemoryRecord>, now: int)
    requires Healthy(l) && Harmless(l, m)
    ensures HealthyStep(l, Append(l, m).0)
    ensures HealthyStep(l, Reconcile.Retire(Append(l, m).0, losers, now).0)
  {
    hide *;
    AppendIsHealthy(l, m);
    HealthyNow(l, Append(l, m).0);
    RetireIsHealthy(Append(l, m).0, losers, now);
    ThenStep(l, Append(l, m).0, Reconcile.Retire(Append(l, m).0, losers, now).0);
  }

  lemma FoldIsHealthy(l: Ledger, keeper: MemoryRecord, losers: seq<MemoryRecord>, now: int)
    requires Healthy(l) && Latest(l.versions, keeper.id) == Some(keeper) && !Terminal(keeper.status)
    ensures HealthyStep(l, Reconcile.Fold(l, keeper, losers, now).0)
  {
    var revised := Reconcile.Revised(keeper, losers, FreshId(l.versions), now);
    assert Harmless(l, revised);
    hide Healthy, HealthyStep, Append, Reconcile.Retire, Harmless, Reconcile.Revised, Latest, FreshId;
    AppendThenRetire(l, revised, losers, now);
  }

  lemma WriteMergeIsHealthy(l: Ledger, older: MemoryRecord, newer: MemoryRecord, v: ValidatedMerge, now: int)
    requires Healthy(l)
    ensures HealthyStep(l, WriteMerge(l, older, newer, v, now).0)
  {
    var m := Merged(l, older, newer, v, now);
    FreshIsHarmless(l, m);
    hide Healthy, HealthyStep, Append, Reconcile.Retire, Harmless, Merged, FreshId;
    AppendThenRetire(l, m, [older, newer], now);
  }

  lemma ApplyItemIsHealthy(l: Ledger, report: MergeReport, item: ReviewItem, now: int)
    requires Healthy(l)
    ensures HealthyStep(l, ApplyItem(l, report, item, now).0)
  {
    SameLedger(l);
    hide Healthy, HealthyStep, WriteMerge, Recheck, MarkedCurrent, Approved, Refuse, Record;
    var older, newer := MarkedCurrent(l, item.olderId), MarkedCurrent(l, item.newerId);
    if older.Some? && newer.Some? && Recheck(older.value, newer.value, item).Ok? {
      WriteMergeIsHealthy(l, older.value, newer.value, Recheck(older.value, newer.value, item).value, now);
    }
  }

  lemma {:induction false} ReviewedIsHealthy(l: Ledger, items: seq<ReviewItem>, now: int)
    requires Healthy(l)
    ensures HealthyStep(l, ApplyReviewed(l, items, now).0)
  {
    SameLedger(l);
    hide Healthy, HealthyStep, ApplyItem;
    if items != [] {
      var front := items[..|items| - 1];
      ReviewedIsHealthy(l, front, now);
      var before, result := ApplyReviewed(l, front, now).0, ApplyReviewed(l, front, now).1;
      HealthyNow(l, before);
      if result.Ok? {
        ApplyItemIsHealthy(before, result.value, items[|items| - 1], now);
        ThenStep(l, before, ApplyItem(before, result.value, items[|items| - 1], now).0);
      }
    }
  }

  lemma MergeDraftIsHealthy(l: Ledger, report: MergeReport, d: DraftedCandidate, apply: bool, now: int)
    requires Healthy(l)
    ensures HealthyStep(l, MergeDraft(l, report, d, apply, now).0)
  {
    SameLedger(l);
    hide Healthy, HealthyStep, WriteMerge, CheckDraft, CurrentMemory;
    var older, newer := CurrentMemory(l, d.olderId), CurrentMemory(l, d.newerId);
    if older.Some? && newer.Some? && CheckDraft(older.value, newer.value, d).Some? {
      WriteMergeIsHealthy(l, older.value, newer.value, CheckDraft(older.value, newer.value, d).value, now);
    }
  }

  lemma {:induction false} DraftsAreHealthy(l: Ledger, drafts: seq<DraftedCandidate>, apply: bool, now: int)
    requires Healthy(l)
    ensures HealthyStep(l, MergeDrafts(l, drafts, apply, now).0)
  {
    SameLedger(l);
    hide Healthy, HealthyStep, MergeDraft;
    if drafts != [] {
      var front := drafts[..|drafts| - 1];
      DraftsAreHealthy(l, front, apply, now);
      var before, result := MergeDrafts(l, front, apply, now).0, MergeDrafts(l, front, apply, now).1;
      HealthyNow(l, before);
      if result.Ok? {
        MergeDraftIsHealthy(before, result.value, drafts[|drafts| - 1], apply, now);
        ThenStep(l, before, MergeDraft(before, result.value, drafts[|drafts| - 1], apply, now).0);
      }
    }
  }

  // ----- Folds, which revise a memory that other folds could have retired -----

  lemma LiveSideIsLatest(l: Ledger, records: seq<MemoryRecord>, r: MemoryRecord)
    requires Fix.LiveSides(l, records) && r in records
    ensures Latest(l.versions, r.id) == Some(r) && !Terminal(r.status)
  {
    LiveIsCurrent(l, r);
  }

  lemma HealthyGives(l: Ledger)
    requires Healthy(l)
    ensures Sound(l) && TombstonesKnown(l) && NeverRevived(l.versions)
  {
  }

  /** One fold in a run: its kept side is still live, because no other conflict has touched it. */
  lemma OneFoldIsHealthy(l: Ledger, cs: seq<MemoryConflict>, now: int)
    requires Sound(l) && Fix.Separate(l, cs) && cs != [] && Fix.Decided(cs[|cs| - 1])
    requires HealthyStep(l, Reconcile.ApplyAll(l, Reconcile.Proposals(cs[..|cs| - 1]), now).0)
    ensures HealthyStep(l, Reconcile.ApplyAll(l, Reconcile.Proposals(cs), now).0)
  {
    hide *;
    var front, c := cs[..|cs| - 1], cs[|cs| - 1];
    var before := Reconcile.ApplyAll(l, Reconcile.Proposals(front), now).0;
    var keeper, losers := Fix.KeeperOf(c), Fix.LosersOf(c);
    Fix.SeparateSplits(l, cs);
    Fix.ApplyMakesProgress(l, front, now);
    Fix.ProgressedGives(l, front, now);
    Fix.FoldedIntoGives(l, front, now, before);
    Fix.SidesStillLive(l, front, c.records, now);
    Fix.ApplyAllUnfolds(l, cs, now);
    Fix.KeeperIsASide(c);
    Fix.LosersAreTheRest(c);
    Fix.FoldReplacesTheSides(before, c.records, keeper, losers, now);
    Fix.DecidedProposalFolds(before, c, Fix.ReportOn(front), now);
    LiveSideIsLatest(before, c.records, keeper);
    HealthyNow(l, before);
    FoldIsHealthy(before, keeper, losers, now);
    ThenStep(l, before, Reconcile.Fold(before, keeper, losers, now).0);
  }

  lemma NoFoldIsHealthy(l: Ledger, cs: seq<MemoryConflict>, now: int)
    requires Sound(l) && Fix.Separate(l, cs) && cs != [] && !Fix.Decided(cs[|cs| - 1])
    requires HealthyStep(l, Reconcile.ApplyAll(l, Reconcile.Proposals(cs[..|cs| - 1]), now).0)
    ensures HealthyStep(l, Reconcile.ApplyAll(l, Reconcile.Proposals(cs), now).0)
  {
    hide *;
    var front, c := cs[..|cs| - 1], cs[|cs| - 1];
    var before := Reconcile.ApplyAll(l, Reconcile.Proposals(front), now).0;
    Fix.SeparateSplits(l, cs);
    Fix.ApplyMakesProgress(l, front, now);
    Fix.ProgressedGives(l, front, now);
    Fix.ApplyAllUnfolds(l, cs, now);
    Fix.UndecidedIsLeftAlone(before, Fix.ReportOn(front), c, now);
  }

  lemma {:induction false} FoldsAreHealthy(l: Ledger, cs: seq<MemoryConflict>, now: int)
    requires Healthy(l) && Fix.Separate(l, cs)
    ensures HealthyStep(l, Reconcile.ApplyAll(l, Reconcile.Proposals(cs), now).0)
  {
    HealthyGives(l);
    hide Healthy, HealthyStep, Reconcile.ApplyOne, Fix.Separate, Fix.Decided, Sound, NeverRevived, TombstonesKnown;
    if cs == [] {
      SameLedger(l);
    } else {
      Fix.SeparateSplits(l, cs);
      FoldsAreHealthy(l, cs[..|cs| - 1], now);
      hide Reconcile.ApplyAll, Reconcile.Proposals;
      if Fix.Decided(cs[|cs| - 1]) {
        OneFoldIsHealthy(l, cs, now);
      } else {
        NoFoldIsHealthy(l, cs, now);
      }
    }
  }

  lemma ApplyIsHealthy(l: Ledger, asOf: int, now: int)
    requires Healthy(l)
    ensures HealthyStep(l, Reconcile.Apply(l, asOf, now).0)
  {
    HealthyGives(l);
    hide *;
    Theorem.ConflictsAreSeparate(l, asOf);
    Theorem.ApplyMeans(l, asOf, now);
    FoldsAreHealthy(l, Reconcile.ConflictsAt(l, asOf), now);
  }

  // ----- Date repairs, which copy a status forward -----

  lemma AppendLeavesOthers(l: Ledger, m: MemoryRecord, id: Uuid)
    requires id != m.id
    ensures Latest(Append(l, m).0.versions, id) == Latest(l.versions, id)
  {
    AppendGrowsIff(l, m);
    LatestAfterAppend(l.versions, m, id);
    hide Append, Acceptable, Latest;
  }

  lemma {:induction false} RepairLeavesOthers(l: Ledger, memories: seq<MemoryRecord>, derived: map<Uuid, int>, now: int, id: Uuid)
    requires forall m :: m in memories ==> m.id != id
    ensures Latest(RepairEach(l, memories, derived, now).0.versions, id) == Latest(l.versions, id)
  {
    hide Append, Latest, FreshId;
    if memories != [] {
      var front, last := memories[..|memories| - 1], memories[|memories| - 1];
      RepairLeavesOthers(l, front, derived, now, id);
      var before := RepairEach(l, front, derived, now).0;
      if last.versionId in derived {
        AppendLeavesOthers(before, Redated(last, derived[last.versionId], FreshId(before.versions), now), id);
      }
    }
  }

  lemma RepairOneIsHealthy(l: Ledger, report: DateRepairReport, memory: MemoryRecord, derived: map<Uuid, int>, now: int)
    requires Healthy(l) && Latest(l.versions, memory.id) == Some(memory) && !Terminal(memory.status)
    ensures HealthyStep(l, RepairOne(l, report, memory, derived, now).0)
  {
    SameLedger(l);
    hide Healthy, HealthyStep, Append, Latest, FreshId;
    if memory.versionId in derived {
      AppendIsHealthy(l, Redated(memory, derived[memory.versionId], FreshId(l.versions), now));
    }
  }

  lemma {:induction false} RepairsAreHealthy(l: Ledger, memories: seq<MemoryRecord>, derived: map<Uuid, int>, now: int)
    requires Healthy(l) && Fix.LiveSides(l, memories)
    ensures HealthyStep(l, RepairEach(l, memories, derived, now).0)
  {
    SameLedger(l);
    hide Healthy, HealthyStep, RepairOne, Latest, Fix.LiveSides;
    if memories != [] {
      var front, last := memories[..|memories| - 1], memories[|memories| - 1];
      Fix.LiveSidesPrefix(l, memories);
      RepairsAreHealthy(l, front, derived, now);
      var before, result := RepairEach(l, front, derived, now).0, RepairEach(l, front, derived, now).1;
      HealthyNow(l, before);
      LiveSideIsLatest(l, memories, last);
      RepairLeavesOthers(l, front, derived, now, last.id);
      if result.Ok? {
        RepairOneIsHealthy(before, result.value, last, derived, now);
        ThenStep(l, before, RepairOne(before, result.value, last, derived, now).0);
      }
    }
  }

  lemma MisdatedAreSides(l: Ledger)
    requires Sound(l)
    ensures Fix.LiveSides(l, Filter(LiveMemories(l), Misdated))
  {
    Theorem.LiveIdsDiffer(l);
    hide Sound, LiveMemories;
    Fix.FilterKeepsDistinct(LiveMemories(l), Misdated);
  }

  lemma RepairIsHealthy(l: Ledger, derived: map<Uuid, int>, now: int)
    requires Healthy(l)
    ensures HealthyStep(l, RepairDates(l, derived, now).0)
  {
    HealthyGives(l);
    hide Healthy, HealthyStep, RepairEach, LiveMemories, Sound, NeverRevived, TombstonesKnown, Fix.LiveSides;
    MisdatedAreSides(l);
    RepairsAreHealthy(l, Filter(LiveMemories(l), Misdated), derived, now);
  }

  // ----- The theorem -----

  lemma StepIsHealthy(l: Ledger, op: Op)
    requires Healthy(l)
    ensures HealthyStep(l, Step(l, op))
  {
    hide Healthy, HealthyStep, Remember, Rule, Reconcile.Apply, ApplyReviewed, MergeDrafts, RepairDates, Forget;
    match op {
      case FileMemory(request) => RememberIsHealthy(l, request);
      case RuleMemory(id, approve, now) => RuleIsHealthy(l, id, approve, now);
      case ApplyProposals(asOf, now) => ApplyIsHealthy(l, asOf, now);
      case ApplySheet(items, now) => ReviewedIsHealthy(l, items, now);
      case ApplyDrafts(drafts, apply, now) => DraftsAreHealthy(l, drafts, apply, now);
      case RepairTheDates(derived, now) => RepairIsHealthy(l, derived, now);
      case Withdraw(id) => ForgetIsHealthy(l, id);
    }
  }

  /**
   Over every sequence of commands, successful or failed part-way, the ledger stays sound, its log
   only grows, and in the order of that log no memory leaves a terminal status.
   */
  lemma {:induction false} RunIsHealthy(l: Ledger, ops: seq<Op>)
    requires Healthy(l)
    ensures HealthyStep(l, Run(l, ops))
    decreases |ops|
  {
    hide Healthy, HealthyStep, Step;
    if ops == [] {
      SameLedger(l);
    } else {
      StepIsHealthy(l, ops[0]);
      HealthyNow(l, Step(l, ops[0]));
      RunIsHealthy(Step(l, ops[0]), ops[1..]);
      ThenStep(l, Step(l, ops[0]), Run(Step(l, ops[0]), ops[1..]));
    }
  }

  /** A memory whose latest status is superseded or invalid is so after every further run. */
  lemma TerminalIsForever(l: Ledger, ops: seq<Op>, id: Uuid)
    requires Healthy(l) && Latest(l.versions, id).Some? && Terminal(Latest(l.versions, id).value.status)
    ensures var found := Latest(Run(l, ops).versions, id); found.Some? && Terminal(found.value.status)
  {
    RunIsHealthy(l, ops);
    LatestIsStored(l.versions, id);
    var v := Latest(l.versions, id).value;
    var i :| 0 <= i < |l.versions| && l.versions[i] == v;
    hide Run, Latest, Sound, TombstonesKnown, NeverRevived;
    assert Run(l, ops).versions[i] == v;
    TerminalShowsInLatest(Run(l, ops).versions, i);
  }

  lemma EmptyLedgerIsHealthy(project: Uuid, events: set<Uuid>)
    ensures Healthy(Ledger(project, events, {}, []))
  {
  }

  // ----- Retracting by an edge -----

  lemma {:induction false} SupersededVersionIsListed(l: Ledger, ids: seq<Uuid>, id: Uuid)
    requires VersionsToSupersede(l, ids).Ok? && id in ids
    ensures CurrentMemory(l, id).Some? && CurrentMemory(l, id).value.versionId in VersionsToSupersede(l, ids).value
  {
    hide CurrentMemory;
    if ids[0] != id {
      assert id in ids[1..];
      SupersededVersionIsListed(l, ids[1..], id);
    }
  }

  lemma RememberUnfolds(l: Ledger, request: RememberRequest)
    requires Remember(l, request).1.Ok?
    ensures VersionsToSupersede(l, request.supersedes).Ok?
    ensures var record := Filed(l, request, VersionsToSupersede(l, request.supersedes).value);
            && Append(l, record).1.Ok? && Remember(l, request) == (Append(l, record).0, Ok(record))
  {
    hide Append, VersionsToSupersede, Filed, Trim;
  }

  lemma FiledIsAppended(l: Ledger, request: RememberRequest, supersedes: seq<Uuid>)
    requires Append(l, Filed(l, request, supersedes)).1.Ok?
    ensures Append(l, Filed(l, request, supersedes)).0.versions == l.versions + [Filed(l, request, supersedes)]
    ensures Append(l, Filed(l, request, supersedes)).0.withdrawn == l.withdrawn
  {
    var m := Filed(l, request, supersedes);
    AppendGrowsIff(l, m);
    FreshIds(l);
    assert m.versionId !in VersionIds(l.versions);
    hide Append, Acceptable, FreshId, Trim;
  }

  /**
   A claim retracted by filing a correction keeps the status current while it stops being live, and a
   later merge of it takes no live memory away.
   */
  lemma RetractionHidesFromStatus(l: Ledger, request: RememberRequest, id: Uuid)
    requires Remember(l, request).1.Ok? && id in request.supersedes
    requires MarkedCurrent(l, id).Some?
    ensures var l1 := Remember(l, request).0;
            && MarkedCurrent(l1, id) == MarkedCurrent(l, id)
            && !Live(l1, MarkedCurrent(l1, id).value)
            && !StatusTells(l1)
  {
    var m := MarkedCurrent(l, id).value;
    RememberUnfolds(l, request);
    var record := Filed(l, request, VersionsToSupersede(l, request.supersedes).value);
    var l1 := Append(l, record).0;
    FiledIsAppended(l, request, VersionsToSupersede(l, request.supersedes).value);
    SupersededVersionIsListed(l, request.supersedes, id);
    FreshIds(l);
    MarkedIsStored(l, id);
    StoredSide(l, m);
    assert record.id != id;
    LatestAfterAppend(l.versions, record, id);
    EdgesAfterAppend(l.versions, record);
    hide Append, Latest, Edges, FreshId, VersionsToSupersede, Trim, Remember;
    assert m.versionId in record.supersedes;
    assert MarkedCurrent(l1, id) == Some(m);
    assert !Live(l1, m);
  }
}
