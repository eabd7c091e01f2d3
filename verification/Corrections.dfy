/**
 Corrections filed through the service: an audit event, and a new version of a memory that is current
 whatever the memory's status was. This is the one modelled writer that brings a retired memory back.
 */
module Corrections {
  import opened Common
  import opened Text
  import opened Sequences
  import opened Memory
  import opened Supersession
  import opened MemoryLedger
  import opened Merge
  import opened Revise
  import opened Statuses
  import opened TruthfulStatuses
  import Fix = ReconcileFixpoint

  /** The identifiers derived from the correction's own are inputs: a new memory's, and the version's. */
  datatype CorrectionRequest = CorrectionRequest(
    correctionId: Uuid, derivedMemory: Uuid, derivedVersion: Uuid, memoryId: Option<Uuid>, kind: Option<MemoryKind>,
    title: string, content: string, evidenceIds: seq<Uuid>, validFrom: Option<int>, confidence: int, now: int)

  datatype Correction = Corrected(memory: MemoryRecord) | Replayed(memory: MemoryRecord)

  datatype CorrectionError =
    | TitleRequired
    | ContentRequired
    | ForeignEvidence
    | KindChanged
    | KindRequired
    | GlobalPreference
    | NotAppended(error: AppendError)

  function TargetOf(r: CorrectionRequest): Uuid {
    if r.memoryId.Some? then r.memoryId.value else r.derivedMemory
  }

  function FindVersion(versions: seq<MemoryRecord>, version: Uuid): Option<MemoryRecord> {
    if versions == [] then None
    else if versions[0].versionId == version then Some(versions[0])
    else FindVersion(versions[1..], version)
  }

  function KindFor(current: Option<MemoryRecord>, kind: Option<MemoryKind>): Result<MemoryKind, CorrectionError> {
    if current.Some? then
      if kind.Some? && kind.value != current.value.kind then Err(KindChanged) else Ok(current.value.kind)
    else if kind.Some? then Ok(kind.value)
    else Err(KindRequired)
  }

  function WithEvent(l: Ledger, event: Uuid): Ledger {
    l.(events := l.events + {event})
  }

  function CorrectedRecord(l: Ledger, r: CorrectionRequest, kind: MemoryKind): MemoryRecord {
    var current := CurrentMemory(l, TargetOf(r));
    MemoryRecord(TargetOf(r), r.derivedVersion, Project(l.project), kind, r.title, r.content,
                 if r.validFrom.Some? then r.validFrom.value else r.now, None, r.now, r.confidence, HumanCorrection,
                 SortedIds(r.evidenceIds + [r.correctionId]),
                 if current.Some? then [current.value.versionId] else [], Current)
  }

  /** The audit event is stored first, and stays when the version is then refused. */
  function Correct(l: Ledger, r: CorrectionRequest): (Ledger, Result<Correction, CorrectionError>) {
    if Trim(r.title) == [] then (l, Err(TitleRequired))
    else if Trim(r.content) == [] then (l, Err(ContentRequired))
    else if !Known(r.evidenceIds, l.events) then (l, Err(ForeignEvidence))
    else
      var existing := FindVersion(l.versions, r.derivedVersion);
      if existing.Some? then (l, Ok(Replayed(existing.value)))
      else
        var kind := KindFor(CurrentMemory(l, TargetOf(r)), r.kind);
        if kind.Err? then (l, Err(kind.error))
        else if kind.value == Preference then (l, Err(GlobalPreference))
        else
          var record := CorrectedRecord(l, r, kind.value);
          var (l1, appended) := Append(WithEvent(l, r.correctionId), record);
          if appended.Err? then (l1, Err(NotAppended(appended.error))) else (l1, Ok(Corrected(record)))
  }

  method CorrectIn(ledger: EventLedger, r: CorrectionRequest) returns (result: Result<Correction, CorrectionError>)
    modifies ledger`events, ledger`versions
    ensures (ledger.State(), result) == Correct(old(ledger.State()), r)
  {
    hide Append, FindVersion, Trim, CurrentMemory, SortedIds, KindFor;
    if Trim(r.title) == [] {
      return Err(TitleRequired);
    }
    if Trim(r.content) == [] {
      return Err(ContentRequired);
    }
    if !Known(r.evidenceIds, ledger.events) {
      return Err(ForeignEvidence);
    }
    var existing := FindVersion(ledger.versions, r.derivedVersion);
    if existing.Some? {
      return Ok(Replayed(existing.value));
    }
    var kind := KindFor(CurrentMemory(ledger.State(), TargetOf(r)), r.kind);
    if kind.Err? {
      return Err(kind.error);
    }
    if kind.value == Preference {
      return Err(GlobalPreference);
    }
    var record := CorrectedRecord(ledger.State(), r, kind.value);
    ledger.events := ledger.events + {r.correctionId};
    var appended := ledger.AppendMemory(record);
    if appended.Err? {
      return Err(NotAppended(appended.error));
    }
    return Ok(Corrected(record));
  }

  // ----- When a correction is written -----

  /** Everything that is checked before the audit event is stored. */
  predicate PassesChecks(l: Ledger, r: CorrectionRequest) {
    && Trim(r.title) != [] && Trim(r.content) != []
    && Known(r.evidenceIds, l.events)
    && FindVersion(l.versions, r.derivedVersion).None?
    && var kind := KindFor(CurrentMemory(l, TargetOf(r)), r.kind); kind.Ok? && kind.value != Preference
  }

  /** A correction that appends a version: it passes the checks, fits the columns, and keeps the kind of every stored version. */
  predicate Writes(l: Ledger, r: CorrectionRequest) {
    && PassesChecks(l, r)
    && ByteLength(r.title) <= TITLE_BYTES && ByteLength(r.content) <= CONTENT_BYTES
    && KeepsKind(l.versions, CorrectedRecord(l, r, KindFor(CurrentMemory(l, TargetOf(r)), r.kind).value))
  }

  lemma {:induction false} FoundIff(versions: seq<MemoryRecord>, version: Uuid)
    ensures FindVersion(versions, version).None? <==> version !in VersionIds(versions)
  {
    if versions != [] {
      FoundIff(versions[1..], version);
      assert versions == [versions[0]] + versions[1..];
      assert forall v :: v in versions <==> v == versions[0] || v in versions[1..];
    }
  }

  lemma MoreEventsKeepSound(l: Ledger, event: Uuid)
    requires Sound(l)
    ensures Sound(WithEvent(l, event))
  {
    var l1 := WithEvent(l, event);
    forall i | 0 <= i < |l1.versions| ensures SoundAt(l1, i) {
      assert SoundAt(l, i);
      MoreEventsAccept(l.(versions := l.versions[..i]), l.versions[i], event);
      assert WithEvent(l.(versions := l.versions[..i]), event) == l1.(versions := l1.versions[..i]);
    }
  }

  lemma MoreEventsAccept(l: Ledger, m: MemoryRecord, event: Uuid)
    requires Acceptable(l, m)
    ensures Acceptable(WithEvent(l, event), m)
  {
    hide ValidRecord, KeepsKind, Distinct;
  }

  lemma EvidenceOfCorrection(ids: seq<Uuid>, id: Uuid, events: set<Uuid>)
    requires Known(ids, events)
    ensures var all := SortedIds(ids + [id]);
            all != [] && Known(all, events + {id}) && Distinct(all)
  {
    var all := SortedIds(ids + [id]);
    SortedIdsIncrease(ids + [id]);
    IncreasingIsDistinct(all);
    forall x ensures x in all <==> x in ids || x == id {
      SortedIdsMembers(ids + [id], x);
    }
    hide SortedIds, Increasing;
    assert id in all;
  }

  lemma RecordIsAcceptableIff(l: Ledger, r: CorrectionRequest, kind: MemoryKind)
    requires Sound(l) && PassesChecks(l, r)
    ensures Acceptable(WithEvent(l, r.correctionId), CorrectedRecord(l, r, kind)) <==>
              && ByteLength(r.title) <= TITLE_BYTES && ByteLength(r.content) <= CONTENT_BYTES
              && KeepsKind(l.versions, CorrectedRecord(l, r, kind))
  {
    FoundIff(l.versions, r.derivedVersion);
    EvidenceOfCorrection(r.evidenceIds, r.correctionId, l.events);
    LatestIsStored(l.versions, TargetOf(r));
    var record := CorrectedRecord(l, r, kind);
    assert Known(record.supersedes, VersionIds(l.versions)) && Distinct(record.supersedes);
    hide Known, Distinct, KeepsKind, SortedIds, FindVersion, ByteLength, Trim, Latest, KindFor, Sound;
  }

  lemma CorrectUnfolds(l: Ledger, r: CorrectionRequest)
    ensures !PassesChecks(l, r) ==> Correct(l, r).0 == l && !(Correct(l, r).1.Ok? && Correct(l, r).1.value.Corrected?)
    ensures PassesChecks(l, r) ==>
              var record := CorrectedRecord(l, r, KindFor(CurrentMemory(l, TargetOf(r)), r.kind).value);
              var (l1, appended) := Append(WithEvent(l, r.correctionId), record);
              Correct(l, r) == (l1, if appended.Err? then Err(NotAppended(appended.error)) else Ok(Corrected(record)))
  {
    hide Append, FindVersion, Trim, CurrentMemory, KindFor, CorrectedRecord, Known, TargetOf;
  }

  /**
   Exactly when a correction appends a version, and then by that version alone; a refused one may
   leave its audit event, and no other trace.
   */
  lemma CorrectionWritesIff(l: Ledger, r: CorrectionRequest)
    requires Sound(l)
    ensures var (l1, result) := Correct(l, r);
            && (result.Ok? && result.value.Corrected? <==> Writes(l, r))
            && l1.versions == (if Writes(l, r) then l.versions + [result.value.memory] else l.versions)
            && l1.withdrawn == l.withdrawn && l.events <= l1.events <= l.events + {r.correctionId}
            && Sound(l1)
  {
    CorrectUnfolds(l, r);
    if PassesChecks(l, r) {
      var record := CorrectedRecord(l, r, KindFor(CurrentMemory(l, TargetOf(r)), r.kind).value);
      RecordIsAcceptableIff(l, r, KindFor(CurrentMemory(l, TargetOf(r)), r.kind).value);
      MoreEventsKeepSound(l, r.correctionId);
      NewVersionIsNoReplay(l, r, record);
      AppendIsSafe(WithEvent(l, r.correctionId), record);
    }
    hide Correct, PassesChecks, CorrectedRecord, KindFor, Append, Sound, Acceptable, CurrentMemory, TargetOf, KeepsKind, ByteLength;
  }

  lemma NewVersionIsNoReplay(l: Ledger, r: CorrectionRequest, record: MemoryRecord)
    requires PassesChecks(l, r) && record.versionId == r.derivedVersion
    ensures var l1 := WithEvent(l, r.correctionId);
            && Append(l1, record).0 == (if Acceptable(l1, record) then Appended(l1, record) else l1)
            && (Append(l1, record).1.Ok? <==> Acceptable(l1, record))
  {
    FoundIff(l.versions, r.derivedVersion);
    AppendGrowsIff(WithEvent(l, r.correctionId), record);
    hide Append, Acceptable, FindVersion, IsReplay, ValidRecord;
  }

  // ----- What a correction brings back -----

  /** A correction that is written, of a memory whose latest status is superseded or invalid. */
  predicate Revives(l: Ledger, r: CorrectionRequest) {
    Writes(l, r) && Latest(l.versions, TargetOf(r)).Some? && Terminal(Latest(l.versions, TargetOf(r)).value.status)
  }

  lemma CorrectedFields(l: Ledger, r: CorrectionRequest)
    requires Sound(l) && Writes(l, r)
    ensures Correct(l, r).1.Ok?
    ensures var m := Correct(l, r).1.value.memory;
            && m.id == TargetOf(r) && m.status == Current
            && m == CorrectedRecord(l, r, KindFor(CurrentMemory(l, TargetOf(r)), r.kind).value)
  {
    CorrectUnfolds(l, r);
    CorrectionWritesIff(l, r);
    hide Correct, PassesChecks, KindFor, Append, Sound, CurrentMemory, KeepsKind, ByteLength, SortedIds;
  }

  /** A correction brings a memory back from a terminal status exactly when it is written and names one. */
  lemma CorrectionRevivesIff(l: Ledger, r: CorrectionRequest)
    requires Healthy(l)
    ensures NeverRevived(Correct(l, r).0.versions) <==> !Revives(l, r)
    ensures Healthy(Correct(l, r).0) <==> !Revives(l, r)
    ensures l.versions <= Correct(l, r).0.versions
  {
    HealthyGives(l);
    CorrectionWritesIff(l, r);
    var l1 := Correct(l, r).0;
    hide Sound, Correct, Writes;
    TombstonesStay(l, l1);
    if Writes(l, r) {
      CorrectedFields(l, r);
      var m := Correct(l, r).1.value.memory;
      if Revives(l, r) {
        RevivedInLog(l, m);
      } else {
        HarmlessAppend(l, m);
      }
    }
  }

  lemma TombstonesStay(l: Ledger, l1: Ledger)
    requires TombstonesKnown(l) && l.versions <= l1.versions && l1.withdrawn == l.withdrawn
    ensures TombstonesKnown(l1)
  {
    forall w | w in l1.withdrawn ensures exists v :: v in l1.versions && v.id == w {
      var v :| v in l.versions && v.id == w;
      assert v in l1.versions;
    }
  }

  lemma RevivedInLog(l: Ledger, m: MemoryRecord)
    requires Latest(l.versions, m.id).Some? && Terminal(Latest(l.versions, m.id).value.status) && !Terminal(m.status)
    ensures !NeverRevived(l.versions + [m])
  {
    LatestIsStored(l.versions, m.id);
    var v := Latest(l.versions, m.id).value;
    var i :| 0 <= i < |l.versions| && l.versions[i] == v;
    hide Latest;
    var more := l.versions + [m];
    assert more[i] == v && more[|l.versions|] == m;
    assert !StaysRetired(more[i], more[|l.versions|]);
  }

  lemma CorrectionIsAppended(l: Ledger, r: CorrectionRequest)
    requires Sound(l) && Writes(l, r)
    ensures Correct(l, r).1.Ok?
    ensures var e, m := WithEvent(l, r.correctionId), Correct(l, r).1.value.memory;
            && Sound(e) && Acceptable(e, m) && Correct(l, r).0 == Appended(e, m)
  {
    CorrectUnfolds(l, r);
    CorrectionWritesIff(l, r);
    MoreEventsKeepSound(l, r.correctionId);
    var kind := KindFor(CurrentMemory(l, TargetOf(r)), r.kind).value;
    RecordIsAcceptableIff(l, r, kind);
    NewVersionIsNoReplay(l, r, CorrectedRecord(l, r, kind));
    hide Correct, PassesChecks, CorrectedRecord, KindFor, Append, Sound, Acceptable, CurrentMemory, TargetOf, KeepsKind, ByteLength;
  }

  lemma EventsChangeNothingLive(l: Ledger, event: Uuid)
    ensures LiveMemories(WithEvent(l, event)) == LiveMemories(l)
  {
    hide Latest, Edges;
    FilterDependsOnMembers(l.versions, IsLive(l), IsLive(WithEvent(l, event)));
  }

  lemma OwnEdgeTakesOnlyItself(l: Ledger, m: MemoryRecord)
    requires m.supersedes == [] || (CurrentMemory(l, m.id).Some? && m.supersedes == [CurrentMemory(l, m.id).value.versionId])
    requires Sound(l)
    ensures forall v :: v in LiveMemories(l) ==> Keeps(m)(v) == Fix.NotAmong({m.id})(v)
  {
    VersionsIdentifyRecords(l);
    LatestIsStored(l.versions, m.id);
    forall v | v in LiveMemories(l) ensures Keeps(m)(v) == Fix.NotAmong({m.id})(v) {
      LiveIsCurrent(l, v);
      if v.versionId in m.supersedes {
        assert v == CurrentMemory(l, m.id).value;
      }
    }
  }

  /**
   What a written correction does to the live memories: the version it corrects leaves, if it was
   live, and the corrected one joins, unless the memory was withdrawn.
   */
  lemma LiveAfterCorrection(l: Ledger, r: CorrectionRequest)
    requires Sound(l) && Writes(l, r)
    ensures var (l1, result) := Correct(l, r);
            && result.Ok?
            && LiveMemories(l1) == Filter(LiveMemories(l), Fix.NotAmong({TargetOf(r)}))
                                   + if TargetOf(r) in l.withdrawn then [] else [result.value.memory]
  {
    CorrectionIsAppended(l, r);
    CorrectedFields(l, r);
    var e, m := WithEvent(l, r.correctionId), Correct(l, r).1.value.memory;
    OwnEdgeTakesOnlyItself(l, m);
    hide *;
    LiveAfterAppend(e, m);
    EventsChangeNothingLive(l, r.correctionId);
    FilterDependsOnMembers(LiveMemories(l), Keeps(m), Fix.NotAmong({m.id}));
    CurrentIsReadable(m);
    EventFields(l, r.correctionId);
  }

  lemma CurrentIsReadable(m: MemoryRecord)
    requires m.status == Current
    ensures IsReadable(m.status)
  {
  }

  lemma EventFields(l: Ledger, event: Uuid)
    ensures WithEvent(l, event).withdrawn == l.withdrawn && WithEvent(l, event).versions == l.versions
  {
  }

  // ----- Statuses, and runs with corrections in them -----

  lemma EventsKeepTelling(l: Ledger, event: Uuid)
    requires StatusTells(l)
    ensures StatusTells(WithEvent(l, event))
  {
    hide Latest, Edges;
    var l1 := WithEvent(l, event);
    forall id | MarkedCurrent(l1, id).Some? ensures Live(l1, MarkedCurrent(l1, id).value) {
      assert MarkedCurrent(l, id) == MarkedCurrent(l1, id);
    }
  }

  /** The edge of a correction points at the corrected memory's own version, so no other memory is retracted. */
  lemma CorrectionRetractsOnlyItself(l: Ledger, m: MemoryRecord)
    requires m.supersedes == [] || (CurrentMemory(l, m.id).Some? && m.supersedes == [CurrentMemory(l, m.id).value.versionId])
    requires Sound(l)
    ensures RetractsOnly(l, m, {m.id})
  {
    VersionsIdentifyRecords(l);
    LatestIsStored(l.versions, m.id);
    hide Sound, Latest;
    forall id | MarkedCurrent(l, id).Some? && MarkedCurrent(l, id).value.versionId in m.supersedes ensures id in {m.id} {
      MarkedIsStored(l, id);
      StoredSide(l, MarkedCurrent(l, id).value);
      assert MarkedCurrent(l, id).value == CurrentMemory(l, m.id).value;
    }
  }

  /** Corrections keep the statuses truthful. */
  lemma CorrectionTells(l: Ledger, r: CorrectionRequest)
    requires Sound(l) && StatusTells(l)
    ensures StatusTells(Correct(l, r).0)
  {
    CorrectionWritesIff(l, r);
    var e := WithEvent(l, r.correctionId);
    EventsKeepTelling(l, r.correctionId);
    if Writes(l, r) {
      CorrectionIsAppended(l, r);
      CorrectedFields(l, r);
      var m := Correct(l, r).1.value.memory;
      CorrectionRetractsOnlyItself(l, m);
      SameCurrent(l, r.correctionId, m.id);
      CorrectionRetractsOnlyItself(e, m);
      hide *;
      TellsAll(e);
      AppendTells(e, m, {}, {m.id});
      var none: set<Uuid> := {};
      assert none + {m.id} - {m.id} == none;
      TellsAll(Appended(e, m));
    } else {
      SameButForEvents(l, Correct(l, r).0);
      hide *;
    }
  }

  lemma SameCurrent(l: Ledger, event: Uuid, id: Uuid)
    ensures CurrentMemory(WithEvent(l, event), id) == CurrentMemory(l, id)
  {
  }

  lemma SameButForEvents(l: Ledger, l1: Ledger)
    requires StatusTells(l) && l1.versions == l.versions && l1.withdrawn == l.withdrawn
    ensures StatusTells(l1)
  {
    hide Latest, Edges;
    forall id | MarkedCurrent(l1, id).Some? ensures Live(l1, MarkedCurrent(l1, id).value) {
      assert MarkedCurrent(l, id) == MarkedCurrent(l1, id);
    }
  }

  datatype Write =
    | Command(op: Op)
    | Service(request: CorrectionRequest)

  function WriteStep(l: Ledger, w: Write): Ledger {
    match w
    case Command(op) => Statuses.Step(l, op)
    case Service(request) => Correct(l, request).0
  }

  function WriteRun(l: Ledger, writes: seq<Write>): Ledger
    decreases |writes|
  {
    if writes == [] then l else WriteRun(WriteStep(l, writes[0]), writes[1..])
  }

  predicate BringsBack(l: Ledger, w: Write) {
    w.Service? && Revives(l, w.request)
  }

  /** With corrections among the commands, a memory leaves a terminal status exactly by a correction that revives it. */
  lemma WriteStepRevivesIff(l: Ledger, w: Write)
    requires Healthy(l)
    ensures Healthy(WriteStep(l, w)) <==> !BringsBack(l, w)
    ensures l.versions <= WriteStep(l, w).versions
  {
    match w {
      case Command(op) =>
        StepIsHealthy(l, op);
        hide Healthy, Statuses.Step;
      case Service(request) =>
        CorrectionRevivesIff(l, request);
        hide Healthy, Correct, Revives, NeverRevived;
    }
  }

  predicate BringsNothingBack(l: Ledger, writes: seq<Write>)
    decreases |writes|
  {
    writes == [] || (!BringsBack(l, writes[0]) && BringsNothingBack(WriteStep(l, writes[0]), writes[1..]))
  }

  /** Over every run of commands and corrections that revives nothing, no memory leaves a terminal status. */
  lemma {:induction false} WriteRunIsHealthy(l: Ledger, writes: seq<Write>)
    requires Healthy(l) && BringsNothingBack(l, writes)
    ensures Healthy(WriteRun(l, writes)) && l.versions <= WriteRun(l, writes).versions
    decreases |writes|
  {
    hide Healthy, WriteStep, BringsBack;
    if writes != [] {
      WriteStepRevivesIff(l, writes[0]);
      WriteRunIsHealthy(WriteStep(l, writes[0]), writes[1..]);
    }
  }

  predicate TakesBack(l: Ledger, w: Write) {
    w.Command? && Retracts(l, w.op)
  }

  /** Truthful statuses stay truthful exactly when no claim marked current is retracted by filing; corrections do not. */
  lemma WriteStepTellsIff(l: Ledger, w: Write)
    requires Healthy(l) && StatusTells(l)
    ensures StatusTells(WriteStep(l, w)) <==> !TakesBack(l, w)
  {
    match w {
      case Command(op) =>
        StepTellsIff(l, op);
        hide Healthy, StatusTells, Statuses.Step, Retracts;
      case Service(request) =>
        HealthyGives(l);
        CorrectionTells(l, request);
        hide Healthy, StatusTells, Correct;
    }
  }
}
