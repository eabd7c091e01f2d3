/**
 The append-only memory ledger of one project: a growing sequence of versions, the events they may
 cite, and the memories that were withdrawn. What is live is derived from the versions alone.
 */
module MemoryLedger {
  import opened Common
  import opened Text
  import opened Sequences
  import opened Memory
  import opened Supersession

  const TITLE_BYTES := 300
  const CONTENT_BYTES := 20_000

  datatype Ledger = Ledger(project: Uuid, events: set<Uuid>, withdrawn: set<Uuid>, versions: seq<MemoryRecord>)

  datatype AppendError =
    | InvalidRecord
    | WrongScope
    | VersionCollision
    | Uncited
    | UnknownEvidence
    | IdentityChanged
    | UnknownSuperseded
    | RepeatedEdge

  // ----- What may be appended -----

  /** The length of a character in UTF-8. */
  function Utf8Length(c: char): nat {
    if c as int < 0x80 then 1 else if c as int < 0x800 then 2 else if c as int < 0x1_0000 then 3 else 4
  }

  function ByteLength(text: string): nat {
    if text == [] then 0 else Utf8Length(text[0]) + ByteLength(text[1..])
  }

  predicate ValidRecord(m: MemoryRecord) {
    && Trim(m.title) != [] && Trim(m.content) != []
    && ByteLength(m.title) <= TITLE_BYTES && ByteLength(m.content) <= CONTENT_BYTES
    && (m.validTo.Some? ==> m.validTo.value > m.validFrom)
  }

  function VersionIds(versions: seq<MemoryRecord>): set<Uuid> {
    set v | v in versions :: v.versionId
  }

  predicate Distinct(ids: seq<Uuid>) {
    forall i, j :: 0 <= i < j < |ids| ==> ids[i] != ids[j]
  }

  predicate KeepsKind(versions: seq<MemoryRecord>, m: MemoryRecord) {
    forall v :: v in versions ==> v.id == m.id ==> v.kind == m.kind
  }

  predicate Known(ids: seq<Uuid>, known: set<Uuid>) {
    forall x :: x in ids ==> x in known
  }

  /** A version that is new and that every check lets through. */
  predicate Acceptable(l: Ledger, m: MemoryRecord) {
    && ValidRecord(m) && m.scope == Project(l.project)
    && m.versionId !in VersionIds(l.versions)
    && m.evidenceIds != [] && Known(m.evidenceIds, l.events) && Distinct(m.evidenceIds)
    && KeepsKind(l.versions, m)
    && Known(m.supersedes, VersionIds(l.versions)) && Distinct(m.supersedes)
  }

  predicate IsReplay(v: MemoryRecord, m: MemoryRecord) {
    v.id == m.id && v.title == m.title && v.content == m.content
  }

  function Appended(l: Ledger, m: MemoryRecord): Ledger {
    l.(versions := l.versions + [m])
  }

  /** Append one version in one transaction. A version already stored is not stored again. */
  function Append(l: Ledger, m: MemoryRecord): (Ledger, Result<(), AppendError>) {
    if !ValidRecord(m) then (l, Err(InvalidRecord))
    else if m.scope != Project(l.project) then (l, Err(WrongScope))
    else if m.versionId in VersionIds(l.versions) then
      if exists v :: v in l.versions && v.versionId == m.versionId && IsReplay(v, m) then (l, Ok(()))
      else (l, Err(VersionCollision))
    else if m.evidenceIds == [] then (l, Err(Uncited))
    else if !Known(m.evidenceIds, l.events) then (l, Err(UnknownEvidence))
    else if !KeepsKind(l.versions, m) then (l, Err(IdentityChanged))
    else if !Known(m.supersedes, VersionIds(l.versions)) then (l, Err(UnknownSuperseded))
    else if !Distinct(m.evidenceIds) || !Distinct(m.supersedes) then (l, Err(RepeatedEdge))
    else (Appended(l, m), Ok(()))
  }

  /** The ledger grows exactly when the version is acceptable, and then by that version alone. */
  lemma AppendGrowsIff(l: Ledger, m: MemoryRecord)
    ensures Append(l, m).0 == (if Acceptable(l, m) then Appended(l, m) else l)
    ensures Append(l, m).1.Ok? <==>
              || Acceptable(l, m)
              || (ValidRecord(m) && m.scope == Project(l.project)
                  && exists v :: v in l.versions && v.versionId == m.versionId && IsReplay(v, m))
  {
    hide ValidRecord, Known, KeepsKind, Distinct, IsReplay;
  }

  // ----- Reading -----

  function Latest(versions: seq<MemoryRecord>, id: Uuid): Option<MemoryRecord> {
    if versions == [] then None
    else if versions[|versions| - 1].id == id then Some(versions[|versions| - 1])
    else Latest(versions[..|versions| - 1], id)
  }

  /** The latest version of a memory, whatever its status, unless the memory was withdrawn. */
  function CurrentMemory(l: Ledger, id: Uuid): Option<MemoryRecord> {
    if id in l.withdrawn then None else Latest(l.versions, id)
  }

  predicate Live(l: Ledger, v: MemoryRecord) {
    && Latest(l.versions, v.id) == Some(v)
    && IsReadable(v.status)
    && v.id !in l.withdrawn
    && v.versionId !in Edges(l.versions)
  }

  function IsLive(l: Ledger): MemoryRecord -> bool {
    v => Live(l, v)
  }

  /** The current memories: latest, readable, not withdrawn, and superseded by no version. */
  function LiveMemories(l: Ledger): seq<MemoryRecord> {
    Filter(l.versions, IsLive(l))
  }

  lemma {:induction false} LatestIsStored(versions: seq<MemoryRecord>, id: Uuid)
    ensures var found := Latest(versions, id);
            found.Some? ==> found.value in versions && found.value.id == id
    ensures Latest(versions, id).None? ==> forall v :: v in versions ==> v.id != id
  {
    if versions != [] && versions[|versions| - 1].id != id {
      LatestIsStored(versions[..|versions| - 1], id);
    }
  }

  lemma LatestAfterAppend(versions: seq<MemoryRecord>, m: MemoryRecord, id: Uuid)
    ensures Latest(versions + [m], id) == if m.id == id then Some(m) else Latest(versions, id)
  {
    assert (versions + [m])[..|versions|] == versions;
  }

  lemma EdgesAfterAppend(versions: seq<MemoryRecord>, m: MemoryRecord)
    ensures forall e :: e in Edges(versions + [m]) <==> e in Edges(versions) || e in m.supersedes
  {
    assert forall v :: v in versions + [m] <==> v in versions || v == m;
  }

  // ----- What every ledger built by appends satisfies -----

  ghost predicate SoundAt(l: Ledger, i: nat)
    requires i < |l.versions|
  {
    Acceptable(l.(versions := l.versions[..i]), l.versions[i])
  }

  ghost predicate Sound(l: Ledger) {
    forall i :: 0 <= i < |l.versions| ==> SoundAt(l, i)
  }

  lemma AppendKeepsSound(l: Ledger, m: MemoryRecord)
    requires Sound(l) && Acceptable(l, m)
    ensures Sound(Appended(l, m))
  {
    var l1 := Appended(l, m);
    hide Acceptable;
    forall i | 0 <= i < |l1.versions| ensures SoundAt(l1, i) {
      if i < |l.versions| {
        assert SoundAt(l, i);
        assert l1.versions[..i] == l.versions[..i];
      } else {
        assert l1.versions[..i] == l.versions;
      }
    }
  }

  /** Every operation that only appends keeps the ledger sound, whether it succeeds or not. */
  lemma AppendIsSafe(l: Ledger, m: MemoryRecord)
    requires Sound(l)
    ensures Sound(Append(l, m).0)
  {
    AppendGrowsIff(l, m);
    hide Sound, Append, Acceptable;
    if Acceptable(l, m) {
      AppendKeepsSound(l, m);
    }
  }

  lemma EdgesAreStored(l: Ledger)
    requires Sound(l)
    ensures Edges(l.versions) <= VersionIds(l.versions)
  {
    hide ValidRecord, KeepsKind, Distinct;
    forall e | e in Edges(l.versions) ensures e in VersionIds(l.versions) {
      var v :| v in l.versions && e in v.supersedes;
      var i :| 0 <= i < |l.versions| && l.versions[i] == v;
      assert SoundAt(l, i);
      assert e in VersionIds(l.versions[..i]);
    }
  }

  /** A version names one record. */
  lemma VersionsAreDistinct(l: Ledger, i: nat, j: nat)
    requires Sound(l) && i < j < |l.versions|
    ensures l.versions[i].versionId != l.versions[j].versionId
  {
    hide ValidRecord, KeepsKind, Distinct, Known;
    assert SoundAt(l, j);
    assert l.versions[i] in l.versions[..j];
  }

  lemma VersionsIdentifyRecords(l: Ledger)
    requires Sound(l)
    ensures VersionsIdentify(l.versions)
  {
    hide Sound;
    forall x, y | x in l.versions && y in l.versions && x.versionId == y.versionId ensures x == y {
      var i :| 0 <= i < |l.versions| && l.versions[i] == x;
      var j :| 0 <= j < |l.versions| && l.versions[j] == y;
      if i < j {
        VersionsAreDistinct(l, i, j);
      } else if j < i {
        VersionsAreDistinct(l, j, i);
      }
    }
  }

  lemma StoredRecordsAreValid(l: Ledger, v: MemoryRecord)
    requires Sound(l) && v in l.versions
    ensures ValidRecord(v) && v.scope == Project(l.project)
    ensures v.evidenceIds != [] && Known(v.evidenceIds, l.events) && Distinct(v.evidenceIds)
    ensures KeepsKind(l.versions, v)
  {
    var i :| 0 <= i < |l.versions| && l.versions[i] == v;
    assert SoundAt(l, i);
    hide ValidRecord, Known, Distinct;
    forall u | u in l.versions && u.id == v.id ensures u.kind == v.kind {
      var j :| 0 <= j < |l.versions| && l.versions[j] == u;
      assert SoundAt(l, j);
      if j < i {
        assert u in l.versions[..i];
      } else if i < j {
        assert v in l.versions[..j];
      }
    }
  }

  // ----- Withdrawing -----

  /** Withdraw a memory. Only a stored memory can be withdrawn, and withdrawing it twice is no error. */
  function Forget(l: Ledger, id: Uuid): (Ledger, bool) {
    if exists v :: v in l.versions && v.id == id then (l.(withdrawn := l.withdrawn + {id}), true) else (l, false)
  }

  /** Only stored memories are withdrawn. */
  ghost predicate TombstonesKnown(l: Ledger) {
    forall w :: w in l.withdrawn ==> exists v :: v in l.versions && v.id == w
  }

  lemma ForgetIsSafe(l: Ledger, id: Uuid)
    requires Sound(l) && TombstonesKnown(l)
    ensures Sound(Forget(l, id).0) && TombstonesKnown(Forget(l, id).0)
  {
    var l1 := Forget(l, id).0;
    assert l1.versions == l.versions;
    forall i | 0 <= i < |l1.versions| ensures SoundAt(l1, i) {
      assert SoundAt(l, i);
    }
  }

  // ----- What an append does to the live memories -----

  /** A live memory stays live unless the new version is of the same memory or supersedes it. */
  function Keeps(m: MemoryRecord): MemoryRecord -> bool {
    (v: MemoryRecord) => v.id != m.id && v.versionId !in m.supersedes
  }

  function LiveAndKept(l: Ledger, m: MemoryRecord): MemoryRecord -> bool {
    v => Live(l, v) && v.id != m.id && v.versionId !in m.supersedes
  }

  lemma LiveAfterAppendAt(l: Ledger, m: MemoryRecord, v: MemoryRecord)
    requires Sound(l) && Acceptable(l, m) && v in l.versions
    ensures Live(Appended(l, m), v) <==> Live(l, v) && v.id != m.id && v.versionId !in m.supersedes
  {
    hide Sound, Acceptable, Latest, Edges, IsReadable;
    LatestAfterAppend(l.versions, m, v.id);
    EdgesAfterAppend(l.versions, m);
    assert v.versionId != m.versionId by {
      AcceptableIsNew(l, m);
    }
  }

  lemma AcceptableIsNew(l: Ledger, m: MemoryRecord)
    requires Acceptable(l, m)
    ensures forall v :: v in l.versions ==> v.versionId != m.versionId
    ensures Known(m.supersedes, VersionIds(l.versions))
    ensures m.versionId !in VersionIds(l.versions)
  {
  }

  lemma NewVersionIsLiveIff(l: Ledger, m: MemoryRecord)
    requires Sound(l) && Acceptable(l, m)
    ensures Live(Appended(l, m), m) <==> IsReadable(m.status) && m.id !in l.withdrawn
  {
    LatestAfterAppend(l.versions, m, m.id);
    EdgesAfterAppend(l.versions, m);
    EdgesAreStored(l);
    hide Sound, Latest, Edges, ValidRecord, KeepsKind, Distinct;
  }

  /**
   The one law all operations rest on: after an append, the live memories are the ones before it
   minus other versions of the same memory and what the new version supersedes, plus the new
   version itself if it is readable and its memory was not withdrawn.
   */
  lemma LiveAfterAppend(l: Ledger, m: MemoryRecord)
    requires Sound(l) && Acceptable(l, m)
    ensures LiveMemories(Appended(l, m))
         == Filter(LiveMemories(l), Keeps(m)) + if IsReadable(m.status) && m.id !in l.withdrawn then [m] else []
  {
    var l1 := Appended(l, m);
    forall v | v in l.versions ensures IsLive(l1)(v) == LiveAndKept(l, m)(v) {
      LiveAfterAppendAt(l, m, v);
    }
    NewVersionIsLiveIff(l, m);
    hide Live, Acceptable, Sound, Filter, IsReadable;
    FilterOfOneMore(l.versions, m, IsLive(l1));
    FilterDependsOnMembers(l.versions, IsLive(l1), LiveAndKept(l, m));
    FilterTwice(l.versions, IsLive(l), Keeps(m), LiveAndKept(l, m));
  }

  // ----- The live memories themselves -----

  /** A memory is live at most once. */
  lemma LiveOnce(l: Ledger, x: MemoryRecord)
    requires Sound(l)
    ensures multiset(LiveMemories(l))[x] <= 1
  {
    FilterCounts(l.versions, IsLive(l), x);
    StoredOnce(l, |l.versions|, x);
    assert l.versions[..|l.versions|] == l.versions;
  }

  lemma {:induction false} StoredOnce(l: Ledger, n: nat, x: MemoryRecord)
    requires Sound(l) && n <= |l.versions|
    ensures multiset(l.versions[..n])[x] <= 1
    decreases n
  {
    hide Sound;
    if n > 0 {
      StoredOnce(l, n - 1, x);
      assert l.versions[..n] == l.versions[..n - 1] + [l.versions[n - 1]];
      if l.versions[n - 1] == x && x in l.versions[..n - 1] {
        var i :| 0 <= i < n - 1 && l.versions[i] == x;
        VersionsAreDistinct(l, i, n - 1);
      }
    }
  }

  /** Two live records of one memory are one record, and it is what a lookup of the memory returns. */
  lemma LiveIsCurrent(l: Ledger, v: MemoryRecord)
    requires v in LiveMemories(l)
    ensures CurrentMemory(l, v.id) == Some(v) && Live(l, v) && v in l.versions
  {
  }

  /** No live version is the target of an edge of any version, live or not. */
  lemma LiveIsUnsuperseded(l: Ledger)
    ensures forall v :: v in LiveMemories(l) ==> v.versionId !in Edges(l.versions)
  {
  }

  // ----- Fresh identifiers -----

  /** An identifier above every one in use, as time-ordered identifiers are. */
  function FreshId(versions: seq<MemoryRecord>): Uuid {
    if versions == [] then 0
    else
      var last := versions[|versions| - 1];
      Max(FreshId(versions[..|versions| - 1]), Max(last.id, last.versionId) + 1)
  }

  lemma {:induction false} FreshIdIsUnused(versions: seq<MemoryRecord>, v: MemoryRecord)
    requires v in versions
    ensures v.id < FreshId(versions) && v.versionId < FreshId(versions)
  {
    if v != versions[|versions| - 1] {
      FreshIdIsUnused(versions[..|versions| - 1], v);
    }
  }

  lemma FreshVersion(l: Ledger)
    ensures FreshId(l.versions) !in VersionIds(l.versions)
  {
    forall v | v in l.versions ensures v.versionId != FreshId(l.versions) {
      FreshIdIsUnused(l.versions, v);
    }
  }

  // ----- The ledger as an object -----

  /** The open ledger. Nothing but `AppendMemory` writes a version, and nothing removes one. */
  class EventLedger {
    const project: Uuid
    var events: set<Uuid>
    var withdrawn: set<Uuid>
    var versions: seq<MemoryRecord>

    constructor (project: Uuid)
      ensures State() == Ledger(project, {}, {}, []) && Sound(State())
    {
      this.project := project;
      events, withdrawn, versions := {}, {}, [];
    }

    function State(): Ledger
      reads this
    {
      Ledger(project, events, withdrawn, versions)
    }

    method ForgetMemory(id: Uuid) returns (found: bool)
      modifies this`withdrawn
      ensures (State(), found) == Forget(old(State()), id)
    {
      found := exists v :: v in versions && v.id == id;
      if found {
        withdrawn := withdrawn + {id};
      }
    }

    /** The transaction: each check in turn, then the version row and its edge rows. */
    method AppendMemory(m: MemoryRecord) returns (result: Result<(), AppendError>)
      modifies this`versions
      ensures (State(), result) == Append(old(State()), m)
    {
      if !ValidRecord(m) {
        return Err(InvalidRecord);
      }
      if m.scope != Project(project) {
        return Err(WrongScope);
      }
      if m.versionId in VersionIds(versions) {
        if exists v :: v in versions && v.versionId == m.versionId && IsReplay(v, m) {
          return Ok(());
        }
        return Err(VersionCollision);
      }
      if m.evidenceIds == [] {
        return Err(Uncited);
      }
      if !Known(m.evidenceIds, events) {
        return Err(UnknownEvidence);
      }
      if !KeepsKind(versions, m) {
        return Err(IdentityChanged);
      }
      if !Known(m.supersedes, VersionIds(versions)) {
        return Err(UnknownSuperseded);
      }
      if !Distinct(m.evidenceIds) || !Distinct(m.supersedes) {
        return Err(RepeatedEdge);
      }
      versions := versions + [m];
      return Ok(());
    }
  }
}
