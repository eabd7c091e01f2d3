/**
 What each command that writes a memory writes, field by field, and how each is refused: appending,
 withdrawing, filing, ruling, repairing dates, and correcting.
 */
module WriteOutcomes {
  import opened Common
  import opened Text
  import opened Sequences
  import opened Memory
  import opened MemoryLedger
  import Supersession
  import opened Merge
  import opened Revise
  import opened Statuses
  import opened Corrections
  import Fix = ReconcileFixpoint
  import FoldOutcomes

  // ----- Appending -----

  lemma {:induction false} BytesOfConcat(a: string, b: string)
    ensures ByteLength(a + b) == ByteLength(a) + ByteLength(b)
  {
    if a == [] {
      assert a + b == b;
    } else {
      assert (a + b)[1..] == a[1..] + b;
      BytesOfConcat(a[1..], b);
    }
  }

  /** The bytes of one character in UTF-8; with the law of joined texts, the bytes of every text. */
  lemma BytesOfOne(c: char)
    ensures ByteLength([c]) == if c as int <= 0x7F then 1 else if c as int <= 0x7FF then 2 else if c as int <= 0xFFFF then 3 else 4
    ensures ByteLength([]) == 0
  {
    assert [c][1..] == [];
  }

  /** The text and dates of a version are in order. */
  predicate IsWellFormed(m: MemoryRecord) {
    && Trim(m.title) != [] && Trim(m.content) != [] && ByteLength(m.title) <= 300 && ByteLength(m.content) <= 20_000
    && (m.validTo == None || m.validFrom < m.validTo.value)
  }

  /** How a version is refused: by the first rule it breaks, with the ledger left as it was; or not at all. */
  lemma AppendSays(l: Ledger, m: MemoryRecord)
    ensures var (l1, result) := Append(l, m);
            var stored := exists v :: v in l.versions && v.versionId == m.versionId;
            && (result.Err? ==> l1 == l)
            && (result.Ok? ==> if stored then l1 == l else l1 == l.(versions := l.versions + [m]))
            && result ==
                 if !IsWellFormed(m) then Err(InvalidRecord)
                 else if m.scope != Project(l.project) then Err(WrongScope)
                 else if stored then
                   if exists v :: v in l.versions && v.versionId == m.versionId && v.id == m.id && v.title == m.title && v.content == m.content
                   then Ok(()) else Err(VersionCollision)
                 else if m.evidenceIds == [] then Err(Uncited)
                 else if exists e :: e in m.evidenceIds && e !in l.events then Err(UnknownEvidence)
                 else if exists v :: v in l.versions && v.id == m.id && v.kind != m.kind then Err(IdentityChanged)
                 else if exists x :: x in m.supersedes && forall v :: v in l.versions ==> v.versionId != x then Err(UnknownSuperseded)
                 else if Repeats(m.evidenceIds) || Repeats(m.supersedes) then Err(RepeatedEdge)
                 else Ok(())
  {
    RepeatsIff(m.evidenceIds);
    RepeatsIff(m.supersedes);
    UnknownIff(l, m.supersedes);
    assert IsWellFormed(m) == ValidRecord(m);
    assert Append(l, m).1.Ok? ==> Append(l, m).1.value == ();
    if v :| v in l.versions && v.versionId == m.versionId && IsReplay(v, m) {
      assert v.id == m.id && v.title == m.title && v.content == m.content;
    }
    hide ValidRecord, IsWellFormed, Distinct, Repeats;
  }

  predicate Repeats(ids: seq<Uuid>) {
    exists i, j :: 0 <= i < j < |ids| && ids[i] == ids[j]
  }

  lemma RepeatsIff(ids: seq<Uuid>)
    ensures Repeats(ids) <==> !Distinct(ids)
  {
  }

  lemma UnknownIff(l: Ledger, ids: seq<Uuid>)
    ensures Known(ids, VersionIds(l.versions)) <==> !(exists x :: x in ids && forall v :: v in l.versions ==> v.versionId != x)
  {
    forall x ensures x in VersionIds(l.versions) <==> exists v :: v in l.versions && v.versionId == x {
    }
  }

  lemma LiveAfterForget(l: Ledger, id: Uuid)
    ensures LiveMemories(Forget(l, id).0) == Filter(LiveMemories(l), Fix.NotAmong({id}))
  {
    var l1 := Forget(l, id).0;
    forall v | v in l.versions ensures IsLive(l1)(v) == (Live(l, v) && Fix.NotAmong({id})(v)) {
      LiveUnlessForgotten(l, id, v);
    }
    assert l1.versions == l.versions;
    hide Forget, Filter, Live;
    var both := (v: MemoryRecord) => Live(l, v) && Fix.NotAmong({id})(v);
    FilterDependsOnMembers(l.versions, IsLive(l1), both);
    FilterTwice(l.versions, IsLive(l), Fix.NotAmong({id}), both);
  }

  lemma LiveUnlessForgotten(l: Ledger, id: Uuid, v: MemoryRecord)
    requires v in l.versions
    ensures Live(Forget(l, id).0, v) <==> Live(l, v) && v.id != id
  {
    LatestIsStored(l.versions, id);
    hide Latest, Supersession.Edges;
  }

  /** Withdrawing a stored memory hides it and its live version, and touches no other. */
  lemma ForgetSays(l: Ledger, id: Uuid)
    ensures var (l1, found) := Forget(l, id);
            && (found <==> exists v :: v in l.versions && v.id == id)
            && l1.versions == l.versions && l1.events == l.events
            && CurrentMemory(l1, id) == None
            && (forall other :: other != id ==> CurrentMemory(l1, other) == CurrentMemory(l, other))
            && LiveMemories(l1) == Filter(LiveMemories(l), Fix.NotAmong({id}))
  {
    LatestIsStored(l.versions, id);
    LiveAfterForget(l, id);
    hide Latest, Filter, LiveMemories;
  }

  // ----- What is live -----

  /** The newest version of its memory. */
  predicate IsNewest(versions: seq<MemoryRecord>, i: nat) {
    i < |versions| && forall j :: i < j < |versions| ==> versions[j].id != versions[i].id
  }

  lemma {:induction false} NewestIsLatest(versions: seq<MemoryRecord>, i: nat)
    requires IsNewest(versions, i)
    ensures Latest(versions, versions[i].id) == Some(versions[i])
  {
    var n := |versions| - 1;
    if i < n {
      var front := versions[..n];
      assert IsNewest(front, i) && front[i] == versions[i];
      NewestIsLatest(front, i);
    }
  }

  lemma {:induction false} LatestIsNewest(versions: seq<MemoryRecord>, id: Uuid) returns (i: nat)
    requires Latest(versions, id).Some?
    ensures IsNewest(versions, i) && Latest(versions, id) == Some(versions[i]) && versions[i].id == id
  {
    var n := |versions| - 1;
    if versions[n].id == id {
      i := n;
    } else {
      i := LatestIsNewest(versions[..n], id);
      assert versions[i] == versions[..n][i];
    }
  }

  lemma LatestIff(versions: seq<MemoryRecord>, v: MemoryRecord)
    ensures Latest(versions, v.id) == Some(v) <==> exists i: nat :: IsNewest(versions, i) && versions[i] == v
  {
    hide Latest;
    if Latest(versions, v.id) == Some(v) {
      var i := LatestIsNewest(versions, v.id);
      assert IsNewest(versions, i) && versions[i] == v;
    }
    if i: nat :| IsNewest(versions, i) && versions[i] == v {
      NewestIsLatest(versions, i);
    }
  }

  /** Exactly which versions are live: the newest of a memory, current or in conflict, that nobody withdrew or superseded. */
  lemma LiveIff(l: Ledger, v: MemoryRecord)
    ensures v in LiveMemories(l) <==>
              && (exists i: nat :: IsNewest(l.versions, i) && l.versions[i] == v)
              && (v.status == Current || v.status == Conflict) && v.id !in l.withdrawn
              && forall u :: u in l.versions ==> v.versionId !in u.supersedes
  {
    LatestIff(l.versions, v);
    LatestIsStored(l.versions, v.id);
    hide Latest, IsNewest;
    assert v in LiveMemories(l) <==> v in l.versions && Live(l, v);
    assert v.versionId !in Supersession.Edges(l.versions) <==> forall u :: u in l.versions ==> v.versionId !in u.supersedes;
  }

  // ----- A version appended to the ledger -----

  /** The newest version of its memory, and no other memory's. */
  lemma AppendedIsCurrent(l: Ledger, m: MemoryRecord)
    ensures var l1 := Appended(l, m);
            && CurrentMemory(l1, m.id) == (if m.id in l.withdrawn then None else Some(m))
            && forall other :: other != m.id ==> CurrentMemory(l1, other) == CurrentMemory(l, other)
  {
    forall id ensures Latest(l.versions + [m], id) == if m.id == id then Some(m) else Latest(l.versions, id) {
      LatestAfterAppend(l.versions, m, id);
    }
    hide Latest;
  }

  // ----- Ruling -----

  /** A ruling: the same claim, with no edge, current or invalid; and how it is refused. */
  lemma RulingSays(l: Ledger, id: Uuid, approve: bool, now: int)
    requires Sound(l)
    ensures var memory := CurrentMemory(l, id);
            var (l1, result) := Rule(l, id, approve, now);
            if memory == None then l1 == l && result == Err(NoSuchMemory)
            else if memory.value.status != Proposed then l1 == l && result == Err(NotProposed(memory.value.status))
            else
              && result.Ok? && CurrentMemory(l1, id) == Some(result.value)
              && SameClaim(result.value, memory.value) && result.value.recordedAt == now && result.value.supersedes == []
              && result.value.status == (if approve then Current else Invalid)
              && forall other :: other != id ==> CurrentMemory(l1, other) == CurrentMemory(l, other)
  {
    var memory := CurrentMemory(l, id);
    if memory.Some? && memory.value.status == Proposed {
      var ruled := Ruled(memory.value, approve, FreshId(l.versions), now);
      CurrentIsStored(l, id);
      RuledIsAcceptable(l, memory.value, approve, now);
      Fix.AcceptedAppend(l, ruled);
      AppendedIsCurrent(l, ruled);
    }
    hide Append, Acceptable, Sound, Latest, FreshId, CurrentMemory;
  }

  // ----- Filing -----

  /** The versions named by a list of memories, one for each, in its order. */
  ghost predicate VersionsNamed(l: Ledger, ids: seq<Uuid>, versions: seq<Uuid>) {
    && |versions| == |ids|
    && forall i :: 0 <= i < |ids| ==> CurrentMemory(l, ids[i]).Some? && CurrentMemory(l, ids[i]).value.versionId == versions[i]
  }

  lemma {:induction false} VersionsToSupersedeSays(l: Ledger, ids: seq<Uuid>)
    ensures VersionsToSupersede(l, ids).Ok? ==> VersionsNamed(l, ids, VersionsToSupersede(l, ids).value)
    ensures VersionsToSupersede(l, ids).Ok? <==> forall i :: 0 <= i < |ids| ==> CurrentMemory(l, ids[i]).Some?
    ensures VersionsToSupersede(l, ids).Err? ==>
              var missing := VersionsToSupersede(l, ids).error;
              exists i :: 0 <= i < |ids| && ids[i] == missing && CurrentMemory(l, ids[i]) == None
                          && forall j :: 0 <= j < i ==> CurrentMemory(l, ids[j]).Some?
  {
    hide CurrentMemory;
    if ids != [] && CurrentMemory(l, ids[0]).Some? {
      VersionsToSupersedeSays(l, ids[1..]);
      var rest := VersionsToSupersede(l, ids[1..]);
      assert forall i :: 0 < i < |ids| ==> ids[i] == ids[1..][i - 1];
      if rest.Err? {
        var i :| 0 <= i < |ids[1..]| && ids[1..][i] == rest.error && CurrentMemory(l, ids[1..][i]) == None
                 && forall j :: 0 <= j < i ==> CurrentMemory(l, ids[1..][j]).Some?;
        assert ids[i + 1] == rest.error;
        forall j | 0 <= j < i + 1 ensures CurrentMemory(l, ids[j]).Some? {
          assert j > 0 ==> CurrentMemory(l, ids[1..][j - 1]).Some?;
        }
      }
    }
  }

  /** What is filed: a new memory with the request's own text, trimmed, and citations, current from now on, over the named versions. */
  ghost predicate IsFiled(l: Ledger, request: RememberRequest, m: MemoryRecord) {
    && Latest(l.versions, m.id) == None
    && m.scope == Project(l.project) && m.kind == request.kind && m.title == Trim(request.title) && m.content == Trim(request.content)
    && m.validFrom == m.recordedAt == request.now && m.validTo == None && m.confidence == request.confidence
    && m.authority == HumanCorrection && m.evidenceIds == request.evidenceIds && m.status == Current
    && VersionsNamed(l, request.supersedes, m.supersedes)
  }

  lemma FiledSays(l: Ledger, request: RememberRequest)
    requires VersionsToSupersede(l, request.supersedes).Ok?
    ensures IsFiled(l, request, Filed(l, request, VersionsToSupersede(l, request.supersedes).value))
    ensures Filed(l, request, VersionsToSupersede(l, request.supersedes).value).versionId == FreshId(l.versions) + 1
    ensures Filed(l, request, VersionsToSupersede(l, request.supersedes).value).evidenceIds == request.evidenceIds
  {
    VersionsToSupersedeSays(l, request.supersedes);
    FreshIds(l);
    LatestIsStored(l.versions, FreshId(l.versions));
    hide VersionsToSupersede, VersionsNamed, Latest, FreshId, Trim;
  }

  /** Filing: what is stored when it succeeds, and how it is refused, with the ledger left as it was. */
  lemma FilingSays(l: Ledger, request: RememberRequest)
    ensures var (l1, result) := Remember(l, request);
            && (result.Ok? ==>
                  && IsFiled(l, request, result.value) && l1 == l.(versions := l.versions + [result.value])
                  && request.evidenceIds != [] && forall e :: e in request.evidenceIds ==> e in l.events)
            && (result.Err? ==> l1 == l)
            && (Trim(request.title) == [] ==> result == Err(NoTitle))
            && (Trim(request.title) != [] && Trim(request.content) == [] ==> result == Err(NoContent))
            && (Trim(request.title) != [] && Trim(request.content) != [] && request.evidenceIds == [] ==> result == Err(NoEvidence))
            && (result.Err? && result.error.NothingToSupersede? ==>
                  result.error.id in request.supersedes && CurrentMemory(l, result.error.id) == None)
  {
    hide *;
    VersionsToSupersedeSays(l, request.supersedes);
    FilingUnfolds(l, request);
    if VersionsToSupersede(l, request.supersedes).Ok? {
      FiledSays(l, request);
      var m := Filed(l, request, VersionsToSupersede(l, request.supersedes).value);
      AppendGrowsIff(l, m);
      FiledIsNoReplay(l, m);
      AcceptableCites(l, m);
      AppendedIs(l, m);
    }
  }

  lemma AppendedIs(l: Ledger, m: MemoryRecord)
    ensures Appended(l, m) == l.(versions := l.versions + [m])
  {
  }

  lemma FilingUnfolds(l: Ledger, request: RememberRequest)
    ensures Remember(l, request)
         == if Trim(request.title) == [] then (l, Err(NoTitle))
            else if Trim(request.content) == [] then (l, Err(NoContent))
            else if request.evidenceIds == [] then (l, Err(NoEvidence))
            else
              var versions := VersionsToSupersede(l, request.supersedes);
              if versions.Err? then (l, Err(NothingToSupersede(versions.error)))
              else
                var record := Filed(l, request, versions.value);
                var (l1, appended) := Append(l, record);
                (l1, if appended.Err? then Err(AppendFailed(appended.error)) else Ok(record))
  {
    hide VersionsToSupersede, Filed, Append, Trim;
  }

  lemma FiledIsNoReplay(l: Ledger, m: MemoryRecord)
    ensures m.versionId == FreshId(l.versions) + 1 ==> forall v :: v in l.versions ==> v.versionId != m.versionId
  {
    FreshIds(l);
    hide FreshId;
    forall v | v in l.versions && m.versionId == FreshId(l.versions) + 1 ensures v.versionId != m.versionId {
      assert v.versionId in VersionIds(l.versions);
    }
  }

  lemma AcceptableCites(l: Ledger, m: MemoryRecord)
    ensures Acceptable(l, m) ==> m.evidenceIds != [] && forall e :: e in m.evidenceIds ==> e in l.events
  {
    hide ValidRecord;
  }

  // ----- Repairing dates -----

  /** The same claim, under another date. */
  predicate RedatedFrom(m: MemoryRecord, was: MemoryRecord, date: int, now: int) {
    && m.validFrom == date && m.recordedAt == now && m.versionId != was.versionId
    && SameClaim(m.(validFrom := was.validFrom), was) && m.status == was.status && m.supersedes == was.supersedes
  }

  /** A date was found for the claim: some event it cites is dated a year or more after the epoch. */
  predicate IsDatable(was: MemoryRecord, derived: map<Uuid, int>) {
    was.versionId in derived && derived[was.versionId] >= 31_536_000_000_000_000
  }

  /** How a repair leaves a misdated claim: redated, if a date was found, and otherwise alone. */
  ghost predicate IsRepaired(l1: Ledger, was: MemoryRecord, derived: map<Uuid, int>, now: int) {
    var found := Latest(l1.versions, was.id);
    && found.Some?
    && (IsDatable(was, derived) ==> RedatedFrom(found.value, was, derived[was.versionId], now))
    && (!IsDatable(was, derived) ==> found.value == was)
  }

  lemma RepairOneSays(l: Ledger, report: DateRepairReport, m: MemoryRecord, derived: map<Uuid, int>, now: int)
    requires m in l.versions && Latest(l.versions, m.id) == Some(m) && RepairOne(l, report, m, derived, now).1.Ok?
    ensures var (l1, result) := RepairOne(l, report, m, derived, now);
            && IsRepaired(l1, m, derived, now)
            && (forall id :: id != m.id ==> Latest(l1.versions, id) == Latest(l.versions, id))
            && l.versions <= l1.versions
            && result.value.repaired == report.repaired + (if IsDatable(m, derived) then 1 else 0)
            && result.value.unresolvable == report.unresolvable + (if IsDatable(m, derived) then 0 else 1)
  {
    if IsDatable(m, derived) {
      var redated := Redated(m, derived[m.versionId], FreshId(l.versions), now);
      AppendGrowsIff(l, redated);
      FreshVersion(l);
      FreshIdIsUnused(l.versions, m);
      VersionIsNew(l);
      hide FreshId, Append, Acceptable, Latest, ValidRecord, VersionIds;
      forall id ensures Latest(l.versions + [redated], id) == if redated.id == id then Some(redated) else Latest(l.versions, id) {
        LatestAfterAppend(l.versions, redated, id);
      }
    }
  }

  lemma VersionIsNew(l: Ledger)
    ensures forall v :: v in l.versions ==> v.versionId != FreshId(l.versions)
  {
    FreshVersion(l);
    hide FreshId;
    forall v | v in l.versions ensures v.versionId != FreshId(l.versions) {
      assert v.versionId in VersionIds(l.versions);
    }
  }

  function CountDatable(memories: seq<MemoryRecord>, derived: map<Uuid, int>): nat {
    if memories == [] then 0
    else CountDatable(memories[..|memories| - 1], derived) + if IsDatable(memories[|memories| - 1], derived) then 1 else 0
  }

  lemma RepairUnfolds(l: Ledger, memories: seq<MemoryRecord>, derived: map<Uuid, int>, now: int)
    requires memories != [] && RepairEach(l, memories, derived, now).1.Ok?
    ensures var (before, result) := RepairEach(l, memories[..|memories| - 1], derived, now);
            result.Ok? && RepairEach(l, memories, derived, now) == RepairOne(before, result.value, memories[|memories| - 1], derived, now)
  {
    hide RepairOne;
  }

  lemma {:induction false} RepairsCount(l: Ledger, memories: seq<MemoryRecord>, derived: map<Uuid, int>, now: int)
    requires (forall m :: m in memories ==> m in l.versions && Latest(l.versions, m.id) == Some(m))
    requires forall i, j :: 0 <= i < j < |memories| ==> memories[i].id != memories[j].id
    requires RepairEach(l, memories, derived, now).1.Ok?
    ensures CountDatable(memories, derived) <= |memories|
    ensures RepairEach(l, memories, derived, now).1.value
         == DateRepairReport(CountDatable(memories, derived), |memories| - CountDatable(memories, derived))
  {
    if memories != [] {
      var front, last := memories[..|memories| - 1], memories[|memories| - 1];
      assert memories == front + [last];
      RepairUnfolds(l, memories, derived, now);
      hide RepairOne, RepairEach, Latest, IsDatable, IsRepaired;
      RepairsCount(l, front, derived, now);
      RepairLeavesOthers(l, front, derived, now, last.id);
      RepairsSay(l, front, derived, now, last.id);
      var before, result := RepairEach(l, front, derived, now).0, RepairEach(l, front, derived, now).1.value;
      RepairOneSays(before, result, last, derived, now);
    }
  }

  /** A run of repairs over different memories. */
  lemma {:induction false} RepairsSay(l: Ledger, memories: seq<MemoryRecord>, derived: map<Uuid, int>, now: int, id: Uuid)
    requires (forall m :: m in memories ==> m in l.versions && Latest(l.versions, m.id) == Some(m))
    requires forall i, j :: 0 <= i < j < |memories| ==> memories[i].id != memories[j].id
    requires RepairEach(l, memories, derived, now).1.Ok?
    ensures var l1 := RepairEach(l, memories, derived, now).0;
            && l.versions <= l1.versions
            && (forall m :: m in memories && m.id == id ==> IsRepaired(l1, m, derived, now))
            && ((forall m :: m in memories ==> m.id != id) ==> Latest(l1.versions, id) == Latest(l.versions, id))
  {
    if memories != [] {
      var front, last := memories[..|memories| - 1], memories[|memories| - 1];
      assert memories == front + [last] && last in memories;
      RepairUnfolds(l, memories, derived, now);
      hide RepairOne, RepairEach, Latest, IsDatable, IsRepaired;
      RepairsSay(l, front, derived, now, id);
      var before, result := RepairEach(l, front, derived, now).0, RepairEach(l, front, derived, now).1.value;
      RepairLeavesOthers(l, front, derived, now, last.id);
      RepairOneSays(before, result, last, derived, now);
      var l1 := RepairEach(l, memories, derived, now).0;
      forall m | m in memories && m.id == id ensures IsRepaired(l1, m, derived, now) {
        if m in front {
          RepairStays(before, l1, m, derived, now);
        }
      }
    }
  }

  lemma RepairStays(l: Ledger, l1: Ledger, m: MemoryRecord, derived: map<Uuid, int>, now: int)
    requires IsRepaired(l, m, derived, now) && Latest(l1.versions, m.id) == Latest(l.versions, m.id)
    ensures IsRepaired(l1, m, derived, now)
  {
  }

  /** Live, and dated within a year of the epoch. */
  ghost predicate IsUndated(l: Ledger, m: MemoryRecord) {
    m in LiveMemories(l) && m.validFrom < 31_536_000_000_000_000
  }

  lemma UndatedOnes(l: Ledger)
    requires Sound(l)
    ensures var misdated := Filter(LiveMemories(l), Misdated);
            && (forall m :: m in misdated ==> m in l.versions && Latest(l.versions, m.id) == Some(m))
            && (forall m :: m in misdated <==> IsUndated(l, m))
            && forall i, j :: 0 <= i < j < |misdated| ==> misdated[i].id != misdated[j].id
  {
    var misdated := Filter(LiveMemories(l), Misdated);
    MisdatedAreSides(l);
    forall m | m in misdated ensures m in l.versions && Latest(l.versions, m.id) == Some(m) {
      LiveIsCurrent(l, m);
    }
    hide LiveMemories, Latest, Sound;
  }

  /** The undated claims for which a date was found, or was not. */
  ghost function Undated(l: Ledger, derived: map<Uuid, int>, found: bool): set<MemoryRecord> {
    set m | m in LiveMemories(l) && IsUndated(l, m) && IsDatable(m, derived) == found
  }

  /**
   What a successful repair leaves: every live claim without a date is redated if one was found for it,
   and says the same; every other memory is untouched; and the report counts both kinds of claims.
   */
  lemma RepairSays(l: Ledger, derived: map<Uuid, int>, now: int, id: Uuid)
    requires Sound(l) && RepairDates(l, derived, now).1.Ok?
    ensures var (l1, result) := RepairDates(l, derived, now);
            && (forall m :: IsUndated(l, m) && m.id == id ==> IsRepaired(l1, m, derived, now))
            && ((forall m :: IsUndated(l, m) ==> m.id != id) ==> Latest(l1.versions, id) == Latest(l.versions, id))
            && result.value.repaired == |Undated(l, derived, true)|
            && result.value.unresolvable == |Undated(l, derived, false)|
  {
    hide *;
    var misdated := Filter(LiveMemories(l), Misdated);
    UndatedOnes(l);
    RepairsAre(l, derived, now);
    RepairsSay(l, misdated, derived, now, id);
    RepairsCount(l, misdated, derived, now);
    CountedOnce(misdated, derived, true);
    CountedOnce(misdated, derived, false);
    UndatedIs(l, misdated, derived, true);
    UndatedIs(l, misdated, derived, false);
  }

  lemma RepairsAre(l: Ledger, derived: map<Uuid, int>, now: int)
    ensures RepairDates(l, derived, now) == RepairEach(l, Filter(LiveMemories(l), Misdated), derived, now)
  {
  }

  function Datable(memories: seq<MemoryRecord>, derived: map<Uuid, int>, found: bool): set<MemoryRecord> {
    set m | m in memories && IsDatable(m, derived) == found
  }

  lemma UndatedIs(l: Ledger, misdated: seq<MemoryRecord>, derived: map<Uuid, int>, found: bool)
    requires forall m :: m in misdated <==> IsUndated(l, m)
    ensures Undated(l, derived, found) == Datable(misdated, derived, found)
  {
    forall m ensures m in Undated(l, derived, found) <==> m in Datable(misdated, derived, found) {
      UndatedIsLive(l, m);
    }
  }

  lemma UndatedIsLive(l: Ledger, m: MemoryRecord)
    ensures IsUndated(l, m) ==> m in LiveMemories(l)
  {
  }

  lemma {:induction false} CountedOnce(memories: seq<MemoryRecord>, derived: map<Uuid, int>, found: bool)
    requires forall i, j :: 0 <= i < j < |memories| ==> memories[i].id != memories[j].id
    ensures CountDatable(memories, derived) <= |memories|
    ensures |Datable(memories, derived, found)|
         == if found then CountDatable(memories, derived) else |memories| - CountDatable(memories, derived)
  {
    hide IsDatable;
    if memories != [] {
      var front, last := memories[..|memories| - 1], memories[|memories| - 1];
      assert memories == front + [last];
      CountedOnce(front, derived, found);
      DatableGrows(front, last, derived, found);
      hide Datable;
    }
  }

  lemma DatableGrows(front: seq<MemoryRecord>, last: MemoryRecord, derived: map<Uuid, int>, found: bool)
    requires last !in front
    ensures |Datable(front + [last], derived, found)|
         == |Datable(front, derived, found)| + if IsDatable(last, derived) == found then 1 else 0
  {
    hide IsDatable;
    var more := if IsDatable(last, derived) == found then {last} else {};
    assert Datable(front + [last], derived, found) == Datable(front, derived, found) + more;
  }

  // ----- Correcting -----

  /** What a written correction holds: the request's own text and evidence, with its audit event, over the version it corrects. */
  lemma CorrectionSays(l: Ledger, r: CorrectionRequest)
    requires Sound(l) && Writes(l, r)
    ensures var (l1, result) := Correct(l, r);
            var id := if r.memoryId == None then r.derivedMemory else r.memoryId.value;
            var current := CurrentMemory(l, id);
            && result.Ok? && result.value.Corrected?
            && var m := result.value.memory;
               && m.id == id && m.versionId == r.derivedVersion && m.scope == Project(l.project)
               && m.title == r.title && m.content == r.content && m.recordedAt == r.now && m.validTo == None
               && m.validFrom == (if r.validFrom == None then r.now else r.validFrom.value)
               && m.confidence == r.confidence && m.authority == HumanCorrection && m.status == Current
               && Increasing(m.evidenceIds) && (forall e :: e in m.evidenceIds <==> e in r.evidenceIds || e == r.correctionId)
               && m.supersedes == (if current == None then [] else [current.value.versionId])
               && m.kind != Preference
               && (if current == None then r.kind == Some(m.kind) else m.kind == current.value.kind && (r.kind == None || r.kind == Some(m.kind)))
               && (id !in l.withdrawn ==> CurrentMemory(l1, id) == Some(m))
               && forall other :: other != id ==> CurrentMemory(l1, other) == CurrentMemory(l, other)
  {
    CorrectionIsAppended(l, r);
    CorrectedFields(l, r);
    CorrectionWritesIff(l, r);
    var m := Correct(l, r).1.value.memory;
    SortedIdsIncrease(r.evidenceIds + [r.correctionId]);
    forall e ensures e in m.evidenceIds <==> e in r.evidenceIds || e == r.correctionId {
      SortedIdsMembers(r.evidenceIds + [r.correctionId], e);
    }
    AppendedIsCurrent(WithEvent(l, r.correctionId), m);
    forall id ensures CurrentMemory(WithEvent(l, r.correctionId), id) == CurrentMemory(l, id) {
      SameCurrent(l, r.correctionId, id);
    }
    PassesKind(l, r);
    hide Correct, Sound, Latest, SortedIds, Increasing, CurrentMemory, Writes, Acceptable;
  }

  lemma PassesKind(l: Ledger, r: CorrectionRequest)
    requires Writes(l, r)
    ensures KindFor(CurrentMemory(l, TargetOf(r)), r.kind).Ok? && KindFor(CurrentMemory(l, TargetOf(r)), r.kind).value != Preference
  {
  }

  /** How a correction is refused before anything is stored, and when it is a replay. */
  lemma CorrectionRefusals(l: Ledger, r: CorrectionRequest)
    ensures var result := Correct(l, r).1;
            var id := if r.memoryId == None then r.derivedMemory else r.memoryId.value;
            var current := CurrentMemory(l, id);
            && (Trim(r.title) == [] ==> result == Err(TitleRequired))
            && (Trim(r.title) != [] && Trim(r.content) == [] ==> result == Err(ContentRequired))
            && (Trim(r.title) != [] && Trim(r.content) != [] ==>
                  && ((exists e :: e in r.evidenceIds && e !in l.events) ==> result == Err(ForeignEvidence))
                  && ((forall e :: e in r.evidenceIds ==> e in l.events) ==>
                        if FindVersion(l.versions, r.derivedVersion).Some? then
                          result == Ok(Replayed(FindVersion(l.versions, r.derivedVersion).value))
                        else if current == None && r.kind == None then result == Err(KindRequired)
                        else if current != None && r.kind != None && r.kind.value != current.value.kind then result == Err(KindChanged)
                        else if r.kind == Some(Preference) || (current != None && current.value.kind == Preference) then
                          result == Err(GlobalPreference)
                        else result.Err? ==> result.error.NotAppended?))
  {
    hide Append, CurrentMemory, Trim, FindVersion, CorrectedRecord;
  }

  lemma {:induction false} FoundSays(versions: seq<MemoryRecord>, version: Uuid)
    ensures FindVersion(versions, version).Some? ==>
              FindVersion(versions, version).value in versions && FindVersion(versions, version).value.versionId == version
  {
    if versions != [] {
      FoundSays(versions[1..], version);
    }
  }
}
