/** Merging two claims: what a proposed merge must satisfy, and how the merged claim is written. */
module Merge {
  import opened Common
  import opened Text
  import opened Sequences
  import opened Memory
  import opened Supersession
  import opened MemoryLedger
  import opened Reconcile
  import Fix = ReconcileFixpoint

  datatype ProposedMerge = ProposedMerge(title: string, content: string, evidenceIds: seq<Uuid>)

  datatype ValidatedMerge = ValidatedMerge(title: string, content: string, evidenceIds: seq<Uuid>)

  datatype MergeRejection =
    | EmptyTitle
    | EmptyContent
    | ForeignCitation(eventId: Uuid)
    | NothingCited
    | NotShorter(merged: nat, inputs: nat)
    | LostNewEvidence(missing: seq<Uuid>)

  datatype MergeInputs = MergeInputs(olderContent: string, newerContent: string, allowed: seq<Uuid>, unseen: seq<Uuid>)

  // ----- Sorted lists without repeats -----

  function InsertId(id: Uuid, ids: seq<Uuid>): seq<Uuid> {
    if ids == [] then [id]
    else if id == ids[0] then ids
    else if id < ids[0] then [id] + ids
    else [ids[0]] + InsertId(id, ids[1..])
  }

  /** Sort and drop repeats. */
  function SortedIds(ids: seq<Uuid>): seq<Uuid> {
    if ids == [] then [] else InsertId(ids[|ids| - 1], SortedIds(ids[..|ids| - 1]))
  }

  predicate Increasing(ids: seq<Uuid>) {
    forall i, j :: 0 <= i < j < |ids| ==> ids[i] < ids[j]
  }

  lemma {:induction false} InsertIdMembers(id: Uuid, ids: seq<Uuid>, x: Uuid)
    ensures x in InsertId(id, ids) <==> x in ids || x == id
  {
    if ids != [] && id > ids[0] {
      InsertIdMembers(id, ids[1..], x);
      assert ids == [ids[0]] + ids[1..];
    }
  }

  lemma {:induction false} InsertIdIncreases(id: Uuid, ids: seq<Uuid>)
    requires Increasing(ids)
    ensures Increasing(InsertId(id, ids))
  {
    if ids != [] && id > ids[0] {
      InsertIdIncreases(id, ids[1..]);
      var r := InsertId(id, ids[1..]);
      forall j | 0 <= j < |r| ensures ids[0] < r[j] {
        InsertIdMembers(id, ids[1..], r[j]);
      }
    }
  }

  lemma {:induction false} SortedIdsMembers(ids: seq<Uuid>, x: Uuid)
    ensures x in SortedIds(ids) <==> x in ids
  {
    if ids != [] {
      var front := ids[..|ids| - 1];
      assert ids == front + [ids[|ids| - 1]];
      SortedIdsMembers(front, x);
      InsertIdMembers(ids[|ids| - 1], SortedIds(front), x);
    }
  }

  lemma {:induction false} SortedIdsIncrease(ids: seq<Uuid>)
    ensures Increasing(SortedIds(ids))
  {
    if ids != [] {
      SortedIdsIncrease(ids[..|ids| - 1]);
      InsertIdIncreases(ids[|ids| - 1], SortedIds(ids[..|ids| - 1]));
    }
  }

  // ----- The rules -----

  function FirstForeign(ids: seq<Uuid>, allowed: seq<Uuid>): Option<Uuid> {
    if ids == [] then None
    else if ids[0] !in allowed then Some(ids[0])
    else FirstForeign(ids[1..], allowed)
  }

  function NotIn(ids: seq<Uuid>): Uuid -> bool {
    x => x !in ids
  }

  function ValidateMerge(p: ProposedMerge, inputs: MergeInputs): Result<ValidatedMerge, MergeRejection> {
    var title, content := Trim(p.title), Trim(p.content);
    if title == [] then Err(EmptyTitle)
    else if content == [] then Err(EmptyContent)
    else if p.evidenceIds == [] then Err(NothingCited)
    else
      var foreign := FirstForeign(p.evidenceIds, inputs.allowed);
      if foreign.Some? then Err(ForeignCitation(foreign.value))
      else
        var length := |Trim(inputs.olderContent)| + |Trim(inputs.newerContent)|;
        if |content| >= length then Err(NotShorter(|content|, length))
        else
          var missing := Filter(inputs.unseen, NotIn(p.evidenceIds));
          if missing != [] then Err(LostNewEvidence(missing))
          else Ok(ValidatedMerge(title, content, SortedIds(p.evidenceIds)))
  }

  lemma {:induction false} NoneForeignIff(ids: seq<Uuid>, allowed: seq<Uuid>)
    ensures FirstForeign(ids, allowed).None? <==> forall x :: x in ids ==> x in allowed
    ensures FirstForeign(ids, allowed).Some? ==> FirstForeign(ids, allowed).value in ids && FirstForeign(ids, allowed).value !in allowed
  {
    if ids != [] {
      NoneForeignIff(ids[1..], allowed);
      assert ids == [ids[0]] + ids[1..];
    }
  }

  /**
   The contract of validation, both ways. A merge passes exactly when it has a title and a content,
   cites something, cites only what the pair cites, keeps what only the newer side saw, and is
   shorter than the two claims together; what passes is trimmed, and its citations are the proposed
   ones in increasing order without repeats.
   */
  lemma ValidationMeans(p: ProposedMerge, inputs: MergeInputs)
    ensures ValidateMerge(p, inputs).Ok? <==>
              && Trim(p.title) != [] && Trim(p.content) != [] && p.evidenceIds != []
              && (forall x :: x in p.evidenceIds ==> x in inputs.allowed)
              && (forall x :: x in inputs.unseen ==> x in p.evidenceIds)
              && |Trim(p.content)| < |Trim(inputs.olderContent)| + |Trim(inputs.newerContent)|
    ensures ValidateMerge(p, inputs).Ok? ==>
              var v := ValidateMerge(p, inputs).value;
              && v.title == Trim(p.title) && v.content == Trim(p.content)
              && Increasing(v.evidenceIds) && forall x :: x in v.evidenceIds <==> x in p.evidenceIds
  {
    NoneForeignIff(p.evidenceIds, inputs.allowed);
    SortedIdsIncrease(p.evidenceIds);
    forall x ensures x in SortedIds(p.evidenceIds) <==> x in p.evidenceIds {
      SortedIdsMembers(p.evidenceIds, x);
    }
    NothingMissingIff(inputs.unseen, p.evidenceIds);
    hide Trim, FirstForeign, SortedIds, Increasing, Filter;
  }

  /** The first citation that neither side of the pair has. */
  ghost predicate IsFirstForeign(ids: seq<Uuid>, allowed: seq<Uuid>, i: nat) {
    i < |ids| && ids[i] !in allowed && forall j :: 0 <= j < i ==> ids[j] in allowed
  }

  lemma {:induction false} FirstForeignSays(ids: seq<Uuid>, allowed: seq<Uuid>, i: nat)
    requires IsFirstForeign(ids, allowed, i)
    ensures FirstForeign(ids, allowed) == Some(ids[i])
  {
    if i > 0 {
      assert ids[0] in allowed;
      FirstForeignSays(ids[1..], allowed, i - 1);
    }
  }

  /** The refusal lists what only the newer side saw that is not cited. */
  ghost predicate LosesOnly(error: MergeRejection, unseen: seq<Uuid>, cited: seq<Uuid>) {
    error.LostNewEvidence? && forall x :: x in error.missing <==> x in unseen && x !in cited
  }

  /**
   Why a merge is refused, each reason once those before it are met: no title, no content, nothing cited,
   a citation of neither side, a content that is not shorter than both together, and something only the
   newer side saw that is no longer cited.
   */
  lemma RejectionSays(p: ProposedMerge, inputs: MergeInputs)
    ensures var result := ValidateMerge(p, inputs);
            var merged, both := |Trim(p.content)|, |Trim(inputs.olderContent)| + |Trim(inputs.newerContent)|;
            if Trim(p.title) == "" then result == Err(EmptyTitle)
            else if Trim(p.content) == "" then result == Err(EmptyContent)
            else if p.evidenceIds == [] then result == Err(NothingCited)
            else if exists x :: x in p.evidenceIds && x !in inputs.allowed then
              exists i: nat :: IsFirstForeign(p.evidenceIds, inputs.allowed, i) && result == Err(ForeignCitation(p.evidenceIds[i]))
            else if merged >= both then result == Err(NotShorter(merged, both))
            else result.Ok? || LosesOnly(result.error, inputs.unseen, p.evidenceIds)
  {
    NoneForeignIff(p.evidenceIds, inputs.allowed);
    if exists x :: x in p.evidenceIds && x !in inputs.allowed {
      var i := FindForeign(p.evidenceIds, inputs.allowed);
      FirstForeignSays(p.evidenceIds, inputs.allowed, i);
    }
    MissingIs(inputs.unseen, p.evidenceIds);
    hide Trim, FirstForeign, SortedIds, Increasing, IsFirstForeign, Filter, NotIn, LosesOnly;
  }

  lemma MissingIs(unseen: seq<Uuid>, cited: seq<Uuid>)
    ensures LosesOnly(LostNewEvidence(Filter(unseen, NotIn(cited))), unseen, cited)
  {
    forall x ensures x in Filter(unseen, NotIn(cited)) <==> x in unseen && x !in cited {
      assert NotIn(cited)(x) <==> x !in cited;
    }
  }

  lemma {:induction false} FindForeign(ids: seq<Uuid>, allowed: seq<Uuid>) returns (i: nat)
    requires exists x :: x in ids && x !in allowed
    ensures IsFirstForeign(ids, allowed, i)
  {
    if ids[0] !in allowed {
      i := 0;
    } else {
      assert ids == [ids[0]] + ids[1..];
      i := FindForeign(ids[1..], allowed);
      i := i + 1;
      assert ids[i] == ids[1..][i - 1];
    }
  }

  lemma NothingMissingIff(unseen: seq<Uuid>, cited: seq<Uuid>)
    ensures Filter(unseen, NotIn(cited)) == [] <==> forall x :: x in unseen ==> x in cited
  {
    if forall x :: x in unseen ==> x in cited {
      FilterNone(unseen, NotIn(cited));
    } else {
      var x :| x in unseen && x !in cited;
      assert x in Filter(unseen, NotIn(cited));
    }
  }

  // ----- Writing a merge -----

  function StrongerAuthority(older: MemoryRecord, newer: MemoryRecord): Authority {
    if Rank(older) >= Rank(newer) then older.authority else newer.authority
  }

  /** The merged claim: a new memory that takes the newer side's place in time. */
  function Merged(l: Ledger, older: MemoryRecord, newer: MemoryRecord, v: ValidatedMerge, now: int): MemoryRecord {
    var id := FreshId(l.versions);
    MemoryRecord(id, id + 1, Project(l.project), newer.kind, v.title, v.content, newer.validFrom, None, now,
                 Min(newer.confidence, older.confidence), StrongerAuthority(older, newer), v.evidenceIds,
                 [older.versionId, newer.versionId], Current)
  }

  /** Append the merged claim, then retire both sides. */
  function WriteMerge(l: Ledger, older: MemoryRecord, newer: MemoryRecord, v: ValidatedMerge, now: int)
    : (Ledger, Result<(), AppendError>)
  {
    var (appended, result) := Append(l, Merged(l, older, newer, v, now));
    if result.Err? then (appended, result) else Retire(appended, [older, newer], now)
  }

  /** The sides of a pair are what the ledger holds for two memories at the moment. */
  ghost predicate StoredPair(l: Ledger, older: MemoryRecord, newer: MemoryRecord) {
    CurrentMemory(l, older.id) == Some(older) && CurrentMemory(l, newer.id) == Some(newer)
  }

  /** A validated merge whose citations are among the pair's. */
  ghost predicate SoundMerge(older: MemoryRecord, newer: MemoryRecord, v: ValidatedMerge) {
    && v.title != [] && v.content != [] && Tight(v.title) && Tight(v.content)
    && v.evidenceIds != [] && Increasing(v.evidenceIds)
    && forall x :: x in v.evidenceIds ==> x in older.evidenceIds || x in newer.evidenceIds
  }

  predicate FitsTheColumns(v: ValidatedMerge) {
    ByteLength(v.title) <= TITLE_BYTES && ByteLength(v.content) <= CONTENT_BYTES
  }

  lemma IncreasingIsDistinct(ids: seq<Uuid>)
    requires Increasing(ids)
    ensures Distinct(ids)
  {
  }

  lemma StoredSide(l: Ledger, m: MemoryRecord)
    requires CurrentMemory(l, m.id) == Some(m)
    ensures m in l.versions
  {
    LatestIsStored(l.versions, m.id);
  }

  lemma FreshIds(l: Ledger)
    ensures FreshId(l.versions) + 1 !in VersionIds(l.versions)
    ensures forall v :: v in l.versions ==> v.id != FreshId(l.versions)
  {
    forall v | v in l.versions ensures v.versionId != FreshId(l.versions) + 1 && v.id != FreshId(l.versions) {
      FreshIdIsUnused(l.versions, v);
    }
  }

  lemma MergeCitesKnownEvents(l: Ledger, older: MemoryRecord, newer: MemoryRecord, v: ValidatedMerge)
    requires Sound(l) && StoredPair(l, older, newer) && SoundMerge(older, newer, v)
    ensures Known(v.evidenceIds, l.events)
  {
    StoredSide(l, older);
    StoredSide(l, newer);
    StoredRecordsAreValid(l, older);
    StoredRecordsAreValid(l, newer);
    hide Sound, ValidRecord, Distinct, KeepsKind;
  }

  lemma PairVersions(l: Ledger, older: MemoryRecord, newer: MemoryRecord)
    requires Sound(l) && StoredPair(l, older, newer)
    ensures Known([older.versionId, newer.versionId], VersionIds(l.versions))
    ensures Distinct([older.versionId, newer.versionId]) <==> older.id != newer.id
  {
    StoredSide(l, older);
    StoredSide(l, newer);
    VersionsIdentifyRecords(l);
    var pair := [older.versionId, newer.versionId];
    assert pair[0] == older.versionId && pair[1] == newer.versionId;
  }

  /**
   Exactly when a merge can be appended: its sides are two memories, and its text fits the columns.
   Nothing about the sides' statuses is asked.
   */
  lemma MergeAcceptableIff(l: Ledger, older: MemoryRecord, newer: MemoryRecord, v: ValidatedMerge, now: int)
    requires Sound(l) && StoredPair(l, older, newer) && SoundMerge(older, newer, v)
    ensures Acceptable(l, Merged(l, older, newer, v, now)) <==> older.id != newer.id && FitsTheColumns(v)
  {
    var m := Merged(l, older, newer, v, now);
    FreshIds(l);
    MergeCitesKnownEvents(l, older, newer, v);
    PairVersions(l, older, newer);
    IncreasingIsDistinct(v.evidenceIds);
    TrimFixes(v.title);
    TrimFixes(v.content);
    assert KeepsKind(l.versions, m);
    hide Sound, Known, Distinct, KeepsKind, ByteLength, Trim, FreshId, StoredPair, Increasing, Tight;
  }

  // ----- What a merge does to the live memories -----

  lemma PairLeavesTogether(l: Ledger, older: MemoryRecord, newer: MemoryRecord, m: MemoryRecord, v: MemoryRecord)
    requires Sound(l) && StoredPair(l, older, newer) && v in LiveMemories(l)
    requires m.supersedes == [older.versionId, newer.versionId] && (forall u :: u in l.versions ==> u.id != m.id)
    ensures Keeps(m)(v) == Fix.NotAmong({older.id, newer.id})(v)
  {
    StoredSide(l, older);
    StoredSide(l, newer);
    LiveIsCurrent(l, v);
    VersionsIdentifyRecords(l);
    hide Sound, Live, LiveMemories, CurrentMemory;
  }

  lemma AppendedMergeLive(l: Ledger, older: MemoryRecord, newer: MemoryRecord, m: MemoryRecord)
    requires Sound(l) && TombstonesKnown(l) && StoredPair(l, older, newer) && Acceptable(l, m)
    requires m.supersedes == [older.versionId, newer.versionId] && m.status == Current
    requires forall u :: u in l.versions ==> u.id != m.id
    ensures LiveMemories(Appended(l, m)) == Filter(LiveMemories(l), Fix.NotAmong({older.id, newer.id})) + [m]
  {
    LiveAfterAppend(l, m);
    assert m.id !in l.withdrawn;
    forall v | v in LiveMemories(l) ensures Keeps(m)(v) == Fix.NotAmong({older.id, newer.id})(v) {
      PairLeavesTogether(l, older, newer, m, v);
    }
    hide Sound, TombstonesKnown, LiveMemories, Acceptable, StoredPair, Keeps, Fix.NotAmong, Filter;
    FilterDependsOnMembers(LiveMemories(l), Keeps(m), Fix.NotAmong({older.id, newer.id}));
  }

  lemma MergedFields(l: Ledger, older: MemoryRecord, newer: MemoryRecord, v: ValidatedMerge, now: int)
    ensures var m := Merged(l, older, newer, v, now);
            && m.supersedes == [older.versionId, newer.versionId] && m.status == Current
            && m.id == FreshId(l.versions) && m.evidenceIds == v.evidenceIds
  {
  }

  lemma WriteMergeUnfolds(l: Ledger, older: MemoryRecord, newer: MemoryRecord, v: ValidatedMerge, now: int)
    requires Append(l, Merged(l, older, newer, v, now)) == (Appended(l, Merged(l, older, newer, v, now)), Ok(()))
    ensures WriteMerge(l, older, newer, v, now) == Retire(Appended(l, Merged(l, older, newer, v, now)), [older, newer], now)
  {
    hide Append, Merged, Retire;
  }

  lemma PairIsGone(l: Ledger, l1: Ledger, older: MemoryRecord, newer: MemoryRecord, m: MemoryRecord)
    requires StoredPair(l, older, newer) && l1.versions == l.versions + [m]
    requires m.id != older.id && m.id != newer.id
    requires LiveMemories(l1) == Filter(LiveMemories(l), Fix.NotAmong({older.id, newer.id})) + [m]
    ensures forall r :: r in [older, newer] ==> r in l1.versions
    ensures forall r, u :: r in [older, newer] && u in LiveMemories(l1) ==> u.id != r.id
  {
    StoredSide(l, older);
    StoredSide(l, newer);
    hide LiveMemories, CurrentMemory;
  }

  /**
   What a written merge does: the pair leaves the live memories and the merged claim joins them;
   everything else that was live still is, and no stored version is lost.
   */
  lemma MergeReplacesThePair(l: Ledger, older: MemoryRecord, newer: MemoryRecord, v: ValidatedMerge, now: int)
    requires Sound(l) && TombstonesKnown(l) && StoredPair(l, older, newer) && SoundMerge(older, newer, v)
    requires older.id != newer.id && FitsTheColumns(v)
    ensures var (l1, result) := WriteMerge(l, older, newer, v, now);
            && result == Ok(()) && Sound(l1) && TombstonesKnown(l1) && Fix.Extends(l, l1)
            && LiveMemories(l1)
               == Filter(LiveMemories(l), Fix.NotAmong({older.id, newer.id})) + [Merged(l, older, newer, v, now)]
  {
    hide *;
    var m := Merged(l, older, newer, v, now);
    var l1 := Appended(l, m);
    MergeAcceptableIff(l, older, newer, v, now);
    MergedFields(l, older, newer, v, now);
    FreshIds(l);
    Fix.AcceptedAppend(l, m);
    AppendedMergeLive(l, older, newer, m);
    WriteMergeUnfolds(l, older, newer, v, now);
    PairIds(l, older, newer);
    AppendedVersions(l, m);
    PairIsGone(l, l1, older, newer, m);
    Fix.RetireKeepsLive(l1, [older, newer], now);
    Fix.AppendExtends(l, m);
    Fix.ExtendsTransitive(l, l1, Retire(l1, [older, newer], now).0);
    TombstonesStayKnown(l, Retire(l1, [older, newer], now).0);
  }

  lemma PairIds(l: Ledger, older: MemoryRecord, newer: MemoryRecord)
    requires StoredPair(l, older, newer)
    ensures older in l.versions && newer in l.versions
  {
    StoredSide(l, older);
    StoredSide(l, newer);
  }

  lemma AppendedVersions(l: Ledger, m: MemoryRecord)
    ensures Appended(l, m).versions == l.versions + [m]
  {
  }

  lemma TombstonesStayKnown(l: Ledger, l1: Ledger)
    requires TombstonesKnown(l) && Fix.Extends(l, l1)
    ensures TombstonesKnown(l1)
  {
    forall w | w in l1.withdrawn ensures exists v :: v in l1.versions && v.id == w {
      var v :| v in l.versions && v.id == w;
      assert v in l1.versions;
    }
  }

  /** A merge that does not fit is refused whole: nothing is appended. */
  lemma RefusedMergeWritesNothing(l: Ledger, older: MemoryRecord, newer: MemoryRecord, v: ValidatedMerge, now: int)
    requires Sound(l) && StoredPair(l, older, newer) && SoundMerge(older, newer, v)
    requires older.id == newer.id || !FitsTheColumns(v)
    ensures WriteMerge(l, older, newer, v, now).0 == l && WriteMerge(l, older, newer, v, now).1.Err?
  {
    var m := Merged(l, older, newer, v, now);
    MergeAcceptableIff(l, older, newer, v, now);
    AppendGrowsIff(l, m);
    FreshIds(l);
    assert m.versionId !in VersionIds(l.versions);
    hide Append, Sound, Acceptable, StoredPair, SoundMerge, Merged, Retire, IsReplay, ValidRecord;
  }
}
