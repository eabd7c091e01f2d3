/** Reviewed merges: a sheet of proposals, applied one approved item at a time. */
module Revise {
  import opened Common
  import opened Text
  import opened Sequences
  import opened Memory
  import opened Supersession
  import opened MemoryLedger
  import opened Merge
  import Reconcile
  import Fix = ReconcileFixpoint

  datatype ReviewItem = ReviewItem(
    olderId: Uuid, newerId: Uuid, mergedTitle: string, mergedContent: string, decision: string)

  datatype MergeOutcome = MergeOutcome(olderId: Uuid, newerId: Uuid, applied: bool)

  datatype MergeReport = MergeReport(proposed: nat, applied: nat, refused: nat, outcomes: seq<MergeOutcome>)

  const EMPTY_REPORT := MergeReport(0, 0, 0, [])

  predicate Approved(item: ReviewItem) {
    Lower(Trim(item.decision)) == "approve"
  }

  /** The latest version of a memory, if it is marked current. */
  function MarkedCurrent(l: Ledger, id: Uuid): Option<MemoryRecord> {
    var found := CurrentMemory(l, id);
    if found.Some? && found.value.status.Current? then found else None
  }

  function AllowedEvidence(older: MemoryRecord, newer: MemoryRecord): seq<Uuid> {
    SortedIds(older.evidenceIds + newer.evidenceIds)
  }

  /** The approved text goes through validation again, against the pair as it is now. */
  function Recheck(older: MemoryRecord, newer: MemoryRecord, item: ReviewItem): Result<ValidatedMerge, MergeRejection> {
    var allowed := AllowedEvidence(older, newer);
    ValidateMerge(ProposedMerge(item.mergedTitle, item.mergedContent, allowed),
                  MergeInputs(older.content, newer.content, allowed, []))
  }

  function Refuse(report: MergeReport, item: ReviewItem): MergeReport {
    report.(proposed := report.proposed + 1, refused := report.refused + 1,
            outcomes := report.outcomes + [MergeOutcome(item.olderId, item.newerId, false)])
  }

  function Record(report: MergeReport, item: ReviewItem): MergeReport {
    report.(proposed := report.proposed + 1, applied := report.applied + 1,
            outcomes := report.outcomes + [MergeOutcome(item.olderId, item.newerId, true)])
  }

  function ApplyItem(l: Ledger, report: MergeReport, item: ReviewItem, now: int): (Ledger, Result<MergeReport, AppendError>) {
    if !Approved(item) then (l, Ok(report))
    else
      var older, newer := MarkedCurrent(l, item.olderId), MarkedCurrent(l, item.newerId);
      if older.None? || newer.None? then (l, Ok(Refuse(report, item)))
      else
        var checked := Recheck(older.value, newer.value, item);
        if checked.Err? then (l, Ok(Refuse(report, item)))
        else
          var (l1, written) := WriteMerge(l, older.value, newer.value, checked.value, now);
          if written.Err? then (l1, Err(written.error)) else (l1, Ok(Record(report, item)))
  }

  function ApplyReviewed(l: Ledger, items: seq<ReviewItem>, now: int): (Ledger, Result<MergeReport, AppendError>) {
    if items == [] then (l, Ok(EMPTY_REPORT))
    else
      var (before, result) := ApplyReviewed(l, items[..|items| - 1], now);
      if result.Err? then (before, result) else ApplyItem(before, result.value, items[|items| - 1], now)
  }

  // ----- The command itself -----

  method WriteMergeTo(ledger: EventLedger, older: MemoryRecord, newer: MemoryRecord, v: ValidatedMerge, now: int)
    returns (result: Result<(), AppendError>)
    modifies ledger`versions
    ensures (ledger.State(), result) == WriteMerge(old(ledger.State()), older, newer, v, now)
  {
    hide Append, Merged, FreshId;
    var record := Merged(ledger.State(), older, newer, v, now);
    result := ledger.AppendMemory(record);
    if result.Err? {
      return;
    }
    result := Reconcile.RetireAll(ledger, [older, newer], now);
  }

  lemma {:induction false} FailureSticks(l: Ledger, items: seq<ReviewItem>, i: nat, now: int)
    requires i <= |items| && ApplyReviewed(l, items[..i], now).1.Err?
    ensures ApplyReviewed(l, items, now) == ApplyReviewed(l, items[..i], now)
  {
    hide ApplyItem;
    if i == |items| {
      assert items[..i] == items;
    } else {
      var front := items[..|items| - 1];
      assert front[..i] == items[..i];
      FailureSticks(l, front, i, now);
    }
  }

  method ApplyReviewItem(ledger: EventLedger, report: MergeReport, item: ReviewItem, now: int)
    returns (result: Result<MergeReport, AppendError>)
    modifies ledger`versions
    ensures (ledger.State(), result) == ApplyItem(old(ledger.State()), report, item, now)
  {
    hide MarkedCurrent, Recheck, WriteMerge;
    if !Approved(item) {
      return Ok(report);
    }
    var older := MarkedCurrent(ledger.State(), item.olderId);
    var newer := MarkedCurrent(ledger.State(), item.newerId);
    if older.None? || newer.None? {
      return Ok(Refuse(report, item));
    }
    var checked := Recheck(older.value, newer.value, item);
    if checked.Err? {
      return Ok(Refuse(report, item));
    }
    var written := WriteMergeTo(ledger, older.value, newer.value, checked.value, now);
    if written.Err? {
      return Err(written.error);
    }
    return Ok(Record(report, item));
  }

  method ApplyReviewSheet(ledger: EventLedger, items: seq<ReviewItem>, now: int)
    returns (result: Result<MergeReport, AppendError>)
    modifies ledger`versions
    ensures (ledger.State(), result) == ApplyReviewed(old(ledger.State()), items, now)
  {
    hide ApplyItem;
    ghost var was := ledger.State();
    var report := EMPTY_REPORT;
    var i := 0;
    while i < |items|
      invariant 0 <= i <= |items|
      invariant (ledger.State(), Ok(report)) == ApplyReviewed(was, items[..i], now)
    {
      assert items[..i + 1][..i] == items[..i];
      result := ApplyReviewItem(ledger, report, items[i], now);
      if result.Err? {
        FailureSticks(was, items, i + 1, now);
        return;
      }
      report := result.value;
      i := i + 1;
    }
    assert items[..|items|] == items;
    return Ok(report);
  }

  // ----- One merge, counted -----

  function Cited(records: seq<MemoryRecord>): set<Uuid> {
    set r, e | r in records && e in r.evidenceIds :: e
  }

  function Members(ids: seq<Uuid>): set<Uuid> {
    set x | x in ids
  }

  function LiveOf(l: Ledger, m: MemoryRecord): seq<MemoryRecord> {
    if Live(l, m) then [m] else []
  }

  lemma RecheckMeans(older: MemoryRecord, newer: MemoryRecord, item: ReviewItem)
    requires Recheck(older, newer, item).Ok?
    ensures var v := Recheck(older, newer, item).value;
            && SoundMerge(older, newer, v)
            && (forall x :: x in v.evidenceIds <==> x in older.evidenceIds || x in newer.evidenceIds)
  {
    var allowed := AllowedEvidence(older, newer);
    var p := ProposedMerge(item.mergedTitle, item.mergedContent, allowed);
    ValidationMeans(p, MergeInputs(older.content, newer.content, allowed, []));
    forall x ensures x in allowed <==> x in older.evidenceIds || x in newer.evidenceIds {
      SortedIdsMembers(older.evidenceIds + newer.evidenceIds, x);
    }
    hide ValidateMerge, AllowedEvidence, Increasing;
    var v := Recheck(older, newer, item).value;
    assert v.evidenceIds != [] by {
      assert p.evidenceIds[0] in p.evidenceIds;
    }
  }

  lemma MarkedIsStored(l: Ledger, id: Uuid)
    requires MarkedCurrent(l, id).Some?
    ensures var m := MarkedCurrent(l, id).value;
            m.id == id && CurrentMemory(l, id) == Some(m) && m.status == Current
  {
    LatestIsStored(l.versions, id);
  }

  lemma PairOfMarked(l: Ledger, item: ReviewItem)
    requires MarkedCurrent(l, item.olderId).Some? && MarkedCurrent(l, item.newerId).Some?
    ensures StoredPair(l, MarkedCurrent(l, item.olderId).value, MarkedCurrent(l, item.newerId).value)
  {
    MarkedIsStored(l, item.olderId);
    MarkedIsStored(l, item.newerId);
  }

  /** A removed live record is one of the pair. */
  lemma LiveWithPairId(l: Ledger, older: MemoryRecord, newer: MemoryRecord, r: MemoryRecord)
    requires StoredPair(l, older, newer) && r in LiveMemories(l)
    ensures r.id == older.id ==> r == older && Live(l, older)
    ensures r.id == newer.id ==> r == newer && Live(l, newer)
  {
    LiveIsCurrent(l, r);
  }

  lemma LiveStoredIsListed(l: Ledger, m: MemoryRecord)
    requires CurrentMemory(l, m.id) == Some(m)
    ensures m in LiveMemories(l) <==> Live(l, m)
  {
    StoredSide(l, m);
  }

  /** How many memories leave: one for each side that was live. */
  lemma PairRemoval(l: Ledger, older: MemoryRecord, newer: MemoryRecord)
    requires Sound(l) && StoredPair(l, older, newer) && older.id != newer.id
    ensures |Filter(LiveMemories(l), Fix.NotAmong({older.id, newer.id}))| + |LiveOf(l, older)| + |LiveOf(l, newer)|
         == |LiveMemories(l)|
  {
    hide *;
    var gone := LiveOf(l, older) + LiveOf(l, newer);
    PairIsLiveSides(l, older, newer);
    Fix.RemovedCount(l, gone);
    forall r | r in LiveMemories(l) ensures Fix.NotAmong({older.id, newer.id})(r) == Fix.NotAmong(Fix.Ids(gone))(r) {
      GoneMeansPair(l, older, newer, r);
    }
    FilterDependsOnMembers(LiveMemories(l), Fix.NotAmong({older.id, newer.id}), Fix.NotAmong(Fix.Ids(gone)));
  }

  lemma PairIsLiveSides(l: Ledger, older: MemoryRecord, newer: MemoryRecord)
    requires StoredPair(l, older, newer) && older.id != newer.id
    ensures Fix.LiveSides(l, LiveOf(l, older) + LiveOf(l, newer))
  {
    LiveStoredIsListed(l, older);
    LiveStoredIsListed(l, newer);
    hide LiveMemories, Live, StoredPair;
  }

  lemma GoneMeansPair(l: Ledger, older: MemoryRecord, newer: MemoryRecord, r: MemoryRecord)
    requires StoredPair(l, older, newer) && r in LiveMemories(l)
    ensures Fix.NotAmong({older.id, newer.id})(r) == Fix.NotAmong(Fix.Ids(LiveOf(l, older) + LiveOf(l, newer)))(r)
  {
    LiveWithPairId(l, older, newer, r);
    hide LiveMemories, Live, StoredPair;
    var gone := LiveOf(l, older) + LiveOf(l, newer);
    assert r.id == older.id ==> older in gone;
    assert r.id == newer.id ==> newer in gone;
    assert forall g :: g in gone ==> g == older || g == newer;
  }

  lemma CitedAfterMerge(l: Ledger, older: MemoryRecord, newer: MemoryRecord, m: MemoryRecord, after: seq<MemoryRecord>)
    requires StoredPair(l, older, newer)
    requires after == Filter(LiveMemories(l), Fix.NotAmong({older.id, newer.id})) + [m]
    requires forall x :: x in m.evidenceIds <==> x in older.evidenceIds || x in newer.evidenceIds
    ensures Cited(after) == Cited(LiveMemories(l)) + Members(older.evidenceIds) + Members(newer.evidenceIds)
  {
    hide *;
    forall r | r in LiveMemories(l) ensures (r.id == older.id ==> r == older) && (r.id == newer.id ==> r == newer) {
      LiveWithPairId(l, older, newer, r);
    }
    ReplacedCitations(LiveMemories(l), older, newer, m);
  }

  /** When the records that leave are the pair's own, the cited events gain the pair's and lose none. */
  lemma ReplacedCitations(live: seq<MemoryRecord>, older: MemoryRecord, newer: MemoryRecord, m: MemoryRecord)
    requires forall r :: r in live ==> (r.id == older.id ==> r == older) && (r.id == newer.id ==> r == newer)
    requires forall x :: x in m.evidenceIds <==> x in older.evidenceIds || x in newer.evidenceIds
    ensures Cited(Filter(live, Fix.NotAmong({older.id, newer.id})) + [m])
         == Cited(live) + Members(older.evidenceIds) + Members(newer.evidenceIds)
  {
    var rest := Filter(live, Fix.NotAmong({older.id, newer.id}));
    forall e ensures e in Cited(rest + [m]) <==> e in Cited(rest) || e in m.evidenceIds {
      CitedByOneMore(rest, m, e);
    }
    forall e | e in Cited(live) ensures e in Cited(rest) || e in m.evidenceIds {
      var r :| r in live && e in r.evidenceIds;
      assert r in rest || r == older || r == newer;
    }
    assert Cited(rest) <= Cited(live);
  }

  lemma CitedByOneMore(records: seq<MemoryRecord>, m: MemoryRecord, e: Uuid)
    ensures e in Cited(records + [m]) <==> e in Cited(records) || e in m.evidenceIds
  {
    if e in Cited(records) {
      var r :| r in records && e in r.evidenceIds;
      assert r in records + [m];
    }
    assert m in records + [m];
  }

  /**
   The exact effect of a reviewed merge on the live memories. One claim joins; a side leaves only if
   it was live; and the cited events gain whatever the sides cite. So a merge conserves, with one
   live memory less and the same cited events, exactly when both sides are live.
   */
  lemma MergeDelta(l: Ledger, older: MemoryRecord, newer: MemoryRecord, item: ReviewItem, now: int)
    requires Sound(l) && TombstonesKnown(l) && StoredPair(l, older, newer) && older.id != newer.id
    requires Recheck(older, newer, item).Ok? && FitsTheColumns(Recheck(older, newer, item).value)
    ensures var l1 := WriteMerge(l, older, newer, Recheck(older, newer, item).value, now).0;
            && |LiveMemories(l1)| + |LiveOf(l, older)| + |LiveOf(l, newer)| == |LiveMemories(l)| + 1
            && Cited(LiveMemories(l1)) == Cited(LiveMemories(l)) + Members(older.evidenceIds) + Members(newer.evidenceIds)
            && (|LiveMemories(l1)| + 1 == |LiveMemories(l)| <==> Live(l, older) && Live(l, newer))
  {
    hide *;
    var v := Recheck(older, newer, item).value;
    RecheckMeans(older, newer, item);
    MergeReplacesThePair(l, older, newer, v, now);
    MergedFields(l, older, newer, v, now);
    PairRemoval(l, older, newer);
    CitedAfterMerge(l, older, newer, Merged(l, older, newer, v, now), LiveMemories(WriteMerge(l, older, newer, v, now).0));
    LiveOfSize(l, older);
    LiveOfSize(l, newer);
  }

  lemma LiveOfSize(l: Ledger, m: MemoryRecord)
    ensures |LiveOf(l, m)| == if Live(l, m) then 1 else 0
  {
  }

  lemma LiveSideIsCited(l: Ledger, m: MemoryRecord)
    requires CurrentMemory(l, m.id) == Some(m) && Live(l, m)
    ensures Members(m.evidenceIds) <= Cited(LiveMemories(l))
  {
    LiveStoredIsListed(l, m);
    hide LiveMemories, Live;
  }

  // ----- Statuses that tell the truth -----

  /** Whatever is marked current is live: no claim was retracted by an edge alone. */
  ghost predicate StatusTells(l: Ledger) {
    forall id :: MarkedCurrent(l, id).Some? ==> Live(l, MarkedCurrent(l, id).value)
  }

  /** The same claim, marked superseded. */
  predicate RetiredFrom(r: MemoryRecord, m: MemoryRecord) {
    r == m.(versionId := r.versionId, recordedAt := r.recordedAt, supersedes := [], status := Superseded)
  }

  /** What the latest versions are after a merge. */
  lemma LatestAfterMerge(l: Ledger, older: MemoryRecord, newer: MemoryRecord, v: ValidatedMerge, now: int, id: Uuid)
    requires Sound(l) && TombstonesKnown(l) && StoredPair(l, older, newer) && SoundMerge(older, newer, v)
    requires older.id != newer.id && FitsTheColumns(v)
    ensures var l1 := WriteMerge(l, older, newer, v, now).0;
            var found := Latest(l1.versions, id);
            if id == older.id then found.Some? && RetiredFrom(found.value, older)
            else if id == newer.id then found.Some? && RetiredFrom(found.value, newer)
            else if id == FreshId(l.versions) then found == Some(Merged(l, older, newer, v, now))
            else found == Latest(l.versions, id)
  {
    hide *;
    var m := Merged(l, older, newer, v, now);
    MergeAcceptableIff(l, older, newer, v, now);
    MergedFields(l, older, newer, v, now);
    FreshIds(l);
    PairIds(l, older, newer);
    Fix.AcceptedAppend(l, m);
    WriteMergeUnfolds(l, older, newer, v, now);
    AppendedVersions(l, m);
    LatestAfterAppend(l.versions, m, id);
    LatestAfterRetirement(Appended(l, m), older, newer, now, id);
  }

  lemma LatestAfterRetirement(l: Ledger, a: MemoryRecord, b: MemoryRecord, now: int, id: Uuid)
    requires Sound(l) && a in l.versions && b in l.versions && a.id != b.id
    ensures var found := Latest(Reconcile.Retire(l, [a, b], now).0.versions, id);
            if id == a.id then found.Some? && RetiredFrom(found.value, a)
            else if id == b.id then found.Some? && RetiredFrom(found.value, b)
            else found == Latest(l.versions, id)
  {
    hide *;
    var ra := Reconcile.Retired(a, FreshId(l.versions), now);
    Fix.RetiredIsAcceptable(l, a, now);
    Fix.AcceptedAppend(l, ra);
    AppendedVersions(l, ra);
    var l1 := Appended(l, ra);
    assert b in l1.versions;
    var rb := Reconcile.Retired(b, FreshId(l1.versions), now);
    Fix.RetiredIsAcceptable(l1, b, now);
    Fix.AcceptedAppend(l1, rb);
    AppendedVersions(l1, rb);
    RetireTwo(l, a, b, now);
    RetiredFields(a, FreshId(l.versions), now);
    RetiredFields(b, FreshId(l1.versions), now);
    LatestAfterAppend(l.versions, ra, id);
    LatestAfterAppend(l1.versions, rb, id);
  }

  lemma RetiredFields(m: MemoryRecord, version: Uuid, now: int)
    ensures Reconcile.Retired(m, version, now).id == m.id && RetiredFrom(Reconcile.Retired(m, version, now), m)
  {
  }

  lemma RetireTwo(l: Ledger, a: MemoryRecord, b: MemoryRecord, now: int)
    ensures var ra := Reconcile.Retired(a, FreshId(l.versions), now);
            Append(l, ra) == (Appended(l, ra), Ok(())) ==>
              Reconcile.Retire(l, [a, b], now)
              == Append(Appended(l, ra), Reconcile.Retired(b, FreshId(Appended(l, ra).versions), now))
  {
    hide Append, Reconcile.Retired, FreshId, Appended;
    assert [a, b][..1] == [a] && [a][..0] == [];
    assert Reconcile.Retire(l, [], now) == (l, Ok(()));
    assert Reconcile.Retire(l, [a], now) == Append(l, Reconcile.Retired(a, FreshId(l.versions), now));
  }

  /** A merge leaves no claim marked current that is not live. */
  lemma MergeKeepsStatusTelling(l: Ledger, older: MemoryRecord, newer: MemoryRecord, v: ValidatedMerge, now: int)
    requires Sound(l) && TombstonesKnown(l) && StoredPair(l, older, newer) && SoundMerge(older, newer, v)
    requires older.id != newer.id && FitsTheColumns(v) && StatusTells(l)
    ensures StatusTells(WriteMerge(l, older, newer, v, now).0)
  {
    hide *;
    var m, l1 := Merged(l, older, newer, v, now), WriteMerge(l, older, newer, v, now).0;
    MergeReplacesThePair(l, older, newer, v, now);
    MergedFields(l, older, newer, v, now);
    Fix.ExtendsKeeps(l, l1);
    forall id | MarkedCurrent(l1, id).Some? ensures Live(l1, MarkedCurrent(l1, id).value) {
      LatestAfterMerge(l, older, newer, v, now, id);
      MergedSidesAreSuperseded(l1, older, newer, id);
      MarkedSplits(l, l1, older, newer, m, id);
    }
    StatusTellsMeans(l1);
  }

  lemma MergedSidesAreSuperseded(l1: Ledger, older: MemoryRecord, newer: MemoryRecord, id: Uuid)
    ensures var found := Latest(l1.versions, id);
            && (id == older.id && found.Some? && RetiredFrom(found.value, older) ==> found.value.status == Superseded)
            && (id == newer.id && found.Some? && RetiredFrom(found.value, newer) ==> found.value.status == Superseded)
  {
  }

  lemma StatusTellsMeans(l: Ledger)
    requires forall id :: MarkedCurrent(l, id).Some? ==> Live(l, MarkedCurrent(l, id).value)
    ensures StatusTells(l)
  {
  }

  lemma MarkedSplits(l: Ledger, l1: Ledger, older: MemoryRecord, newer: MemoryRecord, m: MemoryRecord, id: Uuid)
    requires StatusTells(l) && MarkedCurrent(l1, id).Some? && l1.withdrawn == l.withdrawn
    requires LiveMemories(l1) == Filter(LiveMemories(l), Fix.NotAmong({older.id, newer.id})) + [m]
    requires var found := Latest(l1.versions, id);
             if id == older.id || id == newer.id then found.Some? && found.value.status == Superseded
             else if id == m.id then found == Some(m)
             else found == Latest(l.versions, id)
    ensures Live(l1, MarkedCurrent(l1, id).value)
  {
    var x := MarkedCurrent(l1, id).value;
    MarkedIsStored(l1, id);
    assert x in LiveMemories(l1) by {
      if id == m.id {
        assert x == m;
      } else {
        assert MarkedCurrent(l, id) == Some(x);
        LiveStoredIsListed(l, x);
      }
    }
    LiveIsCurrent(l1, x);
  }

  // ----- What is not approved -----

  /** Anything but an approval writes nothing and reports nothing. */
  lemma OnlyApprovalWrites(l: Ledger, items: seq<ReviewItem>, now: int)
    requires forall item :: item in items ==> !Approved(item)
    ensures ApplyReviewed(l, items, now) == (l, Ok(EMPTY_REPORT))
  {
    hide Approved;
    if items != [] {
      OnlyApprovalWrites(l, items[..|items| - 1], now);
    }
  }

  // ----- Merging without a review -----

  /** A candidate pair and what the provider made of it: nothing, if the call or its parsing failed. */
  datatype DraftedCandidate = DraftedCandidate(olderId: Uuid, newerId: Uuid, unseen: seq<Uuid>, reply: Option<ProposedMerge>)

  function CheckDraft(older: MemoryRecord, newer: MemoryRecord, d: DraftedCandidate): Option<ValidatedMerge> {
    if d.reply.None? then None
    else
      var checked := ValidateMerge(d.reply.value, MergeInputs(older.content, newer.content, AllowedEvidence(older, newer), d.unseen));
      if checked.Ok? then Some(checked.value) else None
  }

  function MergeDraft(l: Ledger, report: MergeReport, d: DraftedCandidate, apply: bool, now: int)
    : (Ledger, Result<MergeReport, AppendError>)
  {
    var older, newer := CurrentMemory(l, d.olderId), CurrentMemory(l, d.newerId);
    if older.None? || newer.None? then (l, Ok(report))
    else
      var checked := CheckDraft(older.value, newer.value, d);
      var outcome := MergeOutcome(older.value.id, newer.value.id, apply && checked.Some?);
      if checked.None? then (l, Ok(report.(refused := report.refused + 1, outcomes := report.outcomes + [outcome])))
      else if !apply then (l, Ok(report.(proposed := report.proposed + 1, outcomes := report.outcomes + [outcome])))
      else
        var (l1, written) := WriteMerge(l, older.value, newer.value, checked.value, now);
        if written.Err? then (l1, Err(written.error))
        else (l1, Ok(report.(proposed := report.proposed + 1, applied := report.applied + 1, outcomes := report.outcomes + [outcome])))
  }

  function MergeDrafts(l: Ledger, drafts: seq<DraftedCandidate>, apply: bool, now: int): (Ledger, Result<MergeReport, AppendError>) {
    if drafts == [] then (l, Ok(EMPTY_REPORT))
    else
      var (before, result) := MergeDrafts(l, drafts[..|drafts| - 1], apply, now);
      if result.Err? then (before, result) else MergeDraft(before, result.value, drafts[|drafts| - 1], apply, now)
  }

  /** Without `apply` nothing is written. */
  lemma DraftingWritesNothing(l: Ledger, drafts: seq<DraftedCandidate>, now: int)
    ensures MergeDrafts(l, drafts, false, now).0 == l && MergeDrafts(l, drafts, false, now).1.Ok?
  {
    hide CheckDraft, WriteMerge;
    if drafts != [] {
      DraftingWritesNothing(l, drafts[..|drafts| - 1], now);
    }
  }

  lemma CheckedIsSound(older: MemoryRecord, newer: MemoryRecord, d: DraftedCandidate)
    requires CheckDraft(older, newer, d).Some?
    ensures SoundMerge(older, newer, CheckDraft(older, newer, d).value)
  {
    var allowed := AllowedEvidence(older, newer);
    ValidationMeans(d.reply.value, MergeInputs(older.content, newer.content, allowed, d.unseen));
    forall x ensures x in allowed <==> x in older.evidenceIds || x in newer.evidenceIds {
      SortedIdsMembers(older.evidenceIds + newer.evidenceIds, x);
    }
    hide ValidateMerge, AllowedEvidence, Increasing;
    assert d.reply.value.evidenceIds[0] in d.reply.value.evidenceIds;
  }

  lemma {:induction false} DraftFailureSticks(l: Ledger, drafts: seq<DraftedCandidate>, i: nat, apply: bool, now: int)
    requires i <= |drafts| && MergeDrafts(l, drafts[..i], apply, now).1.Err?
    ensures MergeDrafts(l, drafts, apply, now) == MergeDrafts(l, drafts[..i], apply, now)
  {
    hide MergeDraft;
    if i == |drafts| {
      assert drafts[..i] == drafts;
    } else {
      var front := drafts[..|drafts| - 1];
      assert front[..i] == drafts[..i];
      DraftFailureSticks(l, front, i, apply, now);
    }
  }

  method MergeDraftTo(ledger: EventLedger, report: MergeReport, d: DraftedCandidate, apply: bool, now: int)
    returns (result: Result<MergeReport, AppendError>)
    modifies ledger`versions
    ensures (ledger.State(), result) == MergeDraft(old(ledger.State()), report, d, apply, now)
  {
    hide CurrentMemory, CheckDraft, WriteMerge;
    var older := CurrentMemory(ledger.State(), d.olderId);
    var newer := CurrentMemory(ledger.State(), d.newerId);
    if older.None? || newer.None? {
      return Ok(report);
    }
    var checked := CheckDraft(older.value, newer.value, d);
    var outcome := MergeOutcome(older.value.id, newer.value.id, apply && checked.Some?);
    if checked.None? {
      return Ok(report.(refused := report.refused + 1, outcomes := report.outcomes + [outcome]));
    }
    if !apply {
      return Ok(report.(proposed := report.proposed + 1, outcomes := report.outcomes + [outcome]));
    }
    var written := WriteMergeTo(ledger, older.value, newer.value, checked.value, now);
    if written.Err? {
      return Err(written.error);
    }
    return Ok(report.(proposed := report.proposed + 1, applied := report.applied + 1, outcomes := report.outcomes + [outcome]));
  }

  method MergeCandidates(ledger: EventLedger, drafts: seq<DraftedCandidate>, apply: bool, now: int)
    returns (result: Result<MergeReport, AppendError>)
    modifies ledger`versions
    ensures (ledger.State(), result) == MergeDrafts(old(ledger.State()), drafts, apply, now)
  {
    hide MergeDraft;
    ghost var was := ledger.State();
    var report := EMPTY_REPORT;
    var i := 0;
    while i < |drafts|
      invariant 0 <= i <= |drafts|
      invariant (ledger.State(), Ok(report)) == MergeDrafts(was, drafts[..i], apply, now)
    {
      assert drafts[..i + 1][..i] == drafts[..i];
      result := MergeDraftTo(ledger, report, drafts[i], apply, now);
      if result.Err? {
        DraftFailureSticks(was, drafts, i + 1, apply, now);
        return;
      }
      report := result.value;
      i := i + 1;
    }
    assert drafts[..|drafts|] == drafts;
    return Ok(report);
  }
}
