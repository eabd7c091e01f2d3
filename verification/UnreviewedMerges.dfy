/** A run of merges without a review: how it can be foreseen, what it leaves live and cited, and when it conserves. */
module UnreviewedMerges {
  import opened Common
  import opened Sequences
  import opened Memory
  import opened MemoryLedger
  import opened Merge
  import opened Revise
  import opened MergeRuns
  import Fix = ReconcileFixpoint

  // ----- A run without a review -----

  /** A draft whose sides can be looked up and whose reply passes validation. */
  predicate Accepted(l: Ledger, d: DraftedCandidate) {
    && CurrentMemory(l, d.olderId).Some? && CurrentMemory(l, d.newerId).Some?
    && CheckDraft(CurrentMemory(l, d.olderId).value, CurrentMemory(l, d.newerId).value, d).Some?
  }

  function AcceptedText(l: Ledger, d: DraftedCandidate): ValidatedMerge
    requires Accepted(l, d)
  {
    CheckDraft(CurrentMemory(l, d.olderId).value, CurrentMemory(l, d.newerId).value, d).value
  }

  predicate DraftIsWritable(l: Ledger, d: DraftedCandidate) {
    Accepted(l, d) ==> d.olderId != d.newerId && FitsTheColumns(AcceptedText(l, d))
  }

  function DraftOutcome(l: Ledger, d: DraftedCandidate, apply: bool): seq<MergeOutcome> {
    if CurrentMemory(l, d.olderId).None? || CurrentMemory(l, d.newerId).None? then []
    else [MergeOutcome(d.olderId, d.newerId, apply && Accepted(l, d))]
  }

  predicate DraftsBalanced(report: MergeReport) {
    report.applied == AppliedCount(report.outcomes) && report.proposed + report.refused == |report.outcomes|
  }

  lemma CurrentIds(l: Ledger, id: Uuid)
    requires CurrentMemory(l, id).Some?
    ensures CurrentMemory(l, id).value.id == id && CurrentMemory(l, CurrentMemory(l, id).value.id) == CurrentMemory(l, id)
  {
    LatestIsStored(l.versions, id);
  }

  lemma AcceptedPair(l: Ledger, d: DraftedCandidate)
    requires Accepted(l, d)
    ensures CurrentMemory(l, d.olderId).Some? && CurrentMemory(l, d.newerId).Some?
    ensures var older, newer := CurrentMemory(l, d.olderId).value, CurrentMemory(l, d.newerId).value;
            && older.id == d.olderId && newer.id == d.newerId
            && StoredPair(l, older, newer) && SoundMerge(older, newer, AcceptedText(l, d))
  {
    CurrentIds(l, d.olderId);
    CurrentIds(l, d.newerId);
    CheckedIsSound(CurrentMemory(l, d.olderId).value, CurrentMemory(l, d.newerId).value, d);
    hide CurrentMemory, CheckDraft, SoundMerge;
  }

  lemma AcceptedDraft(l: Ledger, report: MergeReport, d: DraftedCandidate, now: int)
    requires Accepted(l, d)
    ensures var (l1, result) := MergeDraft(l, report, d, true, now);
            var (l2, written) := WriteMerge(l, CurrentMemory(l, d.olderId).value, CurrentMemory(l, d.newerId).value, AcceptedText(l, d), now);
            && l1 == l2 && result.Ok? == written.Ok?
            && (result.Ok? ==> result.value == MergeReport(report.proposed + 1, report.applied + 1, report.refused,
                                                           report.outcomes + [MergeOutcome(d.olderId, d.newerId, true)]))
  {
    CurrentIds(l, d.olderId);
    CurrentIds(l, d.newerId);
    hide CurrentMemory, CheckDraft, WriteMerge;
    var older, newer := CurrentMemory(l, d.olderId).value, CurrentMemory(l, d.newerId).value;
    var v := AcceptedText(l, d);
    assert CheckDraft(older, newer, d) == Some(v);
    hide Accepted, AcceptedText;
    var (l2, written) := WriteMerge(l, older, newer, v, now);
    if written.Err? {
      assert MergeDraft(l, report, d, true, now) == (l2, Err(written.error));
    } else {
      assert MergeDraft(l, report, d, true, now).0 == l2;
    }
  }

  lemma OtherDraft(l: Ledger, report: MergeReport, d: DraftedCandidate, apply: bool, now: int)
    requires !apply || !Accepted(l, d)
    ensures var (l1, result) := MergeDraft(l, report, d, apply, now);
            var more := report.outcomes + DraftOutcome(l, d, apply);
            && l1 == l && result.Ok? && result.value.outcomes == more && result.value.applied == report.applied
            && result.value.proposed + result.value.refused - |more| == report.proposed + report.refused - |report.outcomes|
  {
    if CurrentMemory(l, d.olderId).Some? {
      CurrentIds(l, d.olderId);
    }
    if CurrentMemory(l, d.newerId).Some? {
      CurrentIds(l, d.newerId);
    }
    hide CurrentMemory, CheckDraft, WriteMerge;
  }

  lemma DraftKeepsTrack(was: Ledger, l: Ledger, report: MergeReport, d: DraftedCandidate, apply: bool, now: int)
    requires Tracks(was, l, report.outcomes) && DraftsBalanced(report)
    ensures var (l1, result) := MergeDraft(l, report, d, apply, now);
            && (result.Ok? <==> !apply || DraftIsWritable(l, d))
            && (result.Err? ==> l1 == l)
            && (result.Ok? ==> Tracks(was, l1, result.value.outcomes) && DraftsBalanced(result.value)
                               && result.value.outcomes == report.outcomes + DraftOutcome(l, d, apply))
  {
    hide *;
    TracksGives(was, l, report.outcomes);
    SafeGives(was, l);
    DraftOutcomeMeans(l, d, apply);
    DraftWritableMeans(l, d);
    if apply && Accepted(l, d) {
      AcceptedDraft(l, report, d, now);
    } else {
      OtherDraft(l, report, d, apply, now);
    }
    if MergeDraft(l, report, d, apply, now).1.Ok? {
      DraftBalance(was, l, report, d, apply, MergeDraft(l, report, d, apply, now).1.value);
    }
    if apply && Accepted(l, d) {
      AcceptedPair(l, d);
      var older, newer := CurrentMemory(l, d.olderId).value, CurrentMemory(l, d.newerId).value;
      if d.olderId != d.newerId && FitsTheColumns(AcceptedText(l, d)) {
        MergeableMeans(l, older, newer, AcceptedText(l, d));
        MergeKeepsTrack(was, l, older, newer, AcceptedText(l, d), now, report.outcomes);
      } else {
        RefusedMergeWritesNothing(l, older, newer, AcceptedText(l, d), now);
      }
    } else if DraftOutcome(l, d, apply) != [] {
      UnappliedKeepsTrack(was, l, report.outcomes, DraftOutcome(l, d, apply)[0]);
    } else {
      assert report.outcomes + [] == report.outcomes;
    }
  }

  lemma DraftOutcomeMeans(l: Ledger, d: DraftedCandidate, apply: bool)
    ensures apply && Accepted(l, d) ==> DraftOutcome(l, d, apply) == [MergeOutcome(d.olderId, d.newerId, true)]
    ensures !(apply && Accepted(l, d)) ==>
              DraftOutcome(l, d, apply) == [] || DraftOutcome(l, d, apply) == [MergeOutcome(d.olderId, d.newerId, false)]
  {
    hide CurrentMemory, CheckDraft;
  }

  lemma DraftWritableMeans(l: Ledger, d: DraftedCandidate)
    ensures DraftIsWritable(l, d) <==> (Accepted(l, d) ==> d.olderId != d.newerId && FitsTheColumns(AcceptedText(l, d)))
  {
    hide Accepted, FitsTheColumns;
  }

  lemma DraftBalance(was: Ledger, l: Ledger, report: MergeReport, d: DraftedCandidate, apply: bool, r: MergeReport)
    requires DraftsBalanced(report) && r.outcomes == report.outcomes + DraftOutcome(l, d, apply)
    requires r.applied == report.applied + if apply && Accepted(l, d) then 1 else 0
    requires r.proposed + r.refused - |r.outcomes| == report.proposed + report.refused - |report.outcomes|
    ensures DraftsBalanced(r)
  {
    DraftOutcomeMeans(l, d, apply);
    hide Accepted, DraftOutcome, AppliedCount;
    assert report.outcomes + [] == report.outcomes;
    OneMoreOutcome(was, report.outcomes, MergeOutcome(d.olderId, d.newerId, apply && Accepted(l, d)));
  }

  /** Any run without a review keeps track, up to the draft it fails on, if it fails. */
  lemma {:induction false} DraftsKeepTrack(l: Ledger, drafts: seq<DraftedCandidate>, apply: bool, now: int)
    requires Sound(l) && TombstonesKnown(l)
    ensures var (l1, result) := MergeDrafts(l, drafts, apply, now);
            && Safe(l, l1)
            && (result.Ok? ==> Tracks(l, l1, result.value.outcomes) && DraftsBalanced(result.value))
  {
    hide *;
    if drafts == [] {
      NothingWrittenYet(l);
      NoDrafts(l, apply, now);
      assert drafts == [];
      TracksGives(l, l, []);
    } else {
      var front, d := drafts[..|drafts| - 1], drafts[|drafts| - 1];
      DraftsKeepTrack(l, front, apply, now);
      DraftsUnfold(l, drafts, apply, now);
      var before, result := MergeDrafts(l, front, apply, now).0, MergeDrafts(l, front, apply, now).1;
      if result.Ok? {
        DraftKeepsTrack(l, before, result.value, d, apply, now);
        var (l1, more) := MergeDraft(before, result.value, d, apply, now);
        if more.Ok? {
          TracksGives(l, l1, more.value.outcomes);
        }
      }
    }
  }

  lemma DraftsUnfold(l: Ledger, drafts: seq<DraftedCandidate>, apply: bool, now: int)
    requires drafts != []
    ensures var (before, result) := MergeDrafts(l, drafts[..|drafts| - 1], apply, now);
            MergeDrafts(l, drafts, apply, now)
            == if result.Err? then (before, result) else MergeDraft(before, result.value, drafts[|drafts| - 1], apply, now)
  {
    hide MergeDraft;
  }

  lemma NoDrafts(l: Ledger, apply: bool, now: int)
    ensures MergeDrafts(l, [], apply, now) == (l, Ok(EMPTY_REPORT)) && EMPTY_REPORT.outcomes == [] && DraftsBalanced(EMPTY_REPORT)
  {
  }

  /**
   Merges without a review, on any sound ledger and any drafts. No stored version is lost, and the
   report counts what was applied. The number of live memories falls by the number of merges, but for
   each wasted side: one that was dead at the start, or that an earlier merge of the run had used. So
   the number falls by exactly the merges applied exactly when the applied drafts share no side and
   none of their sides was dead at the start.
   */
  lemma UnreviewedMergesCount(l: Ledger, drafts: seq<DraftedCandidate>, apply: bool, now: int)
    requires Sound(l) && TombstonesKnown(l)
    ensures var (l1, result) := MergeDrafts(l, drafts, apply, now);
            && Sound(l1) && TombstonesKnown(l1) && Fix.Extends(l, l1)
            && (result.Ok? ==>
                  var report := result.value;
                  && report.applied == AppliedCount(report.outcomes) && report.proposed + report.refused == |report.outcomes|
                  && AllRetired(l1, report.outcomes)
                  && |LiveMemories(l1)| + report.applied == |LiveMemories(l)| + WastedSides(l, report.outcomes)
                  && (|LiveMemories(l1)| + report.applied == |LiveMemories(l)| <==>
                        ConsumedOnce(report.outcomes) && NoDeadSide(l, report.outcomes)))
  {
    hide *;
    var l1, result := MergeDrafts(l, drafts, apply, now).0, MergeDrafts(l, drafts, apply, now).1;
    DraftsKeepTrack(l, drafts, apply, now);
    SafeGives(l, l1);
    if result.Ok? {
      TracksGives(l, l1, result.value.outcomes);
      UsedAreRetired(l, l1, result.value.outcomes);
      NothingWastedIff(l, result.value.outcomes);
      DraftsBalancedGives(result.value);
    }
  }

  lemma DraftsBalancedGives(report: MergeReport)
    requires DraftsBalanced(report)
    ensures report.applied == AppliedCount(report.outcomes) && report.proposed + report.refused == |report.outcomes|
  {
  }

  // ----- A run without a review, foreseen -----

  /** What a run will report, read off the starting ledger: a draft is applied exactly when it is accepted there. */
  function DraftPlan(l: Ledger, drafts: seq<DraftedCandidate>, apply: bool): seq<MergeOutcome> {
    if drafts == [] then [] else DraftPlan(l, drafts[..|drafts| - 1], apply) + DraftOutcome(l, drafts[|drafts| - 1], apply)
  }

  /** No draft names a memory that the run itself makes. */
  ghost predicate NoneMade(l: Ledger, l1: Ledger, drafts: seq<DraftedCandidate>) {
    forall d :: d in drafts ==> NotMade(l, l1, d.olderId) && NotMade(l, l1, d.newerId)
  }

  lemma NoneMadeBefore(l: Ledger, before: Ledger, l1: Ledger, drafts: seq<DraftedCandidate>)
    requires NoneMade(l, l1, drafts) && before.versions <= l1.versions && drafts != []
    ensures NoneMade(l, before, drafts[..|drafts| - 1])
    ensures NotMade(l, before, drafts[|drafts| - 1].olderId) && NotMade(l, before, drafts[|drafts| - 1].newerId)
  {
    forall d | d in drafts ensures NotMade(l, before, d.olderId) && NotMade(l, before, d.newerId) {
      NotMadeBefore(l, before, l1, d.olderId);
      NotMadeBefore(l, before, l1, d.newerId);
    }
    hide NotMade;
  }

  lemma DraftOnlyAppends(l: Ledger, report: MergeReport, d: DraftedCandidate, apply: bool, now: int)
    requires Sound(l) && TombstonesKnown(l)
    ensures l.versions <= MergeDraft(l, report, d, apply, now).0.versions
  {
    hide *;
    if apply && Accepted(l, d) {
      AcceptedPair(l, d);
      AcceptedDraft(l, report, d, now);
      var older, newer, v := CurrentMemory(l, d.olderId).value, CurrentMemory(l, d.newerId).value, AcceptedText(l, d);
      if older.id != newer.id && FitsTheColumns(v) {
        MergeReplacesThePair(l, older, newer, v, now);
        Fix.ExtendsKeeps(l, WriteMerge(l, older, newer, v, now).0);
      } else {
        RefusedMergeWritesNothing(l, older, newer, v, now);
      }
    } else {
      OtherDraft(l, report, d, apply, now);
    }
  }

  /** The drafts before the last leave a ledger that the last one only appends to. */
  lemma FrontOnlyAppends(l: Ledger, drafts: seq<DraftedCandidate>, apply: bool, now: int)
    requires Sound(l) && TombstonesKnown(l) && drafts != []
    ensures MergeDrafts(l, drafts[..|drafts| - 1], apply, now).0.versions <= MergeDrafts(l, drafts, apply, now).0.versions
  {
    hide *;
    var front := drafts[..|drafts| - 1];
    var before, result := MergeDrafts(l, front, apply, now).0, MergeDrafts(l, front, apply, now).1;
    DraftsUnfold(l, drafts, apply, now);
    UnreviewedMergesCount(l, front, apply, now);
    if result.Ok? {
      DraftOnlyAppends(before, result.value, drafts[|drafts| - 1], apply, now);
    }
  }

  /** Checking a draft looks at what the claims say and cite only, so a retired side passes like a live one. */
  lemma CheckIgnoresStatus(a: MemoryRecord, a': MemoryRecord, b: MemoryRecord, b': MemoryRecord, d: DraftedCandidate)
    requires SameClaim(a', a) && SameClaim(b', b)
    ensures CheckDraft(a', b', d) == CheckDraft(a, b, d)
  {
    assert a'.content == a.content && a'.evidenceIds == a.evidenceIds;
    assert b'.content == b.content && b'.evidenceIds == b.evidenceIds;
    hide ValidateMerge, SameClaim;
  }

  lemma CurrentDuringRun(was: Ledger, l: Ledger, outcomes: seq<MergeOutcome>, id: Uuid)
    requires Accounted(was, l, outcomes, id) && NotMade(was, l, id) && l.withdrawn == was.withdrawn
    ensures CurrentMemory(l, id).Some? == CurrentMemory(was, id).Some?
    ensures CurrentMemory(was, id).Some? ==> SameClaim(CurrentMemory(l, id).value, CurrentMemory(was, id).value)
  {
    hide Used, Latest, FreshId, Dead, Live, SameClaim;
  }

  /** During a run, a draft is accepted as it was at the start, whatever its sides have become. */
  lemma DraftDuringRun(was: Ledger, l: Ledger, outcomes: seq<MergeOutcome>, d: DraftedCandidate, apply: bool)
    requires Accounted(was, l, outcomes, d.olderId) && Accounted(was, l, outcomes, d.newerId)
    requires NotMade(was, l, d.olderId) && NotMade(was, l, d.newerId) && l.withdrawn == was.withdrawn
    ensures DraftOutcome(l, d, apply) == DraftOutcome(was, d, apply)
    ensures Accepted(l, d) == Accepted(was, d)
    ensures Accepted(was, d) ==> AcceptedText(l, d) == AcceptedText(was, d)
    ensures DraftIsWritable(l, d) == DraftIsWritable(was, d)
  {
    CurrentDuringRun(was, l, outcomes, d.olderId);
    CurrentDuringRun(was, l, outcomes, d.newerId);
    hide Accounted, NotMade, CurrentMemory, CheckDraft, SameClaim, FitsTheColumns;
    if CurrentMemory(was, d.olderId).Some? && CurrentMemory(was, d.newerId).Some? {
      CheckIgnoresStatus(CurrentMemory(was, d.olderId).value, CurrentMemory(l, d.olderId).value,
                         CurrentMemory(was, d.newerId).value, CurrentMemory(l, d.newerId).value, d);
    }
  }

  lemma PlanOfOneMore(l: Ledger, drafts: seq<DraftedCandidate>, apply: bool)
    requires drafts != []
    ensures DraftPlan(l, drafts, apply) == DraftPlan(l, drafts[..|drafts| - 1], apply) + DraftOutcome(l, drafts[|drafts| - 1], apply)
  {
  }

  ghost predicate AllWritable(l: Ledger, drafts: seq<DraftedCandidate>) {
    forall d :: d in drafts ==> DraftIsWritable(l, d)
  }

  lemma AllWritableSplits(l: Ledger, drafts: seq<DraftedCandidate>)
    requires drafts != []
    ensures AllWritable(l, drafts) <==> AllWritable(l, drafts[..|drafts| - 1]) && DraftIsWritable(l, drafts[|drafts| - 1])
  {
    hide DraftIsWritable;
    var front, d := drafts[..|drafts| - 1], drafts[|drafts| - 1];
    assert drafts == front + [d];
    assert forall x :: x in drafts <==> x in front || x == d;
  }

  /**
   What a run without a review will do can be read off the ledger before it starts: exactly when it
   succeeds, and that it applies every accepted draft, whatever the drafts before it used.
   */
  lemma {:induction false} DraftsGoAsPlanned(l: Ledger, drafts: seq<DraftedCandidate>, apply: bool, now: int)
    requires Sound(l) && TombstonesKnown(l) && NoneMade(l, MergeDrafts(l, drafts, apply, now).0, drafts)
    ensures var (l1, result) := MergeDrafts(l, drafts, apply, now);
            && (result.Ok? <==> !apply || AllWritable(l, drafts))
            && (result.Ok? ==> result.value.outcomes == DraftPlan(l, drafts, apply))
  {
    hide *;
    if drafts == [] {
      NoDrafts(l, apply, now);
      NothingPlanned(l, apply);
      assert drafts == [];
    } else {
      var front, d := drafts[..|drafts| - 1], drafts[|drafts| - 1];
      FrontOnlyAppends(l, drafts, apply, now);
      NoneMadeBefore(l, MergeDrafts(l, front, apply, now).0, MergeDrafts(l, drafts, apply, now).0, drafts);
      AllWritableSplits(l, drafts);
      DraftsGoAsPlanned(l, front, apply, now);
      DraftsKeepTrack(l, front, apply, now);
      DraftsUnfold(l, drafts, apply, now);
      PlanOfOneMore(l, drafts, apply);
      var before, result := MergeDrafts(l, front, apply, now).0, MergeDrafts(l, front, apply, now).1;
      if result.Ok? {
        TracksGives(l, before, result.value.outcomes);
        SafeGives(l, before);
        DraftDuringRun(l, before, result.value.outcomes, d, apply);
        DraftKeepsTrack(l, before, result.value, d, apply, now);
      }
    }
  }

  lemma NothingPlanned(l: Ledger, apply: bool)
    ensures DraftPlan(l, [], apply) == [] && AllWritable(l, [])
  {
  }

  function Sides(d: DraftedCandidate): set<Uuid> {
    {d.olderId, d.newerId}
  }

  /** No two accepted drafts share a side, on either hand. */
  ghost predicate NoneShare(l: Ledger, drafts: seq<DraftedCandidate>) {
    forall i, j :: 0 <= i < j < |drafts| && Accepted(l, drafts[i]) && Accepted(l, drafts[j]) ==> Sides(drafts[i]) !! Sides(drafts[j])
  }

  ghost predicate SomeDraftUses(l: Ledger, drafts: seq<DraftedCandidate>, id: Uuid) {
    exists i :: 0 <= i < |drafts| && Accepted(l, drafts[i]) && id in Sides(drafts[i])
  }

  lemma OneMoreDraftUses(l: Ledger, front: seq<DraftedCandidate>, d: DraftedCandidate, id: Uuid)
    ensures SomeDraftUses(l, front + [d], id) <==> SomeDraftUses(l, front, id) || (Accepted(l, d) && id in Sides(d))
  {
    hide Accepted, Sides;
    var drafts := front + [d];
    if i :| 0 <= i < |front| && Accepted(l, front[i]) && id in Sides(front[i]) {
      assert drafts[i] == front[i];
    }
    assert drafts[|front|] == d;
  }

  lemma OneMoreDraftShares(l: Ledger, front: seq<DraftedCandidate>, d: DraftedCandidate)
    ensures NoneShare(l, front + [d]) <==>
              NoneShare(l, front) && (Accepted(l, d) ==> forall id :: SomeDraftUses(l, front, id) ==> id !in Sides(d))
  {
    hide Accepted, Sides;
    var drafts := front + [d];
    if NoneShare(l, drafts) {
      forall i, j | 0 <= i < j < |front| && Accepted(l, front[i]) && Accepted(l, front[j]) ensures Sides(front[i]) !! Sides(front[j]) {
        assert drafts[i] == front[i] && drafts[j] == front[j];
      }
      if Accepted(l, d) {
        forall id | SomeDraftUses(l, front, id) ensures id !in Sides(d) {
          var i :| 0 <= i < |front| && Accepted(l, front[i]) && id in Sides(front[i]);
          assert drafts[i] == front[i] && drafts[|front|] == d;
        }
      }
    }
    if NoneShare(l, front) && (Accepted(l, d) ==> forall id :: SomeDraftUses(l, front, id) ==> id !in Sides(d)) {
      forall i, j | 0 <= i < j < |drafts| && Accepted(l, drafts[i]) && Accepted(l, drafts[j]) ensures Sides(drafts[i]) !! Sides(drafts[j]) {
        if j == |front| {
          assert forall id :: id in Sides(front[i]) ==> SomeDraftUses(l, front, id);
        }
      }
    }
  }

  /** A run uses each memory once exactly when no two accepted drafts share a side, on either hand. */
  lemma {:induction false} PlanUsesOnceIff(l: Ledger, drafts: seq<DraftedCandidate>)
    ensures ConsumedOnce(DraftPlan(l, drafts, true)) <==> NoneShare(l, drafts)
    ensures forall id :: id in Used(DraftPlan(l, drafts, true)) <==> SomeDraftUses(l, drafts, id)
  {
    hide Accepted, ConsumedOnce, DraftOutcome, Used, NoneShare;
    if drafts == [] {
      NothingIsUsedYet();
      NoneShareYet(l);
    } else {
      var front, d := drafts[..|drafts| - 1], drafts[|drafts| - 1];
      assert drafts == front + [d];
      PlanUsesOnceIff(l, front);
      DraftOutcomeMeans(l, d, true);
      var plan, o := DraftPlan(l, front, true), MergeOutcome(d.olderId, d.newerId, Accepted(l, d));
      assert plan + [] == plan;
      ConsumedOnceMore(plan, o);
      OneMoreOutcome(l, plan, o);
      OneMoreDraftShares(l, front, d);
      hide SomeDraftUses;
      forall id ensures id in Used(DraftPlan(l, drafts, true)) <==> SomeDraftUses(l, drafts, id) {
        OneMoreDraftUses(l, front, d, id);
      }
    }
  }

  lemma NoneShareYet(l: Ledger)
    ensures NoneShare(l, [])
  {
  }

  // ----- What a run without a review leaves live, and cited -----

  /** Everything the accepted replies cite. */
  function PlannedEvidence(l: Ledger, drafts: seq<DraftedCandidate>): set<Uuid> {
    if drafts == [] then {}
    else
      var d := drafts[|drafts| - 1];
      PlannedEvidence(l, drafts[..|drafts| - 1]) + if Accepted(l, d) then Members(AcceptedText(l, d).evidenceIds) else {}
  }

  /** The live memories that no accepted draft uses. */
  function Untouched(l: Ledger, drafts: seq<DraftedCandidate>): seq<MemoryRecord> {
    Filter(LiveMemories(l), Fix.NotAmong(Used(DraftPlan(l, drafts, true))))
  }

  /** Claims that a run made: all of them new, citing what the accepted replies cite. */
  ghost predicate MadeFrom(l: Ledger, drafts: seq<DraftedCandidate>, made: seq<MemoryRecord>) {
    && |made| == AppliedCount(DraftPlan(l, drafts, true))
    && Cited(made) == PlannedEvidence(l, drafts)
    && forall m :: m in made ==> !Stored(l, m.id)
  }

  /** What is live after a run: what no draft used, in its order, and then the claims it made. */
  ghost predicate LiveAsPlanned(l: Ledger, drafts: seq<DraftedCandidate>, l1: Ledger, made: seq<MemoryRecord>) {
    LiveMemories(l1) == Untouched(l, drafts) + made && MadeFrom(l, drafts, made)
  }

  lemma LiveAsPlannedGives(l: Ledger, drafts: seq<DraftedCandidate>, l1: Ledger, made: seq<MemoryRecord>)
    requires LiveAsPlanned(l, drafts, l1, made)
    ensures LiveMemories(l1) == Filter(LiveMemories(l), Fix.NotAmong(Used(DraftPlan(l, drafts, true)))) + made
    ensures Untouched(l, drafts) == Filter(LiveMemories(l), Fix.NotAmong(Used(DraftPlan(l, drafts, true))))
    ensures |made| == AppliedCount(DraftPlan(l, drafts, true)) && Cited(made) == PlannedEvidence(l, drafts)
    ensures forall m :: m in made ==> !Stored(l, m.id)
  {
    hide LiveMemories, Filter, Used, DraftPlan;
  }

  lemma NothingLiveChanges(l: Ledger)
    ensures LiveAsPlanned(l, [], l, [])
  {
    hide LiveMemories;
    FilterAll(LiveMemories(l), Fix.NotAmong({}));
    hide Filter;
    assert LiveMemories(l) + [] == LiveMemories(l);
  }

  lemma EvidenceOfOneMore(l: Ledger, drafts: seq<DraftedCandidate>)
    requires drafts != []
    ensures var front, d := drafts[..|drafts| - 1], drafts[|drafts| - 1];
            PlannedEvidence(l, drafts) == PlannedEvidence(l, front) + if Accepted(l, d) then Members(AcceptedText(l, d).evidenceIds) else {}
  {
    hide Accepted;
  }

  lemma CitedOfConcat(a: seq<MemoryRecord>, b: seq<MemoryRecord>)
    ensures Cited(a + b) == Cited(a) + Cited(b)
  {
    assert forall r :: r in a + b <==> r in a || r in b;
  }

  lemma CitedOfOne(m: MemoryRecord)
    ensures Cited([m]) == Members(m.evidenceIds)
  {
  }

  /** Two rounds of removal are one, and the claims made so far stay. */
  lemma RemovedTwice(live: seq<MemoryRecord>, made: seq<MemoryRecord>, used: set<Uuid>, pair: set<Uuid>)
    requires forall m :: m in made ==> m.id !in pair
    ensures Filter(Filter(live, Fix.NotAmong(used)) + made, Fix.NotAmong(pair)) == Filter(live, Fix.NotAmong(used + pair)) + made
  {
    FilterOfConcat(Filter(live, Fix.NotAmong(used)), made, Fix.NotAmong(pair));
    FilterTwice(live, Fix.NotAmong(used), Fix.NotAmong(pair), Fix.NotAmong(used + pair));
    FilterAll(made, Fix.NotAmong(pair));
  }

  lemma OneMoreMade(l: Ledger, front: seq<DraftedCandidate>, drafts: seq<DraftedCandidate>, l1: Ledger, l2: Ledger,
                    made: seq<MemoryRecord>, m: MemoryRecord)
    requires drafts != [] && front == drafts[..|drafts| - 1] && LiveAsPlanned(l, front, l1, made)
    requires var d := drafts[|drafts| - 1];
             && Accepted(l, d)
             && LiveMemories(l2) == Filter(LiveMemories(l1), Fix.NotAmong({d.olderId, d.newerId})) + [m]
             && m.evidenceIds == AcceptedText(l, d).evidenceIds
    requires !Stored(l, m.id)
    ensures LiveAsPlanned(l, drafts, l2, made + [m])
  {
    hide *;
    var d := drafts[|drafts| - 1];
    var o := MergeOutcome(d.olderId, d.newerId, true);
    var plan := DraftPlan(l, front, true);
    LiveAsPlannedGives(l, front, l1, made);
    PlanOfOneMore(l, drafts, true);
    DraftOutcomeMeans(l, d, true);
    OneMoreOutcome(l, plan, o);
    SidesOf(o);
    EvidenceOfOneMore(l, drafts);
    CitedOfConcat(made, [m]);
    CitedOfOne(m);
    AcceptedIsStored(l, d);
    RemovedTwice(LiveMemories(l), made, Used(plan), {d.olderId, d.newerId});
    var kept := Filter(LiveMemories(l), Fix.NotAmong(Used(plan + [o])));
    assert kept + made + [m] == kept + (made + [m]);
    LiveAsPlannedMeans(l, drafts, l2, made + [m]);
  }

  lemma AcceptedIsStored(l: Ledger, d: DraftedCandidate)
    requires Accepted(l, d)
    ensures Stored(l, d.olderId) && Stored(l, d.newerId)
  {
    hide Latest, CheckDraft;
  }

  lemma LiveAsPlannedMeans(l: Ledger, drafts: seq<DraftedCandidate>, l1: Ledger, made: seq<MemoryRecord>)
    requires LiveMemories(l1) == Filter(LiveMemories(l), Fix.NotAmong(Used(DraftPlan(l, drafts, true)))) + made
    requires |made| == AppliedCount(DraftPlan(l, drafts, true)) && Cited(made) == PlannedEvidence(l, drafts)
    requires forall m :: m in made ==> !Stored(l, m.id)
    ensures LiveAsPlanned(l, drafts, l1, made)
  {
    hide LiveMemories, Filter, Used, DraftPlan, Cited, PlannedEvidence, AppliedCount;
  }

  lemma OtherDraftMakesNothing(l: Ledger, drafts: seq<DraftedCandidate>, l1: Ledger, made: seq<MemoryRecord>)
    requires drafts != [] && LiveAsPlanned(l, drafts[..|drafts| - 1], l1, made) && !Accepted(l, drafts[|drafts| - 1])
    ensures LiveAsPlanned(l, drafts, l1, made)
  {
    hide *;
    var front, d := drafts[..|drafts| - 1], drafts[|drafts| - 1];
    var plan := DraftPlan(l, front, true);
    LiveAsPlannedGives(l, front, l1, made);
    PlanOfOneMore(l, drafts, true);
    DraftOutcomeMeans(l, d, true);
    assert plan + [] == plan;
    OneMoreOutcome(l, plan, MergeOutcome(d.olderId, d.newerId, false));
    NoSides(MergeOutcome(d.olderId, d.newerId, false));
    EvidenceOfOneMore(l, drafts);
    assert Used(DraftPlan(l, drafts, true)) == Used(plan);
    LiveAsPlannedMeans(l, drafts, l1, made);
  }

  lemma MergedIsUnknown(was: Ledger, l: Ledger, m: MemoryRecord)
    requires was.versions <= l.versions && m.id == FreshId(l.versions)
    ensures !Stored(was, m.id)
  {
    MergedIsNew(was, l);
    StoredIff(was.versions, m.id);
    StoredIff(l.versions, m.id);
    hide Latest, FreshId;
  }

  lemma {:induction false} RunMakes(l: Ledger, drafts: seq<DraftedCandidate>, now: int) returns (made: seq<MemoryRecord>)
    requires Sound(l) && TombstonesKnown(l) && MergeDrafts(l, drafts, true, now).1.Ok?
    requires NoneMade(l, MergeDrafts(l, drafts, true, now).0, drafts)
    ensures LiveAsPlanned(l, drafts, MergeDrafts(l, drafts, true, now).0, made)
  {
    hide *;
    if drafts == [] {
      NoDrafts(l, true, now);
      NothingLiveChanges(l);
      assert drafts == [];
      made := [];
    } else {
      var front, d := drafts[..|drafts| - 1], drafts[|drafts| - 1];
      FrontOnlyAppends(l, drafts, true, now);
      NoneMadeBefore(l, MergeDrafts(l, front, true, now).0, MergeDrafts(l, drafts, true, now).0, drafts);
      DraftsUnfold(l, drafts, true, now);
      DraftsKeepTrack(l, front, true, now);
      var before, report := MergeDrafts(l, front, true, now).0, MergeDrafts(l, front, true, now).1.value;
      made := RunMakes(l, front, now);
      TracksGives(l, before, report.outcomes);
      SafeGives(l, before);
      DraftDuringRun(l, before, report.outcomes, d, true);
      DraftKeepsTrack(l, before, report, d, true, now);
      if Accepted(l, d) {
        AcceptedPair(before, d);
        AcceptedDraft(before, report, d, now);
        DraftWritableMeans(before, d);
        var older, newer, v := CurrentMemory(before, d.olderId).value, CurrentMemory(before, d.newerId).value, AcceptedText(before, d);
        var m := Merged(before, older, newer, v, now);
        MergeReplacesThePair(before, older, newer, v, now);
        MergedFields(before, older, newer, v, now);
        MergedIsUnknown(l, before, m);
        OneMoreMade(l, front, drafts, before, WriteMerge(before, older, newer, v, now).0, made, m);
        made := made + [m];
      } else {
        OtherDraft(before, report, d, true, now);
        OtherDraftMakesNothing(l, drafts, before, made);
      }
    }
  }

  /** Every event a live claim cites is cited by a claim that is not used, or by an accepted reply. */
  ghost predicate KeepsCitations(l: Ledger, drafts: seq<DraftedCandidate>) {
    Cited(LiveMemories(l)) <= Cited(Untouched(l, drafts)) + PlannedEvidence(l, drafts)
  }

  /**
   The exact effect of a successful run without a review, read off the ledger and the drafts before
   it starts. The live memories are those no accepted draft uses and one new claim for each; the
   cited events are what those cite. Unlike a reviewed merge, one without a review may drop a
   citation, since the reply chooses what the merged claim cites. So the run conserves, in number and
   in citations, exactly when no two accepted drafts share a side, none of their sides is dead, and
   every event that a live claim cites is kept by a claim that is not used or by an accepted reply.
   */
  lemma UnreviewedMergesConserveIff(l: Ledger, drafts: seq<DraftedCandidate>, now: int)
    requires Sound(l) && TombstonesKnown(l) && AllWritable(l, drafts)
    requires NoneMade(l, MergeDrafts(l, drafts, true, now).0, drafts)
    ensures var plan := DraftPlan(l, drafts, true);
            var (l1, result) := MergeDrafts(l, drafts, true, now);
            && result.Ok? && result.value.outcomes == plan && result.value.applied == AppliedCount(plan)
            && |LiveMemories(l1)| == |Untouched(l, drafts)| + AppliedCount(plan)
            && Cited(LiveMemories(l1)) == Cited(Untouched(l, drafts)) + PlannedEvidence(l, drafts)
            && (|LiveMemories(l1)| + result.value.applied == |LiveMemories(l)| && Cited(LiveMemories(l1)) == Cited(LiveMemories(l)) <==>
                  NoneShare(l, drafts) && NoDeadSide(l, plan) && KeepsCitations(l, drafts))
  {
    hide *;
    var plan := DraftPlan(l, drafts, true);
    var l1 := MergeDrafts(l, drafts, true, now).0;
    DraftsGoAsPlanned(l, drafts, true, now);
    UnreviewedMergesCount(l, drafts, true, now);
    var made := RunMakes(l, drafts, now);
    LiveAsPlannedGives(l, drafts, l1, made);
    CitedOfConcat(Untouched(l, drafts), made);
    PlanUsesOnceIff(l, drafts);
    KeepsCitationsMeans(l, drafts);
    UntouchedAreLive(l, drafts);
    if NoDeadSide(l, plan) {
      PlannedEvidenceIsLive(l, drafts);
    }
  }

  /**
   When a merge without a review drops a citation: exactly when the reply does not cite the event and
   no live claim outside the pair does. Validation only asks for what the newer side alone saw.
   */
  lemma DropsCitationIff(l: Ledger, d: DraftedCandidate, now: int, event: Uuid)
    requires Sound(l) && TombstonesKnown(l) && Accepted(l, d) && DraftIsWritable(l, d)
    ensures event !in Cited(LiveMemories(MergeDrafts(l, [d], true, now).0)) <==>
              event !in AcceptedText(l, d).evidenceIds
              && forall r :: r in LiveMemories(l) && event in r.evidenceIds ==> r.id in Sides(d)
  {
    hide *;
    AcceptedIsNotMade(l, d, MergeDrafts(l, [d], true, now).0);
    OneDraft(l, d, MergeDrafts(l, [d], true, now).0);
    UnreviewedMergesConserveIff(l, [d], now);
    CitedOutside(l, d, event);
  }

  lemma OneDraft(l: Ledger, d: DraftedCandidate, l1: Ledger)
    requires Accepted(l, d) && DraftIsWritable(l, d) && NotMade(l, l1, d.olderId) && NotMade(l, l1, d.newerId)
    ensures NoneMade(l, l1, [d]) && AllWritable(l, [d])
    ensures Used(DraftPlan(l, [d], true)) == Sides(d) && PlannedEvidence(l, [d]) == Members(AcceptedText(l, d).evidenceIds)
  {
    assert [d][..0] == [];
    DraftOutcomeMeans(l, d, true);
    PlanOfOneMore(l, [d], true);
    hide Accepted, DraftIsWritable, NotMade, DraftOutcome;
    assert DraftPlan(l, [d], true) == [] + [MergeOutcome(d.olderId, d.newerId, true)];
    OneMoreOutcome(l, [], MergeOutcome(d.olderId, d.newerId, true));
    hide DraftPlan;
  }

  lemma CitedOutside(l: Ledger, d: DraftedCandidate, event: Uuid)
    requires Used(DraftPlan(l, [d], true)) == Sides(d)
    ensures event in Cited(Untouched(l, [d])) <==> exists r :: r in LiveMemories(l) && event in r.evidenceIds && r.id !in Sides(d)
    ensures Accepted(l, d) ==> (event in Members(AcceptedText(l, d).evidenceIds) <==> event in AcceptedText(l, d).evidenceIds)
  {
    hide LiveMemories, DraftPlan, Used, Sides, Accepted;
  }

  lemma KeepsCitationsMeans(l: Ledger, drafts: seq<DraftedCandidate>)
    ensures KeepsCitations(l, drafts) <==> Cited(LiveMemories(l)) <= Cited(Untouched(l, drafts)) + PlannedEvidence(l, drafts)
  {
  }

  lemma UntouchedAreLive(l: Ledger, drafts: seq<DraftedCandidate>)
    ensures Cited(Untouched(l, drafts)) <= Cited(LiveMemories(l))
  {
    hide LiveMemories, DraftPlan, Used;
  }

  lemma UndeadIsLive(l: Ledger, m: MemoryRecord)
    requires CurrentMemory(l, m.id) == Some(m) && !Dead(l, m.id)
    ensures Members(m.evidenceIds) <= Cited(LiveMemories(l))
  {
    LiveSideIsCited(l, m);
  }

  lemma TextCitesThePair(l: Ledger, d: DraftedCandidate)
    requires Accepted(l, d) && !Dead(l, d.olderId) && !Dead(l, d.newerId)
    ensures Members(AcceptedText(l, d).evidenceIds) <= Cited(LiveMemories(l))
  {
    AcceptedPair(l, d);
    var older, newer, v := CurrentMemory(l, d.olderId).value, CurrentMemory(l, d.newerId).value, AcceptedText(l, d);
    hide Accepted, AcceptedText, Dead, LiveMemories, Cited;
    UndeadIsLive(l, older);
    UndeadIsLive(l, newer);
    assert forall x :: x in v.evidenceIds ==> x in Members(older.evidenceIds) || x in Members(newer.evidenceIds);
  }

  /** When no side is dead, an accepted reply cites only what live claims cite. */
  lemma {:induction false} PlannedEvidenceIsLive(l: Ledger, drafts: seq<DraftedCandidate>)
    requires NoDeadSide(l, DraftPlan(l, drafts, true))
    ensures PlannedEvidence(l, drafts) <= Cited(LiveMemories(l))
  {
    hide *;
    if drafts == [] {
      NothingPlannedIsCited(l);
      assert drafts == [];
    } else {
      var front, d := drafts[..|drafts| - 1], drafts[|drafts| - 1];
      PlanOfOneMore(l, drafts, true);
      DraftOutcomeMeans(l, d, true);
      EvidenceOfOneMore(l, drafts);
      var plan := DraftPlan(l, front, true);
      assert plan + [] == plan;
      if DraftOutcome(l, d, true) != [] {
        OneMoreOutcome(l, plan, DraftOutcome(l, d, true)[0]);
        NoDeadSideSplits(l, plan, DraftOutcome(l, d, true)[0]);
      }
      PlannedEvidenceIsLive(l, front);
      if Accepted(l, d) {
        TextCitesThePair(l, d);
      }
    }
  }

  lemma NothingPlannedIsCited(l: Ledger)
    ensures PlannedEvidence(l, []) == {}
  {
  }

  /**
   The unreviewed path has no status check, so one run can use a memory twice. Whenever two drafts that
   share a side, on either hand, would each be accepted and written on its own, both are applied: the
   second merges a claim that the first has just retired, and the live memories do not fall by two.
   */
  lemma SharedSideIsMergedTwice(l: Ledger, first: DraftedCandidate, second: DraftedCandidate, now: int)
    requires Sound(l) && TombstonesKnown(l)
    requires Accepted(l, first) && Accepted(l, second) && DraftIsWritable(l, first) && DraftIsWritable(l, second)
    requires !(Sides(first) !! Sides(second))
    ensures var (l1, result) := MergeDrafts(l, [first, second], true, now);
            && result.Ok? && result.value.applied == 2
            && result.value.outcomes == [MergeOutcome(first.olderId, first.newerId, true), MergeOutcome(second.olderId, second.newerId, true)]
            && |LiveMemories(l1)| + 2 > |LiveMemories(l)|
  {
    hide *;
    var drafts := [first, second];
    AcceptedIsNotMade(l, first, MergeDrafts(l, drafts, true, now).0);
    AcceptedIsNotMade(l, second, MergeDrafts(l, drafts, true, now).0);
    TwoDrafts(l, first, second, MergeDrafts(l, drafts, true, now).0);
    PlanOfTwo(l, first, second);
    DraftsGoAsPlanned(l, drafts, true, now);
    UnreviewedMergesCount(l, drafts, true, now);
    PlanUsesOnceIff(l, drafts);
    NothingWastedIff(l, DraftPlan(l, drafts, true));
    TwoApplied(first, second);
  }

  lemma TwoDrafts(l: Ledger, first: DraftedCandidate, second: DraftedCandidate, l1: Ledger)
    requires NotMade(l, l1, first.olderId) && NotMade(l, l1, first.newerId)
    requires NotMade(l, l1, second.olderId) && NotMade(l, l1, second.newerId)
    requires Accepted(l, first) && Accepted(l, second) && DraftIsWritable(l, first) && DraftIsWritable(l, second)
    requires !(Sides(first) !! Sides(second))
    ensures NoneMade(l, l1, [first, second]) && AllWritable(l, [first, second]) && !NoneShare(l, [first, second])
  {
    hide NotMade, Accepted, DraftIsWritable, Sides;
    var drafts := [first, second];
    assert drafts[0] == first && drafts[1] == second;
  }

  lemma PlanOfTwo(l: Ledger, first: DraftedCandidate, second: DraftedCandidate)
    requires Accepted(l, first) && Accepted(l, second)
    ensures DraftPlan(l, [first, second], true)
         == [MergeOutcome(first.olderId, first.newerId, true), MergeOutcome(second.olderId, second.newerId, true)]
  {
    hide *;
    assert [first, second][..1] == [first] && [first][..0] == [];
    PlanOfOneMore(l, [first, second], true);
    PlanOfOneMore(l, [first], true);
    NothingPlanned(l, true);
    DraftOutcomeMeans(l, first, true);
    DraftOutcomeMeans(l, second, true);
  }

  lemma TwoApplied(first: DraftedCandidate, second: DraftedCandidate)
    ensures AppliedCount([MergeOutcome(first.olderId, first.newerId, true), MergeOutcome(second.olderId, second.newerId, true)]) == 2
  {
    var a, b := MergeOutcome(first.olderId, first.newerId, true), MergeOutcome(second.olderId, second.newerId, true);
    assert [a, b][..1] == [a] && [a][..0] == [];
    assert AppliedCount([a]) == AppliedCount([]) + 1;
    assert AppliedCount([a, b]) == AppliedCount([a]) + 1;
  }

  lemma AcceptedIsNotMade(l: Ledger, d: DraftedCandidate, l1: Ledger)
    requires Accepted(l, d)
    ensures NotMade(l, l1, d.olderId) && NotMade(l, l1, d.newerId)
  {
    AcceptedIsStored(l, d);
    hide Stored, Accepted;
  }

  /** Identifiers given out before the run are never made by it, so candidates found in the ledger are foreseen. */
  lemma FoundCandidatesAreNotMade(l: Ledger, drafts: seq<DraftedCandidate>, apply: bool, now: int)
    requires Sound(l) && TombstonesKnown(l) && MergeDrafts(l, drafts, apply, now).1.Ok?
    requires forall d :: d in drafts ==> d.olderId < FreshId(l.versions) && d.newerId < FreshId(l.versions)
    ensures NoneMade(l, MergeDrafts(l, drafts, apply, now).0, drafts)
  {
    hide *;
    var l1, report := MergeDrafts(l, drafts, apply, now).0, MergeDrafts(l, drafts, apply, now).1.value;
    DraftsKeepTrack(l, drafts, apply, now);
    forall d | d in drafts ensures NotMade(l, l1, d.olderId) && NotMade(l, l1, d.newerId) {
      IssuedIsNotMade(l, l1, report.outcomes, d.olderId);
      IssuedIsNotMade(l, l1, report.outcomes, d.newerId);
    }
    NoneMadeMeans(l, l1, drafts);
  }

  lemma NoneMadeMeans(l: Ledger, l1: Ledger, drafts: seq<DraftedCandidate>)
    requires forall d :: d in drafts ==> NotMade(l, l1, d.olderId) && NotMade(l, l1, d.newerId)
    ensures NoneMade(l, l1, drafts)
  {
    hide NotMade;
  }
}
