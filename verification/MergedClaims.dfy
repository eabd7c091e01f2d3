/**
 What a merge writes, field by field: the claim that takes the pair's place, and the retired pair; for
 one merge, for a reviewed sheet and for a run without a review.
 */
module MergedClaims {
  import opened Common
  import opened Text
  import opened Sequences
  import opened Memory
  import opened MemoryLedger
  import opened Merge
  import opened Revise
  import opened MergeRuns
  import opened ReviewedMerges
  import opened UnreviewedMerges
  import opened FoldOutcomes
  import Supersession
  import Fix = ReconcileFixpoint
  import Reconcile

  /** From the weakest to the strongest. */
  lemma AuthoritiesInOrder()
    ensures AuthorityRank(ExternalDocument) < AuthorityRank(DerivedMemory) < AuthorityRank(AgentCheckpoint)
    ensures AuthorityRank(AgentCheckpoint) < AuthorityRank(HumanCorrection) < AuthorityRank(RawMechanicalEvidence)
    ensures AuthorityRank(RawMechanicalEvidence) < AuthorityRank(LiveState)
  {
  }

  /** What is joined: two claims under a text that cites these events. */
  datatype Joint = Joint(older: MemoryRecord, newer: MemoryRecord, title: string, content: string, evidence: set<Uuid>)

  /**
   A claim that joins two others: a current claim of the newer one's kind and date, without an end,
   under the joint text, as strong as the stronger of the two and as sure as the less sure.
   */
  ghost predicate Joins(m: MemoryRecord, j: Joint, project: Uuid, now: int) {
    && m.scope == Project(project) && m.kind == j.newer.kind && m.title == j.title && m.content == j.content
    && m.validFrom == j.newer.validFrom && m.validTo == None && m.recordedAt == now && m.status == Current
    && Increasing(m.evidenceIds) && (forall x :: x in m.evidenceIds <==> x in j.evidence)
    && m.authority in {j.older.authority, j.newer.authority}
    && AuthorityRank(j.older.authority) <= AuthorityRank(m.authority) && AuthorityRank(j.newer.authority) <= AuthorityRank(m.authority)
    && m.confidence in {j.older.confidence, j.newer.confidence}
    && m.confidence <= j.older.confidence && m.confidence <= j.newer.confidence
  }

  lemma MergedJoins(l: Ledger, older: MemoryRecord, newer: MemoryRecord, v: ValidatedMerge, now: int)
    requires Increasing(v.evidenceIds)
    ensures var m := Merged(l, older, newer, v, now);
            && Joins(m, Joint(older, newer, v.title, v.content, Members(v.evidenceIds)), l.project, now)
            && m.supersedes == [older.versionId, newer.versionId] && m.id == FreshId(l.versions)
  {
  }

  /** What a joint says of its sides is said of whatever versions of the same claims. */
  lemma JoinsSameClaims(m: MemoryRecord, j: Joint, older: MemoryRecord, newer: MemoryRecord, project: Uuid, now: int)
    requires Joins(m, j, project, now) && SameClaim(j.older, older) && SameClaim(j.newer, newer)
    ensures Joins(m, Joint(older, newer, j.title, j.content, j.evidence), project, now)
  {
  }

  lemma PairIsRetired(l: Ledger, older: MemoryRecord, newer: MemoryRecord, v: ValidatedMerge, now: int)
    requires Sound(l) && TombstonesKnown(l) && Mergeable(l, older, newer, v)
    ensures var l1 := WriteMerge(l, older, newer, v, now).0;
            && (forall side :: side in [older, newer] ==>
                  Latest(l1.versions, side.id).Some? && RetiredAs(Latest(l1.versions, side.id).value, side, now))
  {
    hide *;
    MergeableGives(l, older, newer, v);
    var m := Merged(l, older, newer, v, now);
    MergeAcceptableIff(l, older, newer, v, now);
    Fix.AcceptedAppend(l, m);
    WriteMergeUnfolds(l, older, newer, v, now);
    PairIds(l, older, newer);
    FoldOutcomes.AppendedVersions(l, m);
    LatestAfterRetire(Appended(l, m), [older, newer], now, older.id);
    LatestAfterRetire(Appended(l, m), [older, newer], now, newer.id);
  }

  /**
   What one merge leaves. Of the live memories exactly one is new, and it joins the pair and
   supersedes the pair's versions; each side is what it was, marked superseded; every other memory is
   untouched.
   */
  lemma MergeMeans(l: Ledger, older: MemoryRecord, newer: MemoryRecord, v: ValidatedMerge, now: int)
    requires Sound(l) && TombstonesKnown(l) && Mergeable(l, older, newer, v)
    ensures var (l1, result) := WriteMerge(l, older, newer, v, now);
            && result == Ok(())
            && (exists m :: m in LiveMemories(l1) && !Stored(l, m.id)
                            && Joins(m, Joint(older, newer, v.title, v.content, Members(v.evidenceIds)), l.project, now)
                            && m.supersedes == [older.versionId, newer.versionId]
                            && forall other :: other in LiveMemories(l1) && !Stored(l, other.id) ==> other == m)
            && (forall side :: side in [older, newer] ==>
                  Latest(l1.versions, side.id).Some? && RetiredAs(Latest(l1.versions, side.id).value, side, now))
            && (forall id :: Stored(l, id) && id != older.id && id != newer.id ==> Latest(l1.versions, id) == Latest(l.versions, id))
  {
    hide *;
    MergeableGives(l, older, newer, v);
    IncreasingText(older, newer, v);
    var m, l1 := Merged(l, older, newer, v, now), WriteMerge(l, older, newer, v, now).0;
    MergeReplacesThePair(l, older, newer, v, now);
    MergedJoins(l, older, newer, v, now);
    MergedIsNew(l, l);
    PairIsRetired(l, older, newer, v, now);
    var rest := Filter(LiveMemories(l), Fix.NotAmong({older.id, newer.id}));
    forall other | other in rest ensures Stored(l, other.id) {
      LiveIsStored(l, other);
    }
    forall id | Stored(l, id) && id != older.id && id != newer.id ensures Latest(l1.versions, id) == Latest(l.versions, id) {
      LatestAfterMerge(l, older, newer, v, now, id);
    }
    assert m in LiveMemories(l1);
  }

  lemma IncreasingText(older: MemoryRecord, newer: MemoryRecord, v: ValidatedMerge)
    requires SoundMerge(older, newer, v)
    ensures Increasing(v.evidenceIds)
  {
  }

  lemma LiveIsStored(l: Ledger, m: MemoryRecord)
    requires m in LiveMemories(l)
    ensures Stored(l, m.id)
  {
    LiveIsCurrent(l, m);
  }

  // ----- A run of merges -----

  ghost predicate JoinedInOrder(l: Ledger, joints: seq<Joint>, made: seq<MemoryRecord>, now: int) {
    |made| == |joints| && forall k :: 0 <= k < |made| ==> Joins(made[k], joints[k], l.project, now) && !Stored(l, made[k].id)
  }

  /** What is live after a run: what it did not use, in its order, and then one new claim for each joint, in theirs. */
  ghost predicate LeavesLive(l: Ledger, l1: Ledger, used: set<Uuid>, joints: seq<Joint>, made: seq<MemoryRecord>, now: int) {
    LiveMemories(l1) == Filter(LiveMemories(l), Fix.NotAmong(used)) + made && JoinedInOrder(l, joints, made, now)
  }

  lemma NothingJoined(l: Ledger, now: int)
    ensures LeavesLive(l, l, {}, [], [], now)
  {
    hide LiveMemories;
    FilterAll(LiveMemories(l), Fix.NotAmong({}));
    hide Filter;
    assert LiveMemories(l) + [] == LiveMemories(l);
  }

  lemma JoinedOneMore(l: Ledger, joints: seq<Joint>, made: seq<MemoryRecord>, j: Joint, m: MemoryRecord, now: int)
    requires JoinedInOrder(l, joints, made, now) && Joins(m, j, l.project, now) && !Stored(l, m.id)
    ensures JoinedInOrder(l, joints + [j], made + [m], now)
  {
    hide Joins, Stored;
  }

  lemma MadeAreNew(l: Ledger, joints: seq<Joint>, made: seq<MemoryRecord>, now: int, m: MemoryRecord)
    requires JoinedInOrder(l, joints, made, now) && m in made
    ensures !Stored(l, m.id)
  {
    hide Joins, Stored;
  }

  /** One more merge in a run, of two memories that were there at the start. */
  lemma JoinOneMore(l: Ledger, before: Ledger, used: set<Uuid>, joints: seq<Joint>, made: seq<MemoryRecord>,
                    older: MemoryRecord, newer: MemoryRecord, v: ValidatedMerge, j: Joint, now: int) returns (m: MemoryRecord)
    requires LeavesLive(l, before, used, joints, made, now) && Sound(before) && TombstonesKnown(before) && Fix.Extends(l, before)
    requires Mergeable(before, older, newer, v) && Stored(l, older.id) && Stored(l, newer.id)
    requires SameClaim(older, j.older) && SameClaim(newer, j.newer)
    requires j.title == v.title && j.content == v.content && j.evidence == Members(v.evidenceIds)
    ensures LeavesLive(l, WriteMerge(before, older, newer, v, now).0, used + {older.id, newer.id}, joints + [j], made + [m], now)
  {
    hide *;
    MergeableGives(before, older, newer, v);
    IncreasingText(older, newer, v);
    Fix.ExtendsKeeps(l, before);
    m := Merged(before, older, newer, v, now);
    var l1 := WriteMerge(before, older, newer, v, now).0;
    MergeReplacesThePair(before, older, newer, v, now);
    MergedJoins(before, older, newer, v, now);
    JoinsSameClaims(m, Joint(older, newer, v.title, v.content, Members(v.evidenceIds)), j.older, j.newer, l.project, now);
    MergedIsUnknown(l, before, m);
    LeavesLiveGives(l, before, used, joints, made, now);
    JoinedOneMore(l, joints, made, j, m, now);
    forall x | x in made ensures x.id !in {older.id, newer.id} {
      MadeAreNew(l, joints, made, now, x);
    }
    RemovedTwice(LiveMemories(l), made, used, {older.id, newer.id});
    var kept := Filter(LiveMemories(l), Fix.NotAmong(used + {older.id, newer.id}));
    assert kept + made + [m] == kept + (made + [m]);
    LeavesLiveMeans(l, l1, used + {older.id, newer.id}, joints + [j], made + [m], now);
  }

  lemma LeavesLiveGives(l: Ledger, l1: Ledger, used: set<Uuid>, joints: seq<Joint>, made: seq<MemoryRecord>, now: int)
    requires LeavesLive(l, l1, used, joints, made, now)
    ensures LiveMemories(l1) == Filter(LiveMemories(l), Fix.NotAmong(used)) + made && JoinedInOrder(l, joints, made, now)
  {
  }

  lemma LeavesLiveMeans(l: Ledger, l1: Ledger, used: set<Uuid>, joints: seq<Joint>, made: seq<MemoryRecord>, now: int)
    requires LiveMemories(l1) == Filter(LiveMemories(l), Fix.NotAmong(used)) + made && JoinedInOrder(l, joints, made, now)
    ensures LeavesLive(l, l1, used, joints, made, now)
  {
  }

  // ----- A run without a review -----

  /** The pair of an accepted draft as it was at the start, under the reply's own text. */
  function DraftJoint(l: Ledger, d: DraftedCandidate): Joint
    requires Accepted(l, d)
  {
    Joint(CurrentMemory(l, d.olderId).value, CurrentMemory(l, d.newerId).value,
          Trim(d.reply.value.title), Trim(d.reply.value.content), Members(d.reply.value.evidenceIds))
  }

  function DraftJoints(l: Ledger, drafts: seq<DraftedCandidate>): seq<Joint> {
    if drafts == [] then []
    else
      var d := drafts[|drafts| - 1];
      DraftJoints(l, drafts[..|drafts| - 1]) + if Accepted(l, d) then [DraftJoint(l, d)] else []
  }

  lemma DraftJointsOneMore(l: Ledger, drafts: seq<DraftedCandidate>)
    requires drafts != []
    ensures var front, d := drafts[..|drafts| - 1], drafts[|drafts| - 1];
            DraftJoints(l, drafts) == DraftJoints(l, front) + if Accepted(l, d) then [DraftJoint(l, d)] else []
  {
    hide Accepted, DraftJoint;
  }

  lemma AcceptedTextIsTheReply(l: Ledger, d: DraftedCandidate)
    requires Accepted(l, d)
    ensures var v, j := AcceptedText(l, d), DraftJoint(l, d);
            && v.title == j.title && v.content == j.content && Members(v.evidenceIds) == j.evidence
            && j.older == CurrentMemory(l, d.olderId).value && j.newer == CurrentMemory(l, d.newerId).value
  {
    var older, newer := CurrentMemory(l, d.olderId).value, CurrentMemory(l, d.newerId).value;
    ValidationMeans(d.reply.value, MergeInputs(older.content, newer.content, AllowedEvidence(older, newer), d.unseen));
    hide ValidateMerge, AllowedEvidence, CurrentMemory, Trim, Increasing;
  }

  lemma UsedAfterDraft(l: Ledger, drafts: seq<DraftedCandidate>)
    requires drafts != []
    ensures var front, d := drafts[..|drafts| - 1], drafts[|drafts| - 1];
            Used(DraftPlan(l, drafts, true)) == Used(DraftPlan(l, front, true)) + if Accepted(l, d) then {d.olderId, d.newerId} else {}
  {
    hide *;
    var front, d := drafts[..|drafts| - 1], drafts[|drafts| - 1];
    var plan, o := DraftPlan(l, front, true), MergeOutcome(d.olderId, d.newerId, Accepted(l, d));
    PlanOfOneMore(l, drafts, true);
    DraftOutcomeMeans(l, d, true);
    OneMoreOutcome(l, plan, o);
    assert plan + [] == plan;
    if Accepted(l, d) {
      SidesOf(o);
    } else {
      NoSides(o);
    }
  }

  /**
   The claims that a run without a review makes: one for each accepted draft, in their order, each
   joining the draft's pair under the reply's text and citing what the reply cites.
   */
  lemma {:induction false} UnreviewedMergesJoin(l: Ledger, drafts: seq<DraftedCandidate>, now: int) returns (made: seq<MemoryRecord>)
    requires Sound(l) && TombstonesKnown(l) && MergeDrafts(l, drafts, true, now).1.Ok?
    requires NoneMade(l, MergeDrafts(l, drafts, true, now).0, drafts)
    ensures LeavesLive(l, MergeDrafts(l, drafts, true, now).0, Used(DraftPlan(l, drafts, true)), DraftJoints(l, drafts), made, now)
  {
    hide *;
    if drafts == [] {
      NoDrafts(l, true, now);
      NothingPlannedYet(l);
      NothingJoined(l, now);
      assert drafts == [];
      made := [];
    } else {
      var front, d := drafts[..|drafts| - 1], drafts[|drafts| - 1];
      FrontOnlyAppends(l, drafts, true, now);
      NoneMadeBefore(l, MergeDrafts(l, front, true, now).0, MergeDrafts(l, drafts, true, now).0, drafts);
      DraftsUnfold(l, drafts, true, now);
      DraftsKeepTrack(l, front, true, now);
      var before, report := MergeDrafts(l, front, true, now).0, MergeDrafts(l, front, true, now).1.value;
      made := UnreviewedMergesJoin(l, front, now);
      TracksGives(l, before, report.outcomes);
      SafeGives(l, before);
      DraftDuringRun(l, before, report.outcomes, d, true);
      DraftKeepsTrack(l, before, report, d, true, now);
      DraftJointsOneMore(l, drafts);
      UsedAfterDraft(l, drafts);
      if Accepted(l, d) {
        CurrentDuringRun(l, before, report.outcomes, d.olderId);
        CurrentDuringRun(l, before, report.outcomes, d.newerId);
        AcceptedPair(l, d);
        AcceptedPair(before, d);
        AcceptedDraft(before, report, d, now);
        DraftWritableMeans(before, d);
        AcceptedIsStored(l, d);
        AcceptedTextIsTheReply(l, d);
        var older, newer, v := CurrentMemory(before, d.olderId).value, CurrentMemory(before, d.newerId).value, AcceptedText(before, d);
        MergeableMeans(before, older, newer, v);
        var m := JoinOneMore(l, before, Used(DraftPlan(l, front, true)), DraftJoints(l, front), made, older, newer, v, DraftJoint(l, d), now);
        made := made + [m];
      } else {
        OtherDraft(before, report, d, true, now);
        assert Used(DraftPlan(l, front, true)) + {} == Used(DraftPlan(l, front, true));
        assert DraftJoints(l, front) + [] == DraftJoints(l, front);
      }
    }
  }

  lemma NothingPlannedYet(l: Ledger)
    ensures DraftPlan(l, [], true) == [] && Used([]) == {} && DraftJoints(l, []) == []
    ensures ReviewPlan(l, []) == [] && ReviewJoints(l, []) == []
  {
  }

  // ----- A reviewed sheet -----

  function ItemJoint(l: Ledger, item: ReviewItem): Joint
    requires MarkedCurrent(l, item.olderId).Some? && MarkedCurrent(l, item.newerId).Some?
  {
    var older, newer := MarkedCurrent(l, item.olderId).value, MarkedCurrent(l, item.newerId).value;
    Joint(older, newer, Trim(item.mergedTitle), Trim(item.mergedContent), Members(older.evidenceIds) + Members(newer.evidenceIds))
  }

  /** The pairs that a sheet will merge, as they are at the start, under the approved texts. */
  function ReviewJoints(l: Ledger, items: seq<ReviewItem>): seq<Joint> {
    if items == [] then []
    else
      var front, item := items[..|items| - 1], items[|items| - 1];
      ReviewJoints(l, front)
      + if Approved(item) && Passes(l, Used(ReviewPlan(l, front)), item) then [ItemJoint(l, item)] else []
  }

  lemma ReviewJointsOneMore(l: Ledger, items: seq<ReviewItem>)
    requires items != []
    ensures var front, item := items[..|items| - 1], items[|items| - 1];
            var passes := Approved(item) && Passes(l, Used(ReviewPlan(l, front)), item);
            && (passes ==> MarkedCurrent(l, item.olderId).Some? && MarkedCurrent(l, item.newerId).Some?)
            && ReviewJoints(l, items) == ReviewJoints(l, front) + (if passes then [ItemJoint(l, item)] else [])
  {
    hide Approved, ItemJoint, Used, MarkedCurrent, Recheck;
  }

  lemma UsedAfterItem(l: Ledger, items: seq<ReviewItem>)
    requires items != []
    ensures var front, item := items[..|items| - 1], items[|items| - 1];
            var passes := Approved(item) && Passes(l, Used(ReviewPlan(l, front)), item);
            Used(ReviewPlan(l, items)) == Used(ReviewPlan(l, front)) + if passes then {item.olderId, item.newerId} else {}
  {
    hide *;
    var front, item := items[..|items| - 1], items[|items| - 1];
    var plan := ReviewPlan(l, front);
    var o := MergeOutcome(item.olderId, item.newerId, Passes(l, Used(plan), item));
    PlanUnfolds(l, items);
    OneMoreOutcome(l, plan, o);
    assert plan + [] == plan;
    if Passes(l, Used(plan), item) {
      SidesOf(o);
    } else {
      NoSides(o);
    }
  }

  lemma RecheckedTextIsTheItem(l: Ledger, item: ReviewItem)
    requires MarkedCurrent(l, item.olderId).Some? && MarkedCurrent(l, item.newerId).Some?
    requires Recheck(MarkedCurrent(l, item.olderId).value, MarkedCurrent(l, item.newerId).value, item).Ok?
    ensures var older, newer := MarkedCurrent(l, item.olderId).value, MarkedCurrent(l, item.newerId).value;
            var v, j := Recheck(older, newer, item).value, ItemJoint(l, item);
            && v.title == j.title && v.content == j.content && Members(v.evidenceIds) == j.evidence
            && j.older == older && j.newer == newer
  {
    var older, newer := MarkedCurrent(l, item.olderId).value, MarkedCurrent(l, item.newerId).value;
    RecheckMeans(older, newer, item);
    var allowed := AllowedEvidence(older, newer);
    ValidationMeans(ProposedMerge(item.mergedTitle, item.mergedContent, allowed), MergeInputs(older.content, newer.content, allowed, []));
    hide ValidateMerge, AllowedEvidence, MarkedCurrent, Trim, Increasing, SoundMerge;
  }

  /**
   The claims that a reviewed sheet makes: one for each item it merges, in their order, each joining
   the item's pair under the approved text and citing everything the pair cites.
   */
  lemma {:induction false} ReviewedMergesJoin(l: Ledger, items: seq<ReviewItem>, now: int) returns (made: seq<MemoryRecord>)
    requires Sound(l) && TombstonesKnown(l) && ApplyReviewed(l, items, now).1.Ok?
    requires NamesNothingMade(l, ApplyReviewed(l, items, now).0, items)
    ensures LeavesLive(l, ApplyReviewed(l, items, now).0, Used(ReviewPlan(l, items)), ReviewJoints(l, items), made, now)
  {
    hide *;
    if items == [] {
      EmptyPlan(l, now);
      NothingPlannedYet(l);
      NothingJoined(l, now);
      assert items == [];
      made := [];
    } else {
      var front, item := items[..|items| - 1], items[|items| - 1];
      var before, result := ApplyReviewed(l, front, now).0, ApplyReviewed(l, front, now).1;
      SheetUnfolds(l, items, now);
      ReviewedMergesConserve(l, front, now);
      ItemOnlyAppends(before, result.value, item, now);
      NamesNothingMadeBefore(l, before, ApplyReviewed(l, items, now).0, items);
      made := ReviewedMergesJoin(l, front, now);
      SheetGoesAsPlanned(l, front, now);
      SheetMakesProgress(l, front, now);
      SheetGives(l, before, result.value);
      TracksGives(l, before, result.value.outcomes);
      SafeGives(l, before);
      MarkedDuringRun(l, before, result.value.outcomes, item.olderId);
      MarkedDuringRun(l, before, result.value.outcomes, item.newerId);
      PassesMeans(l, Used(ReviewPlan(l, front)), item);
      ReviewJointsOneMore(l, items);
      UsedAfterItem(l, items);
      if Approved(item) && Passes(l, Used(ReviewPlan(l, front)), item) {
        var m := MergeOneItem(l, before, items, made, item, result.value, now);
        made := made + [m];
      } else {
        PassedOverItem(before, result.value, item, now);
        assert Used(ReviewPlan(l, front)) + {} == Used(ReviewPlan(l, front));
        assert ReviewJoints(l, front) + [] == ReviewJoints(l, front);
      }
    }
  }

  lemma MergeOneItem(l: Ledger, before: Ledger, items: seq<ReviewItem>, made: seq<MemoryRecord>, item: ReviewItem, report: MergeReport, now: int)
    returns (m: MemoryRecord)
    requires items != [] && item == items[|items| - 1] && Approved(item)
    requires Sound(before) && TombstonesKnown(before) && Fix.Extends(l, before)
    requires var front := items[..|items| - 1];
             LeavesLive(l, before, Used(ReviewPlan(l, front)), ReviewJoints(l, front), made, now)
    requires MarkedCurrent(l, item.olderId).Some? && MarkedCurrent(l, item.newerId).Some?
    requires MarkedCurrent(before, item.olderId) == MarkedCurrent(l, item.olderId)
    requires MarkedCurrent(before, item.newerId) == MarkedCurrent(l, item.newerId)
    requires Recheck(MarkedCurrent(l, item.olderId).value, MarkedCurrent(l, item.newerId).value, item).Ok?
    requires ApplyItem(before, report, item, now).1.Ok?
    ensures var front := items[..|items| - 1];
            LeavesLive(l, ApplyItem(before, report, item, now).0, Used(ReviewPlan(l, front)) + {item.olderId, item.newerId},
                       ReviewJoints(l, front) + [ItemJoint(l, item)], made + [m], now)
  {
    hide *;
    var front := items[..|items| - 1];
    var older, newer := MarkedCurrent(l, item.olderId).value, MarkedCurrent(l, item.newerId).value;
    var v := Recheck(older, newer, item).value;
    WrittenItem(before, report, item, now);
    WritableMerge(before, item, now);
    PairOfMarked(before, item);
    RecheckMeans(older, newer, item);
    MergeableMeans(before, older, newer, v);
    MarkedIsStoredHere(l, item.olderId);
    MarkedIsStoredHere(l, item.newerId);
    RecheckedTextIsTheItem(l, item);
    ClaimIsItself(older);
    ClaimIsItself(newer);
    var written := WriteMerge(before, older, newer, v, now);
    assert written.1.Ok? && ApplyItem(before, report, item, now).0 == written.0;
    m := JoinOneMore(l, before, Used(ReviewPlan(l, front)), ReviewJoints(l, front), made, older, newer, v, ItemJoint(l, item), now);
  }

  lemma MarkedIsStoredHere(l: Ledger, id: Uuid)
    requires MarkedCurrent(l, id).Some?
    ensures Stored(l, id)
  {
  }

  lemma ClaimIsItself(m: MemoryRecord)
    ensures SameClaim(m, m)
  {
  }

  // ----- What a run reports -----

  /** A report with these counts added and one more outcome at its end. */
  predicate Adds(report: MergeReport, was: MergeReport, proposed: nat, applied: nat, refused: nat, outcome: MergeOutcome) {
    && report.proposed == was.proposed + proposed && report.applied == was.applied + applied
    && report.refused == was.refused + refused && report.outcomes == was.outcomes + [outcome]
  }

  predicate IsCurrentNow(found: Option<MemoryRecord>) {
    found.Some? && found.value.status == MemoryStatus.Current
  }

  /** A title and a content, shorter than both sides together. */
  predicate IsShorter(older: MemoryRecord, newer: MemoryRecord, title: string, content: string) {
    Trim(title) != "" && Trim(content) != "" && |Trim(content)| < |Trim(older.content)| + |Trim(newer.content)|
  }

  predicate HoldsItem(older: Option<MemoryRecord>, newer: Option<MemoryRecord>, item: ReviewItem) {
    && IsCurrentNow(older) && IsCurrentNow(newer)
    && IsShorter(older.value, newer.value, item.mergedTitle, item.mergedContent)
    && (older.value.evidenceIds != [] || newer.value.evidenceIds != [])
  }

  lemma RecheckIff(older: MemoryRecord, newer: MemoryRecord, item: ReviewItem)
    ensures Recheck(older, newer, item).Ok? <==>
              IsShorter(older, newer, item.mergedTitle, item.mergedContent) && (older.evidenceIds != [] || newer.evidenceIds != [])
  {
    var allowed := AllowedEvidence(older, newer);
    ValidationMeans(ProposedMerge(item.mergedTitle, item.mergedContent, allowed), MergeInputs(older.content, newer.content, allowed, []));
    AllowedIff(older, newer);
    hide ValidateMerge, AllowedEvidence, Trim, Increasing;
  }

  lemma AllowedIff(older: MemoryRecord, newer: MemoryRecord)
    ensures forall x :: x in AllowedEvidence(older, newer) <==> x in older.evidenceIds || x in newer.evidenceIds
    ensures AllowedEvidence(older, newer) == [] <==> older.evidenceIds == [] && newer.evidenceIds == []
  {
    forall x ensures x in AllowedEvidence(older, newer) <==> x in older.evidenceIds || x in newer.evidenceIds {
      SortedIdsMembers(older.evidenceIds + newer.evidenceIds, x);
    }
    hide AllowedEvidence;
    if older.evidenceIds != [] {
      assert older.evidenceIds[0] in AllowedEvidence(older, newer);
    }
    if newer.evidenceIds != [] {
      assert newer.evidenceIds[0] in AllowedEvidence(older, newer);
    }
    if AllowedEvidence(older, newer) != [] {
      assert AllowedEvidence(older, newer)[0] in AllowedEvidence(older, newer);
    }
  }

  /**
   What becomes of one item of a sheet. Without an approval nothing happens; an approved item is refused
   unless both memories are current and its text is shorter than theirs; and each is counted once.
   */
  lemma ItemSays(l: Ledger, report: MergeReport, item: ReviewItem, now: int)
    ensures var (l1, result) := ApplyItem(l, report, item, now);
            if Lower(Trim(item.decision)) != "approve" then l1 == l && result == Ok(report)
            else if HoldsItem(CurrentMemory(l, item.olderId), CurrentMemory(l, item.newerId), item) then
              result.Ok? ==> Adds(result.value, report, 1, 1, 0, MergeOutcome(item.olderId, item.newerId, true))
            else
              l1 == l && result.Ok? && Adds(result.value, report, 1, 0, 1, MergeOutcome(item.olderId, item.newerId, false))
  {
    ApprovedIff(item);
    HoldsItemIff(l, item);
    hide Approved, CurrentMemory, HoldsItem, MarkedCurrent, Recheck, WriteMerge, Trim, Lower;
  }

  lemma ApprovedIff(item: ReviewItem)
    ensures Approved(item) <==> Lower(Trim(item.decision)) == "approve"
  {
  }

  lemma HoldsItemIff(l: Ledger, item: ReviewItem)
    ensures HoldsItem(CurrentMemory(l, item.olderId), CurrentMemory(l, item.newerId), item) <==>
              var older, newer := MarkedCurrent(l, item.olderId), MarkedCurrent(l, item.newerId);
              older.Some? && newer.Some? && Recheck(older.value, newer.value, item).Ok?
  {
    var older, newer := CurrentMemory(l, item.olderId), CurrentMemory(l, item.newerId);
    if older.Some? && newer.Some? {
      RecheckIff(older.value, newer.value, item);
    }
    hide CurrentMemory, Recheck, IsShorter;
  }

  predicate HoldsDraft(older: MemoryRecord, newer: MemoryRecord, d: DraftedCandidate) {
    && d.reply.Some? && IsShorter(older, newer, d.reply.value.title, d.reply.value.content) && d.reply.value.evidenceIds != []
    && (forall x :: x in d.reply.value.evidenceIds ==> x in older.evidenceIds || x in newer.evidenceIds)
    && (forall x :: x in d.unseen ==> x in d.reply.value.evidenceIds)
  }

  lemma CheckDraftIff(older: MemoryRecord, newer: MemoryRecord, d: DraftedCandidate)
    ensures CheckDraft(older, newer, d).Some? <==> HoldsDraft(older, newer, d)
  {
    if d.reply.Some? {
      ValidationMeans(d.reply.value, MergeInputs(older.content, newer.content, AllowedEvidence(older, newer), d.unseen));
    }
    AllowedIff(older, newer);
    hide ValidateMerge, AllowedEvidence, Trim, Increasing;
  }

  /**
   What becomes of one candidate without a review. It is passed over when a memory of the pair is gone,
   refused without a reply that holds, and otherwise proposed, and applied when asked to.
   */
  lemma DraftSays(l: Ledger, report: MergeReport, d: DraftedCandidate, apply: bool, now: int)
    ensures var (l1, result) := MergeDraft(l, report, d, apply, now);
            var older, newer := CurrentMemory(l, d.olderId), CurrentMemory(l, d.newerId);
            if older.None? || newer.None? then l1 == l && result == Ok(report)
            else if !HoldsDraft(older.value, newer.value, d) then
              l1 == l && result.Ok? && Adds(result.value, report, 0, 0, 1, MergeOutcome(d.olderId, d.newerId, false))
            else if !apply then
              l1 == l && result.Ok? && Adds(result.value, report, 1, 0, 0, MergeOutcome(d.olderId, d.newerId, false))
            else
              result.Ok? ==> Adds(result.value, report, 1, 1, 0, MergeOutcome(d.olderId, d.newerId, true))
  {
    var older, newer := CurrentMemory(l, d.olderId), CurrentMemory(l, d.newerId);
    if older.Some? && newer.Some? {
      LatestIsStored(l.versions, d.olderId);
      LatestIsStored(l.versions, d.newerId);
      assert older.value.id == d.olderId && newer.value.id == d.newerId;
      CheckDraftIff(older.value, newer.value, d);
    }
    hide CurrentMemory, CheckDraft, WriteMerge, HoldsDraft;
  }
}
