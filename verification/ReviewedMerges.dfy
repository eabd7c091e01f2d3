/** A reviewed sheet: what it keeps item by item, when it conserves, and how it can be foreseen. */
module ReviewedMerges {
  import opened Common
  import opened Memory
  import opened MemoryLedger
  import opened Merge
  import opened Revise
  import opened MergeRuns
  import Fix = ReconcileFixpoint

  // ----- A reviewed sheet -----

  /** What the pair cites, if a side is dead: the events a merge of it brings back. */
  function DeadSide(l: Ledger, id: Uuid): set<Uuid> {
    if Dead(l, id) then Members(Latest(l.versions, id).value.evidenceIds) else {}
  }

  function DeadEvidence(l: Ledger, outcomes: seq<MergeOutcome>): set<Uuid> {
    if outcomes == [] then {}
    else
      var front, o := outcomes[..|outcomes| - 1], outcomes[|outcomes| - 1];
      DeadEvidence(l, front) + if o.applied then DeadSide(l, o.olderId) + DeadSide(l, o.newerId) else {}
  }

  lemma OneMoreEvidence(l: Ledger, outcomes: seq<MergeOutcome>, o: MergeOutcome)
    ensures DeadEvidence(l, outcomes + [o])
         == DeadEvidence(l, outcomes) + if o.applied then DeadSide(l, o.olderId) + DeadSide(l, o.newerId) else {}
  {
    assert (outcomes + [o])[..|outcomes|] == outcomes;
    hide DeadSide;
  }

  lemma {:induction false} NoDeadEvidence(l: Ledger, outcomes: seq<MergeOutcome>)
    requires NoDeadSide(l, outcomes)
    ensures DeadEvidence(l, outcomes) == {}
  {
    hide Dead;
    if outcomes != [] {
      NoDeadEvidence(l, outcomes[..|outcomes| - 1]);
    }
  }

  /** The report adds up. */
  predicate Balanced(report: MergeReport) {
    report.applied == AppliedCount(report.outcomes) && report.proposed == report.applied + report.refused == |report.outcomes|
  }

  /** What was used and was stored at the start was marked current then. */
  ghost predicate SidesWereMarked(l: Ledger, outcomes: seq<MergeOutcome>) {
    forall id :: id in Used(outcomes) && Stored(l, id) ==> MarkedCurrent(l, id).Some?
  }

  lemma MarkedOneMore(l: Ledger, outcomes: seq<MergeOutcome>, o: MergeOutcome)
    requires SidesWereMarked(l, outcomes)
    requires o.applied ==> forall id :: id == o.olderId || id == o.newerId ==> Stored(l, id) ==> MarkedCurrent(l, id).Some?
    ensures SidesWereMarked(l, outcomes + [o])
  {
    OneMoreOutcome(l, outcomes, o);
    hide MarkedCurrent, Stored, Used;
  }

  /** What a sheet keeps, item by item, on any sound ledger. */
  ghost predicate SheetProgress(was: Ledger, l: Ledger, report: MergeReport) {
    && Tracks(was, l, report.outcomes)
    && Balanced(report) && ConsumedOnce(report.outcomes) && SidesWereMarked(was, report.outcomes)
    && Cited(LiveMemories(l)) == Cited(LiveMemories(was)) + DeadEvidence(was, report.outcomes)
  }

  lemma SheetGives(was: Ledger, l: Ledger, report: MergeReport)
    requires SheetProgress(was, l, report)
    ensures Tracks(was, l, report.outcomes) && Balanced(report) && ConsumedOnce(report.outcomes)
    ensures SidesWereMarked(was, report.outcomes)
    ensures Cited(LiveMemories(l)) == Cited(LiveMemories(was)) + DeadEvidence(was, report.outcomes)
  {
  }

  lemma SheetMeans(was: Ledger, l: Ledger, report: MergeReport)
    requires Tracks(was, l, report.outcomes) && Balanced(report) && ConsumedOnce(report.outcomes)
    requires SidesWereMarked(was, report.outcomes)
    requires Cited(LiveMemories(l)) == Cited(LiveMemories(was)) + DeadEvidence(was, report.outcomes)
    ensures SheetProgress(was, l, report)
  {
  }

  lemma RefusalKeepsProgress(was: Ledger, l: Ledger, report: MergeReport, item: ReviewItem)
    requires SheetProgress(was, l, report)
    ensures SheetProgress(was, l, Refuse(report, item))
  {
    SheetGives(was, l, report);
    var o := MergeOutcome(item.olderId, item.newerId, false);
    OneMoreOutcome(was, report.outcomes, o);
    OneMoreEvidence(was, report.outcomes, o);
    MarkedOneMore(was, report.outcomes, o);
    hide SidesWereMarked, Tracks, ConsumedOnce, SheetProgress, AppliedCount, DeadEvidence;
    UnappliedKeepsTrack(was, l, report.outcomes, o);
    SheetMeans(was, l, Refuse(report, item));
  }

  /** A side that is marked current has not been used, and cites what it cited at the start. */
  lemma MarkedIsUnused(was: Ledger, l: Ledger, outcomes: seq<MergeOutcome>, id: Uuid)
    requires Accounted(was, l, outcomes, id) && MarkedCurrent(l, id).Some? && l.withdrawn == was.withdrawn
    ensures id !in Used(outcomes)
    ensures Stored(was, id) ==> MarkedCurrent(was, id).Some?
    ensures DeadSide(was, id) <= Members(MarkedCurrent(l, id).value.evidenceIds)
    ensures Members(MarkedCurrent(l, id).value.evidenceIds) <= Cited(LiveMemories(l)) + DeadSide(was, id)
  {
    MarkedIsStored(l, id);
    if !Dead(was, id) {
      LiveSideIsCited(l, MarkedCurrent(l, id).value);
    }
    hide Used, Cited, LiveMemories, Live, Latest;
  }

  lemma RecordKeepsProgress(was: Ledger, l: Ledger, report: MergeReport, item: ReviewItem, now: int)
    requires SheetProgress(was, l, report)
    requires MarkedCurrent(l, item.olderId).Some? && MarkedCurrent(l, item.newerId).Some?
    requires var older, newer := MarkedCurrent(l, item.olderId).value, MarkedCurrent(l, item.newerId).value;
             && Recheck(older, newer, item).Ok? && older.id != newer.id
             && FitsTheColumns(Recheck(older, newer, item).value)
    ensures var older, newer := MarkedCurrent(l, item.olderId).value, MarkedCurrent(l, item.newerId).value;
            SheetProgress(was, WriteMerge(l, older, newer, Recheck(older, newer, item).value, now).0, Record(report, item))
  {
    hide *;
    var older, newer := MarkedCurrent(l, item.olderId).value, MarkedCurrent(l, item.newerId).value;
    var v := Recheck(older, newer, item).value;
    var l1, o := WriteMerge(l, older, newer, v, now).0, MergeOutcome(item.olderId, item.newerId, true);
    SheetGives(was, l, report);
    TracksGives(was, l, report.outcomes);
    SafeGives(was, l);
    MarkedIsStored(l, item.olderId);
    MarkedIsStored(l, item.newerId);
    PairOfMarked(l, item);
    RecheckMeans(older, newer, item);
    MergeableMeans(l, older, newer, v);
    MergeKeepsTrack(was, l, older, newer, v, now, report.outcomes);
    MergeDelta(l, older, newer, item, now);
    MarkedIsUnused(was, l, report.outcomes, item.olderId);
    MarkedIsUnused(was, l, report.outcomes, item.newerId);
    OneMoreEvidence(was, report.outcomes, o);
    MarkedOneMore(was, report.outcomes, o);
    ConsumedOnceMore(report.outcomes, o);
    SidesOf(o);
    RecordBalances(report, item);
    SheetMeans(was, l1, Record(report, item));
  }

  lemma RecordBalances(report: MergeReport, item: ReviewItem)
    requires Balanced(report)
    ensures Balanced(Record(report, item))
    ensures Record(report, item).outcomes == report.outcomes + [MergeOutcome(item.olderId, item.newerId, true)]
  {
    assert (report.outcomes + [MergeOutcome(item.olderId, item.newerId, true)])[..|report.outcomes|] == report.outcomes;
  }

  /** When an approved item makes the run fail: it passes the recheck, but names one memory twice or does not fit. */
  predicate Unwritable(l: Ledger, item: ReviewItem) {
    && Approved(item)
    && MarkedCurrent(l, item.olderId).Some? && MarkedCurrent(l, item.newerId).Some?
    && var older, newer := MarkedCurrent(l, item.olderId).value, MarkedCurrent(l, item.newerId).value;
       && Recheck(older, newer, item).Ok?
       && (item.olderId == item.newerId || !FitsTheColumns(Recheck(older, newer, item).value))
  }

  lemma WritableMerge(l: Ledger, item: ReviewItem, now: int)
    requires Sound(l) && TombstonesKnown(l)
    requires MarkedCurrent(l, item.olderId).Some? && MarkedCurrent(l, item.newerId).Some?
    requires Recheck(MarkedCurrent(l, item.olderId).value, MarkedCurrent(l, item.newerId).value, item).Ok?
    ensures var older, newer := MarkedCurrent(l, item.olderId).value, MarkedCurrent(l, item.newerId).value;
            var (l1, written) := WriteMerge(l, older, newer, Recheck(older, newer, item).value, now);
            && older.id == item.olderId && newer.id == item.newerId
            && (written.Ok? <==> item.olderId != item.newerId && FitsTheColumns(Recheck(older, newer, item).value))
            && (written.Err? ==> l1 == l) && (written.Ok? ==> Fix.Extends(l, l1))
  {
    hide *;
    var older, newer := MarkedCurrent(l, item.olderId).value, MarkedCurrent(l, item.newerId).value;
    var v := Recheck(older, newer, item).value;
    MarkedIsStored(l, item.olderId);
    MarkedIsStored(l, item.newerId);
    PairOfMarked(l, item);
    RecheckMeans(older, newer, item);
    if older.id != newer.id && FitsTheColumns(v) {
      MergeReplacesThePair(l, older, newer, v, now);
    } else {
      RefusedMergeWritesNothing(l, older, newer, v, now);
    }
  }

  /** One item: it fails exactly when it is unwritable, leaving the ledger alone, and otherwise makes progress. */
  lemma ItemKeepsProgress(was: Ledger, l: Ledger, report: MergeReport, item: ReviewItem, now: int)
    requires SheetProgress(was, l, report)
    ensures var (l1, result) := ApplyItem(l, report, item, now);
            && (result.Err? <==> Unwritable(l, item))
            && (result.Err? ==> l1 == l)
            && (result.Ok? ==> SheetProgress(was, l1, result.value))
  {
    hide *;
    SheetGives(was, l, report);
    TracksGives(was, l, report.outcomes);
    SafeGives(was, l);
    if Approved(item) && MarkedCurrent(l, item.olderId).Some? && MarkedCurrent(l, item.newerId).Some?
       && Recheck(MarkedCurrent(l, item.olderId).value, MarkedCurrent(l, item.newerId).value, item).Ok? {
      var older, newer := MarkedCurrent(l, item.olderId).value, MarkedCurrent(l, item.newerId).value;
      var written := WriteMerge(l, older, newer, Recheck(older, newer, item).value, now);
      WritableMerge(l, item, now);
      WrittenItem(l, report, item, now);
      assert written.1.Err? ==> written.0 == l;
      assert ApplyItem(l, report, item, now).0 == written.0;
      if !Unwritable(l, item) {
        RecordKeepsProgress(was, l, report, item, now);
      }
    } else {
      PassedOverItem(l, report, item, now);
      RefusalKeepsProgress(was, l, report, item);
    }
  }

  lemma WrittenItem(l: Ledger, report: MergeReport, item: ReviewItem, now: int)
    requires Approved(item) && MarkedCurrent(l, item.olderId).Some? && MarkedCurrent(l, item.newerId).Some?
    requires Recheck(MarkedCurrent(l, item.olderId).value, MarkedCurrent(l, item.newerId).value, item).Ok?
    ensures var older, newer := MarkedCurrent(l, item.olderId).value, MarkedCurrent(l, item.newerId).value;
            var (l1, written) := WriteMerge(l, older, newer, Recheck(older, newer, item).value, now);
            ApplyItem(l, report, item, now) == (l1, if written.Ok? then Ok(Record(report, item)) else Err(written.error))
    ensures var older, newer := MarkedCurrent(l, item.olderId).value, MarkedCurrent(l, item.newerId).value;
            Unwritable(l, item) <==> item.olderId == item.newerId || !FitsTheColumns(Recheck(older, newer, item).value)
  {
    hide Approved, MarkedCurrent, Recheck, WriteMerge, Record, FitsTheColumns;
    var older, newer := MarkedCurrent(l, item.olderId).value, MarkedCurrent(l, item.newerId).value;
    var (l1, written) := WriteMerge(l, older, newer, Recheck(older, newer, item).value, now);
    assert written.Err? ==> ApplyItem(l, report, item, now) == (l1, Err(written.error));
    assert written.Ok? ==> ApplyItem(l, report, item, now) == (l1, Ok(Record(report, item)));
  }

  lemma PassedOverItem(l: Ledger, report: MergeReport, item: ReviewItem, now: int)
    requires !(Approved(item) && MarkedCurrent(l, item.olderId).Some? && MarkedCurrent(l, item.newerId).Some?
               && Recheck(MarkedCurrent(l, item.olderId).value, MarkedCurrent(l, item.newerId).value, item).Ok?)
    ensures ApplyItem(l, report, item, now) == (l, Ok(if Approved(item) then Refuse(report, item) else report))
    ensures !Unwritable(l, item)
  {
    hide Approved, MarkedCurrent, Recheck, WriteMerge, Refuse, FitsTheColumns;
  }

  lemma NothingReviewedYet(l: Ledger)
    requires Sound(l) && TombstonesKnown(l)
    ensures SheetProgress(l, l, EMPTY_REPORT)
  {
    hide *;
    NothingWrittenYet(l);
    NothingIsUsedYet();
    EmptyReportBalances(l);
    NothingWasMarked(l);
    SheetMeans(l, l, EMPTY_REPORT);
  }

  lemma EmptyReportBalances(l: Ledger)
    ensures Balanced(EMPTY_REPORT) && EMPTY_REPORT.outcomes == [] && DeadEvidence(l, []) == {}
  {
  }

  lemma NothingWasMarked(l: Ledger)
    ensures SidesWereMarked(l, [])
  {
    hide Stored, MarkedCurrent;
    NothingIsUsedYet();
  }

  /** On any sound ledger a sheet makes progress, up to the item it fails on, if it fails. */
  lemma {:induction false} SheetMakesProgress(l: Ledger, items: seq<ReviewItem>, now: int)
    requires Sound(l) && TombstonesKnown(l)
    ensures var (l1, result) := ApplyReviewed(l, items, now);
            && (result.Ok? ==> SheetProgress(l, l1, result.value))
            && (result.Err? ==> exists report :: SheetProgress(l, l1, report))
  {
    hide SheetProgress, ApplyItem, Sound, TombstonesKnown;
    if items == [] {
      NothingReviewedYet(l);
    } else {
      var front := items[..|items| - 1];
      SheetMakesProgress(l, front, now);
      var before, result := ApplyReviewed(l, front, now).0, ApplyReviewed(l, front, now).1;
      if result.Ok? {
        ItemKeepsProgress(l, before, result.value, items[|items| - 1], now);
      }
    }
  }

  /**
   Reviewed merges, on any sound ledger and any sheet. No stored version is lost, no memory is used in
   two merges, what was used is retired, and the report counts what was applied. The number of live
   memories falls by the number of merges, but for each side that was dead at the start; the events
   cited by live memories are the ones cited before and what those dead sides cite. So a sheet
   conserves, with one live memory less for each merge and the same cited events, exactly when no
   applied merge has a side that was dead at the start, which is to say retracted although it was
   marked current.
   */
  lemma ReviewedMergesConserve(l: Ledger, items: seq<ReviewItem>, now: int)
    requires Sound(l) && TombstonesKnown(l)
    ensures var (l1, result) := ApplyReviewed(l, items, now);
            && Sound(l1) && TombstonesKnown(l1) && Fix.Extends(l, l1)
            && (result.Ok? ==>
                  var report := result.value;
                  && Balanced(report) && ConsumedOnce(report.outcomes) && AllRetired(l1, report.outcomes)
                  && SidesWereMarked(l, report.outcomes)
                  && |LiveMemories(l1)| + report.applied == |LiveMemories(l)| + WastedSides(l, report.outcomes)
                  && Cited(LiveMemories(l1)) == Cited(LiveMemories(l)) + DeadEvidence(l, report.outcomes)
                  && (|LiveMemories(l1)| + report.applied == |LiveMemories(l)| <==> NoDeadSide(l, report.outcomes))
                  && (NoDeadSide(l, report.outcomes) ==> Cited(LiveMemories(l1)) == Cited(LiveMemories(l))))
  {
    hide *;
    var l1, result := ApplyReviewed(l, items, now).0, ApplyReviewed(l, items, now).1;
    SheetMakesProgress(l, items, now);
    if result.Ok? {
      var report := result.value;
      SheetGives(l, l1, report);
      TracksGives(l, l1, report.outcomes);
      SafeGives(l, l1);
      BalancedGives(report);
      UsedAreRetired(l, l1, report.outcomes);
      NothingWastedIff(l, report.outcomes);
      if NoDeadSide(l, report.outcomes) {
        NoDeadEvidence(l, report.outcomes);
      }
    } else {
      var report :| SheetProgress(l, l1, report);
      SheetGives(l, l1, report);
      TracksGives(l, l1, report.outcomes);
      SafeGives(l, l1);
    }
  }

  /** Where statuses tell the truth, every sheet conserves. */
  lemma TruthfulSheetConserves(l: Ledger, items: seq<ReviewItem>, now: int)
    requires Sound(l) && TombstonesKnown(l) && StatusTells(l) && ApplyReviewed(l, items, now).1.Ok?
    ensures var (l1, result) := ApplyReviewed(l, items, now);
            && |LiveMemories(l1)| + result.value.applied == |LiveMemories(l)|
            && Cited(LiveMemories(l1)) == Cited(LiveMemories(l))
  {
    hide *;
    ReviewedMergesConserve(l, items, now);
    MarkedSidesAreNotDead(l, ApplyReviewed(l, items, now).1.value.outcomes);
  }

  lemma MarkedSidesAreNotDead(l: Ledger, outcomes: seq<MergeOutcome>)
    requires StatusTells(l) && SidesWereMarked(l, outcomes)
    ensures NoDeadSide(l, outcomes)
  {
    hide Used, Latest, Live;
    forall id | id in Used(outcomes) ensures !Dead(l, id) {
      if Stored(l, id) {
        assert MarkedCurrent(l, id).Some?;
      }
    }
  }

  lemma BalancedGives(report: MergeReport)
    requires Balanced(report)
    ensures report.applied == AppliedCount(report.outcomes) && report.proposed == report.applied + report.refused == |report.outcomes|
  {
  }

  // ----- A sheet foreseen -----

  /** Whether an approved item will be merged, given what earlier items used. It is read off the starting ledger. */
  predicate Passes(l: Ledger, used: set<Uuid>, item: ReviewItem) {
    && item.olderId !in used && item.newerId !in used
    && MarkedCurrent(l, item.olderId).Some? && MarkedCurrent(l, item.newerId).Some?
    && Recheck(MarkedCurrent(l, item.olderId).value, MarkedCurrent(l, item.newerId).value, item).Ok?
  }

  function ReviewPlan(l: Ledger, items: seq<ReviewItem>): seq<MergeOutcome> {
    if items == [] then []
    else
      var before, item := ReviewPlan(l, items[..|items| - 1]), items[|items| - 1];
      before + if Approved(item) then [MergeOutcome(item.olderId, item.newerId, Passes(l, Used(before), item))] else []
  }

  /** No item that will be merged names one memory twice or makes a claim that is too long. */
  predicate PlanIsWritable(l: Ledger, items: seq<ReviewItem>) {
    items == []
    || var before, item := ReviewPlan(l, items[..|items| - 1]), items[|items| - 1];
       && PlanIsWritable(l, items[..|items| - 1])
       && (Approved(item) && Passes(l, Used(before), item) ==>
             item.olderId != item.newerId
             && FitsTheColumns(Recheck(MarkedCurrent(l, item.olderId).value, MarkedCurrent(l, item.newerId).value, item).value))
  }

  /** During a run, a memory is marked current as it was at the start, unless the run used it. */
  lemma MarkedDuringRun(was: Ledger, l: Ledger, outcomes: seq<MergeOutcome>, id: Uuid)
    requires Accounted(was, l, outcomes, id) && NotMade(was, l, id) && l.withdrawn == was.withdrawn
    ensures MarkedCurrent(l, id) == if id in Used(outcomes) then None else MarkedCurrent(was, id)
  {
    hide Used, Latest, FreshId, Dead, Live;
  }

  lemma ItemAsPlanned(was: Ledger, l: Ledger, report: MergeReport, item: ReviewItem, now: int)
    requires SheetProgress(was, l, report) && NotMade(was, l, item.olderId) && NotMade(was, l, item.newerId)
    ensures var passes := Passes(was, Used(report.outcomes), item);
            var (l1, result) := ApplyItem(l, report, item, now);
            && (Unwritable(l, item) <==>
                  Approved(item) && passes
                  && !(item.olderId != item.newerId
                       && FitsTheColumns(Recheck(MarkedCurrent(was, item.olderId).value, MarkedCurrent(was, item.newerId).value, item).value)))
            && (result.Ok? ==>
                  result.value.outcomes
                  == report.outcomes + if Approved(item) then [MergeOutcome(item.olderId, item.newerId, passes)] else [])
  {
    hide *;
    SheetGives(was, l, report);
    TracksGives(was, l, report.outcomes);
    SafeGives(was, l);
    MarkedDuringRun(was, l, report.outcomes, item.olderId);
    MarkedDuringRun(was, l, report.outcomes, item.newerId);
    PassesMeans(was, Used(report.outcomes), item);
    ReportsOneMore(report, item);
    if Approved(item) && MarkedCurrent(l, item.olderId).Some? && MarkedCurrent(l, item.newerId).Some?
       && Recheck(MarkedCurrent(l, item.olderId).value, MarkedCurrent(l, item.newerId).value, item).Ok? {
      WrittenItem(l, report, item, now);
    } else {
      PassedOverItem(l, report, item, now);
      assert report.outcomes + [] == report.outcomes;
    }
  }

  lemma PassesMeans(l: Ledger, used: set<Uuid>, item: ReviewItem)
    ensures Passes(l, used, item) <==>
              && item.olderId !in used && item.newerId !in used
              && MarkedCurrent(l, item.olderId).Some? && MarkedCurrent(l, item.newerId).Some?
              && Recheck(MarkedCurrent(l, item.olderId).value, MarkedCurrent(l, item.newerId).value, item).Ok?
  {
    hide MarkedCurrent, Recheck;
  }

  lemma ReportsOneMore(report: MergeReport, item: ReviewItem)
    ensures Refuse(report, item).outcomes == report.outcomes + [MergeOutcome(item.olderId, item.newerId, false)]
    ensures Record(report, item).outcomes == report.outcomes + [MergeOutcome(item.olderId, item.newerId, true)]
  {
  }

  lemma ItemOnlyAppends(l: Ledger, report: MergeReport, item: ReviewItem, now: int)
    requires Sound(l) && TombstonesKnown(l)
    ensures l.versions <= ApplyItem(l, report, item, now).0.versions
  {
    hide *;
    if Approved(item) && MarkedCurrent(l, item.olderId).Some? && MarkedCurrent(l, item.newerId).Some?
       && Recheck(MarkedCurrent(l, item.olderId).value, MarkedCurrent(l, item.newerId).value, item).Ok? {
      var older, newer := MarkedCurrent(l, item.olderId).value, MarkedCurrent(l, item.newerId).value;
      var written := WriteMerge(l, older, newer, Recheck(older, newer, item).value, now);
      WrittenItem(l, report, item, now);
      WritableMerge(l, item, now);
      assert ApplyItem(l, report, item, now).0 == written.0;
      if written.1.Ok? {
        Fix.ExtendsKeeps(l, written.0);
      }
    } else {
      PassedOverItem(l, report, item, now);
    }
  }

  /** No item names a memory that applying the sheet itself makes. It may name any other, known or unknown. */
  ghost predicate NamesNothingMade(l: Ledger, l1: Ledger, items: seq<ReviewItem>) {
    forall item :: item in items ==> NotMade(l, l1, item.olderId) && NotMade(l, l1, item.newerId)
  }

  lemma NamesNothingMadeBefore(l: Ledger, before: Ledger, l1: Ledger, items: seq<ReviewItem>)
    requires NamesNothingMade(l, l1, items) && before.versions <= l1.versions && items != []
    ensures NamesNothingMade(l, before, items[..|items| - 1])
    ensures NotMade(l, before, items[|items| - 1].olderId) && NotMade(l, before, items[|items| - 1].newerId)
  {
    forall item | item in items ensures NotMade(l, before, item.olderId) && NotMade(l, before, item.newerId) {
      NotMadeBefore(l, before, l1, item.olderId);
      NotMadeBefore(l, before, l1, item.newerId);
    }
    hide NotMade;
  }

  /**
   What a sheet will do can be read off the ledger before it is applied: exactly when it succeeds, and
   which items it merges. So whether it will conserve is known beforehand too, from the plan. An item
   that names an unknown memory is refused; only one that guessed an identifier this very run gives
   out is not foreseen.
   */
  lemma {:induction false} SheetGoesAsPlanned(l: Ledger, items: seq<ReviewItem>, now: int)
    requires Sound(l) && TombstonesKnown(l) && NamesNothingMade(l, ApplyReviewed(l, items, now).0, items)
    ensures var (l1, result) := ApplyReviewed(l, items, now);
            && (result.Ok? <==> PlanIsWritable(l, items))
            && (result.Ok? ==> result.value.outcomes == ReviewPlan(l, items))
  {
    hide *;
    if items == [] {
      EmptyPlan(l, now);
      assert items == [];
    } else {
      var front, item := items[..|items| - 1], items[|items| - 1];
      var before, result := ApplyReviewed(l, front, now).0, ApplyReviewed(l, front, now).1;
      SheetUnfolds(l, items, now);
      PlanUnfolds(l, items);
      ReviewedMergesConserve(l, front, now);
      if result.Ok? {
        ItemOnlyAppends(before, result.value, item, now);
      }
      NamesNothingMadeBefore(l, before, ApplyReviewed(l, items, now).0, items);
      SheetGoesAsPlanned(l, front, now);
      if result.Ok? {
        SheetMakesProgress(l, front, now);
        ItemKeepsProgress(l, before, result.value, item, now);
        ItemAsPlanned(l, before, result.value, item, now);
      }
    }
  }

  /** Identifiers given out before the run are never made by it, so a sheet drafted from the ledger is foreseen. */
  lemma DraftedSheetNamesNothingMade(l: Ledger, items: seq<ReviewItem>, now: int)
    requires Sound(l) && TombstonesKnown(l)
    requires forall item :: item in items ==> item.olderId < FreshId(l.versions) && item.newerId < FreshId(l.versions)
    ensures NamesNothingMade(l, ApplyReviewed(l, items, now).0, items)
  {
    hide *;
    var l1 := ApplyReviewed(l, items, now).0;
    SheetMakesProgress(l, items, now);
    var report: MergeReport :| SheetProgress(l, l1, report);
    SheetGives(l, l1, report);
    forall item | item in items ensures NotMade(l, l1, item.olderId) && NotMade(l, l1, item.newerId) {
      IssuedIsNotMade(l, l1, report.outcomes, item.olderId);
      IssuedIsNotMade(l, l1, report.outcomes, item.newerId);
    }
    NamesNothingMadeMeans(l, l1, items);
  }

  lemma NamesNothingMadeMeans(l: Ledger, l1: Ledger, items: seq<ReviewItem>)
    requires forall item :: item in items ==> NotMade(l, l1, item.olderId) && NotMade(l, l1, item.newerId)
    ensures NamesNothingMade(l, l1, items)
  {
    hide NotMade;
  }

  lemma EmptyPlan(l: Ledger, now: int)
    ensures ApplyReviewed(l, [], now) == (l, Ok(EMPTY_REPORT)) && PlanIsWritable(l, []) && EMPTY_REPORT.outcomes == ReviewPlan(l, [])
  {
  }

  lemma SheetUnfolds(l: Ledger, items: seq<ReviewItem>, now: int)
    requires items != []
    ensures var (before, result) := ApplyReviewed(l, items[..|items| - 1], now);
            ApplyReviewed(l, items, now)
            == if result.Err? then (before, result) else ApplyItem(before, result.value, items[|items| - 1], now)
  {
    hide ApplyItem;
  }

  lemma PlanUnfolds(l: Ledger, items: seq<ReviewItem>)
    requires items != []
    ensures var front, item := items[..|items| - 1], items[|items| - 1];
            var before := ReviewPlan(l, front);
            var passes := Passes(l, Used(before), item);
            && ReviewPlan(l, items) == before + (if Approved(item) then [MergeOutcome(item.olderId, item.newerId, passes)] else [])
            && (passes ==> MarkedCurrent(l, item.olderId).Some? && MarkedCurrent(l, item.newerId).Some?
                           && Recheck(MarkedCurrent(l, item.olderId).value, MarkedCurrent(l, item.newerId).value, item).Ok?)
            && (PlanIsWritable(l, items) <==>
                  && PlanIsWritable(l, front)
                  && (Approved(item) && passes ==>
                        item.olderId != item.newerId
                        && FitsTheColumns(Recheck(MarkedCurrent(l, item.olderId).value, MarkedCurrent(l, item.newerId).value, item).value)))
  {
    hide MarkedCurrent, Recheck, FitsTheColumns, Used, Approved;
  }
}
