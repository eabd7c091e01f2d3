/**
 When a status tells the truth. A claim marked current is live, unless it was retracted by filing a
 correction by hand: every other command of the command line, and every run of them, keeps the
 statuses truthful.
 */
module TruthfulStatuses {
  import opened Common
  import opened Text
  import opened Sequences
  import opened Memory
  import opened MemoryLedger
  import opened Merge
  import opened Revise
  import opened ReviewedMerges
  import opened UnreviewedMerges
  import opened Statuses
  import Reconcile
  import opened Supersession
  import Fix = ReconcileFixpoint
  import Theorem = ReconcileTheorem

  // ----- One append -----

  /** Whatever is marked current is live, but perhaps for some memories. */
  ghost predicate TellsBut(l: Ledger, except: set<Uuid>) {
    forall id :: id !in except && MarkedCurrent(l, id).Some? ==> Live(l, MarkedCurrent(l, id).value)
  }

  lemma TellsAll(l: Ledger)
    ensures TellsBut(l, {}) <==> StatusTells(l)
  {
    hide MarkedCurrent, Live;
  }

  /** The memories marked current that a version retracts. */
  ghost predicate RetractsOnly(l: Ledger, m: MemoryRecord, ids: set<Uuid>) {
    forall id :: MarkedCurrent(l, id).Some? && MarkedCurrent(l, id).value.versionId in m.supersedes ==> id in ids
  }

  lemma MarkedAfterAppend(l: Ledger, m: MemoryRecord, id: Uuid)
    requires Sound(l) && Acceptable(l, m) && MarkedCurrent(Appended(l, m), id).Some?
    ensures id == m.id ==> Live(Appended(l, m), MarkedCurrent(Appended(l, m), id).value)
    ensures id != m.id ==> MarkedCurrent(Appended(l, m), id) == MarkedCurrent(l, id)
    ensures id != m.id ==> var x := MarkedCurrent(l, id).value;
              Live(l, x) && x.versionId !in m.supersedes ==> Live(Appended(l, m), x)
  {
    LatestAfterAppend(l.versions, m, id);
    MarkedIsStored(Appended(l, m), id);
    if id == m.id {
      NewVersionIsLiveIff(l, m);
    } else {
      MarkedIsStored(l, id);
      StoredSide(l, MarkedCurrent(l, id).value);
      LiveAfterAppendAt(l, m, MarkedCurrent(l, id).value);
    }
    hide Sound, Acceptable, Live, Latest;
  }

  lemma AppendTells(l: Ledger, m: MemoryRecord, except: set<Uuid>, ids: set<Uuid>)
    requires Sound(l) && Acceptable(l, m) && TellsBut(l, except) && RetractsOnly(l, m, ids)
    ensures TellsBut(Appended(l, m), except + ids - {m.id})
  {
    hide Sound, Acceptable, MarkedCurrent, Live;
    var l1 := Appended(l, m);
    forall id | id !in except + ids - {m.id} && MarkedCurrent(l1, id).Some? ensures Live(l1, MarkedCurrent(l1, id).value) {
      MarkedAfterAppend(l, m, id);
    }
  }

  lemma NoEdgesRetractNothing(l: Ledger, m: MemoryRecord)
    requires m.supersedes == []
    ensures RetractsOnly(l, m, {})
  {
  }

  /** Appending, whether the version is taken or not, when it retracts nothing that is marked current. */
  lemma AppendKeepsTelling(l: Ledger, m: MemoryRecord)
    requires Sound(l) && StatusTells(l) && RetractsOnly(l, m, {})
    ensures StatusTells(Append(l, m).0)
  {
    hide *;
    AppendGrowsIff(l, m);
    if Acceptable(l, m) {
      TellsAll(l);
      AppendTells(l, m, {}, {});
      var none: set<Uuid> := {};
      assert none + none - {m.id} == none;
      TellsAll(Appended(l, m));
    }
  }

  // ----- Folds -----

  lemma {:induction false} RetireTells(l: Ledger, losers: seq<MemoryRecord>, now: int, except: set<Uuid>)
    requires Sound(l) && (forall r :: r in losers ==> r in l.versions) && TellsBut(l, except)
    ensures var (l1, result) := Reconcile.Retire(l, losers, now);
            && result == Ok(()) && Sound(l1) && l.versions <= l1.versions && TellsBut(l1, except - Fix.Ids(losers))
  {
    hide *;
    if losers == [] {
      RetireNone(l, now);
      assert losers == [];
      assert except - Fix.Ids(losers) == except;
    } else {
      var front, last := losers[..|losers| - 1], losers[|losers| - 1];
      assert last in losers && forall r :: r in front ==> r in losers;
      RetireTells(l, front, now, except);
      var before := Reconcile.Retire(l, front, now).0;
      var retired := Reconcile.Retired(last, FreshId(before.versions), now);
      assert last in before.versions;
      Fix.RetiredIsAcceptable(before, last, now);
      Fix.AcceptedAppend(before, retired);
      RetiredEdges(last, FreshId(before.versions), now);
      NoEdgesRetractNothing(before, retired);
      AppendTells(before, retired, except - Fix.Ids(front), {});
      AppendedVersions(before, retired);
      RetireUnfolds(l, losers, now);
      IdsOfOneMore(front, last);
      assert losers == front + [last];
      assert except - Fix.Ids(front) + {} - {last.id} == except - Fix.Ids(losers);
    }
  }

  lemma RetireNone(l: Ledger, now: int)
    ensures Reconcile.Retire(l, [], now) == (l, Ok(())) && Fix.Ids([]) == {}
  {
  }

  lemma RetiredEdges(m: MemoryRecord, version: Uuid, now: int)
    ensures Reconcile.Retired(m, version, now).supersedes == [] && Reconcile.Retired(m, version, now).id == m.id
  {
  }

  lemma RetireUnfolds(l: Ledger, losers: seq<MemoryRecord>, now: int)
    requires losers != []
    ensures var front, last := losers[..|losers| - 1], losers[|losers| - 1];
            var (before, result) := Reconcile.Retire(l, front, now);
            result.Ok? ==> Reconcile.Retire(l, losers, now) == Append(before, Reconcile.Retired(last, FreshId(before.versions), now))
  {
    hide Append, Reconcile.Retired, FreshId;
  }

  lemma IdsOfOneMore(records: seq<MemoryRecord>, m: MemoryRecord)
    ensures Fix.Ids(records + [m]) == Fix.Ids(records) + {m.id}
  {
  }

  /** A version that supersedes live memories retracts those and nothing else. */
  lemma EdgesToSides(l: Ledger, losers: seq<MemoryRecord>, m: MemoryRecord)
    requires Sound(l) && Fix.LiveSides(l, losers) && m.supersedes == Reconcile.VersionsOf(losers)
    ensures RetractsOnly(l, m, Fix.Ids(losers))
  {
    VersionsIdentifyRecords(l);
    Fix.SidesAreStored(l, losers);
    hide Sound, Latest, Fix.LiveSides;
    forall id | MarkedCurrent(l, id).Some? && MarkedCurrent(l, id).value.versionId in m.supersedes ensures id in Fix.Ids(losers) {
      var x := MarkedCurrent(l, id).value;
      MarkedIsStored(l, id);
      StoredSide(l, x);
      Fix.VersionsOfMembers(losers, x.versionId);
      var r :| r in losers && r.versionId == x.versionId;
      assert r == x;
    }
  }

  lemma FoldTells(l: Ledger, records: seq<MemoryRecord>, keeper: MemoryRecord, losers: seq<MemoryRecord>, now: int)
    requires Sound(l) && StatusTells(l) && Fix.LiveSides(l, records) && keeper in records
    requires losers == Filter(records, Fix.NotAmong({keeper.id}))
    ensures StatusTells(Reconcile.Fold(l, keeper, losers, now).0)
  {
    hide *;
    var revised := Reconcile.Revised(keeper, losers, FreshId(l.versions), now);
    var l1 := Appended(l, revised);
    Fix.LosersAreSides(l, records, keeper, losers);
    Fix.SidesAreStored(l, records);
    Fix.SidesAreStored(l, losers);
    Fix.RevisedIsAcceptable(l, keeper, losers, now);
    Fix.AcceptedAppend(l, revised);
    Fix.RevisedFields(keeper, losers, FreshId(l.versions), now);
    Fix.FoldIsRetire(l, keeper, losers, now);
    EdgesToSides(l, losers, revised);
    TellsAll(l);
    AppendTells(l, revised, {}, Fix.Ids(losers));
    AppendedVersions(l, revised);
    RetireTells(l1, losers, now, {} + Fix.Ids(losers) - {revised.id});
    assert {} + Fix.Ids(losers) - {revised.id} - Fix.Ids(losers) == {};
    TellsAll(Reconcile.Retire(l1, losers, now).0);
  }

  lemma OneFoldTells(l: Ledger, cs: seq<MemoryConflict>, now: int)
    requires Sound(l) && Fix.Separate(l, cs) && cs != []
    requires StatusTells(Reconcile.ApplyAll(l, Reconcile.Proposals(cs[..|cs| - 1]), now).0)
    ensures StatusTells(Reconcile.ApplyAll(l, Reconcile.Proposals(cs), now).0)
  {
    hide *;
    var front, c := cs[..|cs| - 1], cs[|cs| - 1];
    var before := Reconcile.ApplyAll(l, Reconcile.Proposals(front), now).0;
    Fix.SeparateSplits(l, cs);
    Fix.ApplyMakesProgress(l, front, now);
    Fix.ProgressedGives(l, front, now);
    Fix.FoldedIntoGives(l, front, now, before);
    Fix.ApplyAllUnfolds(l, cs, now);
    if Fix.Decided(c) {
      var keeper, losers := Fix.KeeperOf(c), Fix.LosersOf(c);
      Fix.SidesStillLive(l, front, c.records, now);
      Fix.KeeperIsASide(c);
      Fix.LosersAreTheRest(c);
      Fix.FoldReplacesTheSides(before, c.records, keeper, losers, now);
      Fix.DecidedProposalFolds(before, c, Fix.ReportOn(front), now);
      FoldTells(before, c.records, keeper, losers, now);
    } else {
      Fix.UndecidedIsLeftAlone(before, Fix.ReportOn(front), c, now);
    }
  }

  lemma {:induction false} FoldsTell(l: Ledger, cs: seq<MemoryConflict>, now: int)
    requires Sound(l) && StatusTells(l) && Fix.Separate(l, cs)
    ensures StatusTells(Reconcile.ApplyAll(l, Reconcile.Proposals(cs), now).0)
  {
    hide *;
    if cs == [] {
      Theorem.NoProposals(l, now);
      assert cs == [];
    } else {
      Fix.SeparateSplits(l, cs);
      FoldsTell(l, cs[..|cs| - 1], now);
      OneFoldTells(l, cs, now);
    }
  }

  lemma ReconcilingTells(l: Ledger, asOf: int, now: int)
    requires Sound(l) && StatusTells(l)
    ensures StatusTells(Reconcile.Apply(l, asOf, now).0)
  {
    hide *;
    Theorem.ConflictsAreSeparate(l, asOf);
    Theorem.ApplyMeans(l, asOf, now);
    FoldsTell(l, Reconcile.ConflictsAt(l, asOf), now);
  }

  // ----- Merges -----

  lemma ItemTells(l: Ledger, report: MergeReport, item: ReviewItem, now: int)
    requires Sound(l) && TombstonesKnown(l) && StatusTells(l)
    ensures StatusTells(ApplyItem(l, report, item, now).0)
  {
    hide *;
    if Approved(item) && MarkedCurrent(l, item.olderId).Some? && MarkedCurrent(l, item.newerId).Some?
       && Recheck(MarkedCurrent(l, item.olderId).value, MarkedCurrent(l, item.newerId).value, item).Ok? {
      var older, newer := MarkedCurrent(l, item.olderId).value, MarkedCurrent(l, item.newerId).value;
      var v := Recheck(older, newer, item).value;
      WrittenItem(l, report, item, now);
      WritableMerge(l, item, now);
      PairOfMarked(l, item);
      RecheckMeans(older, newer, item);
      var written := WriteMerge(l, older, newer, v, now);
      assert ApplyItem(l, report, item, now).0 == written.0;
      if item.olderId != item.newerId && FitsTheColumns(v) {
        MergeKeepsStatusTelling(l, older, newer, v, now);
      } else {
        assert written.0 == l;
      }
    } else {
      PassedOverItem(l, report, item, now);
    }
  }

  lemma DraftTells(l: Ledger, report: MergeReport, d: DraftedCandidate, apply: bool, now: int)
    requires Sound(l) && TombstonesKnown(l) && StatusTells(l)
    ensures StatusTells(MergeDraft(l, report, d, apply, now).0)
  {
    hide *;
    if apply && Accepted(l, d) {
      AcceptedPair(l, d);
      AcceptedDraft(l, report, d, now);
      var older, newer, v := CurrentMemory(l, d.olderId).value, CurrentMemory(l, d.newerId).value, AcceptedText(l, d);
      if older.id != newer.id && FitsTheColumns(v) {
        MergeKeepsStatusTelling(l, older, newer, v, now);
      } else {
        RefusedMergeWritesNothing(l, older, newer, v, now);
      }
    } else {
      OtherDraft(l, report, d, apply, now);
    }
  }

  lemma {:induction false} SheetTells(l: Ledger, items: seq<ReviewItem>, now: int)
    requires Sound(l) && TombstonesKnown(l) && StatusTells(l)
    ensures StatusTells(ApplyReviewed(l, items, now).0)
  {
    hide *;
    if items == [] {
      EmptyPlan(l, now);
      assert items == [];
    } else {
      var front := items[..|items| - 1];
      var before, result := ApplyReviewed(l, front, now).0, ApplyReviewed(l, front, now).1;
      SheetTells(l, front, now);
      SheetUnfolds(l, items, now);
      ReviewedMergesConserve(l, front, now);
      if result.Ok? {
        ItemTells(before, result.value, items[|items| - 1], now);
      }
    }
  }

  lemma {:induction false} DraftsTell(l: Ledger, drafts: seq<DraftedCandidate>, apply: bool, now: int)
    requires Sound(l) && TombstonesKnown(l) && StatusTells(l)
    ensures StatusTells(MergeDrafts(l, drafts, apply, now).0)
  {
    hide *;
    if drafts == [] {
      NoDrafts(l, apply, now);
      assert drafts == [];
    } else {
      var front := drafts[..|drafts| - 1];
      var before, result := MergeDrafts(l, front, apply, now).0, MergeDrafts(l, front, apply, now).1;
      DraftsTell(l, front, apply, now);
      DraftsUnfold(l, drafts, apply, now);
      UnreviewedMergesCount(l, front, apply, now);
      if result.Ok? {
        DraftTells(before, result.value, drafts[|drafts| - 1], apply, now);
      }
    }
  }

  // ----- Ruling, repairing, withdrawing -----

  lemma RulingTells(l: Ledger, id: Uuid, approve: bool, now: int)
    requires Sound(l) && StatusTells(l)
    ensures StatusTells(Rule(l, id, approve, now).0)
  {
    RuleUnfolds(l, id, approve, now);
    hide Append, Sound, StatusTells, Rule, CurrentMemory, FreshId, RetractsOnly;
    var memory := CurrentMemory(l, id);
    if memory.Some? && memory.value.status == Proposed {
      var ruled := Ruled(memory.value, approve, FreshId(l.versions), now);
      NoEdgesRetractNothing(l, ruled);
      AppendKeepsTelling(l, ruled);
    }
  }

  /** A copy of a stored version has only edges that are there already. */
  lemma CopyRetractsNothing(l: Ledger, memory: MemoryRecord, m: MemoryRecord)
    requires StatusTells(l) && memory in l.versions && m.supersedes == memory.supersedes
    ensures RetractsOnly(l, m, {})
  {
    assert forall e :: e in m.supersedes ==> e in Edges(l.versions);
    hide Latest, Edges;
    forall id | MarkedCurrent(l, id).Some? ensures MarkedCurrent(l, id).value.versionId !in m.supersedes {
      assert Live(l, MarkedCurrent(l, id).value);
    }
  }

  lemma RepairOneTells(l: Ledger, report: DateRepairReport, memory: MemoryRecord, derived: map<Uuid, int>, now: int)
    requires Sound(l) && StatusTells(l) && memory in l.versions
    ensures StatusTells(RepairOne(l, report, memory, derived, now).0)
  {
    hide Append, Sound, StatusTells, FreshId, RetractsOnly;
    if memory.versionId in derived {
      var m := Redated(memory, derived[memory.versionId], FreshId(l.versions), now);
      CopyRetractsNothing(l, memory, m);
      AppendKeepsTelling(l, m);
    }
  }

  lemma {:induction false} RepairsTell(l: Ledger, memories: seq<MemoryRecord>, derived: map<Uuid, int>, now: int)
    requires Healthy(l) && StatusTells(l) && Fix.LiveSides(l, memories)
    ensures StatusTells(RepairEach(l, memories, derived, now).0)
  {
    Fix.SidesAreStored(l, memories);
    hide Healthy, HealthyStep, StatusTells, RepairOne, Fix.LiveSides;
    if memories != [] {
      var front, last := memories[..|memories| - 1], memories[|memories| - 1];
      Fix.LiveSidesPrefix(l, memories);
      RepairsTell(l, front, derived, now);
      RepairsAreHealthy(l, front, derived, now);
      var before, result := RepairEach(l, front, derived, now).0, RepairEach(l, front, derived, now).1;
      StepGives(l, before);
      assert last in memories && last in before.versions;
      if result.Ok? {
        RepairOneTells(before, result.value, last, derived, now);
      }
    }
  }

  lemma StepGives(l: Ledger, l1: Ledger)
    requires HealthyStep(l, l1)
    ensures Healthy(l1) && Sound(l1) && l.versions <= l1.versions
  {
  }

  lemma RepairingTells(l: Ledger, derived: map<Uuid, int>, now: int)
    requires Healthy(l) && StatusTells(l)
    ensures StatusTells(RepairDates(l, derived, now).0)
  {
    HealthyGives(l);
    MisdatedAreSides(l);
    hide Healthy, StatusTells, RepairEach, LiveMemories, Sound, TombstonesKnown, NeverRevived, Fix.LiveSides, Filter;
    RepairsTell(l, Filter(LiveMemories(l), Misdated), derived, now);
  }

  lemma WithdrawingTells(l: Ledger, id: Uuid)
    requires StatusTells(l)
    ensures StatusTells(Forget(l, id).0)
  {
    var l1 := Forget(l, id).0;
    hide Latest;
    forall x | MarkedCurrent(l1, x).Some? ensures Live(l1, MarkedCurrent(l1, x).value) {
      assert MarkedCurrent(l, x) == MarkedCurrent(l1, x);
      MarkedIsStored(l1, x);
    }
  }

  // ----- Filing -----

  /** A request that corrects no claim that is marked current. */
  predicate NamesNoCurrent(l: Ledger, request: RememberRequest) {
    forall id :: id in request.supersedes ==> MarkedCurrent(l, id).None?
  }

  lemma {:induction false} SupersededIsNamed(l: Ledger, ids: seq<Uuid>, version: Uuid)
    requires VersionsToSupersede(l, ids).Ok? && version in VersionsToSupersede(l, ids).value
    ensures exists id :: id in ids && CurrentMemory(l, id).Some? && CurrentMemory(l, id).value.versionId == version
  {
    hide CurrentMemory;
    if version != CurrentMemory(l, ids[0]).value.versionId {
      SupersededIsNamed(l, ids[1..], version);
      var id :| id in ids[1..] && CurrentMemory(l, id).Some? && CurrentMemory(l, id).value.versionId == version;
      assert id in ids;
    }
  }

  lemma MarkedIsNotSuperseded(l: Ledger, request: RememberRequest, id: Uuid, version: Uuid)
    requires Sound(l) && VersionsToSupersede(l, request.supersedes).Ok? && NamesNoCurrent(l, request)
    requires version in VersionsToSupersede(l, request.supersedes).value && MarkedCurrent(l, id).Some?
    ensures MarkedCurrent(l, id).value.versionId != version
  {
    VersionsIdentifyRecords(l);
    SupersededIsNamed(l, request.supersedes, version);
    var j :| j in request.supersedes && CurrentMemory(l, j).Some? && CurrentMemory(l, j).value.versionId == version;
    LatestIsStored(l.versions, j);
    LatestIsStored(l.versions, id);
    hide Sound, VersionsToSupersede, Latest;
    assert MarkedCurrent(l, j).None?;
    assert CurrentMemory(l, j).value.status != Current && MarkedCurrent(l, id).value.status == Current;
  }

  lemma FiledRetracts(l: Ledger, request: RememberRequest)
    requires Sound(l) && VersionsToSupersede(l, request.supersedes).Ok? && NamesNoCurrent(l, request)
    ensures RetractsOnly(l, Filed(l, request, VersionsToSupersede(l, request.supersedes).value), {})
  {
    var versions := VersionsToSupersede(l, request.supersedes).value;
    assert Filed(l, request, versions).supersedes == versions;
    hide Sound, VersionsToSupersede, Filed, NamesNoCurrent, MarkedCurrent;
    forall id, version | MarkedCurrent(l, id).Some? && version in versions ensures MarkedCurrent(l, id).value.versionId != version {
      MarkedIsNotSuperseded(l, request, id, version);
    }
  }

  lemma RefusedFilingWritesNothing(l: Ledger, request: RememberRequest)
    requires Remember(l, request).1.Err?
    ensures Remember(l, request).0 == l
  {
    if VersionsToSupersede(l, request.supersedes).Ok? {
      AppendGrowsIff(l, Filed(l, request, VersionsToSupersede(l, request.supersedes).value));
    }
    hide Append, Acceptable, VersionsToSupersede, Trim, FreshId;
  }

  /** Filing keeps the statuses truthful exactly when it is refused or corrects nothing marked current. */
  lemma FilingTellsIff(l: Ledger, request: RememberRequest)
    requires Sound(l) && StatusTells(l)
    ensures StatusTells(Remember(l, request).0) <==> Remember(l, request).1.Err? || NamesNoCurrent(l, request)
  {
    if Remember(l, request).1.Err? {
      RefusedFilingWritesNothing(l, request);
    } else if NamesNoCurrent(l, request) {
      RememberUnfolds(l, request);
      FiledRetracts(l, request);
      AppendKeepsTelling(l, Filed(l, request, VersionsToSupersede(l, request.supersedes).value));
    } else {
      var id :| id in request.supersedes && MarkedCurrent(l, id).Some?;
      RetractionHidesFromStatus(l, request, id);
    }
    hide *;
  }

  // ----- The theorem -----

  /** The one command line that makes a status stop telling the truth: filing over a claim that is marked current. */
  predicate Retracts(l: Ledger, op: Op) {
    op.FileMemory? && Remember(l, op.request).1.Ok? && !NamesNoCurrent(l, op.request)
  }

  /**
   Retracting by filing is the one way a status stops telling the truth: whatever else a command
   does, and whether it succeeds or fails part-way, truthful statuses stay truthful exactly when it
   does not retract.
   */
  lemma StepTellsIff(l: Ledger, op: Op)
    requires Healthy(l) && StatusTells(l)
    ensures StatusTells(Step(l, op)) <==> !Retracts(l, op)
  {
    HealthyGives(l);
    hide Healthy, Sound, TombstonesKnown, NeverRevived, StatusTells, Remember, NamesNoCurrent, Rule, Reconcile.Apply, ApplyReviewed,
      MergeDrafts, RepairDates, Forget;
    match op {
      case FileMemory(request) => FilingTellsIff(l, request);
      case RuleMemory(id, approve, now) => RulingTells(l, id, approve, now);
      case ApplyProposals(asOf, now) => ReconcilingTells(l, asOf, now);
      case ApplySheet(items, now) => SheetTells(l, items, now);
      case ApplyDrafts(drafts, apply, now) => DraftsTell(l, drafts, apply, now);
      case RepairTheDates(derived, now) => RepairingTells(l, derived, now);
      case Withdraw(id) => WithdrawingTells(l, id);
    }
  }

  predicate NeverRetracts(l: Ledger, ops: seq<Op>)
    decreases |ops|
  {
    ops == [] || (!Retracts(l, ops[0]) && NeverRetracts(Step(l, ops[0]), ops[1..]))
  }

  /** Over every run that never retracts, statuses stay truthful. */
  lemma {:induction false} RunTells(l: Ledger, ops: seq<Op>)
    requires Healthy(l) && StatusTells(l) && NeverRetracts(l, ops)
    ensures StatusTells(Run(l, ops)) && Healthy(Run(l, ops))
    decreases |ops|
  {
    hide Healthy, HealthyStep, StatusTells, Step, Retracts;
    if ops != [] {
      StepTellsIff(l, ops[0]);
      StepIsHealthy(l, ops[0]);
      HealthyNow(l, Step(l, ops[0]));
      RunTells(Step(l, ops[0]), ops[1..]);
    }
  }

  lemma EmptyLedgerTells(project: Uuid, events: set<Uuid>)
    ensures StatusTells(Ledger(project, events, {}, []))
  {
  }

  /** So after every run from an empty ledger that never retracts, every review sheet conserves. */
  lemma SheetsConserveAfterRun(project: Uuid, events: set<Uuid>, ops: seq<Op>, items: seq<ReviewItem>, now: int)
    requires NeverRetracts(Ledger(project, events, {}, []), ops)
    requires ApplyReviewed(Run(Ledger(project, events, {}, []), ops), items, now).1.Ok?
    ensures var l := Run(Ledger(project, events, {}, []), ops);
            var (l1, result) := ApplyReviewed(l, items, now);
            && |LiveMemories(l1)| + result.value.applied == |LiveMemories(l)|
            && Cited(LiveMemories(l1)) == Cited(LiveMemories(l))
  {
    hide *;
    var empty := Ledger(project, events, {}, []);
    EmptyLedgerIsHealthy(project, events);
    EmptyLedgerTells(project, events);
    RunTells(empty, ops);
    HealthyGives(Run(empty, ops));
    TruthfulSheetConserves(Run(empty, ops), items, now);
  }
}
