/** What applying the proposals does to the ledger, and that doing it again does nothing. */
module ReconcileFixpoint {
  import opened Common
  import opened Sequences
  import opened Memory
  import opened Supersession
  import opened MemoryLedger
  import opened Reconcile
  import Laws = SupersessionLaws

  // ----- Sides of conflicts as records of the ledger -----

  function Ids(records: seq<MemoryRecord>): set<Uuid> {
    set r | r in records :: r.id
  }

  function NotAmong(ids: set<Uuid>): MemoryRecord -> bool {
    (v: MemoryRecord) => v.id !in ids
  }

  /** A list of different memories, each the live record of its memory. */
  ghost predicate LiveSides(l: Ledger, records: seq<MemoryRecord>) {
    && (forall r :: r in records ==> r in LiveMemories(l))
    && (forall i, j :: 0 <= i < j < |records| ==> records[i].id != records[j].id)
  }

  lemma LiveSidesPrefix(l: Ledger, records: seq<MemoryRecord>)
    requires LiveSides(l, records) && records != []
    ensures LiveSides(l, records[..|records| - 1]) && records[|records| - 1] in LiveMemories(l)
    ensures forall r :: r in records[..|records| - 1] ==> r.id != records[|records| - 1].id
  {
    hide LiveMemories;
    assert records[|records| - 1] in records;
  }

  /** Looking up the losing sides finds the losing sides, in their order. */
  lemma {:induction false} LosersAreCurrent(l: Ledger, keep: Uuid, records: seq<MemoryRecord>)
    requires forall r :: r in records ==> r in LiveMemories(l)
    ensures CurrentOnes(l, OtherIds(keep, records)) == Filter(records, NotAmong({keep}))
  {
    if records != [] {
      var front, last := records[..|records| - 1], records[|records| - 1];
      assert records == front + [last];
      LosersAreCurrent(l, keep, front);
      LiveIsCurrent(l, last);
      hide CurrentMemory, LiveMemories;
      var ids := OtherIds(keep, front);
      if last.id != keep {
        assert (ids + [last.id])[..|ids|] == ids;
      } else {
        assert ids + [] == ids;
      }
    }
  }

  // ----- Retirements -----

  lemma RetiredIsAcceptable(l: Ledger, loser: MemoryRecord, now: int)
    requires Sound(l) && loser in l.versions
    ensures Acceptable(l, Retired(loser, FreshId(l.versions), now))
  {
    StoredRecordsAreValid(l, loser);
    FreshVersion(l);
    var retired := Retired(loser, FreshId(l.versions), now);
    hide Sound, Distinct, Known;
    assert KeepsKind(l.versions, retired);
    NoEdgesAreDistinct();
    NoEdgesAreKnown(VersionIds(l.versions));
  }

  lemma NoEdgesAreDistinct()
    ensures Distinct([])
  {
  }

  lemma NoEdgesAreKnown(known: set<Uuid>)
    ensures Known([], known)
  {
  }

  lemma RetireOne(l: Ledger, loser: MemoryRecord, now: int)
    requires Sound(l) && loser in l.versions && (forall v :: v in LiveMemories(l) ==> v.id != loser.id)
    ensures var (l1, result) := Append(l, Retired(loser, FreshId(l.versions), now));
            && result == Ok(()) && Sound(l1) && LiveMemories(l1) == LiveMemories(l)
            && l1 == Appended(l, Retired(loser, FreshId(l.versions), now))
  {
    var retired := Retired(loser, FreshId(l.versions), now);
    RetiredIsAcceptable(l, loser, now);
    AcceptedAppend(l, retired);
    LiveAfterAppend(l, retired);
    assert retired.id == loser.id && retired.supersedes == [] && !IsReadable(retired.status);
    hide Acceptable, Sound, LiveMemories, Append, FreshId, Retired, IsReadable;
    FilterAll(LiveMemories(l), Keeps(retired));
  }

  /** A ledger that only gained versions. */
  predicate Extends(l: Ledger, l1: Ledger) {
    l.versions <= l1.versions && l1 == l.(versions := l1.versions)
  }

  lemma ExtendsTransitive(a: Ledger, b: Ledger, c: Ledger)
    requires Extends(a, b) && Extends(b, c)
    ensures Extends(a, c)
  {
  }

  lemma ExtendsKeeps(l: Ledger, l1: Ledger)
    requires Extends(l, l1)
    ensures l1.withdrawn == l.withdrawn && l1.events == l.events && l1.project == l.project && l.versions <= l1.versions
  {
  }

  lemma AppendExtends(l: Ledger, m: MemoryRecord)
    ensures Extends(l, Appended(l, m))
  {
  }

  /** Retiring memories that are not live changes nothing that is. */
  lemma {:induction false} RetireKeepsLive(l: Ledger, losers: seq<MemoryRecord>, now: int)
    requires Sound(l) && (forall r :: r in losers ==> r in l.versions)
    requires forall r, v :: r in losers && v in LiveMemories(l) ==> v.id != r.id
    ensures var (l1, result) := Retire(l, losers, now);
            && result == Ok(()) && Sound(l1) && LiveMemories(l1) == LiveMemories(l)
            && Extends(l, l1)
  {
    hide Sound, LiveMemories, Append, FreshId, Retired;
    if losers != [] {
      var front, last := losers[..|losers| - 1], losers[|losers| - 1];
      RetireKeepsLive(l, front, now);
      var l1 := Retire(l, front, now).0;
      assert last in losers;
      assert last in l1.versions;
      RetireOne(l1, last, now);
      AppendExtends(l1, Retired(last, FreshId(l1.versions), now));
      ExtendsTransitive(l, l1, Retire(l, losers, now).0);
    }
  }

  // ----- One fold -----

  lemma {:induction false} VersionsOfMembers(records: seq<MemoryRecord>, version: Uuid)
    ensures version in VersionsOf(records) <==> exists r :: r in records && r.versionId == version
  {
    if version in VersionsOf(records) {
      var i :| 0 <= i < |records| && VersionsOf(records)[i] == version;
      assert records[i] in records;
    }
    if r :| r in records && r.versionId == version {
      var i :| 0 <= i < |records| && records[i] == r;
      assert VersionsOf(records)[i] == version;
    }
  }

  lemma RevisedIsAcceptable(l: Ledger, keeper: MemoryRecord, losers: seq<MemoryRecord>, now: int)
    requires Sound(l) && keeper in l.versions && LiveSides(l, losers)
    ensures Acceptable(l, Revised(keeper, losers, FreshId(l.versions), now))
  {
    StoredRecordsAreValid(l, keeper);
    FreshVersion(l);
    var revised := Revised(keeper, losers, FreshId(l.versions), now);
    LoserVersionsAreDistinct(l, losers);
    LoserVersionsAreKnown(l, losers);
    hide Sound, Distinct, Known, LiveSides, VersionsOf;
    assert KeepsKind(l.versions, revised);
  }

  lemma LoserVersionsAreKnown(l: Ledger, losers: seq<MemoryRecord>)
    requires LiveSides(l, losers)
    ensures Known(VersionsOf(losers), VersionIds(l.versions))
  {
    forall version | version in VersionsOf(losers) ensures version in VersionIds(l.versions) {
      VersionsOfMembers(losers, version);
      var r :| r in losers && r.versionId == version;
      LiveIsCurrent(l, r);
    }
  }

  lemma LoserVersionsAreDistinct(l: Ledger, losers: seq<MemoryRecord>)
    requires Sound(l) && LiveSides(l, losers)
    ensures Distinct(VersionsOf(losers))
  {
    VersionsIdentifyRecords(l);
    hide Sound;
    forall i, j | 0 <= i < j < |losers| ensures losers[i].versionId != losers[j].versionId {
      assert losers[i] in losers && losers[j] in losers;
      LiveIsCurrent(l, losers[i]);
      LiveIsCurrent(l, losers[j]);
    }
  }

  /** The sides of a conflict leave the live memories together. */
  lemma KeepsMeansNotAmong(l: Ledger, records: seq<MemoryRecord>, keeper: MemoryRecord, losers: seq<MemoryRecord>,
                           revised: MemoryRecord, v: MemoryRecord)
    requires Sound(l) && v in LiveMemories(l) && keeper in records
    requires forall r :: r in records ==> r in LiveMemories(l)
    requires losers == Filter(records, NotAmong({keeper.id}))
    requires revised.id == keeper.id && revised.supersedes == VersionsOf(losers)
    ensures Keeps(revised)(v) == NotAmong(Ids(records))(v)
  {
    VersionsOfMembers(losers, v.versionId);
    forall r | r in records ensures (r.versionId == v.versionId <==> r.id == v.id) && (r.id == v.id ==> r == v) {
      LiveAgree(l, r, v);
    }
    hide Sound, LiveMemories, VersionsOf;
    if v.id in Ids(records) {
      var r :| r in records && r.id == v.id;
      assert r.id != keeper.id ==> r in losers;
    } else {
      assert v.id != keeper.id;
      assert forall r :: r in losers ==> r in records;
    }
  }

  /** Live records of one memory, or of one version, are one record. */
  lemma LiveAgree(l: Ledger, a: MemoryRecord, b: MemoryRecord)
    requires Sound(l) && a in LiveMemories(l) && b in LiveMemories(l)
    ensures a.versionId == b.versionId <==> a.id == b.id
    ensures a.id == b.id ==> a == b
  {
    LiveIsCurrent(l, a);
    LiveIsCurrent(l, b);
    VersionsIdentifyRecords(l);
  }

  /**
   A fold of one conflict succeeds. Its sides leave the live memories and the revision of the kept
   side takes their place; everything else that was live still is, in its order.
   */
  lemma FoldReplacesTheSides(l: Ledger, records: seq<MemoryRecord>, keeper: MemoryRecord, losers: seq<MemoryRecord>, now: int)
    requires Sound(l) && LiveSides(l, records) && keeper in records && losers == Filter(records, NotAmong({keeper.id}))
    ensures var (l1, result) := Fold(l, keeper, losers, now);
            && result == Ok(()) && Sound(l1)
            && LiveMemories(l1) == Filter(LiveMemories(l), NotAmong(Ids(records))) + [Revised(keeper, losers, FreshId(l.versions), now)]
            && Extends(l, l1)
  {
    var revised := Revised(keeper, losers, FreshId(l.versions), now);
    var l1 := Appended(l, revised);
    LosersAreSides(l, records, keeper, losers);
    SidesAreStored(l, records);
    RevisedFields(keeper, losers, FreshId(l.versions), now);
    FoldIsRetire(l, keeper, losers, now);
    AppendExtends(l, revised);
    hide Sound, LiveMemories, Append, Appended, FreshId, Revised, Retire, Acceptable, Filter, LiveSides, Fold, Extends;
    RevisedIsAcceptable(l, keeper, losers, now);
    AcceptedAppend(l, revised);
    RevisionTakesTheirPlace(l, records, keeper, losers, revised);
    LosersAreGone(l, l1, records, losers, revised);
    RetireKeepsLive(l1, losers, now);
    ExtendsTransitive(l, l1, Retire(l1, losers, now).0);
  }

  lemma FoldIsRetire(l: Ledger, keeper: MemoryRecord, losers: seq<MemoryRecord>, now: int)
    ensures var revised := Revised(keeper, losers, FreshId(l.versions), now);
            Append(l, revised) == (Appended(l, revised), Ok(())) ==>
              Fold(l, keeper, losers, now) == Retire(Appended(l, revised), losers, now)
  {
    hide Append, Retire, Revised;
  }

  lemma RevisedFields(keeper: MemoryRecord, losers: seq<MemoryRecord>, version: Uuid, now: int)
    ensures var revised := Revised(keeper, losers, version, now);
            revised.id == keeper.id && revised.supersedes == VersionsOf(losers) && revised.status == Current
  {
  }

  lemma SidesAreStored(l: Ledger, records: seq<MemoryRecord>)
    requires LiveSides(l, records)
    ensures forall r :: r in records ==> r in l.versions
  {
    forall r | r in records ensures r in l.versions {
      LiveIsCurrent(l, r);
    }
  }

  lemma AcceptedAppend(l: Ledger, m: MemoryRecord)
    requires Sound(l) && Acceptable(l, m)
    ensures Append(l, m) == (Appended(l, m), Ok(())) && Sound(Appended(l, m))
  {
    AppendGrowsIff(l, m);
    AppendKeepsSound(l, m);
    assert Append(l, m).1.value == ();
  }

  lemma LosersAreSides(l: Ledger, records: seq<MemoryRecord>, keeper: MemoryRecord, losers: seq<MemoryRecord>)
    requires LiveSides(l, records) && losers == Filter(records, NotAmong({keeper.id}))
    ensures LiveSides(l, losers)
  {
    hide LiveMemories;
    FilterKeepsDistinct(records, NotAmong({keeper.id}));
  }

  lemma {:induction false} FilterKeepsDistinct(records: seq<MemoryRecord>, p: MemoryRecord -> bool)
    requires forall i, j :: 0 <= i < j < |records| ==> records[i].id != records[j].id
    ensures forall i, j :: 0 <= i < j < |Filter(records, p)| ==> Filter(records, p)[i].id != Filter(records, p)[j].id
  {
    if records != [] {
      var front, last := records[..|records| - 1], records[|records| - 1];
      FilterKeepsDistinct(front, p);
      forall r | r in Filter(front, p) ensures r.id != last.id {
        var i :| 0 <= i < |front| && front[i] == r;
        assert records[i] == r;
      }
      assert forall i :: 0 <= i < |Filter(front, p)| ==> Filter(front, p)[i] in Filter(front, p);
    }
  }

  lemma RevisionTakesTheirPlace(l: Ledger, records: seq<MemoryRecord>, keeper: MemoryRecord, losers: seq<MemoryRecord>,
                                revised: MemoryRecord)
    requires Sound(l) && LiveSides(l, records) && keeper in records && losers == Filter(records, NotAmong({keeper.id}))
    requires revised.id == keeper.id && revised.supersedes == VersionsOf(losers) && revised.status == Current
    requires Acceptable(l, revised)
    ensures LiveMemories(Appended(l, revised)) == Filter(LiveMemories(l), NotAmong(Ids(records))) + [revised]
  {
    LiveAfterAppend(l, revised);
    LiveIsCurrent(l, keeper);
    forall v | v in LiveMemories(l) ensures Keeps(revised)(v) == NotAmong(Ids(records))(v) {
      KeepsMeansNotAmong(l, records, keeper, losers, revised, v);
    }
    hide Sound, LiveMemories, Acceptable, Live, Keeps, NotAmong;
    FilterDependsOnMembers(LiveMemories(l), Keeps(revised), NotAmong(Ids(records)));
  }

  lemma LosersAreGone(l: Ledger, l1: Ledger, records: seq<MemoryRecord>, losers: seq<MemoryRecord>, revised: MemoryRecord)
    requires forall r :: r in losers ==> r in records && r.id != revised.id
    requires LiveMemories(l1) == Filter(LiveMemories(l), NotAmong(Ids(records))) + [revised]
    ensures forall r, v :: r in losers && v in LiveMemories(l1) ==> v.id != r.id
  {
    hide LiveMemories;
    forall r, v | r in losers && v in LiveMemories(l1) ensures v.id != r.id {
      if v != revised {
        assert v in Filter(LiveMemories(l), NotAmong(Ids(records)));
      }
    }
  }

  // ----- A whole run of folds -----

  predicate Decided(c: MemoryConflict) {
    ProposeFor(c.subject, c.records).keep.Some?
  }

  predicate StillUndecided(c: MemoryConflict) {
    !Decided(c)
  }

  /** The side a decided conflict keeps. */
  function KeeperOf(c: MemoryConflict): MemoryRecord
    requires Decided(c)
  {
    Decide(RULES, c.records).value.1
  }

  function LosersOf(c: MemoryConflict): seq<MemoryRecord>
    requires Decided(c)
  {
    Filter(c.records, NotAmong({KeeperOf(c).id}))
  }

  lemma KeeperIsASide(c: MemoryConflict)
    requires Decided(c)
    ensures KeeperOf(c) in c.records
  {
    DecideUnfolds(c.records);
    forall rule | |TopBy(rule, c.records)| == 1 ensures TopBy(rule, c.records)[0] in c.records {
      assert TopBy(rule, c.records)[0] in TopBy(rule, c.records);
    }
    hide TopBy;
  }

  function DecidedCount(cs: seq<MemoryConflict>): (n: nat)
    ensures n <= |cs|
  {
    if cs == [] then 0 else DecidedCount(cs[..|cs| - 1]) + if Decided(cs[|cs| - 1]) then 1 else 0
  }

  /** All sides of the decided conflicts but the kept ones. */
  function SupersededCount(cs: seq<MemoryConflict>): int {
    if cs == [] then 0 else SupersededCount(cs[..|cs| - 1]) + if Decided(cs[|cs| - 1]) then |cs[|cs| - 1].records| - 1 else 0
  }

  /** The memories the decided conflicts are about. */
  function Touched(cs: seq<MemoryConflict>): set<Uuid> {
    if cs == [] then {} else Touched(cs[..|cs| - 1]) + if Decided(cs[|cs| - 1]) then Ids(cs[|cs| - 1].records) else {}
  }

  /** The revisions the folds append, one for each decided conflict. */
  function Kept(l: Ledger, cs: seq<MemoryConflict>, now: int): seq<MemoryRecord> {
    if cs == [] then []
    else
      var front, c := cs[..|cs| - 1], cs[|cs| - 1];
      Kept(l, front, now)
      + if Decided(c) then [Revised(KeeperOf(c), LosersOf(c), FreshId(ApplyAll(l, Proposals(front), now).0.versions), now)] else []
  }

  /** No memory is a side of two conflicts. */
  ghost predicate Apart(a: MemoryConflict, b: MemoryConflict) {
    forall r, s :: r in a.records && s in b.records ==> r.id != s.id
  }

  ghost predicate Separate(l: Ledger, cs: seq<MemoryConflict>) {
    && (forall i :: 0 <= i < |cs| ==> LiveSides(l, cs[i].records) && |cs[i].records| >= 2)
    && (forall i, j :: 0 <= i < j < |cs| ==> Apart(cs[i], cs[j]))
  }

  lemma SeparateSplits(l: Ledger, cs: seq<MemoryConflict>)
    requires Separate(l, cs) && cs != []
    ensures Separate(l, cs[..|cs| - 1]) && LiveSides(l, cs[|cs| - 1].records) && |cs[|cs| - 1].records| >= 2
    ensures forall r :: r in cs[|cs| - 1].records ==> r.id !in Touched(cs[..|cs| - 1])
  {
    var front, c := cs[..|cs| - 1], cs[|cs| - 1];
    forall r | r in c.records ensures r.id !in Touched(front) {
      forall i | 0 <= i < |front| ensures r.id !in Ids(front[i].records) {
        assert Apart(cs[i], c);
      }
      TouchedBySome(front, r.id);
    }
  }

  lemma {:induction false} TouchedBySome(cs: seq<MemoryConflict>, id: Uuid)
    ensures id in Touched(cs) <==> exists i :: 0 <= i < |cs| && Decided(cs[i]) && id in Ids(cs[i].records)
  {
    hide Decided, Ids;
    if cs != [] {
      var front, n := cs[..|cs| - 1], |cs| - 1;
      TouchedBySome(front, id);
      if id in Touched(front) {
        var i :| 0 <= i < |front| && Decided(front[i]) && id in Ids(front[i].records);
        assert cs[i] == front[i];
      }
      if i :| 0 <= i < |cs| && Decided(cs[i]) && id in Ids(cs[i].records) {
        if i < n {
          assert front[i] == cs[i];
        }
      }
    }
  }

  lemma {:induction false} KeptAreTouched(l: Ledger, cs: seq<MemoryConflict>, now: int)
    ensures forall m :: m in Kept(l, cs, now) ==> m.id in Touched(cs)
  {
    if cs != [] {
      var front, c := cs[..|cs| - 1], cs[|cs| - 1];
      KeptAreTouched(l, front, now);
      if Decided(c) {
        KeeperIsASide(c);
      }
      hide Decided, KeeperOf, LosersOf, ApplyAll, FreshId;
    }
  }

  lemma RemovedCount(l: Ledger, records: seq<MemoryRecord>)
    requires Sound(l) && LiveSides(l, records)
    ensures |Filter(LiveMemories(l), NotAmong(Ids(records)))| + |records| == |LiveMemories(l)|
  {
    var live, rest := LiveMemories(l), Filter(LiveMemories(l), NotAmong(Ids(records)));
    forall x ensures multiset(live)[x] == (multiset(rest) + multiset(records))[x] {
      FilterCounts(live, NotAmong(Ids(records)), x);
      LiveOnce(l, x);
      SidesOnce(l, records, x);
    }
    hide LiveMemories, Sound, LiveSides;
    assert multiset(live) == multiset(rest) + multiset(records);
    assert |multiset(live)| == |live| && |multiset(rest)| == |rest| && |multiset(records)| == |records|;
  }

  lemma SidesOnce(l: Ledger, records: seq<MemoryRecord>, x: MemoryRecord)
    requires Sound(l) && LiveSides(l, records)
    ensures multiset(records)[x] == if x in LiveMemories(l) && x.id in Ids(records) then 1 else 0
  {
    DifferentIdsOnce(records, x);
    if x in LiveMemories(l) && x.id in Ids(records) {
      var r :| r in records && r.id == x.id;
      LiveAgree(l, r, x);
    }
  }

  lemma {:induction false} DifferentIdsOnce(records: seq<MemoryRecord>, x: MemoryRecord)
    requires forall i, j :: 0 <= i < j < |records| ==> records[i].id != records[j].id
    ensures multiset(records)[x] == if x in records then 1 else 0
  {
    if records != [] {
      var front, last := records[..|records| - 1], records[|records| - 1];
      assert records == front + [last];
      DifferentIdsOnce(front, x);
      assert last !in front;
    }
  }

  lemma LoserCount(l: Ledger, c: MemoryConflict)
    requires LiveSides(l, c.records) && Decided(c)
    ensures |LosersOf(c)| == |c.records| - 1
  {
    KeeperIsASide(c);
    var keeper := KeeperOf(c);
    var i :| 0 <= i < |c.records| && c.records[i] == keeper;
    hide KeeperOf, Decided, LiveMemories;
    AllButOne(c.records, i);
  }

  lemma {:induction false} AllButOne(records: seq<MemoryRecord>, i: nat)
    requires i < |records| && forall j, k :: 0 <= j < k < |records| ==> records[j].id != records[k].id
    ensures |Filter(records, NotAmong({records[i].id}))| == |records| - 1
  {
    var front := records[..|records| - 1];
    if i == |records| - 1 {
      FilterAll(front, NotAmong({records[i].id}));
    } else {
      AllButOne(front, i);
    }
  }

  /** Applying one decided proposal is a fold of its conflict. */
  lemma DecidedProposalFolds(l: Ledger, c: MemoryConflict, report: ApplyReport, now: int)
    requires LiveSides(l, c.records) && |c.records| >= 2 && Decided(c)
    ensures var (l1, result) := Fold(l, KeeperOf(c), LosersOf(c), now);
            result == Ok(()) ==>
              ApplyOne(l, report, ProposeFor(c.subject, c.records), now)
              == (l1, Ok(report.(folded := report.folded + 1, superseded := report.superseded + (|c.records| - 1))))
  {
    hide *;
    ProposalKeepsItsKeeper(c);
    LoserCount(l, c);
    KeeperIsASide(c);
    LosersAreTheRest(c);
    SideIsCurrent(l, c.records, KeeperOf(c));
    LosersAreCurrent(l, KeeperOf(c).id, c.records) by {
      SidesAreLive(l, c.records);
    }
    if Fold(l, KeeperOf(c), LosersOf(c), now).1 == Ok(()) {
      ApplyOneUnfolds(l, report, ProposeFor(c.subject, c.records), KeeperOf(c), LosersOf(c), now);
    }
  }

  lemma SidesAreLive(l: Ledger, records: seq<MemoryRecord>)
    requires LiveSides(l, records)
    ensures forall r :: r in records ==> r in LiveMemories(l)
  {
  }

  lemma SideIsCurrent(l: Ledger, records: seq<MemoryRecord>, r: MemoryRecord)
    requires LiveSides(l, records) && r in records
    ensures CurrentMemory(l, r.id) == Some(r)
  {
    LiveIsCurrent(l, r);
  }

  lemma ApplyOneUnfolds(l: Ledger, report: ApplyReport, p: Proposal, keeper: MemoryRecord, losers: seq<MemoryRecord>, now: int)
    requires p.keep.Some? && CurrentMemory(l, p.keep.value) == Some(keeper)
    requires CurrentOnes(l, p.supersede) == losers && losers != [] && Fold(l, keeper, losers, now).1.Ok?
    ensures ApplyOne(l, report, p, now)
         == (Fold(l, keeper, losers, now).0,
             Ok(report.(folded := report.folded + 1, superseded := report.superseded + |losers|)))
  {
    hide Fold, CurrentMemory, CurrentOnes;
  }

  lemma ProposalKeepsItsKeeper(c: MemoryConflict)
    requires Decided(c)
    ensures ProposeFor(c.subject, c.records).keep == Some(KeeperOf(c).id)
    ensures ProposeFor(c.subject, c.records).supersede == OtherIds(KeeperOf(c).id, c.records)
  {
    hide Decide;
  }

  /** What is live after some conflicts were folded. */
  ghost predicate FoldedInto(l: Ledger, cs: seq<MemoryConflict>, now: int, l1: Ledger) {
    && Sound(l1) && Extends(l, l1)
    && LiveMemories(l1) == Filter(LiveMemories(l), NotAmong(Touched(cs))) + Kept(l, cs, now)
    && |LiveMemories(l1)| + SupersededCount(cs) == |LiveMemories(l)|
  }

  function ReportOn(cs: seq<MemoryConflict>): ApplyReport
    requires SupersededCount(cs) >= 0
  {
    ApplyReport(DecidedCount(cs), SupersededCount(cs), |cs| - DecidedCount(cs))
  }

  /** What is live after a run of folds, and what the report says. */
  ghost predicate Progressed(l: Ledger, cs: seq<MemoryConflict>, now: int) {
    && SupersededCount(cs) >= 0
    && FoldedInto(l, cs, now, ApplyAll(l, Proposals(cs), now).0)
    && ApplyAll(l, Proposals(cs), now).1 == Ok(ReportOn(cs))
  }

  lemma NoProgressYet(l: Ledger, now: int)
    requires Sound(l)
    ensures Progressed(l, [], now)
  {
    FilterAll(LiveMemories(l), NotAmong({}));
    hide Sound, LiveMemories, Filter;
  }

  lemma ApplyAllUnfolds(l: Ledger, cs: seq<MemoryConflict>, now: int)
    requires cs != []
    ensures var front, c := cs[..|cs| - 1], cs[|cs| - 1];
            var (before, result) := ApplyAll(l, Proposals(front), now);
            result.Ok? ==> ApplyAll(l, Proposals(cs), now) == ApplyOne(before, result.value, ProposeFor(c.subject, c.records), now)
  {
    hide ApplyOne, ProposeFor;
    assert Proposals(cs)[..|cs| - 1] == Proposals(cs[..|cs| - 1]);
  }

  lemma SidesStillLive(l: Ledger, cs: seq<MemoryConflict>, records: seq<MemoryRecord>, now: int)
    requires Progressed(l, cs, now) && LiveSides(l, records) && forall r :: r in records ==> r.id !in Touched(cs)
    ensures LiveSides(ApplyAll(l, Proposals(cs), now).0, records)
  {
    hide Touched, Kept, ApplyAll, LiveMemories, Sound, Extends;
  }

  lemma KeptUnfolds(l: Ledger, cs: seq<MemoryConflict>, now: int)
    requires cs != [] && Decided(cs[|cs| - 1])
    ensures var front, c := cs[..|cs| - 1], cs[|cs| - 1];
            && Kept(l, cs, now) == Kept(l, front, now)
                 + [Revised(KeeperOf(c), LosersOf(c), FreshId(ApplyAll(l, Proposals(front), now).0.versions), now)]
            && DecidedCount(cs) == DecidedCount(front) + 1
            && SupersededCount(cs) == SupersededCount(front) + (|c.records| - 1)
  {
    hide Decided, KeeperOf, LosersOf, ApplyAll, FreshId, Revised;
  }

  /** One more fold on top of a run of folds. */
  lemma FoldOneMore(l: Ledger, cs: seq<MemoryConflict>, now: int, before: Ledger)
    requires cs != [] && Separate(l, cs) && Decided(cs[|cs| - 1])
    requires FoldedInto(l, cs[..|cs| - 1], now, before) && before == ApplyAll(l, Proposals(cs[..|cs| - 1]), now).0
    requires LiveSides(before, cs[|cs| - 1].records)
    ensures var c := cs[|cs| - 1];
            && Fold(before, KeeperOf(c), LosersOf(c), now).1 == Ok(())
            && FoldedInto(l, cs, now, Fold(before, KeeperOf(c), LosersOf(c), now).0)
  {
    hide *;
    var front, c := cs[..|cs| - 1], cs[|cs| - 1];
    FoldedIntoGives(l, front, now, before);
    var after := Fold(before, KeeperOf(c), LosersOf(c), now).0;
    SeparateSplits(l, cs);
    KeptUnfolds(l, cs, now);
    LosersAreTheRest(c);
    KeeperIsASide(c);
    FoldReplacesTheSides(before, c.records, KeeperOf(c), LosersOf(c), now);
    RemovedCount(before, c.records);
    ExtendsTransitive(l, before, after);
    LiveAfterProgress(l, cs, now);
    FoldedIntoMeans(l, cs, now, after);
  }

  lemma FoldedIntoGives(l: Ledger, cs: seq<MemoryConflict>, now: int, l1: Ledger)
    requires FoldedInto(l, cs, now, l1)
    ensures Sound(l1) && Extends(l, l1)
    ensures LiveMemories(l1) == Filter(LiveMemories(l), NotAmong(Touched(cs))) + Kept(l, cs, now)
    ensures |LiveMemories(l1)| + SupersededCount(cs) == |LiveMemories(l)|
  {
  }

  lemma FoldedIntoMeans(l: Ledger, cs: seq<MemoryConflict>, now: int, l1: Ledger)
    requires Sound(l1) && Extends(l, l1)
    requires LiveMemories(l1) == Filter(LiveMemories(l), NotAmong(Touched(cs))) + Kept(l, cs, now)
    requires |LiveMemories(l1)| + SupersededCount(cs) == |LiveMemories(l)|
    ensures FoldedInto(l, cs, now, l1)
  {
  }

  lemma ReportOneMore(cs: seq<MemoryConflict>)
    requires cs != [] && |cs[|cs| - 1].records| >= 2 && SupersededCount(cs[..|cs| - 1]) >= 0
    ensures var c, r := cs[|cs| - 1], ReportOn(cs[..|cs| - 1]);
            && SupersededCount(cs) >= 0
            && ReportOn(cs) == if Decided(c) then r.(folded := r.folded + 1, superseded := r.superseded + (|c.records| - 1))
                               else r.(leftForYou := r.leftForYou + 1)
  {
    hide Decided;
  }

  lemma ProgressOnDecided(l: Ledger, cs: seq<MemoryConflict>, now: int)
    requires cs != [] && Separate(l, cs) && Progressed(l, cs[..|cs| - 1], now) && Decided(cs[|cs| - 1])
    ensures Progressed(l, cs, now)
  {
    hide *;
    var front, c := cs[..|cs| - 1], cs[|cs| - 1];
    var before := ApplyAll(l, Proposals(front), now).0;
    ProgressedGives(l, front, now);
    SeparateSplits(l, cs);
    SidesStillLive(l, front, c.records, now);
    ApplyAllUnfolds(l, cs, now);
    ReportOneMore(cs);
    FoldOneMore(l, cs, now, before);
    DecidedProposalFolds(before, c, ReportOn(front), now);
    ProgressedMeans(l, cs, now);
  }

  lemma ProgressedGives(l: Ledger, cs: seq<MemoryConflict>, now: int)
    requires Progressed(l, cs, now)
    ensures SupersededCount(cs) >= 0
    ensures FoldedInto(l, cs, now, ApplyAll(l, Proposals(cs), now).0)
    ensures ApplyAll(l, Proposals(cs), now).1 == Ok(ReportOn(cs))
  {
  }

  lemma ProgressedMeans(l: Ledger, cs: seq<MemoryConflict>, now: int)
    requires SupersededCount(cs) >= 0
    requires FoldedInto(l, cs, now, ApplyAll(l, Proposals(cs), now).0)
    requires ApplyAll(l, Proposals(cs), now).1 == Ok(ReportOn(cs))
    ensures Progressed(l, cs, now)
  {
  }

  lemma LosersAreTheRest(c: MemoryConflict)
    requires Decided(c)
    ensures LosersOf(c) == Filter(c.records, NotAmong({KeeperOf(c).id}))
  {
  }

  /** Two rounds of removal are one, and earlier revisions stay. */
  lemma LiveAfterProgress(l: Ledger, cs: seq<MemoryConflict>, now: int)
    requires cs != [] && Decided(cs[|cs| - 1])
    requires forall r :: r in cs[|cs| - 1].records ==> r.id !in Touched(cs[..|cs| - 1])
    ensures var front, c := cs[..|cs| - 1], cs[|cs| - 1];
            var live, kept := LiveMemories(l), Kept(l, front, now);
            Filter(Filter(live, NotAmong(Touched(front))) + kept, NotAmong(Ids(c.records)))
            == Filter(live, NotAmong(Touched(cs))) + kept
  {
    var front, c := cs[..|cs| - 1], cs[|cs| - 1];
    var live, kept := LiveMemories(l), Kept(l, front, now);
    KeptAreTouched(l, front, now);
    assert Touched(cs) == Touched(front) + Ids(c.records);
    hide LiveMemories, Kept, Touched, Filter;
    FilterOfConcat(Filter(live, NotAmong(Touched(front))), kept, NotAmong(Ids(c.records)));
    FilterAll(kept, NotAmong(Ids(c.records)));
    FilterTwice(live, NotAmong(Touched(front)), NotAmong(Ids(c.records)), NotAmong(Touched(front) + Ids(c.records)));
  }

  lemma UndecidedIsLeftAlone(l: Ledger, report: ApplyReport, c: MemoryConflict, now: int)
    requires !Decided(c)
    ensures ApplyOne(l, report, ProposeFor(c.subject, c.records), now)
         == (l, Ok(report.(leftForYou := report.leftForYou + 1)))
  {
    hide ProposeFor;
  }

  lemma UndecidedTouchesNothing(l: Ledger, cs: seq<MemoryConflict>, now: int)
    requires cs != [] && !Decided(cs[|cs| - 1])
    ensures var front := cs[..|cs| - 1];
            && Touched(cs) == Touched(front) && Kept(l, cs, now) == Kept(l, front, now)
            && SupersededCount(cs) == SupersededCount(front)
  {
    hide Decided, ApplyAll;
  }

  lemma ProgressOnUndecided(l: Ledger, cs: seq<MemoryConflict>, now: int)
    requires cs != [] && Separate(l, cs) && Progressed(l, cs[..|cs| - 1], now) && !Decided(cs[|cs| - 1])
    ensures Progressed(l, cs, now)
  {
    hide *;
    var front, c := cs[..|cs| - 1], cs[|cs| - 1];
    var before := ApplyAll(l, Proposals(front), now).0;
    ProgressedGives(l, front, now);
    FoldedIntoGives(l, front, now, before);
    SeparateSplits(l, cs);
    UndecidedTouchesNothing(l, cs, now);
    FoldedIntoMeans(l, cs, now, before);
    ApplyAllUnfolds(l, cs, now);
    ReportOneMore(cs);
    UndecidedIsLeftAlone(before, ReportOn(front), c, now);
    ProgressedMeans(l, cs, now);
  }

  /**
   Applying the proposals of conflicts that share no memory never fails. The live memories shrink by
   exactly the reported number, and the report counts each conflict once.
   */
  lemma {:induction false} ApplyMakesProgress(l: Ledger, cs: seq<MemoryConflict>, now: int)
    requires Sound(l) && Separate(l, cs)
    ensures Progressed(l, cs, now)
  {
    if cs == [] {
      NoProgressYet(l, now);
    } else {
      SeparateSplits(l, cs);
      hide Progressed, Separate, Sound, Decided, Touched, LiveSides;
      ApplyMakesProgress(l, cs[..|cs| - 1], now);
      if Decided(cs[|cs| - 1]) {
        ProgressOnDecided(l, cs, now);
      } else {
        ProgressOnUndecided(l, cs, now);
      }
    }
  }
}
