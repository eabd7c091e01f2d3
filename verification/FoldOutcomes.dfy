/**
 What reconciling leaves of each memory: the kept side of a decided conflict says what it said, its
 other sides are retired as they were, and everything else is untouched.
 */
module FoldOutcomes {
  import opened Common
  import opened Sequences
  import opened Memory
  import opened Supersession
  import opened MemoryLedger
  import opened Reconcile
  import Fix = ReconcileFixpoint
  import Theorem = ReconcileTheorem

  /** The kept side, recorded again: it supersedes the versions of exactly the other sides. */
  ghost predicate KeptAs(m: MemoryRecord, side: MemoryRecord, records: seq<MemoryRecord>, now: int) {
    && SameClaim(m, side) && m.status == Current && m.recordedAt == now
    && forall version :: version in m.supersedes <==> exists r :: r in records && r.id != side.id && r.versionId == version
  }

  /** A side that was not kept, recorded again as superseded, with no edge of its own. */
  ghost predicate RetiredAs(m: MemoryRecord, side: MemoryRecord, now: int) {
    SameClaim(m, side) && m.status == Superseded && m.recordedAt == now && m.supersedes == []
  }

  lemma RevisedSays(keeper: MemoryRecord, losers: seq<MemoryRecord>, records: seq<MemoryRecord>, version: Uuid, now: int)
    requires losers == Filter(records, Fix.NotAmong({keeper.id}))
    ensures KeptAs(Revised(keeper, losers, version, now), keeper, records, now)
  {
    var m := Revised(keeper, losers, version, now);
    forall v ensures v in m.supersedes <==> exists r :: r in records && r.id != keeper.id && r.versionId == v {
      Fix.VersionsOfMembers(losers, v);
    }
    hide VersionsOf;
  }

  lemma RetiredSays(loser: MemoryRecord, version: Uuid, now: int)
    ensures RetiredAs(Retired(loser, version, now), loser, now)
  {
  }

  /** What retiring some records leaves as the latest version of a memory. */
  lemma {:induction false} LatestAfterRetire(l: Ledger, losers: seq<MemoryRecord>, now: int, id: Uuid)
    requires Sound(l) && (forall r :: r in losers ==> r in l.versions)
    requires forall i, j :: 0 <= i < j < |losers| ==> losers[i].id != losers[j].id
    ensures var (l1, result) := Retire(l, losers, now);
            && result == Ok(()) && Sound(l1) && l.versions <= l1.versions
            && (id !in Fix.Ids(losers) ==> Latest(l1.versions, id) == Latest(l.versions, id))
            && (forall r :: r in losers && r.id == id ==> Latest(l1.versions, id).Some? && RetiredAs(Latest(l1.versions, id).value, r, now))
  {
    hide *;
    if losers == [] {
      RetireNothing(l, now);
      assert losers == [];
    } else {
      var front, last := losers[..|losers| - 1], losers[|losers| - 1];
      assert losers == front + [last] && last in losers;
      LatestAfterRetire(l, front, now, id);
      RetireUnfolds(l, losers, now);
      var before := Retire(l, front, now).0;
      var m := Retired(last, FreshId(before.versions), now);
      Fix.RetiredIsAcceptable(before, last, now);
      Fix.AcceptedAppend(before, m);
      RetiredSays(last, FreshId(before.versions), now);
      RetiredAsMeans(m, last, now);
      AppendedVersions(before, m);
      LatestAfterAppend(before.versions, m, id);
      IdsOfOneMore(front, last, id);
    }
  }

  lemma RetireNothing(l: Ledger, now: int)
    ensures Retire(l, [], now) == (l, Ok(())) && Fix.Ids([]) == {}
  {
  }

  lemma RetireUnfolds(l: Ledger, losers: seq<MemoryRecord>, now: int)
    requires losers != []
    ensures var (before, result) := Retire(l, losers[..|losers| - 1], now);
            result.Ok? ==> Retire(l, losers, now) == Append(before, Retired(losers[|losers| - 1], FreshId(before.versions), now))
  {
    hide Append, Retired, FreshId;
  }

  lemma RetiredAsMeans(m: MemoryRecord, side: MemoryRecord, now: int)
    requires RetiredAs(m, side, now)
    ensures m.id == side.id
  {
  }

  lemma AppendedVersions(l: Ledger, m: MemoryRecord)
    ensures Appended(l, m).versions == l.versions + [m]
  {
  }

  lemma IdsOfOneMore(front: seq<MemoryRecord>, last: MemoryRecord, id: Uuid)
    ensures id in Fix.Ids(front + [last]) <==> id in Fix.Ids(front) || id == last.id
  {
  }

  /** How a side of a decided conflict stands after its fold. */
  ghost predicate SideSettled(l: Ledger, records: seq<MemoryRecord>, keeper: MemoryRecord, side: MemoryRecord, now: int) {
    var found := Latest(l.versions, side.id);
    && found.Some?
    && (side == keeper ==> KeptAs(found.value, side, records, now))
    && (side != keeper ==> RetiredAs(found.value, side, now))
  }

  lemma LatestAfterFold(l: Ledger, records: seq<MemoryRecord>, keeper: MemoryRecord, losers: seq<MemoryRecord>, now: int, id: Uuid)
    requires Sound(l) && Fix.LiveSides(l, records) && keeper in records && losers == Filter(records, Fix.NotAmong({keeper.id}))
    ensures var l1 := Fold(l, keeper, losers, now).0;
            && (id !in Fix.Ids(records) ==> Latest(l1.versions, id) == Latest(l.versions, id))
            && (forall side :: side in records && side.id == id ==> SideSettled(l1, records, keeper, side, now))
  {
    var m := Revised(keeper, losers, FreshId(l.versions), now);
    Fix.LosersAreSides(l, records, keeper, losers);
    LosersOf(l, records, keeper, losers);
    RevisedSays(keeper, losers, records, FreshId(l.versions), now);
    assert m.id == keeper.id;
    hide *;
    Fix.SidesAreStored(l, records);
    Fix.SidesAreStored(l, losers);
    Fix.RevisedIsAcceptable(l, keeper, losers, now);
    Fix.AcceptedAppend(l, m);
    Fix.FoldIsRetire(l, keeper, losers, now);
    AppendedVersions(l, m);
    LatestAfterAppend(l.versions, m, id);
    LatestAfterRetire(Appended(l, m), losers, now, id);
    var l1 := Fold(l, keeper, losers, now).0;
    forall side | side in records && side.id == id ensures SideSettled(l1, records, keeper, side, now) {
      SideSettledMeans(l1, records, keeper, side, now);
    }
  }

  lemma SideSettledMeans(l: Ledger, records: seq<MemoryRecord>, keeper: MemoryRecord, side: MemoryRecord, now: int)
    ensures SideSettled(l, records, keeper, side, now) <==>
              && Latest(l.versions, side.id).Some?
              && (side == keeper ==> KeptAs(Latest(l.versions, side.id).value, side, records, now))
              && (side != keeper ==> RetiredAs(Latest(l.versions, side.id).value, side, now))
  {
  }

  /** The losers are the other sides: different memories, none of them the kept one. */
  lemma LosersOf(l: Ledger, records: seq<MemoryRecord>, keeper: MemoryRecord, losers: seq<MemoryRecord>)
    requires Fix.LiveSides(l, records) && keeper in records && losers == Filter(records, Fix.NotAmong({keeper.id}))
    ensures forall i, j :: 0 <= i < j < |losers| ==> losers[i].id != losers[j].id
    ensures forall r :: r in losers <==> r in records && r != keeper
    ensures keeper.id !in Fix.Ids(losers)
    ensures Fix.Ids(losers) <= Fix.Ids(records) && keeper.id in Fix.Ids(records)
  {
    Fix.LosersAreSides(l, records, keeper, losers);
    forall r | r in records ensures r.id == keeper.id <==> r == keeper {
      SameIdSameSide(records, r, keeper);
    }
    hide LiveMemories, Filter;
  }

  lemma SameIdSameSide(records: seq<MemoryRecord>, a: MemoryRecord, b: MemoryRecord)
    requires a in records && b in records
    requires forall i, j :: 0 <= i < j < |records| ==> records[i].id != records[j].id
    ensures a.id == b.id <==> a == b
  {
    var i :| 0 <= i < |records| && records[i] == a;
    var j :| 0 <= j < |records| && records[j] == b;
  }

  // ----- A whole run of folds -----

  /** Which memories a run of folds is about. */
  ghost predicate Involves(cs: seq<MemoryConflict>, id: Uuid) {
    exists c :: c in cs && Fix.Decided(c) && id in Fix.Ids(c.records)
  }

  /** Every side of a decided conflict is settled. */
  ghost predicate Settled(l: Ledger, c: MemoryConflict, now: int)
    requires Fix.Decided(c)
  {
    forall side :: side in c.records ==> SideSettled(l, c.records, Fix.KeeperOf(c), side, now)
  }

  /** One more fold: the last conflict's sides are settled, and nothing else moves. */
  lemma OneMoreFold(l: Ledger, cs: seq<MemoryConflict>, now: int, id: Uuid)
    requires Sound(l) && Fix.Separate(l, cs) && cs != [] && Fix.Decided(cs[|cs| - 1])
    ensures var c := cs[|cs| - 1];
            var before, after := ApplyAll(l, Proposals(cs[..|cs| - 1]), now).0, ApplyAll(l, Proposals(cs), now).0;
            && (id !in Fix.Ids(c.records) ==> Latest(after.versions, id) == Latest(before.versions, id))
            && (forall side :: side in c.records && side.id == id ==> SideSettled(after, c.records, Fix.KeeperOf(c), side, now))
  {
    hide *;
    var front, c := cs[..|cs| - 1], cs[|cs| - 1];
    var before := ApplyAll(l, Proposals(front), now).0;
    var keeper, losers := Fix.KeeperOf(c), Fix.LosersOf(c);
    Fix.SeparateSplits(l, cs);
    Fix.ApplyMakesProgress(l, front, now);
    Fix.ProgressedGives(l, front, now);
    Fix.FoldedIntoGives(l, front, now, before);
    Fix.SidesStillLive(l, front, c.records, now);
    Fix.ApplyAllUnfolds(l, cs, now);
    Fix.KeeperIsASide(c);
    Fix.LosersAreTheRest(c);
    Fix.FoldReplacesTheSides(before, c.records, keeper, losers, now);
    Fix.DecidedProposalFolds(before, c, Fix.ReportOn(front), now);
    LatestAfterFold(before, c.records, keeper, losers, now, id);
  }

  lemma NoFold(l: Ledger, cs: seq<MemoryConflict>, now: int)
    requires Sound(l) && Fix.Separate(l, cs) && cs != [] && !Fix.Decided(cs[|cs| - 1])
    ensures ApplyAll(l, Proposals(cs), now).0 == ApplyAll(l, Proposals(cs[..|cs| - 1]), now).0
  {
    hide *;
    var front, c := cs[..|cs| - 1], cs[|cs| - 1];
    Fix.SeparateSplits(l, cs);
    Fix.ApplyMakesProgress(l, front, now);
    Fix.ProgressedGives(l, front, now);
    Fix.ApplyAllUnfolds(l, cs, now);
    Fix.UndecidedIsLeftAlone(ApplyAll(l, Proposals(front), now).0, Fix.ReportOn(front), c, now);
  }

  /** What a run of folds leaves as the latest version of a memory. */
  lemma {:induction false} LatestAfterFolds(l: Ledger, cs: seq<MemoryConflict>, now: int, id: Uuid)
    requires Sound(l) && Fix.Separate(l, cs)
    ensures var l1 := ApplyAll(l, Proposals(cs), now).0;
            && (!Involves(cs, id) ==> Latest(l1.versions, id) == Latest(l.versions, id))
            && (forall c, side :: c in cs && Fix.Decided(c) && side in c.records && side.id == id ==>
                  SideSettled(l1, c.records, Fix.KeeperOf(c), side, now))
  {
    hide *;
    if cs == [] {
      NothingToFold(l, now);
      assert cs == [];
    } else {
      var front, last := cs[..|cs| - 1], cs[|cs| - 1];
      var before, after := ApplyAll(l, Proposals(front), now).0, ApplyAll(l, Proposals(cs), now).0;
      assert cs == front + [last];
      Fix.SeparateSplits(l, cs);
      LatestAfterFolds(l, front, now, id);
      InvolvesOneMore(front, last, id);
      if Fix.Decided(last) {
        OneMoreFold(l, cs, now, id);
      } else {
        NoFold(l, cs, now);
      }
      forall c, side | c in cs && Fix.Decided(c) && side in c.records && side.id == id
        ensures SideSettled(after, c.records, Fix.KeeperOf(c), side, now)
      {
        if c in front {
          SidesAreApart(l, cs, c, side);
          SideSettledMeans(before, c.records, Fix.KeeperOf(c), side, now);
          SideSettledMeans(after, c.records, Fix.KeeperOf(c), side, now);
        }
      }
    }
  }

  lemma NothingToFold(l: Ledger, now: int)
    ensures ApplyAll(l, Proposals([]), now).0 == l
  {
  }

  lemma InvolvesOneMore(front: seq<MemoryConflict>, last: MemoryConflict, id: Uuid)
    ensures Involves(front + [last], id) <==> Involves(front, id) || (Fix.Decided(last) && id in Fix.Ids(last.records))
  {
    hide Fix.Decided, Fix.Ids;
    assert forall c :: c in front + [last] <==> c in front || c == last;
    if Involves(front, id) {
      var c :| c in front && Fix.Decided(c) && id in Fix.Ids(c.records);
      assert c in front + [last];
    }
    assert last in front + [last];
  }

  lemma SidesAreApart(l: Ledger, cs: seq<MemoryConflict>, c: MemoryConflict, side: MemoryRecord)
    requires Fix.Separate(l, cs) && cs != [] && c in cs[..|cs| - 1] && side in c.records
    ensures side.id !in Fix.Ids(cs[|cs| - 1].records)
  {
    var i :| 0 <= i < |cs| - 1 && cs[i] == c;
    assert Fix.Apart(cs[i], cs[|cs| - 1]);
    hide Fix.LiveSides;
  }

  /**
   What reconciling leaves of each side of a conflict, with no word about how. If the rules keep a
   side, its memory is live afterwards and says, dates and cites what that side did, and supersedes
   exactly the other sides; each of those is still what it was, marked superseded, and not live. If
   they keep none, every side is untouched.
   */
  lemma ReconcilingSettlesEachSide(l: Ledger, asOf: int, now: int, c: MemoryConflict, side: MemoryRecord)
    requires Sound(l) && c in ConflictsAt(l, asOf) && side in c.records
    ensures var l1 := Apply(l, asOf, now).0;
            var keep := ProposeFor(c.subject, c.records).keep;
            var found := CurrentMemory(l1, side.id);
            && found.Some?
            && (keep == Some(side.id) ==> KeptAs(found.value, side, c.records, now) && found.value in LiveMemories(l1))
            && (keep.Some? && keep != Some(side.id) ==> RetiredAs(found.value, side, now) && found.value !in LiveMemories(l1))
            && (keep.None? ==> found.value == side && side in LiveMemories(l1))
  {
    hide *;
    var cs := ConflictsAt(l, asOf);
    var l1 := Apply(l, asOf, now).0;
    Theorem.ConflictsAreSeparate(l, asOf);
    Theorem.ApplyMeans(l, asOf, now);
    SideIsLive(l, cs, c, side);
    Fix.ApplyMakesProgress(l, cs, now);
    Fix.ProgressedGives(l, cs, now);
    Fix.FoldedIntoGives(l, cs, now, l1);
    Fix.ExtendsKeeps(l, l1);
    LatestAfterFolds(l, cs, now, side.id);
    CurrentIsLatest(l, side);
    FoundIsLatest(l, l1, side);
    KeepIsDecided(c);
    if Fix.Decided(c) {
      Fix.KeeperIsASide(c);
      Fix.ProposalKeepsItsKeeper(c);
      SameIdSameSide(c.records, side, Fix.KeeperOf(c));
      SideSettledMeans(l1, c.records, Fix.KeeperOf(c), side, now);
      Theorem.ConflictsAreSeparate(l, asOf);
      KeptIsLive(l, cs, now, c, l1);
      RetiredIsNotLive(l1, side, now);
    } else {
      OnlyInItsConflict(l, cs, c, side);
      UndecidedSideStaysLive(l, cs, now, c, side, l1);
    }
  }

  lemma KeepIsDecided(c: MemoryConflict)
    ensures Fix.Decided(c) <==> ProposeFor(c.subject, c.records).keep.Some?
  {
    hide ProposeFor;
  }

  lemma SideIsLive(l: Ledger, cs: seq<MemoryConflict>, c: MemoryConflict, side: MemoryRecord)
    requires Fix.Separate(l, cs) && c in cs && side in c.records
    ensures side in LiveMemories(l) && Fix.LiveSides(l, c.records)
    ensures forall i, j :: 0 <= i < j < |c.records| ==> c.records[i].id != c.records[j].id
  {
    var i :| 0 <= i < |cs| && cs[i] == c;
    hide LiveMemories;
  }

  lemma CurrentIsLatest(l: Ledger, side: MemoryRecord)
    requires side in LiveMemories(l)
    ensures Latest(l.versions, side.id) == Some(side) && side.id !in l.withdrawn
  {
    LiveIsCurrent(l, side);
  }

  lemma FoundIsLatest(l: Ledger, l1: Ledger, side: MemoryRecord)
    requires side.id !in l.withdrawn && l1.withdrawn == l.withdrawn
    ensures CurrentMemory(l1, side.id) == Latest(l1.versions, side.id)
  {
  }

  /** A kept side's latest version is live: it is the only one of its memory that the folds left. */
  lemma KeptIsLive(l: Ledger, cs: seq<MemoryConflict>, now: int, c: MemoryConflict, l1: Ledger)
    requires c in cs && Fix.Decided(c) && Fix.FoldedInto(l, cs, now, l1)
    ensures Latest(l1.versions, Fix.KeeperOf(c).id).Some? && Latest(l1.versions, Fix.KeeperOf(c).id).value in LiveMemories(l1)
  {
    hide *;
    Fix.FoldedIntoGives(l, cs, now, l1);
    var m := KeptHolds(l, cs, now, c);
    assert m in LiveMemories(l1);
    LiveIsLatest(l1, m);
  }

  lemma LiveIsLatest(l: Ledger, m: MemoryRecord)
    requires m in LiveMemories(l)
    ensures Latest(l.versions, m.id) == Some(m)
  {
    LiveIsCurrent(l, m);
  }

  lemma {:induction false} KeptHolds(l: Ledger, cs: seq<MemoryConflict>, now: int, c: MemoryConflict) returns (m: MemoryRecord)
    requires c in cs && Fix.Decided(c)
    ensures m in Fix.Kept(l, cs, now) && m.id == Fix.KeeperOf(c).id
  {
    hide Fix.Decided, Fix.KeeperOf, Fix.LosersOf, FreshId, ApplyAll;
    var front, last := cs[..|cs| - 1], cs[|cs| - 1];
    assert cs == front + [last];
    if c == last {
      m := Revised(Fix.KeeperOf(c), Fix.LosersOf(c), FreshId(ApplyAll(l, Proposals(front), now).0.versions), now);
    } else {
      m := KeptHolds(l, front, now, c);
    }
  }

  lemma RetiredIsNotLive(l: Ledger, side: MemoryRecord, now: int)
    ensures Latest(l.versions, side.id).Some? && RetiredAs(Latest(l.versions, side.id).value, side, now) ==>
              Latest(l.versions, side.id).value !in LiveMemories(l)
  {
    hide Latest;
  }

  lemma OnlyInItsConflict(l: Ledger, cs: seq<MemoryConflict>, c: MemoryConflict, side: MemoryRecord)
    requires Fix.Separate(l, cs) && c in cs && !Fix.Decided(c) && side in c.records
    ensures !Involves(cs, side.id)
  {
    hide Fix.Decided, Fix.LiveSides;
    var i :| 0 <= i < |cs| && cs[i] == c;
    forall d | d in cs && Fix.Decided(d) ensures side.id !in Fix.Ids(d.records) {
      var j :| 0 <= j < |cs| && cs[j] == d;
      assert i < j ==> Fix.Apart(cs[i], cs[j]);
      assert j < i ==> Fix.Apart(cs[j], cs[i]);
    }
  }

  lemma UndecidedSideStaysLive(l: Ledger, cs: seq<MemoryConflict>, now: int, c: MemoryConflict, side: MemoryRecord, l1: Ledger)
    requires !Involves(cs, side.id) && side in LiveMemories(l) && Fix.FoldedInto(l, cs, now, l1)
    ensures side in LiveMemories(l1)
  {
    hide *;
    Fix.FoldedIntoGives(l, cs, now, l1);
    TouchedIsInvolved(cs, side.id);
    StaysUnlessTouched(LiveMemories(l), side, Fix.Touched(cs));
  }

  lemma TouchedIsInvolved(cs: seq<MemoryConflict>, id: Uuid)
    ensures id in Fix.Touched(cs) ==> Involves(cs, id)
  {
    hide Fix.Decided, Fix.Ids, Fix.Touched;
    Fix.TouchedBySome(cs, id);
    if i :| 0 <= i < |cs| && Fix.Decided(cs[i]) && id in Fix.Ids(cs[i].records) {
      assert cs[i] in cs;
    }
  }

  lemma StaysUnlessTouched(live: seq<MemoryRecord>, side: MemoryRecord, touched: set<Uuid>)
    requires side in live && side.id !in touched
    ensures side in Filter(live, Fix.NotAmong(touched))
  {
  }

  /** A memory that is a side of no decided conflict is what it was. */
  lemma ReconcilingLeavesTheRest(l: Ledger, asOf: int, now: int, id: Uuid)
    requires Sound(l)
    requires forall c :: c in ConflictsAt(l, asOf) && ProposeFor(c.subject, c.records).keep.Some? ==> id !in Fix.Ids(c.records)
    ensures CurrentMemory(Apply(l, asOf, now).0, id) == CurrentMemory(l, id)
  {
    hide *;
    var cs := ConflictsAt(l, asOf);
    var l1 := Apply(l, asOf, now).0;
    Theorem.ConflictsAreSeparate(l, asOf);
    Theorem.ApplyMeans(l, asOf, now);
    Fix.ApplyMakesProgress(l, cs, now);
    Fix.ProgressedGives(l, cs, now);
    Fix.FoldedIntoGives(l, cs, now, l1);
    Fix.ExtendsKeeps(l, l1);
    LatestAfterFolds(l, cs, now, id);
    forall c | c in cs ensures Fix.Decided(c) <==> ProposeFor(c.subject, c.records).keep.Some? {
      KeepIsDecided(c);
    }
    NotInvolved(cs, id);
    SameCurrent(l, l1, id);
  }

  lemma NotInvolved(cs: seq<MemoryConflict>, id: Uuid)
    requires forall c :: c in cs && Fix.Decided(c) ==> id !in Fix.Ids(c.records)
    ensures !Involves(cs, id)
  {
    hide Fix.Decided, Fix.Ids;
  }

  lemma SameCurrent(l: Ledger, l1: Ledger, id: Uuid)
    requires Latest(l1.versions, id) == Latest(l.versions, id) && l1.withdrawn == l.withdrawn
    ensures CurrentMemory(l1, id) == CurrentMemory(l, id)
  {
  }
}
