/**
 A run of merges as a whole, reviewed or not: which sides it uses, what it wastes, and what it does to
 the live memories and to every single memory.
 */
module MergeRuns {
  import opened Common
  import opened Sequences
  import opened Memory
  import opened MemoryLedger
  import opened Merge
  import opened Revise
  import Fix = ReconcileFixpoint

  // ----- What a report says -----

  function UsedBy(o: MergeOutcome): set<Uuid> {
    if o.applied then {o.olderId, o.newerId} else {}
  }

  /** The memories that the applied merges used. */
  function Used(outcomes: seq<MergeOutcome>): set<Uuid> {
    if outcomes == [] then {} else Used(outcomes[..|outcomes| - 1]) + UsedBy(outcomes[|outcomes| - 1])
  }

  function AppliedCount(outcomes: seq<MergeOutcome>): nat {
    if outcomes == [] then 0 else AppliedCount(outcomes[..|outcomes| - 1]) + if outcomes[|outcomes| - 1].applied then 1 else 0
  }

  predicate Stored(l: Ledger, id: Uuid) {
    Latest(l.versions, id).Some?
  }

  predicate IsLiveNow(l: Ledger, id: Uuid) {
    Stored(l, id) && Live(l, Latest(l.versions, id).value)
  }

  /** A memory the ledger holds and does not list as live: retracted, retired, rejected, proposed or withdrawn. */
  predicate Dead(l: Ledger, id: Uuid) {
    Stored(l, id) && !IsLiveNow(l, id)
  }

  /** Merging this side takes no live memory away: it was dead at the start, or the run has used it already. */
  function Waste(l: Ledger, used: set<Uuid>, id: Uuid): nat {
    if id in used || Dead(l, id) then 1 else 0
  }

  /** How many sides of the applied merges were wasted, on a run that starts from `l`. */
  function WastedSides(l: Ledger, outcomes: seq<MergeOutcome>): nat {
    if outcomes == [] then 0
    else
      var front, o := outcomes[..|outcomes| - 1], outcomes[|outcomes| - 1];
      WastedSides(l, front) + if o.applied then Waste(l, Used(front), o.olderId) + Waste(l, Used(front), o.newerId) else 0
  }

  /** Two applied merges share no side. */
  ghost predicate SharesNothing(a: MergeOutcome, b: MergeOutcome) {
    UsedBy(a) !! UsedBy(b)
  }

  ghost predicate ConsumedOnce(outcomes: seq<MergeOutcome>) {
    forall i, j :: 0 <= i < j < |outcomes| ==> SharesNothing(outcomes[i], outcomes[j])
  }

  /**
   No applied merge used a memory that was dead at the start. A side the ledger did not hold then can
   only be a claim that the run itself made, and is not dead.
   */
  ghost predicate NoDeadSide(l: Ledger, outcomes: seq<MergeOutcome>) {
    forall id :: id in Used(outcomes) ==> !Dead(l, id)
  }

  lemma OneMoreOutcome(l: Ledger, outcomes: seq<MergeOutcome>, o: MergeOutcome)
    ensures Used(outcomes + [o]) == Used(outcomes) + UsedBy(o)
    ensures AppliedCount(outcomes + [o]) == AppliedCount(outcomes) + if o.applied then 1 else 0
    ensures WastedSides(l, outcomes + [o])
         == WastedSides(l, outcomes) + if o.applied then Waste(l, Used(outcomes), o.olderId) + Waste(l, Used(outcomes), o.newerId) else 0
  {
    assert (outcomes + [o])[..|outcomes|] == outcomes;
    hide Waste, UsedBy;
  }

  lemma {:induction false} UsedBySome(outcomes: seq<MergeOutcome>, id: Uuid)
    ensures id in Used(outcomes) <==> exists i :: 0 <= i < |outcomes| && id in UsedBy(outcomes[i])
  {
    if outcomes != [] {
      var front, n := outcomes[..|outcomes| - 1], |outcomes| - 1;
      UsedBySome(front, id);
      if i :| 0 <= i < |front| && id in UsedBy(front[i]) {
        assert outcomes[i] == front[i];
      }
      if i :| 0 <= i < |outcomes| && id in UsedBy(outcomes[i]) {
        assert i < n ==> front[i] == outcomes[i];
      }
    }
  }

  lemma ConsumedOnceMore(outcomes: seq<MergeOutcome>, o: MergeOutcome)
    ensures ConsumedOnce(outcomes + [o]) <==> ConsumedOnce(outcomes) && Used(outcomes) !! UsedBy(o)
  {
    var all := outcomes + [o];
    hide UsedBy;
    forall id ensures id in Used(outcomes) <==> exists i :: 0 <= i < |outcomes| && id in UsedBy(outcomes[i]) {
      UsedBySome(outcomes, id);
    }
    hide Used;
    if ConsumedOnce(all) {
      forall i, j | 0 <= i < j < |outcomes| ensures SharesNothing(outcomes[i], outcomes[j]) {
        assert SharesNothing(all[i], all[j]);
      }
      forall i | 0 <= i < |outcomes| ensures UsedBy(outcomes[i]) !! UsedBy(o) {
        assert SharesNothing(all[i], all[|outcomes|]);
      }
    }
    if ConsumedOnce(outcomes) && Used(outcomes) !! UsedBy(o) {
      forall i, j | 0 <= i < j < |all| ensures SharesNothing(all[i], all[j]) {
        if j < |outcomes| {
          assert SharesNothing(outcomes[i], outcomes[j]);
        } else {
          assert UsedBy(outcomes[i]) <= Used(outcomes);
        }
      }
    }
  }

  lemma NothingIsUsedYet()
    ensures ConsumedOnce([]) && Used([]) == {} && AppliedCount([]) == 0
  {
  }

  /** Nothing is wasted exactly when every memory is used once and none of them was dead. */
  lemma {:induction false} NothingWastedIff(l: Ledger, outcomes: seq<MergeOutcome>)
    ensures WastedSides(l, outcomes) == 0 <==> ConsumedOnce(outcomes) && NoDeadSide(l, outcomes)
  {
    hide Dead, ConsumedOnce;
    NothingIsUsedYet();
    if outcomes != [] {
      var front, o := outcomes[..|outcomes| - 1], outcomes[|outcomes| - 1];
      assert outcomes == front + [o];
      NothingWastedIff(l, front);
      ConsumedOnceMore(front, o);
      OneMoreOutcome(l, front, o);
    }
  }

  // ----- What a run of merges keeps track of -----

  ghost predicate IsRetired(l: Ledger, id: Uuid) {
    Stored(l, id) && Latest(l.versions, id).value.status == Superseded
  }

  /**
   How a memory stands after merges with these outcomes. A claim that was stored still says the same,
   and is untouched unless it was used; what was used is retired; no identifier below the next fresh
   one comes into use; and live is what was not dead and was not used.
   */
  ghost predicate Accounted(was: Ledger, l: Ledger, outcomes: seq<MergeOutcome>, id: Uuid) {
    && (Stored(was, id) ==> Stored(l, id) && SameClaim(Latest(l.versions, id).value, Latest(was.versions, id).value))
    && (Stored(was, id) && id !in Used(outcomes) ==> Latest(l.versions, id) == Latest(was.versions, id))
    && (id in Used(outcomes) ==> IsRetired(l, id))
    && (Stored(l, id) && id < FreshId(was.versions) ==> Stored(was, id))
    && (Stored(l, id) ==> (IsLiveNow(l, id) <==> !Dead(was, id) && id !in Used(outcomes)))
  }

  ghost predicate AllAccounted(was: Ledger, l: Ledger, outcomes: seq<MergeOutcome>) {
    forall id :: Accounted(was, l, outcomes, id)
  }

  ghost predicate Safe(was: Ledger, l: Ledger) {
    Sound(l) && TombstonesKnown(l) && Fix.Extends(was, l)
  }

  /**
   The law of a run of merges, on any sound ledger: no version is lost, every merge takes one live
   memory away but for its wasted sides, and every memory is accounted for.
   */
  ghost predicate Tracks(was: Ledger, l: Ledger, outcomes: seq<MergeOutcome>) {
    && Safe(was, l)
    && |LiveMemories(l)| + AppliedCount(outcomes) == |LiveMemories(was)| + WastedSides(was, outcomes)
    && AllAccounted(was, l, outcomes)
  }

  lemma SafeGives(was: Ledger, l: Ledger)
    requires Safe(was, l)
    ensures Sound(l) && TombstonesKnown(l) && Fix.Extends(was, l)
    ensures was.versions <= l.versions && l.withdrawn == was.withdrawn && l.project == was.project
  {
  }

  lemma TracksGives(was: Ledger, l: Ledger, outcomes: seq<MergeOutcome>)
    requires Tracks(was, l, outcomes)
    ensures Safe(was, l)
    ensures |LiveMemories(l)| + AppliedCount(outcomes) == |LiveMemories(was)| + WastedSides(was, outcomes)
    ensures forall id :: Accounted(was, l, outcomes, id)
  {
    hide Safe, Accounted;
  }

  lemma NothingWrittenYet(l: Ledger)
    requires Sound(l) && TombstonesKnown(l)
    ensures Tracks(l, l, [])
  {
    hide Sound, TombstonesKnown, LiveMemories, Live, Latest, FreshId;
  }

  /** A pair and a validated merge of it that can be written. */
  ghost predicate Mergeable(l: Ledger, older: MemoryRecord, newer: MemoryRecord, v: ValidatedMerge) {
    && StoredPair(l, older, newer) && SoundMerge(older, newer, v)
    && older.id != newer.id && FitsTheColumns(v)
  }

  lemma LiveNowIsListed(l: Ledger, id: Uuid)
    ensures IsLiveNow(l, id) <==> id in Fix.Ids(LiveMemories(l))
  {
    if IsLiveNow(l, id) {
      LatestIsStored(l.versions, id);
    }
    if id in Fix.Ids(LiveMemories(l)) {
      var r :| r in LiveMemories(l) && r.id == id;
      LiveIsCurrent(l, r);
    }
  }

  lemma IdsAfterReplacement(live: seq<MemoryRecord>, gone: set<Uuid>, m: MemoryRecord, id: Uuid)
    ensures id in Fix.Ids(Filter(live, Fix.NotAmong(gone)) + [m]) <==> id == m.id || (id in Fix.Ids(live) && id !in gone)
  {
    var after := Filter(live, Fix.NotAmong(gone)) + [m];
    if id == m.id {
      assert m in after;
    } else if id in Fix.Ids(live) && id !in gone {
      var r :| r in live && r.id == id;
      assert r in after;
    }
  }

  lemma LiveNowAfterMerge(l: Ledger, older: MemoryRecord, newer: MemoryRecord, v: ValidatedMerge, now: int, id: Uuid)
    requires Sound(l) && TombstonesKnown(l) && Mergeable(l, older, newer, v)
    ensures var l1 := WriteMerge(l, older, newer, v, now).0;
            IsLiveNow(l1, id) <==> id == FreshId(l.versions) || (IsLiveNow(l, id) && id != older.id && id != newer.id)
  {
    MergeableGives(l, older, newer, v);
    hide *;
    MergeReplacesThePair(l, older, newer, v, now);
    MergedFields(l, older, newer, v, now);
    LiveNowIsListed(l, id);
    LiveNowIsListed(WriteMerge(l, older, newer, v, now).0, id);
    IdsAfterReplacement(LiveMemories(l), {older.id, newer.id}, Merged(l, older, newer, v, now), id);
  }

  lemma MergeableGives(l: Ledger, older: MemoryRecord, newer: MemoryRecord, v: ValidatedMerge)
    requires Mergeable(l, older, newer, v)
    ensures StoredPair(l, older, newer) && SoundMerge(older, newer, v) && older.id != newer.id && FitsTheColumns(v)
    ensures Latest(l.versions, older.id) == Some(older) && Latest(l.versions, newer.id) == Some(newer)
  {
    hide SoundMerge, FitsTheColumns;
  }

  lemma {:induction false} FreshIdGrows(versions: seq<MemoryRecord>, n: nat)
    requires n <= |versions|
    ensures FreshId(versions[..n]) <= FreshId(versions)
  {
    if n < |versions| {
      var front := versions[..|versions| - 1];
      FreshIdGrows(front, n);
      assert front[..n] == versions[..n];
    } else {
      assert versions[..n] == versions;
    }
  }

  /** The merged claim's identifier is new to both ledgers. */
  lemma MergedIsNew(was: Ledger, l: Ledger)
    requires was.versions <= l.versions
    ensures !Stored(l, FreshId(l.versions)) && FreshId(was.versions) <= FreshId(l.versions)
  {
    FreshIds(l);
    LatestIsStored(l.versions, FreshId(l.versions));
    FreshIdGrows(l.versions, |was.versions|);
    assert l.versions[..|was.versions|] == was.versions;
  }

  lemma AccountedAfterMerge(was: Ledger, l: Ledger, older: MemoryRecord, newer: MemoryRecord, v: ValidatedMerge, now: int,
                            outcomes: seq<MergeOutcome>, id: Uuid)
    requires Safe(was, l) && Mergeable(l, older, newer, v) && Accounted(was, l, outcomes, id)
    ensures Accounted(was, WriteMerge(l, older, newer, v, now).0, outcomes + [MergeOutcome(older.id, newer.id, true)], id)
  {
    var l1, o := WriteMerge(l, older, newer, v, now).0, MergeOutcome(older.id, newer.id, true);
    SafeGives(was, l);
    MergeableGives(l, older, newer, v);
    OneMoreOutcome(was, outcomes, o);
    MergedIsNew(was, l);
    LatestAfterMerge(l, older, newer, v, now, id);
    LiveNowAfterMerge(l, older, newer, v, now, id);
    hide Safe, Sound, TombstonesKnown, Mergeable, StoredPair, SoundMerge, FitsTheColumns, WriteMerge, Latest, FreshId, Live, Used, Merged,
      IsLiveNow, Fix.Extends;
  }

  lemma CountAfterMerge(l: Ledger, older: MemoryRecord, newer: MemoryRecord, v: ValidatedMerge, now: int)
    requires Sound(l) && TombstonesKnown(l) && Mergeable(l, older, newer, v)
    ensures |LiveMemories(WriteMerge(l, older, newer, v, now).0)|
            + (if IsLiveNow(l, older.id) then 1 else 0) + (if IsLiveNow(l, newer.id) then 1 else 0)
         == |LiveMemories(l)| + 1
  {
    MergeableGives(l, older, newer, v);
    assert IsLiveNow(l, older.id) == Live(l, older) && IsLiveNow(l, newer.id) == Live(l, newer);
    hide *;
    MergeReplacesThePair(l, older, newer, v, now);
    PairRemoval(l, older, newer);
    LiveOfSize(l, older);
    LiveOfSize(l, newer);
  }

  lemma AllAreAccounted(was: Ledger, l: Ledger, outcomes: seq<MergeOutcome>)
    requires forall id :: Accounted(was, l, outcomes, id)
    ensures AllAccounted(was, l, outcomes)
  {
    hide Accounted;
  }

  lemma WasteOfSide(was: Ledger, l: Ledger, outcomes: seq<MergeOutcome>, id: Uuid)
    requires Accounted(was, l, outcomes, id) && Stored(l, id)
    ensures Waste(was, Used(outcomes), id) + (if IsLiveNow(l, id) then 1 else 0) == 1
  {
    hide Used, IsLiveNow, Dead;
  }

  /** One more merge in a run. */
  lemma MergeKeepsTrack(was: Ledger, l: Ledger, older: MemoryRecord, newer: MemoryRecord, v: ValidatedMerge, now: int,
                        outcomes: seq<MergeOutcome>)
    requires Tracks(was, l, outcomes) && Mergeable(l, older, newer, v)
    ensures var (l1, result) := WriteMerge(l, older, newer, v, now);
            result == Ok(()) && Tracks(was, l1, outcomes + [MergeOutcome(older.id, newer.id, true)])
  {
    hide *;
    var l1, o := WriteMerge(l, older, newer, v, now).0, MergeOutcome(older.id, newer.id, true);
    TracksGives(was, l, outcomes);
    SafeGives(was, l);
    MergeableGives(l, older, newer, v);
    MergeReplacesThePair(l, older, newer, v, now);
    forall id ensures Accounted(was, l1, outcomes + [o], id) {
      AccountedAfterMerge(was, l, older, newer, v, now, outcomes, id);
    }
    AllAreAccounted(was, l1, outcomes + [o]);
    Fix.ExtendsTransitive(was, l, l1);
    CountAfterMerge(l, older, newer, v, now);
    SidesAreStored(l, older, newer);
    WasteOfSide(was, l, outcomes, older.id);
    WasteOfSide(was, l, outcomes, newer.id);
    OneMoreOutcome(was, outcomes, o);
    TracksMeans(was, l1, outcomes + [o]);
  }

  lemma SidesAreStored(l: Ledger, older: MemoryRecord, newer: MemoryRecord)
    requires Latest(l.versions, older.id) == Some(older) && Latest(l.versions, newer.id) == Some(newer)
    ensures Stored(l, older.id) && Stored(l, newer.id)
  {
  }

  lemma TracksMeans(was: Ledger, l: Ledger, outcomes: seq<MergeOutcome>)
    requires Sound(l) && TombstonesKnown(l) && Fix.Extends(was, l)
    requires |LiveMemories(l)| + AppliedCount(outcomes) == |LiveMemories(was)| + WastedSides(was, outcomes)
    requires AllAccounted(was, l, outcomes)
    ensures Tracks(was, l, outcomes)
  {
    hide AllAccounted;
  }

  lemma UnappliedKeepsTrack(was: Ledger, l: Ledger, outcomes: seq<MergeOutcome>, o: MergeOutcome)
    requires Tracks(was, l, outcomes) && !o.applied
    ensures Tracks(was, l, outcomes + [o]) && Used(outcomes + [o]) == Used(outcomes)
    ensures ConsumedOnce(outcomes + [o]) == ConsumedOnce(outcomes)
  {
    OneMoreOutcome(was, outcomes, o);
    ConsumedOnceMore(outcomes, o);
    hide Safe, Stored, SameClaim, IsRetired, IsLiveNow, Dead, ConsumedOnce;
    forall id ensures Accounted(was, l, outcomes + [o], id) {
      assert Accounted(was, l, outcomes, id);
    }
  }

  lemma SidesOf(o: MergeOutcome)
    requires o.applied
    ensures UsedBy(o) == {o.olderId, o.newerId}
  {
  }

  lemma MergeableMeans(l: Ledger, older: MemoryRecord, newer: MemoryRecord, v: ValidatedMerge)
    requires StoredPair(l, older, newer) && SoundMerge(older, newer, v) && older.id != newer.id && FitsTheColumns(v)
    ensures Mergeable(l, older, newer, v)
  {
    hide StoredPair, SoundMerge, FitsTheColumns;
  }

  ghost predicate AllRetired(l: Ledger, outcomes: seq<MergeOutcome>) {
    forall id :: id in Used(outcomes) ==> IsRetired(l, id)
  }

  lemma UsedAreRetired(was: Ledger, l: Ledger, outcomes: seq<MergeOutcome>)
    requires Tracks(was, l, outcomes)
    ensures AllRetired(l, outcomes)
  {
    TracksGives(was, l, outcomes);
    hide Tracks, Used;
    forall id | id in Used(outcomes) ensures IsRetired(l, id) {
      assert Accounted(was, l, outcomes, id);
    }
  }

  /** The run did not make this memory: what the ledger holds of it now, it held before. */
  predicate NotMade(was: Ledger, l: Ledger, id: Uuid) {
    Stored(l, id) ==> Stored(was, id)
  }

  lemma {:induction false} StoredIff(versions: seq<MemoryRecord>, id: Uuid)
    ensures Latest(versions, id).Some? <==> exists v :: v in versions && v.id == id
  {
    LatestIsStored(versions, id);
    hide Latest;
  }

  lemma NotMadeBefore(was: Ledger, before: Ledger, l: Ledger, id: Uuid)
    requires NotMade(was, l, id) && before.versions <= l.versions
    ensures NotMade(was, before, id)
  {
    StoredIff(before.versions, id);
    StoredIff(l.versions, id);
    hide Latest;
  }

  /** An identifier below the next fresh one is never made by a run, whether it is in use or unknown. */
  lemma IssuedIsNotMade(was: Ledger, l: Ledger, outcomes: seq<MergeOutcome>, id: Uuid)
    requires Tracks(was, l, outcomes) && id < FreshId(was.versions)
    ensures NotMade(was, l, id)
  {
    TracksGives(was, l, outcomes);
    assert Accounted(was, l, outcomes, id);
    hide Tracks, FreshId, Used, Dead, IsLiveNow;
  }

  lemma NoSides(o: MergeOutcome)
    requires !o.applied
    ensures UsedBy(o) == {}
  {
  }

  lemma NoDeadSideSplits(l: Ledger, outcomes: seq<MergeOutcome>, o: MergeOutcome)
    requires NoDeadSide(l, outcomes + [o])
    ensures NoDeadSide(l, outcomes) && (o.applied ==> !Dead(l, o.olderId) && !Dead(l, o.newerId))
  {
    OneMoreOutcome(l, outcomes, o);
    hide Dead, Used;
  }
}
