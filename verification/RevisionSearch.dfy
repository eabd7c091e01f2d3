/**
 Finding the claims a later observation should have updated: pairs that cite a common event, found
 through an index from events to the claims that cite them.
 */
module RevisionSearch {
  import opened Common
  import opened Sequences
  import opened Memory
  import opened Merge
  import MemoryLedger
  import ReconcileFixpoint
  import ReconcileTheorem

  const MIN_NEW_EVIDENCE := 2
  const DEFAULT_MIN_GAP_DAYS: real := 1.0
  const NANOS_PER_DAY: real := 86_400_000_000_000.0

  datatype RevisionCandidate = RevisionCandidate(olderId: Uuid, newerId: Uuid, unseen: seq<Uuid>, gapDays: real)

  /** The events the newer claim cites and the older does not. */
  function Unseen(older: MemoryRecord, newer: MemoryRecord): seq<Uuid> {
    Filter(newer.evidenceIds, NotIn(older.evidenceIds))
  }

  function GapDays(older: MemoryRecord, newer: MemoryRecord): real {
    (newer.validFrom - older.validFrom) as real / NANOS_PER_DAY
  }

  function CandidateFor(older: MemoryRecord, newer: MemoryRecord): RevisionCandidate {
    RevisionCandidate(older.id, newer.id, Unseen(older, newer), GapDays(older, newer))
  }

  /** The older of two listed claims; level dates go by listing order. */
  function Older(left: MemoryRecord, right: MemoryRecord): MemoryRecord {
    if left.validFrom <= right.validFrom then left else right
  }

  function Newer(left: MemoryRecord, right: MemoryRecord): MemoryRecord {
    if left.validFrom <= right.validFrom then right else left
  }

  function PairCandidate(left: MemoryRecord, right: MemoryRecord): RevisionCandidate {
    CandidateFor(Older(left, right), Newer(left, right))
  }

  predicate Qualifies(left: MemoryRecord, right: MemoryRecord, minGap: real) {
    |PairCandidate(left, right).unseen| >= MIN_NEW_EVIDENCE && PairCandidate(left, right).gapDays >= minGap
  }

  predicate Shares(left: MemoryRecord, right: MemoryRecord) {
    exists e :: e in left.evidenceIds && e in right.evidenceIds
  }

  /** Most unseen evidence first, then the widest gap. */
  predicate WorthFirst(left: RevisionCandidate, right: RevisionCandidate) {
    if |left.unseen| != |right.unseen| then |left.unseen| > |right.unseen| else left.gapDays >= right.gapDays
  }

  /** The ledger lists a memory once, and a version cites an event once. */
  predicate Listed(memories: seq<MemoryRecord>) {
    && (forall i, j :: 0 <= i < j < |memories| ==> memories[i].id != memories[j].id)
    && (forall m :: m in memories ==> forall i, j :: 0 <= i < j < |m.evidenceIds| ==> m.evidenceIds[i] != m.evidenceIds[j])
  }

  /** What a sound ledger lists as live is listed so. */
  lemma LiveMemoriesAreListed(l: MemoryLedger.Ledger)
    requires MemoryLedger.Sound(l)
    ensures Listed(MemoryLedger.LiveMemories(l))
  {
    ReconcileTheorem.LiveIdsDiffer(l);
    hide MemoryLedger.Sound, MemoryLedger.LiveMemories;
    forall m | m in MemoryLedger.LiveMemories(l)
      ensures forall i, j :: 0 <= i < j < |m.evidenceIds| ==> m.evidenceIds[i] != m.evidenceIds[j]
    {
      MemoryLedger.LiveIsCurrent(l, m);
      MemoryLedger.StoredRecordsAreValid(l, m);
    }
  }

  // ----- The index -----

  /** The positions of the claims that cite an event, in listing order. */
  ghost function Citers(memories: seq<MemoryRecord>, event: Uuid): seq<nat> {
    if memories == [] then []
    else Citers(memories[..|memories| - 1], event)
         + if event in memories[|memories| - 1].evidenceIds then [|memories| - 1] else []
  }

  lemma {:induction false} CitersAre(memories: seq<MemoryRecord>, event: Uuid)
    ensures forall k :: k in Citers(memories, event) <==> 0 <= k < |memories| && event in memories[k].evidenceIds
    ensures Increasing(Citers(memories, event))
  {
    if memories != [] {
      var front := memories[..|memories| - 1];
      CitersAre(front, event);
      var before := Citers(front, event);
      assert forall k :: 0 <= k < |front| ==> front[k] == memories[k];
      forall i | 0 <= i < |before| ensures before[i] < |memories| - 1 {
        assert before[i] in before;
      }
    }
  }

  ghost function IdsAt(memories: seq<MemoryRecord>, positions: seq<nat>): seq<Uuid>
    requires forall i :: 0 <= i < |positions| ==> positions[i] < |memories|
  {
    seq(|positions|, i requires 0 <= i < |positions| => memories[positions[i]].id)
  }

  ghost function IdsCiting(memories: seq<MemoryRecord>, event: Uuid): seq<Uuid> {
    CitersInRange(memories, event);
    IdsAt(memories, Citers(memories, event))
  }

  lemma CitersInRange(memories: seq<MemoryRecord>, event: Uuid)
    ensures forall i :: 0 <= i < |Citers(memories, event)| ==>
              Citers(memories, event)[i] < |memories| && event in memories[Citers(memories, event)[i]].evidenceIds
  {
    CitersAre(memories, event);
    forall i | 0 <= i < |Citers(memories, event)|
      ensures Citers(memories, event)[i] < |memories| && event in memories[Citers(memories, event)[i]].evidenceIds
    {
      assert Citers(memories, event)[i] in Citers(memories, event);
    }
  }

  lemma IdsCitingOneMore(memories: seq<MemoryRecord>, m: MemoryRecord, event: Uuid)
    ensures IdsCiting(memories + [m], event) == IdsCiting(memories, event) + if event in m.evidenceIds then [m.id] else []
  {
    CitersInRange(memories, event);
    CitersInRange(memories + [m], event);
    assert (memories + [m])[..|memories|] == memories;
  }

  function Entry(citing: map<Uuid, seq<Uuid>>, event: Uuid): seq<Uuid> {
    if event in citing then citing[event] else []
  }

  ghost predicate EntryIs(citing: map<Uuid, seq<Uuid>>, event: Uuid, ids: seq<Uuid>) {
    Entry(citing, event) == ids && (event in citing <==> ids != [])
  }

  ghost predicate Indexes(citing: map<Uuid, seq<Uuid>>, memories: seq<MemoryRecord>) {
    forall event :: EntryIs(citing, event, IdsCiting(memories, event))
  }

  ghost predicate PartlyIndexes(citing: map<Uuid, seq<Uuid>>, memories: seq<MemoryRecord>, m: MemoryRecord, k: nat)
    requires k <= |m.evidenceIds|
  {
    forall event :: EntryIs(citing, event, IdsCiting(memories, event) + if event in m.evidenceIds[..k] then [m.id] else [])
  }

  method IndexMemory(citing: map<Uuid, seq<Uuid>>, m: MemoryRecord, ghost before: seq<MemoryRecord>)
    returns (r: map<Uuid, seq<Uuid>>)
    requires Indexes(citing, before)
    requires forall i, j :: 0 <= i < j < |m.evidenceIds| ==> m.evidenceIds[i] != m.evidenceIds[j]
    ensures Indexes(r, before + [m])
  {
    hide IdsCiting;
    r := citing;
    var k := 0;
    forall event ensures EntryIs(r, event, IdsCiting(before, event) + if event in m.evidenceIds[..0] then [m.id] else []) {
      assert EntryIs(r, event, IdsCiting(before, event));
      assert IdsCiting(before, event) + [] == IdsCiting(before, event);
    }
    while k < |m.evidenceIds|
      invariant 0 <= k <= |m.evidenceIds|
      invariant PartlyIndexes(r, before, m, k)
    {
      r := IndexEvent(r, m, k, before);
      k := k + 1;
    }
    forall event ensures EntryIs(r, event, IdsCiting(before + [m], event)) {
      IdsCitingOneMore(before, m, event);
      assert m.evidenceIds[..|m.evidenceIds|] == m.evidenceIds;
      assert EntryIs(r, event, IdsCiting(before, event) + if event in m.evidenceIds[..k] then [m.id] else []);
    }
  }

  method IndexEvent(citing: map<Uuid, seq<Uuid>>, m: MemoryRecord, k: nat, ghost before: seq<MemoryRecord>)
    returns (r: map<Uuid, seq<Uuid>>)
    requires k < |m.evidenceIds| && PartlyIndexes(citing, before, m, k)
    requires forall i, j :: 0 <= i < j < |m.evidenceIds| ==> m.evidenceIds[i] != m.evidenceIds[j]
    ensures PartlyIndexes(r, before, m, k + 1)
  {
    hide IdsCiting;
    var e := m.evidenceIds[k];
    r := citing[e := Entry(citing, e) + [m.id]];
    forall event
      ensures EntryIs(r, event, IdsCiting(before, event) + if event in m.evidenceIds[..k + 1] then [m.id] else [])
    {
      assert EntryIs(citing, event, IdsCiting(before, event) + if event in m.evidenceIds[..k] then [m.id] else []);
      assert m.evidenceIds[..k + 1] == m.evidenceIds[..k] + [e];
      assert e !in m.evidenceIds[..k];
      assert IdsCiting(before, event) + [] == IdsCiting(before, event);
    }
  }

  method BuildIndex(memories: seq<MemoryRecord>) returns (citing: map<Uuid, seq<Uuid>>)
    requires Listed(memories)
    ensures Indexes(citing, memories)
  {
    citing := map[];
    var i := 0;
    while i < |memories|
      invariant 0 <= i <= |memories|
      invariant Indexes(citing, memories[..i])
    {
      assert memories[i] in memories;
      hide Indexes;
      citing := IndexMemory(citing, memories[i], memories[..i]);
      assert memories[..i + 1] == memories[..i] + [memories[i]];
      i := i + 1;
    }
    assert memories[..|memories|] == memories;
  }

  method BuildById(memories: seq<MemoryRecord>) returns (byId: map<Uuid, MemoryRecord>)
    requires Listed(memories)
    ensures forall k :: 0 <= k < |memories| ==> memories[k].id in byId && byId[memories[k].id] == memories[k]
  {
    byId := map[];
    var i := 0;
    while i < |memories|
      invariant 0 <= i <= |memories|
      invariant forall k :: 0 <= k < i ==> memories[k].id in byId && byId[memories[k].id] == memories[k]
    {
      byId := byId[memories[i].id := memories[i]];
      i := i + 1;
    }
  }

  // ----- The search -----

  datatype Search = Search(seen: set<(Uuid, Uuid)>, candidates: seq<RevisionCandidate>)

  /** A pair of positions, the earlier first. */
  type Pair = (nat, nat)

  ghost predicate IsPair(memories: seq<MemoryRecord>, p: Pair) {
    p.0 < p.1 < |memories|
  }

  ghost function Left(memories: seq<MemoryRecord>, p: Pair): MemoryRecord
    requires IsPair(memories, p)
  {
    memories[p.0]
  }

  ghost function Right(memories: seq<MemoryRecord>, p: Pair): MemoryRecord
    requires IsPair(memories, p)
  {
    memories[p.1]
  }

  function Ids(left: MemoryRecord, right: MemoryRecord): (Uuid, Uuid) {
    (Older(left, right).id, Newer(left, right).id)
  }

  /** A candidate names the pair in one of the two directions. */
  predicate Names(c: RevisionCandidate, a: Uuid, b: Uuid) {
    {c.olderId, c.newerId} == {a, b}
  }

  lemma PairIsDetermined(memories: seq<MemoryRecord>, p: Pair, q: Pair)
    requires Listed(memories) && IsPair(memories, p) && IsPair(memories, q)
    requires Ids(Left(memories, p), Right(memories, p)) == Ids(Left(memories, q), Right(memories, q))
    ensures p == q
  {
  }

  ghost predicate SeenIs(memories: seq<MemoryRecord>, seen: set<(Uuid, Uuid)>, done: set<Pair>) {
    && (forall p :: p in done ==> IsPair(memories, p) && Ids(Left(memories, p), Right(memories, p)) in seen)
    && (forall ids :: ids in seen ==> exists p :: p in done && IsPair(memories, p) && Ids(Left(memories, p), Right(memories, p)) == ids)
  }

  /** A candidate is the report on a pair that was reached. */
  ghost predicate ReportsOn(memories: seq<MemoryRecord>, minGap: real, c: RevisionCandidate, p: Pair) {
    && IsPair(memories, p)
    && Qualifies(Left(memories, p), Right(memories, p), minGap)
    && c == PairCandidate(Left(memories, p), Right(memories, p))
  }

  ghost predicate FromDone(memories: seq<MemoryRecord>, minGap: real, c: RevisionCandidate, done: set<Pair>) {
    exists p :: p in done && ReportsOn(memories, minGap, c, p)
  }

  ghost predicate Reported(memories: seq<MemoryRecord>, minGap: real, candidates: seq<RevisionCandidate>, p: Pair) {
    IsPair(memories, p) && Qualifies(Left(memories, p), Right(memories, p), minGap) ==>
      PairCandidate(Left(memories, p), Right(memories, p)) in candidates
  }

  ghost predicate OncePerPair(candidates: seq<RevisionCandidate>) {
    forall i, j :: 0 <= i < j < |candidates| ==> !Names(candidates[i], candidates[j].olderId, candidates[j].newerId)
  }

  ghost predicate CandidatesAre(memories: seq<MemoryRecord>, minGap: real, candidates: seq<RevisionCandidate>, done: set<Pair>) {
    && (forall c :: c in candidates ==> FromDone(memories, minGap, c, done))
    && (forall p :: p in done ==> Reported(memories, minGap, candidates, p))
    && OncePerPair(candidates)
  }

  ghost predicate Consistent(memories: seq<MemoryRecord>, minGap: real, s: Search, done: set<Pair>) {
    SeenIs(memories, s.seen, done) && CandidatesAre(memories, minGap, s.candidates, done)
  }

  /** Look at one pair: report it the first time it comes up, if it qualifies. */
  function Consider(s: Search, left: MemoryRecord, right: MemoryRecord, minGap: real): Search {
    var ids := Ids(left, right);
    if ids.0 == ids.1 || ids in s.seen then s
    else if Qualifies(left, right, minGap) then Search(s.seen + {ids}, s.candidates + [PairCandidate(left, right)])
    else s.(seen := s.seen + {ids})
  }

  lemma AlreadySeen(memories: seq<MemoryRecord>, seen: set<(Uuid, Uuid)>, done: set<Pair>, p: Pair)
    requires Listed(memories) && SeenIs(memories, seen, done) && IsPair(memories, p)
    ensures Ids(Left(memories, p), Right(memories, p)) in seen <==> p in done
  {
    var ids := Ids(Left(memories, p), Right(memories, p));
    if ids in seen {
      var q :| q in done && IsPair(memories, q) && Ids(Left(memories, q), Right(memories, q)) == ids;
      PairIsDetermined(memories, p, q);
    }
  }

  lemma SeenOneMore(memories: seq<MemoryRecord>, seen: set<(Uuid, Uuid)>, done: set<Pair>, p: Pair)
    requires SeenIs(memories, seen, done) && IsPair(memories, p)
    ensures SeenIs(memories, seen + {Ids(Left(memories, p), Right(memories, p))}, done + {p})
  {
    hide Ids;
    var ids := Ids(Left(memories, p), Right(memories, p));
    forall x | x in seen + {ids}
      ensures exists q :: q in done + {p} && IsPair(memories, q) && Ids(Left(memories, q), Right(memories, q)) == x
    {
      if x in seen {
        var q :| q in done && IsPair(memories, q) && Ids(Left(memories, q), Right(memories, q)) == x;
        assert q in done + {p};
      } else {
        assert p in done + {p};
      }
    }
  }

  lemma CandidateNamesItsPair(left: MemoryRecord, right: MemoryRecord)
    ensures Names(PairCandidate(left, right), left.id, right.id)
  {
  }

  lemma NamesOtherPair(memories: seq<MemoryRecord>, minGap: real, c: RevisionCandidate, done: set<Pair>, p: Pair)
    requires Listed(memories) && FromDone(memories, minGap, c, done) && IsPair(memories, p) && p !in done
    ensures var d := PairCandidate(Left(memories, p), Right(memories, p)); !Names(c, d.olderId, d.newerId)
  {
    var q :| q in done && ReportsOn(memories, minGap, c, q);
    CandidateNamesItsPair(Left(memories, p), Right(memories, p));
    CandidateNamesItsPair(Left(memories, q), Right(memories, q));
    hide PairCandidate, Qualifies;
    var d := PairCandidate(Left(memories, p), Right(memories, p));
    if Names(c, d.olderId, d.newerId) {
      assert {memories[p.0].id, memories[p.1].id} == {memories[q.0].id, memories[q.1].id};
      SamePositions(memories, p, q);
    }
  }

  lemma SamePositions(memories: seq<MemoryRecord>, p: Pair, q: Pair)
    requires Listed(memories) && IsPair(memories, p) && IsPair(memories, q)
    requires {memories[p.0].id, memories[p.1].id} == {memories[q.0].id, memories[q.1].id}
    ensures p == q
  {
    assert memories[p.0].id in {memories[q.0].id, memories[q.1].id};
    assert memories[p.1].id in {memories[q.0].id, memories[q.1].id};
    assert memories[q.0].id in {memories[p.0].id, memories[p.1].id};
  }

  lemma CandidatesKept(memories: seq<MemoryRecord>, minGap: real, candidates: seq<RevisionCandidate>, done: set<Pair>, p: Pair)
    requires CandidatesAre(memories, minGap, candidates, done) && IsPair(memories, p)
    requires !Qualifies(Left(memories, p), Right(memories, p), minGap)
    ensures CandidatesAre(memories, minGap, candidates, done + {p})
  {
    hide Qualifies, PairCandidate, OncePerPair;
    forall c | c in candidates ensures FromDone(memories, minGap, c, done + {p}) {
      FromMore(memories, minGap, c, done, p);
    }
  }

  lemma FromMore(memories: seq<MemoryRecord>, minGap: real, c: RevisionCandidate, done: set<Pair>, p: Pair)
    requires FromDone(memories, minGap, c, done)
    ensures FromDone(memories, minGap, c, done + {p})
  {
    hide ReportsOn;
    var q :| q in done && ReportsOn(memories, minGap, c, q);
    assert q in done + {p};
  }

  lemma CandidateAdded(memories: seq<MemoryRecord>, minGap: real, candidates: seq<RevisionCandidate>, done: set<Pair>, p: Pair)
    requires Listed(memories) && CandidatesAre(memories, minGap, candidates, done) && IsPair(memories, p) && p !in done
    requires Qualifies(Left(memories, p), Right(memories, p), minGap)
    ensures CandidatesAre(memories, minGap, candidates + [PairCandidate(Left(memories, p), Right(memories, p))], done + {p})
  {
    hide Qualifies, PairCandidate, Names, Listed;
    var d := PairCandidate(Left(memories, p), Right(memories, p));
    var more := candidates + [d];
    assert ReportsOn(memories, minGap, d, p) && p in done + {p};
    forall c | c in more ensures FromDone(memories, minGap, c, done + {p}) {
      if c in candidates {
        FromMore(memories, minGap, c, done, p);
      }
    }
    forall q | q in done + {p} ensures Reported(memories, minGap, more, q) {
      assert q in done ==> Reported(memories, minGap, candidates, q);
    }
    forall i, j | 0 <= i < j < |more| ensures !Names(more[i], more[j].olderId, more[j].newerId) {
      if j == |candidates| {
        assert candidates[i] in candidates;
        NamesOtherPair(memories, minGap, candidates[i], done, p);
      }
    }
  }

  lemma ConsiderKeepsConsistent(memories: seq<MemoryRecord>, minGap: real, s: Search, done: set<Pair>, p: Pair)
    requires Listed(memories) && Consistent(memories, minGap, s, done) && IsPair(memories, p)
    ensures Consistent(memories, minGap, Consider(s, Left(memories, p), Right(memories, p), minGap), done + {p})
  {
    AlreadySeen(memories, s.seen, done, p);
    IdsDiffer(memories, p);
    hide Listed, Qualifies, PairCandidate, SeenIs, CandidatesAre, Ids;
    if p in done {
      assert done + {p} == done;
    } else {
      SeenOneMore(memories, s.seen, done, p);
      if Qualifies(Left(memories, p), Right(memories, p), minGap) {
        CandidateAdded(memories, minGap, s.candidates, done, p);
      } else {
        CandidatesKept(memories, minGap, s.candidates, done, p);
      }
    }
  }

  lemma IdsDiffer(memories: seq<MemoryRecord>, p: Pair)
    requires Listed(memories) && IsPair(memories, p)
    ensures Ids(Left(memories, p), Right(memories, p)).0 != Ids(Left(memories, p), Right(memories, p)).1
  {
  }

  // ----- Reaching every pair -----

  /** Which pairs of positions in a list of sharers have been looked at, row by row. */
  ghost predicate Reached(positions: seq<nat>, done: set<Pair>, x: nat, y: nat)
    requires x < y < |positions|
  {
    (positions[x], positions[y]) in done
  }

  ghost predicate RowsReached(positions: seq<nat>, done: set<Pair>, rows: nat) {
    forall x, y :: 0 <= x < rows && x < y < |positions| ==> Reached(positions, done, x, y)
  }

  ghost predicate ColumnsReached(positions: seq<nat>, done: set<Pair>, row: nat, upTo: nat) {
    forall y :: row < y < upTo && y < |positions| ==> Reached(positions, done, row, y)
  }

  ghost predicate OnlySharers(memories: seq<MemoryRecord>, done: set<Pair>) {
    forall p :: p in done ==> IsPair(memories, p) && Shares(Left(memories, p), Right(memories, p))
  }

  /** The sharers of one event: ids in the index, positions in the listing. */
  ghost predicate SharersAt(memories: seq<MemoryRecord>, event: Uuid, sharers: seq<Uuid>, positions: seq<nat>) {
    && |sharers| == |positions| && Increasing(positions)
    && forall i :: 0 <= i < |positions| ==>
         positions[i] < |memories| && memories[positions[i]].id == sharers[i] && event in memories[positions[i]].evidenceIds
  }

  ghost predicate FindsById(byId: map<Uuid, MemoryRecord>, memories: seq<MemoryRecord>) {
    forall k :: 0 <= k < |memories| ==> memories[k].id in byId && byId[memories[k].id] == memories[k]
  }

  /** The inner loop: one sharer against each later one. */
  method ScanRow(memories: seq<MemoryRecord>, byId: map<Uuid, MemoryRecord>, minGap: real, event: Uuid, sharers: seq<Uuid>,
                 a: nat, s: Search, ghost positions: seq<nat>, ghost done: set<Pair>)
    returns (r: Search, ghost more: set<Pair>)
    requires Listed(memories) && FindsById(byId, memories) && SharersAt(memories, event, sharers, positions)
    requires Consistent(memories, minGap, s, done) && OnlySharers(memories, done) && a < |sharers|
    ensures Consistent(memories, minGap, r, more) && OnlySharers(memories, more) && done <= more
    ensures ColumnsReached(positions, more, a, |sharers|)
  {
    r, more := s, done;
    var b := a + 1;
    hide Consistent, Listed, OnlySharers, FindsById, SharersAt;
    while b < |sharers|
      invariant a + 1 <= b <= |sharers|
      invariant Consistent(memories, minGap, r, more) && OnlySharers(memories, more) && done <= more
      invariant ColumnsReached(positions, more, a, b)
    {
      SharersShare(memories, event, sharers, positions, a, b);
      ghost var before, p := more, (positions[a], positions[b]);
      r, more := ScanPair(memories, byId, minGap, sharers[a], sharers[b], r, p, more);
      ColumnsGrow(positions, before, more, a, b);
      b := b + 1;
    }
  }

  lemma ColumnsGrow(positions: seq<nat>, done: set<Pair>, more: set<Pair>, a: nat, b: nat)
    requires ColumnsReached(positions, done, a, b) && done <= more && a < b < |positions|
    requires (positions[a], positions[b]) in more
    ensures ColumnsReached(positions, more, a, b + 1)
  {
    forall y | a < y < b + 1 && y < |positions| ensures Reached(positions, more, a, y) {
      if y < b {
        assert Reached(positions, done, a, y);
      }
    }
  }

  method ScanPair(memories: seq<MemoryRecord>, byId: map<Uuid, MemoryRecord>, minGap: real, leftId: Uuid, rightId: Uuid, s: Search,
                  ghost p: Pair, ghost done: set<Pair>)
    returns (r: Search, ghost more: set<Pair>)
    requires Listed(memories) && FindsById(byId, memories) && Consistent(memories, minGap, s, done) && OnlySharers(memories, done)
    requires IsPair(memories, p) && Shares(Left(memories, p), Right(memories, p))
    requires leftId == Left(memories, p).id && rightId == Right(memories, p).id
    ensures Consistent(memories, minGap, r, more) && OnlySharers(memories, more) && more == done + {p}
  {
    hide Consistent, Listed, Shares, Consider;
    ConsiderKeepsConsistent(memories, minGap, s, done, p);
    r := Consider(s, byId[leftId], byId[rightId], minGap);
    more := done + {p};
  }

  lemma SharersShare(memories: seq<MemoryRecord>, event: Uuid, sharers: seq<Uuid>, positions: seq<nat>, a: nat, b: nat)
    requires SharersAt(memories, event, sharers, positions) && a < b < |sharers|
    ensures IsPair(memories, (positions[a], positions[b]))
    ensures Shares(memories[positions[a]], memories[positions[b]])
    ensures memories[positions[a]].id == sharers[a] && memories[positions[b]].id == sharers[b]
    ensures |sharers| == |positions|
  {
  }

  lemma RowsGrow(positions: seq<nat>, done: set<Pair>, more: set<Pair>, rows: nat)
    requires RowsReached(positions, done, rows) && done <= more && ColumnsReached(positions, more, rows, |positions|)
    ensures RowsReached(positions, more, rows + 1)
  {
    forall x, y | 0 <= x < rows + 1 && x < y < |positions| ensures Reached(positions, more, x, y) {
      if x < rows {
        assert Reached(positions, done, x, y);
      } else {
        assert Reached(positions, more, rows, y);
      }
    }
  }

  method ScanSharers(memories: seq<MemoryRecord>, byId: map<Uuid, MemoryRecord>, minGap: real, event: Uuid, sharers: seq<Uuid>,
                     s: Search, ghost positions: seq<nat>, ghost done: set<Pair>)
    returns (r: Search, ghost more: set<Pair>)
    requires Listed(memories) && FindsById(byId, memories) && SharersAt(memories, event, sharers, positions)
    requires Consistent(memories, minGap, s, done) && OnlySharers(memories, done)
    ensures Consistent(memories, minGap, r, more) && OnlySharers(memories, more) && done <= more
    ensures RowsReached(positions, more, |positions|)
  {
    r, more := s, done;
    var a := 0;
    while a < |sharers|
      invariant 0 <= a <= |sharers|
      invariant Consistent(memories, minGap, r, more) && OnlySharers(memories, more) && done <= more
      invariant RowsReached(positions, more, a)
    {
      hide Consistent, Listed, OnlySharers, RowsReached, ColumnsReached, FindsById;
      ghost var before := more;
      r, more := ScanRow(memories, byId, minGap, event, sharers, a, r, positions, more);
      RowsGrow(positions, before, more, a);
      a := a + 1;
    }
  }

  /** Every pair that shares one of these events has been reached. */
  ghost predicate EventReached(memories: seq<MemoryRecord>, done: set<Pair>, event: Uuid) {
    forall p: Pair :: IsPair(memories, p) && event in Left(memories, p).evidenceIds && event in Right(memories, p).evidenceIds ==> p in done
  }

  lemma SharersOf(memories: seq<MemoryRecord>, citing: map<Uuid, seq<Uuid>>, event: Uuid)
    requires Indexes(citing, memories) && event in citing
    ensures SharersAt(memories, event, citing[event], Citers(memories, event))
  {
    CitersAre(memories, event);
    CitersInRange(memories, event);
    assert EntryIs(citing, event, IdsCiting(memories, event));
  }

  lemma AllRowsReachTheEvent(memories: seq<MemoryRecord>, done: set<Pair>, event: Uuid)
    requires RowsReached(Citers(memories, event), done, |Citers(memories, event)|)
    ensures EventReached(memories, done, event)
  {
    CitersAre(memories, event);
    var positions := Citers(memories, event);
    forall p: Pair | IsPair(memories, p) && event in Left(memories, p).evidenceIds && event in Right(memories, p).evidenceIds
      ensures p in done
    {
      assert p.0 in positions && p.1 in positions;
      var x :| 0 <= x < |positions| && positions[x] == p.0;
      var y :| 0 <= y < |positions| && positions[y] == p.1;
      assert x < y;
      assert Reached(positions, done, x, y);
    }
  }

  lemma EventStaysReached(memories: seq<MemoryRecord>, done: set<Pair>, more: set<Pair>, event: Uuid)
    requires EventReached(memories, done, event) && done <= more
    ensures EventReached(memories, more, event)
  {
  }

  lemma UncitedIsReached(memories: seq<MemoryRecord>, citing: map<Uuid, seq<Uuid>>, done: set<Pair>, event: Uuid)
    requires Indexes(citing, memories) && event !in citing
    ensures EventReached(memories, done, event)
  {
    CitersAre(memories, event);
    assert EntryIs(citing, event, IdsCiting(memories, event));
    assert Citers(memories, event) == [];
  }

  ghost predicate AllReachedBut(memories: seq<MemoryRecord>, done: set<Pair>, left: set<Uuid>) {
    forall event :: event in left || EventReached(memories, done, event)
  }

  lemma NothingSearchedYet(memories: seq<MemoryRecord>, minGap: real)
    ensures Consistent(memories, minGap, Search({}, []), {}) && OnlySharers(memories, {})
  {
  }

  /** The outer loop visits the events in whatever order the map yields them. */
  method SearchIndex(memories: seq<MemoryRecord>, byId: map<Uuid, MemoryRecord>, citing: map<Uuid, seq<Uuid>>, minGap: real)
    returns (s: Search, ghost done: set<Pair>)
    requires Listed(memories) && FindsById(byId, memories) && Indexes(citing, memories)
    ensures Consistent(memories, minGap, s, done) && OnlySharers(memories, done) && AllReachedBut(memories, done, {})
  {
    s, done := Search({}, []), {};
    var left := citing.Keys;
    NothingSearchedYet(memories, minGap);
    forall event ensures event in left || EventReached(memories, done, event) {
      if event !in citing {
        UncitedIsReached(memories, citing, done, event);
      }
    }
    hide Consistent, Listed, OnlySharers, FindsById, Indexes, EventReached, RowsReached, SharersAt;
    while left != {}
      invariant left <= citing.Keys
      invariant Consistent(memories, minGap, s, done) && OnlySharers(memories, done) && AllReachedBut(memories, done, left)
      decreases |left|
    {
      var event :| event in left;
      ghost var before := done;
      SharersOf(memories, citing, event);
      s, done := ScanSharers(memories, byId, minGap, event, citing[event], s, Citers(memories, event), done);
      AllRowsReachTheEvent(memories, done, event);
      forall e ensures e in left - {event} || EventReached(memories, done, e) {
        if e !in left {
          EventStaysReached(memories, before, done, e);
        }
      }
      left := left - {event};
    }
  }

  lemma WorthFirstIsTotal()
    ensures TotalPreorder(WorthFirst)
  {
  }

  lemma SortingKeepsCandidates(memories: seq<MemoryRecord>, minGap: real, candidates: seq<RevisionCandidate>, done: set<Pair>)
    requires CandidatesAre(memories, minGap, candidates, done)
    ensures CandidatesAre(memories, minGap, Sort(candidates, WorthFirst), done)
  {
    var sorted := Sort(candidates, WorthFirst);
    SortKeepsMembers(candidates, WorthFirst);
    hide Sort, FromDone, Qualifies, PairCandidate;
    SortingKeepsOnce(candidates, sorted);
  }

  lemma {:induction false} OnceMeansOne(candidates: seq<RevisionCandidate>, c: RevisionCandidate)
    requires OncePerPair(candidates)
    ensures multiset(candidates)[c] <= 1
  {
    if candidates != [] {
      var front, last := candidates[..|candidates| - 1], candidates[|candidates| - 1];
      assert candidates == front + [last];
      OnceMeansOne(front, c);
      assert last !in front by {
        forall i | 0 <= i < |front| ensures front[i] != last {
          assert !Names(candidates[i], last.olderId, last.newerId);
        }
      }
    }
  }

  lemma SortingKeepsOnce(candidates: seq<RevisionCandidate>, sorted: seq<RevisionCandidate>)
    requires OncePerPair(candidates) && multiset(sorted) == multiset(candidates)
    ensures OncePerPair(sorted)
  {
    forall i, j | 0 <= i < j < |sorted| ensures !Names(sorted[i], sorted[j].olderId, sorted[j].newerId) {
      OnceMeansOne(candidates, sorted[i]);
      if sorted[i] == sorted[j] {
        TwiceMeansTwo(sorted, i, j);
      } else {
        assert sorted[i] in multiset(sorted) && sorted[j] in multiset(sorted);
        var x :| 0 <= x < |candidates| && candidates[x] == sorted[i];
        var y :| 0 <= y < |candidates| && candidates[y] == sorted[j];
        assert x < y || y < x;
      }
    }
  }

  /** A candidate stands for two listed claims that share an event and qualify. */
  ghost predicate IsWarranted(memories: seq<MemoryRecord>, minGap: real, c: RevisionCandidate) {
    exists i, j :: 0 <= i < j < |memories| && Shares(memories[i], memories[j])
                   && Qualifies(memories[i], memories[j], minGap) && c == PairCandidate(memories[i], memories[j])
  }

  /**
   What the report holds, with no word about the index: every pair of listed claims that shares an
   event, whose newer side cites at least two events the older never saw, and whose gap reaches the
   minimum, once, oriented by date and then by listing order, and nothing else; the pairs most worth
   a look come first.
   */
  ghost predicate IsTheReport(memories: seq<MemoryRecord>, minGap: real, candidates: seq<RevisionCandidate>) {
    && (forall i, j :: 0 <= i < j < |memories| && Shares(memories[i], memories[j]) && Qualifies(memories[i], memories[j], minGap) ==>
          PairCandidate(memories[i], memories[j]) in candidates)
    && (forall c :: c in candidates ==> IsWarranted(memories, minGap, c))
    && OncePerPair(candidates)
    && Sorted(candidates, WorthFirst)
  }

  lemma SearchIsTheReport(memories: seq<MemoryRecord>, minGap: real, candidates: seq<RevisionCandidate>, done: set<Pair>)
    requires CandidatesAre(memories, minGap, candidates, done) && Sorted(candidates, WorthFirst)
    requires OnlySharers(memories, done) && AllReachedBut(memories, done, {})
    ensures IsTheReport(memories, minGap, candidates)
  {
    hide Qualifies, PairCandidate, WorthFirst, OncePerPair;
    forall i, j | 0 <= i < j < |memories| && Shares(memories[i], memories[j]) && Qualifies(memories[i], memories[j], minGap)
      ensures PairCandidate(memories[i], memories[j]) in candidates
    {
      var e :| e in memories[i].evidenceIds && e in memories[j].evidenceIds;
      assert EventReached(memories, done, e);
      var p: Pair := (i, j);
      assert IsPair(memories, p) && Left(memories, p) == memories[i] && Right(memories, p) == memories[j];
      assert p in done;
      assert Reported(memories, minGap, candidates, p);
    }
    forall c | c in candidates ensures IsWarranted(memories, minGap, c) {
      assert FromDone(memories, minGap, c, done);
      var p :| p in done && ReportsOn(memories, minGap, c, p);
      assert Left(memories, p) == memories[p.0] && Right(memories, p) == memories[p.1];
    }
  }

  // ----- What the report says, field by field -----

  function NotCitedBy(m: MemoryRecord): Uuid -> bool {
    event => forall k :: 0 <= k < |m.evidenceIds| ==> m.evidenceIds[k] != event
  }

  /** A candidate about two claims: which is the older, what only the newer saw, in its order, and how many days lie between. */
  ghost predicate IsAbout(c: RevisionCandidate, older: MemoryRecord, newer: MemoryRecord) {
    && c.olderId == older.id && c.newerId == newer.id
    && c.unseen == Filter(newer.evidenceIds, NotCitedBy(older))
    && c.gapDays == (newer.validFrom - older.validFrom) as real / 86_400_000_000_000.0
  }

  /** Two listed claims that cite a common event, the first of them not dated after the second. */
  ghost predicate AreLinked(memories: seq<MemoryRecord>, older: MemoryRecord, newer: MemoryRecord) {
    exists i, j :: 0 <= i < j < |memories| && Shares(memories[i], memories[j])
                   && (if memories[i].validFrom <= memories[j].validFrom then older == memories[i] && newer == memories[j]
                       else older == memories[j] && newer == memories[i])
  }

  /** A candidate about some two linked claims. */
  ghost predicate IsAboutLinked(memories: seq<MemoryRecord>, c: RevisionCandidate) {
    exists older, newer :: AreLinked(memories, older, newer) && IsAbout(c, older, newer)
  }

  lemma CandidateIsAbout(left: MemoryRecord, right: MemoryRecord, minGap: real)
    ensures var (older, newer) := if left.validFrom <= right.validFrom then (left, right) else (right, left);
            && IsAbout(PairCandidate(left, right), older, newer)
            && (Qualifies(left, right, minGap) <==>
                  |PairCandidate(left, right).unseen| >= 2 && PairCandidate(left, right).gapDays >= minGap)
  {
    var (older, newer) := if left.validFrom <= right.validFrom then (left, right) else (right, left);
    FilterDependsOnMembers(newer.evidenceIds, NotIn(older.evidenceIds), NotCitedBy(older));
    hide Filter;
  }

  /**
   The report in words: each candidate is about two linked claims, the newer of which saw at least two
   events the older did not, at least so many days later; every such pair has its candidate; no pair
   has two; and they come by the number of unseen events, then by the gap, the greatest first.
   */
  lemma ReportSays(memories: seq<MemoryRecord>, minGap: real, candidates: seq<RevisionCandidate>)
    requires IsTheReport(memories, minGap, candidates)
    ensures forall c :: c in candidates ==> |c.unseen| >= 2 && c.gapDays >= minGap && IsAboutLinked(memories, c)
    ensures forall older, newer, c :: AreLinked(memories, older, newer) && IsAbout(c, older, newer) && |c.unseen| >= 2 && c.gapDays >= minGap ==>
              c in candidates
    ensures forall p, q :: 0 <= p < q < |candidates| ==>
              var a, b := candidates[p], candidates[q];
              && !(a.olderId == b.olderId && a.newerId == b.newerId)
              && (|a.unseen| > |b.unseen| || (|a.unseen| == |b.unseen| && a.gapDays >= b.gapDays))
  {
    hide *;
    ReportIsWarranted(memories, minGap, candidates);
    forall c | c in candidates ensures |c.unseen| >= 2 && c.gapDays >= minGap && IsAboutLinked(memories, c) {
      WarrantedIsAbout(memories, minGap, c);
    }
    forall older, newer, c | AreLinked(memories, older, newer) && IsAbout(c, older, newer) && |c.unseen| >= 2 && c.gapDays >= minGap
      ensures c in candidates
    {
      LinkedIsReported(memories, minGap, candidates, older, newer, c);
    }
    ReportedInOrder(memories, minGap, candidates);
  }

  lemma WarrantedIsAbout(memories: seq<MemoryRecord>, minGap: real, c: RevisionCandidate)
    requires IsWarranted(memories, minGap, c)
    ensures |c.unseen| >= 2 && c.gapDays >= minGap && IsAboutLinked(memories, c)
  {
    hide Qualifies, PairCandidate, Shares, IsAbout, AreLinked;
    var i, j :| 0 <= i < j < |memories| && Shares(memories[i], memories[j])
                && Qualifies(memories[i], memories[j], minGap) && c == PairCandidate(memories[i], memories[j]);
    CandidateIsAbout(memories[i], memories[j], minGap);
    var (older, newer) := if memories[i].validFrom <= memories[j].validFrom then (memories[i], memories[j]) else (memories[j], memories[i]);
    LinkedPair(memories, i, j);
    assert AreLinked(memories, older, newer) && IsAbout(c, older, newer);
  }

  lemma LinkedPair(memories: seq<MemoryRecord>, i: nat, j: nat)
    requires i < j < |memories| && Shares(memories[i], memories[j])
    ensures var (older, newer) := if memories[i].validFrom <= memories[j].validFrom then (memories[i], memories[j]) else (memories[j], memories[i]);
            AreLinked(memories, older, newer)
  {
    hide Shares;
  }

  lemma ReportIsWarranted(memories: seq<MemoryRecord>, minGap: real, candidates: seq<RevisionCandidate>)
    requires IsTheReport(memories, minGap, candidates)
    ensures forall c :: c in candidates ==> IsWarranted(memories, minGap, c)
  {
    hide IsWarranted;
  }

  lemma LinkedIsReported(memories: seq<MemoryRecord>, minGap: real, candidates: seq<RevisionCandidate>, older: MemoryRecord,
                         newer: MemoryRecord, c: RevisionCandidate)
    requires IsTheReport(memories, minGap, candidates)
    requires AreLinked(memories, older, newer) && IsAbout(c, older, newer) && |c.unseen| >= 2 && c.gapDays >= minGap
    ensures c in candidates
  {
    hide Qualifies, PairCandidate, Shares, IsAbout;
    var i, j :| 0 <= i < j < |memories| && Shares(memories[i], memories[j])
                && (if memories[i].validFrom <= memories[j].validFrom then older == memories[i] && newer == memories[j]
                    else older == memories[j] && newer == memories[i]);
    CandidateIsAbout(memories[i], memories[j], minGap);
    AboutIsUnique(c, PairCandidate(memories[i], memories[j]), older, newer);
  }

  lemma ReportedInOrder(memories: seq<MemoryRecord>, minGap: real, candidates: seq<RevisionCandidate>)
    requires IsTheReport(memories, minGap, candidates)
    ensures forall p, q :: 0 <= p < q < |candidates| ==>
              var a, b := candidates[p], candidates[q];
              && !(a.olderId == b.olderId && a.newerId == b.newerId)
              && (|a.unseen| > |b.unseen| || (|a.unseen| == |b.unseen| && a.gapDays >= b.gapDays))
  {
    hide IsWarranted, Qualifies, PairCandidate, Shares;
    NamedOnce(candidates);
    forall p, q | 0 <= p < q < |candidates|
      ensures var a, b := candidates[p], candidates[q];
              |a.unseen| > |b.unseen| || (|a.unseen| == |b.unseen| && a.gapDays >= b.gapDays)
    {
      assert WorthFirst(candidates[p], candidates[q]);
    }
  }

  lemma AboutIsUnique(c: RevisionCandidate, d: RevisionCandidate, older: MemoryRecord, newer: MemoryRecord)
    requires IsAbout(c, older, newer) && IsAbout(d, older, newer)
    ensures c == d
  {
  }

  lemma NamedOnce(candidates: seq<RevisionCandidate>)
    requires OncePerPair(candidates)
    ensures forall p, q :: 0 <= p < q < |candidates| ==>
              !(candidates[p].olderId == candidates[q].olderId && candidates[p].newerId == candidates[q].newerId)
  {
    forall p, q | 0 <= p < q < |candidates|
      ensures !(candidates[p].olderId == candidates[q].olderId && candidates[p].newerId == candidates[q].newerId)
    {
      assert !Names(candidates[p], candidates[q].olderId, candidates[q].newerId);
    }
  }

  /** The events that some listed claim cites. */
  ghost function CitedEvents(memories: seq<MemoryRecord>): set<Uuid> {
    set m, e | m in memories && e in m.evidenceIds :: e
  }

  lemma IndexHoldsTheCited(memories: seq<MemoryRecord>, citing: map<Uuid, seq<Uuid>>)
    requires Indexes(citing, memories)
    ensures citing.Keys == CitedEvents(memories)
  {
    hide Citers;
    forall event ensures event in citing <==> event in CitedEvents(memories) {
      assert EntryIs(citing, event, IdsCiting(memories, event));
      CitersAre(memories, event);
      if event in CitedEvents(memories) {
        var m :| m in memories && event in m.evidenceIds;
        var k :| 0 <= k < |memories| && memories[k] == m;
        assert k in Citers(memories, event);
      }
      if Citers(memories, event) != [] {
        var k := Citers(memories, event)[0];
        assert k in Citers(memories, event);
        assert memories[k] in memories;
      }
    }
  }

  /** The whole search, and the number of events that are cited. */
  method ProposeRevisions(memories: seq<MemoryRecord>, minGapDays: Option<real>)
    returns (candidates: seq<RevisionCandidate>, examined: nat)
    requires Listed(memories)
    ensures IsTheReport(memories, if minGapDays.Some? then minGapDays.value else 1.0, candidates)
    ensures examined == |CitedEvents(memories)|
  {
    var minGap := if minGapDays.Some? then minGapDays.value else DEFAULT_MIN_GAP_DAYS;
    var byId := BuildById(memories);
    var citing := BuildIndex(memories);
    assert FindsById(byId, memories);
    IndexHoldsTheCited(memories, citing);
    hide Listed, FindsById, Indexes;
    var s, done := SearchIndex(memories, byId, citing, minGap);
    assert CandidatesAre(memories, minGap, s.candidates, done);
    hide Consistent, CandidatesAre, WorthFirst, OnlySharers, AllReachedBut, IsTheReport;
    WorthFirstIsTotal();
    SortSorts(s.candidates, WorthFirst);
    SortingKeepsCandidates(memories, minGap, s.candidates, done);
    candidates := Sort(s.candidates, WorthFirst);
    SearchIsTheReport(memories, minGap, candidates, done);
    examined := |citing.Keys|;
  }
}
