/**
 Folding contradictions: for each conflict a fixed list of rules proposes which side to keep, and
 applying the proposals appends a revision of the kept side and a retirement of every other.
 */
module Reconcile {
  import opened Common
  import opened Sequences
  import opened Memory
  import opened Supersession
  import opened MemoryLedger
  import Laws = SupersessionLaws
  import Resolver

  datatype ResolutionRule = ByAuthority | ByRecency | ByEvidence

  datatype Proposal = Proposal(subject: string, keep: Option<Uuid>, supersede: seq<Uuid>, rule: Option<ResolutionRule>)

  const NANOS := 1_000_000_000

  /** What a rule compares. Dates are whole seconds, rounded down. */
  function Score(rule: ResolutionRule, record: MemoryRecord): int {
    match rule
    case ByAuthority => Rank(record)
    case ByRecency => record.validFrom / NANOS
    case ByEvidence => |record.evidenceIds|
  }

  function Best(rule: ResolutionRule, records: seq<MemoryRecord>): int
    requires records != []
    decreases |records|
  {
    if |records| == 1 then Score(rule, records[0])
    else Max(Best(rule, records[..|records| - 1]), Score(rule, records[|records| - 1]))
  }

  function ScoreIs(rule: ResolutionRule, score: int): MemoryRecord -> bool {
    r => Score(rule, r) == score
  }

  /** The records level at the top of one rule. */
  function TopBy(rule: ResolutionRule, records: seq<MemoryRecord>): seq<MemoryRecord>
    requires records != []
  {
    Filter(records, ScoreIs(rule, Best(rule, records)))
  }

  const RULES: seq<ResolutionRule> := [ByAuthority, ByRecency, ByEvidence]

  /** The first rule that puts one record alone at the top, and that record. */
  function Decide(rules: seq<ResolutionRule>, records: seq<MemoryRecord>): Option<(ResolutionRule, MemoryRecord)>
    requires records != []
  {
    if rules == [] then None
    else if |TopBy(rules[0], records)| == 1 then Some((rules[0], TopBy(rules[0], records)[0]))
    else Decide(rules[1..], records)
  }

  function OtherIds(keep: Uuid, records: seq<MemoryRecord>): seq<Uuid> {
    if records == [] then []
    else OtherIds(keep, records[..|records| - 1])
         + if records[|records| - 1].id != keep then [records[|records| - 1].id] else []
  }

  function ProposeFor(subject: string, records: seq<MemoryRecord>): Proposal {
    if |records| < 2 then Proposal(subject, None, [], None)
    else
      var decision := Decide(RULES, records);
      if decision.None? then Proposal(subject, None, [], None)
      else
        var (rule, keep) := decision.value;
        Proposal(subject, Some(keep.id), OtherIds(keep.id, records), Some(rule))
  }

  // ----- When a rule decides -----

  /** One record scores strictly higher than every other by a rule. */
  predicate StandsOut(rule: ResolutionRule, records: seq<MemoryRecord>, i: nat) {
    i < |records| && forall j :: 0 <= j < |records| && j != i ==> Score(rule, records[j]) < Score(rule, records[i])
  }

  ghost predicate Settled(rule: ResolutionRule, records: seq<MemoryRecord>) {
    exists i: nat :: StandsOut(rule, records, i)
  }

  lemma {:induction false} BestIsTheMaximum(rule: ResolutionRule, records: seq<MemoryRecord>)
    requires records != []
    ensures forall j :: 0 <= j < |records| ==> Score(rule, records[j]) <= Best(rule, records)
    ensures exists j :: 0 <= j < |records| && Score(rule, records[j]) == Best(rule, records)
    decreases |records|
  {
    hide Score;
    if |records| == 1 {
      assert Score(rule, records[0]) == Best(rule, records);
    } else {
      var front, n := records[..|records| - 1], |records| - 1;
      BestIsTheMaximum(rule, front);
      var j :| 0 <= j < |front| && Score(rule, front[j]) == Best(rule, front);
      assert records[j] == front[j];
      assert forall k :: 0 <= k < |front| ==> front[k] == records[k];
      assert Best(rule, records) == Score(rule, records[j]) || Best(rule, records) == Score(rule, records[n]);
    }
  }

  /** Position `i` holds the only record that satisfies a condition. */
  predicate OnlyMatch(records: seq<MemoryRecord>, p: MemoryRecord -> bool, i: nat) {
    i < |records| && p(records[i]) && forall j :: 0 <= j < |records| && j != i ==> !p(records[j])
  }

  lemma {:induction false} MatchIsUnique(records: seq<MemoryRecord>, p: MemoryRecord -> bool) returns (i: nat)
    requires |Filter(records, p)| == 1
    ensures OnlyMatch(records, p, i)
  {
    var front, last := records[..|records| - 1], records[|records| - 1];
    assert records == front + [last];
    if p(last) {
      i := |records| - 1;
      NothingMatches(front, p);
      assert forall j :: 0 <= j < |front| ==> records[j] == front[j];
    } else {
      i := MatchIsUnique(front, p);
      assert forall j :: 0 <= j < |front| ==> records[j] == front[j];
    }
  }

  lemma NothingMatches(records: seq<MemoryRecord>, p: MemoryRecord -> bool)
    requires |Filter(records, p)| == 0
    ensures forall j :: 0 <= j < |records| ==> !p(records[j])
  {
    assert forall x :: x in records && p(x) ==> x in Filter(records, p);
  }

  lemma TopIsTheOutstanding(rule: ResolutionRule, records: seq<MemoryRecord>, i: nat)
    requires StandsOut(rule, records, i)
    ensures TopBy(rule, records) == [records[i]]
  {
    BestIsTheMaximum(rule, records);
    hide Score, Best, Filter;
    Laws.FilterFindsOne(records, i, ScoreIs(rule, Best(rule, records)));
  }

  lemma AloneAtTheTop(rule: ResolutionRule, records: seq<MemoryRecord>)
    requires records != [] && |TopBy(rule, records)| == 1
    ensures Settled(rule, records)
  {
    BestIsTheMaximum(rule, records);
    hide Score, Best, Filter;
    var i := MatchIsUnique(records, ScoreIs(rule, Best(rule, records)));
    forall j | 0 <= j < |records| && j != i ensures Score(rule, records[j]) < Score(rule, records[i]) {
      assert !ScoreIs(rule, Best(rule, records))(records[j]);
    }
    assert StandsOut(rule, records, i);
  }

  lemma TopIsOneIff(rule: ResolutionRule, records: seq<MemoryRecord>)
    requires records != []
    ensures |TopBy(rule, records)| == 1 <==> Settled(rule, records)
  {
    if |TopBy(rule, records)| == 1 {
      AloneAtTheTop(rule, records);
    }
    hide TopBy, StandsOut;
    if i: nat :| StandsOut(rule, records, i) {
      TopIsTheOutstanding(rule, records, i);
    }
  }

  lemma DecideUnfolds(records: seq<MemoryRecord>)
    requires records != []
    ensures Decide(RULES, records) ==
            if |TopBy(ByAuthority, records)| == 1 then Some((ByAuthority, TopBy(ByAuthority, records)[0]))
            else if |TopBy(ByRecency, records)| == 1 then Some((ByRecency, TopBy(ByRecency, records)[0]))
            else if |TopBy(ByEvidence, records)| == 1 then Some((ByEvidence, TopBy(ByEvidence, records)[0]))
            else None
  {
    hide TopBy;
    var rest := RULES[1..];
    assert rest == [ByRecency, ByEvidence] && rest[1..] == [ByEvidence] && rest[1..][1..] == [];
    assert Decide(rest[1..][1..], records) == None;
    assert Decide(rest[1..], records) == if |TopBy(ByEvidence, records)| == 1 then Some((ByEvidence, TopBy(ByEvidence, records)[0])) else None;
    assert Decide(rest, records)
        == if |TopBy(ByRecency, records)| == 1 then Some((ByRecency, TopBy(ByRecency, records)[0])) else Decide(rest[1..], records);
  }

  function Before(rule: ResolutionRule): seq<ResolutionRule> {
    match rule
    case ByAuthority => []
    case ByRecency => [ByAuthority]
    case ByEvidence => [ByAuthority, ByRecency]
  }

  /** A record that stands out by a rule is kept, by that rule, unless an earlier rule settles the matter. */
  lemma ProposalMeaning(subject: string, records: seq<MemoryRecord>, rule: ResolutionRule, i: nat)
    requires |records| >= 2 && StandsOut(rule, records, i)
    requires forall earlier :: earlier in Before(rule) ==> !Settled(earlier, records)
    ensures ProposeFor(subject, records)
         == Proposal(subject, Some(records[i].id), OtherIds(records[i].id, records), Some(rule))
  {
    DecideUnfolds(records);
    TopIsTheOutstanding(rule, records, i);
    hide TopBy, StandsOut;
    TopIsOneIff(ByAuthority, records);
    TopIsOneIff(ByRecency, records);
  }

  /** What each rule compares: the authority, the date in whole seconds rounded down, and how many events are cited. */
  lemma RulesCompare(records: seq<MemoryRecord>, i: nat)
    requires i < |records|
    ensures StandsOut(ByAuthority, records, i) <==>
              forall j :: 0 <= j < |records| && j != i ==> Rank(records[j]) < Rank(records[i])
    ensures StandsOut(ByRecency, records, i) <==>
              forall j :: 0 <= j < |records| && j != i ==> records[j].validFrom / 1_000_000_000 < records[i].validFrom / 1_000_000_000
    ensures StandsOut(ByEvidence, records, i) <==>
              forall j :: 0 <= j < |records| && j != i ==> |records[j].evidenceIds| < |records[i].evidenceIds|
  {
  }

  lemma {:induction false} OthersAreAll(keep: Uuid, records: seq<MemoryRecord>)
    requires forall r :: r in records ==> r.id != keep
    ensures |OtherIds(keep, records)| == |records|
    ensures forall j :: 0 <= j < |records| ==> OtherIds(keep, records)[j] == records[j].id
  {
    if records != [] {
      var front := records[..|records| - 1];
      assert records == front + [records[|records| - 1]];
      OthersAreAll(keep, front);
    }
  }

  /** The other sides of a proposal are all but the kept one, in the order of the conflict. */
  lemma {:induction false} OthersInOrder(records: seq<MemoryRecord>, i: nat)
    requires i < |records| && forall j, k :: 0 <= j < k < |records| ==> records[j].id != records[k].id
    ensures var others := OtherIds(records[i].id, records);
            |others| == |records| - 1 && forall j :: 0 <= j < |others| ==> others[j] == records[if j < i then j else j + 1].id
  {
    var n := |records| - 1;
    var front := records[..n];
    assert records == front + [records[n]];
    if i == n {
      OthersAreAll(records[i].id, front);
    } else {
      OthersInOrder(front, i);
    }
  }

  /** No side is kept exactly when no rule makes any of them stand out. */
  lemma UndecidedIff(subject: string, records: seq<MemoryRecord>)
    requires |records| >= 2
    ensures ProposeFor(subject, records).keep.None? <==>
              !Settled(ByAuthority, records) && !Settled(ByRecency, records) && !Settled(ByEvidence, records)
  {
    DecideUnfolds(records);
    TopIsOneIff(ByAuthority, records);
    TopIsOneIff(ByRecency, records);
    TopIsOneIff(ByEvidence, records);
    hide TopBy, StandsOut, Settled;
  }

  lemma LevelRecordsSettleNothing(rule: ResolutionRule, records: seq<MemoryRecord>)
    requires |records| >= 2 && forall a, b :: a in records && b in records ==> Score(rule, a) == Score(rule, b)
    ensures !Settled(rule, records)
  {
    hide Score;
    forall i: nat ensures !StandsOut(rule, records, i) {
      if i < |records| {
        var k := if i == 0 then 1 else 0;
        assert records[k] in records && records[i] in records;
      }
    }
  }

  /**
   The authority rule never decides a contradiction the resolver reports: its sides were level on
   authority, or there would have been a winner.
   */
  lemma AuthorityNeverDecides(project: Uuid, asOf: int, memories: seq<MemoryRecord>, c: MemoryConflict)
    requires c in Resolve(project, asOf, memories).conflicts
    ensures ProposeFor(c.subject, c.records).rule != Some(ByAuthority)
  {
    hide Resolve, TopBy, Settled;
    Laws.ConflictSidesAreLevel(project, asOf, memories, c);
    LevelRecordsSettleNothing(ByAuthority, c.records);
    TopIsOneIff(ByAuthority, c.records);
    DecideUnfolds(c.records);
  }

  /** Later by the lexicographic order of authority, date and evidence. */
  predicate Outweighs(a: MemoryRecord, b: MemoryRecord) {
    if Score(ByAuthority, a) != Score(ByAuthority, b) then Score(ByAuthority, a) > Score(ByAuthority, b)
    else if Score(ByRecency, a) != Score(ByRecency, b) then Score(ByRecency, a) > Score(ByRecency, b)
    else Score(ByEvidence, a) > Score(ByEvidence, b)
  }

  lemma PairSettledIff(rule: ResolutionRule, a: MemoryRecord, b: MemoryRecord)
    ensures StandsOut(rule, [a, b], 0) <==> Score(rule, a) > Score(rule, b)
    ensures StandsOut(rule, [a, b], 1) <==> Score(rule, b) > Score(rule, a)
    ensures Settled(rule, [a, b]) <==> Score(rule, a) != Score(rule, b)
  {
    hide Score;
    var records := [a, b];
    assert records[0] == a && records[1] == b;
    assert StandsOut(rule, records, 0) <==> Score(rule, a) > Score(rule, b);
    assert StandsOut(rule, records, 1) <==> Score(rule, b) > Score(rule, a);
    assert forall i: nat :: StandsOut(rule, records, i) ==> i == 0 || i == 1;
  }

  /** Between two sides the rules are the lexicographic order: the side that outweighs the other is kept. */
  lemma TwoSidesAreLexicographic(subject: string, a: MemoryRecord, b: MemoryRecord)
    ensures Outweighs(a, b) ==> ProposeFor(subject, [a, b]).keep == Some(a.id)
    ensures Outweighs(b, a) ==> ProposeFor(subject, [a, b]).keep == Some(b.id)
    ensures ProposeFor(subject, [a, b]).keep.None? <==> !Outweighs(a, b) && !Outweighs(b, a)
  {
    hide ProposeFor, Score, StandsOut, Settled;
    PairSettledIff(ByAuthority, a, b);
    PairSettledIff(ByRecency, a, b);
    PairSettledIff(ByEvidence, a, b);
    if Outweighs(a, b) || Outweighs(b, a) {
      var i := if Outweighs(a, b) then 0 else 1;
      var rule := if Score(ByAuthority, a) != Score(ByAuthority, b) then ByAuthority
                  else if Score(ByRecency, a) != Score(ByRecency, b) then ByRecency else ByEvidence;
      ProposalMeaning(subject, [a, b], rule, i);
    } else {
      UndecidedIff(subject, [a, b]);
    }
  }

  lemma LevelAtTheTop(rule: ResolutionRule, a: MemoryRecord, left: MemoryRecord, right: MemoryRecord)
    requires Score(rule, a) <= Score(rule, left) == Score(rule, right)
    ensures !Settled(rule, [a, left, right])
  {
    hide Score;
    var records := [a, left, right];
    assert records[0] == a && records[1] == left && records[2] == right;
    forall i: nat ensures !StandsOut(rule, records, i) {
      if i < 3 {
        var k := if i == 1 then 2 else 1;
        assert k != i && !(Score(rule, records[k]) < Score(rule, records[i]));
      }
    }
  }

  /**
   With three sides they are not. Two newer claims level on date leave the date rule silent, and the
   evidence rule, which scores every side again, then keeps the oldest.
   */
  lemma EvidenceMayKeepTheOldest(subject: string, oldest: MemoryRecord, left: MemoryRecord, right: MemoryRecord)
    requires Rank(oldest) == Rank(left) == Rank(right)
    requires Score(ByRecency, oldest) < Score(ByRecency, left) == Score(ByRecency, right)
    requires |oldest.evidenceIds| > |left.evidenceIds| && |oldest.evidenceIds| > |right.evidenceIds|
    ensures ProposeFor(subject, [oldest, left, right]).keep == Some(oldest.id)
    ensures Outweighs(left, oldest) && Outweighs(right, oldest)
  {
    var records := [oldest, left, right];
    assert records[0] == oldest && records[1] == left && records[2] == right;
    assert StandsOut(ByEvidence, records, 0);
    LevelAtTheTop(ByAuthority, oldest, left, right);
    LevelAtTheTop(ByRecency, oldest, left, right);
    hide StandsOut, Settled;
    ProposalMeaning(subject, records, ByEvidence, 0);
  }

  // ----- Any number of sides -----

  ghost predicate LevelOnAuthority(records: seq<MemoryRecord>) {
    forall a, b :: a in records && b in records ==> Score(ByAuthority, a) == Score(ByAuthority, b)
  }

  predicate DifferentIds(records: seq<MemoryRecord>) {
    forall i, j :: 0 <= i < j < |records| ==> records[i].id != records[j].id
  }

  /** A side that outweighs every other in the lexicographic order. */
  predicate OutweighsAll(records: seq<MemoryRecord>, i: nat) {
    i < |records| && forall j :: 0 <= j < |records| && j != i ==> Outweighs(records[i], records[j])
  }

  predicate IsNewest(records: seq<MemoryRecord>, i: nat) {
    i < |records| && forall j :: 0 <= j < |records| ==> Score(ByRecency, records[j]) <= Score(ByRecency, records[i])
  }

  /** Among the newest sides, one cites more than every other. */
  predicate HeaviestOfNewest(records: seq<MemoryRecord>, i: nat) {
    IsNewest(records, i)
    && forall j :: 0 <= j < |records| && j != i && IsNewest(records, j) ==> Score(ByEvidence, records[j]) < Score(ByEvidence, records[i])
  }

  lemma OutweighsAllIff(records: seq<MemoryRecord>, i: nat)
    requires LevelOnAuthority(records) && i < |records|
    ensures OutweighsAll(records, i) <==> HeaviestOfNewest(records, i)
  {
    forall j | 0 <= j < |records| ensures Score(ByAuthority, records[j]) == Score(ByAuthority, records[i]) {
      assert records[j] in records && records[i] in records;
    }
    hide Score;
    if OutweighsAll(records, i) {
      assert forall j :: 0 <= j < |records| && j != i ==> Outweighs(records[i], records[j]);
      forall j | 0 <= j < |records| && j != i && IsNewest(records, j)
        ensures Score(ByEvidence, records[j]) < Score(ByEvidence, records[i])
      {
        assert Outweighs(records[i], records[j]);
      }
    }
    if HeaviestOfNewest(records, i) {
      forall j | 0 <= j < |records| && j != i ensures Outweighs(records[i], records[j]) {
        if Score(ByRecency, records[j]) == Score(ByRecency, records[i]) {
          assert IsNewest(records, j);
        }
      }
    }
  }

  /** What the rules keep, when the sides are level on authority: the newest, or else the one that cites most of all. */
  ghost predicate KeepsSide(records: seq<MemoryRecord>, i: nat) {
    StandsOut(ByRecency, records, i) || (!Settled(ByRecency, records) && StandsOut(ByEvidence, records, i))
  }

  lemma KeepsSideMeans(subject: string, records: seq<MemoryRecord>, i: nat)
    requires |records| >= 2 && LevelOnAuthority(records) && DifferentIds(records) && i < |records|
    ensures ProposeFor(subject, records).keep == Some(records[i].id) <==> KeepsSide(records, i)
  {
    LevelRecordsSettleNothing(ByAuthority, records);
    hide ProposeFor, StandsOut, Score;
    if k: nat :| StandsOut(ByRecency, records, k) {
      ProposalMeaning(subject, records, ByRecency, k);
      OnlyOneStandsOut(ByRecency, records, k, i);
    } else if k: nat :| StandsOut(ByEvidence, records, k) {
      ProposalMeaning(subject, records, ByEvidence, k);
      OnlyOneStandsOut(ByEvidence, records, k, i);
    } else {
      UndecidedIff(subject, records);
    }
  }

  lemma OnlyOneStandsOut(rule: ResolutionRule, records: seq<MemoryRecord>, k: nat, i: nat)
    requires StandsOut(rule, records, k) && i < |records| && DifferentIds(records)
    ensures k < |records|
    ensures StandsOut(rule, records, i) <==> i == k
    ensures records[i].id == records[k].id <==> i == k
  {
    hide Score;
    if i != k {
      assert Score(rule, records[i]) < Score(rule, records[k]);
    }
  }

  /**
   One side is alone the newest; or the side that cites most of all, if there is one, is among the
   newest, and there is one whenever one of the newest cites most among them.
   */
  ghost predicate RulesFollowTheOrder(records: seq<MemoryRecord>) {
    || Settled(ByRecency, records)
    || ((forall i: nat :: StandsOut(ByEvidence, records, i) ==> IsNewest(records, i))
        && ((exists i: nat :: HeaviestOfNewest(records, i)) ==> Settled(ByEvidence, records)))
  }

  lemma KeepsTheHeaviestIff(records: seq<MemoryRecord>)
    ensures (forall i: nat :: KeepsSide(records, i) <==> HeaviestOfNewest(records, i)) <==> RulesFollowTheOrder(records)
  {
    hide Score;
    if s: nat :| StandsOut(ByRecency, records, s) {
      NewestAlone(records, s);
    } else if RulesFollowTheOrder(records) {
      forall i: nat ensures KeepsSide(records, i) <==> HeaviestOfNewest(records, i) {
        if HeaviestOfNewest(records, i) {
          var k: nat :| StandsOut(ByEvidence, records, k);
          assert IsNewest(records, k);
        }
      }
    } else if forall i: nat :: KeepsSide(records, i) <==> HeaviestOfNewest(records, i) {
      assert forall i: nat :: StandsOut(ByEvidence, records, i) ==> KeepsSide(records, i);
      assert forall i: nat :: HeaviestOfNewest(records, i) ==> KeepsSide(records, i);
    }
  }

  lemma NewestAlone(records: seq<MemoryRecord>, s: nat)
    requires StandsOut(ByRecency, records, s)
    ensures forall i: nat :: StandsOut(ByRecency, records, i) <==> i == s
    ensures forall i: nat :: HeaviestOfNewest(records, i) <==> i == s
  {
    hide Score;
    forall i: nat | i < |records| && i != s ensures !IsNewest(records, i) && !StandsOut(ByRecency, records, i) {
      assert Score(ByRecency, records[i]) < Score(ByRecency, records[s]);
    }
    forall j | 0 <= j < |records| ensures Score(ByRecency, records[j]) <= Score(ByRecency, records[s]) {
    }
  }

  /**
   When the rules are the lexicographic order, for any number of sides level on authority, as the
   resolver's are: they keep exactly the side that outweighs every other, exactly when one side is
   alone the newest, or else the side that cites most of all is one of the newest and stands out
   whenever one of the newest does among themselves.
   */
  lemma RulesAreLexicographicIff(subject: string, records: seq<MemoryRecord>)
    requires |records| >= 2 && LevelOnAuthority(records) && DifferentIds(records)
    ensures (forall i: nat :: i < |records| ==> (ProposeFor(subject, records).keep == Some(records[i].id) <==> OutweighsAll(records, i)))
            <==> RulesFollowTheOrder(records)
  {
    hide *;
    KeepsTheHeaviestIff(records);
    forall i: nat | i >= |records| ensures !KeepsSide(records, i) && !HeaviestOfNewest(records, i) {
      NothingBeyondTheEnd(records, i);
    }
    forall i: nat | i < |records|
      ensures (ProposeFor(subject, records).keep == Some(records[i].id) <==> KeepsSide(records, i))
              && (OutweighsAll(records, i) <==> HeaviestOfNewest(records, i))
    {
      KeepsSideMeans(subject, records, i);
      OutweighsAllIff(records, i);
    }
  }

  lemma NothingBeyondTheEnd(records: seq<MemoryRecord>, i: nat)
    requires i >= |records|
    ensures !KeepsSide(records, i) && !HeaviestOfNewest(records, i)
  {
  }

  // ----- Applying -----

  datatype ApplyReport = ApplyReport(folded: nat, superseded: nat, leftForYou: nat)

  /** What the memories with these ids are now; withdrawn and unknown ones are passed over. */
  function CurrentOnes(l: Ledger, ids: seq<Uuid>): seq<MemoryRecord> {
    if ids == [] then []
    else
      var found := CurrentMemory(l, ids[|ids| - 1]);
      CurrentOnes(l, ids[..|ids| - 1]) + if found.Some? then [found.value] else []
  }

  function VersionsOf(records: seq<MemoryRecord>): seq<Uuid> {
    seq(|records|, i requires 0 <= i < |records| => records[i].versionId)
  }

  function Revised(keeper: MemoryRecord, losers: seq<MemoryRecord>, version: Uuid, now: int): MemoryRecord {
    keeper.(versionId := version, recordedAt := now, supersedes := VersionsOf(losers), status := Current)
  }

  function Retired(loser: MemoryRecord, version: Uuid, now: int): MemoryRecord {
    loser.(versionId := version, recordedAt := now, supersedes := [], status := Superseded)
  }

  /** Append a retirement of each record in turn, stopping at the first failure. */
  function Retire(l: Ledger, losers: seq<MemoryRecord>, now: int): (Ledger, Result<(), AppendError>) {
    if losers == [] then (l, Ok(()))
    else
      var (before, result) := Retire(l, losers[..|losers| - 1], now);
      if result.Err? then (before, result)
      else Append(before, Retired(losers[|losers| - 1], FreshId(before.versions), now))
  }

  /** Append the revision of the keeper, then the retirements. */
  function Fold(l: Ledger, keeper: MemoryRecord, losers: seq<MemoryRecord>, now: int): (Ledger, Result<(), AppendError>) {
    var (revised, result) := Append(l, Revised(keeper, losers, FreshId(l.versions), now));
    if result.Err? then (revised, result) else Retire(revised, losers, now)
  }

  function ApplyOne(l: Ledger, report: ApplyReport, p: Proposal, now: int): (Ledger, Result<ApplyReport, AppendError>) {
    if p.keep.None? then (l, Ok(report.(leftForYou := report.leftForYou + 1)))
    else
      var keeper := CurrentMemory(l, p.keep.value);
      var losers := CurrentOnes(l, p.supersede);
      if keeper.None? || losers == [] then (l, Ok(report))
      else
        var (l1, result) := Fold(l, keeper.value, losers, now);
        if result.Err? then (l1, Err(result.error))
        else (l1, Ok(report.(folded := report.folded + 1, superseded := report.superseded + |losers|)))
  }

  function ApplyAll(l: Ledger, proposals: seq<Proposal>, now: int): (Ledger, Result<ApplyReport, AppendError>) {
    if proposals == [] then (l, Ok(ApplyReport(0, 0, 0)))
    else
      var (before, result) := ApplyAll(l, proposals[..|proposals| - 1], now);
      if result.Err? then (before, result)
      else ApplyOne(before, result.value, proposals[|proposals| - 1], now)
  }

  function Proposals(conflicts: seq<MemoryConflict>): seq<Proposal> {
    seq(|conflicts|, i requires 0 <= i < |conflicts| => ProposeFor(conflicts[i].subject, conflicts[i].records))
  }

  function ConflictsAt(l: Ledger, asOf: int): seq<MemoryConflict> {
    Resolve(l.project, asOf, LiveMemories(l)).conflicts
  }

  /** One `apply`: propose at an instant, then fold everything that was decided. */
  function Apply(l: Ledger, asOf: int, now: int): (Ledger, Result<ApplyReport, AppendError>) {
    ApplyAll(l, Proposals(ConflictsAt(l, asOf)), now)
  }

  lemma {:induction false} FailureSticks(l: Ledger, proposals: seq<Proposal>, i: nat, now: int)
    requires i <= |proposals| && ApplyAll(l, proposals[..i], now).1.Err?
    ensures ApplyAll(l, proposals, now) == ApplyAll(l, proposals[..i], now)
  {
    hide ApplyOne;
    if i == |proposals| {
      assert proposals[..i] == proposals;
    } else {
      var front := proposals[..|proposals| - 1];
      assert front[..i] == proposals[..i];
      FailureSticks(l, front, i, now);
    }
  }

  lemma {:induction false} RetireFailureSticks(l: Ledger, losers: seq<MemoryRecord>, i: nat, now: int)
    requires i <= |losers| && Retire(l, losers[..i], now).1.Err?
    ensures Retire(l, losers, now) == Retire(l, losers[..i], now)
  {
    hide Append, Retired;
    if i == |losers| {
      assert losers[..i] == losers;
    } else {
      var front := losers[..|losers| - 1];
      assert front[..i] == losers[..i];
      RetireFailureSticks(l, front, i, now);
    }
  }

  // ----- The commands themselves -----

  method Propose(ledger: EventLedger, asOf: int) returns (proposals: seq<Proposal>, undecidable: nat)
    ensures proposals == Proposals(ConflictsAt(ledger.State(), asOf))
    ensures undecidable == |Filter(proposals, Undecided)|
  {
    hide Resolve, LiveMemories;
    var memories := LiveMemories(ledger.State());
    var resolved := Resolver.ResolveCandidates(ledger.project, asOf, memories);
    proposals, undecidable := ProposeEach(resolved.conflicts);
  }

  lemma ProposalsOfOneMore(conflicts: seq<MemoryConflict>, i: nat)
    requires i < |conflicts|
    ensures Proposals(conflicts[..i + 1]) == Proposals(conflicts[..i]) + [ProposeFor(conflicts[i].subject, conflicts[i].records)]
  {
    hide ProposeFor;
  }

  method ProposeEach(conflicts: seq<MemoryConflict>) returns (proposals: seq<Proposal>, undecidable: nat)
    ensures proposals == Proposals(conflicts)
    ensures undecidable == |Filter(proposals, Undecided)|
  {
    hide ProposeFor;
    proposals, undecidable := [], 0;
    var i := 0;
    while i < |conflicts|
      invariant 0 <= i <= |conflicts|
      invariant proposals == Proposals(conflicts[..i])
      invariant undecidable == |Filter(proposals, Undecided)|
    {
      var proposal := ProposeFor(conflicts[i].subject, conflicts[i].records);
      FilterOfOneMore(proposals, proposal, Undecided);
      hide Filter;
      ProposalsOfOneMore(conflicts, i);
      hide Proposals;
      if proposal.keep.None? {
        undecidable := undecidable + 1;
      }
      proposals := proposals + [proposal];
      i := i + 1;
    }
    assert conflicts[..|conflicts|] == conflicts;
  }

  predicate Undecided(p: Proposal) {
    p.keep.None?
  }

  method LookUpAll(ledger: EventLedger, ids: seq<Uuid>) returns (found: seq<MemoryRecord>)
    ensures found == CurrentOnes(ledger.State(), ids)
  {
    hide CurrentMemory;
    found := [];
    var i := 0;
    while i < |ids|
      invariant 0 <= i <= |ids|
      invariant found == CurrentOnes(ledger.State(), ids[..i])
    {
      var record := CurrentMemory(ledger.State(), ids[i]);
      assert ids[..i + 1][..i] == ids[..i];
      if record.Some? {
        found := found + [record.value];
      }
      i := i + 1;
    }
    assert ids[..|ids|] == ids;
  }

  method RetireAll(ledger: EventLedger, losers: seq<MemoryRecord>, now: int) returns (result: Result<(), AppendError>)
    modifies ledger`versions
    ensures (ledger.State(), result) == Retire(old(ledger.State()), losers, now)
  {
    hide Append, Retired, FreshId;
    var i := 0;
    while i < |losers|
      invariant 0 <= i <= |losers|
      invariant (ledger.State(), Ok(())) == Retire(old(ledger.State()), losers[..i], now)
    {
      assert losers[..i + 1][..i] == losers[..i];
      result := ledger.AppendMemory(Retired(losers[i], FreshId(ledger.versions), now));
      assert result.Ok? ==> result.value == ();
      if result.Err? {
        RetireFailureSticks(old(ledger.State()), losers, i + 1, now);
        return;
      }
      i := i + 1;
    }
    assert losers[..|losers|] == losers;
    return Ok(());
  }

  method ApplyProposals(ledger: EventLedger, asOf: int, now: int) returns (result: Result<ApplyReport, AppendError>)
    modifies ledger`versions
    ensures (ledger.State(), result) == Apply(old(ledger.State()), asOf, now)
  {
    hide ConflictsAt, Proposals, CurrentOnes, CurrentMemory, Append, FreshId, Revised, Retire;
    ghost var was := ledger.State();
    var proposals, _ := Propose(ledger, asOf);
    var applied := ApplyReport(0, 0, 0);
    var i := 0;
    while i < |proposals|
      invariant 0 <= i <= |proposals|
      invariant (ledger.State(), Ok(applied)) == ApplyAll(was, proposals[..i], now)
    {
      assert proposals[..i + 1][..i] == proposals[..i];
      var outcome := ApplyProposal(ledger, applied, proposals[i], now);
      if outcome.Err? {
        FailureSticks(was, proposals, i + 1, now);
        return outcome;
      }
      applied := outcome.value;
      i := i + 1;
    }
    assert proposals[..|proposals|] == proposals;
    return Ok(applied);
  }

  method ApplyProposal(ledger: EventLedger, report: ApplyReport, p: Proposal, now: int)
    returns (result: Result<ApplyReport, AppendError>)
    modifies ledger`versions
    ensures (ledger.State(), result) == ApplyOne(old(ledger.State()), report, p, now)
  {
    hide CurrentOnes, CurrentMemory, Append, FreshId, Revised, Retire;
    if p.keep.None? {
      return Ok(report.(leftForYou := report.leftForYou + 1));
    }
    var keeper := CurrentMemory(ledger.State(), p.keep.value);
    if keeper.None? {
      return Ok(report);
    }
    var losers := LookUpAll(ledger, p.supersede);
    if losers == [] {
      return Ok(report);
    }
    var appended := ledger.AppendMemory(Revised(keeper.value, losers, FreshId(ledger.versions), now));
    if appended.Err? {
      return Err(appended.error);
    }
    var retired := RetireAll(ledger, losers, now);
    if retired.Err? {
      return Err(retired.error);
    }
    return Ok(report.(folded := report.folded + 1, superseded := report.superseded + |losers|));
  }
}
