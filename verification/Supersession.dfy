/**
 Resolving candidate memories: what is in scope and valid is grouped by subject, ranked, and each
 subject gets a winner or a conflict; everything else in scope is history.
 */
module Supersession {
  import opened Common
  import opened Text
  import opened Sequences
  import opened Memory

  datatype MemoryConflict = MemoryConflict(subject: string, records: seq<MemoryRecord>)

  datatype ResolvedMemorySet = ResolvedMemorySet(
    current: seq<MemoryRecord>,
    historical: seq<MemoryRecord>,
    conflicts: seq<MemoryConflict>)

  // ----- What is considered -----

  predicate InScope(project: Uuid, record: MemoryRecord) {
    record.scope == Project(project)
  }

  predicate ValidAt(asOf: int, record: MemoryRecord) {
    && record.validFrom <= asOf
    && (record.validTo.Some? ==> asOf < record.validTo.value)
    && IsReadable(record.status)
  }

  function IsInScope(project: Uuid): MemoryRecord -> bool {
    r => InScope(project, r)
  }

  function IsActive(project: Uuid, asOf: int): MemoryRecord -> bool {
    r => InScope(project, r) && ValidAt(asOf, r)
  }

  function IsExpired(project: Uuid, asOf: int): MemoryRecord -> bool {
    r => InScope(project, r) && !ValidAt(asOf, r)
  }

  function VersionIn(versions: set<Uuid>): MemoryRecord -> bool {
    (r: MemoryRecord) => r.versionId in versions
  }

  function VersionNotIn(versions: set<Uuid>): MemoryRecord -> bool {
    (r: MemoryRecord) => r.versionId !in versions
  }

  function SubjectIs(subject: string): MemoryRecord -> bool {
    r => SubjectKey(r) == subject
  }

  function Active(project: Uuid, asOf: int, candidates: seq<MemoryRecord>): seq<MemoryRecord> {
    Filter(candidates, IsActive(project, asOf))
  }

  function Expired(project: Uuid, asOf: int, candidates: seq<MemoryRecord>): seq<MemoryRecord> {
    Filter(candidates, IsExpired(project, asOf))
  }

  /** The versions that some active record supersedes. */
  function Edges(active: seq<MemoryRecord>): set<Uuid> {
    set r, v | r in active && v in r.supersedes :: v
  }

  function Standing(active: seq<MemoryRecord>): seq<MemoryRecord> {
    Filter(active, VersionNotIn(Edges(active)))
  }

  function Replaced(active: seq<MemoryRecord>): seq<MemoryRecord> {
    Filter(active, VersionIn(Edges(active)))
  }

  // ----- Groups in subject order -----

  /** Insert a subject into an ascending list, once. */
  function InsertSubject(subject: string, subjects: seq<string>): (r: seq<string>)
    ensures forall x :: x in r <==> x in subjects || x == subject
  {
    if subjects == [] then [subject]
    else if subject == subjects[0] then subjects
    else if StringLeq(subject, subjects[0]) then [subject] + subjects
    else
      assert subjects == [subjects[0]] + subjects[1..];
      [subjects[0]] + InsertSubject(subject, subjects[1..])
  }

  function Subjects(records: seq<MemoryRecord>): seq<string> {
    if records == [] then []
    else InsertSubject(SubjectKey(records[|records| - 1]), Subjects(records[..|records| - 1]))
  }

  lemma {:induction false} SubjectsAreKeys(records: seq<MemoryRecord>)
    ensures forall m :: m in records ==> SubjectKey(m) in Subjects(records)
    ensures forall x :: x in Subjects(records) ==> exists m :: m in records && SubjectKey(m) == x
  {
    hide SubjectKey;
    if records != [] {
      var front, last := records[..|records| - 1], records[|records| - 1];
      SubjectsAreKeys(front);
      assert records == front + [last];
      forall x | x in Subjects(records) ensures exists m :: m in records && SubjectKey(m) == x {
        if x in Subjects(front) {
          var m :| m in front && SubjectKey(m) == x;
          assert m in records;
        } else {
          assert last in records;
        }
      }
    }
  }

  predicate Ascending(subjects: seq<string>) {
    forall i, j :: 0 <= i < j < |subjects| ==> StringLess(subjects[i], subjects[j])
  }

  lemma {:induction false} InsertSubjectAscends(subject: string, subjects: seq<string>)
    requires Ascending(subjects)
    ensures Ascending(InsertSubject(subject, subjects))
  {
    if subjects != [] {
      StringLeqTotal(subject, subjects[0]);
      if subject != subjects[0] && StringLeq(subject, subjects[0]) {
        forall j | 0 < j < |subjects| ensures StringLess(subject, subjects[j]) {
          StringLeqTransitive(subject, subjects[0], subjects[j]);
          StringLeqTotal(subjects[0], subjects[j]);
        }
      } else if subject != subjects[0] {
        InsertSubjectAscends(subject, subjects[1..]);
        var r := InsertSubject(subject, subjects[1..]);
        forall j | 0 <= j < |r| ensures StringLess(subjects[0], r[j]) {
          assert r[j] in r;
          assert r[j] != subject ==> r[j] in subjects[1..];
        }
      }
    }
  }

  predicate NoRepeats(subjects: seq<string>) {
    forall i, j :: 0 <= i < j < |subjects| ==> subjects[i] != subjects[j]
  }

  lemma SubjectsOnce(records: seq<MemoryRecord>)
    ensures NoRepeats(Subjects(records))
  {
    SubjectsAscend(records);
  }

  lemma {:induction false} SubjectsAscend(records: seq<MemoryRecord>)
    ensures Ascending(Subjects(records))
  {
    if records != [] {
      SubjectsAscend(records[..|records| - 1]);
      InsertSubjectAscends(SubjectKey(records[|records| - 1]), Subjects(records[..|records| - 1]));
    }
  }

  lemma HasAMember(subjects: seq<string>)
    requires subjects != []
    ensures exists x :: x in subjects
  {
    assert subjects[0] in subjects;
  }

  /** An ascending list is determined by its members. */
  lemma {:induction false} AscendingIsUnique(a: seq<string>, b: seq<string>)
    requires Ascending(a) && Ascending(b) && (forall x :: x in a <==> x in b)
    ensures a == b
  {
    if a == [] {
      if b != [] {
        HasAMember(b);
      }
    } else {
      assert a[0] in b && b != [];
      var j :| 0 <= j < |b| && b[j] == a[0];
      assert b[0] in a;
      var i :| 0 <= i < |a| && a[i] == b[0];
      StringLeqTotal(a[0], b[0]);
      assert a[0] == b[0];
      assert a == [a[0]] + a[1..] && b == [b[0]] + b[1..];
      forall x | x in a[1..] ensures x in b[1..] {
        assert x in b && x != a[0];
      }
      forall x | x in b[1..] ensures x in a[1..] {
        assert x in a && x != b[0];
      }
      AscendingIsUnique(a[1..], b[1..]);
    }
  }

  /** Authority first, then recency of recording, then confidence, then the version itself. */
  predicate PriorityLeq(left: MemoryRecord, right: MemoryRecord) {
    if Rank(left) != Rank(right) then Rank(left) > Rank(right)
    else if left.recordedAt != right.recordedAt then left.recordedAt > right.recordedAt
    else if left.confidence != right.confidence then left.confidence > right.confidence
    else left.versionId >= right.versionId
  }

  predicate NewestFirst(left: MemoryRecord, right: MemoryRecord) {
    if left.recordedAt != right.recordedAt then left.recordedAt > right.recordedAt
    else left.versionId >= right.versionId
  }

  lemma OrdersAreTotal()
    ensures TotalPreorder(PriorityLeq) && TotalPreorder(NewestFirst)
  {
  }

  function Group(standing: seq<MemoryRecord>, subject: string): seq<MemoryRecord> {
    Sort(Filter(standing, SubjectIs(subject)), PriorityLeq)
  }

  /** How many records at the front share the first record's authority. */
  function TieCount(group: seq<MemoryRecord>, rank: nat): (n: nat)
    ensures n <= |group|
    ensures forall i :: 0 <= i < n ==> Rank(group[i]) == rank
    ensures n < |group| ==> Rank(group[n]) != rank
  {
    if group == [] || Rank(group[0]) != rank then 0 else 1 + TieCount(group[1..], rank)
  }

  function Contenders(group: seq<MemoryRecord>): seq<MemoryRecord> {
    if group == [] then [] else group[..TieCount(group, Rank(group[0]))]
  }

  function Outranked(group: seq<MemoryRecord>): seq<MemoryRecord> {
    if group == [] then [] else group[TieCount(group, Rank(group[0]))..]
  }

  /** Whether the contenders say different things. */
  predicate Contested(contenders: seq<MemoryRecord>) {
    exists i :: 0 <= i < |contenders| && NormalizeContent(contenders[i].content) != NormalizeContent(contenders[0].content)
  }

  // ----- Verdicts, subject by subject -----

  /** One entry of the ordered map the resolver builds: a subject and its records in priority order. */
  datatype SubjectGroup = SubjectGroup(subject: string, records: seq<MemoryRecord>)

  /** The group's winner, if its contenders agree. */
  function WinnerOf(group: seq<MemoryRecord>): seq<MemoryRecord> {
    var contenders := Contenders(group);
    if contenders == [] || Contested(contenders) then [] else [contenders[0]]
  }

  /** The group's conflict, if its contenders disagree. */
  function ConflictOf(group: SubjectGroup): seq<MemoryConflict> {
    if Contested(Contenders(group.records)) then [MemoryConflict(group.subject, Contenders(group.records))] else []
  }

  /** What neither wins nor is a side of a conflict. */
  function LeftoversOf(group: seq<MemoryRecord>): seq<MemoryRecord> {
    var contenders := Contenders(group);
    (if contenders == [] || Contested(contenders) then [] else contenders[1..]) + Outranked(group)
  }

  function Groups(standing: seq<MemoryRecord>, subjects: seq<string>): (groups: seq<SubjectGroup>)
    ensures |groups| == |subjects|
    ensures forall i :: 0 <= i < |subjects| ==> groups[i] == SubjectGroup(subjects[i], Group(standing, subjects[i]))
  {
    seq(|subjects|, i requires 0 <= i < |subjects| => SubjectGroup(subjects[i], Group(standing, subjects[i])))
  }

  function Winners(groups: seq<SubjectGroup>): seq<MemoryRecord> {
    if groups == [] then [] else Winners(groups[..|groups| - 1]) + WinnerOf(groups[|groups| - 1].records)
  }

  function Conflicts(groups: seq<SubjectGroup>): seq<MemoryConflict> {
    if groups == [] then [] else Conflicts(groups[..|groups| - 1]) + ConflictOf(groups[|groups| - 1])
  }

  function Leftovers(groups: seq<SubjectGroup>): seq<MemoryRecord> {
    if groups == [] then [] else Leftovers(groups[..|groups| - 1]) + LeftoversOf(groups[|groups| - 1].records)
  }

  /** The groups the verdicts are passed on. */
  function Agenda(project: Uuid, asOf: int, candidates: seq<MemoryRecord>): seq<SubjectGroup> {
    var standing := Standing(Active(project, asOf, candidates));
    Groups(standing, Subjects(standing))
  }

  /** The records that become history, before they are put in order. */
  function History(project: Uuid, asOf: int, candidates: seq<MemoryRecord>): seq<MemoryRecord> {
    var active := Active(project, asOf, candidates);
    Expired(project, asOf, candidates) + Replaced(active) + Leftovers(Agenda(project, asOf, candidates))
  }

  function Resolve(project: Uuid, asOf: int, candidates: seq<MemoryRecord>): ResolvedMemorySet {
    var agenda := Agenda(project, asOf, candidates);
    ResolvedMemorySet(Winners(agenda), Sort(History(project, asOf, candidates), NewestFirst), Conflicts(agenda))
  }

  // ----- Conservation -----

  function ConflictRecords(conflicts: seq<MemoryConflict>): seq<MemoryRecord> {
    if conflicts == [] then [] else ConflictRecords(conflicts[..|conflicts| - 1]) + conflicts[|conflicts| - 1].records
  }

  lemma {:induction false} ConflictRecordsOfConcat(a: seq<MemoryConflict>, b: seq<MemoryConflict>)
    requires |b| <= 1
    ensures ConflictRecords(a + b) == ConflictRecords(a) + ConflictRecords(b)
  {
    if b == [] {
      assert a + b == a;
    } else {
      assert (a + b)[..|a|] == a;
      assert b[..0] == [];
    }
  }

  lemma GroupCounts(standing: seq<MemoryRecord>, subject: string, x: MemoryRecord)
    ensures multiset(Group(standing, subject))[x] == if SubjectKey(x) == subject then multiset(standing)[x] else 0
  {
    FilterCounts(standing, SubjectIs(subject), x);
  }

  lemma GroupIsContendersThenOutranked(group: seq<MemoryRecord>)
    ensures group == Contenders(group) + Outranked(group)
  {
  }

  lemma ContestedGroup(group: SubjectGroup)
    requires Contested(Contenders(group.records))
    ensures WinnerOf(group.records) == [] && LeftoversOf(group.records) == Outranked(group.records)
    ensures ConflictOf(group) == [MemoryConflict(group.subject, Contenders(group.records))]
  {
    hide Contenders, Outranked, Contested;
    assert [] + Outranked(group.records) == Outranked(group.records);
  }

  lemma AgreedGroup(group: SubjectGroup)
    requires !Contested(Contenders(group.records))
    ensures WinnerOf(group.records) + LeftoversOf(group.records) == group.records && ConflictOf(group) == []
  {
    GroupIsContendersThenOutranked(group.records);
    hide Contenders, Outranked, Contested;
  }

  lemma GroupSplits(group: SubjectGroup, x: MemoryRecord)
    ensures multiset(WinnerOf(group.records))[x] + multiset(ConflictRecords(ConflictOf(group)))[x]
            + multiset(LeftoversOf(group.records))[x]
         == multiset(group.records)[x]
  {
    hide Contenders, Outranked, Contested, WinnerOf, LeftoversOf, ConflictOf, ConflictRecords;
    if Contested(Contenders(group.records)) {
      ContestedGroup(group);
      OneConflictRecords(MemoryConflict(group.subject, Contenders(group.records)));
      GroupIsContendersThenOutranked(group.records);
      MultisetOfConcat(Contenders(group.records), Outranked(group.records), x);
    } else {
      AgreedGroup(group);
      NoConflictRecords();
      MultisetOfConcat(WinnerOf(group.records), LeftoversOf(group.records), x);
    }
  }

  lemma MultisetOfConcat<T>(a: seq<T>, b: seq<T>, x: T)
    ensures multiset(a + b)[x] == multiset(a)[x] + multiset(b)[x]
  {
  }

  lemma NoConflictRecords()
    ensures ConflictRecords([]) == []
  {
  }

  lemma OneConflictRecords(c: MemoryConflict)
    ensures ConflictRecords([c]) == c.records
  {
    assert [c][..0] == [] && ConflictRecords([]) == [];
  }

  /** How often a record appears among the verdicts on some groups. */
  function VerdictCount(groups: seq<SubjectGroup>, x: MemoryRecord): nat {
    multiset(Winners(groups))[x] + multiset(ConflictRecords(Conflicts(groups)))[x] + multiset(Leftovers(groups))[x]
  }

  function GroupsCount(groups: seq<SubjectGroup>, x: MemoryRecord): nat {
    if groups == [] then 0 else GroupsCount(groups[..|groups| - 1], x) + multiset(groups[|groups| - 1].records)[x]
  }

  /** The verdicts on some groups hold exactly the groups' records. */
  lemma {:induction false} VerdictsHoldTheGroups(groups: seq<SubjectGroup>, x: MemoryRecord)
    ensures VerdictCount(groups, x) == GroupsCount(groups, x)
  {
    if groups == [] {
      assert ConflictRecords([]) == [];
    } else {
      var front, last := groups[..|groups| - 1], groups[|groups| - 1];
      VerdictsHoldTheGroups(front, x);
      GroupSplits(last, x);
      ConflictRecordsOfConcat(Conflicts(front), ConflictOf(last));
    }
  }

  lemma GroupsOfFront(standing: seq<MemoryRecord>, subjects: seq<string>)
    requires subjects != []
    ensures Groups(standing, subjects)[..|subjects| - 1] == Groups(standing, subjects[..|subjects| - 1])
  {
  }

  lemma GroupsCountUnfolds(standing: seq<MemoryRecord>, subjects: seq<string>, x: MemoryRecord)
    requires subjects != []
    ensures var subject := subjects[|subjects| - 1];
            GroupsCount(Groups(standing, subjects), x) ==
            GroupsCount(Groups(standing, subjects[..|subjects| - 1]), x)
            + if SubjectKey(x) == subject then multiset(standing)[x] else 0
  {
    GroupsOfFront(standing, subjects);
    GroupCounts(standing, subjects[|subjects| - 1], x);
  }

  /** The groups of distinct subjects hold each standing record of those subjects once. */
  lemma {:induction false} GroupsHoldStanding(standing: seq<MemoryRecord>, subjects: seq<string>, x: MemoryRecord)
    requires NoRepeats(subjects)
    ensures GroupsCount(Groups(standing, subjects), x) == if SubjectKey(x) in subjects then multiset(standing)[x] else 0
  {
    if subjects != [] {
      var front, subject := subjects[..|subjects| - 1], subjects[|subjects| - 1];
      GroupsHoldStanding(standing, front, x);
      GroupsCountUnfolds(standing, subjects, x);
      assert subjects == front + [subject];
    }
  }

  lemma ScopeSplits(project: Uuid, asOf: int, candidates: seq<MemoryRecord>, x: MemoryRecord)
    ensures var active := Active(project, asOf, candidates);
            multiset(Filter(candidates, IsInScope(project)))[x] ==
            multiset(Expired(project, asOf, candidates))[x] + multiset(Replaced(active))[x] + multiset(Standing(active))[x]
  {
    var active := Active(project, asOf, candidates);
    FilterCounts(candidates, IsInScope(project), x);
    FilterCounts(candidates, IsActive(project, asOf), x);
    FilterCounts(candidates, IsExpired(project, asOf), x);
    FilterCounts(active, VersionNotIn(Edges(active)), x);
    FilterCounts(active, VersionIn(Edges(active)), x);
  }

  /** Nothing in scope is lost or duplicated: it is current, historical, or one side of a conflict. */
  lemma ResolveConserves(project: Uuid, asOf: int, candidates: seq<MemoryRecord>)
    ensures var r := Resolve(project, asOf, candidates);
            multiset(Filter(candidates, IsInScope(project))) ==
            multiset(r.current) + multiset(r.historical) + multiset(ConflictRecords(r.conflicts))
  {
    hide Resolve, Filter, ConflictRecords;
    var r := Resolve(project, asOf, candidates);
    var scoped := Filter(candidates, IsInScope(project));
    forall x: MemoryRecord
      ensures multiset(scoped)[x] == (multiset(r.current) + multiset(r.historical) + multiset(ConflictRecords(r.conflicts)))[x]
    {
      ResolveConservesEach(project, asOf, candidates, x);
    }
  }

  lemma ResolveConservesEach(project: Uuid, asOf: int, candidates: seq<MemoryRecord>, x: MemoryRecord)
    ensures var r := Resolve(project, asOf, candidates);
            multiset(Filter(candidates, IsInScope(project)))[x] ==
            multiset(r.current)[x] + multiset(r.historical)[x] + multiset(ConflictRecords(r.conflicts))[x]
  {
    var standing := Standing(Active(project, asOf, candidates));
    ScopeSplits(project, asOf, candidates, x);
    SubjectsOnce(standing);
    SubjectsAreKeys(standing);
    hide Active, Standing, Subjects, Groups, Winners, Conflicts, Leftovers, SubjectKey, NoRepeats;
    GroupsHoldStanding(standing, Subjects(standing), x);
    VerdictsHoldTheGroups(Agenda(project, asOf, candidates), x);
    assert multiset(standing)[x] > 0 ==> x in standing;
  }

  // ----- Determinism -----

  /** Records with the same version are the same record. */
  ghost predicate VersionsIdentify(records: seq<MemoryRecord>) {
    forall x, y :: x in records && y in records && x.versionId == y.versionId ==> x == y
  }

  lemma SameMembers<T>(a: seq<T>, b: seq<T>)
    requires multiset(a) == multiset(b)
    ensures forall x :: x in a <==> x in b
  {
    assert forall x :: x in a <==> x in multiset(a);
    assert forall x :: x in b <==> x in multiset(b);
  }

  lemma FilterRearranges(a: seq<MemoryRecord>, b: seq<MemoryRecord>, p: MemoryRecord -> bool)
    requires multiset(a) == multiset(b)
    ensures multiset(Filter(a, p)) == multiset(Filter(b, p))
  {
    forall x: MemoryRecord ensures multiset(Filter(a, p))[x] == multiset(Filter(b, p))[x] {
      FilterCounts(a, p, x);
      FilterCounts(b, p, x);
    }
  }

  lemma GroupIgnoresOrder(a: seq<MemoryRecord>, b: seq<MemoryRecord>, subject: string)
    requires multiset(a) == multiset(b) && VersionsIdentify(a)
    ensures Group(a, subject) == Group(b, subject)
  {
    OrdersAreTotal();
    FilterRearranges(a, b, SubjectIs(subject));
    SortIgnoresOrder(Filter(a, SubjectIs(subject)), Filter(b, SubjectIs(subject)), PriorityLeq);
  }

  lemma GroupsIgnoreOrder(a: seq<MemoryRecord>, b: seq<MemoryRecord>, subjects: seq<string>)
    requires multiset(a) == multiset(b) && VersionsIdentify(a)
    ensures Groups(a, subjects) == Groups(b, subjects)
  {
    forall i | 0 <= i < |subjects| ensures Group(a, subjects[i]) == Group(b, subjects[i]) {
      GroupIgnoresOrder(a, b, subjects[i]);
    }
  }

  lemma EdgesIgnoreOrder(a: seq<MemoryRecord>, b: seq<MemoryRecord>)
    requires multiset(a) == multiset(b)
    ensures Edges(a) == Edges(b)
    ensures multiset(Standing(a)) == multiset(Standing(b)) && multiset(Replaced(a)) == multiset(Replaced(b))
  {
    SameMembers(a, b);
    FilterRearranges(a, b, VersionNotIn(Edges(a)));
    FilterRearranges(a, b, VersionIn(Edges(a)));
  }

  lemma SubjectsAgree(a: seq<MemoryRecord>, b: seq<MemoryRecord>)
    requires forall m :: m in a ==> SubjectKey(m) in Subjects(b)
    requires forall m :: m in b ==> SubjectKey(m) in Subjects(a)
    ensures Subjects(a) == Subjects(b)
  {
    SubjectsAscend(a);
    SubjectsAscend(b);
    SubjectsAreKeys(a);
    SubjectsAreKeys(b);
    hide Subjects, SubjectKey, Ascending;
    AscendingIsUnique(Subjects(a), Subjects(b));
  }

  lemma SubjectsIgnoreOrder(a: seq<MemoryRecord>, b: seq<MemoryRecord>)
    requires multiset(a) == multiset(b)
    ensures Subjects(a) == Subjects(b)
  {
    SameMembers(a, b);
    SubjectsAreKeys(a);
    SubjectsAreKeys(b);
    hide Subjects, SubjectKey;
    SubjectsAgree(a, b);
  }

  lemma StandingIgnoresOrder(project: Uuid, asOf: int, a: seq<MemoryRecord>, b: seq<MemoryRecord>)
    requires multiset(a) == multiset(b)
    ensures multiset(Standing(Active(project, asOf, a))) == multiset(Standing(Active(project, asOf, b)))
    ensures multiset(Replaced(Active(project, asOf, a))) == multiset(Replaced(Active(project, asOf, b)))
    ensures multiset(Expired(project, asOf, a)) == multiset(Expired(project, asOf, b))
  {
    FilterRearranges(a, b, IsActive(project, asOf));
    FilterRearranges(a, b, IsExpired(project, asOf));
    EdgesIgnoreOrder(Active(project, asOf, a), Active(project, asOf, b));
  }

  lemma GroupMembers(standing: seq<MemoryRecord>, subject: string)
    ensures forall x :: x in Group(standing, subject) <==> x in standing && SubjectKey(x) == subject
  {
    SortKeepsMembers(Filter(standing, SubjectIs(subject)), PriorityLeq);
  }

  lemma {:induction false} LeftoversStand(standing: seq<MemoryRecord>, subjects: seq<string>)
    ensures forall x :: x in Leftovers(Groups(standing, subjects)) ==> x in standing
  {
    if subjects != [] {
      var front, last := subjects[..|subjects| - 1], subjects[|subjects| - 1];
      GroupsOfFront(standing, subjects);
      LeftoversStand(standing, front);
      GroupMembers(standing, last);
      LeftoversAreInside(Group(standing, last));
      assert Leftovers(Groups(standing, subjects)) == Leftovers(Groups(standing, front)) + LeftoversOf(Group(standing, last));
      hide Leftovers, LeftoversOf, Group, Groups;
    }
  }

  lemma LeftoversAreInside(group: seq<MemoryRecord>)
    ensures forall x :: x in LeftoversOf(group) ==> x in group
  {
  }

  lemma HistoryIsGiven(project: Uuid, asOf: int, candidates: seq<MemoryRecord>)
    ensures forall x :: x in History(project, asOf, candidates) ==> x in candidates
  {
    var standing := Standing(Active(project, asOf, candidates));
    LeftoversStand(standing, Subjects(standing));
  }

  /** The result does not depend on the order the candidates arrive in. */
  lemma ResolveIgnoresOrder(project: Uuid, asOf: int, a: seq<MemoryRecord>, b: seq<MemoryRecord>)
    requires multiset(a) == multiset(b) && VersionsIdentify(a)
    ensures Resolve(project, asOf, a) == Resolve(project, asOf, b)
  {
    var standingA, standingB := Standing(Active(project, asOf, a)), Standing(Active(project, asOf, b));
    StandingIgnoresOrder(project, asOf, a, b);
    SubjectsIgnoreOrder(standingA, standingB);
    GroupsIgnoreOrder(standingA, standingB, Subjects(standingA));
    HistoryIsGiven(project, asOf, a);
    OrdersAreTotal();
    assert multiset(History(project, asOf, a)) == multiset(History(project, asOf, b));
    SortIgnoresOrder(History(project, asOf, a), History(project, asOf, b), NewestFirst);
  }
}
