/** What the resolver guarantees about its verdicts. */
module SupersessionLaws {
  import opened Common
  import opened Sequences
  import opened Memory
  import opened Supersession

  // ----- Who contends -----

  /** A group's contenders are exactly its records of the highest authority. */
  lemma ContendersAreTop(standing: seq<MemoryRecord>, subject: string)
    ensures var group := Group(standing, subject);
            forall m :: m in standing && SubjectKey(m) == subject ==>
              && group != [] && Rank(m) <= Rank(group[0])
              && (m in Contenders(group) <==> Rank(m) == Rank(group[0]))
    ensures forall m :: m in Contenders(Group(standing, subject)) ==> m in standing && SubjectKey(m) == subject
  {
    var group := Group(standing, subject);
    GroupMembers(standing, subject);
    OrdersAreTotal();
    SortSorts(Filter(standing, SubjectIs(subject)), PriorityLeq);
    forall m | m in standing && SubjectKey(m) == subject
      ensures group != [] && Rank(m) <= Rank(group[0]) && (m in Contenders(group) <==> Rank(m) == Rank(group[0]))
    {
      var i :| 0 <= i < |group| && group[i] == m;
      assert i > 0 ==> PriorityLeq(group[0], group[i]);
      var n := TieCount(group, Rank(group[0]));
      if i < n {
        assert Contenders(group)[i] == m;
      } else {
        assert i > n ==> PriorityLeq(group[n], group[i]);
        assert n > 0 ==> PriorityLeq(group[0], group[n]);
      }
    }
  }

  lemma {:induction false} WinnersComeFromGroups(groups: seq<SubjectGroup>)
    ensures forall w :: w in Winners(groups) ==> exists i :: 0 <= i < |groups| && [w] == WinnerOf(groups[i].records)
  {
    if groups != [] {
      var front := groups[..|groups| - 1];
      WinnersComeFromGroups(front);
      forall w | w in Winners(groups)
        ensures exists i :: 0 <= i < |groups| && [w] == WinnerOf(groups[i].records)
      {
        if w in Winners(front) {
          var i :| 0 <= i < |front| && [w] == WinnerOf(front[i].records);
          assert groups[i] == front[i];
        } else {
          assert w in WinnerOf(groups[|groups| - 1].records);
        }
      }
    }
  }

  lemma {:induction false} GroupWinnerWins(groups: seq<SubjectGroup>, i: nat)
    requires i < |groups|
    ensures forall w :: w in WinnerOf(groups[i].records) ==> w in Winners(groups)
  {
    if i < |groups| - 1 {
      GroupWinnerWins(groups[..|groups| - 1], i);
    }
  }

  lemma {:induction false} ConflictsComeFromGroups(groups: seq<SubjectGroup>)
    ensures forall c :: c in Conflicts(groups) ==> exists i :: 0 <= i < |groups| && [c] == ConflictOf(groups[i])
  {
    if groups != [] {
      var front := groups[..|groups| - 1];
      ConflictsComeFromGroups(front);
      forall c | c in Conflicts(groups)
        ensures exists i :: 0 <= i < |groups| && [c] == ConflictOf(groups[i])
      {
        if c in Conflicts(front) {
          var i :| 0 <= i < |front| && [c] == ConflictOf(front[i]);
          assert groups[i] == front[i];
        } else {
          assert c in ConflictOf(groups[|groups| - 1]);
        }
      }
    }
  }

  lemma {:induction false} GroupConflictIsReported(groups: seq<SubjectGroup>, i: nat)
    requires i < |groups|
    ensures forall c :: c in ConflictOf(groups[i]) ==> c in Conflicts(groups)
  {
    if i < |groups| - 1 {
      GroupConflictIsReported(groups[..|groups| - 1], i);
    }
  }

  /** The records that are valid and not superseded by another valid record. */
  function StandingAt(project: Uuid, asOf: int, candidates: seq<MemoryRecord>): seq<MemoryRecord> {
    Standing(Active(project, asOf, candidates))
  }

  /** A winner is the first contender of its subject's group, and the contenders agree. */
  lemma WinnerLeadsItsGroup(project: Uuid, asOf: int, candidates: seq<MemoryRecord>, w: MemoryRecord)
    requires w in Resolve(project, asOf, candidates).current
    ensures var group := Group(StandingAt(project, asOf, candidates), SubjectKey(w));
            [w] == WinnerOf(group) && w in StandingAt(project, asOf, candidates)
  {
    var standing := StandingAt(project, asOf, candidates);
    var groups := Agenda(project, asOf, candidates);
    WinnersComeFromGroups(groups);
    var i :| 0 <= i < |groups| && [w] == WinnerOf(groups[i].records);
    LeadIsMember(groups[i].records, w);
    GroupMembers(standing, groups[i].subject);
  }

  lemma LeadIsMember(group: seq<MemoryRecord>, w: MemoryRecord)
    requires [w] == WinnerOf(group)
    ensures w in Contenders(group) && w in group && !Contested(Contenders(group)) && w == Contenders(group)[0]
  {
    assert Contenders(group)[0] == w;
    assert group[0] == w;
  }

  lemma AgreeingContenders(group: seq<MemoryRecord>, w: MemoryRecord, m: MemoryRecord)
    requires [w] == WinnerOf(group) && m in Contenders(group)
    ensures NormalizeContent(m.content) == NormalizeContent(w.content)
  {
    var contenders := Contenders(group);
    LeadIsMember(group, w);
    var i :| 0 <= i < |contenders| && contenders[i] == m;
  }

  /**
   Every winner stands and has the highest authority its subject has, and no standing record of the
   same authority says anything else.
   */
  lemma WinnersOutrank(project: Uuid, asOf: int, candidates: seq<MemoryRecord>, w: MemoryRecord)
    requires w in Resolve(project, asOf, candidates).current
    ensures w in StandingAt(project, asOf, candidates)
    ensures forall m :: m in StandingAt(project, asOf, candidates) && SubjectKey(m) == SubjectKey(w) ==>
              Rank(m) < Rank(w) || (Rank(m) == Rank(w) && NormalizeContent(m.content) == NormalizeContent(w.content))
  {
    var standing := StandingAt(project, asOf, candidates);
    var group := Group(standing, SubjectKey(w));
    WinnerLeadsItsGroup(project, asOf, candidates, w);
    ContendersAreTop(standing, SubjectKey(w));
    LeadIsMember(group, w);
    forall m | m in standing && SubjectKey(m) == SubjectKey(w) && Rank(m) == Rank(w)
      ensures NormalizeContent(m.content) == NormalizeContent(w.content)
    {
      AgreeingContenders(group, w, m);
    }
  }

  lemma ConflictIsItsGroup(project: Uuid, asOf: int, candidates: seq<MemoryRecord>, c: MemoryConflict)
    requires c in Resolve(project, asOf, candidates).conflicts
    ensures c.records == Contenders(Group(StandingAt(project, asOf, candidates), c.subject)) && Contested(c.records)
    ensures c.subject in Subjects(StandingAt(project, asOf, candidates))
  {
    var groups := Agenda(project, asOf, candidates);
    ConflictsComeFromGroups(groups);
    var i :| 0 <= i < |groups| && [c] == ConflictOf(groups[i]);
    assert ConflictOf(groups[i])[0] == c;
  }

  lemma ContestedTwice(records: seq<MemoryRecord>)
    requires Contested(records)
    ensures |records| >= 2
    ensures exists a, b :: a in records && b in records && NormalizeContent(a.content) != NormalizeContent(b.content)
  {
    var i :| 0 <= i < |records| && NormalizeContent(records[i].content) != NormalizeContent(records[0].content);
    assert records[i] in records && records[0] in records;
  }

  /** Whether a record has the highest authority among the standing records on a subject. */
  ghost predicate IsTop(standing: seq<MemoryRecord>, subject: string, m: MemoryRecord) {
    && m in standing && SubjectKey(m) == subject
    && forall other :: other in standing && SubjectKey(other) == subject ==> Rank(other) <= Rank(m)
  }

  lemma TopMeansContender(standing: seq<MemoryRecord>, subject: string, m: MemoryRecord)
    ensures IsTop(standing, subject, m) <==> m in Contenders(Group(standing, subject))
  {
    var group := Group(standing, subject);
    ContendersAreTop(standing, subject);
    GroupMembers(standing, subject);
    if group != [] {
      assert group[0] in group;
    }
  }

  /**
   Every conflict lists exactly the standing records of the highest authority on its subject, at
   least two of them, and two of them say different things.
   */
  lemma ConflictsAreTopDisagreements(project: Uuid, asOf: int, candidates: seq<MemoryRecord>, c: MemoryConflict)
    requires c in Resolve(project, asOf, candidates).conflicts
    ensures |c.records| >= 2
    ensures forall m :: m in c.records <==> IsTop(StandingAt(project, asOf, candidates), c.subject, m)
    ensures forall a, b :: a in c.records && b in c.records ==> Rank(a) == Rank(b)
    ensures exists a, b :: a in c.records && b in c.records && NormalizeContent(a.content) != NormalizeContent(b.content)
  {
    ConflictIsItsGroup(project, asOf, candidates, c);
    ContestedTwice(c.records);
    forall m ensures m in c.records <==> IsTop(StandingAt(project, asOf, candidates), c.subject, m) {
      TopMeansContender(StandingAt(project, asOf, candidates), c.subject, m);
    }
  }

  /** The sides of a conflict are level on authority. */
  lemma ConflictSidesAreLevel(project: Uuid, asOf: int, candidates: seq<MemoryRecord>, c: MemoryConflict)
    requires c in Resolve(project, asOf, candidates).conflicts
    ensures |c.records| >= 2
    ensures forall a, b :: a in c.records && b in c.records ==> Rank(a) == Rank(b)
  {
    ConflictsAreTopDisagreements(project, asOf, candidates, c);
  }

  // ----- One verdict for each subject -----

  /** Whether a subject has a winner among the resolved records. */
  predicate HasWinner(r: ResolvedMemorySet, subject: string) {
    exists w :: w in r.current && SubjectKey(w) == subject
  }

  predicate HasConflict(r: ResolvedMemorySet, subject: string) {
    exists c :: c in r.conflicts && c.subject == subject
  }

  /** Whether the contenders for a subject disagree. */
  predicate IsContested(standing: seq<MemoryRecord>, subject: string) {
    Contested(Contenders(Group(standing, subject)))
  }

  lemma WinnersAreUncontested(project: Uuid, asOf: int, candidates: seq<MemoryRecord>, subject: string)
    requires HasWinner(Resolve(project, asOf, candidates), subject)
    ensures subject in Subjects(StandingAt(project, asOf, candidates))
    ensures !IsContested(StandingAt(project, asOf, candidates), subject)
  {
    var w :| w in Resolve(project, asOf, candidates).current && SubjectKey(w) == subject;
    WinnerLeadsItsGroup(project, asOf, candidates, w);
    SubjectsAreKeys(StandingAt(project, asOf, candidates));
    LeadIsMember(Group(StandingAt(project, asOf, candidates), subject), w);
    hide Resolve, StandingAt, Subjects, Group, Contenders;
  }

  lemma ConflictsAreContested(project: Uuid, asOf: int, candidates: seq<MemoryRecord>, subject: string)
    requires HasConflict(Resolve(project, asOf, candidates), subject)
    ensures subject in Subjects(StandingAt(project, asOf, candidates))
    ensures IsContested(StandingAt(project, asOf, candidates), subject)
  {
    var c :| c in Resolve(project, asOf, candidates).conflicts && c.subject == subject;
    ConflictIsItsGroup(project, asOf, candidates, c);
  }

  lemma VerdictIsGiven(project: Uuid, asOf: int, candidates: seq<MemoryRecord>, subject: string)
    requires subject in Subjects(StandingAt(project, asOf, candidates))
    ensures var r := Resolve(project, asOf, candidates);
            if IsContested(StandingAt(project, asOf, candidates), subject) then HasConflict(r, subject) else HasWinner(r, subject)
  {
    hide Group, Active, Standing, Subjects, Winners, Conflicts;
    var groups := Agenda(project, asOf, candidates);
    var i :| 0 <= i < |groups| && groups[i].subject == subject;
    SubjectsAreKeys(StandingAt(project, asOf, candidates));
    SubjectGetsAVerdict(StandingAt(project, asOf, candidates), subject, groups, i);
  }

  /**
   A subject with a standing record has a winner when its contenders agree and a conflict when they
   do not; no other subject has either.
   */
  lemma OneVerdictPerSubject(project: Uuid, asOf: int, candidates: seq<MemoryRecord>, subject: string)
    ensures var r := Resolve(project, asOf, candidates);
            var listed := subject in Subjects(StandingAt(project, asOf, candidates));
            var contested := IsContested(StandingAt(project, asOf, candidates), subject);
            (HasWinner(r, subject) <==> listed && !contested) && (HasConflict(r, subject) <==> listed && contested)
  {
    if HasWinner(Resolve(project, asOf, candidates), subject) {
      WinnersAreUncontested(project, asOf, candidates, subject);
    }
    if HasConflict(Resolve(project, asOf, candidates), subject) {
      ConflictsAreContested(project, asOf, candidates, subject);
    }
    if subject in Subjects(StandingAt(project, asOf, candidates)) {
      VerdictIsGiven(project, asOf, candidates, subject);
    }
  }

  /** No subject has a second winner or a second conflict. */
  lemma VerdictsAreUnique(project: Uuid, asOf: int, candidates: seq<MemoryRecord>)
    ensures var r := Resolve(project, asOf, candidates);
            && (forall v, w :: v in r.current && w in r.current && SubjectKey(v) == SubjectKey(w) ==> v == w)
            && (forall c, d :: c in r.conflicts && d in r.conflicts && c.subject == d.subject ==> c == d)
  {
    var r := Resolve(project, asOf, candidates);
    forall v, w | v in r.current && w in r.current && SubjectKey(v) == SubjectKey(w) ensures v == w {
      WinnerLeadsItsGroup(project, asOf, candidates, v);
      WinnerLeadsItsGroup(project, asOf, candidates, w);
      assert [v][0] == [w][0];
    }
    forall c, d | c in r.conflicts && d in r.conflicts && c.subject == d.subject ensures c == d {
      ConflictIsItsGroup(project, asOf, candidates, c);
      ConflictIsItsGroup(project, asOf, candidates, d);
    }
  }

  lemma SubjectGetsAVerdict(standing: seq<MemoryRecord>, subject: string, groups: seq<SubjectGroup>, i: nat)
    requires i < |groups| && groups[i] == SubjectGroup(subject, Group(standing, subject))
    requires exists m :: m in standing && SubjectKey(m) == subject
    ensures if Contested(Contenders(Group(standing, subject)))
            then MemoryConflict(subject, Contenders(Group(standing, subject))) in Conflicts(groups)
            else exists w :: w in Winners(groups) && SubjectKey(w) == subject
  {
    var group := Group(standing, subject);
    ContendersAreTop(standing, subject);
    GroupConflictIsReported(groups, i);
    GroupWinnerWins(groups, i);
    if Contested(Contenders(group)) {
      assert MemoryConflict(subject, Contenders(group)) in ConflictOf(groups[i]);
    } else {
      var w := Contenders(group)[0];
      assert w in Contenders(group) && w in WinnerOf(group);
    }
  }

  predicate OneEach(records: seq<MemoryRecord>) {
    forall i, j :: 0 <= i < j < |records| ==> SubjectKey(records[i]) != SubjectKey(records[j])
  }

  predicate AllOn(records: seq<MemoryRecord>, subjects: seq<string>) {
    forall w :: w in records ==> SubjectKey(w) in subjects
  }

  /** The winners are listed once each. */
  lemma {:induction false} WinnersListedOnce(standing: seq<MemoryRecord>, subjects: seq<string>)
    requires NoRepeats(subjects)
    ensures OneEach(Winners(Groups(standing, subjects))) && AllOn(Winners(Groups(standing, subjects)), subjects)
  {
    if subjects != [] {
      var front, subject := subjects[..|subjects| - 1], subjects[|subjects| - 1];
      GroupsOfFront(standing, subjects);
      WinnersListedOnce(standing, front);
      assert subjects == front + [subject];
      OneMoreWinner(standing, subject, Winners(Groups(standing, front)), front);
    }
  }

  lemma OneMoreWinner(standing: seq<MemoryRecord>, subject: string, before: seq<MemoryRecord>, front: seq<string>)
    requires subject !in front && OneEach(before) && AllOn(before, front)
    ensures OneEach(before + WinnerOf(Group(standing, subject)))
    ensures AllOn(before + WinnerOf(Group(standing, subject)), front + [subject])
  {
    var last := WinnerOf(Group(standing, subject));
    if last != [] {
      LeadIsMember(Group(standing, subject), last[0]);
      GroupMembers(standing, subject);
      var winners := before + last;
      forall i, j | 0 <= i < j < |winners| ensures SubjectKey(winners[i]) != SubjectKey(winners[j]) {
        assert before[i] in before;
      }
    } else {
      assert before + last == before;
    }
  }

  // ----- Resolving twice -----

  lemma {:induction false} FilterFindsOne(records: seq<MemoryRecord>, i: nat, p: MemoryRecord -> bool)
    requires i < |records| && p(records[i])
    requires forall j :: 0 <= j < |records| && j != i ==> !p(records[j])
    ensures Filter(records, p) == [records[i]]
  {
    var front := records[..|records| - 1];
    if i == |records| - 1 {
      forall x | x in front ensures !p(x) {
        var j :| 0 <= j < |front| && front[j] == x;
        assert x == records[j];
      }
      FilterNone(front, p);
    } else {
      FilterFindsOne(front, i, p);
    }
  }

  lemma GroupOfOneEach(records: seq<MemoryRecord>, i: nat)
    requires i < |records| && OneEach(records)
    ensures Group(records, SubjectKey(records[i])) == [records[i]]
  {
    FilterFindsOne(records, i, SubjectIs(SubjectKey(records[i])));
    assert Sort([records[i]], PriorityLeq) == Insert(records[i], Sort([], PriorityLeq), PriorityLeq);
  }

  lemma SingletonWins(group: SubjectGroup, m: MemoryRecord)
    requires group.records == [m]
    ensures WinnerOf(group.records) == [m] && ConflictOf(group) == [] && LeftoversOf(group.records) == []
  {
    assert TieCount([m], Rank(m)) == 1 + TieCount([m][1..], Rank(m));
    assert Contenders([m]) == [m] && Outranked([m]) == [];
  }

  /** Groups of one record each: the record wins, and nothing is contested or left over. */
  lemma {:induction false} SingletonsWin(groups: seq<SubjectGroup>, records: seq<MemoryRecord>)
    requires |groups| == |records| && forall i :: 0 <= i < |groups| ==> groups[i].records == [records[i]]
    ensures Winners(groups) == records && Conflicts(groups) == [] && Leftovers(groups) == []
  {
    hide WinnerOf, ConflictOf, LeftoversOf;
    if groups != [] {
      var n := |groups| - 1;
      SingletonsWin(groups[..n], records[..n]);
      SingletonWins(groups[n], records[n]);
      assert records == records[..n] + [records[n]];
    }
  }

  /** The subjects of a list with one record for each subject, in ascending order, are its own keys. */
  function Keys(records: seq<MemoryRecord>): seq<string> {
    seq(|records|, i requires 0 <= i < |records| => SubjectKey(records[i]))
  }

  /** What stands stays: resolving records that all stand, one for each subject, keeps them all. */
  lemma ResolvingWinners(project: Uuid, asOf: int, records: seq<MemoryRecord>)
    requires OneEach(records) && Subjects(records) == Keys(records)
    requires forall m :: m in records ==> InScope(project, m) && ValidAt(asOf, m) && m.versionId !in Edges(records)
    ensures Resolve(project, asOf, records) == ResolvedMemorySet(records, [], [])
  {
    FilterAll(records, IsActive(project, asOf));
    FilterNone(records, IsExpired(project, asOf));
    FilterAll(records, VersionNotIn(Edges(records)));
    FilterNone(records, VersionIn(Edges(records)));
    var groups := Agenda(project, asOf, records);
    forall i | 0 <= i < |groups| ensures groups[i].records == [records[i]] {
      GroupOfOneEach(records, i);
    }
    SingletonsWin(groups, records);
    assert Sort([], NewestFirst) == [];
  }

  lemma {:induction false} WinnersAscend(standing: seq<MemoryRecord>, subjects: seq<string>)
    requires Ascending(subjects)
    ensures Ascending(Keys(Winners(Groups(standing, subjects)))) && AllOn(Winners(Groups(standing, subjects)), subjects)
  {
    if subjects != [] {
      var front, subject := subjects[..|subjects| - 1], subjects[|subjects| - 1];
      GroupsOfFront(standing, subjects);
      WinnersAscend(standing, front);
      assert subjects == front + [subject];
      OneMoreAscends(standing, subject, Winners(Groups(standing, front)), front);
    }
  }

  lemma AscendsWithAGreater(subjects: seq<string>, subject: string)
    requires Ascending(subjects) && forall s :: s in subjects ==> StringLess(s, subject)
    ensures Ascending(subjects + [subject])
  {
    hide StringLess;
  }

  lemma KeysComeFrom(records: seq<MemoryRecord>, front: seq<string>)
    requires AllOn(records, front)
    ensures forall k :: k in Keys(records) ==> k in front
  {
    hide SubjectKey;
    forall k | k in Keys(records) ensures k in front {
      var i :| 0 <= i < |records| && Keys(records)[i] == k;
      assert records[i] in records;
    }
  }

  lemma OneMoreKeyAscends(before: seq<MemoryRecord>, w: MemoryRecord, front: seq<string>)
    requires forall s :: s in front ==> StringLess(s, SubjectKey(w))
    requires Ascending(Keys(before)) && AllOn(before, front)
    ensures Ascending(Keys(before + [w]))
  {
    hide StringLess, SubjectKey, Ascending;
    KeysComeFrom(before, front);
    AscendsWithAGreater(Keys(before), SubjectKey(w));
    assert Keys(before + [w]) == Keys(before) + [SubjectKey(w)];
  }

  lemma OneMoreIsListed(before: seq<MemoryRecord>, w: MemoryRecord, front: seq<string>)
    requires AllOn(before, front)
    ensures AllOn(before + [w], front + [SubjectKey(w)])
  {
    hide SubjectKey;
  }

  lemma OneMoreAscends(standing: seq<MemoryRecord>, subject: string, before: seq<MemoryRecord>, front: seq<string>)
    requires forall s :: s in front ==> StringLess(s, subject)
    requires Ascending(Keys(before)) && AllOn(before, front)
    ensures Ascending(Keys(before + WinnerOf(Group(standing, subject))))
    ensures AllOn(before + WinnerOf(Group(standing, subject)), front + [subject])
  {
    var last := WinnerOf(Group(standing, subject));
    hide WinnerOf, Group, StringLess, Contenders, SubjectKey, Ascending, Keys;
    if last != [] {
      WinnerIsOnSubject(standing, subject, last[0]);
      OneMoreKeyAscends(before, last[0], front);
      OneMoreIsListed(before, last[0], front);
    } else {
      assert before + last == before;
    }
  }

  lemma WinnerIsOnSubject(standing: seq<MemoryRecord>, subject: string, w: MemoryRecord)
    requires w in WinnerOf(Group(standing, subject))
    ensures SubjectKey(w) == subject && WinnerOf(Group(standing, subject)) == [w]
  {
    LeadIsMember(Group(standing, subject), w);
    GroupMembers(standing, subject);
  }

  lemma KeysAreSubjects(records: seq<MemoryRecord>)
    requires Ascending(Keys(records))
    ensures Subjects(records) == Keys(records)
  {
    SubjectsAscend(records);
    SubjectsAreKeys(records);
    hide Subjects, SubjectKey, Ascending;
    forall k ensures k in Subjects(records) <==> k in Keys(records) {
      if k in Subjects(records) {
        var m :| m in records && SubjectKey(m) == k;
        var i :| 0 <= i < |records| && records[i] == m;
        assert Keys(records)[i] == k;
      }
      if k in Keys(records) {
        var i :| 0 <= i < |records| && Keys(records)[i] == k;
        assert records[i] in records;
      }
    }
    AscendingIsUnique(Subjects(records), Keys(records));
  }

  /** Resolving the winners again at the same instant is the identity. */
  lemma ResolvingIsIdempotent(project: Uuid, asOf: int, candidates: seq<MemoryRecord>)
    ensures var current := Resolve(project, asOf, candidates).current;
            Resolve(project, asOf, current) == ResolvedMemorySet(current, [], [])
  {
    var current := Resolve(project, asOf, candidates).current;
    var active := Active(project, asOf, candidates);
    var standing := Standing(active);
    forall w | w in current ensures w in standing {
      WinnerLeadsItsGroup(project, asOf, candidates, w);
    }
    assert Edges(current) <= Edges(active);
    SubjectsOnce(standing);
    SubjectsAscend(standing);
    WinnersListedOnce(standing, Subjects(standing));
    WinnersAscend(standing, Subjects(standing));
    KeysAreSubjects(current);
    ResolvingWinners(project, asOf, current);
  }

  // ----- A weaker voice changes nothing -----

  /** A group's contenders survive the arrival of a record of lower authority. */
  lemma {:induction false} LowerRankJoinsBehind(m: MemoryRecord, group: seq<MemoryRecord>, rank: nat)
    requires Rank(m) < rank
    ensures TieCount(Insert(m, group, PriorityLeq), rank) == TieCount(group, rank)
    ensures Insert(m, group, PriorityLeq)[..TieCount(group, rank)] == group[..TieCount(group, rank)]
  {
    if group == [] {
      TieCountStops([m], rank);
    } else if PriorityLeq(m, group[0]) {
      TieCountStops([m] + group, rank);
      TieCountStops(group, rank);
    } else {
      hide PriorityLeq, Rank;
      LowerRankJoinsBehind(m, group[1..], rank);
      var joined := Insert(m, group, PriorityLeq);
      assert joined == [group[0]] + Insert(m, group[1..], PriorityLeq);
      assert joined[1..] == Insert(m, group[1..], PriorityLeq);
      TieCountGoesOn(joined, rank);
      TieCountGoesOn(group, rank);
    }
  }

  lemma TieCountStops(group: seq<MemoryRecord>, rank: nat)
    requires group != [] && Rank(group[0]) != rank
    ensures TieCount(group, rank) == 0
  {
  }

  lemma TieCountGoesOn(group: seq<MemoryRecord>, rank: nat)
    requires group != []
    ensures TieCount(group, rank) == if Rank(group[0]) == rank then 1 + TieCount(group[1..], rank) else 0
    ensures Rank(group[0]) == rank ==> group[..TieCount(group, rank)] == [group[0]] + group[1..][..TieCount(group[1..], rank)]
    ensures Rank(group[0]) != rank ==> group[..TieCount(group, rank)] == []
  {
  }

  /** The strongest record stays at the front when a weaker one arrives. */
  lemma FrontUnmoved(m: MemoryRecord, group: seq<MemoryRecord>)
    requires group != [] && Rank(m) < Rank(group[0])
    ensures Insert(m, group, PriorityLeq)[0] == group[0]
  {
  }

  lemma ContendersUnmoved(m: MemoryRecord, group: seq<MemoryRecord>)
    requires group != [] && Rank(m) < Rank(group[0])
    ensures Contenders(Insert(m, group, PriorityLeq)) == Contenders(group)
  {
    FrontUnmoved(m, group);
    LowerRankJoinsBehind(m, group, Rank(group[0]));
  }

  lemma SortPutsInFront(m: MemoryRecord, records: seq<MemoryRecord>)
    ensures Sort([m] + records, PriorityLeq) == Insert(m, Sort(records, PriorityLeq), PriorityLeq)
  {
    assert ([m] + records)[0] == m && ([m] + records)[1..] == records;
  }

  /** One more standing record, outranked on its subject, moves no group's contenders. */
  lemma ContendersKeepTheirPlaces(m: MemoryRecord, standing: seq<MemoryRecord>, better: MemoryRecord, subject: string)
    requires better in standing && SubjectKey(better) == SubjectKey(m) && Rank(m) < Rank(better)
    ensures Contenders(Group([m] + standing, subject)) == Contenders(Group(standing, subject))
  {
    FilterOfConcat([m], standing, SubjectIs(subject));
    assert [m][..0] == [];
    if SubjectKey(m) == subject {
      assert Filter([m], SubjectIs(subject)) == [m];
      SortPutsInFront(m, Filter(standing, SubjectIs(subject)));
      ContendersAreTop(standing, subject);
      ContendersUnmoved(m, Group(standing, subject));
    } else {
      assert Filter([m], SubjectIs(subject)) == [];
      assert [] + Filter(standing, SubjectIs(subject)) == Filter(standing, SubjectIs(subject));
    }
  }

  /** Verdicts depend only on the contenders. */
  lemma {:induction false} SameContendersSameVerdicts(a: seq<SubjectGroup>, b: seq<SubjectGroup>)
    requires |a| == |b|
    requires forall i :: 0 <= i < |a| ==> a[i].subject == b[i].subject && Contenders(a[i].records) == Contenders(b[i].records)
    ensures Winners(a) == Winners(b) && Conflicts(a) == Conflicts(b)
  {
    if a != [] {
      SameContendersSameVerdicts(a[..|a| - 1], b[..|b| - 1]);
    }
  }

  lemma SubjectsWithAnother(m: MemoryRecord, standing: seq<MemoryRecord>, better: MemoryRecord)
    requires better in standing && SubjectKey(better) == SubjectKey(m)
    ensures Subjects([m] + standing) == Subjects(standing)
  {
    SubjectsAreKeys([m] + standing);
    SubjectsAreKeys(standing);
    hide Subjects, SubjectKey;
    assert forall x :: x in standing ==> x in [m] + standing;
    SubjectsAgree([m] + standing, standing);
  }

  lemma WeakerStandingRecord(m: MemoryRecord, standing: seq<MemoryRecord>, better: MemoryRecord)
    requires better in standing && SubjectKey(better) == SubjectKey(m) && Rank(m) < Rank(better)
    ensures var a, b := Groups([m] + standing, Subjects([m] + standing)), Groups(standing, Subjects(standing));
            Winners(a) == Winners(b) && Conflicts(a) == Conflicts(b)
  {
    var a, b := Groups([m] + standing, Subjects([m] + standing)), Groups(standing, Subjects(standing));
    SubjectsWithAnother(m, standing, better);
    forall i | 0 <= i < |a| ensures a[i].subject == b[i].subject && Contenders(a[i].records) == Contenders(b[i].records) {
      ContendersKeepTheirPlaces(m, standing, better, Subjects(standing)[i]);
    }
    SameContendersSameVerdicts(a, b);
  }

  lemma EdgesWithAnother(m: MemoryRecord, active: seq<MemoryRecord>)
    requires m.supersedes == []
    ensures Edges([m] + active) == Edges(active)
  {
  }

  lemma StandingWithOneInFront(m: MemoryRecord, active: seq<MemoryRecord>)
    requires m.supersedes == []
    ensures Standing([m] + active) == (if m.versionId !in Edges(active) then [m] else []) + Standing(active)
  {
    EdgesWithAnother(m, active);
    hide Filter, Edges;
    FilterWithOneInFront(m, active, VersionNotIn(Edges(active)));
  }

  /** What a record without edges in front of the candidates does to what stands. */
  lemma StandingWithAnother(project: Uuid, asOf: int, m: MemoryRecord, candidates: seq<MemoryRecord>)
    requires m.supersedes == []
    ensures var before, after := StandingAt(project, asOf, candidates), StandingAt(project, asOf, [m] + candidates);
            after == before || after == [m] + before
  {
    var active := Active(project, asOf, candidates);
    FilterWithOneInFront(m, candidates, IsActive(project, asOf));
    StandingWithOneInFront(m, active);
    hide Filter, Edges, Standing, InScope, ValidAt;
    assert [] + active == active && [] + Standing(active) == Standing(active);
  }

  lemma VerdictsDependOnStanding(project: Uuid, asOf: int, a: seq<MemoryRecord>, b: seq<MemoryRecord>)
    requires StandingAt(project, asOf, a) == StandingAt(project, asOf, b)
    ensures Resolve(project, asOf, a).current == Resolve(project, asOf, b).current
    ensures Resolve(project, asOf, a).conflicts == Resolve(project, asOf, b).conflicts
  {
  }

  lemma WeakerRecordChangesNoVerdict(project: Uuid, asOf: int, candidates: seq<MemoryRecord>, m: MemoryRecord,
                                     better: MemoryRecord)
    requires m.supersedes == []
    requires better in StandingAt(project, asOf, candidates) && SubjectKey(better) == SubjectKey(m) && Rank(m) < Rank(better)
    ensures var before, after := Resolve(project, asOf, candidates), Resolve(project, asOf, [m] + candidates);
            after.current == before.current && after.conflicts == before.conflicts
  {
    hide Standing, Active, Groups, Subjects, Winners, Conflicts, Rank, SubjectKey;
    StandingWithAnother(project, asOf, m, candidates);
    if StandingAt(project, asOf, [m] + candidates) == StandingAt(project, asOf, candidates) {
      VerdictsDependOnStanding(project, asOf, [m] + candidates, candidates);
    } else {
      WeakerStandingRecord(m, StandingAt(project, asOf, candidates), better);
    }
  }

  lemma Cancel<T>(x: multiset<T>, y: multiset<T>, before: multiset<T>, after: multiset<T>, more: multiset<T>)
    requires x + after + y == more + (x + before + y)
    ensures after == before + more
  {
    forall e: T ensures after[e] == (before + more)[e] {
      assert (x + after + y)[e] == (more + (x + before + y))[e];
    }
  }

  /**
   Adding a record without edges that a standing record of its subject outranks leaves winners and
   conflicts exactly as they were, wherever it is added; in scope, it only lengthens the history.
   */
  lemma WeakerRecordOnlyAddsHistory(project: Uuid, asOf: int, candidates: seq<MemoryRecord>, m: MemoryRecord,
                                    better: MemoryRecord, extended: seq<MemoryRecord>)
    requires m.supersedes == [] && InScope(project, m)
    requires better in StandingAt(project, asOf, candidates) && SubjectKey(better) == SubjectKey(m) && Rank(m) < Rank(better)
    requires multiset(extended) == multiset{m} + multiset(candidates) && VersionsIdentify(extended)
    ensures var before, after := Resolve(project, asOf, candidates), Resolve(project, asOf, extended);
            && after.current == before.current && after.conflicts == before.conflicts
            && multiset(after.historical) == multiset(before.historical) + multiset{m}
  {
    hide Resolve, StandingAt, Rank, SubjectKey, Filter, ConflictRecords;
    var front := [m] + candidates;
    assert multiset(front) == multiset{m} + multiset(candidates);
    ResolveIgnoresOrder(project, asOf, extended, front);
    WeakerRecordChangesNoVerdict(project, asOf, candidates, m, better);
    var before, after := Resolve(project, asOf, candidates), Resolve(project, asOf, front);
    ResolveConserves(project, asOf, candidates);
    ResolveConserves(project, asOf, front);
    FilterWithOneInFront(m, candidates, IsInScope(project));
    assert multiset([m] + Filter(candidates, IsInScope(project))) == multiset{m} + multiset(Filter(candidates, IsInScope(project)));
    Cancel(multiset(before.current), multiset(ConflictRecords(before.conflicts)), multiset(before.historical),
           multiset(after.historical), multiset{m});
  }
}
