/**
 What the resolver returns, read off the candidates: exactly which record wins, which records are sides
 of a conflict, and the order of every list.
 */
module ResolverOutcomes {
  import opened Common
  import opened Text
  import opened Sequences
  import opened Memory
  import opened Supersession
  import opened SupersessionLaws
  import Resolver
  import TextLaws

  /** In scope, dated to hold at an instant, and readable. */
  predicate IsValid(project: Uuid, asOf: int, r: MemoryRecord) {
    && r.scope == Project(project) && r.validFrom <= asOf && (r.validTo == None || r.validTo.value > asOf)
    && (r.status == MemoryStatus.Current || r.status == MemoryStatus.Conflict)
  }

  /** Valid, and superseded by no valid candidate. */
  ghost predicate Stands(project: Uuid, asOf: int, candidates: seq<MemoryRecord>, r: MemoryRecord) {
    && r in candidates && IsValid(project, asOf, r)
    && forall other :: other in candidates && IsValid(project, asOf, other) ==> r.versionId !in other.supersedes
  }

  ghost predicate SameSubject(a: MemoryRecord, b: MemoryRecord) {
    a.kind == b.kind && Lower(CollapseWhitespace(a.title)) == Lower(CollapseWhitespace(b.title))
  }

  ghost predicate SaySame(a: MemoryRecord, b: MemoryRecord) {
    Lower(CollapseWhitespace(a.content)) == Lower(CollapseWhitespace(b.content))
  }

  /** Stronger authority; then recorded later; then more confident; then the greater version; or level in all. */
  predicate Precedes(a: MemoryRecord, b: MemoryRecord) {
    var x, y := AuthorityRank(a.authority), AuthorityRank(b.authority);
    || x > y
    || (x == y && a.recordedAt > b.recordedAt)
    || (x == y && a.recordedAt == b.recordedAt && a.confidence > b.confidence)
    || (x == y && a.recordedAt == b.recordedAt && a.confidence == b.confidence && a.versionId >= b.versionId)
  }

  lemma StandsIff(project: Uuid, asOf: int, candidates: seq<MemoryRecord>, r: MemoryRecord)
    ensures r in StandingAt(project, asOf, candidates) <==> Stands(project, asOf, candidates, r)
  {
    var active := Active(project, asOf, candidates);
    forall x ensures x in active <==> x in candidates && IsValid(project, asOf, x) {
    }
    if Stands(project, asOf, candidates, r) {
      assert r.versionId !in Edges(active);
    }
    if r in StandingAt(project, asOf, candidates) {
      forall other | other in candidates && IsValid(project, asOf, other) ensures r.versionId !in other.supersedes {
        assert other in active;
      }
    }
  }

  lemma SubjectIff(a: MemoryRecord, b: MemoryRecord)
    ensures SubjectKey(a) == SubjectKey(b) <==> SameSubject(a, b)
  {
    TextLaws.SameSubjectIff(a, b);
    hide SubjectKey, Lower, CollapseWhitespace;
  }

  lemma PrecedesIff(a: MemoryRecord, b: MemoryRecord)
    ensures PriorityLeq(a, b) <==> Precedes(a, b)
  {
  }

  lemma GroupIsInOrder(standing: seq<MemoryRecord>, subject: string)
    ensures forall i, j :: 0 <= i < j < |Group(standing, subject)| ==> Precedes(Group(standing, subject)[i], Group(standing, subject)[j])
  {
    OrdersAreTotal();
    SortSorts(Filter(standing, SubjectIs(subject)), PriorityLeq);
    hide Sort, Filter;
  }

  lemma LeaderPrecedes(standing: seq<MemoryRecord>, subject: string, m: MemoryRecord)
    requires m in Group(standing, subject)
    ensures Precedes(Group(standing, subject)[0], m)
  {
    GroupIsInOrder(standing, subject);
    hide Group;
    var i :| 0 <= i < |Group(standing, subject)| && Group(standing, subject)[i] == m;
  }

  /** A record that wins its subject: it stands, precedes every other that stands on the subject, and those level with it say the same. */
  ghost predicate Wins(project: Uuid, asOf: int, candidates: seq<MemoryRecord>, w: MemoryRecord) {
    && Stands(project, asOf, candidates, w)
    && forall m :: Stands(project, asOf, candidates, m) && SameSubject(m, w) ==>
         Precedes(w, m) && (AuthorityRank(m.authority) == AuthorityRank(w.authority) ==> SaySame(m, w))
  }

  lemma WinnerWins(project: Uuid, asOf: int, candidates: seq<MemoryRecord>, w: MemoryRecord)
    requires w in Resolve(project, asOf, candidates).current
    ensures Wins(project, asOf, candidates, w)
  {
    hide *;
    var standing := StandingAt(project, asOf, candidates);
    var group := Group(standing, SubjectKey(w));
    WinnerLeadsItsGroup(project, asOf, candidates, w);
    WinnersOutrank(project, asOf, candidates, w);
    LeadIsMember(group, w);
    GroupMembers(standing, SubjectKey(w));
    ContendersLead(group);
    StandsIff(project, asOf, candidates, w);
    forall m | Stands(project, asOf, candidates, m) && SameSubject(m, w)
      ensures Precedes(w, m) && (AuthorityRank(m.authority) == AuthorityRank(w.authority) ==> SaySame(m, w))
    {
      StandsIff(project, asOf, candidates, m);
      SubjectIff(m, w);
      LeaderPrecedes(standing, SubjectKey(w), m);
      RanksAndTexts(m, w);
    }
    WinsMeans(project, asOf, candidates, w);
  }

  lemma RanksAndTexts(a: MemoryRecord, b: MemoryRecord)
    ensures Rank(a) == AuthorityRank(a.authority) && Rank(b) == AuthorityRank(b.authority)
    ensures NormalizeContent(a.content) == NormalizeContent(b.content) <==> SaySame(a, b)
  {
    hide Lower, CollapseWhitespace;
  }

  lemma WinsMeans(project: Uuid, asOf: int, candidates: seq<MemoryRecord>, w: MemoryRecord)
    requires Stands(project, asOf, candidates, w)
    requires forall m :: Stands(project, asOf, candidates, m) && SameSubject(m, w) ==>
               Precedes(w, m) && (AuthorityRank(m.authority) == AuthorityRank(w.authority) ==> SaySame(m, w))
    ensures Wins(project, asOf, candidates, w)
  {
    hide Stands, SameSubject, SaySame, Precedes;
  }

  lemma ContendersLead(group: seq<MemoryRecord>)
    ensures Contenders(group) != [] ==> group != [] && Contenders(group)[0] == group[0]
  {
  }

  /** Exactly which records are current: those that win. */
  lemma CurrentIff(project: Uuid, asOf: int, candidates: seq<MemoryRecord>, w: MemoryRecord)
    requires VersionsIdentify(candidates)
    ensures w in Resolve(project, asOf, candidates).current <==> Wins(project, asOf, candidates, w)
  {
    if w in Resolve(project, asOf, candidates).current {
      WinnerWins(project, asOf, candidates, w);
    }
    if Wins(project, asOf, candidates, w) {
      WinnerIsCurrent(project, asOf, candidates, w);
    }
  }

  lemma WinnerIsCurrent(project: Uuid, asOf: int, candidates: seq<MemoryRecord>, w: MemoryRecord)
    requires VersionsIdentify(candidates) && Wins(project, asOf, candidates, w)
    ensures w in Resolve(project, asOf, candidates).current
  {
    var standing, subject := StandingAt(project, asOf, candidates), SubjectKey(w);
    var group := Group(standing, subject);
    GroupMembers(standing, subject);
    ContendersAreTop(standing, subject);
    StandsIff(project, asOf, candidates, w);
    SubjectsAreKeys(standing);
    hide Resolve, StandingAt, Group, SubjectKey, Contenders, Precedes, Stands, SameSubject, SaySame, Subjects, Contested;
    var lead := group[0];
    assert lead in group;
    MemberStands(project, asOf, candidates, subject, w, lead);
    LeaderPrecedes(standing, subject, w);
    SameWhenLevel(candidates, w, lead);
    forall m | m in Contenders(group) ensures SaySame(m, w) {
      MemberStands(project, asOf, candidates, subject, w, m);
      RanksLevel(standing, subject, m, w);
    }
    AgreedIsNotContested(Contenders(group), w);
    OneVerdictPerSubject(project, asOf, candidates, subject);
    LeaderWins(project, asOf, candidates, subject, w);
  }

  lemma MemberStands(project: Uuid, asOf: int, candidates: seq<MemoryRecord>, subject: string, w: MemoryRecord, m: MemoryRecord)
    requires m in Group(StandingAt(project, asOf, candidates), subject) || m in Contenders(Group(StandingAt(project, asOf, candidates), subject))
    requires Wins(project, asOf, candidates, w) && SubjectKey(w) == subject
    ensures Stands(project, asOf, candidates, m) && SameSubject(m, w) && Precedes(w, m) && m in candidates && w in candidates
    ensures AuthorityRank(m.authority) == AuthorityRank(w.authority) ==> SaySame(m, w)
  {
    var standing := StandingAt(project, asOf, candidates);
    GroupMembers(standing, subject);
    ContendersAreTop(standing, subject);
    StandsIff(project, asOf, candidates, m);
    SubjectIff(m, w);
    assert m in candidates && w in candidates;
    hide StandingAt, Group, Contenders, SubjectKey, SameSubject, SaySame, Precedes, Stands;
  }

  lemma SameWhenLevel(candidates: seq<MemoryRecord>, a: MemoryRecord, b: MemoryRecord)
    requires VersionsIdentify(candidates) && a in candidates && b in candidates && Precedes(a, b) && Precedes(b, a)
    ensures a == b
  {
    assert a.versionId == b.versionId;
  }

  lemma RanksLevel(standing: seq<MemoryRecord>, subject: string, m: MemoryRecord, w: MemoryRecord)
    requires m in Contenders(Group(standing, subject)) && Group(standing, subject) != [] && Group(standing, subject)[0] == w
    ensures AuthorityRank(m.authority) == AuthorityRank(w.authority)
  {
    ContendersAreTop(standing, subject);
    GroupMembers(standing, subject);
  }

  lemma AgreedIsNotContested(contenders: seq<MemoryRecord>, w: MemoryRecord)
    requires forall m :: m in contenders ==> SaySame(m, w)
    ensures !Contested(contenders)
  {
    hide Lower, CollapseWhitespace;
    forall i | 0 <= i < |contenders| ensures NormalizeContent(contenders[i].content) == NormalizeContent(contenders[0].content) {
      assert contenders[i] in contenders && contenders[0] in contenders;
    }
  }

  lemma LeaderWins(project: Uuid, asOf: int, candidates: seq<MemoryRecord>, subject: string, w: MemoryRecord)
    requires HasWinner(Resolve(project, asOf, candidates), subject)
    requires Group(StandingAt(project, asOf, candidates), subject) != [] && Group(StandingAt(project, asOf, candidates), subject)[0] == w
    ensures w in Resolve(project, asOf, candidates).current
  {
    var x :| x in Resolve(project, asOf, candidates).current && SubjectKey(x) == subject;
    WinnerLeadsItsGroup(project, asOf, candidates, x);
    var group := Group(StandingAt(project, asOf, candidates), subject);
    LeadIsMember(group, x);
    ContendersLead(group);
    hide Resolve, StandingAt, Group, Contenders;
  }

  // ----- Conflicts -----

  /** A side of a conflict: it stands, and no record that stands on its subject is stronger. */
  ghost predicate Contends(project: Uuid, asOf: int, candidates: seq<MemoryRecord>, m: MemoryRecord) {
    && Stands(project, asOf, candidates, m)
    && forall other :: Stands(project, asOf, candidates, other) && SameSubject(other, m) ==>
         AuthorityRank(other.authority) <= AuthorityRank(m.authority)
  }

  /**
   What each conflict is: the strongest records that stand on one subject, all of them, of which two say
   different things, listed by precedence under the subject's name.
   */
  lemma ConflictSays(project: Uuid, asOf: int, candidates: seq<MemoryRecord>, c: MemoryConflict)
    requires c in Resolve(project, asOf, candidates).conflicts
    ensures forall m :: m in c.records ==> c.subject == SubjectKey(m) && Contends(project, asOf, candidates, m)
    ensures forall m, side :: side in c.records && Contends(project, asOf, candidates, m) && SameSubject(m, side) ==> m in c.records
    ensures exists a, b :: a in c.records && b in c.records && !SaySame(a, b)
    ensures forall i, j :: 0 <= i < j < |c.records| ==> Precedes(c.records[i], c.records[j])
  {
    hide *;
    var standing := StandingAt(project, asOf, candidates);
    ConflictsAreTopDisagreements(project, asOf, candidates, c);
    ConflictIsItsGroup(project, asOf, candidates, c);
    GroupIsInOrder(standing, c.subject);
    ContendersArePrefix(Group(standing, c.subject));
    forall m | m in c.records ensures c.subject == SubjectKey(m) && Contends(project, asOf, candidates, m) {
      TopContends(project, asOf, candidates, c.subject, m);
    }
    forall m, side | side in c.records && Contends(project, asOf, candidates, m) && SameSubject(m, side) ensures m in c.records {
      SubjectIff(m, side);
      ContenderIsTop(project, asOf, candidates, c.subject, m);
    }
    var a, b :| a in c.records && b in c.records && NormalizeContent(a.content) != NormalizeContent(b.content);
    RanksAndTexts(a, b);
  }

  lemma ContendersArePrefix(group: seq<MemoryRecord>)
    ensures Contenders(group) <= group
  {
  }

  lemma TopContends(project: Uuid, asOf: int, candidates: seq<MemoryRecord>, subject: string, m: MemoryRecord)
    requires IsTop(StandingAt(project, asOf, candidates), subject, m)
    ensures subject == SubjectKey(m) && Contends(project, asOf, candidates, m)
  {
    StandsIff(project, asOf, candidates, m);
    hide StandingAt, SubjectKey, Stands, SameSubject;
    forall other | Stands(project, asOf, candidates, other) && SameSubject(other, m)
      ensures AuthorityRank(other.authority) <= AuthorityRank(m.authority)
    {
      StandsIff(project, asOf, candidates, other);
      SubjectIff(other, m);
      assert Rank(other) <= Rank(m);
    }
  }

  lemma ContenderIsTop(project: Uuid, asOf: int, candidates: seq<MemoryRecord>, subject: string, m: MemoryRecord)
    requires Contends(project, asOf, candidates, m) && SubjectKey(m) == subject
    ensures IsTop(StandingAt(project, asOf, candidates), subject, m)
  {
    StandsIff(project, asOf, candidates, m);
    hide StandingAt, SubjectKey, Stands, SameSubject;
    forall other | other in StandingAt(project, asOf, candidates) && SubjectKey(other) == subject ensures Rank(other) <= Rank(m) {
      StandsIff(project, asOf, candidates, other);
      SubjectIff(other, m);
    }
  }

  // ----- The order of the lists -----

  /** Winners and conflicts by subject, and history from the latest recorded to the earliest, by version where level. */
  lemma ListsAreInOrder(project: Uuid, asOf: int, candidates: seq<MemoryRecord>)
    ensures var r := Resolve(project, asOf, candidates);
            && (forall i, j :: 0 <= i < j < |r.current| ==> StringLess(SubjectKey(r.current[i]), SubjectKey(r.current[j])))
            && (forall i, j :: 0 <= i < j < |r.conflicts| ==> StringLess(r.conflicts[i].subject, r.conflicts[j].subject))
            && (forall i, j :: 0 <= i < j < |r.historical| ==>
                  var a, b := r.historical[i], r.historical[j];
                  a.recordedAt > b.recordedAt || (a.recordedAt == b.recordedAt && a.versionId >= b.versionId))
  {
    hide *;
    WinnersInOrder(project, asOf, candidates);
    ConflictsInOrder(project, asOf, candidates);
    HistoryInOrder(project, asOf, candidates);
  }

  lemma WinnersInOrder(project: Uuid, asOf: int, candidates: seq<MemoryRecord>)
    ensures var current := Resolve(project, asOf, candidates).current;
            forall i, j :: 0 <= i < j < |current| ==> StringLess(SubjectKey(current[i]), SubjectKey(current[j]))
  {
    var standing := StandingAt(project, asOf, candidates);
    var current := Resolve(project, asOf, candidates).current;
    assert current == Winners(Groups(standing, Subjects(standing)));
    hide *;
    SubjectsAscend(standing);
    WinnersAscend(standing, Subjects(standing));
    KeysAscend(current);
  }

  lemma KeysAscend(records: seq<MemoryRecord>)
    requires Ascending(Keys(records))
    ensures forall i, j :: 0 <= i < j < |records| ==> StringLess(SubjectKey(records[i]), SubjectKey(records[j]))
  {
    hide StringLess, SubjectKey;
    forall i, j | 0 <= i < j < |records| ensures StringLess(SubjectKey(records[i]), SubjectKey(records[j])) {
      assert StringLess(Keys(records)[i], Keys(records)[j]);
    }
  }

  lemma ConflictsInOrder(project: Uuid, asOf: int, candidates: seq<MemoryRecord>)
    ensures var conflicts := Resolve(project, asOf, candidates).conflicts;
            forall i, j :: 0 <= i < j < |conflicts| ==> StringLess(conflicts[i].subject, conflicts[j].subject)
  {
    var standing := StandingAt(project, asOf, candidates);
    assert Resolve(project, asOf, candidates).conflicts == Conflicts(Groups(standing, Subjects(standing)));
    SubjectsAscend(standing);
    Resolver.ConflictsInSubjectOrder(standing, Subjects(standing));
    hide Resolve, Conflicts, Groups, Subjects, StandingAt, StringLess;
  }

  lemma HistoryInOrder(project: Uuid, asOf: int, candidates: seq<MemoryRecord>)
    ensures var history := Resolve(project, asOf, candidates).historical;
            forall i, j :: 0 <= i < j < |history| ==>
              var a, b := history[i], history[j];
              a.recordedAt > b.recordedAt || (a.recordedAt == b.recordedAt && a.versionId >= b.versionId)
  {
    var before, history := History(project, asOf, candidates), Resolve(project, asOf, candidates).historical;
    assert history == Sort(before, NewestFirst);
    OrdersAreTotal();
    hide Resolve, History, Sort;
    SortSorts(before, NewestFirst);
  }
}
