/** Folding reaches a fixpoint: what the resolver makes of the ledger after an `apply`. */
module ReconcileTheorem {
  import opened Common
  import opened Sequences
  import opened Memory
  import opened Supersession
  import opened MemoryLedger
  import opened Reconcile
  import opened ReconcileFixpoint
  import Laws = SupersessionLaws
  import Resolver

  // ----- The conflicts the resolver reports share no memory -----

  lemma StandingIsLive(l: Ledger, asOf: int, r: MemoryRecord)
    requires r in Laws.StandingAt(l.project, asOf, LiveMemories(l))
    ensures r in LiveMemories(l) && IsActive(l.project, asOf)(r)
  {
  }

  lemma ConflictSideStands(l: Ledger, asOf: int, c: MemoryConflict, r: MemoryRecord)
    requires c in ConflictsAt(l, asOf) && r in c.records
    ensures Laws.IsTop(Laws.StandingAt(l.project, asOf, LiveMemories(l)), c.subject, r)
    ensures r in LiveMemories(l) && SubjectKey(r) == c.subject && IsActive(l.project, asOf)(r)
  {
    Laws.ConflictsAreTopDisagreements(l.project, asOf, LiveMemories(l), c);
    assert Laws.IsTop(Laws.StandingAt(l.project, asOf, LiveMemories(l)), c.subject, r);
    hide Resolve, LiveMemories, Laws.StandingAt;
    StandingIsLive(l, asOf, r);
  }

  /** The live memories are different memories. */
  lemma LiveIdsDiffer(l: Ledger)
    requires Sound(l)
    ensures LiveSides(l, LiveMemories(l))
  {
    hide Sound, LiveMemories;
    var live := LiveMemories(l);
    forall i, j | 0 <= i < j < |live| ensures live[i].id != live[j].id {
      LiveOnce(l, live[i]);
      if live[i].id == live[j].id {
        LiveAgreeAt(l, i, j);
        TwiceMeansTwo(live, i, j);
      }
    }
  }

  lemma LiveAgreeAt(l: Ledger, i: nat, j: nat)
    requires Sound(l) && i < j < |LiveMemories(l)| && LiveMemories(l)[i].id == LiveMemories(l)[j].id
    ensures LiveMemories(l)[i] == LiveMemories(l)[j]
  {
    hide Sound, LiveMemories;
    LiveAgree(l, LiveMemories(l)[i], LiveMemories(l)[j]);
  }

  lemma ContendersCount(group: seq<MemoryRecord>, x: MemoryRecord)
    ensures multiset(Contenders(group))[x] <= multiset(group)[x]
  {
    GroupIsContendersThenOutranked(group);
    MultisetOfConcat(Contenders(group), Outranked(group), x);
  }

  /** A side is listed once. */
  lemma SideListedOnce(l: Ledger, asOf: int, c: MemoryConflict, x: MemoryRecord)
    requires Sound(l) && c in ConflictsAt(l, asOf)
    ensures multiset(c.records)[x] <= 1
  {
    var live := LiveMemories(l);
    var active := Active(l.project, asOf, live);
    Laws.ConflictIsItsGroup(l.project, asOf, live, c);
    hide Sound, LiveMemories, Resolve, Contenders, Contested;
    ContendersCount(Group(Standing(active), c.subject), x);
    GroupCounts(Standing(active), c.subject, x);
    FilterCounts(active, VersionNotIn(Edges(active)), x);
    FilterCounts(live, IsActive(l.project, asOf), x);
    LiveOnce(l, x);
  }

  lemma SidesAreLevel(l: Ledger, asOf: int, c: MemoryConflict)
    requires c in ConflictsAt(l, asOf)
    ensures |c.records| >= 2 && forall a, b :: a in c.records && b in c.records ==> Rank(a) == Rank(b)
  {
    Laws.ConflictSidesAreLevel(l.project, asOf, LiveMemories(l), c);
  }

  lemma LiveSidesMeans(l: Ledger, records: seq<MemoryRecord>)
    requires forall r :: r in records ==> r in LiveMemories(l)
    requires forall i, j :: 0 <= i < j < |records| ==> records[i].id != records[j].id
    ensures LiveSides(l, records)
  {
  }

  lemma SidesAreLiveSides(l: Ledger, asOf: int, c: MemoryConflict)
    requires Sound(l) && c in ConflictsAt(l, asOf)
    ensures LiveSides(l, c.records) && |c.records| >= 2
  {
    hide *;
    SidesAreLevel(l, asOf, c);
    forall r | r in c.records ensures r in LiveMemories(l) {
      ConflictSideStands(l, asOf, c, r);
    }
    forall i, j | 0 <= i < j < |c.records| ensures c.records[i].id != c.records[j].id {
      if c.records[i].id == c.records[j].id {
        LiveAgree(l, c.records[i], c.records[j]);
        SideListedOnce(l, asOf, c, c.records[i]);
        TwiceMeansTwo(c.records, i, j);
      }
    }
    LiveSidesMeans(l, c.records);
  }

  lemma ConflictsInOrder(l: Ledger, asOf: int)
    ensures Resolver.ConflictsAscend(ConflictsAt(l, asOf))
  {
    var standing := Laws.StandingAt(l.project, asOf, LiveMemories(l));
    SubjectsAscend(standing);
    Resolver.ConflictsInSubjectOrder(standing, Subjects(standing));
  }

  lemma ConflictsAreSeparate(l: Ledger, asOf: int)
    requires Sound(l)
    ensures Separate(l, ConflictsAt(l, asOf))
  {
    ConflictsInOrder(l, asOf);
    var cs := ConflictsAt(l, asOf);
    hide Sound, ConflictsAt, LiveSides;
    forall i | 0 <= i < |cs| ensures LiveSides(l, cs[i].records) && |cs[i].records| >= 2 {
      SidesAreLiveSides(l, asOf, cs[i]);
    }
    forall i, j | 0 <= i < j < |cs| ensures Apart(cs[i], cs[j]) {
      SubjectsKeepApart(l, asOf, cs[i], cs[j]);
    }
  }

  lemma SubjectsKeepApart(l: Ledger, asOf: int, a: MemoryConflict, b: MemoryConflict)
    requires Sound(l) && a in ConflictsAt(l, asOf) && b in ConflictsAt(l, asOf) && a.subject != b.subject
    ensures Apart(a, b)
  {
    hide Sound, ConflictsAt;
    forall r, s | r in a.records && s in b.records ensures r.id != s.id {
      ConflictSideStands(l, asOf, a, r);
      ConflictSideStands(l, asOf, b, s);
      if r.id == s.id {
        LiveAgree(l, r, s);
      }
    }
  }

  // ----- What stands before and after -----

  /** Nothing live is superseded by anything live, so everything active stands. */
  lemma EverythingActiveStands(l: Ledger, asOf: int)
    ensures Laws.StandingAt(l.project, asOf, LiveMemories(l)) == Active(l.project, asOf, LiveMemories(l))
  {
    var active := Active(l.project, asOf, LiveMemories(l));
    LiveIsUnsuperseded(l);
    assert Edges(active) <= Edges(l.versions);
    FilterAll(active, VersionNotIn(Edges(active)));
  }

  /** The subjects a decided conflict is about. */
  ghost predicate DecidedSubject(cs: seq<MemoryConflict>, subject: string) {
    exists c :: c in cs && Decided(c) && c.subject == subject
  }

  /** What the revisions of decided conflicts are: one for each, on its subject, with its authority. */
  ghost predicate KeptFor(cs: seq<MemoryConflict>, kept: seq<MemoryRecord>) {
    && (forall m :: m in kept ==> DecidedSubject(cs, SubjectKey(m)))
    && (forall c :: c in cs && Decided(c) ==> exists m :: m in kept && Follows(m, c))
    && (forall m, n :: m in kept && n in kept && SubjectKey(m) == SubjectKey(n) ==> m == n)
  }

  /** A revision stands in for its conflict's sides. */
  ghost predicate Follows(m: MemoryRecord, c: MemoryConflict) {
    SubjectKey(m) == c.subject && forall r :: r in c.records ==> Rank(r) == Rank(m)
  }

  lemma RevisionFollows(l: Ledger, asOf: int, c: MemoryConflict, version: Uuid, now: int)
    requires c in ConflictsAt(l, asOf) && Decided(c)
    ensures var m := Revised(KeeperOf(c), LosersOf(c), version, now);
            Follows(m, c) && IsActive(l.project, asOf)(m)
  {
    hide *;
    KeeperIsASide(c);
    ConflictSideStands(l, asOf, c, KeeperOf(c));
    SidesAreLevel(l, asOf, c);
    RevisedSpeaksFor(l, asOf, c, KeeperOf(c), LosersOf(c), version, now);
  }

  lemma RevisedSpeaksFor(l: Ledger, asOf: int, c: MemoryConflict, keeper: MemoryRecord, losers: seq<MemoryRecord>,
                         version: Uuid, now: int)
    requires keeper in c.records && SubjectKey(keeper) == c.subject && IsActive(l.project, asOf)(keeper)
    requires forall a, b :: a in c.records && b in c.records ==> Rank(a) == Rank(b)
    ensures var m := Revised(keeper, losers, version, now);
            Follows(m, c) && IsActive(l.project, asOf)(m)
  {
    var m := Revised(keeper, losers, version, now);
    assert Rank(m) == Rank(keeper) && SubjectKey(m) == SubjectKey(keeper);
    hide Rank, SubjectKey;
  }

  ghost predicate OneConflictEach(cs: seq<MemoryConflict>) {
    forall i, j :: 0 <= i < j < |cs| ==> cs[i].subject != cs[j].subject
  }

  ghost predicate AllActive(l: Ledger, asOf: int, records: seq<MemoryRecord>) {
    forall m :: m in records ==> IsActive(l.project, asOf)(m)
  }

  lemma KeptForOneMore(cs: seq<MemoryConflict>, kept: seq<MemoryRecord>, c: MemoryConflict, m: MemoryRecord)
    requires KeptFor(cs, kept) && (forall d :: d in cs ==> d.subject != c.subject)
    requires Decided(c) && Follows(m, c)
    ensures KeptFor(cs + [c], kept + [m])
  {
    hide Decided, SubjectKey, Rank;
    forall n | n in kept + [m] ensures DecidedSubject(cs + [c], SubjectKey(n)) {
      if n in kept {
        var d :| d in cs && Decided(d) && d.subject == SubjectKey(n);
        assert d in cs + [c];
      } else {
        assert c in cs + [c];
      }
    }
    forall d | d in cs + [c] && Decided(d) ensures exists n :: n in kept + [m] && Follows(n, d) {
      if d in cs {
        var n :| n in kept && Follows(n, d);
        assert n in kept + [m];
      } else {
        assert m in kept + [m];
      }
    }
    forall n | n in kept ensures SubjectKey(n) != SubjectKey(m) {
      var d :| d in cs && Decided(d) && d.subject == SubjectKey(n);
    }
  }

  lemma KeptForUndecided(cs: seq<MemoryConflict>, kept: seq<MemoryRecord>, c: MemoryConflict)
    requires KeptFor(cs, kept) && !Decided(c)
    ensures KeptFor(cs + [c], kept)
  {
    hide Decided, SubjectKey, Follows;
    forall n | n in kept ensures DecidedSubject(cs + [c], SubjectKey(n)) {
      var d :| d in cs && Decided(d) && d.subject == SubjectKey(n);
      assert d in cs + [c];
    }
  }

  lemma NothingKept()
    ensures KeptFor([], [])
  {
  }

  lemma {:induction false} KeptSpeak(l: Ledger, asOf: int, cs: seq<MemoryConflict>, now: int)
    requires OneConflictEach(cs) && forall c :: c in cs ==> c in ConflictsAt(l, asOf)
    ensures KeptFor(cs, Kept(l, cs, now)) && AllActive(l, asOf, Kept(l, cs, now))
  {
    hide ConflictsAt, KeptFor, Decided, KeeperOf, LosersOf, ApplyAll, FreshId, Follows, IsActive, Revised;
    if cs == [] {
      NothingKept();
    } else {
      var front, c := cs[..|cs| - 1], cs[|cs| - 1];
      assert cs == front + [c];
      KeptSpeak(l, asOf, front, now);
      if Decided(c) {
        var version := FreshId(ApplyAll(l, Proposals(front), now).0.versions);
        RevisionFollows(l, asOf, c, version, now);
        KeptForOneMore(front, Kept(l, front, now), c, Revised(KeeperOf(c), LosersOf(c), version, now));
      } else {
        KeptForUndecided(front, Kept(l, front, now), c);
        assert Kept(l, cs, now) == Kept(l, front, now) + [] == Kept(l, front, now);
      }
    }
  }

  // ----- The groups after the folds -----

  /** What is active after the folds: what was, without the touched memories, and the revisions. */
  lemma ActiveAfter(l: Ledger, asOf: int, l1: Ledger, touched: set<Uuid>, kept: seq<MemoryRecord>)
    requires LiveMemories(l1) == Filter(LiveMemories(l), NotAmong(touched)) + kept && l1.project == l.project
    requires AllActive(l, asOf, kept)
    ensures Active(l1.project, asOf, LiveMemories(l1))
         == Filter(Active(l.project, asOf, LiveMemories(l)), NotAmong(touched)) + kept
  {
    var live := LiveMemories(l);
    var act, not := IsActive(l.project, asOf), NotAmong(touched);
    hide LiveMemories, Filter, IsActive, NotAmong;
    FilterOfConcat(Filter(live, not), kept, act);
    FilterAll(kept, act);
    FiltersCommute(live, not, act);
  }

  lemma FiltersCommute(records: seq<MemoryRecord>, p: MemoryRecord -> bool, q: MemoryRecord -> bool)
    ensures Filter(Filter(records, p), q) == Filter(Filter(records, q), p)
  {
    var both := (r: MemoryRecord) => p(r) && q(r);
    FilterTwice(records, p, q, both);
    FilterTwice(records, q, p, both);
  }

  /** How the standing records after the folds relate to the standing records before. */
  ghost predicate Refolded(before: seq<MemoryRecord>, cs: seq<MemoryConflict>, touched: set<Uuid>, kept: seq<MemoryRecord>) {
    && KeptFor(cs, kept)
    && (forall m :: m in before ==> (m.id in touched <==> IsFoldedSide(cs, m)))
    && (forall c :: c in cs ==> SubjectVerdict(before, c))
  }

  ghost predicate IsFoldedSide(cs: seq<MemoryConflict>, m: MemoryRecord) {
    exists c :: c in cs && Decided(c) && m in c.records
  }

  ghost predicate SubjectVerdict(before: seq<MemoryRecord>, c: MemoryConflict) {
    && c.records != []
    && (forall m :: m in c.records <==> Laws.IsTop(before, c.subject, m))
    && (forall m, n :: m in c.records && n in c.records ==> Rank(m) == Rank(n))
  }

  lemma FoldedSideSubject(before: seq<MemoryRecord>, cs: seq<MemoryConflict>, touched: set<Uuid>, kept: seq<MemoryRecord>, m: MemoryRecord)
    requires Refolded(before, cs, touched, kept) && m in before && m.id in touched
    ensures DecidedSubject(cs, SubjectKey(m))
  {
    hide KeptFor, Decided, SubjectKey;
    assert IsFoldedSide(cs, m);
    var c :| c in cs && Decided(c) && m in c.records;
    assert SubjectVerdict(before, c);
    assert Laws.IsTop(before, c.subject, m);
  }

  /** A subject without a folded conflict has the same group as before. */
  lemma OtherGroupsUnchanged(before: seq<MemoryRecord>, cs: seq<MemoryConflict>, touched: set<Uuid>, kept: seq<MemoryRecord>,
                             subject: string)
    requires Refolded(before, cs, touched, kept) && !DecidedSubject(cs, subject)
    ensures Group(Filter(before, NotAmong(touched)) + kept, subject) == Group(before, subject)
  {
    var on := SubjectIs(subject);
    forall m | m in Filter(before, on) ensures NotAmong(touched)(m) {
      if m.id in touched {
        FoldedSideSubject(before, cs, touched, kept, m);
      }
    }
    assert forall m :: m in kept ==> !on(m);
    hide Refolded, KeptFor, DecidedSubject, NotAmong, SubjectIs, Filter;
    FilterOfConcat(Filter(before, NotAmong(touched)), kept, on);
    FilterNone(kept, on);
    FiltersCommute(before, NotAmong(touched), on);
    FilterAll(Filter(before, on), NotAmong(touched));
    assert Filter(before, on) + [] == Filter(before, on);
  }

  /** After a fold the revision is alone at the top of its subject. */
  lemma OnlyTheRevisionLeads(before: seq<MemoryRecord>, cs: seq<MemoryConflict>, touched: set<Uuid>, kept: seq<MemoryRecord>,
                             c: MemoryConflict, k: MemoryRecord, m: MemoryRecord)
    requires Refolded(before, cs, touched, kept) && c in cs && Decided(c) && k in kept && Follows(k, c)
    requires Laws.IsTop(Filter(before, NotAmong(touched)) + kept, c.subject, m)
    ensures m == k
  {
    var after := Filter(before, NotAmong(touched)) + kept;
    assert k in after && SubjectKey(k) == c.subject;
    hide Refolded, Decided, SubjectKey, Rank, Follows;
    if m in before && m.id !in touched {
      UntouchedRanksLower(before, cs, touched, kept, c, k, m);
    }
    KeptOnce(before, cs, touched, kept, k, m);
  }

  lemma KeptOnce(before: seq<MemoryRecord>, cs: seq<MemoryConflict>, touched: set<Uuid>, kept: seq<MemoryRecord>,
                 k: MemoryRecord, m: MemoryRecord)
    requires Refolded(before, cs, touched, kept) && k in kept && SubjectKey(k) == SubjectKey(m)
    ensures m in kept ==> m == k
  {
  }

  lemma UntouchedRanksLower(before: seq<MemoryRecord>, cs: seq<MemoryConflict>, touched: set<Uuid>, kept: seq<MemoryRecord>,
                            c: MemoryConflict, k: MemoryRecord, m: MemoryRecord)
    requires Refolded(before, cs, touched, kept) && c in cs && Decided(c) && k in kept && Follows(k, c)
    requires m in before && SubjectKey(m) == c.subject && m.id !in touched
    ensures Rank(m) < Rank(k)
  {
    assert SubjectVerdict(before, c);
    assert c.records[0] in c.records;
    assert Rank(c.records[0]) == Rank(k);
    hide Refolded, Decided, SubjectKey, Rank, SubjectVerdict;
    if Rank(m) >= Rank(k) {
      TopByRank(before, c, m);
      FoldedSideIsTouched(before, cs, touched, kept, c, m);
    }
  }

  lemma TopByRank(before: seq<MemoryRecord>, c: MemoryConflict, m: MemoryRecord)
    requires SubjectVerdict(before, c) && m in before && SubjectKey(m) == c.subject && Rank(m) >= Rank(c.records[0])
    ensures m in c.records
  {
    hide SubjectKey, Rank;
    assert c.records[0] in c.records && Laws.IsTop(before, c.subject, c.records[0]);
    assert Laws.IsTop(before, c.subject, m);
  }

  lemma FoldedSideIsTouched(before: seq<MemoryRecord>, cs: seq<MemoryConflict>, touched: set<Uuid>, kept: seq<MemoryRecord>,
                            c: MemoryConflict, m: MemoryRecord)
    requires Refolded(before, cs, touched, kept) && c in cs && Decided(c) && m in c.records && m in before
    ensures m.id in touched
  {
    hide KeptFor, Decided;
    assert IsFoldedSide(cs, m);
  }

  /** A folded subject is contested no more. */
  lemma FoldedSubjectIsSettled(before: seq<MemoryRecord>, cs: seq<MemoryConflict>, touched: set<Uuid>, kept: seq<MemoryRecord>,
                               subject: string)
    requires Refolded(before, cs, touched, kept) && DecidedSubject(cs, subject)
    ensures !Contested(Contenders(Group(Filter(before, NotAmong(touched)) + kept, subject)))
  {
    hide *;
    var after := Filter(before, NotAmong(touched)) + kept;
    var contenders := Contenders(Group(after, subject));
    var c, k := RevisionOf(before, cs, touched, kept, subject);
    forall m | m in contenders ensures m == k {
      Laws.TopMeansContender(after, subject, m);
      OnlyTheRevisionLeads(before, cs, touched, kept, c, k, m);
    }
    OneVoice(contenders, k);
  }

  lemma RevisionOf(before: seq<MemoryRecord>, cs: seq<MemoryConflict>, touched: set<Uuid>, kept: seq<MemoryRecord>, subject: string)
    returns (c: MemoryConflict, k: MemoryRecord)
    requires Refolded(before, cs, touched, kept) && DecidedSubject(cs, subject)
    ensures c in cs && Decided(c) && c.subject == subject && k in kept && Follows(k, c)
  {
    hide Decided, SubjectKey, Follows;
    c :| c in cs && Decided(c) && c.subject == subject;
    k :| k in kept && Follows(k, c);
  }

  lemma OneVoice(contenders: seq<MemoryRecord>, k: MemoryRecord)
    requires forall m :: m in contenders ==> m == k
    ensures !Contested(contenders)
  {
    hide NormalizeContent;
    forall i | 0 <= i < |contenders| ensures contenders[i] == k {
      assert contenders[i] in contenders;
    }
  }

  // ----- The verdicts after the folds -----

  /** What is left of one subject's conflict: nothing if it was folded, all of it otherwise. */
  lemma ConflictAfter(before: seq<MemoryRecord>, cs: seq<MemoryConflict>, touched: set<Uuid>, kept: seq<MemoryRecord>,
                      subject: string)
    requires Refolded(before, cs, touched, kept) && OneConflictEach(cs)
    requires forall c :: c in ConflictOf(SubjectGroup(subject, Group(before, subject))) ==> c in cs
    ensures ConflictOf(SubjectGroup(subject, Group(Filter(before, NotAmong(touched)) + kept, subject)))
         == Filter(ConflictOf(SubjectGroup(subject, Group(before, subject))), StillUndecided)
  {
    var was := ConflictOf(SubjectGroup(subject, Group(before, subject)));
    AtMostOneConflict(SubjectGroup(subject, Group(before, subject)));
    hide Refolded, Group, Contenders, Contested;
    if DecidedSubject(cs, subject) {
      FoldedSubjectIsSettled(before, cs, touched, kept, subject);
      OnlyDecidedOn(cs, was, subject);
    } else {
      OtherGroupsUnchanged(before, cs, touched, kept, subject);
      NoneDecidedOn(cs, was, subject);
    }
  }

  lemma AtMostOneConflict(group: SubjectGroup)
    ensures forall c :: c in ConflictOf(group) ==> c.subject == group.subject
  {
  }

  lemma OnlyDecidedOn(cs: seq<MemoryConflict>, was: seq<MemoryConflict>, subject: string)
    requires OneConflictEach(cs) && DecidedSubject(cs, subject) && forall c :: c in was ==> c in cs && c.subject == subject
    ensures Filter(was, StillUndecided) == []
  {
    hide Decided;
    var d :| d in cs && Decided(d) && d.subject == subject;
    FilterNone(was, StillUndecided);
  }

  lemma NoneDecidedOn(cs: seq<MemoryConflict>, was: seq<MemoryConflict>, subject: string)
    requires !DecidedSubject(cs, subject) && forall c :: c in was ==> c in cs && c.subject == subject
    ensures Filter(was, StillUndecided) == was
  {
    hide Decided;
    FilterAll(was, StillUndecided);
  }

  /** The conflicts of the subjects, one by one. */
  lemma {:induction false} ConflictsAfter(before: seq<MemoryRecord>, cs: seq<MemoryConflict>, touched: set<Uuid>,
                                          kept: seq<MemoryRecord>, subjects: seq<string>)
    requires Refolded(before, cs, touched, kept) && OneConflictEach(cs)
    requires forall c :: c in Conflicts(Groups(before, subjects)) ==> c in cs
    ensures Conflicts(Groups(Filter(before, NotAmong(touched)) + kept, subjects))
         == Filter(Conflicts(Groups(before, subjects)), StillUndecided)
  {
    var after := Filter(before, NotAmong(touched)) + kept;
    hide Refolded, OneConflictEach, StillUndecided, ConflictOf, Group;
    if subjects != [] {
      var front, subject := subjects[..|subjects| - 1], subjects[|subjects| - 1];
      GroupsOfFront(before, subjects);
      GroupsOfFront(after, subjects);
      var was := ConflictOf(SubjectGroup(subject, Group(before, subject)));
      assert Conflicts(Groups(before, subjects)) == Conflicts(Groups(before, front)) + was;
      hide Groups, Conflicts;
      ConflictsAfter(before, cs, touched, kept, front);
      ConflictAfter(before, cs, touched, kept, subject);
      FilterOfConcat(Conflicts(Groups(before, front)), was, StillUndecided);
    }
  }

  /** No subject is lost and none appears. */
  lemma SubjectsAfter(before: seq<MemoryRecord>, cs: seq<MemoryConflict>, touched: set<Uuid>, kept: seq<MemoryRecord>)
    requires Refolded(before, cs, touched, kept)
    ensures Subjects(Filter(before, NotAmong(touched)) + kept) == Subjects(before)
  {
    var after := Filter(before, NotAmong(touched)) + kept;
    SubjectsAreKeys(before);
    SubjectsAreKeys(after);
    hide Subjects, KeptFor, SubjectKey;
    forall m | m in before ensures SubjectKey(m) in Subjects(after) {
      if m.id in touched {
        FoldedSideSubject(before, cs, touched, kept, m);
        var c, k := RevisionOf(before, cs, touched, kept, SubjectKey(m));
        FollowsSubject(k, c);
        assert k in after;
      } else {
        assert m in after;
      }
    }
    forall m | m in after ensures SubjectKey(m) in Subjects(before) {
      if m in kept {
        KeptSubject(before, cs, touched, kept, m);
      }
    }
    SubjectsAgree(after, before);
  }

  lemma FollowsSubject(k: MemoryRecord, c: MemoryConflict)
    requires Follows(k, c)
    ensures SubjectKey(k) == c.subject
  {
  }

  lemma KeptSubject(before: seq<MemoryRecord>, cs: seq<MemoryConflict>, touched: set<Uuid>, kept: seq<MemoryRecord>, m: MemoryRecord)
    requires Refolded(before, cs, touched, kept) && m in kept
    ensures SubjectKey(m) in Subjects(before)
  {
    SubjectsAreKeys(before);
    hide Subjects, SubjectKey, Decided, Rank;
    assert DecidedSubject(cs, SubjectKey(m));
    var c :| c in cs && Decided(c) && c.subject == SubjectKey(m);
    assert SubjectVerdict(before, c);
    assert c.records[0] in c.records;
    assert Laws.IsTop(before, c.subject, c.records[0]);
  }

  // ----- The ledger's own conflicts -----

  lemma LedgerIsRefolded(l: Ledger, asOf: int, now: int)
    requires Sound(l)
    ensures var cs := ConflictsAt(l, asOf);
            Refolded(Active(l.project, asOf, LiveMemories(l)), cs, Touched(cs), Kept(l, cs, now))
    ensures OneConflictEach(ConflictsAt(l, asOf)) && AllActive(l, asOf, Kept(l, ConflictsAt(l, asOf), now))
  {
    hide *;
    var cs := ConflictsAt(l, asOf);
    var before := Active(l.project, asOf, LiveMemories(l));
    ConflictsDiffer(l, asOf);
    KeptSpeak(l, asOf, cs, now);
    forall m | m in before ensures m.id in Touched(cs) <==> IsFoldedSide(cs, m) {
      TouchedMeansFolded(l, asOf, m);
    }
    forall c | c in cs ensures SubjectVerdict(before, c) {
      ConflictVerdict(l, asOf, c);
    }
    RefoldedMeans(before, cs, Touched(cs), Kept(l, cs, now));
  }

  lemma RefoldedMeans(before: seq<MemoryRecord>, cs: seq<MemoryConflict>, touched: set<Uuid>, kept: seq<MemoryRecord>)
    requires KeptFor(cs, kept)
    requires forall m :: m in before ==> (m.id in touched <==> IsFoldedSide(cs, m))
    requires forall c :: c in cs ==> SubjectVerdict(before, c)
    ensures Refolded(before, cs, touched, kept)
  {
  }

  lemma ConflictsDiffer(l: Ledger, asOf: int)
    ensures OneConflictEach(ConflictsAt(l, asOf))
  {
    ConflictsInOrder(l, asOf);
    hide ConflictsAt;
  }

  lemma ConflictVerdict(l: Ledger, asOf: int, c: MemoryConflict)
    requires c in ConflictsAt(l, asOf)
    ensures SubjectVerdict(Active(l.project, asOf, LiveMemories(l)), c)
  {
    hide *;
    EverythingActiveStands(l, asOf);
    SidesAreLevel(l, asOf, c);
    SidesAreTop(l, asOf, c);
    SubjectVerdictMeans(Active(l.project, asOf, LiveMemories(l)), c);
  }

  lemma SubjectVerdictMeans(before: seq<MemoryRecord>, c: MemoryConflict)
    requires |c.records| >= 2 && forall a, b :: a in c.records && b in c.records ==> Rank(a) == Rank(b)
    requires forall m :: m in c.records <==> Laws.IsTop(before, c.subject, m)
    ensures SubjectVerdict(before, c)
  {
  }

  lemma SidesAreTop(l: Ledger, asOf: int, c: MemoryConflict)
    requires c in ConflictsAt(l, asOf)
    ensures forall m :: m in c.records <==> Laws.IsTop(Laws.StandingAt(l.project, asOf, LiveMemories(l)), c.subject, m)
  {
    Laws.ConflictsAreTopDisagreements(l.project, asOf, LiveMemories(l), c);
  }

  lemma ActiveIsLive(l: Ledger, asOf: int, m: MemoryRecord)
    requires m in Active(l.project, asOf, LiveMemories(l))
    ensures m in LiveMemories(l)
  {
  }

  lemma TouchedMeansFolded(l: Ledger, asOf: int, m: MemoryRecord)
    requires Sound(l) && m in Active(l.project, asOf, LiveMemories(l))
    ensures m.id in Touched(ConflictsAt(l, asOf)) <==> IsFoldedSide(ConflictsAt(l, asOf), m)
  {
    hide *;
    var cs := ConflictsAt(l, asOf);
    TouchedBySome(cs, m.id);
    ActiveIsLive(l, asOf, m);
    if i :| 0 <= i < |cs| && Decided(cs[i]) && m.id in Ids(cs[i].records) {
      SharedIdIsTheSide(l, asOf, cs[i], m);
      FoldedSideOf(cs, cs[i], m);
    }
    if IsFoldedSide(cs, m) {
      var i := FoldedSideAt(cs, m);
    }
  }

  lemma SharedIdIsTheSide(l: Ledger, asOf: int, c: MemoryConflict, m: MemoryRecord)
    requires Sound(l) && c in ConflictsAt(l, asOf) && m in LiveMemories(l) && m.id in Ids(c.records)
    ensures m in c.records
  {
    hide ConflictsAt, Sound, LiveMemories;
    var r :| r in c.records && r.id == m.id;
    ConflictSideStands(l, asOf, c, r);
    LiveAgree(l, r, m);
  }

  lemma FoldedSideOf(cs: seq<MemoryConflict>, c: MemoryConflict, m: MemoryRecord)
    requires c in cs && Decided(c) && m in c.records
    ensures IsFoldedSide(cs, m)
  {
    hide Decided;
  }

  lemma FoldedSideAt(cs: seq<MemoryConflict>, m: MemoryRecord) returns (i: nat)
    requires IsFoldedSide(cs, m)
    ensures i < |cs| && Decided(cs[i]) && m.id in Ids(cs[i].records)
  {
    hide Decided;
    var c :| c in cs && Decided(c) && m in c.records;
    i :| 0 <= i < |cs| && cs[i] == c;
  }

  /** After the folds the resolver reports exactly the conflicts that were not decided. */
  lemma ConflictsAfterFolds(l: Ledger, asOf: int, now: int, l1: Ledger)
    requires Sound(l) && FoldedInto(l, ConflictsAt(l, asOf), now, l1)
    ensures ConflictsAt(l1, asOf) == Filter(ConflictsAt(l, asOf), StillUndecided)
  {
    hide *;
    var cs := ConflictsAt(l, asOf);
    var before := Active(l.project, asOf, LiveMemories(l));
    var touched, kept := Touched(cs), Kept(l, cs, now);
    var after := Filter(before, NotAmong(touched)) + kept;
    FoldedIntoGives(l, cs, now, l1);
    ExtendsMeans(l, l1);
    LedgerIsRefolded(l, asOf, now);
    ActiveAfter(l, asOf, l1, touched, kept);
    ConflictsOfActive(l, asOf);
    ConflictsOfActive(l1, asOf);
    SubjectsAfter(before, cs, touched, kept);
    ConflictsAfter(before, cs, touched, kept, Subjects(before));
  }

  lemma ExtendsMeans(l: Ledger, l1: Ledger)
    requires Extends(l, l1)
    ensures l1.project == l.project
  {
  }

  lemma ConflictsOfActive(l: Ledger, asOf: int)
    ensures var active := Active(l.project, asOf, LiveMemories(l));
            ConflictsAt(l, asOf) == Conflicts(Groups(active, Subjects(active)))
  {
    EverythingActiveStands(l, asOf);
    hide Active, LiveMemories, Standing, Subjects, Groups, Conflicts;
  }

  lemma {:induction false} UndecidedProposalsDoNothing(l: Ledger, cs: seq<MemoryConflict>, now: int)
    requires forall c :: c in cs ==> !Decided(c)
    ensures ApplyAll(l, Proposals(cs), now) == (l, Ok(ApplyReport(0, 0, |cs|)))
  {
    hide Decided, ApplyOne, Proposals;
    if cs == [] {
      NoProposals(l, now);
    } else {
      var front := cs[..|cs| - 1];
      UndecidedProposalsDoNothing(l, front, now);
      ApplyAllUnfolds(l, cs, now);
      UndecidedIsLeftAlone(l, ApplyReport(0, 0, |front|), cs[|cs| - 1], now);
    }
  }

  lemma NoProposals(l: Ledger, now: int)
    ensures ApplyAll(l, Proposals([]), now) == (l, Ok(ApplyReport(0, 0, 0)))
  {
  }

  /**
   Reconciling reaches a fixpoint. On any sound ledger, `apply` succeeds; it leaves exactly the
   conflicts no rule could decide; the live memories shrink by exactly the number it reports as
   superseded; no stored version is lost; and applying again at the same instant, at whatever later
   clock reading, folds nothing and leaves the ledger as it is.
   */
  lemma ReconcileReachesAFixpoint(l: Ledger, asOf: int, now: int, later: int)
    requires Sound(l)
    ensures var cs := ConflictsAt(l, asOf);
            var (l1, result) := Apply(l, asOf, now);
            && result.Ok?
            && result.value.folded == DecidedCount(cs)
            && result.value.leftForYou == |cs| - DecidedCount(cs)
            && |LiveMemories(l1)| + result.value.superseded == |LiveMemories(l)|
            && Sound(l1) && l.versions <= l1.versions
            && ConflictsAt(l1, asOf) == Filter(cs, StillUndecided)
            && Apply(l1, asOf, later) == (l1, Ok(ApplyReport(0, 0, |Filter(cs, StillUndecided)|)))
  {
    hide *;
    var cs := ConflictsAt(l, asOf);
    var l1 := ApplyAll(l, Proposals(cs), now).0;
    ApplyMeans(l, asOf, now);
    ConflictsAreSeparate(l, asOf);
    ApplyMakesProgress(l, cs, now);
    ProgressedGives(l, cs, now);
    FoldedIntoGives(l, cs, now, l1);
    ExtendsVersions(l, l1);
    ReportMeans(cs, ReportOn(cs));
    ConflictsAfterFolds(l, asOf, now, l1);
    ApplyMeans(l1, asOf, later);
    NoneStillDecided(cs);
    UndecidedProposalsDoNothing(l1, Filter(cs, StillUndecided), later);
  }

  lemma ApplyMeans(l: Ledger, asOf: int, now: int)
    ensures Apply(l, asOf, now) == ApplyAll(l, Proposals(ConflictsAt(l, asOf)), now)
  {
  }

  lemma ExtendsVersions(l: Ledger, l1: Ledger)
    requires Extends(l, l1)
    ensures l.versions <= l1.versions
  {
  }

  lemma ReportMeans(cs: seq<MemoryConflict>, r: ApplyReport)
    requires SupersededCount(cs) >= 0 && r == ReportOn(cs)
    ensures r.folded == DecidedCount(cs)
    ensures r.superseded == SupersededCount(cs)
    ensures r.leftForYou + r.folded == |cs|
  {
    hide DecidedCount, SupersededCount;
  }

  lemma NoneStillDecided(cs: seq<MemoryConflict>)
    ensures forall c :: c in Filter(cs, StillUndecided) ==> !Decided(c)
  {
  }

  /** The order in which the ledger lists its live memories does not change what is proposed. */
  lemma ListingOrderDoesNotMatter(l: Ledger, asOf: int, listing: seq<MemoryRecord>)
    requires Sound(l) && multiset(listing) == multiset(LiveMemories(l))
    ensures Resolve(l.project, asOf, listing).conflicts == ConflictsAt(l, asOf)
  {
    VersionsIdentifyRecords(l);
    forall v | v in LiveMemories(l) ensures v in l.versions {
      LiveIsCurrent(l, v);
    }
    hide Sound, LiveMemories, Resolve;
    ResolveIgnoresOrder(l.project, asOf, LiveMemories(l), listing);
  }
}
