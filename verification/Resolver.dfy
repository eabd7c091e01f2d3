/** The resolver as it runs: drained vectors, an ordered map of groups, and sorts in place. */
module Resolver {
  import opened Common
  import opened Sequences
  import opened Memory
  import opened Supersession
  import Laws = SupersessionLaws

  /** Keep what is valid; what is in scope but not valid is history already. */
  method Partition(project: Uuid, asOf: int, candidates: seq<MemoryRecord>)
    returns (active: seq<MemoryRecord>, historical: seq<MemoryRecord>)
    ensures active == Active(project, asOf, candidates)
    ensures historical == Expired(project, asOf, candidates)
  {
    active, historical := [], [];
    var i := 0;
    while i < |candidates|
      invariant 0 <= i <= |candidates|
      invariant active == Active(project, asOf, candidates[..i])
      invariant historical == Expired(project, asOf, candidates[..i])
    {
      var record := candidates[i];
      FilterOfOneMore(candidates[..i], record, IsActive(project, asOf));
      FilterOfOneMore(candidates[..i], record, IsExpired(project, asOf));
      assert candidates[..i + 1] == candidates[..i] + [record];
      hide Filter, ValidAt;
      if InScope(project, record) {
        if ValidAt(asOf, record) {
          active := active + [record];
        } else {
          historical := historical + [record];
        }
      }
      i := i + 1;
    }
    assert candidates[..|candidates|] == candidates;
  }

  method SupersededVersions(active: seq<MemoryRecord>) returns (superseded: set<Uuid>)
    ensures superseded == Edges(active)
  {
    superseded := {};
    var i := 0;
    while i < |active|
      invariant 0 <= i <= |active|
      invariant superseded == Edges(active[..i])
    {
      superseded := superseded + set v | v in active[i].supersedes :: v;
      assert active[..i + 1] == active[..i] + [active[i]];
      i := i + 1;
    }
    assert active[..|active|] == active;
  }

  /** The ordered map from subject to records, as its ascending keys and their entries. */
  datatype OrderedGroups = OrderedGroups(keys: seq<string>, entries: map<string, seq<MemoryRecord>>)

  ghost predicate HoldsEntry(groups: OrderedGroups, standing: seq<MemoryRecord>, k: string) {
    if k in groups.keys then k in groups.entries && groups.entries[k] == Filter(standing, SubjectIs(k))
    else k !in groups.entries
  }

  ghost predicate Holds(groups: OrderedGroups, standing: seq<MemoryRecord>) {
    groups.keys == Subjects(standing) && forall k :: HoldsEntry(groups, standing, k)
  }

  lemma NoStandingForNewSubject(standing: seq<MemoryRecord>, subject: string)
    requires subject !in Subjects(standing)
    ensures Filter(standing, SubjectIs(subject)) == []
  {
    SubjectsAreKeys(standing);
    FilterNone(standing, SubjectIs(subject));
  }

  lemma KeysAfterPush(standing: seq<MemoryRecord>, record: MemoryRecord)
    ensures Subjects(standing + [record]) == InsertSubject(SubjectKey(record), Subjects(standing))
  {
    assert (standing + [record])[..|standing|] == standing;
  }

  lemma EntryAfterPush(standing: seq<MemoryRecord>, record: MemoryRecord, k: string)
    ensures Filter(standing + [record], SubjectIs(k))
         == Filter(standing, SubjectIs(k)) + if SubjectKey(record) == k then [record] else []
  {
    FilterOfOneMore(standing, record, SubjectIs(k));
  }

  lemma PushedEntryHolds(groups: OrderedGroups, standing: seq<MemoryRecord>, record: MemoryRecord, r: OrderedGroups, k: string)
    requires groups.keys == Subjects(standing) && HoldsEntry(groups, standing, k)
    requires var key := SubjectKey(record);
             && r.keys == InsertSubject(key, groups.keys)
             && r.entries == groups.entries[key := (if key in groups.entries then groups.entries[key] else []) + [record]]
    ensures HoldsEntry(r, standing + [record], k)
  {
    EntryAfterPush(standing, record, k);
    EmptyTail(Filter(standing, SubjectIs(k)));
    if k !in groups.keys {
      NoStandingForNewSubject(standing, k);
    }
    hide InsertSubject, SubjectKey, Subjects, Filter;
  }

  method PushToGroup(groups: OrderedGroups, record: MemoryRecord, ghost standing: seq<MemoryRecord>) returns (r: OrderedGroups)
    requires Holds(groups, standing)
    ensures Holds(r, standing + [record])
  {
    hide InsertSubject, SubjectKey, Subjects, HoldsEntry;
    var key := SubjectKey(record);
    var entry := if key in groups.entries then groups.entries[key] else [];
    r := OrderedGroups(InsertSubject(key, groups.keys), groups.entries[key := entry + [record]]);
    KeysAfterPush(standing, record);
    forall k ensures HoldsEntry(r, standing + [record], k) {
      PushedEntryHolds(groups, standing, record, r, k);
    }
  }

  lemma EmptyTail<T>(s: seq<T>)
    ensures s + [] == s
  {
  }

  method GroupOneMore(groups: OrderedGroups, replaced: seq<MemoryRecord>, record: MemoryRecord, superseded: set<Uuid>,
                      ghost before: seq<MemoryRecord>)
    returns (r: OrderedGroups, nowReplaced: seq<MemoryRecord>)
    requires Holds(groups, Filter(before, VersionNotIn(superseded))) && replaced == Filter(before, VersionIn(superseded))
    ensures Holds(r, Filter(before + [record], VersionNotIn(superseded)))
    ensures nowReplaced == Filter(before + [record], VersionIn(superseded))
  {
    FilterOfOneMore(before, record, VersionNotIn(superseded));
    FilterOfOneMore(before, record, VersionIn(superseded));
    EmptyTail(Filter(before, VersionNotIn(superseded)));
    EmptyTail(replaced);
    hide Holds, Filter;
    if record.versionId in superseded {
      r, nowReplaced := groups, replaced + [record];
    } else {
      r := PushToGroup(groups, record, Filter(before, VersionNotIn(superseded)));
      nowReplaced := replaced;
    }
  }

  lemma NothingHeld(superseded: set<Uuid>)
    ensures Holds(OrderedGroups([], map[]), Filter([], VersionNotIn(superseded))) && Filter([], VersionIn(superseded)) == []
  {
  }

  /** Move superseded records to the history and group the rest by subject. */
  method GroupStanding(active: seq<MemoryRecord>, superseded: set<Uuid>) returns (groups: OrderedGroups, replaced: seq<MemoryRecord>)
    ensures Holds(groups, Filter(active, VersionNotIn(superseded)))
    ensures replaced == Filter(active, VersionIn(superseded))
  {
    NothingHeld(superseded);
    hide Holds, Filter;
    groups, replaced := OrderedGroups([], map[]), [];
    assert active[..0] == [];
    var i := 0;
    while i < |active|
      invariant 0 <= i <= |active|
      invariant Holds(groups, Filter(active[..i], VersionNotIn(superseded)))
      invariant replaced == Filter(active[..i], VersionIn(superseded))
    {
      groups, replaced := GroupOneMore(groups, replaced, active[i], superseded, active[..i]);
      assert active[..i + 1] == active[..i] + [active[i]];
      i := i + 1;
    }
    assert active[..|active|] == active;
  }

  method CountContenders(group: seq<MemoryRecord>) returns (n: nat)
    ensures n == if group == [] then 0 else TieCount(group, Rank(group[0]))
  {
    n := 0;
    while n < |group| && Rank(group[n]) == Rank(group[0])
      invariant 0 <= n <= |group|
      invariant forall i :: 0 <= i < n ==> Rank(group[i]) == Rank(group[0])
    {
      n := n + 1;
    }
  }

  /** More than one distinct text, ignoring case and spacing, means the contenders are contested. */
  method Disagree(contenders: seq<MemoryRecord>) returns (contested: bool)
    ensures contested <==> Contested(contenders)
  {
    var distinct: set<string> := {};
    var i := 0;
    while i < |contenders|
      invariant 0 <= i <= |contenders|
      invariant forall text :: text in distinct <==>
                  exists j :: 0 <= j < i && NormalizeContent(contenders[j].content) == text
    {
      distinct := distinct + {NormalizeContent(contenders[i].content)};
      i := i + 1;
    }
    contested := |distinct| > 1;
    ManyTextsMeanDisagreement(contenders, distinct);
  }

  lemma ManyTextsMeanDisagreement(contenders: seq<MemoryRecord>, distinct: set<string>)
    requires forall text :: text in distinct <==>
               exists j :: 0 <= j < |contenders| && NormalizeContent(contenders[j].content) == text
    ensures |distinct| > 1 <==> Contested(contenders)
  {
    hide NormalizeContent;
    if Contested(contenders) {
      var i :| 0 <= i < |contenders| && NormalizeContent(contenders[i].content) != NormalizeContent(contenders[0].content);
      SubsetIsSmaller({NormalizeContent(contenders[i].content), NormalizeContent(contenders[0].content)}, distinct);
    } else if contenders == [] {
      assert distinct == {};
    } else {
      assert distinct <= {NormalizeContent(contenders[0].content)};
      SubsetIsSmaller(distinct, {NormalizeContent(contenders[0].content)});
    }
  }

  lemma {:induction false} SubsetIsSmaller(a: set<string>, b: set<string>)
    requires a <= b
    ensures |a| <= |b|
  {
    if a != {} {
      var x :| x in a;
      SubsetIsSmaller(a - {x}, b - {x});
    }
  }

  /** Pass the verdict on one group: a winner, a conflict, and what becomes history. */
  method Verdict(subject: string, entry: seq<MemoryRecord>)
    returns (winner: seq<MemoryRecord>, conflict: seq<MemoryConflict>, leftovers: seq<MemoryRecord>)
    ensures var records := Sort(entry, PriorityLeq);
            winner == WinnerOf(records) && conflict == ConflictOf(SubjectGroup(subject, records))
            && leftovers == LeftoversOf(records)
  {
    var records := Sort(entry, PriorityLeq);
    var n := CountContenders(records);
    var contenders, rest := records[..n], records[n..];
    assert contenders == Contenders(records) && rest == Outranked(records);
    hide Contenders, Outranked, Sort;
    var contested := Disagree(contenders);
    winner, conflict, leftovers := [], [], [];
    if contested {
      conflict := [MemoryConflict(subject, contenders)];
    } else if contenders != [] {
      winner := [contenders[0]];
      leftovers := contenders[1..];
    }
    leftovers := leftovers + rest;
  }

  /** What the verdicts on some groups add up to. */
  datatype Verdicts = Verdicts(current: seq<MemoryRecord>, conflicts: seq<MemoryConflict>, leftovers: seq<MemoryRecord>)

  ghost function VerdictsOn(standing: seq<MemoryRecord>, subjects: seq<string>): Verdicts {
    var groups := Groups(standing, subjects);
    Verdicts(Winners(groups), Conflicts(groups), Leftovers(groups))
  }

  method JudgeOneMore(verdicts: Verdicts, groups: OrderedGroups, i: nat, ghost standing: seq<MemoryRecord>)
    returns (r: Verdicts)
    requires Holds(groups, standing) && i < |groups.keys| && verdicts == VerdictsOn(standing, groups.keys[..i])
    ensures r == VerdictsOn(standing, groups.keys[..i + 1])
  {
    hide Subjects, WinnerOf, ConflictOf, LeftoversOf, VerdictsOn;
    var subject := groups.keys[i];
    assert HoldsEntry(groups, standing, subject);
    var winner, conflict, rest := Verdict(subject, groups.entries[subject]);
    r := Verdicts(verdicts.current + winner, verdicts.conflicts + conflict, verdicts.leftovers + rest);
    assert groups.keys[..i + 1] == groups.keys[..i] + [subject];
    VerdictsOnOneMore(standing, groups.keys[..i], subject);
  }

  lemma VerdictsOnOneMore(standing: seq<MemoryRecord>, subjects: seq<string>, subject: string)
    ensures var before, after := VerdictsOn(standing, subjects), VerdictsOn(standing, subjects + [subject]);
            var group := SubjectGroup(subject, Group(standing, subject));
            after == Verdicts(before.current + WinnerOf(group.records), before.conflicts + ConflictOf(group),
                              before.leftovers + LeftoversOf(group.records))
  {
    hide WinnerOf, ConflictOf, LeftoversOf, Group;
    assert (subjects + [subject])[..|subjects|] == subjects;
    GroupsOfFront(standing, subjects + [subject]);
  }

  /** Pass the verdicts in the map's key order. */
  method PassVerdicts(groups: OrderedGroups, ghost standing: seq<MemoryRecord>) returns (verdicts: Verdicts)
    requires Holds(groups, standing)
    ensures verdicts == VerdictsOn(standing, Subjects(standing))
  {
    verdicts := Verdicts([], [], []);
    var i := 0;
    while i < |groups.keys|
      invariant 0 <= i <= |groups.keys|
      invariant verdicts == VerdictsOn(standing, groups.keys[..i])
    {
      hide VerdictsOn;
      verdicts := JudgeOneMore(verdicts, groups, i, standing);
      i := i + 1;
    }
    assert groups.keys[..|groups.keys|] == groups.keys;
  }

  // ----- The closing sorts -----

  predicate WinnerOrder(left: MemoryRecord, right: MemoryRecord) {
    StringLeq(SubjectKey(left), SubjectKey(right))
  }

  predicate ConflictOrder(left: MemoryConflict, right: MemoryConflict) {
    StringLeq(left.subject, right.subject)
  }

  lemma WinnersAreInOrder(standing: seq<MemoryRecord>)
    ensures Sort(Winners(Groups(standing, Subjects(standing))), WinnerOrder) == Winners(Groups(standing, Subjects(standing)))
  {
    SubjectsAscend(standing);
    Laws.WinnersAscend(standing, Subjects(standing));
    var winners := Winners(Groups(standing, Subjects(standing)));
    hide SubjectKey, StringLeq, Winners, Subjects, Groups;
    assert forall i :: 0 <= i < |winners| ==> Laws.Keys(winners)[i] == SubjectKey(winners[i]);
    SortOfSorted(winners, WinnerOrder);
  }

  ghost predicate ConflictsAscend(conflicts: seq<MemoryConflict>) {
    forall i, j :: 0 <= i < j < |conflicts| ==> StringLess(conflicts[i].subject, conflicts[j].subject)
  }

  ghost predicate ConflictsOn(conflicts: seq<MemoryConflict>, subjects: seq<string>) {
    forall c :: c in conflicts ==> c.subject in subjects
  }

  lemma {:induction false} ConflictsInSubjectOrder(standing: seq<MemoryRecord>, subjects: seq<string>)
    requires Ascending(subjects)
    ensures ConflictsAscend(Conflicts(Groups(standing, subjects)))
    ensures ConflictsOn(Conflicts(Groups(standing, subjects)), subjects)
  {
    hide StringLess, Group, ConflictOf;
    if subjects != [] {
      var front, subject := subjects[..|subjects| - 1], subjects[|subjects| - 1];
      GroupsOfFront(standing, subjects);
      ConflictsInSubjectOrder(standing, front);
      assert subjects == front + [subject];
      var before := Conflicts(Groups(standing, front));
      var last := ConflictOf(SubjectGroup(subject, Group(standing, subject)));
      ConflictIsOnSubject(SubjectGroup(subject, Group(standing, subject)));
      hide ConflictsAscend, ConflictsOn;
      assert Conflicts(Groups(standing, subjects)) == before + last;
      OneMoreConflict(before, last, front, subject);
    }
  }

  lemma ConflictIsOnSubject(group: SubjectGroup)
    ensures |ConflictOf(group)| <= 1 && (ConflictOf(group) != [] ==> ConflictOf(group)[0].subject == group.subject)
  {
  }

  lemma OneMoreConflict(before: seq<MemoryConflict>, last: seq<MemoryConflict>, front: seq<string>, subject: string)
    requires ConflictsAscend(before) && ConflictsOn(before, front)
    requires forall s :: s in front ==> StringLess(s, subject)
    requires |last| <= 1 && (last != [] ==> last[0].subject == subject)
    ensures ConflictsAscend(before + last) && ConflictsOn(before + last, front + [subject])
  {
    hide StringLess;
    var all := before + last;
    forall i, j | 0 <= i < j < |all| ensures StringLess(all[i].subject, all[j].subject) {
      assert all[i] == before[i] && before[i] in before;
    }
  }

  lemma ConflictsAreInOrder(standing: seq<MemoryRecord>)
    ensures Sort(Conflicts(Groups(standing, Subjects(standing))), ConflictOrder)
         == Conflicts(Groups(standing, Subjects(standing)))
  {
    SubjectsAscend(standing);
    ConflictsInSubjectOrder(standing, Subjects(standing));
    hide StringLeq, Conflicts, Subjects, Groups;
    SortOfSorted(Conflicts(Groups(standing, Subjects(standing))), ConflictOrder);
  }

  /**
   The whole resolver. The closing sorts of winners and conflicts move nothing, because the groups
   were visited in subject order.
   */
  method ResolveCandidates(project: Uuid, asOf: int, candidates: seq<MemoryRecord>) returns (r: ResolvedMemorySet)
    ensures r == Resolve(project, asOf, candidates)
  {
    var active, expired := Partition(project, asOf, candidates);
    var superseded := SupersededVersions(active);
    var groups, replaced := GroupStanding(active, superseded);
    var verdicts := PassVerdicts(groups, Standing(active));
    WinnersAreInOrder(Standing(active));
    ConflictsAreInOrder(Standing(active));
    hide Winners, Conflicts, Leftovers, Subjects, Groups, Filter, Edges, Sort;
    var current := Sort(verdicts.current, WinnerOrder);
    var historical := Sort(expired + replaced + verdicts.leftovers, NewestFirst);
    var conflicts := Sort(verdicts.conflicts, ConflictOrder);
    r := ResolvedMemorySet(current, historical, conflicts);
  }
}
