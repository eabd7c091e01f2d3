/** Choosing what the compiler packs: the order of memories, and which other sessions to show. */
module Selection {
  import opened Common
  import opened Sequences
  import opened Memory

  // ----- Ranking memories -----

  /** A memory's place in the ranking; of an id ranked twice, the later place counts. */
  function Place(ranking: seq<Uuid>, id: Uuid): Option<nat> {
    if ranking == [] then None
    else if ranking[|ranking| - 1] == id then Some(|ranking| - 1)
    else Place(ranking[..|ranking| - 1], id)
  }

  /** Fresh before stale, then by place, with unranked memories last. */
  predicate ComesFirst(ranking: seq<Uuid>, stale: set<Uuid>, left: MemoryRecord, right: MemoryRecord) {
    if (left.id in stale) != (right.id in stale) then right.id in stale
    else
      var l, r := Place(ranking, left.id), Place(ranking, right.id);
      r.None? || (l.Some? && l.value <= r.value)
  }

  function ByRank(ranking: seq<Uuid>, stale: set<Uuid>): (MemoryRecord, MemoryRecord) -> bool {
    (left, right) => ComesFirst(ranking, stale, left, right)
  }

  function ApplyRanking(memories: seq<MemoryRecord>, ranking: seq<Uuid>, stale: set<Uuid>): seq<MemoryRecord> {
    if ranking == [] && stale == {} then memories else Sort(memories, ByRank(ranking, stale))
  }

  /** One half of the memories, ranked at one place or not at all. */
  function InClass(ranking: seq<Uuid>, stale: set<Uuid>, isStale: bool, place: Option<nat>): MemoryRecord -> bool {
    (m: MemoryRecord) => (m.id in stale) == isStale && Place(ranking, m.id) == place
  }

  /**
   Ranking loses and adds no memory. It puts fresh memories before stale ones and each half in the
   ranker's order, and memories the ranker did not tell apart keep their order.
   */
  lemma RankingMeans(memories: seq<MemoryRecord>, ranking: seq<Uuid>, stale: set<Uuid>, isStale: bool, place: Option<nat>)
    ensures var ranked := ApplyRanking(memories, ranking, stale);
            && multiset(ranked) == multiset(memories)
            && (forall i, j :: 0 <= i < j < |ranked| ==> ComesFirst(ranking, stale, ranked[i], ranked[j]))
            && Filter(ranked, InClass(ranking, stale, isStale, place)) == Filter(memories, InClass(ranking, stale, isStale, place))
  {
    hide Place, Sort, Filter;
    if ranking == [] && stale == {} {
      NothingRanked();
    } else {
      RankIsTotal(ranking, stale);
      hide ComesFirst;
      SortSorts(memories, ByRank(ranking, stale));
      ClassIsLevel(ranking, stale, isStale, place);
      SortIsStable(memories, ByRank(ranking, stale), InClass(ranking, stale, isStale, place));
      var ranked := ApplyRanking(memories, ranking, stale);
      forall i, j | 0 <= i < j < |ranked| ensures ComesFirst(ranking, stale, ranked[i], ranked[j]) {
        assert ByRank(ranking, stale)(ranked[i], ranked[j]);
      }
    }
  }

  /** The last place a ranking gives an id. */
  predicate IsPlace(ranking: seq<Uuid>, id: Uuid, i: nat) {
    i < |ranking| && ranking[i] == id && forall j :: i < j < |ranking| ==> ranking[j] != id
  }

  lemma {:induction false} PlaceIff(ranking: seq<Uuid>, id: Uuid)
    ensures Place(ranking, id).None? <==> id !in ranking
    ensures Place(ranking, id).Some? ==> IsPlace(ranking, id, Place(ranking, id).value)
  {
    if ranking != [] && ranking[|ranking| - 1] != id {
      var front := ranking[..|ranking| - 1];
      assert ranking == front + [ranking[|ranking| - 1]];
      PlaceIff(front, id);
    }
  }

  /** Whatever comes later in the ranking is stale, or as fresh and unranked or at no earlier a place. */
  lemma RankingOrders(memories: seq<MemoryRecord>, ranking: seq<Uuid>, stale: set<Uuid>, i: nat, j: nat)
    requires i < j < |ApplyRanking(memories, ranking, stale)|
    ensures var a, b := ApplyRanking(memories, ranking, stale)[i].id, ApplyRanking(memories, ranking, stale)[j].id;
            if a in stale then
              b in stale && (b in ranking ==> exists m: nat, n: nat :: IsPlace(ranking, a, m) && IsPlace(ranking, b, n) && m <= n)
            else
              b in stale || (b in ranking ==> exists m: nat, n: nat :: IsPlace(ranking, a, m) && IsPlace(ranking, b, n) && m <= n)
  {
    RankingMeans(memories, ranking, stale, false, None);
    var ranked := ApplyRanking(memories, ranking, stale);
    PlaceIff(ranking, ranked[i].id);
    PlaceIff(ranking, ranked[j].id);
    hide ApplyRanking, Place, IsPlace;
    assert ComesFirst(ranking, stale, ranked[i], ranked[j]);
  }

  lemma NothingRanked()
    ensures forall id :: Place([], id) == None
  {
  }

  lemma RankIsTotal(ranking: seq<Uuid>, stale: set<Uuid>)
    ensures TotalPreorder(ByRank(ranking, stale))
  {
    hide Place;
  }

  lemma ClassIsLevel(ranking: seq<Uuid>, stale: set<Uuid>, isStale: bool, place: Option<nat>)
    ensures forall a, b :: InClass(ranking, stale, isStale, place)(a) && InClass(ranking, stale, isStale, place)(b) ==>
              ByRank(ranking, stale)(a, b)
  {
    hide Place;
  }

  // ----- Other sessions -----

  /** An event as far as the choice looks at it; `text` is absent when nothing readable is in it. */
  datatype Evidence = Evidence(eventId: Uuid, session: string, speaks: bool, text: Option<string>)

  const MAX_OTHER_SESSIONS := 4

  predicate Eligible(e: Evidence, cited: set<Uuid>, anchors: set<string>) {
    e.eventId !in cited && e.session !in anchors && e.speaks
  }

  datatype Continuity = Continuity(sessions: set<string>, chosen: seq<Evidence>)

  function ConsiderEvent(c: Continuity, e: Evidence, cited: set<Uuid>, anchors: set<string>): Continuity {
    if !Eligible(e, cited, anchors) || |c.sessions| >= MAX_OTHER_SESSIONS || e.session in c.sessions then c
    else Continuity(c.sessions + {e.session}, c.chosen + if e.text.Some? then [e] else [])
  }

  function Continue(events: seq<Evidence>, cited: set<Uuid>, anchors: set<string>): Continuity {
    if events == [] then Continuity({}, [])
    else ConsiderEvent(Continue(events[..|events| - 1], cited, anchors), events[|events| - 1], cited, anchors)
  }

  /** The loop, which stops looking once four sessions were met. */
  method PushCrossSessionContinuity(events: seq<Evidence>, cited: set<Uuid>, anchors: set<string>) returns (chosen: seq<Evidence>)
    ensures chosen == Continue(events, cited, anchors).chosen
  {
    hide Eligible;
    var c := Continuity({}, []);
    var i := 0;
    while i < |events|
      invariant 0 <= i <= |events|
      invariant Continue(events[..i], cited, anchors) == c
    {
      var e := events[i];
      ContinueOneMore(events, i, cited, anchors);
      hide Continue;
      if Eligible(e, cited, anchors) {
        if |c.sessions| >= MAX_OTHER_SESSIONS {
          FullStaysFull(events, i, cited, anchors);
          return c.chosen;
        }
        if e.session !in c.sessions {
          c := Continuity(c.sessions + {e.session}, c.chosen + if e.text.Some? then [e] else []);
        }
      }
      i := i + 1;
    }
    assert events[..|events|] == events;
    return c.chosen;
  }

  lemma ContinueOneMore(events: seq<Evidence>, i: nat, cited: set<Uuid>, anchors: set<string>)
    requires i < |events|
    ensures Continue(events[..i + 1], cited, anchors) == ConsiderEvent(Continue(events[..i], cited, anchors), events[i], cited, anchors)
  {
    assert events[..i + 1][..i] == events[..i];
  }

  lemma {:induction false} FullStaysFull(events: seq<Evidence>, i: nat, cited: set<Uuid>, anchors: set<string>)
    requires i <= |events| && |Continue(events[..i], cited, anchors).sessions| >= MAX_OTHER_SESSIONS
    ensures Continue(events, cited, anchors) == Continue(events[..i], cited, anchors)
    decreases |events| - i
  {
    if i == |events| {
      assert events[..i] == events;
    } else {
      assert events[..i + 1][..i] == events[..i];
      FullStaysFull(events, i + 1, cited, anchors);
    }
  }

  /** The first eligible event of its session. */
  ghost predicate Introduces(events: seq<Evidence>, i: nat, cited: set<Uuid>, anchors: set<string>) {
    && i < |events| && Eligible(events[i], cited, anchors)
    && forall j :: 0 <= j < i && events[j].session == events[i].session ==> !Eligible(events[j], cited, anchors)
  }

  ghost predicate ChosenWell(events: seq<Evidence>, c: Continuity, cited: set<Uuid>, anchors: set<string>) {
    && |c.sessions| <= MAX_OTHER_SESSIONS && |c.chosen| <= |c.sessions|
    && (forall e :: e in c.chosen ==> e.session in c.sessions && e.text.Some?)
    && (forall i, j :: 0 <= i < j < |c.chosen| ==> c.chosen[i].session != c.chosen[j].session)
    && (forall e :: e in c.chosen ==> IsIntroduction(events, e, cited, anchors))
  }

  ghost predicate IsIntroduction(events: seq<Evidence>, e: Evidence, cited: set<Uuid>, anchors: set<string>) {
    exists i: nat :: Introduces(events, i, cited, anchors) && events[i] == e
  }

  ghost predicate MetAll(events: seq<Evidence>, c: Continuity, cited: set<Uuid>, anchors: set<string>) {
    |c.sessions| < MAX_OTHER_SESSIONS ==>
      forall i :: 0 <= i < |events| && Eligible(events[i], cited, anchors) ==> events[i].session in c.sessions
  }

  lemma IntroductionStays(events: seq<Evidence>, more: Evidence, e: Evidence, cited: set<Uuid>, anchors: set<string>)
    requires IsIntroduction(events, e, cited, anchors)
    ensures IsIntroduction(events + [more], e, cited, anchors)
  {
    hide Eligible;
    var i: nat :| Introduces(events, i, cited, anchors) && events[i] == e;
    assert forall j :: 0 <= j < |events| ==> (events + [more])[j] == events[j];
    assert Introduces(events + [more], i, cited, anchors);
  }

  lemma NewSessionIsIntroduced(events: seq<Evidence>, c: Continuity, e: Evidence, cited: set<Uuid>, anchors: set<string>)
    requires MetAll(events, c, cited, anchors) && |c.sessions| < MAX_OTHER_SESSIONS
    requires Eligible(e, cited, anchors) && e.session !in c.sessions
    ensures IsIntroduction(events + [e], e, cited, anchors)
  {
    hide Eligible;
    assert forall j :: 0 <= j < |events| ==> (events + [e])[j] == events[j];
    assert Introduces(events + [e], |events|, cited, anchors);
  }

  lemma ConsiderKeeps(events: seq<Evidence>, c: Continuity, e: Evidence, cited: set<Uuid>, anchors: set<string>)
    requires ChosenWell(events, c, cited, anchors) && MetAll(events, c, cited, anchors)
    ensures ChosenWell(events + [e], ConsiderEvent(c, e, cited, anchors), cited, anchors)
  {
    hide Eligible, IsIntroduction;
    if Eligible(e, cited, anchors) && |c.sessions| < MAX_OTHER_SESSIONS && e.session !in c.sessions {
      NewSessionIsIntroduced(events, c, e, cited, anchors);
    }
    hide MetAll;
    var c1 := ConsiderEvent(c, e, cited, anchors);
    forall x | x in c1.chosen ensures IsIntroduction(events + [e], x, cited, anchors) {
      if x in c.chosen {
        IntroductionStays(events, e, x, cited, anchors);
      }
    }
  }

  lemma ConsiderMeets(events: seq<Evidence>, c: Continuity, e: Evidence, cited: set<Uuid>, anchors: set<string>)
    requires MetAll(events, c, cited, anchors)
    ensures MetAll(events + [e], ConsiderEvent(c, e, cited, anchors), cited, anchors)
  {
    hide Eligible;
    var more := events + [e];
    assert forall j :: 0 <= j < |events| ==> more[j] == events[j];
  }

  /**
   At most four other sessions are shown, each once, by the first event of it that speaks, is not
   cited already and is not from an anchor session; and if fewer than four were met, none was missed.
   */
  lemma {:induction false} ContinuityMeans(events: seq<Evidence>, cited: set<Uuid>, anchors: set<string>)
    ensures ChosenWell(events, Continue(events, cited, anchors), cited, anchors)
    ensures MetAll(events, Continue(events, cited, anchors), cited, anchors)
  {
    hide Eligible;
    if events != [] {
      var front, e := events[..|events| - 1], events[|events| - 1];
      assert events == front + [e];
      ContinuityMeans(front, cited, anchors);
      hide ChosenWell, MetAll;
      ConsiderKeeps(front, Continue(front, cited, anchors), e, cited, anchors);
      ConsiderMeets(front, Continue(front, cited, anchors), e, cited, anchors);
    }
  }

  /** The events before a place that are the first eligible one of their session. */
  ghost function Introductions(events: seq<Evidence>, n: nat, cited: set<Uuid>, anchors: set<string>): set<nat> {
    set j: nat | j < n && Introduces(events, j, cited, anchors)
  }

  /** The event introduces one of the first four sessions, and has a text to show. */
  ghost predicate IsShown(events: seq<Evidence>, i: nat, cited: set<Uuid>, anchors: set<string>) {
    Introduces(events, i, cited, anchors) && events[i].text.Some? && |Introductions(events, i, cited, anchors)| < 4
  }

  /** What was chosen is what is shown, at these ascending places. */
  ghost predicate ShownAt(events: seq<Evidence>, chosen: seq<Evidence>, at: seq<nat>, cited: set<Uuid>, anchors: set<string>) {
    && |at| == |chosen|
    && (forall k :: 0 <= k < |at| ==> at[k] < |events| && events[at[k]] == chosen[k])
    && (forall k, m :: 0 <= k < m < |at| ==> at[k] < at[m])
    && (forall i: nat :: i in at <==> IsShown(events, i, cited, anchors))
  }

  /** Which events are eligible: not cited, of no anchor session, and by a speaker. */
  lemma EligibleIff(e: Evidence, cited: set<Uuid>, anchors: set<string>)
    ensures Eligible(e, cited, anchors) <==> e.eventId !in cited && e.session !in anchors && e.speaks
  {
  }

  lemma IntroducesInFront(events: seq<Evidence>, e: Evidence, i: nat, cited: set<Uuid>, anchors: set<string>)
    requires i < |events|
    ensures Introduces(events + [e], i, cited, anchors) <==> Introduces(events, i, cited, anchors)
  {
    hide Eligible;
    assert forall j :: 0 <= j < |events| ==> (events + [e])[j] == events[j];
  }

  lemma IntroductionsInFront(events: seq<Evidence>, e: Evidence, i: nat, cited: set<Uuid>, anchors: set<string>)
    requires i <= |events|
    ensures Introductions(events + [e], i, cited, anchors) == Introductions(events, i, cited, anchors)
  {
    forall j: nat | j < i ensures Introduces(events + [e], j, cited, anchors) <==> Introduces(events, j, cited, anchors) {
      IntroducesInFront(events, e, j, cited, anchors);
    }
    hide Introduces;
  }

  lemma ShownInFront(events: seq<Evidence>, e: Evidence, i: nat, cited: set<Uuid>, anchors: set<string>)
    requires i < |events|
    ensures IsShown(events + [e], i, cited, anchors) <==> IsShown(events, i, cited, anchors)
  {
    IntroducesInFront(events, e, i, cited, anchors);
    IntroductionsInFront(events, e, i, cited, anchors);
    hide Introduces, Introductions;
  }

  lemma OneMoreIntroduction(events: seq<Evidence>, e: Evidence, cited: set<Uuid>, anchors: set<string>)
    ensures var n := |events|;
            Introductions(events + [e], n + 1, cited, anchors) ==
            Introductions(events, n, cited, anchors) + if Introduces(events + [e], n, cited, anchors) then {n} else {}
  {
    IntroductionsInFront(events, e, |events|, cited, anchors);
    hide Introduces;
  }

  /** Every session met has an eligible event. */
  ghost predicate AllMet(events: seq<Evidence>, sessions: set<string>, cited: set<Uuid>, anchors: set<string>) {
    forall s :: s in sessions ==> IsMet(events, s, cited, anchors)
  }

  ghost predicate IsMet(events: seq<Evidence>, session: string, cited: set<Uuid>, anchors: set<string>) {
    exists i :: 0 <= i < |events| && Eligible(events[i], cited, anchors) && events[i].session == session
  }

  lemma MetStays(events: seq<Evidence>, e: Evidence, session: string, cited: set<Uuid>, anchors: set<string>)
    ensures IsMet(events, session, cited, anchors) ==> IsMet(events + [e], session, cited, anchors)
    ensures Eligible(e, cited, anchors) ==> IsMet(events + [e], e.session, cited, anchors)
  {
    hide Eligible;
    assert (events + [e])[|events|] == e;
    if i :| 0 <= i < |events| && Eligible(events[i], cited, anchors) && events[i].session == session {
      assert (events + [e])[i] == events[i];
    }
  }

  lemma NewIffIntroduced(events: seq<Evidence>, c: Continuity, e: Evidence, cited: set<Uuid>, anchors: set<string>)
    requires MetAll(events, c, cited, anchors) && AllMet(events, c.sessions, cited, anchors) && |c.sessions| < MAX_OTHER_SESSIONS
    ensures Introduces(events + [e], |events|, cited, anchors) <==> Eligible(e, cited, anchors) && e.session !in c.sessions
  {
    hide Eligible;
    var more := events + [e];
    assert forall j :: 0 <= j < |events| ==> more[j] == events[j];
    if Eligible(e, cited, anchors) && e.session in c.sessions {
      assert IsMet(events, e.session, cited, anchors);
      var i :| 0 <= i < |events| && Eligible(events[i], cited, anchors) && events[i].session == e.session;
      assert more[i].session == e.session && Eligible(more[i], cited, anchors);
    }
  }

  /** As many sessions are met as were introduced, up to four. */
  ghost predicate CountsSessions(events: seq<Evidence>, c: Continuity, cited: set<Uuid>, anchors: set<string>) {
    |c.sessions| == Min(4, |Introductions(events, |events|, cited, anchors)|) && AllMet(events, c.sessions, cited, anchors)
  }

  lemma ConsiderMeetsOnly(events: seq<Evidence>, c: Continuity, e: Evidence, cited: set<Uuid>, anchors: set<string>)
    requires AllMet(events, c.sessions, cited, anchors)
    ensures AllMet(events + [e], ConsiderEvent(c, e, cited, anchors).sessions, cited, anchors)
  {
    hide Eligible, IsMet;
    forall s | s in ConsiderEvent(c, e, cited, anchors).sessions ensures IsMet(events + [e], s, cited, anchors) {
      MetStays(events, e, s, cited, anchors);
    }
  }

  lemma IntroductionsGrow(events: seq<Evidence>, e: Evidence, cited: set<Uuid>, anchors: set<string>)
    ensures var more := events + [e];
            |Introductions(more, |more|, cited, anchors)| == |Introductions(events, |events|, cited, anchors)|
              + if Introduces(more, |events|, cited, anchors) then 1 else 0
  {
    OneMoreIntroduction(events, e, cited, anchors);
    PlaceIsNew(events, cited, anchors);
    hide Introduces, Introductions;
  }

  lemma ConsiderCounts(events: seq<Evidence>, c: Continuity, e: Evidence, cited: set<Uuid>, anchors: set<string>)
    requires MetAll(events, c, cited, anchors) && CountsSessions(events, c, cited, anchors)
    ensures CountsSessions(events + [e], ConsiderEvent(c, e, cited, anchors), cited, anchors)
  {
    IntroductionsGrow(events, e, cited, anchors);
    ConsiderMeetsOnly(events, c, e, cited, anchors);
    if |c.sessions| < MAX_OTHER_SESSIONS {
      NewIffIntroduced(events, c, e, cited, anchors);
    }
    hide Eligible, Introduces, Introductions, MetAll, AllMet;
  }

  lemma PlaceIsNew(events: seq<Evidence>, cited: set<Uuid>, anchors: set<string>)
    ensures |events| !in Introductions(events, |events|, cited, anchors)
  {
  }

  lemma ShownStays(events: seq<Evidence>, chosen: seq<Evidence>, at: seq<nat>, e: Evidence, cited: set<Uuid>, anchors: set<string>)
    requires ShownAt(events, chosen, at, cited, anchors)
    ensures !IsShown(events + [e], |events|, cited, anchors) ==> ShownAt(events + [e], chosen, at, cited, anchors)
    ensures IsShown(events + [e], |events|, cited, anchors) ==> ShownAt(events + [e], chosen + [e], at + [|events|], cited, anchors)
  {
    var more := events + [e];
    forall i: nat | i < |events| ensures IsShown(more, i, cited, anchors) <==> IsShown(events, i, cited, anchors) {
      ShownInFront(events, e, i, cited, anchors);
    }
    ShownIsInside(events, cited, anchors);
    ShownIsInside(more, cited, anchors);
    hide IsShown;
    assert forall k :: 0 <= k < |events| ==> more[k] == events[k];
    assert more[|events|] == e;
  }

  lemma ShownIsInside(events: seq<Evidence>, cited: set<Uuid>, anchors: set<string>)
    ensures forall i: nat :: IsShown(events, i, cited, anchors) ==> i < |events|
  {
  }

  /**
   Exactly which events are chosen, in the order they came: the one that introduces each of the first
   four sessions, where it has a text to show.
   */
  lemma {:induction false} ContinuityShows(events: seq<Evidence>, cited: set<Uuid>, anchors: set<string>) returns (at: seq<nat>)
    ensures ShownAt(events, Continue(events, cited, anchors).chosen, at, cited, anchors)
    ensures CountsSessions(events, Continue(events, cited, anchors), cited, anchors)
  {
    hide Eligible;
    if events == [] {
      at := [];
    } else {
      var front, e := events[..|events| - 1], events[|events| - 1];
      var c := Continue(front, cited, anchors);
      assert events == front + [e];
      at := ContinuityShows(front, cited, anchors);
      ContinuityMeans(front, cited, anchors);
      ConsiderCounts(front, c, e, cited, anchors);
      ShownStays(front, c.chosen, at, e, cited, anchors);
      IntroductionsInFront(front, e, |front|, cited, anchors);
      if |c.sessions| < MAX_OTHER_SESSIONS {
        NewIffIntroduced(front, c, e, cited, anchors);
      }
      hide Introduces, Introductions, ShownAt, MetAll, ChosenWell, AllMet;
      if IsShown(events, |front|, cited, anchors) {
        at := at + [|front|];
      }
    }
  }
}
