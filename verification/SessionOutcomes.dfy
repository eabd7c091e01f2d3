/** What the session list shows: which sessions there are, what each row says, and the order of the rows. */
module SessionOutcomes {
  import opened Common
  import opened Sequences
  import opened Memory
  import opened SessionStatus
  import Lease

  // ----- What belongs to a session -----

  /** Telemetry of a session: of its harness, under a spelling of its identifier. */
  ghost predicate IsOf(harness: Lease.Harness, session: string, key: Key) {
    Lease.HarnessName(harness) == key.0 && CanonicalSession(harness, session) == key.1
  }

  ghost predicate EventOf(t: Telemetry, key: Key, e: LifecycleEvent) {
    e in t.lifecycle && e.session.Some? && IsOf(e.harness, e.session.value, key)
  }

  ghost predicate DecisionOf(t: Telemetry, key: Key, d: RetrievalDecision) {
    d in t.decisions && d.session.Some? && IsOf(d.harness, d.session.value, key)
  }

  ghost predicate ActivityOf(t: Telemetry, key: Key, a: Activity) {
    a in t.activity && IsOf(a.harness, a.session, key)
  }

  lemma SelectedAre(t: Telemetry, key: Key)
    ensures forall e :: e in Sequences.Filter(t.lifecycle, HasEventKey(key)) <==> EventOf(t, key, e)
    ensures forall d :: d in Sequences.Filter(t.decisions, HasDecisionKey(key)) <==> DecisionOf(t, key, d)
    ensures forall a :: a in Sequences.Filter(t.activity, HasActivityKey(key)) <==> ActivityOf(t, key, a)
  {
    hide CanonicalSession;
  }

  lemma {:induction false} ActivityKeysAre(activity: seq<Activity>, key: Key)
    ensures key in ActivityKeys(activity) <==> exists a :: a in activity && IsOf(a.harness, a.session, key)
  {
    hide CanonicalSession;
    if activity != [] {
      var front, last := activity[..|activity| - 1], activity[|activity| - 1];
      assert activity == front + [last];
      ActivityKeysAre(front, key);
      assert last in activity;
    }
  }

  lemma {:induction false} EventKeysAre(events: seq<LifecycleEvent>, key: Key)
    ensures key in EventKeys(events) <==> exists e :: e in events && e.session.Some? && IsOf(e.harness, e.session.value, key)
  {
    hide CanonicalSession;
    if events != [] {
      var front, last := events[..|events| - 1], events[|events| - 1];
      assert events == front + [last];
      EventKeysAre(front, key);
      assert last in events;
    }
  }

  lemma {:induction false} DecisionKeysAre(decisions: seq<RetrievalDecision>, key: Key)
    ensures key in DecisionKeys(decisions) <==> exists d :: d in decisions && d.session.Some? && IsOf(d.harness, d.session.value, key)
  {
    hide CanonicalSession;
    if decisions != [] {
      var front, last := decisions[..|decisions| - 1], decisions[|decisions| - 1];
      assert decisions == front + [last];
      DecisionKeysAre(front, key);
      assert last in decisions;
    }
  }

  /** Which sessions the telemetry mentions: those of any activity, any event and any decision that names one. */
  lemma MentionedIff(t: Telemetry, key: Key)
    ensures key in Mentioned(t) <==>
              || (exists a :: ActivityOf(t, key, a)) || (exists e :: EventOf(t, key, e)) || (exists d :: DecisionOf(t, key, d))
  {
    ActivityKeysAre(t.activity, key);
    EventKeysAre(t.lifecycle, key);
    DecisionKeysAre(t.decisions, key);
    hide IsOf, ActivityKeys, EventKeys, DecisionKeys;
    if e :| e in t.lifecycle && e.session.Some? && IsOf(e.harness, e.session.value, key) {
      assert EventOf(t, key, e);
    }
    if d :| d in t.decisions && d.session.Some? && IsOf(d.harness, d.session.value, key) {
      assert DecisionOf(t, key, d);
    }
    if a :| a in t.activity && IsOf(a.harness, a.session, key) {
      assert ActivityOf(t, key, a);
    }
  }

  // ----- One row -----

  lemma {:induction false} EarliestIs(times: seq<int>, otherwise: int)
    ensures times == [] ==> Earliest(times, otherwise) == otherwise
    ensures times != [] ==> Earliest(times, otherwise) in times
    ensures forall x :: x in times ==> Earliest(times, otherwise) <= x
  {
    if |times| > 1 {
      assert times == times[..|times| - 1] + [times[|times| - 1]];
      EarliestIs(times[..|times| - 1], otherwise);
    }
  }

  lemma {:induction false} LatestIs(times: seq<int>, otherwise: int)
    ensures times == [] ==> Latest(times, otherwise) == otherwise
    ensures times != [] ==> Latest(times, otherwise) in times
    ensures forall x :: x in times ==> x <= Latest(times, otherwise)
  {
    if |times| > 1 {
      assert times == times[..|times| - 1] + [times[|times| - 1]];
      LatestIs(times[..|times| - 1], otherwise);
    }
  }

  /** A time at which a session was first seen by something. */
  ghost predicate BeginsAt(t: Telemetry, key: Key, time: int) {
    || (exists e :: EventOf(t, key, e) && e.occurredAt == time)
    || (exists d :: DecisionOf(t, key, d) && d.occurredAt == time)
    || (exists a :: ActivityOf(t, key, a) && a.firstObservedAt == time)
  }

  /** A time at which a session was last seen by something. */
  ghost predicate LastsUntil(t: Telemetry, key: Key, time: int) {
    || (exists e :: EventOf(t, key, e) && e.occurredAt == time)
    || (exists d :: DecisionOf(t, key, d) && d.occurredAt == time)
    || (exists a :: ActivityOf(t, key, a) && a.lastObservedAt == time)
  }

  function Beginnings(t: Telemetry, key: Key): seq<int> {
    EventTimes(Sequences.Filter(t.lifecycle, HasEventKey(key))) + DecisionTimes(Sequences.Filter(t.decisions, HasDecisionKey(key)))
    + FirstTimes(Sequences.Filter(t.activity, HasActivityKey(key)))
  }

  function Endings(t: Telemetry, key: Key): seq<int> {
    EventTimes(Sequences.Filter(t.lifecycle, HasEventKey(key))) + DecisionTimes(Sequences.Filter(t.decisions, HasDecisionKey(key)))
    + LastTimes(Sequences.Filter(t.activity, HasActivityKey(key)))
  }

  lemma TimesOfSome(events: seq<LifecycleEvent>, decisions: seq<RetrievalDecision>, activity: seq<Activity>, time: int)
    ensures time in EventTimes(events) <==> exists e :: e in events && e.occurredAt == time
    ensures time in DecisionTimes(decisions) <==> exists d :: d in decisions && d.occurredAt == time
    ensures time in FirstTimes(activity) <==> exists a :: a in activity && a.firstObservedAt == time
    ensures time in LastTimes(activity) <==> exists a :: a in activity && a.lastObservedAt == time
  {
    EventTimesOf(events, time);
    DecisionTimesOf(decisions, time);
    ActivityTimesOf(activity, time);
    hide *;
  }

  lemma EventTimesOf(events: seq<LifecycleEvent>, time: int)
    ensures time in EventTimes(events) <==> exists e :: e in events && e.occurredAt == time
  {
    if time in EventTimes(events) {
      var i :| 0 <= i < |events| && EventTimes(events)[i] == time;
      assert events[i] in events;
    }
    if e :| e in events && e.occurredAt == time {
      var i :| 0 <= i < |events| && events[i] == e;
      assert EventTimes(events)[i] == time;
    }
  }

  lemma DecisionTimesOf(decisions: seq<RetrievalDecision>, time: int)
    ensures time in DecisionTimes(decisions) <==> exists d :: d in decisions && d.occurredAt == time
  {
    if time in DecisionTimes(decisions) {
      var i :| 0 <= i < |decisions| && DecisionTimes(decisions)[i] == time;
      assert decisions[i] in decisions;
    }
    if d :| d in decisions && d.occurredAt == time {
      var i :| 0 <= i < |decisions| && decisions[i] == d;
      assert DecisionTimes(decisions)[i] == time;
    }
  }

  lemma ActivityTimesOf(activity: seq<Activity>, time: int)
    ensures time in FirstTimes(activity) <==> exists a :: a in activity && a.firstObservedAt == time
    ensures time in LastTimes(activity) <==> exists a :: a in activity && a.lastObservedAt == time
  {
    if time in FirstTimes(activity) {
      var i :| 0 <= i < |activity| && FirstTimes(activity)[i] == time;
      assert activity[i] in activity;
    }
    if a :| a in activity && a.firstObservedAt == time {
      var i :| 0 <= i < |activity| && activity[i] == a;
      assert FirstTimes(activity)[i] == time;
    }
    if time in LastTimes(activity) {
      var i :| 0 <= i < |activity| && LastTimes(activity)[i] == time;
      assert activity[i] in activity;
    }
    if a :| a in activity && a.lastObservedAt == time {
      var i :| 0 <= i < |activity| && activity[i] == a;
      assert LastTimes(activity)[i] == time;
    }
  }

  lemma TimesAre(t: Telemetry, key: Key, time: int)
    ensures time in Beginnings(t, key) <==> BeginsAt(t, key, time)
    ensures time in Endings(t, key) <==> LastsUntil(t, key, time)
  {
    var events := Sequences.Filter(t.lifecycle, HasEventKey(key));
    var decisions := Sequences.Filter(t.decisions, HasDecisionKey(key));
    var observed := Sequences.Filter(t.activity, HasActivityKey(key));
    SelectedAre(t, key);
    TimesOfSome(events, decisions, observed, time);
    hide Sequences.Filter, EventTimes, DecisionTimes, FirstTimes, LastTimes, EventOf, DecisionOf, ActivityOf;
  }

  lemma RowUnfolds(t: Telemetry, key: Key, now: int, staleAfter: int)
    ensures var row := RowFor(t, key, now, staleAfter);
            && row.firstObservedAt == Earliest(Beginnings(t, key), now)
            && row.lastObservedAt == Latest(Endings(t, key), row.firstObservedAt)
            && row.session == key.1
            && row.state == StateOf(Sequences.Filter(t.lifecycle, HasEventKey(key)), Sequences.Filter(t.decisions, HasDecisionKey(key)),
                                    row.lastObservedAt, now, staleAfter)
  {
    hide Earliest, Latest, StateOf, Sequences.Filter, EventTimes, DecisionTimes, FirstTimes, LastTimes;
  }

  lemma StateSays(t: Telemetry, key: Key, last: int, now: int, staleAfter: int)
    ensures StateOf(Sequences.Filter(t.lifecycle, HasEventKey(key)), Sequences.Filter(t.decisions, HasDecisionKey(key)), last, now, staleAfter)
         == if !(exists e :: EventOf(t, key, e)) && !(exists d :: DecisionOf(t, key, d)) then HistoricalUninstrumented
            else if exists e :: EventOf(t, key, e) && e.channel == Channel.SessionEnd && e.stage == SessionEndPersisted then Closed
            else if last + staleAfter <= now then StaleOpen
            else Active
  {
    var events := Sequences.Filter(t.lifecycle, HasEventKey(key));
    var decisions := Sequences.Filter(t.decisions, HasDecisionKey(key));
    SelectedAre(t, key);
    hide Sequences.Filter, EventOf, DecisionOf;
    assert events != [] ==> events[0] in events;
    assert decisions != [] ==> decisions[0] in decisions;
  }

  /**
   What a row says of a mentioned session: the first and the last time anything saw it, and its state.
   Nothing but activity makes it historical; a persisted end makes it closed; then it is stale if it
   was last seen too long ago, and active otherwise.
   */
  lemma RowSays(t: Telemetry, key: Key, now: int, staleAfter: int)
    requires key in Mentioned(t)
    ensures var row := RowFor(t, key, now, staleAfter);
            && row.session == key.1 && Lease.HarnessName(row.harness) == key.0
            && BeginsAt(t, key, row.firstObservedAt) && LastsUntil(t, key, row.lastObservedAt)
            && (forall time :: BeginsAt(t, key, time) ==> row.firstObservedAt <= time)
            && (forall time :: LastsUntil(t, key, time) ==> time <= row.lastObservedAt)
            && row.state == if !(exists e :: EventOf(t, key, e)) && !(exists d :: DecisionOf(t, key, d)) then HistoricalUninstrumented
                            else if exists e :: EventOf(t, key, e) && e.channel == Channel.SessionEnd && e.stage == SessionEndPersisted then Closed
                            else if row.lastObservedAt + staleAfter <= now then StaleOpen
                            else Active
  {
    hide *;
    var row := RowFor(t, key, now, staleAfter);
    RowUnfolds(t, key, now, staleAfter);
    RowHasItsKey(t, key, now, staleAfter);
    RowKeyIs(row);
    EarliestIs(Beginnings(t, key), now);
    LatestIs(Endings(t, key), row.firstObservedAt);
    SomethingSawIt(t, key);
    forall time ensures (time in Beginnings(t, key) <==> BeginsAt(t, key, time)) && (time in Endings(t, key) <==> LastsUntil(t, key, time)) {
      TimesAre(t, key, time);
    }
    StateSays(t, key, row.lastObservedAt, now, staleAfter);
  }

  lemma RowKeyIs(row: Row)
    ensures RowKey(row) == (Lease.HarnessName(row.harness), row.session)
  {
  }

  lemma SomethingSawIt(t: Telemetry, key: Key)
    requires key in Mentioned(t)
    ensures Beginnings(t, key) != [] && Endings(t, key) != []
  {
    MentionedIff(t, key);
    hide Beginnings, Endings, Mentioned, EventOf, DecisionOf, ActivityOf;
    if e :| EventOf(t, key, e) {
      TimesAre(t, key, e.occurredAt);
    } else if d :| DecisionOf(t, key, d) {
      TimesAre(t, key, d.occurredAt);
    } else {
      var a :| ActivityOf(t, key, a);
      TimesAre(t, key, a.firstObservedAt);
      TimesAre(t, key, a.lastObservedAt);
    }
  }

  // ----- The list -----

  /** Which rows a filter shows. */
  lemma FilterSays(row: Row)
    ensures Shown(All, row)
    ensures Shown(OnlyActive, row) <==> row.state == Active || row.state == StaleOpen
    ensures Shown(OnlyClosed, row) <==> row.state == Closed
  {
  }

  lemma {:induction false} RowsForAre(t: Telemetry, keys: seq<Key>, now: int, staleAfter: int)
    ensures forall row :: row in RowsFor(t, keys, now, staleAfter) ==> exists key :: key in keys && row == RowFor(t, key, now, staleAfter)
  {
    hide RowFor;
    if keys != [] {
      var front, last := keys[..|keys| - 1], keys[|keys| - 1];
      RowsForAre(t, front, now, staleAfter);
      assert keys == front + [last] && last in keys;
      forall row | row in RowsFor(t, keys, now, staleAfter) ensures exists key :: key in keys && row == RowFor(t, key, now, staleAfter) {
        if row in RowsFor(t, front, now, staleAfter) {
          var key :| key in front && row == RowFor(t, key, now, staleAfter);
          assert key in keys;
        }
      }
    }
  }

  lemma LaterFirstIsTotal()
    ensures TotalPreorder(LaterFirst)
  {
    forall x: Row, y: Row ensures LaterFirst(x, y) || LaterFirst(y, x) {
      StringLeqTotal(x.session, y.session);
    }
    hide StringLeq;
    forall x: Row, y: Row, z: Row | LaterFirst(x, y) && LaterFirst(y, z) ensures LaterFirst(x, z) {
      if x.lastObservedAt == y.lastObservedAt == z.lastObservedAt {
        StringLeqTransitive(x.session, y.session, z.session);
      }
    }
  }

  /** Every row listed is a mentioned session's and shown, and they come by when they were last seen, the latest first, and then by session. */
  lemma ListingSays(t: Telemetry, filter: Filter, now: int, staleAfter: int)
    ensures forall row :: row in Listing(t, filter, now, staleAfter) ==>
              Shown(filter, row) && exists key :: key in Mentioned(t) && row == RowFor(t, key, now, staleAfter)
    ensures forall i, j :: 0 <= i < j < |Listing(t, filter, now, staleAfter)| ==>
              var a, b := Listing(t, filter, now, staleAfter)[i], Listing(t, filter, now, staleAfter)[j];
              a.lastObservedAt > b.lastObservedAt || (a.lastObservedAt == b.lastObservedAt && StringLeq(a.session, b.session))
  {
    var rows := RowsFor(t, Keys(t), now, staleAfter);
    var shown := Sequences.Filter(rows, IsShown(filter));
    LaterFirstIsTotal();
    SortSorts(shown, LaterFirst);
    SortKeepsMembers(shown, LaterFirst);
    RowsForAre(t, Keys(t), now, staleAfter);
    hide RowFor, RowsFor, Keys, Sort, Sequences.Filter, Shown, Mentioned, StringLeq;
    forall row | row in Listing(t, filter, now, staleAfter)
      ensures Shown(filter, row) && exists key :: key in Mentioned(t) && row == RowFor(t, key, now, staleAfter)
    {
      assert row in shown && row in rows;
      var key :| key in Keys(t) && row == RowFor(t, key, now, staleAfter);
      KeysAreMentioned(t, key);
    }
  }

  lemma KeysAreMentioned(t: Telemetry, key: Key)
    requires key in Keys(t)
    ensures key in Mentioned(t)
  {
    KeysOnce(Mentioned(t), key);
    hide Mentioned, InsertKeys;
    assert key in multiset(Keys(t));
  }
}
