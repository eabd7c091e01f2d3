/** Folding three streams of telemetry into one row for each session, listed page by page. */
module SessionStatus {
  import opened Common
  import opened Text
  import opened Sequences
  import opened Memory
  import Lease

  datatype Channel = SessionStart | SessionEnd | UserPromptSubmit | BrainMcp | Capture

  datatype Stage =
    | HookReceived | ReplyFlushed | McpRequest | McpSucceeded | McpFailed | SessionEndPersisted | CaptureCaughtUp | OtherStage

  datatype LifecycleEvent = LifecycleEvent(
    projectId: Uuid, harness: Lease.Harness, session: Option<string>, channel: Channel, stage: Stage, occurredAt: int)

  datatype RetrievalDecision = RetrievalDecision(
    projectId: Uuid, harness: Lease.Harness, session: Option<string>, channel: Channel, failed: bool, occurredAt: int)

  datatype Activity = Activity(harness: Lease.Harness, session: string, firstObservedAt: int, lastObservedAt: int)

  /** Everything the fold reads. */
  datatype Telemetry = Telemetry(lifecycle: seq<LifecycleEvent>, decisions: seq<RetrievalDecision>, activity: seq<Activity>)

  datatype State = Active | StaleOpen | Closed | HistoricalUninstrumented

  datatype Filter = All | OnlyActive | OnlyClosed

  datatype Row = Row(harness: Lease.Harness, session: string, state: State, firstObservedAt: int, lastObservedAt: int)

  datatype Page = Page(rows: seq<Row>, next: Option<nat>)

  // ----- Session spellings -----

  predicate IsHex(c: char) {
    '0' <= c <= '9' || 'a' <= c <= 'f' || 'A' <= c <= 'F'
  }

  predicate AllHex(text: string) {
    forall i :: 0 <= i < |text| ==> IsHex(text[i])
  }

  /** Thirty-six characters, hexadecimal but for hyphens after 8, 12, 16 and 20 digits. */
  predicate IsHyphenated(text: string) {
    |text| == 36 && forall i :: 0 <= i < 36 ==> if HyphenAt(i) then text[i] == '-' else IsHex(text[i])
  }

  predicate HyphenAt(i: int) {
    i == 8 || i == 13 || i == 18 || i == 23
  }

  predicate IsSimple(text: string) {
    |text| == 32 && AllHex(text)
  }

  /** An identifier in either spelling, as lower-case text with hyphens. */
  function ParseUuid(text: string): Option<string> {
    if IsHyphenated(text) then Some(Lower(text))
    else if IsSimple(text) then
      Some(Lower(WithHyphens(text)))
    else None
  }

  function WithHyphens(text: string): string
    requires |text| == 32
  {
    text[..8] + "-" + text[8..12] + "-" + text[12..16] + "-" + text[16..20] + "-" + text[20..]
  }

  lemma WithHyphensAt(text: string, i: nat)
    requires |text| == 32 && i < 36
    ensures |WithHyphens(text)| == 36
    ensures WithHyphens(text)[i] ==
            if HyphenAt(i) then '-'
            else text[if i < 8 then i else if i < 13 then i - 1 else if i < 18 then i - 2 else if i < 23 then i - 3 else i - 4]
  {
  }

  function CanonicalSession(harness: Lease.Harness, session: string): string {
    if harness != Lease.Codex then session
    else
      var suffix := if |session| > 36 then session[|session| - 36..] else session;
      var parsed := ParseUuid(suffix);
      if parsed.Some? then parsed.value else session
  }

  lemma {:induction false} LowerAt(text: string)
    ensures |Lower(text)| == |text| && forall i :: 0 <= i < |text| ==> Lower(text)[i] == LowerChar(text[i])
  {
    if text != [] {
      LowerAt(text[1..]);
      assert forall i :: 0 < i < |text| ==> text[i] == text[1..][i - 1];
    }
  }

  lemma LowerOfLower(text: string)
    ensures Lower(Lower(text)) == Lower(text)
  {
    LowerAt(text);
    LowerAt(Lower(text));
  }

  lemma ParsedIsHyphenated(text: string)
    requires ParseUuid(text).Some?
    ensures IsHyphenated(ParseUuid(text).value) && Lower(ParseUuid(text).value) == ParseUuid(text).value
  {
    var spelled := if IsHyphenated(text) then text else WithHyphens(text);
    if !IsHyphenated(text) {
      SpelledIsHyphenated(text);
    }
    LowerOfLower(spelled);
    LowerKeepsHyphenation(spelled);
    hide Lower, IsHyphenated, WithHyphens;
  }

  lemma SpelledIsHyphenated(text: string)
    requires IsSimple(text)
    ensures IsHyphenated(WithHyphens(text))
  {
    WithHyphensAt(text, 0);
    hide WithHyphens, IsHex;
    forall i | 0 <= i < 36 ensures if HyphenAt(i) then WithHyphens(text)[i] == '-' else IsHex(WithHyphens(text)[i]) {
      WithHyphensAt(text, i);
    }
  }

  lemma LowerKeepsHyphenation(text: string)
    requires IsHyphenated(text)
    ensures IsHyphenated(Lower(text))
  {
    LowerAt(text);
    hide Lower;
  }

  /** The canonical spelling is its own canonical spelling. */
  lemma CanonicalIsIdempotent(harness: Lease.Harness, session: string)
    ensures CanonicalSession(harness, CanonicalSession(harness, session)) == CanonicalSession(harness, session)
  {
    var suffix := if |session| > 36 then session[|session| - 36..] else session;
    if harness == Lease.Codex && ParseUuid(suffix).Some? {
      ParsedIsHyphenated(suffix);
      hide Lower;
      var canonical := ParseUuid(suffix).value;
      assert ParseUuid(canonical) == Some(canonical);
    }
  }

  /** Any spelling that ends in the same identifier, whatever comes before it and in whatever case, is one session. */
  lemma SpellingsFoldTogether(prefix: string, id: string)
    requires IsHyphenated(id)
    ensures CanonicalSession(Lease.Codex, prefix + id) == Lower(id) == CanonicalSession(Lease.Codex, Lower(id))
  {
    var session := prefix + id;
    assert session[|session| - 36..] == id;
    LowerAt(id);
    LowerOfLower(id);
    LowerKeepsHyphenation(id);
    hide Lower, IsHyphenated;
  }

  // ----- Keys -----

  type Key = (string, string)

  function KeyFor(harness: Lease.Harness, session: string): Key {
    (Lease.HarnessName(harness), CanonicalSession(harness, session))
  }

  function EventKey(e: LifecycleEvent): Option<Key> {
    if e.session.Some? then Some(KeyFor(e.harness, e.session.value)) else None
  }

  function DecisionKey(d: RetrievalDecision): Option<Key> {
    if d.session.Some? then Some(KeyFor(d.harness, d.session.value)) else None
  }

  function ActivityKey(a: Activity): Key {
    KeyFor(a.harness, a.session)
  }

  predicate KeyLeq(a: Key, b: Key) {
    if a.0 != b.0 then StringLeq(a.0, b.0) else StringLeq(a.1, b.1)
  }

  /** Insert into the ordered set of keys. */
  function InsertKey(key: Key, keys: seq<Key>): seq<Key> {
    if key in keys then keys else PlaceKey(key, keys)
  }

  function PlaceKey(key: Key, keys: seq<Key>): (r: seq<Key>)
    ensures multiset(r) == multiset(keys) + multiset{key}
  {
    if keys == [] || KeyLeq(key, keys[0]) then [key] + keys
    else
      assert keys == [keys[0]] + keys[1..];
      [keys[0]] + PlaceKey(key, keys[1..])
  }

  function InsertKeys(keys: seq<Key>, more: seq<Key>): seq<Key> {
    if more == [] then keys else InsertKey(more[|more| - 1], InsertKeys(keys, more[..|more| - 1]))
  }

  /** The keys the telemetry mentions, in the order they are met. */
  function Mentioned(t: Telemetry): seq<Key> {
    ActivityKeys(t.activity) + EventKeys(t.lifecycle) + DecisionKeys(t.decisions)
  }

  function ActivityKeys(activity: seq<Activity>): seq<Key> {
    if activity == [] then [] else ActivityKeys(activity[..|activity| - 1]) + [ActivityKey(activity[|activity| - 1])]
  }

  function EventKeys(events: seq<LifecycleEvent>): seq<Key> {
    if events == [] then []
    else
      var key := EventKey(events[|events| - 1]);
      EventKeys(events[..|events| - 1]) + if key.Some? then [key.value] else []
  }

  function DecisionKeys(decisions: seq<RetrievalDecision>): seq<Key> {
    if decisions == [] then []
    else
      var key := DecisionKey(decisions[|decisions| - 1]);
      DecisionKeys(decisions[..|decisions| - 1]) + if key.Some? then [key.value] else []
  }

  function Keys(t: Telemetry): seq<Key> {
    InsertKeys([], Mentioned(t))
  }

  lemma InsertKeyCounts(key: Key, keys: seq<Key>, k: Key)
    requires multiset(keys)[k] <= 1
    ensures multiset(InsertKey(key, keys))[k] == if k == key then 1 else multiset(keys)[k]
  {
    hide PlaceKey;
    assert key in keys <==> key in multiset(keys);
  }

  /** The ordered set holds each mentioned key once. */
  lemma {:induction false} KeysOnce(more: seq<Key>, k: Key)
    ensures multiset(InsertKeys([], more))[k] == if k in more then 1 else 0
  {
    if more != [] {
      var front, last := more[..|more| - 1], more[|more| - 1];
      assert more == front + [last];
      KeysOnce(front, k);
      InsertKeyCounts(last, InsertKeys([], front), k);
    }
  }

  // ----- One session's telemetry -----

  function HasEventKey(key: Key): LifecycleEvent -> bool {
    e => EventKey(e) == Some(key)
  }

  function HasDecisionKey(key: Key): RetrievalDecision -> bool {
    d => DecisionKey(d) == Some(key)
  }

  function HasActivityKey(key: Key): Activity -> bool {
    a => ActivityKey(a) == key
  }

  function EventTimes(events: seq<LifecycleEvent>): seq<int> {
    seq(|events|, i requires 0 <= i < |events| => events[i].occurredAt)
  }

  function DecisionTimes(decisions: seq<RetrievalDecision>): seq<int> {
    seq(|decisions|, i requires 0 <= i < |decisions| => decisions[i].occurredAt)
  }

  function FirstTimes(activity: seq<Activity>): seq<int> {
    seq(|activity|, i requires 0 <= i < |activity| => activity[i].firstObservedAt)
  }

  function LastTimes(activity: seq<Activity>): seq<int> {
    seq(|activity|, i requires 0 <= i < |activity| => activity[i].lastObservedAt)
  }

  function Earliest(times: seq<int>, otherwise: int): int {
    if times == [] then otherwise
    else if |times| == 1 then times[0]
    else Min(Earliest(times[..|times| - 1], otherwise), times[|times| - 1])
  }

  function Latest(times: seq<int>, otherwise: int): int {
    if times == [] then otherwise
    else if |times| == 1 then times[0]
    else Max(Latest(times[..|times| - 1], otherwise), times[|times| - 1])
  }

  predicate EndsSession(e: LifecycleEvent) {
    e.channel.SessionEnd? && e.stage.SessionEndPersisted?
  }

  function StateOf(events: seq<LifecycleEvent>, decisions: seq<RetrievalDecision>, last: int, now: int, staleAfter: int): State {
    if events == [] && decisions == [] then HistoricalUninstrumented
    else if exists e :: e in events && EndsSession(e) then Closed
    else if now - last >= staleAfter then StaleOpen
    else Active
  }

  function RowFor(t: Telemetry, key: Key, now: int, staleAfter: int): Row {
    var events := Sequences.Filter(t.lifecycle, HasEventKey(key));
    var decisions := Sequences.Filter(t.decisions, HasDecisionKey(key));
    var observed := Sequences.Filter(t.activity, HasActivityKey(key));
    var first := Earliest(EventTimes(events) + DecisionTimes(decisions) + FirstTimes(observed), now);
    var last := Latest(EventTimes(events) + DecisionTimes(decisions) + LastTimes(observed), first);
    var harness :=
      if events != [] then events[0].harness
      else if decisions != [] then decisions[0].harness
      else if observed != [] then observed[0].harness
      else Lease.Other(key.0);
    Row(harness, key.1, StateOf(events, decisions, last, now, staleAfter), first, last)
  }

  function RowKey(row: Row): Key {
    (Lease.HarnessName(row.harness), row.session)
  }

  /** A row answers to the key it was made for. */
  lemma RowHasItsKey(t: Telemetry, key: Key, now: int, staleAfter: int)
    ensures RowKey(RowFor(t, key, now, staleAfter)) == key
  {
    var events := Sequences.Filter(t.lifecycle, HasEventKey(key));
    var decisions := Sequences.Filter(t.decisions, HasDecisionKey(key));
    var observed := Sequences.Filter(t.activity, HasActivityKey(key));
    if events != [] {
      assert events[0] in events;
    } else if decisions != [] {
      assert decisions[0] in decisions;
    } else if observed != [] {
      assert observed[0] in observed;
    }
    hide Sequences.Filter, Earliest, Latest, StateOf, CanonicalSession;
  }

  function RowsFor(t: Telemetry, keys: seq<Key>, now: int, staleAfter: int): seq<Row> {
    if keys == [] then []
    else RowsFor(t, keys[..|keys| - 1], now, staleAfter) + [RowFor(t, keys[|keys| - 1], now, staleAfter)]
  }

  predicate Shown(filter: Filter, row: Row) {
    match filter
    case All => true
    case OnlyActive => row.state.Active? || row.state.StaleOpen?
    case OnlyClosed => row.state.Closed?
  }

  function IsShown(filter: Filter): Row -> bool {
    row => Shown(filter, row)
  }

  /** Latest activity first, then by session. */
  predicate LaterFirst(left: Row, right: Row) {
    if left.lastObservedAt != right.lastObservedAt then left.lastObservedAt > right.lastObservedAt
    else StringLeq(left.session, right.session)
  }

  function Listing(t: Telemetry, filter: Filter, now: int, staleAfter: int): seq<Row> {
    Sort(Sequences.Filter(RowsFor(t, Keys(t), now, staleAfter), IsShown(filter)), LaterFirst)
  }

  function CountKey(rows: seq<Row>, key: Key): nat {
    if rows == [] then 0 else CountKey(rows[..|rows| - 1], key) + if RowKey(rows[|rows| - 1]) == key then 1 else 0
  }

  lemma {:induction false} RowsCountKeys(t: Telemetry, keys: seq<Key>, filter: Filter, now: int, staleAfter: int, key: Key)
    ensures CountKey(Sequences.Filter(RowsFor(t, keys, now, staleAfter), IsShown(filter)), key)
         == if Shown(filter, RowFor(t, key, now, staleAfter)) then multiset(keys)[key] else 0
  {
    hide *;
    if keys == [] {
      NoRows(t, filter, now, staleAfter, key);
      assert keys == [];
    } else {
      var front, last := keys[..|keys| - 1], keys[|keys| - 1];
      assert keys == front + [last];
      RowsCountKeys(t, front, filter, now, staleAfter, key);
      RowHasItsKey(t, last, now, staleAfter);
      var before, row := RowsFor(t, front, now, staleAfter), RowFor(t, last, now, staleAfter);
      RowsForOneMore(t, front, last, now, staleAfter);
      FilterOfOneMore(before, row, IsShown(filter));
      IsShownMeans(filter, row);
      CountOfConcat(Sequences.Filter(before, IsShown(filter)), [row], key);
      CountOfOne(row, key);
      assert Sequences.Filter(before, IsShown(filter)) + [] == Sequences.Filter(before, IsShown(filter));
    }
  }

  lemma NoRows(t: Telemetry, filter: Filter, now: int, staleAfter: int, key: Key)
    ensures CountKey(Sequences.Filter(RowsFor(t, [], now, staleAfter), IsShown(filter)), key) == 0
  {
  }

  lemma RowsForOneMore(t: Telemetry, keys: seq<Key>, key: Key, now: int, staleAfter: int)
    ensures RowsFor(t, keys + [key], now, staleAfter) == RowsFor(t, keys, now, staleAfter) + [RowFor(t, key, now, staleAfter)]
  {
    hide RowFor;
    assert (keys + [key])[..|keys|] == keys;
  }

  lemma IsShownMeans(filter: Filter, row: Row)
    ensures IsShown(filter)(row) == Shown(filter, row)
  {
  }

  lemma CountOfOne(row: Row, key: Key)
    ensures CountKey([row], key) == if RowKey(row) == key then 1 else 0
  {
    hide RowKey;
    assert [row][..0] == [];
  }

  lemma {:induction false} CountOfConcat(a: seq<Row>, b: seq<Row>, key: Key)
    ensures CountKey(a + b, key) == CountKey(a, key) + CountKey(b, key)
  {
    hide RowKey;
    if b == [] {
      assert a + b == a;
    } else {
      assert (a + b)[..|a + b| - 1] == a + b[..|b| - 1];
      CountOfConcat(a, b[..|b| - 1], key);
    }
  }

  lemma {:induction false} CountOfInsert(row: Row, rows: seq<Row>, key: Key)
    ensures CountKey(Insert(row, rows, LaterFirst), key) == CountKey(rows, key) + CountKey([row], key)
  {
    hide RowKey, LaterFirst, CountKey;
    if rows == [] {
      CountOfConcat([], [row], key);
      assert [] + [row] == [row];
    } else if LaterFirst(row, rows[0]) {
      CountOfConcat([row], rows, key);
    } else {
      CountOfInsert(row, rows[1..], key);
      assert rows == [rows[0]] + rows[1..];
      CountOfConcat([rows[0]], rows[1..], key);
      CountOfConcat([rows[0]], Insert(row, rows[1..], LaterFirst), key);
    }
  }

  lemma {:induction false} CountOfSort(rows: seq<Row>, key: Key)
    ensures CountKey(Sort(rows, LaterFirst), key) == CountKey(rows, key)
  {
    hide RowKey, LaterFirst, CountKey, Insert;
    if rows != [] {
      CountOfSort(rows[1..], key);
      CountOfInsert(rows[0], Sort(rows[1..], LaterFirst), key);
      assert rows == [rows[0]] + rows[1..];
      CountOfConcat([rows[0]], rows[1..], key);
    }
  }

  /**
   The listing has exactly one row for each key that the telemetry mentions and whose row the filter
   shows, and no other row. Without a filter that is every key mentioned.
   */
  lemma EveryKeyIsListedOnce(t: Telemetry, filter: Filter, now: int, staleAfter: int, key: Key)
    ensures CountKey(Listing(t, filter, now, staleAfter), key)
         == if key in Mentioned(t) && Shown(filter, RowFor(t, key, now, staleAfter)) then 1 else 0
  {
    hide Mentioned, RowKey, CountKey, Sort, RowsFor, Shown, RowFor, Sequences.Filter;
    KeysOnce(Mentioned(t), key);
    RowsCountKeys(t, Keys(t), filter, now, staleAfter, key);
    CountOfSort(Sequences.Filter(RowsFor(t, Keys(t), now, staleAfter), IsShown(filter)), key);
  }

  // ----- Paging -----

  function PageOf(rows: seq<Row>, limit: nat, cursor: Option<nat>): Page {
    var offset := if cursor.Some? then cursor.value else 0;
    var start := Min(offset, |rows|);
    var end := Min(start + limit, |rows|);
    var consumed := offset + (end - start);
    Page(rows[start..end], if consumed < |rows| then Some(consumed) else None)
  }

  /** Every page a caller sees who follows the cursors. */
  function Follow(rows: seq<Row>, limit: nat, cursor: Option<nat>): seq<Page>
    requires limit > 0
    decreases |rows| - (if cursor.Some? then cursor.value else 0), if cursor.Some? then 0 else 1
  {
    var page := PageOf(rows, limit, cursor);
    [page] + if page.next.None? then [] else Follow(rows, limit, page.next)
  }

  function RowsOf(pages: seq<Page>): seq<Row> {
    if pages == [] then [] else pages[0].rows + RowsOf(pages[1..])
  }

  lemma FollowUnfolds(rows: seq<Row>, limit: nat, cursor: Option<nat>)
    requires limit > 0
    ensures var page := PageOf(rows, limit, cursor);
            Follow(rows, limit, cursor) == [page] + if page.next.None? then [] else Follow(rows, limit, page.next)
  {
  }

  lemma RowsOfFirst(page: Page, rest: seq<Page>)
    ensures RowsOf([page] + rest) == page.rows + RowsOf(rest)
  {
    assert ([page] + rest)[1..] == rest;
  }

  lemma PageShape(rows: seq<Row>, limit: nat, cursor: Option<nat>)
    requires limit > 0 && (cursor.Some? ==> cursor.value <= |rows|)
    ensures var offset := if cursor.Some? then cursor.value else 0;
            var page := PageOf(rows, limit, cursor);
            && |page.rows| <= limit
            && (page.next.Some? ==> page.next.value == offset + limit < |rows| && page.rows == rows[offset..offset + limit])
            && (page.next.None? ==> page.rows == rows[offset..])
  {
  }

  /**
   Following the cursors ends, and shows the listing from the first cursor on, row by row in order,
   with no row lost or repeated at a page boundary.
   */
  lemma {:induction false} PagesPartition(rows: seq<Row>, limit: nat, cursor: Option<nat>)
    requires limit > 0 && (cursor.Some? ==> cursor.value <= |rows|)
    ensures RowsOf(Follow(rows, limit, cursor)) == rows[if cursor.Some? then cursor.value else 0..]
    decreases |rows| - (if cursor.Some? then cursor.value else 0), if cursor.Some? then 0 else 1
  {
    hide Follow, RowsOf, PageOf;
    var offset := if cursor.Some? then cursor.value else 0;
    var page := PageOf(rows, limit, cursor);
    PageShape(rows, limit, cursor);
    FollowUnfolds(rows, limit, cursor);
    if page.next.Some? {
      PagesPartition(rows, limit, page.next);
      RowsOfFirst(page, Follow(rows, limit, page.next));
      assert rows[offset..] == rows[offset..offset + limit] + rows[offset + limit..];
    } else {
      RowsOfFirst(page, []);
      NoPages();
      assert page.rows + [] == page.rows;
    }
  }

  lemma NoPages()
    ensures RowsOf([]) == []
  {
  }

  /** No page is over the limit, and every page but the last is full. */
  lemma {:induction false} PagesAreFull(rows: seq<Row>, limit: nat, cursor: Option<nat>)
    requires limit > 0 && (cursor.Some? ==> cursor.value <= |rows|)
    ensures var pages := Follow(rows, limit, cursor);
            forall i :: 0 <= i < |pages| ==> |pages[i].rows| <= limit && (i < |pages| - 1 ==> |pages[i].rows| == limit)
    decreases |rows| - (if cursor.Some? then cursor.value else 0), if cursor.Some? then 0 else 1
  {
    hide Follow, PageOf;
    var page := PageOf(rows, limit, cursor);
    PageShape(rows, limit, cursor);
    FollowUnfolds(rows, limit, cursor);
    if page.next.Some? {
      PagesAreFull(rows, limit, page.next);
    }
  }

  /** Paging through a listing shows every mentioned session that the filter shows exactly once, and no other. */
  lemma PagingShowsEveryKeyOnce(t: Telemetry, filter: Filter, limit: nat, now: int, staleAfter: int, key: Key)
    requires limit > 0
    ensures CountKey(RowsOf(Follow(Listing(t, filter, now, staleAfter), limit, None)), key)
         == if key in Mentioned(t) && Shown(filter, RowFor(t, key, now, staleAfter)) then 1 else 0
  {
    var rows := Listing(t, filter, now, staleAfter);
    PagesPartition(rows, limit, None);
    assert rows[0..] == rows;
    hide Mentioned, Listing, CountKey, Follow, RowsOf, Shown, RowFor;
    EveryKeyIsListedOnce(t, filter, now, staleAfter, key);
  }

  // ----- Cursors as text -----

  function Digit(n: nat): char
    requires n < 10
  {
    ['0', '1', '2', '3', '4', '5', '6', '7', '8', '9'][n]
  }

  predicate IsDigit(c: char) {
    '0' <= c <= '9'
  }

  /** A cursor as a caller is given it: decimal digits. */
  function Decimal(n: nat): string {
    if n < 10 then [Digit(n)] else Decimal(n / 10) + [Digit(n % 10)]
  }

  function DigitsValue(text: string): Option<nat> {
    if text == [] then Some(0)
    else
      var before, last := DigitsValue(text[..|text| - 1]), text[|text| - 1];
      if before.Some? && IsDigit(last) then Some(10 * before.value + (last as int - '0' as int)) else None
  }

  /** Reading an offset: digits, after at most one plus sign, whose value fits the machine word. */
  function ParseOffset(text: string): Option<nat> {
    var digits := if text != [] && text[0] == '+' then text[1..] else text;
    var value := DigitsValue(digits);
    if digits == [] || value.None? || value.value > U64_MAX then None else value
  }

  lemma {:induction false} DecimalValue(n: nat)
    ensures DigitsValue(Decimal(n)) == Some(n) && Decimal(n) != [] && Decimal(n)[0] != '+'
  {
    if n < 10 {
      assert Decimal(n)[..0] == [];
      DigitIsRead(n);
    } else {
      DecimalValue(n / 10);
      var front := Decimal(n / 10);
      assert (front + [Digit(n % 10)])[..|front|] == front;
      DigitIsRead(n % 10);
    }
  }

  lemma DigitIsRead(n: nat)
    requires n < 10
    ensures IsDigit(Digit(n)) && Digit(n) as int - '0' as int == n && Digit(n) != '+'
  {
  }

  /** The cursor a page hands out is read back as the place it stands for. */
  lemma CursorRoundTrip(n: nat)
    requires n <= U64_MAX
    ensures ParseOffset(Decimal(n)) == Some(n)
  {
    DecimalValue(n);
    hide Decimal, DigitsValue;
  }

  // ----- Closed stays closed -----

  /** Telemetry that holds at least what another holds, in any order. */
  ghost predicate Includes(more: Telemetry, t: Telemetry) {
    forall e :: e in t.lifecycle ==> e in more.lifecycle
  }

  /** Once a session is closed, no further telemetry, no clock and no staleness limit opens it again. */
  lemma ClosedIsForever(t: Telemetry, more: Telemetry, key: Key, now: int, later: int, staleAfter: int, otherStaleAfter: int)
    requires RowFor(t, key, now, staleAfter).state == Closed && Includes(more, t)
    ensures RowFor(more, key, later, otherStaleAfter).state == Closed
  {
    var events := Sequences.Filter(t.lifecycle, HasEventKey(key));
    var e :| e in events && EndsSession(e);
    assert e in Sequences.Filter(more.lifecycle, HasEventKey(key));
    hide Sequences.Filter, Earliest, Latest, EndsSession;
  }

  // ----- The fold itself -----

  datatype FoldError = BadLimit | WrongProject | BadCursor

  /** A page as the caller gets it, with the next cursor as text. */
  datatype TextPage = TextPage(rows: seq<Row>, next: Option<string>)

  function AsText(page: Page): TextPage {
    TextPage(page.rows, if page.next.Some? then Some(Decimal(page.next.value)) else None)
  }

  const MAX_LIMIT := 200

  predicate InProject(t: Telemetry, project: Uuid) {
    && (forall e :: e in t.lifecycle ==> e.projectId == project)
    && (forall d :: d in t.decisions ==> d.projectId == project)
  }

  method CollectKeys(t: Telemetry) returns (keys: seq<Key>)
    ensures keys == Keys(t)
  {
    hide InsertKey, KeyFor;
    keys := [];
    ghost var mentioned: seq<Key> := [];
    var i := 0;
    while i < |t.activity|
      invariant 0 <= i <= |t.activity|
      invariant mentioned == ActivityKeys(t.activity[..i]) && keys == InsertKeys([], mentioned)
    {
      assert t.activity[..i + 1][..i] == t.activity[..i];
      assert (mentioned + [ActivityKey(t.activity[i])])[..|mentioned|] == mentioned;
      keys := InsertKey(ActivityKey(t.activity[i]), keys);
      mentioned := mentioned + [ActivityKey(t.activity[i])];
      i := i + 1;
    }
    assert t.activity[..|t.activity|] == t.activity;
    ghost var first := mentioned;
    keys := CollectEventKeys(t.lifecycle, keys, first);
    keys := CollectDecisionKeys(t.decisions, keys, first + EventKeys(t.lifecycle));
  }

  method CollectEventKeys(events: seq<LifecycleEvent>, before: seq<Key>, ghost mentioned: seq<Key>) returns (keys: seq<Key>)
    requires before == InsertKeys([], mentioned)
    ensures keys == InsertKeys([], mentioned + EventKeys(events))
  {
    hide InsertKey, KeyFor;
    keys := before;
    assert mentioned + [] == mentioned;
    var i := 0;
    while i < |events|
      invariant 0 <= i <= |events|
      invariant keys == InsertKeys([], mentioned + EventKeys(events[..i]))
    {
      assert events[..i + 1][..i] == events[..i];
      var key := EventKey(events[i]);
      ghost var seen := mentioned + EventKeys(events[..i]);
      if key.Some? {
        keys := InsertKey(key.value, keys);
        assert mentioned + EventKeys(events[..i + 1]) == seen + [key.value];
        assert (seen + [key.value])[..|seen|] == seen;
      } else {
        assert EventKeys(events[..i + 1]) == EventKeys(events[..i]) + [] == EventKeys(events[..i]);
      }
      i := i + 1;
    }
    assert events[..|events|] == events;
  }

  method CollectDecisionKeys(decisions: seq<RetrievalDecision>, before: seq<Key>, ghost mentioned: seq<Key>)
    returns (keys: seq<Key>)
    requires before == InsertKeys([], mentioned)
    ensures keys == InsertKeys([], mentioned + DecisionKeys(decisions))
  {
    hide InsertKey, KeyFor;
    keys := before;
    assert mentioned + [] == mentioned;
    var i := 0;
    while i < |decisions|
      invariant 0 <= i <= |decisions|
      invariant keys == InsertKeys([], mentioned + DecisionKeys(decisions[..i]))
    {
      assert decisions[..i + 1][..i] == decisions[..i];
      var key := DecisionKey(decisions[i]);
      ghost var seen := mentioned + DecisionKeys(decisions[..i]);
      if key.Some? {
        keys := InsertKey(key.value, keys);
        assert mentioned + DecisionKeys(decisions[..i + 1]) == seen + [key.value];
        assert (seen + [key.value])[..|seen|] == seen;
      } else {
        assert DecisionKeys(decisions[..i + 1]) == DecisionKeys(decisions[..i]) + [] == DecisionKeys(decisions[..i]);
      }
      i := i + 1;
    }
    assert decisions[..|decisions|] == decisions;
  }

  method FoldSessionStatus(project: Uuid, t: Telemetry, filter: Filter, limit: nat, cursor: Option<string>, now: int, staleAfter: int)
    returns (result: Result<TextPage, FoldError>)
    ensures result == if !(1 <= limit <= MAX_LIMIT) then Err(BadLimit)
                      else if !InProject(t, project) then Err(WrongProject)
                      else if cursor.Some? && ParseOffset(cursor.value).None? then Err(BadCursor)
                      else
                        Ok(AsText(PageOf(Listing(t, filter, now, staleAfter), limit,
                                         if cursor.Some? then ParseOffset(cursor.value) else None)))
  {
    hide RowFor, Keys, Sort, LaterFirst, Shown, DigitsValue;
    if !(1 <= limit <= MAX_LIMIT) {
      return Err(BadLimit);
    }
    if !InProject(t, project) {
      return Err(WrongProject);
    }
    var offset: Option<nat> := None;
    if cursor.Some? {
      offset := ParseOffset(cursor.value);
      if offset.None? {
        return Err(BadCursor);
      }
    }
    var keys := CollectKeys(t);
    var sessions: seq<Row> := [];
    var i := 0;
    while i < |keys|
      invariant 0 <= i <= |keys|
      invariant sessions == RowsFor(t, keys[..i], now, staleAfter)
    {
      assert keys[..i + 1][..i] == keys[..i];
      sessions := sessions + [RowFor(t, keys[i], now, staleAfter)];
      i := i + 1;
    }
    assert keys[..|keys|] == keys;
    sessions := Sequences.Filter(sessions, IsShown(filter));
    sessions := Sort(sessions, LaterFirst);
    return Ok(AsText(PageOf(sessions, limit, offset)));
  }
}
