/**
 Capturing a growing transcript: reads resume where the last one was committed, and rows are
 inserted by key, so every complete line is captured exactly once.
 */
module Capture {
  import opened Common
  import opened Jsonl
  import opened Claude

  // ----- Inserting by key -----

  function InsertEvent(rows: seq<CapturedEvent>, event: CapturedEvent): seq<CapturedEvent> {
    if exists r :: r in rows && r.key == event.key then rows else rows + [event]
  }

  function InsertEvents(rows: seq<CapturedEvent>, events: seq<CapturedEvent>): seq<CapturedEvent> {
    if events == [] then rows else InsertEvent(InsertEvents(rows, events[..|events| - 1]), events[|events| - 1])
  }

  ghost predicate DistinctKeys(events: seq<CapturedEvent>) {
    forall i, j :: 0 <= i < j < |events| ==> events[i].key != events[j].key
  }

  lemma {:induction false} InsertKnown(rows: seq<CapturedEvent>, events: seq<CapturedEvent>)
    requires forall e :: e in events ==> e in rows
    ensures InsertEvents(rows, events) == rows
  {
    if events != [] {
      InsertKnown(rows, events[..|events| - 1]);
      assert events[|events| - 1] in rows;
    }
  }

  lemma {:induction false} InsertNew(rows: seq<CapturedEvent>, events: seq<CapturedEvent>)
    requires DistinctKeys(rows + events)
    ensures InsertEvents(rows, events) == rows + events
  {
    if events == [] {
      assert rows + [] == rows;
    } else {
      var front, last := events[..|events| - 1], events[|events| - 1];
      var all := rows + events;
      assert all == rows + front + [last] && all[|all| - 1] == last;
      assert DistinctKeys(rows + front) by {
        assert rows + front == all[..|all| - 1];
      }
      InsertNew(rows, front);
      forall r | r in rows + front ensures r.key != last.key {
        var i :| 0 <= i < |rows + front| && (rows + front)[i] == r;
        assert all[i] == r;
      }
    }
  }

  lemma {:induction false} InsertConcat(rows: seq<CapturedEvent>, a: seq<CapturedEvent>, b: seq<CapturedEvent>)
    ensures InsertEvents(rows, a + b) == InsertEvents(InsertEvents(rows, a), b)
  {
    hide InsertEvent;
    if b == [] {
      assert a + b == a;
    } else {
      assert (a + b)[..|a + b| - 1] == a + b[..|b| - 1];
      InsertConcat(rows, a, b[..|b| - 1]);
    }
  }

  /** Inserting what overlaps the rows adds only what is new. */
  lemma InsertOverlap(a: seq<CapturedEvent>, b: seq<CapturedEvent>, c: seq<CapturedEvent>)
    requires DistinctKeys(a + b + c)
    ensures InsertEvents(a + b, b + c) == a + b + c
  {
    InsertConcat(a + b, b, c);
    InsertKnown(a + b, b);
    InsertNew(a + b, c);
  }

  // ----- The events of many lines -----

  function AllEvents(codec: Codec, source: Bytes, records: seq<RawRecord>): seq<CapturedEvent> {
    if records == [] then []
    else AllEvents(codec, source, records[..|records| - 1]) + EventsOf(codec, source, records[|records| - 1])
  }

  lemma {:induction false} AllEventsConcat(codec: Codec, source: Bytes, a: seq<RawRecord>, b: seq<RawRecord>)
    ensures AllEvents(codec, source, a + b) == AllEvents(codec, source, a) + AllEvents(codec, source, b)
  {
    hide EventsOf;
    if b == [] {
      assert a + b == a;
    } else {
      assert (a + b)[..|a + b| - 1] == a + b[..|b| - 1];
      AllEventsConcat(codec, source, a, b[..|b| - 1]);
    }
  }

  predicate AllConvert(codec: Codec, records: seq<RawRecord>) {
    forall r :: r in records ==> Converts(codec, r)
  }

  predicate OffsetsIncrease(records: seq<RawRecord>) {
    forall i, j :: 0 <= i < j < |records| ==> records[i].byteOffset < records[j].byteOffset
  }

  lemma {:induction false} TilesIncrease(records: seq<RawRecord>, from: nat, to: nat)
    requires Tiles(records, from, to)
    ensures OffsetsIncrease(records) && forall r :: r in records ==> r.byteOffset >= from
  {
    if records != [] {
      TilesIncrease(records[1..], records[0].nextByteOffset, to);
      assert records == [records[0]] + records[1..];
      forall j | 0 < j < |records| ensures records[0].byteOffset < records[j].byteOffset {
        assert records[j] in records[1..];
      }
    }
  }

  /** An event comes from a line and a position in it. */
  ghost predicate ComesFrom(codec: Codec, source: Bytes, e: CapturedEvent, r: RawRecord, ordinal: nat) {
    ordinal < |Candidates(codec, r.bytes)| && e == EventAt(codec, source, r, ordinal)
  }

  lemma {:induction false} EventsComeFromLines(codec: Codec, source: Bytes, records: seq<RawRecord>, e: CapturedEvent)
    returns (r: RawRecord, ordinal: nat)
    requires e in AllEvents(codec, source, records)
    ensures r in records && ComesFrom(codec, source, e, r, ordinal)
  {
    hide Candidates, EventAt;
    var front, last := records[..|records| - 1], records[|records| - 1];
    if e in AllEvents(codec, source, front) {
      r, ordinal := EventsComeFromLines(codec, source, front, e);
    } else {
      r := last;
      ordinal :| 0 <= ordinal < |EventsOf(codec, source, last)| && EventsOf(codec, source, last)[ordinal] == e;
    }
  }

  lemma KeyIdentifies(codec: Codec, source: Bytes, e: CapturedEvent, r: RawRecord, m: nat, f: CapturedEvent, s: RawRecord, n: nat)
    requires Digests(codec) && Converts(codec, r) && Converts(codec, s)
    requires ComesFrom(codec, source, e, r, m) && ComesFrom(codec, source, f, s, n) && e.key == f.key
    ensures r.byteOffset == s.byteOffset && m == n
  {
    hide Candidates, Frame;
    FrameIsInjective(source, r.byteOffset, codec.digest(r.bytes), m, source, s.byteOffset, codec.digest(s.bytes), n);
  }

  lemma EventsOfOneLineDiffer(codec: Codec, source: Bytes, r: RawRecord)
    requires Digests(codec) && Converts(codec, r)
    ensures DistinctKeys(EventsOf(codec, source, r))
  {
    hide Candidates, EventAt;
    var events := EventsOf(codec, source, r);
    forall i, j | 0 <= i < j < |events| ensures events[i].key != events[j].key {
      if events[i].key == events[j].key {
        KeyIdentifies(codec, source, events[i], r, i, events[j], r, j);
      }
    }
  }

  /** Lines at different offsets give events with different keys. */
  lemma {:induction false} KeysDiffer(codec: Codec, source: Bytes, records: seq<RawRecord>)
    requires Digests(codec) && AllConvert(codec, records) && OffsetsIncrease(records)
    ensures DistinctKeys(AllEvents(codec, source, records))
  {
    hide Digests, EventsOf, Converts;
    if records != [] {
      var front, last := records[..|records| - 1], records[|records| - 1];
      KeysDiffer(codec, source, front);
      EventsOfOneLineDiffer(codec, source, last);
      var before, own := AllEvents(codec, source, front), EventsOf(codec, source, last);
      forall e, f | e in before && f in own ensures e.key != f.key {
        LaterLineDiffers(codec, source, front, last, e, f);
      }
      assert AllEvents(codec, source, records) == before + own;
      TwoDistinctParts(before, own);
    }
  }

  lemma TwoDistinctParts(a: seq<CapturedEvent>, b: seq<CapturedEvent>)
    requires DistinctKeys(a) && DistinctKeys(b) && forall e, f :: e in a && f in b ==> e.key != f.key
    ensures DistinctKeys(a + b)
  {
    var all := a + b;
    forall i, j | 0 <= i < j < |all| ensures all[i].key != all[j].key {
      if i < |a| <= j {
        assert a[i] in a && b[j - |a|] in b;
      } else if i >= |a| {
        assert all[i] == b[i - |a|] && all[j] == b[j - |a|];
      }
    }
  }

  lemma LaterLineDiffers(codec: Codec, source: Bytes, front: seq<RawRecord>, last: RawRecord, e: CapturedEvent, f: CapturedEvent)
    requires Digests(codec) && AllConvert(codec, front + [last]) && OffsetsIncrease(front + [last])
    requires e in AllEvents(codec, source, front) && f in EventsOf(codec, source, last)
    ensures e.key != f.key
  {
    hide Digests, Candidates, EventAt, Converts;
    var r, m := EventsComeFromLines(codec, source, front, e);
    var n :| 0 <= n < |EventsOf(codec, source, last)| && EventsOf(codec, source, last)[n] == f;
    var i :| 0 <= i < |front| && front[i] == r;
    assert (front + [last])[i] == r && (front + [last])[|front|] == last;
    assert r in front + [last] && last in front + [last];
    if e.key == f.key {
      KeyIdentifies(codec, source, e, r, m, f, last, n);
    }
  }

  // ----- Runs -----

  /** One transcript, the rows captured from it, and every cursor that was ever committed. */
  datatype Tracking = Tracking(file: File, cursor: SourceCursor, committed: seq<SourceCursor>, rows: seq<CapturedEvent>)

  /** The transcript grows, a poll is taken, or a crash falls back to an earlier committed cursor. */
  datatype Step = Grow(more: Bytes) | Poll | FallBack(k: nat)

  function Fresh(file: File): Tracking {
    Tracking(file, START, [START], [])
  }

  /** Rows and cursor are written in one transaction; a line that does not convert stops the poll before it. */
  function PollOnce(codec: Codec, source: Bytes, t: Tracking): Tracking {
    var outcome := Read(t.file, t.cursor);
    if outcome.NoChange? || !AllConvert(codec, outcome.records) then t
    else
      t.(cursor := outcome.nextCursor, committed := t.committed + [outcome.nextCursor],
         rows := InsertEvents(t.rows, AllEvents(codec, source, outcome.records)))
  }

  function Take(codec: Codec, source: Bytes, t: Tracking, step: Step): Tracking {
    match step
    case Grow(more) => t.(file := File(t.file.identity, t.file.content + more))
    case Poll => PollOnce(codec, source, t)
    case FallBack(k) => if k < |t.committed| then t.(cursor := t.committed[k]) else t
  }

  function Run(codec: Codec, source: Bytes, t: Tracking, steps: seq<Step>): Tracking
    decreases |steps|
  {
    if steps == [] then t else Run(codec, source, Take(codec, source, t, steps[0]), steps[1..])
  }

  function HighWater(cursors: seq<SourceCursor>): nat {
    if cursors == [] then 0 else Max(HighWater(cursors[..|cursors| - 1]), cursors[|cursors| - 1].byteOffset)
  }

  lemma {:induction false} HighWaterBounds(cursors: seq<SourceCursor>)
    ensures forall c :: c in cursors ==> c.byteOffset <= HighWater(cursors)
    ensures HighWater(cursors) == 0 || exists c :: c in cursors && c.byteOffset == HighWater(cursors)
  {
    if cursors != [] {
      var front, last := cursors[..|cursors| - 1], cursors[|cursors| - 1];
      assert cursors == front + [last];
      HighWaterBounds(front);
      if HighWater(front) > last.byteOffset {
        var c :| c in front && c.byteOffset == HighWater(front);
        assert c in cursors;
      } else {
        assert last in cursors;
      }
    }
  }

  /** What one clean pass over the first `n` bytes captures. */
  function CleanPass(codec: Codec, source: Bytes, content: Bytes, n: nat): seq<CapturedEvent>
    requires n <= |content|
  {
    AllEvents(codec, source, Records(content[..n], 0))
  }

  /** A place between two lines. */
  predicate IsBoundary(content: Bytes, n: nat) {
    n <= |content| && (n == 0 || content[n - 1] == NEWLINE)
  }

  predicate GoodCursor(file: File, c: SourceCursor) {
    IsBoundary(file.content, c.byteOffset) && (c.fileIdentity.Some? ==> c.fileIdentity.value == file.identity)
  }

  ghost predicate GoodCursors(file: File, cursors: seq<SourceCursor>) {
    forall c :: c in cursors ==> GoodCursor(file, c)
  }

  ghost predicate Captured(codec: Codec, source: Bytes, t: Tracking) {
    && GoodCursors(t.file, t.committed) && t.cursor in t.committed
    && IsBoundary(t.file.content, HighWater(t.committed))
    && t.rows == CleanPass(codec, source, t.file.content, HighWater(t.committed))
    && AllConvert(codec, Records(t.file.content[..HighWater(t.committed)], 0))
  }

  // ----- Boundaries -----

  lemma BoundaryCommits(content: Bytes, n: nat)
    requires IsBoundary(content, n)
    ensures Committed(content[..n], 0) == n
  {
    CommittedIsLastNewline(content[..n], 0, n);
  }

  lemma BoundaryOfLonger(content: Bytes, longer: Bytes, n: nat)
    requires IsBoundary(content, n) && content <= longer
    ensures IsBoundary(longer, n) && longer[..n] == content[..n]
  {
  }

  /** A content splits at a boundary into the lines before it and the lines after it. */
  lemma RecordsSplit(content: Bytes, n: nat)
    requires IsBoundary(content, n)
    ensures Records(content, 0) == Records(content[..n], 0) + Records(content, n)
    ensures Committed(content, 0) == Committed(content, n)
  {
    BoundaryCommits(content, n);
    RecordsResume(content[..n], content, 0);
  }

  lemma RecordsBetween(content: Bytes, m: nat, n: nat)
    requires IsBoundary(content, m) && IsBoundary(content, n) && m <= n
    ensures Records(content[..n], 0) == Records(content[..m], 0) + Records(content[..n], m)
    ensures Records(content, m) == Records(content[..n], m) + Records(content, n)
  {
    assert content[..n][..m] == content[..m];
    RecordsSplit(content[..n], m);
    CommittedIsLastNewline(content[..n], m, n);
    RecordsResume(content[..n], content, m);
  }

  /** The end of the last line is a boundary, and the lines before it are all the lines. */
  lemma LastLineEnds(content: Bytes)
    ensures IsBoundary(content, Committed(content, 0))
    ensures Records(content[..Committed(content, 0)], 0) == Records(content, 0)
  {
    var n := Committed(content, 0);
    CommittedEndsALine(content, 0);
    RecordsTile(content, 0);
    RecordsSplit(content, n);
    FirstNewline(content, n);
    NewlineIsThere(content, n, |content|);
    assert Records(content, n) == [];
    assert Records(content[..n], 0) + [] == Records(content[..n], 0);
  }

  lemma {:induction false} CommittedEndsALine(content: Bytes, from: nat)
    requires from <= |content|
    ensures Committed(content, from) > from ==> content[Committed(content, from) - 1] == NEWLINE
    decreases |content| - from
  {
    var newline := NewlineFrom(content, from);
    FirstNewline(content, from);
    if newline < |content| {
      CommittedEndsALine(content, newline + 1);
    }
  }

  // ----- Steps keep the capture exact -----

  lemma GrowKeeps(codec: Codec, source: Bytes, t: Tracking, more: Bytes)
    requires Captured(codec, source, t)
    ensures Captured(codec, source, Take(codec, source, t, Grow(more)))
  {
    var longer := t.file.content + more;
    BoundaryOfLonger(t.file.content, longer, HighWater(t.committed));
    forall c | c in t.committed ensures GoodCursor(File(t.file.identity, longer), c) {
      assert GoodCursor(t.file, c);
      BoundaryOfLonger(t.file.content, longer, c.byteOffset);
    }
    hide HighWater, Records, AllEvents, Converts;
  }

  lemma FallBackKeeps(codec: Codec, source: Bytes, t: Tracking, k: nat)
    requires Captured(codec, source, t)
    ensures Captured(codec, source, Take(codec, source, t, FallBack(k)))
  {
    hide HighWater, Records, AllEvents, Converts, GoodCursors;
  }

  /** What a poll that converts leaves in the rows: everything up to the last complete line. */
  lemma PollInsertsTheRest(codec: Codec, source: Bytes, content: Bytes, m: nat, n: nat)
    requires Digests(codec) && IsBoundary(content, m) && IsBoundary(content, n) && m <= n
    requires AllConvert(codec, Records(content[..n], 0)) && AllConvert(codec, Records(content, m))
    ensures InsertEvents(CleanPass(codec, source, content, n), AllEvents(codec, source, Records(content, m)))
         == AllEvents(codec, source, Records(content, 0))
  {
    assert m <= |content| && n <= |content|;
    hide Digests, Records, AllEvents, Converts, IsBoundary, InsertEvents, Committed;
    var a, b, c := Records(content[..m], 0), Records(content[..n], m), Records(content, n);
    RecordsBetween(content, m, n);
    RecordsSplit(content, n);
    AllEventsConcat(codec, source, a, b);
    AllEventsConcat(codec, source, b, c);
    AllEventsConcat(codec, source, a + b, c);
    assert AllConvert(codec, Records(content, 0));
    AllKeysDiffer(codec, source, content);
    InsertOverlap(AllEvents(codec, source, a), AllEvents(codec, source, b), AllEvents(codec, source, c));
  }

  lemma AllKeysDiffer(codec: Codec, source: Bytes, content: Bytes)
    requires Digests(codec) && AllConvert(codec, Records(content, 0))
    ensures DistinctKeys(AllEvents(codec, source, Records(content, 0)))
  {
    RecordsTile(content, 0);
    hide Digests, Records, AllEvents, Converts;
    TilesIncrease(Records(content, 0), 0, Committed(content, 0));
    KeysDiffer(codec, source, Records(content, 0));
  }

  lemma UnrotatedRead(file: File, cursor: SourceCursor)
    requires GoodCursor(file, cursor)
    ensures !IsRotated(file, cursor) && StartOffset(file, cursor) == cursor.byteOffset
    ensures Read(file, cursor).NoChange? <==> Records(file.content, cursor.byteOffset) == []
    ensures Read(file, cursor).Batch? ==>
              && Read(file, cursor).records == Records(file.content, cursor.byteOffset)
              && Read(file, cursor).nextCursor == SourceCursor(Committed(file.content, cursor.byteOffset), Some(file.identity))
  {
    hide Records, Committed;
  }

  lemma HighWaterOneMore(cursors: seq<SourceCursor>, c: SourceCursor)
    ensures HighWater(cursors + [c]) == Max(HighWater(cursors), c.byteOffset)
  {
    assert (cursors + [c])[..|cursors|] == cursors;
  }

  lemma CommittedReachesHighWater(content: Bytes, m: nat, n: nat)
    requires IsBoundary(content, m) && IsBoundary(content, n) && m <= n
    ensures Committed(content, m) == Committed(content, 0) >= n
  {
    RecordsSplit(content, m);
    RecordsSplit(content, n);
    assert Committed(content, n) >= n;
  }

  lemma CapturedGives(codec: Codec, source: Bytes, t: Tracking)
    requires Captured(codec, source, t)
    ensures GoodCursor(t.file, t.cursor) && t.cursor.byteOffset <= HighWater(t.committed)
    ensures IsBoundary(t.file.content, t.cursor.byteOffset) && IsBoundary(t.file.content, HighWater(t.committed))
    ensures t.rows == CleanPass(codec, source, t.file.content, HighWater(t.committed))
    ensures AllConvert(codec, Records(t.file.content[..HighWater(t.committed)], 0))
  {
    HighWaterBounds(t.committed);
    hide HighWater, Records, AllEvents, Converts;
  }

  /** A poll whose lines convert catches up with the last complete line of the file. */
  lemma PollCatchesUp(codec: Codec, source: Bytes, t: Tracking)
    requires Digests(codec) && Captured(codec, source, t)
    requires Read(t.file, t.cursor).Batch? && AllConvert(codec, Read(t.file, t.cursor).records)
    ensures var t1 := PollOnce(codec, source, t);
            && HighWater(t1.committed) == Committed(t.file.content, 0)
            && t1.rows == AllEvents(codec, source, Records(t.file.content, 0))
            && AllConvert(codec, Records(t.file.content, 0))
  {
    hide *;
    var content, m, n := t.file.content, t.cursor.byteOffset, HighWater(t.committed);
    CapturedGives(codec, source, t);
    UnrotatedRead(t.file, t.cursor);
    PollUnfolds(codec, source, t);
    PollInsertsTheRest(codec, source, content, m, n);
    HighWaterOneMore(t.committed, Read(t.file, t.cursor).nextCursor);
    CommittedReachesHighWater(content, m, n);
    MaxOfGreater(n, Committed(content, 0));
    ConvertsBoth(codec, content, m, n);
  }

  lemma MaxOfGreater(a: nat, b: nat)
    requires a <= b
    ensures Max(a, b) == b
  {
  }

  lemma ConvertsBoth(codec: Codec, content: Bytes, m: nat, n: nat)
    requires IsBoundary(content, m) && IsBoundary(content, n) && m <= n
    requires AllConvert(codec, Records(content[..n], 0)) && AllConvert(codec, Records(content, m))
    ensures AllConvert(codec, Records(content, 0))
  {
    RecordsBetween(content, m, n);
    RecordsSplit(content, n);
    hide Records, Converts, IsBoundary;
  }

  lemma PollUnfolds(codec: Codec, source: Bytes, t: Tracking)
    requires Read(t.file, t.cursor).Batch? && AllConvert(codec, Read(t.file, t.cursor).records)
    ensures var batch := Read(t.file, t.cursor);
            PollOnce(codec, source, t)
            == Tracking(t.file, batch.nextCursor, t.committed + [batch.nextCursor],
                        InsertEvents(t.rows, AllEvents(codec, source, batch.records)))
  {
    hide Read, AllEvents, InsertEvents, AllConvert;
  }

  lemma PollKeeps(codec: Codec, source: Bytes, t: Tracking)
    requires Digests(codec) && Captured(codec, source, t)
    ensures Captured(codec, source, PollOnce(codec, source, t))
  {
    hide *;
    if Read(t.file, t.cursor).Batch? && AllConvert(codec, Read(t.file, t.cursor).records) {
      var t1 := PollOnce(codec, source, t);
      PollCatchesUp(codec, source, t);
      PollUnfolds(codec, source, t);
      CapturedGives(codec, source, t);
      UnrotatedRead(t.file, t.cursor);
      CommittedReachesHighWater(t.file.content, t.cursor.byteOffset, HighWater(t.committed));
      LastLineEnds(t.file.content);
      GoodCursorsOneMore(codec, source, t, Read(t.file, t.cursor).nextCursor);
      CapturedMeans(codec, source, t1);
    } else {
      PollSkips(codec, source, t);
    }
  }

  lemma PollSkips(codec: Codec, source: Bytes, t: Tracking)
    requires !(Read(t.file, t.cursor).Batch? && AllConvert(codec, Read(t.file, t.cursor).records))
    ensures PollOnce(codec, source, t) == t
  {
    hide Read, AllEvents, InsertEvents, AllConvert;
  }

  lemma GoodCursorsOneMore(codec: Codec, source: Bytes, t: Tracking, c: SourceCursor)
    requires Captured(codec, source, t) && IsBoundary(t.file.content, c.byteOffset) && c.fileIdentity == Some(t.file.identity)
    ensures GoodCursors(t.file, t.committed + [c]) && c in t.committed + [c]
  {
    hide HighWater, Records, AllEvents, Converts;
  }

  lemma CapturedMeans(codec: Codec, source: Bytes, t: Tracking)
    requires GoodCursors(t.file, t.committed) && t.cursor in t.committed
    requires var n := HighWater(t.committed);
             && n == Committed(t.file.content, 0) && IsBoundary(t.file.content, n)
             && Records(t.file.content[..n], 0) == Records(t.file.content, 0)
    requires t.rows == AllEvents(codec, source, Records(t.file.content, 0))
    requires AllConvert(codec, Records(t.file.content, 0))
    ensures Captured(codec, source, t)
  {
    hide HighWater, Records, AllEvents, Converts, GoodCursors;
  }

  lemma FreshIsCaptured(codec: Codec, source: Bytes, file: File)
    ensures Captured(codec, source, Fresh(file))
  {
    assert Records(file.content[..0], 0) == [];
    assert HighWater([START]) == 0 by {
      assert [START][..0] == [];
    }
  }

  /**
   Exactly-once capture. Whatever the transcript grows by, however the polls fall between, and
   whichever committed cursors crashes fall back to, the rows are always those of one clean pass over
   the bytes up to the furthest committed cursor, in order, and that cursor is between two lines.
   */
  lemma {:induction false} RunCapturesExactlyOnce(codec: Codec, source: Bytes, t: Tracking, steps: seq<Step>)
    requires Digests(codec) && Captured(codec, source, t)
    ensures Captured(codec, source, Run(codec, source, t, steps))
    decreases |steps|
  {
    hide Captured, Digests, PollOnce;
    if steps != [] {
      match steps[0] {
        case Grow(more) => GrowKeeps(codec, source, t, more);
        case Poll => PollKeeps(codec, source, t);
        case FallBack(k) => FallBackKeeps(codec, source, t, k);
      }
      hide Take;
      RunCapturesExactlyOnce(codec, source, Take(codec, source, t, steps[0]), steps[1..]);
    }
  }

  /** After any run, no two rows have the same key. */
  lemma RowsAreUnique(codec: Codec, source: Bytes, t: Tracking)
    requires Digests(codec) && Captured(codec, source, t)
    ensures DistinctKeys(t.rows)
  {
    AllKeysDiffer(codec, source, t.file.content[..HighWater(t.committed)]);
  }

  /**
   One more poll finishes the work: if all complete lines convert, then after any run the rows become
   exactly those of one clean pass over the whole newline-terminated content.
   */
  lemma OnePollCompletes(codec: Codec, source: Bytes, t: Tracking)
    requires Digests(codec) && Captured(codec, source, t) && AllConvert(codec, Records(t.file.content, 0))
    ensures PollOnce(codec, source, t).rows == AllEvents(codec, source, Records(t.file.content, 0))
  {
    hide *;
    CapturedGives(codec, source, t);
    UnrotatedRead(t.file, t.cursor);
    PartConverts(codec, t.file.content, t.cursor.byteOffset);
    if Read(t.file, t.cursor).Batch? {
      PollCatchesUp(codec, source, t);
    } else {
      PollSkips(codec, source, t);
      NothingNewMeansAll(codec, source, t);
    }
  }

  lemma PartConverts(codec: Codec, content: Bytes, m: nat)
    requires IsBoundary(content, m) && AllConvert(codec, Records(content, 0))
    ensures AllConvert(codec, Records(content, m))
  {
    RecordsSplit(content, m);
    hide Records, Converts;
  }

  lemma NothingNewMeansAll(codec: Codec, source: Bytes, t: Tracking)
    requires Captured(codec, source, t) && Records(t.file.content, t.cursor.byteOffset) == []
    ensures t.rows == AllEvents(codec, source, Records(t.file.content, 0))
  {
    CapturedGives(codec, source, t);
    var content, m, n := t.file.content, t.cursor.byteOffset, HighWater(t.committed);
    RecordsBetween(content, m, n);
    RecordsSplit(content, n);
    hide Records, AllEvents, Converts, HighWater, IsBoundary, Captured;
    assert Records(content, n) == [];
    assert Records(content[..n], 0) + [] == Records(content[..n], 0);
  }

  // ----- The store -----

  /** The event table and the cursor of one source. */
  class EventStore {
    var rows: seq<CapturedEvent>
    var cursor: SourceCursor

    constructor ()
      ensures rows == [] && cursor == START
    {
      rows, cursor := [], START;
    }

    /** Insert events by key and save the cursor, in one transaction. */
    method AppendBatch(events: seq<CapturedEvent>, next: SourceCursor) returns (inserted: nat)
      modifies this
      ensures rows == InsertEvents(old(rows), events) && cursor == next
      ensures |rows| == |old(rows)| + inserted
    {
      inserted := 0;
      var i := 0;
      while i < |events|
        invariant 0 <= i <= |events|
        invariant rows == InsertEvents(old(rows), events[..i])
        invariant |rows| == |old(rows)| + inserted
      {
        assert events[..i + 1][..i] == events[..i];
        if !exists r :: r in rows && r.key == events[i].key {
          rows := rows + [events[i]];
          inserted := inserted + 1;
        }
        i := i + 1;
      }
      assert events[..|events|] == events;
      cursor := next;
    }
  }

  method NormalizeAll(codec: Codec, source: Bytes, records: seq<RawRecord>) returns (events: Option<seq<CapturedEvent>>)
    ensures events == if AllConvert(codec, records) then Some(AllEvents(codec, source, records)) else None
  {
    hide Converts, EventsOf;
    var out: seq<CapturedEvent> := [];
    var i := 0;
    while i < |records|
      invariant 0 <= i <= |records|
      invariant AllConvert(codec, records[..i]) && out == AllEvents(codec, source, records[..i])
    {
      var more := Normalize(codec, source, records[i]);
      assert records[i] in records;
      if more.None? {
        return None;
      }
      assert records[..i + 1][..i] == records[..i];
      assert forall r :: r in records[..i + 1] <==> r in records[..i] || r == records[i];
      out := out + more.value;
      i := i + 1;
    }
    assert records[..|records|] == records;
    return Some(out);
  }

  /** One poll of a source, as the service runs it. */
  method PollSource(codec: Codec, source: Bytes, file: File, store: EventStore, ghost committed: seq<SourceCursor>)
    modifies store
    ensures var t := PollOnce(codec, source, Tracking(file, old(store.cursor), committed, old(store.rows)));
            store.rows == t.rows && store.cursor == t.cursor
  {
    hide Read, AllConvert, AllEvents, InsertEvents;
    var outcome := ReadIncrement(file, store.cursor);
    if outcome.Batch? {
      var events := NormalizeAll(codec, source, outcome.records);
      if events.Some? {
        var _ := store.AppendBatch(events.value, outcome.nextCursor);
      }
    }
  }
}
