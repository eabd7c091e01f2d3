/** Reading a line-oriented file from a byte offset, one complete line at a time. */
module Jsonl {
  import opened Common

  type Byte = b: int | 0 <= b < 256

  type Bytes = seq<Byte>

  const NEWLINE: Byte := 10
  const RETURN: Byte := 13

  datatype File = File(identity: string, content: Bytes)

  datatype SourceCursor = SourceCursor(byteOffset: nat, fileIdentity: Option<string>)

  const START := SourceCursor(0, None)

  /** One line: where it starts, where the next one starts, and its bytes without the line end. */
  datatype RawRecord = RawRecord(byteOffset: nat, nextByteOffset: nat, bytes: Bytes)

  datatype FileRotation = FileRotation(
    previousIdentity: Option<string>, currentIdentity: string, previousOffset: nat, currentSize: nat)

  datatype ReadOutcome =
    | NoChange
    | Batch(records: seq<RawRecord>, nextCursor: SourceCursor, rotation: Option<FileRotation>)

  // ----- What the lines of a file are -----

  /** The position of the first newline at or after an offset, or the end of the content. */
  function NewlineFrom(content: Bytes, from: nat): (n: nat)
    requires from <= |content|
    ensures from <= n <= |content|
    decreases |content| - from
  {
    if from == |content| || content[from] == NEWLINE then from else NewlineFrom(content, from + 1)
  }

  function WithoutReturn(line: Bytes): Bytes {
    if line != [] && line[|line| - 1] == RETURN then line[..|line| - 1] else line
  }

  function RecordAt(content: Bytes, from: nat, newline: nat): RawRecord
    requires from <= newline < |content|
  {
    RawRecord(from, newline + 1, WithoutReturn(content[from..newline]))
  }

  /** The complete lines from an offset on. */
  function Records(content: Bytes, from: nat): seq<RawRecord>
    requires from <= |content|
    decreases |content| - from
  {
    var newline := NewlineFrom(content, from);
    if newline == |content| then [] else [RecordAt(content, from, newline)] + Records(content, newline + 1)
  }

  /** Where the last complete line ends. */
  function Committed(content: Bytes, from: nat): (n: nat)
    requires from <= |content|
    ensures from <= n <= |content|
    decreases |content| - from
  {
    var newline := NewlineFrom(content, from);
    if newline == |content| then from else Committed(content, newline + 1)
  }

  predicate NoNewline(content: Bytes, from: nat, to: nat)
    requires from <= to <= |content|
  {
    forall i :: from <= i < to ==> content[i] != NEWLINE
  }

  lemma {:induction false} FirstNewline(content: Bytes, from: nat)
    requires from <= |content|
    ensures NoNewline(content, from, NewlineFrom(content, from))
    ensures NewlineFrom(content, from) < |content| ==> content[NewlineFrom(content, from)] == NEWLINE
    decreases |content| - from
  {
    if from < |content| && content[from] != NEWLINE {
      FirstNewline(content, from + 1);
    }
  }

  lemma {:induction false} NewlineIsThere(content: Bytes, from: nat, n: nat)
    requires from <= n <= |content| && NoNewline(content, from, n) && (n < |content| ==> content[n] == NEWLINE)
    ensures NewlineFrom(content, from) == n
    decreases |content| - from
  {
    if from < n {
      NewlineIsThere(content, from + 1, n);
    }
  }

  // ----- Tiling -----

  /** Records that follow each other without a gap, from one offset to another. */
  ghost predicate Tiles(records: seq<RawRecord>, from: nat, to: nat) {
    if records == [] then from == to
    else records[0].byteOffset == from < records[0].nextByteOffset && Tiles(records[1..], records[0].nextByteOffset, to)
  }

  /** A record is exactly one line of the content: no newline inside, one at its end. */
  ghost predicate IsLine(content: Bytes, r: RawRecord) {
    && r.byteOffset < r.nextByteOffset <= |content|
    && content[r.nextByteOffset - 1] == NEWLINE
    && NoNewline(content, r.byteOffset, r.nextByteOffset - 1)
    && r.bytes == WithoutReturn(content[r.byteOffset..r.nextByteOffset - 1])
  }

  /**
   The complete lines tile the stretch from the start to the committed offset, each record is one
   line, and what is left unread holds no newline.
   */
  lemma {:induction false} RecordsTile(content: Bytes, from: nat)
    requires from <= |content|
    ensures Tiles(Records(content, from), from, Committed(content, from))
    ensures forall r :: r in Records(content, from) ==> IsLine(content, r)
    ensures NoNewline(content, Committed(content, from), |content|)
    decreases |content| - from
  {
    var newline := NewlineFrom(content, from);
    FirstNewline(content, from);
    if newline < |content| {
      RecordsTile(content, newline + 1);
      var rest := Records(content, newline + 1);
      var all := Records(content, from);
      assert all[0] == RecordAt(content, from, newline) && all[1..] == rest;
      forall r | r in all ensures IsLine(content, r) {
        if r in rest {
        } else {
          assert r == RecordAt(content, from, newline);
        }
      }
    }
  }

  /** The committed offset is the end of the last newline, wherever reading started before it. */
  lemma {:induction false} CommittedIsLastNewline(content: Bytes, from: nat, n: nat)
    requires from <= n <= |content| && NoNewline(content, n, |content|)
    requires n > from ==> content[n - 1] == NEWLINE
    ensures Committed(content, from) == n
    decreases |content| - from
  {
    var newline := NewlineFrom(content, from);
    FirstNewline(content, from);
    if newline < |content| {
      assert n > newline;
      CommittedIsLastNewline(content, newline + 1, n);
    }
  }

  // ----- Growing files -----

  lemma NewlineOfLonger(content: Bytes, longer: Bytes, from: nat)
    requires content <= longer && from <= |content| && NewlineFrom(content, from) < |content|
    ensures NewlineFrom(longer, from) == NewlineFrom(content, from)
  {
    FirstNewline(content, from);
    NewlineIsThere(longer, from, NewlineFrom(content, from));
  }

  lemma Assoc<T>(a: seq<T>, b: seq<T>, c: seq<T>)
    ensures (a + b) + c == a + (b + c)
  {
  }

  lemma RecordsUnfold(content: Bytes, from: nat)
    requires from <= |content|
    ensures var newline := NewlineFrom(content, from);
            if newline == |content| then Records(content, from) == [] && Committed(content, from) == from
            else
              Records(content, from) == [RecordAt(content, from, newline)] + Records(content, newline + 1)
              && Committed(content, from) == Committed(content, newline + 1)
  {
  }

  lemma SameRecord(content: Bytes, longer: Bytes, from: nat, newline: nat)
    requires content <= longer && from <= newline < |content|
    ensures RecordAt(longer, from, newline) == RecordAt(content, from, newline)
  {
    assert longer[from..newline] == content[from..newline];
  }

  /** Reading in two steps reads what one step reads: nothing is lost and nothing is read twice. */
  lemma {:induction false} RecordsResume(content: Bytes, longer: Bytes, from: nat)
    requires content <= longer && from <= |content|
    ensures Records(longer, from) == Records(content, from) + Records(longer, Committed(content, from))
    ensures Committed(longer, from) == Committed(longer, Committed(content, from))
    decreases |content| - from
  {
    hide Records, Committed, RecordAt, NewlineFrom;
    var newline := NewlineFrom(content, from);
    RecordsUnfold(content, from);
    if newline < |content| {
      NewlineOfLonger(content, longer, from);
      RecordsUnfold(longer, from);
      SameRecord(content, longer, from, newline);
      RecordsResume(content, longer, newline + 1);
      Assoc([RecordAt(content, from, newline)], Records(content, newline + 1), Records(longer, Committed(content, newline + 1)));
    } else {
      assert [] + Records(longer, from) == Records(longer, from);
    }
  }

  // ----- The reader -----

  predicate IsRotated(file: File, cursor: SourceCursor) {
    || (cursor.fileIdentity.Some? && cursor.fileIdentity.value != file.identity)
    || |file.content| < cursor.byteOffset
  }

  function StartOffset(file: File, cursor: SourceCursor): (n: nat)
    ensures n <= |file.content|
  {
    if IsRotated(file, cursor) then 0 else cursor.byteOffset
  }

  function Read(file: File, cursor: SourceCursor): ReadOutcome {
    var from := StartOffset(file, cursor);
    var records := Records(file.content, from);
    var rotation :=
      if IsRotated(file, cursor)
      then Some(FileRotation(cursor.fileIdentity, file.identity, cursor.byteOffset, |file.content|))
      else None;
    if records == [] && rotation.None? then NoChange
    else Batch(records, SourceCursor(Committed(file.content, from), Some(file.identity)), rotation)
  }

  /** Read bytes up to and including a newline, or to the end of the file. */
  method ReadUntilNewline(content: Bytes, from: nat) returns (bytes: Bytes)
    requires from <= |content|
    ensures var n := NewlineFrom(content, from);
            bytes == if n < |content| then content[from..n + 1] else content[from..]
  {
    var i := from;
    while i < |content| && content[i] != NEWLINE
      invariant from <= i <= |content|
      invariant NewlineFrom(content, i) == NewlineFrom(content, from)
    {
      i := i + 1;
    }
    bytes := if i < |content| then content[from..i + 1] else content[from..];
  }

  /** One round of the reader: a complete line without its line end, or nothing if the line is unfinished. */
  method ReadLine(content: Bytes, offset: nat) returns (line: Option<RawRecord>)
    requires offset <= |content|
    ensures var newline := NewlineFrom(content, offset);
            line == if newline < |content| then Some(RecordAt(content, offset, newline)) else None
  {
    FirstNewline(content, offset);
    var bytes := ReadUntilNewline(content, offset);
    if bytes == [] || bytes[|bytes| - 1] != NEWLINE {
      return None;
    }
    var next := offset + |bytes|;
    bytes := bytes[..|bytes| - 1];
    assert bytes == content[offset..next - 1];
    if bytes != [] && bytes[|bytes| - 1] == RETURN {
      bytes := bytes[..|bytes| - 1];
    }
    return Some(RawRecord(offset, next, bytes));
  }

  /** The loop: read lines until one is unfinished, and commit past each that is complete. */
  method ReadLines(content: Bytes, start: nat) returns (records: seq<RawRecord>, committed: nat)
    requires start <= |content|
    ensures records == Records(content, start) && committed == Committed(content, start)
  {
    records, committed := [], start;
    hide Records, Committed, RecordAt, NewlineFrom;
    while true
      invariant start <= committed <= |content|
      invariant records + Records(content, committed) == Records(content, start)
      invariant Committed(content, committed) == Committed(content, start)
      decreases |content| - committed
    {
      var line := ReadLine(content, committed);
      RecordsUnfold(content, committed);
      if line.None? {
        assert records + [] == records;
        return;
      }
      Assoc(records, [line.value], Records(content, NewlineFrom(content, committed) + 1));
      RecordEndsAfterNewline(content, committed);
      records := records + [line.value];
      committed := line.value.nextByteOffset;
    }
  }

  lemma RecordEndsAfterNewline(content: Bytes, from: nat)
    requires from <= |content| && NewlineFrom(content, from) < |content|
    ensures RecordAt(content, from, NewlineFrom(content, from)).nextByteOffset == NewlineFrom(content, from) + 1
  {
  }

  method ReadIncrement(file: File, cursor: SourceCursor) returns (outcome: ReadOutcome)
    ensures outcome == Read(file, cursor)
  {
    var rotated := (cursor.fileIdentity.Some? && cursor.fileIdentity.value != file.identity)
                   || |file.content| < cursor.byteOffset;
    var start := if rotated then 0 else cursor.byteOffset;
    var rotation :=
      if rotated then Some(FileRotation(cursor.fileIdentity, file.identity, cursor.byteOffset, |file.content|)) else None;
    var records, committed := ReadLines(file.content, start);
    if records == [] && rotation.None? {
      return NoChange;
    }
    return Batch(records, SourceCursor(committed, Some(file.identity)), rotation);
  }

  // ----- What the reader promises -----

  /** A batch tiles the stretch it read, from where it started to its next cursor. */
  lemma BatchTiles(file: File, cursor: SourceCursor)
    requires Read(file, cursor).Batch?
    ensures var batch := Read(file, cursor);
            && Tiles(batch.records, StartOffset(file, cursor), batch.nextCursor.byteOffset)
            && NoNewline(file.content, batch.nextCursor.byteOffset, |file.content|)
            && forall r :: r in batch.records ==> IsLine(file.content, r)
  {
    RecordsTile(file.content, StartOffset(file, cursor));
  }

  /** No change is reported exactly when the file is not rotated and its unread part holds no newline. */
  lemma NoChangeIff(file: File, cursor: SourceCursor)
    ensures Read(file, cursor).NoChange? <==>
              !IsRotated(file, cursor) && NoNewline(file.content, cursor.byteOffset, |file.content|)
  {
    if !IsRotated(file, cursor) {
      FirstNewline(file.content, cursor.byteOffset);
      if NoNewline(file.content, cursor.byteOffset, |file.content|) {
        NewlineIsThere(file.content, cursor.byteOffset, |file.content|);
      }
    }
  }

  /**
   A rotated read starts over at the beginning and says so, and reading on with its cursor, however
   much the file has grown, is not reported as a rotation again.
   */
  lemma RotationIsReportedOnce(file: File, cursor: SourceCursor, more: Bytes)
    requires IsRotated(file, cursor)
    ensures var batch := Read(file, cursor);
            && batch.Batch? && batch.rotation.Some? && batch.records == Records(file.content, 0)
            && !IsRotated(File(file.identity, file.content + more), batch.nextCursor)
  {
  }

  /** What a record holds: its line up to the newline, less one carriage return if that is what stands before it. */
  lemma RecordSays(content: Bytes, from: nat, r: RawRecord)
    requires from <= |content| && r in Records(content, from)
    ensures r.byteOffset < r.nextByteOffset <= |content| && content[r.nextByteOffset - 1] == 10
    ensures var line := content[r.byteOffset..r.nextByteOffset - 1];
            if line != [] && line[|line| - 1] == 13 then line == r.bytes + [13] else line == r.bytes
  {
    RecordsTile(content, from);
    assert IsLine(content, r);
    hide *;
    LineSays(content, r);
  }

  lemma LineSays(content: Bytes, r: RawRecord)
    requires IsLine(content, r)
    ensures r.byteOffset < r.nextByteOffset <= |content| && content[r.nextByteOffset - 1] == 10
    ensures var line := content[r.byteOffset..r.nextByteOffset - 1];
            if line != [] && line[|line| - 1] == 13 then line == r.bytes + [13] else line == r.bytes
  {
    hide NoNewline;
    var line := content[r.byteOffset..r.nextByteOffset - 1];
    assert line != [] ==> line == line[..|line| - 1] + [line[|line| - 1]];
  }

  /**
   What a read reports besides its records: whether the file is another one or has shrunk, what was
   known of it before and is known now, and a cursor on this file.
   */
  lemma ReadSays(file: File, cursor: SourceCursor)
    ensures var rotated := (cursor.fileIdentity != None && cursor.fileIdentity != Some(file.identity)) || cursor.byteOffset > |file.content|;
            match Read(file, cursor)
            case NoChange => !rotated
            case Batch(records, next, rotation) =>
              && next.fileIdentity == Some(file.identity)
              && (rotation.Some? <==> rotated)
              && records == Records(file.content, if rotated then 0 else cursor.byteOffset)
              && (rotated ==> rotation.value == FileRotation(cursor.fileIdentity, file.identity, cursor.byteOffset, |file.content|))
              && (!rotated ==> records != [])
  {
    hide Records, Committed;
  }
}
