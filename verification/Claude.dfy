/** Turning transcript lines into events, each with a key that identifies it. */
module Claude {
  import opened Common
  import opened Json
  import opened Jsonl
  import opened Sequences

  /** The JSON parser and the 32-byte digest, which the model does not look into. */
  datatype Codec = Codec(parse: Bytes -> Result<Json, string>, text: Bytes -> string, digest: Bytes -> Bytes)

  ghost predicate Digests(codec: Codec) {
    forall b :: |codec.digest(b)| == 32
  }

  datatype EventType =
    | UserPrompted
    | ToolFailed
    | ToolCompleted
    | AgentResponded
    | ToolRequested
    | SystemObserved
    | AttachmentObserved
    | QueueOperationObserved
    | ModeChanged
    | SessionRelocated
    | SchemaUnknown

  datatype Candidate = Candidate(eventType: EventType, payload: Json)

  datatype CapturedEvent = CapturedEvent(
    key: Bytes, sourceOffset: nat, eventType: EventType, payload: Json, sessionId: string, turnId: Option<string>)

  // ----- What a line says -----

  function RawValue(codec: Codec, bytes: Bytes): Json {
    var parsed := codec.parse(bytes);
    if parsed.Ok? then parsed.value else Obj(map["raw_text" := Str(codec.text(bytes))])
  }

  function NativeType(raw: Json): string {
    var t := GetStr(raw, "type");
    if t.Some? then t.value else "malformed"
  }

  function MessageContent(raw: Json): Option<Json> {
    var message := Get(raw, "message");
    if message.Some? then Get(message.value, "content") else None
  }

  function MessageBlocks(raw: Json): seq<Json> {
    var content := MessageContent(raw);
    if content.Some? && content.value.Arr? then content.value.items else []
  }

  predicate IsToolResult(block: Json) {
    GetStr(block, "type") == Some("tool_result")
  }

  predicate IsToolUse(block: Json) {
    GetStr(block, "type") == Some("tool_use") || GetStr(block, "type") == Some("server_tool_use")
  }

  predicate IsPromptBlock(block: Json) {
    GetStr(block, "type") == Some("text") || GetStr(block, "type") == Some("image") || GetStr(block, "type") == Some("document")
  }

  predicate HasPromptContent(raw: Json) {
    var content := MessageContent(raw);
    content.Some? &&
    match content.value
    case Str(text) => text != ""
    case Arr(blocks) => exists block :: block in blocks && IsPromptBlock(block)
    case _ => false
  }

  function ToolOutcome(result: Json): Candidate {
    Candidate(if Get(result, "is_error") == Some(Bool(true)) then ToolFailed else ToolCompleted, result)
  }

  function ToolOutcomes(results: seq<Json>): seq<Candidate> {
    seq(|results|, i requires 0 <= i < |results| => ToolOutcome(results[i]))
  }

  function ToolRequests(blocks: seq<Json>): seq<Candidate> {
    seq(|blocks|, i requires 0 <= i < |blocks| => Candidate(ToolRequested, blocks[i]))
  }

  function UserCandidates(raw: Json): seq<Candidate> {
    var results := Filter(MessageBlocks(raw), IsToolResult);
    (if HasPromptContent(raw) || results == [] then [Candidate(UserPrompted, Obj(map["message" := OrNull(Get(raw, "message"))]))] else [])
    + ToolOutcomes(results)
  }

  function AssistantCandidates(raw: Json): seq<Candidate> {
    [Candidate(AgentResponded, Obj(map["message" := OrNull(Get(raw, "message")), "request_id" := OrNull(Get(raw, "requestId"))]))]
    + ToolRequests(Filter(MessageBlocks(raw), IsToolUse))
  }

  function Candidates(codec: Codec, bytes: Bytes): seq<Candidate> {
    var raw := RawValue(codec, bytes);
    var t := NativeType(raw);
    if t == "user" then UserCandidates(raw)
    else if t == "assistant" then AssistantCandidates(raw)
    else if t == "system" then
      [Candidate(SystemObserved, Obj(map["subtype" := OrNull(Get(raw, "subtype")), "level" := OrNull(Get(raw, "level")),
                                         "stop_reason" := OrNull(Get(raw, "stopReason"))]))]
    else if t == "attachment" then [Candidate(AttachmentObserved, OrNull(Get(raw, "attachment")))]
    else if t == "queue-operation" then
      [Candidate(QueueOperationObserved, Obj(map["operation" := OrNull(Get(raw, "operation")), "content" := OrNull(Get(raw, "content"))]))]
    else if t == "mode" then [Candidate(ModeChanged, Obj(map["mode" := OrNull(Get(raw, "mode"))]))]
    else if t == "relocated" then
      [Candidate(SessionRelocated, Obj(map["from" := OrNull(Get(raw, "from")), "to" := OrNull(Get(raw, "to"))]))]
    else
      var parsed := codec.parse(bytes);
      [Candidate(SchemaUnknown, Obj(map["native_type" := Str(t), "parse_error" := if parsed.Err? then Str(parsed.error) else Null]))]
  }

  /** No line is dropped: whatever it holds, parsed or not, it becomes at least one event. */
  lemma EveryLineIsCaptured(codec: Codec, bytes: Bytes)
    ensures Candidates(codec, bytes) != []
  {
    hide Filter, HasPromptContent, MessageBlocks, ToolOutcome;
  }

  /**
   A user line yields its prompt first, if it has one or nothing else, and then one outcome for each
   tool result, in the order of the blocks.
   */
  lemma UserLineOrder(raw: Json)
    ensures var results := Filter(MessageBlocks(raw), IsToolResult);
            var candidates := UserCandidates(raw);
            var prompts := |candidates| - |results|;
            && prompts == (if HasPromptContent(raw) || results == [] then 1 else 0)
            && (prompts == 1 ==> candidates[0].eventType == UserPrompted)
            && forall i :: 0 <= i < |results| ==>
                 candidates[prompts + i].payload == results[i] && !candidates[prompts + i].eventType.UserPrompted?
  {
    hide Filter, HasPromptContent, MessageBlocks;
  }

  // ----- What each kind of line yields -----

  function ContentOf(raw: Json): Json {
    OrNull(Get(OrNull(Get(raw, "message")), "content"))
  }

  function BlocksOf(raw: Json): seq<Json> {
    match ContentOf(raw)
    case Arr(blocks) => blocks
    case _ => []
  }

  /** The blocks of one of some types. */
  function OfTypes(blocks: seq<Json>, types: set<string>): seq<Json> {
    Filter(blocks, HasType(types))
  }

  function HasType(types: set<string>): Json -> bool {
    (block: Json) => GetStr(block, "type").Some? && GetStr(block, "type").value in types
  }

  /** A text that is not empty, or a list with a text, an image or a document in it. */
  predicate HasPrompt(raw: Json) {
    match ContentOf(raw)
    case Str(text) => |text| > 0
    case Arr(blocks) => OfTypes(blocks, {"text", "image", "document"}) != []
    case _ => false
  }

  lemma BlocksAre(raw: Json)
    ensures MessageBlocks(raw) == BlocksOf(raw)
  {
  }

  lemma ToolTypes(block: Json)
    ensures HasType({"tool_result"})(block) == IsToolResult(block)
    ensures HasType({"tool_use", "server_tool_use"})(block) == IsToolUse(block)
  {
    hide GetStr;
  }

  lemma ResultsAre(raw: Json)
    ensures Filter(MessageBlocks(raw), IsToolResult) == OfTypes(BlocksOf(raw), {"tool_result"})
    ensures Filter(MessageBlocks(raw), IsToolUse) == OfTypes(BlocksOf(raw), {"tool_use", "server_tool_use"})
  {
    BlocksAre(raw);
    var blocks := BlocksOf(raw);
    var results, uses := HasType({"tool_result"}), HasType({"tool_use", "server_tool_use"});
    forall block | block in blocks ensures IsToolResult(block) == results(block) && IsToolUse(block) == uses(block) {
      ToolTypes(block);
    }
    hide IsToolResult, IsToolUse, HasType, Filter, MessageBlocks, BlocksOf;
    FilterDependsOnMembers(blocks, IsToolResult, results);
    FilterDependsOnMembers(blocks, IsToolUse, uses);
  }

  lemma PromptIs(raw: Json)
    ensures HasPromptContent(raw) <==> HasPrompt(raw)
  {
    if ContentOf(raw).Arr? {
      var blocks := ContentOf(raw).items;
      PromptBlocks(blocks);
      hide OfTypes, IsPromptBlock;
    }
  }

  lemma PromptBlocks(blocks: seq<Json>)
    ensures OfTypes(blocks, {"text", "image", "document"}) != [] <==> exists block :: block in blocks && IsPromptBlock(block)
  {
    var types := {"text", "image", "document"};
    forall block ensures HasType(types)(block) == IsPromptBlock(block) {
      hide GetStr;
    }
    hide HasType, IsPromptBlock;
    if OfTypes(blocks, types) != [] {
      assert OfTypes(blocks, types)[0] in OfTypes(blocks, types);
    }
  }

  /** The value a line parses to; a line that does not parse is an object that holds its text. */
  ghost predicate Says(codec: Codec, bytes: Bytes, raw: Json) {
    match codec.parse(bytes)
    case Ok(value) => raw == value
    case Err(_) => raw == Obj(map["raw_text" := Str(codec.text(bytes))])
  }

  /** A user line: its prompt, if it has one or no tool result, and then each tool result, failed or completed. */
  lemma UserLineSays(codec: Codec, bytes: Bytes, raw: Json)
    requires Says(codec, bytes, raw) && GetStr(raw, "type") == Some("user")
    ensures var results := OfTypes(BlocksOf(raw), {"tool_result"});
            var candidates := Candidates(codec, bytes);
            var prompts := if HasPrompt(raw) || results == [] then 1 else 0;
            && |candidates| == prompts + |results|
            && (prompts == 1 ==> candidates[0] == Candidate(UserPrompted, Obj(map["message" := OrNull(Get(raw, "message"))])))
            && forall i :: 0 <= i < |results| ==>
                 candidates[prompts + i]
                 == Candidate(if Get(results[i], "is_error") == Some(Bool(true)) then ToolFailed else ToolCompleted, results[i])
  {
    hide *;
    UserLineIs(codec, bytes, raw);
    ResultsAre(raw);
    PromptIs(raw);
    UserCandidatesAre(raw);
  }

  lemma UserLineIs(codec: Codec, bytes: Bytes, raw: Json)
    requires Says(codec, bytes, raw) && GetStr(raw, "type") == Some("user")
    ensures Candidates(codec, bytes) == UserCandidates(raw)
  {
    hide UserCandidates;
  }

  lemma UserCandidatesAre(raw: Json)
    ensures var results := Filter(MessageBlocks(raw), IsToolResult);
            var candidates := UserCandidates(raw);
            var prompts := if HasPromptContent(raw) || results == [] then 1 else 0;
            && |candidates| == prompts + |results|
            && (prompts == 1 ==> candidates[0] == Candidate(UserPrompted, Obj(map["message" := OrNull(Get(raw, "message"))])))
            && forall i :: 0 <= i < |results| ==>
                 candidates[prompts + i]
                 == Candidate(if Get(results[i], "is_error") == Some(Bool(true)) then ToolFailed else ToolCompleted, results[i])
  {
    hide Filter, MessageBlocks, HasPromptContent, Get, OrNull;
  }

  /** An assistant line: its response, and then each tool request. */
  lemma AssistantLineSays(codec: Codec, bytes: Bytes, raw: Json)
    requires Says(codec, bytes, raw) && GetStr(raw, "type") == Some("assistant")
    ensures var requests := OfTypes(BlocksOf(raw), {"tool_use", "server_tool_use"});
            var candidates := Candidates(codec, bytes);
            && |candidates| == 1 + |requests|
            && candidates[0].eventType == AgentResponded
            && candidates[0].payload
               == Obj(map["message" := OrNull(Get(raw, "message")), "request_id" := OrNull(Get(raw, "requestId"))])
            && forall i :: 0 <= i < |requests| ==> candidates[1 + i] == Candidate(ToolRequested, requests[i])
  {
    hide *;
    AssistantLineIs(codec, bytes, raw);
    ResultsAre(raw);
    AssistantCandidatesAre(raw);
  }

  lemma AssistantLineIs(codec: Codec, bytes: Bytes, raw: Json)
    requires Says(codec, bytes, raw) && GetStr(raw, "type") == Some("assistant")
    ensures Candidates(codec, bytes) == AssistantCandidates(raw)
  {
    assert |"user"| == 4;
    hide AssistantCandidates;
  }

  lemma AssistantCandidatesAre(raw: Json)
    ensures var requests := Filter(MessageBlocks(raw), IsToolUse);
            var candidates := AssistantCandidates(raw);
            && |candidates| == 1 + |requests|
            && candidates[0].eventType == AgentResponded
            && candidates[0].payload
               == Obj(map["message" := OrNull(Get(raw, "message")), "request_id" := OrNull(Get(raw, "requestId"))])
            && forall i :: 0 <= i < |requests| ==> candidates[1 + i] == Candidate(ToolRequested, requests[i])
  {
    hide Filter, MessageBlocks, Get, OrNull;
  }

  /** Every other line: one event, of the kind that its type names. */
  lemma OtherLineSays(codec: Codec, bytes: Bytes, raw: Json)
    requires Says(codec, bytes, raw) && GetStr(raw, "type") != Some("user") && GetStr(raw, "type") != Some("assistant")
    ensures var field := (name: string) => OrNull(Get(raw, name));
            Candidates(codec, bytes)
            == [match GetStr(raw, "type")
                case None => SchemaUnknownCandidate(codec, bytes, "malformed")
                case Some(t) =>
                  if t == "system" then
                    Candidate(SystemObserved, Obj(map["subtype" := field("subtype"), "level" := field("level"), "stop_reason" := field("stopReason")]))
                  else if t == "attachment" then Candidate(AttachmentObserved, field("attachment"))
                  else if t == "queue-operation" then
                    Candidate(QueueOperationObserved, Obj(map["operation" := field("operation"), "content" := field("content")]))
                  else if t == "mode" then Candidate(ModeChanged, Obj(map["mode" := field("mode")]))
                  else if t == "relocated" then Candidate(SessionRelocated, Obj(map["from" := field("from"), "to" := field("to")]))
                  else SchemaUnknownCandidate(codec, bytes, t)]
  {
    hide UserCandidates, AssistantCandidates;
  }

  function SchemaUnknownCandidate(codec: Codec, bytes: Bytes, t: string): Candidate {
    Candidate(SchemaUnknown, Obj(map["native_type" := Str(t),
                                     "parse_error" := if codec.parse(bytes).Err? then Str(codec.parse(bytes).error) else Null]))
  }

  // ----- Keys -----

  function Pow256(k: nat): nat {
    if k == 0 then 1 else 256 * Pow256(k - 1)
  }

  /** The low `k` bytes of a number, least significant first. */
  function LittleEndian(n: nat, k: nat): (bytes: Bytes)
    ensures |bytes| == k
    decreases k
  {
    if k == 0 then [] else [n % 256] + LittleEndian(n / 256, k - 1)
  }

  lemma {:induction false} LittleEndianIsInjective(a: nat, b: nat, k: nat)
    requires a < Pow256(k) && b < Pow256(k) && LittleEndian(a, k) == LittleEndian(b, k)
    ensures a == b
    decreases k
  {
    if k > 0 {
      var la, lb := LittleEndian(a, k), LittleEndian(b, k);
      assert la[0] == a % 256 && lb[0] == b % 256;
      assert la[1..] == LittleEndian(a / 256, k - 1) && lb[1..] == LittleEndian(b / 256, k - 1);
      assert a / 256 < Pow256(k - 1) && b / 256 < Pow256(k - 1);
      LittleEndianIsInjective(a / 256, b / 256, k - 1);
      assert a == 256 * (a / 256) + a % 256 && b == 256 * (b / 256) + b % 256;
    }
  }

  const TAG: Bytes := [99, 108, 97, 117, 100, 101, 45, 106, 115, 111, 110, 108, 0]

  /** What is hashed into a key: a tag, the source, the offset, the line's digest and the ordinal. */
  function Frame(source: Bytes, offset: nat, digest: Bytes, ordinal: nat): Bytes {
    TAG + source + LittleEndian(offset, 8) + digest + LittleEndian(ordinal, 4)
  }

  predicate InRange(offset: nat, digest: Bytes, ordinal: nat) {
    offset < 0x1_0000_0000_0000_0000 && |digest| == 32 && ordinal < 0x1_0000_0000
  }

  lemma Powers()
    ensures Pow256(8) == 0x1_0000_0000_0000_0000 && Pow256(4) == 0x1_0000_0000
  {
    assert Pow256(1) == 256 && Pow256(2) == 65536 && Pow256(3) == 0x100_0000;
    assert Pow256(4) == 0x1_0000_0000 && Pow256(5) == 0x100_0000_0000;
    assert Pow256(6) == 0x1_0000_0000_0000 && Pow256(7) == 0x100_0000_0000_0000;
  }

  lemma FrameParts(source: Bytes, offset: nat, digest: Bytes, ordinal: nat)
    requires |digest| == 32
    ensures var f := Frame(source, offset, digest, ordinal);
            var n := |TAG| + |source|;
            && |f| == n + 44
            && f[|TAG|..n] == source && f[n..n + 8] == LittleEndian(offset, 8)
            && f[n + 8..n + 40] == digest && f[n + 40..] == LittleEndian(ordinal, 4)
  {
  }

  /** The framing leaves no room for two readings, though the source's length is not written down. */
  lemma FrameIsInjective(s1: Bytes, o1: nat, d1: Bytes, n1: nat, s2: Bytes, o2: nat, d2: Bytes, n2: nat)
    requires InRange(o1, d1, n1) && InRange(o2, d2, n2)
    requires Frame(s1, o1, d1, n1) == Frame(s2, o2, d2, n2)
    ensures s1 == s2 && o1 == o2 && d1 == d2 && n1 == n2
  {
    FrameParts(s1, o1, d1, n1);
    FrameParts(s2, o2, d2, n2);
    Powers();
    hide Frame, LittleEndian, Pow256;
    LittleEndianIsInjective(o1, o2, 8);
    LittleEndianIsInjective(n1, n2, 4);
  }

  // ----- Events -----

  function EventAt(codec: Codec, source: Bytes, record: RawRecord, ordinal: nat): CapturedEvent
    requires ordinal < |Candidates(codec, record.bytes)|
  {
    var raw := RawValue(codec, record.bytes);
    var session := GetStr(raw, "sessionId");
    var candidate := Candidates(codec, record.bytes)[ordinal];
    CapturedEvent(Frame(source, record.byteOffset, codec.digest(record.bytes), ordinal), record.byteOffset,
                  candidate.eventType, candidate.payload,
                  if session.Some? then session.value else "unknown-session", GetStr(raw, "uuid"))
  }

  function EventsOf(codec: Codec, source: Bytes, record: RawRecord): seq<CapturedEvent> {
    seq(|Candidates(codec, record.bytes)|,
        i requires 0 <= i < |Candidates(codec, record.bytes)| => EventAt(codec, source, record, i))
  }

  /** Offsets and ordinals are converted to fixed widths, and a line that does not convert is an error. */
  predicate Converts(codec: Codec, record: RawRecord) {
    record.byteOffset <= I64_MAX && |Candidates(codec, record.bytes)| <= 0x1_0000_0000
  }

  method Normalize(codec: Codec, source: Bytes, record: RawRecord) returns (events: Option<seq<CapturedEvent>>)
    ensures events == if Converts(codec, record) then Some(EventsOf(codec, source, record)) else None
  {
    EveryLineIsCaptured(codec, record.bytes);
    hide EventAt, Candidates;
    var candidates := Candidates(codec, record.bytes);
    if record.byteOffset > I64_MAX {
      return None;
    }
    var out: seq<CapturedEvent> := [];
    var i := 0;
    while i < |candidates|
      invariant 0 <= i <= |candidates|
      invariant i <= 0x1_0000_0000
      invariant out == EventsOf(codec, source, record)[..i]
    {
      if i >= 0x1_0000_0000 {
        return None;
      }
      out := out + [EventAt(codec, source, record, i)];
      i := i + 1;
    }
    assert EventsOf(codec, source, record)[..|candidates|] == EventsOf(codec, source, record);
    return Some(out);
  }

  /** Each event of a line carries the line's candidate, session and turn, its offset, and a key made for the candidate's place. */
  lemma EventSays(codec: Codec, source: Bytes, record: RawRecord, raw: Json, i: nat)
    requires Says(codec, record.bytes, raw) && i < |Candidates(codec, record.bytes)|
    ensures |EventsOf(codec, source, record)| == |Candidates(codec, record.bytes)|
    ensures var e, c := EventsOf(codec, source, record)[i], Candidates(codec, record.bytes)[i];
            && e.eventType == c.eventType && e.payload == c.payload && e.sourceOffset == record.byteOffset
            && e.key == Frame(source, record.byteOffset, codec.digest(record.bytes), i)
            && e.turnId == GetStr(raw, "uuid")
            && e.sessionId == (if GetStr(raw, "sessionId").Some? then GetStr(raw, "sessionId").value else "unknown-session")
  {
    hide Candidates, Frame;
  }
}
