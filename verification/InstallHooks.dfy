/**
 Installing and removing hook entries in a settings document that other tools also write to. Paths
 are split at both kinds of slash, as on Windows.
 */
module InstallHooks {
  import opened Common
  import opened Text
  import opened Json
  import opened Sequences

  datatype Harness = Claude | Codex

  datatype InstallError = NotAnObject | HooksNotAnObject | NotAnArray(event: string) | PathHasSpace

  const SESSION_START := "SessionStart"
  const SESSION_END := "SessionEnd"
  const PROMPT_SUBMIT := "UserPromptSubmit"

  const EVENTS: seq<string> := [SESSION_START, SESSION_END, PROMPT_SUBMIT]

  // ----- Recognizing our own commands -----

  predicate IsQuote(c: char) {
    c == '"'
  }

  predicate Contains(text: string, part: string) {
    part <= text || (text != [] && Contains(text[1..], part))
  }

  /** The text up to the first character that satisfies a condition. */
  function UpTo(text: string, stop: char -> bool): (r: string)
    ensures r <= text
  {
    if text == [] || stop(text[0]) then [] else [text[0]] + UpTo(text[1..], stop)
  }

  predicate IsSeparator(c: char) {
    c == '/' || c == '\\'
  }

  /** The last component of a path that has one. */
  function FileName(path: string): Option<string> {
    if path == [] then None
    else if IsSeparator(path[|path| - 1]) then FileName(path[..|path| - 1])
    else
      var name := AfterLastSeparator(path);
      if name == ".." || name == "." then None else Some(name)
  }

  function AfterLastSeparator(path: string): string {
    if path == [] || IsSeparator(path[|path| - 1]) then []
    else AfterLastSeparator(path[..|path| - 1]) + [path[|path| - 1]]
  }

  /** A name without its extension; a leading dot starts no extension. */
  function Stem(name: string): string {
    var dots := set i | 0 < i < |name| && name[i] == '.';
    if dots == {} then name else name[..LastDot(name, |name|)]
  }

  function LastDot(name: string, n: nat): (r: nat)
    requires n <= |name|
    ensures r <= |name|
  {
    if n == 0 then |name| else if name[n - 1] == '.' && n - 1 > 0 then n - 1 else LastDot(name, n - 1)
  }

  function Executable(commandText: string): string {
    var trimmed := Trim(commandText);
    if trimmed != [] && trimmed[0] == '"' then UpTo(trimmed[1..], IsQuote) else UpTo(trimmed, IsWhitespace)
  }

  predicate NamesBrainHook(path: string) {
    var name := FileName(path);
    name.Some? && Lower(Stem(name.value)) == "brain-hook"
  }

  predicate PointsAtBrainHook(commandText: string) {
    NamesBrainHook(Executable(commandText))
  }

  const CLAUDE_ARGS := Arr([Str("--harness"), Str("claude-code")])

  function Texts(command: Json): seq<string> {
    (if GetStr(command, "commandWindows").Some? then [GetStr(command, "commandWindows").value] else [])
    + (if GetStr(command, "command").Some? then [GetStr(command, "command").value] else [])
  }

  /** Whether a command entry invokes the hook binary, for either harness, at whatever path. */
  predicate Owned(command: Json) {
    && GetStr(command, "type") == Some("command")
    && (Get(command, "args") == Some(CLAUDE_ARGS)
        || exists t :: t in Texts(command) && Contains(Lower(t), "--harness codex"))
    && exists t :: t in Texts(command) && PointsAtBrainHook(t)
  }

  predicate Foreign(command: Json) {
    !Owned(command)
  }

  // ----- Stripping -----

  function GroupCommands(group: Json): Option<seq<Json>> {
    match Get(group, "hooks")
    case Some(Arr(commands)) => Some(commands)
    case _ => None
  }

  function StripGroup(group: Json): Json {
    var commands := GroupCommands(group);
    if commands.Some? then Obj(group.fields["hooks" := Arr(Filter(commands.value, Foreign))]) else group
  }

  predicate KeepGroup(group: Json) {
    var commands := GroupCommands(group);
    commands.Some? ==> commands.value != []
  }

  function StripGroups(groups: seq<Json>): seq<Json> {
    if groups == [] then []
    else
      var last := StripGroup(groups[|groups| - 1]);
      StripGroups(groups[..|groups| - 1]) + if KeepGroup(last) then [last] else []
  }

  function StripEvent(hooks: map<string, Json>, event: string): map<string, Json> {
    if event in hooks && hooks[event].Arr? then
      var groups := StripGroups(hooks[event].items);
      if groups == [] then hooks - {event} else hooks[event := Arr(groups)]
    else hooks
  }

  function StripEvents(hooks: map<string, Json>, events: seq<string>): map<string, Json> {
    if events == [] then hooks else StripEvent(StripEvents(hooks, events[..|events| - 1]), events[|events| - 1])
  }

  function WithHooks(doc: Json, hooks: map<string, Json>): Json
    requires doc.Obj?
  {
    if hooks == map[] then Obj(doc.fields - {"hooks"}) else Obj(doc.fields["hooks" := Obj(hooks)])
  }

  function Strip(doc: Json): Json {
    if doc.Obj? && "hooks" in doc.fields && doc.fields["hooks"].Obj? then
      WithHooks(doc, StripEvents(doc.fields["hooks"].fields, EVENTS))
    else doc
  }

  /** Every command of ours that an event holds. */
  function EventCommands(hooks: map<string, Json>, event: string): seq<Json> {
    if event in hooks && hooks[event].Arr? then AllCommands(hooks[event].items) else []
  }

  function AllCommands(groups: seq<Json>): seq<Json> {
    if groups == [] then []
    else
      var commands := GroupCommands(groups[|groups| - 1]);
      AllCommands(groups[..|groups| - 1]) + if commands.Some? then commands.value else []
  }

  function HooksOf(doc: Json): map<string, Json> {
    if doc.Obj? && "hooks" in doc.fields && doc.fields["hooks"].Obj? then doc.fields["hooks"].fields else map[]
  }

  function Commands(doc: Json, event: string): seq<Json> {
    EventCommands(HooksOf(doc), event)
  }

  // ----- Pushing -----

  function ClaudeCommand(executable: string): Json {
    Obj(map["type" := Str("command"), "command" := Str(executable), "args" := CLAUDE_ARGS, "timeout" := Number(10)])
  }

  function CodexText(executable: string): string {
    "\"" + executable + "\" --harness codex"
  }

  function CodexWindowsText(executable: string): string {
    executable + " --harness codex"
  }

  function CodexCommand(executable: string, event: string): Json {
    var base := map["type" := Str("command"), "command" := Str(CodexText(executable)),
                    "commandWindows" := Str(CodexWindowsText(executable))];
    if event == SESSION_START then
      Obj(base["timeout" := Number(15)]["statusMessage" := Str("Loading project memory")]["additionalContextLimit" := Number(1500)])
    else if event == SESSION_END then Obj(base["timeout" := Number(3)])
    else Obj(base["timeout" := Number(15)])
  }

  function CommandFor(harness: Harness, executable: string, event: string): Json {
    match harness
    case Claude => ClaudeCommand(executable)
    case Codex => CodexCommand(executable, event)
  }

  function MatcherFor(harness: Harness, event: string): Option<string> {
    if event == SESSION_START then
      Some(if harness.Claude? then "startup|resume|clear|compact|fork" else "^(startup|resume|clear|compact)$")
    else if event == SESSION_END then Some(".*")
    else if harness.Claude? then None else Some(".*")
  }

  function Entry(harness: Harness, executable: string, event: string): Json {
    var commands := Arr([CommandFor(harness, executable, event)]);
    var matcher := MatcherFor(harness, event);
    if matcher.Some? then Obj(map["matcher" := Str(matcher.value), "hooks" := commands]) else Obj(map["hooks" := commands])
  }

  function PushEvent(hooks: map<string, Json>, event: string, entry: Json): Result<map<string, Json>, InstallError> {
    if event !in hooks then Ok(hooks[event := Arr([entry])])
    else if hooks[event].Arr? then Ok(hooks[event := Arr(hooks[event].items + [entry])])
    else Err(NotAnArray(event))
  }

  function PushEvents(hooks: map<string, Json>, harness: Harness, executable: string, events: seq<string>)
    : Result<map<string, Json>, InstallError>
  {
    if events == [] then Ok(hooks)
    else
      var before := PushEvents(hooks, harness, executable, events[..|events| - 1]);
      if before.Err? then before
      else PushEvent(before.value, events[|events| - 1], Entry(harness, executable, events[|events| - 1]))
  }

  predicate ValidShape(doc: Json) {
    doc.Obj? && ("hooks" in doc.fields ==>
      doc.fields["hooks"].Obj? && (SESSION_START in doc.fields["hooks"].fields ==> doc.fields["hooks"].fields[SESSION_START].Arr?))
  }

  function Push(doc: Json, harness: Harness, executable: string): Result<Json, InstallError>
    requires ValidShape(doc)
  {
    var pushed := PushEvents(HooksOf(doc), harness, executable, EVENTS);
    if pushed.Err? then Err(pushed.error) else Ok(Obj(doc.fields["hooks" := Obj(pushed.value)]))
  }

  // ----- What is installed -----

  datatype Presence = Missing | CurrentOnly | StalePresent

  function OwnedCommands(doc: Json): seq<Json> {
    Filter(Commands(doc, SESSION_START), Owned) + Filter(Commands(doc, SESSION_END), Owned) + Filter(Commands(doc, PROMPT_SUBMIT), Owned)
  }

  predicate Registered(doc: Json, event: string) {
    exists c :: c in Commands(doc, event) && Owned(c)
  }

  function BackSlashes(text: string): string {
    seq(|text|, i requires 0 <= i < |text| => if text[i] == '/' then '\\' else text[i])
  }

  predicate SameText(a: string, b: string) {
    Lower(BackSlashes(a)) == Lower(BackSlashes(b))
  }

  predicate IsCurrent(harness: Harness, command: Json, executable: string) {
    match harness
    case Claude => GetStr(command, "command").Some? && SameText(GetStr(command, "command").value, executable)
    case Codex => exists t :: t in Texts(command) && SameText(t, CodexText(executable))
  }

  predicate IsStale(harness: Harness, command: Json, executable: string) {
    match harness
    case Claude => GetStr(command, "command").Some? && !SameText(GetStr(command, "command").value, executable)
    case Codex => !IsCurrent(harness, command, executable)
  }

  function PresenceIn(doc: Json, harness: Harness, executable: string): Presence {
    var owned := OwnedCommands(doc);
    var current := exists c :: c in owned && IsCurrent(harness, c, executable);
    var stale := exists c :: c in owned && IsStale(harness, c, executable);
    if current && !stale && (forall e :: e in EVENTS ==> Registered(doc, e)) then CurrentOnly
    else if !current && !stale then Missing
    else StalePresent
  }

  /** The document after an install, and whether it changed. */
  function Install(doc: Json, harness: Harness, executable: string): Result<(Json, bool), InstallError> {
    if harness.Codex? && ' ' in executable then Err(PathHasSpace)
    else if !doc.Obj? then Err(NotAnObject)
    else if "hooks" in doc.fields && !doc.fields["hooks"].Obj? then Err(HooksNotAnObject)
    else if !ValidShape(doc) then Err(NotAnArray(SESSION_START))
    else if PresenceIn(doc, harness, executable) == CurrentOnly then Ok((doc, false))
    else
      StripKeepsShape(doc);
      var pushed := Push(Strip(doc), harness, executable);
      if pushed.Err? then Err(pushed.error) else Ok((pushed.value, true))
  }

  // ----- Laws of stripping -----

  lemma StripEventAt(hooks: map<string, Json>, event: string, k: string)
    ensures k != event ==> (k in StripEvent(hooks, event) <==> k in hooks) && (k in hooks ==> StripEvent(hooks, event)[k] == hooks[k])
    ensures var r := StripEvent(hooks, event);
            if event in hooks && hooks[event].Arr? then
              (event in r <==> StripGroups(hooks[event].items) != []) && (event in r ==> r[event] == Arr(StripGroups(hooks[event].items)))
            else (event in r <==> event in hooks) && (event in hooks ==> r[event] == hooks[event])
  {
    hide StripGroups, SESSION_START, SESSION_END, PROMPT_SUBMIT;
  }

  /** What stripping leaves at one key. */
  function StrippedAt(hooks: map<string, Json>, k: string): Option<Json> {
    if k !in hooks then None
    else if k !in EVENTS || !hooks[k].Arr? then Some(hooks[k])
    else if StripGroups(hooks[k].items) == [] then None
    else Some(Arr(StripGroups(hooks[k].items)))
  }

  function At(hooks: map<string, Json>, k: string): Option<Json> {
    if k in hooks then Some(hooks[k]) else None
  }

  lemma EventsDiffer()
    ensures SESSION_START != SESSION_END && SESSION_START != PROMPT_SUBMIT && SESSION_END != PROMPT_SUBMIT
  {
    assert SESSION_START[8] != SESSION_END[8] && PROMPT_SUBMIT[0] != SESSION_START[0] && PROMPT_SUBMIT[0] != SESSION_END[0];
  }

  lemma StripEventsUnfold(hooks: map<string, Json>)
    ensures StripEvents(hooks, EVENTS) == StripEvent(StripEvent(StripEvent(hooks, SESSION_START), SESSION_END), PROMPT_SUBMIT)
  {
    hide StripEvent, SESSION_START, SESSION_END, PROMPT_SUBMIT;
    EventsDiffer();
    var two, one := EVENTS[..2], EVENTS[..1];
    assert two[..1] == one && one[..0] == [];
    assert StripEvents(hooks, []) == hooks;
    assert StripEvents(hooks, one) == StripEvent(hooks, SESSION_START);
    assert StripEvents(hooks, two) == StripEvent(StripEvents(hooks, one), SESSION_END);
  }

  /** Each of the three events is stripped on its own, and nothing else is touched. */
  lemma StripIsPointwise(hooks: map<string, Json>, k: string)
    ensures At(StripEvents(hooks, EVENTS), k) == StrippedAt(hooks, k)
  {
    EventsDiffer();
    StripEventsUnfold(hooks);
    var a := StripEvent(hooks, SESSION_START);
    var b := StripEvent(a, SESSION_END);
    StripEventAt(hooks, SESSION_START, k);
    StripEventAt(a, SESSION_END, k);
    StripEventAt(b, PROMPT_SUBMIT, k);
    assert k in EVENTS <==> k == SESSION_START || k == SESSION_END || k == PROMPT_SUBMIT;
    hide StripEvent, StripEvents, StripGroups, SESSION_START, SESSION_END, PROMPT_SUBMIT;
  }

  lemma MapsAgree(a: map<string, Json>, b: map<string, Json>)
    requires forall k :: At(a, k) == At(b, k)
    ensures a == b
  {
    forall k ensures k in a <==> k in b {
      assert At(a, k) == At(b, k);
    }
    forall k | k in a ensures a[k] == b[k] {
      assert At(a, k) == At(b, k);
    }
  }

  lemma StripGroupTwice(group: Json)
    ensures StripGroup(StripGroup(group)) == StripGroup(group)
  {
    var commands := GroupCommands(group);
    if commands.Some? {
      FilterAll(Filter(commands.value, Foreign), Foreign);
      hide Owned, Filter;
      assert group.fields["hooks" := Arr(Filter(commands.value, Foreign))]["hooks" := Arr(Filter(commands.value, Foreign))]
          == group.fields["hooks" := Arr(Filter(commands.value, Foreign))];
    }
  }

  lemma StripGroupsOfOneMore(groups: seq<Json>, group: Json)
    ensures StripGroups(groups + [group]) == StripGroups(groups) + if KeepGroup(StripGroup(group)) then [StripGroup(group)] else []
  {
    assert (groups + [group])[..|groups|] == groups;
  }

  lemma {:induction false} StripGroupsTwice(groups: seq<Json>)
    ensures StripGroups(StripGroups(groups)) == StripGroups(groups)
  {
    hide StripGroup, KeepGroup, SESSION_START, SESSION_END, PROMPT_SUBMIT;
    if groups != [] {
      var front, last := groups[..|groups| - 1], StripGroup(groups[|groups| - 1]);
      StripGroupsTwice(front);
      StripGroupTwice(groups[|groups| - 1]);
      if KeepGroup(last) {
        StripGroupsOfOneMore(StripGroups(front), last);
      } else {
        assert StripGroups(front) + [] == StripGroups(front);
      }
    }
  }

  /** Hooks that hold no command of ours, no emptied group and no emptied event. */
  ghost predicate Clean(hooks: map<string, Json>) {
    forall k :: StrippedAt(hooks, k) == At(hooks, k)
  }

  lemma StrippedIsClean(hooks: map<string, Json>)
    ensures Clean(StripEvents(hooks, EVENTS))
  {
    var s := StripEvents(hooks, EVENTS);
    forall k ensures StrippedAt(s, k) == At(s, k) {
      StripIsPointwise(hooks, k);
      if k in hooks && hooks[k].Arr? {
        StripGroupsTwice(hooks[k].items);
      }
      hide StripEvents, StripGroups;
    }
  }

  lemma CleanIsFixed(hooks: map<string, Json>)
    requires Clean(hooks)
    ensures StripEvents(hooks, EVENTS) == hooks
  {
    forall k ensures At(StripEvents(hooks, EVENTS), k) == At(hooks, k) {
      StripIsPointwise(hooks, k);
    }
    hide StripEvents, SESSION_START, SESSION_END, PROMPT_SUBMIT;
    MapsAgree(StripEvents(hooks, EVENTS), hooks);
  }

  // ----- Documents -----

  lemma StripIsWithHooks(doc: Json)
    requires doc.Obj? && ("hooks" in doc.fields ==> doc.fields["hooks"].Obj?)
    ensures Strip(doc) == WithHooks(doc, StripEvents(HooksOf(doc), EVENTS))
    ensures HooksOf(Strip(doc)) == StripEvents(HooksOf(doc), EVENTS)
  {
    if "hooks" !in doc.fields {
      forall k ensures At(StripEvents(map[], EVENTS), k) == At(map[], k) {
        StripIsPointwise(map[], k);
      }
      MapsAgree(StripEvents(map[], EVENTS), map[]);
      assert doc.fields - {"hooks"} == doc.fields;
    }
    hide StripEvents, SESSION_START, SESSION_END, PROMPT_SUBMIT;
  }

  lemma StripKeepsShape(doc: Json)
    requires ValidShape(doc)
    ensures ValidShape(Strip(doc))
  {
    StripIsWithHooks(doc);
    StripIsPointwise(HooksOf(doc), SESSION_START);
    hide StripEvents, StripGroups, SESSION_START, SESSION_END, PROMPT_SUBMIT;
  }

  /** Stripping twice is stripping once. */
  lemma StripIsIdempotent(doc: Json)
    requires ValidShape(doc)
    ensures Strip(Strip(doc)) == Strip(doc)
  {
    StripKeepsShape(doc);
    StripIsWithHooks(doc);
    StripIsWithHooks(Strip(doc));
    StrippedIsClean(HooksOf(doc));
    CleanIsFixed(StripEvents(HooksOf(doc), EVENTS));
    hide Strip, StripEvents, Clean, SESSION_START, SESSION_END, PROMPT_SUBMIT;
    var hooks := HooksOf(Strip(doc));
    assert WithHooks(WithHooks(doc, hooks), hooks) == WithHooks(doc, hooks) by {
      WithHooksTwice(doc, hooks);
    }
  }

  lemma WithHooksTwice(doc: Json, hooks: map<string, Json>)
    requires doc.Obj?
    ensures WithHooks(WithHooks(doc, hooks), hooks) == WithHooks(doc, hooks)
  {
    if hooks == map[] {
      assert (doc.fields - {"hooks"}) - {"hooks"} == doc.fields - {"hooks"};
    } else {
      assert doc.fields["hooks" := Obj(hooks)]["hooks" := Obj(hooks)] == doc.fields["hooks" := Obj(hooks)];
    }
  }

  /** Everything in the document but the three events is left alone. */
  lemma StripTouchesOnlyItsEvents(doc: Json, key: string, event: string)
    requires ValidShape(doc)
    ensures key != "hooks" ==> Get(Strip(doc), key) == Get(doc, key)
    ensures event !in EVENTS ==> At(HooksOf(Strip(doc)), event) == At(HooksOf(doc), event)
  {
    StripIsWithHooks(doc);
    StripIsPointwise(HooksOf(doc), event);
    hide StripEvents, StripGroups, SESSION_START, SESSION_END, PROMPT_SUBMIT;
  }

  // ----- Foreign commands -----

  lemma {:induction false} StrippedCommands(groups: seq<Json>)
    ensures AllCommands(StripGroups(groups)) == Filter(AllCommands(groups), Foreign)
  {
    if groups != [] {
      var front, last := groups[..|groups| - 1], groups[|groups| - 1];
      StrippedCommands(front);
      StrippedGroupCommands(last);
      hide StripGroup, Owned, Filter;
      var own := if GroupCommands(last).Some? then GroupCommands(last).value else [];
      FilterOfConcat(AllCommands(front), own, Foreign);
      var kept := StripGroups(front);
      if KeepGroup(StripGroup(last)) {
        assert (kept + [StripGroup(last)])[..|kept|] == kept;
      } else {
        assert kept + [] == kept;
      }
    }
  }

  lemma StrippedGroupCommands(group: Json)
    ensures var own := if GroupCommands(group).Some? then GroupCommands(group).value else [];
            var left := if GroupCommands(StripGroup(group)).Some? then GroupCommands(StripGroup(group)).value else [];
            left == Filter(own, Foreign) && (!KeepGroup(StripGroup(group)) ==> left == [])
  {
    hide Owned, SESSION_START, SESSION_END, PROMPT_SUBMIT;
  }

  /** After stripping, an event holds exactly the foreign commands it held before, in their order. */
  lemma ForeignCommandsSurvive(doc: Json, event: string)
    requires ValidShape(doc) && event in EVENTS
    ensures Commands(Strip(doc), event) == Filter(Commands(doc, event), Foreign)
  {
    StripIsWithHooks(doc);
    StripIsPointwise(HooksOf(doc), event);
    if event in HooksOf(doc) && HooksOf(doc)[event].Arr? {
      StrippedCommands(HooksOf(doc)[event].items);
      assert AllCommands([]) == [];
    } else {
      assert Filter([], Foreign) == [];
    }
    hide StripEvents, StripGroups, AllCommands, Filter, Owned, SESSION_START, SESSION_END, PROMPT_SUBMIT;
  }

  // ----- Pushing and stripping -----

  lemma EntryGroup(harness: Harness, executable: string, event: string)
    ensures GroupCommands(Entry(harness, executable, event)) == Some([CommandFor(harness, executable, event)])
  {
    hide CommandFor, SESSION_START, SESSION_END, PROMPT_SUBMIT;
  }

  lemma OwnedEntryVanishes(groups: seq<Json>, harness: Harness, executable: string, event: string)
    requires Owned(CommandFor(harness, executable, event))
    ensures StripGroups(groups + [Entry(harness, executable, event)]) == StripGroups(groups)
    ensures AllCommands(groups + [Entry(harness, executable, event)]) == AllCommands(groups) + [CommandFor(harness, executable, event)]
  {
    hide *;
    var entry, command := Entry(harness, executable, event), CommandFor(harness, executable, event);
    EntryGroup(harness, executable, event);
    OwnedGroupVanishes(entry, command);
    StripGroupsOfOneMore(groups, entry);
    AllCommandsOfOneMore(groups, entry);
    assert StripGroups(groups) + [] == StripGroups(groups);
  }

  lemma OwnedGroupVanishes(group: Json, command: Json)
    requires GroupCommands(group) == Some([command]) && Owned(command)
    ensures !KeepGroup(StripGroup(group))
  {
    hide Owned, Filter, SESSION_START, SESSION_END, PROMPT_SUBMIT;
    FilterNone([command], Foreign);
    var stripped := StripGroup(group);
    assert stripped.fields["hooks"] == Arr([]);
    assert GroupCommands(stripped) == Some([]);
  }

  lemma AllCommandsOfOneMore(groups: seq<Json>, group: Json)
    ensures AllCommands(groups + [group])
         == AllCommands(groups) + if GroupCommands(group).Some? then GroupCommands(group).value else []
  {
    assert (groups + [group])[..|groups|] == groups;
  }

  /** What pushing puts at one key. */
  function PushedAt(hooks: map<string, Json>, harness: Harness, executable: string, k: string): Option<Json> {
    if k !in EVENTS then At(hooks, k)
    else if k !in hooks then Some(Arr([Entry(harness, executable, k)]))
    else if hooks[k].Arr? then Some(Arr(hooks[k].items + [Entry(harness, executable, k)]))
    else Some(hooks[k])
  }

  /** Every event is absent or an array. */
  predicate Pushable(hooks: map<string, Json>) {
    forall e :: e in EVENTS ==> e in hooks ==> hooks[e].Arr?
  }

  lemma PushEventAt(hooks: map<string, Json>, event: string, entry: Json, k: string)
    requires PushEvent(hooks, event, entry).Ok?
    ensures k != event ==> At(PushEvent(hooks, event, entry).value, k) == At(hooks, k)
    ensures At(PushEvent(hooks, event, entry).value, event)
         == Some(Arr((if event in hooks then hooks[event].items else []) + [entry]))
  {
    assert [] + [entry] == [entry];
  }

  lemma PushEventsUnfold(hooks: map<string, Json>, harness: Harness, executable: string)
    ensures var a := PushEvent(hooks, SESSION_START, Entry(harness, executable, SESSION_START));
            PushEvents(hooks, harness, executable, EVENTS) ==
            if a.Err? then a
            else
              var b := PushEvent(a.value, SESSION_END, Entry(harness, executable, SESSION_END));
              if b.Err? then b else PushEvent(b.value, PROMPT_SUBMIT, Entry(harness, executable, PROMPT_SUBMIT))
  {
    hide PushEvent, Entry, SESSION_START, SESSION_END, PROMPT_SUBMIT;
    var two, one := EVENTS[..2], EVENTS[..1];
    assert two[..1] == one && one[..0] == [];
    assert PushEvents(hooks, harness, executable, []) == Ok(hooks);
    assert PushEvents(hooks, harness, executable, one) == PushEvent(hooks, SESSION_START, Entry(harness, executable, SESSION_START));
  }

  /** Pushing succeeds exactly when every event is absent or an array, and appends one group to each. */
  lemma PushIsPointwise(hooks: map<string, Json>, harness: Harness, executable: string)
    ensures PushEvents(hooks, harness, executable, EVENTS).Ok? <==> Pushable(hooks)
    ensures PushEvents(hooks, harness, executable, EVENTS).Ok? ==>
              forall k :: At(PushEvents(hooks, harness, executable, EVENTS).value, k) == PushedAt(hooks, harness, executable, k)
  {
    EventsDiffer();
    PushEventsUnfold(hooks, harness, executable);
    var e0, e1, e2 := SESSION_START, SESSION_END, PROMPT_SUBMIT;
    assert forall k :: k in EVENTS <==> k == e0 || k == e1 || k == e2;
    hide Entry, PushEvents, SESSION_START, SESSION_END, PROMPT_SUBMIT, EVENTS, PushedAt;
    var a := PushEvent(hooks, e0, Entry(harness, executable, e0));
    if a.Ok? {
      PushEventAt(hooks, e0, Entry(harness, executable, e0), e1);
      PushEventAt(hooks, e0, Entry(harness, executable, e0), e2);
      var b := PushEvent(a.value, e1, Entry(harness, executable, e1));
      if b.Ok? {
        PushEventAt(a.value, e1, Entry(harness, executable, e1), e2);
        var c := PushEvent(b.value, e2, Entry(harness, executable, e2));
        if c.Ok? {
          forall k ensures At(c.value, k) == PushedAt(hooks, harness, executable, k) {
            PushedThree(hooks, harness, executable, e0, e1, e2, k);
          }
        }
      }
    }
  }

  lemma PushedThree(hooks: map<string, Json>, harness: Harness, executable: string, e0: string, e1: string, e2: string, k: string)
    requires e0 != e1 && e0 != e2 && e1 != e2 && (k in EVENTS <==> k == e0 || k == e1 || k == e2)
    requires PushEvent(hooks, e0, Entry(harness, executable, e0)).Ok?
    requires PushEvent(PushEvent(hooks, e0, Entry(harness, executable, e0)).value, e1, Entry(harness, executable, e1)).Ok?
    requires PushEvent(PushEvent(PushEvent(hooks, e0, Entry(harness, executable, e0)).value, e1, Entry(harness, executable, e1)).value,
                       e2, Entry(harness, executable, e2)).Ok?
    ensures var a := PushEvent(hooks, e0, Entry(harness, executable, e0)).value;
            var b := PushEvent(a, e1, Entry(harness, executable, e1)).value;
            At(PushEvent(b, e2, Entry(harness, executable, e2)).value, k) == PushedAt(hooks, harness, executable, k)
  {
    hide Entry, SESSION_START, SESSION_END, PROMPT_SUBMIT;
    var a := PushEvent(hooks, e0, Entry(harness, executable, e0)).value;
    var b := PushEvent(a, e1, Entry(harness, executable, e1)).value;
    PushEventAt(hooks, e0, Entry(harness, executable, e0), k);
    PushEventAt(a, e1, Entry(harness, executable, e1), k);
    PushEventAt(b, e2, Entry(harness, executable, e2), k);
    assert [] + [Entry(harness, executable, k)] == [Entry(harness, executable, k)];
  }

  predicate Recognized(harness: Harness, executable: string) {
    forall e :: e in EVENTS ==> Owned(CommandFor(harness, executable, e))
  }

  /** Pushing onto clean hooks and stripping again gives the clean hooks back. */
  lemma StripUndoesPush(hooks: map<string, Json>, harness: Harness, executable: string)
    requires Clean(hooks) && Recognized(harness, executable) && PushEvents(hooks, harness, executable, EVENTS).Ok?
    ensures StripEvents(PushEvents(hooks, harness, executable, EVENTS).value, EVENTS) == hooks
  {
    var pushed := PushEvents(hooks, harness, executable, EVENTS).value;
    PushIsPointwise(hooks, harness, executable);
    hide StripEvents, PushEvents, Owned, CommandFor, Entry, SESSION_START, SESSION_END, PROMPT_SUBMIT;
    forall k ensures At(StripEvents(pushed, EVENTS), k) == At(hooks, k) {
      StripIsPointwise(pushed, k);
      StripAfterPushAt(hooks, pushed, harness, executable, k);
    }
    MapsAgree(StripEvents(pushed, EVENTS), hooks);
  }

  lemma StripAfterPushAt(hooks: map<string, Json>, pushed: map<string, Json>, harness: Harness, executable: string, k: string)
    requires Clean(hooks) && Recognized(harness, executable) && Pushable(hooks)
    requires At(pushed, k) == PushedAt(hooks, harness, executable, k)
    ensures StrippedAt(pushed, k) == At(hooks, k)
  {
    assert StrippedAt(hooks, k) == At(hooks, k);
    hide Clean, EVENTS, Entry, StripGroups, CommandFor, Owned;
    if k in EVENTS {
      var groups := if k in hooks then hooks[k].items else [];
      OwnedEntryVanishes(groups, harness, executable, k);
      assert [] + [Entry(harness, executable, k)] == [Entry(harness, executable, k)];
      StripOfNothing();
      hide Recognized, Pushable, PushedAt;
      StrippedTail(hooks, pushed, k, groups, Entry(harness, executable, k));
    }
  }

  lemma StripOfNothing()
    ensures StripGroups([]) == []
  {
  }

  lemma StrippedTail(hooks: map<string, Json>, pushed: map<string, Json>, k: string, groups: seq<Json>, entry: Json)
    requires k in EVENTS && StrippedAt(hooks, k) == At(hooks, k) && StripGroups([]) == []
    requires At(hooks, k) == Some(Arr(groups)) || (At(hooks, k) == None && groups == [])
    requires At(pushed, k) == Some(Arr(groups + [entry])) && StripGroups(groups + [entry]) == StripGroups(groups)
    ensures StrippedAt(pushed, k) == At(hooks, k)
  {
    hide StripGroups, EVENTS;
  }

  /**
   The round trip. Whatever the document held, stripping what was pushed onto its stripped form gives
   the stripped form back, for either harness, if the pushed commands are recognized as ours.
   */
  lemma RoundTrip(doc: Json, harness: Harness, executable: string)
    requires ValidShape(doc) && Recognized(harness, executable)
    ensures ValidShape(Strip(doc))
    ensures Push(Strip(doc), harness, executable).Ok? ==> Strip(Push(Strip(doc), harness, executable).value) == Strip(doc)
  {
    StripKeepsShape(doc);
    StripIsWithHooks(doc);
    var s := Strip(doc);
    if Push(s, harness, executable).Ok? {
      var pushed := Push(s, harness, executable).value;
      StrippedIsClean(HooksOf(doc));
      StripUndoesPush(HooksOf(s), harness, executable);
      StripIsWithHooks(pushed);
      hide Strip, StripEvents, PushEvents, Clean, Recognized;
      var hooks := HooksOf(s);
      assert HooksOf(pushed) == PushEvents(hooks, harness, executable, EVENTS).value;
      assert Strip(pushed) == WithHooks(pushed, hooks);
      PushedWithHooks(doc, hooks, PushEvents(hooks, harness, executable, EVENTS).value);
    }
  }

  lemma PushedWithHooks(doc: Json, hooks: map<string, Json>, pushed: map<string, Json>)
    requires doc.Obj?
    ensures var s := WithHooks(doc, hooks);
            WithHooks(Obj(s.fields["hooks" := Obj(pushed)]), hooks) == s
  {
    var s := WithHooks(doc, hooks);
    if hooks == map[] {
      assert s.fields["hooks" := Obj(pushed)] - {"hooks"} == s.fields;
    } else {
      assert s.fields["hooks" := Obj(pushed)]["hooks" := Obj(hooks)] == s.fields;
    }
  }

  // ----- Installing twice -----

  lemma PushedEventCommands(hooks: map<string, Json>, pushed: map<string, Json>, harness: Harness, executable: string, event: string)
    requires event in EVENTS && (event in hooks ==> hooks[event].Arr?)
    requires At(pushed, event) == PushedAt(hooks, harness, executable, event)
    ensures EventCommands(pushed, event) == EventCommands(hooks, event) + [CommandFor(harness, executable, event)]
  {
    hide CommandFor, Entry, AllCommands, EVENTS;
    var groups := if event in hooks then hooks[event].items else [];
    EntryGroup(harness, executable, event);
    AllCommandsOfOneMore(groups, Entry(harness, executable, event));
    assert [] + [Entry(harness, executable, event)] == [Entry(harness, executable, event)];
    NoCommands();
  }

  lemma NoCommands()
    ensures AllCommands([]) == []
  {
  }

  lemma PushedCommands(doc: Json, harness: Harness, executable: string, event: string)
    requires ValidShape(doc) && event in EVENTS && Push(doc, harness, executable).Ok?
    ensures Commands(Push(doc, harness, executable).value, event) == Commands(doc, event) + [CommandFor(harness, executable, event)]
  {
    hide PushEvents, CommandFor, EventCommands, EVENTS;
    PushIsPointwise(HooksOf(doc), harness, executable);
    var pushed := PushEvents(HooksOf(doc), harness, executable, EVENTS).value;
    assert HooksOf(Push(doc, harness, executable).value) == pushed;
    PushedEventCommands(HooksOf(doc), pushed, harness, executable, event);
  }

  /** After an install that changes the document: the foreign commands of before, in their order, then ours. */
  lemma InstalledCommands(doc: Json, harness: Harness, executable: string, event: string)
    requires ValidShape(doc) && event in EVENTS
    requires PresenceIn(doc, harness, executable) != CurrentOnly && Install(doc, harness, executable).Ok?
    ensures Install(doc, harness, executable).value.1 && ValidShape(Install(doc, harness, executable).value.0)
    ensures Commands(Install(doc, harness, executable).value.0, event)
         == Filter(Commands(doc, event), Foreign) + [CommandFor(harness, executable, event)]
  {
    StripKeepsShape(doc);
    hide PresenceIn, Strip, CommandFor, Owned, Filter, Commands, SESSION_START, SESSION_END, PROMPT_SUBMIT;
    var pushed := Push(Strip(doc), harness, executable).value;
    assert Install(doc, harness, executable).value == (pushed, true);
    ForeignCommandsSurvive(doc, event);
    PushedCommands(Strip(doc), harness, executable, event);
    PushKeepsShape(Strip(doc), harness, executable);
  }

  lemma PushKeepsShape(doc: Json, harness: Harness, executable: string)
    requires ValidShape(doc) && Push(doc, harness, executable).Ok?
    ensures ValidShape(Push(doc, harness, executable).value)
  {
    PushIsPointwise(HooksOf(doc), harness, executable);
    var pushed := PushEvents(HooksOf(doc), harness, executable, EVENTS).value;
    assert At(pushed, SESSION_START) == PushedAt(HooksOf(doc), harness, executable, SESSION_START);
    hide PushEvents, Entry, SESSION_START, SESSION_END, PROMPT_SUBMIT;
  }

  lemma OurCommandIsCurrent(harness: Harness, executable: string, event: string)
    ensures IsCurrent(harness, CommandFor(harness, executable, event), executable)
    ensures !IsStale(harness, CommandFor(harness, executable, event), executable)
  {
    match harness {
      case Claude =>
      case Codex =>
        var command := CodexCommand(executable, event);
        assert GetStr(command, "command") == Some(CodexText(executable));
        assert CodexText(executable) in Texts(command);
    }
  }

  lemma OwnedAfterInstall(doc: Json, harness: Harness, executable: string, event: string)
    requires ValidShape(doc) && event in EVENTS
    requires PresenceIn(doc, harness, executable) != CurrentOnly && Install(doc, harness, executable).Ok?
    ensures var command := CommandFor(harness, executable, event);
            Filter(Commands(Install(doc, harness, executable).value.0, event), Owned) == if Owned(command) then [command] else []
  {
    InstalledCommands(doc, harness, executable, event);
    hide Install, PresenceIn, CommandFor, Owned, Commands, SESSION_START, SESSION_END, PROMPT_SUBMIT;
    var foreign := Filter(Commands(doc, event), Foreign);
    FilterOfOneMore(foreign, CommandFor(harness, executable, event), Owned);
    FilterNone(foreign, Owned);
  }

  /**
   After an install whose commands are recognized, a second install with the same executable finds
   exactly them and changes nothing.
   */
  lemma SecondInstallChangesNothing(doc: Json, harness: Harness, executable: string)
    requires ValidShape(doc) && Recognized(harness, executable)
    requires PresenceIn(doc, harness, executable) != CurrentOnly && Install(doc, harness, executable).Ok?
    ensures var d1 := Install(doc, harness, executable).value.0;
            PresenceIn(d1, harness, executable) == CurrentOnly && Install(d1, harness, executable) == Ok((d1, false))
  {
    var d1 := Install(doc, harness, executable).value.0;
    InstalledCommands(doc, harness, executable, SESSION_START);
    EventsDiffer();
    NoSpaceWasChecked(doc, harness, executable);
    hide Install, PresenceIn, CommandFor, Owned, Commands, Filter, Recognized, SESSION_START, SESSION_END, PROMPT_SUBMIT;
    forall e | e in EVENTS
      ensures Filter(Commands(d1, e), Owned) == [CommandFor(harness, executable, e)]
    {
      OwnedAfterInstall(doc, harness, executable, e);
      RecognizedEvent(harness, executable, e);
    }
    PresentEverywhere(d1, harness, executable);
    InstallOfCurrent(d1, harness, executable);
  }

  lemma RecognizedEvent(harness: Harness, executable: string, e: string)
    requires Recognized(harness, executable) && e in EVENTS
    ensures Owned(CommandFor(harness, executable, e))
  {
    hide Owned, CommandFor, SESSION_START, SESSION_END, PROMPT_SUBMIT;
  }

  lemma NoSpaceWasChecked(doc: Json, harness: Harness, executable: string)
    requires Install(doc, harness, executable).Ok?
    ensures harness.Codex? ==> ' ' !in executable
  {
  }

  lemma InstallOfCurrent(doc: Json, harness: Harness, executable: string)
    requires ValidShape(doc) && PresenceIn(doc, harness, executable) == CurrentOnly && (harness.Codex? ==> ' ' !in executable)
    ensures Install(doc, harness, executable) == Ok((doc, false))
  {
    hide PresenceIn, SESSION_START, SESSION_END, PROMPT_SUBMIT;
  }

  lemma PresentEverywhere(doc: Json, harness: Harness, executable: string)
    requires forall e :: e in EVENTS ==> Filter(Commands(doc, e), Owned) == [CommandFor(harness, executable, e)]
    ensures PresenceIn(doc, harness, executable) == CurrentOnly
  {
    var c0, c1 := CommandFor(harness, executable, SESSION_START), CommandFor(harness, executable, SESSION_END);
    var c2 := CommandFor(harness, executable, PROMPT_SUBMIT);
    assert SESSION_START in EVENTS && SESSION_END in EVENTS && PROMPT_SUBMIT in EVENTS;
    hide *;
    OwnedCommandsAre(doc, c0, c1, c2);
    OurCommandIsCurrent(harness, executable, SESSION_START);
    OurCommandIsCurrent(harness, executable, SESSION_END);
    OurCommandIsCurrent(harness, executable, PROMPT_SUBMIT);
    forall e | e in EVENTS ensures Registered(doc, e) {
      RegisteredBy(doc, e, CommandFor(harness, executable, e));
    }
    AllCurrent(doc, harness, executable, c0, c1, c2);
  }

  lemma AllCurrent(doc: Json, harness: Harness, executable: string, c0: Json, c1: Json, c2: Json)
    requires OwnedCommands(doc) == [c0, c1, c2] && IsCurrent(harness, c0, executable)
    requires !IsStale(harness, c0, executable) && !IsStale(harness, c1, executable) && !IsStale(harness, c2, executable)
    requires forall e :: e in EVENTS ==> Registered(doc, e)
    ensures PresenceIn(doc, harness, executable) == CurrentOnly
  {
    hide OwnedCommands, IsCurrent, IsStale, Registered, EVENTS;
    assert c0 in OwnedCommands(doc);
  }

  lemma OwnedCommandsAre(doc: Json, c0: Json, c1: Json, c2: Json)
    requires Filter(Commands(doc, SESSION_START), Owned) == [c0] && Filter(Commands(doc, SESSION_END), Owned) == [c1]
    requires Filter(Commands(doc, PROMPT_SUBMIT), Owned) == [c2]
    ensures OwnedCommands(doc) == [c0, c1, c2]
  {
    hide Commands, Owned, SESSION_START, SESSION_END, PROMPT_SUBMIT;
  }

  lemma RegisteredBy(doc: Json, e: string, command: Json)
    requires Filter(Commands(doc, e), Owned) == [command]
    ensures Registered(doc, e)
  {
    hide Commands, Owned, SESSION_START, SESSION_END, PROMPT_SUBMIT;
    assert command in Filter(Commands(doc, e), Owned);
  }

  // ----- When our commands are recognized -----

  lemma ClaudeOwnedIff(executable: string, event: string)
    ensures Owned(CommandFor(Claude, executable, event)) <==> PointsAtBrainHook(executable)
  {
    var command := ClaudeCommand(executable);
    assert GetStr(command, "command") == Some(executable) && GetStr(command, "commandWindows") == None;
    assert Get(command, "args") == Some(CLAUDE_ARGS) && GetStr(command, "type") == Some("command");
    assert Texts(command) == [executable];
    hide PointsAtBrainHook, ClaudeCommand, Texts, Lower, SESSION_START, SESSION_END, PROMPT_SUBMIT;
  }

  /**
   A Claude command is the bare path, so what is recognized is its first word: the installation is
   idempotent exactly for paths whose first word names the hook binary.
   */
  lemma ClaudeRecognizedIff(executable: string)
    ensures Recognized(Claude, executable) <==> PointsAtBrainHook(executable)
  {
    hide Owned, CommandFor, PointsAtBrainHook, SESSION_START, SESSION_END, PROMPT_SUBMIT;
    forall e ensures Owned(CommandFor(Claude, executable, e)) <==> PointsAtBrainHook(executable) {
      ClaudeOwnedIff(executable, e);
    }
    assert SESSION_START in EVENTS;
  }

  predicate NoWhitespace(text: string) {
    forall i :: 0 <= i < |text| ==> !IsWhitespace(text[i])
  }

  lemma {:induction false} UpToMisses(text: string, stop: char -> bool)
    requires forall i :: 0 <= i < |text| ==> !stop(text[i])
    ensures UpTo(text, stop) == text
  {
    if text != [] {
      UpToMisses(text[1..], stop);
      assert text == [text[0]] + text[1..];
    }
  }

  /** On a path without whitespace or a leading quote, the first word is the path. */
  lemma WholePathIsRead(executable: string)
    requires NoWhitespace(executable) && (executable != [] ==> executable[0] != '"')
    ensures PointsAtBrainHook(executable) <==> NamesBrainHook(executable)
  {
    TrimFixes(executable);
    UpToMisses(executable, IsWhitespace);
    hide NamesBrainHook, Trim, UpTo;
  }

  /** With whitespace inside, only what comes before it is read. */
  lemma PathIsCutAtWhitespace(start: string, rest: string)
    requires start != [] && NoWhitespace(start) && start[0] != '"'
    requires rest != [] && IsWhitespace(rest[0]) && !IsWhitespace(rest[|rest| - 1])
    ensures PointsAtBrainHook(start + rest) <==> NamesBrainHook(start)
  {
    TrimFixes(start + rest);
    UpToStops(start, rest, IsWhitespace);
    hide NamesBrainHook, Trim, UpTo;
  }

  lemma {:induction false} UpToStops(start: string, rest: string, stop: char -> bool)
    requires (forall i :: 0 <= i < |start| ==> !stop(start[i])) && rest != [] && stop(rest[0])
    ensures UpTo(start + rest, stop) == start
  {
    if start == [] {
      assert start + rest == rest;
    } else {
      assert (start + rest)[1..] == start[1..] + rest;
      UpToStops(start[1..], rest, stop);
    }
  }

  lemma {:induction false} LowerOfConcat(a: string, b: string)
    ensures Lower(a + b) == Lower(a) + Lower(b)
  {
    if a == [] {
      assert a + b == b;
    } else {
      assert (a + b)[1..] == a[1..] + b;
      LowerOfConcat(a[1..], b);
    }
  }

  lemma {:induction false} ContainsAtEnd(a: string, part: string)
    ensures Contains(a + part, part)
  {
    if a == [] {
      assert a + part == part;
    } else {
      assert (a + part)[1..] == a[1..] + part;
      ContainsAtEnd(a[1..], part);
    }
  }

  lemma CodexFlag()
    ensures Lower("--harness codex") == "--harness codex"
  {
    LowerTail("--harness codex", 15);
  }

  lemma {:induction false} LowerTail(text: string, n: nat)
    requires n == |text| && forall i :: 0 <= i < |text| ==> !('A' <= text[i] <= 'Z')
    ensures Lower(text) == text
    decreases n
  {
    if text != [] {
      LowerTail(text[1..], n - 1);
      assert text == [text[0]] + text[1..];
    }
  }

  lemma CodexOwnedIff(executable: string, event: string)
    ensures Owned(CommandFor(Codex, executable, event)) <==>
              PointsAtBrainHook(CodexText(executable)) || PointsAtBrainHook(CodexWindowsText(executable))
  {
    CodexFields(executable, event);
    CodexTextHasFlag(executable);
    hide PointsAtBrainHook, CodexCommand, CodexText, CodexWindowsText, Texts, Contains, Lower, CLAUDE_ARGS,
      SESSION_START, SESSION_END, PROMPT_SUBMIT;
    var command := CommandFor(Codex, executable, event);
    assert CodexText(executable) in Texts(command) && CodexWindowsText(executable) in Texts(command);
  }

  /**
   A Codex command spells the path twice, quoted and bare: at any path at all, the installation is
   recognized exactly when one of the two spellings is read as naming the hook binary.
   */
  lemma CodexRecognizedIff(executable: string)
    ensures Recognized(Codex, executable) <==>
              NamesBrainHook(UpTo(executable, IsQuote)) || PointsAtBrainHook(CodexWindowsText(executable))
  {
    QuotedPathIsRead(executable);
    hide Owned, CommandFor, PointsAtBrainHook, NamesBrainHook, CodexText, CodexWindowsText, UpTo, SESSION_START, SESSION_END, PROMPT_SUBMIT;
    forall e ensures Owned(CommandFor(Codex, executable, e)) <==>
                       PointsAtBrainHook(CodexText(executable)) || PointsAtBrainHook(CodexWindowsText(executable)) {
      CodexOwnedIff(executable, e);
    }
    assert SESSION_START in EVENTS;
  }

  /** So an installation at a path with no quotation mark is recognized whenever the path names the hook binary. */
  lemma CodexIsRecognized(executable: string)
    requires NamesBrainHook(executable) && '"' !in executable
    ensures Recognized(Codex, executable)
  {
    CodexRecognizedIff(executable);
    QuoteFree(executable);
    UpToMisses(executable, IsQuote);
    hide *;
  }

  lemma QuoteFree(executable: string)
    requires '"' !in executable
    ensures forall i :: 0 <= i < |executable| ==> !IsQuote(executable[i])
  {
    forall i | 0 <= i < |executable| ensures !IsQuote(executable[i]) {
      assert executable[i] in executable;
    }
  }

  /** And at a path with neither a quotation mark nor whitespace, exactly when it does. */
  lemma CodexPathIsReadIff(executable: string)
    requires executable != [] && NoWhitespace(executable) && '"' !in executable
    ensures Recognized(Codex, executable) <==> NamesBrainHook(executable)
  {
    CodexRecognizedIff(executable);
    QuoteFree(executable);
    UpToMisses(executable, IsQuote);
    var rest := " --harness codex";
    assert CodexWindowsText(executable) == executable + rest && rest[|rest| - 1] == 'x';
    assert executable[0] in executable;
    hide Recognized, NamesBrainHook, PointsAtBrainHook, UpTo, CodexWindowsText, SESSION_START, SESSION_END, PROMPT_SUBMIT;
    PathIsCutAtWhitespace(executable, rest);
  }

  lemma CodexTextHasFlag(executable: string)
    ensures Contains(Lower(CodexText(executable)), "--harness codex")
  {
    var flag := "--harness codex";
    var start := "\"" + executable + "\" ";
    assert CodexText(executable) == start + flag;
    LowerOfConcat(start, flag);
    CodexFlag();
    hide Lower, Contains, CodexText;
    ContainsAtEnd(Lower(start), flag);
  }

  lemma CodexFields(executable: string, e: string)
    ensures var command := CommandFor(Codex, executable, e);
            && GetStr(command, "type") == Some("command") && Get(command, "args") == None
            && Texts(command) == [CodexWindowsText(executable), CodexText(executable)]
  {
    hide CodexText, CodexWindowsText;
    var command := CodexCommand(executable, e);
    assert GetStr(command, "command") == Some(CodexText(executable));
    assert GetStr(command, "commandWindows") == Some(CodexWindowsText(executable));
  }

  /** The quoted spelling is read up to the first quotation mark of the path, or to its end. */
  lemma QuotedPathIsRead(executable: string)
    ensures PointsAtBrainHook(CodexText(executable)) <==> NamesBrainHook(UpTo(executable, IsQuote))
  {
    var text := CodexText(executable);
    var rest := "\" --harness codex";
    assert text[0] == '"' && text[|text| - 1] == 'x' && text[1..] == executable + rest;
    TrimFixes(text);
    UpToFirst(executable, rest, IsQuote);
    hide NamesBrainHook, Trim, UpTo, CodexText, SESSION_START, SESSION_END, PROMPT_SUBMIT;
  }

  lemma {:induction false} UpToFirst(start: string, rest: string, stop: char -> bool)
    requires rest != [] && stop(rest[0])
    ensures UpTo(start + rest, stop) == UpTo(start, stop)
  {
    if start == [] {
      assert start + rest == rest;
    } else {
      assert (start + rest)[1..] == start[1..] + rest && (start + rest)[0] == start[0];
      UpToFirst(start[1..], rest, stop);
    }
  }

  /**
   An install that is not recognized is not idempotent: the next one does not see it, and each event
   ends with one more copy of the command.
   */
  lemma UnrecognizedInstallRepeats(doc: Json, harness: Harness, executable: string, event: string)
    requires ValidShape(doc) && event in EVENTS && !Recognized(harness, executable)
    requires PresenceIn(doc, harness, executable) != CurrentOnly && Install(doc, harness, executable).Ok?
    ensures var d1 := Install(doc, harness, executable).value.0;
            PresenceIn(d1, harness, executable) == Missing
    ensures var d1 := Install(doc, harness, executable).value.0;
            Install(d1, harness, executable).Ok? ==>
              Commands(Install(d1, harness, executable).value.0, event)
              == Commands(d1, event) + [CommandFor(harness, executable, event)]
  {
    var d1 := Install(doc, harness, executable).value.0;
    InstalledCommands(doc, harness, executable, event);
    hide Install, PresenceIn, CommandFor, Owned, Commands, Recognized, Filter, SESSION_START, SESSION_END, PROMPT_SUBMIT;
    forall e | e in EVENTS ensures Filter(Commands(d1, e), Owned) == [] {
      OwnedAfterInstall(doc, harness, executable, e);
      UnrecognizedIsNotOwned(harness, executable, e);
    }
    NothingOwnedIsMissing(d1, harness, executable);
    if Install(d1, harness, executable).Ok? {
      InstalledCommands(d1, harness, executable, event);
      NothingOwnedIsForeign(Commands(d1, event));
    }
  }

  /** The three commands of an installation are recognized together or not at all. */
  lemma UnrecognizedIsNotOwned(harness: Harness, executable: string, event: string)
    requires !Recognized(harness, executable)
    ensures !Owned(CommandFor(harness, executable, event))
  {
    hide Owned, CommandFor, PointsAtBrainHook, CodexText, CodexWindowsText, SESSION_START, SESSION_END, PROMPT_SUBMIT;
    var other :| other in EVENTS && !Owned(CommandFor(harness, executable, other));
    match harness {
      case Claude =>
        ClaudeOwnedIff(executable, event);
        ClaudeOwnedIff(executable, other);
      case Codex =>
        CodexOwnedIff(executable, event);
        CodexOwnedIff(executable, other);
    }
  }

  lemma NothingOwnedIsMissing(doc: Json, harness: Harness, executable: string)
    requires forall e :: e in EVENTS ==> Filter(Commands(doc, e), Owned) == []
    ensures PresenceIn(doc, harness, executable) == Missing
  {
    hide Commands, Owned, IsCurrent, IsStale, Registered, SESSION_START, SESSION_END, PROMPT_SUBMIT;
    assert SESSION_START in EVENTS && SESSION_END in EVENTS && PROMPT_SUBMIT in EVENTS;
    assert OwnedCommands(doc) == [];
  }

  lemma NothingOwnedIsForeign(commands: seq<Json>)
    requires Filter(commands, Owned) == []
    ensures Filter(commands, Foreign) == commands
  {
    hide Owned;
    forall c | c in commands ensures Foreign(c) {
      assert c !in Filter(commands, Owned);
    }
    FilterAll(commands, Foreign);
  }

  // ----- The edits themselves -----

  /** Drop our commands from one group. */
  method StripGroupCommands(group: Json) returns (r: Json, changed: bool)
    ensures r == StripGroup(group)
    ensures changed <==> GroupCommands(group).Some? && exists c :: c in GroupCommands(group).value && Owned(c)
  {
    hide Owned, Filter, SESSION_START, SESSION_END, PROMPT_SUBMIT;
    var commands := GroupCommands(group);
    if commands.None? {
      return group, false;
    }
    var kept: seq<Json> := [];
    var i := 0;
    changed := false;
    while i < |commands.value|
      invariant 0 <= i <= |commands.value|
      invariant kept == Filter(commands.value[..i], Foreign)
      invariant changed <==> exists c :: c in commands.value[..i] && Owned(c)
    {
      var command := commands.value[i];
      FilterOfOneMore(commands.value[..i], command, Foreign);
      assert commands.value[..i + 1] == commands.value[..i] + [command];
      assert forall c :: c in commands.value[..i + 1] <==> c in commands.value[..i] || c == command;
      if Owned(command) {
        changed := true;
        assert Filter(commands.value[..i], Foreign) + [] == Filter(commands.value[..i], Foreign);
      } else {
        kept := kept + [command];
      }
      i := i + 1;
    }
    assert commands.value[..|commands.value|] == commands.value;
    r := Obj(group.fields["hooks" := Arr(kept)]);
  }

  method StripEventGroups(groups: seq<Json>) returns (r: seq<Json>, changed: bool)
    ensures r == StripGroups(groups)
    ensures changed <==> exists c :: c in AllCommands(groups) && Owned(c)
  {
    hide Owned, StripGroup, KeepGroup, Filter, SESSION_START, SESSION_END, PROMPT_SUBMIT;
    r, changed := [], false;
    var i := 0;
    while i < |groups|
      invariant 0 <= i <= |groups|
      invariant r == StripGroups(groups[..i])
      invariant changed <==> exists c :: c in AllCommands(groups[..i]) && Owned(c)
    {
      var group, dropped := StripGroupCommands(groups[i]);
      assert groups[..i + 1][..i] == groups[..i];
      assert groups[..i + 1] == groups[..i] + [groups[i]];
      CommandsOfOneMore(groups[..i], groups[i]);
      StripGroupsOfOneMore(groups[..i], groups[i]);
      if KeepGroup(group) {
        r := r + [group];
      } else {
        assert StripGroups(groups[..i]) + [] == StripGroups(groups[..i]);
      }
      changed := changed || dropped;
      i := i + 1;
    }
    assert groups[..|groups|] == groups;
  }

  lemma CommandsOfOneMore(groups: seq<Json>, group: Json)
    ensures forall c :: c in AllCommands(groups + [group]) <==>
              c in AllCommands(groups) || (GroupCommands(group).Some? && c in GroupCommands(group).value)
  {
    assert (groups + [group])[..|groups|] == groups;
  }

  method StripHookEvent(hooks: map<string, Json>, event: string) returns (r: map<string, Json>, changed: bool)
    ensures r == StripEvent(hooks, event)
    ensures changed <==> exists c :: c in EventCommands(hooks, event) && Owned(c)
  {
    hide Owned, StripGroups, AllCommands;
    if !(event in hooks && hooks[event].Arr?) {
      return hooks, false;
    }
    var groups;
    groups, changed := StripEventGroups(hooks[event].items);
    r := if groups == [] then hooks - {event} else hooks[event := Arr(groups)];
  }

  lemma UntouchedCommands(was: map<string, Json>, hooks: map<string, Json>, event: string)
    requires At(hooks, event) == At(was, event)
    ensures EventCommands(hooks, event) == EventCommands(was, event)
  {
    hide AllCommands;
  }

  /** The events seen so far are stripped, the others are as they were. */
  ghost predicate StrippedSoFar(was: map<string, Json>, hooks: map<string, Json>, i: nat)
    requires i <= |EVENTS|
  {
    hooks == StripEvents(was, EVENTS[..i]) && forall k :: k !in EVENTS[..i] ==> At(hooks, k) == At(was, k)
  }

  lemma StrippedOneMore(was: map<string, Json>, hooks: map<string, Json>, i: nat)
    requires i < |EVENTS| && StrippedSoFar(was, hooks, i)
    ensures StrippedSoFar(was, StripEvent(hooks, EVENTS[i]), i + 1)
    ensures EventCommands(hooks, EVENTS[i]) == EventCommands(was, EVENTS[i])
  {
    EventsDiffer();
    assert EVENTS[..i + 1][..i] == EVENTS[..i] && EVENTS[..i + 1] == EVENTS[..i] + [EVENTS[i]];
    hide SESSION_START, SESSION_END, PROMPT_SUBMIT, AllCommands, StripEvent;
    assert EVENTS[i] !in EVENTS[..i];
    UntouchedCommands(was, hooks, EVENTS[i]);
    forall k | k !in EVENTS[..i + 1] ensures At(StripEvent(hooks, EVENTS[i]), k) == At(was, k) {
      StripEventAt(hooks, EVENTS[i], k);
    }
  }

  /** The whole edit; what it reports is whether a command of ours was there. */
  method StripBrainHooks(doc: Json) returns (r: Json, changed: bool)
    ensures r == Strip(doc)
    ensures changed <==> exists e :: e in EVENTS && Registered(doc, e)
  {
    hide Owned, StripEvent, EventCommands, SESSION_START, SESSION_END, PROMPT_SUBMIT;
    if !(doc.Obj? && "hooks" in doc.fields && doc.fields["hooks"].Obj?) {
      NothingRegistered(doc);
      return doc, false;
    }
    ghost var was := HooksOf(doc);
    var hooks := doc.fields["hooks"].fields;
    changed := false;
    var i := 0;
    while i < |EVENTS|
      invariant 0 <= i <= |EVENTS|
      invariant StrippedSoFar(was, hooks, i)
      invariant changed <==> exists e :: e in EVENTS[..i] && Registered(doc, e)
    {
      StrippedOneMore(was, hooks, i);
      var stripped, dropped := StripHookEvent(hooks, EVENTS[i]);
      assert EVENTS[..i + 1] == EVENTS[..i] + [EVENTS[i]];
      assert dropped <==> Registered(doc, EVENTS[i]);
      hide StrippedSoFar, Registered;
      hooks := stripped;
      changed := changed || dropped;
      i := i + 1;
    }
    assert EVENTS[..|EVENTS|] == EVENTS;
    r := if hooks == map[] then Obj(doc.fields - {"hooks"}) else Obj(doc.fields["hooks" := Obj(hooks)]);
  }

  lemma NothingRegistered(doc: Json)
    requires HooksOf(doc) == map[]
    ensures forall e :: !Registered(doc, e)
  {
    hide Owned;
  }

  method PushHookEntries(doc: Json, harness: Harness, executable: string) returns (r: Result<Json, InstallError>)
    requires ValidShape(doc)
    ensures r == Push(doc, harness, executable)
  {
    hide Entry, SESSION_START, SESSION_END, PROMPT_SUBMIT;
    var hooks := if "hooks" in doc.fields then doc.fields["hooks"].fields else map[];
    ghost var was := hooks;
    var i := 0;
    while i < |EVENTS|
      invariant 0 <= i <= |EVENTS|
      invariant PushEvents(was, harness, executable, EVENTS[..i]) == Ok(hooks)
    {
      var event := EVENTS[i];
      assert EVENTS[..i + 1][..i] == EVENTS[..i];
      var entry := Entry(harness, executable, event);
      if event !in hooks {
        hooks := hooks[event := Arr([entry])];
      } else if hooks[event].Arr? {
        hooks := hooks[event := Arr(hooks[event].items + [entry])];
      } else {
        PushFailureSticks(was, harness, executable, i + 1);
        return Err(NotAnArray(event));
      }
      i := i + 1;
    }
    assert EVENTS[..|EVENTS|] == EVENTS;
    return Ok(Obj(doc.fields["hooks" := Obj(hooks)]));
  }

  lemma {:induction false} PushFailureSticks(hooks: map<string, Json>, harness: Harness, executable: string, i: nat)
    requires i <= |EVENTS| && PushEvents(hooks, harness, executable, EVENTS[..i]).Err?
    ensures PushEvents(hooks, harness, executable, EVENTS) == PushEvents(hooks, harness, executable, EVENTS[..i])
    decreases |EVENTS| - i
  {
    hide PushEvent, Entry, SESSION_START, SESSION_END, PROMPT_SUBMIT;
    if i < |EVENTS| {
      assert EVENTS[..i + 1][..i] == EVENTS[..i];
      PushFailureSticks(hooks, harness, executable, i + 1);
    } else {
      assert EVENTS[..i] == EVENTS;
    }
  }
}
