/**
 What an install writes and what counts as installed: the entry of each event field by field, and how a
 path is read.
 */
module HookOutcomes {
  import opened Common
  import opened Text
  import opened Json
  import opened Sequences
  import opened InstallHooks

  // ----- The entries -----

  /** The fields of an object, with these values for these keys and no others. */
  ghost predicate IsObject(value: Json, keys: set<string>) {
    value.Obj? && value.fields.Keys == keys
  }

  /** A Claude command: the bare path, the harness as arguments, ten seconds. */
  lemma ClaudeCommandSays(executable: string, event: string)
    ensures var c := CommandFor(Claude, executable, event);
            && IsObject(c, {"type", "command", "args", "timeout"})
            && GetStr(c, "type") == Some("command") && GetStr(c, "command") == Some(executable)
            && Get(c, "args") == Some(Arr([Str("--harness"), Str("claude-code")])) && Get(c, "timeout") == Some(Number(10))
  {
    hide SESSION_START, SESSION_END, PROMPT_SUBMIT;
  }

  /** A Codex command: the path quoted for a shell and bare for Windows, each followed by the harness. */
  lemma CodexCommandSays(executable: string, event: string)
    ensures var c := CommandFor(Codex, executable, event);
            && GetStr(c, "type") == Some("command")
            && GetStr(c, "command") == Some("\"" + executable + "\" --harness codex")
            && GetStr(c, "commandWindows") == Some(executable + " --harness codex")
            && Get(c, "args") == None
  {
    hide SESSION_START, SESSION_END, PROMPT_SUBMIT;
  }

  /** Codex gives a session start and a prompt fifteen seconds and a session end three, and shows a message at a start only. */
  lemma CodexLimitsSay(executable: string, event: string)
    requires event in EVENTS
    ensures var c := CommandFor(Codex, executable, event);
            && Get(c, "timeout") == Some(Number(if event == SESSION_END then 3 else 15))
            && Get(c, "statusMessage") == (if event == SESSION_START then Some(Str("Loading project memory")) else None)
            && Get(c, "additionalContextLimit") == (if event == SESSION_START then Some(Number(1500)) else None)
  {
    EventsDiffer();
    hide CodexText, CodexWindowsText, SESSION_START, SESSION_END, PROMPT_SUBMIT;
  }

  /** The names of the three events. */
  lemma EventNames()
    ensures EVENTS == ["SessionStart", "SessionEnd", "UserPromptSubmit"]
  {
  }

  /** A group holds the one command, under the event's matcher. A Claude prompt has none. */
  lemma EntrySays(harness: Harness, executable: string, event: string)
    requires event in EVENTS
    ensures var group := Entry(harness, executable, event);
            && group.Obj? && Get(group, "hooks") == Some(Arr([CommandFor(harness, executable, event)]))
            && group.fields.Keys <= {"matcher", "hooks"}
            && (harness == Claude && event == PROMPT_SUBMIT ==> "matcher" !in group.fields)
            && (event == SESSION_END || (harness == Codex && event == PROMPT_SUBMIT) ==> GetStr(group, "matcher") == Some(".*"))
            && (event == SESSION_START ==> GetStr(group, "matcher") == Some(StartMatcher(harness)))
  {
    EventsDiffer();
    StartMatcherSays(harness);
    hide CommandFor, SESSION_START, SESSION_END, PROMPT_SUBMIT, StartMatcher;
  }

  /** What a session start is matched by. */
  function StartMatcher(harness: Harness): string {
    match harness
    case Claude => "startup|resume|clear|compact|fork"
    case Codex => "^(startup|resume|clear|compact)$"
  }

  lemma StartMatcherSays(harness: Harness)
    ensures MatcherFor(harness, SESSION_START) == Some(StartMatcher(harness))
  {
  }

  /** A group added behind those an event already has, if any. */
  ghost predicate GroupAdded(before: Option<Json>, after: Option<Json>, group: Json) {
    && after.Some? && after.value.Arr?
    && (before.None? ==> after.value.items == [group])
    && (before.Some? ==> before.value.Arr? && after.value.items == before.value.items + [group])
  }

  /** After a push, each event ends with one more group, and what else was there is as it was. */
  lemma PushSays(doc: Json, harness: Harness, executable: string)
    requires ValidShape(doc) && Push(doc, harness, executable).Ok?
    ensures var before, after := HooksOf(doc), HooksOf(Push(doc, harness, executable).value);
            forall k :: if k in EVENTS then GroupAdded(At(before, k), At(after, k), Entry(harness, executable, k))
                        else At(after, k) == At(before, k)
    ensures forall k :: k != "hooks" ==> Get(Push(doc, harness, executable).value, k) == Get(doc, k)
  {
    PushIsPointwise(HooksOf(doc), harness, executable);
    var pushed := PushEvents(HooksOf(doc), harness, executable, EVENTS).value;
    assert HooksOf(Push(doc, harness, executable).value) == pushed;
    hide PushEvents, Entry, EVENTS;
    forall k
      ensures if k in EVENTS then GroupAdded(At(HooksOf(doc), k), At(pushed, k), Entry(harness, executable, k))
              else At(pushed, k) == At(HooksOf(doc), k)
    {
      assert At(pushed, k) == PushedAt(HooksOf(doc), harness, executable, k);
      if k in EVENTS && k in HooksOf(doc) {
        assert HooksOf(doc)[k].Arr?;
      }
    }
  }

  // ----- What counts as installed -----

  /** Two spellings of a path or a command that differ in case and slashes at most. */
  ghost predicate SpellsLike(a: string, b: string) {
    |a| == |b| && forall i :: 0 <= i < |a| ==> LikeChar(a[i], b[i])
  }

  predicate LikeChar(a: char, b: char) {
    LowerChar(if a == '/' then '\\' else a) == LowerChar(if b == '/' then '\\' else b)
  }

  lemma {:induction false} LowerAt(s: string)
    ensures |Lower(s)| == |s| && forall i :: 0 <= i < |s| ==> Lower(s)[i] == LowerChar(s[i])
  {
    if s != [] {
      LowerAt(s[1..]);
      assert forall i :: 0 < i < |s| ==> s[i] == s[1..][i - 1];
    }
  }

  lemma SameTextIff(a: string, b: string)
    ensures SameText(a, b) <==> SpellsLike(a, b)
  {
    LowerAt(BackSlashes(a));
    LowerAt(BackSlashes(b));
    hide Lower, LowerChar;
    if SameText(a, b) {
      forall i | 0 <= i < |a| ensures LikeChar(a[i], b[i]) {
        assert Lower(BackSlashes(a))[i] == Lower(BackSlashes(b))[i];
      }
    }
  }

  /** Our commands in a document, for any of the three events. */
  ghost predicate IsOurs(doc: Json, c: Json) {
    Owned(c) && exists e :: e in EVENTS && c in Commands(doc, e)
  }

  /** The command is ours for this executable, in whatever spelling of its path. */
  ghost predicate IsForThis(harness: Harness, c: Json, executable: string) {
    match harness
    case Claude => GetStr(c, "command").Some? && SpellsLike(GetStr(c, "command").value, executable)
    case Codex => exists t :: t in Texts(c) && SpellsLike(t, CodexText(executable))
  }

  lemma OursAre(doc: Json, c: Json)
    ensures c in OwnedCommands(doc) <==> IsOurs(doc, c)
  {
    hide Owned, Commands, SESSION_START, SESSION_END, PROMPT_SUBMIT;
    assert c in OwnedCommands(doc) <==>
      Owned(c) && (c in Commands(doc, SESSION_START) || c in Commands(doc, SESSION_END) || c in Commands(doc, PROMPT_SUBMIT));
    assert forall e :: e in EVENTS <==> e == SESSION_START || e == SESSION_END || e == PROMPT_SUBMIT;
  }

  lemma CurrentIff(harness: Harness, c: Json, executable: string)
    ensures IsCurrent(harness, c, executable) <==> IsForThis(harness, c, executable)
    ensures IsStale(harness, c, executable) <==>
              !IsForThis(harness, c, executable) && (harness == Claude ==> GetStr(c, "command").Some?)
  {
    if harness == Claude && GetStr(c, "command").Some? {
      SameTextIff(GetStr(c, "command").value, executable);
    }
    forall t ensures SameText(t, CodexText(executable)) <==> SpellsLike(t, CodexText(executable)) {
      SameTextIff(t, CodexText(executable));
    }
    hide SameText, SpellsLike, CodexText, Texts;
  }

  /** Each event holds a command of ours. */
  ghost predicate EveryEventHasOurs(doc: Json) {
    forall e :: e in EVENTS ==> exists c :: c in Commands(doc, e) && Owned(c)
  }

  /** One of our commands is for this executable. */
  ghost predicate OneIsForThis(doc: Json, harness: Harness, executable: string) {
    exists c :: IsOurs(doc, c) && IsForThis(harness, c, executable)
  }

  /** One of our commands is for another executable. A Claude command without a text is for none. */
  ghost predicate OneIsForAnother(doc: Json, harness: Harness, executable: string) {
    exists c :: IsOurs(doc, c) && !IsForThis(harness, c, executable) && (harness == Claude ==> GetStr(c, "command").Some?)
  }

  lemma CurrentOwned(doc: Json, harness: Harness, executable: string)
    ensures (exists c :: c in OwnedCommands(doc) && IsCurrent(harness, c, executable)) <==> OneIsForThis(doc, harness, executable)
  {
    hide *;
    hide IsOurs, IsForThis, IsCurrent, OwnedCommands;
    if c :| c in OwnedCommands(doc) && IsCurrent(harness, c, executable) {
      OursAre(doc, c);
      CurrentIff(harness, c, executable);
      ForThisIs(doc, harness, executable, c);
    }
    if OneIsForThis(doc, harness, executable) {
      var c := ForThisIn(doc, harness, executable);
      OursAre(doc, c);
      CurrentIff(harness, c, executable);
    }
  }

  lemma ForThisIs(doc: Json, harness: Harness, executable: string, c: Json)
    requires IsOurs(doc, c) && IsForThis(harness, c, executable)
    ensures OneIsForThis(doc, harness, executable)
  {
    hide IsOurs, IsForThis;
  }

  lemma ForThisIn(doc: Json, harness: Harness, executable: string) returns (c: Json)
    requires OneIsForThis(doc, harness, executable)
    ensures IsOurs(doc, c) && IsForThis(harness, c, executable)
  {
    hide IsOurs, IsForThis;
    c :| IsOurs(doc, c) && IsForThis(harness, c, executable);
  }

  lemma StaleOwned(doc: Json, harness: Harness, executable: string)
    ensures (exists c :: c in OwnedCommands(doc) && IsStale(harness, c, executable)) <==> OneIsForAnother(doc, harness, executable)
  {
    forall c
      ensures c in OwnedCommands(doc) <==> IsOurs(doc, c)
      ensures IsStale(harness, c, executable) <==>
                !IsForThis(harness, c, executable) && (harness == Claude ==> GetStr(c, "command").Some?)
    {
      OursAre(doc, c);
      CurrentIff(harness, c, executable);
    }
    hide *;
    hide OwnedCommands, IsOurs, IsForThis, IsStale, GetStr;
    OtherUnfolds(doc, harness, executable);
  }

  lemma OtherUnfolds(doc: Json, harness: Harness, executable: string)
    ensures OneIsForAnother(doc, harness, executable) <==>
              exists c :: IsOurs(doc, c) && !IsForThis(harness, c, executable) && (harness == Claude ==> GetStr(c, "command").Some?)
  {
    hide IsOurs, IsForThis, GetStr;
  }

  /**
   A document is installed, and an install leaves it alone, exactly when each event holds a command of
   ours, one of ours is for this executable, and none of ours is for another. Nothing is installed exactly
   when none of ours is for any.
   */
  lemma InstalledIff(doc: Json, harness: Harness, executable: string)
    ensures PresenceIn(doc, harness, executable) == CurrentOnly <==>
              EveryEventHasOurs(doc) && OneIsForThis(doc, harness, executable) && !OneIsForAnother(doc, harness, executable)
    ensures PresenceIn(doc, harness, executable) == Missing <==>
              !OneIsForThis(doc, harness, executable) && !OneIsForAnother(doc, harness, executable)
  {
    CurrentOwned(doc, harness, executable);
    StaleOwned(doc, harness, executable);
    hide Owned, Commands, OwnedCommands, IsCurrent, IsStale, OneIsForThis, OneIsForAnother, EVENTS;
    assert EveryEventHasOurs(doc) <==> forall e :: e in EVENTS ==> Registered(doc, e);
  }

  // ----- Whose command it is -----

  /** The text holds the part somewhere. */
  ghost predicate HasPart(text: string, part: string) {
    exists i: nat :: PartAt(text, part, i)
  }

  predicate PartAt(text: string, part: string, i: nat) {
    i + |part| <= |text| && text[i..i + |part|] == part
  }

  lemma {:induction false} PartIsContained(text: string, part: string, i: nat)
    requires PartAt(text, part, i)
    ensures Contains(text, part)
  {
    if i == 0 {
      assert text[..|part|] == part;
    } else {
      var rest := text[1..];
      assert rest[i - 1..i - 1 + |part|] == text[i..i + |part|];
      PartIsContained(rest, part, i - 1);
    }
  }

  lemma {:induction false} ContainedPart(text: string, part: string) returns (i: nat)
    requires Contains(text, part)
    ensures PartAt(text, part, i)
  {
    if part <= text {
      i := 0;
    } else {
      i := ContainedPart(text[1..], part);
      assert text[i + 1..i + 1 + |part|] == text[1..][i..i + |part|];
      i := i + 1;
    }
  }

  lemma ContainsIff(text: string, part: string)
    ensures Contains(text, part) <==> HasPart(text, part)
  {
    hide Contains, PartAt;
    if Contains(text, part) {
      var i := ContainedPart(text, part);
    }
    if i: nat :| PartAt(text, part, i) {
      PartIsContained(text, part, i);
    }
  }

  /** A text of the command, for a shell or for Windows. */
  predicate IsTextOf(c: Json, t: string) {
    GetStr(c, "command") == Some(t) || GetStr(c, "commandWindows") == Some(t)
  }

  /** Started for one of the two harnesses. */
  ghost predicate ForAHarness(c: Json) {
    || Get(c, "args") == Some(Arr([Str("--harness"), Str("claude-code")]))
    || exists t :: IsTextOf(c, t) && HasPart(Lower(t), "--harness codex")
  }

  /** Exactly which commands are ours: those of type command that are for a harness and name the hook. */
  lemma OwnedIff(c: Json)
    ensures Owned(c) <==>
              && GetStr(c, "type") == Some("command") && ForAHarness(c)
              && exists t :: IsTextOf(c, t) && PointsAtBrainHook(t)
  {
    forall t ensures Contains(Lower(t), "--harness codex") <==> HasPart(Lower(t), "--harness codex") {
      ContainsIff(Lower(t), "--harness codex");
    }
    forall t ensures t in Texts(c) <==> IsTextOf(c, t) {
    }
    hide Contains, HasPart, Lower, PointsAtBrainHook, Texts, IsTextOf;
  }

  // ----- Stripping -----

  /** The commands of a group, if it holds an array of them. */
  ghost predicate HoldsCommands(group: Json, commands: seq<Json>) {
    Get(group, "hooks") == Some(Arr(commands))
  }

  /** A group as it was but for our commands, or all as it was if it holds no array of commands. */
  ghost predicate IsWithoutOurs(after: Json, before: Json) {
    && (forall k :: k != "hooks" ==> Get(after, k) == Get(before, k))
    && (forall commands :: HoldsCommands(before, commands) ==> HoldsCommands(after, Filter(commands, Foreign)))
    && ((forall commands :: !HoldsCommands(before, commands)) ==> after == before)
  }

  /** Whether a group holds an array of commands, and no foreign one. */
  ghost predicate IsAllOurs(group: Json) {
    exists commands :: HoldsCommands(group, commands) && forall c :: c in commands ==> Owned(c)
  }

  /** What is left of some groups: those at these ascending places, which are all that were not wholly ours. */
  ghost predicate LeftAt(after: seq<Json>, before: seq<Json>, at: seq<nat>) {
    && |after| == |at|
    && (forall i :: 0 <= i < |at| ==> at[i] < |before| && IsWithoutOurs(after[i], before[at[i]]))
    && (forall i, j :: 0 <= i < j < |at| ==> at[i] < at[j])
    && (forall j: nat :: j in at <==> j < |before| && !IsAllOurs(before[j]))
  }

  lemma StripGroupIs(group: Json)
    ensures IsWithoutOurs(StripGroup(group), group)
  {
    hide Owned, Filter;
    var commands := GroupCommands(group);
    assert commands.Some? ==> HoldsCommands(group, commands.value);
  }

  lemma KeepGroupIff(group: Json)
    ensures KeepGroup(StripGroup(group)) <==> !IsAllOurs(group)
  {
    var commands := GroupCommands(group);
    if commands.Some? {
      assert HoldsCommands(group, commands.value);
      assert GroupCommands(StripGroup(group)) == Some(Filter(commands.value, Foreign));
      NoneLeftIff(commands.value);
    }
    hide Owned, Filter;
  }

  lemma {:induction false} NoneLeftIff(commands: seq<Json>)
    ensures Filter(commands, Foreign) == [] <==> forall c :: c in commands ==> Owned(c)
  {
    hide Owned;
    if forall c :: c in commands ==> Owned(c) {
      FilterNone(commands, Foreign);
    } else {
      var c :| c in commands && !Owned(c);
      assert c in Filter(commands, Foreign);
    }
  }

  lemma StripGroupsUnfolds(groups: seq<Json>)
    requires groups != []
    ensures var last := StripGroup(groups[|groups| - 1]);
            StripGroups(groups) == StripGroups(groups[..|groups| - 1]) + if KeepGroup(last) then [last] else []
  {
    hide StripGroup, KeepGroup;
  }

  lemma NoGroupsLeft()
    ensures LeftAt(StripGroups([]), [], [])
  {
  }

  /** Stripping a list of groups takes our commands out of each, and takes out the groups that held nothing else. */
  lemma {:induction false} StrippedGroupsSay(groups: seq<Json>) returns (at: seq<nat>)
    ensures LeftAt(StripGroups(groups), groups, at)
  {
    hide *;
    if groups == [] {
      NoGroupsLeft();
      assert groups == [];
      at := [];
    } else {
      var front, last := groups[..|groups| - 1], groups[|groups| - 1];
      at := StrippedGroupsSay(front);
      StripGroupIs(last);
      KeepGroupIff(last);
      StripGroupsUnfolds(groups);
      OneMoreLeft(StripGroups(front), front, at, StripGroup(last), last, KeepGroup(StripGroup(last)));
      assert groups == front + [last];
      at := at + if KeepGroup(StripGroup(last)) then [|front|] else [];
    }
  }

  lemma OneMoreLeft(after: seq<Json>, before: seq<Json>, at: seq<nat>, stripped: Json, group: Json, kept: bool)
    requires LeftAt(after, before, at) && IsWithoutOurs(stripped, group) && kept == !IsAllOurs(group)
    ensures LeftAt(after + (if kept then [stripped] else []), before + [group], at + if kept then [|before|] else [])
  {
    hide IsWithoutOurs, IsAllOurs;
    var more, n := before + [group], |before|;
    assert more[n] == group && forall j :: 0 <= j < n ==> more[j] == before[j];
    assert forall i :: 0 <= i < |at| ==> at[i] in at;
    if !kept {
      assert after + [] == after && at + [] == at;
    }
  }

  /** What stripping leaves of one event: the groups that are left, or nothing when none is. */
  ghost predicate EventLeft(before: Option<Json>, after: Option<Json>, groups: seq<Json>, at: seq<nat>) {
    if before.None? || !before.value.Arr? then after == before
    else LeftAt(groups, before.value.items, at) && after == (if groups == [] then None else Some(Arr(groups)))
  }

  /** Stripping event by event. The hooks go when no event is left, and a document without hooks stays as it is. */
  lemma StripSays(doc: Json, event: string) returns (groups: seq<Json>, at: seq<nat>)
    requires ValidShape(doc) && event in EVENTS
    ensures EventLeft(At(HooksOf(doc), event), At(HooksOf(Strip(doc)), event), groups, at)
    ensures Get(Strip(doc), "hooks") == (if HooksOf(Strip(doc)) == map[] then None else Some(Obj(HooksOf(Strip(doc)))))
            || (Get(doc, "hooks") == None && Strip(doc) == doc)
  {
    StripIsWithHooks(doc);
    StripIsPointwise(HooksOf(doc), event);
    hide StripEvents, StripGroups, EVENTS, LeftAt;
    groups, at := [], [];
    if event in HooksOf(doc) && HooksOf(doc)[event].Arr? {
      groups := StripGroups(HooksOf(doc)[event].items);
      at := StrippedGroupsSay(HooksOf(doc)[event].items);
    }
  }

  // ----- Installing -----

  /** A document that can hold hooks, whose event for a start can hold groups. */
  predicate IsShaped(doc: Json) {
    doc.Obj? && (Get(doc, "hooks") == None || (Get(doc, "hooks").value.Obj? && HoldsGroups(Get(doc, "hooks").value, "SessionStart")))
  }

  predicate HoldsGroups(hooks: Json, event: string) {
    Get(hooks, event) == None || Get(hooks, event).value.Arr?
  }

  lemma StripKeepsHolding(doc: Json, event: string)
    requires ValidShape(doc) && event in EVENTS
    ensures HoldsGroups(Obj(HooksOf(Strip(doc))), event) == HoldsGroups(Obj(HooksOf(doc)), event)
  {
    StripIsWithHooks(doc);
    StripIsPointwise(HooksOf(doc), event);
    hide StripEvents, StripGroups, Strip, SESSION_START, SESSION_END, PROMPT_SUBMIT;
    assert At(HooksOf(Strip(doc)), event) == StrippedAt(HooksOf(doc), event);
  }

  lemma PushRefusals(hooks: map<string, Json>, harness: Harness, executable: string)
    requires HoldsGroups(Obj(hooks), SESSION_START)
    ensures var result := PushEvents(hooks, harness, executable, EVENTS);
            if !HoldsGroups(Obj(hooks), SESSION_END) then result == Err(NotAnArray(SESSION_END))
            else if !HoldsGroups(Obj(hooks), PROMPT_SUBMIT) then result == Err(NotAnArray(PROMPT_SUBMIT))
            else result.Ok?
  {
    EventsDiffer();
    PushEventsUnfold(hooks, harness, executable);
    hide Entry, PushEvents, SESSION_START, SESSION_END, PROMPT_SUBMIT;
  }

  lemma ShapedIff(doc: Json)
    ensures IsShaped(doc) <==> ValidShape(doc)
  {
  }

  /** How an install is refused, in the order the reasons are looked for, and when it changes nothing. */
  lemma InstallSays(doc: Json, harness: Harness, executable: string)
    ensures var result := Install(doc, harness, executable);
            if harness == Codex && ' ' in executable then result == Err(PathHasSpace)
            else if !doc.Obj? then result == Err(NotAnObject)
            else if Get(doc, "hooks") != None && !Get(doc, "hooks").value.Obj? then result == Err(HooksNotAnObject)
            else if !IsShaped(doc) then result == Err(NotAnArray("SessionStart"))
            else if PresenceIn(doc, harness, executable) == CurrentOnly then result == Ok((doc, false))
            else if !HoldsGroups(Obj(HooksOf(doc)), "SessionEnd") then result == Err(NotAnArray("SessionEnd"))
            else if !HoldsGroups(Obj(HooksOf(doc)), "UserPromptSubmit") then result == Err(NotAnArray("UserPromptSubmit"))
            else result.Ok? && result.value.1
  {
    ShapedIff(doc);
    if ValidShape(doc) {
      StripKeepsShape(doc);
      ShapedIff(Strip(doc));
      StripKeepsHolding(doc, SESSION_END);
      StripKeepsHolding(doc, PROMPT_SUBMIT);
      PushRefusals(HooksOf(Strip(doc)), harness, executable);
    }
    hide PresenceIn, Strip, PushEvents, HooksOf, IsShaped, HoldsGroups, EVENTS;
  }

  // ----- How a path is read -----

  lemma {:induction false} AfterSeparator(folder: string, file: string)
    requires folder == [] || IsSeparator(folder[|folder| - 1])
    requires forall i :: 0 <= i < |file| ==> !IsSeparator(file[i])
    ensures AfterLastSeparator(folder + file) == file
  {
    if file == [] {
      assert folder + file == folder;
    } else {
      var n := |file| - 1;
      assert (folder + file)[..|folder + file| - 1] == folder + file[..n];
      AfterSeparator(folder, file[..n]);
      assert file == file[..n] + [file[n]];
    }
  }

  lemma {:induction false} LastDotIs(base: string, ext: string, n: nat)
    requires base != [] && (forall i :: 0 <= i < |ext| ==> ext[i] != '.') && |base| < n <= |base| + 1 + |ext|
    ensures LastDot(base + "." + ext, n) == |base|
  {
    var name := base + "." + ext;
    if n - 1 > |base| {
      assert name[n - 1] == ext[n - 2 - |base|];
      LastDotIs(base, ext, n - 1);
    }
  }

  lemma StemCut(name: string, n: nat)
    requires 0 < n < |name| && name[n] == '.' && LastDot(name, |name|) == n
    ensures Stem(name) == name[..n]
  {
    hide LastDot;
    var dots := set i | 0 < i < |name| && name[i] == '.';
    assert n in dots;
  }

  /** A name ends where its last extension begins. */
  lemma StemSays(base: string, ext: string)
    requires base != [] && forall i :: 0 <= i < |ext| ==> ext[i] != '.'
    ensures Stem(base + "." + ext) == base
  {
    LastDotIs(base, ext, |base| + 1 + |ext|);
    StemCut(base + "." + ext, |base|);
  }

  /** A name with at most a leading dot is its own stem. */
  lemma StemOfBare(name: string)
    requires forall i :: 0 < i < |name| ==> name[i] != '.'
    ensures Stem(name) == name
  {
    assert (set i | 0 < i < |name| && name[i] == '.') == {};
  }

  /** A path names the hook exactly when its last component, without its extension, spells brain-hook in any case. */
  lemma NamesIff(folder: string, file: string)
    requires folder == [] || IsSeparator(folder[|folder| - 1])
    requires file != [] && file != "." && file != ".." && forall i :: 0 <= i < |file| ==> !IsSeparator(file[i])
    ensures NamesBrainHook(folder + file) <==> Lower(Stem(file)) == "brain-hook"
  {
    AfterSeparator(folder, file);
    assert (folder + file)[|folder + file| - 1] == file[|file| - 1];
    hide Stem, Lower, AfterLastSeparator;
  }
}
