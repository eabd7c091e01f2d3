/**
 What a guarded retrieval answers: which items of a reply are kept and what is left of each field, the
 status of every ending, and what is served from the cache.
 */
module ProviderOutcomes {
  import opened Common
  import opened Text
  import opened Memory
  import opened Providers

  // ----- One item -----

  predicate HasText(text: string) {
    exists i :: 0 <= i < |text| && !IsWhitespace(text[i])
  }

  /** An item is worth keeping: every text says something, and the score is a fraction. */
  predicate IsSound(r: ProviderResult) {
    && HasText(r.provider) && HasText(r.title) && HasText(r.content) && HasText(r.sourceUri) && HasText(r.trust)
    && r.relevance != None && 0.0 <= r.relevance.value && r.relevance.value <= 1.0
  }

  /** A text with its whitespace collapsed, cut to a number of characters. */
  predicate IsCut(kept: string, given: string, limit: nat) {
    var all := CollapseWhitespace(given);
    kept <= all && |kept| == if |all| <= limit then |all| else limit
  }

  /** Each text is kept from its own field; scope and score are unchanged. */
  predicate IsKeptFrom(kept: ProviderResult, given: ProviderResult) {
    && IsCut(kept.provider, given.provider, 80) && IsCut(kept.title, given.title, 300) && IsCut(kept.content, given.content, 4_000)
    && IsCut(kept.sourceUri, given.sourceUri, 500) && IsCut(kept.trust, given.trust, 80)
    && kept.projectId == given.projectId && kept.worktreeId == given.worktreeId && kept.relevance == given.relevance
  }

  lemma BlankIff(text: string)
    ensures IsBlank(text) <==> !HasText(text)
  {
    if Trim(text) != [] {
      TrimmedHasVisible(text);
    }
    if HasText(text) {
      VisibleStaysVisible(text);
    }
    hide Trim;
  }

  lemma VisibleStaysVisible(text: string)
    requires HasText(text)
    ensures Trim(text) != []
  {
    var i :| 0 <= i < |text| && !IsWhitespace(text[i]);
    TrimStartKeeps(text, i);
    var rest := TrimStart(text);
    assert rest != [] && !IsWhitespace(rest[0]);
    TrimEndKeeps(rest);
  }

  lemma {:induction false} TrimStartKeeps(text: string, i: nat)
    requires i < |text| && !IsWhitespace(text[i])
    ensures TrimStart(text) != []
  {
    if IsWhitespace(text[0]) {
      TrimStartKeeps(text[1..], i - 1);
    }
  }

  lemma {:induction false} TrimEndKeeps(text: string)
    requires text != [] && !IsWhitespace(text[0])
    ensures TrimEnd(text) != []
  {
    if IsWhitespace(text[|text| - 1]) {
      assert |text| > 1;
      TrimEndKeeps(text[..|text| - 1]);
    }
  }

  lemma CompactCuts(text: string, limit: nat)
    ensures IsCut(Compact(text, limit), text, limit)
  {
  }

  /** An item is kept exactly when it is sound, and each of its texts is then its own, cut. */
  lemma KeptIff(r: ProviderResult)
    ensures Validate(r).Some? <==> IsSound(r)
    ensures IsSound(r) ==> IsKeptFrom(Validate(r).value, r)
  {
    BlankIff(r.provider);
    BlankIff(r.title);
    BlankIff(r.content);
    BlankIff(r.sourceUri);
    BlankIff(r.trust);
    CompactCuts(r.provider, 80);
    CompactCuts(r.title, 300);
    CompactCuts(r.content, 4_000);
    CompactCuts(r.sourceUri, 500);
    CompactCuts(r.trust, 80);
    hide IsBlank, HasText, Compact, IsCut;
  }

  // ----- A reply -----

  /** The item is of the asking project, and of the asking worktree if it names one. */
  predicate IsOurs(r: ProviderResult, query: Query) {
    r.projectId == query.projectId && (r.worktreeId == None || r.worktreeId == Some(query.worktreeId))
  }

  /** The positions of the sound items, in order. */
  function SoundAt(items: seq<ProviderResult>): (positions: seq<nat>)
    ensures forall i :: 0 <= i < |positions| ==> positions[i] < |items|
    ensures forall j :: j in positions <==> 0 <= j < |items| && IsSound(items[j])
    ensures forall i, k :: 0 <= i < k < |positions| ==> positions[i] < positions[k]
  {
    if items == [] then []
    else
      var front, n := items[..|items| - 1], |items| - 1;
      assert forall j :: 0 <= j < n ==> front[j] == items[j];
      SoundAt(front) + if IsSound(items[n]) then [n] else []
  }

  /** The sound items of a reply, each cut, in order. */
  ghost predicate ListsTheSound(out: seq<ProviderResult>, items: seq<ProviderResult>) {
    |out| == |SoundAt(items)| && forall k :: 0 <= k < |out| ==> IsKeptFrom(out[k], items[SoundAt(items)[k]])
  }

  ghost predicate AllOurs(items: seq<ProviderResult>, query: Query) {
    forall r :: r in items ==> IsOurs(r, query)
  }

  lemma {:induction false} CheckSays(items: seq<ProviderResult>, query: Query)
    ensures Check(items, query).scopeViolation <==> !AllOurs(items, query)
    ensures AllOurs(items, query) ==>
              && ListsTheSound(Check(items, query).valid, items)
              && (Check(items, query).malformed <==> |SoundAt(items)| < |items|)
    ensures |SoundAt(items)| <= |items|
  {
    hide Validate, IsSound, IsKeptFrom;
    if items != [] {
      var front, item := items[..|items| - 1], items[|items| - 1];
      assert items == front + [item];
      CheckSays(front, query);
      KeptIff(item);
      assert forall j :: 0 <= j < |front| ==> front[j] == items[j];
      OursOfOneMore(front, item, query);
      hide AllOurs;
      assert Check(items, query) == CheckOne(Check(front, query), item, query);
      assert SoundAt(items) == SoundAt(front) + if IsSound(item) then [|front|] else [];
      hide Check, SoundAt;
    }
  }

  lemma OursOfOneMore(front: seq<ProviderResult>, item: ProviderResult, query: Query)
    ensures AllOurs(front + [item], query) <==> AllOurs(front, query) && InScope(item, query)
  {
    assert forall r :: r in front + [item] <==> r in front || r == item;
    assert IsOurs(item, query) == InScope(item, query);
    assert item in front + [item];
  }

  // ----- The cache -----

  function OursAt(items: seq<ProviderResult>, project: Uuid): (positions: seq<nat>)
    ensures forall i :: 0 <= i < |positions| ==> positions[i] < |items|
    ensures forall j :: j in positions <==> 0 <= j < |items| && items[j].projectId == project
    ensures forall i, k :: 0 <= i < k < |positions| ==> positions[i] < positions[k]
  {
    if items == [] then []
    else
      var front, n := items[..|items| - 1], |items| - 1;
      assert forall j :: 0 <= j < n ==> front[j] == items[j];
      OursAt(front, project) + if items[n].projectId == project then [n] else []
  }

  /** What is served from the cache: its items of the project, in order, unless there is none or it is too old. */
  ghost predicate IsServed(out: seq<ProviderResult>, c: Circuit, project: Uuid, now: int, ttl: int) {
    if c.cacheTime == None || now - c.cacheTime.value > ttl then out == []
    else |out| == |OursAt(c.cache, project)| && forall k :: 0 <= k < |out| ==> out[k] == c.cache[OursAt(c.cache, project)[k]]
  }

  lemma {:induction false} OfProjectSays(items: seq<ProviderResult>, project: Uuid)
    ensures var out := OfProject(items, project);
            |out| == |OursAt(items, project)| && forall k :: 0 <= k < |out| ==> out[k] == items[OursAt(items, project)[k]]
  {
    if items != [] {
      OfProjectSays(items[..|items| - 1], project);
    }
  }

  lemma ServedSays(c: Circuit, project: Uuid, now: int, ttl: int)
    ensures IsServed(ValidCache(c, project, now, ttl), c, project, now, ttl)
  {
    OfProjectSays(c.cache, project);
    hide OfProject, OursAt;
  }

  // ----- Calls -----

  /** One answer was given, and nothing else is said. */
  ghost predicate Answers(g: Guard, g1: Guard, query: Query, status: Status) {
    && |g1.responses| == |g.responses| + 1 && g1.responses[..|g.responses|] == g.responses
    && g1.responses[|g.responses|].query == query && g1.responses[|g.responses|].status == status
  }

  function Given(g: Guard, g1: Guard): seq<ProviderResult>
    requires |g1.responses| == |g.responses| + 1
  {
    g1.responses[|g.responses|].items
  }

  /** A beginning: refused when disabled, answered from the cache inside the window, and otherwise with the provider. */
  lemma BeginSays(g: Guard, call: nat, query: Query, now: int)
    requires call !in g.pending
    ensures var g1 := BeginCall(g, call, query, now);
            && g1.circuit == g.circuit && g1.enabled == g.enabled && g1.ttl == g.ttl && g1.outcomes == g.outcomes
            && (if !g.enabled then
                  Answers(g, g1, query, Disabled) && Given(g, g1) == [] && g1.pending == g.pending && g1.admitted == g.admitted
                else if g.circuit.openUntil != None && now < g.circuit.openUntil.value then
                  && Answers(g, g1, query, CircuitOpen) && IsServed(Given(g, g1), g.circuit, query.projectId, now, g.ttl)
                  && g1.pending == g.pending && g1.admitted == g.admitted
                else
                  && g1.responses == g.responses && g1.pending == g.pending[call := Pending(query, now)]
                  && |g1.admitted| == |g.admitted| + 1)
  {
    ServedSays(g.circuit, query.projectId, now, g.ttl);
    hide ValidCache, IsServed;
  }

  /** How a failure is reported and counted: the cache is served as of the time the call began. */
  ghost predicate Fails(g: Guard, g1: Guard, p: Pending, status: Status) {
    && Answers(g, g1, p.query, status) && IsServed(Given(g, g1), g.circuit, p.query.projectId, p.began, g.ttl)
    && g1.circuit.cache == g.circuit.cache && g1.circuit.cacheTime == g.circuit.cacheTime
    && g1.circuit.lastSuccess == g.circuit.lastSuccess
    && g1.circuit.failures == (if g.circuit.failures < 255 then g.circuit.failures + 1 else 255)
    && g1.circuit.openUntil == (if g1.circuit.failures >= 3 then Some(p.began + 300_000_000_000) else g.circuit.openUntil)
    && g1.outcomes == g.outcomes + [Ended(false, p.began)]
    && g1.admitted == g.admitted && g1.enabled == g.enabled && g1.ttl == g.ttl
  }

  lemma FailSays(g: Guard, p: Pending, status: Status)
    ensures Fails(g, Fail(g, p, status), p, status)
  {
    ServedSays(AfterFailure(g.circuit, p.began), p.query.projectId, p.began, g.ttl);
    hide ValidCache;
  }

  /**
   An ending. A call that timed out or erred fails so; a reply with an item that is not ours fails as
   a scope violation; one whose items are all unsound fails as malformed; any other is ready, with the
   sound items, each cut, in order, and they become the cache.
   */
  lemma FinishSays(g: Guard, call: nat, reply: Reply)
    requires call in g.pending
    ensures var p, g1 := g.pending[call], FinishCall(g, call, reply);
            && g1.pending == g.pending - {call}
            && match reply
               case Timeout => Fails(g, g1, p, TimedOut)
               case Error => Fails(g, g1, p, Failed)
               case Items(items) =>
                 if !AllOurs(items, p.query) then Fails(g, g1, p, ScopeViolation)
                 else if items != [] && SoundAt(items) == [] then Fails(g, g1, p, Malformed)
                 else
                   && Answers(g, g1, p.query, Ready) && ListsTheSound(Given(g, g1), items)
                   && g1.circuit == Circuit(0, None, Some(p.began), Given(g, g1), Some(p.began))
                   && g1.outcomes == g.outcomes + [Ended(true, p.began)]
                   && g1.admitted == g.admitted && g1.enabled == g.enabled && g1.ttl == g.ttl
  {
    hide *;
    var p := g.pending[call];
    FinishUnfolds(g, call, reply);
    match reply {
      case Timeout => FailWithout(g, call, TimedOut);
      case Error => FailWithout(g, call, Failed);
      case Items(items) =>
        var checked := Check(items, p.query);
        CheckSays(items, p.query);
        SoundLength(items, checked.valid, p.query);
        FailWithout(g, call, ScopeViolation);
        FailWithout(g, call, Malformed);
        SucceedSays(g, call, checked.valid);
    }
  }

  /** Taking the call from those pending changes nothing that a failure looks at. */
  lemma FailWithout(g: Guard, call: nat, status: Status)
    requires call in g.pending
    ensures var g1 := Fail(g.(pending := g.pending - {call}), g.pending[call], status);
            Fails(g, g1, g.pending[call], status) && g1.pending == g.pending - {call}
  {
    FailSays(g.(pending := g.pending - {call}), g.pending[call], status);
    hide ValidCache, IsServed;
  }

  lemma SucceedSays(g: Guard, call: nat, valid: seq<ProviderResult>)
    requires call in g.pending
    ensures var p := g.pending[call];
            var g1 := Succeed(g.(pending := g.pending - {call}), p, valid);
            && g1.pending == g.pending - {call}
            && Answers(g, g1, p.query, Ready) && Given(g, g1) == valid
            && g1.circuit == Circuit(0, None, Some(p.began), valid, Some(p.began))
            && g1.outcomes == g.outcomes + [Ended(true, p.began)]
            && g1.admitted == g.admitted && g1.enabled == g.enabled && g1.ttl == g.ttl
  {
  }

  lemma FinishUnfolds(g: Guard, call: nat, reply: Reply)
    requires call in g.pending
    ensures var p, rest := g.pending[call], g.(pending := g.pending - {call});
            FinishCall(g, call, reply)
            == match reply
               case Timeout => Fail(rest, p, TimedOut)
               case Error => Fail(rest, p, Failed)
               case Items(items) =>
                 var checked := Check(items, p.query);
                 if checked.scopeViolation then Fail(rest, p, ScopeViolation)
                 else if checked.malformed && checked.valid == [] then Fail(rest, p, Malformed)
                 else Succeed(rest, p, checked.valid)
  {
    hide Fail, Succeed, Check;
  }

  lemma SoundLength(items: seq<ProviderResult>, out: seq<ProviderResult>, query: Query)
    ensures ListsTheSound(out, items) ==> (out == [] <==> SoundAt(items) == [])
    ensures |SoundAt(items)| < |items| ==> items != []
    ensures items != [] && SoundAt(items) == [] ==> |SoundAt(items)| < |items|
  {
    hide SoundAt;
  }
}
