/**
 Guarding an external context provider: a circuit breaker whose lock is released while the provider
 runs, so the beginnings and endings of calls interleave.
 */
module Providers {
  import opened Common
  import opened Text
  import opened Memory

  /** `relevance` is absent when the number is not finite. */
  datatype ProviderResult = ProviderResult(
    projectId: Uuid, worktreeId: Option<Uuid>, provider: string, title: string, content: string, sourceUri: string,
    trust: string, relevance: Option<real>)

  datatype Query = Query(projectId: Uuid, worktreeId: Uuid)

  datatype Status = Disabled | CircuitOpen | TimedOut | Failed | ScopeViolation | Malformed | Ready

  datatype Reply = Timeout | Error | Items(items: seq<ProviderResult>)

  const OPEN_AFTER := 3
  const OPEN_FOR: int := 5 * 60 * 1_000_000_000
  const U8_MAX := 255

  // ----- Validating what a provider returns -----

  /** Whitespace collapsed, cut to a number of characters. */
  function Compact(value: string, max: nat): string {
    var collapsed := CollapseWhitespace(value);
    if |collapsed| <= max then collapsed else collapsed[..max]
  }

  predicate IsBlank(text: string) {
    Trim(text) == []
  }

  function Validate(r: ProviderResult): Option<ProviderResult> {
    if IsBlank(r.provider) || IsBlank(r.title) || IsBlank(r.content) || IsBlank(r.sourceUri) || IsBlank(r.trust)
       || r.relevance.None? || !(0.0 <= r.relevance.value <= 1.0) then None
    else
      Some(r.(provider := Compact(r.provider, 80), title := Compact(r.title, 300), content := Compact(r.content, 4_000),
              sourceUri := Compact(r.sourceUri, 500), trust := Compact(r.trust, 80)))
  }

  /** What a consumer may rely on: every text is there and within its limit, and the score is a fraction. */
  predicate IsUsable(r: ProviderResult) {
    && 0 < |r.provider| <= 80 && 0 < |r.title| <= 300 && 0 < |r.content| <= 4_000
    && 0 < |r.sourceUri| <= 500 && 0 < |r.trust| <= 80
    && r.relevance.Some? && 0.0 <= r.relevance.value <= 1.0
  }

  lemma {:induction false} WordsKeepVisible(text: string, word: string)
    requires word != [] || exists i :: 0 <= i < |text| && !IsWhitespace(text[i])
    ensures Words(text, word) != [] && forall w :: w in Words(text, word) ==> w != []
    decreases |text|
  {
    if text != [] {
      if IsWhitespace(text[0]) {
        if i :| 0 <= i < |text| && !IsWhitespace(text[i]) {
          assert text[1..][i - 1] == text[i];
          WordsKeepVisible(text[1..], []);
        } else {
          WordsAreNotEmpty(text[1..], []);
        }
      } else {
        WordsKeepVisible(text[1..], word + [text[0]]);
      }
    }
  }

  lemma {:induction false} WordsAreNotEmpty(text: string, word: string)
    ensures forall w :: w in Words(text, word) ==> w != []
    decreases |text|
  {
    if text != [] {
      if IsWhitespace(text[0]) {
        WordsAreNotEmpty(text[1..], []);
      } else {
        WordsAreNotEmpty(text[1..], word + [text[0]]);
      }
    }
  }

  lemma {:induction false} TrimmedHasVisible(text: string)
    requires Trim(text) != []
    ensures exists i :: 0 <= i < |text| && !IsWhitespace(text[i])
  {
    TrimStartVisible(text);
  }

  lemma {:induction false} TrimStartVisible(text: string)
    requires TrimStart(text) != []
    ensures exists i :: 0 <= i < |text| && !IsWhitespace(text[i])
  {
    if IsWhitespace(text[0]) {
      TrimStartVisible(text[1..]);
      var i :| 0 <= i < |text[1..]| && !IsWhitespace(text[1..][i]);
      assert text[i + 1] == text[1..][i];
    }
  }

  /** A visible text stays visible when it is compacted, and fits. */
  lemma CompactIsVisible(text: string, max: nat)
    requires !IsBlank(text) && max > 0
    ensures 0 < |Compact(text, max)| <= max
  {
    TrimmedHasVisible(text);
    WordsKeepVisible(text, []);
    assert Words(text, [])[0] in Words(text, []);
  }

  lemma ValidatedIsUsable(r: ProviderResult)
    requires Validate(r).Some?
    ensures IsUsable(Validate(r).value)
    ensures Validate(r).value.projectId == r.projectId && Validate(r).value.worktreeId == r.worktreeId
  {
    hide Compact, IsBlank;
    CompactIsVisible(r.provider, 80);
    CompactIsVisible(r.title, 300);
    CompactIsVisible(r.content, 4_000);
    CompactIsVisible(r.sourceUri, 500);
    CompactIsVisible(r.trust, 80);
  }

  predicate InScope(r: ProviderResult, query: Query) {
    r.projectId == query.projectId && (r.worktreeId.Some? ==> r.worktreeId.value == query.worktreeId)
  }

  datatype Checked = Checked(valid: seq<ProviderResult>, malformed: bool, scopeViolation: bool)

  /** Sort out one more item. */
  function CheckOne(c: Checked, item: ProviderResult, query: Query): Checked {
    if !InScope(item, query) then c.(scopeViolation := true)
    else
      var validated := Validate(item);
      if validated.Some? then c.(valid := c.valid + [validated.value]) else c.(malformed := true)
  }

  function Check(items: seq<ProviderResult>, query: Query): Checked {
    if items == [] then Checked([], false, false) else CheckOne(Check(items[..|items| - 1], query), items[|items| - 1], query)
  }

  method CheckItems(items: seq<ProviderResult>, query: Query) returns (c: Checked)
    ensures c == Check(items, query)
  {
    hide Validate;
    c := Checked([], false, false);
    var i := 0;
    while i < |items|
      invariant 0 <= i <= |items|
      invariant c == Check(items[..i], query)
    {
      var item := items[i];
      assert items[..i + 1][..i] == items[..i];
      if !InScope(item, query) {
        c := c.(scopeViolation := true);
      } else {
        var validated := Validate(item);
        if validated.Some? {
          c := c.(valid := c.valid + [validated.value]);
        } else {
          c := c.(malformed := true);
        }
      }
      i := i + 1;
    }
    assert items[..|items|] == items;
  }

  ghost predicate AllUsable(items: seq<ProviderResult>) {
    forall r :: r in items ==> IsUsable(r)
  }

  ghost predicate AllInScope(items: seq<ProviderResult>, query: Query) {
    forall r :: r in items ==> InScope(r, query)
  }

  /** One foreign item condemns the reply; what is kept is usable and in scope. */
  lemma {:induction false} CheckMeans(items: seq<ProviderResult>, query: Query)
    ensures Check(items, query).scopeViolation <==> !AllInScope(items, query)
    ensures AllUsable(Check(items, query).valid) && AllInScope(Check(items, query).valid, query)
  {
    hide IsUsable;
    if items != [] {
      var front, item := items[..|items| - 1], items[|items| - 1];
      assert items == front + [item];
      CheckMeans(front, query);
      if InScope(item, query) && Validate(item).Some? {
        ValidatedIsUsable(item);
      }
      hide Validate, InScope;
    }
  }

  // ----- The circuit -----

  datatype Circuit = Circuit(
    failures: nat, openUntil: Option<int>, lastSuccess: Option<int>, cache: seq<ProviderResult>, cacheTime: Option<int>)

  const CLOSED := Circuit(0, None, None, [], None)

  function OfProject(items: seq<ProviderResult>, project: Uuid): seq<ProviderResult> {
    if items == [] then []
    else OfProject(items[..|items| - 1], project)
         + if items[|items| - 1].projectId == project then [items[|items| - 1]] else []
  }

  function ValidCache(c: Circuit, project: Uuid, now: int, ttl: int): seq<ProviderResult> {
    if c.cacheTime.Some? && now - c.cacheTime.value <= ttl then OfProject(c.cache, project) else []
  }

  predicate IsOpen(c: Circuit, now: int) {
    c.openUntil.Some? && now < c.openUntil.value
  }

  function AfterFailure(c: Circuit, began: int): Circuit {
    var failures := if c.failures < U8_MAX then c.failures + 1 else U8_MAX;
    c.(failures := failures, openUntil := if failures >= OPEN_AFTER then Some(began + OPEN_FOR) else c.openUntil)
  }

  function AfterSuccess(c: Circuit, began: int, valid: seq<ProviderResult>): Circuit {
    Circuit(0, None, Some(began), valid, Some(began))
  }

  // ----- Interleaved calls -----

  datatype Pending = Pending(query: Query, began: int)

  datatype Response = Response(query: Query, status: Status, items: seq<ProviderResult>)

  /** A call that reached the provider: when, and how many calls had ended by then. */
  datatype Admission = Admission(at: int, ended: nat)

  /** How a call ended, and when it had begun. */
  datatype Ended = Ended(succeeded: bool, began: int)

  /**
   A guard and its history: calls that are with the provider, how completed calls ended in the order
   they ended, which calls were let through, and what was answered.
   */
  datatype Guard = Guard(
    enabled: bool, ttl: int, circuit: Circuit, pending: map<nat, Pending>, outcomes: seq<Ended>, admitted: seq<Admission>,
    responses: seq<Response>)

  function NewGuard(enabled: bool, ttl: int): Guard {
    Guard(enabled, ttl, CLOSED, map[], [], [], [])
  }

  datatype Step =
    | Begin(call: nat, query: Query, now: int)
    | Finish(call: nat, reply: Reply)

  function Answer(g: Guard, query: Query, status: Status, items: seq<ProviderResult>): Guard {
    g.(responses := g.responses + [Response(query, status, items)])
  }

  function BeginCall(g: Guard, call: nat, query: Query, now: int): Guard {
    if call in g.pending then g
    else if !g.enabled then Answer(g, query, Disabled, [])
    else if IsOpen(g.circuit, now) then Answer(g, query, CircuitOpen, ValidCache(g.circuit, query.projectId, now, g.ttl))
    else
      g.(pending := g.pending[call := Pending(query, now)], admitted := g.admitted + [Admission(now, |g.outcomes|)])
  }

  function Fail(g: Guard, p: Pending, status: Status): Guard {
    var circuit := AfterFailure(g.circuit, p.began);
    Answer(g.(circuit := circuit, outcomes := g.outcomes + [Ended(false, p.began)]), p.query, status,
           ValidCache(circuit, p.query.projectId, p.began, g.ttl))
  }

  function Succeed(g: Guard, p: Pending, valid: seq<ProviderResult>): Guard {
    Answer(g.(circuit := AfterSuccess(g.circuit, p.began, valid), outcomes := g.outcomes + [Ended(true, p.began)]), p.query, Ready, valid)
  }

  function FinishCall(g: Guard, call: nat, reply: Reply): Guard {
    if call !in g.pending then g
    else
      var p := g.pending[call];
      var g1 := g.(pending := g.pending - {call});
      match reply
      case Timeout => Fail(g1, p, TimedOut)
      case Error => Fail(g1, p, Failed)
      case Items(items) =>
        var checked := Check(items, p.query);
        if checked.scopeViolation then Fail(g1, p, ScopeViolation)
        else if checked.malformed && checked.valid == [] then Fail(g1, p, Malformed)
        else Succeed(g1, p, checked.valid)
  }

  function Take(g: Guard, step: Step): Guard {
    match step
    case Begin(call, query, now) => BeginCall(g, call, query, now)
    case Finish(call, reply) => FinishCall(g, call, reply)
  }

  function Run(g: Guard, steps: seq<Step>): Guard
    decreases |steps|
  {
    if steps == [] then g else Run(Take(g, steps[0]), steps[1..])
  }

  // ----- What every interleaving keeps -----

  /** How many calls have failed since the last one that succeeded, in the order they ended. */
  function FailuresSince(outcomes: seq<Ended>): nat {
    if outcomes == [] || outcomes[|outcomes| - 1].succeeded then 0 else FailuresSince(outcomes[..|outcomes| - 1]) + 1
  }

  /** When the last call that succeeded had begun. */
  function LastSuccess(outcomes: seq<Ended>): Option<int> {
    if outcomes == [] then None
    else if outcomes[|outcomes| - 1].succeeded then Some(outcomes[|outcomes| - 1].began)
    else LastSuccess(outcomes[..|outcomes| - 1])
  }

  /**
   The open window that a history leaves: none before the third failure in a row, and from then on up
   to a fixed time after the call that failed last had begun. A call that began early and fails late
   moves the end of the window back.
   */
  function Window(outcomes: seq<Ended>): Option<int> {
    if FailuresSince(outcomes) >= OPEN_AFTER then Some(outcomes[|outcomes| - 1].began + OPEN_FOR) else None
  }

  /** The last answer that came fresh from the provider. */
  function LastReady(responses: seq<Response>): Option<Response> {
    if responses == [] then None
    else if responses[|responses| - 1].status.Ready? then Some(responses[|responses| - 1])
    else LastReady(responses[..|responses| - 1])
  }

  /** A call was let through outside the window that the calls ended by then had left. */
  ghost predicate AdmittedWhileClosed(a: Admission, outcomes: seq<Ended>) {
    && a.ended <= |outcomes|
    && (Window(outcomes[..a.ended]).Some? ==> a.at >= Window(outcomes[..a.ended]).value)
  }

  ghost predicate AllAdmittedWhileClosed(admitted: seq<Admission>, outcomes: seq<Ended>) {
    forall a :: a in admitted ==> AdmittedWhileClosed(a, outcomes)
  }

  /** What is answered is usable and belongs to the project that asked; a fresh answer also to its worktree. */
  ghost predicate GoodResponse(r: Response) {
    && AllUsable(r.items)
    && (forall item :: item in r.items ==> item.projectId == r.query.projectId)
    && (r.status.Ready? ==> AllInScope(r.items, r.query))
  }

  ghost predicate CircuitMatches(c: Circuit, outcomes: seq<Ended>) {
    && c.failures == Min(U8_MAX, FailuresSince(outcomes))
    && c.openUntil == Window(outcomes)
    && c.cacheTime == c.lastSuccess == LastSuccess(outcomes)
  }

  /** The cache holds the last fresh answer. */
  ghost predicate CacheIsLastAnswer(c: Circuit, responses: seq<Response>) {
    c.cache == if LastReady(responses).Some? then LastReady(responses).value.items else []
  }

  ghost predicate Inv(g: Guard) {
    && CircuitMatches(g.circuit, g.outcomes)
    && CacheIsLastAnswer(g.circuit, g.responses)
    && AllAdmittedWhileClosed(g.admitted, g.outcomes)
    && (forall r :: r in g.responses ==> GoodResponse(r))
  }

  lemma {:induction false} LastReadyIsThere(responses: seq<Response>)
    ensures LastReady(responses).Some? ==> LastReady(responses).value in responses && LastReady(responses).value.status.Ready?
  {
    if responses != [] && !responses[|responses| - 1].status.Ready? {
      LastReadyIsThere(responses[..|responses| - 1]);
    }
  }

  lemma {:induction false} OfProjectMembers(items: seq<ProviderResult>, project: Uuid)
    ensures forall r :: r in OfProject(items, project) <==> r in items && r.projectId == project
  {
    if items != [] {
      OfProjectMembers(items[..|items| - 1], project);
      assert items == items[..|items| - 1] + [items[|items| - 1]];
    }
  }

  lemma CacheIsGood(g: Guard)
    requires Inv(g)
    ensures AllUsable(g.circuit.cache)
    ensures LastReady(g.responses).Some? ==>
              AllInScope(g.circuit.cache, LastReady(g.responses).value.query) && g.circuit.cache == LastReady(g.responses).value.items
    ensures LastReady(g.responses).None? ==> g.circuit.cache == []
  {
    LastReadyIsThere(g.responses);
    hide IsUsable, InScope, CircuitMatches, AllAdmittedWhileClosed;
  }

  lemma CachedAnswerIsGood(c: Circuit, query: Query, status: Status, now: int, ttl: int)
    requires AllUsable(c.cache) && !status.Ready?
    ensures GoodResponse(Response(query, status, ValidCache(c, query.projectId, now, ttl)))
  {
    OfProjectMembers(c.cache, query.projectId);
    hide IsUsable, InScope;
  }

  /** An answer that is not fresh leaves the last fresh one what it was. */
  lemma OneMoreAnswer(g: Guard, query: Query, status: Status, items: seq<ProviderResult>)
    requires Inv(g) && GoodResponse(Response(query, status, items)) && !status.Ready?
    ensures Inv(Answer(g, query, status, items))
  {
    var r := Response(query, status, items);
    assert (g.responses + [r])[..|g.responses|] == g.responses;
    hide GoodResponse, CircuitMatches, AllAdmittedWhileClosed;
  }

  lemma FailureMatches(c: Circuit, outcomes: seq<Ended>, began: int)
    requires CircuitMatches(c, outcomes)
    ensures CircuitMatches(AfterFailure(c, began), outcomes + [Ended(false, began)])
  {
    assert (outcomes + [Ended(false, began)])[..|outcomes|] == outcomes;
  }

  lemma SuccessMatches(c: Circuit, outcomes: seq<Ended>, began: int, valid: seq<ProviderResult>)
    ensures CircuitMatches(AfterSuccess(c, began, valid), outcomes + [Ended(true, began)])
  {
  }

  lemma AdmissionsStand(admitted: seq<Admission>, outcomes: seq<Ended>, e: Ended)
    requires AllAdmittedWhileClosed(admitted, outcomes)
    ensures AllAdmittedWhileClosed(admitted, outcomes + [e])
  {
    hide Window;
    forall a | a in admitted ensures AdmittedWhileClosed(a, outcomes + [e]) {
      assert AdmittedWhileClosed(a, outcomes);
      assert (outcomes + [e])[..a.ended] == outcomes[..a.ended];
    }
  }

  lemma FailKeepsInv(g: Guard, p: Pending, status: Status)
    requires Inv(g) && !status.Ready?
    ensures Inv(Fail(g, p, status))
  {
    var circuit := AfterFailure(g.circuit, p.began);
    FailureMatches(g.circuit, g.outcomes, p.began);
    AdmissionsStand(g.admitted, g.outcomes, Ended(false, p.began));
    CacheIsGood(g);
    assert circuit.cache == g.circuit.cache;
    hide CircuitMatches, GoodResponse, AllAdmittedWhileClosed, AfterFailure, ValidCache, AllUsable;
    CachedAnswerIsGood(circuit, p.query, status, p.began, g.ttl);
    var g1 := g.(circuit := circuit, outcomes := g.outcomes + [Ended(false, p.began)]);
    OneMoreAnswer(g1, p.query, status, ValidCache(circuit, p.query.projectId, p.began, g.ttl));
  }

  lemma SucceedKeepsInv(g: Guard, p: Pending, valid: seq<ProviderResult>)
    requires Inv(g) && AllUsable(valid) && AllInScope(valid, p.query)
    ensures Inv(Succeed(g, p, valid))
  {
    SuccessMatches(g.circuit, g.outcomes, p.began, valid);
    AdmissionsStand(g.admitted, g.outcomes, Ended(true, p.began));
    assert GoodResponse(Response(p.query, Ready, valid));
    assert LastReady(g.responses + [Response(p.query, Ready, valid)]) == Some(Response(p.query, Ready, valid));
    hide CircuitMatches, GoodResponse, AllAdmittedWhileClosed, LastReady;
  }

  lemma BeginKeepsInv(g: Guard, call: nat, query: Query, now: int)
    requires Inv(g)
    ensures Inv(BeginCall(g, call, query, now))
  {
    if call !in g.pending && !g.enabled {
      OneMoreAnswer(g, query, Disabled, []);
    } else if call !in g.pending && IsOpen(g.circuit, now) {
      CacheIsGood(g);
      CachedAnswerIsGood(g.circuit, query, CircuitOpen, now, g.ttl);
      OneMoreAnswer(g, query, CircuitOpen, ValidCache(g.circuit, query.projectId, now, g.ttl));
    } else if call !in g.pending {
      assert g.outcomes[..|g.outcomes|] == g.outcomes;
      assert AdmittedWhileClosed(Admission(now, |g.outcomes|), g.outcomes);
    }
    hide GoodResponse, ValidCache, CacheIsLastAnswer, Window, FailuresSince, LastSuccess;
  }

  lemma FinishKeepsInv(g: Guard, call: nat, reply: Reply)
    requires Inv(g)
    ensures Inv(FinishCall(g, call, reply))
  {
    if call in g.pending {
      var p := g.pending[call];
      var g1 := g.(pending := g.pending - {call});
      assert Inv(g1);
      hide Inv, Fail, Succeed, Check;
      FailKeepsInv(g1, p, TimedOut);
      FailKeepsInv(g1, p, Failed);
      FailKeepsInv(g1, p, ScopeViolation);
      FailKeepsInv(g1, p, Malformed);
      if reply.Items? {
        CheckMeans(reply.items, p.query);
        SucceedKeepsInv(g1, p, Check(reply.items, p.query).valid);
      }
    }
  }

  lemma NewGuardIsGood(enabled: bool, ttl: int)
    ensures Inv(NewGuard(enabled, ttl))
  {
  }

  /**
   For every interleaving of calls: the counter is the number of failures that ended since the last
   success ended, capped at a byte; the circuit has an opening exactly when that number reached
   three, and it lasts up to a fixed time after the call that failed last had begun; every call that
   reached the provider began outside the window of that moment; the cache holds the last fresh
   answer and nothing else; and every answer, fresh or cached, is usable and of the project that
   asked, a fresh one also of its worktree.
   */
  lemma {:induction false} RunKeepsInv(g: Guard, steps: seq<Step>)
    requires Inv(g)
    ensures Inv(Run(g, steps))
    decreases |steps|
  {
    hide Inv, BeginCall, FinishCall;
    if steps != [] {
      match steps[0] {
        case Begin(call, query, now) => BeginKeepsInv(g, call, query, now);
        case Finish(call, reply) => FinishKeepsInv(g, call, reply);
      }
      RunKeepsInv(Take(g, steps[0]), steps[1..]);
    }
  }

  /** Whether a reply makes its call succeed. */
  predicate Succeeds(p: Pending, reply: Reply) {
    reply.Items?
    && var checked := Check(reply.items, p.query);
       !checked.scopeViolation && (checked.malformed ==> checked.valid != [])
  }

  /**
   Beginnings inside the window, and inside the windows that the pending calls would leave if they
   failed; endings that do not succeed.
   */
  ghost predicate Shielded(g: Guard, s: Step) {
    && (s.Begin? ==> IsOpen(g.circuit, s.now) && forall call :: call in g.pending ==> s.now < g.pending[call].began + OPEN_FOR)
    && (s.Finish? && s.call in g.pending ==> !Succeeds(g.pending[s.call], s.reply))
  }

  lemma ShieldHolds(g: Guard, s: Step, later: Step)
    requires g.circuit.failures >= OPEN_AFTER && g.circuit.openUntil.Some? && Shielded(g, s) && Shielded(g, later)
    ensures var g1 := Take(g, s);
            && g1.circuit.failures >= OPEN_AFTER && g1.circuit.openUntil.Some? && Shielded(g1, later) && g1.admitted == g.admitted
  {
    hide ValidCache, Check;
  }

  /**
   An open circuit shields the provider, while pending calls go on ending: as long as none of them
   succeeds, no beginning inside the window, or inside the windows they may still leave, reaches it.
   */
  lemma {:induction false} OpenCircuitShields(g: Guard, steps: seq<Step>)
    requires g.circuit.failures >= OPEN_AFTER && g.circuit.openUntil.Some?
    requires forall s :: s in steps ==> Shielded(g, s)
    ensures Run(g, steps).admitted == g.admitted
    decreases |steps|
  {
    hide Shielded, Take;
    if steps != [] {
      var g1 := Take(g, steps[0]);
      assert steps[0] in steps;
      forall s | s in steps[1..] ensures Shielded(g1, s) {
        ShieldHolds(g, steps[0], s);
      }
      ShieldHolds(g, steps[0], steps[0]);
      OpenCircuitShields(g1, steps[1..]);
    }
  }

  /** The last success is recent enough for its answer to be served from the cache. */
  predicate Unexpired(outcomes: seq<Ended>, now: int, ttl: int) {
    LastSuccess(outcomes).Some? && now - LastSuccess(outcomes).value <= ttl
  }

  lemma CachedAnswerMeans(g: Guard, query: Query, now: int)
    requires Inv(g)
    ensures var last := LastReady(g.responses);
            AllInScope(ValidCache(g.circuit, query.projectId, now, g.ttl), query) <==>
              || !Unexpired(g.outcomes, now, g.ttl) || last.None?
              || last.value.query.projectId != query.projectId || last.value.query.worktreeId == query.worktreeId
              || forall item :: item in last.value.items ==> item.worktreeId.None?
  {
    CacheIsGood(g);
    OfProjectMembers(g.circuit.cache, query.projectId);
    assert g.circuit.cacheTime == LastSuccess(g.outcomes);
    hide Inv, IsUsable, LastReady, LastSuccess, OfProject;
  }

  /**
   The cache is kept by project, not by worktree. Over every interleaving: what is served from the
   cache stays in the asking worktree exactly when nothing unexpired is cached, or the last fresh
   answer was for another project or for that very worktree, or names no worktree in any item.
   */
  lemma CachedAnswerInWorktreeIff(enabled: bool, ttl: int, steps: seq<Step>, query: Query, now: int)
    ensures var g := Run(NewGuard(enabled, ttl), steps);
            var last := LastReady(g.responses);
            AllInScope(ValidCache(g.circuit, query.projectId, now, g.ttl), query) <==>
              || !Unexpired(g.outcomes, now, g.ttl) || last.None?
              || last.value.query.projectId != query.projectId || last.value.query.worktreeId == query.worktreeId
              || forall item :: item in last.value.items ==> item.worktreeId.None?
  {
    hide *;
    NewGuardIsGood(enabled, ttl);
    RunKeepsInv(NewGuard(enabled, ttl), steps);
    CachedAnswerMeans(Run(NewGuard(enabled, ttl), steps), query, now);
  }

  lemma OneItem(item: ProviderResult, query: Query)
    requires InScope(item, query) && Validate(item).Some?
    ensures Check([item], query) == Checked([Validate(item).value], false, false)
  {
    assert [item][..0] == [];
    hide Validate, InScope;
  }

  /**
   So an answer for one worktree can be served to another of the same project: one call answers with
   an item of its worktree, and the next, from another worktree, times out and is given that item.
   */
  lemma CacheCrossesWorktrees(ttl: int, first: Query, other: Query, item: ProviderResult, began: int, later: int)
    requires InScope(item, first) && Validate(item).Some? && item.worktreeId.Some?
    requires other.projectId == first.projectId && other.worktreeId != first.worktreeId && later - began <= ttl
    ensures var g := Run(NewGuard(true, ttl), [Begin(0, first, began), Finish(0, Items([item])), Begin(1, other, later), Finish(1, Timeout)]);
            && g.responses == [Response(first, Ready, [Validate(item).value]), Response(other, TimedOut, [Validate(item).value])]
            && !InScope(Validate(item).value, other)
  {
    OneItem(item, first);
    ValidatedIsUsable(item);
    var v := Validate(item).value;
    assert [v][..0] == [];
    assert OfProject([v], other.projectId) == OfProject([], other.projectId) + [v];
    hide Validate, Check, IsUsable, OfProject;
    var steps := [Begin(0, first, began), Finish(0, Items([item])), Begin(1, other, later), Finish(1, Timeout)];
    var g0 := NewGuard(true, ttl);
    var g1 := Take(g0, steps[0]);
    var g2 := Take(g1, steps[1]);
    var g3 := Take(g2, steps[2]);
    var g4 := Take(g3, steps[3]);
    assert g2.circuit == Circuit(0, None, Some(began), [v], Some(began)) && g2.responses == [Response(first, Ready, [v])];
    assert g4.responses == g2.responses + [Response(other, TimedOut, [v])];
    RunOfFour(g0, steps);
  }

  lemma RunOfFour(g: Guard, steps: seq<Step>)
    requires |steps| == 4
    ensures Run(g, steps) == Take(Take(Take(Take(g, steps[0]), steps[1]), steps[2]), steps[3])
  {
    hide Take;
    assert steps[1..][1..] == steps[2..] && steps[2..][1..] == steps[3..] && steps[3..][1..] == [];
    var g1 := Take(g, steps[0]);
    var g2 := Take(g1, steps[1]);
    var g3 := Take(g2, steps[2]);
    assert Run(g, steps) == Run(g1, steps[1..]);
    assert Run(g1, steps[1..]) == Run(g2, steps[2..]);
    assert Run(g2, steps[2..]) == Run(g3, steps[3..]);
    assert Run(g3, steps[3..]) == Take(g3, steps[3]);
  }

  // ----- The guard itself -----

  /** The guard. Each method holds the lock throughout; the provider runs between the two. */
  class ProviderGuard {
    const enabled: bool
    const ttl: int
    var circuit: Circuit

    constructor (enabled: bool, ttl: int)
      ensures this.enabled == enabled && this.ttl == ttl && circuit == CLOSED
    {
      this.enabled := enabled;
      this.ttl := ttl;
      circuit := CLOSED;
    }

    /**
     The first half of a retrieval. It is what the model's `Begin` does: an answer is the one response
     the beginning adds, and no answer means that the call is now with the provider. The provider is
     asked exactly when the guard is enabled and no window is open.
     */
    method Start(query: Query, now: int) returns (answer: Option<Response>)
      ensures answer.None? <==> enabled && !IsOpen(circuit, now)
      ensures forall g: Guard, call: nat ::
                g.enabled == enabled && g.ttl == ttl && g.circuit == circuit && call !in g.pending ==>
                  var g1 := BeginCall(g, call, query, now);
                  && g1.circuit == circuit && g1.outcomes == g.outcomes
                  && g1.responses == g.responses + (if answer.Some? then [answer.value] else [])
                  && g1.pending == (if answer.None? then g.pending[call := Pending(query, now)] else g.pending)
    {
      if !enabled {
        return Some(Response(query, Disabled, []));
      }
      if circuit.openUntil.Some? && now < circuit.openUntil.value {
        return Some(Response(query, CircuitOpen, ValidCache(circuit, query.projectId, now, ttl)));
      }
      return None;
    }

    method Failure(status: Status, query: Query, began: int) returns (response: Response)
      modifies this
      ensures circuit == AfterFailure(old(circuit), began)
      ensures response == Response(query, status, ValidCache(circuit, query.projectId, began, ttl))
    {
      var failures := if circuit.failures < U8_MAX then circuit.failures + 1 else U8_MAX;
      circuit := circuit.(failures := failures);
      if failures >= OPEN_AFTER {
        circuit := circuit.(openUntil := Some(began + OPEN_FOR));
      }
      return Response(query, status, ValidCache(circuit, query.projectId, began, ttl));
    }

    /** The second half, when the provider has answered or has not. It is what the model's `Finish` does. */
    method Complete(query: Query, began: int, reply: Reply) returns (response: Response)
      modifies this
      ensures forall g: Guard, call: nat ::
                g.circuit == old(circuit) && g.ttl == ttl && call in g.pending && g.pending[call] == Pending(query, began) ==>
                  var g1 := FinishCall(g, call, reply);
                  g1.circuit == circuit && g1.responses == g.responses + [response]
    {
      hide ValidCache, Check;
      if reply.Timeout? {
        response := Failure(TimedOut, query, began);
        return;
      }
      if reply.Error? {
        response := Failure(Failed, query, began);
        return;
      }
      var checked := CheckItems(reply.items, query);
      if checked.scopeViolation {
        response := Failure(ScopeViolation, query, began);
        return;
      }
      if checked.malformed && checked.valid == [] {
        response := Failure(Malformed, query, began);
        return;
      }
      circuit := Circuit(0, None, Some(began), checked.valid, Some(began));
      return Response(query, Ready, checked.valid);
    }
  }
}
