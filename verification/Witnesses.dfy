/**
 Concrete ledgers on which a run of merges does not conserve: a sheet that merges a claim retracted by
 filing a correction, and an unreviewed merge whose reply leaves out an event.
 */
module Witnesses {
  import opened Common
  import opened Text
  import opened Sequences
  import opened Memory
  import opened Supersession
  import opened MemoryLedger
  import opened Merge
  import opened Revise
  import opened MergeRuns
  import opened ReviewedMerges
  import opened UnreviewedMerges
  import opened Statuses

  /** A claim citing one event, with a short text. */
  function Claim(id: Uuid, title: string, content: string, event: Uuid): MemoryRecord {
    MemoryRecord(id, id + 1, Project(0), Fact, title, content, 0, None, 0, 0, DerivedMemory, [event], [], Current)
  }

  function First(): MemoryRecord {
    Claim(0, "a", "aa", 5)
  }

  function Second(): MemoryRecord {
    Claim(2, "b", "bb", 6)
  }

  /** Two claims, each citing an event of its own. */
  function TwoClaims(): Ledger {
    Ledger(0, {5, 6}, {}, [First(), Second()])
  }

  // ----- Short texts -----

  predicate IsShort(text: string) {
    0 < |text| <= 8 && forall i :: 0 <= i < |text| ==> 'a' <= text[i] <= 'z'
  }

  lemma {:induction false} ShortBytes(text: string)
    ensures ByteLength(text) <= 4 * |text|
  {
    if text != [] {
      ShortBytes(text[1..]);
    }
  }

  lemma ShortIsTight(text: string)
    requires IsShort(text)
    ensures Trim(text) == text && text != [] && ByteLength(text) <= 32
  {
    TrimFixes(text);
    ShortBytes(text);
    hide Trim;
  }

  lemma {:induction false} LowerFixes(text: string)
    requires forall i :: 0 <= i < |text| ==> 'a' <= text[i] <= 'z'
    ensures Lower(text) == text
  {
    if text != [] {
      LowerFixes(text[1..]);
      assert text == [text[0]] + text[1..];
    }
  }

  lemma ExampleTexts()
    ensures IsShort("a") && IsShort("aa") && IsShort("b") && IsShort("bb") && IsShort("c") && IsShort("cc")
    ensures IsShort("m") && IsShort("mm") && IsShort("approve")
    ensures |"mm"| < |"aa"| + |"bb"|
  {
  }

  // ----- The ledger is sound -----

  lemma ShortRecordIsValid(m: MemoryRecord)
    requires IsShort(m.title) && IsShort(m.content) && m.validTo.None?
    ensures ValidRecord(m)
  {
    ShortIsTight(m.title);
    ShortIsTight(m.content);
    hide Trim, ByteLength, IsShort;
  }

  lemma ClaimIsAcceptable(l: Ledger, m: MemoryRecord)
    requires l.project == 0 && IsShort(m.title) && IsShort(m.content) && m.validTo.None? && m.scope == Project(0)
    requires |m.evidenceIds| == 1 && m.evidenceIds[0] in l.events && m.supersedes == []
    requires forall v :: v in l.versions ==> v.versionId != m.versionId && v.kind == m.kind
    ensures Acceptable(l, m)
  {
    ShortRecordIsValid(m);
    hide ValidRecord, IsShort;
  }

  lemma TwoClaimsAreSound()
    ensures Sound(TwoClaims()) && TombstonesKnown(TwoClaims())
  {
    ExampleTexts();
    var l := TwoClaims();
    assert l.versions[..0] == [] && l.versions[..1] == [First()];
    hide Acceptable, IsShort;
    ClaimIsAcceptable(l.(versions := []), First());
    ClaimIsAcceptable(l.(versions := [First()]), Second());
    forall i | 0 <= i < |l.versions| ensures SoundAt(l, i) {
    }
  }

  lemma TwoClaimsAreLatest()
    ensures Latest(TwoClaims().versions, 0) == Some(First()) && Latest(TwoClaims().versions, 2) == Some(Second())
    ensures FreshId(TwoClaims().versions) == 4
    ensures Edges(TwoClaims().versions) == {}
  {
    var vs := TwoClaims().versions;
    assert vs[..1] == [First()] && [First()][..0] == [];
    assert Latest([First()], 0) == Some(First());
    assert FreshId([First()]) == 2;
    assert forall v :: v in vs ==> v.supersedes == [];
  }

  lemma TwoClaimsAreLive(m: MemoryRecord)
    ensures m in LiveMemories(TwoClaims()) <==> m == First() || m == Second()
  {
    TwoClaimsAreLatest();
    hide Latest, Edges, FreshId;
  }

  lemma MergedTextPasses(cited: seq<Uuid>, unseen: seq<Uuid>)
    requires cited != [] && forall x :: x in cited ==> x == 5 || x == 6
    requires forall x :: x in unseen ==> x in cited
    ensures var allowed := AllowedEvidence(First(), Second());
            var checked := ValidateMerge(ProposedMerge("m", "mm", cited), MergeInputs("aa", "bb", allowed, unseen));
            checked.Ok? && FitsTheColumns(checked.value) && forall x :: x in checked.value.evidenceIds <==> x in cited
  {
    hide *;
    var allowed := AllowedEvidence(First(), Second());
    var p, inputs := ProposedMerge("m", "mm", cited), MergeInputs("aa", "bb", allowed, unseen);
    ExampleTexts();
    ShortIsTight("m");
    ShortIsTight("mm");
    ShortIsTight("aa");
    ShortIsTight("bb");
    forall x | x in cited ensures x in allowed {
      AllowedAre(x);
    }
    ValidationMeans(p, inputs);
    ShortFits(ValidateMerge(p, inputs).value);
  }

  lemma AllowedAre(x: Uuid)
    ensures x in AllowedEvidence(First(), Second()) <==> x == 5 || x == 6
  {
    SortedIdsMembers(First().evidenceIds + Second().evidenceIds, x);
    hide SortedIds;
  }

  lemma ShortFits(v: ValidatedMerge)
    requires ByteLength(v.title) <= 32 && ByteLength(v.content) <= 32
    ensures FitsTheColumns(v)
  {
    hide ByteLength;
  }

  // ----- An unreviewed merge that drops a citation -----

  /** The reply cites what the newer claim alone saw, as it must, and not what the older one cites. */
  function ForgetfulDraft(): DraftedCandidate {
    DraftedCandidate(0, 2, [6], Some(ProposedMerge("m", "mm", [6])))
  }

  /** One accepted draft, after which no live claim cites an event that a live claim cited before. */
  lemma OneDraftDropsACitation(now: int)
    ensures var l1 := MergeDrafts(TwoClaims(), [ForgetfulDraft()], true, now).0;
            5 in Cited(LiveMemories(TwoClaims())) && 5 !in Cited(LiveMemories(l1))
  {
    var l, d := TwoClaims(), ForgetfulDraft();
    TwoClaimsAreSound();
    TwoClaimsAreLatest();
    MergedTextPasses([6], [6]);
    assert Accepted(l, d) && DraftIsWritable(l, d) && 5 !in AcceptedText(l, d).evidenceIds;
    hide Latest, Sound, TombstonesKnown, Accepted, AcceptedText, DraftIsWritable, MergeDrafts, LiveMemories, CheckDraft, ValidateMerge,
      FitsTheColumns, AllowedEvidence;
    forall r | r in LiveMemories(l) && 5 in r.evidenceIds ensures r.id in Sides(d) {
      TwoClaimsAreLive(r);
    }
    DropsCitationIff(l, d, now, 5);
    TwoClaimsAreLive(First());
  }

  // ----- A sheet that merges a retracted claim -----

  /** A correction of the first claim, filed by hand. */
  function Retraction(): RememberRequest {
    RememberRequest(Fact, "c", "cc", [5], [0], 0, 0)
  }

  function Retracting(): MemoryRecord {
    MemoryRecord(4, 5, Project(0), Fact, "c", "cc", 0, None, 0, 0, HumanCorrection, [5], [1], Current)
  }

  /** One approved item, for the two claims that the sheet was written from. */
  function OneItem(): ReviewItem {
    ReviewItem(0, 2, "m", "mm", "approve")
  }

  lemma RetractingIsAcceptable()
    ensures Acceptable(TwoClaims(), Retracting())
  {
    ExampleTexts();
    ShortRecordIsValid(Retracting());
    hide ValidRecord, IsShort;
    var l, m := TwoClaims(), Retracting();
    assert forall v :: v in l.versions <==> v == First() || v == Second();
    assert First() in l.versions && First().versionId == 1;
  }

  lemma RetractionIsFiled()
    ensures Remember(TwoClaims(), Retraction()) == (Appended(TwoClaims(), Retracting()), Ok(Retracting()))
  {
    var l, request := TwoClaims(), Retraction();
    ExampleTexts();
    ShortIsTight("c");
    ShortIsTight("cc");
    TwoClaimsAreLatest();
    RetractingIsAcceptable();
    AppendGrowsIff(l, Retracting());
    hide Trim, Latest, FreshId, Append, Acceptable, IsShort, ByteLength, ValidRecord;
    assert request.supersedes[1..] == [];
    assert VersionsToSupersede(l, []) == Ok([]);
    assert CurrentMemory(l, 0) == Some(First());
    assert [First().versionId] + [] == [1];
    assert VersionsToSupersede(l, request.supersedes) == Ok([1]);
    assert Filed(l, request, [1]) == Retracting();
  }

  function AfterRetraction(): Ledger {
    Appended(TwoClaims(), Retracting())
  }

  lemma AfterRetractionIsSound()
    ensures Sound(AfterRetraction()) && TombstonesKnown(AfterRetraction())
  {
    TwoClaimsAreSound();
    RetractingIsAcceptable();
    hide Sound, Acceptable;
    AppendKeepsSound(TwoClaims(), Retracting());
  }

  lemma ClaimsAfterRetraction()
    ensures MarkedCurrent(AfterRetraction(), 0) == Some(First()) && MarkedCurrent(AfterRetraction(), 2) == Some(Second())
    ensures Dead(AfterRetraction(), 0)
    ensures Stored(AfterRetraction(), 0) && Stored(AfterRetraction(), 2)
  {
    var l := TwoClaims();
    TwoClaimsAreLatest();
    LatestAfterAppend(l.versions, Retracting(), 0);
    LatestAfterAppend(l.versions, Retracting(), 2);
    EdgesAfterAppend(l.versions, Retracting());
    assert 1 in Retracting().supersedes;
    hide Latest, Edges, FreshId;
  }

  lemma OneItemPasses()
    ensures Approved(OneItem()) && Recheck(First(), Second(), OneItem()).Ok?
    ensures FitsTheColumns(Recheck(First(), Second(), OneItem()).value)
  {
    ExampleTexts();
    ShortIsTight("approve");
    LowerFixes("approve");
    var allowed := AllowedEvidence(First(), Second());
    AllowedAre(5);
    forall x | x in allowed ensures x == 5 || x == 6 {
      AllowedAre(x);
    }
    hide Trim, Lower, AllowedEvidence, ValidateMerge, FitsTheColumns, ByteLength, IsShort;
    MergedTextPasses(allowed, []);
  }

  lemma OneItemPlan(l: Ledger, item: ReviewItem)
    requires Approved(item) && Passes(l, {}, item) && item.olderId != item.newerId
    requires FitsTheColumns(Recheck(MarkedCurrent(l, item.olderId).value, MarkedCurrent(l, item.newerId).value, item).value)
    ensures PlanIsWritable(l, [item]) && ReviewPlan(l, [item]) == [MergeOutcome(item.olderId, item.newerId, true)]
  {
    hide Approved, MarkedCurrent, Recheck, FitsTheColumns;
    assert [item][..0] == [];
    assert ReviewPlan(l, []) == [] && Used([]) == {};
    assert [] + [MergeOutcome(item.olderId, item.newerId, true)] == [MergeOutcome(item.olderId, item.newerId, true)];
  }

  lemma OneOutcome(o: MergeOutcome)
    requires o.applied
    ensures AppliedCount([o]) == 1 && Used([o]) == {o.olderId, o.newerId}
  {
    assert [o][..0] == [];
  }

  /**
   One retraction, and then a sheet with one approved item that names the retracted claim. The
   retraction succeeds, the item is applied, and the live memories do not fall by one.
   */
  lemma SheetMergesARetractedClaim(now: int)
    ensures var (l1, filed) := Remember(TwoClaims(), Retraction());
            var (l2, applied) := ApplyReviewed(l1, [OneItem()], now);
            && filed.Ok? && applied.Ok? && applied.value.applied == 1
            && |LiveMemories(l2)| + applied.value.applied > |LiveMemories(l1)|
  {
    hide *;
    var l1, item := AfterRetraction(), OneItem();
    var o := MergeOutcome(0, 2, true);
    RetractionIsFiled();
    AfterRetractionIs();
    AfterRetractionIsSound();
    ClaimsAfterRetraction();
    OneItemPasses();
    OneItemNames();
    PassesMeans(l1, {}, item);
    OneItemPlan(l1, item);
    NothingGuessed(l1, ApplyReviewed(l1, [item], now).0, item);
    SheetGoesAsPlanned(l1, [item], now);
    ReviewedMergesConserve(l1, [item], now);
    OneOutcome(o);
    BalancedGives(ApplyReviewed(l1, [item], now).1.value);
    DeadIsNoticed(l1, [o], 0);
  }

  lemma AfterRetractionIs()
    ensures AfterRetraction() == Appended(TwoClaims(), Retracting())
  {
  }

  lemma OneItemNames()
    ensures OneItem().olderId == 0 && OneItem().newerId == 2
  {
  }

  lemma NothingGuessed(l: Ledger, l1: Ledger, item: ReviewItem)
    requires Stored(l, item.olderId) && Stored(l, item.newerId)
    ensures NamesNothingMade(l, l1, [item])
  {
    hide Stored;
  }

  lemma DeadIsNoticed(l: Ledger, outcomes: seq<MergeOutcome>, id: Uuid)
    requires id in Used(outcomes) && Dead(l, id)
    ensures !NoDeadSide(l, outcomes)
  {
    hide Used, Dead;
  }
}
