/**
 The trimming loop that makes ranked wiki results fit a token budget: drop results from the end,
 and when one is left, cut its content in half until it fits or is too short to keep.
 */
module LlmWiki {
  import opened Text
  import opened TokenBudget

  datatype WikiResult = WikiResult(title: string, content: string, sourceUri: string)

  const SHORTEST_CONTENT: nat := 80

  function RenderResult(item: WikiResult): string {
    item.title + " " + item.content + " " + item.sourceUri
  }

  function RenderEach(items: seq<WikiResult>): seq<string> {
    if items == [] then [] else [RenderResult(items[0])] + RenderEach(items[1..])
  }

  function RenderedContent(items: seq<WikiResult>): string {
    Join(RenderEach(items), "\n")
  }

  predicate Fits(items: seq<WikiResult>, maxTokens: nat) {
    Tokens(RenderedContent(items)) <= maxTokens
  }

  function ResultCost(item: WikiResult): nat {
    Tokens(item.title) + Tokens(item.content) + Tokens(item.sourceUri)
  }

  function TotalResultCost(items: seq<WikiResult>): nat {
    if items == [] then 0 else ResultCost(items[0]) + TotalResultCost(items[1..])
  }

  /** The rendered list costs the sum of what its fields cost. */
  lemma {:induction false} RenderedCostIsTheSum(items: seq<WikiResult>)
    ensures Tokens(RenderedContent(items)) == TotalResultCost(items)
  {
    if items != [] {
      var item := items[0];
      TokensAdditiveAcrossBlank(item.title, " ", item.content);
      TokensAdditiveAcrossBlank(item.title + " " + item.content, " ", item.sourceUri);
      assert RenderResult(item) == item.title + " " + item.content + " " + item.sourceUri;
      var parts := RenderEach(items);
      assert parts[0] == RenderResult(item) && parts[1..] == RenderEach(items[1..]);
      if items[1..] != [] {
        assert RenderedContent(items) == RenderResult(item) + "\n" + RenderedContent(items[1..]);
        TokensAdditiveAcrossBlank(RenderResult(item), "\n", RenderedContent(items[1..]));
        RenderedCostIsTheSum(items[1..]);
      }
    }
  }

  function CutTo(item: WikiResult, length: nat): WikiResult
    requires length <= |item.content|
  {
    item.(content := item.content[..length])
  }

  /** Halve one result's content until it fits; below the shortest length worth keeping, give it up. */
  function Shrink(item: WikiResult, maxTokens: nat): seq<WikiResult>
    decreases |item.content|
  {
    if Fits([item], maxTokens) then [item]
    else if |item.content| <= SHORTEST_CONTENT then []
    else Shrink(CutTo(item, |item.content| / 2), maxTokens)
  }

  function TrimToBudget(items: seq<WikiResult>, maxTokens: nat): seq<WikiResult>
    decreases |items|
  {
    if Fits(items, maxTokens) || items == [] then items
    else if |items| > 1 then TrimToBudget(items[..|items| - 1], maxTokens)
    else Shrink(items[0], maxTokens)
  }

  lemma TrimOne(item: WikiResult, maxTokens: nat)
    ensures TrimToBudget([item], maxTokens) == Shrink(item, maxTokens)
  {
  }

  /** Shrinking keeps a prefix of the content, and cuts no further than the first halving that fits. */
  lemma {:induction false} ShrinkCutsToAPrefix(item: WikiResult, maxTokens: nat)
    ensures var kept := Shrink(item, maxTokens);
            && |kept| <= 1 && Fits(kept, maxTokens)
            && (kept == [] ==> !Fits([item], maxTokens))
            && (kept != [] ==> |kept[0].content| <= |item.content| && kept[0] == CutTo(item, |kept[0].content|))
            && (kept != [] && kept[0] != item ==>
                  exists longer: nat :: longer <= |item.content| && longer / 2 == |kept[0].content|
                                        && !Fits([CutTo(item, longer)], maxTokens))
    decreases |item.content|
  {
    var length := |item.content|;
    assert CutTo(item, length) == item;
    if !Fits([item], maxTokens) && length > SHORTEST_CONTENT {
      var half := CutTo(item, length / 2);
      var kept := Shrink(half, maxTokens);
      ShrinkCutsToAPrefix(half, maxTokens);
      if kept != [] {
        assert CutTo(half, |kept[0].content|) == CutTo(item, |kept[0].content|);
        if kept[0] != half {
          var longer: nat :| longer <= |half.content| && longer / 2 == |kept[0].content| && !Fits([CutTo(half, longer)], maxTokens);
          assert CutTo(half, longer) == CutTo(item, longer);
        }
      }
    } else {
      RenderedCostIsTheSum([]);
    }
  }

  /**
   What trimming returns: a list that fits; with two results or more, the longest prefix of the
   ranked list that fits; with one, the first result with its content cut to a prefix of itself;
   and with none, a first result that does not fit whole.
   */
  lemma {:induction false} TrimKeepsTheLongestPrefix(items: seq<WikiResult>, maxTokens: nat)
    ensures var kept := TrimToBudget(items, maxTokens);
            && Fits(kept, maxTokens)
            && |kept| <= |items|
            && (|kept| >= 2 ==> kept == items[..|kept|])
            && (|kept| == 1 ==> kept[0].content <= items[0].content && kept[0] == items[0].(content := kept[0].content))
            && (|kept| == 1 && kept[0] != items[0] ==> !Fits(items[..1], maxTokens))
            && (forall k :: |kept| < k <= |items| ==> !Fits(items[..k], maxTokens))
    decreases |items|
  {
    RenderedCostIsTheSum([]);
    hide Shrink, Tokens, RenderedContent;
    assert Fits([], maxTokens);
    hide Fits;
    if Fits(items, maxTokens) {
      assert items[..|items|] == items;
    } else if |items| > 1 {
      var front := items[..|items| - 1];
      TrimKeepsTheLongestPrefix(front, maxTokens);
      var kept := TrimToBudget(items, maxTokens);
      forall k | |kept| < k <= |items| ensures !Fits(items[..k], maxTokens) {
        if k < |items| {
          assert front[..k] == items[..k];
        } else {
          assert items[..k] == items;
        }
      }
      if |kept| >= 2 {
        assert front[..|kept|] == items[..|kept|];
      } else {
        assert front[..1] == items[..1];
      }
    } else if items != [] {
      ShrinkCutsToAPrefix(items[0], maxTokens);
      assert items == [items[0]] && items[..1] == items;
    }
  }

  /** A length after a number of halvings, each rounded down. */
  function Halved(length: nat, times: nat): (r: nat)
    ensures r <= length
  {
    if times == 0 then length else Halved(length / 2, times - 1)
  }

  /** What the fields of one result cost once its content was halved some times is within the budget. */
  predicate HalvedFits(item: WikiResult, maxTokens: nat, times: nat) {
    Tokens(item.title) + Tokens(item.content[..Halved(|item.content|, times)]) + Tokens(item.sourceUri) <= maxTokens
  }

  lemma HalvedOnce(item: WikiResult, maxTokens: nat, times: nat)
    ensures var half := CutTo(item, |item.content| / 2);
            && Halved(|half.content|, times) == Halved(|item.content|, times + 1)
            && (HalvedFits(half, maxTokens, times) <==> HalvedFits(item, maxTokens, times + 1))
            && CutTo(half, Halved(|half.content|, times)) == CutTo(item, Halved(|item.content|, times + 1))
  {
    hide Tokens;
    var half := CutTo(item, |item.content| / 2);
    var n := Halved(|half.content|, times);
    assert half.content[..n] == item.content[..n];
  }

  lemma OneFitsIff(item: WikiResult, maxTokens: nat)
    ensures Fits([item], maxTokens) <==> HalvedFits(item, maxTokens, 0)
  {
    RenderedCostIsTheSum([item]);
    assert TotalResultCost([item]) == ResultCost(item) + TotalResultCost([]);
    assert item.content[..|item.content|] == item.content;
    hide Tokens, RenderedContent;
  }

  /**
   What becomes of a sole result, in every case: it is halved as often as it must be to fit, as long as
   more than the shortest content is left before each halving, and otherwise it is dropped.
   */
  lemma {:induction false} SoleResultSays(item: WikiResult, maxTokens: nat, times: nat)
    requires forall j: nat :: j < times ==> !HalvedFits(item, maxTokens, j) && Halved(|item.content|, j) > 80
    ensures HalvedFits(item, maxTokens, times) ==>
              TrimToBudget([item], maxTokens) == [item.(content := item.content[..Halved(|item.content|, times)])]
    ensures !HalvedFits(item, maxTokens, times) && Halved(|item.content|, times) <= 80 ==> TrimToBudget([item], maxTokens) == []
    decreases times
  {
    TrimOne(item, maxTokens);
    OneFitsIff(item, maxTokens);
    if times == 0 {
      assert CutTo(item, |item.content|) == item;
    } else {
      var half := CutTo(item, |item.content| / 2);
      assert !HalvedFits(item, maxTokens, 0) && Halved(|item.content|, 0) > 80;
      TrimOne(half, maxTokens);
      hide Fits, HalvedFits, Halved, TrimToBudget;
      assert Shrink(item, maxTokens) == Shrink(half, maxTokens);
      forall j: nat | j < times - 1 ensures !HalvedFits(half, maxTokens, j) && Halved(|half.content|, j) > 80 {
        HalvedOnce(item, maxTokens, j);
      }
      SoleResultSays(half, maxTokens, times - 1);
      HalvedOnce(item, maxTokens, times - 1);
    }
  }

  /** When no two results fit together, the list comes to what becomes of the first alone. */
  lemma {:induction false} TrimComesToTheFirst(items: seq<WikiResult>, maxTokens: nat)
    requires items != [] && forall k :: 2 <= k <= |items| ==> !Fits(items[..k], maxTokens)
    ensures TrimToBudget(items, maxTokens) == TrimToBudget(items[..1], maxTokens)
    decreases |items|
  {
    if |items| == 1 {
      assert items[..1] == items;
    } else {
      var front := items[..|items| - 1];
      assert items[..|items|] == items;
      assert front[..1] == items[..1];
      forall k | 2 <= k <= |front| ensures !Fits(front[..k], maxTokens) {
        assert front[..k] == items[..k];
      }
      hide Fits, Shrink;
      TrimComesToTheFirst(front, maxTokens);
    }
  }

  /** The loop itself. It terminates because each round drops a result or shortens the only one. */
  method TrimMatches(ranked: seq<WikiResult>, maxTokens: nat) returns (matches: seq<WikiResult>)
    ensures matches == TrimToBudget(ranked, maxTokens)
    ensures Tokens(RenderedContent(matches)) <= maxTokens
  {
    matches := ranked;
    var cost := TokenCount(RenderedContent(matches));
    while cost > maxTokens
      invariant cost == Tokens(RenderedContent(matches))
      invariant TrimToBudget(matches, maxTokens) == TrimToBudget(ranked, maxTokens)
      decreases |matches|, if matches != [] then |matches[0].content| else 0
    {
      if |matches| > 1 {
        matches := matches[..|matches| - 1];
      } else {
        RenderedCostIsTheSum(matches);
        var item := matches[0];
        assert matches == [item];
        TrimOne(item, maxTokens);
        if |item.content| <= SHORTEST_CONTENT {
          matches := [];
        } else {
          matches := [item.(content := item.content[..|item.content| / 2])];
          TrimOne(matches[0], maxTokens);
        }
      }
      cost := TokenCount(RenderedContent(matches));
    }
  }
}
