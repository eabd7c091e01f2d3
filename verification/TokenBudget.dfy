/**
 The streaming token counter that every budget in the context layer rests on, and the algebra that
 makes greedy packing under it predictable.
 */
module TokenBudget {
  import opened Text

  /** Characters that extend an ASCII word. */
  predicate IsWordByte(c: char) {
    IsAsciiAlphanumeric(c) || c == '_'
  }

  /** What a character that is not part of a word costs. */
  function SymbolTokens(c: char): nat {
    if IsWhitespace(c) then 0 else if IsAscii(c) then 1 else 2
  }

  /**
   The price list, character by character: inside a word every fourth byte, starting with the
   first, costs one token; any other character costs what `SymbolTokens` says. `run` is the length
   of the word the text continues.
   */
  function TokensAfter(run: nat, text: string): nat
    decreases |text|
  {
    if text == [] then 0
    else if IsWordByte(text[0]) then
      (if run % 4 == 0 then 1 else 0) + TokensAfter(run + 1, text[1..])
    else
      SymbolTokens(text[0]) + TokensAfter(0, text[1..])
  }

  /** How long the word is that a text ends in, when it continues a word of length `run`. */
  function RunAfter(run: nat, text: string): nat
    decreases |text|
  {
    if text == [] then run
    else if IsWordByte(text[0]) then RunAfter(run + 1, text[1..])
    else RunAfter(0, text[1..])
  }

  function Tokens(text: string): nat {
    TokensAfter(0, text)
  }

  function AsciiWordTokens(bytes: nat): nat {
    (bytes + 3) / 4
  }

  lemma {:induction false} TokensOfConcat(run: nat, a: string, b: string)
    ensures TokensAfter(run, a + b) == TokensAfter(run, a) + TokensAfter(RunAfter(run, a), b)
    ensures RunAfter(run, a + b) == RunAfter(RunAfter(run, a), b)
    decreases |a|
  {
    if a == [] {
      assert a + b == b;
    } else {
      assert (a + b)[0] == a[0] && (a + b)[1..] == a[1..] + b;
      TokensOfConcat(if IsWordByte(a[0]) then run + 1 else 0, a[1..], b);
    }
  }

  /** The number of word bytes a text opens with. */
  function Opening(text: string): nat {
    if text == [] || !IsWordByte(text[0]) then 0 else 1 + Opening(text[1..])
  }

  /** The price of everything after the opening word. */
  function AfterOpening(text: string): nat {
    if text == [] then 0
    else if IsWordByte(text[0]) then AfterOpening(text[1..])
    else TokensAfter(0, text)
  }

  /** Only the opening word feels what it continues: the word as a whole costs one token per four bytes, rounded up. */
  lemma {:induction false} PriceOfOpening(run: nat, text: string)
    ensures TokensAfter(run, text) == AsciiWordTokens(run + Opening(text)) - AsciiWordTokens(run) + AfterOpening(text)
    decreases |text|
  {
    hide AsciiWordTokens;
    if text != [] && IsWordByte(text[0]) {
      PriceOfOpening(run + 1, text[1..]);
      EveryFourthByteCosts(run);
    }
  }

  lemma EveryFourthByteCosts(run: nat)
    ensures AsciiWordTokens(run + 1) - AsciiWordTokens(run) == if run % 4 == 0 then 1 else 0
  {
  }

  /** Continuing a word saves at most one token, and saves nothing when the word so far fills whole tokens. */
  lemma ContinuingAWordSaves(run: nat, text: string)
    ensures TokensAfter(run, text) <= Tokens(text) <= TokensAfter(run, text) + 1
    ensures run % 4 == 0 ==> TokensAfter(run, text) == Tokens(text)
  {
    PriceOfOpening(run, text);
    PriceOfOpening(0, text);
  }

  /** A text that ends in an unfinished token has cost at least that token. */
  lemma {:induction false} UnfinishedTokenIsPaid(run: nat, text: string)
    ensures RunAfter(run, text) % 4 != 0 ==> run % 4 != 0 || TokensAfter(run, text) >= 1
    decreases |text|
  {
    if text != [] {
      UnfinishedTokenIsPaid(if IsWordByte(text[0]) then run + 1 else 0, text[1..]);
    }
  }

  /** Counting is monotone: neither a prefix nor a suffix costs more than the whole. */
  lemma TokensMonotone(a: string, b: string)
    ensures Tokens(a) <= Tokens(a + b)
    ensures Tokens(b) <= Tokens(a + b)
  {
    TokensOfConcat(0, a, b);
    ContinuingAWordSaves(RunAfter(0, a), b);
    UnfinishedTokenIsPaid(0, a);
  }

  /** Counting is subadditive, and joining two texts saves at most one token. */
  lemma TokensSubadditive(a: string, b: string)
    ensures Tokens(a) + Tokens(b) - 1 <= Tokens(a + b) <= Tokens(a) + Tokens(b)
  {
    TokensOfConcat(0, a, b);
    ContinuingAWordSaves(RunAfter(0, a), b);
  }

  lemma {:induction false} BlankIsFree(run: nat, blank: string)
    requires Blank(blank)
    ensures TokensAfter(run, blank) == 0
    ensures blank != [] ==> RunAfter(run, blank) == 0
    decreases |blank|
  {
    if blank != [] {
      assert IsWhitespace(blank[0]);
      assert Blank(blank[1..]);
      BlankIsFree(0, blank[1..]);
    }
  }

  /** Across a whitespace separator counting is exactly additive. */
  lemma TokensAdditiveAcrossBlank(a: string, blank: string, b: string)
    requires blank != [] && Blank(blank)
    ensures Tokens(a + blank + b) == Tokens(a) + Tokens(b)
  {
    TokensOfConcat(0, a, blank);
    TokensOfConcat(0, a + blank, b);
    BlankIsFree(RunAfter(0, a), blank);
  }

  // ----- What every text costs -----

  lemma {:induction false} WordRun(word: string)
    requires forall i :: 0 <= i < |word| ==> IsWordByte(word[i])
    ensures Opening(word) == |word| && AfterOpening(word) == 0
  {
    if word != [] {
      WordRun(word[1..]);
    }
  }

  /** A word of ASCII letters, digits and underscores costs a token for every four of them, rounded up. */
  lemma WordCosts(word: string)
    requires forall i :: 0 <= i < |word| ==>
               'a' <= word[i] <= 'z' || 'A' <= word[i] <= 'Z' || '0' <= word[i] <= '9' || word[i] == '_'
    ensures 4 * Tokens(word) - 3 <= |word| <= 4 * Tokens(word)
  {
    WordRun(word);
    PriceOfOpening(0, word);
  }

  /**
   Any other character ends the word before it and starts afresh after it: whitespace costs nothing,
   an ASCII symbol one token, and a character beyond ASCII two. With the cost of words, this is the
   cost of every text.
   */
  lemma SymbolCosts(a: string, c: char, b: string)
    requires !('a' <= c <= 'z' || 'A' <= c <= 'Z' || '0' <= c <= '9' || c == '_')
    ensures Tokens(a + [c] + b) == Tokens(a) + Tokens(b) + if IsWhitespace(c) then 0 else if c as int < 128 then 1 else 2
  {
    TokensOfConcat(0, a, [c]);
    TokensOfConcat(0, a + [c], b);
  }

  /** The counter: one pass, counting a word when it ends. */
  method TokenCount(text: string) returns (count: nat)
    ensures count == Tokens(text)
  {
    count := 0;
    var asciiWordBytes := 0;
    var i := 0;
    while i < |text|
      invariant 0 <= i <= |text|
      invariant asciiWordBytes == RunAfter(0, text[..i])
      invariant count + AsciiWordTokens(asciiWordBytes) == Tokens(text[..i])
    {
      var c := text[i];
      assert text[..i + 1] == text[..i] + [c];
      TokensOfConcat(0, text[..i], [c]);
      assert TokensAfter(asciiWordBytes, [c]) == if IsWordByte(c) then (if asciiWordBytes % 4 == 0 then 1 else 0) else SymbolTokens(c);
      if IsWordByte(c) {
        asciiWordBytes := asciiWordBytes + 1;
      } else {
        count := count + AsciiWordTokens(asciiWordBytes);
        asciiWordBytes := 0;
        if !IsWhitespace(c) {
          count := count + if IsAscii(c) then 1 else 2;
        }
      }
      i := i + 1;
    }
    assert text[..|text|] == text;
    count := count + AsciiWordTokens(asciiWordBytes);
  }
}
