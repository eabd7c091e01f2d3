/** What trimming, lower-casing and collapsing whitespace do to a text, with no word about how. */
module TextLaws {
  import opened Text
  import opened Memory

  // ----- Trimming -----

  lemma {:induction false} TrimStartCuts(s: string) returns (i: nat)
    ensures i <= |s| && TrimStart(s) == s[i..] && Blank(s[..i])
  {
    if s == [] || !IsWhitespace(s[0]) {
      i := 0;
    } else {
      var k := TrimStartCuts(s[1..]);
      i := k + 1;
      assert s[1..][k..] == s[i..];
      assert forall j :: 0 < j < i ==> s[..i][j] == s[1..][..k][j - 1];
    }
  }

  lemma {:induction false} TrimEndCuts(s: string) returns (j: nat)
    ensures j <= |s| && TrimEnd(s) == s[..j] && Blank(s[j..])
  {
    if s == [] || !IsWhitespace(s[|s| - 1]) {
      j := |s|;
      assert s[..j] == s;
    } else {
      j := TrimEndCuts(s[..|s| - 1]);
      assert s[..|s| - 1][..j] == s[..j];
      assert s[j..] == s[..|s| - 1][j..] + [s[|s| - 1]];
    }
  }

  /** Trimming takes whitespace off both ends and nothing else, and leaves none there. */
  lemma TrimMeans(s: string)
    ensures exists i, j :: 0 <= i <= j <= |s| && Trim(s) == s[i..j] && Blank(s[..i]) && Blank(s[j..])
    ensures Tight(Trim(s))
  {
    var i := TrimStartCuts(s);
    var k := TrimEndCuts(TrimStart(s));
    assert s[i..][..k] == s[i..i + k];
    assert s[i..][k..] == s[i + k..];
  }

  /** Lower-casing changes ASCII capitals, each where it stands, and nothing else. */
  lemma {:induction false} LowerMeans(s: string)
    ensures |Lower(s)| == |s|
    ensures forall i :: 0 <= i < |s| ==>
              if 'A' <= s[i] <= 'Z' then Lower(s)[i] as int - 'a' as int == s[i] as int - 'A' as int && 'a' <= Lower(s)[i] <= 'z'
              else Lower(s)[i] == s[i]
  {
    if s != [] {
      LowerMeans(s[1..]);
      assert forall i :: 0 < i < |s| ==> s[i] == s[1..][i - 1] && Lower(s)[i] == Lower(s[1..])[i - 1];
    }
  }

  // ----- Collapsing whitespace -----

  predicate IsWord(w: string) {
    w != [] && forall i :: 0 <= i < |w| ==> !IsWhitespace(w[i])
  }

  lemma {:induction false} WordsOfWord(text: string, word: string)
    requires forall i :: 0 <= i < |text| ==> !IsWhitespace(text[i])
    ensures Words(text, word) == if word + text == [] then [] else [word + text]
    decreases |text|
  {
    if text == [] {
      assert word + text == word;
    } else {
      WordsOfWord(text[1..], word + [text[0]]);
      assert word + [text[0]] + text[1..] == word + text;
    }
  }

  lemma {:induction false} WordsAcross(a: string, c: char, b: string, word: string)
    requires IsWhitespace(c)
    ensures Words(a + [c] + b, word) == Words(a, word) + Words(b, [])
    decreases |a|
  {
    var all := a + [c] + b;
    if a == [] {
      assert all[0] == c && all[1..] == b;
    } else {
      assert all[0] == a[0] && all[1..] == a[1..] + [c] + b;
      if IsWhitespace(a[0]) {
        WordsAcross(a[1..], c, b, []);
      } else {
        WordsAcross(a[1..], c, b, word + [a[0]]);
      }
    }
  }

  lemma {:induction false} WordsAreWords(text: string, word: string)
    ensures forall w :: w in Words(text, word) ==> w != []
    decreases |text|
  {
    if text != [] {
      if IsWhitespace(text[0]) {
        WordsAreWords(text[1..], []);
      } else {
        WordsAreWords(text[1..], word + [text[0]]);
      }
    }
  }

  lemma {:induction false} JoinAcross(a: seq<string>, b: seq<string>)
    requires a != [] && b != []
    ensures Join(a + b, " ") == Join(a, " ") + " " + Join(b, " ")
  {
    if |a| == 1 {
      assert (a + b)[1..] == b;
    } else {
      assert (a + b)[1..] == a[1..] + b;
      JoinAcross(a[1..], b);
    }
  }

  lemma JoinOfWords(words: seq<string>)
    requires forall w :: w in words ==> w != []
    ensures Join(words, " ") == [] <==> words == []
  {
    if words != [] {
      assert words[0] in words;
    }
  }

  /** A word stays as it is. */
  lemma CollapseOfWord(w: string)
    requires IsWord(w)
    ensures CollapseWhitespace(w) == w
  {
    WordsOfWord(w, []);
    assert [] + w == w;
  }

  /** Across whitespace, what is left of each side is joined by one space; a side with nothing left adds nothing. */
  lemma CollapseAcross(a: string, c: char, b: string)
    requires IsWhitespace(c)
    ensures CollapseWhitespace([]) == []
    ensures var left, right := CollapseWhitespace(a), CollapseWhitespace(b);
            CollapseWhitespace(a + [c] + b) == if left == [] then right else if right == [] then left else left + " " + right
  {
    var left, right := Words(a, []), Words(b, []);
    WordsAcross(a, c, b, []);
    WordsAreWords(a, []);
    WordsAreWords(b, []);
    JoinOfWords(left);
    JoinOfWords(right);
    hide Words, IsWhitespace;
    assert [] + right == right && left + [] == left;
    if left != [] && right != [] {
      JoinAcross(left, right);
    }
    hide Join;
    assert Words([], []) == [] by {
      NoWords();
    }
    JoinOfWords([]);
  }

  lemma NoWords()
    ensures Words([], []) == []
  {
  }

  // ----- Subjects -----

  /** Two memories are about one subject exactly when their kinds are one and their titles are, but for case and spacing. */
  lemma SameSubjectIff(a: MemoryRecord, b: MemoryRecord)
    ensures SubjectKey(a) == SubjectKey(b) <==>
              a.kind == b.kind && Lower(CollapseWhitespace(a.title)) == Lower(CollapseWhitespace(b.title))
  {
    var x, y := Lower(CollapseWhitespace(a.title)), Lower(CollapseWhitespace(b.title));
    var k, m := KindName(a.kind), KindName(b.kind);
    KindNamesDiffer(a.kind, b.kind);
    KindHasNoColon(a.kind);
    KindHasNoColon(b.kind);
    hide Lower, CollapseWhitespace, KindName;
    ColonSplits(k, x);
    ColonSplits(m, y);
    if SubjectKey(a) == SubjectKey(b) {
      assert x == (k + ":" + x)[|k| + 1..];
      assert y == (m + ":" + y)[|m| + 1..];
    }
  }

  function BeforeColon(s: string): string {
    if s == [] || s[0] == ':' then [] else [s[0]] + BeforeColon(s[1..])
  }

  lemma {:induction false} ColonSplits(k: string, x: string)
    requires forall i :: 0 <= i < |k| ==> k[i] != ':'
    ensures BeforeColon(k + ":" + x) == k
  {
    if k == [] {
      assert (k + ":" + x)[0] == ':';
    } else {
      assert (k + ":" + x)[1..] == k[1..] + ":" + x;
      ColonSplits(k[1..], x);
    }
  }

  lemma KindHasNoColon(kind: MemoryKind)
    ensures forall i :: 0 <= i < |KindName(kind)| ==> KindName(kind)[i] != ':'
  {
  }

  lemma KindNamesDiffer(a: MemoryKind, b: MemoryKind)
    ensures KindName(a) == KindName(b) <==> a == b
  {
    var k, m := KindName(a), KindName(b);
    if |k| == |m| && k != [] && m != [] {
      assert k[0] != m[0] || k[|k| - 1] != m[|m| - 1] || a == b;
    }
  }
}
