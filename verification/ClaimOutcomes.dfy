/**
 What the claim test answers and what normalizing returns, case by case: the claims it does not weigh,
 symbols, and globs; and the components that are kept.
 */
module ClaimOutcomes {
  import opened Common
  import opened Text
  import opened Sequences
  import opened Claims

  /** One path is the other or lies under it, component by component. */
  ghost predicate OnOneLine(left: string, right: string) {
    Split(left) <= Split(right) || Split(right) <= Split(left)
  }

  lemma RelatedIff(left: string, right: string)
    ensures Related(left, right) <==> OnOneLine(left, right)
  {
    ChildOfMeansUnder(left, right);
    ChildOfMeansUnder(right, left);
    hide Split, ChildOf;
    if Split(left) <= Split(right) && Split(right) <= Split(left) {
      assert Split(left) == Split(right);
      SplitIsInjective(left, right);
    }
  }

  /** The first component of a path that generated or vendored trees live under. */
  lemma IgnoredIff(path: string)
    ensures IsIgnored(path) <==>
              Split(path)[0] in {".git", ".next", "build", "coverage", "dist", "node_modules", "target", "vendor", ".venv", "venv"}
  {
    hide Split;
  }

  /** Claims under an ignored root are ignored, and claims of two projects never overlap. */
  lemma NotWeighed(left: PathClaim, right: PathClaim)
    ensures IsIgnored(left.value) || IsIgnored(right.value) <==> OverlapOf(left, right) == Ignored
    ensures !IsIgnored(left.value) && !IsIgnored(right.value) && left.projectId != right.projectId ==> OverlapOf(left, right) == NoOverlap
  {
    hide IsIgnored, StaticPrefix, Related, ChildOf;
  }

  /**
   A symbol claim overlaps definitely the claim of the same named symbol of the same file, possibly any
   other claim on one line with it, and nothing else.
   */
  lemma SymbolsOverlapIff(left: PathClaim, right: PathClaim)
    requires left.projectId == right.projectId && !IsIgnored(left.value) && !IsIgnored(right.value)
    requires left.kind.Symbol? || right.kind.Symbol?
    ensures OverlapOf(left, right) == Definite <==> left.value == right.value && left.symbol != None && left.symbol == right.symbol
    ensures OverlapOf(left, right) == Possible <==> OverlapOf(left, right) != Definite && OnOneLine(left.value, right.value)
    ensures OverlapOf(left, right) in {Definite, Possible, NoOverlap}
  {
    RelatedIff(left.value, right.value);
    hide IsIgnored, StaticPrefix, Related, OnOneLine, ChildOf;
  }

  /** The components of a glob's literal part, as far as they are whole or cut by the first wildcard. */
  ghost predicate HasNoLiteral(claim: PathClaim) {
    forall i :: 0 <= i < |Literal(claim.value)| ==> Literal(claim.value)[i] == '/'
  }

  lemma {:induction false} TrimmedIsEmptyIff(s: string)
    ensures TrimSlashes(s) == [] <==> forall i :: 0 <= i < |s| ==> s[i] == '/'
  {
    if s != [] && s[|s| - 1] == '/' {
      TrimmedIsEmptyIff(s[..|s| - 1]);
    } else if s != [] {
      assert s[|s| - 1] != '/';
    }
  }

  /**
   A glob overlaps possibly whatever it cannot be told from, when one of the two has no literal part at
   all; probably what its literal part is on one line with; and nothing else. It never overlaps definitely.
   */
  lemma GlobsOverlapIff(left: PathClaim, right: PathClaim)
    requires left.projectId == right.projectId && !IsIgnored(left.value) && !IsIgnored(right.value)
    requires !left.kind.Symbol? && !right.kind.Symbol? && (left.kind.Glob? || right.kind.Glob?)
    ensures OverlapOf(left, right) == Possible <==> HasNoLiteral(left) || HasNoLiteral(right)
    ensures OverlapOf(left, right) == Probable <==>
              !HasNoLiteral(left) && !HasNoLiteral(right)
              && OnOneLine(TrimSlashes(Literal(left.value)), TrimSlashes(Literal(right.value)))
    ensures OverlapOf(left, right) in {Possible, Probable, NoOverlap}
  {
    TrimmedIsEmptyIff(Literal(left.value));
    TrimmedIsEmptyIff(Literal(right.value));
    RelatedIff(TrimSlashes(Literal(left.value)), TrimSlashes(Literal(right.value)));
    hide IsIgnored, Literal, TrimSlashes, Related, OnOneLine, ChildOf;
  }

  /** The literal part of a value: everything before its first wildcard. */
  lemma LiteralSays(value: string)
    ensures Literal(value) <= value
    ensures forall i :: 0 <= i < |Literal(value)| ==> value[i] !in {'*', '?', '[', '{'}
    ensures Literal(value) != value ==> value[|Literal(value)|] in {'*', '?', '[', '{'}
  {
    LiteralHasNoMeta(value);
    assert forall i :: 0 <= i < |Literal(value)| ==> value[i] == Literal(value)[i];
    hide Literal;
  }

  // ----- Normalizing -----

  /** The input with its outer whitespace taken off and every backslash a slash. */
  ghost predicate IsCleaned(cleaned: string, value: string) {
    && |cleaned| == |Trim(value)|
    && forall i :: 0 <= i < |cleaned| ==> cleaned[i] == if Trim(value)[i] == '\\' then '/' else Trim(value)[i]
  }

  function LowerAll(parts: seq<string>): seq<string> {
    seq(|parts|, i requires 0 <= i < |parts| => Lower(parts[i]))
  }

  function IsNamed(): string -> bool {
    (part: string) => part != "" && part != "."
  }

  lemma {:induction false} KeptSays(parts: seq<string>)
    ensures Kept(parts) == LowerAll(Filter(parts, IsNamed()))
  {
    hide Lower;
    if parts == [] {
      assert LowerAll([]) == [];
    } else {
      var front, last := parts[..|parts| - 1], parts[|parts| - 1];
      KeptSays(front);
      assert parts == front + [last];
      FilterOfOneMore(front, last, IsNamed());
      var named := Filter(front, IsNamed());
      hide Filter, Kept;
      assert LowerAll(named + [last]) == LowerAll(named) + [Lower(last)];
      assert named + [] == named && LowerAll(named) + [] == LowerAll(named);
      KeptUnfolds(parts);
    }
  }

  lemma KeptUnfolds(parts: seq<string>)
    requires parts != []
    ensures var front, last := parts[..|parts| - 1], parts[|parts| - 1];
            Kept(parts) == Kept(front) + if IsNamed()(last) then [Lower(last)] else []
  {
    hide Lower;
  }

  /**
   What normalizing returns: the input's components, but for the empty and the dotted ones, in lower
   case and in their order; or why it is refused.
   */
  lemma NormalizeSays(value: string, cleaned: string)
    requires IsCleaned(cleaned, value)
    ensures var parts := Filter(Split(cleaned), IsNamed());
            match Normalize(value)
            case Ok(v) => parts != [] && Split(v) == LowerAll(parts) && cleaned[0] != '/' && ':' !in cleaned && ".." !in Split(cleaned)
            case Err(e) =>
              e == if cleaned == [] then EmptyPath else if cleaned[0] == '/' then AbsolutePath
                   else if ':' in cleaned then DrivePrefix else if ".." in Split(cleaned) then EscapesRepository else EmptyPath
    ensures Normalize(value).Err? && cleaned != [] && cleaned[0] != '/' && ':' !in cleaned && ".." !in Split(cleaned) ==>
              Filter(Split(cleaned), IsNamed()) == []
  {
    assert cleaned == ForwardSlashes(Trim(value));
    KeptSays(Split(cleaned));
    var kept := Kept(Split(cleaned));
    if Normalize(value).Ok? {
      KeptHaveNoSlash(cleaned);
      SplitOfJoin(kept);
    }
    hide Split, Trim, Kept, ForwardSlashes, Lower, Filter, Join;
  }

  lemma KeptHaveNoSlash(cleaned: string)
    requires ".." !in Split(cleaned) && ':' !in cleaned && '\\' !in cleaned
    ensures forall p :: p in Kept(Split(cleaned)) ==> '/' !in p
  {
    PiecesHaveNoSlash(cleaned);
    PiecesComeFrom(cleaned);
    KeptArePlain(Split(cleaned));
    hide Split, Kept, Lower;
  }

  /** Splitting: the pieces between slashes, none of which holds a slash, and which join back to the text. */
  lemma SplitSays(s: string)
    ensures Join(Split(s), "/") == s && Split(s) != [] && forall p :: p in Split(s) ==> '/' !in p
  {
    JoinOfSplit(s);
    PiecesHaveNoSlash(s);
    hide Split;
  }
}
