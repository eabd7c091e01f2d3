/** Path claims: how claimed paths are normalized, and a string test for overlap that must agree with the sets of paths. */
module Claims {
  import opened Common
  import opened Text

  datatype ClaimKind = File | Directory | Glob | Symbol

  datatype Overlap = Ignored | NoOverlap | Possible | Probable | Definite

  datatype PathClaim = PathClaim(projectId: Uuid, kind: ClaimKind, value: string, symbol: Option<string>)

  const IGNORED_ROOTS: seq<string> :=
    [".git", ".next", "build", "coverage", "dist", "node_modules", "target", "vendor", ".venv", "venv"]

  // ----- Splitting at slashes -----

  /** The pieces between slashes. */
  function Split(s: string): (parts: seq<string>)
    ensures parts != []
  {
    if s == [] then [[]]
    else if s[0] == '/' then [[]] + Split(s[1..])
    else
      var rest := Split(s[1..]);
      [[s[0]] + rest[0]] + rest[1..]
  }

  lemma {:induction false} JoinOfSplit(s: string)
    ensures Join(Split(s), "/") == s
  {
    if s != [] {
      JoinOfSplit(s[1..]);
      var rest := Split(s[1..]);
      SplitStep(s, rest);
      assert s == [s[0]] + s[1..];
      hide Split;
      if s[0] == '/' {
        JoinStep([], rest);
      } else if |rest| > 1 {
        JoinStep(rest[0], rest[1..]);
        JoinStep([s[0]] + rest[0], rest[1..]);
        assert [rest[0]] + rest[1..] == rest;
      }
    }
  }

  lemma JoinStep(first: string, rest: seq<string>)
    requires rest != []
    ensures Join([first] + rest, "/") == first + "/" + Join(rest, "/")
  {
    assert ([first] + rest)[1..] == rest;
  }

  lemma {:induction false} SplitOfConcat(a: string, b: string)
    ensures Split(a + "/" + b) == Split(a) + Split(b)
  {
    hide Split;
    var s := a + "/" + b;
    if a == [] {
      assert s[0] == '/' && s[1..] == b;
      SplitStep(s, Split(b));
      SplitOfNothing();
    } else {
      assert s[1..] == a[1..] + "/" + b && s[0] == a[0];
      SplitOfConcat(a[1..], b);
      SplitStep(s, Split(a[1..]) + Split(b));
      SplitStep(a, Split(a[1..]));
      StepDistributes(a[0], Split(a[1..]), Split(b));
    }
  }

  lemma StepDistributes(c: char, rest: seq<string>, more: seq<string>)
    requires rest != []
    ensures [[]] + (rest + more) == ([[]] + rest) + more
    ensures [[c] + (rest + more)[0]] + (rest + more)[1..] == ([[c] + rest[0]] + rest[1..]) + more
  {
  }

  lemma SplitOfNothing()
    ensures Split([]) == [[]]
  {
  }

  lemma SplitStep(s: string, rest: seq<string>)
    requires s != [] && Split(s[1..]) == rest && rest != []
    ensures Split(s) == if s[0] == '/' then [[]] + rest else [[s[0]] + rest[0]] + rest[1..]
  {
  }

  lemma {:induction false} JoinOfConcat(a: seq<string>, b: seq<string>)
    requires a != [] && b != []
    ensures Join(a + b, "/") == Join(a, "/") + "/" + Join(b, "/")
  {
    if |a| == 1 {
      assert (a + b)[1..] == b;
    } else {
      assert (a + b)[1..] == a[1..] + b;
      JoinOfConcat(a[1..], b);
    }
  }

  /** A piece with no slash is one component. */
  lemma {:induction false} SplitOfPiece(s: string)
    requires '/' !in s
    ensures Split(s) == [s]
  {
    if s != [] {
      SplitOfPiece(s[1..]);
      assert s == [s[0]] + s[1..];
    }
  }

  lemma {:induction false} SplitOfJoin(parts: seq<string>)
    requires parts != [] && forall p :: p in parts ==> '/' !in p
    ensures Split(Join(parts, "/")) == parts
  {
    SplitOfPiece(parts[0]);
    if |parts| > 1 {
      SplitOfJoin(parts[1..]);
      SplitOfConcat(parts[0], Join(parts[1..], "/"));
    }
  }

  lemma {:induction false} PiecesHaveNoSlash(s: string)
    ensures forall p :: p in Split(s) ==> '/' !in p
  {
    if s != [] {
      PiecesHaveNoSlash(s[1..]);
    }
  }

  // ----- The string tests -----

  predicate ChildOf(candidate: string, parent: string) {
    parent <= candidate && |candidate| > |parent| && candidate[|parent|] == '/'
  }

  predicate Related(left: string, right: string) {
    left == right || ChildOf(left, right) || ChildOf(right, left)
  }

  predicate IsIgnored(path: string) {
    Split(path)[0] in IGNORED_ROOTS
  }

  predicate IsMeta(c: char) {
    c == '*' || c == '?' || c == '[' || c == '{'
  }

  /** The part of a value before its first wildcard. */
  function Literal(value: string): (r: string)
    ensures r <= value
  {
    if value == [] || IsMeta(value[0]) then [] else [value[0]] + Literal(value[1..])
  }

  function TrimSlashes(s: string): (r: string)
    ensures r <= s
  {
    if s != [] && s[|s| - 1] == '/' then TrimSlashes(s[..|s| - 1]) else s
  }

  function StaticPrefix(value: string): string {
    TrimSlashes(Literal(value))
  }

  function OverlapOf(left: PathClaim, right: PathClaim): Overlap {
    if IsIgnored(left.value) || IsIgnored(right.value) then Ignored
    else if left.projectId != right.projectId then NoOverlap
    else if left.kind.Symbol? || right.kind.Symbol? then
      if left.value == right.value && left.symbol.Some? && left.symbol == right.symbol then Definite
      else if Related(left.value, right.value) then Possible
      else NoOverlap
    else if left.kind.Glob? || right.kind.Glob? then
      if StaticPrefix(left.value) == [] || StaticPrefix(right.value) == [] then Possible
      else if Related(StaticPrefix(left.value), StaticPrefix(right.value)) then Probable
      else NoOverlap
    else if left.value == right.value then Definite
    else if left.kind.Directory? && ChildOf(right.value, left.value) then Definite
    else if right.kind.Directory? && ChildOf(left.value, right.value) then Definite
    else NoOverlap
  }

  /** Which claim is asked about makes no difference. */
  lemma OverlapIsSymmetric(left: PathClaim, right: PathClaim)
    ensures OverlapOf(left, right) == OverlapOf(right, left)
  {
    hide IsIgnored, StaticPrefix;
  }

  // ----- Files and directories as sets of paths -----

  /** A path is its components; a file claim holds one path, a directory claim every path that starts with it. */
  predicate Holds(claim: PathClaim, path: seq<string>) {
    if claim.kind.Directory? then Split(claim.value) <= path else path == Split(claim.value)
  }

  lemma SplitIsInjective(a: string, b: string)
    requires Split(a) == Split(b)
    ensures a == b
  {
    JoinOfSplit(a);
    JoinOfSplit(b);
  }

  /** The string test for a child is the prefix test on components. */
  lemma ChildOfMeansUnder(candidate: string, parent: string)
    ensures ChildOf(candidate, parent) <==> Split(parent) < Split(candidate)
  {
    if ChildOf(candidate, parent) {
      var rest := candidate[|parent| + 1..];
      assert candidate == parent + "/" + rest;
      SplitOfConcat(parent, rest);
    }
    if Split(parent) < Split(candidate) {
      var tail := Split(candidate)[|Split(parent)|..];
      assert Split(candidate) == Split(parent) + tail;
      JoinOfConcat(Split(parent), tail);
      JoinOfSplit(parent);
      JoinOfSplit(candidate);
      assert candidate == parent + "/" + Join(tail, "/");
    }
  }

  lemma PrefixesOfOne(a: seq<string>, b: seq<string>, path: seq<string>)
    requires a <= path && b <= path
    ensures a <= b || b <= a
  {
    if |a| <= |b| {
      assert a == path[..|a|] == b[..|a|];
    } else {
      assert b == path[..|b|] == a[..|b|];
    }
  }

  /**
   For file and directory claims of one project outside the ignored roots, the answer is definite
   exactly when some path is in both claims, and otherwise there is no overlap.
   */
  lemma DefiniteIffTheyMeet(left: PathClaim, right: PathClaim)
    requires left.projectId == right.projectId && !IsIgnored(left.value) && !IsIgnored(right.value)
    requires (left.kind.File? || left.kind.Directory?) && (right.kind.File? || right.kind.Directory?)
    ensures OverlapOf(left, right) == Definite <==> exists path :: Holds(left, path) && Holds(right, path)
    ensures OverlapOf(left, right) == Definite || OverlapOf(left, right) == NoOverlap
  {
    ChildOfMeansUnder(left.value, right.value);
    ChildOfMeansUnder(right.value, left.value);
    hide IsIgnored, ChildOf, Split;
    if OverlapOf(left, right) == Definite {
      var path := if left.kind.Directory? && ChildOf(right.value, left.value) then Split(right.value) else Split(left.value);
      assert Holds(left, path) && Holds(right, path);
    }
    if path :| Holds(left, path) && Holds(right, path) {
      PrefixesOfOne(Split(left.value), Split(right.value), path);
      if Split(left.value) == Split(right.value) {
        SplitIsInjective(left.value, right.value);
      }
    }
  }

  // ----- Globs -----

  /**
   What a claim may hold, by the text of a path. A glob's matches start with its literal part, and a
   glob without a wildcard matches only itself; nothing else is assumed of the wildcards.
   */
  predicate MayHold(claim: PathClaim, text: string) {
    match claim.kind
    case Glob => if Literal(claim.value) == claim.value then text == claim.value else Literal(claim.value) <= text
    case Directory => text == claim.value || ChildOf(text, claim.value)
    case _ => text == claim.value
  }

  /** A glob's literal part ends where a component ends. */
  predicate Aligned(value: string) {
    var literal := Literal(value);
    literal == value || literal == [] || literal[|literal| - 1] == '/'
  }

  lemma {:induction false} LiteralHasNoMeta(value: string)
    ensures forall i :: 0 <= i < |Literal(value)| ==> !IsMeta(Literal(value)[i])
    ensures Literal(value) != value ==> |Literal(value)| < |value| && IsMeta(value[|Literal(value)|])
  {
    if value != [] && !IsMeta(value[0]) {
      LiteralHasNoMeta(value[1..]);
      assert value == [value[0]] + value[1..];
    }
  }

  lemma MayHoldStartsWithLiteral(claim: PathClaim, text: string)
    requires MayHold(claim, text)
    ensures Literal(claim.value) <= text
  {
    hide Literal;
  }

  lemma {:induction false} TrimmedSlashes(s: string)
    ensures forall i :: |TrimSlashes(s)| <= i < |s| ==> s[i] == '/'
    ensures TrimSlashes(s) != [] ==> TrimSlashes(s)[|TrimSlashes(s)| - 1] != '/'
  {
    if s != [] && s[|s| - 1] == '/' {
      TrimmedSlashes(s[..|s| - 1]);
    }
  }

  /** A component does not start in the middle of another: no two slashes follow each other in a value. */
  predicate Tidy(value: string) {
    forall i :: 0 <= i < |value| - 1 ==> !(value[i] == '/' && value[i + 1] == '/')
  }

  /**
   How the trimmed prefixes of two literal parts relate when one continues the other: they are
   related unless the shorter one stops inside a component of the longer one.
   */
  lemma RelatedUnlessMidComponent(short: string, long: string)
    requires short <= long && TrimSlashes(short) != [] && Tidy(long)
    ensures Related(TrimSlashes(short), TrimSlashes(long)) <==>
              short[|short| - 1] == '/' || |long| == |short| || long[|short|] == '/'
  {
    TrimmedSlashes(short);
    TrimmedSlashes(long);
    var s, l := TrimSlashes(short), TrimSlashes(long);
    assert long[|s| - 1] == short[|s| - 1] != '/';
    assert |s| <= |l|;
    assert s <= l;
    hide TrimSlashes;
  }

  /**
   The exact shape of the glob test. Take two claims, one of them a glob, whose literal parts are
   compatible, the first being a prefix of the second. The answer is no overlap exactly when the
   shorter literal part stops in the middle of a component of the longer.
   */
  lemma GlobMissesIff(left: PathClaim, right: PathClaim)
    requires left.projectId == right.projectId && !IsIgnored(left.value) && !IsIgnored(right.value)
    requires !left.kind.Symbol? && !right.kind.Symbol? && (left.kind.Glob? || right.kind.Glob?)
    requires Tidy(right.value) && StaticPrefix(left.value) != []
    requires Literal(left.value) <= Literal(right.value)
    ensures OverlapOf(left, right) == NoOverlap <==>
              var short, long := Literal(left.value), Literal(right.value);
              short[|short| - 1] != '/' && |long| > |short| && long[|short|] != '/'
  {
    var short, long := Literal(left.value), Literal(right.value);
    assert Tidy(long);
    RelatedUnlessMidComponent(short, long);
    TrimmedSlashes(short);
    TrimmedSlashes(long);
    assert long[|TrimSlashes(short)| - 1] != '/';
    assert TrimSlashes(long) != [];
    hide IsIgnored, Literal, TrimSlashes, Related;
  }

  lemma ComparablePrefixes(a: string, b: string, text: string)
    requires a <= text && b <= text
    ensures a <= b || b <= a
  {
    if |a| <= |b| {
      assert a == text[..|a|] == b[..|a|];
    } else {
      assert b == text[..|b|] == a[..|b|];
    }
  }

  /** If a text may be in both claims and the shorter literal part is a whole value, they relate. */
  lemma LiteralGlobMeets(left: PathClaim, right: PathClaim, text: string)
    requires !left.kind.Symbol? && !right.kind.Symbol?
    requires MayHold(left, text) && MayHold(right, text)
    requires Literal(left.value) < Literal(right.value)
    requires left.kind.Glob? ==> Aligned(left.value)
    ensures var short, long := Literal(left.value), Literal(right.value);
            short == [] || short[|short| - 1] == '/' || long[|short|] == '/'
  {
    MayHoldStartsWithLiteral(right, text);
    LiteralHasNoMeta(left.value);
    LiteralHasNoMeta(right.value);
    var short, long := Literal(left.value), Literal(right.value);
    assert text[|short|] == long[|short|];
    if !left.kind.Glob? {
      WildcardIsInText(left, text);
    }
    hide Literal, IsMeta;
  }

  /** A path held by a file or directory claim shows the claim's own wildcard characters. */
  lemma WildcardIsInText(claim: PathClaim, text: string)
    requires MayHold(claim, text) && !claim.kind.Glob?
    ensures Literal(claim.value) != claim.value ==>
              |Literal(claim.value)| < |text| && IsMeta(text[|Literal(claim.value)|])
  {
    LiteralHasNoMeta(claim.value);
    hide Literal, IsMeta;
  }

  /**
   For globs whose literal part ends at the end of a component, no overlap means that no path can be
   in both claims.
   */
  lemma NoOverlapMeansApart(left: PathClaim, right: PathClaim, text: string)
    requires OverlapOf(left, right) == NoOverlap && left.projectId == right.projectId
    requires !left.kind.Symbol? && !right.kind.Symbol? && (left.kind.Glob? || right.kind.Glob?)
    requires (left.kind.Glob? ==> Aligned(left.value)) && (right.kind.Glob? ==> Aligned(right.value))
    requires Tidy(left.value) && Tidy(right.value)
    ensures !(MayHold(left, text) && MayHold(right, text))
  {
    if MayHold(left, text) && MayHold(right, text) {
      MayHoldStartsWithLiteral(left, text);
      MayHoldStartsWithLiteral(right, text);
      ComparablePrefixes(Literal(left.value), Literal(right.value), text);
      OverlapIsSymmetric(left, right);
      if Literal(left.value) <= Literal(right.value) {
        ApartStep(left, right, text);
      } else {
        ApartStep(right, left, text);
      }
    }
  }

  lemma ApartStep(left: PathClaim, right: PathClaim, text: string)
    requires OverlapOf(left, right) == NoOverlap && left.projectId == right.projectId
    requires !left.kind.Symbol? && !right.kind.Symbol? && (left.kind.Glob? || right.kind.Glob?)
    requires (left.kind.Glob? ==> Aligned(left.value)) && Tidy(right.value)
    requires Literal(left.value) <= Literal(right.value)
    ensures !(MayHold(left, text) && MayHold(right, text))
  {
    if MayHold(left, text) && MayHold(right, text) {
      GlobMissesIff(left, right);
      LiteralGlobMeets(left, right, text);
    }
  }

  /**
   Without that hypothesis an overlap is missed: a glob that puts its wildcard inside a component, as
   in `src/foo*`, does not overlap, by the test, any file that continues that component, as
   `src/foobar.rs` does, though it matches it.
   */
  lemma MidComponentGlobMisses(project: Uuid, start: string, rest: string)
    requires start != [] && start[|start| - 1] != '/' && rest != [] && rest[0] != '/'
    requires (forall i :: 0 <= i < |start| ==> !IsMeta(start[i])) && (forall i :: 0 <= i < |rest| ==> !IsMeta(rest[i]))
    requires Tidy(start + rest) && !IsIgnored(start + "*") && !IsIgnored(start + rest)
    ensures var glob := PathClaim(project, Glob, start + "*", None);
            var file := PathClaim(project, File, start + rest, None);
            OverlapOf(glob, file) == NoOverlap && MayHold(glob, file.value) && MayHold(file, file.value)
  {
    var glob := PathClaim(project, Glob, start + "*", None);
    var file := PathClaim(project, File, start + rest, None);
    LiteralOfPrefix(start, "*");
    LiteralOfPrefix(start + rest, []);
    assert start + rest + [] == start + rest;
    TrimmedSlashes(start);
    assert TrimSlashes(start) == start;
    hide Literal, IsMeta, IsIgnored;
    GlobMissesIff(glob, file);
  }

  /**
   A glob whose wildcard stands inside a component, next to a claim whose own literal part goes on
   inside that component.
   */
  predicate StopsInside(glob: PathClaim, other: PathClaim) {
    var short, long := Literal(glob.value), Literal(other.value);
    && glob.kind.Glob? && short != glob.value
    && short != [] && short[|short| - 1] != '/'
    && short < long && long[|short|] != '/'
  }

  /** Then the other claim's own value is in both, and the answer is no overlap. */
  lemma StoppingInsideMisses(glob: PathClaim, other: PathClaim)
    requires glob.projectId == other.projectId && !IsIgnored(glob.value) && !IsIgnored(other.value)
    requires !other.kind.Symbol? && Tidy(other.value) && StopsInside(glob, other)
    ensures OverlapOf(glob, other) == NoOverlap
    ensures MayHold(glob, other.value) && MayHold(other, other.value)
  {
    TrimmedSlashes(Literal(glob.value));
    assert TrimSlashes(Literal(glob.value)) == Literal(glob.value);
    hide IsIgnored, Literal, TrimSlashes, Related;
    GlobMissesIff(glob, other);
  }

  /** The other way: where a text in both is answered by no overlap, the claim with the shorter literal part stops inside. */
  lemma MissMeansStopping(left: PathClaim, right: PathClaim, text: string)
    requires OverlapOf(left, right) == NoOverlap && left.projectId == right.projectId
    requires !left.kind.Symbol? && !right.kind.Symbol? && (left.kind.Glob? || right.kind.Glob?)
    requires Tidy(right.value) && MayHold(left, text) && MayHold(right, text)
    requires Literal(left.value) <= Literal(right.value)
    ensures StopsInside(left, right)
  {
    GlobMissesIff(left, right);
    hide OverlapOf;
    if left.kind.Glob? ==> Aligned(left.value) {
      LiteralGlobMeets(left, right, text);
    }
    hide Literal, IsMeta, MayHold;
  }

  /**
   Exactly when the test misses an overlap. Take two path claims of one project outside the ignored
   roots, at least one of them a glob. The answer is no overlap although some path may be in both
   exactly when one of them is a glob that puts its wildcard inside a component, and the other's
   literal part goes on inside that component.
   */
  lemma OverlapIsMissedIff(left: PathClaim, right: PathClaim)
    requires left.projectId == right.projectId && !IsIgnored(left.value) && !IsIgnored(right.value)
    requires !left.kind.Symbol? && !right.kind.Symbol? && (left.kind.Glob? || right.kind.Glob?)
    requires Tidy(left.value) && Tidy(right.value)
    ensures OverlapOf(left, right) == NoOverlap && (exists text :: MayHold(left, text) && MayHold(right, text)) <==>
              StopsInside(left, right) || StopsInside(right, left)
  {
    OverlapIsSymmetric(left, right);
    hide OverlapOf, IsIgnored, Literal, Tidy;
    if text :| OverlapOf(left, right) == NoOverlap && MayHold(left, text) && MayHold(right, text) {
      MayHoldStartsWithLiteral(left, text);
      MayHoldStartsWithLiteral(right, text);
      ComparablePrefixes(Literal(left.value), Literal(right.value), text);
      if Literal(left.value) <= Literal(right.value) {
        MissMeansStopping(left, right, text);
      } else {
        MissMeansStopping(right, left, text);
      }
    }
    if StopsInside(left, right) {
      StoppingInsideMisses(left, right);
    } else if StopsInside(right, left) {
      StoppingInsideMisses(right, left);
    }
  }

  lemma {:induction false} LiteralOfPrefix(plain: string, rest: string)
    requires forall i :: 0 <= i < |plain| ==> !IsMeta(plain[i])
    requires rest == [] || IsMeta(rest[0])
    ensures Literal(plain + rest) == plain
  {
    if plain != [] {
      assert (plain + rest)[1..] == plain[1..] + rest;
      LiteralOfPrefix(plain[1..], rest);
    }
  }

  // ----- Normalizing -----

  datatype ClaimError = EmptyPath | AbsolutePath | DrivePrefix | EscapesRepository

  function ForwardSlashes(s: string): string {
    seq(|s|, i requires 0 <= i < |s| => if s[i] == '\\' then '/' else s[i])
  }

  /** The components that stay, in lower case. */
  function Kept(parts: seq<string>): seq<string> {
    if parts == [] then []
    else
      var last := parts[|parts| - 1];
      Kept(parts[..|parts| - 1]) + if last == "" || last == "." then [] else [Lower(last)]
  }

  function Normalize(value: string): Result<string, ClaimError> {
    var replaced := ForwardSlashes(Trim(value));
    if replaced == [] then Err(EmptyPath)
    else if replaced[0] == '/' then Err(AbsolutePath)
    else if ':' in replaced then Err(DrivePrefix)
    else if ".." in Split(replaced) then Err(EscapesRepository)
    else if Kept(Split(replaced)) == [] then Err(EmptyPath)
    else Ok(Join(Kept(Split(replaced)), "/"))
  }

  method NormalizeClaim(value: string) returns (result: Result<string, ClaimError>)
    ensures result == Normalize(value)
  {
    hide Lower, Trim, Split;
    var replaced := ForwardSlashes(Trim(value));
    if replaced == [] {
      return Err(EmptyPath);
    }
    if replaced[0] == '/' {
      return Err(AbsolutePath);
    }
    if ':' in replaced {
      return Err(DrivePrefix);
    }
    var parts := Split(replaced);
    var components: seq<string> := [];
    var i := 0;
    while i < |parts|
      invariant 0 <= i <= |parts|
      invariant ".." !in parts[..i] && components == Kept(parts[..i])
    {
      assert parts[..i + 1][..i] == parts[..i] && parts[..i + 1] == parts[..i] + [parts[i]];
      if parts[i] == ".." {
        assert parts[i] in parts;
        return Err(EscapesRepository);
      }
      if parts[i] != "" && parts[i] != "." {
        components := components + [Lower(parts[i])];
      }
      i := i + 1;
    }
    assert parts[..|parts|] == parts;
    if components == [] {
      return Err(EmptyPath);
    }
    return Ok(Join(components, "/"));
  }

  lemma {:induction false} LowerIsStable(s: string)
    ensures Lower(Lower(s)) == Lower(s) && |Lower(s)| == |s|
    ensures forall c :: c in Lower(s) ==> !('A' <= c <= 'Z')
    ensures forall c :: c in Lower(s) && c !in s ==> 'a' <= c <= 'z'
  {
    if s != [] {
      LowerIsStable(s[1..]);
      assert s == [s[0]] + s[1..];
      assert Lower(s)[1..] == Lower(s[1..]);
    }
  }

  /** A component that normalization leaves as it is. */
  predicate Plain(p: string) {
    && p != [] && p != "." && p != ".." && Lower(p) == p
    && '/' !in p && '\\' !in p && ':' !in p
  }

  lemma LowerDots(p: string)
    ensures Lower(p) == "." <==> p == "."
    ensures Lower(p) == ".." <==> p == ".."
  {
    LowerIsStable(p);
    if |p| == 1 {
      assert Lower(p) == [LowerChar(p[0])] + Lower(p[1..]);
    } else if |p| == 2 {
      assert Lower(p) == [LowerChar(p[0])] + ([LowerChar(p[1])] + Lower(p[1..][1..]));
    }
  }

  lemma {:induction false} KeptArePlain(parts: seq<string>)
    requires forall p :: p in parts ==> '/' !in p && '\\' !in p && ':' !in p && p != ".."
    ensures forall p :: p in Kept(parts) ==> Plain(p)
  {
    if parts != [] {
      var last := parts[|parts| - 1];
      KeptArePlain(parts[..|parts| - 1]);
      LowerIsStable(last);
      LowerDots(last);
    }
  }

  lemma {:induction false} PiecesComeFrom(s: string)
    ensures forall p, c :: p in Split(s) && c in p ==> c in s
  {
    if s != [] {
      PiecesComeFrom(s[1..]);
    }
  }

  /**
   What comes out of normalization: a path of plain components, none of them empty, a dot, two dots,
   or holding a colon, a backslash or an upper-case letter.
   */
  lemma NormalizedIsPlain(value: string)
    requires Normalize(value).Ok?
    ensures Split(Normalize(value).value) != [] && forall p :: p in Split(Normalize(value).value) ==> Plain(p)
  {
    var replaced := ForwardSlashes(Trim(value));
    var parts := Split(replaced);
    PiecesHaveNoSlash(replaced);
    PiecesComeFrom(replaced);
    assert '\\' !in replaced;
    KeptArePlain(parts);
    hide Split, Lower, Trim, ForwardSlashes;
    SplitOfJoin(Kept(parts));
  }

  lemma {:induction false} KeptOfPlain(parts: seq<string>)
    requires forall p :: p in parts ==> Plain(p)
    ensures Kept(parts) == parts
  {
    hide Lower;
    if parts != [] {
      var front, last := parts[..|parts| - 1], parts[|parts| - 1];
      KeptOfPlain(front);
      assert Plain(last);
      assert parts == front + [last];
      assert Kept(parts) == Kept(front) + [last];
    }
  }

  lemma {:induction false} JoinOfPlain(parts: seq<string>)
    requires parts != [] && forall p :: p in parts ==> Plain(p)
    ensures Join(parts, "/") != [] && Join(parts, "/")[0] != '/'
    ensures ':' !in Join(parts, "/") && '\\' !in Join(parts, "/")
  {
    hide Lower;
    assert Plain(parts[0]);
    if |parts| > 1 {
      JoinOfPlain(parts[1..]);
    }
  }

  lemma ForwardSlashesNeedless(s: string)
    requires '\\' !in s
    ensures ForwardSlashes(s) == s
  {
    assert forall i :: 0 <= i < |s| ==> s[i] in s;
  }

  /** A tight path of plain components is normalized already. */
  lemma PlainIsFixed(v: string)
    requires Tight(v) && forall p :: p in Split(v) ==> Plain(p)
    ensures Normalize(v) == Ok(v)
  {
    TrimFixes(v);
    JoinOfSplit(v);
    JoinOfPlain(Split(v));
    ForwardSlashesNeedless(v);
    KeptOfPlain(Split(v));
    hide Split, Trim, Kept, ForwardSlashes, Lower;
    assert ".." !in Split(v) by {
      assert !Plain("..");
    }
  }

  function TotalLength(parts: seq<string>): nat {
    if parts == [] then 0 else TotalLength(parts[..|parts| - 1]) + |parts[|parts| - 1]| + 1
  }

  lemma {:induction false} TotalOfFront(parts: seq<string>)
    requires parts != []
    ensures TotalLength(parts) == |parts[0]| + 1 + TotalLength(parts[1..])
  {
    if |parts| > 1 {
      assert parts[1..][..|parts| - 2] == parts[..|parts| - 1][1..];
      TotalOfFront(parts[..|parts| - 1]);
    }
  }

  lemma {:induction false} JoinLength(parts: seq<string>)
    requires parts != []
    ensures |Join(parts, "/")| + 1 == TotalLength(parts)
  {
    TotalOfFront(parts);
    if |parts| > 1 {
      JoinLength(parts[1..]);
    } else {
      assert parts[1..] == [];
    }
  }

  lemma {:induction false} KeptIsShorter(parts: seq<string>)
    ensures TotalLength(Kept(parts)) <= TotalLength(parts)
  {
    if parts != [] {
      var front, last := parts[..|parts| - 1], parts[|parts| - 1];
      KeptIsShorter(front);
      LowerIsStable(last);
      if last != "" && last != "." {
        assert Kept(parts) == Kept(front) + [Lower(last)];
        assert Kept(parts)[..|Kept(parts)| - 1] == Kept(front);
      } else {
        assert Kept(parts) == Kept(front) + [] == Kept(front);
      }
    }
  }

  lemma NormalizeNeverLengthens(value: string)
    requires Normalize(value).Ok?
    ensures |Normalize(value).value| <= |Trim(value)|
  {
    var replaced := ForwardSlashes(Trim(value));
    JoinOfSplit(replaced);
    JoinLength(Split(replaced));
    KeptIsShorter(Split(replaced));
    JoinLength(Kept(Split(replaced)));
    hide Split, Trim, Kept, Lower;
  }

  /**
   Normalizing a normalized path again changes nothing exactly when the path has no whitespace at
   either end. Whitespace there survives the first round when it stood next to a dropped component.
   */
  lemma NormalizeIsIdempotentIff(value: string)
    requires Normalize(value).Ok?
    ensures var v := Normalize(value).value;
            Normalize(v) == Ok(v) <==> Tight(v)
  {
    var v := Normalize(value).value;
    NormalizedIsPlain(value);
    TrimFixes(v);
    hide Split, Trim, Kept, ForwardSlashes, Lower, Normalize;
    if Tight(v) {
      PlainIsFixed(v);
    } else if Normalize(v) == Ok(v) {
      NormalizeNeverLengthens(v);
    }
  }

  // ----- When normalizing twice is normalizing once, read off the input -----

  predicate IsKept(part: string) {
    part != "" && part != "."
  }

  /** The first component that normalization keeps. */
  function FirstKept(parts: seq<string>): (r: Option<string>)
    ensures r.Some? ==> r.value != []
  {
    if parts == [] then None else if IsKept(parts[0]) then Some(parts[0]) else FirstKept(parts[1..])
  }

  function LastKept(parts: seq<string>): (r: Option<string>)
    ensures r.Some? ==> r.value != []
  {
    if parts == [] then None
    else if IsKept(parts[|parts| - 1]) then Some(parts[|parts| - 1])
    else LastKept(parts[..|parts| - 1])
  }

  function ComponentsOf(value: string): seq<string> {
    Split(ForwardSlashes(Trim(value)))
  }

  /** The first component that is kept does not begin with whitespace, nor does the last one end with it. */
  predicate EndsAreTight(value: string) {
    var first, last := FirstKept(ComponentsOf(value)), LastKept(ComponentsOf(value));
    && (first.Some? ==> !IsWhitespace(first.value[0]))
    && (last.Some? ==> !IsWhitespace(last.value[|last.value| - 1]))
  }

  lemma KeptOfFirst(first: string, rest: seq<string>)
    ensures Kept([first] + rest) == (if IsKept(first) then [Lower(first)] else []) + Kept(rest)
    decreases |rest|
  {
    var all := [first] + rest;
    hide Lower;
    if rest == [] {
      assert all[..|all| - 1] == [];
    } else {
      assert all[..|all| - 1] == [first] + rest[..|rest| - 1];
      KeptOfFirst(first, rest[..|rest| - 1]);
    }
  }

  lemma {:induction false} FirstKeptIsFirst(parts: seq<string>)
    ensures FirstKept(parts).Some? <==> Kept(parts) != []
    ensures FirstKept(parts).Some? ==> Kept(parts)[0] == Lower(FirstKept(parts).value)
  {
    if parts != [] {
      KeptOfFirst(parts[0], parts[1..]);
      assert parts == [parts[0]] + parts[1..];
      FirstKeptIsFirst(parts[1..]);
      hide Kept, Lower;
    }
  }

  lemma {:induction false} LastKeptIsLast(parts: seq<string>)
    ensures LastKept(parts).Some? <==> Kept(parts) != []
    ensures LastKept(parts).Some? ==> Kept(parts)[|Kept(parts)| - 1] == Lower(LastKept(parts).value)
  {
    hide Lower;
    if parts != [] {
      LastKeptIsLast(parts[..|parts| - 1]);
    }
  }

  lemma {:induction false} JoinEnds(parts: seq<string>)
    requires parts != [] && forall i :: 0 <= i < |parts| ==> |parts[i]| > 0
    ensures var all := Join(parts, "/");
            all != [] && all[0] == parts[0][0]
            && all[|all| - 1] == parts[|parts| - 1][|parts[|parts| - 1]| - 1]
  {
    if |parts| > 1 {
      var rest := parts[1..];
      JoinEnds(rest);
      var tail := Join(rest, "/");
      assert Join(parts, "/") == parts[0] + "/" + tail;
      assert rest[|rest| - 1] == parts[|parts| - 1];
      hide Join;
    }
  }

  lemma LowerKeepsEnds(s: string)
    requires s != []
    ensures |Lower(s)| == |s|
    ensures IsWhitespace(Lower(s)[0]) == IsWhitespace(s[0])
    ensures IsWhitespace(Lower(s)[|s| - 1]) == IsWhitespace(s[|s| - 1])
  {
    if |s| == 1 {
      assert Lower(s) == [LowerChar(s[0])] + Lower(s[1..]);
      assert s[1..] == [];
    } else {
      LowerKeepsEnds(s[1..]);
    }
  }

  lemma {:induction false} KeptAreNotEmpty(parts: seq<string>)
    ensures forall i :: 0 <= i < |Kept(parts)| ==> |Kept(parts)[i]| > 0
  {
    if parts != [] {
      KeptAreNotEmpty(parts[..|parts| - 1]);
      LowerIsStable(parts[|parts| - 1]);
      hide Lower;
    }
  }

  lemma NormalizedIsTightIff(value: string)
    requires Normalize(value).Ok?
    ensures Tight(Normalize(value).value) <==> EndsAreTight(value)
  {
    var parts := ComponentsOf(value);
    KeptAreNotEmpty(parts);
    FirstKeptIsFirst(parts);
    LastKeptIsLast(parts);
    JoinEnds(Kept(parts));
    LowerKeepsEnds(FirstKept(parts).value);
    LowerKeepsEnds(LastKept(parts).value);
    hide Split, Trim, Kept, ForwardSlashes, Lower, IsWhitespace, FirstKept, LastKept;
  }

  /**
   Normalizing twice is normalizing once exactly when, among the components of the trimmed input, the
   first that is kept does not begin with whitespace and the last that is kept does not end with it.
   */
  lemma NormalizeTwiceIff(value: string)
    requires Normalize(value).Ok?
    ensures Normalize(Normalize(value).value) == Normalize(value) <==> EndsAreTight(value)
  {
    NormalizeIsIdempotentIff(value);
    NormalizedIsTightIff(value);
    hide Normalize, Tight, EndsAreTight;
  }

  /** An input on which it is not: dropping the dot brings the space to the front. */
  lemma NormalizeTwiceMayDiffer()
    ensures Normalize("./ a") == Ok(" a") && Normalize(" a") != Ok(" a")
  {
    hide *;
    var dot, a, value := ".", " a", "./ a";
    PiecesOfExample();
    KeptOfPair(dot, a);
    LowerSpaceA();
    TrimFixes(value);
    ExampleIsTight();
    NormalizeMeans(value, [dot] + [a]);
    JoinOfOne(a);
    NormalizeIsIdempotentIff(value);
  }

  lemma PiecesOfExample()
    ensures Split("./ a") == ["."] + [" a"] && !IsKept(".") && IsKept(" a") && ForwardSlashes("./ a") == "./ a"
  {
    var dot, a, value := ".", " a", "./ a";
    SplitOfPiece(dot);
    SplitOfPiece(a);
    SplitOfConcat(dot, a);
    hide Split;
    assert dot + "/" + a == value;
    ForwardSlashesNeedless(value);
  }

  lemma ExampleIsTight()
    ensures Tight("./ a") && !Tight(" a")
    ensures "./ a" != [] && "./ a"[0] != '/' && ':' !in "./ a" && ".." !in ["."] + [" a"]
  {
    var parts := ["."] + [" a"];
    assert |parts[0]| == 1 && parts[1][0] == ' ' && ".."[0] == '.';
  }

  lemma NormalizeMeans(value: string, parts: seq<string>)
    requires Trim(value) == value && ForwardSlashes(value) == value && Split(value) == parts
    requires value != [] && value[0] != '/' && ':' !in value && ".." !in parts && Kept(parts) != []
    ensures Normalize(value) == Ok(Join(Kept(parts), "/"))
  {
    hide Trim, ForwardSlashes, Split, Kept;
  }

  lemma JoinOfOne(part: string)
    ensures Join([part], "/") == part
  {
  }

  lemma KeptOfPair(a: string, b: string)
    requires !IsKept(a) && IsKept(b)
    ensures Kept([a] + [b]) == [Lower(b)]
  {
    KeptOfFirst(a, [b]);
    KeptOfFirst(b, []);
    assert [b] + [] == [b];
    hide Kept, Lower;
    assert Kept([]) == [] by {
      KeptOfNothing();
    }
  }

  lemma KeptOfNothing()
    ensures Kept([]) == []
  {
  }

  lemma LowerSpaceA()
    ensures Lower(" a") == " a"
  {
    var s := " a";
    assert s[1..][1..] == [];
    assert Lower(s) == [LowerChar(s[0])] + ([LowerChar(s[1..][0])] + Lower(s[1..][1..]));
  }

  lemma {:induction false} PlainIsTidy(parts: seq<string>)
    requires parts != [] && forall p :: p in parts ==> Plain(p)
    ensures Tidy(Join(parts, "/"))
  {
    assert Plain(parts[0]);
    hide Lower;
    if |parts| > 1 {
      PlainIsTidy(parts[1..]);
      JoinOfPlain(parts[1..]);
      var rest := Join(parts[1..], "/");
      var all := parts[0] + "/" + rest;
      forall i | 0 <= i < |all| - 1 ensures !(all[i] == '/' && all[i + 1] == '/') {
        if i < |parts[0]| {
          assert all[i] == parts[0][i] && parts[0][i] in parts[0];
        } else if i > |parts[0]| {
          assert all[i] == rest[i - |parts[0]| - 1] && all[i + 1] == rest[i - |parts[0]|];
        }
      }
    } else {
      forall i | 0 <= i < |parts[0]| ensures parts[0][i] != '/' {
        assert parts[0][i] in parts[0];
      }
    }
  }

  /** Normalized values are tidy, so the facts about globs apply to them. */
  lemma NormalizedIsTidy(value: string)
    requires Normalize(value).Ok?
    ensures Tidy(Normalize(value).value)
  {
    NormalizedIsPlain(value);
    JoinOfSplit(Normalize(value).value);
    hide Split, Lower, Normalize, Tidy;
    PlainIsTidy(Split(Normalize(value).value));
  }
}
