/** The memory record that the ledger, the resolver and the folding operations share. */
module Memory {
  import opened Common
  import opened Text

  datatype MemoryStatus = Proposed | Current | Superseded | Conflict | Invalid

  predicate IsReadable(status: MemoryStatus) {
    status.Current? || status.Conflict?
  }

  datatype Authority =
    | ExternalDocument
    | DerivedMemory
    | AgentCheckpoint
    | HumanCorrection
    | RawMechanicalEvidence
    | LiveState

  function AuthorityRank(authority: Authority): nat {
    match authority
    case ExternalDocument => 0
    case DerivedMemory => 1
    case AgentCheckpoint => 2
    case HumanCorrection => 3
    case RawMechanicalEvidence => 4
    case LiveState => 5
  }

  datatype MemoryKind =
    | Checkpoint | Decision | Fact | Investigation | Procedure | Deployment | Timeline | Preference | TaskKind

  function KindName(kind: MemoryKind): string {
    match kind
    case Checkpoint => "checkpoint"
    case Decision => "decision"
    case Fact => "fact"
    case Investigation => "investigation"
    case Procedure => "procedure"
    case Deployment => "deployment"
    case Timeline => "timeline"
    case Preference => "preference"
    case TaskKind => "task"
  }

  datatype MemoryScope = Project(project: Uuid) | GlobalPreferences

  /** One version of a memory. `confidence` is a position in the total order of the stored floats. */
  datatype MemoryRecord = MemoryRecord(
    id: Uuid,
    versionId: Uuid,
    scope: MemoryScope,
    kind: MemoryKind,
    title: string,
    content: string,
    validFrom: int,
    validTo: Option<int>,
    recordedAt: int,
    confidence: int,
    authority: Authority,
    evidenceIds: seq<Uuid>,
    supersedes: seq<Uuid>,
    status: MemoryStatus)

  /** The same claim with the same evidence and dates, in whatever version and status. */
  predicate SameClaim(a: MemoryRecord, b: MemoryRecord) {
    && a.id == b.id && a.scope == b.scope && a.kind == b.kind && a.title == b.title && a.content == b.content
    && a.validFrom == b.validFrom && a.validTo == b.validTo && a.confidence == b.confidence && a.authority == b.authority
    && a.evidenceIds == b.evidenceIds
  }

  /** Collapse whitespace to single spaces, dropping it at both ends. */
  function CollapseWhitespace(text: string): string {
    Join(Words(text, []), " ")
  }

  /** The maximal runs of non-whitespace, `word` being the run in progress. */
  function Words(text: string, word: string): seq<string>
    decreases |text|
  {
    if text == [] then (if word == [] then [] else [word])
    else if IsWhitespace(text[0]) then (if word == [] then [] else [word]) + Words(text[1..], [])
    else Words(text[1..], word + [text[0]])
  }

  function SubjectKey(record: MemoryRecord): string {
    KindName(record.kind) + ":" + Lower(CollapseWhitespace(record.title))
  }

  function NormalizeContent(content: string): string {
    Lower(CollapseWhitespace(content))
  }

  function Rank(record: MemoryRecord): nat {
    AuthorityRank(record.authority)
  }

  // ----- Lexicographic order of strings -----

  predicate StringLeq(a: string, b: string) {
    a == [] || (b != [] && (a[0] < b[0] || (a[0] == b[0] && StringLeq(a[1..], b[1..]))))
  }

  predicate StringLess(a: string, b: string) {
    StringLeq(a, b) && a != b
  }

  lemma {:induction false} StringLeqTotal(a: string, b: string)
    ensures StringLeq(a, b) || StringLeq(b, a)
    ensures StringLeq(a, b) && StringLeq(b, a) ==> a == b
    ensures StringLeq(a, a)
    decreases |a| + |b|
  {
    if a != [] && b != [] && a[0] == b[0] {
      StringLeqTotal(a[1..], b[1..]);
      assert a == [a[0]] + a[1..] && b == [b[0]] + b[1..];
    }
    if a != [] && b != a {
      StringLeqTotal(a[1..], []);
    }
    StringLeqReflexive(a);
  }

  lemma {:induction false} StringLeqReflexive(a: string)
    ensures StringLeq(a, a)
  {
    if a != [] {
      StringLeqReflexive(a[1..]);
    }
  }

  lemma {:induction false} StringLeqTransitive(a: string, b: string, c: string)
    requires StringLeq(a, b) && StringLeq(b, c)
    ensures StringLeq(a, c)
  {
    if a != [] && a[0] == b[0] == c[0] {
      StringLeqTransitive(a[1..], b[1..], c[1..]);
    }
  }
}
