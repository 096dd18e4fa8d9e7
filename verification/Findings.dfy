/** The finding record and its enumerations (findings/enums.rs, findings/types.rs).
    `taxonomy_tags` and `user_taxonomy` never feed any decision and are not modelled. */
module Findings {
  import opened Orders

  datatype RecommendedAction = Log | RequireApproval | Block

  datatype Severity = Low | Medium | High | Critical

  datatype SignalClass = Hygiene | SuspiciousPackageBehavior | MaliciousBehavior | ReviewSignal

  datatype ArtifactScope = AgentEntrypoint | PackageRootArtifact | SupportingArtifact

  datatype EvidenceKind = Ioc | Behavior | Intent | Context

  datatype OperationalContext = Install | Network | Secrets | CodeModification | ExternalComms

  datatype ThreatCategory =
    | RemoteExec
    | SupplyChain
    | PersistentPromptTampering
    | CredentialExposure
    | ToolAbuse
    | AutonomyEscalation
    | PrivilegeEscalation
    | DataExfiltration
    | PersuasiveLanguage
    | SocialManipulation
    | ScopeCreep
    | Obfuscation
    | UnsafeBinary
    | Generic

  datatype ArtifactKind =
    | SkillDocument
    | AgentInstruction
    | PromptPackDocument
    | McpServerManifest
    | CodeSnippet
    | ReferencedArtifact
    | PackageManifest
    | Lockfile
    | GenericArtifact

  datatype MatchTarget =
    | Document
    | Section(name: string)
    | CodeBlock(language: Option<string>)
    | ReferencedFile(path: string)

  datatype SuppressionRecord = SuppressionRecord(kind: string, ruleId: string, reason: Option<string>)

  datatype Finding = Finding(
    ruleId: string,
    category: ThreatCategory,
    severity: Severity,
    confidence: real,
    rawConfidence: real,
    confidenceRationale: string,
    matchedOn: MatchTarget,
    matchValue: string,
    reason: string,
    remediation: string,
    recommendedAction: RecommendedAction,
    evidenceKind: EvidenceKind,
    artifactKind: ArtifactKind,
    artifactScope: ArtifactScope,
    signalClass: SignalClass,
    artifactPath: Option<string>,
    operationalContexts: seq<OperationalContext>,
    lineNumber: Option<nat>,
    suppression: Option<SuppressionRecord>)

  // ---- Derived orders: the declaration order of each enumeration ----

  function ActionRank(a: RecommendedAction): nat {
    match a case Log => 0 case RequireApproval => 1 case Block => 2
  }

  function MaxAction(a: RecommendedAction, b: RecommendedAction): RecommendedAction {
    if ActionRank(a) < ActionRank(b) then b else a
  }

  function SeverityRank(s: Severity): nat {
    match s case Low => 0 case Medium => 1 case High => 2 case Critical => 3
  }

  function SignalRank(s: SignalClass): nat {
    match s
    case Hygiene => 0
    case SuspiciousPackageBehavior => 1
    case MaliciousBehavior => 2
    case ReviewSignal => 3
  }

  function ScopeRank(s: ArtifactScope): nat {
    match s case AgentEntrypoint => 0 case PackageRootArtifact => 1 case SupportingArtifact => 2
  }

  function CategoryRank(c: ThreatCategory): nat {
    match c
    case RemoteExec => 0
    case SupplyChain => 1
    case PersistentPromptTampering => 2
    case CredentialExposure => 3
    case ToolAbuse => 4
    case AutonomyEscalation => 5
    case PrivilegeEscalation => 6
    case DataExfiltration => 7
    case PersuasiveLanguage => 8
    case SocialManipulation => 9
    case ScopeCreep => 10
    case Obfuscation => 11
    case UnsafeBinary => 12
    case Generic => 13
  }

  function KindRank(k: ArtifactKind): nat {
    match k
    case SkillDocument => 0
    case AgentInstruction => 1
    case PromptPackDocument => 2
    case McpServerManifest => 3
    case CodeSnippet => 4
    case ReferencedArtifact => 5
    case PackageManifest => 6
    case Lockfile => 7
    case GenericArtifact => 8
  }

  const SCOPES := [AgentEntrypoint, PackageRootArtifact, SupportingArtifact]
  const SIGNALS := [Hygiene, SuspiciousPackageBehavior, MaliciousBehavior, ReviewSignal]
  const CATEGORIES := [RemoteExec, SupplyChain, PersistentPromptTampering, CredentialExposure, ToolAbuse,
                       AutonomyEscalation, PrivilegeEscalation, DataExfiltration, PersuasiveLanguage,
                       SocialManipulation, ScopeCreep, Obfuscation, UnsafeBinary, Generic]
  const KINDS := [SkillDocument, AgentInstruction, PromptPackDocument, McpServerManifest, CodeSnippet,
                  ReferencedArtifact, PackageManifest, Lockfile, GenericArtifact]

  /** Each rank is the place in the declaration. */
  lemma RanksFollowDeclarations(s: ArtifactScope, c: ThreatCategory, g: SignalClass, k: ArtifactKind)
    ensures ScopeRank(s) < |SCOPES| && SCOPES[ScopeRank(s)] == s
    ensures CategoryRank(c) < |CATEGORIES| && CATEGORIES[CategoryRank(c)] == c
    ensures SignalRank(g) < |SIGNALS| && SIGNALS[SignalRank(g)] == g
    ensures KindRank(k) < |KINDS| && KINDS[KindRank(k)] == k
  {
  }

  /** `ArtifactKind::specificity`: the tier used when an artifact is registered twice. */
  function Specificity(k: ArtifactKind): nat {
    match k
    case GenericArtifact => 0
    case CodeSnippet => 1
    case ReferencedArtifact => 2
    case PromptPackDocument => 2
    case SkillDocument => 3
    case AgentInstruction => 3
    case PackageManifest => 4
    case McpServerManifest => 4
    case Lockfile => 4
  }

  /** A finding with the given decision-relevant fields and neutral prose. */
  function Example(ruleId: string, category: ThreatCategory, signalClass: SignalClass,
                   action: RecommendedAction, path: Option<string>, line: Option<nat>): Finding
  {
    Finding(ruleId, category, Medium, 0.5, 0.5, "", Document, "", "", "", action, Behavior, SkillDocument,
            PackageRootArtifact, signalClass, path, [], line, None)
  }
}
