/** The artifact graph store (artifact_graph.rs): two growing lists with merge-on-insert. */
module ArtifactGraphs {
  import opened Orders
  import opened Findings

  datatype ArtifactCapability =
    | BrowserAccess | NetworkAccess | InstallExecution | ExposesBinary | PrivilegedRuntime | HostFilesystemAccess
    | ProcessExecution | SecretAccess | PersistenceSurface | FilesystemWrite | IdentityAccess | InboundNetworkSurface

  datatype CapabilitySource = Declared | Observed

  datatype CapabilityFact = CapabilityFact(capability: ArtifactCapability, source: CapabilitySource)

  datatype ArtifactNode = ArtifactNode(path: string, kind: ArtifactKind, capabilities: seq<CapabilityFact>)

  datatype EndpointKind = Remote | Registry | Transient | ControlPlane | Local

  datatype ArtifactRelation =
    | References | Contains | Locks | Downloads | Executes | Loads | Persists | Mounts | ConnectsTo | Reads | Writes
    | AccessesSecrets

  datatype ArtifactEdge = ArtifactEdge(
    from: string, to: string, relation: ArtifactRelation, endpointKind: Option<EndpointKind>)

  /** The identity of an edge: its annotation is not part of it. */
  datatype Triple = Triple(from: string, to: string, relation: ArtifactRelation)

  function TripleOf(e: ArtifactEdge): Triple { Triple(e.from, e.to, e.relation) }

  function EndpointRank(kind: Option<EndpointKind>): nat {
    match kind
    case Some(ControlPlane) => 5
    case Some(Transient) => 4
    case Some(Remote) => 3
    case Some(Local) => 2
    case Some(Registry) => 1
    case None => 0
  }

  function UpgradeEndpointKind(existing: Option<EndpointKind>, incoming: Option<EndpointKind>): Option<EndpointKind> {
    if EndpointRank(incoming) > EndpointRank(existing) then incoming else existing
  }

  // ---- Inserts as values ----

  datatype Insert =
    | NodeInsert(path: string, kind: ArtifactKind, capabilities: seq<CapabilityFact>)
    | EdgeInsert(triple: Triple, endpointKind: Option<EndpointKind>)

  datatype Store = Store(nodes: seq<ArtifactNode>, edges: seq<ArtifactEdge>)

  const EMPTY := Store([], [])

  function NodeIndex(nodes: seq<ArtifactNode>, path: string): (i: nat)
    ensures i <= |nodes|
    ensures forall j :: 0 <= j < i ==> nodes[j].path != path
    ensures i < |nodes| ==> nodes[i].path == path
  {
    if nodes == [] || nodes[0].path == path then 0 else 1 + NodeIndex(nodes[1..], path)
  }

  function EdgeIndex(edges: seq<ArtifactEdge>, t: Triple): (i: nat)
    ensures i <= |edges|
    ensures forall j :: 0 <= j < i ==> TripleOf(edges[j]) != t
    ensures i < |edges| ==> TripleOf(edges[i]) == t
  {
    if edges == [] || TripleOf(edges[0]) == t then 0 else 1 + EdgeIndex(edges[1..], t)
  }

  function MergeFacts(facts: seq<CapabilityFact>, more: seq<CapabilityFact>): seq<CapabilityFact> {
    if more == [] then facts
    else
      var merged := MergeFacts(facts, more[..|more| - 1]);
      var fact := more[|more| - 1];
      if fact in merged then merged else merged + [fact]
  }

  function MergeNode(node: ArtifactNode, kind: ArtifactKind, capabilities: seq<CapabilityFact>): ArtifactNode {
    node.(kind := if Specificity(kind) > Specificity(node.kind) then kind else node.kind,
          capabilities := MergeFacts(node.capabilities, capabilities))
  }

  function Apply(s: Store, op: Insert): Store {
    match op
    case NodeInsert(path, kind, capabilities) =>
      var i := NodeIndex(s.nodes, path);
      if i < |s.nodes| then s.(nodes := s.nodes[i := MergeNode(s.nodes[i], kind, capabilities)])
      else s.(nodes := s.nodes + [ArtifactNode(path, kind, capabilities)])
    case EdgeInsert(t, endpointKind) =>
      var i := EdgeIndex(s.edges, t);
      if i < |s.edges| then
        var e := s.edges[i];
        s.(edges := s.edges[i := e.(endpointKind := UpgradeEndpointKind(e.endpointKind, endpointKind))])
      else s.(edges := s.edges + [ArtifactEdge(t.from, t.to, t.relation, endpointKind)])
  }

  function RunFrom(s: Store, ops: seq<Insert>): Store {
    if ops == [] then s else Apply(RunFrom(s, ops[..|ops| - 1]), ops[|ops| - 1])
  }

  function Run(ops: seq<Insert>): Store { RunFrom(EMPTY, ops) }

  // ---- The mutable store ----

  class ArtifactGraph {
    var nodes: seq<ArtifactNode>
    var edges: seq<ArtifactEdge>

    function View(): Store
      reads this
    {
      Store(nodes, edges)
    }

    constructor ()
      ensures View() == EMPTY
    {
      nodes, edges := [], [];
    }

    method AddNode(path: string, kind: ArtifactKind)
      modifies this
      ensures View() == Apply(old(View()), NodeInsert(path, kind, []))
    {
      AddNodeWithCapabilities(path, kind, []);
    }

    method AddNodeWithCapabilities(path: string, kind: ArtifactKind, capabilities: seq<CapabilityFact>)
      modifies this
      ensures View() == Apply(old(View()), NodeInsert(path, kind, capabilities))
    {
      var i := 0;
      while i < |nodes| && nodes[i].path != path
        invariant i <= |nodes|
        invariant forall j :: 0 <= j < i ==> nodes[j].path != path
        invariant nodes == old(nodes) && edges == old(edges)
      {
        i := i + 1;
      }
      assert i == NodeIndex(nodes, path);
      if i < |nodes| {
        var existing := nodes[i];
        if Specificity(kind) > Specificity(existing.kind) {
          existing := existing.(kind := kind);
        }
        for n := 0 to |capabilities|
          invariant existing == MergeNode(nodes[i], kind, capabilities[..n])
          invariant nodes == old(nodes) && edges == old(edges)
        {
          assert capabilities[..n + 1][..n] == capabilities[..n];
          if capabilities[n] !in existing.capabilities {
            existing := existing.(capabilities := existing.capabilities + [capabilities[n]]);
          }
        }
        assert capabilities[..|capabilities|] == capabilities;
        nodes := nodes[i := existing];
        return;
      }
      nodes := nodes + [ArtifactNode(path, kind, capabilities)];
    }

    method AddEdge(from: string, to: string, relation: ArtifactRelation)
      modifies this
      ensures View() == Apply(old(View()), EdgeInsert(Triple(from, to, relation), None))
    {
      AddEdgeWithEndpoint(from, to, relation, None);
    }

    method AddEdgeWithEndpoint(from: string, to: string, relation: ArtifactRelation, endpointKind: Option<EndpointKind>)
      modifies this
      ensures View() == Apply(old(View()), EdgeInsert(Triple(from, to, relation), endpointKind))
    {
      var i := 0;
      while i < |edges| && !(edges[i].from == from && edges[i].to == to && edges[i].relation == relation)
        invariant i <= |edges|
        invariant forall j :: 0 <= j < i ==> TripleOf(edges[j]) != Triple(from, to, relation)
        invariant nodes == old(nodes) && edges == old(edges)
      {
        i := i + 1;
      }
      assert i == EdgeIndex(edges, Triple(from, to, relation));
      if i < |edges| {
        edges := edges[i := edges[i].(endpointKind := UpgradeEndpointKind(edges[i].endpointKind, endpointKind))];
        return;
      }
      edges := edges + [ArtifactEdge(from, to, relation, endpointKind)];
    }
  }

  // ---- Uniqueness after any run ----

  ghost predicate UniquePaths(nodes: seq<ArtifactNode>) {
    forall i, j :: 0 <= i < j < |nodes| ==> nodes[i].path != nodes[j].path
  }

  ghost predicate UniqueTriples(edges: seq<ArtifactEdge>) {
    forall i, j :: 0 <= i < j < |edges| ==> TripleOf(edges[i]) != TripleOf(edges[j])
  }

  lemma ApplyKeepsUnique(s: Store, op: Insert)
    requires UniquePaths(s.nodes) && UniqueTriples(s.edges)
    ensures UniquePaths(Apply(s, op).nodes) && UniqueTriples(Apply(s, op).edges)
  {
  }

  /** No run of inserts ever stores one path, or one (from, to, relation) triple, twice. */
  lemma {:induction false} RunIsUnique(ops: seq<Insert>)
    ensures UniquePaths(Run(ops).nodes) && UniqueTriples(Run(ops).edges)
  {
    if ops != [] {
      RunIsUnique(ops[..|ops| - 1]);
      ApplyKeepsUnique(Run(ops[..|ops| - 1]), ops[|ops| - 1]);
    }
  }

  // ---- The store as a map ----

  function NodeAt(s: Store, path: string): Option<ArtifactNode> {
    var i := NodeIndex(s.nodes, path);
    if i < |s.nodes| then Some(s.nodes[i]) else None
  }

  function EdgeAt(s: Store, t: Triple): Option<ArtifactEdge> {
    var i := EdgeIndex(s.edges, t);
    if i < |s.edges| then Some(s.edges[i]) else None
  }

  /** Every kind and every fact list ever supplied for `path`, in order. */
  function KindsFor(ops: seq<Insert>, path: string): seq<ArtifactKind> {
    if ops == [] then []
    else
      var op := ops[|ops| - 1];
      KindsFor(ops[..|ops| - 1], path) + (if op.NodeInsert? && op.path == path then [op.kind] else [])
  }

  function FactsFor(ops: seq<Insert>, path: string): seq<CapabilityFact> {
    if ops == [] then []
    else
      var op := ops[|ops| - 1];
      FactsFor(ops[..|ops| - 1], path) + (if op.NodeInsert? && op.path == path then op.capabilities else [])
  }

  /** Every annotation ever supplied for an edge. */
  function EndpointsFor(ops: seq<Insert>, t: Triple): seq<Option<EndpointKind>> {
    if ops == [] then []
    else
      var op := ops[|ops| - 1];
      EndpointsFor(ops[..|ops| - 1], t) + (if op.EdgeInsert? && op.triple == t then [op.endpointKind] else [])
  }

  /** `kind` is the first element of `kinds` with the greatest specificity. */
  ghost predicate FirstMostSpecific(kinds: seq<ArtifactKind>, kind: ArtifactKind) {
    exists i :: 0 <= i < |kinds| && kinds[i] == kind
      && (forall j :: 0 <= j < |kinds| ==> Specificity(kinds[j]) <= Specificity(kind))
      && (forall j :: 0 <= j < i ==> Specificity(kinds[j]) < Specificity(kind))
  }

  ghost predicate HighestRanked(endpoints: seq<Option<EndpointKind>>, kind: Option<EndpointKind>) {
    kind in endpoints && forall e :: e in endpoints ==> EndpointRank(e) <= EndpointRank(kind)
  }

  lemma {:induction false} MergeFactsMembers(facts: seq<CapabilityFact>, more: seq<CapabilityFact>)
    ensures forall f :: f in MergeFacts(facts, more) <==> f in facts || f in more
  {
    if more != [] {
      MergeFactsMembers(facts, more[..|more| - 1]);
      assert more == more[..|more| - 1] + [more[|more| - 1]];
    }
  }

  lemma FirstMostSpecificStep(kinds: seq<ArtifactKind>, old': ArtifactKind, kind: ArtifactKind)
    requires FirstMostSpecific(kinds, old')
    ensures FirstMostSpecific(kinds + [kind], if Specificity(kind) > Specificity(old') then kind else old')
  {
    var i :| 0 <= i < |kinds| && kinds[i] == old'
      && (forall j :: 0 <= j < |kinds| ==> Specificity(kinds[j]) <= Specificity(old'))
      && (forall j :: 0 <= j < i ==> Specificity(kinds[j]) < Specificity(old'));
    var more := kinds + [kind];
    var w := if Specificity(kind) > Specificity(old') then |kinds| else i;
    assert more[w] == if Specificity(kind) > Specificity(old') then kind else old';
    assert forall j :: 0 <= j < |more| ==> Specificity(more[j]) <= Specificity(more[w]);
    assert forall j :: 0 <= j < w ==> Specificity(more[j]) < Specificity(more[w]);
  }

  lemma FirstMostSpecificOne(kind: ArtifactKind)
    ensures FirstMostSpecific([kind], kind)
  {
    assert [kind][0] == kind;
  }

  lemma FirstMostSpecificIsMax(kinds: seq<ArtifactKind>, kind: ArtifactKind)
    requires FirstMostSpecific(kinds, kind)
    ensures kind in kinds && forall k :: k in kinds ==> Specificity(k) <= Specificity(kind)
  {
  }

  /** How one insert changes what is stored at one path. */
  lemma NodeAtStep(s: Store, op: Insert, path: string)
    ensures NodeAt(Apply(s, op), path)
         == if op.NodeInsert? && op.path == path then
              (match NodeAt(s, path)
               case Some(node) => Some(MergeNode(node, op.kind, op.capabilities))
               case None => Some(ArtifactNode(path, op.kind, op.capabilities)))
            else NodeAt(s, path)
  {
    if op.NodeInsert? {
      var s' := Apply(s, op);
      var i, i' := NodeIndex(s.nodes, path), NodeIndex(s'.nodes, path);
      assert forall j :: 0 <= j < |s.nodes| ==> s'.nodes[j].path == s.nodes[j].path;
      if i < |s.nodes| {
        assert i' == i;
      } else if |s'.nodes| > |s.nodes| {
        assert s'.nodes[|s.nodes|].path == op.path;
      }
    }
  }

  lemma EdgeAtStep(s: Store, op: Insert, t: Triple)
    ensures EdgeAt(Apply(s, op), t)
         == if op.EdgeInsert? && op.triple == t then
              (match EdgeAt(s, t)
               case Some(e) => Some(e.(endpointKind := UpgradeEndpointKind(e.endpointKind, op.endpointKind)))
               case None => Some(ArtifactEdge(t.from, t.to, t.relation, op.endpointKind)))
            else EdgeAt(s, t)
  {
    if op.EdgeInsert? {
      var s' := Apply(s, op);
      var i, i' := EdgeIndex(s.edges, t), EdgeIndex(s'.edges, t);
      assert forall j :: 0 <= j < |s.edges| ==> TripleOf(s'.edges[j]) == TripleOf(s.edges[j]);
      if i < |s.edges| {
        assert i' == i;
      } else if |s'.edges| > |s.edges| {
        assert TripleOf(s'.edges[|s.edges|]) == op.triple;
      }
    }
  }

  /** What `node` must be after `ops`, said without running them. */
  ghost predicate Summarises(ops: seq<Insert>, path: string, node: ArtifactNode) {
    && node.path == path
    && FirstMostSpecific(KindsFor(ops, path), node.kind)
    && (forall f :: f in node.capabilities <==> f in FactsFor(ops, path))
  }

  /** A path is stored iff it was inserted; its kind is the first most specific one, its facts the union. */
  lemma {:induction false} NodeStoreIsMap(ops: seq<Insert>, path: string)
    ensures NodeAt(Run(ops), path).Some? <==> KindsFor(ops, path) != []
    ensures NodeAt(Run(ops), path).Some? ==> Summarises(ops, path, NodeAt(Run(ops), path).value)
    ensures NodeAt(Run(ops), path).None? ==> FactsFor(ops, path) == []
  {
    if ops != [] {
      var init, op := ops[..|ops| - 1], ops[|ops| - 1];
      NodeStoreIsMap(init, path);
      NodeAtStep(Run(init), op, path);
      if op.NodeInsert? && op.path == path {
        var before := NodeAt(Run(init), path);
        if before.Some? {
          FirstMostSpecificStep(KindsFor(init, path), before.value.kind, op.kind);
          MergeFactsMembers(before.value.capabilities, op.capabilities);
        } else {
          FirstMostSpecificOne(op.kind);
          assert KindsFor(ops, path) == [op.kind];
        }
        assert KindsFor(ops, path) == KindsFor(init, path) + [op.kind];
      } else {
        assert KindsFor(ops, path) == KindsFor(init, path);
        assert FactsFor(ops, path) == FactsFor(init, path);
      }
    }
  }

  /** An edge is stored iff its triple was inserted; its annotation is the highest-ranked ever supplied. */
  lemma {:induction false} EdgeStoreIsMap(ops: seq<Insert>, t: Triple)
    ensures EdgeAt(Run(ops), t).Some? <==> EndpointsFor(ops, t) != []
    ensures EdgeAt(Run(ops), t).Some? ==> HighestRanked(EndpointsFor(ops, t), EdgeAt(Run(ops), t).value.endpointKind)
  {
    if ops != [] {
      var init, op := ops[..|ops| - 1], ops[|ops| - 1];
      EdgeStoreIsMap(init, t);
      EdgeAtStep(Run(init), op, t);
    }
  }

  // ---- Order of inserts ----

  lemma {:induction false} EndpointMembers(ops: seq<Insert>, t: Triple)
    ensures forall e :: e in EndpointsFor(ops, t) <==> EdgeInsert(t, e) in ops
  {
    if ops != [] {
      EndpointMembers(ops[..|ops| - 1], t);
      assert ops == ops[..|ops| - 1] + [ops[|ops| - 1]];
    }
  }

  lemma {:induction false} KindMembers(ops: seq<Insert>, path: string)
    ensures forall k :: k in KindsFor(ops, path) <==> exists c :: NodeInsert(path, k, c) in ops
  {
    if ops != [] {
      var init, op := ops[..|ops| - 1], ops[|ops| - 1];
      KindMembers(init, path);
      assert ops == init + [op];
      forall k ensures k in KindsFor(ops, path) <==> exists c :: NodeInsert(path, k, c) in ops {
        if op.NodeInsert? && op.path == path && op.kind == k {
          assert NodeInsert(path, k, op.capabilities) in ops;
        }
        if k in KindsFor(init, path) {
          var c :| NodeInsert(path, k, c) in init;
          assert NodeInsert(path, k, c) in ops;
        }
      }
    }
  }

  lemma {:induction false} FactMembers(ops: seq<Insert>, path: string)
    ensures forall f :: f in FactsFor(ops, path) <==> exists k, c :: NodeInsert(path, k, c) in ops && f in c
  {
    if ops != [] {
      var init, op := ops[..|ops| - 1], ops[|ops| - 1];
      FactMembers(init, path);
      assert ops == init + [op];
      forall f ensures f in FactsFor(ops, path) <==> exists k, c :: NodeInsert(path, k, c) in ops && f in c {
        if op.NodeInsert? && op.path == path && f in op.capabilities {
          assert NodeInsert(path, op.kind, op.capabilities) in ops;
        }
        if f in FactsFor(init, path) {
          var k, c :| NodeInsert(path, k, c) in init && f in c;
          assert NodeInsert(path, k, c) in ops;
        }
      }
    }
  }

  /** The annotation of a stored edge: a control plane if one was ever supplied, else a transient
      endpoint, a remote one, a local one, a registry, or nothing. */
  lemma EdgePriority(ops: seq<Insert>, t: Triple)
    requires EdgeAt(Run(ops), t).Some?
    ensures EdgeAt(Run(ops), t).value.endpointKind
         == if EdgeInsert(t, Some(ControlPlane)) in ops then Some(ControlPlane)
            else if EdgeInsert(t, Some(Transient)) in ops then Some(Transient)
            else if EdgeInsert(t, Some(Remote)) in ops then Some(Remote)
            else if EdgeInsert(t, Some(Local)) in ops then Some(Local)
            else if EdgeInsert(t, Some(Registry)) in ops then Some(Registry)
            else None
  {
    EdgeStoreIsMap(ops, t);
    EndpointMembers(ops, t);
  }

  ghost predicate SuppliedAs(ops: seq<Insert>, path: string, kinds: set<ArtifactKind>) {
    exists k, c :: k in kinds && NodeInsert(path, k, c) in ops
  }

  lemma SuppliedIff(ops: seq<Insert>, path: string, tier: set<ArtifactKind>)
    ensures SuppliedAs(ops, path, tier) <==> exists k :: k in tier && k in KindsFor(ops, path)
  {
    KindMembers(ops, path);
  }

  ghost function FirstTier(ops: seq<Insert>, path: string): set<ArtifactKind> {
    if SuppliedAs(ops, path, {PackageManifest, McpServerManifest, Lockfile})
    then {PackageManifest, McpServerManifest, Lockfile}
    else if SuppliedAs(ops, path, {SkillDocument, AgentInstruction}) then {SkillDocument, AgentInstruction}
    else if SuppliedAs(ops, path, {ReferencedArtifact, PromptPackDocument})
    then {ReferencedArtifact, PromptPackDocument}
    else if SuppliedAs(ops, path, {CodeSnippet}) then {CodeSnippet}
    else {GenericArtifact}
  }

  lemma FirstTierIsMostSpecific(ops: seq<Insert>, path: string, kind: ArtifactKind)
    requires kind in KindsFor(ops, path)
    requires forall k :: k in KindsFor(ops, path) ==> Specificity(k) <= Specificity(kind)
    ensures kind in FirstTier(ops, path)
    ensures forall k :: k in FirstTier(ops, path) ==> Specificity(k) == Specificity(kind)
  {
    hide SuppliedAs;
    SuppliedIff(ops, path, {PackageManifest, McpServerManifest, Lockfile});
    SuppliedIff(ops, path, {SkillDocument, AgentInstruction});
    SuppliedIff(ops, path, {ReferencedArtifact, PromptPackDocument});
    SuppliedIff(ops, path, {CodeSnippet});
  }

  /** The kind of a stored node is the first one supplied from the first of these tiers that was
      supplied at all: manifests and lockfiles, then documents and instructions, then references and
      prompt packs, then snippets. */
  lemma KindPriority(ops: seq<Insert>, path: string)
    requires NodeAt(Run(ops), path).Some?
    ensures var kind := NodeAt(Run(ops), path).value.kind;
            exists i :: 0 <= i < |KindsFor(ops, path)| && KindsFor(ops, path)[i] == kind && kind in FirstTier(ops, path)
                     && forall j :: 0 <= j < i ==> KindsFor(ops, path)[j] !in FirstTier(ops, path)
  {
    hide SuppliedAs, FirstTier, NodeAt, KindsFor, Specificity;
    var kinds, kind := KindsFor(ops, path), NodeAt(Run(ops), path).value.kind;
    NodeStoreIsMap(ops, path);
    FirstMostSpecificIsMax(kinds, kind);
    FirstTierIsMostSpecific(ops, path, kind);
    var i :| 0 <= i < |kinds| && kinds[i] == kind
      && (forall j :: 0 <= j < |kinds| ==> Specificity(kinds[j]) <= Specificity(kind))
      && (forall j :: 0 <= j < i ==> Specificity(kinds[j]) < Specificity(kind));
    assert forall j :: 0 <= j < i ==> kinds[j] !in FirstTier(ops, path);
  }

  lemma RankIsInjective(a: Option<EndpointKind>, b: Option<EndpointKind>)
    requires EndpointRank(a) == EndpointRank(b)
    ensures a == b
  {
  }

  /** Whatever order the edge inserts arrive in, the stored edge is the same. */
  lemma EdgesIgnoreOrder(ops: seq<Insert>, qs: seq<Insert>, t: Triple)
    requires multiset(ops) == multiset(qs)
    ensures EdgeAt(Run(ops), t) == EdgeAt(Run(qs), t)
  {
    SameMembers(ops, qs);
    EdgeStoreIsMap(ops, t);
    EdgeStoreIsMap(qs, t);
    EndpointMembers(ops, t);
    EndpointMembers(qs, t);
    if EndpointsFor(ops, t) != [] { HasMember(EndpointsFor(ops, t)); }
    if EndpointsFor(qs, t) != [] { HasMember(EndpointsFor(qs, t)); }
    if EdgeAt(Run(ops), t).Some? {
      RankIsInjective(EdgeAt(Run(ops), t).value.endpointKind, EdgeAt(Run(qs), t).value.endpointKind);
    }
  }

  /** Reordering node inserts keeps the stored paths, the specificity reached and the fact set. */
  lemma NodesIgnoreOrderUpToTier(ops: seq<Insert>, qs: seq<Insert>, path: string)
    requires multiset(ops) == multiset(qs)
    ensures NodeAt(Run(ops), path).Some? <==> NodeAt(Run(qs), path).Some?
    ensures NodeAt(Run(ops), path).Some? ==>
              var a, b := NodeAt(Run(ops), path).value, NodeAt(Run(qs), path).value;
              Specificity(a.kind) == Specificity(b.kind)
              && (forall f :: f in a.capabilities <==> f in b.capabilities)
  {
    SameMembers(ops, qs);
    NodeStoreIsMap(ops, path);
    NodeStoreIsMap(qs, path);
    KindMembers(ops, path);
    KindMembers(qs, path);
    FactMembers(ops, path);
    FactMembers(qs, path);
    var a, b := KindsFor(ops, path), KindsFor(qs, path);
    assert forall k :: k in a <==> k in b;
    if a != [] { HasMember(a); }
    if b != [] { HasMember(b); }
    if a != [] {
      FirstMostSpecificIsMax(a, NodeAt(Run(ops), path).value.kind);
      FirstMostSpecificIsMax(b, NodeAt(Run(qs), path).value.kind);
    }
  }

  /** Every kind supplied at the tier of `kind` is `kind`. */
  ghost predicate AloneInTier(kinds: seq<ArtifactKind>, kind: ArtifactKind) {
    forall k :: k in kinds && Specificity(k) == Specificity(kind) ==> k == kind
  }

  ghost predicate StoresKind(ops: seq<Insert>, path: string, kind: ArtifactKind) {
    NodeAt(Run(ops), path).Some? && NodeAt(Run(ops), path).value.kind == kind
  }

  lemma {:induction false} KindsForFirst(op: Insert, rest: seq<Insert>, path: string)
    requires op.NodeInsert? && op.path == path
    ensures KindsFor([op] + rest, path) == [op.kind] + KindsFor(rest, path)
  {
    var ops := [op] + rest;
    if rest == [] {
      assert ops == [op] && ops[..0] == [];
    } else {
      KindsForFirst(op, rest[..|rest| - 1], path);
      assert ops[..|ops| - 1] == [op] + rest[..|rest| - 1];
    }
  }

  /** A kind of the highest tier that is inserted first is the one stored. */
  lemma FirstAtTopIsStored(op: Insert, rest: seq<Insert>, path: string)
    requires op.NodeInsert? && op.path == path
    requires forall k :: k in KindsFor([op] + rest, path) ==> Specificity(k) <= Specificity(op.kind)
    ensures StoresKind([op] + rest, path, op.kind)
  {
    var kinds := KindsFor([op] + rest, path);
    KindsForFirst(op, rest, path);
    NodeStoreIsMap([op] + rest, path);
    var stored := NodeAt(Run([op] + rest), path).value.kind;
    var i :| 0 <= i < |kinds| && kinds[i] == stored
      && (forall j :: 0 <= j < |kinds| ==> Specificity(kinds[j]) <= Specificity(stored))
      && (forall j :: 0 <= j < i ==> Specificity(kinds[j]) < Specificity(stored));
    assert stored in kinds && kinds[0] == op.kind;
  }

  /** Any insert of a run can be made its first. */
  lemma MovedToFront(ops: seq<Insert>, op: Insert) returns (rest: seq<Insert>)
    requires op in ops
    ensures multiset([op] + rest) == multiset(ops)
  {
    var i :| 0 <= i < |ops| && ops[i] == op;
    rest := ops[..i] + ops[i + 1..];
    assert ops == ops[..i] + [op] + ops[i + 1..];
  }

  lemma SameKinds(ops: seq<Insert>, qs: seq<Insert>, path: string)
    requires multiset(ops) == multiset(qs)
    ensures forall k :: k in KindsFor(ops, path) <==> k in KindsFor(qs, path)
  {
    SameMembers(ops, qs);
    KindMembers(ops, path);
    KindMembers(qs, path);
  }

  lemma AloneIsAlwaysStored(ops: seq<Insert>, qs: seq<Insert>, path: string, kind: ArtifactKind)
    requires multiset(ops) == multiset(qs) && StoresKind(ops, path, kind)
    requires AloneInTier(KindsFor(ops, path), kind)
    ensures StoresKind(qs, path, kind)
  {
    NodesIgnoreOrderUpToTier(ops, qs, path);
    NodeStoreIsMap(qs, path);
    SameKinds(ops, qs, path);
    FirstMostSpecificIsMax(KindsFor(qs, path), NodeAt(Run(qs), path).value.kind);
  }

  lemma SomeRival(ops: seq<Insert>, path: string, kind: ArtifactKind) returns (op: Insert)
    requires StoresKind(ops, path, kind) && !AloneInTier(KindsFor(ops, path), kind)
    ensures op in ops && op.NodeInsert? && op.path == path && op.kind != kind
    ensures forall k :: k in KindsFor(ops, path) ==> Specificity(k) <= Specificity(op.kind)
  {
    NodeStoreIsMap(ops, path);
    FirstMostSpecificIsMax(KindsFor(ops, path), kind);
    var rival :| rival in KindsFor(ops, path) && Specificity(rival) == Specificity(kind) && rival != kind;
    KindMembers(ops, path);
    var c :| NodeInsert(path, rival, c) in ops;
    op := NodeInsert(path, rival, c);
  }

  lemma RivalCanBeStored(ops: seq<Insert>, path: string, kind: ArtifactKind) returns (qs: seq<Insert>)
    requires StoresKind(ops, path, kind) && !AloneInTier(KindsFor(ops, path), kind)
    ensures multiset(qs) == multiset(ops) && !StoresKind(qs, path, kind)
  {
    var op := SomeRival(ops, path, kind);
    var rest := MovedToFront(ops, op);
    qs := [op] + rest;
    SameKinds(ops, qs, path);
    FirstAtTopIsStored(op, rest, path);
  }

  /** The stored kind is the same in every order exactly when the highest tier supplied for the path
      holds one kind only. */
  lemma KindIgnoresOrderIff(ops: seq<Insert>, path: string, kind: ArtifactKind)
    requires StoresKind(ops, path, kind)
    ensures (forall qs :: multiset(qs) == multiset(ops) ==> StoresKind(qs, path, kind))
       <==> AloneInTier(KindsFor(ops, path), kind)
  {
    if AloneInTier(KindsFor(ops, path), kind) {
      forall qs | multiset(qs) == multiset(ops) ensures StoresKind(qs, path, kind) {
        AloneIsAlwaysStored(ops, qs, path, kind);
      }
    } else {
      var qs := RivalCanBeStored(ops, path, kind);
    }
  }

  // ---- Duplicate facts ----

  /** The fact list of the first insert of `path`: the only one stored without a duplicate test. */
  function FirstFacts(ops: seq<Insert>, path: string): seq<CapabilityFact> {
    if ops == [] then []
    else if KindsFor(ops[..|ops| - 1], path) != [] then FirstFacts(ops[..|ops| - 1], path)
    else
      var op := ops[|ops| - 1];
      if op.NodeInsert? && op.path == path then op.capabilities else []
  }

  lemma SnocDuplicates<T>(s: seq<T>, x: T)
    requires x !in s
    ensures NoDuplicates(s + [x]) <==> NoDuplicates(s)
  {
    var more := s + [x];
    assert forall i :: 0 <= i < |s| ==> more[i] == s[i];
    if NoDuplicates(more) {
      forall i, j | 0 <= i < j < |s| ensures s[i] != s[j] {
        assert more[i] != more[j];
      }
    }
  }

  lemma {:induction false} MergeFactsDuplicates(facts: seq<CapabilityFact>, more: seq<CapabilityFact>)
    ensures NoDuplicates(MergeFacts(facts, more)) <==> NoDuplicates(facts)
    ensures facts <= MergeFacts(facts, more)
  {
    if more != [] {
      var f := more[|more| - 1];
      MergeFactsDuplicates(facts, more[..|more| - 1]);
      var before := MergeFacts(facts, more[..|more| - 1]);
      if f !in before {
        SnocDuplicates(before, f);
      }
    }
  }

  /** A node lists a fact twice exactly when the very first insert of its path already did. */
  lemma {:induction false} DuplicateFactsIff(ops: seq<Insert>, path: string)
    requires KindsFor(ops, path) != []
    ensures NodeAt(Run(ops), path).Some?
    ensures NoDuplicates(NodeAt(Run(ops), path).value.capabilities) <==> NoDuplicates(FirstFacts(ops, path))
  {
    var init, op := ops[..|ops| - 1], ops[|ops| - 1];
    NodeStoreIsMap(ops, path);
    NodeStoreIsMap(init, path);
    NodeAtStep(Run(init), op, path);
    if KindsFor(init, path) != [] {
      DuplicateFactsIff(init, path);
      if op.NodeInsert? && op.path == path {
        MergeFactsDuplicates(NodeAt(Run(init), path).value.capabilities, op.capabilities);
      }
    }
  }

  /** The same doubled fact list is stored doubled by a first insert and single by a second one. */
  lemma FirstInsertKeepsDuplicates(path: string, kind: ArtifactKind, fact: CapabilityFact)
    ensures var doubled := NodeInsert(path, kind, [fact, fact]);
            NodeAt(Run([doubled]), path) == Some(ArtifactNode(path, kind, [fact, fact]))
            && NodeAt(Run([NodeInsert(path, kind, []), doubled]), path) == Some(ArtifactNode(path, kind, [fact]))
  {
    var empty, doubled := NodeInsert(path, kind, []), NodeInsert(path, kind, [fact, fact]);
    RunOneMore([], doubled);
    RunOneMore([], empty);
    RunOneMore([empty], doubled);
    assert [] + [doubled] == [doubled] && [] + [empty] == [empty] && [empty] + [doubled] == [empty, doubled];
    NodeAtStep(EMPTY, doubled, path);
    NodeAtStep(EMPTY, empty, path);
    NodeAtStep(Run([empty]), doubled, path);
    assert NodeAt(EMPTY, path) == None;
    MergeTwice(fact);
  }

  lemma RunOneMore(ops: seq<Insert>, op: Insert)
    ensures Run(ops + [op]) == Apply(Run(ops), op) && Run([]) == EMPTY
  {
    assert (ops + [op])[..|ops|] == ops;
  }

  lemma MergeTwice(fact: CapabilityFact)
    ensures MergeFacts([], [fact, fact]) == [fact]
  {
    assert [fact, fact][..1] == [fact] && [fact][..0] == [];
    assert MergeFacts([], [fact]) == [fact];
  }
}
