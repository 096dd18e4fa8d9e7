/** What a package graph holds, read off the package: every edge, every node, every fact and every kind. */
module GraphContents {
  import opened Orders
  import opened Findings
  import opened ArtifactGraphs
  import opened ScannerGraph

  // ---- The artifacts a package visits ----

  predicate IsManifest(p: Package, path: string) { path in p.manifests && !p.isRootDocument(path) }

  predicate IsReference(p: Package, path: string) { path in p.references && p.resolvesWithinBase(path) }

  ghost predicate IsLockfile(p: Package, path: string) {
    exists m :: IsManifest(p, m) && path in p.lockfiles(m)
  }

  /** The document, its manifests with their lockfiles, and the references that resolve inside the base. */
  ghost predicate Visited(p: Package, path: string) {
    path == p.root || IsManifest(p, path) || IsReference(p, path) || IsLockfile(p, path)
  }

  ghost predicate LinkedFrom(p: Package, source: string, path: string) {
    Visited(p, source) && exists relation :: Link(path, relation) in p.relationsOf(source)
  }

  ghost predicate Linked(p: Package, path: string) {
    exists source :: LinkedFrom(p, source, path)
  }

  ghost predicate HasEdge(p: Package, t: Triple) {
    || (t.from == p.root && t.relation == Contains && IsManifest(p, t.to))
    || (t.from == p.root && t.relation == References && IsReference(p, t.to))
    || (IsManifest(p, t.from) && t.relation == Locks && t.to in p.lockfiles(t.from))
    || (Visited(p, t.from) && Link(t.to, t.relation) in p.relationsOf(t.from))
  }

  // ---- The inserts of each piece ----

  lemma {:induction false} FlatMapMembers<T, U>(f: T -> seq<U>, xs: seq<T>, u: U)
    ensures u in FlatMap(f, xs) <==> exists x :: x in xs && u in f(x)
  {
    if xs != [] {
      var init, last := xs[..|xs| - 1], xs[|xs| - 1];
      FlatMapMembers(f, init, u);
      assert xs == init + [last];
    }
  }

  ghost predicate LinkNode(p: Package, source: string, op: Insert) {
    exists link :: link in p.relationsOf(source) && op == NodeInsert(link.target, p.kindOf(link.target), [])
  }

  ghost predicate LinkEdge(p: Package, source: string, op: Insert) {
    op.EdgeInsert? && op.endpointKind == None && op.triple.from == source
    && Link(op.triple.to, op.triple.relation) in p.relationsOf(source)
  }

  lemma RelationMembers(p: Package, source: string, op: Insert)
    ensures op in RelationInserts(p, source) <==> LinkNode(p, source, op) || LinkEdge(p, source, op)
  {
    var f := (link: Link) => LinkInserts(p, source, link);
    SameFlatMap(f, link => LinkInserts(p, source, link), p.relationsOf(source));
    FlatMapMembers(f, p.relationsOf(source), op);
    if LinkEdge(p, source, op) {
      var link := Link(op.triple.to, op.triple.relation);
      assert op == f(link)[1];
    }
    if link :| link in p.relationsOf(source) && op == NodeInsert(link.target, p.kindOf(link.target), []) {
      assert op == f(link)[0];
    }
    if link :| link in p.relationsOf(source) && op in f(link) {
      assert link == Link(link.target, link.relation);
    }
  }

  ghost predicate ChildOp(p: Package, parent: string, child: string, kind: ArtifactKind, relation: ArtifactRelation,
                          op: Insert)
  {
    || op == NodeInsert(child, kind, p.capabilitiesOf(child))
    || op == EdgeInsert(Triple(parent, child, relation), None)
    || LinkNode(p, child, op) || LinkEdge(p, child, op)
  }

  lemma ChildMembers(p: Package, parent: string, child: string, kind: ArtifactKind, relation: ArtifactRelation,
                     op: Insert)
    ensures op in ChildInserts(p, parent, child, kind, relation) <==> ChildOp(p, parent, child, kind, relation, op)
  {
    RelationMembers(p, child, op);
  }

  ghost predicate LockfileOp(p: Package, m: string, op: Insert) {
    exists l :: l in p.lockfiles(m) && ChildOp(p, m, l, Lockfile, Locks, op)
  }

  lemma LockfileMembers(p: Package, m: string, op: Insert)
    ensures op in LockfileInserts(p, m) <==> LockfileOp(p, m, op)
  {
    var f := (l: string) => ChildInserts(p, m, l, Lockfile, Locks);
    SameFlatMap(f, l => ChildInserts(p, m, l, Lockfile, Locks), p.lockfiles(m));
    FlatMapMembers(f, p.lockfiles(m), op);
    forall l: string ensures op in f(l) <==> ChildOp(p, m, l, Lockfile, Locks, op) {
      ChildMembers(p, m, l, Lockfile, Locks, op);
    }
  }

  ghost predicate ManifestOp(p: Package, op: Insert) {
    exists m :: IsManifest(p, m) && (ChildOp(p, p.root, m, p.kindOf(m), Contains, op) || LockfileOp(p, m, op))
  }

  lemma ManifestMembers(p: Package, op: Insert)
    ensures op in FlatMap(m => ManifestInserts(p, m), p.manifests) <==> ManifestOp(p, op)
  {
    var f := (m: string) => ManifestInserts(p, m);
    SameFlatMap(f, m => ManifestInserts(p, m), p.manifests);
    FlatMapMembers(f, p.manifests, op);
    forall m: string
      ensures op in f(m)
         <==> (!p.isRootDocument(m)
               && (ChildOp(p, p.root, m, p.kindOf(m), Contains, op) || LockfileOp(p, m, op)))
    {
      ChildMembers(p, p.root, m, p.kindOf(m), Contains, op);
      LockfileMembers(p, m, op);
    }
  }

  ghost predicate ReferenceOp(p: Package, op: Insert) {
    exists r :: IsReference(p, r) && ChildOp(p, p.root, r, p.kindOf(r), References, op)
  }

  lemma ReferenceMembers(p: Package, op: Insert)
    ensures op in FlatMap(r => ReferenceInserts(p, r), p.references) <==> ReferenceOp(p, op)
  {
    var f := (r: string) => ReferenceInserts(p, r);
    SameFlatMap(f, r => ReferenceInserts(p, r), p.references);
    FlatMapMembers(f, p.references, op);
    forall r: string
      ensures op in f(r) <==> p.resolvesWithinBase(r) && ChildOp(p, p.root, r, p.kindOf(r), References, op)
    {
      ChildMembers(p, p.root, r, p.kindOf(r), References, op);
    }
  }

  ghost predicate RootOp(p: Package, op: Insert) {
    || op == NodeInsert(p.root, p.kindOf(p.root), p.capabilitiesOf(p.root))
    || LinkNode(p, p.root, op) || LinkEdge(p, p.root, op)
  }

  lemma BuildMembers(p: Package, op: Insert)
    ensures op in BuildInserts(p) <==> RootOp(p, op) || ManifestOp(p, op) || ReferenceOp(p, op)
  {
    RelationMembers(p, p.root, op);
    ManifestMembers(p, op);
    ReferenceMembers(p, op);
    assert op in BuildInserts(p)
      <==> (op in RootInserts(p)
            || op in FlatMap(m => ManifestInserts(p, m), p.manifests)
            || op in FlatMap(r => ReferenceInserts(p, r), p.references));
  }

  // ---- Edges ----

  lemma EdgeOps(p: Package, t: Triple, kind: Option<EndpointKind>)
    ensures EdgeInsert(t, kind) in BuildInserts(p) <==> kind == None && HasEdge(p, t)
  {
    var op := EdgeInsert(t, kind);
    BuildMembers(p, op);
    if ManifestOp(p, op) {
      var m :| IsManifest(p, m) && (ChildOp(p, p.root, m, p.kindOf(m), Contains, op) || LockfileOp(p, m, op));
      if LockfileOp(p, m, op) {
        var l :| l in p.lockfiles(m) && ChildOp(p, m, l, Lockfile, Locks, op);
      }
    }
    if kind == None && HasEdge(p, t) {
      EdgeIsInserted(p, t);
    }
  }

  lemma EdgeIsInserted(p: Package, t: Triple)
    requires HasEdge(p, t)
    ensures var op := EdgeInsert(t, None); RootOp(p, op) || ManifestOp(p, op) || ReferenceOp(p, op)
  {
    var op := EdgeInsert(t, None);
    if IsManifest(p, t.from) && t.relation == Locks && t.to in p.lockfiles(t.from) {
      assert ChildOp(p, t.from, t.to, Lockfile, Locks, op);
      assert LockfileOp(p, t.from, op);
    } else if t.from == p.root && t.relation == Contains && IsManifest(p, t.to) {
      assert ChildOp(p, p.root, t.to, p.kindOf(t.to), Contains, op);
    } else if t.from == p.root && t.relation == References && IsReference(p, t.to) {
      assert ChildOp(p, p.root, t.to, p.kindOf(t.to), References, op);
    } else {
      assert LinkEdge(p, t.from, op);
      LinksAreInserted(p, t.from, op);
    }
  }

  lemma LinksAreInserted(p: Package, source: string, op: Insert)
    requires Visited(p, source) && (LinkEdge(p, source, op) || LinkNode(p, source, op))
    ensures RootOp(p, op) || ManifestOp(p, op) || ReferenceOp(p, op)
  {
    if IsManifest(p, source) {
      assert ChildOp(p, p.root, source, p.kindOf(source), Contains, op);
    } else if IsReference(p, source) {
      assert ChildOp(p, p.root, source, p.kindOf(source), References, op);
    } else if IsLockfile(p, source) {
      var m :| IsManifest(p, m) && source in p.lockfiles(m);
      assert ChildOp(p, m, source, Lockfile, Locks, op);
      assert LockfileOp(p, m, op);
    }
  }

  /** The edges of a package graph: the document contains its manifests and references what resolves
      inside the base, manifests lock their lockfiles, and every visited artifact has its links. None
      of them is annotated. */
  lemma PackageEdges(p: Package, t: Triple)
    ensures EdgeAt(Run(BuildInserts(p)), t)
         == if HasEdge(p, t) then Some(ArtifactEdge(t.from, t.to, t.relation, None)) else None
  {
    var ops := BuildInserts(p);
    EdgeStoreIsMap(ops, t);
    EndpointMembers(ops, t);
    EdgeOps(p, t, None);
    var kinds := EndpointsFor(ops, t);
    if HasEdge(p, t) {
      assert None in kinds;
      EdgeOps(p, t, EdgeAt(Run(ops), t).value.endpointKind);
    } else if kinds != [] {
      HasMember(kinds);
      var k :| k in kinds;
      EdgeOps(p, t, k);
    }
  }

  /** So a reference is hung from the document exactly when it resolves inside the base or is linked. */
  lemma ReferenceEdgeIff(p: Package, r: string)
    ensures EdgeAt(Run(BuildInserts(p)), Triple(p.root, r, References)).Some?
       <==> ((r in p.references && p.resolvesWithinBase(r)) || Link(r, References) in p.relationsOf(p.root))
  {
    PackageEdges(p, Triple(p.root, r, References));
  }

  /** A manifest is contained exactly when it is not the document itself, or the document links it. */
  lemma ContainsEdgeIff(p: Package, m: string)
    ensures EdgeAt(Run(BuildInserts(p)), Triple(p.root, m, Contains)).Some?
       <==> ((m in p.manifests && !p.isRootDocument(m)) || Link(m, Contains) in p.relationsOf(p.root))
  {
    PackageEdges(p, Triple(p.root, m, Contains));
  }

  /** A manifest other than the document locks its lockfiles and what it links as locked, and nothing else. */
  lemma LocksEdgeIff(p: Package, m: string, l: string)
    requires m in p.manifests && !p.isRootDocument(m)
    ensures EdgeAt(Run(BuildInserts(p)), Triple(m, l, Locks)).Some?
       <==> (l in p.lockfiles(m) || Link(l, Locks) in p.relationsOf(m))
  {
    PackageEdges(p, Triple(m, l, Locks));
  }

  // ---- Nodes ----

  /** A node insert with full facts, by the classified kind or as a lockfile, or a bare one for a link. */
  ghost predicate NodeSupplied(p: Package, path: string, kind: ArtifactKind, facts: seq<CapabilityFact>) {
    || (facts == p.capabilitiesOf(path) && kind == p.kindOf(path)
        && (path == p.root || IsManifest(p, path) || IsReference(p, path)))
    || (facts == p.capabilitiesOf(path) && kind == Lockfile && IsLockfile(p, path))
    || (facts == [] && kind == p.kindOf(path) && Linked(p, path))
  }

  lemma LinkNodeIsSupplied(p: Package, source: string, path: string, kind: ArtifactKind, facts: seq<CapabilityFact>)
    requires Visited(p, source) && LinkNode(p, source, NodeInsert(path, kind, facts))
    ensures NodeSupplied(p, path, kind, facts)
  {
    var link :| link in p.relationsOf(source)
      && NodeInsert(path, kind, facts) == NodeInsert(link.target, p.kindOf(link.target), []);
    assert link == Link(path, link.relation);
    assert LinkedFrom(p, source, path);
  }

  lemma ChildIsSupplied(p: Package, parent: string, child: string, k: ArtifactKind, relation: ArtifactRelation,
                        path: string, kind: ArtifactKind, facts: seq<CapabilityFact>)
    requires ChildOp(p, parent, child, k, relation, NodeInsert(path, kind, facts)) && Visited(p, child)
    ensures NodeSupplied(p, path, kind, facts) || (path == child && kind == k && facts == p.capabilitiesOf(child))
  {
    if LinkNode(p, child, NodeInsert(path, kind, facts)) {
      LinkNodeIsSupplied(p, child, path, kind, facts);
    }
  }

  lemma LockfileIsSupplied(p: Package, m: string, path: string, kind: ArtifactKind, facts: seq<CapabilityFact>)
    requires IsManifest(p, m) && LockfileOp(p, m, NodeInsert(path, kind, facts))
    ensures NodeSupplied(p, path, kind, facts)
  {
    var l :| l in p.lockfiles(m) && ChildOp(p, m, l, Lockfile, Locks, NodeInsert(path, kind, facts));
    assert IsLockfile(p, l);
    ChildIsSupplied(p, m, l, Lockfile, Locks, path, kind, facts);
  }

  lemma InsertedIsSupplied(p: Package, path: string, kind: ArtifactKind, facts: seq<CapabilityFact>)
    requires var op := NodeInsert(path, kind, facts); RootOp(p, op) || ManifestOp(p, op) || ReferenceOp(p, op)
    ensures NodeSupplied(p, path, kind, facts)
  {
    var op := NodeInsert(path, kind, facts);
    if ManifestOp(p, op) {
      var m :| IsManifest(p, m) && (ChildOp(p, p.root, m, p.kindOf(m), Contains, op) || LockfileOp(p, m, op));
      if LockfileOp(p, m, op) {
        LockfileIsSupplied(p, m, path, kind, facts);
      } else {
        ChildIsSupplied(p, p.root, m, p.kindOf(m), Contains, path, kind, facts);
      }
    } else if ReferenceOp(p, op) {
      var r :| IsReference(p, r) && ChildOp(p, p.root, r, p.kindOf(r), References, op);
      ChildIsSupplied(p, p.root, r, p.kindOf(r), References, path, kind, facts);
    } else if LinkNode(p, p.root, op) {
      LinkNodeIsSupplied(p, p.root, path, kind, facts);
    }
  }

  lemma SuppliedIsInserted(p: Package, path: string, kind: ArtifactKind, facts: seq<CapabilityFact>)
    requires NodeSupplied(p, path, kind, facts)
    ensures var op := NodeInsert(path, kind, facts); RootOp(p, op) || ManifestOp(p, op) || ReferenceOp(p, op)
  {
    var op := NodeInsert(path, kind, facts);
    if facts == [] && kind == p.kindOf(path) && Linked(p, path) {
      var source :| LinkedFrom(p, source, path);
      var relation :| Link(path, relation) in p.relationsOf(source);
      assert LinkNode(p, source, op);
      LinksAreInserted(p, source, op);
    } else if kind == p.kindOf(path) && IsManifest(p, path) {
      assert ChildOp(p, p.root, path, p.kindOf(path), Contains, op);
    } else if kind == p.kindOf(path) && IsReference(p, path) {
      assert ChildOp(p, p.root, path, p.kindOf(path), References, op);
    } else if kind == Lockfile && IsLockfile(p, path) {
      var m :| IsManifest(p, m) && path in p.lockfiles(m);
      assert ChildOp(p, m, path, Lockfile, Locks, op);
      assert LockfileOp(p, m, op);
    }
  }

  lemma NodeOps(p: Package, path: string, kind: ArtifactKind, facts: seq<CapabilityFact>)
    ensures NodeInsert(path, kind, facts) in BuildInserts(p) <==> NodeSupplied(p, path, kind, facts)
  {
    hide NodeSupplied, RootOp, ManifestOp, ReferenceOp;
    BuildMembers(p, NodeInsert(path, kind, facts));
    if NodeSupplied(p, path, kind, facts) {
      SuppliedIsInserted(p, path, kind, facts);
    } else if NodeInsert(path, kind, facts) in BuildInserts(p) {
      InsertedIsSupplied(p, path, kind, facts);
    }
  }

  ghost predicate Classified(p: Package, path: string) {
    path == p.root || IsManifest(p, path) || IsReference(p, path) || Linked(p, path)
  }

  lemma SuppliedKinds(p: Package, path: string, kind: ArtifactKind)
    ensures kind in KindsFor(BuildInserts(p), path)
       <==> ((kind == p.kindOf(path) && Classified(p, path)) || (kind == Lockfile && IsLockfile(p, path)))
  {
    KindMembers(BuildInserts(p), path);
    forall c ensures NodeInsert(path, kind, c) in BuildInserts(p) <==> NodeSupplied(p, path, kind, c) {
      NodeOps(p, path, kind, c);
    }
    assert NodeSupplied(p, path, kind, []) || NodeSupplied(p, path, kind, p.capabilitiesOf(path))
      <==> exists c :: NodeSupplied(p, path, kind, c);
  }

  lemma SuppliedFacts(p: Package, path: string, f: CapabilityFact)
    ensures f in FactsFor(BuildInserts(p), path) <==> Visited(p, path) && f in p.capabilitiesOf(path)
  {
    FactMembers(BuildInserts(p), path);
    forall k, c ensures NodeInsert(path, k, c) in BuildInserts(p) <==> NodeSupplied(p, path, k, c) {
      NodeOps(p, path, k, c);
    }
    if Visited(p, path) && f in p.capabilitiesOf(path) {
      var k := if IsLockfile(p, path) then Lockfile else p.kindOf(path);
      assert NodeSupplied(p, path, k, p.capabilitiesOf(path));
    }
  }

  /** The nodes of a package graph: what was visited, and what a visited artifact links. */
  lemma PackageNodes(p: Package, path: string)
    ensures NodeAt(Run(BuildInserts(p)), path).Some? <==> Visited(p, path) || Linked(p, path)
  {
    var kinds := KindsFor(BuildInserts(p), path);
    NodeStoreIsMap(BuildInserts(p), path);
    SuppliedKinds(p, path, p.kindOf(path));
    SuppliedKinds(p, path, Lockfile);
    if kinds != [] {
      HasMember(kinds);
      var k :| k in kinds;
      SuppliedKinds(p, path, k);
    }
  }

  /** A node lists exactly the facts of its artifact if that was visited, and none if it was only linked. */
  lemma PackageFacts(p: Package, path: string, f: CapabilityFact)
    requires NodeAt(Run(BuildInserts(p)), path).Some?
    ensures f in NodeAt(Run(BuildInserts(p)), path).value.capabilities
       <==> Visited(p, path) && f in p.capabilitiesOf(path)
  {
    NodeStoreIsMap(BuildInserts(p), path);
    SuppliedFacts(p, path, f);
  }

  /** A node has its classified kind, except that a lockfile of some manifest is a lockfile; only a
      path that is also classified as a manifest of either kind may keep that. */
  lemma PackageKinds(p: Package, path: string)
    requires NodeAt(Run(BuildInserts(p)), path).Some?
    ensures var kind := NodeAt(Run(BuildInserts(p)), path).value.kind;
            && (!IsLockfile(p, path) ==> kind == p.kindOf(path))
            && (IsLockfile(p, path) && p.kindOf(path) !in {PackageManifest, McpServerManifest} ==> kind == Lockfile)
            && (IsLockfile(p, path) ==> kind in {Lockfile, PackageManifest, McpServerManifest})
  {
    NodeStoreIsMap(BuildInserts(p), path);
    var kinds, kind := KindsFor(BuildInserts(p), path), NodeAt(Run(BuildInserts(p)), path).value.kind;
    FirstMostSpecificIsMax(kinds, kind);
    SuppliedKinds(p, path, kind);
    SuppliedKinds(p, path, Lockfile);
  }

  lemma {:induction false} FirstNodeStays(ops: seq<Insert>)
    requires ops != [] && ops[0].NodeInsert?
    ensures Run(ops).nodes != [] && Run(ops).nodes[0].path == ops[0].path
  {
    var init, last := ops[..|ops| - 1], ops[|ops| - 1];
    RunOneMore(init, last);
    assert ops == init + [last];
    if init != [] {
      FirstNodeStays(init);
    } else {
      assert Run(init) == EMPTY;
    }
  }

  /** The document is the first node of its graph. */
  lemma RootIsFirst(p: Package)
    ensures Run(BuildInserts(p)).nodes != [] && Run(BuildInserts(p)).nodes[0].path == p.root
  {
    FirstNodeStays(BuildInserts(p));
  }
}
