/** The shape of every package graph: closed under endpoints and at most three edges deep. */
module GraphShape {
  import opened Orders
  import opened Findings
  import opened ArtifactGraphs
  import opened ScannerGraph

  // ---- Reachability in a stored graph ----

  ghost predicate Reaches(edges: seq<ArtifactEdge>, source: string, target: string, steps: nat)
    decreases steps
  {
    || source == target
    || (steps > 0 && exists e :: e in edges && e.to == target && Reaches(edges, source, e.from, steps - 1))
  }

  ghost predicate IsNode(s: Store, path: string) {
    exists n :: n in s.nodes && n.path == path
  }

  // ---- The same, over the inserts ----

  ghost predicate HasNode(ops: seq<Insert>, path: string) {
    exists op :: op in ops && op.NodeInsert? && op.path == path
  }

  ghost predicate HasEdge(ops: seq<Insert>, from: string, to: string) {
    exists op :: op in ops && op.EdgeInsert? && op.triple.from == from && op.triple.to == to
  }

  ghost predicate Chained(ops: seq<Insert>, source: string, target: string, steps: nat)
    decreases steps
  {
    source == target || (steps > 0 && exists mid :: HasEdge(ops, mid, target) && Chained(ops, source, mid, steps - 1))
  }

  /** `ops` only adds nodes chained to `source` and edges between such nodes. */
  ghost predicate HangsFrom(ops: seq<Insert>, source: string, depth: nat) {
    && (forall path :: HasNode(ops, path) ==> Chained(ops, source, path, depth))
    && (forall from, to :: HasEdge(ops, from, to) ==> HasNode(ops, to) && (from == source || HasNode(ops, from)))
  }

  lemma StoredNodes(ops: seq<Insert>, path: string)
    ensures IsNode(Run(ops), path) <==> HasNode(ops, path)
  {
    var s := Run(ops);
    NodeStoreIsMap(ops, path);
    KindMembers(ops, path);
    if IsNode(s, path) {
      var n :| n in s.nodes && n.path == path;
      assert NodeAt(s, path).Some?;
      HasMember(KindsFor(ops, path));
    }
    if HasNode(ops, path) {
      var op :| op in ops && op.NodeInsert? && op.path == path;
      assert op == NodeInsert(path, op.kind, op.capabilities);
      assert op.kind in KindsFor(ops, path);
      assert NodeAt(s, path).value in s.nodes;
    }
  }

  lemma StoredEdges(ops: seq<Insert>, from: string, to: string)
    ensures (exists e :: e in Run(ops).edges && e.from == from && e.to == to) <==> HasEdge(ops, from, to)
  {
    var s := Run(ops);
    if e :| e in s.edges && e.from == from && e.to == to {
      EdgeStoreIsMap(ops, TripleOf(e));
      EndpointMembers(ops, TripleOf(e));
      assert EdgeAt(s, TripleOf(e)).Some?;
      HasMember(EndpointsFor(ops, TripleOf(e)));
      var k :| k in EndpointsFor(ops, TripleOf(e));
      assert EdgeInsert(TripleOf(e), k) in ops;
    }
    if op :| op in ops && op.EdgeInsert? && op.triple.from == from && op.triple.to == to {
      EdgeStoreIsMap(ops, op.triple);
      EndpointMembers(ops, op.triple);
      assert op == EdgeInsert(op.triple, op.endpointKind);
      assert op.endpointKind in EndpointsFor(ops, op.triple);
      assert EdgeAt(s, op.triple).value in s.edges;
    }
  }

  lemma {:induction false} ChainedIsStored(ops: seq<Insert>, source: string, target: string, steps: nat)
    requires Chained(ops, source, target, steps)
    ensures Reaches(Run(ops).edges, source, target, steps)
    decreases steps
  {
    if source != target {
      var mid :| HasEdge(ops, mid, target) && Chained(ops, source, mid, steps - 1);
      StoredEdges(ops, mid, target);
      ChainedIsStored(ops, source, mid, steps - 1);
    }
  }

  // ---- Composing pieces ----

  ghost predicate Within(a: seq<Insert>, b: seq<Insert>) {
    forall op :: op in a ==> op in b
  }

  lemma WithinKeeps(a: seq<Insert>, b: seq<Insert>)
    requires Within(a, b)
    ensures forall path :: HasNode(a, path) ==> HasNode(b, path)
    ensures forall from, to :: HasEdge(a, from, to) ==> HasEdge(b, from, to)
  {
    forall path | HasNode(a, path) ensures HasNode(b, path) {
      var op :| op in a && op.NodeInsert? && op.path == path;
      assert op in b;
    }
    forall from, to | HasEdge(a, from, to) ensures HasEdge(b, from, to) {
      var op :| op in a && op.EdgeInsert? && op.triple.from == from && op.triple.to == to;
      assert op in b;
    }
  }

  lemma {:induction false} ChainedGrows(a: seq<Insert>, b: seq<Insert>, source: string, target: string, m: nat, n: nat)
    requires Within(a, b) && m <= n && Chained(a, source, target, m)
    ensures Chained(b, source, target, n)
    decreases n
  {
    if source != target {
      var mid :| HasEdge(a, mid, target) && Chained(a, source, mid, m - 1);
      WithinKeeps(a, b);
      ChainedGrows(a, b, source, mid, m - 1, n - 1);
    }
  }

  lemma {:induction false} ChainedJoin(ops: seq<Insert>, a: string, b: string, c: string, m: nat, n: nat)
    requires Chained(ops, a, b, m) && Chained(ops, b, c, n)
    ensures Chained(ops, a, c, m + n)
    decreases n
  {
    if b == c {
      ChainedGrows(ops, ops, a, b, m, m + n);
    } else {
      var mid :| HasEdge(ops, mid, c) && Chained(ops, b, mid, n - 1);
      ChainedJoin(ops, a, b, mid, m, n - 1);
    }
  }

  lemma HasSplits(a: seq<Insert>, b: seq<Insert>)
    ensures Within(a, a + b) && Within(b, a + b)
    ensures forall path :: HasNode(a + b, path) ==> HasNode(a, path) || HasNode(b, path)
    ensures forall from, to :: HasEdge(a + b, from, to) ==> HasEdge(a, from, to) || HasEdge(b, from, to)
  {
  }

  /** Two pieces hanging from the same artifact hang from it together. */
  lemma HangTogether(a: seq<Insert>, b: seq<Insert>, source: string, m: nat, n: nat, depth: nat)
    requires HangsFrom(a, source, m) && HangsFrom(b, source, n) && m <= depth && n <= depth
    ensures HangsFrom(a + b, source, depth)
  {
    HasSplits(a, b);
    WithinKeeps(a, a + b);
    WithinKeeps(b, a + b);
    forall path | HasNode(a + b, path) ensures Chained(a + b, source, path, depth) {
      if HasNode(a, path) {
        ChainedGrows(a, a + b, source, path, m, depth);
      } else {
        ChainedGrows(b, a + b, source, path, n, depth);
      }
    }
  }

  /** A piece hanging from a node of `a` extends `a` by its own depth. */
  lemma HangBelow(a: seq<Insert>, b: seq<Insert>, source: string, child: string, m: nat, n: nat, k: nat)
    requires HangsFrom(a, source, m) && HasNode(a, child) && Chained(a, source, child, k)
    requires HangsFrom(b, child, n) && m <= k + n
    ensures HangsFrom(a + b, source, k + n)
  {
    HasSplits(a, b);
    WithinKeeps(a, a + b);
    WithinKeeps(b, a + b);
    forall path | HasNode(a + b, path) ensures Chained(a + b, source, path, k + n) {
      if HasNode(a, path) {
        ChainedGrows(a, a + b, source, path, m, k + n);
      } else {
        ChainedGrows(a, a + b, source, child, k, k);
        ChainedGrows(b, a + b, child, path, n, n);
        ChainedJoin(a + b, source, child, path, k, n);
      }
    }
  }

  lemma {:induction false} HangAll<T>(f: T -> seq<Insert>, xs: seq<T>, source: string, depth: nat)
    requires forall x :: HangsFrom(f(x), source, depth)
    ensures HangsFrom(FlatMap(f, xs), source, depth)
  {
    if xs != [] {
      HangAll(f, xs[..|xs| - 1], source, depth);
      HangTogether(FlatMap(f, xs[..|xs| - 1]), f(xs[|xs| - 1]), source, depth, depth, depth);
    }
  }

  // ---- The pieces of a package ----

  lemma PairHangs(source: string, node: Insert, edge: Insert)
    requires node.NodeInsert? && edge.EdgeInsert?
    requires edge.triple.from == source && edge.triple.to == node.path
    ensures HangsFrom([node, edge], source, 1)
    ensures HasNode([node, edge], node.path) && Chained([node, edge], source, node.path, 1)
  {
    var ops := [node, edge];
    assert node in ops && edge in ops;
    assert HasEdge(ops, source, node.path);
    assert Chained(ops, source, source, 0);
    assert Chained(ops, source, node.path, 1);
  }

  lemma RelationsHang(p: Package, source: string)
    ensures HangsFrom(RelationInserts(p, source), source, 1)
  {
    var f := (link: Link) => LinkInserts(p, source, link);
    forall link: Link ensures HangsFrom(f(link), source, 1) {
      PairHangs(source, LinkInserts(p, source, link)[0], LinkInserts(p, source, link)[1]);
      assert f(link) == [LinkInserts(p, source, link)[0], LinkInserts(p, source, link)[1]];
    }
    HangAll(f, p.relationsOf(source), source, 1);
    SameFlatMap(f, link => LinkInserts(p, source, link), p.relationsOf(source));
  }

  lemma ChildHangs(p: Package, parent: string, child: string, kind: ArtifactKind, relation: ArtifactRelation)
    ensures HangsFrom(ChildInserts(p, parent, child, kind, relation), parent, 2)
    ensures HasNode(ChildInserts(p, parent, child, kind, relation), child)
    ensures Chained(ChildInserts(p, parent, child, kind, relation), parent, child, 1)
  {
    var node, edge :=
      NodeInsert(child, kind, p.capabilitiesOf(child)), EdgeInsert(Triple(parent, child, relation), None);
    PairHangs(parent, node, edge);
    RelationsHang(p, child);
    HangBelow([node, edge], RelationInserts(p, child), parent, child, 1, 1, 1);
    HasSplits([node, edge], RelationInserts(p, child));
    WithinKeeps([node, edge], ChildInserts(p, parent, child, kind, relation));
    ChainedGrows([node, edge], ChildInserts(p, parent, child, kind, relation), parent, child, 1, 1);
  }

  lemma LockfilesHang(p: Package, manifest: string)
    ensures HangsFrom(LockfileInserts(p, manifest), manifest, 2)
  {
    var f := (lockfile: string) => ChildInserts(p, manifest, lockfile, Lockfile, Locks);
    forall lockfile: string ensures HangsFrom(f(lockfile), manifest, 2) {
      ChildHangs(p, manifest, lockfile, Lockfile, Locks);
    }
    HangAll(f, p.lockfiles(manifest), manifest, 2);
    SameFlatMap(f, lockfile => ChildInserts(p, manifest, lockfile, Lockfile, Locks), p.lockfiles(manifest));
  }

  lemma ManifestHangs(p: Package, manifest: string)
    ensures HangsFrom(ManifestInserts(p, manifest), p.root, 3)
  {
    if !p.isRootDocument(manifest) {
      ChildHangs(p, p.root, manifest, p.kindOf(manifest), Contains);
      LockfilesHang(p, manifest);
      HangBelow(ChildInserts(p, p.root, manifest, p.kindOf(manifest), Contains), LockfileInserts(p, manifest),
                p.root, manifest, 2, 2, 1);
    }
  }

  lemma ReferenceHangs(p: Package, reference: string)
    ensures HangsFrom(ReferenceInserts(p, reference), p.root, 3)
  {
    if p.resolvesWithinBase(reference) {
      ChildHangs(p, p.root, reference, p.kindOf(reference), References);
      HangTogether(ReferenceInserts(p, reference), [], p.root, 2, 0, 3);
      assert ReferenceInserts(p, reference) + [] == ReferenceInserts(p, reference);
    }
  }

  lemma BuildHangs(p: Package)
    ensures HangsFrom(BuildInserts(p), p.root, 3) && HasNode(BuildInserts(p), p.root)
  {
    var root := [NodeInsert(p.root, p.kindOf(p.root), p.capabilitiesOf(p.root))];
    assert root[0] in root;
    assert HangsFrom(root, p.root, 0);
    RelationsHang(p, p.root);
    HangTogether(root, RelationInserts(p, p.root), p.root, 0, 1, 3);
    var m := (manifest: string) => ManifestInserts(p, manifest);
    forall manifest: string ensures HangsFrom(m(manifest), p.root, 3) { ManifestHangs(p, manifest); }
    HangAll(m, p.manifests, p.root, 3);
    SameFlatMap(m, manifest => ManifestInserts(p, manifest), p.manifests);
    HangTogether(RootInserts(p), FlatMap(m, p.manifests), p.root, 3, 3, 3);
    var r := (reference: string) => ReferenceInserts(p, reference);
    forall reference: string ensures HangsFrom(r(reference), p.root, 3) { ReferenceHangs(p, reference); }
    HangAll(r, p.references, p.root, 3);
    SameFlatMap(r, reference => ReferenceInserts(p, reference), p.references);
    HangTogether(RootInserts(p) + FlatMap(m, p.manifests), FlatMap(r, p.references), p.root, 3, 3, 3);
    assert Within(root, BuildInserts(p));
    WithinKeeps(root, BuildInserts(p));
  }

  /** Any package graph: nodes and edges are unique, edges join nodes, and all is within three steps of the root. */
  lemma PackageGraphShape(p: Package)
    ensures var s := Run(BuildInserts(p));
            && UniquePaths(s.nodes) && UniqueTriples(s.edges)
            && IsNode(s, p.root)
            && (forall e :: e in s.edges ==> IsNode(s, e.from) && IsNode(s, e.to))
            && (forall n :: n in s.nodes ==> Reaches(s.edges, p.root, n.path, 3))
  {
    var ops := BuildInserts(p);
    var s := Run(ops);
    RunIsUnique(ops);
    BuildHangs(p);
    StoredNodes(ops, p.root);
    forall e | e in s.edges ensures IsNode(s, e.from) && IsNode(s, e.to) {
      StoredEdges(ops, e.from, e.to);
      StoredNodes(ops, e.from);
      StoredNodes(ops, e.to);
    }
    forall n | n in s.nodes ensures Reaches(s.edges, p.root, n.path, 3) {
      StoredNodes(ops, n.path);
      ChainedIsStored(ops, p.root, n.path, 3);
    }
  }
}
