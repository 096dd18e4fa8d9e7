/** Building the graph of one package (scanner_graph.rs). The file system, the classifier and the
    inference services are functions of the path, collected in `Package`. */
module ScannerGraph {
  import opened Orders
  import opened Findings
  import opened ArtifactGraphs

  datatype Link = Link(target: string, relation: ArtifactRelation)

  datatype Package = Package(
    root: string,
    manifests: seq<string>,              // sorted sibling manifests; empty when the document has no parent
    isRootDocument: string -> bool,      // path equality with the document
    lockfiles: string -> seq<string>,    // expected lockfiles of a manifest that exist
    references: seq<string>,
    resolvesWithinBase: string -> bool,
    kindOf: string -> ArtifactKind,
    capabilitiesOf: string -> seq<CapabilityFact>,
    relationsOf: string -> seq<Link>)

  // ---- The inserts, in the order the builder makes them ----

  function FlatMap<T, U>(f: T -> seq<U>, xs: seq<T>): seq<U> {
    if xs == [] then [] else FlatMap(f, xs[..|xs| - 1]) + f(xs[|xs| - 1])
  }

  function LinkInserts(p: Package, source: string, link: Link): seq<Insert> {
    [NodeInsert(link.target, p.kindOf(link.target), []),
     EdgeInsert(Triple(source, link.target, link.relation), None)]
  }

  function RelationInserts(p: Package, source: string): seq<Insert> {
    FlatMap(link => LinkInserts(p, source, link), p.relationsOf(source))
  }

  /** An artifact hung below `parent`: its node, the edge to it and everything inferred from it. */
  function ChildInserts(p: Package, parent: string, child: string, kind: ArtifactKind, relation: ArtifactRelation)
    : seq<Insert>
  {
    [NodeInsert(child, kind, p.capabilitiesOf(child)), EdgeInsert(Triple(parent, child, relation), None)]
    + RelationInserts(p, child)
  }

  function LockfileInserts(p: Package, manifest: string): seq<Insert> {
    FlatMap(lockfile => ChildInserts(p, manifest, lockfile, Lockfile, Locks), p.lockfiles(manifest))
  }

  function ManifestInserts(p: Package, manifest: string): seq<Insert> {
    if p.isRootDocument(manifest) then []
    else ChildInserts(p, p.root, manifest, p.kindOf(manifest), Contains) + LockfileInserts(p, manifest)
  }

  function ReferenceInserts(p: Package, reference: string): seq<Insert> {
    if !p.resolvesWithinBase(reference) then []
    else ChildInserts(p, p.root, reference, p.kindOf(reference), References)
  }

  function RootInserts(p: Package): seq<Insert> {
    [NodeInsert(p.root, p.kindOf(p.root), p.capabilitiesOf(p.root))] + RelationInserts(p, p.root)
  }

  function BuildInserts(p: Package): seq<Insert> {
    RootInserts(p)
    + FlatMap(manifest => ManifestInserts(p, manifest), p.manifests)
    + FlatMap(reference => ReferenceInserts(p, reference), p.references)
  }

  lemma {:induction false} RunFromAppend(s: Store, a: seq<Insert>, b: seq<Insert>)
    ensures RunFrom(s, a + b) == RunFrom(RunFrom(s, a), b)
  {
    if b == [] {
      assert a + b == a;
    } else {
      var init, last := b[..|b| - 1], b[|b| - 1];
      RunFromAppend(s, a, init);
      assert (a + b)[..|a + b| - 1] == a + init;
      assert (a + b)[|a + b| - 1] == last;
    }
  }

  lemma RunFromOne(s: Store, op: Insert)
    ensures RunFrom(s, [op]) == Apply(s, op)
  {
    assert [op][..0] == [];
  }

  lemma RunFromTwo(s: Store, a: Insert, b: Insert)
    ensures RunFrom(s, [a, b]) == Apply(Apply(s, a), b)
  {
    assert [a, b][..1] == [a];
    RunFromOne(s, a);
  }

  // ---- The builder ----

  lemma FlatMapPrefix<T, U>(f: T -> seq<U>, xs: seq<T>, n: nat)
    requires n < |xs|
    ensures FlatMap(f, xs[..n + 1]) == FlatMap(f, xs[..n]) + f(xs[n])
  {
    assert xs[..n + 1][..n] == xs[..n];
  }

  method AddInferredRelations(graph: ArtifactGraph, p: Package, source: string)
    modifies graph
    ensures graph.View() == RunFrom(old(graph.View()), RelationInserts(p, source))
  {
    var links := p.relationsOf(source);
    ghost var f := (link: Link) => LinkInserts(p, source, link);
    for n := 0 to |links|
      invariant graph.View() == RunFrom(old(graph.View()), FlatMap(f, links[..n]))
    {
      FlatMapPrefix(f, links, n);
      var target, relation := links[n].target, links[n].relation;
      ghost var before := graph.View();
      graph.AddNode(target, p.kindOf(target));
      graph.AddEdge(source, target, relation);
      RunFromTwo(before, NodeInsert(target, p.kindOf(target), []), EdgeInsert(Triple(source, target, relation), None));
      RunFromAppend(old(graph.View()), FlatMap(f, links[..n]), f(links[n]));
    }
    assert links[..|links|] == links;
    SameFlatMap(f, link => LinkInserts(p, source, link), links);
  }

  lemma {:induction false} SameFlatMap<T, U>(f: T -> seq<U>, g: T -> seq<U>, xs: seq<T>)
    requires forall x :: f(x) == g(x)
    ensures FlatMap(f, xs) == FlatMap(g, xs)
  {
    if xs != [] {
      SameFlatMap(f, g, xs[..|xs| - 1]);
    }
  }

  method AddChild(graph: ArtifactGraph, p: Package, parent: string, child: string, kind: ArtifactKind,
                  relation: ArtifactRelation)
    modifies graph
    ensures graph.View() == RunFrom(old(graph.View()), ChildInserts(p, parent, child, kind, relation))
  {
    ghost var a, b :=
      NodeInsert(child, kind, p.capabilitiesOf(child)), EdgeInsert(Triple(parent, child, relation), None);
    graph.AddNodeWithCapabilities(child, kind, p.capabilitiesOf(child));
    graph.AddEdge(parent, child, relation);
    RunFromTwo(old(graph.View()), a, b);
    AddInferredRelations(graph, p, child);
    RunFromAppend(old(graph.View()), [a, b], RelationInserts(p, child));
  }

  method AddLockfiles(graph: ArtifactGraph, p: Package, manifest: string)
    modifies graph
    ensures graph.View() == RunFrom(old(graph.View()), LockfileInserts(p, manifest))
  {
    var lockfiles := p.lockfiles(manifest);
    ghost var f := (lockfile: string) => ChildInserts(p, manifest, lockfile, Lockfile, Locks);
    for n := 0 to |lockfiles|
      invariant graph.View() == RunFrom(old(graph.View()), FlatMap(f, lockfiles[..n]))
    {
      FlatMapPrefix(f, lockfiles, n);
      AddChild(graph, p, manifest, lockfiles[n], Lockfile, Locks);
      RunFromAppend(old(graph.View()), FlatMap(f, lockfiles[..n]), f(lockfiles[n]));
    }
    assert lockfiles[..|lockfiles|] == lockfiles;
    SameFlatMap(f, lockfile => ChildInserts(p, manifest, lockfile, Lockfile, Locks), lockfiles);
  }

  method AddManifests(graph: ArtifactGraph, p: Package)
    modifies graph
    ensures graph.View()
         == RunFrom(old(graph.View()), FlatMap(manifest => ManifestInserts(p, manifest), p.manifests))
  {
    ghost var f := (manifest: string) => ManifestInserts(p, manifest);
    for n := 0 to |p.manifests|
      invariant graph.View() == RunFrom(old(graph.View()), FlatMap(f, p.manifests[..n]))
    {
      FlatMapPrefix(f, p.manifests, n);
      var manifest := p.manifests[n];
      ghost var before := graph.View();
      if !p.isRootDocument(manifest) {
        AddChild(graph, p, p.root, manifest, p.kindOf(manifest), Contains);
        AddLockfiles(graph, p, manifest);
        RunFromAppend(before, ChildInserts(p, p.root, manifest, p.kindOf(manifest), Contains),
                      LockfileInserts(p, manifest));
      }
      RunFromAppend(old(graph.View()), FlatMap(f, p.manifests[..n]), f(manifest));
    }
    assert p.manifests[..|p.manifests|] == p.manifests;
    SameFlatMap(f, manifest => ManifestInserts(p, manifest), p.manifests);
  }

  method AddReferences(graph: ArtifactGraph, p: Package)
    modifies graph
    ensures graph.View()
         == RunFrom(old(graph.View()), FlatMap(reference => ReferenceInserts(p, reference), p.references))
  {
    ghost var f := (reference: string) => ReferenceInserts(p, reference);
    for n := 0 to |p.references|
      invariant graph.View() == RunFrom(old(graph.View()), FlatMap(f, p.references[..n]))
    {
      FlatMapPrefix(f, p.references, n);
      var reference := p.references[n];
      if p.resolvesWithinBase(reference) {
        AddChild(graph, p, p.root, reference, p.kindOf(reference), References);
      }
      RunFromAppend(old(graph.View()), FlatMap(f, p.references[..n]), f(reference));
    }
    assert p.references[..|p.references|] == p.references;
    SameFlatMap(f, reference => ReferenceInserts(p, reference), p.references);
  }

  method BuildArtifactGraph(p: Package) returns (graph: ArtifactGraph)
    ensures fresh(graph) && graph.View() == Run(BuildInserts(p))
  {
    graph := new ArtifactGraph();
    ghost var root := NodeInsert(p.root, p.kindOf(p.root), p.capabilitiesOf(p.root));
    graph.AddNodeWithCapabilities(p.root, p.kindOf(p.root), p.capabilitiesOf(p.root));
    RunFromOne(EMPTY, root);
    AddInferredRelations(graph, p, p.root);
    RunFromAppend(EMPTY, [root], RelationInserts(p, p.root));
    AddManifests(graph, p);
    ghost var manifests := FlatMap(manifest => ManifestInserts(p, manifest), p.manifests);
    RunFromAppend(EMPTY, RootInserts(p), manifests);
    AddReferences(graph, p);
    RunFromAppend(EMPTY, RootInserts(p) + manifests,
                  FlatMap(reference => ReferenceInserts(p, reference), p.references));
  }
}
