/** Accumulating indicators (ioc_extraction.rs): capped sets for one artifact, merged sorted lists
    for a package. Pattern matches and URL parsing are inputs. */
module IocExtraction {
  import opened Orders

  const MAX_IOCS_PER_KIND_PER_ARTIFACT := 4096

  const TRAILING: string := ",.;:)]}!?"

  function TrimTrailing(s: string): string {
    if s != [] && s[|s| - 1] in TRAILING then TrimTrailing(s[..|s| - 1]) else s
  }

  /** Exactly the trailing punctuation goes: what is left ends in something else, or is empty. */
  lemma {:induction false} TrimTrailingIff(s: string, n: nat)
    requires n <= |s|
    ensures TrimTrailing(s) == s[..n]
       <==> ((forall i :: n <= i < |s| ==> s[i] in ",.;:)]}!?") && (n == 0 || s[n - 1] !in ",.;:)]}!?"))
  {
    if s != [] && s[|s| - 1] in TRAILING {
      var init := s[..|s| - 1];
      if n == |s| {
        TrimmedIsShort(init);
      } else {
        TrimTrailingIff(init, n);
        assert init[..n] == s[..n];
        assert forall i :: n <= i < |init| ==> init[i] == s[i];
      }
    } else {
      assert n < |s| ==> s[..n] != s;
      assert n == |s| ==> s[..n] == s;
    }
  }

  lemma {:induction false} TrimmedIsShort(s: string)
    ensures |TrimTrailing(s)| <= |s|
  {
    if s != [] {
      TrimmedIsShort(s[..|s| - 1]);
    }
  }

  function Distinct(matches: seq<string>): set<string> {
    set m | m in matches :: TrimTrailing(m)
  }

  function Min(a: nat, b: nat): nat { if a < b then a else b }

  /** `try_insert_bounded`: refuses once the set is full, whether or not the value is new. */
  method TryInsertBounded(s: set<string>, value: string) returns (r: set<string>, inserted: bool)
    ensures inserted <==> |s| < 4096
    ensures r == if inserted then s + {value} else s
  {
    if |s| >= MAX_IOCS_PER_KIND_PER_ARTIFACT {
      return s, false;
    }
    return s + {value}, true;
  }

  /** The hosts worth keeping among some URLs. */
  function Hosts(urls: set<string>, keptHost: string -> Option<string>): set<string> {
    set u | u in urls && keptHost(u).Some? :: keptHost(u).value
  }

  lemma HostsOneMore(urls: set<string>, url: string, keptHost: string -> Option<string>)
    ensures Hosts(urls + {url}, keptHost)
         == Hosts(urls, keptHost) + if keptHost(url).Some? then {keptHost(url).value} else {}
  {
    var all, before := Hosts(urls + {url}, keptHost), Hosts(urls, keptHost);
    forall h ensures h in all <==> h in before || (keptHost(url).Some? && h == keptHost(url).value) {
      if h in before {
        var u :| u in urls && keptHost(u).Some? && keptHost(u).value == h;
        assert u in urls + {url};
      }
      if keptHost(url).Some? && h == keptHost(url).value {
        assert url in urls + {url};
      }
    }
  }

  /** A capped collection: within the whole, and short of the cap it is the whole. */
  ghost predicate CappedAt(cap: nat, s: set<string>, whole: set<string>) {
    s <= whole && |s| <= cap && (|s| < cap ==> s == whole)
  }

  /** So it has as many members as fit, and is the whole whenever the whole fits. */
  lemma CappedSize(cap: nat, s: set<string>, whole: set<string>)
    requires CappedAt(cap, s, whole)
    ensures s <= whole && |s| == Min(cap, |whole|)
    ensures |whole| <= cap ==> s == whole
  {
    assert whole == s + (whole - s);
    assert |whole| == |s| + |whole - s|;
  }

  /** One kept host: dropped when the domains are full, while the URLs go on. */
  method KeepHost(domains: set<string>, host: Option<string>, ghost hosts: set<string>) returns (kept: set<string>)
    requires CappedAt(MAX_IOCS_PER_KIND_PER_ARTIFACT, domains, hosts)
    ensures CappedAt(MAX_IOCS_PER_KIND_PER_ARTIFACT, kept, hosts + if host.Some? then {host.value} else {})
  {
    kept := domains;
    if host.Some? && |domains| < MAX_IOCS_PER_KIND_PER_ARTIFACT {
      kept := domains + {host.value};
    }
  }

  lemma DistinctOneMore(matches: seq<string>, n: nat)
    requires n < |matches|
    ensures Distinct(matches[..n + 1]) == Distinct(matches[..n]) + {TrimTrailing(matches[n])}
  {
    assert matches[..n + 1] == matches[..n] + [matches[n]];
  }

  /** The URL loop: trims, inserts until full, and collects the hosts worth keeping on the way. */
  method CollectUrls(matches: seq<string>, keptHost: string -> Option<string>)
    returns (urls: set<string>, domains: set<string>)
    ensures urls <= Distinct(matches) && domains <= Hosts(urls, keptHost)
    ensures |urls| == Min(4096, |Distinct(matches)|)
    ensures |Distinct(matches)| <= 4096 ==> urls == Distinct(matches)
    ensures |domains| == Min(4096, |Hosts(urls, keptHost)|)
    ensures |Hosts(urls, keptHost)| <= 4096 ==> domains == Hosts(urls, keptHost)
  {
    hide CappedAt, Hosts;
    urls, domains := {}, {};
    NothingCollected(matches, keptHost);
    var n := 0;
    while n < |matches|
      invariant n <= |matches|
      invariant urls == Distinct(matches[..n]) && |urls| <= MAX_IOCS_PER_KIND_PER_ARTIFACT
      invariant CappedAt(MAX_IOCS_PER_KIND_PER_ARTIFACT, domains, Hosts(urls, keptHost))
    {
      var trimmed := TrimTrailing(matches[n]);
      DistinctOneMore(matches, n);
      HostsOneMore(urls, trimmed, keptHost);
      ghost var hosts := Hosts(urls, keptHost);
      var inserted;
      urls, inserted := TryInsertBounded(urls, trimmed);
      if !inserted {
        DistinctGrows(matches, n);
        break;
      }
      domains := KeepHost(domains, keptHost(trimmed), hosts);
      n := n + 1;
    }
    if n == |matches| {
      assert matches[..n] == matches;
    }
    CappedSize(MAX_IOCS_PER_KIND_PER_ARTIFACT, domains, Hosts(urls, keptHost));
  }

  lemma NothingCollected(matches: seq<string>, keptHost: string -> Option<string>)
    ensures Distinct(matches[..0]) == {} && CappedAt(MAX_IOCS_PER_KIND_PER_ARTIFACT, {}, Hosts({}, keptHost))
  {
    assert Hosts({}, keptHost) == {};
  }

  lemma DistinctGrows(matches: seq<string>, n: nat)
    requires n <= |matches|
    ensures Distinct(matches[..n]) <= Distinct(matches)
    ensures |Distinct(matches[..n])| <= |Distinct(matches)|
    ensures |Distinct(matches[..n])| == |Distinct(matches)| ==> Distinct(matches[..n]) == Distinct(matches)
  {
    var a, b := Distinct(matches[..n]), Distinct(matches);
    forall m | m in matches[..n] ensures m in matches {}
    assert a <= b;
    assert b == a + (b - a);
    assert |b| == |a| + |b - a|;
  }

  // ---- Package-level merging ----

  /** A path as its components, compared component by component. */
  datatype FileHash = FileHash(path: seq<string>, sha256: string)

  function ComparePath(a: seq<string>, b: seq<string>): Ordering {
    CompareSeq(CompareString, a, b)
  }

  function CompareHash(a: FileHash, b: FileHash): Ordering {
    Then(ComparePath(a.path, b.path), CompareString(a.sha256, b.sha256))
  }

  lemma CompareHashTotal()
    ensures TotalOrder(CompareHash)
  {
    CompareStringTotal();
    CompareSeqTotal<string>(CompareString);
    var lex := (a: seq<string>, b: seq<string>) => CompareSeq(CompareString, a, b);
    assert forall a, b :: ComparePath(a, b) == lex(a, b);
    assert TotalOrder(ComparePath);
  }

  ghost predicate PathBefore(a: seq<string>, b: seq<string>) { ListBefore(DictionaryBefore, a, b) }

  /** Hashes come by path, component by component, and then by digest. */
  lemma CompareHashIff(a: FileHash, b: FileHash)
    ensures CompareHash(a, b) == Less
       <==> PathBefore(a.path, b.path) || (a.path == b.path && DictionaryBefore(a.sha256, b.sha256))
  {
    CompareStringTotal();
    forall x, y ensures DictionaryBefore(x, y) <==> CompareString(x, y) == Less {
      CompareStringIsDictionary(x, y);
    }
    CompareSeqIsListBefore(CompareString, DictionaryBefore, a.path, b.path);
    CompareSeqEqual(CompareString, a.path, b.path);
  }

  datatype Iocs = Iocs(
    urls: seq<string>,
    domains: seq<string>,
    ipv4: seq<string>,
    ipv6: seq<string>,
    fileHashes: seq<FileHash>)

  const NONE := Iocs([], [], [], [], [])

  /** Through a tree set: drain, extend, collect. */
  function MergeSorted<T(==)>(cmp: (T, T) -> Ordering, target: seq<T>, additions: seq<T>): seq<T> {
    Canonical(cmp, target + additions)
  }

  function Merge(a: Iocs, b: Iocs): Iocs {
    Iocs(MergeSorted(CompareString, a.urls, b.urls),
         MergeSorted(CompareString, a.domains, b.domains),
         MergeSorted(CompareString, a.ipv4, b.ipv4),
         MergeSorted(CompareString, a.ipv6, b.ipv6),
         MergeSorted(CompareHash, a.fileHashes, b.fileHashes))
  }

  class ExtractedIocs {
    var urls: seq<string>
    var domains: seq<string>
    var ipv4: seq<string>
    var ipv6: seq<string>
    var fileHashes: seq<FileHash>

    function View(): Iocs
      reads this
    {
      Iocs(urls, domains, ipv4, ipv6, fileHashes)
    }

    constructor (iocs: Iocs)
      ensures View() == iocs
    {
      urls, domains, ipv4, ipv6, fileHashes := iocs.urls, iocs.domains, iocs.ipv4, iocs.ipv6, iocs.fileHashes;
    }

    method MergeFrom(other: Iocs)
      modifies this
      ensures View() == Merge(old(View()), other)
    {
      urls := MergeSorted(CompareString, urls, other.urls);
      domains := MergeSorted(CompareString, domains, other.domains);
      ipv4 := MergeSorted(CompareString, ipv4, other.ipv4);
      ipv6 := MergeSorted(CompareString, ipv6, other.ipv6);
      fileHashes := MergeSorted(CompareHash, fileHashes, other.fileHashes);
    }
  }

  /** The package aggregate: start from the primary artifact's lists, merge each supporting one in turn. */
  method Aggregate(primary: Iocs, supporting: seq<Iocs>) returns (all: ExtractedIocs)
    ensures fresh(all) && all.View() == FoldFrom(primary, supporting)
  {
    all := new ExtractedIocs(primary);
    for n := 0 to |supporting|
      invariant fresh(all) && all.View() == FoldFrom(primary, supporting[..n])
    {
      assert supporting[..n + 1][..n] == supporting[..n];
      all.MergeFrom(supporting[n]);
    }
    assert supporting[..|supporting|] == supporting;
  }

  function FoldFrom(primary: Iocs, supporting: seq<Iocs>): Iocs {
    if supporting == [] then primary
    else Merge(FoldFrom(primary, supporting[..|supporting| - 1]), supporting[|supporting| - 1])
  }

  function FoldMerge(parts: seq<Iocs>): Iocs {
    if parts == [] then NONE else Merge(FoldMerge(parts[..|parts| - 1]), parts[|parts| - 1])
  }

  function FoldSorted<T(==)>(cmp: (T, T) -> Ordering, lists: seq<seq<T>>): seq<T> {
    if lists == [] then [] else MergeSorted(cmp, FoldSorted(cmp, lists[..|lists| - 1]), lists[|lists| - 1])
  }

  /** Folding the merge collects exactly the union, strictly sorted. */
  lemma {:induction false} FoldSortedIsUnion<T(!new)>(cmp: (T, T) -> Ordering, lists: seq<seq<T>>)
    requires TotalOrder(cmp)
    ensures StrictlySorted(cmp, FoldSorted(cmp, lists))
    ensures forall x :: x in FoldSorted(cmp, lists) <==> exists l :: l in lists && x in l
  {
    if lists != [] {
      var init, last := lists[..|lists| - 1], lists[|lists| - 1];
      FoldSortedIsUnion(cmp, init);
      CanonicalCorrect(cmp, FoldSorted(cmp, init) + last);
      assert lists == init + [last];
      assert last in lists;
      forall x ensures x in FoldSorted(cmp, lists) <==> exists l :: l in lists && x in l {
        if l :| l in lists && x in l {
          assert l in init || l == last;
        }
        if l :| l in init && x in l {
          assert l in lists;
        }
      }
    }
  }

  lemma FoldSortedPermutation<T(!new)>(cmp: (T, T) -> Ordering, a: seq<seq<T>>, b: seq<seq<T>>)
    requires TotalOrder(cmp)
    requires forall l :: l in a <==> l in b
    ensures FoldSorted(cmp, a) == FoldSorted(cmp, b)
  {
    FoldSortedIsUnion(cmp, a);
    FoldSortedIsUnion(cmp, b);
    StrictlySortedUnique(cmp, FoldSorted(cmp, a), FoldSorted(cmp, b));
  }

  // ---- The five kinds at once ----

  function Urls(parts: seq<Iocs>): seq<seq<string>> { seq(|parts|, i requires 0 <= i < |parts| => parts[i].urls) }
  function Domains(parts: seq<Iocs>): seq<seq<string>> { seq(|parts|, i requires 0 <= i < |parts| => parts[i].domains) }
  function Ipv4s(parts: seq<Iocs>): seq<seq<string>> { seq(|parts|, i requires 0 <= i < |parts| => parts[i].ipv4) }
  function Ipv6s(parts: seq<Iocs>): seq<seq<string>> { seq(|parts|, i requires 0 <= i < |parts| => parts[i].ipv6) }

  function Hashes(parts: seq<Iocs>): seq<seq<FileHash>> {
    seq(|parts|, i requires 0 <= i < |parts| => parts[i].fileHashes)
  }

  lemma FoldSortedStep<T>(cmp: (T, T) -> Ordering, lists: seq<seq<T>>, init: seq<seq<T>>, last: seq<T>)
    requires lists == init + [last]
    ensures FoldSorted(cmp, lists) == MergeSorted(cmp, FoldSorted(cmp, init), last)
  {
    assert lists[..|lists| - 1] == init;
  }

  ghost function ByKind(parts: seq<Iocs>): Iocs {
    Iocs(FoldSorted(CompareString, Urls(parts)), FoldSorted(CompareString, Domains(parts)),
         FoldSorted(CompareString, Ipv4s(parts)), FoldSorted(CompareString, Ipv6s(parts)),
         FoldSorted(CompareHash, Hashes(parts)))
  }

  lemma ListsStep(parts: seq<Iocs>, init: seq<Iocs>, last: Iocs)
    requires parts == init + [last]
    ensures Urls(parts) == Urls(init) + [last.urls] && Domains(parts) == Domains(init) + [last.domains]
    ensures Ipv4s(parts) == Ipv4s(init) + [last.ipv4] && Ipv6s(parts) == Ipv6s(init) + [last.ipv6]
    ensures Hashes(parts) == Hashes(init) + [last.fileHashes]
  {
  }

  lemma MergeFields(a: Iocs, b: Iocs, r: Iocs)
    requires r.urls == MergeSorted(CompareString, a.urls, b.urls)
    requires r.domains == MergeSorted(CompareString, a.domains, b.domains)
    requires r.ipv4 == MergeSorted(CompareString, a.ipv4, b.ipv4)
    requires r.ipv6 == MergeSorted(CompareString, a.ipv6, b.ipv6)
    requires r.fileHashes == MergeSorted(CompareHash, a.fileHashes, b.fileHashes)
    ensures r == Merge(a, b)
  {
  }

  lemma ByKindStep(parts: seq<Iocs>, init: seq<Iocs>, last: Iocs)
    requires parts == init + [last]
    ensures ByKind(parts) == Merge(ByKind(init), last)
  {
    ListsStep(parts, init, last);
    FoldSortedStep(CompareString, Urls(parts), Urls(init), last.urls);
    FoldSortedStep(CompareString, Domains(parts), Domains(init), last.domains);
    FoldSortedStep(CompareString, Ipv4s(parts), Ipv4s(init), last.ipv4);
    FoldSortedStep(CompareString, Ipv6s(parts), Ipv6s(init), last.ipv6);
    FoldSortedStep(CompareHash, Hashes(parts), Hashes(init), last.fileHashes);
    MergeFields(ByKind(init), last, ByKind(parts));
  }

  /** A chain of merges from nothing is the fold. */
  lemma {:induction false} FoldMergeIsChain(parts: seq<Iocs>, chain: seq<Iocs>, n: nat)
    requires n <= |parts| && |chain| == |parts| + 1 && chain[0] == NONE
    requires forall i :: 0 <= i < |parts| ==> chain[i + 1] == Merge(chain[i], parts[i])
    ensures FoldMerge(parts[..n]) == chain[n]
  {
    if n > 0 {
      FoldMergeIsChain(parts, chain, n - 1);
      assert parts[..n][..n - 1] == parts[..n - 1];
      assert chain[n - 1 + 1] == Merge(chain[n - 1], parts[n - 1]);
    }
  }

  lemma FoldMergeByKind(parts: seq<Iocs>)
    ensures FoldMerge(parts) == ByKind(parts)
  {
    ghost var chain := seq(|parts| + 1, i requires 0 <= i < |parts| + 1 => ByKind(parts[..i]));
    forall i | 0 <= i < |parts| ensures chain[i + 1] == Merge(chain[i], parts[i]) {
      assert parts[..i + 1] == parts[..i] + [parts[i]];
      ByKindStep(parts[..i + 1], parts[..i], parts[i]);
    }
    FoldMergeIsChain(parts, chain, |parts|);
    assert parts[..|parts|] == parts;
  }

  lemma SameProjection<T>(a: seq<Iocs>, b: seq<Iocs>, f: Iocs -> T, fa: seq<T>, fb: seq<T>)
    requires forall p :: p in a <==> p in b
    requires |fa| == |a| && forall i :: 0 <= i < |a| ==> fa[i] == f(a[i])
    requires |fb| == |b| && forall i :: 0 <= i < |b| ==> fb[i] == f(b[i])
    ensures forall x :: x in fa <==> x in fb
  {
    forall x ensures x in fa <==> x in fb {
      if x in fa {
        var i :| 0 <= i < |fa| && fa[i] == x;
        assert a[i] in b;
        var j :| 0 <= j < |b| && b[j] == a[i];
        assert fb[j] == x;
      }
      if x in fb {
        var j :| 0 <= j < |fb| && fb[j] == x;
        assert b[j] in a;
        var i :| 0 <= i < |a| && a[i] == b[j];
        assert fa[i] == x;
      }
    }
  }

  /** The aggregate does not depend on the order, or repetition, of the artifacts. */
  lemma AggregateIgnoresOrder(a: seq<Iocs>, b: seq<Iocs>)
    requires forall p :: p in a <==> p in b
    ensures FoldMerge(a) == FoldMerge(b)
  {
    FoldMergeByKind(a);
    FoldMergeByKind(b);
    CompareStringTotal();
    CompareHashTotal();
    SameProjection(a, b, (p: Iocs) => p.urls, Urls(a), Urls(b));
    FoldSortedPermutation(CompareString, Urls(a), Urls(b));
    SameProjection(a, b, (p: Iocs) => p.domains, Domains(a), Domains(b));
    FoldSortedPermutation(CompareString, Domains(a), Domains(b));
    SameProjection(a, b, (p: Iocs) => p.ipv4, Ipv4s(a), Ipv4s(b));
    FoldSortedPermutation(CompareString, Ipv4s(a), Ipv4s(b));
    SameProjection(a, b, (p: Iocs) => p.ipv6, Ipv6s(a), Ipv6s(b));
    FoldSortedPermutation(CompareString, Ipv6s(a), Ipv6s(b));
    SameProjection(a, b, (p: Iocs) => p.fileHashes, Hashes(a), Hashes(b));
    FoldSortedPermutation(CompareHash, Hashes(a), Hashes(b));
  }

  // ---- Starting from the primary artifact ----

  /** What extraction from one artifact returns: every list drained from a tree set. */
  ghost predicate Extracted(p: Iocs) {
    && StrictlySorted(CompareString, p.urls) && StrictlySorted(CompareString, p.domains)
    && StrictlySorted(CompareString, p.ipv4) && StrictlySorted(CompareString, p.ipv6)
    && StrictlySorted(CompareHash, p.fileHashes)
  }

  lemma MergeOntoNothing<T(!new)>(cmp: (T, T) -> Ordering, list: seq<T>)
    requires TotalOrder(cmp) && StrictlySorted(cmp, list)
    ensures MergeSorted(cmp, [], list) == list
  {
    assert [] + list == list;
    CanonicalCorrect(cmp, list);
    StrictlySortedUnique(cmp, Canonical(cmp, list), list);
  }

  lemma PrimaryFirst(primary: Iocs)
    requires Extracted(primary)
    ensures Merge(NONE, primary) == primary
  {
    CompareStringTotal();
    CompareHashTotal();
    MergeOntoNothing(CompareString, primary.urls);
    MergeOntoNothing(CompareString, primary.domains);
    MergeOntoNothing(CompareString, primary.ipv4);
    MergeOntoNothing(CompareString, primary.ipv6);
    MergeOntoNothing(CompareHash, primary.fileHashes);
  }

  /** Starting from the primary artifact is merging it first, so the sorted union is of all artifacts. */
  lemma {:induction false} FoldFromPrimary(primary: Iocs, supporting: seq<Iocs>)
    requires Extracted(primary)
    ensures FoldFrom(primary, supporting) == FoldMerge([primary] + supporting)
  {
    hide Extracted, Merge, NONE;
    if supporting == [] {
      PrimaryFirst(primary);
      FoldMergeStep([primary] + supporting, [], primary);
    } else {
      var init, last := supporting[..|supporting| - 1], supporting[|supporting| - 1];
      FoldFromPrimary(primary, init);
      assert [primary] + supporting == ([primary] + init) + [last];
      FoldMergeStep([primary] + supporting, [primary] + init, last);
    }
  }

  lemma FoldMergeStep(parts: seq<Iocs>, init: seq<Iocs>, last: Iocs)
    requires parts == init + [last]
    ensures FoldMerge(parts) == Merge(FoldMerge(init), last)
  {
    assert parts[..|parts| - 1] == init;
  }

  /** Neither the order of the artifacts nor which of them is the primary one changes the aggregate. */
  lemma AnyPrimaryAnyOrder(primary: Iocs, supporting: seq<Iocs>, other: Iocs, rest: seq<Iocs>)
    requires Extracted(primary) && Extracted(other)
    requires forall p :: p in [primary] + supporting <==> p in [other] + rest
    ensures FoldFrom(primary, supporting) == FoldFrom(other, rest)
  {
    FoldFromPrimary(primary, supporting);
    FoldFromPrimary(other, rest);
    AggregateIgnoresOrder([primary] + supporting, [other] + rest);
  }

  // ---- The members of the aggregate ----

  ghost predicate InSome<T>(lists: seq<seq<T>>, x: T) {
    exists i :: 0 <= i < |lists| && x in lists[i]
  }

  lemma FoldedMembers<T(!new)>(cmp: (T, T) -> Ordering, lists: seq<seq<T>>, x: T)
    requires TotalOrder(cmp)
    ensures x in FoldSorted(cmp, lists) <==> InSome(lists, x)
  {
    FoldSortedIsUnion(cmp, lists);
    if InSome(lists, x) {
      var i :| 0 <= i < |lists| && x in lists[i];
      assert lists[i] in lists;
    }
  }

  /** Each list of the aggregate holds exactly what that list holds in some artifact of the package. */
  lemma AggregateMembers(primary: Iocs, supporting: seq<Iocs>, x: string, h: FileHash)
    requires Extracted(primary)
    ensures var all, parts := FoldFrom(primary, supporting), [primary] + supporting;
            && (x in all.urls <==> exists i :: 0 <= i < |parts| && x in parts[i].urls)
            && (x in all.domains <==> exists i :: 0 <= i < |parts| && x in parts[i].domains)
            && (x in all.ipv4 <==> exists i :: 0 <= i < |parts| && x in parts[i].ipv4)
            && (x in all.ipv6 <==> exists i :: 0 <= i < |parts| && x in parts[i].ipv6)
            && (h in all.fileHashes <==> exists i :: 0 <= i < |parts| && h in parts[i].fileHashes)
  {
    hide FoldSorted, Merge, Extracted, FoldFrom, FoldMerge;
    var parts := [primary] + supporting;
    FoldFromPrimary(primary, supporting);
    FoldMergeByKind(parts);
    CompareStringTotal();
    CompareHashTotal();
    FoldedMembers(CompareString, Urls(parts), x);
    FoldedMembers(CompareString, Domains(parts), x);
    FoldedMembers(CompareString, Ipv4s(parts), x);
    FoldedMembers(CompareString, Ipv6s(parts), x);
    FoldedMembers(CompareHash, Hashes(parts), h);
    assert |Urls(parts)| == |Domains(parts)| == |Ipv4s(parts)| == |Ipv6s(parts)| == |Hashes(parts)| == |parts|;
    assert forall i :: 0 <= i < |parts| ==>
      Urls(parts)[i] == parts[i].urls && Domains(parts)[i] == parts[i].domains && Ipv4s(parts)[i] == parts[i].ipv4
      && Ipv6s(parts)[i] == parts[i].ipv6 && Hashes(parts)[i] == parts[i].fileHashes;
  }

  /** And each is strictly sorted. */
  lemma AggregateIsSorted(primary: Iocs, supporting: seq<Iocs>)
    requires Extracted(primary)
    ensures Extracted(FoldFrom(primary, supporting))
  {
    hide FoldSorted, Merge, FoldFrom, FoldMerge;
    var parts := [primary] + supporting;
    FoldFromPrimary(primary, supporting);
    FoldMergeByKind(parts);
    CompareStringTotal();
    CompareHashTotal();
    FoldSortedIsUnion(CompareString, Urls(parts));
    FoldSortedIsUnion(CompareString, Domains(parts));
    FoldSortedIsUnion(CompareString, Ipv4s(parts));
    FoldSortedIsUnion(CompareString, Ipv6s(parts));
    FoldSortedIsUnion(CompareHash, Hashes(parts));
  }
}
