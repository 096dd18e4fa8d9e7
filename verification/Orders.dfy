/** Total orders, sorting and strictly sorted sequences.

    The repository leans on `sort_by`, `dedup_by`, `BTreeSet` and `BTreeMap`.
    All of them are modelled by the functions below over a comparison function. */
module Orders {

  datatype Option<+T> = None | Some(value: T)

  datatype Ordering = Less | Equal | Greater

  /** `Ordering::then_with`: the second comparison decides only a tie. */
  function Then(first: Ordering, second: Ordering): Ordering {
    if first == Equal then second else first
  }

  function CompareInt(a: int, b: int): Ordering {
    if a < b then Less else if a == b then Equal else Greater
  }

  function Reverse(o: Ordering): Ordering {
    match o case Less => Greater case Equal => Equal case Greater => Less
  }

  ghost predicate TotalOrder<T(!new)>(cmp: (T, T) -> Ordering) {
    && (forall x, y :: cmp(x, y) == Equal <==> x == y)
    && (forall x, y :: cmp(x, y) == Less <==> cmp(y, x) == Greater)
    && (forall x, y, z :: cmp(x, y) == Less && cmp(y, z) == Less ==> cmp(x, z) == Less)
  }

  // ---- Lexicographic comparison ----

  function CompareSeq<T>(cmp: (T, T) -> Ordering, a: seq<T>, b: seq<T>): Ordering {
    if a == [] then (if b == [] then Equal else Less)
    else if b == [] then Greater
    else Then(cmp(a[0], b[0]), CompareSeq(cmp, a[1..], b[1..]))
  }

  lemma {:induction false} CompareSeqEqual<T(!new)>(cmp: (T, T) -> Ordering, a: seq<T>, b: seq<T>)
    requires TotalOrder(cmp)
    ensures CompareSeq(cmp, a, b) == Equal <==> a == b
  {
    if a != [] && b != [] {
      CompareSeqEqual(cmp, a[1..], b[1..]);
      assert a == [a[0]] + a[1..] && b == [b[0]] + b[1..];
    }
  }

  lemma {:induction false} CompareSeqReverse<T(!new)>(cmp: (T, T) -> Ordering, a: seq<T>, b: seq<T>)
    requires TotalOrder(cmp)
    ensures CompareSeq(cmp, b, a) == Reverse(CompareSeq(cmp, a, b))
  {
    if a != [] && b != [] {
      CompareSeqReverse(cmp, a[1..], b[1..]);
      assert cmp(b[0], a[0]) == Reverse(cmp(a[0], b[0]));
    }
  }

  lemma {:induction false} CompareSeqTransitive<T(!new)>(
      cmp: (T, T) -> Ordering, a: seq<T>, b: seq<T>, c: seq<T>)
    requires TotalOrder(cmp)
    requires CompareSeq(cmp, a, b) == Less && CompareSeq(cmp, b, c) == Less
    ensures CompareSeq(cmp, a, c) == Less
  {
    if a != [] {
      if cmp(a[0], b[0]) == Equal && cmp(b[0], c[0]) == Equal {
        CompareSeqTransitive(cmp, a[1..], b[1..], c[1..]);
      }
    }
  }

  lemma CompareSeqTotal<T(!new)>(cmp: (T, T) -> Ordering)
    requires TotalOrder(cmp)
    ensures TotalOrder((a: seq<T>, b: seq<T>) => CompareSeq(cmp, a, b))
  {
    var lex := (a: seq<T>, b: seq<T>) => CompareSeq(cmp, a, b);
    forall x, y ensures lex(x, y) == Equal <==> x == y {
      CompareSeqEqual(cmp, x, y);
    }
    forall x, y ensures lex(x, y) == Less <==> lex(y, x) == Greater {
      CompareSeqReverse(cmp, x, y);
    }
    forall x, y, z | lex(x, y) == Less && lex(y, z) == Less ensures lex(x, z) == Less {
      CompareSeqTransitive(cmp, x, y, z);
    }
  }

  function CompareChar(a: char, b: char): Ordering {
    CompareInt(a as int, b as int)
  }

  /** Byte order of UTF-8 text is its code-point order, so `str::cmp` compares characters. */
  function CompareString(a: string, b: string): Ordering {
    CompareSeq(CompareChar, a, b)
  }

  lemma CompareStringTotal()
    ensures TotalOrder(CompareString)
  {
    CompareSeqTotal<char>(CompareChar);
    var lex := (a: string, b: string) => CompareSeq(CompareChar, a, b);
    assert forall a, b :: CompareString(a, b) == lex(a, b);
  }

  /** The order of a dictionary: a proper prefix first, else the first difference decides. */
  ghost predicate DictionaryBefore(a: string, b: string) {
    exists n: nat :: n <= |a| && n < |b| && a[..n] == b[..n] && (n == |a| || a[n] < b[n])
  }

  /** The same for any elements. */
  ghost predicate ListBefore<T(!new)>(before: (T, T) -> bool, a: seq<T>, b: seq<T>) {
    exists n: nat :: n <= |a| && n < |b| && a[..n] == b[..n] && (n == |a| || before(a[n], b[n]))
  }

  lemma ListBeforeTails<T(!new)>(before: (T, T) -> bool, a: seq<T>, b: seq<T>)
    requires a != [] && b != [] && a[0] == b[0] && !before(a[0], a[0])
    ensures ListBefore(before, a, b) <==> ListBefore(before, a[1..], b[1..])
  {
    assert a == [a[0]] + a[1..] && b == [b[0]] + b[1..];
    if n: nat :| n <= |a[1..]| && n < |b[1..]| && a[1..][..n] == b[1..][..n]
                 && (n == |a[1..]| || before(a[1..][n], b[1..][n]))
    {
      assert a[..n + 1] == [a[0]] + a[1..][..n] && b[..n + 1] == [b[0]] + b[1..][..n];
    }
    if n: nat :| n <= |a| && n < |b| && a[..n] == b[..n] && (n == |a| || before(a[n], b[n])) {
      assert n > 0;
      assert a[1..][..n - 1] == a[..n][1..] && b[1..][..n - 1] == b[..n][1..];
    }
  }

  lemma SharedHead<T>(a: seq<T>, b: seq<T>, n: nat)
    requires n <= |a| && n <= |b| && a[..n] == b[..n]
    ensures n > 0 ==> a[0] == b[0]
  {
    assert n > 0 ==> a[..n][0] == b[..n][0];
  }

  lemma ListBeforeHeads<T(!new)>(before: (T, T) -> bool, a: seq<T>, b: seq<T>)
    requires a == [] || b == [] || a[0] != b[0]
    ensures ListBefore(before, a, b) <==> b != [] && (a == [] || before(a[0], b[0]))
  {
    if b != [] {
      assert a[..0] == b[..0];
    }
    if n: nat :| n <= |a| && n < |b| && a[..n] == b[..n] && (n == |a| || before(a[n], b[n])) {
      SharedHead(a, b, n);
    }
  }

  lemma {:induction false} CompareSeqIsListBefore<T(!new)>(
      cmp: (T, T) -> Ordering, before: (T, T) -> bool, a: seq<T>, b: seq<T>)
    requires TotalOrder(cmp) && forall x, y :: before(x, y) <==> cmp(x, y) == Less
    ensures CompareSeq(cmp, a, b) == Less <==> ListBefore(before, a, b)
  {
    if a != [] && b != [] && a[0] == b[0] {
      assert cmp(a[0], b[0]) == Equal;
      CompareSeqIsListBefore(cmp, before, a[1..], b[1..]);
      ListBeforeTails(before, a, b);
    } else {
      ListBeforeHeads(before, a, b);
    }
  }

  lemma CompareStringIsDictionary(a: string, b: string)
    ensures CompareString(a, b) == Less <==> DictionaryBefore(a, b)
  {
    CompareSeqIsListBefore(CompareChar, (x: char, y: char) => x < y, a, b);
  }

  // ---- Stable sorting ----

  /** Place `x` after every element that does not compare greater than it. */
  function Insert<T>(cmp: (T, T) -> Ordering, s: seq<T>, x: T): seq<T> {
    if s == [] then [x]
    else if cmp(s[|s| - 1], x) == Greater then Insert(cmp, s[..|s| - 1], x) + [s[|s| - 1]]
    else s + [x]
  }

  function SortBy<T>(cmp: (T, T) -> Ordering, s: seq<T>): seq<T> {
    if s == [] then [] else Insert(cmp, SortBy(cmp, s[..|s| - 1]), s[|s| - 1])
  }

  ghost predicate Sorted<T>(cmp: (T, T) -> Ordering, s: seq<T>) {
    forall i, j :: 0 <= i < j < |s| ==> cmp(s[i], s[j]) != Greater
  }

  ghost predicate StrictlySorted<T>(cmp: (T, T) -> Ordering, s: seq<T>) {
    forall i, j :: 0 <= i < j < |s| ==> cmp(s[i], s[j]) == Less
  }

  lemma {:induction false} InsertMultiset<T>(cmp: (T, T) -> Ordering, s: seq<T>, x: T)
    ensures multiset(Insert(cmp, s, x)) == multiset(s) + multiset{x}
  {
    if s != [] {
      LastOut(s);
      InsertMultiset(cmp, s[..|s| - 1], x);
    }
  }

  lemma {:induction false} SortMultiset<T>(cmp: (T, T) -> Ordering, s: seq<T>)
    ensures multiset(SortBy(cmp, s)) == multiset(s)
  {
    if s != [] {
      var init, last := s[..|s| - 1], s[|s| - 1];
      SortMultiset(cmp, init);
      InsertMultiset(cmp, SortBy(cmp, init), last);
      LastOut(s);
    }
  }

  lemma LastOut<T>(s: seq<T>)
    requires s != []
    ensures multiset(s) == multiset(s[..|s| - 1]) + multiset{s[|s| - 1]}
  {
    assert s == s[..|s| - 1] + [s[|s| - 1]];
  }

  /** A comparison that may call different elements equal. */
  ghost predicate WeakOrder<T(!new)>(cmp: (T, T) -> Ordering) {
    && (forall x, y :: cmp(x, y) == Less <==> cmp(y, x) == Greater)
    && (forall x, y, z :: cmp(x, y) != Greater && cmp(y, z) != Greater ==> cmp(x, z) != Greater)
  }

  lemma TotalIsWeak<T(!new)>(cmp: (T, T) -> Ordering)
    requires TotalOrder(cmp)
    ensures WeakOrder(cmp)
  {
    forall x, y, z | cmp(x, y) != Greater && cmp(y, z) != Greater ensures cmp(x, z) != Greater {
      if cmp(x, y) == Less && cmp(y, z) == Less {
        assert cmp(x, z) == Less;
      }
    }
  }

  /** Comparing a projection by a total order. */
  lemma WeakBy<T(!new), U(!new)>(cmp: (U, U) -> Ordering, p: T -> U, through: (T, T) -> Ordering)
    requires TotalOrder(cmp) && forall x, y :: through(x, y) == cmp(p(x), p(y))
    ensures WeakOrder(through)
  {
    TotalIsWeak(cmp);
  }

  /** Comparing by one weak order and, on a tie, by another. */
  lemma WeakThen<T(!new)>(first: (T, T) -> Ordering, second: (T, T) -> Ordering, both: (T, T) -> Ordering)
    requires WeakOrder(first) && WeakOrder(second)
    requires forall x, y :: both(x, y) == Then(first(x, y), second(x, y))
    ensures WeakOrder(both)
  {
    forall x, y, z | both(x, y) != Greater && both(y, z) != Greater ensures both(x, z) != Greater {
      assert first(x, z) != Greater;
      if first(x, z) == Equal {
        assert first(x, y) == Equal && first(y, z) == Equal by {
          assert first(z, x) != Greater;
        }
      }
    }
  }

  lemma SnocSorted<T>(cmp: (T, T) -> Ordering, s: seq<T>, e: T)
    requires Sorted(cmp, s) && forall i :: 0 <= i < |s| ==> cmp(s[i], e) != Greater
    ensures Sorted(cmp, s + [e])
  {
  }

  /** Nothing in a sorted sequence exceeds its last element. */
  lemma LastIsGreatest<T(!new)>(cmp: (T, T) -> Ordering, init: seq<T>, last: T, x: T)
    requires WeakOrder(cmp) && Sorted(cmp, init + [last])
    ensures Sorted(cmp, init) && forall i :: 0 <= i < |init| ==> cmp(init[i], last) != Greater
    ensures cmp(last, x) != Greater ==> forall i :: 0 <= i < |init + [last]| ==> cmp((init + [last])[i], x) != Greater
  {
    var s := init + [last];
    forall i | 0 <= i < |init| ensures cmp(init[i], last) != Greater {
      assert s[i] == init[i] && s[|init|] == last;
    }
    forall i, j | 0 <= i < j < |init| ensures cmp(init[i], init[j]) != Greater {
      assert s[i] == init[i] && s[j] == init[j];
    }
  }

  lemma {:induction false} InsertSorted<T(!new)>(cmp: (T, T) -> Ordering, s: seq<T>, x: T)
    requires WeakOrder(cmp) && Sorted(cmp, s)
    ensures Sorted(cmp, Insert(cmp, s, x))
  {
    if s != [] {
      var init, last := s[..|s| - 1], s[|s| - 1];
      assert s == init + [last];
      LastIsGreatest(cmp, init, last, x);
      if cmp(last, x) == Greater {
        var r := Insert(cmp, init, x);
        InsertSorted(cmp, init, x);
        InsertMultiset(cmp, init, x);
        forall i | 0 <= i < |r| ensures cmp(r[i], last) != Greater {
          assert r[i] in multiset(r);
          assert r[i] == x || r[i] in init;
        }
        SnocSorted(cmp, r, last);
      } else {
        SnocSorted(cmp, s, x);
      }
    }
  }

  lemma {:induction false} SortSorted<T(!new)>(cmp: (T, T) -> Ordering, s: seq<T>)
    requires WeakOrder(cmp)
    ensures Sorted(cmp, SortBy(cmp, s))
  {
    if s != [] {
      SortSorted(cmp, s[..|s| - 1]);
      InsertSorted(cmp, SortBy(cmp, s[..|s| - 1]), s[|s| - 1]);
    }
  }

  /** The elements that compare equal to `x`, in order. */
  function Ties<T>(cmp: (T, T) -> Ordering, s: seq<T>, x: T): seq<T> {
    if s == [] then []
    else Ties(cmp, s[..|s| - 1], x) + if cmp(s[|s| - 1], x) == Equal then [s[|s| - 1]] else []
  }

  lemma TiesSnoc<T>(cmp: (T, T) -> Ordering, s: seq<T>, e: T, x: T)
    ensures Ties(cmp, s + [e], x) == Ties(cmp, s, x) + if cmp(e, x) == Equal then [e] else []
  {
    assert (s + [e])[..|s|] == s;
  }

  lemma EqualsAlike<T(!new)>(cmp: (T, T) -> Ordering, a: T, b: T, x: T)
    requires WeakOrder(cmp)
    ensures cmp(a, x) == Equal && cmp(b, x) == Equal ==> cmp(a, b) != Greater
  {
    assert cmp(x, b) == Greater <==> cmp(b, x) == Less;
    assert cmp(a, x) != Greater && cmp(x, b) != Greater ==> cmp(a, b) != Greater;
  }

  lemma {:induction false} InsertStable<T(!new)>(cmp: (T, T) -> Ordering, s: seq<T>, e: T, x: T)
    requires WeakOrder(cmp)
    ensures Ties(cmp, Insert(cmp, s, e), x) == Ties(cmp, s + [e], x)
  {
    if s == [] {
      assert [] + [e] == [e];
    } else {
      var init, last := s[..|s| - 1], s[|s| - 1];
      assert s == init + [last];
      if cmp(last, e) == Greater {
        InsertStable(cmp, init, e, x);
        TiesSnoc(cmp, Insert(cmp, init, e), last, x);
        TiesSnoc(cmp, init, e, x);
        TiesSnoc(cmp, init, last, x);
        TiesSnoc(cmp, s, e, x);
        EqualsAlike(cmp, last, e, x);
      }
    }
  }

  /** Sorting is stable: elements that compare equal keep their order. */
  lemma {:induction false} SortStable<T(!new)>(cmp: (T, T) -> Ordering, s: seq<T>, x: T)
    requires WeakOrder(cmp)
    ensures Ties(cmp, SortBy(cmp, s), x) == Ties(cmp, s, x)
  {
    if s != [] {
      var init, last := s[..|s| - 1], s[|s| - 1];
      SortStable(cmp, init, x);
      InsertStable(cmp, SortBy(cmp, init), last, x);
      TiesSnoc(cmp, SortBy(cmp, init), last, x);
      TiesSnoc(cmp, init, last, x);
      assert s == init + [last];
    }
  }

  /** Two elements equal to `x` occur among the ties in the order they had. */
  lemma {:induction false} TiesKeepOrder<T>(cmp: (T, T) -> Ordering, s: seq<T>, x: T, i: nat, j: nat)
    returns (p: nat, q: nat)
    requires i <= j < |s| && cmp(s[i], x) == Equal && cmp(s[j], x) == Equal
    ensures p <= q < |Ties(cmp, s, x)| && Ties(cmp, s, x)[p] == s[i] && Ties(cmp, s, x)[q] == s[j]
    ensures i < j ==> p < q
  {
    var init := s[..|s| - 1];
    if j < |s| - 1 {
      p, q := TiesKeepOrder(cmp, init, x, i, j);
    } else {
      q := |Ties(cmp, init, x)|;
      if i < j {
        var _, p' := TiesKeepOrder(cmp, init, x, i, i);
        p := p';
      } else {
        p := q;
      }
    }
  }

  lemma {:induction false} TiesMembers<T>(cmp: (T, T) -> Ordering, s: seq<T>, x: T)
    ensures forall y :: y in Ties(cmp, s, x) ==> y in s
  {
    if s != [] {
      TiesMembers(cmp, s[..|s| - 1], x);
    }
  }

  /** Taking the ties out of a sequence ordered in another way leaves them ordered that way. */
  lemma {:induction false} TiesSorted<T>(cmp: (T, T) -> Ordering, order: (T, T) -> Ordering, s: seq<T>, x: T)
    requires StrictlySorted(order, s)
    ensures StrictlySorted(order, Ties(cmp, s, x))
  {
    if s != [] {
      var init, last := s[..|s| - 1], s[|s| - 1];
      TiesSorted(cmp, order, init, x);
      TiesMembers(cmp, init, x);
      var ties := Ties(cmp, init, x);
      forall i | 0 <= i < |ties| ensures order(ties[i], last) == Less {
        assert ties[i] in init;
      }
    }
  }

  /** A stable sort of a strictly ordered sequence puts ties in that order. */
  lemma SortedTiesOrdered<T(!new)>(cmp: (T, T) -> Ordering, order: (T, T) -> Ordering, s: seq<T>, i: nat, j: nat)
    requires WeakOrder(cmp) && StrictlySorted(order, s)
    requires i < j < |SortBy(cmp, s)| && cmp(SortBy(cmp, s)[i], SortBy(cmp, s)[j]) == Equal
    ensures order(SortBy(cmp, s)[i], SortBy(cmp, s)[j]) == Less
  {
    var x := SortBy(cmp, s)[j];
    assert cmp(x, x) == Equal;
    SortStable(cmp, s, x);
    var p, q := TiesKeepOrder(cmp, SortBy(cmp, s), x, i, j);
    TiesSorted(cmp, order, s, x);
  }

  lemma SortMembers<T>(cmp: (T, T) -> Ordering, s: seq<T>)
    ensures forall x :: x in SortBy(cmp, s) <==> x in s
    ensures |SortBy(cmp, s)| == |s|
  {
    SortMultiset(cmp, s);
    forall x ensures x in SortBy(cmp, s) <==> x in s {
      assert x in s <==> x in multiset(s);
    }
    assert |SortBy(cmp, s)| == |multiset(SortBy(cmp, s))|;
  }

  // ---- Adjacent deduplication ----

  /** `Vec::dedup`: keep the first of each run of equal neighbours. */
  function DedupAdjacent<T(==)>(s: seq<T>): seq<T> {
    if |s| <= 1 then s
    else if s[|s| - 1] == s[|s| - 2] then DedupAdjacent(s[..|s| - 1])
    else DedupAdjacent(s[..|s| - 1]) + [s[|s| - 1]]
  }

  lemma {:induction false} DedupMembers<T>(s: seq<T>)
    ensures forall x :: x in DedupAdjacent(s) <==> x in s
  {
    if |s| > 1 {
      DedupMembers(s[..|s| - 1]);
      assert s == s[..|s| - 1] + [s[|s| - 1]];
      assert s[|s| - 2] in s[..|s| - 1];
    }
  }

  lemma {:induction false} DedupStrict<T(!new)>(cmp: (T, T) -> Ordering, s: seq<T>)
    requires TotalOrder(cmp) && Sorted(cmp, s)
    ensures StrictlySorted(cmp, DedupAdjacent(s))
  {
    if |s| > 1 {
      var init, last := s[..|s| - 1], s[|s| - 1];
      DedupStrict(cmp, init);
      DedupMembers(init);
      if last != s[|s| - 2] {
        var r := DedupAdjacent(init);
        forall i | 0 <= i < |r| ensures cmp(r[i], last) == Less {
          assert r[i] in r;
          var j :| 0 <= j < |init| && init[j] == r[i];
          assert cmp(s[|s| - 2], last) == Less;
          assert j == |s| - 2 || cmp(s[j], s[|s| - 2]) != Greater;
        }
      }
    }
  }

  /** `sort` followed by `dedup`, and equally the content of a `BTreeSet` in iteration order. */
  function Canonical<T(==)>(cmp: (T, T) -> Ordering, s: seq<T>): seq<T> {
    DedupAdjacent(SortBy(cmp, s))
  }

  lemma CanonicalCorrect<T(!new)>(cmp: (T, T) -> Ordering, s: seq<T>)
    requires TotalOrder(cmp)
    ensures StrictlySorted(cmp, Canonical(cmp, s))
    ensures forall x :: x in Canonical(cmp, s) <==> x in s
  {
    SortSorted(cmp, s);
    SortMembers(cmp, s);
    DedupStrict(cmp, SortBy(cmp, s));
    DedupMembers(SortBy(cmp, s));
  }

  lemma SameLast<T(!new)>(cmp: (T, T) -> Ordering, s: seq<T>, t: seq<T>)
    requires TotalOrder(cmp) && StrictlySorted(cmp, s) && StrictlySorted(cmp, t)
    requires s != [] && t != [] && forall x :: x in s <==> x in t
    ensures s[|s| - 1] == t[|t| - 1]
    ensures var s0, t0 := s[..|s| - 1], t[..|t| - 1]; forall x :: x in s0 <==> x in t0
  {
    var s0, a, t0, b := s[..|s| - 1], s[|s| - 1], t[..|t| - 1], t[|t| - 1];
    assert s == s0 + [a] && t == t0 + [b];
    assert a in t && b in s;
    assert a == b;
    forall x ensures x in s0 <==> x in t0 {
      if x in s0 { assert cmp(x, a) == Less && x in s; }
      if x in t0 { assert cmp(x, b) == Less && x in t; }
    }
  }

  /** A strictly sorted sequence is determined by its elements. */
  lemma {:induction false} StrictlySortedUnique<T(!new)>(cmp: (T, T) -> Ordering, s: seq<T>, t: seq<T>)
    requires TotalOrder(cmp) && StrictlySorted(cmp, s) && StrictlySorted(cmp, t)
    requires forall x :: x in s <==> x in t
    ensures s == t
  {
    assert s != [] ==> s[0] in t;
    assert t != [] ==> t[0] in s;
    if s != [] {
      SameLast(cmp, s, t);
      StrictlySortedUnique(cmp, s[..|s| - 1], t[..|t| - 1]);
      assert s == s[..|s| - 1] + [s[|s| - 1]] && t == t[..|t| - 1] + [t[|t| - 1]];
    }
  }

  lemma CanonicalDependsOnMembers<T(!new)>(cmp: (T, T) -> Ordering, s: seq<T>, t: seq<T>)
    requires TotalOrder(cmp)
    requires forall x :: x in s <==> x in t
    ensures Canonical(cmp, s) == Canonical(cmp, t)
  {
    CanonicalCorrect(cmp, s);
    CanonicalCorrect(cmp, t);
    StrictlySortedUnique(cmp, Canonical(cmp, s), Canonical(cmp, t));
  }

  // ---- Multisets of elements ----

  ghost predicate NoDuplicates<T>(s: seq<T>) {
    forall i, j :: 0 <= i < j < |s| ==> s[i] != s[j]
  }

  lemma SameMembers<T>(a: seq<T>, b: seq<T>)
    requires multiset(a) == multiset(b)
    ensures forall x :: x in a <==> x in b
    ensures |a| == |b|
  {
    forall x ensures x in a <==> x in b {
      assert x in a <==> x in multiset(a);
    }
    assert |a| == |multiset(a)|;
  }

  /** The head of one ordering can be taken out of any other ordering. */
  lemma TakeOut<T>(a: seq<T>, b: seq<T>) returns (i: nat)
    requires multiset(a) == multiset(b) && a != []
    ensures i < |b| && b[i] == a[0]
    ensures multiset(a[1..]) == multiset(b[..i] + b[i + 1..])
  {
    SameMembers(a, b);
    assert a[0] in a;
    assert a[0] in b;
    i :| i < |b| && b[i] == a[0];
    assert a == [a[0]] + a[1..];
    assert b == b[..i] + [b[i]] + b[i + 1..];
    assert multiset(a) == multiset{a[0]} + multiset(a[1..]);
    assert multiset(b) == multiset{a[0]} + multiset(b[..i] + b[i + 1..]);
    assert multiset(a[1..]) == multiset(a) - multiset{a[0]};
  }

  lemma Associative<T>(a: seq<T>, b: seq<T>, c: seq<T>)
    ensures a + (b + c) == (a + b) + c
  {
  }

  lemma HasMember<T>(s: seq<T>)
    requires s != []
    ensures exists x :: x in s
  {
    assert s[0] in s;
  }

  lemma OccursOnce<T>(a: seq<T>, i: nat)
    requires NoDuplicates(a) && i < |a|
    ensures multiset(a)[a[i]] == 1
  {
    assert a == a[..i] + [a[i]] + a[i + 1..];
    assert a[i] !in a[..i] && a[i] !in a[i + 1..];
  }

  lemma OccursTwice<T>(b: seq<T>, i: nat, j: nat)
    requires i < j < |b| && b[i] == b[j]
    ensures multiset(b)[b[i]] >= 2
  {
    assert b == b[..j] + [b[j]] + b[j + 1..];
    assert b[i] in b[..j];
  }

  lemma NoDuplicatesPermutation<T>(a: seq<T>, b: seq<T>)
    requires multiset(a) == multiset(b) && NoDuplicates(a)
    ensures NoDuplicates(b)
  {
    SameMembers(a, b);
    forall i, j | 0 <= i < j < |b| ensures b[i] != b[j] {
      assert b[i] in a;
      var k :| 0 <= k < |a| && a[k] == b[i];
      OccursOnce(a, k);
      if b[i] == b[j] {
        OccursTwice(b, i, j);
      }
    }
  }

  lemma {:induction false} NothingToDedup<T>(t: seq<T>)
    requires NoDuplicates(t)
    ensures DedupAdjacent(t) == t
  {
    if |t| > 1 {
      NothingToDedup(t[..|t| - 1]);
      assert t == t[..|t| - 1] + [t[|t| - 1]];
    }
  }

  /** Sorting a duplicate-free sequence already yields the canonical one. */
  lemma SortedNoDuplicates<T>(cmp: (T, T) -> Ordering, s: seq<T>)
    requires NoDuplicates(s)
    ensures Canonical(cmp, s) == SortBy(cmp, s)
  {
    SortMultiset(cmp, s);
    NoDuplicatesPermutation(s, SortBy(cmp, s));
    NothingToDedup(SortBy(cmp, s));
  }
}
