/**
 * Grouping the papers of an overview by their primary category
 * (backend/services/overview_service.py, `cluster_papers_by_category`).
 *
 * The source fills a `defaultdict(list)` in one pass and then orders its
 * items by group size, largest first, with Python's stable `sorted`. A
 * Python dict remembers the order in which keys were first inserted; the
 * model keeps that order in `order` beside a `map` from category to papers.
 */
module Clustering {
  import opened Papers
  import opened Sequences

  const Uncategorized := "Uncategorized"

  /** The category a paper is filed under: its first category, if it has any. */
  function PrimaryCategory(p: Paper): (category: string)
    ensures |p.categories| > 0 ==> category == p.categories[0]
    ensures |p.categories| == 0 ==> category == Uncategorized
  {
    if |p.categories| > 0 then p.categories[0] else Uncategorized
  }

  datatype Cluster = Cluster(category: string, papers: seq<Paper>)

  function Size(c: Cluster): nat
  {
    |c.papers|
  }

  /** The distinct primary categories of `papers`, in order of first appearance. */
  function CategoriesInOrder(papers: seq<Paper>): (categories: seq<string>)
    ensures forall i, j :: 0 <= i < j < |categories| ==> categories[i] != categories[j]
  {
    if papers == [] then []
    else
      var earlier := CategoriesInOrder(papers[..|papers| - 1]);
      var category := PrimaryCategory(papers[|papers| - 1]);
      if category in earlier then earlier else earlier + [category]
  }

  /** The papers filed under `category`, in input order. */
  function Members(papers: seq<Paper>, category: string): (members: seq<Paper>)
    ensures |members| <= |papers|
  {
    if papers == [] then []
    else
      var last := papers[|papers| - 1];
      Members(papers[..|papers| - 1], category) + (if PrimaryCategory(last) == category then [last] else [])
  }

  /** One cluster per listed category, in the listed order. */
  function GroupedBy(papers: seq<Paper>, categories: seq<string>): (clusters: seq<Cluster>)
    ensures |clusters| == |categories|
    ensures forall i :: 0 <= i < |categories| ==>
      clusters[i] == Cluster(categories[i], Members(papers, categories[i]))
  {
    if categories == [] then []
    else [Cluster(categories[0], Members(papers, categories[0]))] + GroupedBy(papers, categories[1..])
  }

  /** The clusters before sorting: the dict's items in insertion order. */
  function Grouped(papers: seq<Paper>): seq<Cluster>
  {
    GroupedBy(papers, CategoriesInOrder(papers))
  }

  /** Every paper of every cluster, counted with multiplicity. */
  function AllPapers(clusters: seq<Cluster>): multiset<Paper>
  {
    if clusters == [] then multiset{} else multiset(clusters[0].papers) + AllPapers(clusters[1..])
  }

  predicate DistinctCategories(clusters: seq<Cluster>)
  {
    forall i, j :: 0 <= i < j < |clusters| ==> clusters[i].category != clusters[j].category
  }

  predicate BySizeDescending(clusters: seq<Cluster>)
  {
    forall i, j :: 0 <= i < j < |clusters| ==> Size(clusters[j]) <= Size(clusters[i])
  }

  /** The clusters of size `n`, in the order they appear: the ties a stable sort must keep. */
  function WithSize(clusters: seq<Cluster>, n: nat): seq<Cluster>
  {
    if clusters == [] then []
    else (if Size(clusters[0]) == n then [clusters[0]] else []) + WithSize(clusters[1..], n)
  }

  /** Inserts `c` after every cluster at least as large: one step of a stable sort, largest first. */
  function Insert(sorted: seq<Cluster>, c: Cluster): (r: seq<Cluster>)
    ensures |r| == |sorted| + 1
    ensures multiset(r) == multiset(sorted) + multiset{c}
  {
    if sorted == [] then [c]
    else if Size(sorted[0]) >= Size(c) then
      assert sorted == [sorted[0]] + sorted[1..];
      [sorted[0]] + Insert(sorted[1..], c)
    else [c] + sorted
  }

  /** Python's `sorted(items, key=size, reverse=True)`: stable, largest first. */
  function SortBySize(clusters: seq<Cluster>): (sorted: seq<Cluster>)
    ensures |sorted| == |clusters|
    ensures multiset(sorted) == multiset(clusters)
  {
    if clusters == [] then []
    else
      assert clusters == clusters[..|clusters| - 1] + [clusters[|clusters| - 1]];
      Insert(SortBySize(clusters[..|clusters| - 1]), clusters[|clusters| - 1])
  }

  /** The result of `cluster_papers_by_category`. */
  function Clusters(papers: seq<Paper>): seq<Cluster>
  {
    SortBySize(Grouped(papers))
  }

  method ClusterPapersByCategory(papers: seq<Paper>) returns (clusters: seq<Cluster>)
    ensures clusters == Clusters(papers)
  {
    var order: seq<string> := [];
    var groups: map<string, seq<Paper>> := map[];
    for i := 0 to |papers|
      invariant Indexed(papers[..i], order, groups)
    {
      var paper := papers[i];
      var primary := PrimaryCategory(paper);
      PrefixSnoc(papers, i);
      if primary !in groups {
        IndexNewCategory(papers[..i], order, groups, paper);
        order := order + [primary];
        groups := groups[primary := []];
      } else {
        IndexKnownCategory(papers[..i], order, groups, paper);
      }
      groups := groups[primary := groups[primary] + [paper]];
    }
    PrefixAll(papers);
    var items := seq(|order|, j requires 0 <= j < |order| => Cluster(order[j], groups[order[j]]));
    assert items == GroupedBy(papers, order);
    clusters := SortBySize(items);
  }

  /**
   * The state of the grouping loop after the papers `done`: the categories
   * in order of first appearance, and for each the papers filed under it.
   */
  ghost predicate Indexed(done: seq<Paper>, order: seq<string>, groups: map<string, seq<Paper>>)
  {
    && order == CategoriesInOrder(done)
    && (forall k :: k in groups <==> k in order)
    && (forall k :: k in groups ==> groups[k] == Members(done, k))
  }

  /** A paper of a category not seen so far opens a group of its own. */
  lemma IndexNewCategory(done: seq<Paper>, order: seq<string>, groups: map<string, seq<Paper>>, p: Paper)
    requires Indexed(done, order, groups) && PrimaryCategory(p) !in groups
    ensures var c := PrimaryCategory(p);
      Indexed(done + [p], order + [c], groups[c := []][c := [] + [p]])
  {
    var c := PrimaryCategory(p);
    var after := groups[c := []][c := [] + [p]];
    assert [] + [p] == [p];
    assert after == groups[c := [p]];
    assert c !in order;
    CategoriesSnoc(done, p);
    assert CategoriesInOrder(done + [p]) == order + [c];
    forall k | k in after
      ensures after[k] == Members(done + [p], k)
    {
      MembersSnoc(done, p, k);
      if k == c {
        MembersOfAbsent(done, c);
      }
    }
  }

  /** A paper of a category seen before joins that category's group. */
  lemma IndexKnownCategory(done: seq<Paper>, order: seq<string>, groups: map<string, seq<Paper>>, p: Paper)
    requires Indexed(done, order, groups) && PrimaryCategory(p) in groups
    ensures var c := PrimaryCategory(p);
      Indexed(done + [p], order, groups[c := groups[c] + [p]])
  {
    var c := PrimaryCategory(p);
    CategoriesSnoc(done, p);
    forall k | k in groups
      ensures Members(done + [p], k) == Members(done, k) + (if k == c then [p] else [])
    {
      MembersSnoc(done, p, k);
    }
  }

  // ---------------------------------------------------------------------
  // Grouping
  // ---------------------------------------------------------------------

  /** A category that no paper is filed under has no members. */
  lemma {:induction false} MembersOfAbsent(papers: seq<Paper>, category: string)
    requires category !in CategoriesInOrder(papers)
    ensures Members(papers, category) == []
  {
    var n := |papers|;
    if n > 0 {
      MembersOfAbsent(papers[..n - 1], category);
    }
  }

  lemma CategoriesSnoc(papers: seq<Paper>, p: Paper)
    ensures var earlier := CategoriesInOrder(papers);
      CategoriesInOrder(papers + [p])
        == if PrimaryCategory(p) in earlier then earlier else earlier + [PrimaryCategory(p)]
  {
    assert (papers + [p])[..|papers|] == papers;
  }

  lemma MembersSnoc(papers: seq<Paper>, p: Paper, category: string)
    ensures Members(papers + [p], category)
         == Members(papers, category) + (if PrimaryCategory(p) == category then [p] else [])
  {
    assert (papers + [p])[..|papers|] == papers;
  }

  /** A cluster's members are exactly the input papers of its category. */
  lemma {:induction false} MembersAreTheCategory(papers: seq<Paper>, category: string)
    ensures forall p :: p in Members(papers, category) <==> p in papers && PrimaryCategory(p) == category
  {
    var n := |papers|;
    if n > 0 {
      MembersAreTheCategory(papers[..n - 1], category);
      assert papers == papers[..n - 1] + [papers[n - 1]];
    }
  }

  /** Every paper's primary category is listed. */
  lemma {:induction false} CategoriesListPrimaries(papers: seq<Paper>)
    ensures forall p :: p in papers ==> PrimaryCategory(p) in CategoriesInOrder(papers)
  {
    var n := |papers|;
    if n > 0 {
      CategoriesListPrimaries(papers[..n - 1]);
      assert papers == papers[..n - 1] + [papers[n - 1]];
    }
  }

  /** Every listed category of the papers has at least one member. */
  lemma MembersOfPresent(papers: seq<Paper>, category: string)
    requires category in CategoriesInOrder(papers)
    ensures Members(papers, category) != []
  {
    var n := |papers|;
    if n > 0 {
      var earlier := CategoriesInOrder(papers[..n - 1]);
      if category in earlier {
        MembersOfPresent(papers[..n - 1], category);
      }
    }
  }

  /** Adding one paper adds it to the cluster of its category and to no other. */
  lemma {:induction false} AllPapersSnoc(papers: seq<Paper>, p: Paper, categories: seq<string>)
    requires forall i, j :: 0 <= i < j < |categories| ==> categories[i] != categories[j]
    ensures AllPapers(GroupedBy(papers + [p], categories))
         == AllPapers(GroupedBy(papers, categories))
            + (if PrimaryCategory(p) in categories then multiset{p} else multiset{})
  {
    if categories != [] {
      var xs := papers + [p];
      assert xs[..|xs| - 1] == papers;
      AllPapersSnoc(papers, p, categories[1..]);
      assert PrimaryCategory(p) in categories <==>
        PrimaryCategory(p) == categories[0] || PrimaryCategory(p) in categories[1..];
      assert categories[0] !in categories[1..];
    }
  }

  lemma GroupedBySnoc(papers: seq<Paper>, categories: seq<string>, k: string)
    ensures GroupedBy(papers, categories + [k]) == GroupedBy(papers, categories) + [Cluster(k, Members(papers, k))]
  {
  }

  /** Grouping neither drops nor duplicates a paper. */
  lemma {:induction false} AllPapersGrouped(papers: seq<Paper>)
    ensures AllPapers(Grouped(papers)) == multiset(papers)
  {
    var n := |papers|;
    if n > 0 {
      var init, p := papers[..n - 1], papers[n - 1];
      assert papers == init + [p];
      var earlier := CategoriesInOrder(init);
      var k := PrimaryCategory(p);
      AllPapersGrouped(init);
      AllPapersSnoc(init, p, earlier);
      CategoriesSnoc(init, p);
      if k !in earlier {
        var tail := [Cluster(k, Members(papers, k))];
        GroupedBySnoc(papers, earlier, k);
        AllPapersSplit(GroupedBy(papers, earlier), tail);
        MembersOfAbsent(init, k);
        MembersSnoc(init, p, k);
        assert AllPapers(tail) == multiset{p};
      }
    }
  }

  lemma {:induction false} AllPapersSplit(a: seq<Cluster>, b: seq<Cluster>)
    ensures AllPapers(a + b) == AllPapers(a) + AllPapers(b)
  {
    if a != [] {
      assert (a + b)[0] == a[0];
      assert (a + b)[1..] == a[1..] + b;
      AllPapersSplit(a[1..], b);
      assert AllPapers(a + b) == multiset(a[0].papers) + AllPapers(a[1..] + b);
    } else {
      assert a + b == b;
    }
  }

  // ---------------------------------------------------------------------
  // Sorting
  // ---------------------------------------------------------------------

  lemma {:induction false} WithSizeSplit(a: seq<Cluster>, b: seq<Cluster>, n: nat)
    ensures WithSize(a + b, n) == WithSize(a, n) + WithSize(b, n)
  {
    if a != [] {
      assert (a + b)[0] == a[0];
      assert (a + b)[1..] == a[1..] + b;
      WithSizeSplit(a[1..], b, n);
      assert WithSize(a + b, n) == (if Size(a[0]) == n then [a[0]] else []) + WithSize(a[1..] + b, n);
    } else {
      assert a + b == b;
    }
  }

  lemma {:induction false} WithSizeNone(clusters: seq<Cluster>, n: nat)
    requires forall i :: 0 <= i < |clusters| ==> Size(clusters[i]) < n
    ensures WithSize(clusters, n) == []
  {
    if clusters != [] {
      WithSizeNone(clusters[1..], n);
    }
  }

  lemma {:induction false} InsertKeepsOrder(sorted: seq<Cluster>, c: Cluster)
    requires BySizeDescending(sorted)
    ensures BySizeDescending(Insert(sorted, c))
  {
    if sorted != [] && Size(sorted[0]) >= Size(c) {
      InsertKeepsOrder(sorted[1..], c);
      var rest := Insert(sorted[1..], c);
      forall x | x in rest ensures Size(x) <= Size(sorted[0]) {
        assert x in multiset(rest);
      }
    }
  }

  /** Inserting keeps the clusters of each size in their arrival order. */
  lemma {:induction false} InsertIsStable(sorted: seq<Cluster>, c: Cluster, n: nat)
    requires BySizeDescending(sorted)
    ensures WithSize(Insert(sorted, c), n) == WithSize(sorted + [c], n)
  {
    if sorted == [] {
      assert sorted + [c] == [c];
    } else if Size(sorted[0]) >= Size(c) {
      var first, rest := sorted[0], sorted[1..];
      assert Insert(sorted, c) == [first] + Insert(rest, c);
      assert sorted + [c] == [first] + (rest + [c]);
      WithSizeCons(first, Insert(rest, c), n);
      WithSizeCons(first, rest + [c], n);
      InsertIsStable(rest, c, n);
    } else {
      assert Insert(sorted, c) == [c] + sorted;
      WithSizeCons(c, sorted, n);
      WithSizeSplit(sorted, [c], n);
      assert [c] == [c] + [];
      WithSizeCons(c, [], n);
      if n == Size(c) {
        WithSizeNone(sorted, n);
      }
    }
  }

  lemma WithSizeCons(x: Cluster, rest: seq<Cluster>, n: nat)
    ensures WithSize([x] + rest, n) == (if Size(x) == n then [x] else []) + WithSize(rest, n)
  {
    assert ([x] + rest)[0] == x && ([x] + rest)[1..] == rest;
  }

  /** The sort puts larger clusters first and keeps equal-sized ones in their original order. */
  lemma {:induction false} SortBySizeOrders(clusters: seq<Cluster>)
    ensures BySizeDescending(SortBySize(clusters))
    ensures forall n: nat :: WithSize(SortBySize(clusters), n) == WithSize(clusters, n)
  {
    if clusters != [] {
      var init, last := clusters[..|clusters| - 1], clusters[|clusters| - 1];
      assert clusters == init + [last];
      SortBySizeOrders(init);
      InsertKeepsOrder(SortBySize(init), last);
      forall n: nat ensures WithSize(SortBySize(clusters), n) == WithSize(clusters, n) {
        InsertIsStable(SortBySize(init), last, n);
        WithSizeSplit(SortBySize(init), [last], n);
        WithSizeSplit(init, [last], n);
      }
    }
  }

  lemma {:induction false} InsertKeepsDistinct(sorted: seq<Cluster>, c: Cluster)
    requires DistinctCategories(sorted)
    requires forall x :: x in sorted ==> x.category != c.category
    ensures DistinctCategories(Insert(sorted, c))
  {
    if sorted != [] && Size(sorted[0]) >= Size(c) {
      InsertKeepsDistinct(sorted[1..], c);
      var rest := Insert(sorted[1..], c);
      forall x | x in rest ensures x.category != sorted[0].category {
        assert x in multiset(rest);
      }
    }
  }

  lemma {:induction false} SortKeepsDistinct(clusters: seq<Cluster>)
    requires DistinctCategories(clusters)
    ensures DistinctCategories(SortBySize(clusters))
  {
    if clusters != [] {
      var init, last := clusters[..|clusters| - 1], clusters[|clusters| - 1];
      SortKeepsDistinct(init);
      forall x | x in SortBySize(init) ensures x.category != last.category {
        assert x in multiset(SortBySize(init));
      }
      InsertKeepsDistinct(SortBySize(init), last);
    }
  }

  lemma {:induction false} InsertKeepsAllPapers(sorted: seq<Cluster>, c: Cluster)
    ensures AllPapers(Insert(sorted, c)) == AllPapers(sorted) + multiset(c.papers)
  {
    if sorted != [] && Size(sorted[0]) >= Size(c) {
      InsertKeepsAllPapers(sorted[1..], c);
    }
  }

  lemma {:induction false} SortKeepsAllPapers(clusters: seq<Cluster>)
    ensures AllPapers(SortBySize(clusters)) == AllPapers(clusters)
  {
    if clusters != [] {
      var init, last := clusters[..|clusters| - 1], clusters[|clusters| - 1];
      assert clusters == init + [last];
      SortKeepsAllPapers(init);
      InsertKeepsAllPapers(SortBySize(init), last);
      AllPapersSplit(init, [last]);
    }
  }

  // ---------------------------------------------------------------------
  // What cluster_papers_by_category promises
  // ---------------------------------------------------------------------

  /** Every input paper is in exactly one cluster: nothing is dropped or duplicated. */
  lemma ClustersCoverPapers(papers: seq<Paper>)
    ensures AllPapers(Clusters(papers)) == multiset(papers)
  {
    SortKeepsAllPapers(Grouped(papers));
    AllPapersGrouped(papers);
  }

  /**
   * Each cluster holds exactly the papers of its category, in input order,
   * and is not empty; no category has two clusters, and every paper's
   * primary category has one.
   */
  lemma ClustersAreCategories(papers: seq<Paper>)
    ensures var clusters := Clusters(papers);
      && DistinctCategories(clusters)
      && (forall i :: 0 <= i < |clusters| ==>
            clusters[i].papers == Members(papers, clusters[i].category) && clusters[i].papers != [])
      && (forall p :: p in papers ==> exists i :: 0 <= i < |clusters| && clusters[i].category == PrimaryCategory(p))
  {
    var grouped := Grouped(papers);
    var clusters := Clusters(papers);
    var categories := CategoriesInOrder(papers);
    SortKeepsDistinct(grouped);
    CategoriesListPrimaries(papers);
    forall i | 0 <= i < |clusters|
      ensures clusters[i].papers == Members(papers, clusters[i].category) && clusters[i].papers != []
    {
      assert clusters[i] in multiset(grouped);
      var j :| 0 <= j < |grouped| && grouped[j] == clusters[i];
      MembersOfPresent(papers, categories[j]);
    }
    forall p | p in papers
      ensures exists i :: 0 <= i < |clusters| && clusters[i].category == PrimaryCategory(p)
    {
      var j :| 0 <= j < |categories| && categories[j] == PrimaryCategory(p);
      assert grouped[j] in multiset(clusters);
      var i :| 0 <= i < |clusters| && clusters[i] == grouped[j];
    }
  }

  /**
   * Larger clusters come first; clusters of equal size keep the order in
   * which their categories first appeared in the input.
   */
  lemma ClustersBySize(papers: seq<Paper>)
    ensures BySizeDescending(Clusters(papers))
    ensures forall n: nat :: WithSize(Clusters(papers), n) == WithSize(Grouped(papers), n)
  {
    SortBySizeOrders(Grouped(papers));
  }

  /** There is one cluster per distinct primary category. */
  lemma ClusterCount(papers: seq<Paper>)
    ensures |Clusters(papers)| == |set p | p in papers :: PrimaryCategory(p)|
  {
    var categories := CategoriesInOrder(papers);
    CategoriesInOrderAreThePrimaries(papers);
    DistinctCardinality(categories);
  }

  /** A listed category is the primary category of some paper. */
  lemma ListedHasPaper(papers: seq<Paper>, category: string)
    requires category in CategoriesInOrder(papers)
    ensures exists a :: 0 <= a < |papers| && PrimaryCategory(papers[a]) == category
  {
    MembersOfPresent(papers, category);
    MembersAreTheCategory(papers, category);
    var p := Members(papers, category)[0];
    assert p in Members(papers, category);
    var a :| 0 <= a < |papers| && papers[a] == p;
  }

  /**
   * The categories come in order of first appearance: an earlier listed
   * category is filed by some paper before any paper of a later one.
   */
  lemma {:induction false} FirstAppearance(papers: seq<Paper>, i: nat, j: nat)
    requires i < j < |CategoriesInOrder(papers)|
    ensures var categories := CategoriesInOrder(papers);
      exists a :: 0 <= a < |papers| && PrimaryCategory(papers[a]) == categories[i]
        && forall b :: 0 <= b <= a ==> PrimaryCategory(papers[b]) != categories[j]
  {
    var n := |papers|;
    var init, last := papers[..n - 1], papers[n - 1];
    assert papers == init + [last];
    var earlier := CategoriesInOrder(init);
    var categories := CategoriesInOrder(papers);
    CategoriesSnoc(init, last);
    if j < |earlier| {
      assert categories[i] == earlier[i] && categories[j] == earlier[j];
      FirstAppearance(init, i, j);
      var a :| 0 <= a < |init| && PrimaryCategory(init[a]) == earlier[i]
        && forall b :: 0 <= b <= a ==> PrimaryCategory(init[b]) != earlier[j];
      assert forall b :: 0 <= b <= a ==> papers[b] == init[b];
      assert PrimaryCategory(papers[a]) == categories[i];
    } else {
      assert categories == earlier + [PrimaryCategory(last)];
      assert categories[i] in earlier;
      ListedHasPaper(init, categories[i]);
      var a :| 0 <= a < |init| && PrimaryCategory(init[a]) == categories[i];
      CategoriesListPrimaries(init);
      forall b | 0 <= b <= a
        ensures PrimaryCategory(papers[b]) != categories[j]
      {
        assert papers[b] == init[b] && init[b] in init;
      }
      assert PrimaryCategory(papers[a]) == categories[i];
    }
  }

  lemma CategoriesInOrderAreThePrimaries(papers: seq<Paper>)
    ensures (set k | k in CategoriesInOrder(papers)) == (set p | p in papers :: PrimaryCategory(p))
  {
    var n := |papers|;
    if n > 0 {
      var init, p := papers[..n - 1], papers[n - 1];
      CategoriesInOrderAreThePrimaries(init);
      assert papers == init + [p];
      assert (set q | q in papers :: PrimaryCategory(q)) == (set q | q in init :: PrimaryCategory(q)) + {PrimaryCategory(p)};
      CategoriesSnoc(init, p);
      assert (set k | k in CategoriesInOrder(papers)) == (set k | k in CategoriesInOrder(init)) + {PrimaryCategory(p)};
    }
  }

  lemma {:induction false} DistinctCardinality(s: seq<string>)
    requires forall i, j :: 0 <= i < j < |s| ==> s[i] != s[j]
    ensures |set k | k in s| == |s|
  {
    if s != [] {
      var init := s[..|s| - 1];
      DistinctCardinality(init);
      assert (set k | k in s) == (set k | k in init) + {s[|s| - 1]};
    }
  }
}
