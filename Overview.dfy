/**
 * The end of `generate_overview` (backend/services/overview_service.py):
 * the result for an empty selection, the per-category sections, and the
 * markdown document assembled from a header, an optional executive
 * summary, a numbered table of contents whose links point at slug
 * anchors, and one block per category.
 *
 * The database query, the language-model calls and the date formatting
 * are not part of the model: the papers arrive as a sequence, the two
 * dates as the text `strftime` printed, a category's narrative as the
 * value of `narrate` on what the model is shown (the category id, its
 * name and its batches), and the executive summary as the value of
 * `summarize` on the sections ("" when that call failed).
 */
module Overview {
  import opened Text
  import opened Papers
  import opened Prompt
  import opened Clustering
  import opened Batching
  import opened Markdown
  import opened Sequences

  // ---------------------------------------------------------------------
  // Sections
  // ---------------------------------------------------------------------

  /** The sections for the clusters, in cluster order. */
  function SectionsOf(clusters: seq<Cluster>, cost: Paper -> nat, maxTokens: int,
                      narrate: (string, string, seq<seq<Paper>>) -> string): seq<Section>
  {
    seq(|clusters|, i requires 0 <= i < |clusters| =>
      var name := FriendlyCategory(clusters[i].category);
      Section(name, narrate(clusters[i].category, name, Batches(clusters[i].papers, cost, maxTokens)),
              |clusters[i].papers|))
  }

  /** The papers counted over all sections. */
  function TotalCount(sections: seq<Section>): nat
  {
    if sections == [] then 0 else sections[0].count + TotalCount(sections[1..])
  }

  lemma SectionsSnoc(clusters: seq<Cluster>, i: nat, cost: Paper -> nat, maxTokens: int,
                     narrate: (string, string, seq<seq<Paper>>) -> string)
    requires i < |clusters|
    ensures var c := clusters[i]; var name := FriendlyCategory(c.category);
      SectionsOf(clusters[..i + 1], cost, maxTokens, narrate)
        == SectionsOf(clusters[..i], cost, maxTokens, narrate)
           + [Section(name, narrate(c.category, name, Batches(c.papers, cost, maxTokens)), |c.papers|)]
  {
  }

  /** The section counts add up to the papers in the clusters. */
  lemma {:induction false} TotalCountOfClusters(clusters: seq<Cluster>, cost: Paper -> nat, maxTokens: int,
                                                narrate: (string, string, seq<seq<Paper>>) -> string)
    ensures TotalCount(SectionsOf(clusters, cost, maxTokens, narrate)) == |AllPapers(clusters)|
  {
    if clusters != [] {
      var sections := SectionsOf(clusters, cost, maxTokens, narrate);
      assert sections[1..] == SectionsOf(clusters[1..], cost, maxTokens, narrate);
      TotalCountOfClusters(clusters[1..], cost, maxTokens, narrate);
    }
  }

  // ---------------------------------------------------------------------
  // The overview
  // ---------------------------------------------------------------------

  datatype OverviewResult = OverviewResult(markdown: string, paperCount: nat, clusterCount: nat)

  /** The overview of the selected papers. */
  function OverviewOf(papers: seq<Paper>, startText: string, endText: string,
                    countTokens: string -> nat, maxTokens: int,
                    narrate: (string, string, seq<seq<Paper>>) -> string,
                    summarize: seq<Section> -> string): OverviewResult
  {
    if papers == [] then OverviewResult(NoPapersMarkdown, 0, 0)
    else
      var clusters := Clusters(papers);
      var sections := SectionsOf(clusters, PaperCost(countTokens), maxTokens, narrate);
      var summary := if |sections| > 1 then summarize(sections) else "";
      OverviewResult(Join(MarkdownParts(startText, endText, |papers|, |clusters|, summary, sections), "\n"),
                     |papers|, |clusters|)
  }

  method GenerateOverview(papers: seq<Paper>, startText: string, endText: string,
                          countTokens: string -> nat, maxTokens: int,
                          narrate: (string, string, seq<seq<Paper>>) -> string,
                          summarize: seq<Section> -> string)
    returns (result: OverviewResult)
    ensures result == OverviewOf(papers, startText, endText, countTokens, maxTokens, narrate, summarize)
  {
    if papers == [] {
      return OverviewResult(NoPapersMarkdown, 0, 0);
    }
    var clusters := ClusterPapersByCategory(papers);
    var sections := NarrateClusters(clusters, countTokens, maxTokens, narrate);
    var summary := "";
    if |sections| > 1 {
      summary := summarize(sections);
    }
    var markdown := AssembleMarkdown(startText, endText, |papers|, |clusters|, summary, sections);
    result := OverviewResult(markdown, |papers|, |clusters|);
  }

  /** The loop over the clusters: label, batches and narrative of each, in cluster order. */
  method NarrateClusters(clusters: seq<Cluster>, countTokens: string -> nat, maxTokens: int,
                         narrate: (string, string, seq<seq<Paper>>) -> string)
    returns (sections: seq<Section>)
    ensures sections == SectionsOf(clusters, PaperCost(countTokens), maxTokens, narrate)
  {
    sections := [];
    for i := 0 to |clusters|
      invariant sections == SectionsOf(clusters[..i], PaperCost(countTokens), maxTokens, narrate)
    {
      var category := clusters[i].category;
      var name := FriendlyCategory(category);
      var batches := BatchPapersByBudget(clusters[i].papers, countTokens, maxTokens);
      var narrative := narrate(category, name, batches);
      SectionsSnoc(clusters, i, PaperCost(countTokens), maxTokens, narrate);
      sections := sections + [Section(name, narrative, |clusters[i].papers|)];
    }
    PrefixAll(clusters);
  }

  /**
   * The counts: `paper_count` is the number of papers, `cluster_count` the
   * number of distinct primary categories, and no papers give the fixed
   * message with both counts 0.
   */
  lemma OverviewCounts(papers: seq<Paper>, startText: string, endText: string,
                       countTokens: string -> nat, maxTokens: int,
                       narrate: (string, string, seq<seq<Paper>>) -> string,
                       summarize: seq<Section> -> string)
    ensures var r := OverviewOf(papers, startText, endText, countTokens, maxTokens, narrate, summarize);
      && r.paperCount == |papers|
      && r.clusterCount == |set p | p in papers :: PrimaryCategory(p)|
      && (papers == [] ==> r.markdown == NoPapersMarkdown)
  {
    if papers == [] {
      assert (set p | p in papers :: PrimaryCategory(p)) == {};
    } else {
      ClusterCount(papers);
    }
  }

  /** An overview of some papers opens with the title line. */
  lemma OverviewStartsWithTitle(papers: seq<Paper>, startText: string, endText: string,
                                countTokens: string -> nat, maxTokens: int,
                                narrate: (string, string, seq<seq<Paper>>) -> string,
                                summarize: seq<Section> -> string)
    requires papers != []
    ensures var md := OverviewOf(papers, startText, endText, countTokens, maxTokens, narrate, summarize).markdown;
      |Title| <= |md| && md[..|Title|] == Title
  {
    var clusters := Clusters(papers);
    var sections := SectionsOf(clusters, PaperCost(countTokens), maxTokens, narrate);
    var summary := if |sections| > 1 then summarize(sections) else "";
    var parts := MarkdownParts(startText, endText, |papers|, |clusters|, summary, sections);
    assert parts[0] == Title;
    JoinStartsWithFirst(parts, "\n");
  }

  /**
   * The sections follow the clusters: one per category, in cluster order,
   * labelled with the category's friendly name and counting its papers,
   * and their counts add up to the number of papers.
   */
  lemma SectionsFollowClusters(papers: seq<Paper>, countTokens: string -> nat, maxTokens: int,
                               narrate: (string, string, seq<seq<Paper>>) -> string)
    ensures var clusters := Clusters(papers);
      var sections := SectionsOf(clusters, PaperCost(countTokens), maxTokens, narrate);
      && |sections| == |clusters|
      && (forall i :: 0 <= i < |sections| ==>
            sections[i].name == FriendlyCategory(clusters[i].category)
            && sections[i].count == |clusters[i].papers| > 0)
      && TotalCount(sections) == |papers|
  {
    var clusters := Clusters(papers);
    ClustersAreCategories(papers);
    ClustersCoverPapers(papers);
    TotalCountOfClusters(clusters, PaperCost(countTokens), maxTokens, narrate);
  }

  /**
   * The executive summary appears exactly when there are at least two
   * categories and the summary came back non-empty.
   */
  lemma SummaryNeedsSeveralCategories(papers: seq<Paper>, startText: string, endText: string,
                                      countTokens: string -> nat, maxTokens: int,
                                      narrate: (string, string, seq<seq<Paper>>) -> string,
                                      summarize: seq<Section> -> string)
    requires papers != []
    ensures var clusters := Clusters(papers);
      var sections := SectionsOf(clusters, PaperCost(countTokens), maxTokens, narrate);
      var summary := if |sections| > 1 then summarize(sections) else "";
      var parts := MarkdownParts(startText, endText, |papers|, |clusters|, summary, sections);
      && OverviewOf(papers, startText, endText, countTokens, maxTokens, narrate, summarize).markdown == Join(parts, "\n")
      && (parts[2] == ExecutiveHeading <==> (|clusters| > 1 && summarize(sections) != ""))
  {
    var clusters := Clusters(papers);
    var sections := SectionsOf(clusters, PaperCost(countTokens), maxTokens, narrate);
    var summary := if |sections| > 1 then summarize(sections) else "";
    var head := Opening(startText, endText, |papers|, |clusters|, summary);
    OpeningLayout(startText, endText, |papers|, |clusters|, summary);
    var parts := MarkdownParts(startText, endText, |papers|, |clusters|, summary, sections);
    assert parts[2] == head[2];
  }
}
