/**
 * How the overview service describes one paper to the language model, and
 * the human-readable names of the arXiv categories it knows.
 */
module Prompt {
  import opened Wrappers
  import opened Text
  import opened Papers
  import Bylines

  /** The labels shown for the arXiv categories the overview knows by name. */
  const CategoryLabels: map<string, string> := map[
    "cs.AI" := "Artificial Intelligence",
    "cs.LG" := "Machine Learning",
    "cs.CL" := "Computation & Language (NLP)",
    "cs.CV" := "Computer Vision",
    "cs.CR" := "Cryptography & Security",
    "cs.DB" := "Databases",
    "cs.DC" := "Distributed Computing",
    "cs.DS" := "Data Structures & Algorithms",
    "cs.HC" := "Human-Computer Interaction",
    "cs.IR" := "Information Retrieval",
    "cs.IT" := "Information Theory",
    "cs.MA" := "Multiagent Systems",
    "cs.NE" := "Neural & Evolutionary Computing",
    "cs.NI" := "Networking & Internet Architecture",
    "cs.PL" := "Programming Languages",
    "cs.RO" := "Robotics",
    "cs.SE" := "Software Engineering",
    "cs.SI" := "Social & Information Networks",
    "stat.ML" := "Machine Learning (Statistics)",
    "stat.ME" := "Methodology (Statistics)",
    "stat.TH" := "Theory (Statistics)",
    "q-bio.QM" := "Quantitative Methods (Biology)",
    "q-bio.BM" := "Biomolecules",
    "q-bio.GN" := "Genomics",
    "q-bio.NC" := "Neurons & Cognition"
  ]

  /** The label of a known category; any other category id stands for itself. */
  function FriendlyCategory(id: string): (name: string)
    ensures id in CategoryLabels ==> name == CategoryLabels[id]
    ensures id !in CategoryLabels ==> name == id
  {
    if id in CategoryLabels then CategoryLabels[id] else id
  }

  /** At most this many author names go into a prompt entry. */
  const PromptAuthorLimit: nat := 5

  const UnknownDate := "Unknown"

  /** The date as printed in a prompt entry. */
  function DateText(published: Option<string>): (text: string)
    ensures published.None? ==> text == UnknownDate
    ensures published.Some? ==> text == published.value
  {
    match published
    case None => UnknownDate
    case Some(date) => date
  }

  /** One paper as it appears in a prompt (and as its token count is measured). */
  function FormatPaperForPrompt(p: Paper): (entry: string)
    ensures |entry| > 4 + |p.title| + |p.abstractText|
    ensures entry[..4 + |p.title|] == "### " + p.title
    ensures entry[|entry| - |p.abstractText| - 1..] == p.abstractText + "\n"
  {
    "### " + p.title + "\n**Authors:** " + Bylines.AuthorLine(p.authors, PromptAuthorLimit)
      + " | **Date:** " + DateText(p.published) + "\n\n" + p.abstractText + "\n"
  }

  /**
   * The byline of a prompt entry names the first five authors in order and
   * ends in " et al." exactly when the paper has more than five.
   */
  lemma PromptByline(p: Paper)
    requires |p.authors| > 0
    requires forall i :: 0 <= i < |p.authors| ==> Bylines.PlainName(p.authors[i])
    ensures var (shown, etAl) := Bylines.ParseAuthorLine(Bylines.AuthorLine(p.authors, PromptAuthorLimit));
      |shown| <= 5 && shown == p.authors[..Min(5, |p.authors|)] && (etAl <==> |p.authors| > 5)
  {
    Bylines.ParseAuthorLineRoundTrip(p.authors, PromptAuthorLimit);
  }
}
