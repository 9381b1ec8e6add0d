/**
 * The list page's paper cards (frontend/src/components/NewsletterList.jsx):
 * a loading message while the papers are fetched, otherwise one card per
 * paper with at most two category tags and an author line of at most
 * three names, and a message when there are no papers.
 *
 * Markup, styling, navigation and the locale-dependent date text are not
 * part of the model; a card keeps the publication date as it came.
 */
module NewsletterList {
  import opened Wrappers
  import opened Text
  import opened Papers
  import opened Bylines

  const CardAuthorLimit: nat := 3
  const CardTagLimit: nat := 2

  const LoadingMessage := "Loading papers..."
  const EmptyMessage := "No papers found matching your criteria."

  /** What a card shows of a paper. */
  datatype Card = Card(title: string, published: Option<string>, tags: seq<string>, byline: string,
                       abstractText: string)

  datatype ListView =
    | LoadingView(message: string)
    | PaperGrid(cards: seq<Card>, emptyMessage: Option<string>)

  /** The first category names, at most two, in their order. */
  function CardTags(categories: seq<string>): (tags: seq<string>)
    ensures |tags| == Min(CardTagLimit, |categories|)
    ensures tags == categories[..|tags|]
  {
    categories[..Min(CardTagLimit, |categories|)]
  }

  function PaperCard(p: Paper): Card
  {
    Card(p.title, p.published, CardTags(p.categories), AuthorLine(p.authors, CardAuthorLimit), p.abstractText)
  }

  function RenderList(papers: seq<Paper>, loading: bool): ListView
  {
    if loading then LoadingView(LoadingMessage)
    else PaperGrid(seq(|papers|, i requires 0 <= i < |papers| => PaperCard(papers[i])),
                   if |papers| == 0 then Some(EmptyMessage) else None)
  }

  /**
   * While loading only the loading message is shown; otherwise there is
   * one card per paper, in order, and the empty message appears exactly
   * when there are no papers.
   */
  lemma RenderListShows(papers: seq<Paper>, loading: bool)
    ensures RenderList(papers, loading).LoadingView? <==> loading
    ensures loading ==> RenderList(papers, loading) == LoadingView(LoadingMessage)
    ensures !loading ==>
      var view := RenderList(papers, loading);
      && |view.cards| == |papers|
      && (forall i :: 0 <= i < |papers| ==> view.cards[i] == PaperCard(papers[i]))
      && (view.emptyMessage.Some? <==> papers == [])
  {
  }

  /**
   * A card's author line names the first three authors, in order, and
   * ends in " et al." exactly when the paper has more than three.
   */
  lemma CardByline(p: Paper)
    requires |p.authors| > 0
    requires forall i :: 0 <= i < |p.authors| ==> PlainName(p.authors[i])
    ensures var (shown, etAl) := ParseAuthorLine(PaperCard(p).byline);
      |shown| <= 3 && shown == p.authors[..Min(3, |p.authors|)] && (etAl <==> |p.authors| > 3)
  {
    ParseAuthorLineRoundTrip(p.authors, CardAuthorLimit);
  }

  /** A paper without authors gets an empty author line. */
  lemma CardBylineWithoutAuthors(p: Paper)
    requires p.authors == []
    ensures PaperCard(p).byline == ""
  {
    AuthorLineEmpty(CardAuthorLimit);
  }
}
