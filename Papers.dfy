/**
 * A paper as the overview service and the paper list see it: the fields of
 * the `Paper` row (backend/models.py) that the modelled code reads, with
 * authors and categories reduced to their names in the stored order.
 */
module Papers {
  import opened Wrappers

  datatype Paper = Paper(
    title: string,
    abstractText: string,
    authors: seq<string>,
    categories: seq<string>,
    /** The publication date already rendered as `%Y-%m-%d`, or None when the row has none. */
    published: Option<string>)
}
