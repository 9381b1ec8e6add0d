/**
 * Splitting one cluster into consecutive batches that fit a token budget
 * (backend/services/overview_service.py, `batch_papers_by_budget`).
 *
 * The tokenizer is not part of the model: `countTokens` stands for
 * `count_tokens`, an arbitrary function from text to a count, and a paper
 * costs what its prompt entry costs. The budget `maxTokens` is given; it is
 * an `int` because the arithmetic that computes it may go below zero.
 */
module Batching {
  import opened Papers
  import opened Prompt
  import opened Sequences

  /** The tokens one paper takes up in a prompt. */
  function PaperTokens(p: Paper, countTokens: string -> nat): nat
  {
    countTokens(FormatPaperForPrompt(p))
  }

  /** The cost of each paper, as `PaperTokens` with the tokenizer fixed. */
  function PaperCost(countTokens: string -> nat): Paper -> nat
  {
    p => PaperTokens(p, countTokens)
  }

  /** The tokens a batch takes up, given what each paper costs. */
  function Tokens(batch: seq<Paper>, cost: Paper -> nat): nat
  {
    if batch == [] then 0 else cost(batch[0]) + Tokens(batch[1..], cost)
  }

  /** The batches laid end to end. */
  function Flatten(batches: seq<seq<Paper>>): seq<Paper>
  {
    if batches == [] then [] else batches[0] + Flatten(batches[1..])
  }

  predicate NoEmptyBatch(batches: seq<seq<Paper>>)
  {
    forall i :: 0 <= i < |batches| ==> batches[i] != []
  }

  /** Only a paper on its own may exceed the budget. */
  predicate WithinBudget(batches: seq<seq<Paper>>, cost: Paper -> nat, maxTokens: int)
  {
    forall i :: 0 <= i < |batches| && |batches[i]| >= 2 ==> Tokens(batches[i], cost) <= maxTokens
  }

  /** Each batch was closed only because the next paper would not have fitted. */
  predicate Maximal(batches: seq<seq<Paper>>, cost: Paper -> nat, maxTokens: int)
    requires NoEmptyBatch(batches)
  {
    forall i :: 0 <= i < |batches| - 1 ==>
      Tokens(batches[i], cost) + cost(batches[i + 1][0]) > maxTokens
  }

  /**
   * The state of the loop after the papers `done`: the closed `batches`
   * and the open batch `current` together hold `done`, the closed batches
   * have the properties of the result, and the open batch fits the budget
   * unless it holds a single paper; it starts with a paper that the last
   * closed batch could not take.
   */
  ghost predicate Batched(done: seq<Paper>, batches: seq<seq<Paper>>, current: seq<Paper>,
                          cost: Paper -> nat, maxTokens: int)
  {
    && Flatten(batches) + current == done
    && NoEmptyBatch(batches)
    && WithinBudget(batches, cost, maxTokens)
    && Maximal(batches, cost, maxTokens)
    && (|current| >= 2 ==> Tokens(current, cost) <= maxTokens)
    && (|batches| > 0 ==> (current != [] &&
          Tokens(batches[|batches| - 1], cost) + cost(current[0]) > maxTokens))
  }

  /** What the loop has built after some papers: the closed batches and the open one. */
  datatype Progress = Progress(batches: seq<seq<Paper>>, current: seq<Paper>)

  /**
   * One paper more: when it would push a non-empty open batch over the
   * budget the open batch is closed and the paper opens the next one,
   * otherwise it joins the open batch.
   */
  function Step(s: Progress, p: Paper, cost: Paper -> nat, maxTokens: int): Progress
  {
    if Tokens(s.current, cost) + cost(p) > maxTokens && s.current != [] then
      Progress(s.batches + [s.current], [p])
    else
      Progress(s.batches, s.current + [p])
  }

  /** The progress after the papers `done`, taken in order. */
  function Scan(done: seq<Paper>, cost: Paper -> nat, maxTokens: int): Progress
    decreases |done|
  {
    if done == [] then Progress([], [])
    else Step(Scan(done[..|done| - 1], cost, maxTokens), done[|done| - 1], cost, maxTokens)
  }

  /** The batches of a cluster: the closed ones, then the open one unless it is empty. */
  function Batches(papers: seq<Paper>, cost: Paper -> nat, maxTokens: int): seq<seq<Paper>>
  {
    var s := Scan(papers, cost, maxTokens);
    if s.current != [] then s.batches + [s.current] else s.batches
  }

  method BatchPapersByBudget(papers: seq<Paper>, countTokens: string -> nat, maxTokens: int)
    returns (batches: seq<seq<Paper>>)
    ensures batches == Batches(papers, PaperCost(countTokens), maxTokens)
    ensures Flatten(batches) == papers
    ensures NoEmptyBatch(batches)
    ensures WithinBudget(batches, PaperCost(countTokens), maxTokens)
    ensures Maximal(batches, PaperCost(countTokens), maxTokens)
  {
    var cost := PaperCost(countTokens);
    batches := [];
    var current: seq<Paper> := [];
    var currentTokens: int := 0;
    for i := 0 to |papers|
      invariant Progress(batches, current) == Scan(papers[..i], cost, maxTokens)
      invariant currentTokens == Tokens(current, cost)
    {
      var paper := papers[i];
      var paperTokens := PaperTokens(paper, countTokens);
      ScanSnoc(papers, i, cost, maxTokens);
      if currentTokens + paperTokens > maxTokens && current != [] {
        batches := batches + [current];
        current := [];
        currentTokens := 0;
      }
      TokensSnoc(current, paper, cost);
      current := current + [paper];
      currentTokens := currentTokens + paperTokens;
    }
    PrefixAll(papers);
    if current != [] {
      batches := batches + [current];
    }
    BatchesAreGreedy(papers, cost, maxTokens);
  }

  lemma ScanSnoc(papers: seq<Paper>, i: nat, cost: Paper -> nat, maxTokens: int)
    requires i < |papers|
    ensures Scan(papers[..i + 1], cost, maxTokens)
         == Step(Scan(papers[..i], cost, maxTokens), papers[i], cost, maxTokens)
  {
    assert papers[..i + 1][..i] == papers[..i];
  }

  /** Every stage of the scan has the properties the loop keeps. */
  lemma {:induction false} ScanIsBatched(done: seq<Paper>, cost: Paper -> nat, maxTokens: int)
    ensures var s := Scan(done, cost, maxTokens);
      Batched(done, s.batches, s.current, cost, maxTokens)
    decreases |done|
  {
    if done != [] {
      var before, p := done[..|done| - 1], done[|done| - 1];
      assert before + [p] == done;
      var s := Scan(before, cost, maxTokens);
      assert Scan(done, cost, maxTokens) == Step(s, p, cost, maxTokens);
      ScanIsBatched(before, cost, maxTokens);
      StepIsBatched(before, s, p, cost, maxTokens);
    }
  }

  lemma StepIsBatched(done: seq<Paper>, s: Progress, p: Paper, cost: Paper -> nat, maxTokens: int)
    requires Batched(done, s.batches, s.current, cost, maxTokens)
    ensures var t := Step(s, p, cost, maxTokens);
      Batched(done + [p], t.batches, t.current, cost, maxTokens)
  {
    if Tokens(s.current, cost) + cost(p) > maxTokens && s.current != [] {
      CloseAndStart(done, s.batches, s.current, p, cost, maxTokens);
    } else {
      Extend(done, s.batches, s.current, p, cost, maxTokens);
    }
  }

  /**
   * The batches hold the papers in order, none is empty, only a paper on
   * its own exceeds the budget, and each batch was closed only because the
   * next paper would not fit.
   */
  lemma BatchesAreGreedy(papers: seq<Paper>, cost: Paper -> nat, maxTokens: int)
    ensures var b := Batches(papers, cost, maxTokens);
      && Flatten(b) == papers && NoEmptyBatch(b)
      && WithinBudget(b, cost, maxTokens) && Maximal(b, cost, maxTokens)
  {
    ScanIsBatched(papers, cost, maxTokens);
    var s := Scan(papers, cost, maxTokens);
    if s.current != [] {
      CloseBatch(s.batches, s.current, cost, maxTokens);
    }
  }

  /** The next paper does not fit: the open batch is closed and a new one holds the paper. */
  lemma CloseAndStart(done: seq<Paper>, batches: seq<seq<Paper>>, current: seq<Paper>, p: Paper,
                      cost: Paper -> nat, maxTokens: int)
    requires Batched(done, batches, current, cost, maxTokens)
    requires current != [] && Tokens(current, cost) + cost(p) > maxTokens
    ensures Batched(done + [p], batches + [current], [p], cost, maxTokens)
  {
    CloseBatch(batches, current, cost, maxTokens);
    var longer := batches + [current];
    assert longer[|longer| - 1] == current;
  }

  /** The next paper fits (or the open batch is empty): it joins the open batch. */
  lemma Extend(done: seq<Paper>, batches: seq<seq<Paper>>, current: seq<Paper>, p: Paper,
               cost: Paper -> nat, maxTokens: int)
    requires Batched(done, batches, current, cost, maxTokens)
    requires current == [] || Tokens(current, cost) + cost(p) <= maxTokens
    ensures Batched(done + [p], batches, current + [p], cost, maxTokens)
  {
    TokensSnoc(current, p, cost);
    assert Flatten(batches) + (current + [p]) == (Flatten(batches) + current) + [p];
    assert current != [] ==> (current + [p])[0] == current[0];
  }

  /** Closing a non-empty, in-budget batch that the previous batch could not take keeps the properties. */
  lemma CloseBatch(batches: seq<seq<Paper>>, b: seq<Paper>, cost: Paper -> nat, maxTokens: int)
    requires b != [] && NoEmptyBatch(batches)
    requires WithinBudget(batches, cost, maxTokens) && Maximal(batches, cost, maxTokens)
    requires |b| >= 2 ==> Tokens(b, cost) <= maxTokens
    requires |batches| > 0 ==>
      Tokens(batches[|batches| - 1], cost) + cost(b[0]) > maxTokens
    ensures Flatten(batches + [b]) == Flatten(batches) + b
    ensures NoEmptyBatch(batches + [b])
    ensures WithinBudget(batches + [b], cost, maxTokens)
    ensures Maximal(batches + [b], cost, maxTokens)
  {
    FlattenSnoc(batches, b);
    BudgetSnoc(batches, b, cost, maxTokens);
    MaximalSnoc(batches, b, cost, maxTokens);
  }

  lemma BudgetSnoc(batches: seq<seq<Paper>>, b: seq<Paper>, cost: Paper -> nat, maxTokens: int)
    requires WithinBudget(batches, cost, maxTokens)
    requires |b| >= 2 ==> Tokens(b, cost) <= maxTokens
    ensures WithinBudget(batches + [b], cost, maxTokens)
  {
    var longer := batches + [b];
    assert forall i :: 0 <= i < |batches| ==> longer[i] == batches[i];
  }

  lemma MaximalSnoc(batches: seq<seq<Paper>>, b: seq<Paper>, cost: Paper -> nat, maxTokens: int)
    requires b != [] && NoEmptyBatch(batches) && Maximal(batches, cost, maxTokens)
    requires |batches| > 0 ==>
      Tokens(batches[|batches| - 1], cost) + cost(b[0]) > maxTokens
    ensures NoEmptyBatch(batches + [b])
    ensures Maximal(batches + [b], cost, maxTokens)
  {
    var longer := batches + [b];
    assert forall i :: 0 <= i < |batches| ==> longer[i] == batches[i];
  }

  lemma {:induction false} FlattenSnoc(batches: seq<seq<Paper>>, b: seq<Paper>)
    ensures Flatten(batches + [b]) == Flatten(batches) + b
  {
    if batches == [] {
      assert batches + [b] == [b];
    } else {
      assert (batches + [b])[1..] == batches[1..] + [b];
      FlattenSnoc(batches[1..], b);
    }
  }

  lemma {:induction false} TokensSplit(a: seq<Paper>, b: seq<Paper>, cost: Paper -> nat)
    ensures Tokens(a + b, cost) == Tokens(a, cost) + Tokens(b, cost)
  {
    if a == [] {
      assert a + b == b;
    } else {
      assert (a + b)[1..] == a[1..] + b;
      TokensSplit(a[1..], b, cost);
    }
  }

  lemma TokensSnoc(a: seq<Paper>, p: Paper, cost: Paper -> nat)
    ensures Tokens(a + [p], cost) == Tokens(a, cost) + cost(p)
  {
    TokensSplit(a, [p], cost);
  }

  /** No papers, no batches. */
  lemma NoPapersNoBatches(batches: seq<seq<Paper>>)
    requires Flatten(batches) == [] && NoEmptyBatch(batches)
    ensures batches == []
  {
  }

  /** A batch of two or more papers costs at least its first papers and the next one. */
  lemma {:induction false} TokensOfPrefix(b: seq<Paper>, k: nat, cost: Paper -> nat)
    requires k < |b|
    ensures Tokens(b[..k], cost) + cost(b[k]) <= Tokens(b, cost)
  {
    if k > 0 {
      TokensOfPrefix(b[1..], k - 1, cost);
      assert b[..k][1..] == b[1..][..k - 1];
    }
  }

  lemma {:induction false} FirstBatchIsPrefix(papers: seq<Paper>, batches: seq<seq<Paper>>)
    requires Flatten(batches) == papers && batches != []
    ensures |batches[0]| <= |papers| && papers[..|batches[0]|] == batches[0]
    ensures Flatten(batches[1..]) == papers[|batches[0]|..]
  {
  }

  /**
   * The four properties of the result determine it: there is exactly one
   * way to cut the papers into non-empty, in-budget, maximal batches.
   */
  lemma {:induction false} GreedyBatchesAreUnique(
    papers: seq<Paper>, a: seq<seq<Paper>>, b: seq<seq<Paper>>, cost: Paper -> nat, maxTokens: int)
    requires Flatten(a) == papers && NoEmptyBatch(a) && WithinBudget(a, cost, maxTokens)
    requires Flatten(b) == papers && NoEmptyBatch(b) && WithinBudget(b, cost, maxTokens)
    requires Maximal(a, cost, maxTokens) && Maximal(b, cost, maxTokens)
    ensures a == b
    decreases |papers|
  {
    if a == [] || b == [] {
      NoPapersNoBatches(a);
      NoPapersNoBatches(b);
    } else {
      FirstBatchIsPrefix(papers, a);
      FirstBatchIsPrefix(papers, b);
      FirstBatchesAgree(papers, a, b, cost, maxTokens);
      FirstBatchesAgree(papers, b, a, cost, maxTokens);
      var n := |a[0]|;
      assert a[0] == b[0];
      var rest := papers[n..];
      DropFirstBatch(a, cost, maxTokens);
      DropFirstBatch(b, cost, maxTokens);
      GreedyBatchesAreUnique(rest, a[1..], b[1..], cost, maxTokens);
      assert a == [a[0]] + a[1..] && b == [b[0]] + b[1..];
    }
  }

  /** Without its first batch, a batching keeps its properties. */
  lemma DropFirstBatch(a: seq<seq<Paper>>, cost: Paper -> nat, maxTokens: int)
    requires a != [] && NoEmptyBatch(a) && WithinBudget(a, cost, maxTokens)
    requires Maximal(a, cost, maxTokens)
    ensures NoEmptyBatch(a[1..]) && WithinBudget(a[1..], cost, maxTokens)
    ensures Maximal(a[1..], cost, maxTokens)
  {
    forall i | 0 <= i < |a[1..]| - 1
      ensures Tokens(a[1..][i], cost) + cost(a[1..][i + 1][0]) > maxTokens
    {
      assert a[1..][i] == a[i + 1] && a[1..][i + 1] == a[i + 2];
    }
  }

  /** The first batch of a maximal batching is not shorter than that of any in-budget batching. */
  lemma FirstBatchesAgree(
    papers: seq<Paper>, a: seq<seq<Paper>>, b: seq<seq<Paper>>, cost: Paper -> nat, maxTokens: int)
    requires Flatten(a) == papers && NoEmptyBatch(a) && Maximal(a, cost, maxTokens) && a != []
    requires Flatten(b) == papers && NoEmptyBatch(b) && WithinBudget(b, cost, maxTokens) && b != []
    ensures |b[0]| <= |a[0]|
  {
    FirstBatchIsPrefix(papers, a);
    FirstBatchIsPrefix(papers, b);
    var n := |a[0]|;
    if |b[0]| > n {
      // a[0] is a proper prefix of b[0], so a has a next batch, which starts with b[0][n]
      assert a[1] != [];
      FirstBatchIsPrefix(papers[n..], a[1..]);
      assert a[1][0] == papers[n] == b[0][n];
      assert b[0][..n] == a[0];
      TokensOfPrefix(b[0], n, cost);
    }
  }
}
