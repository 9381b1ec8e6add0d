/**
 * The markdown document at the end of `generate_overview`
 * (backend/services/overview_service.py): two header lines, the executive
 * summary block when there is a summary, a rule, a numbered table of
 * contents whose links point at slug anchors, a rule, and four lines per
 * section; the lines are joined with newlines.
 */
module Markdown {
  import opened Text

  // ---------------------------------------------------------------------
  // Anchor slugs
  // ---------------------------------------------------------------------

  /** `s` with every `from` replaced by `to`, as `s.replace(from, to)` does for one character. */
  function ReplaceChar(s: string, from: char, to: char): string
  {
    seq(|s|, i requires 0 <= i < |s| => if s[i] == from then to else s[i])
  }

  /** `s` without any `c`, as `s.replace(c, "")` does. */
  function RemoveChar(s: string, c: char): (r: string)
    ensures |r| <= |s|
    ensures forall x :: x in r ==> x in s && x != c
  {
    if s == [] then [] else (if s[0] == c then [] else [s[0]]) + RemoveChar(s[1..], c)
  }

  /** A text without `c` is left as it is. */
  lemma {:induction false} RemoveCharAbsent(s: string, c: char)
    requires c !in s
    ensures RemoveChar(s, c) == s
  {
    if s != [] {
      assert s == [s[0]] + s[1..];
      RemoveCharAbsent(s[1..], c);
    }
  }

  /** Removing `c` keeps every other character as often as it occurs, and no `c`. */
  lemma {:induction false} RemoveCharCounts(s: string, c: char)
    ensures multiset(RemoveChar(s, c))[c] == 0
    ensures forall x :: x != c ==> multiset(RemoveChar(s, c))[x] == multiset(s)[x]
  {
    if s != [] {
      assert s == [s[0]] + s[1..];
      RemoveCharCounts(s[1..], c);
    }
  }

  /**
   * Removing a character works piece by piece: the other characters of
   * both parts stay, in their order.
   */
  lemma {:induction false} RemoveCharConcat(a: string, b: string, c: char)
    ensures RemoveChar(a + b, c) == RemoveChar(a, c) + RemoveChar(b, c)
  {
    if a == [] {
      assert a + b == b;
    } else {
      assert (a + b)[0] == a[0] && (a + b)[1..] == a[1..] + b;
      RemoveCharConcat(a[1..], b, c);
      var head := if a[0] == c then [] else [a[0]];
      assert RemoveChar(a + b, c) == head + (RemoveChar(a[1..], c) + RemoveChar(b, c));
      assert head + (RemoveChar(a[1..], c) + RemoveChar(b, c)) == (head + RemoveChar(a[1..], c)) + RemoveChar(b, c);
    }
  }

  /** The anchor of a section: lower-cased, spaces to hyphens, parentheses dropped. */
  function Slug(name: string): string
  {
    RemoveChar(RemoveChar(ReplaceChar(Lower(name), ' ', '-'), '('), ')')
  }

  /** What one character of a name becomes in its anchor. */
  function SlugChar(ch: char): string
  {
    if ch == ' ' then "-" else if ch == '(' || ch == ')' then "" else [LowerChar(ch)]
  }

  /** The anchor computed in a single pass, character by character. */
  function SlugByChar(name: string): string
  {
    if name == [] then [] else SlugChar(name[0]) + SlugByChar(name[1..])
  }

  /** An anchor has no spaces, no parentheses and no ASCII capital letters (A to Z). */
  predicate IsAnchor(s: string)
  {
    forall i :: 0 <= i < |s| ==> s[i] != ' ' && s[i] != '(' && s[i] != ')' && !('A' <= s[i] <= 'Z')
  }

  lemma ReplaceCons(x: char, t: string, from: char, to: char)
    ensures ReplaceChar([x] + t, from, to) == [if x == from then to else x] + ReplaceChar(t, from, to)
  {
  }

  lemma RemoveCons(y: char, u: string, c: char)
    ensures RemoveChar([y] + u, c) == (if y == c then [] else [y]) + RemoveChar(u, c)
  {
    assert ([y] + u)[1..] == u;
  }

  /** The three replacements in a row do what the single pass does. */
  lemma {:induction false} SlugMatchesSinglePass(name: string)
    ensures Slug(name) == SlugByChar(name)
  {
    if name != [] {
      var c, rest := name[0], name[1..];
      assert name == [c] + rest;
      var l := LowerChar(c);
      assert Lower(name) == [l] + Lower(rest);
      var r1 := if l == ' ' then '-' else l;
      var replaced := ReplaceChar(Lower(rest), ' ', '-');
      ReplaceCons(l, Lower(rest), ' ', '-');
      assert ReplaceChar(Lower(name), ' ', '-') == [r1] + replaced;
      RemoveCons(r1, replaced, '(');
      var r2 := RemoveChar(replaced, '(');
      assert Slug(rest) == RemoveChar(r2, ')');
      if r1 == '(' {
        assert RemoveChar([r1] + replaced, '(') == r2;
        assert Slug(name) == Slug(rest);
      } else {
        assert RemoveChar([r1] + replaced, '(') == [r1] + r2;
        RemoveCons(r1, r2, ')');
        assert Slug(name) == (if r1 == ')' then [] else [r1]) + Slug(rest);
      }
      SlugMatchesSinglePass(rest);
    }
  }

  /** Every anchor is clean: no spaces, no parentheses, no ASCII capitals. */
  lemma SlugIsAnchor(name: string)
    ensures IsAnchor(Slug(name))
  {
    var lowered := Lower(name);
    var replaced := ReplaceChar(lowered, ' ', '-');
    assert forall x :: x in replaced ==> x != ' ' && !('A' <= x <= 'Z');
    var s := Slug(name);
    forall i | 0 <= i < |s|
      ensures s[i] != ' ' && s[i] != '(' && s[i] != ')' && !('A' <= s[i] <= 'Z')
    {
      assert s[i] in s;
    }
  }

  /** A clean text is its own anchor. */
  lemma {:induction false} AnchorIsFixed(s: string)
    requires IsAnchor(s)
    ensures SlugByChar(s) == s
  {
    if s != [] {
      assert IsAnchor(s[1..]) by {
        forall i | 0 <= i < |s[1..]| ensures s[1..][i] == s[i + 1] { }
      }
      AnchorIsFixed(s[1..]);
      assert s == [s[0]] + s[1..];
    }
  }

  /** Taking the anchor of an anchor changes nothing. */
  lemma SlugIsIdempotent(name: string)
    ensures Slug(Slug(name)) == Slug(name)
  {
    SlugIsAnchor(name);
    SlugMatchesSinglePass(Slug(name));
    AnchorIsFixed(Slug(name));
  }

  // ---------------------------------------------------------------------
  // Document
  // ---------------------------------------------------------------------

  /** One category of the overview: its name, its narrative and its paper count. */
  datatype Section = Section(name: string, narrative: string, count: nat)


  /**
   * The document title. The source file holds the emoji in its UTF-8 bytes
   * read back as Windows-1252 text, and so does this constant.
   */
  const Title := "# \U{F0}\U{178}\U{201C}\U{A1} Research Overview"
  /** An em dash and a middle dot, in the same form as the title's emoji. */
  const Dash := "\U{E2}\U{20AC}\U{201D}"
  const MiddleDot := "\U{C2}\U{B7}"

  const NoPapersMarkdown := "# Research Overview\n\nNo papers found in the selected time range."
  const ExecutiveHeading := "## Executive Summary\n"
  const Rule := "---\n"
  const TocHeading := "## Table of Contents\n"
  const SectionRule := "\n---\n"

  function HeaderParts(startText: string, endText: string, paperCount: nat, clusterCount: nat): seq<string>
  {
    [ Title,
      "**" + startText + " " + Dash + " " + endText + "** " + MiddleDot + " " + DecimalString(paperCount)
        + " papers across " + DecimalString(clusterCount) + " categories\n" ]
  }

  /** The executive summary block, present only when there is a summary. */
  function SummaryParts(summary: string): seq<string>
  {
    if summary == "" then [] else [ExecutiveHeading, summary + "\n"]
  }

  /** Entry `number` of the table of contents: a numbered link to the section's anchor. */
  function TocEntry(number: nat, s: Section): string
  {
    DecimalString(number) + ". " + TocLink(s)
  }

  /** The link to a section's anchor, followed by its paper count. */
  function TocLink(s: Section): string
  {
    "[" + s.name + "](#" + Slug(s.name) + ") (" + DecimalString(s.count) + " papers)"
  }

  /** The table of contents, numbered from 1. */
  function TocLines(sections: seq<Section>): seq<string>
  {
    if sections == [] then []
    else TocLines(sections[..|sections| - 1]) + [TocEntry(|sections|, sections[|sections| - 1])]
  }

  /** The heading of a section. */
  function SectionHeading(s: Section): string
  {
    "## " + s.name
  }

  /** The line under a section's heading: its paper count in italics. */
  function CountLine(s: Section): string
  {
    "*" + DecimalString(s.count) + " papers*\n"
  }

  function SectionBlock(s: Section): seq<string>
  {
    [SectionHeading(s), CountLine(s), s.narrative, SectionRule]
  }

  function SectionParts(sections: seq<Section>): seq<string>
  {
    if sections == [] then []
    else SectionParts(sections[..|sections| - 1]) + SectionBlock(sections[|sections| - 1])
  }

  /** The lines before the table of contents' entries. */
  function Opening(startText: string, endText: string, paperCount: nat, clusterCount: nat,
                   summary: string): seq<string>
  {
    HeaderParts(startText, endText, paperCount, clusterCount) + SummaryParts(summary) + [Rule, TocHeading]
  }

  /** The table of contents' entries, a rule, and the sections. */
  function Body(sections: seq<Section>): seq<string>
  {
    TocLines(sections) + [SectionRule] + SectionParts(sections)
  }

  /** The lines of the document, before they are joined with newlines. */
  function MarkdownParts(startText: string, endText: string, paperCount: nat, clusterCount: nat,
                         summary: string, sections: seq<Section>): seq<string>
  {
    Opening(startText, endText, paperCount, clusterCount, summary) + Body(sections)
  }

  method AssembleMarkdown(startText: string, endText: string, paperCount: nat, clusterCount: nat,
                          summary: string, sections: seq<Section>)
    returns (markdown: string)
    ensures markdown == Join(MarkdownParts(startText, endText, paperCount, clusterCount, summary, sections), "\n")
  {
    var parts := HeaderParts(startText, endText, paperCount, clusterCount);
    ghost var header := parts;
    if summary != "" {
      parts := parts + [ExecutiveHeading];
      parts := parts + [summary + "\n"];
    }
    parts := parts + [Rule];
    parts := parts + [TocHeading];
    OpeningSteps(header, summary);
    ghost var opening := parts;
    for i := 0 to |sections|
      invariant parts == opening + TocLines(sections[..i])
    {
      TocStep(opening, sections, i);
      parts := parts + [TocEntry(i + 1, sections[i])];
    }
    parts := parts + [SectionRule];
    ghost var contents := parts;
    for i := 0 to |sections|
      invariant parts == contents + SectionParts(sections[..i])
    {
      var s := sections[i];
      SectionStep(contents, sections, i);
      parts := parts + [SectionHeading(s)];
      parts := parts + [CountLine(s)];
      parts := parts + [s.narrative];
      parts := parts + [SectionRule];
    }
    AssembledBody(contents, opening, sections);
    markdown := Join(parts, "\n");
  }

  lemma OpeningSteps(header: seq<string>, summary: string)
    ensures (if summary != "" then header + [ExecutiveHeading] + [summary + "\n"] else header) + [Rule] + [TocHeading]
         == header + SummaryParts(summary) + [Rule, TocHeading]
  {
  }

  lemma TocStep(opening: seq<string>, sections: seq<Section>, i: nat)
    requires i < |sections|
    ensures opening + TocLines(sections[..i]) + [TocEntry(i + 1, sections[i])]
         == opening + TocLines(sections[..i + 1])
  {
    assert sections[..i + 1][..i] == sections[..i];
  }

  lemma SectionStep(contents: seq<string>, sections: seq<Section>, i: nat)
    requires i < |sections|
    ensures var s := sections[i];
      contents + SectionParts(sections[..i]) + [SectionHeading(s)] + [CountLine(s)] + [s.narrative] + [SectionRule]
        == contents + SectionParts(sections[..i + 1])
  {
    assert sections[..i + 1][..i] == sections[..i];
  }

  lemma AssembledBody(contents: seq<string>, opening: seq<string>, sections: seq<Section>)
    requires contents == opening + TocLines(sections[..|sections|]) + [SectionRule]
    ensures contents + SectionParts(sections[..|sections|]) == opening + Body(sections)
  {
    assert sections[..|sections|] == sections;
  }

  /** Entry i of the table of contents is numbered i + 1 and links section i. */
  lemma {:induction false} TocLinesInOrder(sections: seq<Section>)
    ensures |TocLines(sections)| == |sections|
    ensures forall i :: 0 <= i < |sections| ==> TocLines(sections)[i] == TocEntry(i + 1, sections[i])
  {
    if sections != [] {
      var n := |sections|;
      var earlier := sections[..n - 1];
      TocLinesInOrder(earlier);
      var lines := TocLines(sections);
      assert lines == TocLines(earlier) + [TocEntry(n, sections[n - 1])];
      forall i | 0 <= i < n
        ensures lines[i] == TocEntry(i + 1, sections[i])
      {
        if i < n - 1 {
          assert sections[i] == earlier[i];
        }
      }
    }
  }

  /** Section i takes up the four parts from 4 * i on, in the order heading, count, narrative, rule. */
  lemma {:induction false} SectionPartsInOrder(sections: seq<Section>)
    ensures |SectionParts(sections)| == 4 * |sections|
    ensures forall i, j :: 0 <= i < |sections| && 0 <= j < 4 ==>
      SectionParts(sections)[4 * i + j] == SectionBlock(sections[i])[j]
  {
    if sections != [] {
      var n := |sections|;
      var earlier := sections[..n - 1];
      SectionPartsInOrder(earlier);
      var parts := SectionParts(sections);
      assert parts == SectionParts(earlier) + SectionBlock(sections[n - 1]);
      forall i, j | 0 <= i < n && 0 <= j < 4
        ensures parts[4 * i + j] == SectionBlock(sections[i])[j]
      {
        if i < n - 1 {
          assert sections[i] == earlier[i];
        }
      }
    }
  }

  /** A table-of-contents entry starts with its number, which reads back from the text before the first '.'. */
  lemma TocEntryNumber(number: nat, s: Section)
    ensures Split(TocEntry(number, s), '.')[0] == DecimalString(number)
    ensures ParseDecimal(Split(TocEntry(number, s), '.')[0]) == number
  {
    var digits := DecimalString(number);
    var rest := " " + TocLink(s);
    assert TocEntry(number, s) == digits + ['.'] + rest;
    assert forall i :: 0 <= i < |digits| ==> digits[i] != '.';
    SplitAfterField(digits, rest, '.');
    DecimalRoundTrip(number);
  }

  /**
   * The opening lines: the two header lines, the executive summary block
   * exactly when there is a summary, then the rule and the contents heading.
   */
  lemma OpeningLayout(startText: string, endText: string, paperCount: nat, clusterCount: nat, summary: string)
    ensures var head := Opening(startText, endText, paperCount, clusterCount, summary);
      && |head| == 4 + |SummaryParts(summary)|
      && head[..2] == HeaderParts(startText, endText, paperCount, clusterCount)
      && (head[2] == ExecutiveHeading <==> summary != "")
      && (summary != "" ==> head[3] == summary + "\n")
      && head[|head| - 2] == Rule && head[|head| - 1] == TocHeading
  {
  }

  /**
   * Where the body's lines sit: one contents entry per section, a rule,
   * and four lines per section, in order.
   */
  lemma BodyLayout(sections: seq<Section>)
    ensures var body, n := Body(sections), |sections|;
      && |body| == 1 + 5 * n
      && (forall i :: 0 <= i < n ==> body[i] == TocEntry(i + 1, sections[i]))
      && body[n] == SectionRule
      && (forall i, j :: 0 <= i < n && 0 <= j < 4 ==> body[n + 1 + 4 * i + j] == SectionBlock(sections[i])[j])
  {
    TocLinesInOrder(sections);
    SectionPartsInOrder(sections);
    var lines, blocks := TocLines(sections), SectionParts(sections);
    var body, n := Body(sections), |sections|;
    forall i, j | 0 <= i < n && 0 <= j < 4
      ensures body[n + 1 + 4 * i + j] == SectionBlock(sections[i])[j]
    {
      assert body[n + 1 + 4 * i + j] == blocks[4 * i + j];
    }
  }

  /** The document's lines are the opening lines followed by the body's. */
  lemma MarkdownLayout(startText: string, endText: string, paperCount: nat, clusterCount: nat,
                       summary: string, sections: seq<Section>)
    ensures var parts := MarkdownParts(startText, endText, paperCount, clusterCount, summary, sections);
      var toc := 4 + |SummaryParts(summary)|;
      && |parts| == toc + 1 + 5 * |sections|
      && parts[..toc] == Opening(startText, endText, paperCount, clusterCount, summary)
      && parts[toc..] == Body(sections)
  {
    OpeningLayout(startText, endText, paperCount, clusterCount, summary);
    BodyLayout(sections);
    var head := Opening(startText, endText, paperCount, clusterCount, summary);
    var parts := MarkdownParts(startText, endText, paperCount, clusterCount, summary, sections);
    assert parts[..|head|] == head;
    assert parts[|head|..] == Body(sections);
  }
}
