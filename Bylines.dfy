/**
 * The author line used both in the overview prompt (first five names) and on
 * the paper cards of the list page (first three names): the first `limit`
 * names joined by ", ", followed by " et al." exactly when some names were
 * left out.
 */
module Bylines {
  import opened Text

  const NameSeparator := ", "
  const EtAl := " et al."

  /** The names that are printed: the first `limit` of them, in order. */
  function ShownNames(names: seq<string>, limit: nat): (shown: seq<string>)
    ensures |shown| == Min(limit, |names|)
    ensures shown == names[..|shown|]
    ensures |names| <= limit ==> shown == names
  {
    names[..Min(limit, |names|)]
  }

  function AuthorLine(names: seq<string>, limit: nat): string
  {
    Join(ShownNames(names, limit), NameSeparator) + (if |names| > limit then EtAl else "")
  }

  /** A name that the rendered line can be read back from: non-empty, no comma, no final full stop. */
  predicate PlainName(name: string)
  {
    name != "" && ',' !in name && name[|name| - 1] != '.'
  }

  /** Reads an author line back: the printed names and whether " et al." was appended. */
  function ParseAuthorLine(line: string): (parsed: (seq<string>, bool))
  {
    if |line| >= |EtAl| && line[|line| - |EtAl|..] == EtAl
    then (SplitNames(line[..|line| - |EtAl|]), true)
    else (SplitNames(line), false)
  }

  /** Splits a ", "-joined list of names. */
  function SplitNames(s: string): seq<string>
  {
    var fields := Split(s, ',');
    [fields[0]] + Unspaced(fields[1..])
  }

  function Spaced(names: seq<string>): (r: seq<string>)
    ensures |r| == |names|
  {
    if names == [] then [] else [" " + names[0]] + Spaced(names[1..])
  }

  function Unspaced(fields: seq<string>): seq<string>
  {
    if fields == [] then []
    else [if fields[0] == [] then [] else fields[0][1..]] + Unspaced(fields[1..])
  }

  lemma {:induction false} UnspacedSpaced(names: seq<string>)
    ensures Unspaced(Spaced(names)) == names
  {
    if names != [] {
      UnspacedSpaced(names[1..]);
      assert (" " + names[0])[1..] == names[0];
    }
  }

  lemma {:induction false} SplitJoined(names: seq<string>)
    requires |names| > 0
    requires forall i :: 0 <= i < |names| ==> ',' !in names[i]
    ensures Split(Join(names, NameSeparator), ',') == [names[0]] + Spaced(names[1..])
  {
    if |names| > 1 {
      var rest := Join(names[1..], NameSeparator);
      SplitJoined(names[1..]);
      assert Join(names, NameSeparator) == names[0] + [','] + (" " + rest);
      SplitAfterField(names[0], " " + rest, ',');
      var spaced := " " + rest;
      assert spaced[0] == ' ' && spaced[1..] == rest;
      assert Split(spaced, ',') == [[' '] + Split(rest, ',')[0]] + Split(rest, ',')[1..];
      assert names[1..][1..] == names[2..];
      assert Spaced(names[1..]) == [" " + names[1]] + Spaced(names[2..]);
    } else {
      SplitWithout(names[0], ',');
    }
  }

  /** Splitting a ", "-joined list of comma-free names gives the names back. */
  lemma SplitNamesJoin(names: seq<string>)
    requires |names| > 0
    requires forall i :: 0 <= i < |names| ==> ',' !in names[i]
    ensures SplitNames(Join(names, NameSeparator)) == names
  {
    SplitJoined(names);
    UnspacedSpaced(names[1..]);
  }

  /** A line of plain names never looks as if " et al." had been appended. */
  lemma NoEtAlSuffix(shown: seq<string>)
    requires |shown| > 0
    requires forall i :: 0 <= i < |shown| ==> PlainName(shown[i])
    ensures var j := Join(shown, NameSeparator); !(|j| >= |EtAl| && j[|j| - |EtAl|..] == EtAl)
  {
    var j := Join(shown, NameSeparator);
    var last := shown[|shown| - 1];
    JoinEndsWithLast(shown, NameSeparator);
    assert PlainName(last);
    assert j[|j| - 1] == j[|j| - |last|..][|last| - 1] == last[|last| - 1];
  }

  /**
   * The author line lists exactly the first min(limit, |names|) names, in
   * order, and carries " et al." exactly when there are more than `limit`.
   */
  lemma ParseAuthorLineRoundTrip(names: seq<string>, limit: nat)
    requires limit > 0 && |names| > 0
    requires forall i :: 0 <= i < |names| ==> PlainName(names[i])
    ensures ParseAuthorLine(AuthorLine(names, limit)) == (names[..Min(limit, |names|)], |names| > limit)
  {
    var shown := ShownNames(names, limit);
    var joined := Join(shown, NameSeparator);
    SplitNamesJoin(shown);
    var line := AuthorLine(names, limit);
    if |names| > limit {
      assert line == joined + EtAl;
      assert line[..|line| - |EtAl|] == joined;
      assert line[|line| - |EtAl|..] == EtAl;
    } else {
      assert line == joined;
      NoEtAlSuffix(shown);
    }
  }

  /** Nobody to list gives an empty line. */
  lemma AuthorLineEmpty(limit: nat)
    ensures AuthorLine([], limit) == ""
  {
  }
}
