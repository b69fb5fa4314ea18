/** The two matchers of `lib.rs` and the mode switch that picks between them.
    Both walk the lines of the contents in order and keep a line when it
    passes their test; the case-insensitive one folds the query once and each
    line once, and keeps the original line, not its folded form. */
module Matcher {
  import opened Text
  import opened LineSplit
  import opened Filtering

  /** The test of `search_case_sensitive`: the line contains the query as is. */
  function HasQuery(query: Line): Line -> bool {
    line => Contains(line, query)
  }

  /** The test of `search_case_insensitive`, given the query after its single
      fold: the folded line contains the folded query. */
  function HasFoldedQuery(folded: Line): Line -> bool {
    line => Contains(Lower(line), folded)
  }

  /** Whether `line` is reported in the given mode. */
  predicate Matches(line: Line, query: Line, ignoreCase: bool) {
    if ignoreCase then Contains(Lower(line), Lower(query)) else Contains(line, query)
  }

  /** `search_case_sensitive`: exactly the lines of `contents` that contain
      `query`. */
  function SearchCaseSensitive(query: Line, contents: Line): (r: seq<Line>)
    ensures forall l {:trigger l in r} {:trigger l in Lines(contents)} ::
              l in r <==> l in Lines(contents) && Contains(l, query)
  {
    Filter(HasQuery(query), Lines(contents))
  }

  /** `search_case_insensitive`: exactly the lines of `contents` whose fold
      contains the fold of `query`; each is reported as it stands in
      `contents`. */
  function SearchCaseInsensitive(query: Line, contents: Line): (r: seq<Line>)
    ensures forall l {:trigger l in r} {:trigger l in Lines(contents)} ::
              l in r <==> l in Lines(contents) && Contains(Lower(l), Lower(query))
  {
    var folded := Lower(query);
    Filter(HasFoldedQuery(folded), Lines(contents))
  }

  /** The dispatch in `get_text_from_file`: the configured mode picks the
      matcher whose lines are printed. */
  function Search(query: Line, contents: Line, ignoreCase: bool): (r: seq<Line>)
    ensures forall l {:trigger l in r} {:trigger l in Lines(contents)} ::
              l in r <==> l in Lines(contents) && Matches(l, query, ignoreCase)
  {
    if ignoreCase then SearchCaseInsensitive(query, contents)
    else SearchCaseSensitive(query, contents)
  }

  /** The case-sensitive result is the lines at the positions whose line
      contains the query, in ascending position order: it is an ordered
      selection of the lines, with no line inserted, repeated or moved. */
  lemma SensitiveSelectsPositions(query: Line, contents: Line)
    ensures var ls, r := Lines(contents), SearchCaseSensitive(query, contents);
            var p := Positions(HasQuery(query), ls);
            && |r| == |p|
            && (forall k :: 0 <= k < |p| ==> p[k] < |ls| && r[k] == ls[p[k]])
            && (forall k, m :: 0 <= k < m < |p| ==> p[k] < p[m])
            && (forall i :: 0 <= i < |ls| ==> (i in p <==> Contains(ls[i], query)))
  {
    FilterAtPositions(HasQuery(query), Lines(contents));
  }

  /** The same for the case-insensitive result, selected by the folded test;
      the selected entries are the original lines. */
  lemma InsensitiveSelectsPositions(query: Line, contents: Line)
    ensures var ls, r := Lines(contents), SearchCaseInsensitive(query, contents);
            var p := Positions(HasFoldedQuery(Lower(query)), ls);
            && |r| == |p|
            && (forall k :: 0 <= k < |p| ==> p[k] < |ls| && r[k] == ls[p[k]])
            && (forall k, m :: 0 <= k < m < |p| ==> p[k] < p[m])
            && (forall i :: 0 <= i < |ls| ==> (i in p <==> Contains(Lower(ls[i]), Lower(query))))
  {
    FilterAtPositions(HasFoldedQuery(Lower(query)), Lines(contents));
  }

  /** Either result is the line sequence with some lines deleted. */
  lemma ResultIsSubsequenceOfLines(query: Line, contents: Line, ignoreCase: bool)
    ensures IsSubsequence(Search(query, contents, ignoreCase), Lines(contents))
  {
    if ignoreCase {
      FilterIsSubsequence(HasFoldedQuery(Lower(query)), Lines(contents));
    } else {
      FilterIsSubsequence(HasQuery(query), Lines(contents));
    }
  }

  /** Under a per-character fold, ignoring case never loses a line: the
      case-sensitive result is an ordered sub-selection of the
      case-insensitive one. */
  lemma InsensitiveIsMorePermissive(query: Line, contents: Line)
    ensures IsSubsequence(SearchCaseSensitive(query, contents), SearchCaseInsensitive(query, contents))
  {
    var ls := Lines(contents);
    forall i | 0 <= i < |ls| && HasQuery(query)(ls[i])
      ensures HasFoldedQuery(Lower(query))(ls[i])
    {
      ContainsLower(ls[i], query);
    }
    FilterMonotone(HasQuery(query), HasFoldedQuery(Lower(query)), ls);
  }

  /** An empty query reports every line, in order, in either mode. */
  lemma EmptyQueryKeepsEveryLine(contents: Line, ignoreCase: bool)
    ensures Search([], contents, ignoreCase) == Lines(contents)
  {
    var ls := Lines(contents);
    if ignoreCase {
      forall i | 0 <= i < |ls| ensures HasFoldedQuery(Lower([]))(ls[i]) {
        ContainsEmpty(Lower(ls[i]));
      }
      FilterAll(HasFoldedQuery(Lower([])), ls);
    } else {
      forall i | 0 <= i < |ls| ensures HasQuery([])(ls[i]) {
        ContainsEmpty(ls[i]);
      }
      FilterAll(HasQuery([]), ls);
    }
  }

  /** Empty contents report nothing, whatever the query and mode. */
  lemma EmptyContentsReportNothing(query: Line, ignoreCase: bool)
    ensures Search(query, [], ignoreCase) == []
  {
  }

  /** The loop of `search_case_sensitive`: push every line that contains the
      query onto the result. */
  method SearchCaseSensitiveLoop(query: Line, contents: Line) returns (found: seq<Line>)
    ensures found == SearchCaseSensitive(query, contents)
  {
    var lines := Lines(contents);
    found := [];
    var i := 0;
    while i < |lines|
      invariant 0 <= i <= |lines|
      invariant found == Filter(HasQuery(query), lines[..i])
    {
      var line := lines[i];
      FilterPrefixStep(HasQuery(query), lines, i);
      if Contains(line, query) {
        found := found + [line];
      }
      i := i + 1;
    }
    assert lines[..i] == lines;
  }

  /** The loop of `search_case_insensitive`: fold the query once, then push
      every original line whose fold contains it. */
  method SearchCaseInsensitiveLoop(query: Line, contents: Line) returns (found: seq<Line>)
    ensures found == SearchCaseInsensitive(query, contents)
  {
    var folded := Lower(query);
    var lines := Lines(contents);
    found := [];
    var i := 0;
    while i < |lines|
      invariant 0 <= i <= |lines|
      invariant found == Filter(HasFoldedQuery(folded), lines[..i])
    {
      var line := lines[i];
      FilterPrefixStep(HasFoldedQuery(folded), lines, i);
      if Contains(Lower(line), folded) {
        found := found + [line];
      }
      i := i + 1;
    }
    assert lines[..i] == lines;
  }
}
