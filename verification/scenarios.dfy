/** The unit tests of `lib.rs` and the splitting cases Rust documents for
    `str::lines`, as facts about the model. */
module Scenarios {
  import opened Text
  import opened LineSplit
  import opened Filtering
  import opened Matcher

  /** `TEST_CONTENTS`: five lines, the last one without a terminator, written
      line by line as in the source's multi-line literal. */
  const TestContents: Line :=
    "Rust:" + "\n" + ("safe, fast, productive." + "\n" + ("Pick three." + "\n"
    + ("Duct tape." + "\n" + "Trust me.")))

  /** The four terminated lines of `TestContents`, and its last line. */
  const TestHead: seq<Line> := ["Rust:", "safe, fast, productive.", "Pick three.", "Duct tape."]
  const TestLast: Line := "Trust me."

  /** `TEST_CONTENTS` splits into its five lines. */
  lemma TestContentsLines()
    ensures Lines(TestContents) == TestHead + [TestLast]
  {
    var terms: seq<Line> := [LF, LF, LF, LF];
    FourWritten(TestHead[0], TestHead[1], TestHead[2], TestHead[3], TestLast);
    assert TestHead == [TestHead[0], TestHead[1], TestHead[2], TestHead[3]];
    LinesJoin(TestHead, terms, TestLast);
  }

  /** Four lines each written with a line feed, then an unterminated tail. */
  lemma FourWritten(l0: Line, l1: Line, l2: Line, l3: Line, tail: Line)
    ensures JoinEach([l0, l1, l2, l3], [LF, LF, LF, LF]) + tail
         == l0 + "\n" + (l1 + "\n" + (l2 + "\n" + (l3 + "\n" + tail)))
  {
    JoinEachCons(l3, LF, [], []);
    assert [l3] == [l3] + [] && [LF] == [LF] + [];
    JoinEachCons(l2, LF, [l3], [LF]);
    assert [l2, l3] == [l2] + [l3] && [LF, LF] == [LF] + [LF];
    JoinEachCons(l1, LF, [l2, l3], [LF, LF]);
    assert [l1, l2, l3] == [l1] + [l2, l3] && [LF, LF, LF] == [LF] + [LF, LF];
    JoinEachCons(l0, LF, [l1, l2, l3], [LF, LF, LF]);
    assert [l0, l1, l2, l3] == [l0] + [l1, l2, l3] && [LF, LF, LF, LF] == [LF] + [LF, LF, LF];
  }

  /** The five lines of `TEST_CONTENTS`, as the tests list them. */
  predicate IsTestLines(s: seq<Line>) {
    && |s| == 5
    && s[0] == "Rust:"
    && s[1] == "safe, fast, productive."
    && s[2] == "Pick three."
    && s[3] == "Duct tape."
    && s[4] == "Trust me."
  }

  /** Whether a test line contains "duct": only the second one does; the
      others have no lower-case `d` at all. */
  lemma NoDuctWithoutD(l: Line)
    requires 'd' !in l
    ensures !HasQuery("duct")(l)
  {
    NotContainsMissingChar(l, "duct", 0);
  }

  lemma DuctInProductive(l: Line)
    requires l == "safe, fast, productive."
    ensures HasQuery("duct")(l)
  {
    ContainsAt(l, "duct", 15);
  }

  /** Line by line, whether the fold of a test line contains "rust". */
  lemma Rust0(l: Line)
    requires l == "Rust:"
    ensures HasFoldedQuery("rust")(l)
  {
    assert Lower(l) == "rust:";
    ContainsAt("rust:", "rust", 0);
  }

  lemma Rust1(l: Line)
    requires l == "safe, fast, productive."
    ensures !HasFoldedQuery("rust")(l)
  {
    LowerFixesLowerText(l);
    NotContainsMissingPair(l, "rust", 0);
  }

  lemma Rust2(l: Line)
    requires l == "Pick three."
    ensures !HasFoldedQuery("rust")(l)
  {
    assert Lower(l) == "pick three.";
    NotContainsMissingChar("pick three.", "rust", 1);
  }

  lemma Rust3(l: Line)
    requires l == "Duct tape."
    ensures !HasFoldedQuery("rust")(l)
  {
    assert Lower(l) == "duct tape.";
    NotContainsMissingChar("duct tape.", "rust", 0);
  }

  lemma Rust4(l: Line)
    requires l == "Trust me."
    ensures HasFoldedQuery("rust")(l)
  {
    assert Lower(l) == "trust me.";
    ContainsAt("trust me.", "rust", 1);
  }

  lemma KeepsOnlySecond(f: Line -> bool, s: seq<Line>)
    requires |s| == 5 && !f(s[0]) && f(s[1]) && !f(s[2]) && !f(s[3]) && !f(s[4])
    ensures Filter(f, s) == [s[1]]
  {
    assert s[..0] == [];
    FilterPrefixStep(f, s, 0);
    FilterPrefixStep(f, s, 1);
    assert Filter(f, s[..2]) == [s[1]];
    FilterPrefixStep(f, s, 2);
    FilterPrefixStep(f, s, 3);
    FilterPrefixStep(f, s, 4);
    assert s[..5] == s;
  }

  lemma KeepsFirstAndLast(f: Line -> bool, s: seq<Line>)
    requires |s| == 5 && f(s[0]) && !f(s[1]) && !f(s[2]) && !f(s[3]) && f(s[4])
    ensures Filter(f, s) == [s[0], s[4]]
  {
    assert s[..0] == [];
    FilterPrefixStep(f, s, 0);
    assert Filter(f, s[..1]) == [s[0]];
    FilterPrefixStep(f, s, 1);
    FilterPrefixStep(f, s, 2);
    FilterPrefixStep(f, s, 3);
    FilterPrefixStep(f, s, 4);
    assert s[..5] == s;
  }

  /** Test `case_sensitive`: "duct" keeps only the line containing it in
      lower case; "Duct tape." is left out. */
  lemma CaseSensitiveScenario()
    ensures SearchCaseSensitive("duct", TestContents) == ["safe, fast, productive."]
    ensures "Duct tape." !in SearchCaseSensitive("duct", TestContents)
  {
    TestContentsLines();
    DuctOverTestLines();
  }

  lemma DuctOverTestLines()
    ensures Filter(HasQuery("duct"), TestHead + [TestLast]) == ["safe, fast, productive."]
  {
    TestLinesListed();
    DuctOverLines(TestHead + [TestLast]);
  }

  lemma DuctOverLines(s: seq<Line>)
    requires IsTestLines(s)
    ensures Filter(HasQuery("duct"), s) == [s[1]]
  {
    NoDuctWithoutD(s[0]);
    DuctInProductive(s[1]);
    NoDuctWithoutD(s[2]);
    NoDuctWithoutD(s[3]);
    NoDuctWithoutD(s[4]);
    KeepsOnlySecond(HasQuery("duct"), s);
  }

  lemma TestLinesListed()
    ensures IsTestLines(TestHead + [TestLast])
  {
  }

  /** Test `case_insensitive`: "rUsT" keeps the two lines containing it in
      any case, in file order and with their own capitals. */
  lemma CaseInsensitiveScenario()
    ensures SearchCaseInsensitive("rUsT", TestContents) == ["Rust:", "Trust me."]
  {
    FoldedQuery();
    TestContentsLines();
    RustOverTestLines();
  }

  lemma FoldedQuery()
    ensures Lower("rUsT") == "rust"
  {
  }

  lemma RustOverTestLines()
    ensures Filter(HasFoldedQuery("rust"), TestHead + [TestLast]) == ["Rust:", "Trust me."]
  {
    TestLinesListed();
    RustOverLines(TestHead + [TestLast]);
  }

  lemma RustOverLines(s: seq<Line>)
    requires IsTestLines(s)
    ensures Filter(HasFoldedQuery("rust"), s) == [s[0], s[4]]
  {
    Rust0(s[0]);
    Rust1(s[1]);
    Rust2(s[2]);
    Rust3(s[3]);
    Rust4(s[4]);
    KeepsFirstAndLast(HasFoldedQuery("rust"), s);
  }

  /** Splitting cases: no text has no lines, a lone terminator is one empty
      line, an unterminated line is still a line, a final terminator adds no
      empty line, and a carriage return goes with the line feed after it but
      stays when nothing follows it; `\n` and `\r\n` may be mixed in one text. */
  lemma LinesExamples()
    ensures Lines("") == []
    ensures Lines("\n") == [""]
    ensures Lines("abc") == ["abc"]
    ensures Lines("a\n\nb\n") == ["a", "", "b"]
    ensures Lines("a\r\nb\r") == ["a", "b\r"]
    ensures Lines("foo\r\nbar\n\nbaz\r") == ["foo", "bar", "", "baz\r"]
  {
    LinesOfTerminated("", LF, "");
    LinesOfUnterminated("abc");
    BlankLineInside("a\n\nb\n");
    CarriageReturns("a\r\nb\r");
    MixedTerminators("foo\r\nbar\n\nbaz\r");
  }

  lemma BlankLineInside(s: Line)
    requires s == "a\n\nb\n"
    ensures Lines(s) == ["a", "", "b"]
  {
    assert s == "a" + LF + ("" + LF + ("b" + LF + ""));
    LinesOfTerminated("a", LF, "" + LF + ("b" + LF + ""));
    LinesOfTerminated("", LF, "b" + LF + "");
    LinesOfTerminated("b", LF, "");
  }

  lemma CarriageReturns(s: Line)
    requires s == "a\r\nb\r"
    ensures Lines(s) == ["a", "b\r"]
  {
    var last: Line := "b\r";
    assert s == "a" + CRLF + last;
    LinesOfTerminated("a", CRLF, last);
    LinesOfUnterminated(last);
  }

  /** The example of the Rust documentation: a `\r\n` line, a `\n` line, an
      empty `\n` line, and an unterminated last line keeping its bare `\r`. */
  lemma MixedTerminators(s: Line)
    requires s == "foo\r\nbar\n\nbaz\r"
    ensures Lines(s) == ["foo", "bar", "", "baz\r"]
  {
    var ls: seq<Line>, terms: seq<Line>, tail: Line := ["foo", "bar", ""], [CRLF, LF, LF], "baz\r";
    JoinEachCons("", LF, [], []);
    JoinEachCons("bar", LF, [""], [LF]);
    JoinEachCons("foo", CRLF, ["bar", ""], [LF, LF]);
    assert ls == ["foo"] + ["bar", ""] && ["bar", ""] == ["bar"] + [""];
    assert terms == [CRLF] + [LF, LF] && [LF, LF] == [LF] + [LF];
    assert s == JoinEach(ls, terms) + tail;
    LinesJoin(ls, terms, tail);
  }

  /** An unterminated single line with an empty query is reported once, and
      empty contents report nothing. */
  lemma EdgeScenarios(ignoreCase: bool)
    ensures Search("", "abc", ignoreCase) == ["abc"]
    ensures Search("anything", "", ignoreCase) == []
  {
    EmptyQueryKeepsEveryLine("abc", ignoreCase);
    LinesOfUnterminated("abc");
  }
}
