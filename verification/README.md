# mini_grep line filter, modelled in Dafny

`mini_grep` is a small `grep`. It takes a query and a file path on the command
line. It reads the file and prints every line that contains the query, in file
order. When the `IGNORE_CASE` environment variable is set (to valid Unicode),
the comparison ignores case. This project models the logic of `mini_grep/src/lib.rs` as pure
Dafny functions and proves what the program promises about them.

- `Text` (text.dfy): the substring test `str::contains`, proved equal to a
  positional definition in both directions, and the lower-case fold used by
  case-insensitive matching.
- `LineSplit` (lines.dfy): Rust's `str::lines`, written out explicitly. It is
  proved against writing lines back out: lines without line feeds, written with
  any mix of `\n` and `\r\n`, split back into themselves (a line followed by a
  bare `\n` must not itself end in `\r`), and, for text without carriage returns,
  writing the lines of a text back with `\n` gives that text again.
- `Filtering` (filter.dfy): the shape both matchers share. It walks a sequence
  in order and pushes every element that passes a test. The properties proved
  are: it keeps exactly the elements at the passing positions, in ascending
  order; its result is a subsequence of its input; and a weaker test keeps a
  super-sequence.
- `Matcher` (matcher.dfy): `search_case_sensitive`, `search_case_insensitive`,
  the mode switch of `get_text_from_file`, and the two push loops, proved equal
  to the filters.
- `Arguments` (arguments.dfy): `Config::build`, with the environment lookup
  passed in as a boolean.
- `Scenarios` (scenarios.dfy): the two unit tests of `lib.rs` and the
  documented splitting cases of `str::lines`, proved as facts about the model.

`str::lines` follows the current Rust documentation:

- Text is cut at every `\n`.
- A `\r` directly before that `\n` belongs to the terminator and is removed.
- A final terminator does not start an extra empty line.
- `""` has no lines, and `"\n"` has one empty line.
- A bare `\r` at the very end of an unterminated last line stays in that line.
  Rust releases before 1.77 removed that `\r` as well.

## Model

| member | source | states |
|---|---|---|
| Text.ContainsIff | mini_grep/src/lib.rs:52 | the contract of `Text.Contains`, the model of `line.contains(query)`: it holds exactly when `query` occurs in `line` as a contiguous run at some position, in both directions, so the empty query is in every line |
| Text.LowerChar | mini_grep/src/lib.rs:61 | the fold maps `A`..`Z` to `a`..`z` at the same offset, leaves every other character alone, and never yields an upper-case ASCII letter |
| Text.Lower | mini_grep/src/lib.rs:61 | the string fold keeps the length and folds every character on its own with `LowerChar`, with no context between neighbours |
| Text.ContainsLower | mini_grep/src/lib.rs:63 | a line that contains the query still contains it after both are folded, so folding never loses a match |
| LineSplit.Lines | mini_grep/src/lib.rs:51 | no line contains a line feed; there are no lines exactly when the text is empty; there are never more lines than characters |
| LineSplit.LinesJoin | mini_grep/src/lib.rs:51 | lines without line feeds, each written with its own terminator, `\n` or `\r\n` in any mix, plus an optional unterminated last line, split back into exactly those lines (a line followed by a bare `\n` must not itself end in `\r`) |
| LineSplit.JoinLines | mini_grep/src/lib.rs:62 | for text without carriage returns, writing the lines back with `\n` gives the text again, plus the final line feed it lacked |
| Filtering.Filter | mini_grep/src/lib.rs:50-56 | every kept element passes the test and comes from the input; every passing input element is kept; the result is no longer than the input |
| Filtering.FilterAtPositions | mini_grep/src/lib.rs:50-56 | the kept elements are the input elements at the passing positions, one for one and in ascending position order |
| Filtering.FilterIsSubsequence | mini_grep/src/lib.rs:53 | pushing passing elements in order yields the input with some elements deleted |
| Filtering.FilterMonotone | mini_grep/src/lib.rs:63 | a test that accepts whatever a stricter test accepts keeps a super-sequence of what the stricter test keeps |
| Matcher.SearchCaseSensitive | mini_grep/src/lib.rs:49-57 | a line is in the result exactly when it is a line of `contents` that contains `query` |
| Matcher.SearchCaseInsensitive | mini_grep/src/lib.rs:59-68 | a line is in the result exactly when it is a line of `contents` whose fold contains the folded query; the line itself is reported, not its fold |
| Matcher.Search | mini_grep/src/lib.rs:35-43 | the configured mode picks the matcher: the result holds the lines that match in that mode, and only those |
| Matcher.SensitiveSelectsPositions | mini_grep/src/lib.rs:51-54 | the case-sensitive result is the lines at the matching positions, strictly ascending, and a position is selected exactly when its line contains the query |
| Matcher.InsensitiveSelectsPositions | mini_grep/src/lib.rs:61-65 | the case-insensitive result is the original lines at the positions whose fold contains the folded query, strictly ascending |
| Matcher.ResultIsSubsequenceOfLines | mini_grep/src/lib.rs:35-43 | in either mode the printed lines are the file's lines with some deleted: nothing inserted, repeated or reordered |
| Matcher.InsensitiveIsMorePermissive | mini_grep/src/lib.rs:52-63 | every line of the case-sensitive result is in the case-insensitive result, in the same relative order |
| Matcher.EmptyQueryKeepsEveryLine | mini_grep/src/lib.rs:51-53 | an empty query returns every line of the contents, in order, in either mode |
| Matcher.EmptyContentsReportNothing | mini_grep/src/lib.rs:62-64 | empty contents return no lines, whatever the query and mode |
| Matcher.SearchCaseSensitiveLoop | mini_grep/src/lib.rs:50-56 | the push loop over the lines returns exactly the case-sensitive filter |
| Matcher.SearchCaseInsensitiveLoop | mini_grep/src/lib.rs:60-67 | folding the query once and then pushing every original line whose fold contains it returns exactly the case-insensitive filter |
| Arguments.Build | mini_grep/src/lib.rs:13-19 | fewer than three arguments is an error with the message "You must pass 2 parameters"; otherwise query and file path are arguments 1 and 2, and ignore-case is the flag passed in |
| Arguments.BuildCommandLine | mini_grep/src/lib.rs:13-18 | building from a program name, a query and a path, followed by any extra arguments, gives back the configuration with that query and path |
| Scenarios.TestContentsLines | mini_grep/src/lib.rs:71-76 | the test text splits into its five lines, the last one unterminated |
| Scenarios.CaseSensitiveScenario | mini_grep/src/lib.rs:83-89 | `"duct"` over the test text yields exactly `["safe, fast, productive."]`, and `"Duct tape."` is not reported |
| Scenarios.CaseInsensitiveScenario | mini_grep/src/lib.rs:92-98 | `"rUsT"` over the test text yields exactly `["Rust:", "Trust me."]`, in that order and with their own capitals |
| Scenarios.LinesExamples | mini_grep/src/lib.rs:51 | the documented splitting cases: `""` has no lines, `"\n"` one empty line, a final terminator adds no line, an inner blank line is kept, a `\r` is removed only before `\n`, and the Rust documentation's mixed example `"foo\r\nbar\n\nbaz\r"` gives `["foo", "bar", "", "baz\r"]` |
| Scenarios.EdgeScenarios | mini_grep/src/lib.rs:62-64 | an empty query reports a single unterminated line, and empty contents report nothing, in either mode |

## Left out

- `mini_grep/src/main.rs` only collects the process arguments and calls `run`. It is not part of this model.
- `run` (lib.rs:22-31) prints errors and exits the process. Only its input, `Config::build`, is modelled.
- `get_text_from_file` (lib.rs:33-47) reads the file and prints the lines. Only its choice between the two matchers is modelled, as `Matcher.Search`, and the file contents are a parameter.
- Arguments.Build: the `IGNORE_CASE` lookup (lib.rs:17) reads process-global state. It becomes the parameter `ignoreCaseSet`, meaning the variable is set to valid Unicode.
- Text.LowerChar: Rust's `to_lowercase` (lib.rs:61, lib.rs:63) is the full Unicode mapping. The model folds only the ASCII letters `A`..`Z`. The Unicode mapping can change a string's length and depends on context (final sigma). Under it, `Text.ContainsLower` and `Matcher.InsensitiveIsMorePermissive` are not guaranteed.
- Text.Lower: keeps the length of the text only because the fold is ASCII; Rust's `to_lowercase` on strings can make the text longer or shorter.
- LineSplit.Lines: Rust returns borrowed slices of `contents`. The model returns the same text as values, so "the reported line is the original line" means equal text, not the same memory.
- Rust strings are UTF-8 bytes. The model works on sequences of characters; for valid UTF-8, a substring of bytes and a substring of characters agree.
