/** Rust's `str::lines`, which both matchers iterate over: the text is cut at
    every line feed, a carriage return directly before that line feed belongs
    to the terminator, and a last line without terminator is still a line. */
module LineSplit {
  import opened Text

  const LF: Line := "\n"
  const CRLF: Line := "\r\n"

  /** A line ending `str::lines` recognises. */
  predicate IsTerminator(term: Line) {
    term == LF || term == CRLF
  }

  /** Position of the first line feed in `s`, or `|s|` when there is none. */
  function FirstNewline(s: Line): (i: nat)
    ensures i <= |s|
    ensures forall j :: 0 <= j < i ==> s[j] != '\n'
    ensures i < |s| ==> s[i] == '\n'
  {
    if s == [] || s[0] == '\n' then 0 else 1 + FirstNewline(s[1..])
  }

  predicate EndsWithCr(l: Line) {
    |l| > 0 && l[|l| - 1] == '\r'
  }

  /** Drops the carriage return of a `\r\n` terminator. */
  function StripCr(l: Line): (r: Line)
    ensures EndsWithCr(l) ==> l == r + ['\r']
    ensures !EndsWithCr(l) ==> r == l
  {
    if EndsWithCr(l) then l[..|l| - 1] else l
  }

  /** The lines of `s`, in order. Empty text has no lines, a final terminator
      does not start an extra empty line, and a carriage return is removed only
      when a line feed follows it. */
  function Lines(s: Line): (r: seq<Line>)
    ensures forall k :: 0 <= k < |r| ==> '\n' !in r[k]
    ensures r == [] <==> s == []
    ensures |r| <= |s|
    decreases |s|
  {
    if s == [] then []
    else
      var i := FirstNewline(s);
      if i == |s| then [s]
      else [StripCr(s[..i])] + Lines(s[i + 1..])
  }

  /** A line that `Lines` hands back unchanged when it is written with
      terminator `term`: no line feed inside, and with a bare `\n` terminator no
      trailing carriage return that the splitter would take for part of it. */
  predicate Writable(l: Line, term: Line) {
    '\n' !in l && (term == LF ==> !EndsWithCr(l))
  }

  /** One terminated line in front of `rest` splits off as exactly that line. */
  lemma LinesOfTerminated(l: Line, term: Line, rest: Line)
    requires IsTerminator(term)
    requires Writable(l, term)
    ensures Lines(l + term + rest) == [l] + Lines(rest)
  {
    var s := l + term + rest;
    var n := |l| + |term| - 1;
    var i := FirstNewline(s);
    assert s[n] == '\n';
    assert i == n;
    assert s[n + 1..] == rest;
    if term == LF {
      assert s[..n] == l;
    } else {
      assert s[..n] == l + ['\r'];
    }
  }

  /** Text without a line feed is one line, or none when it is empty. */
  lemma LinesOfUnterminated(tail: Line)
    requires '\n' !in tail
    ensures Lines(tail) == if tail == [] then [] else [tail]
  {
    if tail != [] {
      assert FirstNewline(tail) == |tail|;
    }
  }

  lemma SplitHead<T>(a: seq<T>, b: seq<T>)
    requires a != []
    ensures a + b == [a[0]] + (a[1..] + b)
  {
  }

  /** Writes every line followed by its own terminator: `ls[k]` gets `terms[k]`. */
  function JoinEach(ls: seq<Line>, terms: seq<Line>): Line
    requires |terms| == |ls|
  {
    if ls == [] then [] else ls[0] + terms[0] + JoinEach(ls[1..], terms[1..])
  }

  lemma JoinEachCons(l: Line, term: Line, ls: seq<Line>, terms: seq<Line>)
    requires |terms| == |ls|
    ensures JoinEach([l] + ls, [term] + terms) == l + term + JoinEach(ls, terms)
  {
    assert ([l] + ls)[1..] == ls;
    assert ([term] + terms)[1..] == terms;
  }

  /** Splitting inverts writing: lines written each with its own terminator,
      `\n` or `\r\n` in any mix, followed by an optional unterminated last line,
      split back into exactly those lines. */
  lemma {:induction false} LinesJoin(ls: seq<Line>, terms: seq<Line>, tail: Line)
    requires |terms| == |ls|
    requires forall k :: 0 <= k < |ls| ==> IsTerminator(terms[k]) && Writable(ls[k], terms[k])
    requires '\n' !in tail
    ensures Lines(JoinEach(ls, terms) + tail) == ls + (if tail == [] then [] else [tail])
    decreases |ls|
  {
    if ls == [] {
      assert JoinEach(ls, terms) + tail == tail;
      LinesOfUnterminated(tail);
    } else {
      var last := if tail == [] then [] else [tail];
      var rest := JoinEach(ls[1..], terms[1..]) + tail;
      assert JoinEach(ls, terms) + tail == ls[0] + terms[0] + rest;
      LinesOfTerminated(ls[0], terms[0], rest);
      LinesJoin(ls[1..], terms[1..], tail);
      assert Lines(rest) == ls[1..] + last;
      SplitHead(ls, last);
    }
  }

  /** `n` copies of the terminator `term`: every line ended the same way. */
  function Repeat(term: Line, n: nat): (r: seq<Line>)
    ensures |r| == n
    ensures forall k :: 0 <= k < n ==> r[k] == term
  {
    seq(n, _ => term)
  }

  lemma RepeatCons(term: Line, n: nat)
    ensures Repeat(term, n + 1) == [term] + Repeat(term, n)
  {
  }

  /** The line feed that writing every line with `\n` adds after text that did
      not end in one. */
  function MissingLF(s: Line): Line {
    if s != [] && s[|s| - 1] != '\n' then LF else []
  }

  lemma SplitAtNewline(s: Line, i: nat)
    requires i < |s| && s[i] == '\n'
    ensures s == s[..i] + LF + s[i + 1..]
  {
  }

  lemma Reassociate<T>(a: seq<T>, b: seq<T>, c: seq<T>, d: seq<T>)
    ensures a + b + (c + d) == (a + b + c) + d
  {
  }

  /** Writing inverts splitting for text without carriage returns: joining the
      lines with `\n` gives the text back, plus the final line feed it lacked. */
  lemma {:induction false} JoinLines(s: Line)
    requires '\r' !in s
    ensures JoinEach(Lines(s), Repeat(LF, |Lines(s)|)) == s + MissingLF(s)
    decreases |s|
  {
    if s != [] {
      var i := FirstNewline(s);
      if i == |s| {
        LinesOfUnterminated(s);
        RepeatCons(LF, 0);
        JoinEachCons(s, LF, [], []);
      } else {
        var line, rest := s[..i], s[i + 1..];
        SplitAtNewline(s, i);
        assert !EndsWithCr(line);
        LinesOfTerminated(line, LF, rest);
        assert '\r' !in rest by {
          forall c | c in rest ensures c != '\r' {
            var j :| 0 <= j < |rest| && rest[j] == c;
            assert s[i + 1 + j] == c;
          }
        }
        JoinLines(rest);
        RepeatCons(LF, |Lines(rest)|);
        JoinEachCons(line, LF, Lines(rest), Repeat(LF, |Lines(rest)|));
        assert MissingLF(rest) == MissingLF(s) by {
          if rest != [] {
            assert rest[|rest| - 1] == s[|s| - 1];
          }
        }
        Reassociate(line, LF, rest, MissingLF(s));
      }
    }
  }
}
