/** Character-level text operations the line filter relies on: substring
    containment (Rust's `str::contains` with a `&str` pattern) and the
    lower-case fold used by case-insensitive matching. */
module Text {

  /** A piece of text; Rust's `str` viewed as a sequence of characters. */
  type Line = seq<char>

  /** Occurrence of `q` in `s` starting at position `i` (the reference meaning
      of "contains as a contiguous substring"). */
  ghost predicate OccursAt(s: Line, q: Line, i: nat) {
    i + |q| <= |s| && s[i..i + |q|] == q
  }

  /** Executable substring test: `q` is a prefix of `s` or of one of its
      suffixes. `ContainsIff` states what it means. */
  predicate Contains(s: Line, q: Line)
    decreases |s|
  {
    q <= s || (s != [] && Contains(s[1..], q))
  }

  /** `Contains` agrees with the positional definition in both directions. */
  lemma {:induction false} ContainsIff(s: Line, q: Line)
    ensures Contains(s, q) <==> exists i: nat :: OccursAt(s, q, i)
    decreases |s|
  {
    if q <= s {
      assert OccursAt(s, q, 0);
    } else if s == [] {
      forall i: nat ensures !OccursAt(s, q, i) {
      }
    } else {
      ContainsIff(s[1..], q);
      assert Contains(s, q) == Contains(s[1..], q);
      if Contains(s[1..], q) {
        var j: nat :| OccursAt(s[1..], q, j);
        assert s[j + 1..j + 1 + |q|] == s[1..][j..j + |q|];
        assert OccursAt(s, q, j + 1);
      } else {
        assert !exists j: nat :: OccursAt(s[1..], q, j);
        forall i: nat | OccursAt(s, q, i) ensures false {
          if i > 0 {
            assert s[1..][i - 1..i - 1 + |q|] == s[i..i + |q|];
            assert OccursAt(s[1..], q, i - 1);
          }
        }
      }
    }
  }

  /** An occurrence at a known position is a match. */
  lemma ContainsAt(s: Line, q: Line, i: nat)
    requires OccursAt(s, q, i)
    ensures Contains(s, q)
  {
    ContainsIff(s, q);
  }

  /** Text lacking one of the query's characters cannot contain the query. */
  lemma NotContainsMissingChar(s: Line, q: Line, j: nat)
    requires j < |q| && q[j] !in s
    ensures !Contains(s, q)
  {
    ContainsIff(s, q);
  }

  /** Text in which two adjacent characters of the query never stand side by
      side cannot contain the query. */
  lemma NotContainsMissingPair(s: Line, q: Line, j: nat)
    requires j + 1 < |q|
    requires forall i :: 0 <= i < |s| - 1 ==> !(s[i] == q[j] && s[i + 1] == q[j + 1])
    ensures !Contains(s, q)
  {
    ContainsIff(s, q);
    forall i: nat | i + |q| <= |s| ensures !OccursAt(s, q, i) {
      assert s[i..i + |q|][j] == s[i + j];
      assert s[i..i + |q|][j + 1] == s[i + j + 1];
    }
  }

  /** Every text contains the empty text. */
  lemma ContainsEmpty(s: Line)
    ensures Contains(s, [])
  {
  }

  predicate IsAsciiUpper(c: char) {
    'A' <= c <= 'Z'
  }

  /** ASCII lower-case fold of one character: upper-case Latin letters map to
      their lower-case counterpart, every other character is unchanged. */
  function LowerChar(c: char): (r: char)
    ensures !IsAsciiUpper(r)
    ensures !IsAsciiUpper(c) ==> r == c
    ensures IsAsciiUpper(c) ==> 'a' <= r <= 'z' && r as int - c as int == 'a' as int - 'A' as int
  {
    if IsAsciiUpper(c) then (c as int - 'A' as int + 'a' as int) as char else c
  }

  /** The fold applied character by character; it never changes the length. */
  function Lower(s: Line): (r: Line)
    ensures |r| == |s|
    ensures forall i :: 0 <= i < |s| ==> r[i] == LowerChar(s[i])
  {
    seq(|s|, i requires 0 <= i < |s| => LowerChar(s[i]))
  }

  /** Folding twice is folding once. */
  lemma LowerIdempotent(s: Line)
    ensures Lower(Lower(s)) == Lower(s)
  {
  }

  /** Text without ASCII capitals is its own fold. */
  lemma LowerFixesLowerText(s: Line)
    requires forall i :: 0 <= i < |s| ==> !IsAsciiUpper(s[i])
    ensures Lower(s) == s
  {
  }

  /** The fold distributes over the operations `Contains` uses. */
  lemma LowerSuffix(s: Line)
    requires s != []
    ensures Lower(s[1..]) == Lower(s)[1..]
  {
  }

  lemma LowerPrefix(q: Line, s: Line)
    requires q <= s
    ensures Lower(q) <= Lower(s)
  {
    assert Lower(q) == Lower(s)[..|q|];
  }

  /** A per-character fold can only create matches, never destroy them:
      whatever contains `q` case-sensitively also contains it after folding
      both sides. */
  lemma {:induction false} ContainsLower(s: Line, q: Line)
    requires Contains(s, q)
    ensures Contains(Lower(s), Lower(q))
    decreases |s|
  {
    if q <= s {
      LowerPrefix(q, s);
    } else {
      LowerSuffix(s);
      ContainsLower(s[1..], q);
    }
  }
}
