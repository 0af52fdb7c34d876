/**
  The pieces of Go's `strings` package and of its string ordering that the
  cookie pipeline relies on: `strings.Split` with a one-character separator,
  `strings.Contains`, and the `<` operator on strings.
 */
module Strings {

  /** Concatenates the pieces with `sep` between neighbours (Go's `strings.Join`). */
  function Join(parts: seq<string>, sep: char): string
  {
    if |parts| == 0 then ""
    else if |parts| == 1 then parts[0]
    else parts[0] + [sep] + Join(parts[1..], sep)
  }

  /**
    `strings.Split(s, sep)`: the text between separators, in order. The empty
    string splits into one empty piece.
   */
  function Split(s: string, sep: char): (parts: seq<string>)
    ensures |parts| >= 1
    decreases |s|
  {
    if |s| == 0 then [""]
    else
      var rest := Split(s[1..], sep);
      if s[0] == sep then [""] + rest
      else [[s[0]] + rest[0]] + rest[1..]
  }

  /** No piece of a split holds the separator, and joining the pieces back gives the text again. */
  lemma {:induction false} SplitJoin(s: string, sep: char)
    ensures forall i :: 0 <= i < |Split(s, sep)| ==> sep !in Split(s, sep)[i]
    ensures Join(Split(s, sep), sep) == s
    decreases |s|
  {
    if |s| > 0 {
      SplitJoin(s[1..], sep);
      var rest := Split(s[1..], sep);
      if s[0] == sep {
        assert ([""] + rest)[1..] == rest;
      } else {
        var parts := [[s[0]] + rest[0]] + rest[1..];
        assert parts[1..] == rest[1..];
        assert s == [s[0]] + s[1..];
      }
    }
  }

  /** A string without the separator is a single piece. */
  lemma {:induction false} SplitWithoutSeparator(s: string, sep: char)
    requires sep !in s
    ensures Split(s, sep) == [s]
    decreases |s|
  {
    if |s| > 0 {
      SplitWithoutSeparator(s[1..], sep);
      assert [s[0]] + s[1..] == s;
    }
  }

  /** `strings.Contains(s, sub)`: `sub` occurs somewhere in `s`. */
  predicate Contains(s: string, sub: string)
    decreases |s|
  {
    sub <= s || (|s| > 0 && Contains(s[1..], sub))
  }

  /** An occurrence inside a string is an occurrence inside anything built around it. */
  lemma {:induction false} ContainsInfix(a: string, m: string, b: string, sub: string)
    requires Contains(m, sub)
    ensures Contains(a + m + b, sub)
    decreases |a| + |m|
  {
    if |a| > 0 {
      ContainsInfix(a[1..], m, b, sub);
      assert (a + m + b)[1..] == a[1..] + m + b;
    } else if sub <= m {
      assert a + m + b == m + b;
    } else {
      ContainsInfix([], m[1..], b, sub);
      assert a + m + b == [m[0]] + (m[1..] + b);
      assert ([] + m[1..] + b) == (a + m + b)[1..];
    }
  }

  /** Every piece of a split is a substring of the joined string. */
  lemma {:induction false} ContainsJoin(parts: seq<string>, sep: char, k: nat, sub: string)
    requires k < |parts|
    ensures Contains(parts[k], sub) ==> Contains(Join(parts, sep), sub)
  {
    if |parts| == 1 || !Contains(parts[k], sub) {
    } else if k == 0 {
      ContainsInfix([], parts[0], [sep] + Join(parts[1..], sep), sub);
      assert [] + parts[0] + ([sep] + Join(parts[1..], sep)) == Join(parts, sep);
    } else {
      ContainsJoin(parts[1..], sep, k - 1, sub);
      ContainsInfix(parts[0] + [sep], Join(parts[1..], sep), [], sub);
      assert parts[0] + [sep] + Join(parts[1..], sep) + [] == Join(parts, sep);
    }
  }

  /** A first piece free of the separator splits off on its own. */
  lemma {:induction false} SplitFirst(a: string, sep: char, b: string)
    requires sep !in a
    ensures Split(a + [sep] + b, sep) == [a] + Split(b, sep)
    decreases |a|
  {
    var s := a + [sep] + b;
    if |a| == 0 {
      assert s[1..] == b;
    } else {
      SplitFirst(a[1..], sep, b);
      assert s[1..] == a[1..] + [sep] + b;
      assert [a[0]] + a[1..] == a;
    }
  }

  /**
    Go's `a < b` on strings: byte-wise lexicographic order. UTF-8 keeps the
    order of code points, so comparing characters gives the same answer.
   */
  predicate Less(a: string, b: string)
    decreases |a|
  {
    if |a| == 0 then |b| > 0
    else |b| > 0 && (a[0] < b[0] || (a[0] == b[0] && Less(a[1..], b[1..])))
  }

  lemma LessIrreflexive(a: string)
    ensures !Less(a, a)
  {
  }

  lemma LessTransitive(a: string, b: string, c: string)
    requires Less(a, b) && Less(b, c)
    ensures Less(a, c)
  {
  }

  /** The order is total on distinct strings, and a strict order. */
  lemma {:induction false} LessTotal(a: string, b: string)
    ensures a != b <==> Less(a, b) || Less(b, a)
    ensures !(Less(a, b) && Less(b, a))
    decreases |a|
  {
    if |a| > 0 && |b| > 0 && a[0] == b[0] {
      LessTotal(a[1..], b[1..]);
      assert a == [a[0]] + a[1..] && b == [b[0]] + b[1..];
    }
  }
}
