/**
 * The JavaScript string operations the core relies on: `split` on a
 * one-character separator, `join`, and `trim`.
 */
module Text {

  /** Number of occurrences of `c` in `s`. */
  function Occurrences(s: string, c: char): nat {
    if s == [] then 0 else (if s[0] == c then 1 else 0) + Occurrences(s[1..], c)
  }

  /**
   * `s.split(sep)`: the maximal `sep`-free pieces between separators.
   * Like JavaScript's, it never returns an empty list ("" gives [""]) and
   * keeps the empty pieces around adjacent, leading or trailing separators.
   */
  function Split(s: string, sep: char): (parts: seq<string>)
    ensures |parts| == Occurrences(s, sep) + 1
    ensures forall i :: 0 <= i < |parts| ==> sep !in parts[i]
  {
    if s == [] then [[]]
    else
      var rest := Split(s[1..], sep);
      if s[0] == sep then [[]] + rest
      else [[s[0]] + rest[0]] + rest[1..]
  }

  /** Total length of the parts. */
  function TotalLength(parts: seq<string>): nat {
    if parts == [] then 0 else |parts[0]| + TotalLength(parts[1..])
  }

  /** `parts.join(sep)`: the parts with one separator between neighbours. */
  function Join(parts: seq<string>, sep: char): (s: string)
    ensures |s| == if |parts| == 0 then 0 else TotalLength(parts) + |parts| - 1
  {
    if |parts| == 0 then []
    else if |parts| == 1 then parts[0]
    else parts[0] + [sep] + Join(parts[1..], sep)
  }

  /** Joining separator-free parts puts exactly one separator in each gap. */
  lemma {:induction false} JoinOccurrences(parts: seq<string>, sep: char)
    requires forall i :: 0 <= i < |parts| ==> sep !in parts[i]
    ensures Occurrences(Join(parts, sep), sep) == if |parts| == 0 then 0 else |parts| - 1
  {
    if |parts| >= 1 {
      SeparatorFreeHasNone(parts[0], sep);
    }
    if |parts| > 1 {
      var rest := Join(parts[1..], sep);
      JoinOccurrences(parts[1..], sep);
      OccurrencesConcat(parts[0], [sep] + rest, sep);
      OccurrencesConcat([sep], rest, sep);
      assert parts[0] + [sep] + rest == parts[0] + ([sep] + rest);
    }
  }

  lemma {:induction false} OccurrencesConcat(a: string, b: string, c: char)
    ensures Occurrences(a + b, c) == Occurrences(a, c) + Occurrences(b, c)
  {
    if a == [] {
      assert a + b == b;
    } else {
      assert (a + b)[1..] == a[1..] + b;
      OccurrencesConcat(a[1..], b, c);
    }
  }

  lemma {:induction false} SeparatorFreeHasNone(s: string, c: char)
    requires c !in s
    ensures Occurrences(s, c) == 0
  {
    if s != [] {
      SeparatorFreeHasNone(s[1..], c);
    }
  }

  function Last<T>(s: seq<T>): T
    requires |s| > 0
  {
    s[|s| - 1]
  }

  /** Splitting and joining again gives back the original string. */
  lemma {:induction false} JoinSplit(s: string, sep: char)
    ensures Join(Split(s, sep), sep) == s
  {
    if s != [] {
      var rest := Split(s[1..], sep);
      JoinSplit(s[1..], sep);
      if s[0] == sep {
        assert ([[]] + rest)[1..] == rest;
      } else if |rest| > 1 {
        var parts := [[s[0]] + rest[0]] + rest[1..];
        assert parts[1..] == rest[1..];
        assert [s[0]] + s[1..] == s;
      } else {
        assert [s[0]] + s[1..] == s;
      }
    }
  }

  /** A separator splits a string into the pieces of its two sides. */
  lemma {:induction false} SplitAround(a: string, b: string, sep: char)
    ensures Split(a + [sep] + b, sep) == Split(a, sep) + Split(b, sep)
  {
    if a == [] {
      assert a + [sep] + b == [sep] + b;
      SplitCons(sep, b, sep);
    } else {
      var t := a[1..] + [sep] + b;
      assert a + [sep] + b == [a[0]] + t;
      assert a == [a[0]] + a[1..];
      SplitAround(a[1..], b, sep);
      SplitCons(a[0], t, sep);
      SplitCons(a[0], a[1..], sep);
      if a[0] == sep {
        ConsAssoc(Split(a[1..], sep), Split(b, sep));
      } else {
        ExtendFirst([a[0]], Split(a[1..], sep), Split(b, sep));
      }
    }
  }

  /** Prepending an empty piece commutes with appending pieces. */
  lemma ConsAssoc(tail: seq<string>, right: seq<string>)
    ensures [[]] + (tail + right) == ([[]] + tail) + right
  {
  }

  /** Extending the first piece commutes with appending pieces. */
  lemma ExtendFirst(p: string, tail: seq<string>, right: seq<string>)
    requires |tail| >= 1
    ensures var whole := tail + right;
      [p + whole[0]] + whole[1..] == ([p + tail[0]] + tail[1..]) + right
  {
    assert (tail + right)[0] == tail[0];
    assert (tail + right)[1..] == tail[1..] + right;
  }

  /** Splitting a string whose first character is `c`. */
  lemma SplitCons(c: char, t: string, sep: char)
    ensures var rest := Split(t, sep);
      Split([c] + t, sep) == if c == sep then [[]] + rest else [[c] + rest[0]] + rest[1..]
  {
    assert ([c] + t)[1..] == t;
  }

  /** A string without the separator is a single piece. */
  lemma {:induction false} SplitWithoutSeparator(s: string, sep: char)
    requires sep !in s
    ensures Split(s, sep) == [s]
  {
    if s != [] {
      SplitWithoutSeparator(s[1..], sep);
      assert [s[0]] + s[1..] == s;
    }
  }

  /** Joining separator-free pieces and splitting again gives back the pieces. */
  lemma {:induction false} SplitJoin(parts: seq<string>, sep: char)
    requires |parts| >= 1
    requires forall i :: 0 <= i < |parts| ==> sep !in parts[i]
    ensures Split(Join(parts, sep), sep) == parts
  {
    if |parts| == 1 {
      SplitWithoutSeparator(parts[0], sep);
    } else {
      SplitWithoutSeparator(parts[0], sep);
      SplitJoin(parts[1..], sep);
      SplitAround(parts[0], Join(parts[1..], sep), sep);
      assert [parts[0]] + parts[1..] == parts;
    }
  }

  /** The last piece is empty exactly when the string ends with the separator. */
  lemma {:induction false} LastPieceEmpty(s: string, sep: char)
    requires s != []
    ensures Last(Split(s, sep)) == [] <==> s[|s| - 1] == sep
  {
    var n := |s|;
    if s[n - 1] == sep {
      SplitAround(s[..n - 1], [], sep);
      assert s[..n - 1] + [sep] + [] == s;
    } else {
      LastPieceNonEmpty(s, sep);
    }
  }

  lemma {:induction false} LastPieceNonEmpty(s: string, sep: char)
    requires s != [] && s[|s| - 1] != sep
    ensures Last(Split(s, sep)) != []
  {
    if |s| > 1 {
      LastPieceNonEmpty(s[1..], sep);
    }
  }

  /** The first character of a join is the first character of its first part. */
  lemma {:induction false} JoinStartsWithFirstPart(parts: seq<string>, sep: char)
    requires |parts| >= 1 && parts[0] != []
    ensures Join(parts, sep) != [] && Join(parts, sep)[0] == parts[0][0]
  {
  }

  /** The last character of a join is the last character of its last part. */
  lemma {:induction false} JoinEndsWithLastPart(parts: seq<string>, sep: char)
    requires |parts| >= 1 && Last(parts) != []
    ensures Join(parts, sep) != [] && Last(Join(parts, sep)) == Last(Last(parts))
  {
    if |parts| > 1 {
      JoinEndsWithLastPart(parts[1..], sep);
    }
  }

  /**
   * The characters `String.prototype.trim` removes: the WhiteSpace and
   * LineTerminator code points of ECMA-262 (section 12.2 and 12.3 of the
   * 2023 edition), the space separators of Unicode category Zs included.
   */
  predicate IsJsWhitespace(c: char) {
    c == '\t' || c == '\n' || c == '\U{000B}' || c == '\U{000C}' || c == '\r' || c == ' '
    || c == '\U{00A0}' || c == '\U{1680}' || ('\U{2000}' <= c <= '\U{200A}')
    || c == '\U{2028}' || c == '\U{2029}' || c == '\U{202F}' || c == '\U{205F}'
    || c == '\U{3000}' || c == '\U{FEFF}'
  }

  /** The number of whitespace characters `s` starts with. */
  function LeadingWhitespace(s: string): (n: nat)
    ensures n <= |s|
    ensures forall i :: 0 <= i < n ==> IsJsWhitespace(s[i])
    ensures n < |s| ==> !IsJsWhitespace(s[n])
  {
    if s != [] && IsJsWhitespace(s[0]) then 1 + LeadingWhitespace(s[1..]) else 0
  }

  /** The number of whitespace characters `s` ends with. */
  function TrailingWhitespace(s: string): (n: nat)
    ensures n <= |s|
    ensures forall i :: |s| - n <= i < |s| ==> IsJsWhitespace(s[i])
    ensures n < |s| ==> !IsJsWhitespace(s[|s| - 1 - n])
  {
    if s != [] && IsJsWhitespace(s[|s| - 1]) then 1 + TrailingWhitespace(s[..|s| - 1]) else 0
  }

  /**
   * `s.trim()`: the part of `s` left once the whitespace at both ends is
   * removed. It starts at offset `k`, has only whitespace before it and
   * after it, and neither starts nor ends with whitespace.
   */
  function Trim(s: string): (r: string)
    ensures var k := LeadingWhitespace(s);
      && k + |r| <= |s| && r == s[k..k + |r|]
      && (forall i :: 0 <= i < k ==> IsJsWhitespace(s[i]))
      && (forall i :: k + |r| <= i < |s| ==> IsJsWhitespace(s[i]))
    ensures r == [] || (!IsJsWhitespace(r[0]) && !IsJsWhitespace(r[|r| - 1]))
  {
    var k := LeadingWhitespace(s);
    var n := TrailingWhitespace(s[k..]);
    forall i | |s| - n <= i < |s|
      ensures IsJsWhitespace(s[i])
    {
      assert s[i] == s[k..][i - k];
    }
    s[k..|s| - n]
  }
}
