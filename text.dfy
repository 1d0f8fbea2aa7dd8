/**
 * The few Python `str` operations the dashboard relies on: `strip()`,
 * `startswith`, `endswith`, `split(sep)` (with its inverse `sep.join`)
 * and slicing by a prefix length.
 */
module Text {

  /**
   * The characters `str.strip()` removes, those `str.isspace()` accepts:
   * tab to carriage return, the four separators 0x1C-0x1F, space, next
   * line, no-break space, and the Unicode space and line/paragraph
   * separators.
   */
  predicate IsSpace(c: char)
  {
    || '\t' <= c <= '\r'
    || '\U{1C}' <= c <= '\U{1F}'
    || c == ' '
    || c == '\U{85}'
    || c == '\U{A0}'
    || c == '\U{1680}'
    || '\U{2000}' <= c <= '\U{200A}'
    || c == '\U{2028}' || c == '\U{2029}'
    || c == '\U{202F}' || c == '\U{205F}' || c == '\U{3000}'
  }

  predicate StartsWith(s: string, prefix: string)
  {
    |prefix| <= |s| && s[..|prefix|] == prefix
  }

  predicate EndsWith(s: string, suffix: string)
  {
    |suffix| <= |s| && s[|s| - |suffix|..] == suffix
  }

  /** The length of the whitespace run that starts `s`. */
  function LeadingSpace(s: string): (n: nat)
    ensures n <= |s|
    ensures forall i :: 0 <= i < n ==> IsSpace(s[i])
    ensures n < |s| ==> !IsSpace(s[n])
  {
    if s != [] && IsSpace(s[0]) then 1 + LeadingSpace(s[1..]) else 0
  }

  /** The length of the whitespace run that ends `s`. */
  function TrailingSpace(s: string): (n: nat)
    ensures n <= |s|
    ensures forall i :: |s| - n <= i < |s| ==> IsSpace(s[i])
    ensures n < |s| ==> !IsSpace(s[|s| - n - 1])
  {
    if s != [] && IsSpace(s[|s| - 1]) then 1 + TrailingSpace(s[..|s| - 1]) else 0
  }

  /**
   * `s.strip()`: the text between the leading and the trailing whitespace
   * run. Only whitespace is cut, and the result neither starts nor ends
   * with whitespace.
   */
  function Strip(s: string): (r: string)
    ensures |r| <= |s|
    ensures exists a :: StrippedAt(s, r, a)
    ensures r == [] || (!IsSpace(r[0]) && !IsSpace(r[|r| - 1]))
  {
    var a := LeadingSpace(s);
    var b := TrailingSpace(s[a..]);
    var r := s[a..|s| - b];
    assert b < |s| - a ==> s[a..][|s| - a - b - 1] == s[|s| - b - 1];
    assert r != [] ==> r[0] == s[a] && r[|r| - 1] == s[|s| - b - 1];
    TrailingSpaceOfSuffix(s, a);
    assert a + |r| == |s| - b;
    assert StrippedAt(s, r, a);
    r
  }

  /** `r` is the slice of `s` at `a`, and everything around it is whitespace. */
  predicate StrippedAt(s: string, r: string, a: int)
  {
    0 <= a && a + |r| <= |s| && s[a..a + |r|] == r &&
    (forall i :: 0 <= i < a ==> IsSpace(s[i])) &&
    (forall i :: a + |r| <= i < |s| ==> IsSpace(s[i]))
  }

  /** What `strip()` removes at the end is whitespace of the input. */
  lemma {:induction false} TrailingSpaceOfSuffix(s: string, a: nat)
    requires a <= |s|
    ensures var b := TrailingSpace(s[a..]); forall i :: |s| - b <= i < |s| ==> IsSpace(s[i])
  {
    var left := s[a..];
    var b := TrailingSpace(left);
    forall i | |s| - b <= i < |s|
      ensures IsSpace(s[i])
    {
      assert s[i] == left[i - a];
    }
  }

  /** Stripping twice is stripping once. */
  lemma {:induction false} StripIdempotent(s: string)
    ensures Strip(Strip(s)) == Strip(s)
  {
    var r := Strip(s);
    assert LeadingSpace(r) == 0;
    assert r[0..] == r;
    assert TrailingSpace(r) == 0;
  }

  /** `sep.join(parts)` */
  function Join(parts: seq<string>, sep: char): string
  {
    if |parts| == 0 then ""
    else if |parts| == 1 then parts[0]
    else parts[0] + [sep] + Join(parts[1..], sep)
  }

  /**
   * `s.split(sep)`, one character at a time: a separator starts a new
   * piece, any other character joins the first piece of the rest.
   */
  function Split(s: string, sep: char): (parts: seq<string>)
    ensures |parts| >= 1
  {
    if s == [] then [[]]
    else
      var rest := Split(s[1..], sep);
      if s[0] == sep then [[]] + rest else [[s[0]] + rest[0]] + rest[1..]
  }

  /** Joining the pieces of a split with the separator gives back the input. */
  lemma {:induction false} JoinSplit(s: string, sep: char)
    ensures Join(Split(s, sep), sep) == s
  {
    if s != [] {
      var rest := Split(s[1..], sep);
      JoinSplit(s[1..], sep);
      if s[0] == sep {
        assert Split(s, sep) == [[]] + rest;
        assert Join([[]] + rest, sep) == [] + [sep] + Join(rest, sep);
      } else {
        JoinConsFirst(s[0], rest, sep);
      }
      assert [s[0]] + s[1..] == s;
    }
  }

  /** Prefixing the first piece prefixes the joined text. */
  lemma {:induction false} JoinConsFirst(c: char, parts: seq<string>, sep: char)
    requires |parts| >= 1
    ensures Join([[c] + parts[0]] + parts[1..], sep) == [c] + Join(parts, sep)
  {
    var q := [[c] + parts[0]] + parts[1..];
    assert q[1..] == parts[1..];
  }

  /** No piece holds the separator. */
  predicate PiecesFree(parts: seq<string>, sep: char)
  {
    forall k :: 0 <= k < |parts| ==> sep !in parts[k]
  }

  /** No piece of a split holds the separator. */
  lemma {:induction false} SplitPiecesFree(s: string, sep: char)
    ensures PiecesFree(Split(s, sep), sep)
  {
    if s != [] {
      SplitPiecesFree(s[1..], sep);
      var rest := Split(s[1..], sep);
      assert sep !in rest[0];
      var parts := Split(s, sep);
      if s[0] != sep {
        assert sep !in [s[0]] + rest[0];
        assert parts == [[s[0]] + rest[0]] + rest[1..];
        forall k | 0 <= k < |parts| ensures sep !in parts[k] {
          if k > 0 { assert parts[k] == rest[k]; }
        }
      } else {
        assert parts == [[]] + rest;
        forall k | 0 <= k < |parts| ensures sep !in parts[k] {
          if k > 0 { assert parts[k] == rest[k - 1]; }
        }
      }
    }
  }

  /** The first piece of a split is the text before the first separator (or all of it). */
  lemma {:induction false} SplitFirst(s: string, sep: char, i: nat)
    requires i <= |s| && (i < |s| ==> s[i] == sep)
    requires forall k :: 0 <= k < i ==> s[k] != sep
    ensures Split(s, sep)[0] == s[..i]
  {
    if i > 0 {
      SplitFirst(s[1..], sep, i - 1);
      assert s[..i] == [s[0]] + s[1..][..i - 1];
    }
  }

  /** The first piece is empty exactly when the text starts with the separator. */
  lemma SplitFirstEmpty(s: string, sep: char)
    requires s != []
    ensures Split(s, sep)[0] == [] <==> s[0] == sep
  {
  }

  /** The first piece is a prefix of the text, followed by a separator when it is shorter. */
  lemma {:induction false} SplitFirstPrefix(s: string, sep: char)
    ensures var p := Split(s, sep)[0];
            |p| <= |s| && s[..|p|] == p && (|p| < |s| ==> s[|p|] == sep)
  {
    if s != [] && s[0] != sep {
      SplitFirstPrefix(s[1..], sep);
      var q := Split(s[1..], sep)[0];
      assert Split(s, sep)[0] == [s[0]] + q;
      assert s[..1 + |q|] == [s[0]] + s[1..][..|q|];
    }
  }

  /** A text holding a separator splits into at least two pieces. */
  lemma {:induction false} SplitAtSeparator(s: string, sep: char, j: nat)
    requires j < |s| && s[j] == sep
    ensures |Split(s, sep)| >= 2
  {
    if j > 0 {
      SplitAtSeparator(s[1..], sep, j - 1);
    }
  }

  /** Once the rest holds a separator, the first character does not change the last piece. */
  lemma {:induction false} SplitLastOfRest(s: string, sep: char)
    requires s != [] && |Split(s[1..], sep)| >= 2
    ensures var parts, rest := Split(s, sep), Split(s[1..], sep);
            parts[|parts| - 1] == rest[|rest| - 1]
  {
    var rest := Split(s[1..], sep);
    if s[0] == sep {
      assert Split(s, sep) == [[]] + rest;
    } else {
      assert Split(s, sep) == [[s[0]] + rest[0]] + rest[1..];
    }
  }

  /** A text without the separator is its own single piece. */
  lemma {:induction false} SplitSingle(s: string, sep: char)
    requires forall k :: 0 <= k < |s| ==> s[k] != sep
    ensures Split(s, sep) == [s]
  {
    if s != [] {
      SplitSingle(s[1..], sep);
      assert [s[0]] + s[1..] == s;
    }
  }

  /** The last piece of a split is the text after the last separator. */
  lemma {:induction false} SplitLast(s: string, sep: char, j: nat)
    requires j < |s| && s[j] == sep
    requires forall k :: j < k < |s| ==> s[k] != sep
    ensures var parts := Split(s, sep); parts[|parts| - 1] == s[j + 1..]
  {
    if j == 0 {
      SplitSingle(s[1..], sep);
    } else {
      SplitLast(s[1..], sep, j - 1);
      SplitAtSeparator(s[1..], sep, j - 1);
      SplitLastOfRest(s, sep);
      assert s[1..][j..] == s[j + 1..];
    }
  }
}
