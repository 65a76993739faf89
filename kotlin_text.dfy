/**
 * The Kotlin standard-library operations on strings and lists that the
 * documentation task relies on, with the semantics Kotlin gives them:
 * `split`, `filter { it.isNotEmpty() }`, `joinToString`, `indexOf`,
 * `contains`, `slice(IntRange)`, `replace`, `startsWith`,
 * `equals(ignoreCase = true)` and `substringAfterLast`.
 */
module KotlinText {

  // ---------------------------------------------------------------------
  // split / joinToString
  // ---------------------------------------------------------------------

  /** `s.split(sep)` for a one-character delimiter: empty pieces are kept, so
      the result is never empty (`"".split(":") == [""]`). */
  function Split(s: string, sep: char): (r: seq<string>)
    ensures |r| >= 1
    ensures r[0] <= s
    ensures forall i :: 0 <= i < |r| ==> sep !in r[i]
    decreases |s|
  {
    if |s| == 0 then [""]
    else
      var rest := Split(s[1..], sep);
      if s[0] == sep then [""] + rest
      else [[s[0]] + rest[0]] + rest[1..]
  }

  /** `parts.joinToString(sep)`. */
  function Join(parts: seq<string>, sep: string): string
  {
    if |parts| == 0 then ""
    else if |parts| == 1 then parts[0]
    else parts[0] + sep + Join(parts[1..], sep)
  }

  /** Text prepended to the first piece comes out in front of the join. */
  lemma {:induction false} JoinPrependToHead(c: string, parts: seq<string>, sep: string)
    requires |parts| >= 1
    ensures Join([c + parts[0]] + parts[1..], sep) == c + Join(parts, sep)
  {
    var q := [c + parts[0]] + parts[1..];
    if |parts| == 1 {
      assert q == [c + parts[0]];
    } else {
      assert q[1..] == parts[1..];
    }
  }

  /** Joining the pieces of a split with the same delimiter gives the input back. */
  lemma {:induction false} JoinSplit(s: string, sep: char)
    ensures Join(Split(s, sep), [sep]) == s
    decreases |s|
  {
    if |s| > 0 {
      var rest := Split(s[1..], sep);
      JoinSplit(s[1..], sep);
      assert s == [s[0]] + s[1..];
      if s[0] == sep {
        var parts := [""] + rest;
        assert Split(s, sep) == parts;
        assert parts[1..] == rest;
        assert Join(parts, [sep]) == "" + [sep] + Join(rest, [sep]);
      } else {
        JoinPrependToHead([s[0]], rest, [sep]);
      }
    }
  }

  /** A string without the delimiter splits into itself alone. */
  lemma {:induction false} SplitWithoutSeparator(x: string, sep: char)
    requires sep !in x
    ensures Split(x, sep) == [x]
    decreases |x|
  {
    if |x| > 0 {
      SplitWithoutSeparator(x[1..], sep);
      assert [x[0]] + x[1..] == x;
    }
  }

  /** Splitting stops the first piece at the first delimiter. */
  lemma {:induction false} SplitAfterPiece(x: string, sep: char, y: string)
    requires sep !in x
    ensures Split(x + [sep] + y, sep) == [x] + Split(y, sep)
    decreases |x|
  {
    var s := x + [sep] + y;
    if |x| == 0 {
      assert s[1..] == y;
    } else {
      assert s[1..] == x[1..] + [sep] + y;
      SplitAfterPiece(x[1..], sep, y);
      assert [x[0]] + x[1..] == x;
    }
  }

  /** Splitting a join of delimiter-free pieces gives the pieces back. */
  lemma {:induction false} SplitJoin(parts: seq<string>, sep: char)
    requires |parts| >= 1
    requires forall i :: 0 <= i < |parts| ==> sep !in parts[i]
    ensures Split(Join(parts, [sep]), sep) == parts
    decreases |parts|
  {
    if |parts| == 1 {
      SplitWithoutSeparator(parts[0], sep);
    } else {
      SplitJoin(parts[1..], sep);
      SplitAfterPiece(parts[0], sep, Join(parts[1..], [sep]));
      assert [parts[0]] + parts[1..] == parts;
    }
  }

  // ---------------------------------------------------------------------
  // filter { it.isNotEmpty() }
  // ---------------------------------------------------------------------

  /** `parts.filter { it.isNotEmpty() }`: keeps the non-empty pieces, in order. */
  function DropEmpty(parts: seq<string>): (r: seq<string>)
    ensures |r| <= |parts|
    ensures forall x :: x in r <==> x in parts && x != ""
  {
    if |parts| == 0 then []
    else if parts[0] == "" then DropEmpty(parts[1..])
    else [parts[0]] + DropEmpty(parts[1..])
  }

  /** The filter changes nothing when no piece is empty. */
  lemma {:induction false} DropEmptyOfNonEmpty(parts: seq<string>)
    requires forall i :: 0 <= i < |parts| ==> parts[i] != ""
    ensures DropEmpty(parts) == parts
  {
    if |parts| > 0 {
      DropEmptyOfNonEmpty(parts[1..]);
      assert [parts[0]] + parts[1..] == parts;
    }
  }

  /** The filter leaves nothing of a list of empty pieces. */
  lemma {:induction false} DropEmptyOfEmpties(parts: seq<string>)
    requires forall i :: 0 <= i < |parts| ==> parts[i] == ""
    ensures DropEmpty(parts) == []
  {
    if |parts| > 0 {
      DropEmptyOfEmpties(parts[1..]);
    }
  }

  /** The filter works piece by piece and keeps the order: filtering a
      concatenation concatenates the filtered halves. */
  lemma {:induction false} DropEmptyAppend(a: seq<string>, b: seq<string>)
    ensures DropEmpty(a + b) == DropEmpty(a) + DropEmpty(b)
    decreases |a|
  {
    if |a| > 0 {
      assert (a + b)[1..] == a[1..] + b;
      DropEmptyAppend(a[1..], b);
    } else {
      assert a + b == b;
    }
  }

  // ---------------------------------------------------------------------
  // indexOf / contains on strings, indexOf on lists
  // ---------------------------------------------------------------------

  /** `pat` occurs in `s` starting at index `k`. */
  predicate OccursAt(s: string, pat: string, k: int)
  {
    0 <= k && k + |pat| <= |s| && s[k..k + |pat|] == pat
  }

  /** `s.indexOf(pat)`: the first index at which `pat` occurs, or -1
      (`IndexOfFirst` states that no earlier index and, for -1, no index
      at all holds an occurrence). */
  function IndexOf(s: string, pat: string): (r: int)
    ensures -1 <= r
    ensures r >= 0 ==> OccursAt(s, pat, r)
    decreases |s|
  {
    if |s| < |pat| then -1
    else if s[..|pat|] == pat then
      assert OccursAt(s, pat, 0);
      0
    else
      var j := IndexOf(s[1..], pat);
      if j < 0 then -1
      else
        OccursAtShift(s, pat, j + 1);
        j + 1
  }

  /** Shifting an occurrence by one character of the text. */
  lemma {:induction false} OccursAtShift(s: string, pat: string, k: int)
    requires |s| > 0 && k >= 1
    ensures OccursAt(s, pat, k) <==> OccursAt(s[1..], pat, k - 1)
  {
    if k + |pat| <= |s| {
      assert s[1..][k - 1..k - 1 + |pat|] == s[k..k + |pat|];
    }
  }

  /** `indexOf` finds the first occurrence, and returns -1 exactly when
      there is none. */
  lemma {:induction false} IndexOfFirst(s: string, pat: string)
    ensures IndexOf(s, pat) >= 0 ==> forall k :: 0 <= k < IndexOf(s, pat) ==> !OccursAt(s, pat, k)
    ensures IndexOf(s, pat) < 0 <==> forall k :: !OccursAt(s, pat, k)
    decreases |s|
  {
    if |s| < |pat| {
    } else if s[..|pat|] == pat {
      assert OccursAt(s, pat, 0);
    } else {
      IndexOfFirst(s[1..], pat);
      forall k | 1 <= k
        ensures OccursAt(s, pat, k) <==> OccursAt(s[1..], pat, k - 1)
      {
        OccursAtShift(s, pat, k);
      }
      assert !OccursAt(s, pat, 0);
      if IndexOf(s[1..], pat) >= 0 {
        assert OccursAt(s[1..], pat, IndexOf(s[1..], pat));
      }
    }
  }

  /** Any occurrence makes `indexOf` non-negative and no later than it. */
  lemma {:induction false} OccurrenceFound(s: string, pat: string, k: int)
    requires OccursAt(s, pat, k)
    ensures 0 <= IndexOf(s, pat) <= k
  {
    IndexOfFirst(s, pat);
  }

  /** `s.contains(pat)`, which Kotlin defines as `indexOf(pat) >= 0`. */
  predicate Contains(s: string, pat: string)
  {
    IndexOf(s, pat) >= 0
  }

  /** Every piece of a split occurs in the split string. */
  lemma {:induction false} SplitPieceOccurs(s: string, sep: char, x: string)
    requires x in Split(s, sep)
    ensures Contains(s, x)
    decreases |s|
  {
    if |s| == 0 {
      OccurrenceFound(s, x, 0);
    } else {
      var rest := Split(s[1..], sep);
      if x == Split(s, sep)[0] {
        OccurrenceFound(s, x, 0);
      } else {
        assert x in rest;
        SplitPieceOccurs(s[1..], sep, x);
        var k := IndexOf(s[1..], x);
        OccursAtShift(s, x, k + 1);
        OccurrenceFound(s, x, k + 1);
      }
    }
  }

  /** `xs.indexOf(x)` on a list: the first index holding `x`, or -1. */
  function IndexOfElement<T(==)>(xs: seq<T>, x: T): (r: int)
    ensures -1 <= r < |xs|
    ensures r < 0 <==> x !in xs
    ensures r >= 0 ==> xs[r] == x && x !in xs[..r]
  {
    if |xs| == 0 then -1
    else if xs[0] == x then 0
    else
      var j := IndexOfElement(xs[1..], x);
      assert xs[1..][..j + 1] == xs[1..j + 2];
      if j < 0 then -1 else j + 1
  }

  // ---------------------------------------------------------------------
  // slice / last / startsWith
  // ---------------------------------------------------------------------

  /** `xs.slice(IntRange(first, last))` (also `String.slice`): an empty range
      gives the empty sequence without any bounds check; otherwise both ends
      must lie inside `xs`, which the caller guarantees. */
  function Slice<T>(xs: seq<T>, first: int, last: int): (r: seq<T>)
    requires first > last || (0 <= first && last < |xs|)
    ensures |r| == if first > last then 0 else last - first + 1
    ensures forall k :: 0 <= k < |r| ==> r[k] == xs[first + k]
  {
    if first > last then [] else xs[first..last + 1]
  }

  /** `xs.last()` on a non-empty list. */
  function Last<T>(xs: seq<T>): T
    requires |xs| > 0
  {
    xs[|xs| - 1]
  }

  /** `s.startsWith(prefix)`: a plain character-by-character prefix test. */
  predicate StartsWith(s: string, prefix: string)
  {
    prefix <= s
  }

  // ---------------------------------------------------------------------
  // equals(other, ignoreCase = true)
  // ---------------------------------------------------------------------

  function AsciiUpper(c: char): char
  {
    if 'a' <= c <= 'z' then (c as int - 32) as char else c
  }

  /** Two characters are equal ignoring case. */
  predicate CharEqualsIgnoreCase(a: char, b: char)
  {
    a == b || AsciiUpper(a) == AsciiUpper(b)
  }

  /** `a.equals(b, ignoreCase = true)`. */
  predicate EqualsIgnoreCase(a: string, b: string)
  {
    |a| == |b| && forall i :: 0 <= i < |a| ==> CharEqualsIgnoreCase(a[i], b[i])
  }

  // ---------------------------------------------------------------------
  // substringAfterLast
  // ---------------------------------------------------------------------

  /** `s.lastIndexOf(c)`. */
  function LastIndexOfChar(s: string, c: char): (r: int)
    ensures -1 <= r < |s|
    ensures r >= 0 ==> s[r] == c && c !in s[r + 1..]
    ensures r < 0 <==> c !in s
  {
    if |s| == 0 then -1
    else if s[|s| - 1] == c then |s| - 1
    else
      var r := LastIndexOfChar(s[..|s| - 1], c);
      assert s == s[..|s| - 1] + [s[|s| - 1]];
      r
  }

  /** `s.substringAfterLast(c, missing)`: what follows the last `c`, or
      `missing` when `s` has no `c`. */
  function SubstringAfterLast(s: string, c: char, missing: string): (r: string)
    ensures c !in s ==> r == missing
    ensures c in s ==> |r| < |s| && c !in r && s == s[..|s| - |r| - 1] + [c] + r
  {
    var i := LastIndexOfChar(s, c);
    if i < 0 then missing else s[i + 1..]
  }

  // ---------------------------------------------------------------------
  // replace(oldValue, newValue)
  // ---------------------------------------------------------------------

  /** `s.replace(target, replacement)`: scans left to right and replaces every
      non-overlapping occurrence of `target`. */
  function Replace(s: string, target: string, replacement: string): string
    requires |target| > 0
    decreases |s|
  {
    if |s| < |target| then s
    else if s[..|target|] == target then replacement + Replace(s[|target|..], target, replacement)
    else [s[0]] + Replace(s[1..], target, replacement)
  }

  /** `replace` keeps the text up to the first occurrence of the target,
      writes the replacement in its place and carries on after it; with no
      occurrence the text is left as it is. */
  predicate ReplacedAtFirst(s: string, target: string, replacement: string)
    requires |target| > 0
  {
    var i := IndexOf(s, target);
    if i < 0 then Replace(s, target, replacement) == s
    else Replace(s, target, replacement) == s[..i] + replacement + Replace(s[i + |target|..], target, replacement)
  }

  /** The scanning definition of `replace` agrees with the one Kotlin's
      library writes in terms of `indexOf`. */
  lemma {:induction false} ReplaceAtFirstOccurrence(s: string, target: string, replacement: string)
    requires |target| > 0
    ensures ReplacedAtFirst(s, target, replacement)
    decreases |s|
  {
    if |s| >= |target| {
      if s[..|target|] == target {
        ReplaceAtStart(s, target, replacement);
      } else {
        ReplaceAtFirstOccurrence(s[1..], target, replacement);
        if IndexOf(s[1..], target) >= 0 {
          ReplaceSkipFound(s, target, replacement);
        } else {
          ReplaceSkipNone(s, target, replacement);
        }
      }
    }
  }

  /** The scan replaces a target found at the start. */
  lemma {:induction false} ReplaceAtStart(s: string, target: string, replacement: string)
    requires |target| > 0 && |s| >= |target| && s[..|target|] == target
    ensures ReplacedAtFirst(s, target, replacement)
  {
    assert IndexOf(s, target) == 0;
    assert s[..0] == [];
  }

  /** The scan steps over a first character when the target occurs nowhere after it. */
  lemma {:induction false} ReplaceSkipNone(s: string, target: string, replacement: string)
    requires |target| > 0 && |s| >= |target| && s[..|target|] != target
    requires IndexOf(s[1..], target) < 0
    requires ReplacedAtFirst(s[1..], target, replacement)
    ensures ReplacedAtFirst(s, target, replacement)
  {
    assert IndexOf(s, target) < 0;
    assert [s[0]] + s[1..] == s;
  }

  /** The scan steps over a first character that does not start the target. */
  lemma {:induction false} ReplaceSkipFound(s: string, target: string, replacement: string)
    requires |target| > 0 && |s| >= |target| && s[..|target|] != target
    requires IndexOf(s[1..], target) >= 0
    requires ReplacedAtFirst(s[1..], target, replacement)
    ensures ReplacedAtFirst(s, target, replacement)
  {
    var j := IndexOf(s[1..], target);
    assert IndexOf(s, target) == j + 1;
    ReplaceSkipFoundAt(s, target, replacement, j);
  }

  /** The same step, with the position in the rest of the text named `j`. */
  lemma {:induction false} ReplaceSkipFoundAt(s: string, target: string, replacement: string, j: int)
    requires |target| > 0 && |s| >= |target| && s[..|target|] != target
    requires j == IndexOf(s[1..], target) && j >= 0
    requires Replace(s[1..], target, replacement)
      == s[1..][..j] + replacement + Replace(s[1..][j + |target|..], target, replacement)
    ensures IndexOf(s, target) == j + 1
    ensures Replace(s, target, replacement)
      == s[..j + 1] + replacement + Replace(s[j + 1 + |target|..], target, replacement)
  {
    var n := |target|;
    var t := s[1..];
    var rest := Replace(t[j + n..], target, replacement);
    assert t[j + n..] == s[j + 1 + n..];
    assert [s[0]] + t[..j] == s[..j + 1];
    var tail := s[j + 1 + n..];
    assert rest == Replace(tail, target, replacement);
    calc {
      Replace(s, target, replacement);
      [s[0]] + Replace(t, target, replacement);
      [s[0]] + (t[..j] + replacement + rest);
      ([s[0]] + t[..j]) + replacement + rest;
      s[..j + 1] + replacement + rest;
      s[..j + 1] + replacement + Replace(tail, target, replacement);
    }
  }

  /** A replacement no longer than its target never lengthens the text, and
      shortens it whenever the target occurs. */
  lemma {:induction false} ReplaceLength(s: string, target: string, replacement: string)
    requires |target| > 0 && |replacement| <= |target|
    ensures |Replace(s, target, replacement)| <= |s|
    ensures |replacement| < |target| && Contains(s, target) ==> |Replace(s, target, replacement)| < |s|
    decreases |s|
  {
    if |s| >= |target| {
      if s[..|target|] == target {
        ReplaceLength(s[|target|..], target, replacement);
      } else {
        ReplaceLength(s[1..], target, replacement);
        if Contains(s, target) {
          var k := IndexOf(s, target);
          OccursAtShift(s, target, k);
          OccurrenceFound(s[1..], target, k - 1);
        }
      }
    }
  }

  /** With a strictly shorter replacement, `replace` changes the text exactly
      when the target occurs in it. */
  lemma {:induction false} ReplaceChangesIffOccurs(s: string, target: string, replacement: string)
    requires |target| > 0 && |replacement| < |target|
    ensures Replace(s, target, replacement) == s <==> !Contains(s, target)
  {
    ReplaceLength(s, target, replacement);
    ReplaceAtFirstOccurrence(s, target, replacement);
  }
}
