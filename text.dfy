/**
 * The few Python `str` operations the server relies on, on strings as
 * sequences of characters: `startswith`, `endswith`, `in`, `count`,
 * `split(sep)`, `sep.join`, `"".join` and `strip()`.
 */
module Text {

  predicate StartsWith(s: string, prefix: string) {
    |prefix| <= |s| && s[..|prefix|] == prefix
  }

  predicate EndsWith(s: string, suffix: string) {
    |suffix| <= |s| && s[|s| - |suffix|..] == suffix
  }

  /** `sub` occurs in `s` starting at index `i`. */
  predicate OccursAt(s: string, sub: string, i: int) {
    0 <= i <= |s| - |sub| && s[i..i + |sub|] == sub
  }

  /** `sub in s` for a substring `sub`. */
  predicate Contains(s: string, sub: string) {
    exists i :: 0 <= i <= |s| - |sub| && OccursAt(s, sub, i)
  }

  /** `s.count(c)` for a single character. */
  function Count(s: string, c: char): nat {
    if s == [] then 0 else (if s[0] == c then 1 else 0) + Count(s[1..], c)
  }

  /** `s.split(sep)`: the maximal pieces between occurrences of `sep`; never empty. */
  function Split(s: string, sep: char): (parts: seq<string>)
    ensures |parts| >= 1
  {
    if s == [] then [""]
    else
      var rest := Split(s[1..], sep);
      if s[0] == sep then [""] + rest else [[s[0]] + rest[0]] + rest[1..]
  }

  /** `sep.join(parts)` for a one-character separator. */
  function JoinWith(parts: seq<string>, sep: char): string {
    if |parts| == 0 then ""
    else if |parts| == 1 then parts[0]
    else JoinWith(parts[..|parts| - 1], sep) + [sep] + parts[|parts| - 1]
  }

  /** `"".join(parts)`. */
  function Concat(parts: seq<string>): string {
    if parts == [] then "" else parts[0] + Concat(parts[1..])
  }

  /** `c.isspace()` for Python 3 strings: the characters `str.strip()` removes. */
  predicate IsSpace(c: char) {
    var n := c as int;
    n == 0x20 || 0x09 <= n <= 0x0D || 0x1C <= n <= 0x1F || n == 0x85 || n == 0xA0 ||
    n == 0x1680 || 0x2000 <= n <= 0x200A || n == 0x2028 || n == 0x2029 ||
    n == 0x202F || n == 0x205F || n == 0x3000
  }

  /** The number of white-space characters `s` starts with. */
  function LeadingSpaces(s: string): (n: nat)
    ensures n <= |s| && (n == |s| || !IsSpace(s[n]))
    ensures forall i :: 0 <= i < n ==> IsSpace(s[i])
  {
    if s == [] || !IsSpace(s[0]) then 0 else 1 + LeadingSpaces(s[1..])
  }

  /** The end of `s[lo..hi]` once the white space at its end is dropped. */
  function TrailingEnd(s: string, lo: nat, hi: nat): (m: nat)
    requires lo <= hi <= |s|
    ensures lo <= m <= hi && (m == lo || !IsSpace(s[m - 1]))
    ensures forall i :: m <= i < hi ==> IsSpace(s[i])
    decreases hi
  {
    if lo < hi && IsSpace(s[hi - 1]) then TrailingEnd(s, lo, hi - 1) else hi
  }

  /**
   * `s.strip()`: the substring left once the white space at both ends is
   * removed; it starts and ends with a character that is not white space.
   */
  function Strip(s: string): (r: string)
    ensures var start := LeadingSpaces(s); start + |r| <= |s| && r == s[start..start + |r|]
    ensures r == [] || (!IsSpace(r[0]) && !IsSpace(r[|r| - 1]))
    ensures forall i :: 0 <= i < LeadingSpaces(s) ==> IsSpace(s[i])
    ensures forall i :: LeadingSpaces(s) + |r| <= i < |s| ==> IsSpace(s[i])
  {
    var start := LeadingSpaces(s);
    s[start..TrailingEnd(s, start, |s|)]
  }

  /** The number of pieces `split` yields is one more than the number of separators. */
  lemma {:induction false} SplitCount(s: string, sep: char)
    ensures |Split(s, sep)| == Count(s, sep) + 1
  {
    if s != [] {
      SplitCount(s[1..], sep);
    }
  }

  /** No piece of a split contains the separator. */
  lemma {:induction false} SplitPiecesFree(s: string, sep: char)
    ensures forall k :: 0 <= k < |Split(s, sep)| ==> sep !in Split(s, sep)[k]
  {
    if s != [] {
      SplitPiecesFree(s[1..], sep);
      var rest := Split(s[1..], sep);
      if s[0] != sep {
        assert sep !in rest[0];
        assert sep !in [s[0]] + rest[0];
      }
    }
  }

  /** A string without the separator splits into itself alone. */
  lemma {:induction false} SplitWithoutSeparator(s: string, sep: char)
    requires sep !in s
    ensures Split(s, sep) == [s]
  {
    if s != [] {
      SplitWithoutSeparator(s[1..], sep);
      assert [s[0]] + s[1..] == s;
    }
  }

  /** One step of `split`: the first character either ends the first piece or joins it. */
  lemma SplitCons(c: char, t: string, sep: char)
    ensures var rest := Split(t, sep);
      Split([c] + t, sep) == if c == sep then [""] + rest else [[c] + rest[0]] + rest[1..]
  {
    assert ([c] + t)[0] == c && ([c] + t)[1..] == t;
  }

  /** Splitting distributes over a separator placed between two strings. */
  lemma {:induction false} SplitAround(a: string, sep: char, b: string)
    ensures Split(a + [sep] + b, sep) == Split(a, sep) + Split(b, sep)
  {
    if a == [] {
      assert a + [sep] + b == [sep] + b;
      SplitCons(sep, b, sep);
    } else {
      SplitAround(a[1..], sep, b);
      SplitAroundStep(a[0], a[1..], sep, b);
      assert [a[0]] + a[1..] == a;
    }
  }

  lemma SplitAroundStep(c: char, a: string, sep: char, b: string)
    requires Split(a + [sep] + b, sep) == Split(a, sep) + Split(b, sep)
    ensures Split([c] + a + [sep] + b, sep) == Split([c] + a, sep) + Split(b, sep)
  {
    var t := a + [sep] + b;
    assert [c] + a + [sep] + b == [c] + t;
    SplitCons(c, t, sep);
    SplitCons(c, a, sep);
    PiecesAppend(if c == sep then "" else [c], c != sep, Split(a, sep), Split(b, sep));
  }

  /** Putting a piece in front of, or extending the first piece of, a piece list commutes with appending pieces. */
  lemma PiecesAppend(x: string, extend: bool, ra: seq<string>, rb: seq<string>)
    requires ra != []
    ensures extend ==> [x + (ra + rb)[0]] + (ra + rb)[1..] == ([x + ra[0]] + ra[1..]) + rb
    ensures !extend ==> [x] + (ra + rb) == ([x] + ra) + rb
  {
    assert (ra + rb)[0] == ra[0] && (ra + rb)[1..] == ra[1..] + rb;
  }

  /** Two pieces without the separator, joined by it, split back into the two. */
  lemma SplitTwo(a: string, sep: char, b: string)
    requires sep !in a && sep !in b
    ensures Split(a + [sep] + b, sep) == [a, b]
  {
    SplitAround(a, sep, b);
    SplitWithoutSeparator(a, sep);
    SplitWithoutSeparator(b, sep);
  }

  /** `last` is the suffix of `s` after its last separator. */
  predicate LastPieceOf(s: string, last: string, sep: char) {
    |last| <= |s| && last == s[|s| - |last|..] && sep !in last &&
    (|last| < |s| ==> s[|s| - |last| - 1] == sep)
  }

  /** `s.split(sep)[-1]`. */
  function LastPiece(s: string, sep: char): string {
    var parts := Split(s, sep);
    parts[|parts| - 1]
  }

  /** The last piece of a split is the suffix after the last separator. */
  lemma {:induction false} SplitLastPiece(s: string, sep: char)
    ensures LastPieceOf(s, LastPiece(s, sep), sep)
  {
    if s != [] {
      var c, t := s[0], s[1..];
      SplitLastPiece(t, sep);
      SplitLastPieceStep(c, t, sep);
      assert [c] + t == s;
    }
  }

  lemma SplitLastPieceStep(c: char, t: string, sep: char)
    requires LastPieceOf(t, LastPiece(t, sep), sep)
    ensures LastPieceOf([c] + t, LastPiece([c] + t, sep), sep)
  {
    SplitCons(c, t, sep);
    if c != sep && |Split(t, sep)| == 1 {
      LastPieceWhole(c, t, sep);
    } else {
      assert LastPiece([c] + t, sep) == LastPiece(t, sep);
      LastPieceInner(c, t, sep);
    }
  }

  /** When the rest does not split, the whole string is the last piece. */
  lemma LastPieceWhole(c: char, t: string, sep: char)
    requires c != sep && |Split(t, sep)| == 1
    requires Split([c] + t, sep) == [[c] + Split(t, sep)[0]]
    ensures LastPieceOf([c] + t, LastPiece([c] + t, sep), sep)
  {
    if sep in t {
      SplitHasTwoPieces(t, sep);
    }
    SplitWithoutSeparator(t, sep);
  }

  /** When the last piece lies in the rest, it stays the last piece. */
  lemma LastPieceInner(c: char, t: string, sep: char)
    requires LastPieceOf(t, LastPiece(t, sep), sep)
    requires c != sep ==> |Split(t, sep)| > 1
    ensures LastPieceOf([c] + t, LastPiece(t, sep), sep)
  {
    var last := LastPiece(t, sep);
    if c != sep && |last| == |t| {
      assert last == t;
      SplitWithoutSeparator(t, sep);
    }
    assert ([c] + t)[1..] == t;
  }

  /** A string holding the separator splits into at least two pieces. */
  lemma {:induction false} SplitHasTwoPieces(s: string, sep: char)
    requires sep in s
    ensures |Split(s, sep)| >= 2
  {
    if s[0] != sep {
      assert sep in s[1..];
      SplitHasTwoPieces(s[1..], sep);
    }
  }

  /** Joining and concatenating a sequence that ends in a given piece. */
  lemma JoinWithSnoc(parts: seq<string>, sep: char, x: string)
    requires parts != []
    ensures JoinWith(parts + [x], sep) == JoinWith(parts, sep) + [sep] + x
  {
    assert (parts + [x])[..|parts|] == parts;
  }

  lemma {:induction false} ConcatAppend(xs: seq<string>, ys: seq<string>)
    ensures Concat(xs + ys) == Concat(xs) + Concat(ys)
  {
    if xs != [] {
      assert (xs + ys)[0] == xs[0];
      assert (xs + ys)[1..] == xs[1..] + ys;
      ConcatAppend(xs[1..], ys);
      assert Concat(xs + ys) == xs[0] + (Concat(xs[1..]) + Concat(ys));
    } else {
      assert xs + ys == ys;
    }
  }
}
