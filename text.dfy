/** The three string operations of Rust's standard library that the shell's
    per-line step is built from: `str::trim`, `str::split(' ')` and
    `[&str]::join(" ")`. Strings are sequences of Unicode scalar values. */
module Text {

  /** `char::is_whitespace`: the characters with the Unicode White_Space property. */
  predicate IsWhitespace(c: char) {
    var n := c as int;
    (0x09 <= n <= 0x0D) || n == 0x20 || n == 0x85 || n == 0xA0 || n == 0x1680
    || (0x2000 <= n <= 0x200A) || n == 0x2028 || n == 0x2029 || n == 0x202F
    || n == 0x205F || n == 0x3000
  }

  predicate AllWhitespace(s: string) {
    forall i :: 0 <= i < |s| ==> IsWhitespace(s[i])
  }

  /** The number of whitespace characters at the front of `s`. */
  function LeadingWhitespace(s: string): (n: nat)
    ensures n <= |s|
    ensures AllWhitespace(s[..n])
    ensures n < |s| ==> !IsWhitespace(s[n])
  {
    if s != [] && IsWhitespace(s[0]) then
      var m := LeadingWhitespace(s[1..]);
      assert s[..m + 1] == [s[0]] + s[1..][..m];
      m + 1
    else 0
  }

  /** The number of whitespace characters at the back of `s`. */
  function TrailingWhitespace(s: string): (n: nat)
    ensures n <= |s|
    ensures AllWhitespace(s[|s| - n..])
    ensures n < |s| ==> !IsWhitespace(s[|s| - 1 - n])
  {
    if s != [] && IsWhitespace(s[|s| - 1]) then
      var init := s[..|s| - 1];
      var m := TrailingWhitespace(init);
      assert s[|s| - (m + 1)..] == init[|init| - m..] + [s[|s| - 1]];
      m + 1
    else 0
  }

  /** `str::trim`: `s` without its leading and trailing whitespace. The result
      neither starts nor ends with whitespace. */
  function Trim(s: string): (r: string)
    ensures r == [] || (!IsWhitespace(r[0]) && !IsWhitespace(r[|r| - 1]))
  {
    var front := s[LeadingWhitespace(s)..];
    front[..|front| - TrailingWhitespace(front)]
  }

  /** What trimming drops is whitespace only: the result is the piece of `s`
      that starts at its first non-whitespace character, with whitespace alone
      before and after it. */
  lemma TrimDropsWhitespace(s: string)
    ensures var i, r := LeadingWhitespace(s), Trim(s);
      i + |r| <= |s| && s[i..i + |r|] == r
      && AllWhitespace(s[..i]) && AllWhitespace(s[i + |r|..])
  {
    var i := LeadingWhitespace(s);
    var front := s[i..];
    var j := |front| - TrailingWhitespace(front);
    assert Trim(s) == front[..j];
    assert s[i..i + j] == front[..j];
    assert s[i + j..] == front[j..];
  }

  /** Any count of leading whitespace characters followed by a non-whitespace
      character, or by the end, is the one `LeadingWhitespace` finds. */
  lemma {:induction false} LeadingWhitespaceIs(s: string, n: nat)
    requires n <= |s| && AllWhitespace(s[..n])
    requires n < |s| ==> !IsWhitespace(s[n])
    ensures LeadingWhitespace(s) == n
  {
    if n > 0 {
      assert s[..n][0] == s[0];
      assert s[1..][..n - 1] == s[..n][1..];
      LeadingWhitespaceIs(s[1..], n - 1);
    }
  }

  /** The same for the whitespace at the back. */
  lemma {:induction false} TrailingWhitespaceIs(s: string, n: nat)
    requires n <= |s| && AllWhitespace(s[|s| - n..])
    requires n < |s| ==> !IsWhitespace(s[|s| - 1 - n])
    ensures TrailingWhitespace(s) == n
  {
    if n > 0 {
      var init := s[..|s| - 1];
      assert s[|s| - n..][n - 1] == s[|s| - 1];
      assert init[|init| - (n - 1)..] == s[|s| - n..][..n - 1];
      TrailingWhitespaceIs(init, n - 1);
    }
  }

  /** Trimming is determined by its ends: any piece of `s` that is surrounded by
      whitespace only and does not itself start or end with whitespace is what
      `Trim` returns. */
  lemma TrimSurrounded(before: string, core: string, after: string)
    requires AllWhitespace(before) && AllWhitespace(after)
    requires core == [] || (!IsWhitespace(core[0]) && !IsWhitespace(core[|core| - 1]))
    ensures Trim(before + core + after) == core
  {
    var s := before + core + after;
    if core == [] {
      assert s[..|s|] == before + after;
      assert AllWhitespace(before + after) by {
        forall k | 0 <= k < |before + after| ensures IsWhitespace((before + after)[k]) {
          if k >= |before| { assert (before + after)[k] == after[k - |before|]; }
        }
      }
      LeadingWhitespaceIs(s, |s|);
    } else {
      assert s[..|before|] == before;
      assert s[|before|] == core[0];
      LeadingWhitespaceIs(s, |before|);
      var front := s[|before|..];
      assert front == core + after;
      assert front[|front| - |after|..] == after;
      assert front[|front| - 1 - |after|] == core[|core| - 1];
      TrailingWhitespaceIs(front, |after|);
      assert front[..|front| - |after|] == core;
    }
  }

  /** `str::split(' ')`: the pieces of `s` between single space characters.
      Runs of spaces give empty pieces, and so does a space at either end.
      There is always at least one piece, and no piece holds a space. */
  function Split(s: string): (r: seq<string>)
    ensures |r| >= 1
    ensures forall p :: p in r ==> ' ' !in p
  {
    if s == [] then [""]
    else
      var rest := Split(s[1..]);
      if s[0] == ' ' then [""] + rest
      else [[s[0]] + rest[0]] + rest[1..]
  }

  /** A string with n spaces splits into n + 1 pieces. */
  lemma {:induction false} SplitCount(s: string)
    ensures |Split(s)| == multiset(s)[' '] + 1
  {
    if s != [] {
      SplitCount(s[1..]);
      assert s == [s[0]] + s[1..];
    }
  }

  /** `[&str]::join(" ")`: the pieces in order with one space between each two. */
  function Join(parts: seq<string>): string {
    if parts == [] then ""
    else if |parts| == 1 then parts[0]
    else parts[0] + " " + Join(parts[1..])
  }

  /** Whether the first space-separated word of `t` is `w`: `t` is `w` itself
      or starts with `w` followed by a space. */
  predicate BeginsWithWord(t: string, w: string) {
    t == w || (|w| < |t| && t[..|w|] == w && t[|w|] == ' ')
  }

  /** Joining the pieces of a split with single spaces gives the string back. */
  lemma {:induction false} SplitThenJoin(s: string)
    ensures Join(Split(s)) == s
  {
    if s != [] {
      var rest := Split(s[1..]);
      SplitThenJoin(s[1..]);
      if s[0] != ' ' && |rest| > 1 {
        assert Join(rest) == rest[0] + " " + Join(rest[1..]);
      }
    }
  }

  /** A word without spaces splits into itself alone. */
  lemma {:induction false} SplitWord(w: string)
    requires ' ' !in w
    ensures Split(w) == [w]
  {
    if w != [] {
      SplitWord(w[1..]);
      assert w == [w[0]] + w[1..];
    }
  }

  /** A word followed by a space contributes exactly that word as the first
      piece; the rest splits on its own. */
  lemma {:induction false} SplitAfterWord(w: string, rest: string)
    requires ' ' !in w
    ensures Split(w + " " + rest) == [w] + Split(rest)
  {
    var s := w + " " + rest;
    if w == [] {
      assert s[1..] == rest;
    } else {
      assert s[1..] == w[1..] + " " + rest;
      SplitAfterWord(w[1..], rest);
      assert [w[0]] + w[1..] == w;
    }
  }

  /** Splitting undoes joining, as long as no piece holds a space. */
  lemma {:induction false} JoinThenSplit(parts: seq<string>)
    requires |parts| >= 1
    requires forall p :: p in parts ==> ' ' !in p
    ensures Split(Join(parts)) == parts
  {
    if |parts| == 1 {
      SplitWord(parts[0]);
    } else {
      SplitAfterWord(parts[0], Join(parts[1..]));
      JoinThenSplit(parts[1..]);
    }
  }

  /** The first piece of a split is the first word of the string. */
  lemma {:induction false} FirstPieceBegins(t: string)
    ensures BeginsWithWord(t, Split(t)[0])
  {
    if t != [] && t[0] != ' ' {
      var h := Split(t[1..])[0];
      FirstPieceBegins(t[1..]);
      assert Split(t)[0] == [t[0]] + h;
      if t[1..] != h {
        assert t[..|h| + 1] == [t[0]] + t[1..][..|h|];
        assert t[|h| + 1] == t[1..][|h|];
      }
    }
  }

  /** Once the first word is known, the remaining pieces are the split of what
      follows its space. */
  lemma RestPieces(t: string, w: string)
    requires ' ' !in w
    requires BeginsWithWord(t, w)
    ensures Split(t) == if t == w then [w] else [w] + Split(t[|w| + 1..])
  {
    if t == w {
      SplitWord(w);
    } else {
      assert t == w + " " + t[|w| + 1..];
      SplitAfterWord(w, t[|w| + 1..]);
    }
  }

  /** The first piece of a split is `w` exactly when `w` is the first word. */
  lemma FirstPiece(t: string, w: string)
    requires ' ' !in w
    ensures Split(t)[0] == w <==> BeginsWithWord(t, w)
  {
    FirstPieceBegins(t);
    if BeginsWithWord(t, w) {
      RestPieces(t, w);
    }
  }

  /** When the string begins with the words `w` and `x`, they are the first two
      pieces of its split, whatever follows `x`. */
  lemma SecondPiece(t: string, w: string, x: string)
    requires ' ' !in w && ' ' !in x
    requires BeginsWithWord(t, w + " " + x)
    ensures |Split(t)| >= 2 && Split(t)[0] == w && Split(t)[1] == x
  {
    var n := |w|;
    assert t[..n] == (w + " " + x)[..n] == w;
    assert t[n] == (w + " " + x)[n] == ' ';
    RestPieces(t, w);
    var rest := t[n + 1..];
    assert BeginsWithWord(rest, x) by {
      if t != w + " " + x {
        assert rest[..|x|] == t[..n + 1 + |x|][n + 1..];
        assert rest[|x|] == t[n + 1 + |x|];
      }
    }
    RestPieces(rest, x);
  }
}
