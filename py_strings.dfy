/** The pieces of Python's `str` the client relies on: `sep.join(parts)`,
    `s.split(c)` with a one-character separator, `s.lower()`, `sub in s`
    and the decimal text of an integer. */
module PyStrings {

  /** `sep.join(parts)`. */
  function Join(sep: string, parts: seq<string>): string
    decreases |parts|
  {
    if parts == [] then ""
    else if |parts| == 1 then parts[0]
    else Join(sep, parts[..|parts| - 1]) + sep + parts[|parts| - 1]
  }

  /** `''.join(parts)`. */
  function Concat(parts: seq<string>): string {
    Join("", parts)
  }

  /** `s.split(c)`: the pieces between occurrences of `c`; never empty. */
  function Split(s: string, c: char): (pieces: seq<string>)
    ensures |pieces| >= 1
    decreases |s|
  {
    if s == [] then [""]
    else
      var p := Split(s[..|s| - 1], c);
      if s[|s| - 1] == c then p + [""]
      else p[..|p| - 1] + [p[|p| - 1] + [s[|s| - 1]]]
  }

  /** `s.replace(c, '')`. */
  function RemoveAll(s: string, c: char): (r: string)
    ensures c !in r && |r| <= |s|
    decreases |s|
  {
    if s == [] then ""
    else if s[|s| - 1] == c then RemoveAll(s[..|s| - 1], c)
    else RemoveAll(s[..|s| - 1], c) + [s[|s| - 1]]
  }

  /** A string without `c` loses nothing. */
  lemma {:induction false} RemoveAllFree(s: string, c: char)
    requires c !in s
    ensures RemoveAll(s, c) == s
    decreases |s|
  {
    if s != [] {
      RemoveAllFree(s[..|s| - 1], c);
      assert s[..|s| - 1] + [s[|s| - 1]] == s;
    }
  }

  /** Joining one more piece appends the separator and the piece. */
  lemma JoinSnoc(sep: string, p: seq<string>, e: string)
    requires |p| >= 1
    ensures Join(sep, p + [e]) == Join(sep, p) + sep + e
  {
    assert (p + [e])[..|p|] == p;
  }

  /** Extending the last piece extends the join by the same characters. */
  lemma JoinExtendLast(sep: string, p: seq<string>, x: char)
    requires |p| >= 1
    ensures Join(sep, p[..|p| - 1] + [p[|p| - 1] + [x]]) == Join(sep, p) + [x]
  {
    var q := p[..|p| - 1] + [p[|p| - 1] + [x]];
    if |p| > 1 {
      assert q[..|q| - 1] == p[..|p| - 1];
    }
  }

  /** Splitting on `c` and joining back with `c` gives the string back. */
  lemma {:induction false} SplitJoin(s: string, c: char)
    ensures Join([c], Split(s, c)) == s
    decreases |s|
  {
    if s != [] {
      var init, x := s[..|s| - 1], s[|s| - 1];
      assert init + [x] == s;
      SplitJoin(init, c);
      SplitSnoc(init, x, c);
      if x == c {
        JoinSnoc([c], Split(init, c), "");
      } else {
        JoinExtendLast([c], Split(init, c), x);
      }
    }
  }

  /** No piece of a split contains the separator. */
  lemma {:induction false} SplitPiecesFree(s: string, c: char)
    ensures forall i :: 0 <= i < |Split(s, c)| ==> c !in Split(s, c)[i]
    decreases |s|
  {
    if s != [] {
      SplitPiecesFree(s[..|s| - 1], c);
    }
  }

  /** A string without the separator splits into itself alone. */
  lemma {:induction false} SplitNoSeparator(s: string, c: char)
    requires c !in s
    ensures Split(s, c) == [s]
    decreases |s|
  {
    if s != [] {
      SplitNoSeparator(s[..|s| - 1], c);
      assert s[..|s| - 1] + [s[|s| - 1]] == s;
    }
  }

  /** One step of `Split`: appending a character either starts a new piece
      or extends the last one. */
  lemma SplitSnoc(s: string, x: char, c: char)
    ensures var p := Split(s, c);
      Split(s + [x], c) == if x == c then p + [""] else p[..|p| - 1] + [p[|p| - 1] + [x]]
  {
    assert (s + [x])[..|s|] == s;
  }

  /** Splitting distributes over one occurrence of the separator. */
  lemma {:induction false} SplitAround(a: string, b: string, c: char)
    ensures Split(a + [c] + b, c) == Split(a, c) + Split(b, c)
    decreases |b|
  {
    if b == [] {
      SplitSnoc(a, c, c);
      assert a + [c] + b == a + [c];
    } else {
      var init, y := b[..|b| - 1], b[|b| - 1];
      var s0 := a + [c] + init;
      assert a + [c] + b == s0 + [y];
      assert init + [y] == b;
      SplitAround(a, init, c);
      SplitSnoc(s0, y, c);
      SplitSnoc(init, y, c);
      ExtendLast(Split(a, c), Split(init, c), y);
    }
  }

  /** Extending the last piece of `pa + pb` extends the last piece of `pb`. */
  lemma ExtendLast(pa: seq<string>, pb: seq<string>, y: char)
    requires |pb| >= 1
    ensures var q := pa + pb;
      q[..|q| - 1] + [q[|q| - 1] + [y]] == pa + (pb[..|pb| - 1] + [pb[|pb| - 1] + [y]])
    ensures (pa + pb) + [""] == pa + (pb + [""])
  {
    var q := pa + pb;
    assert q[..|q| - 1] == pa + pb[..|pb| - 1];
    assert q[|q| - 1] == pb[|pb| - 1];
  }

  /** Joining pieces that are free of the separator and splitting again
      gives the pieces back. */
  lemma {:induction false} JoinSplit(parts: seq<string>, c: char)
    requires |parts| >= 1
    requires forall i :: 0 <= i < |parts| ==> c !in parts[i]
    ensures Split(Join([c], parts), c) == parts
    decreases |parts|
  {
    if |parts| == 1 {
      SplitNoSeparator(parts[0], c);
    } else {
      var init := parts[..|parts| - 1];
      assert init + [parts[|parts| - 1]] == parts;
      JoinSnoc([c], init, parts[|parts| - 1]);
      JoinSplit(init, c);
      SplitAround(Join([c], init), parts[|parts| - 1], c);
      SplitNoSeparator(parts[|parts| - 1], c);
      assert init + [parts[|parts| - 1]] == parts;
    }
  }

  /** Concatenating the pieces of a split drops every separator. */
  lemma {:induction false} ConcatSplit(s: string, c: char)
    ensures Concat(Split(s, c)) == RemoveAll(s, c)
    decreases |s|
  {
    if s != [] {
      var init, x := s[..|s| - 1], s[|s| - 1];
      assert init + [x] == s;
      ConcatSplit(init, c);
      SplitSnoc(init, x, c);
      if x == c {
        JoinSnoc("", Split(init, c), "");
      } else {
        JoinExtendLast("", Split(init, c), x);
      }
    }
  }

  /** A string between a fixed prefix and a fixed suffix is determined by
      the whole. */
  lemma MiddleCancels(pre: string, m1: string, m2: string, post: string)
    requires pre + m1 + post == pre + m2 + post
    ensures m1 == m2
  {
    var s1, s2 := pre + m1 + post, pre + m2 + post;
    assert |m1| == |m2|;
    assert s1[|pre|..|pre| + |m1|] == m1;
    assert s2[|pre|..|pre| + |m2|] == m2;
  }

  function LowerChar(ch: char): char {
    if 'A' <= ch <= 'Z' then (ch as int + 32) as char else ch
  }

  /** `s.lower()` on ASCII letters. */
  function Lower(s: string): string {
    seq(|s|, i requires 0 <= i < |s| => LowerChar(s[i]))
  }

  /** Lower-casing the format and the spellings of the booleans. */
  lemma LowerExamples()
    ensures Lower("SVG") == "svg" && Lower("True") == "true" && Lower("FALSE") == "false"
  {
    assert Lower("SVG") == "svg";
    assert Lower("True") == "true";
  }

  /** `sub` occurs in `s` starting at index `i`. */
  predicate OccursAt(sub: string, s: string, i: int) {
    0 <= i && i + |sub| <= |s| && s[i..i + |sub|] == sub
  }

  /** `sub in s`. */
  predicate IsSubstring(sub: string, s: string) {
    exists i | 0 <= i <= |s| :: OccursAt(sub, s, i)
  }

  function DigitChar(d: nat): char
    requires d < 10
  {
    "0123456789"[d]
  }

  /** `str(n)` for a non-negative integer. */
  function NatToDecimal(n: nat): (r: string)
    ensures |r| >= 1
    ensures forall i :: 0 <= i < |r| ==> '0' <= r[i] <= '9'
    ensures DecimalValue(r) == n
  {
    if n < 10 then [DigitChar(n)]
    else
      var r := NatToDecimal(n / 10) + [DigitChar(n % 10)];
      assert r[..|r| - 1] == NatToDecimal(n / 10);
      r
  }

  /** `str(i)`: a minus sign, then the digits of the magnitude. */
  function IntToDecimal(i: int): string {
    if i < 0 then "-" + NatToDecimal(-i) else NatToDecimal(i)
  }

  /** The number a string of decimal digits denotes. */
  function DecimalValue(s: string): nat
    requires forall i :: 0 <= i < |s| ==> '0' <= s[i] <= '9'
    decreases |s|
  {
    if s == [] then 0
    else DecimalValue(s[..|s| - 1]) * 10 + (s[|s| - 1] as int - '0' as int)
  }
}
