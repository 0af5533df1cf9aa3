/** The string helpers the build-file pipeline relies on: `str.strip()`, `str.split()`,
    `str.split(c)`, `c.join(parts)` and the first occurrence of a character, where
    `split('=', maxsplit=1)` cuts. Whitespace is the set of ASCII characters Python's
    `str.isspace()` accepts; its non-ASCII whitespace is not modelled. */
module Text {

  /** The ASCII characters that `str.strip()` and `str.split()` treat as whitespace:
      space, tab, line feed, vertical tab, form feed, carriage return, and the four
      information separators U+001C to U+001F. */
  predicate IsWhite(c: char) {
    c == ' ' || c == '\t' || c == '\n' || c == '\U{B}' || c == '\U{C}' || c == '\r' ||
    c == '\U{1C}' || c == '\U{1D}' || c == '\U{1E}' || c == '\U{1F}'
  }

  predicate NoWhite(s: string) {
    forall k :: 0 <= k < |s| ==> !IsWhite(s[k])
  }

  /** `s.lstrip()`: drops the leading whitespace of `s`. */
  function TrimStart(s: string): (r: string)
    ensures |r| <= |s|
  {
    if s != [] && IsWhite(s[0]) then TrimStart(s[1..]) else s
  }

  /** `s.rstrip()`: drops the trailing whitespace of `s`. */
  function TrimEnd(s: string): (r: string)
    ensures |r| <= |s|
  {
    if s != [] && IsWhite(s[|s| - 1]) then TrimEnd(s[..|s| - 1]) else s
  }

  /** `s.strip()`. */
  function Trim(s: string): string {
    TrimEnd(TrimStart(s))
  }

  /** `lstrip()` leaves a suffix: only whitespace is cut off, and the result does not start
      with whitespace. */
  lemma {:induction false} TrimStartSpec(s: string)
    ensures var r := TrimStart(s);
      |r| <= |s| && r == s[|s| - |r|..] &&
      (forall k :: 0 <= k < |s| - |r| ==> IsWhite(s[k])) &&
      (r == [] || !IsWhite(r[0]))
    decreases |s|
  {
    if s != [] && IsWhite(s[0]) {
      TrimStartSpec(s[1..]);
    }
  }

  /** `rstrip()` leaves a prefix: only whitespace is cut off, and the result does not end
      with whitespace. */
  lemma {:induction false} TrimEndSpec(s: string)
    ensures var r := TrimEnd(s);
      |r| <= |s| && r == s[..|r|] &&
      (forall k :: |r| <= k < |s| ==> IsWhite(s[k])) &&
      (r == [] || !IsWhite(r[|r| - 1]))
    decreases |s|
  {
    if s != [] && IsWhite(s[|s| - 1]) {
      TrimEndSpec(s[..|s| - 1]);
    }
  }

  /** `strip()` leaves no whitespace at either end. */
  lemma TrimEnds(s: string)
    ensures var r := Trim(s);
      r == [] || (!IsWhite(r[0]) && !IsWhite(r[|r| - 1]))
  {
    var t := TrimStart(s);
    TrimStartSpec(s);
    TrimEndSpec(t);
    var r := TrimEnd(t);
    if r != [] {
      assert r[0] == t[0];
    }
  }

  /** `strip()` leaves the slice of `s` that starts where `lstrip()` stopped, and only
      whitespace lies outside it. */
  lemma TrimSlice(s: string)
    ensures var r := Trim(s);
      var i := |s| - |TrimStart(s)|;
      i + |r| <= |s| && r == s[i..i + |r|] &&
      (forall k :: 0 <= k < i ==> IsWhite(s[k])) &&
      (forall k :: i + |r| <= k < |s| ==> IsWhite(s[k]))
  {
    var t := TrimStart(s);
    TrimStartSpec(s);
    var i := |s| - |t|;
    TrimEndSpec(t);
    var r := TrimEnd(t);
    SliceOfSuffix(s, t, r, i);
  }

  lemma SliceOfSuffix(s: string, t: string, r: string, i: nat)
    requires i <= |s| && t == s[i..]
    requires |r| <= |t| && r == t[..|r|] && forall k :: |r| <= k < |t| ==> IsWhite(t[k])
    ensures i + |r| <= |s| && r == s[i..i + |r|]
    ensures forall k :: i + |r| <= k < |s| ==> IsWhite(s[k])
  {
    forall k | i + |r| <= k < |s|
      ensures IsWhite(s[k])
    {
      assert s[k] == t[k - i];
    }
  }

  /** A string that already has no whitespace at either end is its own `strip()`. */
  lemma TrimKeepsTrimmed(s: string)
    requires s == [] || (!IsWhite(s[0]) && !IsWhite(s[|s| - 1]))
    ensures Trim(s) == s
  {
    assert TrimStart(s) == s;
    assert TrimEnd(s) == s;
  }

  /** Length of the leading run of non-whitespace characters of `s`. */
  function TokenLength(s: string): (n: nat)
    ensures n <= |s|
    ensures forall k :: 0 <= k < n ==> !IsWhite(s[k])
    ensures n == |s| || IsWhite(s[n])
  {
    if s == [] || IsWhite(s[0]) then 0 else 1 + TokenLength(s[1..])
  }

  /** `s.split()` with no separator: the maximal runs of non-whitespace, in order,
      with no empty word. */
  function Words(s: string): (ws: seq<string>)
    ensures forall i :: 0 <= i < |ws| ==> ws[i] != [] && NoWhite(ws[i])
    decreases |s|
  {
    if s == [] then []
    else if IsWhite(s[0]) then Words(s[1..])
    else
      var n := TokenLength(s);
      [s[..n]] + Words(s[n..])
  }

  /** A single word splits into itself. */
  lemma WordsOfWord(s: string)
    requires s != [] && NoWhite(s)
    ensures Words(s) == [s]
  {
    assert TokenLength(s) == |s|;
    assert s[..|s|] == s && s[|s|..] == [];
    assert Words(s) == [s] + Words([]);
  }

  /** A word ends exactly where whitespace or the string ends: a maximal run of
      non-whitespace is split off as one word, and the rest is split on its own. */
  lemma WordsSeparated(w: string, rest: string)
    requires w != [] && NoWhite(w) && (rest == [] || IsWhite(rest[0]))
    ensures Words(w + rest) == [w] + Words(rest)
  {
    var s := w + rest;
    TokenLengthOfWord(w, rest);
    assert s[..|w|] == w && s[|w|..] == rest;
  }

  lemma {:induction false} TokenLengthOfWord(w: string, rest: string)
    requires NoWhite(w) && (rest == [] || IsWhite(rest[0]))
    ensures TokenLength(w + rest) == |w|
    decreases |w|
  {
    if w == [] {
      assert w + rest == rest;
    } else {
      assert (w + rest)[0] == w[0] && (w + rest)[1..] == w[1..] + rest;
      TokenLengthOfWord(w[1..], rest);
    }
  }

  /** Leading whitespace produces no word. */
  lemma WordsSkipWhite(c: char, rest: string)
    requires IsWhite(c)
    ensures Words([c] + rest) == Words(rest)
  {
    assert ([c] + rest)[1..] == rest;
  }

  /** A string of whitespace only has no words. */
  lemma {:induction false} WordsOfWhite(s: string)
    requires forall k :: 0 <= k < |s| ==> IsWhite(s[k])
    ensures Words(s) == []
    decreases |s|
  {
    if s != [] {
      WordsOfWhite(s[1..]);
    }
  }

  /** `s` with every whitespace character deleted. */
  function RemoveWhite(s: string): string {
    if s == [] then [] else (if IsWhite(s[0]) then [] else [s[0]]) + RemoveWhite(s[1..])
  }

  function Concat(ws: seq<string>): string {
    if ws == [] then [] else ws[0] + Concat(ws[1..])
  }

  lemma {:induction false} RemoveWhiteAppend(a: string, b: string)
    ensures RemoveWhite(a + b) == RemoveWhite(a) + RemoveWhite(b)
  {
    if a == [] {
      assert a + b == b;
    } else {
      assert (a + b)[1..] == a[1..] + b;
      RemoveWhiteAppend(a[1..], b);
    }
  }

  lemma {:induction false} RemoveWhiteOfNoWhite(s: string)
    requires NoWhite(s)
    ensures RemoveWhite(s) == s
  {
    if s != [] {
      RemoveWhiteOfNoWhite(s[1..]);
    }
  }

  lemma ConcatCons(w: string, ws: seq<string>)
    ensures Concat([w] + ws) == w + Concat(ws)
  {
    assert ([w] + ws)[1..] == ws;
  }

  /** The words of `s`, put back together, are exactly the non-whitespace characters
      of `s` in their original order: `split()` loses nothing but whitespace. */
  lemma {:induction false} WordsKeepNonWhite(s: string)
    ensures Concat(Words(s)) == RemoveWhite(s)
    decreases |s|
  {
    if s != [] {
      if IsWhite(s[0]) {
        WordsKeepNonWhite(s[1..]);
      } else {
        var n := TokenLength(s);
        var w, rest := s[..n], s[n..];
        assert s == w + rest;
        RemoveWhiteAppend(w, rest);
        RemoveWhiteOfNoWhite(w);
        WordsKeepNonWhite(rest);
        assert Words(s) == [w] + Words(rest);
        ConcatCons(w, Words(rest));
      }
    }
  }

  /** Index of the first occurrence of `c` in `s` (where `s.split(c, maxsplit=1)` cuts). */
  function IndexOf<T(==)>(s: seq<T>, c: T): (i: nat)
    requires c in s
    ensures i < |s| && s[i] == c && c !in s[..i]
  {
    if s[0] == c then 0 else 1 + IndexOf(s[1..], c)
  }

  /** The first occurrence is unique: any index before which `c` does not occur is it. */
  lemma IndexOfUnique<T>(s: seq<T>, c: T, i: nat)
    requires i < |s| && s[i] == c && c !in s[..i]
    ensures IndexOf(s, c) == i
  {
  }

  /** `s.split(c)` for a one-character separator: the pieces between separators,
      including empty ones; never an empty list. */
  function SplitOn(s: string, c: char): (parts: seq<string>)
    ensures |parts| >= 1
    ensures forall i :: 0 <= i < |parts| ==> c !in parts[i]
    decreases |s|
  {
    if c in s then
      var i := IndexOf(s, c);
      [s[..i]] + SplitOn(s[i + 1..], c)
    else
      [s]
  }

  /** `sep.join(parts)` for a one-character separator. */
  function JoinWith(sep: char, parts: seq<string>): string
    decreases |parts|
  {
    if parts == [] then []
    else if |parts| == 1 then parts[0]
    else parts[0] + [sep] + JoinWith(sep, parts[1..])
  }

  /** `s` with every occurrence of `a` replaced by `b`, position by position. */
  function Replace(s: string, a: char, b: char): (r: string)
    ensures |r| == |s|
  {
    seq(|s|, k requires 0 <= k < |s| => if s[k] == a then b else s[k])
  }

  /** Replacing in a string cut at its first `a`. */
  lemma ReplaceAtFirst(s: string, a: char, b: char, i: nat)
    requires i < |s| && s[i] == a && a !in s[..i]
    ensures Replace(s, a, b) == s[..i] + [b] + Replace(s[i + 1..], a, b)
  {
    var lhs := s[..i] + [b] + Replace(s[i + 1..], a, b);
    forall k | 0 <= k < |s|
      ensures lhs[k] == Replace(s, a, b)[k]
    {
      if k < i {
        assert s[..i][k] == s[k];
      } else if k > i {
        assert lhs[k] == Replace(s[i + 1..], a, b)[k - i - 1];
      }
    }
  }

  /** Replacing a character that does not occur changes nothing. */
  lemma ReplaceAbsent(s: string, a: char, b: char)
    requires a !in s
    ensures Replace(s, a, b) == s
  {
    forall k | 0 <= k < |s|
      ensures Replace(s, a, b)[k] == s[k]
    {
      assert s[k] in s;
    }
  }

  /** Splitting at `a` and joining with `b` is the same as replacing every `a` by `b`. */
  lemma {:induction false} JoinSplitIsReplace(s: string, a: char, b: char)
    ensures JoinWith(b, SplitOn(s, a)) == Replace(s, a, b)
    decreases |s|
  {
    if a in s {
      var i := IndexOf(s, a);
      var rest := s[i + 1..];
      JoinSplitIsReplace(rest, a, b);
      assert SplitOn(s, a) == [s[..i]] + SplitOn(rest, a);
      assert JoinWith(b, SplitOn(s, a)) == s[..i] + [b] + JoinWith(b, SplitOn(rest, a));
      ReplaceAtFirst(s, a, b, i);
    } else {
      ReplaceAbsent(s, a, b);
    }
  }
}
