/**
  The Python built-ins the core leans on (`str.strip`, `str.split`,
  `str.title`, prefix slicing `xs[:n]`), written out for ASCII text.
 */
module PyBuiltins {

  /** The ASCII characters for which Python's `str.isspace()` holds:
      tab, line feed, vertical tab, form feed, carriage return, the four
      information separators 0x1C-0x1F, and space. */
  predicate IsSpace(c: char) {
    ('\t' <= c <= '\r') || ('\U{1C}' <= c <= '\U{1F}') || c == ' '
  }

  predicate AllSpace(s: string) {
    forall k :: 0 <= k < |s| ==> IsSpace(s[k])
  }

  /** Neither end of `s` is whitespace. */
  predicate Trimmed(s: string) {
    s == [] || (!IsSpace(s[0]) && !IsSpace(s[|s| - 1]))
  }

  /** Number of occurrences of `c` in `s`. */
  function Count(s: string, c: char): nat {
    if s == [] then 0 else (if s[0] == c then 1 else 0) + Count(s[1..], c)
  }

  // ---------------------------------------------------------------- strip

  function StripLeft(s: string): string {
    if s != [] && IsSpace(s[0]) then StripLeft(s[1..]) else s
  }

  function StripRight(s: string): string {
    if s != [] && IsSpace(s[|s| - 1]) then StripRight(s[..|s| - 1]) else s
  }

  /** `s.strip()`: `s` with its leading and trailing whitespace removed. */
  function Strip(s: string): string {
    StripRight(StripLeft(s))
  }

  /** `lstrip` removes a whitespace-only head and stops at the first other
      character. */
  lemma {:induction false} StripLeftSpec(s: string)
    ensures var r := StripLeft(s);
      |r| <= |s| && r == s[|s| - |r|..] && AllSpace(s[..|s| - |r|])
      && (r == [] || !IsSpace(r[0]))
  {
    if s != [] && IsSpace(s[0]) {
      StripLeftSpec(s[1..]);
      var r := StripLeft(s[1..]);
      assert s[..|s| - |r|] == [s[0]] + s[1..][..|s| - 1 - |r|];
    }
  }

  /** `rstrip` removes a whitespace-only tail and stops at the last other
      character. */
  lemma {:induction false} StripRightSpec(s: string)
    ensures var r := StripRight(s);
      |r| <= |s| && r == s[..|r|] && AllSpace(s[|r|..])
      && (r == [] || !IsSpace(r[|r| - 1]))
  {
    if s != [] && IsSpace(s[|s| - 1]) {
      StripRightSpec(s[..|s| - 1]);
      var r := StripRight(s[..|s| - 1]);
      assert s[|r|..] == s[..|s| - 1][|r|..] + [s[|s| - 1]];
    }
  }

  /** What `strip` promises: the result is the infix of `s` left after
      cutting a whitespace-only head and a whitespace-only tail, and it
      starts and ends on a non-whitespace character. */
  lemma StripSpec(s: string) returns (i: nat, j: nat)
    ensures i <= j <= |s| && Strip(s) == s[i..j]
    ensures AllSpace(s[..i]) && AllSpace(s[j..])
    ensures Trimmed(Strip(s))
  {
    var l := StripLeft(s);
    StripLeftSpec(s);
    StripRightSpec(l);
    var r := StripRight(l);
    i := |s| - |l|;
    j := i + |r|;
    assert l == s[i..] && r == l[..|r|];
    assert s[i..j] == l[..j - i] == r;
    assert s[j..] == l[j - i..];
    assert r != [] ==> r[0] == l[0];
  }

  lemma StripEmpty()
    ensures Strip("") == ""
  {
    assert StripLeft("") == "";
  }

  /** Stripping only removes characters: whatever `Strip(s)` holds, `s` holds. */
  lemma StripKeeps(s: string, c: char)
    ensures c in Strip(s) ==> c in s
  {
    var i, j := StripSpec(s);
    if c in Strip(s) {
      var k :| 0 <= k < |s[i..j]| && s[i..j][k] == c;
      assert s[i + k] == c;
    }
  }

  // ---------------------------------------------------------------- split

  /** `s.split(sep)` for a one-character separator: the pieces between
      separators, including empty ones, in order. */
  function Split(s: string, sep: char): (r: seq<string>)
    ensures |r| == Count(s, sep) + 1
    ensures forall k :: 0 <= k < |r| ==> sep !in r[k]
  {
    if s == [] then [""]
    else
      var rest := Split(s[1..], sep);
      if s[0] == sep then [""] + rest
      else [[s[0]] + rest[0]] + rest[1..]
  }

  /** `sep.join(parts)`. */
  function Join(parts: seq<string>, sep: char): string {
    if parts == [] then ""
    else if |parts| == 1 then parts[0]
    else parts[0] + [sep] + Join(parts[1..], sep)
  }

  /** Splitting loses nothing: joining the pieces back gives the input. */
  lemma {:induction false} SplitJoin(s: string, sep: char)
    ensures Join(Split(s, sep), sep) == s
  {
    if s != [] {
      var rest := Split(s[1..], sep);
      SplitJoin(s[1..], sep);
      if s[0] == sep {
        assert Split(s, sep) == [""] + rest;
        assert ([""] + rest)[1..] == rest;
      } else {
        var r := Split(s, sep);
        assert r == [[s[0]] + rest[0]] + rest[1..];
        if |rest| == 1 {
          assert Join(rest, sep) == rest[0];
        } else {
          assert r[1..] == rest[1..];
          assert Join(rest, sep) == rest[0] + [sep] + Join(rest[1..], sep);
        }
      }
    }
  }

  /** Splitting at the first separator. */
  lemma {:induction false} SplitFirst(a: string, sep: char, b: string)
    requires sep !in a
    ensures Split(a + [sep] + b, sep) == [a] + Split(b, sep)
  {
    if a == [] {
      assert a + [sep] + b == [sep] + b;
      assert ([sep] + b)[1..] == b;
    } else {
      SplitFirst(a[1..], sep, b);
      assert (a + [sep] + b)[1..] == a[1..] + [sep] + b;
      assert [a[0]] + a[1..] == a;
    }
  }

  /** A text that ends on the separator ends with an empty piece. */
  lemma {:induction false} SplitTrailingSeparator(s: string, sep: char)
    requires s != [] && s[|s| - 1] == sep
    ensures Split(s, sep)[|Split(s, sep)| - 1] == ""
  {
    if |s| > 1 {
      var rest := s[1..];
      SplitTrailingSeparator(rest, sep);
      assert rest[|rest| - 1] == sep;
      CountLast(rest, sep);
    }
  }

  lemma {:induction false} CountLast(s: string, c: char)
    requires s != [] && s[|s| - 1] == c
    ensures Count(s, c) >= 1
  {
    if |s| > 1 {
      CountLast(s[1..], c);
    }
  }

  // ---------------------------------------------------------------- title

  predicate IsLetter(c: char) {
    'a' <= c <= 'z' || 'A' <= c <= 'Z'
  }

  function Upper(c: char): (u: char)
    ensures IsLetter(c) ==> 'A' <= u <= 'Z'
  {
    if 'a' <= c <= 'z' then (c as int - 32) as char else c
  }

  function Lower(c: char): (l: char)
    ensures IsLetter(c) ==> 'a' <= l <= 'z'
  {
    if 'A' <= c <= 'Z' then (c as int + 32) as char else c
  }

  /** `str.title` on the rest of a string, given whether the character just
      before it was a letter (a cased character). */
  function TitleAfter(s: string, afterLetter: bool): string {
    if s == [] then []
    else if IsLetter(s[0]) then
      [if afterLetter then Lower(s[0]) else Upper(s[0])] + TitleAfter(s[1..], true)
    else
      [s[0]] + TitleAfter(s[1..], false)
  }

  /** `s.title()` restricted to ASCII. */
  function Title(s: string): string {
    TitleAfter(s, false)
  }

  /** Reference definition of `title` character by character: a letter is
      upper-cased when it opens a word (nothing or a non-letter before it)
      and lower-cased otherwise; every other character is kept. */
  function TitleCharAt(s: string, i: nat): char
    requires i < |s|
  {
    if !IsLetter(s[i]) then s[i]
    else if i == 0 || !IsLetter(s[i - 1]) then Upper(s[i])
    else Lower(s[i])
  }

  /** `TitleAfter` at position `i`: the reference definition, where the
      character before position 0 counts as a letter exactly when
      `afterLetter` holds. */
  lemma {:induction false} TitleAfterAt(s: string, afterLetter: bool, i: nat)
    requires i < |s|
    ensures |TitleAfter(s, afterLetter)| == |s|
    ensures TitleAfter(s, afterLetter)[i] ==
      if !IsLetter(s[i]) then s[i]
      else if (if i == 0 then afterLetter else IsLetter(s[i - 1])) then Lower(s[i])
      else Upper(s[i])
    decreases i
  {
    TitleAfterLength(s[1..], IsLetter(s[0]));
    if i > 0 {
      TitleAfterAt(s[1..], IsLetter(s[0]), i - 1);
      assert s[1..][i - 1] == s[i];
      if i > 1 {
        assert s[1..][i - 2] == s[i - 1];
      }
    }
  }

  lemma {:induction false} TitleAfterLength(s: string, afterLetter: bool)
    ensures |TitleAfter(s, afterLetter)| == |s|
  {
    if s != [] {
      TitleAfterLength(s[1..], IsLetter(s[0]));
    }
  }

  /** `title` keeps the length and follows the reference definition at every
      position. */
  lemma TitleSpec(s: string)
    ensures |Title(s)| == |s|
    ensures forall i :: 0 <= i < |s| ==> Title(s)[i] == TitleCharAt(s, i)
  {
    TitleAfterLength(s, false);
    forall i | 0 <= i < |s|
      ensures Title(s)[i] == TitleCharAt(s, i)
    {
      TitleAfterAt(s, false, i);
    }
  }

  // ------------------------------------------------------------- slicing

  /** How many items `xs[:n]` keeps of a list of `len` items. */
  function PrefixLength(len: nat, n: int): nat {
    if n >= 0 then (if n < len then n else len)
    else (if len + n > 0 then len + n else 0)
  }

  /** `xs[:n]`: the first `n` items, or, for negative `n`, all but the last
      `-n` items; never more than the whole list. */
  function Take<T>(xs: seq<T>, n: int): (r: seq<T>)
    ensures |r| <= |xs| && r == xs[..|r|]
    ensures n >= 0 ==> |r| == (if n < |xs| then n else |xs|)
    ensures n < 0 ==> |r| == (if |xs| + n > 0 then |xs| + n else 0)
  {
    if n >= 0 then (if n < |xs| then xs[..n] else xs)
    else (if |xs| + n > 0 then xs[..|xs| + n] else [])
  }
}
