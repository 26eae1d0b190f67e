/** Python `str` operations the bot relies on, over Dafny strings (sequences of
    Unicode scalar values): `strip`, slicing `s[:n]`, `startswith`/`endswith`,
    splitting at the first separator, and ASCII case mapping. */
module Text {
  import opened Outcomes

  /** The code points Python's `str.isspace()` accepts; `strip()` and
      `split()` with no argument remove exactly these. */
  predicate IsSpace(c: char) {
    || c == ' '
    || ('\t' <= c <= '\r')
    || ('\U{1C}' <= c <= '\U{1F}')
    || c == '\U{85}' || c == '\U{A0}' || c == '\U{1680}'
    || ('\U{2000}' <= c <= '\U{200A}')
    || c == '\U{2028}' || c == '\U{2029}' || c == '\U{202F}'
    || c == '\U{205F}' || c == '\U{3000}'
  }

  predicate AllSpace(s: string) {
    forall i :: 0 <= i < |s| ==> IsSpace(s[i])
  }

  /** Neither end of `s` is whitespace: what `strip()` returns. */
  predicate IsStripped(s: string) {
    s == [] || (!IsSpace(s[0]) && !IsSpace(s[|s| - 1]))
  }

  /** How many whitespace characters `s` starts with. */
  function LeadingSpaces(s: string): (n: nat)
    ensures n <= |s|
    ensures forall i :: 0 <= i < n ==> IsSpace(s[i])
    ensures n < |s| ==> !IsSpace(s[n])
  {
    if s == [] || !IsSpace(s[0]) then 0 else 1 + LeadingSpaces(s[1..])
  }

  /** How many whitespace characters `s` ends with. */
  function TrailingSpaces(s: string): (n: nat)
    ensures n <= |s|
    ensures forall i :: |s| - n <= i < |s| ==> IsSpace(s[i])
    ensures n < |s| ==> !IsSpace(s[|s| - n - 1])
  {
    if s == [] || !IsSpace(s[|s| - 1]) then 0
    else
      var n := TrailingSpaces(s[..|s| - 1]);
      assert forall i :: |s| - 1 - n <= i < |s| - 1 ==> s[..|s| - 1][i] == s[i];
      1 + n
  }

  /** The run of leading whitespace is determined by where it stops. */
  lemma LeadingSpacesIs(s: string, n: nat)
    requires n <= |s|
    requires forall i :: 0 <= i < n ==> IsSpace(s[i])
    requires n < |s| ==> !IsSpace(s[n])
    ensures LeadingSpaces(s) == n
  {
  }

  lemma TrailingSpacesIs(s: string, n: nat)
    requires n <= |s|
    requires forall i :: |s| - n <= i < |s| ==> IsSpace(s[i])
    requires n < |s| ==> !IsSpace(s[|s| - n - 1])
    ensures TrailingSpaces(s) == n
  {
  }

  /** Python's `s.lstrip()`: drop the leading whitespace. */
  function TrimLeft(s: string): string {
    s[LeadingSpaces(s)..]
  }

  /** Python's `s.rstrip()`: drop the trailing whitespace. */
  function TrimRight(s: string): string {
    s[..|s| - TrailingSpaces(s)]
  }

  /** Python's `s.strip()`: the slice of `s` left once the whitespace at both
      ends is gone. */
  function Strip(s: string): (r: string)
    ensures IsStripped(r)
    ensures |r| <= |s|
  {
    var l := TrimLeft(s);
    assert l != [] ==> l[0] == s[LeadingSpaces(s)];
    TrimRight(l)
  }

  /** `strip()` removes whitespace at the ends and nothing else: its result
      is the slice of the text that starts after the leading whitespace, with
      only whitespace on either side. */
  lemma StripIsSlice(s: string)
    ensures var i := LeadingSpaces(s);
      && i + |Strip(s)| <= |s|
      && Strip(s) == s[i..i + |Strip(s)|]
      && AllSpace(s[..i]) && AllSpace(s[i + |Strip(s)|..])
  {
    StripSliceBody(s);
    StripSliceTail(s);
  }

  lemma StripSliceBody(s: string)
    ensures LeadingSpaces(s) + |Strip(s)| <= |s|
    ensures Strip(s) == s[LeadingSpaces(s)..LeadingSpaces(s) + |Strip(s)|]
  {
    var i := LeadingSpaces(s);
    assert Strip(s) == s[i..][..|Strip(s)|];
  }

  lemma StripSliceTail(s: string)
    ensures LeadingSpaces(s) + |Strip(s)| <= |s|
    ensures AllSpace(s[LeadingSpaces(s) + |Strip(s)|..])
  {
    var i := LeadingSpaces(s);
    var l := s[i..];
    assert s[i + |Strip(s)|..] == l[|Strip(s)|..];
  }

  /** Python's `s[:n]` for a non-negative `n`. */
  function Take(s: string, n: nat): (r: string)
    ensures |r| == if |s| <= n then |s| else n
    ensures r == s[..|r|]
  {
    if |s| <= n then s else s[..n]
  }

  predicate StartsWith(s: string, p: string) {
    |p| <= |s| && s[..|p|] == p
  }

  predicate EndsWith(s: string, p: string) {
    |p| <= |s| && s[|s| - |p|..] == p
  }

  /** Python's `s.split(sep, 1)` seen as a pair: `None` when `sep` does not
      occur (the split yields a single piece), otherwise the text before and
      after its first occurrence. */
  function SplitFirst(s: string, sep: char): (r: Option<(string, string)>)
    ensures r.None? <==> sep !in s
    ensures r.Some? ==> s == r.value.0 + [sep] + r.value.1 && sep !in r.value.0
  {
    if s == [] then None
    else if s[0] == sep then Some(([], s[1..]))
    else
      match SplitFirst(s[1..], sep)
      case None => None
      case Some(parts) => Some(([s[0]] + parts.0, parts.1))
  }

  /** Splitting at the first separator recovers the text before it. */
  lemma {:induction false} SplitFirstAt(a: string, sep: char, b: string)
    requires sep !in a
    ensures SplitFirst(a + [sep] + b, sep) == Some((a, b))
    decreases |a|
  {
    if a == [] {
      assert a + [sep] + b == [sep] + b;
      assert ([sep] + b)[1..] == b;
    } else {
      assert (a + [sep] + b)[1..] == a[1..] + [sep] + b;
      assert sep !in a[1..];
      SplitFirstAt(a[1..], sep, b);
      assert [a[0]] + a[1..] == a;
    }
  }

  /** The first separator is the only place a separator-free head can end. */
  lemma SplitFirstUnique(s: string, sep: char)
    ensures forall head, rest | s == head + [sep] + rest && sep !in head ::
      SplitFirst(s, sep) == Some((head, rest))
  {
    forall head, rest | s == head + [sep] + rest && sep !in head
      ensures SplitFirst(s, sep) == Some((head, rest))
    {
      SplitFirstAt(head, sep, rest);
    }
  }

  /** The text before and after the last occurrence of `sep`, if any. */
  function SplitLast(s: string, sep: char): (r: Option<(string, string)>)
    ensures r.None? <==> sep !in s
    ensures r.Some? ==> s == r.value.0 + [sep] + r.value.1 && sep !in r.value.1
  {
    if s == [] then None
    else if s[|s| - 1] == sep then Some((s[..|s| - 1], []))
    else
      match SplitLast(s[..|s| - 1], sep)
      case None =>
        assert s == s[..|s| - 1] + [s[|s| - 1]];
        None
      case Some(parts) => Some((parts.0, parts.1 + [s[|s| - 1]]))
  }

  /** Splitting at the last separator recovers the text after it. */
  lemma {:induction false} SplitLastAt(a: string, sep: char, b: string)
    requires sep !in b
    ensures SplitLast(a + [sep] + b, sep) == Some((a, b))
    decreases |b|
  {
    if b == [] {
      assert a + [sep] + b == a + [sep];
      assert (a + [sep])[..|a|] == a;
    } else {
      var c := b[|b| - 1];
      assert (a + [sep] + b)[..|a + [sep] + b| - 1] == a + [sep] + b[..|b| - 1];
      assert sep !in b[..|b| - 1];
      SplitLastAt(a, sep, b[..|b| - 1]);
      assert b[..|b| - 1] + [c] == b;
    }
  }

  /** `s.split(sep)`: the pieces between occurrences of `sep`, in order. */
  function SplitOn(s: string, sep: char): (r: seq<string>)
    ensures |r| >= 1
    decreases |s|
  {
    if s == [] then [[]]
    else
      var rest := SplitOn(s[1..], sep);
      if s[0] == sep then [[]] + rest
      else [[s[0]] + rest[0]] + rest[1..]
  }

  /** A piece without the separator splits to itself. */
  lemma {:induction false} SplitOnPlain(a: string, sep: char)
    requires sep !in a
    ensures SplitOn(a, sep) == [a]
    decreases |a|
  {
    if a != [] {
      assert sep !in a[1..];
      SplitOnPlain(a[1..], sep);
      assert [a[0]] + a[1..] == a;
    }
  }

  /** Splitting `a + sep + b`, with no separator in `a`, yields `a` followed
      by the pieces of `b`. */
  lemma {:induction false} SplitOnJoin(a: string, sep: char, b: string)
    requires sep !in a
    ensures SplitOn(a + [sep] + b, sep) == [a] + SplitOn(b, sep)
    decreases |a|
  {
    if a == [] {
      assert a + [sep] + b == [sep] + b;
      assert ([sep] + b)[1..] == b;
    } else {
      assert (a + [sep] + b)[1..] == a[1..] + [sep] + b;
      assert sep !in a[1..];
      SplitOnJoin(a[1..], sep, b);
      assert [a[0]] + a[1..] == a;
    }
  }

  /** ASCII lower-casing of one character. */
  function Lower(c: char): char {
    if 'A' <= c <= 'Z' then (c as int + 32) as char else c
  }

  /** ASCII upper-casing of one character. */
  function Upper(c: char): char {
    if 'a' <= c <= 'z' then (c as int - 32) as char else c
  }

  function UpperStr(s: string): (r: string)
    ensures |r| == |s|
    ensures forall i :: 0 <= i < |s| ==> r[i] == Upper(s[i])
  {
    seq(|s|, i requires 0 <= i < |s| => Upper(s[i]))
  }

  /** `a` and `b` differ at most in the letter case of ASCII letters. */
  predicate SameUpToCase(a: string, b: string) {
    |a| == |b| && forall i :: 0 <= i < |a| ==> Lower(a[i]) == Lower(b[i])
  }

  lemma UpperStrSameUpToCase(s: string)
    ensures SameUpToCase(UpperStr(s), s)
  {
  }

  /** No whitespace character is a letter, so case never changes space-ness. */
  lemma SpaceIgnoresCase(c: char, d: char)
    requires Lower(c) == Lower(d)
    ensures IsSpace(c) <==> IsSpace(d)
  {
  }

  lemma {:induction false} TrimLeftUpToCase(a: string, b: string)
    requires SameUpToCase(a, b)
    ensures SameUpToCase(TrimLeft(a), TrimLeft(b))
  {
    var n := LeadingSpaces(a);
    forall i | 0 <= i <= n && i < |a|
      ensures IsSpace(a[i]) <==> IsSpace(b[i])
    {
      SpaceIgnoresCase(a[i], b[i]);
    }
    LeadingSpacesIs(b, n);
  }

  lemma {:induction false} TrimRightUpToCase(a: string, b: string)
    requires SameUpToCase(a, b)
    ensures SameUpToCase(TrimRight(a), TrimRight(b))
  {
    var n := TrailingSpaces(a);
    forall i | |a| - n - 1 <= i < |a| && 0 <= i
      ensures IsSpace(a[i]) <==> IsSpace(b[i])
    {
      SpaceIgnoresCase(a[i], b[i]);
    }
    TrailingSpacesIs(b, n);
  }

  /** Stripping commutes with changing letter case. */
  lemma StripUpToCase(a: string, b: string)
    requires SameUpToCase(a, b)
    ensures SameUpToCase(Strip(a), Strip(b))
  {
    TrimLeftUpToCase(a, b);
    TrimRightUpToCase(TrimLeft(a), TrimLeft(b));
  }

  /** Leading whitespace never changes what `lstrip()` returns. */
  lemma TrimLeftOfSpaces(a: string, x: string)
    requires AllSpace(a)
    ensures TrimLeft(a + x) == TrimLeft(x)
  {
    var n := LeadingSpaces(x);
    forall i | 0 <= i < |a| + n
      ensures IsSpace((a + x)[i])
    {
      if i >= |a| {
        assert (a + x)[i] == x[i - |a|];
      }
    }
    if n < |x| {
      assert (a + x)[|a| + n] == x[n];
    }
    LeadingSpacesIs(a + x, |a| + n);
    assert (a + x)[|a| + n..] == x[n..];
  }

  /** Text after a non-blank part is kept as it is by `lstrip()`. */
  lemma TrimLeftAppend(x: string, y: string)
    requires !AllSpace(x)
    ensures TrimLeft(x + y) == TrimLeft(x) + y
  {
    var n := LeadingSpaces(x);
    assert n < |x|;
    forall i | 0 <= i <= n
      ensures (x + y)[i] == x[i]
    {
    }
    LeadingSpacesIs(x + y, n);
    assert (x + y)[n..] == x[n..] + y;
  }

  /** Trailing whitespace never changes what `rstrip()` returns. */
  lemma TrimRightOfSpaces(x: string, b: string)
    requires AllSpace(b)
    ensures TrimRight(x + b) == TrimRight(x)
  {
    var n := TrailingSpaces(x);
    var s := x + b;
    forall i | |s| - (n + |b|) <= i < |s|
      ensures IsSpace(s[i])
    {
      if i < |x| {
        assert s[i] == x[i];
      } else {
        assert s[i] == b[i - |x|];
      }
    }
    if n < |x| {
      assert s[|s| - (n + |b|) - 1] == x[|x| - n - 1];
    }
    TrailingSpacesIs(s, n + |b|);
    assert s[..|s| - (n + |b|)] == x[..|x| - n];
  }

  lemma TrimLeftIdempotent(s: string)
    ensures TrimLeft(TrimLeft(s)) == TrimLeft(s)
  {
    var t := TrimLeft(s);
    if t != [] {
      assert t[0] == s[LeadingSpaces(s)];
    }
    LeadingSpacesIs(t, 0);
  }

  lemma TrimLeftOfAllSpace(s: string)
    requires AllSpace(s)
    ensures TrimLeft(s) == []
  {
    LeadingSpacesIs(s, |s|);
  }

  lemma AllSpaceAppend(x: string, y: string)
    requires AllSpace(x) && AllSpace(y)
    ensures AllSpace(x + y)
  {
    forall i | 0 <= i < |x + y|
      ensures IsSpace((x + y)[i])
    {
      if i < |x| {
        assert (x + y)[i] == x[i];
      } else {
        assert (x + y)[i] == y[i - |x|];
      }
    }
  }

  lemma TrimLeftPadded(a: string, t: string, b: string)
    requires AllSpace(a)
    ensures TrimLeft(a + t + b) == TrimLeft(t + b)
  {
    assert a + t + b == a + (t + b);
    TrimLeftOfSpaces(a, t + b);
  }

  lemma StripOfSpaces(t: string, b: string)
    requires AllSpace(t) && AllSpace(b)
    ensures Strip(t + b) == Strip(t) == []
  {
    AllSpaceAppend(t, b);
    TrimLeftOfAllSpace(t + b);
    TrimLeftOfAllSpace(t);
  }

  lemma StripTrailingSpaces(t: string, b: string)
    requires !AllSpace(t) && AllSpace(b)
    ensures Strip(t + b) == Strip(t)
  {
    TrimLeftAppend(t, b);
    TrimRightOfSpaces(TrimLeft(t), b);
  }

  /** Whitespace around a text never changes what `strip()` returns. */
  lemma StripPadding(a: string, t: string, b: string)
    requires AllSpace(a) && AllSpace(b)
    ensures Strip(a + t + b) == Strip(t)
  {
    TrimLeftPadded(a, t, b);
    if AllSpace(t) {
      StripOfSpaces(t, b);
    } else {
      StripTrailingSpaces(t, b);
    }
  }

  /** `strip()` leaves an already stripped text alone. */
  lemma StripStripped(s: string)
    requires IsStripped(s)
    ensures Strip(s) == s
  {
    LeadingSpacesIs(s, 0);
    TrailingSpacesIs(s, 0);
  }

  lemma StripIdempotent(s: string)
    ensures Strip(Strip(s)) == Strip(s)
  {
    StripStripped(Strip(s));
  }

  /** Cutting a stripped text to `n` characters and stripping again gives a
      prefix of it of at most `n` characters, the whole text exactly when it
      already fitted. */
  lemma StripTake(s: string, n: nat)
    requires IsStripped(s)
    ensures |Strip(Take(s, n))| <= n
    ensures Strip(Take(s, n)) == s[..|Strip(Take(s, n))|]
    ensures Strip(Take(s, n)) == s <==> |s| <= n
  {
    var p := Take(s, n);
    if |s| <= n {
      StripStripped(s);
    } else if n > 0 {
      assert p[0] == s[0];
      LeadingSpacesIs(p, 0);
      assert TrimLeft(p) == p;
    }
  }
}
