/** The few JavaScript string operations the settings code relies on: `trim`, `indexOf`, `split` and `startsWith`. */
module Strings {

  /** The characters `String.prototype.trim` removes: the white space and line terminators of ECMAScript. */
  predicate IsWhitespace(c: char)
  {
    c == ' ' || c == '\t' || c == '\n' || c == '\r' || c == '\U{B}' || c == '\U{C}' ||
    c == '\U{A0}' || c == '\U{1680}' || ('\U{2000}' <= c <= '\U{200A}') || c == '\U{2028}' ||
    c == '\U{2029}' || c == '\U{202F}' || c == '\U{205F}' || c == '\U{3000}' || c == '\U{FEFF}'
  }

  /** Neither end of `s` is white space, so trimming leaves it as it is. */
  predicate IsTrimmed(s: string)
  {
    s == [] || (!IsWhitespace(s[0]) && !IsWhitespace(s[|s| - 1]))
  }

  function TrimStart(s: string): (r: string)
    ensures |r| <= |s| && r == s[|s| - |r|..]
    ensures r == [] || !IsWhitespace(r[0])
  {
    if s != [] && IsWhitespace(s[0]) then TrimStart(s[1..]) else s
  }

  function TrimEnd(s: string): (r: string)
    ensures |r| <= |s| && r == s[..|r|]
    ensures r == [] || !IsWhitespace(r[|r| - 1])
  {
    if s != [] && IsWhitespace(s[|s| - 1]) then TrimEnd(s[..|s| - 1]) else s
  }

  /** `r` is what is left of `s` after removing white-space characters from its ends, one at a time. */
  predicate StripsTo(s: string, r: string)
    decreases |s|
  {
    s == r ||
    (s != [] && IsWhitespace(s[0]) && StripsTo(s[1..], r)) ||
    (s != [] && IsWhitespace(s[|s| - 1]) && StripsTo(s[..|s| - 1], r))
  }

  lemma {:induction false} StripsTrimEnd(s: string)
    ensures StripsTo(s, TrimEnd(s))
    decreases |s|
  {
    if s != [] && IsWhitespace(s[|s| - 1]) {
      StripsTrimEnd(s[..|s| - 1]);
    }
  }

  /**
   * `s.trim()`: white space removed from both ends. That nothing else is removed is
   * stated by `TrimStrips` and `TrimUnique`.
   */
  function Trim(s: string): (r: string)
    ensures IsTrimmed(r)
    ensures |r| <= |s|
    ensures IsTrimmed(s) ==> r == s
  {
    TrimEnd(TrimStart(s))
  }

  /** Trimming only removes white space, one character at a time from either end. */
  lemma {:induction false} TrimStrips(s: string)
    ensures StripsTo(s, Trim(s))
    decreases |s|
  {
    if s != [] && IsWhitespace(s[0]) {
      TrimStrips(s[1..]);
      TrimDropsFirst(s);
    } else {
      assert TrimStart(s) == s;
      StripsTrimEnd(s);
    }
  }

  /** The one text that is stripped from `s` and trimmed is `s.trim()`. */
  lemma {:induction false} TrimUnique(s: string, r: string)
    requires StripsTo(s, r) && IsTrimmed(r)
    ensures r == Trim(s)
    decreases |s|, 1
  {
    if s == r {
    } else if s != [] && IsWhitespace(s[0]) && StripsTo(s[1..], r) {
      TrimUnique(s[1..], r);
      TrimDropsFirst(s);
    } else {
      TrimUniqueLast(s, r);
    }
  }

  lemma {:induction false} TrimUniqueLast(s: string, r: string)
    requires s != [] && IsWhitespace(s[|s| - 1]) && StripsTo(s[..|s| - 1], r) && IsTrimmed(r)
    ensures r == Trim(s)
    decreases |s|, 0
  {
    TrimUnique(s[..|s| - 1], r);
    TrimDropsLast(s);
  }

  /** Trimming ignores white space at the start. */
  lemma TrimDropsFirst(s: string)
    requires s != [] && IsWhitespace(s[0])
    ensures Trim(s) == Trim(s[1..])
  {
    assert TrimStart(s) == TrimStart(s[1..]);
  }

  /** Trimming ignores white space at the end. */
  lemma TrimDropsLast(s: string)
    requires s != [] && IsWhitespace(s[|s| - 1])
    ensures Trim(s) == Trim(s[..|s| - 1])
  {
    var init, c := s[..|s| - 1], s[|s| - 1];
    assert s == init + [c];
    TrimStartSnoc(init, c);
    var t := TrimStart(init);
    if t != [] {
      assert (t + [c])[..|t|] == t;
    }
  }

  lemma {:induction false} TrimStartSnoc(s: string, c: char)
    requires IsWhitespace(c)
    ensures TrimStart(s) == [] ==> TrimStart(s + [c]) == []
    ensures TrimStart(s) != [] ==> TrimStart(s + [c]) == TrimStart(s) + [c]
    decreases |s|
  {
    var sc := s + [c];
    if s == [] {
      assert sc[1..] == [];
      assert TrimStart(sc) == TrimStart(sc[1..]);
    } else {
      assert sc[0] == s[0];
      if IsWhitespace(s[0]) {
        assert sc[1..] == s[1..] + [c];
        TrimStartSnoc(s[1..], c);
        assert TrimStart(sc) == TrimStart(sc[1..]);
        assert TrimStart(s) == TrimStart(s[1..]);
      } else {
        assert TrimStart(sc) == sc;
        assert TrimStart(s) == s;
      }
    }
  }

  /** A character absent from a text is absent from every slice of it. */
  lemma NotInSlice(s: string, c: char, lo: nat, hi: nat)
    requires c !in s && lo <= hi <= |s|
    ensures c !in s[lo..hi]
  {
    forall i | 0 <= i < hi - lo
      ensures s[lo..hi][i] != c
    {
      assert s[lo..hi][i] == s[lo + i];
    }
  }

  /** Trimming adds no character. */
  lemma TrimWithout(s: string, c: char)
    requires c !in s
    ensures c !in Trim(s)
  {
    var t := TrimStart(s);
    NotInSlice(s, c, |s| - |t|, |s|);
    var r := TrimEnd(t);
    NotInSlice(t, c, 0, |r|);
  }

  lemma TrimLeadingSpace(s: string)
    requires IsTrimmed(s)
    ensures Trim([' '] + s) == s
  {
    var spaced := [' '] + s;
    assert spaced[1..] == s;
    TrimDropsFirst(spaced);
  }

  /** `s.indexOf(c)`, with "not found" given as `|s|` instead of -1. */
  function IndexOf(s: string, c: char): (i: nat)
    ensures i <= |s|
    ensures forall j :: 0 <= j < i ==> s[j] != c
    ensures i < |s| ==> s[i] == c
  {
    if s == [] || s[0] == c then 0 else 1 + IndexOf(s[1..], c)
  }

  /** The part of `s` before the first `c`, all of `s` when it holds none. */
  function UpTo(s: string, c: char): (r: string)
    ensures c !in r
    ensures |r| <= |s| && r == s[..|r|]
    ensures c !in s ==> r == s
    ensures |r| < |s| ==> s[|r|] == c
  {
    s[..IndexOf(s, c)]
  }

  lemma IndexOfAfter(a: string, c: char, b: string)
    requires c !in a
    ensures IndexOf(a + b, c) == |a| + IndexOf(b, c)
  {
    var k := IndexOf(b, c);
    forall j | 0 <= j < |a| + k
      ensures (a + b)[j] != c
    {
      if j < |a| { assert (a + b)[j] == a[j]; } else { assert (a + b)[j] == b[j - |a|]; }
    }
    if k < |b| {
      assert (a + b)[|a| + k] == b[k];
    }
  }

  lemma UpToAfter(a: string, c: char, b: string)
    requires c !in a
    ensures UpTo(a + b, c) == a + UpTo(b, c)
  {
    var k := IndexOf(b, c);
    IndexOfAfter(a, c, b);
    assert (a + b)[..|a| + k] == a + b[..k] by {
      forall i | 0 <= i < |a| + k
        ensures (a + b)[..|a| + k][i] == (a + b[..k])[i]
      {
      }
    }
  }

  lemma UpToBefore(a: string, c: char, b: string)
    requires b == [] || b[0] == c
    ensures UpTo(a + b, c) == UpTo(a, c)
  {
    var i := IndexOf(a, c);
    forall j | 0 <= j < i
      ensures (a + b)[j] != c
    {
      assert (a + b)[j] == a[j];
    }
    if i < |a| {
      assert (a + b)[i] == a[i];
    } else if b != [] {
      assert (a + b)[|a|] == b[0];
    } else {
      assert a + b == a;
    }
    assert (a + b)[..i] == a[..i];
  }

  /** The pieces of a `Split`, put back together with the separator between them. */
  function Join(parts: seq<string>, sep: char): string
    requires |parts| >= 1
  {
    if |parts| == 1 then parts[0] else parts[0] + [sep] + Join(parts[1..], sep)
  }

  /** `s.split(sep)` for a one-character separator: never empty, one more piece than `s` holds separators. */
  function Split(s: string, sep: char): (parts: seq<string>)
    ensures |parts| >= 1
    ensures forall p :: p in parts ==> sep !in p
    ensures Join(parts, sep) == s
    decreases |s|
  {
    var i := IndexOf(s, sep);
    if i == |s| then
      assert s[..i] == s;
      [s]
    else
      var rest := Split(s[i + 1..], sep);
      var parts := [s[..i]] + rest;
      assert parts[1..] == rest;
      assert s == s[..i] + [sep] + s[i + 1..];
      parts
  }

  lemma SplitFirst(s: string, sep: char)
    ensures Split(s, sep)[0] == UpTo(s, sep)
  {
  }

  lemma SplitAfter(a: string, sep: char, b: string)
    requires sep !in a
    ensures Split(a + [sep] + b, sep) == [a] + Split(b, sep)
  {
    var s := a + [sep] + b;
    IndexOfAfter(a, sep, [sep] + b);
    assert s == a + ([sep] + b);
    assert s[..|a|] == a && s[|a| + 1..] == b;
  }

  /** Splitting undoes joining, when no piece holds the separator. */
  lemma {:induction false} SplitJoin(parts: seq<string>, sep: char)
    requires |parts| >= 1
    requires forall p :: p in parts ==> sep !in p
    ensures Split(Join(parts, sep), sep) == parts
  {
    if |parts| == 1 {
      IndexOfAfter(parts[0], sep, []);
      assert parts[0] + [] == parts[0];
    } else {
      assert parts[0] in parts;
      SplitAfter(parts[0], sep, Join(parts[1..], sep));
      SplitJoin(parts[1..], sep);
      assert parts == [parts[0]] + parts[1..];
    }
  }

  /** `s.startsWith(prefix)` */
  predicate StartsWith(s: string, prefix: string)
  {
    |prefix| <= |s| && s[..|prefix|] == prefix
  }
}
